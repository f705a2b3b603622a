/**
 Adj-RIB-Out synchronisation with one peer for one address family
 (bgpd/bgp_advertise.c, and the two senders of bgpd/bgp_packet.c).

 The C structures live in tables indexed by handles, so that allocation, freeing and
 dangling references can be talked about: a handle outside its table is a freed object.
 */
module AdjRibOut {
  import opened Wrappers

  /** A routing table node, by the prefix it holds. */
  datatype RnData = Rn(id: nat, prefixlen: nat)
  type Rn = r: RnData | r.prefixlen <= 128 witness Rn(0, 0)

  /** An interned path attribute; `wire` is the number of octets that bgp_packet_attribute writes in front
      of the prefix: all of them for IPv4 unicast, and those up to the prefix inside MP_REACH_NLRI
      otherwise. The stream has 4096 octets, of which 23 come before the attributes. */
  datatype AttrData = Attr(id: nat, wire: nat)
  type Attr = a: AttrData | a.wire <= 4073 witness Attr(0, 0)

  type AdjId = nat
  type AdvId = nat
  type BaaId = nat

  /** struct bgp_adj_out; `home` names the list it is linked in. */
  datatype AdjOut = AdjOut(peer: nat, home: Rn, attr: Option<Attr>, adv: Option<AdvId>)

  /** struct bgp_advertise */
  datatype Adv = Adv(rn: Rn, adj: AdjId, baa: Option<BaaId>)

  /** struct bgp_advertise_attr; `chain` is the adv/next/prev list, head first. */
  datatype Baa = Baa(attr: Attr, chain: seq<AdvId>, refcnt: nat)

  datatype State = State(
    self: nat,                        // the peer
    list: map<Rn, seq<AdjId>>,        // rn->adj_out
    adj: map<AdjId, AdjOut>,
    adv: map<AdvId, Adv>,
    baa: map<BaaId, Baa>,
    hash: map<Attr, BaaId>,           // peer->hash
    update: seq<AdvId>,               // sync->update
    withdraw: seq<AdvId>,             // sync->withdraw
    scount: int,                      // peer->scount
    next: nat)                        // first handle not allocated yet

  function ListOf(s: State, rn: Rn): seq<AdjId> {
    if rn in s.list then s.list[rn] else []
  }

  /** Unlinking an element from a list (FIFO_DEL, bgp_advertise_delete, BGP_ADJ_OUT_DEL). */
  function Without(q: seq<nat>, x: nat): (r: seq<nat>)
    ensures forall y: nat :: y in r <==> y in q && y != x
    ensures NoDup(q) ==> NoDup(r) && |r| == |q| - if x in q then 1 else 0
    ensures x !in q ==> r == q
  {
    if q == [] then []
    else
      assert q == [q[0]] + q[1..];
      assert NoDup(q) ==> NoDup(q[1..]) && q[0] !in q[1..];
      var r := Without(q[1..], x);
      if q[0] == x then r else [q[0]] + r
  }

  ghost predicate NoDup(q: seq<nat>) {
    forall i, j :: 0 <= i < j < |q| ==> q[i] != q[j]
  }

  ghost predicate Mine(s: State, a: AdjId) {
    a in s.adj && s.adj[a].peer == s.self
  }

  // ---- The invariant ----

  /** Every list holds live adj-outs, and this peer's are in the list of their own node. */
  ghost predicate ListedOk(s: State, rn: Rn, a: AdjId) {
    a in ListOf(s, rn) ==> a in s.adj && (Mine(s, a) ==> s.adj[a].home == rn)
  }

  ghost predicate HomeOk(s: State, a: AdjId) {
    Mine(s, a) ==> a in ListOf(s, s.adj[a].home)
  }

  /** One adj-out for each peer and node. */
  ghost predicate OneOk(s: State, a: AdjId, b: AdjId) {
    Mine(s, a) && Mine(s, b) && s.adj[a].home == s.adj[b].home ==> a == b
  }

  ghost predicate ListsOk(s: State) {
    && (forall rn: Rn, a: AdjId {:trigger ListedOk(s, rn, a)} :: ListedOk(s, rn, a))
    && (forall a: AdjId {:trigger HomeOk(s, a)} :: HomeOk(s, a))
    && (forall a: AdjId, b: AdjId {:trigger OneOk(s, a, b)} :: OneOk(s, a, b))
  }

  /** An adj-out of this peer refers to a live pending record that refers back. */
  ghost predicate AdjOk(s: State, a: AdjId) {
    Mine(s, a) && s.adj[a].adv.Some? ==>
      var v := s.adj[a].adv.value;
      v in s.adv && s.adv[v].adj == a && s.adv[v].rn == s.adj[a].home
  }

  /** It exists for a reason: the peer was told something, or is about to be. */
  ghost predicate Used(s: State, a: AdjId) {
    Mine(s, a) ==> s.adj[a].attr.Some? || s.adj[a].adv.Some?
  }

  /** A pending record belongs to one adj-out of this peer and refers to a live baa, if any. */
  ghost predicate AdvOk(s: State, v: AdvId) {
    v in s.adv ==>
      var a := s.adv[v].adj;
      && Mine(s, a) && s.adj[a].adv == Some(v) && s.adj[a].home == s.adv[v].rn
      && (s.adv[v].baa.Some? ==> s.adv[v].baa.value in s.baa)
  }

  /** It is on exactly one FIFO (update if it has a baa, withdraw if not), and on the chain of its baa. */
  ghost predicate QueuedOk(s: State, v: AdvId) {
    && (v in s.update <==> v in s.adv && s.adv[v].baa.Some?)
    && (v in s.withdraw <==> v in s.adv && s.adv[v].baa.None?)
    && (v in s.withdraw && s.adv[v].adj in s.adj ==> s.adj[s.adv[v].adj].attr.Some?)
  }

  ghost predicate ChainedOk(s: State, v: AdvId, b: BaaId) {
    b in s.baa ==> (v in s.baa[b].chain <==> v in s.adv && s.adv[v].baa == Some(b))
  }

  /** An interned baa is in the hash under its attribute and counts its chain. */
  ghost predicate BaaOk(s: State, b: BaaId) {
    b in s.baa ==>
      && s.baa[b].attr in s.hash && s.hash[s.baa[b].attr] == b
      && s.baa[b].refcnt == |s.baa[b].chain| && s.baa[b].chain != [] && NoDup(s.baa[b].chain)
  }

  ghost predicate HashOk(s: State, t: Attr) {
    t in s.hash ==> s.hash[t] in s.baa && s.baa[s.hash[t]].attr == t
  }

  /** Handles in use were allocated. */
  ghost predicate UsedHandle(s: State, i: nat) {
    i in s.adj || i in s.adv || i in s.baa ==> i < s.next
  }

  ghost predicate FreshOk(s: State) {
    forall i: nat {:trigger UsedHandle(s, i)} :: UsedHandle(s, i)
  }

  /** The adj-outs whose prefix this peer currently holds. */
  ghost function ToldSet(s: State): set<AdjId> {
    set a | a in s.adj && s.adj[a].peer == s.self && s.adj[a].attr.Some?
  }

  ghost predicate AdjsOk(s: State, ex: Option<AdjId>) {
    && (forall a: AdjId {:trigger AdjOk(s, a)} :: AdjOk(s, a))
    && (forall a: AdjId {:trigger Used(s, a)} :: ex != Some(a) ==> Used(s, a))
  }

  ghost predicate AdvsOk(s: State) {
    && (forall v: AdvId {:trigger AdvOk(s, v)} :: AdvOk(s, v))
    && (forall v: AdvId {:trigger QueuedOk(s, v)} :: QueuedOk(s, v))
    && NoDup(s.update) && NoDup(s.withdraw)
  }

  ghost predicate BaasOk(s: State) {
    && (forall t: Attr {:trigger HashOk(s, t)} :: HashOk(s, t))
    && (forall b: BaaId {:trigger BaaOk(s, b)} :: BaaOk(s, b))
    && (forall v: AdvId, b: BaaId {:trigger ChainedOk(s, v, b)} :: ChainedOk(s, v, b))
  }

  /** The invariant, but for the adj-out `ex`, which an operation in progress may have left unused. */
  ghost predicate InvBut(s: State, ex: Option<AdjId>) {
    ListsOk(s) && AdjsOk(s, ex) && AdvsOk(s) && BaasOk(s) && FreshOk(s) && s.scount == |ToldSet(s)|
  }

  ghost predicate Inv(s: State) {
    InvBut(s, None)
  }

  /** A handle that was not allocated refers to nothing. */
  lemma FreshHandle(s: State, i: nat)
    requires FreshOk(s) && i >= s.next
    ensures i !in s.adj && i !in s.adv && i !in s.baa
  {
    assert UsedHandle(s, i);
  }

  // ---- What the structures mean ----

  /** The loop over rn->adj_out that looks for this peer. */
  function FindIn(s: State, l: seq<AdjId>): (r: Option<AdjId>)
    ensures r.Some? ==> r.value in l && r.value in s.adj && s.adj[r.value].peer == s.self
    ensures r.None? ==> forall a :: a in l && a in s.adj ==> s.adj[a].peer != s.self
  {
    if l == [] then None
    else if l[0] in s.adj && s.adj[l[0]].peer == s.self then Some(l[0])
    else FindIn(s, l[1..])
  }

  function AdjAt(s: State, rn: Rn): Option<AdjId> {
    FindIn(s, ListOf(s, rn))
  }

  /** What the peer was last told about rn. */
  function Told(s: State, rn: Rn): Option<Attr> {
    match AdjAt(s, rn)
    case None => None
    case Some(a) => s.adj[a].attr
  }

  /** What an adj-out is meant to hold: its pending record if it has one, else what was told. */
  function IntendedOf(s: State, a: AdjId): Option<Attr>
    requires a in s.adj
  {
    match s.adj[a].adv
    case None => s.adj[a].attr
    case Some(v) =>
      if v in s.adv && s.adv[v].baa.Some? && s.adv[v].baa.value in s.baa then Some(s.baa[s.adv[v].baa.value].attr)
      else None
  }

  /** What the peer is meant to hold for rn. */
  function Intended(s: State, rn: Rn): Option<Attr> {
    match AdjAt(s, rn)
    case None => None
    case Some(a) => IntendedOf(s, a)
  }

  /** Whether something is still to be sent for rn. */
  predicate Pending(s: State, rn: Rn) {
    match AdjAt(s, rn)
    case None => false
    case Some(a) => s.adj[a].adv.Some?
  }

  lemma AdjAtIs(s: State, a: AdjId)
    requires ListsOk(s) && Mine(s, a)
    ensures AdjAt(s, s.adj[a].home) == Some(a)
  {
    var rn := s.adj[a].home;
    assert HomeOk(s, a);
    var x := AdjAt(s, rn);
    assert x.Some?;
    assert ListedOk(s, rn, x.value) && OneOk(s, a, x.value);
  }

  lemma AdjAtHome(s: State, rn: Rn)
    requires ListsOk(s)
    ensures AdjAt(s, rn).Some? ==> Mine(s, AdjAt(s, rn).value) && s.adj[AdjAt(s, rn).value].home == rn
  {
    if AdjAt(s, rn).Some? { assert ListedOk(s, rn, AdjAt(s, rn).value); }
  }

  /** No adj-out found is no adj-out there. */
  lemma AdjAtNone(s: State, rn: Rn, a: AdjId)
    requires ListsOk(s) && AdjAt(s, rn).None?
    ensures Mine(s, a) ==> s.adj[a].home != rn
  {
    assert HomeOk(s, a);
  }

  /** Lists, owners and homes are all the same. */
  ghost predicate SameLists(s: State, s': State) {
    && s'.self == s.self && s'.list == s.list && s'.adj.Keys == s.adj.Keys
    && forall a :: a in s.adj ==> s'.adj[a].peer == s.adj[a].peer && s'.adj[a].home == s.adj[a].home
  }

  lemma ListsFrame(s: State, s': State)
    requires ListsOk(s) && SameLists(s, s')
    ensures ListsOk(s')
  {
    forall rn: Rn, a: AdjId ensures ListedOk(s', rn, a) { assert ListedOk(s, rn, a); }
    forall a: AdjId ensures HomeOk(s', a) { assert HomeOk(s, a); }
    forall a: AdjId, b: AdjId ensures OneOk(s', a, b) { assert OneOk(s, a, b); }
  }

  /** All there is to say about one adj-out of this peer. */
  datatype View = Gone | At(rn: Rn, told: Option<Attr>, intended: Option<Attr>, pending: bool)

  ghost function ViewOf(s: State, a: AdjId): View {
    if Mine(s, a) then At(s.adj[a].home, s.adj[a].attr, IntendedOf(s, a), s.adj[a].adv.Some?) else Gone
  }

  /** A step that shows only in adj-out a of node rn. */
  ghost predicate OnlyAt(s: State, s': State, a: AdjId, rn: Rn) {
    && (forall x: AdjId {:trigger ViewOf(s', x)} :: x != a ==> ViewOf(s', x) == ViewOf(s, x))
    && (forall x: AdjId {:trigger ViewOf(s, x)} :: x != a && ViewOf(s, x).At? ==> ViewOf(s, x).rn != rn)
    && (Mine(s, a) ==> s.adj[a].home == rn)
    && (Mine(s', a) ==> s'.adj[a].home == rn)
  }

  /** What a view says about its node. */
  ghost predicate Shows(s: State, rn: Rn, w: View) {
    match w
    case Gone => Told(s, rn) == None && Intended(s, rn) == None && !Pending(s, rn)
    case At(_, t, i, p) => Told(s, rn) == t && Intended(s, rn) == i && Pending(s, rn) == p
  }

  /** Such a step changes what is told and intended at rn only. */
  lemma OnlyAtMeans(s: State, s': State, a: AdjId, rn: Rn)
    requires ListsOk(s) && ListsOk(s') && OnlyAt(s, s', a, rn)
    ensures forall r :: r != rn ==> Told(s', r) == Told(s, r)
    ensures forall r :: r != rn ==> Intended(s', r) == Intended(s, r)
    ensures forall r :: r != rn ==> Pending(s', r) == Pending(s, r)
    ensures Shows(s, rn, ViewOf(s, a)) && Shows(s', rn, ViewOf(s', a))
  {
    forall r: Rn | r != rn
      ensures Told(s', r) == Told(s, r) && Intended(s', r) == Intended(s, r) && Pending(s', r) == Pending(s, r)
    {
      AdjAtHome(s, r);
      AdjAtHome(s', r);
      if AdjAt(s', r).Some? {
        var x := AdjAt(s', r).value;
        assert ViewOf(s', x) == ViewOf(s, x);
        AdjAtIs(s, x);
      }
      if AdjAt(s, r).Some? {
        var x := AdjAt(s, r).value;
        assert ViewOf(s', x) == ViewOf(s, x);
        AdjAtIs(s', x);
      }
    }
    AdjAtHome(s, rn);
    AdjAtHome(s', rn);
    if Mine(s, a) { AdjAtIs(s, a); }
    if Mine(s', a) { AdjAtIs(s', a); }
    if AdjAt(s, rn).Some? {
      assert ViewOf(s, AdjAt(s, rn).value).At?;
    }
    if AdjAt(s', rn).Some? {
      var x := AdjAt(s', rn).value;
      assert x != a ==> ViewOf(s', x) == ViewOf(s, x);
    }
  }

  // ---- bgp_advertise_clean ----

  /** bgp_advertise_unintern */
  function Unintern(s: State, b: BaaId): State
    requires b in s.baa
  {
    var x := s.baa[b];
    var n := if x.refcnt > 0 then x.refcnt - 1 else 0;
    if n > 0 then s.(baa := s.baa[b := x.(refcnt := n)])
    else s.(hash := s.hash - {x.attr}, baa := s.baa - {b})
  }

  /** bgp_advertise_clean: the new state and the next record with the same attribute. */
  function Clean(s: State, a: AdjId): (r: (State, Option<AdvId>))
    requires a in s.adj && s.adj[a].adv.Some? && s.adj[a].adv.value in s.adv
    requires var v := s.adj[a].adv.value; s.adv[v].baa.Some? ==> s.adv[v].baa.value in s.baa
    ensures r.0.adv == s.adv - {s.adj[a].adv.value} && a in r.0.adj
  {
    var v := s.adj[a].adv.value;
    var (s1, nxt) :=
      match s.adv[v].baa
      case None => (s, None)
      case Some(b) =>
        var chain := Without(s.baa[b].chain, v);
        var s0 := s.(baa := s.baa[b := s.baa[b].(chain := chain)]);
        (Unintern(s0, b), if chain == [] then None else Some(chain[0]));
    (s1.(update := Without(s1.update, v), withdraw := Without(s1.withdraw, v),
         adv := s1.adv - {v}, adj := s1.adj[a := s1.adj[a].(adv := None)]),
     nxt)
  }

  /** The pending record of a is live, and so is its baa. */
  lemma PendingLive(s: State, a: AdjId)
    requires AdjsOk(s, Some(a)) && AdvsOk(s) && Mine(s, a) && s.adj[a].adv.Some?
    ensures var v := s.adj[a].adv.value;
      v in s.adv && s.adv[v].adj == a && (s.adv[v].baa.Some? ==> s.adv[v].baa.value in s.baa)
  {
    assert AdjOk(s, a);
    assert AdvOk(s, s.adj[a].adv.value);
  }

  /** What bgp_advertise_clean does to a structure in order: the record v of a is gone, and its baa
      with it exactly when v was the last one on the chain. */
  ghost predicate Cleaned(s: State, a: AdjId, v: AdvId, s': State)
    requires a in s.adj && v in s.adv
  {
    && s'.self == s.self && s'.list == s.list && s'.scount == s.scount && s'.next == s.next
    && s'.adj == s.adj[a := s.adj[a].(adv := None)]
    && s'.adv == s.adv - {v}
    && s'.update == Without(s.update, v) && s'.withdraw == Without(s.withdraw, v)
    && match s.adv[v].baa
       case None => s'.baa == s.baa && s'.hash == s.hash
       case Some(c) =>
         && c in s.baa
         && var rest := Without(s.baa[c].chain, v);
            if rest == [] then s'.hash == s.hash - {s.baa[c].attr} && s'.baa == s.baa - {c}
            else s'.hash == s.hash && s'.baa == s.baa[c := Baa(s.baa[c].attr, rest, |rest|)]
  }

  /** The baa is freed only when its chain is empty, and then there is no next record; otherwise
      the next record has the same baa. */
  lemma CleanIs(s: State, a: AdjId)
    requires AdvsOk(s) && BaasOk(s) && Mine(s, a) && s.adj[a].adv.Some? && s.adj[a].adv.value in s.adv
    requires var v := s.adj[a].adv.value; s.adv[v].baa.Some? ==> s.adv[v].baa.value in s.baa
    ensures var v, (s', nxt) := s.adj[a].adv.value, Clean(s, a);
      && Cleaned(s, a, v, s')
      && (s.adv[v].baa.None? ==> nxt.None?)
      && (s.adv[v].baa.Some? ==> (nxt.None? <==> s.adv[v].baa.value !in s'.baa))
      && (nxt.Some? ==> nxt.value in s'.adv && s'.adv[nxt.value].baa == s.adv[v].baa)
  {
    var v := s.adj[a].adv.value;
    var s' := Clean(s, a).0;
    if s.adv[v].baa.Some? {
      var c := s.adv[v].baa.value;
      assert BaaOk(s, c) && ChainedOk(s, v, c);
      var rest := Without(s.baa[c].chain, v);
      if rest != [] {
        assert ChainedOk(s, rest[0], c);
      } else {
        assert s'.baa == s.baa - {c};
      }
    }
  }

  lemma CleanKeepsBaas(s: State, a: AdjId, v: AdvId, s': State)
    requires BaasOk(s) && a in s.adj && v in s.adv && Cleaned(s, a, v, s')
    ensures BaasOk(s')
  {
    if s.adv[v].baa.Some? { assert BaaOk(s, s.adv[v].baa.value); }
    forall b: BaaId ensures BaaOk(s', b) { assert BaaOk(s, b); }
    forall w: AdvId, b: BaaId ensures ChainedOk(s', w, b) { assert ChainedOk(s, w, b); }
    forall t: Attr ensures HashOk(s', t) { assert HashOk(s, t); }
  }

  /** Another record with the same baa keeps that baa alive. */
  lemma SharedBaaStays(s: State, a: AdjId, v: AdvId, s': State, w: AdvId)
    requires AdvsOk(s) && BaasOk(s) && a in s.adj && v in s.adv && Cleaned(s, a, v, s')
    requires w in s.adv && w != v && s.adv[w].baa.Some?
    ensures s.adv[w].baa.value in s'.baa
  {
    var c := s.adv[w].baa.value;
    assert AdvOk(s, w) && ChainedOk(s, w, c);
    if s.adv[v].baa == Some(c) {
      assert w in Without(s.baa[c].chain, v);
    }
  }

  lemma CleanKeepsAdvs(s: State, a: AdjId, v: AdvId, s': State)
    requires AdvsOk(s) && BaasOk(s) && a in s.adj && v in s.adv && s.adv[v].adj == a && Cleaned(s, a, v, s')
    ensures AdvsOk(s')
  {
    assert AdvOk(s, v);
    forall w: AdvId ensures AdvOk(s', w) {
      assert AdvOk(s, w);
      if w in s'.adv && s'.adv[w].baa.Some? { SharedBaaStays(s, a, v, s', w); }
    }
    forall w: AdvId ensures QueuedOk(s', w) { assert QueuedOk(s, w); }
  }

  lemma CleanKeepsAdjs(s: State, a: AdjId, v: AdvId, s': State)
    requires ListsOk(s) && AdjsOk(s, Some(a)) && FreshOk(s)
    requires Mine(s, a) && v in s.adv && s.adv[v].adj == a && Cleaned(s, a, v, s')
    ensures AdjsOk(s', Some(a)) && FreshOk(s')
    ensures ToldSet(s') == ToldSet(s)
  {
    forall i: nat ensures UsedHandle(s', i) { assert UsedHandle(s, i); }
    forall x: AdjId ensures AdjOk(s', x) { assert AdjOk(s, x); }
    forall x: AdjId | x != a ensures Used(s', x) { assert Used(s, x); }
  }

  /** bgp_advertise_clean keeps the structure; its adj-out has nothing pending afterwards. */
  lemma CleanKeeps(s: State, a: AdjId)
    requires InvBut(s, Some(a)) && Mine(s, a) && s.adj[a].adv.Some?
    ensures var v := s.adj[a].adv.value;
      v in s.adv && s.adv[v].adj == a && (s.adv[v].baa.Some? ==> s.adv[v].baa.value in s.baa)
    ensures InvBut(Clean(s, a).0, Some(a))
  {
    PendingLive(s, a);
    CleanIs(s, a);
    var v, s' := s.adj[a].adv.value, Clean(s, a).0;
    CleanKeepsBaas(s, a, v, s');
    CleanKeepsAdvs(s, a, v, s');
    CleanKeepsAdjs(s, a, v, s');
    ListsFrame(s, s');
  }

  lemma CleanView(s: State, a: AdjId)
    requires InvBut(s, Some(a)) && Mine(s, a) && s.adj[a].adv.Some?
    requires var v := s.adj[a].adv.value;
      v in s.adv && s.adv[v].adj == a && (s.adv[v].baa.Some? ==> s.adv[v].baa.value in s.baa)
    ensures var s' := Clean(s, a).0;
      && Mine(s', a) && s'.adj[a] == s.adj[a].(adv := None)
      && OnlyAt(s, s', a, s.adj[a].home)
  {
    CleanIs(s, a);
    var v, s' := s.adj[a].adv.value, Clean(s, a).0;
    assert AdvOk(s, v);
    forall x: AdjId | x != a ensures ViewOf(s', x) == ViewOf(s, x) {
      assert AdjOk(s, x);
      if Mine(s, x) && s.adj[x].adv.Some? {
        var w := s.adj[x].adv.value;
        if s.adv[w].baa.Some? { SharedBaaStays(s, a, v, s', w); }
      }
    }
    OthersKept(s, s', a);
  }

  /** Steps that leave every other adj-out of the peer as it was. */
  lemma OthersKept(s: State, s': State, a: AdjId)
    requires ListsOk(s) && Mine(s, a) && (Mine(s', a) ==> s'.adj[a].home == s.adj[a].home)
    requires forall x: AdjId {:trigger ViewOf(s', x)} :: x != a ==> ViewOf(s', x) == ViewOf(s, x)
    ensures OnlyAt(s, s', a, s.adj[a].home)
  {
    forall x: AdjId | x != a && ViewOf(s, x).At? ensures ViewOf(s, x).rn != s.adj[a].home { assert OneOk(s, x, a); }
  }

  // ---- The other building blocks ----

  /** XCALLOC and BGP_ADJ_OUT_ADD: a new adj-out at the head of rn's list. */
  function NewAdj(s: State, rn: Rn): State {
    s.(list := s.list[rn := [s.next] + ListOf(s, rn)],
       adj := s.adj[s.next := AdjOut(s.self, rn, None, None)],
       next := s.next + 1)
  }

  lemma NewAdjLists(s: State, rn: Rn)
    requires ListsOk(s) && FreshOk(s) && AdjAt(s, rn).None?
    ensures ListsOk(NewAdj(s, rn))
  {
    var s', n := NewAdj(s, rn), s.next;
    FreshHandle(s, n);
    forall r: Rn, a: AdjId ensures ListedOk(s', r, a) { assert ListedOk(s, r, a); assert ListedOk(s, r, n); }
    forall a: AdjId ensures HomeOk(s', a) { assert HomeOk(s, a); }
    forall a: AdjId, b: AdjId ensures OneOk(s', a, b) {
      assert OneOk(s, a, b);
      AdjAtNone(s, rn, a);
      AdjAtNone(s, rn, b);
    }
  }

  lemma NewAdjKeeps(s: State, rn: Rn)
    requires Inv(s) && AdjAt(s, rn).None?
    ensures InvBut(NewAdj(s, rn), Some(s.next)) && Mine(NewAdj(s, rn), s.next) && !Mine(s, s.next)
    ensures OnlyAt(s, NewAdj(s, rn), s.next, rn)
  {
    var s', n := NewAdj(s, rn), s.next;
    FreshHandle(s, n);
    NewAdjLists(s, rn);
    NewAdjRest(s, rn);
    forall x: AdjId | x != n ensures ViewOf(s', x) == ViewOf(s, x) { assert Mine(s', x) == Mine(s, x); }
    forall x: AdjId | x != n && ViewOf(s, x).At? ensures ViewOf(s, x).rn != rn { AdjAtNone(s, rn, x); }
  }

  lemma NewAdjRest(s: State, rn: Rn)
    requires Inv(s)
    ensures var s' := NewAdj(s, rn);
      AdjsOk(s', Some(s.next)) && AdvsOk(s') && BaasOk(s') && FreshOk(s') && ToldSet(s') == ToldSet(s)
  {
    var s', n := NewAdj(s, rn), s.next;
    FreshHandle(s, n);
    forall a: AdjId ensures AdjOk(s', a) && (a != n ==> Used(s', a)) { assert AdjOk(s, a) && Used(s, a); }
    forall v: AdvId ensures AdvOk(s', v) && QueuedOk(s', v) { assert AdvOk(s, v) && QueuedOk(s, v); }
    forall i: nat ensures UsedHandle(s', i) { assert UsedHandle(s, i); }
    BaasFrame(s, s');
  }

  lemma BaasFrame(s: State, s': State)
    requires BaasOk(s) && s'.baa == s.baa && s'.hash == s.hash
    requires forall v, b :: v in s'.adv && s'.adv[v].baa == Some(b) <==> v in s.adv && s.adv[v].baa == Some(b)
    ensures BaasOk(s')
  {
    forall t: Attr ensures HashOk(s', t) { assert HashOk(s, t); }
    forall b: BaaId ensures BaaOk(s', b) { assert BaaOk(s, b); }
    forall v: AdvId, b: BaaId ensures ChainedOk(s', v, b) { assert ChainedOk(s, v, b); }
  }

  /** bgp_advertise_intern: the baa for this attribute, one reference more. */
  function Intern(s: State, attr: Attr): (r: (State, BaaId))
  {
    if attr in s.hash && s.hash[attr] in s.baa then
      var b := s.hash[attr];
      (s.(baa := s.baa[b := s.baa[b].(refcnt := s.baa[b].refcnt + 1)]), b)
    else
      (s.(hash := s.hash[attr := s.next], baa := s.baa[s.next := Baa(attr, [], 1)], next := s.next + 1), s.next)
  }

  /** The second half of bgp_adj_out_set: a new record for a, on the chain of its baa and at the end
      of the update FIFO. */
  function Announce(s: State, a: AdjId, attr: Attr): State
    requires a in s.adj
  {
    var (s1, b) := Intern(s, attr);
    var v := s1.next;
    s1.(adv := s1.adv[v := Adv(s1.adj[a].home, a, Some(b))],
        adj := s1.adj[a := s1.adj[a].(adv := Some(v))],
        baa := s1.baa[b := s1.baa[b].(chain := [v] + s1.baa[b].chain)],
        update := s1.update + [v],
        next := v + 1)
  }

  /** What Announce does to a structure in order. */
  ghost predicate Announced(s: State, a: AdjId, attr: Attr, s': State)
    requires a in s.adj
  {
    var v := s'.next - 1;
    && v >= s.next
    && s'.self == s.self && s'.list == s.list && s'.scount == s.scount
    && s'.withdraw == s.withdraw && s'.update == s.update + [v]
    && s'.adj == s.adj[a := s.adj[a].(adv := Some(v))]
    && attr in s'.hash
    && var b := s'.hash[attr];
       && s'.adv == s.adv[v := Adv(s.adj[a].home, a, Some(b))]
       && if attr in s.hash then
            && s'.hash == s.hash && b in s.baa
            && s'.baa == s.baa[b := Baa(attr, [v] + s.baa[b].chain, 1 + |s.baa[b].chain|)]
          else
            && b == s.next && v == s.next + 1
            && s'.hash == s.hash[attr := b] && s'.baa == s.baa[b := Baa(attr, [v], 1)]
  }

  lemma AnnounceIs(s: State, a: AdjId, attr: Attr)
    requires BaasOk(s) && a in s.adj
    ensures Announced(s, a, attr, Announce(s, a, attr))
  {
    var s' := Announce(s, a, attr);
    var v := s'.next - 1;
    if attr in s.hash {
      var b := s.hash[attr];
      assert HashOk(s, attr);
      assert BaaOk(s, b);
      assert s'.baa == s.baa[b := Baa(attr, [v] + s.baa[b].chain, 1 + |s.baa[b].chain|)];
    } else {
      assert [v] + [] == [v];
      assert s'.baa == s.baa[s.next := Baa(attr, [v], 1)];
    }
  }

  lemma AnnounceKeepsBaas(s: State, a: AdjId, attr: Attr, s': State)
    requires BaasOk(s) && AdvsOk(s) && FreshOk(s) && a in s.adj && Announced(s, a, attr, s')
    ensures BaasOk(s')
  {
    var v := s'.next - 1;
    FreshHandle(s, v);
    FreshHandle(s, s.next);
    assert HashOk(s, attr);
    forall t: Attr ensures HashOk(s', t) { assert HashOk(s, t); }
    forall b: BaaId ensures BaaOk(s', b) { assert BaaOk(s, b); assert ChainedOk(s, v, b); }
    forall w: AdvId, b: BaaId ensures ChainedOk(s', w, b) {
      assert ChainedOk(s, w, b) && AdvOk(s, w);
    }
  }

  lemma AnnounceKeepsAdvs(s: State, a: AdjId, attr: Attr, s': State)
    requires AdvsOk(s) && FreshOk(s) && Mine(s, a) && s.adj[a].adv.None? && Announced(s, a, attr, s')
    ensures AdvsOk(s') && FreshOk(s')
  {
    var v := s'.next - 1;
    FreshHandle(s, v);
    assert QueuedOk(s, v);
    forall w: AdvId ensures AdvOk(s', w) { assert AdvOk(s, w); }
    forall w: AdvId ensures QueuedOk(s', w) { assert QueuedOk(s, w); assert AdvOk(s, w); }
    forall i: nat ensures UsedHandle(s', i) { assert UsedHandle(s, i); }
  }

  lemma AnnounceKeepsAdjs(s: State, a: AdjId, attr: Attr, s': State)
    requires InvBut(s, Some(a)) && Mine(s, a) && s.adj[a].adv.None? && Announced(s, a, attr, s')
    ensures AdjsOk(s', None) && ToldSet(s') == ToldSet(s)
  {
    FreshHandle(s, s'.next - 1);
    forall x: AdjId ensures AdjOk(s', x) { assert AdjOk(s, x); }
    forall x: AdjId ensures Used(s', x) { assert x != a ==> Used(s, x); }
  }

  lemma AnnounceKeeps(s: State, a: AdjId, attr: Attr)
    requires InvBut(s, Some(a)) && Mine(s, a) && s.adj[a].adv.None?
    ensures var s' := Announce(s, a, attr);
      Inv(s') && OnlyAt(s, s', a, s.adj[a].home) && ViewOf(s', a) == At(s.adj[a].home, s.adj[a].attr, Some(attr), true)
  {
    var s' := Announce(s, a, attr);
    AnnounceIs(s, a, attr);
    AnnounceKeepsBaas(s, a, attr, s');
    AnnounceKeepsAdvs(s, a, attr, s');
    AnnounceKeepsAdjs(s, a, attr, s');
    ListsFrame(s, s');
    AnnounceView(s, a, attr, s');
  }

  lemma AnnounceView(s: State, a: AdjId, attr: Attr, s': State)
    requires InvBut(s, Some(a)) && Mine(s, a) && s.adj[a].adv.None? && Announced(s, a, attr, s')
    ensures OnlyAt(s, s', a, s.adj[a].home) && ViewOf(s', a) == At(s.adj[a].home, s.adj[a].attr, Some(attr), true)
  {
    FreshHandle(s, s.next);
    assert HashOk(s, attr);
    FreshHandle(s, s'.next - 1);
    forall x: AdjId | x != a ensures ViewOf(s', x) == ViewOf(s, x) {
      assert AdjOk(s, x);
      if Mine(s, x) && s.adj[x].adv.Some? { assert AdvOk(s, s.adj[x].adv.value); }
    }
    OthersKept(s, s', a);
  }

  /** The second half of bgp_adj_out_unset for a prefix the peer holds: a record without baa
      at the end of the withdraw FIFO. */
  function Retract(s: State, a: AdjId): State
    requires a in s.adj
  {
    var v := s.next;
    s.(adv := s.adv[v := Adv(s.adj[a].home, a, None)],
       adj := s.adj[a := s.adj[a].(adv := Some(v))],
       withdraw := s.withdraw + [v],
       next := v + 1)
  }

  lemma RetractKeeps(s: State, a: AdjId)
    requires InvBut(s, Some(a)) && Mine(s, a) && s.adj[a].adv.None? && s.adj[a].attr.Some?
    ensures var s' := Retract(s, a);
      Inv(s') && OnlyAt(s, s', a, s.adj[a].home) && ViewOf(s', a) == At(s.adj[a].home, s.adj[a].attr, None, true)
  {
    var s' := Retract(s, a);
    ListsFrame(s, s');
    RetractKeepsAdvs(s, a);
    RetractView(s, a);
    assert ToldSet(s') == ToldSet(s);
  }

  lemma RetractView(s: State, a: AdjId)
    requires InvBut(s, Some(a)) && Mine(s, a) && s.adj[a].adv.None? && s.adj[a].attr.Some?
    ensures var s' := Retract(s, a);
      && AdjsOk(s', None) && OnlyAt(s, s', a, s.adj[a].home)
      && ViewOf(s', a) == At(s.adj[a].home, s.adj[a].attr, None, true)
  {
    var s' := Retract(s, a);
    FreshHandle(s, s.next);
    forall x: AdjId ensures AdjOk(s', x) { assert AdjOk(s, x); }
    forall x: AdjId ensures Used(s', x) { assert x != a ==> Used(s, x); }
    forall x: AdjId | x != a ensures ViewOf(s', x) == ViewOf(s, x) { assert AdjOk(s, x); }
    OthersKept(s, s', a);
  }

  lemma RetractKeepsAdvs(s: State, a: AdjId)
    requires AdvsOk(s) && BaasOk(s) && FreshOk(s) && Mine(s, a) && s.adj[a].adv.None? && s.adj[a].attr.Some?
    ensures AdvsOk(Retract(s, a)) && BaasOk(Retract(s, a)) && FreshOk(Retract(s, a))
  {
    var s', v := Retract(s, a), s.next;
    FreshHandle(s, v);
    assert QueuedOk(s, v);
    forall w: AdvId ensures AdvOk(s', w) { assert AdvOk(s, w); }
    forall w: AdvId ensures QueuedOk(s', w) { assert QueuedOk(s, w) && AdvOk(s, w); }
    forall i: nat ensures UsedHandle(s', i) { assert UsedHandle(s, i); }
    BaasFrame(s, s');
  }

  /** BGP_ADJ_OUT_DEL and bgp_adj_out_free. */
  function DropAdj(s: State, a: AdjId): State
    requires a in s.adj
  {
    var rn := s.adj[a].home;
    s.(list := s.list[rn := Without(ListOf(s, rn), a)], adj := s.adj - {a})
  }

  lemma DropAdjLists(s: State, a: AdjId)
    requires ListsOk(s) && Mine(s, a)
    ensures ListsOk(DropAdj(s, a))
  {
    var s' := DropAdj(s, a);
    forall r: Rn, x: AdjId ensures ListedOk(s', r, x) { assert ListedOk(s, r, x); }
    forall x: AdjId ensures HomeOk(s', x) { assert HomeOk(s, x); }
    forall x: AdjId, y: AdjId ensures OneOk(s', x, y) { assert OneOk(s, x, y); }
  }

  /** An adj-out with nothing told and nothing pending can go. */
  lemma DropAdjKeeps(s: State, a: AdjId)
    requires InvBut(s, Some(a)) && Mine(s, a) && s.adj[a].adv.None? && s.adj[a].attr.None?
    ensures var s' := DropAdj(s, a); Inv(s') && OnlyAt(s, s', a, s.adj[a].home) && ViewOf(s', a) == Gone
  {
    var s' := DropAdj(s, a);
    DropAdjLists(s, a);
    DropAdjRest(s, a);
    forall x: AdjId | x != a ensures ViewOf(s', x) == ViewOf(s, x) { assert Mine(s', x) == Mine(s, x); }
    OthersKept(s, s', a);
  }

  lemma DropAdjRest(s: State, a: AdjId)
    requires InvBut(s, Some(a)) && Mine(s, a) && s.adj[a].adv.None? && s.adj[a].attr.None?
    ensures var s' := DropAdj(s, a);
      AdjsOk(s', None) && AdvsOk(s') && BaasOk(s') && FreshOk(s') && ToldSet(s') == ToldSet(s)
  {
    var s' := DropAdj(s, a);
    forall x: AdjId ensures AdjOk(s', x) { assert AdjOk(s, x); }
    forall x: AdjId ensures Used(s', x) { assert x != a ==> Used(s, x); }
    forall v: AdvId ensures AdvOk(s', v) && QueuedOk(s', v) { assert AdvOk(s, v) && QueuedOk(s, v); }
    forall i: nat ensures UsedHandle(s', i) { assert UsedHandle(s, i); }
    BaasFrame(s, s');
  }

  /** What the peer holds for a changes, and the sent-prefix count with it. */
  function SetTold(s: State, a: AdjId, attr: Option<Attr>): State
    requires a in s.adj
  {
    s.(adj := s.adj[a := s.adj[a].(attr := attr)],
       scount := s.scount + (if attr.Some? then 1 else 0) - (if s.adj[a].attr.Some? then 1 else 0))
  }

  lemma SetToldKeeps(s: State, a: AdjId, attr: Option<Attr>)
    requires InvBut(s, Some(a)) && Mine(s, a)
    requires attr.None? ==> s.adj[a].adv.None?
    ensures var s' := SetTold(s, a, attr);
      InvBut(s', Some(a)) && Mine(s', a) && s'.adj[a] == s.adj[a].(attr := attr) && OnlyAt(s, s', a, s.adj[a].home)
  {
    var s' := SetTold(s, a, attr);
    ListsFrame(s, s');
    SetToldRest(s, a, attr);
    SetToldCount(s, a, attr);
    forall x: AdjId | x != a ensures ViewOf(s', x) == ViewOf(s, x) { assert Mine(s', x) == Mine(s, x); }
    OthersKept(s, s', a);
  }

  lemma SetToldCount(s: State, a: AdjId, attr: Option<Attr>)
    requires Mine(s, a) && s.scount == |ToldSet(s)|
    ensures SetTold(s, a, attr).scount == |ToldSet(SetTold(s, a, attr))|
  {
    var s' := SetTold(s, a, attr);
    assert a in ToldSet(s) <==> s.adj[a].attr.Some?;
    if attr.Some? {
      assert ToldSet(s') == ToldSet(s) + {a};
      assert a in ToldSet(s) ==> ToldSet(s) + {a} == ToldSet(s);
    } else {
      assert ToldSet(s') == ToldSet(s) - {a};
      assert a !in ToldSet(s) ==> ToldSet(s) - {a} == ToldSet(s);
    }
  }

  lemma SetToldRest(s: State, a: AdjId, attr: Option<Attr>)
    requires InvBut(s, Some(a)) && Mine(s, a)
    requires attr.None? ==> s.adj[a].adv.None?
    ensures var s' := SetTold(s, a, attr); AdjsOk(s', Some(a)) && AdvsOk(s') && BaasOk(s') && FreshOk(s')
  {
    var s' := SetTold(s, a, attr);
    forall x: AdjId ensures AdjOk(s', x) && (x != a ==> Used(s', x)) { assert AdjOk(s, x) && (x != a ==> Used(s, x)); }
    forall v: AdvId ensures AdvOk(s', v) { assert AdvOk(s, v); }
    forall v: AdvId ensures QueuedOk(s', v) { assert QueuedOk(s, v) && AdvOk(s, v); }
    forall i: nat ensures UsedHandle(s', i) { assert UsedHandle(s, i); }
    BaasFrame(s, s');
  }

  // ---- bgp_adj_out_set, bgp_adj_out_unset ----

  predicate CanClean(s: State, a: AdjId) {
    && a in s.adj && s.adj[a].adv.Some?
    && var v := s.adj[a].adv.value;
       v in s.adv && (s.adv[v].baa.Some? ==> s.adv[v].baa.value in s.baa)
  }

  /** A pending record of the adj-out, if there is one, goes before a new decision. */
  function CleanPending(s: State, a: AdjId): State {
    if CanClean(s, a) then Clean(s, a).0 else s
  }

  lemma CleanPendingKeeps(s: State, a: AdjId)
    requires InvBut(s, Some(a)) && Mine(s, a)
    ensures var s' := CleanPending(s, a);
      && InvBut(s', Some(a)) && Mine(s', a) && s'.adj[a] == s.adj[a].(adv := None)
      && OnlyAt(s, s', a, s.adj[a].home)
  {
    if s.adj[a].adv.Some? {
      CleanKeeps(s, a);
      CleanView(s, a);
    } else {
      OnlyAtSelf(s, a);
    }
  }

  lemma OnlyAtSelf(s: State, a: AdjId)
    requires ListsOk(s) && Mine(s, a)
    ensures OnlyAt(s, s, a, s.adj[a].home)
  {
    OthersKept(s, s, a);
  }

  lemma OnlyAtTwice(s: State, s1: State, s2: State, a: AdjId, rn: Rn)
    requires OnlyAt(s, s1, a, rn) && OnlyAt(s1, s2, a, rn)
    ensures OnlyAt(s, s2, a, rn)
  {
    forall x: AdjId | x != a ensures ViewOf(s2, x) == ViewOf(s, x) { assert ViewOf(s1, x) == ViewOf(s, x); }
  }

  /** The adj-out of rn, made if it is not there. */
  function EnsureAdj(s: State, rn: Rn): (State, AdjId) {
    match AdjAt(s, rn)
    case None => (NewAdj(s, rn), s.next)
    case Some(a) => (s, a)
  }

  function Set(s: State, rn: Rn, attr: Attr): State {
    var (s1, a) := EnsureAdj(s, rn);
    Announce(CleanPending(s1, a), a, attr)
  }

  function Unset(s: State, rn: Rn): State {
    match AdjAt(s, rn)
    case None => s
    case Some(a) =>
      var s1 := CleanPending(s, a);
      if s1.adj[a].attr.Some? then Retract(s1, a) else DropAdj(s1, a)
  }

  lemma EnsureAdjKeeps(s: State, rn: Rn)
    requires Inv(s)
    ensures var (s1, a) := EnsureAdj(s, rn);
      InvBut(s1, Some(a)) && Mine(s1, a) && s1.adj[a].home == rn && OnlyAt(s, s1, a, rn)
      && s1.adj[a].attr == (match ViewOf(s, a) case Gone => None case At(_, t, _, _) => t)
  {
    AdjAtHome(s, rn);
    if AdjAt(s, rn).None? {
      NewAdjKeeps(s, rn);
    } else {
      OnlyAtSelf(s, AdjAt(s, rn).value);
    }
  }

  /** bgp_adj_out_set records what is intended for rn and tells the peer nothing yet. */
  lemma SetMeans(s: State, rn: Rn, attr: Attr)
    requires Inv(s)
    ensures var s' := Set(s, rn, attr);
      && Inv(s')
      && (forall r :: Told(s', r) == Told(s, r))
      && (forall r :: Intended(s', r) == if r == rn then Some(attr) else Intended(s, r))
  {
    var (s1, a) := EnsureAdj(s, rn);
    EnsureAdjKeeps(s, rn);
    CleanPendingKeeps(s1, a);
    var s2 := CleanPending(s1, a);
    AnnounceKeeps(s2, a, attr);
    var s3 := Announce(s2, a, attr);
    OnlyAtTwice(s, s1, s2, a, rn);
    OnlyAtTwice(s, s2, s3, a, rn);
    OnlyAtMeans(s, s3, a, rn);
  }

  /** bgp_adj_out_unset records that nothing is intended for rn and tells the peer nothing yet. */
  lemma UnsetMeans(s: State, rn: Rn)
    requires Inv(s)
    ensures var s' := Unset(s, rn);
      && Inv(s')
      && (forall r :: Told(s', r) == Told(s, r))
      && (forall r :: Intended(s', r) == if r == rn then None else Intended(s, r))
  {
    AdjAtHome(s, rn);
    if AdjAt(s, rn).Some? {
      var a := AdjAt(s, rn).value;
      CleanPendingKeeps(s, a);
      var s1 := CleanPending(s, a);
      var s2 := Unset(s, rn);
      if s1.adj[a].attr.Some? { RetractKeeps(s1, a); } else { DropAdjKeeps(s1, a); }
      OnlyAtTwice(s, s1, s2, a, rn);
      OnlyAtMeans(s, s2, a, rn);
    }
  }

  /** bgp_adj_out_lookup */
  predicate Lookup(s: State, rn: Rn) {
    match AdjAt(s, rn)
    case None => false
    case Some(a) =>
      match s.adj[a].adv
      case Some(v) => v in s.adv && s.adv[v].baa.Some?
      case None => s.adj[a].attr.Some?
  }

  lemma LookupIsIntended(s: State, rn: Rn)
    requires Inv(s)
    ensures Lookup(s, rn) <==> Intended(s, rn).Some?
  {
    AdjAtHome(s, rn);
    if AdjAt(s, rn).Some? {
      var a := AdjAt(s, rn).value;
      assert AdjOk(s, a);
      if s.adj[a].adv.Some? { assert AdvOk(s, s.adj[a].adv.value); }
    }
  }

  // ---- Sending ----

  predicate Sendable(s: State, v: AdvId) {
    && v in s.adv && s.adv[v].baa.Some? && s.adv[v].baa.value in s.baa
    && s.adv[v].adj in s.adj && s.adj[s.adv[v].adj].adv == Some(v)
  }

  /** Synchronise one record: the peer is told its attribute, the record goes. */
  function SendOne(s: State, v: AdvId): (r: (State, Option<AdvId>))
    requires Sendable(s, v)
    ensures r.0.adv == s.adv - {v}
  {
    var a := s.adv[v].adj;
    Clean(SetTold(s, a, Some(s.baa[s.adv[v].baa.value].attr)), a)
  }

  /** SendOne where it applies. */
  function SendRecord(s: State, v: AdvId): (State, Option<AdvId>) {
    if Sendable(s, v) then SendOne(s, v) else (s, None)
  }

  /** A record that can be announced. */
  ghost predicate CanSend(s: State, v: AdvId) {
    v in s.adv && s.adv[v].baa.Some?
  }

  function AttrOf(s: State, v: AdvId): Attr {
    if v in s.adv && s.adv[v].baa.Some? && s.adv[v].baa.value in s.baa then s.baa[s.adv[v].baa.value].attr
    else Attr(0, 0)
  }

  /** The first record on the chain of an attribute, which bgp_advertise_clean gives as the next one. */
  ghost function FirstOf(s: State, attr: Attr): Option<AdvId> {
    if attr in s.hash && s.hash[attr] in s.baa && s.baa[s.hash[attr]].chain != []
    then Some(s.baa[s.hash[attr]].chain[0]) else None
  }

  lemma SendOneMeans(s: State, v: AdvId)
    requires Inv(s) && CanSend(s, v)
    ensures Sendable(s, v)
    ensures var (s', nxt), rn := SendOne(s, v), s.adv[v].rn;
      && Inv(s') && s'.adv == s.adv - {v}
      && Intended(s, rn) == Some(AttrOf(s, v))
      && (forall r :: Told(s', r) == if r == rn then Some(AttrOf(s, v)) else Told(s, r))
      && (forall r :: Intended(s', r) == Intended(s, r))
      && (forall r :: Pending(s', r) == (r != rn && Pending(s, r))) && Pending(s, rn)
      && (nxt.Some? ==> CanSend(s', nxt.value) && AttrOf(s', nxt.value) == AttrOf(s, v))
      && (nxt.None? ==> NoneLeft(s', AttrOf(s, v)))
      && nxt == FirstOf(s', AttrOf(s, v))
  {
    assert AdvOk(s, v);
    var a, attr := s.adv[v].adj, AttrOf(s, v);
    var rn := s.adj[a].home;
    assert AdjOk(s, a);
    SetToldKeeps(s, a, Some(attr));
    var s1 := SetTold(s, a, Some(attr));
    CleanKeeps(s1, a);
    CleanView(s1, a);
    CleanIs(s1, a);
    var (s', nxt) := Clean(s1, a);
    OnlyAtTwice(s, s1, s', a, rn);
    UsedAgain(s', a);
    OnlyAtMeans(s, s', a, rn);
    assert BaaOk(s1, s1.adv[v].baa.value);
    if nxt.Some? {
      assert AdvOk(s', nxt.value);
    } else {
      HashedOrNone(s', attr);
    }
  }

  /** Nothing that is pending is meant to have this attribute. */
  ghost predicate NoneLeft(s: State, attr: Attr) {
    forall r {:trigger Pending(s, r)} :: Pending(s, r) ==> Intended(s, r) != Some(attr)
  }

  /** An attribute whose baa has been freed has no pending record. */
  lemma HashedOrNone(s: State, attr: Attr)
    requires Inv(s) && attr !in s.hash
    ensures NoneLeft(s, attr)
  {
    forall r: Rn | Pending(s, r)
      ensures Intended(s, r) != Some(attr)
    {
      AdjAtHome(s, r);
      var a := AdjAt(s, r).value;
      assert AdjOk(s, a);
      var v := s.adj[a].adv.value;
      assert AdvOk(s, v);
      if s.adv[v].baa.Some? { assert BaaOk(s, s.adv[v].baa.value); }
    }
  }

  lemma UsedAgain(s: State, a: AdjId)
    requires InvBut(s, Some(a)) && Used(s, a)
    ensures Inv(s)
  {
  }

  predicate Withdrawable(s: State, v: AdvId) {
    v in s.adv && s.adv[v].baa.None? && s.adv[v].adj in s.adj && s.adj[s.adv[v].adj].adv == Some(v)
  }

  /** bgp_withdraw_packet for one record: the count drops, then bgp_adj_out_remove. */
  function WithdrawOne(s: State, v: AdvId): (r: State)
    requires Withdrawable(s, v)
    ensures r.adv == s.adv - {v}
  {
    var a := s.adv[v].adj;
    DropAdj(SetTold(Clean(s, a).0, a, None), a)
  }

  lemma WithdrawOneMeans(s: State, v: AdvId)
    requires Inv(s) && v in s.adv && s.adv[v].baa.None?
    ensures Withdrawable(s, v)
    ensures var s', rn := WithdrawOne(s, v), s.adv[v].rn;
      && Inv(s') && Intended(s, rn) == None
      && s'.scount == s.scount - 1
      && (forall r :: Told(s', r) == if r == rn then None else Told(s, r))
      && (forall r :: Intended(s', r) == Intended(s, r))
      && (forall r :: Pending(s', r) == (r != rn && Pending(s, r))) && Pending(s, rn)
  {
    assert AdvOk(s, v) && QueuedOk(s, v);
    var a := s.adv[v].adj;
    var rn := s.adj[a].home;
    assert AdjOk(s, a);
    CleanKeeps(s, a);
    CleanView(s, a);
    var s1 := Clean(s, a).0;
    SetToldKeeps(s1, a, None);
    var s2 := SetTold(s1, a, None);
    DropAdjKeeps(s2, a);
    var s3 := DropAdj(s2, a);
    OnlyAtTwice(s, s1, s2, a, rn);
    OnlyAtTwice(s, s2, s3, a, rn);
    OnlyAtMeans(s, s3, a, rn);
  }

  /** WithdrawOne where it applies. */
  function WithdrawRecord(s: State, v: AdvId): State {
    if Withdrawable(s, v) then WithdrawOne(s, v) else s
  }
}
