/** The order of the FIFOs (bgpd/bgp_advertise.c): what waits, prefix by prefix. */
module AdjRibQueue {
  import opened Wrappers
  import opened AdjRibOut

  /** The prefixes of the records on a FIFO, first to last. */
  function Waiting(s: State, q: seq<AdvId>): seq<Rn> {
    seq(|q|, i requires 0 <= i < |q| => if q[i] in s.adv then s.adv[q[i]].rn else Rn(0, 0))
  }

  /** A queue without its entries for rn. */
  function Others(q: seq<Rn>, rn: Rn): (r: seq<Rn>)
    ensures rn !in r
  {
    if q == [] then [] else (if q[0] == rn then [] else [q[0]]) + Others(q[1..], rn)
  }

  lemma {:induction false} OthersAll(q: seq<Rn>, rn: Rn)
    requires rn !in q
    ensures Others(q, rn) == q
  {
    if q != [] {
      OthersAll(q[1..], rn);
    }
  }

  /** The records of q are live, and v is the only one that can be for rn. */
  ghost predicate OnlyFor(s: State, q: seq<AdvId>, v: AdvId, rn: Rn) {
    forall w :: w in q ==> w in s.adv && (s.adv[w].rn == rn <==> w == v)
  }

  lemma WaitingFrame(s: State, s': State, q: seq<AdvId>)
    requires forall w :: w in q ==> w in s.adv && w in s'.adv && s'.adv[w].rn == s.adv[w].rn
    ensures Waiting(s', q) == Waiting(s, q)
  {
    forall i | 0 <= i < |q| ensures Waiting(s', q)[i] == Waiting(s, q)[i] {
      assert q[i] in q;
    }
  }

  lemma WaitingHead(s: State, q: seq<AdvId>)
    requires q != [] && q[0] in s.adv
    ensures Waiting(s, q) == [s.adv[q[0]].rn] + Waiting(s, q[1..])
  {
  }

  /** Taking a record out of a FIFO takes out its prefix and leaves the order. */
  lemma {:induction false} WaitingWithout(s: State, s': State, q: seq<AdvId>, v: AdvId, rn: Rn)
    requires NoDup(q) && OnlyFor(s, q, v, rn)
    requires forall w :: w in q && w != v ==> w in s'.adv && s'.adv[w].rn == s.adv[w].rn
    ensures Waiting(s', Without(q, v)) == Others(Waiting(s, q), rn)
  {
    if q != [] {
      var rest := q[1..];
      assert q == [q[0]] + rest && q[0] !in rest;
      WaitingWithout(s, s', rest, v, rn);
      WaitingHead(s, q);
      if q[0] != v {
        var kept := Without(rest, v);
        assert ([q[0]] + kept)[1..] == kept;
        WaitingHead(s', [q[0]] + kept);
      }
    }
  }

  lemma WaitingSnoc(s: State, q: seq<AdvId>, v: AdvId)
    requires v in s.adv
    ensures Waiting(s, q + [v]) == Waiting(s, q) + [s.adv[v].rn]
  {
  }

  /** What a step does to both FIFOs: the prefix goes, and comes back at the end of one of them, or not. */
  ghost predicate Requeued(s: State, s': State, rn: Rn, update: seq<Rn>, withdraw: seq<Rn>) {
    && Waiting(s', s'.update) == Others(Waiting(s, s.update), rn) + update
    && Waiting(s', s'.withdraw) == Others(Waiting(s, s.withdraw), rn) + withdraw
  }

  /** Every record for the prefix of an adj-out is its pending one. */
  lemma PendingOnly(s: State, a: AdjId, v: AdvId)
    requires InvBut(s, Some(a)) && Mine(s, a) && v in s.adv && s.adv[v].rn == s.adj[a].home
    ensures s.adj[a].adv == Some(v)
  {
    assert AdvOk(s, v) && OneOk(s, a, s.adv[v].adj);
  }

  lemma QueuesLive(s: State, v: AdvId)
    requires AdvsOk(s) && (v in s.update || v in s.withdraw)
    ensures v in s.adv
  {
    assert QueuedOk(s, v);
  }

  /** A queue of live records, once the pending record of an adj-out is gone. */
  lemma WithoutPending(s: State, s': State, a: AdjId, q: seq<AdvId>)
    requires InvBut(s, Some(a)) && Mine(s, a) && s.adj[a].adv.Some? && s'.adv == s.adv - {s.adj[a].adv.value}
    requires NoDup(q) && forall w :: w in q ==> w in s.adv
    ensures Waiting(s', Without(q, s.adj[a].adv.value)) == Others(Waiting(s, q), s.adj[a].home)
  {
    var v, rn := s.adj[a].adv.value, s.adj[a].home;
    assert AdjOk(s, a);
    forall w | w in q ensures s.adv[w].rn == rn <==> w == v {
      if s.adv[w].rn == rn { PendingOnly(s, a, w); }
    }
    WaitingWithout(s, s', q, v, rn);
  }

  lemma NonePending(s: State, a: AdjId, q: seq<AdvId>)
    requires InvBut(s, Some(a)) && Mine(s, a) && s.adj[a].adv.None? && forall w :: w in q ==> w in s.adv
    ensures Waiting(s, q) == Others(Waiting(s, q), s.adj[a].home)
  {
    forall w | w in q ensures s.adv[w].rn != s.adj[a].home {
      if s.adv[w].rn == s.adj[a].home { PendingOnly(s, a, w); }
    }
    NotWaiting(s, q, s.adj[a].home);
  }

  lemma CleanQueues(s: State, a: AdjId)
    requires InvBut(s, Some(a)) && Mine(s, a)
    ensures Requeued(s, CleanPending(s, a), s.adj[a].home, [], [])
  {
    forall v | v in s.update || v in s.withdraw ensures v in s.adv { QueuesLive(s, v); }
    if s.adj[a].adv.Some? {
      var s' := CleanPending(s, a);
      assert AdjOk(s, a) && AdvOk(s, s.adj[a].adv.value);
      CleanIs(s, a);
      WithoutPending(s, s', a, s.update);
      WithoutPending(s, s', a, s.withdraw);
    } else {
      NonePending(s, a, s.update);
      NonePending(s, a, s.withdraw);
    }
  }

  lemma NotWaiting(s: State, q: seq<AdvId>, rn: Rn)
    requires forall v :: v in q ==> v in s.adv && s.adv[v].rn != rn
    ensures Others(Waiting(s, q), rn) == Waiting(s, q)
  {
    forall i | 0 <= i < |q| ensures Waiting(s, q)[i] != rn { assert q[i] in q; }
    OthersAll(Waiting(s, q), rn);
  }

  /** One record more. */
  lemma AddedLast(s: State, s': State, v: AdvId)
    requires AdvsOk(s) && v !in s.adv && v in s'.adv && s'.adv == s.adv[v := s'.adv[v]]
    ensures Waiting(s', s.update) == Waiting(s, s.update) && Waiting(s', s.withdraw) == Waiting(s, s.withdraw)
    ensures Waiting(s', s.update + [v]) == Waiting(s, s.update) + [s'.adv[v].rn]
    ensures Waiting(s', s.withdraw + [v]) == Waiting(s, s.withdraw) + [s'.adv[v].rn]
  {
    forall w | w in s.update || w in s.withdraw ensures w in s.adv { QueuesLive(s, w); }
    WaitingFrame(s, s', s.update);
    WaitingFrame(s, s', s.withdraw);
    WaitingSnoc(s', s.update, v);
    WaitingSnoc(s', s.withdraw, v);
  }

  lemma AnnounceQueues(s: State, a: AdjId, attr: Attr)
    requires AdvsOk(s) && BaasOk(s) && FreshOk(s) && a in s.adj
    ensures var s' := Announce(s, a, attr);
      && Waiting(s', s'.update) == Waiting(s, s.update) + [s.adj[a].home]
      && Waiting(s', s'.withdraw) == Waiting(s, s.withdraw)
  {
    var s' := Announce(s, a, attr);
    AnnounceIs(s, a, attr);
    FreshHandle(s, s'.next - 1);
    AddedLast(s, s', s'.next - 1);
  }

  lemma RetractQueues(s: State, a: AdjId)
    requires AdvsOk(s) && FreshOk(s) && a in s.adj
    ensures var s' := Retract(s, a);
      && Waiting(s', s'.update) == Waiting(s, s.update)
      && Waiting(s', s'.withdraw) == Waiting(s, s.withdraw) + [s.adj[a].home]
  {
    FreshHandle(s, s.next);
    AddedLast(s, Retract(s, a), s.next);
  }

  /** bgp_adj_out_set: an older record for the prefix goes, wherever it is, and the new one comes last. */
  lemma SetQueues(s: State, rn: Rn, attr: Attr)
    requires Inv(s)
    ensures Requeued(s, Set(s, rn, attr), rn, [rn], [])
  {
    var (s1, a) := EnsureAdj(s, rn);
    assert Waiting(s1, s1.update) == Waiting(s, s.update) && Waiting(s1, s1.withdraw) == Waiting(s, s.withdraw);
    EnsureAdjKeeps(s, rn);
    CleanPendingKeeps(s1, a);
    CleanQueues(s1, a);
    AnnounceQueues(CleanPending(s1, a), a, attr);
  }

  /** bgp_adj_out_unset: so it is with a withdrawal, which there is only if the peer was told something. */
  lemma UnsetQueues(s: State, rn: Rn)
    requires Inv(s)
    ensures Requeued(s, Unset(s, rn), rn, [], if Told(s, rn).Some? then [rn] else [])
  {
    AdjAtHome(s, rn);
    if AdjAt(s, rn).None? {
      NoRecord(s, rn);
    } else {
      var a := AdjAt(s, rn).value;
      CleanPendingKeeps(s, a);
      CleanQueues(s, a);
      if s.adj[a].attr.Some? { RetractQueues(CleanPending(s, a), a); }
    }
  }

  lemma NoRecord(s: State, rn: Rn)
    requires Inv(s) && AdjAt(s, rn).None?
    ensures Requeued(s, s, rn, [], [])
  {
    forall v | v in s.update || v in s.withdraw ensures v in s.adv && s.adv[v].rn != rn {
      QueuesLive(s, v);
      assert AdvOk(s, v);
      AdjAtNone(s, rn, s.adv[v].adj);
    }
    NotWaiting(s, s.update, rn);
    NotWaiting(s, s.withdraw, rn);
  }

  /** A record that is sent leaves its place, and the others keep theirs. */
  lemma SendQueues(s: State, v: AdvId)
    requires Inv(s) && CanSend(s, v)
    ensures Sendable(s, v) && Requeued(s, SendOne(s, v).0, s.adv[v].rn, [], [])
  {
    assert AdvOk(s, v);
    var a := s.adv[v].adj;
    assert AdjOk(s, a);
    SetToldKeeps(s, a, Some(AttrOf(s, v)));
    CleanQueues(SetTold(s, a, Some(AttrOf(s, v))), a);
  }

  /** The records that wait with an attribute, in the order in which they share a message. */
  ghost function ChainOf(s: State, attr: Attr): seq<AdvId> {
    if attr in s.hash && s.hash[attr] in s.baa then s.baa[s.hash[attr]].chain else []
  }

  lemma ChainLive(s: State, attr: Attr)
    requires BaasOk(s)
    ensures NoDup(ChainOf(s, attr))
    ensures forall v :: v in ChainOf(s, attr) ==> v in s.adv && s.adv[v].baa == Some(s.hash[attr])
  {
    if ChainOf(s, attr) != [] {
      assert BaaOk(s, s.hash[attr]);
    }
    forall v | v in ChainOf(s, attr) ensures v in s.adv && s.adv[v].baa == Some(s.hash[attr]) {
      assert ChainedOk(s, v, s.hash[attr]);
    }
  }

  /** What cleaning does to a chain: the record goes if it is there. */
  lemma CleanedChain(s: State, a: AdjId, v: AdvId, s': State, attr: Attr)
    requires BaasOk(s) && a in s.adj && v in s.adv && Cleaned(s, a, v, s')
    ensures ChainOf(s', attr) == Without(ChainOf(s, attr), v)
  {
    assert HashOk(s, attr);
    ChainLive(s, attr);
    if s.adv[v].baa.Some? {
      var c := s.adv[v].baa.value;
      assert ChainedOk(s, v, c) && BaaOk(s, c);
    }
  }

  lemma CleanChain(s: State, a: AdjId, attr: Attr)
    requires InvBut(s, Some(a)) && Mine(s, a)
    ensures var s' := CleanPending(s, a);
      Waiting(s', ChainOf(s', attr)) == Others(Waiting(s, ChainOf(s, attr)), s.adj[a].home)
  {
    ChainLive(s, attr);
    if s.adj[a].adv.Some? {
      var s', v := CleanPending(s, a), s.adj[a].adv.value;
      assert AdjOk(s, a) && AdvOk(s, v);
      CleanIs(s, a);
      CleanedChain(s, a, v, s', attr);
      WithoutPending(s, s', a, ChainOf(s, attr));
    } else {
      NonePending(s, a, ChainOf(s, attr));
    }
  }

  lemma AnnounceChain(s: State, a: AdjId, attr: Attr)
    requires AdvsOk(s) && BaasOk(s) && FreshOk(s) && a in s.adj
    ensures var s' := Announce(s, a, attr);
      Waiting(s', ChainOf(s', attr)) == [s.adj[a].home] + Waiting(s, ChainOf(s, attr))
  {
    var s', q := Announce(s, a, attr), ChainOf(s, attr);
    var v := s'.next - 1;
    AnnounceIs(s, a, attr);
    FreshHandle(s, v);
    assert HashOk(s, attr);
    ChainLive(s, attr);
    WaitingFrame(s, s', q);
    assert ChainOf(s', attr) == [v] + q;
    assert ([v] + q)[1..] == q;
    WaitingHead(s', [v] + q);
  }

  /** A prefix that is set becomes the first of those that share its attribute; the others keep their order. */
  lemma SetChain(s: State, rn: Rn, attr: Attr)
    requires Inv(s)
    ensures var s' := Set(s, rn, attr);
      Waiting(s', ChainOf(s', attr)) == [rn] + Others(Waiting(s, ChainOf(s, attr)), rn)
  {
    var (s1, a) := EnsureAdj(s, rn);
    assert Waiting(s1, ChainOf(s1, attr)) == Waiting(s, ChainOf(s, attr));
    EnsureAdjKeeps(s, rn);
    CleanPendingKeeps(s1, a);
    CleanChain(s1, a, attr);
    AnnounceChain(CleanPending(s1, a), a, attr);
  }
}
