/** bgp_attr_intern and bgp_attr_unintern as wholes, and runs of them (bgpd/bgp_attr.c). */
module AttrRuns {
  import opened Wrappers
  import opened AttrIntern

  /** A pointer in the attribute to be interned: a part with references, or one just made. */
  datatype Slot = Shared(id: PartId) | Fresh(content: Content)

  datatype Candidate = Candidate(fields: Fields, uncompared: Uncompared, slots: map<Kind, Slot>)

  ghost predicate Usable(parts: map<PartId, Part>, kind: Kind, slot: Slot) {
    slot.Shared? ==> slot.id in parts && parts[slot.id].kind == kind
  }

  ghost predicate AllUsable(parts: map<PartId, Part>, c: Candidate) {
    forall k | k in c.slots :: Usable(parts, k, c.slots[k])
  }

  ghost function ContentOf(parts: map<PartId, Part>, kind: Kind, slot: Slot): Content
    requires Usable(parts, kind, slot)
  {
    match slot
    case Shared(id) => parts[id].content
    case Fresh(c) => c
  }

  /** The intern function of a kind of part: the part in the hash table, or a new one. */
  ghost function Acquire(s: State, kind: Kind, content: Content): (r: (State, PartId)) {
    if id :| id in s.parts && s.parts[id].kind == kind && s.parts[id].content == content then (AddRef(s, id), id)
    else (NewPart(s, kind, content), s.next)
  }

  /** One of the five steps of bgp_attr_intern, on a slot that is set. */
  ghost function TakeSlot(s: State, kind: Kind, slot: Slot): (State, PartId)
    requires Usable(s.parts, kind, slot)
  {
    match slot
    case Shared(id) => (AddRef(s, id), id)
    case Fresh(c) => Acquire(s, kind, c)
  }

  /** What a step on a part leaves unchanged. */
  ghost predicate Extends(s: State, t: State) {
    Inv(t) && Stable(s.parts, t.parts) && s.parts.Keys <= t.parts.Keys && s.attrs == t.attrs && s.next <= t.next
  }

  lemma TakeSlotMeans(s: State, kind: Kind, slot: Slot)
    requires Inv(s) && Usable(s.parts, kind, slot)
    ensures var (t, id) := TakeSlot(s, kind, slot);
            && Extends(s, t) && t.direct == s.direct + multiset{id}
            && id in t.parts && t.parts[id].kind == kind && t.parts[id].content == ContentOf(s.parts, kind, slot)
  {
    var (t, id) := TakeSlot(s, kind, slot);
    if id in s.parts && t == AddRef(s, id) {
      AddRefKeeps(s, id);
    } else {
      assert Absent(s.parts, kind, slot.content);
      NewPartKeeps(s, kind, slot.content);
    }
  }

  /** The references taken so far, for the kinds `done`. */
  datatype Progress = Progress(s: State, refs: map<Kind, PartId>)

  ghost function Step(g: Progress, c: Candidate, kind: Kind): Progress
    requires kind in c.slots ==> Usable(g.s.parts, kind, c.slots[kind])
  {
    if kind !in c.slots then g
    else
      var (t, id) := TakeSlot(g.s, kind, c.slots[kind]);
      Progress(t, g.refs[kind := id])
  }

  /** The reference is to a part with the kind and the content of its slot. */
  ghost predicate RefTaken(s: State, c: Candidate, t: State, k: Kind, id: PartId) {
    && k in c.slots && Usable(s.parts, k, c.slots[k])
    && id in t.parts && t.parts[id].kind == k && t.parts[id].content == ContentOf(s.parts, k, c.slots[k])
  }

  ghost predicate AllTaken(s: State, c: Candidate, g: Progress) {
    forall k {:trigger g.refs[k]} | k in g.refs :: RefTaken(s, c, g.s, k, g.refs[k])
  }

  ghost predicate Taken(s: State, c: Candidate, g: Progress, done: set<Kind>) {
    && Extends(s, g.s) && AllUsable(s.parts, c)
    && g.refs.Keys == c.slots.Keys * done
    && g.s.direct == s.direct + multiset(g.refs.Values)
    && AllTaken(s, c, g)
  }

  lemma StillUsable(s: State, t: State, kind: Kind, slot: Slot)
    requires Extends(s, t) && Usable(s.parts, kind, slot)
    ensures Usable(t.parts, kind, slot) && ContentOf(t.parts, kind, slot) == ContentOf(s.parts, kind, slot)
  {
  }

  lemma ExtendsFurther(s: State, t: State, u: State)
    requires Extends(s, t) && Extends(t, u)
    ensures Extends(s, u)
  {
  }

  lemma TakenBefore(s: State, c: Candidate, g: Progress, t: State, kind: Kind, id: PartId)
    requires AllTaken(s, c, g) && Extends(g.s, t) && kind !in g.refs && RefTaken(s, c, t, kind, id)
    ensures AllTaken(s, c, Progress(t, g.refs[kind := id]))
    ensures forall k | k in g.refs :: g.refs[k] != id
  {
    var h := Progress(t, g.refs[kind := id]);
    forall k | k in h.refs
      ensures RefTaken(s, c, t, k, h.refs[k])
      ensures k in g.refs ==> g.refs[k] != id
    {
      if k != kind {
        assert RefTaken(s, c, g.s, k, g.refs[k]);
      }
    }
  }

  lemma StepTakes(s: State, c: Candidate, g: Progress, done: set<Kind>, kind: Kind)
    requires Taken(s, c, g, done) && kind !in done
    ensures kind in c.slots ==> Usable(g.s.parts, kind, c.slots[kind])
    ensures Taken(s, c, Step(g, c, kind), done + {kind})
  {
    if kind in c.slots {
      StillUsable(s, g.s, kind, c.slots[kind]);
      TakeSlotMeans(g.s, kind, c.slots[kind]);
      var (t, id) := TakeSlot(g.s, kind, c.slots[kind]);
      OneTaken(s, c, g, done, kind, t, id);
    } else {
      assert c.slots.Keys * (done + {kind}) == c.slots.Keys * done;
    }
  }

  lemma OneTaken(s: State, c: Candidate, g: Progress, done: set<Kind>, kind: Kind, t: State, id: PartId)
    requires Taken(s, c, g, done) && kind !in done && kind in c.slots
    requires Extends(g.s, t) && t.direct == g.s.direct + multiset{id} && RefTaken(s, c, t, kind, id)
    ensures Taken(s, c, Progress(t, g.refs[kind := id]), done + {kind})
  {
    ExtendsFurther(s, g.s, t);
    TakenBefore(s, c, g, t, kind, id);
    OneMoreValue(g.refs, kind, id);
    OneMoreKey(g.refs, c.slots.Keys, done, kind, id);
  }

  lemma OneMoreKey(refs: map<Kind, PartId>, slots: set<Kind>, done: set<Kind>, kind: Kind, id: PartId)
    requires refs.Keys == slots * done && kind in slots
    ensures refs[kind := id].Keys == slots * (done + {kind})
  {
  }

  lemma OneMoreValue(refs: map<Kind, PartId>, kind: Kind, id: PartId)
    requires kind !in refs && forall k | k in refs :: refs[k] != id
    ensures multiset(refs[kind := id].Values) == multiset(refs.Values) + multiset{id}
  {
    var m := refs[kind := id];
    assert m.Values == refs.Values + {id} by {
      forall k | k in refs
        ensures refs[k] in m.Values
      {
        assert m[k] == refs[k];
      }
      assert m[kind] == id;
    }
    assert id !in refs.Values;
  }

  // ---------------------------------------------------------------- bgp_attr_intern

  /** The order in which the source treats the five slots. */
  function Rank(k: Kind): nat {
    match k
    case AsPathPart => 0
    case CommunityPart => 1
    case EcommunityPart => 2
    case ClusterPart => 3
    case TransitPart => 4
  }

  function KindAt(n: nat): (k: Kind)
    requires n < 5
    ensures Rank(k) == n
  {
    if n == 0 then AsPathPart
    else if n == 1 then CommunityPart
    else if n == 2 then EcommunityPart
    else if n == 3 then ClusterPart
    else TransitPart
  }

  function KindsBelow(n: nat): set<Kind> {
    set k: Kind | Rank(k) < n
  }

  lemma KindsGrow(n: nat)
    requires n < 5
    ensures KindAt(n) !in KindsBelow(n) && KindsBelow(n) + {KindAt(n)} == KindsBelow(n + 1)
  {
  }

  /** The first n slots. */
  ghost function Gather(s: State, c: Candidate, n: nat): (g: Progress)
    requires Inv(s) && AllUsable(s.parts, c) && n <= 5
    ensures Taken(s, c, g, KindsBelow(n))
  {
    if n == 0 then
      NothingTaken(s, c);
      Progress(s, map[])
    else
      var m := n - 1;
      var g := Gather(s, c, m);
      KindsGrow(m);
      StepTakes(s, c, g, KindsBelow(m), KindAt(m));
      Step(g, c, KindAt(m))
  }

  lemma NothingTaken(s: State, c: Candidate)
    requires Inv(s) && AllUsable(s.parts, c)
    ensures Taken(s, c, Progress(s, map[]), KindsBelow(0))
  {
    assert KindsBelow(0) == {};
  }

  /** The entry that attrhash_cmp finds, if any. */
  function Lookup(attrs: seq<Entry>, a: Attr): (k: Option<nat>)
    ensures k.Some? ==> k.value < |attrs| && Cmp(attrs[k.value].attr, a)
    ensures k.None? ==> forall i | 0 <= i < |attrs| :: !Cmp(attrs[i].attr, a)
  {
    if attrs == [] then None
    else if Cmp(attrs[0].attr, a) then Some(0)
    else match Lookup(attrs[1..], a)
      case None => None
      case Some(k) => Some(k + 1)
  }

  /** bgp_attr_intern: the new tables, and where the attribute stands in its table. */
  ghost function Intern(s: State, c: Candidate): (State, nat)
    requires Inv(s) && AllUsable(s.parts, c)
  {
    var g := Gather(s, c, 5);
    var a := Attr(c.fields, c.uncompared, g.refs);
    match Lookup(g.s.attrs, a)
    case Some(k) => (BindOld(g.s, k), k)
    case None => (BindNew(g.s, a), |g.s.attrs|)
  }

  /** The attribute has the compared fields of the candidate, and parts of the same content. */
  ghost predicate StandsFor(s: State, c: Candidate, t: State, a: Attr)
    requires AllUsable(s.parts, c)
  {
    && a.fields == c.fields && a.refs.Keys == c.slots.Keys && RefsLive(t.parts, a)
    && forall k | k in a.refs :: t.parts[a.refs[k]].content == ContentOf(s.parts, k, c.slots[k])
  }

  /** The k-th attribute stands for the candidate and has one more reference; no other attribute, no
      content and no direct reference has changed. */
  ghost predicate Interned(s: State, c: Candidate, t: State, k: nat)
    requires AllUsable(s.parts, c)
  {
    && t.direct == s.direct && Stable(s.parts, t.parts) && s.parts.Keys <= t.parts.Keys
    && k < |t.attrs| && StandsFor(s, c, t, t.attrs[k].attr)
    && if k < |s.attrs| then t.attrs == s.attrs[k := s.attrs[k].(refcnt := s.attrs[k].refcnt + 1)]
       else
         && t.attrs[..k] == s.attrs && |t.attrs| == k + 1
         && t.attrs[k].refcnt == 1 && t.attrs[k].attr.uncompared == c.uncompared
  }

  lemma InternMeans(s: State, c: Candidate)
    requires Inv(s) && AllUsable(s.parts, c)
    ensures Inv(Intern(s, c).0) && Interned(s, c, Intern(s, c).0, Intern(s, c).1)
  {
    var g := Gather(s, c, 5);
    GatheredStands(s, c, g);
    match Lookup(g.s.attrs, Attr(c.fields, c.uncompared, g.refs)) {
      case Some(k) => FoundMeans(s, c, g, k);
      case None => EnteredMeans(s, c, g);
    }
  }

  lemma FoundMeans(s: State, c: Candidate, g: Progress, k: nat)
    requires AllUsable(s.parts, c) && Taken(s, c, g, KindsBelow(5)) && k < |g.s.attrs|
    requires StandsFor(s, c, g.s, Attr(c.fields, c.uncompared, g.refs))
    requires Cmp(g.s.attrs[k].attr, Attr(c.fields, c.uncompared, g.refs))
    ensures Inv(BindOld(g.s, k)) && Interned(s, c, BindOld(g.s, k), k)
  {
    DirectBack(s.direct, multiset(g.refs.Values));
    BindOldKeeps(g.s, k);
  }

  lemma EnteredMeans(s: State, c: Candidate, g: Progress)
    requires AllUsable(s.parts, c) && Taken(s, c, g, KindsBelow(5))
    requires StandsFor(s, c, g.s, Attr(c.fields, c.uncompared, g.refs))
    requires forall i | 0 <= i < |g.s.attrs| :: !Cmp(g.s.attrs[i].attr, Attr(c.fields, c.uncompared, g.refs))
    ensures var t := BindNew(g.s, Attr(c.fields, c.uncompared, g.refs)); Inv(t) && Interned(s, c, t, |s.attrs|)
  {
    DirectBack(s.direct, multiset(g.refs.Values));
    BindNewKeeps(g.s, Attr(c.fields, c.uncompared, g.refs));
  }

  lemma DirectBack(d: multiset<PartId>, m: multiset<PartId>)
    ensures m <= d + m && d + m - m == d
  {
  }

  lemma GatheredStands(s: State, c: Candidate, g: Progress)
    requires AllUsable(s.parts, c)
    requires Taken(s, c, g, KindsBelow(5))
    ensures StandsFor(s, c, g.s, Attr(c.fields, c.uncompared, g.refs))
  {
    forall k | k in c.slots
      ensures k in g.refs
    {
      assert k in KindsBelow(5);
    }
    assert g.refs.Keys == c.slots.Keys;
    forall k | k in g.refs
      ensures g.refs[k] in g.s.parts && g.s.parts[g.refs[k]].kind == k
      ensures g.s.parts[g.refs[k]].content == ContentOf(s.parts, k, c.slots[k])
    {
      assert RefTaken(s, c, g.s, k, g.refs[k]);
    }
  }

  /** The attribute handed out agrees with the candidate also in the members that attrhash_cmp does not
      look at exactly when no interned attribute agrees with it in all others and differs in those. */
  lemma InternFaithfulIff(s: State, c: Candidate)
    requires Inv(s) && AllUsable(s.parts, c)
    ensures var (t, k) := Intern(s, c);
            && k < |t.attrs|
            && (t.attrs[k].attr.uncompared == c.uncompared <==>
                forall i | 0 <= i < |s.attrs| && StandsFor(s, c, s, s.attrs[i].attr) ::
                  s.attrs[i].attr.uncompared == c.uncompared)
  {
    InternMeans(s, c);
    var (t, k) := Intern(s, c);
    forall i | 0 <= i < |s.attrs| && StandsFor(s, c, s, s.attrs[i].attr)
      ensures i == k
    {
      StandsLater(s, c, t, s.attrs[i].attr);
      assert t.attrs[i].attr == s.attrs[i].attr;
      InternedOnce(t, i, k);
    }
    if k < |s.attrs| {
      assert EntryOk(s, s.attrs[k]);
      assert StandsFor(s, c, s, s.attrs[k].attr);
    }
  }

  lemma StandsLater(s: State, c: Candidate, t: State, a: Attr)
    requires AllUsable(s.parts, c) && StandsFor(s, c, s, a) && Stable(s.parts, t.parts) && s.parts.Keys <= t.parts.Keys
    ensures StandsFor(s, c, t, a)
  {
  }

  const Empty := State(map[], [], 0, multiset{})

  lemma EmptyInv()
    ensures Inv(Empty)
  {
    forall id
      ensures Balanced(Empty, id)
    {
    }
  }

  /** Attributes that differ in their originator only are taken for one: the second gets the first's. */
  lemma OriginatorConflated(f: Fields)
    ensures var c1, c2 := Candidate(f, Uncompared(1, 0), map[]), Candidate(f, Uncompared(2, 0), map[]);
            && Inv(Empty) && AllUsable(Empty.parts, c1)
            && Inv(Intern(Empty, c1).0) && AllUsable(Intern(Empty, c1).0.parts, c2)
            && var (t, k) := Intern(Intern(Empty, c1).0, c2);
            && k < |t.attrs| && t.attrs[k].attr.uncompared.originatorId == 1
  {
    var c1, c2 := Candidate(f, Uncompared(1, 0), map[]), Candidate(f, Uncompared(2, 0), map[]);
    EmptyInv();
    InternMeans(Empty, c1);
    var (s, j) := Intern(Empty, c1);
    assert StandsFor(Empty, c1, s, s.attrs[0].attr);
    assert StandsFor(s, c2, s, s.attrs[0].attr);
    InternFaithfulIff(s, c2);
    InternMeans(s, c2);
    var (t, k) := Intern(s, c2);
    assert t.attrs[k].attr.uncompared != c2.uncompared;
  }

  // ---------------------------------------------------------------- bgp_attr_unintern

  /** The references of the slots from n on. */
  function RefsFrom(a: Attr, n: nat): map<Kind, PartId> {
    map k | k in a.refs && Rank(k) >= n :: a.refs[k]
  }

  /** The tables while the references of an attribute are being dropped: those from n on are still there. */
  ghost predicate Dropping(s: State, a: Attr, n: nat, direct: multiset<PartId>) {
    Inv(s) && s.direct == direct + multiset(RefsFrom(a, n).Values)
  }

  ghost predicate RefsApart(a: Attr) {
    forall j, k | j in a.refs && k in a.refs && j != k :: a.refs[j] != a.refs[k]
  }

  ghost function DropKind(s: State, a: Attr, kind: Kind): State
    requires kind in a.refs ==> a.refs[kind] in s.parts
  {
    if kind in a.refs then DropRef(s, a.refs[kind]) else s
  }

  lemma DropKindMeans(s: State, a: Attr, n: nat, direct: multiset<PartId>)
    requires n < 5 && Dropping(s, a, n, direct) && RefsApart(a)
    ensures KindAt(n) in a.refs ==> a.refs[KindAt(n)] in s.parts
    ensures Dropping(DropKind(s, a, KindAt(n)), a, n + 1, direct)
    ensures DropKind(s, a, KindAt(n)).attrs == s.attrs && Stable(s.parts, DropKind(s, a, KindAt(n)).parts)
  {
    OneDropped(a, n);
    if KindAt(n) in a.refs {
      DropRefKeeps(s, a.refs[KindAt(n)]);
    }
  }

  lemma OneDropped(a: Attr, n: nat)
    requires n < 5 && RefsApart(a)
    ensures var now, later := multiset(RefsFrom(a, n).Values), multiset(RefsFrom(a, n + 1).Values);
            if KindAt(n) in a.refs then now == later + multiset{a.refs[KindAt(n)]} else now == later
  {
    var kind := KindAt(n);
    var later := RefsFrom(a, n + 1);
    RankUnique(n);
    if kind in a.refs {
      assert RefsFrom(a, n) == later[kind := a.refs[kind]];
      OneMoreValue(later, kind, a.refs[kind]);
    } else {
      assert RefsFrom(a, n) == later;
    }
  }

  lemma RankUnique(n: nat)
    requires n < 5
    ensures forall k: Kind :: Rank(k) == n <==> k == KindAt(n)
  {
  }

  /** Release the slots from n on, as bgp_attr_unintern does at its end. */
  ghost function DropFrom(s: State, a: Attr, n: nat, direct: multiset<PartId>): (t: State)
    requires n <= 5 && Dropping(s, a, n, direct) && RefsApart(a)
    ensures Dropping(t, a, 5, direct) && t.attrs == s.attrs
    decreases 5 - n
  {
    if n == 5 then s
    else
      DropKindMeans(s, a, n, direct);
      DropFrom(DropKind(s, a, KindAt(n)), a, n + 1, direct)
  }

  lemma UnbindOwes(s: State, k: nat)
    requires Inv(s) && k < |s.attrs|
    ensures RefsApart(s.attrs[k].attr) && Dropping(Unbind(s, k), s.attrs[k].attr, 0, s.direct)
  {
    var a := s.attrs[k].attr;
    assert EntryOk(s, s.attrs[k]);
    UnbindKeeps(s, k);
    assert RefsFrom(a, 0) == a.refs;
  }

  /** bgp_attr_unintern on the k-th attribute. */
  ghost function Unintern(s: State, k: nat): State
    requires Inv(s) && k < |s.attrs|
  {
    UnbindOwes(s, k);
    DropFrom(Unbind(s, k), s.attrs[k].attr, 0, s.direct)
  }

  /** One reference less to that attribute, which goes with its last one; no other attribute and no direct
      reference changes. */
  lemma UninternMeans(s: State, k: nat)
    requires Inv(s) && k < |s.attrs|
    ensures var t := Unintern(s, k);
            && Inv(t) && t.direct == s.direct
            && t.attrs == if s.attrs[k].refcnt == 1 then s.attrs[..k] + s.attrs[k + 1..]
                          else s.attrs[k := s.attrs[k].(refcnt := s.attrs[k].refcnt - 1)]
  {
    UnbindOwes(s, k);
    assert EntryOk(s, s.attrs[k]);
    var a := s.attrs[k].attr;
    assert RefsFrom(a, 5) == map[] by {
      assert forall kind: Kind :: Rank(kind) < 5;
    }
    assert multiset(RefsFrom(a, 5).Values) == multiset{};
  }

  // ---------------------------------------------------------------- runs

  /** What can happen to the tables: a parser makes a part, its reference is dropped, an attribute is
      interned or uninterned. */
  datatype Event =
    | Parse(kind: Kind, content: Content)
    | Release(id: PartId)
    | InternAttr(c: Candidate)
    | UninternAttr(k: nat)

  /** References are dropped only by those who have them. */
  ghost predicate Enabled(s: State, e: Event) {
    match e
    case Parse(_, _) => true
    case Release(id) => id in s.direct
    case InternAttr(c) => AllUsable(s.parts, c)
    case UninternAttr(k) => k < |s.attrs|
  }

  ghost function Do(s: State, e: Event): (t: State)
    requires Inv(s) && Enabled(s, e)
    ensures Inv(t)
  {
    match e
    case Parse(kind, content) =>
      TakeSlotMeans(s, kind, Fresh(content));
      Acquire(s, kind, content).0
    case Release(id) =>
      DropRefKeeps(s, id);
      DropRef(s, id)
    case InternAttr(c) =>
      InternMeans(s, c);
      Intern(s, c).0
    case UninternAttr(k) =>
      UninternMeans(s, k);
      Unintern(s, k)
  }

  /** The states of a run, each by an enabled event from the one before. */
  ghost predicate IsRun(states: seq<State>, events: seq<Event>) {
    && |states| == |events| + 1 && states[0] == Empty
    && forall i | 0 <= i < |events| ::
         Inv(states[i]) ==> Enabled(states[i], events[i]) && states[i + 1] == Do(states[i], events[i])
  }

  /** In every state of every run the counts are exact, and whatever is referenced is live. */
  lemma {:induction false} RunsBalance(states: seq<State>, events: seq<Event>, n: nat)
    requires IsRun(states, events) && n <= |events|
    ensures Inv(states[n])
  {
    if n == 0 {
      EmptyInv();
    } else {
      var m := n - 1;
      RunsBalance(states, events, m);
      assert states[m + 1] == Do(states[m], events[m]);
    }
  }

  /** So no attribute that is held ever points at a part that was freed. */
  lemma HeldIsLive(states: seq<State>, events: seq<Event>, n: nat, i: nat, k: Kind)
    requires IsRun(states, events) && n <= |events| && i < |states[n].attrs| && k in states[n].attrs[i].attr.refs
    ensures var id := states[n].attrs[i].attr.refs[k];
            id in states[n].parts && states[n].parts[id].kind == k
            && states[n].parts[id].refcnt == states[n].direct[id] + RefSum(states[n].attrs, id)
            && states[n].parts[id].refcnt >= states[n].attrs[i].refcnt > 0
  {
    RunsBalance(states, events, n);
    var s := states[n];
    var id := s.attrs[i].attr.refs[k];
    assert EntryOk(s, s.attrs[i]);
    assert Balanced(s, id);
    RefSumAt(s.attrs, i, id);
  }

  /** Looking at the key first does not miss an entry. */
  lemma KeyFirst(s: State, k: nat, a: Attr)
    requires Inv(s) && k < |s.attrs| && RefsLive(s.parts, a)
    ensures Cmp(s.attrs[k].attr, a) ==> s.attrs[k].key == Key(s.parts, a)
  {
    assert EntryOk(s, s.attrs[k]);
    CmpMeans(s.parts, s.attrs[k].attr, a);
  }

  lemma LookupStep(attrs: seq<Entry>, k: nat, a: Attr)
    requires k < |attrs| && !Cmp(attrs[k].attr, a)
    ensures Lookup(attrs[k..], a) == match Lookup(attrs[k + 1..], a) case None => None case Some(i) => Some(i + 1)
  {
    assert attrs[k..][1..] == attrs[k + 1..];
  }

  /** The hash tables in place. */
  class Tables {
    var parts: map<PartId, Part>
    var attrs: seq<Entry>
    var next: nat
    ghost var direct: multiset<PartId>

    ghost function Snap(): State
      reads this
    {
      State(parts, attrs, next, direct)
    }

    constructor ()
      ensures Snap() == Empty && Inv(Snap())
    {
      parts, attrs, next, direct := map[], [], 0, multiset{};
      new;
      EmptyInv();
    }

    /** aspath_intern, community_intern and the others: hash_get, then one more reference. */
    method InternPart(kind: Kind, content: Content) returns (id: PartId)
      requires Inv(Snap())
      modifies this
      ensures (Snap(), id) == Acquire(old(Snap()), kind, content)
    {
      if j :| j in parts && parts[j].kind == kind && parts[j].content == content {
        id := j;
        AddReference(id);
      } else {
        id := next;
        parts, next := parts[id := Part(kind, content, 1)], next + 1;
        direct := direct + multiset{id};
      }
    }

    method AddReference(id: PartId)
      requires id in parts
      modifies this`parts, this`direct
      ensures Snap() == AddRef(old(Snap()), id)
    {
      parts := parts[id := parts[id].(refcnt := parts[id].refcnt + 1)];
      direct := direct + multiset{id};
    }

    /** aspath_unintern, community_unintern and the others. */
    method UninternPart(id: PartId)
      requires id in parts
      modifies this`parts, this`direct
      ensures Snap() == DropRef(old(Snap()), id)
    {
      var n := parts[id].refcnt;
      if n > 0 {
        n := n - 1;
      }
      if n == 0 {
        parts := parts - {id};
      } else {
        parts := parts[id := parts[id].(refcnt := n)];
      }
      direct := direct - multiset{id};
    }

    /** One slot of bgp_attr_intern. */
    method InternSlot(c: Candidate, kind: Kind, refs: map<Kind, PartId>) returns (more: map<Kind, PartId>)
      requires Inv(Snap()) && (kind in c.slots ==> Usable(parts, kind, c.slots[kind]))
      modifies this
      ensures Progress(Snap(), more) == Step(Progress(old(Snap()), refs), c, kind)
    {
      more := refs;
      if kind in c.slots {
        var id;
        match c.slots[kind] {
          case Shared(j) =>
            id := j;
            AddReference(j);
          case Fresh(content) =>
            id := InternPart(kind, content);
        }
        more := more[kind := id];
      }
    }

    /** hash_get on the attribute table: the key of the bucket first, then attrhash_cmp. */
    method Find(a: Attr) returns (k: nat)
      requires Inv(Snap()) && RefsLive(parts, a)
      ensures k <= |attrs| && Lookup(attrs, a) == if k < |attrs| then Some(k) else None
    {
      var key := Key(parts, a);
      k := 0;
      while k < |attrs| && !(attrs[k].key == key && Cmp(attrs[k].attr, a))
        invariant k <= |attrs|
        invariant Lookup(attrs, a) == match Lookup(attrs[k..], a) case None => None case Some(i) => Some(k + i)
      {
        KeyFirst(Snap(), k, a);
        LookupStep(attrs, k, a);
        k := k + 1;
      }
    }

    /** bgp_attr_intern. */
    method InternAttribute(c: Candidate) returns (k: nat)
      requires Inv(Snap()) && AllUsable(parts, c)
      modifies this
      ensures (Snap(), k) == Intern(old(Snap()), c) && Inv(Snap())
    {
      ghost var s := Snap();
      InternMeans(s, c);
      var refs := GatherParts(c);
      var a := Attr(c.fields, c.uncompared, refs);
      GatheredStands(s, c, Gather(s, c, 5));
      k := Find(a);
      Bind(a, k);
    }

    method GatherParts(c: Candidate) returns (refs: map<Kind, PartId>)
      requires Inv(Snap()) && AllUsable(parts, c)
      modifies this
      ensures Progress(Snap(), refs) == Gather(old(Snap()), c, 5) && Inv(Snap())
    {
      ghost var s := Snap();
      refs := map[];
      refs := NextPart(c, AsPathPart, refs, s, 0);
      refs := NextPart(c, CommunityPart, refs, s, 1);
      refs := NextPart(c, EcommunityPart, refs, s, 2);
      refs := NextPart(c, ClusterPart, refs, s, 3);
      refs := NextPart(c, TransitPart, refs, s, 4);
    }

    method NextPart(c: Candidate, kind: Kind, refs: map<Kind, PartId>, ghost s: State, ghost n: nat)
        returns (more: map<Kind, PartId>)
      requires Inv(s) && AllUsable(s.parts, c) && n < 5 && kind == KindAt(n)
      requires Progress(Snap(), refs) == Gather(s, c, n)
      modifies this
      ensures Progress(Snap(), more) == Gather(s, c, n + 1)
    {
      KindsGrow(n);
      StepTakes(s, c, Gather(s, c, n), KindsBelow(n), kind);
      more := InternSlot(c, kind, refs);
    }

    method Bind(a: Attr, k: nat)
      requires k <= |attrs| && (k < |attrs| ==> Cmp(attrs[k].attr, a))
      modifies this
      ensures Snap() == if k < |old(attrs)| then BindOld(old(Snap()), k) else BindNew(old(Snap()), a)
    {
      if k < |attrs| {
        attrs := attrs[k := attrs[k].(refcnt := attrs[k].refcnt + 1)];
      } else {
        attrs, next := attrs + [Entry(next, a, 1, Key(parts, a))], next + 1;
      }
      direct := direct - multiset(a.refs.Values);
    }

    /** bgp_attr_unintern; the table is searched with attrhash_cmp when the last reference goes. */
    method UninternAttribute(k: nat)
      requires Inv(Snap()) && k < |attrs|
      modifies this
      ensures Snap() == Unintern(old(Snap()), k) && Inv(Snap())
    {
      ghost var s := Snap();
      UninternMeans(s, k);
      UnbindOwes(s, k);
      var a := attrs[k].attr;
      Unbinding(k);
      DropParts(a, s.direct);
    }

    method DropParts(a: Attr, ghost d: multiset<PartId>)
      requires RefsApart(a) && Dropping(Snap(), a, 0, d)
      modifies this
      ensures Dropping(old(Snap()), a, 0, d) && Snap() == DropFrom(old(Snap()), a, 0, d)
    {
      ghost var t, n := Snap(), 0;
      n := DropPart(a, AsPathPart, n, d, t);
      n := DropPart(a, CommunityPart, n, d, t);
      n := DropPart(a, EcommunityPart, n, d, t);
      n := DropPart(a, ClusterPart, n, d, t);
      n := DropPart(a, TransitPart, n, d, t);
    }

    method Unbinding(k: nat)
      requires Inv(Snap()) && k < |attrs|
      modifies this
      ensures Snap() == Unbind(old(Snap()), k)
    {
      assert EntryOk(Snap(), attrs[k]);
      var e := attrs[k];
      if e.refcnt == 1 {
        attrs := attrs[..k] + attrs[k + 1..];
      } else {
        attrs := attrs[k := e.(refcnt := e.refcnt - 1)];
      }
      direct := direct + multiset(e.attr.refs.Values);
    }

    /** Release one slot; `t` are the tables before the first one. */
    method DropPart(a: Attr, kind: Kind, ghost n: nat, ghost d: multiset<PartId>, ghost t: State) returns (ghost m: nat)
      requires n < 5 && kind == KindAt(n) && RefsApart(a) && Dropping(Snap(), a, n, d)
      requires Dropping(t, a, 0, d) && DropFrom(t, a, 0, d) == DropFrom(Snap(), a, n, d)
      modifies this
      ensures m == n + 1 && Dropping(Snap(), a, m, d) && DropFrom(t, a, 0, d) == DropFrom(Snap(), a, m, d)
    {
      m := n + 1;
      DropKindMeans(Snap(), a, n, d);
      if kind in a.refs {
        UninternPart(a.refs[kind]);
      }
    }
  }
}
