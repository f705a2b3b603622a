/** aspath_aggregate on the octets of its two paths (bgpd/bgp_aspath.c). */
module AsPathAggregator {
  import opened Wrappers
  import opened Octets
  import opened AsSegments
  import opened AsPathCodec
  import opened AsPathAggregate

  // ---------------------------------------------------------------- reading

  lemma CodesDiffer(t: SegType, u: SegType)
    ensures Code(t) == Code(u) <==> t == u
  {
  }

  /** The loop over two segments. */
  method MatchSegments(d1: seq<Byte>, c1: nat, d2: seq<Byte>, c2: nat) returns (m: nat)
    requires c1 < |d1| && StartsWhole(d1[c1..]) && c2 < |d2| && StartsWhole(d2[c2..])
    ensures m == MatchLength(FirstSegment(d1[c1..]).ases, FirstSegment(d2[c2..]).ases)
  {
    ghost var a, b := FirstSegment(d1[c1..]).ases, FirstSegment(d2[c2..]).ases;
    assert d1[c1 + 1] == d1[c1..][1] && d2[c2 + 1] == d2[c2..][1];
    var minlen := if d1[c1 + 1] < d2[c2 + 1] then d1[c1 + 1] else d2[c2 + 1];
    m := 0;
    assert a[0..] == a && b[0..] == b;
    while m < minlen
      invariant 0 <= m <= minlen && MatchLength(a, b) == m + MatchLength(a[m..], b[m..])
    {
      EntryAt(d1, c1, m);
      EntryAt(d2, c2, m);
      if AsAt(d1, c1, m) != AsAt(d2, c2, m) {
        return;
      }
      assert a[m..][1..] == a[m + 1..] && b[m..][1..] == b[m + 1..];
      m := m + 1;
    }
  }

  // ---------------------------------------------------------------- the common leading part

  /** aspath_aggregate_segment_copy: the first k entries of the segment at a cursor, as a segment. */
  method SegmentCopy(data: seq<Byte>, d: seq<Byte>, at: nat, k: nat, ghost r: Path, ghost q: Path)
      returns (more: seq<Byte>)
    requires Fits(r) && data == Encode(r) && At(d, at, q) && at < |d| && q != [] && k <= |q[0].ases|
    ensures Fits(r + [Segment(q[0].typ, q[0].ases[..k])]) && more == Encode(r + [Segment(q[0].typ, q[0].ases[..k])])
  {
    AtSegment(d, at, q);
    CopiedEntries(d, at, k);
    EncodeSnoc(r, Segment(q[0].typ, q[0].ases[..k]));
    more := data + ([d[at], k] + d[at + 2..at + 2 + 2 * k]);
  }

  lemma CopiedEntries(d: seq<Byte>, at: nat, k: nat)
    requires at < |d| && StartsWhole(d[at..]) && k <= |FirstSegment(d[at..]).ases|
    ensures at + 2 + 2 * k <= |d| && d[at + 2..at + 2 + 2 * k] == EncodeAses(FirstSegment(d[at..]).ases[..k])
  {
    var rest := d[at..];
    var ases := FirstSegment(rest).ases;
    var body := rest[2..SegmentSize(rest[1])];
    AsesBackAndThere(body);
    EncodeAsesConcat(ases[..k], ases[k..]);
    assert ases[..k] + ases[k..] == ases;
    assert body == EncodeAses(ases);
    assert body[..2 * k] == EncodeAses(ases[..k]);
    SliceOfSlice(d, at, SegmentSize(rest[1]), 2 * k);
  }

  lemma SliceOfSlice(d: seq<Byte>, at: nat, n: nat, k: nat)
    requires at + n <= |d| && 2 + k <= n
    ensures d[at..][2..n][..k] == d[at + 2..at + 2 + k]
  {
  }

  /** One round: compare two segments of the same type and copy what they share. */
  method CopyCommon(d1: seq<Byte>, c1: nat, d2: seq<Byte>, c2: nat, data: seq<Byte>,
                    ghost r: Path, ghost q1: Path, ghost q2: Path)
      returns (more: seq<Byte>, m: nat)
    requires At(d1, c1, q1) && c1 < |d1| && At(d2, c2, q2) && c2 < |d2| && q1 != [] && q2 != []
    requires Fits(r) && data == Encode(r)
    ensures m == MatchLength(q1[0].ases, q2[0].ases)
    ensures Fits(Copied(r, q1[0], m)) && more == Encode(Copied(r, q1[0], m))
  {
    AtSegment(d1, c1, q1);
    AtSegment(d2, c2, q2);
    m := MatchSegments(d1, c1, d2, c2);
    more := data;
    if m > 0 {
      more := SegmentCopy(data, d1, c1, m, r, q1);
    }
  }

  /** Both cursors, and what has been copied. */
  ghost predicate Standing(d1: seq<Byte>, c1: nat, q1: Path, d2: seq<Byte>, c2: nat, q2: Path,
                           data: seq<Byte>, r: Path) {
    At(d1, c1, q1) && At(d2, c2, q2) && Fits(r) && data == Encode(r)
  }

  /** One round of the first loop, whose outcome as a whole is `s`. */
  method Round(d1: seq<Byte>, c1: nat, d2: seq<Byte>, c2: nat, data: seq<Byte>, matched: nat,
               ghost r: Path, ghost q1: Path, ghost q2: Path, ghost s: Stop)
      returns (stop: bool, more: seq<Byte>, m: nat, n1: nat, n2: nat, ghost r': Path, ghost k: nat)
    requires Standing(d1, c1, q1, d2, c2, q2, data, r) && c1 < |d1| && c2 < |d2|
    requires s == Onto(r, Lead(q1, q2, matched))
    ensures k <= 1 && k <= |q1| && k <= |q2| && (!stop ==> k == 1 && |q1| > 0)
    ensures Standing(d1, n1, q1[k..], d2, n2, q2[k..], more, r')
    ensures s == if stop then Stop(r', m, q1[k..], q2[k..]) else Onto(r', Lead(q1[k..], q2[k..], m))
  {
    AtSegment(d1, c1, q1);
    AtSegment(d2, c2, q2);
    CodesDiffer(q1[0].typ, q2[0].typ);
    stop, more, m, n1, n2, r', k := true, data, matched, c1, c2, r, 0;
    if d1[c1] != d2[c2] {
      LeadEnd(r, q1, q2, matched);
      return;
    }
    more, m := CopyCommon(d1, c1, d2, c2, data, r, q1, q2);
    LeadStep(r, q1, q2, matched, m);
    r' := Copied(r, q1[0], m);
    if m == d1[c1 + 1] && d1[c1 + 1] == d2[c2 + 1] {
      stop, k := false, 1;
      n1, n2 := c1 + SegmentSize(d1[c1 + 1]), c2 + SegmentSize(d2[c2 + 1]);
    }
  }

  /** The first loop of aspath_aggregate; `s` is where it stops. */
  method CommonLead(d1: seq<Byte>, d2: seq<Byte>, ghost p1: Path, ghost p2: Path)
      returns (data: seq<Byte>, matched: nat, c1: nat, c2: nat, ghost s: Stop)
    requires At(d1, 0, p1) && At(d2, 0, p2)
    ensures s == Lead(p1, p2, 0) && matched == s.matched
    ensures Standing(d1, c1, s.rest1, d2, c2, s.rest2, data, s.common)
  {
    data, matched, c1, c2 := [], 0, 0, 0;
    ghost var r: Path, q1, q2 := [], p1, p2;
    s := Lead(p1, p2, 0);
    LeadEnd([], p1, p2, 0);
    while c1 < |d1| && c2 < |d2|
      invariant Standing(d1, c1, q1, d2, c2, q2, data, r)
      invariant s == Onto(r, Lead(q1, q2, matched))
      decreases |q1|
    {
      ghost var k;
      var stop;
      stop, data, matched, c1, c2, r, k := Round(d1, c1, d2, c2, data, matched, r, q1, q2, s);
      q1, q2 := q1[k..], q2[k..];
      if stop {
        return;
      }
    }
    AtEnd(d1, c1, q1);
    AtEnd(d2, c2, q2);
    LeadEnd(r, q1, q2, matched);
  }

  ghost function Copied(r: Path, g: Segment, k: nat): (c: Path)
    requires k <= |g.ases|
    ensures c == r + Shared(g, k) && (k == 0 ==> c == r)
  {
    r + Shared(g, k)
  }

  // ---------------------------------------------------------------- the new AS_SET

  /** The octets `a` with an AS_SET of these members, if any, behind them; `asset` is where that is. */
  ghost predicate Holds(data: seq<Byte>, asset: Option<nat>, a: seq<Byte>, members: seq<As>) {
    && |members| <= 255 && NoRepeats(members)
    && data == a + EncodeSet(members)
    && asset == if members == [] then None else Some(|a|)
  }

  ghost function EncodeSet(members: seq<As>): seq<Byte>
    requires |members| <= 255
  {
    if members == [] then [] else EncodeSegment(Segment(AsSet, members))
  }

  /** aspath_aggregate_as_set_add: at the end unless it is there; None when the length octet, which is at
      255, wraps to zero. */
  method AsSetAdd(data: seq<Byte>, asset: Option<nat>, n: As, ghost a: seq<Byte>, ghost members: seq<As>)
      returns (r: Option<(seq<Byte>, Option<nat>)>)
    requires Holds(data, asset, a, members)
    ensures r.Some? <==> |AddOne(members, n)| <= 255
    ensures r.Some? ==> Holds(r.value.0, r.value.1, a, AddOne(members, n))
  {
    if asset.None? {
      FirstMember(a, n);
      return Some((data + ([1, 1] + AsBytes(n)), Some(|data|)));
    }
    var at := asset.value;
    SetAt(a, members);
    var found := FindMember(data, at, n);
    if found {
      return Some((data, asset));
    }
    if data[at + 1] == 255 {
      return None;
    }
    OneMoreMember(data, at, a, members, n);
    return Some((data[at + 1 := data[at + 1] as int + 1] + AsBytes(n), asset));
  }

  lemma FirstMember(a: seq<Byte>, n: As)
    ensures Holds(a + ([1, 1] + AsBytes(n)), Some(|a|), a, AddOne([], n)) && AddOne([], n) == [n]
  {
    SetGrows([], n);
  }

  lemma OneMoreMember(data: seq<Byte>, at: nat, a: seq<Byte>, members: seq<As>, n: As)
    requires Holds(data, Some(at), a, members) && n !in members && |members| < 255
    ensures at + 1 < |data| && data[at + 1] == |members|
    ensures Holds(data[at + 1 := data[at + 1] as int + 1] + AsBytes(n), Some(at), a, members + [n])
  {
    var g := EncodeSet(members);
    SetAt(a, members);
    SetGrows(members, n);
    SecondByte(a, g, |members| + 1, AsBytes(n));
    StillDistinct(members, n);
  }

  lemma StillDistinct(members: seq<As>, n: As)
    requires NoRepeats(members) && n !in members
    ensures NoRepeats(members + [n])
  {
  }

  lemma SecondByte(a: seq<Byte>, g: seq<Byte>, l: Byte, b: seq<Byte>)
    requires |g| >= 2
    ensures (a + g)[|a| + 1 := l] + b == a + (g[1 := l] + b)
  {
    assert (a + g)[|a| + 1 := l] == a + g[1 := l];
    Assoc(a, g[1 := l], b);
  }

  /** The search of aspath_aggregate_as_set_add. */
  method FindMember(data: seq<Byte>, at: nat, n: As) returns (found: bool)
    requires at < |data| && StartsWhole(data[at..])
    ensures found <==> n in FirstSegment(data[at..]).ases
  {
    ghost var members := FirstSegment(data[at..]).ases;
    assert data[at + 1] == data[at..][1];
    var i := 0;
    while i < data[at + 1]
      invariant 0 <= i <= |members| && n !in members[..i]
    {
      EntryAt(data, at, i);
      if AsAt(data, at, i) == n {
        return true;
      }
      i := i + 1;
    }
    assert members[..i] == members;
    return false;
  }

  /** The set in memory. */
  lemma SetAt(a: seq<Byte>, members: seq<As>)
    requires 0 < |members| <= 255
    ensures var d := a + EncodeSet(members);
            && |a| + 1 < |d| && d[|a| + 1] == |members| && d[|a|..] == EncodeSet(members)
            && StartsWhole(d[|a|..]) && FirstSegment(d[|a|..]) == Segment(AsSet, members)
  {
    var g := Segment(AsSet, members);
    FirstOfEncoded(g, []);
    assert EncodeSegment(g) + [] == EncodeSegment(g);
  }

  /** The octets of the set with one more member. */
  lemma SetGrows(members: seq<As>, n: As)
    requires |members| <= 255
    ensures members == [] ==> EncodeSet([n]) == [1, 1] + AsBytes(n)
    ensures 0 < |members| < 255 ==>
              && |EncodeSet(members)| >= 2
              && EncodeSet(members + [n]) == EncodeSet(members)[1 := |members| + 1] + AsBytes(n)
  {
    assert [n][1..] == [];
    assert EncodeAses([n]) == AsBytes(n);
    if 0 < |members| < 255 {
      EncodeAsesConcat(members, [n]);
    }
  }

  /** The entries that the code reads at a cursor. */
  ghost predicate Entries(d: seq<Byte>, at: nat, ases: seq<As>) {
    && at + 1 < |d| && d[at + 1] == |ases|
    && forall i | 0 <= i < |ases| :: EntryIs(d, at, i, ases[i])
  }

  ghost predicate EntryIs(d: seq<Byte>, at: nat, i: nat, n: As) {
    at + 2 * i + 3 < |d| && AsAt(d, at, i) == n
  }

  lemma EntriesOf(d: seq<Byte>, at: nat)
    requires at < |d| && StartsWhole(d[at..])
    ensures Entries(d, at, FirstSegment(d[at..]).ases)
  {
    var ases := FirstSegment(d[at..]).ases;
    assert d[at + 1] == d[at..][1];
    forall i | 0 <= i < |ases|
      ensures EntryIs(d, at, i, ases[i])
    {
      EntryAt(d, at, i);
    }
  }

  /** The loop over the segment at a cursor, from an entry on; None as soon as the length octet wraps.
      `goal` is the set in the end, with what comes `later`. */
  method AddSegment(d: seq<Byte>, at: nat, from: nat, data: seq<Byte>, asset: Option<nat>,
                    ghost a: seq<Byte>, ghost members: seq<As>, ghost ases: seq<As>,
                    ghost later: seq<As>, ghost goal: seq<As>)
      returns (r: Option<(seq<Byte>, Option<nat>)>, ghost now: seq<As>)
    requires Entries(d, at, ases) && Holds(data, asset, a, members)
    requires goal == AddAll(members, Skipping(ases, from) + later)
    ensures r.Some? ==> Holds(r.value.0, r.value.1, a, now) && goal == AddAll(now, later)
    ensures r.None? ==> |goal| > 255
  {
    var i := from;
    now, r := members, Some((data, asset));
    while i < d[at + 1]
      invariant from <= i && r.Some? && Holds(r.value.0, r.value.1, a, now)
      invariant goal == AddAll(now, Skipping(ases, i) + later)
    {
      assert EntryIs(d, at, i, ases[i]);
      GoalStep(goal, now, ases, i, later);
      r := AsSetAdd(r.value.0, r.value.1, AsAt(d, at, i), a, now);
      if r.None? {
        return;
      }
      now := AddOne(now, ases[i]);
      i := i + 1;
    }
    SkippingStep(ases, i, later);
  }

  lemma GoalStep(goal: seq<As>, now: seq<As>, ases: seq<As>, i: nat, later: seq<As>)
    requires i < |ases| && goal == AddAll(now, Skipping(ases, i) + later)
    ensures goal == AddAll(AddOne(now, ases[i]), Skipping(ases, i + 1) + later) && |AddOne(now, ases[i])| <= |goal|
  {
    var rest := Skipping(ases, i + 1) + later;
    SkippingStep(ases, i, later);
    AddAllStep(now, ases[i], rest);
    AddAllGrows(AddOne(now, ases[i]), rest);
  }

  /** The loops over what is left of one path, all but `skip` entries of its first segment. */
  method AddRemaining(d: seq<Byte>, c: nat, skip: nat, data: seq<Byte>, asset: Option<nat>,
                      ghost a: seq<Byte>, ghost members: seq<As>, ghost q: Path)
      returns (r: Option<(seq<Byte>, Option<nat>)>)
    requires At(d, c, q) && Holds(data, asset, a, members)
    ensures r.Some? <==> |AddAll(members, Remaining(q, skip))| <= 255
    ensures r.Some? ==> Holds(r.value.0, r.value.1, a, AddAll(members, Remaining(q, skip)))
  {
    ghost var goal := AddAll(members, Remaining(q, skip));
    ghost var now, rest := members, q;
    var at: nat, from: nat := c, skip;
    r := Some((data, asset));
    while at < |d|
      invariant At(d, at, rest) && r.Some? && Holds(r.value.0, r.value.1, a, now)
      invariant goal == AddAll(now, Remaining(rest, from))
      decreases |rest|
    {
      AtEnd(d, at, rest);
      r, at, now := AddFirst(d, at, from, r.value.0, r.value.1, a, now, rest, goal);
      if r.None? {
        return;
      }
      from, rest := 0, rest[1..];
    }
    AtEnd(d, at, rest);
  }

  /** The segment at the cursor, and the cursor behind it. */
  method AddFirst(d: seq<Byte>, at: nat, from: nat, data: seq<Byte>, asset: Option<nat>,
                  ghost a: seq<Byte>, ghost members: seq<As>, ghost rest: Path, ghost goal: seq<As>)
      returns (r: Option<(seq<Byte>, Option<nat>)>, next: nat, ghost now: seq<As>)
    requires At(d, at, rest) && rest != [] && Holds(data, asset, a, members)
    requires goal == AddAll(members, Remaining(rest, from))
    ensures At(d, next, rest[1..])
    ensures r.Some? ==> Holds(r.value.0, r.value.1, a, now) && goal == AddAll(now, Remaining(rest[1..], 0))
    ensures r.None? ==> |goal| > 255
  {
    AtEnd(d, at, rest);
    AtSegment(d, at, rest);
    EntriesOf(d, at);
    RemainingStep(rest, from);
    r, now := AddSegment(d, at, from, data, asset, a, members, rest[0].ases, Flat(rest[1..]), goal);
    next := at + SegmentSize(d[at + 1]);
  }

  /** aspath_aggregate: the octets of the aggregated path; None exactly when its new AS_SET would have more
      than 255 members, at the moment its length octet wraps. */
  method Aggregate(d1: seq<Byte>, d2: seq<Byte>, ghost p1: Path, ghost p2: Path) returns (r: Option<seq<Byte>>)
    requires Fits(p1) && d1 == Encode(p1) && Fits(p2) && d2 == Encode(p2)
    ensures r.Some? <==> Fits(Aggregated(p1, p2))
    ensures r.Some? <==> |SetOf(Lead(p1, p2, 0))| <= 255
    ensures r.Some? ==> r.value == Encode(Aggregated(p1, p2))
  {
    assert d1[0..] == d1 && d2[0..] == d2;
    var data, matched, c1, c2, s := CommonLead(d1, d2, p1, p2);
    ghost var first := AddAll([], Remaining(s.rest1, matched));
    AddAllGrows(first, Remaining(s.rest2, matched));
    AggregatedOctets(s);
    assert data + [] == data;
    var set1 := AddRemaining(d1, c1, matched, data, None, data, [], s.rest1);
    if set1.None? {
      return None;
    }
    var set2 := AddRemaining(d2, c2, matched, set1.value.0, set1.value.1, data, first, s.rest2);
    if set2.None? {
      return None;
    }
    return Some(set2.value.0);
  }

  /** The octets of the common part with the set are those of the result. */
  lemma AggregatedOctets(s: Stop)
    requires Fits(s.common)
    ensures var r := s.common + AsSetSegment(SetOf(s));
            && (Fits(r) <==> |SetOf(s)| <= 255)
            && (Fits(r) ==> Encode(r) == Encode(s.common) + EncodeSet(SetOf(s)))
  {
    var members := SetOf(s);
    var r := s.common + AsSetSegment(members);
    if members == [] {
      assert r == s.common;
    } else {
      assert r[|s.common|] == Segment(AsSet, members);
      if |members| <= 255 {
        EncodeSnoc(s.common, Segment(AsSet, members));
      }
    }
  }
}
