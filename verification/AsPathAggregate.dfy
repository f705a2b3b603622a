/** Aggregating two AS paths (bgpd/bgp_aspath.c; section 9.2.2.2 of RFC 4271). */
module AsPathAggregate {
  import opened AsSegments
  import opened Octets

  /** All entries of a path, in order. */
  function Flat(p: Path): seq<As> {
    if p == [] then [] else p[0].ases + Flat(p[1..])
  }

  lemma {:induction false} FlatConcat(p: Path, q: Path)
    ensures Flat(p + q) == Flat(p) + Flat(q)
  {
    if p == [] {
      assert p + q == q;
    } else {
      var rest := p[1..];
      FlatConcat(rest, q);
      assert (p + q)[0] == p[0] && (p + q)[1..] == rest + q;
      Assoc(p[0].ases, Flat(rest), Flat(q));
    }
  }

  lemma FlatOne(g: Segment)
    ensures Flat([g]) == g.ases
  {
    assert [g][1..] == [];
  }

  /** The number of leading entries that two segments share. */
  function MatchLength(a: seq<As>, b: seq<As>): (k: nat)
    ensures k <= |a| && k <= |b| && a[..k] == b[..k]
    ensures k < |a| && k < |b| ==> a[k] != b[k]
  {
    if a == [] || b == [] || a[0] != b[0] then 0
    else
      var k := MatchLength(a[1..], b[1..]);
      assert a[..k + 1] == [a[0]] + a[1..][..k] && b[..k + 1] == [b[0]] + b[1..][..k];
      k + 1
  }

  /** Where the first loop of aspath_aggregate stops: what it copied, `match`, and what is left of both. */
  datatype Stop = Stop(common: Path, matched: nat, rest1: Path, rest2: Path)

  function Shared(g: Segment, k: nat): Path
    requires k <= |g.ases|
  {
    if k == 0 then [] else [Segment(g.typ, g.ases[..k])]
  }

  /** The first loop. `matched` keeps its value from the last pair of segments when the next pair is not
      compared: that pair differs in type, or one path has ended. */
  function Lead(p1: Path, p2: Path, matched: nat): (s: Stop)
    decreases |p1|
  {
    if p1 == [] || p2 == [] || p1[0].typ != p2[0].typ then Stop([], matched, p1, p2)
    else
      var k := MatchLength(p1[0].ases, p2[0].ases);
      if k == |p1[0].ases| == |p2[0].ases| then
        var s := Lead(p1[1..], p2[1..], k);
        s.(common := Shared(p1[0], k) + s.common)
      else Stop(Shared(p1[0], k), k, p1, p2)
  }

  /** The entries that the loops for the new AS_SET see: all but `skip` of the first segment. */
  function Remaining(p: Path, skip: nat): seq<As> {
    if p == [] then [] else Skipping(p[0].ases, skip) + Flat(p[1..])
  }

  function Skipping(ases: seq<As>, skip: nat): seq<As> {
    if skip <= |ases| then ases[skip..] else []
  }

  /** The entries that they pass over. */
  function Skipped(p: Path, skip: nat): seq<As> {
    if p == [] then [] else if skip <= |p[0].ases| then p[0].ases[..skip] else p[0].ases
  }

  /** Entries in order of first appearance: repeated use of aspath_aggregate_as_set_add. */
  function AddAll(members: seq<As>, more: seq<As>): seq<As>
    decreases |more|
  {
    if more == [] then members else AddAll(AddOne(members, more[0]), more[1..])
  }

  /** One more member, unless it is there. */
  function AddOne(members: seq<As>, n: As): seq<As> {
    if n in members then members else members + [n]
  }

  /** Each of them once, and no others. */
  lemma {:induction false} AddAllMeans(members: seq<As>, more: seq<As>)
    requires NoRepeats(members)
    ensures NoRepeats(AddAll(members, more))
    ensures forall n :: n in AddAll(members, more) <==> n in members || n in more
    decreases |more|
  {
    if more != [] {
      assert more == [more[0]] + more[1..];
      AddAllMeans(AddOne(members, more[0]), more[1..]);
    }
  }

  predicate NoRepeats(s: seq<As>) {
    forall i, j | 0 <= i < j < |s| :: s[i] != s[j]
  }

  function SetOf(s: Stop): (r: seq<As>)
    ensures NoRepeats(r)
    ensures forall n :: n in r <==> n in Remaining(s.rest1, s.matched) || n in Remaining(s.rest2, s.matched)
  {
    AddAllMeans([], Remaining(s.rest1, s.matched));
    AddAllMeans(AddAll([], Remaining(s.rest1, s.matched)), Remaining(s.rest2, s.matched));
    AddAll(AddAll([], Remaining(s.rest1, s.matched)), Remaining(s.rest2, s.matched))
  }

  function AsSetSegment(members: seq<As>): Path {
    if members == [] then [] else [Segment(AsSet, members)]
  }

  /** aspath_aggregate. */
  function Aggregated(p1: Path, p2: Path): Path {
    var s := Lead(p1, p2, 0);
    s.common + AsSetSegment(SetOf(s))
  }

  // ---------------------------------------------------------------- the common leading part

  /** `c` is a leading part of `p`, empty segments of `p` passed over: whole segments, then perhaps a
      leading part of one. */
  predicate LeadsInto(c: Path, p: Path)
    decreases |p|
  {
    c == [] ||
    (p != [] &&
     if p[0].ases == [] then LeadsInto(c, p[1..])
     else c[0].typ == p[0].typ && c[0].ases != []
          && ((|c| == 1 && c[0].ases <= p[0].ases) || (c[0] == p[0] && LeadsInto(c[1..], p[1..]))))
  }

  /** What the first loop copies leads into both paths. */
  lemma {:induction false} CommonLeads(p1: Path, p2: Path, matched: nat)
    ensures LeadsInto(Lead(p1, p2, matched).common, p1) && LeadsInto(Lead(p1, p2, matched).common, p2)
    decreases |p1|
  {
    if p1 != [] && p2 != [] && p1[0].typ == p2[0].typ {
      var k := MatchLength(p1[0].ases, p2[0].ases);
      if k == |p1[0].ases| == |p2[0].ases| {
        CommonLeads(p1[1..], p2[1..], k);
        assert p1[0].ases[..k] == p1[0].ases && p2[0].ases[..k] == p2[0].ases;
        var c := Lead(p1[1..], p2[1..], k).common;
        if k > 0 {
          assert (Shared(p1[0], k) + c)[1..] == c;
        } else {
          assert Shared(p1[0], k) + c == c;
        }
      } else if k > 0 {
        assert p1[0].ases[..k] <= p1[0].ases && p2[0].ases[..k] <= p2[0].ases;
      }
    }
  }

  /** On paths without empty segments nothing longer does. */
  lemma {:induction false} CommonLongest(p1: Path, p2: Path, matched: nat, c: Path)
    requires forall i | 0 <= i < |p1| :: p1[i].ases != []
    requires forall i | 0 <= i < |p2| :: p2[i].ases != []
    requires LeadsInto(c, p1) && LeadsInto(c, p2)
    ensures LeadsInto(c, Lead(p1, p2, matched).common)
    decreases |p1|
  {
    if c != [] {
      var a, b := p1[0].ases, p2[0].ases;
      var k := MatchLength(a, b);
      SharedPrefix(c[0].ases, a, b);
      if k == |a| == |b| {
        assert a[..k] == a && b[..k] == b;
        var rest := Lead(p1[1..], p2[1..], k).common;
        var whole := Lead(p1, p2, matched).common;
        assert whole[0] == p1[0] && whole[1..] == rest;
        if c[0] == p1[0] && LeadsInto(c[1..], p1[1..]) && LeadsInto(c[1..], p2[1..]) {
          CommonLongest(p1[1..], p2[1..], k, c[1..]);
        }
      }
    }
  }

  lemma {:induction false} SharedPrefix(c: seq<As>, a: seq<As>, b: seq<As>)
    requires c <= a && c <= b
    ensures |c| <= MatchLength(a, b) && c <= a[..MatchLength(a, b)]
  {
    if c != [] {
      SharedPrefix(c[1..], a[1..], b[1..]);
    }
  }

  // ---------------------------------------------------------------- entries

  /** Both paths consist of the common part and what is left. */
  lemma {:induction false} LeadKeeps(p1: Path, p2: Path, matched: nat, n: As)
    ensures var s := Lead(p1, p2, matched);
            && (n in Flat(p1) <==> n in Flat(s.common) || n in Flat(s.rest1))
            && (n in Flat(p2) <==> n in Flat(s.common) || n in Flat(s.rest2))
    decreases |p1|
  {
    if p1 != [] && p2 != [] && p1[0].typ == p2[0].typ {
      var k := MatchLength(p1[0].ases, p2[0].ases);
      SharedFlat(p1[0], k, n);
      SharedFlat(p2[0], k, n);
      if k == |p1[0].ases| == |p2[0].ases| {
        LeadKeeps(p1[1..], p2[1..], k, n);
        FlatConcat(Shared(p1[0], k), Lead(p1[1..], p2[1..], k).common);
      }
    }
  }

  lemma SharedFlat(g: Segment, k: nat, n: As)
    requires k <= |g.ases|
    ensures Flat(Shared(g, k)) == g.ases[..k]
    ensures n in g.ases[..k] ==> n in g.ases
    ensures k == |g.ases| ==> g.ases[..k] == g.ases
  {
    if k > 0 {
      FlatOne(Segment(g.typ, g.ases[..k]));
    }
  }

  lemma RemainingOrSkipped(p: Path, skip: nat, n: As)
    ensures n in Flat(p) <==> n in Remaining(p, skip) || n in Skipped(p, skip)
  {
    if p != [] {
      assert p[0].ases == Skipped(p, skip) + Skipping(p[0].ases, skip);
    }
  }

  lemma AggregatedEntries(p1: Path, p2: Path, n: As)
    ensures var s := Lead(p1, p2, 0);
            n in Flat(Aggregated(p1, p2)) <==>
              n in Flat(s.common) || n in Remaining(s.rest1, s.matched) || n in Remaining(s.rest2, s.matched)
  {
    var s := Lead(p1, p2, 0);
    FlatConcat(s.common, AsSetSegment(SetOf(s)));
    if SetOf(s) != [] {
      FlatOne(Segment(AsSet, SetOf(s)));
    }
  }

  /** Shape of the result: a leading part of both inputs, then at most one new AS_SET without repeats,
      and every AS comes from an input. */
  lemma AggregateShape(p1: Path, p2: Path)
    ensures var r := Aggregated(p1, p2);
            && (exists c: Path, members: seq<As> ::
                 r == c + AsSetSegment(members) && NoRepeats(members) && LeadsInto(c, p1) && LeadsInto(c, p2))
            && (forall n :: n in Flat(r) ==> n in Flat(p1) || n in Flat(p2))
  {
    var s := Lead(p1, p2, 0);
    CommonLeads(p1, p2, 0);
    assert Aggregated(p1, p2) == s.common + AsSetSegment(SetOf(s));
    forall n | n in Flat(Aggregated(p1, p2))
      ensures n in Flat(p1) || n in Flat(p2)
    {
      AggregatedEntries(p1, p2, n);
      LeadKeeps(p1, p2, 0, n);
      RemainingOrSkipped(s.rest1, s.matched, n);
      RemainingOrSkipped(s.rest2, s.matched, n);
    }
  }

  // ---------------------------------------------------------------- loss

  predicate Lossless(p1: Path, p2: Path) {
    forall n: As :: n in Flat(p1) || n in Flat(p2) ==> n in Flat(Aggregated(p1, p2))
  }

  /** The number of leading segments that two paths have in common. */
  function EqualLead(p1: Path, p2: Path): (k: nat)
    ensures k <= |p1| && k <= |p2| && p1[..k] == p2[..k]
    ensures k < |p1| && k < |p2| ==> p1[k] != p2[k]
  {
    if p1 == [] || p2 == [] || p1[0] != p2[0] then 0
    else
      var k := EqualLead(p1[1..], p2[1..]);
      assert p1[..k + 1] == [p1[0]] + p1[1..][..k] && p2[..k + 1] == [p2[0]] + p2[1..][..k];
      k + 1
  }

  /** Behind the common segments both paths go on with a segment of the same type. */
  predicate SameTypeNext(p1: Path, p2: Path) {
    var k := EqualLead(p1, p2);
    k < |p1| && k < |p2| && p1[k].typ == p2[k].typ
  }

  /** The length of the last common segment, which is what `match` is left at. */
  function LastLength(p1: Path, p2: Path, matched: nat): nat {
    var k := EqualLead(p1, p2);
    if k == 0 then matched else |p1[k - 1].ases|
  }

  /** The segments with entries. */
  function NonEmpty(p: Path): (r: Path)
    ensures Flat(r) == Flat(p)
  {
    if p == [] then [] else if p[0].ases == [] then NonEmpty(p[1..]) else
      var r := NonEmpty(p[1..]);
      assert ([p[0]] + r)[1..] == r;
      [p[0]] + r
  }

  /** Where the first loop stops, read off the two paths. */
  function Stopping(p1: Path, p2: Path, matched: nat): Stop {
    var k := EqualLead(p1, p2);
    if SameTypeNext(p1, p2) then
      var m := MatchLength(p1[k].ases, p2[k].ases);
      Stop(NonEmpty(p1[..k]) + Shared(p1[k], m), m, p1[k..], p2[k..])
    else Stop(NonEmpty(p1[..k]), LastLength(p1, p2, matched), p1[k..], p2[k..])
  }

  lemma {:induction false} LeadIs(p1: Path, p2: Path, matched: nat)
    ensures Lead(p1, p2, matched) == Stopping(p1, p2, matched)
    decreases |p1|
  {
    if p1 != [] && p2 != [] {
      FullMatch(p1[0].ases, p2[0].ases);
      if p1[0] == p2[0] {
        LeadIs(p1[1..], p2[1..], |p1[0].ases|);
        StoppingStep(p1, p2, matched);
      }
    }
  }

  lemma StoppingStep(p1: Path, p2: Path, matched: nat)
    requires p1 != [] && p2 != [] && p1[0] == p2[0]
    ensures var m := |p1[0].ases|;
            Stopping(p1, p2, matched) == Onto(Shared(p1[0], m), Stopping(p1[1..], p2[1..], m))
  {
    var q1, q2 := p1[1..], p2[1..];
    var k := EqualLead(q1, q2);
    assert p1[..k + 1][0] == p1[0] && p1[..k + 1][1..] == q1[..k];
    assert p1[k + 1..] == q1[k..] && p2[k + 1..] == q2[k..];
    LeadGlued(p1[0], NonEmpty(q1[..k]),
              if SameTypeNext(q1, q2) then Shared(q1[k], MatchLength(q1[k].ases, q2[k].ases)) else []);
  }

  lemma LeadGlued(g: Segment, a: Path, b: Path)
    ensures Shared(g, |g.ases|) + (a + b) == (if g.ases == [] then a else [g] + a) + b
    ensures a + [] == a
  {
    assert g.ases[..|g.ases|] == g.ases;
  }

  /** The entries that the loops for the new AS_SET pass over: the first m of the k-th segment. */
  function PassedOver(p: Path, k: nat, m: nat): seq<As> {
    if k >= |p| then [] else if m <= |p[k].ases| then p[k].ases[..m] else p[k].ases
  }

  /** The entries behind those. */
  function Seen(p: Path, k: nat, m: nat): seq<As> {
    if k >= |p| then [] else (if m <= |p[k].ases| then p[k].ases[m..] else []) + Flat(p[k + 1..])
  }

  /** No AS is lost exactly when the paths go on with segments of the same type behind their k common
      ones, or the first m entries of the k-th segments, m being the length of the last common one, stand
      in the common segments or further behind in one of the paths. */
  lemma LosslessIff(p1: Path, p2: Path)
    ensures var k, m := EqualLead(p1, p2), LastLength(p1, p2, 0);
            Lossless(p1, p2) <==>
              || SameTypeNext(p1, p2)
              || Covered(PassedOver(p1, k, m) + PassedOver(p2, k, m), Flat(p1[..k]) + Seen(p1, k, m) + Seen(p2, k, m))
  {
    LosslessBySkipped(p1, p2);
    if SameTypeNext(p1, p2) {
      SharedIsCopied(p1, p2);
    } else {
      StaleIsPassedOver(p1, p2);
    }
  }

  /** Where the next segments are not compared, the first entries of the k-th ones are passed over. */
  lemma StaleIsPassedOver(p1: Path, p2: Path)
    requires !SameTypeNext(p1, p2)
    ensures var k, m := EqualLead(p1, p2), LastLength(p1, p2, 0);
            SkippedElsewhere(Lead(p1, p2, 0)) ==
              Covered(PassedOver(p1, k, m) + PassedOver(p2, k, m), Flat(p1[..k]) + Seen(p1, k, m) + Seen(p2, k, m))
  {
    var k, m := EqualLead(p1, p2), LastLength(p1, p2, 0);
    LeadIs(p1, p2, 0);
    var s := Lead(p1, p2, 0);
    assert s.common == NonEmpty(p1[..k]) && s.matched == m && s.rest1 == p1[k..] && s.rest2 == p2[k..];
    PassedOverIs(p1, k, m);
    PassedOverIs(p2, k, m);
  }

  lemma PassedOverIs(p: Path, k: nat, m: nat)
    requires k <= |p|
    ensures Skipped(p[k..], m) == PassedOver(p, k, m) && Remaining(p[k..], m) == Seen(p, k, m)
  {
    if k < |p| {
      assert p[k..][1..] == p[k + 1..];
    }
  }

  /** Every entry of a stands in b. */
  predicate Covered(a: seq<As>, b: seq<As>) {
    forall n | n in a :: n in b
  }

  /** The entries passed over stand in what was copied or behind. */
  predicate SkippedElsewhere(s: Stop) {
    Covered(Skipped(s.rest1, s.matched) + Skipped(s.rest2, s.matched),
            Flat(s.common) + Remaining(s.rest1, s.matched) + Remaining(s.rest2, s.matched))
  }

  /** Inside a pair of segments of the same type, the entries passed over have been copied. */
  lemma SharedIsCopied(p1: Path, p2: Path)
    requires SameTypeNext(p1, p2)
    ensures SkippedElsewhere(Lead(p1, p2, 0))
  {
    LeadIs(p1, p2, 0);
    var k := EqualLead(p1, p2);
    var m := MatchLength(p1[k].ases, p2[k].ases);
    FlatConcat(NonEmpty(p1[..k]), Shared(p1[k], m));
    if m > 0 {
      FlatOne(Segment(p1[k].typ, p1[k].ases[..m]));
    }
  }

  lemma LosslessBySkipped(p1: Path, p2: Path)
    ensures Lossless(p1, p2) <==> SkippedElsewhere(Lead(p1, p2, 0))
  {
    var s := Lead(p1, p2, 0);
    var skipped := Skipped(s.rest1, s.matched) + Skipped(s.rest2, s.matched);
    var shown := Flat(s.common) + Remaining(s.rest1, s.matched) + Remaining(s.rest2, s.matched);
    var result := Flat(Aggregated(p1, p2));
    forall n: As
      ensures n in Flat(p1) || n in Flat(p2) <==> n in shown || n in skipped
      ensures n in result <==> n in shown
    {
      EntryByEntry(p1, p2, n);
    }
    OnlyIfCovered(Flat(p1), Flat(p2), result, skipped, shown);
  }

  lemma EntryByEntry(p1: Path, p2: Path, n: As)
    ensures var s := Lead(p1, p2, 0);
            var skipped := Skipped(s.rest1, s.matched) + Skipped(s.rest2, s.matched);
            var shown := Flat(s.common) + Remaining(s.rest1, s.matched) + Remaining(s.rest2, s.matched);
            && (n in Flat(p1) || n in Flat(p2) <==> n in shown || n in skipped)
            && (n in Flat(Aggregated(p1, p2)) <==> n in shown)
  {
    var s := Lead(p1, p2, 0);
    AggregatedEntries(p1, p2, n);
    LeadKeeps(p1, p2, 0, n);
    RemainingOrSkipped(s.rest1, s.matched, n);
    RemainingOrSkipped(s.rest2, s.matched, n);
  }

  lemma OnlyIfCovered(a: seq<As>, b: seq<As>, result: seq<As>, skipped: seq<As>, shown: seq<As>)
    requires forall n: As :: n in a || n in b <==> n in shown || n in skipped
    requires forall n: As :: n in result <==> n in shown
    ensures (forall n: As :: n in a || n in b ==> n in result) <==> Covered(skipped, shown)
  {
  }

  lemma FullMatch(a: seq<As>, b: seq<As>)
    ensures MatchLength(a, b) == |a| == |b| <==> a == b
  {
    assert a[..|a|] == a && b[..|b|] == b;
  }

  /** Nothing is lost when the first segments differ or a path is empty ... */
  lemma FirstPairLossless(p1: Path, p2: Path)
    requires p1 == [] || p2 == [] || p1[0] != p2[0]
    ensures Lossless(p1, p2)
  {
    LosslessIff(p1, p2);
  }

  /** ... and when each input has at most one segment. */
  lemma SingleSegmentsLossless(p1: Path, p2: Path)
    requires |p1| <= 1 && |p2| <= 1
    ensures Lossless(p1, p2)
  {
    LosslessIff(p1, p2);
  }

  /** An AS can get lost: the second segment of the first path is entered at the stale `matched`. */
  lemma LosesSecondSegment()
    ensures var p1 := [Segment(AsSequence, [1, 2]), Segment(AsSequence, [3, 4])];
            var p2 := [Segment(AsSequence, [1, 2])];
            Aggregated(p1, p2) == p2 && !Lossless(p1, p2)
  {
    var g, h := Segment(AsSequence, [1, 2]), Segment(AsSequence, [3, 4]);
    var p1, p2 := [g, h], [g];
    assert MatchLength([2], [2]) == 1;
    assert MatchLength([1, 2], [1, 2]) == 2;
    assert p1[1..] == [h] && p2[1..] == [] && [h][1..] == [];
    assert Lead([h], [], 2) == Stop([], 2, [h], []);
    assert g.ases[..2] == g.ases;
    var s := Lead(p1, p2, 0);
    assert s == Stop([g], 2, [h], []);
    assert Skipping(h.ases, 2) == [];
    assert Remaining([h], 2) == [] && Remaining([], 2) == [];
    assert SetOf(s) == [];
    assert Aggregated(p1, p2) == [g] + [];
    FlatOne(g);
    FlatOne(h);
    FlatConcat([g], [h]);
    assert [g] + [h] == p1;
    assert h.ases[0] == 3;
    assert 3 in Flat(p1) && 3 !in Flat(p2);
  }

  // ---------------------------------------------------------------- steps of the loops

  lemma AddAllStep(members: seq<As>, n: As, more: seq<As>)
    ensures NoRepeats(members) ==> NoRepeats(AddOne(members, n))
    ensures AddAll(members, [n] + more) == AddAll(AddOne(members, n), more)
  {
    assert ([n] + more)[1..] == more;
  }

  /** Adding never takes members away. */
  lemma {:induction false} AddAllGrows(members: seq<As>, more: seq<As>)
    ensures |members| <= |AddAll(members, more)|
    decreases |more|
  {
    if more != [] {
      AddAllGrows(AddOne(members, more[0]), more[1..]);
    }
  }

  lemma SkippingStep(ases: seq<As>, i: nat, later: seq<As>)
    ensures i < |ases| ==> Skipping(ases, i) + later == [ases[i]] + (Skipping(ases, i + 1) + later)
    ensures i >= |ases| ==> Skipping(ases, i) + later == later
  {
  }

  /** What is seen of a path is what is seen of its first segment, and all of the rest. */
  lemma RemainingStep(p: Path, from: nat)
    requires p != []
    ensures Remaining(p, from) == Skipping(p[0].ases, from) + Flat(p[1..])
    ensures Remaining(p[1..], 0) == Flat(p[1..])
  {
  }

  /** Where the loop stops, with the part copied before. */
  function Onto(r: Path, s: Stop): Stop {
    s.(common := r + s.common)
  }

  lemma LeadStep(r: Path, p1: Path, p2: Path, matched: nat, k: nat)
    requires p1 != [] && p2 != [] && p1[0].typ == p2[0].typ && k == MatchLength(p1[0].ases, p2[0].ases)
    ensures Onto(r, Lead(p1, p2, matched))
         == if k == |p1[0].ases| == |p2[0].ases| then Onto(r + Shared(p1[0], k), Lead(p1[1..], p2[1..], k))
            else Stop(r + Shared(p1[0], k), k, p1, p2)
  {
    var c := Lead(p1[1..], p2[1..], k).common;
    assert r + (Shared(p1[0], k) + c) == r + Shared(p1[0], k) + c;
  }

  lemma LeadEnd(r: Path, p1: Path, p2: Path, matched: nat)
    ensures Onto([], Lead(p1, p2, matched)) == Lead(p1, p2, matched)
    ensures p1 == [] || p2 == [] || p1[0].typ != p2[0].typ ==>
              Onto(r, Lead(p1, p2, matched)) == Stop(r, matched, p1, p2)
  {
    assert r + [] == r;
    assert [] + Lead(p1, p2, matched).common == Lead(p1, p2, matched).common;
  }

  // ---------------------------------------------------------------- the whole result

  /** Where n first stands in s; the length if it does not. */
  function IndexOf(s: seq<As>, n: As): (i: nat)
    ensures i <= |s| && n !in s[..i] && (i < |s| ==> s[i] == n)
  {
    if s == [] || s[0] == n then 0
    else
      var i := IndexOf(s[1..], n);
      assert s[..i + 1] == [s[0]] + s[1..][..i];
      i + 1
  }

  /** The entries of s[..k] once each, in the order in which they first stand in s. */
  ghost predicate Firsts(r: seq<As>, s: seq<As>, k: nat)
    requires k <= |s|
  {
    && (forall n :: n in r <==> n in s[..k])
    && forall i, j | 0 <= i < j < |r| :: IndexOf(s, r[i]) < IndexOf(s, r[j])
  }

  lemma FirstsStep(r: seq<As>, s: seq<As>, k: nat)
    requires k < |s| && Firsts(r, s, k)
    ensures Firsts(AddOne(r, s[k]), s, k + 1)
  {
    var n := s[k];
    var r' := AddOne(r, n);
    assert s[..k + 1] == s[..k] + [n];
    if n !in r {
      assert IndexOf(s, n) == k;
      forall i | 0 <= i < |r|
        ensures IndexOf(s, r[i]) < k
      {
        assert r[i] in s[..k];
      }
    }
  }

  lemma {:induction false} AddAllOrder(r: seq<As>, s: seq<As>, k: nat)
    requires k <= |s| && Firsts(r, s, k)
    ensures Firsts(AddAll(r, s[k..]), s, |s|)
    decreases |s| - k
  {
    if k == |s| {
      assert s[..k] == s[..|s|];
    } else {
      FirstsStep(r, s, k);
      AddAllOrder(AddOne(r, s[k]), s, k + 1);
      assert s[k..][1..] == s[k + 1..];
    }
  }

  lemma {:induction false} AddAllConcat(r: seq<As>, a: seq<As>, b: seq<As>)
    ensures AddAll(AddAll(r, a), b) == AddAll(r, a + b)
    decreases |a|
  {
    if a == [] {
      assert a + b == b;
    } else {
      AddAllConcat(AddOne(r, a[0]), a[1..], b);
      assert (a + b)[0] == a[0] && (a + b)[1..] == a[1..] + b;
    }
  }

  /** The number of entries of the k-th segments that are passed over: those just copied, or as many as
      were copied before. */
  function MatchLeft(p1: Path, p2: Path): nat {
    var k := EqualLead(p1, p2);
    if SameTypeNext(p1, p2) then MatchLength(p1[k].ases, p2[k].ases) else LastLength(p1, p2, 0)
  }

  lemma SetIs(p1: Path, p2: Path)
    ensures var k, m := EqualLead(p1, p2), MatchLeft(p1, p2);
            var seen := Seen(p1, k, m) + Seen(p2, k, m);
            Firsts(SetOf(Stopping(p1, p2, 0)), seen, |seen|)
  {
    var k, m := EqualLead(p1, p2), MatchLeft(p1, p2);
    PassedOverIs(p1, k, m);
    PassedOverIs(p2, k, m);
    var a, b := Seen(p1, k, m), Seen(p2, k, m);
    AddAllConcat([], a, b);
    assert (a + b)[0..] == a + b;
    AddAllOrder([], a + b, 0);
  }

  /** The result outright: the common segments that have entries, what the next ones share if their types
      agree, and one AS_SET of the entries seen, those of the first path before those of the second. */
  lemma AggregateIs(p1: Path, p2: Path) returns (members: seq<As>)
    ensures var k, m := EqualLead(p1, p2), MatchLeft(p1, p2);
            var seen := Seen(p1, k, m) + Seen(p2, k, m);
            && Firsts(members, seen, |seen|)
            && Aggregated(p1, p2) == NonEmpty(p1[..k])
                 + (if SameTypeNext(p1, p2) && m > 0 then [Segment(p1[k].typ, p1[k].ases[..m])] else [])
                 + (if members == [] then [] else [Segment(AsSet, members)])
  {
    var k := EqualLead(p1, p2);
    LeadIs(p1, p2, 0);
    SetIs(p1, p2);
    members := SetOf(Stopping(p1, p2, 0));
    assert NonEmpty(p1[..k]) + [] == NonEmpty(p1[..k]);
  }
}
