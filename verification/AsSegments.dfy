/** AS paths as lists of segments (bgpd/bgp_aspath.h, bgpd/bgp_aspath.c). */
module AsSegments {
  import opened Wrappers

  /** A two-octet AS number. */
  type As = n: nat | n < 0x1_0000

  datatype SegType = AsSet | AsSequence | ConfedSequence | ConfedSet

  datatype Segment = Segment(typ: SegType, ases: seq<As>)

  type Path = seq<Segment>

  predicate IsConfed(t: SegType) {
    t.ConfedSequence? || t.ConfedSet?
  }

  /** The `count` that aspath_make_str_count leaves: AS_SEQUENCE members, one for each AS_SET,
      nothing for confederation segments. */
  function CountOf(g: Segment): nat {
    match g.typ
    case AsSequence => |g.ases|
    case AsSet => 1
    case ConfedSequence => 0
    case ConfedSet => 0
  }

  function Count(p: Path): nat {
    if p == [] then 0 else CountOf(p[0]) + Count(p[1..])
  }

  /** The AS that aspath_cmp_left compares: the first AS behind leading non-empty confederation
      segments, if that segment is a non-empty AS_SEQUENCE. */
  function LeftAs(p: Path): Option<As> {
    if p == [] || p[0].ases == [] then None
    else if IsConfed(p[0].typ) then LeftAs(p[1..])
    else if p[0].typ.AsSequence? then Some(p[0].ases[0])
    else None
  }

  /** The AS that aspath_cmp_left_confed compares. */
  function LeftConfed(p: Path): Option<As> {
    if Count(p) == 0 && p != [] && p[0].ases != [] && p[0].typ.ConfedSequence? then Some(p[0].ases[0]) else None
  }

  // ---- What they are, segment by segment ----

  /** The places of all entries of AS_SEQUENCEs, and those of all AS_SETs. */
  ghost function SequenceEntries(p: Path): set<(nat, nat)> {
    set i: nat, j: nat | i < |p| && p[i].typ == AsSequence && j < |p[i].ases| :: (i, j)
  }

  ghost function Sets(p: Path): set<nat> {
    set i: nat | i < |p| && p[i].typ == AsSet
  }

  lemma {:induction false} CountSnoc(p: Path, g: Segment)
    ensures Count(p + [g]) == Count(p) + CountOf(g)
  {
    if p == [] {
      assert p + [g] == [g];
    } else {
      CountSnoc(p[1..], g);
      assert (p + [g])[1..] == p[1..] + [g];
    }
  }

  ghost function Row(i: nat, n: nat): set<(nat, nat)> {
    set j: nat | j < n :: (i, j)
  }

  lemma {:induction false} RowSize(i: nat, n: nat)
    ensures |Row(i, n)| == n
  {
    if n == 0 {
      assert Row(i, n) == {};
    } else {
      RowSize(i, n - 1);
      assert Row(i, n) == Row(i, n - 1) + {(i, n - 1)};
    }
  }

  /** One hop for every entry of an AS_SEQUENCE and one for every AS_SET, none for the rest. */
  lemma {:induction false} CountMeans(p: Path)
    ensures Count(p) == |SequenceEntries(p)| + |Sets(p)|
  {
    if p == [] {
      assert SequenceEntries(p) == {} && Sets(p) == {};
    } else {
      var k := |p| - 1;
      var f, g := p[..k], p[k];
      assert p == f + [g];
      CountMeans(f);
      CountSnoc(f, g);
      RowSize(k, |g.ases|);
      EntriesSnoc(f, g);
    }
  }

  lemma EntriesSnoc(f: Path, g: Segment)
    ensures var k := |f|;
      && SequenceEntries(f + [g]) == SequenceEntries(f) + (if g.typ == AsSequence then Row(k, |g.ases|) else {})
      && SequenceEntries(f) !! Row(k, |g.ases|)
      && Sets(f + [g]) == Sets(f) + (if g.typ == AsSet then {k} else {}) && k !in Sets(f)
  {
    var p, k := f + [g], |f|;
    assert forall i: nat | i < k :: p[i] == f[i];
  }

  /** Behind k non-empty confederation segments there is an AS_SEQUENCE that begins with n. */
  ghost predicate NeighbourAt(p: Path, k: nat, n: As) {
    && k < |p| && p[k].typ == AsSequence && p[k].ases != [] && p[k].ases[0] == n
    && forall i | 0 <= i < k :: p[i].typ in {ConfedSequence, ConfedSet} && p[i].ases != []
  }

  /** n is the neighbouring AS of the path. */
  ghost predicate Neighbour(p: Path, n: As) {
    exists k: nat :: NeighbourAt(p, k, n)
  }

  /** n is the neighbouring member AS of a path inside the confederation: it begins with n, and no segment
      is an AS_SET or an AS_SEQUENCE with entries. */
  ghost predicate MemberNeighbour(p: Path, n: As) {
    && p != [] && p[0].typ == ConfedSequence && p[0].ases != [] && p[0].ases[0] == n
    && forall i | 0 <= i < |p| :: p[i].typ in {ConfedSequence, ConfedSet} || (p[i].typ == AsSequence && p[i].ases == [])
  }

  lemma NeighbourBehind(p: Path, n: As)
    requires p != [] && p[0].typ in {ConfedSequence, ConfedSet} && p[0].ases != []
    ensures Neighbour(p, n) <==> Neighbour(p[1..], n)
  {
    if k: nat :| NeighbourAt(p, k, n) {
      assert NeighbourAt(p[1..], k - 1, n);
    }
    if k: nat :| NeighbourAt(p[1..], k, n) {
      var k' := k + 1;
      assert forall i | 0 < i < k' :: p[i] == p[1..][i - 1];
      assert NeighbourAt(p, k', n);
    }
  }

  /** The AS compared is the neighbouring AS. */
  lemma {:induction false} LeftAsMeans(p: Path, n: As)
    ensures LeftAs(p) == Some(n) <==> Neighbour(p, n)
  {
    if p != [] && p[0].ases != [] && IsConfed(p[0].typ) {
      LeftAsMeans(p[1..], n);
      NeighbourBehind(p, n);
    } else if LeftAs(p) == Some(n) {
      assert NeighbourAt(p, 0, n);
    }
  }

  lemma {:induction false} NoHops(p: Path)
    ensures Count(p) == 0 <==>
      forall i | 0 <= i < |p| :: p[i].typ in {ConfedSequence, ConfedSet} || (p[i].typ == AsSequence && p[i].ases == [])
  {
    if p != [] {
      NoHops(p[1..]);
      assert p == [p[0]] + p[1..];
    }
  }

  lemma LeftConfedMeans(p: Path, n: As)
    ensures LeftConfed(p) == Some(n) <==> MemberNeighbour(p, n)
  {
    NoHops(p);
  }

  /** A path is grouped by its neighbouring AS or by its neighbouring member AS, never by both. */
  lemma {:induction false} LeftExclusive(p: Path)
    ensures LeftAs(p).Some? ==> Count(p) > 0
    ensures !(LeftAs(p).Some? && LeftConfed(p).Some?)
  {
    if p != [] && p[0].ases != [] && IsConfed(p[0].typ) {
      LeftExclusive(p[1..]);
    }
  }
}
