/**
 The decision process (bgpd/bgp_route.c): the comparison of two paths. Section 9.1.2.2 of
 RFC 4271 describes the steps; their order and the extra ones are bgpd's.
 */
module Decision {
  import opened Wrappers
  import opened AsSegments

  // ---- Cost community ----

  /** One extended community, as ecommunity_cost_cmp reads it. */
  datatype ECom = ECom(typ: nat, poi: nat, id: nat, val: nat)

  datatype Cost = Cost(id: nat, val: nat)

  const COST_COMMUNITY: nat := 0x4301
  const COST_POI_IGP: nat := 129
  const DEFAULT_COST: nat := 0x7FFF_FFFF

  predicate IsCost(e: ECom, poi: nat) {
    e.typ == COST_COMMUNITY && e.poi == poi
  }

  /** The cost communities for one point of insertion, in order. */
  function Costs(s: seq<ECom>, poi: nat): seq<Cost> {
    if s == [] then []
    else if IsCost(s[0], poi) then [Cost(s[0].id, s[0].val)] + Costs(s[1..], poi)
    else Costs(s[1..], poi)
  }

  function Sign(a: nat, b: nat): int {
    if a < b then 1 else if a > b then -1 else 0
  }

  /** Lists of costs are compared entry by entry; the first entries that differ decide, by identifier
      and then by value, and a list that has ended counts as the default cost once. */
  function CostOrder(a: seq<Cost>, b: seq<Cost>): int {
    if a == [] && b == [] then 0
    else if b == [] then Sign(a[0].val, DEFAULT_COST)
    else if a == [] then Sign(DEFAULT_COST, b[0].val)
    else if a[0].id != b[0].id then Sign(a[0].id, b[0].id)
    else if a[0].val != b[0].val then Sign(a[0].val, b[0].val)
    else CostOrder(a[1..], b[1..])
  }

  lemma {:induction false} CostAntisymmetric(a: seq<Cost>, b: seq<Cost>)
    ensures CostOrder(a, b) == -CostOrder(b, a)
  {
    if a != [] && b != [] {
      CostAntisymmetric(a[1..], b[1..]);
    }
  }

  /** The lists agree on their first k entries, and the k-th ones, if both have them, differ. */
  ghost predicate PartAt(a: seq<Cost>, b: seq<Cost>, k: nat) {
    k <= |a| && k <= |b| && a[..k] == b[..k] && (k < |a| && k < |b| ==> a[k] != b[k])
  }

  /** Where two lists part, the smaller identifier wins, then the smaller value; the default cost stands in
      for the entry that one list does not have. */
  lemma {:induction false} CostMeans(a: seq<Cost>, b: seq<Cost>, k: nat)
    requires PartAt(a, b, k)
    ensures k < |a| && k < |b| ==>
      CostOrder(a, b) == if a[k].id < b[k].id || (a[k].id == b[k].id && a[k].val < b[k].val) then 1 else -1
    ensures k < |a| && k == |b| ==>
      CostOrder(a, b) == if a[k].val < 0x7FFF_FFFF then 1 else if a[k].val > 0x7FFF_FFFF then -1 else 0
    ensures k == |a| && k < |b| ==>
      CostOrder(a, b) == if b[k].val > 0x7FFF_FFFF then 1 else if b[k].val < 0x7FFF_FFFF then -1 else 0
    ensures k == |a| && k == |b| ==> CostOrder(a, b) == 0
  {
    if k > 0 {
      var j := k - 1;
      assert a[..k][0] == a[0] && b[..k][0] == b[0];
      assert a[1..][..j] == a[..k][1..] && b[1..][..j] == b[..k][1..];
      CostMeans(a[1..], b[1..], j);
    }
  }

  /** Every cost community for the point of insertion is in the list, in its place, and nothing else is. */
  lemma {:induction false} CostsMeans(a: seq<ECom>, e: ECom, b: seq<ECom>, poi: nat)
    ensures Costs(a + [e] + b, poi)
         == Costs(a, poi) + (if e.typ == 0x4301 && e.poi == poi then [Cost(e.id, e.val)] else []) + Costs(b, poi)
  {
    var s := a + [e] + b;
    if a == [] {
      assert s[1..] == b;
    } else {
      CostsMeans(a[1..], e, b, poi);
      assert s[1..] == a[1..] + [e] + b;
    }
  }

  function ComsOf(e: Option<seq<ECom>>): seq<ECom> {
    match e case None => [] case Some(s) => s
  }

  /** The cost communities from i on are `rest`, and the first of them, if any, is at j. */
  ghost predicate AtCost(s: seq<ECom>, poi: nat, j: nat, found: bool, rest: seq<Cost>) {
    && j <= |s|
    && (found <==> rest != [])
    && (found ==> j < |s| && rest[0] == Cost(s[j].id, s[j].val) && rest[1..] == Costs(s[j + 1..], poi))
  }

  /** The search for the next cost community from i on. */
  method NextCost(e: Option<seq<ECom>>, poi: nat, i: nat) returns (j: nat, found: bool, ghost rest: seq<Cost>)
    requires i <= |ComsOf(e)|
    ensures rest == Costs(ComsOf(e)[i..], poi) && i <= j
    ensures AtCost(ComsOf(e), poi, j, found, rest)
  {
    j := i;
    ghost var s := ComsOf(e);
    rest := Costs(s[i..], poi);
    while e.Some? && j < |e.value|
      invariant i <= j <= |s|
      invariant rest == Costs(s[j..], poi)
    {
      assert s[j..][1..] == s[j + 1..];
      if IsCost(e.value[j], poi) {
        return j, true, rest;
      }
      j := j + 1;
    }
    return j, false, rest;
  }

  /** ecommunity_cost_cmp. */
  method EcommunityCostCmp(e1: Option<seq<ECom>>, e2: Option<seq<ECom>>, poi: nat) returns (r: int)
    ensures r == CostOrder(Costs(ComsOf(e1), poi), Costs(ComsOf(e2), poi))
  {
    if e1.None? && e2.None? {
      return 0;
    }
    var s1, s2 := ComsOf(e1), ComsOf(e2);
    assert s1[0..] == s1 && s2[0..] == s2;
    var i, found1, rest1 := NextCost(e1, poi, 0);
    var j, found2, rest2 := NextCost(e2, poi, 0);
    while found1 && found2 && s1[i].id == s2[j].id && s1[i].val == s2[j].val
      invariant AtCost(s1, poi, i, found1, rest1) && AtCost(s2, poi, j, found2, rest2)
      invariant CostOrder(Costs(s1, poi), Costs(s2, poi)) == CostOrder(rest1, rest2)
      decreases |rest1|
    {
      i, found1, rest1 := NextCost(e1, poi, i + 1);
      j, found2, rest2 := NextCost(e2, poi, j + 1);
    }
    var val1 := if found1 then s1[i].val else DEFAULT_COST;
    var val2 := if found2 then s2[j].val else DEFAULT_COST;
    if found1 && found2 {
      if s1[i].id < s2[j].id {
        return 1;
      }
      if s1[i].id > s2[j].id {
        return -1;
      }
    }
    if val1 < val2 {
      return 1;
    }
    if val1 > val2 {
      return -1;
    }
    return 0;
  }

  // ---- Paths ----

  datatype PeerSort = IBGP | EBGP | INTERNAL | CONFED

  datatype SubType = NormalRoute | StaticRoute | AggregateRoute | RedistributeRoute

  /** What bgp_info_cmp looks at; options are attributes whose flag bit is not set. */
  datatype Info = Info(
    weight: nat,
    localPref: Option<nat>,
    subType: SubType,
    aspath: Path,
    origin: nat,
    med: Option<nat>,
    sort: PeerSort,                  // peer_sort of the peer
    igpmetric: nat,
    ecommunity: Option<seq<ECom>>,
    selected: bool,                  // BGP_INFO_SELECTED
    originatorId: Option<nat>,       // addresses in host byte order
    remoteId: nat,
    cluster: Option<nat>,            // length of the cluster list
    address: int)                    // rank of the peer's address under sockunion_cmp

  datatype Config = Config(
    defaultLocalPref: nat,
    alwaysCompareMed: bool,
    deterministicMed: bool,
    medMissingAsWorst: bool,
    medConfed: bool,
    compareRouterId: bool,
    aspathIgnore: bool,
    costCommunityIgnore: bool)

  /** bgp_med_value */
  function MedValue(cfg: Config, p: Info): nat {
    match p.med
    case Some(m) => m
    case None => if cfg.medMissingAsWorst then 0xFFFF_FFFF else 0
  }

  function Pref(cfg: Config, p: Info): nat {
    match p.localPref case Some(v) => v case None => cfg.defaultLocalPref
  }

  function RouterId(p: Info): nat {
    match p.originatorId case Some(v) => v case None => p.remoteId
  }

  function ClusterLen(p: Info): nat {
    match p.cluster case Some(v) => v case None => 0
  }

  predicate SameLeft(p: Path, q: Path) {
    LeftAs(p).Some? && LeftAs(p) == LeftAs(q)
  }

  predicate SameLeftConfed(p: Path, q: Path) {
    LeftConfed(p).Some? && LeftConfed(p) == LeftConfed(q)
  }

  /** Step 6 applies to this pair. */
  predicate MedCompared(cfg: Config, p: Info, q: Info) {
    || cfg.alwaysCompareMed
    || (cfg.medConfed && p.aspath != [] && q.aspath != [] && Count(p.aspath) == 0 && Count(q.aspath) == 0)
    || SameLeft(p.aspath, q.aspath)
    || SameLeftConfed(p.aspath, q.aspath)
    || (p.aspath == [] && q.aspath == [])
  }

  /** bgp_info_cmp (bgp, p, q) for two paths: is p at least as good as q? */
  predicate Better(cfg: Config, p: Info, q: Info) {
    // 1. Weight
    if p.weight != q.weight then p.weight > q.weight
    // 2. Local preference
    else if Pref(cfg, p) != Pref(cfg, q) then Pref(cfg, p) > Pref(cfg, q)
    // 3. Local routes
    else if p.subType.StaticRoute? then true
    else if q.subType.StaticRoute? then false
    else if p.subType.RedistributeRoute? then true
    else if q.subType.RedistributeRoute? then false
    else if p.subType.AggregateRoute? then true
    else if q.subType.AggregateRoute? then false
    else BetterLearned(cfg, p, q)
  }

  predicate BetterLearned(cfg: Config, p: Info, q: Info) {
    // 4. AS path length
    if !cfg.aspathIgnore && Count(p.aspath) != Count(q.aspath) then Count(p.aspath) < Count(q.aspath)
    // 5. Origin
    else if p.origin != q.origin then p.origin < q.origin
    // 6. MED
    else if MedCompared(cfg, p, q) && MedValue(cfg, p) != MedValue(cfg, q) then MedValue(cfg, p) < MedValue(cfg, q)
    // 7. Peer type
    else if p.sort.EBGP? && (q.sort.IBGP? || q.sort.CONFED?) then true
    else if (p.sort.IBGP? || p.sort.CONFED?) && q.sort.EBGP? then false
    // 8. IGP metric
    else if p.igpmetric != q.igpmetric then p.igpmetric < q.igpmetric
    // 9. Cost community
    else if !cfg.costCommunityIgnore && CostOf(p, q) != 0 then CostOf(p, q) > 0
    // 11. Both external: keep the one selected
    else if !cfg.compareRouterId && p.sort.EBGP? && q.sort.EBGP? && (p.selected || q.selected) then p.selected
    // 12. Router identifier
    else if RouterId(p) != RouterId(q) then RouterId(p) < RouterId(q)
    // 13. Cluster list length
    else if ClusterLen(p) != ClusterLen(q) then ClusterLen(p) < ClusterLen(q)
    // 14. Neighbour address
    else p.address <= q.address
  }

  function CostOf(p: Info, q: Info): int {
    CostOrder(Costs(ComsOf(p.ecommunity), COST_POI_IGP), Costs(ComsOf(q.ecommunity), COST_POI_IGP))
  }

  lemma {:induction false} MedComparedSymmetric(cfg: Config, p: Info, q: Info)
    ensures MedCompared(cfg, p, q) == MedCompared(cfg, q, p)
  {
  }

  /** The paths lead through one neighbouring AS, or through one neighbouring member AS. */
  ghost predicate OneNeighbour(p: Path, q: Path) {
    exists n: As :: (Neighbour(p, n) && Neighbour(q, n)) || (MemberNeighbour(p, n) && MemberNeighbour(q, n))
  }

  /** Both comparisons of leftmost ASes together ask for a common neighbour. */
  lemma LeftsMean(p: Path, q: Path)
    ensures SameLeft(p, q) || SameLeftConfed(p, q) <==> OneNeighbour(p, q)
  {
    forall n: As
      ensures (LeftAs(p) == Some(n) <==> Neighbour(p, n)) && (LeftAs(q) == Some(n) <==> Neighbour(q, n))
      ensures LeftConfed(p) == Some(n) <==> MemberNeighbour(p, n)
      ensures LeftConfed(q) == Some(n) <==> MemberNeighbour(q, n)
    {
      LeftAsMeans(p, n);
      LeftAsMeans(q, n);
      LeftConfedMeans(p, n);
      LeftConfedMeans(q, n);
    }
    if SameLeft(p, q) {
      var n := LeftAs(p).value;
      assert Neighbour(p, n) && Neighbour(q, n);
    } else if SameLeftConfed(p, q) {
      var n := LeftConfed(p).value;
      assert MemberNeighbour(p, n) && MemberNeighbour(q, n);
    }
  }

  /** A path inside the confederation: it has segments, and no hops in them. */
  ghost predicate InConfed(p: Path) {
    p != [] && SequenceEntries(p) == {} && Sets(p) == {}
  }

  /** MEDs are compared between paths with a common neighbour and between paths of our own AS; between any
      two paths of the confederation, or any two at all, if so configured. */
  lemma MedComparedMeans(cfg: Config, p: Info, q: Info)
    ensures MedCompared(cfg, p, q) <==>
      || cfg.alwaysCompareMed || OneNeighbour(p.aspath, q.aspath)
      || (p.aspath == [] && q.aspath == [])
      || (cfg.medConfed && InConfed(p.aspath) && InConfed(q.aspath))
  {
    LeftsMean(p.aspath, q.aspath);
    CountMeans(p.aspath);
    CountMeans(q.aspath);
  }

  /** Of any two paths at least one is as good as the other, whatever the configuration. */
  lemma BetterTotal(cfg: Config, p: Info, q: Info)
    ensures Better(cfg, p, q) || Better(cfg, q, p)
  {
    MedComparedSymmetric(cfg, p, q);
    CostAntisymmetric(Costs(ComsOf(p.ecommunity), COST_POI_IGP), Costs(ComsOf(q.ecommunity), COST_POI_IGP));
  }

  // ---- The comparison as an order ----

  /** Lexicographic order on keys of the same length. */
  predicate LexLeq(a: seq<int>, b: seq<int>)
    requires |a| == |b|
  {
    a == [] || a[0] < b[0] || (a[0] == b[0] && LexLeq(a[1..], b[1..]))
  }

  lemma {:induction false} LexTransitive(a: seq<int>, b: seq<int>, c: seq<int>)
    requires |a| == |b| == |c| && LexLeq(a, b) && LexLeq(b, c)
    ensures LexLeq(a, c)
  {
    if a != [] && a[0] == b[0] == c[0] { LexTransitive(a[1..], b[1..], c[1..]); }
  }

  function Origination(t: SubType): int {
    match t
    case StaticRoute => 0
    case RedistributeRoute => 1
    case AggregateRoute => 2
    case NormalRoute => 3
  }

  function B2I(b: bool): int { if b then 1 else 0 }

  /** A path with what stands for the attributes it does not have. */
  function Explicit(cfg: Config, p: Info): (r: Info)
    ensures r.localPref.Some? && r.med.Some? && r.originatorId.Some? && r.cluster.Some?
  {
    p.(localPref := if p.localPref.Some? then p.localPref else Some(cfg.defaultLocalPref),
       med := if p.med.Some? then p.med else Some(if cfg.medMissingAsWorst then 0xFFFF_FFFF else 0),
       originatorId := if p.originatorId.Some? then p.originatorId else Some(p.remoteId),
       cluster := if p.cluster.Some? then p.cluster else Some(0))
  }

  lemma ExplicitSame(cfg: Config, p: Info, q: Info)
    ensures var p' := Explicit(cfg, p);
      && Pref(cfg, p') == Pref(cfg, p) && MedValue(cfg, p') == MedValue(cfg, p)
      && RouterId(p') == RouterId(p) && ClusterLen(p') == ClusterLen(p)
      && MedCompared(cfg, p', q) == MedCompared(cfg, p, q) && MedCompared(cfg, q, p') == MedCompared(cfg, q, p)
      && CostOf(p', q) == CostOf(p, q) && CostOf(q, p') == CostOf(q, p)
  {
  }

  /** The comparison cannot tell a missing attribute from its default. */
  lemma DefaultsMean(cfg: Config, p: Info, q: Info)
    ensures Better(cfg, p, q) == Better(cfg, Explicit(cfg, p), q)
    ensures Better(cfg, p, q) == Better(cfg, p, Explicit(cfg, q))
  {
    ExplicitSame(cfg, p, q);
    ExplicitSame(cfg, q, p);
  }

  /** What the steps compare, in order, down to the IGP metric. Local routes are not compared any further. */
  function KeyHead(cfg: Config, med: bool, p: Info): (k: seq<int>)
    ensures |k| == 8
  {
    var e := Explicit(cfg, p);
    [0 - p.weight, 0 - e.localPref.value, Origination(p.subType)]
    + if !p.subType.NormalRoute? then [0, 0, 0, 0, 0]
      else [if cfg.aspathIgnore then 0 else Count(p.aspath), p.origin, if med then e.med.value else 0,
            B2I(!p.sort.EBGP?), p.igpmetric]
  }

  /** What they compare behind the cost communities. */
  function KeyTail(cfg: Config, p: Info): (k: seq<int>)
    ensures |k| == 4
  {
    var e := Explicit(cfg, p);
    if !p.subType.NormalRoute? || Kept(cfg, p) then [0, 0, 0, 0]
    else [1, e.originatorId.value, e.cluster.value, p.address]
  }

  /** Step 11 speaks for this path, and nothing is compared after it. */
  predicate Kept(cfg: Config, p: Info) {
    !cfg.compareRouterId && p.sort.EBGP? && p.selected
  }

  /** What the cost communities say for p, where they are asked. */
  function CostSays(cfg: Config, p: Info, q: Info): int {
    if cfg.costCommunityIgnore || !p.subType.NormalRoute? || !q.subType.NormalRoute? then 0
    else CostOrder(Costs(ComsOf(p.ecommunity), 129), Costs(ComsOf(q.ecommunity), 129))
  }

  /** The key, with or without the MED. */
  function Key(cfg: Config, med: bool, p: Info): (k: seq<int>)
    ensures |k| == 12
  {
    KeyHead(cfg, med, p) + KeyTail(cfg, p)
  }

  /** A path of our own, or learned from an EBGP, IBGP or confederation peer. */
  predicate KnownSort(p: Info) {
    p.subType.NormalRoute? ==> !p.sort.INTERNAL?
  }

  lemma LexUnfold(a: seq<int>, b: seq<int>)
    requires |a| == |b| && |a| > 0
    ensures LexLeq(a, b) <==> a[0] < b[0] || (a[0] == b[0] && LexLeq(a[1..], b[1..]))
  {
  }

  lemma {:induction false} LexAppend(a: seq<int>, b: seq<int>, c: seq<int>, d: seq<int>)
    requires |a| == |b| && |c| == |d|
    ensures LexLeq(a + c, b + d) <==> if a != b then LexLeq(a, b) else LexLeq(c, d)
  {
    if a == [] {
      assert a + c == c && b + d == d;
    } else {
      LexAppend(a[1..], b[1..], c, d);
      LexUnfold(a, b);
      LexUnfold(a + c, b + d);
      assert (a + c)[1..] == a[1..] + c && (b + d)[1..] == b[1..] + d;
      assert a[0] == b[0] ==> (a == b <==> a[1..] == b[1..]);
    }
  }

  lemma LexFour(a: seq<int>, b: seq<int>)
    requires |a| == |b| == 4
    ensures LexLeq(a, b) <==>
      if a[0] != b[0] then a[0] < b[0] else if a[1] != b[1] then a[1] < b[1]
      else if a[2] != b[2] then a[2] < b[2] else a[3] <= b[3]
  {
    LexUnfold(a, b);
    LexUnfold(a[1..], b[1..]);
    LexUnfold(a[2..], b[2..]);
    LexUnfold(a[3..], b[3..]);
    assert a[1..][1..] == a[2..] && a[2..][1..] == a[3..] && b[1..][1..] == b[2..] && b[2..][1..] == b[3..];
  }

  lemma LexEight(a: seq<int>, b: seq<int>)
    requires |a| == |b| == 8
    ensures LexLeq(a, b) <==>
      if a[0] != b[0] then a[0] < b[0] else if a[1] != b[1] then a[1] < b[1]
      else if a[2] != b[2] then a[2] < b[2] else if a[3] != b[3] then a[3] < b[3]
      else if a[4] != b[4] then a[4] < b[4] else if a[5] != b[5] then a[5] < b[5]
      else if a[6] != b[6] then a[6] < b[6] else a[7] <= b[7]
  {
    LexAppend(a[..4], b[..4], a[4..], b[4..]);
    assert a == a[..4] + a[4..] && b == b[..4] + b[4..];
    LexFour(a[..4], b[..4]);
    LexFour(a[4..], b[4..]);
  }

  /** bgp_info_cmp is the lexicographic order of the first keys, with the MED for two paths whose MEDs are
      compared and without it for others; then the cost communities decide, and then the last keys. */
  lemma BetterIs(cfg: Config, med: bool, p: Info, q: Info)
    requires KnownSort(p) && KnownSort(q) && MedCompared(cfg, p, q) == med
    ensures var a, b := KeyHead(cfg, med, p), KeyHead(cfg, med, q);
      Better(cfg, p, q) <==>
        if a != b then LexLeq(a, b)
        else if CostSays(cfg, p, q) != 0 then CostSays(cfg, p, q) > 0
        else LexLeq(KeyTail(cfg, p), KeyTail(cfg, q))
  {
    var a, b := KeyHead(cfg, med, p), KeyHead(cfg, med, q);
    LexEight(a, b);
    LexFour(KeyTail(cfg, p), KeyTail(cfg, q));
    assert a == b <==> forall i | 0 <= i < 8 :: a[i] == b[i];
  }

  /** Where cost communities are ignored, that is the lexicographic order of the whole keys. */
  lemma BetterIsLex(cfg: Config, med: bool, p: Info, q: Info)
    requires cfg.costCommunityIgnore && KnownSort(p) && KnownSort(q)
    requires MedCompared(cfg, p, q) == med
    ensures Better(cfg, p, q) <==> LexLeq(Key(cfg, med, p), Key(cfg, med, q))
  {
    BetterIs(cfg, med, p, q);
    LexAppend(KeyHead(cfg, med, p), KeyHead(cfg, med, q), KeyTail(cfg, p), KeyTail(cfg, q));
  }

  /** Three paths of which every two are compared alike. */
  lemma BetterTransitive(cfg: Config, med: bool, p: Info, q: Info, r: Info)
    requires cfg.costCommunityIgnore && KnownSort(p) && KnownSort(q) && KnownSort(r)
    requires MedCompared(cfg, p, q) == med && MedCompared(cfg, q, r) == med && MedCompared(cfg, p, r) == med
    requires Better(cfg, p, q) && Better(cfg, q, r)
    ensures Better(cfg, p, r)
  {
    BetterIsLex(cfg, med, p, q);
    BetterIsLex(cfg, med, q, r);
    BetterIsLex(cfg, med, p, r);
    LexTransitive(Key(cfg, med, p), Key(cfg, med, q), Key(cfg, med, r));
  }

  /** The comparison orders all paths of known sort. */
  ghost predicate Transitive(cfg: Config) {
    forall p, q, r | KnownSort(p) && KnownSort(q) && KnownSort(r) && Better(cfg, p, q) && Better(cfg, q, r) ::
      Better(cfg, p, r)
  }

  /** It does so exactly when MEDs are always compared and cost communities ignored. */
  lemma TransitiveIff(cfg: Config)
    ensures Transitive(cfg) <==> cfg.alwaysCompareMed && cfg.costCommunityIgnore
  {
    if cfg.alwaysCompareMed && cfg.costCommunityIgnore {
      forall p, q, r | KnownSort(p) && KnownSort(q) && KnownSort(r) && Better(cfg, p, q) && Better(cfg, q, r)
        ensures Better(cfg, p, r)
      {
        BetterTransitive(cfg, true, p, q, r);
      }
    } else if !cfg.alwaysCompareMed {
      MedIntransitive(cfg);
    } else {
      CostIntransitive(cfg);
    }
  }

  // ---- Why the conditions are there ----

  /** A plain path from an EBGP peer. */
  function Plain(neighbour: As, igp: nat): Info {
    Info(0, None, NormalRoute, [Segment(AsSequence, [neighbour])], 0, None, EBGP, igp, None, false, None, 1, None, 0)
  }

  predicate Intransitive(cfg: Config, p: Info, q: Info, r: Info) {
    Better(cfg, p, q) && Better(cfg, q, r) && !Better(cfg, p, r)
  }

  /** MEDs are compared between paths of one neighbouring AS only, unless always. */
  lemma MedIntransitive(cfg: Config)
    requires !cfg.alwaysCompareMed
    ensures Intransitive(cfg, Plain(1, 30).(med := Some(0)), Plain(1, 10).(med := Some(10)), Plain(2, 20))
  {
    var p, q, r := Plain(1, 30).(med := Some(0)), Plain(1, 10).(med := Some(10)), Plain(2, 20);
    assert Count(p.aspath) == Count(q.aspath) == Count(r.aspath) == 1;
    assert LeftAs(p.aspath) == LeftAs(q.aspath) == Some(1) && LeftAs(r.aspath) == Some(2);
  }

  /** A path of no known sort is compared by IGP metric with either kind of peer, in every configuration. */
  lemma SortIntransitive(cfg: Config)
    ensures Intransitive(cfg, Plain(1, 30), Plain(1, 10).(sort := IBGP), Plain(1, 20).(sort := INTERNAL))
  {
    assert Count(Plain(1, 30).aspath) == 1;
  }

  /** A cost list that has ended ties with any list that goes on with the default cost. */
  lemma CostIntransitive(cfg: Config)
    requires !cfg.costCommunityIgnore
    ensures
      var d := ECom(COST_COMMUNITY, COST_POI_IGP, 1, DEFAULT_COST);
      var c := ECom(COST_COMMUNITY, COST_POI_IGP, 2, 5);
      Intransitive(cfg, Plain(1, 0).(ecommunity := Some([d, c]), remoteId := 3),
                   Plain(1, 0).(ecommunity := Some([d]), remoteId := 1), Plain(1, 0).(remoteId := 2))
  {
    var d := ECom(COST_COMMUNITY, COST_POI_IGP, 1, DEFAULT_COST);
    var c := ECom(COST_COMMUNITY, COST_POI_IGP, 2, 5);
    assert Count(Plain(1, 0).aspath) == 1;
    assert [d, c][1..] == [c] && [c][1..] == [] && [d][1..] == [];
    assert Costs([c], COST_POI_IGP) == [Cost(2, 5)];
    assert Costs([d], COST_POI_IGP) == [Cost(1, DEFAULT_COST)];
    assert Costs([d, c], COST_POI_IGP) == [Cost(1, DEFAULT_COST)] + [Cost(2, 5)];
    assert CostOrder([Cost(1, DEFAULT_COST), Cost(2, 5)], [Cost(1, DEFAULT_COST)]) == CostOrder([Cost(2, 5)], []);
  }
}
