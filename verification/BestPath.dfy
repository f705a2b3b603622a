/** bgp_process (bgpd/bgp_route.c): deterministic-MED grouping, the selection scan and the flags. */
module BestPath {
  import opened Wrappers
  import opened AsSegments
  import opened Decision

  /** The flag bits of one path that bgp_process reads or writes; `hold` is BGP_INFO_HOLDDOWN. */
  datatype Flags = Flags(hold: bool, selected: bool, attrChanged: bool, dmedCheck: bool, dmedSelected: bool)

  /** The group of a path under deterministic MED: same neighbouring AS, or same neighbouring member AS. */
  predicate Together(p: Info, q: Info) {
    SameLeft(p.aspath, q.aspath) || SameLeftConfed(p.aspath, q.aspath)
  }

  /** The groups are those of one neighbour. */
  lemma TogetherMeans(p: Info, q: Info)
    ensures Together(p, q) <==> OneNeighbour(p.aspath, q.aspath)
  {
    LeftsMean(p.aspath, q.aspath);
  }

  lemma TogetherTransitive(p: Info, q: Info, r: Info)
    requires Together(p, q) && Together(q, r)
    ensures Together(p, r) && Together(r, p)
  {
    LeftExclusive(q.aspath);
  }

  /** Paths i and j are in one group; a path without a group key is alone. */
  predicate Grouped(es: seq<Info>, i: nat, j: nat)
    requires i < |es| && j < |es|
  {
    i == j || Together(es[i], es[j])
  }

  lemma GroupedTransitive(es: seq<Info>, i: nat, j: nat, k: nat)
    requires i < |es| && j < |es| && k < |es| && Grouped(es, i, j) && Grouped(es, j, k)
    ensures Grouped(es, i, k) && Grouped(es, k, i)
  {
    if i != j && j != k { TogetherTransitive(es[i], es[j], es[k]); }
  }

  /** Comparisons inside a group are transitive. */
  ghost predicate Comparable(cfg: Config, es: seq<Info>) {
    cfg.costCommunityIgnore && forall i :: 0 <= i < |es| ==> KnownSort(es[i])
  }

  lemma BetterReflexive(cfg: Config, p: Info)
    ensures Better(cfg, p, p)
  {
    BetterTotal(cfg, p, p);
  }

  lemma GroupTransitive(cfg: Config, es: seq<Info>, i: nat, j: nat, k: nat)
    requires Comparable(cfg, es) && i < |es| && j < |es| && k < |es|
    requires Grouped(es, i, j) && Grouped(es, j, k)
    requires Better(cfg, es[i], es[j]) && Better(cfg, es[j], es[k])
    ensures Better(cfg, es[i], es[k])
  {
    if i == k {
      BetterReflexive(cfg, es[i]);
    } else if i != j && j != k {
      GroupedTransitive(es, i, j, k);
      BetterTransitive(cfg, true, es[i], es[j], es[k]);
    }
  }

  /** Path s is preferred to path k: a later one is not even as good as s, and where the comparison is an
      order s is as good as an earlier one. So the last of the best paths is preferred to all others. */
  ghost predicate Preferred(cfg: Config, es: seq<Info>, s: nat, k: nat)
    requires s < |es| && k < |es|
  {
    && (s < k ==> !Better(cfg, es[k], es[s]))
    && (Comparable(cfg, es) ==> Better(cfg, es[s], es[k]))
  }

  // ---- The grouping loops ----

  /** What is settled about path k: nobody yet (None), or the survivor of its group. */
  type Winners = seq<Option<nat>>

  ghost predicate WinnerOk(cfg: Config, es: seq<Info>, fl: seq<Flags>, win: Winners, k: nat)
    requires |es| == |fl| == |win|
  {
    k < |es| && win[k].Some? ==>
      var s := win[k].value;
      && !fl[k].hold
      && s < |es| && !fl[s].hold && win[s] == Some(s) && fl[s].dmedSelected
      && Grouped(es, k, s) && Preferred(cfg, es, s, k)
  }

  /** A settled path settles its whole group. */
  ghost predicate GroupOk(es: seq<Info>, fl: seq<Flags>, win: Winners, k: nat, m: nat)
    requires |es| == |fl| == |win|
  {
    k < |es| && m < |es| && win[k].Some? && !fl[m].hold && Grouped(es, k, m) ==> win[m] == win[k]
  }

  ghost predicate FlagsOk(fl: seq<Flags>, win: Winners, i: nat, k: nat)
    requires |fl| == |win|
  {
    k < |fl| ==>
      && (fl[k].dmedSelected <==> win[k] == Some(k))
      && (k < i && !fl[k].hold ==> win[k].Some?)
      && (i <= k && !fl[k].hold ==> (fl[k].dmedCheck <==> win[k].Some?))
  }

  /** The groups of the first i paths are settled, the others untouched. */
  ghost predicate Settled(cfg: Config, es: seq<Info>, fl: seq<Flags>, win: Winners, i: nat) {
    && |es| == |fl| == |win| && i <= |es|
    && (forall k: nat {:trigger WinnerOk(cfg, es, fl, win, k)} :: WinnerOk(cfg, es, fl, win, k))
    && (forall k: nat, m: nat {:trigger GroupOk(es, fl, win, k, m)} :: GroupOk(es, fl, win, k, m))
    && (forall k: nat {:trigger FlagsOk(fl, win, i, k)} :: FlagsOk(fl, win, i, k))
  }

  /** Only the two DMED bits may differ, and those of held-down paths do not. */
  ghost predicate OnlyDmed(fl: seq<Flags>, fl': seq<Flags>) {
    |fl'| == |fl| && forall k :: 0 <= k < |fl| ==>
      && fl'[k] == fl[k].(dmedCheck := fl'[k].dmedCheck, dmedSelected := fl'[k].dmedSelected)
      && (fl[k].hold ==> fl'[k] == fl[k])
  }

  /** The inner loop of the grouping, at ri2 = j: the best of the group of i so far, and its members marked. */
  ghost predicate Scanned(cfg: Config, es: seq<Info>, fl: seq<Flags>, fl': seq<Flags>, i: nat, j: nat, sel: nat) {
    && |es| == |fl| == |fl'| && i <= sel < j <= |es| && !fl[sel].hold && Grouped(es, i, sel)
    && (forall k :: 0 <= k < |es| ==>
          fl'[k] == if i < k < j && !fl[k].hold && Grouped(es, i, k) then fl[k].(dmedCheck := true) else fl[k])
    && forall k :: i <= k < j && !fl[k].hold && Grouped(es, i, k) ==> Preferred(cfg, es, sel, k)
  }

  lemma ScanStep(cfg: Config, es: seq<Info>, fl: seq<Flags>, fl': seq<Flags>, i: nat, j: nat, sel: nat, sel': nat)
    requires Scanned(cfg, es, fl, fl', i, j, sel) && j < |es| && !fl[j].hold && Grouped(es, i, j)
    requires sel' == if Better(cfg, es[j], es[sel]) then j else sel
    ensures Scanned(cfg, es, fl, fl'[j := fl'[j].(dmedCheck := true)], i, j + 1, sel')
  {
    BetterTotal(cfg, es[j], es[sel]);
    BetterReflexive(cfg, es[j]);
    GroupedTransitive(es, i, j, i);
    GroupedTransitive(es, j, i, sel);
    forall k | i <= k < j + 1 && !fl[k].hold && Grouped(es, i, k) ensures Preferred(cfg, es, sel', k) {
      if k < j {
        assert Preferred(cfg, es, sel, k);
        if sel' == j && Comparable(cfg, es) {
          GroupedTransitive(es, sel, i, k);
          GroupedTransitive(es, i, sel, i);
          GroupTransitive(cfg, es, j, sel, k);
        }
      }
    }
  }

  lemma SettleSkip(cfg: Config, es: seq<Info>, fl: seq<Flags>, win: Winners, i: nat)
    requires Settled(cfg, es, fl, win, i) && i < |es| && (fl[i].hold || fl[i].dmedCheck)
    ensures Settled(cfg, es, fl, win, i + 1)
  {
    var i' := i + 1;
    forall k: nat ensures FlagsOk(fl, win, i', k) { assert FlagsOk(fl, win, i, k); }
  }

  /** The winners once the group of i is settled for sel. */
  ghost function Crown(es: seq<Info>, fl: seq<Flags>, win: Winners, i: nat, sel: nat): Winners
    requires |es| == |fl| == |win| && i < |es|
  {
    seq(|es|, k requires 0 <= k < |es| => if !fl[k].hold && Grouped(es, i, k) then Some(sel) else win[k])
  }

  /** An unsettled path has an unsettled group, none of it earlier in the list. */
  lemma FreshGroup(cfg: Config, es: seq<Info>, fl: seq<Flags>, win: Winners, i: nat, k: nat)
    requires Settled(cfg, es, fl, win, i) && i < |es| && !fl[i].hold && !fl[i].dmedCheck
    requires k < |es| && !fl[k].hold && Grouped(es, i, k)
    ensures win[k].None? && i <= k
  {
    assert FlagsOk(fl, win, i, i) && FlagsOk(fl, win, i, k);
    GroupedTransitive(es, i, k, i);
    assert Grouped(es, k, i);
    assert GroupOk(es, fl, win, k, i);
  }

  lemma SettleGroup(cfg: Config, es: seq<Info>, fl: seq<Flags>, win: Winners, i: nat,
                    fl': seq<Flags>, sel: nat, fl'': seq<Flags>)
    requires Settled(cfg, es, fl, win, i) && i < |es| && !fl[i].hold && !fl[i].dmedCheck
    requires Scanned(cfg, es, fl, fl', i, |es|, sel)
    requires fl'' == fl'[sel := fl'[sel].(dmedCheck := true, dmedSelected := true)]
    ensures Settled(cfg, es, fl'', Crown(es, fl, win, i, sel), i + 1)
  {
    var win' := Crown(es, fl, win, i, sel);
    FreshGroup(cfg, es, fl, win, i, sel);
    forall k: nat ensures WinnerOk(cfg, es, fl'', win', k) {
      SettleWinner(cfg, es, fl, win, i, fl', sel, fl'', k);
    }
    forall k: nat, m: nat ensures GroupOk(es, fl'', win', k, m) {
      assert GroupOk(es, fl, win, k, m);
      if k < |es| && m < |es| && win'[k].Some? && !fl[m].hold && Grouped(es, k, m) {
        SettleOneGroup(cfg, es, fl, win, i, k, m);
      }
    }
    var i' := i + 1;
    forall k: nat ensures FlagsOk(fl'', win', i', k) {
      assert FlagsOk(fl, win, i, k);
      if k < |es| && !fl[k].hold && Grouped(es, i, k) { FreshGroup(cfg, es, fl, win, i, k); }
      if k < |es| && win[k].Some? { assert WinnerOk(cfg, es, fl, win, k); }
    }
  }

  lemma SettleWinner(cfg: Config, es: seq<Info>, fl: seq<Flags>, win: Winners, i: nat,
                     fl': seq<Flags>, sel: nat, fl'': seq<Flags>, k: nat)
    requires Settled(cfg, es, fl, win, i) && i < |es| && !fl[i].hold && !fl[i].dmedCheck
    requires Scanned(cfg, es, fl, fl', i, |es|, sel)
    requires fl'' == fl'[sel := fl'[sel].(dmedCheck := true, dmedSelected := true)]
    ensures WinnerOk(cfg, es, fl'', Crown(es, fl, win, i, sel), k)
  {
    assert WinnerOk(cfg, es, fl, win, k);
    FreshGroup(cfg, es, fl, win, i, sel);
    if k < |es| && !fl[k].hold && Grouped(es, i, k) {
      FreshGroup(cfg, es, fl, win, i, k);
      GroupedTransitive(es, i, k, i);
      GroupedTransitive(es, k, i, sel);
    } else if k < |es| && win[k].Some? {
      var s := win[k].value;
      if Grouped(es, i, s) { FreshGroup(cfg, es, fl, win, i, s); }
    }
  }

  lemma SettleOneGroup(cfg: Config, es: seq<Info>, fl: seq<Flags>, win: Winners, i: nat, k: nat, m: nat)
    requires Settled(cfg, es, fl, win, i) && i < |es| && k < |es| && m < |es| && Grouped(es, k, m) && !fl[m].hold
    requires !fl[k].hold || win[k].Some?
    ensures !fl[k].hold && (Grouped(es, i, k) <==> Grouped(es, i, m))
  {
    assert WinnerOk(cfg, es, fl, win, k);
    GroupedTransitive(es, k, m, m);
    if Grouped(es, i, k) { GroupedTransitive(es, i, k, m); }
    if Grouped(es, i, m) { GroupedTransitive(es, i, m, k); }
  }

  /** Path i as bgp_info_cmp sees it. */
  function Entry(infos: seq<Info>, fl: seq<Flags>, i: nat): Info
    requires |infos| == |fl| && i < |infos|
  {
    infos[i].(selected := fl[i].selected)
  }

  function EntriesOf(infos: seq<Info>, fl: seq<Flags>): (es: seq<Info>)
    requires |infos| == |fl|
    ensures |es| == |infos| && forall i: nat :: i < |infos| ==> es[i] == Entry(infos, fl, i)
  {
    seq(|infos|, i requires 0 <= i < |infos| => Entry(infos, fl, i))
  }

  // ---- The node ----

  class RouteNode {
    const cfg: Config
    const infos: seq<Info>      // the paths at rn->info, first to last
    var flags: seq<Flags>       // their flags

    constructor (cfg: Config, infos: seq<Info>, flags: seq<Flags>)
      requires |infos| == |flags|
      ensures this.cfg == cfg && this.infos == infos && this.flags == flags
    {
      this.cfg, this.infos, this.flags := cfg, infos, flags;
    }

    /** The paths as bgp_info_cmp sees them. */
    ghost function Entries(): seq<Info>
      reads this
      requires |flags| == |infos|
    {
      EntriesOf(infos, flags)
    }

    /** The inner loop for ri2 = j. */
    method ScanOne(i: nat, j: nat, sel: nat, ghost es: seq<Info>, ghost fl: seq<Flags>, ghost win: Winners)
        returns (sel': nat)
      requires |flags| == |infos| == |fl| && i < j < |infos| && es == EntriesOf(infos, fl) == EntriesOf(infos, flags)
      requires Settled(cfg, es, fl, win, i) && !fl[i].hold && !fl[i].dmedCheck
      requires Scanned(cfg, es, fl, flags, i, j, sel)
      modifies this`flags
      ensures |flags| == |infos| && Scanned(cfg, es, fl, flags, i, j + 1, sel')
    {
      sel' := sel;
      if flags[j].dmedCheck || flags[j].hold {
        if !fl[j].hold && Grouped(es, i, j) {
          FreshGroup(cfg, es, fl, win, i, j);
          assert FlagsOk(fl, win, i, j);
        }
        return;
      }
      if Together(infos[i], infos[j]) {
        ghost var fl0 := flags;
        if Better(cfg, Entry(infos, flags, j), Entry(infos, flags, sel)) {
          FreshGroup(cfg, es, fl, win, i, sel);
          assert FlagsOk(fl, win, i, sel);
          flags := flags[sel := flags[sel].(dmedSelected := false)];
          assert flags == fl0;
          sel' := j;
        }
        flags := flags[j := flags[j].(dmedCheck := true)];
        ScanStep(cfg, es, fl, fl0, i, j, sel, sel');
      }
    }

    /** The first loop of bgp_process: one round for ri1 = i. */
    method SettleOne(i: nat, ghost win: Winners) returns (ghost win': Winners)
      requires |flags| == |infos| && i < |infos| && Settled(cfg, Entries(), flags, win, i)
      modifies this`flags
      ensures OnlyDmed(old(flags), flags)
      ensures Settled(cfg, Entries(), flags, win', i + 1) && Entries() == old(Entries())
    {
      win' := win;
      ghost var es, fl := Entries(), flags;
      if flags[i].dmedCheck || flags[i].hold {
        SettleSkip(cfg, es, flags, win, i);
        return;
      }
      var sel := i;
      var j := i + 1;
      BetterReflexive(cfg, es[i]);
      while j < |infos|
        invariant i < j <= |infos| && |flags| == |infos|
        invariant Scanned(cfg, es, fl, flags, i, j, sel)
      {
        SameEntries(infos, fl, flags);
        sel := ScanOne(i, j, sel, es, fl, win);
        j := j + 1;
      }
      ghost var fl' := flags;
      flags := flags[sel := flags[sel].(dmedCheck := true, dmedSelected := true)];
      SettleGroup(cfg, es, fl, win, i, fl', sel, flags);
      win' := Crown(es, fl, win, i, sel);
      SameEntries(infos, fl, flags);
    }

    /** The grouping loops of bgp_process: every group of eligible paths has exactly one survivor. */
    method DeterministicMed() returns (ghost win: Winners)
      requires |flags| == |infos| && NoDmed(flags)
      modifies this`flags
      ensures OnlyDmed(old(flags), flags) && Entries() == old(Entries())
      ensures Settled(cfg, Entries(), flags, win, |infos|)
    {
      win := seq(|infos|, _ => None);
      ghost var es, fl := Entries(), flags;
      SettleStart(cfg, es, flags, win);
      var i := 0;
      while i < |infos|
        invariant i <= |infos| && |flags| == |infos| && Entries() == es
        invariant OnlyDmed(fl, flags) && Settled(cfg, es, flags, win, i)
      {
        win := SettleOne(i, win);
        i := i + 1;
      }
    }

    /** One round of the second loop of bgp_process, for ri = i. */
    method Weigh(i: nat, sel: Option<nat>, ghost es: seq<Info>, ghost fl: seq<Flags>) returns (sel': Option<nat>)
      requires |flags| == |infos| == |fl| && i < |infos| && flags[i] == fl[i]
      requires es == EntriesOf(infos, fl) == EntriesOf(infos, flags) && Chosen(cfg, es, fl, i, sel)
      modifies this`flags
      ensures flags == old(flags)[i := if fl[i].hold then fl[i] else fl[i].(dmedCheck := false, dmedSelected := false)]
      ensures Chosen(cfg, es, fl, i + 1, sel')
    {
      sel' := sel;
      if !flags[i].hold {
        if cfg.deterministicMed && !flags[i].dmedSelected {
          flags := flags[i := flags[i].(dmedCheck := false)];
        } else {
          ChooseStep(cfg, es, fl, i, sel);
          if sel.None? || Better(cfg, Entry(infos, flags, i), Entry(infos, flags, sel.value)) {
            sel' := Some(i);
          }
          flags := flags[i := flags[i].(dmedCheck := false, dmedSelected := false)];
        }
      }
    }

    /** The second loop of bgp_process: the old and the new choice. */
    method Scan() returns (oldSelect: Option<nat>, newSelect: Option<nat>)
      requires |flags| == |infos|
      modifies this`flags
      ensures |flags| == |infos|
      ensures forall k :: 0 <= k < |flags| ==>
        flags[k] == if flags[k].hold then old(flags)[k] else old(flags)[k].(dmedCheck := false, dmedSelected := false)
      ensures oldSelect.None? <==> forall k :: 0 <= k < |flags| ==> !old(flags)[k].selected
      ensures oldSelect.Some? ==> oldSelect.value < |flags| && old(flags)[oldSelect.value].selected
      ensures Chosen(cfg, old(Entries()), old(flags), |infos|, newSelect)
    {
      oldSelect, newSelect := None, None;
      ghost var es, fl := Entries(), flags;
      var i := 0;
      while i < |infos|
        invariant i <= |infos| && |flags| == |infos|
        invariant forall k :: 0 <= k < |flags| ==>
          flags[k] == if k >= i || fl[k].hold then fl[k] else fl[k].(dmedCheck := false, dmedSelected := false)
        invariant oldSelect.None? ==> forall k :: 0 <= k < i ==> !fl[k].selected
        invariant oldSelect.Some? ==> oldSelect.value < i && fl[oldSelect.value].selected
        invariant Chosen(cfg, es, fl, i, newSelect)
      {
        SameEntries(infos, fl, flags);
        if flags[i].selected {
          oldSelect := Some(i);
        }
        newSelect := Weigh(i, newSelect, es, fl);
        i := i + 1;
      }
    }

    /** The choice of bgp_process, with the DMED bits it used cleared again. */
    method Choose() returns (oldSelect: Option<nat>, newSelect: Option<nat>)
      requires |flags| == |infos| && NoDmed(flags)
      modifies this`flags
      ensures flags == old(flags)
      ensures oldSelect.None? <==> forall k :: 0 <= k < |flags| ==> !flags[k].selected
      ensures oldSelect.Some? ==> oldSelect.value < |flags| && flags[oldSelect.value].selected
      ensures Best(cfg, Entries(), flags, newSelect)
    {
      ghost var es, fl := Entries(), flags;
      if cfg.deterministicMed {
        ghost var win := DeterministicMed();
        ghost var fl1 := flags;
        oldSelect, newSelect := Scan();
        SurvivorsSuffice(cfg, es, fl1, win, newSelect);
        HoldOnly(cfg, es, fl1, fl, newSelect);
      } else {
        oldSelect, newSelect := Scan();
        assert forall k: nat :: k < |es| && !fl[k].hold ==> Candidate(cfg, fl, k);
      }
      assert flags == fl;
    }

    /** bgp_process up to the announcements: afterwards exactly the new choice is selected. */
    method Process() returns (newSelect: Option<nat>)
      requires |flags| == |infos| && NoDmed(flags) && OneSelected(flags)
      modifies this`flags
      ensures |flags| == |infos| && NoDmed(flags) && OneSelected(flags)
      ensures forall k: nat :: k < |flags| ==> flags[k] == Announced(old(flags)[k], newSelect == Some(k))
      ensures Best(cfg, old(Entries()), old(flags), newSelect)
    {
      var oldSelect;
      oldSelect, newSelect := Choose();
      if oldSelect.Some? && oldSelect == newSelect && !flags[oldSelect.value].attrChanged {
        return;
      }
      if oldSelect.Some? {
        flags := flags[oldSelect.value := flags[oldSelect.value].(selected := false)];
      }
      if newSelect.Some? {
        flags := flags[newSelect.value := flags[newSelect.value].(selected := true, attrChanged := false)];
      }
    }
  }

  /** The flags of a path after bgp_process: the choice is selected and its change has been dealt with. */
  function Announced(f: Flags, chosen: bool): Flags {
    if chosen then f.(selected := true, attrChanged := false) else f.(selected := false)
  }

  lemma HoldOnly(cfg: Config, es: seq<Info>, fl: seq<Flags>, fl': seq<Flags>, c: Option<nat>)
    requires |es| == |fl| == |fl'| && Best(cfg, es, fl, c)
    requires forall k :: 0 <= k < |es| ==> fl'[k].hold == fl[k].hold
    ensures Best(cfg, es, fl', c)
  {
  }

  /** Path s is the one survivor of the group of k. */
  ghost predicate Survivor(cfg: Config, es: seq<Info>, fl: seq<Flags>, k: nat, s: nat)
    requires |es| == |fl| && k < |es|
  {
    && s < |es| && !fl[s].hold && fl[s].dmedSelected && Grouped(es, k, s)
    && (forall t: nat :: t < |es| && fl[t].dmedSelected && Grouped(es, k, t) ==> t == s)
    && forall m: nat :: m < |es| && !fl[m].hold && Grouped(es, k, m) ==> Preferred(cfg, es, s, m)
  }

  /** After the grouping loops every eligible path has exactly one survivor in its group, and it is
      preferred to every eligible member. */
  lemma SettledMeans(cfg: Config, es: seq<Info>, fl: seq<Flags>, win: Winners, k: nat)
    requires Settled(cfg, es, fl, win, |es|) && k < |es| && !fl[k].hold
    ensures win[k].Some? && Survivor(cfg, es, fl, k, win[k].value)
  {
    assert FlagsOk(fl, win, |es|, k) && WinnerOk(cfg, es, fl, win, k);
    var s := win[k].value;
    forall t: nat | t < |es| && fl[t].dmedSelected && Grouped(es, k, t) ensures t == s {
      assert FlagsOk(fl, win, |es|, t) && WinnerOk(cfg, es, fl, win, t) && GroupOk(es, fl, win, k, t);
    }
    forall m: nat | m < |es| && !fl[m].hold && Grouped(es, k, m)
      ensures Preferred(cfg, es, s, m)
    {
      assert GroupOk(es, fl, win, k, m) && WinnerOk(cfg, es, fl, win, m);
    }
  }

  /** The path s is preferred to every eligible path of its group. */
  ghost predicate BestOfGroup(cfg: Config, es: seq<Info>, fl: seq<Flags>, s: nat)
    requires |es| == |fl|
  {
    && s < |es| && !fl[s].hold
    && forall k: nat | k < |es| && !fl[k].hold && Grouped(es, s, k) :: Preferred(cfg, es, s, k)
  }

  /** Every eligible path has a neighbouring AS. */
  ghost predicate Neighboured(es: seq<Info>, fl: seq<Flags>)
    requires |es| == |fl|
  {
    forall k | 0 <= k < |es| && !fl[k].hold :: LeftAs(es[k].aspath).Some?
  }

  /** The choice is preferred to a path that is the best of the group of k. */
  ghost predicate BeatsGroup(cfg: Config, es: seq<Info>, fl: seq<Flags>, c: nat, k: nat)
    requires |es| == |fl| && c < |es| && k < |es|
  {
    exists s: nat :: BestOfGroup(cfg, es, fl, s) && Grouped(es, k, s) && Preferred(cfg, es, c, s)
  }

  /** What bgp_process chooses among the paths es: nothing only if nothing is eligible; otherwise an
      eligible path than which no later one is as good, or under deterministic MED none of its group. Where
      every two paths are fully compared it is the last of the best; where comparisons inside a group are
      an order and all paths have a neighbouring AS, it is preferred to the best of every other group. */
  ghost predicate Best(cfg: Config, es: seq<Info>, fl: seq<Flags>, c: Option<nat>)
    requires |es| == |fl|
  {
    if c.None? then forall k :: 0 <= k < |es| ==> fl[k].hold
    else
      && c.value < |es| && !fl[c.value].hold
      && (if cfg.deterministicMed then BestOfGroup(cfg, es, fl, c.value)
          else forall k: nat :: c.value < k < |es| && !fl[k].hold ==> !Better(cfg, es[k], es[c.value]))
      && (cfg.deterministicMed && Comparable(cfg, es) && Neighboured(es, fl) ==>
            forall k: nat :: k < |es| && !fl[k].hold ==> BeatsGroup(cfg, es, fl, c.value, k))
      && (Ordered(cfg, es) ==> forall k: nat :: k < |es| && !fl[k].hold ==> Preferred(cfg, es, c.value, k))
  }

  /** Two survivors are of different groups, and so are not compared by MED unless all are. */
  lemma SurvivorsAlike(cfg: Config, es: seq<Info>, fl: seq<Flags>, win: Winners)
    requires cfg.deterministicMed && Settled(cfg, es, fl, win, |es|) && Comparable(cfg, es)
    requires cfg.alwaysCompareMed || Neighboured(es, fl)
    ensures Alike(cfg, es, fl, cfg.alwaysCompareMed)
  {
    forall j: nat, k: nat | j < |es| && k < |es| && j != k && Candidate(cfg, fl, j) && Candidate(cfg, fl, k)
      ensures MedCompared(cfg, es[j], es[k]) == cfg.alwaysCompareMed
    {
      SettledMeans(cfg, es, fl, win, j);
      assert !Grouped(es, j, k);
      LeftExclusive(es[j].aspath);
      LeftExclusive(es[k].aspath);
    }
  }

  lemma SurvivorsSuffice(cfg: Config, es: seq<Info>, fl: seq<Flags>, win: Winners, c: Option<nat>)
    requires cfg.deterministicMed && Settled(cfg, es, fl, win, |es|) && Chosen(cfg, es, fl, |es|, c)
    ensures Best(cfg, es, fl, c)
  {
    forall k: nat | k < |es| && !fl[k].hold
      ensures c.Some?
    {
      SettledMeans(cfg, es, fl, win, k);
      assert Candidate(cfg, fl, win[k].value);
    }
    if c.Some? {
      SurvivorChosen(cfg, es, fl, win, c.value);
      forall k: nat | k < |es| && !fl[k].hold
        ensures Ordered(cfg, es) ==> Preferred(cfg, es, c.value, k)
        ensures Comparable(cfg, es) && Neighboured(es, fl) ==> BeatsGroup(cfg, es, fl, c.value, k)
      {
        SurvivorBeaten(cfg, es, fl, win, c.value, k);
      }
    }
  }

  /** A survivor that was chosen is the best of its group. */
  lemma SurvivorChosen(cfg: Config, es: seq<Info>, fl: seq<Flags>, win: Winners, c: nat)
    requires Settled(cfg, es, fl, win, |es|) && c < |es| && !fl[c].hold && fl[c].dmedSelected
    ensures BestOfGroup(cfg, es, fl, c)
  {
    SurvivorIsBest(cfg, es, fl, win, c);
    assert FlagsOk(fl, win, |es|, c);
  }

  lemma SurvivorBeaten(cfg: Config, es: seq<Info>, fl: seq<Flags>, win: Winners, c: nat, k: nat)
    requires cfg.deterministicMed && Settled(cfg, es, fl, win, |es|) && Chosen(cfg, es, fl, |es|, Some(c))
    requires k < |es| && !fl[k].hold
    ensures Ordered(cfg, es) ==> Preferred(cfg, es, c, k)
    ensures Comparable(cfg, es) && Neighboured(es, fl) ==> BeatsGroup(cfg, es, fl, c, k)
  {
    SettledMeans(cfg, es, fl, win, k);
    SurvivorIsBest(cfg, es, fl, win, k);
    var s := win[k].value;
    assert Candidate(cfg, fl, s);
    if Comparable(cfg, es) && (cfg.alwaysCompareMed || Neighboured(es, fl)) {
      SurvivorsAlike(cfg, es, fl, win);
      assert Preferred(cfg, es, c, s) && Preferred(cfg, es, s, k);
    }
    if Ordered(cfg, es) { PreferredTransitive(cfg, es, c, s, k); }
  }

  lemma PreferredTransitive(cfg: Config, es: seq<Info>, c: nat, s: nat, k: nat)
    requires Ordered(cfg, es) && c < |es| && s < |es| && k < |es|
    requires Preferred(cfg, es, c, s) && Preferred(cfg, es, s, k)
    ensures Preferred(cfg, es, c, k)
  {
    BetterTransitive(cfg, true, es[c], es[s], es[k]);
    if Better(cfg, es[k], es[c]) {
      BetterTransitive(cfg, true, es[s], es[k], es[c]);
      BetterTransitive(cfg, true, es[k], es[c], es[s]);
    }
  }

  lemma SurvivorIsBest(cfg: Config, es: seq<Info>, fl: seq<Flags>, win: Winners, k: nat)
    requires Settled(cfg, es, fl, win, |es|) && k < |es| && !fl[k].hold
    ensures win[k].Some? && BestOfGroup(cfg, es, fl, win[k].value) && Grouped(es, k, win[k].value)
  {
    SettledMeans(cfg, es, fl, win, k);
    var s := win[k].value;
    forall m: nat | m < |es| && !fl[m].hold && Grouped(es, s, m)
      ensures Preferred(cfg, es, s, m)
    {
      GroupedTransitive(es, k, s, m);
    }
  }

  ghost predicate OneSelected(fl: seq<Flags>) {
    forall i, j :: 0 <= i < |fl| && 0 <= j < |fl| && fl[i].selected && fl[j].selected ==> i == j
  }

  ghost predicate NoDmed(fl: seq<Flags>) {
    forall k :: 0 <= k < |fl| ==> !fl[k].dmedCheck && !fl[k].dmedSelected
  }

  lemma SameEntries(infos: seq<Info>, fl: seq<Flags>, fl': seq<Flags>)
    requires |infos| == |fl| == |fl'| && forall k :: 0 <= k < |fl| ==> fl'[k].selected == fl[k].selected
    ensures EntriesOf(infos, fl') == EntriesOf(infos, fl)
  {
    var a, b := EntriesOf(infos, fl'), EntriesOf(infos, fl);
    forall i | 0 <= i < |infos| ensures a[i] == b[i] { assert Entry(infos, fl', i) == Entry(infos, fl, i); }
  }

  lemma SettleStart(cfg: Config, es: seq<Info>, fl: seq<Flags>, win: Winners)
    requires |es| == |fl| == |win| && NoDmed(fl) && forall k :: 0 <= k < |win| ==> win[k].None?
    ensures Settled(cfg, es, fl, win, 0)
  {
  }

  // ---- The final choice ----

  /** The paths the final choice is made among: eligible, and under deterministic MED survivors only. */
  predicate Candidate(cfg: Config, fl: seq<Flags>, k: nat)
    requires k < |fl|
  {
    !fl[k].hold && (cfg.deterministicMed ==> fl[k].dmedSelected)
  }

  /** Any two paths are compared on every step. */
  ghost predicate Ordered(cfg: Config, es: seq<Info>) {
    cfg.alwaysCompareMed && Comparable(cfg, es)
  }

  /** Any two candidates are compared on the same steps, the MED among them or not. */
  ghost predicate Alike(cfg: Config, es: seq<Info>, fl: seq<Flags>, med: bool)
    requires |es| == |fl|
  {
    && Comparable(cfg, es)
    && forall j: nat, k: nat | j < |es| && k < |es| && j != k && Candidate(cfg, fl, j) && Candidate(cfg, fl, k) ::
         MedCompared(cfg, es[j], es[k]) == med
  }

  /** c is the outcome of the scan over the first i paths: no later candidate is as good, and among
      candidates that are compared alike it is at least as good as every other. */
  ghost predicate Chosen(cfg: Config, es: seq<Info>, fl: seq<Flags>, i: nat, c: Option<nat>)
    requires |es| == |fl| && i <= |es|
  {
    if c.None? then forall k :: 0 <= k < i ==> !Candidate(cfg, fl, k)
    else
      && c.value < i && Candidate(cfg, fl, c.value)
      && (forall k :: c.value < k < i && Candidate(cfg, fl, k) ==> !Better(cfg, es[k], es[c.value]))
      && (Alike(cfg, es, fl, true) || Alike(cfg, es, fl, false) ==>
            forall k :: 0 <= k < i && Candidate(cfg, fl, k) ==> Better(cfg, es[c.value], es[k]))
  }

  lemma ChooseStep(cfg: Config, es: seq<Info>, fl: seq<Flags>, i: nat, c: Option<nat>)
    requires |es| == |fl| && i < |es| && Candidate(cfg, fl, i) && Chosen(cfg, es, fl, i, c)
    ensures Chosen(cfg, es, fl, i + 1, if c.None? || Better(cfg, es[i], es[c.value]) then Some(i) else c)
  {
    BetterReflexive(cfg, es[i]);
    if c.Some? {
      BetterTotal(cfg, es[i], es[c.value]);
    }
    if c.Some? && (Alike(cfg, es, fl, true) || Alike(cfg, es, fl, false)) && Better(cfg, es[i], es[c.value]) {
      forall k | 0 <= k < i && Candidate(cfg, fl, k) ensures Better(cfg, es[i], es[k]) {
        if k != c.value {
          BetterTransitive(cfg, Alike(cfg, es, fl, true), es[i], es[c.value], es[k]);
        }
      }
    }
  }
}
