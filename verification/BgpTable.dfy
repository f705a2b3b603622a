/**
 The BGP routing table (bgpd/bgp_table.c): a path-compressed binary trie with
 parent pointers, lock counts and glue nodes.

 `Node` and `Table` are the C structures. What the shape of the trie means and
 how each relinking step changes it is stated on snapshots of the heap (`Trie`),
 which the methods take with `Snap()`.
 */
module BgpTable {
  import opened Wrappers
  import opened Prefixes

  /** Handle of the path list hanging off a node (struct bgp_info *). */
  type Info = nat

  class Node {
    const p: Prefix
    var parent: Node?
    var left: Node?     // link[0]
    var right: Node?    // link[1]
    var lock: nat
    var info: Option<Info>

    /** bgp_node_create / bgp_node_set */
    constructor (p: Prefix)
      ensures this.p == p && parent == null && left == null && right == null
      ensures lock == 0 && info == None
    {
      this.p := p;
      parent, left, right := null, null, null;
      lock, info := 0, None;
    }

    function Link(b: bool): Node?
      reads this
    {
      if b then right else left
    }

    ghost function Fields(): Cell
      reads this
    {
      Cell(p.bits, parent, left, right, lock, info)
    }
  }

  // ---- Snapshots and shape ----

  /** The fields of one node. */
  datatype Cell = Cell(bits: Bits, parent: Node?, left: Node?, right: Node?, lock: nat, info: Option<Info>)
  {
    function Link(b: bool): Node? {
      if b then right else left
    }

    /** The child bgp_node_delete promotes. */
    function OnlyChild(): Node? {
      if left != null then left else right
    }

    function WithLink(b: bool, n: Node?): Cell {
      if b then this.(right := n) else this.(left := n)
    }
  }

  type Trie = map<Node, Cell>

  /** Where a link of n leads: a node of the trie that points back to n and whose
      bits continue those of n with the link's own bit. */
  ghost predicate LinkOk(t: Trie, n: Node, b: bool)
    requires n in t
  {
    var c := t[n].Link(b);
    c != null ==>
      && c in t
      && t[c].parent == n
      && t[n].bits < t[c].bits
      && t[c].bits[|t[n].bits|] == b
  }

  ghost predicate ParentOk(t: Trie, top: Node?, n: Node)
    requires n in t
  {
    var q := t[n].parent;
    if q == null then n == top
    else q in t && (t[q].left == n || t[q].right == n)
  }

  ghost predicate NodeOk(t: Trie, top: Node?, n: Node) {
    n in t ==> LinkOk(t, n, false) && LinkOk(t, n, true) && ParentOk(t, top, n)
  }

  ghost predicate Shape(t: Trie, top: Node?) {
    && (top == null <==> t == map[])
    && (top != null ==> top in t && t[top].parent == null)
    && forall n {:trigger NodeOk(t, top, n)} :: n in t ==> NodeOk(t, top, n)
  }

  /** A node nobody holds is glue: it joins two subtrees and carries no routes. */
  ghost predicate GlueOk(t: Trie, n: Node) {
    n in t && t[n].lock == 0 ==> t[n].left != null && t[n].right != null && t[n].info == None
  }

  ghost predicate WellFormed(t: Trie, top: Node?) {
    Shape(t, top) && forall n {:trigger GlueOk(t, n)} :: n in t ==> GlueOk(t, n)
  }

  // ---- Consequences of the shape ----

  lemma {:induction false} TopIsPrefix(t: Trie, top: Node?, n: Node)
    requires Shape(t, top) && n in t
    ensures top != null && t[top].bits <= t[n].bits
    ensures n != top ==> t[top].bits < t[n].bits
    decreases |t[n].bits|
  {
    assert NodeOk(t, top, n);
    var q := t[n].parent;
    if q != null {
      assert NodeOk(t, top, q);
      TopIsPrefix(t, top, q);
    }
  }

  /** Every node whose bits continue those of n is n or hangs below the link its next bit names:
      the tree, read off the pointers, is exactly the prefix order on the stored prefixes. */
  lemma {:induction false} Descend(t: Trie, top: Node?, n: Node, m: Node)
    requires Shape(t, top) && n in t && m in t && t[n].bits <= t[m].bits
    ensures n == m || t[n].bits < t[m].bits
    ensures n != m ==>
      var c := t[n].Link(t[m].bits[|t[n].bits|]);
      c != null && c in t && t[c].bits <= t[m].bits
    decreases |t[n].bits| + |t[m].bits|, 1
  {
    TopIsPrefix(t, top, n);
    TopIsPrefix(t, top, m);
    assert NodeOk(t, top, n) && NodeOk(t, top, m);
    if n != m && m != top {
      var q := t[m].parent;
      assert NodeOk(t, top, q);
      PrefixesComparable(t[n].bits, t[q].bits, t[m].bits);
      if t[n].bits <= t[q].bits {
        Descend(t, top, n, q);
      } else if t[n].bits < t[m].bits {
        Descend(t, top, q, n);
      } else {
        SameBits(t, top, n, m);
      }
    }
  }

  /** No two nodes hold the same prefix. */
  lemma {:induction false} SameBits(t: Trie, top: Node?, n: Node, m: Node)
    requires Shape(t, top) && n in t && m in t && t[n].bits == t[m].bits
    ensures n == m
    decreases |t[n].bits| + |t[m].bits|, 0
  {
    TopIsPrefix(t, top, n);
    TopIsPrefix(t, top, m);
    assert NodeOk(t, top, n) && NodeOk(t, top, m);
    if n != top && m != top {
      var np, mp := t[n].parent, t[m].parent;
      assert NodeOk(t, top, np) && NodeOk(t, top, mp);
      PrefixesComparable(t[np].bits, t[mp].bits, t[n].bits);
      if t[np].bits <= t[mp].bits {
        Descend(t, top, np, mp);
      } else {
        Descend(t, top, mp, np);
      }
    }
  }

  // ---- The flat map a trie stands for ----

  /** The prefixes that carry routes, with those routes. */
  ghost function Routes(t: Trie): set<(Bits, Info)> {
    set n | n in t && t[n].info.Some? :: (t[n].bits, t[n].info.value)
  }

  /** Routes is a map: one prefix, one set of routes. */
  lemma RoutesFunctional(t: Trie, top: Node?, n: Node, i: Info)
    requires Shape(t, top) && n in t
    ensures (t[n].bits, i) in Routes(t) <==> t[n].info == Some(i)
  {
    if (t[n].bits, i) in Routes(t) {
      var m :| m in t && t[m].info == Some(i) && t[m].bits == t[n].bits;
      SameBits(t, top, n, m);
    }
  }

  /** Nodes without routes may come and go without changing the flat map. */
  lemma RoutesKept(t: Trie, t': Trie)
    requires forall n :: n in t && t[n].info.Some? ==> n in t' && t'[n].info == t[n].info && t'[n].bits == t[n].bits
    requires forall n :: n in t' && t'[n].info.Some? ==> n in t && t[n].info == t'[n].info && t'[n].bits == t[n].bits
    ensures Routes(t) == Routes(t')
  {
    forall x | x in Routes(t) ensures x in Routes(t') {
      var n :| n in t && t[n].info.Some? && x == (t[n].bits, t[n].info.value);
      assert t'[n].info == t[n].info;
    }
    forall x | x in Routes(t') ensures x in Routes(t) {
      var n :| n in t' && t'[n].info.Some? && x == (t'[n].bits, t'[n].info.value);
      assert t[n].info == t'[n].info;
    }
  }

  // ---- Walking down ----

  /** One downward step towards p keeps every node that covers p in view. */
  lemma StepDown(t: Trie, top: Node?, node: Node, p: Prefix, m: Node)
    requires Shape(t, top) && node in t && m in t
    requires t[node].bits <= t[m].bits <= p.bits
    ensures m == node ||
      var c := t[node].Link(CheckBit(p, |t[node].bits|));
      c != null && c in t && t[c].bits <= t[m].bits && |t[node].bits| < |p.bits|
  {
    Descend(t, top, node, m);
    if m != node {
      assert t[m].bits[|t[node].bits|] == p.bits[|t[node].bits|];
    }
  }

  /** What a downward walk towards p has established at `node`: every covering node
      with routes is at or below `node`, or no longer than `matched`. */
  ghost predicate MatchSoFar(t: Trie, p: Bits, node: Node?, matched: Node?) {
    && (node != null ==> node in t)
    && (matched != null ==> matched in t && t[matched].bits <= p && t[matched].info != None)
    && forall m :: m in t && t[m].bits <= p && t[m].info != None ==>
         || (node != null && t[node].bits <= t[m].bits)
         || (matched != null && t[m].bits <= t[matched].bits)
  }

  lemma MatchStart(t: Trie, top: Node?, p: Bits)
    requires Shape(t, top)
    ensures MatchSoFar(t, p, top, null)
  {
    forall m | m in t ensures top != null && t[top].bits <= t[m].bits { TopIsPrefix(t, top, m); }
  }

  lemma MatchStep(t: Trie, top: Node?, p: Prefix, node: Node, matched: Node?)
    requires Shape(t, top) && MatchSoFar(t, p.bits, node, matched) && t[node].bits <= p.bits
    ensures MatchSoFar(t, p.bits, t[node].Link(CheckBit(p, |t[node].bits|)),
                       if t[node].info != None then node else matched)
  {
    var next := t[node].Link(CheckBit(p, |t[node].bits|));
    var matched' := if t[node].info != None then node else matched;
    assert NodeOk(t, top, node);
    forall m | m in t && t[m].bits <= p.bits && t[m].info != None
      ensures (next != null && t[next].bits <= t[m].bits) || (matched' != null && t[m].bits <= t[matched'].bits)
    {
      if t[node].bits <= t[m].bits {
        StepDown(t, top, node, p, m);
      } else {
        PrefixesComparable(t[node].bits, t[m].bits, p.bits);
      }
    }
  }

  /** r is the answer of a longest-prefix match for p. */
  ghost predicate IsLongestMatch(t: Trie, p: Bits, r: Node?) {
    if r == null then forall m :: m in t && t[m].bits <= p ==> t[m].info == None
    else
      && r in t && t[r].bits <= p && t[r].info != None
      && forall m :: m in t && t[m].bits <= p && t[m].info != None ==> t[m].bits <= t[r].bits
  }

  /** What the walk of bgp_node_get has established at `node`,
      reached over `parent`: a node for exactly p is at or below `node`. */
  ghost predicate FindSoFar(t: Trie, top: Node?, p: Bits, node: Node?, parent: Node?) {
    && (node != null ==> node in t)
    && (if parent == null then node == top
        else parent in t && t[parent].bits < p && node == t[parent].Link(p[|t[parent].bits|]))
    && forall m :: m in t && t[m].bits == p ==> node != null && t[node].bits <= t[m].bits
  }

  lemma FindStart(t: Trie, top: Node?, p: Bits)
    requires Shape(t, top)
    ensures FindSoFar(t, top, p, top, null)
  {
    forall m | m in t ensures top != null && t[top].bits <= t[m].bits { TopIsPrefix(t, top, m); }
  }

  lemma FindStep(t: Trie, top: Node?, p: Prefix, node: Node, parent: Node?)
    requires Shape(t, top) && FindSoFar(t, top, p.bits, node, parent) && t[node].bits < p.bits
    ensures FindSoFar(t, top, p.bits, t[node].Link(CheckBit(p, |t[node].bits|)), node)
  {
    assert NodeOk(t, top, node);
    forall m | m in t && t[m].bits == p.bits
      ensures var c := t[node].Link(CheckBit(p, |t[node].bits|)); c != null && t[c].bits <= t[m].bits
    {
      StepDown(t, top, node, p, m);
    }
  }

  /** The same for a node that carries routes, which is what bgp_node_lookup is after. */
  ghost predicate LookSoFar(t: Trie, p: Bits, node: Node?) {
    && (node != null ==> node in t)
    && forall m :: m in t && t[m].bits == p && t[m].info != None ==> node != null && t[node].bits <= p
  }

  lemma LookStart(t: Trie, top: Node?, p: Bits)
    requires Shape(t, top)
    ensures LookSoFar(t, p, top)
  {
    forall m | m in t ensures top != null && t[top].bits <= t[m].bits { TopIsPrefix(t, top, m); }
  }

  lemma LookStep(t: Trie, top: Node?, p: Prefix, node: Node)
    requires Shape(t, top) && LookSoFar(t, p.bits, node) && t[node].bits <= p.bits
    requires !(t[node].bits == p.bits && t[node].info != None)
    ensures LookSoFar(t, p.bits, t[node].Link(CheckBit(p, |t[node].bits|)))
  {
    assert NodeOk(t, top, node);
    forall m | m in t && t[m].bits == p.bits && t[m].info != None
      ensures var c := t[node].Link(CheckBit(p, |t[node].bits|)); c != null && t[c].bits <= p.bits
    {
      StepDown(t, top, node, p, m);
    }
  }

  // ---- Locks ----

  ghost function Locked(t: Trie, n: Node): Trie
    requires n in t
  {
    t[n := t[n].(lock := t[n].lock + 1)]
  }

  /** Shape looks at links and bits only. */
  lemma SameLinksSameShape(t: Trie, t': Trie, top: Node?)
    requires Shape(t, top) && t'.Keys == t.Keys
    requires forall n :: n in t ==> t'[n].bits == t[n].bits && t'[n].parent == t[n].parent
    requires forall n :: n in t ==> t'[n].left == t[n].left && t'[n].right == t[n].right
    ensures Shape(t', top)
  {
    forall n | n in t' ensures NodeOk(t', top, n) {
      assert NodeOk(t, top, n);
    }
    assert top == null ==> t' == map[];
  }

  lemma InfoKeeps(t: Trie, top: Node?, n: Node, info: Option<Info>)
    requires WellFormed(t, top) && n in t && t[n].lock > 0
    ensures var t' := t[n := t[n].(info := info)];
      && WellFormed(t', top)
      && forall b: Bits, i: Info ::
           (b, i) in Routes(t') <==> if b == t[n].bits then info == Some(i) else (b, i) in Routes(t)
  {
    var t' := t[n := t[n].(info := info)];
    SameLinksSameShape(t, t', top);
    forall m | m in t' ensures GlueOk(t', m) { assert GlueOk(t, m); }
    forall b: Bits, i: Info
      ensures (b, i) in Routes(t') <==> if b == t[n].bits then info == Some(i) else (b, i) in Routes(t)
    {
      if b == t[n].bits {
        RoutesFunctional(t', top, n, i);
      } else if (b, i) in Routes(t') {
        var m :| m in t' && t'[m].info == Some(i) && t'[m].bits == b;
        assert t[m].info == Some(i);
      }
    }
  }

  lemma LockKeeps(t: Trie, top: Node?, n: Node)
    requires Shape(t, top) && n in t
    ensures Shape(Locked(t, n), top)
    ensures WellFormed(t, top) ==> WellFormed(Locked(t, n), top)
    ensures Routes(Locked(t, n)) == Routes(t)
  {
    SameLinksSameShape(t, Locked(t, n), top);
    RoutesKept(t, Locked(t, n));
    if WellFormed(t, top) {
      forall m | m in t ensures GlueOk(Locked(t, n), m) { assert GlueOk(t, m); }
    }
  }

  // ---- Relinking steps ----

  function NewCell(bits: Bits): Cell {
    Cell(bits, null, null, null, 0, None)
  }

  /** set_link */
  ghost function Linked(t: Trie, n: Node, b: bool, c: Node): Trie
    requires n in t && c in t && n != c
  {
    t[n := t[n].WithLink(b, c)][c := t[c].(parent := n)]
  }

  /** set_link after bgp_node_set: r becomes a leaf below parent, or the top. */
  ghost function LeafAdded(t: Trie, parent: Node?, r: Node, bits: Bits): Trie
    requires r !in t
    requires parent != null ==> parent in t && |t[parent].bits| < |bits|
  {
    var t1 := t[r := NewCell(bits)];
    if parent == null then t1
    else Linked(t1, parent, bits[|t[parent].bits|], r)
  }

  /** A link that is free for a leaf with these bits. */
  ghost predicate FreeLink(t: Trie, top: Node?, parent: Node?, bits: Bits) {
    if parent == null then top == null
    else parent in t && t[parent].bits < bits && t[parent].Link(bits[|t[parent].bits|]) == null
  }

  lemma LeafKeepsShape(t: Trie, top: Node?, parent: Node?, r: Node, bits: Bits)
    requires Shape(t, top) && r !in t && FreeLink(t, top, parent, bits)
    ensures Shape(LeafAdded(t, parent, r, bits), if parent == null then r else top)
  {
    var t' := LeafAdded(t, parent, r, bits);
    var top' := if parent == null then r else top;
    forall n | n in t' ensures NodeOk(t', top', n) {
      if n in t {
        assert NodeOk(t, top, n);
      }
    }
  }

  /** The two set_link calls of bgp_node_get that put g between parent and node. */
  ghost function GlueAdded(t: Trie, parent: Node?, node: Node, g: Node, bits: Bits): Trie
    requires g !in t && node in t && |bits| < |t[node].bits|
    requires parent != null ==> parent in t && |t[parent].bits| < |bits|
  {
    var t1 := Linked(t[g := NewCell(bits)], g, t[node].bits[|bits|], node);
    if parent == null then t1
    else Linked(t1, parent, bits[|t[parent].bits|], g)
  }

  /** g's bits fit between parent and node. */
  ghost predicate Between(t: Trie, top: Node?, parent: Node?, node: Node, bits: Bits) {
    && node in t && bits < t[node].bits
    && if parent == null then node == top
       else parent in t && t[parent].bits < bits && node == t[parent].Link(bits[|t[parent].bits|])
  }

  lemma GlueFrame(t: Trie, top: Node?, parent: Node?, node: Node, g: Node, bits: Bits)
    requires Shape(t, top) && g !in t && Between(t, top, parent, node, bits)
    ensures t[node].parent == parent
    ensures var t' := GlueAdded(t, parent, node, g, bits);
      && t'.Keys == t.Keys + {g}
      && (forall n :: n in t ==> t'[n].bits == t[n].bits)
      && (forall n :: n in t && n != node ==> t'[n].parent == t[n].parent)
      && (forall n :: n in t && n != parent ==> t'[n].left == t[n].left && t'[n].right == t[n].right)
  {
    assert NodeOk(t, top, node);
    if parent != null {
      assert NodeOk(t, top, parent);
    }
  }

  lemma GlueParent(t: Trie, top: Node?, parent: Node?, node: Node, bits: Bits)
    requires Shape(t, top) && Between(t, top, parent, node, bits)
    ensures parent != node
  {
    if parent != null {
      assert NodeOk(t, top, parent);
    }
  }

  lemma GlueNodeOk(t: Trie, top: Node?, parent: Node?, node: Node, g: Node, bits: Bits, n: Node)
    requires Shape(t, top) && g !in t && Between(t, top, parent, node, bits)
    requires n in t || n == g
    ensures NodeOk(GlueAdded(t, parent, node, g, bits), if parent == null then g else top, n)
  {
    GlueFrame(t, top, parent, node, g, bits);
    if n != g {
      assert NodeOk(t, top, n);
    }
  }

  lemma GlueKeepsShape(t: Trie, top: Node?, parent: Node?, node: Node, g: Node, bits: Bits)
    requires Shape(t, top) && g !in t && Between(t, top, parent, node, bits)
    ensures Shape(GlueAdded(t, parent, node, g, bits), if parent == null then g else top)
  {
    var t' := GlueAdded(t, parent, node, g, bits);
    var top' := if parent == null then g else top;
    GlueFrame(t, top, parent, node, g, bits);
    forall n | n in t' ensures NodeOk(t', top', n) {
      GlueNodeOk(t, top, parent, node, g, bits, n);
    }
    assert g in t';
  }

  // ---- What bgp_node_get leaves behind ----

  /** r now holds prefix p. Nothing else was added except at most one glue node g,
      and no other node changed its prefix, its lock or its routes. */
  ghost predicate Inserted(t: Trie, t': Trie, p: Bits, r: Node, g: Node) {
    && r in t' && t'[r].bits == p
    && if r in t then t' == Locked(t, r)
       else
         && g !in t && t'.Keys == t.Keys + {g, r}
         && t'[r].lock == 1 && t'[r].info == None
         && (g != r ==> t'[g].lock == 0 && t'[g].info == None && t'[g].bits < p)
         && forall n :: n in t ==>
              t[n].bits != p && t'[n].bits == t[n].bits && t'[n].lock == t[n].lock && t'[n].info == t[n].info
  }

  lemma InsertedRoutes(t: Trie, top: Node?, t': Trie, p: Bits, r: Node, g: Node)
    requires Shape(t, top) && Inserted(t, t', p, r, g)
    ensures Routes(t') == Routes(t)
  {
    RoutesKept(t, t');
  }

  /** One node more; the others keep prefix, lock and routes and lose no child. */
  ghost predicate Grown(t: Trie, t': Trie, x: Node) {
    && x !in t && t'.Keys == t.Keys + {x}
    && forall n :: n in t ==>
         && t'[n].bits == t[n].bits && t'[n].lock == t[n].lock && t'[n].info == t[n].info
         && (t[n].left != null ==> t'[n].left != null) && (t[n].right != null ==> t'[n].right != null)
  }

  lemma LeafGrown(t: Trie, parent: Node?, r: Node, bits: Bits)
    requires r !in t && (parent != null ==> parent in t && |t[parent].bits| < |bits|)
    ensures var t' := LeafAdded(t, parent, r, bits);
      Grown(t, t', r) && t'[r].bits == bits && t'[r].lock == 0 && t'[r].info == None
    ensures parent != null ==> LeafAdded(t, parent, r, bits)[parent].Link(bits[|t[parent].bits|]) == r
  {
  }

  lemma GlueGrown(t: Trie, parent: Node?, node: Node, g: Node, bits: Bits)
    requires g !in t && node in t && |bits| < |t[node].bits| && parent != node
    requires parent != null ==> parent in t && |t[parent].bits| < |bits|
    ensures var t' := GlueAdded(t, parent, node, g, bits);
      && Grown(t, t', g) && t'[g].bits == bits && t'[g].lock == 0 && t'[g].info == None
      && t'[g].Link(t[node].bits[|bits|]) == node && t'[g].Link(!t[node].bits[|bits|]) == null
  {
  }

  lemma GrownInserted(t: Trie, top: Node?, t1: Trie, top1: Node?, r: Node, p: Bits)
    requires WellFormed(t, top) && Shape(t1, top1) && Grown(t, t1, r)
    requires t1[r].bits == p && t1[r].lock == 0 && t1[r].info == None
    requires forall m :: m in t ==> t[m].bits != p
    ensures WellFormed(Locked(t1, r), top1) && Inserted(t, Locked(t1, r), p, r, r)
  {
    LockKeeps(t1, top1, r);
    forall m | m in Locked(t1, r) ensures GlueOk(Locked(t1, r), m) { assert GlueOk(t, m); }
  }

  lemma GrownTwiceInserted(t: Trie, top: Node?, t1: Trie, g: Node, t2: Trie, top2: Node?, r: Node, p: Bits)
    requires WellFormed(t, top) && Shape(t2, top2) && Grown(t, t1, g) && Grown(t1, t2, r)
    requires t2[r].bits == p && t2[r].lock == 0 && t2[r].info == None
    requires t1[g].bits < p && t1[g].lock == 0 && t1[g].info == None
    requires t2[g].left != null && t2[g].right != null
    requires forall m :: m in t ==> t[m].bits != p
    ensures WellFormed(Locked(t2, r), top2) && Inserted(t, Locked(t2, r), p, r, g)
  {
    LockKeeps(t2, top2, r);
    forall m | m in Locked(t2, r) ensures GlueOk(Locked(t2, r), m) { assert GlueOk(t, m); }
  }

  /** The three ways bgp_node_get ends when p was not there. */
  lemma LeafInserted(t: Trie, top: Node?, parent: Node?, r: Node, p: Bits)
    requires WellFormed(t, top) && r !in t && FindSoFar(t, top, p, null, parent)
    ensures FreeLink(t, top, parent, p)
    ensures var t' := Locked(LeafAdded(t, parent, r, p), r);
      WellFormed(t', if parent == null then r else top) && Inserted(t, t', p, r, r)
  {
    var t1, top1 := LeafAdded(t, parent, r, p), if parent == null then r else top;
    LeafKeepsShape(t, top, parent, r, p);
    LeafGrown(t, parent, r, p);
    GrownInserted(t, top, t1, top1, r, p);
  }

  lemma GlueInserted(t: Trie, top: Node?, parent: Node?, node: Node, g: Node, p: Bits)
    requires WellFormed(t, top) && g !in t && FindSoFar(t, top, p, node, parent) && !(t[node].bits <= p)
    requires Between(t, top, parent, node, p)
    ensures var t' := Locked(GlueAdded(t, parent, node, g, p), g);
      WellFormed(t', if parent == null then g else top) && Inserted(t, t', p, g, g)
  {
    var t1, top1 := GlueAdded(t, parent, node, g, p), if parent == null then g else top;
    GlueParent(t, top, parent, node, p);
    GlueKeepsShape(t, top, parent, node, g, p);
    GlueGrown(t, parent, node, g, p);
    GrownInserted(t, top, t1, top1, g, p);
  }

  lemma GluePlaced(t: Trie, top: Node?, parent: Node?, node: Node, g: Node, p: Bits, c: Bits)
    requires WellFormed(t, top) && g !in t && node in t && !(t[node].bits <= p)
    requires c == Common(t[node].bits, p) && c != p && Between(t, top, parent, node, c)
    ensures var t1, top1 := GlueAdded(t, parent, node, g, c), if parent == null then g else top;
      Shape(t1, top1) && FreeLink(t1, top1, g, p)
  {
    GlueParent(t, top, parent, node, c);
    GlueKeepsShape(t, top, parent, node, g, c);
    GlueGrown(t, parent, node, g, c);
  }

  /** A leaf on the free side of a glue node just added. */
  lemma LeafBelowGlue(t: Trie, top: Node?, t1: Trie, top1: Node?, g: Node, r: Node, p: Bits)
    requires WellFormed(t, top) && Shape(t1, top1) && Grown(t, t1, g) && r !in t1
    requires FreeLink(t1, top1, g, p) && t1[g].bits < p && t1[g].lock == 0 && t1[g].info == None
    requires t1[g].Link(!p[|t1[g].bits|]) != null && forall m :: m in t ==> t[m].bits != p
    ensures var t' := Locked(LeafAdded(t1, g, r, p), r); WellFormed(t', top1) && Inserted(t, t', p, r, g)
  {
    LeafKeepsShape(t1, top1, g, r, p);
    LeafGrown(t1, g, r, p);
    GrownTwiceInserted(t, top, t1, g, LeafAdded(t1, g, r, p), top1, r, p);
  }

  lemma GlueAndLeafInserted(t: Trie, top: Node?, parent: Node?, node: Node, g: Node, r: Node, p: Bits, c: Bits)
    requires WellFormed(t, top) && g !in t && r !in t && r != g
    requires FindSoFar(t, top, p, node, parent) && !(t[node].bits <= p)
    requires c == Common(t[node].bits, p) && c != p && Between(t, top, parent, node, c)
    ensures var t1, top1 := GlueAdded(t, parent, node, g, c), if parent == null then g else top;
      && r !in t1 && FreeLink(t1, top1, g, p)
      && var t' := Locked(LeafAdded(t1, g, r, p), r);
         WellFormed(t', top1) && Inserted(t, t', p, r, g)
  {
    var t1, top1 := GlueAdded(t, parent, node, g, c), if parent == null then g else top;
    GluePlaced(t, top, parent, node, g, p, c);
    GlueParent(t, top, parent, node, c);
    GlueGrown(t, parent, node, g, c);
    LeafBelowGlue(t, top, t1, top1, g, r, p);
  }

  /** The relinking part of bgp_node_delete, for a node with at most one child. */
  ghost function Unlinked(t: Trie, n: Node): Trie
    requires n in t
    requires t[n].parent != null ==> t[n].parent in t
    requires t[n].OnlyChild() != null ==> t[n].OnlyChild() in t
  {
    var child, parent := t[n].OnlyChild(), t[n].parent;
    var t1 := if child == null then t else t[child := t[child].(parent := parent)];
    var t2 := if parent == null then t1
              else if t1[parent].left == n then t1[parent := t1[parent].(left := child)]
              else t1[parent := t1[parent].(right := child)];
    t2 - {n}
  }

  lemma UnlinkFrame(t: Trie, top: Node?, n: Node)
    requires Shape(t, top) && n in t
    ensures var q := t[n].parent;
            q != null ==> q in t && q != n && t[q].bits < t[n].bits && t[q].Link(t[n].bits[|t[q].bits|]) == n
    ensures var c := t[n].OnlyChild(); c != null ==> c in t && c != n && t[n].bits < t[c].bits && t[c].parent == n
    ensures t[n].parent != null ==> t[n].parent != t[n].OnlyChild()
  {
    assert NodeOk(t, top, n);
    if t[n].parent != null { assert NodeOk(t, top, t[n].parent); }
  }

  /** What the relinking changed, cell by cell. */
  ghost predicate IsUnlinked(t: Trie, n: Node, t': Trie)
    requires n in t
  {
    var child, parent := t[n].OnlyChild(), t[n].parent;
    && t'.Keys == t.Keys - {n}
    && (forall m :: m in t' ==> t'[m].bits == t[m].bits)
    && (forall m :: m in t' ==> t'[m].parent == if m == child then parent else t[m].parent)
    && (forall m :: m in t' && m != parent ==> t'[m].left == t[m].left && t'[m].right == t[m].right)
    && (parent != null ==>
          && parent in t' && |t[parent].bits| < |t[n].bits|
          && var b := t[n].bits[|t[parent].bits|];
             t'[parent].Link(b) == child && t'[parent].Link(!b) == t[parent].Link(!b))
  }

  lemma UnlinkCells(t: Trie, top: Node?, n: Node)
    requires Shape(t, top) && n in t && (t[n].left == null || t[n].right == null)
    requires t[n].parent != null ==> t[n].parent in t
    requires t[n].OnlyChild() != null ==> t[n].OnlyChild() in t
    ensures IsUnlinked(t, n, Unlinked(t, n))
  {
    UnlinkFrame(t, top, n);
    assert t[n].parent != null ==> NodeOk(t, top, t[n].parent);
  }

  lemma UnlinkNodeOk(t: Trie, top: Node?, n: Node, t': Trie, m: Node)
    requires Shape(t, top) && n in t && (t[n].left == null || t[n].right == null)
    requires IsUnlinked(t, n, t') && m in t'
    ensures NodeOk(t', if t[n].parent == null then t[n].OnlyChild() else top, m)
  {
    UnlinkFrame(t, top, n);
    assert NodeOk(t, top, n) && NodeOk(t, top, m);
  }

  lemma UnlinkKeepsShape(t: Trie, top: Node?, n: Node)
    requires Shape(t, top) && n in t && (t[n].left == null || t[n].right == null)
    ensures t[n].parent != null ==> t[n].parent in t
    ensures t[n].OnlyChild() != null ==> t[n].OnlyChild() in t
    ensures Shape(Unlinked(t, n), if t[n].parent == null then t[n].OnlyChild() else top)
  {
    UnlinkFrame(t, top, n);
    UnlinkCells(t, top, n);
    var child, parent := t[n].OnlyChild(), t[n].parent;
    var t' := Unlinked(t, n);
    var top' := if parent == null then child else top;
    forall m | m in t' ensures NodeOk(t', top', m) {
      UnlinkNodeOk(t, top, n, t', m);
    }
    TopIsPrefix(t, top, n);
    assert NodeOk(t, top, n);
    if top' == null {
      forall m | m in t ensures m == n { TopIsPrefix(t, top, m); Descend(t, top, n, m); }
      assert t' == map[];
    } else {
      assert top' in t' && t'[top'].parent == null;
    }
  }

  // ---- What bgp_node_delete and bgp_unlock_node leave behind ----

  /** The nodes the delete cascade removes: the node itself unless it joins two subtrees, and,
      when it was a leaf, its parent if that was glue. */
  ghost function Removed(t: Trie, n: Node): set<Node>
    requires n in t
  {
    var q := t[n].parent;
    if t[n].left != null && t[n].right != null then {}
    else if t[n].OnlyChild() == null && q != null && q in t && t[q].lock == 0 then {n, q}
    else {n}
  }

  /** Exactly those are gone and nothing else changed but links. */
  ghost predicate Cascaded(t: Trie, t': Trie, n: Node)
    requires n in t
  {
    && t'.Keys == t.Keys - Removed(t, n)
    && (Removed(t, n) == {} ==> t' == t)
    && forall m :: m in t' ==> t'[m].bits == t[m].bits && t'[m].lock == t[m].lock && t'[m].info == t[m].info
  }

  /** Well-formed but for node n, which nobody holds any more. */
  ghost predicate Dangling(t: Trie, top: Node?, n: Node) {
    && Shape(t, top) && n in t && t[n].lock == 0 && t[n].info == None
    && forall m {:trigger GlueOk(t, m)} :: m in t && m != n ==> GlueOk(t, m)
  }

  lemma UnlinkLinks(t: Trie, top: Node?, n: Node, t': Trie)
    requires Dangling(t, top, n) && (t[n].left == null || t[n].right == null)
    requires t[n].parent != null ==> t[n].parent in t
    requires t[n].OnlyChild() != null ==> t[n].OnlyChild() in t
    requires t' == Unlinked(t, n)
    ensures t'.Keys == t.Keys - {n}
    ensures forall m :: m in t' ==> t'[m].bits == t[m].bits && t'[m].lock == t[m].lock && t'[m].info == t[m].info
    ensures forall m :: m in t' && m != t[n].parent ==> GlueOk(t', m)
  {
    UnlinkCells(t, top, n);
    forall m | m in t' && m != t[n].parent ensures GlueOk(t', m) { assert GlueOk(t, m); }
  }

  /** One round of the cascade: either the trie is well-formed again, or exactly the parent dangles. */
  lemma UnlinkStep(t: Trie, top: Node?, n: Node, t': Trie, top': Node?)
    requires Dangling(t, top, n) && (t[n].left == null || t[n].right == null)
    requires t[n].parent != null ==> t[n].parent in t
    requires t[n].OnlyChild() != null ==> t[n].OnlyChild() in t
    requires t' == Unlinked(t, n) && top' == if t[n].parent == null then t[n].OnlyChild() else top
    ensures var q := t[n].parent;
      if q != null && t[q].lock == 0 then
        && Dangling(t', top', q) && |t[q].bits| < |t[n].bits|
        && Removed(t, n) == {n} + Removed(t', q) && t'.Keys == t.Keys - {n}
        && forall m :: m in t' ==> t'[m].bits == t[m].bits && t'[m].lock == t[m].lock && t'[m].info == t[m].info
      else WellFormed(t', top') && Cascaded(t, t', n)
  {
    UnlinkKeepsShape(t, top, n);
    UnlinkLinks(t, top, n, t');
    UnlinkFrame(t, top, n);
    UnlinkCells(t, top, n);
    var q := t[n].parent;
    if q != null {
      assert GlueOk(t, q);
      assert NodeOk(t, top, q);
      if t[q].lock == 0 {
        assert Removed(t, n) == {n} + Removed(t', q);
      }
    }
  }

  lemma CascadeTwice(t: Trie, n: Node, t1: Trie, q: Node, t2: Trie)
    requires n in t && q in t1 && Cascaded(t1, t2, q)
    requires Removed(t, n) == {n} + Removed(t1, q) && t1.Keys == t.Keys - {n}
    requires forall m :: m in t1 ==> t1[m].bits == t[m].bits && t1[m].lock == t[m].lock && t1[m].info == t[m].info
    ensures Cascaded(t, t2, n)
  {
  }

  ghost function Released(t: Trie, n: Node): Trie
    requires n in t && t[n].lock > 0
  {
    t[n := t[n].(lock := t[n].lock - 1)]
  }

  /** bgp_unlock_node: one lock less; if it was the last, the cascade. */
  ghost predicate Unlocked(t: Trie, t': Trie, n: Node) {
    && n in t && t[n].lock > 0
    && if t[n].lock > 1 then t' == Released(t, n) else Cascaded(Released(t, n), t', n)
  }

  lemma ReleaseKeeps(t: Trie, top: Node?, n: Node)
    requires WellFormed(t, top) && n in t && t[n].lock > 0 && (t[n].lock == 1 ==> t[n].info == None)
    ensures t[n].lock > 1 ==> WellFormed(Released(t, n), top)
    ensures t[n].lock == 1 ==> Dangling(Released(t, n), top, n)
  {
    var t' := Released(t, n);
    SameLinksSameShape(t, t', top);
    forall m | m in t' && m != n ensures GlueOk(t', m) { assert GlueOk(t, m); }
    assert t[n].lock > 1 ==> GlueOk(t', n);
  }

  lemma UnlockedRoutes(t: Trie, t': Trie, n: Node)
    requires Unlocked(t, t', n) && (t[n].lock == 1 ==> t[n].info == None)
    requires var q := t[n].parent; q != null && q in t && t[q].lock == 0 ==> t[q].info == None
    ensures Routes(t') == Routes(t)
  {
    RoutesKept(t, t');
  }

  // ---- Pre-order successor ----

  /** next is the first node after `start` in pre-order among those below `limit`. */
  ghost predicate IsNext(t: Trie, limit: Bits, start: Node, next: Node?)
    requires start in t
  {
    if next == null then
      forall m :: m in t && limit <= t[m].bits ==> !Before(t[start].bits, t[m].bits)
    else
      && next in t && limit <= t[next].bits && Before(t[start].bits, t[next].bits)
      && forall m :: m in t && limit <= t[m].bits && Before(t[start].bits, t[m].bits) ==>
           m == next || Before(t[next].bits, t[m].bits)
  }

  /** Nothing at or below cur comes after start. */
  ghost predicate NoneAfter(t: Trie, start: Node, cur: Node)
    requires start in t && cur in t
  {
    && t[cur].bits <= t[start].bits
    && forall m :: m in t && t[cur].bits <= t[m].bits ==> !Before(t[start].bits, t[m].bits)
  }

  /** A node with children is followed by its first child. */
  lemma NextIsChild(t: Trie, top: Node?, limit: Bits, n: Node)
    requires Shape(t, top) && n in t && limit <= t[n].bits && t[n].OnlyChild() != null
    ensures IsNext(t, limit, n, t[n].OnlyChild())
  {
    var c := t[n].OnlyChild();
    assert NodeOk(t, top, n);
    BeforeExtension(t[n].bits, t[c].bits);
    forall m | m in t && Before(t[n].bits, t[m].bits)
      ensures m == c || Before(t[c].bits, t[m].bits)
    {
      BeforeIrreflexive(t[n].bits);
      if t[n].bits <= t[m].bits {
        Descend(t, top, n, m);
        if t[c].bits <= t[m].bits {
          Descend(t, top, c, m);
          if m != c { BeforeExtension(t[c].bits, t[m].bits); }
        } else {
          BeforeSides(t[n].bits, t[c].bits, t[m].bits);
        }
      } else {
        BeforeOutside(t[n].bits, t[n].bits, t[m].bits, t[c].bits);
      }
    }
  }

  lemma LeafNoneAfter(t: Trie, top: Node?, n: Node)
    requires Shape(t, top) && n in t && t[n].left == null && t[n].right == null
    ensures NoneAfter(t, n, n)
  {
    BeforeIrreflexive(t[n].bits);
    forall m | m in t && t[n].bits <= t[m].bits ensures m == n { Descend(t, top, n, m); }
  }

  /** The climb passes a parent that has nothing left to visit on its 1 side. */
  lemma ClimbStep(t: Trie, top: Node?, start: Node, cur: Node)
    requires Shape(t, top) && start in t && cur in t && NoneAfter(t, start, cur)
    requires t[cur].parent != null && t[cur].parent in t
    requires !(t[t[cur].parent].left == cur && t[t[cur].parent].right != null)
    ensures NoneAfter(t, start, t[cur].parent)
  {
    var q := t[cur].parent;
    assert NodeOk(t, top, cur) && NodeOk(t, top, q);
    forall m | m in t && t[q].bits <= t[m].bits
      ensures !Before(t[start].bits, t[m].bits)
    {
      Descend(t, top, q, m);
      BeforeTotal(t[start].bits, t[m].bits);
      if m == q {
        BeforeExtension(t[q].bits, t[start].bits);
      } else if !(t[cur].bits <= t[m].bits) {
        BeforeSides(t[q].bits, t[m].bits, t[start].bits);
      }
    }
  }

  /** Coming up from the 0 side, the node on the 1 side is next. */
  lemma NextIsSibling(t: Trie, top: Node?, limit: Bits, start: Node, cur: Node)
    requires Shape(t, top) && start in t && cur in t && NoneAfter(t, start, cur)
    requires t[cur].parent != null && t[cur].parent in t && limit <= t[t[cur].parent].bits
    requires t[t[cur].parent].left == cur && t[t[cur].parent].right != null
    ensures IsNext(t, limit, start, t[t[cur].parent].right)
  {
    var q := t[cur].parent;
    var next := t[q].right;
    assert NodeOk(t, top, cur) && NodeOk(t, top, q);
    BeforeSides(t[q].bits, t[start].bits, t[next].bits);
    forall m | m in t && Before(t[start].bits, t[m].bits)
      ensures m == next || Before(t[next].bits, t[m].bits)
    {
      if t[q].bits <= t[m].bits {
        Descend(t, top, q, m);
        BeforeTotal(t[start].bits, t[m].bits);
        if m == q {
          BeforeExtension(t[q].bits, t[start].bits);
        } else {
          assert t[next].bits <= t[m].bits;
          Descend(t, top, next, m);
          if m != next { BeforeExtension(t[next].bits, t[m].bits); }
        }
      } else {
        BeforeOutside(t[q].bits, t[start].bits, t[m].bits, t[next].bits);
      }
    }
  }

  /** At the top, or at limit, there is nothing left. */
  lemma NextIsNone(t: Trie, top: Node?, limit: Bits, start: Node, cur: Node)
    requires Shape(t, top) && start in t && cur in t && NoneAfter(t, start, cur)
    requires t[cur].parent == null || t[cur].bits == limit
    ensures IsNext(t, limit, start, null)
  {
    assert NodeOk(t, top, cur);
    forall m | m in t && limit <= t[m].bits ensures t[cur].bits <= t[m].bits {
      TopIsPrefix(t, top, m);
    }
  }

  /** Prefix of the walk's limit; no limit is the empty prefix, which covers everything. */
  function LimitBits(limit: Node?): Bits {
    if limit == null then [] else limit.p.bits
  }

  // ---- The table ----

  class Table {
    var top: Node?
    ghost var t: Trie    // the nodes of this table and what their fields hold

    ghost predicate Synced()
      reads this, t.Keys
    {
      forall n :: n in t ==> n.Fields() == t[n]
    }

    ghost predicate Valid()
      reads this, t.Keys
    {
      Synced() && WellFormed(t, top)
    }

    /** bgp_table_init */
    constructor ()
      ensures Valid() && t == map[]
    {
      top, t := null, map[];
    }

    /** prefix_match together with the length test that guards it */
    predicate Matches(n: Node, p: Prefix) {
      |n.p.bits| <= |p.bits| && n.p.bits <= p.bits
    }

    /** Distance left on a downward walk towards p. */
    ghost function Ahead(node: Node?, p: Prefix): nat {
      if node == null || |node.p.bits| > |p.bits| then 0 else 1 + |p.bits| - |node.p.bits|
    }

    /** bgp_lock_node */
    method Lock(n: Node)
      requires Synced() && n in t
      modifies n`lock, this`t
      ensures Synced() && t == Locked(old(t), n)
    {
      n.lock := n.lock + 1;
      t := Locked(t, n);
    }

    /** set_link */
    method SetLink(node: Node, child: Node)
      requires Synced() && node in t && child in t && node != child
      modifies node`left, node`right, child`parent, this`t
      ensures Synced() && t == Linked(old(t), node, CheckBit(child.p, |node.p.bits|), child)
    {
      if CheckBit(child.p, |node.p.bits|) {
        node.right := child;
      } else {
        node.left := child;
      }
      child.parent := node;
      t := Linked(t, node, CheckBit(child.p, |node.p.bits|), child);
    }

    /** bgp_node_create / bgp_node_set, not linked yet */
    method Create(p: Prefix) returns (r: Node)
      requires Synced()
      modifies this`t
      ensures fresh(r) && r.p == p
      ensures Synced() && r !in old(t) && t == old(t)[r := NewCell(p.bits)]
    {
      r := new Node(p);
      assert r !in t;
      t := t[r := NewCell(p.bits)];
    }

    method AddLeaf(parent: Node?, p: Prefix) returns (r: Node)
      requires Synced() && FreeLink(t, top, parent, p.bits)
      modifies this, if parent == null then {} else {parent}
      ensures fresh(r) && r.p == p && r !in old(t)
      ensures Synced() && t == LeafAdded(old(t), parent, r, p.bits)
      ensures top == if parent == null then r else old(top)
    {
      r := Create(p);
      if parent != null {
        assert CheckBit(r.p, |parent.p.bits|) == p.bits[|old(t)[parent].bits|];
        SetLink(parent, r);
      } else {
        top := r;
      }
    }

    /** The glue branch of bgp_node_get: a node with the common prefix, put between parent and node.
        route_common reads node's whole address, host bits included. */
    method AddGlue(parent: Node?, node: Node, p: Prefix) returns (g: Node)
      requires Synced() && node in t && node != parent && !(node.p.bits <= p.bits)
      requires parent != null ==> parent in t && |parent.p.bits| < |Common(node.p.bits, p.bits)|
      modifies this, node, if parent == null then {} else {parent}
      ensures fresh(g) && g.p.bits == Common(node.p.bits, p.bits) && g !in old(t)
      ensures Synced() && t == GlueAdded(old(t), parent, node, g, g.p.bits)
      ensures top == if parent == null then g else old(top)
    {
      ghost var c := Common(node.p.bits, p.bits);
      CommonOfAddress(node.p, p);
      g := Create(Prefix(Common(node.p.bits + node.p.host, p.bits), []));
      assert CheckBit(node.p, |g.p.bits|) == old(t)[node].bits[|c|];
      SetLink(g, node);
      if parent != null {
        assert CheckBit(g.p, |parent.p.bits|) == c[|old(t)[parent].bits|];
        SetLink(parent, g);
      } else {
        top := g;
      }
    }

    /** The walk of bgp_node_match. */
    method FindMatch(p: Prefix) returns (r: Node?)
      requires Valid()
      ensures IsLongestMatch(t, p.bits, r)
    {
      r := null;
      var node := top;
      MatchStart(t, top, p.bits);
      while node != null && Matches(node, p)
        invariant MatchSoFar(t, p.bits, node, r)
        decreases Ahead(node, p)
      {
        MatchStep(t, top, p, node, r);
        assert NodeOk(t, top, node);
        if node.info != None {
          r := node;
        }
        node := node.Link(CheckBit(p, |node.p.bits|));
      }
    }

    /** bgp_node_match: the longest prefix with routes that covers p, locked for the caller. */
    method Match(p: Prefix) returns (r: Node?)
      requires Valid()
      modifies this`t, t.Keys`lock
      ensures Valid()
      ensures IsLongestMatch(old(t), p.bits, r)
      ensures t == if r == null then old(t) else Locked(old(t), r)
    {
      r := FindMatch(p);
      if r != null {
        LockKeeps(t, top, r);
        Lock(r);
      }
    }

    /** bgp_node_lookup: the node with routes at exactly p, as the flat map has it. */
    method Lookup(p: Prefix) returns (r: Node?)
      requires Valid()
      modifies this`t, t.Keys`lock
      ensures Valid()
      ensures r == null <==> forall i :: (p.bits, i) !in Routes(old(t))
      ensures r != null ==>
        r in old(t) && r.p.bits == p.bits && r.info.Some? && (p.bits, r.info.value) in Routes(old(t))
      ensures t == if r == null then old(t) else Locked(old(t), r)
    {
      var node := top;
      LookStart(t, top, p.bits);
      while node != null && Matches(node, p) && !(|node.p.bits| == |p.bits| && node.info != None)
        modifies {}
        invariant LookSoFar(t, p.bits, node)
        decreases Ahead(node, p)
      {
        LookStep(t, top, p, node);
        assert NodeOk(t, top, node);
        node := node.Link(CheckBit(p, |node.p.bits|));
      }
      if node != null && Matches(node, p) {
        assert t[node].bits == p.bits && (p.bits, t[node].info.value) in Routes(t);
        LockKeeps(t, top, node);
        Lock(node);
        return node;
      }
      return null;
    }

    /** The downward walk of bgp_node_get. */
    method FindPlace(p: Prefix) returns (node: Node?, parent: Node?)
      requires Valid()
      ensures FindSoFar(t, top, p.bits, node, parent)
      ensures node != null && Matches(node, p) ==> node.p.bits == p.bits
    {
      parent, node := null, top;
      FindStart(t, top, p.bits);
      while node != null && Matches(node, p) && |node.p.bits| != |p.bits|
        invariant FindSoFar(t, top, p.bits, node, parent)
        decreases Ahead(node, p)
      {
        FindStep(t, top, p, node, parent);
        assert NodeOk(t, top, node);
        parent := node;
        node := node.Link(CheckBit(p, |node.p.bits|));
      }
    }

    /** The node == NULL branch of bgp_node_get, up to the final lock. */
    method InsertLeaf(parent: Node?, p: Prefix) returns (r: Node)
      requires Valid() && FindSoFar(t, top, p.bits, null, parent)
      modifies this, if parent == null then {} else {parent}
      ensures fresh(r) && r in t && Synced()
      ensures WellFormed(Locked(t, r), top)
      ensures Inserted(old(t), Locked(t, r), p.bits, r, r)
    {
      r := AddLeaf(parent, p);
      LeafInserted(old(t), old(top), parent, r, p.bits);
    }

    /** The other branch: split the edge to node with a glue node for the common prefix,
        which is itself the node for p when node lies below p. */
    method InsertGlue(node: Node, parent: Node?, p: Prefix) returns (r: Node, ghost g: Node)
      requires Valid() && FindSoFar(t, top, p.bits, node, parent) && !(node.p.bits <= p.bits)
      modifies this, node, if parent == null then {} else {parent}
      ensures fresh(r) && fresh(g) && r in t && Synced()
      ensures WellFormed(Locked(t, r), top)
      ensures Inserted(old(t), Locked(t, r), p.bits, r, g)
    {
      ghost var t0, top0 := t, top;
      PlaceGlue(t, top, parent, node, p.bits);
      GlueParent(t, top, parent, node, Common(node.p.bits, p.bits));
      r := AddGlue(parent, node, p);
      g := r;
      if |r.p.bits| != |p.bits| {
        GluePlaced(t0, top0, parent, node, g, p.bits, g.p.bits);
        r := AddLeaf(r, p);
        GlueAndLeafInserted(t0, top0, parent, node, g, r, p.bits, g.p.bits);
      } else {
        GlueInserted(t0, top0, parent, node, g, p.bits);
      }
    }

    /** bgp_node_get up to the final lock. */
    method FindOrInsert(p: Prefix) returns (r: Node, ghost g: Node)
      requires Valid()
      modifies this, t.Keys
      ensures Synced() && r in t
      ensures WellFormed(Locked(t, r), top)
      ensures Inserted(old(t), Locked(t, r), p.bits, r, g)
      ensures r !in old(t) ==> fresh(r) && fresh(g)
    {
      var node, parent := FindPlace(p);
      if node == null {
        r := InsertLeaf(parent, p);
        g := r;
      } else if Matches(node, p) {
        LockKeeps(t, top, node);
        r, g := node, node;
      } else {
        r, g := InsertGlue(node, parent, p);
      }
    }

    /** bgp_node_get: find or add the node for p. */
    method Get(p: Prefix) returns (r: Node, ghost g: Node)
      requires Valid()
      modifies this, t.Keys
      ensures Valid()
      ensures Inserted(old(t), t, p.bits, r, g)
      ensures Routes(t) == Routes(old(t))
      ensures r !in old(t) ==> fresh(r) && fresh(g)
    {
      r, g := FindOrInsert(p);
      Lock(r);
      InsertedRoutes(old(t), old(top), t, p.bits, r, g);
    }

    // ---- Removal ----

    /** The relinking of bgp_node_delete. */
    method Unlink(node: Node)
      requires Synced() && Shape(t, top) && node in t && (node.left == null || node.right == null)
      modifies this, t.Keys
      ensures Synced()
      ensures old(t)[node].parent != null ==> old(t)[node].parent in old(t)
      ensures old(t)[node].OnlyChild() != null ==> old(t)[node].OnlyChild() in old(t)
      ensures t == Unlinked(old(t), node)
      ensures top == if old(t)[node].parent == null then old(t)[node].OnlyChild() else old(top)
    {
      UnlinkFrame(t, top, node);
      Relink(node, if node.left != null then node.left else node.right, node.parent);
    }

    /** The pointer changes: the child takes the place of the node below its parent, or at the top. */
    method Relink(node: Node, child: Node?, parent: Node?)
      requires Synced() && node in t && child == t[node].OnlyChild() && parent == t[node].parent
      requires (child != null ==> child in t && child != node) && (parent != null ==> parent in t && parent != node)
      requires parent != null ==> parent != child
      modifies this, t.Keys
      ensures Synced() && t == Unlinked(old(t), node)
      ensures top == if parent == null then child else old(top)
    {
      if child != null {
        child.parent := parent;
      }
      if parent != null {
        if parent.left == node {
          parent.left := child;
        } else {
          parent.right := child;
        }
      } else {
        top := child;
      }
      t := Unlinked(t, node);
    }

    /** bgp_node_delete */
    method Delete(node: Node)
      requires Synced() && Dangling(t, top, node)
      modifies this, t.Keys
      ensures Valid() && Cascaded(old(t), t, node)
      decreases |node.p.bits|
    {
      if node.left != null && node.right != null {
        assert GlueOk(t, node);
        return;
      }
      var parent := node.parent;
      ghost var t0, top0 := t, top;
      Unlink(node);
      UnlinkStep(t0, top0, node, t, top);
      if parent != null && parent.lock == 0 {
        ghost var t1 := t;
        Delete(parent);
        CascadeTwice(t0, node, t1, parent, t);
      }
    }

    /** bgp_unlock_node */
    method Unlock(node: Node)
      requires Valid() && node in t && node.lock > 0
      requires node.lock == 1 ==> node.info == None
      modifies this, t.Keys
      ensures Valid() && Unlocked(old(t), t, node)
      ensures Routes(t) == Routes(old(t))
    {
      ReleaseKeeps(t, top, node);
      assert NodeOk(t, top, node) && forall q :: q == t[node].parent && q in t ==> GlueOk(t, q);
      node.lock := node.lock - 1;
      t := Released(t, node);
      if node.lock == 0 {
        Delete(node);
      }
      UnlockedRoutes(old(t), t, node);
    }

    /** bgp_info_add / bgp_info_delete as the table sees them: the holder of a node sets its routes. */
    method SetInfo(node: Node, info: Option<Info>)
      requires Valid() && node in t && node.lock > 0
      modifies this`t, node`info
      ensures Valid() && t == old(t)[node := old(t)[node].(info := info)]
      ensures forall b: Bits, i: Info :: (b, i) in Routes(t) <==>
        if b == node.p.bits then info == Some(i) else (b, i) in Routes(old(t))
    {
      ghost var t0 := t;
      node.info := info;
      t := t[node := t[node].(info := info)];
      InfoKeeps(t0, top, node, info);
    }

    // ---- Walking the whole table ----

    /** The pointer chase of bgp_route_next (limit == null) and bgp_route_next_until. */
    method FindNext(node: Node, limit: Node?) returns (next: Node?)
      requires Valid() && node in t
      requires limit != null ==> limit in t && limit.p.bits <= node.p.bits
      ensures IsNext(t, LimitBits(limit), node, next)
    {
      if node.left != null {
        NextIsChild(t, top, LimitBits(limit), node);
        return node.left;
      }
      if node.right != null {
        NextIsChild(t, top, LimitBits(limit), node);
        return node.right;
      }
      LeafNoneAfter(t, top, node);
      var cur := node;
      while cur.parent != null && cur != limit
        invariant cur in t && NoneAfter(t, node, cur) && LimitBits(limit) <= cur.p.bits
        decreases |cur.p.bits|
      {
        if limit != null {
          BelowLimit(t, top, limit, cur);
        }
        assert NodeOk(t, top, cur) && NodeOk(t, top, t[cur].parent);
        if cur.parent.left == cur && cur.parent.right != null {
          NextIsSibling(t, top, LimitBits(limit), node, cur);
          return cur.parent.right;
        }
        ClimbStep(t, top, node, cur);
        cur := cur.parent;
      }
      NextIsNone(t, top, LimitBits(limit), node, cur);
      return null;
    }

    /** bgp_route_next and bgp_route_next_until: lock the next node, then unlock this one,
        which may delete it. */
    method Next(node: Node, limit: Node?) returns (next: Node?)
      requires Valid() && node in t && node.lock > 0
      requires node.lock == 1 ==> node.info == None
      requires limit != null ==> limit in t && limit.p.bits <= node.p.bits
      modifies this, t.Keys
      ensures Valid()
      ensures IsNext(old(t), LimitBits(limit), node, next)
      ensures Unlocked(if next == null then old(t) else Locked(old(t), next), t, node)
    {
      next := FindNext(node, limit);
      BeforeIrreflexive(node.p.bits);
      if next != null {
        LockKeeps(t, top, next);
        Lock(next);
      }
      Unlock(node);
    }

    /** One round of a walk over the table t0: the walk's lock moves from cur to the next node. */
    method WalkOnce(ghost t0: Trie, limit: Node?, ghost visited: seq<Node>, cur: Node) returns (next: Node?)
      requires Valid() && cur in t0 && t == Locked(t0, cur) && GlueOk(t0, cur)
      requires limit != null ==> limit in t
      requires WalkSoFar(t0, LimitBits(limit), visited, cur)
      modifies this, t.Keys
      ensures Valid() && top == old(top)
      ensures WalkSoFar(t0, LimitBits(limit), visited + [cur], next)
      ensures t == if next == null then t0 else Locked(t0, next)
    {
      next := Next(cur, limit);
      NextIgnoresLocks(t0, LimitBits(limit), cur, next);
      BeforeIrreflexive(cur.p.bits);
      StepRestores(t0, old(top), cur, next, t, top);
      WalkStep(t0, LimitBits(limit), visited, cur, next);
    }

    /** A loop over bgp_table_top / bgp_route_next, or over bgp_route_next_until from limit:
        every node (of limit's subtree) once, in pre-order, and the table as it was. */
    method Walk(limit: Node?) returns (visited: seq<Node>)
      requires Valid() && (limit != null ==> limit in t)
      modifies this, t.Keys
      ensures Valid() && t == old(t) && top == old(top)
      ensures forall n :: n in visited <==> n in t && LimitBits(limit) <= n.p.bits
      ensures Ascending(visited)
    {
      ghost var t0 := t;
      visited := [];
      var node := if limit == null then top else limit;
      if node == null {
        return;
      }
      WalkStart(t0, top, limit, node);
      LockKeeps(t0, top, node);
      Lock(node);
      ghost var left := t0.Keys;
      while node != null
        invariant Valid() && top == old(top)
        invariant WalkSoFar(t0, LimitBits(limit), visited, node)
        invariant t == if node == null then t0 else Locked(t0, node)
        invariant left == t0.Keys - set n | n in visited
        decreases left
      {
        var cur: Node := node;
        VisitedOnce(t0, LimitBits(limit), visited, cur);
        assert GlueOk(t0, cur);
        node := WalkOnce(t0, limit, visited, cur);
        left := left - {cur};
        visited := visited + [cur];
      }
    }
  }

  /** route_common on the whole address of n gives the common prefix of n and p proper
      whenever n does not cover p, which is the only case bgp_node_get calls it in. */
  lemma CommonOfAddress(n: Prefix, p: Prefix)
    requires !(n.bits <= p.bits)
    ensures Common(n.bits + n.host, p.bits) == Common(n.bits, p.bits)
  {
    var k := CommonLen(n.bits, p.bits);
    assert k < |n.bits|;
    assert (n.bits + n.host)[..k] == n.bits[..k];
    CommonLenIs(n.bits + n.host, p.bits, k);
  }

  /** The common prefix of two prefixes below the same link is below that link. */
  lemma CommonBelow(a: Bits, n: Bits, p: Bits)
    requires a < n && a < p && n[|a|] == p[|a|]
    ensures a < Common(n, p) && Common(n, p)[|a|] == p[|a|]
  {
    var k := CommonLen(n, p);
    assert n[..|a|] == p[..|a|];
    assert forall i :: 0 <= i < |a| ==> n[i] == p[i];
    assert k > |a|;
  }

  lemma PlaceGlue(t: Trie, top: Node?, parent: Node?, node: Node, p: Bits)
    requires Shape(t, top) && FindSoFar(t, top, p, node, parent) && !(t[node].bits <= p)
    ensures Between(t, top, parent, node, Common(t[node].bits, p))
    ensures forall m :: m in t ==> t[m].bits != p
  {
    if parent != null {
      assert NodeOk(t, top, parent);
      CommonBelow(t[parent].bits, t[node].bits, p);
    }
  }

  // ---- Walks ----

  ghost predicate Ascending(s: seq<Node>) {
    forall i, j :: 0 <= i < j < |s| ==> Before(s[i].p.bits, s[j].p.bits)
  }

  /** Visited so far: ascending, all before `node`; everything else in the subtree is still to come. */
  ghost predicate WalkSoFar(t: Trie, limit: Bits, visited: seq<Node>, node: Node?) {
    && (forall n :: n in t ==> t[n].bits == n.p.bits)
    && Ascending(visited)
    && (forall n :: n in visited ==> n in t && limit <= n.p.bits)
    && (node != null ==>
          node in t && limit <= node.p.bits && forall n :: n in visited ==> Before(n.p.bits, node.p.bits))
    && forall m :: m in t && limit <= m.p.bits ==>
         m in visited || (node != null && (m == node || Before(node.p.bits, m.p.bits)))
  }

  lemma WalkStart(t: Trie, top: Node?, limit: Node?, node: Node)
    requires Shape(t, top) && node in t && (forall n :: n in t ==> t[n].bits == n.p.bits)
    requires node == if limit == null then top else limit
    ensures WalkSoFar(t, LimitBits(limit), [], node)
  {
    forall m | m in t && LimitBits(limit) <= m.p.bits ensures m == node || Before(node.p.bits, m.p.bits) {
      TopIsPrefix(t, top, m);
      Descend(t, top, node, m);
      if m != node { BeforeExtension(node.p.bits, m.p.bits); }
    }
  }

  lemma WalkStep(t: Trie, limit: Bits, visited: seq<Node>, cur: Node, next: Node?)
    requires cur in t && WalkSoFar(t, limit, visited, cur) && IsNext(t, limit, cur, next)
    ensures WalkSoFar(t, limit, visited + [cur], next)
  {
    var visited' := visited + [cur];
    if next != null {
      forall n | n in visited' ensures Before(n.p.bits, next.p.bits) {
        if n != cur { BeforeTransitive(n.p.bits, cur.p.bits, next.p.bits); }
      }
    }
    forall m | m in t && limit <= m.p.bits
      ensures m in visited' || (next != null && (m == next || Before(next.p.bits, m.p.bits)))
    {
      if m in visited { assert m in visited'; } else if m == cur { assert visited'[|visited|] == cur; }
    }
  }

  /** Climbing inside the subtree of limit. */
  lemma BelowLimit(t: Trie, top: Node?, limit: Node, cur: Node)
    requires Shape(t, top) && limit in t && cur in t && cur != limit && t[limit].bits <= t[cur].bits
    requires t[cur].parent != null
    ensures t[cur].parent in t && t[limit].bits <= t[t[cur].parent].bits
  {
    var q := t[cur].parent;
    assert NodeOk(t, top, cur) && NodeOk(t, top, q);
    PrefixesComparable(t[limit].bits, t[q].bits, t[cur].bits);
    Descend(t, top, limit, cur);
    if t[q].bits < t[limit].bits {
      Descend(t, top, q, limit);
    }
  }

  lemma NextIgnoresLocks(t: Trie, limit: Bits, cur: Node, next: Node?)
    requires cur in t && IsNext(Locked(t, cur), limit, cur, next)
    ensures IsNext(t, limit, cur, next)
  {
    var t' := Locked(t, cur);
    assert forall m :: m in t <==> m in t';
    assert forall m :: m in t ==> t'[m].bits == t[m].bits;
  }

  /** Locking the next node and unlocking the current one moves the walk's lock and nothing else. */
  lemma StepRestores(t: Trie, top: Node?, cur: Node, next: Node?, t': Trie, top': Node?)
    requires cur in t && GlueOk(t, cur) && (next != null ==> next in t && next != cur)
    requires var t1 := Locked(t, cur); Unlocked(if next == null then t1 else Locked(t1, next), t', cur)
    requires Shape(Locked(t, cur), top) && Shape(t', top')
    ensures t' == if next == null then t else Locked(t, next)
    ensures top' == top
  {
    var t1 := Locked(t, cur);
    var t2 := if next == null then t1 else Locked(t1, next);
    var t3 := if next == null then t else Locked(t, next);
    assert Released(t2, cur) == t3;
    assert Removed(t3, cur) == {} || t[cur].lock > 0;
    assert t' == t3;
    assert NodeOk(t1, top, top');
  }

  lemma VisitedOnce(t: Trie, limit: Bits, visited: seq<Node>, node: Node)
    requires WalkSoFar(t, limit, visited, node)
    ensures node in t && node !in visited
  {
    BeforeIrreflexive(node.p.bits);
  }
}
