/** Hash-consing of path attributes and of their shared parts, with reference counts
    (bgpd/bgp_attr.c, bgpd/bgp_aspath.c, bgpd/bgp_community.c). */
module AttrIntern {
  import opened Wrappers

  datatype Kind = AsPathPart | CommunityPart | EcommunityPart | ClusterPart | TransitPart

  /** The value of a part, in the units that its key function adds up. */
  type Content = seq<int>

  /** Addresses of parts and of attributes. */
  type PartId = nat
  type AttrId = nat

  /** An interned part; a part is in its hash table exactly as long as it is in the heap. */
  datatype Part = Part(kind: Kind, content: Content, refcnt: nat)

  /** The members of struct attr that attrhash_cmp compares by value. */
  datatype Fields = Fields(
    flag: nat, origin: nat, nexthop: nat, med: nat, localPref: nat, aggregatorAs: nat, aggregatorAddr: nat, weight: nat,
    mpNexthopLen: nat, mpNexthopGlobal: seq<int>, mpNexthopLocal: seq<int>, mpNexthopGlobalIn: nat)

  /** The members that it does not look at. */
  datatype Uncompared = Uncompared(originatorId: nat, mpNexthopLocalIn: nat)

  /** struct attr; a kind without a reference is a NULL pointer. */
  datatype Attr = Attr(fields: Fields, uncompared: Uncompared, refs: map<Kind, PartId>)

  /** An entry of the attribute hash table: the object, its reference count and the key of its bucket. */
  datatype Entry = Entry(id: AttrId, attr: Attr, refcnt: nat, key: nat)

  /** All tables; `direct` counts the references to parts that no interned attribute holds. */
  datatype State = State(parts: map<PartId, Part>, attrs: seq<Entry>, next: nat, direct: multiset<PartId>)

  // ---------------------------------------------------------------- comparing and hashing

  /** attrhash_cmp: parts are compared by address. */
  predicate Cmp(a: Attr, b: Attr) {
    a.fields == b.fields && a.refs == b.refs
  }

  function Sum(s: seq<int>): int {
    if s == [] then 0 else s[0] + Sum(s[1..])
  }

  function PartKey(parts: map<PartId, Part>, a: Attr, k: Kind): int {
    if k in a.refs && a.refs[k] in parts then Sum(parts[a.refs[k]].content) else 0
  }

  /** attrhash_key_make, in 32-bit arithmetic. */
  function Key(parts: map<PartId, Part>, a: Attr): nat {
    var f := a.fields;
    (f.origin + f.nexthop + f.med + f.localPref + f.aggregatorAs + f.aggregatorAddr + f.weight + f.mpNexthopGlobalIn
     + PartKey(parts, a, AsPathPart) + PartKey(parts, a, CommunityPart) + PartKey(parts, a, EcommunityPart)
     + PartKey(parts, a, ClusterPart) + PartKey(parts, a, TransitPart)
     + f.mpNexthopLen + Sum(f.mpNexthopGlobal) + Sum(f.mpNexthopLocal)) % 0x1_0000_0000
  }

  /** Every reference is to a part of its kind. */
  predicate RefsLive(parts: map<PartId, Part>, a: Attr) {
    forall k | k in a.refs :: a.refs[k] in parts && parts[a.refs[k]].kind == k
  }

  /** The attributes have the same parts by content. */
  predicate SameContents(parts: map<PartId, Part>, a: Attr, b: Attr)
    requires RefsLive(parts, a) && RefsLive(parts, b)
  {
    && a.refs.Keys == b.refs.Keys
    && forall k | k in a.refs :: parts[a.refs[k]].content == parts[b.refs[k]].content
  }

  /** No content is stored twice. */
  predicate Unique(parts: map<PartId, Part>) {
    forall i, j | i in parts && j in parts
      && parts[i].kind == parts[j].kind && parts[i].content == parts[j].content :: i == j
  }

  /** On interned parts, comparing addresses is comparing contents, and equal attributes have equal keys. */
  lemma CmpMeans(parts: map<PartId, Part>, a: Attr, b: Attr)
    requires Unique(parts) && RefsLive(parts, a) && RefsLive(parts, b)
    ensures Cmp(a, b) <==> a.fields == b.fields && SameContents(parts, a, b)
    ensures Cmp(a, b) ==> Key(parts, a) == Key(parts, b)
  {
    if a.fields == b.fields && SameContents(parts, a, b) {
      forall k | k in a.refs
        ensures a.refs[k] == b.refs[k]
      {
        assert k in b.refs.Keys;
      }
      assert a.refs == b.refs;
    }
  }

  // ---------------------------------------------------------------- the invariant

  function RefSum(attrs: seq<Entry>, id: PartId): nat {
    if attrs == [] then 0
    else (if id in attrs[0].attr.refs.Values then attrs[0].refcnt else 0) + RefSum(attrs[1..], id)
  }

  function Count(parts: map<PartId, Part>, id: PartId): nat {
    if id in parts then parts[id].refcnt else 0
  }

  /** The count of a part is the summed counts of the attributes that point at it plus the direct
      references; a part that is not there counts zero. */
  ghost predicate Balanced(s: State, id: PartId) {
    Count(s.parts, id) == s.direct[id] + RefSum(s.attrs, id)
  }

  ghost predicate EntryOk(s: State, e: Entry) {
    e.refcnt > 0 && e.id < s.next && RefsLive(s.parts, e.attr) && e.key == Key(s.parts, e.attr)
  }

  ghost predicate Distinct(attrs: seq<Entry>) {
    forall j, k | 0 <= j < k < |attrs| :: attrs[j].id != attrs[k].id && !Cmp(attrs[j].attr, attrs[k].attr)
  }

  ghost predicate Inv(s: State) {
    && (forall id {:trigger Balanced(s, id)} :: Balanced(s, id))
    && (forall id | id in s.parts :: s.parts[id].refcnt > 0 && id < s.next)
    && Unique(s.parts)
    && (forall i | 0 <= i < |s.attrs| :: EntryOk(s, s.attrs[i]))
    && Distinct(s.attrs)
  }

  /** Nothing that is still referenced, from an attribute or directly, has been freed, and what is not
      referenced has been. */
  lemma ReferencedIsLive(s: State, id: PartId)
    requires Inv(s)
    ensures id in s.parts <==> id in s.direct || exists i :: 0 <= i < |s.attrs| && id in s.attrs[i].attr.refs.Values
  {
    assert Balanced(s, id);
    RefSumPositive(s.attrs, id);
    if i :| 0 <= i < |s.attrs| && id in s.attrs[i].attr.refs.Values {
      assert EntryOk(s, s.attrs[i]);
    }
  }

  lemma {:induction false} RefSumPositive(attrs: seq<Entry>, id: PartId)
    ensures RefSum(attrs, id) > 0 ==> exists i :: 0 <= i < |attrs| && id in attrs[i].attr.refs.Values
  {
    if attrs != [] {
      RefSumPositive(attrs[1..], id);
      assert attrs == [attrs[0]] + attrs[1..];
    }
  }

  /** Two interned attributes with equal compared fields and equal contents are one object. */
  lemma InternedOnce(s: State, i: nat, j: nat)
    requires Inv(s) && i < |s.attrs| && j < |s.attrs|
    ensures RefsLive(s.parts, s.attrs[i].attr) && RefsLive(s.parts, s.attrs[j].attr)
    ensures var a, b := s.attrs[i].attr, s.attrs[j].attr;
            a.fields == b.fields && SameContents(s.parts, a, b) <==> i == j
  {
    assert EntryOk(s, s.attrs[i]) && EntryOk(s, s.attrs[j]);
    CmpMeans(s.parts, s.attrs[i].attr, s.attrs[j].attr);
  }

  // ---------------------------------------------------------------- sums over the table

  lemma {:induction false} RefSumAt(attrs: seq<Entry>, k: nat, id: PartId)
    requires k < |attrs|
    ensures RefSum(attrs, id) == RefSum(attrs[..k] + attrs[k + 1..], id)
                               + if id in attrs[k].attr.refs.Values then attrs[k].refcnt else 0
  {
    if k == 0 {
      assert attrs[..0] + attrs[1..] == attrs[1..];
    } else {
      var rest := attrs[1..];
      RefSumAt(rest, k - 1, id);
      var less := attrs[..k] + attrs[k + 1..];
      assert less[0] == attrs[0] && less[1..] == rest[..k - 1] + rest[k..];
    }
  }

  lemma RefSumUpdate(attrs: seq<Entry>, k: nat, e: Entry, id: PartId)
    requires k < |attrs| && e.attr.refs == attrs[k].attr.refs
    ensures RefSum(attrs[k := e], id) + (if id in e.attr.refs.Values then attrs[k].refcnt else 0)
         == RefSum(attrs, id) + if id in e.attr.refs.Values then e.refcnt else 0
  {
    RefSumAt(attrs, k, id);
    RefSumAt(attrs[k := e], k, id);
    assert attrs[k := e][..k] == attrs[..k] && attrs[k := e][k + 1..] == attrs[k + 1..];
  }

  lemma RefSumSnoc(attrs: seq<Entry>, e: Entry, id: PartId)
    ensures RefSum(attrs + [e], id) == RefSum(attrs, id) + if id in e.attr.refs.Values then e.refcnt else 0
  {
    var all := attrs + [e];
    RefSumAt(all, |attrs|, id);
    assert all[..|attrs|] + all[|attrs| + 1..] == attrs;
  }

  // ---------------------------------------------------------------- one reference at a time

  /** `refcnt++` on a part, for a direct reference. */
  function AddRef(s: State, id: PartId): State
    requires id in s.parts
  {
    s.(parts := s.parts[id := s.parts[id].(refcnt := s.parts[id].refcnt + 1)], direct := s.direct + multiset{id})
  }

  /** A new part in its hash table, with a direct reference. */
  function NewPart(s: State, kind: Kind, content: Content): State {
    s.(parts := s.parts[s.next := Part(kind, content, 1)], next := s.next + 1, direct := s.direct + multiset{s.next})
  }

  /** `refcnt--` on a part; at zero it leaves its hash table and is freed. */
  function DropRef(s: State, id: PartId): State
    requires id in s.parts
  {
    var n := s.parts[id].refcnt;
    s.(parts := if n <= 1 then s.parts - {id} else s.parts[id := s.parts[id].(refcnt := n - 1)],
       direct := s.direct - multiset{id})
  }

  /** Kind and content of the parts that both tables have are the same. */
  predicate Stable(p: map<PartId, Part>, q: map<PartId, Part>) {
    forall id | id in p && id in q :: p[id].kind == q[id].kind && p[id].content == q[id].content
  }

  lemma EntryStays(s: State, t: State, e: Entry)
    requires EntryOk(s, e) && s.next <= t.next && Stable(s.parts, t.parts)
    requires forall k | k in e.attr.refs :: e.attr.refs[k] in t.parts
    ensures EntryOk(t, e)
  {
  }

  lemma AddRefKeeps(s: State, id: PartId)
    requires Inv(s) && id in s.parts
    ensures Inv(AddRef(s, id)) && Stable(s.parts, AddRef(s, id).parts)
  {
    var t := AddRef(s, id);
    forall j
      ensures Balanced(t, j)
    {
      assert Balanced(s, j);
    }
    forall i | 0 <= i < |t.attrs|
      ensures EntryOk(t, t.attrs[i])
    {
      EntryStays(s, t, s.attrs[i]);
    }
  }

  /** No part of that kind and content is in its hash table. */
  predicate Absent(parts: map<PartId, Part>, kind: Kind, content: Content) {
    forall id | id in parts :: !(parts[id].kind == kind && parts[id].content == content)
  }

  lemma NewPartKeeps(s: State, kind: Kind, content: Content)
    requires Inv(s) && Absent(s.parts, kind, content)
    ensures Inv(NewPart(s, kind, content)) && Stable(s.parts, NewPart(s, kind, content).parts)
    ensures s.next !in s.parts
  {
    var t := NewPart(s, kind, content);
    assert s.next !in s.parts;
    forall j
      ensures Balanced(t, j)
    {
      assert Balanced(s, j);
    }
    forall i | 0 <= i < |t.attrs|
      ensures EntryOk(t, t.attrs[i])
    {
      EntryStays(s, t, s.attrs[i]);
    }
  }

  lemma DropRefKeeps(s: State, id: PartId)
    requires Inv(s) && id in s.direct
    ensures id in s.parts && Inv(DropRef(s, id)) && Stable(s.parts, DropRef(s, id).parts)
  {
    assert Balanced(s, id);
    var t := DropRef(s, id);
    forall j
      ensures Balanced(t, j)
    {
      assert Balanced(s, j);
    }
    forall i | 0 <= i < |t.attrs|
      ensures EntryOk(t, t.attrs[i])
    {
      if s.parts[id].refcnt <= 1 {
        RefSumAt(s.attrs, i, id);
        assert EntryOk(s, s.attrs[i]);
        assert id !in s.attrs[i].attr.refs.Values;
      }
      EntryStays(s, t, s.attrs[i]);
    }
  }

  // ---------------------------------------------------------------- attributes

  /** The references that an attribute holds, once each. */
  ghost function Held(a: Attr): multiset<PartId> {
    multiset(a.refs.Values)
  }

  /** hash_get finds the k-th attribute: one more reference to it, which takes over direct ones. */
  function BindOld(s: State, k: nat): State
    requires k < |s.attrs|
  {
    s.(attrs := s.attrs[k := s.attrs[k].(refcnt := s.attrs[k].refcnt + 1)],
       direct := s.direct - multiset(s.attrs[k].attr.refs.Values))
  }

  /** hash_get finds none and enters a copy. */
  function BindNew(s: State, a: Attr): State {
    s.(attrs := s.attrs + [Entry(s.next, a, 1, Key(s.parts, a))], next := s.next + 1,
       direct := s.direct - multiset(a.refs.Values))
  }

  /** One reference to the k-th attribute less, its references to parts becoming direct ones; at zero it
      leaves the table. */
  function Unbind(s: State, k: nat): State
    requires k < |s.attrs|
  {
    var e := s.attrs[k];
    s.(attrs := if e.refcnt <= 1 then s.attrs[..k] + s.attrs[k + 1..] else s.attrs[k := e.(refcnt := e.refcnt - 1)],
       direct := s.direct + multiset(e.attr.refs.Values))
  }

  lemma BindOldKeeps(s: State, k: nat)
    requires Inv(s) && k < |s.attrs| && Held(s.attrs[k].attr) <= s.direct
    ensures Inv(BindOld(s, k))
  {
    var t := BindOld(s, k);
    forall j
      ensures Balanced(t, j)
    {
      assert Balanced(s, j);
      RefSumUpdate(s.attrs, k, t.attrs[k], j);
      HeldOnce(s.attrs[k].attr, j);
    }
    forall i | 0 <= i < |t.attrs|
      ensures EntryOk(t, t.attrs[i])
    {
      assert EntryOk(s, s.attrs[i]);
    }
  }

  lemma HeldOnce(a: Attr, j: PartId)
    ensures multiset(a.refs.Values)[j] == if j in a.refs.Values then 1 else 0
  {
  }

  lemma BindNewKeeps(s: State, a: Attr)
    requires Inv(s) && RefsLive(s.parts, a) && Held(a) <= s.direct
    requires forall i | 0 <= i < |s.attrs| :: !Cmp(s.attrs[i].attr, a)
    ensures Inv(BindNew(s, a))
  {
    var t := BindNew(s, a);
    var e := Entry(s.next, a, 1, Key(s.parts, a));
    forall j
      ensures Balanced(t, j)
    {
      assert Balanced(s, j);
      RefSumSnoc(s.attrs, e, j);
      HeldOnce(a, j);
    }
    forall i | 0 <= i < |t.attrs|
      ensures EntryOk(t, t.attrs[i])
      ensures i < |s.attrs| ==> t.attrs[i].id < s.next
    {
      if i < |s.attrs| {
        assert EntryOk(s, s.attrs[i]);
      }
    }
  }

  lemma UnbindKeeps(s: State, k: nat)
    requires Inv(s) && k < |s.attrs|
    ensures Inv(Unbind(s, k))
  {
    var t := Unbind(s, k);
    var e := s.attrs[k];
    assert EntryOk(s, e);
    forall j
      ensures Balanced(t, j)
    {
      assert Balanced(s, j);
      HeldOnce(e.attr, j);
      if e.refcnt <= 1 {
        RefSumAt(s.attrs, k, j);
      } else {
        RefSumUpdate(s.attrs, k, t.attrs[k], j);
      }
    }
    forall i | 0 <= i < |t.attrs|
      ensures EntryOk(t, t.attrs[i])
    {
      var i' := if e.refcnt <= 1 && k <= i then i + 1 else i;
      assert EntryOk(s, s.attrs[i']);
    }
  }
}
