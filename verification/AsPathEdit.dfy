/** Editing and searching AS paths in place on their octets (bgpd/bgp_aspath.c, bgpd/bgp_attr.c). */
module AsPathEdit {
  import opened Wrappers
  import opened AsSegments
  import opened Octets
  import opened AsPathCodec

  // ---------------------------------------------------------------- adding one AS

  /** The octets that aspath_add_one_as leaves; the length octet wraps at 256. */
  function Added(data: seq<Byte>, n: As, t: SegType): seq<Byte>
    requires |data| != 1
  {
    if data == [] || data[1] == 0 then [Code(t), 1] + AsBytes(n)
    else if data[0] == Code(t) then [Code(t), (data[1] as int + 1) % 256] + AsBytes(n) + data[2..]
    else [Code(t), 1] + AsBytes(n) + data
  }

  /** The AS in front of the path: in its first segment if that has the type, else in a new one. */
  function Cons(p: Path, n: As, t: SegType): Path {
    if p != [] && p[0].typ == t then [Segment(t, [n] + p[0].ases)] + p[1..]
    else [Segment(t, [n])] + p
  }

  lemma EncodeHead(p: Path)
    requires Fits(p) && p != []
    ensures |Encode(p)| >= 2 && Encode(p)[0] == Code(p[0].typ) && Encode(p)[1] == |p[0].ases|
    ensures Encode(p)[2..] == EncodeAses(p[0].ases) + Encode(p[1..])
  {
    BehindHeader(EncodeSegment(p[0]), Encode(p[1..]));
  }

  lemma BehindHeader(e: seq<Byte>, rest: seq<Byte>)
    requires |e| >= 2
    ensures (e + rest)[0] == e[0] && (e + rest)[1] == e[1] && (e + rest)[2..] == e[2..] + rest
  {
  }

  lemma NotOneByte(p: Path)
    requires Fits(p)
    ensures |Encode(p)| != 1
  {
    EncodeLength(p);
  }

  lemma AddedToFull(p: Path, n: As, t: SegType)
    requires Fits(p) && p != [] && 0 < |p[0].ases| < 255 && p[0].typ == t && |Encode(p)| != 1
    ensures Fits(Cons(p, n, t)) && Added(Encode(p), n, t) == Encode(Cons(p, n, t))
  {
    var g := Segment(t, [n] + p[0].ases);
    EncodeCons(g, p[1..]);
    EncodeLonger(t, n, p[0].ases);
    Four([Code(t), |g.ases|], AsBytes(n), EncodeAses(p[0].ases), Encode(p[1..]));
    AddedToSame(p, n);
  }

  lemma AddedToSame(p: Path, n: As)
    requires Fits(p) && p != [] && 0 < |p[0].ases| < 255 && |Encode(p)| != 1
    ensures Added(Encode(p), n, p[0].typ)
         == [Code(p[0].typ), |p[0].ases| + 1] + AsBytes(n) + (EncodeAses(p[0].ases) + Encode(p[1..]))
  {
    EncodeHead(p);
    AddedBytes(Encode(p), n, p[0].typ);
  }

  lemma AddedBytes(d: seq<Byte>, n: As, t: SegType)
    requires |d| >= 2 && d[0] == Code(t) && 0 < d[1] < 255
    ensures Added(d, n, t) == [Code(t), d[1] as int + 1] + AsBytes(n) + d[2..]
  {
  }

  lemma EncodeLonger(t: SegType, n: As, ases: seq<As>)
    requires |ases| < 255
    ensures EncodeSegment(Segment(t, [n] + ases)) == [Code(t), |ases| + 1] + (AsBytes(n) + EncodeAses(ases))
  {
    assert ([n] + ases)[1..] == ases;
  }

  lemma Four(a: seq<Byte>, b: seq<Byte>, c: seq<Byte>, d: seq<Byte>)
    ensures a + (b + c) + d == a + b + (c + d)
  {
  }

  lemma EncodeSingle(n: As, t: SegType)
    ensures EncodeSegment(Segment(t, [n])) == [Code(t), 1] + AsBytes(n)
  {
    assert [n][1..] == [];
    assert EncodeAses([n]) == AsBytes(n) + [];
  }

  lemma AddedInNewSegment(p: Path, n: As, t: SegType)
    requires Fits(p) && |Encode(p)| != 1
    ensures p == [] || (p[0].ases != [] && p[0].typ != t) ==> Added(Encode(p), n, t) == Encode([Segment(t, [n])] + p)
    ensures p == [] || p[0].ases == [] ==> Added(Encode(p), n, t) == Encode([Segment(t, [n])])
  {
    EncodeSingle(n, t);
    EncodeCons(Segment(t, [n]), p);
    EncodeOne(Segment(t, [n]));
    if p != [] {
      EncodeHead(p);
      assert p[0].typ != t ==> Code(p[0].typ) != Code(t);
    } else {
      assert [Segment(t, [n])] + p == [Segment(t, [n])];
    }
  }

  /** No byte string decodes into a segment of 256 entries. */
  lemma Overfull(p: Path, n: As, t: SegType)
    requires p != [] && p[0].typ == t && |p[0].ases| >= 255
    ensures forall b :: Decode(b) != Some(Cons(p, n, t))
  {
    var q := Cons(p, n, t);
    assert |q[0].ases| > 255;
    forall b | Decode(b).Some?
      ensures Decode(b).value != q
    {
      EncodeDecode(b);
    }
  }

  /** The first segment has entries, and room for one more if it is of the type; or there is nothing else. */
  predicate Addable(p: Path, t: SegType) {
    p == [] || 0 < |p[0].ases| < (if p[0].typ == t then 255 else 256) || p == [Segment(t, [])]
  }

  /** aspath_add_one_as puts the AS in front exactly when the first segment is not empty and its length
      octet does not wrap. Behind an empty first segment the rest of the path is lost. */
  lemma AddedMeans(p: Path, n: As, t: SegType)
    requires Fits(p)
    ensures |Encode(p)| != 1
    ensures Decode(Added(Encode(p), n, t)) == Some(Cons(p, n, t))
            <==> Addable(p, t)
  {
    NotOneByte(p);
    AddedInNewSegment(p, n, t);
    if p == [] || (0 < |p[0].ases| && p[0].typ != t) {
      DecodeEncode([Segment(t, [n])] + p);
    } else if p[0].ases == [] {
      DecodeEncode([Segment(t, [n])]);
      assert |Cons(p, n, t)| == 1 <==> p == [p[0]] && p[0].typ == t;
    } else if |p[0].ases| < 255 {
      AddedToFull(p, n, t);
      DecodeEncode(Cons(p, n, t));
    } else {
      Overfull(p, n, t);
    }
  }

  /** On octets that decode, the new octets decode to the path with the AS in front exactly when that path
      is addable. */
  ghost predicate AddsInFront(data: seq<Byte>, now: seq<Byte>, n: As, t: SegType) {
    match Decode(data)
    case None => true
    case Some(p) => Decode(now) == Some(Cons(p, n, t)) <==> Addable(p, t)
  }

  lemma AddedDecodes(data: seq<Byte>, n: As, t: SegType)
    requires |data| != 1
    ensures AddsInFront(data, Added(data, n, t), n, t)
  {
    if Decode(data).Some? {
      EncodeDecode(data);
      AddedMeans(Decode(data).value, n, t);
    }
  }

  /** Two additions put both ASes in front exactly when each can be added in its turn. */
  lemma AddedTwice(p: Path, l: As, c: As, t: SegType)
    requires Fits(p)
    ensures |Encode(p)| != 1 && |Added(Encode(p), l, t)| != 1
    ensures Decode(Added(Added(Encode(p), l, t), c, t)) == Some(Cons(Cons(p, l, t), c, t))
            <==> Addable(p, t) && Addable(Cons(p, l, t), t)
  {
    NotOneByte(p);
    var once := Added(Encode(p), l, t);
    AddedMeans(p, l, t);
    if Addable(p, t) {
      EncodeDecode(once);
      AddedMeans(Cons(p, l, t), c, t);
    } else if p[0].ases == [] {
      AddedInNewSegment(p, l, t);
      AddedMeans([Segment(t, [l])], c, t);
      EncodeDecode(Added(once, c, t));
      assert |Cons(p, l, t)| > 1;
      assert |Cons(Cons(p, l, t), c, t)| > 1 && |Cons([Segment(t, [l])], c, t)| == 1;
    } else {
      Overfull(Cons(p, l, t), c, t);
    }
  }

  // ---------------------------------------------------------------- deleting confederation segments

  function DropConfed(p: Path): Path {
    if p != [] && p[0].typ.ConfedSequence? then DropConfed(p[1..]) else p
  }

  /** What goes is a leading run of AS_CONFED_SEQUENCEs, and all of it. */
  lemma {:induction false} DropConfedMeans(p: Path)
    ensures var k := |p| - |DropConfed(p)|;
            && 0 <= k && p[k..] == DropConfed(p) && (forall i | 0 <= i < k :: p[i].typ.ConfedSequence?)
            && (k < |p| ==> !p[k].typ.ConfedSequence?)
  {
    if p != [] && p[0].typ.ConfedSequence? {
      var rest := p[1..];
      DropConfedMeans(rest);
      var k := |rest| - |DropConfed(rest)|;
      assert p[k + 1..] == rest[k..];
      assert forall i | 0 < i <= k :: p[i] == rest[i - 1];
    }
  }

  // ---------------------------------------------------------------- counting an AS

  function OccursIn(ases: seq<As>, n: As): nat {
    if ases == [] then 0 else OccursIn(ases[..|ases| - 1], n) + if ases[|ases| - 1] == n then 1 else 0
  }

  function Occurs(p: Path, n: As): nat {
    if p == [] then 0 else OccursIn(p[0].ases, n) + Occurs(p[1..], n)
  }

  lemma {:induction false} OccursInConcat(a: seq<As>, b: seq<As>, n: As)
    ensures OccursIn(a + b, n) == OccursIn(a, n) + OccursIn(b, n)
  {
    if b == [] {
      assert a + b == a;
    } else {
      var k := |b| - 1;
      OccursInConcat(a, b[..k], n);
      assert (a + b)[..|a + b| - 1] == a + b[..k];
    }
  }

  lemma {:induction false} OccursConcat(p: Path, q: Path, n: As)
    ensures Occurs(p + q, n) == Occurs(p, n) + Occurs(q, n)
  {
    if p == [] {
      assert p + q == q;
    } else {
      OccursConcat(p[1..], q, n);
      assert (p + q)[0] == p[0] && (p + q)[1..] == p[1..] + q;
    }
  }

  /** An AS occurs in the path exactly when its count is positive. */
  lemma {:induction false} OccursMeans(p: Path, n: As)
    ensures Occurs(p, n) > 0 <==> exists i :: 0 <= i < |p| && n in p[i].ases
  {
    if p != [] {
      OccursMeans(p[1..], n);
      OccursInMeans(p[0].ases, n);
      assert p == [p[0]] + p[1..];
    }
  }

  lemma {:induction false} OccursInMeans(ases: seq<As>, n: As)
    ensures OccursIn(ases, n) > 0 <==> n in ases
  {
    if ases != [] {
      var k := |ases| - 1;
      OccursInMeans(ases[..k], n);
      assert ases == ases[..k] + [ases[k]];
    }
  }

  lemma OccursCons(p: Path, m: As, t: SegType, n: As)
    ensures Occurs(Cons(p, m, t), n) == Occurs(p, n) + if m == n then 1 else 0
  {
    var q := Cons(p, m, t);
    assert OccursIn([m], n) == if m == n then 1 else 0 by {
      assert [m][..0] == [];
    }
    if p != [] && p[0].typ == t {
      OccursInConcat([m], p[0].ases, n);
      assert q[1..] == p[1..];
    } else {
      assert q[1..] == p;
    }
  }

  // ---------------------------------------------------------------- prepending a path

  /** `p` in front of `q`, the sequences that meet made one. */
  function Joined(p: Path, q: Path): Path {
    if p == [] then q
    else if q == [] then p
    else
      var k := |p| - 1;
      if p[k].typ.AsSequence? && q[0].typ.AsSequence?
      then p[..k] + [Segment(AsSequence, p[k].ases + q[0].ases)] + q[1..]
      else p + q
  }

  /** Neither loses nor invents occurrences: what aspath_loop_check sees is the sum over both parts. */
  lemma OccursJoined(p: Path, q: Path, n: As)
    ensures Occurs(Joined(p, q), n) == Occurs(p, n) + Occurs(q, n)
  {
    if p != [] && q != [] {
      var k := |p| - 1;
      if p[k].typ.AsSequence? && q[0].typ.AsSequence? {
        var g := Segment(AsSequence, p[k].ases + q[0].ases);
        OccursConcat(p[..k] + [g], q[1..], n);
        OccursConcat(p[..k], [g], n);
        OccursConcat(p[..k], [p[k]], n);
        assert p[..k] + [p[k]] == p;
        OccursInConcat(p[k].ases, q[0].ases, n);
        OccursOne(g, n);
        OccursOne(p[k], n);
      } else {
        OccursConcat(p, q, n);
      }
    }
  }

  lemma OccursOne(g: Segment, n: As)
    ensures Occurs([g], n) == OccursIn(g.ases, n)
  {
    assert [g][1..] == [];
  }

  /** The length that the decision process compares adds up as well. */
  lemma CountJoined(p: Path, q: Path)
    ensures Count(Joined(p, q)) == Count(p) + Count(q)
  {
    if p != [] && q != [] {
      var k := |p| - 1;
      if p[k].typ.AsSequence? && q[0].typ.AsSequence? {
        var g := Segment(AsSequence, p[k].ases + q[0].ases);
        CountConcat(p[..k] + [g], q[1..]);
        CountConcat(p[..k], [g]);
        CountConcat(p[..k], [p[k]]);
        assert p[..k] + [p[k]] == p;
        assert [g][1..] == [] && [p[k]][1..] == [];
      } else {
        CountConcat(p, q);
      }
    }
  }

  lemma {:induction false} CountConcat(p: Path, q: Path)
    ensures Count(p + q) == Count(p) + Count(q)
  {
    if p == [] {
      assert p + q == q;
    } else {
      CountConcat(p[1..], q);
      assert (p + q)[0] == p[0] && (p + q)[1..] == p[1..] + q;
    }
  }

  /** The sequences that meet have at most 255 entries together. */
  predicate Joinable(p: Path, q: Path) {
    p != [] && q != [] && p[|p| - 1].typ.AsSequence? && q[0].typ.AsSequence? ==> |p[|p| - 1].ases| + |q[0].ases| <= 255
  }

  lemma JoinedDecodes(p: Path, q: Path)
    requires Fits(p) && Fits(q)
    ensures Joinable(p, q) ==> Fits(Joined(p, q)) && Decode(Encode(Joined(p, q))) == Some(Joined(p, q))
    ensures !Joinable(p, q) ==> forall b :: Decode(b) != Some(Joined(p, q))
  {
    var j := Joined(p, q);
    if Joinable(p, q) {
      DecodeEncode(j);
    } else {
      assert |j[|p| - 1].ases| > 255;
      forall b | Decode(b).Some?
        ensures Decode(b).value != j
      {
        EncodeDecode(b);
      }
    }
  }

  /** The octets of `d` with the sequence at `last` taking in the first segment of `e`; the length octet
      is added in eight bits. */
  function Glued(d: seq<Byte>, last: nat, e: seq<Byte>): seq<Byte>
    requires last + 1 < |d| && |e| >= 2
  {
    d[last + 1 := (d[last + 1] as int + e[1]) % 256] + e[2..]
  }

  /** Gluing is joining as long as the two sequences have at most 255 entries together. */
  lemma GluedMeans(p: Path, g: Segment, q: Path)
    requires Fits(p) && |g.ases| <= 255 && Fits(q) && q != [] && g.typ.AsSequence? && q[0].typ.AsSequence?
    requires |g.ases| + |q[0].ases| <= 255
    ensures var last := |Encode(p)|;
            && Fits(p + [g]) && last + 1 < |Encode(p + [g])| && |Encode(q)| >= 2
            && Fits(Joined(p + [g], q))
            && Glued(Encode(p + [g]), last, Encode(q)) == Encode(Joined(p + [g], q))
  {
    var j := Segment(AsSequence, g.ases + q[0].ases);
    EncodeHead(q);
    EncodeSnoc(p, g);
    JoinedEncoding(p, g, q, j);
    JoinedSegment(g, q[0].ases);
    GlueBytes(Encode(p), EncodeSegment(g), Encode(q), EncodeAses(q[0].ases), Encode(q[1..]));
  }

  lemma JoinedSegment(g: Segment, ases: seq<As>)
    requires |g.ases| + |ases| <= 255
    ensures EncodeSegment(Segment(g.typ, g.ases + ases))
         == [Code(g.typ), |g.ases| + |ases|] + (EncodeAses(g.ases) + EncodeAses(ases))
  {
    EncodeAsesConcat(g.ases, ases);
  }

  lemma JoinedEncoding(p: Path, g: Segment, q: Path, j: Segment)
    requires Fits(p) && |j.ases| <= 255 && Fits(q) && q != [] && g.typ.AsSequence? && q[0].typ.AsSequence?
    requires j == Segment(AsSequence, g.ases + q[0].ases)
    ensures Fits(Joined(p + [g], q)) && Encode(Joined(p + [g], q)) == Encode(p) + EncodeSegment(j) + Encode(q[1..])
  {
    assert (p + [g])[..|p|] == p;
    assert Joined(p + [g], q) == p + [j] + q[1..];
    EncodeSnoc(p, j);
    EncodeConcat(p + [j], q[1..]);
  }

  lemma GlueBytes(a: seq<Byte>, g: seq<Byte>, e: seq<Byte>, x: seq<Byte>, y: seq<Byte>)
    requires |g| >= 2 && |e| >= 2 && e[2..] == x + y && g[1] as int + e[1] < 256
    ensures Glued(a + g, |a|, e) == a + ([g[0], g[1] as int + e[1]] + (g[2..] + x)) + y
  {
    var n: Byte := g[1] as int + e[1];
    assert (a + g)[|a| + 1] == g[1];
    assert (a + g)[|a| + 1 := n] == a + g[1 := n];
    assert g[1 := n] == [g[0], n] + g[2..];
    RegroupFive(a, [g[0], n], g[2..], x, y);
  }

  lemma RegroupFive(a: seq<Byte>, b: seq<Byte>, c: seq<Byte>, x: seq<Byte>, y: seq<Byte>)
    ensures a + (b + c) + (x + y) == a + (b + (c + x)) + y
  {
  }

  // ---------------------------------------------------------------- reading entries

  /** aspath_firstas_check. */
  predicate FirstAsCheck(data: seq<Byte>, n: As) {
    |data| >= 4 && data[0] == Code(AsSequence) && AsAt(data, 0, 0) == n
  }

  /** It asks for an AS_SEQUENCE that begins with the AS. */
  lemma FirstAsMeans(p: Path, n: As)
    requires Fits(p) && (p != [] && p[0].typ == AsSequence ==> p[0].ases != [])
    ensures FirstAsCheck(Encode(p), n) <==> p != [] && p[0].typ == AsSequence && p[0].ases[0] == n
  {
    if p != [] {
      EncodeHead(p);
      DecodeEncode(p);
      var e := Encode(p);
      assert e[0..] == e && FirstSegment(e) == p[0];
      if p[0].ases != [] {
        EntryAt(e, 0, 0);
      }
    }
  }

  /** An added AS is the first one, whatever was there before. */
  lemma AddedIsFirst(data: seq<Byte>, n: As)
    requires |data| != 1
    ensures FirstAsCheck(Added(data, n, AsSequence), n) && |Added(data, n, AsSequence)| != 1
  {
    var b := Added(data, n, AsSequence);
    assert b[2] == AsBytes(n)[0] && b[3] == AsBytes(n)[1];
  }

  /** struct aspath: its octets (none for NULL data) and the number of hops. */
  class AsPath {
    var data: seq<Byte>
    var count: int

    constructor (data: seq<Byte>, count: int)
      ensures this.data == data && this.count == count
    {
      this.data, this.count := data, count;
    }

    /** aspath_add_one_as: the decoded path gets the AS in front exactly when it is addable; the octets
        begin with the AS in any case. */
    method AddOneAs(n: As, t: SegType)
      requires |data| != 1
      modifies this`data
      ensures AddsInFront(old(data), data, n, t) && data == Added(old(data), n, t)
    {
      AddedDecodes(data, n, t);
      PutInFront(n, t);
    }

    /** The three ways of rebuilding the octets. */
    method PutInFront(n: As, t: SegType)
      requires |data| != 1
      modifies this`data
      ensures data == Added(old(data), n, t)
    {
      if data == [] || data[1] == 0 {
        data := [Code(t), 1] + AsBytes(n);
      } else if data[0] == Code(t) {
        data := [Code(t), (data[1] as int + 1) % 256] + AsBytes(n) + data[2..];
      } else {
        data := [Code(t), 1] + AsBytes(n) + data;
      }
    }

    /** aspath_delete_confed_seq: exactly the leading run of AS_CONFED_SEQUENCEs goes. */
    method DeleteConfedSeq(ghost p: Path)
      requires Fits(p) && data == Encode(p)
      modifies this`data
      ensures Fits(DropConfed(p)) && data == Encode(DropConfed(p))
    {
      ghost var q := p;
      while data != []
        invariant Fits(q) && data == Encode(q) && DropConfed(q) == DropConfed(p)
        decreases |q|
      {
        EncodeHead(q);
        if data[0] != Code(ConfedSequence) {
          return;
        }
        FirstOfEncoded(q[0], Encode(q[1..]));
        var seglen := SegmentSize(data[1]);
        data := data[seglen..];
        q := q[1..];
      }
    }

    /** aspath_loop_check. */
    method LoopCheck(n: As, ghost p: Path) returns (count: nat)
      requires Fits(p) && data == Encode(p)
      ensures count == Occurs(p, n)
    {
      var pnt: nat := 0;
      ghost var q := p;
      count := 0;
      assert data[0..] == data;
      while pnt < |data|
        invariant At(data, pnt, q) && count + Occurs(q, n) == Occurs(p, n)
        decreases |q|
      {
        AtSegment(data, pnt, q);
        var c := CountEntries(data, pnt, n);
        count := count + c;
        pnt := pnt + SegmentSize(data[pnt + 1]);
        q := q[1..];
      }
      AtEnd(data, pnt, q);
    }

    /** aspath_merge. */
    method Merge(as1: AsPath)
      requires as1 != this
      modifies this
      ensures data == as1.data + old(data) && count == old(count) + as1.count
    {
      data := as1.data + data;
      count := count + as1.count;
    }

    /** aspath_prepend, with the length octet added in eight bits. */
    method Prepend(as1: AsPath, ghost p: Path, ghost q: Path)
      requires as1 != this && Fits(p) && as1.data == Encode(p) && Fits(q) && data == Encode(q)
      modifies this
      ensures Joinable(p, q) ==> Fits(Joined(p, q)) && data == Encode(Joined(p, q))
      ensures Decode(data) == Some(Joined(p, q)) <==> Joinable(p, q)
      ensures as1.count == Count(p) && old(count) == Count(q) ==> count == Count(Joined(p, q))
    {
      CountJoined(p, q);
      JoinedDecodes(p, q);
      EncodeLength(p);
      EncodeLength(q);
      if data == [] {
        data, count := as1.data, as1.count;
        return;
      }
      if as1.data == [] {
        return;
      }
      var last := LastSegment(as1.data, p);
      PrependedMeans(p, q);
      if as1.data[last] != data[0] {
        Merge(as1);
      } else if as1.data[last] == Code(AsSequence) {
        data := Glued(as1.data, last, data);
        count := count + as1.count;
      } else {
        Merge(as1);
      }
    }
  }

  /** The octets that aspath_prepend leaves, when both paths have segments. */
  function Prepended(d: seq<Byte>, last: nat, e: seq<Byte>): seq<Byte>
    requires last + 1 < |d| && |e| >= 2
  {
    if d[last] == e[0] == Code(AsSequence) then Glued(d, last, e) else d + e
  }

  lemma PrependedMeans(p: Path, q: Path)
    requires Fits(p) && p != [] && Fits(q) && q != []
    ensures LastAt(p) + 1 < |Encode(p)| && |Encode(q)| >= 2
    ensures Joinable(p, q) ==>
              Fits(Joined(p, q)) && Prepended(Encode(p), LastAt(p), Encode(q)) == Encode(Joined(p, q))
  {
    var k := |p| - 1;
    var f, g := p[..k], p[k];
    assert p == f + [g];
    assert Fits(f) && |g.ases| <= 255;
    PrependedBehind(f, g, q);
  }

  lemma PrependedBehind(f: Path, g: Segment, q: Path)
    requires Fits(f) && |g.ases| <= 255 && Fits(q) && q != []
    ensures Fits(f + [g]) && LastAt(f + [g]) + 1 < |Encode(f + [g])| && |Encode(q)| >= 2
    ensures Joinable(f + [g], q) ==>
              && Fits(Joined(f + [g], q))
              && Prepended(Encode(f + [g]), LastAt(f + [g]), Encode(q)) == Encode(Joined(f + [g], q))
  {
    LastAtMeans(f, g);
    LastAdded(f, g);
    EncodeHead(q);
    EncodeConcat(f + [g], q);
    if g.typ.AsSequence? && q[0].typ.AsSequence? && |g.ases| + |q[0].ases| <= 255 {
      GluedMeans(f, g, q);
    }
  }

  lemma LastAdded(f: Path, g: Segment)
    requires Fits(f) && |g.ases| <= 255
    ensures Fits(f + [g]) && |Encode(f)| + 2 <= |Encode(f + [g])| && Encode(f + [g])[|Encode(f)|] == Code(g.typ)
  {
    EncodeSnoc(f, g);
    JustBehind(Encode(f), EncodeSegment(g));
  }

  lemma JustBehind(a: seq<Byte>, b: seq<Byte>)
    requires |b| > 0
    ensures |a + b| == |a| + |b| && (a + b)[|a|] == b[0]
  {
  }

  /** Where the last segment of a path begins. */
  ghost function LastAt(p: Path): nat
    requires p != []
  {
    if |p| == 1 then 0 else 2 + 2 * |p[0].ases| + LastAt(p[1..])
  }

  lemma {:induction false} LastAtMeans(f: Path, g: Segment)
    requires Fits(f)
    ensures LastAt(f + [g]) == |Encode(f)|
  {
    if f != [] {
      LastAtMeans(f[1..], g);
      assert (f + [g])[0] == f[0] && (f + [g])[1..] == f[1..] + [g];
    }
  }

  /** The loop of aspath_prepend that looks for the last segment. */
  method LastSegment(data: seq<Byte>, ghost p: Path) returns (last: nat)
    requires Fits(p) && p != [] && data == Encode(p)
    ensures last == LastAt(p)
  {
    var pnt: nat := 0;
    ghost var rest := p;
    assert data[0..] == data;
    last := 0;
    while pnt < |data|
      invariant At(data, pnt, rest)
      invariant if rest == [] then last == LastAt(p) else pnt + LastAt(rest) == LastAt(p)
      decreases |rest|
    {
      AtSegment(data, pnt, rest);
      last := pnt;
      pnt := pnt + SegmentSize(data[pnt + 1]);
      rest := rest[1..];
    }
    AtEnd(data, pnt, rest);
  }

  /** The inner loop of aspath_loop_check. */
  method CountEntries(data: seq<Byte>, at: nat, n: As) returns (count: nat)
    requires at < |data| && StartsWhole(data[at..])
    ensures count == OccursIn(FirstSegment(data[at..]).ases, n)
  {
    ghost var rest := data[at..];
    assert data[at + 1] == rest[1];
    var length := data[at + 1] as int;
    ghost var ases := FirstSegment(rest).ases;
    count := 0;
    var i := 0;
    while i < length
      invariant 0 <= i <= length == |ases| && count == OccursIn(ases[..i], n)
    {
      EntryAt(data, at, i);
      assert ases[..i + 1][..i] == ases[..i];
      if AsAt(data, at, i) == n {
        count := count + 1;
      }
      i := i + 1;
    }
    assert ases[..i] == ases;
  }

  /** The path that an EBGP peer should see: without the leading confederation segments and with the
      confederation identifier in front, or with the local AS and then the changed one in front. */
  function ForEbgp(p: Path, confedId: Option<As>, localAs: As, changed: Option<As>): Path {
    if confedId.Some? then Cons(DropConfed(p), confedId.value, AsSequence)
    else if changed.None? then Cons(p, localAs, AsSequence)
    else Cons(Cons(p, localAs, AsSequence), changed.value, AsSequence)
  }

  /** Every AS can be added. */
  predicate Rewritable(p: Path, confedId: Option<As>, localAs: As, changed: Option<As>) {
    if confedId.Some? then Addable(DropConfed(p), AsSequence)
    else Addable(p, AsSequence) && (changed.Some? ==> Addable(Cons(p, localAs, AsSequence), AsSequence))
  }

  /** The AS added last. */
  function LastAs(confedId: Option<As>, localAs: As, changed: Option<As>): As {
    if confedId.Some? then confedId.value else if changed.Some? then changed.value else localAs
  }

  /** The AS path part of bgp_packet_attribute for an EBGP peer; `changed` is change_local_as, absent for 0. */
  method RewriteForEbgp(data: seq<Byte>, confedId: Option<As>, localAs: As, changed: Option<As>, ghost p: Path)
      returns (out: AsPath)
    requires Fits(p) && data == Encode(p)
    ensures fresh(out) && FirstAsCheck(out.data, LastAs(confedId, localAs, changed))
    ensures Decode(out.data) == Some(ForEbgp(p, confedId, localAs, changed))
            <==> Rewritable(p, confedId, localAs, changed)
  {
    out := new AsPath(data, 0);
    NotOneByte(p);
    DecodeEncode(p);
    if confedId.Some? {
      out.DeleteConfedSeq(p);
      NotOneByte(DropConfed(p));
      DecodeEncode(DropConfed(p));
      AddedIsFirst(out.data, confedId.value);
      out.AddOneAs(confedId.value, AsSequence);
    } else {
      AddedIsFirst(out.data, localAs);
      out.AddOneAs(localAs, AsSequence);
      if changed.Some? {
        AddedTwice(p, localAs, changed.value, AsSequence);
        AddedIsFirst(out.data, changed.value);
        out.AddOneAs(changed.value, AsSequence);
      }
    }
  }

  /** An EBGP peer sees every AS of the path once more for each addition, and none less but those of the
      confederation segments dropped. */
  lemma RewrittenOccurs(p: Path, confedId: Option<As>, localAs: As, changed: Option<As>, n: As)
    ensures Occurs(ForEbgp(p, confedId, localAs, changed), n) ==
              if confedId.Some? then Occurs(DropConfed(p), n) + (if confedId.value == n then 1 else 0)
              else Occurs(p, n) + (if localAs == n then 1 else 0) + (if changed == Some(n) then 1 else 0)
  {
    if confedId.Some? {
      OccursCons(DropConfed(p), confedId.value, AsSequence, n);
    } else {
      OccursCons(p, localAs, AsSequence, n);
      if changed.Some? {
        OccursCons(Cons(p, localAs, AsSequence), changed.value, AsSequence, n);
      }
    }
  }

  // ---------------------------------------------------------------- the order of the entries

  /** All entries in order, each with the type of its segment. */
  function Typed(p: Path): seq<(SegType, As)> {
    if p == [] then [] else TypedEntries(p[0].typ, p[0].ases) + Typed(p[1..])
  }

  function TypedEntries(t: SegType, ases: seq<As>): (r: seq<(SegType, As)>)
    ensures |r| == |ases| && forall i | 0 <= i < |ases| :: r[i] == (t, ases[i])
  {
    seq(|ases|, i requires 0 <= i < |ases| => (t, ases[i]))
  }

  lemma TypedFirst(g: Segment, p: Path)
    ensures Typed([g] + p) == TypedEntries(g.typ, g.ases) + Typed(p)
  {
    assert ([g] + p)[1..] == p;
  }

  lemma SplitFirst(p: Path, q: Path)
    requires p != []
    ensures p + q == [p[0]] + (p[1..] + q)
  {
  }

  lemma {:induction false} TypedConcat(p: Path, q: Path)
    ensures Typed(p + q) == Typed(p) + Typed(q)
  {
    if p == [] {
      assert p + q == q;
    } else {
      var rest := p[1..];
      TypedConcat(rest, q);
      SplitFirst(p, q);
      TypedFirst(p[0], rest + q);
      Assoc(TypedEntries(p[0].typ, p[0].ases), Typed(rest), Typed(q));
    }
  }

  /** Adding an AS puts it in front of all entries and keeps those as they are. */
  lemma TypedCons(p: Path, n: As, t: SegType)
    ensures Typed(Cons(p, n, t)) == [(t, n)] + Typed(p)
  {
    if p != [] && p[0].typ == t {
      TypedFirst(Segment(t, [n] + p[0].ases), p[1..]);
      assert TypedEntries(t, [n] + p[0].ases) == [(t, n)] + TypedEntries(t, p[0].ases);
    } else {
      TypedFirst(Segment(t, [n]), p);
      assert TypedEntries(t, [n]) == [(t, n)];
    }
  }

  /** Prepending a path puts its entries in front of the others, in order. */
  lemma TypedJoined(p: Path, q: Path)
    ensures Typed(Joined(p, q)) == Typed(p) + Typed(q)
  {
    if p != [] && q != [] && p[|p| - 1].typ.AsSequence? && q[0].typ.AsSequence? {
      var k := |p| - 1;
      TypedGlued(p[..k], p[k].ases, q[0].ases, q[1..]);
      assert p == p[..k] + [Segment(AsSequence, p[k].ases)] && q == [Segment(AsSequence, q[0].ases)] + q[1..];
    } else {
      TypedConcat(p, q);
      assert p + [] == p && [] + q == q;
    }
  }

  lemma TypedGlued(f: Path, a: seq<As>, b: seq<As>, r: Path)
    ensures Typed(f + [Segment(AsSequence, a + b)] + r)
         == Typed(f + [Segment(AsSequence, a)]) + Typed([Segment(AsSequence, b)] + r)
  {
    var x, y, z := Segment(AsSequence, a), Segment(AsSequence, b), Segment(AsSequence, a + b);
    TypedConcat(f + [z], r);
    TypedLast(f, z);
    TypedLast(f, x);
    TypedFirst(y, r);
    TypedAdds(a, b);
    Regroup(Typed(f), TypedEntries(AsSequence, a), TypedEntries(AsSequence, b), Typed(r));
    Assoc(Typed(f), TypedEntries(AsSequence, a), TypedEntries(AsSequence, b) + Typed(r));
  }

  lemma TypedAdds(a: seq<As>, b: seq<As>)
    ensures TypedEntries(AsSequence, a + b) == TypedEntries(AsSequence, a) + TypedEntries(AsSequence, b)
  {
  }

  lemma TypedLast(f: Path, g: Segment)
    ensures Typed(f + [g]) == Typed(f) + TypedEntries(g.typ, g.ases)
  {
    TypedConcat(f, [g]);
    TypedSingle(g);
  }

  lemma TypedSingle(g: Segment)
    ensures Typed([g]) == TypedEntries(g.typ, g.ases)
  {
    TypedFirst(g, []);
    assert [g] + [] == [g];
  }

  /** What an EBGP peer sees in front of the path: the confederation identifier, or the local AS and, before
      it, the AS it was changed to. */
  lemma RewrittenEntries(p: Path, confedId: Option<As>, localAs: As, changed: Option<As>)
    ensures Typed(ForEbgp(p, confedId, localAs, changed)) ==
              if confedId.Some? then [(AsSequence, confedId.value)] + Typed(DropConfed(p))
              else if changed.Some? then [(AsSequence, changed.value), (AsSequence, localAs)] + Typed(p)
              else [(AsSequence, localAs)] + Typed(p)
  {
    if confedId.Some? {
      TypedCons(DropConfed(p), confedId.value, AsSequence);
    } else {
      TypedCons(p, localAs, AsSequence);
      if changed.Some? {
        TypedCons(Cons(p, localAs, AsSequence), changed.value, AsSequence);
      }
    }
  }
}
