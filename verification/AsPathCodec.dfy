/** The octets of an AS_PATH attribute (bgpd/bgp_aspath.c; section 4.3 of RFC 4271). */
module AsPathCodec {
  import opened Wrappers
  import opened AsSegments
  import opened Octets

  function Code(t: SegType): Byte {
    match t
    case AsSet => 1
    case AsSequence => 2
    case ConfedSequence => 3
    case ConfedSet => 4
  }

  function TypeOf(b: Byte): (r: Option<SegType>)
    ensures r.Some? <==> 1 <= b <= 4
    ensures r.Some? ==> Code(r.value) == b
  {
    if b == 1 then Some(AsSet)
    else if b == 2 then Some(AsSequence)
    else if b == 3 then Some(ConfedSequence)
    else if b == 4 then Some(ConfedSet)
    else None
  }

  /** The length octet of every segment can hold its number of entries. */
  predicate Fits(p: Path) {
    forall i | 0 <= i < |p| :: |p[i].ases| <= 255
  }

  /** An AS number in network order. */
  function AsBytes(n: As): (b: seq<Byte>)
    ensures |b| == 2 && AsOf(b[0], b[1]) == n
  {
    [n / 256, n % 256]
  }

  function AsOf(high: Byte, low: Byte): As {
    256 * (high as int) + low
  }

  lemma BytesOfAs(high: Byte, low: Byte)
    ensures AsBytes(AsOf(high, low)) == [high, low]
  {
  }

  /** ASSEGMENT_LEN: the octets of a segment with this length octet. */
  function SegmentSize(length: Byte): nat {
    2 + 2 * (length as int)
  }

  function EncodeAses(ases: seq<As>): (b: seq<Byte>)
    ensures |b| == 2 * |ases|
  {
    if ases == [] then [] else AsBytes(ases[0]) + EncodeAses(ases[1..])
  }

  function DecodeAses(b: seq<Byte>): (ases: seq<As>)
    requires |b| % 2 == 0
    ensures 2 * |ases| == |b|
  {
    if b == [] then [] else [AsOf(b[0], b[1])] + DecodeAses(b[2..])
  }

  lemma {:induction false} AsesThereAndBack(ases: seq<As>)
    ensures DecodeAses(EncodeAses(ases)) == ases
  {
    if ases != [] {
      AsesThereAndBack(ases[1..]);
      var b := EncodeAses(ases);
      assert b[2..] == EncodeAses(ases[1..]);
    }
  }

  lemma {:induction false} AsesBackAndThere(b: seq<Byte>)
    requires |b| % 2 == 0
    ensures EncodeAses(DecodeAses(b)) == b
  {
    if b != [] {
      var rest := b[2..];
      AsesBackAndThere(rest);
      assert DecodeAses(b)[0] == AsOf(b[0], b[1]) && DecodeAses(b)[1..] == DecodeAses(rest);
      BytesOfAs(b[0], b[1]);
      assert b == [b[0], b[1]] + rest;
    }
  }

  lemma {:induction false} EncodeAsesConcat(a: seq<As>, b: seq<As>)
    ensures EncodeAses(a + b) == EncodeAses(a) + EncodeAses(b)
  {
    if a == [] {
      assert a + b == b;
    } else {
      var a' := a[1..];
      EncodeAsesConcat(a', b);
      assert (a + b)[0] == a[0] && (a + b)[1..] == a' + b;
      Assoc(AsBytes(a[0]), EncodeAses(a'), EncodeAses(b));
    }
  }

  function EncodeSegment(g: Segment): (b: seq<Byte>)
    requires |g.ases| <= 255
    ensures |b| == 2 + 2 * |g.ases| && b[0] == Code(g.typ) && b[1] == |g.ases| && b[2..] == EncodeAses(g.ases)
  {
    [Code(g.typ), |g.ases|] + EncodeAses(g.ases)
  }

  function Encode(p: Path): seq<Byte>
    requires Fits(p)
  {
    if p == [] then [] else EncodeSegment(p[0]) + Encode(p[1..])
  }

  /** The segments that a byte string consists of; None when it is not made of whole segments of the
      four known types. This is the walk of aspath_make_str_count. */
  function Decode(b: seq<Byte>): Option<Path> {
    if b == [] then Some([])
    else if !StartsWhole(b) then None
    else Behind(FirstSegment(b), Decode(b[SegmentSize(b[1])..]))
  }

  /** A whole segment of a known type comes first. */
  predicate StartsWhole(b: seq<Byte>) {
    |b| >= 2 && TypeOf(b[0]).Some? && SegmentSize(b[1]) <= |b|
  }

  function FirstSegment(b: seq<Byte>): (g: Segment)
    requires StartsWhole(b)
    ensures |g.ases| == b[1]
  {
    Segment(TypeOf(b[0]).value, DecodeAses(b[2..SegmentSize(b[1])]))
  }

  function Behind(g: Segment, p: Option<Path>): Option<Path> {
    match p
    case None => None
    case Some(q) => Some([g] + q)
  }

  lemma FirstOfEncoded(g: Segment, rest: seq<Byte>)
    requires |g.ases| <= 255
    ensures var b := EncodeSegment(g) + rest;
            StartsWhole(b) && FirstSegment(b) == g && b[SegmentSize(b[1])..] == rest
  {
    var e := EncodeSegment(g);
    var b := e + rest;
    assert b[0] == e[0] && b[1] == e[1];
    var n := SegmentSize(b[1]);
    assert b[2..n] == e[2..];
    AsesThereAndBack(g.ases);
  }

  lemma EncodeFirst(b: seq<Byte>)
    requires StartsWhole(b)
    ensures EncodeSegment(FirstSegment(b)) == b[..SegmentSize(b[1])]
  {
    var n := SegmentSize(b[1]);
    AsesBackAndThere(b[2..n]);
    assert b[..n] == [b[0], b[1]] + b[2..n];
  }

  lemma EncodeCons(g: Segment, p: Path)
    requires |g.ases| <= 255 && Fits(p)
    ensures Fits([g] + p) && Encode([g] + p) == EncodeSegment(g) + Encode(p)
  {
    assert ([g] + p)[1..] == p;
  }

  lemma {:induction false} EncodeConcat(p: Path, q: Path)
    requires Fits(p) && Fits(q)
    ensures Fits(p + q) && Encode(p + q) == Encode(p) + Encode(q)
  {
    if p == [] {
      assert p + q == q;
    } else {
      var p' := p[1..];
      EncodeConcat(p', q);
      assert p + q == [p[0]] + (p' + q);
      EncodeCons(p[0], p' + q);
      Assoc(EncodeSegment(p[0]), Encode(p'), Encode(q));
    }
  }

  lemma EncodeOne(g: Segment)
    requires |g.ases| <= 255
    ensures Encode([g]) == EncodeSegment(g)
  {
    assert [g][1..] == [];
  }

  lemma EncodeSnoc(p: Path, g: Segment)
    requires Fits(p) && |g.ases| <= 255
    ensures Fits(p + [g]) && Encode(p + [g]) == Encode(p) + EncodeSegment(g)
  {
    EncodeConcat(p, [g]);
    EncodeOne(g);
  }

  /** Decoding undoes encoding. */
  lemma {:induction false} DecodeEncode(p: Path)
    requires Fits(p)
    ensures Decode(Encode(p)) == Some(p)
  {
    if p != [] {
      var p' := p[1..];
      DecodeEncode(p');
      FirstOfEncoded(p[0], Encode(p'));
      assert p == [p[0]] + p';
    }
  }

  /** Encoding undoes decoding: what is accepted is the encoding of exactly one path. */
  lemma {:induction false} EncodeDecode(b: seq<Byte>)
    requires Decode(b).Some?
    ensures Fits(Decode(b).value) && Encode(Decode(b).value) == b
  {
    if b != [] {
      var n := SegmentSize(b[1]);
      var rest, g := b[n..], FirstSegment(b);
      var p := Decode(rest).value;
      EncodeDecode(rest);
      assert Decode(b).value == [g] + p;
      EncodeCons(g, p);
      EncodeFirst(b);
      Rejoin(b, n);
    }
  }

  lemma Rejoin(b: seq<Byte>, n: nat)
    requires n <= |b|
    ensures b[..n] + b[n..] == b
  {
  }

  /** Only strings of even length decode. */
  lemma DecodedIsEven(b: seq<Byte>)
    requires Decode(b).Some?
    ensures |b| % 2 == 0
  {
    EncodeDecode(b);
    EncodedIsEven(Decode(b).value);
  }

  lemma EncodedIsEven(p: Path)
    requires Fits(p)
    ensures |Encode(p)| % 2 == 0
  {
    EncodeLength(p);
  }

  lemma {:induction false} EncodeLength(p: Path)
    requires Fits(p)
    ensures |Encode(p)| == 2 * (|p| + AsCount(p))
  {
    if p != [] {
      EncodeLength(p[1..]);
    }
  }

  /** The number of entries of all segments. */
  function AsCount(p: Path): nat {
    if p == [] then 0 else |p[0].ases| + AsCount(p[1..])
  }

  /** asval[i] of the segment at `at`. */
  function AsAt(data: seq<Byte>, at: nat, i: nat): As
    requires at + 2 * i + 3 < |data|
  {
    AsOf(data[at + 2 + 2 * i], data[at + 3 + 2 * i])
  }

  lemma {:induction false} DecodeAsesAt(b: seq<Byte>, i: nat)
    requires |b| % 2 == 0 && 2 * i + 1 < |b|
    ensures i < |DecodeAses(b)| && DecodeAses(b)[i] == AsOf(b[2 * i], b[2 * i + 1])
  {
    if i > 0 {
      DecodeAsesAt(b[2..], i - 1);
      assert DecodeAses(b)[i] == DecodeAses(b[2..])[i - 1];
      assert b[2..][2 * (i - 1)] == b[2 * i] && b[2..][2 * (i - 1) + 1] == b[2 * i + 1];
    }
  }

  /** The entries that the loops over a segment in memory see are its decoded entries. */
  lemma EntryAt(data: seq<Byte>, at: nat, i: nat)
    requires at < |data| && StartsWhole(data[at..]) && i < data[at..][1]
    ensures at + 2 * i + 3 < |data| && AsAt(data, at, i) == FirstSegment(data[at..]).ases[i]
  {
    var rest := data[at..];
    var body := rest[2..SegmentSize(rest[1])];
    DecodeAsesAt(body, i);
    assert body[2 * i] == data[at + 2 + 2 * i] && body[2 * i + 1] == data[at + 3 + 2 * i];
  }

  /** A cursor stands at the rest of a path. */
  ghost predicate At(d: seq<Byte>, at: nat, q: Path) {
    at <= |d| && Fits(q) && d[at..] == Encode(q)
  }

  /** What the code reads of the segment at a cursor. */
  lemma AtSegment(d: seq<Byte>, at: nat, q: Path)
    requires At(d, at, q) && at < |d|
    ensures q != [] && at + 1 < |d| && d[at] == Code(q[0].typ) && d[at + 1] == |q[0].ases|
    ensures StartsWhole(d[at..]) && FirstSegment(d[at..]) == q[0]
    ensures At(d, at + SegmentSize(d[at + 1]), q[1..])
  {
    FirstOfEncoded(q[0], Encode(q[1..]));
    var rest := d[at..];
    assert d[at] == rest[0] && d[at + 1] == rest[1];
    var n := SegmentSize(rest[1]);
    assert rest[n..] == d[at + n..];
  }

  lemma AtEnd(d: seq<Byte>, at: nat, q: Path)
    requires At(d, at, q)
    ensures at == |d| <==> q == []
  {
    EncodeLength(q);
  }

  /** The octets of a segment: its type by number, its number of entries, and the entries in network order. */
  lemma SegmentFormat(g: Segment)
    requires |g.ases| <= 255
    ensures var e := EncodeSegment(g);
      && e[0] == (match g.typ case AsSet => 1 case AsSequence => 2 case ConfedSequence => 3 case ConfedSet => 4)
      && e[1] == |g.ases|
      && forall i | 0 <= i < |g.ases| :: 256 * (e[2 + 2 * i] as int) + e[3 + 2 * i] == g.ases[i]
  {
    var e := EncodeSegment(g);
    EncodeOne(g);
    DecodeEncode([g]);
    assert Decode(e) == Some([g]);
    assert FirstSegment(e) == g;
    forall i | 0 <= i < |g.ases|
      ensures 256 * (e[2 + 2 * i] as int) + e[3 + 2 * i] == g.ases[i]
    {
      assert e[0..] == e;
      EntryAt(e, 0, i);
    }
  }
}
