/** The loops that turn the octets of an AS path into text and text into octets (bgpd/bgp_aspath.c). */
module AsPathPrinter {
  import opened Wrappers
  import opened Decimal
  import opened AsSegments
  import opened Octets
  import opened AsPathCodec
  import opened AsPathText

  /** str_buf and str_pnt. Every write needs room for itself and for the terminator. */
  class StrBuf {
    var buf: array<char>
    var len: nat

    ghost predicate Valid()
      reads this
    {
      len < buf.Length
    }

    ghost function Text(): string
      requires Valid()
      reads this, buf
    {
      buf[..len]
    }

    constructor (size: nat)
      requires size > 0
      ensures Valid() && fresh(buf) && buf.Length == size && Text() == "" && len == 0
    {
      buf := new char[size];
      len := 0;
    }

    /** Double the memory until the estimate fits. */
    method Reserve(estimate: nat)
      requires Valid()
      modifies this`buf
      ensures Valid() && len + estimate < buf.Length && Text() == old(Text())
      ensures buf == old(buf) || fresh(buf)
    {
      while len + estimate >= buf.Length
        invariant Valid() && Text() == old(Text()) && (buf == old(buf) || fresh(buf))
        decreases len + estimate - buf.Length
      {
        var bigger := new char[2 * buf.Length];
        forall i | 0 <= i < buf.Length {
          bigger[i] := buf[i];
        }
        assert bigger[..len] == buf[..len];
        buf := bigger;
      }
    }

    method Put(c: char)
      requires Valid() && len + 1 < buf.Length
      modifies this`len, buf
      ensures Valid() && Text() == old(Text()) + [c]
    {
      buf[len] := c;
      len := len + 1;
    }

    /** sprintf ("%d"), which writes a terminator as well. */
    method PutNumber(n: nat)
      requires Valid() && len + |Digits(n)| < buf.Length
      modifies this`len, buf
      ensures Valid() && Text() == old(Text()) + Digits(n)
    {
      var ds := Digits(n);
      forall i | 0 <= i < |ds| {
        buf[len + i] := ds[i];
      }
      buf[len + |ds|] := '\0';
      len := len + |ds|;
    }

    method Terminate() returns (s: string)
      requires Valid()
      modifies buf
      ensures s == old(Text())
    {
      buf[len] := '\0';
      s := buf[..len];
    }
  }

  /** Delimiters and space before the entries of a segment. */
  method PutOpening(out: StrBuf, typ: SegType, space: bool, next: SegType)
    requires out.Valid() && out.len + 3 < out.buf.Length
    modifies out`len, out.buf
    ensures out.Valid() && out.len <= old(out.len) + 3
    ensures out.Text() == old(out.Text()) + Close(typ) + (if space then " " else "") + Open(next)
  {
    if typ != AsSequence {
      out.Put(Close(typ)[0]);
    }
    if space {
      out.Put(' ');
    }
    if next != AsSequence {
      out.Put(Open(next)[0]);
    }
  }

  method PutClosing(out: StrBuf, typ: SegType)
    requires out.Valid() && out.len + 1 < out.buf.Length
    modifies out`len, out.buf
    ensures out.Valid() && out.Text() == old(out.Text()) + Close(typ)
  {
    if typ != AsSequence {
      out.Put(Close(typ)[0]);
    }
  }

  /** The loop over the entries of the segment at `at`. */
  method PutMembers(out: StrBuf, data: seq<Byte>, at: nat, sep: char)
    requires at < |data| && StartsWhole(data[at..])
    requires out.Valid() && out.len + 6 * data[at..][1] as int < out.buf.Length
    modifies out`len, out.buf
    ensures out.Valid() && out.Text() == old(out.Text()) + Members(FirstSegment(data[at..]).ases, sep)
    ensures out.len <= old(out.len) + 6 * data[at..][1] as int
  {
    ghost var before := out.Text();
    ghost var rest := data[at..];
    assert data[at + 1] == rest[1];
    var length := data[at + 1] as int;
    ghost var ases := FirstSegment(rest).ases;
    var i := 0;
    assert before + "" == before;
    while i < length
      invariant 0 <= i <= length == |ases| && out.Valid()
      invariant out.Text() == before + Members(ases[..i], sep)
      invariant out.len <= old(out.len) + 6 * i
    {
      EntryAt(data, at, i);
      MembersSnoc(ases[..i], ases[i], sep);
      assert ases[..i] + [ases[i]] == ases[..i + 1];
      ShortNumeral(ases[i]);
      ghost var m := Members(ases[..i], sep);
      if i > 0 {
        out.Put(sep);
        assert out.Text() == before + (m + [sep]);
      }
      PutEntry(out, AsAt(data, at, i), before, if i == 0 then "" else m + [sep]);
      i := i + 1;
    }
    assert ases[..i] == ases;
  }

  method PutEntry(out: StrBuf, n: As, ghost before: string, ghost m: string)
    requires out.Valid() && out.len + 5 < out.buf.Length && out.Text() == before + m
    modifies out`len, out.buf
    ensures out.Valid() && out.Text() == before + (m + Digits(n)) && out.len <= old(out.len) + 5
  {
    ShortNumeral(n);
    out.PutNumber(n);
    Assoc(before, m, Digits(n));
  }

  /** The text so far with one more segment, and the delimiter that is still owed. */
  lemma TextGrows(text: string, done: Path, typ: SegType, space: bool, g: Segment)
    requires StandsFor(text, done, typ, space)
    ensures StandsFor(text + Close(typ) + (if space then " " else "") + Open(g.typ) + Members(g.ases, Separator(g.typ)),
                      done + [g], g.typ, g.ases != [])
  {
    var gap := if space then " " else "";
    var m := Members(g.ases, Separator(g.typ));
    FiveTexts(text, Close(typ), gap, Open(g.typ), m, Close(g.typ));
    if done == [] {
      assert done + [g] == [g];
    } else {
      PrintSnoc(done, g);
    }
  }

  lemma FiveTexts(t: string, a: string, b: string, c: string, d: string, e: string)
    ensures t + a + b + c + d + e == t + a + (b + (c + (d + e)))
  {
  }

  /** The loop invariant: type and space are those of the last segment, whose delimiter is missing. */
  ghost predicate StandsFor(text: string, done: Path, typ: SegType, space: bool) {
    && text + Close(typ) == Print(done)
    && if done == [] then typ == AsSequence && !space
       else typ == done[|done| - 1].typ && (space <==> done[|done| - 1].ases != [])
  }

  /** The path decoded so far in front of the rest. */
  function Prefixed(done: Path, rest: Option<Path>): Option<Path> {
    match rest
    case None => None
    case Some(q) => Some(done + q)
  }

  lemma PrefixedStep(done: Path, g: Segment, rest: Option<Path>)
    ensures Prefixed(done, Behind(g, rest)) == Prefixed(done + [g], rest)
  {
    if rest.Some? {
      assert done + ([g] + rest.value) == done + [g] + rest.value;
    }
  }

  /** The segment at `at`, in memory that is large enough for it and for two more characters. */
  method PutSegment(out: StrBuf, data: seq<Byte>, at: nat, typ: SegType, space: bool, ghost done: Path)
    requires at < |data| && StartsWhole(data[at..])
    requires out.Valid() && StandsFor(out.Text(), done, typ, space)
    modifies out, out.buf
    ensures out.Valid() && out.len + 1 < out.buf.Length && (out.buf == old(out.buf) || fresh(out.buf))
    ensures var g := FirstSegment(data[at..]); StandsFor(out.Text(), done + [g], g.typ, g.ases != [])
  {
    ghost var text := out.Text();
    ghost var g := FirstSegment(data[at..]);
    assert data[at] == data[at..][0] && data[at + 1] == data[at..][1];
    var next := TypeOf(data[at]).value;
    out.Reserve(6 * data[at + 1] as int + 4);
    PutOpening(out, typ, space, next);
    PutMembers(out, data, at, Separator(next));
    TextGrows(text, done, typ, space, g);
  }

  /** The checks of one round, and what the segment adds to the count. */
  method ReadSegment(data: seq<Byte>, at: nat, ghost total: Option<Path>, ghost done: Path)
      returns (ok: bool, typ: SegType, space: bool, hops: nat, next: nat, ghost g: Segment)
    requires at + 1 < |data| && total == Prefixed(done, Decode(data[at..]))
    ensures !ok ==> total == None
    ensures ok ==> StartsWhole(data[at..]) && g == FirstSegment(data[at..]) && next == at + 2 + 2 * |g.ases| <= |data|
    ensures ok ==> total == Prefixed(done + [g], Decode(data[next..]))
    ensures ok ==> typ == g.typ && (space <==> g.ases != []) && hops == CountOf(g)
  {
    ghost var rest := data[at..];
    assert data[at] == rest[0] && data[at + 1] == rest[1];
    DecodeStep(total, rest, done);
    next := at + SegmentSize(data[at + 1]);
    typ, space, hops, ok := AsSequence, false, 0, false;
    if TypeOf(data[at]).None? || next > |data| {
      g := Segment(typ, []);
      return;
    }
    g := FirstSegment(rest);
    DropTwice(data, at, SegmentSize(data[at + 1]));
    ok, typ, space := true, TypeOf(data[at]).value, data[at + 1] != 0;
    hops := if typ.AsSequence? then data[at + 1] as int else if typ.AsSet? then 1 else 0;
  }

  /** aspath_make_str_count: NULL exactly for octets that are not a path; every character, the closing
      delimiter and the terminator are written inside the memory. */
  method MakeStrCount(data: seq<Byte>) returns (r: Option<(string, nat)>)
    requires |data| % 2 == 0
    ensures r.None? <==> Decode(data).None?
    ensures r.Some? ==> r.value == (Print(Decode(data).value), Count(Decode(data).value))
    ensures r.Some? ==> var p := Decode(data).value; r.value.1 == |SequenceEntries(p)| + |Sets(p)|
  {
    if Decode(data).Some? {
      CountMeans(Decode(data).value);
    }
    if data == [] {
      return Some(("", 0));
    }
    var out := new StrBuf(32);
    var ok, typ, count, done := PutSegments(out, data);
    if !ok {
      return None;
    }
    PutClosing(out, typ);
    var s := out.Terminate();
    return Some((s, count));
  }

  /** One round: the segment at `at` is checked and its text put behind that of those before. */
  method PutNext(out: StrBuf, data: seq<Byte>, at: nat, typ: SegType, space: bool, count: nat,
                 ghost total: Option<Path>, ghost done: Path)
      returns (ok: bool, typ': SegType, space': bool, count': nat, next: nat, ghost g: Segment)
    requires at + 1 < |data| && total == Prefixed(done, Decode(data[at..])) && count == Count(done)
    requires out.Valid() && out.len + 1 < out.buf.Length && StandsFor(out.Text(), done, typ, space)
    modifies out, out.buf
    ensures out.Valid() && out.len + 1 < out.buf.Length && (out.buf == old(out.buf) || fresh(out.buf))
    ensures !ok ==> total == None
    ensures ok ==> next == at + 2 + 2 * |g.ases| <= |data| && count' == Count(done + [g])
    ensures ok ==> total == Prefixed(done + [g], Decode(data[next..]))
    ensures ok ==> StandsFor(out.Text(), done + [g], typ', space')
  {
    var hops;
    ok, typ', space', hops, next, g := ReadSegment(data, at, total, done);
    CountSnoc(done, g);
    count' := count + hops;
    if ok {
      PutSegment(out, data, at, typ, space, done);
    }
  }

  /** The loop over the segments; the closing delimiter of the last one is still missing. */
  method PutSegments(out: StrBuf, data: seq<Byte>) returns (ok: bool, typ: SegType, count: nat, ghost done: Path)
    requires |data| % 2 == 0 && out.Valid() && out.Text() == "" && out.len + 1 < out.buf.Length
    modifies out, out.buf
    ensures out.Valid() && out.len + 1 < out.buf.Length && (out.buf == old(out.buf) || fresh(out.buf))
    ensures Decode(data) == if ok then Some(done) else None
    ensures ok ==> out.Text() + Close(typ) == Print(done) && count == Count(done)
  {
    ghost var total, pairs := Decode(data), 0;
    PrefixedNone(total);
    assert data[0..] == data;
    ok, typ, count, done := true, AsSequence, 0, [];
    var space, pnt := false, 0;
    while pnt < |data|
      invariant 0 <= pnt <= |data| && pnt == 2 * pairs && total == Prefixed(done, Decode(data[pnt..]))
      invariant (out.buf == old(out.buf) || fresh(out.buf)) && out.Valid() && out.len + 1 < out.buf.Length
      invariant StandsFor(out.Text(), done, typ, space) && count == Count(done) && ok
      decreases |data| - pnt
    {
      assert pnt + 1 < |data|;
      ghost var g;
      ok, typ, space, count, pnt, g := PutNext(out, data, pnt, typ, space, count, total, done);
      if !ok {
        return;
      }
      done, pairs := done + [g], pairs + 1 + |g.ases|;
    }
    AllDecoded(total, done);
  }

  lemma AllDecoded(total: Option<Path>, done: Path)
    requires total == Prefixed(done, Decode([]))
    ensures total == Some(done)
  {
    assert done + [] == done;
  }

  /** One segment further in the walk, or the end of it. */
  lemma DecodeStep(total: Option<Path>, rest: seq<Byte>, done: Path)
    requires |rest| >= 2 && total == Prefixed(done, Decode(rest))
    ensures !StartsWhole(rest) ==> total == None
    ensures StartsWhole(rest) ==> total == Prefixed(done + [FirstSegment(rest)], Decode(rest[SegmentSize(rest[1])..]))
  {
    if StartsWhole(rest) {
      PrefixedStep(done, FirstSegment(rest), Decode(rest[SegmentSize(rest[1])..]));
    }
  }

  lemma DropTwice(data: seq<Byte>, a: nat, b: nat)
    requires a + b <= |data|
    ensures data[a..][b..] == data[a + b..]
  {
  }

  lemma PrefixedNone(rest: Option<Path>)
    ensures Prefixed([], rest) == rest
  {
    if rest.Some? {
      assert [] + rest.value == rest.value;
    }
  }

  /** aspath_parse, up to the hash table: what is accepted, its text and its count. */
  method AspathParse(data: seq<Byte>) returns (r: Option<(string, nat)>)
    ensures r.Some? <==> exists p: Path :: Fits(p) && Encode(p) == data
    ensures forall p: Path | Fits(p) && Encode(p) == data :: r == Some((Print(p), Count(p)))
  {
    DecodesIff(data);
    if |data| % 2 != 0 {
      return None;
    }
    r := MakeStrCount(data);
  }

  /** Accepted are exactly the encodings of paths, all of even length. */
  lemma DecodesIff(data: seq<Byte>)
    ensures Decode(data).Some? <==> exists p: Path :: Fits(p) && Encode(p) == data
    ensures forall p: Path | Fits(p) && Encode(p) == data :: Decode(data) == Some(p)
    ensures Decode(data).Some? ==> |data| % 2 == 0
  {
    forall p: Path | Fits(p) && Encode(p) == data
      ensures Decode(data) == Some(p)
    {
      DecodeEncode(p);
    }
    if Decode(data).Some? {
      EncodeDecode(data);
      DecodedIsEven(data);
    }
  }

  // ---------------------------------------------------------------- reading

  /** aspath_gettoken. */
  method ReadToken(s: string) returns (t: Token)
    ensures t == GetToken(s)
  {
    var p := s;
    while p != [] && IsSpace(p[0])
      invariant SkipSpace(p) == SkipSpace(s)
      decreases |p|
    {
      p := p[1..];
    }
    assert p == SkipSpace(s);
    if p == [] {
      return End;
    }
    if IsSymbol(p[0]) {
      return Symbol(p[0], p[1..]);
    }
    if !IsDigit(p[0]) {
      return Unknown;
    }
    var asval: As := 0;
    while p != [] && IsDigit(p[0])
      invariant Scan(p, asval) == GetToken(s)
      decreases |p|
    {
      asval := (asval * 10 + DigitOf(p[0])) % 0x1_0000;
      p := p[1..];
    }
    return Number(asval, p);
  }

  /** aspath_as_add; None when the entry would land outside the memory. */
  method AsAdd(data: seq<Byte>, n: As) returns (r: Option<seq<Byte>>)
    ensures r == AsAdded(data, n)
  {
    if |data| < 2 {
      return None;
    }
    var pnt, last := 0, 0;
    while pnt + 1 < |data|
      invariant 0 <= pnt && 0 <= last && last + 1 < |data| && LastFrom(data, pnt, last) == LastFrom(data, 0, 0)
      decreases |data| - pnt
    {
      last := pnt;
      pnt := pnt + SegmentSize(data[pnt + 1]);
    }
    if last + SegmentSize(data[last + 1]) != |data| {
      return None;
    }
    return Some(data[last + 1 := (data[last + 1] as int + 1) % 256] + AsBytes(n));
  }

  /** aspath_str2aspath. */
  method ReadAsPath(s: string) returns (r: Parsed)
    ensures r == Str2AsPath(s)
  {
    var data: seq<Byte> := [];
    var str, asType, need, sound := s, AsSequence, true, true;
    ghost var acts: seq<Action> := [];
    AfterAfter([], [], Actions(s, true));
    var token := ReadToken(str);
    while token.Number? || token.Symbol?
      invariant token == GetToken(str) && (need ==> asType == AsSequence)
      invariant Actions(s, true) == After(acts, Actions(str, need))
      invariant Apply([], acts) == if sound then Some(data) else None
      decreases |str|
    {
      ghost var step: seq<Action>;
      if token.Number? {
        step := if need then [NewSegment(AsSequence), AddAs(token.asn)] else [AddAs(token.asn)];
        if need {
          data := data + [Code(asType), 0];
        }
        var d := AsAdd(data, token.asn);
        ApplyNumber(acts, token.asn, need);
        if d.Some? {
          data := d.value;
        } else {
          sound := false;
        }
        need := false;
      } else if token.c == '{' || token.c == '(' {
        asType := if token.c == '{' then AsSet else ConfedSequence;
        step := [NewSegment(asType)];
        ApplySnoc([], acts, step);
        data := data + [Code(asType), 0];
        need := false;
      } else {
        step := [];
        asType, need := AsSequence, true;
        assert acts + [] == acts;
      }
      AfterAfter(acts, step, Actions(token.rest, need));
      acts := acts + step;
      str := token.rest;
      token := ReadToken(str);
    }
    if token.Unknown? {
      return Null;
    }
    assert acts + [] == acts;
    return if sound then Octets(data) else Overrun;
  }

  lemma {:induction false} ApplySnoc(data: seq<Byte>, acts: seq<Action>, more: seq<Action>)
    ensures Apply(data, acts + more) == match Apply(data, acts) case None => None case Some(d) => Apply(d, more)
    decreases |acts|
  {
    if acts == [] {
      assert acts + more == more;
    } else {
      assert (acts + more)[0] == acts[0] && (acts + more)[1..] == acts[1..] + more;
      match acts[0] {
        case NewSegment(t) => ApplySnoc(data + [Code(t), 0], acts[1..], more);
        case AddAs(n) =>
          if AsAdded(data, n).Some? {
            ApplySnoc(AsAdded(data, n).value, acts[1..], more);
          }
      }
    }
  }

  lemma ApplyNumber(acts: seq<Action>, n: As, need: bool)
    ensures Apply([], acts + if need then [NewSegment(AsSequence), AddAs(n)] else [AddAs(n)])
         == match Apply([], acts)
            case None => None
            case Some(d) => AsAdded(if need then d + [Code(AsSequence), 0] else d, n)
  {
    ApplySnoc([], acts, if need then [NewSegment(AsSequence), AddAs(n)] else [AddAs(n)]);
    assert [NewSegment(AsSequence), AddAs(n)] == [NewSegment(AsSequence)] + [AddAs(n)];
    match Apply([], acts) {
      case None =>
      case Some(d) =>
        ApplyNew(d, AsSequence, [AddAs(n)]);
        assert [AddAs(n)][1..] == [];
    }
  }
}
