/** AS paths as text, out and in (bgpd/bgp_aspath.c). */
module AsPathText {
  import opened Wrappers
  import opened Decimal
  import opened AsSegments
  import opened Octets
  import opened AsPathCodec

  // ---------------------------------------------------------------- the printed form

  function Open(t: SegType): string {
    match t
    case AsSet => "{"
    case AsSequence => ""
    case ConfedSequence => "("
    case ConfedSet => "["
  }

  function Close(t: SegType): string {
    match t
    case AsSet => "}"
    case AsSequence => ""
    case ConfedSequence => ")"
    case ConfedSet => "]"
  }

  function Separator(t: SegType): char {
    if t.AsSet? || t.ConfedSet? then ',' else ' '
  }

  function Members(ases: seq<As>, sep: char): string {
    if ases == [] then ""
    else if |ases| == 1 then Digits(ases[0])
    else Digits(ases[0]) + ([sep] + Members(ases[1..], sep))
  }

  function Item(g: Segment): string {
    Open(g.typ) + (Members(g.ases, Separator(g.typ)) + Close(g.typ))
  }

  /** What separates a segment from the next one. */
  function Gap(g: Segment): string {
    if g.ases == [] then "" else " "
  }

  function Print(p: Path): string {
    if p == [] then ""
    else if |p| == 1 then Item(p[0])
    else Item(p[0]) + (Gap(p[0]) + Print(p[1..]))
  }

  lemma {:induction false} MembersSnoc(ases: seq<As>, n: As, sep: char)
    ensures Members(ases + [n], sep) == (if ases == [] then "" else Members(ases, sep) + [sep]) + Digits(n)
  {
    if ases == [] {
      assert ases + [n] == [n];
    } else {
      var rest := ases[1..];
      MembersSnoc(rest, n, sep);
      assert (ases + [n])[0] == ases[0] && (ases + [n])[1..] == rest + [n];
      if rest == [] {
        assert [sep] + ("" + Digits(n)) == [sep] + Digits(n);
        Assoc(Digits(ases[0]), [sep], Digits(n));
      } else {
        Four(Digits(ases[0]), [sep], Members(rest, sep), [sep], Digits(n));
      }
    }
  }

  lemma Four(a: string, b: string, c: string, d: string, e: string)
    ensures a + (b + (c + d + e)) == a + (b + c) + d + e
  {
  }

  /** The text of one more segment, after the gap that the last one asks for. */
  lemma {:induction false} PrintSnoc(p: Path, g: Segment)
    requires p != []
    ensures Print(p + [g]) == Print(p) + (Gap(p[|p| - 1]) + Item(g))
  {
    var rest := p[1..];
    assert (p + [g])[0] == p[0] && (p + [g])[1..] == rest + [g];
    if rest == [] {
      assert rest + [g] == [g];
    } else {
      PrintSnoc(rest, g);
      assert rest[|rest| - 1] == p[|p| - 1];
      Assoc(Gap(p[0]), Print(rest), Gap(p[|p| - 1]) + Item(g));
      Assoc(Item(p[0]), Gap(p[0]) + Print(rest), Gap(p[|p| - 1]) + Item(g));
    }
  }

  // ---------------------------------------------------------------- the scanner

  datatype Token = End | Number(asn: As, rest: string) | Symbol(c: char, rest: string) | Unknown

  /** The digits of an AS number, in 16-bit arithmetic. */
  function Scan(s: string, asval: As): (t: Token)
    ensures t.Number? && |t.rest| <= |s| && (s != [] && IsDigit(s[0]) ==> |t.rest| < |s|)
  {
    if s == [] || !IsDigit(s[0]) then Number(asval, s)
    else Scan(s[1..], (asval * 10 + DigitOf(s[0])) % 0x1_0000)
  }

  predicate IsSymbol(c: char) {
    c == '{' || c == '}' || c == '(' || c == ')'
  }

  function GetToken(s: string): (t: Token)
    ensures (t.Number? || t.Symbol?) ==> |t.rest| < |s|
    ensures t.Symbol? ==> IsSymbol(t.c)
  {
    var p := SkipSpace(s);
    if p == [] then End
    else if IsSymbol(p[0]) then Symbol(p[0], p[1..])
    else if IsDigit(p[0]) then Scan(p, 0)
    else Unknown
  }

  /** What aspath_str2aspath does to the path: a new segment, or one more AS in the last one. */
  datatype Action = NewSegment(typ: SegType) | AddAs(asn: As)

  /** The actions that a text asks for; None for an unknown token. `need` is needtype. */
  function Actions(s: string, need: bool): Option<seq<Action>>
    decreases |s|
  {
    match GetToken(s)
    case End => Some([])
    case Unknown => None
    case Number(n, rest) => After(if need then [NewSegment(AsSequence), AddAs(n)] else [AddAs(n)], Actions(rest, false))
    case Symbol(c, rest) =>
      if c == '{' then After([NewSegment(AsSet)], Actions(rest, false))
      else if c == '(' then After([NewSegment(ConfedSequence)], Actions(rest, false))
      else Actions(rest, true)
  }

  function After(a: seq<Action>, later: Option<seq<Action>>): Option<seq<Action>> {
    match later
    case None => None
    case Some(b) => Some(a + b)
  }

  lemma AfterAfter(a: seq<Action>, b: seq<Action>, later: Option<seq<Action>>)
    ensures After(a, After(b, later)) == After(a + b, later)
    ensures After([], later) == later
  {
    if later.Some? {
      assert a + (b + later.value) == a + b + later.value;
      assert [] + later.value == later.value;
    }
  }

  // ---------------------------------------------------------------- reading the printed form

  predicate NumberEnds(t: string) {
    t == [] || !IsDigit(t[0])
  }

  lemma {:induction false} ScanDigits(ds: string, t: string, asval: As)
    requires AllDigits(ds) && NumberEnds(t)
    ensures Accumulate(ds, asval, 0x1_0000) < 0x1_0000
    ensures Scan(ds + t, asval) == Number(Accumulate(ds, asval, 0x1_0000), t)
  {
    if ds == [] {
      assert ds + t == t;
    } else {
      assert (ds + t)[0] == ds[0] && (ds + t)[1..] == ds[1..] + t;
      ScanDigits(ds[1..], t, (asval * 10 + DigitOf(ds[0])) % 0x1_0000);
    }
  }

  lemma NumberToken(n: As, t: string)
    requires NumberEnds(t)
    ensures GetToken(Digits(n) + t) == Number(n, t)
  {
    var s := Digits(n) + t;
    assert s[0] == Digits(n)[0] && IsDigit(s[0]);
    assert SkipSpace(s) == s;
    ScanDigits(Digits(n), t, 0);
    ReadBack(n, 0x1_0000);
  }

  lemma SymbolToken(c: char, t: string)
    requires IsSymbol(c)
    ensures GetToken([c] + t) == Symbol(c, t)
  {
    assert ([c] + t)[0] == c && ([c] + t)[1..] == t;
    assert SkipSpace([c] + t) == [c] + t;
  }

  lemma UnknownToken(c: char, t: string, need: bool)
    requires c == ',' || c == '[' || c == ']'
    ensures Actions([c] + t, need) == None
  {
    assert ([c] + t)[0] == c;
    assert SkipSpace([c] + t) == [c] + t;
  }

  lemma SpaceSkipped(t: string, need: bool)
    ensures Actions(" " + t, need) == Actions(t, need)
  {
    assert (" " + t)[1..] == t;
    assert GetToken(" " + t) == GetToken(t);
  }

  function Adds(ases: seq<As>): (r: seq<Action>)
    ensures |r| == |ases|
  {
    if ases == [] then [] else [AddAs(ases[0])] + Adds(ases[1..])
  }

  lemma ReadNumber(n: As, t: string)
    requires NumberEnds(t)
    ensures Actions(Digits(n) + t, false) == After([AddAs(n)], Actions(t, false))
  {
    NumberToken(n, t);
  }

  /** Entries set apart by blanks are read one by one. */
  lemma {:induction false} ReadMembers(ases: seq<As>, t: string)
    requires NumberEnds(t)
    ensures Actions(Members(ases, ' ') + t, false) == After(Adds(ases), Actions(t, false))
  {
    if ases == [] {
      assert "" + t == t;
      AfterAfter([], [], Actions(t, false));
    } else if |ases| == 1 {
      ReadNumber(ases[0], t);
      assert [AddAs(ases[0])] + [] == [AddAs(ases[0])];
    } else {
      var rest := ases[1..];
      var u := Members(rest, ' ') + t;
      ReadMembers(rest, t);
      ReadNumber(ases[0], " " + u);
      SpaceSkipped(u, false);
      AfterAfter([AddAs(ases[0])], Adds(rest), Actions(t, false));
      Assoc(Digits(ases[0]), [' '] + Members(rest, ' '), t);
      Assoc([' '], Members(rest, ' '), t);
    }
  }

  /** A comma stops the reader. */
  lemma ReadComma(ases: seq<As>, t: string)
    requires |ases| > 1
    ensures Actions(Members(ases, ',') + t, false) == None
  {
    var m := Members(ases[1..], ',');
    ReadNumber(ases[0], [','] + (m + t));
    UnknownToken(',', m + t, false);
    Assoc(Digits(ases[0]), [','] + m, t);
    Assoc([','], m, t);
  }

  /** The segments that the scanner knows: no AS_CONFED_SET, and no comma. */
  predicate Readable(g: Segment) {
    !g.typ.ConfedSet? && (g.typ.AsSet? ==> |g.ases| <= 1)
  }

  predicate AllReadable(p: Path) {
    forall i | 0 <= i < |p| :: Readable(p[i])
  }

  /** The actions that one segment leads to, and needtype afterwards. */
  function SegmentActions(g: Segment, need: bool): seq<Action> {
    if g.typ.AsSequence? then (if need && g.ases != [] then [NewSegment(AsSequence)] else []) + Adds(g.ases)
    else [NewSegment(g.typ)] + Adds(g.ases)
  }

  predicate NeedAfter(g: Segment, need: bool) {
    if g.typ.AsSequence? then need && g.ases == [] else true
  }

  function PathActions(p: Path, need: bool): seq<Action> {
    if p == [] then [] else SegmentActions(p[0], need) + PathActions(p[1..], NeedAfter(p[0], need))
  }

  lemma ReadSequence(ases: seq<As>, t: string, need: bool)
    requires NumberEnds(t) && ases != []
    ensures Actions(Members(ases, ' ') + t, need)
         == After((if need then [NewSegment(AsSequence)] else []) + Adds(ases), Actions(t, false))
  {
    ReadMembers(ases, t);
    if need {
      NeedOnlyAdds(ases, t);
      AfterAfter([NewSegment(AsSequence)], Adds(ases), Actions(t, false));
    } else {
      assert [] + Adds(ases) == Adds(ases);
    }
  }

  /** needtype only puts a new segment in front of the first number. */
  lemma NeedOnlyAdds(ases: seq<As>, t: string)
    requires NumberEnds(t) && ases != []
    ensures Actions(Members(ases, ' ') + t, true)
         == After([NewSegment(AsSequence)], Actions(Members(ases, ' ') + t, false))
  {
    if |ases| == 1 {
      NeedOnlyAdd(ases[0], t);
    } else {
      var m := Members(ases[1..], ' ');
      Assoc(Digits(ases[0]), [' '] + m, t);
      Assoc([' '], m, t);
      NeedOnlyAdd(ases[0], [' '] + (m + t));
    }
  }

  lemma NeedOnlyAdd(n: As, t: string)
    requires NumberEnds(t)
    ensures Actions(Digits(n) + t, true) == After([NewSegment(AsSequence)], Actions(Digits(n) + t, false))
  {
    NumberToken(n, t);
    AfterAfter([NewSegment(AsSequence)], [AddAs(n)], Actions(t, false));
    assert [NewSegment(AsSequence)] + [AddAs(n)] == [NewSegment(AsSequence), AddAs(n)];
  }

  lemma ReadEnclosed(g: Segment, t: string, need: bool)
    requires Readable(g) && !g.typ.AsSequence?
    ensures Actions(Item(g) + t, need) == After(SegmentActions(g, need), Actions(t, true))
  {
    var close := if g.typ.AsSet? then '}' else ')';
    var m := Members(g.ases, ' ');
    assert g.ases == [] || |g.ases| == 1 || g.typ.ConfedSequence?;
    assert m == Members(g.ases, Separator(g.typ));
    Regroup(Open(g.typ), m, Close(g.typ), t);
    SymbolToken(Open(g.typ)[0], m + ([close] + t));
    ReadMembers(g.ases, [close] + t);
    SymbolToken(close, t);
    AfterAfter([NewSegment(g.typ)], Adds(g.ases), Actions(t, true));
  }

  lemma ReadUnreadable(g: Segment, t: string, need: bool)
    requires !Readable(g)
    ensures Actions(Item(g) + t, need) == None
  {
    var m := Members(g.ases, ',');
    Regroup(Open(g.typ), m, Close(g.typ), t);
    if g.typ.ConfedSet? {
      UnknownToken('[', m + (Close(g.typ) + t), need);
    } else {
      SymbolToken('{', m + (Close(g.typ) + t));
      ReadComma(g.ases, Close(g.typ) + t);
    }
  }

  /** One segment, whatever comes behind it. */
  lemma ReadItem(g: Segment, t: string, need: bool)
    requires g.ases != [] ==> NumberEnds(t)
    ensures Actions(Item(g) + t, need)
         == if Readable(g) then After(SegmentActions(g, need), Actions(t, NeedAfter(g, need))) else None
  {
    if !Readable(g) {
      ReadUnreadable(g, t, need);
    } else if !g.typ.AsSequence? {
      ReadEnclosed(g, t, need);
    } else {
      var m := Members(g.ases, ' ');
      assert Item(g) == m;
      if g.ases == [] {
        assert m + t == t;
        AfterAfter([], [], Actions(t, need));
      } else {
        ReadSequence(g.ases, t, need);
      }
    }
  }

  /** The reader's view of every printed path. */
  lemma {:induction false} ReadPrint(p: Path, need: bool)
    ensures Actions(Print(p), need) == if AllReadable(p) then Some(PathActions(p, need)) else None
  {
    if p == [] {
      assert GetToken("") == End;
    } else {
      var g, rest := p[0], p[1..];
      var t := if rest == [] then "" else Gap(g) + Print(rest);
      assert Item(g) + "" == Item(g);
      assert Print(p) == Item(g) + t;
      ReadItem(g, t, need);
      ReadPrint(rest, NeedAfter(g, need));
      ReadGap(g, rest, NeedAfter(g, need));
      assert AllReadable(p) <==> Readable(g) && AllReadable(rest) by {
        assert p == [g] + rest;
      }
    }
  }

  lemma ReadGap(g: Segment, rest: Path, need: bool)
    ensures Actions(if rest == [] then "" else Gap(g) + Print(rest), need) == Actions(Print(rest), need)
  {
    if g.ases == [] {
      assert "" + Print(rest) == Print(rest);
    } else {
      SpaceSkipped(Print(rest), need);
    }
  }

  // ---------------------------------------------------------------- rebuilding the octets

  /** The actions that would rebuild the path. */
  function Build(p: Path): seq<Action> {
    if p == [] then [] else [NewSegment(p[0].typ)] + Adds(p[0].ases) + Build(p[1..])
  }

  /** Where aspath_as_add ends its search for the last segment: the start of the segment it takes. The
      octets come in pairs, so that a position inside leaves room for a segment header. */
  function LastFrom(data: seq<Byte>, pnt: nat, last: nat): (r: nat)
    requires last + 1 < |data|
    ensures r + 1 < |data|
    decreases |data| - pnt
  {
    if pnt + 1 < |data| then LastFrom(data, pnt + SegmentSize(data[pnt + 1]), pnt) else last
  }

  /** aspath_as_add: None when the new entry would be written behind the enlarged memory. */
  function AsAdded(data: seq<Byte>, n: As): (r: Option<seq<Byte>>)
    ensures r.Some? ==> |r.value| == |data| + 2
  {
    if |data| < 2 then None
    else
      var last := LastFrom(data, 0, 0);
      if last + SegmentSize(data[last + 1]) != |data| then None
      else Some(data[last + 1 := (data[last + 1] as int + 1) % 256] + AsBytes(n))
  }

  function Apply(data: seq<Byte>, acts: seq<Action>): (r: Option<seq<Byte>>)
    ensures r.Some? ==> |r.value| == |data| + 2 * |acts|
    decreases |acts|
  {
    if acts == [] then Some(data)
    else match acts[0]
      case NewSegment(t) => Apply(data + [Code(t), 0], acts[1..])
      case AddAs(n) =>
        match AsAdded(data, n)
        case None => None
        case Some(d) => Apply(d, acts[1..])
  }

  /** What aspath_str2aspath gives: NULL, a write outside its memory, or the octets. */
  datatype Parsed = Null | Overrun | Octets(data: seq<Byte>)

  function Str2AsPath(s: string): Parsed {
    match Actions(s, true)
    case None => Null
    case Some(acts) =>
      match Apply([], acts)
      case None => Overrun
      case Some(d) => Octets(d)
  }

  lemma {:induction false} LastOfEncoded(a: seq<Byte>, f: Path, g: Segment, last: nat)
    requires Fits(f) && |g.ases| <= 255 && Fits(f + [g])
    requires last + 1 < |a + Encode(f + [g])|
    ensures LastFrom(a + Encode(f + [g]), |a|, last) == |a| + |Encode(f)|
    decreases |f|
  {
    var data := a + Encode(f + [g]);
    if f == [] {
      assert f + [g] == [g];
      EncodeOne(g);
      FirstAt(a, g, []);
      assert EncodeSegment(g) + [] == EncodeSegment(g);
    } else {
      var f' := f[1..];
      var e := EncodeSegment(f[0]);
      assert f + [g] == [f[0]] + (f' + [g]);
      EncodeCons(f[0], f' + [g]);
      FirstAt(a, f[0], Encode(f' + [g]));
      LastOfEncoded(a + e, f', g, |a|);
    }
  }

  lemma FirstAt(a: seq<Byte>, g: Segment, rest: seq<Byte>)
    requires |g.ases| <= 255
    ensures var data := a + (EncodeSegment(g) + rest);
            |a| + 1 < |data| && |a| + SegmentSize(data[|a| + 1]) == |a + EncodeSegment(g)|
            && data == a + EncodeSegment(g) + rest
  {
  }

  /** aspath_as_add puts one more AS in the last segment while that has room. */
  lemma AsAddedMeans(a: seq<Byte>, f: Path, g: Segment, n: As)
    requires Fits(f) && |g.ases| < 255 && a == Encode(f)
    ensures AsAdded(a + EncodeSegment(g), n) == Some(a + EncodeSegment(Longer(g, [n])))
  {
    LastIs(a, f, g);
    EncodeOneMore(g, n);
    PutBehind(a, EncodeSegment(g), n);
  }

  lemma LastIs(a: seq<Byte>, f: Path, g: Segment)
    requires Fits(f) && |g.ases| <= 255 && a == Encode(f)
    ensures var d := a + EncodeSegment(g);
            |d| >= 2 && LastFrom(d, 0, 0) == |a| && |a| + SegmentSize(d[|a| + 1]) == |d|
  {
    var d := a + EncodeSegment(g);
    EncodeSnoc(f, g);
    LastOfEncoded([], f, g, 0);
    assert [] + d == d;
  }

  lemma EncodeOneMore(g: Segment, n: As)
    requires |g.ases| < 255
    ensures EncodeSegment(Longer(g, [n])) == EncodeSegment(g)[1 := |g.ases| + 1] + AsBytes(n)
  {
    EncodeAsesConcat(g.ases, [n]);
    assert [n][1..] == [];
    assert EncodeAses([n]) == AsBytes(n);
    HeaderChange([Code(g.typ), |g.ases|], EncodeAses(g.ases), |g.ases| + 1);
    assert [Code(g.typ), |g.ases| + 1] + (EncodeAses(g.ases) + AsBytes(n))
        == [Code(g.typ), |g.ases| + 1] + EncodeAses(g.ases) + AsBytes(n);
  }

  lemma HeaderChange(h: seq<Byte>, e: seq<Byte>, l: Byte)
    requires |h| == 2
    ensures (h + e)[1 := l] == [h[0], l] + e
  {
  }

  lemma PutBehind(a: seq<Byte>, e: seq<Byte>, n: As)
    requires |e| >= 2 && e[1] < 255
    ensures var d := a + e;
            && d[|a| + 1] == e[1]
            && d[|a| + 1 := (d[|a| + 1] as int + 1) % 256] + AsBytes(n)
            == a + (e[1 := e[1] as int + 1] + AsBytes(n))
  {
    var l: Byte := e[1] as int + 1;
    assert (a + e)[|a| + 1 := l] == a + e[1 := l];
    assert a + e[1 := l] + AsBytes(n) == a + (e[1 := l] + AsBytes(n));
  }

  lemma ApplyNew(d: seq<Byte>, t: SegType, acts: seq<Action>)
    ensures Apply(d, [NewSegment(t)] + acts) == Apply(d + [Code(t), 0], acts)
  {
    assert ([NewSegment(t)] + acts)[1..] == acts;
  }

  lemma ApplyAs(d: seq<Byte>, n: As, acts: seq<Action>)
    requires AsAdded(d, n).Some?
    ensures Apply(d, [AddAs(n)] + acts) == Apply(AsAdded(d, n).value, acts)
  {
    assert ([AddAs(n)] + acts)[1..] == acts;
  }

  lemma {:induction false} ApplyAdds(a: seq<Byte>, f: Path, g: Segment, ases: seq<As>, acts: seq<Action>)
    requires Fits(f) && |g.ases| + |ases| <= 255 && a == Encode(f)
    ensures Apply(a + EncodeSegment(g), Adds(ases) + acts)
         == Apply(a + EncodeSegment(Longer(g, ases)), acts)
    decreases |ases|
  {
    LongerTwice(g, ases);
    if ases == [] {
      assert Adds(ases) + acts == acts;
    } else {
      var n, rest := ases[0], ases[1..];
      AsAddedMeans(a, f, g, n);
      AddsFirst(ases, acts);
      ApplyAs(a + EncodeSegment(g), n, Adds(rest) + acts);
      ApplyAdds(a, f, Longer(g, [n]), rest, acts);
    }
  }

  /** A segment with more entries. */
  function Longer(g: Segment, ases: seq<As>): Segment {
    Segment(g.typ, g.ases + ases)
  }

  lemma LongerTwice(g: Segment, ases: seq<As>)
    ensures Longer(g, []) == g
    ensures ases != [] ==> Longer(Longer(g, [ases[0]]), ases[1..]) == Longer(g, ases)
  {
    assert g.ases + [] == g.ases;
    if ases != [] {
      assert g.ases + [ases[0]] + ases[1..] == g.ases + ases;
    }
  }

  lemma AddsFirst(ases: seq<As>, acts: seq<Action>)
    requires ases != []
    ensures Adds(ases) + acts == [AddAs(ases[0])] + (Adds(ases[1..]) + acts)
  {
  }

  /** Applied to the octets of one path, the actions of another append its octets. */
  lemma {:induction false} ApplyBuild(a: seq<Byte>, f: Path, p: Path)
    requires Fits(f) && Fits(p) && a == Encode(f)
    ensures Apply(a, Build(p)) == Some(a + Encode(p))
    decreases |p|
  {
    if p == [] {
      assert a + Encode(p) == a;
    } else {
      var g, rest := p[0], p[1..];
      var acts := Build(rest);
      assert Build(p) == [NewSegment(g.typ)] + (Adds(g.ases) + acts);
      ApplySegment(a, f, g, acts);
      EncodeSnoc(f, g);
      ApplyBuild(a + EncodeSegment(g), f + [g], rest);
      Assoc(a, EncodeSegment(g), Encode(rest));
    }
  }

  lemma ApplySegment(a: seq<Byte>, f: Path, g: Segment, acts: seq<Action>)
    requires Fits(f) && |g.ases| <= 255 && a == Encode(f)
    ensures Apply(a, [NewSegment(g.typ)] + (Adds(g.ases) + acts)) == Apply(a + EncodeSegment(g), acts)
  {
    var empty := Segment(g.typ, []);
    ApplyNew(a, g.typ, Adds(g.ases) + acts);
    assert EncodeSegment(empty) == [Code(g.typ), 0];
    ApplyAdds(a, f, empty, g.ases, acts);
    assert [] + g.ases == g.ases;
    assert Longer(empty, g.ases) == g;
  }

  // ---------------------------------------------------------------- the round trip

  /** No AS_SEQUENCE is empty or follows another; `need` says whether one may come now. */
  predicate Tidy(p: Path, need: bool) {
    p == [] || if p[0].typ.AsSequence? then need && p[0].ases != [] && Tidy(p[1..], false) else Tidy(p[1..], true)
  }

  lemma {:induction false} TidyMeans(p: Path, need: bool)
    ensures Tidy(p, need) <==>
              && (forall i | 0 <= i < |p| && p[i].typ.AsSequence? :: p[i].ases != [])
              && (forall i | 0 <= i < |p| - 1 :: !(p[i].typ.AsSequence? && p[i + 1].typ.AsSequence?))
              && (p != [] && p[0].typ.AsSequence? ==> need)
  {
    if p != [] {
      var rest := p[1..];
      TidyMeans(rest, !p[0].typ.AsSequence?);
      assert forall i | 0 <= i < |rest| :: rest[i] == p[i + 1];
      if Tidy(p, need) {
        forall i | 0 <= i < |p| - 1
          ensures !(p[i].typ.AsSequence? && p[i + 1].typ.AsSequence?)
        {
          if i > 0 {
            assert p[i] == rest[i - 1] && p[i + 1] == rest[i - 1 + 1];
          }
        }
      }
    }
  }

  /** The reader does what the path needs exactly when it is tidy, and else it opens too few segments. */
  lemma {:induction false} TidyBuilds(p: Path, need: bool)
    ensures Tidy(p, need) ==> PathActions(p, need) == Build(p)
    ensures !Tidy(p, need) ==> |PathActions(p, need)| < |Build(p)|
    ensures |PathActions(p, need)| <= |Build(p)|
  {
    if p != [] {
      TidyBuilds(p[1..], NeedAfter(p[0], need));
    }
  }

  lemma {:induction false} BuildLength(p: Path)
    ensures |Build(p)| == |p| + AsCount(p)
  {
    if p != [] {
      BuildLength(p[1..]);
    }
  }

  /** aspath_str2aspath undoes aspath_make_str_count octet for octet exactly on the paths without
      AS_CONFED_SET, with at most one member in an AS_SET, without empty AS_SEQUENCE and without two
      adjacent ones. */
  lemma TextRoundTrip(p: Path)
    requires Fits(p)
    ensures Str2AsPath(Print(p)) == Octets(Encode(p)) <==> AllReadable(p) && Tidy(p, true)
  {
    ReadPrint(p, true);
    TidyBuilds(p, true);
    ApplyBuild([], [], p);
    assert [] + Encode(p) == Encode(p);
    BuildLength(p);
    EncodeLength(p);
  }

  /** NULL exactly for an unknown token: an AS_CONFED_SET or a comma. */
  lemma NullWhenUnreadable(p: Path)
    ensures Str2AsPath(Print(p)) == Null <==> !AllReadable(p)
  {
    ReadPrint(p, true);
  }

  // ---------------------------------------------------------------- what any text is read as

  /** One action, on the path and not on its octets. */
  function Grown(p: Path, act: Action): Path {
    match act
    case NewSegment(t) => p + [Segment(t, [])]
    case AddAs(n) => if p == [] then [] else p[..|p| - 1] + [Longer(p[|p| - 1], [n])]
  }

  /** The path that actions stand for. */
  function PathOf(acts: seq<Action>): Path {
    if acts == [] then [] else Grown(PathOf(acts[..|acts| - 1]), acts[|acts| - 1])
  }

  /** The reader opens a segment before it adds an AS. */
  predicate Started(acts: seq<Action>) {
    acts == [] || acts[0].NewSegment?
  }

  lemma {:induction false} ActionsStart(s: string)
    ensures Actions(s, true).Some? ==> Started(Actions(s, true).value)
    decreases |s|
  {
    var t := GetToken(s);
    if t.Symbol? && t.c != '{' && t.c != '(' {
      ActionsStart(t.rest);
    }
  }

  lemma {:induction false} BuildSnoc(f: Path, g: Segment)
    ensures Build(f + [g]) == Build(f) + ([NewSegment(g.typ)] + Adds(g.ases))
  {
    var one := [NewSegment(g.typ)] + Adds(g.ases);
    if f == [] {
      assert f + [g] == [g] && [g][1..] == [];
      assert one + [] == one && [] + one == one;
    } else {
      var f' := f[1..];
      BuildSnoc(f', g);
      assert (f + [g])[0] == f[0] && (f + [g])[1..] == f' + [g];
      Assoc([NewSegment(f[0].typ)] + Adds(f[0].ases), Build(f'), one);
    }
  }

  lemma {:induction false} AddsSnoc(ases: seq<As>, n: As)
    ensures Adds(ases + [n]) == Adds(ases) + [AddAs(n)]
  {
    if ases == [] {
      assert ases + [n] == [n] && [n][1..] == [];
    } else {
      AddsSnoc(ases[1..], n);
      assert (ases + [n])[0] == ases[0] && (ases + [n])[1..] == ases[1..] + [n];
    }
  }

  /** Those are the actions that build it. */
  lemma {:induction false} PathOfMeans(acts: seq<Action>)
    requires Started(acts)
    ensures Build(PathOf(acts)) == acts && (acts != [] ==> PathOf(acts) != [])
    decreases |acts|
  {
    if acts != [] {
      var k := |acts| - 1;
      var front, last := acts[..k], acts[k];
      assert acts == front + [last];
      PathOfMeans(front);
      var p := PathOf(front);
      match last {
        case NewSegment(t) =>
          BuildSnoc(p, Segment(t, []));
          assert [NewSegment(t)] + [] == [NewSegment(t)];
        case AddAs(n) =>
          var f, g := p[..|p| - 1], p[|p| - 1];
          assert p == f + [g];
          BuildSnoc(f, g);
          BuildSnoc(f, Longer(g, [n]));
          AddsSnoc(g.ases, n);
          Regroup(Build(f), [NewSegment(g.typ)], Adds(g.ases), [AddAs(n)]);
      }
    }
  }

  /** A text without unknown token stands for a path, and gives octets that decode to it exactly when no
      segment of it has more than 255 entries; then they are the octets of the path. */
  lemma TextMeans(s: string)
    requires Actions(s, true).Some?
    ensures var p := PathOf(Actions(s, true).value);
            && Build(p) == Actions(s, true).value
            && (Fits(p) ==> Str2AsPath(s) == Octets(Encode(p)))
            && (Str2AsPath(s).Octets? && Decode(Str2AsPath(s).data) == Some(p) <==> Fits(p))
  {
    var acts := Actions(s, true).value;
    var p := PathOf(acts);
    ActionsStart(s);
    PathOfMeans(acts);
    if Fits(p) {
      ApplyBuild([], [], p);
      assert [] + Encode(p) == Encode(p);
      DecodeEncode(p);
    } else if Str2AsPath(s).Octets? && Decode(Str2AsPath(s).data).Some? {
      EncodeDecode(Str2AsPath(s).data);
    }
  }

  // ---------------------------------------------------------------- a text that overruns the memory

  /** A sequence of n entries 254. */
  function Many(n: nat): seq<As> {
    seq(n, _ => 254)
  }

  lemma {:induction false} EncodeManyAt(n: nat, i: nat)
    requires i < n
    ensures EncodeAses(Many(n))[2 * i] == 0 && EncodeAses(Many(n))[2 * i + 1] == 254
  {
    var m := n - 1;
    assert Many(n)[0] == 254 && Many(n)[1..] == Many(m);
    if i > 0 {
      EncodeManyAt(m, i - 1);
    }
  }

  /** At the 256th entry the length octet wraps; at the 257th the search for the last segment runs through
      the entries, and the new one would be written outside the memory. */
  lemma WrappedOverruns(d: seq<Byte>)
    requires |d| == 514 && d[1] == 0 && d[3] == 254 && d[513] == 254
    ensures AsAdded(d, 254) == None
  {
    assert LastFrom(d, 1022, 512) == 512;
    assert LastFrom(d, 512, 2) == LastFrom(d, 1022, 512);
    assert LastFrom(d, 2, 0) == LastFrom(d, 512, 2);
    assert LastFrom(d, 0, 0) == LastFrom(d, 2, 0);
  }

  /** 257 numbers 254 in one sequence overrun the memory of the path. */
  lemma ManyOverrun(n: nat)
    requires n == 257
    ensures Str2AsPath(Members(Many(n), ' ')) == Overrun
  {
    var m: nat := n - 2;
    var g, two := Segment(AsSequence, Many(m)), [AddAs(254), AddAs(254)];
    ManyActions(m);
    ApplySegment([], [], g, two);
    assert [] + EncodeSegment(g) == EncodeSegment(g);
    ManyWrap(m);
  }

  lemma ManyActions(m: nat)
    ensures Actions(Members(Many(m + 2), ' '), true)
         == Some([NewSegment(AsSequence)] + (Adds(Many(m)) + [AddAs(254), AddAs(254)]))
  {
    var ases := Many(m + 2);
    ReadSequence(ases, "", true);
    assert Members(ases, ' ') + "" == Members(ases, ' ');
    assert GetToken("") == End;
    assert ases == Many(m) + [254] + [254];
    AddsSnoc(Many(m), 254);
    AddsSnoc(Many(m) + [254], 254);
    assert Adds(ases) == Adds(Many(m)) + [AddAs(254), AddAs(254)];
    assert [NewSegment(AsSequence)] + Adds(ases) + [] == [NewSegment(AsSequence)] + Adds(ases);
  }

  lemma ManyWrap(m: nat)
    requires m == 255
    ensures Apply(EncodeSegment(Segment(AsSequence, Many(m))), [AddAs(254), AddAs(254)]) == None
  {
    var g := Segment(AsSequence, Many(m));
    var e := EncodeSegment(g);
    LastIs([], [], g);
    assert [] + e == e;
    var d := e[1 := 0] + AsBytes(254);
    assert AsAdded(e, 254) == Some(d);
    ApplyAs(e, 254, [AddAs(254)]);
    assert [AddAs(254)] + [AddAs(254)] == [AddAs(254), AddAs(254)];
    EncodeManyAt(m, 0);
    assert e[3] == e[2..][1];
    assert d[513] == AsBytes(254)[1];
    WrappedOverruns(d);
  }

  /** The text of a segment of each type, and of a segment in front of another. */
  lemma TextsAre(a: As, b: As, g: Segment, h: Segment)
    ensures Print([Segment(AsSequence, [a, b])]) == Digits(a) + (" " + Digits(b))
    ensures Print([Segment(AsSet, [a, b])]) == "{" + (Digits(a) + ("," + Digits(b)) + "}")
    ensures Print([Segment(ConfedSequence, [a, b])]) == "(" + (Digits(a) + (" " + Digits(b)) + ")")
    ensures Print([Segment(ConfedSet, [a, b])]) == "[" + (Digits(a) + ("," + Digits(b)) + "]")
    ensures Print([g, h]) == if g.ases == [] then Print([g]) + Print([h]) else Print([g]) + (" " + Print([h]))
  {
    assert [a, b][1..] == [b] && [g, h][1..] == [h];
    assert Members([a, b], ' ') == Digits(a) + (" " + Digits(b));
    assert Members([a, b], ',') == Digits(a) + ("," + Digits(b));
    assert "" + (Digits(a) + (" " + Digits(b)) + "") == Digits(a) + (" " + Digits(b));
    assert "" + Print([h]) == Print([h]);
  }
}
