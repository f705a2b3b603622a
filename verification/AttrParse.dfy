/** The walk over the path attributes of an UPDATE message (bgpd/bgp_attr.c; sections 4.3 and 5 of
    RFC 4271). */
module AttrParse {
  import opened Wrappers
  import opened Octets

  /** The bit of an attribute flag octet with the given weight. */
  predicate Bit(flag: Byte, weight: nat)
    requires weight > 0
  {
    (flag as int / weight) % 2 == 1
  }

  predicate Optional(flag: Byte) {
    Bit(flag, 0x80)
  }

  predicate Transitive(flag: Byte) {
    Bit(flag, 0x40)
  }

  predicate Extended(flag: Byte) {
    Bit(flag, 0x10)
  }

  /** SET_FLAG with the Partial bit: it is set, and no other bit changes. */
  function WithPartial(flag: Byte): (r: Byte)
    ensures Bit(r, 0x20) && Optional(r) == Optional(flag)
    ensures Transitive(r) == Transitive(flag) && Extended(r) == Extended(flag)
    ensures r % 0x10 == flag % 0x10
  {
    if Bit(flag, 0x20) then flag
    else
      SetPartial(flag);
      flag as int + 0x20
  }

  lemma SetPartial(flag: Byte)
    requires !Bit(flag, 0x20)
    ensures flag as int + 0x20 < 256
    ensures var r := flag as int + 0x20;
            r / 0x20 % 2 == 1 && r / 0x80 == flag as int / 0x80 && r / 0x40 == flag as int / 0x40
            && r / 0x10 == flag as int / 0x10 + 2 && r % 0x10 == flag % 0x10
  {
    var n := flag as int;
    var q := n / 0x40;
    assert n / 0x20 == 2 * q;
  }

  // ---------------------------------------------------------------- records

  datatype Record = Record(flag: Byte, typ: Byte, value: seq<Byte>)

  predicate Valid(r: Record) {
    |r.value| < if Extended(r.flag) then 0x1_0000 else 0x100
  }

  function HeaderSize(flag: Byte): nat {
    if Extended(flag) then 4 else 3
  }

  function LengthBytes(flag: Byte, n: nat): (b: seq<Byte>)
    requires n < if Extended(flag) then 0x1_0000 else 0x100
    ensures |b| == HeaderSize(flag) - 2
  {
    if Extended(flag) then [n / 256, n % 256] else [n]
  }

  /** The length that the header announces; `b` starts at the length octets. */
  function LengthOf(flag: Byte, b: seq<Byte>): (n: nat)
    requires |b| >= HeaderSize(flag) - 2
    ensures n < if Extended(flag) then 0x1_0000 else 0x100
  {
    if Extended(flag) then 256 * (b[0] as int) + b[1] else b[0]
  }

  lemma LengthThereAndBack(flag: Byte, n: nat)
    requires n < if Extended(flag) then 0x1_0000 else 0x100
    ensures LengthOf(flag, LengthBytes(flag, n)) == n
  {
  }

  lemma LengthBackAndThere(flag: Byte, b: seq<Byte>)
    requires |b| == HeaderSize(flag) - 2
    ensures LengthBytes(flag, LengthOf(flag, b)) == b
  {
  }

  function Encode(r: Record): (b: seq<Byte>)
    requires Valid(r)
    ensures |b| == HeaderSize(r.flag) + |r.value|
  {
    [r.flag, r.typ] + LengthBytes(r.flag, |r.value|) + r.value
  }

  predicate AllValid(rs: seq<Record>) {
    forall i | 0 <= i < |rs| :: Valid(rs[i])
  }

  function EncodeAll(rs: seq<Record>): seq<Byte>
    requires AllValid(rs)
  {
    if rs == [] then [] else Encode(rs[0]) + EncodeAll(rs[1..])
  }

  /** A whole record comes first. */
  predicate StartsWhole(b: seq<Byte>) {
    |b| >= 2 && HeaderSize(b[0]) <= |b| && FirstSize(b) <= |b|
  }

  function FirstSize(b: seq<Byte>): nat
    requires |b| >= 2 && HeaderSize(b[0]) <= |b|
  {
    HeaderSize(b[0]) + LengthOf(b[0], b[2..])
  }

  function First(b: seq<Byte>): (r: Record)
    requires StartsWhole(b)
    ensures Valid(r)
  {
    Record(b[0], b[1], b[HeaderSize(b[0])..FirstSize(b)])
  }

  /** The records that a region consists of. */
  function Split(b: seq<Byte>): Option<seq<Record>> {
    if b == [] then Some([])
    else if !StartsWhole(b) then None
    else match Split(b[FirstSize(b)..])
      case None => None
      case Some(rs) => Some([First(b)] + rs)
  }

  lemma FirstOfEncoded(r: Record, rest: seq<Byte>)
    requires Valid(r)
    ensures var b := Encode(r) + rest;
            StartsWhole(b) && First(b) == r && FirstSize(b) == |Encode(r)| && b[FirstSize(b)..] == rest
  {
    var h := HeaderSize(r.flag);
    var l := LengthBytes(r.flag, |r.value|);
    var b := Encode(r) + rest;
    assert b[0] == r.flag && b[1] == r.typ;
    assert b[2..][0] == l[0] && (Extended(r.flag) ==> b[2..][1] == l[1]);
    LengthThereAndBack(r.flag, |r.value|);
    assert LengthOf(b[0], b[2..]) == |r.value|;
    assert b[h..h + |r.value|] == r.value;
  }

  lemma EncodeFirst(b: seq<Byte>)
    requires StartsWhole(b)
    ensures Encode(First(b)) == b[..FirstSize(b)]
  {
    var h, n := HeaderSize(b[0]), FirstSize(b);
    var l := b[2..h];
    assert l[0] == b[2..][0] && (Extended(b[0]) ==> l[1] == b[2..][1]);
    LengthBackAndThere(b[0], l);
    assert b[..n] == [b[0], b[1]] + l + b[h..n];
  }

  /** Splitting is the inverse of concatenating encoded records, in both directions. */
  lemma {:induction false} SplitEncoded(rs: seq<Record>)
    requires AllValid(rs)
    ensures Split(EncodeAll(rs)) == Some(rs)
  {
    if rs != [] {
      SplitEncoded(rs[1..]);
      FirstOfEncoded(rs[0], EncodeAll(rs[1..]));
      assert rs == [rs[0]] + rs[1..];
    }
  }

  lemma {:induction false} EncodeSplit(b: seq<Byte>)
    requires Split(b).Some?
    ensures AllValid(Split(b).value) && EncodeAll(Split(b).value) == b
  {
    if b != [] {
      var n := FirstSize(b);
      EncodeSplit(b[n..]);
      EncodeFirst(b);
      var rs := Split(b[n..]).value;
      assert Split(b).value[1..] == rs;
      assert b == b[..n] + b[n..];
    }
  }

  // ---------------------------------------------------------------- what the walk computes

  /** Types with a handler of their own. */
  predicate Recognised(typ: Byte) {
    1 <= typ <= 10 || 14 <= typ <= 16
  }

  /** What a handler reports: failure, or the attribute and how far it moved the read pointer. */
  datatype Handled<A> = Rejected | Handled(attr: A, consumed: nat)

  /** A handler sees the attribute so far, flag, type, announced length and the input from the value on. */
  type Handler<!A> = (A, Byte, Byte, nat, seq<Byte>) -> Handled<A>

  datatype Outcome<A> = Failed | Parsed(attr: A, transit: seq<Byte>)

  /** Unrecognised, optional and transitive: to be passed on. */
  predicate PassedOn(flag: Byte, typ: Byte) {
    !Recognised(typ) && Optional(flag) && Transitive(flag)
  }

  /** A record as it is passed on, with the Partial bit. */
  function Marked(r: Record): Record {
    if PassedOn(r.flag, r.typ) then r.(flag := WithPartial(r.flag)) else r
  }

  lemma MarkedIsValid(r: Record)
    requires Valid(r)
    ensures Valid(Marked(r)) && Extended(Marked(r).flag) == Extended(r.flag)
    ensures PassedOn(r.flag, r.typ) ==> Encode(Marked(r)) == Encode(r)[0 := WithPartial(r.flag)]
    ensures !PassedOn(r.flag, r.typ) ==> Encode(Marked(r)) == Encode(r)
  {
  }

  /** The unrecognised optional transitive records, in order, with the Partial bit set. */
  function Transit(rs: seq<Record>): seq<Byte>
    requires AllValid(rs)
  {
    if rs == [] then []
    else
      MarkedIsValid(rs[0]);
      (if PassedOn(rs[0].flag, rs[0].typ) then Encode(Marked(rs[0])) else []) + Transit(rs[1..])
  }

  /** No type twice, and none of those seen before. */
  predicate Fresh(rs: seq<Record>, seen: set<Byte>) {
    && (forall i | 0 <= i < |rs| :: rs[i].typ !in seen)
    && forall i, j | 0 <= i < j < |rs| :: rs[i].typ != rs[j].typ
  }

  /** One record goes well: its handler takes exactly the value, or it is unrecognised and optional. */
  function HandleOne<A>(h: Handler<A>, a: A, r: Record, later: seq<Byte>): Option<A> {
    if Recognised(r.typ) then
      match h(a, r.flag, r.typ, |r.value|, r.value + later)
      case Rejected => None
      case Handled(b, n) => if n == |r.value| then Some(b) else None
    else if Optional(r.flag) then Some(a)
    else None
  }

  /** All records go well, in order; `after` is the input behind the region. */
  function HandleAll<A>(h: Handler<A>, a: A, rs: seq<Record>, after: seq<Byte>): Option<A>
    requires AllValid(rs)
  {
    if rs == [] then Some(a)
    else match HandleOne(h, a, rs[0], EncodeAll(rs[1..]) + after)
      case None => None
      case Some(b) => HandleAll(h, b, rs[1..], after)
  }

  /** What bgp_attr_parse promises: success exactly for a region of whole records with pairwise distinct
      types that all go well. */
  function Expected<A>(h: Handler<A>, a: A, region: seq<Byte>, after: seq<Byte>, seen: set<Byte>): Outcome<A> {
    match Split(region)
    case None => Failed
    case Some(rs) =>
      EncodeSplit(region);
      if !Fresh(rs, seen) then Failed
      else match HandleAll(h, a, rs, after)
        case None => Failed
        case Some(b) => Parsed(b, Transit(rs))
  }

  function Prepend<A>(piece: seq<Byte>, o: Outcome<A>): Outcome<A> {
    match o
    case Failed => Failed
    case Parsed(b, t) => Parsed(b, piece + t)
  }

  function Piece(r: Record): seq<Byte>
    requires Valid(r)
  {
    MarkedIsValid(r);
    if PassedOn(r.flag, r.typ) then Encode(Marked(r)) else []
  }

  /** One record further. */
  lemma ExpectedStep<A>(h: Handler<A>, a: A, region: seq<Byte>, after: seq<Byte>, seen: set<Byte>)
    requires region != []
    ensures Expected(h, a, region, after, seen)
         == if !StartsWhole(region) || region[1] in seen then Failed
            else match HandleOne(h, a, First(region), region[FirstSize(region)..] + after)
                 case None => Failed
                 case Some(b) =>
                   Prepend(Piece(First(region)),
                           Expected(h, b, region[FirstSize(region)..], after, seen + {region[1]}))
  {
    if StartsWhole(region) {
      var rest := region[FirstSize(region)..];
      match Split(rest) {
        case None =>
        case Some(rs) =>
          EncodeSplit(rest);
          var all := [First(region)] + rs;
          assert all[1..] == rs;
          FreshStep(First(region), rs, seen);
          EncodeSplit(region);
      }
    }
  }

  lemma FreshStep(r: Record, rs: seq<Record>, seen: set<Byte>)
    ensures Fresh([r] + rs, seen) <==> r.typ !in seen && Fresh(rs, seen + {r.typ})
  {
    var all := [r] + rs;
    assert all[0] == r && forall i | 0 < i < |all| :: all[i] == rs[i - 1];
    if Fresh(all, seen) {
      forall i | 0 <= i < |rs|
        ensures rs[i].typ !in seen + {r.typ}
      {
        assert all[i + 1] == rs[i] && all[0].typ != all[i + 1].typ;
      }
      forall i, j | 0 <= i < j < |rs|
        ensures rs[i].typ != rs[j].typ
      {
        assert all[i + 1] == rs[i] && all[j + 1] == rs[j];
      }
    }
  }

  /** The region as the walk leaves it: the Partial bit is set in every record that is passed on. */
  function MarkRegion(b: seq<Byte>): seq<Byte> {
    if b == [] || !StartsWhole(b) then b
    else MarkFirst(b)[..FirstSize(b)] + MarkRegion(b[FirstSize(b)..])
  }

  function MarkFirst(b: seq<Byte>): (r: seq<Byte>)
    requires |b| >= 2
    ensures |r| == |b|
  {
    if PassedOn(b[0], b[1]) then b[0 := WithPartial(b[0])] else b
  }

  function MarkAll(rs: seq<Record>): (ms: seq<Record>)
    requires AllValid(rs)
    ensures AllValid(ms) && |ms| == |rs| && forall i | 0 <= i < |rs| :: ms[i] == Marked(rs[i])
  {
    if rs == [] then []
    else
      MarkedIsValid(rs[0]);
      [Marked(rs[0])] + MarkAll(rs[1..])
  }

  /** On whole records that is marking each record. */
  lemma {:induction false} MarkRegionMeans(rs: seq<Record>)
    requires AllValid(rs)
    ensures MarkRegion(EncodeAll(rs)) == EncodeAll(MarkAll(rs))
  {
    if rs != [] {
      var e, rest := Encode(rs[0]), EncodeAll(rs[1..]);
      MarkRegionMeans(rs[1..]);
      FirstOfEncoded(rs[0], rest);
      MarkedFirst(rs[0], rest);
      assert MarkAll(rs)[1..] == MarkAll(rs[1..]);
    }
  }

  lemma MarkedFirst(r: Record, rest: seq<Byte>)
    requires Valid(r)
    ensures Valid(Marked(r)) && |Encode(r) + rest| >= 2
    ensures MarkFirst(Encode(r) + rest)[..|Encode(r)|] == Encode(Marked(r))
  {
    var e := Encode(r);
    MarkedIsValid(r);
    assert e[0] == r.flag && e[1] == r.typ;
    assert (e + rest)[..|e|] == e;
    if PassedOn(r.flag, r.typ) {
      assert (e + rest)[0 := WithPartial(r.flag)][..|e|] == e[0 := WithPartial(r.flag)];
    }
  }

  /** What the first record adds to attr->transit, as it stands in the input after the mark. */
  lemma PieceIsMarked(b: seq<Byte>)
    requires StartsWhole(b)
    ensures Piece(First(b)) == if PassedOn(b[0], b[1]) then MarkFirst(b)[..FirstSize(b)] else []
  {
    var n := FirstSize(b);
    EncodeFirst(b);
    MarkedIsValid(First(b));
    if PassedOn(b[0], b[1]) {
      assert b[..n][0 := WithPartial(b[0])] == b[0 := WithPartial(b[0])][..n];
    }
  }

  lemma PrependTwice<A>(x: seq<Byte>, y: seq<Byte>, o: Outcome<A>)
    ensures Prepend(x, Prepend(y, o)) == Prepend(x + y, o)
    ensures Prepend([], o) == o
  {
    if o.Parsed? {
      assert x + (y + o.transit) == x + y + o.transit;
      assert [] + o.transit == o.transit;
    }
  }

  // ---------------------------------------------------------------- the loop

  /** An octet of the input stream; what lies behind its memory is irrelevant and taken as zero. */
  method Fetch(buf: array<Byte>, i: nat) returns (b: Byte)
    ensures i < buf.Length ==> b == buf[i]
  {
    b := if i < buf.Length then buf[i] else 0;
  }

  /** Flag, type and length of the record at pos, possibly read beyond the region. */
  method ReadHeader(buf: array<Byte>, pos: nat, endp: nat, ghost rest: seq<Byte>)
      returns (whole: bool, flag: Byte, typ: Byte, head: nat, length: nat)
    requires pos + 2 <= endp <= buf.Length && rest == buf[pos..endp]
    ensures flag == rest[0] && typ == rest[1] && head == pos + HeaderSize(flag)
    ensures whole == (head + length <= endp) == StartsWhole(rest)
    ensures whole ==> head - pos + length == FirstSize(rest) && length == |First(rest).value|
  {
    flag, typ := buf[pos], buf[pos + 1];
    head := pos + HeaderSize(flag);
    var b0 := Fetch(buf, pos + 2);
    length := b0;
    if Extended(flag) {
      var b1 := Fetch(buf, pos + 3);
      length := 256 * (b0 as int) + b1;
    }
    whole := head + length <= endp;
    if head <= endp {
      assert rest[2..][0] == buf[pos + 2] && (Extended(flag) ==> rest[2..][1] == buf[pos + 3]);
    }
  }

  /** The input is made of these three parts, the middle one being the rest of the region from `pos`. */
  ghost predicate Around(mem: seq<Byte>, pos: nat, front: seq<Byte>, rest: seq<Byte>, after: seq<Byte>) {
    mem == front + rest + after && |front| == pos
  }

  lemma AroundMeans(mem: seq<Byte>, pos: nat, front: seq<Byte>, rest: seq<Byte>, after: seq<Byte>)
    requires Around(mem, pos, front, rest, after)
    ensures var endp := pos + |rest|;
            endp <= |mem| && mem[..pos] == front && mem[pos..endp] == rest && mem[endp..] == after
  {
  }

  /** bgp_attr_unknown for a whole record: set the Partial bit in the input and copy the record. */
  method Unknown(buf: array<Byte>, pos: nat, next: nat, transit: seq<Byte>,
                 ghost front: seq<Byte>, ghost rest: seq<Byte>, ghost after: seq<Byte>)
      returns (ok: bool, more: seq<Byte>)
    requires Around(buf[..], pos, front, rest, after) && pos + 2 <= next <= pos + |rest| && !Recognised(rest[1])
    modifies buf
    ensures ok == Optional(rest[0]) && Around(buf[..], pos, front, if ok then MarkFirst(rest) else rest, after)
    ensures ok ==> more == transit + if PassedOn(rest[0], rest[1]) then MarkFirst(rest)[..next - pos] else []
  {
    AroundMeans(buf[..], pos, front, rest, after);
    more := transit;
    if !Optional(buf[pos]) {
      return false, more;
    }
    ok := true;
    if !Transitive(buf[pos]) {
      assert transit + [] == transit;
      return;
    }
    buf[pos] := WithPartial(buf[pos]);
    assert buf[..] == front + MarkFirst(rest) + after;
    AroundMeans(buf[..], pos, front, MarkFirst(rest), after);
    assert buf[pos..next] == buf[..][pos..pos + |rest|][..next - pos];
    more := transit + buf[pos..next];
  }

  /** What is expected from the region is now expected from the rest of it. */
  ghost predicate RoundMoves<A>(h: Handler<A>, a: A, transit: seq<Byte>, seen: set<Byte>,
                                b: A, more: seq<Byte>, rest: seq<Byte>, after: seq<Byte>)
    requires StartsWhole(rest)
  {
    Prepend(transit, Expected(h, a, rest, after, seen))
      == Prepend(more, Expected(h, b, rest[FirstSize(rest)..], after, seen + {rest[1]}))
  }

  /** One round of the loop: the record at pos, whose handler or bgp_attr_unknown has its say. */
  method Round<A>(buf: array<Byte>, pos: nat, endp: nat, h: Handler<A>, a: A, seen: set<Byte>, transit: seq<Byte>,
                  ghost front: seq<Byte>, ghost rest: seq<Byte>, ghost after: seq<Byte>)
      returns (ok: bool, b: A, more: seq<Byte>, next: nat, typ: Byte)
    requires Around(buf[..], pos, front, rest, after) && pos < endp == pos + |rest|
    modifies buf
    ensures |rest| >= 2 || !ok
    ensures Around(buf[..], pos, front, if ok then MarkFirst(rest) else rest, after)
    ensures !ok ==> Expected(h, a, rest, after, seen) == Failed
    ensures ok ==> StartsWhole(rest) && next == pos + FirstSize(rest) && typ == rest[1]
    ensures ok ==> RoundMoves(h, a, transit, seen, b, more, rest, after)
  {
    AroundMeans(buf[..], pos, front, rest, after);
    ExpectedStep(h, a, rest, after, seen);
    ok, b, more, next, typ := false, a, transit, pos, 0;
    if endp - pos < 2 {
      return;
    }
    var whole, flag, head, length;
    whole, flag, typ, head, length := ReadHeader(buf, pos, endp, rest);
    if typ in seen || !whole {
      return;
    }
    next := head + length;
    ghost var n := FirstSize(rest);
    PieceIsMarked(rest);
    PrependTwice(transit, Piece(First(rest)), Expected(h, b, rest[n..], after, seen + {typ}));
    if Recognised(typ) {
      ok, b := Dispatch(buf, pos, h, a, head, length, front, rest, after);
      PrependTwice(transit, [], Expected(h, b, rest[n..], after, seen + {typ}));
      assert transit + [] == transit;
    } else {
      ok, more := Unknown(buf, pos, next, transit, front, rest, after);
    }
  }

  /** The switch over the types with a handler, and the check of the fetched length behind it. */
  method Dispatch<A>(buf: array<Byte>, pos: nat, h: Handler<A>, a: A, head: nat, length: nat,
                     ghost front: seq<Byte>, ghost rest: seq<Byte>, ghost after: seq<Byte>) returns (ok: bool, b: A)
    requires Around(buf[..], pos, front, rest, after) && StartsWhole(rest) && Recognised(rest[1])
    requires head == pos + HeaderSize(rest[0]) && length == |First(rest).value|
    ensures HandleOne(h, a, First(rest), rest[FirstSize(rest)..] + after) == if ok then Some(b) else None
  {
    AroundMeans(buf[..], pos, front, rest, after);
    ValueAndLater(buf[..], pos, front, rest, after);
    assert buf[..][head..] == buf[head..];
    ok, b := false, a;
    match h(a, buf[pos], buf[pos + 1], length, buf[head..]) {
      case Rejected =>
      case Handled(c, consumed) =>
        if head + consumed == head + length {
          ok, b := true, c;
        }
    }
  }

  /** Behind its header a handler finds the value and everything later. */
  lemma ValueAndLater(mem: seq<Byte>, pos: nat, front: seq<Byte>, rest: seq<Byte>, after: seq<Byte>)
    requires Around(mem, pos, front, rest, after) && StartsWhole(rest)
    ensures pos + HeaderSize(rest[0]) <= |mem|
    ensures mem[pos + HeaderSize(rest[0])..] == First(rest).value + (rest[FirstSize(rest)..] + after)
  {
    var h, n := HeaderSize(rest[0]), FirstSize(rest);
    Cut(front, rest, after, h);
    assert rest[h..] == rest[h..n] + rest[n..];
    Assoc(rest[h..n], rest[n..], after);
  }

  lemma Cut(front: seq<Byte>, rest: seq<Byte>, after: seq<Byte>, h: nat)
    requires h <= |rest|
    ensures (front + rest + after)[|front| + h..] == rest[h..] + after
  {
  }

  /** bgp_attr_parse on `size` octets of the input at `start`. */
  method Parse<A>(buf: array<Byte>, start: nat, size: nat, h: Handler<A>, attr: A) returns (r: Outcome<A>)
    requires start + size <= buf.Length
    modifies buf
    ensures r == Expected(h, attr, old(buf[start..start + size]), old(buf[start + size..]), {})
    ensures buf[..start] == old(buf[..start]) && buf[start + size..] == old(buf[start + size..])
    ensures r.Parsed? ==> buf[start..start + size] == MarkRegion(old(buf[start..start + size]))
  {
    ghost var pre, region, after := buf[..start], buf[start..start + size], buf[start + size..];
    assert Around(buf[..], start, pre, region, after);
    ghost var left;
    r, left := Walk(buf, start, start + size, h, attr, pre, region, after);
    AroundMeans(buf[..], start, pre, left, after);
    assert buf[..][start..start + size] == buf[start..start + size];
  }

  /** The loop; `left` is the region as it is left behind. */
  method Walk<A>(buf: array<Byte>, start: nat, endp: nat, h: Handler<A>, attr: A,
                 ghost pre: seq<Byte>, ghost region: seq<Byte>, ghost after: seq<Byte>)
      returns (r: Outcome<A>, ghost left: seq<Byte>)
    requires Around(buf[..], start, pre, region, after) && endp == start + |region|
    modifies buf
    ensures Around(buf[..], start, pre, left, after) && |left| == |region|
    ensures r == Expected(h, attr, region, after, {}) && (r.Parsed? ==> left == MarkRegion(region))
  {
    var pos := start;
    var a, seen: set<Byte>, transit: seq<Byte> := attr, {}, [];
    ghost var done: seq<Byte>, rest := [], region;
    ghost var total, marked := Expected(h, attr, region, after, {}), MarkRegion(region);
    PrependTwice([], [], total);
    assert pre + [] == pre;
    ghost var front := pre;
    while pos < endp
      invariant start <= pos <= endp == pos + |rest| && Around(buf[..], pos, front, rest, after) && front == pre + done
      invariant total == Prepend(transit, Expected(h, a, rest, after, seen)) && marked == done + MarkRegion(rest)
    {
      var ok, b, more, next, typ := Round(buf, pos, endp, h, a, seen, transit, front, rest, after);
      if !ok {
        left := done + rest;
        Assoc(pre, done, rest);
        return Failed, left;
      }
      RoundKeeps(buf[..], pos, pre, done, rest, after, marked);
      seen, a, transit, pos := seen + {typ}, b, more, next;
      done, rest := done + MarkFirst(rest)[..FirstSize(rest)], rest[FirstSize(rest)..];
      front := pre + done;
    }
    WalkEnds(h, a, after, seen, transit, rest, front, done);
    return Parsed(a, transit), done;
  }

  lemma WalkEnds<A>(h: Handler<A>, a: A, after: seq<Byte>, seen: set<Byte>,
                    transit: seq<Byte>, rest: seq<Byte>, front: seq<Byte>, done: seq<Byte>)
    requires |rest| == 0
    ensures Prepend(transit, Expected(h, a, rest, after, seen)) == Parsed(a, transit)
    ensures front + rest == front && done + MarkRegion(rest) == done
  {
    assert rest == [];
    ExpectedEnd(h, a, after, seen, transit);
  }

  lemma ExpectedEnd<A>(h: Handler<A>, a: A, after: seq<Byte>, seen: set<Byte>, transit: seq<Byte>)
    ensures Prepend(transit, Expected(h, a, [], after, seen)) == Parsed(a, transit)
  {
    assert Fresh([], seen);
    assert transit + [] == transit;
  }

  lemma MarkSplit(before: seq<Byte>, now: seq<Byte>, rest: seq<Byte>)
    requires rest != [] && StartsWhole(rest) && now == before + MarkFirst(rest)[..FirstSize(rest)]
    ensures before + MarkRegion(rest) == now + MarkRegion(rest[FirstSize(rest)..])
  {
    Assoc(before, MarkFirst(rest)[..FirstSize(rest)], MarkRegion(rest[FirstSize(rest)..]));
  }

  /** The input after a round that went well, cut behind the record. */
  lemma RoundKeeps(mem: seq<Byte>, pos: nat, pre: seq<Byte>, done: seq<Byte>,
                   rest: seq<Byte>, after: seq<Byte>, marked: seq<Byte>)
    requires StartsWhole(rest) && Around(mem, pos, pre + done, MarkFirst(rest), after)
    requires marked == done + MarkRegion(rest)
    ensures var n := FirstSize(rest);
            && Around(mem, pos + n, pre + (done + MarkFirst(rest)[..n]), rest[n..], after)
            && marked == done + MarkFirst(rest)[..n] + MarkRegion(rest[n..])
  {
    var n := FirstSize(rest);
    var m := MarkFirst(rest);
    assert m[n..] == rest[n..];
    assert m == m[..n] + m[n..];
    Recut(pre, done, m[..n], m[n..], after);
    MarkSplit(done, done + m[..n], rest);
  }

  lemma Recut(pre: seq<Byte>, done: seq<Byte>, x: seq<Byte>, y: seq<Byte>, after: seq<Byte>)
    ensures pre + done + (x + y) + after == pre + (done + x) + y + after
  {
  }

  /** Whenever the walk succeeds: the region is a concatenation of records with pairwise distinct types,
      each went well, and what is passed on is exactly the marked ones, in order; and conversely. */
  lemma ParseMeans<A>(h: Handler<A>, a: A, rs: seq<Record>, after: seq<Byte>, b: A, transit: seq<Byte>)
    requires AllValid(rs)
    ensures Expected(h, a, EncodeAll(rs), after, {}) == Parsed(b, transit)
            <==> Fresh(rs, {}) && HandleAll(h, a, rs, after) == Some(b) && transit == Transit(rs)
  {
    SplitEncoded(rs);
  }

  /** A region that parses is made of such records, and is left with the Partial bit in those passed on. */
  lemma ParsedIsRecords<A>(h: Handler<A>, a: A, region: seq<Byte>, after: seq<Byte>)
    requires Expected(h, a, region, after, {}).Parsed?
    ensures exists rs: seq<Record> ::
              && AllValid(rs) && EncodeAll(rs) == region && Fresh(rs, {}) && HandleAll(h, a, rs, after).Some?
              && Expected(h, a, region, after, {}).transit == Transit(rs)
              && MarkRegion(region) == EncodeAll(MarkAll(rs))
  {
    EncodeSplit(region);
    var rs := Split(region).value;
    MarkRegionMeans(rs);
    assert AllValid(rs) && EncodeAll(rs) == region;
  }

  /** The handler takes exactly the value. */
  predicate TakesExactly<A>(h: Handler<A>, c: A, r: Record, later: seq<Byte>) {
    var d := h(c, r.flag, r.typ, |r.value|, r.value + later);
    d.Handled? && d.consumed == |r.value|
  }

  /** The input behind the i-th record. */
  function Later(rs: seq<Record>, i: nat, after: seq<Byte>): seq<Byte>
    requires AllValid(rs) && i < |rs|
  {
    EncodeAll(rs[i + 1..]) + after
  }

  /** The attribute that has been reached after the first i records. */
  function Reached<A>(h: Handler<A>, a: A, rs: seq<Record>, after: seq<Byte>, i: nat): A
    requires AllValid(rs) && i <= |rs|
    decreases |rs|
  {
    if i == 0 then a
    else
      match HandleOne(h, a, rs[0], Later(rs, 0, after))
      case None => a
      case Some(b) => Reached(h, b, rs[1..], after, i - 1)
  }

  /** No record goes well whose handler, on the attribute reached so far, stops short of its end or runs
      past it; and what is reached in the end is the result. */
  lemma {:induction false} ExactConsumption<A>(h: Handler<A>, a: A, rs: seq<Record>, after: seq<Byte>, i: nat)
    requires AllValid(rs) && HandleAll(h, a, rs, after).Some? && i <= |rs|
    ensures i < |rs| && Recognised(rs[i].typ) ==>
              TakesExactly(h, Reached(h, a, rs, after, i), rs[i], Later(rs, i, after))
    ensures i < |rs| && !Recognised(rs[i].typ) ==> Optional(rs[i].flag)
    ensures i == |rs| ==> HandleAll(h, a, rs, after) == Some(Reached(h, a, rs, after, i))
    decreases |rs|
  {
    if rs != [] {
      var later := Later(rs, 0, after);
      assert later == EncodeAll(rs[1..]) + after;
      if i > 0 {
        var rest := rs[1..];
        var b := HandleOne(h, a, rs[0], later).value;
        ExactConsumption(h, b, rest, after, i - 1);
        if i < |rs| {
          assert rest[i - 1] == rs[i] && rest[i..] == rs[i + 1..];
          assert Later(rest, i - 1, after) == Later(rs, i, after);
        }
      }
    }
  }

  // ---------------------------------------------------------------- one record, in numbers

  /** The octets of a record: flag and type, the length in one octet or, with the bit 0x10 of the flag, in
      two in network order, and the value. */
  lemma RecordFormat(r: Record)
    requires Valid(r)
    ensures var e := Encode(r);
      && |e| >= 3 && e[0] == r.flag && e[1] == r.typ
      && if r.flag / 0x10 % 2 == 1 then |e| >= 4 && 256 * (e[2] as int) + e[3] == |r.value| && e[4..] == r.value
         else e[2] == |r.value| && e[3..] == r.value
  {
    var l := LengthBytes(r.flag, |r.value|);
    assert Encode(r) == [r.flag, r.typ] + l + r.value;
  }

  /** A flag octet by its value. */
  lemma FlagBits(flag: Byte)
    ensures Optional(flag) <==> flag >= 0x80
    ensures Transitive(flag) <==> 0x40 <= flag < 0x80 || flag >= 0xC0
    ensures WithPartial(flag) == if flag / 0x20 % 2 == 1 then flag else flag as int + 0x20
  {
  }

  lemma SplitOne(r: Record)
    requires Valid(r)
    ensures Split(Encode(r)) == Some([r]) && MarkRegion(Encode(r)) == MarkFirst(Encode(r))
    ensures EncodeAll([r]) == Encode(r)
  {
    assert [r][1..] == [] && Encode(r) + [] == Encode(r);
    SplitEncoded([r]);
    FirstOfEncoded(r, []);
    assert MarkRegion([]) == [];
    var m := MarkFirst(Encode(r));
    assert m[..|Encode(r)|] + [] == m;
  }

  lemma HandleSingle<A>(h: Handler<A>, a: A, r: Record, after: seq<Byte>)
    requires Valid(r)
    ensures HandleAll(h, a, [r], after) == HandleOne(h, a, r, after)
    ensures Transit([r]) == Piece(r)
  {
    var rest := [r][1..];
    assert rest == [] && EncodeAll(rest) + after == after;
    match HandleOne(h, a, r, after)
    case None =>
    case Some(b) => assert HandleAll(h, b, rest, after) == Some(b);
  }

  /** A region of one record. The types 1 to 10 and 14 to 16 have handlers: the outcome is the handler's, if
      that takes exactly the value, nothing is passed on and the input stays as it is. Any other type is
      refused without the optional bit, ignored without the transitive bit, and else passed on with the
      partial bit, whatever the handlers are. */
  lemma OneRecord<A>(h: Handler<A>, a: A, r: Record, after: seq<Byte>)
    requires Valid(r)
    ensures r.typ in {1, 2, 3, 4, 5, 6, 7, 8, 9, 10, 14, 15, 16} ==>
      && MarkRegion(Encode(r)) == Encode(r)
      && Expected(h, a, Encode(r), after, {}) ==
         match h(a, r.flag, r.typ, |r.value|, r.value + after)
         case Rejected => Failed
         case Handled(b, n) => if n == |r.value| then Parsed(b, []) else Failed
    ensures r.typ !in {1, 2, 3, 4, 5, 6, 7, 8, 9, 10, 14, 15, 16} ==>
      var marked := Encode(r)[0 := if r.flag / 0x20 % 2 == 1 then r.flag else (r.flag as int + 0x20) % 256];
      && MarkRegion(Encode(r)) == (if r.flag >= 0xC0 then marked else Encode(r))
      && Expected(h, a, Encode(r), after, {}) ==
         if r.flag < 0x80 then Failed else if r.flag < 0xC0 then Parsed(a, []) else Parsed(a, marked)
  {
    SplitOne(r);
    FlagBits(r.flag);
    MarkedIsValid(r);
    HandleSingle(h, a, r, after);
    assert Fresh([r], {});
  }
}
