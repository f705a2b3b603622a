/**
 Prefixes as bit sequences (lib/prefix.c, bgpd/bgp_table.c): the bits below
 `prefixlen`, and the host bits that the C structure still holds above it.
 */
module Prefixes {

  type Bits = seq<bool>

  datatype Prefix = Prefix(bits: Bits, host: Bits)

  /** check_bit: the address bit at position k; bits above the stored address read as zero. */
  function CheckBit(p: Prefix, k: nat): bool {
    var addr := p.bits + p.host;
    k < |addr| && addr[k]
  }

  /** Length of the longest common prefix. */
  function CommonLen(a: Bits, b: Bits): (c: nat)
    ensures c <= |a| && c <= |b|
    ensures a[..c] == b[..c]
    ensures c < |a| && c < |b| ==> a[c] != b[c]
  {
    if a == [] || b == [] || a[0] != b[0] then 0
    else
      var c := CommonLen(a[1..], b[1..]);
      assert a[..c + 1] == [a[0]] + a[1..][..c];
      assert b[..c + 1] == [b[0]] + b[1..][..c];
      c + 1
  }

  /** The longest common prefix, which is what route_common builds for a glue node. */
  function Common(a: Bits, b: Bits): (c: Bits)
    ensures c <= a && c <= b
    ensures c == a || c == b || (|c| < |a| && |c| < |b| && a[|c|] != b[|c|])
  {
    a[..CommonLen(a, b)]
  }

  /** Two bit strings that agree below k and differ at k have k as their common length. */
  lemma CommonLenIs(a: Bits, b: Bits, k: nat)
    requires k <= |a| && k <= |b| && a[..k] == b[..k]
    requires k == |a| || k == |b| || a[k] != b[k]
    ensures CommonLen(a, b) == k
  {
    var c := CommonLen(a, b);
    assert forall i :: 0 <= i < k ==> a[i] == a[..k][i] == b[..k][i] == b[i];
    assert forall i :: 0 <= i < c ==> a[i] == a[..c][i] == b[..c][i] == b[i];
  }

  // ---- Pre-order on prefixes ----

  /** Strict pre-order of a binary trie: an ancestor comes before its descendants,
      the 0 side before the 1 side. */
  predicate Before(a: Bits, b: Bits) {
    var c := CommonLen(a, b);
    (c == |a| && c < |b|) || (c < |a| && c < |b| && !a[c])
  }

  lemma BeforeIrreflexive(a: Bits)
    ensures !Before(a, a)
  {
    CommonLenIs(a, a, |a|);
  }

  lemma BeforeTotal(a: Bits, b: Bits)
    ensures a == b || Before(a, b) || Before(b, a)
    ensures !(Before(a, b) && Before(b, a))
  {
    var c := CommonLen(a, b);
    CommonLenIs(b, a, c);
    if c == |a| == |b| {
      assert a == a[..c] == b[..c] == b;
    }
  }

  lemma BeforeTransitive(a: Bits, b: Bits, c: Bits)
    requires Before(a, b) && Before(b, c)
    ensures Before(a, c)
  {
    var ab, bc := CommonLen(a, b), CommonLen(b, c);
    var k := if ab < bc then ab else bc;
    assert a[..k] == a[..ab][..k] == b[..ab][..k] == b[..k];
    assert c[..k] == c[..bc][..k] == b[..bc][..k] == b[..k];
    assert bc < |b| ==> !b[bc];
    if ab < bc {
      assert b[ab] == b[..bc][ab] == c[..bc][ab] == c[ab];
    } else if bc < ab {
      assert a[bc] == a[..ab][bc] == b[..ab][bc] == b[bc];
    }
    CommonLenIs(a, c, k);
  }

  /** A proper prefix comes first. */
  lemma BeforeExtension(a: Bits, b: Bits)
    requires a < b
    ensures Before(a, b)
  {
    CommonLenIs(a, b, |a|);
  }

  /** Everything below the 0 link comes before everything below the 1 link. */
  lemma BeforeSides(a: Bits, l: Bits, r: Bits)
    requires a < l && !l[|a|] && a < r && r[|a|]
    ensures Before(l, r)
  {
    CommonLenIs(l, r, |a|);
  }

  /** If a is below x and c is not, then every d below x is on the same side of c as a is. */
  lemma BeforeOutside(x: Bits, a: Bits, c: Bits, d: Bits)
    requires x <= a && x <= d && !(x <= c) && Before(a, c)
    ensures Before(d, c)
  {
    var k := CommonLen(a, c);
    assert forall i :: 0 <= i < k ==> a[i] == a[..k][i] == c[..k][i] == c[i];
    assert k < |x|;
    assert d[..k] == x[..k] == a[..k];
    assert d[k] == x[k] == a[k];
    CommonLenIs(d, c, k);
  }

  /** Prefixes of one bit string are comparable. */
  lemma PrefixesComparable(a: Bits, b: Bits, c: Bits)
    requires a <= c && b <= c
    ensures a <= b || b <= a
    ensures |a| <= |b| ==> a <= b
    ensures |a| < |b| ==> a < b && b[|a|] == c[|a|]
  {
    assert a == c[..|a|] && b == c[..|b|];
    if |a| <= |b| { assert a == b[..|a|]; } else { assert b == a[..|b|]; }
  }

  // ---- The byte form ----

  /** A byte by its bits, most significant first; `And`, `Xor`, `Shr1` are C's &, ^ and >> 1. */
  type Byte = b: Bits | |b| == 8 witness [false, false, false, false, false, false, false, false]

  const ZERO: Byte := [false, false, false, false, false, false, false, false]

  function And(x: Byte, y: Byte): Byte { seq(8, j requires 0 <= j < 8 => x[j] && y[j]) }

  function Xor(x: Byte, y: Byte): Byte { seq(8, j requires 0 <= j < 8 => x[j] != y[j]) }

  function Shr1(x: Byte): Byte { [false] + x[..7] }

  /** maskbit[m]: the m leading bits set. */
  function Maskbit(m: nat): Byte
    requires m <= 8
  {
    seq(8, j => j < m)
  }

  predicate Bit(a: seq<Byte>, k: nat)
    requires k < 8 * |a|
  {
    a[k / 8][k % 8]
  }

  /** The first len bits of an address. */
  function BitsOf(a: seq<Byte>, len: nat): Bits
    requires len <= 8 * |a|
  {
    seq(len, k requires 0 <= k < len => Bit(a, k))
  }

  /** The structure with this address and this length. */
  function PrefixOf(a: seq<Byte>, len: nat): Prefix
    requires len <= 8 * |a|
  {
    Prefix(BitsOf(a, len), BitsOf(a, 8 * |a|)[len..])
  }

  /** Its bits and host bits are the address, and check_bit reads the address. */
  lemma PrefixOfMeans(a: seq<Byte>, len: nat)
    requires len <= 8 * |a|
    ensures PrefixOf(a, len).bits + PrefixOf(a, len).host == BitsOf(a, 8 * |a|)
    ensures forall k: nat | k < 8 * |a| :: CheckBit(PrefixOf(a, len), k) == Bit(a, k)
  {
    var all := BitsOf(a, 8 * |a|);
    assert BitsOf(a, len) == all[..len];
    assert all[..len] + all[len..] == all;
  }

  /** A longer address does not have more in common with a prefix. */
  lemma CommonWithAddress(a: seq<Byte>, nlen: nat, p: Bits)
    requires nlen <= 8 * |a| && |p| <= 8 * |a|
    ensures Common(PrefixOf(a, nlen).bits + PrefixOf(a, nlen).host, p) == Common(BitsOf(a, |p|), p)
  {
    PrefixOfMeans(a, nlen);
    var all, x := BitsOf(a, 8 * |a|), BitsOf(a, |p|);
    assert x == all[..|p|];
    var k := CommonLen(x, p);
    assert all[..k] == x[..k];
    CommonLenIs(all, p, k);
  }

  /** Two addresses agree on the bits from lo up to hi. */
  ghost predicate Agree(a: seq<Byte>, b: seq<Byte>, lo: nat, hi: nat)
    requires hi <= 8 * |a| && hi <= 8 * |b|
  {
    forall k: nat :: lo <= k < hi ==> Bit(a, k) == Bit(b, k)
  }

  /** Inside one byte, agreeing on m leading bits is agreeing bit by bit. */
  lemma AgreeInByte(a: seq<Byte>, b: seq<Byte>, i: nat, m: nat)
    requires i < |a| && i < |b| && m <= 8
    ensures Agree(a, b, 8 * i, 8 * i + m) <==> forall j :: 0 <= j < m ==> a[i][j] == b[i][j]
  {
    if Agree(a, b, 8 * i, 8 * i + m) {
      forall j | 0 <= j < m ensures a[i][j] == b[i][j] {
        assert Bit(a, 8 * i + j) == Bit(b, 8 * i + j);
      }
    }
  }

  lemma SameByte(a: seq<Byte>, b: seq<Byte>, i: nat)
    requires i < |a| && i < |b|
    ensures a[i] == b[i] <==> Agree(a, b, 8 * i, 8 * i + 8)
  {
    AgreeInByte(a, b, i, 8);
  }

  /** A masked difference is zero exactly when the leading bits agree. */
  lemma PartialByte(a: seq<Byte>, b: seq<Byte>, i: nat, m: nat)
    requires i < |a| && i < |b| && m <= 8
    ensures And(Maskbit(m), Xor(a[i], b[i])) == ZERO <==> Agree(a, b, 8 * i, 8 * i + m)
  {
    AgreeInByte(a, b, i, m);
    var z := And(Maskbit(m), Xor(a[i], b[i]));
    assert forall j :: 0 <= j < 8 ==> z[j] == (j < m && a[i][j] != b[i][j]);
  }

  lemma PrefixByBits(np: seq<Byte>, nlen: nat, pp: seq<Byte>, plen: nat)
    requires nlen <= plen && nlen <= 8 * |np| && plen <= 8 * |pp|
    ensures BitsOf(np, nlen) <= BitsOf(pp, plen) <==> Agree(np, pp, 0, nlen)
  {
    var a, b := BitsOf(np, nlen), BitsOf(pp, plen);
    assert forall k :: 0 <= k < nlen ==> a[k] == Bit(np, k) && b[k] == Bit(pp, k);
  }

  /** prefix_match: whole bytes and one masked byte decide whether n's bits begin p's, which is the test that
      the table makes. */
  method PrefixMatch(np: seq<Byte>, nlen: nat, pp: seq<Byte>, plen: nat) returns (r: bool)
    requires nlen <= 8 * |np| && plen <= 8 * |pp|
    ensures r <==> PrefixOf(np, nlen).bits <= PrefixOf(pp, plen).bits
  {
    if nlen > plen {
      return false;
    }
    PrefixByBits(np, nlen, pp, plen);
    var offset, shift := nlen / 8, nlen % 8;
    if shift != 0 {
      PartialByte(np, pp, offset, shift);
      if And(Maskbit(shift), Xor(np[offset], pp[offset])) != ZERO {
        return false;
      }
    }
    while offset > 0
      invariant 0 <= offset <= nlen / 8
      invariant Agree(np, pp, 8 * offset, nlen)
    {
      offset := offset - 1;
      SameByte(np, pp, offset);
      if np[offset] != pp[offset] {
        return false;
      }
    }
    return true;
  }

  /** The mask 0x80 after j shifts. */
  function MaskAt(j: nat): Byte
    requires j < 8
  {
    seq(8, k => k == j)
  }

  lemma MaskTest(x: Byte, y: Byte, j: nat)
    requires j < 8
    ensures And(MaskAt(j), Xor(x, y)) == ZERO <==> x[j] == y[j]
    ensures j < 7 ==> Shr1(MaskAt(j)) == MaskAt(j + 1)
  {
    var z := And(MaskAt(j), Xor(x, y));
    assert forall k :: 0 <= k < 8 ==> z[k] == (k == j && x[k] != y[k]);
  }

  /** The second loop of route_common: count the leading bits in which byte i still agrees. */
  method CommonInByte(np: seq<Byte>, pp: seq<Byte>, plen: nat, i: nat) returns (len: nat)
    requires |np| == |pp| && plen <= 8 * |pp| && 8 * i < plen && i <= plen / 8
    requires i < plen / 8 ==> np[i] != pp[i]
    requires Agree(np, pp, 0, 8 * i)
    ensures 8 * i <= len <= plen && len < 8 * i + 8
    ensures Agree(np, pp, 0, len) && (len < plen ==> Bit(np, len) != Bit(pp, len))
  {
    var diff := Xor(np[i], pp[i]);
    var mask := MaskAt(0);
    len := 8 * i;
    MaskTest(np[i], pp[i], 0);
    while len < plen && And(mask, diff) == ZERO
      invariant 8 * i <= len <= plen && len < 8 * i + 8
      invariant mask == MaskAt(len - 8 * i)
      invariant Agree(np, pp, 0, len)
    {
      MaskTest(np[i], pp[i], len - 8 * i);
      assert Bit(np, len) == Bit(pp, len);
      SameByte(np, pp, i);
      mask := Shr1(mask);
      len := len + 1;
    }
    if len < plen {
      MaskTest(np[i], pp[i], len - 8 * i);
    }
  }

  lemma CommonByBits(a: seq<Byte>, b: seq<Byte>, plen: nat, len: nat)
    requires |a| == |b| && len <= plen <= 8 * |a|
    requires Agree(a, b, 0, len) && (len < plen ==> Bit(a, len) != Bit(b, len))
    ensures Common(BitsOf(a, plen), BitsOf(b, plen)) == BitsOf(a, len)
  {
    var x, y := BitsOf(a, plen), BitsOf(b, plen);
    assert x[..len] == y[..len];
    CommonLenIs(x, y, len);
  }

  /** Whole bytes copied below i, one masked byte, zeroes above. */
  ghost predicate Truncated(a: seq<Byte>, c: seq<Byte>, i: nat, len: nat) {
    && |c| == |a| && 8 * i <= len <= 8 * |a| && len < 8 * i + 8
    && (forall x :: 0 <= x < i ==> c[x] == a[x])
    && (i < |a| ==> c[i] == And(a[i], Maskbit(len % 8)))
    && (forall x :: i < x < |a| ==> c[x] == ZERO)
  }

  lemma TruncatedBits(a: seq<Byte>, c: seq<Byte>, i: nat, len: nat)
    requires Truncated(a, c, i, len)
    ensures BitsOf(c, len) == BitsOf(a, len)
    ensures forall k: nat :: len <= k < 8 * |c| ==> !Bit(c, k)
  {
    forall k: nat | k < 8 * |c| ensures Bit(c, k) == (k < len && Bit(a, k)) {
      if k / 8 == i {
        assert c[i][k % 8] == (a[i][k % 8] && k % 8 < len % 8);
      }
    }
  }

  /** route_common: byte-wise comparison, then bit by bit inside the first byte that differs or is
      only partly covered. The result is the common prefix of the address and p, which is the prefix that
      the table gives a glue node, with the rest of the address cleared. */
  method RouteCommon(np: seq<Byte>, pp: seq<Byte>, plen: nat) returns (newp: seq<Byte>, len: nat)
    requires |np| == |pp| && plen <= 8 * |pp|
    ensures |newp| == |np| && len <= plen
    ensures BitsOf(newp, len) == Common(BitsOf(np, plen), BitsOf(pp, plen))
    ensures forall nlen: nat | nlen <= 8 * |np| ::
              PrefixOf(newp, len).bits
              == Common(PrefixOf(np, nlen).bits + PrefixOf(np, nlen).host, PrefixOf(pp, plen).bits)
    ensures forall k: nat :: len <= k < 8 * |newp| ==> !Bit(newp, k)
  {
    newp := seq(|np|, _ => ZERO);
    var i := 0;
    while i < plen / 8 && np[i] == pp[i]
      invariant i <= plen / 8 && |newp| == |np|
      invariant forall x :: 0 <= x < |np| ==> newp[x] == if x < i then np[x] else ZERO
      invariant Agree(np, pp, 0, 8 * i)
    {
      SameByte(np, pp, i);
      newp := newp[i := np[i]];
      i := i + 1;
    }
    len := 8 * i;
    if len != plen {
      len := CommonInByte(np, pp, plen, i);
      newp := newp[i := And(np[i], Maskbit(len % 8))];
    } else if i < |np| {
      assert newp[i] == And(np[i], Maskbit(0));
    }
    CommonByBits(np, pp, plen, len);
    TruncatedBits(np, newp, i, len);
    forall nlen: nat | nlen <= 8 * |np|
      ensures Common(PrefixOf(np, nlen).bits + PrefixOf(np, nlen).host, BitsOf(pp, plen))
           == Common(BitsOf(np, plen), BitsOf(pp, plen))
    {
      CommonWithAddress(np, nlen, BitsOf(pp, plen));
    }
  }
}
