/** The Internet checksum (lib/checksum.c; RFC 1071). */
module Checksum {
  import opened Octets

  /** What `*ptr` reads from two bytes in memory on a machine of the given byte order. */
  function Word(first: Byte, second: Byte, bigEndian: bool): (w: nat)
    ensures w < 0x1_0000
  {
    if bigEndian then 256 * first + second else 256 * second + first
  }

  /** The sum of the 16-bit words of `data`; an odd last byte is followed by a zero byte. */
  function WordSum(data: seq<Byte>, bigEndian: bool): nat {
    if |data| == 0 then 0
    else if |data| == 1 then Word(data[0], 0, bigEndian)
    else Word(data[0], data[1], bigEndian) + WordSum(data[2..], bigEndian)
  }

  /** The representative of `s` modulo 65535 in 1..65535, and 0 for 0 only: the one's-complement sum. */
  function Residue(s: nat): (r: nat)
    ensures r <= 0xffff && r % 0xffff == s % 0xffff && (r == 0 <==> s == 0)
  {
    if s == 0 then 0 else (s - 1) % 0xffff + 1
  }

  /** The checksum, without accumulators or folds. */
  function Sum16(data: seq<Byte>, bigEndian: bool): nat {
    0xffff - Residue(WordSum(data, bigEndian))
  }

  lemma {:induction false} WordSumBound(data: seq<Byte>, bigEndian: bool)
    ensures WordSum(data, bigEndian) <= 0xffff * ((|data| + 1) / 2)
  {
    if |data| > 1 {
      var rest := data[2..];
      WordSumBound(rest, bigEndian);
      assert (|data| + 1) / 2 == (|rest| + 1) / 2 + 1;
      assert WordSum(data, bigEndian) == Word(data[0], data[1], bigEndian) + WordSum(rest, bigEndian);
    }
  }

  lemma ResidueUnique(s: nat, r: nat, k: int)
    requires r <= 0xffff && s == r + 0xffff * k && (r == 0 <==> s == 0)
    ensures r == Residue(s)
  {
    if s != 0 {
      assert (s - 1) == (r - 1) + 0xffff * k;
    }
  }

  /** The two folds, truncated to 16 bits. */
  function Folded(s: nat): nat {
    var once := s / 0x1_0000 + s % 0x1_0000;
    (once + once / 0x1_0000) % 0x1_0000
  }

  /** Two folds reach the representative exactly when the second one leaves no carry. The bound is above every
      sum that an int number of bytes can have. */
  lemma FoldsSufficeIff(s: nat)
    requires s < 0x8000_0000_0000
    ensures var once := s / 0x1_0000 + s % 0x1_0000;
            Folded(s) == Residue(s) <==> once / 0x1_0000 + once % 0x1_0000 < 0x1_0000
  {
    var once := s / 0x1_0000 + s % 0x1_0000;
    var a, b := once / 0x1_0000, once % 0x1_0000;
    assert s == once + 0xffff * (s / 0x1_0000) && once == a + b + 0xffff * a;
    assert s == (a + b) + 0xffff * (s / 0x1_0000 + a);
    FoldedIs(once, a, b);
    if a + b < 0x1_0000 {
      ResidueUnique(s, a + b, s / 0x1_0000 + a);
    } else {
      ResidueUnique(s, a + b - 0xffff, s / 0x1_0000 + a + 1);
    }
  }

  lemma FoldedIs(once: nat, a: nat, b: nat)
    requires once == 0x1_0000 * a + b && b < 0x1_0000 && a < 0x1_0000
    ensures (once + a) % 0x1_0000 == if a + b < 0x1_0000 then a + b else a + b - 0x1_0000
  {
  }

  /** On a sum of 32 bits they do. */
  lemma TwoFoldsSuffice(s: nat)
    requires s < 0x1_0000_0000
    ensures Folded(s) == Residue(s)
  {
    FoldsSufficeIff(s);
  }

  /** The first sum on which they fail, and every smaller one on which they do not. */
  lemma FirstFailure(s: nat)
    ensures s < 0x1_0000_ffff ==> Folded(s) == Residue(s)
    ensures s == 0x1_0000_ffff ==> Folded(s) != Residue(s)
  {
    if s <= 0x1_0000_ffff {
      FoldsSufficeIff(s);
      var once := s / 0x1_0000 + s % 0x1_0000;
      if s >= 0x1_0000_0000 {
        assert s / 0x1_0000 == 0x1_0000 && once == s - 0xffff_0000;
        assert once / 0x1_0000 == 1 && once % 0x1_0000 == s - 0x1_0000_0000;
      } else {
        assert once <= 0x1_fffe;
      }
    }
  }

  /** An input of n bytes that sums to it: 131074 bytes of ones, a word, and a byte 1 before zeroes. */
  function Failing(n: nat, bigEndian: bool): (data: seq<Byte>)
    requires n > 131076
    ensures |data| == n
  {
    Ones(131074) + Stored(if bigEndian then 0xff00 else 0xffff, bigEndian) + LastOne(n - 131076)
  }

  /** A byte 1 and zeroes behind it. */
  function LastOne(n: nat): (data: seq<Byte>)
    requires n > 0
    ensures |data| == n
  {
    [1] + seq(n - 1, _ => 0)
  }

  lemma LastOneSum(n: nat, bigEndian: bool)
    requires n > 0
    ensures WordSum(LastOne(n), bigEndian) == if bigEndian then 256 else 1
  {
    var data := LastOne(n);
    if n > 1 {
      ZeroSum(data[2..], bigEndian);
    }
  }

  lemma FailingSum(n: nat, bigEndian: bool)
    requires n > 131076
    ensures WordSum(Failing(n, bigEndian), bigEndian) == 0x1_0000_ffff
  {
    var w := if bigEndian then 0xff00 else 0xffff;
    var ones, m: nat := 131074, n - 131076;
    OnesSum(ones, bigEndian);
    LastOneSum(m, bigEndian);
    StoredSum(Ones(ones), w, LastOne(m), bigEndian);
  }

  lemma ShortFolds(data: seq<Byte>, bigEndian: bool)
    requires |data| <= 131076
    ensures Folded(WordSum(data, bigEndian)) == Residue(WordSum(data, bigEndian))
  {
    ShortSum(data, bigEndian);
    FirstFailure(WordSum(data, bigEndian));
  }

  lemma ShortSum(data: seq<Byte>, bigEndian: bool)
    requires |data| <= 131076
    ensures WordSum(data, bigEndian) < 0x1_0000_ffff
  {
    WordSumBound(data, bigEndian);
    var words := (|data| + 1) / 2;
    assert words <= 65538;
  }

  /** Two folds are enough for every input of n bytes exactly up to 131076 bytes, on either byte order. */
  lemma FoldsSuffice(n: nat, bigEndian: bool)
    ensures (forall data: seq<Byte> | |data| == n ::
               Folded(WordSum(data, bigEndian)) == Residue(WordSum(data, bigEndian)))
            <==> n <= 131076
  {
    if n <= 131076 {
      forall data: seq<Byte> | |data| == n
        ensures Folded(WordSum(data, bigEndian)) == Residue(WordSum(data, bigEndian))
      {
        ShortFolds(data, bigEndian);
      }
    } else {
      var data := Failing(n, bigEndian);
      FailingSum(n, bigEndian);
      FirstFailure(WordSum(data, bigEndian));
      assert |data| == n && Folded(WordSum(data, bigEndian)) != Residue(WordSum(data, bigEndian));
    }
  }

  /** A `long` of 32 bits is enough for every input of n bytes exactly up to 65536 bytes (one more on
      a little-endian machine, where the odd byte is a low-order one). */
  lemma {:induction false} LongSuffices(n: nat, bigEndian: bool)
    ensures (forall data: seq<Byte> | |data| == n :: WordSum(data, bigEndian) < 0x8000_0000)
            <==> n <= (if bigEndian then 65536 else 65537)
  {
    if n <= 65537 {
      forall data: seq<Byte> | |data| == n && n <= (if bigEndian then 65536 else 65537)
        ensures WordSum(data, bigEndian) < 0x8000_0000
      {
        WordSumBound(data, bigEndian);
        if n == 65537 {
          var even := data[..65536];
          WordSumBound(even, bigEndian);
          WordSumSplit(even, data[65536..], bigEndian);
          assert data == even + data[65536..];
        }
      }
    }
    if n > (if bigEndian then 65536 else 65537) {
      var ones := Ones(n);
      OnesSum(n, bigEndian);
      assert |ones| == n && WordSum(ones, bigEndian) >= 0x8000_0000;
    }
  }

  /** A buffer of bytes that are all ones. */
  function Ones(n: nat): seq<Byte> {
    seq(n, _ => 255)
  }

  lemma {:induction false} OnesSum(n: nat, bigEndian: bool)
    ensures WordSum(Ones(n), bigEndian)
         == 0xffff * (n / 2) + (if n % 2 == 0 then 0 else if bigEndian then 0xff00 else 0xff)
  {
    if n > 1 {
      var m := n - 2;
      OnesSum(m, bigEndian);
      assert Ones(n)[2..] == Ones(m);
      assert n / 2 == m / 2 + 1 && n % 2 == m % 2;
    }
  }

  /** The words of an even-length part and of the rest add up. */
  lemma {:induction false} WordSumSplit(a: seq<Byte>, b: seq<Byte>, bigEndian: bool)
    requires |a| % 2 == 0
    ensures WordSum(a + b, bigEndian) == WordSum(a, bigEndian) + WordSum(b, bigEndian)
  {
    if a == [] {
      assert a + b == b;
    } else {
      WordSumSplit(a[2..], b, bigEndian);
      assert (a + b)[2..] == a[2..] + b;
    }
  }

  /** in_cksum, with a `long` of 32 bits, in which the sum has to fit, or of 64 bits. */
  method InCksum(data: seq<Byte>, bigEndian: bool, wide: bool) returns (answer: nat)
    requires |data| < 0x8000_0000 && (wide || WordSum(data, bigEndian) < 0x8000_0000)
    ensures answer == 0xffff - Folded(WordSum(data, bigEndian))
    ensures |data| <= 131076 || WordSum(data, bigEndian) < 0x1_0000_0000 ==> answer == Sum16(data, bigEndian)
  {
    FoldsSuffice(|data|, bigEndian);
    var sum, ptr, nbytes := 0, 0, |data|;
    SumsFit(data, bigEndian);
    while nbytes > 1
      invariant 0 <= nbytes && ptr + nbytes == |data|
      invariant sum + WordSum(data[ptr..], bigEndian) == WordSum(data, bigEndian)
    {
      assert data[ptr..][2..] == data[ptr + 2..];
      sum := sum + Word(data[ptr], data[ptr + 1], bigEndian);
      ptr := ptr + 2;
      nbytes := nbytes - 2;
      assert sum < if wide then 0x8000_0000_0000_0000 else 0x8000_0000;
    }
    if nbytes == 1 {
      sum := sum + Word(data[ptr], 0, bigEndian);
    }
    answer := Fold(sum);
  }

  /** The folds at the end of in_cksum. */
  method Fold(total: nat) returns (answer: nat)
    ensures answer == 0xffff - Folded(total)
    ensures total < 0x1_0000_0000 ==> answer == 0xffff - Residue(total)
  {
    if total < 0x1_0000_0000 {
      TwoFoldsSuffice(total);
    }
    var sum := total;
    sum := sum / 0x1_0000 + sum % 0x1_0000;
    sum := sum + sum / 0x1_0000;
    answer := 0xffff - sum % 0x1_0000;
  }

  /** A 64-bit accumulator holds the sum of any int number of bytes. */
  lemma SumsFit(data: seq<Byte>, bigEndian: bool)
    ensures |data| < 0x8000_0000 ==> WordSum(data, bigEndian) < 0x8000_0000_0000
  {
    WordSumBound(data, bigEndian);
  }

  /** Two bytes that are read back as `w`. */
  function Stored(w: nat, bigEndian: bool): (b: seq<Byte>)
    requires w < 0x1_0000
    ensures |b| == 2 && Word(b[0], b[1], bigEndian) == w
  {
    if bigEndian then [w / 256, w % 256] else [w % 256, w / 256]
  }

  lemma StoredSum(before: seq<Byte>, w: nat, after: seq<Byte>, bigEndian: bool)
    requires |before| % 2 == 0 && w < 0x1_0000
    ensures WordSum(before + Stored(w, bigEndian) + after, bigEndian)
         == WordSum(before, bigEndian) + w + WordSum(after, bigEndian)
  {
    WordSumSplit(before + Stored(w, bigEndian), after, bigEndian);
    WordSumSplit(before, Stored(w, bigEndian), bigEndian);
    assert Stored(w, bigEndian)[2..] == [];
    assert WordSum(Stored(w, bigEndian), bigEndian) == w + WordSum([], bigEndian);
  }

  lemma ZeroIff(s: nat, w: nat)
    requires w < 0x1_0000
    ensures Residue(s + w) == 0xffff <==> w % 0xffff == (0xffff - Residue(s)) % 0xffff && (w != 0 || s != 0)
  {
    var r := Residue(s);
    var q := if s == 0 then 0 else (s - 1) / 0xffff;
    assert s == r + 0xffff * q;
    var t := r + w;
    if 0 < t <= 0xffff {
      ResidueUnique(s + w, t, q);
    } else if 0 < t {
      ResidueUnique(s + w, t - 0xffff, q + 1);
    }
    Complements(r, w);
  }

  lemma Complements(r: nat, w: nat)
    requires r < 0x1_0000 && w < 0x1_0000
    ensures w % 0xffff == (0xffff - r) % 0xffff <==> r + w == 0 || r + w == 0xffff || r + w == 0x1_fffe
  {
    var c := 0xffff - r;
    assert w % 0xffff == if w == 0xffff then 0 else w;
    assert c % 0xffff == if c == 0xffff then 0 else c;
  }

  /** A receiver's test: with `w` in the checksum field, the whole sums to zero exactly when `w` is the
      checksum computed over a zero field, where 0 and 0xffff count as one value unless every word is 0. */
  lemma VerifiesIff(before: seq<Byte>, after: seq<Byte>, w: nat, bigEndian: bool)
    requires |before| % 2 == 0 && w < 0x1_0000
    ensures var blank := before + [0, 0] + after;
            Sum16(before + Stored(w, bigEndian) + after, bigEndian) == 0
            <==> w % 0xffff == Sum16(blank, bigEndian) % 0xffff && (w != 0 || WordSum(blank, bigEndian) != 0)
  {
    StoredSum(before, w, after, bigEndian);
    StoredSum(before, 0, after, bigEndian);
    assert Stored(0, bigEndian) == [0, 0];
    ZeroIff(WordSum(before, bigEndian) + WordSum(after, bigEndian), w);
  }

  /** Recomputing over the data with its own checksum stored gives zero. */
  lemma StoredChecksumVerifies(before: seq<Byte>, after: seq<Byte>, bigEndian: bool)
    requires |before| % 2 == 0
    ensures Sum16(before + Stored(Sum16(before + [0, 0] + after, bigEndian), bigEndian) + after, bigEndian) == 0
  {
    VerifiesIff(before, after, Sum16(before + [0, 0] + after, bigEndian), bigEndian);
  }

  function Swap(w: nat): nat
    requires w < 0x1_0000
  {
    w % 256 * 256 + w / 256
  }

  /** Every word with its bytes exchanged; an odd last byte brings its padding along. */
  function SwapWords(data: seq<Byte>): (r: seq<Byte>)
    ensures |r| == |data| + |data| % 2
  {
    if |data| == 0 then []
    else if |data| == 1 then [0, data[0]]
    else [data[1], data[0]] + SwapWords(data[2..])
  }

  lemma {:induction false} SwapWordsSum(data: seq<Byte>, bigEndian: bool)
    ensures WordSum(SwapWords(data), bigEndian) == WordSum(data, !bigEndian)
  {
    if |data| == 1 {
      assert SwapWords(data)[2..] == [];
    } else if |data| > 1 {
      SwapWordsSum(data[2..], bigEndian);
      assert SwapWords(data)[2..] == SwapWords(data[2..]);
    }
  }

  lemma {:induction false} OtherOrderSum(data: seq<Byte>, bigEndian: bool) returns (k: int)
    ensures WordSum(data, !bigEndian) + 0xffff * k == 256 * WordSum(data, bigEndian)
  {
    if |data| == 0 {
      k := 0;
    } else if |data| == 1 {
      k := if bigEndian then data[0] else 0;
    } else {
      k := OtherOrderSum(data[2..], bigEndian);
      k := k + if bigEndian then data[0] else data[1];
    }
  }

  lemma SwapIsTimes256(s: nat, t: nat, k: int)
    requires t + 0xffff * k == 256 * s && (t == 0 <==> s == 0)
    ensures Residue(t) == Swap(Residue(s))
  {
    var r := Residue(s);
    var q := if s == 0 then 0 else (s - 1) / 0xffff;
    assert s == r + 0xffff * q;
    ResidueUnique(t, Swap(r), 256 * q + r / 256 - k);
  }

  lemma {:induction false} ZeroSum(data: seq<Byte>, bigEndian: bool)
    ensures WordSum(data, bigEndian) == 0 <==> forall i | 0 <= i < |data| :: data[i] == 0
  {
    if |data| > 1 {
      ZeroSum(data[2..], bigEndian);
      assert data == [data[0], data[1]] + data[2..];
    }
  }

  lemma SwapComplement(r: nat)
    requires r < 0x1_0000
    ensures Swap(0xffff - r) == 0xffff - Swap(r)
  {
    var hi, lo := r / 256, r % 256;
    assert 0xffff - r == 256 * (255 - hi) + (255 - lo);
  }

  lemma StoredSwapped(w: nat, bigEndian: bool)
    requires w < 0x1_0000
    ensures Swap(w) < 0x1_0000 && Stored(Swap(w), !bigEndian) == Stored(w, bigEndian)
  {
    assert Swap(w) / 256 == w % 256 && Swap(w) % 256 == w / 256;
  }

  /** Byte order independence: exchanging the bytes of every word exchanges the bytes of the checksum,
      so both byte orders store the same two bytes. */
  lemma SwapCommutes(data: seq<Byte>, bigEndian: bool)
    ensures Sum16(SwapWords(data), bigEndian) == Swap(Sum16(data, bigEndian)) == Sum16(data, !bigEndian)
    ensures Stored(Sum16(data, !bigEndian), !bigEndian) == Stored(Sum16(data, bigEndian), bigEndian)
  {
    SwapWordsSum(data, bigEndian);
    ZeroSum(data, bigEndian);
    ZeroSum(data, !bigEndian);
    var k := OtherOrderSum(data, bigEndian);
    SwapIsTimes256(WordSum(data, bigEndian), WordSum(data, !bigEndian), k);
    SwapComplement(Residue(WordSum(data, bigEndian)));
    StoredSwapped(Sum16(data, bigEndian), bigEndian);
  }

  /** The checksum is 0xffff exactly for data that is all zero. */
  lemma AllOnesIffZeroData(data: seq<Byte>, bigEndian: bool)
    ensures Sum16(data, bigEndian) == 0xffff <==> forall i | 0 <= i < |data| :: data[i] == 0
  {
    ZeroSum(data, bigEndian);
  }
}
