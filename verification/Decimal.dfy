/** Decimal numerals as sprintf ("%d") writes them and as the hand-written scanners read them, and the
    blanks that they skip. */
module Decimal {

  predicate IsSpace(c: char) {
    c == ' ' || '\t' <= c <= '\r'
  }

  function SkipSpace(s: string): (r: string)
    ensures |r| <= |s| && (r != [] ==> !IsSpace(r[0]))
  {
    if s != [] && IsSpace(s[0]) then SkipSpace(s[1..]) else s
  }

  predicate IsDigit(c: char) {
    '0' <= c <= '9'
  }

  predicate AllDigits(s: string) {
    forall i | 0 <= i < |s| :: IsDigit(s[i])
  }

  function DigitOf(c: char): (d: nat)
    requires IsDigit(c)
    ensures d < 10
  {
    (c - '0') as nat
  }

  function DigitChar(d: nat): (c: char)
    requires d < 10
    ensures IsDigit(c) && DigitOf(c) == d
  {
    '0' + d as char
  }

  function Digits(n: nat): (s: string)
    ensures AllDigits(s) && s != []
  {
    if n < 10 then [DigitChar(n)] else Digits(n / 10) + [DigitChar(n % 10)]
  }

  /** Read digits on top of `acc` in an unsigned integer of m values. */
  function Accumulate(s: string, acc: nat, m: nat): nat
    requires AllDigits(s) && m > 0
  {
    if s == [] then acc else Accumulate(s[1..], (acc * 10 + DigitOf(s[0])) % m, m)
  }

  lemma {:induction false} AccumulateSnoc(s: string, c: char, acc: nat, m: nat)
    requires AllDigits(s) && IsDigit(c) && m > 0
    ensures AllDigits(s + [c]) && Accumulate(s + [c], acc, m) == (Accumulate(s, acc, m) * 10 + DigitOf(c)) % m
  {
    if s == [] {
      assert s + [c] == [c] && [c][1..] == [];
    } else {
      var acc' := (acc * 10 + DigitOf(s[0])) % m;
      AccumulateSnoc(s[1..], c, acc', m);
      assert (s + [c])[1..] == s[1..] + [c];
      assert (s + [c])[0] == s[0];
    }
  }

  /** Reading gives back what was written, in any integer type that can hold it. */
  lemma {:induction false} ReadBack(n: nat, m: nat)
    requires n < m
    ensures Accumulate(Digits(n), 0, m) == n
  {
    if n < 10 {
      var s := Digits(n);
      assert s[1..] == [];
      SmallMod(n, m);
    } else {
      ReadBack(n / 10, m);
      AccumulateSnoc(Digits(n / 10), DigitChar(n % 10), 0, m);
      assert n / 10 * 10 + n % 10 == n;
      SmallMod(n, m);
    }
  }

  lemma SmallMod(n: nat, m: nat)
    requires n < m
    ensures n % m == n
  {
  }

  function Power10(k: nat): nat {
    if k == 0 then 1 else 10 * Power10(k - 1)
  }

  lemma {:induction false} NumeralLength(n: nat, k: nat)
    requires k > 0
    ensures n < Power10(k) ==> |Digits(n)| <= k
  {
    if k > 1 {
      NumeralLength(n / 10, k - 1);
    }
  }

  lemma HundredThousand()
    ensures Power10(5) == 100_000
  {
    assert Power10(1) == 10 * Power10(0) == 10;
    assert Power10(2) == 10 * Power10(1) == 100;
    assert Power10(3) == 10 * Power10(2) == 1_000;
    assert Power10(4) == 10 * Power10(3) == 10_000;
  }

  /** A 16-bit number takes at most five characters. */
  lemma ShortNumeral(n: nat)
    requires n < 0x1_0000
    ensures |Digits(n)| <= 5
  {
    HundredThousand();
    NumeralLength(n, 5);
  }

  /** A decimal numeral by its digits, without leading zeroes. */
  lemma NumeralIs(n: nat, d: nat)
    requires d < 10
    ensures Digits(d) == ["0123456789"[d]]
    ensures n > 0 ==> Digits(10 * n + d) == Digits(n) + Digits(d)
  {
  }
}
