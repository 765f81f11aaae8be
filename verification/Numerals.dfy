/** Big-endian numerals, and the 32-bit operations of JavaScript on unsigned patterns. */
module Numerals {
  function Pow2(n: nat): (r: nat)
    ensures r >= 1
  {
    if n == 0 then 1 else 2 * Pow2(n - 1)
  }

  lemma PowSplit(a: nat, b: nat)
    ensures Pow2(a + b) == Pow2(a) * Pow2(b)
  {
    if a > 0 { PowSplit(a - 1, b); }
  }

  lemma AtMost(a: nat, b: nat, k: nat)
    requires a <= b
    ensures a * k <= b * k
  {
    assert b * k == a * k + (b - a) * k;
  }

  predicate IsNumeral(base: nat, digits: seq<nat>) { forall d :: d in digits ==> d < base }

  /** The number a sequence of digits stands for, most significant first. */
  function Num(base: nat, digits: seq<nat>): nat {
    if digits == [] then 0 else Num(base, digits[..|digits| - 1]) * base + digits[|digits| - 1]
  }

  lemma NumMore(base: nat, digits: seq<nat>, d: nat)
    ensures Num(base, digits + [d]) == Num(base, digits) * base + d
  {
    assert (digits + [d])[..|digits|] == digits;
  }

  lemma DigitsApart(base: nat, n: nat, d: nat, m: nat, e: nat)
    requires d < base && e < base && n * base + d == m * base + e
    ensures n == m && d == e
  {
    DigitsOrdered(base, n, d, m, e);
    DigitsOrdered(base, m, e, n, d);
  }

  lemma DigitsOrdered(base: nat, n: nat, d: nat, m: nat, e: nat)
    requires d < base && n * base + d == m * base + e
    ensures n >= m
  {
    var gap := m - n;
    assert m * base - n * base == gap * base;
    if gap >= 1 {
      AtLeastOnce(gap, base);
    }
  }

  lemma AtLeastOnce(times: nat, base: nat)
    requires times >= 1
    ensures times * base >= base
  {
    assert times * base == (times - 1) * base + base;
  }

  /** At a given length a number has one numeral. */
  lemma {:induction false} NumInjective(base: nat, a: seq<nat>, b: seq<nat>)
    requires IsNumeral(base, a) && IsNumeral(base, b) && |a| == |b| && Num(base, a) == Num(base, b)
    ensures a == b
  {
    if a != [] {
      var n := |a| - 1;
      assert a == a[..n] + [a[n]] && b == b[..n] + [b[n]];
      assert a[n] in a && b[n] in b;
      assert (forall d :: d in a[..n] ==> d in a) && forall d :: d in b[..n] ==> d in b;
      DigitsApart(base, Num(base, a[..n]), a[n], Num(base, b[..n]), b[n]);
      NumInjective(base, a[..n], b[..n]);
    }
  }

  const WORD: nat := 0x1_0000_0000

  /** `x << k`, `x >>> k`, `x | y` and `x & y`, on the 32 bits of `x` and `y`. */
  function Shl(x: nat, k: nat): (r: nat)
    ensures r < WORD
  {
    x * Pow2(k) % WORD
  }

  function UShr(x: nat, k: nat): nat { if k == 0 then x else UShr(x / 2, k - 1) }

  lemma {:induction false} UShrDivides(x: nat, k: nat)
    ensures UShr(x, k) == x / Pow2(k)
  {
    if k > 0 {
      UShrDivides(x / 2, k - 1);
      HalfThenDivide(x, Pow2(k - 1));
    }
  }

  lemma HalfThenDivide(x: nat, m: nat)
    requires m > 0
    ensures x / 2 / m == x / (2 * m)
  {
    var q, r := x / 2 / m, x / 2 % m;
    assert x / 2 == q * m + r;
    assert x == q * (2 * m) + (2 * r + x % 2);
    Remainder(x, 2 * m, q, 2 * r + x % 2);
  }

  function Or(x: nat, y: nat): nat
    decreases x + y
  {
    if x == 0 && y == 0 then 0
    else 2 * Or(x / 2, y / 2) + if x % 2 == 1 || y % 2 == 1 then 1 else 0
  }

  function And(x: nat, y: nat): nat
    decreases x + y
  {
    if x == 0 && y == 0 then 0
    else 2 * And(x / 2, y / 2) + if x % 2 == 1 && y % 2 == 1 then 1 else 0
  }

  /** Where no bit is set in both, or-ing is adding. */
  lemma {:induction false} OrAdds(x: nat, y: nat, k: nat)
    requires y < Pow2(k)
    ensures Or(x * Pow2(k), y) == x * Pow2(k) + y
  {
    hide Or;
    if k == 0 {
      OrZero(x);
      assert x * Pow2(k) == x;
    } else {
      var z := x * Pow2(k - 1);
      assert x * Pow2(k) == 2 * z by { TwiceTimes(x, Pow2(k - 1)); }
      OrAdds(x, y / 2, k - 1);
      OrHalves(2 * z, y);
    }
  }

  lemma TwiceTimes(x: nat, m: nat)
    ensures x * (2 * m) == 2 * (x * m)
  {
  }

  lemma OrHalves(x: nat, y: nat)
    requires x % 2 == 0
    ensures Or(x, y) == 2 * Or(x / 2, y / 2) + y % 2
  {
  }

  lemma {:induction false} OrZero(x: nat)
    ensures Or(x, 0) == x
  {
    if x > 0 { OrZero(x / 2); }
  }

  /** And-ing with `2^k - 1` keeps the low `k` bits. */
  lemma {:induction false} AndMasks(x: nat, k: nat)
    ensures And(x, Pow2(k) - 1) == x % Pow2(k)
  {
    hide And;
    if k == 0 {
      AndZero(x);
    } else {
      AndMasks(x / 2, k - 1);
      LowBits(x, Pow2(k - 1));
      AndHalves(x, Pow2(k - 1) - 1);
    }
  }

  lemma AndHalves(x: nat, mask: nat)
    ensures And(x, 2 * mask + 1) == 2 * And(x / 2, mask) + x % 2
  {
    assert (2 * mask + 1) / 2 == mask;
  }

  lemma LowBits(x: nat, m: nat)
    requires m > 0
    ensures x % (2 * m) == 2 * (x / 2 % m) + x % 2
  {
    var q, r := x / 2 / m, x / 2 % m;
    assert x / 2 == q * m + r;
    assert x == 2 * (q * m + r) + x % 2 == q * (2 * m) + (2 * r + x % 2);
    Remainder(x, 2 * m, q, 2 * r + x % 2);
  }

  lemma Remainder(x: nat, m: nat, q: nat, r: nat)
    requires x == q * m + r && r < m
    ensures x / m == q && x % m == r
  {
    DigitsApart(m, x / m, x % m, q, r);
  }

  lemma {:induction false} AndZero(x: nat)
    ensures And(x, 0) == 0
  {
    if x > 0 { AndZero(x / 2); }
  }

  /** A number in decimal, as `String(n)`. */
  function Decimal(n: nat): (r: string)
    ensures r != "" && IsDecimal(r)
  {
    if n < 10 then [DigitChar(n)] else Decimal(n / 10) + [DigitChar(n % 10)]
  }

  function DigitChar(d: nat): char
    requires d < 10
  {
    ('0' as int + d) as char
  }

  predicate IsDecimal(s: string) { forall c :: c in s ==> '0' <= c <= '9' }

  /** The number a decimal string stands for. */
  function Parsed(s: string): nat
    requires IsDecimal(s)
  {
    if s == "" then 0
    else
      var n := |s| - 1;
      assert s[n] in s && forall c :: c in s[..n] ==> c in s;
      Parsed(s[..n]) * 10 + (s[n] as int - '0' as int)
  }

  lemma {:induction false} ParsedMore(s: string, d: nat)
    requires IsDecimal(s) && d < 10
    ensures IsDecimal(s + [DigitChar(d)]) && Parsed(s + [DigitChar(d)]) == Parsed(s) * 10 + d
  {
    assert (s + [DigitChar(d)])[..|s|] == s;
  }

  lemma {:induction false} DecimalParsed(n: nat)
    ensures Parsed(Decimal(n)) == n
  {
    if n < 10 {
      ParsedMore("", n);
      assert "" + [DigitChar(n)] == [DigitChar(n)];
    } else {
      DecimalParsed(n / 10);
      ParsedMore(Decimal(n / 10), n % 10);
    }
  }

  function Pow10(n: nat): (r: nat)
    ensures r >= 1
  {
    if n == 0 then 1 else 10 * Pow10(n - 1)
  }

  lemma {:induction false} DecimalLength(n: nat, digits: nat)
    requires digits >= 1 && n < Pow10(digits)
    ensures |Decimal(n)| <= digits
  {
    assert Pow10(1) == 10;
    if digits > 1 && n >= 10 { DecimalLength(n / 10, digits - 1); }
  }

  /** `String(n).padStart(digits, '0')`. */
  function Padded(s: string, digits: nat): string
    decreases digits - |s|
  {
    if |s| >= digits then s else Padded("0" + s, digits)
  }

  lemma {:induction false} LeadingZero(s: string)
    requires IsDecimal(s)
    ensures IsDecimal("0" + s) && Parsed("0" + s) == Parsed(s)
  {
    if s == "" {
      ParsedMore("", 0);
      assert "" + [DigitChar(0)] == "0" + s;
    } else {
      var n := |s| - 1;
      assert s[n] in s && forall c :: c in s[..n] ==> c in s;
      LeadingZero(s[..n]);
      assert ("0" + s)[..n + 1] == "0" + s[..n];
    }
  }

  lemma {:induction false} PaddedParsed(s: string, digits: nat)
    requires IsDecimal(s) && |s| <= digits
    ensures |Padded(s, digits)| == digits && IsDecimal(Padded(s, digits)) && Parsed(Padded(s, digits)) == Parsed(s)
    decreases digits - |s|
  {
    if |s| < digits {
      LeadingZero(s);
      PaddedParsed("0" + s, digits);
    }
  }
}
