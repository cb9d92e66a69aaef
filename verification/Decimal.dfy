/** Decimal text of natural numbers: `to_string`, zero-padded formatting, and reading back. */
module Decimal {

  predicate IsDigit(c: char) { '0' <= c <= '9' }

  predicate AllDigits(s: string) { forall i :: 0 <= i < |s| ==> IsDigit(s[i]) }

  function DigitChar(d: nat): (c: char)
    requires d < 10
    ensures IsDigit(c)
  {
    '0' + d as char
  }

  function DigitValue(c: char): (d: nat)
    requires IsDigit(c)
    ensures d < 10
  {
    c as int - '0' as int
  }

  function Pow10(n: nat): (p: nat)
    ensures p >= 1
  {
    if n == 0 then 1 else 10 * Pow10(n - 1)
  }

  lemma {:induction false} Pow10Add(a: nat, b: nat)
    ensures Pow10(a + b) == Pow10(a) * Pow10(b)
  {
    if a > 0 {
      Pow10Add(a - 1, b);
      assert Pow10(a + b) == 10 * Pow10(a - 1 + b);
    }
  }

  /** The number a digit string denotes. */
  function Value(s: string): (n: nat)
    requires AllDigits(s)
  {
    if s == "" then 0 else 10 * Value(s[..|s| - 1]) + DigitValue(s[|s| - 1])
  }

  /** `n.to_string()`. */
  function ToText(n: nat): (s: string)
    ensures AllDigits(s) && |s| >= 1
  {
    if n < 10 then [DigitChar(n)] else ToText(n / 10) + [DigitChar(n % 10)]
  }

  /** The `w` low decimal digits of `n`, with leading zeros. */
  function LowDigits(n: nat, w: nat): (s: string)
    ensures AllDigits(s) && |s| == w
    decreases w
  {
    if w == 0 then "" else LowDigits(n / 10, w - 1) + [DigitChar(n % 10)]
  }

  /** `format!("{n:0w}")`: at least `w` digits, never truncated. */
  function ZeroPadded(n: nat, w: nat): (s: string)
    ensures AllDigits(s) && |s| >= w
  {
    if n < Pow10(w) then LowDigits(n, w) else
      ToTextLength(n, w);
      ToText(n)
  }

  lemma {:induction false} ToTextLength(n: nat, w: nat)
    requires n >= Pow10(w)
    ensures |ToText(n)| >= w
    decreases w
  {
    if w > 0 && n >= 10 { ToTextLength(n / 10, w - 1); }
  }

  lemma {:induction false} ValueOfText(n: nat)
    ensures Value(ToText(n)) == n
  {
    if n >= 10 {
      ValueOfText(n / 10);
      assert ToText(n)[..|ToText(n)| - 1] == ToText(n / 10);
    } else {
      assert ToText(n)[..0] == "";
    }
  }

  /** Distinct numbers have distinct texts, so generated names never collide. */
  lemma TextInjective(m: nat, n: nat)
    requires ToText(m) == ToText(n)
    ensures m == n
  {
    ValueOfText(m);
    ValueOfText(n);
  }

  lemma {:induction false} ValueOfLowDigits(n: nat, w: nat)
    requires n < Pow10(w)
    ensures Value(LowDigits(n, w)) == n
    decreases w
  {
    if w > 0 {
      ValueOfLowDigits(n / 10, w - 1);
      assert LowDigits(n, w)[..w - 1] == LowDigits(n / 10, w - 1);
    }
  }

  lemma ValueOfPadded(n: nat, w: nat)
    ensures Value(ZeroPadded(n, w)) == n
  {
    if n < Pow10(w) { ValueOfLowDigits(n, w); } else { ValueOfText(n); }
  }

  lemma TenTimes(x: nat, p: nat)
    ensures 10 * (x * p) == x * (10 * p)
  {
  }

  lemma {:induction false} ValueAppend(a: string, b: string)
    requires AllDigits(a) && AllDigits(b)
    ensures AllDigits(a + b)
    ensures Value(a + b) == Value(a) * Pow10(|b|) + Value(b)
  {
    if b == "" {
      assert a + b == a;
    } else {
      var b' := b[..|b| - 1];
      ValueAppend(a, b');
      assert (a + b)[..|a + b| - 1] == a + b';
      ValueLast(a + b);
      ValueLast(b);
      TenTimes(Value(a), Pow10(|b'|));
    }
  }

  lemma ValueLast(s: string)
    requires AllDigits(s) && s != ""
    ensures Value(s) == 10 * Value(s[..|s| - 1]) + DigitValue(s[|s| - 1])
    ensures Pow10(|s|) == 10 * Pow10(|s| - 1)
  {
  }

  lemma {:induction false} ValueBound(s: string)
    requires AllDigits(s)
    ensures Value(s) < Pow10(|s|)
  {
    if s != "" { ValueBound(s[..|s| - 1]); }
  }

  /** Keeping the first `k` digits divides by the power of ten that the rest is worth. */
  lemma ValueOfPrefix(s: string, k: nat)
    requires AllDigits(s) && k <= |s|
    ensures Value(s[..k]) == Value(s) / Pow10(|s| - k)
  {
    var a, b := s[..k], s[k..];
    assert s == a + b;
    ValueAppend(a, b);
    ValueBound(b);
    DivideExactly(Value(a), Pow10(|b|), Value(b));
  }

  lemma DivideExactly(q: nat, d: nat, r: nat)
    requires r < d
    ensures (q * d + r) / d == q
  {
    var q' := (q * d + r) / d;
    var r' := (q * d + r) % d;
    QuotientAtMost(q, q', d, r, r');
    QuotientAtMost(q', q, d, r', r);
  }

  lemma QuotientAtMost(q: int, q': int, d: nat, r: nat, r': nat)
    requires q * d + r == q' * d + r' && r' < d
    ensures q <= q'
  {
    assert (q - q') * d == r' - r;
    if q > q' { Multiples(q - q', d); }
  }

  lemma Multiples(k: int, d: nat)
    requires k >= 1
    ensures k * d >= d
  {
  }
}
