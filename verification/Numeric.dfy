/** Decoding PostgreSQL's binary `numeric` (base-10000 digits) to decimal text, and the client-side validator. */
module Numeric {
  import opened Wrappers
  import opened Bytes
  import Decimal

  const NEGATIVE := 0x4000

  /** 16-bit signed arithmetic wraps around. */
  function Wrap16(n: int): (r: int)
    ensures -TWO15 <= r < TWO15 && (n - r) % TWO16 == 0
    ensures -TWO15 <= n < TWO15 ==> r == n
  {
    (n + TWO15) % TWO16 - TWO15
  }

  type digit = d: nat | d < 10000

  // ----- the meaning -----

  /** The base-10000 digit that stands for 10000^p. */
  function Group(digits: seq<digit>, weight: int, p: int): nat {
    if 0 <= weight - p < |digits| then digits[weight - p] else 0
  }

  /** sum of digits[i] * 10000^(weight - i), scaled by 10000^m to make it a natural number. */
  function Magnitude(digits: seq<digit>, weight: int, m: nat): nat
    requires |digits| - 1 <= weight + m
    decreases |digits|
  {
    if digits == [] then 0 else
      Magnitude(digits[..|digits| - 1], weight, m) +
        digits[|digits| - 1] * Decimal.Pow10(4 * (weight + m - (|digits| - 1)))
  }

  /** A decimal numeral as sign, unscaled value and number of decimal places. */
  datatype Reading = Reading(negative: bool, unscaled: nat, scale: nat)

  predicate Plain(t: string) {
    && |t| >= 1 && Decimal.AllDigits(t[..PointAt(t)])
    && PointAt(t) >= 1 && (PointAt(t) < |t| ==> Decimal.AllDigits(t[PointAt(t) + 1..]))
  }

  function PointAt(t: string): (i: nat)
    ensures i <= |t| && (i < |t| ==> t[i] == '.')
    ensures forall k :: 0 <= k < i ==> t[k] != '.'
  {
    if t == "" || t[0] == '.' then 0 else 1 + PointAt(t[1..])
  }

  /** Reads `[-]digits[.digits]`. */
  function Read(t: string): Option<Reading> {
    var negative := t != "" && t[0] == '-';
    var u := if negative then t[1..] else t;
    if !Plain(u) then None else
      var i := PointAt(u);
      var frac := if i < |u| then u[i + 1..] else "";
      Some(Reading(negative, Decimal.Value(u[..i]) * Decimal.Pow10(|frac|) + Decimal.Value(frac), |frac|))
  }

  // ----- the text the decoder builds -----

  function DigitAt(digits: seq<digit>, i: int): digit { if 0 <= i < |digits| then digits[i] else 0 }

  function Padded(d: digit): (s: string)
    ensures Decimal.AllDigits(s) && |s| == 4
  {
    FourDigits();
    Decimal.ZeroPadded(d, 4)
  }

  lemma FourDigits()
    ensures Decimal.Pow10(4) == 10000
  {
    assert Decimal.Pow10(2) == 100;
  }

  function IntGroups(weight: int): nat {
    var n := Wrap16(weight + 1);
    if n > 0 then n else 0
  }

  function IntText(digits: seq<digit>, n: nat): (s: string)
    ensures Decimal.AllDigits(s) && (n > 0 ==> |s| >= 1)
  {
    if n == 0 then "" else if n == 1 then Decimal.ToText(DigitAt(digits, 0))
        else IntText(digits, n - 1) + Padded(DigitAt(digits, n - 1))
  }

  function IntPart(digits: seq<digit>, n: nat): (s: string)
    ensures Decimal.AllDigits(s) && |s| >= 1
  {
    if n == 0 then "0" else IntText(digits, n)
  }

  /** The digits of the first `k` fractional groups. */
  function FracText(digits: seq<digit>, weight: int, k: nat): (s: string)
    ensures Decimal.AllDigits(s) && |s| == 4 * k
  {
    if k == 0 then "" else FracText(digits, weight, k - 1) + Padded(DigitAt(digits, Wrap16(weight + k)))
  }

  function FracPart(digits: seq<digit>, weight: int, dscale: nat): (s: string)
    ensures Decimal.AllDigits(s) && |s| == dscale
  {
    FracText(digits, weight, (dscale + 3) / 4)[..dscale]
  }

  function Zeros(n: nat): (s: string)
    ensures Decimal.AllDigits(s) && |s| == n && forall i :: 0 <= i < n ==> s[i] == '0'
  {
    seq(n, i => '0')
  }

  function Fraction(frac: string): string { if frac == "" then "" else "." + frac }

  function Text(digits: seq<digit>, weight: int, sign: int, dscale: nat): string {
    if digits == [] then "0" + Fraction(Zeros(dscale))
    else
      (if sign == NEGATIVE then "-" else "")
      + IntPart(digits, IntGroups(weight)) + Fraction(FracPart(digits, weight, dscale))
  }

  // ----- the same for any 16-bit digits -----

  type i16 = n: int | -TWO15 <= n < TWO15 witness 0

  /** `d.to_string()`. */
  function SignedText(d: i16): string { if d < 0 then "-" + Decimal.ToText(0 - d) else Decimal.ToText(d) }

  /** `format!("{d:04}")`: the sign counts towards the width. */
  function SignedPadded(d: i16): (s: string)
    ensures |s| >= 4
  {
    if d < 0 then "-" + Decimal.ZeroPadded(0 - d, 3) else Decimal.ZeroPadded(d, 4)
  }

  function RawAt(digits: seq<i16>, i: int): i16 { if 0 <= i < |digits| then digits[i] else 0 }

  function RawInt(digits: seq<i16>, n: nat): string {
    if n == 0 then "" else if n == 1 then SignedText(RawAt(digits, 0))
        else RawInt(digits, n - 1) + SignedPadded(RawAt(digits, n - 1))
  }

  function RawFrac(digits: seq<i16>, weight: int, k: nat): (s: string)
    ensures |s| >= 4 * k
  {
    if k == 0 then "" else RawFrac(digits, weight, k - 1) + SignedPadded(RawAt(digits, Wrap16(weight + k)))
  }

  function RawText(digits: seq<i16>, weight: int, sign: int, dscale: nat): string {
    if digits == [] then "0" + Fraction(Zeros(dscale))
    else
      var n := IntGroups(weight);
      (if sign == NEGATIVE then "-" else "") + (if n == 0 then "0" else RawInt(digits, n))
        + Fraction(Up(RawFrac(digits, weight, (dscale + 3) / 4), dscale))
  }

  /** The digits the server sends. */
  ghost predicate Valid(digits: seq<i16>) { forall i :: 0 <= i < |digits| ==> 0 <= digits[i] < 10000 }

  lemma {:induction false} RawIntIsInt(digits: seq<i16>, n: nat)
    requires Valid(digits)
    ensures RawInt(digits, n) == IntText(digits, n)
  {
    if n > 1 { RawIntIsInt(digits, n - 1); }
  }

  lemma RawGroup(digits: seq<i16>, i: int)
    requires Valid(digits)
    ensures SignedPadded(RawAt(digits, i)) == Padded(DigitAt(digits, i))
  {
  }

  lemma {:induction false} RawFracIsFrac(digits: seq<i16>, weight: int, k: nat)
    requires Valid(digits)
    ensures RawFrac(digits, weight, k) == FracText(digits, weight, k)
  {
    hide SignedPadded, Padded, Wrap16;
    if k > 0 {
      RawFracIsFrac(digits, weight, k - 1);
      RawGroup(digits, Wrap16(weight + k));
    }
  }

  /** On the digits the server sends, the decoder's text is the one whose value is studied below. */
  lemma RawIsText(digits: seq<i16>, weight: int, sign: int, dscale: nat)
    requires Valid(digits)
    ensures RawText(digits, weight, sign, dscale) == Text(digits, weight, sign, dscale)
  {
    var k := (dscale + 3) / 4;
    RawIntIsInt(digits, IntGroups(weight));
    RawFracIsFrac(digits, weight, k);
    assert Up(FracText(digits, weight, k), dscale) == FracPart(digits, weight, dscale);
  }

  // ----- the decoder -----

  /** `Aborts` stands for a panic or for running out of memory. */
  datatype Error = TooShort | TooFewDigits | Aborts

  const TWO64 := 0x1_0000_0000_0000_0000

  function Field(buf: seq<byte>, k: nat): i16
    requires 2 * k + 2 <= |buf|
  {
    ToI16(buf[2 * k..2 * k + 2])
  }

  function DigitsOf(buf: seq<byte>, n: nat): seq<i16>
    requires 8 + 2 * n <= |buf|
  {
    seq(n, i requires 0 <= i < n => Field(buf, 4 + i))
  }

  function DigitBytes(digits: seq<i16>): (s: seq<byte>)
    ensures |s| == 2 * |digits|
  {
    if digits == [] then [] else DigitBytes(digits[..|digits| - 1]) + I16(digits[|digits| - 1])
  }

  lemma {:induction false} DigitBytesAt(digits: seq<i16>, i: nat)
    requires i < |digits|
    ensures DigitBytes(digits)[2 * i..2 * i + 2] == I16(digits[i])
    decreases |digits|
  {
    var front := digits[..|digits| - 1];
    if i < |front| {
      DigitBytesAt(front, i);
      assert DigitBytes(digits)[2 * i..2 * i + 2] == DigitBytes(front)[2 * i..2 * i + 2];
    }
  }

  /** The fields are where `numeric_send` of the server puts them: count, weight, sign, scale, and then the digits. */
  lemma FieldsOfSent(digits: seq<i16>, weight: i16, sign: i16, dscale: i16)
    requires |digits| < TWO15
    ensures var buf := I16(|digits|) + I16(weight) + I16(sign) + I16(dscale) + DigitBytes(digits);
            && |buf| == 8 + 2 * |digits|
            && Field(buf, 0) == |digits| && Field(buf, 1) == weight && Field(buf, 2) == sign && Field(buf, 3) == dscale
            && DigitsOf(buf, |digits|) == digits
  {
    hide I16, ToI16, DigitBytes;
    var tail := DigitBytes(digits);
    var buf := I16(|digits|) + I16(weight) + I16(sign) + I16(dscale) + tail;
    Pieces(I16(|digits|), I16(weight), I16(sign), I16(dscale), tail);
    I16RoundTrip(|digits|);
    I16RoundTrip(weight);
    I16RoundTrip(sign);
    I16RoundTrip(dscale);
    forall i | 0 <= i < |digits| ensures Field(buf, 4 + i) == digits[i] {
      DigitBytesAt(digits, i);
      I16RoundTrip(digits[i]);
      assert buf[8 + 2 * i..8 + 2 * i + 2] == buf[8..][2 * i..2 * i + 2];
    }
  }

  lemma Pieces(a: seq<byte>, b: seq<byte>, c: seq<byte>, d: seq<byte>, tail: seq<byte>)
    requires |a| == |b| == |c| == |d| == 2
    ensures var buf := a + b + c + d + tail;
            buf[0..2] == a && buf[2..4] == b && buf[4..6] == c && buf[6..8] == d && buf[8..] == tail
  {
  }

  /** `Decode for PgNumeric`.  A negative count is read as a huge unsigned one: doubled and increased by eight it wraps
      around to less than eight for -1 to -4, and otherwise exceeds any buffer.  A negative scale asks for more zeros
      than there is memory.  A slice is shorter than 2^63 bytes. */
  method Decode(buf: seq<byte>) returns (r: Result<string, Error>)
    requires |buf| < TWO64 / 2
    ensures |buf| < 8 ==> r == Err(TooShort)
    ensures |buf| >= 8 ==>
              var n, weight, sign, dscale := Field(buf, 0), Field(buf, 1), Field(buf, 2), Field(buf, 3);
              if n < -4 || |buf| < 8 + 2 * n then r == Err(TooFewDigits)
              else if n < 0 || dscale < 0 then r == Err(Aborts)
              else r == Ok(RawText(DigitsOf(buf, n), weight, sign, dscale)) &&
                   (Valid(DigitsOf(buf, n)) ==> r == Ok(Text(DigitsOf(buf, n), weight, sign, dscale)))
  {
    if |buf| < 8 { return Err(TooShort); }
    var ndigits, weight, sign, dscale := Field(buf, 0), Field(buf, 1), Field(buf, 2), Field(buf, 3);
    var needed := (8 + (ndigits % TWO64) * 2) % TWO64;
    NeededBytes(ndigits);
    if |buf| < needed { return Err(TooFewDigits); }
    if ndigits < 0 || dscale < 0 { return Err(Aborts); }
    var text := DecodeDigits(buf, ndigits, weight, sign, dscale);
    if Valid(DigitsOf(buf, ndigits)) { RawIsText(DigitsOf(buf, ndigits), weight, sign, dscale); }
    return Ok(text);
  }

  lemma NeededBytes(n: i16)
    ensures (8 + (n % TWO64) * 2) % TWO64 == if n < -4 then TWO64 + 8 + 2 * n else 8 + 2 * n
  {
    if n >= 0 {
      assert n % TWO64 == n;
    } else {
      assert n % TWO64 == n + TWO64;
      assert 8 + (n + TWO64) * 2 == (8 + 2 * n + TWO64) + TWO64;
    }
  }

  method DecodeDigits(buf: seq<byte>, ndigits: nat, weight: i16, sign: i16, dscale: nat) returns (result: string)
    requires 8 + 2 * ndigits <= |buf|
    ensures result == RawText(DigitsOf(buf, ndigits), weight, sign, dscale)
  {
    if ndigits == 0 {
      if dscale > 0 {
        assert "0" + ("." + Zeros(dscale)) == "0." + Zeros(dscale);
        return "0." + Zeros(dscale);
      } else {
        assert Zeros(dscale) == "" && "0" + "" == "0";
        return "0";
      }
    }
    var digits: seq<i16> := [];
    for i := 0 to ndigits
      invariant digits == DigitsOf(buf, ndigits)[..i]
    {
      digits := digits + [Field(buf, 4 + i)];
    }
    assert digits == DigitsOf(buf, ndigits);
    result := if sign == NEGATIVE then "-" else "";
    var whole := PushInteger(digits, weight);
    result := result + whole;
    if dscale > 0 {
      var frac := PushFraction(digits, weight, dscale);
      result := result + ("." + frac);
    } else {
      assert result + "" == result;
    }
  }

  method PushInteger(digits: seq<i16>, weight: int) returns (s: string)
    ensures s == if IntGroups(weight) == 0 then "0" else RawInt(digits, IntGroups(weight))
    ensures Valid(digits) ==> s == IntPart(digits, IntGroups(weight))
  {
    s := "";
    var n := IntGroups(weight);
    for i := 0 to n
      invariant s == RawInt(digits, i)
    {
      var d: i16 := if i < |digits| then digits[i] else 0;
      if i == 0 {
        s := s + SignedText(d);
      } else {
        s := s + SignedPadded(d);
      }
    }
    if n == 0 { s := s + "0"; }
    if Valid(digits) { RawIntIsInt(digits, n); }
  }

  /** Copies the characters of one group until the scale is reached. */
  method PushUpTo(s: string, four: string, dscale: nat) returns (t: string)
    requires |s| <= dscale
    ensures t == Up(s + four, dscale)
  {
    t := s;
    var k := 0;
    while k < |four|
      invariant k <= |four| && |t| <= dscale && t == s + four[..k]
    {
      if |t| >= dscale { break; }
      t := t + [four[k]];
      k := k + 1;
    }
    assert t == (s + four)[..|t|];
  }

  lemma UpMore(all: string, four: string, s: string, n: nat)
    requires s == Up(all, n) && |s| < n
    ensures s == all && Up(s + four, n) == Up(all + four, n)
  {
  }

  function FracAt(digits: seq<i16>, weight: int, k: nat): i16 { RawAt(digits, Wrap16(weight + (k + 1))) }

  method FractionGroup(digits: seq<i16>, weight: int, pos: int) returns (d: i16)
    requires pos < 0
    ensures d == FracAt(digits, weight, -1 - pos)
  {
    var idx := Wrap16(weight - pos);
    assert weight - pos == weight + (-1 - pos + 1);
    d := if idx >= 0 && idx < |digits| then digits[idx] else 0;
  }

  lemma RawFracNext(digits: seq<i16>, weight: int, k: nat)
    ensures RawFrac(digits, weight, k + 1) == RawFrac(digits, weight, k)
        + SignedPadded(RawAt(digits, Wrap16(weight + (k + 1))))
  {
  }

  method PushGroup(s: string, d: i16, ghost digits: seq<i16>, ghost weight: int, ghost k: nat, dscale: nat)
      returns (t: string)
    requires s == Up(RawFrac(digits, weight, k), dscale) && |s| < dscale && d == FracAt(digits, weight, k)
    ensures t == Up(RawFrac(digits, weight, k + 1), dscale) && |t| > |s|
    ensures 4 * (k + 1) <= dscale + 3
  {
    UpMore(RawFrac(digits, weight, k), SignedPadded(d), s, dscale);
    t := PushUpTo(s, SignedPadded(d), dscale);
  }

  lemma NoGroups(digits: seq<i16>, weight: int, dscale: nat)
    ensures Up(RawFrac(digits, weight, 0), dscale) == ""
  {
  }

  method PushFraction(digits: seq<i16>, weight: int, dscale: nat) returns (s: string)
    ensures s == Up(RawFrac(digits, weight, (dscale + 3) / 4), dscale) && |s| == dscale
    ensures Valid(digits) ==> s == FracPart(digits, weight, dscale)
  {
    hide RawFrac, Up, FracPart;
    s := "";
    var pos := -1;
    ghost var k: nat := 0;
    NoGroups(digits, weight, dscale);
    while |s| < dscale
      invariant pos == -1 - k && s == Up(RawFrac(digits, weight, k), dscale) && 4 * k <= dscale + 3
      decreases dscale - |s|
    {
      var d := FractionGroup(digits, weight, pos);
      s := PushGroup(s, d, digits, weight, k, dscale);
      pos := pos - 1;
      k := k + 1;
    }
    EnoughGroups(digits, weight, k, dscale, s);
  }

  /** Once the scale is reached, the groups not taken up would change nothing. */
  lemma EnoughGroups(digits: seq<i16>, weight: int, k: nat, dscale: nat, s: string)
    requires 4 * k <= dscale + 3 && s == Up(RawFrac(digits, weight, k), dscale) && |s| >= dscale
    ensures s == Up(RawFrac(digits, weight, (dscale + 3) / 4), dscale) && |s| == dscale
    ensures Valid(digits) ==> s == FracPart(digits, weight, dscale)
  {
    var m := (dscale + 3) / 4;
    MoreGroups(digits, weight, k, m);
    UpOfPrefix(RawFrac(digits, weight, k), RawFrac(digits, weight, m), dscale);
    if Valid(digits) { FractionOfValid(digits, weight, dscale); }
  }

  lemma FractionOfValid(digits: seq<i16>, weight: int, dscale: nat)
    requires Valid(digits)
    ensures Up(RawFrac(digits, weight, (dscale + 3) / 4), dscale) == FracPart(digits, weight, dscale)
  {
    RawFracIsFrac(digits, weight, (dscale + 3) / 4);
  }

  lemma {:induction false} Chain(f: nat -> string, k: nat, m: nat)
    requires k <= m && forall i: nat :: f(i) <= f(i + 1)
    ensures f(k) <= f(m)
    decreases m
  {
    if k < m {
      Chain(f, k, m - 1);
      assert f(m - 1) <= f(m - 1 + 1);
    }
  }

  lemma OneMoreGroup(digits: seq<i16>, weight: int, k: nat)
    ensures RawFrac(digits, weight, k) <= RawFrac(digits, weight, k + 1)
  {
    RawFracNext(digits, weight, k);
    LongerPrefix(RawFrac(digits, weight, k), RawFrac(digits, weight, k),
        SignedPadded(RawAt(digits, Wrap16(weight + (k + 1)))));
  }

  /** Further groups only add to the text. */
  lemma MoreGroups(digits: seq<i16>, weight: int, k: nat, m: nat)
    requires k <= m
    ensures RawFrac(digits, weight, k) <= RawFrac(digits, weight, m)
  {
    var f := (i: nat) => RawFrac(digits, weight, i);
    forall i: nat ensures f(i) <= f(i + 1) { OneMoreGroup(digits, weight, i); }
    Chain(f, k, m);
    assert f(k) == RawFrac(digits, weight, k) && f(m) == RawFrac(digits, weight, m);
  }

  lemma LongerPrefix(a: string, b: string, x: string)
    requires a <= b
    ensures a <= b + x
  {
  }

  lemma UpOfPrefix(a: string, b: string, n: nat)
    requires a <= b && (|a| >= n || a == b)
    ensures Up(a, n) == Up(b, n)
  {
    if n <= |a| { assert b[..n] == a[..n]; }
  }

  function Up(s: string, n: nat): string { if |s| <= n then s else s[..n] }

  // ----- reading the text back -----

  lemma AppendFour(a: string, d: digit)
    requires Decimal.AllDigits(a)
    ensures Decimal.AllDigits(a + Padded(d)) && Decimal.Value(a + Padded(d)) == 10000 * Decimal.Value(a) + d
  {
    FourDigits();
    Decimal.ValueAppend(a, Padded(d));
    Decimal.ValueOfPadded(d, 4);
  }

  /** The groups from position `hi` down to `lo`, read as one number in base 10000. */
  function Horner(digits: seq<digit>, weight: int, hi: int, lo: int): nat
    decreases hi - lo
  {
    if hi < lo then 0 else 10000 * Horner(digits, weight, hi, lo + 1) + Group(digits, weight, lo)
  }

  function Top(weight: int): int { if weight >= 0 then weight else -1 }

  lemma {:induction false} IntTextValue(digits: seq<digit>, weight: int, n: nat)
    ensures Decimal.Value(IntText(digits, n)) == Horner(digits, weight, weight, weight - n + 1)
    decreases n
  {
    if n == 1 {
      Decimal.ValueOfText(DigitAt(digits, 0));
      HornerStep(digits, weight, weight, weight);
    } else if n > 1 {
      IntTextValue(digits, weight, n - 1);
      AppendFour(IntText(digits, n - 1), DigitAt(digits, n - 1));
      HornerStep(digits, weight, weight, weight - n + 1);
    }
  }

  lemma GroupsOf(weight: int)
    requires -TWO15 <= weight < TWO15 - 1
    ensures IntGroups(weight) == Top(weight) + 1
  {
  }

  lemma IntPartValue(digits: seq<digit>, weight: int)
    requires -TWO15 <= weight < TWO15 - 1
    ensures Decimal.Value(IntPart(digits, IntGroups(weight))) == Horner(digits, weight, Top(weight), 0)
  {
    GroupsOf(weight);
    if weight >= 0 {
      IntTextValue(digits, weight, weight + 1);
    } else {
      assert "0"[..0] == "" && Decimal.Value("0") == 0;
    }
  }

  /** The fractional groups without 16-bit wrap-around. */
  function TrueFrac(digits: seq<digit>, weight: int, k: nat): (s: string)
    ensures Decimal.AllDigits(s) && |s| == 4 * k
  {
    if k == 0 then "" else TrueFrac(digits, weight, k - 1) + Padded(Group(digits, weight, 0 - k))
  }

  /** Where the index arithmetic wraps, there is no stored digit anyway. */
  lemma {:induction false} WrapIsHarmless(digits: seq<digit>, weight: int, k: nat)
    requires |digits| < TWO15 && -TWO15 <= weight < TWO15 - 1 && k <= TWO15
    ensures FracText(digits, weight, k) == TrueFrac(digits, weight, k)
    decreases k
  {
    if k > 0 {
      WrapIsHarmless(digits, weight, k - 1);
      WrappedIndex(digits, weight, k);
    }
  }

  lemma WrappedIndex(digits: seq<digit>, weight: int, k: nat)
    requires |digits| < TWO15 && -TWO15 <= weight < TWO15 - 1 && k <= TWO15
    ensures DigitAt(digits, Wrap16(weight + k)) == Group(digits, weight, 0 - k)
  {
    if weight + k >= TWO15 { assert Wrap16(weight + k) == weight + k - TWO16; }
  }

  lemma {:induction false} TrueFracPrefix(digits: seq<digit>, weight: int, k: nat, m: nat, n: nat)
    requires k <= m && n <= 4 * k
    ensures TrueFrac(digits, weight, m)[..n] == TrueFrac(digits, weight, k)[..n]
    decreases m
  {
    hide Padded;
    if k < m {
      TrueFracPrefix(digits, weight, k, m - 1, n);
      StartOfSum(TrueFrac(digits, weight, m - 1), Padded(Group(digits, weight, 0 - m)), n);
    }
  }

  lemma StartOfSum(a: string, b: string, n: nat)
    requires n <= |a|
    ensures (a + b)[..n] == a[..n]
  {
  }

  lemma Associate(a: string, b: string, c: string)
    ensures a + (b + c) == (a + b) + c
  {
  }

  lemma {:induction false} TrueFracValue(whole: string, digits: seq<digit>, weight: int, m: nat)
    requires Decimal.AllDigits(whole) && Decimal.Value(whole) == Horner(digits, weight, Top(weight), 0)
    ensures Decimal.AllDigits(whole + TrueFrac(digits, weight, m))
    ensures Decimal.Value(whole + TrueFrac(digits, weight, m)) == Horner(digits, weight, Top(weight), 0 - m)
    decreases m
  {
    hide Padded, Horner, Decimal.Value;
    if m == 0 {
      assert whole + "" == whole;
    } else {
      TrueFracValue(whole, digits, weight, m - 1);
      var before, d := TrueFrac(digits, weight, m - 1), Group(digits, weight, 0 - m);
      AppendFour(whole + before, d);
      Associate(whole, before, Padded(d));
      HornerStep(digits, weight, Top(weight), 0 - m);
    }
  }

  lemma HornerStep(digits: seq<digit>, weight: int, hi: int, lo: int)
    requires lo <= hi
    ensures Horner(digits, weight, hi, lo) == 10000 * Horner(digits, weight, hi, lo + 1) + Group(digits, weight, lo)
  {
  }

  /** Adding one more stored digit adds its own term to the sum. */
  lemma {:induction false} HornerLast(digits: seq<digit>, weight: int, hi: int, lo: int)
    requires digits != []
    requires var pos := weight - (|digits| - 1); pos <= hi
    ensures var pos, d := weight - (|digits| - 1), digits[|digits| - 1];
            Horner(digits, weight, hi, lo) == Horner(digits[..|digits| - 1], weight, hi, lo) +
              if lo <= pos then d * Decimal.Pow10(4 * (pos - lo)) else 0
    decreases hi - lo
  {
    var front, pos, d := digits[..|digits| - 1], weight - (|digits| - 1), digits[|digits| - 1];
    if lo <= hi {
      HornerLast(digits, weight, hi, lo + 1);
      assert lo != pos ==> Group(digits, weight, lo) == Group(front, weight, lo);
      if lo < pos { ScaleUp(d, pos - lo - 1); }
    }
  }

  lemma ScaleUp(d: nat, n: nat)
    ensures 10000 * (d * Decimal.Pow10(4 * n)) == d * Decimal.Pow10(4 * (n + 1))
  {
    FourDigits();
    Decimal.Pow10Add(4, 4 * n);
    Reorder(d, Decimal.Pow10(4 * n));
  }

  lemma Reorder(d: nat, p: nat)
    ensures 10000 * (d * p) == d * (10000 * p)
  {
  }

  lemma {:induction false} HornerEmpty(weight: int, hi: int, lo: int)
    ensures Horner([], weight, hi, lo) == 0
    decreases hi - lo
  {
    if lo <= hi { HornerEmpty(weight, hi, lo + 1); }
  }

  /** Evaluating position by position gives the defining sum. */
  lemma {:induction false} HornerIsMagnitude(digits: seq<digit>, weight: int, m: nat, hi: int)
    requires |digits| - 1 <= weight + m && weight <= hi
    ensures Horner(digits, weight, hi, 0 - m) == Magnitude(digits, weight, m)
    decreases |digits|
  {
    if digits == [] {
      HornerEmpty(weight, hi, 0 - m);
    } else {
      HornerLast(digits, weight, hi, 0 - m);
      HornerIsMagnitude(digits[..|digits| - 1], weight, m, hi);
    }
  }

  lemma {:induction false} PointAfterDigits(a: string, rest: string)
    requires Decimal.AllDigits(a) && (rest == "" || rest[0] == '.')
    ensures PointAt(a + rest) == |a|
  {
    if a == "" {
      assert a + rest == rest;
    } else {
      assert (a + rest)[1..] == a[1..] + rest;
      PointAfterDigits(a[1..], rest);
    }
  }

  lemma ReadUnsigned(whole: string, frac: string)
    requires whole != "" && Decimal.AllDigits(whole) && Decimal.AllDigits(frac)
    ensures Decimal.AllDigits(whole + frac)
    ensures var u := whole + Fraction(frac);
            Plain(u) && PointAt(u) == |whole| && u[..|whole|] == whole && u[0] != '-'
            && (if |whole| < |u| then u[|whole| + 1..] else "") == frac
            && Decimal.Value(u[..|whole|]) * Decimal.Pow10(|frac|) + Decimal.Value(frac) == Decimal.Value(whole + frac)
  {
    var u := whole + Fraction(frac);
    PointAfterDigits(whole, Fraction(frac));
    assert u[..|whole|] == whole;
    if frac != "" { assert u[|whole| + 1..] == frac; }
    Decimal.ValueAppend(whole, frac);
  }

  lemma ReadAs(t: string, negative: bool, u: string, i: nat, frac: string)
    requires t != "" && (t[0] == '-') == negative && u == (if negative then t[1..] else t)
    requires Plain(u) && PointAt(u) == i && frac == if i < |u| then u[i + 1..] else ""
    ensures Read(t) == Some(Reading(negative, Decimal.Value(u[..i]) * Decimal.Pow10(|frac|) + Decimal.Value(frac),
        |frac|))
  {
    hide Plain, PointAt, Decimal.Value, Decimal.Pow10, Decimal.AllDigits;
  }

  lemma ReadSigned(t: string, negative: bool, whole: string, frac: string)
    requires whole != "" && Decimal.AllDigits(whole) && Decimal.AllDigits(frac)
    requires t != "" && (t[0] == '-') == negative && (if negative then t[1..] else t) == whole + Fraction(frac)
    ensures Decimal.AllDigits(whole + frac)
    ensures Read(t) == Some(Reading(negative, Decimal.Value(whole + frac), |frac|))
  {
    ReadUnsigned(whole, frac);
    ReadAs(t, negative, whole + Fraction(frac), |whole|, frac);
  }

  /** What the reader makes of a numeral written as sign, integer digits and fraction digits. */
  lemma ReadParts(negative: bool, whole: string, frac: string)
    requires whole != "" && Decimal.AllDigits(whole) && Decimal.AllDigits(frac)
    ensures Decimal.AllDigits(whole + frac)
    ensures Read((if negative then "-" else "") + whole + Fraction(frac))
        == Some(Reading(negative, Decimal.Value(whole + frac), |frac|))
  {
    var sign, u := if negative then "-" else "", whole + Fraction(frac);
    Associate(sign, whole, Fraction(frac));
    var t := sign + u;
    assert t != "" && (if negative then t[1..] else t) == u && (!negative ==> t[0] == whole[0]);
    ReadSigned(t, negative, whole, frac);
  }

  /** The value the text should have: the sum, truncated to `dscale` decimal places. */
  function Truncated(digits: seq<digit>, weight: int, dscale: nat, m: nat): nat
    requires |digits| - 1 <= weight + m && dscale <= 4 * m
  {
    Quotient(Magnitude(digits, weight, m), Decimal.Pow10(4 * m - dscale))
  }

  function Quotient(a: nat, p: nat): nat
    requires p >= 1
  {
    a / p
  }

  lemma FractionDigits(digits: seq<digit>, weight: int, dscale: nat, m: nat)
    requires |digits| < TWO15 && -TWO15 <= weight < TWO15 - 1 && dscale < TWO15 && dscale <= 4 * m
    ensures FracPart(digits, weight, dscale) == TrueFrac(digits, weight, m)[..dscale]
  {
    var k := (dscale + 3) / 4;
    WrapIsHarmless(digits, weight, k);
    TrueFracPrefix(digits, weight, k, m, dscale);
  }

  lemma PrefixOfSum(a: string, b: string, n: nat)
    requires n <= |b|
    ensures (a + b)[..|a| + n] == a + b[..n]
  {
  }

  lemma PrefixValue(a: string, b: string, n: nat)
    requires Decimal.AllDigits(a + b) && n <= |b|
    ensures Decimal.AllDigits(a + b[..n])
    ensures Decimal.Value(a + b[..n]) == Quotient(Decimal.Value(a + b), Decimal.Pow10(|b| - n))
  {
    PrefixOfSum(a, b, n);
    Decimal.ValueOfPrefix(a + b, |a| + n);
  }

  lemma DigitsAreTruncatedSum(digits: seq<digit>, weight: int, dscale: nat, m: nat)
    requires |digits| < TWO15 && -TWO15 <= weight < TWO15 - 1 && dscale < TWO15 && |digits| - 1 <= weight + m
        && dscale <= 4 * m
    ensures var whole, frac := IntPart(digits, IntGroups(weight)), FracPart(digits, weight, dscale);
            Decimal.AllDigits(whole + frac) && Decimal.Value(whole + frac) == Truncated(digits, weight, dscale, m)
  {
    hide IntPart, IntGroups, FracPart, TrueFrac, Horner, Decimal.Value;
    var whole, all := IntPart(digits, IntGroups(weight)), TrueFrac(digits, weight, m);
    FractionDigits(digits, weight, dscale, m);
    IntPartValue(digits, weight);
    TrueFracValue(whole, digits, weight, m);
    HornerIsMagnitude(digits, weight, m, Top(weight));
    PrefixValue(whole, all, dscale);
  }

  lemma {:induction false} ZeroText(n: nat)
    ensures Decimal.Value("0" + Zeros(n)) == 0
    decreases n
  {
    if n == 0 {
      assert "0" + Zeros(0) == "0" && "0"[..0] == "";
    } else {
      ZeroText(n - 1);
      assert ("0" + Zeros(n))[..n] == "0" + Zeros(n - 1);
    }
  }

  /** Main result: below the weight limit, the text reads back as sign, the sum of digits[i] * 10000^(weight - i)
      truncated to `dscale` places, and exactly `dscale` places; `m` is any scaling that makes the sum integral. */
  lemma DecodedTextIsTheNumber(digits: seq<digit>, weight: int, sign: int, dscale: nat, m: nat)
    requires |digits| < TWO15 && -TWO15 <= weight < TWO15 - 1 && dscale < TWO15
    requires |digits| - 1 <= weight + m && dscale <= 4 * m
    ensures Read(Text(digits, weight, sign, dscale))
              == Some(Reading(sign == 0x4000 && digits != [], Truncated(digits, weight, dscale, m), dscale))
  {
    if digits == [] {
      EmptyText(weight, sign, dscale, m);
    } else {
      DigitsAreTruncatedSum(digits, weight, dscale, m);
      ReadParts(sign == NEGATIVE, IntPart(digits, IntGroups(weight)), FracPart(digits, weight, dscale));
    }
  }

  // ----- the one weight that fails -----

  lemma {:induction false} OverflowGivesZeros(digits: seq<digit>, k: nat)
    requires k <= TWO15
    ensures FracText(digits, TWO15 - 1, k) == Zeros(4 * k)
    decreases k
  {
    hide Padded, Wrap16;
    if k > 0 {
      OverflowGivesZeros(digits, k - 1);
      OverflowIndex(digits, k);
      assert Padded(0) == Zeros(4) by { FourZeros(); }
      MoreZeros(4 * (k - 1), 4);
    }
  }

  lemma OverflowIndex(digits: seq<digit>, k: nat)
    requires 1 <= k <= TWO15
    ensures DigitAt(digits, Wrap16(TWO15 - 1 + k)) == 0
  {
    assert Wrap16(TWO15 - 1 + k) < 0;
  }

  lemma MoreZeros(n: nat, m: nat)
    ensures Zeros(n) + Zeros(m) == Zeros(n + m)
  {
  }

  lemma FourZeros()
    ensures Padded(0) == "0000"
  {
    FourDigits();
    assert Decimal.LowDigits(0, 2) == "00";
  }

  lemma {:induction false} Pow10Grows(p: nat, e: nat)
    requires p <= e
    ensures Decimal.Pow10(p) <= Decimal.Pow10(e)
  {
    if p < e { Pow10Grows(p, e - 1); }
  }

  lemma TermAtLeast(d: nat, p: nat, e: nat)
    requires d >= 1 && p <= e
    ensures d * Decimal.Pow10(e) >= Decimal.Pow10(p)
  {
    Pow10Grows(p, e);
    Decimal.Multiples(d, Decimal.Pow10(e));
  }

  lemma {:induction false} MagnitudePositive(digits: seq<digit>, weight: int, m: nat, p: nat, i: nat)
    requires |digits| - 1 <= weight + m && i < |digits| && digits[i] > 0 && p <= 4 * (weight + m - i)
    ensures Magnitude(digits, weight, m) >= Decimal.Pow10(p)
    decreases |digits|
  {
    var n := |digits| - 1;
    if i == n {
      TermAtLeast(digits[n], p, 4 * (weight + m - n));
    } else {
      MagnitudePositive(digits[..n], weight, m, p, i);
      NotNegative(digits[n], Decimal.Pow10(4 * (weight + m - n)));
    }
  }

  lemma NotNegative(a: nat, b: nat)
    ensures a * b >= 0
  {
  }

  lemma {:induction false} MagnitudeZero(digits: seq<digit>, weight: int, m: nat)
    requires |digits| - 1 <= weight + m && forall i :: 0 <= i < |digits| ==> digits[i] == 0
    ensures Magnitude(digits, weight, m) == 0
    decreases |digits|
  {
    if digits != [] { MagnitudeZero(digits[..|digits| - 1], weight, m); }
  }

  lemma OverflowText(digits: seq<digit>, sign: int, dscale: nat)
    requires digits != [] && dscale < TWO15
    ensures Read(Text(digits, TWO15 - 1, sign, dscale)) == Some(Reading(sign == NEGATIVE, 0, dscale))
  {
    var k := (dscale + 3) / 4;
    OverflowGivesZeros(digits, k);
    assert FracPart(digits, TWO15 - 1, dscale) == Zeros(dscale);
    assert IntGroups(TWO15 - 1) == 0;
    ReadParts(sign == NEGATIVE, "0", Zeros(dscale));
    ZeroText(dscale);
  }

  lemma OverflowTruth(digits: seq<digit>, dscale: nat, m: nat)
    requires digits != [] && |digits| < TWO15 && dscale <= 4 * m
    ensures Truncated(digits, TWO15 - 1, dscale, m) == 0 <==> forall i :: 0 <= i < |digits| ==> digits[i] == 0
  {
    var p := Decimal.Pow10(4 * m - dscale);
    if i :| 0 <= i < |digits| && digits[i] != 0 {
      MagnitudePositive(digits, TWO15 - 1, m, 4 * m - dscale, i);
      QuotientPositive(Magnitude(digits, TWO15 - 1, m), p);
    } else {
      MagnitudeZero(digits, TWO15 - 1, m);
    }
  }

  lemma QuotientPositive(a: nat, p: nat)
    requires a >= p >= 1
    ensures a / p >= 1
  {
  }

  lemma EmptyText(weight: int, sign: int, dscale: nat, m: nat)
    requires -1 <= weight + m && dscale <= 4 * m
    ensures Read(Text([], weight, sign, dscale)) == Some(Reading(false, Truncated([], weight, dscale, m), dscale))
  {
    ReadParts(false, "0", Zeros(dscale));
    ZeroText(dscale);
    assert "" + "0" + Fraction(Zeros(dscale)) == "0" + Fraction(Zeros(dscale));
  }

  /** Over all inputs the decoder is right exactly when the weight is below 32767, where `weight + 1` overflows, or
      there is nothing to lose because every digit is zero. */
  lemma RightExactlyBelowTheLimit(digits: seq<digit>, weight: int, sign: int, dscale: nat, m: nat)
    requires |digits| < TWO15 && -TWO15 <= weight < TWO15 && dscale < TWO15
    requires |digits| - 1 <= weight + m && dscale <= 4 * m
    ensures Read(Text(digits, weight, sign, dscale))
              == Some(Reading(sign == NEGATIVE && digits != [], Truncated(digits, weight, dscale, m), dscale))
       <==> weight < TWO15 - 1 || forall i :: 0 <= i < |digits| ==> digits[i] == 0
  {
    if weight < TWO15 - 1 {
      DecodedTextIsTheNumber(digits, weight, sign, dscale, m);
    } else if digits == [] {
      EmptyText(weight, sign, dscale, m);
    } else {
      OverflowText(digits, sign, dscale);
      OverflowTruth(digits, dscale, m);
    }
  }
}
