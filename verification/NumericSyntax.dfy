/** The client-side validator for numeric text, against a grammar; and decoded text is always accepted by it. */
module NumericSyntax {
  import opened Wrappers
  import opened Bytes
  import opened Numeric
  import Decimal

  // ----- the grammar -----

  predicate Sign(s: string) { s == "" || s == "+" || s == "-" }

  /** What may follow the integer digits: nothing, or a point and digits. */
  predicate Point(p: string) { p == "" || (p[0] == '.' && Decimal.AllDigits(p[1..])) }

  predicate Exponent(e: string) {
    e == "" ||
    ((e[0] == 'e' || e[0] == 'E') &&
     var d := if |e| >= 2 && (e[1] == '+' || e[1] == '-') then e[2..] else e[1..];
     d != "" && Decimal.AllDigits(d))
  }

  ghost predicate Parts(t: string, s: string, n: string, p: string, e: string) {
    t == s + n + p + e && Sign(s) && Decimal.AllDigits(n) && Point(p) && Exponent(e) && n + p != "" && n + p != "."
  }

  ghost predicate Literal(t: string) {
    t == "NaN" || t == "Infinity" || t == "-Infinity" || exists s, n, p, e :: Parts(t, s, n, p, e)
  }

  // ----- trimming -----

  /** Unicode White_Space, as `str::trim` uses it. */
  predicate WhiteSpace(c: char) {
    var u := c as int;
    || 0x09 <= u <= 0x0D || u == 0x20 || u == 0x85 || u == 0xA0 || u == 0x1680 || 0x2000 <= u <= 0x200A
    || u == 0x2028 || u == 0x2029 || u == 0x202F || u == 0x205F || u == 0x3000
  }

  function TrimStart(s: string): string { if s != "" && WhiteSpace(s[0]) then TrimStart(s[1..]) else s }

  function TrimEnd(s: string): string {
    if s != "" && WhiteSpace(s[|s| - 1]) then TrimEnd(s[..|s| - 1]) else s
  }

  function Trim(s: string): string { TrimEnd(TrimStart(s)) }

  ghost predicate AllWhite(s: string) { forall k :: 0 <= k < |s| ==> WhiteSpace(s[k]) }

  /** `v` is what stands between the white space at both ends of `s`, and neither begins nor ends with any. */
  ghost predicate Trimmed(s: string, v: string, i: nat) {
    && i + |v| <= |s| && v == s[i..i + |v|] && AllWhite(s[..i]) && AllWhite(s[i + |v|..])
    && (v != "" ==> !WhiteSpace(v[0]) && !WhiteSpace(v[|v| - 1]))
  }

  lemma {:induction false} TrimStartIs(s: string) returns (i: nat)
    ensures i <= |s| && TrimStart(s) == s[i..] && AllWhite(s[..i]) && (i < |s| ==> !WhiteSpace(s[i]))
  {
    i := 0;
    if s != "" && WhiteSpace(s[0]) {
      var j := TrimStartIs(s[1..]);
      i := j + 1;
      assert s[..i] == [s[0]] + s[1..][..j];
    }
  }

  lemma {:induction false} TrimEndIs(s: string) returns (j: nat)
    ensures j <= |s| && TrimEnd(s) == s[..j] && AllWhite(s[j..]) && (j > 0 ==> !WhiteSpace(s[j - 1]))
  {
    j := |s|;
    if s != "" && WhiteSpace(s[|s| - 1]) {
      j := TrimEndIs(s[..|s| - 1]);
      assert s[j..] == s[..|s| - 1][j..] + [s[|s| - 1]];
    }
  }

  lemma TrimExactly(s: string)
    ensures exists i: nat :: Trimmed(s, Trim(s), i)
  {
    var i := TrimStartIs(s);
    var j := TrimEndIs(s[i..]);
    assert s[i..][..j] == s[i..i + j] && s[i..][j..] == s[i + j..];
    if j > 0 { assert s[i..][0] == s[i] && s[i..][j - 1] == s[i + j - 1]; }
    assert Trimmed(s, Trim(s), i);
  }

  // ----- the scanner -----

  function DigitsEnd(t: string, i: nat): (j: nat)
    requires i <= |t|
    ensures i <= j <= |t| && Decimal.AllDigits(t[i..j]) && (j < |t| ==> !Decimal.IsDigit(t[j]))
    decreases |t| - i
  {
    if i < |t| && Decimal.IsDigit(t[i]) then
      var j := DigitsEnd(t, i + 1);
      assert t[i..j] == [t[i]] + t[i + 1..j];
      j
    else i
  }

  method ScanDigits(t: string, start: nat) returns (i: nat)
    requires start <= |t|
    ensures i == DigitsEnd(t, start)
  {
    i := start;
    while i < |t| && Decimal.IsDigit(t[i])
      invariant start <= i <= |t| && DigitsEnd(t, i) == DigitsEnd(t, start)
    {
      i := i + 1;
    }
  }

  function SignEnd(t: string): (i: nat)
    ensures i <= |t| && i <= 1 && Sign(t[..i])
  {
    if t != "" && (t[0] == '+' || t[0] == '-') then 1 else 0
  }

  function PointEnd(t: string, i: nat): (j: nat)
    requires i <= |t|
    ensures i <= j <= |t|
  {
    if i < |t| && t[i] == '.' then DigitsEnd(t, i + 1) else i
  }

  function MantissaEnd(t: string): (j: nat)
    ensures SignEnd(t) <= j <= |t|
  {
    PointEnd(t, DigitsEnd(t, SignEnd(t)))
  }

  /** The scan of an exponent that starts at `i`: where it ends, or nothing if it has no digits. */
  function ExponentEnd(t: string, i: nat): Option<nat>
    requires i <= |t|
  {
    if i < |t| && (t[i] == 'e' || t[i] == 'E') then
      var d := if i + 1 < |t| && (t[i + 1] == '+' || t[i + 1] == '-') then i + 2 else i + 1;
      var j := DigitsEnd(t, d);
      if j == d then None else Some(j)
    else Some(i)
  }

  predicate Scans(t: string) {
    var start, j := SignEnd(t), MantissaEnd(t);
    j != start && !(j == start + 1 && t[start] == '.') && ExponentEnd(t, j) == Some(|t|)
  }

  // ----- the scanner recognises the grammar -----

  lemma {:induction false} DigitsEndAt(t: string, i: nat, j: nat)
    requires i <= j <= |t| && Decimal.AllDigits(t[i..j]) && (j < |t| ==> !Decimal.IsDigit(t[j]))
    ensures DigitsEnd(t, i) == j
    decreases j - i
  {
    if i < j {
      assert t[i] == t[i..j][0];
      assert t[i + 1..j] == t[i..j][1..];
      DigitsEndAt(t, i + 1, j);
    }
  }

  lemma ScannedMantissa(t: string)
    ensures var i, k, j := SignEnd(t), DigitsEnd(t, SignEnd(t)), MantissaEnd(t);
            Sign(t[..i]) && Decimal.AllDigits(t[i..k]) && Point(t[k..j]) && i <= k <= j
  {
    var k, j := DigitsEnd(t, SignEnd(t)), MantissaEnd(t);
    if j > k { assert t[k..j][1..] == t[k + 1..j]; }
  }

  lemma ScannedExponent(t: string, j: nat)
    requires j <= |t| && ExponentEnd(t, j) == Some(|t|)
    ensures Exponent(t[j..])
  {
    if j < |t| {
      var d := if j + 1 < |t| && (t[j + 1] == '+' || t[j + 1] == '-') then j + 2 else j + 1;
      assert t[j..][d - j..] == t[d..] == t[d..|t|];
    }
  }

  lemma FourPieces(t: string, i: nat, k: nat, j: nat)
    requires i <= k <= j <= |t|
    ensures t == t[..i] + t[i..k] + t[k..j] + t[j..]
  {
  }

  lemma ScansIsLiteral(t: string)
    requires Scans(t)
    ensures Literal(t)
  {
    var i, k, j := SignEnd(t), DigitsEnd(t, SignEnd(t)), MantissaEnd(t);
    ScannedMantissa(t);
    ScannedExponent(t, j);
    FourPieces(t, i, k, j);
    TwoPieces(t, i, k, j);
    assert Parts(t, t[..i], t[i..k], t[k..j], t[j..]);
  }

  lemma TwoPieces(t: string, i: nat, k: nat, j: nat)
    requires i <= k <= j <= |t| && i < j && !(j == i + 1 && t[i] == '.')
    ensures t[i..k] + t[k..j] != "" && t[i..k] + t[k..j] != "."
  {
    assert t[i..k] + t[k..j] == t[i..j];
    assert t[i..j][0] == t[i];
  }

  /** The pieces of a literal are where the scanner looks for them. */
  lemma PiecesAt(t: string, s: string, n: string, p: string, e: string)
    requires Parts(t, s, n, p, e)
    ensures var i := |s|; var k := i + |n|; var j := k + |p|;
            j <= |t| && t[..i] == s && t[i..k] == n && t[k..j] == p && t[j..] == e
  {
  }

  lemma NotADigit(p: string, e: string, rest: string)
    requires Point(p) && Exponent(e) && rest == p + e && rest != ""
    ensures !Decimal.IsDigit(rest[0]) && (p == "" ==> rest[0] != '.') && (p != "" ==> rest[0] == '.')
  {
  }

  lemma SignIsFound(t: string, s: string, n: string, p: string, e: string)
    requires Parts(t, s, n, p, e)
    ensures SignEnd(t) == |s|
  {
    PiecesAt(t, s, n, p, e);
    if s == "" {
      if n != "" { assert t[0] == n[0]; } else { assert p != "" && t[0] == p[0]; }
    } else {
      assert t[0] == s[0];
    }
  }

  lemma MantissaIsFound(t: string, s: string, n: string, p: string, e: string)
    requires Parts(t, s, n, p, e)
    ensures SignEnd(t) == |s| && MantissaEnd(t) == |s| + |n| + |p|
  {
    hide DigitsEnd, PointEnd, SignEnd, Exponent, Point, Sign, Decimal.AllDigits, Decimal.IsDigit;
    var i := |s|;
    var k := i + |n|;
    var j := k + |p|;
    PiecesAt(t, s, n, p, e);
    SignIsFound(t, s, n, p, e);
    assert t[k..] == p + e;
    if k < |t| {
      NotADigit(p, e, t[k..]);
      assert t[k] == t[k..][0];
    }
    DigitsEndAt(t, i, k);
    PointIsFound(t, k, p, e);
  }

  lemma PointIsFound(t: string, k: nat, p: string, e: string)
    requires k <= |t| && t[k..] == p + e && Point(p) && Exponent(e)
    ensures PointEnd(t, k) == k + |p|
  {
    var j := k + |p|;
    if p != "" {
      assert t[k] == t[k..][0] == p[0];
      if j < |t| { assert t[j] == t[k..][|p|] == e[0]; }
      assert t[k..j] == t[k..][..|p|] == p;
      assert t[k + 1..j] == t[k..j][1..];
      DigitsEndAt(t, k + 1, j);
    } else if k < |t| {
      assert t[k] == t[k..][0] == e[0];
    }
  }

  lemma ExponentIsFound(t: string, j: nat, e: string)
    requires j <= |t| && t[j..] == e && Exponent(e)
    ensures ExponentEnd(t, j) == Some(|t|)
  {
    if e != "" {
      assert t[j] == e[0] && (|e| >= 2 ==> t[j + 1] == e[1]);
      var d := if |e| >= 2 && (e[1] == '+' || e[1] == '-') then 2 else 1;
      assert t[j + d..|t|] == e[d..];
      DigitsEndAt(t, j + d, |t|);
    }
  }

  lemma LiteralScans(t: string, s: string, n: string, p: string, e: string)
    requires Parts(t, s, n, p, e)
    ensures Scans(t)
  {
    var i := |s|;
    var j := i + |n| + |p|;
    PiecesAt(t, s, n, p, e);
    MantissaIsFound(t, s, n, p, e);
    ExponentIsFound(t, j, e);
    assert |n + p| == |n| + |p|;
    if j == i + 1 {
      assert n == "" ==> n + p == ".";
      assert t[i] == n[0];
    }
  }

  // ----- the validator -----

  /** `PgNumeric::try_from`. */
  method TryFrom(text: string) returns (r: Result<string, ()>)
    ensures r.Ok? <==> Literal(Trim(text))
    ensures r.Ok? ==> r.value == Trim(text) && exists i: nat :: Trimmed(text, r.value, i)
  {
    TrimExactly(text);
    var t := Trim(text);
    if t == "" {
      NothingIsNoLiteral();
      return Err(());
    }
    if t == "NaN" || t == "Infinity" || t == "-Infinity" { return Ok(t); }
    var scanned := Scan(t);
    if scanned { ScansIsLiteral(t); return Ok(t); }
    if Literal(t) {
      ghost var s, n, p, e :| Parts(t, s, n, p, e);
      LiteralScans(t, s, n, p, e);
    }
    return Err(());
  }

  lemma NothingIsNoLiteral()
    ensures !Literal("")
  {
    forall s, n, p, e ensures !Parts("", s, n, p, e) {
      assert |s + n + p + e| == |s| + |n| + |p| + |e| && |n + p| == |n| + |p|;
    }
  }

  /** The optional exponent from `start` on; fails when it has no digits. */
  method ScanExponent(t: string, start: nat) returns (end: Option<nat>)
    requires start <= |t|
    ensures end == ExponentEnd(t, start)
  {
    var i := start;
    if i < |t| && (t[i] == 'e' || t[i] == 'E') {
      i := i + 1;
      if i < |t| && (t[i] == '+' || t[i] == '-') { i := i + 1; }
      var exponent := i;
      i := ScanDigits(t, i);
      if i == exponent { return None; }
    }
    end := Some(i);
  }

  /** The scan over the characters; a character outside ASCII never matches, so scanning characters or bytes is the
      same. */
  method Scan(t: string) returns (ok: bool)
    ensures ok == Scans(t)
  {
    hide DigitsEnd, ExponentEnd;
    var i := 0;
    if i < |t| && (t[i] == '+' || t[i] == '-') { i := i + 1; }
    var start := i;
    i := ScanDigits(t, i);
    if i < |t| && t[i] == '.' {
      i := i + 1;
      i := ScanDigits(t, i);
    }
    if i == start || (i == start + 1 && t[start] == '.') { return false; }
    var end := ScanExponent(t, i);
    ok := end == Some(|t|);
  }

  /** Everything the decoder produces is accepted unchanged. */
  lemma DecodedTextIsAccepted(digits: seq<digit>, weight: int, sign: int, dscale: nat)
    ensures var t := Text(digits, weight, sign, dscale); Literal(t) && Trim(t) == t
  {
    var t := Text(digits, weight, sign, dscale);
    var s := if digits != [] && sign == NEGATIVE then "-" else "";
    var n := if digits == [] then "0" else IntPart(digits, IntGroups(weight));
    var frac := if digits == [] then Zeros(dscale) else FracPart(digits, weight, dscale);
    AcceptedParts(t, s, n, frac);
  }

  lemma NothingToTrim(t: string)
    requires t != "" && !WhiteSpace(t[0]) && !WhiteSpace(t[|t| - 1])
    ensures Trim(t) == t
  {
  }

  lemma AcceptedParts(t: string, s: string, n: string, frac: string)
    requires (s == "" || s == "-") && n != "" && Decimal.AllDigits(n) && Decimal.AllDigits(frac)
    requires t == s + n + Fraction(frac) || (s == "" && t == n + Fraction(frac))
    ensures Literal(t) && Trim(t) == t
  {
    var p := Fraction(frac);
    if p != "" { assert p[1..] == frac; }
    assert s + n + p + "" == s + n + p && "" + n + p == n + p;
    assert (n + p)[0] == n[0];
    assert Parts(t, s, n, p, "");
    assert t[0] == if s == "" then n[0] else '-';
    assert t[|t| - 1] == if frac == "" then n[|n| - 1] else frac[|frac| - 1];
    NothingToTrim(t);
  }
}
