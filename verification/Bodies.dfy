/** Which message bodies `parse_message` accepts.  What it makes of them matters elsewhere only for DataRow. */
module Bodies {
  import opened Bytes
  import opened Wrappers
  import DataRow

  // ----- text -----

  predicate Between(b: byte, lo: byte, hi: byte) { lo <= b <= hi }

  predicate Trail(b: byte) { Between(b, 0x80, 0xBF) }

  /** `String::from_utf8` succeeds. */
  predicate Utf8(s: seq<byte>) {
    if s == [] then true
    else if s[0] < 0x80 then Utf8(s[1..])
    else if Between(s[0], 0xC2, 0xDF) then |s| >= 2 && Trail(s[1]) && Utf8(s[2..])
    else if Between(s[0], 0xE0, 0xEF) then
      && |s| >= 3 && Trail(s[2])
      && Between(s[1], if s[0] == 0xE0 then 0xA0 else 0x80, if s[0] == 0xED then 0x9F else 0xBF)
      && Utf8(s[3..])
    else
      && Between(s[0], 0xF0, 0xF4) && |s| >= 4 && Trail(s[2]) && Trail(s[3])
      && Between(s[1], if s[0] == 0xF0 then 0x90 else 0x80, if s[0] == 0xF4 then 0x8F else 0xBF)
      && Utf8(s[4..])
  }

  /** The first NUL, or the length. */
  function NulAt(s: seq<byte>): (i: nat)
    ensures i <= |s| && (i < |s| ==> s[i] == 0) && forall k :: 0 <= k < i ==> s[k] != 0
  {
    if s == [] || s[0] == 0 then 0 else 1 + NulAt(s[1..])
  }

  /** `split_cstring`. */
  function SplitCString(s: seq<byte>): (seq<byte>, seq<byte>) {
    var i := NulAt(s);
    if i < |s| then (s[..i], s[i + 1..]) else (s, [])
  }

  // ----- bodies -----

  function Count(body: seq<byte>, at: nat): int
    requires at + 2 <= |body|
  {
    ToI16(body[at..at + 2])
  }

  predicate Mechanisms(s: seq<byte>)
    decreases |s|
  {
    s == [] || s[0] == 0 ||
    var (name, rest) := SplitCString(s);
    Utf8(name) && Mechanisms(rest)
  }

  predicate Authentication(body: seq<byte>) {
    |body| >= 4 &&
    var kind := ToI32(body[..4]);
    kind == 0 || kind == 3 || (kind == 5 && |body| >= 8) || (kind == 10 && Mechanisms(body[4..])) || kind == 11
        || kind == 12
  }

  predicate TwoStrings(s: seq<byte>) {
    var (a, rest) := SplitCString(s);
    Utf8(a) && Utf8(SplitCString(rest).0)
  }

  /** `n` field descriptions: a name and 18 more bytes each. */
  predicate Fields(s: seq<byte>, n: nat)
    decreases n
  {
    n == 0 ||
    (s != [] &&
     var (name, rest) := SplitCString(s);
     |name| + 1 + 18 <= |s| && Utf8(name) && Fields(rest[18..], n - 1))
  }

  predicate RowDescription(body: seq<byte>) {
    |body| >= 2 && Count(body, 0) >= 0 && Fields(body[2..], Count(body, 0))
  }

  predicate ParameterDescription(body: seq<byte>) {
    |body| >= 2 && Count(body, 0) >= 0 && |body| >= 2 + 4 * Count(body, 0)
  }

  predicate CopyResponse(body: seq<byte>) {
    |body| >= 3 && Count(body, 1) >= 0 && |body| >= 3 + 2 * Count(body, 1)
  }

  /** The parser for `tag` succeeds on `body`; errors and notices are always accepted. */
  predicate Accepts(tag: byte, body: seq<byte>) {
    match tag as char
    case 'Z' => body != []
    case 'R' => Authentication(body)
    case 'S' => TwoStrings(body)
    case 'K' => |body| >= 8
    case 'C' => Utf8(SplitCString(body).0)
    case 'D' => DataRow.Parse(body).Ok?
    case 'T' => RowDescription(body)
    case 'A' => |body| >= 4 && TwoStrings(body[4..])
    case 't' => ParameterDescription(body)
    case 'G' => CopyResponse(body)
    case 'H' => CopyResponse(body)
    case _ => true
  }
}
