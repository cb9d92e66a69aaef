/** Binary encoding and decoding of nested values: scalars, arrays, ranges and composites with optional fields.
    Every part inside another is preceded by its length, which is written after the part has been encoded. */
module BinaryValues {
  import opened Wrappers
  import opened Bytes
  import Seqs
  import Decimal

  datatype Type =
    | Bool
    | Int(width: nat)                    // i16, i32, i64; floats by their bit patterns
    | Raw                                // bytes, and strings by their UTF-8 bytes
    | Array(elem: Type, oid: nat)
    | Range(bound: Type)
    | Composite(fields: seq<Field>)

  datatype Field = Field(t: Type, optional: bool, oid: nat)

  datatype Value =
    | Flag(b: bool)
    | Number(n: int)
    | Data(bytes: seq<byte>)
    | Items(vs: seq<Value>)
    | Empty
    | Span(lower: Option<Value>, upper: Option<Value>, lowerInclusive: bool, upperInclusive: bool)
    | Record(fs: seq<Option<Value>>)

  predicate Signed(n: int, w: nat) { -(Pow256(w) as int) <= 2 * n < Pow256(w) }

  predicate Fits(v: Value, t: Type)
    decreases v
  {
    match t
    case Bool => v.Flag?
    case Int(w) => v.Number? && Signed(v.n, w)
    case Raw => v.Data?
    case Array(elem, _) => v.Items? && AllFit(v.vs, elem)
    case Range(bound) =>
      v == Empty || (v.Span? && BoundFits(v.lower, bound) && BoundFits(v.upper, bound))
    case Composite(fields) => v.Record? && FieldsFit(v.fs, fields)
  }

  predicate BoundFits(b: Option<Value>, t: Type)
    decreases b
  {
    b.Some? ==> Fits(b.value, t)
  }

  predicate AllFit(vs: seq<Value>, t: Type)
    decreases vs
  {
    vs == [] || (Fits(vs[0], t) && AllFit(vs[1..], t))
  }

  predicate FieldFits(f: Option<Value>, field: Field)
    decreases f
  {
    match f case None => field.optional case Some(v) => Fits(v, field.t)
  }

  predicate FieldsFit(fs: seq<Option<Value>>, fields: seq<Field>)
    decreases fs
  {
    if fs == [] || fields == [] then fs == [] && fields == []
    else FieldFits(fs[0], fields[0]) && FieldsFit(fs[1..], fields[1..])
  }

  // ----- encoding -----

  function NumberBytes(n: int, w: nat): (s: seq<byte>)
    ensures |s| == w
  {
    BigEndian(n % Pow256(w), w)
  }

  function ArrayHeader(oid: nat, n: nat): (s: seq<byte>)
    ensures |s| == 20
  {
    I32(1) + (I32(0) + (I32(oid) + (I32(n) + I32(1))))
  }

  const RANGE_EMPTY := 1
  const LOWER_INCLUSIVE := 2
  const UPPER_INCLUSIVE := 4
  const LOWER_INFINITE := 8
  const UPPER_INFINITE := 16

  function Flags(lower: bool, upper: bool, lowerInclusive: bool, upperInclusive: bool): byte {
    (if lowerInclusive then LOWER_INCLUSIVE else 0) + (if upperInclusive then UPPER_INCLUSIVE else 0)
    + (if lower then 0 else LOWER_INFINITE) + (if upper then 0 else UPPER_INFINITE)
  }

  /** `flags & mask != 0` for a one-bit mask. */
  predicate Has(flags: byte, mask: nat)
    requires mask > 0
  {
    flags / mask % 2 == 1
  }

  function Encode(v: Value, t: Type): seq<byte>
    requires Fits(v, t)
    decreases v
  {
    match v
    case Flag(b) => [if b then 1 else 0]
    case Number(n) => NumberBytes(n, t.width)
    case Data(bytes) => bytes
    case Items(vs) => ArrayHeader(t.oid, |vs|) + EncodeItems(vs, t.elem)
    case Empty => [RANGE_EMPTY]
    case Span(lower, upper, li, ui) =>
      [Flags(lower.Some?, upper.Some?, li, ui)] + (BoundBytes(lower, t.bound) + BoundBytes(upper, t.bound))
    case Record(fs) => I32(|fs|) + EncodeFields(fs, t.fields)
  }

  function BoundBytes(b: Option<Value>, t: Type): seq<byte>
    requires BoundFits(b, t)
    decreases b
  {
    match b case None => [] case Some(v) => Prefixed(Encode(v, t))
  }

  /** `encode_param`: length, then the bytes. */
  function Prefixed(s: seq<byte>): seq<byte> { I32(|s|) + s }

  function EncodeItems(vs: seq<Value>, t: Type): seq<byte>
    requires AllFit(vs, t)
    decreases vs
  {
    if vs == [] then [] else Prefixed(Encode(vs[0], t)) + EncodeItems(vs[1..], t)
  }

  function FieldBytes(f: Option<Value>, field: Field): seq<byte>
    requires FieldFits(f, field)
    decreases f
  {
    I32(field.oid) + match f case None => I32(-1) case Some(v) => Prefixed(Encode(v, field.t))
  }

  function EncodeFields(fs: seq<Option<Value>>, fields: seq<Field>): seq<byte>
    requires FieldsFit(fs, fields)
    decreases fs
  {
    if fs == [] then [] else FieldBytes(fs[0], fields[0]) + EncodeFields(fs[1..], fields[1..])
  }

  // ----- the encoder -----

  /** `encode_param`: a placeholder for the length, the value, and then the length written into its place. */
  method EncodeParam(buf: Buffer, v: Value, t: Type)
    requires Fits(v, t)
    modifies buf
    ensures buf.data == old(buf.data) + Prefixed(Encode(v, t))
    decreases v, 2
  {
    var start := |buf.data|;
    buf.PutI32(0);
    EncodeValue(buf, v, t);
    var len := |buf.data| - start - 4;
    Patched(old(buf.data), I32(0), Encode(v, t));
    buf.PatchI32(start, len);
    Seqs.Assoc(old(buf.data), I32(len), Encode(v, t));
  }

  lemma Patched(a: seq<byte>, slot: seq<byte>, s: seq<byte>)
    requires |slot| == 4
    ensures (a + slot + s)[..|a|] == a && (a + slot + s)[|a| + 4..] == s
  {
  }

  method EncodeValue(buf: Buffer, v: Value, t: Type)
    requires Fits(v, t)
    modifies buf
    ensures buf.data == old(buf.data) + Encode(v, t)
    decreases v, 1
  {
    match v {
      case Flag(b) => buf.PutByte(if b then 1 else 0);
      case Number(n) => buf.PutSlice(NumberBytes(n, t.width));
      case Data(bytes) => buf.PutSlice(bytes);
      case Items(vs) => EncodeArray(buf, vs, t);
      case Empty => buf.PutByte(RANGE_EMPTY);
      case Span(lower, upper, li, ui) => EncodeSpan(buf, lower, upper, li, ui, t.bound, v);
      case Record(fs) => EncodeRecord(buf, fs, t);
    }
  }

  method PutArrayHeader(buf: Buffer, oid: nat, n: nat)
    modifies buf
    ensures buf.data == old(buf.data) + ArrayHeader(oid, n)
  {
    buf.PutI32(1);
    buf.PutI32(0);
    buf.PutI32(oid);
    buf.PutI32(n);
    buf.PutI32(1);
    Chain(old(buf.data), I32(1), I32(0), I32(oid), I32(n), I32(1));
  }

  lemma {:induction false} Chain(a: seq<byte>, x: seq<byte>, y: seq<byte>, z: seq<byte>, u: seq<byte>, w: seq<byte>)
    ensures a + x + y + z + u + w == a + (x + (y + (z + (u + w))))
  {
    Seqs.Assoc(a + x + y + z, u, w);
    Seqs.Assoc(a + x + y, z, u + w);
    Seqs.Assoc(a + x, y, z + (u + w));
    Seqs.Assoc(a, x, y + (z + (u + w)));
  }

  method EncodeArray(buf: Buffer, vs: seq<Value>, t: Type)
    requires t.Array? && AllFit(vs, t.elem)
    modifies buf
    ensures buf.data == old(buf.data) + (ArrayHeader(t.oid, |vs|) + EncodeItems(vs, t.elem))
    decreases vs
  {
    PutArrayHeader(buf, t.oid, |vs|);
    ghost var start := buf.data;
    Seqs.Assoc(old(buf.data), ArrayHeader(t.oid, |vs|), EncodeItems(vs, t.elem));
    assert vs[0..] == vs;
    var i := 0;
    while i < |vs|
      invariant i <= |vs| && AllFit(vs[i..], t.elem)
      invariant buf.data + EncodeItems(vs[i..], t.elem) == start + EncodeItems(vs, t.elem)
    {
      ItemsNext(vs, i, t.elem);
      Seqs.Assoc(buf.data, Prefixed(Encode(vs[i], t.elem)), EncodeItems(vs[i + 1..], t.elem));
      EncodeParam(buf, vs[i], t.elem);
      i := i + 1;
    }
    assert buf.data + EncodeItems(vs[i..], t.elem) == buf.data;
  }

  lemma ItemsNext(vs: seq<Value>, i: nat, t: Type)
    requires i < |vs| && AllFit(vs[i..], t)
    ensures AllFit(vs[i + 1..], t) && Fits(vs[i], t)
    ensures EncodeItems(vs[i..], t) == Prefixed(Encode(vs[i], t)) + EncodeItems(vs[i + 1..], t)
  {
    assert vs[i..][1..] == vs[i + 1..];
  }

  method EncodeSpan(buf: Buffer, lower: Option<Value>, upper: Option<Value>, li: bool, ui: bool, t: Type,
      ghost v: Value)
    requires v == Span(lower, upper, li, ui) && BoundFits(lower, t) && BoundFits(upper, t)
    modifies buf
    ensures buf.data == old(buf.data) + ([Flags(lower.Some?, upper.Some?, li, ui)]
        + (BoundBytes(lower, t) + BoundBytes(upper, t)))
    decreases v, 0
  {
    hide BoundBytes, Fits;
    var flags := 0;
    if li { flags := flags + LOWER_INCLUSIVE; }
    if ui { flags := flags + UPPER_INCLUSIVE; }
    if lower.None? { flags := flags + LOWER_INFINITE; }
    if upper.None? { flags := flags + UPPER_INFINITE; }
    buf.PutByte(flags);
    EncodeBound(buf, lower, t);
    EncodeBound(buf, upper, t);
    Seqs.Assoc(old(buf.data) + [flags], BoundBytes(lower, t), BoundBytes(upper, t));
    Seqs.Assoc(old(buf.data), [flags], BoundBytes(lower, t) + BoundBytes(upper, t));
  }

  method EncodeBound(buf: Buffer, b: Option<Value>, t: Type)
    requires BoundFits(b, t)
    modifies buf
    ensures buf.data == old(buf.data) + BoundBytes(b, t)
    decreases b
  {
    match b {
      case Some(v) => EncodeParam(buf, v, t);
      case None => assert buf.data + [] == buf.data;
    }
  }

  method EncodeRecord(buf: Buffer, fs: seq<Option<Value>>, t: Type)
    requires t.Composite? && FieldsFit(fs, t.fields)
    modifies buf
    ensures buf.data == old(buf.data) + (I32(|fs|) + EncodeFields(fs, t.fields))
    decreases fs
  {
    SameCount(fs, t.fields);
    buf.PutI32(|t.fields|);
    ghost var start := buf.data;
    Seqs.Assoc(old(buf.data), I32(|fs|), EncodeFields(fs, t.fields));
    assert fs[0..] == fs && t.fields[0..] == t.fields;
    var i := 0;
    while i < |t.fields|
      invariant i <= |t.fields| && FieldsFit(fs[i..], t.fields[i..])
      invariant buf.data + EncodeFields(fs[i..], t.fields[i..]) == start + EncodeFields(fs, t.fields)
    {
      FieldsNext(fs, t.fields, i);
      Seqs.Assoc(buf.data, FieldBytes(fs[i], t.fields[i]), EncodeFields(fs[i + 1..], t.fields[i + 1..]));
      EncodeField(buf, fs[i], t.fields[i]);
      i := i + 1;
    }
    assert buf.data + EncodeFields(fs[i..], t.fields[i..]) == buf.data;
  }

  method EncodeField(buf: Buffer, f: Option<Value>, field: Field)
    requires FieldFits(f, field)
    modifies buf
    ensures buf.data == old(buf.data) + FieldBytes(f, field)
    decreases f
  {
    buf.PutI32(field.oid);
    match f {
      case Some(v) =>
        Seqs.Assoc(old(buf.data), I32(field.oid), Prefixed(Encode(v, field.t)));
        EncodeParam(buf, v, field.t);
      case None =>
        Seqs.Assoc(old(buf.data), I32(field.oid), I32(-1));
        buf.PutI32(-1);
    }
  }

  lemma {:induction false} SameCount(fs: seq<Option<Value>>, fields: seq<Field>)
    requires FieldsFit(fs, fields)
    ensures |fs| == |fields|
    decreases |fs|
  {
    if fs != [] { SameCount(fs[1..], fields[1..]); }
  }

  lemma FieldsNext(fs: seq<Option<Value>>, fields: seq<Field>, i: nat)
    requires i < |fs| && i < |fields| && FieldsFit(fs[i..], fields[i..])
    ensures FieldsFit(fs[i + 1..], fields[i + 1..]) && FieldFits(fs[i], fields[i])
    ensures EncodeFields(fs[i..], fields[i..]) == FieldBytes(fs[i], fields[i])
        + EncodeFields(fs[i + 1..], fields[i + 1..])
  {
    assert fs[i..][1..] == fs[i + 1..] && fields[i..][1..] == fields[i + 1..];
  }

  // ----- decoding -----

  /** `Panics`: an overflowing sum of an offset and a length, a capacity no allocation has. */
  datatype Error = WrongSize | TooShort | NotOneDimensional | NullElement | UnexpectedNull | Panics

  datatype Part = Part(data: Option<seq<byte>>, rest: seq<byte>)

  /** A length and that many bytes, where `s` is what is left of a buffer of `size` bytes; -1 stands for NULL. Another
      negative length becomes 2^64 less its magnitude, which overflows with the offset exactly when it reaches back
      no further than the start of the buffer and is otherwise just too long. */
  function TakePart(s: seq<byte>, size: nat): Result<Part, Error> {
    if |s| < 4 then Err(TooShort) else
      var n := ToI32(s[..4]);
      if n == -1 then Ok(Part(None, s[4..]))
      else if n < 0 then Err(if 0 <= size - |s| + 4 + n then Panics else TooShort)
      else if 4 + n > |s| then Err(TooShort)
      else Ok(Part(Some(s[4..4 + n]), s[4 + n..]))
  }

  function ToNumber(s: seq<byte>): (n: int)
    ensures Signed(n, |s|)
  {
    var u := FromBigEndian(s);
    if 2 * u < Pow256(|s|) then u else u - Pow256(|s|)
  }

  function Decode(t: Type, s: seq<byte>): Result<Value, Error>
    decreases t, 0
  {
    match t
    case Bool => if |s| != 1 then Err(WrongSize) else Ok(Flag(s[0] != 0))
    case Int(w) => if |s| != w then Err(WrongSize) else Ok(Number(ToNumber(s)))
    case Raw => Ok(Data(s))
    case Array(elem, _) => (
      match ArrayCount(s)
      case Err(e) => Err(e)
      case Ok((n, rest)) => match DecodeItems(elem, rest, n, |s|) case Err(e) => Err(e) case Ok(vs) => Ok(Items(vs))
    )
    case Range(bound) => (
      if s == [] then Err(TooShort)
      else if Has(s[0], RANGE_EMPTY) then Ok(Empty)
      else
        match DecodeBound(bound, s[1..], Has(s[0], LOWER_INFINITE), |s|)
        case Err(e) => Err(e)
        case Ok((lower, rest)) =>
          match DecodeBound(bound, rest, Has(s[0], UPPER_INFINITE), |s|)
          case Err(e) => Err(e)
          case Ok((upper, _)) => Ok(Span(lower, upper, Has(s[0], LOWER_INCLUSIVE), Has(s[0], UPPER_INCLUSIVE)))
    )
    case Composite(fields) =>
      if |s| < 4 then Err(TooShort)
      else match DecodeFields(fields, s[4..], |s|) case Err(e) => Err(e) case Ok(fs) => Ok(Record(fs))
  }

  /** `parse_array_header`: the number of elements and what follows the header. */
  function ArrayCount(s: seq<byte>): Result<(nat, seq<byte>), Error> {
    if |s| < 12 then Err(TooShort)
    else if ToI32(s[..4]) == 0 then Ok((0, s[12..]))
    else if ToI32(s[..4]) != 1 then Err(NotOneDimensional)
    else if |s| < 20 then Err(TooShort)
    else if ToI32(s[12..16]) < 0 then Err(Panics)
    else Ok((ToI32(s[12..16]), s[20..]))
  }

  function DecodeItems(t: Type, s: seq<byte>, n: nat, size: nat): Result<seq<Value>, Error>
    decreases t, 2, n
  {
    if n == 0 then Ok([]) else
      match DecodeItem(t, s, size)
      case Err(e) => Err(e)
      case Ok((v, rest)) => match DecodeItems(t, rest, n - 1, size) case Err(e) => Err(e) case Ok(vs) => Ok([v] + vs)
  }

  function DecodeItem(t: Type, s: seq<byte>, size: nat): Result<(Value, seq<byte>), Error>
    decreases t, 1
  {
    match TakePart(s, size)
    case Err(e) => Err(e)
    case Ok(p) =>
      if p.data.None? then Err(NullElement)
      else match Decode(t, p.data.value) case Err(e) => Err(e) case Ok(v) => Ok((v, p.rest))
  }

  function DecodeBound(t: Type, s: seq<byte>, infinite: bool, size: nat): Result<(Option<Value>, seq<byte>), Error>
    decreases t, 1
  {
    if infinite then Ok((None, s)) else
      match TakePart(s, size)
      case Err(e) => Err(e)
      case Ok(p) =>
        if p.data.None? then Err(Panics)
        else match Decode(t, p.data.value) case Err(e) => Err(e) case Ok(v) => Ok((Some(v), p.rest))
  }

  function DecodeField(field: Field, s: seq<byte>, size: nat): Result<(Option<Value>, seq<byte>), Error>
    decreases field
  {
    if |s| < 8 then Err(TooShort) else
      match TakePart(s[4..], size)
      case Err(e) => Err(e)
      case Ok(p) =>
        if p.data.None? then (if field.optional then Ok((None, p.rest)) else Err(UnexpectedNull))
        else match Decode(field.t, p.data.value) case Err(e) => Err(e) case Ok(v) => Ok((Some(v), p.rest))
  }

  function DecodeFields(fields: seq<Field>, s: seq<byte>, size: nat): Result<seq<Option<Value>>, Error>
    decreases fields
  {
    if fields == [] then Ok([]) else
      match DecodeField(fields[0], s, size)
      case Err(e) => Err(e)
      case Ok((f, rest)) =>
        match DecodeFields(fields[1..], rest, size) case Err(e) => Err(e) case Ok(fs) => Ok([f] + fs)
  }

  // ----- the decoding loops -----

  /** `decode_array_elements`. */
  method DecodeArray(t: Type, s: seq<byte>) returns (r: Result<Value, Error>)
    requires t.Array?
    ensures r == Decode(t, s)
  {
    hide DecodeItem, ArrayCount;
    HeaderEnds(s);
    var header := ArrayCount(s);
    if header.Err? { return Err(header.error); }
    var (count, rest) := header.value;
    var offset := |s| - |rest|;
    assert s[offset..] == rest;
    var vs: seq<Value> := [];
    PrependNothing(DecodeItems(t.elem, rest, count, |s|));
    var i := 0;
    while i < count
      invariant i <= count && 0 <= offset <= |s|
      invariant Prepend(vs, DecodeItems(t.elem, s[offset..], count - i, |s|)) == DecodeItems(t.elem, rest, count, |s|)
    {
      ItemStep(t.elem, s[offset..], count - i, vs, |s|);
      var item := DecodeItem(t.elem, s[offset..], |s|);
      if item.Err? { return Err(item.error); }
      vs := vs + [item.value.0];
      ItemEnds(t.elem, s[offset..], |s|);
      DropTwice(s, offset, |s[offset..]| - |item.value.1|);
      offset := |s| - |item.value.1|;
      i := i + 1;
    }
    assert vs + [] == vs;
    return Ok(Items(vs));
  }

  lemma PrependNothing<T>(r: Result<seq<T>, Error>)
    ensures Prepend([], r) == r
  {
    if r.Ok? { assert [] + r.value == r.value; }
  }

  function Prepend<T>(a: seq<T>, r: Result<seq<T>, Error>): Result<seq<T>, Error> {
    match r case Err(e) => Err(e) case Ok(b) => Ok(a + b)
  }

  lemma ItemStep(t: Type, s: seq<byte>, n: nat, vs: seq<Value>, size: nat)
    requires n > 0
    ensures var item := DecodeItem(t, s, size);
            Prepend(vs, DecodeItems(t, s, n, size)) == match item case Err(e) => Err(e)
                case Ok((v, rest)) => Prepend(vs + [v], DecodeItems(t, rest, n - 1, size))
  {
    var item := DecodeItem(t, s, size);
    if item.Ok? && DecodeItems(t, item.value.1, n - 1, size).Ok? {
      Seqs.Assoc(vs, [item.value.0], DecodeItems(t, item.value.1, n - 1, size).value);
    }
  }

  /** What follows a part is a suffix of the input. */
  lemma PartEnds(s: seq<byte>, size: nat)
    ensures var p := TakePart(s, size);
            p.Ok? ==> |p.value.rest| <= |s| && s[|s| - |p.value.rest|..] == p.value.rest
  {
  }

  lemma HeaderEnds(s: seq<byte>)
    ensures var h := ArrayCount(s); h.Ok? ==> |h.value.1| <= |s| && s[|s| - |h.value.1|..] == h.value.1
  {
  }

  lemma ItemEnds(t: Type, s: seq<byte>, size: nat)
    ensures var item := DecodeItem(t, s, size);
            item.Ok? ==> |item.value.1| <= |s| && s[|s| - |item.value.1|..] == item.value.1
  {
    hide Decode;
    PartEnds(s, size);
  }

  lemma DropTwice(s: seq<byte>, i: nat, j: nat)
    requires i + j <= |s|
    ensures s[i..][j..] == s[i + j..]
  {
  }

  /** The generated decoder of a composite: one field after the other. */
  method DecodeRecord(t: Type, s: seq<byte>) returns (r: Result<Value, Error>)
    requires t.Composite?
    ensures r == Decode(t, s)
  {
    if |s| < 4 { return Err(TooShort); }
    var offset := 4;
    var fs: seq<Option<Value>> := [];
    var i := 0;
    assert t.fields[0..] == t.fields;
    PrependNothing(DecodeFields(t.fields, s[4..], |s|));
    while i < |t.fields|
      invariant i <= |t.fields| && 0 <= offset <= |s|
      invariant Prepend(fs, DecodeFields(t.fields[i..], s[offset..], |s|)) == DecodeFields(t.fields, s[4..], |s|)
    {
      assert t.fields[i..][0] == t.fields[i] && t.fields[i..][1..] == t.fields[i + 1..];
      FieldStep(t.fields[i..], s[offset..], fs, |s|);
      var f := DecodeField(t.fields[i], s[offset..], |s|);
      if f.Err? { return Err(f.error); }
      fs := fs + [f.value.0];
      FieldEnds(t.fields[i], s[offset..], |s|);
      DropTwice(s, offset, |s[offset..]| - |f.value.1|);
      offset := |s| - |f.value.1|;
      i := i + 1;
    }
    assert fs + [] == fs;
    return Ok(Record(fs));
  }

  lemma FieldStep(fields: seq<Field>, s: seq<byte>, fs: seq<Option<Value>>, size: nat)
    requires fields != []
    ensures var f := DecodeField(fields[0], s, size);
            Prepend(fs, DecodeFields(fields, s, size)) == match f case Err(e) => Err(e)
                case Ok((v, rest)) => Prepend(fs + [v], DecodeFields(fields[1..], rest, size))
  {
    var f := DecodeField(fields[0], s, size);
    if f.Ok? && DecodeFields(fields[1..], f.value.1, size).Ok? {
      Seqs.Assoc(fs, [f.value.0], DecodeFields(fields[1..], f.value.1, size).value);
    }
  }

  lemma FieldEnds(field: Field, s: seq<byte>, size: nat)
    ensures var f := DecodeField(field, s, size); f.Ok? ==> |f.value.1| <= |s| && s[|s| - |f.value.1|..] == f.value.1
  {
    if |s| >= 8 {
      PartEnds(s[4..], size);
      var p := TakePart(s[4..], size);
      if p.Ok? { DropTwice(s, 4, |s[4..]| - |p.value.rest|); }
    }
  }

  // ----- round trip -----

  lemma ModIs(n: int, p: nat)
    requires p > 0 && -(p as int) <= 2 * n < p
    ensures n % p == if n >= 0 then n else n + p
  {
    if n < 0 { Decimal.DivideExactly(0, p, n + p); ModShift(n, p); }
  }

  lemma ModShift(n: int, p: nat)
    requires p > 0 && 0 <= n + p < p
    ensures n % p == n + p
  {
    assert n == -1 * p + (n + p);
  }

  lemma NumberRound(n: int, w: nat)
    requires Signed(n, w)
    ensures ToNumber(NumberBytes(n, w)) == n
  {
    ModIs(n, Pow256(w));
    BigEndianRoundTrip(n % Pow256(w), w);
  }

  lemma PartRound(s: seq<byte>, rest: seq<byte>, size: nat)
    requires |s| < TWO31
    ensures TakePart(Prefixed(s) + rest, size) == Ok(Part(Some(s), rest))
  {
    var all := Prefixed(s) + rest;
    I32RoundTrip(|s|);
    assert all[..4] == I32(|s|) && all[4..4 + |s|] == s && all[4 + |s|..] == rest;
  }

  lemma NullRound(rest: seq<byte>, size: nat)
    ensures TakePart(I32(-1) + rest, size) == Ok(Part(None, rest))
  {
    I32RoundTrip(-1);
    assert (I32(-1) + rest)[..4] == I32(-1) && (I32(-1) + rest)[4..] == rest;
  }

  /** The four flag bits are independent. */
  lemma FlagsRound(lower: bool, upper: bool, li: bool, ui: bool)
    ensures var f := Flags(lower, upper, li, ui);
            && !Has(f, RANGE_EMPTY) && Has(f, LOWER_INCLUSIVE) == li && Has(f, UPPER_INCLUSIVE) == ui
            && Has(f, LOWER_INFINITE) == !lower && Has(f, UPPER_INFINITE) == !upper
  {
  }

  lemma ArrayHeaderRound(oid: nat, n: nat, rest: seq<byte>)
    requires n < TWO31
    ensures ArrayCount(ArrayHeader(oid, n) + rest) == Ok((n, rest))
  {
    var s := ArrayHeader(oid, n) + rest;
    I32RoundTrip(1);
    I32RoundTrip(n);
    assert s[..4] == I32(1) && s[12..16] == I32(n) && s[20..] == rest;
  }

  lemma {:induction false} ItemsSize(vs: seq<Value>, t: Type)
    requires AllFit(vs, t)
    ensures |EncodeItems(vs, t)| >= 4 * |vs|
    decreases |vs|
  {
    if vs != [] { ItemsSize(vs[1..], t); }
  }

  lemma {:induction false} BoundRound(b: Option<Value>, t: Type, rest: seq<byte>, size: nat)
    requires BoundFits(b, t) && |BoundBytes(b, t)| < TWO31
    ensures DecodeBound(t, BoundBytes(b, t) + rest, b.None?, size) == Ok((b, rest))
    decreases b
  {
    match b {
      case None => assert [] + rest == rest;
      case Some(v) =>
        ValueRound(v, t);
        PartRound(Encode(v, t), rest, size);
    }
  }

  lemma {:induction false} FieldRound(f: Option<Value>, field: Field, rest: seq<byte>, size: nat)
    requires FieldFits(f, field) && |FieldBytes(f, field)| < TWO31
    ensures DecodeField(field, FieldBytes(f, field) + rest, size) == Ok((f, rest))
    decreases f
  {
    var tail := match f case None => I32(-1) case Some(v) => Prefixed(Encode(v, field.t));
    Seqs.Assoc(I32(field.oid), tail, rest);
    assert (I32(field.oid) + (tail + rest))[4..] == tail + rest;
    match f {
      case None => NullRound(rest, size);
      case Some(v) =>
        ValueRound(v, field.t);
        PartRound(Encode(v, field.t), rest, size);
    }
  }

  lemma ItemRound(v: Value, t: Type, rest: seq<byte>, size: nat)
    requires Fits(v, t) && |Encode(v, t)| < TWO31
    ensures DecodeItem(t, Prefixed(Encode(v, t)) + rest, size) == Ok((v, rest))
    decreases v
  {
    ValueRound(v, t);
    PartRound(Encode(v, t), rest, size);
  }

  lemma ItemsStep(t: Type, s: seq<byte>, vs: seq<Value>, size: nat)
    requires vs != [] && DecodeItem(t, s, size).Ok? && DecodeItem(t, s, size).value.0 == vs[0]
    requires DecodeItems(t, DecodeItem(t, s, size).value.1, |vs| - 1, size) == Ok(vs[1..])
    ensures DecodeItems(t, s, |vs|, size) == Ok(vs)
  {
    hide DecodeItem;
    assert [vs[0]] + vs[1..] == vs;
  }

  lemma {:induction false} ItemsRound(vs: seq<Value>, t: Type, size: nat)
    requires AllFit(vs, t) && |EncodeItems(vs, t)| < TWO31
    ensures DecodeItems(t, EncodeItems(vs, t), |vs|, size) == Ok(vs)
    decreases vs
  {
    if vs != [] {
      ItemRound(vs[0], t, EncodeItems(vs[1..], t), size);
      ItemsRound(vs[1..], t, size);
      ItemsStep(t, EncodeItems(vs, t), vs, size);
    }
  }

  lemma {:induction false} FieldsRound(fs: seq<Option<Value>>, fields: seq<Field>, size: nat)
    requires FieldsFit(fs, fields) && |EncodeFields(fs, fields)| < TWO31
    ensures DecodeFields(fields, EncodeFields(fs, fields), size) == Ok(fs)
    decreases fs
  {
    if fs != [] {
      FieldRound(fs[0], fields[0], EncodeFields(fs[1..], fields[1..]), size);
      FieldsRound(fs[1..], fields[1..], size);
      assert [fs[0]] + fs[1..] == fs;
    }
  }

  lemma {:induction false} SpanRound(v: Value, t: Type)
    requires Fits(v, t) && v.Span? && |Encode(v, t)| < TWO31
    ensures Decode(t, Encode(v, t)) == Ok(v)
    decreases v, 0
  {
    var s := Encode(v, t);
    assert s[0] == Flags(v.lower.Some?, v.upper.Some?, v.lowerInclusive, v.upperInclusive);
    assert s[1..] == BoundBytes(v.lower, t.bound) + BoundBytes(v.upper, t.bound);
    FlagsRound(v.lower.Some?, v.upper.Some?, v.lowerInclusive, v.upperInclusive);
    SpanBounds(v, t, |s|);
  }

  lemma {:induction false} SpanBounds(v: Value, t: Type, size: nat)
    requires Fits(v, t) && v.Span? && |Encode(v, t)| < TWO31
    ensures var lower, upper := BoundBytes(v.lower, t.bound), BoundBytes(v.upper, t.bound);
            && DecodeBound(t.bound, lower + upper, v.lower.None?, size) == Ok((v.lower, upper))
            && DecodeBound(t.bound, upper, v.upper.None?, size) == Ok((v.upper, []))
    decreases v, -1
  {
    BoundRound(v.lower, t.bound, BoundBytes(v.upper, t.bound), size);
    BoundRound(v.upper, t.bound, [], size);
    assert BoundBytes(v.upper, t.bound) + [] == BoundBytes(v.upper, t.bound);
  }

  /** Main result: at any depth of nesting, decoding inverts encoding, NULL fields and absent bounds included. */
  lemma {:induction false} ValueRound(v: Value, t: Type)
    requires Fits(v, t) && |Encode(v, t)| < TWO31
    ensures Decode(t, Encode(v, t)) == Ok(v)
    decreases v, 1
  {
    match v {
      case Flag(_) =>
      case Number(n) => NumberRound(n, t.width);
      case Data(_) =>
      case Items(vs) =>
        ItemsSize(vs, t.elem);
        ArrayHeaderRound(t.oid, |vs|, EncodeItems(vs, t.elem));
        ItemsRound(vs, t.elem, |Encode(v, t)|);
      case Empty => assert Has(RANGE_EMPTY, RANGE_EMPTY);
      case Span(_, _, _, _) => SpanRound(v, t);
      case Record(fs) =>
        assert Encode(v, t)[4..] == EncodeFields(fs, t.fields);
        FieldsRound(fs, t.fields, |Encode(v, t)|);
    }
  }

  /** The same through a length prefix, as a parameter of Bind or a part of another value. */
  lemma ParamRound(v: Value, t: Type, rest: seq<byte>, size: nat)
    requires Fits(v, t) && |Encode(v, t)| < TWO31
    ensures TakePart(Prefixed(Encode(v, t)) + rest, size) == Ok(Part(Some(Encode(v, t)), rest))
        && Decode(t, Encode(v, t)) == Ok(v)
  {
    PartRound(Encode(v, t), rest, size);
    ValueRound(v, t);
  }
}
