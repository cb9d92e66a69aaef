/** The other end of the binary format: the server's readers for arrays, ranges and composites, which look at every
    part of what they are sent (`array_recv`, `range_recv` and `record_recv` of PostgreSQL 16).  What they demand and
    the client's own decoder skips is type identity, the null flag, the lower bound, and that nothing is left over. */
module ServerBinary {
  import opened Wrappers
  import opened Bytes
  import opened BinaryValues
  import Seqs

  function Unsigned(s: seq<byte>): nat { Positional(s) }

  function TwosComplement(s: seq<byte>): int {
    if 2 * Positional(s) < Pow256(|s|) then Positional(s) else Positional(s) - Pow256(|s|)
  }

  /** A length and that many bytes, or NULL for -1. */
  function TakeChunk(s: seq<byte>): Option<(Option<seq<byte>>, seq<byte>)> {
    if |s| < 4 then None else
      var n := TwosComplement(s[..4]);
      if n == -1 then Some((None, s[4..]))
      else if 0 <= n <= |s| - 4 then Some((Some(s[4..4 + n]), s[4 + n..]))
      else None
  }

  function Receive(t: Type, s: seq<byte>): Option<Value>
    decreases t, 0
  {
    match t
    case Bool => if s == [1] then Some(Flag(true)) else if s == [0] then Some(Flag(false)) else None
    case Int(w) => if |s| == w then Some(Number(TwosComplement(s))) else None
    case Raw => Some(Data(s))
    case Array(elem, oid) => (
      // dimensions, null flag, element type, length, lower bound
      if |s| < 20 || TwosComplement(s[..4]) != 1 || TwosComplement(s[4..8]) != 0 || Unsigned(s[8..12]) != oid
          || TwosComplement(s[12..16]) < 0 || TwosComplement(s[16..20]) != 1 then None
      else
        match ReceiveItems(elem, s[20..], TwosComplement(s[12..16]))
        case None => None
        case Some(vs) => Some(Items(vs))
    )
    case Range(bound) => (
      if s == [] then None
      else if s[0] == 1 then (if |s| == 1 then Some(Empty) else None)
      else if s[0] >= 32 || s[0] % 2 == 1 then None
      else
        match ReceiveBound(bound, s[1..], s[0] / 8 % 2 == 1)
        case None => None
        case Some((lower, rest)) =>
          match ReceiveBound(bound, rest, s[0] / 16 % 2 == 1)
          case None => None
          case Some((upper, rest')) =>
            if rest' == [] then Some(Span(lower, upper, s[0] / 2 % 2 == 1, s[0] / 4 % 2 == 1)) else None
    )
    case Composite(fields) =>
      if |s| < 4 || TwosComplement(s[..4]) != |fields| then None
      else match ReceiveFields(fields, s[4..]) case None => None case Some(fs) => Some(Record(fs))
  }

  function ReceiveItems(elem: Type, s: seq<byte>, n: nat): Option<seq<Value>>
    decreases elem, 1, n
  {
    if n == 0 then (if s == [] then Some([]) else None) else
      match TakeChunk(s)
      case None => None
      case Some((chunk, rest)) =>
        if chunk.None? then None else
          match Receive(elem, chunk.value)
          case None => None
          case Some(v) => match ReceiveItems(elem, rest, n - 1) case None => None case Some(vs) => Some([v] + vs)
  }

  function ReceiveBound(bound: Type, s: seq<byte>, infinite: bool): Option<(Option<Value>, seq<byte>)>
    decreases bound, 1
  {
    if infinite then Some((None, s)) else
      match TakeChunk(s)
      case None => None
      case Some((chunk, rest)) =>
        if chunk.None? then None
        else match Receive(bound, chunk.value) case None => None case Some(v) => Some((Some(v), rest))
  }

  function ReceiveFields(fields: seq<Field>, s: seq<byte>): Option<seq<Option<Value>>>
    decreases fields
  {
    if fields == [] then (if s == [] then Some([]) else None)
    else if |s| < 4 || Unsigned(s[..4]) != fields[0].oid then None
    else
      match TakeChunk(s[4..])
      case None => None
      case Some((chunk, rest)) =>
        match ReceiveField(fields[0], chunk)
        case None => None
        case Some(f) => match ReceiveFields(fields[1..], rest) case None => None case Some(fs) => Some([f] + fs)
  }

  function ReceiveField(field: Field, chunk: Option<seq<byte>>): Option<Option<Value>>
    decreases field, 1
  {
    if chunk.None? then (if field.optional then Some(None) else None)
    else match Receive(field.t, chunk.value) case None => None case Some(v) => Some(Some(v))
  }

  /** Object identifiers are 32 bits wide. */
  predicate OidsFit(t: Type)
    decreases t
  {
    match t
    case Array(elem, oid) => oid < TWO32 && OidsFit(elem)
    case Range(bound) => OidsFit(bound)
    case Composite(fields) => forall i :: 0 <= i < |fields| ==> fields[i].oid < TWO32 && OidsFit(fields[i].t)
    case _ => true
  }

  // ----- what was encoded is received -----

  lemma Reads32(n: int)
    ensures -TWO31 <= n < TWO31 ==> TwosComplement(I32(n)) == n
    ensures 0 <= n < TWO32 ==> Unsigned(I32(n)) == n
  {
    Widths();
    var s := I32(n);
    NetworkOrder(s);
    BigEndianRoundTrip(n % TWO32, 4);
    if -TWO31 <= n < 0 { assert n % TWO32 == n + TWO32; }
  }

  lemma ReadsNumber(n: int, w: nat)
    requires Signed(n, w)
    ensures TwosComplement(NumberBytes(n, w)) == n
  {
    NetworkOrder(NumberBytes(n, w));
    NumberRound(n, w);
  }

  lemma ChunkRound(s: seq<byte>, rest: seq<byte>)
    requires |s| < TWO31
    ensures TakeChunk(Prefixed(s) + rest) == Some((Some(s), rest))
  {
    hide TwosComplement;
    var all := Prefixed(s) + rest;
    Reads32(|s|);
    assert all[..4] == I32(|s|) && all[4..4 + |s|] == s && all[4 + |s|..] == rest;
  }

  lemma NullChunk(rest: seq<byte>)
    ensures TakeChunk(I32(-1) + rest) == Some((None, rest))
  {
    hide TwosComplement;
    Reads32(-1);
    assert (I32(-1) + rest)[..4] == I32(-1) && (I32(-1) + rest)[4..] == rest;
  }

  lemma HeaderReceived(oid: nat, n: nat, rest: seq<byte>)
    requires n < TWO31 && oid < TWO32
    ensures var s := ArrayHeader(oid, n) + rest;
            && |s| >= 20 && TwosComplement(s[..4]) == 1 && TwosComplement(s[4..8]) == 0 && Unsigned(s[8..12]) == oid
            && TwosComplement(s[12..16]) == n && TwosComplement(s[16..20]) == 1 && s[20..] == rest
  {
    hide TwosComplement, Unsigned;
    var s := ArrayHeader(oid, n) + rest;
    Reads32(1);
    Reads32(0);
    Reads32(oid);
    Reads32(n);
    assert s[..4] == I32(1) && s[4..8] == I32(0) && s[8..12] == I32(oid) && s[12..16] == I32(n) && s[16..20] == I32(1);
    assert s[20..] == rest;
  }

  lemma {:induction false} ItemsReceived(vs: seq<Value>, t: Type)
    requires AllFit(vs, t) && OidsFit(t) && |EncodeItems(vs, t)| < TWO31
    ensures ReceiveItems(t, EncodeItems(vs, t), |vs|) == Some(vs)
    decreases vs
  {
    hide TakeChunk, OidsFit;
    if vs != [] {
      ServerReceives(vs[0], t);
      ChunkRound(Encode(vs[0], t), EncodeItems(vs[1..], t));
      ItemsReceived(vs[1..], t);
      assert [vs[0]] + vs[1..] == vs;
    }
  }

  lemma BoundReceived(b: Option<Value>, t: Type, rest: seq<byte>)
    requires BoundFits(b, t) && OidsFit(t) && |BoundBytes(b, t)| < TWO31
    ensures ReceiveBound(t, BoundBytes(b, t) + rest, b.None?) == Some((b, rest))
    decreases b
  {
    hide TakeChunk, OidsFit;
    match b {
      case None => assert [] + rest == rest;
      case Some(v) =>
        ServerReceives(v, t);
        ChunkRound(Encode(v, t), rest);
    }
  }

  lemma FieldReceived(f: Option<Value>, field: Field, rest: seq<byte>)
    requires FieldFits(f, field) && field.oid < TWO32 && OidsFit(field.t) && |FieldBytes(f, field)| < TWO31
    ensures var s := FieldBytes(f, field) + rest;
            && |s| >= 4 && Unsigned(s[..4]) == field.oid
            && TakeChunk(s[4..]).Some? && TakeChunk(s[4..]).value.1 == rest
            && ReceiveField(field, TakeChunk(s[4..]).value.0) == Some(f)
    decreases f
  {
    hide TakeChunk, OidsFit, Unsigned;
    var tail := match f case None => I32(-1) case Some(v) => Prefixed(Encode(v, field.t));
    var s := FieldBytes(f, field) + rest;
    Reads32(field.oid);
    assert s[..4] == I32(field.oid) && s[4..] == tail + rest;
    match f {
      case None => NullChunk(rest);
      case Some(v) =>
        ServerReceives(v, field.t);
        ChunkRound(Encode(v, field.t), rest);
    }
  }

  lemma {:induction false} FieldsReceived(fs: seq<Option<Value>>, fields: seq<Field>)
    requires FieldsFit(fs, fields) && |EncodeFields(fs, fields)| < TWO31
    requires forall i :: 0 <= i < |fields| ==> fields[i].oid < TWO32 && OidsFit(fields[i].t)
    ensures ReceiveFields(fields, EncodeFields(fs, fields)) == Some(fs)
    decreases fs
  {
    hide TakeChunk, OidsFit, Unsigned, ReceiveField, FieldBytes, FieldFits;
    if fs != [] {
      FieldReceived(fs[0], fields[0], EncodeFields(fs[1..], fields[1..]));
      FieldsReceived(fs[1..], fields[1..]);
      assert [fs[0]] + fs[1..] == fs;
    }
  }

  lemma FlagsReceived(lower: bool, upper: bool, li: bool, ui: bool)
    ensures var f := Flags(lower, upper, li, ui);
            && f < 32 && f % 2 == 0 && (f / 2 % 2 == 1) == li && (f / 4 % 2 == 1) == ui
            && (f / 8 % 2 == 1) == !lower && (f / 16 % 2 == 1) == !upper
  {
  }

  lemma SpanReceived(v: Value, t: Type)
    requires Fits(v, t) && OidsFit(t) && v.Span? && |Encode(v, t)| < TWO31
    ensures Receive(t, Encode(v, t)) == Some(v)
    decreases v, 0
  {
    hide ReceiveBound, Flags;
    var lower, upper := BoundBytes(v.lower, t.bound), BoundBytes(v.upper, t.bound);
    var s := Encode(v, t);
    assert s[0] == Flags(v.lower.Some?, v.upper.Some?, v.lowerInclusive, v.upperInclusive);
    assert s[1..] == lower + upper && upper + [] == upper;
    FlagsReceived(v.lower.Some?, v.upper.Some?, v.lowerInclusive, v.upperInclusive);
    BoundReceived(v.lower, t.bound, upper);
    BoundReceived(v.upper, t.bound, []);
  }

  /** Main result: at any depth of nesting the server receives exactly the value that was encoded, as a value of exactly
      the type it was declared with; element and field types, null flag, dimensions and lower bound included. */
  lemma {:induction false} ServerReceives(v: Value, t: Type)
    requires Fits(v, t) && OidsFit(t) && |Encode(v, t)| < TWO31
    ensures Receive(t, Encode(v, t)) == Some(v)
    decreases v, 1
  {
    hide TwosComplement, Unsigned, ReceiveItems, ReceiveFields;
    match v {
      case Flag(_) =>
      case Number(n) => ReadsNumber(n, t.width);
      case Data(_) =>
      case Items(vs) =>
        ItemsSize(vs, t.elem);
        HeaderReceived(t.oid, |vs|, EncodeItems(vs, t.elem));
        ItemsReceived(vs, t.elem);
      case Empty =>
      case Span(_, _, _, _) => SpanReceived(v, t);
      case Record(fs) =>
        SameCount(fs, t.fields);
        Reads32(|fs|);
        FieldsSize(fs, t.fields);
        assert Encode(v, t)[..4] == I32(|fs|) && Encode(v, t)[4..] == EncodeFields(fs, t.fields);
        FieldsReceived(fs, t.fields);
    }
  }

  lemma {:induction false} FieldsSize(fs: seq<Option<Value>>, fields: seq<Field>)
    requires FieldsFit(fs, fields)
    ensures |EncodeFields(fs, fields)| >= 8 * |fs|
    decreases |fs|
  {
    if fs != [] { FieldsSize(fs[1..], fields[1..]); }
  }
}
