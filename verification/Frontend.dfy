/** Frontend messages: the encoder with its precomputed lengths, and the decoder that PostgreSQL 16 documentation,
    section 55.7 prescribes for the receiving side. */
module Frontend {
  import opened Wrappers
  import opened Bytes
  import Seqs

  type oid = n: int | 0 <= n < TWO32

  datatype Format = Text | Binary

  datatype Message =
    | Parse(name: seq<byte>, sql: seq<byte>, oids: seq<oid>)
    | Bind(portal: seq<byte>, statement: seq<byte>, formats: seq<Format>, params: seq<Option<seq<byte>>>,
        results: seq<Format>)
    | Execute(portal: seq<byte>, maxRows: int)
    | Sync
    | Query(sql: seq<byte>)
    | Describe(kind: byte, name: seq<byte>)
    | Close(kind: byte, name: seq<byte>)
    | Flush
    | SaslInitial(mechanism: seq<byte>, data: seq<byte>)
    | SaslResponse(data: seq<byte>)
    | CopyData(data: seq<byte>)
    | CopyDone
    | CopyFail(text: seq<byte>)
    | Terminate

  function Tag(m: Message): byte {
    match m
    case Parse(_, _, _) => 'P' as int
    case Bind(_, _, _, _, _) => 'B' as int
    case Execute(_, _) => 'E' as int
    case Sync => 'S' as int
    case Query(_) => 'Q' as int
    case Describe(_, _) => 'D' as int
    case Close(_, _) => 'C' as int
    case Flush => 'H' as int
    case SaslInitial(_, _) => 'p' as int
    case SaslResponse(_) => 'p' as int
    case CopyData(_) => 'd' as int
    case CopyDone => 'c' as int
    case CopyFail(_) => 'f' as int
    case Terminate => 'X' as int
  }

  // ----- the bytes -----

  function CString(s: seq<byte>): seq<byte> { s + [0] }

  function OidBytes(oids: seq<oid>): (s: seq<byte>)
    ensures |s| == 4 * |oids|
  {
    if oids == [] then [] else I32(oids[0]) + OidBytes(oids[1..])
  }

  function FormatCode(f: Format): nat { if f == Text then 0 else 1 }

  function FormatBytes(fs: seq<Format>): (s: seq<byte>)
    ensures |s| == 2 * |fs|
  {
    if fs == [] then [] else I16(FormatCode(fs[0])) + FormatBytes(fs[1..])
  }

  function ParamBytes(p: Option<seq<byte>>): seq<byte> {
    match p case None => I32(-1) case Some(data) => I32(|data|) + data
  }

  function ParamsBytes(ps: seq<Option<seq<byte>>>): seq<byte> {
    if ps == [] then [] else ParamBytes(ps[0]) + ParamsBytes(ps[1..])
  }

  /** Lists are preceded by their count. */
  function OidList(oids: seq<oid>): seq<byte> { I16(|oids|) + OidBytes(oids) }

  function FormatList(fs: seq<Format>): seq<byte> { I16(|fs|) + FormatBytes(fs) }

  function ParamList(ps: seq<Option<seq<byte>>>): seq<byte> { I16(|ps|) + ParamsBytes(ps) }

  function Body(m: Message): seq<byte> {
    match m
    case Parse(name, sql, oids) => CString(name) + (CString(sql) + OidList(oids))
    case Bind(portal, statement, formats, params, results) =>
      CString(portal) + (CString(statement) + (FormatList(formats) + (ParamList(params) + FormatList(results))))
    case Execute(portal, maxRows) => CString(portal) + I32(maxRows)
    case Query(sql) => CString(sql)
    case Describe(kind, name) => [kind] + CString(name)
    case Close(kind, name) => [kind] + CString(name)
    case SaslInitial(mechanism, data) => CString(mechanism) + (I32(|data|) + data)
    case SaslResponse(data) => data
    case CopyData(data) => data
    case CopyFail(text) => CString(text)
    case _ => []
  }

  function Encoding(m: Message): seq<byte> { [Tag(m)] + (I32(4 + |Body(m)|) + Body(m)) }

  function Encodings(ms: seq<Message>): seq<byte> {
    if ms == [] then [] else Encoding(ms[0]) + Encodings(ms[1..])
  }

  // ----- the encoder -----

  function ParamsSize(ps: seq<Option<seq<byte>>>): (n: nat)
    ensures n == |ParamsBytes(ps)|
  {
    if ps == [] then 0 else (match ps[0] case None => 4 case Some(data) => 4 + |data|) + ParamsSize(ps[1..])
  }

  lemma ParamsSizeNext(ps: seq<Option<seq<byte>>>, i: nat)
    requires i <= |ps|
    ensures ParamsSize(ps[i..])
              == if i == |ps| then 0
                 else (match ps[i] case None => 4 case Some(data) => 4 + |data|) + ParamsSize(ps[i + 1..])
  {
    if i < |ps| { assert ps[i..][1..] == ps[i + 1..]; }
  }

  method SumParams(ps: seq<Option<seq<byte>>>) returns (n: nat)
    ensures n == ParamsSize(ps)
  {
    hide ParamsSize, ParamsBytes;
    n := 0;
    var i := 0;
    assert ps[0..] == ps;
    while i < |ps|
      invariant i <= |ps| && n + ParamsSize(ps[i..]) == ParamsSize(ps)
    {
      ParamsSizeNext(ps, i);
      n := n + match ps[i] case None => 4 case Some(data) => 4 + |data|;
      i := i + 1;
    }
    ParamsSizeNext(ps, i);
  }

  method PutCString(buf: Buffer, s: seq<byte>)
    modifies buf
    ensures buf.data == old(buf.data) + CString(s)
  {
    buf.PutSlice(s);
    buf.PutByte(0);
  }

  method PutHeader(buf: Buffer, tag: byte, len: nat)
    modifies buf
    ensures buf.data == old(buf.data) + ([tag] + I32(len))
  {
    buf.PutByte(tag);
    buf.PutI32(len);
  }

  method PutOids(buf: Buffer, oids: seq<oid>)
    modifies buf
    ensures buf.data == old(buf.data) + OidList(oids)
  {
    buf.PutI16(|oids|);
    ghost var start := buf.data;
    var i := 0;
    while i < |oids|
      invariant i <= |oids| && buf.data + OidBytes(oids[i..]) == start + OidBytes(oids)
    {
      assert oids[i..][1..] == oids[i + 1..];
      Seqs.Assoc(buf.data, I32(oids[i]), OidBytes(oids[i + 1..]));
      buf.PutI32(oids[i]);
      i := i + 1;
    }
    assert buf.data + OidBytes(oids[i..]) == buf.data;
    Seqs.Assoc(old(buf.data), I16(|oids|), OidBytes(oids));
  }

  method PutFormats(buf: Buffer, fs: seq<Format>)
    modifies buf
    ensures buf.data == old(buf.data) + FormatList(fs)
  {
    buf.PutI16(|fs|);
    ghost var start := buf.data;
    var i := 0;
    while i < |fs|
      invariant i <= |fs| && buf.data + FormatBytes(fs[i..]) == start + FormatBytes(fs)
    {
      assert fs[i..][1..] == fs[i + 1..];
      Seqs.Assoc(buf.data, I16(FormatCode(fs[i])), FormatBytes(fs[i + 1..]));
      buf.PutI16(FormatCode(fs[i]));
      i := i + 1;
    }
    assert buf.data + FormatBytes(fs[i..]) == buf.data;
    Seqs.Assoc(old(buf.data), I16(|fs|), FormatBytes(fs));
  }

  method PutParam(buf: Buffer, p: Option<seq<byte>>)
    modifies buf
    ensures buf.data == old(buf.data) + ParamBytes(p)
  {
    match p {
      case None => buf.PutI32(-1);
      case Some(data) =>
        buf.PutI32(|data|);
        buf.PutSlice(data);
    }
  }

  lemma ParamsNext(ps: seq<Option<seq<byte>>>, i: nat)
    requires i < |ps|
    ensures ParamsBytes(ps[i..]) == ParamBytes(ps[i]) + ParamsBytes(ps[i + 1..])
  {
    assert ps[i..][1..] == ps[i + 1..];
  }

  method PutParams(buf: Buffer, ps: seq<Option<seq<byte>>>)
    modifies buf
    ensures buf.data == old(buf.data) + ParamList(ps)
  {
    buf.PutI16(|ps|);
    ghost var start := buf.data;
    assert ps[0..] == ps;
    var i := 0;
    while i < |ps|
      invariant i <= |ps| && buf.data + ParamsBytes(ps[i..]) == start + ParamsBytes(ps)
    {
      ParamsNext(ps, i);
      Seqs.Assoc(buf.data, ParamBytes(ps[i]), ParamsBytes(ps[i + 1..]));
      PutParam(buf, ps[i]);
      i := i + 1;
    }
    assert buf.data + ParamsBytes(ps[i..]) == buf.data;
    Seqs.Assoc(old(buf.data), I16(|ps|), ParamsBytes(ps));
  }

  lemma {:induction false} Chain(a: seq<byte>, h: seq<byte>, x: seq<byte>, y: seq<byte>, z: seq<byte>)
    ensures a + h + x + y + z == a + (h + (x + (y + z)))
  {
    Seqs.Assoc(a + h + x, y, z);
    Seqs.Assoc(a + h, x, y + z);
    Seqs.Assoc(a, h, x + (y + z));
  }

  lemma LongChain(a: seq<byte>, h: seq<byte>, x: seq<byte>, y: seq<byte>, f: seq<byte>, p: seq<byte>,
      r: seq<byte>)
    ensures a + h + x + y + f + p + r == a + (h + (x + (y + (f + (p + r)))))
  {
    Seqs.Assoc(a + h + x + y + f, p, r);
    Seqs.Assoc(a + h + x + y, f, p + r);
    Chain(a, h, x, y, f + (p + r));
  }

  lemma HeaderThenBody(m: Message, len: nat)
    requires len == 4 + |Body(m)|
    ensures Encoding(m) == ([Tag(m)] + I32(len)) + Body(m)
  {
    Seqs.Assoc([Tag(m)], I32(len), Body(m));
  }

  method EncodeParse(buf: Buffer, m: Message)
    requires m.Parse?
    modifies buf
    ensures buf.data == old(buf.data) + Encoding(m)
  {
    var len := 4 + |m.name| + 1 + |m.sql| + 1 + 2 + |m.oids| * 4;
    PutHeader(buf, Tag(m), len);
    PutCString(buf, m.name);
    PutCString(buf, m.sql);
    PutOids(buf, m.oids);
    Chain(old(buf.data), [Tag(m)] + I32(len), CString(m.name), CString(m.sql), OidList(m.oids));
    HeaderThenBody(m, len);
  }

  method EncodeBind(buf: Buffer, m: Message)
    requires m.Bind?
    modifies buf
    ensures buf.data == old(buf.data) + Encoding(m)
  {
    var size := SumParams(m.params);
    var len := 4 + |m.portal| + 1 + |m.statement| + 1 + 2 + |m.formats| * 2 + 2 + size + 2 + |m.results| * 2;
    PutHeader(buf, Tag(m), len);
    PutCString(buf, m.portal);
    PutCString(buf, m.statement);
    PutFormats(buf, m.formats);
    PutParams(buf, m.params);
    PutFormats(buf, m.results);
    LongChain(old(buf.data), [Tag(m)] + I32(len), CString(m.portal), CString(m.statement), FormatList(m.formats),
              ParamList(m.params), FormatList(m.results));
    HeaderThenBody(m, len);
  }

  method EncodeTwo(buf: Buffer, m: Message, len: nat, a: seq<byte>, b: seq<byte>)
    requires Body(m) == a + b && len == 4 + |a| + |b|
    modifies buf
    ensures buf.data == old(buf.data) + Encoding(m)
  {
    PutHeader(buf, Tag(m), len);
    buf.PutSlice(a);
    buf.PutSlice(b);
    Seqs.Assoc(old(buf.data) + ([Tag(m)] + I32(len)), a, b);
    Seqs.Assoc(old(buf.data), [Tag(m)] + I32(len), a + b);
    HeaderThenBody(m, len);
  }

  method EncodeSasl(buf: Buffer, m: Message)
    requires m.SaslInitial?
    modifies buf
    ensures buf.data == old(buf.data) + Encoding(m)
  {
    var len := 4 + |m.mechanism| + 1 + 4 + |m.data|;
    PutHeader(buf, Tag(m), len);
    PutCString(buf, m.mechanism);
    buf.PutI32(|m.data|);
    buf.PutSlice(m.data);
    Chain(old(buf.data), [Tag(m)] + I32(len), CString(m.mechanism), I32(|m.data|), m.data);
    HeaderThenBody(m, len);
  }

  /** `encode_message`; every length is computed from the sizes of the parts before anything is written. */
  method EncodeMessage(buf: Buffer, m: Message)
    modifies buf
    ensures buf.data == old(buf.data) + Encoding(m)
  {
    match m {
      case Parse(_, _, _) => EncodeParse(buf, m);
      case Bind(_, _, _, _, _) => EncodeBind(buf, m);
      case Execute(portal, maxRows) => EncodeTwo(buf, m, 4 + |portal| + 1 + 4, CString(portal), I32(maxRows));
      case Sync => EncodeTwo(buf, m, 4, [], []);
      case Query(sql) => EncodeTwo(buf, m, 4 + |sql| + 1, sql, [0]);
      case Describe(kind, name) => EncodeTwo(buf, m, 4 + 1 + |name| + 1, [kind], CString(name));
      case Close(kind, name) => EncodeTwo(buf, m, 4 + 1 + |name| + 1, [kind], CString(name));
      case Flush => EncodeTwo(buf, m, 4, [], []);
      case SaslInitial(_, _) => EncodeSasl(buf, m);
      case SaslResponse(data) => EncodeTwo(buf, m, 4 + |data|, data, []);
      case CopyData(data) => EncodeTwo(buf, m, 4 + |data|, data, []);
      case CopyDone => EncodeTwo(buf, m, 4, [], []);
      case CopyFail(text) => EncodeTwo(buf, m, 4 + |text| + 1, text, [0]);
      case Terminate => EncodeTwo(buf, m, 4, [], []);
    }
  }

  /** `encode_messages`: one buffer for a whole batch. */
  method EncodeMessages(buf: Buffer, ms: seq<Message>)
    modifies buf
    ensures buf.data == old(buf.data) + Encodings(ms)
  {
    ghost var start := buf.data;
    var i := 0;
    while i < |ms|
      invariant i <= |ms| && buf.data + Encodings(ms[i..]) == start + Encodings(ms)
    {
      assert ms[i..][1..] == ms[i + 1..];
      Seqs.Assoc(buf.data, Encoding(ms[i]), Encodings(ms[i + 1..]));
      EncodeMessage(buf, ms[i]);
      i := i + 1;
    }
    assert buf.data + Encodings(ms[i..]) == buf.data;
  }

  // ----- the receiving side -----

  function TakeCString(s: seq<byte>): Option<(seq<byte>, seq<byte>)> {
    if s == [] then None
    else if s[0] == 0 then Some(([], s[1..]))
    else match TakeCString(s[1..]) case None => None case Some((t, rest)) => Some(([s[0]] + t, rest))
  }

  function TakeI16(s: seq<byte>): Option<(int, seq<byte>)> {
    if |s| < 2 then None else Some((ToI16(s[..2]), s[2..]))
  }

  function TakeI32(s: seq<byte>): Option<(int, seq<byte>)> {
    if |s| < 4 then None else Some((ToI32(s[..4]), s[4..]))
  }

  function TakeOids(n: nat, s: seq<byte>): Option<(seq<oid>, seq<byte>)> {
    if n == 0 then Some(([], s))
    else match TakeI32(s)
         case None => None
         case Some((v, rest)) =>
           match TakeOids(n - 1, rest) case None => None case Some((vs, end)) => Some(([v % TWO32] + vs, end))
  }

  function TakeFormats(n: nat, s: seq<byte>): Option<(seq<Format>, seq<byte>)> {
    if n == 0 then Some(([], s))
    else match TakeI16(s)
         case None => None
         case Some((v, rest)) =>
           if v != 0 && v != 1 then None
           else match TakeFormats(n - 1, rest) case None => None
               case Some((vs, end)) => Some(([if v == 0 then Text else Binary] + vs, end))
  }

  function TakeParam(s: seq<byte>): Option<(Option<seq<byte>>, seq<byte>)> {
    match TakeI32(s)
    case None => None
    case Some((n, rest)) => if n == -1 then Some((None, rest)) else if n < 0 || |rest| < n then None
        else Some((Some(rest[..n]), rest[n..]))
  }

  function TakeParams(n: nat, s: seq<byte>): Option<(seq<Option<seq<byte>>>, seq<byte>)>
    decreases n
  {
    if n == 0 then Some(([], s))
    else match TakeParam(s)
         case None => None
         case Some((p, rest)) => match TakeParams(n - 1, rest) case None => None
             case Some((ps, end)) => Some(([p] + ps, end))
  }

  /** A counted list: the count, which must not be negative, and that many elements. */
  function TakeOidList(s: seq<byte>): Option<(seq<oid>, seq<byte>)> {
    match TakeI16(s) case None => None case Some((n, rest)) => if n < 0 then None else TakeOids(n, rest)
  }

  function TakeFormatList(s: seq<byte>): Option<(seq<Format>, seq<byte>)> {
    match TakeI16(s) case None => None case Some((n, rest)) => if n < 0 then None else TakeFormats(n, rest)
  }

  function TakeParamList(s: seq<byte>): Option<(seq<Option<seq<byte>>>, seq<byte>)> {
    match TakeI16(s) case None => None case Some((n, rest)) => if n < 0 then None else TakeParams(n, rest)
  }

  function ParseOf(s: seq<byte>): Option<Message> {
    match TakeCString(s)
    case None => None
    case Some((name, s1)) =>
      match TakeCString(s1)
      case None => None
      case Some((sql, s2)) => match TakeOidList(s2) case None => None case Some((oids, end)) => if end == []
          then Some(Parse(name, sql, oids)) else None
  }

  function BindOf(s: seq<byte>): Option<Message> {
    match TakeCString(s)
    case None => None
    case Some((portal, s1)) =>
      match TakeCString(s1)
      case None => None
      case Some((statement, s2)) => BindTail(portal, statement, s2)
  }

  function BindTail(portal: seq<byte>, statement: seq<byte>, s: seq<byte>): Option<Message> {
    match TakeFormatList(s)
    case None => None
    case Some((formats, s1)) =>
      match TakeParamList(s1)
      case None => None
      case Some((params, s2)) =>
        match TakeFormatList(s2)
        case None => None
        case Some((results, end)) => if end == [] then Some(Bind(portal, statement, formats, params, results)) else None
  }

  function ExecuteOf(s: seq<byte>): Option<Message> {
    match TakeCString(s)
    case None => None
    case Some((portal, s1)) => match TakeI32(s1) case None => None case Some((n, end)) => if end == []
        then Some(Execute(portal, n)) else None
  }

  function OnlyCString(s: seq<byte>): Option<seq<byte>> {
    match TakeCString(s) case None => None case Some((t, end)) => if end == [] then Some(t) else None
  }

  function SaslOf(s: seq<byte>): Option<Message> {
    match TakeCString(s)
    case None => None
    case Some((mechanism, s1)) =>
      match TakeI32(s1) case Some((n, data)) => (if n == |data| then Some(SaslInitial(mechanism, data)) else None)
          case None => None
  }

  /** The body of a message with the given tag.  The tag `p` is shared; the server knows whether it is waiting for
      the first message of an authentication exchange. */
  function DecodeBody(tag: byte, s: seq<byte>, initial: bool): Option<Message> {
    if tag == 'P' as int then ParseOf(s)
    else if tag == 'B' as int then BindOf(s)
    else if tag == 'E' as int then ExecuteOf(s)
    else if tag == 'S' as int then (if s == [] then Some(Sync) else None)
    else if tag == 'Q' as int then (match OnlyCString(s) case Some(t) => Some(Query(t)) case None => None)
    else if tag == 'D' as int then (if s == [] then None else match OnlyCString(s[1..])
        case Some(t) => Some(Describe(s[0], t)) case None => None)
    else if tag == 'C' as int then (if s == [] then None else match OnlyCString(s[1..])
        case Some(t) => Some(Close(s[0], t)) case None => None)
    else if tag == 'H' as int then (if s == [] then Some(Flush) else None)
    else if tag == 'p' as int then (if initial then SaslOf(s) else Some(SaslResponse(s)))
    else if tag == 'd' as int then Some(CopyData(s))
    else if tag == 'c' as int then (if s == [] then Some(CopyDone) else None)
    else if tag == 'f' as int then (match OnlyCString(s) case Some(t) => Some(CopyFail(t)) case None => None)
    else if tag == 'X' as int then (if s == [] then Some(Terminate) else None)
    else None
  }

  /** One message off the front of the stream. */
  function Decode(s: seq<byte>, initial: bool): Option<(Message, seq<byte>)> {
    if |s| < 5 then None else
      var len := ToI32(s[1..5]);
      if len < 4 || |s| < 1 + len then None
      else match DecodeBody(s[0], s[5..1 + len], initial)
           case None => None
           case Some(m) => Some((m, s[1 + len..]))
  }

  function StillInitial(m: Message, initial: bool): bool { initial && !m.SaslInitial? }

  function DecodeAll(s: seq<byte>, initial: bool): Option<seq<Message>>
    decreases |s|
  {
    if s == [] then Some([]) else
      match Decode(s, initial)
      case None => None
      case Some((m, rest)) =>
        match DecodeAll(rest, StillInitial(m, initial)) case None => None case Some(ms) => Some([m] + ms)
  }

  // ----- round trip -----

  predicate NoNul(s: seq<byte>) { 0 !in s }

  predicate Sized(n: nat) { n < TWO15 }

  predicate WellFormed(m: Message) {
    && 4 + |Body(m)| < TWO31
    && match m
       case Parse(name, sql, oids) => NoNul(name) && NoNul(sql) && Sized(|oids|)
       case Bind(portal, statement, formats, params, results) =>
         NoNul(portal) && NoNul(statement) && Sized(|formats|) && Sized(|params|) && Sized(|results|)
       case Execute(portal, maxRows) => NoNul(portal) && -TWO31 <= maxRows < TWO31
       case Query(sql) => NoNul(sql)
       case Describe(_, name) => NoNul(name)
       case Close(_, name) => NoNul(name)
       case SaslInitial(mechanism, _) => NoNul(mechanism)
       case CopyFail(text) => NoNul(text)
       case _ => true
  }

  /** The first authentication message is the initial response, and there is only one. */
  predicate SaslOrder(m: Message, initial: bool) {
    (m.SaslInitial? ==> initial) && (m.SaslResponse? ==> !initial)
  }

  ghost predicate AllSasl(ms: seq<Message>, initial: bool) {
    ms == [] || (SaslOrder(ms[0], initial) && AllSasl(ms[1..], StillInitial(ms[0], initial)))
  }

  lemma {:induction false} CStringRound(s: seq<byte>, rest: seq<byte>)
    requires NoNul(s)
    ensures TakeCString(CString(s) + rest) == Some((s, rest))
  {
    var all := CString(s) + rest;
    if s == [] {
      assert all[1..] == rest;
    } else {
      assert all[1..] == CString(s[1..]) + rest;
      CStringRound(s[1..], rest);
      assert [s[0]] + s[1..] == s;
    }
  }

  lemma I16Round(n: int, rest: seq<byte>)
    requires -TWO15 <= n < TWO15
    ensures TakeI16(I16(n) + rest) == Some((n, rest))
  {
    I16RoundTrip(n);
    assert (I16(n) + rest)[..2] == I16(n) && (I16(n) + rest)[2..] == rest;
  }

  lemma I32Round(n: int, rest: seq<byte>)
    requires -TWO31 <= n < TWO31
    ensures TakeI32(I32(n) + rest) == Some((n, rest))
  {
    I32RoundTrip(n);
    assert (I32(n) + rest)[..4] == I32(n) && (I32(n) + rest)[4..] == rest;
  }

  lemma OidRound(n: oid, rest: seq<byte>)
    ensures TakeI32(I32(n) + rest) == Some((ToI32(I32(n)), rest)) && ToI32(I32(n)) % TWO32 == n
  {
    U32RoundTrip(n);
    assert (I32(n) + rest)[..4] == I32(n) && (I32(n) + rest)[4..] == rest;
  }

  lemma {:induction false} OidsRound(oids: seq<oid>, rest: seq<byte>)
    ensures TakeOids(|oids|, OidBytes(oids) + rest) == Some((oids, rest))
    decreases |oids|
  {
    if oids == [] {
      assert OidBytes(oids) + rest == rest;
    } else {
      Seqs.Assoc(I32(oids[0]), OidBytes(oids[1..]), rest);
      OidRound(oids[0], OidBytes(oids[1..]) + rest);
      OidsRound(oids[1..], rest);
      assert [oids[0]] + oids[1..] == oids;
    }
  }

  lemma {:induction false} FormatsRound(fs: seq<Format>, rest: seq<byte>)
    ensures TakeFormats(|fs|, FormatBytes(fs) + rest) == Some((fs, rest))
    decreases |fs|
  {
    if fs == [] {
      assert FormatBytes(fs) + rest == rest;
    } else {
      Seqs.Assoc(I16(FormatCode(fs[0])), FormatBytes(fs[1..]), rest);
      I16Round(FormatCode(fs[0]), FormatBytes(fs[1..]) + rest);
      FormatsRound(fs[1..], rest);
      assert [fs[0]] + fs[1..] == fs;
    }
  }

  lemma ParamRound(p: Option<seq<byte>>, rest: seq<byte>)
    requires p.Some? ==> |p.value| < TWO31
    ensures TakeParam(ParamBytes(p) + rest) == Some((p, rest))
  {
    match p {
      case None => I32Round(-1, rest);
      case Some(data) =>
        Seqs.Assoc(I32(|data|), data, rest);
        I32Round(|data|, data + rest);
        assert (data + rest)[..|data|] == data && (data + rest)[|data|..] == rest;
    }
  }

  lemma {:induction false} ParamsRound(ps: seq<Option<seq<byte>>>, rest: seq<byte>)
    requires |ParamsBytes(ps)| < TWO31
    ensures TakeParams(|ps|, ParamsBytes(ps) + rest) == Some((ps, rest))
    decreases |ps|
  {
    if ps == [] {
      assert ParamsBytes(ps) + rest == rest;
    } else {
      Seqs.Assoc(ParamBytes(ps[0]), ParamsBytes(ps[1..]), rest);
      ParamRound(ps[0], ParamsBytes(ps[1..]) + rest);
      ParamsRound(ps[1..], rest);
      assert [ps[0]] + ps[1..] == ps;
    }
  }

  lemma OidListRound(oids: seq<oid>, rest: seq<byte>)
    requires Sized(|oids|)
    ensures TakeOidList(OidList(oids) + rest) == Some((oids, rest))
  {
    Seqs.Assoc(I16(|oids|), OidBytes(oids), rest);
    I16Round(|oids|, OidBytes(oids) + rest);
    OidsRound(oids, rest);
  }

  lemma FormatListRound(fs: seq<Format>, rest: seq<byte>)
    requires Sized(|fs|)
    ensures TakeFormatList(FormatList(fs) + rest) == Some((fs, rest))
  {
    Seqs.Assoc(I16(|fs|), FormatBytes(fs), rest);
    I16Round(|fs|, FormatBytes(fs) + rest);
    FormatsRound(fs, rest);
  }

  lemma ParamListRound(ps: seq<Option<seq<byte>>>, rest: seq<byte>)
    requires Sized(|ps|) && |ParamsBytes(ps)| < TWO31
    ensures TakeParamList(ParamList(ps) + rest) == Some((ps, rest))
  {
    Seqs.Assoc(I16(|ps|), ParamsBytes(ps), rest);
    I16Round(|ps|, ParamsBytes(ps) + rest);
    ParamsRound(ps, rest);
  }

  lemma ParseRound(m: Message)
    requires m.Parse? && WellFormed(m)
    ensures ParseOf(Body(m)) == Some(m)
  {
    CStringRound(m.name, CString(m.sql) + OidList(m.oids));
    CStringRound(m.sql, OidList(m.oids));
    assert OidList(m.oids) + [] == OidList(m.oids);
    OidListRound(m.oids, []);
  }

  lemma BindTailRound(m: Message)
    requires m.Bind? && WellFormed(m)
    ensures BindTail(m.portal, m.statement, FormatList(m.formats) + (ParamList(m.params) + FormatList(m.results)))
        == Some(m)
  {
    FormatListRound(m.formats, ParamList(m.params) + FormatList(m.results));
    ParamListRound(m.params, FormatList(m.results));
    assert FormatList(m.results) + [] == FormatList(m.results);
    FormatListRound(m.results, []);
  }

  lemma BindRound(m: Message)
    requires m.Bind? && WellFormed(m)
    ensures BindOf(Body(m)) == Some(m)
  {
    var tail := FormatList(m.formats) + (ParamList(m.params) + FormatList(m.results));
    CStringRound(m.portal, CString(m.statement) + tail);
    CStringRound(m.statement, tail);
    BindTailRound(m);
  }

  lemma OnlyCStringRound(s: seq<byte>)
    requires NoNul(s)
    ensures OnlyCString(CString(s)) == Some(s)
  {
    CStringRound(s, []);
    assert CString(s) + [] == CString(s);
  }

  lemma ExecuteRound(m: Message)
    requires m.Execute? && WellFormed(m)
    ensures ExecuteOf(Body(m)) == Some(m)
  {
    CStringRound(m.portal, I32(m.maxRows));
    I32Round(m.maxRows, []);
    assert I32(m.maxRows) + [] == I32(m.maxRows);
  }

  lemma SaslRound(m: Message)
    requires m.SaslInitial? && WellFormed(m)
    ensures SaslOf(Body(m)) == Some(m)
  {
    CStringRound(m.mechanism, I32(|m.data|) + m.data);
    I32Round(|m.data|, m.data);
  }

  lemma BodyRound(m: Message, initial: bool)
    requires WellFormed(m) && SaslOrder(m, initial)
    ensures DecodeBody(Tag(m), Body(m), initial) == Some(m)
  {
    match m {
      case Parse(_, _, _) => ParseRound(m);
      case Bind(_, _, _, _, _) => BindRound(m);
      case Execute(_, _) => ExecuteRound(m);
      case Query(sql) => OnlyCStringRound(sql);
      case Describe(kind, name) => OnlyCStringRound(name); assert ([kind] + CString(name))[1..] == CString(name);
      case Close(kind, name) => OnlyCStringRound(name); assert ([kind] + CString(name))[1..] == CString(name);
      case SaslInitial(_, _) => SaslRound(m);
      case CopyFail(text) => OnlyCStringRound(text);
      case _ =>
    }
  }

  /** One message, followed by anything: the precomputed length is exact, so exactly its bytes are consumed. */
  lemma MessageRound(m: Message, rest: seq<byte>, initial: bool)
    requires WellFormed(m) && SaslOrder(m, initial)
    ensures Decode(Encoding(m) + rest, initial) == Some((m, rest))
  {
    var body, s := Body(m), Encoding(m) + rest;
    var len := 4 + |body|;
    I32RoundTrip(len);
    assert s[1..5] == I32(len);
    assert s[5..1 + len] == body;
    assert s[1 + len..] == rest;
    BodyRound(m, initial);
  }

  lemma FirstThenRest(s: seq<byte>, initial: bool, m: Message, rest: seq<byte>, ms: seq<Message>)
    requires s != [] && Decode(s, initial) == Some((m, rest)) && DecodeAll(rest, StillInitial(m, initial)) == Some(ms)
    ensures DecodeAll(s, initial) == Some([m] + ms)
  {
  }

  /** Main result: every list of messages, coalesced into one buffer, is split back into exactly that list. */
  lemma {:induction false} BatchRoundTrip(ms: seq<Message>, initial: bool)
    requires (forall m :: m in ms ==> WellFormed(m)) && AllSasl(ms, initial)
    ensures DecodeAll(Encodings(ms), initial) == Some(ms)
    decreases |ms|
  {
    if ms != [] {
      MessageRound(ms[0], Encodings(ms[1..]), initial);
      BatchRoundTrip(ms[1..], StillInitial(ms[0], initial));
      FirstThenRest(Encodings(ms), initial, ms[0], Encodings(ms[1..]), ms[1..]);
      assert [ms[0]] + ms[1..] == ms;
    }
  }
}
