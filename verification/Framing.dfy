/** Backend message framing: `parse_message` on a growing buffer and `read_msg` over a chunked stream.
    A message body stays raw bytes here; what the collectors read from it is its tag. */
module Framing {
  import opened Bytes
  import opened Wrappers
  import Bodies
  import DataRow
  import Seqs

  datatype Frame = Frame(tag: byte, body: seq<byte>)

  const MAX_MESSAGE_SIZE := 256 * 1024 * 1024

  const READY_FOR_QUERY: byte := 'Z' as int
  const ERROR_RESPONSE: byte := 'E' as int
  const NOTICE: byte := 'N' as int
  const NOTIFICATION: byte := 'A' as int
  const PARAMETER_STATUS: byte := 'S' as int
  const ROW_DESCRIPTION: byte := 'T' as int
  const DATA_ROW: byte := 'D' as int
  const COMMAND_COMPLETE: byte := 'C' as int
  const COPY_IN_RESPONSE: byte := 'G' as int
  const COPY_DATA: byte := 'd' as int

  /** The tags `parse_message` has a branch for. */
  predicate KnownTag(t: byte) {
    t as char in "RSKZ123nCDTENIAtsGHdc"
  }

  predicate Unknown(f: Frame) { !KnownTag(f.tag) }

  predicate Sized(f: Frame) { |f.body| + 4 <= MAX_MESSAGE_SIZE }

  /** A frame the client can take: known tag, size within the limit, a body that its parser accepts. */
  predicate WellFormed(f: Frame) {
    KnownTag(f.tag) && Sized(f) && Bodies.Accepts(f.tag, f.body)
  }

  function FrameBytes(f: Frame): seq<byte> {
    [f.tag] + I32(4 + |f.body|) + f.body
  }

  function FlatFrames(fs: seq<Frame>): seq<byte> {
    if fs == [] then [] else FrameBytes(fs[0]) + FlatFrames(fs[1..])
  }

  function Flat(chunks: seq<seq<byte>>): seq<byte> {
    if chunks == [] then [] else chunks[0] + Flat(chunks[1..])
  }

  // ----- parse_message -----

  datatype Parse =
    | Incomplete                               // Ok(None), buffer untouched
    | Skipped(rest: seq<byte>)                 // Ok(None), but an unknown message was consumed
    | Parsed(frame: Frame, rest: seq<byte>)    // Ok(Some(msg))
    | Invalid(rest: seq<byte>)                 // Err

  function ParseFrame(buf: seq<byte>): Parse {
    if |buf| < 5 then Incomplete else
      var len := ToI32(buf[1..5]);
      if len < 4 || len > MAX_MESSAGE_SIZE then Invalid(buf)
      else if |buf| < 1 + len then Incomplete
      else
        var frame := Frame(buf[0], buf[5..1 + len]);
        var rest := buf[1 + len..];
        if !KnownTag(frame.tag) then Skipped(rest)
        else if !Bodies.Accepts(frame.tag, frame.body) then Invalid(rest)
        else Parsed(frame, rest)
  }

  /** `parse_message`, consuming from the buffer in place. */
  method ParseMessage(buf: Buffer) returns (r: Result<Option<Frame>, ()>)
    modifies buf
    ensures match ParseFrame(old(buf.data))
            case Incomplete => r == Ok(None) && buf.data == old(buf.data)
            case Skipped(rest) => r == Ok(None) && buf.data == rest
            case Parsed(f, rest) => r == Ok(Some(f)) && buf.data == rest
            case Invalid(rest) => r == Err(()) && buf.data == rest
  {
    if |buf.data| < 5 { return Ok(None); }
    var tag := buf.data[0];
    var len := ToI32(buf.data[1..5]);
    if len < 4 { return Err(()); }
    if len > MAX_MESSAGE_SIZE { return Err(()); }
    if |buf.data| < 1 + len { return Ok(None); }
    ghost var was := buf.data;
    buf.data := buf.data[1..];
    buf.data := buf.data[4..];
    var body := buf.data[..len - 4];
    buf.data := buf.data[len - 4..];
    assert body == was[5..1 + len] && buf.data == was[1 + len..];
    if !KnownTag(tag) { return Ok(None); }
    if !Bodies.Accepts(tag, body) { return Err(()); }
    return Ok(Some(Frame(tag, body)));
  }

  /** A complete frame at the front of the buffer is parsed, whatever follows it. */
  lemma ParseComplete(f: Frame, rest: seq<byte>)
    requires WellFormed(f)
    ensures ParseFrame(FrameBytes(f) + rest) == Parsed(f, rest)
  {
    hide KnownTag, Bodies.Accepts;
    var buf := FrameBytes(f) + rest;
    I32RoundTrip(4 + |f.body|);
    assert buf[1..5] == I32(4 + |f.body|);
    assert buf[5..1 + (4 + |f.body|)] == f.body;
    assert buf[1 + (4 + |f.body|)..] == rest;
  }

  /** The 21 tag bytes there is a branch for. */
  lemma TagsInBytes(t: byte)
    ensures KnownTag(t) <==>
              t in {0x52, 0x53, 0x4B, 0x5A, 0x31, 0x32, 0x33, 0x6E, 0x43, 0x44, 0x54, 0x45, 0x4E, 0x49, 0x41, 0x74,
                    0x73, 0x47, 0x48, 0x64, 0x63}
    ensures READY_FOR_QUERY == 0x5A && ERROR_RESPONSE == 0x45 && NOTICE == 0x4E && NOTIFICATION == 0x41
    ensures PARAMETER_STATUS == 0x53 && ROW_DESCRIPTION == 0x54 && DATA_ROW == 0x44 && COMMAND_COMPLETE == 0x43
    ensures COPY_IN_RESPONSE == 0x47 && COPY_DATA == 0x64
  {
  }

  /** The frames of a reply as bytes: each kind is recognised by its tag byte, with whatever body its own parser takes;
      errors, notices and COPY data with any body at all. */
  lemma ReplyFramesAreParsed(body: seq<byte>, rest: seq<byte>)
    requires |body| <= 268435452
    ensures var framed := I32(4 + |body|) + body;
            && ParseFrame([0x44] + framed + rest)
                 == (if DataRow.Parse(body).Ok? then Parsed(Frame(DATA_ROW, body), rest) else Invalid(rest))
            && ParseFrame([0x5A] + framed + rest)
                 == (if body != [] then Parsed(Frame(READY_FOR_QUERY, body), rest) else Invalid(rest))
            && ParseFrame([0x43] + framed + rest)
                 == (if Bodies.Utf8(Bodies.SplitCString(body).0) then Parsed(Frame(COMMAND_COMPLETE, body), rest)
                     else Invalid(rest))
            && ParseFrame([0x45] + framed + rest) == Parsed(Frame(ERROR_RESPONSE, body), rest)
            && ParseFrame([0x4E] + framed + rest) == Parsed(Frame(NOTICE, body), rest)
            && ParseFrame([0x64] + framed + rest) == Parsed(Frame(COPY_DATA, body), rest)
  {
    hide ParseFrame, KnownTag, DataRow.Parse, Bodies.Utf8, Bodies.SplitCString, I32;
    TagsInBytes(0x44);
    TagsInBytes(0x5A);
    TagsInBytes(0x43);
    TagsInBytes(0x45);
    TagsInBytes(0x4E);
    TagsInBytes(0x64);
    ParseKnown(0x44, body, rest);
    ParseKnown(0x5A, body, rest);
    ParseKnown(0x43, body, rest);
    ParseKnown(0x45, body, rest);
    ParseKnown(0x4E, body, rest);
    ParseKnown(0x64, body, rest);
  }

  lemma ParseKnown(t: byte, body: seq<byte>, rest: seq<byte>)
    requires KnownTag(t) && |body| <= 268435452
    ensures ParseFrame([t] + (I32(4 + |body|) + body) + rest)
              == if Bodies.Accepts(t, body) then Parsed(Frame(t, body), rest) else Invalid(rest)
  {
    hide KnownTag, Bodies.Accepts;
    var buf := [t] + (I32(4 + |body|) + body) + rest;
    I32RoundTrip(4 + |body|);
    assert buf[1..5] == I32(4 + |body|);
    assert buf[5..1 + (4 + |body|)] == body;
    assert buf[1 + (4 + |body|)..] == rest;
  }

  /** A length below its own four bytes or above 256 MiB is an error that consumes nothing. */
  lemma BadLengthIsRejected(tag: byte, len: int, rest: seq<byte>)
    requires -TWO31 <= len < TWO31 && (len < 4 || len > 268435456)
    ensures ParseFrame([tag] + I32(len) + rest) == Invalid([tag] + I32(len) + rest)
  {
    I32RoundTrip(len);
    assert ([tag] + I32(len) + rest)[1..5] == I32(len);
  }

  /** A proper prefix of a frame is never taken for a message and stays in the buffer. */
  lemma ParsePartial(f: Frame, part: seq<byte>, missing: seq<byte>)
    requires WellFormed(f) && FrameBytes(f) == part + missing && missing != []
    ensures ParseFrame(part) == Incomplete
  {
    PartIsIncomplete(f, part, missing);
  }

  lemma PartIsIncomplete(f: Frame, part: seq<byte>, missing: seq<byte>)
    requires Sized(f) && FrameBytes(f) == part + missing && missing != []
    ensures ParseFrame(part).Incomplete?
  {
    if |part| >= 5 {
      var len := 4 + |f.body|;
      I32RoundTrip(len);
      assert part[1..5] == FrameBytes(f)[1..5] == I32(len);
      assert |part| < 1 + len;
    }
  }

  lemma {:induction false} FlatFramesAppend(a: seq<Frame>, b: seq<Frame>)
    ensures FlatFrames(a + b) == FlatFrames(a) + FlatFrames(b)
  {
    if a == [] {
      assert a + b == b;
    } else {
      assert (a + b)[1..] == a[1..] + b;
      FlatFramesAppend(a[1..], b);
    }
  }

  /** Whatever part of a frame stream has arrived, parsing yields nothing or its first frame. */
  lemma ParseArrived(fs: seq<Frame>, buf: seq<byte>, missing: seq<byte>)
    requires forall i :: 0 <= i < |fs| ==> WellFormed(fs[i])
    requires buf + missing == FlatFrames(fs)
    ensures match ParseFrame(buf)
            case Incomplete => true
            case Parsed(f, rest) => fs != [] && f == fs[0] && rest + missing == FlatFrames(fs[1..])
            case _ => false
  {
    if fs == [] {
      assert |buf + missing| == 0;
    } else {
      Seqs.Recut(buf, missing, FrameBytes(fs[0]), FlatFrames(fs[1..]));
      var n := |FrameBytes(fs[0])|;
      if |buf| >= n {
        ParseComplete(fs[0], buf[n..]);
      } else {
        ParsePartial(fs[0], buf, FrameBytes(fs[0])[|buf|..]);
      }
    }
  }

  // ----- read_msg -----

  datatype ReadError = Protocol | ConnectionClosed

  /** The inbound half of a connection: the reads still to come and the bytes already buffered. */
  class Inbound {
    var chunks: seq<seq<byte>>   // one element per successful read; empty list means end of file
    const buf: Buffer

    constructor (chunks: seq<seq<byte>>)
      ensures this.chunks == chunks && fresh(buf) && buf.data == []
    {
      this.chunks := chunks;
      this.buf := new Buffer();
    }

    /** Every byte not yet consumed by a parsed message. */
    ghost function Unread(): seq<byte>
      reads this, buf
    {
      buf.data + Flat(chunks)
    }

    /** `read_msg`. */
    method ReadMsg() returns (r: Result<Frame, ReadError>)
      modifies this, buf
      ensures (r, buf.data, chunks) == ReadFrom(old(buf.data), old(chunks))
      decreases |chunks|
    {
      while true
        invariant ReadFrom(old(buf.data), old(chunks)) == ReadFrom(buf.data, chunks)
        decreases |chunks|
      {
        var p := ParseMessage(buf);
        match p {
          case Err(_) => return Err(Protocol);
          case Ok(Some(f)) => return Ok(f);
          case Ok(None) =>
        }
        if chunks == [] {
          p := ParseMessage(buf);
          match p {
            case Err(_) => return Err(Protocol);
            case Ok(Some(f)) => return Ok(f);
            case Ok(None) => return Err(ConnectionClosed);
          }
        }
        buf.data, chunks := buf.data + chunks[0], chunks[1..];
      }
    }
  }

  /** What `read_msg` yields and leaves behind. */
  function ReadFrom(buf: seq<byte>, chunks: seq<seq<byte>>): (Result<Frame, ReadError>, seq<byte>, seq<seq<byte>>)
    decreases |chunks|
  {
    match ParseFrame(buf)
    case Parsed(f, rest) => (Ok(f), rest, chunks)
    case Invalid(rest) => (Err(Protocol), rest, chunks)
    case p =>
      var left := if p.Skipped? then p.rest else buf;
      if chunks == [] then
        match ParseFrame(left)
        case Parsed(f, rest) => (Ok(f), rest, [])
        case Invalid(rest) => (Err(Protocol), rest, [])
        case Skipped(rest) => (Err(ConnectionClosed), rest, [])
        case Incomplete => (Err(ConnectionClosed), left, [])
      else ReadFrom(left + chunks[0], chunks[1..])
  }

  /** However the next frame is cut into reads, one `read_msg` returns it and consumes exactly its bytes. */
  lemma {:induction false} ReadNext(f: Frame, rest: seq<byte>, buf: seq<byte>, chunks: seq<seq<byte>>)
    requires WellFormed(f)
    requires buf + Flat(chunks) == FrameBytes(f) + rest
    ensures var (r, buf', chunks') := ReadFrom(buf, chunks);
            r == Ok(f) && buf' + Flat(chunks') == rest
    decreases |chunks|
  {
    Seqs.Recut(buf, Flat(chunks), FrameBytes(f), rest);
    var n := |FrameBytes(f)|;
    if |buf| >= n {
      ParseComplete(f, buf[n..]);
    } else {
      ParsePartial(f, buf, FrameBytes(f)[|buf|..]);
      if chunks == [] { assert false; }
      Seqs.Assoc(buf, chunks[0], Flat(chunks[1..]));
      ReadNext(f, rest, buf + chunks[0], chunks[1..]);
    }
  }

  /** The first `n` results of calling `read_msg` again and again. */
  function ReadMany(n: nat, buf: seq<byte>, chunks: seq<seq<byte>>): seq<Result<Frame, ReadError>> {
    if n == 0 then [] else
      var (r, buf', chunks') := ReadFrom(buf, chunks);
      [r] + ReadMany(n - 1, buf', chunks')
  }

  /** What reading `fs` to the end should yield. */
  function Expected(fs: seq<Frame>): seq<Result<Frame, ReadError>> {
    if fs == [] then [Err(ConnectionClosed)] else [Ok(fs[0])] + Expected(fs[1..])
  }

  /** Main result: a stream of well-formed frames is read back frame by frame, then end of file is reported,
      for every chunking of its bytes. */
  lemma {:induction false} ChunkingIsInvisible(fs: seq<Frame>, buf: seq<byte>, chunks: seq<seq<byte>>)
    requires forall f :: f in fs ==> WellFormed(f)
    requires buf + Flat(chunks) == FlatFrames(fs)
    ensures ReadMany(|fs| + 1, buf, chunks) == Expected(fs)
    decreases |fs|
  {
    if fs == [] {
      assert buf == [] && Flat(chunks) == [] by { assert |buf + Flat(chunks)| == 0; }
      ReadNothing(chunks);
      assert ReadMany(1, buf, chunks) == [ReadFrom(buf, chunks).0];
    } else {
      ReadNext(fs[0], FlatFrames(fs[1..]), buf, chunks);
      var (r, buf', chunks') := ReadFrom(buf, chunks);
      ChunkingIsInvisible(fs[1..], buf', chunks');
    }
  }

  lemma {:induction false} ReadNothing(chunks: seq<seq<byte>>)
    requires Flat(chunks) == []
    ensures ReadFrom([], chunks).0 == Err(ConnectionClosed)
    decreases |chunks|
  {
    if chunks != [] {
      assert |chunks[0]| + |Flat(chunks[1..])| == 0;
      assert [] + chunks[0] == [];
      ReadNothing(chunks[1..]);
    }
  }

  /** Known tags are needed: with unknown ones the same bytes give different results in different chunkings,
      because a skipped message makes `read_msg` go back to the socket before it looks at the buffer again. */
  lemma UnknownTagsExposeChunking(u: Frame, z: Frame)
    requires Unknown(u) && Sized(u) && WellFormed(z)
    ensures ReadFrom([], [FrameBytes(u) + (FrameBytes(u) + FrameBytes(z))]).0 == Err(ConnectionClosed)
    ensures ReadFrom([], [FrameBytes(u), FrameBytes(u), FrameBytes(z)]).0 == Ok(z)
  {
    hide ParseFrame, KnownTag, Bodies.Accepts, FrameBytes;
    var ub, zb := FrameBytes(u), FrameBytes(z);
    // Everything in one read: the second unknown message uses up the look after end of file.
    SkipUnknown(u, ub + zb);
    SkipUnknown(u, zb);
    ReadOnce(ub + (ub + zb), []);
    // One message per read: each skip is followed by a read.
    SkipUnknown(u, []);
    assert ub + [] == ub;
    assert [ub, ub, zb] == [ub] + [ub, zb] && [ub, zb] == [ub] + [zb] && [zb] == [zb] + [];
    ReadOnce(ub, [ub, zb]);
    SkipThenRead(u, ub, [zb]);
    SkipThenRead(u, zb, []);
    ParseComplete(z, []);
    assert zb + [] == zb;
  }

  lemma SkipThenRead(u: Frame, c: seq<byte>, more: seq<seq<byte>>)
    requires Unknown(u) && Sized(u)
    ensures ReadFrom(FrameBytes(u), [c] + more) == ReadFrom(c, more)
  {
    hide KnownTag, Bodies.Accepts;
    SkipUnknown(u, []);
    assert FrameBytes(u) + [] == FrameBytes(u);
    assert ([c] + more)[1..] == more && [] + c == c;
  }

  lemma ReadOnce(c: seq<byte>, more: seq<seq<byte>>)
    ensures ReadFrom([], [c] + more) == ReadFrom(c, more)
  {
    assert ([c] + more)[1..] == more && [] + c == c;
  }

  lemma SkipUnknown(u: Frame, rest: seq<byte>)
    requires Unknown(u) && Sized(u)
    ensures ParseFrame(FrameBytes(u) + rest) == Skipped(rest)
  {
    var buf := FrameBytes(u) + rest;
    I32RoundTrip(4 + |u.body|);
    assert buf[1..5] == I32(4 + |u.body|);
    assert buf[1 + (4 + |u.body|)..] == rest;
  }

  // ----- when chunking stays invisible -----

  /** A frame whose size is within the limit and whose body is accepted if there is a parser for it. */
  predicate Sendable(f: Frame) { Sized(f) && (KnownTag(f.tag) ==> WellFormed(f)) }

  predicate AllSendable(fs: seq<Frame>) { forall i :: 0 <= i < |fs| ==> Sendable(fs[i]) }

  function Knowns(fs: seq<Frame>): seq<Frame> {
    if fs == [] then [] else (if Unknown(fs[0]) then [] else [fs[0]]) + Knowns(fs[1..])
  }

  /** No two unknown frames in a row have a known one anywhere behind them. */
  predicate Steady(fs: seq<Frame>) {
    |fs| >= 2 ==> if Unknown(fs[0]) && Unknown(fs[1]) then Knowns(fs) == [] else Steady(fs[1..])
  }

  /** However the bytes are cut into reads, the known frames are read in order, and then the end of file. */
  ghost predicate ReadsKnowns(fs: seq<Frame>) {
    forall chunks :: Flat(chunks) == FlatFrames(fs) ==>
      ReadMany(|Knowns(fs)| + 1, [], chunks) == Expected(Knowns(fs))
  }

  /** Main result: with unknown tags among the frames, chunking stays invisible exactly for the steady streams. */
  lemma ChunkingIsInvisibleExactly(fs: seq<Frame>)
    requires AllSendable(fs)
    ensures ReadsKnowns(fs) <==> Steady(fs)
  {
    hide ParseFrame, Steady, ReadFrom, Sendable, FlatFrames, Knowns, Expected;
    if Steady(fs) {
      forall chunks | Flat(chunks) == FlatFrames(fs)
        ensures ReadMany(|Knowns(fs)| + 1, [], chunks) == Expected(Knowns(fs))
      {
        assert [] + Flat(chunks) == Flat(chunks);
        SteadyIsInvisible(fs, [], chunks);
      }
    } else {
      var all := FlatFrames(fs);
      var none: seq<seq<byte>> := [];
      assert [all][1..] == none && all + [] == all;
      assert Flat([all]) == all;
      assert [all] == [all] + none;
      ReadOnce(all, []);
      UnsteadyShows(fs);
    }
  }

  lemma {:induction false} SteadyIsInvisible(fs: seq<Frame>, buf: seq<byte>, chunks: seq<seq<byte>>)
    requires AllSendable(fs) && Steady(fs)
    requires buf + Flat(chunks) == FlatFrames(fs)
    ensures ReadMany(|Knowns(fs)| + 1, buf, chunks) == Expected(Knowns(fs))
    decreases |fs|
  {
    hide ParseFrame, KnownTag, FrameBytes, ReadFrom, Steady, Flat;
    var (r, buf', chunks') := ReadFrom(buf, chunks);
    if Knowns(fs) == [] {
      OnlyUnknown(fs, buf, chunks);
      assert ReadMany(1, buf, chunks) == [r];
    } else {
      var k := if Unknown(fs[0]) then 1 else 0;
      FirstKnown(fs);
      if k == 0 {
        ReadNext(fs[0], FlatFrames(fs[1..]), buf, chunks);
      } else {
        assert fs[1..][1..] == fs[2..];
        ReadAfterSkip(fs[0], fs[1], FlatFrames(fs[2..]), buf, chunks);
      }
      SteadyIsInvisible(fs[k + 1..], buf', chunks');
    }
  }

  /** In a steady stream at most one unknown frame stands before the next known one. */
  lemma FirstKnown(fs: seq<Frame>)
    requires Steady(fs) && Knowns(fs) != []
    ensures var k := if Unknown(fs[0]) then 1 else 0;
            && k < |fs| && !Unknown(fs[k]) && Steady(fs[k + 1..])
            && Knowns(fs) == [fs[k]] + Knowns(fs[k + 1..])
  {
    hide KnownTag;
    if Unknown(fs[0]) {
      assert Knowns(fs) == Knowns(fs[1..]);
      assert fs[1..][1..] == fs[2..];
      assert !Unknown(fs[1]);
    }
  }

  lemma {:induction false} ReadAfterSkip(u: Frame, f: Frame, rest: seq<byte>, buf: seq<byte>, chunks: seq<seq<byte>>)
    requires Unknown(u) && Sized(u) && WellFormed(f)
    requires buf + Flat(chunks) == FrameBytes(u) + (FrameBytes(f) + rest)
    ensures var (r, buf', chunks') := ReadFrom(buf, chunks);
            r == Ok(f) && buf' + Flat(chunks') == rest
    decreases |chunks|
  {
    hide KnownTag, FrameBytes, ParseFrame;
    var behind := FrameBytes(f) + rest;
    Seqs.Recut(buf, Flat(chunks), FrameBytes(u), behind);
    var n := |FrameBytes(u)|;
    if |buf| >= n {
      SkipUnknown(u, buf[n..]);
      if chunks == [] {
        assert buf[n..] + [] == buf[n..];
        ParseComplete(f, rest);
      } else {
        Seqs.Assoc(buf[n..], chunks[0], Flat(chunks[1..]));
        ReadNext(f, rest, buf[n..] + chunks[0], chunks[1..]);
      }
    } else {
      PartIsIncomplete(u, buf, FrameBytes(u)[|buf|..]);
      if chunks == [] { assert false; }
      Seqs.Assoc(buf, chunks[0], Flat(chunks[1..]));
      ReadAfterSkip(u, f, rest, buf + chunks[0], chunks[1..]);
    }
  }

  /** Unknown frames alone are skipped or left incomplete until the end of file. */
  lemma {:induction false} OnlyUnknown(fs: seq<Frame>, buf: seq<byte>, chunks: seq<seq<byte>>)
    requires AllSendable(fs) && Knowns(fs) == []
    requires buf + Flat(chunks) == FlatFrames(fs)
    ensures ReadFrom(buf, chunks).0 == Err(ConnectionClosed)
    decreases |chunks|
  {
    hide KnownTag, FrameBytes, ParseFrame, FlatFrames;
    UnknownArrived(fs, buf, Flat(chunks));
    var p := ParseFrame(buf);
    var left, behind := if p.Skipped? then p.rest else buf, if p.Skipped? then fs[1..] else fs;
    assert p.Skipped? ==> Knowns(behind) == [];
    if chunks == [] {
      UnknownArrived(behind, left, []);
    } else {
      Seqs.Assoc(left, chunks[0], Flat(chunks[1..]));
      OnlyUnknown(behind, left + chunks[0], chunks[1..]);
    }
  }

  lemma NothingIsIncomplete()
    ensures ParseFrame([]).Incomplete?
  {
  }

  lemma UnknownArrived(fs: seq<Frame>, buf: seq<byte>, missing: seq<byte>)
    requires AllSendable(fs) && Knowns(fs) == []
    requires buf + missing == FlatFrames(fs)
    ensures match ParseFrame(buf)
            case Incomplete => true
            case Skipped(rest) => fs != [] && rest + missing == FlatFrames(fs[1..])
            case _ => false
  {
    hide KnownTag, FrameBytes, ParseFrame;
    if fs == [] {
      assert |buf + missing| == 0;
      NothingIsIncomplete();
    } else {
      Seqs.Recut(buf, missing, FrameBytes(fs[0]), FlatFrames(fs[1..]));
      var n := |FrameBytes(fs[0])|;
      if |buf| >= n {
        SkipUnknown(fs[0], buf[n..]);
      } else {
        PartIsIncomplete(fs[0], buf, FrameBytes(fs[0])[|buf|..]);
      }
    }
  }

  /** When everything has arrived at once, the second of two unknown frames in a row ends the reading. */
  lemma {:induction false} UnsteadyShows(fs: seq<Frame>)
    requires AllSendable(fs) && !Steady(fs)
    ensures ReadMany(|Knowns(fs)| + 1, FlatFrames(fs), []) != Expected(Knowns(fs))
    decreases |fs|
  {
    hide KnownTag, FrameBytes, ParseFrame;
    var all := FlatFrames(fs);
    assert fs[1..][1..] == fs[2..];
    if !Unknown(fs[0]) {
      ParseComplete(fs[0], FlatFrames(fs[1..]));
      UnsteadyShows(fs[1..]);
      UnsteadyStep(fs, fs[0], fs[1..]);
    } else {
      SkipUnknown(fs[0], FlatFrames(fs[1..]));
      if Unknown(fs[1]) {
        SkipUnknown(fs[1], FlatFrames(fs[2..]));
        assert ReadMany(|Knowns(fs)| + 1, all, [])[0] == Err(ConnectionClosed);
      } else {
        ParseComplete(fs[1], FlatFrames(fs[2..]));
        UnsteadyShows(fs[2..]);
        UnsteadyStep(fs, fs[1], fs[2..]);
      }
    }
  }

  lemma UnsteadyStep(fs: seq<Frame>, f: Frame, rest: seq<Frame>)
    requires ReadFrom(FlatFrames(fs), []) == (Ok(f), FlatFrames(rest), [])
    requires Knowns(fs) == [f] + Knowns(rest)
    requires ReadMany(|Knowns(rest)| + 1, FlatFrames(rest), []) != Expected(Knowns(rest))
    ensures ReadMany(|Knowns(fs)| + 1, FlatFrames(fs), []) != Expected(Knowns(fs))
  {
    hide KnownTag, FrameBytes, ParseFrame, ReadFrom, FlatFrames, Knowns;
    var later := ReadMany(|Knowns(rest)| + 1, FlatFrames(rest), []);
    assert ReadMany(|Knowns(fs)| + 1, FlatFrames(fs), []) == [Ok(f)] + later;
    assert Expected(Knowns(fs)) == [Ok(f)] + Expected(Knowns(rest));
    assert ([Ok(f)] + later)[1..] == later && ([Ok(f)] + Expected(Knowns(rest)))[1..] == Expected(Knowns(rest));
  }
}
