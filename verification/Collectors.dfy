/** The five response collectors of the reader task.  `Step` is one iteration of a collector's loop as a
    function of the frame it reads; the methods of `Reader` are the loops themselves. */
module Collectors {
  import opened Bytes
  import opened Wrappers
  import opened Framing

  /** `dropAfter` is the number of items a stream's receiver takes before it is dropped. */
  datatype Kind = Rows | Drain | Stream(dropAfter: nat) | CopyIn | CopyOut

  datatype Fault = Server(error: seq<byte>) | Lost(cause: ReadError)

  datatype Answer =
    | RowSet(fields: seq<byte>, rows: seq<seq<byte>>, tag: seq<byte>)
    | Done
    | Fail(fault: Fault)

  type Item = Result<seq<byte>, Fault>

  /** What a streaming caller is sent on its two side channels. */
  datatype Feed = Feed(header: Option<Item>, items: seq<Item>)

  const NO_FEED := Feed(None, [])

  datatype State =
    | Collecting(fields: seq<byte>, rows: seq<seq<byte>>, tag: seq<byte>, feed: Feed)
    | Draining(answer: Answer, feed: Feed)
    | Finished(answer: Answer, feed: Feed, status: byte)

  const START := Collecting([], [], [], NO_FEED)

  function SendHeader(feed: Feed, h: Item): Feed {
    if feed.header.None? then feed.(header := Some(h)) else feed
  }

  function SendItem(feed: Feed, dropAfter: nat, item: Item): Feed {
    if |feed.items| < dropAfter then feed.(items := feed.items + [item]) else feed
  }

  function Step(k: Kind, s: State, f: Frame): State {
    match s
    case Finished(_, _, _) => s
    case Draining(answer, feed) => if f.tag == READY_FOR_QUERY && f.body != [] then Finished(answer, feed, f.body[0])
        else s
    case Collecting(fields, rows, tag, feed) =>
      if f.tag == READY_FOR_QUERY then
        if f.body == [] then s else
        match k
        case Drain => Finished(Done, feed, f.body[0])
        case Stream(_) => Finished(Done, SendHeader(feed, Ok(fields)), f.body[0])
        case _ => Finished(RowSet(fields, rows, tag), feed, f.body[0])
      else if f.tag == ERROR_RESPONSE then
        match k
        case Drain => s
        case Stream(n) =>
          Draining(Done, if feed.header.None? then SendHeader(feed, Err(Server(f.body)))
              else SendItem(feed, n, Err(Server(f.body))))
        case _ => Draining(Fail(Server(f.body)), feed)
      else if f.tag == ROW_DESCRIPTION && (k.Rows? || k.Stream?) then s.(fields := f.body)
      else if f.tag == DATA_ROW && k.Rows? then s.(rows := rows + [f.body])
      else if f.tag == DATA_ROW && k.Stream? then
        var feed' := SendHeader(feed, Ok(fields));
        if |feed'.items| < k.dropAfter then Collecting(fields, rows, tag, SendItem(feed', k.dropAfter, Ok(f.body)))
        else Draining(Done, feed')
      else if f.tag == COPY_DATA && k.CopyOut? then s.(rows := rows + [f.body])
      else if f.tag == COMMAND_COMPLETE && k.Stream? then
        if feed.header.None? then Collecting([], rows, tag, SendHeader(feed, Ok(fields))) else s
      else if f.tag == COMMAND_COMPLETE && !k.Drain? then s.(tag := f.body)
      else s
  }

  function Run(k: Kind, s: State, fs: seq<Frame>): State
    decreases |fs|
  {
    if fs == [] then s else Run(k, Step(k, s, fs[0]), fs[1..])
  }

  lemma {:induction false} RunAppend(k: Kind, s: State, a: seq<Frame>, b: seq<Frame>)
    ensures Run(k, s, a + b) == Run(k, Run(k, s, a), b)
    decreases |a|
  {
    if a == [] {
      assert a + b == b;
    } else {
      assert (a + b)[1..] == a[1..] + b;
      RunAppend(k, Step(k, s, a[0]), a[1..], b);
    }
  }

  // ----- segments -----

  predicate NoReady(fs: seq<Frame>) {
    forall f :: f in fs ==> f.tag != READY_FOR_QUERY
  }

  /** A reply: frames up to and including one ReadyForQuery. */
  predicate Segment(fs: seq<Frame>) {
    && fs != []
    && NoReady(fs[..|fs| - 1])
    && fs[|fs| - 1].tag == READY_FOR_QUERY
    && fs[|fs| - 1].body != []
  }

  lemma {:induction false} NotDoneBeforeReady(k: Kind, s: State, fs: seq<Frame>)
    requires !s.Finished? && NoReady(fs)
    ensures !Run(k, s, fs).Finished?
    decreases |fs|
  {
    if fs != [] { NotDoneBeforeReady(k, Step(k, s, fs[0]), fs[1..]); }
  }

  /** Every collector, from any point of its loop, stops exactly at the first ReadyForQuery and reports its status. */
  lemma StopsAtReady(k: Kind, s: State, fs: seq<Frame>)
    requires !s.Finished? && Segment(fs)
    ensures Run(k, s, fs).Finished? && Run(k, s, fs).status == fs[|fs| - 1].body[0]
    ensures forall i :: 0 <= i < |fs| ==> !Run(k, s, fs[..i]).Finished?
  {
    var n := |fs| - 1;
    assert fs == fs[..n] + [fs[n]];
    NotDoneBeforeReady(k, s, fs[..n]);
    RunAppend(k, s, fs[..n], [fs[n]]);
    assert Run(k, Run(k, s, fs[..n]), [fs[n]]) == Step(k, Run(k, s, fs[..n]), fs[n]) by { assert [fs[n]][1..] == []; }
    forall i | 0 <= i < |fs| ensures !Run(k, s, fs[..i]).Finished? {
      assert forall f :: f in fs[..i] ==> f in fs[..n] by {
        forall f | f in fs[..i] ensures f in fs[..n] {
          var j :| 0 <= j < i && fs[..i][j] == f;
          assert fs[..n][j] == f;
        }
      }
      NotDoneBeforeReady(k, s, fs[..i]);
    }
  }

  // ----- what an answer says about its segment -----

  /** Bodies of the frames tagged `t`, in order. */
  function Bodies(fs: seq<Frame>, t: byte): seq<seq<byte>> {
    if fs == [] then [] else (if fs[0].tag == t then [fs[0].body] else []) + Bodies(fs[1..], t)
  }

  function LastBody(fs: seq<Frame>, t: byte, otherwise: seq<byte>): seq<byte> {
    if fs == [] then otherwise else LastBody(fs[1..], t, if fs[0].tag == t then fs[0].body else otherwise)
  }

  /** The body of the first ErrorResponse, if there is one. */
  function FirstError(fs: seq<Frame>): Option<seq<byte>> {
    if fs == [] then None else if fs[0].tag == ERROR_RESPONSE then Some(fs[0].body) else FirstError(fs[1..])
  }

  /** The frame kinds that make up a collector's rows and column header. */
  function RowTag(k: Kind): byte { if k.CopyOut? then COPY_DATA else DATA_ROW }

  /** A whole reply to a non-streaming request is reported as: the first server error if there is one, else
      the last column header, every row in order, and the last command tag.  A drain reports nothing at all. */
  function Report(k: Kind, fs: seq<Frame>): Answer
    requires !k.Stream?
  {
    if k.Drain? then Done else
      match FirstError(fs)
      case Some(e) => Fail(Server(e))
      case None =>
        RowSet(if k.Rows? then LastBody(fs, ROW_DESCRIPTION, []) else [],
               if k.CopyIn? then [] else Bodies(fs, RowTag(k)),
               LastBody(fs, COMMAND_COMPLETE, []))
  }

  lemma {:induction false} DrainingKeepsAnswer(k: Kind, s: State, fs: seq<Frame>)
    requires s.Draining? && Segment(fs)
    ensures Run(k, s, fs) == Finished(s.answer, s.feed, fs[|fs| - 1].body[0])
    decreases |fs|
  {
    if |fs| > 1 {
      SegmentTail(fs);
      DrainingKeepsAnswer(k, s, fs[1..]);
    } else {
      assert fs[1..] == [];
    }
  }

  lemma SegmentTail(fs: seq<Frame>)
    requires Segment(fs) && |fs| > 1
    ensures Segment(fs[1..]) && fs[0].tag != READY_FOR_QUERY
  {
    assert fs[0] in fs[..|fs| - 1];
    assert fs[1..][..|fs[1..]| - 1] == fs[..|fs| - 1][1..];
  }

  /** The report still owed when part of the reply has been collected into `s`. */
  function Owed(k: Kind, s: State, fs: seq<Frame>): Answer
    requires s.Collecting?
  {
    match FirstError(fs)
    case Some(e) => Fail(Server(e))
    case None =>
      RowSet(if k.Rows? then LastBody(fs, ROW_DESCRIPTION, s.fields) else s.fields,
             if k.CopyIn? then s.rows else s.rows + Bodies(fs, RowTag(k)),
             LastBody(fs, COMMAND_COMPLETE, s.tag))
  }

  lemma OwedStep(k: Kind, s: State, fs: seq<Frame>)
    requires s.Collecting? && !k.Stream? && !k.Drain?
    requires fs != [] && fs[0].tag != READY_FOR_QUERY && fs[0].tag != ERROR_RESPONSE
    ensures Step(k, s, fs[0]).Collecting? && Owed(k, Step(k, s, fs[0]), fs[1..]) == Owed(k, s, fs)
  {
    var own := if fs[0].tag == RowTag(k) then [fs[0].body] else [];
    assert (s.rows + own) + Bodies(fs[1..], RowTag(k)) == s.rows + Bodies(fs, RowTag(k));
    assert s.rows + [] == s.rows;
  }

  lemma OwedAtEnd(k: Kind, s: State, z: Frame)
    requires s.Collecting? && !k.Stream? && !k.Drain? && z.tag == READY_FOR_QUERY && z.body != []
    ensures Run(k, s, [z]) == Finished(Owed(k, s, [z]), s.feed, z.body[0])
  {
    assert [z][1..] == [];
    assert Bodies([z], RowTag(k)) == [];
    assert s.rows + Bodies([z], RowTag(k)) == s.rows;
    assert FirstError([z]) == None;
    assert LastBody([z], ROW_DESCRIPTION, s.fields) == s.fields;
    assert LastBody([z], COMMAND_COMPLETE, s.tag) == s.tag;
    assert Run(k, s, [z]) == Step(k, s, z);
  }

  lemma {:induction false} ReportFrom(k: Kind, s: State, fs: seq<Frame>)
    requires s.Collecting? && Segment(fs) && !k.Stream? && !k.Drain?
    ensures Run(k, s, fs).Finished? && Run(k, s, fs).answer == Owed(k, s, fs)
    decreases |fs|
  {
    if |fs| == 1 {
      assert fs == [fs[0]];
      OwedAtEnd(k, s, fs[0]);
    } else {
      SegmentTail(fs);
      if fs[0].tag == ERROR_RESPONSE {
        DrainingKeepsAnswer(k, Draining(Fail(Server(fs[0].body)), s.feed), fs[1..]);
      } else {
        OwedStep(k, s, fs);
        ReportFrom(k, Step(k, s, fs[0]), fs[1..]);
      }
    }
  }

  lemma {:induction false} DrainReports(s: State, fs: seq<Frame>)
    requires s.Collecting? && Segment(fs)
    ensures Run(Drain, s, fs) == Finished(Done, s.feed, fs[|fs| - 1].body[0])
    decreases |fs|
  {
    if |fs| > 1 {
      SegmentTail(fs);
      DrainReports(Step(Drain, s, fs[0]), fs[1..]);
    } else {
      assert fs[1..] == [];
    }
  }

  /** Main result: what a collector sends back is the report of its own reply. */
  lemma AnswerIsReport(k: Kind, fs: seq<Frame>)
    requires Segment(fs) && !k.Stream?
    ensures Run(k, START, fs).Finished? && Run(k, START, fs).answer == Report(k, fs)
  {
    if k.Drain? {
      DrainReports(START, fs);
    } else {
      ReportFrom(k, START, fs);
      assert [] + Bodies(fs, RowTag(k)) == Bodies(fs, RowTag(k));
    }
  }

  // ----- streaming -----

  function Take<T>(s: seq<T>, n: nat): seq<T> {
    if n < |s| then s[..n] else s
  }

  /** The items a streaming caller gets: the rows before the first error, then that error unless it was
      reported through the header, cut where the receiver was dropped. */
  function StreamItems(fs: seq<Frame>, headerSent: bool): seq<Item> {
    if fs == [] then []
    else if fs[0].tag == ERROR_RESPONSE then (if headerSent then [Err(Server(fs[0].body))] else [])
    else if fs[0].tag == DATA_ROW then [Ok(fs[0].body)] + StreamItems(fs[1..], true)
    else StreamItems(fs[1..], headerSent || fs[0].tag == COMMAND_COMPLETE)
  }

  /** The header: the column description in force at the first row or at the end of the command, or the error
      that came before either. */
  function StreamHeader(fs: seq<Frame>, fields: seq<byte>): Item {
    if fs == [] then Ok(fields)
    else if fs[0].tag == ERROR_RESPONSE then Err(Server(fs[0].body))
    else if fs[0].tag == DATA_ROW || fs[0].tag == COMMAND_COMPLETE || fs[0].tag == READY_FOR_QUERY then Ok(fields)
    else StreamHeader(fs[1..], if fs[0].tag == ROW_DESCRIPTION then fs[0].body else fields)
  }

  lemma {:induction false} StreamFrom(n: nat, s: State, fs: seq<Frame>)
    requires s.Collecting? && Segment(fs) && |s.feed.items| <= n
    ensures var r := Run(Stream(n), s, fs);
            && r.Finished? && r.answer == Done
            && r.feed.items == Take(s.feed.items + StreamItems(fs, s.feed.header.Some?), n)
            && r.feed.header == Some(if s.feed.header.Some? then s.feed.header.value else StreamHeader(fs, s.fields))
    decreases |fs|
  {
    var k := Stream(n);
    var s' := Step(k, s, fs[0]);
    var sent := s.feed.header.Some?;
    if |fs| == 1 {
      assert fs[1..] == [];
      assert s.feed.items + StreamItems(fs, sent) == s.feed.items;
    } else {
      SegmentTail(fs);
      if s'.Draining? {
        DrainingKeepsAnswer(k, s', fs[1..]);
        if fs[0].tag == DATA_ROW {
          assert |s.feed.items| == n;
          assert (s.feed.items + StreamItems(fs, sent))[..n] == s.feed.items;
        }
      } else {
        StreamFrom(n, s', fs[1..]);
        if fs[0].tag == DATA_ROW {
          assert s'.feed.items + StreamItems(fs[1..], true)
              == s.feed.items + ([Ok(fs[0].body)] + StreamItems(fs[1..], true));
        }
      }
    }
  }

  /** Main result for streams: one header, then exactly the rows (and late error) of this reply, in order. */
  lemma StreamIsReply(n: nat, fs: seq<Frame>)
    requires Segment(fs)
    ensures Run(Stream(n), START, fs) == Finished(Done,
        Feed(Some(StreamHeader(fs, [])), Take(StreamItems(fs, false), n)),
                                                  fs[|fs| - 1].body[0])
  {
    StreamFrom(n, START, fs);
    assert [] + StreamItems(fs, false) == StreamItems(fs, false);
    StopsAtReady(Stream(n), START, fs);
  }

  // ----- connection loss and notifications -----

  /** The result when reading fails in state `s`: only a stream that already reported an error stays silent. */
  function Lose(k: Kind, s: State, e: ReadError): (Answer, Feed) {
    match s
    case Finished(answer, feed, _) => (answer, feed)
    case Draining(answer, feed) => if k.Stream? then (answer, feed) else (Fail(Lost(e)), feed)
    case Collecting(_, _, _, feed) =>
      if !k.Stream? then (Fail(Lost(e)), feed)
      else if feed.header.None? then (Done, SendHeader(feed, Err(Lost(e))))
      else (Done, SendItem(feed, k.dropAfter, Err(Lost(e))))
  }

  /** What a collector hands back for the frames `fs`, followed by end of file if they hold no ReadyForQuery. */
  function Outcome(k: Kind, fs: seq<Frame>): (Answer, Feed) {
    Lose(k, Run(k, START, fs), ConnectionClosed)
  }

  /** A row or the end of the command has come, which is when a stream sends its header. */
  predicate Begun(fs: seq<Frame>) {
    fs != [] && (fs[0].tag == DATA_ROW || fs[0].tag == COMMAND_COMPLETE || Begun(fs[1..]))
  }

  /** What a caller is told about a whole reply. */
  predicate ReportsWhole(k: Kind, fs: seq<Frame>, a: Answer, fd: Feed) {
    if k.Stream? then a == Done && fd == Feed(Some(StreamHeader(fs, [])), Take(StreamItems(fs, false), k.dropAfter))
    else a == Report(k, fs) && fd == NO_FEED
  }

  /** What a caller is told when the connection ends after the frames `fs` of its reply: the loss, and never the rows
      as if they were all.  A stream has it in its header, or behind the rows if the header was sent; a server error
      already reported, or a receiver that is gone, keeps it from being sent. */
  predicate ReportsLoss(k: Kind, fs: seq<Frame>, a: Answer, fd: Feed) {
    if !k.Stream? then a == Fail(Lost(ConnectionClosed)) && fd == NO_FEED
    else
      var loss := Err(Lost(ConnectionClosed));
      && a == Done
      && fd.header == Some(if Begun(fs) || FirstError(fs).Some? then StreamHeader(fs, []) else loss)
      && fd.items == Take(StreamItems(fs, false) + (if Begun(fs) && FirstError(fs).None? then [loss] else []),
                          k.dropAfter)
  }

  predicate Reports(k: Kind, fs: seq<Frame>, a: Answer, fd: Feed) {
    if Segment(fs) then ReportsWhole(k, fs, a, fd) else ReportsLoss(k, fs, a, fd)
  }

  lemma {:induction false} FeedUntouched(k: Kind, s: State, fs: seq<Frame>)
    requires !k.Stream?
    ensures Run(k, s, fs).feed == s.feed
    decreases |fs|
  {
    if fs != [] { FeedUntouched(k, Step(k, s, fs[0]), fs[1..]); }
  }

  lemma {:induction false} DrainingWaits(k: Kind, s: State, fs: seq<Frame>)
    requires s.Draining? && NoReady(fs)
    ensures Run(k, s, fs) == s
    decreases |fs|
  {
    if fs != [] {
      assert fs[0] in fs;
      DrainingWaits(k, s, fs[1..]);
    }
  }

  lemma {:induction false} StreamCut(n: nat, s: State, fs: seq<Frame>)
    requires s.Collecting? && NoReady(fs) && |s.feed.items| <= n
    ensures var (a, fd) := Lose(Stream(n), Run(Stream(n), s, fs), ConnectionClosed);
            var sent := s.feed.header.Some?;
            var loss := Err(Lost(ConnectionClosed));
            && a == Done
            && fd.header == (if sent then s.feed.header
                             else Some(if Begun(fs) || FirstError(fs).Some? then StreamHeader(fs, s.fields) else loss))
            && fd.items == Take(s.feed.items + StreamItems(fs, sent)
                                + (if (sent || Begun(fs)) && FirstError(fs).None? then [loss] else []), n)
    decreases |fs|
  {
    var k, sent := Stream(n), s.feed.header.Some?;
    var loss: Item := Err(Lost(ConnectionClosed));
    if fs == [] {
      assert s.feed.items + StreamItems(fs, sent) == s.feed.items;
    } else {
      assert fs[0] in fs;
      var s' := Step(k, s, fs[0]);
      if s'.Draining? {
        DrainingWaits(k, s', fs[1..]);
        var late := if FirstError(fs).None? then [loss] else [];
        Assoc(s.feed.items, StreamItems(fs, sent), late);
        TakeFull(s.feed.items, StreamItems(fs, sent) + late, n);
        if fs[0].tag == ERROR_RESPONSE { assert StreamItems(fs, sent) + late == StreamItems(fs, sent); }
      } else {
        StreamCut(n, s', fs[1..]);
        if fs[0].tag == DATA_ROW {
          assert s'.feed.items + StreamItems(fs[1..], true) == s.feed.items + StreamItems(fs, sent);
        }
      }
    }
  }

  lemma Assoc(a: seq<Item>, b: seq<Item>, c: seq<Item>)
    ensures a + b + c == a + (b + c)
  {
  }

  /** A receiver that has taken all it wants takes nothing more. */
  lemma TakeFull(a: seq<Item>, b: seq<Item>, n: nat)
    ensures |a| == n ==> Take(a + b, n) == a
  {
  }

  /** Main result on both ends of a reply: what the collector hands back reports the reply, or its loss. */
  lemma OutcomeReports(k: Kind, fs: seq<Frame>)
    requires Segment(fs) || NoReady(fs)
    ensures var (a, fd) := Outcome(k, fs); Reports(k, fs, a, fd)
  {
    if Segment(fs) {
      if k.Stream? { StreamIsReply(k.dropAfter, fs); } else { AnswerIsReport(k, fs); FeedUntouched(k, START, fs); }
    } else if k.Stream? {
      StreamCut(k.dropAfter, START, fs);
      assert [] + StreamItems(fs, false) == StreamItems(fs, false);
    } else {
      FeedUntouched(k, START, fs);
      NotDoneBeforeReady(k, START, fs);
    }
  }

  /** The notifications the collector forwards: only Rows and Stream do, and only until an error is seen. */
  function Heard(k: Kind, s: State, fs: seq<Frame>): seq<seq<byte>>
    decreases |fs|
  {
    if fs == [] || !s.Collecting? || !(k.Rows? || k.Stream?) then [] else
      (if fs[0].tag == NOTIFICATION then [fs[0].body] else []) + Heard(k, Step(k, s, fs[0]), fs[1..])
  }

  /** The frames looked at before an error, and before the row that a stream's receiver is no longer there for. */
  function Watched(k: Kind, fs: seq<Frame>, taken: nat): seq<Frame> {
    if fs == [] || fs[0].tag == ERROR_RESPONSE || (k.Stream? && fs[0].tag == DATA_ROW && taken >= k.dropAfter) then []
    else [fs[0]] + Watched(k, fs[1..], if fs[0].tag == DATA_ROW then taken + 1 else taken)
  }

  /** The notifications of a reply that are passed on: a drain or a COPY passes none. */
  function PassedOn(k: Kind, fs: seq<Frame>): seq<seq<byte>> {
    if k.Rows? || k.Stream? then Bodies(Watched(k, fs, 0), NOTIFICATION) else []
  }

  lemma {:induction false} HeardFrom(k: Kind, s: State, fs: seq<Frame>, taken: nat)
    requires s.Collecting? && (k.Rows? || k.Stream?) && (Segment(fs) || NoReady(fs))
    requires k.Stream? ==> |s.feed.items| == taken <= k.dropAfter
    ensures Heard(k, s, fs) == Bodies(Watched(k, fs, taken), NOTIFICATION)
    decreases |fs|
  {
    if fs != [] && !Segment(fs) { assert fs[0] in fs; }
    if fs != [] && fs[0].tag == READY_FOR_QUERY {
      if |fs| > 1 { SegmentTail(fs); }
      assert fs[1..] == [] && Watched(k, fs, taken) == [fs[0]];
    } else if fs != [] {
      if Segment(fs) && |fs| > 1 { SegmentTail(fs); }
      var s' := Step(k, s, fs[0]);
      if s'.Collecting? {
        HeardFrom(k, s', fs[1..], if fs[0].tag == DATA_ROW then taken + 1 else taken);
        var more := Watched(k, fs[1..], if fs[0].tag == DATA_ROW then taken + 1 else taken);
        assert ([fs[0]] + more)[1..] == more;
      }
    }
  }

  lemma HeardIsPassedOn(k: Kind, fs: seq<Frame>)
    requires Segment(fs) || NoReady(fs)
    ensures Heard(k, START, fs) == PassedOn(k, fs)
  {
    if k.Rows? || k.Stream? { HeardFrom(k, START, fs, 0); }
  }
}
