/** The multiplexed connection as a state machine: submitters, the writer task, the server and the reader task
    take turns in any order, one channel operation, socket operation, frame or message at a time. */
module Multiplexer {
  import opened Bytes
  import opened Framing
  import opened Collectors
  import opened ServerProtocol
  import opened Replies
  import opened Wrappers
  import Seqs

  /** `slot` is the caller's response channel; slots are numbered as they are made. */
  datatype Request = Request(kind: Kind, msgs: seq<Message>, slot: nat)

  datatype Outcome =
    | Delivered(answer: Answer, feed: Feed)        // a collector finished at its ReadyForQuery
    | ConnectionLost(answer: Answer, feed: Feed)   // end of file inside a collector
    | Drained                                      // still pending when the writer exited
    | WriteFailed                                  // in the batch whose write failed

  datatype Phase = Gathering | Writing | Exited

  datatype Writer = Writer(
    nextSlot: nat,
    queue: seq<Request>,       // the request channel
    phase: Phase,
    batch: seq<Request>,       // taken from the channel, not yet in `pending`
    buf: seq<Message>,         // the write buffer
    pending: seq<Request>,     // written, reply not yet being read
    taken: seq<Request>,       // history: every request taken, in order
    popped: nat,               // history: how many of them the reader popped
    unsent: seq<Message>)      // history: what was left in the buffer when the writer exited

  /** A frame the server has sent, and the request whose message made it do so. */
  datatype Sent = Sent(frame: Frame, cause: int)

  const ASYNC := -1

  datatype Backend = Backend(
    inbox: seq<Message>,       // messages in the socket towards the server
    mode: Mode,
    closed: bool,
    wire: seq<byte>,           // bytes in the socket towards the client
    lost: seq<byte>,           // history: bytes that will never arrive
    sent: seq<Sent>,           // history: every frame sent
    atRequest: nat,            // history: the request being processed, and its messages already processed
    atMessage: nat)

  datatype Reader = Reader(
    serving: seq<Request>,     // the entry last popped, while its collector is running
    running: seq<State>,       // that collector
    buf: seq<byte>,
    parsed: nat,               // history: frames consumed
    eof: bool)                 // history: end of stream seen

  datatype Conn = Conn(w: Writer, sv: Backend, rd: Reader, answers: map<nat, Outcome>)

  const NEW := Conn(Writer(0, [], Gathering, [], [], [], [], 0, []), Backend([], Ready, false, [], [], [], 0, 0),
                    Reader([], [], [], 0, false), map[])

  ghost predicate Init(s: Conn) { s == NEW }

  // ----- submitters and writer -----

  ghost predicate Submit(s: Conn, t: Conn) {
    exists r: Request ::
      WellShaped(r.msgs) && r.slot == s.w.nextSlot
        && t == s.(w := s.w.(nextSlot := r.slot + 1, queue := s.w.queue + [r]))
  }

  ghost predicate Take(s: Conn, t: Conn) {
    && s.w.phase == Gathering && s.w.queue != []
    && var r := s.w.queue[0];
       t == s.(w := s.w.(queue := s.w.queue[1..], batch := s.w.batch + [r], buf := s.w.buf + r.msgs,
           taken := s.w.taken + [r]))
  }

  ghost predicate BeginWrite(s: Conn, t: Conn) {
    s.w.phase == Gathering && s.w.batch != [] && t == s.(w := s.w.(phase := Writing))
  }

  ghost predicate Transmit(s: Conn, t: Conn) {
    && s.w.phase == Writing
    && exists n: nat ::
         n <= |s.w.buf| && t == s.(w := s.w.(buf := s.w.buf[n..]), sv := s.sv.(inbox := s.sv.inbox + s.w.buf[..n]))
  }

  /** Only after the whole batch is written are its entries appended to `pending`. */
  ghost predicate Enqueue(s: Conn, t: Conn) {
    && s.w.phase == Writing && s.w.buf == []
    && t == s.(w := s.w.(phase := Gathering, pending := s.w.pending + s.w.batch, batch := []))
  }

  /** The error sent to a batch that could not be written, and `drain_pending_on_exit`. */
  ghost predicate WriterExits(s: Conn, t: Conn) {
    && (s.w.phase == Writing || (s.w.phase == Gathering && s.w.queue == [] && s.w.batch == []))
    && t == s.(w := s.w.(phase := Exited, pending := [], batch := [], buf := [], unsent := s.w.buf),
               answers := s.answers + SendAll(s.w.pending, Drained) + SendAll(s.w.batch, WriteFailed))
  }

  /** The same outcome sent to each of `rs`. */
  function SendAll(rs: seq<Request>, o: Outcome): map<nat, Outcome> {
    if rs == [] then map[] else SendAll(rs[..|rs| - 1], o)[rs[|rs| - 1].slot := o]
  }

  // ----- server -----

  function Frames(sent: seq<Sent>): (fs: seq<Frame>)
    ensures |fs| == |sent|
  {
    seq(|sent|, i requires 0 <= i < |sent| => sent[i].frame)
  }

  function Caused(out: seq<Frame>, cause: int): (r: seq<Sent>)
    ensures |r| == |out|
  {
    seq(|out|, i requires 0 <= i < |out| => Sent(out[i], cause))
  }

  /** COPY FROM STDIN is only ever sent through `copy_in`. */
  ghost predicate MayReact(taken: seq<Request>, sv: Backend, out: seq<Frame>, m: Mode) {
    && !sv.closed && sv.inbox != [] && sv.atRequest < |taken|
    && Reacts(sv.mode, sv.inbox[0], out, m)
    && (m == CopyingIn ==> CopyInRequest(taken[sv.atRequest].msgs))
  }

  function Reacted(taken: seq<Request>, sv: Backend, out: seq<Frame>, m: Mode): Backend
    requires sv.inbox != [] && sv.atRequest < |taken|
  {
    var last := sv.atMessage + 1 == |taken[sv.atRequest].msgs|;
    Backend(sv.inbox[1..], m, sv.closed, sv.wire + FlatFrames(out), sv.lost, sv.sent + Caused(out, sv.atRequest),
           if last then sv.atRequest + 1 else sv.atRequest, if last then 0 else sv.atMessage + 1)
  }

  ghost predicate ServerReacts(s: Conn, t: Conn) {
    exists out: seq<Frame>, m: Mode :: MayReact(s.w.taken, s.sv, out, m)
        && t == s.(sv := Reacted(s.w.taken, s.sv, out, m))
  }

  ghost predicate ServerAsync(s: Conn, t: Conn) {
    && !s.sv.closed
    && exists f: Frame ::
         Asynchronous(f) && t == s.(sv := s.sv.(wire := s.sv.wire + FrameBytes(f),
             sent := s.sv.sent + [Sent(f, ASYNC)]))
  }

  /** The connection ends (a crash, or Terminate); bytes still in flight may be lost. */
  ghost predicate ServerCloses(s: Conn, t: Conn) {
    exists n: nat :: n <= |s.sv.wire| && t == s.(sv := s.sv.(closed := true, wire := s.sv.wire[..n],
        lost := s.sv.wire[n..] + s.sv.lost))
  }

  // ----- reader -----

  ghost predicate Pop(s: Conn, t: Conn) {
    && s.rd.running == [] && s.w.pending != []
    && t == s.(w := s.w.(pending := s.w.pending[1..], popped := s.w.popped + 1),
             rd := s.rd.(serving := [s.w.pending[0]], running := [START]))
  }

  ghost predicate ReadChunk(s: Conn, t: Conn) {
    && s.rd.running != [] && ParseFrame(s.rd.buf).Incomplete?
    && exists n: nat ::
         0 < n <= |s.sv.wire| && t == s.(rd := s.rd.(buf := s.rd.buf + s.sv.wire[..n]),
             sv := s.sv.(wire := s.sv.wire[n..]))
  }

  ghost predicate Consume(s: Conn, t: Conn) {
    && |s.rd.running| == |s.rd.serving| == 1 && ParseFrame(s.rd.buf).Parsed?
    && var pr, p := s.rd.serving[0], ParseFrame(s.rd.buf);
       var c := Step(pr.kind, s.rd.running[0], p.frame);
       t == if c.Finished?
            then s.(rd := Reader([], [], p.rest, s.rd.parsed + 1, s.rd.eof),
                answers := s.answers[pr.slot := Delivered(c.answer, c.feed)])
            else s.(rd := Reader([pr], [c], p.rest, s.rd.parsed + 1, s.rd.eof))
  }

  ghost predicate EndOfFile(s: Conn, t: Conn) {
    && |s.rd.running| == |s.rd.serving| == 1
    && s.sv.closed && s.sv.wire == [] && ParseFrame(s.rd.buf).Incomplete?
    && var pr := s.rd.serving[0];
       var (a, fd) := Lose(pr.kind, s.rd.running[0], ConnectionClosed);
       t == s.(rd := s.rd.(serving := [], running := [], eof := true),
           answers := s.answers[pr.slot := ConnectionLost(a, fd)])
  }

  /** A caller that gives up only drops its receiver; its reply is still read, and sent to it in vain. */
  ghost predicate CallerCancels(s: Conn, t: Conn) { t == s }

  ghost predicate Next(s: Conn, t: Conn) {
    || Submit(s, t) || Take(s, t) || BeginWrite(s, t) || Transmit(s, t) || Enqueue(s, t) || WriterExits(s, t)
    || ServerReacts(s, t) || ServerAsync(s, t) || ServerCloses(s, t)
    || Pop(s, t) || ReadChunk(s, t) || Consume(s, t) || EndOfFile(s, t) || CallerCancels(s, t)
  }

  // ----- invariant -----

  function Messages(rs: seq<Request>): seq<Message> {
    if rs == [] then [] else rs[0].msgs + Messages(rs[1..])
  }

  /** `pending` and `batch` are consecutive stretches of the requests taken, in the order they were taken. */
  ghost predicate QueueInv(w: Writer) {
    && (forall r :: r in w.queue ==> WellShaped(r.msgs))
    && (forall r :: r in w.taken ==> WellShaped(r.msgs))
    && w.popped <= |w.taken|
    && (if w.phase == Exited then w.pending == [] && w.batch == [] && w.buf == []
        else w.taken[w.popped..] == w.pending + w.batch)
  }

  /** Requests are taken in the order of their slots, and the reader serves the last one popped. */
  ghost predicate SlotInv(w: Writer, rd: Reader) {
    && (forall i :: 0 <= i < |w.taken| ==> w.taken[i].slot == i)
    && (forall i :: 0 <= i < |w.queue| ==> w.queue[i].slot == |w.taken| + i)
    && w.nextSlot == |w.taken| + |w.queue|
    && |rd.serving| == |rd.running|
    && (rd.running != [] ==> 0 < w.popped <= |w.taken| && rd.serving[0] == w.taken[w.popped - 1])
  }

  /** How many requests the reader is through with. */
  function Served(popped: nat, running: seq<State>): int {
    if running == [] then popped else popped - 1
  }

  ghost predicate RunningInv(popped: nat, running: seq<State>) {
    |running| <= 1 && (running != [] ==> popped > 0 && !running[0].Finished?)
  }

  /** Requests are answered in order, none is skipped, and only a writer that exits answers requests ahead of the
      reader. */
  ghost predicate AnswerOrder(w: Writer, running: seq<State>, answers: map<nat, Outcome>) {
    forall i :: i in answers <==>
      0 <= i < |w.taken| && (i < Served(w.popped, running) || (w.phase == Exited && i >= w.popped))
  }

  /** What the server has not processed yet is in the socket or still in the write buffer, and in order. */
  ghost predicate FeedInv(w: Writer, sv: Backend) {
    && sv.atRequest <= |w.taken|
    && (if sv.atRequest < |w.taken| then sv.atMessage < |w.taken[sv.atRequest].msgs| else sv.atMessage == 0)
    && sv.atMessage <= |Messages(w.taken[sv.atRequest..])|
    && sv.inbox + (w.buf + w.unsent) == Messages(w.taken[sv.atRequest..])[sv.atMessage..]
    && (w.phase != Exited ==> w.unsent == [])
  }

  ghost predicate PlaceInv(taken: seq<Request>, sv: Backend) {
    && sv.atRequest <= |taken|
    && var replies := |Complete(Frames(sv.sent))|;
       && sv.atRequest <= replies <= sv.atRequest + 1
       && (sv.atMessage == 0 ==> replies == sv.atRequest && sv.mode == Ready)
       && (sv.atRequest == |taken| ==> sv.atMessage == 0)
       && (sv.atRequest < |taken| ==> InRequest(taken[sv.atRequest].msgs, sv.atMessage, sv.mode,
          replies > sv.atRequest))
  }

  /** Every frame of reply `i` was provoked by request `i` or is asynchronous. */
  ghost predicate CauseInv(sent: seq<Sent>) {
    && (forall j :: 0 <= j < |sent| ==> WellFormed(sent[j].frame))
    && (forall j :: 0 <= j < |sent| ==> sent[j].cause == ASYNC || sent[j].cause == ReplyIndex(Frames(sent), j))
    && (forall j :: 0 <= j < |sent| && sent[j].frame.tag == READY_FOR_QUERY ==> sent[j].cause != ASYNC)
  }

  ghost predicate WireInv(sv: Backend, rd: Reader) {
    && rd.parsed <= |sv.sent|
    && rd.buf + (sv.wire + sv.lost) == FlatFrames(Frames(sv.sent)[rd.parsed..])
    && (!sv.closed ==> sv.lost == [])
    && (rd.eof ==> sv.closed && sv.wire == [] && ParseFrame(rd.buf).Incomplete?)
  }

  /** The running collector has been given exactly the frames of its own reply read so far. */
  ghost predicate CollectInv(taken: seq<Request>, popped: nat, fs: seq<Frame>, rd: Reader) {
    && RunningInv(popped, rd.running) && popped <= |taken| && rd.parsed <= |fs|
    && var seen := fs[..rd.parsed];
       && Served(popped, rd.running) >= |Complete(seen)|
       && (!rd.eof ==>
            && Served(popped, rd.running) == |Complete(seen)|
            && (rd.running == [] ==> Partial(seen) == [])
            && (rd.running != [] ==> rd.running[0] == Run(taken[popped - 1].kind, START, Partial(seen))))
       && (rd.eof && rd.running != [] ==> rd.running[0] == START)
  }

  /** What of reply `i` is among the first `j` frames of the stream, if they end inside it. */
  function ReadOf(fs: seq<Frame>, i: nat, j: int): seq<Frame>
    requires j <= |fs|
  {
    if j >= 0 && |Complete(fs[..j])| == i then Partial(fs[..j]) else []
  }

  /** Outcome `o` is what a collector of kind `k` makes of the part of reply `i` among the first `j` frames. */
  ghost predicate CutOff(k: Kind, fs: seq<Frame>, i: nat, j: int, o: Outcome)
    requires o.ConnectionLost?
  {
    j <= |fs| && (o.answer, o.feed) == Collectors.Outcome(k, ReadOf(fs, i, j))
  }

  /** The answer delivered to request `i` is its collector's report on reply `i`, complete and as sent; if the
      connection was lost, on what was read of it. */
  ghost predicate FromOwnReply(taken: seq<Request>, fs: seq<Frame>, i: nat, o: Outcome) {
    && (o.Delivered? ==>
          && i < |taken| && i < |Complete(fs)|
          && (o.answer, o.feed) == Collectors.Outcome(taken[i].kind, Complete(fs)[i]))
    && (o.ConnectionLost? ==> i < |taken| && exists j: int :: CutOff(taken[i].kind, fs, i, j, o))
  }

  ghost predicate AnswerInv(taken: seq<Request>, fs: seq<Frame>, answers: map<nat, Outcome>) {
    forall i :: i in answers ==> FromOwnReply(taken, fs, i, answers[i])
  }

  ghost predicate CoreInv(s: Conn) {
    && QueueInv(s.w)
    && AnswerOrder(s.w, s.rd.running, s.answers)
    && FeedInv(s.w, s.sv)
    && PlaceInv(s.w.taken, s.sv)
    && CauseInv(s.sv.sent)
    && WireInv(s.sv, s.rd)
    && CollectInv(s.w.taken, s.w.popped, Frames(s.sv.sent), s.rd)
    && AnswerInv(s.w.taken, Frames(s.sv.sent), s.answers)
  }

  ghost predicate Inv(s: Conn) { CoreInv(s) && SlotInv(s.w, s.rd) }

  // ----- the invariant is inductive -----

  lemma InitInv(s: Conn)
    requires Init(s)
    ensures Inv(s)
  {
  }

  lemma {:induction false} MessagesAppend(a: seq<Request>, r: Request)
    ensures Messages(a + [r]) == Messages(a) + r.msgs
  {
    if a == [] {
      assert a + [r] == [r];
      assert r.msgs + Messages([]) == r.msgs;
    } else {
      assert (a + [r])[1..] == a[1..] + [r];
      MessagesAppend(a[1..], r);
    }
  }

  lemma TakeFeeds(w: Writer, w': Writer, sv: Backend, r: Request)
    requires FeedInv(w, sv) && PlaceInv(w.taken, sv) && w.phase != Exited && WellShaped(r.msgs)
    requires w' == w.(queue := w'.queue, batch := w'.batch, buf := w.buf + r.msgs, taken := w.taken + [r])
    ensures FeedInv(w', sv) && PlaceInv(w'.taken, sv)
  {
    assert w'.taken[sv.atRequest..] == w.taken[sv.atRequest..] + [r];
    MessagesAppend(w.taken[sv.atRequest..], r);
    assert Messages(w'.taken[sv.atRequest..])[sv.atMessage..]
        == Messages(w.taken[sv.atRequest..])[sv.atMessage..] + r.msgs;
    assert sv.inbox + (w'.buf + w'.unsent) == (sv.inbox + (w.buf + w.unsent)) + r.msgs;
  }

  /** Requests taken later do not disturb what is known about earlier ones. */
  lemma TakenGrows(taken: seq<Request>, r: Request, popped: nat, fs: seq<Frame>, rd: Reader, answers: map<nat, Outcome>)
    requires CollectInv(taken, popped, fs, rd) && AnswerInv(taken, fs, answers)
    ensures CollectInv(taken + [r], popped, fs, rd) && AnswerInv(taken + [r], fs, answers)
  {
    forall i | i in answers ensures FromOwnReply(taken + [r], fs, i, answers[i]) {
      assert FromOwnReply(taken, fs, i, answers[i]);
      assert i < |taken| ==> (taken + [r])[i] == taken[i];
    }
  }

  lemma TakeInv(s: Conn, t: Conn)
    requires CoreInv(s) && Take(s, t)
    ensures CoreInv(t)
  {
    hide FeedInv, PlaceInv, CauseInv, WireInv, CollectInv, AnswerInv, FromOwnReply;
    var r := s.w.queue[0];
    assert r in s.w.queue;
    TakeFeeds(s.w, t.w, s.sv, r);
    TakenGrows(s.w.taken, r, s.w.popped, Frames(s.sv.sent), s.rd, s.answers);
    assert t.w.taken[t.w.popped..] == s.w.taken[s.w.popped..] + [r];
  }

  lemma TransmitFeeds(w: Writer, sv: Backend, w': Writer, sv': Backend, n: nat)
    requires FeedInv(w, sv) && n <= |w.buf|
    requires w' == w.(buf := w.buf[n..]) && sv' == sv.(inbox := sv.inbox + w.buf[..n])
    ensures FeedInv(w', sv')
  {
    assert sv'.inbox + (w'.buf + w'.unsent) == sv.inbox + (w.buf + w.unsent) by { Seqs.SplitAt(w.buf, n); }
  }

  lemma TransmitInv(s: Conn, t: Conn)
    requires CoreInv(s) && Transmit(s, t)
    ensures CoreInv(t)
  {
    var n: nat :| n <= |s.w.buf|
      && t == s.(w := s.w.(buf := s.w.buf[n..]), sv := s.sv.(inbox := s.sv.inbox + s.w.buf[..n]));
    TransmitFeeds(s.w, s.sv, t.w, t.sv, n);
  }

  lemma WriterMovesInv(s: Conn, t: Conn)
    requires CoreInv(s) && (Submit(s, t) || BeginWrite(s, t) || Enqueue(s, t))
    ensures CoreInv(t)
  {
    assert s.w.pending + s.w.batch + [] == s.w.pending + s.w.batch;
  }

  /** Sending to requests with consecutive slots. */
  lemma {:induction false} SendAllIs(rs: seq<Request>, lo: nat, o: Outcome)
    requires forall k :: 0 <= k < |rs| ==> rs[k].slot == lo + k
    ensures forall i :: i in SendAll(rs, o) <==> lo <= i < lo + |rs|
    ensures forall i :: i in SendAll(rs, o) ==> SendAll(rs, o)[i] == o
  {
    if rs != [] { SendAllIs(rs[..|rs| - 1], lo, o); }
  }

  /** What a writer that exits sends, and to whom. */
  lemma ExitSlots(w: Writer, rd: Reader)
    requires QueueInv(w) && SlotInv(w, rd) && w.phase != Exited
    ensures |w.taken| == w.popped + |w.pending| + |w.batch|
    ensures forall i :: i in SendAll(w.pending, Drained) <==> w.popped <= i < w.popped + |w.pending|
    ensures forall i :: i in SendAll(w.batch, WriteFailed) <==> w.popped + |w.pending| <= i < |w.taken|
    ensures forall i :: i in SendAll(w.pending, Drained) ==> SendAll(w.pending, Drained)[i] == Drained
    ensures forall i :: i in SendAll(w.batch, WriteFailed) ==> SendAll(w.batch, WriteFailed)[i] == WriteFailed
  {
    var left := w.taken[w.popped..];
    forall k | 0 <= k < |w.pending| ensures w.pending[k].slot == w.popped + k { assert w.pending[k] == left[k]; }
    forall k | 0 <= k < |w.batch| ensures w.batch[k].slot == w.popped + |w.pending| + k {
      assert w.batch[k] == left[|w.pending| + k];
    }
    SendAllIs(w.pending, w.popped, Drained);
    SendAllIs(w.batch, w.popped + |w.pending|, WriteFailed);
  }

  lemma WriterExitInv(s: Conn, t: Conn)
    requires CoreInv(s) && SlotInv(s.w, s.rd) && WriterExits(s, t)
    ensures CoreInv(t)
  {
    hide PlaceInv, CauseInv, WireInv, CollectInv, AnswerInv;
    ExitSlots(s.w, s.rd);
    ExitAnswers(s.w.taken, Frames(s.sv.sent), s.answers, t.answers);
    assert s.w.buf + [] == s.w.buf == [] + s.w.buf;
  }

  /** An answer that delivers nothing claims nothing. */
  lemma ExitAnswers(taken: seq<Request>, fs: seq<Frame>, answers: map<nat, Outcome>, answers': map<nat, Outcome>)
    requires AnswerInv(taken, fs, answers)
    requires forall i :: i in answers' ==>
               answers'[i].Drained? || answers'[i].WriteFailed? || (i in answers && answers'[i] == answers[i])
    ensures AnswerInv(taken, fs, answers')
  {
  }

  lemma PopQueue(w: Writer, w': Writer)
    requires QueueInv(w) && w.pending != [] && w' == w.(pending := w.pending[1..], popped := w.popped + 1)
    ensures QueueInv(w')
  {
    assert |w.taken[w.popped..]| > 0;
    assert w.taken[w'.popped..] == w.taken[w.popped..][1..];
    assert (w.pending + w.batch)[1..] == w.pending[1..] + w.batch;
  }

  lemma PopInv(s: Conn, t: Conn)
    requires CoreInv(s) && Pop(s, t)
    ensures CoreInv(t)
  {
    PopQueue(s.w, t.w);
  }

  lemma ChunkArrives(sv: Backend, rd: Reader, sv': Backend, rd': Reader, n: nat)
    requires WireInv(sv, rd) && 0 < n <= |sv.wire|
    requires sv' == sv.(wire := sv.wire[n..]) && rd' == rd.(buf := rd.buf + sv.wire[..n])
    ensures WireInv(sv', rd')
  {
    Seqs.SplitAt(sv.wire, n);
    Seqs.Assoc(sv.wire[..n], sv.wire[n..], sv.lost);
    Seqs.Assoc(rd.buf, sv.wire[..n], sv.wire[n..] + sv.lost);
  }

  lemma ReadChunkInv(s: Conn, t: Conn)
    requires CoreInv(s) && ReadChunk(s, t)
    ensures CoreInv(t)
  {
    var n: nat :| 0 < n <= |s.sv.wire|
      && t == s.(rd := s.rd.(buf := s.rd.buf + s.sv.wire[..n]), sv := s.sv.(wire := s.sv.wire[n..]));
    ChunkArrives(s.sv, s.rd, t.sv, t.rd, n);
  }

  lemma WireCut(sv: Backend, rd: Reader, sv': Backend, n: nat)
    requires WireInv(sv, rd) && n <= |sv.wire|
    requires sv' == sv.(closed := true, wire := sv.wire[..n], lost := sv.wire[n..] + sv.lost)
    ensures WireInv(sv', rd)
  {
    Seqs.SplitAt(sv.wire, n);
    Seqs.Assoc(sv.wire[..n], sv.wire[n..], sv.lost);
  }

  lemma ServerClosesInv(s: Conn, t: Conn)
    requires CoreInv(s) && ServerCloses(s, t)
    ensures CoreInv(t)
  {
    var n: nat :| n <= |s.sv.wire|
      && t == s.(sv := s.sv.(closed := true, wire := s.sv.wire[..n], lost := s.sv.wire[n..] + s.sv.lost));
    WireCut(s.sv, s.rd, t.sv, n);
  }

  /** The running collector's request is the one answered next. */
  lemma AnswerNext(w: Writer, running: seq<State>, answers: map<nat, Outcome>, o: Outcome)
    requires AnswerOrder(w, running, answers) && running != [] && 0 < w.popped <= |w.taken|
    ensures w.popped - 1 !in answers
    ensures AnswerOrder(w, [], answers[w.popped - 1 := o])
  {
  }

  lemma AnswerAdded(taken: seq<Request>, fs: seq<Frame>, answers: map<nat, Outcome>, i: nat, o: Outcome)
    requires AnswerInv(taken, fs, answers) && FromOwnReply(taken, fs, i, o)
    ensures AnswerInv(taken, fs, answers[i := o])
  {
  }

  lemma LostInside(taken: seq<Request>, popped: nat, fs: seq<Frame>, rd: Reader, o: Outcome)
    requires CollectInv(taken, popped, fs, rd) && rd.running != [] && o.ConnectionLost?
    requires (o.answer, o.feed) == Lose(taken[popped - 1].kind, rd.running[0], ConnectionClosed)
    ensures FromOwnReply(taken, fs, popped - 1, o)
  {
    var j := if rd.eof then -1 else rd.parsed;
    assert CutOff(taken[popped - 1].kind, fs, popped - 1, j, o);
  }

  lemma EndOfFileInv(s: Conn, t: Conn)
    requires CoreInv(s) && SlotInv(s.w, s.rd) && EndOfFile(s, t)
    ensures CoreInv(t)
  {
    var i := s.w.popped - 1;
    AnswerNext(s.w, s.rd.running, s.answers, t.answers[i]);
    LostInside(s.w.taken, s.w.popped, Frames(s.sv.sent), s.rd, t.answers[i]);
    AnswerAdded(s.w.taken, Frames(s.sv.sent), s.answers, i, t.answers[i]);
  }

  // ----- the server moves -----

  lemma FramesAppend(a: seq<Sent>, out: seq<Frame>, cause: int)
    ensures Frames(a + Caused(out, cause)) == Frames(a) + out
  {
  }

  lemma FramesPrefix(a: seq<Sent>, b: seq<Sent>, j: nat)
    requires j <= |a|
    ensures Frames(a + b)[..j] == Frames(a)[..j]
  {
  }

  lemma ReactFeeds(w: Writer, sv: Backend, out: seq<Frame>, m: Mode)
    requires FeedInv(w, sv) && QueueInv(w) && MayReact(w.taken, sv, out, m)
    ensures sv.inbox[0] == w.taken[sv.atRequest].msgs[sv.atMessage]
    ensures FeedInv(w, Reacted(w.taken, sv, out, m))
  {
    var r, p := sv.atRequest, sv.atMessage;
    var here, later := w.taken[r].msgs, Messages(w.taken[r + 1..]);
    assert w.taken[r..][1..] == w.taken[r + 1..];
    assert Messages(w.taken[r..]) == here + later;
    var rest := (here + later)[p..];
    assert rest[0] == here[p] && rest[1..] == (here + later)[p + 1..];
    assert p + 1 == |here| ==> (here + later)[p + 1..] == later == later[0..];
    if r + 1 < |w.taken| { assert w.taken[r + 1] in w.taken; }
    assert sv.inbox[1..] + (w.buf + w.unsent) == (sv.inbox + (w.buf + w.unsent))[1..];
  }

  lemma ReactPlace(taken: seq<Request>, sv: Backend, out: seq<Frame>, m: Mode)
    requires PlaceInv(taken, sv) && MayReact(taken, sv, out, m)
    requires WellShaped(taken[sv.atRequest].msgs) && sv.atMessage < |taken[sv.atRequest].msgs|
    requires sv.inbox[0] == taken[sv.atRequest].msgs[sv.atMessage]
    ensures PlaceInv(taken, Reacted(taken, sv, out, m))
    ensures Quiet(out) || Replies1(out)
    ensures out != [] ==> |Complete(Frames(sv.sent))| == sv.atRequest
  {
    var r, fs := sv.atRequest, Frames(sv.sent);
    OneReplyPerRequest(taken[r].msgs, sv.atMessage, sv.mode, |Complete(fs)| > r, out, m);
    FramesAppend(sv.sent, out, r);
    if Segment(out) { ExtendReply(fs, out); } else { ExtendQuiet(fs, out); }
  }

  lemma ReactCauses(sent: seq<Sent>, out: seq<Frame>, cause: nat)
    requires CauseInv(sent) && (Quiet(out) || Replies1(out))
    requires out != [] ==> |Complete(Frames(sent))| == cause
    ensures CauseInv(sent + Caused(out, cause))
  {
    var all := sent + Caused(out, cause);
    FramesAppend(sent, out, cause);
    forall j | 0 <= j < |all|
      ensures WellFormed(all[j].frame)
      ensures all[j].cause == ASYNC || all[j].cause == ReplyIndex(Frames(all), j)
    {
      if j < |sent| {
        FramesPrefix(sent, Caused(out, cause), j);
      } else {
        var k := j - |sent|;
        assert out[k] in out;
        assert Frames(all)[..j] == Frames(sent) + out[..k];
        assert forall f :: f in out[..k] ==> f in out[..|out| - 1] by {
          assert out[..k] == out[..|out| - 1][..k];
        }
        ExtendQuiet(Frames(sent), out[..k]);
      }
    }
  }

  lemma StillCutOff(k: Kind, fs: seq<Frame>, out: seq<Frame>, i: nat, j: int, o: Outcome)
    requires o.ConnectionLost? && CutOff(k, fs, i, j, o)
    ensures CutOff(k, fs + out, i, j, o)
  {
    if j >= 0 { assert (fs + out)[..j] == fs[..j]; }
  }

  lemma SentGrows(taken: seq<Request>, popped: nat, fs: seq<Frame>, out: seq<Frame>, rd: Reader,
      answers: map<nat, Outcome>)
    requires CollectInv(taken, popped, fs, rd) && AnswerInv(taken, fs, answers)
    ensures CollectInv(taken, popped, fs + out, rd) && AnswerInv(taken, fs + out, answers)
  {
    assert (fs + out)[..rd.parsed] == fs[..rd.parsed];
    CompleteGrows(fs, out);
    forall i | i in answers ensures FromOwnReply(taken, fs + out, i, answers[i]) {
      assert FromOwnReply(taken, fs, i, answers[i]);
      if answers[i].ConnectionLost? {
        var j :| CutOff(taken[i].kind, fs, i, j, answers[i]);
        StillCutOff(taken[i].kind, fs, out, i, j, answers[i]);
      }
    }
  }

  lemma WireGrows(sv: Backend, rd: Reader, sv': Backend, out: seq<Frame>)
    requires WireInv(sv, rd) && !sv.closed
    requires sv'.closed == sv.closed && sv'.lost == sv.lost && sv'.wire == sv.wire + FlatFrames(out)
        && Frames(sv'.sent) == Frames(sv.sent) + out
    ensures WireInv(sv', rd)
  {
    var ahead := Frames(sv.sent)[rd.parsed..];
    assert |Frames(sv'.sent)| == |sv'.sent|;
    assert Frames(sv'.sent)[rd.parsed..] == ahead + out;
    FlatFramesAppend(ahead, out);
    Seqs.Assoc(rd.buf, sv.wire, FlatFrames(out));
    assert sv'.wire + sv'.lost == sv'.wire && sv.wire + sv.lost == sv.wire;
  }

  lemma ServerReactsInv(s: Conn, t: Conn)
    requires CoreInv(s) && ServerReacts(s, t)
    ensures CoreInv(t)
  {
    var out: seq<Frame>, m: Mode :| MayReact(s.w.taken, s.sv, out, m)
        && t == s.(sv := Reacted(s.w.taken, s.sv, out, m));
    assert s.w.taken[s.sv.atRequest] in s.w.taken;
    ReactFeeds(s.w, s.sv, out, m);
    ReactPlace(s.w.taken, s.sv, out, m);
    ReactCauses(s.sv.sent, out, s.sv.atRequest);
    FramesAppend(s.sv.sent, out, s.sv.atRequest);
    SentGrows(s.w.taken, s.w.popped, Frames(s.sv.sent), out, s.rd, s.answers);
    WireGrows(s.sv, s.rd, t.sv, out);
  }

  lemma AsyncPlace(w: Writer, sv: Backend, sv': Backend, f: Frame)
    requires FeedInv(w, sv) && PlaceInv(w.taken, sv) && Asynchronous(f)
    requires sv' == sv.(wire := sv'.wire, sent := sv.sent + [Sent(f, ASYNC)])
    ensures FeedInv(w, sv') && PlaceInv(w.taken, sv')
    ensures Frames(sv'.sent) == Frames(sv.sent) + [f]
  {
    assert Caused([f], ASYNC) == [Sent(f, ASYNC)];
    FramesAppend(sv.sent, [f], ASYNC);
    Extend(Frames(sv.sent), f);
  }

  lemma FlatOne(f: Frame)
    ensures FlatFrames([f]) == FrameBytes(f)
  {
    assert [f][1..] == [] && FrameBytes(f) + [] == FrameBytes(f);
  }

  lemma AsyncGrows(s: Conn, t: Conn, f: Frame)
    requires Frames(t.sv.sent) == Frames(s.sv.sent) + [f] && !s.sv.closed && t == s.(sv := t.sv)
    requires t.sv == s.sv.(wire := s.sv.wire + FrameBytes(f), sent := t.sv.sent)
    requires WireInv(s.sv, s.rd)
    requires CollectInv(s.w.taken, s.w.popped, Frames(s.sv.sent), s.rd)
        && AnswerInv(s.w.taken, Frames(s.sv.sent), s.answers)
    ensures WireInv(t.sv, t.rd)
    ensures CollectInv(t.w.taken, t.w.popped, Frames(t.sv.sent), t.rd)
        && AnswerInv(t.w.taken, Frames(t.sv.sent), t.answers)
  {
    FlatOne(f);
    SentGrows(s.w.taken, s.w.popped, Frames(s.sv.sent), [f], s.rd, s.answers);
    WireGrows(s.sv, s.rd, t.sv, [f]);
  }

  lemma ServerAsyncInv(s: Conn, t: Conn)
    requires CoreInv(s) && ServerAsync(s, t)
    ensures CoreInv(t)
  {
    var f: Frame :| Asynchronous(f)
      && t == s.(sv := s.sv.(wire := s.sv.wire + FrameBytes(f), sent := s.sv.sent + [Sent(f, ASYNC)]));
    AsyncPlace(s.w, s.sv, t.sv, f);
    AsyncGrows(s, t, f);
    AsyncCauses(s.sv.sent, f);
  }

  lemma AsyncCauses(sent: seq<Sent>, f: Frame)
    requires CauseInv(sent) && Asynchronous(f)
    ensures CauseInv(sent + [Sent(f, ASYNC)])
  {
    var all := sent + [Sent(f, ASYNC)];
    forall j | 0 <= j < |all| ensures all[j].cause == ASYNC || all[j].cause == ReplyIndex(Frames(all), j) {
      if j < |sent| { FramesPrefix(sent, [Sent(f, ASYNC)], j); }
    }
  }

  // ----- the reader moves -----

  lemma ConsumeWire(sv: Backend, rd: Reader, rd': Reader)
    requires WireInv(sv, rd) && CauseInv(sv.sent) && ParseFrame(rd.buf).Parsed?
    requires rd'.buf == ParseFrame(rd.buf).rest && rd'.parsed == rd.parsed + 1 && rd'.eof == rd.eof
    ensures rd.parsed < |sv.sent| && ParseFrame(rd.buf).frame == Frames(sv.sent)[rd.parsed]
    ensures !rd.eof && WireInv(sv, rd')
  {
    var ahead := Frames(sv.sent)[rd.parsed..];
    ParseArrived(ahead, rd.buf, sv.wire + sv.lost);
    assert ahead[1..] == Frames(sv.sent)[rd'.parsed..];
  }

  /** One more frame for the running collector: it finishes exactly when its reply is complete. */
  lemma ConsumeCollects(k: Kind, before: seq<Frame>, f: Frame)
    requires WellFormed(f) && !Run(k, START, before).Finished? && NoReady(before)
    ensures Step(k, Run(k, START, before), f) == Run(k, START, before + [f])
    ensures Run(k, START, before + [f]).Finished? <==> f.tag == READY_FOR_QUERY
  {
    RunAppend(k, START, before, [f]);
    assert [f][1..] == [];
    if f.tag == READY_FOR_QUERY {
      assert (before + [f])[..|before|] == before;
      StopsAtReady(k, START, before + [f]);
    } else {
      NotDoneBeforeReady(k, START, before + [f]);
    }
  }

  lemma ConsumeProgress(taken: seq<Request>, popped: nat, fs: seq<Frame>, rd: Reader, rd': Reader)
    requires CollectInv(taken, popped, fs, rd) && rd.running != [] && !rd.eof && rd.parsed < |fs|
        && WellFormed(fs[rd.parsed])
    requires rd'.parsed == rd.parsed + 1 && !rd'.eof
    requires var c := Step(taken[popped - 1].kind, rd.running[0], fs[rd.parsed]);
             rd'.running == if c.Finished? then [] else [c]
    ensures CollectInv(taken, popped, fs, rd')
    ensures var c := Step(taken[popped - 1].kind, rd.running[0], fs[rd.parsed]);
            c.Finished? ==> FromOwnReply(taken, fs, popped - 1, Delivered(c.answer, c.feed))
  {
    var seen, f, k := fs[..rd.parsed], fs[rd.parsed], taken[popped - 1].kind;
    assert fs[..rd'.parsed] == seen + [f];
    Extend(seen, f);
    ConsumeCollects(k, Partial(seen), f);
    if f.tag == READY_FOR_QUERY {
      Seqs.SplitAt(fs, rd'.parsed);
      CompleteGrows(seen + [f], fs[rd'.parsed..]);
      assert Complete(fs)[popped - 1] == Complete(seen + [f])[popped - 1] == Partial(seen) + [f];
    }
  }

  lemma ConsumeReads(s: Conn, t: Conn)
    requires Consume(s, t) && WireInv(s.sv, s.rd) && CauseInv(s.sv.sent) && SlotInv(s.w, s.rd)
    requires CollectInv(s.w.taken, s.w.popped, Frames(s.sv.sent), s.rd)
    ensures WireInv(t.sv, t.rd) && CollectInv(t.w.taken, t.w.popped, Frames(t.sv.sent), t.rd)
    ensures var i := s.w.popped - 1;
            if t.rd.running == [] then
              i in t.answers && t.answers == s.answers[i := t.answers[i]]
                  && FromOwnReply(t.w.taken, Frames(t.sv.sent), i, t.answers[i])
            else t.answers == s.answers
  {
    ConsumeWire(s.sv, s.rd, t.rd);
    assert Frames(s.sv.sent)[s.rd.parsed] == s.sv.sent[s.rd.parsed].frame;
    ConsumeProgress(s.w.taken, s.w.popped, Frames(s.sv.sent), s.rd, t.rd);
  }

  lemma ConsumeAnswers(w: Writer, running: seq<State>, running': seq<State>, fs: seq<Frame>, answers: map<nat, Outcome>,
      answers': map<nat, Outcome>)
    requires running != [] && 0 < w.popped <= |w.taken| && AnswerOrder(w, running, answers)
        && AnswerInv(w.taken, fs, answers)
    requires var i := w.popped - 1;
             if running' == [] then i in answers' && answers' == answers[i := answers'[i]]
                 && FromOwnReply(w.taken, fs, i, answers'[i])
             else answers' == answers
    ensures AnswerOrder(w, running', answers') && AnswerInv(w.taken, fs, answers')
  {
    if running' == [] {
      var i := w.popped - 1;
      AnswerNext(w, running, answers, answers'[i]);
      AnswerAdded(w.taken, fs, answers, i, answers'[i]);
    } else {
      assert Served(w.popped, running') == Served(w.popped, running);
    }
  }

  lemma ConsumeInv(s: Conn, t: Conn)
    requires CoreInv(s) && SlotInv(s.w, s.rd) && Consume(s, t)
    ensures CoreInv(t)
  {
    hide QueueInv, FeedInv, PlaceInv, CauseInv, WireInv, CollectInv, AnswerOrder, AnswerInv, FromOwnReply;
    ConsumeReads(s, t);
    assert t.w == s.w && t.sv == s.sv;
    ConsumeAnswers(s.w, s.rd.running, t.rd.running, Frames(s.sv.sent), s.answers, t.answers);
  }

  lemma SlotSubmit(s: Conn, t: Conn)
    requires SlotInv(s.w, s.rd) && s.w.popped <= |s.w.taken| && (Submit(s, t) || Take(s, t))
    ensures SlotInv(t.w, t.rd)
  {
    if Submit(s, t) {
      var r: Request :| WellShaped(r.msgs) && r.slot == s.w.nextSlot
        && t == s.(w := s.w.(nextSlot := r.slot + 1, queue := s.w.queue + [r]));
    }
  }

  lemma SlotPop(s: Conn, t: Conn)
    requires QueueInv(s.w) && SlotInv(s.w, s.rd) && Pop(s, t)
    ensures SlotInv(t.w, t.rd)
  {
    assert s.w.pending[0] == s.w.taken[s.w.popped..][0];
  }

  lemma TakenCount(w: Writer)
    requires QueueInv(w)
    ensures w.popped <= |w.taken|
  {
  }

  lemma SlotReader(s: Conn, t: Conn)
    requires SlotInv(s.w, s.rd) && (Consume(s, t) || EndOfFile(s, t))
    ensures SlotInv(t.w, t.rd)
  {
    hide ParseFrame, Step, Lose;
  }

  lemma SlotStay(s: Conn, t: Conn)
    requires SlotInv(s.w, s.rd)
    requires BeginWrite(s, t) || Transmit(s, t) || Enqueue(s, t) || WriterExits(s, t) || ServerReacts(s, t)
          || ServerAsync(s, t) || ServerCloses(s, t) || ReadChunk(s, t) || CallerCancels(s, t)
    ensures SlotInv(t.w, t.rd)
  {
    hide ParseFrame, SendAll, MayReact, Reacted, Asynchronous;
    SameSlots(s.w, t.w, s.rd, t.rd);
  }

  lemma SameSlots(w: Writer, w': Writer, rd: Reader, rd': Reader)
    requires SlotInv(w, rd) && w' == w.(phase := w'.phase, batch := w'.batch, buf := w'.buf, pending := w'.pending,
      unsent := w'.unsent)
    requires rd' == rd.(buf := rd'.buf)
    ensures SlotInv(w', rd')
  {
  }

  /** The slots on their own: they do not depend on what the server sends. */
  lemma SlotStep(s: Conn, t: Conn)
    requires QueueInv(s.w) && SlotInv(s.w, s.rd) && Next(s, t)
    ensures SlotInv(t.w, t.rd)
  {
    hide Submit, Take, Pop, SlotInv, QueueInv;
    if Submit(s, t) || Take(s, t) {
      assert s.w.popped <= |s.w.taken| by { TakenCount(s.w); }
      SlotSubmit(s, t);
    } else if Pop(s, t) {
      SlotPop(s, t);
    } else if Consume(s, t) || EndOfFile(s, t) {
      SlotReader(s, t);
    } else {
      SlotStay(s, t);
    }
  }

  // ----- results -----

  lemma NextInv(s: Conn, t: Conn)
    requires Inv(s) && Next(s, t)
    ensures Inv(t)
  {
    SlotStep(s, t);
    if Submit(s, t) || BeginWrite(s, t) || Enqueue(s, t) { WriterMovesInv(s, t); }
    else if Take(s, t) { TakeInv(s, t); }
    else if Transmit(s, t) { TransmitInv(s, t); }
    else if WriterExits(s, t) { WriterExitInv(s, t); }
    else if ServerReacts(s, t) { ServerReactsInv(s, t); }
    else if ServerAsync(s, t) { ServerAsyncInv(s, t); }
    else if ServerCloses(s, t) { ServerClosesInv(s, t); }
    else if Pop(s, t) { PopInv(s, t); }
    else if ReadChunk(s, t) { ReadChunkInv(s, t); }
    else if Consume(s, t) { ConsumeInv(s, t); }
    else if EndOfFile(s, t) { EndOfFileInv(s, t); }
  }

  ghost predicate IsRun(trace: seq<Conn>) {
    trace != [] && Init(trace[0]) && forall n :: 0 <= n < |trace| - 1 ==> Next(trace[n], trace[n + 1])
  }

  lemma {:induction false} RunInv(trace: seq<Conn>, n: nat)
    requires IsRun(trace) && n < |trace|
    ensures Inv(trace[n])
  {
    if n == 0 {
      InitInv(trace[0]);
    } else {
      RunInv(trace, n - 1);
      NextInv(trace[n - 1], trace[n]);
    }
  }

  /** What a caller may be told about a whole reply. */
  ghost predicate ReportsReply(k: Kind, o: Outcome, reply: seq<Frame>)
    requires o.Delivered? && Segment(reply)
  {
    if k.Stream? then
      o.answer == Done && o.feed == Feed(Some(StreamHeader(reply, [])),
          Collectors.Take(StreamItems(reply, false), k.dropAfter))
    else o.answer == Report(k, reply)
  }

  /** Main result: in every state of every run, the answer sent to the slot of the n-th request written reports exactly
      the n-th ReadyForQuery-terminated reply, and every frame of that reply was sent because of this request
      or is an asynchronous message. */
  lemma NthRequestGetsNthReply(trace: seq<Conn>, n: nat, i: nat)
    requires IsRun(trace) && n < |trace|
    requires i in trace[n].answers && trace[n].answers[i].Delivered?
    ensures var s := trace[n];
            var fs := Frames(s.sv.sent);
            && i < |s.w.taken| && s.w.taken[i].slot == i && i < |Complete(fs)| && Segment(Complete(fs)[i])
            && ReportsReply(s.w.taken[i].kind, s.answers[i], Complete(fs)[i])
            && (forall j :: 0 <= j < |fs| && ReplyIndex(fs, j) == i
                            ==> s.sv.sent[j].cause == i || s.sv.sent[j].cause == ASYNC)
  {
    RunInv(trace, n);
    var s := trace[n];
    var fs := Frames(s.sv.sent);
    assert FromOwnReply(s.w.taken, fs, i, s.answers[i]);
    forall f | f in fs ensures WellFormed(f) {
      var j :| 0 <= j < |fs| && fs[j] == f;
      assert f == s.sv.sent[j].frame;
    }
    CutIsExact(fs);
    var k, reply := s.w.taken[i].kind, Complete(fs)[i];
    assert reply in Complete(fs);
    if k.Stream? {
      StreamIsReply(k.dropAfter, reply);
    } else {
      AnswerIsReport(k, reply);
    }
  }

  /** Main result on lost replies, in every state of every run: whoever is answered because the connection ended is told
      just that, after what had been read of its own reply; never the rows as if they were all of them. */
  lemma LostReplyIsReportedLost(trace: seq<Conn>, n: nat, i: nat)
    requires IsRun(trace) && n < |trace|
    requires i in trace[n].answers && trace[n].answers[i].ConnectionLost?
    ensures var s, o := trace[n], trace[n].answers[i];
            && i < |s.w.taken| && s.w.taken[i].slot == i
            && (!s.w.taken[i].kind.Stream? ==> o.answer == Fail(Lost(ConnectionClosed)) && o.feed == NO_FEED)
            && exists j: int :: j <= |s.sv.sent| &&
                 ReportsLoss(s.w.taken[i].kind, ReadOf(Frames(s.sv.sent), i, j), o.answer, o.feed)
  {
    RunInv(trace, n);
    var s, o := trace[n], trace[n].answers[i];
    var fs := Frames(s.sv.sent);
    assert FromOwnReply(s.w.taken, fs, i, o);
    var j: int :| CutOff(s.w.taken[i].kind, fs, i, j, o);
    NoReadyIsNoReply(ReadOf(fs, i, j));
    OutcomeReports(s.w.taken[i].kind, ReadOf(fs, i, j));
  }

  lemma NoReadyIsNoReply(fs: seq<Frame>)
    requires NoReady(fs)
    ensures !Segment(fs)
  {
    if fs != [] { assert fs[|fs| - 1] in fs; }
  }

  lemma AnswersKept(s: Conn, t: Conn)
    requires QueueInv(s.w) && SlotInv(s.w, s.rd) && AnswerOrder(s.w, s.rd.running, s.answers) && Next(s, t)
    ensures forall i :: i in s.answers ==> i in t.answers && t.answers[i] == s.answers[i]
  {
    if EndOfFile(s, t) || Consume(s, t) {
      ReaderKeeps(s, t);
    } else if WriterExits(s, t) {
      WriterExitKeeps(s, t);
    }
  }

  lemma ReaderKeeps(s: Conn, t: Conn)
    requires AnswerOrder(s.w, s.rd.running, s.answers) && SlotInv(s.w, s.rd) && (EndOfFile(s, t) || Consume(s, t))
    ensures forall i :: i in s.answers ==> i in t.answers && t.answers[i] == s.answers[i]
  {
    AnswerNext(s.w, s.rd.running, s.answers, Drained);
  }

  /** The requests told about the exit of the writer had no answer yet. */
  lemma WriterExitKeeps(s: Conn, t: Conn)
    requires QueueInv(s.w) && SlotInv(s.w, s.rd) && AnswerOrder(s.w, s.rd.running, s.answers) && WriterExits(s, t)
    ensures forall i :: i in s.answers ==> i in t.answers && t.answers[i] == s.answers[i]
  {
    ExitSlots(s.w, s.rd);
  }

  /** Every request taken by the writer is answered at most once, and once the writer has exited and no collector
      is running, every one of them has been answered. */
  lemma AnsweredOnce(trace: seq<Conn>, n: nat)
    requires IsRun(trace) && n + 1 < |trace|
    ensures forall i :: i in trace[n].answers ==>
              i in trace[n + 1].answers && trace[n + 1].answers[i] == trace[n].answers[i]
    ensures trace[n].w.phase == Exited && trace[n].rd.running == [] ==>
              forall i :: i in trace[n].answers <==> 0 <= i < |trace[n].w.taken|
  {
    RunInv(trace, n);
    AnswersKept(trace[n], trace[n + 1]);
  }

  lemma SentKept(s: Conn, t: Conn)
    requires Next(s, t)
    ensures s.w.taken <= t.w.taken && s.sv.sent <= t.sv.sent
  {
  }

  /** What request `i` is and what reply `i` says never change once they exist, so an answer stays right. */
  lemma HistoryIsStable(trace: seq<Conn>, n: nat)
    requires IsRun(trace) && n + 1 < |trace|
    ensures trace[n].w.taken <= trace[n + 1].w.taken
    ensures Complete(Frames(trace[n].sv.sent)) <= Complete(Frames(trace[n + 1].sv.sent))
  {
    var a, b := trace[n].sv.sent, trace[n + 1].sv.sent;
    SentKept(trace[n], trace[n + 1]);
    assert Frames(b) == Frames(a) + Frames(b)[|a|..];
    CompleteGrows(Frames(a), Frames(b)[|a|..]);
  }
}
