/** The writer and reader tasks of one connection as they run: each round of their loops, on the shared queues.
    The ghost state follows the connection's state machine, of which every round is a stretch of a run. */
module AsyncConn {
  import opened Bytes
  import opened Framing
  import opened Collectors
  import opened ServerProtocol
  import opened ConnectionRuns
  import Multiplexer
  import Replies
  import ReaderTask

  const CHANNEL_CAPACITY := 256

  /** A request on the channel; `ticket` identifies the caller's response slot. */
  datatype Request = Request(messages: seq<byte>, kind: Kind, ticket: nat)

  datatype Response = Answered(answer: Answer, feed: Feed) | BrokenPipe | Closed

  function Written(rs: seq<Request>): seq<byte> {
    if rs == [] then [] else Written(rs[..|rs| - 1]) + rs[|rs| - 1].messages
  }

  /** Sending `r` to every request in `rs`. */
  function SendAll(slots: map<nat, Response>, rs: seq<Request>, r: Response): map<nat, Response>
    decreases |rs|
  {
    if rs == [] then slots else SendAll(slots[rs[0].ticket := r], rs[1..], r)
  }

  lemma {:induction false} WrittenAppend(a: seq<Request>, b: seq<Request>)
    ensures Written(a + b) == Written(a) + Written(b)
    decreases |b|
  {
    if b == [] {
      assert a + b == a;
      assert Written(a) + [] == Written(a);
    } else {
      var init, last := b[..|b| - 1], b[|b| - 1];
      assert (a + b)[..|a + b| - 1] == a + init;
      WrittenAppend(a, init);
    }
  }

  // ----- the machine's answers as responses -----

  function Tell(o: Multiplexer.Outcome): Response {
    match o
    case Delivered(a, fd) => Answered(a, fd)
    case ConnectionLost(a, fd) => Answered(a, fd)
    case Drained => Closed
    case WriteFailed => BrokenPipe
  }

  function Told(answers: map<nat, Multiplexer.Outcome>): map<nat, Response> {
    map i | i in answers :: Tell(answers[i])
  }

  lemma {:induction false} SendAllIs(slots: map<nat, Response>, rs: seq<Request>, lo: nat, r: Response)
    requires forall k :: 0 <= k < |rs| ==> rs[k].ticket == lo + k
    ensures forall i :: i in SendAll(slots, rs, r) <==> i in slots || lo <= i < lo + |rs|
    ensures forall i :: i in SendAll(slots, rs, r) ==>
              SendAll(slots, rs, r)[i] == if lo <= i < lo + |rs| then r else slots[i]
    decreases |rs|
  {
    if rs != [] { SendAllIs(slots[rs[0].ticket := r], rs[1..], lo + 1, r); }
  }

  lemma SameTold(answers: map<nat, Multiplexer.Outcome>, drained: map<nat, Multiplexer.Outcome>,
      failed: map<nat, Multiplexer.Outcome>, lo: nat, mid: nat, hi: nat, slots: map<nat, Response>)
    requires lo <= mid <= hi
    requires forall i :: i in drained <==> lo <= i < mid
    requires forall i :: i in failed <==> mid <= i < hi
    requires (forall i :: i in drained ==> drained[i].Drained?) && forall i :: i in failed ==> failed[i].WriteFailed?
    requires forall i :: i in slots <==> i in answers || lo <= i < hi
    requires forall i :: i in slots ==>
               slots[i] == if lo <= i < mid then Closed else if mid <= i < hi then BrokenPipe else Tell(answers[i])
    ensures slots == Told(answers + drained + failed)
  {
  }

  /** What the exiting writer sends, by slot. */
  lemma ExitTold(w: Multiplexer.Writer, rd: Multiplexer.Reader, answers: map<nat, Multiplexer.Outcome>,
      queue: seq<Request>, pending: seq<Request>)
    requires Multiplexer.QueueInv(w) && Multiplexer.SlotInv(w, rd) && BetweenRounds(w)
    requires |queue| == |w.queue| && forall k :: 0 <= k < |queue| ==> queue[k].ticket == |w.taken| + k
    requires |pending| == |w.pending| && forall k :: 0 <= k < |pending| ==> pending[k].ticket == w.popped + k
    ensures SendAll(SendAll(Told(answers), queue, BrokenPipe), pending, Closed)
         == Told(answers + Multiplexer.SendAll(w.pending, Multiplexer.Drained)
              + Multiplexer.SendAll(w.queue, Multiplexer.WriteFailed))
  {
    hide Multiplexer.SendAll, SendAll, Tell;
    PendingAndQueue(w, rd);
    var (a, b, c) := (w.popped, |w.taken|, |w.taken| + |w.queue|);
    Multiplexer.SendAllIs(w.pending, a, Multiplexer.Drained);
    Multiplexer.SendAllIs(w.queue, b, Multiplexer.WriteFailed);
    var slots := SendAll(Told(answers), queue, BrokenPipe);
    SendAllIs(Told(answers), queue, b, BrokenPipe);
    SendAllIs(slots, pending, a, Closed);
    SameTold(answers, Multiplexer.SendAll(w.pending, Multiplexer.Drained),
      Multiplexer.SendAll(w.queue, Multiplexer.WriteFailed), a, b, c, SendAll(slots, pending, Closed));
  }

  lemma PendingAndQueue(w: Multiplexer.Writer, rd: Multiplexer.Reader)
    requires Multiplexer.QueueInv(w) && Multiplexer.SlotInv(w, rd) && BetweenRounds(w)
    ensures |w.taken| == w.popped + |w.pending|
    ensures forall k :: 0 <= k < |w.pending| ==> w.pending[k].slot == w.popped + k
    ensures forall k :: 0 <= k < |w.queue| ==> w.queue[k].slot == |w.taken| + k
  {
    assert w.taken[w.popped..] == w.pending;
  }

  /** `asked` lists the requests `rs`, numbered. */
  ghost predicate Recorded(asked: seq<Request>, rs: seq<Multiplexer.Request>) {
    |asked| == |rs| && forall i :: 0 <= i < |asked| ==> asked[i].ticket == i && asked[i].kind == rs[i].kind
  }

  /** Between two rounds the queues, the slots and what has been written are those of the machine. */
  ghost predicate Shows(m: Multiplexer.Conn, asked: seq<Request>, queue: seq<Request>, pending: seq<Request>,
      slots: map<nat, Response>, outbound: seq<byte>, open: bool)
  {
    && m.w.popped <= |m.w.taken| <= |asked|
    && Recorded(asked, m.w.taken + m.w.queue)
    && queue == asked[|m.w.taken|..]
    && pending == (if open then asked[m.w.popped..|m.w.taken|] else [])
    && slots == Told(m.answers)
    && (if open then BetweenRounds(m.w) && outbound == Written(asked[..|m.w.taken|])
        else m.w.phase == Multiplexer.Exited && queue == [])
    && m.rd.running == []
  }

  function Submitted(m: Multiplexer.Conn, r: Request, msgs: seq<Message>): Multiplexer.Conn {
    m.(w := m.w.(nextSlot := m.w.nextSlot + 1, queue := m.w.queue + [Multiplexer.Request(r.kind, msgs, m.w.nextSlot)]))
  }

  lemma Counts(m: Multiplexer.Conn)
    requires Reachable(m)
    ensures m.w.nextSlot == |m.w.taken| + |m.w.queue|
    ensures BetweenRounds(m.w) ==> |m.w.taken| == m.w.popped + |m.w.pending|
    ensures BetweenRounds(m.w) && m.w.pending != [] ==> m.w.pending[0] == m.w.taken[m.w.popped]
    ensures BetweenRounds(m.w) && m.w.pending != [] ==> m.w.pending[0].slot == m.w.popped
  {
    hide Reachable;
    ReachableInv(m);
    if BetweenRounds(m.w) { assert m.w.taken[m.w.popped..] == m.w.pending; }
  }

  lemma Submits(m: Multiplexer.Conn, asked: seq<Request>, queue: seq<Request>, pending: seq<Request>,
      slots: map<nat, Response>, outbound: seq<byte>, r: Request, msgs: seq<Message>)
    requires Reachable(m) && Shows(m, asked, queue, pending, slots, outbound, true)
    requires WellShaped(msgs) && r.ticket == m.w.nextSlot
    ensures var t := Submitted(m, r, msgs);
            && Reaches(m, t) && Reachable(t)
            && Shows(t, asked + [r], queue + [r], pending, slots, outbound, true)
  {
    hide Multiplexer.Inv, Told, Written;
    hide Reaches, Reachable;
    var t := Submitted(m, r, msgs);
    Counts(m);
    assert Multiplexer.Submit(m, t) by {
      assert WellShaped(Multiplexer.Request(r.kind, msgs, m.w.nextSlot).msgs);
    }
    Step1(m, t);
    Extends(m, t);
    assert (asked + [r])[|m.w.taken|..] == queue + [r];
    assert (asked + [r])[m.w.popped..|m.w.taken|] == asked[m.w.popped..|m.w.taken|];
    assert (asked + [r])[..|m.w.taken|] == asked[..|m.w.taken|];
  }

  lemma Writes(m: Multiplexer.Conn, asked: seq<Request>, queue: seq<Request>, pending: seq<Request>,
      slots: map<nat, Response>, outbound: seq<byte>)
    requires Reachable(m) && Shows(m, asked, queue, pending, slots, outbound, true) && queue != []
    ensures var t := Wrote(m);
            && Reaches(m, t) && Reachable(t)
            && Shows(t, asked, [], pending + queue, slots, outbound + Written(queue), true)
  {
    hide Reaches, Reachable, Multiplexer.Messages, Told, Written;
    var t := Wrote(m);
    WriteRuns(m);
    Extends(m, t);
    WrittenAppend(asked[..|m.w.taken|], queue);
    assert asked[..|m.w.taken|] + queue == asked == asked[..|t.w.taken|];
    assert asked[m.w.popped..|t.w.taken|] == pending + queue;
    assert asked[|t.w.taken|..] == [];
    assert t.w.taken + t.w.queue == m.w.taken + m.w.queue;
  }

  lemma Breaks(m: Multiplexer.Conn, asked: seq<Request>, queue: seq<Request>, pending: seq<Request>,
      slots: map<nat, Response>, outbound: seq<byte>, outbound': seq<byte>, whole: nat)
    requires Reachable(m) && Shows(m, asked, queue, pending, slots, outbound, true) && queue != []
    requires whole <= |Multiplexer.Messages(m.w.queue)|
    ensures var t := Broke(m, whole);
            && Reaches(m, t) && Reachable(t)
            && Shows(t, asked, [], [], SendAll(SendAll(slots, queue, BrokenPipe), pending, Closed), outbound', false)
  {
    hide Reaches, Reachable, Multiplexer.Messages;
    var t := Broke(m, whole);
    BreakRuns(m, whole);
    Extends(m, t);
    ReachableInv(m);
    ExitTold(m.w, m.rd, m.answers, queue, pending);
    assert asked[|t.w.taken|..] == [];
    assert t.w.taken + t.w.queue == m.w.taken + m.w.queue;
  }

  lemma Stops(m: Multiplexer.Conn, asked: seq<Request>, pending: seq<Request>, slots: map<nat, Response>,
      outbound: seq<byte>)
    requires Reachable(m) && Shows(m, asked, [], pending, slots, outbound, true)
    ensures var t := Stopped(m);
            && Reaches(m, t) && Reachable(t)
            && Shows(t, asked, [], [], SendAll(slots, pending, Closed), outbound, false)
  {
    hide Reaches, Reachable, Multiplexer.Messages;
    StopRuns(m);
    Extends(m, Stopped(m));
    ReachableInv(m);
    ExitTold(m.w, m.rd, m.answers, [], pending);
    assert m.w.batch == m.w.queue;
  }

  lemma Reads(m: Multiplexer.Conn, asked: seq<Request>, queue: seq<Request>, pending: seq<Request>,
      slots: map<nat, Response>, outbound: seq<byte>, fs: seq<Frame>, rest: seq<byte>) returns (t: Multiplexer.Conn)
    requires Reachable(m) && Shows(m, asked, queue, pending, slots, outbound, true)
    requires pending != [] && Arrived(m, fs, rest)
    ensures Reaches(m, t) && Reachable(t) && t.rd.buf + t.sv.wire == rest
    ensures var (a, fd) := Outcome(pending[0].kind, fs);
            Shows(t, asked, queue, pending[1..], slots[pending[0].ticket := Answered(a, fd)], outbound, true)
  {
    hide Reaches, Reachable, Outcome, Arrived, Told, Written;
    Counts(m);
    var r := m.w.pending[0];
    assert r == m.w.taken[m.w.popped] == (m.w.taken + m.w.queue)[m.w.popped];
    t := ReadRuns(m, fs, rest);
    Extends(m, t);
    assert asked[t.w.popped..|t.w.taken|] == pending[1..];
    var (a, fd) := Outcome(r.kind, fs);
    TellOne(m.answers, r.slot, if Segment(fs) then Multiplexer.Delivered(a, fd) else Multiplexer.ConnectionLost(a, fd));
  }

  lemma ArrivedFrames(m: Multiplexer.Conn, fs: seq<Frame>, rest: seq<byte>)
    requires (forall f :: f in fs ==> WellFormed(f)) && m.rd.buf + m.sv.wire == FlatFrames(fs) + rest
    requires Segment(fs) || (NoReady(fs) && rest == [] && m.sv.closed)
    ensures Arrived(m, fs, rest)
  {
  }

  lemma WaitingMeansOpen(m: Multiplexer.Conn, asked: seq<Request>, queue: seq<Request>, pending: seq<Request>,
      slots: map<nat, Response>, outbound: seq<byte>, open: bool)
    requires Shows(m, asked, queue, pending, slots, outbound, open)
    ensures queue != [] || pending != [] ==> open
    ensures !open ==> m.w.phase == Multiplexer.Exited
  {
  }

  lemma TellOne(answers: map<nat, Multiplexer.Outcome>, i: nat, o: Multiplexer.Outcome)
    ensures Told(answers[i := o]) == Told(answers)[i := Tell(o)]
  {
  }

  class Connection {
    ghost var m: Multiplexer.Conn
    ghost var asked: seq<Request>   // every request that ever got into the channel

    var queue: seq<Request>
    var pending: seq<Request>
    var outbound: seq<byte>
    var slots: map<nat, Response>
    var open: bool      // the writer task holds the receiving end of the channel
    var alive: bool     // the flag; cleared some time after the writer task has exited
    var broken: bool
    const reader: ReaderTask.Reader

    /** The class shows the machine's state between two rounds, and the machine has come to it in a run. */
    ghost predicate Valid()
      reads this
    {
      && Reachable(m) && Shows(m, asked, queue, pending, slots, outbound, open)
    }

    constructor (reader: ReaderTask.Reader)
      ensures Valid()
      ensures queue == [] && pending == [] && outbound == [] && slots == map[] && open && alive && !broken
      ensures this.reader == reader
    {
      queue, pending, outbound, slots, open, alive, broken := [], [], [], map[], true, true, false;
      this.reader := reader;
      m := Multiplexer.NEW;
      asked := [];
      assert forall i :: i !in Told(Multiplexer.NEW.answers);
      new;
      StartIsReachable(m);
    }

    /** `request_tx.try_send`: fails when the channel is full or the writer is gone.  `msgs` is what the bytes of the
        request are to the protocol. */
    method TrySend(r: Request, ghost msgs: seq<Message>) returns (ok: bool)
      requires Valid() && WellShaped(msgs) && r.ticket == m.w.nextSlot
      modifies this`queue, this`m, this`asked
      ensures Valid() && Reaches(old(m), m)
      ensures ok == (open && |old(queue)| < 256)
      ensures queue == if ok then old(queue) + [r] else old(queue)
    {
      hide Shows, Reachable, Reaches;
      ok := open && |queue| < CHANNEL_CAPACITY;
      if ok {
        Submits(m, asked, queue, pending, slots, outbound, r, msgs);
        queue, m, asked := queue + [r], Submitted(m, r, msgs), asked + [r];
      } else {
        Stay(m);
      }
    }

    /** What dropping a transaction does: nothing if it is finished or the connection dead; else it queues a ROLLBACK,
        or declares the connection broken if it cannot. */
    method RollbackOnDrop(done: bool, rollback: Request)
      requires Valid() && rollback.kind == Drain && rollback.ticket == m.w.nextSlot
      modifies this`queue, this`broken, this`m, this`asked
      ensures Valid() && Reaches(old(m), m)
      ensures var needed := !done && alive; var room := open && |old(queue)| < 256;
              && queue == old(queue) + (if needed && room then [rollback] else [])
              && broken == (old(broken) || (needed && !room))
    {
      hide Shows, Reachable, Reaches;
      if !done && alive {
        var ok := TrySend(rollback, [Query]);
        if !ok { broken := true; }
      } else {
        Stay(m);
      }
    }

    method DrainPendingOnExit()
      modifies this`pending, this`slots
      ensures pending == [] && slots == SendAll(old(slots), old(pending), Closed)
      ensures old(pending) == [] ==> slots == old(slots)
    {
      while pending != []
        invariant SendAll(slots, pending, Closed) == SendAll(old(slots), old(pending), Closed)
        decreases |pending|
      {
        slots := slots[pending[0].ticket := Closed];
        pending := pending[1..];
      }
    }

    /** The error sent to every request of a batch that could not be written. */
    method FailBatch(batch: seq<Request>)
      modifies this`slots
      ensures slots == SendAll(old(slots), batch, BrokenPipe)
    {
      var rest := batch;
      while rest != []
        invariant SendAll(slots, rest, BrokenPipe) == SendAll(old(slots), batch, BrokenPipe)
        decreases |rest|
      {
        slots := slots[rest[0].ticket := BrokenPipe];
        rest := rest[1..];
      }
    }

    /** Everything in the channel, as requests and as one buffer. */
    method Coalesce() returns (batch: seq<Request>, writeBuf: seq<byte>)
      requires queue != []
      modifies this`queue
      ensures queue == [] && batch == old(queue) && writeBuf == Written(batch)
    {
      var first := queue[0];
      queue := queue[1..];
      writeBuf := first.messages;
      batch := [first];
      assert Written(batch) == writeBuf by { assert batch[..0] == []; assert [] + first.messages == first.messages; }
      while queue != []
        invariant batch + queue == old(queue) && writeBuf == Written(batch)
        modifies this`queue
        decreases |queue|
      {
        var req := queue[0];
        assert (batch + [req])[..|batch|] == batch;
        writeBuf := writeBuf + req.messages;
        batch := batch + [req];
        queue := queue[1..];
      }
    }

    /** One round of `writer_task`.  With a closed and empty channel, or after a failed write of which `sent` bytes
        went out, the writer exits.  Otherwise the whole channel is coalesced into one write, and only
        then do its requests join `pending`, in channel order.  To the machine whole messages go out, `whole` of
        them before a write fails. */
    method WriterRound(writeSucceeds: bool, sent: nat, ghost whole: nat)
      requires Valid() && sent <= |Written(queue)| && whole <= |Multiplexer.Messages(m.w.queue)|
      modifies this`queue, this`pending, this`outbound, this`slots, this`open, this`m
      ensures Valid() && Reaches(old(m), m)
      ensures queue == []
      ensures old(queue) != [] && writeSucceeds ==>
                && outbound == old(outbound) + Written(old(queue))
                && pending == old(pending) + old(queue)
                && slots == old(slots) && open == old(open)
      ensures old(queue) != [] && !writeSucceeds ==>
                && outbound == old(outbound) + Written(old(queue))[..sent]
                && pending == [] && !open
                && slots == SendAll(SendAll(old(slots), old(queue), BrokenPipe), old(pending), Closed)
      ensures old(queue) == [] ==>
                && outbound == old(outbound) && pending == [] && !open
                && slots == SendAll(old(slots), old(pending), Closed)
    {
      hide Shows, Reachable, Reaches, Wrote, Broke, Stopped, Multiplexer.Messages, SendAll;
      WaitingMeansOpen(m, asked, queue, pending, slots, outbound, open);
      if queue == [] {
        if open {
          Stops(m, asked, pending, slots, outbound);
          m := Stopped(m);
        } else {
          Stay(m);
        }
        DrainPendingOnExit();
        open := false;
        return;
      }
      if writeSucceeds { Writes(m, asked, queue, pending, slots, outbound); }
      else { Breaks(m, asked, queue, pending, slots, outbound, outbound + Written(queue)[..sent], whole); }
      m := if writeSucceeds then Wrote(m) else Broke(m, whole);
      var batch, writeBuf := Coalesce();
      if !writeSucceeds {
        outbound := outbound + writeBuf[..sent];
        FailBatch(batch);
        DrainPendingOnExit();
        open := false;
        return;
      }
      outbound := outbound + writeBuf;
      var i := 0;
      while i < |batch|
        invariant i <= |batch| && pending == old(pending) + batch[..i]
        modifies this`pending
      {
        assert batch[..i + 1] == batch[..i] + [batch[i]];
        pending := pending + [batch[i]];
        i := i + 1;
      }
      assert batch[..i] == batch;
    }

    /** One round of `reader_task`: the oldest pending request gets the report on the next reply of the stream,
        and the stream is left at the reply after it.  What the round will read is on the wire when it begins. */
    method ReaderRound(ghost fs: seq<Frame>, ghost rest: seq<byte>)
      requires Valid() && pending != [] && reader.Facing(fs, rest)
      requires m.rd.buf + m.sv.wire == reader.inbound.Unread() && (Segment(fs) || m.sv.closed)
      modifies this`pending, this`slots, this`m, reader, reader.inbound, reader.inbound.buf
      ensures Valid() && Reaches(old(m), m) && m.rd.buf + m.sv.wire == reader.inbound.Unread()
      ensures pending == old(pending)[1..]
      ensures var (a, fd) := Outcome(old(pending)[0].kind, fs);
              slots == old(slots)[old(pending)[0].ticket := Answered(a, fd)]
      ensures var r := slots[old(pending)[0].ticket];
              r.Answered? && Reports(old(pending)[0].kind, fs, r.answer, r.feed)
      ensures reader.inbound.Unread() == rest
      ensures reader.stateMutated == (old(reader.stateMutated) || (Segment(fs) && fs[|fs| - 1].body[0] != 'I' as int))
    {
      hide Shows, Reachable, Reaches, ReaderTask.Reader.Flagged, Reports;
      ArrivedFrames(m, fs, rest);
      WaitingMeansOpen(m, asked, queue, pending, slots, outbound, open);
      ghost var t := Reads(m, asked, queue, pending, slots, outbound, fs, rest);
      m := t;
      var pr := pending[0];
      pending := pending[1..];
      var a, fd := reader.Collect(pr.kind, fs, rest);
      slots := slots[pr.ticket := Answered(a, fd)];
    }

    /** Steps of the server and the network between two rounds. */
    ghost method Elsewhere(t: Multiplexer.Conn)
      requires Valid() && Reaches(m, t) && t.w == m.w && t.rd == m.rd && t.answers == m.answers
      modifies this`m
      ensures Valid() && m == t
    {
      Extends(m, t);
      m := t;
    }

    /** Main result of the class: whatever calls have been made, a response delivered into the i-th slot reports the
        i-th reply of the server, to the i-th request that got into the channel. */
    lemma SlotHoldsOwnReply(i: nat)
      requires Valid() && i in m.answers && m.answers[i].Delivered?
      ensures var fs := Multiplexer.Frames(m.sv.sent);
              && i in slots && slots[i] == Answered(m.answers[i].answer, m.answers[i].feed)
              && i < |asked| && asked[i].ticket == i && i < |Replies.Complete(fs)| && Segment(Replies.Complete(fs)[i])
              && Multiplexer.ReportsReply(asked[i].kind, m.answers[i], Replies.Complete(fs)[i])
    {
      var trace :| Multiplexer.IsRun(trace) && trace[|trace| - 1] == m;
      Multiplexer.NthRequestGetsNthReply(trace, |trace| - 1, i);
      assert (m.w.taken + m.w.queue)[i] == m.w.taken[i];
    }

    /** And one into which the loss of the connection is put reports that loss, after a part of the i-th reply. */
    lemma SlotReportsLoss(i: nat)
      requires Valid() && i in m.answers && m.answers[i].ConnectionLost?
      ensures var fs := Multiplexer.Frames(m.sv.sent);
              && i in slots && slots[i].Answered? && i < |asked| && asked[i].ticket == i
              && exists j: int :: j <= |fs| &&
                   ReportsLoss(asked[i].kind, Multiplexer.ReadOf(fs, i, j), slots[i].answer, slots[i].feed)
    {
      hide ReportsLoss;
      var trace :| Multiplexer.IsRun(trace) && trace[|trace| - 1] == m;
      Multiplexer.LostReplyIsReportedLost(trace, |trace| - 1, i);
      assert (m.w.taken + m.w.queue)[i] == m.w.taken[i];
    }
  }
}
