/** Rounds of the writer and reader tasks as stretches of runs of the connection's state machine. */
module ConnectionRuns {
  import opened Bytes
  import opened Framing
  import opened Collectors
  import opened Multiplexer
  import ReaderTask
  import Seqs

  ghost predicate Path(trace: seq<Conn>) {
    trace != [] && forall n :: 0 <= n < |trace| - 1 ==> Next(trace[n], trace[n + 1])
  }

  ghost predicate Reaches(s: Conn, t: Conn) {
    exists trace :: Path(trace) && trace[0] == s && trace[|trace| - 1] == t
  }

  ghost predicate Reachable(s: Conn) {
    exists trace :: IsRun(trace) && trace[|trace| - 1] == s
  }

  lemma Stay(s: Conn)
    ensures Reaches(s, s)
  {
    hide Next;
    assert Path([s]);
  }

  lemma Step1(s: Conn, t: Conn)
    requires Next(s, t)
    ensures Reaches(s, t)
  {
    hide Next;
    assert Path([s, t]);
  }

  lemma Join(s: Conn, t: Conn, u: Conn)
    requires Reaches(s, t) && Reaches(t, u)
    ensures Reaches(s, u)
  {
    hide Next;
    var a :| Path(a) && a[0] == s && a[|a| - 1] == t;
    var b :| Path(b) && b[0] == t && b[|b| - 1] == u;
    var c := a[..|a| - 1] + b;
    forall n | 0 <= n < |c| - 1 ensures Next(c[n], c[n + 1]) {
      if n >= |a| - 1 { assert Next(b[n - (|a| - 1)], b[n - (|a| - 1) + 1]); }
      else { assert Next(a[n], a[n + 1]); }
    }
    assert Path(c);
  }

  lemma Then(s: Conn, t: Conn, u: Conn)
    requires Reaches(s, t) && Next(t, u)
    ensures Reaches(s, u)
  {
    hide Next;
    Step1(t, u);
    Join(s, t, u);
  }

  lemma StartIsReachable(s: Conn)
    requires Init(s)
    ensures Reachable(s)
  {
    hide Next;
    assert IsRun([s]);
  }

  lemma Extends(s: Conn, t: Conn)
    requires Reachable(s) && Reaches(s, t)
    ensures Reachable(t)
  {
    hide Next, Init;
    var a :| IsRun(a) && a[|a| - 1] == s;
    assert Path(a);
    assert Reaches(a[0], s);
    Join(a[0], s, t);
    var c :| Path(c) && c[0] == a[0] && c[|c| - 1] == t;
    assert IsRun(c);
  }

  lemma ReachableInv(s: Conn)
    requires Reachable(s)
    ensures Inv(s)
  {
    hide Next, Init, Inv;
    var trace :| IsRun(trace) && trace[|trace| - 1] == s;
    RunInv(trace, |trace| - 1);
  }

  // ----- a round of the writer -----

  /** The whole channel has been taken. */
  function Gathered(s: Conn): Conn {
    s.(w := s.w.(queue := [], batch := s.w.batch + s.w.queue, buf := s.w.buf + Messages(s.w.queue),
        taken := s.w.taken + s.w.queue))
  }

  lemma {:induction false} TakeAll(s: Conn)
    requires s.w.phase == Gathering
    ensures Reaches(s, Gathered(s))
    decreases |s.w.queue|
  {
    hide Inv, Reaches;
    if s.w.queue == [] {
      assert Gathered(s) == s;
      Stay(s);
    } else {
      var r := s.w.queue[0];
      var t := s.(w := s.w.(queue := s.w.queue[1..], batch := s.w.batch + [r], buf := s.w.buf + r.msgs,
        taken := s.w.taken + [r]));
      assert Multiplexer.Take(s, t);
      Step1(s, t);
      TakeAll(t);
      assert [r] + s.w.queue[1..] == s.w.queue;
      Seqs.Assoc(s.w.batch, [r], s.w.queue[1..]);
      Seqs.Assoc(s.w.taken, [r], s.w.queue[1..]);
      Seqs.Assoc(s.w.buf, r.msgs, Messages(s.w.queue[1..]));
      assert Gathered(t) == Gathered(s);
      Join(s, t, Gathered(s));
    }
  }

  ghost predicate BetweenRounds(w: Writer) { w.phase == Gathering && w.batch == [] && w.buf == [] }

  /** After a successful round. */
  function Wrote(s: Conn): Conn {
    s.(w := s.w.(queue := [], pending := s.w.pending + s.w.queue, taken := s.w.taken + s.w.queue),
       sv := s.sv.(inbox := s.sv.inbox + Messages(s.w.queue)))
  }

  /** The round of a writer whose write succeeds is a run: take everything, write everything, enqueue. */
  lemma WriteRuns(s: Conn)
    requires BetweenRounds(s.w) && s.w.queue != []
    ensures Reaches(s, Wrote(s))
  {
    hide Inv, Reaches;
    var all := Messages(s.w.queue);
    var a := Gathered(s);
    TakeAll(s);
    assert [] + s.w.queue == s.w.queue && [] + all == all;
    var b := a.(w := a.w.(phase := Writing));
    assert BeginWrite(a, b);
    Then(s, a, b);
    assert all[|all|..] == [] && all[..|all|] == all;
    var c := b.(w := b.w.(buf := []), sv := b.sv.(inbox := b.sv.inbox + all));
    assert Transmit(b, c);
    Then(s, b, c);
    assert Enqueue(c, Wrote(s));
    Then(s, c, Wrote(s));
  }

  /** After a round whose write failed when `n` whole messages had gone out. */
  function Broke(s: Conn, n: nat): Conn
    requires n <= |Messages(s.w.queue)|
  {
    var all := Messages(s.w.queue);
    Conn(s.w.(phase := Exited, queue := [], pending := [], batch := [], buf := [], taken := s.w.taken + s.w.queue,
           unsent := all[n..]), s.sv.(inbox := s.sv.inbox + all[..n]), s.rd,
         s.answers + Multiplexer.SendAll(s.w.pending, Drained) + Multiplexer.SendAll(s.w.queue, WriteFailed))
  }

  lemma BreakRuns(s: Conn, n: nat)
    requires BetweenRounds(s.w) && s.w.queue != [] && n <= |Messages(s.w.queue)|
    ensures Reaches(s, Broke(s, n))
  {
    hide Inv, Reaches;
    var all := Messages(s.w.queue);
    var a := Gathered(s);
    TakeAll(s);
    assert [] + s.w.queue == s.w.queue && [] + all == all;
    var b := a.(w := a.w.(phase := Writing));
    assert BeginWrite(a, b);
    Then(s, a, b);
    var c := b.(w := b.w.(buf := all[n..]), sv := b.sv.(inbox := b.sv.inbox + all[..n]));
    assert Transmit(b, c);
    Then(s, b, c);
    assert WriterExits(c, Broke(s, n));
    Then(s, c, Broke(s, n));
  }

  /** After the round that finds the channel closed and empty. */
  function Stopped(s: Conn): Conn {
    s.(w := s.w.(phase := Exited, pending := [], batch := [], buf := [], unsent := s.w.buf),
       answers := s.answers + Multiplexer.SendAll(s.w.pending, Drained) + Multiplexer.SendAll(s.w.batch, WriteFailed))
  }

  lemma StopRuns(s: Conn)
    requires BetweenRounds(s.w) && s.w.queue == []
    ensures Reaches(s, Stopped(s))
  {
    hide Inv, Reaches;
    assert WriterExits(s, Stopped(s));
    Step1(s, Stopped(s));
  }

  // ----- a round of the reader -----

  /** What arrives in one round: one whole reply, or the end of the stream in the middle of one. */
  ghost predicate Arrived(s: Conn, fs: seq<Frame>, rest: seq<byte>) {
    && (forall i :: 0 <= i < |fs| ==> WellFormed(fs[i]))
    && s.rd.buf + s.sv.wire == FlatFrames(fs) + rest
    && (Segment(fs) || (NoReady(fs) && rest == [] && s.sv.closed))
  }

  ghost predicate Serving(s: Conn, r: Request, c: State) {
    s.rd.serving == [r] && s.rd.running == [c] && !c.Finished?
  }

  /** What the round leaves: the slot answered, the bytes of the reply read, all else as it was. */
  ghost predicate RoundDone(s: Conn, t: Conn, r: Request, o: Multiplexer.Outcome, rest: seq<byte>) {
    && t.w == s.w && t.answers == s.answers[r.slot := o]
    && t.rd.serving == [] && t.rd.running == []
    && t.rd.buf + t.sv.wire == rest
    && t.sv == s.sv.(wire := t.sv.wire)
  }

  /** The reader has the next frame in its buffer, reading from the socket if need be. */
  lemma Fetch(s: Conn, r: Request, c: State, f: Frame, more: seq<byte>) returns (t: Conn)
    requires Serving(s, r, c) && WellFormed(f) && s.rd.buf + s.sv.wire == FrameBytes(f) + more
    ensures Reaches(s, t) && Serving(t, r, c)
    ensures t.rd.parsed == s.rd.parsed && t.rd.eof == s.rd.eof
    ensures t.w == s.w && t.answers == s.answers && t.sv == s.sv.(wire := t.sv.wire)
    ensures |t.rd.buf| >= |FrameBytes(f)| && t.rd.buf + t.sv.wire == FrameBytes(f) + more
  {
    hide Inv, Reaches, WellFormed, FrameBytes, ParseFrame, Step;
    Seqs.Recut(s.rd.buf, s.sv.wire, FrameBytes(f), more);
    if |s.rd.buf| >= |FrameBytes(f)| {
      Stay(s);
      t := s;
    } else {
      ParsePartial(f, s.rd.buf, FrameBytes(f)[|s.rd.buf|..]);
      var n := |s.sv.wire|;
      assert s.sv.wire[..n] == s.sv.wire && s.sv.wire[n..] == [];
      t := s.(rd := s.rd.(buf := s.rd.buf + s.sv.wire), sv := s.sv.(wire := []));
      assert n > 0 by { assert s.rd.buf + [] == s.rd.buf; }
      assert t == s.(rd := s.rd.(buf := s.rd.buf + s.sv.wire[..n]), sv := s.sv.(wire := s.sv.wire[n..]));
      assert ReadChunk(s, t);
      Step1(s, t);
      assert t.rd.buf + [] == t.rd.buf;
    }
  }

  lemma StepFinishes(k: Kind, c: State, f: Frame)
    requires !c.Finished?
    ensures Step(k, c, f).Finished? <==> f.tag == READY_FOR_QUERY && f.body != []
  {
  }

  lemma RunFirst(k: Kind, c: State, fs: seq<Frame>)
    requires fs != []
    ensures Run(k, c, fs) == Run(k, Step(k, c, fs[0]), fs[1..])
    ensures |fs| == 1 ==> Run(k, c, fs) == Step(k, c, fs[0])
  {
  }

  /** One frame goes to the collector, which asks for more. */
  lemma Feeds(s: Conn, r: Request, c: State, f: Frame, more: seq<byte>) returns (t: Conn)
    requires Serving(s, r, c) && WellFormed(f) && s.rd.buf + s.sv.wire == FrameBytes(f) + more
    requires !(f.tag == READY_FOR_QUERY && f.body != [])
    ensures Reaches(s, t) && Serving(t, r, Step(r.kind, c, f))
    ensures t.w == s.w && t.answers == s.answers && t.sv == s.sv.(wire := t.sv.wire)
    ensures t.rd.buf + t.sv.wire == more
  {
    hide Inv, Reaches, WellFormed, FrameBytes, ParseFrame, Step;
    var u := Fetch(s, r, c, f, more);
    var n := |FrameBytes(f)|;
    Seqs.Recut(u.rd.buf, u.sv.wire, FrameBytes(f), more);
    ParseComplete(f, u.rd.buf[n..]);
    StepFinishes(r.kind, c, f);
    t := u.(rd := Reader([r], [Step(r.kind, c, f)], u.rd.buf[n..], u.rd.parsed + 1, u.rd.eof));
    assert Consume(u, t);
    Then(s, u, t);
  }

  /** The ReadyForQuery goes to the collector, and its answer to the caller. */
  lemma Finishes(s: Conn, r: Request, c: State, f: Frame, rest: seq<byte>) returns (t: Conn)
    requires Serving(s, r, c) && WellFormed(f) && s.rd.buf + s.sv.wire == FrameBytes(f) + rest
    requires f.tag == READY_FOR_QUERY && f.body != []
    ensures Reaches(s, t)
    ensures var c' := Step(r.kind, c, f); c'.Finished? && RoundDone(s, t, r, Delivered(c'.answer, c'.feed), rest)
  {
    hide Inv, Reaches, WellFormed, FrameBytes, ParseFrame, Step;
    var u := Fetch(s, r, c, f, rest);
    var n := |FrameBytes(f)|;
    Seqs.Recut(u.rd.buf, u.sv.wire, FrameBytes(f), rest);
    ParseComplete(f, u.rd.buf[n..]);
    StepFinishes(r.kind, c, f);
    var c' := Step(r.kind, c, f);
    t := u.(rd := Reader([], [], u.rd.buf[n..], u.rd.parsed + 1, u.rd.eof),
      answers := u.answers[r.slot := Delivered(c'.answer, c'.feed)]);
    assert Consume(u, t);
    Then(s, u, t);
  }

  /** The stream ends inside the reply. */
  lemma Loses(s: Conn, r: Request, c: State) returns (t: Conn)
    requires Serving(s, r, c) && s.sv.closed && s.rd.buf + s.sv.wire == []
    ensures Reaches(s, t)
    ensures var (a, fd) := Lose(r.kind, c, ConnectionClosed); RoundDone(s, t, r, ConnectionLost(a, fd), [])
  {
    hide Inv, Reaches, Lose;
    assert s.rd.buf == [] && s.sv.wire == [] by { assert |s.rd.buf + s.sv.wire| == 0; }
    NothingIsIncomplete();
    var (a, fd) := Lose(r.kind, c, ConnectionClosed);
    t := s.(rd := s.rd.(serving := [], running := [], eof := true),
      answers := s.answers[r.slot := ConnectionLost(a, fd)]);
    assert EndOfFile(s, t);
    Step1(s, t);
  }

  lemma {:induction false} CollectorRuns(s: Conn, r: Request, c: State, fs: seq<Frame>, rest: seq<byte>)
      returns (t: Conn)
    requires Serving(s, r, c) && Arrived(s, fs, rest)
    ensures Reaches(s, t)
    ensures var (a, fd) := Lose(r.kind, Run(r.kind, c, fs), ConnectionClosed);
            RoundDone(s, t, r, if Segment(fs) then Delivered(a, fd) else ConnectionLost(a, fd), rest)
    decreases |fs|
  {
    hide Inv, Reaches, WellFormed, FrameBytes, Step, Next, Segment, NoReady, Run;
    if fs == [] {
      assert !Segment(fs) by { EmptyIsNoReply(); }
      assert [] + rest == rest;
      t := Loses(s, r, c);
      EmptyIsNoReply();
    } else {
      ReaderTask.Shorter(fs);
      RunFirst(r.kind, c, fs);
      var more := FlatFrames(fs[1..]) + rest;
      Seqs.Assoc(FrameBytes(fs[0]), FlatFrames(fs[1..]), rest);
      if fs[0].tag == READY_FOR_QUERY {
        assert [] + rest == rest;
        ReadyHasStatus(fs);
        t := Finishes(s, r, c, fs[0], rest);
      } else {
        var u := Feeds(s, r, c, fs[0], more);
        StepFinishes(r.kind, c, fs[0]);
        t := CollectorRuns(u, r, Step(r.kind, c, fs[0]), fs[1..], rest);
        Join(s, u, t);
        SameEnding(fs);
      }
    }
  }

  lemma EmptyIsNoReply()
    ensures !Segment([]) && forall k, c :: Run(k, c, []) == c
  {
  }

  lemma ReadyHasStatus(fs: seq<Frame>)
    requires Segment(fs) && |fs| == 1
    ensures fs[0].body != []
  {
  }

  lemma SameEnding(fs: seq<Frame>)
    requires fs != [] && (Segment(fs) || NoReady(fs)) && fs[0].tag != READY_FOR_QUERY
    ensures Segment(fs[1..]) == Segment(fs)
  {
    ReaderTask.TailEndsAlike(fs);
  }

  /** The round of the reader is a run: pop the oldest pending request, read its reply to the end, answer it. */
  lemma ReadRuns(s: Conn, fs: seq<Frame>, rest: seq<byte>) returns (t: Conn)
    requires s.rd.running == [] && s.w.pending != [] && Arrived(s, fs, rest)
    ensures Reaches(s, t)
    ensures var r := s.w.pending[0];
            var (a, fd) := Collectors.Outcome(r.kind, fs);
            && t.w == s.w.(pending := s.w.pending[1..], popped := s.w.popped + 1)
            && t.answers == s.answers[r.slot := if Segment(fs) then Delivered(a, fd) else ConnectionLost(a, fd)]
            && t.rd.running == [] && t.rd.buf + t.sv.wire == rest
            && t.sv == s.sv.(wire := t.sv.wire)
  {
    hide Inv, Reaches, Segment, NoReady, Lose, Run, WellFormed, FlatFrames;
    var r := s.w.pending[0];
    var u := s.(w := s.w.(pending := s.w.pending[1..], popped := s.w.popped + 1),
      rd := s.rd.(serving := [r], running := [START]));
    assert Pop(s, u);
    Step1(s, u);
    t := CollectorRuns(u, r, START, fs, rest);
    Join(s, u, t);
  }
}
