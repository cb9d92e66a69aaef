/** The collectors as the reader task runs them: loops over `read_msg` that update the connection's flags. */
module ReaderTask {
  import opened Bytes
  import opened Wrappers
  import opened Framing
  import opened Collectors
  import Seqs

  const NOTIFICATION_CAPACITY := 4096

  class Reader {
    const inbound: Inbound
    var stateMutated: bool
    var notifications: seq<seq<byte>>
    var dropped: nat

    constructor (inbound: Inbound)
      ensures this.inbound == inbound && !stateMutated && notifications == [] && dropped == 0
    {
      this.inbound := inbound;
      stateMutated, notifications, dropped := false, [], 0;
    }

    /** The stream holds the frames `fs` and then `rest`; either `fs` is one whole reply, or the
        connection ends in the middle of a reply. */
    ghost predicate Facing(fs: seq<Frame>, rest: seq<byte>)
      reads inbound, inbound.buf
    {
      && (forall f :: f in fs ==> WellFormed(f))
      && inbound.Unread() == FlatFrames(fs) + rest
      && (Segment(fs) || (NoReady(fs) && rest == []))
    }

    method NextFrame(ghost fs: seq<Frame>, ghost rest: seq<byte>) returns (r: Result<Frame, ReadError>)
      requires Facing(fs, rest)
      modifies inbound, inbound.buf
      ensures fs == [] ==> r == Err(ConnectionClosed) && inbound.Unread() == [] == rest
      ensures fs != [] ==> r == Ok(fs[0]) && inbound.Unread() == FlatFrames(fs[1..]) + rest
      ensures fs != [] && fs[0].tag != READY_FOR_QUERY ==> Facing(fs[1..], rest) && SameEnd(fs[1..], fs)
      ensures fs != [] && fs[0].tag == READY_FOR_QUERY ==> |fs| == 1 && Segment(fs) && inbound.Unread() == rest
    {
      NextRead(fs, rest, inbound.buf.data, inbound.chunks);
      if fs != [] { Shorter(fs); }
      r := inbound.ReadMsg();
      if fs != [] && fs[0].tag != READY_FOR_QUERY { TailEndsAlike(fs); }
    }

    /** `note_rfq_status`. */
    method NoteStatus(status: byte)
      modifies this`stateMutated
      ensures stateMutated == (old(stateMutated) || status != 'I' as int)
    {
      if status != 'I' as int { stateMutated := true; }
    }

    /** `notification_tx.try_send`, counting what does not fit. */
    method Forward(body: seq<byte>)
      modifies this`notifications, this`dropped
      ensures (notifications, dropped) == Offer(old(notifications), old(dropped), [body])
    {
      assert notifications + [body][..0] == notifications;
      if |notifications| < NOTIFICATION_CAPACITY { notifications := notifications + [body]; }
      else { dropped := dropped + 1; }
    }

    /** The effect a collector of kind `k` has on the connection's flags when it is given `fs`. */
    twostate predicate Flagged(k: Kind, fs: seq<Frame>)
      reads this
    {
      && stateMutated == (old(stateMutated) || (Segment(fs) && fs[|fs| - 1].body[0] != 'I' as int))
      && (notifications, dropped) == Offer(old(notifications), old(dropped), PassedOn(k, fs))
    }

    /** What a collector's function makes of the reply, or of what there is of it, is a report of it. */
    lemma Promised(k: Kind, fs: seq<Frame>, rest: seq<byte>)
      requires Facing(fs, rest)
      ensures var (a, fd) := Outcome(k, fs); Reports(k, fs, a, fd)
      ensures Heard(k, START, fs) == PassedOn(k, fs)
    {
      OutcomeReports(k, fs);
      HeardIsPassedOn(k, fs);
    }

    method DrainUntilReady(ghost fs: seq<Frame>, ghost rest: seq<byte>) returns (lost: bool)
      requires Facing(fs, rest)
      modifies this`stateMutated, inbound, inbound.buf
      ensures inbound.Unread() == rest
      ensures lost == !Segment(fs)
      ensures stateMutated == (old(stateMutated) || (Segment(fs) && fs[|fs| - 1].body[0] != 'I' as int))
    {
      ghost var left := fs;
      while true
        invariant Facing(left, rest)
        invariant SameEnd(left, fs)
        invariant stateMutated == old(stateMutated)
        decreases |left|
      {
        var r := NextFrame(left, rest);
        if r.Err? { return true; }
        if r.value.tag == READY_FOR_QUERY {
          NoteStatus(r.value.body[0]);
          return false;
        }
        left := left[1..];
      }
    }

    /** Leaving a collector's loop for `drain_until_ready` with the state `s` already decided. */
    method Abandon(ghost k: Kind, ghost s: State, ghost left: seq<Frame>, ghost rest: seq<byte>) returns (lost: bool)
      requires s.Draining? && Facing(left, rest)
      modifies this`stateMutated, inbound, inbound.buf
      ensures inbound.Unread() == rest
      ensures lost == !Segment(left)
      ensures Run(k, s, left) == if lost then s else Finished(s.answer, s.feed, left[|left| - 1].body[0])
      ensures stateMutated == (old(stateMutated) || (Segment(left) && left[|left| - 1].body[0] != 'I' as int))
    {
      RunsToError(k, s, left);
      lost := DrainUntilReady(left, rest);
    }

    /** The same after an ErrorResponse, with the answer to give. */
    method AbandonWith(ghost k: Kind, error: seq<byte>, ghost left: seq<Frame>, ghost rest: seq<byte>)
        returns (a: Answer)
      requires Facing(left, rest)
      modifies this`stateMutated, inbound, inbound.buf
      ensures inbound.Unread() == rest
      ensures a == if Segment(left) then Fail(Server(error)) else Fail(Lost(ConnectionClosed))
      ensures var s := Draining(Fail(Server(error)), NO_FEED);
              Run(k, s, left) == if Segment(left) then Finished(s.answer, NO_FEED, left[|left| - 1].body[0]) else s
      ensures stateMutated == (old(stateMutated) || (Segment(left) && left[|left| - 1].body[0] != 'I' as int))
    {
      var lost := Abandon(k, Draining(Fail(Server(error)), NO_FEED), left, rest);
      a := if lost then Fail(Lost(ConnectionClosed)) else Fail(Server(error));
    }

    method CollectRows(ghost fs: seq<Frame>, ghost rest: seq<byte>) returns (a: Answer)
      requires Facing(fs, rest)
      modifies this, inbound, inbound.buf
      ensures Reports(Rows, fs, a, NO_FEED)
      ensures (a, NO_FEED) == Outcome(Rows, fs) && inbound.Unread() == rest && Flagged(Rows, fs)
    {
      hide Facing, FlatFrames, WellFormed, Offer, Reports, PassedOn;
      Promised(Rows, fs, rest);
      var rows, fields, tag := [], [], [];
      ghost var left := fs;
      Unheard(notifications, dropped);
      while true
        invariant Facing(left, rest)
        invariant SameEnd(left, fs)
        invariant Run(Rows, START, fs) == Run(Rows, Collecting(fields, rows, tag, NO_FEED), left)
        invariant stateMutated == old(stateMutated)
        invariant Offer(old(notifications), old(dropped), Heard(Rows, START, fs))
               == Offer(notifications, dropped, Heard(Rows, Collecting(fields, rows, tag, NO_FEED), left))
        decreases |left|
      {
        ghost var s := Collecting(fields, rows, tag, NO_FEED);
        Unheard(notifications, dropped);
        var r := NextFrame(left, rest);
        if r.Err? { return Fail(Lost(r.error)); }
        var msg := r.value;
        HeardStep(Rows, s, left, notifications, dropped);
        if msg.tag == DATA_ROW { rows := rows + [msg.body]; }
        else if msg.tag == ROW_DESCRIPTION { fields := msg.body; }
        else if msg.tag == COMMAND_COMPLETE { tag := msg.body; }
        else if msg.tag == READY_FOR_QUERY {
          assert left[1..] == [];
          NoteStatus(msg.body[0]);
          return RowSet(fields, rows, tag);
        } else if msg.tag == ERROR_RESPONSE {
          a := AbandonWith(Rows, msg.body, left[1..], rest);
          return;
        } else if msg.tag == NOTIFICATION {
          Forward(msg.body);
        }
        left := left[1..];
      }
    }

    method CollectCopyInResponse(ghost fs: seq<Frame>, ghost rest: seq<byte>) returns (a: Answer)
      requires Facing(fs, rest)
      modifies this, inbound, inbound.buf
      ensures Reports(CopyIn, fs, a, NO_FEED)
      ensures (a, NO_FEED) == Outcome(CopyIn, fs) && inbound.Unread() == rest && Flagged(CopyIn, fs)
    {
      hide Facing, FlatFrames, WellFormed, Offer, Reports, PassedOn;
      Promised(CopyIn, fs, rest);
      var tag := [];
      ghost var left := fs;
      Unheard(notifications, dropped);
      while true
        invariant Facing(left, rest)
        invariant SameEnd(left, fs)
        invariant Run(CopyIn, START, fs) == Run(CopyIn, Collecting([], [], tag, NO_FEED), left)
        invariant unchanged(this)
        decreases |left|
      {
        var r := NextFrame(left, rest);
        if r.Err? { return Fail(Lost(r.error)); }
        var msg := r.value;
        if msg.tag == COMMAND_COMPLETE { tag := msg.body; }
        else if msg.tag == READY_FOR_QUERY {
          assert left[1..] == [];
          NoteStatus(msg.body[0]);
          return RowSet([], [], tag);
        } else if msg.tag == ERROR_RESPONSE {
          a := AbandonWith(CopyIn, msg.body, left[1..], rest);
          return;
        }
        left := left[1..];
      }
    }

    method CollectCopyOut(ghost fs: seq<Frame>, ghost rest: seq<byte>) returns (a: Answer)
      requires Facing(fs, rest)
      modifies this, inbound, inbound.buf
      ensures Reports(CopyOut, fs, a, NO_FEED)
      ensures (a, NO_FEED) == Outcome(CopyOut, fs) && inbound.Unread() == rest && Flagged(CopyOut, fs)
    {
      hide Facing, FlatFrames, WellFormed, Offer, Reports, PassedOn;
      Promised(CopyOut, fs, rest);
      var chunks, tag := [], [];
      ghost var left := fs;
      Unheard(notifications, dropped);
      while true
        invariant Facing(left, rest)
        invariant SameEnd(left, fs)
        invariant Run(CopyOut, START, fs) == Run(CopyOut, Collecting([], chunks, tag, NO_FEED), left)
        invariant unchanged(this)
        decreases |left|
      {
        var r := NextFrame(left, rest);
        if r.Err? { return Fail(Lost(r.error)); }
        var msg := r.value;
        if msg.tag == COPY_DATA { chunks := chunks + [msg.body]; }
        else if msg.tag == COMMAND_COMPLETE { tag := msg.body; }
        else if msg.tag == READY_FOR_QUERY {
          assert left[1..] == [];
          NoteStatus(msg.body[0]);
          return RowSet([], chunks, tag);
        } else if msg.tag == ERROR_RESPONSE {
          a := AbandonWith(CopyOut, msg.body, left[1..], rest);
          return;
        }
        left := left[1..];
      }
    }

    method StreamRows(dropAfter: nat, ghost fs: seq<Frame>, ghost rest: seq<byte>) returns (feed: Feed)
      requires Facing(fs, rest)
      modifies this, inbound, inbound.buf
      ensures Reports(Stream(dropAfter), fs, Done, feed)
      ensures (Done, feed) == Outcome(Stream(dropAfter), fs) && inbound.Unread() == rest
          && Flagged(Stream(dropAfter), fs)
    {
      hide Facing, FlatFrames, WellFormed, Offer, Reports, PassedOn;
      Promised(Stream(dropAfter), fs, rest);
      ghost var k := Stream(dropAfter);
      var fields := [];
      feed := NO_FEED;
      ghost var left := fs;
      Unheard(notifications, dropped);
      while true
        invariant Facing(left, rest)
        invariant SameEnd(left, fs)
        invariant Run(k, START, fs) == Run(k, Collecting(fields, [], [], feed), left)
        invariant stateMutated == old(stateMutated)
        invariant Offer(old(notifications), old(dropped), Heard(k, START, fs))
               == Offer(notifications, dropped, Heard(k, Collecting(fields, [], [], feed), left))
        decreases |left|
      {
        ghost var s := Collecting(fields, [], [], feed);
        Unheard(notifications, dropped);
        var r := NextFrame(left, rest);
        if r.Err? {
          feed := if feed.header.None? then SendHeader(feed, Err(Lost(r.error)))
                  else SendItem(feed, dropAfter, Err(Lost(r.error)));
          return;
        }
        var msg := r.value;
        HeardStep(k, s, left, notifications, dropped);
        if msg.tag == ROW_DESCRIPTION { fields := msg.body; }
        else if msg.tag == DATA_ROW {
          feed := SendHeader(feed, Ok(fields));
          if |feed.items| < dropAfter {
            feed := SendItem(feed, dropAfter, Ok(msg.body));
          } else {
            var _ := Abandon(k, Draining(Done, feed), left[1..], rest);
            return;
          }
        } else if msg.tag == COMMAND_COMPLETE {
          if feed.header.None? { feed, fields := SendHeader(feed, Ok(fields)), []; }
        } else if msg.tag == READY_FOR_QUERY {
          assert left[1..] == [];
          NoteStatus(msg.body[0]);
          feed := SendHeader(feed, Ok(fields));
          return;
        } else if msg.tag == ERROR_RESPONSE {
          feed := if feed.header.None? then SendHeader(feed, Err(Server(msg.body)))
                  else SendItem(feed, dropAfter, Err(Server(msg.body)));
          var _ := Abandon(k, Draining(Done, feed), left[1..], rest);
          return;
        } else if msg.tag == NOTIFICATION {
          Forward(msg.body);
        }
        left := left[1..];
      }
    }

    /** `drain_until_ready` when it is the request's own collector. */
    method CollectDrain(ghost fs: seq<Frame>, ghost rest: seq<byte>) returns (a: Answer)
      requires Facing(fs, rest)
      modifies this, inbound, inbound.buf
      ensures Reports(Drain, fs, a, NO_FEED)
      ensures (a, NO_FEED) == Outcome(Drain, fs) && inbound.Unread() == rest && Flagged(Drain, fs)
    {
      Promised(Drain, fs, rest);
      Unheard(notifications, dropped);
      DrainOutcome(START, fs);
      var lost := DrainUntilReady(fs, rest);
      a := if lost then Fail(Lost(ConnectionClosed)) else Done;
    }

    /** The reader task's dispatch on the collector of the request it popped. */
    method Collect(k: Kind, ghost fs: seq<Frame>, ghost rest: seq<byte>) returns (a: Answer, feed: Feed)
      requires Facing(fs, rest)
      modifies this, inbound, inbound.buf
      ensures Reports(k, fs, a, feed)
      ensures (a, feed) == Outcome(k, fs) && inbound.Unread() == rest && Flagged(k, fs)
    {
      a, feed := Done, NO_FEED;
      match k {
        case Rows => a := CollectRows(fs, rest);
        case Drain => a := CollectDrain(fs, rest);
        case Stream(n) => feed := StreamRows(n, fs, rest);
        case CopyIn => a := CollectCopyInResponse(fs, rest);
        case CopyOut => a := CollectCopyOut(fs, rest);
      }
    }
  }

  /** Offering `bodies` to the notification channel: what fits is queued in order, the rest is counted. */
  function Offer(queued: seq<seq<byte>>, dropped: nat, bodies: seq<seq<byte>>): (r: (seq<seq<byte>>, nat))
    ensures queued <= r.0 && |r.0| - |queued| + (r.1 - dropped) == |bodies|
    ensures |r.0| > |queued| ==> |r.0| <= 4096
    ensures r.0[|queued|..] <= bodies && (r.1 > dropped ==> |r.0| >= 4096)
  {
    var room := if |queued| < NOTIFICATION_CAPACITY then NOTIFICATION_CAPACITY - |queued| else 0;
    if |bodies| <= room then (queued + bodies, dropped) else (queued + bodies[..room], dropped + (|bodies| - room))
  }

  lemma Unheard(queued: seq<seq<byte>>, dropped: nat)
    ensures Offer(queued, dropped, []) == (queued, dropped)
  {
    assert queued + [] == queued;
  }

  /** One loop iteration of a forwarding collector, seen from the notification channel. */
  lemma HeardStep(k: Kind, s: State, fs: seq<Frame>, queued: seq<seq<byte>>, dropped: nat)
    requires s.Collecting? && fs != [] && (k.Rows? || k.Stream?)
    ensures var next := Step(k, s, fs[0]);
            Offer(queued, dropped, Heard(k, s, fs)) ==
              if !next.Collecting? then (queued, dropped)
              else if fs[0].tag != NOTIFICATION then Offer(queued, dropped, Heard(k, next, fs[1..]))
              else var (q, d) := Offer(queued, dropped, [fs[0].body]); Offer(q, d, Heard(k, next, fs[1..]))
  {
    var more := Heard(k, Step(k, s, fs[0]), fs[1..]);
    Unheard(queued, dropped);
    OfferAppend(queued, dropped, [fs[0].body], more);
    assert [] + more == more;
  }

  lemma OfferAppend(queued: seq<seq<byte>>, dropped: nat, a: seq<seq<byte>>, b: seq<seq<byte>>)
    ensures Offer(queued, dropped, a + b) == var (q, d) := Offer(queued, dropped, a); Offer(q, d, b)
  {
    var room := if |queued| < NOTIFICATION_CAPACITY then NOTIFICATION_CAPACITY - |queued| else 0;
    if |a + b| <= room {
      assert queued + (a + b) == queued + a + b;
    } else if |a| <= room {
      assert (a + b)[..room] == a + b[..room - |a|];
      assert queued + (a + b[..room - |a|]) == queued + a + b[..room - |a|];
    } else {
      assert (a + b)[..room] == a[..room];
      assert queued + a[..room] + b[..0] == queued + a[..room];
    }
  }

  lemma {:induction false} EndOfFile(buf: seq<byte>, chunks: seq<seq<byte>>)
    requires buf + Flat(chunks) == []
    ensures var (r, buf', chunks') := ReadFrom(buf, chunks); r == Err(ConnectionClosed) && buf' + Flat(chunks') == []
    decreases |chunks|
  {
    assert |buf| + |Flat(chunks)| == 0;
    if chunks != [] {
      assert |Flat(chunks)| == |chunks[0]| + |Flat(chunks[1..])|;
      EndOfFile(buf + chunks[0], chunks[1..]);
    }
  }

  /** What reading one message does, whatever the chunks. */
  lemma NextRead(fs: seq<Frame>, rest: seq<byte>, buf: seq<byte>, chunks: seq<seq<byte>>)
    requires (forall f :: f in fs ==> WellFormed(f)) && buf + Flat(chunks) == FlatFrames(fs) + rest
    requires fs == [] ==> rest == []
    ensures var (r, buf', chunks') := ReadFrom(buf, chunks);
            if fs == [] then r == Err(ConnectionClosed) && buf' + Flat(chunks') == []
            else r == Ok(fs[0]) && buf' + Flat(chunks') == FlatFrames(fs[1..]) + rest
    ensures |fs| == 1 ==> FlatFrames(fs[1..]) + rest == rest
  {
    if fs == [] {
      EndOfFile(buf, chunks);
    } else {
      Seqs.Assoc(FrameBytes(fs[0]), FlatFrames(fs[1..]), rest);
      ReadNext(fs[0], FlatFrames(fs[1..]) + rest, buf, chunks);
    }
  }

  lemma Shorter(fs: seq<Frame>)
    requires fs != [] && (Segment(fs) || NoReady(fs))
    ensures fs[0].tag == READY_FOR_QUERY ==> |fs| == 1 && Segment(fs)
    ensures fs[0].tag != READY_FOR_QUERY ==> if Segment(fs) then Segment(fs[1..]) else NoReady(fs[1..])
  {
    assert fs[0] in fs;
    if Segment(fs) && |fs| > 1 { SegmentTail(fs); }
  }

  ghost predicate SameEnd(a: seq<Frame>, b: seq<Frame>) {
    Segment(a) == Segment(b) && (Segment(b) ==> a[|a| - 1] == b[|b| - 1])
  }

  lemma TailEndsAlike(fs: seq<Frame>)
    requires fs != [] && (Segment(fs) || NoReady(fs)) && fs[0].tag != READY_FOR_QUERY
    ensures SameEnd(fs[1..], fs)
  {
    Shorter(fs);
    if Segment(fs[1..]) && NoReady(fs) { assert fs[1..][|fs[1..]| - 1] in fs; }
  }

  /** Once only the ReadyForQuery is awaited, nothing but losing the connection can change the answer. */
  lemma {:induction false} RunsToError(k: Kind, s: State, fs: seq<Frame>)
    requires s.Draining? && (Segment(fs) || NoReady(fs))
    ensures Run(k, s, fs) == if Segment(fs) then Finished(s.answer, s.feed, fs[|fs| - 1].body[0]) else s
    decreases |fs|
  {
    if Segment(fs) {
      DrainingKeepsAnswer(k, s, fs);
    } else if fs != [] {
      assert fs[0] in fs;
      Shorter(fs);
      TailEndsAlike(fs);
      RunsToError(k, s, fs[1..]);
    }
  }

  lemma {:induction false} DrainOutcome(s: State, fs: seq<Frame>)
    requires s.Collecting? && (Segment(fs) || NoReady(fs))
    ensures Run(Drain, s, fs) == if Segment(fs) then Finished(Done, s.feed, fs[|fs| - 1].body[0]) else s
    decreases |fs|
  {
    if Segment(fs) {
      DrainReports(s, fs);
    } else if fs != [] {
      assert fs[0] in fs;
      TailEndsAlike(fs);
      DrainOutcome(s, fs[1..]);
    }
  }
}
