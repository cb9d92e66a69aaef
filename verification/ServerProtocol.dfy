/** The server side of the message flow as an automaton over whole messages: PostgreSQL 16 documentation,
    sections 55.2.2 (simple query), 55.2.3 (extended query), 55.2.4 (pipelining) and 55.2.6 (COPY). */
module ServerProtocol {
  import opened Bytes
  import opened Framing
  import opened Collectors

  datatype Message =
    | Query | Parse | Bind | Describe | Execute | Close | Flush | Sync | CopyData | CopyDone | Terminate

  datatype Mode =
    | Ready       // processing messages normally
    | CopyingIn   // inside COPY FROM STDIN started by a simple query
    | Skipping    // after an extended-query error, discarding up to Sync

  predicate Quiet(fs: seq<Frame>) {
    NoReady(fs) && forall f :: f in fs ==> WellFormed(f)
  }

  predicate Replies1(fs: seq<Frame>) {
    Segment(fs) && forall f :: f in fs ==> WellFormed(f)
  }

  predicate EndsInError(fs: seq<Frame>) {
    fs != [] && fs[|fs| - 1].tag == ERROR_RESPONSE
  }

  /** In `mode`, the server may answer `m` with the frames `out` and continue in `mode'`. */
  predicate Reacts(mode: Mode, m: Message, out: seq<Frame>, mode': Mode) {
    match mode
    case Ready => (
      match m
      case Query => (Replies1(out) && mode' == Ready) || (Quiet(out) && mode' == CopyingIn)
      case Sync => Replies1(out) && mode' == Ready
      case Flush => out == [] && mode' == Ready
      case CopyData => out == [] && mode' == Ready     // left over from a COPY that already failed: dropped
      case CopyDone => out == [] && mode' == Ready
      case Terminate => false
      case _ => Quiet(out) && (mode' == Ready || (mode' == Skipping && EndsInError(out)))
    )
    case CopyingIn => (
      match m
      case CopyData => (out == [] && mode' == CopyingIn) || (Replies1(out) && mode' == Ready)
      case CopyDone => Replies1(out) && mode' == Ready
      case Flush => out == [] && mode' == CopyingIn
      case Sync => out == [] && mode' == CopyingIn
      case Terminate => false
      case _ => Replies1(out) && mode' == Ready
    )
    case Skipping => (
      match m
      case Sync => Replies1(out) && mode' == Ready
      case Terminate => false
      case _ => out == [] && mode' == Skipping
    )
  }

  /** Messages the server may send at any moment, outside any reply. */
  predicate Asynchronous(f: Frame) {
    WellFormed(f) && (f.tag == NOTICE || f.tag == NOTIFICATION || f.tag == PARAMETER_STATUS)
  }

  // ----- the requests this client builds -----

  predicate SimpleRequest(ms: seq<Message>) { ms == [Query] }

  predicate ExtendedStep(m: Message) {
    m == Parse || m == Bind || m == Describe || m == Execute || m == Close || m == Flush
  }

  predicate ExtendedRequest(ms: seq<Message>) {
    && ms != [] && ms[|ms| - 1] == Sync
    && forall i :: 0 <= i < |ms| - 1 ==> ExtendedStep(ms[i])
  }

  predicate CopyInRequest(ms: seq<Message>) {
    && |ms| >= 2 && ms[0] == Query && ms[|ms| - 1] == CopyDone
    && forall i :: 1 <= i < |ms| - 1 ==> ms[i] == CopyData
  }

  predicate TerminateRequest(ms: seq<Message>) { ms == [Terminate] }

  predicate WellShaped(ms: seq<Message>) {
    SimpleRequest(ms) || ExtendedRequest(ms) || CopyInRequest(ms) || TerminateRequest(ms)
  }

  /** Where the server stands inside a request: `p` of its messages processed, and whether the request's
      ReadyForQuery has already been sent. */
  predicate InRequest(ms: seq<Message>, p: nat, mode: Mode, replied: bool) {
    if p == 0 then mode == Ready && !replied
    else if p == |ms| then mode == Ready && replied
    else
      && p < |ms|
      && (ExtendedRequest(ms) ==> (mode == Ready || mode == Skipping) && !replied)
      && (CopyInRequest(ms) ==> (mode == CopyingIn && !replied) || (mode == Ready && replied))
  }

  /** Main result of the protocol: processing the messages of one request, whatever errors occur, sends exactly
      one ReadyForQuery, never anything after it, and leaves the server ready for the next request. */
  lemma OneReplyPerRequest(ms: seq<Message>, p: nat, mode: Mode, replied: bool, out: seq<Frame>, mode': Mode)
    requires WellShaped(ms) && p < |ms| && InRequest(ms, p, mode, replied)
    requires Reacts(mode, ms[p], out, mode')
    requires mode' == CopyingIn ==> CopyInRequest(ms)
    ensures replied ==> out == []
    ensures Quiet(out) || (Replies1(out) && !replied)
    ensures InRequest(ms, p + 1, mode', replied || Segment(out))
  {
    if Segment(out) { assert out[|out| - 1] in out; }
    if ExtendedRequest(ms) && p < |ms| - 1 { assert ExtendedStep(ms[p]); }
  }
}
