/** Pool and sessions together: what the server's transaction state is when a pooled connection changes hands.
    Requests on one connection reach the server in the order they were queued (module Multiplexer). */
module SessionHygiene {
  import opened Pool

  datatype Txn = NoTxn | Open | Failed

  /** What a request does to the transaction state.  `Statement` is any SQL without transaction control. */
  datatype Cmd = Begin | Commit | Rollback | DiscardAll | Statement

  function Process(t: Txn, c: Cmd, fails: bool): Txn {
    match c
    case Begin => if t == NoTxn then Open else t
    case Commit => NoTxn
    case Rollback => NoTxn
    case DiscardAll => if t == NoTxn then NoTxn else Failed   // refused inside a transaction block
    case Statement => if t == Open && fails then Failed else t
  }

  datatype Session = Session(
    txn: Txn,
    queue: seq<Cmd>,        // queued by the client, not yet processed by the server
    up: bool,               // the writer task still accepts requests
    hears: bool,            // answers still arrive; the writer may go on after this has ended
    alive: bool,            // the flag `is_alive` reads; lags behind both
    broken: bool,
    mutated: bool,
    discarding: bool,       // a reset has submitted DISCARD ALL and waits for it
    handles: nat,           // transaction values of the holder not yet committed, rolled back or dropped
    ahead: nat,             // history: queued requests that predate the current holder
    served: bool)           // history: the server has taken up the current holder's first request

  const FRESH := Session(NoTxn, [], true, true, true, false, false, false, 0, 0, false)

  /** Whether a transaction is open once everything in `queue` has been processed, whatever fails on the way. */
  function OpenAfter(open: bool, queue: seq<Cmd>): bool
    decreases |queue|
  {
    if queue == [] then open else OpenAfter(OpenThen(open, queue[0]), queue[1..])
  }

  function OpenThen(open: bool, c: Cmd): bool {
    match c
    case Begin => true
    case Commit => false
    case Rollback => false
    case _ => open
  }

  lemma {:induction false} OpenAfterThen(open: bool, queue: seq<Cmd>, c: Cmd)
    ensures OpenAfter(open, queue + [c]) == OpenThen(OpenAfter(open, queue), c)
    decreases |queue|
  {
    if queue == [] {
      assert queue + [c] == [c] && [c][1..] == [];
    } else {
      assert (queue + [c])[1..] == queue[1..] + [c];
      OpenAfterThen(OpenThen(open, queue[0]), queue[1..], c);
    }
  }

  // ----- the combined machine -----

  datatype System = System(pool: State, sess: map<Conn, Session>)

  ghost predicate Init(y: System, minIdle: nat) {
    && Pool.Init(y.pool, minIdle)
    && y.sess.Keys == y.pool.loc.Keys
    && forall c :: c in y.sess ==> y.sess[c] == FRESH
  }

  /** `has_pending_data`. */
  predicate Unhealthy(x: Session) { !x.alive || x.broken }

  /** Which pool steps the state of the session allows. */
  predicate Allowed(y: System, a: Action)
    requires Enabled(y.pool, a) && y.sess.Keys == y.pool.loc.Keys
  {
    match a
    case DropGuard(c) => y.sess[c].handles == 0       // a transaction borrows its client
    case FoundBroken(c) => Unhealthy(y.sess[c])
    case FoundHealthy(c) => !Unhealthy(y.sess[c])
    // take_state_mutated was false, or DISCARD ALL came back
    case ResetPasses(c) =>
      if y.sess[c].discarding then y.sess[c].queue == [] && y.sess[c].hears else y.sess[c].alive && !y.sess[c].mutated
    case ResetFails(c) => if y.sess[c].discarding then !y.sess[c].up || !y.sess[c].hears else !y.sess[c].alive
    case TakeInUse(c) => y.sess[c].handles == 0
    case _ => true
  }

  function Follow(y: System, a: Action): map<Conn, Session>
    requires Enabled(y.pool, a) && y.sess.Keys == y.pool.loc.Keys
  {
    match a
    case ConnectOk(c, _) => y.sess[c := FRESH]
    case CheckOut(c) => y.sess[c := y.sess[c].(ahead := |y.sess[c].queue|, served := false)]
    case ResetPasses(c) => y.sess[c := y.sess[c].(discarding := false)]
    case _ => y.sess
  }

  /** What happens on one connection between pool steps. */
  datatype Event =
    | Query                  // the holder queues a statement; it may give up waiting for it
    | StartBegin             // begin / begin_with
    | BeginFails             // begin returns an error because the connection is gone: no transaction value
    | Finish(commit: bool)   // commit / rollback, awaited
    | DropTransaction(queued: bool)
    | StartDiscard           // reset, slow path
    | ServerStep(fails: bool)
    | ReaderFlags            // ReadyForQuery with a non-idle status was read
    | WriterExits(written: nat)   // requests not written by then are lost
    | ReadingEnds                 // end of file or a read error; requests under way fail, the writer goes on
    | FlagDead

  predicate Holder(e: Event) { e.Query? || e.StartBegin? || e.BeginFails? || e.Finish? || e.DropTransaction? }

  predicate Possible(x: Session, l: Loc, e: Event) {
    && (Holder(e) ==> l == CheckedOut)
    && match e
       case Query => true
       case StartBegin => true
       case BeginFails => x.handles > 0 && (!x.up || !x.hears)
       case Finish(_) => x.handles > 0
       case DropTransaction(queued) => x.handles > 0 && (queued ==> x.alive && x.up)
       case StartDiscard => l == Resetting && x.alive && x.mutated && !x.discarding
       case ServerStep(_) => x.queue != []
       case ReaderFlags => true
       case WriterExits(written) => written <= |x.queue|
       case ReadingEnds => true
       case FlagDead => !x.up || !x.hears
  }

  function Enqueue(x: Session, c: Cmd): Session {
    if x.up then x.(queue := x.queue + [c]) else x
  }

  function Happen(x: Session, e: Event): Session
    requires e.ServerStep? ==> x.queue != []
    requires e.WriterExits? ==> e.written <= |x.queue|
    requires e.BeginFails? || e.Finish? || e.DropTransaction? ==> x.handles > 0
  {
    match e
    case Query => Enqueue(x, Statement)
    case StartBegin => Enqueue(x.(mutated := true), Begin).(handles := x.handles + 1)
    case BeginFails => x.(handles := x.handles - 1)
    case Finish(commit) => Enqueue(x.(mutated := true), if commit then Commit else Rollback).(handles := x.handles - 1)
    case DropTransaction(queued) =>
      // is_alive && enqueue_rollback, else mark_broken; nothing at all on a dead connection
      var y := x.(handles := x.handles - 1);
      if !x.alive then y else if queued then Enqueue(y, Rollback) else y.(broken := true)
    case StartDiscard => Enqueue(x.(mutated := false, discarding := true), DiscardAll)
    case ServerStep(fails) =>
      x.(txn := Process(x.txn, x.queue[0], fails), queue := x.queue[1..],
         ahead := if x.ahead > 0 then x.ahead - 1 else 0, served := x.served || x.ahead == 0)
    case ReaderFlags => x.(mutated := true)
    case WriterExits(written) => x.(up := false, queue := x.queue[..written])
    case ReadingEnds => x.(hears := false)
    case FlagDead => x.(alive := false)
  }

  ghost predicate PoolMoves(y: System, z: System) {
    exists a: Action ::
      && Enabled(y.pool, a) && y.sess.Keys == y.pool.loc.Keys && Allowed(y, a)
      && z == System(Apply(y.pool, a), Follow(y, a))
  }

  ghost predicate SessionMoves(y: System, z: System) {
    exists c: Conn, e: Event ::
      && c in y.sess && c in y.pool.loc && Possible(y.sess[c], y.pool.loc[c], e)
      && z == y.(sess := y.sess[c := Happen(y.sess[c], e)])
  }

  ghost predicate Next(y: System, z: System) { PoolMoves(y, z) || SessionMoves(y, z) }

  // ----- invariant -----

  /** Once the queue is through, no transaction is open; irrelevant when nothing can be queued any more. */
  predicate Settled(x: Session) { x.up ==> !OpenAfter(x.txn != NoTxn, x.queue) }

  /** The part of the queue that predates the current holder leaves no transaction open.  This matters as long as the
      holder's first request is still to come: the writer accepts it, or it is in the queue already. */
  predicate CleanStart(x: Session) {
    && (x.up ==> x.ahead <= |x.queue|)
    && ((x.up || x.ahead < |x.queue|) && !x.served ==> !OpenAfter(x.txn != NoTxn, x.queue[..x.ahead]))
  }

  /** A begin that failed because its answer was lost leaves its BEGIN queued and no handle to end it.  Such a session
      is never reset: it counts as changed, and the answer to DISCARD ALL is lost as well. */
  predicate Doomed(x: Session) { !x.hears && (x.mutated || x.discarding) }

  /** Places of a connection that has been reset, until it has a holder. */
  predicate Ready(l: Loc) { l in {Clean, Unclaimed, Idle, Held} || l.Delivered? }

  predicate SessionInv(x: Session, l: Loc) {
    && (!x.alive ==> !x.up || !x.hears)
    && (x.handles > 0 ==> x.mutated)
    && (l == CheckedOut ==> CleanStart(x))
    && (x.handles == 0 && !x.broken ==> Settled(x) || Doomed(x))
    && (Ready(l) ==> Settled(x) && !x.discarding)
    && (x.discarding ==> l !in {CheckedOut, Returning, Returned})
    && (l != CheckedOut ==> x.handles == 0)
    && (Vetted(l) ==> !x.broken)
  }

  ghost predicate Inv(y: System) {
    && Pool.Inv(y.pool)
    && y.sess.Keys == y.pool.loc.Keys
    && forall c :: c in y.sess ==> SessionInv(y.sess[c], y.pool.loc[c])
  }

  /** A queued command: what was ahead of the holder stays ahead, and the outcome of the queue is extended. */
  lemma EnqueueKeeps(x: Session, c: Cmd)
    requires CleanStart(x)
    ensures var y := Enqueue(x, c);
            && CleanStart(y) && y.ahead == x.ahead
            && (x.up ==> OpenAfter(y.txn != NoTxn, y.queue) == OpenThen(OpenAfter(x.txn != NoTxn, x.queue), c))
  {
    OpenAfterThen(x.txn != NoTxn, x.queue, c);
    if x.ahead <= |x.queue| { assert (x.queue + [c])[..x.ahead] == x.queue[..x.ahead]; }
  }

  lemma HolderInv(x: Session, e: Event)
    requires SessionInv(x, CheckedOut) && Possible(x, CheckedOut, e) && Holder(e)
    ensures SessionInv(Happen(x, e), CheckedOut)
  {
    match e {
      case Query => EnqueueKeeps(x, Statement);
      case StartBegin => EnqueueKeeps(x.(mutated := true), Begin);
      case Finish(commit) => EnqueueKeeps(x.(mutated := true), if commit then Commit else Rollback);
      case DropTransaction(queued) => if x.alive && queued { EnqueueKeeps(x.(handles := x.handles - 1), Rollback); }
      case _ =>
    }
  }

  lemma ServerStepInv(x: Session, l: Loc, fails: bool)
    requires SessionInv(x, l) && x.queue != []
    ensures SessionInv(Happen(x, ServerStep(fails)), l)
  {
    var y := Happen(x, ServerStep(fails));
    assert (y.txn != NoTxn) == OpenThen(x.txn != NoTxn, x.queue[0]);
    if l == CheckedOut && 0 < x.ahead <= |x.queue| {
      assert x.queue[..x.ahead][0] == x.queue[0] && y.queue[..y.ahead] == x.queue[..x.ahead][1..];
    }
  }

  lemma HappenInv(x: Session, l: Loc, e: Event)
    requires SessionInv(x, l) && Possible(x, l, e)
    ensures SessionInv(Happen(x, e), l)
  {
    if Holder(e) {
      HolderInv(x, e);
    } else if e.ServerStep? {
      ServerStepInv(x, l, e.fails);
    } else if e.StartDiscard? {
      OpenAfterThen(x.txn != NoTxn, x.queue, DiscardAll);
    } else if e.WriterExits? && x.ahead < e.written {
      assert x.queue[..e.written][..x.ahead] == x.queue[..x.ahead];
    }
  }

  /** Places a connection reaches only after being found healthy, and keeps until it has a holder. */
  predicate Vetted(l: Loc) { l == Resetting || Ready(l) }

  /** Which connection a pool step moves, and where to; nothing else changes place, except that a departing waiter
      strands what it was handed. */
  lemma MovesOne(s: State, a: Action)
    requires Enabled(s, a) && (HandsOut(a) || TakesBack(a) || LetsGo(a))
    ensures a.c in Apply(s, a).loc && Apply(s, a).loc == s.loc[a.c := Apply(s, a).loc[a.c]]
  {
    if HandsOut(a) { HandsOutMatches(s, a); }
    else if TakesBack(a) { TakesBackMatches(s, a); }
    else { LetsGoMatches(s, a); }
  }

  lemma MovesNone(s: State, a: Action)
    requires Enabled(s, a) && !(HandsOut(a) || TakesBack(a) || LetsGo(a))
    ensures Apply(s, a).loc.Keys == s.loc.Keys
    ensures forall c :: c in s.loc ==>
      var l, l' := s.loc[c], Apply(s, a).loc[c];
      l' == l || (l == Clean && l'.Delivered?) || (l.Delivered? && l' == Stranded)
  {
  }

  /** How step `a` may move connection `c` from `l` to `l'`. */
  predicate Shape(a: Action, c: Conn, l: Loc, l': Loc) {
    && (l' == CheckedOut ==> l == CheckedOut || (l == Held && a == CheckOut(c)))
    && (l == CheckedOut && l' != CheckedOut ==> a == DropGuard(c) || a == TakeInUse(c))
    && (Vetted(l') ==> Vetted(l) || a == FoundHealthy(c))
    && (Ready(l') ==> Ready(l) || (l == Resetting && a == ResetPasses(c)))
    && (l' == Returning ==> l == Returning || l == CheckedOut)
    && (l' == Returned ==> l == Returned || l == Returning)
  }

  /** How one pool step moves one connection. */
  lemma MoveShape(s: State, a: Action, c: Conn)
    requires Enabled(s, a) && c in s.loc
    ensures c in Apply(s, a).loc && Shape(a, c, s.loc[c], Apply(s, a).loc[c])
  {
    hide Shape;
    if HandsOut(a) || TakesBack(a) || LetsGo(a) {
      MovesOne(s, a);
      if a.c == c { MovedShape(s, a); } else { Stays(a, c, s.loc[c]); }
    } else {
      MovesNone(s, a);
      Passes(a, c, s.loc[c], Apply(s, a).loc[c]);
    }
  }

  lemma MovedShape(s: State, a: Action)
    requires Enabled(s, a) && (HandsOut(a) || TakesBack(a) || LetsGo(a)) && a.c in s.loc && a.c in Apply(s, a).loc
    ensures Shape(a, a.c, s.loc[a.c], Apply(s, a).loc[a.c])
  {
    hide Shape;
    if HandsOut(a) { HandedOutShape(s, a); }
    else if TakesBack(a) { TakenBackShape(s, a); }
    else { LetGoShape(s, a); }
  }

  lemma HandedOutShape(s: State, a: Action)
    requires Enabled(s, a) && HandsOut(a) && a.c in s.loc && a.c in Apply(s, a).loc
    ensures Shape(a, a.c, s.loc[a.c], Apply(s, a).loc[a.c])
  {
  }

  lemma TakenBackShape(s: State, a: Action)
    requires Enabled(s, a) && TakesBack(a) && a.c in Apply(s, a).loc
    ensures Shape(a, a.c, s.loc[a.c], Apply(s, a).loc[a.c])
  {
  }

  lemma LetGoShape(s: State, a: Action)
    requires Enabled(s, a) && LetsGo(a) && a.c in Apply(s, a).loc
    ensures Shape(a, a.c, s.loc[a.c], Apply(s, a).loc[a.c])
  {
  }

  lemma Stays(a: Action, c: Conn, l: Loc)
    ensures Shape(a, c, l, l)
  {
  }

  lemma Passes(a: Action, c: Conn, l: Loc, l': Loc)
    requires l' == l || (l == Clean && l'.Delivered?) || (l.Delivered? && l' == Stranded)
    ensures Shape(a, c, l, l')
  {
  }

  lemma NewConnection(s: State, a: Action, c: Conn)
    requires Enabled(s, a) && c !in s.loc && c in Apply(s, a).loc
    ensures a.ConnectOk? && a.c == c && Vetted(Apply(s, a).loc[c])
  {
  }

  lemma MoveKeepsSession(x: Session, x': Session, l: Loc, l': Loc)
    requires SessionInv(x, l)
    requires l' == CheckedOut ==>
               (l == CheckedOut && x' == x) || (l == Held && x' == x.(ahead := |x.queue|, served := false))
    requires l' != CheckedOut ==> x' == x || (Ready(l') && x' == x.(discarding := false))
    requires l == CheckedOut && l' != CheckedOut ==> x.handles == 0
    requires Vetted(l') ==> Vetted(l) || !x.broken
    requires Ready(l') ==> !x'.discarding && (Ready(l) || Settled(x))
    requires l' == Returning || l' == Returned ==> l == CheckedOut || l == Returning || l == Returned
    ensures SessionInv(x', l')
  {
    assert x.queue[..|x.queue|] == x.queue;
  }

  lemma FollowShape(y: System, a: Action, c: Conn)
    requires Enabled(y.pool, a) && y.sess.Keys == y.pool.loc.Keys && Allowed(y, a) && c in y.sess
    ensures c in Follow(y, a)
    ensures a == CheckOut(c) ==> Follow(y, a)[c] == y.sess[c].(ahead := |y.sess[c].queue|, served := false)
    ensures a != CheckOut(c) ==>
              || Follow(y, a)[c] == y.sess[c]
              || (Follow(y, a)[c] == y.sess[c].(discarding := false) && a == ResetPasses(c))
    ensures a == DropGuard(c) || a == TakeInUse(c) ==> y.sess[c].handles == 0
    ensures a == FoundHealthy(c) ==> !y.sess[c].broken
    ensures a == ResetPasses(c) ==> !Follow(y, a)[c].discarding && !Doomed(y.sess[c])
  {
  }

  lemma SameConnections(y: System, a: Action)
    requires Enabled(y.pool, a) && y.sess.Keys == y.pool.loc.Keys
    ensures Follow(y, a).Keys == Apply(y.pool, a).loc.Keys
  {
    if HandsOut(a) || TakesBack(a) || LetsGo(a) { MovesOne(y.pool, a); } else { MovesNone(y.pool, a); }
  }

  lemma SessionAfterMove(y: System, a: Action, c: Conn)
    requires Enabled(y.pool, a) && y.sess.Keys == y.pool.loc.Keys && Allowed(y, a)
    requires c in Follow(y, a) && c in Apply(y.pool, a).loc
    requires c in y.sess ==> SessionInv(y.sess[c], y.pool.loc[c])
    ensures SessionInv(Follow(y, a)[c], Apply(y.pool, a).loc[c])
  {
    if c in y.pool.loc {
      MoveShape(y.pool, a, c);
      FollowShape(y, a, c);
      if a == ResetPasses(c) { assert Apply(y.pool, a).loc[c] == Clean; }
      if a == CheckOut(c) { assert Apply(y.pool, a).loc[c] == CheckedOut && y.pool.loc[c] == Held; }
      MoveKeepsSession(y.sess[c], Follow(y, a)[c], y.pool.loc[c], Apply(y.pool, a).loc[c]);
    } else {
      NewConnection(y.pool, a, c);
    }
  }

  lemma PoolMovesInv(y: System, z: System)
    requires Inv(y) && PoolMoves(y, z)
    ensures Inv(z)
  {
    var a: Action :|
      && Enabled(y.pool, a) && y.sess.Keys == y.pool.loc.Keys && Allowed(y, a)
      && z == System(Apply(y.pool, a), Follow(y, a));
    ApplyInv(y.pool, a);
    SameConnections(y, a);
    forall c | c in z.sess ensures SessionInv(z.sess[c], z.pool.loc[c]) {
      SessionAfterMove(y, a, c);
    }
  }

  lemma SessionMovesInv(y: System, z: System)
    requires Inv(y) && SessionMoves(y, z)
    ensures Inv(z)
  {
    hide Happen, SessionInv, Pool.Inv;
    var c: Conn, e: Event :|
      && c in y.sess && c in y.pool.loc && Possible(y.sess[c], y.pool.loc[c], e)
      && z == y.(sess := y.sess[c := Happen(y.sess[c], e)]);
    HappenInv(y.sess[c], y.pool.loc[c], e);
  }

  ghost predicate IsRun(trace: seq<System>, minIdle: nat) {
    && trace != [] && Init(trace[0], minIdle)
    && forall n :: 0 <= n < |trace| - 1 ==> Next(trace[n], trace[n + 1])
  }

  lemma {:induction false} RunInv(trace: seq<System>, minIdle: nat, n: nat)
    requires IsRun(trace, minIdle) && n < |trace|
    ensures Inv(trace[n])
  {
    if n == 0 {
      InitInv(trace[0].pool, minIdle);
    } else {
      RunInv(trace, minIdle, n - 1);
      if PoolMoves(trace[n - 1], trace[n]) { PoolMovesInv(trace[n - 1], trace[n]); }
      else { SessionMovesInv(trace[n - 1], trace[n]); }
    }
  }

  /** Main result: whenever the server takes up the first request of a connection's current holder, no transaction
      is open, whatever earlier holders left unfinished and whether or not their rollback could be queued. */
  lemma FirstRequestFindsNoTransaction(trace: seq<System>, minIdle: nat, n: nat, c: Conn)
    requires IsRun(trace, minIdle) && n < |trace|
    requires At(trace[n].pool, c, CheckedOut) && c in trace[n].sess
    requires var x := trace[n].sess[c]; (x.up || x.queue != []) && !x.served && x.ahead == 0
    ensures trace[n].sess[c].txn == NoTxn
  {
    RunInv(trace, minIdle, n);
    var x := trace[n].sess[c];
    assert SessionInv(x, CheckedOut);
    assert x.queue[..0] == [];
  }

  /** A connection that is idle, on its way to a waiter, or just handed over never carries a transaction that its
      queue does not end, and has not been declared broken. */
  lemma HandedOverClean(trace: seq<System>, minIdle: nat, n: nat, c: Conn)
    requires IsRun(trace, minIdle) && n < |trace| && c in trace[n].sess && c in trace[n].pool.loc
    requires var l := trace[n].pool.loc[c]; l == Idle || l.Delivered? || l == Held
    ensures var x := trace[n].sess[c]; !x.broken && x.handles == 0 && (x.up ==> !OpenAfter(x.txn != NoTxn, x.queue))
  {
    RunInv(trace, minIdle, n);
    assert SessionInv(trace[n].sess[c], trace[n].pool.loc[c]);
  }

  function ProcessAll(t: Txn, queue: seq<Cmd>, fails: seq<bool>): Txn
    requires |fails| == |queue|
    decreases |queue|
  {
    if queue == [] then t else ProcessAll(Process(t, queue[0], fails[0]), queue[1..], fails[1..])
  }

  /** The reset alone would not be enough: DISCARD ALL is refused inside a transaction, and its reply is drained as if
      it had worked.  Whatever fails on the way, it leaves a clean session if and only if the requests ahead of it,
      such as a ROLLBACK queued by a dropped transaction, have ended every transaction; else an aborted one. */
  lemma {:induction false} DiscardNeedsTheRollback(t: Txn, queue: seq<Cmd>, fails: seq<bool>)
    requires |fails| == |queue| + 1
    ensures ProcessAll(t, queue + [DiscardAll], fails)
            == if OpenAfter(t != NoTxn, queue) then Failed else NoTxn
    decreases |queue|
  {
    if queue == [] {
      assert (queue + [DiscardAll])[1..] == [];
    } else {
      assert (queue + [DiscardAll])[1..] == queue[1..] + [DiscardAll];
      DiscardNeedsTheRollback(Process(t, queue[0], fails[0]), queue[1..], fails[1..]);
    }
  }
}
