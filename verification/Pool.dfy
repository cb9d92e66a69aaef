/** The connection pool as a state machine.  One step is one atomic counter operation, or one lock region cut at
    the counter operations inside it; every task of the pool may take its next step at any time. */
module Pool {
  import Seqs

  type Conn = nat
  type Waiter = nat

  /** Who owns a connection, from its creation on. */
  datatype Loc =
    | Idle                    // on the idle queue
    | Held                    // in a `get` that is about to count it as in use
    | CheckedOut              // behind a guard
    | Returning               // guard dropped, return task not started
    | Returned                // no longer in use, not yet examined
    | Resetting               // examined, being reset
    | Clean                   // reset (or newly provisioned), to be offered to waiters
    | Unclaimed               // about to be parked: no waiter was there, or made by maintenance
    | Delivered(w: Waiter)    // inside a waiter's channel
    | Stranded                // inside the channel of a waiter that has gone
    | Taking                  // leaving the pool through `take`, still in the total
    | Taken
    | Dying                   // to be destroyed, still in the total
    | Dead                    // out of the total, not yet in the destroyed count
    | Destroyed

  datatype Category = InIdle | InUse | InTransit | InStranded | OutTaken | OutDead | OutDestroyed

  function Cat(l: Loc): Category {
    match l
    case Idle => InIdle
    case CheckedOut => InUse
    case Returning => InUse
    case Stranded => InStranded
    case Taken => OutTaken
    case Dead => OutDead
    case Destroyed => OutDestroyed
    case _ => InTransit
  }

  datatype State = State(
    maxSize: nat,
    idle: seq<Conn>,
    waiters: seq<Waiter>,
    gone: set<Waiter>,         // waiters whose receiver was dropped (timeout or cancellation)
    nextWaiter: nat,
    counted: set<Waiter>,      // waiting calls whose guard has not lowered the waiter gauge yet
    dropped: nat,              // history: waiters that drains have removed from the queue
    draining: bool,
    // the atomic counters
    total: int,
    inUse: int,
    created: nat,
    destroyed: nat,
    waiting: int,              // the waiter gauge; the unsigned counter holds this number modulo 2^64
    // reservations of `create_and_track`
    connecting: nat,           // below the limit, connection attempt running
    over: nat,                 // found the limit reached, increment not yet undone
    failed: nat,               // attempt failed, increment not yet undone
    abandoned: nat,            // attempt cancelled with its `get`: never undone
    loc: map<Conn, Loc>)

  /** The counter value `create_and_track` relies on to stay within `max_size`, leaving out increments that
      found the pool full. */
  function Committed(s: State): int { Live(s.loc) + s.connecting + s.failed + s.abandoned }

  function Members(loc: map<Conn, Loc>, k: Category): set<Conn> {
    set c | c in loc && Cat(loc[c]) == k
  }

  function Tally(loc: map<Conn, Loc>, k: Category): nat { |Members(loc, k)| }

  /** Connections not yet given to destroy accounting or taken out of the pool. */
  function Live(loc: map<Conn, Loc>): nat {
    Tally(loc, InIdle) + Tally(loc, InUse) + Tally(loc, InTransit) + Tally(loc, InStranded)
  }

  function Everything(loc: map<Conn, Loc>): nat {
    Live(loc) + Tally(loc, OutTaken) + Tally(loc, OutDead) + Tally(loc, OutDestroyed)
  }

  // ----- steps -----

  /** Who asked `create_and_track` for a connection: `get`, `try_provision_for_waiter` or maintenance. */
  datatype Purpose = ForCaller | ForWaiter | ForIdle

  function Destination(p: Purpose): Loc {
    match p
    case ForCaller => Held
    case ForWaiter => Clean
    case ForIdle => Unclaimed
  }

  datatype Action =
    | PopIdle(c: Conn) | PopUnhealthy(c: Conn)             // try_get_idle
    | CheckOut(c: Conn)
    | Reserve | UndoOver | ConnectOk(c: Conn, purpose: Purpose) | ConnectFails | UndoFailed | AbandonConnect
    | DropGuard(c: Conn) | StartReturn(c: Conn)
    | FoundBroken(c: Conn) | FoundHealthy(c: Conn)
    | ResetFails(c: Conn) | ResetPasses(c: Conn) | DestroyDraining(c: Conn)
    | Offer(c: Conn) | NoWaiter(c: Conn) | Park(c: Conn)
    | Enroll | Receive(c: Conn) | WaiterGoes(w: Waiter) | PurgeWaiters
    | Uncount(w: Waiter)                                   // the guard of a waiting call is dropped
    | Evict(c: Conn)                                       // maintenance, drain
    | SubTotal(c: Conn) | AddDestroyed(c: Conn)            // destroy_conn_stats
    | TakeInUse(c: Conn) | TakeTotal(c: Conn)              // PoolGuard::take
    | BeginDrain | DrainWaiters

  function Move(s: State, c: Conn, l: Loc): State { s.(loc := s.loc[c := l]) }

  predicate At(s: State, c: Conn, l: Loc) { c in s.loc && s.loc[c] == l }

  /** The call of `w` waits no longer: it has given up, it has taken what was sent to it, or a drain has dropped it. */
  predicate CallEnds(s: State, w: Waiter) {
    w in s.gone || (w !in s.waiters && forall c :: c in s.loc ==> s.loc[c] != Delivered(w))
  }

  predicate Enabled(s: State, a: Action) {
    match a
    case PopIdle(c) => s.idle != [] && s.idle[0] == c && At(s, c, Idle)
    case PopUnhealthy(c) => s.idle != [] && s.idle[0] == c && At(s, c, Idle)
    case CheckOut(c) => At(s, c, Held)
    case Reserve => true
    case UndoOver => s.over > 0
    case ConnectOk(c, _) => s.connecting > 0 && c !in s.loc
    case ConnectFails => s.connecting > 0
    case UndoFailed => s.failed > 0
    case AbandonConnect => s.connecting > 0
    case DropGuard(c) => At(s, c, CheckedOut)
    case StartReturn(c) => At(s, c, Returning)
    case FoundBroken(c) => At(s, c, Returned)
    case FoundHealthy(c) => At(s, c, Returned)
    case ResetFails(c) => At(s, c, Resetting)
    case ResetPasses(c) => At(s, c, Resetting)
    case DestroyDraining(c) => At(s, c, Clean) && s.draining
    case Offer(c) => At(s, c, Clean) && s.waiters != []
    case NoWaiter(c) => At(s, c, Clean) && s.waiters == []
    case Park(c) => At(s, c, Unclaimed)
    case Enroll => true
    case Receive(c) => c in s.loc && s.loc[c].Delivered?
    case WaiterGoes(w) => w < s.nextWaiter && w !in s.gone
    case PurgeWaiters => true
    case Uncount(w) => w in s.counted && CallEnds(s, w)
    case Evict(c) => c in s.idle && At(s, c, Idle)
    case SubTotal(c) => At(s, c, Dying)
    case AddDestroyed(c) => At(s, c, Dead)
    case TakeInUse(c) => At(s, c, CheckedOut)
    case TakeTotal(c) => At(s, c, Taking)
    case BeginDrain => true
    case DrainWaiters => s.draining
  }

  function Without(q: seq<nat>, c: nat): seq<nat> {
    if q == [] then [] else if q[0] == c then Without(q[1..], c) else [q[0]] + Without(q[1..], c)
  }

  /** `waiters.retain(|w| !w.tx.is_closed())`. */
  function StillWaiting(q: seq<Waiter>, gone: set<Waiter>): seq<Waiter> {
    if q == [] then [] else (if q[0] in gone then [] else [q[0]]) + StillWaiting(q[1..], gone)
  }

  /** When a waiter goes, a connection already put into its channel goes with it. */
  function Strand(loc: map<Conn, Loc>, w: Waiter): map<Conn, Loc> {
    map c | c in loc :: if loc[c] == Delivered(w) then Stranded else loc[c]
  }

  function Apply(s: State, a: Action): State
    requires Enabled(s, a)
  {
    match a
    case PopIdle(c) => Move(s, c, Held).(idle := s.idle[1..])
    case PopUnhealthy(c) => Move(s, c, Dying).(idle := s.idle[1..])
    case CheckOut(c) => Move(s, c, CheckedOut).(inUse := s.inUse + 1)
    case Reserve =>
      if s.total < s.maxSize then s.(total := s.total + 1, connecting := s.connecting + 1)
      else s.(total := s.total + 1, over := s.over + 1)
    case UndoOver => s.(total := s.total - 1, over := s.over - 1)
    case ConnectOk(c, purpose) =>
      Move(s, c, Destination(purpose)).(connecting := s.connecting - 1, created := s.created + 1)
    case ConnectFails => s.(connecting := s.connecting - 1, failed := s.failed + 1)
    case UndoFailed => s.(failed := s.failed - 1, total := s.total - 1)
    case AbandonConnect => s.(connecting := s.connecting - 1, abandoned := s.abandoned + 1)
    case DropGuard(c) => Move(s, c, Returning)
    case StartReturn(c) => Move(s, c, Returned).(inUse := s.inUse - 1)
    case FoundBroken(c) => Move(s, c, Dying)
    case FoundHealthy(c) => Move(s, c, Resetting)
    case ResetFails(c) => Move(s, c, Dying)
    case ResetPasses(c) => Move(s, c, Clean)
    case DestroyDraining(c) => Move(s, c, Dying)
    case Offer(c) =>
      var w := s.waiters[0];
      (if w in s.gone then s else Move(s, c, Delivered(w))).(waiters := s.waiters[1..])
    case NoWaiter(c) => Move(s, c, Unclaimed)
    case Park(c) => Move(s, c, Idle).(idle := s.idle + [c])
    case Enroll =>
      s.(waiters := s.waiters + [s.nextWaiter], nextWaiter := s.nextWaiter + 1,
         counted := s.counted + {s.nextWaiter}, waiting := s.waiting + 1)
    case Receive(c) => Move(s, c, Held)
    case WaiterGoes(w) => s.(gone := s.gone + {w}, loc := Strand(s.loc, w))
    case PurgeWaiters => s.(waiters := StillWaiting(s.waiters, s.gone))
    case Uncount(w) => s.(counted := s.counted - {w}, waiting := s.waiting - 1)
    case Evict(c) => Move(s, c, Dying).(idle := Without(s.idle, c))
    case SubTotal(c) => Move(s, c, Dead).(total := s.total - 1)
    case AddDestroyed(c) => Move(s, c, Destroyed).(destroyed := s.destroyed + 1)
    case TakeInUse(c) => Move(s, c, Taking).(inUse := s.inUse - 1)
    case TakeTotal(c) => Move(s, c, Taken).(total := s.total - 1)
    case BeginDrain => s.(draining := true)
    case DrainWaiters =>
      s.(waiters := [], waiting := s.waiting - |s.waiters|, dropped := s.dropped + |s.waiters|)
  }

  /** A new pool: between zero and `min_idle` connections were made, depending on how many attempts failed. */
  ghost predicate Init(s: State, minIdle: nat) {
    && minIdle <= s.maxSize
    && |s.idle| <= minIdle && Distinct(s.idle)
    && (forall c :: c in s.loc <==> c in s.idle) && (forall c :: c in s.loc ==> s.loc[c] == Idle)
    && s.waiters == [] && s.gone == s.counted == {} && s.nextWaiter == s.dropped == s.waiting == 0 && !s.draining
    && s.total == |s.idle| && s.created == |s.idle| && s.inUse == 0 && s.destroyed == 0
    && s.connecting == s.over == s.failed == s.abandoned == 0
  }

  ghost predicate Distinct(q: seq<nat>) {
    forall i, j :: 0 <= i < j < |q| ==> q[i] != q[j]
  }

  // ----- invariant -----

  /** The counters say exactly where every connection and reservation is. */
  ghost predicate Accounted(s: State) {
    && s.created == Everything(s.loc)
    && s.destroyed == Tally(s.loc, OutDestroyed)
    && s.inUse == Tally(s.loc, InUse)
    && s.total == Live(s.loc) + s.connecting + s.over + s.failed + s.abandoned
  }

  /** The idle queue holds exactly the idle connections, each once. */
  ghost predicate IdleInv(s: State) {
    && Distinct(s.idle)
    && (forall c :: c in s.idle <==> At(s, c, Idle))
  }

  /** A waiter is in the queue once, or has been handed one connection, or neither; never both. */
  ghost predicate WaiterInv(s: State) {
    && Distinct(s.waiters)
    && (forall w :: w in s.waiters ==> w < s.nextWaiter)
    && (forall c :: c in s.loc && s.loc[c].Delivered? ==>
          s.loc[c].w < s.nextWaiter && s.loc[c].w !in s.waiters && s.loc[c].w !in s.gone)
    && (forall c, d :: c in s.loc && d in s.loc && s.loc[c].Delivered? && s.loc[d] == s.loc[c] ==> c == d)
  }

  /** The gauge is the number of calls counted less the waiters that drains have dropped; whoever can still be sent a
      connection is counted. */
  ghost predicate GaugeInv(s: State) {
    && s.waiting == |s.counted| - s.dropped
    && (forall w :: w in s.counted ==> w < s.nextWaiter)
    && (forall w :: w in s.waiters && w !in s.gone ==> w in s.counted)
    && (forall c :: c in s.loc && s.loc[c].Delivered? ==> s.loc[c].w in s.counted)
  }

  ghost predicate Inv(s: State) {
    Accounted(s) && Committed(s) <= s.maxSize && IdleInv(s) && WaiterInv(s) && GaugeInv(s)
  }

  // ----- tallies -----

  function One(b: bool): nat { if b then 1 else 0 }

  lemma MembersMove(loc: map<Conn, Loc>, c: Conn, l: Loc, k: Category)
    ensures Members(loc[c := l], k) == if Cat(l) == k then Members(loc, k) + {c} else Members(loc, k) - {c}
    ensures c in Members(loc, k) <==> c in loc && Cat(loc[c]) == k
  {
  }

  lemma TallyMove(loc: map<Conn, Loc>, c: Conn, l: Loc, k: Category)
    ensures Tally(loc[c := l], k) == Tally(loc, k) - One(c in loc && Cat(loc[c]) == k) + One(Cat(l) == k)
  {
    hide Members, Cat;
    MembersMove(loc, c, l, k);
  }

  lemma TallyAllIdle(idle: seq<Conn>, loc: map<Conn, Loc>)
    requires Distinct(idle)
    requires (forall c :: c in loc <==> c in idle) && (forall c :: c in loc ==> loc[c] == Idle)
    ensures Tally(loc, InIdle) == |idle| && forall k: Category :: k != InIdle ==> Tally(loc, k) == 0
  {
    assert Members(loc, InIdle) == Elements(idle);
    DistinctCount(idle);
    forall k: Category | k != InIdle ensures Tally(loc, k) == 0 {
      assert Members(loc, k) == {};
    }
  }

  function Elements(q: seq<nat>): set<nat> { set c | c in q }

  lemma {:induction false} DistinctCount(q: seq<nat>)
    requires Distinct(q)
    ensures |Elements(q)| == |q|
  {
    if q != [] {
      DistinctCount(q[1..]);
      assert q[0] !in q[1..];
      assert Elements(q) == {q[0]} + Elements(q[1..]);
    }
  }

  // ----- the invariant is inductive -----

  lemma InitInv(s: State, minIdle: nat)
    requires Init(s, minIdle)
    ensures Inv(s)
  {
    TallyAllIdle(s.idle, s.loc);
  }

  lemma {:induction false} WithoutIs(q: seq<nat>, c: nat)
    requires Distinct(q)
    ensures Distinct(Without(q, c)) && forall d :: d in Without(q, c) <==> d in q && d != c
  {
    if q != [] {
      WithoutIs(q[1..], c);
      assert forall d :: d in q <==> d == q[0] || d in q[1..];
      assert q[0] !in q[1..];
    }
  }

  /** Exactly the closed waiters go; the others keep their order and number. */
  lemma {:induction false} StillWaitingExactly(q: seq<Waiter>, gone: set<Waiter>)
    ensures Seqs.Subsequence(StillWaiting(q, gone), q)
    ensures forall w :: multiset(StillWaiting(q, gone))[w] == if w in gone then 0 else multiset(q)[w]
  {
    if q != [] {
      var rest := StillWaiting(q[1..], gone);
      StillWaitingExactly(q[1..], gone);
      assert q == [q[0]] + q[1..];
      if q[0] in gone {
        assert StillWaiting(q, gone) == rest;
        Seqs.Skip(rest, q[0], q[1..]);
      } else {
        assert StillWaiting(q, gone) == [q[0]] + rest && ([q[0]] + rest)[1..] == rest;
      }
    }
  }

  lemma {:induction false} StillWaitingIs(q: seq<Waiter>, gone: set<Waiter>)
    requires Distinct(q)
    ensures Distinct(StillWaiting(q, gone)) && forall w :: w in StillWaiting(q, gone) <==> w in q && w !in gone
  {
    if q != [] {
      StillWaitingIs(q[1..], gone);
      assert forall w :: w in q <==> w == q[0] || w in q[1..];
      assert q[0] !in q[1..];
    }
  }

  lemma StrandIs(s: State, w: Waiter)
    requires WaiterInv(s)
    ensures (exists c :: c in s.loc && s.loc[c] == Delivered(w) && Strand(s.loc, w) == s.loc[c := Stranded])
         || ((forall c :: c in s.loc ==> s.loc[c] != Delivered(w)) && Strand(s.loc, w) == s.loc)
  {
    if c :| c in s.loc && s.loc[c] == Delivered(w) {
      assert Strand(s.loc, w) == s.loc[c := Stranded];
    }
  }

  predicate IsLive(l: Loc) {
    Cat(l) != OutTaken && Cat(l) != OutDead && Cat(l) != OutDestroyed
  }

  function Reserved(s: State): nat { s.connecting + s.over + s.failed + s.abandoned }

  /** The counters changed by just what moving connection `c` to `l` calls for. */
  predicate Matches(s: State, t: State, c: Conn, l: Loc) {
    && t.loc == s.loc[c := l]
    && t.created == s.created + One(c !in s.loc)
    && t.destroyed == s.destroyed + One(Cat(l) == OutDestroyed) - One(c in s.loc && Cat(s.loc[c]) == OutDestroyed)
    && t.inUse == s.inUse + One(Cat(l) == InUse) - One(c in s.loc && Cat(s.loc[c]) == InUse)
    && t.total - Reserved(t) == s.total - Reserved(s) + One(IsLive(l)) - One(c in s.loc && IsLive(s.loc[c]))
    && Reserved(t) - t.over + One(IsLive(l)) <= Reserved(s) - s.over + One(c in s.loc && IsLive(s.loc[c]))
    && t.maxSize == s.maxSize
  }

  /** No connection moved, and the counters changed by just the reservations made or undone. */
  predicate Reserves(s: State, t: State) {
    && t.loc == s.loc && t.created == s.created && t.destroyed == s.destroyed && t.inUse == s.inUse
       && t.maxSize == s.maxSize
    && t.total - Reserved(t) == s.total - Reserved(s)
    && (Reserved(t) - t.over <= Reserved(s) - s.over
        || (s.total < s.maxSize && Reserved(t) - t.over == Reserved(s) - s.over + 1))
  }

  lemma LiveMove(loc: map<Conn, Loc>, c: Conn, l: Loc)
    ensures Live(loc[c := l]) == Live(loc) + One(IsLive(l)) - One(c in loc && IsLive(loc[c]))
    ensures Everything(loc[c := l]) == Everything(loc) + One(c !in loc)
  {
    TallyMove(loc, c, l, InIdle);
    TallyMove(loc, c, l, InUse);
    TallyMove(loc, c, l, InTransit);
    TallyMove(loc, c, l, InStranded);
    TallyMove(loc, c, l, OutTaken);
    TallyMove(loc, c, l, OutDead);
    TallyMove(loc, c, l, OutDestroyed);
  }

  lemma MoveAccounted(s: State, t: State, c: Conn, l: Loc)
    requires Accounted(s) && Committed(s) <= s.maxSize && Matches(s, t, c, l)
    ensures Accounted(t) && Committed(t) <= s.maxSize
  {
    LiveMove(s.loc, c, l);
    TallyMove(s.loc, c, l, InUse);
    TallyMove(s.loc, c, l, OutDestroyed);
  }

  lemma ReserveAccounted(s: State, t: State)
    requires Accounted(s) && Committed(s) <= s.maxSize && Reserves(s, t)
    ensures Accounted(t) && Committed(t) <= s.maxSize
  {
  }

  predicate HandsOut(a: Action) {
    a.PopIdle? || a.PopUnhealthy? || a.CheckOut? || a.ConnectOk? || a.NoWaiter? || a.Park? || a.Receive? || a.Evict?
  }

  predicate TakesBack(a: Action) {
    a.DropGuard? || a.StartReturn? || a.FoundBroken? || a.FoundHealthy? || a.ResetFails? || a.ResetPasses?
  }

  predicate LetsGo(a: Action) {
    a.DestroyDraining? || a.SubTotal? || a.AddDestroyed? || a.TakeInUse? || a.TakeTotal?
  }

  lemma HandsOutMatches(s: State, a: Action)
    requires Enabled(s, a) && HandsOut(a)
    ensures Matches(s, Apply(s, a), a.c, Apply(s, a).loc[a.c])
  {
    hide Matches;
    if a.ConnectOk? { ConnectMatches(s, a.c, a.purpose); }
    else if a.PopIdle? || a.PopUnhealthy? || a.Evict? { LeavesIdleMatches(s, a); }
    else { HandsOnMatches(s, a); }
  }

  lemma ConnectMatches(s: State, c: Conn, purpose: Purpose)
    requires Enabled(s, ConnectOk(c, purpose))
    ensures Matches(s, Apply(s, ConnectOk(c, purpose)), c, Destination(purpose))
  {
  }

  lemma LeavesIdleMatches(s: State, a: Action)
    requires Enabled(s, a) && (a.PopIdle? || a.PopUnhealthy? || a.Evict?)
    ensures Matches(s, Apply(s, a), a.c, Apply(s, a).loc[a.c])
  {
  }

  lemma HandsOnMatches(s: State, a: Action)
    requires Enabled(s, a) && (a.CheckOut? || a.NoWaiter? || a.Park? || a.Receive?)
    ensures Matches(s, Apply(s, a), a.c, Apply(s, a).loc[a.c])
  {
  }

  lemma TakesBackMatches(s: State, a: Action)
    requires Enabled(s, a) && TakesBack(a)
    ensures Matches(s, Apply(s, a), a.c, Apply(s, a).loc[a.c])
  {
  }

  lemma LetsGoMatches(s: State, a: Action)
    requires Enabled(s, a) && LetsGo(a)
    ensures Matches(s, Apply(s, a), a.c, Apply(s, a).loc[a.c])
  {
    hide Matches;
    if a.TakeInUse? || a.TakeTotal? { TakesMatches(s, a); } else { DestroyMatches(s, a); }
  }

  lemma DestroyMatches(s: State, a: Action)
    requires Enabled(s, a) && (a.DestroyDraining? || a.SubTotal? || a.AddDestroyed?)
    ensures Matches(s, Apply(s, a), a.c, Apply(s, a).loc[a.c])
  {
  }

  lemma TakesMatches(s: State, a: Action)
    requires Enabled(s, a) && (a.TakeInUse? || a.TakeTotal?)
    ensures Matches(s, Apply(s, a), a.c, Apply(s, a).loc[a.c])
  {
  }

  lemma WaiterSteps(s: State, a: Action)
    requires WaiterInv(s) && Enabled(s, a) && (a.Offer? || a.WaiterGoes?)
    ensures Reserves(s, Apply(s, a)) || exists c, l :: Matches(s, Apply(s, a), c, l)
  {
    var t := Apply(s, a);
    if a.Offer? {
      if s.waiters[0] !in s.gone { assert Matches(s, t, a.c, Delivered(s.waiters[0])); }
    } else {
      StrandIs(s, a.w);
      if c :| c in s.loc && s.loc[c] == Delivered(a.w) { assert Matches(s, t, c, Stranded); }
    }
  }

  lemma StepReserves(s: State, a: Action)
    requires Enabled(s, a) && !HandsOut(a) && !TakesBack(a) && !LetsGo(a) && !a.Offer? && !a.WaiterGoes?
    ensures Reserves(s, Apply(s, a))
  {
  }

  /** Every step keeps the accounts, and only a successful reservation takes up capacity. */
  lemma ApplyAccounted(s: State, a: Action)
    requires Accounted(s) && Committed(s) <= s.maxSize && WaiterInv(s) && Enabled(s, a)
    ensures Accounted(Apply(s, a)) && Committed(Apply(s, a)) <= s.maxSize
  {
    var t := Apply(s, a);
    if HandsOut(a) {
      HandsOutMatches(s, a);
    } else if TakesBack(a) {
      TakesBackMatches(s, a);
    } else if LetsGo(a) {
      LetsGoMatches(s, a);
    } else if a.Offer? || a.WaiterGoes? {
      WaiterSteps(s, a);
    } else {
      StepReserves(s, a);
    }
    if Reserves(s, t) {
      ReserveAccounted(s, t);
    } else {
      var c, l :| Matches(s, t, c, l);
      MoveAccounted(s, t, c, l);
    }
  }

  /** A connection that is not idle before or after its move does not concern the idle queue. */
  lemma MoveElsewhere(s: State, t: State, c: Conn, l: Loc)
    requires IdleInv(s) && t.idle == s.idle && t.loc == s.loc[c := l] && !At(s, c, Idle) && l != Idle
    ensures IdleInv(t)
  {
    forall d ensures d in t.idle <==> At(t, d, Idle) {
      assert At(t, d, Idle) <==> At(s, d, Idle);
    }
  }

  lemma LeaveIdle(s: State, t: State, c: Conn, l: Loc)
    requires IdleInv(s) && t.loc == s.loc[c := l] && l != Idle
    requires Distinct(t.idle) && forall d :: d in t.idle <==> d in s.idle && d != c
    ensures IdleInv(t)
  {
    forall d ensures d in t.idle <==> At(t, d, Idle) {
      if d != c { assert At(t, d, Idle) <==> At(s, d, Idle); }
    }
  }

  lemma PopFront(q: seq<nat>)
    requires Distinct(q) && q != []
    ensures Distinct(q[1..]) && forall d :: d in q[1..] <==> d in q && d != q[0]
  {
    assert q == [q[0]] + q[1..];
  }

  lemma PushBack(q: seq<nat>, c: nat)
    requires Distinct(q) && c !in q
    ensures Distinct(q + [c]) && forall d :: d in q + [c] <==> d in q || d == c
  {
  }

  lemma ParkIdle(s: State, c: Conn)
    requires IdleInv(s) && Enabled(s, Park(c))
    ensures IdleInv(Apply(s, Park(c)))
  {
    var t := Apply(s, Park(c));
    assert !At(s, c, Idle);
    PushBack(s.idle, c);
    forall d ensures d in t.idle <==> At(t, d, Idle) {
      if d != c { assert At(t, d, Idle) <==> At(s, d, Idle); }
    }
  }

  lemma UnparkIdle(s: State, a: Action)
    requires IdleInv(s) && Enabled(s, a) && (a.PopIdle? || a.PopUnhealthy? || a.Evict?)
    ensures IdleInv(Apply(s, a))
  {
    if a.Evict? { WithoutIs(s.idle, a.c); } else { PopFront(s.idle); }
    LeaveIdle(s, Apply(s, a), a.c, if a.PopIdle? then Held else Dying);
  }

  lemma ApplyIdle(s: State, a: Action)
    requires IdleInv(s) && Enabled(s, a) && (a.WaiterGoes? ==> WaiterInv(s))
    ensures IdleInv(Apply(s, a))
  {
    var t := Apply(s, a);
    if a.Park? {
      ParkIdle(s, a.c);
    } else if a.PopIdle? || a.PopUnhealthy? || a.Evict? {
      UnparkIdle(s, a);
    } else if a.WaiterGoes? {
      StrandIs(s, a.w);
      if c :| c in s.loc && s.loc[c] == Delivered(a.w) { MoveElsewhere(s, t, c, Stranded); } else { SameIdle(s, t); }
    } else if a.Offer? && s.waiters[0] !in s.gone {
      MoveElsewhere(s, t, a.c, Delivered(s.waiters[0]));
    } else if HandsOut(a) || TakesBack(a) || LetsGo(a) {
      MovesAway(s, a);
    } else {
      SameIdle(s, t);
    }
  }

  lemma MovesAway(s: State, a: Action)
    requires IdleInv(s) && Enabled(s, a) && (HandsOut(a) || TakesBack(a) || LetsGo(a))
    requires !a.Park? && !a.PopIdle? && !a.PopUnhealthy? && !a.Evict?
    ensures IdleInv(Apply(s, a))
  {
    var t := Apply(s, a);
    MoveElsewhere(s, t, a.c, t.loc[a.c]);
  }

  lemma SameIdle(s: State, t: State)
    requires IdleInv(s) && t.idle == s.idle && t.loc == s.loc
    ensures IdleInv(t)
  {
    forall d ensures d in t.idle <==> At(t, d, Idle) {
      assert At(t, d, Idle) <==> At(s, d, Idle);
    }
  }

  /** Nothing is handed over by a step that delivers nothing. */
  lemma NoDelivery(s: State, t: State, c: Conn, l: Loc)
    requires WaiterInv(s) && t.loc == s.loc[c := l] && !l.Delivered?
    requires t.waiters == s.waiters && t.gone == s.gone && t.nextWaiter == s.nextWaiter
    ensures WaiterInv(t)
  {
  }

  lemma Delivery(s: State, t: State, c: Conn)
    requires WaiterInv(s) && s.waiters != [] && s.waiters[0] !in s.gone
    requires t.loc == s.loc[c := Delivered(s.waiters[0])]
    requires t.waiters == s.waiters[1..] && t.gone == s.gone && t.nextWaiter == s.nextWaiter
    ensures WaiterInv(t)
  {
    PopFront(s.waiters);
    assert s.waiters[0] in s.waiters;
  }

  lemma Shrunk(s: State, t: State)
    requires WaiterInv(s) && t.loc == s.loc && t.gone == s.gone && t.nextWaiter == s.nextWaiter
    requires Distinct(t.waiters) && forall w :: w in t.waiters ==> w in s.waiters
    ensures WaiterInv(t)
  {
  }

  lemma Departed(s: State, t: State, w: Waiter)
    requires WaiterInv(s) && t.loc == Strand(s.loc, w) && t.gone == s.gone + {w}
    requires t.waiters == s.waiters && t.nextWaiter == s.nextWaiter
    ensures WaiterInv(t)
  {
  }

  lemma Enrolled(s: State, t: State)
    requires WaiterInv(s) && t.loc == s.loc && t.gone == s.gone
    requires t.waiters == s.waiters + [s.nextWaiter] && t.nextWaiter == s.nextWaiter + 1
    ensures WaiterInv(t)
  {
    PushBack(s.waiters, s.nextWaiter);
  }

  /** The steps that only move one connection, to a place that is not a waiter's channel. */
  lemma MovesKeepWaiters(s: State, a: Action)
    requires WaiterInv(s) && Enabled(s, a) && (HandsOut(a) || TakesBack(a) || LetsGo(a))
    ensures WaiterInv(Apply(s, a))
  {
    var t := Apply(s, a);
    NoDelivery(s, t, a.c, t.loc[a.c]);
  }

  lemma QueueSteps(s: State, a: Action)
    requires WaiterInv(s) && Enabled(s, a) && (a.Offer? || a.PurgeWaiters? || a.DrainWaiters? || a.Enroll?
        || a.WaiterGoes?)
    ensures WaiterInv(Apply(s, a))
  {
    var t := Apply(s, a);
    match a {
      case Offer(c) =>
        PopFront(s.waiters);
        if s.waiters[0] in s.gone { Shrunk(s, t); } else { Delivery(s, t, c); }
      case PurgeWaiters => StillWaitingIs(s.waiters, s.gone); Shrunk(s, t);
      case DrainWaiters => Shrunk(s, t);
      case Enroll => Enrolled(s, t);
      case WaiterGoes(w) => Departed(s, t, w);
    }
  }

  lemma ApplyWaiters(s: State, a: Action)
    requires WaiterInv(s) && Enabled(s, a)
    ensures WaiterInv(Apply(s, a))
  {
    if HandsOut(a) || TakesBack(a) || LetsGo(a) {
      MovesKeepWaiters(s, a);
    } else if a.Offer? || a.PurgeWaiters? || a.DrainWaiters? || a.Enroll? || a.WaiterGoes? {
      QueueSteps(s, a);
    } else {
      Shrunk(s, Apply(s, a));
    }
  }

  // ----- the waiter gauge -----

  predicate SameGauge(s: State, t: State) {
    t.counted == s.counted && t.dropped == s.dropped && t.waiting == s.waiting && t.nextWaiter == s.nextWaiter
  }

  /** Nobody joins the queue uncounted, and nothing is sent to anyone uncounted. */
  lemma KeepsGauge(s: State, t: State)
    requires GaugeInv(s) && SameGauge(s, t) && s.gone <= t.gone
    requires forall w :: w in t.waiters ==> w in s.waiters
    requires forall c :: c in t.loc && t.loc[c].Delivered? ==>
               t.loc[c].w in s.counted || (c in s.loc && s.loc[c] == t.loc[c])
    ensures GaugeInv(t)
  {
  }

  lemma MoveKeepsGauge(s: State, a: Action)
    requires GaugeInv(s) && Enabled(s, a) && (HandsOut(a) || TakesBack(a) || LetsGo(a))
    ensures GaugeInv(Apply(s, a))
  {
    var t := Apply(s, a);
    assert t.loc == s.loc[a.c := t.loc[a.c]] && !t.loc[a.c].Delivered?;
    KeepsGauge(s, t);
  }

  lemma OfferKeepsGauge(s: State, c: Conn)
    requires GaugeInv(s) && Enabled(s, Offer(c))
    ensures GaugeInv(Apply(s, Offer(c)))
  {
    assert s.waiters[0] in s.waiters;
    KeepsGauge(s, Apply(s, Offer(c)));
  }

  lemma QueueKeepsGauge(s: State, a: Action)
    requires GaugeInv(s) && Distinct(s.waiters) && Enabled(s, a) && (a.WaiterGoes? || a.PurgeWaiters?)
    ensures GaugeInv(Apply(s, a))
  {
    StillWaitingIs(s.waiters, s.gone);
    KeepsGauge(s, Apply(s, a));
  }

  lemma EnrollCounts(s: State)
    requires GaugeInv(s)
    ensures GaugeInv(Apply(s, Enroll))
  {
    assert s.nextWaiter !in s.counted;
  }

  lemma UncountLowers(s: State, w: Waiter)
    requires GaugeInv(s) && WaiterInv(s) && Enabled(s, Uncount(w))
    ensures GaugeInv(Apply(s, Uncount(w)))
  {
  }

  lemma ApplyGauge(s: State, a: Action)
    requires GaugeInv(s) && WaiterInv(s) && Enabled(s, a)
    ensures GaugeInv(Apply(s, a))
  {
    if HandsOut(a) || TakesBack(a) || LetsGo(a) {
      MoveKeepsGauge(s, a);
    } else if a.Offer? {
      OfferKeepsGauge(s, a.c);
    } else if a.WaiterGoes? || a.PurgeWaiters? {
      QueueKeepsGauge(s, a);
    } else if a.Enroll? {
      EnrollCounts(s);
    } else if a.Uncount? {
      UncountLowers(s, a.w);
    }
  }

  lemma ApplyInv(s: State, a: Action)
    requires Inv(s) && Enabled(s, a)
    ensures Inv(Apply(s, a)) && Apply(s, a).maxSize == s.maxSize
  {
    hide Enabled, Accounted, IdleInv, WaiterInv, GaugeInv;
    ApplyAccounted(s, a);
    ApplyIdle(s, a);
    ApplyWaiters(s, a);
    ApplyGauge(s, a);
  }

  ghost predicate Next(s: State, t: State) { exists a: Action :: Enabled(s, a) && t == Apply(s, a) }

  ghost predicate IsRun(trace: seq<State>, minIdle: nat) {
    && trace != [] && Init(trace[0], minIdle)
    && forall n :: 0 <= n < |trace| - 1 ==> Next(trace[n], trace[n + 1])
  }

  lemma {:induction false} RunInv(trace: seq<State>, minIdle: nat, n: nat)
    requires IsRun(trace, minIdle) && n < |trace|
    ensures Inv(trace[n]) && trace[n].maxSize == trace[0].maxSize
  {
    if n == 0 {
      InitInv(trace[0], minIdle);
    } else {
      RunInv(trace, minIdle, n - 1);
      assert Next(trace[n - 1], trace[n]);
      NextInv(trace[n - 1], trace[n]);
    }
  }

  lemma NextInv(s: State, t: State)
    requires Inv(s) && Next(s, t)
    ensures Inv(t) && t.maxSize == s.maxSize
  {
    var a: Action :| Enabled(s, a) && t == Apply(s, a);
    ApplyInv(s, a);
  }

  /** Main result on capacity: in every interleaving, live connections and reservations that did not find the pool
      full never exceed `max_size`; the raw counter exceeds it by at most the increments not yet undone. */
  lemma NeverOverCapacity(trace: seq<State>, minIdle: nat, n: nat)
    requires IsRun(trace, minIdle) && n < |trace|
    ensures var s := trace[n];
            && Live(s.loc) + s.connecting + s.failed + s.abandoned <= trace[0].maxSize
            && 0 <= s.total <= trace[0].maxSize + s.over
  {
    RunInv(trace, minIdle, n);
  }

  /** Main result on accounting, in every reachable state. */
  lemma AccountingIsExact(trace: seq<State>, minIdle: nat, n: nat)
    requires IsRun(trace, minIdle) && n < |trace|
    ensures var s := trace[n];
            && s.created == s.destroyed + |s.idle| + Tally(s.loc, InUse) + Tally(s.loc, InTransit)
                            + Tally(s.loc, OutTaken) + Tally(s.loc, InStranded) + Tally(s.loc, OutDead)
            && s.total == |s.idle| + Tally(s.loc, InUse) + Tally(s.loc, InTransit) + Tally(s.loc, InStranded)
                          + s.connecting + s.over + s.failed + s.abandoned
            && s.inUse == Tally(s.loc, InUse) && s.inUse <= s.total
  {
    RunInv(trace, minIdle, n);
    AccountsOf(trace[n]);
  }

  lemma IdleTally(s: State)
    requires IdleInv(s)
    ensures Tally(s.loc, InIdle) == |s.idle|
  {
    DistinctCount(s.idle);
    forall c ensures c in Members(s.loc, InIdle) <==> c in Elements(s.idle) {
      assert c in s.idle <==> At(s, c, Idle);
    }
    assert Members(s.loc, InIdle) == Elements(s.idle);
  }

  lemma AccountsOf(s: State)
    requires Inv(s)
    ensures s.created == s.destroyed + |s.idle| + Tally(s.loc, InUse) + Tally(s.loc, InTransit)
                         + Tally(s.loc, OutTaken) + Tally(s.loc, InStranded) + Tally(s.loc, OutDead)
    ensures s.total == |s.idle| + Tally(s.loc, InUse) + Tally(s.loc, InTransit) + Tally(s.loc, InStranded)
                       + s.connecting + s.over + s.failed + s.abandoned
    ensures s.inUse == Tally(s.loc, InUse) && s.inUse <= s.total
  {
    IdleTally(s);
  }

  /** A waiter is handed at most one connection, and a connection is never in two hands: it is idle exactly when the
      idle queue holds it, and a waiter that was handed one has left the queue. */
  lemma OneOwner(trace: seq<State>, minIdle: nat, n: nat, c: Conn, w: Waiter)
    requires IsRun(trace, minIdle) && n < |trace| && At(trace[n], c, Delivered(w))
    ensures c !in trace[n].idle && w !in trace[n].waiters && w !in trace[n].gone
    ensures forall d :: At(trace[n], d, Delivered(w)) ==> d == c
  {
    RunInv(trace, minIdle, n);
  }

  /** Main result on the waiter gauge, in every reachable state: it is the number of calls still counted, among them
      every call that can still be sent a connection, less the waiters that drains have dropped.  So it is right if
      and only if no drain has dropped a waiter, and it has wrapped if and only if drains have dropped more than are
      counted. */
  lemma GaugeIsExact(trace: seq<State>, minIdle: nat, n: nat)
    requires IsRun(trace, minIdle) && n < |trace|
    ensures var s := trace[n];
            && s.waiting == |s.counted| - s.dropped
            && (s.waiting == |s.counted| <==> s.dropped == 0) && (s.waiting < 0 <==> s.dropped > |s.counted|)
            && (forall w :: w in s.waiters && w !in s.gone ==> w in s.counted)
            && (forall c :: c in s.loc && s.loc[c].Delivered? ==> s.loc[c].w in s.counted)
  {
    RunInv(trace, minIdle, n);
  }

  /** `dropped` moves with the drains that find somebody in the queue, and with nothing else. */
  lemma DroppedByDrains(s: State, a: Action)
    requires Enabled(s, a)
    ensures Apply(s, a).dropped == s.dropped + (if a.DrainWaiters? then |s.waiters| else 0)
  {
  }

  /** The states of the following run. */
  function WrapStage(k: nat): State {
    State(0, [], if k == 1 || k == 2 then [0] else [], {}, if k == 0 then 0 else 1, if 1 <= k <= 3 then {0} else {},
          if k <= 2 then 0 else 1, k >= 2, 0, 0, 0, 0, if k == 1 || k == 2 then 1 else if k <= 3 then 0 else -1,
          0, 0, 0, 0, map[])
  }

  /** A pool without room: one call queues up, a drain drops it and lowers the gauge for it, and the call lowers the
      gauge once more on its way out. */
  lemma GaugeWraps()
    ensures var trace := [WrapStage(0), WrapStage(1), WrapStage(2), WrapStage(3), WrapStage(4)];
            IsRun(trace, 0) && trace[4].waiting == -1 && trace[4].waiters == [] && trace[4].counted == {}
  {
    hide Next;
    var trace := [WrapStage(0), WrapStage(1), WrapStage(2), WrapStage(3), WrapStage(4)];
    forall n | 0 <= n < 4 ensures Next(trace[n], trace[n + 1]) {
      WrapStep(n);
      assert trace[n] == WrapStage(n) && trace[n + 1] == WrapStage(n + 1);
    }
    assert trace[0] == WrapStage(0) && trace[4] == WrapStage(4);
  }

  lemma WrapStep(k: nat)
    requires k < 4
    ensures Next(WrapStage(k), WrapStage(k + 1))
  {
    var a := if k == 0 then Enroll else if k == 1 then BeginDrain else if k == 2 then DrainWaiters else Uncount(0);
    assert Enabled(WrapStage(k), a);
    assert WrapStage(k + 1) == Apply(WrapStage(k), a);
  }

  predicate HasLeft(l: Loc) { l == Taken || l == Dead || l == Destroyed }

  lemma NoneLive(s: State)
    requires Live(s.loc) == 0
    ensures forall c :: c in s.loc ==> HasLeft(s.loc[c])
  {
    assert Members(s.loc, InIdle) == {} && Members(s.loc, InUse) == {};
    assert Members(s.loc, InTransit) == {} && Members(s.loc, InStranded) == {};
    forall c | c in s.loc ensures HasLeft(s.loc[c]) {
      assert c in Members(s.loc, Cat(s.loc[c]));
    }
  }

  lemma SomeLive(s: State)
    requires forall c :: c in s.loc ==> HasLeft(s.loc[c])
    ensures Live(s.loc) == 0
  {
    assert Members(s.loc, InIdle) == {} && Members(s.loc, InUse) == {};
    assert Members(s.loc, InTransit) == {} && Members(s.loc, InStranded) == {};
  }

  /** What a drain waits for: a total of zero means that every connection ever made is destroyed, about to be counted
      as such, or taken out of the pool, and that no reservation for another one is left. */
  lemma DrainedIsEmpty(trace: seq<State>, minIdle: nat, n: nat)
    requires IsRun(trace, minIdle) && n < |trace|
    ensures trace[n].total == 0 <==>
              Reserved(trace[n]) == 0 && forall c :: c in trace[n].loc ==> HasLeft(trace[n].loc[c])
  {
    RunInv(trace, minIdle, n);
    EmptyExactly(trace[n]);
  }

  lemma EmptyExactly(s: State)
    requires Inv(s)
    ensures s.total == 0 <==> Reserved(s) == 0 && forall c :: c in s.loc ==> HasLeft(s.loc[c])
  {
    if Live(s.loc) == 0 { NoneLive(s); }
    if forall c :: c in s.loc ==> HasLeft(s.loc[c]) { SomeLive(s); }
  }
}
