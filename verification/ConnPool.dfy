/** The pool's own code: its queues and counters, and the methods that update them.  Every counter or queue
    operation carries out one step of the `Pool` machine on the ghost state `m`. */
module ConnPool {
  import Seqs
  import opened Wrappers
  import opened Pool

  datatype Entry = Entry(conn: Conn, expiresAt: int)

  function Conns(es: seq<Entry>): (cs: seq<Conn>)
    ensures |cs| == |es| && forall i :: 0 <= i < |es| ==> cs[i] == es[i].conn
  {
    seq(|es|, i requires 0 <= i < |es| => es[i].conn)
  }

  /** `acts` is a run of the machine from `s` to `t`. */
  ghost predicate Steps(s: State, acts: seq<Action>, t: State)
    decreases |acts|
  {
    if acts == [] then s == t else Enabled(s, acts[0]) && Steps(Apply(s, acts[0]), acts[1..], t)
  }

  lemma {:induction false} StepsAppend(s: State, acts: seq<Action>, t: State, bs: seq<Action>, u: State)
    requires Steps(s, acts, t) && Steps(t, bs, u)
    ensures Steps(s, acts + bs, u)
    decreases |acts|
  {
    if acts == [] {
      assert acts + bs == bs;
    } else {
      assert (acts + bs)[1..] == acts[1..] + bs;
      StepsAppend(Apply(s, acts[0]), acts[1..], t, bs, u);
    }
  }

  lemma StepsLast(s: State, acts: seq<Action>, t: State, a: Action)
    requires Steps(s, acts, t) && Enabled(t, a)
    ensures Steps(s, acts + [a], Apply(t, a))
  {
    OneStep(t, a);
    StepsAppend(s, acts, t, [a], Apply(t, a));
  }

  lemma {:induction false} StepsInv(s: State, acts: seq<Action>, t: State)
    requires Inv(s) && Steps(s, acts, t)
    ensures Inv(t) && t.maxSize == s.maxSize
    decreases |acts|
  {
    if acts != [] {
      ApplyInv(s, acts[0]);
      StepsInv(Apply(s, acts[0]), acts[1..], t);
    }
  }

  /** What the outside world says about connections: which are dead or broken, and what the clock shows. */
  datatype World = World(now: int, unhealthy: set<Conn>)

  predicate Usable(e: Entry, w: World, testOnCheckout: bool) {
    w.now < e.expiresAt && (testOnCheckout ==> e.conn !in w.unhealthy)
  }

  /** How many entries at the front of the idle queue `try_get_idle` throws away. */
  function Skipped(es: seq<Entry>, w: World, testOnCheckout: bool): (n: nat)
    ensures n <= |es|
  {
    if es == [] || Usable(es[0], w, testOnCheckout) then 0 else 1 + Skipped(es[1..], w, testOnCheckout)
  }

  lemma {:induction false} SkippedIs(es: seq<Entry>, w: World, testOnCheckout: bool, n: nat)
    requires n <= |es| && (forall i :: 0 <= i < n ==> !Usable(es[i], w, testOnCheckout))
    requires n < |es| ==> Usable(es[n], w, testOnCheckout)
    ensures Skipped(es, w, testOnCheckout) == n
    decreases n
  {
    if n > 0 { SkippedIs(es[1..], w, testOnCheckout, n - 1); }
  }

  /** What `get` comes to without being interrupted: refused, a connection, or a place in the queue. */
  datatype Checkout = Refused | Got(c: Conn) | Waiting(w: Waiter)

  predicate Examines(a: Action) {
    a.FoundBroken? || a.FoundHealthy? || a.ResetFails? || a.ResetPasses? || a.DestroyDraining? || a.NoWaiter?
  }

  /** Where an examined connection goes. */
  function Verdict(a: Action): Loc
    requires Examines(a)
  {
    if a.FoundHealthy? then Resetting else if a.ResetPasses? then Clean else if a.NoWaiter? then Unclaimed else Dying
  }

  class ConnPool {
    const maxSize: nat
    const testOnCheckout: bool
    var idle: seq<Entry>
    var waiters: seq<Waiter>
    var closed: set<Waiter>         // waiters whose receiver is gone
    var nextWaiter: nat             // tells one waiter's channel from another's
    var draining: bool
    var total: int
    var inUse: int
    var created: nat
    var destroyed: nat
    var checkouts: nat
    var timeouts: nat
    var waiting: int                // the waiter gauge; the 64-bit counter holds this number modulo 2^64
    ghost var m: State

    ghost predicate Valid()
      reads this
    {
      && IdleInv(m)
      && m.maxSize == maxSize && m.idle == Conns(idle) && m.waiters == waiters && m.gone == closed
         && m.nextWaiter == nextWaiter && m.draining == draining
      && m.total == total && m.inUse == inUse && m.created == created && m.destroyed == destroyed
      && m.waiting == waiting
    }

    /** `new`: `prefill` are the connections that could be made out of `minIdle` attempts. */
    constructor (maxSize: nat, testOnCheckout: bool, minIdle: nat, prefill: seq<Entry>)
      requires |prefill| <= minIdle <= maxSize && Distinct(Conns(prefill))
      ensures Valid() && Init(m, minIdle)
      ensures this.maxSize == maxSize && this.testOnCheckout == testOnCheckout && idle == prefill && total == |prefill|
          && inUse == 0
      ensures checkouts == timeouts == waiting == 0
    {
      this.maxSize, this.testOnCheckout := maxSize, testOnCheckout;
      idle, waiters, closed, nextWaiter, draining := prefill, [], {}, 0, false;
      total, inUse, created, destroyed := |prefill|, 0, |prefill|, 0;
      checkouts, timeouts, waiting := 0, 0, 0;
      m := State(maxSize, Conns(prefill), [], {}, 0, {}, 0, false, |prefill|, 0, |prefill|, 0, 0, 0, 0, 0, 0,
                 map c | c in Conns(prefill) :: Loc.Idle);
      new;
      InitInv(m, minIdle);
    }

    /** One step of the machine. */
    ghost method Do(a: Action) returns (steps: seq<Action>)
      requires IdleInv(m) && Enabled(m, a) && (a.WaiterGoes? ==> WaiterInv(m))
      modifies this`m
      ensures m == Apply(old(m), a) && IdleInv(m) && steps == [a] && Steps(old(m), steps, m)
    {
      ApplyIdle(m, a);
      steps := [a];
      OneStep(m, a);
      m := Apply(m, a);
    }

    /** A step that does nothing but move one connection. */
    ghost method Examine(a: Action) returns (steps: seq<Action>)
      requires IdleInv(m) && Examines(a) && Enabled(m, a)
      modifies this`m
      ensures m == Move(old(m), a.c, Verdict(a)) && IdleInv(m) && Steps(old(m), steps, m)
    {
      hide IdleInv, Steps;
      steps := Do(a);
    }

    method SubtractTotal(c: Conn) returns (ghost steps: seq<Action>)
      requires Valid() && At(m, c, Dying)
      modifies this`total, this`m
      ensures Valid() && total == old(total) - 1 && steps == [SubTotal(c)] && Steps(old(m), steps, m)
      ensures m.loc == old(m).loc[c := Dead]
    {
      hide IdleInv, Steps;
      total := total - 1;
      steps := Do(SubTotal(c));
    }

    method CountDestroyed(c: Conn) returns (ghost steps: seq<Action>)
      requires Valid() && At(m, c, Dead)
      modifies this`destroyed, this`m
      ensures Valid() && destroyed == old(destroyed) + 1 && steps == [AddDestroyed(c)] && Steps(old(m), steps, m)
      ensures m.loc == old(m).loc[c := Destroyed]
    {
      hide IdleInv, Steps;
      destroyed := destroyed + 1;
      steps := Do(AddDestroyed(c));
    }

    /** `destroy_conn_stats`. */
    method DestroyConnStats(c: Conn) returns (ghost steps: seq<Action>)
      requires Valid() && At(m, c, Dying)
      modifies this`total, this`destroyed, this`m
      ensures Valid() && total == old(total) - 1 && destroyed == old(destroyed) + 1
      ensures steps == [SubTotal(c), AddDestroyed(c)] && Steps(old(m), steps, m)
      ensures m.loc == old(m).loc[c := Destroyed]
    {
      hide IdleInv, Steps, Apply, Enabled;
      steps := SubtractTotal(c);
      ghost var was := m;
      ghost var more := CountDestroyed(c);
      StepsAppend(old(m), steps, was, more, m);
      steps := steps + more;
    }

    /** Takes the front entry off the idle queue and destroys it. */
    method PopUnusable() returns (ghost steps: seq<Action>)
      requires Valid() && idle != []
      modifies this`idle, this`total, this`destroyed, this`m
      ensures Valid() && Steps(old(m), steps, m)
      ensures idle == old(idle)[1..] && total == old(total) - 1 && destroyed == old(destroyed) + 1
      ensures forall c :: c in m.loc <==> c in old(m).loc
    {
      hide Steps;
      var c := idle[0].conn;
      ghost var was := m;
      assert m.idle[0] == c && At(m, c, Idle);
      idle := idle[1..];
      assert Conns(idle) == m.idle[1..];
      steps := Do(PopUnhealthy(c));
      assert At(m, c, Dying);
      was := m;
      ghost var more := DestroyConnStats(c);
      StepsAppend(old(m), steps, was, more, m);
      steps := steps + more;
    }

    method PopUsable() returns (c: Conn, ghost steps: seq<Action>)
      requires Valid() && idle != []
      modifies this`idle, this`m
      ensures Valid() && Steps(old(m), steps, m)
      ensures c == old(idle)[0].conn && idle == old(idle)[1..] && At(m, c, Held)
      ensures forall d :: d in m.loc <==> d in old(m).loc
    {
      c := idle[0].conn;
      assert m.idle[0] == c && At(m, c, Idle);
      idle := idle[1..];
      assert Conns(idle) == m.idle[1..];
      steps := Do(PopIdle(c));
    }

    /** `try_get_idle`: the first usable idle connection; everything unusable in front of it is destroyed. */
    method TryGetIdle(w: World) returns (r: Option<Conn>, ghost steps: seq<Action>)
      requires Valid()
      modifies this`idle, this`total, this`destroyed, this`m
      ensures Valid() && Steps(old(m), steps, m)
      ensures var k := Skipped(old(idle), w, testOnCheckout);
              && total == old(total) - k && destroyed == old(destroyed) + k
              && (if k < |old(idle)| then r == Some(old(idle)[k].conn) && idle == old(idle)[k + 1..] else r == None
                                                                                                          && idle == [])
      ensures var k := Skipped(old(idle), w, testOnCheckout);
              && (forall i :: 0 <= i < k ==> var e := old(idle)[i];
                    w.now >= e.expiresAt || (testOnCheckout && e.conn in w.unhealthy))
              && (k < |old(idle)| ==> var e := old(idle)[k];
                    w.now < e.expiresAt && (testOnCheckout ==> e.conn !in w.unhealthy))
      ensures r.Some? ==> At(m, r.value, Held)
      ensures forall c :: c in m.loc <==> c in old(m).loc
    {
      hide IdleInv, Steps, Apply, Enabled, Conns;
      steps := [];
      NoSteps(m);
      while idle != []
        invariant Valid() && Steps(old(m), steps, m)
        invariant |idle| <= |old(idle)| && idle == old(idle)[|old(idle)| - |idle|..]
        invariant total == old(total) - (|old(idle)| - |idle|) && destroyed == old(destroyed) + (|old(idle)| - |idle|)
        invariant forall i :: 0 <= i < |old(idle)| - |idle| ==> !Usable(old(idle)[i], w, testOnCheckout)
        invariant forall c :: c in m.loc <==> c in old(m).loc
        decreases |idle|
      {
        var entry := idle[0];
        ghost var was := m;
        ghost var k := |old(idle)| - |idle|;
        assert entry == old(idle)[k];
        if w.now >= entry.expiresAt || (testOnCheckout && entry.conn in w.unhealthy) {
          ghost var more := PopUnusable();
          StepsAppend(old(m), steps, was, more, m);
          steps := steps + more;
        } else {
          SkippedIs(old(idle), w, testOnCheckout, k);
          var c;
          ghost var more;
          c, more := PopUsable();
          StepsAppend(old(m), steps, was, more, m);
          return Some(c), steps + more;
        }
      }
      SkippedIs(old(idle), w, testOnCheckout, |old(idle)|);
      r := None;
    }

    method FinishConnect(c: Conn, purpose: Purpose) returns (ghost steps: seq<Action>)
      requires Valid() && m.connecting > 0 && c !in m.loc
      modifies this`created, this`m
      ensures Valid() && Steps(old(m), steps, m)
      ensures created == old(created) + 1 && m.loc == old(m).loc[c := Destination(purpose)]
    {
      hide IdleInv, Steps;
      created := created + 1;
      steps := Do(ConnectOk(c, purpose));
    }

    /** Takes a reservation back: one that found the pool full, or one whose connection attempt failed. */
    method UndoReservation(full: bool) returns (ghost steps: seq<Action>)
      requires Valid() && (if full then m.over > 0 else m.connecting > 0)
      modifies this`total, this`m
      ensures Valid() && Steps(old(m), steps, m) && total == old(total) - 1
      ensures m == if full then old(m).(total := total, over := old(m).over - 1)
                   else old(m).(total := total, connecting := old(m).connecting - 1)
    {
      hide IdleInv, Steps;
      if full {
        total := total - 1;
        steps := Do(UndoOver);
        return;
      }
      steps := Do(ConnectFails);
      ghost var was := m;
      total := total - 1;
      ghost var more := Do(UndoFailed);
      StepsAppend(old(m), steps, was, more, m);
      steps := steps + more;
    }

    /** `create_and_track`; `attempt` is the connection the server gave us, if any. */
    method CreateAndTrack(attempt: Option<Conn>, purpose: Purpose) returns (r: Option<Conn>, ghost steps: seq<Action>)
      requires Valid() && (attempt.Some? ==> attempt.value !in m.loc)
      modifies this`total, this`created, this`m
      ensures Valid() && Steps(old(m), steps, m)
      ensures r == (if old(total) < maxSize then attempt else None)
      ensures total == old(total) + One(r.Some?) && created == old(created) + One(r.Some?)
      ensures r.Some? ==> m.loc == old(m).loc[r.value := Destination(purpose)]
      ensures r.None? ==> m == old(m)
    {
      hide IdleInv, Steps;
      var prev := total;
      total := total + 1;
      steps := Do(Reserve);
      ghost var was := m;
      ghost var more;
      if prev >= maxSize {
        more := UndoReservation(true);
        r := None;
      } else if attempt.Some? {
        more := FinishConnect(attempt.value, purpose);
        r := attempt;
      } else {
        more := UndoReservation(false);
        r := None;
      }
      StepsAppend(old(m), steps, was, more, m);
      steps := steps + more;
    }

    /** The connection in hand is counted as in use and put behind a guard. */
    method CheckOutHeld(c: Conn) returns (ghost steps: seq<Action>)
      requires Valid() && At(m, c, Held)
      modifies this`inUse, this`checkouts, this`m
      ensures Valid() && Steps(old(m), steps, m)
      ensures inUse == old(inUse) + 1 && checkouts == old(checkouts) + 1
      ensures m == old(m).(inUse := inUse, loc := old(m).loc[c := CheckedOut])
    {
      hide IdleInv, Steps;
      inUse := inUse + 1;
      checkouts := checkouts + 1;
      steps := Do(CheckOut(c));
    }

    /** A new waiter at the back of the queue. */
    method EnrollWaiter() returns (w: Waiter, ghost steps: seq<Action>)
      requires Valid()
      modifies this`waiters, this`nextWaiter, this`waiting, this`m
      ensures Valid() && Steps(old(m), steps, m)
      ensures w == old(nextWaiter) && nextWaiter == w + 1 && waiters == old(waiters) + [w] && m.loc == old(m).loc
      ensures waiting == old(waiting) + 1 && w in m.counted
    {
      hide IdleInv, Steps;
      w := nextWaiter;
      waiters, nextWaiter := waiters + [w], w + 1;
      waiting := waiting + 1;
      steps := Do(Enroll);
    }

    /** The part of `get` that looks for a connection: an idle one, or a new one. */
    method Acquire(w: World, attempt: Option<Conn>) returns (found: Option<Conn>, ghost steps: seq<Action>)
      requires Valid() && (attempt.Some? ==> attempt.value !in m.loc)
      modifies this`idle, this`total, this`created, this`destroyed, this`m
      ensures Valid() && Steps(old(m), steps, m) && (found.Some? ==> At(m, found.value, Held))
      ensures var k := Skipped(old(idle), w, testOnCheckout);
              var made := k == |old(idle)| && old(total) - k < maxSize && attempt.Some?;
              && found == (if k < |old(idle)| then Some(old(idle)[k].conn) else if made then attempt else None)
              && idle == (if k < |old(idle)| then old(idle)[k + 1..] else [])
              && total == old(total) - k + One(made) && created == old(created) + One(made)
                 && destroyed == old(destroyed) + k
    {
      hide IdleInv, Steps, Apply, Enabled, Skipped, Conns;
      found, steps := TryGetIdle(w);
      if found == None && total < maxSize {
        ghost var was := m;
        ghost var more;
        found, more := CreateAndTrack(attempt, ForCaller);
        StepsAppend(old(m), steps, was, more, m);
        steps := steps + more;
      }
    }

    /** `get` up to the point where it waits: an idle connection if there is a usable one, else a new one if the pool
        has room and the server grants it, else a place at the back of the queue. */
    method Get(w: World, attempt: Option<Conn>) returns (r: Checkout, ghost steps: seq<Action>)
      requires Valid() && (attempt.Some? ==> attempt.value !in m.loc)
      modifies this
      ensures Valid() && Steps(old(m), steps, m) && draining == old(draining) && closed == old(closed)
      ensures old(draining) ==> r == Refused && m == old(m)
      ensures !old(draining) ==>
                var k := Skipped(old(idle), w, testOnCheckout);
                var made := k == |old(idle)| && old(total) - k < maxSize && attempt.Some?;
                && r == (if k < |old(idle)| then Got(old(idle)[k].conn) else if made then Got(attempt.value)
                   else Waiting(old(nextWaiter)))
                && idle == (if k < |old(idle)| then old(idle)[k + 1..] else [])
                && total == old(total) - k + One(made) && created == old(created) + One(made)
                   && destroyed == old(destroyed) + k
      ensures inUse == old(inUse) + One(r.Got?) && (r.Got? ==> At(m, r.c, CheckedOut))
      ensures checkouts == old(checkouts) + One(r.Got?) && waiting == old(waiting) + One(r.Waiting?)
          && timeouts == old(timeouts)
      ensures waiters == old(waiters) + (if r.Waiting? then [r.w] else []) && (r.Waiting? ==> r.w in m.counted)
    {
      hide IdleInv, Steps, Apply, Enabled, Skipped, Conns;
      NoSteps(m);
      if draining { return Refused, []; }
      var found;
      found, steps := Acquire(w, attempt);
      ghost var was := m;
      ghost var more;
      if found.Some? {
        more := CheckOutHeld(found.value);
        r := Got(found.value);
      } else {
        var ticket;
        ticket, more := EnrollWaiter();
        r := Waiting(ticket);
      }
      StepsAppend(old(m), steps, was, more, m);
      steps := steps + more;
    }

    /** The guard of a waiting call lowers the gauge. */
    method DropCountGuard(w: Waiter) returns (ghost steps: seq<Action>)
      requires Valid() && w in m.counted && CallEnds(m, w)
      modifies this`waiting, this`m
      ensures Valid() && Steps(old(m), steps, m) && waiting == old(waiting) - 1
      ensures m == old(m).(counted := old(m).counted - {w}, waiting := old(m).waiting - 1)
    {
      hide IdleInv, Steps;
      waiting := waiting - 1;
      steps := Do(Uncount(w));
    }

    /** A waiting `get` finds a connection in its channel. */
    method ReceiveDelivered(c: Conn, w: Waiter) returns (ghost steps: seq<Action>)
      requires Valid() && At(m, c, Delivered(w)) && WaiterInv(m) && GaugeInv(m)
      modifies this`inUse, this`checkouts, this`waiting, this`m
      ensures Valid() && Steps(old(m), steps, m)
      ensures inUse == old(inUse) + 1 && m.loc == old(m).loc[c := CheckedOut]
      ensures checkouts == old(checkouts) + 1 && waiting == old(waiting) - 1 && m.counted == old(m).counted - {w}
    {
      hide IdleInv, WaiterInv, GaugeInv, Steps, Apply, Enabled;
      steps := TakeDelivered(c, w);
      ghost var was := m;
      ghost var more := CheckOutHeld(c);
      StepsAppend(old(m), steps, was, more, m);
      steps, was := steps + more, m;
      more := DropCountGuard(w);
      StepsAppend(old(m), steps, was, more, m);
      steps := steps + more;
    }

    method TakeDelivered(c: Conn, w: Waiter) returns (ghost steps: seq<Action>)
      requires Valid() && At(m, c, Delivered(w)) && WaiterInv(m) && GaugeInv(m)
      modifies this`m
      ensures Valid() && Steps(old(m), steps, m) && m == Move(old(m), c, Held)
      ensures w in m.counted && w !in m.waiters && forall d :: d in m.loc ==> m.loc[d] != Delivered(w)
    {
      hide IdleInv, Steps;
      steps := Do(Receive(c));
    }

    /** The channel of a waiting `get` closes, taking along what was already in it. */
    method LeaveChannel(w: Waiter) returns (ghost steps: seq<Action>)
      requires Valid() && WaiterInv(m) && w < nextWaiter && w !in closed
      modifies this`closed, this`m
      ensures Valid() && Steps(old(m), steps, m) && closed == old(closed) + {w}
      ensures m == old(m).(gone := closed, loc := Strand(old(m).loc, w))
    {
      hide IdleInv, WaiterInv, Steps;
      closed := closed + {w};
      steps := Do(WaiterGoes(w));
    }

    /** Every closed waiter is removed from the queue. */
    method PurgeClosed() returns (ghost steps: seq<Action>)
      requires Valid()
      modifies this`waiters, this`m
      ensures Valid() && Steps(old(m), steps, m) && waiters == StillWaiting(old(waiters), closed)
      ensures m == old(m).(waiters := waiters)
    {
      hide IdleInv, Steps;
      waiters := StillWaiting(waiters, closed);
      steps := Do(PurgeWaiters);
    }

    /** A waiting `get` times out: its channel closes, every closed waiter is removed from the queue, and the gauge
        goes down. */
    method TimeOut(w: Waiter) returns (ghost steps: seq<Action>)
      requires Valid() && WaiterInv(m) && w < nextWaiter && w !in closed && w in m.counted
      modifies this`waiters, this`closed, this`timeouts, this`waiting, this`m
      ensures Valid() && Steps(old(m), steps, m) && closed == old(closed) + {w}
      ensures waiters == StillWaiting(old(waiters), closed) && m.loc == Strand(old(m).loc, w)
      ensures Seqs.Subsequence(waiters, old(waiters))
      ensures forall x :: multiset(waiters)[x] == if x in closed then 0 else multiset(old(waiters))[x]
      ensures timeouts == old(timeouts) + 1 && waiting == old(waiting) - 1 && m.counted == old(m).counted - {w}
    {
      hide IdleInv, WaiterInv, Steps;
      StillWaitingExactly(waiters, closed + {w});
      steps := LeaveChannel(w);
      timeouts := timeouts + 1;
      ghost var was := m;
      ghost var more := PurgeClosed();
      StepsAppend(old(m), steps, was, more, m);
      steps, was := steps + more, m;
      more := DropCountGuard(w);
      StepsAppend(old(m), steps, was, more, m);
      steps := steps + more;
    }

    /** A waiting `get` finds that `drain` has dropped it: it fails, and the gauge, which the drain has lowered for it
        already, is lowered once more.  `w` has neither left, nor been sent anything, nor taken what it was sent. */
    method FindClosed(w: Waiter) returns (ghost steps: seq<Action>)
      requires Valid() && w in m.counted && w !in closed && w !in waiters
      requires forall c :: c in m.loc ==> m.loc[c] != Delivered(w)
      modifies this`waiting, this`m
      ensures Valid() && Steps(old(m), steps, m) && waiting == old(waiting) - 1
      ensures m == old(m).(counted := old(m).counted - {w}, waiting := waiting)
    {
      steps := DropCountGuard(w);
    }

    /** The first waiter still listening gets the connection, and those passed over leave the queue; if there is
        none, the queue is empty afterwards and the connection is parked at the back. */
    ghost predicate HandedOver(idle0: seq<Entry>, waiters0: seq<Waiter>, c: Conn, expiresAt: int, to: Option<Waiter>)
      reads this
    {
      var passed := |waiters0| - |waiters| - One(to.Some?);
      && 0 <= passed && waiters == waiters0[|waiters0| - |waiters|..]
      && (forall i :: 0 <= i < passed ==> waiters0[i] in closed)
      && (if to.Some? then to.value == waiters0[passed] && to.value !in closed && idle == idle0
         && At(m, c, Delivered(to.value))
          else waiters == [] && idle == idle0 + [Entry(c, expiresAt)] && At(m, c, Idle))
    }

    /** `waiter.tx.send(conn)` for the waiter in front, which leaves the queue either way. */
    method OfferToFront(c: Conn) returns (taken: bool, ghost steps: seq<Action>)
      requires Valid() && At(m, c, Clean) && waiters != []
      modifies this`waiters, this`m
      ensures Valid() && Steps(old(m), steps, m)
      ensures waiters == old(waiters)[1..] && taken == (old(waiters)[0] !in closed)
      ensures m.loc == if taken then old(m).loc[c := Delivered(old(waiters)[0])] else old(m).loc
    {
      hide IdleInv, Steps;
      taken := waiters[0] !in closed;
      waiters := waiters[1..];
      steps := Do(Offer(c));
    }

    /** The hand-over loop of `return_conn_async` and `try_provision_for_waiter`. */
    method HandOver(c: Conn, expiresAt: int) returns (to: Option<Waiter>, ghost steps: seq<Action>)
      requires Valid() && At(m, c, Clean)
      modifies this`waiters, this`idle, this`m
      ensures Valid() && Steps(old(m), steps, m)
      ensures HandedOver(old(idle), old(waiters), c, expiresAt, to) && c in m.loc && m.loc == old(m).loc[c := m.loc[c]]
    {
      hide IdleInv, Steps, Apply, Enabled;
      steps := [];
      NoSteps(m);
      while waiters != []
        invariant Valid() && Steps(old(m), steps, m) && m.loc == old(m).loc && idle == old(idle)
        invariant |waiters| <= |old(waiters)| && waiters == old(waiters)[|old(waiters)| - |waiters|..]
        invariant forall i :: 0 <= i < |old(waiters)| - |waiters| ==> old(waiters)[i] in closed
        decreases |waiters|
      {
        var waiter := waiters[0];
        assert waiter == old(waiters)[|old(waiters)| - |waiters|];
        ghost var was := m;
        var taken;
        ghost var more;
        taken, more := OfferToFront(c);
        StepsAppend(old(m), steps, was, more, m);
        steps := steps + more;
        if taken { return Some(waiter), steps; }
      }
      ghost var was := m;
      ghost var more := ParkIdle(c, expiresAt);
      StepsAppend(old(m), steps, was, more, m);
      steps := steps + more;
      to := None;
    }

    method ParkUnclaimed(c: Conn, expiresAt: int) returns (ghost steps: seq<Action>)
      requires Valid() && At(m, c, Unclaimed)
      modifies this`idle, this`m
      ensures Valid() && Steps(old(m), steps, m)
      ensures idle == old(idle) + [Entry(c, expiresAt)] && m.loc == old(m).loc[c := Idle]
    {
      hide IdleInv, Steps;
      idle := idle + [Entry(c, expiresAt)];
      assert Conns(idle) == m.idle + [c];
      steps := Do(Park(c));
    }

    method ParkIdle(c: Conn, expiresAt: int) returns (ghost steps: seq<Action>)
      requires Valid() && At(m, c, Clean) && waiters == []
      modifies this`idle, this`m
      ensures Valid() && Steps(old(m), steps, m)
      ensures idle == old(idle) + [Entry(c, expiresAt)] && m.loc == old(m).loc[c := Idle]
    {
      hide IdleInv, Steps;
      steps := Examine(NoWaiter(c));
      ghost var was := m;
      ghost var more := ParkUnclaimed(c, expiresAt);
      StepsAppend(old(m), steps, was, more, m);
      steps := steps + more;
    }

    method EvictAt(k: nat) returns (ghost steps: seq<Action>)
      requires Valid() && k < |idle|
      modifies this`idle, this`total, this`destroyed, this`m
      ensures Valid() && Steps(old(m), steps, m)
      ensures idle == old(idle)[..k] + old(idle)[k + 1..]
      ensures total == old(total) - 1 && destroyed == old(destroyed) + 1
    {
      var c := idle[k].conn;
      ghost var was := m;
      assert m.idle[k] == c;
      assert c in m.idle && At(m, c, Idle);
      DropAt(m.idle, k);
      idle := idle[..k] + idle[k + 1..];
      assert Conns(idle) == m.idle[..k] + m.idle[k + 1..];
      steps := Do(Evict(c));
      was := m;
      ghost var more := DestroyConnStats(c);
      StepsAppend(old(m), steps, was, more, m);
      steps := steps + more;
    }

    /** Eviction by the maintenance task: `idle.retain` on the expiry time, then the two bulk counter updates. */
    method EvictExpired(now: int) returns (ghost steps: seq<Action>)
      requires Valid()
      modifies this`idle, this`total, this`destroyed, this`m
      ensures Valid() && Steps(old(m), steps, m)
      ensures idle == Unexpired(old(idle), now) && Seqs.Subsequence(idle, old(idle))
      ensures forall e :: multiset(idle)[e] == if now < e.expiresAt then multiset(old(idle))[e] else 0
      ensures var evicted := |old(idle)| - |idle|;
              total == old(total) - evicted && destroyed == old(destroyed) + evicted
    {
      hide IdleInv, Steps, Apply, Enabled, Unexpired, Seqs.Subsequence;
      UnexpiredExactly(idle, now);
      NothingExpires(now);
      steps := [];
      NoSteps(m);
      var before := idle;
      var i, kept := 0, 0;
      while i < |before|
        invariant kept <= i <= |before| && |idle| == kept + (|before| - i)
        invariant idle[..kept] == Unexpired(before[..i], now) && idle[kept..] == before[i..]
        invariant Valid() && Steps(old(m), steps, m)
        invariant total == old(total) - (i - kept) && destroyed == old(destroyed) + (i - kept)
        decreases |before| - i
      {
        assert idle[kept] == before[i];
        UnexpiredNext(before, i, now);
        if now < idle[kept].expiresAt {
          assert idle[..kept + 1] == idle[..kept] + [before[i]];
          assert idle[kept + 1..] == idle[kept..][1..];
          kept := kept + 1;
        } else {
          ghost var was, q := m, idle;
          ghost var more := EvictAt(kept);
          assert idle[..kept] == q[..kept] && idle[kept..] == q[kept..][1..];
          StepsAppend(old(m), steps, was, more, m);
          steps := steps + more;
        }
        i := i + 1;
      }
      assert before[..i] == before && idle[..kept] == idle;
    }

    method EvictAll() returns (ghost steps: seq<Action>)
      requires Valid()
      modifies this`idle, this`total, this`destroyed, this`m
      ensures Valid() && Steps(old(m), steps, m) && idle == []
      ensures total == old(total) - |old(idle)| && destroyed == old(destroyed) + |old(idle)|
    {
      hide IdleInv, Steps, Apply, Enabled;
      steps := [];
      NoSteps(m);
      while idle != []
        invariant Valid() && Steps(old(m), steps, m) && |idle| <= |old(idle)|
        invariant total == old(total) - (|old(idle)| - |idle|) && destroyed == old(destroyed) + (|old(idle)| - |idle|)
        decreases |idle|
      {
        ghost var was := m;
        ghost var more := EvictAt(0);
        StepsAppend(old(m), steps, was, more, m);
        steps := steps + more;
      }
    }

    /** The drain drops every waiter from the queue, and lowers the gauge for each. */
    method DropWaiters() returns (ghost steps: seq<Action>)
      requires Valid() && draining
      modifies this`waiters, this`waiting, this`m
      ensures Valid() && Steps(old(m), steps, m) && waiters == [] && waiting == old(waiting) - |old(waiters)|
    {
      hide IdleInv, Steps;
      waiting := waiting - |waiters|;
      waiters := [];
      steps := Do(DrainWaiters);
    }

    /** `drain` up to the point where it waits for the connections still out. */
    method Drain() returns (ghost steps: seq<Action>)
      requires Valid()
      modifies this`idle, this`waiters, this`draining, this`total, this`destroyed, this`waiting, this`m
      ensures Valid() && Steps(old(m), steps, m)
      ensures draining && idle == [] && waiters == [] && waiting == old(waiting) - |old(waiters)|
      ensures total == old(total) - |old(idle)| && destroyed == old(destroyed) + |old(idle)|
    {
      hide IdleInv, Steps;
      draining := true;
      steps := Do(BeginDrain);
      ghost var was := m;
      ghost var more := EvictAll();
      StepsAppend(old(m), steps, was, more, m);
      steps, was := steps + more, m;
      more := DropWaiters();
      StepsAppend(old(m), steps, was, more, m);
      steps := steps + more;
    }

    /** The test that ends the wait of `drain`: nothing is on its way into the pool, and everything has left it.
        Runs keep the machine's invariant, by `StepsInv`. */
    method DrainComplete() returns (done: bool)
      requires Valid() && Inv(m)
      ensures done <==> Reserved(m) == 0 && forall c :: c in m.loc ==> HasLeft(m.loc[c])
    {
      EmptyExactly(m);
      done := total == 0;
    }

    /** Makes one connection for the idle queue; fails when the pool is full or the server refuses. */
    method AddIdle(attempt: Option<Conn>, expiresAt: int) returns (ok: bool, ghost steps: seq<Action>)
      requires Valid() && (attempt.Some? ==> attempt.value !in m.loc)
      modifies this`idle, this`total, this`created, this`m
      ensures Valid() && Steps(old(m), steps, m) && ok == (old(total) < maxSize && attempt.Some?)
      ensures total == old(total) + One(ok) && created == old(created) + One(ok)
      ensures idle == old(idle) + (if ok then [Entry(attempt.value, expiresAt)] else [])
      ensures m.loc == if ok then old(m).loc[attempt.value := Idle] else old(m).loc
    {
      hide IdleInv, Steps, Apply, Enabled;
      var made;
      made, steps := CreateAndTrack(attempt, ForIdle);
      if made == None { return false, steps; }
      var c := made.value;
      ghost var was := m;
      ghost var more := ParkUnclaimed(c, expiresAt);
      StepsAppend(old(m), steps, was, more, m);
      steps := steps + more;
      ok := true;
    }

    /** The maintenance task's top-up; `offered` are the connections the server grants before it first refuses one. */
    method TopUp(minIdle: nat, offered: seq<Conn>, expiresAt: int) returns (made: nat, ghost steps: seq<Action>)
      requires Valid() && Distinct(offered) && forall c :: c in offered ==> c !in m.loc
      modifies this`idle, this`total, this`created, this`m
      ensures Valid() && Steps(old(m), steps, m)
      ensures made <= |offered| && idle == old(idle) + Entries(offered[..made], expiresAt)
      ensures total == old(total) + made && created == old(created) + made
      ensures made > 0 ==> total <= maxSize && (old(total) >= inUse ==> total - inUse <= minIdle)
      ensures made < |offered| && old(total) >= inUse ==> total - inUse >= minIdle || total >= maxSize
    {
      hide IdleInv, Apply, Enabled, Inv;
      steps, made := [], 0;
      var current := if total > inUse then total - inUse else 0;
      if current < minIdle && total < maxSize {
        var toCreate := if minIdle - current < maxSize - total then minIdle - current else maxSize - total;
        for i := 0 to toCreate
          invariant Valid() && Steps(old(m), steps, m) && i == made <= |offered|
          invariant idle == old(idle) + Entries(offered[..made], expiresAt)
          invariant total == old(total) + made && created == old(created) + made
          invariant forall j :: made <= j < |offered| ==> offered[j] !in m.loc
        {
          ghost var was := m;
          var ok;
          ghost var more;
          ok, more := AddIdle(if i < |offered| then Some(offered[i]) else None, expiresAt);
          StepsAppend(old(m), steps, was, more, m);
          steps := steps + more;
          if !ok { break; }
          assert offered[..made + 1] == offered[..made] + [offered[made]];
          made := made + 1;
        }
      }
    }

    /** `try_provision_for_waiter`: unless the pool is draining or full or nobody waits, a new connection is made
        and handed over like a returned one. */
    ghost predicate Provisioned(idle0: seq<Entry>, waiters0: seq<Waiter>, total0: int, created0: nat,
                                attempt: Option<Conn>, expiresAt: int, to: Option<Waiter>)
      reads this
    {
      var made := !draining && waiters0 != [] && total0 < maxSize && attempt.Some?;
      && total == total0 + One(made) && created == created0 + One(made)
      && (if made then HandedOver(idle0, waiters0, attempt.value, expiresAt, to)
          else to == None && idle == idle0 && waiters == waiters0)
    }

    method TryProvisionForWaiter(attempt: Option<Conn>, expiresAt: int)
        returns (to: Option<Waiter>, ghost steps: seq<Action>)
      requires Valid() && (attempt.Some? ==> attempt.value !in m.loc)
      modifies this`waiters, this`idle, this`total, this`created, this`m
      ensures Valid() && Steps(old(m), steps, m)
      ensures Provisioned(old(idle), old(waiters), old(total), old(created), attempt, expiresAt, to)
      ensures forall d :: d in old(m).loc ==> d in m.loc && m.loc[d] == old(m).loc[d]
    {
      hide IdleInv, Apply, Enabled;
      if draining { return None, []; }
      if waiters == [] { return None, []; }
      var made;
      made, steps := CreateAndTrack(attempt, ForWaiter);
      if made == None { return None, steps; }
      ghost var was := m;
      ghost var more;
      to, more := HandOver(made.value, expiresAt);
      StepsAppend(old(m), steps, was, more, m);
      steps := steps + more;
    }

    /** A returned connection is kept and handed over; or it is destroyed and replaced for a waiter. */
    ghost predicate KeptOrReplaced(kept: bool, c: Conn, idle0: seq<Entry>, waiters0: seq<Waiter>, total0: int,
                                   created0: nat, destroyed0: nat, attempt: Option<Conn>, expiresAt: int,
                                   to: Option<Waiter>)
      reads this
    {
      if kept then
        && total == total0 && created == created0 && destroyed == destroyed0
        && HandedOver(idle0, waiters0, c, expiresAt, to)
      else
        && At(m, c, Destroyed) && destroyed == destroyed0 + 1
        && Provisioned(idle0, waiters0, total0 - 1, created0, attempt, expiresAt, to)
    }

    /** `return_conn_async` for a connection whose return task has started; `resets` says whether the reset succeeds.
        The connection is kept and handed to a waiter or parked; or it is destroyed, and then, unless it was given up
        because of draining, replaced for a waiter. */
    method ReturnConn(c: Conn, w: World, resets: bool, attempt: Option<Conn>, expiresAt: int)
        returns (to: Option<Waiter>, ghost steps: seq<Action>)
      requires Valid() && At(m, c, Returning) && (attempt.Some? ==> attempt.value !in m.loc)
      modifies this`waiters, this`idle, this`total, this`inUse, this`created, this`destroyed, this`m
      ensures Valid() && Steps(old(m), steps, m) && inUse == old(inUse) - 1
      ensures KeptOrReplaced(c !in w.unhealthy && resets && !draining, c, old(idle), old(waiters), old(total),
                             old(created), old(destroyed), attempt, expiresAt, to)
    {
      hide IdleInv, Steps, Apply, Enabled, KeptOrReplaced;
      steps := LeaveInUse(c);
      ghost var was := m;
      ghost var more;
      to, more := Settle(c, w, resets, attempt, expiresAt);
      StepsAppend(old(m), steps, was, more, m);
      steps := steps + more;
    }

    method LeaveInUse(c: Conn) returns (ghost steps: seq<Action>)
      requires Valid() && At(m, c, Returning)
      modifies this`inUse, this`m
      ensures Valid() && inUse == old(inUse) - 1 && Steps(old(m), steps, m)
      ensures m.loc == old(m).loc[c := Returned]
    {
      hide IdleInv, Steps;
      inUse := inUse - 1;
      steps := Do(StartReturn(c));
    }

    method Settle(c: Conn, w: World, resets: bool, attempt: Option<Conn>, expiresAt: int)
        returns (to: Option<Waiter>, ghost steps: seq<Action>)
      requires Valid() && At(m, c, Returned) && (attempt.Some? ==> attempt.value !in m.loc)
      modifies this`waiters, this`idle, this`total, this`created, this`destroyed, this`m
      ensures Valid() && Steps(old(m), steps, m)
      ensures KeptOrReplaced(c !in w.unhealthy && resets && !draining, c, old(idle), old(waiters), old(total),
                             old(created), old(destroyed), attempt, expiresAt, to)
    {
      hide IdleInv, Steps, Apply, KeptOrReplaced;
      if c in w.unhealthy {
        to, steps := Replace(c, FoundBroken(c), attempt, expiresAt);
        return;
      }
      steps := Examine(FoundHealthy(c));
      ghost var was := m;
      ghost var more;
      if !resets {
        to, more := Replace(c, ResetFails(c), attempt, expiresAt);
      } else {
        to, more := Reoffer(c, attempt, expiresAt);
      }
      StepsAppend(old(m), steps, was, more, m);
      steps := steps + more;
    }

    /** Gives up a connection that turned out unusable, and provisions another one for a waiter. */
    method Replace(c: Conn, ghost why: Action, attempt: Option<Conn>, expiresAt: int)
        returns (to: Option<Waiter>, ghost steps: seq<Action>)
      requires Valid() && Enabled(m, why) && (why == FoundBroken(c) || why == ResetFails(c))
      requires attempt.Some? ==> attempt.value !in m.loc
      modifies this`waiters, this`idle, this`total, this`created, this`destroyed, this`m
      ensures Valid() && Steps(old(m), steps, m)
      ensures KeptOrReplaced(false, c, old(idle), old(waiters), old(total), old(created), old(destroyed), attempt,
                             expiresAt, to)
    {
      hide IdleInv, Steps, Apply, HandedOver;
      steps := Discard(c, why);
      ghost var was := m;
      ghost var more;
      to, more := TryProvisionForWaiter(attempt, expiresAt);
      StepsAppend(old(m), steps, was, more, m);
      steps := steps + more;
    }

    method Reoffer(c: Conn, ghost attempt: Option<Conn>, expiresAt: int)
        returns (to: Option<Waiter>, ghost steps: seq<Action>)
      requires Valid() && At(m, c, Resetting)
      modifies this`waiters, this`idle, this`total, this`destroyed, this`m
      ensures Valid() && Steps(old(m), steps, m)
      ensures KeptOrReplaced(!draining, c, old(idle), old(waiters), old(total), created, old(destroyed), attempt,
                             expiresAt, to)
    {
      hide IdleInv, Steps, Apply, HandedOver;
      steps := Examine(ResetPasses(c));
      ghost var was := m;
      ghost var more;
      if draining {
        more := Discard(c, DestroyDraining(c));
        to := None;
      } else {
        to, more := HandOver(c, expiresAt);
      }
      StepsAppend(old(m), steps, was, more, m);
      steps := steps + more;
    }

    /** Giving up a connection for the reason `why`. */
    method Discard(c: Conn, ghost why: Action) returns (ghost steps: seq<Action>)
      requires Valid() && Enabled(m, why) && (why == FoundBroken(c) || why == ResetFails(c)
          || why == DestroyDraining(c))
      modifies this`total, this`destroyed, this`m
      ensures Valid() && total == old(total) - 1 && destroyed == old(destroyed) + 1
      ensures Steps(old(m), steps, m) && m.loc == old(m).loc[c := Destroyed]
    {
      hide IdleInv, Steps;
      steps := Examine(why);
      ghost var was := m;
      ghost var more := DestroyConnStats(c);
      StepsAppend(old(m), steps, was, more, m);
      steps := steps + more;
    }

    /** `PoolGuard::take`. */
    method Take(c: Conn) returns (ghost steps: seq<Action>)
      requires Valid() && At(m, c, CheckedOut)
      modifies this`total, this`inUse, this`m
      ensures Valid() && Steps(old(m), steps, m) && At(m, c, Taken)
      ensures total == old(total) - 1 && inUse == old(inUse) - 1
    {
      hide IdleInv, Steps;
      steps := TakeFromInUse(c);
      ghost var was := m;
      ghost var more := TakeFromTotal(c);
      StepsAppend(old(m), steps, was, more, m);
      steps := steps + more;
    }

    method TakeFromInUse(c: Conn) returns (ghost steps: seq<Action>)
      requires Valid() && At(m, c, CheckedOut)
      modifies this`inUse, this`m
      ensures Valid() && inUse == old(inUse) - 1 && Steps(old(m), steps, m) && m.loc == old(m).loc[c := Taking]
    {
      hide IdleInv, Steps;
      inUse := inUse - 1;
      steps := Do(TakeInUse(c));
    }

    method TakeFromTotal(c: Conn) returns (ghost steps: seq<Action>)
      requires Valid() && At(m, c, Taking)
      modifies this`total, this`m
      ensures Valid() && total == old(total) - 1 && Steps(old(m), steps, m) && m.loc == old(m).loc[c := Taken]
    {
      hide IdleInv, Steps;
      total := total - 1;
      steps := Do(TakeTotal(c));
    }
  }

  lemma NoSteps(s: State)
    ensures Steps(s, [], s)
  {
  }

  lemma OneStep(s: State, a: Action)
    requires Enabled(s, a)
    ensures Steps(s, [a], Apply(s, a))
  {
    OneThenMore(s, a, [], Apply(s, a));
    assert [a] + [] == [a];
  }

  lemma OneThenMore(s: State, a: Action, more: seq<Action>, t: State)
    requires Enabled(s, a) && Steps(Apply(s, a), more, t)
    ensures Steps(s, [a] + more, t)
  {
    assert ([a] + more)[1..] == more;
  }

  function Entries(cs: seq<Conn>, expiresAt: int): (es: seq<Entry>)
    ensures |es| == |cs| && forall i :: 0 <= i < |es| ==> es[i] == Entry(cs[i], expiresAt)
  {
    seq(|cs|, i requires 0 <= i < |cs| => Entry(cs[i], expiresAt))
  }

  function Unexpired(es: seq<Entry>, now: int): seq<Entry> {
    if es == [] then [] else
      var init := Unexpired(es[..|es| - 1], now);
      if now < es[|es| - 1].expiresAt then init + [es[|es| - 1]] else init
  }

  lemma NothingExpires(now: int)
    ensures Unexpired([], now) == []
  {
  }

  lemma UnexpiredNext(es: seq<Entry>, i: nat, now: int)
    requires i < |es|
    ensures Unexpired(es[..i + 1], now)
              == Unexpired(es[..i], now) + if now < es[i].expiresAt then [es[i]] else []
  {
    assert es[..i + 1][..i] == es[..i];
  }

  /** Exactly the expired entries go; the others keep their order and number. */
  lemma {:induction false} UnexpiredExactly(es: seq<Entry>, now: int)
    ensures Seqs.Subsequence(Unexpired(es, now), es)
    ensures forall e :: multiset(Unexpired(es, now))[e] == if now < e.expiresAt then multiset(es)[e] else 0
    decreases |es|
  {
    if es != [] {
      var init, last := es[..|es| - 1], es[|es| - 1];
      UnexpiredExactly(init, now);
      Seqs.Grow(Unexpired(init, now), init, last);
      assert es == init + [last];
    }
  }

  lemma {:induction false} DropAt(q: seq<nat>, k: nat)
    requires Distinct(q) && k < |q|
    ensures Without(q, q[k]) == q[..k] + q[k + 1..]
    decreases |q|
  {
    if k == 0 {
      NothingToDrop(q[1..], q[0]);
    } else {
      DropAt(q[1..], k - 1);
      assert q[..k] + q[k + 1..] == [q[0]] + (q[1..][..k - 1] + q[1..][k..]);
    }
  }

  lemma {:induction false} NothingToDrop(q: seq<nat>, c: nat)
    requires c !in q
    ensures Without(q, c) == q
  {
    if q != [] { NothingToDrop(q[1..], c); }
  }
}
