/** A pooled connection's client code: transactions, what dropping one does, and the reset on return.  Every method
    carries out events of the `SessionHygiene` machine. */
module PooledSession {
  import opened SessionHygiene
  import opened SessionData
  import Seqs
  import StatementCache

  /** The outcome of the queue does not depend on how far the server is with it. */
  lemma ServeKeepsOutcome(t: Txn, queue: seq<Cmd>, fails: bool)
    requires queue != []
    ensures OpenAfter(Process(t, queue[0], fails) != NoTxn, queue[1..]) == OpenAfter(t != NoTxn, queue)
  {
  }

  lemma NothingQueued(open: bool)
    ensures OpenAfter(open, []) == open
  {
  }

  lemma ServedNext<Db>(d: Data<Db>, queue: seq<Cmd>, replies: seq<Reply<Db>>)
    requires queue != [] && replies != []
    ensures Served(d, queue, replies) == Served(Execute(d, queue[0], replies[0]), queue[1..], replies[1..])
  {
  }

  lemma ServedAll<Db>(d: Data<Db>, queue: seq<Cmd>, replies: seq<Reply<Db>>)
    requires queue == [] || replies == []
    ensures Served(d, queue, replies) == d
  {
  }

  /** A connection as the pool sees it, with the requests under way and the server's transaction state behind it. */
  class Wire<Db> {
    var queue: seq<Cmd>
    var txn: Txn
    var durable: Db     // the server's committed database, and what an open transaction has made of it
    var work: Db
    var up: bool
    var hears: bool
    var alive: bool
    var broken: bool
    var mutated: bool
    const statements: StatementCache.Statements
    ghost var discarding: bool
    ghost var handles: nat
    ghost var ahead: nat
    ghost var served: bool

    constructor (db: Db)
      ensures View() == FRESH && Database() == Data(NoTxn, db, db) && fresh(statements) && statements.cache == map[]
    {
      queue, txn, up, hears, alive, broken, mutated := [], NoTxn, true, true, true, false, false;
      durable, work := db, db;
      discarding, handles, ahead, served := false, 0, 0, false;
      statements := new StatementCache.Statements();
    }

    ghost function View(): Session
      reads this
    {
      Session(txn, queue, up, hears, alive, broken, mutated, discarding, handles, ahead, served)
    }

    ghost function Database(): Data<Db>
      reads this
    {
      Data(txn, durable, work)
    }

    /** `has_pending_data`. */
    method HasPendingData() returns (unusable: bool)
      ensures unusable == (!alive || broken) == Unhealthy(View())
    {
      unusable := !alive || broken;
    }

    /** `submit`: accepted as long as the writer task runs. */
    method Submit(c: Cmd) returns (accepted: bool)
      modifies this`queue
      ensures View() == Enqueue(old(View()), c) && accepted == up
      ensures queue == old(queue) + (if up then [c] else [])
    {
      accepted := up;
      if accepted { queue := queue + [c]; }
    }

    /** The pooled client's `simple_query`: the session counts as changed before anything is sent. */
    method SimpleQuery(c: Cmd) returns (accepted: bool)
      modifies this`queue, this`mutated
      ensures View() == Enqueue(old(View()).(mutated := true), c) && accepted == up && mutated
      ensures queue == old(queue) + (if up then [c] else [])
    {
      mutated := true;
      accepted := Submit(c);
    }

    /** `enqueue_rollback`; `room` says whether the request channel has a free slot. */
    method EnqueueRollback(room: bool) returns (queued: bool)
      modifies this`queue
      ensures queued == (alive && up && room)
      ensures View() == if queued then Enqueue(old(View()), Rollback) else old(View())
    {
      if !alive { return false; }
      queued := up && room;
      if queued { queue := queue + [Rollback]; }
    }

    /** The server takes up the next request, which comes to `r`. */
    method Serve(r: Reply<Db>)
      requires queue != []
      modifies this`txn, this`durable, this`work, this`queue, this`ahead, this`served
      ensures View() == Happen(old(View()), ServerStep(r.fails))
      ensures Database() == Execute(old(Database()), old(queue)[0], r)
      ensures txn == Process(old(txn), old(queue)[0], r.fails) && queue == old(queue)[1..]
    {
      hide Process, Execute;
      ExecuteProcesses(Data(txn, durable, work), queue[0], r);
      var d := Execute(Data(txn, durable, work), queue[0], r);
      txn, durable, work, queue := d.txn, d.durable, d.work, queue[1..];
      served := served || ahead == 0;
      ahead := if ahead > 0 then ahead - 1 else 0;
    }

    /** The server takes up what is queued, as long as there are replies. */
    method ServeAll(replies: seq<Reply<Db>>)
      modifies this`queue, this`txn, this`durable, this`work, this`ahead, this`served
      ensures Database() == Served(old(Database()), old(queue), replies)
      ensures queue == if |replies| < |old(queue)| then old(queue)[|replies|..] else []
      ensures OpenAfter(txn != NoTxn, queue) == OpenAfter(old(txn) != NoTxn, old(queue))
    {
      hide Process, OpenAfter, Happen, Execute, Served;
      var i := 0;
      assert replies[0..] == replies;
      while queue != [] && i < |replies|
        invariant i <= |replies| && i <= |old(queue)| && queue == old(queue)[i..]
        invariant Served(Database(), queue, replies[i..]) == Served(old(Database()), old(queue), replies)
        invariant OpenAfter(txn != NoTxn, queue) == OpenAfter(old(txn) != NoTxn, old(queue))
        decreases |queue|
      {
        ServeKeepsOutcome(txn, queue, replies[i].fails);
        ServedNext(Database(), queue, replies[i..]);
        Serve(replies[i]);
        i := i + 1;
      }
      ServedAll(Database(), queue, replies[i..]);
    }

    /** `reset`; `replies[i]` says what the i-th request the server still takes up comes to, and no further answers
        arrive if it takes up fewer than are queued. */
    method Reset(replies: seq<Reply<Db>>) returns (ok: bool)
      requires !discarding
      modifies this`queue, this`txn, this`durable, this`work, this`hears, this`mutated, this`discarding, this`ahead,
          this`served, statements`cache
      ensures !old(alive) ==> !ok && View() == old(View())
      ensures old(alive) && !old(mutated) ==> ok && View() == old(View())
      ensures old(alive && mutated) ==> ok == (old(up) && old(hears) && |replies| > |old(queue)|)
      ensures old(alive && mutated) && ok ==> !mutated && queue == [] && up && statements.cache == map[]
      ensures old(alive && mutated && up && hears) ==>
          Database() == Served(old(Database()), old(queue) + [DiscardAll], replies)
      ensures !old(alive && mutated && up && hears) ==> Database() == old(Database())
      ensures ok && SessionHygiene.Settled(old(View())) ==> SessionHygiene.Settled(View())
      ensures ok && old(mutated) && SessionHygiene.Settled(old(View())) ==> txn == NoTxn
      ensures !ok ==> statements.cache == old(statements.cache)
      ensures broken == old(broken) && alive == old(alive)
    {
      hide Process, OpenAfter, Happen, Execute, Served, Enqueue;
      if !alive { return false; }
      if !mutated { return true; }
      mutated, discarding := false, true;
      OpenAfterThen(txn != NoTxn, queue, DiscardAll);
      var accepted := Submit(DiscardAll);
      if !accepted || !hears {
        discarding := false;
        return false;
      }
      ServeAll(replies);
      NothingQueued(txn != NoTxn);
      discarding := false;
      if queue != [] {
        hears := false;
        return false;
      }
      statements.ClearStatementCache();
      ok := true;
    }
  }

  /** `PooledTransaction` and `Transaction`: a handle that finishes, or is dropped. */
  class Transaction<Db> {
    const wire: Wire<Db>
    var done: bool

    /** The handle `begin` returns once BEGIN has been answered. */
    constructor (wire: Wire<Db>)
      ensures this.wire == wire && !done
    {
      this.wire, done := wire, false;
    }

    /** The statements of the transaction. */
    method Statements(n: nat)
      requires !done && wire.handles > 0 && wire.up
      modifies wire`queue
      ensures wire.queue == old(wire.queue) + SessionData.Statements(n)
      ensures wire.View() == old(wire.View()).(queue := wire.queue)
    {
      var i := 0;
      assert wire.queue + SessionData.Statements(0) == wire.queue;
      while i < n
        invariant i <= n && wire.queue == old(wire.queue) + SessionData.Statements(i)
      {
        Statement();
        OneMoreStatement(i);
        Seqs.Assoc(old(wire.queue), SessionData.Statements(i), [Cmd.Statement]);
        i := i + 1;
      }
    }

    /** One statement of the transaction. */
    method Statement()
      requires !done && wire.handles > 0
      modifies wire`queue
      ensures wire.View() == Happen(old(wire.View()), Query)
      ensures wire.queue == old(wire.queue) + (if wire.up then [Cmd.Statement] else [])
    {
      var _ := wire.Submit(Cmd.Statement);
    }

    /** `commit` and `rollback`. */
    method Finish(commit: bool) returns (accepted: bool)
      requires !done && wire.handles > 0
      modifies this`done, wire`queue, wire`mutated, wire`handles
      ensures done && wire.View() == Happen(old(wire.View()), SessionHygiene.Finish(commit)) && accepted == wire.up
      ensures wire.queue == old(wire.queue) + (if wire.up then [if commit then Commit else Rollback] else [])
    {
      hide Enqueue;
      done := true;
      accepted := wire.SimpleQuery(if commit then Commit else Rollback);
      wire.handles := wire.handles - 1;
    }

    /** `drop`: nothing for a finished transaction or a dead connection; otherwise a ROLLBACK is queued, or, if it
        cannot be, the connection is declared broken. */
    method Drop(room: bool)
      requires !done ==> wire.handles > 0
      modifies wire`queue, wire`broken, wire`handles
      ensures done ==> wire.View() == old(wire.View())
      ensures !done ==> wire.View() == Happen(old(wire.View()), DropTransaction(wire.alive && wire.up && room))
      ensures wire.queue == old(wire.queue) + (if !done && wire.alive && wire.up && room then [Rollback] else [])
      ensures wire.broken == (old(wire.broken) || (!done && wire.alive && !(wire.up && room)))
    {
      if !done && wire.alive {
        var queued := wire.EnqueueRollback(room);
        if !queued { wire.broken := true; }
      }
      if !done { wire.handles := wire.handles - 1; }
    }
  }

  lemma Began(x: Session)
    ensures Happen(x, StartBegin) == Enqueue(x.(mutated := true), Cmd.Begin).(handles := x.handles + 1)
    ensures x.up ==>
      Happen(x, StartBegin) == x.(mutated := true, queue := x.queue + [Cmd.Begin], handles := x.handles + 1)
  {
  }

  lemma NotBegun(x: Session, lost: bool)
    ensures var y := Enqueue(x.(mutated := true), Cmd.Begin);
            Happen(Happen(if lost then Happen(x, ReadingEnds) else x, StartBegin), BeginFails)
              == if lost then y.(hears := false) else y
  {
  }

  lemma Ended(x: Session, e: End)
    requires x.up && x.alive && x.handles > 0
    ensures Happen(x, EventOf(e)) == x.(queue := x.queue + Ending(e), handles := x.handles - 1,
        mutated := x.mutated || e == Committed || e == RolledBack, broken := x.broken || e == Unqueued)
  {
    assert x.queue + [] == x.queue;
  }

  /** `begin` and `begin_with`: a transaction, unless BEGIN could not be sent or its answer is `lost` with the
      connection. */
  method Begin<Db>(wire: Wire<Db>, lost: bool) returns (t: Transaction?<Db>)
    modifies wire`queue, wire`mutated, wire`hears, wire`handles
    ensures (t == null) == (lost || !wire.up)
    ensures t != null ==> fresh(t) && t.wire == wire && !t.done && wire.View() == Happen(old(wire.View()), StartBegin)
    ensures wire.queue == old(wire.queue) + (if wire.up then [Cmd.Begin] else [])
    ensures t == null ==>
      wire.View() ==
        Happen(Happen(if lost then Happen(old(wire.View()), ReadingEnds) else old(wire.View()), StartBegin), BeginFails)
  {
    hide Enqueue, Happen;
    Began(wire.View());
    NotBegun(wire.View(), lost);
    var accepted := wire.SimpleQuery(Cmd.Begin);
    if lost { wire.hears := false; }
    if !accepted || lost { return null; }
    wire.handles := wire.handles + 1;
    t := new Transaction(wire);
  }

  lemma QueueThrough(open: bool, queue: seq<Cmd>, n: nat, e: End)
    requires !OpenAfter(open, queue) && e != Unqueued
    ensures !OpenAfter(open, queue + TransactionCommands(n, e))
  {
    OpenAfterThen(open, queue, Cmd.Begin);
    StatementsKeepOpen(open, queue + [Cmd.Begin], n);
    OpenAfterThen(open, queue + [Cmd.Begin] + Statements(n), Ending(e)[0]);
    Seqs.Assoc(queue, [Cmd.Begin], Statements(n));
    Seqs.Assoc(queue, [Cmd.Begin] + Statements(n), Ending(e));
    Seqs.Assoc([Cmd.Begin], Statements(n), Ending(e));
  }

  lemma {:induction false} StatementsKeepOpen(open: bool, queue: seq<Cmd>, n: nat)
    ensures OpenAfter(open, queue + Statements(n)) == OpenAfter(open, queue)
    decreases n
  {
    if n == 0 {
      assert queue + [] == queue;
    } else {
      OpenAfterThen(open, queue, Cmd.Statement);
      StatementsKeepOpen(open, queue + [Cmd.Statement], n - 1);
      Seqs.Assoc(queue, [Cmd.Statement], Statements(n - 1));
    }
  }

  /** DISCARD ALL leaves the committed database alone. */
  lemma DiscardKeepsData<Db>(d: Data<Db>, queue: seq<Cmd>, replies: seq<Reply<Db>>)
    ensures Served(d, queue + [DiscardAll], replies).durable == Served(d, queue, replies).durable
  {
    ServedAppend(d, queue, [DiscardAll], replies);
  }

  function EndOf(finish: bool, commit: bool, room: bool): End {
    if finish then (if commit then Committed else RolledBack) else if room then Dropped else Unqueued
  }

  lemma {:induction false} OneMoreStatement(n: nat)
    ensures Statements(n) + [Cmd.Statement] == Statements(n + 1)
  {
    if n > 0 { OneMoreStatement(n - 1); }
  }

  /** A transaction from BEGIN to its end. */
  method Use<Db>(wire: Wire<Db>, statements: nat, finish: bool, commit: bool, room: bool)
    requires wire.handles == 0 && wire.up && wire.hears && wire.alive
    modifies wire
    ensures wire.queue == old(wire.queue) + TransactionCommands(statements, EndOf(finish, commit, room))
    ensures wire.View() == old(wire.View()).(queue := wire.queue, mutated := true,
        broken := old(wire.broken) || (!finish && !room))
    ensures wire.Database() == old(wire.Database()) && wire.statements.cache == old(wire.statements.cache)
  {
    hide Execute, Happen, Enqueue;
    ghost var q, e := wire.queue, EndOf(finish, commit, room);
    Began(wire.View());
    var t := Begin(wire, false);
    t.Statements(statements);
    Ended(wire.View(), e);
    Seqs.Assoc(q, [Cmd.Begin], Statements(statements));
    Seqs.Assoc(q, [Cmd.Begin] + Statements(statements), Ending(e));
    Seqs.Assoc([Cmd.Begin], Statements(statements), Ending(e));
    if finish {
      var accepted := t.Finish(commit);
    }
    t.Drop(room);
  }

  /** Whatever becomes of a transaction, its connection is either left settled or not used again, and its work is in the
      committed database as a whole or not at all. */
  method UseAndReturn<Db>(wire: Wire<Db>, statements: nat, finish: bool, commit: bool, room: bool,
      replies: seq<Reply<Db>>) returns (reusable: bool)
    requires SessionHygiene.Settled(wire.View()) && wire.handles == 0 && !wire.broken && wire.up && wire.hears
        && wire.alive && !wire.discarding
    modifies wire, wire.statements`cache
    ensures reusable ==> wire.txn == NoTxn && wire.queue == [] && !wire.broken && wire.statements.cache == map[]
    ensures !finish && !room ==> !reusable && wire.broken && wire.Database() == old(wire.Database())
    ensures |replies| > |old(wire.queue)| + statements + 2 && (finish || room) ==> reusable
    ensures finish || room ==>
      var before := Served(old(wire.Database()), old(wire.queue), replies).durable;
      var own := if |replies| > |old(wire.queue)| then replies[|old(wire.queue)|..] else [];
      wire.durable == if Accepted(statements, EndOf(finish, commit, room), own)
          then Effects(before, own[1..statements + 1]) else before
  {
    var e := EndOf(finish, commit, room);
    if e != Unqueued {
      QueueThrough(wire.txn != NoTxn, wire.queue, statements, e);
      DiscardKeepsData(wire.Database(), wire.queue + TransactionCommands(statements, e), replies);
      WorkIsKeptOrGone(wire.Database(), wire.queue, statements, e, replies);
    }
    Use(wire, statements, finish, commit, room);
    var unusable := wire.HasPendingData();
    if unusable { return false; }
    reusable := wire.Reset(replies);
  }
}
