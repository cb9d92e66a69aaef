/** What the requests of a pooled connection do to the database: a transaction's work is kept exactly when its COMMIT is
    reached and accepted with every statement before it, and it never shows otherwise. */
module SessionData {
  import opened SessionHygiene
  import Seqs

  /** The server's side of one session: what is committed, and what an open transaction has made of it. */
  datatype Data<Db> = Data(txn: Txn, durable: Db, work: Db)

  /** How a request ends; `effect` is what a statement that does not fail does to the database. */
  datatype Reply<!Db> = Reply(fails: bool, effect: Db -> Db)

  /** A COMMIT that fails, or that finds the transaction aborted, rolls back. */
  function Execute<Db>(d: Data<Db>, c: Cmd, r: Reply<Db>): Data<Db> {
    match c
    case Begin => if d.txn == NoTxn then Data(Open, d.durable, d.durable) else d
    case Commit => if d.txn == Open && !r.fails then Data(NoTxn, d.work, d.work) else d.(txn := NoTxn)
    case Rollback => d.(txn := NoTxn)
    case DiscardAll => if d.txn == NoTxn then d else d.(txn := Failed)
    case Statement =>
      if d.txn == Failed then d
      else if r.fails then (if d.txn == Open then d.(txn := Failed) else d)
      else if d.txn == Open then d.(work := r.effect(d.work))
      else d.(durable := r.effect(d.durable))
  }

  /** The server takes up the queued commands in order, as long as there are replies: then the connection is gone. */
  function Served<Db>(d: Data<Db>, queue: seq<Cmd>, replies: seq<Reply<Db>>): Data<Db>
    decreases |queue|
  {
    if queue == [] || replies == [] then d else Served(Execute(d, queue[0], replies[0]), queue[1..], replies[1..])
  }

  /** The transaction states are those the pool's sessions go through. */
  lemma ExecuteProcesses<Db>(d: Data<Db>, c: Cmd, r: Reply<Db>)
    ensures Execute(d, c, r).txn == Process(d.txn, c, r.fails)
  {
  }

  lemma {:induction false} ServedAppend<Db>(d: Data<Db>, a: seq<Cmd>, b: seq<Cmd>, replies: seq<Reply<Db>>)
    ensures Served(d, a + b, replies) ==
            if |replies| <= |a| then Served(d, a, replies) else Served(Served(d, a, replies), b, replies[|a|..])
    decreases |a|
  {
    if a == [] {
      assert a + b == b && replies[0..] == replies;
    } else if replies != [] {
      assert (a + b)[1..] == a[1..] + b;
      ServedAppend(Execute(d, a[0], replies[0]), a[1..], b, replies[1..]);
      if |replies| > |a| { assert replies[1..][|a[1..]|..] == replies[|a|..]; }
    }
  }

  /** A queue that leaves no transaction open does so for the data as well. */
  lemma {:induction false} ServedSettles<Db>(d: Data<Db>, queue: seq<Cmd>, replies: seq<Reply<Db>>)
    requires !OpenAfter(d.txn != NoTxn, queue) && |replies| >= |queue|
    ensures Served(d, queue, replies).txn == NoTxn
    decreases |queue|
  {
    if queue != [] { ServedSettles(Execute(d, queue[0], replies[0]), queue[1..], replies[1..]); }
  }

  // ----- one transaction -----

  function Statements(n: nat): (s: seq<Cmd>)
    ensures |s| == n
  {
    if n == 0 then [] else [Statement] + Statements(n - 1)
  }

  /** The statements' effects, one after the other. */
  function Effects<Db>(db: Db, replies: seq<Reply<Db>>): Db
    decreases |replies|
  {
    if replies == [] then db else Effects(replies[0].effect(db), replies[1..])
  }

  predicate NoneFails<Db>(replies: seq<Reply<Db>>) { forall i :: 0 <= i < |replies| ==> !replies[i].fails }

  /** How a transaction value ends, and what that puts into the queue. */
  datatype End = Committed | RolledBack | Dropped | Unqueued

  function Ending(e: End): seq<Cmd> {
    match e
    case Committed => [Commit]
    case RolledBack => [Rollback]
    case Dropped => [Rollback]
    case Unqueued => []       // dropped, and the channel had no room for a ROLLBACK
  }

  function TransactionCommands(n: nat, e: End): seq<Cmd> { [Cmd.Begin] + (Statements(n) + Ending(e)) }

  /** COMMIT was queued and reached, and neither it nor a statement failed. */
  predicate Accepted<Db>(n: nat, e: End, replies: seq<Reply<Db>>) {
    e == Committed && |replies| >= n + 2 && NoneFails(replies[1..n + 2])
  }

  lemma {:induction false} InsideTransaction<Db>(d: Data<Db>, n: nat, replies: seq<Reply<Db>>)
    requires d.txn != NoTxn
    ensures var d' := Served(d, Statements(n), replies);
            && d'.txn != NoTxn && d'.durable == d.durable
            && (|replies| >= n ==> (d'.txn == Open <==> d.txn == Open && NoneFails(replies[..n])))
            && (|replies| >= n && d'.txn == Open ==> d'.work == Effects(d.work, replies[..n]))
    decreases n
  {
    if n == 0 {
      assert replies[..0] == [];
    } else if replies != [] {
      InsideTransaction(Execute(d, Statement, replies[0]), n - 1, replies[1..]);
      if |replies| >= n {
        assert replies[..n] == [replies[0]] + replies[1..][..n - 1];
        FirstFails(replies[0], replies[1..][..n - 1]);
      }
    }
  }

  lemma FirstFails<Db>(r: Reply<Db>, more: seq<Reply<Db>>)
    ensures NoneFails([r] + more) <==> !r.fails && NoneFails(more)
  {
    var all := [r] + more;
    assert all[0] == r && forall i :: 0 <= i < |more| ==> all[i + 1] == more[i];
  }

  lemma LastFails<Db>(more: seq<Reply<Db>>, r: Reply<Db>)
    ensures NoneFails(more + [r]) <==> NoneFails(more) && !r.fails
  {
    var all := more + [r];
    assert all[|more|] == r && forall i :: 0 <= i < |more| ==> all[i] == more[i];
  }

  /** The transaction on its own, begun with no other open. */
  lemma AloneIsAtomic<Db>(d: Data<Db>, n: nat, e: End, replies: seq<Reply<Db>>)
    requires d.txn == NoTxn
    ensures Served(d, TransactionCommands(n, e), replies).durable ==
            if Accepted(n, e, replies) then Effects(d.durable, replies[1..n + 1]) else d.durable
  {
    hide NoneFails, Effects;
    if replies != [] {
      var open := Execute(d, Cmd.Begin, replies[0]);
      var later := replies[1..];
      assert TransactionCommands(n, e)[1..] == Statements(n) + Ending(e);
      assert Served(d, TransactionCommands(n, e), replies) == Served(open, Statements(n) + Ending(e), later);
      BegunIsAtomic(open, n, e, later);
      if |later| > n {
        assert later[..n] == replies[1..n + 1];
        assert replies[1..n + 2] == later[..n] + [later[n]];
        LastFails(later[..n], later[n]);
      }
    }
  }

  lemma BegunIsAtomic<Db>(d: Data<Db>, n: nat, e: End, replies: seq<Reply<Db>>)
    requires d.txn == Open && d.work == d.durable
    ensures Served(d, Statements(n) + Ending(e), replies).durable ==
            if e == Committed && |replies| > n && NoneFails(replies[..n]) && !replies[n].fails
            then Effects(d.durable, replies[..n]) else d.durable
  {
    hide Execute, NoneFails, Effects, Served, Statements;
    ServedAppend(d, Statements(n), Ending(e), replies);
    InsideTransaction(d, n, replies);
    if |replies| > n {
      var inside := Served(d, Statements(n), replies);
      EndOfTransaction(inside, e, replies[n..]);
    }
  }

  lemma EndOfTransaction<Db>(d: Data<Db>, e: End, replies: seq<Reply<Db>>)
    requires d.txn != NoTxn && replies != []
    ensures Served(d, Ending(e), replies).durable ==
            if e == Committed && d.txn == Open && !replies[0].fails then d.work else d.durable
  {
    if e != Unqueued { assert Ending(e)[1..] == []; }
  }

  /** Main result: behind a queue that leaves no transaction open, and however far the server gets before the connection
      is gone, the committed database has the whole work of the transaction if COMMIT was queued and reached, and
      neither it nor a statement failed; in every other case it has nothing of it. */
  lemma WorkIsKeptOrGone<Db>(d: Data<Db>, queue: seq<Cmd>, n: nat, e: End, replies: seq<Reply<Db>>)
    requires !OpenAfter(d.txn != NoTxn, queue)
    ensures var before := Served(d, queue, replies).durable;
            var own := if |replies| > |queue| then replies[|queue|..] else [];
            Served(d, queue + TransactionCommands(n, e), replies).durable ==
            if Accepted(n, e, own) then Effects(before, own[1..n + 1]) else before
  {
    hide Execute, NoneFails, Effects, TransactionCommands, OpenAfter;
    ServedAppend(d, queue, TransactionCommands(n, e), replies);
    if |replies| > |queue| {
      ServedSettles(d, queue, replies);
      AloneIsAtomic(Served(d, queue, replies), n, e, replies[|queue|..]);
    }
  }

  // ----- the same, from the events of a session -----

  function Queried(x: Session, n: nat): (y: Session)
    ensures y.handles == x.handles
    decreases n
  {
    if n == 0 then x else Queried(Happen(x, Query), n - 1)
  }

  function EventOf(e: End): Event {
    match e
    case Committed => Finish(true)
    case RolledBack => Finish(false)
    case Dropped => DropTransaction(true)
    case Unqueued => DropTransaction(false)
  }

  lemma {:induction false} QueriedQueue(x: Session, n: nat)
    requires x.up
    ensures Queried(x, n) == x.(queue := x.queue + Statements(n))
    decreases n
  {
    if n == 0 {
      assert x.queue + [] == x.queue;
    } else {
      QueriedQueue(Happen(x, Query), n - 1);
      Seqs.Assoc(x.queue, [Statement], Statements(n - 1));
    }
  }

  /** Beginning, querying and ending a transaction queues exactly its commands: COMMIT for a commit, ROLLBACK for a
      rollback or a drop. */
  lemma EventsQueue(x: Session, n: nat, e: End)
    requires x.up && x.alive
    ensures var y := Happen(Queried(Happen(x, StartBegin), n), EventOf(e));
            && y.queue == x.queue + TransactionCommands(n, e)
            && y.handles == x.handles && y.broken == (x.broken || e == Unqueued)
  {
    var b := Happen(x, StartBegin);
    QueriedQueue(b, n);
    Seqs.Assoc(x.queue, [Cmd.Begin], Statements(n));
    Seqs.Assoc(x.queue, [Cmd.Begin] + Statements(n), Ending(e));
    Seqs.Assoc([Cmd.Begin], Statements(n), Ending(e));
    var y := Happen(Queried(b, n), EventOf(e));
    assert y.queue == x.queue + [Cmd.Begin] + Statements(n) + Ending(e) by {
      if e == Unqueued { assert x.queue + [Cmd.Begin] + Statements(n) + [] == x.queue + [Cmd.Begin] + Statements(n); }
    }
  }
}
