/** Whole transactions: BEGIN, a body, COMMIT or ROLLBACK, with a COMMIT that may be refused or lose its answer.
    On a pooled transaction handle the body may nest `atomic` blocks; on a plain client it may not. */
module Transactions {
  import opened Wrappers
  import opened Savepoints

  /** What happens to a request that the client does not learn about: whether it ran although its answer was lost, and,
      for a COMMIT, whether the server refused it, which the drained reply does not tell. */
  datatype Fate = Fate(ran: bool, refused: bool)

  /** What a transaction comes to whose body ended as `q`: the database, and whether the caller gets Ok. */
  function Outcome<Db>(base: Db, q: Plain<Db>, bodyOk: bool, f: Fate): (Db, bool) {
    if !bodyOk then (base, false) else (if Accepted(q, f) then q.db else base, q.left > 1)
  }

  /** COMMIT reached the server and took effect. */
  predicate Accepted<Db>(q: Plain<Db>, f: Fate) {
    !q.failed && !f.refused && (q.left > 1 || (q.left == 1 && f.ran))
  }

  // ----- on a pooled transaction handle -----

  /** `begin`, a body on the handle, then `commit` on Ok, or else a rollback: explicit, by dropping the handle, or by
      the server when it loses the connection. */
  function Transact<Db>(b: Body<Db>, base: Db, counter: nat, left: nat, f: Fate): (Db, bool) {
    if left <= 1 then (base, false) else
      var (s, ok) := Exec(b, Session(Txn(base, [], false), counter, left - 1));
      if !ok || s.left == 0 then (base, false)
      else
        var committed := if s.txn.failed || f.refused then base else s.txn.db;
        if s.left == 1 then (if f.ran then committed else base, false) else (committed, true)
  }

  /** Main result: the transaction comes to what the savepoint-free meaning of its body says, and nothing in between. */
  lemma TransactionOutcome<Db>(b: Body<Db>, base: Db, counter: nat, left: nat, f: Fate)
    ensures Transact(b, base, counter, left, f) ==
              if left <= 1 then (base, false)
              else var (q, bodyOk) := Spec(b, Plain(base, false, left - 1)); Outcome(base, q, bodyOk, f)
  {
    if left > 1 {
      ExecRefines(b, Session(Txn(base, [], false), counter, left - 1));
    }
  }

  /** All or nothing.  Err leaves the database alone unless the COMMIT took effect and only its answer was lost.
      Ok means the body's effects exactly when the COMMIT was not refused, be it for the transaction's having been
      aborted, which a body that propagates its errors rules out. */
  lemma TransactionIsAtomic<Db>(b: Body<Db>, base: Db, counter: nat, left: nat, f: Fate)
    requires left > 1
    ensures var (db, ok) := Transact(b, base, counter, left, f);
            var (q, bodyOk) := Spec(b, Plain(base, false, left - 1));
            && (db == base || db == q.db)
            && (!ok ==> (db == base <==> q.db == base || !(bodyOk && q.left == 1 && Accepted(q, f))))
            && (ok ==> (db == q.db <==> q.db == base || !(f.refused || q.failed)))
            && (ok && Propagates(b) ==> !q.failed)
  {
    TransactionOutcome(b, base, counter, left, f);
    if Propagates(b) { PropagatingBodies(b, Plain(base, false, left - 1)); }
  }

  const INCREMENT: Body<int> := Query((db: int) => Some((db + 1, 0)), [], Return(true), Return(false))

  lemma IncrementSpec(base: int, left: nat)
    requires left > 1
    ensures Spec(INCREMENT, Plain(base, false, left)) == (Plain(base + 1, false, left - 1), true)
  {
    assert SpecStatement(INCREMENT.run, Plain(base, false, left)) == (Plain(base + 1, false, left - 1), Some(0));
  }

  /** The connection is lost during COMMIT: the caller gets Err, and the database has changed. */
  lemma LostAnswerIsErr(counter: nat)
    ensures Transact(INCREMENT, 0, counter, 3, Fate(true, false)) == (1, false)
  {
    TransactionOutcome(INCREMENT, 0, counter, 3, Fate(true, false));
    IncrementSpec(0, 2);
  }

  /** COMMIT is refused, say by a deferred constraint: the caller gets Ok, and the database has not changed. */
  lemma RefusedCommitIsOk(counter: nat)
    ensures Transact(INCREMENT, 0, counter, 4, Fate(false, true)) == (0, true)
  {
    TransactionOutcome(INCREMENT, 0, counter, 4, Fate(false, true));
    IncrementSpec(0, 3);
  }

  /** A body that ignores the failure of a statement: the caller gets Ok, and nothing of what it did is kept. */
  lemma SwallowedErrorIsOk(counter: nat)
    ensures var b: Body<int> := Query((db: int) => Some((db + 1, 0)), [],
                                      Query((db: int) => None, [], Return(true), Return(true)), Return(false));
            Transact(b, 0, counter, 10, Fate(false, false)) == (0, true)
  {
    var fails: Body<int> := Query((db: int) => None, [], Return(true), Return(true));
    var b: Body<int> := Query((db: int) => Some((db + 1, 0)), [], fails, Return(false));
    TransactionOutcome(b, 0, counter, 10, Fate(false, false));
    assert SpecStatement(b.run, Plain(0, false, 9)) == (Plain(1, false, 8), Some(0));
    assert SpecStatement(fails.run, Plain(1, false, 8)) == (Plain(1, true, 7), None);
    assert Spec(fails, Plain(1, false, 8)) == (Plain(1, true, 7), true);
  }

  // ----- on a plain client -----

  /** The session as a plain client drives it: statements commit by themselves, or run in the one open block. */
  datatype World<Db> = Auto(db: Db) | InBlock(durable: Db, work: Db, failed: bool)

  function Durable<Db>(w: World<Db>): Db { if w.Auto? then w.db else w.durable }

  /** BEGIN inside a block is only warned about. */
  function OpenBlock<Db>(w: World<Db>): World<Db> { if w.Auto? then InBlock(w.db, w.db, false) else w }

  /** COMMIT or ROLLBACK; outside a block only warned about. */
  function CloseBlock<Db>(w: World<Db>, commit: bool, f: Fate): World<Db> {
    if w.Auto? then w else Auto(if commit && !w.failed && !f.refused then w.work else w.durable)
  }

  function RunStatement<Db>(w: World<Db>, run: Db -> Option<(Db, nat)>): (World<Db>, Option<nat>) {
    match w
    case Auto(db) => (
      match run(db)
      case Some((db', k)) => (Auto(db'), Some(k))
      case None => (w, None)
    )
    case InBlock(durable, work, failed) =>
      if failed then (w, None)
      else match run(work)
           case Some((work', k)) => (InBlock(durable, work', false), Some(k))
           case None => (InBlock(durable, work, true), None)
  }

  /** `left` as for a session; `fates(left)` is the fate of the request sent when `left` is left. */
  datatype Client<Db> = Client(world: World<Db>, left: nat)

  /** A request that makes `w` of the session if it runs. */
  function Send<Db>(c: Client<Db>, w: World<Db>, f: Fate): (Client<Db>, bool) {
    if c.left == 0 then (c, false)
    else if c.left == 1 then (Client(if f.ran then w else c.world, 0), false)
    else (Client(w, c.left - 1), true)
  }

  /** `atomic` on a plain client, and `with_transaction`. */
  function ClientBlock<Db>(inner: Body<Db>, c: Client<Db>, fates: nat -> Fate): (Client<Db>, bool)
    decreases inner, 1
  {
    var (c1, begun) := Send(c, OpenBlock(c.world), fates(c.left));
    if !begun then (c1, false) else
      var (c2, ok) := ClientExec(inner, c1, fates);
      var (c3, up) := Send(c2, CloseBlock(c2.world, ok, fates(c2.left)), fates(c2.left));
      (c3, ok && up)
  }

  function ClientExec<Db>(b: Body<Db>, c: Client<Db>, fates: nat -> Fate): (Client<Db>, bool)
    decreases b, 0
  {
    match b
    case Return(ok) => (c, ok)
    case Query(run, _, _, _) =>
      var (w, r) := RunStatement(c.world, run);
      var (c1, up) := Send(c, w, fates(c.left));
      ClientExec(After(b, if up then r else None), c1, fates)
    case Atomic(_, inner, onOk, onErr) =>
      var (c1, ok) := ClientBlock(inner, c, fates);
      ClientExec(if ok then onOk else onErr, c1, fates)
  }

  /** The connection is gone or not: what the database holds once the session is over. */
  function WithTransaction<Db>(b: Body<Db>, base: Db, left: nat, fates: nat -> Fate): (Db, bool) {
    var (c, ok) := ClientBlock(b, Client(Auto(base), left), fates);
    (Durable(c.world), ok)
  }

  predicate BlockFree<Db>(b: Body<Db>) {
    match b
    case Return(_) => true
    case Query(_, rows, onOk, onErr) =>
      (forall i :: 0 <= i < |rows| ==> BlockFree(rows[i])) && BlockFree(onOk) && BlockFree(onErr)
    case Atomic(_, _, _, _) => false
  }

  /** A body without blocks stays inside the client's one block, and does there what it means. */
  lemma {:induction false} ClientBody<Db>(b: Body<Db>, c: Client<Db>, fates: nat -> Fate)
    requires BlockFree(b) && c.world.InBlock?
    ensures var (d, ok) := ClientExec(b, c, fates);
            var (q, specOk) := Spec(b, Plain(c.world.work, c.world.failed, c.left));
            && ok == specOk && d.left == q.left && d.world.InBlock? && d.world.durable == c.world.durable
            && (d.left > 0 ==> d.world.work == q.db && d.world.failed == q.failed)
    decreases b
  {
    if b.Query? {
      var (w, r) := RunStatement(c.world, b.run);
      var (c1, up) := Send(c, w, fates(c.left));
      var next := After(b, if up then r else None);
      ClientBody(next, c1, fates);
      if c1.left == 0 {
        LostClient(next, c1, fates);
        var p := Plain(c.world.work, c.world.failed, c.left);
        LostSpec(next, c1.world.work, c1.world.failed, SpecStatement(b.run, p).0);
      }
    }
  }

  /** Once the connection is lost, what a body returns no longer depends on the database. */
  lemma {:induction false} LostSpec<Db>(b: Body<Db>, db: Db, failed: bool, p: Plain<Db>)
    requires p.left == 0
    ensures Spec(b, p).1 == Spec(b, Plain(db, failed, 0)).1 && Spec(b, p).0.left == 0
    decreases b
  {
    match b {
      case Return(_) =>
      case Query(run, _, _, onErr) => LostSpec(onErr, db, failed, p);
      case Atomic(_, inner, onOk, onErr) => LostSpec(onErr, db, failed, p);
    }
  }

  lemma {:induction false} LostClient<Db>(b: Body<Db>, c: Client<Db>, fates: nat -> Fate)
    requires c.left == 0
    ensures ClientExec(b, c, fates).0 == c
    decreases b
  {
    match b {
      case Return(_) =>
      case Query(run, _, _, onErr) => LostClient(onErr, c, fates);
      case Atomic(_, inner, onOk, onErr) => LostClient(onErr, c, fates);
    }
  }

  /** Without nested blocks, `with_transaction` comes to the same as a transaction on a handle. */
  lemma WithTransactionOutcome<Db>(b: Body<Db>, base: Db, counter: nat, left: nat, fates: nat -> Fate)
    requires BlockFree(b)
    ensures var q := Spec(b, Plain(base, false, if left > 1 then left - 1 else 0)).0;
            WithTransaction(b, base, left, fates) == Transact(b, base, counter, left, fates(q.left))
  {
    if left > 1 {
      var c := Client(InBlock(base, base, false), left - 1);
      ClientBody(b, c, fates);
      TransactionOutcome(b, base, counter, left, fates(Spec(b, Plain(base, false, left - 1)).0.left));
    }
  }

  function Undisturbed(left: nat): Fate { Fate(false, false) }

  /** With a nested block it does not: the inner COMMIT ends the outer transaction, so an Err of the outer closure
      leaves in the database the inner block's effect, and that of a statement behind it, which commits by itself;
      although no answer was lost and nothing refused. */
  lemma NestedBlockEscapes(bump: nat)
    ensures var b: Body<int> := Atomic(bump, INCREMENT, DOUBLE, Return(false));
            WithTransaction(b, 3, 10, Undisturbed) == (8, false)
                && Transact(b, 3, 0, 10, Fate(false, false)) == (3, false)
  {
    var b: Body<int> := Atomic(bump, INCREMENT, DOUBLE, Return(false));
    var c := Client(InBlock(3, 3, false), 8);
    assert RunStatement(c.world, INCREMENT.run) == (InBlock(3, 4, false), Some(0));
    assert ClientExec(INCREMENT, c, Undisturbed) == (Client(InBlock(3, 4, false), 7), true);
    assert ClientBlock(INCREMENT, Client(InBlock(3, 3, false), 9), Undisturbed) == (Client(Auto(4), 6), true);
    assert RunStatement(Auto(4), DOUBLE.run) == (Auto(8), Some(0));
    assert ClientExec(DOUBLE, Client(Auto(4), 6), Undisturbed) == (Client(Auto(8), 5), false);
    assert ClientExec(b, Client(InBlock(3, 3, false), 9), Undisturbed) == (Client(Auto(8), 5), false);
    TransactionOutcome(b, 3, 0, 10, Fate(false, false));
    DoubleErrs(SpecBlock(INCREMENT, Plain(3, false, 9)).0);
  }

  /** A statement, and then Err. */
  const DOUBLE: Body<int> := Query((db: int) => Some((2 * db, 0)), [], Return(false), Return(false))

  lemma DoubleErrs(p: Plain<int>)
    ensures !Spec(DOUBLE, p).1
  {
    NeverOkErrs(DOUBLE, p);
  }
}
