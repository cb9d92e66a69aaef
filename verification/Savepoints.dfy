/** Nested `atomic` blocks on a transaction handle: compiled to SAVEPOINT, RELEASE and ROLLBACK TO, they are
    all-or-nothing.  The database is an arbitrary type; a statement is an arbitrary partial function on it. */
module Savepoints {
  import opened Wrappers
  import Decimal

  // ----- the server's transaction block -----

  datatype Savepoint<Db> = Savepoint(name: string, saved: Db)

  /** `failed` is the aborted state in which only ROLLBACK and ROLLBACK TO are accepted. */
  datatype Txn<Db> = Txn(db: Db, stack: seq<Savepoint<Db>>, failed: bool)

  datatype Command<!Db> =
    | Define(name: string)
    | Release(name: string)
    | RollbackTo(name: string)
    | Statement(run: Db -> Option<(Db, nat)>)    // what it makes of the database, and which result it returns

  /** The most recent savepoint called `name`, or -1. */
  function Latest<Db>(stack: seq<Savepoint<Db>>, name: string): (k: int)
    ensures -1 <= k < |stack|
    ensures k >= 0 ==> stack[k].name == name
    ensures forall j :: k < j < |stack| ==> stack[j].name != name
  {
    if stack == [] then -1
    else if stack[|stack| - 1].name == name then |stack| - 1
    else Latest(stack[..|stack| - 1], name)
  }

  /** What the server does with one command, and whether it reports success. */
  function Serve<Db>(t: Txn<Db>, c: Command<Db>): (Txn<Db>, bool) {
    match c
    case Define(name) =>
      if t.failed then (t, false) else (t.(stack := t.stack + [Savepoint(name, t.db)]), true)
    case Release(name) =>
      var k := Latest(t.stack, name);
      if t.failed then (t, false)
      else if k < 0 then (t.(failed := true), false)
      else (t.(stack := t.stack[..k]), true)
    case RollbackTo(name) =>
      var k := Latest(t.stack, name);
      if k < 0 then (t.(failed := true), false)
      else (Txn(t.stack[k].saved, t.stack[..k + 1], false), true)     // the savepoint itself stays defined
    case Statement(run) =>
      if t.failed then (t, false)
      else match run(t.db)
           case Some((db, _)) => (t.(db := db), true)
           case None => (t.(failed := true), false)
  }

  // ----- the client -----

  /** A closure body, by what it does next: after a statement, `rows[k]` if that returned the k-th of the results the
      closure distinguishes, `onOk` for any other result.  `bump` counts the increments other tasks make to the
      shared savepoint counter before this block reads it. */
  datatype Body<!Db> =
    | Return(ok: bool)
    | Query(run: Db -> Option<(Db, nat)>, rows: seq<Body<Db>>, onOk: Body<Db>, onErr: Body<Db>)
    | Atomic(bump: nat, inner: Body<Db>, onOk: Body<Db>, onErr: Body<Db>)

  /** `left` is one more than the number of requests the connection will still carry; 0 means it is lost. */
  datatype Session<Db> = Session(txn: Txn<Db>, counter: nat, left: nat)

  function Name(id: nat): string { "resolute_sp_" + Decimal.ToText(id) }

  lemma NamesDistinct(i: nat, j: nat)
    requires i != j
    ensures Name(i) != Name(j)
  {
    if Name(i) == Name(j) {
      assert Decimal.ToText(i) == Name(i)[12..] && Decimal.ToText(j) == Name(j)[12..];
      Decimal.TextInjective(i, j);
    }
  }

  /** `simple_query` drains the reply: it fails only when the connection is lost, never on a server error. */
  function SimpleQuery<Db>(s: Session<Db>, c: Command<Db>): (Session<Db>, bool) {
    if s.left <= 1 then (s.(left := 0), false)
    else (s.(txn := Serve(s.txn, c).0, left := s.left - 1), true)
  }

  /** `query` and `execute` return the result or the server's error. */
  function Ask<Db>(s: Session<Db>, run: Db -> Option<(Db, nat)>): (Session<Db>, Option<nat>) {
    var (t, up) := SimpleQuery(s, Statement(run));
    (t, if up && !s.txn.failed && run(s.txn.db).Some? then Some(run(s.txn.db).value.1) else None)
  }

  /** What the closure does after the statement answered `r`. */
  function After<Db>(b: Body<Db>, r: Option<nat>): (c: Body<Db>)
    requires b.Query?
    ensures c < b
  {
    match r
    case None => b.onErr
    case Some(k) => if k < |b.rows| then b.rows[k] else b.onOk
  }

  function Enter<Db>(s: Session<Db>, bump: nat): (Session<Db>, bool) {
    SimpleQuery(s.(counter := s.counter + bump + 1), Define(Name(s.counter + bump)))
  }

  function Leave<Db>(s: Session<Db>, id: nat, ok: bool): (Session<Db>, bool) {
    var (t, up) := SimpleQuery(s, if ok then Release(Name(id)) else RollbackTo(Name(id)));
    (t, ok && up)
  }

  function Block<Db>(bump: nat, inner: Body<Db>, s: Session<Db>): (Session<Db>, bool)
    decreases inner, 1
  {
    var (s1, entered) := Enter(s, bump);
    if !entered then (s1, false) else
      var (s2, ok) := Exec(inner, s1);
      Leave(s2, s.counter + bump, ok)
  }

  function Exec<Db>(b: Body<Db>, s: Session<Db>): (Session<Db>, bool)
    decreases b, 0
  {
    match b
    case Return(ok) => (s, ok)
    case Query(run, _, _, _) =>
      var (t, r) := Ask(s, run);
      Exec(After(b, r), t)
    case Atomic(bump, inner, onOk, onErr) =>
      var (t, ok) := Block(bump, inner, s);
      Exec(if ok then onOk else onErr, t)
  }

  // ----- the meaning of the blocks, without savepoints -----

  /** What the caller can observe of the transaction. */
  datatype Plain<Db> = Plain(db: Db, failed: bool, left: nat)

  function View<Db>(s: Session<Db>): Plain<Db> { Plain(s.txn.db, s.txn.failed, s.left) }

  function Spend<Db>(p: Plain<Db>): Plain<Db> { p.(left := if p.left <= 1 then 0 else p.left - 1) }

  /** All or nothing: an Err block puts back the entry state, an Ok block keeps what its body did. */
  function SpecBlock<Db>(inner: Body<Db>, p: Plain<Db>): (Plain<Db>, bool)
    decreases inner, 1
  {
    var p1 := Spend(p);
    if p1.left == 0 then (p1, false) else
      var (p2, ok) := Spec(inner, p1);
      var p3 := Spend(p2);
      if p3.left == 0 then (p3, false)
      else if ok then (p3, true)
      else (Plain(p.db, p.failed, p3.left), false)
  }

  function SpecStatement<Db>(run: Db -> Option<(Db, nat)>, p: Plain<Db>): (Plain<Db>, Option<nat>) {
    var p1 := Spend(p);
    if p1.left == 0 || p.failed then (p1, None)
    else match run(p.db)
         case Some((db, k)) => (p1.(db := db), Some(k))
         case None => (p1.(failed := true), None)
  }

  function Spec<Db>(b: Body<Db>, p: Plain<Db>): (Plain<Db>, bool)
    decreases b, 0
  {
    match b
    case Return(ok) => (p, ok)
    case Query(run, _, _, _) =>
      var (q, r) := SpecStatement(run, p);
      Spec(After(b, r), q)
    case Atomic(_, inner, onOk, onErr) =>
      var (q, ok) := SpecBlock(inner, p);
      Spec(if ok then onOk else onErr, q)
  }

  // ----- refinement -----

  /** No savepoint on the stack has a name that is still to be generated. */
  ghost predicate Fresh<Db>(stack: seq<Savepoint<Db>>, counter: nat) {
    forall i, k :: 0 <= i < |stack| && k >= counter ==> stack[i].name != Name(k)
  }

  /** `t` is a later state than `s`: older savepoints are untouched, and those left over on top of them carry
      names that no block open in `s` uses. */
  ghost predicate Later<Db>(s: Session<Db>, t: Session<Db>) {
    && s.counter <= t.counter
    && s.txn.stack <= t.txn.stack
    && Fresh(t.txn.stack, t.counter)
    && forall i, k :: |s.txn.stack| <= i < |t.txn.stack| && 0 <= k < s.counter ==> t.txn.stack[i].name != Name(k)
  }

  lemma LaterTrans<Db>(s: Session<Db>, t: Session<Db>, u: Session<Db>)
    requires Later(s, t) && Later(t, u)
    ensures Later(s, u)
  {
    forall i, k | |s.txn.stack| <= i < |u.txn.stack| && 0 <= k < s.counter
      ensures u.txn.stack[i].name != Name(k)
    {
      if i < |t.txn.stack| { assert u.txn.stack[i] == t.txn.stack[i]; }
    }
  }

  /** In a failed transaction nothing a body does has any effect, and it stays failed. */
  lemma {:induction false} FailedStays<Db>(b: Body<Db>, p: Plain<Db>)
    requires p.failed
    ensures Spec(b, p).0.db == p.db && Spec(b, p).0.failed
    decreases b
  {
    match b {
      case Return(_) =>
      case Query(run, _, _, _) =>
        var (q, r) := SpecStatement(run, p);
        FailedStays(After(b, r), q);
      case Atomic(_, inner, onOk, onErr) =>
        FailedStays(inner, Spend(p));
        var (q, ok) := SpecBlock(inner, p);
        FailedStays(if ok then onOk else onErr, q);
    }
  }

  /** The state just after `SAVEPOINT` was sent. */
  lemma EnterState<Db>(s: Session<Db>, bump: nat)
    requires Fresh(s.txn.stack, s.counter) && s.left > 1
    ensures var s1 := Enter(s, bump).0; var id := s.counter + bump;
            && Enter(s, bump).1 && View(s1) == Spend(View(s)) && s1.counter == id + 1 && Fresh(s1.txn.stack, s1.counter)
            && s1.txn.stack == s.txn.stack + (if s.txn.failed then [] else [Savepoint(Name(id), s.txn.db)])
  {
    var id := s.counter + bump;
    forall k | k >= id + 1 ensures Name(id) != Name(k) { NamesDistinct(id, k); }
  }

  /** Whatever inner blocks left on the stack, the name of a block still finds that block's own savepoint,
      and finds nothing when the savepoint was refused. */
  lemma FindsOwnSavepoint<Db>(s: Session<Db>, bump: nat, s2: Session<Db>)
    requires Fresh(s.txn.stack, s.counter) && s.left > 1 && Later(Enter(s, bump).0, s2)
    ensures var k := Latest(s2.txn.stack, Name(s.counter + bump));
            && s.txn.stack <= s2.txn.stack
            && (s.txn.failed ==> k == -1)
            && (!s.txn.failed ==> k == |s.txn.stack| && s2.txn.stack[k].saved == s.txn.db)
  {
    EnterState(s, bump);
    var s1 := Enter(s, bump).0;
    var id := s.counter + bump;
    var k := Latest(s2.txn.stack, Name(id));
    assert forall i :: 0 <= i < |s.txn.stack| ==> s2.txn.stack[i] == s1.txn.stack[i] == s.txn.stack[i];
    assert !(|s1.txn.stack| <= k < |s2.txn.stack|);
    assert !(0 <= k < |s.txn.stack|);
    if !s.txn.failed { assert s2.txn.stack[|s.txn.stack|] == s1.txn.stack[|s.txn.stack|]; }
  }

  lemma LeaveLater<Db>(s: Session<Db>, bump: nat, s2: Session<Db>, ok: bool)
    requires Fresh(s.txn.stack, s.counter) && s.left > 1 && Later(Enter(s, bump).0, s2)
    ensures Later(s, Leave(s2, s.counter + bump, ok).0)
  {
    EnterState(s, bump);
    FindsOwnSavepoint(s, bump, s2);
    var s1, id := Enter(s, bump).0, s.counter + bump;
    forall k | 0 <= k < s.counter ensures Name(k) != Name(id) { NamesDistinct(k, id); }
    assert Later(s, s1);
    LaterTrans(s, s1, s2);
    var t := Leave(s2, id, ok).0;
    assert t.txn.stack <= s2.txn.stack;
    assert forall i :: 0 <= i < |t.txn.stack| ==> t.txn.stack[i] == s2.txn.stack[i];
  }

  /** Leaving the block: its effects stay, or the entry state is back. */
  lemma LeaveRefines<Db>(s: Session<Db>, bump: nat, s2: Session<Db>, ok: bool)
    requires Fresh(s.txn.stack, s.counter) && s.left > 1 && Later(Enter(s, bump).0, s2)
    requires s.txn.failed ==> s2.txn.failed && s2.txn.db == s.txn.db
    ensures var (t, left) := Leave(s2, s.counter + bump, ok);
            var p3 := Spend(View(s2));
            (View(t), left) == if p3.left == 0 then (p3, false) else if ok then (p3, true)
                               else (Plain(s.txn.db, s.txn.failed, p3.left), false)
  {
    FindsOwnSavepoint(s, bump, s2);
  }

  lemma {:induction false} BlockRefines<Db>(bump: nat, inner: Body<Db>, s: Session<Db>)
    requires Fresh(s.txn.stack, s.counter)
    ensures var (t, ok) := Block(bump, inner, s);
            (View(t), ok) == SpecBlock(inner, View(s)) && Later(s, t)
    decreases inner, 1
  {
    if s.left > 1 {
      hide Fresh, Later, Enter, Leave;
      EnterState(s, bump);
      var s1 := Enter(s, bump).0;
      ExecRefines(inner, s1);
      var (s2, ok) := Exec(inner, s1);
      if s.txn.failed { FailedStays(inner, View(s1)); }
      LeaveRefines(s, bump, s2, ok);
      LeaveLater(s, bump, s2, ok);
    }
  }

  /** Main result: a body with any nesting of blocks, run over savepoint commands, has the same result and the
      same effect on the transaction as under the all-or-nothing semantics. */
  lemma {:induction false} ExecRefines<Db>(b: Body<Db>, s: Session<Db>)
    requires Fresh(s.txn.stack, s.counter)
    ensures var (t, ok) := Exec(b, s);
            (View(t), ok) == Spec(b, View(s)) && Later(s, t)
    decreases b, 0
  {
    match b {
      case Return(_) =>
      case Query(run, _, _, _) =>
        var (t, r) := Ask(s, run);
        ExecRefines(After(b, r), t);
        LaterTrans(s, t, Exec(b, s).0);
      case Atomic(bump, inner, onOk, onErr) =>
        BlockRefines(bump, inner, s);
        var (t, ok) := Block(bump, inner, s);
        ExecRefines(if ok then onOk else onErr, t);
        LaterTrans(s, t, Exec(b, s).0);
    }
  }

  /** For one block: while the connection is up afterwards, Err means the entry state is back, and Ok means the
      effects of the body are in place.  Ok also implies that the connection is up. */
  lemma BlockIsAllOrNothing<Db>(bump: nat, inner: Body<Db>, s: Session<Db>)
    requires Fresh(s.txn.stack, s.counter)
    ensures var (t, ok) := Block(bump, inner, s);
            && (!ok && t.left > 0 ==> t.txn.db == s.txn.db && t.txn.failed == s.txn.failed)
            && (ok ==> t.left > 0 && t.txn.db == Exec(inner, Enter(s, bump).0).0.txn.db)
  {
    BlockRefines(bump, inner, s);
    if s.left > 1 {
      EnterState(s, bump);
      ExecRefines(inner, Enter(s, bump).0);
    }
  }

  // ----- when an Ok block leaves a usable transaction -----

  predicate NeverOk<Db>(b: Body<Db>) {
    match b
    case Return(ok) => !ok
    case Query(_, rows, onOk, onErr) => (forall i :: 0 <= i < |rows| ==> NeverOk(rows[i])) && NeverOk(onOk)
        && NeverOk(onErr)
    case Atomic(_, _, onOk, onErr) => NeverOk(onOk) && NeverOk(onErr)
  }

  /** Every statement error reaches the boundary of the block it happens in; a failed block may be handled. */
  predicate Propagates<Db>(b: Body<Db>) {
    match b
    case Return(_) => true
    case Query(_, rows, onOk, onErr) =>
      (forall i :: 0 <= i < |rows| ==> Propagates(rows[i])) && Propagates(onOk) && NeverOk(onErr)
    case Atomic(_, inner, onOk, onErr) => Propagates(inner) && Propagates(onOk) && Propagates(onErr)
  }

  lemma {:induction false} NeverOkErrs<Db>(b: Body<Db>, p: Plain<Db>)
    requires NeverOk(b)
    ensures !Spec(b, p).1
    decreases b
  {
    match b {
      case Return(_) =>
      case Query(run, _, _, _) =>
        var (q, r) := SpecStatement(run, p);
        NeverOkErrs(After(b, r), q);
      case Atomic(_, inner, onOk, onErr) =>
        var (q, ok) := SpecBlock(inner, p);
        NeverOkErrs(if ok then onOk else onErr, q);
    }
  }

  lemma {:induction false} LostStays<Db>(b: Body<Db>, p: Plain<Db>)
    requires p.left == 0
    ensures Spec(b, p).0 == p
    decreases b
  {
    match b {
      case Return(_) =>
      case Query(run, _, _, _) => LostStays(After(b, SpecStatement(run, p).1), SpecStatement(run, p).0);
      case Atomic(_, inner, onOk, onErr) =>
        LostStays(if SpecBlock(inner, p).1 then onOk else onErr, SpecBlock(inner, p).0);
    }
  }

  lemma {:induction false} PropagatingBodies<Db>(b: Body<Db>, p: Plain<Db>)
    requires Propagates(b) && !p.failed
    ensures var (q, ok) := Spec(b, p); ok && q.left > 0 ==> !q.failed
    decreases b
  {
    match b {
      case Return(_) =>
      case Query(run, _, _, onErr) =>
        var (q, r) := SpecStatement(run, p);
        if r.Some? { PropagatingBodies(After(b, r), q); } else { NeverOkErrs(onErr, q); }
      case Atomic(_, inner, onOk, onErr) =>
        PropagatingBodies(inner, Spend(p));
        var (q, ok) := SpecBlock(inner, p);
        if q.left == 0 { LostStays(if ok then onOk else onErr, q); }
        else { PropagatingBodies(if ok then onOk else onErr, q); }
    }
  }

  /** A block whose body propagates its errors leaves a live transaction live, whichever way it ends. */
  lemma TransactionStaysUsable<Db>(bump: nat, inner: Body<Db>, s: Session<Db>)
    requires Fresh(s.txn.stack, s.counter) && !s.txn.failed && Propagates(inner)
    ensures var t := Block(bump, inner, s).0; t.left > 0 ==> !t.txn.failed
  {
    BlockRefines(bump, inner, s);
    PropagatingBodies(inner, Spend(View(s)));
  }

  /** In general, for a live transaction: the block leaves it aborted exactly when its body returned Ok over an
      aborted transaction.  Its RELEASE is then refused, and the refusal is not reported. */
  lemma AbortedExactlyWhenSwallowed<Db>(bump: nat, inner: Body<Db>, s: Session<Db>)
    requires Fresh(s.txn.stack, s.counter) && !s.txn.failed && Block(bump, inner, s).0.left > 0
    ensures var (body, bodyOk) := Exec(inner, Enter(s, bump).0);
            Block(bump, inner, s).0.txn.failed <==> bodyOk && body.txn.failed
  {
    BlockRefines(bump, inner, s);
    EnterState(s, bump);
    ExecRefines(inner, Enter(s, bump).0);
  }

  /** Such bodies exist: one failing statement whose error is ignored. */
  lemma SwallowedErrorIsReportedAsSuccess(s: Session<int>)
    requires Fresh(s.txn.stack, s.counter) && !s.txn.failed && s.left > 3
    ensures var (t, ok) := Block(0, Query(db => None, [], Return(true), Return(true)), s);
            ok && t.txn.failed
  {
    var b: Body<int> := Query(db => None, [], Return(true), Return(true));
    BlockRefines(0, b, s);
    assert SpecStatement(b.run, Spend(View(s))) == (Plain(s.txn.db, true, s.left - 2), None);
    assert Spec(b, Spend(View(s))) == (Plain(s.txn.db, true, s.left - 2), true);
  }

  // ----- the handle -----

  /** `PooledTransaction` together with the transaction it holds open on the server. */
  class Handle<Db> {
    var txn: Txn<Db>
    var counter: nat     // SAVEPOINT_COUNTER
    var left: nat

    constructor (db: Db, counter: nat, left: nat)
      ensures State() == Session(Txn(db, [], false), counter, left)
    {
      this.txn, this.counter, this.left := Txn(db, [], false), counter, left;
    }

    function State(): Session<Db>
      reads this
    {
      Session(txn, counter, left)
    }

    method Simple(c: Command<Db>) returns (up: bool)
      modifies this
      ensures (State(), up) == SimpleQuery(old(State()), c)
    {
      if left <= 1 {
        left := 0;
        return false;
      }
      var reply := Serve(txn, c);
      txn := reply.0;              // reply.1 is drained
      left := left - 1;
      up := true;
    }

    method Execute(run: Db -> Option<(Db, nat)>) returns (r: Option<nat>)
      modifies this
      ensures (State(), r) == Ask(old(State()), run)
    {
      var reply := if txn.failed then None else run(txn.db);
      var up := Simple(Statement(run));
      r := if up && reply.Some? then Some(reply.value.1) else None;
    }

    method Atomic(bump: nat, inner: Body<Db>) returns (ok: bool)
      modifies this
      ensures (State(), ok) == Block(bump, inner, old(State()))
      ensures old(Fresh(txn.stack, counter)) ==> (View(State()), ok) == SpecBlock(inner, old(View(State())))
      decreases inner, 1
    {
      if Fresh(txn.stack, counter) { BlockRefines(bump, inner, State()); }
      var id := counter + bump;
      counter := id + 1;
      var sp := Name(id);
      var up := Simple(Define(sp));
      if !up { return false; }
      var result := Run(inner);
      if result {
        ok := Simple(Release(sp));
      } else {
        var _ := Simple(RollbackTo(sp));
        ok := false;
      }
    }

    /** The closure's own code. */
    method Run(b: Body<Db>) returns (ok: bool)
      modifies this
      ensures (State(), ok) == Exec(b, old(State()))
      decreases b, 0
    {
      match b {
        case Return(r) => ok := r;
        case Query(run, _, _, _) =>
          var r := Execute(run);
          ok := Run(After(b, r));
        case Atomic(bump, inner, onOk, onErr) =>
          var done := Atomic(bump, inner);
          if done { ok := Run(onOk); } else { ok := Run(onErr); }
      }
    }
  }
}
