/** Executing through the statement cache, with its single retry on a stale statement, compared with sending a
    fresh Parse every time.  One connection, one request at a time; the server may drop or invalidate prepared
    statements between requests. */
module StaleRetry {
  import opened Wrappers
  import opened StatementCache

  const UNKNOWN_STATEMENT := "26000"
  const FEATURE_NOT_SUPPORTED := "0A000"
  const ABORTED := "25P02"
  const DUPLICATE := "42P05"

  /** `is_stale_statement_error`. */
  predicate StaleCode(code: string) { code == UNKNOWN_STATEMENT || code == FEATURE_NOT_SUPPORTED }

  datatype Reply<Row> = Answer(rows: seq<Row>) | Error(code: string)

  predicate StaleReply<Row>(r: Reply<Row>) { r.Error? && StaleCode(r.code) }

  // ----- the server -----

  datatype World<Db> = Idle(durable: Db) | Open(durable: Db, work: Db) | Failed(durable: Db)

  /** `parsed`: whether the statement got past Parse before it failed. */
  datatype Effect<Db, Row> = Changes(db: Db, rows: seq<Row>) | Fails(code: string, parsed: bool)

  datatype Meaning<!Db, Row> =
    | Malformed(code: string)
    | Begin
    | Commit
    | Rollback
    | Plain(run: Db -> Effect<Db, Row>)

  predicate Exits<Db, Row>(m: Meaning<Db, Row>) { m.Commit? || m.Rollback? }

  /** An error aborts an open transaction and otherwise changes nothing. */
  function Raise<Db>(w: World<Db>): World<Db> {
    if w.Open? then Failed(w.durable) else w
  }

  /** Parse, Bind and Execute of a statement: what a client without a cache gets every time. */
  function Fresh<Db, Row>(w: World<Db>, m: Meaning<Db, Row>): (World<Db>, Reply<Row>) {
    if m.Malformed? then (Raise(w), Error(m.code))
    else if w.Failed? && !Exits(m) then (w, Error(ABORTED))
    else match m
         case Begin => (if w.Idle? then Open(w.durable, w.durable) else w, Answer([]))
         case Commit => (Idle(if w.Open? then w.work else w.durable), Answer([]))
         case Rollback => (Idle(w.durable), Answer([]))
         case Plain(run) =>
           match run(if w.Open? then w.work else w.durable)
           case Changes(db, rows) => (if w.Open? then w.(work := db) else Idle(db), Answer(rows))
           case Fails(code, _) => (Raise(w), Error(code))
  }

  datatype Prepared = Prepared(sql: Sql, stale: bool)

  datatype Server<Db> = Server(world: World<Db>, prepared: map<string, Prepared>)

  /** Whether a Parse that is part of a failed request leaves its statement behind. */
  predicate ParsePasses<Db, Row>(w: World<Db>, m: Meaning<Db, Row>) {
    if m.Malformed? || (w.Failed? && !Exits(m)) then false
    else if m.Plain? then
      var e := m.run(if w.Open? then w.work else w.durable);
      e.Fails? ==> e.parsed
    else true
  }

  function ParseAndRun<Db, Row>(v: Server<Db>, name: string, sql: Sql, meaning: Sql -> Meaning<Db, Row>)
      : (Server<Db>, Reply<Row>)
  {
    if name in v.prepared then (v.(world := Raise(v.world)), Error(DUPLICATE))
    else
      var (w, r) := Fresh(v.world, meaning(sql));
      (Server(w, if ParsePasses(v.world, meaning(sql)) then v.prepared[name := Prepared(sql, false)] else v.prepared),
          r)
  }

  /** Bind and Execute only: the name is looked up before anything else is checked. */
  function BindAndRun<Db, Row>(v: Server<Db>, name: string, meaning: Sql -> Meaning<Db, Row>)
      : (Server<Db>, Reply<Row>)
  {
    if name !in v.prepared then (v.(world := Raise(v.world)), Error(UNKNOWN_STATEMENT))
    else
      var p := v.prepared[name];
      if v.world.Failed? && !Exits(meaning(p.sql)) then (v, Error(ABORTED))
      else if p.stale then (v.(world := Raise(v.world)), Error(FEATURE_NOT_SUPPORTED))
      else
        var (w, r) := Fresh(v.world, meaning(p.sql));
        (v.(world := w), r)
  }

  // ----- the client -----

  datatype Client = Client(cache: Cache, counter: nat)

  lemma {:induction false} OldestExists(c: Cache)
    requires c != map[]
    ensures exists victim :: Oldest(c, victim)
    decreases |c|
  {
    var k :| k in c;
    var rest := c - {k};
    assert rest.Keys == c.Keys - {k};
    if rest == map[] {
      forall j | j in c ensures j == k { assert j in rest.Keys || j == k; }
      assert Oldest(c, k);
    } else {
      OldestExists(rest);
      var o :| Oldest(rest, o);
      forall j | j in c && j != k ensures c[o].counter <= c[j].counter { assert j in rest.Keys; }
      assert Oldest(c, if c[k].counter <= c[o].counter then k else o);
    }
  }

  ghost function OldestOf(c: Cache): (victim: Sql)
    requires c != map[]
    ensures Oldest(c, victim)
  {
    OldestExists(c);
    var victim :| Oldest(c, victim);
    victim
  }

  /** Publishing a name; when the cache is full the oldest statement is closed on the server. */
  ghost function PublishAndClose<Db>(v: Server<Db>, c: Client, sql: Sql, name: string): (Server<Db>, Client) {
    if Evicts(c.cache, sql) then
      var victim := OldestOf(c.cache);
      (v.(prepared := v.prepared - {c.cache[victim].name}), c.(cache := Publish(c.cache, sql, name, c.counter, victim)))
    else (v, c.(cache := Publish(c.cache, sql, name, c.counter, sql)))
  }

  datatype Execution<Db, Row> = Execution(v: Server<Db>, c: Client, reply: Reply<Row>, requests: nat)

  ghost function WithParse<Db, Row>(v: Server<Db>, c: Client, sql: Sql, meaning: Sql -> Meaning<Db, Row>,
      requests: nat): Execution<Db, Row> {
    var name := Name(c.counter);
    var (v1, r) := ParseAndRun(v, name, sql, meaning);
    var c1 := c.(counter := c.counter + 1);
    if r.Answer? then
      var (v2, c2) := PublishAndClose(v1, c1, sql, name);
      Execution(v2, c2, r, requests)
    else Execution(v1, c1, r, requests)
  }

  function Attempt<Db, Row>(v: Server<Db>, c: Client, sql: Sql, meaning: Sql -> Meaning<Db, Row>): Reply<Row> {
    if sql in c.cache then BindAndRun(v, c.cache[sql].name, meaning).1
        else ParseAndRun(v, Name(c.counter), sql, meaning).1
  }

  /** `strict` is `exec_query`, which retries only a Bind-only request; otherwise `Client::query`, which retries
      whatever it sent. */
  ghost function Execute<Db, Row>(v: Server<Db>, c: Client, sql: Sql, meaning: Sql -> Meaning<Db, Row>,
      strict: bool): Execution<Db, Row> {
    if sql in c.cache then
      var (v1, r) := BindAndRun(v, c.cache[sql].name, meaning);
      if StaleReply(r) then WithParse(v1, c.(cache := c.cache - {sql}), sql, meaning, 2)
      else Execution(v1, c, r, 1)
    else
      var first := WithParse(v, c, sql, meaning, 1);
      if !strict && StaleReply(first.reply) then
        WithParse(first.v, first.c.(cache := first.c.cache - {sql}), sql, meaning, 2)
      else first
  }

  // ----- one request -----

  /** No name still to be allocated is taken on the server, each cached name stands for its own text there, and only
      well-formed statements are prepared. */
  ghost predicate Inv<Db, Row>(v: Server<Db>, c: Client, meaning: Sql -> Meaning<Db, Row>) {
    && (forall n: nat :: n >= c.counter ==> Name(n) !in v.prepared)
    && (forall q :: q in c.cache && c.cache[q].name in v.prepared ==> v.prepared[c.cache[q].name].sql == q)
    && (forall q, n: nat :: q in c.cache && n >= c.counter ==> c.cache[q].name != Name(n))
    && (forall name :: name in v.prepared ==> !meaning(v.prepared[name].sql).Malformed?)
  }

  /** The cached statement is no longer there to be executed. */
  predicate Gone<Db>(v: Server<Db>, c: Client, sql: Sql) {
    sql in c.cache && (c.cache[sql].name !in v.prepared || v.prepared[c.cache[sql].name].stale)
  }

  /** The statement itself, on this database, fails with a code that looks like a stale statement. */
  predicate FailsStale<Db, Row>(m: Meaning<Db, Row>, db: Db) {
    m.Plain? && m.run(db).Fails? && StaleCode(m.run(db).code)
  }

  /** When the cache can be noticed, told from the state before the call: in an open transaction, if the cached
      statement is gone, or if the statement itself fails with a code that is taken for that and so is retried.
      Either way the first failure has aborted the transaction by the time of the retry. */
  predicate Diverges<Db(==), Row>(v: Server<Db>, c: Client, sql: Sql, meaning: Sql -> Meaning<Db, Row>, strict: bool) {
    && v.world.Open?
    && var m := meaning(sql);
       if Gone(v, c, sql) then m.Begin? || m.Plain? || (m.Commit? && v.world.work != v.world.durable)
       else (sql in c.cache || !strict) && FailsStale(m, v.world.work)
  }

  /** The SQLSTATE of a refused statement is never raised by a statement itself. */
  ghost predicate Reserved<Db(!new), Row>(m: Meaning<Db, Row>) {
    m.Plain? ==> forall db :: m.run(db).Fails? ==> m.run(db).code != ABORTED
  }

  lemma ParseAndRunIsFresh<Db, Row>(v: Server<Db>, c: Client, sql: Sql, meaning: Sql -> Meaning<Db, Row>, requests: nat)
    requires Name(c.counter) !in v.prepared
    ensures var x := WithParse(v, c, sql, meaning, requests);
            (x.v.world, x.reply) == Fresh(v.world, meaning(sql)) && x.requests == requests
  {
  }

  lemma FirstAttemptIsFresh<Db, Row>(v: Server<Db>, c: Client, sql: Sql, meaning: Sql -> Meaning<Db, Row>)
    requires Inv(v, c, meaning) && sql in c.cache
    ensures var (v1, r) := BindAndRun(v, c.cache[sql].name, meaning);
            if StaleReply(r) then v1 == v.(world := Raise(v.world)) else (v1.world, r) == Fresh(v.world, meaning(sql))
  {
    assert c.cache[sql].name in v.prepared ==> v.prepared[c.cache[sql].name].sql == sql;
  }

  /** A failed attempt has no effect outside a transaction, so retrying it there gives what the first try should
      have. */
  lemma RetryIsFreshAfterRaise<Db, Row>(v: Server<Db>, c: Client, sql: Sql, meaning: Sql -> Meaning<Db, Row>,
      strict: bool)
    requires Inv(v, c, meaning) && StaleReply(Attempt(v, c, sql, meaning)) && (sql in c.cache || !strict)
    ensures var x := Execute(v, c, sql, meaning, strict);
            (x.v.world, x.reply) == Fresh(Raise(v.world), meaning(sql)) && x.requests == 2
  {
    if sql in c.cache {
      FirstAttemptIsFresh(v, c, sql, meaning);
      ParseAndRunIsFresh(v.(world := Raise(v.world)), c.(cache := c.cache - {sql}), sql, meaning, 2);
    } else {
      var first := WithParse(v, c, sql, meaning, 1);
      ParseAndRunIsFresh(v, c, sql, meaning, 1);
      assert first.v.world == Raise(v.world);
      NextName(v, c, sql, meaning);
      ParseAndRunIsFresh(first.v, first.c.(cache := first.c.cache - {sql}), sql, meaning, 2);
    }
  }

  lemma NextName<Db, Row>(v: Server<Db>, c: Client, sql: Sql, meaning: Sql -> Meaning<Db, Row>)
    requires Inv(v, c, meaning)
    ensures var x := WithParse(v, c, sql, meaning, 1); forall n: nat :: n >= x.c.counter ==> Name(n) !in x.v.prepared
  {
    forall n: nat | n >= c.counter + 1 ensures Name(n) != Name(c.counter) {
      if Name(n) == Name(c.counter) { NameInjective(n, c.counter); }
    }
  }

  lemma AfterRaise<Db, Row>(w: World<Db>, m: Meaning<Db, Row>)
    requires w.Open? ==> ReservedIn(w, m)
    ensures Fresh(Raise(w), m) == Fresh(w, m) <==>
            !(w.Open? && (m.Begin? || m.Plain? || (m.Commit? && w.work != w.durable)))
  {
  }

  predicate ReservedIn<Db, Row>(w: World<Db>, m: Meaning<Db, Row>)
    requires w.Open?
  {
    m.Plain? && m.run(w.work).Fails? ==> m.run(w.work).code != ABORTED
  }

  /** Whether the first request is refused as stale, told from the state before it. */
  lemma AttemptIsStale<Db, Row>(v: Server<Db>, c: Client, sql: Sql, meaning: Sql -> Meaning<Db, Row>)
    requires Inv(v, c, meaning) && v.world.Open?
    ensures StaleReply(Attempt(v, c, sql, meaning)) <==>
              Gone(v, c, sql) || FailsStale(meaning(sql), v.world.work) ||
              (sql !in c.cache && meaning(sql).Malformed? && StaleCode(meaning(sql).code))
  {
    if sql in c.cache { FirstAttemptIsFresh(v, c, sql, meaning); }
  }

  /** Main result for one request: with the cache, the database and the reply are those of a fresh Parse exactly when
      it cannot be noticed in the state before the call; there is never more than one retry. */
  lemma CachedAgreesExactly<Db(!new), Row(!new)>(v: Server<Db>, c: Client, sql: Sql, meaning: Sql -> Meaning<Db, Row>,
      strict: bool)
    requires Inv(v, c, meaning) && Reserved(meaning(sql))
    ensures var x := Execute(v, c, sql, meaning, strict);
            && ((x.v.world, x.reply) == Fresh(v.world, meaning(sql)) <==> !Diverges(v, c, sql, meaning, strict))
            && x.requests == (if StaleReply(Attempt(v, c, sql, meaning)) && (sql in c.cache || !strict) then 2 else 1)
  {
    if v.world.Open? { AttemptIsStale(v, c, sql, meaning); }
    if StaleReply(Attempt(v, c, sql, meaning)) && (sql in c.cache || !strict) {
      RetryIsFreshAfterRaise(v, c, sql, meaning, strict);
      AfterRaise(v.world, meaning(sql));
    } else if sql in c.cache {
      FirstAttemptIsFresh(v, c, sql, meaning);
    } else {
      ParseAndRunIsFresh(v, c, sql, meaning, 1);
    }
  }

  function Increment(sql: Sql): Meaning<int, int> { Plain((db: int) => Changes(db + 1, [db])) }

  function Unsupported(sql: Sql): Meaning<int, int> { Plain((db: int) => Fails(FEATURE_NOT_SUPPORTED, true)) }

  /** A statement the server dropped, met in an open transaction: a fresh Parse answers, the retry is refused. */
  lemma DroppedStatementShows(sql: Sql)
    ensures var v, c := Server(Open(0, 0), map[]), Client(map[sql := Entry(Name(0), 0)], 1);
            && Inv(v, c, Increment)
            && Execute(v, c, sql, Increment, true).reply == Error(ABORTED)
            && Fresh(v.world, Increment(sql)).1 == Answer([0])
  {
    var v, c := Server(Open(0, 0), map[]), Client(map[sql := Entry(Name(0), 0)], 1);
    forall n: nat | n >= 1 ensures Name(n) != Name(0) { if Name(n) == Name(0) { NameInjective(n, 0); } }
    RetryIsFreshAfterRaise(v, c, sql, Increment, true);
  }

  /** A statement that itself fails with one of the two codes: the caller sees the aborted transaction instead. */
  lemma OwnErrorIsHidden(sql: Sql)
    ensures var v := Server(Open(0, 0), map[Name(0) := Prepared(sql, false)]);
            var c := Client(map[sql := Entry(Name(0), 0)], 1);
            && Inv(v, c, Unsupported)
            && Execute(v, c, sql, Unsupported, true).reply == Error(ABORTED)
            && Fresh(v.world, Unsupported(sql)).1 == Error(FEATURE_NOT_SUPPORTED)
  {
    var v, c := Server(Open(0, 0), map[Name(0) := Prepared(sql, false)]), Client(map[sql := Entry(Name(0), 0)], 1);
    forall n: nat | n >= 1 ensures Name(n) != Name(0) { if Name(n) == Name(0) { NameInjective(n, 0); } }
    assert Fresh(v.world, Unsupported(sql)) == (Failed(0), Error(FEATURE_NOT_SUPPORTED));
    RetryIsFreshAfterRaise(v, c, sql, Unsupported, true);
  }

  /** What the cache is for: the statement just executed is cached, and executing it again sends no Parse, allocates no
      name, and does to the database what a fresh Parse would do. */
  lemma SecondRunSendsNoParse<Db, Row>(v: Server<Db>, c: Client, sql: Sql, meaning: Sql -> Meaning<Db, Row>,
      strict: bool)
    requires Inv(v, c, meaning) && Execute(v, c, sql, meaning, strict).reply.Answer?
    requires var w := Execute(v, c, sql, meaning, strict).v.world; !FailsStale(meaning(sql), View(w))
    ensures var x := Execute(v, c, sql, meaning, strict);
            var y := Execute(x.v, x.c, sql, meaning, strict);
            && sql in x.c.cache && !Gone(x.v, x.c, sql)
            && y.c == x.c && y.v.prepared == x.v.prepared && y.requests == 1
            && (y.v.world, y.reply) == Fresh(x.v.world, meaning(sql))
  {
    var x := Execute(v, c, sql, meaning, strict);
    ExecuteKeepsInv(v, c, sql, meaning, strict);
    AnsweredIsCached(v, c, sql, meaning, strict);
    FirstAttemptIsFresh(x.v, x.c, sql, meaning);
  }

  lemma AnsweredIsCached<Db, Row>(v: Server<Db>, c: Client, sql: Sql, meaning: Sql -> Meaning<Db, Row>, strict: bool)
    requires Inv(v, c, meaning) && Execute(v, c, sql, meaning, strict).reply.Answer?
    ensures var x := Execute(v, c, sql, meaning, strict); sql in x.c.cache && !Gone(x.v, x.c, sql)
  {
    if sql in c.cache {
      var (v1, r) := BindAndRun(v, c.cache[sql].name, meaning);
      if StaleReply(r) { ParsedIsCached(v1, c.(cache := c.cache - {sql}), sql, meaning, 2); }
    } else {
      var first := WithParse(v, c, sql, meaning, 1);
      if !strict && StaleReply(first.reply) {
        WithParseKeepsInv(v, c, sql, meaning, 1);
        ParsedIsCached(first.v, first.c.(cache := first.c.cache - {sql}), sql, meaning, 2);
      } else {
        ParsedIsCached(v, c, sql, meaning, 1);
      }
    }
  }

  lemma ParsedIsCached<Db, Row>(v: Server<Db>, c: Client, sql: Sql, meaning: Sql -> Meaning<Db, Row>, requests: nat)
    requires Inv(v, c, meaning) && sql !in c.cache
    ensures var x := WithParse(v, c, sql, meaning, requests);
            x.reply.Answer? ==> sql in x.c.cache && !Gone(x.v, x.c, sql)
  {
    var name := Name(c.counter);
    if Evicts(c.cache, sql) { assert c.cache[OldestOf(c.cache)].name != name; }
  }

  // ----- sequences of requests -----

  lemma FewerKeepInv<Db, Row>(v: Server<Db>, c: Client, v': Server<Db>, c': Client, sql: Sql, name: string,
      meaning: Sql -> Meaning<Db, Row>)
    requires Inv(v, c, meaning) && forall n: nat :: n >= c.counter ==> Name(n) != name
    requires name in v.prepared ==> v.prepared[name].sql == sql
    requires c'.counter == c.counter && v'.prepared.Items <= v.prepared.Items
    requires forall q :: q in c'.cache ==>
               (q in c.cache && c'.cache[q] == c.cache[q]) || (q == sql && c'.cache[q].name == name)
    ensures Inv(v', c', meaning)
  {
    hide Name;
    forall n | n in v'.prepared ensures n in v.prepared && v'.prepared[n] == v.prepared[n] {
      assert (n, v'.prepared[n]) in v'.prepared.Items;
    }
  }

  lemma PublishKeepsInv<Db, Row>(v: Server<Db>, c: Client, sql: Sql, name: string, meaning: Sql -> Meaning<Db, Row>)
    requires Inv(v, c, meaning) && forall n: nat :: n >= c.counter ==> Name(n) != name
    requires name in v.prepared ==> v.prepared[name].sql == sql
    ensures Inv(PublishAndClose(v, c, sql, name).0, PublishAndClose(v, c, sql, name).1, meaning)
  {
    hide Inv, Name, CounterOf;
    var (v', c') := PublishAndClose(v, c, sql, name);
    FewerKeepInv(v, c, v', c', sql, name, meaning);
  }

  lemma WithParseKeepsInv<Db, Row>(v: Server<Db>, c: Client, sql: Sql, meaning: Sql -> Meaning<Db, Row>, requests: nat)
    requires Inv(v, c, meaning)
    ensures Inv(WithParse(v, c, sql, meaning, requests).v, WithParse(v, c, sql, meaning, requests).c, meaning)
  {
    var name := Name(c.counter);
    var (v1, r) := ParseAndRun(v, name, sql, meaning);
    var c1 := c.(counter := c.counter + 1);
    NextName(v, c, sql, meaning);
    forall n: nat | n >= c1.counter ensures Name(n) != name { if Name(n) == name { NameInjective(n, c.counter); } }
    assert Inv(v1, c1, meaning);
    if r.Answer? { PublishKeepsInv(v1, c1, sql, name, meaning); }
  }

  lemma ExecuteKeepsInv<Db, Row>(v: Server<Db>, c: Client, sql: Sql, meaning: Sql -> Meaning<Db, Row>, strict: bool)
    requires Inv(v, c, meaning)
    ensures Inv(Execute(v, c, sql, meaning, strict).v, Execute(v, c, sql, meaning, strict).c, meaning)
  {
    if sql in c.cache {
      var (v1, r) := BindAndRun(v, c.cache[sql].name, meaning);
      assert Inv(v1, c, meaning);
      if StaleReply(r) { WithParseKeepsInv(v1, c.(cache := c.cache - {sql}), sql, meaning, 2); }
    } else {
      WithParseKeepsInv(v, c, sql, meaning, 1);
      var first := WithParse(v, c, sql, meaning, 1);
      if !strict && StaleReply(first.reply) {
        WithParseKeepsInv(first.v, first.c.(cache := first.c.cache - {sql}), sql, meaning, 2);
      }
    }
  }

  /** What happens in a session: requests, and between them anything the server or other sessions do. */
  datatype Op<!Db> =
    | Request(sql: Sql)
    | Drop(names: set<string>)
    | MarkStale(names: set<string>)
    | Change(f: Db -> Db, g: Db -> Db)   // another session commits; `g` is what an open transaction sees of it
    | Discard                      // DISCARD ALL outside a transaction, followed by the cache clear

  function Disturb<Db>(v: Server<Db>, op: Op<Db>): Server<Db> {
    match op
    case Request(_) => v
    case Drop(names) => v.(prepared := v.prepared - names)
    case MarkStale(names) => v.(prepared := map n | n in v.prepared :: if n in names then v.prepared[n].(stale := true)
        else v.prepared[n])
    case Change(f, g) => v.(world := ChangeWorld(v.world, f, g))
    case Discard => v.(prepared := map[])
  }

  function ChangeWorld<Db>(w: World<Db>, f: Db -> Db, g: Db -> Db): World<Db> {
    match w
    case Idle(d) => Idle(f(d))
    case Open(d, work) => Open(f(d), g(work))
    case Failed(d) => Failed(f(d))
  }

  function ChangeOf<Db>(w: World<Db>, op: Op<Db>): World<Db> {
    if op.Change? then ChangeWorld(w, op.f, op.g) else w
  }

  /** A session's history: the database and the reply after each request. */
  ghost function RunCached<Db, Row>(v: Server<Db>, c: Client, ops: seq<Op<Db>>, meaning: Sql -> Meaning<Db, Row>,
      strict: bool): seq<(World<Db>, Reply<Row>)>
    decreases |ops|
  {
    if ops == [] then []
    else if ops[0].Request? then
      var x := Execute(v, c, ops[0].sql, meaning, strict);
      [(x.v.world, x.reply)] + RunCached(x.v, x.c, ops[1..], meaning, strict)
    else RunCached(Disturb(v, ops[0]), if ops[0].Discard? then c.(cache := map[]) else c, ops[1..], meaning, strict)
  }

  function RunFresh<Db, Row>(w: World<Db>, ops: seq<Op<Db>>, meaning: Sql -> Meaning<Db, Row>)
      : seq<(World<Db>, Reply<Row>)>
    decreases |ops|
  {
    if ops == [] then []
    else if ops[0].Request? then
      var x := Fresh(w, meaning(ops[0].sql));
      [x] + RunFresh(x.0, ops[1..], meaning)
    else RunFresh(ChangeOf(w, ops[0]), ops[1..], meaning)
  }

  /** The cache can be noticed at no request of the run. */
  ghost predicate NeverDiverges<Db, Row>(v: Server<Db>, c: Client, ops: seq<Op<Db>>, meaning: Sql -> Meaning<Db, Row>,
      strict: bool)
    decreases |ops|
  {
    ops == [] ||
    if ops[0].Request? then
      var x := Execute(v, c, ops[0].sql, meaning, strict);
      !Diverges(v, c, ops[0].sql, meaning, strict) && NeverDiverges(x.v, x.c, ops[1..], meaning, strict)
    else NeverDiverges(Disturb(v, ops[0]), if ops[0].Discard? then c.(cache := map[]) else c, ops[1..], meaning, strict)
  }

  /** Main result for a session: every request leaves the database and gets the reply that a fresh Parse would have
      left and got, exactly when none of them met a state in which the cache can be noticed. */
  lemma {:induction false} SessionAgrees<Db(!new), Row(!new)>(v: Server<Db>, c: Client, ops: seq<Op<Db>>,
      meaning: Sql -> Meaning<Db, Row>, strict: bool)
    requires Inv(v, c, meaning)
    requires forall i :: 0 <= i < |ops| && ops[i].Request? ==> Reserved(meaning(ops[i].sql))
    ensures RunCached(v, c, ops, meaning, strict) == RunFresh(v.world, ops, meaning) <==>
            NeverDiverges(v, c, ops, meaning, strict)
    decreases |ops|
  {
    if ops != [] {
      if ops[0].Request? {
        CachedAgreesExactly(v, c, ops[0].sql, meaning, strict);
        ExecuteKeepsInv(v, c, ops[0].sql, meaning, strict);
        var x := Execute(v, c, ops[0].sql, meaning, strict);
        SessionAgrees(x.v, x.c, ops[1..], meaning, strict);
        SameCons((x.v.world, x.reply), Fresh(v.world, meaning(ops[0].sql)),
          RunCached(x.v, x.c, ops[1..], meaning, strict),
          RunFresh(Fresh(v.world, meaning(ops[0].sql)).0, ops[1..], meaning));
      } else {
        var c' := if ops[0].Discard? then c.(cache := map[]) else c;
        assert Inv(Disturb(v, ops[0]), c', meaning);
        SessionAgrees(Disturb(v, ops[0]), c', ops[1..], meaning, strict);
      }
    }
  }

  lemma SameCons<T>(x: T, y: T, s: seq<T>, t: seq<T>)
    ensures [x] + s == [y] + t <==> x == y && s == t
  {
    assert ([x] + s)[0] == x && ([y] + t)[0] == y && ([x] + s)[1..] == s && ([y] + t)[1..] == t;
  }

  /** Requests that never open a transaction always agree, whatever the server drops or invalidates. */
  lemma SessionAgreesWithoutBegin<Db(!new), Row(!new)>(
      v: Server<Db>, c: Client, ops: seq<Op<Db>>, meaning: Sql -> Meaning<Db, Row>, strict: bool)
    requires Inv(v, c, meaning) && !v.world.Open?
    requires forall i :: 0 <= i < |ops| && ops[i].Request?
                         ==> Reserved(meaning(ops[i].sql)) && !meaning(ops[i].sql).Begin?
    ensures RunCached(v, c, ops, meaning, strict) == RunFresh(v.world, ops, meaning)
  {
    NoBeginNeverDiverges(v, c, ops, meaning, strict);
    SessionAgrees(v, c, ops, meaning, strict);
  }

  lemma {:induction false} NoBeginNeverDiverges<Db(!new), Row(!new)>(
      v: Server<Db>, c: Client, ops: seq<Op<Db>>, meaning: Sql -> Meaning<Db, Row>, strict: bool)
    requires Inv(v, c, meaning) && !v.world.Open?
    requires forall i :: 0 <= i < |ops| && ops[i].Request?
                         ==> Reserved(meaning(ops[i].sql)) && !meaning(ops[i].sql).Begin?
    ensures NeverDiverges(v, c, ops, meaning, strict)
    decreases |ops|
  {
    if ops != [] {
      if ops[0].Request? {
        CachedAgreesExactly(v, c, ops[0].sql, meaning, strict);
        ExecuteKeepsInv(v, c, ops[0].sql, meaning, strict);
        var x := Execute(v, c, ops[0].sql, meaning, strict);
        NoBeginNeverDiverges(x.v, x.c, ops[1..], meaning, strict);
      } else {
        var c' := if ops[0].Discard? then c.(cache := map[]) else c;
        assert Inv(Disturb(v, ops[0]), c', meaning);
        NoBeginNeverDiverges(Disturb(v, ops[0]), c', ops[1..], meaning, strict);
      }
    }
  }

  ghost predicate AllLive<Db>(v: Server<Db>, c: Client) { forall q :: q in c.cache ==> !Gone(v, c, q) }

  ghost predicate NeverFailsStale<Db(!new), Row>(m: Meaning<Db, Row>) { forall db :: !FailsStale(m, db) }

  /** With transactions, sessions agree as long as the server keeps its prepared statements and no statement raises one
      of the two codes itself; DISCARD ALL and evictions do no harm. */
  lemma SessionAgreesWhileKept<Db(!new), Row(!new)>(
      v: Server<Db>, c: Client, ops: seq<Op<Db>>, meaning: Sql -> Meaning<Db, Row>, strict: bool)
    requires Inv(v, c, meaning) && AllLive(v, c)
    requires forall i :: 0 <= i < |ops| ==> !ops[i].Drop? && !ops[i].MarkStale?
    requires forall i :: 0 <= i < |ops| && ops[i].Request? ==>
                           Reserved(meaning(ops[i].sql)) && NeverFailsStale(meaning(ops[i].sql))
    ensures RunCached(v, c, ops, meaning, strict) == RunFresh(v.world, ops, meaning)
  {
    LiveNeverDiverges(v, c, ops, meaning, strict);
    SessionAgrees(v, c, ops, meaning, strict);
  }

  lemma {:induction false} LiveNeverDiverges<Db(!new), Row(!new)>(
      v: Server<Db>, c: Client, ops: seq<Op<Db>>, meaning: Sql -> Meaning<Db, Row>, strict: bool)
    requires Inv(v, c, meaning) && AllLive(v, c)
    requires forall i :: 0 <= i < |ops| ==> !ops[i].Drop? && !ops[i].MarkStale?
    requires forall i :: 0 <= i < |ops| && ops[i].Request? ==>
                           Reserved(meaning(ops[i].sql)) && NeverFailsStale(meaning(ops[i].sql))
    ensures NeverDiverges(v, c, ops, meaning, strict)
    decreases |ops|
  {
    if ops != [] {
      if ops[0].Request? {
        ExecuteKeepsInv(v, c, ops[0].sql, meaning, strict);
        ExecuteKeepsLive(v, c, ops[0].sql, meaning, strict);
        var x := Execute(v, c, ops[0].sql, meaning, strict);
        LiveNeverDiverges(x.v, x.c, ops[1..], meaning, strict);
      } else {
        var c' := if ops[0].Discard? then c.(cache := map[]) else c;
        assert Inv(Disturb(v, ops[0]), c', meaning);
        LiveNeverDiverges(Disturb(v, ops[0]), c', ops[1..], meaning, strict);
      }
    }
  }

  lemma ExecuteKeepsLive<Db(!new), Row>(v: Server<Db>, c: Client, sql: Sql, meaning: Sql -> Meaning<Db, Row>,
      strict: bool)
    requires Inv(v, c, meaning) && AllLive(v, c)
    ensures AllLive(Execute(v, c, sql, meaning, strict).v, Execute(v, c, sql, meaning, strict).c)
  {
    if sql in c.cache {
      var (v1, r) := BindAndRun(v, c.cache[sql].name, meaning);
      var c1 := c.(cache := c.cache - {sql});
      if StaleReply(r) { WithParseKeepsLive(v1, c1, sql, meaning, 2); }
    } else {
      WithParseKeepsLive(v, c, sql, meaning, 1);
      WithParseKeepsInv(v, c, sql, meaning, 1);
      var first := WithParse(v, c, sql, meaning, 1);
      if !strict && StaleReply(first.reply) {
        WithParseKeepsLive(first.v, first.c.(cache := first.c.cache - {sql}), sql, meaning, 2);
      }
    }
  }

  lemma WithParseKeepsLive<Db, Row>(v: Server<Db>, c: Client, sql: Sql, meaning: Sql -> Meaning<Db, Row>, requests: nat)
    requires Inv(v, c, meaning) && AllLive(v, c) && sql !in c.cache
    ensures var x := WithParse(v, c, sql, meaning, requests); AllLive(x.v, x.c)
  {
    var name := Name(c.counter);
    var (v1, r) := ParseAndRun(v, name, sql, meaning);
    if r.Answer? {
      assert name in v1.prepared && !v1.prepared[name].stale;
      if Evicts(c.cache, sql) {
        var victim := OldestOf(c.cache);
        forall q | q in c.cache && q != victim ensures c.cache[q].name != c.cache[victim].name {
          assert v.prepared[c.cache[q].name].sql == q && v.prepared[c.cache[victim].name].sql == victim;
        }
      }
    }
  }

  // ----- a whole transaction in one call -----

  function Committed<Db>(w: World<Db>): World<Db> { Idle(if w.Open? then w.work else w.durable) }

  /** Setup script, statement and COMMIT, the statement with a fresh Parse.  The setup is a script of its own, usually
      BEGIN and some settings, and its errors reach nobody. */
  function FreshTransaction<Db, Row>(w: World<Db>, setup: World<Db> -> World<Db>, m: Meaning<Db, Row>)
      : (World<Db>, Reply<Row>)
  {
    var (w1, r) := Fresh(setup(w), m);
    (Committed(w1), r)
  }

  function Prepare<Db>(v: Server<Db>, setup: World<Db> -> World<Db>): Server<Db> { v.(world := setup(v.world)) }

  function Finish<Db, Row>(x: Execution<Db, Row>): Execution<Db, Row> { x.(v := x.v.(world := Committed(x.v.world))) }

  /** `exec_transaction`: the three requests are sent together, so COMMIT follows a refused statement as well, and
      the retry sends all three again. */
  ghost function ExecuteTransaction<Db, Row>(v: Server<Db>, c: Client, setup: World<Db> -> World<Db>, sql: Sql,
      meaning: Sql -> Meaning<Db, Row>): Execution<Db, Row> {
    if sql in c.cache then
      var (v1, r) := BindAndRun(Prepare(v, setup), c.cache[sql].name, meaning);
      var first := Finish(Execution(v1, c, r, 1));
      if StaleReply(r) then
        Finish(WithParse(Prepare(first.v, setup), c.(cache := c.cache - {sql}), sql, meaning, 2))
      else first
    else Finish(WithParse(Prepare(v, setup), c, sql, meaning, 1))
  }

  function View<Db>(w: World<Db>): Db { if w.Open? then w.work else w.durable }

  /** The statement is refused, or fails with a code that is taken for that, in the world `w` the setup has left. */
  predicate RefusedIn<Db, Row>(v: Server<Db>, c: Client, w: World<Db>, sql: Sql, m: Meaning<Db, Row>) {
    && sql in c.cache
    && var name := c.cache[sql].name;
       name !in v.prepared || ((w.Failed? ==> Exits(m)) && (v.prepared[name].stale || FailsStale(m, View(w))))
  }

  /** Main result for `exec_transaction`, in any state and for any setup: it is the transaction with a fresh Parse,
      begun again, after a refusal, where the refused try has left the database: without the work of any
      transaction that was open before. */
  lemma TransactionRetryIsFresh<Db, Row>(v: Server<Db>, c: Client, setup: World<Db> -> World<Db>, sql: Sql,
      meaning: Sql -> Meaning<Db, Row>)
    requires Inv(v, c, meaning)
    ensures var x := ExecuteTransaction(v, c, setup, sql, meaning);
            var retried := RefusedIn(v, c, setup(v.world), sql, meaning(sql));
            var w := if retried then Idle(setup(v.world).durable) else v.world;
            && (x.v.world, x.reply) == FreshTransaction(w, setup, meaning(sql))
            && x.requests == (if retried then 2 else 1) && Inv(x.v, x.c, meaning)
  {
    var v0 := Prepare(v, setup);
    assert Inv(v0, c, meaning);
    if sql in c.cache {
      FirstAttemptIsFresh(v0, c, sql, meaning);
      var (v1, r) := BindAndRun(v0, c.cache[sql].name, meaning);
      if StaleReply(r) {
        var v2 := Prepare(v1.(world := Committed(v1.world)), setup);
        var c2 := c.(cache := c.cache - {sql});
        assert Inv(v2, c2, meaning);
        ParseAndRunIsFresh(v2, c2, sql, meaning, 2);
        WithParseKeepsInv(v2, c2, sql, meaning, 2);
      }
    } else {
      ParseAndRunIsFresh(v0, c, sql, meaning, 1);
      WithParseKeepsInv(v0, c, sql, meaning, 1);
    }
  }

  /** A transaction begun outside any other, with a setup that commits nothing by itself, always agrees with a fresh
      Parse, whatever the server dropped and whatever the statement raises. */
  lemma TransactionAgrees<Db, Row>(v: Server<Db>, c: Client, setup: World<Db> -> World<Db>, sql: Sql,
      meaning: Sql -> Meaning<Db, Row>)
    requires Inv(v, c, meaning) && v.world.Idle? && setup(v.world).durable == v.world.durable
    ensures var x := ExecuteTransaction(v, c, setup, sql, meaning);
            (x.v.world, x.reply) == FreshTransaction(v.world, setup, meaning(sql))
  {
    TransactionRetryIsFresh(v, c, setup, sql, meaning);
  }

  /** What a statement followed by COMMIT can tell of two worlds. */
  predicate Alike<Db(==)>(w: World<Db>, w': World<Db>) {
    w.Failed? == w'.Failed? && w.durable == w'.durable && View(w) == View(w')
  }

  /** No statement can tell a retried transaction from an undisturbed one exactly when the setup, run again on what
      its first run has committed, comes to the same. */
  lemma RetryUnnoticedExactly<Db(!new)>(w: World<Db>, setup: World<Db> -> World<Db>)
    ensures (forall m: Meaning<Db, Db> ::
                FreshTransaction(Idle(setup(w).durable), setup, m) == FreshTransaction(w, setup, m)) <==>
              Alike(setup(Idle(setup(w).durable)), setup(w))
  {
    var again := Idle(setup(w).durable);
    var show := Plain((db: Db) => Changes(db, [db]));
    if forall m: Meaning<Db, Db> :: FreshTransaction(again, setup, m) == FreshTransaction(w, setup, m) {
      assert FreshTransaction(again, setup, show) == FreshTransaction(w, setup, show);
      var rollback: Meaning<Db, Db> := Rollback;
      assert FreshTransaction(again, setup, rollback) == FreshTransaction(w, setup, rollback);
    }
  }

  /** A setup that commits by itself is run twice: the retry sees its second commit. */
  lemma SetupCommitsTwice(sql: Sql)
    ensures var v, c := Server(Idle(0), map[]), Client(map[sql := Entry(Name(0), 0)], 1);
            var setup := (w: World<int>) => Idle(w.durable + 1);
            && Inv(v, c, Increment)
            && ExecuteTransaction(v, c, setup, sql, Increment).reply == Answer([2])
            && FreshTransaction(v.world, setup, Increment(sql)).1 == Answer([1])
  {
    hide ExecuteTransaction, Name;
    var v, c := Server(Idle(0), map[]), Client(map[sql := Entry(Name(0), 0)], 1);
    var setup := (w: World<int>) => Idle(w.durable + 1);
    forall n: nat | n >= 1 ensures Name(n) != Name(0) { if Name(n) == Name(0) { NameInjective(n, 0); } }
    TransactionRetryIsFresh(v, c, setup, sql, Increment);
  }
}
