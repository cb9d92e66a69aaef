/** Any number of migration runners on one database, serialised by a session-level advisory lock, with crashes of
    clients and losses of sessions at any moment.  A command is sent, processed by the server and answered in three
    separate steps, so a commit may take effect after its client is gone. */
module Migrations {
  import opened Wrappers

  type Version = int
  type Id = nat

  datatype Effect = Up(v: Version) | Down(v: Version)

  datatype Job = Migrate | Revert

  function EffectOf(job: Job, v: Version): Effect { if job == Migrate then Up(v) else Down(v) }

  datatype Cmd =
    | Lock | EnsureTable | ReadTable
    | Begin | Script(e: Effect) | Record(e: Effect) | Commit | Rollback
    | Unlock

  datatype Txn = NoTxn | Open(scripts: seq<Effect>, rows: seq<Effect>) | Failed

  datatype Reply = Fine | Refused | Rows(versions: set<Version>)

  datatype Progress = Running | Crashed | Finished(ok: bool)

  /** One call of `run` or `revert` and its session.  `at` is the last command sent. */
  datatype Runner = Runner(
    job: Job,
    progress: Progress,
    at: Cmd,
    outcome: bool,             // what the call will return once the lock is released
    pos: nat,                  // how many scripts of the plan the client is through with
    // the session on the server
    alive: bool,
    unprocessed: bool,         // the command is on its way
    reply: Option<Reply>,      // the answer is on its way
    txn: Txn,
    // history
    seen: set<Version>,        // the tracking table when it was read
    plan: seq<Version>,        // the scripts to run, in order
    committed: nat)            // how many of them are committed

  datatype Entry = Entry(who: Id, e: Effect)

  datatype State = State(
    files: seq<Version>,       // versions with an up script, sorted
    downs: set<Version>,       // versions with a down script
    table: set<Version>,       // the tracking table
    history: seq<Entry>,       // scripts whose effects are committed, in order
    lock: Option<Id>,
    runners: map<Id, Runner>)

  // ----- the client -----

  function Pending(files: seq<Version>, applied: set<Version>): seq<Version> {
    if files == [] then [] else (if files[0] in applied then [] else [files[0]]) + Pending(files[1..], applied)
  }

  predicate Largest(v: Version, t: set<Version>) { v in t && forall u :: u in t ==> u <= v }

  /** The scripts a call decides to run: every pending one, or the one most recently applied.  None: an error. */
  ghost predicate Decides(files: seq<Version>, downs: set<Version>, job: Job, applied: set<Version>,
      plan: Option<seq<Version>>)
  {
    if job == Migrate then plan == Some(Pending(files, applied))
    else if applied == {} then plan == Some([])
    else exists v :: Largest(v, applied) && plan == if v in files && v in downs then Some([v]) else None
  }

  function Send(r: Runner, c: Cmd): Runner {
    if r.alive then r.(at := c, unprocessed := true, reply := None) else r.(progress := Finished(false), reply := None)
  }

  function GiveUp(r: Runner): Runner { Send(r.(outcome := false), Unlock) }

  /** The head of the loop over the scripts; the script's file may turn out to be unreadable. */
  function NextScript(r: Runner, readable: bool): Runner {
    if r.pos >= |r.plan| then Send(r.(outcome := true), Unlock)
    else if !readable then GiveUp(r)
    else Send(r, Begin)
  }

  /** What the call does with the answer to its last command. */
  function Continue(r: Runner, answer: Reply, plan: Option<seq<Version>>, readable: bool): Runner {
    match r.at
    case Lock => if answer == Refused then r.(progress := Finished(false), reply := None) else Send(r, EnsureTable)
    case EnsureTable => if answer == Refused then GiveUp(r) else Send(r, ReadTable)
    case ReadTable =>
      if answer.Rows? && plan.Some?
      then NextScript(r.(seen := answer.versions, plan := plan.value, pos := 0), readable)
      else GiveUp(r)
    case Begin => if answer == Refused || r.pos >= |r.plan| then GiveUp(r)
        else Send(r, Script(EffectOf(r.job, r.plan[r.pos])))
    case Script(e) => if answer == Refused then Send(r, Rollback) else Send(r, Record(e))
    case Rollback => GiveUp(r)
    case Record(_) => if answer == Refused then GiveUp(r) else Send(r, Commit)
    case Commit => if answer == Refused || r.pos >= |r.plan| then GiveUp(r)
        else NextScript(r.(pos := r.pos + 1), readable)
    case Unlock => r.(progress := Finished(r.outcome), reply := None)
  }

  // ----- the server -----

  function Play(t: set<Version>, rows: seq<Effect>): set<Version> {
    if rows == [] then t else
      var before := Play(t, rows[..|rows| - 1]);
      match rows[|rows| - 1] case Up(v) => before + {v} case Down(v) => before - {v}
  }

  function Tagged(id: Id, es: seq<Effect>): seq<Entry> {
    if es == [] then [] else Tagged(id, es[..|es| - 1]) + [Entry(id, es[|es| - 1])]
  }

  function Answer(r: Runner, reply: Reply, txn: Txn): Runner {
    r.(unprocessed := false, reply := Some(reply), txn := txn)
  }

  /** Whether the server can take up the command now: an advisory lock is waited for. */
  predicate CanProcess(s: State, id: Id) {
    && id in s.runners && s.runners[id].alive && s.runners[id].unprocessed
    && (s.runners[id].at == Lock ==> s.lock == None || s.lock == Some(id))
  }

  /** Any statement may fail; inserting a version that is already recorded must. */
  function Process(s: State, id: Id, fails: bool): State
    requires CanProcess(s, id)
  {
    var r := s.runners[id];
    var refuse := fails || (r.txn.Failed? && r.at != Commit && r.at != Rollback);
    var aborted := if r.txn == NoTxn then NoTxn else Failed;
    match r.at
    case Lock => if refuse then Put(s, id, Answer(r, Refused, aborted))
        else Put(s.(lock := Some(id)), id, Answer(r, Fine, r.txn))
    case EnsureTable => Put(s, id, if refuse then Answer(r, Refused, aborted) else Answer(r, Fine, r.txn))
    case ReadTable => Put(s, id, if refuse then Answer(r, Refused, aborted) else Answer(r, Rows(s.table), r.txn))
    case Begin => Put(s, id, if refuse then Answer(r, Refused, aborted)
        else Answer(r, Fine, if r.txn == NoTxn then Open([], []) else r.txn))
    case Script(e) =>
      Put(s, id, if refuse then Answer(r, Refused, aborted)
                 else Answer(r, Fine, if r.txn.Open? then r.txn.(scripts := r.txn.scripts + [e]) else r.txn))
    case Record(e) =>
      Put(s, id, if refuse || !r.txn.Open? || (e.Up? && e.v in Play(s.table, r.txn.rows))
          then Answer(r, Refused, aborted)
                 else Answer(r, Fine, r.txn.(rows := r.txn.rows + [e])))
    case Commit =>
      if fails then Put(s, id, Answer(r, Refused, NoTxn))
      else if r.txn.Open? then
        Put(s.(table := Play(s.table, r.txn.rows), history := s.history + Tagged(id, r.txn.scripts)),
            id, Answer(r, Fine, NoTxn).(committed := r.committed + 1))
      else Put(s, id, Answer(r, Fine, NoTxn))
    case Rollback => Put(s, id, Answer(r, if fails then Refused else Fine, NoTxn))
    case Unlock =>
      if refuse then Put(s, id, Answer(r, Refused, aborted))
      else Put(if s.lock == Some(id) then s.(lock := None) else s, id, Answer(r, Fine, r.txn))
  }

  function Put(s: State, id: Id, r: Runner): State { s.(runners := s.runners[id := r]) }

  // ----- steps -----

  function NewRunner(job: Job): Runner {
    Runner(job, Running, Lock, false, 0, true, true, None, NoTxn, {}, [], 0)
  }

  ghost predicate Start(s: State, t: State) {
    exists id: Id, job :: id !in s.runners && t == Put(s, id, NewRunner(job))
  }

  ghost predicate ServerStep(s: State, t: State) {
    exists id: Id, fails :: CanProcess(s, id) && t == Process(s, id, fails)
  }

  ghost predicate CanReceive(s: State, id: Id) {
    id in s.runners && s.runners[id].progress == Running && s.runners[id].reply.Some?
  }

  ghost predicate Receive(s: State, t: State) {
    exists id: Id, plan, readable ::
      && CanReceive(s, id)
      && Decided(s, s.runners[id], plan)
      && t == Put(s, id, Continue(s.runners[id], s.runners[id].reply.value, plan, readable))
  }

  /** The plan is what the call decides from the rows it was answered. */
  ghost predicate Decided(s: State, r: Runner, plan: Option<seq<Version>>) {
    r.at == ReadTable && r.reply.Some? && r.reply.value.Rows? ==>
      Decides(s.files, s.downs, r.job, r.reply.value.versions, plan)
  }

  ghost predicate ClientCrashes(s: State, t: State) {
    exists id: Id :: id in s.runners && s.runners[id].progress == Running
        && t == Put(s, id, s.runners[id].(progress := Crashed))
  }

  /** The session ends, noticed by the client or not: its transaction is rolled back and its lock released. */
  ghost predicate SessionEnds(s: State, t: State) {
    exists id: Id ::
      && id in s.runners && s.runners[id].alive
      && t == Put(if s.lock == Some(id) then s.(lock := None) else s,
                  id, s.runners[id].(alive := false, unprocessed := false, txn := NoTxn))
  }

  ghost predicate ClientNotices(s: State, t: State) {
    exists id: Id ::
      && id in s.runners && s.runners[id].progress == Running && !s.runners[id].alive && s.runners[id].reply == None
      && t == Put(s, id, s.runners[id].(progress := Finished(false)))
  }

  ghost predicate Next(s: State, t: State) {
    Start(s, t) || ServerStep(s, t) || Receive(s, t) || ClientCrashes(s, t) || SessionEnds(s, t) || ClientNotices(s, t)
  }

  ghost predicate Ascending(vs: seq<Version>) { forall i, j :: 0 <= i < j < |vs| ==> vs[i] < vs[j] }

  ghost predicate Init(s: State) {
    Ascending(s.files) && s.table == {} && s.history == [] && s.lock == None && s.runners == map[]
  }

  // ----- what the history means -----

  /** The versions whose up script is committed and not reverted; None if a script was committed twice without a
      revert in between, or reverted without having been applied. */
  function Replay(h: seq<Entry>): Option<set<Version>> {
    if h == [] then Some({}) else
      match Replay(h[..|h| - 1])
      case None => None
      case Some(t) =>
        match h[|h| - 1].e
        case Up(v) => if v in t then None else Some(t + {v})
        case Down(v) => if v in t then Some(t - {v}) else None
  }

  /** The effects one runner committed, in order. */
  function Mine(h: seq<Entry>, id: Id): seq<Effect> {
    if h == [] then [] else Mine(h[..|h| - 1], id) + if h[|h| - 1].who == id then [h[|h| - 1].e] else []
  }

  function Effects(job: Job, vs: seq<Version>): seq<Effect> {
    if vs == [] then [] else Effects(job, vs[..|vs| - 1]) + [EffectOf(job, vs[|vs| - 1])]
  }

  lemma {:induction false} EffectsCount(job: Job, vs: seq<Version>)
    ensures |Effects(job, vs)| == |vs|
  {
    if vs != [] { EffectsCount(job, vs[..|vs| - 1]); }
  }

  lemma {:induction false} EffectsAt(job: Job, vs: seq<Version>, i: nat)
    requires i < |vs|
    ensures |Effects(job, vs)| == |vs| && Effects(job, vs)[i] == EffectOf(job, vs[i])
    decreases |vs|
  {
    EffectsCount(job, vs);
    EffectsCount(job, vs[..|vs| - 1]);
    if i < |vs| - 1 { EffectsAt(job, vs[..|vs| - 1], i); }
  }

  // ----- invariant -----

  predicate Working(c: Cmd) { c == Begin || c.Script? || c.Record? || c == Commit || c == Rollback }

  predicate Planned(c: Cmd) { Working(c) || c == Unlock }

  /** The lock was taken and not given back. */
  predicate HoldsLock(r: Runner) {
    r.alive && (r.at != Lock || r.reply == Some(Fine)) && !(r.at == Unlock && !r.unprocessed)
  }

  /** The transaction state in which the server has, or will find, the last command. */
  predicate TxnMatches(r: Runner) {
    match r.at
    case Lock => r.txn == NoTxn
    case EnsureTable => r.txn == NoTxn
    case ReadTable => r.txn == NoTxn
    case Begin => r.txn == if r.reply == Some(Fine) then Open([], []) else NoTxn
    case Script(e) =>
      r.txn == if r.unprocessed then Open([], []) else if r.reply == Some(Fine) then Open([e], []) else Failed
    case Record(e) =>
      r.txn == if r.unprocessed then Open([e], []) else if r.reply == Some(Fine) then Open([e], [e]) else Failed
    case Commit =>
      if r.unprocessed then
        r.pos < |r.plan| && r.txn == Open([EffectOf(r.job, r.plan[r.pos])], [EffectOf(r.job, r.plan[r.pos])])
      else r.txn == NoTxn
    case Rollback => r.txn == if r.unprocessed then Failed else NoTxn
    case Unlock => r.txn == NoTxn || r.txn == Failed
  }

  /** A commit that took effect although the client has not heard of it yet. */
  function Unheard(r: Runner): nat { if r.at == Commit && r.reply == Some(Fine) then 1 else 0 }

  ghost predicate PlanInv(r: Runner) {
    && Ascending(r.plan) && Unheard(r) <= r.committed <= |r.plan|
    && (r.alive || r.progress == Running ==> Planned(r.at) || r.plan == [])
    && (r.alive ==> r.pos + Unheard(r) == r.committed)
    && (r.at == Unlock && r.outcome ==> r.committed == |r.plan|)
    && (r.progress == Finished(true) ==> r.committed == |r.plan|)
  }

  /** While a script is being run, it is the first one still to do. */
  ghost predicate StageInv(r: Runner) {
    && (Working(r.at) && r.alive ==> r.pos < |r.plan|)
    && (r.at.Script? && r.alive ==> r.at.e == EffectOf(r.job, r.plan[r.pos]))
    && (r.at.Record? && r.alive ==> r.at.e == EffectOf(r.job, r.plan[r.pos]))
    && (r.alive && r.reply.Some? ==> !r.unprocessed)
    && (r.reply.Some? && r.reply.value.Rows? ==> r.at == ReadTable)
  }

  /** What the holder of the lock still has to do fits the table. */
  ghost predicate Fits(r: Runner, table: set<Version>) {
    && (forall i :: r.committed <= i < |r.plan| ==> (r.plan[i] in table <==> r.job == Revert))
    && (r.at == ReadTable && r.reply.Some? && r.reply.value.Rows? ==> r.reply.value.versions == table)
  }

  ghost predicate RunnerInv(lock: Option<Id>, table: set<Version>, id: Id, r: Runner) {
    && PlanInv(r) && StageInv(r)
    && (r.alive ==> TxnMatches(r))
    && (HoldsLock(r) ==> lock == Some(id) && Fits(r, table))
  }

  /** The runner committed the first `committed` scripts of its plan and nothing else. */
  ghost predicate HistoryOf(history: seq<Entry>, id: Id, job: Job, plan: seq<Version>, committed: nat) {
    committed <= |plan| && Mine(history, id) == Effects(job, plan[..committed])
  }

  /** Whoever has a plan, or is through with one, decided it from the rows of the table. */
  ghost predicate PlanOf(s: State, r: Runner) {
    r.plan != [] || r.outcome || r.progress == Finished(true) ==> Decides(s.files, s.downs, r.job, r.seen, Some(r.plan))
  }

  ghost predicate Recorded(s: State, id: Id, r: Runner) {
    HistoryOf(s.history, id, r.job, r.plan, r.committed) && PlanOf(s, r)
  }

  ghost predicate Shared(s: State) {
    && Ascending(s.files)
    && Replay(s.history) == Some(s.table)
    && (s.lock.Some? ==> s.lock.value in s.runners && s.runners[s.lock.value].alive)
  }

  ghost predicate Inv(s: State) {
    && Shared(s)
    && (forall id :: id in s.runners ==>
          RunnerInv(s.lock, s.table, id, s.runners[id]) && Recorded(s, id, s.runners[id]))
    && (forall id :: id !in s.runners ==> Mine(s.history, id) == [])
  }

  // ----- runners do not disturb each other -----

  lemma MineAppend(h: seq<Entry>, e: Entry, id: Id)
    ensures Mine(h + [e], id) == Mine(h, id) + if e.who == id then [e.e] else []
  {
    assert (h + [e])[..|h|] == h;
  }

  lemma ReplayAppend(h: seq<Entry>, e: Entry)
    ensures Replay(h + [e]) ==
      match Replay(h)
      case None => None
      case Some(t) =>
        match e.e
        case Up(v) => if v in t then None else Some(t + {v})
        case Down(v) => if v in t then Some(t - {v}) else None
  {
    assert (h + [e])[..|h|] == h;
  }

  /** What a step of runner `id` may change. */
  ghost predicate OnlyBy(s: State, t: State, id: Id) {
    && t.files == s.files && t.downs == s.downs && id in t.runners && t.runners == s.runners[id := t.runners[id]]
    && ((t.lock == s.lock && t.table == s.table) || s.lock == None || s.lock == Some(id))
    && (t.history == s.history || exists e :: t.history == s.history + [Entry(id, e)])
  }

  lemma OtherMine(s: State, t: State, id: Id, j: Id)
    requires OnlyBy(s, t, id) && j != id
    ensures Mine(t.history, j) == Mine(s.history, j)
  {
    if t.history != s.history {
      var e :| t.history == s.history + [Entry(id, e)];
      MineAppend(s.history, Entry(id, e), j);
    }
  }

  /** A session that does not hold the lock does not care about the table. */
  lemma OtherRunner(lock: Option<Id>, table: set<Version>, lock': Option<Id>, table': set<Version>, id: Id, j: Id,
      r: Runner)
    requires RunnerInv(lock, table, j, r) && j != id
    requires (lock' == lock && table' == table) || lock == None || lock == Some(id)
    ensures RunnerInv(lock', table', j, r)
  {
  }

  /** Enough for the invariant: the moving runner's own part and the shared state. */
  lemma Combine(s: State, t: State, id: Id)
    requires Inv(s) && OnlyBy(s, t, id) && Shared(t)
    requires RunnerInv(t.lock, t.table, id, t.runners[id]) && Recorded(t, id, t.runners[id])
    ensures Inv(t)
  {
    forall j | j != id
      ensures j in t.runners ==> RunnerInv(t.lock, t.table, j, t.runners[j]) && Recorded(t, j, t.runners[j])
      ensures j !in t.runners ==> Mine(t.history, j) == []
    {
      OtherMine(s, t, id, j);
      if j in s.runners { OtherRunner(s.lock, s.table, t.lock, t.table, id, j, s.runners[j]); }
    }
  }

  /** The same for a step that leaves the shared state and the runner's history alone. */
  lemma CombineLocal(s: State, id: Id, r: Runner)
    requires Inv(s) && id in s.runners && RunnerInv(s.lock, s.table, id, r)
    requires Recorded(s, id, r) && r.alive == s.runners[id].alive
    ensures Inv(Put(s, id, r))
  {
    var t := Put(s, id, r);
    assert t.runners[id] == r;
    Combine(s, t, id);
  }

  // ----- the server's steps -----

  /** Processing anything but a commit leaves the table and the history alone. */
  lemma ProcessShape(s: State, id: Id, fails: bool)
    requires CanProcess(s, id) && s.runners[id].at != Commit
    ensures var t := Process(s, id, fails); var r, r' := s.runners[id], t.runners[id];
            && t == s.(lock := t.lock, runners := s.runners[id := r'])
            && r' == r.(unprocessed := false, reply := r'.reply, txn := r'.txn) && r'.reply.Some?
            && (r.at == Lock ==> t.lock == if r'.reply == Some(Fine) then Some(id) else s.lock)
            && (r.at == Unlock ==> t.lock == if r'.reply == Some(Fine) && s.lock == Some(id) then None else s.lock)
            && (r.at != Lock && r.at != Unlock ==> t.lock == s.lock)
            && (r'.reply.value.Rows? ==> r.at == ReadTable && r'.reply == Some(Rows(s.table)))
  {
  }

  lemma ProcessTxn(s: State, id: Id, fails: bool)
    requires CanProcess(s, id) && s.runners[id].at != Commit && StageInv(s.runners[id]) && TxnMatches(s.runners[id])
    ensures TxnMatches(Process(s, id, fails).runners[id])
  {
    assert s.runners[id].reply == None;
  }

  lemma ProcessedRunner(lock: Option<Id>, lock': Option<Id>, table: set<Version>, id: Id, r: Runner, r': Runner)
    requires RunnerInv(lock, table, id, r) && r.alive && r.unprocessed && r.reply == None && r.at != Commit
    requires r' == r.(unprocessed := false, reply := r'.reply, txn := r'.txn) && r'.reply.Some? && TxnMatches(r')
    requires r.at == Lock ==> lock' == if r'.reply == Some(Fine) then Some(id) else lock
    requires r.at != Lock && r.at != Unlock ==> lock' == lock
    requires r'.reply.value.Rows? ==> r.at == ReadTable && r'.reply == Some(Rows(table))
    ensures RunnerInv(lock', table, id, r')
  {
  }

  lemma ProcessInv(s: State, id: Id, fails: bool)
    requires Inv(s) && CanProcess(s, id) && s.runners[id].at != Commit
    ensures Inv(Process(s, id, fails))
  {
    var t := Process(s, id, fails);
    var r := s.runners[id];
    assert RunnerInv(s.lock, s.table, id, r) && Recorded(s, id, r) && r.reply == None;
    ProcessShape(s, id, fails);
    ProcessTxn(s, id, fails);
    ProcessedRunner(s.lock, t.lock, s.table, id, r, t.runners[id]);
    Combine(s, t, id);
  }

  lemma CommittedRunner(lock: Option<Id>, table: set<Version>, table': set<Version>, id: Id, r: Runner)
    requires RunnerInv(lock, table, id, r) && HoldsLock(r)
    requires r.alive && r.unprocessed && r.reply == None && r.at == Commit && r.committed < |r.plan|
    requires var v := r.plan[r.committed]; table' == if r.job == Migrate then table + {v} else table - {v}
    ensures RunnerInv(lock, table', id, Answer(r, Fine, NoTxn).(committed := r.committed + 1))
  {
  }

  lemma FailedCommit(lock: Option<Id>, table: set<Version>, id: Id, r: Runner)
    requires RunnerInv(lock, table, id, r) && r.alive && r.unprocessed && r.reply == None && r.at == Commit
    ensures RunnerInv(lock, table, id, Answer(r, Refused, NoTxn))
  {
  }

  /** The transaction about to be committed holds the plan's next script and its row. */
  lemma AboutToCommit(lock: Option<Id>, table: set<Version>, id: Id, r: Runner)
    requires RunnerInv(lock, table, id, r) && r.alive && r.unprocessed && r.at == Commit
    ensures r.reply == None && HoldsLock(r) && lock == Some(id) && r.committed < |r.plan|
    ensures var v := r.plan[r.committed]; var e := EffectOf(r.job, v);
            r.txn == Open([e], [e]) && (v in table <==> r.job == Revert)
  {
  }

  lemma PlayOne(table: set<Version>, e: Effect)
    ensures Play(table, [e]) == if e.Up? then table + {e.v} else table - {e.v}
  {
    assert [e][..0] == [];
  }

  lemma TagOne(id: Id, e: Effect)
    ensures Tagged(id, [e]) == [Entry(id, e)]
  {
    assert [e][..0] == [];
  }

  lemma HistoryGrows(history: seq<Entry>, id: Id, job: Job, plan: seq<Version>, committed: nat)
    requires committed < |plan| && HistoryOf(history, id, job, plan, committed)
    ensures HistoryOf(history + [Entry(id, EffectOf(job, plan[committed]))], id, job, plan, committed + 1)
  {
    MineAppend(history, Entry(id, EffectOf(job, plan[committed])), id);
    assert plan[..committed + 1][..committed] == plan[..committed];
  }

  lemma CommitShape(s: State, id: Id)
    requires CanProcess(s, id) && s.runners[id].at == Commit
    requires exists e :: s.runners[id].txn == Open([e], [e])
    ensures var r, t := s.runners[id], Process(s, id, false);
            var e := r.txn.rows[0];
            && t.table == (if e.Up? then s.table + {e.v} else s.table - {e.v})
               && t.history == s.history + [Entry(id, e)]
            && t == s.(table := t.table, history := t.history, runners := s.runners[id := t.runners[id]])
            && t.runners[id] == Answer(r, Fine, NoTxn).(committed := r.committed + 1)
  {
    var e :| s.runners[id].txn == Open([e], [e]);
    PlayOne(s.table, e);
    TagOne(id, e);
  }

  lemma CommitInv(s: State, id: Id, fails: bool)
    requires Inv(s) && CanProcess(s, id) && s.runners[id].at == Commit
    ensures Inv(Process(s, id, fails))
  {
    hide Decides, RunnerInv, Recorded;
    var r := s.runners[id];
    assert RunnerInv(s.lock, s.table, id, r) && Recorded(s, id, r);
    AboutToCommit(s.lock, s.table, id, r);
    if fails {
      FailedCommit(s.lock, s.table, id, r);
      AnswerRecorded(s, id, r);
      CombineLocal(s, id, Answer(r, Refused, NoTxn));
    } else {
      CommitTook(s, id, r);
    }
  }

  lemma AnswerRecorded(s: State, id: Id, r: Runner)
    requires Recorded(s, id, r)
    ensures Recorded(s, id, Answer(r, Refused, NoTxn))
  {
    hide Decides;
  }

  lemma CommitTook(s: State, id: Id, r: Runner)
    requires Inv(s) && CanProcess(s, id) && r == s.runners[id] && r.at == Commit
    ensures Inv(Process(s, id, false))
  {
    hide Decides, RunnerInv, Recorded;
    assert RunnerInv(s.lock, s.table, id, r) && Recorded(s, id, r);
    AboutToCommit(s.lock, s.table, id, r);
    var t := Process(s, id, false);
    var e := EffectOf(r.job, r.plan[r.committed]);
    CommitShape(s, id);
    ReplayAppend(s.history, Entry(id, e));
    CommittedRunner(s.lock, s.table, t.table, id, r);
    CommitRecorded(s, t, id, r, t.runners[id]);
    Combine(s, t, id);
  }

  lemma CommitRecorded(s: State, t: State, id: Id, r: Runner, r': Runner)
    requires Recorded(s, id, r) && t.files == s.files && t.downs == s.downs && r.committed < |r.plan|
    requires t.history == s.history + [Entry(id, EffectOf(r.job, r.plan[r.committed]))]
    requires r' == r.(unprocessed := r'.unprocessed, reply := r'.reply, txn := r'.txn, committed := r.committed + 1)
    ensures Recorded(t, id, r')
  {
    hide Decides;
    HistoryGrows(s.history, id, r.job, r.plan, r.committed);
  }

  // ----- the client's steps -----

  lemma {:induction false} PendingIs(files: seq<Version>, applied: set<Version>)
    requires Ascending(files)
    ensures Ascending(Pending(files, applied))
    ensures forall v :: v in Pending(files, applied) <==> v in files && v !in applied
  {
    if files != [] {
      var rest := Pending(files[1..], applied);
      PendingIs(files[1..], applied);
      assert forall v :: v in files <==> v == files[0] || v in files[1..];
      forall i | 0 <= i < |rest| ensures files[0] < rest[i] {
        assert rest[i] in rest && rest[i] in files[1..];
      }
    }
  }

  lemma PlanFits(s: State, job: Job, plan: seq<Version>)
    requires Ascending(s.files) && Decides(s.files, s.downs, job, s.table, Some(plan))
    ensures forall i :: 0 <= i < |plan| ==> (plan[i] in s.table <==> job == Revert)
  {
    if job == Migrate {
      PendingIs(s.files, s.table);
      forall i | 0 <= i < |plan| ensures plan[i] !in s.table { assert plan[i] in plan; }
    }
  }

  lemma PlanAscends(s: State, job: Job, applied: set<Version>, plan: seq<Version>)
    requires Ascending(s.files) && Decides(s.files, s.downs, job, applied, Some(plan))
    ensures Ascending(plan)
  {
    if job == Migrate { PendingIs(s.files, applied); }
  }

  lemma DeadShape(r: Runner, plan: Option<seq<Version>>, readable: bool)
    requires !r.alive && r.reply.Some? && r.at != ReadTable
    ensures var r' := Continue(r, r.reply.value, plan, readable);
            && r' == r.(progress := r'.progress, reply := None, pos := r'.pos, outcome := r'.outcome)
            && (r.at == Unlock ==> r'.progress == Finished(r.outcome) && r'.outcome == r.outcome)
            && (r.at != Unlock ==> r'.progress == Finished(false))
  {
  }

  lemma EndedRunner(lock: Option<Id>, table: set<Version>, id: Id, r: Runner, r': Runner)
    requires RunnerInv(lock, table, id, r) && !r.alive && r'.progress != Running
    requires r' == r.(progress := r'.progress, reply := None, pos := r'.pos, outcome := r'.outcome)
    requires r'.progress == Finished(true) || (r.at == Unlock && r'.outcome) ==> r.at == Unlock && r.outcome
    ensures RunnerInv(lock, table, id, r')
  {
  }

  /** On a lost session the call ends, whatever the answer was. */
  lemma ContinueDead(lock: Option<Id>, table: set<Version>, id: Id, r: Runner, plan: Option<seq<Version>>,
      readable: bool)
    requires RunnerInv(lock, table, id, r) && !r.alive && r.reply.Some? && r.progress == Running && r.at != ReadTable
    ensures RunnerInv(lock, table, id, Continue(r, r.reply.value, plan, readable))
  {
    DeadShape(r, plan, readable);
    EndedRunner(lock, table, id, r, Continue(r, r.reply.value, plan, readable));
  }

  lemma GiveUpInv(lock: Option<Id>, table: set<Version>, id: Id, r: Runner)
    requires RunnerInv(lock, table, id, r) && r.alive && r.reply.Some? && Unheard(r) == 0
    requires HoldsLock(r) && (r.txn == NoTxn || r.txn == Failed) && r.progress == Running
    ensures RunnerInv(lock, table, id, GiveUp(r))
  {
  }

  lemma SendSetup(lock: Option<Id>, table: set<Version>, id: Id, r: Runner, c: Cmd)
    requires RunnerInv(lock, table, id, r) && r.alive && r.reply == Some(Fine) && r.progress == Running
    requires (r.at == Lock && c == EnsureTable) || (r.at == EnsureTable && c == ReadTable)
    ensures RunnerInv(lock, table, id, Send(r, c))
  {
    assert Unheard(r) == 0 && r.plan == [] && r.committed == 0;
  }

  lemma LockRefused(lock: Option<Id>, table: set<Version>, id: Id, r: Runner)
    requires RunnerInv(lock, table, id, r) && r.alive && r.reply == Some(Refused) && r.progress == Running
        && r.at == Lock
    ensures RunnerInv(lock, table, id, r.(progress := Finished(false), reply := None))
  {
  }

  lemma ContinueSetup(lock: Option<Id>, table: set<Version>, id: Id, r: Runner, plan: Option<seq<Version>>,
      readable: bool)
    requires RunnerInv(lock, table, id, r) && r.alive && r.reply.Some? && r.progress == Running
    requires r.at == Lock || r.at == EnsureTable
    ensures RunnerInv(lock, table, id, Continue(r, r.reply.value, plan, readable))
  {
    assert !r.reply.value.Rows?;
    if r.at == Lock {
      if r.reply.value == Fine { SendSetup(lock, table, id, r, EnsureTable); } else { LockRefused(lock, table, id, r); }
    } else {
      if r.reply.value == Fine { SendSetup(lock, table, id, r, ReadTable); } else { GiveUpInv(lock, table, id, r); }
    }
  }

  lemma ContinueEnd(lock: Option<Id>, table: set<Version>, id: Id, r: Runner, plan: Option<seq<Version>>,
      readable: bool)
    requires RunnerInv(lock, table, id, r) && r.alive && r.reply.Some? && r.progress == Running
    requires r.at == Unlock || r.at == Rollback
    ensures RunnerInv(lock, table, id, Continue(r, r.reply.value, plan, readable))
  {
    if r.at == Rollback { GiveUpInv(lock, table, id, r); }
  }

  lemma ContinueScript(lock: Option<Id>, table: set<Version>, id: Id, r: Runner, plan: Option<seq<Version>>,
      readable: bool)
    requires RunnerInv(lock, table, id, r) && r.alive && r.reply.Some? && r.progress == Running
    requires r.at == Begin || r.at.Script? || r.at.Record?
    ensures RunnerInv(lock, table, id, Continue(r, r.reply.value, plan, readable))
  {
    if r.reply.value == Refused && !r.at.Script? { GiveUpInv(lock, table, id, r); }
  }

  lemma ContinueAfterCommit(lock: Option<Id>, table: set<Version>, id: Id, r: Runner, plan: Option<seq<Version>>,
      readable: bool)
    requires RunnerInv(lock, table, id, r) && r.alive && r.reply.Some? && r.progress == Running && r.at == Commit
    ensures RunnerInv(lock, table, id, Continue(r, r.reply.value, plan, readable))
  {
    if r.reply.value == Refused {
      GiveUpInv(lock, table, id, r);
    }
  }

  /** The plan is adopted: nothing of it is committed, and all of it fits the table. */
  lemma AdoptPlan(lock: Option<Id>, table: set<Version>, id: Id, r: Runner, seen: set<Version>, plan: seq<Version>,
      readable: bool)
    requires RunnerInv(lock, table, id, r) && r.progress == Running && r.at == ReadTable && r.reply.Some?
    requires Ascending(plan) && r.plan == [] && (r.alive ==> forall i :: 0 <= i < |plan| ==>
               (plan[i] in table <==> r.job == Revert))
    ensures RunnerInv(lock, table, id, NextScript(r.(seen := seen, plan := plan, pos := 0), readable))
  {
    if r.alive { AdoptAlive(lock, table, id, r, seen, plan, readable); }
    else { AdoptDead(lock, table, id, r, seen, plan, readable); }
  }

  lemma AdoptDead(lock: Option<Id>, table: set<Version>, id: Id, r: Runner, seen: set<Version>, plan: seq<Version>,
      readable: bool)
    requires RunnerInv(lock, table, id, r) && r.progress == Running && r.at == ReadTable && r.reply.Some?
    requires Ascending(plan) && r.plan == [] && !r.alive
    ensures RunnerInv(lock, table, id, NextScript(r.(seen := seen, plan := plan, pos := 0), readable))
  {
  }

  lemma AdoptAlive(lock: Option<Id>, table: set<Version>, id: Id, r: Runner, seen: set<Version>, plan: seq<Version>,
      readable: bool)
    requires RunnerInv(lock, table, id, r) && r.progress == Running && r.at == ReadTable && r.reply.Some?
    requires Ascending(plan) && r.plan == [] && r.alive && forall i :: 0 <= i < |plan| ==>
               (plan[i] in table <==> r.job == Revert)
    ensures RunnerInv(lock, table, id, NextScript(r.(seen := seen, plan := plan, pos := 0), readable))
  {
    assert r.committed == 0 && HoldsLock(r);
  }

  lemma ContinueAfterRead(s: State, id: Id, r: Runner, plan: Option<seq<Version>>, readable: bool)
    requires Ascending(s.files) && RunnerInv(s.lock, s.table, id, r) && r.reply.Some? && r.progress == Running
        && r.at == ReadTable
    requires Decided(s, r, plan)
    ensures RunnerInv(s.lock, s.table, id, Continue(r, r.reply.value, plan, readable))
  {
    var answer := r.reply.value;
    assert r.plan == [] && r.committed == 0;
    if answer.Rows? && plan.Some? {
      PlanAscends(s, r.job, answer.versions, plan.value);
      if r.alive { PlanFits(s, r.job, plan.value); }
      AdoptPlan(s.lock, s.table, id, r, answer.versions, plan.value, readable);
    } else if r.alive {
      GiveUpInv(s.lock, s.table, id, r);
    } else {
      EndedRunner(s.lock, s.table, id, r, GiveUp(r));
    }
  }

  /** Receiving an answer changes nothing that is recorded on the server, and only the table's rows make a plan. */
  ghost predicate KeepsRecord(r: Runner, r': Runner, plan: Option<seq<Version>>)
    requires r.reply.Some?
  {
    && r'.alive == r.alive && r'.job == r.job && r'.committed == r.committed
    && (if r.at == ReadTable && r.reply.value.Rows? && plan.Some?
        then r'.plan == plan.value && r'.seen == r.reply.value.versions
        else
          && r'.plan == r.plan && r'.seen == r.seen
          && (r'.outcome || r'.progress == Finished(true) ==>
                r.outcome || r.progress == Finished(true) || r.plan != []))
  }

  lemma ContinueRecords(r: Runner, plan: Option<seq<Version>>, readable: bool)
    requires r.reply.Some? && PlanInv(r) && StageInv(r)
    ensures KeepsRecord(r, Continue(r, r.reply.value, plan, readable), plan)
  {
    if r.at == ReadTable { ReadRecords(r, plan, readable); }
  }

  lemma ReadRecords(r: Runner, plan: Option<seq<Version>>, readable: bool)
    requires r.reply.Some? && r.at == ReadTable
    ensures KeepsRecord(r, Continue(r, r.reply.value, plan, readable), plan)
  {
  }

  lemma ContinueInv(s: State, id: Id, r: Runner, plan: Option<seq<Version>>, readable: bool)
    requires Ascending(s.files) && RunnerInv(s.lock, s.table, id, r) && r.reply.Some? && r.progress == Running
        && Decided(s, r, plan)
    ensures RunnerInv(s.lock, s.table, id, Continue(r, r.reply.value, plan, readable))
  {
    if r.at == ReadTable { ContinueAfterRead(s, id, r, plan, readable); }
    else if !r.alive { ContinueDead(s.lock, s.table, id, r, plan, readable); }
    else if r.at == Commit { ContinueAfterCommit(s.lock, s.table, id, r, plan, readable); }
    else if r.at == Begin || r.at.Script? || r.at.Record? { ContinueScript(s.lock, s.table, id, r, plan, readable); }
    else if r.at == Unlock || r.at == Rollback { ContinueEnd(s.lock, s.table, id, r, plan, readable); }
    else { ContinueSetup(s.lock, s.table, id, r, plan, readable); }
  }

  lemma ReceiveInv(s: State, t: State)
    requires Inv(s) && Receive(s, t)
    ensures Inv(t)
  {
    var id: Id, plan, readable :|
      && CanReceive(s, id) && Decided(s, s.runners[id], plan)
      && t == Put(s, id, Continue(s.runners[id], s.runners[id].reply.value, plan, readable));
    ReceivedInv(s, id, s.runners[id], plan, readable);
  }

  lemma ReceivedInv(s: State, id: Id, r: Runner, plan: Option<seq<Version>>, readable: bool)
    requires Inv(s) && CanReceive(s, id) && r == s.runners[id] && Decided(s, r, plan)
    ensures Inv(Put(s, id, Continue(r, r.reply.value, plan, readable)))
  {
    var r' := Continue(r, r.reply.value, plan, readable);
    ContinueInv(s, id, r, plan, readable);
    ReceivedRecord(s, id, r, plan, readable);
    ContinueRecords(r, plan, readable);
    CombineLocal(s, id, r');
  }

  lemma ReceivedRecord(s: State, id: Id, r: Runner, plan: Option<seq<Version>>, readable: bool)
    requires Ascending(s.files) && Recorded(s, id, r) && RunnerInv(s.lock, s.table, id, r) && r.reply.Some?
        && r.progress == Running
    requires Decided(s, r, plan)
    ensures Recorded(s, id, Continue(r, r.reply.value, plan, readable))
  {
    ContinueRecords(r, plan, readable);
    if r.at == ReadTable && r.reply.value.Rows? && plan.Some? {
      assert r.plan == [] && r.committed == 0 && plan.value[..0] == r.plan[..0];
      PlanAscends(s, r.job, r.reply.value.versions, plan.value);
    }
  }

  lemma NothingYet(history: seq<Entry>, id: Id, job: Job)
    requires Mine(history, id) == []
    ensures HistoryOf(history, id, job, [], 0)
  {
    var none: seq<Version> := [];
    assert none[..0] == none;
  }

  lemma NewRunnerFits(lock: Option<Id>, table: set<Version>, id: Id, job: Job)
    ensures RunnerInv(lock, table, id, NewRunner(job))
  {
    assert !HoldsLock(NewRunner(job));
  }

  lemma FreshRunner(s: State, id: Id, job: Job)
    requires Mine(s.history, id) == []
    ensures RunnerInv(s.lock, s.table, id, NewRunner(job)) && Recorded(s, id, NewRunner(job))
  {
    hide Decides, RunnerInv, HistoryOf;
    NothingYet(s.history, id, job);
    NewRunnerFits(s.lock, s.table, id, job);
  }

  lemma StartInv(s: State, t: State)
    requires Inv(s) && Start(s, t)
    ensures Inv(t)
  {
    var id: Id, job :| id !in s.runners && t == Put(s, id, NewRunner(job));
    FreshRunner(t, id, job);
    assert t.runners[id] == NewRunner(job);
    Combine(s, t, id);
  }

  lemma LeftRunner(lock: Option<Id>, table: set<Version>, id: Id, r: Runner, p: Progress)
    requires RunnerInv(lock, table, id, r) && p != Running && p != Finished(true)
    ensures RunnerInv(lock, table, id, r.(progress := p))
  {
  }

  lemma ClientGoneInv(s: State, t: State)
    requires Inv(s) && (ClientCrashes(s, t) || ClientNotices(s, t))
    ensures Inv(t)
  {
    var id: Id, p: Progress :|
      id in s.runners && p != Running && p != Finished(true) && t == Put(s, id, s.runners[id].(progress := p));
    LeftRunner(s.lock, s.table, id, s.runners[id], p);
    CombineLocal(s, id, s.runners[id].(progress := p));
  }

  lemma LostRunner(lock: Option<Id>, lock': Option<Id>, table: set<Version>, id: Id, r: Runner)
    requires RunnerInv(lock, table, id, r)
    ensures RunnerInv(lock', table, id, r.(alive := false, unprocessed := false, txn := NoTxn))
  {
  }

  lemma EndsInv(s: State, id: Id, r: Runner, r': Runner)
    requires Inv(s) && id in s.runners && s.runners[id] == r && r.alive
    requires r' == r.(alive := false, unprocessed := false, txn := NoTxn)
    ensures Inv(Put(if s.lock == Some(id) then s.(lock := None) else s, id, r'))
  {
    var t := Put(if s.lock == Some(id) then s.(lock := None) else s, id, r');
    assert t.runners[id] == r' && t.runners == s.runners[id := r'];
    assert RunnerInv(s.lock, s.table, id, r) && Recorded(s, id, r);
    LostRunner(s.lock, t.lock, s.table, id, r);
    Combine(s, t, id);
  }

  lemma SessionEndsInv(s: State, t: State)
    requires Inv(s) && SessionEnds(s, t)
    ensures Inv(t)
  {
    var id: Id :|
      && id in s.runners && s.runners[id].alive
      && t == Put(if s.lock == Some(id) then s.(lock := None) else s,
                  id, s.runners[id].(alive := false, unprocessed := false, txn := NoTxn));
    EndsInv(s, id, s.runners[id], s.runners[id].(alive := false, unprocessed := false, txn := NoTxn));
  }

  lemma NextInv(s: State, t: State)
    requires Inv(s) && Next(s, t)
    ensures Inv(t)
  {
    if ServerStep(s, t) {
      var id: Id, fails :| CanProcess(s, id) && t == Process(s, id, fails);
      if s.runners[id].at == Commit { CommitInv(s, id, fails); } else { ProcessInv(s, id, fails); }
    } else if Receive(s, t) {
      ReceiveInv(s, t);
    } else if Start(s, t) {
      StartInv(s, t);
    } else if SessionEnds(s, t) {
      SessionEndsInv(s, t);
    } else {
      ClientGoneInv(s, t);
    }
  }

  // ----- results -----

  ghost predicate IsRun(trace: seq<State>) {
    trace != [] && Init(trace[0]) && forall n :: 0 <= n < |trace| - 1 ==> Next(trace[n], trace[n + 1])
  }

  lemma {:induction false} RunInv(trace: seq<State>, n: nat)
    requires IsRun(trace) && n < |trace|
    ensures Inv(trace[n])
  {
    if n > 0 {
      RunInv(trace, n - 1);
      NextInv(trace[n - 1], trace[n]);
    }
  }

  /** Main result on the tracking table: in every state of every run it lists exactly the versions whose up script is
      committed and not reverted, and no script was committed twice without a revert in between. */
  lemma TableMatchesHistory(trace: seq<State>, n: nat)
    requires IsRun(trace) && n < |trace|
    ensures Replay(trace[n].history) == Some(trace[n].table)
  {
    RunInv(trace, n);
  }

  /** Main result on one call, finished, failed, crashed or still going: what it has committed is exactly the first
      `committed` scripts of its plan, in ascending order; the plan is what the table, when it was read, called for; and
      a call that returns Ok has committed all of it. */
  lemma CommitsAPrefix(trace: seq<State>, n: nat, id: Id)
    requires IsRun(trace) && n < |trace| && id in trace[n].runners
    ensures var s := trace[n]; var r := s.runners[id];
            && r.committed <= |r.plan| && Ascending(r.plan)
            && |Mine(s.history, id)| == r.committed
            && (forall i :: 0 <= i < r.committed ==>
                  Mine(s.history, id)[i] == if r.job == Migrate then Up(r.plan[i]) else Down(r.plan[i]))
            && (r.plan != [] ==> PlanIs(s, r))
            && (r.progress == Finished(true) ==> r.committed == |r.plan| && PlanIs(s, r))
  {
    RunInv(trace, n);
    var s, r := trace[n], trace[n].runners[id];
    assert RunnerInv(s.lock, s.table, id, r) && Recorded(s, id, r);
    if Decides(s.files, s.downs, r.job, r.seen, Some(r.plan)) { DecidesExactly(s, r); }
    EffectsCount(r.job, r.plan[..r.committed]);
    forall i | 0 <= i < r.committed ensures Effects(r.job, r.plan[..r.committed])[i] == EffectOf(r.job, r.plan[i]) {
      EffectsAt(r.job, r.plan[..r.committed], i);
    }
  }

  /** The plan of `run`: all versions with a script that were not in the table when it was read.  The plan of `revert`:
      the largest version in the table, which has both its scripts; nothing for an empty table. */
  ghost predicate PlanIs(s: State, r: Runner) {
    match r.job
    case Migrate => forall v :: v in r.plan <==> v in s.files && v !in r.seen
    case Revert =>
      if r.seen == {} then r.plan == []
      else |r.plan| == 1 && r.plan[0] in r.seen && (forall u :: u in r.seen ==> u <= r.plan[0])
           && r.plan[0] in s.files && r.plan[0] in s.downs
  }

  lemma DecidesExactly(s: State, r: Runner)
    requires Ascending(s.files) && Decides(s.files, s.downs, r.job, r.seen, Some(r.plan))
    ensures PlanIs(s, r)
  {
    if r.job == Migrate { PendingIs(s.files, r.seen); }
  }

  /** At most one session is inside a migration transaction, and it holds the lock. */
  lemma OneTransactionAtATime(trace: seq<State>, n: nat, i: Id, j: Id)
    requires IsRun(trace) && n < |trace| && i in trace[n].runners && j in trace[n].runners
    requires trace[n].runners[i].txn.Open? && trace[n].runners[j].txn.Open?
    requires trace[n].runners[i].alive && trace[n].runners[j].alive
    ensures i == j && trace[n].lock == Some(i)
  {
    RunInv(trace, n);
    var s := trace[n];
    assert RunnerInv(s.lock, s.table, i, s.runners[i]) && RunnerInv(s.lock, s.table, j, s.runners[j]);
  }
}
