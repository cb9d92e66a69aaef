/** One `run` or `revert` as the code runs it, against a database that may refuse any statement; and the directory
    scan that decides the order of the scripts. */
module MigrationRunner {
  import opened Wrappers
  import opened Migrations
  import Calendar
  import Decimal
  import Seqs

  // ----- the loops -----

  class Database {
    var table: set<Version>       // committed rows of the tracking table
    var history: seq<Effect>      // committed script effects
    var txn: Txn
    const faulty: bool            // any statement may be refused, at any time

    constructor (faulty: bool)
      ensures table == {} && history == [] && txn == NoTxn && this.faulty == faulty
    {
      table, history, txn, this.faulty := {}, [], NoTxn, faulty;
    }

    /** Whether a statement that is in order is accepted. */
    method Accepts() returns (ok: bool)
      ensures !faulty ==> ok
    {
      ok := *;
      ok := ok || !faulty;
    }

    /** One statement: in an aborted transaction it is refused; otherwise it may fail, which aborts the transaction. */
    method Statement(next: Txn) returns (ok: bool)
      modifies this`txn
      ensures ok ==> old(txn).Open? && txn == next
      ensures !faulty && old(txn).Open? ==> ok
      ensures !ok ==> txn == if old(txn) == NoTxn then NoTxn else Failed
    {
      ok := Accepts();
      ok := ok && txn.Open?;
      if ok { txn := next; } else if txn != NoTxn { txn := Failed; }
    }

    method BeginTxn() returns (ok: bool)
      requires txn == NoTxn
      modifies this`txn
      ensures txn == if ok then Open([], []) else NoTxn
      ensures !faulty ==> ok
    {
      ok := Accepts();
      if ok { txn := Open([], []); }
    }

    method RunScript(e: Effect) returns (ok: bool)
      requires txn.Open?
      modifies this`txn
      ensures txn == if ok then Open(old(txn).scripts + [e], old(txn).rows) else Failed
      ensures !faulty ==> ok
    {
      ok := Statement(Open(txn.scripts + [e], txn.rows));
    }

    /** INSERT fails on a version that is already there; DELETE of one that is not there does nothing. */
    method RecordRow(e: Effect) returns (ok: bool)
      requires txn.Open?
      modifies this`txn
      ensures ok ==> (e.Up? ==> e.v !in Play(table, old(txn).rows))
      ensures !faulty ==> (ok <==> (e.Up? ==> e.v !in Play(table, old(txn).rows)))
      ensures ok ==> txn == Open(old(txn).scripts, old(txn).rows + [e])
      ensures !ok ==> txn == Failed
    {
      if e.Up? && e.v in Play(table, txn.rows) {
        txn := Failed;
        return false;
      }
      ok := Statement(Open(txn.scripts, txn.rows + [e]));
    }

    method CommitTxn() returns (ok: bool)
      requires txn.Open?
      modifies this
      ensures txn == NoTxn
      ensures ok ==> table == Play(old(table), old(txn).rows) && history == old(history) + old(txn).scripts
      ensures !ok ==> table == old(table) && history == old(history)
      ensures !faulty ==> ok
    {
      ok := Accepts();
      if ok { table, history := Play(table, txn.rows), history + txn.scripts; }
      txn := NoTxn;
    }

    method RollbackTxn()
      modifies this`txn
      ensures txn == NoTxn
    {
      txn := NoTxn;
    }

    /** One script in its own transaction.  When recording it fails, the call returns with the aborted transaction
        still open; it goes with the session. */
    method Apply(e: Effect) returns (ok: bool)
      requires txn == NoTxn
      modifies this
      ensures ok ==> txn == NoTxn && history == old(history) + [e] && (e.Up? ==> e.v !in old(table))
      ensures ok ==> table == if e.Up? then old(table) + {e.v} else old(table) - {e.v}
      ensures !ok ==> table == old(table) && history == old(history) && !txn.Open?
      ensures !faulty ==> (ok <==> (e.Up? ==> e.v !in old(table)))
    {
      ok := BeginTxn();
      if !ok { return; }
      ok := RunScript(e);
      if !ok {
        RollbackTxn();
        return;
      }
      assert Play(table, []) == table;
      ok := RecordRow(e);
      if !ok { return; }
      PlayOne(table, e);
      assert txn.rows == [e] && txn.scripts == [e];
      ok := CommitTxn();
    }

    /** The loop of `run_inner`: the scripts committed by it, in order. */
    method RunPending(files: seq<Version>, applied: set<Version>, unreadable: set<Version>)
        returns (ok: bool, done: seq<Version>)
      requires txn == NoTxn && applied == table
      modifies this
      ensures done <= Pending(files, applied) && (ok ==> done == Pending(files, applied))
      ensures history == old(history) + Effects(Migrate, done) && table == old(table) + Elements(done)
      ensures !faulty && Distinct(files) && (forall v :: v in files && v in unreadable ==> v in applied) ==> ok
    {
      done := [];
      var i := 0;
      while i < |files|
        invariant i <= |files| && txn == NoTxn
        invariant Pending(files, applied) == done + Pending(files[i..], applied)
        invariant forall v :: v in done ==> v in files[..i]
        invariant history == old(history) + Effects(Migrate, done) && table == old(table) + Elements(done)
      {
        var v := files[i];
        PendingNext(files, i, applied);
        if v !in applied {
          if v in unreadable { return false, done; }
          NextDone(history, table, old(history), old(table), done, v);
          var applies := Apply(Up(v));
          if !applies { return false, done; }
          Seqs.Assoc(done, [v], Pending(files[i + 1..], applied));
          done := done + [v];
        }
        assert files[..i + 1] == files[..i] + [v];
        i := i + 1;
      }
      assert files[i..] == [];
      return true, done;
    }

    /** `run_inner`; `unreadable` are the versions whose file cannot be read.  Failure and crash leave a prefix of the
        pending scripts done; success means that every script in the directory has been run. */
    method RunInner(files: seq<Version>, unreadable: set<Version>) returns (r: Result<seq<Version>, ()>)
      requires txn == NoTxn
      modifies this
      ensures var plan, k := Pending(files, old(table)), |history| - |old(history)|;
              && 0 <= k <= |plan|
              && history[..|old(history)|] == old(history)
              && (forall i :: 0 <= i < k ==> history[|old(history)| + i] == Up(plan[i]))
              && table == old(table) + Elements(plan[..k])
              && (r.Ok? ==> k == |plan| && r.value == plan)
      ensures r.Ok? ==>
                && (forall v :: v in r.value <==> v in files && v !in old(table))
                && (forall v :: v in table <==> v in old(table) || v in files)
                && (Ascending(files) ==> Ascending(r.value))
      ensures !faulty && Distinct(files) && (forall v :: v in files && v in unreadable ==> v in old(table)) ==> r.Ok?
    {
      PendingMembers(files, table);
      var ok, done := RunPending(files, table, unreadable);
      EffectsCount(Migrate, done);
      forall i | 0 <= i < |done| ensures Effects(Migrate, done)[i] == Up(done[i]) { EffectsAt(Migrate, done, i); }
      if Ascending(files) { PendingIs(files, old(table)); }
      assert done == Pending(files, old(table))[..|done|];
      return if ok then Ok(done) else Err(());
    }

    /** `revert_inner`; `missing` are versions without a readable down script. */
    method RevertInner(files: seq<Version>, missing: set<Version>) returns (r: Result<Option<Version>, ()>)
      requires txn == NoTxn
      modifies this
      ensures old(table) == {} <==> r == Ok(None)
      ensures r == Ok(None) ==> table == {} && history == old(history)
      ensures r.Ok? && r.value.Some? ==>
                var v := r.value.value;
                && v in old(table) && (forall u :: u in old(table) ==> u <= v)
                && v in files && v !in missing
                && table == old(table) - {v} && history == old(history) + [Down(v)]
      ensures r.Err? ==> table == old(table) && history == old(history)
      ensures !faulty ==>
                (r.Ok? <==> forall v :: v in old(table) && (v !in files || v in missing)
                                        ==> exists u :: u in old(table) && u > v)
    {
      if table == {} { return Ok(None); }
      var v := LastApplied(table);
      if v !in files || v in missing { return Err(()); }
      var ok := Apply(Down(v));
      if !ok { return Err(()); }
      return Ok(Some(v));
    }
  }

  predicate Distinct(files: seq<Version>) { forall i, j :: 0 <= i < j < |files| ==> files[i] != files[j] }

  lemma {:induction false} PendingMembers(files: seq<Version>, applied: set<Version>)
    ensures forall v :: v in Pending(files, applied) <==> v in files && v !in applied
  {
    if files != [] {
      PendingMembers(files[1..], applied);
      assert forall v :: v in files <==> v == files[0] || v in files[1..];
    }
  }

  /** `ORDER BY version DESC LIMIT 1`. */
  method LastApplied(t: set<Version>) returns (v: Version)
    requires t != {}
    ensures Largest(v, t)
  {
    assert (forall u :: u !in t) ==> t == {};
    v :| v in t;
    var rest := t - {v};
    while rest != {}
      invariant v in t && rest <= t && forall u :: u in t && u !in rest ==> u <= v
      decreases |rest|
    {
      assert (forall x :: x !in rest) ==> rest == {};
      var u :| u in rest;
      if v < u { v := u; }
      rest := rest - {u};
    }
  }

  lemma PendingNext(files: seq<Version>, i: nat, applied: set<Version>)
    requires i < |files|
    ensures Pending(files[i..], applied) ==
              (if files[i] in applied then [] else [files[i]]) + Pending(files[i + 1..], applied)
  {
    assert files[i..][0] == files[i] && files[i..][1..] == files[i + 1..];
  }

  /** One more script done. */
  lemma NextDone(h: seq<Effect>, t: set<Version>, h0: seq<Effect>, t0: set<Version>, done: seq<Version>, v: Version)
    requires h == h0 + Effects(Migrate, done) && t == t0 + Elements(done)
    ensures h + [Up(v)] == h0 + Effects(Migrate, done + [v]) && t + {v} == t0 + Elements(done + [v])
  {
    EffectsAppend(Migrate, done, v);
  }

  function Elements(vs: seq<Version>): set<Version> { set v | v in vs }

  lemma EffectsAppend(job: Job, vs: seq<Version>, v: Version)
    ensures Effects(job, vs + [v]) == Effects(job, vs) + [EffectOf(job, v)]
    ensures |Effects(job, vs)| == |vs|
  {
    assert (vs + [v])[..|vs|] == vs;
    EffectsCount(job, vs);
  }

  // ----- the directory -----

  datatype Migration = Migration(version: Version, name: string, up: string, down: string)

  datatype ScanError = Unlistable | NoVersion(file: string)

  const SUFFIX := ".up.sql"
  const MAX_I64 := 0x7FFF_FFFF_FFFF_FFFF

  function ParseI64(s: string): Option<int> {
    var negative := s != "" && s[0] == '-';
    var d := if s != "" && (s[0] == '-' || s[0] == '+') then s[1..] else s;
    if d == "" || !Decimal.AllDigits(d) then None
    else
      var n := if negative then 0 - Decimal.Value(d) else Decimal.Value(d);
      if -MAX_I64 - 1 <= n <= MAX_I64 then Some(n) else None
  }

  /** The position of the first `c`, or the length. */
  function FirstAt(s: string, c: char): (i: nat)
    ensures i <= |s| && (i < |s| ==> s[i] == c) && forall k :: 0 <= k < i ==> s[k] != c
  {
    if s == "" || s[0] == c then 0 else 1 + FirstAt(s[1..], c)
  }

  predicate EndsWith(s: string, suffix: string) { |s| >= |suffix| && s[|s| - |suffix|..] == suffix }

  function LastAt(s: string, c: char): (i: int)
    ensures -1 <= i < |s| && (i >= 0 ==> s[i] == c) && forall k :: i < k < |s| ==> s[k] != c
  {
    if s == "" then -1 else if s[|s| - 1] == c then |s| - 1 else LastAt(s[..|s| - 1], c)
  }

  /** `with_extension`: what follows the last dot is replaced; a leading dot does not start an extension. */
  function WithExtension(file: string, ext: string): string {
    var i := LastAt(file, '.');
    (if i > 0 then file[..i] else file) + (if ext == "" then "" else "." + ext)
  }

  /** What a file name in the directory stands for: nothing, a script with its down file, or an error. */
  function ParseName(file: string): Option<Result<Migration, ScanError>> {
    if !EndsWith(file, SUFFIX) then None else
      var stem := file[..|file| - |SUFFIX|];
      var i := FirstAt(stem, '_');
      match ParseI64(stem[..i])
      case None => Some(Err(NoVersion(file)))
      case Some(v) =>
        var down := WithExtension(WithExtension(file, ""), "down.sql");
        Some(Ok(Migration(v, if i < |stem| then stem[i + 1..] else "unnamed", file, down)))
  }

  predicate Sorted(out: seq<Migration>) { forall i, j :: 0 <= i < j < |out| ==> out[i].version <= out[j].version }

  /** Stable insertion: after every script with the same version. */
  function Insert(out: seq<Migration>, m: Migration): seq<Migration> {
    if out == [] || out[|out| - 1].version <= m.version then out + [m]
    else Insert(out[..|out| - 1], m) + [out[|out| - 1]]
  }

  lemma {:induction false} InsertBound(out: seq<Migration>, m: Migration, bound: Version)
    requires m.version <= bound && forall i :: 0 <= i < |out| ==> out[i].version <= bound
    ensures forall i :: 0 <= i < |Insert(out, m)| ==> Insert(out, m)[i].version <= bound
  {
    if out != [] && out[|out| - 1].version > m.version { InsertBound(out[..|out| - 1], m, bound); }
  }

  lemma {:induction false} InsertSorts(out: seq<Migration>, m: Migration)
    requires Sorted(out)
    ensures Sorted(Insert(out, m))
  {
    if out != [] && out[|out| - 1].version > m.version {
      InsertSorts(out[..|out| - 1], m);
      InsertBound(out[..|out| - 1], m, out[|out| - 1].version);
    }
  }

  lemma {:induction false} InsertKeeps(out: seq<Migration>, m: Migration)
    ensures multiset(Insert(out, m)) == multiset(out + [m])
  {
    if out != [] && out[|out| - 1].version > m.version {
      var front, last := out[..|out| - 1], out[|out| - 1];
      InsertKeeps(front, m);
      assert out + [m] == front + [last] + [m];
    }
  }

  type Entry = Option<Result<Migration, ScanError>>

  /** The scripts among the entries, in directory order. */
  function Scripts(entries: seq<Entry>): seq<Migration> {
    if entries == [] then [] else
      var p := entries[|entries| - 1];
      Scripts(entries[..|entries| - 1]) + if p.Some? && p.value.Ok? then [p.value.value] else []
  }

  predicate Bad(p: Entry) { p.Some? && p.value.Err? }

  ghost predicate AnyBad(entries: seq<Entry>) { exists i :: 0 <= i < |entries| && Bad(entries[i]) }

  /** `read_dir`: the directory may be missing or unreadable, and each entry may fail. */
  datatype Listing = NotADirectory | Unreadable | Entries(files: seq<Option<string>>)

  function EntryOf(file: Option<string>): Entry { if file.None? then Some(Err(Unlistable)) else ParseName(file.value) }

  function Parsed(files: seq<Option<string>>): (entries: seq<Entry>)
    ensures |entries| == |files| && forall i :: 0 <= i < |files| ==> entries[i] == EntryOf(files[i])
  {
    if files == [] then [] else Parsed(files[..|files| - 1]) + [EntryOf(files[|files| - 1])]
  }

  lemma ScriptsNext(entries: seq<Entry>, n: nat)
    requires n < |entries|
    ensures var p := entries[n];
            Scripts(entries[..n + 1]) ==
              if p.Some? && p.value.Ok? then Scripts(entries[..n]) + [p.value.value] else Scripts(entries[..n])
  {
    assert entries[..n + 1][..n] == entries[..n];
    assert Scripts(entries[..n]) + [] == Scripts(entries[..n]);
  }

  /** Every script is collected as often as it is listed, and nothing else is. */
  lemma {:induction false} ScriptsCount(entries: seq<Entry>, m: Migration)
    ensures multiset(Scripts(entries))[m] == multiset(entries)[Some(Ok(m))]
  {
    if entries != [] {
      var front, last := entries[..|entries| - 1], entries[|entries| - 1];
      ScriptsCount(front, m);
      assert entries == front + [last];
    }
  }

  /** `sort_by_key`, a stable sort. */
  function SortByVersion(ms: seq<Migration>): seq<Migration> {
    if ms == [] then [] else Insert(SortByVersion(ms[..|ms| - 1]), ms[|ms| - 1])
  }

  lemma {:induction false} SortIsCorrect(ms: seq<Migration>)
    ensures Sorted(SortByVersion(ms)) && multiset(SortByVersion(ms)) == multiset(ms)
  {
    if ms != [] {
      var front, m := ms[..|ms| - 1], ms[|ms| - 1];
      SortIsCorrect(front);
      InsertSorts(SortByVersion(front), m);
      InsertKeeps(SortByVersion(front), m);
      assert ms == front + [m];
    }
  }

  /** `e` is the error of the first bad entry. */
  ghost predicate FirstError(entries: seq<Entry>, e: ScanError) {
    exists i :: 0 <= i < |entries| && entries[i] == Some(Err(e)) && forall j :: 0 <= j < i ==> !Bad(entries[j])
  }

  method CollectScripts(entries: seq<Entry>) returns (r: Result<seq<Migration>, ScanError>)
    ensures r.Ok? ==> !AnyBad(entries) && r.value == Scripts(entries)
    ensures r.Ok? ==> forall m :: multiset(r.value)[m] == multiset(entries)[Some(Ok(m))]
    ensures r.Err? ==> FirstError(entries, r.error)
  {
    var out: seq<Migration> := [];
    for n := 0 to |entries|
      invariant forall i :: 0 <= i < n ==> !Bad(entries[i])
      invariant out == Scripts(entries[..n])
    {
      ScriptsNext(entries, n);
      if Bad(entries[n]) { return Err(entries[n].value.error); }
      if entries[n].Some? { out := out + [entries[n].value.value]; }
    }
    assert entries[..|entries|] == entries;
    forall m ensures multiset(out)[m] == multiset(entries)[Some(Ok(m))] { ScriptsCount(entries, m); }
    return Ok(out);
  }

  /** `scan_migrations`: no scripts if there is no such directory; otherwise all scripts sorted by version, or the first
      error: an entry that cannot be listed, or an up script without a numeric prefix. */
  method ScanMigrations(dir: Listing) returns (r: Result<seq<Migration>, ScanError>)
    ensures dir.NotADirectory? ==> r == Ok([])
    ensures dir.Unreadable? ==> r == Err(Unlistable)
    ensures dir.Entries? && r.Err? ==> FirstError(Parsed(dir.files), r.error)
    ensures dir.Entries? && r.Ok? ==>
              && !AnyBad(Parsed(dir.files)) && Sorted(r.value)
              && forall m :: multiset(r.value)[m] == multiset(Parsed(dir.files))[Some(Ok(m))]
  {
    if dir.NotADirectory? { return Ok([]); }
    if dir.Unreadable? { return Err(Unlistable); }
    var entries := Parsed(dir.files);
    r := CollectScripts(entries);
    if r.Ok? {
      SortIsCorrect(r.value);
      r := Ok(SortByVersion(r.value));
    }
  }

  // ----- files written by `create` -----

  function Base(secs: nat, name: string): string { Calendar.Format(secs) + "_" + name }

  /** The up and the down file that `create` writes. */
  function CreatedUp(secs: nat, name: string): string { WithExtension(Base(secs, name), "up.sql") }

  function CreatedDown(secs: nat, name: string): string { WithExtension(Base(secs, name), "down.sql") }

  /** What is left of a migration's name in its file name. */
  function KeptName(name: string): string { if LastAt(name, '.') >= 0 then name[..LastAt(name, '.')] else name }

  lemma {:induction false} LastInTail(a: string, b: string, c: char)
    requires forall k :: 0 <= k < |a| ==> a[k] != c
    ensures LastAt(a + b, c) == if LastAt(b, c) >= 0 then |a| + LastAt(b, c) else -1
    decreases |b|
  {
    if b == "" {
      assert a + b == a;
    } else {
      assert (a + b)[..|a + b| - 1] == a + b[..|b| - 1];
      LastInTail(a, b[..|b| - 1], c);
    }
  }

  lemma {:induction false} FirstInHead(a: string, b: string, c: char)
    requires (forall k :: 0 <= k < |a| ==> a[k] != c) && b != "" && b[0] == c
    ensures FirstAt(a + b, c) == |a|
  {
    if a == "" {
      assert a + b == b;
    } else {
      assert (a + b)[1..] == a[1..] + b;
      FirstInHead(a[1..], b, c);
    }
  }

  lemma ParseDigits(d: string)
    requires d != "" && Decimal.AllDigits(d) && Decimal.Value(d) <= MAX_I64
    ensures ParseI64(d) == Some(Decimal.Value(d))
  {
    assert Decimal.IsDigit(d[0]);
  }

  lemma SplitsAs(ts: string, kept: string)
    requires Decimal.AllDigits(ts)
    ensures var stem := ts + "_" + kept; FirstAt(stem, '_') == |ts| && stem[..|ts|] == ts && stem[|ts| + 1..] == kept
  {
    var rest := "_" + kept;
    assert ts + "_" + kept == ts + rest && rest[1..] == kept;
    FirstInHead(ts, rest, '_');
    assert (ts + rest)[|ts| + 1..] == rest[1..];
  }

  lemma ExtensionOf(head: string, tail: string, ext: string)
    requires head != "" && tail != "" && tail[0] == '.' && '.' !in tail[1..]
    ensures WithExtension(head + tail, ext) == head + (if ext == "" then "" else "." + ext)
  {
    var file := head + tail;
    assert file[|head|] == '.' && file[..|head|] == head;
    forall k | |head| < k < |file| ensures file[k] != '.' { assert file[k] == tail[1..][k - |head| - 1]; }
  }

  lemma DownOf(stem: string)
    requires stem != ""
    ensures WithExtension(WithExtension(stem + SUFFIX, ""), "down.sql") == stem + ".down.sql"
  {
    assert stem + SUFFIX == (stem + ".up") + ".sql";
    ExtensionOf(stem + ".up", ".sql", "");
    assert (stem + ".up") + "" == stem + ".up";
    ExtensionOf(stem, ".up", "down.sql");
    assert "." + "down.sql" == ".down.sql";
  }

  lemma ParsesAs(ts: string, kept: string)
    requires ts != "" && Decimal.AllDigits(ts) && Decimal.Value(ts) <= MAX_I64
    ensures ParseName(ts + "_" + kept + SUFFIX)
              == Some(Ok(Migration(Decimal.Value(ts), kept, ts + "_" + kept + SUFFIX, ts + "_" + kept + ".down.sql")))
  {
    var stem := ts + "_" + kept;
    var file := stem + SUFFIX;
    assert file[..|stem|] == stem && file[|stem|..] == SUFFIX;
    SplitsAs(ts, kept);
    ParseDigits(ts);
    DownOf(stem);
  }

  lemma WithExtensionOf(ts: string, name: string, ext: string)
    requires Decimal.AllDigits(ts) && ext != ""
    ensures WithExtension(ts + "_" + name, ext) == ts + "_" + KeptName(name) + "." + ext
  {
    var head := ts + "_";
    forall k | 0 <= k < |head| ensures head[k] != '.' { if k < |ts| { assert Decimal.IsDigit(ts[k]); } }
    LastInTail(head, name, '.');
    if LastAt(name, '.') >= 0 { assert (head + name)[..|head| + LastAt(name, '.')] == head + KeptName(name); }
  }

  lemma CreatedFiles(ts: string, name: string)
    requires Decimal.AllDigits(ts)
    ensures WithExtension(ts + "_" + name, "up.sql") == ts + "_" + KeptName(name) + SUFFIX
    ensures WithExtension(ts + "_" + name, "down.sql") == ts + "_" + KeptName(name) + ".down.sql"
  {
    WithExtensionOf(ts, name, "up.sql");
    WithExtensionOf(ts, name, "down.sql");
    Join(ts + "_" + KeptName(name));
  }

  lemma Join(stem: string)
    ensures stem + "." + "up.sql" == stem + SUFFIX && stem + "." + "down.sql" == stem + ".down.sql"
  {
  }

  lemma KeptWhole(name: string)
    ensures KeptName(name) == name <==> '.' !in name
  {
    if LastAt(name, '.') >= 0 { assert name[LastAt(name, '.')] in name; }
  }

  /** A created script is found by the scan, with the version of its timestamp and with the down file that was created
      beside it; its name comes back unchanged exactly when it contains no dot. */
  lemma CreatedIsScanned(secs: nat, name: string)
    requires Calendar.DateOf(secs / Calendar.DAY).year <= 9999
    ensures ParseName(CreatedUp(secs, name)) ==
              Some(Ok(Migration(Decimal.Value(Calendar.Format(secs)), KeptName(name), CreatedUp(secs, name),
                  CreatedDown(secs, name))))
    ensures KeptName(name) == name <==> '.' !in name
  {
    var ts := Calendar.Format(secs);
    Calendar.VersionValue(secs);
    Decimal.ValueBound(ts);
    FourteenDigits();
    CreatedFiles(ts, name);
    ParsesAs(ts, KeptName(name));
    KeptWhole(name);
  }

  lemma FourteenDigits()
    ensures Decimal.Pow10(14) == 100000000000000
  {
    assert Decimal.Pow10(2) == 100;
    Decimal.Pow10Add(2, 2);
    Decimal.Pow10Add(4, 4);
    Decimal.Pow10Add(8, 4);
    Decimal.Pow10Add(12, 2);
  }

  /** So scripts created at different seconds are applied in the order they were created. */
  lemma OrderedByCreation(early: nat, late: nat, a: string, b: string)
    requires early < late && Calendar.DateOf(late / Calendar.DAY).year <= 9999
    ensures ParseName(CreatedUp(early, a)).Some? && ParseName(CreatedUp(late, b)).Some?
    ensures var x, y := ParseName(CreatedUp(early, a)).value, ParseName(CreatedUp(late, b)).value;
            x.Ok? && y.Ok? && x.value.version < y.value.version
  {
    Calendar.LaterIsLarger(early, late);
    EarlierYear(early, late);
    CreatedIsScanned(early, a);
    CreatedIsScanned(late, b);
  }

  lemma EarlierYear(early: nat, late: nat)
    requires early < late
    ensures Calendar.DateOf(early / Calendar.DAY).year <= Calendar.DateOf(late / Calendar.DAY).year
  {
    if early / Calendar.DAY < late / Calendar.DAY { Calendar.KeysIncrease(early / Calendar.DAY, late / Calendar.DAY); }
  }
}
