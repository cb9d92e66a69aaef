/** Running a batch of queued queries: texts that are new on the connection first, one by one, the rest in parallel,
    and the results put back into the order in which the queries were pushed. */
module BatchExecute {
  import opened Wrappers

  ghost predicate Ascending(a: seq<nat>, n: nat) {
    (forall i :: 0 <= i < |a| ==> a[i] < n) && forall i, j :: 0 <= i < j < |a| ==> a[i] < a[j]
  }

  /** No earlier query of the batch has the same text. */
  ghost predicate First(sqls: seq<string>, i: nat)
    requires i < |sqls|
  {
    forall j :: 0 <= j < i ==> sqls[j] != sqls[i]
  }

  /** Exactly the first uses of new texts are run serially; every query is in one of the two lists, once. */
  ghost predicate Partitioned(sqls: seq<string>, warm: set<string>, n: nat, serial: seq<nat>, parallel: seq<nat>)
    requires n <= |sqls|
  {
    && Ascending(serial, n) && Ascending(parallel, n)
    && (forall i :: 0 <= i < n ==> (i in serial <==> sqls[i] !in warm && First(sqls, i)))
    && (forall i :: 0 <= i < n ==> (i in parallel <==> i !in serial))
  }

  method Partition(sqls: seq<string>, warm: set<string>) returns (serial: seq<nat>, parallel: seq<nat>)
    ensures Partitioned(sqls, warm, |sqls|, serial, parallel)
  {
    serial, parallel := [], [];
    var seen: set<string> := {};
    for i := 0 to |sqls|
      invariant Partitioned(sqls, warm, i, serial, parallel)
      invariant forall s :: s in seen <==> s !in warm && exists j :: 0 <= j < i && sqls[j] == s
    {
      if sqls[i] in warm {
        parallel := parallel + [i];
      } else if sqls[i] !in seen {
        seen := seen + {sqls[i]};
        serial := serial + [i];
      } else {
        parallel := parallel + [i];
      }
    }
  }

  ghost predicate Serial(sqls: seq<string>, warm: set<string>, i: nat)
    requires i < |sqls|
  {
    sqls[i] !in warm && First(sqls, i)
  }

  /** Query `i` failed, and all before it did not: the serial ones come before the others. */
  ghost predicate FirstFailure<R, E>(sqls: seq<string>, warm: set<string>, outcomes: seq<Result<R, E>>, i: nat)
    requires |outcomes| == |sqls|
  {
    && i < |sqls| && outcomes[i].Err?
    && forall j :: 0 <= j < |sqls|
         && (if Serial(sqls, warm, j) == Serial(sqls, warm, i) then j < i else Serial(sqls, warm, j))
         ==> outcomes[j].Ok?
  }

  lemma FailedAt<R, E>(sqls: seq<string>, warm: set<string>, outcomes: seq<Result<R, E>>, serial: seq<nat>,
      parallel: seq<nat>, order: seq<nat>, m: nat)
    requires |outcomes| == |sqls| && Partitioned(sqls, warm, |sqls|, serial, parallel)
    requires order == serial || (order == parallel && forall k :: k in serial ==> outcomes[k].Ok?)
    requires m < |order| && outcomes[order[m]].Err? && forall l :: 0 <= l < m ==> outcomes[order[l]].Ok?
    ensures FirstFailure(sqls, warm, outcomes, order[m])
  {
    var i := order[m];
    assert i in order;
    forall j | 0 <= j < |sqls|
        && (if Serial(sqls, warm, j) == Serial(sqls, warm, i) then j < i else Serial(sqls, warm, j))
      ensures outcomes[j].Ok?
    {
      assert j in serial <==> Serial(sqls, warm, j);
      if j in order {
        var l :| 0 <= l < |order| && order[l] == j;
      }
    }
  }

  class Batch<R, E> {
    var warm: set<string>     // texts whose Parse has been confirmed on this connection

    constructor ()
      ensures warm == {}
    {
      warm := {};
    }

    /** Only texts whose query has succeeded become known. */
    ghost predicate OnlyConfirmed(before: set<string>, sqls: seq<string>, outcomes: seq<Result<R, E>>)
      requires |outcomes| == |sqls|
      reads `warm
    {
      before <= warm && forall s :: s in warm && s !in before ==>
        exists k :: 0 <= k < |sqls| && sqls[k] == s && outcomes[k].Ok?
    }

    /** The queries `order`, in that order, up to the first failure.  Each query is sent at most once; `outcomes[i]` is
        what it comes to when it is, the loss of the task it was spawned in being one of the failures.  `serial` queries
        may carry a Parse; the others are sent at once and may not, so their text must be known. */
    method RunAll(sqls: seq<string>, outcomes: seq<Result<R, E>>, order: seq<nat>, serial: bool,
        slots: array<Option<R>>)
        returns (failure: Option<E>)
      requires |outcomes| == |sqls| == slots.Length && Ascending(order, |sqls|)
      requires serial || forall k :: k in order ==> sqls[k] in warm
      modifies `warm, slots
      ensures failure == None ==> forall k :: k in order ==> outcomes[k].Ok? && slots[k] == Some(outcomes[k].value)
      ensures failure.Some? ==> exists m :: 0 <= m < |order| && outcomes[order[m]] == Err(failure.value) &&
                                  forall l :: 0 <= l < m ==> outcomes[order[l]].Ok?
      ensures forall i :: 0 <= i < slots.Length && i !in order ==> slots[i] == old(slots[i])
      ensures OnlyConfirmed(old(warm), sqls, outcomes) && (!serial ==> warm == old(warm))
      ensures failure == None && serial ==> forall k :: k in order ==> sqls[k] in warm
    {
      var n := 0;
      while n < |order|
        invariant n <= |order|
        invariant forall m :: 0 <= m < n ==> outcomes[order[m]].Ok? && slots[order[m]] == Some(outcomes[order[m]].value)
        invariant forall i :: 0 <= i < slots.Length && i !in order ==> slots[i] == old(slots[i])
        invariant OnlyConfirmed(old(warm), sqls, outcomes) && (!serial ==> warm == old(warm))
        invariant serial ==> forall m :: 0 <= m < n ==> sqls[order[m]] in warm
      {
        var i := order[n];
        if outcomes[i].Err? { return Some(outcomes[i].error); }
        if serial { warm := warm + {sqls[i]}; }
        slots[i] := Some(outcomes[i].value);
        n := n + 1;
      }
      failure := None;
    }

    /** `Pipeline::execute`.  Either every query succeeded and the results are in push order with no slot left
        empty, or the error of one of them is returned.  Only texts confirmed before are sent in parallel. */
    method Execute(sqls: seq<string>, outcomes: seq<Result<R, E>>) returns (r: Result<seq<R>, E>)
      requires |outcomes| == |sqls|
      modifies `warm
      ensures r.Ok? <==> forall i :: 0 <= i < |sqls| ==> outcomes[i].Ok?
      ensures r.Ok? ==> |r.value| == |sqls| && forall i :: 0 <= i < |sqls| ==> r.value[i] == outcomes[i].value
      ensures r.Err? ==> exists i: nat :: FirstFailure(sqls, old(warm), outcomes, i) && outcomes[i] == Err(r.error)
      ensures OnlyConfirmed(old(warm), sqls, outcomes) && (r.Ok? ==> forall i :: 0 <= i < |sqls| ==> sqls[i] in warm)
    {
      var slots := new Option<R>[|sqls|](_ => None);
      var serial, parallel := Partition(sqls, warm);
      var failure := RunAll(sqls, outcomes, serial, true, slots);
      if failure.Some? {
        ghost var m :| 0 <= m < |serial| && outcomes[serial[m]] == Err(failure.value) &&
                      forall l :: 0 <= l < m ==> outcomes[serial[l]].Ok?;
        FailedAt(sqls, old(warm), outcomes, serial, parallel, serial, m);
        return Err(failure.value);
      }
      Confirmed(sqls, old(warm), warm, serial, parallel);
      failure := RunAll(sqls, outcomes, parallel, false, slots);
      if failure.Some? {
        ghost var m :| 0 <= m < |parallel| && outcomes[parallel[m]] == Err(failure.value) &&
                      forall l :: 0 <= l < m ==> outcomes[parallel[l]].Ok?;
        FailedAt(sqls, old(warm), outcomes, serial, parallel, parallel, m);
        return Err(failure.value);
      }
      forall i | 0 <= i < |sqls| ensures outcomes[i].Ok? && slots[i] == Some(outcomes[i].value) {
        assert i in serial || i in parallel;
      }
      var filled := slots[..];
      r := Ok(seq(|filled|, i requires 0 <= i < |filled| && filled[i].Some? => filled[i].value));
    }
  }

  /** Once the serial queries have succeeded, the text of every query is known on the connection. */
  lemma Confirmed(sqls: seq<string>, before: set<string>, after: set<string>, serial: seq<nat>, parallel: seq<nat>)
    requires Partitioned(sqls, before, |sqls|, serial, parallel) && before <= after
    requires forall k :: k in serial ==> sqls[k] in after
    ensures forall i :: 0 <= i < |sqls| ==> sqls[i] in after
  {
    forall i | 0 <= i < |sqls| ensures sqls[i] in after {
      if sqls[i] !in before {
        var f := FirstUse(sqls, i);
        assert f in serial;
      }
    }
  }

  lemma {:induction false} FirstUse(sqls: seq<string>, i: nat) returns (f: nat)
    requires i < |sqls|
    ensures f <= i && sqls[f] == sqls[i] && First(sqls, f)
  {
    if First(sqls, i) {
      f := i;
    } else {
      var j :| 0 <= j < i && sqls[j] == sqls[i];
      f := FirstUse(sqls, j);
    }
  }
}
