/**
 Dispatching one cron run to its agents: offline agents are left out first, one task row is written per
 remaining agent, the sends complete in any order, undelivered rows are rolled back and the outcome is
 recorded. None of it depends on the order of completion.
 */
module CronDispatch {
  import opened Base

  type Uuid = nat

  datatype SendResult = Sent | NotConnected | QueueFull | Panicked

  /** A finished send, as the join set hands it over. */
  datatype Completion = Completion(uuid: Uuid, taskId: I64, result: SendResult)

  datatype TaskRow = TaskRow(id: I64, uuid: Uuid)

  datatype Message =
    | DispatchOk(agent: Uuid, taskId: I64)
    | DispatchFailed(agent: Uuid)
    | Summary(successes: nat, requested: nat, skipped: nat)
    | AllOffline(skipped: nat)

  datatype ResultRow = ResultRow(relativeId: Option<I64>, runTime: I64, success: bool, message: Message)

  // ---- Order-independent extraction ----

  /** The concatenation of `g` over the completions, in order. */
  function FlatMap<A, T>(cs: seq<A>, g: A -> seq<T>): seq<T> {
    if cs == [] then [] else FlatMap(Front(cs), g) + g(Last(cs))
  }

  lemma FlatMapStep<A, T>(cs: seq<A>, g: A -> seq<T>, i: nat)
    requires i < |cs|
    ensures FlatMap(cs[..i + 1], g) == FlatMap(cs[..i], g) + g(cs[i])
  {
    assert Front(cs[..i + 1]) == cs[..i];
  }

  function Without<A>(s: seq<A>, i: nat): seq<A>
    requires i < |s|
  {
    s[..i] + s[i + 1..]
  }

  lemma {:induction false} FlatMapRemove<A, T>(cs: seq<A>, g: A -> seq<T>, i: nat)
    requires i < |cs|
    ensures multiset(FlatMap(cs, g)) == multiset(FlatMap(Without(cs, i), g)) + multiset(g(cs[i]))
  {
    var rest := Without(cs, i);
    if i == |cs| - 1 {
      assert rest == Front(cs);
    } else {
      FlatMapRemove(Front(cs), g, i);
      assert Front(rest) == Without(Front(cs), i);
      assert Last(rest) == Last(cs);
    }
  }

  lemma WithoutOne<A>(s: seq<A>, i: nat)
    requires i < |s|
    ensures multiset(Without(s, i)) == multiset(s) - multiset{s[i]}
  {
    assert s == s[..i] + [s[i]] + s[i + 1..];
  }

  lemma FrontIsWithoutLast<A>(s: seq<A>)
    requires s != []
    ensures Last(s) in multiset(s) && multiset(Front(s)) == multiset(s) - multiset{Last(s)}
  {
    assert s == Front(s) + [Last(s)];
  }

  lemma Find<A>(s: seq<A>, x: A) returns (i: nat)
    requires x in multiset(s)
    ensures i < |s| && s[i] == x
  {
    i :| i < |s| && s[i] == x;
  }

  /** Where the last element of one order stands in another. */
  lemma Locate<A>(a: seq<A>, b: seq<A>) returns (i: nat)
    requires a != [] && multiset(a) == multiset(b)
    ensures i < |b| && b[i] == Last(a) && multiset(Front(a)) == multiset(Without(b, i))
  {
    FrontIsWithoutLast(a);
    i := Find(b, Last(a));
    WithoutOne(b, i);
  }

  /** Any two orders of the same completions give the same results, up to order. */
  lemma {:induction false} FlatMapPermutation<A, T>(a: seq<A>, b: seq<A>, g: A -> seq<T>)
    requires multiset(a) == multiset(b)
    ensures multiset(FlatMap(a, g)) == multiset(FlatMap(b, g))
    decreases |a|
  {
    if a == [] {
      assert |b| == |multiset(b)| == |multiset(a)| == 0;
    } else {
      var i := Locate(a, b);
      FlatMapPermutation(Front(a), Without(b, i), g);
      FlatMapRemove(b, g, i);
    }
  }

  function One<T>(b: bool, t: T): seq<T> {
    if b then [t] else []
  }

  /** The task id of a completion whose result is one of `results`. */
  function TaskOf(results: set<SendResult>): Completion -> seq<I64> {
    (c: Completion) => One(c.result in results, c.taskId)
  }

  function FailureRow(nowMs: I64): Completion -> seq<ResultRow> {
    (c: Completion) => One(c.result == QueueFull, ResultRow(None, nowMs, false, DispatchFailed(c.uuid)))
  }

  function SuccessRow(nowMs: I64): Completion -> seq<ResultRow> {
    (c: Completion) => One(c.result == Sent, ResultRow(Some(c.taskId), nowMs, true, DispatchOk(c.uuid, c.taskId)))
  }

  /** Offline and full-queue sends: their task rows are rolled back. */
  function Undelivered(cs: seq<Completion>): seq<I64> {
    FlatMap(cs, TaskOf({NotConnected, QueueFull}))
  }

  function Delivered(cs: seq<Completion>): seq<I64> {
    FlatMap(cs, TaskOf({Sent}))
  }

  function Lost(cs: seq<Completion>): seq<I64> {
    FlatMap(cs, TaskOf({Panicked}))
  }

  function Skipped(cs: seq<Completion>): seq<I64> {
    FlatMap(cs, TaskOf({NotConnected}))
  }

  function FailureRows(cs: seq<Completion>, nowMs: I64): seq<ResultRow> {
    FlatMap(cs, FailureRow(nowMs))
  }

  function SuccessRows(cs: seq<Completion>, nowMs: I64): seq<ResultRow> {
    FlatMap(cs, SuccessRow(nowMs))
  }

  /** One summary row per run, or one row per delivered agent; a run that reached nobody has neither. */
  function PolicyRows(cs: seq<Completion>, aggregate: bool, requested: nat, precheckSkips: nat, nowMs: I64): seq<ResultRow> {
    if !aggregate then SuccessRows(cs, nowMs)
    else if Delivered(cs) == [] then []
    else
      [SummaryRow(if requested == 1 then Some(Last(Delivered(cs))) else None,
                  |Delivered(cs)|, requested, precheckSkips + |Skipped(cs)|, nowMs)]
  }

  function SummaryRow(sole: Option<I64>, sent: nat, requested: nat, skipped: nat, nowMs: I64): (row: ResultRow)
    ensures row.success && row.relativeId == sole && row.runTime == nowMs
    ensures row.message.Summary? && row.message.successes == sent
    ensures row.message.requested == requested && row.message.skipped == skipped
  {
    ResultRow(sole, nowMs, true, Summary(sent, requested, skipped))
  }

  function ResultRows(cs: seq<Completion>, aggregate: bool, requested: nat, precheckSkips: nat, nowMs: I64): seq<ResultRow> {
    FailureRows(cs, nowMs) + PolicyRows(cs, aggregate, requested, precheckSkips, nowMs)
  }

  datatype Tally = Tally(undelivered: seq<I64>, successes: nat, skipped: nat, rows: seq<ResultRow>)

  /** The completion loop. */
  method JoinSends(cs: seq<Completion>, aggregate: bool, requested: nat, nowMs: I64)
    returns (undelivered: seq<I64>, successCount: nat, skippedOnSend: nat, soleSuccess: Option<I64>,
             failureRows: seq<ResultRow>, successRows: seq<ResultRow>)
    ensures undelivered == Undelivered(cs) && successCount == |Delivered(cs)| && skippedOnSend == |Skipped(cs)|
    ensures failureRows == FailureRows(cs, nowMs)
    ensures successRows == if aggregate then [] else SuccessRows(cs, nowMs)
    ensures soleSuccess == if requested == 1 && Delivered(cs) != [] then Some(Last(Delivered(cs))) else None
  {
    undelivered, failureRows, successRows := [], [], [];
    successCount, skippedOnSend, soleSuccess := 0, 0, None;
    for i := 0 to |cs|
      invariant undelivered == Undelivered(cs[..i])
      invariant failureRows == FailureRows(cs[..i], nowMs)
      invariant successRows == if aggregate then [] else SuccessRows(cs[..i], nowMs)
      invariant successCount == |Delivered(cs[..i])| && skippedOnSend == |Skipped(cs[..i])|
      invariant soleSuccess == if requested == 1 && Delivered(cs[..i]) != [] then Some(Last(Delivered(cs[..i]))) else None
    {
      var c := cs[i];
      FlatMapStep(cs, TaskOf({NotConnected, QueueFull}), i);
      FlatMapStep(cs, TaskOf({Sent}), i);
      FlatMapStep(cs, TaskOf({NotConnected}), i);
      FlatMapStep(cs, FailureRow(nowMs), i);
      FlatMapStep(cs, SuccessRow(nowMs), i);
      if c.result == Panicked {
        continue;
      }
      if c.result == Sent {
        if requested == 1 {
          soleSuccess := Some(c.taskId);
        }
        successCount := successCount + 1;
        if !aggregate {
          successRows := successRows + [ResultRow(Some(c.taskId), nowMs, true, DispatchOk(c.uuid, c.taskId))];
        }
      } else {
        undelivered := undelivered + [c.taskId];
        if c.result == NotConnected {
          skippedOnSend := skippedOnSend + 1;
        } else {
          failureRows := failureRows + [ResultRow(None, nowMs, false, DispatchFailed(c.uuid))];
        }
      }
    }
    assert cs[..|cs|] == cs;
  }

  /** The completion loop and the choice of rows after it. */
  method CollectSends(cs: seq<Completion>, aggregate: bool, requested: nat, precheckSkips: nat, nowMs: I64) returns (t: Tally)
    ensures t == Tally(Undelivered(cs), |Delivered(cs)|, |Skipped(cs)|,
                       ResultRows(cs, aggregate, requested, precheckSkips, nowMs))
  {
    var undelivered, successCount, skippedOnSend, soleSuccess, crontabResults, successRows :=
      JoinSends(cs, aggregate, requested, nowMs);
    if aggregate {
      if successCount > 0 {
        crontabResults := crontabResults +
          [ResultRow(if requested == 1 then soleSuccess else None, nowMs, true,
                     Summary(successCount, requested, precheckSkips + skippedOnSend))];
      } else {
        assert crontabResults + [] == crontabResults;
      }
    } else {
      crontabResults := crontabResults + successRows;
    }
    return Tally(undelivered, successCount, skippedOnSend, crontabResults);
  }

  // ---- Precheck and dispatch list ----

  method ConnectedUuids(uuids: seq<Uuid>, peers: set<Uuid>) returns (online: seq<Uuid>)
    ensures online == Online(uuids, peers)
    ensures online == Kept(uuids, Connected(uuids, peers))
  {
    OnlineByPeers(uuids, peers);
    online := [];
    for i := 0 to |uuids|
      invariant online == Online(uuids[..i], peers)
    {
      assert Front(uuids[..i + 1]) == uuids[..i];
      if uuids[i] in peers {
        online := online + [uuids[i]];
      }
    }
    assert uuids[..|uuids|] == uuids;
  }

  function Online(uuids: seq<Uuid>, peers: set<Uuid>): (online: seq<Uuid>)
    ensures |online| <= |uuids|
  {
    if uuids == [] then [] else Online(Front(uuids), peers) + One(Last(uuids) in peers, Last(uuids))
  }

  function Connected(uuids: seq<Uuid>, peers: set<Uuid>): (mask: seq<bool>)
    ensures |mask| == |uuids| && forall i :: 0 <= i < |uuids| ==> (mask[i] <==> uuids[i] in peers)
  {
    seq(|uuids|, i requires 0 <= i < |uuids| => uuids[i] in peers)
  }

  /** The agents that are connected, in order, and no others. */
  lemma {:induction false} OnlineByPeers(uuids: seq<Uuid>, peers: set<Uuid>)
    ensures Online(uuids, peers) == Kept(uuids, Connected(uuids, peers))
  {
    if uuids != [] {
      OnlineByPeers(Front(uuids), peers);
      assert Front(Connected(uuids, peers)) == Connected(Front(uuids), peers);
    }
  }

  /** The rows that the insert returns: `ids[i]` was given to `online[i]`; ids need not be consecutive. */
  function Inserted(ids: seq<I64>, online: seq<Uuid>): seq<TaskRow>
    requires |ids| == |online|
  {
    seq(|ids|, i requires 0 <= i < |ids| => TaskRow(ids[i], online[i]))
  }

  /** An agent's event carries its own row's id, through the unsigned task id and back. */
  function Complete(row: TaskRow, outcome: I64 -> SendResult): (c: Completion)
    ensures c == Completion(row.uuid, row.id, outcome(row.id))
  {
    var taskId := CastSigned64(CastUnsigned64(row.id));
    assert taskId == row.id;
    Completion(row.uuid, taskId, outcome(taskId))
  }

  /** The sends of a dispatch, in dispatch order, with the result each of them will have. */
  function Completions(rows: seq<TaskRow>, outcome: I64 -> SendResult): seq<Completion> {
    seq(|rows|, i requires 0 <= i < |rows| => Complete(rows[i], outcome))
  }

  // ---- Accounting ----

  lemma {:induction false} EveryCompletionCountedOnce(cs: seq<Completion>, nowMs: I64)
    ensures |cs| == |Delivered(cs)| + |Skipped(cs)| + |FailureRows(cs, nowMs)| + |Lost(cs)|
    ensures |SuccessRows(cs, nowMs)| == |Delivered(cs)|
    ensures |Undelivered(cs)| == |Skipped(cs)| + |FailureRows(cs, nowMs)|
  {
    if cs != [] {
      EveryCompletionCountedOnce(Front(cs), nowMs);
    }
  }

  function Successful(rows: seq<ResultRow>, success: bool): nat {
    if rows == [] then 0 else Successful(Front(rows), success) + if Last(rows).success == success then 1 else 0
  }

  lemma {:induction false} SuccessfulAppend(a: seq<ResultRow>, b: seq<ResultRow>, success: bool)
    ensures Successful(a + b, success) == Successful(a, success) + Successful(b, success)
  {
    if b == [] {
      assert a + b == a;
    } else {
      assert Front(a + b) == a + Front(b);
      SuccessfulAppend(a, Front(b), success);
    }
  }

  lemma {:induction false} RowKinds(cs: seq<Completion>, nowMs: I64)
    ensures Successful(FailureRows(cs, nowMs), true) == 0
    ensures Successful(FailureRows(cs, nowMs), false) == |FailureRows(cs, nowMs)|
    ensures Successful(SuccessRows(cs, nowMs), false) == 0
    ensures Successful(SuccessRows(cs, nowMs), true) == |Delivered(cs)|
  {
    if cs != [] {
      RowKinds(Front(cs), nowMs);
      forall success: bool
        ensures Successful(FailureRows(cs, nowMs), success)
             == Successful(FailureRows(Front(cs), nowMs), success) + Successful(FailureRow(nowMs)(Last(cs)), success)
        ensures Successful(SuccessRows(cs, nowMs), success)
             == Successful(SuccessRows(Front(cs), nowMs), success) + Successful(SuccessRow(nowMs)(Last(cs)), success)
      {
        SuccessfulAppend(FailureRows(Front(cs), nowMs), FailureRow(nowMs)(Last(cs)), success);
        SuccessfulAppend(SuccessRows(Front(cs), nowMs), SuccessRow(nowMs)(Last(cs)), success);
      }
    }
  }

  lemma RowCounts(cs: seq<Completion>, aggregate: bool, requested: nat, precheckSkips: nat, nowMs: I64)
    ensures var rows := ResultRows(cs, aggregate, requested, precheckSkips, nowMs);
            && Successful(rows, false) == |FailureRows(cs, nowMs)|
            && Successful(rows, true) == if aggregate then Min(1, |Delivered(cs)|) else |Delivered(cs)|
  {
    RowKinds(cs, nowMs);
    var policy := PolicyRows(cs, aggregate, requested, precheckSkips, nowMs);
    SuccessfulAppend(FailureRows(cs, nowMs), policy, true);
    SuccessfulAppend(FailureRows(cs, nowMs), policy, false);
    if aggregate && Delivered(cs) != [] {
      assert Front(policy) == [];
    }
  }

  lemma SameLength<T>(a: seq<T>, b: seq<T>)
    requires multiset(a) == multiset(b)
    ensures |a| == |b|
    ensures |a| == 1 ==> a == b
  {
    assert |a| == |multiset(a)| == |multiset(b)| == |b|;
    if |a| == 1 {
      assert a == [a[0]] && b == [b[0]];
      assert a[0] in multiset(b);
    }
  }

  lemma {:induction false} TaskCountsAreOrderFree(a: seq<Completion>, b: seq<Completion>, results: set<SendResult>)
    requires multiset(a) == multiset(b)
    ensures |FlatMap(a, TaskOf(results))| == |FlatMap(b, TaskOf(results))|
    ensures |FlatMap(a, TaskOf(results))| == 1 ==> FlatMap(a, TaskOf(results)) == FlatMap(b, TaskOf(results))
  {
    FlatMapPermutation(a, b, TaskOf(results));
    SameLength(FlatMap(a, TaskOf(results)), FlatMap(b, TaskOf(results)));
  }

  lemma {:induction false} SummaryIsOrderFree(a: seq<Completion>, b: seq<Completion>, requested: nat, precheckSkips: nat,
                                              nowMs: I64)
    requires multiset(a) == multiset(b)
    requires requested == 1 ==> |a| <= 1
    ensures PolicyRows(a, true, requested, precheckSkips, nowMs) == PolicyRows(b, true, requested, precheckSkips, nowMs)
  {
    TaskCountsAreOrderFree(a, b, {Sent});
    TaskCountsAreOrderFree(a, b, {NotConnected});
    EveryCompletionCountedOnce(a, nowMs);
  }

  lemma {:induction false} PolicyRowsPermutation(a: seq<Completion>, b: seq<Completion>, aggregate: bool, requested: nat,
                                                 precheckSkips: nat, nowMs: I64)
    requires multiset(a) == multiset(b)
    requires requested == 1 ==> |a| <= 1
    ensures multiset(PolicyRows(a, aggregate, requested, precheckSkips, nowMs))
         == multiset(PolicyRows(b, aggregate, requested, precheckSkips, nowMs))
  {
    if aggregate {
      SummaryIsOrderFree(a, b, requested, precheckSkips, nowMs);
    } else {
      FlatMapPermutation(a, b, SuccessRow(nowMs));
    }
  }

  /** The recorded rows and the rolled-back tasks do not depend on the order of completion. */
  lemma {:induction false} CompletionOrderDoesNotMatter(a: seq<Completion>, b: seq<Completion>, aggregate: bool,
                                                        requested: nat, precheckSkips: nat, nowMs: I64)
    requires multiset(a) == multiset(b)
    requires requested == 1 ==> |a| <= 1
    ensures multiset(ResultRows(a, aggregate, requested, precheckSkips, nowMs))
         == multiset(ResultRows(b, aggregate, requested, precheckSkips, nowMs))
    ensures multiset(Undelivered(a)) == multiset(Undelivered(b))
  {
    FlatMapPermutation(a, b, TaskOf({NotConnected, QueueFull}));
    FlatMapPermutation(a, b, FailureRow(nowMs));
    PolicyRowsPermutation(a, b, aggregate, requested, precheckSkips, nowMs);
  }

  // ---- One run, in terms of what happened to each row ----

  /** The sends of the new rows, completed in any order. */
  ghost predicate CompletesAll(order: seq<Completion>, ids: seq<I64>, online: seq<Uuid>, outcome: I64 -> SendResult) {
    |ids| == |online| && multiset(order) == multiset(Completions(Inserted(ids, online), outcome))
  }

  function IdsWith(ids: seq<I64>, outcome: I64 -> SendResult, results: set<SendResult>): set<I64> {
    set id | id in ids && outcome(id) in results
  }

  function CountWith(ids: seq<I64>, outcome: I64 -> SendResult, result: SendResult): nat {
    if ids == [] then 0 else CountWith(Front(ids), outcome, result) + if outcome(Last(ids)) == result then 1 else 0
  }

  lemma {:induction false} EveryIdCountedOnce(ids: seq<I64>, outcome: I64 -> SendResult)
    ensures |ids| == CountWith(ids, outcome, Sent) + CountWith(ids, outcome, NotConnected) +
                     CountWith(ids, outcome, QueueFull) + CountWith(ids, outcome, Panicked)
  {
    if ids != [] {
      EveryIdCountedOnce(Front(ids), outcome);
      match outcome(Last(ids)) case Sent => case NotConnected => case QueueFull => case Panicked =>
    }
  }

  lemma {:induction false} CountInDispatchOrder(ids: seq<I64>, online: seq<Uuid>, outcome: I64 -> SendResult, result: SendResult)
    requires |ids| == |online|
    ensures |FlatMap(Completions(Inserted(ids, online), outcome), TaskOf({result}))| == CountWith(ids, outcome, result)
  {
    if ids != [] {
      CountInDispatchOrder(Front(ids), Front(online), outcome, result);
      var all := Completions(Inserted(ids, online), outcome);
      assert Front(all) == Completions(Inserted(Front(ids), Front(online)), outcome);
      assert Last(all) == Completion(Last(online), Last(ids), outcome(Last(ids)));
    }
  }

  lemma CountInAnyOrder(order: seq<Completion>, ids: seq<I64>, online: seq<Uuid>, outcome: I64 -> SendResult, result: SendResult)
    requires CompletesAll(order, ids, online, outcome)
    ensures |FlatMap(order, TaskOf({result}))| == CountWith(ids, outcome, result)
  {
    TaskCountsAreOrderFree(order, Completions(Inserted(ids, online), outcome), {result});
    CountInDispatchOrder(ids, online, outcome, result);
  }

  lemma {:induction false} FlatMapHas<T>(cs: seq<Completion>, g: Completion -> seq<T>, c: Completion, x: T)
    requires c in cs && x in g(c)
    ensures x in FlatMap(cs, g)
  {
    if c != Last(cs) {
      assert c in Front(cs);
      FlatMapHas(Front(cs), g, c, x);
    }
  }

  lemma {:induction false} FlatMapSource<T>(cs: seq<Completion>, g: Completion -> seq<T>, x: T) returns (c: Completion)
    requires x in FlatMap(cs, g)
    ensures c in cs && x in g(c)
  {
    if x in g(Last(cs)) {
      c := Last(cs);
    } else {
      c := FlatMapSource(Front(cs), g, x);
    }
  }

  /** Every row's send completes, with the row's own agent, id and outcome. */
  lemma RowCompletes(order: seq<Completion>, ids: seq<I64>, online: seq<Uuid>, outcome: I64 -> SendResult, i: nat)
    requires CompletesAll(order, ids, online, outcome) && i < |ids|
    ensures Completion(online[i], ids[i], outcome(ids[i])) in order
  {
    var all := Completions(Inserted(ids, online), outcome);
    assert all[i] in multiset(all);
    assert all[i] in multiset(order);
  }

  lemma CompletionHasRow(order: seq<Completion>, ids: seq<I64>, online: seq<Uuid>, outcome: I64 -> SendResult, c: Completion)
    requires CompletesAll(order, ids, online, outcome) && c in order
    ensures c.taskId in ids && c.result == outcome(c.taskId)
  {
    var all := Completions(Inserted(ids, online), outcome);
    assert c in multiset(order);
    assert c in multiset(all);
    var i :| 0 <= i < |all| && all[i] == c;
  }

  lemma TasksWithResult(ids: seq<I64>, online: seq<Uuid>, outcome: I64 -> SendResult, order: seq<Completion>,
                        results: set<SendResult>)
    requires CompletesAll(order, ids, online, outcome)
    ensures Elements(FlatMap(order, TaskOf(results))) == IdsWith(ids, outcome, results)
  {
    forall id
      ensures id in FlatMap(order, TaskOf(results)) <==> id in IdsWith(ids, outcome, results)
    {
      if id in IdsWith(ids, outcome, results) {
        var i :| 0 <= i < |ids| && ids[i] == id;
        RowCompletes(order, ids, online, outcome, i);
        FlatMapHas(order, TaskOf(results), Completion(online[i], id, outcome(id)), id);
      } else if id in FlatMap(order, TaskOf(results)) {
        var c := FlatMapSource(order, TaskOf(results), id);
        CompletionHasRow(order, ids, online, outcome, c);
      }
    }
  }

  /** After the rollback, the new task rows that survive are exactly the delivered and the panicked ones. */
  lemma SurvivingTasks(tasks: set<I64>, ids: seq<I64>, online: seq<Uuid>, outcome: I64 -> SendResult, order: seq<Completion>)
    requires CompletesAll(order, ids, online, outcome) && Elements(ids) !! tasks
    ensures tasks + Elements(ids) - Elements(Undelivered(order)) == tasks + IdsWith(ids, outcome, {Sent, Panicked})
  {
    TasksWithResult(ids, online, outcome, order, {NotConnected, QueueFull});
    forall id | id in ids
      ensures id in IdsWith(ids, outcome, {Sent, Panicked}) <==> id !in IdsWith(ids, outcome, {NotConnected, QueueFull})
    {
      match outcome(id) case Sent => case NotConnected => case QueueFull => case Panicked =>
    }
  }

  /** The task id that a summary row carries: only a run for one agent has one. */
  function Sole(ids: seq<I64>, requested: nat): Option<I64>
    requires ids != []
  {
    if requested == 1 then Some(ids[0]) else None
  }

  /** Agents found offline at the precheck or at the send. */
  function OfflineCount(ids: seq<I64>, outcome: I64 -> SendResult, requested: nat): nat
    requires |ids| <= requested
  {
    requested - |ids| + CountWith(ids, outcome, NotConnected)
  }

  /**
   What one run records: a failure row for every full queue, and, if anything was delivered, either one
   summary row or a success row for every delivered agent. There are no other rows.
   */
  ghost predicate FollowsPolicy(rows: seq<ResultRow>, ids: seq<I64>, online: seq<Uuid>, outcome: I64 -> SendResult,
                                aggregate: bool, requested: nat, nowMs: I64)
    requires ids != [] && |ids| == |online| && |ids| <= requested
  {
    var sent := CountWith(ids, outcome, Sent);
    && |rows| == Successful(rows, false) + Successful(rows, true)
    && Successful(rows, false) == CountWith(ids, outcome, QueueFull)
    && Successful(rows, true) == (if aggregate then Min(1, sent) else sent)
    && (forall i :: 0 <= i < |ids| && outcome(ids[i]) == QueueFull ==>
          ResultRow(None, nowMs, false, DispatchFailed(online[i])) in rows)
    && (if aggregate then
          sent > 0 ==> SummaryRow(Sole(ids, requested), sent, requested, OfflineCount(ids, outcome, requested), nowMs) in rows
        else forall i :: 0 <= i < |ids| && outcome(ids[i]) == Sent ==>
               ResultRow(Some(ids[i]), nowMs, true, DispatchOk(online[i], ids[i])) in rows)
  }

  lemma {:induction false} EveryRowIsOneOrTheOther(rows: seq<ResultRow>)
    ensures |rows| == Successful(rows, false) + Successful(rows, true)
  {
    if rows != [] {
      EveryRowIsOneOrTheOther(Front(rows));
    }
  }

  lemma RowsAreListed(order: seq<Completion>, ids: seq<I64>, online: seq<Uuid>, outcome: I64 -> SendResult, nowMs: I64, i: nat)
    requires CompletesAll(order, ids, online, outcome) && i < |ids|
    ensures outcome(ids[i]) == QueueFull ==> ResultRow(None, nowMs, false, DispatchFailed(online[i])) in FailureRows(order, nowMs)
    ensures outcome(ids[i]) == Sent ==>
              ResultRow(Some(ids[i]), nowMs, true, DispatchOk(online[i], ids[i])) in SuccessRows(order, nowMs)
  {
    var c := Completion(online[i], ids[i], outcome(ids[i]));
    RowCompletes(order, ids, online, outcome, i);
    var failed, sent := ResultRow(None, nowMs, false, DispatchFailed(online[i])),
                        ResultRow(Some(ids[i]), nowMs, true, DispatchOk(online[i], ids[i]));
    if outcome(ids[i]) == QueueFull {
      FlatMapHas(order, FailureRow(nowMs), c, failed);
    } else if outcome(ids[i]) == Sent {
      FlatMapHas(order, SuccessRow(nowMs), c, sent);
    }
  }

  /** With one agent requested, the id in the summary is that of its task. */
  lemma SoleDelivered(order: seq<Completion>, ids: seq<I64>, online: seq<Uuid>, outcome: I64 -> SendResult)
    requires CompletesAll(order, ids, online, outcome) && |ids| == 1 && Delivered(order) != []
    ensures Last(Delivered(order)) == ids[0]
  {
    TasksWithResult(ids, online, outcome, order, {Sent});
    assert Last(Delivered(order)) in Elements(Delivered(order));
  }

  lemma SummaryShape(cs: seq<Completion>, sole: Option<I64>, sent: nat, skips: nat, requested: nat, precheckSkips: nat,
                     nowMs: I64)
    requires |Delivered(cs)| == sent > 0 && precheckSkips + |Skipped(cs)| == skips
    requires sole == if requested == 1 then Some(Last(Delivered(cs))) else None
    ensures PolicyRows(cs, true, requested, precheckSkips, nowMs) == [SummaryRow(sole, sent, requested, skips, nowMs)]
  {
  }

  lemma SummaryIsListed(cs: seq<Completion>, ids: seq<I64>, outcome: I64 -> SendResult, requested: nat, nowMs: I64)
    requires ids != [] && |ids| <= requested
    requires |Delivered(cs)| == CountWith(ids, outcome, Sent) > 0 && |Skipped(cs)| == CountWith(ids, outcome, NotConnected)
    requires requested == 1 ==> Last(Delivered(cs)) == ids[0]
    ensures PolicyRows(cs, true, requested, requested - |ids|, nowMs) ==
            [SummaryRow(Sole(ids, requested), CountWith(ids, outcome, Sent), requested, OfflineCount(ids, outcome, requested),
                        nowMs)]
  {
    SummaryShape(cs, Sole(ids, requested), CountWith(ids, outcome, Sent), OfflineCount(ids, outcome, requested),
                 requested, requested - |ids|, nowMs);
  }

  /** Whatever the order of completion, the recorded rows follow the policy. */
  lemma RecordedRowsFollowPolicy(order: seq<Completion>, ids: seq<I64>, online: seq<Uuid>, outcome: I64 -> SendResult,
                                 aggregate: bool, requested: nat, nowMs: I64)
    requires CompletesAll(order, ids, online, outcome) && ids != [] && |ids| <= requested
    ensures FollowsPolicy(ResultRows(order, aggregate, requested, requested - |ids|, nowMs),
                          ids, online, outcome, aggregate, requested, nowMs)
  {
    var rows := ResultRows(order, aggregate, requested, requested - |ids|, nowMs);
    CountInAnyOrder(order, ids, online, outcome, Sent);
    FailureRowsCounted(order, ids, online, outcome, nowMs);
    RowCounts(order, aggregate, requested, requested - |ids|, nowMs);
    EveryRowIsOneOrTheOther(rows);
    forall i | 0 <= i < |ids|
      ensures outcome(ids[i]) == QueueFull ==> ResultRow(None, nowMs, false, DispatchFailed(online[i])) in rows
      ensures !aggregate && outcome(ids[i]) == Sent ==>
                ResultRow(Some(ids[i]), nowMs, true, DispatchOk(online[i], ids[i])) in rows
    {
      RowsAreListed(order, ids, online, outcome, nowMs, i);
    }
    if aggregate && CountWith(ids, outcome, Sent) > 0 {
      CountInAnyOrder(order, ids, online, outcome, NotConnected);
      if requested == 1 {
        SoleDelivered(order, ids, online, outcome);
      }
      SummaryIsListed(order, ids, outcome, requested, nowMs);
    }
  }

  lemma FailureRowsCounted(order: seq<Completion>, ids: seq<I64>, online: seq<Uuid>, outcome: I64 -> SendResult, nowMs: I64)
    requires CompletesAll(order, ids, online, outcome)
    ensures |FailureRows(order, nowMs)| == CountWith(ids, outcome, QueueFull)
  {
    CountInAnyOrder(order, ids, online, outcome, QueueFull);
    SameCount(order, nowMs);
  }

  lemma {:induction false} SameCount(cs: seq<Completion>, nowMs: I64)
    ensures |FailureRows(cs, nowMs)| == |FlatMap(cs, TaskOf({QueueFull}))|
  {
    if cs != [] {
      SameCount(Front(cs), nowMs);
    }
  }

  /** Which of the run's database writes fail. */
  datatype Failing = Failing(insert: bool, delete: bool, save: bool)

  /** The part of a run after its task rows were inserted. */
  method DispatchOnline(requested: nat, ghost online: seq<Uuid>, tasks: set<I64>, ids: seq<I64>, ghost outcome: I64 -> SendResult,
                        order: seq<Completion>, aggregate: bool, failing: Failing, nowMs: I64)
    returns (after: set<I64>, rows: seq<ResultRow>)
    requires CompletesAll(order, ids, online, outcome) && Elements(ids) !! tasks && ids != [] && |ids| <= requested
    ensures after == tasks + if failing.delete then Elements(ids) else IdsWith(ids, outcome, {Sent, Panicked})
    ensures failing.save ==> rows == []
    ensures !failing.save ==> FollowsPolicy(rows, ids, online, outcome, aggregate, requested, nowMs)
  {
    var tally := CollectSends(order, aggregate, requested, requested - |ids|, nowMs);
    after, rows := tasks + Elements(ids), [];
    if !failing.delete {
      SurvivingTasks(tasks, ids, online, outcome, order);
      after := after - Elements(tally.undelivered);
    }
    if !failing.save {
      RecordedRowsFollowPolicy(order, ids, online, outcome, aggregate, requested, nowMs);
      rows := tally.rows;
    }
  }

  /**
   One run of a cron. `ids` are the keys that the database gives the new task rows, `outcome` says how the
   send of each row ends, and `order` is the order in which the sends complete.
   */
  method DispatchTask(uuids: seq<Uuid>, peers: set<Uuid>, tasks: set<I64>, ids: seq<I64>, ghost outcome: I64 -> SendResult,
                      order: seq<Completion>, aggregate: bool, recentlyReported: bool, failing: Failing, nowMs: I64)
    returns (after: set<I64>, rows: seq<ResultRow>)
    requires CompletesAll(order, ids, Online(uuids, peers), outcome) && Elements(ids) !! tasks
    ensures |uuids| == (|uuids| - |ids|) + CountWith(ids, outcome, Sent) + CountWith(ids, outcome, NotConnected) +
                       CountWith(ids, outcome, QueueFull) + CountWith(ids, outcome, Panicked)
    ensures ids == [] || failing.insert ==> after == tasks
    ensures ids == [] ==> rows == if uuids == [] || recentlyReported || failing.save then []
                                  else [ResultRow(None, nowMs, false, AllOffline(|uuids|))]
    ensures ids != [] && (failing.insert || failing.save) ==> rows == []
    ensures ids != [] && !failing.insert ==>
              after == tasks + if failing.delete then Elements(ids) else IdsWith(ids, outcome, {Sent, Panicked})
    ensures ids != [] && !failing.insert && !failing.save ==>
              FollowsPolicy(rows, ids, Online(uuids, peers), outcome, aggregate, |uuids|, nowMs)
  {
    EveryIdCountedOnce(ids, outcome);
    after, rows := tasks, [];
    if |uuids| == 0 {
      return;
    }
    var online := ConnectedUuids(uuids, peers);
    var skippedAtPrecheck := |uuids| - |online|;
    if |online| == 0 {
      if !recentlyReported && !failing.save {
        rows := [ResultRow(None, nowMs, false, AllOffline(skippedAtPrecheck))];
      }
      return;
    }
    if failing.insert {
      return;
    }
    after, rows := DispatchOnline(|uuids|, online, tasks, ids, outcome, order, aggregate, failing, nowMs);
  }

  /**
   Every requested agent is accounted for: skipped at the precheck, or its send was delivered, found it
   offline, found its queue full, or panicked. The loop's counters and rows show these numbers.
   */
  lemma RequestedIsAccountedFor(uuids: seq<Uuid>, peers: set<Uuid>, ids: seq<I64>, outcome: I64 -> SendResult,
                                order: seq<Completion>, nowMs: I64)
    requires CompletesAll(order, ids, Online(uuids, peers), outcome)
    ensures |uuids| == (|uuids| - |Online(uuids, peers)|) +
                       CountWith(ids, outcome, Sent) + CountWith(ids, outcome, NotConnected) +
                       CountWith(ids, outcome, QueueFull) + CountWith(ids, outcome, Panicked)
    ensures |Delivered(order)| == CountWith(ids, outcome, Sent) && |Skipped(order)| == CountWith(ids, outcome, NotConnected)
    ensures |FailureRows(order, nowMs)| == CountWith(ids, outcome, QueueFull)
    ensures |Lost(order)| == CountWith(ids, outcome, Panicked)
  {
    var online := Online(uuids, peers);
    EveryIdCountedOnce(ids, outcome);
    CountInAnyOrder(order, ids, online, outcome, Sent);
    CountInAnyOrder(order, ids, online, outcome, NotConnected);
    CountInAnyOrder(order, ids, online, outcome, Panicked);
    FailureRowsCounted(order, ids, online, outcome, nowMs);
  }
}
