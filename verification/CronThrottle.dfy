/**
 Throttling of "all agents offline" results: one cron writes at most one such row per ten minutes, over
 whole runs, whatever the clock does and whatever other rows lie between.
 */
module CronThrottle {
  import opened Base

  const ALL_OFFLINE_THROTTLE_MS := 10 * 60 * 1000
  const ALL_OFFLINE_MESSAGE_PREFIX := "全部目标 Agent 离线"

  datatype Row = Row(cronId: I64, runTime: Option<int>, success: Option<bool>, message: Option<string>)

  /** `LIKE '<prefix>%'`; the prefix contains no wildcard. */
  predicate HasOfflinePrefix(message: string) {
    ALL_OFFLINE_MESSAGE_PREFIX <= message
  }

  predicate IsAllOffline(r: Row, cronId: I64) {
    && r.cronId == cronId
    && r.success == Some(false)
    && r.runTime.Some?
    && r.message.Some? && HasOfflinePrefix(r.message.value)
  }

  predicate Matches(r: Row, cronId: I64, now: int) {
    IsAllOffline(r, cronId) && r.runTime.value >= now - ALL_OFFLINE_THROTTLE_MS
  }

  predicate RecentlyReported(rows: seq<Row>, cronId: I64, now: int) {
    exists i :: 0 <= i < |rows| && Matches(rows[i], cronId, now)
  }

  function OfflineRow(cronId: I64, now: int, detail: string): Row {
    Row(cronId, Some(now), Some(false), Some(ALL_OFFLINE_MESSAGE_PREFIX + detail))
  }

  /** What the check query looks for, column by column. */
  lemma ReportedByColumns(rows: seq<Row>, cronId: I64, now: int)
    ensures RecentlyReported(rows, cronId, now) <==>
            exists i :: 0 <= i < |rows| && rows[i].cronId == cronId && rows[i].success == Some(false)
                        && rows[i].runTime.Some? && rows[i].runTime.value >= now - 600_000
                        && rows[i].message.Some? && "全部目标 Agent 离线" <= rows[i].message.value
  {
    if i :| 0 <= i < |rows| && rows[i].cronId == cronId && rows[i].success == Some(false)
            && rows[i].runTime.Some? && rows[i].runTime.value >= now - 600_000
            && rows[i].message.Some? && "全部目标 Agent 离线" <= rows[i].message.value
    {
      assert Matches(rows[i], cronId, now);
    }
  }

  datatype Step =
    /** A run whose agents are all offline: check, then insert unless already reported. */
    | OfflineRun(cronId: I64, now: int, detail: string, queryOk: bool, insertOk: bool)
    /** Any other result row. */
    | Other(row: Row)
    /** Rows are deleted. */
    | Prune(mask: seq<bool>)

  predicate Writes(rows: seq<Row>, step: Step) {
    step.OfflineRun? && step.insertOk && !(step.queryOk && RecentlyReported(rows, step.cronId, step.now))
  }

  function Next(rows: seq<Row>, step: Step): seq<Row> {
    match step
    case OfflineRun(cronId, now, detail, _, _) =>
      if Writes(rows, step) then rows + [OfflineRow(cronId, now, detail)] else rows
    case Other(row) => if IsAllOffline(row, row.cronId) then rows else rows + [row]
    case Prune(mask) => if |mask| == |rows| then Kept(rows, mask) else rows
  }

  /** An offline run adds its row, column by column, unless the insert fails or the check finds a recent one. */
  lemma OfflineRunByColumns(rows: seq<Row>, cronId: I64, now: int, detail: string, queryOk: bool, insertOk: bool)
    ensures Next(rows, OfflineRun(cronId, now, detail, queryOk, insertOk)) ==
            if insertOk && !(queryOk && RecentlyReported(rows, cronId, now))
            then rows + [Row(cronId, Some(now), Some(false), Some("全部目标 Agent 离线" + detail))] else rows
  {
  }

  function Exec(steps: seq<Step>): seq<Row> {
    if steps == [] then [] else Next(Exec(Front(steps)), Last(steps))
  }

  /** A later all-offline row lies more than ten minutes after every earlier one of the same cron. */
  ghost predicate Spaced(rows: seq<Row>, cronId: I64) {
    forall i, j :: 0 <= i < j < |rows| && IsAllOffline(rows[i], cronId) && IsAllOffline(rows[j], cronId) ==>
      rows[j].runTime.value - rows[i].runTime.value > ALL_OFFLINE_THROTTLE_MS
  }

  lemma {:induction false} KeptIsSpaced(rows: seq<Row>, mask: seq<bool>, cronId: I64)
    requires |mask| == |rows| && Spaced(rows, cronId)
    ensures Spaced(Kept(rows, mask), cronId)
    ensures forall r :: r in Kept(rows, mask) ==> r in rows
  {
    if rows != [] {
      assert Spaced(Front(rows), cronId);
      KeptIsSpaced(Front(rows), Front(mask), cronId);
      var sub := Kept(Front(rows), Front(mask));
      if Last(mask) && IsAllOffline(Last(rows), cronId) {
        forall i | 0 <= i < |sub| && IsAllOffline(sub[i], cronId)
          ensures Last(rows).runTime.value - sub[i].runTime.value > ALL_OFFLINE_THROTTLE_MS
        {
          assert sub[i] in Front(rows);
          var k :| 0 <= k < |rows| - 1 && rows[k] == sub[i];
        }
      }
    }
  }

  /** A step keeps the spacing exactly unless it writes a row although a recent one exists. */
  lemma StepKeepsSpacingIff(rows: seq<Row>, step: Step, cronId: I64)
    requires Spaced(rows, cronId)
    ensures Spaced(Next(rows, step), cronId) <==>
            !(Writes(rows, step) && step.cronId == cronId && RecentlyReported(rows, cronId, step.now))
  {
    match step
    case OfflineRun(id, now, detail, _, _) =>
      var row := OfflineRow(id, now, detail);
      assert HasOfflinePrefix(row.message.value);
      if Writes(rows, step) && id == cronId && RecentlyReported(rows, cronId, now) {
        var i :| 0 <= i < |rows| && Matches(rows[i], cronId, now);
        var after := rows + [row];
        assert after[i] == rows[i] && after[|rows|] == row && IsAllOffline(after[|rows|], cronId);
      }
    case Other(row) =>
    case Prune(mask) =>
      if |mask| == |rows| {
        KeptIsSpaced(rows, mask, cronId);
      }
  }

  ghost predicate QueriesSucceed(steps: seq<Step>, cronId: I64) {
    forall i :: 0 <= i < |steps| && steps[i].OfflineRun? && steps[i].cronId == cronId ==> steps[i].queryOk
  }

  /** Over every run in which the check queries of the cron succeed, its all-offline rows stay spaced. */
  lemma {:induction false} ThrottleHolds(steps: seq<Step>, cronId: I64)
    requires QueriesSucceed(steps, cronId)
    ensures Spaced(Exec(steps), cronId)
  {
    if steps != [] {
      assert forall i :: 0 <= i < |Front(steps)| ==> Front(steps)[i] == steps[i];
      ThrottleHolds(Front(steps), cronId);
      var step := steps[|steps| - 1];
      StepKeepsSpacingIff(Exec(Front(steps)), step, cronId);
    }
  }

  /** Throttling never hides the problem: after a run that could write, some row covers its time window. */
  lemma OfflineRunIsCovered(rows: seq<Row>, step: Step)
    requires step.OfflineRun? && step.insertOk
    ensures RecentlyReported(Next(rows, step), step.cronId, step.now)
  {
    var after := Next(rows, step);
    if Writes(rows, step) {
      assert HasOfflinePrefix(after[|rows|].message.value);
      assert Matches(after[|rows|], step.cronId, step.now);
    }
  }

  function OfflineTimes(rows: seq<Row>, cronId: I64): seq<int> {
    if rows == [] then []
    else OfflineTimes(Front(rows), cronId) + if IsAllOffline(Last(rows), cronId) then [Last(rows).runTime.value] else []
  }

  ghost predicate HasTime(rows: seq<Row>, cronId: I64, t: int) {
    exists k :: 0 <= k < |rows| && IsAllOffline(rows[k], cronId) && rows[k].runTime == Some(t)
  }

  ghost predicate AllTimesOf(rows: seq<Row>, cronId: I64, ts: seq<int>) {
    forall i :: 0 <= i < |ts| ==> HasTime(rows, cronId, ts[i])
  }

  ghost predicate WellSpaced(ts: seq<int>) {
    forall i, j :: 0 <= i < j < |ts| ==> ts[j] - ts[i] > ALL_OFFLINE_THROTTLE_MS
  }

  lemma {:induction false} TimesAreSpaced(rows: seq<Row>, cronId: I64)
    requires Spaced(rows, cronId)
    ensures WellSpaced(OfflineTimes(rows, cronId))
    ensures AllTimesOf(rows, cronId, OfflineTimes(rows, cronId))
  {
    if rows != [] {
      assert Spaced(Front(rows), cronId);
      TimesAreSpaced(Front(rows), cronId);
      var before := OfflineTimes(Front(rows), cronId);
      forall i | 0 <= i < |before|
        ensures HasTime(rows, cronId, before[i])
        ensures IsAllOffline(Last(rows), cronId) ==> Last(rows).runTime.value - before[i] > ALL_OFFLINE_THROTTLE_MS
      {
        assert HasTime(Front(rows), cronId, before[i]);
        var k :| 0 <= k < |Front(rows)| && IsAllOffline(Front(rows)[k], cronId) && Front(rows)[k].runTime == Some(before[i]);
        assert rows[k] == Front(rows)[k];
      }
      if IsAllOffline(Last(rows), cronId) {
        assert rows[|rows| - 1].runTime == Some(Last(rows).runTime.value);
      } else {
        assert before + [] == before;
      }
    }
  }

  lemma {:induction false} SpreadGrows(ts: seq<int>, i: nat, j: nat)
    requires i <= j < |ts|
    requires WellSpaced(ts)
    ensures ts[j] - ts[i] >= (j - i) * (ALL_OFFLINE_THROTTLE_MS + 1)
    decreases j
  {
    if i < j {
      SpreadGrows(ts, i, j - 1);
      assert ts[j] - ts[j - 1] > ALL_OFFLINE_THROTTLE_MS;
    }
  }

  /** At most one row per ten minutes: `n + 1` rows of a run span at least `n` full windows. */
  lemma RowRateIsBounded(steps: seq<Step>, cronId: I64, i: nat, j: nat)
    requires QueriesSucceed(steps, cronId)
    requires i <= j < |OfflineTimes(Exec(steps), cronId)|
    ensures var ts := OfflineTimes(Exec(steps), cronId);
            ts[j] - ts[i] >= (j - i) * (ALL_OFFLINE_THROTTLE_MS + 1)
  {
    ThrottleHolds(steps, cronId);
    TimesAreSpaced(Exec(steps), cronId);
    SpreadGrows(OfflineTimes(Exec(steps), cronId), i, j);
  }
}
