/**
 The cron scheduler: the cache of jobs with its overlay of last run times, one scheduler pass, and the
 wake-up deadline. Times are nanoseconds; last run times are stored in milliseconds.
 */
module CronCache {
  import opened Base

  const NS_PER_MS := 1_000_000
  const NS_PER_SECOND := 1_000_000_000
  const CAP_MS := 60_000

  /** `schedule.after(t).next()`: the least scheduled instant strictly after `t`, if any. */
  type Schedule = int -> Option<int>

  ghost predicate IsInstant(schedule: Schedule, t: int) {
    schedule(t - 1) == Some(t)
  }

  /** The function really computes least instants, and instants fall on whole milliseconds. */
  ghost predicate IsSchedule(schedule: Schedule) {
    && (forall t :: schedule(t).Some? ==> schedule(t).value > t && IsInstant(schedule, schedule(t).value))
    && (forall t, u :: t < u && IsInstant(schedule, u) ==> schedule(t).Some? && schedule(t).value <= u)
    && (forall u :: IsInstant(schedule, u) ==> u % NS_PER_MS == 0)
  }

  /** A table row; `parsed` is the outcome of parsing its cron expression and job type. */
  datatype Model = Model(id: I64, name: string, enable: bool, lastRunTime: Option<I64>, parsed: Option<Schedule>)

  datatype Entry = Entry(name: string, enable: bool, lastRunTime: Option<I64>, schedule: Schedule)

  datatype Cache = Cache(byId: map<I64, Entry>, lastRunTimes: map<I64, I64>)

  /** The millisecond timestamps that can be represented as a date. */
  datatype Range = Range(lo: I64, hi: I64)

  predicate Represents(range: Range, t: I64) {
    range.lo <= t <= range.hi
  }

  function ParseOne(m: Model): Option<Entry> {
    if m.parsed.Some? then Some(Entry(m.name, m.enable, m.lastRunTime, m.parsed.value)) else None
  }

  function GetLast(c: Cache, id: I64): Option<I64>
    requires id in c.byId
  {
    if id in c.lastRunTimes then Some(c.lastRunTimes[id]) else c.byId[id].lastRunTime
  }

  /** Last run as a date: never run counts as one second ago, an unrepresentable time as the epoch. */
  function LastRun(last: Option<I64>, now: int, range: Range): int {
    match last
    case None => now - NS_PER_SECOND
    case Some(t) => if Represents(range, t) then t * NS_PER_MS else 0
  }

  predicate ShouldRun(schedule: Schedule, lastRun: int, now: int) {
    var next := schedule(lastRun);
    next.Some? && next.value <= now
  }

  predicate IsDue(c: Cache, id: I64, now: int, range: Range) {
    && id in c.byId && c.byId[id].enable
    && ShouldRun(c.byId[id].schedule, LastRun(GetLast(c, id), now, range), now)
  }

  function Due(c: Cache, now: int, range: Range): set<I64> {
    set id | id in c.byId && IsDue(c, id, now, range)
  }

  function Millis(now: int): int {
    now / NS_PER_MS
  }

  /** The clock reads a date that the stored type can hold. */
  predicate ClockOk(now: int, range: Range) {
    -TWO_63 <= Millis(now) < TWO_63 && Represents(range, Millis(now))
  }

  function MarkRun(c: Cache, ids: set<I64>, ms: I64): Cache {
    c.(lastRunTimes := map id | id in c.lastRunTimes.Keys + ids ::
         if id in ids then ms else c.lastRunTimes[id])
  }

  function BuildMap(models: seq<Model>): map<I64, Entry> {
    if models == [] then map[]
    else
      var before, m := BuildMap(Front(models)), Last(models);
      if m.parsed.Some? then before[m.id := ParseOne(m).value] else before
  }

  /** What a reload caches, row by row: the rows that parse, with the row's own data. */
  lemma {:induction false} BuildMapByRows(models: seq<Model>, id: I64)
    requires forall i, j :: 0 <= i < j < |models| ==> models[i].id != models[j].id
    ensures id in BuildMap(models) <==> exists i :: 0 <= i < |models| && models[i].id == id && models[i].parsed != None
    ensures forall i :: 0 <= i < |models| && models[i].id == id && models[i].parsed.Some? ==>
              id in BuildMap(models) &&
              BuildMap(models)[id] == Entry(models[i].name, models[i].enable, models[i].lastRunTime, models[i].parsed.value)
  {
    if models != [] {
      BuildMapByRows(Front(models), id);
      assert models[|models| - 1] == Last(models);
      assert forall i :: 0 <= i < |models| - 1 ==> models[i] == Front(models)[i];
    }
  }

  /** A pass needs a clock that the stored type and the date type can hold. */
  lemma ClockByRange(now: int, range: Range)
    ensures ClockOk(now, range) <==>
            -0x8000_0000_0000_0000 <= now / 1_000_000 <= 0x7FFF_FFFF_FFFF_FFFF && range.lo <= now / 1_000_000 <= range.hi
  {
  }

  /** The time that counts as a job's last run: the overlay's, else the row's, else a second ago. */
  ghost function Since(c: Cache, id: I64, now: int, range: Range): int
    requires id in c.byId
  {
    if id in c.lastRunTimes then (if range.lo <= c.lastRunTimes[id] <= range.hi then c.lastRunTimes[id] * 1_000_000 else 0)
    else if c.byId[id].lastRunTime == None then now - 1_000_000_000
    else if range.lo <= c.byId[id].lastRunTime.value <= range.hi then c.byId[id].lastRunTime.value * 1_000_000
    else 0
  }

  /** A job is due exactly if it is enabled and has a scheduled instant after its last run and not after the clock. */
  lemma DueByInstants(c: Cache, id: I64, now: int, range: Range)
    requires id in c.byId && IsSchedule(c.byId[id].schedule)
    ensures id in Due(c, now, range) <==>
            c.byId[id].enable && exists u :: IsInstant(c.byId[id].schedule, u) && Since(c, id, now, range) < u <= now
  {
    var schedule, since := c.byId[id].schedule, Since(c, id, now, range);
    assert LastRun(GetLast(c, id), now, range) == since;
    if schedule(since).Some? {
      assert IsInstant(schedule, schedule(since).value);
    }
  }

  /** `u` is the first scheduled instant after `from`. */
  ghost predicate IsFirstAfter(schedule: Schedule, from: int, u: int) {
    IsInstant(schedule, u) && from < u && forall v :: IsInstant(schedule, v) && from < v ==> u <= v
  }

  lemma LeastInstant(schedule: Schedule, from: int, u: int)
    requires IsSchedule(schedule)
    ensures schedule(from) == Some(u) <==> IsFirstAfter(schedule, from, u)
  {
    if schedule(from) == Some(u) {
      assert IsInstant(schedule, schedule(from).value);
    }
    if IsFirstAfter(schedule, from, u) {
      assert schedule(from).Some? && schedule(from).value <= u;
      assert IsInstant(schedule, schedule(from).value);
    }
  }

  /** As `Since`, except that a last run out of range counts as just now. */
  ghost function SinceForDeadline(c: Cache, id: I64, now: int, range: Range): int
    requires id in c.byId
  {
    var last := if id in c.lastRunTimes then Some(c.lastRunTimes[id]) else c.byId[id].lastRunTime;
    if last.Some? && !(range.lo <= last.value <= range.hi) then now else Since(c, id, now, range)
  }

  lemma UpcomingFrom(c: Cache, id: I64, now: int, range: Range)
    requires id in c.byId
    ensures Upcoming(c, id, now, range) == c.byId[id].schedule(SinceForDeadline(c, id, now, range))
  {
  }

  /** The instant that the deadline of an enabled job aims at: the first one after its last run. */
  lemma UpcomingByInstants(c: Cache, id: I64, now: int, range: Range, u: int)
    requires id in c.byId && IsSchedule(c.byId[id].schedule)
    ensures Upcoming(c, id, now, range) == Some(u) <==>
            IsFirstAfter(c.byId[id].schedule, SinceForDeadline(c, id, now, range), u)
  {
    UpcomingFrom(c, id, now, range);
    LeastInstant(c.byId[id].schedule, SinceForDeadline(c, id, now, range), u);
  }

  class CrontabTable {
    var rows: map<I64, Model>

    /** One `UPDATE … WHERE id IN (…)`. */
    method UpdateLastRun(ids: seq<I64>, ms: I64, fails: bool) returns (ok: bool)
      modifies this
      ensures ok == !fails
      ensures rows == if fails then old(rows) else StoreRun(old(rows), Elements(ids), ms)
    {
      if !fails {
        rows := map id | id in rows :: if id in ids then rows[id].(lastRunTime := Some(ms)) else rows[id];
      }
      return !fails;
    }
  }

  function StoreRun(rows: map<I64, Model>, ids: set<I64>, ms: I64): map<I64, Model> {
    map id | id in rows :: if id in ids then rows[id].(lastRunTime := Some(ms)) else rows[id]
  }

  class CrontabCache {
    var byId: map<I64, Entry>
    var lastRunTimes: map<I64, I64>

    ghost function Value(): Cache
      reads this
    {
      Cache(byId, lastRunTimes)
    }

    constructor BuildCache(models: seq<Model>)
      ensures Value() == Cache(BuildMap(models), map[])
    {
      lastRunTimes, byId := map[], map[];
      new;
      ReloadFromModels(models);
    }

    /** Reloading replaces the jobs and keeps the overlay. */
    method ReloadFromModels(models: seq<Model>)
      modifies this`byId
      ensures Value() == old(Value()).(byId := BuildMap(models))
    {
      var fresh': map<I64, Entry> := map[];
      for i := 0 to |models|
        invariant fresh' == BuildMap(models[..i])
      {
        assert Front(models[..i + 1]) == models[..i];
        var parsed := ParseOne(models[i]);
        if parsed.Some? {
          fresh' := fresh'[models[i].id := parsed.value];
        }
      }
      assert models[..|models|] == models;
      byId := fresh';
    }

    /** A row that no longer parses loses its entry. */
    method Upsert(m: Model)
      modifies this`byId
      ensures Value() == AfterUpsert(old(Value()), m)
      ensures m.parsed.Some? ==> byId == old(byId)[m.id := Entry(m.name, m.enable, m.lastRunTime, m.parsed.value)]
      ensures m.parsed.None? ==> byId == old(byId) - {m.id}
    {
      var parsed := ParseOne(m);
      match parsed
      case Some(e) => byId := byId[m.id := e];
      case None => byId := byId - {m.id};
    }

    method Remove(id: I64)
      modifies this
      ensures Value() == AfterRemove(old(Value()), id)
      ensures byId == old(byId) - {id} && lastRunTimes == old(lastRunTimes) - {id}
    {
      byId := byId - {id};
      lastRunTimes := lastRunTimes - {id};
    }

    method RemoveByName(name: string)
      modifies this
      ensures forall id :: id in byId <==> id in old(byId) && old(byId)[id].name != name
      ensures forall id :: id in byId ==> byId[id] == old(byId)[id]
      ensures forall id :: id in lastRunTimes <==> id in old(lastRunTimes) && !(id in old(byId) && old(byId)[id].name == name)
      ensures forall id :: id in lastRunTimes ==> lastRunTimes[id] == old(lastRunTimes)[id]
    {
      var todo := set id | id in byId && byId[id].name == name;
      ghost var all := todo;
      while todo != {}
        invariant todo <= all
        invariant forall id :: id in byId <==> id in old(byId) && id !in all - todo
        invariant forall id :: id in byId ==> byId[id] == old(byId)[id]
        invariant forall id :: id in lastRunTimes <==> id in old(lastRunTimes) && id !in all - todo
        invariant forall id :: id in lastRunTimes ==> lastRunTimes[id] == old(lastRunTimes)[id]
        decreases todo
      {
        var id :| id in todo;
        Remove(id);
        todo := todo - {id};
      }
    }

    method GetLastRunTime(id: I64, modelLast: Option<I64>) returns (r: Option<I64>)
      ensures r == if id in lastRunTimes then Some(lastRunTimes[id]) else modelLast
      ensures id in byId && modelLast == byId[id].lastRunTime ==> r == GetLast(Value(), id)
    {
      if id in lastRunTimes {
        return Some(lastRunTimes[id]);
      }
      return modelLast;
    }

    /** The enabled jobs, in the arbitrary order of the map. */
    method GetEnabledEntries() returns (ids: seq<I64>)
      ensures forall id :: id in ids <==> id in byId && byId[id].enable
      ensures forall i, j :: 0 <= i < j < |ids| ==> ids[i] != ids[j]
    {
      ids := [];
      var todo := byId.Keys;
      while todo != {}
        invariant todo <= byId.Keys
        invariant forall id :: id in ids <==> id in byId.Keys - todo && byId[id].enable
        invariant forall i, j :: 0 <= i < j < |ids| ==> ids[i] != ids[j]
        decreases todo
      {
        var id :| id in todo;
        if byId[id].enable {
          ids := ids + [id];
        }
        todo := todo - {id};
      }
    }

    /** First phase: collect the due jobs, without touching anything. */
    method CollectDue(now: int, range: Range) returns (due: seq<I64>)
      ensures Elements(due) == Due(Value(), now, range)
      ensures forall i, j :: 0 <= i < j < |due| ==> due[i] != due[j]
    {
      var jobs := GetEnabledEntries();
      due := [];
      for k := 0 to |jobs|
        invariant forall id :: id in due <==> id in jobs[..k] && IsDue(Value(), id, now, range)
        invariant forall i, j :: 0 <= i < j < |due| ==> due[i] != due[j]
      {
        var id := jobs[k];
        assert jobs[..k + 1] == jobs[..k] + [id] && id !in jobs[..k];
        var last := GetLastRunTime(id, byId[id].lastRunTime);
        var lastRun := LastRun(last, now, range);
        var next := byId[id].schedule(lastRun);
        if next.None? || next.value > now {
          continue;
        }
        due := due + [id];
      }
      assert jobs[..|jobs|] == jobs;
    }

    /** Second phase: advance the overlay of every due job. */
    method MarkAll(due: seq<I64>, ms: I64)
      modifies this`lastRunTimes
      ensures Value() == MarkRun(old(Value()), Elements(due), ms)
    {
      for k := 0 to |due|
        invariant lastRunTimes == MarkRun(old(Value()), Elements(due[..k]), ms).lastRunTimes
      {
        assert Elements(due[..k + 1]) == Elements(due[..k]) + {due[k]};
        lastRunTimes := lastRunTimes[due[k] := ms];
      }
      assert due[..|due|] == due;
    }

    /** One scheduler pass: exactly the due jobs run, each once, and all are marked even if the write fails. */
    method ProcessCrontab(db: CrontabTable, now: int, range: Range, dbFails: bool) returns (due: seq<I64>)
      requires ClockOk(now, range)
      modifies this`lastRunTimes, db
      ensures Elements(due) == old(Due(Value(), now, range))
      ensures forall i, j :: 0 <= i < j < |due| ==> due[i] != due[j]
      ensures Value() == MarkRun(old(Value()), Elements(due), Millis(now))
      ensures db.rows == if dbFails then old(db.rows) else StoreRun(old(db.rows), Elements(due), Millis(now))
      ensures forall id :: id in due ==> id in lastRunTimes && lastRunTimes[id] == now / 1_000_000
      ensures forall id :: id in db.rows && id in due && !dbFails ==> db.rows[id].lastRunTime == Some(now / 1_000_000)
    {
      due := CollectDue(now, range);
      if due != [] {
        var ok := db.UpdateLastRun(due, Millis(now), dbFails);
        MarkAll(due, Millis(now));
      } else {
        assert Elements(due) == {};
        assert MarkRun(Value(), {}, Millis(now)).lastRunTimes == lastRunTimes;
        assert StoreRun(db.rows, {}, Millis(now)) == db.rows;
      }
    }

    /**
     Milliseconds to sleep. The scheduler never sleeps past the next instant of an enabled job, nor longer
     than a minute, and it wakes no earlier than the last millisecond before some instant.
     */
    method ComputeNextDeadline(now: int, range: Range) returns (delay: nat)
      ensures delay <= 60_000
      ensures forall id :: id in byId && byId[id].enable && Upcoming(Value(), id, now, range).Some? ==>
                delay * NS_PER_MS <= Max(0, Upcoming(Value(), id, now, range).value - now)
      ensures delay < 60_000 ==>
                exists id :: id in byId && byId[id].enable && Upcoming(Value(), id, now, range).Some?
                             && Upcoming(Value(), id, now, range).value - now < (delay + 1) * NS_PER_MS
    {
      var jobs := GetEnabledEntries();
      var earliest: Option<int> := None;
      for k := 0 to |jobs|
        invariant earliest.None? ==> forall i :: 0 <= i < k ==> Upcoming(Value(), jobs[i], now, range).None?
        invariant earliest.Some? ==>
                    && (exists i :: 0 <= i < k && Upcoming(Value(), jobs[i], now, range) == earliest)
                    && (forall i :: 0 <= i < k && Upcoming(Value(), jobs[i], now, range).Some? ==>
                          earliest.value <= Upcoming(Value(), jobs[i], now, range).value)
      {
        var id := jobs[k];
        var last := GetLastRunTime(id, byId[id].lastRunTime);
        var lastRun := now - NS_PER_SECOND;
        if last.Some? {
          lastRun := if Represents(range, last.value) then last.value * NS_PER_MS else now;
        }
        var next := byId[id].schedule(lastRun);
        assert next == Upcoming(Value(), id, now, range);
        if next.Some? && (earliest.None? || next.value < earliest.value) {
          earliest := next;
        }
      }
      var target := if earliest.Some? then earliest.value else now + 60 * NS_PER_SECOND;
      var delta := if target - now <= 0 then 0 else (target - now) / NS_PER_MS;
      delay := Min(delta, CAP_MS);
      assert delay <= delta && delta * NS_PER_MS <= Max(0, target - now);
      assert target - now < (delta + 1) * NS_PER_MS;
    }
  }

  /** The next instant of a job as the deadline computation sees it; an unrepresentable last run counts as now. */
  function Upcoming(c: Cache, id: I64, now: int, range: Range): Option<int> {
    if id !in c.byId then None
    else
      var last := GetLast(c, id);
      var lastRun := if last.Some? && !Represents(range, last.value) then now else LastRun(last, now, range);
      c.byId[id].schedule(lastRun)
  }

  function AfterUpsert(c: Cache, m: Model): Cache {
    c.(byId := if m.parsed.Some? then c.byId[m.id := ParseOne(m).value] else c.byId - {m.id})
  }

  function AfterRemove(c: Cache, id: I64): Cache {
    Cache(c.byId - {id}, c.lastRunTimes - {id})
  }
}
