/**
 Whole runs of the scheduler: ticks, failing last-run writes, reloads and upserts from any version of the
 table, edits, changes to other jobs, and restarts of the process. A job with a recorded last run that stays
 enabled on its schedule has every scheduled instant served exactly once, unless a write that failed is
 followed by a restart. A job that stays disabled never runs.
 */
module CronRuns {
  import opened Base
  import opened CronCache

  type Rows = map<I64, Model>

  /** `past` keeps the earlier versions of the table: a reload may install rows that are already outdated. */
  datatype System = System(cache: Cache, rows: Rows, past: seq<Rows>)

  datatype Event =
    | Tick(now: int, dbFails: bool)
    | Reload(version: nat)
    | Refresh(id: I64, version: nat)
    | Edit(id: I64, enable: bool, parsed: Option<Schedule>)
    | Create(id: I64, model: Model)
    | Delete(id: I64)
    | Forget(id: I64)
    | Restart

  function Versions(s: System): seq<Rows> {
    s.past + [s.rows]
  }

  /** The cached jobs of a version of the table. */
  function JobsOf(rows: Rows): map<I64, Entry> {
    map id | id in rows && rows[id].parsed.Some? :: ParseOne(rows[id]).value
  }

  function Write(s: System, rows: Rows): System {
    s.(rows := rows, past := s.past + [s.rows])
  }

  /** An event that is not possible changes nothing. */
  function Next(s: System, e: Event, range: Range): System {
    match e
    case Tick(now, dbFails) =>
      if !ClockOk(now, range) then s
      else
        var due := Due(s.cache, now, range);
        var s' := s.(cache := MarkRun(s.cache, due, Millis(now)));
        if dbFails then s' else Write(s', StoreRun(s.rows, due, Millis(now)))
    case Reload(v) =>
      if v < |Versions(s)| then s.(cache := s.cache.(byId := JobsOf(Versions(s)[v]))) else s
    case Refresh(id, v) =>
      if v < |Versions(s)| && id in Versions(s)[v] then
        s.(cache := AfterUpsert(s.cache, Versions(s)[v][id].(id := id)))
      else s
    case Edit(id, enable, parsed) =>
      if id in s.rows then Write(s, s.rows[id := s.rows[id].(enable := enable, parsed := parsed)]) else s
    case Create(id, m) =>
      if id in s.rows then s else Write(s, s.rows[id := m.(lastRunTime := None)])
    case Delete(id) => Write(s, s.rows - {id})
    case Forget(id) => s.(cache := AfterRemove(s.cache, id))
    case Restart => System(Cache(JobsOf(s.rows), map[]), s.rows, [])
  }

  /** What each event does to the row of one job: edits keep the last run, and new rows have none. */
  lemma RowByEvent(s: System, e: Event, range: Range, id: I64)
    ensures e.Edit? ==>
              Next(s, e, range).rows ==
              if e.id in s.rows then s.rows[e.id := s.rows[e.id].(enable := e.enable, parsed := e.parsed)] else s.rows
    ensures e.Create? ==>
              Next(s, e, range).rows == if e.id in s.rows then s.rows else s.rows[e.id := e.model.(lastRunTime := None)]
    ensures e.Delete? ==> Next(s, e, range).rows == s.rows - {e.id}
    ensures e.Tick? ==> Next(s, e, range).rows.Keys == s.rows.Keys
    ensures e.Tick? && id in s.rows ==>
              Next(s, e, range).rows[id] ==
              if !e.dbFails && ClockOk(e.now, range) && id in Due(s.cache, e.now, range)
              then s.rows[id].(lastRunTime := Some(e.now / 1_000_000)) else s.rows[id]
    ensures e.Reload? || e.Refresh? || e.Forget? || e.Restart? ==> Next(s, e, range).rows == s.rows
  {
  }

  function Exec(s: System, es: seq<Event>, range: Range): System {
    if es == [] then s else Next(Exec(s, Front(es), range), Last(es), range)
  }

  /** The event leaves `job` enabled on `schedule` and does not delete it. */
  ghost predicate Spares(e: Event, job: I64, schedule: Schedule) {
    match e
    case Edit(id, enable, parsed) => id == job ==> enable && parsed == Some(schedule)
    case Delete(id) => id != job
    case Forget(id) => id != job
    case Create(id, _) => id != job
    case _ => true
  }

  // ---- What one job sees ----

  /** The row keeps the job enabled on the schedule, with a recorded last run. */
  ghost predicate RowOk(m: Model, schedule: Schedule) {
    m.enable && m.parsed == Some(schedule) && m.lastRunTime.Some?
  }

  /** Until the job has run in this process, every version of its row carries the last run that is cached. */
  ghost predicate Tracked(s: System, job: I64, schedule: Schedule) {
    && job in s.cache.byId && s.cache.byId[job].enable && s.cache.byId[job].schedule == schedule
    && s.cache.byId[job].lastRunTime.Some?
    && (forall v :: 0 <= v < |Versions(s)| ==> job in Versions(s)[v] && RowOk(Versions(s)[v][job], schedule))
    && (job !in s.cache.lastRunTimes ==>
          forall v :: 0 <= v < |Versions(s)| ==> Versions(s)[v][job].lastRunTime == s.cache.byId[job].lastRunTime)
  }

  /** The job's last run as the scheduler knows it, in milliseconds. */
  ghost function LastMs(s: System, job: I64): I64
    requires job in s.cache.byId && s.cache.byId[job].lastRunTime.Some?
  {
    if job in s.cache.lastRunTimes then s.cache.lastRunTimes[job] else s.cache.byId[job].lastRunTime.value
  }

  /** The table knows it too. */
  ghost predicate Persisted(s: System, job: I64, schedule: Schedule)
    requires Tracked(s, job, schedule)
  {
    Versions(s)[|s.past|] == s.rows && s.rows[job].lastRunTime == Some(LastMs(s, job))
  }

  lemma WriteKeepsTracked(s: System, rows: Rows, job: I64, schedule: Schedule)
    requires Tracked(s, job, schedule)
    requires job in rows && RowOk(rows[job], schedule)
    requires job !in s.cache.lastRunTimes ==> rows[job].lastRunTime == s.cache.byId[job].lastRunTime
    ensures Tracked(Write(s, rows), job, schedule)
  {
    var s' := Write(s, rows);
    assert Versions(s') == Versions(s) + [rows];
  }

  /** Every event but a restart. */
  lemma EventKeepsTracked(s: System, e: Event, range: Range, job: I64, schedule: Schedule)
    requires Tracked(s, job, schedule) && Spares(e, job, schedule) && !e.Restart?
    ensures Tracked(Next(s, e, range), job, schedule)
  {
    assert Versions(s)[|s.past|] == s.rows;
    match e
    case Tick(now, dbFails) =>
      if ClockOk(now, range) {
        var due := Due(s.cache, now, range);
        var s' := s.(cache := MarkRun(s.cache, due, Millis(now)));
        assert Versions(s') == Versions(s);
        assert Tracked(s', job, schedule);
        if !dbFails {
          WriteKeepsTracked(s', StoreRun(s.rows, due, Millis(now)), job, schedule);
        }
      }
    case Reload(v) => assert Versions(Next(s, e, range)) == Versions(s);
    case Refresh(id, v) => assert Versions(Next(s, e, range)) == Versions(s);
    case Edit(id, enable, parsed) =>
      if id in s.rows {
        WriteKeepsTracked(s, s.rows[id := s.rows[id].(enable := enable, parsed := parsed)], job, schedule);
      }
    case Create(id, m) =>
      if id !in s.rows {
        WriteKeepsTracked(s, s.rows[id := m.(lastRunTime := None)], job, schedule);
      }
    case Delete(id) => WriteKeepsTracked(s, s.rows - {id}, job, schedule);
    case Forget(id) => assert Versions(Next(s, e, range)) == Versions(s);
  }

  /** A restart reads the table: if that knows the last run, nothing is forgotten. */
  lemma RestartKeepsTracked(s: System, range: Range, job: I64, schedule: Schedule)
    requires Tracked(s, job, schedule) && Persisted(s, job, schedule)
    ensures var s' := Next(s, Restart, range);
            Tracked(s', job, schedule) && Persisted(s', job, schedule) && LastMs(s', job) == LastMs(s, job)
  {
    var s' := Next(s, Restart, range);
    assert Versions(s') == [s.rows];
    assert RowOk(Versions(s)[|s.past|][job], schedule);
  }

  /** As long as no write fails, the table keeps up. */
  lemma EventKeepsPersisted(s: System, e: Event, range: Range, job: I64, schedule: Schedule)
    requires Tracked(s, job, schedule) && Persisted(s, job, schedule) && Spares(e, job, schedule) && !e.Restart?
    requires e.Tick? ==> !e.dbFails
    ensures Tracked(Next(s, e, range), job, schedule) && Persisted(Next(s, e, range), job, schedule)
  {
    EventKeepsTracked(s, e, range, job, schedule);
    assert Versions(Next(s, e, range))[|Next(s, e, range).past|] == Next(s, e, range).rows;
  }

  // ---- Firings ----

  /** A run of the job: it serves the instants after `last` up to and including `now`. */
  datatype Firing = Firing(last: int, now: int)

  predicate Serves(f: Firing, t: int) {
    f.last < t <= f.now
  }

  function LastOf(s: System, job: I64, now: int, range: Range): int
    requires job in s.cache.byId
  {
    LastRun(GetLast(s.cache, job), now, range)
  }

  function FiringsOf(s: System, e: Event, job: I64, range: Range): seq<Firing> {
    if e.Tick? && ClockOk(e.now, range) && IsDue(s.cache, job, e.now, range)
    then [Firing(LastOf(s, job, e.now, range), e.now)]
    else []
  }

  function Firings(s: System, es: seq<Event>, job: I64, range: Range): seq<Firing> {
    if es == [] then []
    else Firings(s, Front(es), job, range) + FiringsOf(Exec(s, Front(es), range), Last(es), job, range)
  }

  function Count(fs: seq<Firing>, t: int): nat {
    if fs == [] then 0 else Count(Front(fs), t) + if Serves(Last(fs), t) then 1 else 0
  }

  /** The latest clock reading of the run, and at least `start`. */
  function Latest(start: int, es: seq<Event>, range: Range): int {
    if es == [] then start
    else
      var before := Latest(start, Front(es), range);
      if Last(es).Tick? && ClockOk(Last(es).now, range) then Max(before, Last(es).now) else before
  }

  /** Where the job stands: everything up to here has been served or is before the recorded last run. */
  ghost function Frontier(s: System, job: I64): int
    requires job in s.cache.byId && s.cache.byId[job].lastRunTime.Some?
  {
    LastMs(s, job) * NS_PER_MS
  }

  ghost predicate NoInstantBetween(schedule: Schedule, a: int, b: int) {
    forall u :: a < u <= b ==> !IsInstant(schedule, u)
  }

  /** The job is tracked, and its last run is a representable time. */
  ghost predicate Ready(s: System, job: I64, schedule: Schedule, range: Range) {
    Tracked(s, job, schedule) && Represents(range, LastMs(s, job))
  }

  lemma MillisFloor(now: int, u: int)
    requires u % NS_PER_MS == 0
    ensures u <= now <==> u <= Millis(now) * NS_PER_MS
    ensures Millis(now) * NS_PER_MS <= now
  {
    var k := u / NS_PER_MS;
    assert u == k * NS_PER_MS;
    if k > Millis(now) {
      assert k * NS_PER_MS >= (Millis(now) + 1) * NS_PER_MS;
    } else {
      assert k * NS_PER_MS <= Millis(now) * NS_PER_MS;
    }
  }

  /** The firings `fs` serve every instant between the two frontiers once, and no other. */
  ghost predicate ServesBetween(fs: seq<Firing>, schedule: Schedule, from: int, to: int) {
    forall u :: IsInstant(schedule, u) ==> Count(fs, u) == if from < u <= to then 1 else 0
  }

  /** One firing at `now` serves what lies up to the stored millisecond of `now`. */
  lemma FiringServes(schedule: Schedule, from: int, now: int)
    requires IsSchedule(schedule)
    ensures ServesBetween([Firing(from, now)], schedule, from, Millis(now) * NS_PER_MS)
    ensures NoInstantBetween(schedule, Millis(now) * NS_PER_MS, now)
  {
    forall u | IsInstant(schedule, u)
      ensures u <= now <==> u <= Millis(now) * NS_PER_MS
    {
      MillisFloor(now, u);
    }
    assert Front([Firing(from, now)]) == [];
  }

  /** A due instant lies before the clock, so the frontier moves forward. */
  lemma DueMovesFrontier(s: System, now: int, dbFails: bool, range: Range, job: I64, schedule: Schedule)
    requires IsSchedule(schedule) && Ready(s, job, schedule, range) && ClockOk(now, range) && IsDue(s.cache, job, now, range)
    requires Tracked(Next(s, Tick(now, dbFails), range), job, schedule)
    ensures var s' := Next(s, Tick(now, dbFails), range);
            && Ready(s', job, schedule, range)
            && Frontier(s, job) <= Frontier(s', job) == Millis(now) * NS_PER_MS <= now
            && FiringsOf(s, Tick(now, dbFails), job, range) == [Firing(Frontier(s, job), now)]
  {
    assert LastOf(s, job, now, range) == Frontier(s, job);
    MillisFloor(now, schedule(Frontier(s, job)).value);
  }

  /** Without a due instant nothing moves, and nothing lies between the frontier and the clock. */
  lemma NotDueKeepsFrontier(s: System, now: int, dbFails: bool, range: Range, job: I64, schedule: Schedule)
    requires IsSchedule(schedule) && Ready(s, job, schedule, range) && ClockOk(now, range) && !IsDue(s.cache, job, now, range)
    requires Tracked(Next(s, Tick(now, dbFails), range), job, schedule)
    ensures var s' := Next(s, Tick(now, dbFails), range);
            && Ready(s', job, schedule, range)
            && Frontier(s', job) == Frontier(s, job)
            && NoInstantBetween(schedule, Frontier(s, job), now)
            && FiringsOf(s, Tick(now, dbFails), job, range) == []
  {
    assert LastOf(s, job, now, range) == Frontier(s, job);
  }

  /** A tick moves the frontier past every instant up to the clock, and only over instants it serves. */
  lemma TickServes(s: System, now: int, dbFails: bool, range: Range, job: I64, schedule: Schedule)
    requires IsSchedule(schedule) && Ready(s, job, schedule, range) && ClockOk(now, range)
    ensures Ready(Next(s, Tick(now, dbFails), range), job, schedule, range)
    ensures var old', new' := Frontier(s, job), Frontier(Next(s, Tick(now, dbFails), range), job);
            && old' <= new'
            && (new' != old' ==> new' <= now)
            && NoInstantBetween(schedule, new', now)
            && ServesBetween(FiringsOf(s, Tick(now, dbFails), job, range), schedule, old', new')
  {
    EventKeepsTracked(s, Tick(now, dbFails), range, job, schedule);
    if IsDue(s.cache, job, now, range) {
      DueMovesFrontier(s, now, dbFails, range, job, schedule);
      FiringServes(schedule, Frontier(s, job), now);
    } else {
      NotDueKeepsFrontier(s, now, dbFails, range, job, schedule);
    }
  }

  lemma {:induction false} OtherEventKeepsFrontier(s: System, e: Event, range: Range, job: I64, schedule: Schedule)
    requires Tracked(s, job, schedule) && Spares(e, job, schedule) && !e.Restart?
    requires !e.Tick? || !ClockOk(e.now, range)
    ensures Tracked(Next(s, e, range), job, schedule) && LastMs(Next(s, e, range), job) == LastMs(s, job)
    ensures FiringsOf(s, e, job, range) == []
  {
    EventKeepsTracked(s, e, range, job, schedule);
    assert Versions(s)[|s.past|] == s.rows;
  }

  lemma CountAppend(a: seq<Firing>, b: seq<Firing>, u: int)
    requires |b| <= 1
    ensures Count(a + b, u) == Count(a, u) + Count(b, u)
  {
    if b == [] {
      assert a + b == a;
    } else {
      assert Front(a + b) == a && Front(b) == [];
    }
  }

  ghost predicate AllSpare(es: seq<Event>, job: I64, schedule: Schedule) {
    forall i :: 0 <= i < |es| ==> Spares(es[i], job, schedule)
  }

  ghost predicate WritesFail(es: seq<Event>) {
    exists i :: 0 <= i < |es| && es[i].Tick? && es[i].dbFails
  }

  /** No restart comes after a tick whose write failed. */
  ghost predicate Durable(es: seq<Event>) {
    forall i, j :: 0 <= i < j < |es| && es[i].Tick? && es[i].dbFails ==> !es[j].Restart?
  }

  /** Where a run stands: everything up to the frontier has been served once, and nothing else. */
  ghost predicate Served(s: System, es: seq<Event>, range: Range, job: I64, schedule: Schedule)
    requires Tracked(s, job, schedule)
  {
    var s', start := Exec(s, es, range), Frontier(s, job);
    && Ready(s', job, schedule, range)
    && start <= Frontier(s', job) <= Latest(start, es, range)
    && NoInstantBetween(schedule, Frontier(s', job), Latest(start, es, range))
    && ServesBetween(Firings(s, es, job, range), schedule, start, Frontier(s', job))
  }

  /** Serving up to `mid` and then from `mid` on serves the whole stretch. */
  lemma ServesJoin(a: seq<Firing>, b: seq<Firing>, schedule: Schedule, from: int, mid: int, to: int)
    requires |b| <= 1 && from <= mid <= to
    requires ServesBetween(a, schedule, from, mid) && ServesBetween(b, schedule, mid, to)
    ensures ServesBetween(a + b, schedule, from, to)
  {
    forall u | IsInstant(schedule, u)
      ensures Count(a + b, u) == if from < u <= to then 1 else 0
    {
      CountAppend(a, b, u);
    }
  }

  lemma {:induction false} TickExtends(s: System, es: seq<Event>, range: Range, job: I64, schedule: Schedule)
    requires es != [] && IsSchedule(schedule) && Last(es).Tick? && ClockOk(Last(es).now, range)
    requires Tracked(s, job, schedule) && Served(s, Front(es), range, job, schedule)
    ensures Served(s, es, range, job, schedule)
  {
    var before, e := Exec(s, Front(es), range), Last(es);
    TickServes(before, e.now, e.dbFails, range, job, schedule);
    ServesJoin(Firings(s, Front(es), job, range), FiringsOf(before, e, job, range), schedule,
               Frontier(s, job), Frontier(before, job), Frontier(Exec(s, es, range), job));
  }

  /** An event that neither fires the job nor moves its frontier. */
  lemma {:induction false} QuietExtends(s: System, es: seq<Event>, range: Range, job: I64, schedule: Schedule)
    requires es != [] && (!Last(es).Tick? || !ClockOk(Last(es).now, range))
    requires Tracked(s, job, schedule) && Served(s, Front(es), range, job, schedule)
    requires Tracked(Exec(s, es, range), job, schedule)
    requires LastMs(Exec(s, es, range), job) == LastMs(Exec(s, Front(es), range), job)
    ensures Served(s, es, range, job, schedule)
  {
    var earlier := Firings(s, Front(es), job, range);
    assert earlier + [] == earlier;
  }

  /** Before a write has failed, the table is up to date. */
  ghost predicate UpToDate(s: System, es: seq<Event>, range: Range, job: I64, schedule: Schedule) {
    WritesFail(es) || (Tracked(Exec(s, es, range), job, schedule) && Persisted(Exec(s, es, range), job, schedule))
  }

  lemma {:induction false} EventExtends(s: System, es: seq<Event>, range: Range, job: I64, schedule: Schedule)
    requires es != [] && IsSchedule(schedule) && Tracked(s, job, schedule) && Spares(Last(es), job, schedule)
    requires Served(s, Front(es), range, job, schedule) && UpToDate(s, Front(es), range, job, schedule)
    requires Last(es).Restart? ==> !WritesFail(Front(es))
    requires WritesFail(es) <==> WritesFail(Front(es)) || (Last(es).Tick? && Last(es).dbFails)
    ensures Served(s, es, range, job, schedule) && UpToDate(s, es, range, job, schedule)
  {
    var before, e := Exec(s, Front(es), range), Last(es);
    if e.Restart? {
      RestartKeepsTracked(before, range, job, schedule);
      QuietExtends(s, es, range, job, schedule);
    } else {
      if !WritesFail(es) {
        EventKeepsPersisted(before, e, range, job, schedule);
      }
      if e.Tick? && ClockOk(e.now, range) {
        TickExtends(s, es, range, job, schedule);
      } else {
        OtherEventKeepsFrontier(before, e, range, job, schedule);
        QuietExtends(s, es, range, job, schedule);
      }
    }
  }

  lemma FrontOfRun(es: seq<Event>, job: I64, schedule: Schedule)
    requires es != [] && AllSpare(es, job, schedule) && Durable(es)
    ensures AllSpare(Front(es), job, schedule) && Durable(Front(es)) && Spares(Last(es), job, schedule)
    ensures WritesFail(es) <==> WritesFail(Front(es)) || (Last(es).Tick? && Last(es).dbFails)
    ensures Last(es).Restart? ==> !WritesFail(Front(es))
  {
    var n := |es| - 1;
    assert forall i :: 0 <= i < n ==> Front(es)[i] == es[i];
    assert Spares(es[n], job, schedule);
    if WritesFail(es) && !(Last(es).Tick? && Last(es).dbFails) {
      var i :| 0 <= i < |es| && es[i].Tick? && es[i].dbFails;
      assert Front(es)[i] == es[i];
    }
    if WritesFail(Front(es)) {
      var i :| 0 <= i < n && Front(es)[i].Tick? && Front(es)[i].dbFails;
      assert es[i].Tick? && es[i].dbFails;
    }
  }

  lemma {:induction false} RunServes(s: System, es: seq<Event>, range: Range, job: I64, schedule: Schedule)
    requires IsSchedule(schedule) && Ready(s, job, schedule, range) && Persisted(s, job, schedule)
    requires AllSpare(es, job, schedule) && Durable(es)
    ensures Served(s, es, range, job, schedule) && UpToDate(s, es, range, job, schedule)
  {
    if es != [] {
      FrontOfRun(es, job, schedule);
      RunServes(s, Front(es), range, job, schedule);
      EventExtends(s, es, range, job, schedule);
    }
  }

  /**
   Exactly once: after any events that spare the job, restarts included, and with a clock that may jump either
   way, a scheduled instant has been served once if it lies after the recorded last run and not after the latest
   tick, and never otherwise, provided that no restart follows a tick whose write failed.
   */
  lemma InstantsAreServedExactlyOnce(s: System, es: seq<Event>, range: Range, job: I64, schedule: Schedule, t: int)
    requires IsSchedule(schedule) && Ready(s, job, schedule, range) && Persisted(s, job, schedule)
    requires AllSpare(es, job, schedule) && Durable(es) && IsInstant(schedule, t)
    ensures var start := Frontier(s, job);
            Count(Firings(s, es, job, range), t) == if start < t <= Latest(start, es, range) then 1 else 0
  {
    RunServes(s, es, range, job, schedule);
  }

  /** The proviso is needed: a failed write, a restart and another tick serve every instant of the first tick twice. */
  lemma LostWriteServesTwice(s: System, now: int, range: Range, job: I64, schedule: Schedule, t: int)
    requires IsSchedule(schedule) && Ready(s, job, schedule, range) && Persisted(s, job, schedule) && ClockOk(now, range)
    requires IsInstant(schedule, t) && Frontier(s, job) < t <= now
    ensures Count(Firings(s, [Tick(now, true), Restart, Tick(now, false)], job, range), t) == 2
  {
    var s1 := Next(s, Tick(now, true), range);
    var s2 := Next(s1, Restart, range);
    FiresAt(s, now, true, range, job, schedule, t);
    RestartForgets(s, now, range, job, schedule);
    FiresAt(s2, now, false, range, job, schedule, t);
    TwoFirings(s, Tick(now, true), Restart, Tick(now, false), job, range, t);
  }

  lemma TwoFirings(s: System, x: Event, y: Event, z: Event, job: I64, range: Range, t: int)
    requires var a := FiringsOf(s, x, job, range); |a| == 1 && Count(a, t) == 1
    requires FiringsOf(Next(s, x, range), y, job, range) == []
    requires var b := FiringsOf(Next(Next(s, x, range), y, range), z, job, range); |b| == 1 && Count(b, t) == 1
    ensures Count(Firings(s, [x, y, z], job, range), t) == 2
  {
    FiringsOfThree(s, x, y, z, job, range);
    var a, b := FiringsOf(s, x, job, range), FiringsOf(Next(Next(s, x, range), y, range), z, job, range);
    assert a + [] + b == a + b;
    CountAppend(a, b, t);
  }

  lemma FiringsOfThree(s: System, x: Event, y: Event, z: Event, job: I64, range: Range)
    ensures var s1 := Next(s, x, range);
            Firings(s, [x, y, z], job, range) ==
            FiringsOf(s, x, job, range) + FiringsOf(s1, y, job, range) + FiringsOf(Next(s1, y, range), z, job, range)
  {
    OneMoreEvent(s, [], x, job, range);
    OneMoreEvent(s, [x], y, job, range);
    OneMoreEvent(s, [x, y], z, job, range);
    assert [] + [x] == [x] && [x] + [y] == [x, y] && [x, y] + [z] == [x, y, z];
  }

  lemma OneMoreEvent(s: System, es: seq<Event>, e: Event, job: I64, range: Range)
    ensures Firings(s, es + [e], job, range) == Firings(s, es, job, range) + FiringsOf(Exec(s, es, range), e, job, range)
    ensures Exec(s, es + [e], range) == Next(Exec(s, es, range), e, range)
  {
    assert Front(es + [e]) == es;
  }

  lemma FiresAt(s: System, now: int, dbFails: bool, range: Range, job: I64, schedule: Schedule, t: int)
    requires IsSchedule(schedule) && Ready(s, job, schedule, range) && ClockOk(now, range)
    requires IsInstant(schedule, t) && Frontier(s, job) < t <= now
    ensures var fs := FiringsOf(s, Tick(now, dbFails), job, range); |fs| == 1 && Count(fs, t) == 1
  {
    assert LastOf(s, job, now, range) == Frontier(s, job);
    var fs := FiringsOf(s, Tick(now, dbFails), job, range);
    assert fs == [Firing(Frontier(s, job), now)] && Front(fs) == [];
  }

  /** After a tick whose write failed, a restart goes back to the last run that the table knows. */
  lemma RestartForgets(s: System, now: int, range: Range, job: I64, schedule: Schedule)
    requires Ready(s, job, schedule, range) && Persisted(s, job, schedule) && ClockOk(now, range)
    ensures var s2 := Next(Next(s, Tick(now, true), range), Restart, range);
            Ready(s2, job, schedule, range) && Frontier(s2, job) == Frontier(s, job)
  {
    var s2 := Next(Next(s, Tick(now, true), range), Restart, range);
    assert Versions(s2) == [s.rows];
    assert RowOk(Versions(s)[|s.past|][job], schedule);
  }

  // ---- Disabled jobs ----

  /** The job is disabled in the cache and in every version of the table. */
  ghost predicate Disabled(s: System, job: I64) {
    && (job in s.cache.byId ==> !s.cache.byId[job].enable)
    && forall v :: 0 <= v < |Versions(s)| && job in Versions(s)[v] ==> !Versions(s)[v][job].enable
  }

  /** The event does not enable the job. */
  ghost predicate LeavesDisabled(e: Event, job: I64) {
    match e
    case Edit(id, enable, _) => id == job ==> !enable
    case Create(id, m) => id == job ==> !m.enable
    case _ => true
  }

  lemma EventKeepsDisabled(s: System, e: Event, range: Range, job: I64)
    requires Disabled(s, job) && LeavesDisabled(e, job)
    ensures Disabled(Next(s, e, range), job) && FiringsOf(s, e, job, range) == []
  {
    var s' := Next(s, e, range);
    assert Versions(s)[|s.past|] == s.rows;
    if s'.past == s.past && s'.rows == s.rows {
      assert Versions(s') == Versions(s);
    } else if e.Restart? {
      assert Versions(s') == [s.rows];
    } else {
      assert Versions(s') == Versions(s) + [s'.rows];
    }
  }

  /** A job that stays disabled never runs, whatever else happens. */
  lemma {:induction false} DisabledJobsNeverRun(s: System, es: seq<Event>, range: Range, job: I64)
    requires Disabled(s, job) && forall i :: 0 <= i < |es| ==> LeavesDisabled(es[i], job)
    ensures Disabled(Exec(s, es, range), job) && Firings(s, es, job, range) == []
  {
    if es != [] {
      assert forall i :: 0 <= i < |Front(es)| ==> Front(es)[i] == es[i];
      DisabledJobsNeverRun(s, Front(es), range, job);
      assert LeavesDisabled(es[|es| - 1], job);
      EventKeepsDisabled(Exec(s, Front(es), range), Last(es), range, job);
    }
  }
}
