/**
 Start-up configuration of TimescaleDB: tables become hypertables, and compression and retention policies
 are re-applied. Any statement may fail; a failure degrades and never aborts.
 */
module TimescaleSetup {
  import opened Base
  import opened TimescaleConfig

  datatype CompressionPolicy = CompressionPolicy(compressAfter: U64, schedule: U64)

  /** What the database knows about one managed table. */
  datatype Table = Table(
    hypertable: bool,
    keyWidened: bool,
    nullTimes: bool,
    chunkMs: Option<I64>,
    nowFunc: bool,
    compression: bool,
    policy: Option<CompressionPolicy>,
    retention: Option<U64>)

  /** What TimescaleDB guarantees of any table: everything but the key hangs off the hypertable. */
  ghost predicate Coherent(t: Table) {
    && (t.keyWidened ==> !t.nullTimes)
    && (t.hypertable ==> t.keyWidened)
    && (!t.hypertable ==> t.chunkMs.None? && !t.nowFunc && !t.compression && t.retention.None?)
    && (t.policy.Some? ==> t.compression)
  }

  datatype Statement =
    | ProbeExtension
    | CurrentSchema
    | CurrentSchemaOnSkip
    | CreateFunction
    | IsHypertable(table: string)
    | NullCheck(table: string)
    | WidenKey(table: string)
    | CreateHypertable(table: string, chunkInterval: U64)
    | HasNowFunc(table: string)
    | SetNowFunc(table: string)
    | SetRetention(table: string, dropAfter: Option<U64>)
    | IsCompressionEnabled(table: string)
    | EnableCompression(table: string)
    | ReadChunkInterval(table: string)
    | SetCompressionPolicy(table: string, settings: CompressionPolicy)

  /** Which statements fail for reasons of their own: rights, connection, locks. */
  type Faults = Statement -> bool

  /** What the database itself demands of a statement. */
  predicate Legal(s: Statement, t: Table) {
    match s
    case WidenKey(_) => !t.hypertable && !t.nullTimes
    case CreateHypertable(_, interval) => !t.hypertable && t.keyWidened && interval > 0
    case SetNowFunc(_) => t.hypertable && !t.nowFunc
    case SetRetention(_, dropAfter) => t.hypertable && (dropAfter.Some? ==> t.nowFunc)
    case EnableCompression(_) => t.hypertable && !t.compression
    case SetCompressionPolicy(_, _) => t.compression && t.nowFunc
    case _ => true
  }

  function Effect(s: Statement, t: Table): Table {
    match s
    case WidenKey(_) => t.(keyWidened := true)
    case CreateHypertable(_, interval) => t.(hypertable := true, chunkMs := if interval <= I64_MAX then Some(interval) else None)
    case SetNowFunc(_) => t.(nowFunc := true)
    case SetRetention(_, dropAfter) => t.(retention := dropAfter)
    case EnableCompression(_) => t.(compression := true)
    case SetCompressionPolicy(_, settings) => t.(policy := Some(settings))
    case _ => t
  }

  /** The table after a statement, and whether it succeeded; each request is one implicit transaction. */
  function Executed(s: Statement, t: Table, f: Faults): (Table, bool) {
    if f(s) || !Legal(s, t) then (t, false) else (Effect(s, t), true)
  }

  lemma StatementKeepsCoherent(s: Statement, t: Table, f: Faults)
    requires Coherent(t)
    ensures Coherent(Executed(s, t, f).0)
  {
  }

  // ---- One table ----

  function Converted(n: string, t: Table, c: Config, f: Faults): (Table, bool) {
    if t.hypertable then (t, true)
    else if HoursToMs(ChunkHours(c)).None? || f(NullCheck(n)) || t.nullTimes then (t, false)
    else
      var (widened, ok) := Executed(WidenKey(n), t, f);
      if !ok then (widened, false)
      else Executed(CreateHypertable(n, HoursToMs(ChunkHours(c)).value), widened, f)
  }

  function NowFuncSet(n: string, t: Table, f: Faults): (Table, bool) {
    if f(HasNowFunc(n)) then (t, false)
    else if t.nowFunc then (t, true)
    else Executed(SetNowFunc(n), t, f)
  }

  function RetentionApplied(n: string, t: Table, c: Config, f: Faults): (Table, bool) {
    if c.retentionDays > 0 then
      if DaysToMs(c.retentionDays).None? then (t, false)
      else Executed(SetRetention(n, DaysToMs(c.retentionDays)), t, f)
    else Executed(SetRetention(n, None), t, f)
  }

  function CompressionEnabled(n: string, t: Table, f: Faults): (Table, bool) {
    if f(IsCompressionEnabled(n)) then (t, false)
    else if t.compression then (t, true)
    else Executed(EnableCompression(n), t, f)
  }

  function CompressionApplied(n: string, t: Table, c: Config, f: Faults): (Table, bool) {
    var (enabled, ok) := CompressionEnabled(n, t, f);
    if !ok || HoursToMs(ChunkHours(c)).None? || f(ReadChunkInterval(n)) || HoursToMs(CompressHours(c)).None? then
      (enabled, false)
    else
      var schedule := CompressionScheduleMs(enabled.chunkMs, HoursToMs(ChunkHours(c)).value);
      Executed(SetCompressionPolicy(n, CompressionPolicy(HoursToMs(CompressHours(c)).value, schedule)), enabled, f)
  }

  function PoliciesApplied(n: string, t: Table, c: Config, f: Faults): (Table, bool) {
    var (retained, retentionOk) := RetentionApplied(n, t, c, f);
    var (compressed, compressionOk) := CompressionApplied(n, retained, c, f);
    (compressed, compressionOk && retentionOk)
  }

  /** `None` is an error return: neither policy was looked at. */
  function TableSetUp(n: string, t: Table, c: Config, f: Faults): (Table, Option<bool>) {
    if f(IsHypertable(n)) then (t, None)
    else
      var (converted, ok1) := Converted(n, t, c, f);
      if !ok1 then (converted, None)
      else
        var (timed, ok2) := NowFuncSet(n, converted, f);
        if !ok2 then (timed, None)
        else
          var (configured, ok3) := PoliciesApplied(n, timed, c, f);
          (configured, Some(ok3))
  }

  // ---- Skipping ----

  predicate WantsNoDeletion(c: Config) {
    c.retentionDays == 0 || (c.retentionDays > 0 && DaysToMs(c.retentionDays).None?)
  }

  function TableSkipped(n: string, t: Table, c: Config, f: Faults): Table {
    if !WantsNoDeletion(c) || f(CurrentSchemaOnSkip) then t
    else if !f(IsHypertable(n)) && !t.hypertable then t
    else Executed(SetRetention(n, None), t, f).0
  }

  // ---- The whole run ----

  datatype Server = Server(postgres: bool, extension: bool)

  datatype Path = Untouched | SkippedSetup | FullSetup

  function PathOf(server: Server, c: Config, f: Faults): Path {
    if !server.postgres || f(ProbeExtension) || !server.extension then Untouched
    else if !IsEnabled(c) || !Validate(c) then SkippedSetup
    else if f(CurrentSchema) then Untouched
    else if f(CreateFunction) then SkippedSetup
    else FullSetup
  }

  function TableAfter(server: Server, n: string, t: Table, c: Config, f: Faults): Table {
    match PathOf(server, c, f)
    case Untouched => t
    case SkippedSetup => TableSkipped(n, t, c, f)
    case FullSetup => TableSetUp(n, t, c, f).0
  }

  const TABLES: seq<string> := ["dynamic_monitoring", "dynamic_monitoring_summary", "traffic_snapshot"]

  type Tables = map<string, Table>

  ghost predicate HasAll(ts: Tables) {
    forall i :: 0 <= i < |TABLES| ==> TABLES[i] in ts
  }

  /** Managed tables change as stated, all others stay. */
  ghost function After(server: Server, ts: Tables, c: Config, f: Faults, n: nat): Tables
    requires HasAll(ts) && n <= |TABLES|
  {
    map k | k in ts :: if k in TABLES[..n] then TableAfter(server, k, ts[k], c, f) else ts[k]
  }

  class Database {
    const server: Server
    var tables: Tables

    constructor (server: Server, tables: Tables)
      ensures this.server == server && this.tables == tables
    {
      this.server, this.tables := server, tables;
    }

    method Execute(n: string, s: Statement, f: Faults) returns (ok: bool)
      requires n in tables
      modifies this
      ensures var r := Executed(s, old(tables)[n], f);
              tables == old(tables)[n := r.0] && ok == r.1
    {
      var r := Executed(s, tables[n], f);
      tables := tables[n := r.0];
      return r.1;
    }

    method ApplyRetentionPolicy(n: string, c: Config, f: Faults) returns (ok: bool)
      requires n in tables
      modifies this
      ensures var r := RetentionApplied(n, old(tables)[n], c, f);
              tables == old(tables)[n := r.0] && ok == r.1
    {
      if c.retentionDays > 0 {
        var ms := DaysToMs(c.retentionDays);
        if ms.None? {
          return false;
        }
        ok := Execute(n, SetRetention(n, ms), f);
      } else {
        ok := Execute(n, SetRetention(n, None), f);
      }
    }

    method ApplyCompression(n: string, c: Config, f: Faults) returns (ok: bool)
      requires n in tables
      modifies this
      ensures var r := CompressionApplied(n, old(tables)[n], c, f);
              tables == old(tables)[n := r.0] && ok == r.1
    {
      if f(IsCompressionEnabled(n)) {
        return false;
      }
      if !tables[n].compression {
        var done := Execute(n, EnableCompression(n), f);
        if !done {
          return false;
        }
      }
      var configured := HoursToMs(ChunkHours(c));
      if configured.None? || f(ReadChunkInterval(n)) {
        return false;
      }
      var schedule := CompressionScheduleMs(tables[n].chunkMs, configured.value);
      var compressAfter := HoursToMs(CompressHours(c));
      if compressAfter.None? {
        return false;
      }
      ok := Execute(n, SetCompressionPolicy(n, CompressionPolicy(compressAfter.value, schedule)), f);
    }

    /** First part of `setup_table`, for a table that may not be a hypertable yet. */
    method Convert(n: string, c: Config, f: Faults) returns (ok: bool)
      requires n in tables
      modifies this
      ensures var r := Converted(n, old(tables)[n], c, f);
              tables == old(tables)[n := r.0] && ok == r.1
    {
      if tables[n].hypertable {
        return true;
      }
      var chunkMs := HoursToMs(ChunkHours(c));
      if chunkMs.None? || f(NullCheck(n)) || tables[n].nullTimes {
        return false;
      }
      ok := Execute(n, WidenKey(n), f);
      if ok {
        ok := Execute(n, CreateHypertable(n, chunkMs.value), f);
      }
    }

    method RegisterNowFunc(n: string, f: Faults) returns (ok: bool)
      requires n in tables
      modifies this
      ensures var r := NowFuncSet(n, old(tables)[n], f);
              tables == old(tables)[n := r.0] && ok == r.1
    {
      if f(HasNowFunc(n)) {
        return false;
      }
      if tables[n].nowFunc {
        return true;
      }
      ok := Execute(n, SetNowFunc(n), f);
    }

    /** The last part of `setup_table`: a failing policy does not keep the other from being applied. */
    method ApplyPolicies(n: string, c: Config, f: Faults) returns (r: Option<bool>)
      requires n in tables
      modifies this
      ensures var spec := PoliciesApplied(n, old(tables)[n], c, f);
              tables == old(tables)[n := spec.0] && r == Some(spec.1)
    {
      var retentionOk := ApplyRetentionPolicy(n, c, f);
      var strategiesOk := ApplyCompression(n, c, f);
      return Some(strategiesOk && retentionOk);
    }

    method SetupTable(n: string, c: Config, f: Faults) returns (r: Option<bool>)
      requires n in tables
      modifies this
      ensures var spec := TableSetUp(n, old(tables)[n], c, f);
              tables == old(tables)[n := spec.0] && r == spec.1
    {
      if f(IsHypertable(n)) {
        return None;
      }
      var converted := Convert(n, c, f);
      if !converted {
        return None;
      }
      var registered := RegisterNowFunc(n, f);
      if !registered {
        return None;
      }
      r := ApplyPolicies(n, c, f);
    }

    method ReconcileRetentionOnSkip(c: Config, f: Faults)
      requires HasAll(tables) && PathOf(server, c, f) == SkippedSetup
      modifies this
      ensures tables == After(server, old(tables), c, f, |TABLES|)
    {
      var unusable := c.retentionDays > 0 && DaysToMs(c.retentionDays).None?;
      if !(c.retentionDays == 0 || unusable) || f(CurrentSchemaOnSkip) {
        return;
      }
      for i := 0 to |TABLES|
        invariant tables == After(server, old(tables), c, f, i)
      {
        var n := TABLES[i];
        TableStep(server, old(tables), c, f, i);
        if !f(IsHypertable(n)) && !tables[n].hypertable {
          continue;
        }
        var removed := Execute(n, SetRetention(n, None), f);
      }
    }

    /** `failures` counts the tables that did not come out fully configured. */
    method SetupTimescaleIfAvailable(config: Option<Config>, f: Faults) returns (failures: nat)
      requires HasAll(tables)
      modifies this
      ensures var c := if config.Some? then config.value else DEFAULT;
              && tables == After(server, old(tables), c, f, |TABLES|)
              && failures == FailuresUpTo(server, old(tables), c, f, |TABLES|)
    {
      failures := 0;
      var c := if config.Some? then config.value else DEFAULT;
      ghost var before := tables;
      NoFailuresElsewhere(server, before, c, f, |TABLES|);
      if !server.postgres {
        return;
      }
      if !IsEnabled(c) {
        if !f(ProbeExtension) && server.extension {
          ReconcileRetentionOnSkip(c, f);
        }
        return;
      }
      if f(ProbeExtension) || !server.extension {
        return;
      }
      if !Validate(c) {
        ReconcileRetentionOnSkip(c, f);
        return;
      }
      if f(CurrentSchema) {
        return;
      }
      if f(CreateFunction) {
        ReconcileRetentionOnSkip(c, f);
        return;
      }
      for i := 0 to |TABLES|
        invariant tables == After(server, before, c, f, i)
        invariant failures == FailuresUpTo(server, before, c, f, i)
      {
        TableStep(server, before, c, f, i);
        var r := SetupTable(TABLES[i], c, f);
        if r != Some(true) {
          failures := failures + 1;
        }
      }
    }
  }

  lemma TableStep(server: Server, ts: Tables, c: Config, f: Faults, i: nat)
    requires HasAll(ts) && i < |TABLES|
    ensures After(server, ts, c, f, i)[TABLES[i]] == ts[TABLES[i]]
    ensures After(server, ts, c, f, i + 1)
         == After(server, ts, c, f, i)[TABLES[i] := TableAfter(server, TABLES[i], ts[TABLES[i]], c, f)]
  {
    assert TABLES[..i + 1] == TABLES[..i] + [TABLES[i]];
    assert TABLES[0] != TABLES[1] && TABLES[0] != TABLES[2] && TABLES[1] != TABLES[2];
    assert TABLES[i] !in TABLES[..i];
  }

  ghost function FailuresUpTo(server: Server, ts: Tables, c: Config, f: Faults, n: nat): nat
    requires HasAll(ts) && n <= |TABLES|
  {
    if n == 0 || PathOf(server, c, f) != FullSetup then 0
    else FailuresUpTo(server, ts, c, f, n - 1) +
         if FullyConfigured(TABLES[n - 1], ts[TABLES[n - 1]], c, f) then 0 else 1
  }

  ghost predicate FullyConfigured(n: string, t: Table, c: Config, f: Faults) {
    TableSetUp(n, t, c, f).1 == Some(true)
  }

  lemma NoFailuresElsewhere(server: Server, ts: Tables, c: Config, f: Faults, n: nat)
    requires HasAll(ts) && n <= |TABLES|
    ensures PathOf(server, c, f) != FullSetup ==> FailuresUpTo(server, ts, c, f, n) == 0
    ensures PathOf(server, c, f) == Untouched ==> After(server, ts, c, f, n) == ts
  {
  }

  // ---- Convergence ----

  ghost predicate NoFaults(f: Faults) {
    forall s :: !f(s)
  }

  /** Every duration of the configuration fits the database's integers. */
  predicate InRange(c: Config) {
    HoursToMs(ChunkHours(c)).Some? && HoursToMs(CompressHours(c)).Some?
  }

  ghost predicate Applies(server: Server, c: Config) {
    server.postgres && server.extension && IsEnabled(c) && Validate(c) && InRange(c)
  }

  /** The state fixed by the configuration and the chunk interval the hypertable already has. */
  ghost function Target(t: Table, c: Config): Table
    requires InRange(c) && Validate(c)
  {
    var configured := HoursToMs(ChunkHours(c)).value;
    var chunk := if t.hypertable then t.chunkMs else Some(configured);
    Table(true, true, false, chunk, true, true,
          Some(CompressionPolicy(HoursToMs(CompressHours(c)).value, CompressionScheduleMs(chunk, configured))),
          if c.retentionDays == 0 then None else Some(c.retentionDays * MS_PER_DAY))
  }

  /** When setup applies, by the fields of the configuration. */
  lemma AppliesByFields(server: Server, c: Config)
    ensures Applies(server, c) <==>
            && server == Server(true, true) && (c.enabled == None || c.enabled == Some(true))
            && c.retentionDays <= 106_751_991_167
            && 0 < HoursOf(c.chunkIntervalHours, c.chunkIntervalDays, 6) * 3_600_000 < 0x8000_0000_0000_0000
            && HoursOf(c.compressAfterHours, c.compressAfterDays, 12) * 3_600_000 < 0x8000_0000_0000_0000
  {
    SettingsByFields(c);
    DurationsByUnits(ChunkHours(c));
    DurationsByUnits(CompressHours(c));
  }

  /** The target, by the fields of the configuration: chunks, compression and retention in milliseconds. */
  lemma TargetByFields(t: Table, c: Config)
    requires InRange(c) && Validate(c)
    ensures var chunk := HoursOf(c.chunkIntervalHours, c.chunkIntervalDays, 6) * 3_600_000;
            var target := Target(t, c);
            && target.hypertable && target.keyWidened && !target.nullTimes && target.nowFunc && target.compression
            && target.chunkMs == (if t.hypertable then t.chunkMs else Some(chunk))
            && target.policy.Some?
            && target.policy.value.compressAfter == HoursOf(c.compressAfterHours, c.compressAfterDays, 12) * 3_600_000
            && target.policy.value.schedule ==
               (if t.hypertable && t.chunkMs.Some? && t.chunkMs.value > 0 then t.chunkMs.value else chunk)
            && target.retention == (if c.retentionDays > 0 then Some(c.retentionDays * 86_400_000) else None)
  {
    SettingsByFields(c);
    DurationsByUnits(ChunkHours(c));
    DurationsByUnits(CompressHours(c));
  }

  lemma CleanConversion(n: string, t: Table, c: Config, f: Faults)
    requires Coherent(t) && NoFaults(f) && Validate(c) && InRange(c)
    ensures Converted(n, t, c, f) ==
            if t.nullTimes then (t, false)
            else (t.(hypertable := true, keyWidened := true,
                     chunkMs := if t.hypertable then t.chunkMs else HoursToMs(ChunkHours(c))), true)
  {
    assert HoursToMs(ChunkHours(c)).value > 0;
  }

  lemma CleanNowFunc(n: string, t: Table, f: Faults)
    requires NoFaults(f) && t.hypertable
    ensures NowFuncSet(n, t, f) == (t.(nowFunc := true), true)
  {
  }

  lemma CleanRetention(n: string, t: Table, c: Config, f: Faults)
    requires NoFaults(f) && Validate(c) && t.hypertable && t.nowFunc
    ensures RetentionApplied(n, t, c, f) ==
            (t.(retention := if c.retentionDays == 0 then None else Some(c.retentionDays * MS_PER_DAY)), true)
  {
    ValidRetentionConverts(c);
  }

  lemma CleanCompression(n: string, t: Table, c: Config, f: Faults)
    requires NoFaults(f) && Validate(c) && InRange(c) && t.hypertable && t.nowFunc
    ensures var schedule := CompressionScheduleMs(t.chunkMs, HoursToMs(ChunkHours(c)).value);
            CompressionApplied(n, t, c, f) ==
            (t.(compression := true, policy := Some(CompressionPolicy(HoursToMs(CompressHours(c)).value, schedule))), true)
  {
    assert CompressionEnabled(n, t, f) == (t.(compression := true), true);
  }

  /** A clean run configures a table completely if and only if the table has no row without a time. */
  lemma CleanRunReachesTarget(n: string, t: Table, c: Config, f: Faults)
    requires Coherent(t) && NoFaults(f) && Validate(c) && InRange(c)
    ensures TableSetUp(n, t, c, f) == if t.nullTimes then (t, None) else (Target(t, c), Some(true))
  {
    CleanConversion(n, t, c, f);
    if !t.nullTimes {
      var converted := Converted(n, t, c, f).0;
      CleanNowFunc(n, converted, f);
      var timed := NowFuncSet(n, converted, f).0;
      CleanRetention(n, timed, c, f);
      CleanCompression(n, RetentionApplied(n, timed, c, f).0, c, f);
    }
  }

  /** The statements that setting a table up needs, in the state the table is in. */
  ghost predicate NothingNeededFails(n: string, t: Table, c: Config, f: Faults)
    requires InRange(c)
  {
    var chunk := HoursToMs(ChunkHours(c)).value;
    && !f(IsHypertable(n))
    && (t.hypertable || (!f(NullCheck(n)) && !f(WidenKey(n)) && !f(CreateHypertable(n, chunk))))
    && !f(HasNowFunc(n)) && (t.nowFunc || !f(SetNowFunc(n)))
    && !f(SetRetention(n, if c.retentionDays > 0 then DaysToMs(c.retentionDays) else None))
    && !f(IsCompressionEnabled(n)) && (t.compression || !f(EnableCompression(n))) && !f(ReadChunkInterval(n))
    && !f(SetCompressionPolicy(n, CompressionPolicy(HoursToMs(CompressHours(c)).value,
                                                    CompressionScheduleMs(if t.hypertable then t.chunkMs else Some(chunk), chunk))))
  }

  /** A table is reported as configured exactly if it has no row without a time and nothing it needs fails. */
  lemma SetupSucceedsIff(n: string, t: Table, c: Config, f: Faults)
    requires Coherent(t) && Validate(c)
    ensures FullyConfigured(n, t, c, f) <==> InRange(c) && !t.nullTimes && NothingNeededFails(n, t, c, f)
  {
    ConversionSucceedsIff(n, t, c, f);
    var (converted, ok) := Converted(n, t, c, f);
    if ok {
      HonestConversion(n, t, c, f);
      var timed := NowFuncSet(n, converted, f).0;
      if NowFuncSet(n, converted, f).1 {
        assert timed == converted.(nowFunc := true);
        PoliciesSucceedIff(n, timed, c, f);
      }
    }
  }

  lemma ConversionSucceedsIff(n: string, t: Table, c: Config, f: Faults)
    requires Coherent(t) && Validate(c)
    ensures Converted(n, t, c, f).1 <==>
            t.hypertable || (HoursToMs(ChunkHours(c)).Some? && !t.nullTimes && !f(NullCheck(n)) && !f(WidenKey(n))
                             && !f(CreateHypertable(n, HoursToMs(ChunkHours(c)).value)))
  {
  }

  lemma PoliciesSucceedIff(n: string, t: Table, c: Config, f: Faults)
    requires t.hypertable && t.nowFunc && Validate(c)
    ensures PoliciesApplied(n, t, c, f).1 <==>
            && InRange(c) && !f(SetRetention(n, if c.retentionDays > 0 then DaysToMs(c.retentionDays) else None))
            && !f(IsCompressionEnabled(n)) && (t.compression || !f(EnableCompression(n))) && !f(ReadChunkInterval(n))
            && !f(SetCompressionPolicy(n, CompressionPolicy(HoursToMs(CompressHours(c)).value,
                                                            CompressionScheduleMs(t.chunkMs, HoursToMs(ChunkHours(c)).value))))
  {
    ValidRetentionConverts(c);
  }

  /** Success is honest: whatever failed on the way, a table reported as configured has reached its target. */
  lemma SuccessIsHonest(n: string, t: Table, c: Config, f: Faults)
    requires Coherent(t) && Validate(c) && FullyConfigured(n, t, c, f)
    ensures InRange(c) && TableSetUp(n, t, c, f).0 == Target(t, c)
  {
    ValidRetentionConverts(c);
    var converted := Converted(n, t, c, f).0;
    HonestConversion(n, t, c, f);
    var timed := NowFuncSet(n, converted, f).0;
    assert timed == converted.(nowFunc := true);
    HonestPolicies(n, timed, c, f);
  }

  lemma HonestConversion(n: string, t: Table, c: Config, f: Faults)
    requires Coherent(t) && Validate(c) && Converted(n, t, c, f).1
    ensures !t.nullTimes && (!t.hypertable ==> HoursToMs(ChunkHours(c)).Some?)
    ensures Converted(n, t, c, f).0 ==
            t.(hypertable := true, keyWidened := true,
               chunkMs := if t.hypertable then t.chunkMs else HoursToMs(ChunkHours(c)))
  {
  }

  lemma HonestPolicies(n: string, t: Table, c: Config, f: Faults)
    requires t.hypertable && t.nowFunc && Validate(c) && PoliciesApplied(n, t, c, f).1
    ensures InRange(c)
    ensures PoliciesApplied(n, t, c, f).0 ==
            t.(compression := true,
               policy := Some(CompressionPolicy(HoursToMs(CompressHours(c)).value,
                                                CompressionScheduleMs(t.chunkMs, HoursToMs(ChunkHours(c)).value))),
               retention := if c.retentionDays == 0 then None else Some(c.retentionDays * MS_PER_DAY))
  {
    ValidRetentionConverts(c);
  }

  ghost predicate AllCoherent(ts: Tables) {
    HasAll(ts) && forall i :: 0 <= i < |TABLES| ==> Coherent(ts[TABLES[i]])
  }

  lemma {:induction false} FailuresOfCleanRun(server: Server, ts: Tables, c: Config, f: Faults, n: nat)
    requires AllCoherent(ts) && Applies(server, c) && NoFaults(f) && n <= |TABLES|
    ensures FailuresUpTo(server, ts, c, f, n) == 0 <==> forall i :: 0 <= i < n ==> !ts[TABLES[i]].nullTimes
  {
    assert PathOf(server, c, f) == FullSetup;
    if n > 0 {
      FailuresOfCleanRun(server, ts, c, f, n - 1);
      CleanTable(TABLES[n - 1], ts[TABLES[n - 1]], c, f);
    }
  }

  lemma CleanTable(n: string, t: Table, c: Config, f: Faults)
    requires Coherent(t) && NoFaults(f) && Validate(c) && InRange(c)
    ensures FullyConfigured(n, t, c, f) <==> !t.nullTimes
  {
    CleanRunReachesTarget(n, t, c, f);
  }

  /**
   A run with no failing statement reaches the target of every table, from any starting state, and reports
   success exactly if no managed table has a row without a time.
   */
  lemma SetupConverges(server: Server, ts: Tables, c: Config, f: Faults, i: nat)
    requires AllCoherent(ts) && Applies(server, c) && NoFaults(f) && i < |TABLES|
    ensures var t := ts[TABLES[i]];
            After(server, ts, c, f, |TABLES|)[TABLES[i]] == if t.nullTimes then t else Target(t, c)
    ensures FailuresUpTo(server, ts, c, f, |TABLES|) == 0 <==>
            forall j :: 0 <= j < |TABLES| ==> !ts[TABLES[j]].nullTimes
  {
    assert PathOf(server, c, f) == FullSetup;
    assert TABLES[..|TABLES|] == TABLES;
    CleanRunReachesTarget(TABLES[i], ts[TABLES[i]], c, f);
    FailuresOfCleanRun(server, ts, c, f, |TABLES|);
  }

  /** A second clean run changes nothing, whatever failed in the runs before the first. */
  lemma SetupIsIdempotent(server: Server, ts: Tables, c: Config, f: Faults, g: Faults)
    requires AllCoherent(ts) && Applies(server, c) && NoFaults(f) && NoFaults(g)
    ensures var once := After(server, ts, c, f, |TABLES|);
            HasAll(once) && After(server, once, c, g, |TABLES|) == once
  {
    var once := After(server, ts, c, f, |TABLES|);
    assert TABLES[..|TABLES|] == TABLES;
    forall k | k in TABLES
      ensures TableAfter(server, k, once[k], c, g) == once[k]
    {
      CleanRunReachesTarget(k, ts[k], c, f);
      CleanRunReachesTarget(k, once[k], c, g);
    }
    assert After(server, once, c, g, |TABLES|) == once;
  }

  // ---- Runs over many starts ----

  datatype Start = Start(config: Config, faults: Faults)

  ghost function AfterStarts(server: Server, n: string, t: Table, starts: seq<Start>): Table {
    if starts == [] then t
    else TableAfter(server, n, AfterStarts(server, n, t, Front(starts)), Last(starts).config, Last(starts).faults)
  }

  /** What no start ever takes back. */
  ghost predicate Advances(t: Table, t': Table) {
    && (t.hypertable ==> t'.hypertable && t'.chunkMs == t.chunkMs)
    && (t.keyWidened ==> t'.keyWidened)
    && (t.nowFunc ==> t'.nowFunc)
    && (t.compression ==> t'.compression)
    && t'.nullTimes == t.nullTimes
  }

  lemma StatementAdvances(s: Statement, t: Table, f: Faults)
    requires Coherent(t)
    ensures Coherent(Executed(s, t, f).0) && Advances(t, Executed(s, t, f).0)
  {
    StatementKeepsCoherent(s, t, f);
  }

  lemma ConversionAdvances(n: string, t: Table, c: Config, f: Faults)
    requires Coherent(t)
    ensures Coherent(Converted(n, t, c, f).0) && Advances(t, Converted(n, t, c, f).0)
  {
  }

  lemma PoliciesAdvance(n: string, t: Table, c: Config, f: Faults)
    requires Coherent(t)
    ensures Coherent(RetentionApplied(n, t, c, f).0) && Advances(t, RetentionApplied(n, t, c, f).0)
    ensures Coherent(CompressionApplied(n, t, c, f).0) && Advances(t, CompressionApplied(n, t, c, f).0)
  {
  }

  /** Whatever fails, a start keeps the table coherent and takes nothing back. */
  lemma StartAdvances(server: Server, n: string, t: Table, c: Config, f: Faults)
    requires Coherent(t)
    ensures Coherent(TableAfter(server, n, t, c, f)) && Advances(t, TableAfter(server, n, t, c, f))
  {
    match PathOf(server, c, f)
    case Untouched =>
    case SkippedSetup => StatementAdvances(SetRetention(n, None), t, f);
    case FullSetup =>
      ConversionAdvances(n, t, c, f);
      var converted := Converted(n, t, c, f).0;
      StatementAdvances(SetNowFunc(n), converted, f);
      var timed := NowFuncSet(n, converted, f).0;
      PoliciesAdvance(n, timed, c, f);
      PoliciesAdvance(n, RetentionApplied(n, timed, c, f).0, c, f);
  }

  lemma {:induction false} StartsAdvance(server: Server, n: string, t: Table, starts: seq<Start>)
    requires Coherent(t)
    ensures Coherent(AfterStarts(server, n, t, starts)) && Advances(t, AfterStarts(server, n, t, starts))
  {
    if starts != [] {
      StartsAdvance(server, n, t, Front(starts));
      StartAdvances(server, n, AfterStarts(server, n, t, Front(starts)), Last(starts).config, Last(starts).faults);
    }
  }

  /**
   Failures heal: after any starts with any configurations and any failing statements, one clean start
   reaches the target, with the chunk interval of the start that created the hypertable.
   */
  lemma CleanStartHeals(server: Server, n: string, t: Table, starts: seq<Start>, c: Config, f: Faults)
    requires Coherent(t) && !t.nullTimes && Applies(server, c) && NoFaults(f)
    ensures var before := AfterStarts(server, n, t, starts);
            && TableAfter(server, n, before, c, f) == Target(before, c)
            && (t.hypertable ==> TableAfter(server, n, before, c, f) == Target(t, c))
  {
    StartsAdvance(server, n, t, starts);
    CleanRunReachesTarget(n, AfterStarts(server, n, t, starts), c, f);
  }

  // ---- Stop deleting ----

  predicate SkipBlocked(n: string, f: Faults) {
    f(CurrentSchemaOnSkip) || f(SetRetention(n, None))
  }

  /** The setups without TimescaleDB, and the failing statements, that keep an existing retention policy alive. */
  predicate RemovalBlocked(server: Server, n: string, t: Table, c: Config, f: Faults) {
    || !server.postgres || !server.extension || f(ProbeExtension)
    || if !IsEnabled(c) || !Validate(c) then SkipBlocked(n, f)
       else f(CurrentSchema) || if f(CreateFunction) then SkipBlocked(n, f)
                                else || f(IsHypertable(n)) || f(HasNowFunc(n))
                                     || (!t.nowFunc && f(SetNowFunc(n))) || f(SetRetention(n, None))
  }

  /** With `retention_days = 0`, an existing policy survives exactly if one of those statements fails. */
  lemma PolicySurvivesIffBlocked(server: Server, n: string, t: Table, c: Config, f: Faults)
    requires Coherent(t) && c.retentionDays == 0 && t.retention.Some?
    ensures TableAfter(server, n, t, c, f).retention.Some? <==> RemovalBlocked(server, n, t, c, f)
  {
    if PathOf(server, c, f) == FullSetup {
      SetupRemoves(n, t, c, f);
    }
  }

  lemma SetupRemoves(n: string, t: Table, c: Config, f: Faults)
    requires Coherent(t) && c.retentionDays == 0 && t.retention.Some?
    ensures TableSetUp(n, t, c, f).0.retention.Some? <==>
            f(IsHypertable(n)) || f(HasNowFunc(n)) || (!t.nowFunc && f(SetNowFunc(n))) || f(SetRetention(n, None))
  {
    assert Converted(n, t, c, f) == (t, true);
    var timed := NowFuncSet(n, t, f).0;
    var retained := RetentionApplied(n, timed, c, f).0;
    CompressionKeepsRetention(n, retained, c, f);
  }

  /**
   A start that skips setup, by the fields of the configuration: it only ever removes a retention policy, and does
   so exactly if the configuration wants no deletion, or a period that does not fit, and nothing needed fails.
   */
  lemma SkippedByFields(server: Server, n: string, t: Table, c: Config, f: Faults)
    requires Coherent(t) && server == Server(true, true) && !f(ProbeExtension)
    requires c.enabled == Some(false) || !Validate(c) || (!f(CurrentSchema) && f(CreateFunction))
    ensures TableAfter(server, n, t, c, f) ==
            if (c.retentionDays == 0 || c.retentionDays > 106_751_991_167) && t.hypertable
               && !f(CurrentSchemaOnSkip) && !f(SetRetention(n, None)) then t.(retention := None)
            else t
  {
    ValidRetentionConverts(c);
    assert PathOf(server, c, f) == SkippedSetup;
  }

  /**
   "Stop deleting" is honoured on every path: with the extension installed and `retention_days = 0`, if only
   the function or compression statements fail, no managed table keeps a policy, whether setup is disabled,
   rejected, skipped or completed.
   */
  lemma StopDeletingIsHonoured(server: Server, ts: Tables, c: Config, f: Faults, i: nat)
    requires AllCoherent(ts) && server == Server(true, true) && c.retentionDays == 0 && i < |TABLES|
    requires forall s :: f(s) ==> s.CreateFunction? || s.IsCompressionEnabled? || s.EnableCompression?
                                  || s.ReadChunkInterval? || s.SetCompressionPolicy?
    ensures After(server, ts, c, f, |TABLES|)[TABLES[i]].retention.None?
  {
    var n := TABLES[i];
    assert TABLES[..|TABLES|] == TABLES;
    TableStopsDeleting(server, n, ts[n], c, f);
  }

  lemma TableStopsDeleting(server: Server, n: string, t: Table, c: Config, f: Faults)
    requires Coherent(t) && server == Server(true, true) && c.retentionDays == 0
    requires forall s :: f(s) ==> s.CreateFunction? || s.IsCompressionEnabled? || s.EnableCompression?
                                  || s.ReadChunkInterval? || s.SetCompressionPolicy?
    ensures TableAfter(server, n, t, c, f).retention.None?
  {
    if t.retention.Some? {
      PolicySurvivesIffBlocked(server, n, t, c, f);
    } else {
      NeverDeletesUnasked(server, n, t, c, f);
    }
  }

  lemma ConversionKeepsRetention(n: string, t: Table, c: Config, f: Faults)
    ensures Converted(n, t, c, f).0.retention == t.retention
  {
  }

  lemma NowFuncKeepsRetention(n: string, t: Table, f: Faults)
    ensures NowFuncSet(n, t, f).0.retention == t.retention
  {
  }

  lemma CompressionKeepsRetention(n: string, t: Table, c: Config, f: Faults)
    ensures CompressionApplied(n, t, c, f).0.retention == t.retention
  {
  }

  function Requested(c: Config): Option<U64> {
    if c.retentionDays > 0 then DaysToMs(c.retentionDays) else None
  }

  lemma PoliciesRetention(n: string, t: Table, c: Config, f: Faults)
    ensures PoliciesApplied(n, t, c, f).0.retention in {t.retention, Requested(c)}
  {
    CompressionKeepsRetention(n, RetentionApplied(n, t, c, f).0, c, f);
  }

  /** The retention after setting a table up is the old one or the one asked for. */
  lemma SetupRetention(n: string, t: Table, c: Config, f: Faults)
    ensures TableSetUp(n, t, c, f).0.retention in {t.retention, Requested(c)}
  {
    ConversionKeepsRetention(n, t, c, f);
    var converted := Converted(n, t, c, f).0;
    NowFuncKeepsRetention(n, converted, f);
    PoliciesRetention(n, NowFuncSet(n, converted, f).0, c, f);
  }

  /** A start only ever installs the retention period its own valid, enabled configuration asks for. */
  lemma NeverDeletesUnasked(server: Server, n: string, t: Table, c: Config, f: Faults)
    ensures var t' := TableAfter(server, n, t, c, f);
            t'.retention != t.retention && t'.retention.Some? ==>
              IsEnabled(c) && Validate(c) && c.retentionDays > 0 && t'.retention == Some(c.retentionDays * MS_PER_DAY)
  {
    ValidRetentionConverts(c);
    if PathOf(server, c, f) == FullSetup {
      SetupRetention(n, t, c, f);
    }
  }
}
