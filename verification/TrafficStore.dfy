/**
 Traffic accounting against its database: periodic flush with retry, graceful restart and crash
 recovery. The locked sections and the transaction are methods; their interleaving with reports is a
 state machine over the same functions.
 */
module TrafficStore {
  import opened Base
  import opened TrafficReading
  import opened TrafficTotals
  import opened TrafficState
  import opened TrafficHistory
  import opened TrafficLoss

  // ---- Rows ----

  /** A `traffic_current_total` row: every unsigned value is stored as its signed bit pattern. */
  datatype Row = Row(
    bootId: Option<string>,
    ifindex: Option<I32>,
    counterReceived: I64,
    counterTransmitted: I64,
    reportTime: I64,
    totalReceived: I64,
    totalTransmitted: I64,
    createdAt: I64,
    updatedAt: I64)

  datatype Entry = Entry(key: Key, row: Row)

  datatype Tables = Tables(rows: map<Key, Row>, losses: seq<Loss>)

  function CurrentTotalModel(reading: Reading, total: Traffic): Row {
    Row(reading.bootId,
        if reading.ifindex.Some? then Some(CastSigned32(reading.ifindex.value)) else None,
        CastSigned64(reading.counterReceived),
        CastSigned64(reading.counterTransmitted),
        reading.reportTime,
        CastSigned64(total.received),
        CastSigned64(total.transmitted),
        reading.createdAt,
        reading.updatedAt)
  }

  function ReadingOf(row: Row): Reading {
    Reading(row.bootId,
            if row.ifindex.Some? then Some(CastUnsigned32(row.ifindex.value)) else None,
            CastUnsigned64(row.counterReceived),
            CastUnsigned64(row.counterTransmitted),
            row.reportTime,
            row.createdAt,
            row.updatedAt)
  }

  function TotalOfRow(row: Row): Traffic {
    Traffic(CastUnsigned64(row.totalReceived), CastUnsigned64(row.totalTransmitted))
  }

  /** Storing a reading and a total and loading them back loses nothing, over the full unsigned range. */
  lemma RowRoundTrip(reading: Reading, total: Traffic)
    ensures ReadingOf(CurrentTotalModel(reading, total)) == reading
    ensures TotalOfRow(CurrentTotalModel(reading, total)) == total
  {
    var row := CurrentTotalModel(reading, total);
    assert ReadingOf(row).ifindex == reading.ifindex;
  }

  /** The signed column holds the bits of the unsigned value. */
  ghost predicate SameBits(column: I64, value: U64) {
    (value - column) % TWO_64 == 0
  }

  /** Which column holds what. */
  lemma RowByColumns(reading: Reading, total: Traffic)
    ensures var row := CurrentTotalModel(reading, total);
            && row.bootId == reading.bootId && row.reportTime == reading.reportTime
            && row.createdAt == reading.createdAt && row.updatedAt == reading.updatedAt
            && row.ifindex.Some? == reading.ifindex.Some?
            && (row.ifindex.Some? ==> (reading.ifindex.value - row.ifindex.value) % TWO_32 == 0)
            && SameBits(row.counterReceived, reading.counterReceived)
            && SameBits(row.counterTransmitted, reading.counterTransmitted)
            && SameBits(row.totalReceived, total.received) && SameBits(row.totalTransmitted, total.transmitted)
  {
  }

  /** Insert, or on conflict update every column except the creation time. */
  function Upsert(rows: map<Key, Row>, e: Entry): map<Key, Row> {
    rows[e.key := if e.key in rows then e.row.(createdAt := rows[e.key].createdAt) else e.row]
  }

  function UpsertAll(rows: map<Key, Row>, es: seq<Entry>): map<Key, Row> {
    if es == [] then rows else Upsert(UpsertAll(rows, Front(es)), Last(es))
  }

  lemma {:induction false} UpsertAllAppend(rows: map<Key, Row>, a: seq<Entry>, b: seq<Entry>)
    ensures UpsertAll(rows, a + b) == UpsertAll(UpsertAll(rows, a), b)
  {
    if b == [] {
      assert a + b == a;
    } else {
      assert Front(a + b) == a + Front(b);
      UpsertAllAppend(rows, a, Front(b));
    }
  }

  /** `es` lists the map `m`: every binding once, in some order. */
  ghost predicate Lists(es: seq<Entry>, m: map<Key, Row>) {
    && (forall i :: 0 <= i < |es| ==> es[i].key in m && m[es[i].key] == es[i].row)
    && (forall i, j :: 0 <= i < j < |es| ==> es[i].key != es[j].key)
    && forall k :: k in m ==> HasKey(es, k)
  }

  ghost predicate HasKey(es: seq<Entry>, k: Key) {
    exists i :: 0 <= i < |es| && es[i].key == k
  }

  function Merge(rows: map<Key, Row>, batch: map<Key, Row>): map<Key, Row> {
    map k | k in rows.Keys + batch.Keys ::
      if k !in batch then rows[k]
      else if k in rows then batch[k].(createdAt := rows[k].createdAt)
      else batch[k]
  }

  /** Rows outside the batch stay; a row of the batch replaces every column but the creation time. */
  lemma MergeByColumns(rows: map<Key, Row>, batch: map<Key, Row>, k: Key)
    ensures k in Merge(rows, batch) <==> k in rows || k in batch
    ensures k in rows && k !in batch ==> Merge(rows, batch)[k] == rows[k]
    ensures k in batch ==>
              Merge(rows, batch)[k] ==
              Row(batch[k].bootId, batch[k].ifindex, batch[k].counterReceived, batch[k].counterTransmitted,
                  batch[k].reportTime, batch[k].totalReceived, batch[k].totalTransmitted,
                  if k in rows then rows[k].createdAt else batch[k].createdAt, batch[k].updatedAt)
  {
  }

  lemma {:induction false} UpsertAllAt(rows: map<Key, Row>, es: seq<Entry>, k: Key)
    requires forall i, j :: 0 <= i < j < |es| ==> es[i].key != es[j].key
    ensures (k in UpsertAll(rows, es)) <==> (k in rows || HasKey(es, k))
    ensures !HasKey(es, k) && k in rows ==> UpsertAll(rows, es)[k] == rows[k]
    ensures forall i :: 0 <= i < |es| && es[i].key == k ==>
              UpsertAll(rows, es)[k] == if k in rows then es[i].row.(createdAt := rows[k].createdAt) else es[i].row
  {
    if es != [] {
      UpsertAllAt(rows, Front(es), k);
      HasKeySnoc(es, k);
    }
  }

  lemma HasKeySnoc(es: seq<Entry>, k: Key)
    requires es != []
    ensures HasKey(es, k) <==> HasKey(Front(es), k) || Last(es).key == k
  {
    if HasKey(es, k) {
      var i :| 0 <= i < |es| && es[i].key == k;
      assert i < |es| - 1 ==> Front(es)[i].key == k;
    }
    if HasKey(Front(es), k) {
      var i :| 0 <= i < |Front(es)| && Front(es)[i].key == k;
      assert es[i].key == k;
    }
    if Last(es).key == k {
      assert es[|es| - 1].key == k;
    }
  }

  /** The order in which a batch is written does not matter. */
  lemma UpsertAllIsMerge(rows: map<Key, Row>, es: seq<Entry>, batch: map<Key, Row>)
    requires Lists(es, batch)
    ensures UpsertAll(rows, es) == Merge(rows, batch)
  {
    forall k
      ensures k in UpsertAll(rows, es) <==> k in Merge(rows, batch)
      ensures k in UpsertAll(rows, es) && k in Merge(rows, batch) ==> UpsertAll(rows, es)[k] == Merge(rows, batch)[k]
    {
      UpsertAllAt(rows, es, k);
    }
  }

  // ---- The transaction ----

  datatype Backend = Sqlite | Postgres

  const CURRENT_TOTAL_COLUMNS := 12
  const POSSIBLE_DATA_LOSS_COLUMNS := 4

  function MaxVariables(backend: Backend): nat {
    match backend case Sqlite => SQLITE_MAX_VARIABLES case Postgres => 65535
  }

  /** The largest number of rows whose bound parameters fit one statement, and never zero. */
  function MaxRowsPerStatement(backend: Backend, columns: nat): (rows: nat)
    ensures rows >= 1
    ensures var limit := match backend case Sqlite => 999 case Postgres => 65535;
            1 <= columns <= limit ==> rows * columns <= limit < (rows + 1) * columns
  {
    Max(MaxVariables(backend) / Max(columns, 1), 1)
  }

  /** Number of statements that `chunks(size)` produces. */
  function Chunks(length: nat, size: nat): nat
    requires size > 0
  {
    if length == 0 then 0 else 1 + Chunks(Max(length - size, 0), size)
  }

  /** The statements from `first` on that upsert the rows; the statement after them is `next`. */
  method UpsertChunks(rows: map<Key, Row>, backend: Backend, current: seq<Entry>, failing: set<nat>, first: nat)
    returns (ok: bool, next: nat, after: map<Key, Row>)
    ensures ok ==> next == first + Chunks(|current|, MaxRowsPerStatement(backend, CURRENT_TOTAL_COLUMNS))
    ensures ok ==> after == UpsertAll(rows, current)
    ensures !ok ==> after == rows && first <= next && next in failing &&
                    next < first + Chunks(|current|, MaxRowsPerStatement(backend, CURRENT_TOTAL_COLUMNS))
    ensures ok ==> forall n :: n in failing ==> n < first || n >= next
  {
    var size := MaxRowsPerStatement(backend, CURRENT_TOTAL_COLUMNS);
    var i := 0;
    next, after := first, rows;
    while i < |current|
      invariant 0 <= i <= |current|
      invariant after == UpsertAll(rows, current[..i])
      invariant first <= next && next + Chunks(|current| - i, size) == first + Chunks(|current|, size)
      invariant forall n :: n in failing ==> n < first || n >= next
    {
      var end := Min(i + size, |current|);
      if next in failing {
        return false, next, rows;
      }
      UpsertAllAppend(rows, current[..i], current[i..end]);
      assert current[..i] + current[i..end] == current[..end];
      after := UpsertAll(after, current[i..end]);
      next, i := next + 1, end;
    }
    assert current[..i] == current;
    ok := true;
  }

  /** The statements from `first` on that insert the losses. */
  method InsertChunks(stored: seq<Loss>, backend: Backend, losses: seq<Loss>, failing: set<nat>, first: nat)
    returns (ok: bool, next: nat, after: seq<Loss>)
    ensures ok ==> next == first + Chunks(|losses|, MaxRowsPerStatement(backend, POSSIBLE_DATA_LOSS_COLUMNS))
    ensures ok ==> after == stored + losses
    ensures !ok ==> after == stored && first <= next && next in failing &&
                    next < first + Chunks(|losses|, MaxRowsPerStatement(backend, POSSIBLE_DATA_LOSS_COLUMNS))
    ensures ok ==> forall n :: n in failing ==> n < first || n >= next
  {
    var size := MaxRowsPerStatement(backend, POSSIBLE_DATA_LOSS_COLUMNS);
    var i := 0;
    next, after := first, stored;
    while i < |losses|
      invariant 0 <= i <= |losses|
      invariant after == stored + losses[..i]
      invariant first <= next && next + Chunks(|losses| - i, size) == first + Chunks(|losses|, size)
      invariant forall n :: n in failing ==> n < first || n >= next
    {
      var end := Min(i + size, |losses|);
      if next in failing {
        return false, next, stored;
      }
      assert losses[..i] + losses[i..end] == losses[..end];
      after := after + losses[i..end];
      next, i := next + 1, end;
    }
    assert losses[..i] == losses;
    ok := true;
  }

  /**
   One transaction. `failing` says which of its statements fail, counting the begin as 0 and the
   commit last. Any failure rolls everything back.
   */
  method WriteToDb(tables: Tables, backend: Backend, current: seq<Entry>, losses: seq<Loss>, failing: set<nat>)
    returns (ok: bool, after: Tables)
    ensures ok ==> after == Tables(UpsertAll(tables.rows, current), tables.losses + losses)
    ensures !ok ==> after == tables
    ensures failing == {} ==> ok
    ensures ok <==> forall n :: n in failing ==>
                      n > 1 + Chunks(|current|, MaxRowsPerStatement(backend, 12)) +
                          Chunks(|losses|, MaxRowsPerStatement(backend, 4))
  {
    if 0 in failing {
      return false, tables;
    }
    var statement, rows, stored;
    ok, statement, rows := UpsertChunks(tables.rows, backend, current, failing, 1);
    if !ok {
      return false, tables;
    }
    ok, statement, stored := InsertChunks(tables.losses, backend, losses, failing, statement);
    if !ok || statement in failing {
      return false, tables;
    }
    return true, Tables(rows, stored);
  }

  // ---- Snapshot and restore ----

  /** The rows a flush writes. */
  function RowsOf(m: Memory): map<Key, Row> {
    map k | k in m.prevReadings :: CurrentTotalModel(m.prevReadings[k], TotalOf(m, k))
  }

  /** The memory that `init` builds from the stored rows. */
  function Restored(rows: map<Key, Row>): Memory {
    Memory(map k | k in rows :: ReadingOf(rows[k]), map k | k in rows :: TotalOfRow(rows[k]), [])
  }

  ghost predicate SameBody(a: Memory, b: Memory) {
    a.prevReadings == b.prevReadings && a.totals == b.totals
  }

  lemma RestoreUndoesSnapshot(m: Memory)
    requires m.totals.Keys == m.prevReadings.Keys
    ensures SameBody(Restored(RowsOf(m)), m)
  {
    forall k | k in m.prevReadings
      ensures ReadingOf(RowsOf(m)[k]) == m.prevReadings[k] && TotalOfRow(RowsOf(m)[k]) == m.totals[k]
    {
      RowRoundTrip(m.prevReadings[k], TotalOf(m, k));
    }
    assert Restored(RowsOf(m)).prevReadings == m.prevReadings;
    assert Restored(RowsOf(m)).totals == m.totals;
  }

  lemma ListsSnoc(es: seq<Entry>, m: map<Key, Row>, todo: set<Key>, k: Key)
    requires k in todo && todo <= m.Keys && Lists(es, m - todo)
    ensures Lists(es + [Entry(k, m[k])], m - (todo - {k}))
  {
    var es' := es + [Entry(k, m[k])];
    assert Front(es') == es;
    forall k' | k' in m - (todo - {k})
      ensures HasKey(es', k')
    {
      HasKeySnoc(es', k');
    }
  }

  /** Loading rows one by one. */
  ghost function LoadAll(es: seq<Entry>): Memory {
    if es == [] then EMPTY
    else
      var m, e := LoadAll(Front(es)), Last(es);
      Memory(m.prevReadings[e.key := ReadingOf(e.row)], m.totals[e.key := TotalOfRow(e.row)], [])
  }

  lemma {:induction false} LoadAllAt(es: seq<Entry>, k: Key)
    requires forall i, j :: 0 <= i < j < |es| ==> es[i].key != es[j].key
    ensures var m := LoadAll(es);
            && (k in m.prevReadings <==> HasKey(es, k))
            && (k in m.totals <==> HasKey(es, k))
            && forall i :: 0 <= i < |es| && es[i].key == k ==>
                 m.prevReadings[k] == ReadingOf(es[i].row) && m.totals[k] == TotalOfRow(es[i].row)
  {
    if es != [] {
      LoadAllAt(Front(es), k);
      HasKeySnoc(es, k);
    }
  }

  lemma LoadAllIsRestored(es: seq<Entry>, stored: map<Key, Row>)
    requires Lists(es, stored)
    ensures LoadAll(es) == Restored(stored)
  {
    var m, r := LoadAll(es), Restored(stored);
    forall k
      ensures k in m.prevReadings <==> k in r.prevReadings
      ensures k in m.totals <==> k in r.totals
      ensures k in m.prevReadings && k in r.prevReadings ==> m.prevReadings[k] == r.prevReadings[k]
      ensures k in m.totals && k in r.totals ==> m.totals[k] == r.totals[k]
    {
      LoadAllAt(es, k);
    }
    assert m.prevReadings == r.prevReadings && m.totals == r.totals;
  }

  class TrafficStats {
    const state: State

    constructor Init(rows: seq<Entry>, ghost stored: map<Key, Row>)
      requires Lists(rows, stored)
      ensures fresh(state) && state.Value() == Restored(stored)
    {
      var s := new State();
      state := s;
      new;
      for i := 0 to |rows|
        invariant fresh(s) && s == state
        invariant s.Value() == LoadAll(rows[..i])
      {
        assert Front(rows[..i + 1]) == rows[..i];
        var key, row := rows[i].key, rows[i].row;
        s.totals := s.totals[key := TotalOfRow(row)];
        s.prevReadings := s.prevReadings[key := ReadingOf(row)];
      }
      assert rows[..|rows|] == rows;
      LoadAllIsRestored(rows, stored);
    }

    /** First locked section of a flush: list every interface and take the pending losses. */
    method TakeForFlush() returns (losses: seq<Loss>, current: seq<Entry>)
      modifies state
      ensures Lists(current, RowsOf(old(state.Value())))
      ensures losses == old(state.pendingPossibleDataLosses)
      ensures state.Value() == old(state.Value()).(pending := [])
    {
      current := [];
      var todo := state.prevReadings.Keys;
      while todo != {}
        invariant todo <= state.prevReadings.Keys
        invariant Lists(current, RowsOf(old(state.Value())) - todo)
        invariant state.Value() == old(state.Value())
        decreases todo
      {
        var k :| k in todo;
        var total := if k in state.totals then state.totals[k] else NO_TRAFFIC;
        ListsSnoc(current, RowsOf(state.Value()), todo, k);
        current := current + [Entry(k, CurrentTotalModel(state.prevReadings[k], total))];
        todo := todo - {k};
      }
      assert RowsOf(old(state.Value())) - {} == RowsOf(old(state.Value()));
      losses := state.pendingPossibleDataLosses;
      state.pendingPossibleDataLosses := [];
    }

    /** Second locked section, after a failed write: the taken losses go back in front. */
    method PutBack(losses: seq<Loss>)
      modifies state
      ensures state.Value() == old(state.Value()).(pending := losses + old(state.pendingPossibleDataLosses))
    {
      state.pendingPossibleDataLosses := losses + state.pendingPossibleDataLosses;
    }

    /** A flush during which no report arrives. */
    method Flush(tables: Tables, backend: Backend, connected: bool, failing: set<nat>) returns (ok: bool, after: Tables)
      modifies state
      ensures ok ==> state.Value() == old(state.Value()).(pending := [])
      ensures ok ==> after == Tables(Merge(tables.rows, RowsOf(old(state.Value()))),
                                     tables.losses + old(state.pendingPossibleDataLosses))
      ensures !ok ==> state.Value() == old(state.Value()) && after == tables
      ensures connected && failing == {} ==> ok
    {
      var losses, current := TakeForFlush();
      UpsertAllIsMerge(tables.rows, current, RowsOf(old(state.Value())));
      if losses == [] && current == [] {
        return true, tables;
      }
      ok, after := false, tables;
      if connected {
        ok, after := WriteToDb(tables, backend, current, losses, failing);
      }
      if !ok {
        PutBack(losses);
      }
    }
  }

  // ---- The system: reports, flushes in flight, crashes ----

  datatype Batch = Batch(rows: map<Key, Row>, losses: seq<Loss>)

  datatype System = System(mem: Memory, tables: Tables, inFlight: Option<Batch>)

  /** `Received` may come at any time; only one flush is ever in flight, because one loop issues them. */
  datatype Step =
    | Received(report: Report)
    | BeginFlush
    | Commit
    | Rollback
    | Crash

  const INITIAL := System(EMPTY, Tables(map[], []), None)

  /** A step that is not possible leaves the system as it is. */
  function Next(s: System, step: Step): System {
    match step
    case Received(r) => s.(mem := AfterReport(s.mem, r))
    case BeginFlush =>
      if s.inFlight.Some? || (s.mem.pending == [] && s.mem.prevReadings == map[]) then s
      else s.(mem := s.mem.(pending := []), inFlight := Some(Batch(RowsOf(s.mem), s.mem.pending)))
    case Commit =>
      if s.inFlight.None? then s
      else
        var batch := s.inFlight.value;
        s.(tables := Tables(Merge(s.tables.rows, batch.rows), s.tables.losses + batch.losses), inFlight := None)
    case Rollback =>
      if s.inFlight.None? then s
      else s.(mem := s.mem.(pending := s.inFlight.value.losses + s.mem.pending), inFlight := None)
    case Crash => System(Restored(s.tables.rows), s.tables, None)
  }

  function Exec(s: System, steps: seq<Step>): System {
    if steps == [] then s else Next(Exec(s, Front(steps)), Last(steps))
  }

  // ---- Possible data losses are persisted exactly once ----

  function InFlightLosses(s: System): seq<Loss> {
    if s.inFlight.Some? then s.inFlight.value.losses else []
  }

  /** Everything known about losses, in order: stored, being written, waiting. */
  function Known(s: System): seq<Loss> {
    s.tables.losses + InFlightLosses(s) + s.mem.pending
  }

  function NewLosses(m: Memory, r: Report): seq<Loss>
  {
    AtMostOneLossPerReport(m, r);
    AfterReport(m, r).pending[|m.pending|..]
  }

  function Detected(s: System, steps: seq<Step>): seq<Loss> {
    if steps == [] then []
    else
      Detected(s, Front(steps)) + NewIn(Exec(s, Front(steps)).mem, Last(steps))
  }

  function NewIn(m: Memory, step: Step): seq<Loss> {
    match step
    case Received(r) => NewLosses(m, r)
    case _ => []
  }

  lemma StepKeepsKnown(s: System, step: Step)
    requires !step.Crash?
    ensures Known(Next(s, step)) == Known(s) + NewIn(s.mem, step)
  {
    if step.Received? {
      AtMostOneLossPerReport(s.mem, step.report);
      var new' := NewLosses(s.mem, step.report);
      assert AfterReport(s.mem, step.report).pending == s.mem.pending + new';
      AppendAssociative(s.tables.losses + InFlightLosses(s), s.mem.pending, new');
    } else if step.Rollback? && s.inFlight.Some? {
      AppendAssociative(s.tables.losses, InFlightLosses(s), s.mem.pending);
    }
  }

  /** Stored ++ in flight ++ pending is exactly what was detected, whatever flushes failed in between. */
  lemma {:induction false} LossesArePersistedExactlyOnce(s: System, steps: seq<Step>)
    requires Crash !in steps
    ensures Known(Exec(s, steps)) == Known(s) + Detected(s, steps)
  {
    if steps != [] {
      var before := Exec(s, Front(steps));
      LossesArePersistedExactlyOnce(s, Front(steps));
      assert Last(steps) in steps;
      StepKeepsKnown(before, Last(steps));
      AppendAssociative(Known(s), Detected(s, Front(steps)), NewIn(before.mem, Last(steps)));
    }
  }

  lemma {:induction false} KeptPrefix(losses: seq<Loss>, mask: seq<bool>, n: nat) returns (shorter: seq<bool>)
    requires |losses| == |mask| && n <= |Kept(losses, mask)|
    ensures |shorter| == |losses| && Kept(losses, shorter) == Kept(losses, mask)[..n]
  {
    if n == |Kept(losses, mask)| {
      shorter := mask;
    } else {
      var before := KeptPrefix(Front(losses), Front(mask), n);
      shorter := before + [false];
      assert Front(shorter) == before;
    }
  }

  /** With crashes anywhere, losses can go missing but are never stored twice or out of order. */
  lemma {:induction false} LossesAreNeverRepeated(s: System, steps: seq<Step>) returns (mask: seq<bool>)
    ensures |mask| == |Known(s) + Detected(s, steps)|
    ensures Known(Exec(s, steps)) == Kept(Known(s) + Detected(s, steps), mask)
  {
    if steps == [] {
      mask := seq(|Known(s)|, _ => true);
      assert Known(s) + [] == Known(s);
      KeptConstant(Known(s), mask, true);
    } else {
      var before, step := Exec(s, Front(steps)), Last(steps);
      var earlier := LossesAreNeverRepeated(s, Front(steps));
      var all, new' := Known(s) + Detected(s, Front(steps)), NewIn(before.mem, step);
      AppendAssociative(Known(s), Detected(s, Front(steps)), new');
      if step.Crash? {
        mask := KeptPrefix(all, earlier, |before.tables.losses|);
        assert Known(Next(before, step)) == before.tables.losses == Known(before)[..|before.tables.losses|];
        assert all + new' == all;
      } else {
        StepKeepsKnown(before, step);
        var bits := seq(|new'|, _ => true);
        mask := earlier + bits;
        KeptAppend(all, earlier, new', bits);
        KeptConstant(new', bits, true);
      }
    }
  }

  // ---- What survives: every memory is an uninterrupted run over some of the reports ----

  function ReportsIn(steps: seq<Step>): seq<Report> {
    if steps == [] then []
    else ReportsIn(Front(steps)) + match Last(steps) case Received(r) => [r] case _ => []
  }

  /** Which reports are reflected in memory, in the stored rows, and in the rows being written. */
  datatype Survivors = Survivors(mem: seq<bool>, stored: seq<bool>, flying: seq<bool>)

  function SurvivorsOf(steps: seq<Step>): (v: Survivors)
    ensures |v.mem| == |v.stored| == |v.flying| == |ReportsIn(steps)|
  {
    if steps == [] then Survivors([], [], [])
    else
      var v := SurvivorsOf(Front(steps));
      match Last(steps)
      case Received(_) => Survivors(v.mem + [true], v.stored + [false], v.flying + [false])
      case BeginFlush => if CanBegin(Front(steps)) then v.(flying := v.mem) else v
      case Commit => if Exec(INITIAL, Front(steps)).inFlight.Some? then v.(stored := v.flying) else v
      case Rollback => v
      case Crash => v.(mem := v.stored)
  }

  predicate CanBegin(steps: seq<Step>) {
    var s := Exec(INITIAL, steps);
    s.inFlight.None? && !(s.mem.pending == [] && s.mem.prevReadings == map[])
  }

  function RunOf(reports: seq<Report>, mask: seq<bool>): Memory
    requires |reports| == |mask|
  {
    Run(EMPTY, Kept(reports, mask))
  }

  /** Creation times never change, so an upsert that leaves them alone still stores the memory's rows. */
  ghost predicate AgreesOnCreation(rows: map<Key, Row>, m: Memory) {
    forall k :: k in rows ==> k in m.prevReadings && rows[k].createdAt == m.prevReadings[k].createdAt
  }

  ghost predicate Consistent(s: System) {
    && s.mem.totals.Keys == s.mem.prevReadings.Keys
    && AgreesOnCreation(s.tables.rows, s.mem)
    && (s.inFlight.Some? ==>
          && AgreesOnCreation(s.inFlight.value.rows, s.mem)
          && s.tables.rows.Keys <= s.inFlight.value.rows.Keys)
  }

  lemma {:induction false} CreationIsKept(m: Memory, r: Report, n: nat, rows: map<Key, Row>)
    requires n <= |r.interfaces| && AgreesOnCreation(rows, m)
    ensures AgreesOnCreation(rows, AfterFirst(m, r, n).0)
  {
    if n > 0 {
      CreationIsKept(m, r, n - 1, rows);
    }
  }

  lemma ReportKeepsConsistent(s: System, r: Report)
    requires Consistent(s)
    ensures Consistent(s.(mem := AfterReport(s.mem, r)))
  {
    KeysOfFirst(s.mem, r, |r.interfaces|);
    CreationIsKept(s.mem, r, |r.interfaces|, s.tables.rows);
    if s.inFlight.Some? {
      CreationIsKept(s.mem, r, |r.interfaces|, s.inFlight.value.rows);
    }
  }

  lemma StepKeepsConsistent(s: System, step: Step)
    requires Consistent(s)
    ensures Consistent(Next(s, step))
    ensures step.Commit? && s.inFlight.Some? ==> Next(s, step).tables.rows == s.inFlight.value.rows
  {
    if step.Received? {
      ReportKeepsConsistent(s, step.report);
    } else if step.Commit? && s.inFlight.Some? {
      assert Merge(s.tables.rows, s.inFlight.value.rows) == s.inFlight.value.rows;
    }
  }

  lemma SuffixInTwo<T>(a: seq<T>, b: seq<T>, c: seq<T>)
    requires a <= b <= c
    ensures a <= c && c[|a|..] == b[|a|..] + c[|b|..]
  {
  }

  lemma {:induction false} RunIgnoresPending(a: Memory, b: Memory, rs: seq<Report>)
    requires SameBody(a, b)
    ensures SameBody(Run(a, rs), Run(b, rs))
    ensures a.pending <= Run(a, rs).pending && b.pending <= Run(b, rs).pending
    ensures Run(a, rs).pending[|a.pending|..] == Run(b, rs).pending[|b.pending|..]
  {
    if rs != [] {
      RunIgnoresPending(a, b, Front(rs));
      var a', b', r := Run(a, Front(rs)), Run(b, Front(rs)), Last(rs);
      FirstIgnoresPending(a', b', r, |r.interfaces|);
      AtMostOneLossPerReport(a', r);
      AtMostOneLossPerReport(b', r);
      SuffixInTwo(a.pending, a'.pending, AfterReport(a', r).pending);
      SuffixInTwo(b.pending, b'.pending, AfterReport(b', r).pending);
    }
  }

  lemma {:induction false} FirstIgnoresPending(a: Memory, b: Memory, r: Report, n: nat)
    requires SameBody(a, b) && n <= |r.interfaces|
    ensures var (a', ra), (b', rb) := AfterFirst(a, r, n), AfterFirst(b, r, n);
            && SameBody(a', b') && ra == rb
            && a.pending <= a'.pending && b.pending <= b'.pending
            && a'.pending[|a.pending|..] == b'.pending[|b.pending|..]
  {
    if n > 0 {
      FirstIgnoresPending(a, b, r, n - 1);
      var (a', ra) := AfterFirst(a, r, n - 1);
      var (b', rb) := AfterFirst(b, r, n - 1);
      var more := InterfaceLosses(a', b', ra, r, r.interfaces[n - 1]);
      assert (a'.pending + more)[|a.pending|..] == a'.pending[|a.pending|..] + more;
      assert (b'.pending + more)[|b.pending|..] == b'.pending[|b.pending|..] + more;
    }
  }

  lemma InterfaceLosses(a: Memory, b: Memory, recorded: bool, r: Report, itf: Interface) returns (more: seq<Loss>)
    requires SameBody(a, b)
    ensures var (a', ra), (b', rb) := AfterInterface(a, recorded, r, itf), AfterInterface(b, recorded, r, itf);
            SameBody(a', b') && ra == rb && a'.pending == a.pending + more && b'.pending == b.pending + more
  {
    var a' := AfterInterface(a, recorded, r, itf).0;
    more := a'.pending[|a.pending|..];
  }

  ghost predicate Explained(s: System, reports: seq<Report>, v: Survivors)
    requires |v.mem| == |v.stored| == |v.flying| == |reports|
  {
    && SameBody(s.mem, RunOf(reports, v.mem))
    && s.tables.rows == RowsOf(RunOf(reports, v.stored))
    && (s.inFlight.Some? ==> s.inFlight.value.rows == RowsOf(RunOf(reports, v.flying)))
  }

  lemma ReportIsExplained(s: System, reports: seq<Report>, v: Survivors, r: Report)
    requires |v.mem| == |v.stored| == |v.flying| == |reports|
    requires Explained(s, reports, v)
    ensures Explained(s.(mem := AfterReport(s.mem, r)), reports + [r],
                      Survivors(v.mem + [true], v.stored + [false], v.flying + [false]))
  {
    KeptSnoc(reports, v.mem, r, true);
    KeptSnoc(reports, v.stored, r, false);
    KeptSnoc(reports, v.flying, r, false);
    var kept := Kept(reports, v.mem);
    assert Front(kept + [r]) == kept;
    assert Kept(reports, v.stored) + [] == Kept(reports, v.stored);
    assert Kept(reports, v.flying) + [] == Kept(reports, v.flying);
    FirstIgnoresPending(s.mem, Run(EMPTY, kept), r, |r.interfaces|);
  }

  /**
   In every run of the system, with flushes failing and the process crashing at any point, the memory
   is that of an uninterrupted run over the surviving reports, and so are the stored rows.
   */
  lemma {:induction false} EveryRunIsExplained(steps: seq<Step>)
    ensures Consistent(Exec(INITIAL, steps))
    ensures Explained(Exec(INITIAL, steps), ReportsIn(steps), SurvivorsOf(steps))
  {
    if steps != [] {
      var before := Exec(INITIAL, Front(steps));
      var reports, v := ReportsIn(Front(steps)), SurvivorsOf(Front(steps));
      EveryRunIsExplained(Front(steps));
      StepKeepsConsistent(before, Last(steps));
      match Last(steps)
      case Received(r) => ReportIsExplained(before, reports, v, r);
      case BeginFlush =>
        assert RowsOf(before.mem) == RowsOf(RunOf(reports, v.mem));
        assert reports + [] == reports;
      case Crash =>
        KeysOfRun(EMPTY, Kept(reports, v.stored));
        RestoreUndoesSnapshot(RunOf(reports, v.stored));
        assert reports + [] == reports;
      case Commit => assert reports + [] == reports;
      case Rollback => assert reports + [] == reports;
    }
  }

  /** The total that memory holds for an interface after any steps, in terms of the interface's own readings. */
  lemma SystemTotal(steps: seq<Step>, key: Key, d: Direction)
    ensures var reports := ReportsIn(steps);
            var survivors := Kept(Plain(Samples(reports, key)), SampleMask(reports, SurvivorsOf(steps).mem, key));
            Amount(TotalOf(Exec(INITIAL, steps).mem, key), d) == Min(U64_MAX, AcceptedTotal(survivors, d))
  {
    EveryRunIsExplained(steps);
    KeptRunTotal(ReportsIn(steps), SurvivorsOf(steps).mem, key, d);
  }

  /**
   What the table holds after any steps, by the reports whose effect was stored: an interface has a row once
   one of them lists it, with the fields of the last accepted sample, the time of the first, and the total.
   */
  lemma StoredRowByReports(steps: seq<Step>, key: Key)
    ensures var kept := Kept(ReportsIn(steps), SurvivorsOf(steps).stored);
            var rows, ss := Exec(INITIAL, steps).tables.rows, Samples(kept, key);
            && (key in rows <==> ss != [])
            && (key in rows ==>
                  && LastAccepted(ss).Some?
                  && rows[key].bootId == LastAccepted(ss).value.bootId
                  && SameBits(rows[key].counterReceived, LastAccepted(ss).value.counterReceived)
                  && SameBits(rows[key].counterTransmitted, LastAccepted(ss).value.counterTransmitted)
                  && rows[key].reportTime == LastAccepted(ss).value.reportTime
                  && rows[key].createdAt == ss[0].receivedAt && rows[key].updatedAt == LastAccepted(ss).value.receivedAt
                  && SameBits(rows[key].totalReceived, TotalOf(Run(EMPTY, kept), key).received)
                  && SameBits(rows[key].totalTransmitted, TotalOf(Run(EMPTY, kept), key).transmitted))
  {
    var kept := Kept(ReportsIn(steps), SurvivorsOf(steps).stored);
    EveryRunIsExplained(steps);
    RunIsSamples(kept, key);
    ReadingIsLastAccepted(Samples(kept, key));
    var m := Run(EMPTY, kept);
    if key in m.prevReadings {
      RowByColumns(m.prevReadings[key], TotalOf(m, key));
    }
  }

  /**
   Nothing the system can do over-counts: after any steps, with failing flushes and crashes anywhere, the
   total of an interface whose readings make losses harmless is at most that of an uninterrupted run.
   */
  lemma SystemNeverOvercounts(steps: seq<Step>, key: Key, d: Direction)
    requires Harmless(Plain(Samples(ReportsIn(steps), key)), d)
    ensures Amount(TotalOf(Exec(INITIAL, steps).mem, key), d)
         <= Amount(TotalOf(Run(EMPTY, ReportsIn(steps)), key), d)
  {
    EveryRunIsExplained(steps);
    LostReportsNeverOvercount(ReportsIn(steps), SurvivorsOf(steps).mem, key, d);
  }

  // ---- The condition is exact: some run of the system over-counts whenever a loss could ----

  /** A report to keep is flushed at once; one to lose is followed by a crash. */
  function StepsOfOne(r: Report, keep: bool): seq<Step> {
    if keep then [Step.Received(r), BeginFlush, Commit] else [Step.Received(r), Crash]
  }

  /** Steps that make the system lose exactly the reports outside `mask`. */
  function Losing(rs: seq<Report>, mask: seq<bool>): seq<Step>
    requires |rs| == |mask|
  {
    if rs == [] then [] else Losing(Front(rs), Front(mask)) + StepsOfOne(Last(rs), Last(mask))
  }

  /** No flush is under way, and memory and tables reflect the same samples of the interface. */
  ghost predicate Settled(steps: seq<Step>, key: Key, sampleMask: seq<bool>) {
    && Exec(INITIAL, steps).inFlight.None?
    && SampleMask(ReportsIn(steps), SurvivorsOf(steps).mem, key) == sampleMask
    && SampleMask(ReportsIn(steps), SurvivorsOf(steps).stored, key) == sampleMask
  }

  lemma OneMoreStep(steps: seq<Step>, step: Step)
    ensures Front(steps + [step]) == steps && Last(steps + [step]) == step
  {
  }

  /** Memory is empty only if no sample survived in it. */
  lemma EmptyMemoryHasNoSamples(steps: seq<Step>, key: Key)
    requires Exec(INITIAL, steps).mem.prevReadings == map[]
    ensures Samples(Kept(ReportsIn(steps), SurvivorsOf(steps).mem), key) == []
  {
    EveryRunIsExplained(steps);
    var kept := Kept(ReportsIn(steps), SurvivorsOf(steps).mem);
    RunProjects(EMPTY, kept, key);
    MeterIsAccepted(Samples(kept, key), Direction.Received);
    FirstIsAccepted(Samples(kept, key));
  }

  lemma {:induction false} FirstIsAccepted(ss: seq<Sample>)
    ensures ss != [] ==> Accepted(ss) != []
  {
  }

  /** A flush that has nothing to write may be left out. */
  lemma NothingToFlush(before: seq<Step>, r: Report, key: Key)
    requires Exec(INITIAL, before).inFlight.None? && !CanBegin(before + [Step.Received(r)])
    ensures SamplesOf(r, key) == []
  {
    var received := before + [Step.Received(r)];
    OneMoreStep(before, Step.Received(r));
    EmptyMemoryHasNoSamples(received, key);
    var reports, mask := ReportsIn(before), SurvivorsOf(before).mem;
    KeptSnoc(reports, mask, r, true);
    OneMoreReport(Kept(reports, mask), r, key);
  }

  lemma OneMoreReport(rs: seq<Report>, r: Report, key: Key)
    ensures Samples(rs + [r], key) == Samples(rs, key) + SamplesOf(r, key)
  {
    assert Front(rs + [r]) == rs;
  }

  lemma FlushSteps(received: seq<Step>)
    requires Exec(INITIAL, received).inFlight.None?
    ensures var after, v := received + [BeginFlush, Commit], SurvivorsOf(received);
            && Exec(INITIAL, after).inFlight.None? && ReportsIn(after) == ReportsIn(received)
            && SurvivorsOf(after).mem == v.mem
            && SurvivorsOf(after).stored == if CanBegin(received) then v.mem else v.stored
  {
    var begun := received + [BeginFlush];
    OneMoreStep(received, BeginFlush);
    OneMoreStep(begun, Commit);
    assert received + [BeginFlush, Commit] == begun + [Commit];
  }

  lemma KeepingOne(before: seq<Step>, r: Report, key: Key, sampleMask: seq<bool>)
    requires Settled(before, key, sampleMask)
    ensures var after := before + StepsOfOne(r, true);
            ReportsIn(after) == ReportsIn(before) + [r] &&
            Settled(after, key, sampleMask + All(|SamplesOf(r, key)|, true))
  {
    var received := before + [Step.Received(r)];
    OneMoreStep(before, Step.Received(r));
    FlushSteps(received);
    assert before + StepsOfOne(r, true) == received + [BeginFlush, Commit];
    var reports, v := ReportsIn(before), SurvivorsOf(before);
    SampleMaskSnoc(reports, v.mem, key, r, true);
    SampleMaskSnoc(reports, v.stored, key, r, false);
    if !CanBegin(received) {
      NothingToFlush(before, r, key);
    }
  }

  lemma LosingOne(before: seq<Step>, r: Report, key: Key, sampleMask: seq<bool>)
    requires Settled(before, key, sampleMask)
    ensures var after := before + StepsOfOne(r, false);
            ReportsIn(after) == ReportsIn(before) + [r] &&
            Settled(after, key, sampleMask + All(|SamplesOf(r, key)|, false))
  {
    var received := before + [Step.Received(r)];
    OneMoreStep(before, Step.Received(r));
    OneMoreStep(received, Crash);
    assert before + StepsOfOne(r, false) == received + [Crash];
    SampleMaskSnoc(ReportsIn(before), SurvivorsOf(before).stored, key, r, false);
  }

  lemma {:induction false} LosingLoses(rs: seq<Report>, mask: seq<bool>, key: Key)
    requires |rs| == |mask|
    ensures ReportsIn(Losing(rs, mask)) == rs && Settled(Losing(rs, mask), key, SampleMask(rs, mask, key))
  {
    if rs != [] {
      LosingLoses(Front(rs), Front(mask), key);
      var before, sampleMask := Losing(Front(rs), Front(mask)), SampleMask(Front(rs), Front(mask), key);
      assert rs == Front(rs) + [Last(rs)];
      if Last(mask) {
        KeepingOne(before, Last(rs), key, sampleMask);
      } else {
        LosingOne(before, Last(rs), key, sampleMask);
      }
    }
  }

  /** Whatever the system does while it receives `rs`, it does not over-count. */
  ghost predicate NoRunOvercounts(rs: seq<Report>, key: Key, d: Direction) {
    forall steps: seq<Step> | ReportsIn(steps) == rs ::
      Amount(TotalOf(Exec(INITIAL, steps).mem, key), d) <= Amount(TotalOf(Run(EMPTY, rs), key), d)
  }

  /** Exactly when no interleaving of flushes, failures and crashes over-counts. */
  lemma SystemOvercountsIff(rs: seq<Report>, key: Key, d: Direction)
    requires OneSamplePerReport(rs, key)
    ensures NoRunOvercounts(rs, key, d) <==> Harmless(Plain(Samples(rs, key)), d)
  {
    var readings := Plain(Samples(rs, key));
    if Harmless(readings, d) {
      forall steps: seq<Step> | ReportsIn(steps) == rs
        ensures Amount(TotalOf(Exec(INITIAL, steps).mem, key), d) <= Amount(TotalOf(Run(EMPTY, rs), key), d)
      {
        SystemNeverOvercounts(steps, key, d);
      }
    } else {
      var sampleMask := BeyondBound(readings, AcceptedTotal(readings, d), d);
      var mask := ReportMaskFor(rs, key, sampleMask);
      LosingLoses(rs, mask, key);
      SystemTotal(Losing(rs, mask), key, d);
      RunTotal(rs, key, d);
    }
  }

  // ---- Graceful restart and crash ----

  /** A committed flush with nothing in flight before it stores exactly what memory holds. */
  lemma FlushStoresMemory(s: System)
    requires Consistent(s) && s.inFlight.None?
    ensures var stored := Next(Next(s, BeginFlush), Commit).tables;
            stored.rows == RowsOf(s.mem) && stored.losses == Known(s)
  {
    var begun := Next(s, BeginFlush);
    StepKeepsConsistent(s, BeginFlush);
    StepKeepsConsistent(begun, Commit);
    if s.mem.pending == [] && s.mem.prevReadings == map[] {
      assert s.tables.rows == map[] && RowsOf(s.mem) == map[];
    }
  }

  function AllReceived(rs: seq<Report>): seq<Step> {
    seq(|rs|, i requires 0 <= i < |rs| => Step.Received(rs[i]))
  }

  lemma {:induction false} ReceivingKeepsTables(s: System, rs: seq<Report>)
    ensures Exec(s, AllReceived(rs)).tables == s.tables
  {
    if rs != [] {
      ReceivingKeepsTables(s, Front(rs));
      assert Front(AllReceived(rs)) == AllReceived(Front(rs));
    }
  }

  /** A crash forgets exactly what came in since the last committed flush: readings, totals and pending losses. */
  lemma CrashForgetsSinceFlush(steps: seq<Step>, later: seq<Report>)
    requires Exec(INITIAL, steps).inFlight.None?
    ensures var s := Exec(INITIAL, steps);
            var flushed := Next(Next(s, BeginFlush), Commit);
            var crashed := Next(Exec(flushed, AllReceived(later)), Crash);
            && SameBody(crashed.mem, s.mem) && crashed.mem.pending == [] && crashed.inFlight.None?
            && crashed.tables.losses == Known(s)
  {
    var s := Exec(INITIAL, steps);
    EveryRunIsExplained(steps);
    FlushStoresMemory(s);
    RestoreUndoesSnapshot(s.mem);
    ReceivingKeepsTables(Next(Next(s, BeginFlush), Commit), later);
  }

  /**
   A graceful restart is invisible: after a final committed flush, the restored process answers every
   further run of reports with the same readings, totals and newly detected losses.
   */
  lemma {:induction false} RestartIsInvisible(steps: seq<Step>, later: seq<Report>)
    requires Exec(INITIAL, steps).inFlight.None?
    ensures var s := Exec(INITIAL, steps);
            var stored := Next(Next(s, BeginFlush), Commit).tables;
            var restarted := Restored(stored.rows);
            && stored.losses == Known(s)
            && SameBody(Run(restarted, later), Run(s.mem, later))
            && s.mem.pending + Run(restarted, later).pending == Run(s.mem, later).pending
  {
    var s := Exec(INITIAL, steps);
    EveryRunIsExplained(steps);
    FlushStoresMemory(s);
    RestoreUndoesSnapshot(s.mem);
    RunIgnoresPending(Restored(RowsOf(s.mem)), s.mem, later);
    var whole := Run(s.mem, later).pending;
    assert whole == whole[..|s.mem.pending|] + whole[|s.mem.pending|..];
  }

  /**
   Crashes are caught up with: after any steps, if the first and the last sample of an interface survived,
   the samples are in order and hide no reset, and no step touching a lost sample is a reset, then memory
   holds exactly the total of an uninterrupted run.
   */
  lemma CrashesAreCaughtUp(steps: seq<Step>, key: Key, d: Direction)
    requires var readings := Plain(Samples(ReportsIn(steps), key));
             var mask := SampleMask(ReportsIn(steps), SurvivorsOf(steps).mem, key);
             && InTimeOrder(readings) && NoHiddenReset(readings, d)
             && mask != [] && mask[0] && Last(mask)
             && LostStretchesAreSteady(readings, mask, d)
    ensures Amount(TotalOf(Exec(INITIAL, steps).mem, key), d)
         == Amount(TotalOf(Run(EMPTY, ReportsIn(steps)), key), d)
  {
    var readings := Plain(Samples(ReportsIn(steps), key));
    var mask := SampleMask(ReportsIn(steps), SurvivorsOf(steps).mem, key);
    SystemTotal(steps, key, d);
    RunTotal(ReportsIn(steps), key, d);
    KeptInOrder(readings, mask);
    InOrderNothingIsLate(readings);
    InOrderNothingIsLate(Kept(readings, mask));
    LostStretchIsCaughtUp(readings, mask, d);
  }
}
