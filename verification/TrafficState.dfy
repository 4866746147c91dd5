/**
 The in-memory state of traffic accounting. `State.ApplyReport` is the loop over the interfaces of one
 report; its effect is the function `AfterReport`, and the lemmas relate whole runs of reports to the
 single-interface totals of `TrafficTotals`.
 */
module TrafficState {
  import opened Base
  import opened TrafficReading
  import opened TrafficTotals

  datatype Key = Key(uuidId: I16, interfaceName: string)

  datatype Interface = Interface(
    name: string,
    totalReceived: U64,
    totalTransmitted: U64,
    ifindex: Option<U32>,
    isOutlet: Option<bool>)

  /** One dynamic monitoring report, with the device number and the server's receive time. */
  datatype Report = Report(
    uuidId: I16,
    time: U64,
    uptime: U64,
    bootId: Option<string>,
    interfaces: seq<Interface>,
    receivedAt: I64)

  datatype Memory = Memory(
    prevReadings: map<Key, Reading>,
    totals: map<Key, Traffic>,
    pending: seq<Loss>)

  const EMPTY := Memory(map[], map[], [])

  function Lookup<K, V>(m: map<K, V>, k: K): Option<V> {
    if k in m then Some(m[k]) else None
  }

  function TotalOf(m: Memory, key: Key): Traffic {
    if key in m.totals then m.totals[key] else NO_TRAFFIC
  }

  /** Reports from agents too old to mark outlet interfaces are ignored as a whole. */
  predicate FromOldAgent(r: Report) {
    exists i :: 0 <= i < |r.interfaces| && r.interfaces[i].isOutlet.None?
  }

  /** Boot time derived from the receive time, so that the device's own clock does not matter. */
  function BootAt(r: Report): I64 {
    WrapI64(r.receivedAt - CastSigned64(SaturatingMul(r.uptime, 1000)))
  }

  predicate IsLate(prev: Option<Reading>, reportTime: I64) {
    prev.Some? && reportTime < prev.value.reportTime
  }

  function MakeReading(prev: Option<Reading>, s: Sample): Reading {
    Reading(s.bootId, s.ifindex, s.counterReceived, s.counterTransmitted, s.reportTime,
            if prev.Some? then prev.value.createdAt else s.receivedAt, s.receivedAt)
  }

  function ResetOf(prev: Option<Reading>, current: Reading): CounterReset {
    if prev.Some? then DetectCounterReset(prev.value, current) else CounterReset(false, false)
  }

  function AddIncrease(total: Traffic, increase: Traffic): Traffic {
    Traffic(SaturatingAdd(total.received, increase.received),
            SaturatingAdd(total.transmitted, increase.transmitted))
  }

  function LossOf(r: Report, prev: Option<Reading>, current: Reading): Option<Loss> {
    if ResetOf(prev, current).Any() && prev.Some? then
      var resetAt := if IsBootIdChanged(prev.value, current) then BootAt(r) else r.receivedAt;
      DetectPossibleDataLoss(r.uuidId, prev.value, resetAt)
    else None
  }

  /** Effect of one interface; the flag says whether this report has already recorded a loss. */
  function AfterInterface(m: Memory, recorded: bool, r: Report, itf: Interface): (Memory, bool) {
    var key := Key(r.uuidId, itf.name);
    var prev := Lookup(m.prevReadings, key);
    var s := SampleOf(r, itf);
    if itf.isOutlet != Some(true) || IsLate(prev, s.reportTime) then (m, recorded)
    else
      var current := MakeReading(prev, s);
      var increase := ComputeTrafficIncrease(prev, current, ResetOf(prev, current));
      var loss := if recorded then None else LossOf(r, prev, current);
      (Memory(m.prevReadings[key := current],
              m.totals[key := AddIncrease(TotalOf(m, key), increase)],
              m.pending + if loss.Some? then [loss.value] else []),
       recorded || loss.Some?)
  }

  function AfterFirst(m: Memory, r: Report, n: nat): (Memory, bool)
    requires n <= |r.interfaces|
  {
    if n == 0 then (m, false)
    else
      var (before, recorded) := AfterFirst(m, r, n - 1);
      AfterInterface(before, recorded, r, r.interfaces[n - 1])
  }

  function AfterReport(m: Memory, r: Report): Memory {
    if FromOldAgent(r) then m else AfterFirst(m, r, |r.interfaces|).0
  }

  function Run(m: Memory, rs: seq<Report>): Memory {
    if rs == [] then m else AfterReport(Run(m, Front(rs)), Last(rs))
  }

  class State {
    var prevReadings: map<Key, Reading>
    var totals: map<Key, Traffic>
    var pendingPossibleDataLosses: seq<Loss>

    ghost function Value(): Memory
      reads this
    {
      Memory(prevReadings, totals, pendingPossibleDataLosses)
    }

    constructor ()
      ensures Value() == EMPTY
    {
      prevReadings, totals, pendingPossibleDataLosses := map[], map[], [];
    }

    method ApplyReport(r: Report)
      modifies this
      ensures Value() == AfterReport(old(Value()), r)
    {
      for i := 0 to |r.interfaces|
        invariant forall j :: 0 <= j < i ==> r.interfaces[j].isOutlet.Some?
        invariant Value() == old(Value())
      {
        if r.interfaces[i].isOutlet.None? {
          return;
        }
      }

      var reportTime := CastSigned64(r.time);
      var bootAt := BootAt(r);
      var recorded := false;
      for i := 0 to |r.interfaces|
        invariant (Value(), recorded) == AfterFirst(old(Value()), r, i)
      {
        var itf := r.interfaces[i];
        assert pendingPossibleDataLosses + [] == pendingPossibleDataLosses;
        if itf.isOutlet != Some(true) {
          continue;
        }
        var key := Key(r.uuidId, itf.name);
        var prev := Lookup(prevReadings, key);
        if prev.Some? && reportTime < prev.value.reportTime {
          continue;
        }
        var current := Reading(r.bootId, itf.ifindex, itf.totalReceived, itf.totalTransmitted, reportTime,
                               if prev.Some? then prev.value.createdAt else r.receivedAt, r.receivedAt);
        var total := if key in totals then totals[key] else NO_TRAFFIC;
        var reset := CounterReset(false, false);
        if prev.Some? {
          reset := DetectCounterReset(prev.value, current);
        }
        var increase := ComputeTrafficIncrease(prev, current, reset);
        totals := totals[key := Traffic(SaturatingAdd(total.received, increase.received),
                                        SaturatingAdd(total.transmitted, increase.transmitted))];
        if reset.Any() && !recorded && prev.Some? {
          var resetAt := r.receivedAt;
          if IsBootIdChanged(prev.value, current) {
            resetAt := bootAt;
          }
          var loss := DetectPossibleDataLoss(r.uuidId, prev.value, resetAt);
          if loss.Some? {
            pendingPossibleDataLosses := pendingPossibleDataLosses + [loss.value];
            recorded := true;
          }
        }
        prevReadings := prevReadings[key := current];
      }
    }
  }

  // ---- Possible data loss ----

  /** The interface at position `n` would record a loss, were none recorded before it in this report. */
  ghost predicate Detects(m: Memory, r: Report, n: nat)
    requires n < |r.interfaces|
  {
    var itf := r.interfaces[n];
    var prev := Lookup(AfterFirst(m, r, n).0.prevReadings, Key(r.uuidId, itf.name));
    var s := SampleOf(r, itf);
    itf.isOutlet == Some(true) && !IsLate(prev, s.reportTime) && LossOf(r, prev, MakeReading(prev, s)).Some?
  }

  /** The interval is longer than the threshold; the difference is taken in 64-bit arithmetic. */
  ghost predicate IsLong(loss: Loss) {
    WrapI64(loss.endTime - loss.startTime) > POSSIBLE_DATA_LOSS_THRESHOLD_MS
  }

  /** What one interface may add. */
  lemma LossOfInterface(m: Memory, recorded: bool, r: Report, itf: Interface)
    ensures var (after, recorded') := AfterInterface(m, recorded, r, itf);
            && (recorded' == recorded ==> after.pending == m.pending)
            && (recorded' != recorded ==>
                  && !recorded
                  && |after.pending| == |m.pending| + 1 && after.pending[..|m.pending|] == m.pending
                  && Last(after.pending).uuidId == r.uuidId && IsLong(Last(after.pending)))
  {
  }

  lemma DetectionRecords(m: Memory, r: Report, n: nat)
    requires n < |r.interfaces|
    ensures AfterFirst(m, r, n + 1).1 <==> AfterFirst(m, r, n).1 || Detects(m, r, n)
  {
  }

  lemma {:induction false} RecordedIffDetected(m: Memory, r: Report, n: nat)
    requires n <= |r.interfaces|
    ensures AfterFirst(m, r, n).1 <==> exists j: nat :: j < n && Detects(m, r, j)
  {
    if n > 0 {
      RecordedIffDetected(m, r, n - 1);
      DetectionRecords(m, r, n - 1);
    }
  }

  lemma {:induction false} LossesOfFirst(m: Memory, r: Report, n: nat)
    requires n <= |r.interfaces|
    ensures var (after, recorded) := AfterFirst(m, r, n);
            && |after.pending| == |m.pending| + (if recorded then 1 else 0)
            && after.pending[..|m.pending|] == m.pending
            && (recorded ==> Last(after.pending).uuidId == r.uuidId && IsLong(Last(after.pending)))
  {
    if n > 0 {
      LossesOfFirst(m, r, n - 1);
      var (before, recorded) := AfterFirst(m, r, n - 1);
      LossOfInterface(before, recorded, r, r.interfaces[n - 1]);
    }
  }

  /** One report records at most one interval, and it records one exactly when some interface detects one. */
  lemma AtMostOneLossPerReport(m: Memory, r: Report)
    ensures var after := AfterReport(m, r);
            && m.pending <= after.pending
            && |after.pending| <= |m.pending| + 1
            && (|after.pending| == |m.pending| + 1 <==>
                !FromOldAgent(r) && exists j: nat :: j < |r.interfaces| && Detects(m, r, j))
            && (|after.pending| == |m.pending| + 1 ==> Last(after.pending).uuidId == r.uuidId && IsLong(Last(after.pending)))
  {
    LossesOfFirst(m, r, |r.interfaces|);
    RecordedIffDetected(m, r, |r.interfaces|);
  }

  // ---- One interface seen in isolation ----

  /** What one report says about one interface. */
  datatype Sample = Sample(
    bootId: Option<string>,
    ifindex: Option<U32>,
    counterReceived: U64,
    counterTransmitted: U64,
    reportTime: I64,
    receivedAt: I64)

  datatype Meter = Meter(reading: Option<Reading>, total: Traffic)

  function SampleOf(r: Report, itf: Interface): Sample {
    Sample(r.bootId, itf.ifindex, itf.totalReceived, itf.totalTransmitted, CastSigned64(r.time), r.receivedAt)
  }

  function MeterOf(m: Memory, key: Key): Meter {
    Meter(Lookup(m.prevReadings, key), TotalOf(m, key))
  }

  function MeterStep(m: Meter, s: Sample): Meter {
    if IsLate(m.reading, s.reportTime) then m
    else
      var current := MakeReading(m.reading, s);
      Meter(Some(current),
            AddIncrease(m.total, ComputeTrafficIncrease(m.reading, current, ResetOf(m.reading, current))))
  }

  function MeterRun(m: Meter, ss: seq<Sample>): Meter {
    if ss == [] then m else MeterStep(MeterRun(m, Front(ss)), Last(ss))
  }

  function SamplesOfFirst(r: Report, key: Key, n: nat): seq<Sample>
    requires n <= |r.interfaces|
  {
    if n == 0 then []
    else
      var itf := r.interfaces[n - 1];
      SamplesOfFirst(r, key, n - 1) +
      if itf.isOutlet == Some(true) && key == Key(r.uuidId, itf.name) then [SampleOf(r, itf)] else []
  }

  function SamplesOf(r: Report, key: Key): seq<Sample> {
    if FromOldAgent(r) then [] else SamplesOfFirst(r, key, |r.interfaces|)
  }

  function Samples(rs: seq<Report>, key: Key): seq<Sample> {
    if rs == [] then [] else Samples(Front(rs), key) + SamplesOf(Last(rs), key)
  }

  lemma {:induction false} MeterRunAppend(m: Meter, a: seq<Sample>, b: seq<Sample>)
    ensures MeterRun(m, a + b) == MeterRun(MeterRun(m, a), b)
  {
    if b == [] {
      assert a + b == a;
    } else {
      assert Front(a + b) == a + Front(b);
      MeterRunAppend(m, a, Front(b));
    }
  }

  lemma {:induction false} FirstProjects(m: Memory, r: Report, key: Key, n: nat)
    requires n <= |r.interfaces|
    ensures MeterOf(AfterFirst(m, r, n).0, key) == MeterRun(MeterOf(m, key), SamplesOfFirst(r, key, n))
  {
    if n > 0 {
      FirstProjects(m, r, key, n - 1);
      var itf := r.interfaces[n - 1];
      var before := SamplesOfFirst(r, key, n - 1);
      if itf.isOutlet == Some(true) && key == Key(r.uuidId, itf.name) {
        assert Front(before + [SampleOf(r, itf)]) == before;
      } else {
        assert before + [] == before;
      }
    }
  }

  /** Interfaces do not influence each other: one key's meter depends only on its own samples. */
  lemma {:induction false} RunProjects(m: Memory, rs: seq<Report>, key: Key)
    ensures MeterOf(Run(m, rs), key) == MeterRun(MeterOf(m, key), Samples(rs, key))
  {
    if rs != [] {
      RunProjects(m, Front(rs), key);
      var r := Last(rs);
      if FromOldAgent(r) {
        assert Samples(rs, key) == Samples(Front(rs), key);
      } else {
        FirstProjects(Run(m, Front(rs)), r, key, |r.interfaces|);
        MeterRunAppend(MeterOf(m, key), Samples(Front(rs), key), SamplesOf(r, key));
      }
    }
  }

  /** The readings that were not dropped as late. */
  ghost function Accepted(ss: seq<Sample>): seq<Reading> {
    if ss == [] then []
    else
      var before := Accepted(Front(ss));
      var prev := LastReading(before);
      if IsLate(prev, Last(ss).reportTime) then before else before + [MakeReading(prev, Last(ss))]
  }

  ghost function LastReading(rs: seq<Reading>): Option<Reading> {
    if rs == [] then None else Some(Last(rs))
  }

  /** A meter holds the last accepted reading, and the exact total clamped to the `u64` range. */
  lemma {:induction false} MeterIsAccepted(ss: seq<Sample>, d: Direction)
    ensures var m, accepted := MeterRun(Meter(None, NO_TRAFFIC), ss), Accepted(ss);
            && m.reading == LastReading(accepted)
            && Amount(m.total, d) == Min(U64_MAX, ExactTotal(accepted, d))
  {
    if ss != [] {
      MeterIsAccepted(Front(ss), d);
      var before, after := Accepted(Front(ss)), Accepted(ss);
      if after != before {
        assert Front(after) == before;
        if before != [] {
          assert after[|after| - 2] == Last(before);
        }
      }
    }
  }

  lemma {:induction false} KeysOfFirst(m: Memory, r: Report, n: nat)
    requires n <= |r.interfaces| && m.totals.Keys == m.prevReadings.Keys
    ensures var after := AfterFirst(m, r, n).0; after.totals.Keys == after.prevReadings.Keys
  {
    if n > 0 {
      KeysOfFirst(m, r, n - 1);
    }
  }

  lemma {:induction false} KeysOfRun(m: Memory, rs: seq<Report>)
    requires m.totals.Keys == m.prevReadings.Keys
    ensures Run(m, rs).totals.Keys == Run(m, rs).prevReadings.Keys
  {
    if rs != [] {
      KeysOfRun(m, Front(rs));
      KeysOfFirst(Run(m, Front(rs)), Last(rs), |Last(rs).interfaces|);
    }
  }

  /**
   After any run of reports of any devices, the total of an interface is the closed form over the
   epochs of its accepted readings, clamped to the `u64` range; an interface without accepted readings
   has no entry.
   */
  lemma RunTotalIsClosedForm(rs: seq<Report>, key: Key, epochs: seq<seq<Reading>>, d: Direction)
    requires IsEpochSplit(Accepted(Samples(rs, key)), epochs, d)
    ensures var m := Run(EMPTY, rs);
            && m.totals.Keys == m.prevReadings.Keys
            && (key in m.totals <==> epochs != [])
            && Amount(TotalOf(m, key), d) == Min(U64_MAX, ClosedForm(epochs, d))
  {
    RunProjects(EMPTY, rs, key);
    MeterIsAccepted(Samples(rs, key), d);
    KeysOfRun(EMPTY, rs);
    TotalIsClosedForm(Accepted(Samples(rs, key)), epochs, d);
    if epochs != [] {
      EpochHeads(epochs);
    }
  }
}
