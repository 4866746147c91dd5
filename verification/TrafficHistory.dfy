/**
 What traffic accounting keeps, in terms of the reports alone: the reading, the total and the recorded
 intervals of possible data loss after any run, stated on the fields of the samples that were accepted.
 */
module TrafficHistory {
  import opened Base
  import opened TrafficReading
  import opened TrafficTotals
  import opened TrafficState

  // ---- Samples ----

  /** The report marks the interface at position `i` as an outlet, and it is the one that `key` names. */
  ghost predicate ListsOutlet(r: Report, i: nat, key: Key) {
    i < |r.interfaces| && r.interfaces[i].isOutlet == Some(true) && r.interfaces[i].name == key.interfaceName
    && r.uuidId == key.uuidId
  }

  ghost predicate MarksOutlets(r: Report) {
    forall i :: 0 <= i < |r.interfaces| ==> r.interfaces[i].isOutlet != None
  }

  /** The samples of the first `n` interfaces are theirs, in order, field by field. */
  lemma {:induction false} SamplesByFields(r: Report, key: Key, n: nat) returns (at: seq<nat>)
    requires n <= |r.interfaces|
    ensures |at| == |SamplesOfFirst(r, key, n)|
    ensures forall j, k :: 0 <= j < k < |at| ==> at[j] < at[k]
    ensures forall i: nat :: i in at <==> i < n && ListsOutlet(r, i, key)
    ensures forall j :: 0 <= j < |at| ==>
              at[j] < n &&
              SamplesOfFirst(r, key, n)[j] ==
              Sample(r.bootId, r.interfaces[at[j]].ifindex, r.interfaces[at[j]].totalReceived,
                     r.interfaces[at[j]].totalTransmitted, if r.time < TWO_63 then r.time else r.time - TWO_64, r.receivedAt)
  {
    at := [];
    if n > 0 {
      at := SamplesByFields(r, key, n - 1);
      if ListsOutlet(r, n - 1, key) {
        at := at + [n - 1];
      }
    }
  }

  /** A report that leaves some interface unmarked counts for nothing; otherwise all its outlets count. */
  lemma UnmarkedReportsAreIgnored(m: Memory, r: Report, key: Key)
    ensures !MarksOutlets(r) ==> SamplesOf(r, key) == [] && AfterReport(m, r) == m
    ensures MarksOutlets(r) ==> SamplesOf(r, key) == SamplesOfFirst(r, key, |r.interfaces|)
  {
  }

  /** The sample that the next one of the interface is compared with: the last that was not late. */
  ghost function LastAccepted(ss: seq<Sample>): Option<Sample> {
    if ss == [] then None
    else
      var before := LastAccepted(Front(ss));
      if before.Some? && Last(ss).reportTime < before.value.reportTime then before else Some(Last(ss))
  }

  /** The stored reading is the last accepted sample, dated from the first sample to the last accepted one. */
  lemma {:induction false} ReadingIsLastAccepted(ss: seq<Sample>)
    ensures var reading, last := MeterRun(Meter(None, NO_TRAFFIC), ss).reading, LastAccepted(ss);
            if last.None? then ss == [] && reading.None?
            else ss != [] && reading == Some(Reading(last.value.bootId, last.value.ifindex, last.value.counterReceived,
                                                     last.value.counterTransmitted, last.value.reportTime,
                                                     ss[0].receivedAt, last.value.receivedAt))
  {
    if ss != [] {
      ReadingIsLastAccepted(Front(ss));
    }
  }

  /** What `current` adds to the total after `last`, by the fields of the two samples. */
  ghost function GrowthReceived(last: Sample, current: Sample): U64 {
    if Replaced(last.bootId, current.bootId) || Replaced(last.ifindex, current.ifindex)
       || current.counterReceived < last.counterReceived then current.counterReceived
    else current.counterReceived - last.counterReceived
  }

  ghost function GrowthTransmitted(last: Sample, current: Sample): U64 {
    if Replaced(last.bootId, current.bootId) || Replaced(last.ifindex, current.ifindex)
       || current.counterTransmitted < last.counterTransmitted then current.counterTransmitted
    else current.counterTransmitted - last.counterTransmitted
  }

  /** A first sample and a late one add nothing, any other its growth, up to the ceiling. */
  ghost predicate Adds(before: Traffic, after: Traffic, last: Option<Sample>, s: Sample) {
    if last.None? || s.reportTime < last.value.reportTime then after == before
    else
      && after.received == Min(U64_MAX, before.received + GrowthReceived(last.value, s))
      && after.transmitted == Min(U64_MAX, before.transmitted + GrowthTransmitted(last.value, s))
  }

  lemma NextSampleTotal(ss: seq<Sample>, s: Sample)
    ensures Adds(MeterRun(Meter(None, NO_TRAFFIC), ss).total, MeterRun(Meter(None, NO_TRAFFIC), ss + [s]).total,
                 LastAccepted(ss), s)
  {
    assert Front(ss + [s]) == ss;
    ReadingIsLastAccepted(ss);
    var m := MeterRun(Meter(None, NO_TRAFFIC), ss);
    if m.reading.Some? {
      IncreaseByFields(m.reading.value, MakeReading(m.reading, s));
    }
  }

  /** After any run, an interface's reading and total are those of its samples, and it is known once it has one. */
  lemma RunIsSamples(rs: seq<Report>, key: Key)
    ensures MeterOf(Run(EMPTY, rs), key) == MeterRun(Meter(None, NO_TRAFFIC), Samples(rs, key))
    ensures key in Run(EMPTY, rs).prevReadings <==> Samples(rs, key) != []
  {
    RunProjects(EMPTY, rs, key);
    ReadingIsLastAccepted(Samples(rs, key));
  }

  lemma SamplesSnoc(rs: seq<Report>, r: Report, key: Key)
    ensures Samples(rs + [r], key) == Samples(rs, key) + SamplesOf(r, key)
  {
    assert Front(rs + [r]) == rs;
  }

  /** The total after one more report that lists the interface once, for every run before it. */
  lemma NextReportTotal(rs: seq<Report>, r: Report, key: Key, s: Sample)
    requires SamplesOf(r, key) == [s]
    ensures Adds(TotalOf(Run(EMPTY, rs), key), TotalOf(Run(EMPTY, rs + [r]), key), LastAccepted(Samples(rs, key)), s)
  {
    SamplesSnoc(rs, r, key);
    NextSampleTotal(Samples(rs, key), s);
    RunIsSamples(rs, key);
    RunIsSamples(rs + [r], key);
  }

  /** A report of one outlet interface of device 1. */
  function Reporting(time: U64, ifindex: U32, received: U64): Report {
    Report(1, time, 0, Some("boot"), [Interface("eth0", received, 0, Some(ifindex), Some(true))], 0)
  }

  lemma SampleOfReporting(time: U64, ifindex: U32, received: U64)
    ensures SamplesOf(Reporting(time, ifindex, received), Key(1, "eth0"))
         == [Sample(Some("boot"), Some(ifindex), received, 0, CastSigned64(time), 0)]
  {
    var r := Reporting(time, ifindex, received);
    assert SamplesOfFirst(r, Key(1, "eth0"), 0) == [];
  }

  /** The total after two reports that list the interface once each, in time order. */
  lemma TotalOfTwo(a: Report, b: Report, key: Key, sa: Sample, sb: Sample)
    requires SamplesOf(a, key) == [sa] && SamplesOf(b, key) == [sb] && sa.reportTime <= sb.reportTime
    ensures TotalOf(Run(EMPTY, [a, b]), key).received == GrowthReceived(sa, sb)
    ensures TotalOf(Run(EMPTY, [a, b]), key).transmitted == GrowthTransmitted(sa, sb)
  {
    NextReportTotal([], a, key, sa);
    NextReportTotal([a], b, key, sb);
    SamplesSnoc([], a, key);
    assert [] + [a] == [a] && [a] + [b] == [a, b];
    assert Samples([a], key) == [sa] && Front([sa]) == [];
    assert LastAccepted([sa]) == Some(sa);
  }

  /** An interface that comes back with another index: its whole counter is new traffic, not just the growth. */
  lemma ReplacedInterfaceCountsWhole(i: U32, j: U32, x: U64, y: U64)
    requires i != j
    ensures TotalOf(Run(EMPTY, [Reporting(1, i, x), Reporting(2, j, y)]), Key(1, "eth0")).received == y
  {
    var a, b, key := Reporting(1, i, x), Reporting(2, j, y), Key(1, "eth0");
    SampleOfReporting(1, i, x);
    SampleOfReporting(2, j, y);
    var sa, sb := SamplesOf(a, key)[0], SamplesOf(b, key)[0];
    TotalOfTwo(a, b, key, sa, sb);
    assert sa.ifindex == Some(i) && sb.ifindex == Some(j) && Replaced(sa.ifindex, sb.ifindex);
  }

  // ---- Possible data loss ----

  /** The interface's sample before the one at position `n` of report `r`, which follows the run `rs`. */
  ghost function Before(rs: seq<Report>, r: Report, n: nat): Option<Sample>
    requires n < |r.interfaces|
  {
    var key := Key(r.uuidId, r.interfaces[n].name);
    LastAccepted(Samples(rs, key) + SamplesOfFirst(r, key, n))
  }

  /** When the counter was restarted: at boot, reckoned from the receive time, or else on receipt. */
  ghost function RestartTime(r: Report, last: Sample): I64 {
    if Replaced(last.bootId, r.bootId) then
      var uptimeMs := Min(r.uptime * 1000, U64_MAX);
      WrapI64(r.receivedAt - if uptimeMs < TWO_63 then uptimeMs else uptimeMs - TWO_64)
    else r.receivedAt
  }

  /** By its fields, the interface was restarted since `last`. */
  ghost predicate Restarted(last: Sample, r: Report, itf: Interface) {
    || Replaced(last.bootId, r.bootId) || Replaced(last.ifindex, itf.ifindex)
    || itf.totalReceived < last.counterReceived || itf.totalTransmitted < last.counterTransmitted
  }

  /** The interface at position `n` was restarted, more than ten minutes after its last accepted sample came in. */
  ghost predicate Loses(rs: seq<Report>, r: Report, n: nat)
    requires n < |r.interfaces|
  {
    var itf, last := r.interfaces[n], Before(rs, r, n);
    && itf.isOutlet == Some(true) && last.Some?
    && (if r.time < TWO_63 then r.time else r.time - TWO_64) >= last.value.reportTime
    && Restarted(last.value, r, itf)
    && WrapI64(RestartTime(r, last.value) - last.value.receivedAt) > 600_000
  }

  /** No interface before position `n` lost data, and the one at `n` did. */
  ghost predicate FirstLoser(rs: seq<Report>, r: Report, n: nat) {
    n < |r.interfaces| && Loses(rs, r, n) && forall j: nat :: j < n ==> !Loses(rs, r, j)
  }

  ghost function IntervalAt(rs: seq<Report>, r: Report, n: nat): Loss
    requires n < |r.interfaces| && Before(rs, r, n).Some?
  {
    Loss(r.uuidId, Before(rs, r, n).value.receivedAt, RestartTime(r, Before(rs, r, n).value))
  }

  /** The reading holds the fields of the sample, and when it came in. */
  ghost predicate Holds(reading: Reading, last: Sample) {
    && reading.bootId == last.bootId && reading.ifindex == last.ifindex
    && reading.counterReceived == last.counterReceived && reading.counterTransmitted == last.counterTransmitted
    && reading.reportTime == last.reportTime && reading.updatedAt == last.receivedAt
  }

  /** The reading that an interface is compared with, within a report. */
  lemma ReadingBefore(rs: seq<Report>, r: Report, n: nat)
    requires n < |r.interfaces|
    ensures var reading := Lookup(AfterFirst(Run(EMPTY, rs), r, n).0.prevReadings, Key(r.uuidId, r.interfaces[n].name));
            var last := Before(rs, r, n);
            (reading.Some? <==> last.Some?) && (last.Some? ==> Holds(reading.value, last.value))
  {
    var key := Key(r.uuidId, r.interfaces[n].name);
    RunProjects(EMPTY, rs, key);
    FirstProjects(Run(EMPTY, rs), r, key, n);
    MeterRunAppend(Meter(None, NO_TRAFFIC), Samples(rs, key), SamplesOfFirst(r, key, n));
    ReadingIsLastAccepted(Samples(rs, key) + SamplesOfFirst(r, key, n));
  }

  /** The interval that an interface records, by the fields of its sample and the one before. */
  lemma LossByFields(r: Report, itf: Interface, prev: Reading, last: Sample)
    requires Holds(prev, last)
    ensures LossOf(r, Some(prev), MakeReading(Some(prev), SampleOf(r, itf))) ==
            if Restarted(last, r, itf) && WrapI64(RestartTime(r, last) - last.receivedAt) > 600_000
            then Some(Loss(r.uuidId, last.receivedAt, RestartTime(r, last))) else None
  {
    var current := MakeReading(Some(prev), SampleOf(r, itf));
    IncreaseByFields(prev, current);
    BootChange(prev, current);
  }

  /** An interface detects a loss exactly if it loses data, and then its interval is the stated one. */
  lemma DetectsIffLoses(rs: seq<Report>, r: Report, n: nat)
    requires n < |r.interfaces|
    ensures Detects(Run(EMPTY, rs), r, n) <==> Loses(rs, r, n)
    ensures var itf := r.interfaces[n];
            var prev := Lookup(AfterFirst(Run(EMPTY, rs), r, n).0.prevReadings, Key(r.uuidId, itf.name));
            Loses(rs, r, n) ==> LossOf(r, prev, MakeReading(prev, SampleOf(r, itf))) == Some(IntervalAt(rs, r, n))
  {
    ReadingBefore(rs, r, n);
    var itf := r.interfaces[n];
    var prev := Lookup(AfterFirst(Run(EMPTY, rs), r, n).0.prevReadings, Key(r.uuidId, itf.name));
    if prev.Some? {
      LossByFields(r, itf, prev.value, Before(rs, r, n).value);
    }
  }

  lemma BootChange(prev: Reading, current: Reading)
    ensures IsBootIdChanged(prev, current) <==> Replaced(prev.bootId, current.bootId)
  {
    if IsBootIdChanged(prev, current) {
      assert prev.bootId == Some(prev.bootId.value) && current.bootId == Some(current.bootId.value);
    }
  }

  /** The first of the first `n` interfaces that lost data. */
  ghost function LoserBefore(rs: seq<Report>, r: Report, n: nat): (k: Option<nat>)
    requires n <= |r.interfaces|
    ensures k.Some? ==> k.value < n && FirstLoser(rs, r, k.value)
    ensures k.None? ==> forall j: nat :: j < n ==> !Loses(rs, r, j)
  {
    if n == 0 then None
    else
      var before := LoserBefore(rs, r, n - 1);
      if before.Some? then before else if Loses(rs, r, n - 1) then Some(n - 1) else None
  }

  lemma RecordNext(rs: seq<Report>, r: Report, n: nat)
    requires n < |r.interfaces|
    ensures var before, after := AfterFirst(Run(EMPTY, rs), r, n), AfterFirst(Run(EMPTY, rs), r, n + 1);
            if !before.1 && Loses(rs, r, n) then after.1 && after.0.pending == before.0.pending + [IntervalAt(rs, r, n)]
            else after.1 == before.1 && after.0.pending == before.0.pending
  {
    DetectsIffLoses(rs, r, n);
    var before := AfterFirst(Run(EMPTY, rs), r, n);
    assert before.0.pending + [] == before.0.pending;
  }

  /** The first `n` interfaces have recorded the interval of the first loser among them. */
  ghost predicate Recorded(rs: seq<Report>, r: Report, n: nat)
    requires n <= |r.interfaces|
  {
    var after, k := AfterFirst(Run(EMPTY, rs), r, n), LoserBefore(rs, r, n);
    && after.1 == k.Some?
    && (k.None? ==> after.0.pending == Run(EMPTY, rs).pending)
    && (k.Some? ==> after.0.pending == Run(EMPTY, rs).pending + [IntervalAt(rs, r, k.value)])
  }

  lemma RecordedNext(rs: seq<Report>, r: Report, n: nat)
    requires n < |r.interfaces| && Recorded(rs, r, n)
    ensures Recorded(rs, r, n + 1)
  {
    RecordNext(rs, r, n);
    var k := LoserBefore(rs, r, n);
    if k.Some? {
      assert LoserBefore(rs, r, n + 1) == k;
    } else if Loses(rs, r, n) {
      assert LoserBefore(rs, r, n + 1) == Some(n);
    } else {
      assert LoserBefore(rs, r, n + 1) == None;
    }
  }

  lemma {:induction false} EveryPrefixIsRecorded(rs: seq<Report>, r: Report, n: nat)
    requires n <= |r.interfaces|
    ensures Recorded(rs, r, n)
  {
    if n > 0 {
      EveryPrefixIsRecorded(rs, r, n - 1);
      RecordedNext(rs, r, n - 1);
    }
  }

  /**
   A report records an interval exactly if one of its interfaces was restarted more than ten minutes after its
   last accepted sample came in. The interval is that of the first such interface: from that sample's receive
   time to the restart.
   */
  lemma LossIsRecordedExactly(rs: seq<Report>, r: Report)
    ensures var before, after := Run(EMPTY, rs).pending, Run(EMPTY, rs + [r]).pending;
            && (forall n: nat :: MarksOutlets(r) && FirstLoser(rs, r, n) ==> after == before + [IntervalAt(rs, r, n)])
            && ((!MarksOutlets(r) || forall n: nat :: n < |r.interfaces| ==> !Loses(rs, r, n)) ==> after == before)
  {
    assert Front(rs + [r]) == rs;
    EveryPrefixIsRecorded(rs, r, |r.interfaces|);
    var k := LoserBefore(rs, r, |r.interfaces|);
    forall n: nat | FirstLoser(rs, r, n)
      ensures k == Some(n)
    {
      assert k.Some? && k.value <= n;
    }
  }
}
