/**
 What losing reports can do to a total, exactly. A report can be lost on the way, and it can arrive late,
 in which case it is dropped; losing one report may let a late one through that would have been dropped.
 */
module TrafficLoss {
  import opened Base
  import opened TrafficReading
  import opened TrafficTotals
  import opened TrafficState

  // ---- Readings that are not late ----

  /** The readings that are accepted when `rs` arrives in this order. */
  ghost function Records(rs: seq<Reading>): seq<Reading> {
    if rs == [] then []
    else
      var before := Records(Front(rs));
      if before != [] && Last(rs).reportTime < Last(before).reportTime then before else before + [Last(rs)]
  }

  /** Total that the accepted readings of `rs` add up to. */
  ghost function AcceptedTotal(rs: seq<Reading>, d: Direction): nat {
    ExactTotal(Records(rs), d)
  }

  lemma RecordsSnoc(rs: seq<Reading>, r: Reading)
    ensures Records(rs + [r]) ==
            if Records(rs) != [] && r.reportTime < Last(Records(rs)).reportTime then Records(rs) else Records(rs) + [r]
  {
    assert Front(rs + [r]) == rs;
  }

  lemma AcceptedTotalSnoc(rs: seq<Reading>, r: Reading, d: Direction)
    requires Records(rs) != [] && Last(Records(rs)).reportTime <= r.reportTime
    ensures AcceptedTotal(rs + [r], d) == AcceptedTotal(rs, d) + Increase(Last(Records(rs)), r, d)
  {
    RecordsSnoc(rs, r);
    var after := Records(rs) + [r];
    assert Front(after) == Records(rs) && after[|after| - 2] == Last(Records(rs));
  }

  // ---- The largest total any loss can lead to ----

  /**
   The largest total of a chain of readings that ends in reading `k`, never going back in time, among
   chains whose last step starts before position `n`.
   */
  ghost function BestVia(rs: seq<Reading>, k: nat, n: nat, d: Direction): nat
    requires n <= k < |rs|
    decreases k, n
  {
    if n == 0 then 0
    else
      var i := n - 1;
      var before := BestVia(rs, k, i, d);
      if rs[i].reportTime <= rs[k].reportTime then Max(before, Best(rs, i, d) + Increase(rs[i], rs[k], d)) else before
  }

  ghost function Best(rs: seq<Reading>, k: nat, d: Direction): nat
    requires k < |rs|
    decreases k, k + 1
  {
    BestVia(rs, k, k, d)
  }

  lemma {:induction false} BestAtLeast(rs: seq<Reading>, i: nat, k: nat, n: nat, d: Direction)
    requires i < n <= k < |rs| && rs[i].reportTime <= rs[k].reportTime
    ensures BestVia(rs, k, n, d) >= Best(rs, i, d) + Increase(rs[i], rs[k], d)
    decreases n
  {
    if i < n - 1 {
      BestAtLeast(rs, i, k, n - 1, d);
    }
  }

  /** The best total is reached over some predecessor, or it is zero. */
  lemma {:induction false} BestPredecessor(rs: seq<Reading>, k: nat, n: nat, d: Direction) returns (i: int)
    requires n <= k < |rs|
    ensures -1 <= i < n
    ensures i < 0 ==> BestVia(rs, k, n, d) == 0
    ensures i >= 0 ==> rs[i].reportTime <= rs[k].reportTime &&
                       BestVia(rs, k, n, d) == Best(rs, i, d) + Increase(rs[i], rs[k], d)
    decreases n
  {
    if n == 0 {
      i := -1;
    } else {
      i := BestPredecessor(rs, k, n - 1, d);
      if BestVia(rs, k, n, d) != BestVia(rs, k, n - 1, d) {
        i := n - 1;
      }
    }
  }

  /** The accepted readings of `kept` end in reading `i`, or there are none and `i` is negative. */
  ghost predicate EndsIn(rs: seq<Reading>, kept: seq<Reading>, i: int)
    requires i < |rs|
  {
    if i < 0 then Records(kept) == [] else Records(kept) != [] && Last(Records(kept)) == rs[i]
  }

  lemma KeepAnother(rs: seq<Reading>, kept: seq<Reading>, i: int, k: nat, d: Direction) returns (j: int)
    requires i < k < |rs| && EndsIn(rs, kept, i)
    requires i >= 0 ==> AcceptedTotal(kept, d) <= Best(rs, i, d)
    ensures 0 <= j <= k && EndsIn(rs, kept + [rs[k]], j)
    ensures AcceptedTotal(kept + [rs[k]], d) <= Best(rs, j, d)
  {
    RecordsSnoc(kept, rs[k]);
    if i < 0 {
      assert Records(kept + [rs[k]]) == [rs[k]];
      j := k;
    } else if rs[i].reportTime <= rs[k].reportTime {
      AcceptedTotalSnoc(kept, rs[k], d);
      BestAtLeast(rs, i, k, k, d);
      j := k;
    } else {
      j := i;
    }
  }

  ghost predicate Bounded(rs: seq<Reading>, kept: seq<Reading>, i: int, d: Direction)
    requires i < |rs|
  {
    EndsIn(rs, kept, i) && (i >= 0 ==> AcceptedTotal(kept, d) <= Best(rs, i, d))
  }

  lemma KeepOrLose(rs: seq<Reading>, kept: seq<Reading>, i: int, k: nat, keep: bool, d: Direction) returns (j: int)
    requires -1 <= i < k < |rs| && Bounded(rs, kept, i, d)
    ensures -1 <= j <= k && Bounded(rs, kept + if keep then [rs[k]] else [], j, d)
  {
    if keep {
      j := KeepAnother(rs, kept, i, k, d);
    } else {
      j := i;
      assert kept + [] == kept;
    }
  }

  lemma KeptUpTo<T>(s: seq<T>, mask: seq<bool>, k: nat)
    requires |s| == |mask| && k < |s|
    ensures Kept(s[..k + 1], mask[..k + 1]) == Kept(s[..k], mask[..k]) + if mask[k] then [s[k]] else []
  {
    KeptSnoc(s[..k], mask[..k], s[k], mask[k]);
    assert s[..k + 1] == s[..k] + [s[k]] && mask[..k + 1] == mask[..k] + [mask[k]];
  }

  /** No choice of kept readings gets beyond the best total of the reading it ends in. */
  lemma {:induction false} KeptIsBounded(rs: seq<Reading>, mask: seq<bool>, n: nat, d: Direction) returns (i: int)
    requires |rs| == |mask| && n <= |rs|
    ensures -1 <= i < n && Bounded(rs, Kept(rs[..n], mask[..n]), i, d)
  {
    if n == 0 {
      i := -1;
    } else {
      var k := n - 1;
      i := KeptIsBounded(rs, mask, k, d);
      KeptUpTo(rs, mask, k);
      i := KeepOrLose(rs, Kept(rs[..k], mask[..k]), i, k, mask[k], d);
    }
  }

  function All(n: nat, bit: bool): seq<bool> {
    seq(n, _ => bit)
  }

  lemma {:induction false} KeptPadded(rs: seq<Reading>, mask: seq<bool>, k: nat)
    requires |mask| <= k <= |rs|
    ensures Kept(rs[..k], mask + All(k - |mask|, false)) == Kept(rs[..|mask|], mask)
  {
    var m := |mask|;
    assert rs[..k] == rs[..m] + rs[m..k];
    KeptAppend(rs[..m], mask, rs[m..k], All(k - m, false));
    KeptConstant(rs[m..k], All(k - m, false), false);
  }

  /** `kept` ends in reading `k`, with its best total. */
  ghost predicate ReachesBest(rs: seq<Reading>, k: nat, kept: seq<Reading>, d: Direction)
    requires k < |rs|
  {
    EndsIn(rs, kept, k) && AcceptedTotal(kept, d) == Best(rs, k, d)
  }

  lemma ExtendToBest(rs: seq<Reading>, i: nat, k: nat, kept: seq<Reading>, d: Direction)
    requires i < k < |rs| && ReachesBest(rs, i, kept, d)
    requires rs[i].reportTime <= rs[k].reportTime
    requires Best(rs, k, d) == Best(rs, i, d) + Increase(rs[i], rs[k], d)
    ensures ReachesBest(rs, k, kept + [rs[k]], d)
  {
    RecordsSnoc(kept, rs[k]);
    AcceptedTotalSnoc(kept, rs[k], d);
  }

  lemma StartAtBest(rs: seq<Reading>, k: nat, d: Direction)
    requires k < |rs| && Best(rs, k, d) == 0
    ensures ReachesBest(rs, k, [rs[k]], d)
  {
    assert Front([rs[k]]) == [];
    assert Records([rs[k]]) == [rs[k]];
  }

  lemma KeepOnlyBefore(rs: seq<Reading>, k: nat, earlier: seq<bool>) returns (mask: seq<bool>)
    requires |earlier| <= k < |rs|
    ensures |mask| == k + 1
    ensures Kept(rs[..k + 1], mask) == Kept(rs[..|earlier|], earlier) + [rs[k]]
  {
    KeptPadded(rs, earlier, k);
    var padded := earlier + All(k - |earlier|, false);
    mask := padded + [true];
    KeptSnoc(rs[..k], padded, rs[k], true);
    assert rs[..k + 1] == rs[..k] + [rs[k]];
  }

  /** Some choice of kept readings reaches the best total. */
  lemma {:induction false} BestIsReached(rs: seq<Reading>, k: nat, d: Direction) returns (mask: seq<bool>)
    requires k < |rs|
    ensures |mask| == k + 1 && ReachesBest(rs, k, Kept(rs[..k + 1], mask), d)
  {
    var i := BestPredecessor(rs, k, k, d);
    if i >= 0 {
      var earlier := BestIsReached(rs, i, d);
      mask := KeepOnlyBefore(rs, k, earlier);
      ExtendToBest(rs, i, k, Kept(rs[..i + 1], earlier), d);
    } else {
      mask := KeepOnlyBefore(rs, k, []);
      StartAtBest(rs, k, d);
      assert Kept(rs[..0], []) + [rs[k]] == [rs[k]];
    }
  }

  ghost predicate BestWithin(rs: seq<Reading>, bound: nat, d: Direction) {
    forall k: nat :: k < |rs| ==> Best(rs, k, d) <= bound
  }

  lemma {:induction false} WithinBound(rs: seq<Reading>, mask: seq<bool>, bound: nat, d: Direction)
    requires |rs| == |mask| && BestWithin(rs, bound, d)
    ensures AcceptedTotal(Kept(rs, mask), d) <= bound
  {
    var i := KeptIsBounded(rs, mask, |rs|, d);
    assert rs[..|rs|] == rs && mask[..|rs|] == mask;
  }

  lemma {:induction false} BeyondBound(rs: seq<Reading>, bound: nat, d: Direction) returns (mask: seq<bool>)
    requires !BestWithin(rs, bound, d)
    ensures |mask| == |rs| && AcceptedTotal(Kept(rs, mask), d) > bound
  {
    var k: nat :| k < |rs| && Best(rs, k, d) > bound;
    var front := BestIsReached(rs, k, d);
    KeptPadded(rs, front, |rs|);
    assert rs[..|rs|] == rs;
    mask := front + All(|rs| - |front|, false);
  }

  /**
   Losing readings is harmless: the stored total is at its ceiling, or no chain of readings beats what is
   accepted when nothing is lost.
   */
  ghost predicate Harmless(rs: seq<Reading>, d: Direction) {
    AcceptedTotal(rs, d) >= U64_MAX || BestWithin(rs, AcceptedTotal(rs, d), d)
  }

  // ---- Readings in time order ----

  ghost predicate InTimeOrder(rs: seq<Reading>) {
    forall i, j :: 0 <= i < j < |rs| ==> rs[i].reportTime <= rs[j].reportTime
  }

  lemma {:induction false} InOrderNothingIsLate(rs: seq<Reading>)
    requires InTimeOrder(rs)
    ensures Records(rs) == rs
  {
    if rs != [] {
      var n := |rs| - 1;
      InOrderNothingIsLate(rs[..n]);
      assert rs == rs[..n] + [rs[n]];
      RecordsSnoc(rs[..n], rs[n]);
      if n > 0 {
        assert Last(rs[..n]) == rs[n - 1];
      }
    }
  }

  lemma {:induction false} KeptInOrder(rs: seq<Reading>, mask: seq<bool>)
    requires |rs| == |mask| && InTimeOrder(rs)
    ensures InTimeOrder(Kept(rs, mask))
    ensures forall r :: r in Kept(rs, mask) ==> r in rs
  {
    if rs != [] {
      KeptInOrder(Front(rs), Front(mask));
      var sub := Kept(Front(rs), Front(mask));
      forall i | 0 <= i < |sub|
        ensures sub[i].reportTime <= Last(rs).reportTime
      {
        assert sub[i] in Front(rs);
      }
    }
  }

  /** In time order, losing readings is harmless exactly if no reset is hidden or the total is at its ceiling. */
  lemma {:induction false} InOrderHarmlessIff(rs: seq<Reading>, d: Direction)
    requires InTimeOrder(rs)
    ensures Harmless(rs, d) <==> ExactTotal(rs, d) >= U64_MAX || NoHiddenReset(rs, d)
  {
    InOrderNothingIsLate(rs);
    NeverOvercountsIffNoHiddenReset(rs, d);
    if BestWithin(rs, ExactTotal(rs, d), d) {
      forall mask: seq<bool> | |mask| == |rs|
        ensures ExactTotal(Kept(rs, mask), d) <= ExactTotal(rs, d)
      {
        WithinBound(rs, mask, ExactTotal(rs, d), d);
        KeptInOrder(rs, mask);
        InOrderNothingIsLate(Kept(rs, mask));
      }
    } else {
      var mask := BeyondBound(rs, ExactTotal(rs, d), d);
      KeptInOrder(rs, mask);
      InOrderNothingIsLate(Kept(rs, mask));
    }
  }

  // ---- From samples to readings ----

  /** The samples as readings; the comparison rules ignore the creation time. */
  ghost function Plain(ss: seq<Sample>): seq<Reading> {
    seq(|ss|, i requires 0 <= i < |ss| => MakeReading(None, ss[i]))
  }

  ghost predicate SameExceptCreation(a: Reading, b: Reading) {
    a == b.(createdAt := a.createdAt)
  }

  ghost predicate AllSameExceptCreation(a: seq<Reading>, b: seq<Reading>) {
    |a| == |b| && forall i :: 0 <= i < |a| ==> SameExceptCreation(a[i], b[i])
  }

  lemma {:induction false} TotalIgnoresCreation(a: seq<Reading>, b: seq<Reading>, d: Direction)
    requires AllSameExceptCreation(a, b)
    ensures ExactTotal(a, d) == ExactTotal(b, d)
  {
    if |a| > 1 {
      TotalIgnoresCreation(Front(a), Front(b), d);
      assert SameExceptCreation(a[|a| - 2], b[|b| - 2]) && SameExceptCreation(a[|a| - 1], b[|b| - 1]);
    }
  }

  lemma {:induction false} AcceptedIsRecords(ss: seq<Sample>)
    ensures AllSameExceptCreation(Accepted(ss), Records(Plain(ss)))
  {
    if ss != [] {
      AcceptedIsRecords(Front(ss));
      assert Front(Plain(ss)) == Plain(Front(ss));
      var before, records := Accepted(Front(ss)), Records(Plain(Front(ss)));
      if before != [] {
        assert SameExceptCreation(before[|before| - 1], records[|records| - 1]);
      }
    }
  }

  /** The stored total of an interface, whatever the order of arrival. */
  lemma RunTotal(rs: seq<Report>, key: Key, d: Direction)
    ensures Amount(TotalOf(Run(EMPTY, rs), key), d) == Min(U64_MAX, AcceptedTotal(Plain(Samples(rs, key)), d))
  {
    var ss := Samples(rs, key);
    RunProjects(EMPTY, rs, key);
    MeterIsAccepted(ss, d);
    AcceptedIsRecords(ss);
    TotalIgnoresCreation(Accepted(ss), Records(Plain(ss)), d);
  }

  /** Which samples of an interface survive when the reports of `mask` do. */
  ghost function SampleMask(rs: seq<Report>, mask: seq<bool>, key: Key): (sampleMask: seq<bool>)
    requires |rs| == |mask|
    ensures |sampleMask| == |Samples(rs, key)|
  {
    if rs == [] then []
    else SampleMask(Front(rs), Front(mask), key) + All(|SamplesOf(Last(rs), key)|, Last(mask))
  }

  lemma {:induction false} SamplesOfKept(rs: seq<Report>, mask: seq<bool>, key: Key)
    requires |rs| == |mask|
    ensures Samples(Kept(rs, mask), key) == Kept(Samples(rs, key), SampleMask(rs, mask, key))
  {
    if rs != [] {
      SamplesOfKept(Front(rs), Front(mask), key);
      var own, bits := SamplesOf(Last(rs), key), All(|SamplesOf(Last(rs), key)|, Last(mask));
      KeptAppend(Samples(Front(rs), key), SampleMask(Front(rs), Front(mask), key), own, bits);
      KeptConstant(own, bits, Last(mask));
      var sub := Kept(Front(rs), Front(mask));
      if Last(mask) {
        assert Front(sub + [Last(rs)]) == sub;
      } else {
        assert Kept(rs, mask) == sub;
      }
    }
  }

  lemma {:induction false} PlainOfKept(ss: seq<Sample>, mask: seq<bool>)
    requires |ss| == |mask|
    ensures Plain(Kept(ss, mask)) == Kept(Plain(ss), mask)
  {
    if ss != [] {
      PlainOfKept(Front(ss), Front(mask));
      assert Front(Plain(ss)) == Plain(Front(ss));
      var sub := Kept(Front(ss), Front(mask));
      assert Plain(sub + [Last(ss)]) == Plain(sub) + [MakeReading(None, Last(ss))];
    }
  }

  /** The stored total after losing the reports outside `mask`. */
  lemma KeptRunTotal(rs: seq<Report>, mask: seq<bool>, key: Key, d: Direction)
    requires |rs| == |mask|
    ensures Amount(TotalOf(Run(EMPTY, Kept(rs, mask)), key), d)
         == Min(U64_MAX, AcceptedTotal(Kept(Plain(Samples(rs, key)), SampleMask(rs, mask, key)), d))
  {
    RunTotal(Kept(rs, mask), key, d);
    SamplesOfKept(rs, mask, key);
    PlainOfKept(Samples(rs, key), SampleMask(rs, mask, key));
  }

  // ---- Lost reports ----

  /** Whatever reports are lost, late ones included, the total never grows by it if losing is harmless. */
  lemma LostReportsNeverOvercount(rs: seq<Report>, mask: seq<bool>, key: Key, d: Direction)
    requires |rs| == |mask| && Harmless(Plain(Samples(rs, key)), d)
    ensures Amount(TotalOf(Run(EMPTY, Kept(rs, mask)), key), d) <= Amount(TotalOf(Run(EMPTY, rs), key), d)
  {
    var readings := Plain(Samples(rs, key));
    RunTotal(rs, key, d);
    KeptRunTotal(rs, mask, key, d);
    if AcceptedTotal(readings, d) < U64_MAX {
      WithinBound(readings, SampleMask(rs, mask, key), AcceptedTotal(readings, d), d);
    }
  }

  ghost predicate OneSamplePerReport(rs: seq<Report>, key: Key) {
    forall i :: 0 <= i < |rs| ==> |SamplesOf(rs[i], key)| <= 1
  }

  lemma SampleMaskSnoc(rs: seq<Report>, mask: seq<bool>, key: Key, r: Report, bit: bool)
    requires |rs| == |mask|
    ensures SampleMask(rs + [r], mask + [bit], key) == SampleMask(rs, mask, key) + All(|SamplesOf(r, key)|, bit)
  {
    assert Front(rs + [r]) == rs && Front(mask + [bit]) == mask;
  }

  lemma LastBit(sampleMask: seq<bool>, m: nat) returns (bit: bool)
    requires m <= |sampleMask| <= m + 1
    ensures sampleMask == sampleMask[..m] + All(|sampleMask| - m, bit)
  {
    bit := m < |sampleMask| && sampleMask[m];
  }

  lemma OneSampleFront(rs: seq<Report>, key: Key)
    requires rs != [] && OneSamplePerReport(rs, key)
    ensures OneSamplePerReport(Front(rs), key) && |SamplesOf(Last(rs), key)| <= 1
  {
  }

  lemma {:induction false} ReportMaskFor(rs: seq<Report>, key: Key, sampleMask: seq<bool>) returns (mask: seq<bool>)
    requires OneSamplePerReport(rs, key) && |sampleMask| == |Samples(rs, key)|
    ensures |mask| == |rs| && SampleMask(rs, mask, key) == sampleMask
  {
    if rs == [] {
      mask := [];
    } else {
      OneSampleFront(rs, key);
      var m := |Samples(Front(rs), key)|;
      var bit := LastBit(sampleMask, m);
      var before := ReportMaskFor(Front(rs), key, sampleMask[..m]);
      mask := before + [bit];
      SampleMaskSnoc(Front(rs), before, key, Last(rs), bit);
      assert rs == Front(rs) + [Last(rs)];
    }
  }

  ghost predicate NoLossOvercounts(rs: seq<Report>, key: Key, d: Direction) {
    forall mask: seq<bool> | |mask| == |rs| ::
      Amount(TotalOf(Run(EMPTY, Kept(rs, mask)), key), d) <= Amount(TotalOf(Run(EMPTY, rs), key), d)
  }

  /**
   Exactly when lost reports cannot over-count, for reports in any order of arrival: the total is at its
   ceiling, or no chain of the interface's readings beats the total that the whole run accepts.
   */
  lemma LostReportsHarmlessIff(rs: seq<Report>, key: Key, d: Direction)
    requires OneSamplePerReport(rs, key)
    ensures NoLossOvercounts(rs, key, d) <==> Harmless(Plain(Samples(rs, key)), d)
  {
    var readings := Plain(Samples(rs, key));
    if Harmless(readings, d) {
      forall mask: seq<bool> | |mask| == |rs|
        ensures Amount(TotalOf(Run(EMPTY, Kept(rs, mask)), key), d) <= Amount(TotalOf(Run(EMPTY, rs), key), d)
      {
        LostReportsNeverOvercount(rs, mask, key, d);
      }
    } else {
      var sampleMask := BeyondBound(readings, AcceptedTotal(readings, d), d);
      var mask := ReportMaskFor(rs, key, sampleMask);
      RunTotal(rs, key, d);
      KeptRunTotal(rs, mask, key, d);
    }
  }

  /** For reports in time order the condition is that no reset is hidden. */
  lemma InOrderLossIff(rs: seq<Report>, key: Key, d: Direction)
    requires OneSamplePerReport(rs, key) && InTimeOrder(Plain(Samples(rs, key)))
    ensures var readings := Plain(Samples(rs, key));
            NoLossOvercounts(rs, key, d) <==> ExactTotal(readings, d) >= U64_MAX || NoHiddenReset(readings, d)
  {
    LostReportsHarmlessIff(rs, key, d);
    InOrderHarmlessIff(Plain(Samples(rs, key)), d);
  }

  // ---- Two ways to over-count ----

  const ETH := Key(1, "eth0")

  /** A report of one outlet interface. */
  function Reporting(time: U64, bootId: Option<string>, received: U64): Report {
    Report(1, time, 0, bootId, [Interface("eth0", received, 0, None, Some(true))], 0)
  }

  function ReadingIn(r: Report): Reading
    requires r.interfaces != []
  {
    MakeReading(None, SampleOf(r, r.interfaces[0]))
  }

  ghost predicate OneOutlet(r: Report) {
    !FromOldAgent(r) && |r.interfaces| == 1 && r.interfaces[0].isOutlet == Some(true) &&
    Key(r.uuidId, r.interfaces[0].name) == ETH
  }

  lemma PlainSnoc(rs: seq<Report>, r: Report)
    requires OneOutlet(r)
    ensures Plain(Samples(rs + [r], ETH)) == Plain(Samples(rs, ETH)) + [ReadingIn(r)]
  {
    var s := SampleOf(r, r.interfaces[0]);
    assert SamplesOf(r, ETH) == SamplesOfFirst(r, ETH, 0) + [s] == [s];
    assert Front(rs + [r]) == rs;
    assert Samples(rs + [r], ETH) == Samples(rs, ETH) + [s];
  }

  lemma PlainOfThree(a: Report, b: Report, c: Report)
    requires OneOutlet(a) && OneOutlet(b) && OneOutlet(c)
    ensures Plain(Samples([a, c], ETH)) == [ReadingIn(a), ReadingIn(c)]
    ensures Plain(Samples([a, b, c], ETH)) == [ReadingIn(a), ReadingIn(b), ReadingIn(c)]
  {
    PlainSnoc([], a);
    PlainSnoc([a], b);
    PlainSnoc([a], c);
    PlainSnoc([a, b], c);
    assert [] + [a] == [a] && [a] + [b] == [a, b] && [a] + [c] == [a, c] && [a, b] + [c] == [a, b, c];
  }

  lemma KeepEnds<T>(a: T, b: T, c: T)
    ensures Kept([a, b, c], [true, false, true]) == [a, c]
  {
    KeptThreeParts([a], [true], [b], [false], [c], [true]);
    assert [a] + [b] + [c] == [a, b, c] && [true] + [false] + [true] == [true, false, true];
  }

  lemma RecordsOfThree(a: Reading, b: Reading, c: Reading, d: Direction)
    requires a.reportTime <= b.reportTime && a.reportTime <= c.reportTime
    ensures AcceptedTotal([a, c], d) == Increase(a, c, d)
    ensures AcceptedTotal([a, b, c], d) ==
            Increase(a, b, d) + if c.reportTime < b.reportTime then 0 else Increase(b, c, d)
  {
    RecordsOfTwo(a, c, d);
    RecordsOfTwo(a, b, d);
    RecordsSnoc([a, b], c);
    assert [a, b] + [c] == [a, b, c];
    if b.reportTime <= c.reportTime {
      AcceptedTotalSnoc([a, b], c, d);
    }
  }

  lemma RecordsOfTwo(a: Reading, b: Reading, d: Direction)
    requires a.reportTime <= b.reportTime
    ensures Records([a, b]) == [a, b] && AcceptedTotal([a, b], d) == Increase(a, b, d)
  {
    assert Front([a]) == [];
    assert Records([a]) == [a] && AcceptedTotal([a], d) == 0;
    RecordsSnoc([a], b);
    AcceptedTotalSnoc([a], b, d);
    assert [a] + [b] == [a, b];
  }

  /** The totals with and without the middle one of three reports. */
  lemma TotalsOfThree(a: Report, b: Report, c: Report, d: Direction) returns (rs: seq<Report>, mask: seq<bool>)
    requires OneOutlet(a) && OneOutlet(b) && OneOutlet(c)
    requires ReadingIn(a).reportTime <= ReadingIn(b).reportTime
    requires ReadingIn(a).reportTime <= ReadingIn(c).reportTime
    ensures |mask| == |rs| && Plain(Samples(rs, ETH)) == [ReadingIn(a), ReadingIn(b), ReadingIn(c)]
    ensures var (ra, rb, rc) := (ReadingIn(a), ReadingIn(b), ReadingIn(c));
            && Amount(TotalOf(Run(EMPTY, Kept(rs, mask)), ETH), d) == Min(U64_MAX, Increase(ra, rc, d))
            && Amount(TotalOf(Run(EMPTY, rs), ETH), d)
               == Min(U64_MAX, Increase(ra, rb, d) + if rc.reportTime < rb.reportTime then 0 else Increase(rb, rc, d))
  {
    rs, mask := [a, b, c], [true, false, true];
    PlainOfThree(a, b, c);
    KeepEnds(a, b, c);
    RecordsOfThree(ReadingIn(a), ReadingIn(b), ReadingIn(c), d);
    RunTotal([a, b, c], ETH, d);
    RunTotal([a, c], ETH, d);
  }

  /** An agent that once leaves out the boot id: losing that report costs 10 bytes too many. */
  lemma MixedPresenceOvercounts() returns (rs: seq<Report>, mask: seq<bool>)
    ensures |mask| == |rs| && InTimeOrder(Plain(Samples(rs, ETH)))
    ensures Amount(TotalOf(Run(EMPTY, rs), ETH), Received) == 20
    ensures Amount(TotalOf(Run(EMPTY, Kept(rs, mask)), ETH), Received) == 30
  {
    rs, mask := TotalsOfThree(Reporting(1, Some("a"), 10), Reporting(2, None, 20), Reporting(3, Some("b"), 30), Received);
  }

  /** A late report with a large counter: losing the report that made it late lets 90 bytes through instead of 5. */
  lemma LateReportOvercounts() returns (rs: seq<Report>, mask: seq<bool>)
    ensures |mask| == |rs| && UniformPresence(Plain(Samples(rs, ETH)))
    ensures NoHiddenReset(Plain(Samples(rs, ETH)), Received)
    ensures Amount(TotalOf(Run(EMPTY, rs), ETH), Received) == 5
    ensures Amount(TotalOf(Run(EMPTY, Kept(rs, mask)), ETH), Received) == 90
  {
    rs, mask := TotalsOfThree(Reporting(1, None, 10), Reporting(3, None, 5), Reporting(2, None, 100), Received);
    UniformPresenceHidesNothing(Plain(Samples(rs, ETH)), Received);
  }
}
