/**
 Totals of one interface over a whole sequence of readings: the closed form by counter epochs, and
 what losing readings can do to the total.
 */
module TrafficTotals {
  import opened Base
  import opened TrafficReading

  /** Unbounded sum of the increases of consecutive readings; the first reading adds nothing. */
  ghost function ExactTotal(rs: seq<Reading>, d: Direction): nat {
    if |rs| <= 1 then 0
    else ExactTotal(Front(rs), d) + Increase(rs[|rs| - 2], Last(rs), d)
  }

  /** The step from reading `j` to reading `j + 1` resets direction `d`. */
  ghost predicate StepResets(rs: seq<Reading>, j: nat, d: Direction)
    requires j + 1 < |rs|
  {
    ResetIn(rs[j], rs[j + 1], d)
  }

  // ---- Closed form ----

  /** `epochs` cuts `rs` into non-empty pieces exactly at the steps that reset direction `d`. */
  ghost predicate IsEpochSplit(rs: seq<Reading>, epochs: seq<seq<Reading>>, d: Direction) {
    && rs == Concat(epochs)
    && (forall i :: 0 <= i < |epochs| ==> epochs[i] != [] && SteadyEpoch(epochs[i], d))
    && forall i :: 0 < i < |epochs| ==> ResetIn(Last(epochs[i - 1]), epochs[i][0], d)
  }

  ghost predicate SteadyEpoch(epoch: seq<Reading>, d: Direction) {
    forall j: nat :: j + 1 < |epoch| ==> !StepResets(epoch, j, d)
  }

  ghost function LastCounters(epochs: seq<seq<Reading>>, d: Direction): nat
    requires forall i :: 0 <= i < |epochs| ==> epochs[i] != []
  {
    if epochs == [] then 0 else LastCounters(Front(epochs), d) + Counter(Last(Last(epochs)), d)
  }

  /** Growth over the first epoch, plus the last counter value of every later epoch. */
  ghost function ClosedForm(epochs: seq<seq<Reading>>, d: Direction): int
    requires forall i :: 0 <= i < |epochs| ==> epochs[i] != []
  {
    if epochs == [] then 0
    else Counter(Last(epochs[0]), d) - Counter(epochs[0][0], d) + LastCounters(epochs[1..], d)
  }

  /** Totals add up over a cut, with one joining step between the two parts. */
  lemma {:induction false} TotalConcat(a: seq<Reading>, b: seq<Reading>, d: Direction)
    requires a != [] && b != []
    ensures ExactTotal(a + b, d) == ExactTotal(a, d) + Increase(Last(a), b[0], d) + ExactTotal(b, d)
  {
    assert Front(a + b) == a + Front(b);
    if |b| == 1 {
      assert Front(a + b) == a;
    } else {
      TotalConcat(a, Front(b), d);
      assert (a + b)[|a + b| - 2] == b[|b| - 2];
    }
  }

  lemma {:induction false} SteadyTotal(epoch: seq<Reading>, d: Direction)
    requires epoch != [] && SteadyEpoch(epoch, d)
    ensures ExactTotal(epoch, d) == Counter(Last(epoch), d) - Counter(epoch[0], d)
  {
    if |epoch| > 1 {
      var front := Front(epoch);
      assert forall j: nat :: j + 1 < |front| ==> StepResets(front, j, d) == StepResets(epoch, j, d);
      SteadyTotal(front, d);
      assert !StepResets(epoch, |epoch| - 2, d);
      IncreaseIsExact(epoch[|epoch| - 2], Last(epoch), d);
    }
  }

  lemma {:induction false} EpochHeads(epochs: seq<seq<Reading>>)
    requires epochs != []
    requires forall i :: 0 <= i < |epochs| ==> epochs[i] != []
    ensures Concat(epochs) != [] && Last(Concat(epochs)) == Last(Last(epochs))
  {
  }

  /** Closed form of the total, for every sequence and every way of cutting it into epochs. */
  lemma {:induction false} TotalIsClosedForm(rs: seq<Reading>, epochs: seq<seq<Reading>>, d: Direction)
    requires IsEpochSplit(rs, epochs, d)
    ensures ExactTotal(rs, d) == ClosedForm(epochs, d)
    decreases |epochs|
  {
    if |epochs| == 0 {
    } else if |epochs| == 1 {
      assert Concat(epochs) == Concat(Front(epochs)) + epochs[0] == epochs[0];
      SteadyTotal(epochs[0], d);
      assert epochs[1..] == [];
    } else {
      var front, last := Front(epochs), Last(epochs);
      TotalIsClosedForm(Concat(front), front, d);
      EpochHeads(front);
      TotalConcat(Concat(front), last, d);
      SteadyTotal(last, d);
      assert epochs[|epochs| - 1] == last;
      IncreaseIsExact(Last(Concat(front)), last[0], d);
      assert Front(epochs[1..]) == front[1..] && Last(epochs[1..]) == last;
    }
  }

  lemma SteadyAppend(epoch: seq<Reading>, r: Reading, d: Direction)
    requires epoch != [] && SteadyEpoch(epoch, d) && !ResetIn(Last(epoch), r, d)
    ensures SteadyEpoch(epoch + [r], d)
  {
    forall j: nat | j + 1 < |epoch + [r]|
      ensures !StepResets(epoch + [r], j, d)
    {
      if j + 1 < |epoch| { assert !StepResets(epoch, j, d); }
    }
  }

  lemma ConcatSnoc(epochs: seq<seq<Reading>>, e: seq<Reading>)
    ensures Concat(epochs + [e]) == Concat(epochs) + e
  {
    assert Front(epochs + [e]) == epochs;
  }

  /** A reading that continues the last epoch. */
  lemma GrowLastEpoch(rs: seq<Reading>, epochs: seq<seq<Reading>>, r: Reading, d: Direction)
    requires IsEpochSplit(rs, epochs, d) && epochs != [] && !ResetIn(Last(Last(epochs)), r, d)
    ensures IsEpochSplit(rs + [r], Front(epochs) + [Last(epochs) + [r]], d)
  {
    var grown := Front(epochs) + [Last(epochs) + [r]];
    assert epochs == Front(epochs) + [Last(epochs)];
    ConcatSnoc(Front(epochs), Last(epochs));
    ConcatSnoc(Front(epochs), Last(epochs) + [r]);
    SteadyAppend(Last(epochs), r, d);
    forall i | 0 < i < |grown|
      ensures ResetIn(Last(grown[i - 1]), grown[i][0], d)
    {
      assert grown[i - 1] == epochs[i - 1] && grown[i][0] == epochs[i][0];
    }
  }

  /** A reading that opens an epoch. */
  lemma OpenEpoch(rs: seq<Reading>, epochs: seq<seq<Reading>>, r: Reading, d: Direction)
    requires IsEpochSplit(rs, epochs, d) && (epochs != [] ==> ResetIn(Last(Last(epochs)), r, d))
    ensures IsEpochSplit(rs + [r], epochs + [[r]], d)
  {
    ConcatSnoc(epochs, [r]);
    var more := epochs + [[r]];
    forall i | 0 < i < |more|
      ensures ResetIn(Last(more[i - 1]), more[i][0], d)
    {
      assert more[i - 1] == epochs[i - 1];
    }
  }

  /** Every sequence has such a split. */
  lemma {:induction false} EpochSplitExists(rs: seq<Reading>, d: Direction) returns (epochs: seq<seq<Reading>>)
    ensures IsEpochSplit(rs, epochs, d)
  {
    if rs == [] {
      epochs := [];
    } else {
      var before := EpochSplitExists(Front(rs), d);
      var r := Last(rs);
      assert rs == Front(rs) + [r];
      if before != [] && !ResetIn(Last(Last(before)), r, d) {
        epochs := Front(before) + [Last(before) + [r]];
        GrowLastEpoch(Front(rs), before, r, d);
      } else {
        epochs := before + [[r]];
        OpenEpoch(Front(rs), before, r, d);
      }
    }
  }

  // ---- Lost readings ----

  /**
   Two readings that look like a full reset when compared directly, although no step between them does:
   the boot id or interface index changed while some reading in between did not carry it.
   */
  ghost predicate HiddenReset(rs: seq<Reading>, i: nat, k: nat, d: Direction)
    requires i < k < |rs|
  {
    && IsFullReset(rs[i], rs[k])
    && Counter(rs[i], d) > 0
    && NoReset(rs, i, k, d)
  }

  ghost predicate NoReset(rs: seq<Reading>, i: nat, k: nat, d: Direction)
    requires i <= k < |rs|
  {
    forall j: nat :: i <= j < k ==> !StepResets(rs, j, d)
  }

  ghost predicate NoHiddenReset(rs: seq<Reading>, d: Direction) {
    forall i: nat, k: nat :: i < k < |rs| ==> !HiddenReset(rs, i, k, d)
  }

  /** Total accumulated up to and including reading `i`. */
  ghost function TotalUpTo(rs: seq<Reading>, i: nat, d: Direction): nat
    requires i < |rs|
  {
    ExactTotal(rs[..i + 1], d)
  }

  lemma TotalStep(rs: seq<Reading>, i: nat, d: Direction)
    requires i + 1 < |rs|
    ensures TotalUpTo(rs, i + 1, d) == TotalUpTo(rs, i, d) + Increase(rs[i], rs[i + 1], d)
  {
    assert Front(rs[..i + 2]) == rs[..i + 1];
  }

  lemma {:induction false} TotalGrowsByAtLeastTheDifference(rs: seq<Reading>, i: nat, k: nat, d: Direction)
    requires i <= k < |rs|
    ensures TotalUpTo(rs, k, d) >= TotalUpTo(rs, i, d)
    ensures TotalUpTo(rs, k, d) - TotalUpTo(rs, i, d) >= Counter(rs[k], d) - Counter(rs[i], d)
    decreases k
  {
    if i < k {
      TotalGrowsByAtLeastTheDifference(rs, i, k - 1, d);
      TotalStep(rs, k - 1, d);
      IncreaseIsExact(rs[k - 1], rs[k], d);
    }
  }

  lemma {:induction false} SteadyStretch(rs: seq<Reading>, i: nat, k: nat, d: Direction)
    requires i <= k < |rs| && NoReset(rs, i, k, d)
    ensures TotalUpTo(rs, k, d) - TotalUpTo(rs, i, d) == Counter(rs[k], d) - Counter(rs[i], d)
    decreases k
  {
    if i < k {
      SteadyStretch(rs, i, k - 1, d);
      TotalStep(rs, k - 1, d);
      assert !StepResets(rs, k - 1, d);
      IncreaseIsExact(rs[k - 1], rs[k], d);
    }
  }

  /** Jumping from reading `i` straight to reading `k` never adds more than the steps between them did. */
  lemma JumpNeverOvercounts(rs: seq<Reading>, i: nat, k: nat, d: Direction)
    requires i < k < |rs| && !HiddenReset(rs, i, k, d)
    ensures TotalUpTo(rs, i, d) + Increase(rs[i], rs[k], d) <= TotalUpTo(rs, k, d)
  {
    IncreaseIsExact(rs[i], rs[k], d);
    TotalGrowsByAtLeastTheDifference(rs, i, k, d);
    if ResetIn(rs[i], rs[k], d) {
      if NoReset(rs, i, k, d) {
        SteadyStretch(rs, i, k, d);
      } else {
        var j: nat :| i <= j < k && StepResets(rs, j, d);
        TotalGrowsByAtLeastTheDifference(rs, i, j, d);
        TotalStep(rs, j, d);
        IncreaseIsExact(rs[j], rs[j + 1], d);
        TotalGrowsByAtLeastTheDifference(rs, j + 1, k, d);
      }
    }
  }

  /** Jumping over a stretch without resets adds exactly what the steps did. */
  lemma JumpCatchesUp(rs: seq<Reading>, i: nat, k: nat, d: Direction)
    requires i < k < |rs| && !HiddenReset(rs, i, k, d) && NoReset(rs, i, k, d)
    ensures TotalUpTo(rs, i, d) + Increase(rs[i], rs[k], d) == TotalUpTo(rs, k, d)
  {
    IncreaseIsExact(rs[i], rs[k], d);
    SteadyStretch(rs, i, k, d);
    TotalGrowsByAtLeastTheDifference(rs, i, k, d);
  }

  /** Index of the last kept reading, or -1. */
  ghost function LastKept(mask: seq<bool>): (i: int)
    ensures -1 <= i < |mask|
    ensures i >= 0 ==> mask[i]
    ensures forall j :: i < j < |mask| ==> !mask[j]
  {
    if mask == [] then -1
    else if Last(mask) then |mask| - 1
    else LastKept(Front(mask))
  }

  lemma {:induction false} KeptEnds<T>(s: seq<T>, mask: seq<bool>)
    requires |s| == |mask|
    ensures Kept(s, mask) == [] <==> LastKept(mask) == -1
    ensures Kept(s, mask) != [] ==> Last(Kept(s, mask)) == s[LastKept(mask)]
  {
    if s != [] {
      KeptEnds(Front(s), Front(mask));
    }
  }

  /** What one more reading, kept or lost, does to the kept sequence and its total. */
  lemma {:induction false} KeptStep(rs: seq<Reading>, mask: seq<bool>, k: nat, d: Direction)
    requires |rs| == |mask| && k < |rs|
    ensures var before, after := Kept(rs[..k], mask[..k]), Kept(rs[..k + 1], mask[..k + 1]);
            var i := LastKept(mask[..k]);
            && LastKept(mask[..k + 1]) == (if mask[k] then k else i)
            && ExactTotal(after, d) == if !mask[k] then ExactTotal(before, d)
                                       else if i < 0 then 0
                                       else ExactTotal(before, d) + Increase(rs[i], rs[k], d)
  {
    assert Front(rs[..k + 1]) == rs[..k] && Front(mask[..k + 1]) == mask[..k];
    KeptEnds(rs[..k], mask[..k]);
    var before, after := Kept(rs[..k], mask[..k]), Kept(rs[..k + 1], mask[..k + 1]);
    if !mask[k] {
      assert after == before;
    } else {
      assert after == before + [rs[k]] && Front(after) == before;
      if LastKept(mask[..k]) >= 0 {
        assert after[|after| - 2] == Last(before);
      }
    }
  }

  lemma {:induction false} KeptUpToLast(rs: seq<Reading>, mask: seq<bool>, n: nat, d: Direction)
    requires |rs| == |mask| && n <= |rs| && NoHiddenReset(rs, d)
    ensures LastKept(mask[..n]) >= 0 ==>
              ExactTotal(Kept(rs[..n], mask[..n]), d) <= TotalUpTo(rs, LastKept(mask[..n]), d)
  {
    if n > 0 {
      var k := n - 1;
      KeptUpToLast(rs, mask, k, d);
      KeptStep(rs, mask, k, d);
      var i := LastKept(mask[..k]);
      if mask[k] && i >= 0 {
        assert !HiddenReset(rs, i, k, d);
        JumpNeverOvercounts(rs, i, k, d);
      }
    }
  }

  /** Losing any readings never makes the total larger. */
  lemma LostReadingsNeverOvercount(rs: seq<Reading>, mask: seq<bool>, d: Direction)
    requires |rs| == |mask| && NoHiddenReset(rs, d)
    ensures ExactTotal(Kept(rs, mask), d) <= ExactTotal(rs, d)
  {
    assert rs[..|rs|] == rs && mask[..|rs|] == mask;
    KeptUpToLast(rs, mask, |rs|, d);
    KeptEnds(rs, mask);
    if LastKept(mask) >= 0 {
      TotalGrowsByAtLeastTheDifference(rs, LastKept(mask), |rs| - 1, d);
      assert rs[..|rs| - 1 + 1] == rs;
    }
  }

  /** The mask that drops exactly the readings strictly between `i` and `k`. */
  function DropBetween(n: nat, i: nat, k: nat): seq<bool>
    requires i < k < n
  {
    seq(n, j => j <= i || k <= j)
  }

  lemma {:induction false} KeptDropBetween(rs: seq<Reading>, i: nat, k: nat)
    requires i < k < |rs|
    ensures Kept(rs, DropBetween(|rs|, i, k)) == rs[..i + 1] + rs[k..]
  {
    var mask := DropBetween(|rs|, i, k);
    KeptThreeParts(rs[..i + 1], mask[..i + 1], rs[i + 1..k], mask[i + 1..k], rs[k..], mask[k..]);
    assert rs[..i + 1] + rs[i + 1..k] + rs[k..] == rs;
    assert mask[..i + 1] + mask[i + 1..k] + mask[k..] == mask;
  }

  lemma SplitTotal(rs: seq<Reading>, k: nat, d: Direction)
    requires k < |rs|
    ensures ExactTotal(rs, d) == TotalUpTo(rs, k, d) + ExactTotal(rs[k..], d)
  {
    assert rs == rs[..k + 1] + rs[k + 1..];
    if k + 1 < |rs| {
      TotalConcat(rs[..k + 1], rs[k + 1..], d);
      assert rs[k..] == [rs[k]] + rs[k + 1..];
      TotalConcat([rs[k]], rs[k + 1..], d);
    } else {
      assert rs[..k + 1] == rs;
    }
  }

  /** A hidden reset is over-counted when the readings that hide it are lost. */
  lemma HiddenResetOvercounts(rs: seq<Reading>, i: nat, k: nat, d: Direction)
    requires i < k < |rs| && HiddenReset(rs, i, k, d)
    ensures ExactTotal(Kept(rs, DropBetween(|rs|, i, k)), d) > ExactTotal(rs, d)
  {
    KeptDropBetween(rs, i, k);
    TotalConcat(rs[..i + 1], rs[k..], d);
    IncreaseIsExact(rs[i], rs[k], d);
    SteadyStretch(rs, i, k, d);
    SplitTotal(rs, k, d);
  }

  /**
   Exactly when losing readings is harmless: no choice of lost readings raises the total if and only
   if the sequence hides no reset.
   */
  lemma NeverOvercountsIffNoHiddenReset(rs: seq<Reading>, d: Direction)
    ensures (forall mask: seq<bool> | |mask| == |rs| :: ExactTotal(Kept(rs, mask), d) <= ExactTotal(rs, d))
            <==> NoHiddenReset(rs, d)
  {
    if NoHiddenReset(rs, d) {
      forall mask: seq<bool> | |mask| == |rs|
        ensures ExactTotal(Kept(rs, mask), d) <= ExactTotal(rs, d)
      {
        LostReadingsNeverOvercount(rs, mask, d);
      }
    } else {
      var i: nat, k: nat :| i < k < |rs| && HiddenReset(rs, i, k, d);
      HiddenResetOvercounts(rs, i, k, d);
      assert |DropBetween(|rs|, i, k)| == |rs|;
    }
  }

  /** The agent either always or never reports a boot id, and likewise an interface index. */
  ghost predicate UniformPresence(rs: seq<Reading>) {
    forall i, j :: 0 <= i < |rs| && 0 <= j < |rs| ==>
      rs[i].bootId.Some? == rs[j].bootId.Some? && rs[i].ifindex.Some? == rs[j].ifindex.Some?
  }

  lemma {:induction false} SameIdentity(rs: seq<Reading>, i: nat, k: nat, d: Direction)
    requires UniformPresence(rs) && i <= k < |rs| && NoReset(rs, i, k, d)
    ensures !IsFullReset(rs[i], rs[k])
    decreases k
  {
    if i < k {
      SameIdentity(rs, i, k - 1, d);
      assert !StepResets(rs, k - 1, d);
      IncreaseIsExact(rs[k - 1], rs[k], d);
    }
  }

  /** Uniform presence of the identifying fields rules hidden resets out. */
  lemma UniformPresenceHidesNothing(rs: seq<Reading>, d: Direction)
    requires UniformPresence(rs)
    ensures NoHiddenReset(rs, d)
  {
    forall i: nat, k: nat | i < k < |rs|
      ensures !HiddenReset(rs, i, k, d)
    {
      if NoReset(rs, i, k, d) {
        SameIdentity(rs, i, k, d);
      }
    }
  }

  ghost predicate BothKept(mask: seq<bool>, j: nat)
    requires j + 1 < |mask|
  {
    mask[j] && mask[j + 1]
  }

  /** Every step that touches a lost reading is free of resets in direction `d`. */
  ghost predicate LostStretchesAreSteady(rs: seq<Reading>, mask: seq<bool>, d: Direction)
    requires |rs| == |mask|
  {
    forall j: nat :: j + 1 < |rs| && StepResets(rs, j, d) ==> BothKept(mask, j)
  }

  lemma SkippedStretchIsSteady(rs: seq<Reading>, mask: seq<bool>, i: nat, k: nat, d: Direction)
    requires |rs| == |mask| && i + 1 < k < |rs|
    requires LostStretchesAreSteady(rs, mask, d)
    requires forall j :: i < j < k ==> !mask[j]
    ensures NoReset(rs, i, k, d)
  {
    forall j: nat | i <= j < k
      ensures !StepResets(rs, j, d)
    {
      if j == i { assert !mask[i + 1]; } else { assert !mask[j]; }
    }
  }

  /** Jumping from the last kept reading over a lost stretch catches up exactly. */
  lemma SkippedStretchCatchesUp(rs: seq<Reading>, mask: seq<bool>, i: nat, k: nat, d: Direction)
    requires |rs| == |mask| && i < k < |rs| && NoHiddenReset(rs, d)
    requires LostStretchesAreSteady(rs, mask, d) && LastKept(mask[..k]) == i
    ensures TotalUpTo(rs, i, d) + Increase(rs[i], rs[k], d) == TotalUpTo(rs, k, d)
  {
    assert !HiddenReset(rs, i, k, d);
    if i + 1 == k {
      TotalStep(rs, i, d);
    } else {
      assert forall j :: i < j < k ==> mask[..k][j] == mask[j];
      SkippedStretchIsSteady(rs, mask, i, k, d);
      JumpCatchesUp(rs, i, k, d);
    }
  }

  lemma {:induction false} KeptTotalIsExact(rs: seq<Reading>, mask: seq<bool>, n: nat, d: Direction)
    requires |rs| == |mask| && 0 < n <= |rs| && NoHiddenReset(rs, d)
    requires LostStretchesAreSteady(rs, mask, d) && mask[0]
    ensures LastKept(mask[..n]) >= 0
    ensures ExactTotal(Kept(rs[..n], mask[..n]), d) == TotalUpTo(rs, LastKept(mask[..n]), d)
  {
    var k := n - 1;
    KeptStep(rs, mask, k, d);
    if k > 0 {
      KeptTotalIsExact(rs, mask, k, d);
      if mask[k] {
        SkippedStretchCatchesUp(rs, mask, LastKept(mask[..k]), k, d);
      }
    }
  }

  /** If both ends survive and no lost stretch contains a reset, nothing is missing from the total. */
  lemma LostStretchIsCaughtUp(rs: seq<Reading>, mask: seq<bool>, d: Direction)
    requires |rs| == |mask| > 0 && mask[0] && Last(mask)
    requires NoHiddenReset(rs, d) && LostStretchesAreSteady(rs, mask, d)
    ensures ExactTotal(Kept(rs, mask), d) == ExactTotal(rs, d)
  {
    assert rs[..|rs|] == rs && mask[..|rs|] == mask;
    KeptTotalIsExact(rs, mask, |rs|, d);
  }
}
