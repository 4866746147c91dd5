/**
 The monitoring write buffer: a bounded channel, a loop that batches what it receives, and sub-batching
 for SQLite's parameter limit. Every item the channel accepts is handed to the database once, in order.
 */
module WriteBuffer {
  import opened Base

  /** A group of rows given to one INSERT, or discarded. */
  datatype Batch<T> = Inserted(rows: seq<T>) | Dropped(rows: seq<T>)

  function RowsOf<T>(bs: seq<Batch<T>>): seq<T> {
    if bs == [] then [] else RowsOf(Front(bs)) + Last(bs).rows
  }

  lemma {:induction false} RowsOfAppend<T>(a: seq<Batch<T>>, b: seq<Batch<T>>)
    ensures RowsOf(a + b) == RowsOf(a) + RowsOf(b)
  {
    if b == [] {
      assert a + b == a && RowsOf(b) == [];
    } else {
      RowsOfAppend(a, Front(b));
      assert Front(a + b) == a + Front(b) && Last(a + b) == Last(b);
      AppendAssociative(RowsOf(a), RowsOf(Front(b)), Last(b).rows);
    }
  }

  /** Rows per statement on SQLite. */
  function SqliteRows(columns: nat): nat {
    SQLITE_MAX_VARIABLES / Max(columns, 1)
  }

  /** As many rows as fit the limit. */
  lemma SqliteRowsIsLargest(columns: nat)
    requires columns > 0
    ensures SqliteRows(columns) * columns <= 999 < (SqliteRows(columns) + 1) * columns
  {
  }

  function ChunkSize(sqlite: bool, columns: nat, total: nat): nat {
    if sqlite then Min(SqliteRows(columns), total) else total
  }

  // ---- When sub-batching terminates ----

  /** What one round of the sub-batching loop leaves. */
  function Round<T>(batch: seq<T>, chunk: nat): seq<T> {
    batch[Min(chunk, |batch|)..]
  }

  function Rounds<T>(batch: seq<T>, chunk: nat, n: nat): seq<T> {
    if n == 0 then batch else Round(Rounds(batch, chunk, n - 1), chunk)
  }

  lemma ChunkIsPositive(sqlite: bool, columns: nat, total: nat)
    requires total > 0
    ensures ChunkSize(sqlite, columns, total) > 0 <==> !sqlite || columns <= SQLITE_MAX_VARIABLES
  {
    if sqlite && 1 <= columns <= SQLITE_MAX_VARIABLES {
      DivAtLeastOne(SQLITE_MAX_VARIABLES, columns);
    }
  }

  lemma DivAtLeastOne(n: nat, c: nat)
    requires 1 <= c <= n
    ensures n / c >= 1
  {
    assert n < (n / c + 1) * c;
  }

  lemma {:induction false} RoundsShrink<T>(batch: seq<T>, chunk: nat, n: nat)
    requires chunk > 0
    ensures |Rounds(batch, chunk, n)| <= Max(0, |batch| - n)
  {
    if n > 0 {
      RoundsShrink(batch, chunk, n - 1);
    }
  }

  lemma {:induction false} RoundsStuck<T>(batch: seq<T>, n: nat)
    ensures Rounds(batch, 0, n) == batch
  {
    if n > 0 {
      RoundsStuck(batch, n - 1);
    }
  }

  lemma {:induction false} RoundsDone<T>(batch: seq<T>, chunk: nat, n: nat, more: nat)
    requires Rounds(batch, chunk, n) == [] && n <= more
    ensures Rounds(batch, chunk, more) == []
    decreases more
  {
    if n < more {
      RoundsDone(batch, chunk, n, more - 1);
    }
  }

  /** The loop finishes exactly on PostgreSQL, or when one row's columns fit one SQLite statement. */
  lemma {:induction false} SubBatchingTerminatesIff<T>(batch: seq<T>, sqlite: bool, columns: nat)
    requires batch != []
    ensures (exists n: nat :: Rounds(batch, ChunkSize(sqlite, columns, |batch|), n) == []) <==>
            !sqlite || columns <= SQLITE_MAX_VARIABLES
  {
    var chunk := ChunkSize(sqlite, columns, |batch|);
    ChunkIsPositive(sqlite, columns, |batch|);
    if chunk > 0 {
      RoundsShrink(batch, chunk, |batch|);
      assert Rounds(batch, chunk, |batch|) == [];
    } else {
      forall n: nat
        ensures Rounds(batch, chunk, n) != []
      {
        RoundsStuck(batch, n);
      }
    }
  }

  // ---- One flush ----

  /** On SQLite, no INSERT has more than `limit` rows. */
  ghost predicate WithinLimit<T>(bs: seq<Batch<T>>, sqlite: bool, limit: nat) {
    forall i :: 0 <= i < |bs| && sqlite && bs[i].Inserted? ==> |bs[i].rows| <= limit
  }

  /** Which means that no INSERT binds more than 999 parameters. */
  lemma {:induction false} AtMost999Parameters<T>(bs: seq<Batch<T>>, columns: nat, i: nat)
    requires WithinLimit(bs, true, SqliteRows(columns)) && i < |bs| && bs[i].Inserted?
    ensures |bs[i].rows| * columns <= SQLITE_MAX_VARIABLES
  {
    var limit := SqliteRows(columns);
    assert limit * Max(columns, 1) <= SQLITE_MAX_VARIABLES;
    MulMonotone(|bs[i].rows|, limit, columns);
    assert limit * columns <= limit * Max(columns, 1);
  }

  lemma MulMonotone(a: nat, b: nat, c: nat)
    requires a <= b
    ensures a * c <= b * c
  {
  }

  /** Whether the sub-batches were inserted or dropped, as the database and its failures have it. */
  ghost predicate Follows<T>(bs: seq<Batch<T>>, connected: bool, failing: set<nat>) {
    forall i :: 0 <= i < |bs| ==> (bs[i].Inserted? <==> connected && i !in failing)
  }

  /** Every sub-batch but the last is as large as allowed, so there are no more of them than need be. */
  ghost predicate Full<T>(bs: seq<Batch<T>>, chunkSize: nat, left: seq<T>) {
    forall i :: 0 <= i < |bs| && (i + 1 < |bs| || left != []) ==> |bs[i].rows| == chunkSize
  }

  /** The state of the sub-batching loop: nothing is lost, and every sub-batch is as it should be. */
  ghost predicate SplitOk<T>(bs: seq<Batch<T>>, batch: seq<T>, buf: seq<T>, sqlite: bool, limit: nat, failing: set<nat>) {
    RowsOf(bs) + batch == buf && WithinLimit(bs, sqlite, limit) && Follows(bs, true, failing)
  }

  lemma {:induction false} CutBatch<T>(bs: seq<Batch<T>>, batch: seq<T>, b: Batch<T>, take: nat, buf: seq<T>,
                                       sqlite: bool, limit: nat, failing: set<nat>)
    requires SplitOk(bs, batch, buf, sqlite, limit, failing)
    requires take <= |batch| && b.rows == batch[..take] && (sqlite ==> take <= limit)
    requires b.Inserted? <==> |bs| !in failing
    ensures SplitOk(bs + [b], batch[take..], buf, sqlite, limit, failing)
  {
    assert Front(bs + [b]) == bs;
    assert batch == b.rows + batch[take..];
    AppendAssociative(RowsOf(bs), b.rows, batch[take..]);
  }

  /**
   A flush, seen for at most `rounds` rounds of its loop: `left` is what the loop still has to do then.
   `failing` are the positions of the sub-batches whose INSERT fails; they are dropped, the rest goes on.
   */
  method DoFlush<T>(buf: seq<T>, connected: bool, sqlite: bool, columns: nat, failing: set<nat>, rounds: nat)
    returns (rest: seq<T>, bs: seq<Batch<T>>, left: seq<T>)
    ensures rest == []
    ensures RowsOf(bs) + left == buf
    ensures WithinLimit(bs, sqlite, SqliteRows(columns)) && Follows(bs, connected, failing)
    ensures left == if connected then Rounds(buf, ChunkSize(sqlite, columns, |buf|), rounds) else []
    ensures connected ==> Full(bs, if sqlite then Min(SqliteRows(columns), |buf|) else |buf|, left)
    ensures (!connected || !sqlite || columns <= SQLITE_MAX_VARIABLES) && rounds >= |buf| ==> left == []
  {
    var batch := buf;
    rest, bs, left := [], [], [];
    var total := |batch|;
    if total == 0 {
      RoundsDone(buf, ChunkSize(sqlite, columns, 0), 0, rounds);
      return;
    }
    if !connected {
      bs := [Dropped(batch)];
      assert Front(bs) == [];
      return;
    }
    var chunkSize := ChunkSize(sqlite, columns, total);
    bs, left := SubBatches(batch, chunkSize, sqlite, SqliteRows(columns), failing, rounds);
    ChunkIsPositive(sqlite, columns, total);
    if chunkSize > 0 {
      RoundsShrink(buf, chunkSize, rounds);
    }
  }

  /** The sub-batching loop. */
  method SubBatches<T>(buf: seq<T>, chunkSize: nat, ghost sqlite: bool, ghost limit: nat, failing: set<nat>, rounds: nat)
    returns (bs: seq<Batch<T>>, batch: seq<T>)
    requires sqlite ==> chunkSize <= limit
    ensures SplitOk(bs, batch, buf, sqlite, limit, failing)
    ensures batch == Rounds(buf, chunkSize, rounds) && Full(bs, chunkSize, batch)
  {
    bs, batch := [], buf;
    var n := 0;
    while batch != [] && n < rounds
      invariant SplitOk(bs, batch, buf, sqlite, limit, failing)
      invariant n <= rounds && batch == Rounds(buf, chunkSize, n) && Full(bs, chunkSize, batch)
      decreases rounds - n
    {
      var take := Min(chunkSize, |batch|);
      var subBatch := batch[..take];
      var outcome := if |bs| in failing then Dropped(subBatch) else Inserted(subBatch);
      CutBatch(bs, batch, outcome, take, buf, sqlite, limit, failing);
      bs := bs + [outcome];
      batch, n := batch[take..], n + 1;
    }
    if batch == [] {
      RoundsDone(buf, chunkSize, n, rounds);
    }
  }

  // ---- The running system ----

  type Item = nat

  datatype LoopState = Waiting | Draining | Flushing | Exited

  datatype System = System(
    channel: seq<Item>,
    senderOpen: bool,
    closedFlag: bool,
    buf: seq<Item>,
    batches: seq<Batch<Item>>,
    loop: LoopState,
    accepted: seq<Item>,
    dropped: nat,
    sending: map<nat, Item>,
    closing: bool)

  /** `sqliteRows` is the number of rows that one SQLite statement may have. */
  datatype Limits = Limits(capacity: nat, maxBatch: nat, sqlite: bool, sqliteRows: nat)

  const INITIAL := System([], true, false, [], [], Waiting, [], 0, map[], false)

  /**
   `CheckClosed` and `Push` are the two halves of `send`, `SwapFlag` and `DropSender` those of `close`.
   `Loop` is one step of the flush loop; `tick` chooses the timer where the channel has nothing to give,
   and `flushed` is what a flush makes of the buffer.
   */
  datatype Step =
    | CheckClosed(sender: nat, item: Item)
    | Push(sender: nat)
    | SwapFlag
    | DropSender
    | Loop(tick: bool, flushed: seq<Batch<Item>>)

  function LoopStep(s: System, l: Limits, tick: bool, flushed: seq<Batch<Item>>): System {
    match s.loop
    case Waiting =>
      if s.channel != [] then
        s.(buf := s.buf + [s.channel[0]], channel := s.channel[1..], loop := Draining)
      else if !s.senderOpen then
        s.(buf := [], batches := s.batches + flushed, loop := Exited)
      else if tick then s.(loop := Draining)
      else s
    case Draining =>
      if |s.buf| < l.maxBatch && s.channel != [] then
        s.(buf := s.buf + [s.channel[0]], channel := s.channel[1..])
      else s.(loop := Flushing)
    case Flushing =>
      s.(buf := [], batches := s.batches + flushed, loop := Waiting)
    case Exited => s
  }

  function Next(s: System, l: Limits, step: Step): System {
    match step
    case CheckClosed(c, item) =>
      if s.closedFlag || c in s.sending then s else s.(sending := s.sending[c := item])
    case Push(c) =>
      if c !in s.sending then s
      else
        var item := s.sending[c];
        var s' := s.(sending := s.sending - {c});
        if !s.senderOpen then s'
        else if |s.channel| < l.capacity then s'.(channel := s.channel + [item], accepted := s.accepted + [item])
        else s'.(dropped := s.dropped + 1)
    case SwapFlag => if s.closedFlag then s else s.(closedFlag := true, closing := true)
    case DropSender => if s.closing then s.(senderOpen := false, closing := false) else s
    case Loop(tick, flushed) => LoopStep(s, l, tick, flushed)
  }

  /** A flush is what `DoFlush` may return for the buffer. */
  ghost predicate Possible(s: System, l: Limits, step: Step) {
    step.Loop? ==> RowsOf(step.flushed) == s.buf && WithinLimit(step.flushed, l.sqlite, l.sqliteRows)
  }

  ghost predicate IsRun(states: seq<System>, steps: seq<Step>, l: Limits) {
    && |states| == |steps| + 1
    && states[0] == INITIAL
    && forall i :: 0 <= i < |steps| ==> IsStep(states[i], l, steps[i], states[i + 1])
  }

  ghost predicate IsStep(s: System, l: Limits, step: Step, s': System) {
    Possible(s, l, step) && s' == Next(s, l, step)
  }

  ghost predicate Inv(s: System, l: Limits) {
    Conserved(s) && WithinLimit(s.batches, l.sqlite, l.sqliteRows) && Shape(s, l)
  }

  ghost predicate Shape(s: System, l: Limits) {
    && |s.channel| <= l.capacity
    && |s.buf| <= Max(1, l.maxBatch)
    && (s.loop == Waiting ==> s.buf == [])
    && (s.loop == Exited ==> s.buf == [] && s.channel == [] && !s.senderOpen)
    && (!s.senderOpen ==> s.closedFlag && !s.closing)
    && (s.closing ==> s.closedFlag)
  }

  ghost predicate Conserved(s: System) {
    s.accepted == RowsOf(s.batches) + s.buf + s.channel
  }

  lemma MoveHead<T>(done: seq<T>, buf: seq<T>, queue: seq<T>)
    requires queue != []
    ensures done + (buf + [queue[0]]) + queue[1..] == done + buf + queue
  {
    assert queue == [queue[0]] + queue[1..];
  }

  lemma {:induction false} FlushConserves(s: System, flushed: seq<Batch<Item>>, next: LoopState)
    requires Conserved(s) && RowsOf(flushed) == s.buf
    ensures Conserved(s.(buf := [], batches := s.batches + flushed, loop := next))
  {
    RowsOfAppend(s.batches, flushed);
    assert RowsOf(s.batches) + s.buf + [] == RowsOf(s.batches) + s.buf;
  }

  lemma {:induction false} ReceiveConserves(s: System, next: LoopState)
    requires Conserved(s) && s.channel != []
    ensures Conserved(s.(buf := s.buf + [s.channel[0]], channel := s.channel[1..], loop := next))
  {
    MoveHead(RowsOf(s.batches), s.buf, s.channel);
  }

  lemma {:induction false} LoopConserves(s: System, l: Limits, tick: bool, flushed: seq<Batch<Item>>)
    requires Conserved(s) && RowsOf(flushed) == s.buf
    ensures Conserved(LoopStep(s, l, tick, flushed))
  {
    FlushConserves(s, flushed, Waiting);
    FlushConserves(s, flushed, Exited);
    if s.channel != [] {
      ReceiveConserves(s, Draining);
    }
  }

  lemma {:induction false} PushConserves(s: System, l: Limits, c: nat)
    requires Conserved(s)
    ensures Conserved(Next(s, l, Push(c)))
  {
    if c in s.sending {
      AppendAssociative(RowsOf(s.batches) + s.buf, s.channel, [s.sending[c]]);
    }
  }

  lemma WithinLimitAppend<T>(a: seq<Batch<T>>, b: seq<Batch<T>>, sqlite: bool, limit: nat)
    requires WithinLimit(a, sqlite, limit) && WithinLimit(b, sqlite, limit)
    ensures WithinLimit(a + b, sqlite, limit)
  {
  }

  lemma {:induction false} StepKeepsShape(s: System, l: Limits, step: Step)
    requires Shape(s, l)
    ensures Shape(Next(s, l, step), l)
  {
  }

  lemma {:induction false} StepKeepsLimit(s: System, l: Limits, step: Step)
    requires WithinLimit(s.batches, l.sqlite, l.sqliteRows) && Possible(s, l, step)
    ensures WithinLimit(Next(s, l, step).batches, l.sqlite, l.sqliteRows)
  {
    if step.Loop? {
      WithinLimitAppend(s.batches, step.flushed, l.sqlite, l.sqliteRows);
    }
  }

  lemma {:induction false} StepConserves(s: System, l: Limits, step: Step)
    requires Conserved(s) && Possible(s, l, step)
    ensures Conserved(Next(s, l, step))
  {
    match step
    case Loop(tick, flushed) => LoopConserves(s, l, tick, flushed);
    case Push(c) => PushConserves(s, l, c);
    case _ =>
  }

  lemma {:induction false} StepKeepsInv(s: System, l: Limits, step: Step, s': System)
    requires Inv(s, l) && IsStep(s, l, step, s')
    ensures Inv(s', l)
  {
    StepConserves(s, l, step);
    StepKeepsLimit(s, l, step);
    StepKeepsShape(s, l, step);
  }

  /** Every accepted item is in exactly one place: handed over, buffered or queued, in order of acceptance. */
  lemma {:induction false} ItemsAreConserved(states: seq<System>, steps: seq<Step>, l: Limits, n: nat)
    requires IsRun(states, steps, l) && n < |states|
    ensures Inv(states[n], l)
  {
    if n > 0 {
      ItemsAreConserved(states, steps, l, n - 1);
      var i := n - 1;
      assert IsStep(states[i], l, steps[i], states[i + 1]);
      StepKeepsInv(states[i], l, steps[i], states[n]);
    }
  }

  // ---- What is accepted, and what is dropped ----

  /** The step hands an item to an open channel. */
  ghost predicate Hands(s: System, step: Step) {
    step.Push? && step.sender in s.sending && s.senderOpen
  }

  /** The items that were handed to an open channel in the first `n` steps and found `room`, or found none. */
  ghost function Handed(states: seq<System>, steps: seq<Step>, l: Limits, room: bool, n: nat): seq<Item>
    requires |states| == |steps| + 1 && n <= |steps|
  {
    if n == 0 then []
    else
      var s, step := states[n - 1], steps[n - 1];
      Handed(states, steps, l, room, n - 1) +
      if Hands(s, step) && (|s.channel| < l.capacity <==> room) then [s.sending[step.sender]] else []
  }

  /** What one step adds to the accepted items and to the count of dropped ones. */
  lemma AcceptedByStep(s: System, l: Limits, step: Step)
    ensures Next(s, l, step).accepted ==
            s.accepted + if Hands(s, step) && |s.channel| < l.capacity then [s.sending[step.sender]] else []
    ensures Next(s, l, step).dropped == s.dropped + if Hands(s, step) && |s.channel| >= l.capacity then 1 else 0
  {
    assert s.accepted + [] == s.accepted;
  }

  /**
   Exactly the items that found room are accepted, in the order in which they were handed over, and exactly
   those that found the channel full are counted as dropped.
   */
  lemma {:induction false} DropsAreCounted(states: seq<System>, steps: seq<Step>, l: Limits, n: nat)
    requires IsRun(states, steps, l) && n <= |steps|
    ensures states[n].accepted == Handed(states, steps, l, true, n)
    ensures states[n].dropped == |Handed(states, steps, l, false, n)|
  {
    if n > 0 {
      DropsAreCounted(states, steps, l, n - 1);
      RunStep(states, steps, l, n - 1);
      AcceptedByStep(states[n - 1], l, steps[n - 1]);
    }
  }

  /** A send is under way exactly between its check, which found the buffer open, and its push. */
  lemma SendingByStep(s: System, l: Limits, step: Step, c: nat)
    ensures c in Next(s, l, step).sending <==>
            (c in s.sending && step != Push(c)) || (step.CheckClosed? && step.sender == c && !s.closedFlag)
    ensures c in s.sending && step != Push(c) ==> Next(s, l, step).sending[c] == s.sending[c]
    ensures c !in s.sending && c in Next(s, l, step).sending ==> Next(s, l, step).sending[c] == step.item
  {
  }

  /** When the loop has exited, everything ever accepted has been handed over, and nothing more can be accepted. */
  lemma {:induction false} ExitLosesNothing(states: seq<System>, steps: seq<Step>, l: Limits, n: nat, m: nat)
    requires IsRun(states, steps, l) && n <= m < |states|
    requires states[n].loop == Exited
    ensures states[m].accepted == RowsOf(states[m].batches) == states[n].accepted
    decreases m
  {
    ItemsAreConserved(states, steps, l, m);
    ItemsAreConserved(states, steps, l, n);
    if n < m {
      var i := m - 1;
      StaysExited(states, steps, l, n, i);
      ExitLosesNothing(states, steps, l, n, i);
      ItemsAreConserved(states, steps, l, i);
      assert IsStep(states[i], l, steps[i], states[i + 1]);
    }
  }

  lemma {:induction false} StaysExited(states: seq<System>, steps: seq<Step>, l: Limits, n: nat, m: nat)
    requires IsRun(states, steps, l) && n <= m < |states| && states[n].loop == Exited
    ensures states[m].loop == Exited
    decreases m
  {
    if n < m {
      StaysExited(states, steps, l, n, m - 1);
      var i := m - 1;
      assert IsStep(states[i], l, steps[i], states[i + 1]);
    }
  }

  // ---- Shutdown terminates ----

  /** Loop steps still needed once the sender is gone. */
  ghost function Remaining(s: System): nat {
    match s.loop
    case Exited => 0
    case Waiting => 3 * |s.channel| + 1
    case Flushing => 3 * |s.channel| + 2
    case Draining => 3 * |s.channel| + 3
  }

  /** After close every loop step makes progress, and no step of a sender or a closer undoes it. */
  lemma {:induction false} ClosedLoopProgresses(s: System, l: Limits, step: Step)
    requires Inv(s, l) && !s.senderOpen && Possible(s, l, step)
    ensures !Next(s, l, step).senderOpen
    ensures step.Loop? ==> Remaining(Next(s, l, step)) <= Max(0, Remaining(s) - 1)
    ensures !step.Loop? ==> Remaining(Next(s, l, step)) == Remaining(s)
  {
  }

  /** Steps of the flush loop among the given ones. */
  function LoopSteps(steps: seq<Step>): nat {
    if steps == [] then 0 else LoopSteps(Front(steps)) + if Last(steps).Loop? then 1 else 0
  }

  lemma RunStep(states: seq<System>, steps: seq<Step>, l: Limits, i: nat)
    requires IsRun(states, steps, l) && i < |steps|
    ensures Inv(states[i], l) && Possible(states[i], l, steps[i]) && states[i + 1] == Next(states[i], l, steps[i])
  {
    ItemsAreConserved(states, steps, l, i);
    assert IsStep(states[i], l, steps[i], states[i + 1]);
  }

  lemma {:induction false} RemainingShrinks(states: seq<System>, steps: seq<Step>, l: Limits, m: nat, n: nat)
    requires IsRun(states, steps, l) && m <= n < |states| && !states[m].senderOpen
    ensures !states[n].senderOpen
    ensures Remaining(states[n]) <= Max(0, Remaining(states[m]) - LoopSteps(steps[m..n]))
    decreases n
  {
    if m < n {
      var i := n - 1;
      RemainingShrinks(states, steps, l, m, i);
      RunStep(states, steps, l, i);
      ClosedLoopProgresses(states[i], l, steps[i]);
      assert Front(steps[m..n]) == steps[m..i] && Last(steps[m..n]) == steps[i];
    }
  }

  /**
   After close the loop exits: in every run, as soon as the flush loop has taken three steps for every item
   that was queued at the close and three more, it has exited with everything accepted handed over.
   */
  lemma ClosedLoopExits(states: seq<System>, steps: seq<Step>, l: Limits, m: nat, n: nat)
    requires IsRun(states, steps, l) && m <= n < |states| && !states[m].senderOpen
    requires LoopSteps(steps[m..n]) >= 3 * |states[m].channel| + 3
    ensures states[n].loop == Exited && RowsOf(states[n].batches) == states[n].accepted
  {
    RemainingShrinks(states, steps, l, m, n);
    ExitLosesNothing(states, steps, l, n, n);
  }

  // ---- Nothing waits for ever, open or closed ----

  /** Items up to and including number `k` that are still in the channel. */
  ghost function Ahead(s: System, k: nat): nat {
    Max(0, k + 1 - |RowsOf(s.batches)| - |s.buf|)
  }

  /** `a * m`, by addition. */
  ghost function Times(a: nat, m: nat): nat {
    if a == 0 then 0 else Times(a - 1, m) + m
  }

  lemma {:induction false} TimesIsProduct(a: nat, m: nat)
    ensures Times(a, m) == a * m
  {
    if a > 0 {
      TimesIsProduct(a - 1, m);
    }
  }

  /** Loop steps that may still pass before item number `k` is handed over. */
  ghost function Wait(s: System, l: Limits, k: nat): nat {
    if k < |RowsOf(s.batches)| then 0
    else
      var rounds := Times(Ahead(s, k), l.maxBatch + 3);
      match s.loop
      case Waiting => rounds
      case Flushing => rounds + 1
      case Draining => rounds + Max(0, l.maxBatch - |s.buf|) + 2
      case Exited => rounds
  }

  lemma ReceiveBringsNearer(s: System, l: Limits, step: Step, k: nat)
    requires Inv(s, l) && step.Loop? && |RowsOf(s.batches)| <= k < |s.accepted| && s.loop == Waiting
    ensures Wait(Next(s, l, step), l, k) < Wait(s, l, k)
  {
    assert |s.accepted| == |RowsOf(s.batches)| + |s.buf| + |s.channel|;
  }

  lemma DrainBringsNearer(s: System, l: Limits, step: Step, k: nat)
    requires Inv(s, l) && step.Loop? && |RowsOf(s.batches)| <= k < |s.accepted| && s.loop == Draining
    ensures Wait(Next(s, l, step), l, k) < Wait(s, l, k)
  {
  }

  lemma FlushBringsNearer(s: System, l: Limits, step: Step, k: nat)
    requires Inv(s, l) && Possible(s, l, step) && step.Loop? && |RowsOf(s.batches)| <= k < |s.accepted| && s.loop == Flushing
    ensures Wait(Next(s, l, step), l, k) < Wait(s, l, k)
  {
    RowsOfAppend(s.batches, step.flushed);
  }

  /** A loop step brings an accepted item nearer, whether or not the sender is still there. */
  lemma LoopBringsNearer(s: System, l: Limits, step: Step, k: nat)
    requires Inv(s, l) && Possible(s, l, step) && step.Loop? && |RowsOf(s.batches)| <= k < |s.accepted|
    ensures Wait(Next(s, l, step), l, k) < Wait(s, l, k)
  {
    match s.loop
    case Waiting => ReceiveBringsNearer(s, l, step, k);
    case Draining => DrainBringsNearer(s, l, step, k);
    case Flushing => FlushBringsNearer(s, l, step, k);
    case Exited => assert false;
  }

  lemma OthersKeepWait(s: System, l: Limits, step: Step, k: nat)
    requires !step.Loop?
    ensures Wait(Next(s, l, step), l, k) == Wait(s, l, k) && |Next(s, l, step).accepted| >= |s.accepted|
  {
  }

  /** A loop step lowers the count, and no other step raises it. */
  ghost predicate Lowers(before: int, after: int, step: Step) {
    after <= Max(0, before - if step.Loop? then 1 else 0)
  }

  lemma {:induction false} Countdown(ws: seq<int>, steps: seq<Step>, m: nat, n: nat)
    requires |ws| == |steps| + 1 && m <= n <= |steps|
    requires forall i :: m <= i < n ==> Lowers(ws[i], ws[i + 1], steps[i])
    ensures ws[n] <= Max(0, ws[m] - LoopSteps(steps[m..n])) || m == n
    decreases n
  {
    if m < n {
      Countdown(ws, steps, m, n - 1);
      LoopStepsSnoc(steps, m, n - 1);
      assert Lowers(ws[n - 1], ws[n - 1 + 1], steps[n - 1]);
      if m == n - 1 {
        assert steps[m..m] == [];
      }
    }
  }

  ghost function Waits(states: seq<System>, l: Limits, k: nat): (ws: seq<int>)
    ensures |ws| == |states| && forall i :: 0 <= i < |states| ==> ws[i] == Wait(states[i], l, k)
  {
    seq(|states|, i requires 0 <= i < |states| => Wait(states[i], l, k))
  }

  lemma WaitShrinks(states: seq<System>, steps: seq<Step>, l: Limits, m: nat, n: nat, k: nat)
    requires IsRun(states, steps, l) && m <= n < |states| && k < |states[m].accepted|
    ensures m < n ==> Wait(states[n], l, k) <= Max(0, Wait(states[m], l, k) - LoopSteps(steps[m..n]))
  {
    var ws := Waits(states, l, k);
    forall i | m <= i < n
      ensures Lowers(ws[i], ws[i + 1], steps[i])
    {
      AcceptedGrows(states, steps, l, m, i);
      WaitInRun(states, steps, l, i, k);
    }
    Countdown(ws, steps, m, n);
  }

  lemma WaitInRun(states: seq<System>, steps: seq<Step>, l: Limits, i: nat, k: nat)
    requires IsRun(states, steps, l) && i < |steps| && k < |states[i].accepted|
    ensures k < |states[i + 1].accepted|
    ensures Lowers(Wait(states[i], l, k), Wait(states[i + 1], l, k), steps[i])
  {
    RunStep(states, steps, l, i);
    WaitAfterStep(states[i], l, steps[i], k);
  }

  lemma LoopStepsSnoc(steps: seq<Step>, m: nat, i: nat)
    requires m <= i < |steps|
    ensures LoopSteps(steps[m..i + 1]) == LoopSteps(steps[m..i]) + if steps[i].Loop? then 1 else 0
  {
    assert Front(steps[m..i + 1]) == steps[m..i] && Last(steps[m..i + 1]) == steps[i];
  }

  lemma WaitAfterStep(s: System, l: Limits, step: Step, k: nat)
    requires Inv(s, l) && Possible(s, l, step) && k < |s.accepted|
    ensures k < |Next(s, l, step).accepted|
    ensures Lowers(Wait(s, l, k), Wait(Next(s, l, step), l, k), step)
  {
    if !step.Loop? {
      OthersKeepWait(s, l, step, k);
    } else if k < |RowsOf(s.batches)| {
      RowsOfAppend(s.batches, step.flushed);
    } else {
      LoopBringsNearer(s, l, step, k);
    }
  }

  /**
   Every accepted item is handed over: in every run, whatever senders and closers do, item number `k` is with the
   database once the flush loop has taken as many steps as its wait, which depends on the items before it only.
   */
  lemma EveryItemIsFlushed(states: seq<System>, steps: seq<Step>, l: Limits, m: nat, n: nat, k: nat)
    requires IsRun(states, steps, l) && m <= n < |states| && k < |states[m].accepted|
    requires LoopSteps(steps[m..n]) >= (Ahead(states[m], k) + 1) * (l.maxBatch + 3)
    ensures k < |RowsOf(states[n].batches)| && RowsOf(states[n].batches)[k] == states[m].accepted[k]
  {
    WaitIsBounded(states[m], l, k);
    WaitShrinks(states, steps, l, m, n, k);
    ItemsAreConserved(states, steps, l, n);
    if |RowsOf(states[n].batches)| <= k {
      WaitIsPositive(states[n], l, k);
      assert false;
    }
    AcceptedGrows(states, steps, l, m, n);
  }

  lemma WaitIsBounded(s: System, l: Limits, k: nat)
    ensures Wait(s, l, k) < (Ahead(s, k) + 1) * (l.maxBatch + 3)
  {
    TimesIsProduct(Ahead(s, k) + 1, l.maxBatch + 3);
  }

  /** An item that has not been handed over is still waited for. */
  lemma WaitIsPositive(s: System, l: Limits, k: nat)
    requires Inv(s, l) && |RowsOf(s.batches)| <= k < |s.accepted|
    ensures Wait(s, l, k) > 0
  {
    assert |s.accepted| == |RowsOf(s.batches)| + |s.buf| + |s.channel|;
  }

  lemma {:induction false} AcceptedGrows(states: seq<System>, steps: seq<Step>, l: Limits, m: nat, n: nat)
    requires IsRun(states, steps, l) && m <= n < |states|
    ensures states[m].accepted <= states[n].accepted
    decreases n
  {
    if m < n {
      AcceptedGrows(states, steps, l, m, n - 1);
      RunStep(states, steps, l, n - 1);
      AcceptedByStep(states[n - 1], l, steps[n - 1]);
    }
  }

  /** One receive and the drain after it: the first item always, then as many as the batch size allows. */
  method Drain(queued: seq<Item>, maxBatch: nat) returns (buf: seq<Item>, rx: seq<Item>)
    requires queued != []
    ensures buf + rx == queued
    ensures 1 <= |buf| <= Max(1, maxBatch)
    ensures |buf| < maxBatch ==> rx == []
  {
    buf, rx := [queued[0]], queued[1..];
    while |buf| < maxBatch && rx != []
      invariant buf + rx == queued
      invariant 1 <= |buf| <= Max(1, maxBatch)
      decreases |rx|
    {
      assert rx == [rx[0]] + rx[1..];
      AppendAssociative(buf, [rx[0]], rx[1..]);
      buf, rx := buf + [rx[0]], rx[1..];
    }
  }

  /** The batches of a run of flushes, each of a bounded buffer; `failing(k)` are the failures of flush `k`. */
  ghost predicate AreFlushes(flushes: seq<seq<Batch<Item>>>, l: Limits, connected: bool, failing: nat -> set<nat>) {
    forall k :: 0 <= k < |flushes| ==>
      && Follows(flushes[k], connected, failing(k)) && WithinLimit(flushes[k], l.sqlite, l.sqliteRows)
      && |RowsOf(flushes[k])| <= Max(1, l.maxBatch)
  }

  /**
   The flush loop on a closed channel, run to its exit: everything still queued is handed over in order, in
   flushes of at most the batch size, each of which may fail in part. `connected` says whether a database
   is there.
   */
  method FlushLoopAfterClose(channel: seq<Item>, l: Limits, columns: nat, connected: bool, failing: nat -> set<nat>)
    returns (flushes: seq<seq<Batch<Item>>>)
    requires l.sqliteRows == SqliteRows(columns) && (!l.sqlite || columns <= SQLITE_MAX_VARIABLES)
    ensures RowsOf(Concat(flushes)) == channel
    ensures AreFlushes(flushes, l, connected, failing)
  {
    var rx, buf := channel, [];
    flushes := [];
    while true
      invariant HandsOver(flushes, rx, channel) && buf == []
      invariant AreFlushes(flushes, l, connected, failing)
      decreases |rx|
    {
      if rx == [] {
        assert RowsOf(Concat(flushes)) + [] == RowsOf(Concat(flushes));
        return;
      }
      buf, rx := Drain(rx, l.maxBatch);
      ghost var flushing := buf;
      var rest, more, left := DoFlush(buf, connected, l.sqlite, columns, failing(|flushes|), |buf|);
      assert RowsOf(more) == RowsOf(more) + [] == flushing;
      AddFlush(flushes, more, rx, channel);
      FlushesGrow(flushes, more, l, connected, failing);
      buf, flushes := rest, flushes + [more];
    }
  }

  /** What was flushed and what is still queued make up what the channel held. */
  ghost predicate HandsOver(flushes: seq<seq<Batch<Item>>>, rx: seq<Item>, channel: seq<Item>) {
    RowsOf(Concat(flushes)) + rx == channel
  }

  lemma AddFlush(flushes: seq<seq<Batch<Item>>>, more: seq<Batch<Item>>, rx: seq<Item>, channel: seq<Item>)
    requires HandsOver(flushes, RowsOf(more) + rx, channel)
    ensures HandsOver(flushes + [more], rx, channel)
  {
    assert Front(flushes + [more]) == flushes;
    RowsOfAppend(Concat(flushes), more);
    AppendAssociative(RowsOf(Concat(flushes)), RowsOf(more), rx);
  }

  lemma FlushesGrow(flushes: seq<seq<Batch<Item>>>, more: seq<Batch<Item>>, l: Limits, connected: bool, failing: nat -> set<nat>)
    requires AreFlushes(flushes, l, connected, failing) && |RowsOf(more)| <= Max(1, l.maxBatch)
    requires Follows(more, connected, failing(|flushes|)) && WithinLimit(more, l.sqlite, l.sqliteRows)
    ensures AreFlushes(flushes + [more], l, connected, failing)
  {
  }

  // ---- The sending side as an object ----

  class BufferSender {
    const cap: nat
    var channel: seq<Item>
    var open: bool
    var closed: bool
    var dropped: nat

    /** The object holds the sending side of system `s`. */
    ghost predicate Matches(s: System, l: Limits)
      reads this
    {
      s.channel == channel && s.senderOpen == open && s.closedFlag == closed && s.dropped == dropped && l.capacity == cap
    }

    constructor (cap: nat)
      ensures this.cap == cap && channel == [] && open && !closed && dropped == 0
    {
      this.cap, channel, open, closed, dropped := cap, [], true, false, 0;
    }

    /** A send whose two halves run without interruption: full channels drop and count, closed ones ignore. */
    method Send(item: Item, ghost s: System, ghost l: Limits, ghost sender: nat)
      requires Matches(s, l) && sender !in s.sending
      modifies this
      ensures Matches(Next(Next(s, l, CheckClosed(sender, item)), l, Push(sender)), l)
      ensures old(open && !closed && |channel| < cap) ==> channel == old(channel) + [item] && dropped == old(dropped)
      ensures old(open && !closed && |channel| >= cap) ==> channel == old(channel) && dropped == old(dropped) + 1
      ensures old(!open || closed) ==> channel == old(channel) && dropped == old(dropped)
      ensures open == old(open) && closed == old(closed)
    {
      if closed {
        return;
      }
      if !open {
        return;
      }
      if |channel| < cap {
        channel := channel + [item];
      } else {
        dropped := dropped + 1;
      }
    }

    /** Closing twice is the same as closing once. */
    method Close(ghost s: System, ghost l: Limits)
      requires Matches(s, l) && !s.closing
      modifies this
      ensures Matches(Next(Next(s, l, SwapFlag), l, DropSender), l)
      ensures closed && channel == old(channel) && dropped == old(dropped)
      ensures open <==> old(open) && old(closed)
    {
      if closed {
        return;
      }
      closed := true;
      open := false;
    }
  }
}
