/**
 One reading of one network interface, and the pure rules that compare two consecutive readings:
 which direction of the counter was reset, how much traffic the step adds, and whether the gap
 before a reset was long enough for data to have been lost.
 */
module TrafficReading {
  import opened Base

  const POSSIBLE_DATA_LOSS_THRESHOLD_MS := 10 * 60 * 1000

  datatype Reading = Reading(
    bootId: Option<string>,
    ifindex: Option<U32>,
    counterReceived: U64,
    counterTransmitted: U64,
    reportTime: I64,
    createdAt: I64,
    updatedAt: I64)

  datatype Traffic = Traffic(received: U64, transmitted: U64)

  const NO_TRAFFIC := Traffic(0, 0)

  datatype CounterReset = CounterReset(received: bool, transmitted: bool) {
    predicate Any() {
      received || transmitted
    }
  }

  datatype Loss = Loss(uuidId: I16, startTime: I64, endTime: I64)

  predicate IsIfindexChanged(prev: Reading, current: Reading) {
    prev.ifindex.Some? && current.ifindex.Some? && prev.ifindex != current.ifindex
  }

  predicate IsBootIdChanged(prev: Reading, current: Reading) {
    prev.bootId.Some? && current.bootId.Some? && prev.bootId != current.bootId
  }

  predicate IsFullReset(prev: Reading, current: Reading) {
    IsBootIdChanged(prev, current) || IsIfindexChanged(prev, current)
  }

  function DetectCounterReset(prev: Reading, current: Reading): CounterReset {
    if IsFullReset(prev, current) then CounterReset(true, true)
    else CounterReset(current.counterReceived < prev.counterReceived,
                      current.counterTransmitted < prev.counterTransmitted)
  }

  function IncreaseForDirection(prev: U64, current: U64, reset: bool): U64 {
    if reset then current else SaturatingSub(current, prev)
  }

  function ComputeTrafficIncrease(prev: Option<Reading>, current: Reading, reset: CounterReset): Traffic {
    match prev
    case None => NO_TRAFFIC
    case Some(p) =>
      Traffic(IncreaseForDirection(p.counterReceived, current.counterReceived, reset.received),
              IncreaseForDirection(p.counterTransmitted, current.counterTransmitted, reset.transmitted))
  }

  function DetectPossibleDataLoss(uuidId: I16, prev: Reading, resetAt: I64): Option<Loss> {
    if WrapI64(resetAt - prev.updatedAt) <= POSSIBLE_DATA_LOSS_THRESHOLD_MS then None
    else Some(Loss(uuidId, prev.updatedAt, resetAt))
  }

  // ---- The two directions share one theory ----

  datatype Direction = Received | Transmitted

  function Counter(r: Reading, d: Direction): U64 {
    match d case Received => r.counterReceived case Transmitted => r.counterTransmitted
  }

  function Amount(t: Traffic, d: Direction): U64 {
    match d case Received => t.received case Transmitted => t.transmitted
  }

  predicate ResetIn(prev: Reading, current: Reading, d: Direction) {
    var reset := DetectCounterReset(prev, current);
    match d case Received => reset.received case Transmitted => reset.transmitted
  }

  /** Traffic that the step from `prev` to `current` adds in direction `d`. */
  function Increase(prev: Reading, current: Reading, d: Direction): U64 {
    Amount(ComputeTrafficIncrease(Some(prev), current, DetectCounterReset(prev, current)), d)
  }

  /** Without a reset the saturating difference never saturates: the step adds exactly the counter's growth. */
  lemma IncreaseIsExact(prev: Reading, current: Reading, d: Direction)
    ensures ResetIn(prev, current, d) <==>
            IsFullReset(prev, current) || Counter(current, d) < Counter(prev, d)
    ensures Increase(prev, current, d) ==
            if ResetIn(prev, current, d) then Counter(current, d)
            else Counter(current, d) - Counter(prev, d)
  {
  }

  /** Both values are present and differ. */
  ghost predicate Replaced<T(!new)>(a: Option<T>, b: Option<T>) {
    exists x, y :: a == Some(x) && b == Some(y) && x != y
  }

  /**
   The rule on the fields of the readings: a replaced boot id or interface index restarts both counters, a
   smaller counter restarts its own direction only, and otherwise a direction adds its growth.
   */
  lemma IncreaseByFields(prev: Reading, current: Reading)
    ensures Increase(prev, current, Received) ==
            if Replaced(prev.bootId, current.bootId) || Replaced(prev.ifindex, current.ifindex)
               || current.counterReceived < prev.counterReceived then current.counterReceived
            else current.counterReceived - prev.counterReceived
    ensures Increase(prev, current, Transmitted) ==
            if Replaced(prev.bootId, current.bootId) || Replaced(prev.ifindex, current.ifindex)
               || current.counterTransmitted < prev.counterTransmitted then current.counterTransmitted
            else current.counterTransmitted - prev.counterTransmitted
    ensures DetectCounterReset(prev, current).Any() <==>
            Replaced(prev.bootId, current.bootId) || Replaced(prev.ifindex, current.ifindex)
            || current.counterReceived < prev.counterReceived || current.counterTransmitted < prev.counterTransmitted
  {
    if prev.bootId.Some? && current.bootId.Some? && prev.bootId.value != current.bootId.value {
      assert prev.bootId == Some(prev.bootId.value) && current.bootId == Some(current.bootId.value);
    }
    if prev.ifindex.Some? && current.ifindex.Some? && prev.ifindex.value != current.ifindex.value {
      assert prev.ifindex == Some(prev.ifindex.value) && current.ifindex == Some(current.ifindex.value);
    }
  }
}
