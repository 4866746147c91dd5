/**
 The pool of script workers: double-checked creation, idle cleanup and forced eviction. Clients, the
 cleaner and evictions interleave freely; only the lock around the `workers` map is taken for granted.
 */
module WorkerPool {
  import opened Base

  const RUNTIME_CLEAN_TIME_NONE := -1

  datatype Retirer = Cleaner | Evictor

  /** A spawned worker, as seen through its handle. `retiredBy` records who took it out of the pool. */
  datatype Handle = Handle(
    name: string,
    activeRequests: nat,
    cleanTimeMs: I64,
    lastUsedMs: I64,
    retiredBy: Option<Retirer>,
    shutdownSent: bool)

  /** A call of `execute_script`, from the moment it has looked at the pool. */
  datatype Client =
    | Missed(name: string)
    | Holding(id: nat)
    | Executing(id: nat)

  /** Which of the four conditions on a candidate is read next; the clean time is read once and kept. */
  datatype Check = ReadCleanTime | ReadActive(cleanMs: I64) | ReadStrongCount(cleanMs: I64) | ReadLastUsed(cleanMs: I64)

  datatype CleanerState =
    | Idle
    | Collected(names: seq<string>, now: I64)
    | Locked(names: seq<string>, now: I64)
    | Checking(name: string, check: Check, names: seq<string>, now: I64)

  datatype Pool = Pool(
    workers: map<string, nat>,
    handles: map<nat, Handle>,
    clients: map<nat, Client>,
    cleaner: CleanerState)

  const EMPTY_POOL := Pool(map[], map[], map[], Idle)

  predicate Holds(c: Client, id: nat) {
    !c.Missed? && c.id == id
  }

  function Holders(p: Pool, id: nat): set<nat> {
    set c | c in p.clients && Holds(p.clients[c], id)
  }

  function ExecutingOn(p: Pool, id: nat): set<nat> {
    set c | c in p.clients && p.clients[c] == Executing(id)
  }

  /** `Arc::strong_count`: one reference in the map, one in every call that holds the handle. */
  function StrongCount(p: Pool, id: nat): nat
    requires id in p.handles
  {
    (if p.handles[id].name in p.workers && p.workers[p.handles[id].name] == id then 1 else 0) + |Holders(p, id)|
  }

  predicate WriteLocked(p: Pool) {
    p.cleaner.Locked? || p.cleaner.Checking?
  }

  // ---- Steps ----

  datatype Step =
    | Look(client: nat, name: string)
    | Spawn(client: nat, id: nat, now: I64, fails: bool)
    | SetCleanTime(client: nat, cleanTime: Option<I64>)
    | Enter(client: nat)
    | Touch(client: nat, now: I64)
    | Leave(client: nat)
    | Release(client: nat)
    | Collect(candidates: seq<string>, at: I64)
    | TakeWriteLock
    | CheckNext
    | EvictRemove(name: string)
    | EvictSend(id: nat)

  function SaturatingSubI64(a: I64, b: I64): I64 {
    Max(-TWO_63, Min(I64_MAX, a - b))
  }

  /** The result of one read of the candidate's state: go on to the next condition, or give it up. */
  predicate Passes(p: Pool, id: nat, check: Check, now: I64)
    requires id in p.handles
  {
    var h := p.handles[id];
    match check
    case ReadCleanTime => h.cleanTimeMs > 0
    case ReadActive(_) => h.activeRequests == 0
    case ReadStrongCount(_) => StrongCount(p, id) <= 1
    case ReadLastUsed(cleanMs) => SaturatingSubI64(now, h.lastUsedMs) >= cleanMs
  }

  function Retire(p: Pool, name: string, who: Retirer, sent: bool): Pool
    requires name in p.workers && p.workers[name] in p.handles
  {
    var id := p.workers[name];
    p.(workers := p.workers - {name},
       handles := p.handles[id := p.handles[id].(retiredBy := Some(who), shutdownSent := sent)])
  }

  function AfterCheck(p: Pool): Pool
    requires WriteLocked(p)
  {
    match p.cleaner
    case Locked(names, now) =>
      if names == [] then p.(cleaner := Idle)
      else p.(cleaner := Checking(names[0], ReadCleanTime, names[1..], now))
    case Checking(name, check, names, now) =>
      if name !in p.workers || p.workers[name] !in p.handles || !Passes(p, p.workers[name], check, now) then
        p.(cleaner := Locked(names, now))
      else
        match check
        case ReadCleanTime =>
          p.(cleaner := Checking(name, ReadActive(p.handles[p.workers[name]].cleanTimeMs), names, now))
        case ReadActive(cleanMs) => p.(cleaner := Checking(name, ReadStrongCount(cleanMs), names, now))
        case ReadStrongCount(cleanMs) => p.(cleaner := Checking(name, ReadLastUsed(cleanMs), names, now))
        case ReadLastUsed(_) => Retire(p, name, Cleaner, true).(cleaner := Locked(names, now))
  }

  /** A step that is not possible in a state leaves it unchanged. */
  function Next(p: Pool, step: Step): Pool {
    match step
    case Look(c, name) =>
      if WriteLocked(p) || c in p.clients then p
      else p.(clients := p.clients[c := if name in p.workers then Holding(p.workers[name]) else Missed(name)])
    case Spawn(c, id, now, fails) =>
      if WriteLocked(p) || c !in p.clients || !p.clients[c].Missed? then p
      else
        var name := p.clients[c].name;
        if name in p.workers then p.(clients := p.clients[c := Holding(p.workers[name])])
        else if fails || id in p.handles then p.(clients := p.clients - {c})
        else
          Pool(p.workers[name := id],
               p.handles[id := Handle(name, 0, RUNTIME_CLEAN_TIME_NONE, now, None, false)],
               p.clients[c := Holding(id)],
               p.cleaner)
    case SetCleanTime(c, time) =>
      if c in p.clients && p.clients[c].Holding? && p.clients[c].id in p.handles then
        UpdateHandle(p, p.clients[c].id,
                     p.handles[p.clients[c].id].(cleanTimeMs := if time.Some? then time.value else RUNTIME_CLEAN_TIME_NONE))
      else p
    case Enter(c) =>
      if c in p.clients && p.clients[c].Holding? && p.clients[c].id in p.handles then
        var id := p.clients[c].id;
        UpdateHandle(p, id, p.handles[id].(activeRequests := p.handles[id].activeRequests + 1))
          .(clients := p.clients[c := Executing(id)])
      else p
    case Touch(c, now) =>
      if c in p.clients && p.clients[c].Executing? && p.clients[c].id in p.handles then
        UpdateHandle(p, p.clients[c].id, p.handles[p.clients[c].id].(lastUsedMs := now))
      else p
    case Leave(c) =>
      if c in p.clients && p.clients[c].Executing? && p.clients[c].id in p.handles
         && p.handles[p.clients[c].id].activeRequests > 0 then
        var id := p.clients[c].id;
        UpdateHandle(p, id, p.handles[id].(activeRequests := p.handles[id].activeRequests - 1))
          .(clients := p.clients[c := Holding(id)])
      else p
    case Release(c) =>
      if c in p.clients && p.clients[c].Holding? then p.(clients := p.clients - {c}) else p
    case Collect(names, now) =>
      if p.cleaner.Idle? then p.(cleaner := Collected(names, now)) else p
    case TakeWriteLock =>
      if p.cleaner.Collected? then p.(cleaner := Locked(p.cleaner.names, p.cleaner.now)) else p
    case CheckNext => if WriteLocked(p) then AfterCheck(p) else p
    case EvictRemove(name) =>
      if WriteLocked(p) || name !in p.workers || p.workers[name] !in p.handles then p
      else Retire(p, name, Evictor, false)
    case EvictSend(id) =>
      if id in p.handles && p.handles[id].retiredBy == Some(Evictor) then
        UpdateHandle(p, id, p.handles[id].(shutdownSent := true))
      else p
  }

  function UpdateHandle(p: Pool, id: nat, h: Handle): Pool {
    p.(handles := p.handles[id := h])
  }

  function Exec(steps: seq<Step>): Pool {
    if steps == [] then EMPTY_POOL else Next(Exec(Front(steps)), Last(steps))
  }

  // ---- Invariant ----

  /** The map and the handles agree: a worker that nobody retired is the pool's worker of its name. */
  ghost predicate MapExact(p: Pool) {
    && (forall n :: n in p.workers ==>
          p.workers[n] in p.handles && p.handles[p.workers[n]].name == n && p.handles[p.workers[n]].retiredBy.None?)
    && (forall id :: id in p.handles && p.handles[id].retiredBy.None? ==>
          p.handles[id].name in p.workers && p.workers[p.handles[id].name] == id)
  }

  ghost predicate ShutdownsExplained(p: Pool) {
    forall id :: id in p.handles && p.handles[id].shutdownSent ==> p.handles[id].retiredBy.Some?
  }

  /** A handle that some call still holds was not taken out by the cleaner. */
  ghost predicate HeldNotCleaned(p: Pool) {
    forall c :: c in p.clients && !p.clients[c].Missed? ==>
      p.clients[c].id in p.handles && p.handles[p.clients[c].id].retiredBy != Some(Cleaner)
  }

  /** `active_requests` counts exactly the calls between the increment and the guard's drop. */
  ghost predicate ActiveExact(p: Pool) {
    forall id :: id in p.handles ==> p.handles[id].activeRequests == |ExecutingOn(p, id)|
  }

  /** Once the reference count has been read under the lock, nobody can get hold of the handle. */
  ghost predicate CountStillValid(p: Pool) {
    p.cleaner.Checking? && p.cleaner.check.ReadLastUsed? && p.cleaner.name in p.workers ==>
      Holders(p, p.workers[p.cleaner.name]) == {}
  }

  ghost predicate Inv(p: Pool) {
    MapExact(p) && ShutdownsExplained(p) && HeldNotCleaned(p) && ActiveExact(p) && CountStillValid(p)
  }

  lemma SameHoldersOutside(p: Pool, q: Pool, c: nat, id: nat)
    requires forall x :: x != c ==> ((x in p.clients) == (x in q.clients))
    requires forall x :: x != c && x in p.clients && x in q.clients ==> p.clients[x] == q.clients[x]
    ensures ExecutingOn(p, id) - {c} == ExecutingOn(q, id) - {c}
    ensures Holders(p, id) - {c} == Holders(q, id) - {c}
  {
  }

  lemma Cardinality(s: set<nat>, c: nat)
    ensures |s| == |s - {c}| + if c in s then 1 else 0
  {
    if c in s {
      assert s == (s - {c}) + {c};
    } else {
      assert s == s - {c};
    }
  }

  /** A step of one client changes the executing counts only through its own state. */
  lemma ActiveAfterClientStep(p: Pool, q: Pool, c: nat, id: nat)
    requires forall x :: x != c ==> ((x in p.clients) == (x in q.clients))
    requires forall x :: x != c && x in p.clients && x in q.clients ==> p.clients[x] == q.clients[x]
    ensures |ExecutingOn(q, id)| - (if c in ExecutingOn(q, id) then 1 else 0)
         == |ExecutingOn(p, id)| - (if c in ExecutingOn(p, id) then 1 else 0)
  {
    SameHoldersOutside(p, q, c, id);
    Cardinality(ExecutingOn(p, id), c);
    Cardinality(ExecutingOn(q, id), c);
  }

  ghost predicate IsClientStep(step: Step) {
    step.Look? || step.Spawn? || step.SetCleanTime? || step.Enter? || step.Touch? || step.Leave? || step.Release?
  }

  /** A client step changes the map of clients at the client only. */
  lemma ClientStepIsLocal(p: Pool, step: Step)
    requires IsClientStep(step)
    ensures forall x :: x != step.client ==> ((x in p.clients) == (x in Next(p, step).clients))
    ensures forall x :: x != step.client && x in p.clients && x in Next(p, step).clients ==>
              p.clients[x] == Next(p, step).clients[x]
  {
  }

  /** Entering and leaving move the counter of the call's own handle with the call. */
  lemma EnterLeaveKeepsActiveAt(p: Pool, step: Step, id: nat)
    requires Inv(p) && (step.Enter? || step.Leave?) && id in Next(p, step).handles
    ensures Next(p, step).handles[id].activeRequests == |ExecutingOn(Next(p, step), id)|
  {
    ClientStepIsLocal(p, step);
    ActiveAfterClientStep(p, Next(p, step), step.client, id);
  }

  lemma SpawnKeepsActiveAt(p: Pool, step: Step, id: nat)
    requires Inv(p) && step.Spawn? && id in Next(p, step).handles
    ensures Next(p, step).handles[id].activeRequests == |ExecutingOn(Next(p, step), id)|
  {
    assert ExecutingOn(Next(p, step), id) == ExecutingOn(p, id);
    if id !in p.handles {
      assert ExecutingOn(p, id) == {};
    }
  }

  lemma OtherClientStepKeepsActiveAt(p: Pool, step: Step, id: nat)
    requires Inv(p) && (step.Look? || step.Release? || step.Touch? || step.SetCleanTime?) && id in Next(p, step).handles
    ensures Next(p, step).handles[id].activeRequests == |ExecutingOn(Next(p, step), id)|
  {
    assert ExecutingOn(Next(p, step), id) == ExecutingOn(p, id);
  }

  lemma ClientStepKeepsActive(p: Pool, step: Step)
    requires Inv(p) && IsClientStep(step)
    ensures ActiveExact(Next(p, step))
  {
    forall id | id in Next(p, step).handles
      ensures Next(p, step).handles[id].activeRequests == |ExecutingOn(Next(p, step), id)|
    {
      if step.Enter? || step.Leave? {
        EnterLeaveKeepsActiveAt(p, step, id);
      } else if step.Spawn? {
        SpawnKeepsActiveAt(p, step, id);
      } else {
        OtherClientStepKeepsActiveAt(p, step, id);
      }
    }
  }

  lemma ClientStepKeepsCount(p: Pool, step: Step)
    requires Inv(p) && IsClientStep(step)
    ensures CountStillValid(Next(p, step))
  {
    var q, c := Next(p, step), step.client;
    if q.cleaner.Checking? && q.cleaner.check.ReadLastUsed? && q.cleaner.name in q.workers {
      var id := q.workers[q.cleaner.name];
      SameHoldersOutside(p, q, c, id);
      assert c !in Holders(p, id);
      assert c !in Holders(q, id);
      assert Holders(q, id) == Holders(q, id) - {c};
    }
  }

  /** Updating the counters of a handle. */
  lemma UpdateKeepsMap(p: Pool, id: nat, h: Handle)
    requires MapExact(p) && ShutdownsExplained(p) && id in p.handles
    requires h.name == p.handles[id].name && h.retiredBy == p.handles[id].retiredBy
    requires h.shutdownSent == p.handles[id].shutdownSent
    ensures MapExact(UpdateHandle(p, id, h)) && ShutdownsExplained(UpdateHandle(p, id, h))
  {
  }

  /** Spawning under the write lock. */
  lemma SpawnKeepsMap(p: Pool, step: Step)
    requires MapExact(p) && ShutdownsExplained(p) && step.Spawn?
    ensures MapExact(Next(p, step)) && ShutdownsExplained(Next(p, step))
  {
  }

  lemma ClientStepKeepsMap(p: Pool, step: Step)
    requires Inv(p) && IsClientStep(step)
    ensures MapExact(Next(p, step)) && ShutdownsExplained(Next(p, step))
  {
    if step.Spawn? {
      SpawnKeepsMap(p, step);
    } else if !step.Look? && !step.Release? {
      var c := step.client;
      if c in p.clients && !p.clients[c].Missed? && p.clients[c].id in p.handles {
        var id := p.clients[c].id;
        UpdateKeepsMap(p, id, Next(p, step).handles[id]);
      }
    }
  }

  lemma ClientStepKeepsHeld(p: Pool, step: Step)
    requires Inv(p) && IsClientStep(step)
    ensures HeldNotCleaned(Next(p, step))
  {
  }

  /** The cleaner moving on. */
  lemma CleanerMoveKeepsInv(p: Pool, cleaner: CleanerState)
    requires Inv(p)
    requires cleaner.Checking? && cleaner.check.ReadLastUsed? && cleaner.name in p.workers ==>
               Holders(p, p.workers[cleaner.name]) == {}
    ensures Inv(p.(cleaner := cleaner))
  {
    var q := p.(cleaner := cleaner);
    assert forall id :: ExecutingOn(q, id) == ExecutingOn(p, id);
    assert forall id :: Holders(q, id) == Holders(p, id);
  }

  lemma CheckKeepsInv(p: Pool)
    requires Inv(p) && WriteLocked(p)
    ensures Inv(AfterCheck(p))
  {
    var q := AfterCheck(p);
    if q.workers != p.workers {
      RetireUnheldKeepsInv(p, p.cleaner.name, q.cleaner);
    } else {
      if q.cleaner.Checking? && q.cleaner.check.ReadLastUsed? {
        var id := p.workers[p.cleaner.name];
        assert StrongCount(p, id) == 1 + |Holders(p, id)| <= 1;
        assert Holders(p, id) == {};
      }
      CleanerMoveKeepsInv(p, q.cleaner);
    }
  }

  /** The cleaner's removal: nobody holds the handle, so nobody can be left holding a cleaned one. */
  lemma RetireUnheldKeepsInv(p: Pool, name: string, cleaner: CleanerState)
    requires Inv(p) && name in p.workers && Holders(p, p.workers[name]) == {} && cleaner.Locked?
    ensures Inv(Retire(p, name, Cleaner, true).(cleaner := cleaner))
  {
    var q, id := Retire(p, name, Cleaner, true).(cleaner := cleaner), p.workers[name];
    forall c | c in q.clients && !q.clients[c].Missed?
      ensures q.clients[c].id in q.handles && q.handles[q.clients[c].id].retiredBy != Some(Cleaner)
    {
      assert c !in Holders(p, id);
    }
    forall i
      ensures ExecutingOn(q, i) == ExecutingOn(p, i)
    {
    }
  }

  lemma EvictRemoveKeepsInv(p: Pool, name: string)
    requires Inv(p) && name in p.workers && !WriteLocked(p)
    ensures Inv(Retire(p, name, Evictor, false))
  {
    var q := Retire(p, name, Evictor, false);
    assert forall id :: ExecutingOn(q, id) == ExecutingOn(p, id);
  }

  lemma EvictSendKeepsInv(p: Pool, id: nat)
    requires Inv(p) && id in p.handles && p.handles[id].retiredBy == Some(Evictor)
    ensures Inv(UpdateHandle(p, id, p.handles[id].(shutdownSent := true)))
  {
    var q := UpdateHandle(p, id, p.handles[id].(shutdownSent := true));
    assert forall i :: ExecutingOn(q, i) == ExecutingOn(p, i);
    assert forall i :: Holders(q, i) == Holders(p, i);
  }

  lemma OtherStepKeepsInv(p: Pool, step: Step)
    requires Inv(p) && !IsClientStep(step)
    ensures Inv(Next(p, step))
  {
    match step
    case CheckNext =>
      if WriteLocked(p) {
        CheckKeepsInv(p);
      }
    case EvictRemove(name) =>
      if !WriteLocked(p) && name in p.workers {
        EvictRemoveKeepsInv(p, name);
      }
    case EvictSend(id) =>
      if id in p.handles && p.handles[id].retiredBy == Some(Evictor) {
        EvictSendKeepsInv(p, id);
      }
    case Collect(names, now) => CleanerMoveKeepsInv(p, Next(p, step).cleaner);
    case TakeWriteLock => CleanerMoveKeepsInv(p, Next(p, step).cleaner);
  }

  lemma {:induction false} EveryRunKeepsInv(steps: seq<Step>)
    ensures Inv(Exec(steps))
  {
    if steps != [] {
      EveryRunKeepsInv(Front(steps));
      if IsClientStep(Last(steps)) {
        ClientStepKeepsMap(Exec(Front(steps)), Last(steps));
        ClientStepKeepsHeld(Exec(Front(steps)), Last(steps));
        ClientStepKeepsActive(Exec(Front(steps)), Last(steps));
        ClientStepKeepsCount(Exec(Front(steps)), Last(steps));
      } else {
        OtherStepKeepsInv(Exec(Front(steps)), Last(steps));
      }
    }
  }

  // ---- Main results ----

  /** At most one worker per script name is not retired, and it is the one the pool hands out. */
  lemma {:induction false} OneLiveWorkerPerName(steps: seq<Step>, p: Pool, a: nat, b: nat)
    requires p == Exec(steps)
    requires a in p.handles && b in p.handles
    requires p.handles[a].retiredBy.None? && p.handles[b].retiredBy.None? && p.handles[a].name == p.handles[b].name
    ensures a == b && p.handles[a].name in p.workers && p.workers[p.handles[a].name] == a
  {
    EveryRunKeepsInv(steps);
  }

  /** In no interleaving does cleanup retire or shut down a worker whose handle a call still holds. */
  lemma {:induction false} OnlyEvictionRetiresHeldWorkers(steps: seq<Step>, p: Pool, c: nat)
    requires p == Exec(steps)
    requires c in p.clients && !p.clients[c].Missed?
    ensures p.clients[c].id in p.handles
    ensures var h := p.handles[p.clients[c].id];
            h.shutdownSent || h.retiredBy.Some? ==> h.retiredBy == Some(Evictor)
  {
    EveryRunKeepsInv(steps);
    var h := p.handles[p.clients[c].id];
    assert h.retiredBy.Some? ==> h.retiredBy.value.Cleaner? || h.retiredBy.value.Evictor?;
  }

  /** The clean time that a check goes on with was positive. */
  ghost predicate TimePositive(cleaner: CleanerState) {
    cleaner.Checking? && !cleaner.check.ReadCleanTime? ==> cleaner.check.cleanMs > 0
  }

  lemma {:induction false} EveryRunReadsPositiveTimes(steps: seq<Step>)
    ensures TimePositive(Exec(steps).cleaner)
  {
    if steps != [] {
      EveryRunReadsPositiveTimes(Front(steps));
    }
  }

  /** Nobody but the pool has a handle of the worker. */
  ghost predicate Unheld(p: Pool, id: nat) {
    forall c :: c in p.clients ==> p.clients[c] != Holding(id) && p.clients[c] != Executing(id)
  }

  /** The worker has gone unused for the given positive time. */
  ghost predicate Unused(h: Handle, now: I64, cleanMs: I64) {
    cleanMs > 0 && Max(-TWO_63, Min(TWO_63 - 1, now - h.lastUsedMs)) >= cleanMs
  }

  /**
   Under every interleaving, a worker that a cleanup step retires is unheld, runs nothing and has gone unused for
   the clean time that the check read; it is told to shut down, and no other worker is touched.
   */
  lemma CleanerRetiresOnlyIdle(steps: seq<Step>, id: nat)
    requires var p, q := Exec(steps), Next(Exec(steps), CheckNext);
             id in p.handles && q.handles != p.handles && q.handles[id] != p.handles[id]
    ensures var p, q := Exec(steps), Next(Exec(steps), CheckNext);
            && p.cleaner.Checking? && p.cleaner.check.ReadLastUsed?
            && Unheld(p, id) && p.handles[id].activeRequests == 0
            && Unused(p.handles[id], p.cleaner.now, p.cleaner.check.cleanMs)
            && p.handles[id].retiredBy.None?
            && q.handles == p.handles[id := p.handles[id].(retiredBy := Some(Cleaner), shutdownSent := true)]
            && q.workers == p.workers - {p.handles[id].name} && q.clients == p.clients
  {
    EveryRunKeepsInv(steps);
    EveryRunReadsPositiveTimes(steps);
    var p := Exec(steps);
    assert p.workers[p.cleaner.name] == id;
    forall c | c in p.clients
      ensures p.clients[c] != Holding(id) && p.clients[c] != Executing(id)
    {
      assert c !in Holders(p, id);
    }
    assert ExecutingOn(p, id) == {};
  }

  /** What a step may do to a handle: only its own calls date it and set its clean time, and its name stays. */
  lemma HandleByStep(p: Pool, step: Step, id: nat)
    requires MapExact(p) && ShutdownsExplained(p) && id in p.handles
    ensures id in Next(p, step).handles && Next(p, step).handles[id].name == p.handles[id].name
    ensures Next(p, step).handles[id].lastUsedMs ==
            if step.Touch? && step.client in p.clients && p.clients[step.client] == Executing(id) then step.now
            else p.handles[id].lastUsedMs
    ensures Next(p, step).handles[id].cleanTimeMs ==
            if step.SetCleanTime? && step.client in p.clients && p.clients[step.client] == Holding(id)
            then (if step.cleanTime.Some? then step.cleanTime.value else -1)
            else p.handles[id].cleanTimeMs
    ensures Next(p, step).handles[id].shutdownSent <==>
            p.handles[id].shutdownSent || (step == EvictSend(id) && p.handles[id].retiredBy == Some(Evictor))
            || (step.CheckNext? && Next(p, step).handles[id] != p.handles[id])
  {
  }

  /** The pool with call `c` in the given state and handle `id` as given. */
  function WithCall(p: Pool, c: nat, client: Client, id: nat, h: Handle): Pool {
    Pool(p.workers, p.handles[id := h], p.clients[c := client], p.cleaner)
  }

  /** A call that holds its handle sets the clean time, runs and lets go; `now` is when it ends. */
  function AfterCall(p: Pool, c: nat, cleanTime: Option<I64>, now: I64): Pool {
    Next(Next(Next(Next(Next(p, SetCleanTime(c, cleanTime)), Enter(c)), Touch(c, now)), Leave(c)), Release(c))
  }

  lemma HoldingSteps(p: Pool, c: nat, id: nat, h: Handle, cleanTime: Option<I64>)
    requires c !in p.clients
    ensures var held := WithCall(p, c, Holding(id), id, h);
            && Next(held, SetCleanTime(c, cleanTime)) ==
               WithCall(p, c, Holding(id), id, h.(cleanTimeMs := if cleanTime.Some? then cleanTime.value else -1))
            && Next(held, Enter(c)) == WithCall(p, c, Executing(id), id, h.(activeRequests := h.activeRequests + 1))
  {
  }

  lemma ReleaseStep(p: Pool, c: nat, id: nat, h: Handle)
    requires c !in p.clients
    ensures Next(WithCall(p, c, Holding(id), id, h), Release(c)) == p.(handles := p.handles[id := h])
  {
    assert p.clients[c := Holding(id)] - {c} == p.clients;
  }

  lemma ExecutingSteps(p: Pool, c: nat, id: nat, h: Handle, now: I64)
    requires c !in p.clients && h.activeRequests > 0
    ensures var running := WithCall(p, c, Executing(id), id, h);
            && Next(running, Touch(c, now)) == WithCall(p, c, Executing(id), id, h.(lastUsedMs := now))
            && Next(running, Leave(c)) == WithCall(p, c, Holding(id), id, h.(activeRequests := h.activeRequests - 1))
  {
  }

  /** Undisturbed, a call leaves behind the time of its end and its clean time, and nothing else. */
  lemma CallAlone(p: Pool, c: nat, id: nat, cleanTime: Option<I64>, now: I64)
    requires c !in p.clients && id in p.handles
    ensures AfterCall(WithCall(p, c, Holding(id), id, p.handles[id]), c, cleanTime, now) ==
            p.(handles := p.handles[id := p.handles[id].(cleanTimeMs := if cleanTime.Some? then cleanTime.value else -1,
                                                         lastUsedMs := now)])
  {
    var h := p.handles[id];
    var timed := h.(cleanTimeMs := if cleanTime.Some? then cleanTime.value else -1);
    var running := timed.(activeRequests := h.activeRequests + 1);
    var used := running.(lastUsedMs := now);
    HoldingSteps(p, c, id, h, cleanTime);
    HoldingSteps(p, c, id, timed, cleanTime);
    ExecutingSteps(p, c, id, running, now);
    ExecutingSteps(p, c, id, used, now);
    ReleaseStep(p, c, id, used.(activeRequests := h.activeRequests));
  }

  /** Requests in progress always show in the reference count, so the count alone protects them. */
  lemma {:induction false} ActiveImpliesHeld(steps: seq<Step>, p: Pool, name: string)
    requires p == Exec(steps) && name in p.workers
    ensures p.workers[name] in p.handles
    ensures p.handles[p.workers[name]].activeRequests < StrongCount(p, p.workers[name])
  {
    EveryRunKeepsInv(steps);
    SubsetSize(ExecutingOn(p, p.workers[name]), Holders(p, p.workers[name]));
  }

  lemma {:induction false} SubsetSize(a: set<nat>, b: set<nat>)
    requires a <= b
    ensures |a| <= |b|
  {
    assert b == a + (b - a);
  }

  // ---- Cleanup without interference ----

  /** May be cleaned, nothing running, no handle outside the pool, and unused for at least its clean time. */
  predicate Eligible(p: Pool, name: string, now: I64) {
    && name in p.workers && p.workers[name] in p.handles
    && var h := p.handles[p.workers[name]];
      && h.cleanTimeMs > 0
      && h.activeRequests == 0
      && StrongCount(p, p.workers[name]) <= 1
      && SaturatingSubI64(now, h.lastUsedMs) >= h.cleanTimeMs
  }

  /** The idle test by the fields of the handle and the state of the calls. */
  lemma EligibleByFields(p: Pool, name: string, now: I64)
    requires MapExact(p)
    ensures Eligible(p, name, now) <==>
            && name in p.workers && Unheld(p, p.workers[name])
            && p.handles[p.workers[name]].activeRequests == 0
            && Unused(p.handles[p.workers[name]], now, p.handles[p.workers[name]].cleanTimeMs)
  {
    if name in p.workers {
      var id := p.workers[name];
      assert Unheld(p, id) <==> Holders(p, id) == {} by {
        if Unheld(p, id) {
          assert forall c :: c in p.clients ==> !Holds(p.clients[c], id);
        } else {
          var c :| c in p.clients && (p.clients[c] == Holding(id) || p.clients[c] == Executing(id));
          assert c in Holders(p, id);
        }
      }
    }
  }

  function RetireAll(p: Pool, names: seq<string>, now: I64): Pool {
    if names == [] then p
    else
      var before := RetireAll(p, Front(names), now);
      if Eligible(before, Last(names), now) then Retire(before, Last(names), Cleaner, true) else before
  }

  /** Retiring one worker does not change whether another is eligible. */
  lemma RetireKeepsOthers(p: Pool, name: string, other: string, now: I64)
    requires MapExact(p) && name in p.workers && other != name
    ensures Eligible(Retire(p, name, Cleaner, true), other, now) == Eligible(p, other, now)
  {
    var q := Retire(p, name, Cleaner, true);
    if other in p.workers {
      var id := p.workers[other];
      assert p.workers[name] != id;
      assert Holders(q, id) == Holders(p, id);
      assert StrongCount(q, id) == StrongCount(p, id);
    }
  }

  lemma RetireKeepsMapExact(p: Pool, name: string)
    requires MapExact(p) && name in p.workers
    ensures MapExact(Retire(p, name, Cleaner, true))
  {
  }

  /** A whole cleanup pass retires exactly the eligible candidates, in whatever order they are visited. */
  lemma {:induction false} RetireAllIsExact(p: Pool, names: seq<string>, now: I64)
    requires MapExact(p)
    ensures var q := RetireAll(p, names, now);
            && MapExact(q) && q.clients == p.clients && q.handles.Keys == p.handles.Keys
            && (forall n :: n in q.workers <==> n in p.workers && !(n in names && Eligible(p, n, now)))
            && (forall n :: n in q.workers ==> q.workers[n] == p.workers[n])
            && (forall n :: n in p.workers && n !in q.workers ==>
                  q.handles[p.workers[n]].retiredBy == Some(Cleaner) && q.handles[p.workers[n]].shutdownSent)
            && (forall n :: n in q.workers ==> Eligible(q, n, now) == Eligible(p, n, now))
  {
    if names != [] {
      RetireAllIsExact(p, Front(names), now);
      var before, name := RetireAll(p, Front(names), now), Last(names);
      assert forall n :: n in names <==> n in Front(names) || n == name;
      if Eligible(before, name, now) {
        RetireKeepsMapExact(before, name);
        forall n | n != name
          ensures Eligible(Retire(before, name, Cleaner, true), n, now) == Eligible(before, n, now)
        {
          RetireKeepsOthers(before, name, n, now);
        }
      }
    }
  }

  /** Cleanup alone: `n` checks in a row, with no step of anybody else. */
  function Checked(p: Pool, n: nat): Pool {
    if n == 0 then p else Next(Checked(p, n - 1), CheckNext)
  }

  /** The pool while the cleaner is at the given check of a candidate. */
  function AtCheck(p: Pool, name: string, check: Check, rest: seq<string>, now: I64): Pool {
    p.(cleaner := Checking(name, check, rest, now))
  }

  lemma FirstChecks(p: Pool, name: string, rest: seq<string>, now: I64)
    requires p.cleaner == Locked([name] + rest, now)
    ensures Next(p, CheckNext) == AtCheck(p, name, ReadCleanTime, rest, now)
    ensures Next(AtCheck(p, name, ReadCleanTime, rest, now), CheckNext) ==
            if name in p.workers && p.workers[name] in p.handles && p.handles[p.workers[name]].cleanTimeMs > 0
            then AtCheck(p, name, ReadActive(p.handles[p.workers[name]].cleanTimeMs), rest, now)
            else p.(cleaner := Locked(rest, now))
  {
    assert ([name] + rest)[1..] == rest;
  }

  lemma CountChecks(p: Pool, name: string, ms: I64, rest: seq<string>, now: I64)
    requires name in p.workers && p.workers[name] in p.handles
    ensures Next(AtCheck(p, name, ReadActive(ms), rest, now), CheckNext) ==
            if p.handles[p.workers[name]].activeRequests == 0 then AtCheck(p, name, ReadStrongCount(ms), rest, now)
            else p.(cleaner := Locked(rest, now))
    ensures Next(AtCheck(p, name, ReadStrongCount(ms), rest, now), CheckNext) ==
            if StrongCount(p, p.workers[name]) <= 1 then AtCheck(p, name, ReadLastUsed(ms), rest, now)
            else p.(cleaner := Locked(rest, now))
  {
    SameCount(p, AtCheck(p, name, ReadStrongCount(ms), rest, now), p.workers[name]);
  }

  lemma LastCheck(p: Pool, name: string, ms: I64, rest: seq<string>, now: I64)
    requires name in p.workers && p.workers[name] in p.handles
    ensures Next(AtCheck(p, name, ReadLastUsed(ms), rest, now), CheckNext) ==
            (if SaturatingSubI64(now, p.handles[p.workers[name]].lastUsedMs) >= ms then Retire(p, name, Cleaner, true) else p)
              .(cleaner := Locked(rest, now))
  {
  }

  /** Left alone, the checks of a candidate retire it exactly if it is eligible. */
  lemma CheckAloneIsEligible(p: Pool, name: string, rest: seq<string>, now: I64) returns (n: nat)
    requires p.cleaner == Locked([name] + rest, now)
    ensures 2 <= n <= 5
    ensures Checked(p, n) == (if Eligible(p, name, now) then Retire(p, name, Cleaner, true) else p).(cleaner := Locked(rest, now))
  {
    FirstChecks(p, name, rest, now);
    assert Checked(p, 1) == Next(Checked(p, 0), CheckNext);
    assert Checked(p, 2) == Next(Checked(p, 1), CheckNext);
    n := 2;
    if name in p.workers && p.workers[name] in p.handles && p.handles[p.workers[name]].cleanTimeMs > 0 {
      var ms := p.handles[p.workers[name]].cleanTimeMs;
      n := RestOfChecks(p, name, ms, rest, now);
    }
  }

  lemma RestOfChecks(p: Pool, name: string, ms: I64, rest: seq<string>, now: I64) returns (n: nat)
    requires name in p.workers && p.workers[name] in p.handles && p.handles[p.workers[name]].cleanTimeMs == ms > 0
    requires Checked(p, 2) == AtCheck(p, name, ReadActive(ms), rest, now)
    ensures 3 <= n <= 5
    ensures Checked(p, n) == (if Eligible(p, name, now) then Retire(p, name, Cleaner, true) else p).(cleaner := Locked(rest, now))
  {
    CountChecks(p, name, ms, rest, now);
    n := 3;
    if p.handles[p.workers[name]].activeRequests == 0 {
      assert Checked(p, 4) == Next(Checked(p, 3), CheckNext);
      n := 4;
      if StrongCount(p, p.workers[name]) <= 1 {
        assert Checked(p, 5) == Next(Checked(p, 4), CheckNext);
        LastCheck(p, name, ms, rest, now);
        n := 5;
      }
    }
  }

  function RetireOne(p: Pool, name: string, now: I64): Pool {
    if Eligible(p, name, now) then Retire(p, name, Cleaner, true) else p
  }

  lemma {:induction false} RetireAllHead(p: Pool, name: string, rest: seq<string>, now: I64)
    ensures RetireAll(p, [name] + rest, now) == RetireAll(RetireOne(p, name, now), rest, now)
  {
    var names := [name] + rest;
    if rest == [] {
      assert names == [name] && Front(names) == [];
    } else {
      RetireAllHead(p, name, Front(rest), now);
      assert Front(names) == [name] + Front(rest) && Last(names) == Last(rest);
    }
  }

  lemma EligibleIgnoresCleaner(p: Pool, cleaner: CleanerState, name: string, now: I64)
    ensures Eligible(p.(cleaner := cleaner), name, now) == Eligible(p, name, now)
  {
    if name in p.workers && p.workers[name] in p.handles {
      SameCount(p, p.(cleaner := cleaner), p.workers[name]);
    }
  }

  lemma {:induction false} RetireAllIgnoresCleaner(p: Pool, cleaner: CleanerState, names: seq<string>, now: I64)
    ensures RetireAll(p.(cleaner := cleaner), names, now) == RetireAll(p, names, now).(cleaner := cleaner)
  {
    if names != [] {
      RetireAllIgnoresCleaner(p, cleaner, Front(names), now);
      EligibleIgnoresCleaner(RetireAll(p, Front(names), now), cleaner, Last(names), now);
    }
  }

  lemma {:induction false} CheckedCompose(p: Pool, k: nat, m: nat)
    ensures Checked(p, k + m) == Checked(Checked(p, k), m)
  {
    if m > 0 {
      CheckedCompose(p, k, m - 1);
      assert Checked(p, k + m) == Next(Checked(p, k + (m - 1)), CheckNext);
      assert Checked(Checked(p, k), m) == Next(Checked(Checked(p, k), m - 1), CheckNext);
    }
  }

  lemma {:induction false} CheckAll(p: Pool, names: seq<string>, now: I64) returns (n: nat)
    requires p.cleaner == Locked(names, now)
    ensures Checked(p, n) == RetireAll(p, names, now).(cleaner := Idle)
    decreases |names|
  {
    if names == [] {
      n := 1;
      assert Checked(p, 0) == p;
    } else {
      var name, rest := names[0], names[1..];
      assert names == [name] + rest;
      var k := CheckAloneIsEligible(p, name, rest, now);
      var one := RetireOne(p, name, now);
      var m := CheckAll(one.(cleaner := Locked(rest, now)), rest, now);
      CheckedCompose(p, k, m);
      RetireAllIgnoresCleaner(one, Locked(rest, now), rest, now);
      RetireAllHead(p, name, rest, now);
      n := k + m;
    }
  }

  /**
   A cleanup pass that nobody disturbs: it takes the lock, checks every candidate, lets go of the lock, and has
   then retired exactly what `RetireAll` says.
   */
  lemma PassAlone(p: Pool, names: seq<string>, now: I64) returns (n: nat)
    requires p.cleaner == Idle
    ensures Checked(Next(Next(p, Collect(names, now)), TakeWriteLock), n) == RetireAll(p, names, now)
  {
    var locked := p.(cleaner := Locked(names, now));
    assert Next(Next(p, Collect(names, now)), TakeWriteLock) == locked;
    n := CheckAll(locked, names, now);
    RetireAllIgnoresCleaner(p, Locked(names, now), names, now);
    RetireAllIgnoresCleaner(p, Idle, names, now);
    assert p.(cleaner := Idle) == p;
  }

  lemma SameCount(p: Pool, q: Pool, id: nat)
    requires id in p.handles && q.handles == p.handles && q.workers == p.workers && q.clients == p.clients
    ensures StrongCount(q, id) == StrongCount(p, id)
  {
    assert Holders(q, id) == Holders(p, id);
  }

  class JsRuntimePool {
    var workers: map<string, nat>
    var handles: map<nat, Handle>
    ghost var clients: map<nat, Client>

    ghost function Value(): Pool
      reads this
    {
      Pool(workers, handles, clients, Idle)
    }

    constructor ()
      ensures Value() == EMPTY_POOL
    {
      workers, handles, clients := map[], map[], map[];
    }

    /**
     Double-checked creation without interference: the pool's worker if there is one, else a fresh one.
     `client` is the call that gets the handle.
     */
    method GetOrInitWorker(name: string, freshId: nat, now: I64, fails: bool, ghost client: nat) returns (r: Option<nat>)
      requires freshId !in handles && client !in clients
      modifies this
      ensures Value() == Next(Next(old(Value()), Look(client, name)), Spawn(client, freshId, now, fails))
      ensures r.Some? <==> client in clients
      ensures name in old(workers) ==> r == Some(old(workers)[name]) && workers == old(workers) && handles == old(handles)
      ensures name !in old(workers) && fails ==> r == None && workers == old(workers) && handles == old(handles)
      ensures name !in old(workers) && !fails ==>
                && r == Some(freshId) && workers == old(workers)[name := freshId]
                && handles == old(handles)[freshId := Handle(name, 0, -1, now, None, false)]
      ensures r.Some? ==> name in workers && workers[name] == r.value && clients[client] == Holding(r.value)
    {
      if name in workers {
        clients := clients[client := Holding(workers[name])];
        return Some(workers[name]);
      }
      ghost var before := clients;
      ghost var looked: map<nat, Client> := before[client := Missed(name)];
      if fails {
        assert looked - {client} == before;
        return None;
      }
      workers := workers[name := freshId];
      handles := handles[freshId := Handle(name, 0, RUNTIME_CLEAN_TIME_NONE, now, None, false)];
      clients := clients[client := Holding(freshId)];
      assert looked[client := Holding(freshId)] == clients;
      return Some(freshId);
    }

    /** Forced eviction: the worker leaves the pool and is told to shut down, whoever holds it. */
    method EvictWorker(name: string) returns (evicted: bool)
      requires MapExact(Value())
      modifies this
      ensures evicted <==> name in old(workers)
      ensures workers == old(workers) - {name} && clients == old(clients)
      ensures evicted ==>
                handles == old(handles)[old(workers)[name] :=
                                        old(handles)[old(workers)[name]].(retiredBy := Some(Evictor), shutdownSent := true)]
      ensures evicted ==> Value() == Next(Next(old(Value()), EvictRemove(name)), EvictSend(old(workers)[name]))
      ensures !evicted ==> Value() == old(Value())
    {
      if name !in workers {
        return false;
      }
      var id := workers[name];
      workers := workers - {name};
      handles := handles[id := handles[id].(retiredBy := Some(Evictor))];
      handles := handles[id := handles[id].(shutdownSent := true)];
      return true;
    }

    /** The idle test, as `cleanup_idle_workers` writes it both times. */
    method IsIdle(name: string, now: I64, strongCounts: map<nat, nat>) returns (idle: bool)
      requires MapExact(Value())
      requires forall n :: n in workers ==>
                 workers[n] in strongCounts && strongCounts[workers[n]] == StrongCount(Value(), workers[n])
      ensures idle == Eligible(Value(), name, now)
    {
      if name !in workers {
        return false;
      }
      var id := workers[name];
      var worker := handles[id];
      if worker.cleanTimeMs <= 0 {
        return false;
      }
      if worker.activeRequests > 0 {
        return false;
      }
      if strongCounts[id] > 1 {
        return false;
      }
      idle := SaturatingSubI64(now, worker.lastUsedMs) >= worker.cleanTimeMs;
    }

    /**
     A cleanup pass during which no call takes or drops a handle: exactly the idle workers are removed
     and told to shut down.
     */
    method CleanupIdleWorkers(now: I64, strongCounts: map<nat, nat>)
      requires MapExact(Value())
      requires forall n :: n in workers ==>
                 workers[n] in strongCounts && strongCounts[workers[n]] == StrongCount(Value(), workers[n])
      modifies this
      ensures MapExact(Value()) && clients == old(clients)
      ensures forall n :: n in workers <==> n in old(workers) && !old(Eligible(Value(), n, now))
      ensures forall n :: n in workers ==> workers[n] == old(workers[n])
      ensures forall n :: n in old(workers) && n !in workers ==>
                old(workers[n]) in handles && handles[old(workers[n])].retiredBy == Some(Cleaner)
                && handles[old(workers[n])].shutdownSent
    {
      ghost var p := Value();
      var candidates := Candidates(now, strongCounts);
      RetireAllIsExact(p, candidates, now);
      RetireCandidates(candidates, now, strongCounts);
    }

    /** The candidates of a pass, found under the read lock. */
    method Candidates(now: I64, strongCounts: map<nat, nat>) returns (candidates: seq<string>)
      requires MapExact(Value())
      requires forall n :: n in workers ==>
                 workers[n] in strongCounts && strongCounts[workers[n]] == StrongCount(Value(), workers[n])
      ensures forall n :: n in candidates <==> n in workers && Eligible(Value(), n, now)
    {
      candidates := [];
      var todo := workers.Keys;
      while todo != {}
        invariant todo <= workers.Keys
        invariant forall n :: n in candidates <==> n in workers.Keys - todo && Eligible(Value(), n, now)
        decreases todo
      {
        var name :| name in todo;
        var idle := IsIdle(name, now, strongCounts);
        if idle {
          candidates := candidates + [name];
        }
        todo := todo - {name};
      }
    }

    /** The second half of a pass, under the write lock: every candidate is tested again. */
    method RetireCandidates(candidates: seq<string>, now: I64, strongCounts: map<nat, nat>)
      requires MapExact(Value())
      requires forall n :: n in workers ==>
                 workers[n] in strongCounts && strongCounts[workers[n]] == StrongCount(Value(), workers[n])
      modifies this
      ensures Value() == RetireAll(old(Value()), candidates, now)
    {
      ghost var p := Value();
      for i := 0 to |candidates|
        invariant Value() == RetireAll(p, candidates[..i], now)
      {
        assert Front(candidates[..i + 1]) == candidates[..i];
        RetireAllIsExact(p, candidates[..i], now);
        SameStrongCounts(p, Value());
        var name := candidates[i];
        var remove := IsIdle(name, now, strongCounts);
        if remove {
          var id := workers[name];
          workers := workers - {name};
          handles := handles[id := handles[id].(retiredBy := Some(Cleaner), shutdownSent := true)];
        }
      }
      assert candidates[..|candidates|] == candidates;
    }
  }

  lemma SameStrongCounts(p: Pool, q: Pool)
    requires MapExact(p) && MapExact(q) && q.clients == p.clients
    requires forall n :: n in q.workers ==> n in p.workers && q.workers[n] == p.workers[n]
    ensures forall n :: n in q.workers ==> StrongCount(q, q.workers[n]) == StrongCount(p, p.workers[n])
  {
    assert forall id :: Holders(q, id) == Holders(p, id);
  }
}
