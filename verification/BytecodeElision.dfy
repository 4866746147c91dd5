/**
 The bytecode protocol between a worker handle and its worker thread. A sender leaves the bytecode out
 when its hash equals the last one it sent; the worker then replays its own cached copy, which must
 also survive the runtime being thrown away.
 */
module BytecodeElision {
  import opened Base

  type Bytecode = seq<Byte>

  const QUEUE_CAPACITY := 256

  /** A queued command. `caller` is the bytecode its caller passed; the worker never reads it. */
  datatype Command =
    | Execute(caller: Bytecode, bytecode: Option<Bytecode>, bytecodeHash: U64)
    | Shutdown

  /**
   A live JS runtime: the hash it believes it has loaded, and the module its entry point comes from. `serial`
   tells runtimes apart; the worker never reads it.
   */
  datatype Runtime = Runtime(loadedHash: Option<U64>, entry: Option<Bytecode>, serial: nat)

  datatype End = Returned | Killed | IdleTimeout

  /** What the script engine does with one command. */
  datatype Outcome = Outcome(createFails: bool, loadFails: bool, end: End)

  /** One completed invocation: what the caller passed, the module that was invoked, in which runtime, and its end. */
  datatype Ran = Ran(caller: Bytecode, entry: Option<Bytecode>, serial: nat, end: End)

  datatype Channel = Channel(
    lastHash: U64,
    queue: seq<Command>,
    cached: Option<Bytecode>,
    runtime: Option<Runtime>,
    alive: bool,
    created: nat,
    log: seq<Ran>)

  const SPAWNED := Channel(0, [], None, None, true, 0, [])

  type Hash = Bytecode -> U64

  // ---- Sender ----

  predicate Accepts(c: Channel) {
    c.alive && |c.queue| < QUEUE_CAPACITY
  }

  function AfterSend(hash: Hash, c: Channel, bytecode: Bytecode): Channel {
    if !Accepts(c) then c
    else
      var sent := if c.lastHash == hash(bytecode) then None else Some(bytecode);
      c.(queue := c.queue + [Execute(bytecode, sent, hash(bytecode))], lastHash := hash(bytecode))
  }

  // ---- Worker ----

  function Effective(cached: Option<Bytecode>, bytecode: Option<Bytecode>): Bytecode {
    match bytecode
    case Some(b) => b
    case None => if cached.Some? then cached.value else []
  }

  function Cache(cached: Option<Bytecode>, bytecode: Option<Bytecode>): Option<Bytecode> {
    if bytecode.Some? then bytecode else cached
  }

  /** The runtime that a command finds or creates; `None` if creating one fails. */
  function Obtained(runtime: Option<Runtime>, created: nat, o: Outcome): Option<Runtime> {
    if runtime.Some? then runtime else if o.createFails then None else Some(Runtime(None, None, created))
  }

  /** That runtime with the command's module loaded; `None` if loading fails. */
  function Loaded(r: Runtime, bytecode: Bytecode, bytecodeHash: U64, o: Outcome): Option<Runtime> {
    if r.loadedHash == Some(bytecodeHash) then Some(r)
    else if o.loadFails then None
    else Some(Runtime(Some(bytecodeHash), Some(bytecode), r.serial))
  }

  function AfterProcess(c: Channel, o: Outcome): Channel {
    if !c.alive || c.queue == [] then c
    else
      match c.queue[0]
      case Shutdown => c.(queue := [], runtime := None, alive := false)
      case Execute(caller, bytecode, bytecodeHash) =>
        var obtained := Obtained(c.runtime, c.created, o);
        var popped := c.(queue := c.queue[1..], cached := Cache(c.cached, bytecode), runtime := obtained,
                         created := c.created + if c.runtime.None? && obtained.Some? then 1 else 0);
        if obtained.None? then popped
        else
          var loaded := Loaded(obtained.value, Effective(c.cached, bytecode), bytecodeHash, o);
          if loaded.None? then popped
          else popped.(runtime := if o.end == Returned then loaded else None,
                       log := c.log + [Ran(caller, loaded.value.entry, loaded.value.serial, o.end)])
  }

  function AfterShutdown(c: Channel): Channel {
    if Accepts(c) then c.(queue := c.queue + [Shutdown]) else c
  }

  class Worker {
    const hash: Hash
    var lastBytecodeHash: U64
    var queue: seq<Command>
    var cachedBytecode: Option<Bytecode>
    var runtimeState: Option<Runtime>
    var alive: bool
    var created: nat
    ghost var log: seq<Ran>

    ghost function Value(): Channel
      reads this
    {
      Channel(lastBytecodeHash, queue, cachedBytecode, runtimeState, alive, created, log)
    }

    constructor (hash: Hash)
      ensures this.hash == hash && Value() == SPAWNED
    {
      this.hash := hash;
      lastBytecodeHash, queue, cachedBytecode, runtimeState := 0, [], None, None;
      alive, created, log := true, 0, [];
    }

    /**
     The part of `execute` up to the successful `try_send`, without another sender in between. The bytecode
     travels exactly if its hash is not the last one sent.
     */
    method Send(bytecode: Bytecode) returns (accepted: bool)
      modifies this
      ensures accepted <==> old(alive) && |old(queue)| < 256
      ensures accepted ==>
                && queue == old(queue) +
                            [Execute(bytecode, if old(lastBytecodeHash) == hash(bytecode) then None else Some(bytecode),
                                     hash(bytecode))]
                && lastBytecodeHash == hash(bytecode)
      ensures !accepted ==> Value() == old(Value())
      ensures Value() == AfterSend(hash, old(Value()), bytecode)
    {
      var bytecodeHash := hash(bytecode);
      var lastHash := lastBytecodeHash;
      var sent := None;
      if lastHash != bytecodeHash {
        sent := Some(bytecode);
      }
      if !alive || |queue| >= QUEUE_CAPACITY {
        return false;
      }
      queue := queue + [Execute(bytecode, sent, bytecodeHash)];
      lastBytecodeHash := bytecodeHash;
      return true;
    }

    /**
     One iteration of the worker loop. A script that is killed or does not come to rest takes its runtime with
     it; the cached bytecode outlives the runtime.
     */
    method Process(o: Outcome)
      modifies this
      ensures Value() == AfterProcess(old(Value()), o)
      ensures old(alive && queue != []) && old(queue)[0].Execute? ==>
                && alive && queue == old(queue)[1..]
                && cachedBytecode == (if old(queue)[0].bytecode.Some? then old(queue)[0].bytecode else old(cachedBytecode))
                && (log == old(log) || runtimeState.Some? == (o.end == Returned))
                && (log == old(log) <==>
                    (old(runtimeState).None? && o.createFails) ||
                    (o.loadFails &&
                     (old(runtimeState).None? || old(runtimeState).value.loadedHash != Some(old(queue)[0].bytecodeHash))))
      ensures old(alive && queue != []) && old(queue)[0].Shutdown? ==> !alive && runtimeState.None? && log == old(log)
    {
      if !alive || queue == [] {
        return;
      }
      var command := queue[0];
      match command
      case Shutdown =>
        runtimeState := None;
        queue, alive := [], false;
      case Execute(caller, bytecode, bytecodeHash) =>
        queue := queue[1..];
        var effective := [];
        if bytecode.Some? {
          cachedBytecode := bytecode;
          effective := bytecode.value;
        } else if cachedBytecode.Some? {
          effective := cachedBytecode.value;
        }
        if runtimeState.None? {
          if o.createFails {
            return;
          }
          runtimeState, created := Some(Runtime(None, None, created)), created + 1;
        }
        if runtimeState.value.loadedHash != Some(bytecodeHash) {
          if o.loadFails {
            return;
          }
          runtimeState := Some(Runtime(Some(bytecodeHash), Some(effective), runtimeState.value.serial));
        }
        log := log + [Ran(caller, runtimeState.value.entry, runtimeState.value.serial, o.end)];
        if o.end != Returned {
          runtimeState := None;
        }
    }
  }

  // ---- Runs ----

  datatype Step = Send(bytecode: Bytecode) | SendShutdown | Process(outcome: Outcome)

  function Next(hash: Hash, c: Channel, step: Step): Channel {
    match step
    case Send(b) => AfterSend(hash, c, b)
    case SendShutdown => AfterShutdown(c)
    case Process(o) => AfterProcess(c, o)
  }

  function Exec(hash: Hash, steps: seq<Step>): Channel {
    if steps == [] then SPAWNED else Next(hash, Exec(hash, Front(steps)), Last(steps))
  }

  /** Every send of the run passes one of `used`. */
  ghost predicate Sends(steps: seq<Step>, used: set<Bytecode>) {
    forall i :: 0 <= i < |steps| && steps[i].Send? ==> steps[i].bytecode in used
  }

  /** Every invocation ran the module of exactly the bytecode its caller passed. */
  ghost predicate Sound(c: Channel) {
    forall i :: 0 <= i < |c.log| ==> c.log[i].entry == Some(c.log[i].caller)
  }

  /** No two bytecodes in use collide, and only the empty bytecode may hash to the "nothing sent" mark. */
  ghost predicate CollisionFree(hash: Hash, used: set<Bytecode>) {
    && (forall a, b :: a in used && b in used && hash(a) == hash(b) ==> a == b)
    && forall a :: a in used && hash(a) == 0 ==> a == []
  }

  // ---- Invariant ----

  /** Every queued command will find its caller's bytecode, given the worker's current cache. */
  ghost predicate QueueDelivers(hash: Hash, used: set<Bytecode>, cached: Option<Bytecode>, queue: seq<Command>)
    decreases |queue|
  {
    queue != [] ==>
      match queue[0]
      case Shutdown => QueueDelivers(hash, used, cached, queue[1..])
      case Execute(caller, bytecode, h) =>
        && caller in used && h == hash(caller) && Effective(cached, bytecode) == caller
        && QueueDelivers(hash, used, Cache(cached, bytecode), queue[1..])
  }

  /** The worker's cache once the queue is drained. */
  ghost function CacheAfter(cached: Option<Bytecode>, queue: seq<Command>): Option<Bytecode>
    decreases |queue|
  {
    if queue == [] then cached
    else CacheAfter(if queue[0].Execute? then Cache(cached, queue[0].bytecode) else cached, queue[1..])
  }

  ghost predicate RuntimeHonest(hash: Hash, used: set<Bytecode>, runtime: Option<Runtime>) {
    runtime.Some? && runtime.value.loadedHash.Some? ==>
      && runtime.value.entry.Some?
      && runtime.value.entry.value in used
      && runtime.value.loadedHash == Some(hash(runtime.value.entry.value))
  }

  /** The remembered hash is that of the bytecode the worker will have cached when it gets there. */
  ghost predicate HashMatchesCache(hash: Hash, used: set<Bytecode>, c: Channel) {
    var b := Effective(CacheAfter(c.cached, c.queue), None);
    (b in used && hash(b) == c.lastHash) || (b == [] && c.lastHash == 0)
  }

  ghost predicate Inv(hash: Hash, used: set<Bytecode>, c: Channel) {
    && Sound(c)
    && (c.alive ==> QueueDelivers(hash, used, c.cached, c.queue)
                    && HashMatchesCache(hash, used, c)
                    && RuntimeHonest(hash, used, c.runtime))
  }

  lemma {:induction false} QueueDeliversSnoc(hash: Hash, used: set<Bytecode>, cached: Option<Bytecode>,
                                            queue: seq<Command>, command: Command)
    requires QueueDelivers(hash, used, cached, queue)
    requires command.Execute? ==>
               && command.caller in used
               && command.bytecodeHash == hash(command.caller)
               && Effective(CacheAfter(cached, queue), command.bytecode) == command.caller
    ensures QueueDelivers(hash, used, cached, queue + [command])
    ensures CacheAfter(cached, queue + [command]) ==
            if command.Execute? then Cache(CacheAfter(cached, queue), command.bytecode) else CacheAfter(cached, queue)
    decreases |queue|
  {
    if queue == [] {
      assert (queue + [command])[1..] == [];
    } else {
      assert (queue + [command])[1..] == queue[1..] + [command];
      var rest := if queue[0].Execute? then Cache(cached, queue[0].bytecode) else cached;
      QueueDeliversSnoc(hash, used, rest, queue[1..], command);
    }
  }

  lemma SendKeepsInv(hash: Hash, used: set<Bytecode>, c: Channel, b: Bytecode)
    requires CollisionFree(hash, used) && b in used && Inv(hash, used, c)
    ensures Inv(hash, used, AfterSend(hash, c, b))
  {
    if Accepts(c) {
      var sent := if c.lastHash == hash(b) then None else Some(b);
      QueueDeliversSnoc(hash, used, c.cached, c.queue, Execute(b, sent, hash(b)));
    }
  }

  lemma ShutdownKeepsInv(hash: Hash, used: set<Bytecode>, c: Channel)
    requires Inv(hash, used, c)
    ensures Inv(hash, used, AfterShutdown(c))
  {
    if Accepts(c) {
      QueueDeliversSnoc(hash, used, c.cached, c.queue, Shutdown);
    }
  }

  lemma ProcessKeepsInv(hash: Hash, used: set<Bytecode>, c: Channel, o: Outcome)
    requires CollisionFree(hash, used) && Inv(hash, used, c)
    ensures Inv(hash, used, AfterProcess(c, o))
  {
    if c.alive && c.queue != [] && c.queue[0].Execute? {
      var command := c.queue[0];
      var obtained := Obtained(c.runtime, c.created, o);
      if obtained.Some? {
        var loaded := Loaded(obtained.value, Effective(c.cached, command.bytecode), command.bytecodeHash, o);
        if loaded.Some? {
          assert RuntimeHonest(hash, used, loaded);
          assert loaded.value.entry == Some(command.caller);
        }
      }
    }
  }

  lemma {:induction false} ElisionIsSound(hash: Hash, used: set<Bytecode>, steps: seq<Step>)
    requires CollisionFree(hash, used) && Sends(steps, used)
    ensures Inv(hash, used, Exec(hash, steps))
  {
    if steps != [] {
      ElisionIsSound(hash, used, Front(steps));
      var c := Exec(hash, Front(steps));
      match Last(steps)
      case Send(b) =>
        assert steps[|steps| - 1].bytecode in used;
        SendKeepsInv(hash, used, c, b);
      case SendShutdown => ShutdownKeepsInv(hash, used, c);
      case Process(o) => ProcessKeepsInv(hash, used, c, o);
    }
  }

  // ---- A spoiled runtime is never used again ----

  /** Whoever runs in a runtime finds that every earlier invocation in it came to a normal end. */
  ghost predicate NeverReused(log: seq<Ran>) {
    forall i, j :: 0 <= i < j < |log| && log[i].serial == log[j].serial ==> log[i].end == Returned
  }

  ghost predicate Clean(c: Channel) {
    && NeverReused(c.log)
    && (forall i :: 0 <= i < |c.log| ==> c.log[i].serial < c.created)
    && (c.runtime.Some? ==>
          && c.runtime.value.serial < c.created
          && forall i :: 0 <= i < |c.log| && c.log[i].serial == c.runtime.value.serial ==> c.log[i].end == Returned)
  }

  lemma ProcessKeepsClean(c: Channel, o: Outcome)
    requires Clean(c)
    ensures Clean(AfterProcess(c, o))
  {
    if c.alive && c.queue != [] && c.queue[0].Execute? {
      var q := AfterProcess(c, o);
      if q.log != c.log {
        var n := |c.log|;
        assert q.log[..n] == c.log;
        forall i | 0 <= i < n && q.log[i].serial == q.log[n].serial
          ensures q.log[i].end == Returned
        {
          assert c.log[i] == q.log[i];
        }
      }
    }
  }

  /** In every run, whatever the hash does: no invocation runs in a runtime in which one was killed or did not come to rest. */
  lemma {:induction false} SpoiledRuntimesAreNotReused(hash: Hash, steps: seq<Step>)
    ensures Clean(Exec(hash, steps)) && NeverReused(Exec(hash, steps).log)
  {
    if steps != [] {
      SpoiledRuntimesAreNotReused(hash, Front(steps));
      if Last(steps).Process? {
        ProcessKeepsClean(Exec(hash, Front(steps)), Last(steps).outcome);
      }
    }
  }

  // ---- A shutdown ends the worker ----

  function ProcessAll(c: Channel, os: seq<Outcome>): Channel {
    if os == [] then c else AfterProcess(ProcessAll(c, Front(os)), Last(os))
  }

  lemma {:induction false} ProcessAllFromFirst(c: Channel, os: seq<Outcome>)
    requires os != []
    ensures ProcessAll(c, os) == ProcessAll(AfterProcess(c, os[0]), os[1..])
  {
    if |os| == 1 {
      assert Front(os) == [] && os[1..] == [];
    } else {
      ProcessAllFromFirst(c, Front(os));
      assert Front(os)[1..] == Front(os[1..]) && Last(os[1..]) == Last(os);
    }
  }

  lemma {:induction false} DeadStaysDead(c: Channel, os: seq<Outcome>)
    requires !c.alive
    ensures ProcessAll(c, os) == c
  {
    if os != [] {
      DeadStaysDead(c, Front(os));
    }
  }

  /** A shutdown joins the queue of a worker with room, and once the commands before it are done the worker ends. */
  lemma {:induction false} ShutdownEndsWorker(c: Channel, os: seq<Outcome>)
    requires c.alive && |c.queue| < 256 && |os| > |c.queue|
    ensures AfterShutdown(c) == c.(queue := c.queue + [Shutdown])
    ensures var end := ProcessAll(AfterShutdown(c), os); !end.alive && end.runtime.None? && end.queue == []
  {
    QueuedShutdownEnds(AfterShutdown(c), os, |c.queue|);
  }

  lemma {:induction false} QueuedShutdownEnds(c: Channel, os: seq<Outcome>, i: nat)
    requires c.alive && i < |c.queue| && c.queue[i] == Shutdown && |os| > i
    ensures var end := ProcessAll(c, os); !end.alive && end.runtime.None? && end.queue == []
    decreases i
  {
    ProcessAllFromFirst(c, os);
    var c' := AfterProcess(c, os[0]);
    if c.queue[0] == Shutdown {
      DeadStaysDead(c', os[1..]);
    } else {
      QueuedShutdownEnds(c', os[1..], i - 1);
    }
  }

  // ---- Every accepted command is taken once, in order ----

  function Callers(queue: seq<Command>): seq<Bytecode> {
    if queue == [] then []
    else Callers(Front(queue)) + if Last(queue).Execute? then [Last(queue).caller] else []
  }

  lemma {:induction false} CallersTail(queue: seq<Command>)
    requires queue != []
    ensures Callers(queue) == (if queue[0].Execute? then [queue[0].caller] else []) + Callers(queue[1..])
  {
    if |queue| > 1 {
      CallersTail(Front(queue));
      assert Front(queue)[1..] == Front(queue[1..]) && Last(queue[1..]) == Last(queue);
    } else {
      assert queue[1..] == [] && Front(queue) == [];
    }
  }

  /** The bytecodes whose sends found the worker alive with room in its queue. */
  function Accepted(hash: Hash, steps: seq<Step>): seq<Bytecode> {
    if steps == [] then []
    else
      var c := Exec(hash, Front(steps));
      Accepted(hash, Front(steps)) +
      if Last(steps).Send? && c.alive && |c.queue| < 256 then [Last(steps).bytecode] else []
  }

  /** The callers whose commands the worker has taken from its queue. */
  function Taken(hash: Hash, steps: seq<Step>): seq<Bytecode> {
    if steps == [] then []
    else
      var c := Exec(hash, Front(steps));
      Taken(hash, Front(steps)) +
      if Last(steps).Process? && c.alive && c.queue != [] && c.queue[0].Execute? then [c.queue[0].caller] else []
  }

  ghost predicate NothingFails(steps: seq<Step>) {
    forall i :: 0 <= i < |steps| && steps[i].Process? ==> !steps[i].outcome.createFails && !steps[i].outcome.loadFails
  }

  function Invoked(log: seq<Ran>): seq<Bytecode> {
    seq(|log|, i requires 0 <= i < |log| => log[i].caller)
  }

  ghost predicate Accounted(hash: Hash, steps: seq<Step>) {
    var c := Exec(hash, steps);
    && (c.alive ==> Accepted(hash, steps) == Taken(hash, steps) + Callers(c.queue))
    && Taken(hash, steps) <= Accepted(hash, steps)
    && (NothingFails(steps) ==> Invoked(c.log) == Taken(hash, steps))
  }

  lemma SendAccounted(hash: Hash, steps: seq<Step>)
    requires steps != [] && !Last(steps).Process? && Accounted(hash, Front(steps))
    ensures Accounted(hash, steps)
  {
    var c, c' := Exec(hash, Front(steps)), Exec(hash, steps);
    assert NothingFails(steps) ==> NothingFails(Front(steps));
    if c'.queue != c.queue {
      assert Front(c'.queue) == c.queue;
    }
  }

  lemma TakingInvokes(c: Channel, o: Outcome)
    requires c.alive && c.queue != [] && c.queue[0].Execute? && !o.createFails && !o.loadFails
    ensures Invoked(AfterProcess(c, o).log) == Invoked(c.log) + [c.queue[0].caller]
  {
  }

  lemma TakeAccounted(hash: Hash, steps: seq<Step>)
    requires steps != [] && Last(steps).Process? && Accounted(hash, Front(steps))
    requires var c := Exec(hash, Front(steps)); c.alive && c.queue != [] && c.queue[0].Execute?
    ensures Accounted(hash, steps)
  {
    var c, taken := Exec(hash, Front(steps)), Taken(hash, Front(steps));
    CallersTail(c.queue);
    AppendAssociative(taken, [c.queue[0].caller], Callers(c.queue[1..]));
    if NothingFails(steps) {
      assert steps[|steps| - 1].Process?;
      assert NothingFails(Front(steps));
      TakingInvokes(c, Last(steps).outcome);
    }
  }

  lemma IdleAccounted(hash: Hash, steps: seq<Step>)
    requires steps != [] && Last(steps).Process? && Accounted(hash, Front(steps))
    requires var c := Exec(hash, Front(steps)); !c.alive || c.queue == [] || c.queue[0].Shutdown?
    ensures Accounted(hash, steps)
  {
    assert NothingFails(steps) ==> NothingFails(Front(steps));
  }

  /**
   Over every run: what a live worker has taken and what still waits are exactly the accepted commands, in
   order, and unless creating or loading fails every command taken is invoked.
   */
  lemma {:induction false} CommandsAreTakenInOrder(hash: Hash, steps: seq<Step>)
    ensures Accounted(hash, steps)
  {
    if steps != [] {
      CommandsAreTakenInOrder(hash, Front(steps));
      var c := Exec(hash, Front(steps));
      if !Last(steps).Process? {
        SendAccounted(hash, steps);
      } else if c.alive && c.queue != [] && c.queue[0].Execute? {
        TakeAccounted(hash, steps);
      } else {
        IdleAccounted(hash, steps);
      }
    }
  }

  // ---- The condition is exact ----

  const FINE := Outcome(false, false, Returned)

  lemma ExecSnoc(hash: Hash, steps: seq<Step>, step: Step)
    ensures Exec(hash, steps + [step]) == Next(hash, Exec(hash, steps), step)
  {
    assert Front(steps + [step]) == steps;
  }

  lemma ZeroHashBreaks(hash: Hash, a: Bytecode)
    requires hash(a) == 0 && a != []
    ensures !Sound(Exec(hash, [Send(a), Process(FINE)]))
  {
    ExecSnoc(hash, [], Send(a));
    ExecSnoc(hash, [Send(a)], Process(FINE));
    assert [] + [Send(a)] == [Send(a)] && [Send(a)] + [Process(FINE)] == [Send(a), Process(FINE)];
    assert Exec(hash, [Send(a)]).queue == [Execute(a, None, 0)];
    assert Exec(hash, [Send(a), Process(FINE)]).log == [Ran(a, Some([]), 0, Returned)];
    assert [Ran(a, Some([]), 0, Returned)][0].caller == a;
  }

  function Served(a: Bytecode): seq<Step> {
    [Send(a), Process(FINE)]
  }

  /** The first command of a worker. */
  lemma FirstCommand(h: U64, a: Bytecode)
    ensures AfterProcess(Channel(h, [Execute(a, Some(a), h)], None, None, true, 0, []), FINE) ==
            Channel(h, [], Some(a), Some(Runtime(Some(h), Some(a), 0)), true, 1, [Ran(a, Some(a), 0, Returned)])
  {
  }

  lemma ServedState(hash: Hash, a: Bytecode)
    requires hash(a) != 0
    ensures Exec(hash, Served(a)) ==
            Channel(hash(a), [], Some(a), Some(Runtime(Some(hash(a)), Some(a), 0)), true, 1, [Ran(a, Some(a), 0, Returned)])
  {
    ExecSnoc(hash, [], Send(a));
    ExecSnoc(hash, [Send(a)], Process(FINE));
    assert [] + [Send(a)] == [Send(a)] && [Send(a)] + [Process(FINE)] == Served(a);
    assert Exec(hash, [Send(a)]).queue == [Execute(a, Some(a), hash(a))];
    FirstCommand(hash(a), a);
  }

  lemma CollisionBreaks(hash: Hash, a: Bytecode, b: Bytecode)
    requires a != b && hash(a) == hash(b) != 0
    ensures !Sound(Exec(hash, Served(a) + [Send(b)] + [Process(FINE)]))
  {
    ServedState(hash, a);
    var three := Served(a) + [Send(b)];
    ExecSnoc(hash, Served(a), Send(b));
    ExecSnoc(hash, three, Process(FINE));
    assert Exec(hash, three).queue == [Execute(b, None, hash(a))];
    assert Exec(hash, three + [Process(FINE)]).log[1] == Ran(b, Some(a), 0, Returned);
  }

  /**
   Bytecode elision is sound in every run of sends, rejections, load failures, kills and discards if
   and only if the hash is collision-free on the bytecodes in use.
   */
  lemma ElisionIsSoundIffCollisionFree(hash: Hash, used: set<Bytecode>)
    ensures (forall steps: seq<Step> | Sends(steps, used) :: Sound(Exec(hash, steps))) <==> CollisionFree(hash, used)
  {
    if CollisionFree(hash, used) {
      forall steps: seq<Step> | Sends(steps, used)
        ensures Sound(Exec(hash, steps))
      {
        ElisionIsSound(hash, used, steps);
      }
    } else if exists a :: a in used && hash(a) == 0 && a != [] {
      var a :| a in used && hash(a) == 0 && a != [];
      ZeroHashBreaks(hash, a);
      assert Sends([Send(a), Process(FINE)], used);
    } else {
      var a, b :| a in used && b in used && hash(a) == hash(b) && a != b;
      CollisionBreaks(hash, a, b);
      assert Sends(Served(a) + [Send(b)] + [Process(FINE)], used);
    }
  }

  // ---- Overlapping senders ----
  // The handle takes no lock around reading the last hash, pushing and storing the new hash.

  datatype Phase = Decided(sent: Option<Bytecode>) | Pushed

  datatype Sender = Sender(bytecode: Bytecode, phase: Phase)

  datatype Shared = Shared(channel: Channel, senders: map<nat, Sender>)

  datatype Move =
    | LoadHash(id: nat, bytecode: Bytecode)
    | TrySend(id: nat)
    | StoreHash(id: nat)
    | PushShutdown
    | Work(outcome: Outcome)

  function Moved(hash: Hash, s: Shared, move: Move): Shared {
    match move
    case LoadHash(id, b) =>
      if id in s.senders then s
      else
        var sent := if s.channel.lastHash == hash(b) then None else Some(b);
        s.(senders := s.senders[id := Sender(b, Decided(sent))])
    case TrySend(id) =>
      if id !in s.senders || s.senders[id].phase.Pushed? then s
      else if !Accepts(s.channel) then s.(senders := s.senders - {id})
      else
        var b, sent := s.senders[id].bytecode, s.senders[id].phase.sent;
        Shared(s.channel.(queue := s.channel.queue + [Execute(b, sent, hash(b))]),
               s.senders[id := Sender(b, Pushed)])
    case StoreHash(id) =>
      if id !in s.senders || s.senders[id].phase.Decided? then s
      else Shared(s.channel.(lastHash := hash(s.senders[id].bytecode)), s.senders - {id})
    case PushShutdown => s.(channel := AfterShutdown(s.channel))
    case Work(o) => s.(channel := AfterProcess(s.channel, o))
  }

  function Interleave(hash: Hash, moves: seq<Move>): Shared {
    if moves == [] then Shared(SPAWNED, map[]) else Moved(hash, Interleave(hash, Front(moves)), Last(moves))
  }

  ghost predicate Passes(moves: seq<Move>, used: set<Bytecode>) {
    forall i :: 0 <= i < |moves| && moves[i].LoadHash? ==> moves[i].bytecode in used
  }

  /** What an elided bytecode will stand for once the queue is drained. */
  ghost function Standing(c: Channel): Bytecode {
    Effective(CacheAfter(c.cached, c.queue), None)
  }

  /** A sender that left the bytecode out may only do so if it is already on its way. */
  ghost predicate SenderOk(b: Bytecode, c: Channel, sender: Sender) {
    && sender.bytecode == b
    && (sender.phase.Decided? ==> sender.phase.sent in {None, Some(b)})
    && (c.alive && Standing(c) != b ==> sender.phase == Decided(Some(b)))
  }

  ghost predicate ChannelOk(hash: Hash, b: Bytecode, c: Channel) {
    && Sound(c)
    && c.lastHash in {0, hash(b)}
    && (c.alive ==>
          && QueueDelivers(hash, {b}, c.cached, c.queue)
          && RuntimeHonest(hash, {b}, c.runtime)
          && Standing(c) in {[], b}
          && (Standing(c) != b ==> c.lastHash == 0))
  }

  ghost predicate SharedInv(hash: Hash, b: Bytecode, s: Shared) {
    && ChannelOk(hash, b, s.channel)
    && forall id :: id in s.senders ==> SenderOk(b, s.channel, s.senders[id])
  }

  lemma TrySendKeepsSharedInv(hash: Hash, b: Bytecode, s: Shared, id: nat)
    requires (hash(b) == 0 ==> b == []) && SharedInv(hash, b, s)
    ensures SharedInv(hash, b, Moved(hash, s, TrySend(id)))
  {
    if id in s.senders && s.senders[id].phase.Decided? && Accepts(s.channel) {
      var sent := s.senders[id].phase.sent;
      assert SenderOk(b, s.channel, s.senders[id]);
      QueueDeliversSnoc(hash, {b}, s.channel.cached, s.channel.queue, Execute(b, sent, hash(b)));
      assert Standing(Moved(hash, s, TrySend(id)).channel) == b;
    }
  }

  lemma ShutdownKeepsSharedInv(hash: Hash, b: Bytecode, s: Shared)
    requires SharedInv(hash, b, s)
    ensures SharedInv(hash, b, Moved(hash, s, PushShutdown))
  {
    if Accepts(s.channel) {
      QueueDeliversSnoc(hash, {b}, s.channel.cached, s.channel.queue, Shutdown);
      assert Standing(AfterShutdown(s.channel)) == Standing(s.channel);
    }
  }

  lemma WorkKeepsSharedInv(hash: Hash, b: Bytecode, s: Shared, o: Outcome)
    requires SharedInv(hash, b, s)
    ensures SharedInv(hash, b, Moved(hash, s, Work(o)))
  {
    var c := s.channel;
    if c.alive && c.queue != [] && c.queue[0].Execute? {
      var command := c.queue[0];
      var obtained := Obtained(c.runtime, c.created, o);
      if obtained.Some? {
        var loaded := Loaded(obtained.value, Effective(c.cached, command.bytecode), command.bytecodeHash, o);
        if loaded.Some? {
          assert RuntimeHonest(hash, {b}, loaded) && loaded.value.entry == Some(b);
        }
      }
      assert Standing(AfterProcess(c, o)) == Standing(c);
    }
  }

  lemma MoveKeepsSharedInv(hash: Hash, b: Bytecode, s: Shared, move: Move)
    requires (hash(b) == 0 ==> b == []) && SharedInv(hash, b, s)
    requires move.LoadHash? ==> move.bytecode == b
    ensures SharedInv(hash, b, Moved(hash, s, move))
  {
    match move
    case LoadHash(id, _) =>
    case StoreHash(id) =>
      if id in s.senders {
        assert SenderOk(b, s.channel, s.senders[id]);
      }
    case TrySend(id) => TrySendKeepsSharedInv(hash, b, s, id);
    case PushShutdown => ShutdownKeepsSharedInv(hash, b, s);
    case Work(o) => WorkKeepsSharedInv(hash, b, s, o);
  }

  lemma {:induction false} OneBytecodeToleratesOverlap(hash: Hash, b: Bytecode, moves: seq<Move>)
    requires (hash(b) == 0 ==> b == []) && Passes(moves, {b})
    ensures SharedInv(hash, b, Interleave(hash, moves))
  {
    if moves != [] {
      OneBytecodeToleratesOverlap(hash, b, Front(moves));
      assert Last(moves).LoadHash? ==> moves[|moves| - 1].bytecode in {b};
      MoveKeepsSharedInv(hash, b, Interleave(hash, Front(moves)), Last(moves));
    }
  }

  /** Overlapping senders do not change this: a spoiled runtime is not used again. */
  lemma {:induction false} OverlapKeepsRuntimesClean(hash: Hash, moves: seq<Move>)
    ensures Clean(Interleave(hash, moves).channel) && NeverReused(Interleave(hash, moves).channel.log)
  {
    if moves != [] {
      OverlapKeepsRuntimesClean(hash, Front(moves));
      if Last(moves).Work? {
        ProcessKeepsClean(Interleave(hash, Front(moves)).channel, Last(moves).outcome);
      }
    }
  }

  lemma InterleaveSnoc(hash: Hash, moves: seq<Move>, move: Move)
    ensures Interleave(hash, moves + [move]) == Moved(hash, Interleave(hash, moves), move)
  {
    assert Front(moves + [move]) == moves;
  }

  lemma InterleaveTwo(hash: Hash, moves: seq<Move>, x: Move, y: Move)
    ensures Interleave(hash, moves + [x, y]) == Moved(hash, Moved(hash, Interleave(hash, moves), x), y)
  {
    InterleaveSnoc(hash, moves, x);
    InterleaveSnoc(hash, moves + [x], y);
    assert moves + [x] + [y] == moves + [x, y];
  }

  /** One request whose steps nothing comes between. */
  function Request(b: Bytecode): seq<Move> {
    [LoadHash(0, b), TrySend(0)] + [StoreHash(0)]
  }

  lemma RequestIsSend(hash: Hash, moves: seq<Move>, b: Bytecode)
    requires Interleave(hash, moves).senders == map[]
    ensures Interleave(hash, moves + Request(b)) ==
            Shared(AfterSend(hash, Interleave(hash, moves).channel, b), map[])
  {
    var s := Interleave(hash, moves);
    InterleaveTwo(hash, moves, LoadHash(0, b), TrySend(0));
    InterleaveSnoc(hash, moves + [LoadHash(0, b), TrySend(0)], StoreHash(0));
    AppendAssociative(moves, [LoadHash(0, b), TrySend(0)], [StoreHash(0)]);
  }

  function MovesOf(step: Step): seq<Move> {
    match step
    case Send(b) => Request(b)
    case SendShutdown => [PushShutdown]
    case Process(o) => [Work(o)]
  }

  function AllMovesOf(steps: seq<Step>): seq<Move> {
    if steps == [] then [] else AllMovesOf(Front(steps)) + MovesOf(Last(steps))
  }

  lemma {:induction false} MovesPass(steps: seq<Step>, used: set<Bytecode>)
    requires Sends(steps, used)
    ensures Passes(AllMovesOf(steps), used)
  {
    if steps != [] {
      MovesPass(Front(steps), used);
      assert Last(steps).Send? ==> steps[|steps| - 1].bytecode in used;
      PassesAppend(AllMovesOf(Front(steps)), MovesOf(Last(steps)), used);
    }
  }

  lemma MovesOfStep(hash: Hash, moves: seq<Move>, c: Channel, step: Step)
    requires Interleave(hash, moves) == Shared(c, map[])
    ensures Interleave(hash, moves + MovesOf(step)) == Shared(Next(hash, c, step), map[])
  {
    match step
    case Send(b) => RequestIsSend(hash, moves, b);
    case SendShutdown => InterleaveSnoc(hash, moves, PushShutdown);
    case Process(o) => InterleaveSnoc(hash, moves, Work(o));
  }

  lemma {:induction false} MovesSimulate(hash: Hash, steps: seq<Step>)
    ensures Interleave(hash, AllMovesOf(steps)) == Shared(Exec(hash, steps), map[])
  {
    if steps != [] {
      MovesSimulate(hash, Front(steps));
      MovesOfStep(hash, AllMovesOf(Front(steps)), Exec(hash, Front(steps)), Last(steps));
    }
  }

  /** The runs without overlap are among the interleavings. */
  lemma {:induction false} RunsAreInterleavings(hash: Hash, steps: seq<Step>, used: set<Bytecode>)
    requires Sends(steps, used)
    ensures Passes(AllMovesOf(steps), used)
    ensures Interleave(hash, AllMovesOf(steps)) == Shared(Exec(hash, steps), map[])
  {
    MovesPass(steps, used);
    MovesSimulate(hash, steps);
  }

  // One completed request of `a`, then one request each of `a` and `b` whose steps overlap.

  function Warm(a: Bytecode): seq<Move> {
    Request(a) + [Work(FINE)]
  }

  function BothDecide(a: Bytecode, b: Bytecode): seq<Move> {
    Warm(a) + [LoadHash(1, a), LoadHash(2, b)]
  }

  function Overtake(a: Bytecode, b: Bytecode): seq<Move> {
    BothDecide(a, b) + [TrySend(2), StoreHash(2)]
  }

  function OverlapMoves(a: Bytecode, b: Bytecode): seq<Move> {
    Overtake(a, b) + [TrySend(1), Work(FINE)] + [Work(FINE)]
  }

  lemma WarmState(hash: Hash, a: Bytecode)
    requires hash(a) != 0
    ensures Interleave(hash, Warm(a)) ==
            Shared(Channel(hash(a), [], Some(a), Some(Runtime(Some(hash(a)), Some(a), 0)), true, 1,
                           [Ran(a, Some(a), 0, Returned)]), map[])
  {
    RequestIsSend(hash, [], a);
    assert [] + Request(a) == Request(a);
    assert Interleave(hash, Request(a)).channel.queue == [Execute(a, Some(a), hash(a))];
    InterleaveSnoc(hash, Request(a), Work(FINE));
    FirstCommand(hash(a), a);
  }

  lemma OvertakeState(hash: Hash, a: Bytecode, b: Bytecode)
    requires hash(a) != hash(b) && hash(a) != 0
    ensures var s := Interleave(hash, Overtake(a, b));
            && s.channel == Channel(hash(b), [Execute(b, Some(b), hash(b))], Some(a), Some(Runtime(Some(hash(a)), Some(a), 0)),
                                    true, 1, [Ran(a, Some(a), 0, Returned)])
            && 1 in s.senders && s.senders[1] == Sender(a, Decided(None))
  {
    WarmState(hash, a);
    InterleaveTwo(hash, Warm(a), LoadHash(1, a), LoadHash(2, b));
    InterleaveTwo(hash, BothDecide(a, b), TrySend(2), StoreHash(2));
    assert [] + [Execute(b, Some(b), hash(b))] == [Execute(b, Some(b), hash(b))];
  }

  lemma OverlapBreaks(hash: Hash, a: Bytecode, b: Bytecode)
    requires a != b && hash(a) != hash(b) && hash(a) != 0
    ensures !Sound(Interleave(hash, OverlapMoves(a, b)).channel)
  {
    OvertakeState(hash, a, b);
    var moves := Overtake(a, b) + [TrySend(1), Work(FINE)];
    InterleaveTwo(hash, Overtake(a, b), TrySend(1), Work(FINE));
    assert Interleave(hash, moves).channel.queue == [Execute(a, None, hash(a))];
    InterleaveSnoc(hash, moves, Work(FINE));
    assert Interleave(hash, OverlapMoves(a, b)).channel.log[2] == Ran(a, Some(b), 0, Returned);
  }

  lemma {:induction false} NobodySends(hash: Hash, moves: seq<Move>)
    requires Passes(moves, {})
    ensures Interleave(hash, moves).channel.log == [] && Interleave(hash, moves).senders == map[]
    ensures forall i :: 0 <= i < |Interleave(hash, moves).channel.queue| ==> Interleave(hash, moves).channel.queue[i].Shutdown?
  {
    if moves != [] {
      NobodySends(hash, Front(moves));
      assert !Last(moves).LoadHash? by { assert !moves[|moves| - 1].LoadHash?; }
    }
  }

  ghost predicate AtMostOne(used: set<Bytecode>) {
    forall a, b :: a in used && b in used ==> a == b
  }

  lemma SafeOverlap(hash: Hash, used: set<Bytecode>, moves: seq<Move>)
    requires AtMostOne(used) && CollisionFree(hash, used) && Passes(moves, used)
    ensures Sound(Interleave(hash, moves).channel)
  {
    if b :| b in used {
      assert used == {b};
      OneBytecodeToleratesOverlap(hash, b, moves);
    } else {
      NobodySends(hash, moves);
    }
  }

  lemma PassesAppend(a: seq<Move>, b: seq<Move>, used: set<Bytecode>)
    requires Passes(a, used) && Passes(b, used)
    ensures Passes(a + b, used)
  {
  }

  lemma OverlapPasses(a: Bytecode, b: Bytecode, used: set<Bytecode>)
    requires a in used && b in used
    ensures Passes(OverlapMoves(a, b), used)
  {
    assert Passes(Warm(a), used);
    PassesAppend(Warm(a), [LoadHash(1, a), LoadHash(2, b)], used);
    PassesAppend(BothDecide(a, b), [TrySend(2), StoreHash(2)], used);
    PassesAppend(Overtake(a, b), [TrySend(1), Work(FINE)], used);
    PassesAppend(Overtake(a, b) + [TrySend(1), Work(FINE)], [Work(FINE)], used);
  }

  lemma UnsafeOverlap(hash: Hash, used: set<Bytecode>) returns (moves: seq<Move>)
    requires !AtMostOne(used) || !CollisionFree(hash, used)
    ensures Passes(moves, used) && !Sound(Interleave(hash, moves).channel)
  {
    if CollisionFree(hash, used) {
      var a, b :| a in used && b in used && a != b;
      var first, second := if hash(a) != 0 then a else b, if hash(a) != 0 then b else a;
      OverlapPasses(first, second, used);
      OverlapBreaks(hash, first, second);
      moves := OverlapMoves(first, second);
    } else {
      ElisionIsSoundIffCollisionFree(hash, used);
      var steps: seq<Step> :| Sends(steps, used) && !Sound(Exec(hash, steps));
      RunsAreInterleavings(hash, steps, used);
      moves := AllMovesOf(steps);
    }
  }

  /**
   Senders take no lock: elision is sound in every interleaving of any number of senders if and only if
   all of them pass the same bytecode, and that one does not collide with the "nothing sent" mark.
   */
  lemma OverlapIsSoundIffOneBytecode(hash: Hash, used: set<Bytecode>)
    ensures (forall moves: seq<Move> | Passes(moves, used) :: Sound(Interleave(hash, moves).channel))
            <==> AtMostOne(used) && CollisionFree(hash, used)
  {
    if AtMostOne(used) && CollisionFree(hash, used) {
      forall moves: seq<Move> | Passes(moves, used)
        ensures Sound(Interleave(hash, moves).channel)
      {
        SafeOverlap(hash, used, moves);
      }
    } else {
      var moves := UnsafeOverlap(hash, used);
    }
  }
}
