/**
 The UUID index under concurrency: every database access and every locked cache access is a step of its
 own, and any number of calls interleave. The id mapping stays exact; nothing is claimed about the
 soft-delete flags.
 */
module UuidRaces {
  import opened Base
  import opened UuidCache

  /** Where a call is. `Registered`, `Removed` and `Reloaded` are results; `Failed` is any error return. */
  datatype Pc =
    | Looking(uuid: Uuid)
    | Querying(uuid: Uuid)
    | Reviving(uuid: Uuid, id: I16)
    | Inserting(uuid: Uuid)
    | Requerying(uuid: Uuid)
    | Caching(uuid: Uuid, id: I16, softDelete: bool)
    | Registered(uuid: Uuid, id: I16)
    | QueryingForDelete(uuid: Uuid)
    | Deleting(uuid: Uuid, id: I16)
    | CachingDelete(uuid: Uuid, id: I16)
    | Removed(existed: bool)
    | Loading
    | Replacing(rebuilt: Index)
    | Reloaded
    | Failed

  datatype System = System(table: Table, index: Index, calls: map<nat, Pc>)

  /**
   `fails` makes the step's database access fail, `newId` is the id that an insert is given, and
   `rebuilt` is the index that a reload computes from the rows it loads.
   */
  datatype Step =
    | Start(call: nat, pc: Pc)
    | Advance(call: nat, fails: bool, newId: I32, rebuilt: Index)

  ghost predicate Possible(s: System, step: Step) {
    match step
    case Start(call, pc) => call !in s.calls && (pc.Looking? || pc.QueryingForDelete? || pc.Loading?)
    case Advance(call, _, newId, rebuilt) =>
      && call in s.calls
      && (s.calls[call].Inserting? ==> FreshId(s.table, newId))
      && (s.calls[call].Loading? ==> Agrees(rebuilt, s.table))
  }

  function SetSoftDelete(t: Table, uuid: Uuid, softDelete: bool): Table {
    if uuid in t then t[uuid := t[uuid].(softDelete := softDelete)] else t
  }

  /** What `get_or_insert` does with a row it found: revive it, cache it, or refuse an id out of range. */
  function AfterFound(uuid: Uuid, row: Row): Pc {
    var id := TryIdI16(row.id);
    if id.None? then Failed
    else if row.softDelete then Reviving(uuid, id.value)
    else Caching(uuid, id.value, row.softDelete)
  }

  function Goto(s: System, call: nat, pc: Pc): System {
    s.(calls := s.calls[call := pc])
  }

  function Advanced(s: System, call: nat, fails: bool, newId: I32, rebuilt: Index): System
    requires call in s.calls
  {
    match s.calls[call]
    case Looking(u) =>
      if u in s.index.byUuid && !s.index.byUuid[u].softDelete then Goto(s, call, Registered(u, s.index.byUuid[u].id))
      else Goto(s, call, Querying(u))
    case Querying(u) =>
      if fails then Goto(s, call, Failed)
      else Goto(s, call, if u in s.table then AfterFound(u, s.table[u]) else Inserting(u))
    case Reviving(u, id) =>
      if fails then Goto(s, call, Failed)
      else Goto(s, call, Caching(u, id, false)).(table := SetSoftDelete(s.table, u, false))
    case Inserting(u) =>
      if u in s.table then Goto(s, call, if fails then Failed else Requerying(u))
      else if fails then Goto(s, call, Failed)
      else
        var id := TryIdI16(newId);
        Goto(s, call, if id.Some? then Caching(u, id.value, false) else Failed)
          .(table := s.table[u := Row(newId, false)])
    case Requerying(u) =>
      if fails || u !in s.table then Goto(s, call, Failed) else Goto(s, call, AfterFound(u, s.table[u]))
    case Caching(u, id, softDelete) =>
      Goto(s, call, Registered(u, id)).(index := Put(s.index, u, id, softDelete))
    case QueryingForDelete(u) =>
      if fails then Goto(s, call, Failed)
      else if u !in s.table then Goto(s, call, Removed(false))
      else if s.table[u].softDelete then Goto(s, call, Removed(true))
      else
        var id := TryIdI16(s.table[u].id);
        Goto(s, call, if id.Some? then Deleting(u, id.value) else Failed)
    case Deleting(u, id) =>
      if fails then Goto(s, call, Failed)
      else Goto(s, call, CachingDelete(u, id)).(table := SetSoftDelete(s.table, u, true))
    case CachingDelete(u, id) =>
      Goto(s, call, Removed(true)).(index := Put(s.index, u, id, true))
    case Loading => Goto(s, call, if fails then Failed else Replacing(rebuilt))
    case Replacing(ix) => Goto(s, call, Reloaded).(index := ix)
    case _ => s
  }

  function Next(s: System, step: Step): System
    requires step.Advance? ==> step.call in s.calls
  {
    match step
    case Start(call, pc) => Goto(s, call, pc)
    case Advance(call, fails, newId, rebuilt) => Advanced(s, call, fails, newId, rebuilt)
  }

  ghost predicate IsRun(states: seq<System>, steps: seq<Step>) {
    && |states| == |steps| + 1
    && forall i :: 0 <= i < |steps| ==> IsStep(states[i], steps[i], states[i + 1])
  }

  ghost predicate IsStep(s: System, step: Step, s': System) {
    Possible(s, step) && s' == Next(s, step)
  }

  // ---- Invariant ----

  /** The pair is a real row's pair; as integers, so nothing has wrapped. */
  ghost predicate RealPair(t: Table, uuid: Uuid, id: I16) {
    uuid in t && t[uuid].id == id
  }

  ghost predicate IndexReal(ix: Index, t: Table) {
    && Mirrored(ix)
    && forall u :: u in ix.byUuid ==> RealPair(t, u, ix.byUuid[u].id)
  }

  ghost predicate PcReal(pc: Pc, t: Table) {
    match pc
    case Reviving(u, id) => RealPair(t, u, id)
    case Caching(u, id, _) => RealPair(t, u, id)
    case Registered(u, id) => RealPair(t, u, id)
    case Deleting(u, id) => RealPair(t, u, id)
    case CachingDelete(u, id) => RealPair(t, u, id)
    case Replacing(ix) => IndexReal(ix, t)
    case _ => true
  }

  ghost predicate Inv(s: System) {
    && KeysUnique(s.table)
    && IndexReal(s.index, s.table)
    && forall c :: c in s.calls ==> PcReal(s.calls[c], s.table)
  }

  /** Rows are never removed and never change their id. */
  ghost predicate Extends(t: Table, t': Table) {
    forall u :: u in t ==> u in t' && t'[u].id == t[u].id
  }

  lemma ExtensionKeepsIndex(ix: Index, t: Table, t': Table)
    requires IndexReal(ix, t) && Extends(t, t')
    ensures IndexReal(ix, t')
  {
  }

  lemma ExtensionKeepsPc(pc: Pc, t: Table, t': Table)
    requires PcReal(pc, t) && Extends(t, t')
    ensures PcReal(pc, t')
  {
    if pc.Replacing? {
      ExtensionKeepsIndex(pc.rebuilt, t, t');
    }
  }

  lemma PutKeepsReal(ix: Index, t: Table, uuid: Uuid, id: I16, softDelete: bool)
    requires KeysUnique(t) && IndexReal(ix, t) && RealPair(t, uuid, id)
    ensures IndexReal(Put(ix, uuid, id, softDelete), t)
  {
    var ix' := Put(ix, uuid, id, softDelete);
    forall u | u in ix'.byUuid
      ensures ix'.byUuid[u].id in ix'.byId && ix'.byId[ix'.byUuid[u].id] == Owner(u, ix'.byUuid[u].softDelete)
    {
      if u != uuid { assert RealPair(t, u, ix.byUuid[u].id); }
    }
    forall i | i in ix'.byId
      ensures ix'.byId[i].uuid in ix'.byUuid && ix'.byUuid[ix'.byId[i].uuid] == Slot(i, ix'.byId[i].softDelete)
    {
      if i != id { assert RealPair(t, ix.byId[i].uuid, i); }
    }
  }

  lemma AgreementIsReal(ix: Index, t: Table)
    requires KeysUnique(t) && Agrees(ix, t)
    ensures IndexReal(ix, t)
  {
    AgreementIsExact(ix, ix, t);
  }

  lemma TableAfterStep(s: System, step: Step)
    requires Inv(s) && Possible(s, step)
    ensures KeysUnique(Next(s, step).table) && Extends(s.table, Next(s, step).table)
  {
  }

  lemma IndexAfterStep(s: System, step: Step)
    requires Inv(s) && Possible(s, step)
    ensures IndexReal(Next(s, step).index, s.table)
  {
    if step.Advance? {
      var pc := s.calls[step.call];
      assert PcReal(pc, s.table);
      if pc.Caching? {
        PutKeepsReal(s.index, s.table, pc.uuid, pc.id, pc.softDelete);
      } else if pc.CachingDelete? {
        PutKeepsReal(s.index, s.table, pc.uuid, pc.id, true);
      }
    }
  }

  lemma PcAfterStep(s: System, step: Step)
    requires Inv(s) && Possible(s, step)
    ensures PcReal(Next(s, step).calls[step.call], Next(s, step).table)
  {
    if step.Advance? {
      assert PcReal(s.calls[step.call], s.table);
      if s.calls[step.call].Loading? && !step.fails {
        AgreementIsReal(step.rebuilt, s.table);
      }
      if s.calls[step.call].Looking? && s.calls[step.call].uuid in s.index.byUuid {
        assert RealPair(s.table, s.calls[step.call].uuid, s.index.byUuid[s.calls[step.call].uuid].id);
      }
    }
  }

  /** A step moves only its own call. */
  lemma OtherCallsStay(s: System, step: Step, c: nat)
    requires Possible(s, step) && c != step.call
    ensures c in Next(s, step).calls <==> c in s.calls
    ensures c in s.calls ==> Next(s, step).calls[c] == s.calls[c]
  {
  }

  lemma StepKeepsInv(s: System, step: Step, s': System)
    requires Inv(s) && IsStep(s, step, s')
    ensures Inv(s') && Extends(s.table, s'.table)
  {
    TableAfterStep(s, step);
    IndexAfterStep(s, step);
    ExtensionKeepsIndex(s'.index, s.table, s'.table);
    forall c | c in s'.calls
      ensures PcReal(s'.calls[c], s'.table)
    {
      if c == step.call {
        PcAfterStep(s, step);
      } else {
        OtherCallsStay(s, step, c);
        ExtensionKeepsPc(s.calls[c], s.table, s'.table);
      }
    }
  }

  /**
   Under every interleaving, from any good state on, the two maps stay exact mirrors, every cached pair
   is a real row's pair, and rows keep their ids.
   */
  lemma {:induction false} IdsStayExact(states: seq<System>, steps: seq<Step>, m: nat, n: nat)
    requires IsRun(states, steps) && m <= n < |states|
    requires Inv(states[m])
    ensures Inv(states[n]) && Extends(states[m].table, states[n].table)
    decreases n
  {
    if m < n {
      IdsStayExact(states, steps, m, n - 1);
      var i := n - 1;
      assert IsStep(states[i], steps[i], states[i + 1]);
      StepKeepsInv(states[i], steps[i], states[n]);
      ExtendsTransitive(states[m].table, states[i].table, states[n].table);
    }
  }

  lemma ExtendsTransitive(a: Table, b: Table, c: Table)
    requires Extends(a, b) && Extends(b, c)
    ensures Extends(a, c)
  {
  }

  /**
   Registrations of one UUID that succeed return the same id, however they race and whenever they finish,
   and that id is the row's own id.
   */
  lemma RacingRegistrationsAgree(states: seq<System>, steps: seq<Step>, m: nat, n: nat, a: nat, b: nat)
    requires IsRun(states, steps) && m <= n < |states|
    requires Inv(states[0])
    requires a in states[m].calls && states[m].calls[a].Registered?
    requires b in states[n].calls && states[n].calls[b].Registered?
    requires states[m].calls[a].uuid == states[n].calls[b].uuid
    ensures states[m].calls[a].id == states[n].calls[b].id
    ensures RealPair(states[n].table, states[n].calls[b].uuid, states[n].calls[b].id)
  {
    IdsStayExact(states, steps, 0, m);
    IdsStayExact(states, steps, m, n);
    assert PcReal(states[m].calls[a], states[m].table);
    assert PcReal(states[n].calls[b], states[n].table);
  }

  // ---- A call that nobody disturbs is the call made alone ----

  /** Which of the step's accesses fails, in a call whose accesses fail as `f` says. */
  function FailsAt(pc: Pc, f: Faults): bool {
    match pc
    case Querying(_) => f.noDb || f.find
    case QueryingForDelete(_) => f.noDb || f.find
    case Reviving(_, _) => f.write
    case Inserting(_) => f.write
    case Deleting(_, _) => f.write
    case _ => false
  }

  /** `n` steps of one call, with no other step in between. */
  function Alone(s: System, call: nat, f: Faults, newId: I32, n: nat): (r: System)
    requires call in s.calls
    ensures call in r.calls
  {
    if n == 0 then s
    else
      var before := Alone(s, call, f, newId, n - 1);
      Advanced(before, call, FailsAt(before.calls[call], f), newId, Index(map[], map[]))
  }

  function FirstStep(s: System, call: nat, f: Faults, newId: I32): (r: System)
    requires call in s.calls
    ensures call in r.calls
  {
    Advanced(s, call, FailsAt(s.calls[call], f), newId, Index(map[], map[]))
  }

  lemma {:induction false} AloneFromFirst(s: System, call: nat, f: Faults, newId: I32, n: nat)
    requires call in s.calls && n > 0
    ensures Alone(s, call, f, newId, n) == Alone(FirstStep(s, call, f, newId), call, f, newId, n - 1)
  {
    if n > 1 {
      AloneFromFirst(s, call, f, newId, n - 1);
    }
  }

  lemma {:induction false} FinishedStays(s: System, call: nat, f: Faults, newId: I32, n: nat)
    requires call in s.calls && (s.calls[call].Registered? || s.calls[call].Removed? || s.calls[call].Failed?)
    ensures Alone(s, call, f, newId, n) == s
  {
    if n > 0 {
      FinishedStays(s, call, f, newId, n - 1);
    }
  }

  /** After `n` steps of the call alone, the system has this table and index and the call is at `pc`. */
  ghost predicate EndsAt(s: System, call: nat, f: Faults, newId: I32, n: nat, w: World, pc: Pc)
    requires call in s.calls
  {
    Alone(s, call, f, newId, n) == System(w.table, w.index, s.calls[call := pc])
  }

  /** A step that changes the call and perhaps the table leaves the rest to the remaining steps. */
  lemma EndsAfterFirst(s: System, call: nat, f: Faults, newId: I32, n: nat, w: World, pc: Pc)
    requires call in s.calls && n > 0
    requires EndsAt(FirstStep(s, call, f, newId), call, f, newId, n - 1, w, pc)
    requires FirstStep(s, call, f, newId).calls == s.calls[call := FirstStep(s, call, f, newId).calls[call]]
    ensures EndsAt(s, call, f, newId, n, w, pc)
  {
    AloneFromFirst(s, call, f, newId, n);
    var first := FirstStep(s, call, f, newId);
    assert s.calls[call := first.calls[call]][call := pc] == s.calls[call := pc];
  }

  lemma FinishedEnds(s: System, call: nat, f: Faults, newId: I32, n: nat)
    requires call in s.calls && (s.calls[call].Registered? || s.calls[call].Removed? || s.calls[call].Failed?)
    ensures EndsAt(s, call, f, newId, n, World(s.table, s.index), s.calls[call])
  {
    FinishedStays(s, call, f, newId, n);
    assert s.calls[call := s.calls[call]] == s.calls;
  }

  /** A step that finishes the call. */
  lemma LastStepEnds(s: System, call: nat, f: Faults, newId: I32, n: nat)
    requires call in s.calls && n > 0
    requires var first := FirstStep(s, call, f, newId);
             && (first.calls[call].Registered? || first.calls[call].Removed? || first.calls[call].Failed?)
             && first.calls == s.calls[call := first.calls[call]]
    ensures var first := FirstStep(s, call, f, newId);
            EndsAt(s, call, f, newId, n, World(first.table, first.index), first.calls[call])
  {
    var first := FirstStep(s, call, f, newId);
    FinishedEnds(first, call, f, newId, n - 1);
    EndsAfterFirst(s, call, f, newId, n, World(first.table, first.index), first.calls[call]);
  }

  lemma CachingEnds(s: System, call: nat, f: Faults, newId: I32, n: nat)
    requires call in s.calls && s.calls[call].Caching? && n > 0
    ensures var pc := s.calls[call];
            EndsAt(s, call, f, newId, n, World(s.table, Put(s.index, pc.uuid, pc.id, pc.softDelete)), Registered(pc.uuid, pc.id))
  {
    LastStepEnds(s, call, f, newId, n);
  }

  lemma RevivingEnds(s: System, call: nat, f: Faults, newId: I32, n: nat)
    requires call in s.calls && s.calls[call].Reviving? && n > 1
    ensures var pc := s.calls[call];
            if f.write then EndsAt(s, call, f, newId, n, World(s.table, s.index), Failed)
            else EndsAt(s, call, f, newId, n, World(SetSoftDelete(s.table, pc.uuid, false), Put(s.index, pc.uuid, pc.id, false)),
                        Registered(pc.uuid, pc.id))
  {
    if f.write {
      LastStepEnds(s, call, f, newId, n);
    } else {
      var first, pc := FirstStep(s, call, f, newId), s.calls[call];
      CachingEnds(first, call, f, newId, n - 1);
      EndsAfterFirst(s, call, f, newId, n, World(first.table, Put(first.index, pc.uuid, pc.id, false)), Registered(pc.uuid, pc.id));
    }
  }

  /** A call that has found the row: it registers unless the id does not fit or the row cannot be revived. */
  lemma FoundEnds(s: System, call: nat, uuid: Uuid, f: Faults, newId: I32, n: nat)
    requires call in s.calls && uuid in s.table && s.calls[call] == AfterFound(uuid, s.table[uuid]) && n > 1
    ensures var row := s.table[uuid];
            if !Fits(row.id) || (row.softDelete && f.write) then EndsAt(s, call, f, newId, n, World(s.table, s.index), Failed)
            else EndsAt(s, call, f, newId, n, World(s.table[uuid := Row(row.id, false)], Put(s.index, uuid, row.id, false)),
                        Registered(uuid, row.id))
  {
    var row := s.table[uuid];
    if !Fits(row.id) {
      FinishedEnds(s, call, f, newId, n);
    } else if row.softDelete {
      RevivingEnds(s, call, f, newId, n);
      assert row.(softDelete := false) == Row(row.id, false);
    } else {
      CachingEnds(s, call, f, newId, n);
      assert s.table[uuid := Row(row.id, false)] == s.table;
    }
  }

  lemma InsertingEnds(s: System, call: nat, uuid: Uuid, f: Faults, newId: I32, n: nat)
    requires call in s.calls && uuid !in s.table && s.calls[call] == Inserting(uuid) && n > 1
    ensures if f.write then EndsAt(s, call, f, newId, n, World(s.table, s.index), Failed)
            else if !Fits(newId) then EndsAt(s, call, f, newId, n, World(s.table[uuid := Row(newId, false)], s.index), Failed)
            else EndsAt(s, call, f, newId, n, World(s.table[uuid := Row(newId, false)], Put(s.index, uuid, newId, false)),
                        Registered(uuid, newId))
  {
    if f.write || !Fits(newId) {
      LastStepEnds(s, call, f, newId, n);
    } else {
      var first := FirstStep(s, call, f, newId);
      CachingEnds(first, call, f, newId, n - 1);
      EndsAfterFirst(s, call, f, newId, n, World(first.table, Put(first.index, uuid, newId, false)), Registered(uuid, newId));
    }
  }

  function ResultPc(uuid: Uuid, r: Result<I16>): Pc {
    if r.Ok? then Registered(uuid, r.value) else Failed
  }

  lemma QueryingEnds(s: System, call: nat, uuid: Uuid, f: Faults, newId: I32, n: nat)
    requires call in s.calls && s.calls[call] == Querying(uuid) && n > 2
    requires !(uuid in s.index.byUuid && !s.index.byUuid[uuid].softDelete)
    ensures var (w, r) := GetOrInsertSpec(World(s.table, s.index), uuid, f, newId);
            EndsAt(s, call, f, newId, n, w, ResultPc(uuid, r))
  {
    var (w, r) := GetOrInsertSpec(World(s.table, s.index), uuid, f, newId);
    var first := FirstStep(s, call, f, newId);
    if f.noDb || f.find {
      LastStepEnds(s, call, f, newId, n);
    } else {
      if uuid in s.table {
        FoundEnds(first, call, uuid, f, newId, n - 1);
      } else {
        InsertingEnds(first, call, uuid, f, newId, n - 1);
      }
      EndsAfterFirst(s, call, f, newId, n, w, ResultPc(uuid, r));
    }
  }

  /** A registration nobody disturbs takes at most four steps and ends as the whole call would. */
  lemma RegistrationAlone(s: System, call: nat, uuid: Uuid, f: Faults, newId: I32)
    requires call in s.calls && s.calls[call] == Looking(uuid)
    ensures var (w, r) := GetOrInsertSpec(World(s.table, s.index), uuid, f, newId);
            EndsAt(s, call, f, newId, 4, w, if r.Ok? then Registered(uuid, r.value) else Failed)
  {
    var (w, r) := GetOrInsertSpec(World(s.table, s.index), uuid, f, newId);
    if uuid in s.index.byUuid && !s.index.byUuid[uuid].softDelete {
      LastStepEnds(s, call, f, newId, 4);
    } else {
      QueryingEnds(FirstStep(s, call, f, newId), call, uuid, f, newId, 3);
      EndsAfterFirst(s, call, f, newId, 4, w, ResultPc(uuid, r));
    }
  }

  /** Likewise a deletion, in three steps. */
  lemma DeletionAlone(s: System, call: nat, uuid: Uuid, f: Faults)
    requires call in s.calls && s.calls[call] == QueryingForDelete(uuid)
    ensures var (w, r) := SoftDeleteSpec(World(s.table, s.index), uuid, f);
            EndsAt(s, call, f, 0, 3, w, if r.Ok? then Removed(r.value) else Failed)
  {
    var first := FirstStep(s, call, f, 0);
    if first.calls[call].Deleting? {
      DeletingEnds(first, call, uuid, f);
      var (w, r) := SoftDeleteSpec(World(s.table, s.index), uuid, f);
      EndsAfterFirst(s, call, f, 0, 3, w, if r.Ok? then Removed(r.value) else Failed);
    } else {
      LastStepEnds(s, call, f, 0, 3);
    }
  }

  lemma DeletingEnds(s: System, call: nat, uuid: Uuid, f: Faults)
    requires call in s.calls && uuid in s.table && Fits(s.table[uuid].id) && s.calls[call] == Deleting(uuid, s.table[uuid].id)
    ensures if f.write then EndsAt(s, call, f, 0, 2, World(s.table, s.index), Failed)
            else EndsAt(s, call, f, 0, 2,
                        World(s.table[uuid := Row(s.table[uuid].id, true)], Put(s.index, uuid, s.table[uuid].id, true)),
                        Removed(true))
  {
    var first := FirstStep(s, call, f, 0);
    if f.write {
      LastStepEnds(s, call, f, 0, 2);
    } else {
      LastStepEnds(first, call, f, 0, 1);
      assert s.table[uuid].(softDelete := true) == Row(s.table[uuid].id, true);
      EndsAfterFirst(s, call, f, 0, 2, World(first.table, Put(s.index, uuid, s.table[uuid].id, true)), Removed(true));
    }
  }

  /** A registration that loses the race for the insert still registers, with the winner's id, and revives the row. */
  lemma LoserRegisters(s: System, call: nat, uuid: Uuid)
    requires call in s.calls && s.calls[call] == Inserting(uuid)
    requires uuid in s.table && -32768 <= s.table[uuid].id <= 32767
    ensures EndsAt(s, call, Faults(false, false, false), 0, 4,
                   World(s.table[uuid := Row(s.table[uuid].id, false)], Put(s.index, uuid, s.table[uuid].id, false)),
                   Registered(uuid, s.table[uuid].id))
  {
    var f, first := Faults(false, false, false), FirstStep(s, call, Faults(false, false, false), 0);
    RequeryingRegisters(first, call, uuid, f);
    EndsAfterFirst(s, call, f, 0, 4,
                   World(s.table[uuid := Row(s.table[uuid].id, false)], Put(s.index, uuid, s.table[uuid].id, false)),
                   Registered(uuid, s.table[uuid].id));
  }

  lemma RequeryingRegisters(s: System, call: nat, uuid: Uuid, f: Faults)
    requires call in s.calls && s.calls[call] == Requerying(uuid) && uuid in s.table && Fits(s.table[uuid].id) && !f.write
    ensures EndsAt(s, call, f, 0, 3,
                   World(s.table[uuid := Row(s.table[uuid].id, false)], Put(s.index, uuid, s.table[uuid].id, false)),
                   Registered(uuid, s.table[uuid].id))
  {
    var first := FirstStep(s, call, f, 0);
    FoundEnds(first, call, uuid, f, 0, 2);
    EndsAfterFirst(s, call, f, 0, 3,
                   World(s.table[uuid := Row(s.table[uuid].id, false)], Put(s.index, uuid, s.table[uuid].id, false)),
                   Registered(uuid, s.table[uuid].id));
  }

  /** A reload nobody disturbs installs the index of the rows it loaded. */
  lemma ReloadAlone(s: System, call: nat, rebuilt: Index)
    requires call in s.calls && s.calls[call] == Loading
    ensures var loaded := Advanced(s, call, false, 0, rebuilt);
            var end := Advanced(loaded, call, false, 0, rebuilt);
            end.index == rebuilt && end.table == s.table && end.calls[call] == Reloaded
  {
  }
}
