/**
 The two-way index between device UUIDs and small numeric ids, and the table behind it. Calls made one
 at a time keep the index equal to the table restricted to ids that fit 16 bits.
 */
module UuidCache {
  import opened Base

  type Uuid = nat

  datatype Row = Row(id: I32, softDelete: bool)

  type Table = map<Uuid, Row>

  datatype Slot = Slot(id: I16, softDelete: bool)

  datatype Owner = Owner(uuid: Uuid, softDelete: bool)

  datatype Index = Index(byUuid: map<Uuid, Slot>, byId: map<I16, Owner>)

  datatype Result<T> = Ok(value: T) | Err

  /** `id` is the primary key of the table. */
  ghost predicate KeysUnique(t: Table) {
    forall u, v :: u in t && v in t && t[u].id == t[v].id ==> u == v
  }

  predicate Fits(id: I32) {
    -TWO_15 <= id < TWO_15
  }

  function TryIdI16(id: I32): (r: Option<I16>)
    ensures r.Some? <==> Fits(id)
    ensures r.Some? ==> r.value == id
  {
    if Fits(id) then Some(id) else None
  }

  /** The write under the lock: both directions at once. */
  function Put(ix: Index, uuid: Uuid, id: I16, softDelete: bool): Index {
    Index(ix.byUuid[uuid := Slot(id, softDelete)], ix.byId[id := Owner(uuid, softDelete)])
  }

  // ---- What the index should be ----

  ghost predicate Agrees(ix: Index, t: Table) {
    && (forall u :: u in ix.byUuid <==> u in t && Fits(t[u].id))
    && (forall u :: u in ix.byUuid ==> ix.byUuid[u] == Slot(t[u].id, t[u].softDelete))
    && (forall i :: i in ix.byId ==> ix.byId[i].uuid in t && t[ix.byId[i].uuid] == Row(i, ix.byId[i].softDelete))
    && (forall u :: u in t && Fits(t[u].id) ==> t[u].id in ix.byId)
  }

  /** The two maps are exact mirrors of each other. */
  ghost predicate Mirrored(ix: Index) {
    && (forall u :: u in ix.byUuid ==>
          ix.byUuid[u].id in ix.byId && ix.byId[ix.byUuid[u].id] == Owner(u, ix.byUuid[u].softDelete))
    && (forall i :: i in ix.byId ==>
          ix.byId[i].uuid in ix.byUuid && ix.byUuid[ix.byId[i].uuid] == Slot(i, ix.byId[i].softDelete))
  }

  /** Agreement determines the index completely, and makes the two maps mirrors. */
  lemma AgreementIsExact(a: Index, b: Index, t: Table)
    requires KeysUnique(t) && Agrees(a, t)
    ensures Mirrored(a)
    ensures Agrees(b, t) ==> a == b
  {
    if Agrees(b, t) {
      assert a.byUuid == b.byUuid;
      forall i
        ensures i in a.byId <==> i in b.byId
        ensures i in a.byId && i in b.byId ==> a.byId[i] == b.byId[i]
      {
        if i in a.byId { assert t[a.byId[i].uuid].id == i; }
        if i in b.byId { assert t[b.byId[i].uuid].id == i; }
      }
      assert a.byId == b.byId;
    }
  }

  lemma PutKeepsAgreement(ix: Index, t: Table, uuid: Uuid, id: I16, softDelete: bool)
    requires KeysUnique(t) && Agrees(ix, t)
    requires uuid in t ==> t[uuid].id == id
    requires KeysUnique(t[uuid := Row(id, softDelete)])
    ensures Agrees(Put(ix, uuid, id, softDelete), t[uuid := Row(id, softDelete)])
  {
    var t', ix' := t[uuid := Row(id, softDelete)], Put(ix, uuid, id, softDelete);
    forall i | i in ix'.byId
      ensures ix'.byId[i].uuid in t' && t'[ix'.byId[i].uuid] == Row(i, ix'.byId[i].softDelete)
    {
      if i != id && ix.byId[i].uuid == uuid {
        assert false;
      }
    }
  }

  // ---- Building from rows ----

  datatype Model = Model(id: I32, uuid: Uuid, softDelete: bool)

  ghost predicate Lists(models: seq<Model>, t: Table) {
    && (forall i :: 0 <= i < |models| ==> models[i].uuid in t && t[models[i].uuid] == Row(models[i].id, models[i].softDelete))
    && forall u :: u in t ==> exists i :: 0 <= i < |models| && models[i].uuid == u
  }

  ghost function RowsOf(models: seq<Model>): Table {
    if models == [] then map[]
    else RowsOf(Front(models))[Last(models).uuid := Row(Last(models).id, Last(models).softDelete)]
  }

  lemma {:induction false} RowsOfListing(models: seq<Model>, t: Table, n: nat)
    requires n <= |models| && Lists(models, t)
    ensures forall u :: u in RowsOf(models[..n]) ==> u in t && RowsOf(models[..n])[u] == t[u]
    ensures forall i :: 0 <= i < n ==> models[i].uuid in RowsOf(models[..n])
  {
    if n > 0 {
      RowsOfListing(models, t, n - 1);
      assert Front(models[..n]) == models[..n - 1];
    }
  }

  // ---- One call at a time ----

  /** Which database accesses of a call fail. */
  datatype Faults = Faults(noDb: bool, find: bool, write: bool)

  datatype World = World(table: Table, index: Index)

  function GetOrInsertSpec(w: World, uuid: Uuid, f: Faults, newId: I32): (World, Result<I16>) {
    if uuid in w.index.byUuid && !w.index.byUuid[uuid].softDelete then (w, Ok(w.index.byUuid[uuid].id))
    else if f.noDb || f.find then (w, Err)
    else if uuid in w.table then
      var row := w.table[uuid];
      if !Fits(row.id) then (w, Err)
      else if row.softDelete && f.write then (w, Err)
      else (World(w.table[uuid := Row(row.id, false)], Put(w.index, uuid, row.id, false)), Ok(row.id))
    else if f.write then (w, Err)
    else
      var table := w.table[uuid := Row(newId, false)];
      if !Fits(newId) then (World(table, w.index), Err)
      else (World(table, Put(w.index, uuid, newId, false)), Ok(newId))
  }

  function SoftDeleteSpec(w: World, uuid: Uuid, f: Faults): (World, Result<bool>) {
    if f.noDb || f.find then (w, Err)
    else if uuid !in w.table then (w, Ok(false))
    else if w.table[uuid].softDelete then (w, Ok(true))
    else if !Fits(w.table[uuid].id) || f.write then (w, Err)
    else
      (World(w.table[uuid := Row(w.table[uuid].id, true)], Put(w.index, uuid, w.table[uuid].id, true)), Ok(true))
  }

  ghost predicate FreshId(t: Table, newId: I32) {
    forall u :: u in t ==> t[u].id != newId
  }

  ghost predicate InStep(w: World) {
    KeysUnique(w.table) && Agrees(w.index, w.table)
  }

  /** When a call succeeds: the cached active id, or a found or new row whose id fits. */
  predicate Succeeds(w: World, uuid: Uuid, f: Faults, newId: I32) {
    var id := if uuid in w.table then w.table[uuid].id else newId;
    && -32768 <= id <= 32767
    && ((uuid in w.table && !w.table[uuid].softDelete) || (!f.noDb && !f.find && !f.write))
  }

  /** `get_or_insert` touches only its own row, and never the id of a row. */
  ghost predicate OnlyRow(w: World, w': World, uuid: Uuid) {
    && (forall u :: u in w.table ==> u in w'.table && w'.table[u].id == w.table[u].id)
    && (forall u :: u in w'.table && u != uuid ==> u in w.table && w'.table[u] == w.table[u])
  }

  ghost predicate ActiveInBoth(w: World, uuid: Uuid, id: I16) {
    && uuid in w.table && w.table[uuid] == Row(id, false)
    && uuid in w.index.byUuid && w.index.byUuid[uuid] == Slot(id, false)
    && id in w.index.byId && w.index.byId[id] == Owner(uuid, false)
  }

  lemma GetOrInsertStaysInStep(w: World, uuid: Uuid, f: Faults, newId: I32)
    requires InStep(w) && FreshId(w.table, newId)
    ensures InStep(GetOrInsertSpec(w, uuid, f, newId).0)
  {
    var (w', r) := GetOrInsertSpec(w, uuid, f, newId);
    if r.Ok? && w' != w {
      PutKeepsAgreement(w.index, w.table, uuid, r.value, false);
    }
  }

  /**
   A call of `get_or_insert` keeps the index equal to the table and touches no other row. It succeeds exactly
   when it should, and then the UUID is active in both with the id it has always had.
   */
  lemma GetOrInsertKeepsStep(w: World, uuid: Uuid, f: Faults, newId: I32)
    requires InStep(w) && FreshId(w.table, newId)
    ensures var (w', r) := GetOrInsertSpec(w, uuid, f, newId);
            && InStep(w')
            && OnlyRow(w, w', uuid)
            && (r.Ok? <==> Succeeds(w, uuid, f, newId))
            && (r.Ok? ==> ActiveInBoth(w', uuid, r.value))
            && (r.Ok? ==> r.value == if uuid in w.table then w.table[uuid].id else newId)
            && (r.Err? && uuid in w.table ==> w' == w)
            && (r.Err? && uuid !in w.table ==>
                  w' == if f.noDb || f.find || f.write then w else w.(table := w.table[uuid := Row(newId, false)]))
  {
    GetOrInsertStaysInStep(w, uuid, f, newId);
  }

  /** When a UUID counts as deleted: it was already, or its row can be found, its id fits and the write succeeds. */
  predicate Deletes(w: World, uuid: Uuid, f: Faults) {
    && !f.noDb && !f.find && uuid in w.table
    && (w.table[uuid].softDelete || (-32768 <= w.table[uuid].id <= 32767 && !f.write))
  }

  /** A call of `soft_delete` keeps the index equal to the table and marks the UUID in both. */
  lemma SoftDeleteKeepsStep(w: World, uuid: Uuid, f: Faults)
    requires InStep(w)
    ensures var (w', r) := SoftDeleteSpec(w, uuid, f);
            && InStep(w')
            && w'.table.Keys == w.table.Keys
            && (forall u :: u in w.table ==> w'.table[u].id == w.table[u].id)
            && (forall u :: u in w.table && u != uuid ==> w'.table[u] == w.table[u])
            && (r == Ok(true) <==> Deletes(w, uuid, f))
            && (r == Ok(false) <==> !f.noDb && !f.find && uuid !in w.table)
            && (r == Ok(true) ==> uuid in w'.table && w'.table[uuid].softDelete
                                  && (Fits(w'.table[uuid].id) ==> w'.index.byUuid[uuid].softDelete))
            && (r == Ok(false) ==> uuid !in w'.table && uuid !in w'.index.byUuid && w' == w)
            && (r.Err? ==> w' == w)
  {
    var (w', r) := SoftDeleteSpec(w, uuid, f);
    if w' != w {
      PutKeepsAgreement(w.index, w.table, uuid, w.table[uuid].id, true);
    }
  }

  // ---- Runs of calls ----

  datatype Call =
    | GetOrInsert(uuid: Uuid, faults: Faults, newId: I32)
    | SoftDelete(uuid: Uuid, faults: Faults)
    | Reload(rebuilt: Index)

  /** A reload installs the index built from all rows. */
  ghost predicate Possible(w: World, c: Call) {
    match c
    case GetOrInsert(_, _, newId) => FreshId(w.table, newId)
    case SoftDelete(_, _) => true
    case Reload(ix) => Agrees(ix, w.table)
  }

  function Called(w: World, c: Call): World {
    match c
    case GetOrInsert(u, f, newId) => GetOrInsertSpec(w, u, f, newId).0
    case SoftDelete(u, f) => SoftDeleteSpec(w, u, f).0
    case Reload(ix) => w.(index := ix)
  }

  ghost predicate IsRun(worlds: seq<World>, calls: seq<Call>) {
    && |worlds| == |calls| + 1
    && forall i :: 0 <= i < |calls| ==> Possible(worlds[i], calls[i]) && worlds[i + 1] == Called(worlds[i], calls[i])
  }

  /** In every state reachable by calls made one at a time, the index equals the restricted table. */
  lemma {:induction false} IndexEqualsTable(worlds: seq<World>, calls: seq<Call>, n: nat)
    requires IsRun(worlds, calls) && n < |worlds|
    requires InStep(worlds[0])
    ensures InStep(worlds[n])
    ensures forall u :: u in worlds[0].table ==> u in worlds[n].table && worlds[n].table[u].id == worlds[0].table[u].id
  {
    if n > 0 {
      IndexEqualsTable(worlds, calls, n - 1);
      var w := worlds[n - 1];
      assert worlds[n - 1 + 1] == Called(w, calls[n - 1]);
      match calls[n - 1]
      case GetOrInsert(u, f, newId) => GetOrInsertKeepsStep(w, u, f, newId);
      case SoftDelete(u, f) => SoftDeleteKeepsStep(w, u, f);
      case Reload(ix) =>
    }
  }

  // ---- The cache and the table as objects ----

  class UuidTable {
    var rows: Table

    method Find(uuid: Uuid, fails: bool) returns (r: Result<Option<Row>>)
      ensures r == if fails then Err else Ok(if uuid in rows then Some(rows[uuid]) else None)
    {
      if fails {
        return Err;
      }
      if uuid in rows {
        return Ok(Some(rows[uuid]));
      }
      return Ok(None);
    }

    method Update(uuid: Uuid, softDelete: bool, fails: bool) returns (ok: bool)
      requires uuid in rows
      modifies this
      ensures ok == !fails
      ensures rows == if fails then old(rows) else old(rows)[uuid := old(rows)[uuid].(softDelete := softDelete)]
    {
      if !fails {
        rows := rows[uuid := rows[uuid].(softDelete := softDelete)];
      }
      return !fails;
    }

    method Insert(uuid: Uuid, newId: I32, fails: bool) returns (ok: bool)
      requires uuid !in rows
      modifies this
      ensures ok == !fails
      ensures rows == if fails then old(rows) else old(rows)[uuid := Row(newId, false)]
    {
      if !fails {
        rows := rows[uuid := Row(newId, false)];
      }
      return !fails;
    }
  }

  class MonitoringUuidCache {
    var byUuid: map<Uuid, Slot>
    var byId: map<I16, Owner>

    ghost function Value(): Index
      reads this
    {
      Index(byUuid, byId)
    }

    constructor BuildCache(models: seq<Model>, ghost t: Table)
      requires KeysUnique(t) && Lists(models, t)
      ensures Agrees(Value(), t)
    {
      byUuid, byId := map[], map[];
      new;
      Fill(models, t);
    }

    /** The loop shared by building and reloading. */
    method Fill(models: seq<Model>, ghost t: Table)
      requires KeysUnique(t) && Lists(models, t)
      modifies this
      ensures Agrees(Value(), t)
    {
      var newByUuid: map<Uuid, Slot>, newById: map<I16, Owner> := map[], map[];
      for i := 0 to |models|
        invariant Agrees(Index(newByUuid, newById), RowsOf(models[..i]))
      {
        RowsOfListing(models, t, i);
        RowsOfListing(models, t, i + 1);
        assert Front(models[..i + 1]) == models[..i];
        var model := models[i];
        ghost var before := RowsOf(models[..i]);
        var id := TryIdI16(model.id);
        if id.None? {
          assert model.uuid in before ==> before[model.uuid].id == model.id;
          continue;
        }
        PutKeepsAgreement(Index(newByUuid, newById), before, model.uuid, id.value, model.softDelete);
        newByUuid := newByUuid[model.uuid := Slot(id.value, model.softDelete)];
        newById := newById[id.value := Owner(model.uuid, model.softDelete)];
      }
      RowsOfListing(models, t, |models|);
      assert RowsOf(models[..|models|]) == t;
      byUuid, byId := newByUuid, newById;
    }

    method GetId(uuid: Uuid) returns (r: Option<I16>)
      ensures r == if uuid in byUuid then Some(byUuid[uuid].id) else None
      ensures Mirrored(Value()) && r.Some? ==> r.value in byId && byId[r.value].uuid == uuid
    {
      if uuid in byUuid {
        return Some(byUuid[uuid].id);
      }
      return None;
    }

    method GetUuid(id: I16) returns (r: Option<Uuid>)
      ensures r == if id in byId then Some(byId[id].uuid) else None
      ensures Mirrored(Value()) && r.Some? ==> r.value in byUuid && byUuid[r.value].id == id
    {
      if id in byId {
        return Some(byId[id].uuid);
      }
      return None;
    }

    method GetOrInsert(db: UuidTable, uuid: Uuid, f: Faults, newId: I32) returns (r: Result<I16>)
      modifies this, db
      ensures (World(db.rows, Value()), r) == GetOrInsertSpec(old(World(db.rows, Value())), uuid, f, newId)
    {
      if uuid in byUuid && !byUuid[uuid].softDelete {
        return Ok(byUuid[uuid].id);
      }
      if f.noDb {
        return Err;
      }
      var existing := db.Find(uuid, f.find);
      if existing.Err? {
        return Err;
      }
      if existing.value.Some? {
        var model := existing.value.value;
        var id := TryIdI16(model.id);
        if id.None? {
          return Err;
        }
        if model.softDelete {
          var ok := db.Update(uuid, false, f.write);
          if !ok {
            return Err;
          }
        } else {
          assert db.rows == db.rows[uuid := Row(model.id, false)];
        }
        byUuid, byId := byUuid[uuid := Slot(id.value, false)], byId[id.value := Owner(uuid, false)];
        return Ok(id.value);
      }
      var inserted := db.Insert(uuid, newId, f.write);
      if !inserted {
        return Err;
      }
      var id := TryIdI16(newId);
      if id.None? {
        return Err;
      }
      byUuid, byId := byUuid[uuid := Slot(id.value, false)], byId[id.value := Owner(uuid, false)];
      return Ok(id.value);
    }

    method SoftDelete(db: UuidTable, uuid: Uuid, f: Faults) returns (r: Result<bool>)
      modifies this, db
      ensures (World(db.rows, Value()), r) == SoftDeleteSpec(old(World(db.rows, Value())), uuid, f)
    {
      if f.noDb {
        return Err;
      }
      var existing := db.Find(uuid, f.find);
      if existing.Err? {
        return Err;
      }
      if existing.value.None? {
        return Ok(false);
      }
      var model := existing.value.value;
      if model.softDelete {
        return Ok(true);
      }
      var id := TryIdI16(model.id);
      if id.None? {
        return Err;
      }
      var ok := db.Update(uuid, true, f.write);
      if !ok {
        return Err;
      }
      byUuid, byId := byUuid[uuid := Slot(id.value, true)], byId[id.value := Owner(uuid, true)];
      return Ok(true);
    }
  }
}
