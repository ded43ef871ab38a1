/**
 * repository/ServiceRepository.kt: the app-facing store of services. Every
 * write converts with `toEntity`, every read with `toModel`.
 */
module ServiceRepository {
  import opened Wrappers
  import opened ServiceModel
  import opened ServiceDao

  /** What a read returns for a service once it is written: its eight fields. */
  function Stored(s: Service): Service {
    ToModel(ToEntity(s))
  }

  /**
   * What `insertService(s)` does to the table: the service lands under its own
   * id, or under a fresh one when its id is 0, and no other row changes.
   */
  function InsertModel(t: Table, s: Service): (r: Table)
    requires ValidTable(t)
    ensures ValidTable(r)
    ensures var w := if s.id == 0 then r.lastId else s.id;
      && (s.id == 0 ==> w !in t.rows)
      && r.rows.Keys == t.rows.Keys + {w}
      && GetService(r, w) == Some(Stored(s).(id := w))
      && forall k :: k in t.rows && k != w ==> r.rows[k] == t.rows[k]
  {
    Insert(t, ToEntity(s))
  }

  /**
   * What `updateService(s)` does to the table: the row with the service's id
   * reads back as the service; without such a row nothing changes.
   */
  function UpdateModel(t: Table, s: Service): (r: Table)
    requires ValidTable(t)
    ensures ValidTable(r)
    ensures r.rows.Keys == t.rows.Keys
    ensures s.id in t.rows ==> GetService(r, s.id) == Some(Stored(s))
    ensures s.id !in t.rows ==> r == t
    ensures forall k :: k in t.rows && k != s.id ==> r.rows[k] == t.rows[k]
  {
    Update(t, ToEntity(s))
  }

  /** `archiveService(s)`: writes the snapshot `s` with `archived = true`. */
  function Archive(t: Table, s: Service): (r: Table)
    requires ValidTable(t)
    ensures ValidTable(r)
    ensures r.rows.Keys == t.rows.Keys
    ensures s.id in t.rows ==> GetService(r, s.id) == Some(Stored(s).(archived := true))
    ensures s.id !in t.rows ==> r == t
    ensures forall k :: k in t.rows && k != s.id ==> r.rows[k] == t.rows[k]
  {
    Update(t, ToEntity(s.(archived := true)))
  }

  /** `unarchiveService(s)`: writes the snapshot `s` with `archived = false`. */
  function Unarchive(t: Table, s: Service): (r: Table)
    requires ValidTable(t)
    ensures ValidTable(r)
    ensures r.rows.Keys == t.rows.Keys
    ensures s.id in t.rows ==> GetService(r, s.id) == Some(Stored(s).(archived := false))
    ensures s.id !in t.rows ==> r == t
    ensures forall k :: k in t.rows && k != s.id ==> r.rows[k] == t.rows[k]
  {
    Update(t, ToEntity(s.(archived := false)))
  }

  /** `getServiceById(id)`: the row with that id through `toModel`, or null. */
  function GetService(t: Table, id: int): (r: Option<Service>)
    requires ValidTable(t)
    ensures r.Some? <==> id in t.rows
    ensures r.Some? ==> r.value.id == id && r.value == ToModel(t.rows[id])
    ensures r.Some? ==> ServiceExtrasDefault(r.value)
  {
    match GetById(t, id)
    case None => None
    case Some(e) => Some(ToModel(e))
  }

  /** The services of the import loop in ServiceListViewModel, inserted one by one. */
  function InsertAll(t: Table, services: seq<Service>): (r: Table)
    requires ValidTable(t)
    ensures ValidTable(r)
    decreases |services|
  {
    if |services| == 0 then t else InsertAll(InsertModel(t, services[0]), services[1..])
  }

  /** A result of `getAllServices`: every row through `toModel`, each once. */
  predicate IsServiceList(r: seq<Service>, rows: map<int, ServiceEntity>) {
    |r| == |rows|
    && (forall i :: 0 <= i < |r| ==> r[i].id in rows && r[i] == ToModel(rows[r[i].id]))
    && (forall i, j :: 0 <= i < j < |r| ==> r[i].id != r[j].id)
    && (forall k :: k in rows ==> ToModel(rows[k]) in r)
  }

  /** `map { it.toModel() }`. */
  function ToModels(entities: seq<ServiceEntity>): (r: seq<Service>)
    ensures |r| == |entities|
    ensures forall i :: 0 <= i < |r| ==> r[i] == ToModel(entities[i])
  {
    seq(|entities|, i requires 0 <= i < |entities| => ToModel(entities[i]))
  }

  /** Converting an enumeration of the rows gives every stored service once. */
  lemma EnumerationToModels(entities: seq<ServiceEntity>, rows: map<int, ServiceEntity>)
    requires IsEnumeration(entities, rows)
    ensures IsServiceList(ToModels(entities), rows)
  {
    var r := ToModels(entities);
    forall k | k in rows ensures ToModel(rows[k]) in r {
      var i :| 0 <= i < |entities| && entities[i] == rows[k];
      assert r[i] == ToModel(rows[k]);
    }
  }

  /**
   * The arguments `updateServiceOrder` passes to `swapServicePositions`: the
   * service's id and position, the id of the row found at that position (-1
   * when there is none) and the position after it. `atPosition` stands for
   * the result of `getServiceByPosition`, whose query is not part of this model.
   */
  datatype SwapRequest = SwapRequest(id: int, position: int, otherId: int, newPosition: int)

  function OrderSwap(s: Service, atPosition: Option<ServiceEntity>): (r: SwapRequest)
    ensures r.id == s.id && r.position == s.position && r.newPosition == s.position + 1
    ensures r.otherId == (if atPosition.Some? then atPosition.value.id else -1)
  {
    SwapRequest(s.id, s.position, match atPosition case Some(e) => e.id case None => -1, s.position + 1)
  }

  /**
   * A service read from the repository has position 0, since `toModel` does
   * not copy it: its reorder request always swaps positions 0 and 1.
   */
  lemma OrderSwapOfStoredService(t: Table, id: int, atPosition: Option<ServiceEntity>)
    requires ValidTable(t) && id in t.rows
    ensures var r := OrderSwap(GetService(t, id).value, atPosition);
      r.id == id && r.position == 0 && r.newPosition == 1
  {
  }

  /** A written row holds `toEntity` of the service: the columns it lacks are defaults. */
  lemma WritesStoreDefaults(t: Table, s: Service)
    requires ValidTable(t) && s.id != 0
    ensures s.id in InsertModel(t, s).rows
    ensures EntityExtrasDefault(InsertModel(t, s).rows[s.id])
    ensures SameCore(s, InsertModel(t, s).rows[s.id])
    ensures s.id in t.rows ==> EntityExtrasDefault(UpdateModel(t, s).rows[s.id])
    ensures s.id in t.rows ==> EntityExtrasDefault(Archive(t, s).rows[s.id])
  {
  }

  /** Archiving twice is archiving once, and likewise for unarchiving. */
  lemma ArchiveIdempotent(t: Table, s: Service)
    requires ValidTable(t)
    ensures Archive(Archive(t, s), s) == Archive(t, s)
    ensures Unarchive(Unarchive(t, s), s) == Unarchive(t, s)
  {
    UpdateLastWins(t, ToEntity(s.(archived := true)), ToEntity(s.(archived := true)));
    UpdateLastWins(t, ToEntity(s.(archived := false)), ToEntity(s.(archived := false)));
  }

  /** Of an archive and an unarchive of the same snapshot, the later one decides. */
  lemma ArchiveLastWins(t: Table, s: Service)
    requires ValidTable(t)
    ensures Unarchive(Archive(t, s), s) == Unarchive(t, s)
    ensures Archive(Unarchive(t, s), s) == Archive(t, s)
  {
    UpdateLastWins(t, ToEntity(s.(archived := true)), ToEntity(s.(archived := false)));
    UpdateLastWins(t, ToEntity(s.(archived := false)), ToEntity(s.(archived := true)));
  }

  /**
   * Inserting services whose ids are all 0 (every imported service) never
   * overwrites a row: each adds one new row and the old rows stay as they were.
   */
  lemma {:induction false} InsertAllFresh(t: Table, services: seq<Service>)
    requires ValidTable(t)
    requires forall i :: 0 <= i < |services| ==> services[i].id == 0
    ensures var r := InsertAll(t, services);
      |r.rows| == |t.rows| + |services|
      && (forall k :: k in t.rows ==> k in r.rows && r.rows[k] == t.rows[k])
    decreases |services|
  {
    if |services| > 0 {
      var t1 := InsertModel(t, services[0]);
      InsertAutoIdIsFresh(t, ToEntity(services[0]));
      InsertAllFresh(t1, services[1..]);
    }
  }

  /** The repository; `dao` is the table it writes through. */
  class ServiceRepository {
    const dao: ServiceDao

    constructor (dao: ServiceDao)
      ensures this.dao == dao
    {
      this.dao := dao;
    }

    predicate Valid()
      reads this, dao
    {
      dao.Valid()
    }

    method InsertService(s: Service)
      requires Valid()
      modifies dao
      ensures Valid() && dao.Tab() == InsertModel(old(dao.Tab()), s)
    {
      dao.InsertService(ToEntity(s));
    }

    method GetAllServices() returns (r: seq<Service>)
      requires Valid()
      ensures IsServiceList(r, dao.rows)
    {
      var entities := dao.GetAllServices();
      r := ToModels(entities);
      EnumerationToModels(entities, dao.rows);
    }

    method UpdateService(s: Service)
      requires Valid()
      modifies dao
      ensures Valid() && dao.Tab() == UpdateModel(old(dao.Tab()), s)
    {
      dao.UpdateService(ToEntity(s));
    }

    method GetServiceById(id: int) returns (r: Option<Service>)
      requires Valid()
      ensures r == GetService(dao.Tab(), id)
      ensures r.Some? ==> r.value.id == id && ServiceExtrasDefault(r.value)
    {
      var e := dao.GetServiceById(id);
      r := match e case Some(row) => Some(ToModel(row)) case None => None;
    }

    method RemoveService(s: Service)
      requires Valid()
      modifies dao
      ensures Valid() && dao.Tab() == Delete(old(dao.Tab()), ToEntity(s))
    {
      dao.DeleteService(ToEntity(s));
    }

    method ArchiveService(s: Service)
      requires Valid()
      modifies dao
      ensures Valid() && dao.Tab() == Archive(old(dao.Tab()), s)
    {
      var archived := s.(archived := true);
      dao.UpdateService(ToEntity(archived));
    }

    method UnarchiveService(s: Service)
      requires Valid()
      modifies dao
      ensures Valid() && dao.Tab() == Unarchive(old(dao.Tab()), s)
    {
      var unarchived := s.(archived := false);
      dao.UpdateService(ToEntity(unarchived));
    }

    method RemoveAll()
      requires Valid()
      modifies dao
      ensures Valid() && dao.Tab() == DeleteAll(old(dao.Tab()))
    {
      dao.DeleteAllServices();
    }
  }
}
