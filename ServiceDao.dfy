/**
 * repository/ServiceDao.kt: the Room `services` table as an in-memory keyed
 * table. `lastId` plays the part of SQLite's AUTOINCREMENT counter: the
 * largest id the table has ever held.
 */
module ServiceDao {
  import opened Wrappers
  import opened ServiceModel

  datatype Table = Table(rows: map<int, ServiceEntity>, lastId: int)

  /** Every row is stored under its own id, which is never 0 and never above `lastId`. */
  predicate ValidTable(t: Table) {
    t.lastId >= 0
    && forall k :: k in t.rows ==> t.rows[k].id == k && k != 0 && k <= t.lastId
  }

  function EmptyTable(): (t: Table)
    ensures ValidTable(t) && t.rows == map[]
  {
    Table(map[], 0)
  }

  /**
   * `@Insert(onConflict = REPLACE)`. Room binds an id of 0 as NULL, so the row
   * gets the next auto-generated id; any other id replaces the row it names.
   */
  function Insert(t: Table, e: ServiceEntity): (r: Table)
    requires ValidTable(t)
    ensures ValidTable(r)
    ensures e.id == 0 ==> r.lastId !in t.rows && r.rows == t.rows[r.lastId := e.(id := r.lastId)]
    ensures e.id != 0 ==> r.rows == t.rows[e.id := e]
  {
    if e.id == 0 then
      var id := t.lastId + 1;
      Table(t.rows[id := e.(id := id)], id)
    else
      Table(t.rows[e.id := e], if e.id > t.lastId then e.id else t.lastId)
  }

  /** `@Update`: overwrites the row with the same id; does nothing when there is none. */
  function Update(t: Table, e: ServiceEntity): (r: Table)
    requires ValidTable(t)
    ensures ValidTable(r)
    ensures e.id in t.rows ==> r.rows == t.rows[e.id := e]
    ensures e.id !in t.rows ==> r == t
  {
    if e.id in t.rows then Table(t.rows[e.id := e], t.lastId) else t
  }

  /** `@Delete`: removes the row with the entity's primary key, if any. */
  function Delete(t: Table, e: ServiceEntity): (r: Table)
    requires ValidTable(t)
    ensures ValidTable(r)
    ensures r.rows.Keys == t.rows.Keys - {e.id}
    ensures forall k :: k in r.rows ==> r.rows[k] == t.rows[k]
  {
    Table(t.rows - {e.id}, t.lastId)
  }

  /** `DELETE FROM services`. The AUTOINCREMENT counter survives. */
  function DeleteAll(t: Table): (r: Table)
    requires ValidTable(t)
    ensures ValidTable(r) && r.rows == map[] && r.lastId == t.lastId
  {
    Table(map[], t.lastId)
  }

  /** `SELECT * FROM services WHERE id = :id LIMIT 1`. */
  function GetById(t: Table, id: int): (r: Option<ServiceEntity>)
    ensures r.Some? <==> id in t.rows
    ensures r.Some? ==> r.value == t.rows[id]
  {
    if id in t.rows then Some(t.rows[id]) else None
  }

  /**
   * A result of `SELECT * FROM services`: every row exactly once. There is no
   * ORDER BY, so any order is a correct answer.
   */
  predicate IsEnumeration(r: seq<ServiceEntity>, rows: map<int, ServiceEntity>) {
    |r| == |rows|
    && (forall i :: 0 <= i < |r| ==> r[i].id in rows && rows[r[i].id] == r[i])
    && (forall i, j :: 0 <= i < j < |r| ==> r[i].id != r[j].id)
    && (forall k :: k in rows ==> rows[k] in r)
  }

  /** A set is empty or has a member; lets a loop pick the next key. */
  lemma EmptyOrMember(s: set<int>)
    ensures s == {} || exists k :: k in s
  {
    if !exists k :: k in s {
      assert s == {};
    }
  }

  /** An insert with id 0 adds one row under a fresh id and leaves every existing row alone. */
  lemma InsertAutoIdIsFresh(t: Table, e: ServiceEntity)
    requires ValidTable(t) && e.id == 0
    ensures var r := Insert(t, e);
      r.lastId > t.lastId && r.lastId !in t.rows
      && |r.rows| == |t.rows| + 1
      && (forall k :: k in t.rows ==> k in r.rows && r.rows[k] == t.rows[k])
      && GetById(r, r.lastId) == Some(e.(id := r.lastId))
  {
    var r := Insert(t, e);
    assert r.rows.Keys == t.rows.Keys + {r.lastId};
  }

  /** An insert with an id already present replaces that row and only that row. */
  lemma InsertReplaces(t: Table, e: ServiceEntity)
    requires ValidTable(t) && e.id != 0
    ensures var r := Insert(t, e);
      GetById(r, e.id) == Some(e)
      && (forall k :: k != e.id ==> GetById(r, k) == GetById(t, k))
      && (e.id in t.rows ==> |r.rows| == |t.rows|)
  {
    var r := Insert(t, e);
    if e.id in t.rows {
      assert r.rows.Keys == t.rows.Keys;
    }
  }

  /** Reading a row back after an update gives the update when the row exists. */
  lemma UpdateThenGet(t: Table, e: ServiceEntity, id: int)
    requires ValidTable(t)
    ensures GetById(Update(t, e), id) ==
      if id == e.id && e.id in t.rows then Some(e) else GetById(t, id)
  {
  }

  /** Two updates of the same row: the later one is all that remains. */
  lemma UpdateLastWins(t: Table, a: ServiceEntity, b: ServiceEntity)
    requires ValidTable(t) && a.id == b.id
    ensures Update(Update(t, a), b) == Update(t, b)
  {
    if a.id in t.rows {
      assert t.rows[a.id := a][b.id := b] == t.rows[b.id := b];
    }
  }

  /** After a delete the row is gone and every other row can still be read. */
  lemma DeleteThenGet(t: Table, e: ServiceEntity, id: int)
    requires ValidTable(t)
    ensures GetById(Delete(t, e), id) == if id == e.id then None else GetById(t, id)
  {
  }

  /**
   * The services table. Its methods keep `ValidTable` and are specified by the
   * functions above.
   */
  class ServiceDao {
    var rows: map<int, ServiceEntity>
    var lastId: int

    function Tab(): Table
      reads this
    {
      Table(rows, lastId)
    }

    predicate Valid()
      reads this
    {
      ValidTable(Tab())
    }

    constructor ()
      ensures Valid() && Tab() == EmptyTable()
    {
      rows := map[];
      lastId := 0;
    }

    method InsertService(e: ServiceEntity)
      requires Valid()
      modifies this
      ensures Valid() && Tab() == Insert(old(Tab()), e)
    {
      if e.id == 0 {
        lastId := lastId + 1;
        rows := rows[lastId := e.(id := lastId)];
      } else {
        rows := rows[e.id := e];
        if e.id > lastId {
          lastId := e.id;
        }
      }
    }

    method UpdateService(e: ServiceEntity)
      requires Valid()
      modifies this
      ensures Valid() && Tab() == Update(old(Tab()), e)
    {
      if e.id in rows {
        rows := rows[e.id := e];
      }
    }

    method DeleteService(e: ServiceEntity)
      requires Valid()
      modifies this
      ensures Valid() && Tab() == Delete(old(Tab()), e)
    {
      rows := rows - {e.id};
    }

    method DeleteAllServices()
      requires Valid()
      modifies this
      ensures Valid() && Tab() == DeleteAll(old(Tab()))
    {
      rows := map[];
    }

    method GetServiceById(id: int) returns (r: Option<ServiceEntity>)
      requires Valid()
      ensures r.Some? <==> id in rows
      ensures r.Some? ==> r.value.id == id && r.value == rows[id]
    {
      if id in rows {
        r := Some(rows[id]);
      } else {
        r := None;
      }
    }

    /** `getAllServices`: the rows in whatever order the table scan yields them. */
    method GetAllServices() returns (r: seq<ServiceEntity>)
      requires Valid()
      ensures IsEnumeration(r, rows)
    {
      r := [];
      var remaining := rows.Keys;
      while |remaining| > 0
        invariant remaining <= rows.Keys
        invariant |r| + |remaining| == |rows|
        invariant forall i :: 0 <= i < |r| ==> r[i].id in rows && r[i].id !in remaining && rows[r[i].id] == r[i]
        invariant forall i, j :: 0 <= i < j < |r| ==> r[i].id != r[j].id
        invariant forall k :: k in rows && k !in remaining ==> rows[k] in r
        decreases |remaining|
      {
        EmptyOrMember(remaining);
        var k :| k in remaining;
        r := r + [rows[k]];
        remaining := remaining - {k};
      }
    }
  }
}
