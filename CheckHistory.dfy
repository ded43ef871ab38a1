/**
 * repository/CheckHistoryDao.kt and repository/HistoryRepository.kt: the
 * `check_history` table as a log in insertion order, and its newest-first
 * paged query.
 */
module CheckHistory {
  import opened ServiceModel

  /** The rows in insertion order, and the AUTOINCREMENT counter. */
  datatype Log = Log(records: seq<CheckHistoryEntity>, lastId: int)

  /** Ids are distinct, never 0 and never above `lastId`. */
  predicate ValidLog(l: Log) {
    l.lastId >= 0
    && (forall i :: 0 <= i < |l.records| ==> l.records[i].id != 0 && l.records[i].id <= l.lastId)
    && (forall i, j :: 0 <= i < j < |l.records| ==> l.records[i].id != l.records[j].id)
  }

  /** The position of the row with primary key `id`, or -1. */
  function FindId(records: seq<CheckHistoryEntity>, id: int): (r: int)
    ensures -1 <= r < |records|
    ensures r >= 0 ==> records[r].id == id
    ensures r == -1 ==> forall i :: 0 <= i < |records| ==> records[i].id != id
  {
    if |records| == 0 then -1
    else if records[|records| - 1].id == id then |records| - 1
    else FindId(records[..|records| - 1], id)
  }

  /**
   * `@Insert(onConflict = REPLACE)`: id 0 gets the next generated id and is
   * appended; an id already present replaces that row; any other id is
   * appended as given.
   */
  function InsertRecord(l: Log, e: CheckHistoryEntity): (r: Log)
    requires ValidLog(l)
    ensures ValidLog(r)
    ensures e.id == 0 ==> r.records == l.records + [e.(id := r.lastId)]
    ensures e.id != 0 && FindId(l.records, e.id) >= 0 ==>
      r.records == l.records[FindId(l.records, e.id) := e]
    ensures e.id != 0 && FindId(l.records, e.id) < 0 ==> r.records == l.records + [e]
  {
    if e.id == 0 then
      Log(l.records + [e.(id := l.lastId + 1)], l.lastId + 1)
    else
      var at := FindId(l.records, e.id);
      if at >= 0 then Log(l.records[at := e], l.lastId)
      else Log(l.records + [e], if e.id > l.lastId then e.id else l.lastId)
  }

  /** Newest first: timestamps never increase along the sequence. */
  predicate SortedDesc(s: seq<CheckHistoryEntity>) {
    forall i, j :: 0 <= i < j < |s| ==> s[i].timestamp >= s[j].timestamp
  }

  /** Places `x` after every record at least as new as it. */
  function InsertDesc(x: CheckHistoryEntity, s: seq<CheckHistoryEntity>): (r: seq<CheckHistoryEntity>)
    ensures |r| == |s| + 1
    ensures multiset(r) == multiset(s) + multiset{x}
  {
    if |s| == 0 then [x]
    else if s[0].timestamp >= x.timestamp then
      assert s == [s[0]] + s[1..];
      [s[0]] + InsertDesc(x, s[1..])
    else [x] + s
  }

  lemma {:induction false} InsertDescSorted(x: CheckHistoryEntity, s: seq<CheckHistoryEntity>)
    requires SortedDesc(s)
    ensures SortedDesc(InsertDesc(x, s))
  {
    if |s| > 0 && s[0].timestamp >= x.timestamp {
      var rest := InsertDesc(x, s[1..]);
      InsertDescSorted(x, s[1..]);
      forall k | 0 <= k < |rest| ensures rest[k].timestamp <= s[0].timestamp {
        assert rest[k] in multiset(rest);
        if rest[k] != x {
          assert rest[k] in multiset(s[1..]);
          assert rest[k] in s[1..];
        }
      }
      assert InsertDesc(x, s) == [s[0]] + rest;
    }
  }

  /** `ORDER BY timestamp DESC`; records with equal timestamps keep insertion order. */
  function SortDesc(s: seq<CheckHistoryEntity>): (r: seq<CheckHistoryEntity>)
    ensures SortedDesc(r)
    ensures multiset(r) == multiset(s) && |r| == |s|
  {
    if |s| == 0 then []
    else
      var init := s[..|s| - 1];
      assert s == init + [s[|s| - 1]];
      InsertDescSorted(s[|s| - 1], SortDesc(init));
      InsertDesc(s[|s| - 1], SortDesc(init))
  }

  /** Where a page starts: a negative OFFSET counts as 0. */
  function PageStart(n: nat, offset: int): (k: nat)
    ensures k <= n
    ensures offset <= 0 ==> k == 0
    ensures 0 <= offset <= n ==> k == offset
    ensures offset >= n ==> k == n
  {
    if offset < 0 then 0 else if offset > n then n else offset
  }

  /** Where a page ends: a negative LIMIT means no limit. */
  function PageEnd(n: nat, start: nat, limit: int): (k: nat)
    requires start <= n
    ensures start <= k <= n
    ensures limit >= 0 ==> k - start <= limit
    ensures limit < 0 || start + limit >= n ==> k == n
    ensures 0 <= limit && start + limit <= n ==> k == start + limit
  {
    if limit < 0 || start + limit > n then n else start + limit
  }

  /**
   * `SELECT * FROM check_history ORDER BY timestamp DESC LIMIT :limit OFFSET :offset`.
   */
  function Query(records: seq<CheckHistoryEntity>, offset: int, limit: int): (r: seq<CheckHistoryEntity>)
    ensures var sorted := SortDesc(records);
      var start := PageStart(|records|, offset);
      r == sorted[start..PageEnd(|records|, start, limit)]
    ensures limit >= 0 ==> |r| <= limit
    ensures SortedDesc(r)
  {
    var sorted := SortDesc(records);
    var start := PageStart(|records|, offset);
    sorted[start..PageEnd(|records|, start, limit)]
  }

  /** Every record a query returns was inserted, and none is returned twice over. */
  lemma QueryReturnsInserted(records: seq<CheckHistoryEntity>, offset: int, limit: int)
    ensures multiset(Query(records, offset, limit)) <= multiset(records)
    ensures forall x :: x in Query(records, offset, limit) ==> x in records
  {
    var sorted := SortDesc(records);
    var start := PageStart(|records|, offset);
    var end := PageEnd(|records|, start, limit);
    assert sorted == sorted[..start] + sorted[start..end] + sorted[end..];
    var r := Query(records, offset, limit);
    assert multiset(r) <= multiset(sorted);
    forall x | x in r ensures x in records {
      assert x in multiset(r);
    }
  }

  /** A first page (offset 0) returns the newest records: none left out is newer. */
  lemma FirstPageIsNewest(records: seq<CheckHistoryEntity>, limit: int)
    ensures var sorted := SortDesc(records);
      var r := Query(records, 0, limit);
      r == sorted[..|r|]
      && forall i, j :: 0 <= i < |r| <= j < |sorted| ==> r[i].timestamp >= sorted[j].timestamp
  {
  }

  /** An insert with a generated id grows the log by exactly that record. */
  lemma InsertAutoIdAppends(l: Log, e: CheckHistoryEntity)
    requires ValidLog(l) && e.id == 0
    ensures var r := InsertRecord(l, e);
      |r.records| == |l.records| + 1 && r.records[..|l.records|] == l.records
      && r.records[|l.records|].serviceName == e.serviceName
      && r.records[|l.records|].timestamp == e.timestamp
      && r.records[|l.records|].status == e.status
      && multiset(r.records) == multiset(l.records) + multiset{r.records[|l.records|]}
  {
    var r := InsertRecord(l, e);
    assert r.records[..|l.records|] == l.records;
  }

  /** REPLACE on an existing id keeps the number of records. */
  lemma InsertClashReplaces(l: Log, e: CheckHistoryEntity)
    requires ValidLog(l) && e.id != 0 && exists i :: 0 <= i < |l.records| && l.records[i].id == e.id
    ensures |InsertRecord(l, e).records| == |l.records|
    ensures e in InsertRecord(l, e).records
  {
    var at := FindId(l.records, e.id);
    assert InsertRecord(l, e).records[at] == e;
  }

  /** `HistoryRepository.getAll()`: the DAO query with its defaults, offset 0 and limit 50. */
  function RecentHistory(records: seq<CheckHistoryEntity>): (r: seq<CheckHistoryEntity>)
    ensures |r| == if |records| < 50 then |records| else 50
    ensures SortedDesc(r)
    ensures |records| <= 50 ==> multiset(r) == multiset(records)
    ensures r == SortDesc(records)[..|r|]
  {
    FirstPageIsNewest(records, 50);
    var r := Query(records, 0, 50);
    assert |records| <= 50 ==> r == SortDesc(records)[..|records|] == SortDesc(records);
    r
  }

  /** The `check_history` table. */
  class CheckHistoryDao {
    var records: seq<CheckHistoryEntity>
    var lastId: int

    function Current(): Log
      reads this
    {
      Log(records, lastId)
    }

    predicate Valid()
      reads this
    {
      ValidLog(Current())
    }

    constructor ()
      ensures Valid() && records == []
    {
      records := [];
      lastId := 0;
    }

    method Insert(item: CheckHistoryEntity)
      requires Valid()
      modifies this
      ensures Valid() && Current() == InsertRecord(old(Current()), item)
    {
      if item.id == 0 {
        lastId := lastId + 1;
        records := records + [item.(id := lastId)];
      } else {
        var at := FindId(records, item.id);
        if at >= 0 {
          records := records[at := item];
        } else {
          records := records + [item];
          if item.id > lastId {
            lastId := item.id;
          }
        }
      }
    }

    method GetAll(offset: int, limit: int) returns (r: seq<CheckHistoryEntity>)
      ensures r == Query(records, offset, limit)
      ensures limit >= 0 ==> |r| <= limit
      ensures SortedDesc(r)
    {
      r := Query(records, offset, limit);
    }
  }

  /** `HistoryRepository`: forwards to the DAO, using the query defaults. */
  class HistoryRepository {
    const dao: CheckHistoryDao

    constructor (dao: CheckHistoryDao)
      ensures this.dao == dao
    {
      this.dao := dao;
    }

    method Insert(item: CheckHistoryEntity)
      requires dao.Valid()
      modifies dao
      ensures dao.Valid() && dao.Current() == InsertRecord(old(dao.Current()), item)
    {
      dao.Insert(item);
    }

    method GetAll() returns (r: seq<CheckHistoryEntity>)
      ensures r == RecentHistory(dao.records)
      ensures |r| == if |dao.records| < 50 then |dao.records| else 50
    {
      r := dao.GetAll(0, 50);
    }
  }
}
