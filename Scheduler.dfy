/**
 * worker/ServiceCheckScheduler.kt: the jobs the app hands to WorkManager. Its
 * unique-work table is modelled as a map from unique work name to the entry
 * enqueued under it, run synchronously: no job executes here.
 */
module Scheduler {
  import opened Decimal
  import opened ServiceModel
  import opened ServiceDao
  import opened ServiceRepository

  /** The scheduler's floor for a periodic interval, in minutes. */
  const MinIntervalMinutes: int := 15
  /** The flex window of every periodic request, in minutes. */
  const FlexMinutes: int := 2

  /** A work request for `ServiceCheckWorker`, with the `serviceId` of its input data. */
  datatype WorkRequest =
    | Periodic(serviceId: int, intervalMinutes: int, flexMinutes: int)
    | OneTime(serviceId: int)

  /** An enqueued job: the id WorkManager gave it and its request. */
  datatype WorkEntry = WorkEntry(workId: nat, request: WorkRequest)

  /** The unique-work table, and the next work id WorkManager hands out. */
  datatype WorkTable = WorkTable(entries: map<string, WorkEntry>, nextId: nat)

  /** Every entry's id was handed out before `nextId`. */
  predicate ValidWork(t: WorkTable) {
    forall k :: k in t.entries ==> t.entries[k].workId < t.nextId
  }

  /** The work ids of the jobs in the table. */
  function UsedIds(t: WorkTable): set<nat> {
    set k | k in t.entries :: t.entries[k].workId
  }

  /**
   * `enqueueUniquePeriodicWork(name, UPDATE, request)`: an entry under that
   * name keeps its work id and takes the new request; otherwise a new job is added.
   */
  function EnqueueUpdate(t: WorkTable, name: string, request: WorkRequest): (r: WorkTable)
    requires ValidWork(t)
    ensures ValidWork(r)
  {
    if name in t.entries then WorkTable(t.entries[name := WorkEntry(t.entries[name].workId, request)], t.nextId)
    else WorkTable(t.entries[name := WorkEntry(t.nextId, request)], t.nextId + 1)
  }

  /** `enqueueUniqueWork(name, REPLACE, request)`: any job under that name is dropped for a new one. */
  function EnqueueReplace(t: WorkTable, name: string, request: WorkRequest): (r: WorkTable)
    requires ValidWork(t)
    ensures ValidWork(r)
  {
    WorkTable(t.entries[name := WorkEntry(t.nextId, request)], t.nextId + 1)
  }

  /**
   * UPDATE leaves one entry under the name, with the new request; the work id
   * is kept when there was one. Every other name is untouched.
   */
  lemma EnqueueUpdateEffect(t: WorkTable, name: string, request: WorkRequest)
    requires ValidWork(t)
    ensures var r := EnqueueUpdate(t, name, request);
      && name in r.entries && r.entries[name].request == request
      && (name in t.entries ==> r.entries[name].workId == t.entries[name].workId && r.nextId == t.nextId)
      && (name !in t.entries ==> r.entries[name].workId !in UsedIds(t))
      && r.entries.Keys == t.entries.Keys + {name}
      && (forall k :: k in t.entries && k != name ==> r.entries[k] == t.entries[k])
  {
    var r := EnqueueUpdate(t, name, request);
    if name !in t.entries {
      assert t.nextId !in UsedIds(t);
    }
  }

  /**
   * REPLACE leaves one entry under the name: the new request with a work id
   * no job in the table had, so the latest request wins. Every other name is
   * untouched.
   */
  lemma EnqueueReplaceEffect(t: WorkTable, name: string, request: WorkRequest)
    requires ValidWork(t)
    ensures var r := EnqueueReplace(t, name, request);
      && name in r.entries && r.entries[name].request == request
      && r.entries[name].workId !in UsedIds(t)
      && r.entries.Keys == t.entries.Keys + {name}
      && (forall k :: k in t.entries && k != name ==> r.entries[k] == t.entries[k])
  {
    assert t.nextId !in UsedIds(t);
  }

  /** Enqueueing with UPDATE what is already enqueued changes nothing. */
  lemma EnqueueUpdateIdempotent(t: WorkTable, name: string, request: WorkRequest)
    requires ValidWork(t)
    ensures EnqueueUpdate(EnqueueUpdate(t, name, request), name, request) == EnqueueUpdate(t, name, request)
  {
    var r := EnqueueUpdate(t, name, request);
    assert r.entries[name := WorkEntry(r.entries[name].workId, request)] == r.entries;
  }

  /** Two REPLACE requests under one name: one job remains, the later request. */
  lemma EnqueueReplaceLatestWins(t: WorkTable, name: string, first: WorkRequest, second: WorkRequest)
    requires ValidWork(t)
    ensures var r := EnqueueReplace(EnqueueReplace(t, name, first), name, second);
      && r.entries.Keys == t.entries.Keys + {name}
      && r.entries[name] == WorkEntry(t.nextId + 1, second)
  {
  }

  /** "ServiceCheckWorker_${service.id}". */
  function PeriodicName(id: int): string {
    "ServiceCheckWorker_" + Show(id)
  }

  /** "ImmediateServiceCheckWorker_${service.id}". */
  function ImmediateName(id: int): string {
    "ImmediateServiceCheckWorker_" + Show(id)
  }

  /**
   * One name per service id for each kind of job, and no name is used by both
   * kinds, so the two kinds never replace each other.
   */
  lemma NamesDistinct(a: int, b: int)
    ensures PeriodicName(a) == PeriodicName(b) ==> a == b
    ensures ImmediateName(a) == ImmediateName(b) ==> a == b
    ensures PeriodicName(a) != ImmediateName(b)
  {
    if PeriodicName(a) == PeriodicName(b) {
      assert Show(a) == PeriodicName(a)[|"ServiceCheckWorker_"|..];
      assert Show(b) == PeriodicName(b)[|"ServiceCheckWorker_"|..];
      ShowInjective(a, b);
    }
    if ImmediateName(a) == ImmediateName(b) {
      assert Show(a) == ImmediateName(a)[|"ImmediateServiceCheckWorker_"|..];
      assert Show(b) == ImmediateName(b)[|"ImmediateServiceCheckWorker_"|..];
      ShowInjective(a, b);
    }
    assert PeriodicName(a)[0] == 'S' && ImmediateName(b)[0] == 'I';
  }

  /** `service.interval.toLong().coerceAtLeast(15L)`. */
  function PeriodicInterval(interval: int): (r: int)
    ensures r >= MinIntervalMinutes
    ensures interval >= MinIntervalMinutes ==> r == interval
    ensures interval < MinIntervalMinutes ==> r == MinIntervalMinutes
  {
    if interval < MinIntervalMinutes then MinIntervalMinutes else interval
  }

  /** Lines 39-49: the periodic request of a service. */
  function PeriodicRequest(s: Service): (r: WorkRequest)
    ensures r.Periodic? && r.serviceId == s.id && r.flexMinutes == FlexMinutes
    ensures r.intervalMinutes == PeriodicInterval(s.interval)
  {
    Periodic(s.id, PeriodicInterval(s.interval), FlexMinutes)
  }

  /** The body of the `forEach` in `scheduleAllServiceChecks`. */
  function SchedulePeriodic(t: WorkTable, s: Service): (r: WorkTable)
    requires ValidWork(t)
    ensures ValidWork(r)
  {
    EnqueueUpdate(t, PeriodicName(s.id), PeriodicRequest(s))
  }

  /** `check(service)`. */
  function ScheduleImmediate(t: WorkTable, s: Service): (r: WorkTable)
    requires ValidWork(t)
    ensures ValidWork(r)
  {
    EnqueueReplace(t, ImmediateName(s.id), OneTime(s.id))
  }

  /** `services.forEach { schedule it }`, the last service last. */
  function ScheduleAll(t: WorkTable, services: seq<Service>): (r: WorkTable)
    requires ValidWork(t)
    ensures ValidWork(r)
  {
    if |services| == 0 then t
    else SchedulePeriodic(ScheduleAll(t, services[..|services| - 1]), services[|services| - 1])
  }

  /** `services.forEach { check(it) }`, the last service last. */
  function CheckAll(t: WorkTable, services: seq<Service>): (r: WorkTable)
    requires ValidWork(t)
    ensures ValidWork(r)
  {
    if |services| == 0 then t
    else ScheduleImmediate(CheckAll(t, services[..|services| - 1]), services[|services| - 1])
  }

  /** One more service scheduled extends the fold by one step. */
  lemma ScheduleAllStep(t: WorkTable, services: seq<Service>, i: int)
    requires ValidWork(t) && 0 <= i < |services|
    ensures ScheduleAll(t, services[..i + 1]) == SchedulePeriodic(ScheduleAll(t, services[..i]), services[i])
  {
    assert services[..i + 1][..i] == services[..i];
  }

  /** One more service checked extends the fold by one step. */
  lemma CheckAllStep(t: WorkTable, services: seq<Service>, i: int)
    requires ValidWork(t) && 0 <= i < |services|
    ensures CheckAll(t, services[..i + 1]) == ScheduleImmediate(CheckAll(t, services[..i]), services[i])
  {
    assert services[..i + 1][..i] == services[..i];
  }

  /** Each service's periodic job holds its own request. */
  predicate PeriodicScheduled(t: WorkTable, services: seq<Service>) {
    forall i :: 0 <= i < |services| ==>
      PeriodicName(services[i].id) in t.entries
      && t.entries[PeriodicName(services[i].id)].request == PeriodicRequest(services[i])
  }

  predicate DistinctIds(services: seq<Service>) {
    forall i, j :: 0 <= i < j < |services| ==> services[i].id != services[j].id
  }

  /** The names of the periodic jobs of `services`. */
  function PeriodicNames(services: seq<Service>): set<string> {
    set i | 0 <= i < |services| :: PeriodicName(services[i].id)
  }

  lemma PeriodicNamesSnoc(services: seq<Service>)
    requires |services| > 0
    ensures PeriodicNames(services)
      == PeriodicNames(services[..|services| - 1]) + {PeriodicName(services[|services| - 1].id)}
  {
    var init := services[..|services| - 1];
    assert forall i :: 0 <= i < |init| ==> init[i] == services[i];
  }

  /** `scheduleAllServiceChecks` adds exactly the names of the services' periodic jobs. */
  lemma {:induction false} ScheduleAllKeys(t: WorkTable, services: seq<Service>)
    requires ValidWork(t)
    ensures ScheduleAll(t, services).entries.Keys == t.entries.Keys + PeriodicNames(services)
  {
    if |services| > 0 {
      var init := services[..|services| - 1];
      ScheduleAllKeys(t, init);
      PeriodicNamesSnoc(services);
    }
  }

  /** A job under any other name is left as it was. */
  lemma {:induction false} ScheduleAllUntouched(t: WorkTable, services: seq<Service>, k: string)
    requires ValidWork(t) && k in t.entries && k !in PeriodicNames(services)
    ensures k in ScheduleAll(t, services).entries && ScheduleAll(t, services).entries[k] == t.entries[k]
  {
    if |services| > 0 {
      var init := services[..|services| - 1];
      PeriodicNamesSnoc(services);
      ScheduleAllUntouched(t, init, k);
    }
  }

  /** One periodic enqueue: its own job holds its request, every other name is kept. */
  lemma SchedulePeriodicEffect(t: WorkTable, s: Service, k: string)
    requires ValidWork(t)
    ensures PeriodicName(s.id) in SchedulePeriodic(t, s).entries
    ensures SchedulePeriodic(t, s).entries[PeriodicName(s.id)].request == PeriodicRequest(s)
    ensures k in t.entries && k != PeriodicName(s.id) ==>
      k in SchedulePeriodic(t, s).entries && SchedulePeriodic(t, s).entries[k] == t.entries[k]
  {
  }

  /** When no later service shares its id, the `i`-th service's periodic job holds its own request. */
  lemma {:induction false} ScheduleAllScheduled(t: WorkTable, services: seq<Service>, i: int)
    requires ValidWork(t) && 0 <= i < |services|
    requires forall j :: i < j < |services| ==> services[j].id != services[i].id
    ensures PeriodicName(services[i].id) in ScheduleAll(t, services).entries
    ensures ScheduleAll(t, services).entries[PeriodicName(services[i].id)].request == PeriodicRequest(services[i])
  {
    var n := |services| - 1;
    var init := services[..n];
    var mid := ScheduleAll(t, init);
    var name := PeriodicName(services[i].id);
    assert ScheduleAll(t, services) == SchedulePeriodic(mid, services[n]);
    if i < n {
      assert init[i] == services[i];
      ScheduleAllScheduled(t, init, i);
      NamesDistinct(services[i].id, services[n].id);
    }
    SchedulePeriodicEffect(mid, services[n], name);
  }

  /**
   * After `scheduleAllServiceChecks` every service (ids distinct, as the rows
   * of the table are) has its periodic job, with its interval floored at 15
   * minutes; the names it adds are exactly theirs, and no other job changes.
   */
  lemma ScheduleAllSchedules(t: WorkTable, services: seq<Service>)
    requires ValidWork(t) && DistinctIds(services)
    ensures PeriodicScheduled(ScheduleAll(t, services), services)
    ensures ScheduleAll(t, services).entries.Keys == t.entries.Keys + PeriodicNames(services)
    ensures forall k :: k in t.entries && k !in PeriodicNames(services) ==>
      ScheduleAll(t, services).entries[k] == t.entries[k]
  {
    forall i | 0 <= i < |services|
      ensures PeriodicName(services[i].id) in ScheduleAll(t, services).entries
      ensures ScheduleAll(t, services).entries[PeriodicName(services[i].id)].request == PeriodicRequest(services[i])
    {
      ScheduleAllScheduled(t, services, i);
    }
    ScheduleAllKeys(t, services);
    forall k | k in t.entries && k !in PeriodicNames(services)
      ensures ScheduleAll(t, services).entries[k] == t.entries[k]
    {
      ScheduleAllUntouched(t, services, k);
    }
  }

  /** Enqueueing a service's periodic job again, unchanged, is a no-op. */
  lemma SchedulePeriodicNoop(t: WorkTable, s: Service)
    requires ValidWork(t) && PeriodicName(s.id) in t.entries
    requires t.entries[PeriodicName(s.id)].request == PeriodicRequest(s)
    ensures SchedulePeriodic(t, s) == t
  {
    var name := PeriodicName(s.id);
    assert t.entries[name := WorkEntry(t.entries[name].workId, PeriodicRequest(s))] == t.entries;
  }

  /** Re-scheduling services whose jobs are in place changes nothing. */
  lemma {:induction false} ScheduleAllWhenScheduled(t: WorkTable, services: seq<Service>)
    requires ValidWork(t) && PeriodicScheduled(t, services)
    ensures ScheduleAll(t, services) == t
  {
    if |services| > 0 {
      var n := |services| - 1;
      var init := services[..n];
      assert PeriodicScheduled(t, init) by {
        forall i | 0 <= i < n
          ensures PeriodicName(init[i].id) in t.entries
          ensures t.entries[PeriodicName(init[i].id)].request == PeriodicRequest(init[i])
        {
          assert init[i] == services[i];
        }
      }
      ScheduleAllWhenScheduled(t, init);
      assert ScheduleAll(t, services) == SchedulePeriodic(t, services[n]);
      SchedulePeriodicNoop(t, services[n]);
    }
  }

  /** Running `scheduleAllServiceChecks` twice over the same rows is running it once. */
  lemma ScheduleAllIdempotent(t: WorkTable, services: seq<Service>)
    requires ValidWork(t) && DistinctIds(services)
    ensures ScheduleAll(ScheduleAll(t, services), services) == ScheduleAll(t, services)
  {
    ScheduleAllSchedules(t, services);
    ScheduleAllWhenScheduled(ScheduleAll(t, services), services);
  }

  /** The names of the immediate jobs of `services`. */
  function ImmediateNames(services: seq<Service>): set<string> {
    set i | 0 <= i < |services| :: ImmediateName(services[i].id)
  }

  lemma ImmediateNamesSnoc(services: seq<Service>)
    requires |services| > 0
    ensures ImmediateNames(services)
      == ImmediateNames(services[..|services| - 1]) + {ImmediateName(services[|services| - 1].id)}
  {
    var init := services[..|services| - 1];
    assert forall i :: 0 <= i < |init| ==> init[i] == services[i];
  }

  /** `allServiceChecksNow` adds exactly the names of the services' immediate jobs. */
  lemma {:induction false} CheckAllKeys(t: WorkTable, services: seq<Service>)
    requires ValidWork(t)
    ensures CheckAll(t, services).entries.Keys == t.entries.Keys + ImmediateNames(services)
  {
    if |services| > 0 {
      var init := services[..|services| - 1];
      CheckAllKeys(t, init);
      ImmediateNamesSnoc(services);
    }
  }

  /** A job under any other name, periodic ones included, is left as it was. */
  lemma {:induction false} CheckAllUntouched(t: WorkTable, services: seq<Service>, k: string)
    requires ValidWork(t) && k in t.entries && k !in ImmediateNames(services)
    ensures k in CheckAll(t, services).entries && CheckAll(t, services).entries[k] == t.entries[k]
  {
    if |services| > 0 {
      var init := services[..|services| - 1];
      ImmediateNamesSnoc(services);
      CheckAllUntouched(t, init, k);
    }
  }

  /** One immediate enqueue: its own job is a fresh one-time check, every other name is kept. */
  lemma ScheduleImmediateEffect(t: WorkTable, s: Service, k: string)
    requires ValidWork(t)
    ensures ImmediateName(s.id) in ScheduleImmediate(t, s).entries
    ensures ScheduleImmediate(t, s).entries[ImmediateName(s.id)].request == OneTime(s.id)
    ensures k in t.entries && k != ImmediateName(s.id) ==>
      k in ScheduleImmediate(t, s).entries && ScheduleImmediate(t, s).entries[k] == t.entries[k]
  {
  }

  /** The `i`-th service has an immediate job for its own id. */
  lemma {:induction false} CheckAllChecked(t: WorkTable, services: seq<Service>, i: int)
    requires ValidWork(t) && 0 <= i < |services|
    ensures ImmediateName(services[i].id) in CheckAll(t, services).entries
    ensures CheckAll(t, services).entries[ImmediateName(services[i].id)].request == OneTime(services[i].id)
  {
    var n := |services| - 1;
    var init := services[..n];
    var mid := CheckAll(t, init);
    var name := ImmediateName(services[i].id);
    assert CheckAll(t, services) == ScheduleImmediate(mid, services[n]);
    if i < n {
      assert init[i] == services[i];
      CheckAllChecked(t, init, i);
      NamesDistinct(services[i].id, services[n].id);
    }
    ScheduleImmediateEffect(mid, services[n], name);
  }

  /**
   * After `allServiceChecksNow` each service has one immediate job for its
   * id: the names it adds are exactly theirs, and no other job changes (in
   * particular no periodic one).
   */
  lemma CheckAllChecks(t: WorkTable, services: seq<Service>)
    requires ValidWork(t)
    ensures forall i :: 0 <= i < |services| ==>
      ImmediateName(services[i].id) in CheckAll(t, services).entries
      && CheckAll(t, services).entries[ImmediateName(services[i].id)].request == OneTime(services[i].id)
    ensures CheckAll(t, services).entries.Keys == t.entries.Keys + ImmediateNames(services)
    ensures forall k :: k in t.entries && k !in ImmediateNames(services) ==>
      CheckAll(t, services).entries[k] == t.entries[k]
  {
    forall i | 0 <= i < |services|
      ensures ImmediateName(services[i].id) in CheckAll(t, services).entries
      ensures CheckAll(t, services).entries[ImmediateName(services[i].id)].request == OneTime(services[i].id)
    {
      CheckAllChecked(t, services, i);
    }
    CheckAllKeys(t, services);
    forall k | k in t.entries && k !in ImmediateNames(services)
      ensures CheckAll(t, services).entries[k] == t.entries[k]
    {
      CheckAllUntouched(t, services, k);
    }
  }

  /** An immediate check leaves every periodic job as it was. */
  lemma ImmediateLeavesPeriodic(t: WorkTable, s: Service, id: int)
    requires ValidWork(t)
    ensures var r := ScheduleImmediate(t, s);
      (PeriodicName(id) in r.entries <==> PeriodicName(id) in t.entries)
      && (PeriodicName(id) in t.entries ==> r.entries[PeriodicName(id)] == t.entries[PeriodicName(id)])
  {
    NamesDistinct(id, s.id);
  }

  /** Every job sits under the name built from the `serviceId` of its own request. */
  predicate NamesMatchRequests(t: WorkTable) {
    forall k :: k in t.entries ==>
      match t.entries[k].request
      case Periodic(id, _, _) => k == PeriodicName(id)
      case OneTime(id) => k == ImmediateName(id)
  }

  /** Scheduling and checking keep every job under the name of its own service id. */
  lemma {:induction false} NamesMatchPreserved(t: WorkTable, services: seq<Service>)
    requires ValidWork(t) && NamesMatchRequests(t)
    ensures NamesMatchRequests(ScheduleAll(t, services))
    ensures NamesMatchRequests(CheckAll(t, services))
  {
    if |services| > 0 {
      NamesMatchPreserved(t, services[..|services| - 1]);
    }
  }

  /** WorkManager's unique-work table. */
  class WorkManager {
    var entries: map<string, WorkEntry>
    var nextId: nat

    constructor ()
      ensures entries == map[] && nextId == 0
    {
      entries := map[];
      nextId := 0;
    }

    function Table(): WorkTable
      reads this
    {
      WorkTable(entries, nextId)
    }

    predicate Valid()
      reads this
    {
      ValidWork(Table())
    }

    method EnqueueUniquePeriodicWork(name: string, request: WorkRequest)
      requires Valid()
      modifies this
      ensures Valid() && Table() == EnqueueUpdate(old(Table()), name, request)
    {
      if name in entries {
        entries := entries[name := WorkEntry(entries[name].workId, request)];
      } else {
        entries := entries[name := WorkEntry(nextId, request)];
        nextId := nextId + 1;
      }
    }

    method EnqueueUniqueWork(name: string, request: WorkRequest)
      requires Valid()
      modifies this
      ensures Valid() && Table() == EnqueueReplace(old(Table()), name, request)
    {
      entries := entries[name := WorkEntry(nextId, request)];
      nextId := nextId + 1;
    }
  }

  /** `ServiceCheckScheduler`, over the repository and WorkManager. */
  class ServiceCheckScheduler {
    const repository: ServiceRepository
    const workManager: WorkManager

    constructor (repository: ServiceRepository, workManager: WorkManager)
      ensures this.repository == repository && this.workManager == workManager
    {
      this.repository := repository;
      this.workManager := workManager;
    }

    /**
     * `scheduleAllServiceChecks()`: one periodic job per row, archived rows
     * included. Returns the rows in the order they were read.
     */
    method ScheduleAllServiceChecks() returns (services: seq<Service>)
      requires repository.Valid() && workManager.Valid()
      modifies workManager
      ensures workManager.Valid()
      ensures IsServiceList(services, repository.dao.rows)
      ensures workManager.Table() == ScheduleAll(old(workManager.Table()), services)
    {
      services := repository.GetAllServices();
      SchedulePeriodicEach(services);
    }

    /** The `forEach` of `scheduleAllServiceChecks()`. */
    method SchedulePeriodicEach(services: seq<Service>)
      requires workManager.Valid()
      modifies workManager
      ensures workManager.Valid()
      ensures workManager.Table() == ScheduleAll(old(workManager.Table()), services)
    {
      ghost var t0 := workManager.Table();
      var i := 0;
      while i < |services|
        invariant 0 <= i <= |services|
        invariant workManager.Valid()
        invariant workManager.Table() == ScheduleAll(t0, services[..i])
      {
        var service := services[i];
        var intervalMinutes := PeriodicInterval(service.interval);
        var workRequest := Periodic(service.id, intervalMinutes, FlexMinutes);
        workManager.EnqueueUniquePeriodicWork(PeriodicName(service.id), workRequest);
        ScheduleAllStep(t0, services, i);
        i := i + 1;
      }
      assert services[..i] == services;
    }

    /** `allServiceChecksNow()`: one immediate job per row. */
    method AllServiceChecksNow() returns (services: seq<Service>)
      requires repository.Valid() && workManager.Valid()
      modifies workManager
      ensures workManager.Valid()
      ensures IsServiceList(services, repository.dao.rows)
      ensures workManager.Table() == CheckAll(old(workManager.Table()), services)
    {
      services := repository.GetAllServices();
      CheckEach(services);
    }

    /** The `forEach` of `allServiceChecksNow()`. */
    method CheckEach(services: seq<Service>)
      requires workManager.Valid()
      modifies workManager
      ensures workManager.Valid()
      ensures workManager.Table() == CheckAll(old(workManager.Table()), services)
    {
      ghost var t0 := workManager.Table();
      var i := 0;
      while i < |services|
        invariant 0 <= i <= |services|
        invariant workManager.Valid()
        invariant workManager.Table() == CheckAll(t0, services[..i])
      {
        Check(services[i]);
        CheckAllStep(t0, services, i);
        i := i + 1;
      }
      assert services[..i] == services;
    }

    /** `checkServiceNow(service)`. */
    method CheckServiceNow(service: Service)
      requires workManager.Valid()
      modifies workManager
      ensures workManager.Valid()
      ensures workManager.Table() == ScheduleImmediate(old(workManager.Table()), service)
    {
      Check(service);
    }

    /** `check(service)`: an immediate job that replaces any pending one of the same service. */
    method Check(service: Service)
      requires workManager.Valid()
      modifies workManager
      ensures workManager.Valid()
      ensures workManager.Table() == ScheduleImmediate(old(workManager.Table()), service)
    {
      workManager.EnqueueUniqueWork(ImmediateName(service.id), OneTime(service.id));
    }
  }

  /**
   * Every row of the table, archived or not, has its periodic job after
   * `scheduleAllServiceChecks`, and re-running it changes nothing.
   */
  lemma EveryRowScheduled(t: WorkTable, services: seq<Service>, rows: Table)
    requires ValidWork(t) && ValidTable(rows) && IsServiceList(services, rows.rows)
    ensures forall k :: k in rows.rows ==> PeriodicName(k) in ScheduleAll(t, services).entries
    ensures ScheduleAll(ScheduleAll(t, services), services) == ScheduleAll(t, services)
  {
    ScheduleAllSchedules(t, services);
    forall k | k in rows.rows ensures PeriodicName(k) in ScheduleAll(t, services).entries {
      assert ToModel(rows.rows[k]) in services;
      var i :| 0 <= i < |services| && services[i] == ToModel(rows.rows[k]);
    }
    ScheduleAllIdempotent(t, services);
  }
}
