/**
 * worker/ServiceCheckWorker.kt: one run of the periodic or immediate check of
 * a service. It looks the service up, applies the network-quality gate, runs
 * the checker its URL selects, records the outcome in the history, writes the
 * new status back and raises or clears the service's "down" notification.
 *
 * The clock, the network capabilities, `CheckMode.fromUrl` and the platform's
 * side of both probes are inputs (`Environment`); the services table, the
 * history log and the shown notifications are state.
 */
module CheckWorker {
  import opened Wrappers
  import opened ServiceModel
  import opened ServiceDao
  import opened ServiceRepository
  import opened CheckHistory
  import opened TcpTlsChecker
  import opened HttpChecker

  /** The schemes `CheckMode.fromUrl` tells apart. */
  datatype CheckMode = HTTP | HTTPS | TCP_TLS

  /** Which `ServiceChecker` implementation runs. */
  datatype Checker = HttpProbe | TcpTlsProbe

  /** `CheckMethodFactory.getChecker`, given the mode of the service's URL. */
  function GetChecker(mode: CheckMode): (r: Checker)
    ensures r == TcpTlsProbe <==> mode == TCP_TLS
    ensures r == HttpProbe <==> mode == HTTP || mode == HTTPS
  {
    match mode
    case HTTP => HttpProbe
    case HTTPS => HttpProbe
    case TCP_TLS => TcpTlsProbe
  }

  /** What `getNetworkCapabilities(activeNetwork)` reports. */
  datatype Capabilities = Capabilities(validated: bool, downstreamKbps: int)

  /** The slowest downstream link, in kbps, that a check runs on. */
  const MinDownstreamKbps: int := 1000

  /** `isNetworkQualitySufficient()`. */
  predicate IsNetworkQualitySufficient(caps: Option<Capabilities>) {
    caps.Some? && caps.value.validated && caps.value.downstreamKbps >= MinDownstreamKbps
  }

  /**
   * A check runs exactly on a validated network of at least 1000 kbps: no
   * network or an unvalidated one never passes, and a faster link never
   * fails where a slower one passed.
   */
  lemma NetworkQualityGate(caps: Option<Capabilities>, faster: int)
    ensures IsNetworkQualitySufficient(caps) <==>
      caps.Some? && caps.value.validated && caps.value.downstreamKbps >= 1000
    ensures caps.None? || (caps.Some? && !caps.value.validated) ==> !IsNetworkQualitySufficient(caps)
    ensures IsNetworkQualitySufficient(caps) && caps.value.downstreamKbps <= faster ==>
      IsNetworkQualitySufficient(Some(caps.value.(downstreamKbps := faster)))
  {
  }

  /** `Result.success()`, `Result.failure()` and `Result.retry()`. */
  datatype WorkResult = Success | Failure | Retry

  /** A shown notification: its title and text. */
  datatype Notification = Notification(title: string, message: string)

  /** The notification raised for a service that is down. */
  function DownNotification(url: string): (n: Notification)
    ensures n.title == "Server Check" && n.message == "Server is down: " + url
  {
    Notification("Server Check", "Server is down: " + url)
  }

  /** One run's inputs from outside the app. */
  datatype Environment = Environment(
    modeOf: string -> CheckMode,
    network: Network,
    handshake: (string, int) -> Handshake,
    capabilities: Option<Capabilities>,
    now: int)

  /** `getChecker(service).check()`: the status string of the selected probe. */
  function Probe(s: Service, env: Environment): (r: string)
    ensures GetChecker(env.modeOf(s.url)) == HttpProbe ==> r == HttpStatus(s, env.network)
    ensures GetChecker(env.modeOf(s.url)) == TcpTlsProbe ==> r == TcpTlsChecker.Check(s.url, env.handshake)
  {
    match GetChecker(env.modeOf(s.url))
    case HttpProbe => HttpStatus(s, env.network)
    case TcpTlsProbe => TcpTlsChecker.Check(s.url, env.handshake)
  }

  /** Lines 54-62: the copy of the service that is written back. */
  function UpdatedAfterCheck(s: Service, result: string, now: int): Service {
    if result == "ok" then s.(status := result, lastSuccessfulCheck := now, lastChecked := now)
    else s.(status := result, lastChecked := now)
  }

  /**
   * The written copy carries the result and the time of the check; the time
   * of the last success moves to `now` exactly on "ok" (so it never moves
   * back under a clock that does not), and every other field is kept.
   */
  lemma UpdatedAfterCheckFields(s: Service, result: string, now: int)
    ensures var u := UpdatedAfterCheck(s, result, now);
      && u.status == result && u.lastChecked == now
      && (result == "ok" ==> u.lastSuccessfulCheck == now)
      && (result != "ok" ==> u.lastSuccessfulCheck == s.lastSuccessfulCheck)
      && (now >= s.lastSuccessfulCheck ==> u.lastSuccessfulCheck >= s.lastSuccessfulCheck)
      && u.(status := s.status, lastChecked := s.lastChecked, lastSuccessfulCheck := s.lastSuccessfulCheck) == s
  {
  }

  /** The history row a completed probe appends. */
  function HistoryRecord(s: Service, result: string, now: int): (e: CheckHistoryEntity)
    ensures e.id == 0 && e.serviceName == s.name && e.timestamp == now && e.status == result
  {
    CheckHistoryEntity(serviceName := s.name, timestamp := now, status := result)
  }

  /** What the worker acts on: the services table, the history log and the shown notifications. */
  datatype WorkerState = WorkerState(table: Table, log: Log, shown: map<int, Notification>)

  predicate ValidState(st: WorkerState) {
    ValidTable(st.table) && ValidLog(st.log)
  }

  /** `inputData.getInt("serviceId", -1)`: the stored id, or -1 when there is none. */
  function InputServiceId(input: Option<int>): (id: int)
    ensures input.None? ==> id == -1
    ensures input.Some? ==> id == input.value
  {
    input.GetOr(-1)
  }

  /** `doWork()` as a transition of the state, with the result it returns. */
  function DoWorkSpec(st: WorkerState, input: Option<int>, env: Environment): (WorkerState, WorkResult)
    requires ValidState(st)
  {
    var id := InputServiceId(input);
    if id == -1 then (st, Failure)
    else match GetService(st.table, id)
      case None => (st, Failure)
      case Some(s) =>
        if !IsNetworkQualitySufficient(env.capabilities) then (st, Retry)
        else
          var result := Probe(s, env);
          var log := InsertRecord(st.log, HistoryRecord(s, result, env.now));
          var table := UpdateModel(st.table, UpdatedAfterCheck(s, result, env.now));
          var shown := if result != "ok" then st.shown[id := DownNotification(s.url)] else st.shown - {id};
          (WorkerState(table, log, shown), Success)
  }

  /** Every run leaves a valid table and log behind. */
  lemma DoWorkKeepsValid(st: WorkerState, input: Option<int>, env: Environment)
    requires ValidState(st)
    ensures ValidState(DoWorkSpec(st, input, env).0)
  {
  }

  /**
   * Failure exactly when the input has no id, the id is -1 or no row has it;
   * then nothing is probed, recorded, written or notified.
   */
  lemma FailureChangesNothing(st: WorkerState, input: Option<int>, env: Environment)
    requires ValidState(st)
    ensures var (after, r) := DoWorkSpec(st, input, env);
      && (r == Failure <==> InputServiceId(input) == -1 || InputServiceId(input) !in st.table.rows)
      && (r == Failure ==> after == st)
  {
  }

  /** Retry exactly when the service exists and the network is not good enough; nothing changes. */
  lemma RetryChangesNothing(st: WorkerState, input: Option<int>, env: Environment)
    requires ValidState(st)
    ensures var (after, r) := DoWorkSpec(st, input, env);
      && (r == Retry <==> InputServiceId(input) != -1 && InputServiceId(input) in st.table.rows
                          && !IsNetworkQualitySufficient(env.capabilities))
      && (r == Retry ==> after == st)
  {
  }

  /**
   * A completed probe returns Success whatever its result, and appends exactly
   * one history record: the service's name, `now` and the result.
   */
  lemma SuccessAppendsOneRecord(st: WorkerState, id: int, env: Environment)
    requires ValidState(st) && id != -1 && id in st.table.rows
    requires IsNetworkQualitySufficient(env.capabilities)
    ensures var (after, r) := DoWorkSpec(st, Some(id), env);
      var s := GetService(st.table, id).value;
      var n := |st.log.records|;
      && r == Success
      && |after.log.records| == n + 1 && after.log.records[..n] == st.log.records
      && after.log.records[n].serviceName == s.name
      && after.log.records[n].timestamp == env.now
      && after.log.records[n].status == Probe(s, env)
  {
    var s := GetService(st.table, id).value;
    InsertAutoIdAppends(st.log, HistoryRecord(s, Probe(s, env), env.now));
  }

  /**
   * After a completed probe the row holds the result and `now` as the time of
   * the check, and no other row changes. The time of the last success is
   * stored as 0 whatever the result, because `toEntity` drops it.
   */
  lemma SuccessWritesRow(st: WorkerState, id: int, env: Environment)
    requires ValidState(st) && id != -1 && id in st.table.rows
    requires IsNetworkQualitySufficient(env.capabilities)
    ensures var after := DoWorkSpec(st, Some(id), env).0;
      var s := GetService(st.table, id).value;
      && id in after.table.rows
      && after.table.rows[id].status == Probe(s, env)
      && after.table.rows[id].lastChecked == env.now
      && after.table.rows[id].lastSuccessfulCheck == 0
      && SameCore(UpdatedAfterCheck(s, Probe(s, env), env.now), after.table.rows[id])
      && (forall k :: k != id ==> GetById(after.table, k) == GetById(st.table, k))
  {
    var s := GetService(st.table, id).value;
    UpdateThenGet(st.table, ToEntity(UpdatedAfterCheck(s, Probe(s, env), env.now)), id);
    forall k | k != id ensures GetById(DoWorkSpec(st, Some(id), env).0.table, k) == GetById(st.table, k) {
      UpdateThenGet(st.table, ToEntity(UpdatedAfterCheck(s, Probe(s, env), env.now)), k);
    }
  }

  /**
   * A result other than "ok" shows the "Server is down" notification under the
   * service's id; "ok" removes it. Notifications of other ids are untouched.
   */
  lemma SuccessNotifies(st: WorkerState, id: int, env: Environment)
    requires ValidState(st) && id != -1 && id in st.table.rows
    requires IsNetworkQualitySufficient(env.capabilities)
    ensures var after := DoWorkSpec(st, Some(id), env).0;
      var s := GetService(st.table, id).value;
      && (Probe(s, env) != "ok" ==> id in after.shown && after.shown[id] == DownNotification(s.url))
      && (Probe(s, env) == "ok" ==> id !in after.shown)
      && (forall k :: k != id ==> (k in after.shown <==> k in st.shown))
      && (forall k :: k != id && k in st.shown ==> after.shown[k] == st.shown[k])
  {
  }

  /**
   * The service the probe sees comes through `toModel`, so it has no method,
   * body or certificate: an HTTP probe always sends a plain GET with no body
   * and never installs the custom trust manager.
   */
  lemma ProbeSeesPlainGet(st: WorkerState, id: int, env: Environment)
    requires ValidState(st) && id in st.table.rows
    requires env.network.acceptMethod("GET").Done?
    ensures var s := GetService(st.table, id).value;
      && Prepared(s, env.network).requestMethod == "GET"
      && !Prepared(s, env.network).doOutput
      && !Prepared(s, env.network).customTrust
  {
    var s := GetService(st.table, id).value;
    DefaultRequestIsPlainGet(s, env.network);
  }

  /** The notifications currently shown, keyed by service id. */
  class NotificationCenter {
    var shown: map<int, Notification>

    constructor ()
      ensures shown == map[]
    {
      shown := map[];
    }

    /** `NotificationHelper.showNotification`: one notification per id, the latest wins. */
    method ShowNotification(title: string, message: string, id: int)
      modifies this
      ensures shown == old(shown)[id := Notification(title, message)]
    {
      shown := shown[id := Notification(title, message)];
    }

    /** `NotificationHelper.cancelNotification`. */
    method CancelNotification(id: int)
      modifies this
      ensures shown == old(shown) - {id}
    {
      shown := shown - {id};
    }
  }

  /** `ServiceCheckWorker` with the repositories and the notification helper it is given. */
  class ServiceCheckWorker {
    const repository: ServiceRepository
    const historyRepository: HistoryRepository
    const notifications: NotificationCenter

    constructor (repository: ServiceRepository, historyRepository: HistoryRepository,
                 notifications: NotificationCenter)
      ensures this.repository == repository && this.historyRepository == historyRepository
      ensures this.notifications == notifications
    {
      this.repository := repository;
      this.historyRepository := historyRepository;
      this.notifications := notifications;
    }

    predicate Valid()
      reads this, repository, repository.dao, historyRepository, historyRepository.dao
    {
      repository.Valid() && historyRepository.dao.Valid()
    }

    function State(): WorkerState
      reads this, repository, repository.dao, historyRepository, historyRepository.dao, notifications
    {
      WorkerState(repository.dao.Tab(), historyRepository.dao.Current(), notifications.shown)
    }

    /** `doWork()`, given the work's input data and this run's environment. */
    method DoWork(input: Option<int>, env: Environment) returns (r: WorkResult)
      requires Valid()
      modifies repository.dao, historyRepository.dao, notifications
      ensures Valid()
      ensures (State(), r) == DoWorkSpec(old(State()), input, env)
    {
      var serviceId := InputServiceId(input);
      if serviceId == -1 {
        return Failure;
      }
      var found := repository.GetServiceById(serviceId);
      if found.None? {
        return Failure;
      }
      var service := found.value;
      if !IsNetworkQualitySufficient(env.capabilities) {
        return Retry;
      }
      var result: string;
      match GetChecker(env.modeOf(service.url)) {
        case HttpProbe =>
          var checker := new HttpServiceChecker(service);
          var connection;
          result, connection := checker.Check(env.network);
        case TcpTlsProbe =>
          result := TcpTlsChecker.Check(service.url, env.handshake);
      }
      var updatedService := UpdatedAfterCheck(service, result, env.now);
      historyRepository.Insert(HistoryRecord(service, result, env.now));
      repository.UpdateService(updatedService);
      if result != "ok" {
        notifications.ShowNotification("Server Check", "Server is down: " + service.url, serviceId);
      } else {
        notifications.CancelNotification(serviceId);
      }
      return Success;
    }
  }
}
