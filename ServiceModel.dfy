/**
 * The records of model/: the in-app `Service`, the `services` row
 * `ServiceEntity`, the `check_history` row `CheckHistoryEntity`, the two
 * mappings of ModelExt.kt, and the export/import projection that the
 * `@Transient` annotations of Service.kt define.
 *
 * Kotlin's `Int` and `Long` fields are modelled as unbounded `int`s.
 */
module ServiceModel {
  import opened Wrappers

  /**
   * `Service`, with its constructor defaults. The last five fields are read
   * by the checkers, the worker and the repository but are not declared in
   * model/Service.kt; they are carried here so those readers can be modelled,
   * and they take the column defaults of `ServiceEntity`.
   */
  datatype Service = Service(
    id: int := 0,
    name: string,
    url: string,
    interval: int,
    headers: string := "",
    status: string := "",
    lastChecked: int := 0,
    archived: bool := false,
    requestMethod: string := "",
    body: string := "",
    sha1Certificate: string := "",
    lastSuccessfulCheck: int := 0,
    position: int := 0)

  /** The fields a `Service` has beyond the eight of model/Service.kt hold their defaults. */
  predicate ServiceExtrasDefault(s: Service) {
    s.requestMethod == "" && s.body == "" && s.sha1Certificate == ""
    && s.lastSuccessfulCheck == 0 && s.position == 0
  }

  /**
   * A row of the `services` table. `id` is the auto-generated primary key, and
   * 0 means "assign one on insert". `status` and `lastChecked` have no default.
   */
  datatype ServiceEntity = ServiceEntity(
    id: int := 0,
    name: string,
    url: string,
    interval: int,
    headers: string,
    requestMethod: string := "",
    body: string := "",
    responsePattern: string := "",
    useRegexPattern: bool := false,
    sha1Certificate: string := "",
    status: string,
    lastChecked: int,
    lastSuccessfulCheck: int := 0,
    archived: bool := false,
    position: int := 0,
    groupName: string := "")

  /** The columns that `Service` does not carry hold their column defaults. */
  predicate EntityExtrasDefault(e: ServiceEntity) {
    e.requestMethod == "" && e.body == "" && e.responsePattern == "" && !e.useRegexPattern
    && e.sha1Certificate == "" && e.lastSuccessfulCheck == 0 && e.position == 0
    && e.groupName == ""
  }

  /** A row of the `check_history` table; `id` is auto-generated (0 = assign). */
  datatype CheckHistoryEntity = CheckHistoryEntity(
    id: int := 0,
    serviceName: string,
    timestamp: int,
    status: string)

  /** The eight fields `toModel` and `toEntity` copy agree. */
  predicate SameCore(s: Service, e: ServiceEntity) {
    s.id == e.id && s.name == e.name && s.url == e.url && s.interval == e.interval
    && s.headers == e.headers && s.status == e.status
    && s.lastChecked == e.lastChecked && s.archived == e.archived
  }

  /** `ServiceEntity.toModel()`: copies the eight `Service` fields of the row. */
  function ToModel(e: ServiceEntity): (s: Service)
    ensures SameCore(s, e)
    ensures ServiceExtrasDefault(s)
  {
    Service(id := e.id, name := e.name, url := e.url, interval := e.interval,
            headers := e.headers, status := e.status, lastChecked := e.lastChecked,
            archived := e.archived)
  }

  /** `Service.toEntity()`: the eight fields, every other column at its default. */
  function ToEntity(s: Service): (e: ServiceEntity)
    ensures SameCore(s, e)
    ensures EntityExtrasDefault(e)
  {
    ServiceEntity(id := s.id, name := s.name, url := s.url, interval := s.interval,
                  headers := s.headers, status := s.status, lastChecked := s.lastChecked,
                  archived := s.archived)
  }

  /**
   * Storing and reading back a service gives it back exactly when its extra
   * fields are at their defaults, which is every `Service` model/Service.kt
   * can build; otherwise they come back as defaults.
   */
  lemma ModelEntityRoundTrip(s: Service)
    ensures ToModel(ToEntity(s)) == s <==> ServiceExtrasDefault(s)
  {
    if ServiceExtrasDefault(s) {
      var t := ToModel(ToEntity(s));
      assert t.id == s.id && t.name == s.name && t.url == s.url && t.interval == s.interval;
      assert t.headers == s.headers && t.status == s.status;
      assert t.lastChecked == s.lastChecked && t.archived == s.archived;
    }
  }

  /** A row survives `toModel` then `toEntity` exactly when its extra columns are defaults. */
  lemma EntityModelRoundTrip(e: ServiceEntity)
    ensures ToEntity(ToModel(e)) == e <==> EntityExtrasDefault(e)
  {
    if EntityExtrasDefault(e) {
      var t := ToEntity(ToModel(e));
      assert t.id == e.id && t.name == e.name && t.url == e.url && t.interval == e.interval;
      assert t.headers == e.headers && t.status == e.status;
      assert t.lastChecked == e.lastChecked && t.archived == e.archived;
    }
  }

  /** Passing a row through `toModel` and `toEntity` a second time changes nothing. */
  lemma EntityProjectionIdempotent(e: ServiceEntity)
    ensures ToEntity(ToModel(ToEntity(ToModel(e)))) == ToEntity(ToModel(e))
  {
    EntityModelRoundTrip(ToEntity(ToModel(e)));
  }

  /**
   * The serialised form of a `Service`: `id`, `status`, `lastChecked` and
   * `archived` are `@Transient`, so only these four fields are written.
   */
  datatype ExportedService = ExportedService(name: string, url: string, interval: int, headers: string)

  /** What `Json.encodeToString` keeps of a service. */
  function Export(s: Service): (x: ExportedService)
    ensures x.name == s.name && x.url == s.url && x.interval == s.interval && x.headers == s.headers
  {
    ExportedService(s.name, s.url, s.interval, s.headers)
  }

  /** What `decodeFromString` builds: the four fields, every transient field at its default. */
  function Import(x: ExportedService): (s: Service)
    ensures s.id == 0 && s.status == "" && s.lastChecked == 0 && !s.archived
    ensures ServiceExtrasDefault(s)
  {
    Service(name := x.name, url := x.url, interval := x.interval, headers := x.headers)
  }

  /** Importing then exporting gives the exported form back. */
  lemma ExportImport(x: ExportedService)
    ensures Export(Import(x)) == x
  {
  }

  /**
   * Export then import keeps name, url, interval and headers and resets every
   * other field; doing it twice is the same as doing it once.
   */
  lemma ImportExportProjection(s: Service)
    ensures var t := Import(Export(s));
      t.name == s.name && t.url == s.url && t.interval == s.interval && t.headers == s.headers
      && t.id == 0 && t.status == "" && t.lastChecked == 0 && !t.archived
    ensures Import(Export(Import(Export(s)))) == Import(Export(s))
  {
    ExportImport(Export(s));
  }

  /**
   * `Service(name = …, url = …, interval = …, headers = …)`, as the add screen
   * builds it: every other field takes its default.
   */
  function NewService(name: string, url: string, interval: int, headers: string): (s: Service)
    ensures s.id == 0 && s.status == "" && s.lastChecked == 0 && !s.archived
    ensures ServiceExtrasDefault(s)
    ensures Export(s) == ExportedService(name, url, interval, headers)
  {
    Service(name := name, url := url, interval := interval, headers := headers)
  }

  /** A freshly built service survives export then import unchanged. */
  lemma NewServiceSurvivesExport(name: string, url: string, interval: int, headers: string)
    ensures Import(Export(NewService(name, url, interval, headers))) == NewService(name, url, interval, headers)
  {
  }

  /**
   * `ServiceDataImporter.importServices`: the decoded list, or the empty list
   * when opening, reading or decoding fails (`decoded` is None).
   */
  function ImportServices(decoded: Option<seq<ExportedService>>): (r: seq<Service>)
    ensures decoded.None? ==> r == []
    ensures decoded.Some? ==>
      (|r| == |decoded.value| && forall i :: 0 <= i < |r| ==> r[i] == Import(decoded.value[i]))
    ensures forall i :: 0 <= i < |r| ==> r[i].id == 0
  {
    match decoded
    case None => []
    case Some(xs) => seq(|xs|, i requires 0 <= i < |xs| => Import(xs[i]))
  }

  /** Exporting a list and importing it back keeps every exported field, in order. */
  lemma ExportedListRoundTrip(services: seq<Service>)
    ensures var r := ImportServices(Some(seq(|services|, i requires 0 <= i < |services| => Export(services[i]))));
      |r| == |services|
      && forall i :: 0 <= i < |r| ==> Export(r[i]) == Export(services[i]) && r[i].id == 0
  {
    var xs := seq(|services|, i requires 0 <= i < |services| => Export(services[i]));
    var r := ImportServices(Some(xs));
    forall i | 0 <= i < |r| ensures Export(r[i]) == Export(services[i]) {
      ExportImport(xs[i]);
    }
  }
}
