# Service-Monitor: a verified model of the check pipeline

Service-Monitor is an Android app that watches a list of services. Each service is a URL with an
interval and optional request headers. WorkManager wakes a worker per service; the worker probes
the service over HTTP(S) or TCP+TLS, stores the outcome on the service row, appends a line to
the check history and shows or cancels a "Server is down" notification.

This project models that pipeline in Dafny and proves what each step promises:

- `Headers`: the `"k1:v1,k2:v2"` header-string parser `parseHeaders` (common/ext.kt) and the
  `joinToString(",") { "k:v" }` serialiser of the add and edit screens. It proves that blank
  text parses to nothing, that segments without ':' are dropped, that keys and values are
  trimmed, that clean headers round-trip, and that parse-serialise-parse is parse.
- `CommonKeys`: the interval options, their inverse map and the predefined header keys.
- `ServiceModel`: `Service`, `ServiceEntity` and `CheckHistoryEntity`, with their defaults;
  the lossy `toModel`/`toEntity` mappings; the export/import projection that `@Transient` defines.
- `ServiceDao`, `ServiceRepository`: the `services` table as a keyed map. Room's REPLACE,
  AUTOINCREMENT and `@Update` semantics are spelled out. The repository class writes through
  `toEntity` and reads through `toModel`; the `updateServiceOrder` swap arguments are modelled.
- `CheckHistory`: the history log, `ORDER BY timestamp DESC LIMIT :limit OFFSET :offset`, and
  the repository default page of 50.
- `TcpTlsChecker`, `HttpChecker`: target parsing, request construction and status
  classification. The socket, the connection and the network are an oracle input, including which headers and method the platform accepts.
- `CheckWorker`: `doWork` as a state machine over the service table, the history log and the
  notification map. Its input is the time `now`, the network capabilities and the probe outcome.
- `Scheduler`: WorkManager's unique-work table under UPDATE and REPLACE, and the scheduler's
  loops over every stored service.
- Support modules: `Strings`, `Decimal` and `Utf8` model the Kotlin standard-library calls the
  core makes: `trim`, `isBlank`, `split`, `uppercase`, `removePrefix`, `Int.toString`,
  `toIntOrNull` and `toByteArray(UTF_8)`. `Wrappers` holds `Option`.

Where the source changes state in place, the model is a class: the DAOs, the repositories, the
connection, the notification center, WorkManager, the scheduler and the worker. Each method is
specified by a pure function of the old state, and the lemmas are proved about those functions.

## Model

| member | source | states |
|---|---|---|
| Headers.ParseHeaders | app/src/main/java/common/ext.kt:4-10 | blank text gives no headers; at most one header per ','-segment; every key and value is trimmed and free of ',' and ':' |
| Headers.ParseSegment | app/src/main/java/common/ext.kt:7-8 | a segment yields a header exactly when it contains ':' |
| Headers.ParseSegments | app/src/main/java/common/ext.kt:6-9 | `mapNotNull` over the segments: no more headers than segments, each one clean |
| Headers.ParseSegmentsKeepsColonSegments | app/src/main/java/common/ext.kt:6-9 | the output is exactly the segments that contain ':', each turned into (first piece, second piece) trimmed, in input order |
| Headers.ParseHeadersKeepsColonSegments | app/src/main/java/common/ext.kt:5-9 | for non-blank text, one header per ','-segment with a ':', in order, and no others |
| Headers.SegmentHeaderAgrees | app/src/main/java/common/ext.kt:7-8 | a segment with ':' gives (trim(piece 0), trim(piece 1)) |
| Headers.Renders | app/src/main/java/com/mycelium/servicemonitor/ui/main/AddServiceScreen.kt:99 | the serialiser writes one "key:value" per header, in order |
| Headers.RenderClean | app/src/main/java/com/mycelium/servicemonitor/ui/main/EditServiceScreen.kt:88 | a clean header renders without ',' and parses back to itself |
| Headers.ParseRendered | app/src/main/java/common/ext.kt:6-9 | segments that are renderings of clean headers parse back to those headers |
| Headers.ParseRenders | app/src/main/java/common/ext.kt:6-9 | the rendered segments of clean headers parse back to the same list |
| Headers.RoundTrip | app/src/main/java/com/mycelium/servicemonitor/ui/main/AddServiceScreen.kt:99 | `parseHeaders(joinToString(",") {"k:v"})` returns the list, for headers trimmed and free of ',' and ':' |
| Headers.ParseIdempotent | app/src/main/java/com/mycelium/servicemonitor/ui/main/EditServiceScreen.kt:88 | parse, serialise, parse again equals parse once, for every input string |
| Headers.EmptyText | app/src/main/java/common/ext.kt:5 | "" and whitespace-only text parse to the empty list |
| Headers.TwoHeaders | app/src/main/java/common/ext.kt:6-9 | "A:1,B:2" parses to [("A","1"),("B","2")] |
| Headers.OneHeader | app/src/main/java/common/ext.kt:6-9 | "A:1" parses to [("A","1")] |
| Headers.SegmentWithoutColonDropped | app/src/main/java/common/ext.kt:8 | "bad,A:1" parses to [("A","1")] |
| Headers.SegmentWithoutColonIgnored | app/src/main/java/common/ext.kt:6-8 | a leading segment without ':' changes nothing in the result |
| Headers.ValueStopsAtSecondColon | app/src/main/java/common/ext.kt:7-8 | "name:value:rest" gives (trim(name), trim(value)): text after the second ':' is lost |
| Headers.NoColonNoHeaders | app/src/main/java/common/ext.kt:6-8 | `parseHeaders` of text with no ':' is empty |
| Strings.Trim | app/src/main/java/common/ext.kt:8 | the result has no leading or trailing whitespace, keeps trimmed text unchanged, and is empty exactly for blank text |
| Strings.Split | app/src/main/java/common/ext.kt:6-7 | at least one piece, no piece holds the delimiter, and joining the pieces with it gives the input back |
| Strings.SplitJoin | app/src/main/java/common/ext.kt:6 | splitting a join of delimiter-free pieces returns the pieces |
| Strings.Uppercase | app/src/main/java/com/mycelium/servicemonitor/worker/HttpServiceChecker.kt:27 | same length, each letter a-z mapped to A-Z, other characters kept |
| Strings.UppercaseIdempotent | app/src/main/java/com/mycelium/servicemonitor/worker/HttpServiceChecker.kt:27 | uppercasing twice equals uppercasing once |
| Strings.RemovePrefix | app/src/main/java/com/mycelium/servicemonitor/worker/TcpTlsServiceChecker.kt:27 | drops the prefix once when present, otherwise returns the input |
| Decimal.Show | app/src/main/java/com/mycelium/servicemonitor/worker/HttpServiceChecker.kt:39 | `Int.toString`: digits only, with a leading '-' for negatives |
| Decimal.ToIntOrNull | app/src/main/java/com/mycelium/servicemonitor/worker/TcpTlsServiceChecker.kt:30 | a value only for an optionally signed digit string whose value fits in an `Int` |
| Decimal.NotAnInteger | app/src/main/java/com/mycelium/servicemonitor/worker/TcpTlsServiceChecker.kt:30 | a non-digit after the first character makes the text no `Int` |
| Decimal.ParseShow | app/src/main/java/com/mycelium/servicemonitor/worker/TcpTlsServiceChecker.kt:30 | every integer's decimal text reads back as itself |
| Decimal.ToIntOrNullShow | app/src/main/java/com/mycelium/servicemonitor/worker/TcpTlsServiceChecker.kt:30 | `toIntOrNull(n.toString()) == n` for every `Int` n |
| Decimal.ShowInjective | app/src/main/java/com/mycelium/servicemonitor/worker/ServiceCheckScheduler.kt:53 | distinct integers have distinct decimal texts |
| Utf8.Encode | app/src/main/java/com/mycelium/servicemonitor/worker/HttpServiceChecker.kt:32 | UTF-8 takes one to four bytes per character |
| Utf8.EncodeAscii | app/src/main/java/com/mycelium/servicemonitor/worker/HttpServiceChecker.kt:32 | ASCII text encodes to its own code points, one byte each |
| Utf8.EncodeAppend | app/src/main/java/com/mycelium/servicemonitor/worker/HttpServiceChecker.kt:32 | encoding distributes over concatenation |
| CommonKeys.EntriesToMap | app/src/main/java/common/CommonKeys.kt:11-19 | `mapOf(pairs)`: its keys are exactly the labels |
| CommonKeys.Invert | app/src/main/java/common/CommonKeys.kt:20 | `associate { value to key }`: its keys are exactly the minute values |
| CommonKeys.MapKeepsEntries | app/src/main/java/common/CommonKeys.kt:11-19 | with distinct labels every pair is kept and the map has one entry per pair |
| CommonKeys.InvertKeepsEntries | app/src/main/java/common/CommonKeys.kt:20 | with distinct values every pair is kept reversed and the inverse has one entry per pair |
| CommonKeys.MapValuesFromEntries | app/src/main/java/common/CommonKeys.kt:11-19 | every value of the map is the value of some pair |
| CommonKeys.IntervalChoices | app/src/main/java/common/CommonKeys.kt:11-19 | each label maps to its minutes (15, 30, 60, 180, 720, 1440, 10080), and every value is at least 15, so the scheduler's floor never changes it |
| CommonKeys.EntriesAtLeastFloor | app/src/main/java/common/CommonKeys.kt:11-19 | every option is at least 15 minutes |
| CommonKeys.IntervalInverse | app/src/main/java/common/CommonKeys.kt:11-20 | the map and its inverse undo each other in both directions, and each has 7 entries |
| CommonKeys.EntriesDistinct | app/src/main/java/common/CommonKeys.kt:11-19 | the labels are distinct and so are the minute values |
| CommonKeys.LabelOfNonChoice | app/src/main/java/com/mycelium/servicemonitor/ui/main/ServiceListScreen.kt:548 | a value that is not an option (45, say) shows as "" |
| CommonKeys.PredefinedKeysRoundTrip | app/src/main/java/common/CommonKeys.kt:6-9 | any list of headers named from the predefined keys, in any order and repeated or not, with clean values, survives serialise-then-parse |
| CommonKeys.PredefinedKeysClean | app/src/main/java/common/CommonKeys.kt:6-9 | each predefined key is trimmed and holds no ',' or ':' |
| CommonKeys.PredefinedKeysDistinct | app/src/main/java/common/CommonKeys.kt:6-9 | the eight predefined keys are distinct |
| ServiceModel.ToModel | app/src/main/java/com/mycelium/servicemonitor/model/ModelExt.kt:4-14 | copies the eight `Service` fields of the row; every other field is at its default |
| ServiceModel.ToEntity | app/src/main/java/com/mycelium/servicemonitor/model/ModelExt.kt:16-26 | copies the eight fields; method, body, responsePattern, useRegexPattern, sha1Certificate, lastSuccessfulCheck, position and groupName are written as column defaults |
| ServiceModel.ModelEntityRoundTrip | app/src/main/java/com/mycelium/servicemonitor/model/ModelExt.kt:4-26 | `toModel(toEntity(s)) == s` exactly when the fields Service.kt lacks hold their defaults, which holds for every service Service.kt can build |
| ServiceModel.EntityModelRoundTrip | app/src/main/java/com/mycelium/servicemonitor/model/ModelExt.kt:4-26 | `toEntity(toModel(e)) == e` exactly when e's extra columns hold their defaults |
| ServiceModel.EntityProjectionIdempotent | app/src/main/java/com/mycelium/servicemonitor/model/ModelExt.kt:4-26 | `toEntity ∘ toModel` applied twice equals applied once |
| ServiceModel.NewService | app/src/main/java/com/mycelium/servicemonitor/model/Service.kt:7-19 | a fresh service has id 0, status "", lastChecked 0, archived false and headers as given, and exports as its four fields |
| ServiceModel.NewServiceSurvivesExport | app/src/main/java/com/mycelium/servicemonitor/model/Service.kt:7-19 | a fresh service survives export then import unchanged |
| ServiceModel.Export | app/src/main/java/com/mycelium/servicemonitor/model/Service.kt:8-18 | the serialised form carries only name, url, interval and headers |
| ServiceModel.Import | app/src/main/java/com/mycelium/servicemonitor/worker/ServiceDataImporter.kt:26 | a decoded service has the four fields and every transient field at its default |
| ServiceModel.ExportImport | app/src/main/java/com/mycelium/servicemonitor/model/Service.kt:7-19 | import then export gives the exported form back |
| ServiceModel.ImportExportProjection | app/src/main/java/com/mycelium/servicemonitor/model/Service.kt:8-18 | export then import resets id, status, lastChecked and archived, and is idempotent |
| ServiceModel.ImportServices | app/src/main/java/com/mycelium/servicemonitor/worker/ServiceDataImporter.kt:21-30 | a failed read or decode gives the empty list; otherwise one service per decoded entry, in order; every id is 0 |
| ServiceModel.ExportedListRoundTrip | app/src/main/java/com/mycelium/servicemonitor/worker/ServiceDataExporter.kt:18 | an exported list imported back keeps every exported field, in order, with ids 0 |
| ServiceDao.Insert | app/src/main/java/com/mycelium/servicemonitor/repository/ServiceDao.kt:14-15 | id 0 gets a fresh generated id that no row already has; any other id is stored under that id, replacing any row there |
| ServiceDao.Update | app/src/main/java/com/mycelium/servicemonitor/repository/ServiceDao.kt:17-18 | overwrites the row with that id; a missing id leaves the table as it was |
| ServiceDao.Delete | app/src/main/java/com/mycelium/servicemonitor/repository/ServiceDao.kt:20-21 | removes the entity's key and only that key; other rows unchanged |
| ServiceDao.DeleteAll | app/src/main/java/com/mycelium/servicemonitor/repository/ServiceDao.kt:32-33 | the table is empty; the AUTOINCREMENT counter is kept |
| ServiceDao.GetById | app/src/main/java/com/mycelium/servicemonitor/repository/ServiceDao.kt:29-30 | the row with that id exactly when it exists, else null |
| ServiceDao.InsertAutoIdIsFresh | app/src/main/java/com/mycelium/servicemonitor/repository/ServiceDao.kt:14-15 | an id-0 insert adds exactly one row, under a new id, and leaves every existing row alone |
| ServiceDao.InsertReplaces | app/src/main/java/com/mycelium/servicemonitor/repository/ServiceDao.kt:14-15 | an insert with an existing id replaces that row only and keeps the row count |
| ServiceDao.UpdateThenGet | app/src/main/java/com/mycelium/servicemonitor/repository/ServiceDao.kt:17-18 | reading after an update gives the update for an existing row, and the old answer for every other id |
| ServiceDao.UpdateLastWins | app/src/main/java/com/mycelium/servicemonitor/repository/ServiceDao.kt:17-18 | of two updates of one row, only the later one remains |
| ServiceDao.DeleteThenGet | app/src/main/java/com/mycelium/servicemonitor/repository/ServiceDao.kt:20-21 | after a delete that id reads null and every other id reads as before |
| ServiceDao.ServiceDao.InsertService | app/src/main/java/com/mycelium/servicemonitor/repository/ServiceDao.kt:14-15 | the table becomes `Insert` of the old table, and stays valid |
| ServiceDao.ServiceDao.UpdateService | app/src/main/java/com/mycelium/servicemonitor/repository/ServiceDao.kt:17-18 | the table becomes `Update` of the old table |
| ServiceDao.ServiceDao.DeleteService | app/src/main/java/com/mycelium/servicemonitor/repository/ServiceDao.kt:20-21 | the table becomes `Delete` of the old table |
| ServiceDao.ServiceDao.DeleteAllServices | app/src/main/java/com/mycelium/servicemonitor/repository/ServiceDao.kt:32-33 | the table becomes empty |
| ServiceDao.ServiceDao.GetServiceById | app/src/main/java/com/mycelium/servicemonitor/repository/ServiceDao.kt:29-30 | the stored row with that id, exactly when there is one |
| ServiceDao.ServiceDao.GetAllServices | app/src/main/java/com/mycelium/servicemonitor/repository/ServiceDao.kt:23-24 | every row exactly once, in some order |
| ServiceRepository.InsertModel | app/src/main/java/com/mycelium/servicemonitor/repository/ServiceRepository.kt:13-16 | the service lands under its own id, or under a fresh one when its id is 0; reading that row back gives the service's eight fields; no other row changes |
| ServiceRepository.UpdateModel | app/src/main/java/com/mycelium/servicemonitor/repository/ServiceRepository.kt:23-26 | the row with the service's id reads back as the service's eight fields; no other row changes; without such a row the table is unchanged |
| ServiceRepository.Archive | app/src/main/java/com/mycelium/servicemonitor/repository/ServiceRepository.kt:48-51 | the row reads back as the snapshot with archived = true and no other field changed; other rows unchanged; an absent service stays absent |
| ServiceRepository.Unarchive | app/src/main/java/com/mycelium/servicemonitor/repository/ServiceRepository.kt:53-56 | the row reads back as the snapshot with archived = false; other rows unchanged; an absent service stays absent |
| ServiceRepository.GetService | app/src/main/java/com/mycelium/servicemonitor/repository/ServiceRepository.kt:42-43 | `toModel` of the row with that id, or null when there is none; its extra fields are defaults |
| ServiceRepository.ToModels | app/src/main/java/com/mycelium/servicemonitor/repository/ServiceRepository.kt:18 | one `toModel` per row, same count and order |
| ServiceRepository.EnumerationToModels | app/src/main/java/com/mycelium/servicemonitor/repository/ServiceRepository.kt:18 | mapping an enumeration of the rows gives every stored service exactly once |
| ServiceRepository.InsertAll | app/src/main/java/com/mycelium/servicemonitor/ui/main/ServiceListViewModel.kt:94-97 | inserting a list one by one keeps the table valid |
| ServiceRepository.InsertAllFresh | app/src/main/java/com/mycelium/servicemonitor/ui/main/ServiceListViewModel.kt:94-97 | imported services (all id 0) each add one new row and never overwrite a stored one |
| ServiceRepository.OrderSwap | app/src/main/java/com/mycelium/servicemonitor/repository/ServiceRepository.kt:28-40 | the swap request is (id, position, id of the row at that position or -1, position + 1) |
| ServiceRepository.OrderSwapOfStoredService | app/src/main/java/com/mycelium/servicemonitor/repository/ServiceRepository.kt:28-40 | a service read from the repository has position 0, so its swap always asks for positions 0 and 1 |
| ServiceRepository.WritesStoreDefaults | app/src/main/java/com/mycelium/servicemonitor/repository/ServiceRepository.kt:13-26 | every write stores the eight fields and the column defaults for the rest |
| ServiceRepository.ArchiveIdempotent | app/src/main/java/com/mycelium/servicemonitor/repository/ServiceRepository.kt:48-56 | archiving twice is archiving once, and the same holds for unarchiving |
| ServiceRepository.ArchiveLastWins | app/src/main/java/com/mycelium/servicemonitor/repository/ServiceRepository.kt:48-56 | of an archive and an unarchive of one snapshot, the later decides |
| ServiceRepository.ServiceRepository.InsertService | app/src/main/java/com/mycelium/servicemonitor/repository/ServiceRepository.kt:13-16 | the table becomes `InsertModel` of the old table |
| ServiceRepository.ServiceRepository.GetAllServices | app/src/main/java/com/mycelium/servicemonitor/repository/ServiceRepository.kt:18 | every stored row through `toModel`, each exactly once |
| ServiceRepository.ServiceRepository.UpdateService | app/src/main/java/com/mycelium/servicemonitor/repository/ServiceRepository.kt:23-26 | the table becomes `UpdateModel` of the old table |
| ServiceRepository.ServiceRepository.GetServiceById | app/src/main/java/com/mycelium/servicemonitor/repository/ServiceRepository.kt:42-43 | `toModel` of the row with that id, or null |
| ServiceRepository.ServiceRepository.RemoveService | app/src/main/java/com/mycelium/servicemonitor/repository/ServiceRepository.kt:45-46 | deletes the row with the service's id only |
| ServiceRepository.ServiceRepository.ArchiveService | app/src/main/java/com/mycelium/servicemonitor/repository/ServiceRepository.kt:48-51 | the table becomes `Archive` of the old table |
| ServiceRepository.ServiceRepository.UnarchiveService | app/src/main/java/com/mycelium/servicemonitor/repository/ServiceRepository.kt:53-56 | the table becomes `Unarchive` of the old table |
| ServiceRepository.ServiceRepository.RemoveAll | app/src/main/java/com/mycelium/servicemonitor/repository/ServiceRepository.kt:58-60 | the table becomes empty |
| CheckHistory.InsertRecord | app/src/main/java/com/mycelium/servicemonitor/repository/CheckHistoryDao.kt:11-12 | id 0 appends the record under the next id; an existing id replaces that record; another id is appended; ids stay distinct |
| CheckHistory.SortDesc | app/src/main/java/com/mycelium/servicemonitor/repository/CheckHistoryDao.kt:14 | `ORDER BY timestamp DESC`: newest first, a permutation of the log |
| CheckHistory.PageStart | app/src/main/java/com/mycelium/servicemonitor/repository/CheckHistoryDao.kt:14 | a negative OFFSET counts as 0, an offset within the table is kept, and an offset past the end gives the end (an empty page) |
| CheckHistory.PageEnd | app/src/main/java/com/mycelium/servicemonitor/repository/CheckHistoryDao.kt:14 | a negative LIMIT means no limit; otherwise at most `limit` records |
| CheckHistory.Query | app/src/main/java/com/mycelium/servicemonitor/repository/CheckHistoryDao.kt:14-15 | the slice [offset, offset+limit) of the newest-first log: at most `limit` records, newest first |
| CheckHistory.QueryReturnsInserted | app/src/main/java/com/mycelium/servicemonitor/repository/CheckHistoryDao.kt:11-15 | every returned record was inserted, and none is returned more often than stored |
| CheckHistory.FirstPageIsNewest | app/src/main/java/com/mycelium/servicemonitor/repository/CheckHistoryDao.kt:14-15 | a first page is a prefix of the sorted log: no record left out is newer than one returned |
| CheckHistory.InsertAutoIdAppends | app/src/main/java/com/mycelium/servicemonitor/repository/CheckHistoryDao.kt:11-12 | an id-0 insert grows the log by exactly that record and keeps the rest in place |
| CheckHistory.InsertClashReplaces | app/src/main/java/com/mycelium/servicemonitor/repository/CheckHistoryDao.kt:11-12 | an insert with an id already present keeps the log size and stores the new record |
| CheckHistory.RecentHistory | app/src/main/java/com/mycelium/servicemonitor/repository/HistoryRepository.kt:14-16 | the newest records, newest first: exactly 50 of them, or all of them when there are fewer |
| CheckHistory.CheckHistoryDao.Insert | app/src/main/java/com/mycelium/servicemonitor/repository/CheckHistoryDao.kt:11-12 | the log becomes `InsertRecord` of the old log and stays valid |
| CheckHistory.CheckHistoryDao.GetAll | app/src/main/java/com/mycelium/servicemonitor/repository/CheckHistoryDao.kt:14-15 | the query result: at most `limit` records, newest first |
| CheckHistory.HistoryRepository.Insert | app/src/main/java/com/mycelium/servicemonitor/repository/HistoryRepository.kt:10-12 | forwards to the DAO insert |
| CheckHistory.HistoryRepository.GetAll | app/src/main/java/com/mycelium/servicemonitor/repository/HistoryRepository.kt:14-16 | the DAO query with offset 0 and limit 50: exactly 50 records, or all when there are fewer |
| TcpTlsChecker.PortField | app/src/main/java/com/mycelium/servicemonitor/worker/TcpTlsServiceChecker.kt:29-30 | a port text exactly when there is a ':'; it is the piece after the first ':' |
| TcpTlsChecker.HostPort | app/src/main/java/com/mycelium/servicemonitor/worker/TcpTlsServiceChecker.kt:28-30 | host is the text before the first ':'; port is the second piece when it reads as an `Int`, else 443 |
| TcpTlsChecker.ParseTcpTlsUrl | app/src/main/java/com/mycelium/servicemonitor/worker/TcpTlsServiceChecker.kt:26-32 | one leading "tcp-tls://" is removed if present, then the remainder is split as above |
| TcpTlsChecker.HostIsLeadingPiece | app/src/main/java/com/mycelium/servicemonitor/worker/TcpTlsServiceChecker.kt:28-29 | the host has no ':' and is a prefix of the text after the scheme, possibly empty |
| TcpTlsChecker.HostPortRoundTrip | app/src/main/java/com/mycelium/servicemonitor/worker/TcpTlsServiceChecker.kt:26-32 | `tcp-tls://host:port` reads back as (host, port) for every ':'-free host and `Int` port |
| TcpTlsChecker.NoColonDefaultPort | app/src/main/java/com/mycelium/servicemonitor/worker/TcpTlsServiceChecker.kt:30 | without ':' the port is 443 and the host is the whole remainder |
| TcpTlsChecker.PortBetweenColons | app/src/main/java/com/mycelium/servicemonitor/worker/TcpTlsServiceChecker.kt:28-30 | the port is read only from the text between the first and second ':' |
| TcpTlsChecker.PathAfterPortFallsBack | app/src/main/java/com/mycelium/servicemonitor/worker/TcpTlsServiceChecker.kt:30 | "host:8443/path" dials ("host", 443) |
| TcpTlsChecker.ThirdPieceIgnored | app/src/main/java/com/mycelium/servicemonitor/worker/TcpTlsServiceChecker.kt:28-30 | "h:1:2" dials ("h", 1) |
| TcpTlsChecker.NegativePortAccepted | app/src/main/java/com/mycelium/servicemonitor/worker/TcpTlsServiceChecker.kt:30 | "h:-5" dials port -5: no range check |
| TcpTlsChecker.LargePortAccepted | app/src/main/java/com/mycelium/servicemonitor/worker/TcpTlsServiceChecker.kt:30 | "h:70000" dials port 70000: no range check |
| TcpTlsChecker.Status | app/src/main/java/com/mycelium/servicemonitor/worker/TcpTlsServiceChecker.kt:12-24 | "ok" after a completed handshake, otherwise the exception message or "" |
| TcpTlsChecker.StatusOk | app/src/main/java/com/mycelium/servicemonitor/worker/TcpTlsServiceChecker.kt:12-24 | the result is "ok" exactly when the handshake completed or the exception's message is "ok"; a message-less exception gives "" |
| TcpTlsChecker.Check | app/src/main/java/com/mycelium/servicemonitor/worker/TcpTlsServiceChecker.kt:12-24 | the status of the handshake with the parsed host and port |
| HttpChecker.EffectiveMethod | app/src/main/java/com/mycelium/servicemonitor/worker/HttpServiceChecker.kt:27 | "GET" for an empty method, otherwise the method uppercased; never empty |
| HttpChecker.EffectiveMethodIdempotent | app/src/main/java/com/mycelium/servicemonitor/worker/HttpServiceChecker.kt:27 | normalising a normalised method changes nothing |
| HttpChecker.GetSendsNoBody | app/src/main/java/com/mycelium/servicemonitor/worker/HttpServiceChecker.kt:29 | GET (explicit, lower-case or defaulted) never sends a body, and an empty body is never sent |
| HttpChecker.LowerCasePostSendsBody | app/src/main/java/com/mycelium/servicemonitor/worker/HttpServiceChecker.kt:27-29 | "post" becomes POST and sends a non-empty body |
| HttpChecker.StatusLine | app/src/main/java/com/mycelium/servicemonitor/worker/HttpServiceChecker.kt:39 | "<code> <message>": the code's text, one space, then the message, or "null" when there is none |
| HttpChecker.Classify | app/src/main/java/com/mycelium/servicemonitor/worker/HttpServiceChecker.kt:39 | "ok" for codes 200..299, otherwise "<code> <message>" |
| HttpChecker.StatusLineNotOk | app/src/main/java/com/mycelium/servicemonitor/worker/HttpServiceChecker.kt:39 | a status line is never "ok" |
| HttpChecker.ClassifyOk | app/src/main/java/com/mycelium/servicemonitor/worker/HttpServiceChecker.kt:39 | the classification is "ok" exactly for codes 200..299 |
| HttpChecker.ClassifyKeepsCode | app/src/main/java/com/mycelium/servicemonitor/worker/HttpServiceChecker.kt:39 | for other codes, the text before the first space reads back as the code |
| HttpChecker.FirstRejected | app/src/main/java/com/mycelium/servicemonitor/worker/HttpServiceChecker.kt:22-24 | where setting the headers stops: every header before it is accepted, and the one at it (if any) is rejected |
| HttpChecker.FirstRejectedIs | app/src/main/java/com/mycelium/servicemonitor/worker/HttpServiceChecker.kt:22-24 | an index with every earlier header accepted and a rejection (or the end) at it is the stopping point |
| HttpChecker.AllHeadersAccepted | app/src/main/java/com/mycelium/servicemonitor/worker/HttpServiceChecker.kt:22-24 | setting runs to the end exactly when every header is accepted |
| HttpChecker.HeaderStep | app/src/main/java/com/mycelium/servicemonitor/worker/HttpServiceChecker.kt:22-24 | setting the headers ends in Done exactly when all are accepted; otherwise it ends in the first rejection |
| HttpChecker.HttpStatus | app/src/main/java/com/mycelium/servicemonitor/worker/HttpServiceChecker.kt:14-42 | the first step that throws decides the result, checked in source order: opening, then each header, then the method setter, then the body write (body methods only). Its message is reported, or "" without one. If none throws, a response is classified ("ok" for 2xx, otherwise "<code> <message>") and a failed exchange reports its reason |
| HttpChecker.HttpStatusOk | app/src/main/java/com/mycelium/servicemonitor/worker/HttpServiceChecker.kt:14-42 | the check says "ok" exactly when the exchange gets a 2xx response, or when the step that threw (opening, a header, the method, the write or the exchange) carried the message "ok" |
| HttpChecker.SilentFailureIsEmpty | app/src/main/java/com/mycelium/servicemonitor/worker/HttpServiceChecker.kt:40-41 | an exception without a message yields "", which is not "ok" |
| HttpChecker.PreparedRequest | app/src/main/java/com/mycelium/servicemonitor/worker/HttpServiceChecker.kt:18-34 | the request carries the parsed headers up to the first rejected one, and all of them exactly when none is rejected. The 5000 ms timeouts and the method are set only after every header is accepted. Custom trust exactly for HTTPS with a non-empty sha1. doOutput exactly when the headers and the method were accepted and a body method has a non-empty body. Any output is the UTF-8 body |
| HttpChecker.RejectedHeaderEndsCheck | app/src/main/java/com/mycelium/servicemonitor/worker/HttpServiceChecker.kt:22-24 | a rejected header ends the check with its message: only the earlier headers are set, no timeout, no output, and no exchange takes place |
| HttpChecker.EmptyHeaderNameReported | app/src/main/java/com/mycelium/servicemonitor/worker/HttpServiceChecker.kt:22-24 | header text ":v" parses to one header with an empty name; if the platform rejects it, its message is the status |
| HttpChecker.SentBodyIsEncoded | app/src/main/java/com/mycelium/servicemonitor/worker/HttpServiceChecker.kt:29-34 | when a body is sent, the bytes are its UTF-8 encoding, one to four per character |
| HttpChecker.DefaultRequestIsPlainGet | app/src/main/java/com/mycelium/servicemonitor/worker/HttpServiceChecker.kt:27-34 | a service without a method sends a GET with no output |
| HttpChecker.Connection.SetRequestProperty | app/src/main/java/com/mycelium/servicemonitor/worker/HttpServiceChecker.kt:23 | returns what the platform does with the header; appends it only if accepted, and changes nothing else |
| HttpChecker.Connection.SetRequestProperties | app/src/main/java/com/mycelium/servicemonitor/worker/HttpServiceChecker.kt:22-24 | sets the headers in order up to the first rejected one, returns that rejection (or Done), and changes nothing else |
| HttpChecker.HttpServiceChecker.ConfigureConnection | app/src/main/java/com/mycelium/servicemonitor/worker/HttpServiceChecker.kt:18-26 | sets trust and the parsed headers on a fresh connection. On a rejected header it stops and returns the rejection, leaving the earlier headers and no timeouts. Otherwise it also sets both 5000 ms timeouts and returns Done |
| HttpChecker.HttpServiceChecker.ConfigureRequest | app/src/main/java/com/mycelium/servicemonitor/worker/HttpServiceChecker.kt:27-34 | leaves the connection in the prepared state and reports the step that threw, if any |
| HttpChecker.HttpServiceChecker.Check | app/src/main/java/com/mycelium/servicemonitor/worker/HttpServiceChecker.kt:14-42 | returns `HttpStatus`, including header, method and write failures. A connection exists exactly when opening succeeded, and it is left in the prepared state |
| CheckWorker.GetChecker | app/src/main/java/com/mycelium/servicemonitor/worker/ServiceCheckWorker.kt:21-27 | HTTP and HTTPS pick the HTTP checker; TCP_TLS, and only it, picks the TCP/TLS checker |
| CheckWorker.NetworkQualityGate | app/src/main/java/com/mycelium/servicemonitor/worker/ServiceCheckWorker.kt:89-99 | sufficient exactly when capabilities exist, are VALIDATED and report at least 1000 kbps; a faster link stays sufficient |
| CheckWorker.DownNotification | app/src/main/java/com/mycelium/servicemonitor/worker/ServiceCheckWorker.kt:76-81 | title "Server Check", message "Server is down: " followed by the url |
| CheckWorker.Probe | app/src/main/java/com/mycelium/servicemonitor/worker/ServiceCheckWorker.kt:51-52 | the result of the checker `getChecker` picks |
| CheckWorker.UpdatedAfterCheckFields | app/src/main/java/com/mycelium/servicemonitor/worker/ServiceCheckWorker.kt:54-62 | status and lastChecked take the result and now; lastSuccessfulCheck takes now only on "ok", so it never decreases under a monotone clock; nothing else changes |
| CheckWorker.HistoryRecord | app/src/main/java/com/mycelium/servicemonitor/worker/ServiceCheckWorker.kt:64-70 | a new record (id 0) with the service name, now and the result |
| CheckWorker.InputServiceId | app/src/main/java/com/mycelium/servicemonitor/worker/ServiceCheckWorker.kt:40 | a missing input reads as -1 |
| CheckWorker.DoWorkKeepsValid | app/src/main/java/com/mycelium/servicemonitor/worker/ServiceCheckWorker.kt:38-87 | a run keeps the table and the log well formed |
| CheckWorker.FailureChangesNothing | app/src/main/java/com/mycelium/servicemonitor/worker/ServiceCheckWorker.kt:40-44 | Failure exactly when the id is -1 or not stored, and then nothing changes |
| CheckWorker.RetryChangesNothing | app/src/main/java/com/mycelium/servicemonitor/worker/ServiceCheckWorker.kt:46-48 | Retry exactly when the service exists but the network is insufficient, and then nothing changes |
| CheckWorker.SuccessAppendsOneRecord | app/src/main/java/com/mycelium/servicemonitor/worker/ServiceCheckWorker.kt:64-70 | a completed probe returns Success and appends exactly one record {name, now, result} |
| CheckWorker.SuccessWritesRow | app/src/main/java/com/mycelium/servicemonitor/worker/ServiceCheckWorker.kt:73 | the row gets the result and now; its stored lastSuccessfulCheck is 0; every other row is unchanged |
| CheckWorker.SuccessNotifies | app/src/main/java/com/mycelium/servicemonitor/worker/ServiceCheckWorker.kt:75-84 | a result other than "ok" shows the down notification under the service id; "ok" cancels it; other ids are untouched |
| CheckWorker.ProbeSeesPlainGet | app/src/main/java/com/mycelium/servicemonitor/worker/ServiceCheckWorker.kt:44-52 | a service read by the worker has no method, body or sha1, so its HTTP probe is a plain GET without custom trust |
| CheckWorker.NotificationCenter.ShowNotification | app/src/main/java/com/mycelium/servicemonitor/worker/ServiceCheckWorker.kt:76-81 | the notification is stored under its id, replacing any earlier one |
| CheckWorker.NotificationCenter.CancelNotification | app/src/main/java/com/mycelium/servicemonitor/worker/ServiceCheckWorker.kt:83 | the notification with that id is removed |
| CheckWorker.ServiceCheckWorker.DoWork | app/src/main/java/com/mycelium/servicemonitor/worker/ServiceCheckWorker.kt:38-87 | the new table, log and notifications, and the result, are exactly those of the transition function |
| Scheduler.EnqueueUpdate | app/src/main/java/com/mycelium/servicemonitor/worker/ServiceCheckScheduler.kt:52-56 | UPDATE keeps every work id below the next free id |
| Scheduler.EnqueueReplace | app/src/main/java/com/mycelium/servicemonitor/worker/ServiceCheckScheduler.kt:82-86 | REPLACE keeps every work id below the next free id |
| Scheduler.EnqueueUpdateEffect | app/src/main/java/com/mycelium/servicemonitor/worker/ServiceCheckScheduler.kt:52-56 | one job under the name, with the new request; an existing job keeps its work id, otherwise it gets an unused one; other names untouched |
| Scheduler.EnqueueReplaceEffect | app/src/main/java/com/mycelium/servicemonitor/worker/ServiceCheckScheduler.kt:82-86 | one job under the name, a new work id and the new request; other names untouched |
| Scheduler.EnqueueUpdateIdempotent | app/src/main/java/com/mycelium/servicemonitor/worker/ServiceCheckScheduler.kt:52-56 | enqueueing the same request twice with UPDATE equals enqueueing it once |
| Scheduler.EnqueueReplaceLatestWins | app/src/main/java/com/mycelium/servicemonitor/worker/ServiceCheckScheduler.kt:82-86 | two REPLACE requests under one name leave one job, the later request |
| Scheduler.NamesDistinct | app/src/main/java/com/mycelium/servicemonitor/worker/ServiceCheckScheduler.kt:53 | each job name is one service id's, and no periodic name is an immediate one |
| Scheduler.PeriodicInterval | app/src/main/java/com/mycelium/servicemonitor/worker/ServiceCheckScheduler.kt:39 | max(interval, 15) |
| Scheduler.PeriodicRequest | app/src/main/java/com/mycelium/servicemonitor/worker/ServiceCheckScheduler.kt:39-49 | a periodic request for the service's id, interval floored at 15, flex 2 |
| Scheduler.ScheduleAllSchedules | app/src/main/java/com/mycelium/servicemonitor/worker/ServiceCheckScheduler.kt:37-57 | with distinct ids, every service gets its periodic job; only their names are added; other jobs are unchanged |
| Scheduler.ScheduleAllKeys | app/src/main/java/com/mycelium/servicemonitor/worker/ServiceCheckScheduler.kt:37-57 | the names added are exactly the services' periodic names |
| Scheduler.ScheduleAllUntouched | app/src/main/java/com/mycelium/servicemonitor/worker/ServiceCheckScheduler.kt:37-57 | a job under any other name is left as it was |
| Scheduler.ScheduleAllIdempotent | app/src/main/java/com/mycelium/servicemonitor/worker/ServiceCheckScheduler.kt:33-58 | scheduling the same services twice equals scheduling once: jobs are replaced, never duplicated |
| Scheduler.CheckAllChecks | app/src/main/java/com/mycelium/servicemonitor/worker/ServiceCheckScheduler.kt:60-66 | every service gets one immediate job for its id; only their names are added; other jobs, periodic ones included, are unchanged |
| Scheduler.ImmediateLeavesPeriodic | app/src/main/java/com/mycelium/servicemonitor/worker/ServiceCheckScheduler.kt:83 | an immediate check leaves every periodic job as it was |
| Scheduler.NamesMatchPreserved | app/src/main/java/com/mycelium/servicemonitor/worker/ServiceCheckScheduler.kt:40-42 | every job's input serviceId is the id in its name, and scheduling and checking keep it so |
| Scheduler.EveryRowScheduled | app/src/main/java/com/mycelium/servicemonitor/worker/ServiceCheckScheduler.kt:33-58 | every stored row, archived or not, has its periodic job, and a second run changes nothing |
| Scheduler.WorkManager.EnqueueUniquePeriodicWork | app/src/main/java/com/mycelium/servicemonitor/worker/ServiceCheckScheduler.kt:52-56 | the table becomes `EnqueueUpdate` of the old table |
| Scheduler.WorkManager.EnqueueUniqueWork | app/src/main/java/com/mycelium/servicemonitor/worker/ServiceCheckScheduler.kt:82-86 | the table becomes `EnqueueReplace` of the old table |
| Scheduler.ServiceCheckScheduler.ScheduleAllServiceChecks | app/src/main/java/com/mycelium/servicemonitor/worker/ServiceCheckScheduler.kt:33-58 | reads every stored service once and schedules each in turn |
| Scheduler.ServiceCheckScheduler.SchedulePeriodicEach | app/src/main/java/com/mycelium/servicemonitor/worker/ServiceCheckScheduler.kt:37-57 | the loop leaves the table as the fold of periodic enqueues over the services |
| Scheduler.ServiceCheckScheduler.AllServiceChecksNow | app/src/main/java/com/mycelium/servicemonitor/worker/ServiceCheckScheduler.kt:60-66 | reads every stored service once and checks each in turn |
| Scheduler.ServiceCheckScheduler.CheckEach | app/src/main/java/com/mycelium/servicemonitor/worker/ServiceCheckScheduler.kt:63-65 | the loop leaves the table as the fold of immediate enqueues over the services |
| Scheduler.ServiceCheckScheduler.CheckServiceNow | app/src/main/java/com/mycelium/servicemonitor/worker/ServiceCheckScheduler.kt:68-70 | one immediate enqueue for the service |
| Scheduler.ServiceCheckScheduler.Check | app/src/main/java/com/mycelium/servicemonitor/worker/ServiceCheckScheduler.kt:72-87 | REPLACE under "ImmediateServiceCheckWorker_<id>" with a one-time request for that id |

## Left out

- Network I/O: `URL.openConnection`, the socket, the TLS handshake and the HTTP exchange are an input (`Network`, `Handshake`). Each step either completes or throws with an optional message.
- `configureHttps`: only the condition that installs the trust-all manager is modelled, as the `customTrust` flag of the request. The trust manager and the hostname verifier are Android API internals.
- `HttpURLConnection.setRequestMethod` may reject a method; this is the oracle `acceptMethod`. When the output-stream write throws, the model leaves the output empty.
- `HttpChecker.Connection.SetRequestProperties`: each accepted `setRequestProperty` call is recorded in order. Which headers the platform rejects is an input (`Network.acceptHeader`). How it merges or overrides repeated keys is not modelled.
- `Strings.Uppercase`: only ASCII letters are mapped. Kotlin's `uppercase()` applies full Unicode case mapping, which can also change length (for example 'ß' becomes "SS").
- `Decimal.ToIntOrNull`: only the ASCII digits '0'-'9' count as digits. Kotlin's `toIntOrNull` also accepts other Unicode decimal digits.
- `CommonKeys.IntervalChoices`: states each label's minutes entry by entry, and that every value is at least 15. It does not state set equality of the value set with {15, 30, 60, 180, 720, 1440, 10080}.
- `CheckHistory.SortDesc`: records with equal timestamps keep insertion order. SQLite leaves their order unspecified, so this is one permitted outcome.
- `CheckWorker.ServiceCheckWorker.DoWork`: the three `System.currentTimeMillis()` calls of one run are taken as one input `now`.
- `CheckMode.fromUrl` is not part of this model. The scheme-to-mode mapping is an input `modeOf`, and no invalid-scheme outcome is invented.
- `getServiceByPosition`, `swapServicePositions` and `updateServiceStatus` are not part of this model. For `updateServiceOrder` only the arguments passed to the swap are modelled (`OrderSwap`); the row found at a position is an input.
- Kotlin `Int` and `Long` are unbounded integers here. No field arithmetic overflows: the only arithmetic is `position + 1` and the ids Room generates.
- Model fields beyond Service.kt: `Service` carries `requestMethod`, `body`, `sha1Certificate`, `lastSuccessfulCheck` and `position`. The checkers, the worker and `updateServiceOrder` read them, but model/Service.kt does not declare them. They default as the `ServiceEntity` columns do.
- Consequences of the eight-field mappings: `toModel` and `toEntity` copy exactly the eight declared fields. Therefore:
  - a service read from the store always probes as a plain GET without custom trust (`CheckWorker.ProbeSeesPlainGet`);
  - the worker's `lastSuccessfulCheck` is written back as 0 (`CheckWorker.SuccessWritesRow`);
  - a stored service's reorder request always names positions 0 and 1 (`ServiceRepository.OrderSwapOfStoredService`).

  These are stated as proved properties of the code as written.
- Export format: the exported JSON keeps only the four non-`@Transient` fields of `Service`, as the code does. The JSON text, the file, FileProvider and the share intent are left out; only the field projection is modelled.
- WorkManager execution is not modelled: running jobs, flex windows, the CONNECTED network constraint, GlobalScope and Dispatchers. The unique-work table is updated synchronously, and work ids are a counter.
- Notification delivery (NotificationHelper, channels, permissions, Firebase messaging) is an id-to-notification map.
- The Compose UI, the ViewModels, NotificationDao/NotificationRepository and the Room/Hilt wiring are outside the check path. So are `responsePattern`/`useRegexPattern`, which no shown code reads.
- `allServicesFlow` is a live `Flow` over the same `SELECT * FROM services`; only the one-shot `getAllServices` is modelled.
