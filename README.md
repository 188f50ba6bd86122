# Federated clinical gateway: a Dafny model

This project models the core of a federated electronic health record
gateway. Each clinical site runs the same FastAPI gateway in front of its
own PostgREST store. Some tables are federated. For those, a site answers a
read by merging its own rows with the rows every sibling site in its
registry (`SEDES_URLS`) returns through an internal relay endpoint. Each
dict row is tagged with where it came from (`sede_origen`).

The model covers:

- **Federation** (`federation.dfy`, module `Federation`): `query_all_sedes`
  in `services/distributed.py`. This covers the allow-list of federated
  tables, local-first ordering, per-site failure isolation, wrapping a
  single object into a list, origin tagging and relay URL building.
- **Legacy federation** (`legacy.dfy`, module `Legacy`): the older
  `query_all_sedes` still in the gateway's `main.py` and its relay
  endpoint. It includes the defect found there and a corrected version.
- **Authentication** (`auth.dfy`, module `Auth`): the login probe chain
  over admisionistas, doctores and pacientes, plus `verify` and `logout`.
  `routers/auth.py` and `auth_final.py` hold the same code; it is modelled
  once and both are cited.
- **Settings** (`config.dfy`, module `Config`): the environment defaults
  and the parsing of the site registry.
- **Patients** (`pacientes.dfy`, module `Pacientes`): the patient routes.
  The listing filter and the first-or-404 lookup are functions. Patient
  creation is a method on a `PatientStore` class that holds the local
  table.
- **Monolithic gateway** (module files as below): the joins in
  `fastapi_gateway/main.py`.
  - Exam and procedure search (`search.dfy`).
  - The newest-first sort of clinical histories, done as an in-place
    insertion sort on an array (`history.dfy`).
  - The doctor→patients grouping and join (`history.dfy`).
  - The `HC-%08d` clinical id (`clinical_id.dfy`).
- **Shared text and JSON layer** (`text.dfy`, `records.dfy`): Python's
  lexicographic string order, `strip`, `split` and `join`, and decimal
  digits. Also JSON values, rows and the `Result` of an endpoint.

**Network.** Every network exchange is an input. A `Network` is a function
from a `Request` (URL and query parameters) to a `Response`, which either
raised or replied with a status and a JSON body.

**Gathering methods.** These return the trace of requests they issued, so
"no remote call" and "no later table is queried" are postconditions. The
endpoints of `main.py` take the already-gathered lists as inputs and
return the list of tables they fetched.

**Errors.** An uncaught Python exception inside a handler (a `KeyError`,
a `TypeError`) is FastAPI's 500 answer, `Crash()`.

**Ordering.** Python compares `str` values lexicographically by code point,
which is not Dafny's `<=` on sequences (prefix). `Text.LexLe` defines the
order and proves it is a total order.

## Model

| member | source | states |
|---|---|---|
| Federation.RelayUrlShape | fastapi_gateway/services/distributed.py:41 | the relay URL is the site with trailing slashes removed, then `/internal/api/consulta-local/` and the table; the base never ends in `/`, so configuring a site with a trailing slash gives the same URL |
| Federation.TagSpec | fastapi_gateway/services/distributed.py:22-23 | tagging adds or overwrites `sede_origen` with the origin on a dict and keeps every other key and value; a non-dict item is left as it is |
| Federation.TagItems | fastapi_gateway/services/distributed.py:47-48 | the loop tags every item in place: same length, item `i` is item `i` tagged |
| Federation.ReadTagged | fastapi_gateway/services/distributed.py:14-26 | a read contributes the tagged rows of a 200 reply (a single object wrapped as one row), and nothing when the call raised or the status is not 200 |
| Federation.QuerySede | fastapi_gateway/services/distributed.py:38-52 | one sibling query issues the relay request and yields that site's tagged rows, or `[]` when it raised or answered non-200 |
| Federation.QuerySites | fastapi_gateway/services/distributed.py:54-57 | one block per registered site, in registry order, with one relay request per site |
| Federation.ExtendAll | fastapi_gateway/services/distributed.py:58-59 | extending with every block appends their concatenation, in order |
| Federation.QueryAllSedes | fastapi_gateway/services/distributed.py:6-61 | the whole gather equals `Gather`; it issues the local read first, then exactly one relay request per site when the table is federated, and nothing else otherwise |
| Federation.GatherCount | fastapi_gateway/services/distributed.py:58-59 | no de-duplication: the result length is the local row count plus the sum of the successful sites' row counts (federated tables only) |
| Federation.GatherOrder | fastapi_gateway/services/distributed.py:54-59 | row `j` of site `k` sits right after the local rows and the rows of sites `0..k-1`, tagged with site `k`'s URL as configured |
| Federation.GatherLocalFirst | fastapi_gateway/services/distributed.py:14-24 | the local rows come first, in store order, each tagged "local" |
| Federation.LocalOnlyIgnoresSites | fastapi_gateway/services/distributed.py:31-35 | for a table outside the allow-list the result depends only on the local read: any registry and any sibling answers give the same result |
| Federation.FailingSiteIsolated | fastapi_gateway/services/distributed.py:44-52 | a site that raised or answered non-200 changes nothing: the result equals the one for the registry without that site |
| Federation.GatherOrigins | fastapi_gateway/services/distributed.py:21-23 | every dict in the result carries `sede_origen`, and it is "local" or one of the registered sites |
| Federation.SiteBlocksSize | fastapi_gateway/services/distributed.py:58-59 | the blocks together hold as many rows as the sites delivered |
| Legacy.TagEach | fastapi_gateway/main.py:105-109 | the untyped tagging loop succeeds exactly as `TagInPlace` says, and then every element is a dict tagged with the origin |
| Legacy.LegacyQuerySede | fastapi_gateway/main.py:98-112 | one legacy site query uses the URL as configured and returns rows on 200, `[]` on a raise, and `None` on any other status |
| Legacy.LegacyQueryAllSedes | fastapi_gateway/main.py:80-121 | the legacy gather equals `LegacyGather`; every table is federated, with one local read then one relay request per site |
| Legacy.ExtendReturnsSpec | fastapi_gateway/main.py:118-119 | extending succeeds exactly when every site returned a list, and then appends them in registry order |
| Legacy.NonOkIsCrash | fastapi_gateway/main.py:118-119 | the only way extending fails is the 500 of an uncaught `TypeError` |
| Legacy.LegacySiteErrorFailsAll | fastapi_gateway/main.py:105-119 | as written: one sibling answering with an error status makes the whole legacy gather a 500 |
| Legacy.LegacyCounterexample | fastapi_gateway/main.py:105-119 | a concrete registry of one site answering 503: the legacy gather fails while the corrected one returns the local row |
| Legacy.FixedAgreesWhenLegacySucceeds | fastapi_gateway/main.py:80-121 | the corrected gather returns the same rows as the legacy one whenever the legacy one succeeds |
| Legacy.FixedSiteErrorIsolated | fastapi_gateway/main.py:98-112 | corrected: a site answering an error status is ignored, as if it were not registered |
| Legacy.LegacyRelay | fastapi_gateway/main.py:124-136 | the relay endpoint fails only when the store call raises; an error status becomes an empty list |
| Auth.ProbeStage | fastapi_gateway/routers/auth.py:18-24 | one stage gathers the table filtered by `usuario` and decides on the first row only |
| Auth.Stage | fastapi_gateway/routers/auth.py:17-43 | one stage of the chain: a fall-through leaves the answer to the remaining stages and appends their calls; a match answers with this stage's role, id and token and stops querying; a raise is a 500 |
| Auth.Login | fastapi_gateway/routers/auth.py:12-43 | login answers `LoginSpec` over admisionistas → doctores → pacientes and issues exactly the calls of the stages reached |
| Auth.LoginFirstMatch | auth_final.py:15-37 | when every earlier stage falls through, the first verified stage wins with its own role and id column, and the token is signed over that role and id expiring one lifetime later |
| Auth.LoginRejectedIff | fastapi_gateway/routers/auth.py:43 | the answer is the single 401 with the fixed message exactly when every stage falls through |
| Auth.LoginStaysLocal | fastapi_gateway/routers/auth.py:17-40 | login issues at most three requests and each is a local read of the probed table; no sibling is ever queried |
| Auth.FirstRowOnly | fastapi_gateway/routers/auth.py:19-22 | rows after the first never change a stage's decision |
| Auth.LoginIssues | fastapi_gateway/routers/auth.py:23-24 | every successful login's token is signed over the returned id and role |
| Auth.Verify | fastapi_gateway/routers/auth.py:45-56 | verify fails exactly when the payload is falsy, and then with 401 |
| Auth.LoginThenVerify | auth_final.py:42-52 | verifying a freshly issued token gives back the id and role login answered with, and the expiry one lifetime later |
| Auth.LogoutRevokesNothing | fastapi_gateway/routers/auth.py:58-61 | logout accepts exactly the tokens verify accepts and always answers the same message; nothing is revoked |
| Config.ParseSedesSpec | fastapi_gateway/core/config.py:15 | every registry entry is non-blank, has no surrounding whitespace and no comma; there are at most commas + 1 entries |
| Config.ParseSedesConcat | fastapi_gateway/core/config.py:14-15 | entries keep their left-to-right order: parsing `a,b` is parsing `a` followed by parsing `b` |
| Config.ParseSedesRoundTrip | fastapi_gateway/main.py:43-44 | joining a parsed registry with commas and parsing again gives the same registry, the empty registry included |
| Config.BlankRegistryIsEmpty | fastapi_gateway/core/config.py:14-15 | an empty or all-whitespace variable gives an empty registry |
| Config.LoadRegistry | fastapi_gateway/core/config.py:14-15 | an unset `SEDES_URLS` gives no sites, so federation is off; a set one is parsed |
| Config.LoadDefaults | fastapi_gateway/core/config.py:10-20 | unset variables take their defaults; the algorithm is always HS256 and tokens last 24 hours |
| Config.KeepStrippedSpec | fastapi_gateway/core/config.py:15 | the comprehension keeps only well-formed entries |
| Config.KeepStrippedAppend | fastapi_gateway/core/config.py:15 | the comprehension distributes over concatenation, so it preserves order |
| Text.StripSpec | fastapi_gateway/core/config.py:15 | `strip` leaves no whitespace at either end, and yields "" exactly when the text is all whitespace |
| Text.StripIdempotent | fastapi_gateway/core/config.py:15 | stripping twice is stripping once |
| Text.SplitSpec | fastapi_gateway/core/config.py:15 | `split(",")` yields commas + 1 pieces, none holding a comma, that join back to the input |
| Text.SplitConcat | fastapi_gateway/core/config.py:15 | splitting `a,b` is splitting `a` then splitting `b` |
| Text.RStripChar | fastapi_gateway/services/distributed.py:41 | `rstrip("/")` yields a prefix not ending in `/`, and only `/` was removed |
| Text.LexLeTotal | fastapi_gateway/main.py:372 | the string comparison of dates is total |
| Text.LexLeAntisymmetric | fastapi_gateway/main.py:372 | and antisymmetric |
| Text.LexLeTransitive | fastapi_gateway/main.py:372 | and transitive |
| Text.NotLexLtIsLexGe | fastapi_gateway/main.py:301 | not less than is greater or equal |
| Pacientes.KeepWithId | fastapi_gateway/routers/pacientes.py:15 | the filter keeps exactly the rows holding `id_paciente`; a non-dict row makes it a 500 |
| Pacientes.KeepWithIdAppend | fastapi_gateway/routers/pacientes.py:15 | the filter distributes over concatenation, so it keeps merge order |
| Pacientes.KeepWithIdIdempotent | fastapi_gateway/routers/pacientes.py:15 | filtering a filtered list changes nothing |
| Pacientes.ListedAreLocal | fastapi_gateway/routers/pacientes.py:14-15 | every listed patient is tagged "local", since the patient table is not federated |
| Pacientes.GetPacienteFirstOr404 | fastapi_gateway/routers/pacientes.py:19-21 | 404 exactly when the store delivers no row; otherwise the first row, tagged "local" |
| Pacientes.RowData | fastapi_gateway/routers/pacientes.py:30-32 | the stored row has the request's fields, with the password replaced by its hash and every other field unchanged |
| Pacientes.AppendFresh | fastapi_gateway/routers/pacientes.py:34 | the id the store assigns differs from every existing id, and ids stay below the next one |
| Pacientes.AppendUnique | fastapi_gateway/routers/pacientes.py:26-27 | inserting a username absent from the store keeps usernames unique |
| Pacientes.PatientStore.CreatePaciente | fastapi_gateway/routers/pacientes.py:23-54 | a duplicate username is a 400 with no write; a raised or non-2xx write is a 500 with no write; a 2xx write appends exactly one row with a fresh id and advances the serial; the FHIR Patient is posted exactly when the reply has a first element to read; the answer is that id exactly when that element holds `id_paciente`, and otherwise a 500 after the write (after the FHIR post when only the key is missing); the FHIR mirror never changes the answer |
| Search.SelectEpisodesSpec | fastapi_gateway/main.py:369-373 | the episodes kept are exactly those of the patient with `fecha_inicio <= fecha <= fecha_fin` (lexicographic, missing date as ""); a row without `id_paciente` is a 500 |
| Search.SelectEpisodesAppend | fastapi_gateway/main.py:463-467 | the selection preserves merge order |
| Search.SelectedInWindow | fastapi_gateway/main.py:371-372 | a selected episode belongs to the patient and its date lies in the window |
| Search.WindowInclusive | fastapi_gateway/main.py:466 | episodes dated on either bound are selected |
| Search.UndatedEpisode | fastapi_gateway/main.py:372 | an undated episode is selected only when the window starts at "" |
| Search.IdsOf | fastapi_gateway/main.py:381 | the id set holds exactly the selected episodes' ids |
| Search.ChildrenOfSpec | fastapi_gateway/main.py:476 | the filter fails exactly when a record lacks `id_historia_clinica`, and the records kept are exactly those whose episode id is in the set |
| Search.ChildrenOfAppend | fastapi_gateway/main.py:476 | the filter keeps merge order and multiplicity: the filter of a concatenation is the concatenation of the filtered parts, and one record is kept once or dropped |
| Search.FirstWithFound | fastapi_gateway/main.py:387 | `next(...)` finds the first episode carrying the id, and it finds one whenever one exists |
| Search.EstadoNormalIff | fastapi_gateway/main.py:389 | "Normal" exactly when `valor_bajo <= resultado <= valor_alto`, "Anormal" otherwise |
| Search.EstadoBelowRange | fastapi_gateway/main.py:389 | a result below the low bound is "Anormal" |
| Search.RowSpec | fastapi_gateway/main.py:390-398 | each row copies the child's columns, carries the query's patient id and the episode's date |
| Search.RowOkIff | fastapi_gateway/main.py:482-488 | building a row fails exactly when a copied column or the date is missing, or (exams) the status cannot be computed |
| Search.EnrichLoop | fastapi_gateway/main.py:385-400 | the append loop computes `Enrich` |
| Search.EnrichRows | fastapi_gateway/main.py:478-490 | with every child's episode found, one row per child, in child order |
| Search.Buscar | fastapi_gateway/main.py:359-400 | the search equals `SearchSpec`; with no matching episode it answers `[]` without fetching the child table |
| Search.SearchOneRowPerRecord | fastapi_gateway/main.py:478-490 | a successful search answers `[]` when no episode is selected, and otherwise exactly one row per kept record, in merge order, row `k` built from record `k` and its first selected episode |
| Search.SearchRows | fastapi_gateway/main.py:453-490 | every row of a search carries the queried patient id and a date inside the window |
| History.SortNewestFirst | fastapi_gateway/main.py:301 | the in-place sort leaves the array equal to `SortDesc` of its old contents |
| History.InsertAt | fastapi_gateway/main.py:301 | one insertion step places element `i` into the sorted prefix |
| History.HistoriaNewestFirst | fastapi_gateway/main.py:301 | the sorted history is a permutation, is non-increasing by `fecha` (missing as ""), and is stable |
| History.SortDescPerm | fastapi_gateway/main.py:301 | the sort is a permutation |
| History.SortDescDescending | fastapi_gateway/main.py:301 | the sort yields a non-increasing sequence |
| History.SortDescStable | fastapi_gateway/main.py:301 | rows with equal keys keep their relative order |
| History.SortedPairwise | fastapi_gateway/main.py:301 | no row is older than a later row |
| History.GetHistoriaClinica | fastapi_gateway/main.py:285-303 | the endpoint answers the sorted history, or the gather's error |
| History.KeyLtAsymmetric | fastapi_gateway/main.py:301 | the sort's comparison is a strict order |
| History.GroupByPatient | fastapi_gateway/main.py:596-604 | the grouping loop computes `GroupFold` |
| History.GroupFoldCovers | fastapi_gateway/main.py:597-604 | every episode's patient is in the grouping |
| History.GroupFoldSound | fastapi_gateway/main.py:597-604 | every grouped patient comes from an episode |
| History.GroupFoldFirst | fastapi_gateway/main.py:599-604 | each patient's entry is taken from the first episode of that patient |
| History.GroupFoldEmpty | fastapi_gateway/main.py:606-607 | the grouping is empty exactly when there are no episodes |
| History.LatestVisit | fastapi_gateway/main.py:593-604 | after the newest-first sort, `ultima_consulta` is no older than any episode of that patient |
| History.JoinWithOkIff | fastapi_gateway/main.py:613-623 | the join fails exactly when a patient row lacks `id_paciente`, or a grouped one lacks a name column or `cedula` |
| History.JoinWithRows | fastapi_gateway/main.py:612-625 | one row per grouped patient row, in patient-list order, not de-duplicated, with `edad` and `ultima_consulta` from the grouping |
| History.JoinPatientsLoop | fastapi_gateway/main.py:612-625 | the append loop computes `JoinWith` |
| History.DoctorPacientes | fastapi_gateway/main.py:580-625 | the endpoint equals the corrected `DoctorPacientesSpec`; with no episodes it answers `[]` without fetching patients |
| History.SpecGrouping | fastapi_gateway/main.py:593-625 | the answer is the join of the patient list with the grouping of the sorted episodes |
| History.DoctorPacientesLatest | fastapi_gateway/main.py:593-623 | each row's `ultima_consulta` is no older than any of that patient's episodes |
| History.DoctorPacientesLatestReached | fastapi_gateway/main.py:593-623 | each row's `ultima_consulta` and `edad` are the `fecha` and `edad` of one of that patient's episodes with the doctor; with `DoctorPacientesLatest`, `ultima_consulta` is the maximum `fecha` |
| History.DoctorPacientesSound | fastapi_gateway/main.py:597-623 | each row's patient has an episode with the doctor |
| History.StoredRowColumns | fastapi_gateway/routers/pacientes.py:30-34 | stored patient rows hold `nombres`/`apellidos`, never `Nombres`/`Apellidos` |
| History.AsWrittenFailsOnStoredRows | fastapi_gateway/main.py:618-619 | as written: when any patient is grouped, rows as stored make the join a 500 |
| History.DoctorPacientesCounterexample | fastapi_gateway/main.py:618-619 | one episode and its stored patient: as written a 500, corrected the expected row |
| History.CorrectedJoinsStoredRows | fastapi_gateway/main.py:612-623 | corrected: rows as stored always join |
| ClinicalId.FormatRoundTrip | fastapi_gateway/main.py:652 | the id reads back from its clinical id, negative ids included |
| ClinicalId.FormatInjective | fastapi_gateway/main.py:652 | distinct ids get distinct clinical ids |
| ClinicalId.FormatShape | fastapi_gateway/main.py:652 | for `0 <= id < 10^8` the clinical id is "HC-" then exactly eight digits, eleven characters |
| Text.ZeroPadParse | fastapi_gateway/main.py:652 | zero-padding keeps a numeral all digits and keeps its value |
| Text.DigitsRoundTrip | fastapi_gateway/main.py:652 | the decimal digits of `n` read back as `n` |

## Left out

- Pydantic response-model validation and coercion, the `HTTPBearer` and `get_current_user` dependency plumbing, and `print` logging.
- bcrypt and JWT are opaque parameters: `verify_password` is a three-valued check, and signing and decoding are functions. The only assumption is that decoding inverts signing before expiry (`Auth.LoginThenVerify`).
- Clocks: the login instant is a parameter `now`.
- Concurrency and timeouts: `asyncio.gather` is modelled as the sequence of per-site outcomes in registry order, and a timeout is a raise.
- The FHIR mirror's HTTP call: `CreatePaciente` returns the resource it would post. A failure there is swallowed, so the result does not depend on it.
- `Pacientes.PatientStore.CreatePaciente`: the store's own constraints and its id sequence are modelled as `nextId`. The duplicate probe may miss the store (a raised or non-200 probe reads as "no duplicates"); the flag `probeReached` says whether it saw the store. The body of a 2xx insert reply is reduced to an `Echo`: whether `resp_sql.json()[0]` can be read, and whether that element holds `id_paciente`; when it does, the id read is taken to be the one the store assigned.
- JSON booleans, nested arrays and nested objects inside rows; a row is a map to text, number or null. A `fecha` that is a boolean (which Python would order as 0 or 1 among numbers) is therefore not representable.
- `Records.Json`: a 200 reply whose body is a top-level JSON scalar is not representable. In the source a string body would be merged character by character, and a number, boolean or null body raises inside the `try` and contributes nothing, which the model expresses only as a raised call.
- Python's ordering of mixed int and float values is modelled by their real values.
- The legacy SHA-256 login and `hash_password` in the gateway's `main.py`, the admin creation routes, the exports and the health check. These depend on the wall clock or are a separate variant.
- The Streamlit interface, the clinical PDF routes, the admin CRUD router and the internal passthrough router. The passthrough's answers enter as network replies, including its `{"error": ...}` dict, which the gather wraps and tags.
- Route shadowing: `/api/examenes/buscar` (fastapi_gateway/main.py:359) is declared after `/api/examenes/{id_historia_clinica}` (fastapi_gateway/main.py:345), and `/api/procedimientos/buscar` (fastapi_gateway/main.py:453) after `/api/procedimientos/{id_historia_clinica}` (fastapi_gateway/main.py:438). Routes match in declaration order and `buscar` is not an integer, so with the routes as declared neither search endpoint is reached (the earlier route answers 422). Routing is not modelled; `Search.Buscar` models each search as if it were reached.
- When two sites reuse an `id_historia_clinica`, an exam's date comes from the first episode in merge order (`Search.FirstWithFound`). The model states this but does not resolve it.

## Findings

| source | as written | input that shows it | evidently intended | confidence | as-written member | corrected member |
|---|---|---|---|---|---|---|
| fastapi_gateway/main.py:105-119 | `query_sede` returns `None` when a sibling answers with a non-200 status, and `results.extend(None)` raises, so the whole endpoint answers 500 | one registered site answering 503 to a relay request (`Legacy.ExampleNet`) | a failing site contributes no rows and the other rows are returned, as the `except` branch and the newer coordinator do | high (not executed) | Legacy.LegacyCounterexample | Legacy.FixedSiteErrorIsolated |
| fastapi_gateway/main.py:618-619 | `get_doctor_pacientes` reads `pac["Nombres"]` and `pac["Apellidos"]`, but patients are stored with lower-case `nombres` and `apellidos` (fastapi_gateway/routers/pacientes.py:30-34), so every doctor with at least one patient gets a 500 | one episode of patient 1 and that patient's stored row (`History.EXAMPLE_EPISODE`, `History.EXAMPLE_ROW`) | the join reads the stored lower-case columns and answers one row per grouped patient | medium (not executed; fastapi_gateway/main.py:224 also reads `p["Nombres"]`, and fastapi_gateway/main.py:10-22 imports schema names such as `DoctorPacienteResponse` that fastapi_gateway/schemas.py does not define, so the schema main.py was written against is not in the source and the deployed columns may differ) | History.DoctorPacientesCounterexample | History.CorrectedJoinsStoredRows |
