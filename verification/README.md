# pad-2.0 document store and service plumbing, in Dafny

This project models the core of pad-2.0, a project-artifact system. Each project owns a
namespace of JSON documents, one slot per artifact type. A questionnaire seeds the
QUESTIONNAIRE slot. Artifact generation resolves context from the project's slot or from
caller-supplied context. It pairs the first prompt template with each context record, sends
the prompts to a generation service, and stores the returned records under the artifact type.

The model covers:

- **The JSON file repository** (`JsonRepository`). A directory is a map from file stem to
  file; a file is a stored document or one left unreadable by a failed write. The model
  covers `save`, `load`, `delete`, `get_all` and `find_by`, with Python's `==` (where
  `True == 1`) and the order in which the directory is listed.
- **The repository interface** (`BaseRepository`). Each operation's promise is a predicate
  over an abstract identifier-to-item map, and the JSON repository is proved to meet each
  one on intact directories.
- **Store namespaces** (`Stores`). `db/<project name>` for content and `db/prompts` for
  prompts, `os.path.join` and `os.makedirs(exist_ok=True)`, and the slot update and read the
  domain code relies on.
- **The domain** (`ProjectEntity`, `ArtifactEntity`, `ArtifactTypes`) and **the application
  services** (`ProjectService`, `ArtifactGenerationService`), plus an end-to-end walk
  (`Scenario`).
- **The SQLite repository** (`SqlRepository`, `SqlKeywords`). The query text and parameters
  it builds, and how it maps the backend's outcome to its return value; the backend is a
  function.
- **Service registration and dispatch** (`HttpResponse`). Route paths derived from service
  names, route-config merging, the response dictionary, and the dispatch cascade.
- **The example REST handler** (`RestHandler`). Path segmentation, the `handle_logic`
  table, and the success/failure envelope.
- **The outbound client** (`ServiceClient`). URL joining, configured headers, the
  authentication decision table, and the method map.
- **Python string and value semantics** the above depend on (`Text`, `Json`, `Wrappers`).

Everything is pure: effects become inputs and outputs. The file system is a value. Fresh
UUIDs, the directory listing order, write faults, the SQL backend, the generation service,
the signature binder and the service call are all parameters.

Several calls in the source do not match the definitions they call, and some error paths
behave differently from what their names suggest. The model resolves them as follows.

- `Project` has no `update_content`/`get_content`, and `JSONRepository` has no `update`.
  The callers need one slot per type key, so `Stores.Update` replaces the slot for a key
  with the document `{"id": key, "type": key, "content": records}`. `Stores.GetContent`
  reads that document's `content` list back, or `None`.
- `Artifact.create_prompt` takes one template, but it is called with a template and a
  context list. `ArtifactEntity.CreatePrompt` takes the contexts explicitly.
- `ProjectService` constructs `Project(name=...)` without the required description.
  `ArtifactGenerationService` passes `""`, and the model does the same in both places.
- `generate_artifact` constructs `Artifact(type=self.artifact_type)` without the required
  `project_id` (application/ArtifactGenerationService.py:35 against domain/Entities/Artifact.py:17),
  which raises `TypeError` before any template is fetched.
- `generate_artifact` constructs `ExternalServiceClient(llm_service)` with a name that is not
  bound in the method (application/ArtifactGenerationService.py:58). The constructor stored it as
  `self.llm_service` (line 24), and even that is a string, where the client expects a
  `ServiceConfig` (infrastructure/http/request.py:25).
- `ArtifactGenerationService.GenerateArtifact` models neither construction: the templates that
  `get_prompts` would return and the `generate` call that the client would make are its parameters.
- `generate_artifact` fetches the templates before resolving context, but it only indexes
  `templates[0]` after the context check. So a missing context is reported before a missing
  template, and the model follows that order.
- `JSONRepository.save` opens the target file with `open(file_path, 'w')`, which truncates
  it before `json.dump` writes anything. When the dump then fails (a `TypeError` on a value
  `json` cannot encode), the error is printed, `None` is returned, and the old document is
  already gone. `JsonRepository.FailedDumpLosesPrevious` proves that the previous document
  can no longer be loaded after a failed dump. `JsonRepository.FailedOpenKeepsPrevious`
  proves that nothing changes when opening the file fails.

## Model

| member | source | states |
|---|---|---|
| Json.PyEqReflexive | infrastructure/repositories/json_repository.py:124 | every decoded value compares equal to itself under `==` |
| Json.PyEqSymmetric | infrastructure/repositories/json_repository.py:124 | `a == b` and `b == a` agree, so a criterion's side does not matter |
| Json.PyEqIsEqualityWithoutBools | infrastructure/repositories/json_repository.py:124 | without booleans, the `==` of a criterion is exactly equality of the decoded values, in both directions |
| Json.TrueEqualsOne | infrastructure/repositories/json_repository.py:124 | `True` and `1` are different values that the criterion test treats as equal |
| Json.PyEq | infrastructure/repositories/json_repository.py:124 | `None` and strings equal only themselves; two booleans or two integers are equal exactly when they are the same value; `True`/`False` equal exactly the integers 1/0; equal values are of the same kind apart from that |
| Json.PyStr | infrastructure/repositories/json_repository.py:38 | `str(id)` has a file-name text exactly when the id is not a list or a dict, and a string id is its own text |
| Json.DecimalRoundTrip | infrastructure/repositories/json_repository.py:38 | the decimal rendering of a number in a file name reads back to that number |
| Json.IntToDecimalInjective | infrastructure/repositories/json_repository.py:38 | distinct integer ids render to distinct file names |
| Text.Lower | infrastructure/http/response.py:37 | `char.lower()` maps each ASCII upper-case letter to its lower-case partner and leaves every other character alone |
| Text.LStrip | infrastructure/http/request.py:75 | `lstrip('/')` drops exactly the leading run of the character: the result is a suffix, what was dropped is all that character, and the result does not start with it |
| Text.RStrip | infrastructure/http/request.py:75 | `rstrip('/')` drops exactly the trailing run: the result is a prefix, and what was dropped is all that character |
| Text.Strip | infrastructure/http/rest.py:21 | `strip('/')` leaves no leading or trailing separator, and is the identity on text without it |
| Text.Split | infrastructure/http/rest.py:21 | `split('/')` gives one more piece than there are separators, and no piece contains one |
| Text.JoinSplit | infrastructure/http/rest.py:21 | joining the pieces of a split with the separator gives the text back |
| Text.SplitJoin | infrastructure/http/rest.py:21 | splitting the join of separator-free pieces gives the pieces back |
| Text.RemoveAll | infrastructure/http/response.py:38 | `replace('Service', '')` never lengthens the name and introduces no new character |
| Text.RemoveAllFree | infrastructure/http/response.py:38 | removing a pattern that never occurs leaves the name unchanged |
| BaseRepository.Filter | infrastructure/repositories/base_repository.py:61-72 | the items `find_by` returns all satisfy the criteria |
| BaseRepository.FilterMembership | infrastructure/repositories/base_repository.py:61-72 | an item is returned exactly when it is in the input and satisfies the criteria |
| BaseRepository.FilterKeepsAll | infrastructure/repositories/base_repository.py:61-72 | criteria that accept everything return the input unchanged |
| JsonRepository.Save | infrastructure/repositories/json_repository.py:33-44 | it fails exactly when the id is missing or `None`, or a list or dict that cannot name a file; a failure writes nothing; otherwise the file for `str(id)` holds the document after a successful write, is left truncated (unreadable) when the dump fails, and is untouched when the open fails; every other file is kept; the id is returned when the write succeeds and `None` when it fails |
| JsonRepository.Load | infrastructure/repositories/json_repository.py:56-66 | a document is returned exactly when its file exists and parses, and it is that file's document |
| JsonRepository.Delete | infrastructure/repositories/json_repository.py:78-87 | the result is true exactly when the file existed; afterwards it is gone and every other file is unchanged |
| JsonRepository.ReadAll | infrastructure/repositories/json_repository.py:100-104 | the files are read in listing order, and reading fails exactly when some file does not parse |
| JsonRepository.GetAll | infrastructure/repositories/json_repository.py:96-108 | an intact directory gives every stored document once, in listing order; any unreadable file gives `[]` |
| JsonRepository.FindBy | infrastructure/repositories/json_repository.py:120-126 | every returned document satisfies `item.get(k) == v` for each criterion, and no more documents are returned than were listed |
| JsonRepository.SaveThenLoad | infrastructure/repositories/json_repository.py:38-63 | after a successful save, loading the id gives the document back |
| JsonRepository.SaveIntId | infrastructure/repositories/json_repository.py:33-41 | an integer id is accepted: a fault-free save returns it, and the document loads back from the file named by its decimal text |
| JsonRepository.SaveBoolId | infrastructure/repositories/json_repository.py:33-41 | a boolean id is accepted: a fault-free save returns it, and the document loads back from `True.json` or `False.json` |
| JsonRepository.GetAllHolds | infrastructure/repositories/json_repository.py:96-108 | a document is among `get_all`'s results exactly when the directory is intact and some file in it holds that document |
| JsonRepository.SaveOverwrites | infrastructure/repositories/json_repository.py:38-41 | saving two documents under one id keeps one file, holding the second document |
| JsonRepository.SaveWithoutId | infrastructure/repositories/json_repository.py:33-35 | a document without an id, or with id `None`, raises `ValueError` whatever the write would have done |
| JsonRepository.IntAndStringIdsCollide | infrastructure/repositories/json_repository.py:38 | id `1` and id `"1"` share `1.json`, so the later save replaces the earlier |
| JsonRepository.LoadMissing | infrastructure/repositories/json_repository.py:59-60 | loading an id that has no file gives `None` |
| JsonRepository.FailedDumpLosesPrevious | infrastructure/repositories/json_repository.py:39-44 | a write that fails after opening leaves a truncated file: `load` gives `None` and `get_all` gives `[]` |
| JsonRepository.FailedOpenKeepsPrevious | infrastructure/repositories/json_repository.py:39-44 | a write that fails on opening returns `None` and leaves the directory as it was |
| JsonRepository.DeleteThenLoad | infrastructure/repositories/json_repository.py:80-84 | `delete` reports presence; afterwards the id loads as `None` and every other id loads as before |
| JsonRepository.FindByEmptyIsGetAll | infrastructure/repositories/json_repository.py:120-126 | `find_by({})` equals `get_all()` |
| JsonRepository.FindByExactly | infrastructure/repositories/json_repository.py:120-126 | a document is found exactly when the directory is intact, the document is stored, and it matches every criterion |
| JsonRepository.MissingFieldMatchesOnlyNone | infrastructure/repositories/json_repository.py:124 | a criterion on a field the document lacks holds exactly when the criterion's value is `None` |
| JsonRepository.SaveMeetsContract | infrastructure/repositories/base_repository.py:12-23 | on an intact directory, `save` stores the item under its identifier, replacing any earlier one, and changes nothing else |
| JsonRepository.LoadMeetsContract | infrastructure/repositories/base_repository.py:25-36 | `load` gives the stored item, or `None` when there is none |
| JsonRepository.DeleteMeetsContract | infrastructure/repositories/base_repository.py:38-49 | `delete` reports whether an item was stored, and afterwards none is |
| JsonRepository.GetAllMeetsContract | infrastructure/repositories/base_repository.py:51-59 | `get_all` gives every stored item once, in listing order |
| JsonRepository.FindByMeetsContract | infrastructure/repositories/base_repository.py:61-72 | `find_by` gives, in listing order, exactly the stored items the criteria accept |
| Stores.MakeDirs | infrastructure/repositories/stores.py:16 | `makedirs(exist_ok=True)` keeps an existing directory with its files and otherwise adds an empty one |
| Stores.OpenStore | infrastructure/repositories/json_repository.py:20-21 | a repository is bound to its directory, which exists afterwards |
| Stores.CreateContentStore | infrastructure/repositories/stores.py:4-18 | the content store of a project is rooted at `join('db', name)`, and every existing directory keeps its files |
| Stores.PromptStore | infrastructure/repositories/stores.py:21 | the prompt store is rooted at `db/prompts` |
| Stores.Save | infrastructure/repositories/json_repository.py:37-41 | a save through a store changes that store's directory only |
| Stores.Update | domain/Entities/Project.py:25-28 | updating a slot makes it read back the given records, keeps every other slot and directory, and adds no directory |
| Stores.GetContent | application/ArtifactGenerationService.py:44 | content is read exactly when the slot's document loads and holds a `content` list, and it is that list |
| Stores.UpdateOverwrites | domain/Entities/Project.py:25-28 | a second update of a slot fully replaces the first |
| Stores.UpdateKeepsOtherSlots | domain/Entities/Project.py:25-28 | updating one slot leaves what every other slot, of any store, reads unchanged |
| Stores.ContentNamespaceIsUnderDb | infrastructure/repositories/stores.py:15 | a relative project name is stored under `db/<name>` |
| Stores.CreateContentStoreIdempotent | infrastructure/repositories/stores.py:16 | creating a project's content store again fails in no way and changes nothing |
| Stores.SameNameSharesDocuments | infrastructure/repositories/stores.py:15-18 | two stores created for one name are the same store: what one saves the other loads |
| Stores.PromptsProjectAliasesPromptStore | infrastructure/repositories/stores.py:15-21 | the content store of a project named `prompts` is the prompt store |
| Stores.ContentNamespaceInjective | infrastructure/repositories/stores.py:15 | distinct plain project names get distinct directories |
| ArtifactTypes.KeyInjective | domain/Entities/Artifact.py:47 | distinct artifact types are stored under distinct keys, so each type has a slot of its own |
| ProjectEntity.NewProject | domain/Entities/Project.py:11-15 | the id, name and description are kept as given, and the content store is the namespace of the project's own name |
| ProjectEntity.UpdateContent | application/ArtifactGenerationService.py:62 | after the update the project reads exactly the given records for the type |
| ProjectEntity.InitializeWithQuestionnaire | domain/Entities/Project.py:17-28 | the QUESTIONNAIRE slot reads exactly `[q]` afterwards |
| ProjectEntity.InitializeTouchesOnlyQuestionnaire | domain/Entities/Project.py:25-28 | the questionnaire write changes no other slot of any store |
| ProjectEntity.QuestionnaireOverwrites | domain/Entities/Project.py:25-28 | a later questionnaire replaces an earlier one entirely |
| ProjectEntity.SameNameSharesStore | domain/Entities/Project.py:11-15 | two projects constructed with one name differ only in their fresh ids and share one store |
| ProjectService.InitializeProject | application/ProjectService.py:22-35 | a missing or falsy name fails before anything is written; on success the project carries the given name and its namespace exists; a truthy questionnaire is stored as `[questionnaire]`, and a falsy one causes no write beyond the namespace |
| ProjectService.NoQuestionnaireNoWrite | application/ProjectService.py:32-33 | without a questionnaire, a new project has no questionnaire content |
| ArtifactEntity.PairAll | domain/Entities/Artifact.py:31-36 | one prompt per context item, in order, each with the same template fields |
| ArtifactEntity.CreatePrompt | domain/Entities/Artifact.py:23-38 | a template without `objects` fails; otherwise the i-th prompt carries the i-th context and the template's fields minus `objects`, all other fields unchanged |
| ArtifactEntity.NoContextsNoPrompts | domain/Entities/Artifact.py:27-38 | no context records give no prompts, and that is not an error |
| ArtifactEntity.PromptsShareTemplate | domain/Entities/Artifact.py:28-36 | all prompts share one template, so two prompts are equal exactly when their contexts are |
| ArtifactEntity.UpdateContent | domain/Entities/Artifact.py:40-47 | the artifact's own type slot reads the given records, and every other type's slot is unchanged |
| ArtifactGenerationService.NormalizeAdditional | application/ArtifactGenerationService.py:25 | an absent additional context becomes `{}` |
| ArtifactGenerationService.ResolveContext | application/ArtifactGenerationService.py:44-52 | non-empty stored content is used as it is; otherwise a non-empty additional context is used as `[additional]`; the result is empty exactly when both are empty |
| ArtifactGenerationService.GenerateArtifact | application/ArtifactGenerationService.py:27-64 | no context fails, then no template fails; success holds exactly when there is context, a first template with `objects`, and a successful generation, and then the generated records are stored under the type; on failure nothing beyond the project's namespace is written |
| ArtifactGenerationService.OnlyFirstTemplateUsed | application/ArtifactGenerationService.py:55 | templates after the first never change the outcome |
| ArtifactGenerationService.GeneratedContentIsStored | application/ArtifactGenerationService.py:58-64 | after success the type's slot reads the generated records and every other type's slot is unchanged |
| Scenario.DemoInitialized | application/ProjectService.py:22-35 | initialising `demo` creates the project over `db/demo` and writes its questionnaire there |
| Scenario.InitializeDemo | application/ProjectService.py:22-35 | in a fresh file system, `demo` reads its questionnaire back and has no DOCUMENTATION content |
| Scenario.DemoPrompt | domain/Entities/Artifact.py:28-36 | the one prompt for one context record is the template without `objects`, paired with that record |
| Scenario.DemoReopened | domain/Entities/Project.py:11-15 | constructing `demo` again reuses its namespace and writes nothing |
| Scenario.DemoWithoutContextFails | application/ArtifactGenerationService.py:44-52 | DOCUMENTATION generation without any context fails with nothing written |
| Scenario.DemoWithContextStores | application/ArtifactGenerationService.py:44-64 | with additional context, generation succeeds, stores the generated records, and keeps the questionnaire |
| Scenario.EndToEnd | application/ArtifactGenerationService.py:27-64 | the whole walk from the user response to stored documentation, including the failing run |
| SqlRepository.Names | infrastructure/repositories/sql_repository.py:36 | the column list is the value keys in insertion order |
| SqlRepository.ValuesOf | infrastructure/repositories/sql_repository.py:41 | the parameters are the values in insertion order |
| SqlRepository.Repeat | infrastructure/repositories/sql_repository.py:37 | `['?'] * n` has `n` entries, all `?` |
| SqlRepository.InsertStatement | infrastructure/repositories/sql_repository.py:35-38 | `save` issues a plain `INSERT INTO`, never an upsert, binding the values in column order |
| SqlRepository.InsertColumnsReadBack | infrastructure/repositories/sql_repository.py:35-41 | the column list written between `INSERT INTO t (` and `)` reads back, split at the commas, as exactly the column names in order, and the i-th bound parameter is the i-th column's value |
| SqlRepository.ColumnListReadBack | infrastructure/repositories/sql_repository.py:35 | a list of plain column names joined with `, ` and closed by `)` reads back as exactly those names |
| SqlRepository.KeyedStatement | infrastructure/repositories/sql_repository.py:65-68 | `load` and `delete` write a statement that starts with their verb and binds the identifier's value as the only parameter |
| SqlRepository.KeyedStatementWords | infrastructure/repositories/sql_repository.py:65 | after the verb, the statement's words are `FROM`, the table, `WHERE`, the key, `=` and `?`, in that order, so the table follows `FROM` and the key follows `WHERE` |
| SqlRepository.SelectAllStatement | infrastructure/repositories/sql_repository.py:111-114 | `get_all` writes `SELECT * FROM ` followed by the table, and binds no parameter |
| SqlRepository.Save | infrastructure/repositories/sql_repository.py:40-47 | a backend error gives `None`; otherwise the new row's id |
| SqlRepository.Load | infrastructure/repositories/sql_repository.py:62-72 | a row is returned exactly when the SELECT ran and found one, and it is the first row |
| SqlRepository.Delete | infrastructure/repositories/sql_repository.py:87-99 | true exactly when the DELETE ran and affected at least one row |
| SqlRepository.GetAll | infrastructure/repositories/sql_repository.py:111-118 | every row, or `[]` on a backend error |
| SqlRepository.Conditions | infrastructure/repositories/sql_repository.py:134 | one `k = ?` per condition, in order |
| SqlRepository.FindByStatement | infrastructure/repositories/sql_repository.py:134-135 | with conditions, the statement is the source's `SELECT ... WHERE ...`; with none, it is the plain `SELECT *` |
| SqlRepository.FindByStatementAsWritten | infrastructure/repositories/sql_repository.py:134-138 | as written, `find_by` binds the condition values in order, and with no conditions its text is `SELECT * FROM t WHERE ` |
| SqlRepository.FindByAsWritten | infrastructure/repositories/sql_repository.py:132-142 | as written, `find_by` returns the rows the backend gives for that statement, or `[]` when the backend rejects it |
| SqlRepository.FindBy | infrastructure/repositories/sql_repository.py:132-142 | the matching rows, or `[]` on a backend error |
| SqlRepository.InsertPlaceholdersMatchValues | infrastructure/repositories/sql_repository.py:36-41 | the INSERT holds exactly one `?` per value, and binds exactly that many parameters |
| SqlRepository.InsertTextCount | infrastructure/repositories/sql_repository.py:38 | the INSERT's fixed text adds no placeholder of its own |
| SqlRepository.KeyedStatementOnePlaceholder | infrastructure/repositories/sql_repository.py:65-68 | `load` and `delete` bind exactly one value to exactly one `?` |
| SqlRepository.WhereClausePlaceholders | infrastructure/repositories/sql_repository.py:134 | the WHERE clause holds one `?` per condition |
| SqlRepository.FindByPlaceholdersMatchConditions | infrastructure/repositories/sql_repository.py:134-138 | the `find_by` statement holds one `?` per condition and binds the condition values in the same order |
| SqlRepository.FindByEmptyAsWrittenFindsNothing | infrastructure/repositories/sql_repository.py:134-142 | as written, no conditions give a query ending in a bare ` WHERE `, which a rejecting backend turns into `[]` |
| SqlRepository.FindByEmptyIsGetAll | infrastructure/repositories/sql_repository.py:132-142 | mended, `find_by` with no conditions is `get_all` |
| SqlRepository.FindByAgreesWithSourceOnConditions | infrastructure/repositories/sql_repository.py:134-138 | with at least one condition, the mended `find_by` is the source's |
| HttpResponse.SuccessStatusText | infrastructure/http/response.py:78 | the SUCCESS status is written `success` |
| HttpResponse.ErrorStatusText | infrastructure/http/response.py:78 | the ERROR status is written `error` |
| HttpResponse.ValidationStatusText | infrastructure/http/response.py:78 | the VALIDATION_ERROR status is written `validation_error` |
| HttpResponse.KebabFrom | infrastructure/http/response.py:36-38 | the kebab form has no upper-case character and is never shorter than its input |
| HttpResponse.RoutePath | infrastructure/http/response.py:36-39 | a route starts with `/`, has no upper-case character, and has no `-` right after the `/` |
| HttpResponse.KebabRoundTrip | infrastructure/http/response.py:37 | kebab-casing a text without `-` loses nothing: reading it back gives the text |
| HttpResponse.RouteRoundTrip | infrastructure/http/response.py:36-39 | the route of a name whose `Service`-free stem is Pascal-case reads back to that stem |
| HttpResponse.RouteInjective | infrastructure/http/response.py:36-39 | services with different Pascal-case stems get different routes |
| HttpResponse.StemOf | infrastructure/http/response.py:38 | `replace('Service', '')` strips exactly the appended suffix from a stem in which `Service` does not occur |
| HttpResponse.TwoWordRoute | infrastructure/http/response.py:36-39 | a two-word Pascal-case name in which `Service` does not occur, with or without the `Service` suffix, routes to its words in lower case joined by `-` |
| HttpResponse.CreateUserRoute | infrastructure/http/response.py:29-30 | `CreateUserService` is served at `/create-user` |
| HttpResponse.UpdateProductRoute | infrastructure/http/response.py:29-31 | `UpdateProductService` is served at `/update-product` |
| HttpResponse.ServiceSuffixCollides | infrastructure/http/response.py:36-47 | for every name, the name and the same name with `Service` appended share a route, so the later registration takes it |
| HttpResponse.ServiceWordDropped | infrastructure/http/response.py:38 | a name that starts with `Service` is routed like the rest of the name |
| HttpResponse.ServiceDeskRoute | infrastructure/http/response.py:36-39 | `ServiceDesk` is served at `/desk`, not `/service-desk` |
| HttpResponse.RegisterAt | infrastructure/http/response.py:41-47 | registration enters the route config (method `POST`, no description) and the service, and changes no other entry |
| HttpResponse.RegisterService | infrastructure/http/response.py:25-47 | `register_service` adds the route derived from the service's name, with method `POST`, no description and that service name, and the service under its name; no other route or service changes, and nothing else is added |
| HttpResponse.RegisterAtIdempotent | infrastructure/http/response.py:46-47 | entering the same service under the same route twice changes nothing the second time |
| HttpResponse.RegisterIdempotent | infrastructure/http/response.py:25-47 | registering a service a second time leaves both maps as they were |
| HttpResponse.LoadRouteConfig | infrastructure/http/response.py:56-58 | loading configs changes no service and removes no route |
| HttpResponse.LoadRouteConfigLastWins | infrastructure/http/response.py:56-58 | the last config loaded for a route path is the one stored under it |
| HttpResponse.LoadRouteConfigKeepsOthers | infrastructure/http/response.py:56-58 | a route path no config names keeps its previous entry, or its absence |
| HttpResponse.CreateResponse | infrastructure/http/response.py:62-91 | the status is the lower-case enum name and the timestamp is the current time's text; `data` is present exactly when it is not `None`, and `message` and `errors` exactly when they are truthy, each with its given value |
| HttpResponse.Dispatch | infrastructure/http/response.py:104-158 | an unknown route gives ERROR with `route: Not found`; a missing implementation gives ERROR with `service: Not implemented`; VALIDATION_ERROR exactly when binding fails; SUCCESS exactly when binding and the call succeed, with the call's result as data; every non-success carries errors and no data |
| HttpResponse.UnknownRouteResponse | infrastructure/http/response.py:114-120 | an unknown route is answered with status `error`, no data, the not-found message and `route: Not found` |
| HttpResponse.RegisteredServiceDispatches | infrastructure/http/response.py:123-150 | a just-registered service is found under its route; its response depends only on binding and on the call |
| HttpResponse.ExecuteService | infrastructure/http/response.py:104-158 | with the time import mended, every response has a status and the given timestamp; an unknown route answers an error with `{"route": "Not found"}` and no data; a response carries data only on success; for a registered service, a binding error answers a validation error without data, and a successful call answers success carrying the result exactly when it is not `None` |
| HttpResponse.ExecuteServiceAsWrittenAlwaysRaises | infrastructure/http/response.py:79 | as written, every `execute_service` call raises `NameError`, from its handler as well |
| RestHandler.Segments | infrastructure/http/rest.py:21 | the segments are never empty as a list, and no segment contains `/` |
| RestHandler.ParseRoute | infrastructure/http/rest.py:20-30 | a path is rejected exactly when it has fewer than two segments; the service is the second segment, and the action is the third when there is one |
| RestHandler.SingleSegmentRejected | infrastructure/http/rest.py:21-30 | a path whose stripped form holds no `/` is rejected |
| RestHandler.RouteRoundTrip | infrastructure/http/rest.py:21-25 | segments written into a path are read back: the second is the service, the third the action, and later ones are ignored |
| RestHandler.HandleLogic | infrastructure/http/rest.py:58-68 | success exactly for `user`/`create`/POST and `user`/`get`/GET, returning exactly `{"message": "User created" or "User data retrieved", "data": data}`; other `user` requests fail with `Unsupported action or method`, and other services with `Unsupported service` |
| RestHandler.HandleRequest | infrastructure/http/rest.py:18-56 | 400 `Invalid path` exactly when the path has fewer than two segments; otherwise the second and third segments go to `handle_logic`, and its result comes back as 200 `{"success": true, "data": result}` or its exception message as 500 `{"success": false, "message": message}` |
| RestHandler.CreateUserRequest | infrastructure/http/rest.py:60-62 | a POST to `/<x>/user/create/...` answers 200 with `User created` and the data |
| RestHandler.GetUserRequest | infrastructure/http/rest.py:63-64 | a GET to `/<x>/user/get/...` answers 200 with `User data retrieved` and the data |
| RestHandler.UnknownServiceFails | infrastructure/http/rest.py:67-68 | any path whose second segment is not `user` answers 500 `Unsupported service` |
| RestHandler.UserWithoutActionFails | infrastructure/http/rest.py:65-66 | `/<x>/user` without an action answers 500 `Unsupported action or method` whatever the method |
| ServiceClient.FullUrl | infrastructure/http/request.py:75 | the URL is the base without trailing `/`, one `/`, and the endpoint without leading `/` |
| ServiceClient.FullUrlSeam | infrastructure/http/request.py:75 | exactly one `/` at the seam: the characters either side are not `/` |
| ServiceClient.FullUrlClean | infrastructure/http/request.py:75 | a clean base and endpoint are joined by one `/` |
| ServiceClient.FullUrlIgnoresExtraSlashes | infrastructure/http/request.py:75 | an extra `/` on either side of the seam makes no difference |
| ServiceClient.AuthConfigOf | infrastructure/http/request.py:45 | a missing `auth_config` is `{}` |
| ServiceClient.GetOrDefault | infrastructure/http/request.py:54-55 | a present key gives its value, even `None`; an absent one gives the default |
| ServiceClient.PrepareAuthentication | infrastructure/http/request.py:35-63 | no auth type leaves the session unchanged; an unknown type raises `ValueError` naming it; only `basic` changes `auth`; headers and params only gain keys; `api_key` at `headers` or `params` sets that map's entry for the key name to the configured key |
| ServiceClient.MissingAuthConfigIsEmpty | infrastructure/http/request.py:45 | a missing `auth_config` behaves exactly like `{}` |
| ServiceClient.BasicAuth | infrastructure/http/request.py:47-48 | `basic` sets `auth` to `(username, password)`, `None` for a missing part, and touches nothing else |
| ServiceClient.BearerAuth | infrastructure/http/request.py:49-52 | `bearer` sets `Authorization` to `Bearer ` followed by the token's text |
| ServiceClient.BearerWithoutToken | infrastructure/http/request.py:49-52 | with no token configured, the header reads `Bearer None` |
| ServiceClient.ApiKeyDefaults | infrastructure/http/request.py:53-58 | `api_key` without location or key name sets header `X-API-Key` to the key |
| ServiceClient.ApiKeyAt | infrastructure/http/request.py:53-61 | `api_key` with a text key name at `headers` (or `params`) sets exactly that entry of the headers (or params) to the key and leaves `auth` and the other map alone |
| ServiceClient.ApiKeyElsewhere | infrastructure/http/request.py:53-61 | `api_key` at a location other than `headers` or `params` changes nothing |
| ServiceClient.AuthOverridesConfiguredHeader | infrastructure/http/request.py:77-80 | authentication runs after the configured headers, so a bearer token wins over a configured `Authorization` header |
| ServiceClient.PrepareSession | infrastructure/http/request.py:77-80 | the session keeps its own headers and params and gains every configured header; without an auth type it always succeeds, leaves `auth` and params alone, and keeps every header the configuration does not override |
| ServiceClient.ConfiguredHeadersApplied | infrastructure/http/request.py:77-78 | without authentication, every configured header reaches the session with its value |
| ServiceClient.MethodMapTotal | infrastructure/http/request.py:83-89 | every HTTP method has an entry in `method_map` |
| ServiceClient.CallFor | infrastructure/http/request.py:83-94 | the unsupported-method `ValueError` is unreachable for enumeration values |
| ServiceClient.CallForInjective | infrastructure/http/request.py:83-89 | distinct methods use distinct session calls |

## Left out

- SqlRepository.InsertColumnsReadBack: stated for plain column names (non-empty, not starting with a space, without `,` or `)`); other names make the written column list ambiguous, and the source does not quote them.

- File-system effects: the bytes of `indent=2`, directory creation on disk, and `os.remove`. The directory is a map, and a write fault is an input.
- Path normalisation: `os.path.join` is modelled for one component. Identifiers and project names containing `/`, `.` or `..` are outside the injectivity lemmas.
- Read errors other than a parse failure (`IOError` on open), and the `OSError` of `os.remove`: the file system here never fails those calls.
- Floats, tuples and non-string object keys in documents: JSON numbers are integers.
- JsonRepository.Save: an id that is a list or a dict raises `UnrenderableId`. Python would render it into a file name; the model has no `str()` of containers.
- The `update` method on stores and `get_content`/`update_content` on `Project` are not part of the source; they are modelled as the single slot update and read described above.
- `get_prompts` and `get_context` are not part of this model: the templates are an input to `GenerateArtifact`, and the contexts an input to `CreatePrompt`.
- The artifact-type enumeration is not part of this model; two types stand for it.
- uuid generation: fresh ids are inputs.
- SQLite execution, cursors, commit/rollback, and `__del__`: the backend is a function from statement to outcome.
- The `KeyError` that `sql_repository.py` raises for a missing `values`, `table`, `key`, `value` or `conditions` entry: the model takes those entries as arguments.
- Network I/O: `requests.Session` calls, `raise_for_status`, `response.json()`, the generation service and the logging on failure.
- The HTTP server, socket reads, `Content-Length` parsing and `json.loads`/`parse_qs` body decoding. The decoded request data is an input.
- RestHandler.HandleRequest: takes the path component that `urlparse` extracts, not the raw request line.
- HttpResponse.TwoWordRoute: covers only names in which `Service` does not occur. Where it occurs, that occurrence is removed too, so `ServiceDesk` is served at `/desk` (`HttpResponse.ServiceDeskRoute`) rather than at the two-word route.
- HttpResponse.Dispatch: models only the `TypeError` of signature binding. Other exceptions from `inspect.signature` land in the same catch-all as a failing call; the binder is a parameter.
- HttpResponse.LoadRouteConfig: takes already-decoded route configs. The file read and the `TypeError` of `RouteConfig(**entry)` on bad keys are left out.
- The clock: `CreateResponse` takes the current time's ISO text as a parameter. As written, reading the clock raises `NameError` (see Findings).
- The time source, logging, `print`, and the `main()`/`__main__` demos.
- Unicode case mapping: `isupper`/`lower` are ASCII only.
- Header-name case-insensitivity of `requests`' header dictionary: names compare exactly. The session's default headers are part of the initial session, an input.
- ServiceClient.PrepareAuthentication: a bearer token that is a list or dict fails with `UnrenderedToken`, where Python would render it. A non-string `key_name` fails with `KeyNameNotText` at both locations, where Python only fails for headers.
- Concurrency: the source has none.

## Findings

| source | as written | input that shows it | evidently intended | confidence | as-written member | corrected member |
|---|---|---|---|---|---|---|
| infrastructure/repositories/sql_repository.py:134-135 | the WHERE keyword is always written, so no conditions give `SELECT * FROM t WHERE ` | `find_by({'table': 't', 'conditions': {}})` sends a query that SQLite rejects as incomplete, and the method returns `[]` | no conditions select every row, as the JSON repository's `find_by({})` does | not executed | SqlRepository.FindByEmptyAsWrittenFindsNothing | SqlRepository.FindByEmptyIsGetAll |
| infrastructure/http/response.py:79 | `create_response` calls `datetime.now()` but the module never imports `datetime` | any `execute_service` call: the response build raises `NameError`, and the handler's own `create_response` raises it again | every response carries a timestamp, and the cascade returns its response | not executed | HttpResponse.ExecuteServiceAsWrittenAlwaysRaises | HttpResponse.CreateResponse |
