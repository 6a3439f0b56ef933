# json-echo core, modelled in Dafny

json-echo is a mock HTTP server driven by a JSON configuration file. The file
maps route keys such as `[GET] /api/users` to canned responses. A response
can also be a reference to another file holding the response. This project
models the parts of the server that are pure logic:

- **Configuration** (`Config`, `config.rs`):
  - the configuration records and their serde defaults;
  - the `BodyResponse` accessors;
  - route-key normalisation (`setup_config`);
  - the loading pipeline (`load_config`, `populate_config`), which normalises the keys, rejects an empty route table and resolves file references;
  - the marker-file choice of `get_config_file_path`.
- **Store** (`Store`, `database.rs`):
  - the in-memory `Database` of routes and models;
  - `populate`, which replaces the routes and appends the models;
  - the lookups `get_route`, `get_routes`, `get_models` and `get_model` (first match wins);
  - the projection `Model::get_data`;
  - the criteria search `find_entry_by_hashmap`.
- **Updates** (`Updates`): `update_data`, `update_model_data` and the two-argument `get_route` that the server and the store's tests call. `database.rs` does not define them, so their behaviour here is what `crates/core/tests/database_tests.rs` asserts. Any combination of data those tests leave open is delegated to a caller-supplied `Fallback`.
- **Root discovery** (`FileSystem`, `filesystem.rs`): `find_root` walks up to the nearest directory holding `db.json`, `.db.json` or `json-echo.json`. The root-selection part of `FileSystemManager::new` is modelled too.
- **Errors** (`Errors`, `errors.rs`): the error types, their conversions from I/O and serde errors, and their texts.
- **Server** (`Server`, `crates/cli/src/server.rs`):
  - `extract_path`;
  - the route registration of `create_router`;
  - the format choice of `response`;
  - the way the GET, POST and PUT handlers pick a model, a status and a body.

Supporting modules:
- `Results`: `Option` and `Result`.
- `Strings`: Rust's `trim`, `to_uppercase`, `find`, `contains`, `replace` and `starts_with`.
- `KeyOrder`: HashMap iteration order, and re-keying a map.
- `JsonValues`: serde_json values and their compact text.

**HashMap iteration order** is an explicit parameter, `hint`. `KeyOrder.Enumerate` lists a key set in the order `hint` suggests. `KeyOrder.EnumerateComplete` shows that every order is reachable, so a property proved for all hints holds whatever order the HashMap uses. Where the outcome depends on the order, the properties say so:
- which of two colliding route keys survives `setup_config`;
- which criterion `find_entry_by_hashmap` tries first;
- which of two route headers that differ only in case wins.

**File access and parsing** are parameters of the model:
- `Storage.read` reads a file relative to the root and may fail with an I/O error.
- `Storage.parseConfig` and `Storage.parseResponse` stand for serde's parses into the raw records.
- The serde defaults are modelled on the raw records (`Field`, `DecodeConfig`).
- In `FileSystem`, whether a file exists is a predicate `present`, and canonicalisation is a function `normalize`.

Where the code and its documentation disagree, the model follows the code:
- The documentation of `setup_config` (`config.rs:816-856`) says the bracketed method wins. The code keeps a method the route already has (`config.rs:880-882`). Serde gives a parsed route the method `GET` when the file omits `method` (`config.rs:288`). So the bracket decides only for routes whose method is an explicit `null` and for routes built with `method: None`. With `ConfigRoute::default()`, the documented example's key `[POST] /api/users` becomes `[GET] /api/users` (`Config.BracketedKey`).
- The documentation of `populate` says the models are replaced (`database.rs:174`). The code appends them (`database.rs:213`). A model that is already stored therefore shadows the new one for the same identifier (`Store.PopulateShadows`).

## Model

| member | source | states |
|---|---|---|
| Config.BodyAccessorsAgree | crates/core/src/config.rs:433-522 | a body is exactly one of value or text; a text body's value is the JSON string of its text; a value body has empty text and is its own value |
| Config.DefaultsAgree | crates/core/src/config.rs:145-367 | an empty document decodes to `Config::default()`, and a route with an empty response object decodes to `ConfigRoute::default()` |
| Config.DecodeConfig | crates/core/src/config.rs:145-213 | a missing field takes its default: port 3001, host "localhost", no static folder, static route "/static", no routes; a present field keeps its value, an explicit null included; each route is decoded under its own key |
| Config.DecodeRoute | crates/core/src/config.rs:285-332 | a missing method is GET, a missing id field is "id", the other optional fields are absent; a present field keeps its value, so an explicit null method stays absent; a JSON string response is a file reference and an object response is decoded, so parsing never gives inline text |
| Config.DecodeRouteResponse | crates/core/src/config.rs:562-611 | a missing status is 200 and a missing body is an empty object; a given body is kept as a JSON value |
| Config.NormaliseRoute | crates/core/src/config.rs:880-882 | after normalisation a route has a method; a method it already has is kept; otherwise only the method changes |
| Config.SetupConfig | crates/core/src/config.rs:866-894 | every field but the routes is copied; there are no more routes than before, and routes afterwards exactly when there were routes before |
| Config.SetupConfigRoutes | crates/core/src/config.rs:867-887 | every route lands under its canonical key; every key afterwards is the canonical key of some original route, holding that route with its method set |
| Config.SetupWithoutCollisions | crates/core/src/config.rs:867-887 | when no two keys share a canonical key, each route sits under its own key, the count is kept, and the iteration order does not matter |
| Config.SplitBracketed | crates/core/src/config.rs:869-876 | a key `[M] path` with a plain upper-case method splits back into `M` and the trimmed path |
| Config.SplitAnyBracketed | crates/core/src/config.rs:869-876 | any key `[x]rest` with no `]` in `x` splits into `x` trimmed and in upper case, and `rest` trimmed |
| Config.CanonicalBracketedKey | crates/core/src/config.rs:869-884 | the canonical key of any bracketed key uses the route's own method, else the bracket contents trimmed and in upper case, followed by the trimmed path |
| Config.BracketedKey | crates/core/src/config.rs:869-884 | the canonical key of `[M] path` uses the route's own method when it has one, else `M`; the path is trimmed |
| Config.UnbracketedIsPath | crates/core/src/config.rs:869-884 | a key that does not open with `[`, or never closes it, is all path and untrimmed, under the route's method or GET; so `[INVALID /users` becomes `[GET] [INVALID /users` |
| Config.NormaliseIdempotent | crates/core/src/config.rs:866-894 | normalising a canonical key with a plain method and a trimmed path gives it back unchanged |
| Config.NormaliseNotIdempotentOnUntrimmedPath | crates/core/src/config.rs:876-884 | an unbracketed key with white space at an end changes again on a second normalisation |
| Config.ReadConfig | crates/core/src/config.rs:725-731 | a read failure is converted from the I/O error; a parse failure is converted from the serde error |
| Config.ResolveReference | crates/core/src/config.rs:767-775 | a reference read and parsed resolves to the decoded response; otherwise it fails with the read or decode error, each converted from its cause |
| Config.PopulateRoutes | crates/core/src/config.rs:763-786 | resolution changes only route responses, keeps every key, leaves unlisted routes alone, and never fails with the "Route not found" operation error |
| Config.PopulateSucceeds | crates/core/src/config.rs:763-786 | population succeeds exactly when every listed reference resolves, and then every listed route holds its resolved response |
| Config.PopulateFailsPartially | crates/core/src/config.rs:763-786 | after a failure, every route is either unchanged or already resolved |
| Config.PopulateConfig | crates/core/src/config.rs:763-786 | population keeps every field but the routes and every route key, and its errors are never operation errors |
| Config.PopulateConfigOutcome | crates/core/src/config.rs:763-786 | in any iteration order, population succeeds exactly when every reference resolves; then every route is resolved, and otherwise each is unchanged or resolved |
| Config.LoadConfig | crates/core/src/config.rs:725-744 | `load_config`: read, parse, normalise, reject an empty route table, then populate; its properties are stated by the `LoadConfig` lemmas that follow |
| Config.LoadConfigReadFails | crates/core/src/config.rs:725-731 | a file that cannot be read or parsed leaves the configuration as it was and returns the converted error |
| Config.LoadConfigRejectsEmpty | crates/core/src/config.rs:733-739 | loading fails with "Configuration routes are empty or invalid" exactly when the file parses but declares no routes |
| Config.LoadConfigStoresNormalised | crates/core/src/config.rs:733-741 | once the file parses, the stored configuration is the normalised one whatever happens next, with the same keys: loading is not atomic |
| Config.LoadConfigPopulates | crates/core/src/config.rs:733-743 | a file that declares routes stores what population makes of the normalised configuration |
| Config.LoadConfigSucceeds | crates/core/src/config.rs:725-744 | loading succeeds exactly when the file is read and parsed, declares routes, and every reference resolves |
| Config.LoadConfigResolves | crates/core/src/config.rs:763-786 | after a successful load every route is the resolved form of its normalised route and holds a structured response |
| Config.NoStrAfterDecode | crates/core/src/config.rs:94-101 | a parsed and normalised configuration holds no inline-text response |
| Config.PopulateStructured | crates/core/src/config.rs:767-781 | a successful population of routes without inline text leaves every route resolved and structured |
| Config.GetConfigFilePath | crates/core/src/config.rs:999-1008 | the result is the first marker file that exists, in the order db.json, .db.json, json-echo.json; there is none exactly when no marker exists |
| Store.ModelsOf | crates/core/src/database.rs:197-214 | one model per listed route, in order, each built from its route |
| Store.Populate | crates/core/src/database.rs:195-215 | the route table becomes the given one; exactly one model per route is appended, and the earlier models stay as a prefix |
| Store.PopulateAppendsModels | crates/core/src/database.rs:197-214 | the appended models carry the route keys as identifiers, each once, and each is built from the route under its identifier |
| Store.ModelOfFields | crates/core/src/database.rs:199-211 | a new model has the key, the route's id field or "id", its description and results field, and its structured response; a reference or text response becomes status 200 with an empty object |
| Store.NewDatabaseEmpty | crates/core/src/database.rs:155-160 | a new database has no routes and no models, and populating it gives one model per route |
| Store.GetRoute | crates/core/src/database.rs:246-248 | a route is found exactly when the identifier is a key of the table, and it is the route stored there |
| Store.GetRoutes | crates/core/src/database.rs:273-279 | the listing holds every route key once and nothing else |
| Store.PopulateReplacesRoutes | crates/core/src/database.rs:195-196 | after populating, route lookups and listings answer from the new table only |
| Store.PopulateKeepsModels | crates/core/src/database.rs:305-307 | after populating, the model list is the old list extended by one model per route |
| Store.GetModel | crates/core/src/database.rs:337-341 | a model found is one of the stored models and carries the identifier looked up |
| Store.ModelIndex | crates/core/src/database.rs:337-341 | the position found holds the identifier and no earlier one does; there is none exactly when no model holds it |
| Store.GetModelFirst | crates/core/src/database.rs:337-341 | a model is found exactly when one has the identifier, and it is the earliest such model |
| Store.ModelIndexAppend | crates/core/src/database.rs:337-341 | searching appended models searches the old ones first |
| Store.PopulateShadows | crates/core/src/database.rs:213 | a model already stored for an identifier keeps answering lookups after a later populate adds another |
| Store.PopulateAddsFresh | crates/core/src/database.rs:195-215 | an identifier with no model yet finds the model of its route after populating, and nothing when the routes do not have it |
| Store.GetData | crates/core/src/database.rs:476-489 | the data is a value exactly when the body is, and a text body is shown as it is |
| Store.GetDataProjects | crates/core/src/database.rs:476-489 | with a results field naming a member of an object body, the data is that member; otherwise the whole body, including text bodies and absent members; value stays value and text stays text |
| Store.FirstCriterion | crates/core/src/database.rs:613-624 | the criterion found matches and none is reported when none matches |
| Store.FirstItem | crates/core/src/database.rs:625-639 | the element found is an object some criterion matches and no earlier element is |
| Store.FindEntry | crates/core/src/database.rs:607-643 | an entry is found only in object or array data; on array data it is one of the elements, on object data one of the member values |
| Store.FindEntryInObject | crates/core/src/database.rs:607-624 | on object data an entry is found exactly when some criterion matches, and it is the member that criterion names |
| Store.FindEntryInArray | crates/core/src/database.rs:625-643 | on array data the entry is the whole first element that is an object some criterion matches; there is none exactly when no element matches |
| Store.FindEntryNeedsContainer | crates/core/src/database.rs:610-643 | text bodies and scalar data never yield an entry |
| Store.IdCriterionMatchesNumber | crates/core/src/database.rs:616-618 | a criterion whose key contains the id field matches the numeral of an integer exactly when the member is that integer or that numeral as a string |
| Store.OtherCriterionMatchesString | crates/core/src/database.rs:620-622 | any other criterion, its key stripped of `:`, matches only a member equal to its value as a JSON string |
| Updates.UpsertIndex | crates/core/tests/database_tests.rs:695-737 | the position found has the incoming object's id and no earlier element has it |
| Updates.MergeJson | crates/core/tests/database_tests.rs:590-737 | objects merge into an object, arrays and objects merge into an array, two arrays keep every element; every other pair is the fallback's answer |
| Updates.MergeObjects | crates/core/tests/database_tests.rs:590-620 | merging objects keeps every member, adds the new ones and lets incoming values win |
| Updates.MergeArrays | crates/core/tests/database_tests.rs:627-654 | merging arrays gives the current elements followed by the incoming ones |
| Updates.MergeObjectIntoArray | crates/core/tests/database_tests.rs:661-737 | an object with an id already present merges into the first such element and the length stays; otherwise it is appended |
| Updates.UpdateData | crates/core/tests/database_tests.rs:743-837 | a text body fails with "Cannot merge data with string-based responses"; a success keeps the identifier, id field, results field and status, and leaves a value body; a results field over a body that is not an object is left to the fallback |
| Updates.UpdateDataRefusesText | crates/core/tests/database_tests.rs:814-837 | an update fails exactly when the body is text or the merge fails, and a text body fails with "Cannot merge data with string-based responses" |
| Updates.UpdateDataShows | crates/core/tests/database_tests.rs:743-777 | a successful update changes only the body; the data then shown is the merged target, and the other members of the body stay; without a results field over an object, the new body is the merge result itself |
| Updates.UpdateDataCreatesField | crates/core/tests/database_tests.rs:783-807 | a results field naming no member is created holding exactly the incoming data |
| Updates.UpdateModelData | crates/core/tests/database_tests.rs:1047-1158 | an identifier without a model fails; a success keeps the routes and the number of models |
| Updates.UpdateModelDataNotFound | crates/core/tests/database_tests.rs:1047-1059 | updating an identifier no model has fails with a message containing "not found" |
| Updates.UpdateModelDataTargets | crates/core/tests/database_tests.rs:1114-1158 | updating a known identifier succeeds exactly when its model's update does; only that model changes, and lookups then see it |
| Updates.UpdateLeavesOthers | crates/core/tests/database_tests.rs:1114-1158 | updating one identifier leaves what every other identifier finds unchanged |
| Updates.ModelIndexSame | crates/core/src/database.rs:337-341 | the first-match search reads only identifiers |
| Updates.GetRouteFor | crates/core/tests/database_tests.rs:269-340 | a route found is a stored route, and a bracketed identifier is looked up as it is |
| Updates.GetRouteForKeys | crates/core/tests/database_tests.rs:269-340 | a plain path is looked up as `[M] path` with M defaulting to GET; a bracketed identifier is looked up as it is; no method and GET agree |
| Updates.GetRouteForMethod | crates/core/tests/database_tests.rs:298-312 | a route found for a method is the one stored under that method's key, so another method's route is not returned |
| Server.ExtractPath | crates/cli/src/server.rs:701-707 | the pattern comes back as it is, or shortened to a trimmed path |
| Server.ExtractPathUnbracketed | crates/cli/src/server.rs:701-707 | a pattern without `]` is served as it is |
| Server.ExtractPathOfKey | crates/cli/src/server.rs:701-707 | the key `[M] path` is served at the trimmed path; for a trimmed path, the handler's `[M] ` + path gives the stored key back |
| Server.RegisteredKey | crates/cli/src/server.rs:179-203 | a stored bracketed key is registered exactly when its route's method is GET, POST or PUT, at the key's path |
| Server.Registrations | crates/cli/src/server.rs:179-205 | every registering key appears, and every registration comes from some key |
| Server.CreateRouter | crates/cli/src/server.rs:172-205 | each stored key that registers is registered, and nothing else is |
| Server.CreateRouterServes | crates/cli/src/server.rs:172-205 | over canonical keys, the registrations are exactly the GET, POST and PUT routes, each at its path with its method |
| Server.InsertHeadersValue | crates/cli/src/server.rs:361-371 | a header keeps its value unless a route header has its name, and then it holds one of those values |
| Server.ReplyContentType | crates/cli/src/server.rs:358-371 | the content type is JSON unless the route sets one, in any case, and then it is one of the route's values |
| Server.Respond | crates/cli/src/server.rs:624-657 | the reply keeps the status and the headers, and without a content type it is JSON |
| Server.RespondFormat | crates/cli/src/server.rs:624-657 | for a visible-ASCII content type, a form prefix gives a form body and an html prefix an html body; html and plain bodies hold the string data or nothing; anything else, no content type, or one `to_str` refuses, gives JSON |
| Server.StatusOf | crates/cli/src/server.rs:375-376 | the status is a valid three-digit code: the model's own when valid, 200 otherwise |
| Server.GetHandler | crates/cli/src/server.rs:326-391 | the reply carries the GET route's headers; without a `[GET] path` model its status is 404, with one the model's status |
| Server.AnswerChoice | crates/cli/src/server.rs:373-383 | with parameters that find an entry the answer is that entry, otherwise all the model shows; on object data that is the member a matching criterion names, or the whole object when none matches; scalar and text data are shown whole |
| Server.GetHandlerOutcome | crates/cli/src/server.rs:345-390 | the reply always has a content type; without a `[GET] path` model it is 404 with the error object; with one it has the model's status and the route's headers, and shows the entry the parameters find or else the model's data |
| Server.PostHandler | crates/cli/src/server.rs:429-556 | a POST keeps the routes and the number of models; without a GET or POST model it changes nothing and answers 404 with no route headers |
| Server.PostWithoutModel | crates/cli/src/server.rs:455-473 | without a GET or POST model the store is untouched and the reply is a bare JSON 404 |
| Server.PostWithOnlyGetModel | crates/cli/src/server.rs:511-555 | with only a GET model the store is untouched and the reply is 404: the update and the reply aim at the POST model |
| Server.PostMirrorsUpdate | crates/cli/src/server.rs:511-525 | after a POST the GET model holds the payload merged into it exactly when both the POST and the GET update succeed, and is unchanged otherwise, even when its own update alone would succeed |
| Server.PostFailureKeepsStore | crates/cli/src/server.rs:511-526 | a POST whose own update fails leaves the whole store unchanged |
| Server.PostAnswersFromPostModel | crates/cli/src/server.rs:455-555 | with a POST model the reply comes from it after the update, with the status of the model the existence check found |
| Server.PostUpdateKeepsModels | crates/cli/src/server.rs:511-525 | updates never remove a model |
| Server.PutHandler | crates/cli/src/server.rs:558-572 | every PUT is answered 404 with the error object in JSON, without reading the store |
| FileSystem.FindRoot | crates/core/src/filesystem.rs:181-197 | the root is an ancestor-or-self of the start holding a marker, and no nearer directory holds one; there is none exactly when no ancestor-or-self holds one |
| FileSystem.FindRootIgnoresWhichMarker | crates/core/src/filesystem.rs:186-191 | which markers a directory holds does not change the root chosen |
| FileSystem.NewManagerRoot | crates/core/src/filesystem.rs:317-329 | an explicit root is normalised; otherwise a failing working directory gives its I/O error, no marker gives "Root directory not found", and a found root is the nearest one, normalised |
| Errors.FromIo | crates/core/src/errors.rs:303-314 | NotFound and PermissionDenied keep their kind and every other kind is an I/O error carrying the message, all with the path "<unknown>" |
| Errors.FromSerde | crates/core/src/errors.rs:340-347 | every parse error becomes a decode error with the path "<unknown>" and the message |
| Errors.ErrorOperation | crates/core/src/errors.rs:273-275 | `Error::operation` builds the operation variant with the message |
| Errors.FromFileSystem | crates/core/src/errors.rs:232-236 | a filesystem error converts into the filesystem variant that carries it |
| Errors.AsRef | crates/core/src/errors.rs:384-389 | the name is "Error::FileSystem" exactly for the filesystem variant and "Error::Operation" exactly for the operation variant |
| Errors.DescribeNamesDetail | crates/core/src/errors.rs:131-190 | every filesystem error's text names its path; I/O, decode and operation errors also carry their message |
| KeyOrder.EnumerateComplete | crates/core/src/config.rs:867 | every duplicate-free listing of a key set is the enumeration of some hint, so properties proved for all hints hold for every HashMap order |
| KeyOrder.RekeyedOrderIndependent | crates/core/src/config.rs:867-887 | re-keying without collisions gives the same map whatever the iteration order |
| JsonValues.RenderNumberExactly | crates/core/src/database.rs:616 | a value's JSON text is an integer's numeral exactly when the value is that integer |
| JsonValues.DigitsRoundTrip | crates/core/src/database.rs:616 | reading back an integer's decimal digits gives the integer |
| Strings.TrimIdempotent | crates/core/src/config.rs:875 | trimming twice is trimming once |
| Strings.IndexOfFinds | crates/core/src/config.rs:870 | `find` reports nothing exactly when the character is absent, and otherwise its first position |

## Left out

- Serde itself, meaning JSON text and its parsing. `Storage.parseConfig` and `Storage.parseResponse` stand for it. The untagged enums are modelled as serde resolves them: a JSON string response is a `String` reference and never `Str`, and every body is a `Value`.
- `save_config` and `FileSystemManager::save_file`: they only write files.
- Real file I/O (`load_file`, `current_dir`, `Path::exists`, `canonicalize`). These are the parameters `Storage.read`, `cwd`, `present` and `normalize`.
- In `populate_config`, the reference is joined to the root and then passed to `load_file`, which joins the root again. Joining an absolute path replaces the base, so the file read is the root joined with the reference. The model reads the reference through `Storage.read`, which stands for that resolution.
- JSON numbers are integers. Floating-point numbers and their text are not modelled.
- `trim` uses Unicode white space. `to_uppercase` and header-name lower-casing are ASCII only.
- Routing, the TCP listener, CORS, static-file serving, the 404 fallback handler, shutdown and logging. These are axum and tokio machinery with no decision in them.
- The `RwLock` around the store and its poisoning replies ("Unable to read database" and the like). The store is a single-threaded value.
- Header names or values that fail to parse are dropped by the source. The model assumes every route header parses.
- `crates/cli/src/main.rs` (command-line parsing and bootstrap).
- `lib.rs`: it only re-exports.
- `Model::new` and the field getters of `Model` (`get_identifier`, `get_description`, `get_id_field`, `get_results_field`). They are the datatype's constructor and fields.
- Which of two route headers that differ only in case ends up in the reply follows the HashMap order. `Server.ReplyContentType` states the content type for every order: it is the value of one of them.
- `Updates.UpdateModelData`: updates the first model with the identifier, as `get_model` finds it. The tests never hold two models with one identifier.
- `Updates.NotFoundMessage`: the tests fix only that the text contains "not found". The rest of the text is a placeholder.
- `Updates.Upsert`: an incoming object without the id field is appended. The tests only upsert objects that carry an id.
- `Updates.MergeJson`: combinations the tests do not cover go to the caller's `Fallback`. Examples are an object into a number and an array into an object.
- `Server.CreateRouter`: axum panics when the same path is registered twice for one method. The model lists both registrations.
