/** The configuration document, its serde defaults, route-key
    normalisation and the loading pipeline of `ConfigManager`. */
module Config {
  import opened Results
  import opened Strings
  import opened KeyOrder
  import opened JsonValues
  import opened Errors
  import opened FileSystem

  /** Rust's `u16`. */
  type u16 = n: int | 0 <= n < 0x1_0000

  /** A response body: a JSON value, or one of the two text variants. */
  datatype BodyResponse = Value(value: Json) | String(text: string) | Str(text: string)

  /** A structured response: status code and body. */
  datatype ConfigRouteResponse = ConfigRouteResponse(status: Option<u16>, body: BodyResponse)

  /** A route's response: structured, a reference to a file holding a
      structured response (`String`), or plain text (`Str`). */
  datatype ConfigResponse =
    | Structured(response: ConfigRouteResponse)
    | String(file: string)
    | Str(text: string)

  datatype ConfigRoute = ConfigRoute(
    verb: Option<string>,
    description: Option<string>,
    headers: Option<map<string, string>>,
    idField: Option<string>,
    resultsField: Option<string>,
    response: ConfigResponse)

  datatype Config = Config(
    port: Option<u16>,
    hostname: Option<string>,
    staticFolder: Option<string>,
    staticRoute: string,
    routes: map<string, ConfigRoute>)

  // ---------------------------------------------------------------------
  // BodyResponse accessors

  /** `BodyResponse::as_value`. */
  function AsValue(b: BodyResponse): Json
  {
    match b
    case Value(v) => v
    case String(s) => JString(s)
    case Str(s) => JString(s)
  }

  /** `BodyResponse::as_str`. */
  function AsStr(b: BodyResponse): string
  {
    match b
    case Value(_) => ""
    case String(s) => s
    case Str(s) => s
  }

  /** `BodyResponse::is_value`. */
  predicate IsValue(b: BodyResponse)
  {
    b.Value?
  }

  /** `BodyResponse::is_str`. */
  predicate IsStr(b: BodyResponse)
  {
    b.String? || b.Str?
  }

  /** The accessors agree with each other: a body is exactly one of value or
      text; a text body's value is the JSON string of its text; a value body
      has no text and is its own value. */
  lemma BodyAccessorsAgree(b: BodyResponse)
    ensures IsValue(b) != IsStr(b)
    ensures IsStr(b) ==> AsValue(b) == JString(AsStr(b))
    ensures IsValue(b) ==> AsStr(b) == "" && AsValue(b) == b.value
  {
  }

  // ---------------------------------------------------------------------
  // Defaults

  const DefaultPort: u16 := 3001
  const DefaultHostname: string := "localhost"
  const DefaultStaticRoute: string := "/static"
  const DefaultMethod: string := "GET"
  const DefaultIdField: string := "id"
  const DefaultStatus: u16 := 200
  const DefaultBody: BodyResponse := BodyResponse.Value(EmptyObject)

  /** `Config::default()`. */
  function DefaultConfig(): Config
  {
    Config(Some(DefaultPort), Some(DefaultHostname), None, DefaultStaticRoute, map[])
  }

  /** `ConfigRoute::default()`. */
  function DefaultRoute(): ConfigRoute
  {
    ConfigRoute(Some(DefaultMethod), None, None, Some(DefaultIdField), None,
                Structured(ConfigRouteResponse(Some(DefaultStatus), DefaultBody)))
  }

  // ---------------------------------------------------------------------
  // Deserialisation defaults

  /** A field of a parsed JSON document: absent, or present (an explicit
      `null` of an optional field is `Present(None)`). */
  datatype Field<T> = Missing | Present(value: T)

  /** The value of a field with a serde `default`. */
  function OrDefault<T>(f: Field<T>, default: T): T
  {
    match f
    case Missing => default
    case Present(v) => v
  }

  /** A document read field by field, before defaults are filled in. A
      response is either a JSON object (`RawStructured`) or a JSON string
      (`RawText`); a body is any JSON value. */
  datatype RawRouteResponse = RawRouteResponse(status: Field<Option<u16>>, body: Field<Json>)
  datatype RawResponse = RawStructured(fields: RawRouteResponse) | RawText(text: string)
  datatype RawRoute = RawRoute(
    verb: Field<Option<string>>,
    description: Field<Option<string>>,
    headers: Field<Option<map<string, string>>>,
    idField: Field<Option<string>>,
    resultsField: Field<Option<string>>,
    response: RawResponse)
  datatype RawConfig = RawConfig(
    port: Field<Option<u16>>,
    hostname: Field<Option<string>>,
    staticFolder: Field<Option<string>>,
    staticRoute: Field<string>,
    routes: Field<map<string, RawRoute>>)

  /** `ConfigRouteResponse`'s defaults: status 200 and an empty object. A
      body always decodes as `Value`: the untagged `BodyResponse` tries that
      variant first and it accepts every JSON value. */
  function DecodeRouteResponse(raw: RawRouteResponse): (r: ConfigRouteResponse)
    ensures raw.status.Missing? ==> r.status == Some(DefaultStatus)
    ensures raw.status.Present? ==> r.status == raw.status.value
    ensures raw.body.Missing? ==> r.body == DefaultBody
    ensures raw.body.Present? ==> r.body == BodyResponse.Value(raw.body.value)
  {
    ConfigRouteResponse(
      OrDefault(raw.status, Some(DefaultStatus)),
      match raw.body
      case Missing => DefaultBody
      case Present(v) => BodyResponse.Value(v))
  }

  /** `ConfigRoute`'s defaults. A JSON string response decodes as
      `ConfigResponse::String`, the variant the untagged enum tries before
      `Str`, so parsing never yields `Str`. */
  function DecodeRoute(raw: RawRoute): (r: ConfigRoute)
    ensures raw.verb.Missing? ==> r.verb == Some(DefaultMethod)
    ensures raw.idField.Missing? ==> r.idField == Some(DefaultIdField)
    ensures raw.description.Missing? ==> r.description.None?
    ensures raw.headers.Missing? ==> r.headers.None?
    ensures raw.resultsField.Missing? ==> r.resultsField.None?
    ensures raw.verb.Present? ==> r.verb == raw.verb.value
    ensures raw.description.Present? ==> r.description == raw.description.value
    ensures raw.headers.Present? ==> r.headers == raw.headers.value
    ensures raw.idField.Present? ==> r.idField == raw.idField.value
    ensures raw.resultsField.Present? ==> r.resultsField == raw.resultsField.value
    ensures raw.response.RawText? ==> r.response == ConfigResponse.String(raw.response.text)
    ensures raw.response.RawStructured? ==> r.response == Structured(DecodeRouteResponse(raw.response.fields))
    ensures !r.response.Str?
  {
    ConfigRoute(
      OrDefault(raw.verb, Some(DefaultMethod)),
      OrDefault(raw.description, None),
      OrDefault(raw.headers, None),
      OrDefault(raw.idField, Some(DefaultIdField)),
      OrDefault(raw.resultsField, None),
      match raw.response
      case RawStructured(fields) => Structured(DecodeRouteResponse(fields))
      case RawText(f) => ConfigResponse.String(f))
  }

  /** `Config`'s defaults: port 3001, host "localhost", static route
      "/static", no static folder, no routes. */
  function DecodeConfig(raw: RawConfig): (r: Config)
    ensures raw.port.Missing? ==> r.port == Some(DefaultPort)
    ensures raw.hostname.Missing? ==> r.hostname == Some(DefaultHostname)
    ensures raw.staticFolder.Missing? ==> r.staticFolder.None?
    ensures raw.staticRoute.Missing? ==> r.staticRoute == DefaultStaticRoute
    ensures raw.routes.Missing? ==> r.routes == map[]
    ensures raw.port.Present? ==> r.port == raw.port.value
    ensures raw.hostname.Present? ==> r.hostname == raw.hostname.value
    ensures raw.staticFolder.Present? ==> r.staticFolder == raw.staticFolder.value
    ensures raw.staticRoute.Present? ==> r.staticRoute == raw.staticRoute.value
    ensures raw.routes.Present? ==> r.routes.Keys == raw.routes.value.Keys
    ensures raw.routes.Present? ==>
              forall k | k in raw.routes.value :: r.routes[k] == DecodeRoute(raw.routes.value[k])
  {
    var routes := OrDefault(raw.routes, map[]);
    Config(
      OrDefault(raw.port, Some(DefaultPort)),
      OrDefault(raw.hostname, Some(DefaultHostname)),
      OrDefault(raw.staticFolder, None),
      OrDefault(raw.staticRoute, DefaultStaticRoute),
      map k | k in routes :: DecodeRoute(routes[k]))
  }

  /** The serde defaults and the `Default` impls agree: an empty document
      decodes to `Config::default()`, and a route giving nothing but an empty
      response object decodes to `ConfigRoute::default()`. */
  lemma DefaultsAgree()
    ensures DecodeConfig(RawConfig(Missing, Missing, Missing, Missing, Missing)) == DefaultConfig()
    ensures DecodeRoute(RawRoute(Missing, Missing, Missing, Missing, Missing,
                                 RawStructured(RawRouteResponse(Missing, Missing)))) == DefaultRoute()
  {
  }

  // ---------------------------------------------------------------------
  // Route-key normalisation

  /** The method in brackets, if the key starts with `[` and has a `]`, and
      the path. A key without that shape is all path, untrimmed. */
  function SplitKey(key: string): (r: (Option<string>, string))
  {
    if |key| > 0 && key[0] == '[' then
      match IndexOf(key, ']')
      case Some(e) => (Some(ToUpper(Trim(key[1..e]))), Trim(key[e + 1..]))
      case None => (None, key)
    else (None, key)
  }

  /** The route with its method filled in: a method already set is kept;
      otherwise the bracketed one; otherwise GET. */
  function NormaliseRoute(key: string, route: ConfigRoute): (r: ConfigRoute)
    ensures r.verb.Some?
    ensures route.verb.Some? ==> r == route
    ensures route.verb.None? ==> r == route.(verb := r.verb)
  {
    if route.verb.Some? then route
    else route.(verb := Some(SplitKey(key).0.GetOr(DefaultMethod)))
  }

  /** The canonical key `[METHOD] path`. */
  function CanonicalKey(key: string, route: ConfigRoute): string
  {
    "[" + NormaliseRoute(key, route).verb.value + "] " + SplitKey(key).1
  }

  /** `ConfigManager::setup_config`, with `hint` fixing the route map's
      iteration order. Everything but the routes is copied, and there are
      routes afterwards exactly when there were before. */
  function SetupConfig(config: Config, hint: seq<string>): (r: Config)
    ensures r == config.(routes := r.routes)
    ensures |r.routes| <= |config.routes|
    ensures |r.routes| == 0 <==> |config.routes| == 0
  {
    RekeyedEntries(config.routes, hint, CanonicalKey, NormaliseRoute);
    config.(routes := Rekeyed(config.routes, hint, CanonicalKey, NormaliseRoute))
  }

  /** The normalised routes sit exactly under the canonical keys of the
      original ones, each holding the normalised form of a route with that
      canonical key, with its method set. */
  lemma SetupConfigRoutes(config: Config, hint: seq<string>)
    ensures forall k | k in config.routes :: CanonicalKey(k, config.routes[k]) in SetupConfig(config, hint).routes
    ensures forall ck | ck in SetupConfig(config, hint).routes :: exists k | k in config.routes ::
              && CanonicalKey(k, config.routes[k]) == ck
              && SetupConfig(config, hint).routes[ck] == NormaliseRoute(k, config.routes[k])
    ensures forall ck | ck in SetupConfig(config, hint).routes :: SetupConfig(config, hint).routes[ck].verb.Some?
  {
    RekeyedEntries(config.routes, hint, CanonicalKey, NormaliseRoute);
  }

  /** With no two keys normalising to the same canonical key, every route
      sits under its own canonical key and the iteration order does not
      matter. */
  lemma SetupWithoutCollisions(config: Config, hint: seq<string>, otherHint: seq<string>)
    requires forall k1, k2 | k1 in config.routes && k2 in config.routes && k1 != k2 ::
               CanonicalKey(k1, config.routes[k1]) != CanonicalKey(k2, config.routes[k2])
    ensures forall k | k in config.routes ::
              SetupConfig(config, hint).routes[CanonicalKey(k, config.routes[k])] == NormaliseRoute(k, config.routes[k])
    ensures |SetupConfig(config, hint).routes| == |config.routes|
    ensures SetupConfig(config, hint) == SetupConfig(config, otherHint)
  {
    RekeyedWithoutCollisions(config.routes, hint, CanonicalKey, NormaliseRoute);
    RekeyedOrderIndependent(config.routes, hint, otherHint, CanonicalKey, NormaliseRoute);
  }

  /** A method in upper case, without white space at its ends and without a
      closing bracket: the shape a canonical key carries. */
  predicate IsPlainMethod(m: string)
  {
    && ']' !in m
    && Trim(m) == m
    && forall i | 0 <= i < |m| :: UpperChar(m[i]) == m[i]
  }

  /** Splitting a bracketed key whose method is plain gives back the method
      and the trimmed path. */
  lemma SplitBracketed(m: string, path: string)
    requires IsPlainMethod(m)
    ensures SplitKey("[" + m + "] " + path) == (Some(m), Trim(path))
  {
    var key := "[" + m + "] " + path;
    var e := |m| + 1;
    assert key[..e] == "[" + m;
    IndexOfAt(key, ']', e);
    assert key[1..e] == m;
    assert key[e + 1..] == [' '] + path;
    TrimSkipsLeadingWhitespace(' ', path);
    ToUpperChars(m);
    assert ToUpper(m) == m;
  }

  /** Any bracketed key splits into its bracket contents, trimmed and in
      upper case, and the rest of the key, trimmed. */
  lemma SplitAnyBracketed(contents: string, rest: string)
    requires ']' !in contents
    ensures SplitKey("[" + contents + "]" + rest) == (Some(ToUpper(Trim(contents))), Trim(rest))
  {
    var key := "[" + contents + "]" + rest;
    var e := |contents| + 1;
    assert key[..e] == "[" + contents;
    IndexOfAt(key, ']', e);
    assert key[1..e] == contents;
    assert key[e + 1..] == rest;
  }

  /** The canonical key of any bracketed key: the route's own method when it
      has one, else the bracket contents trimmed and in upper case, then the
      trimmed path; so `[ post ]/x ` becomes `[POST] /x` for a route without
      a method. */
  lemma CanonicalBracketedKey(contents: string, rest: string, route: ConfigRoute)
    requires ']' !in contents
    ensures CanonicalKey("[" + contents + "]" + rest, route)
              == "[" + route.verb.GetOr(ToUpper(Trim(contents))) + "] " + Trim(rest)
  {
    SplitAnyBracketed(contents, rest);
  }

  /** A bracketed key takes the route's own method when it has one and the
      bracketed method otherwise; its path is trimmed. */
  lemma BracketedKey(m: string, path: string, route: ConfigRoute)
    requires IsPlainMethod(m)
    ensures CanonicalKey("[" + m + "] " + path, route) == "[" + route.verb.GetOr(m) + "] " + Trim(path)
  {
    SplitBracketed(m, path);
  }

  /** A key that does not open with a bracket, or never closes it, is all
      path, kept untrimmed, and its method is the route's own or GET. */
  lemma UnbracketedIsPath(key: string, route: ConfigRoute)
    requires |key| == 0 || key[0] != '[' || ']' !in key
    ensures SplitKey(key) == (None, key)
    ensures CanonicalKey(key, route) == "[" + route.verb.GetOr(DefaultMethod) + "] " + key
  {
    IndexOfFinds(key, ']');
  }

  /** Normalisation is idempotent on the keys it produces, provided the method
      is plain and the path is trimmed. */
  lemma NormaliseIdempotent(key: string, route: ConfigRoute)
    requires IsPlainMethod(NormaliseRoute(key, route).verb.value)
    requires Trim(SplitKey(key).1) == SplitKey(key).1
    ensures CanonicalKey(CanonicalKey(key, route), NormaliseRoute(key, route)) == CanonicalKey(key, route)
    ensures NormaliseRoute(CanonicalKey(key, route), NormaliseRoute(key, route)) == NormaliseRoute(key, route)
  {
    SplitBracketed(NormaliseRoute(key, route).verb.value, SplitKey(key).1);
  }

  /** An unbracketed key with white space at an end keeps it on the first
      pass and loses it on the second: there normalisation is not
      idempotent. */
  lemma NormaliseNotIdempotentOnUntrimmedPath(path: string, route: ConfigRoute)
    requires |path| == 0 || path[0] != '['
    requires Trim(path) != path
    requires IsPlainMethod(NormaliseRoute(path, route).verb.value)
    ensures CanonicalKey(CanonicalKey(path, route), NormaliseRoute(path, route)) != CanonicalKey(path, route)
  {
    var m := NormaliseRoute(path, route).verb.value;
    UnbracketedIsPath(path, route);
    SplitBracketed(m, path);
    var prefix := "[" + m + "] ";
    assert (prefix + path)[|prefix|..] == path;
    assert (prefix + Trim(path))[|prefix|..] == Trim(path);
  }

  // ---------------------------------------------------------------------
  // Loading

  type Bytes = seq<bv8>

  /** What loading needs from the outside: reading a file relative to the
      root (`FileSystemManager::load_file`) and the two serde parses. */
  datatype Storage = Storage(
    read: string -> Result<Bytes, IoError>,
    parseConfig: Bytes -> Result<RawConfig, SerdeError>,
    parseResponse: Bytes -> Result<RawRouteResponse, SerdeError>)

  /** The state `load_config` leaves behind and what it returns. */
  datatype LoadOutcome = LoadOutcome(config: Config, result: Result<(), FileSystemError>)

  const EmptyRoutesMessage: string := "Configuration routes are empty or invalid"

  /** Reading and parsing the configuration file, each error converted. */
  function ReadConfig(path: string, storage: Storage): (r: Result<RawConfig, FileSystemError>)
    ensures storage.read(path).Err? ==> r == Err(FromIo(storage.read(path).error))
    ensures storage.read(path).Ok? ==>
              r == storage.parseConfig(storage.read(path).value).MapErr(FromSerde)
  {
    var bytes :- storage.read(path).MapErr(FromIo);
    storage.parseConfig(bytes).MapErr(FromSerde)
  }

  /** Reading and parsing the structured response a `String` response names. */
  function ResolveReference(file: string, storage: Storage): (r: Result<ConfigRouteResponse, FileSystemError>)
    ensures storage.read(file).Err? ==> r == Err(FromIo(storage.read(file).error))
    ensures storage.read(file).Ok? && storage.parseResponse(storage.read(file).value).Err? ==>
              r == Err(FromSerde(storage.parseResponse(storage.read(file).value).error))
    ensures storage.read(file).Ok? && storage.parseResponse(storage.read(file).value).Ok? ==>
              r == Ok(DecodeRouteResponse(storage.parseResponse(storage.read(file).value).value))
    ensures r.Err? ==> r.error.NotFound? || r.error.PermissionDenied? || r.error.Io? || r.error.Utf8Decode?
  {
    var bytes :- storage.read(file).MapErr(FromIo);
    var raw :- storage.parseResponse(bytes).MapErr(FromSerde);
    Ok(DecodeRouteResponse(raw))
  }

  /** A route whose reference, if it has one, can be resolved. */
  predicate Resolvable(route: ConfigRoute, storage: Storage)
  {
    route.response.String? ==> ResolveReference(route.response.file, storage).Ok?
  }

  /** The route after resolution: a `String` reference replaced by what it
      names, any other route unchanged. */
  predicate ResolvedAs(before: ConfigRoute, after: ConfigRoute, storage: Storage)
  {
    match before.response
    case String(f) => ResolveReference(f, storage).Ok?
                      && after == before.(response := Structured(ResolveReference(f, storage).value))
    case _ => after == before
  }

  /** The loop of `ConfigManager::populate_config`: walks the routes in the
      order `keys` gives and resolves each reference in place, stopping at
      the first failure. The source walks a clone of the route map; as every
      key is visited once, the clone and the live map agree on each key when
      it is visited. A failure keeps what was resolved before it. */
  function PopulateRoutes(current: Config, keys: seq<string>, storage: Storage): (r: LoadOutcome)
    requires NoDuplicates(keys)
    requires forall i | 0 <= i < |keys| :: keys[i] in current.routes
    ensures r.config == current.(routes := r.config.routes)
    ensures r.config.routes.Keys == current.routes.Keys
    ensures forall k | k in current.routes && k !in keys :: r.config.routes[k] == current.routes[k]
    ensures r.result.Err? ==> !r.result.error.Operation?
    decreases |keys|
  {
    if |keys| == 0 then LoadOutcome(current, Ok(()))
    else
      var path := keys[0];
      var rest := keys[1..];
      assert forall i | 0 <= i < |rest| :: rest[i] == keys[i + 1];
      match current.routes[path].response
      case String(f) =>
        (match ResolveReference(f, storage)
         case Err(e) => LoadOutcome(current, Err(e))
         case Ok(resolved) =>
           if path in current.routes then
             var next := current.(routes := current.routes[path := current.routes[path].(response := Structured(resolved))]);
             PopulateRoutes(next, rest, storage)
           else
             LoadOutcome(current, Err(FileSystemError.Operation("Route " + path + " not found"))))
      case _ => PopulateRoutes(current, rest, storage)
  }

  /** Population succeeds exactly when every listed reference resolves, and
      then every listed route is resolved. */
  lemma {:induction false} PopulateSucceeds(current: Config, keys: seq<string>, storage: Storage)
    requires NoDuplicates(keys)
    requires forall i | 0 <= i < |keys| :: keys[i] in current.routes
    ensures PopulateRoutes(current, keys, storage).result.Ok? <==>
              forall i | 0 <= i < |keys| :: Resolvable(current.routes[keys[i]], storage)
    ensures PopulateRoutes(current, keys, storage).result.Ok? ==> forall i | 0 <= i < |keys| ::
              ResolvedAs(current.routes[keys[i]], PopulateRoutes(current, keys, storage).config.routes[keys[i]], storage)
    decreases |keys|
  {
    if |keys| > 0 {
      var path := keys[0];
      var rest := keys[1..];
      assert forall i | 0 <= i < |rest| :: rest[i] == keys[i + 1] && rest[i] != path;
      var route := current.routes[path];
      if route.response.String? && ResolveReference(route.response.file, storage).Ok? {
        var next := current.(routes := current.routes[path := route.(response := Structured(ResolveReference(route.response.file, storage).value))]);
        PopulateSucceeds(next, rest, storage);
        assert forall i | 0 <= i < |rest| :: next.routes[rest[i]] == current.routes[rest[i]];
      } else if !route.response.String? {
        PopulateSucceeds(current, rest, storage);
      }
    }
  }

  /** A failed population leaves every listed route either as it was or
      resolved. */
  lemma {:induction false} PopulateFailsPartially(current: Config, keys: seq<string>, storage: Storage)
    requires NoDuplicates(keys)
    requires forall i | 0 <= i < |keys| :: keys[i] in current.routes
    ensures forall i | 0 <= i < |keys| ::
              || PopulateRoutes(current, keys, storage).config.routes[keys[i]] == current.routes[keys[i]]
              || ResolvedAs(current.routes[keys[i]], PopulateRoutes(current, keys, storage).config.routes[keys[i]], storage)
    decreases |keys|
  {
    if |keys| > 0 {
      var path := keys[0];
      var rest := keys[1..];
      assert forall i | 0 <= i < |rest| :: rest[i] == keys[i + 1] && rest[i] != path;
      var route := current.routes[path];
      if route.response.String? && ResolveReference(route.response.file, storage).Ok? {
        var next := current.(routes := current.routes[path := route.(response := Structured(ResolveReference(route.response.file, storage).value))]);
        PopulateFailsPartially(next, rest, storage);
        assert forall i | 0 <= i < |rest| :: next.routes[rest[i]] == current.routes[rest[i]];
      } else if !route.response.String? {
        PopulateFailsPartially(current, rest, storage);
      }
    }
  }

  /** `ConfigManager::populate_config`, with `hint` fixing the iteration
      order of the route map. */
  function PopulateConfig(current: Config, hint: seq<string>, storage: Storage): (r: LoadOutcome)
    ensures r.config == current.(routes := r.config.routes)
    ensures r.config.routes.Keys == current.routes.Keys
    ensures r.result.Err? ==> !r.result.error.Operation?
  {
    var keys := Enumerate(current.routes.Keys, hint);
    assert forall i | 0 <= i < |keys| :: keys[i] in current.routes;
    PopulateRoutes(current, keys, storage)
  }

  /** Population succeeds exactly when every reference resolves; then every
      route is resolved, and otherwise every route is either as it was or
      resolved. */
  lemma PopulateConfigOutcome(current: Config, hint: seq<string>, storage: Storage)
    ensures var r := PopulateConfig(current, hint, storage);
            r.result.Ok? <==> forall k | k in current.routes :: Resolvable(current.routes[k], storage)
    ensures var r := PopulateConfig(current, hint, storage);
            r.result.Ok? ==> forall k | k in current.routes :: ResolvedAs(current.routes[k], r.config.routes[k], storage)
    ensures var r := PopulateConfig(current, hint, storage);
            forall k | k in current.routes ::
              r.config.routes[k] == current.routes[k] || ResolvedAs(current.routes[k], r.config.routes[k], storage)
  {
    var keys := Enumerate(current.routes.Keys, hint);
    assert forall i | 0 <= i < |keys| :: keys[i] in current.routes;
    PopulateSucceeds(current, keys, storage);
    PopulateFailsPartially(current, keys, storage);
    forall k | k in current.routes
      ensures exists i | 0 <= i < |keys| :: keys[i] == k
    {
      assert k in keys;
    }
  }

  /** `ConfigManager::load_config`. `current` is the manager's configuration
      before the call; the hints fix the iteration orders of the two route
      maps. */
  function LoadConfig(current: Config, path: string, storage: Storage,
                      setupHint: seq<string>, populateHint: seq<string>): LoadOutcome
  {
    match ReadConfig(path, storage)
    case Err(e) => LoadOutcome(current, Err(e))
    case Ok(raw) =>
      var normalised := SetupConfig(DecodeConfig(raw), setupHint);
      if |normalised.routes| == 0 then
        LoadOutcome(normalised, Err(FileSystemError.Operation(EmptyRoutesMessage)))
      else
        PopulateConfig(normalised, populateHint, storage)
  }

  /** A file that cannot be read or parsed leaves the configuration as it
      was and reports the error. */
  lemma LoadConfigReadFails(current: Config, path: string, storage: Storage,
                            setupHint: seq<string>, populateHint: seq<string>)
    requires ReadConfig(path, storage).Err?
    ensures LoadConfig(current, path, storage, setupHint, populateHint)
         == LoadOutcome(current, Err(ReadConfig(path, storage).error))
  {
  }

  /** The "no routes" error is reported exactly when the file parses but
      declares no routes. */
  lemma LoadConfigRejectsEmpty(current: Config, path: string, storage: Storage,
                               setupHint: seq<string>, populateHint: seq<string>)
    ensures LoadConfig(current, path, storage, setupHint, populateHint).result
              == Err(FileSystemError.Operation(EmptyRoutesMessage)) <==>
            ReadConfig(path, storage).Ok? && |DecodeConfig(ReadConfig(path, storage).value).routes| == 0
  {
    if ReadConfig(path, storage).Ok? {
      var normalised := SetupConfig(DecodeConfig(ReadConfig(path, storage).value), setupHint);
      if |normalised.routes| > 0 {
        var r := PopulateConfig(normalised, populateHint, storage);
        assert r.result.Err? ==> !r.result.error.Operation?;
      }
    }
  }

  /** Once the file is read and parsed, the normalised configuration is
      stored whatever happens next: a later failure does not restore the
      previous one. */
  lemma LoadConfigStoresNormalised(current: Config, path: string, storage: Storage,
                                   setupHint: seq<string>, populateHint: seq<string>)
    requires ReadConfig(path, storage).Ok?
    ensures var normalised := SetupConfig(DecodeConfig(ReadConfig(path, storage).value), setupHint);
            var r := LoadConfig(current, path, storage, setupHint, populateHint);
            r.config == normalised.(routes := r.config.routes) && r.config.routes.Keys == normalised.routes.Keys
  {
  }

  /** Every route's reference resolves. */
  predicate AllResolvable(config: Config, storage: Storage)
  {
    forall k | k in config.routes :: Resolvable(config.routes[k], storage)
  }

  /** Loading succeeds exactly when the file is read and parsed, declares
      routes and every route's reference resolves. */
  lemma LoadConfigSucceeds(current: Config, path: string, storage: Storage,
                           setupHint: seq<string>, populateHint: seq<string>)
    ensures LoadConfig(current, path, storage, setupHint, populateHint).result.Ok? <==>
              && ReadConfig(path, storage).Ok?
              && |DecodeConfig(ReadConfig(path, storage).value).routes| > 0
              && AllResolvable(SetupConfig(DecodeConfig(ReadConfig(path, storage).value), setupHint), storage)
  {
    if ReadConfig(path, storage).Ok? {
      var normalised := SetupConfig(DecodeConfig(ReadConfig(path, storage).value), setupHint);
      PopulateConfigOutcome(normalised, populateHint, storage);
    }
  }

  /** A load that reads a file declaring routes stores what population
      makes of the normalised configuration. */
  lemma LoadConfigPopulates(current: Config, path: string, storage: Storage,
                            setupHint: seq<string>, populateHint: seq<string>)
    requires ReadConfig(path, storage).Ok?
    requires |DecodeConfig(ReadConfig(path, storage).value).routes| > 0
    ensures LoadConfig(current, path, storage, setupHint, populateHint)
         == PopulateConfig(SetupConfig(DecodeConfig(ReadConfig(path, storage).value), setupHint), populateHint, storage)
  {
  }

  /** No route holds an inline text response. */
  predicate NoInlineText(config: Config)
  {
    forall k | k in config.routes :: !config.routes[k].response.Str?
  }

  /** A successful population of routes without inline text leaves every
      route resolved and structured. */
  lemma PopulateStructured(current: Config, hint: seq<string>, storage: Storage)
    requires NoInlineText(current)
    requires PopulateConfig(current, hint, storage).result.Ok?
    ensures var r := PopulateConfig(current, hint, storage);
            forall k | k in r.config.routes ::
              ResolvedAs(current.routes[k], r.config.routes[k], storage) && r.config.routes[k].response.Structured?
  {
    PopulateConfigOutcome(current, hint, storage);
  }

  /** After a successful load every route is the resolved form of the
      normalised one and holds a structured response. */
  lemma LoadConfigResolves(current: Config, path: string, storage: Storage,
                           setupHint: seq<string>, populateHint: seq<string>)
    requires LoadConfig(current, path, storage, setupHint, populateHint).result.Ok?
    ensures ReadConfig(path, storage).Ok?
    ensures var normalised := SetupConfig(DecodeConfig(ReadConfig(path, storage).value), setupHint);
            var r := LoadConfig(current, path, storage, setupHint, populateHint);
            forall k | k in r.config.routes ::
              ResolvedAs(normalised.routes[k], r.config.routes[k], storage) && r.config.routes[k].response.Structured?
  {
    var raw := ReadConfig(path, storage).value;
    var normalised := SetupConfig(DecodeConfig(raw), setupHint);
    LoadConfigPopulates(current, path, storage, setupHint, populateHint);
    NoStrAfterDecode(raw, setupHint);
    PopulateStructured(normalised, populateHint, storage);
  }

  /** Decoding never produces `Str`, and normalisation keeps responses. */
  lemma NoStrAfterDecode(raw: RawConfig, hint: seq<string>)
    ensures NoInlineText(SetupConfig(DecodeConfig(raw), hint))
  {
    RekeyedKeeps(DecodeConfig(raw).routes, hint, CanonicalKey, NormaliseRoute, (route: ConfigRoute) => !route.response.Str?);
  }

  /** `ConfigManager::get_config_file_path`: the first marker file, in
      priority order, that exists in the root. */
  function GetConfigFilePath(root: Path, present: Path -> bool): (r: Option<Path>)
    ensures r.None? <==> !HasMarker(root, present)
    ensures r.Some? ==> exists i | 0 <= i < |Markers| ::
              && r.value == Join(root, Markers[i])
              && present(r.value)
              && forall j | 0 <= j < i :: !present(Join(root, Markers[j]))
  {
    if present(Join(root, Markers[0])) then Some(Join(root, Markers[0]))
    else if present(Join(root, Markers[1])) then Some(Join(root, Markers[1]))
    else if present(Join(root, Markers[2])) then Some(Join(root, Markers[2]))
    else None
  }
}
