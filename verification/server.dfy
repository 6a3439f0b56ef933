/** The request-handling decisions of the HTTP server: which routes are
    registered, how a stored key gives the path it is served at, how the
    GET, POST and PUT handlers pick model, status and body, and how the
    reply's format follows its content type. Routing, sockets and locking
    are not modelled; a request arrives as its matched path, its path
    parameters and its payload. */
module Server {
  import opened Results
  import opened Strings
  import opened KeyOrder
  import opened JsonValues
  import opened Config
  import opened Store
  import opened Updates

  // ---------------------------------------------------------------------
  // Paths and registration

  /** `extract_path`: the trimmed text after the first `]`, or the whole
      pattern when it has none. */
  function ExtractPath(pattern: string): (r: string)
    ensures r == pattern || (|r| < |pattern| && Trim(r) == r)
  {
    match IndexOf(pattern, ']')
    case Some(e) =>
      TrimIsInfix(pattern[e + 1..]);
      TrimIdempotent(pattern[e + 1..]);
      Trim(pattern[e + 1..])
    case None => pattern
  }

  /** A pattern without `]` is served as it is. */
  lemma ExtractPathUnbracketed(pattern: string)
    requires ']' !in pattern
    ensures ExtractPath(pattern) == pattern
  {
    IndexOfFinds(pattern, ']');
  }

  /** The key `[M] path` is served at the trimmed path, whatever `path`
      holds; for a trimmed path the handler's key `[M] ` + path is the
      stored key again. */
  lemma ExtractPathOfKey(m: string, path: string)
    requires ']' !in m
    ensures ExtractPath("[" + m + "] " + path) == Trim(path)
    ensures Trim(path) == path ==> "[" + m + "] " + ExtractPath("[" + m + "] " + path) == "[" + m + "] " + path
  {
    var key := "[" + m + "] " + path;
    var e := |m| + 1;
    assert key[..e] == "[" + m;
    IndexOfAt(key, ']', e);
    assert key[e + 1..] == [' '] + path;
    TrimSkipsLeadingWhitespace(' ', path);
  }

  /** The methods a route can be registered for. */
  predicate IsServedMethod(verb: Option<string>)
  {
    verb == Some("GET") || verb == Some("POST") || verb == Some("PUT")
  }

  /** One registered route: its path and the method it answers. */
  datatype Registration = Registration(path: string, verb: string)

  /** What `create_router` does with one stored key: look its route up, and
      register the key's path for a GET, POST or PUT route. */
  function Registered(db: Database, key: string): Option<Registration>
  {
    match GetRouteFor(db, key, None)
    case None => None
    case Some(route) =>
      if IsServedMethod(route.verb) then Some(Registration(ExtractPath(key), route.verb.value)) else None
  }

  /** A stored key that opens with a bracket is registered exactly when its
      route's method is GET, POST or PUT, at the key's path. */
  lemma RegisteredKey(db: Database, key: string)
    requires key in db.routes && |key| > 0 && key[0] == '['
    ensures Registered(db, key).Some? <==> IsServedMethod(db.routes[key].verb)
    ensures Registered(db, key).Some? ==>
              Registered(db, key).value == Registration(ExtractPath(key), db.routes[key].verb.value)
  {
  }

  /** The registrations for `keys`, in order. */
  function Registrations(db: Database, keys: seq<string>): (r: seq<Registration>)
    ensures forall i | 0 <= i < |keys| && Registered(db, keys[i]).Some? :: Registered(db, keys[i]).value in r
    ensures forall x | x in r :: exists i | 0 <= i < |keys| :: Registered(db, keys[i]) == Some(x)
  {
    if |keys| == 0 then []
    else
      var rest := Registrations(db, keys[1..]);
      assert forall i | 1 <= i < |keys| :: keys[i] == keys[1..][i - 1];
      match Registered(db, keys[0])
      case None => rest
      case Some(x) => [x] + rest
  }

  /** `create_router`, with `hint` fixing the order of the stored keys:
      every stored key is considered once and registered by `Registered`. */
  function CreateRouter(db: Database, hint: seq<string>): (r: seq<Registration>)
    ensures forall key | key in db.routes && Registered(db, key).Some? :: Registered(db, key).value in r
    ensures forall x | x in r :: exists key | key in db.routes :: Registered(db, key) == Some(x)
  {
    var keys := GetRoutes(db, hint);
    assert forall i | 0 <= i < |keys| :: keys[i] in db.routes;
    Registrations(db, keys)
  }

  /** Over canonical keys, the registered routes are exactly the GET, POST
      and PUT routes, each at its key's path with its own method. */
  lemma CreateRouterServes(db: Database, hint: seq<string>)
    requires forall key | key in db.routes :: |key| > 0 && key[0] == '['
    ensures forall key | key in db.routes && IsServedMethod(db.routes[key].verb) ::
              Registration(ExtractPath(key), db.routes[key].verb.value) in CreateRouter(db, hint)
    ensures forall x | x in CreateRouter(db, hint) ::
              exists key | key in db.routes ::
                IsServedMethod(db.routes[key].verb) && x == Registration(ExtractPath(key), db.routes[key].verb.value)
  {
    forall key | key in db.routes
      ensures Registered(db, key).Some? <==> IsServedMethod(db.routes[key].verb)
      ensures Registered(db, key).Some? ==>
                Registered(db, key).value == Registration(ExtractPath(key), db.routes[key].verb.value)
    {
      RegisteredKey(db, key);
    }
  }

  // ---------------------------------------------------------------------
  // Replies

  /** The body of a reply in the format the content type selects. */
  datatype ReplyBody =
    | JsonBody(json: Json)
    | FormBody(form: Json)
    | HtmlBody(html: string)
    | TextBody(text: string)

  /** A reply: status code, headers by lower-case name, body. */
  datatype Reply = Reply(status: nat, headers: map<string, string>, body: ReplyBody)

  /** The name of the content-type header, lower-cased. */
  const ContentType: string := "content-type"

  /** The JSON content type every handler starts from. */
  const JsonContentType: string := "application/json"

  /** The reply headers: the JSON content type, then the route's own headers
      in the order `hint` fixes, a later one replacing an earlier one of the
      same name. */
  function ReplyHeaders(routeHeaders: Option<map<string, string>>, hint: seq<string>): (r: map<string, string>)
    ensures ContentType in r
  {
    match routeHeaders
    case None => map[ContentType := JsonContentType]
    case Some(headers) =>
      var keys := Enumerate(headers.Keys, hint);
      assert forall i | 0 <= i < |keys| :: keys[i] in headers;
      InsertHeaders(map[ContentType := JsonContentType], headers, keys)
  }

  /** Inserting `keys` of `headers` into `acc`, each under its lower-case
      name. */
  function InsertHeaders(acc: map<string, string>, headers: map<string, string>, keys: seq<string>): (r: map<string, string>)
    requires forall i | 0 <= i < |keys| :: keys[i] in headers
    ensures forall n | n in acc :: n in r
    decreases |keys|
  {
    if |keys| == 0 then acc
    else InsertHeaders(acc[ToLower(keys[0]) := headers[keys[0]]], headers, keys[1..])
  }

  /** A name keeps its value unless an inserted header has that name, and
      then it holds one of those headers' values. */
  lemma {:induction false} InsertHeadersValue(acc: map<string, string>, headers: map<string, string>,
                                              keys: seq<string>, name: string)
    requires forall i | 0 <= i < |keys| :: keys[i] in headers
    requires name in acc
    ensures (forall i | 0 <= i < |keys| :: ToLower(keys[i]) != name) ==>
              InsertHeaders(acc, headers, keys)[name] == acc[name]
    ensures InsertHeaders(acc, headers, keys)[name] == acc[name] ||
            exists i | 0 <= i < |keys| :: ToLower(keys[i]) == name && InsertHeaders(acc, headers, keys)[name] == headers[keys[i]]
    decreases |keys|
  {
    if |keys| > 0 {
      var next := acc[ToLower(keys[0]) := headers[keys[0]]];
      assert forall i | 1 <= i < |keys| :: keys[i] == keys[1..][i - 1];
      InsertHeadersValue(next, headers, keys[1..], name);
    }
  }

  /** The content type of a reply is the JSON one unless the route sets a
      header of that name, in any case, and then it is one of those
      headers' values. */
  lemma ReplyContentType(routeHeaders: Option<map<string, string>>, hint: seq<string>)
    ensures ContentType in ReplyHeaders(routeHeaders, hint)
    ensures (routeHeaders.None? || forall k | k in routeHeaders.value :: ToLower(k) != ContentType) ==>
              ReplyHeaders(routeHeaders, hint)[ContentType] == JsonContentType
    ensures routeHeaders.Some? && ReplyHeaders(routeHeaders, hint)[ContentType] != JsonContentType ==>
              exists k | k in routeHeaders.value ::
                ToLower(k) == ContentType && ReplyHeaders(routeHeaders, hint)[ContentType] == routeHeaders.value[k]
  {
    if routeHeaders.Some? {
      var headers := routeHeaders.value;
      var keys := Enumerate(headers.Keys, hint);
      assert forall i | 0 <= i < |keys| :: keys[i] in headers;
      InsertHeadersValue(map[ContentType := JsonContentType], headers, keys, ContentType);
    }
  }

  /** The body of a text reply: the string, or nothing for other data. */
  function TextOf(data: Json): string
  {
    if data.JString? then data.s else ""
  }

  /** A header value `HeaderValue::to_str` accepts: visible ASCII or tabs. */
  predicate VisibleAscii(s: string)
  {
    forall i | 0 <= i < |s| :: s[i] == '\t' || ' ' <= s[i] <= '~'
  }

  /** `response`: the format follows the content type's prefix; without a
      content type, with one `to_str` refuses, or with any other prefix, the
      reply is JSON. */
  function Respond(headers: map<string, string>, status: nat, data: Json): (r: Reply)
    ensures r.status == status && r.headers == headers
    ensures ContentType !in headers ==> r.body == JsonBody(data)
  {
    var body :=
      if ContentType !in headers || !VisibleAscii(headers[ContentType]) then JsonBody(data)
      else
        var contentType := headers[ContentType];
        if StartsWith(contentType, "application/x-www-form-urlencoded") then FormBody(data)
        else if StartsWith(contentType, "text/html") then HtmlBody(TextOf(data))
        else if StartsWith(contentType, "text/plain") then TextBody(TextOf(data))
        else JsonBody(data);
    Reply(status, headers, body)
  }

  /** Each format answers to its content-type prefix, text formats carry the
      string data or nothing, and JSON is the fallback for everything else. */
  lemma RespondFormat(headers: map<string, string>, status: nat, data: Json)
    ensures Respond(headers, status, data).status == status && Respond(headers, status, data).headers == headers
    ensures Respond(headers, status, data).body.FormBody? <==>
              && ContentType in headers && VisibleAscii(headers[ContentType])
              && StartsWith(headers[ContentType], "application/x-www-form-urlencoded")
    ensures Respond(headers, status, data).body.HtmlBody? <==>
              && ContentType in headers && VisibleAscii(headers[ContentType])
              && !StartsWith(headers[ContentType], "application/x-www-form-urlencoded")
              && StartsWith(headers[ContentType], "text/html")
    ensures Respond(headers, status, data).body.JsonBody? <==>
              ContentType !in headers || !VisibleAscii(headers[ContentType]) ||
              (!StartsWith(headers[ContentType], "application/x-www-form-urlencoded")
               && !StartsWith(headers[ContentType], "text/html")
               && !StartsWith(headers[ContentType], "text/plain"))
    ensures Respond(headers, status, data).body.HtmlBody? ==> Respond(headers, status, data).body.html == TextOf(data)
    ensures Respond(headers, status, data).body.TextBody? ==> Respond(headers, status, data).body.text == TextOf(data)
    ensures Respond(headers, status, data).body.FormBody? ==> Respond(headers, status, data).body.form == data
    ensures Respond(headers, status, data).body.JsonBody? ==> Respond(headers, status, data).body.json == data
  {
  }

  /** The status a model's code gives: its own code when it is a valid
      three-digit HTTP status, 200 when it has none or an invalid one. */
  function StatusOf(code: Option<u16>): (r: nat)
    ensures 100 <= r <= 999
    ensures code.Some? && 100 <= code.value <= 999 ==> r == code.value
    ensures code.None? || code.value < 100 || code.value > 999 ==> r == 200
  {
    var wanted := code.GetOr(DefaultStatus);
    if 100 <= wanted <= 999 then wanted else 200
  }

  /** The error reply's body. */
  const ModelNotFound: Json := ErrorObject("Model not found")

  /** The answer a model gives to a request: the entry the parameters find,
      when there are parameters and they find one, else the model's data. */
  function Answer(m: Model, params: map<string, string>, criteriaHint: seq<string>): Json
  {
    if |params| > 0 && FindEntry(m, params, criteriaHint).Some? then FindEntry(m, params, criteriaHint).value
    else AsValue(GetData(m))
  }

  /** A request as a handler sees it: the matched path, the path parameters
      and the iteration orders of the two maps involved. */
  datatype Request = Request(path: string, params: map<string, string>, criteriaHint: seq<string>, headerHint: seq<string>)

  /** The headers of the GET route of `path`, as the handlers send them. */
  function RouteHeaders(db: Database, req: Request): map<string, string>
  {
    var route := GetRouteFor(db, req.path, Some("GET"));
    ReplyHeaders(if route.Some? then route.value.headers else None, req.headerHint)
  }

  /** `get_handler`: the model stored for `[GET] path` answers with its
      status; without one the reply is 404. */
  function GetHandler(db: Database, req: Request): (r: Reply)
    ensures r.headers == RouteHeaders(db, req)
    ensures GetModel(db, "[GET] " + req.path).None? ==> r.status == 404
    ensures GetModel(db, "[GET] " + req.path).Some? ==> r.status == StatusOf(GetStatus(GetModel(db, "[GET] " + req.path).value))
  {
    var headers := RouteHeaders(db, req);
    match GetModel(db, "[GET] " + req.path)
    case None => Respond(headers, 404, ModelNotFound)
    case Some(m) => Respond(headers, StatusOf(GetStatus(m)), Answer(m, req.params, req.criteriaHint))
  }

  /** The data a model answers with: with parameters that find an entry,
      that entry; with none, or when they find nothing, all the model shows.
      On object data that means the member a matching criterion names, and
      the whole object when no criterion matches; scalar and text data are
      always shown whole. */
  lemma AnswerChoice(m: Model, params: map<string, string>, criteriaHint: seq<string>)
    ensures |params| == 0 ==> Answer(m, params, criteriaHint) == AsValue(GetData(m))
    ensures FindEntry(m, params, criteriaHint).None? ==> Answer(m, params, criteriaHint) == AsValue(GetData(m))
    ensures |params| > 0 && FindEntry(m, params, criteriaHint).Some? ==>
              Answer(m, params, criteriaHint) == FindEntry(m, params, criteriaHint).value
    ensures GetData(m).Value? && GetData(m).value.JObject? ==>
              var obj := GetData(m).value.fields;
              && (!AnyCriterion(m.idField, params, obj) ==> Answer(m, params, criteriaHint) == JObject(obj))
              && (AnyCriterion(m.idField, params, obj) ==>
                    exists k | k in params ::
                      CriterionMatches(m.idField, k, params[k], obj) && Answer(m, params, criteriaHint) == obj[RemoveAll(k, ':')])
    ensures !(GetData(m).Value? && (GetData(m).value.JObject? || GetData(m).value.JArray?)) ==>
              Answer(m, params, criteriaHint) == AsValue(GetData(m))
  {
    if GetData(m).Value? && GetData(m).value.JObject? {
      FindEntryInObject(m, params, criteriaHint);
    } else if !(GetData(m).Value? && GetData(m).value.JArray?) {
      FindEntryNeedsContainer(m, params, criteriaHint);
    }
  }

  /** Without a model stored for `[GET] path` the reply is 404 with the
      error object; with one it carries the model's status, the route's
      headers with a content type, and the entry the parameters find, or
      else all the model shows. */
  lemma GetHandlerOutcome(db: Database, req: Request)
    ensures ContentType in GetHandler(db, req).headers
    ensures GetModel(db, "[GET] " + req.path).None? ==>
              GetHandler(db, req) == Respond(RouteHeaders(db, req), 404, ModelNotFound)
    ensures GetModel(db, "[GET] " + req.path).Some? ==>
              var m := GetModel(db, "[GET] " + req.path).value;
              && GetHandler(db, req).status == StatusOf(GetStatus(m))
              && GetHandler(db, req).headers == RouteHeaders(db, req)
              && (|req.params| == 0 || FindEntry(m, req.params, req.criteriaHint).None? ==>
                    GetHandler(db, req) == Respond(RouteHeaders(db, req), StatusOf(GetStatus(m)), AsValue(GetData(m))))
              && (|req.params| > 0 && FindEntry(m, req.params, req.criteriaHint).Some? ==>
                    GetHandler(db, req)
                      == Respond(RouteHeaders(db, req), StatusOf(GetStatus(m)), FindEntry(m, req.params, req.criteriaHint).value))
  {
    var route := GetRouteFor(db, req.path, Some("GET"));
    ReplyContentType(if route.Some? then route.value.headers else None, req.headerHint);
    if GetModel(db, "[GET] " + req.path).Some? {
      AnswerChoice(GetModel(db, "[GET] " + req.path).value, req.params, req.criteriaHint);
    }
  }

  /** Where the store's state goes after a POST: the update of `[POST] path`,
      mirrored to `[GET] path` only when it succeeded; a failure leaves the
      store as it was. */
  function PostUpdate(db: Database, path: string, payload: Json, fallback: Fallback): (r: Database)
    ensures r.routes == db.routes && |r.models| == |db.models|
  {
    match UpdateModelData(db, "[POST] " + path, payload, fallback)
    case Err(_) => db
    case Ok(updated) =>
      match UpdateModelData(updated, "[GET] " + path, payload, fallback)
      case Err(_) => updated
      case Ok(mirrored) => mirrored
  }

  /** `post_handler`: the request is refused unless a GET or POST model
      exists; then the POST model is updated and mirrored, and the reply is
      read from the updated POST model with the status found before the
      update. Returns the new store and the reply. */
  function PostHandler(db: Database, req: Request, payload: Option<Json>, fallback: Fallback): (r: (Database, Reply))
    ensures r.0.routes == db.routes && |r.0.models| == |db.models|
    ensures GetModel(db, "[GET] " + req.path).None? && GetModel(db, "[POST] " + req.path).None? ==>
              r.0 == db && r.1.status == 404 && r.1.headers == map[]
  {
    var data := payload.GetOr(EmptyObject);
    var found := GetModel(db, "[GET] " + req.path).OrElse(GetModel(db, "[POST] " + req.path));
    match found
    case None => (db, Respond(map[], 404, ModelNotFound))
    case Some(m) =>
      var headers := RouteHeaders(db, req);
      var status := StatusOf(GetStatus(m));
      var updated := PostUpdate(db, req.path, data, fallback);
      match GetModel(updated, "[POST] " + req.path)
      case None => (updated, Respond(headers, 404, ModelNotFound))
      case Some(target) => (updated, Respond(headers, status, Answer(target, req.params, req.criteriaHint)))
  }

  /** Without a GET or POST model the store is untouched and the reply is a
      bare 404 in JSON. */
  lemma PostWithoutModel(db: Database, req: Request, payload: Option<Json>, fallback: Fallback)
    requires GetModel(db, "[GET] " + req.path).None? && GetModel(db, "[POST] " + req.path).None?
    ensures PostHandler(db, req, payload, fallback) == (db, Reply(404, map[], JsonBody(ModelNotFound)))
  {
  }

  /** With only a GET model the existence check passes, but the update and
      the reply both aim at the POST model: the store is untouched and the
      reply is 404. */
  lemma PostWithOnlyGetModel(db: Database, req: Request, payload: Option<Json>, fallback: Fallback)
    requires GetModel(db, "[GET] " + req.path).Some? && GetModel(db, "[POST] " + req.path).None?
    ensures PostHandler(db, req, payload, fallback).0 == db
    ensures PostHandler(db, req, payload, fallback).1.status == 404
    ensures PostHandler(db, req, payload, fallback).1 == Respond(RouteHeaders(db, req), 404, ModelNotFound)
  {
    UpdateModelDataNotFound(db, "[POST] " + req.path, payload.GetOr(EmptyObject), fallback);
  }

  /** The mirror: after a POST the GET model holds the payload merged into
      it exactly when both the POST model's update and its own succeed;
      otherwise it is as it was, in particular when the POST model's update
      fails even though the GET model's alone would succeed. */
  lemma PostMirrorsUpdate(db: Database, req: Request, payload: Option<Json>, fallback: Fallback)
    ensures var data := payload.GetOr(EmptyObject);
            var get := GetModel(db, "[GET] " + req.path);
            get.Some? ==>
              GetModel(PostHandler(db, req, payload, fallback).0, "[GET] " + req.path)
                == if UpdateModelData(db, "[POST] " + req.path, data, fallback).Ok? && UpdateData(get.value, data, fallback).Ok?
                   then Some(UpdateData(get.value, data, fallback).value)
                   else get
  {
    var data := payload.GetOr(EmptyObject);
    var getKey := "[GET] " + req.path;
    var postKey := "[POST] " + req.path;
    assert getKey[1] != postKey[1];
    var first := UpdateModelData(db, postKey, data, fallback);
    if first.Ok? && GetModel(db, getKey).Some? {
      UpdateLeavesOthers(db, postKey, data, fallback, getKey);
      UpdateModelDataTargets(first.value, getKey, data, fallback);
    }
  }

  /** A POST whose own update fails leaves the whole store unchanged. */
  lemma PostFailureKeepsStore(db: Database, req: Request, payload: Option<Json>, fallback: Fallback)
    requires UpdateModelData(db, "[POST] " + req.path, payload.GetOr(EmptyObject), fallback).Err?
    ensures PostHandler(db, req, payload, fallback).0 == db
  {
  }

  /** With a POST model, the reply comes from that model after the update,
      with the status of the model the existence check found, the GET model
      when there is one. */
  lemma PostAnswersFromPostModel(db: Database, req: Request, payload: Option<Json>, fallback: Fallback)
    requires GetModel(db, "[POST] " + req.path).Some?
    ensures var (after, reply) := PostHandler(db, req, payload, fallback);
            var found := GetModel(db, "[GET] " + req.path).OrElse(GetModel(db, "[POST] " + req.path)).value;
            && after == PostUpdate(db, req.path, payload.GetOr(EmptyObject), fallback)
            && GetModel(after, "[POST] " + req.path).Some?
            && reply == Respond(RouteHeaders(db, req), StatusOf(GetStatus(found)),
                                Answer(GetModel(after, "[POST] " + req.path).value, req.params, req.criteriaHint))
  {
    var data := payload.GetOr(EmptyObject);
    PostUpdateKeepsModels(db, req.path, data, fallback, "[POST] " + req.path);
  }

  /** Updates never remove a model: an identifier that has one keeps one. */
  lemma PostUpdateKeepsModels(db: Database, path: string, payload: Json, fallback: Fallback, identifier: string)
    requires GetModel(db, identifier).Some?
    ensures GetModel(PostUpdate(db, path, payload, fallback), identifier).Some?
  {
    UpdateKeepsModel(db, "[POST] " + path, payload, fallback, identifier);
    var first := UpdateModelData(db, "[POST] " + path, payload, fallback);
    if first.Ok? {
      UpdateKeepsModel(first.value, "[GET] " + path, payload, fallback, identifier);
    }
  }

  /** A successful update keeps every identifier's model findable. */
  lemma UpdateKeepsModel(db: Database, target: string, payload: Json, fallback: Fallback, identifier: string)
    requires GetModel(db, identifier).Some?
    ensures UpdateModelData(db, target, payload, fallback).Ok? ==>
              GetModel(UpdateModelData(db, target, payload, fallback).value, identifier).Some?
  {
    var r := UpdateModelData(db, target, payload, fallback);
    if r.Ok? {
      var i := ModelIndex(db.models, target).value;
      UpdateDataShows(db.models[i], payload, fallback);
      ModelIndexSame(db.models, r.value.models, identifier);
    }
  }

  /** `put_handler`: every PUT is answered 404 with the error object, in
      JSON, and the store is not read. */
  function PutHandler(db: Database, req: Request, payload: Option<Json>): (r: Reply)
    ensures r.status == 404 && r.body == JsonBody(ErrorObject("Model not found"))
    ensures r.headers == map[]
  {
    Respond(map[], 404, ModelNotFound)
  }
}
