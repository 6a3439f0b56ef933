/** The in-memory store of `database.rs`: the route table and the models
    built from it, with the queries the handlers run against a model's
    data. */
module Store {
  import opened Results
  import opened Strings
  import opened KeyOrder
  import opened JsonValues
  import opened Config

  /** A route's data as the handlers see it. */
  datatype Model = Model(
    identifier: string,
    idField: string,
    resultsField: Option<string>,
    description: Option<string>,
    data: ConfigRouteResponse)

  /** The route table and the models, in the order they were added. */
  datatype Database = Database(routes: map<string, ConfigRoute>, models: seq<Model>)

  /** `Database::new`. */
  function NewDatabase(): Database
  {
    Database(map[], [])
  }

  /** The data a route without a structured response starts with:
      status 200 and an empty object. */
  const PlaceholderData: ConfigRouteResponse := ConfigRouteResponse(Some(200), Value(EmptyObject))

  /** The model `Database::populate` builds for one route. */
  function ModelOf(key: string, route: ConfigRoute): Model
  {
    Model(
      key,
      route.idField.GetOr(DefaultIdField),
      route.resultsField,
      route.description,
      match route.response
      case Structured(response) => response
      case _ => PlaceholderData)
  }

  /** The models built for `keys`, in that order. */
  function ModelsOf(routes: map<string, ConfigRoute>, keys: seq<string>): (r: seq<Model>)
    requires forall i | 0 <= i < |keys| :: keys[i] in routes
    ensures |r| == |keys|
    ensures forall i | 0 <= i < |keys| :: r[i] == ModelOf(keys[i], routes[keys[i]])
  {
    seq(|keys|, i requires 0 <= i < |keys| => ModelOf(keys[i], routes[keys[i]]))
  }

  /** The identifiers of `models`, in order. */
  function Identifiers(models: seq<Model>): (r: seq<string>)
    ensures |r| == |models|
    ensures forall i | 0 <= i < |models| :: r[i] == models[i].identifier
  {
    seq(|models|, i requires 0 <= i < |models| => models[i].identifier)
  }

  /** `Database::populate`, with `hint` fixing the route map's iteration
      order: the route table becomes `routes`, and one model per route is
      appended after the models already there. */
  function Populate(db: Database, routes: map<string, ConfigRoute>, hint: seq<string>): (r: Database)
    ensures r.routes == routes
    ensures |r.models| == |db.models| + |routes|
    ensures r.models[..|db.models|] == db.models
  {
    var keys := Enumerate(routes.Keys, hint);
    assert forall i | 0 <= i < |keys| :: keys[i] in routes;
    Database(routes, db.models + ModelsOf(routes, keys))
  }

  /** The appended models are the models of the routes, one per route: their
      identifiers list the route keys without repetition, and each is built
      from the route under its identifier. */
  lemma PopulateAppendsModels(db: Database, routes: map<string, ConfigRoute>, hint: seq<string>)
    ensures var added := Populate(db, routes, hint).models[|db.models|..];
            && NoDuplicates(Identifiers(added))
            && (forall k :: k in Identifiers(added) <==> k in routes)
            && forall i | 0 <= i < |added| ::
                 added[i].identifier in routes && added[i] == ModelOf(added[i].identifier, routes[added[i].identifier])
  {
    var keys := Enumerate(routes.Keys, hint);
    assert forall i | 0 <= i < |keys| :: keys[i] in routes;
    var added := Populate(db, routes, hint).models[|db.models|..];
    assert added == ModelsOf(routes, keys);
    assert Identifiers(added) == keys;
  }

  /** What the new model of a route holds: its key, its id field or `"id"`,
      its description and results field, and its structured response or, for
      a reference or text response, status 200 with an empty object. */
  lemma ModelOfFields(key: string, route: ConfigRoute)
    ensures ModelOf(key, route).identifier == key
    ensures route.idField.None? ==> ModelOf(key, route).idField == "id"
    ensures route.idField.Some? ==> ModelOf(key, route).idField == route.idField.value
    ensures ModelOf(key, route).description == route.description
    ensures ModelOf(key, route).resultsField == route.resultsField
    ensures route.response.Structured? ==> ModelOf(key, route).data == route.response.response
    ensures !route.response.Structured? ==>
              GetStatus(ModelOf(key, route)) == Some(200) && GetData(ModelOf(key, route)) == Value(EmptyObject)
  {
  }

  // ---------------------------------------------------------------------
  // Queries on the database

  /** `Database::get_route`: the route stored under exactly `identifier`. */
  function GetRoute(db: Database, identifier: string): (r: Option<ConfigRoute>)
    ensures r.Some? <==> identifier in db.routes
    ensures r.Some? ==> r.value == db.routes[identifier]
  {
    if identifier in db.routes then Some(db.routes[identifier]) else None
  }

  /** `Database::get_routes`: the route keys, each once, in the iteration
      order `hint` fixes. */
  function GetRoutes(db: Database, hint: seq<string>): (r: seq<string>)
    ensures forall k :: k in r <==> k in db.routes
    ensures NoDuplicates(r)
  {
    Enumerate(db.routes.Keys, hint)
  }

  /** `Database::get_models`. */
  function GetModels(db: Database): seq<Model>
  {
    db.models
  }

  /** After populating, the route queries answer from the new table only. */
  lemma PopulateReplacesRoutes(db: Database, routes: map<string, ConfigRoute>, hint: seq<string>,
                               identifier: string, listHint: seq<string>)
    ensures GetRoute(Populate(db, routes, hint), identifier)
         == (if identifier in routes then Some(routes[identifier]) else None)
    ensures |GetRoutes(Populate(db, routes, hint), listHint)| == |routes|
  {
    var r := GetRoutes(Populate(db, routes, hint), listHint);
    assert Enumerate(routes.Keys, listHint) == r;
  }

  /** After populating, the models are the earlier ones followed by one per
      route. */
  lemma PopulateKeepsModels(db: Database, routes: map<string, ConfigRoute>, hint: seq<string>)
    ensures |GetModels(Populate(db, routes, hint))| == |GetModels(db)| + |routes|
    ensures GetModels(db) <= GetModels(Populate(db, routes, hint))
  {
  }

  /** The position of the first model with `identifier`. */
  function ModelIndex(models: seq<Model>, identifier: string): (r: Option<nat>)
    ensures r.Some? ==> r.value < |models| && models[r.value].identifier == identifier
    ensures r.Some? ==> forall j | 0 <= j < r.value :: models[j].identifier != identifier
    ensures r.None? ==> forall j | 0 <= j < |models| :: models[j].identifier != identifier
  {
    if |models| == 0 then None
    else if models[0].identifier == identifier then Some(0)
    else
      match ModelIndex(models[1..], identifier)
      case None => None
      case Some(i) => Some(i + 1)
  }

  /** `Database::get_model`: the earliest model with `identifier`. */
  function GetModel(db: Database, identifier: string): (r: Option<Model>)
    ensures r.Some? ==> r.value in db.models && r.value.identifier == identifier
  {
    match ModelIndex(db.models, identifier)
    case None => None
    case Some(i) => Some(db.models[i])
  }

  /** `GetModel` finds a model exactly when one has the identifier, and it
      finds the earliest. */
  lemma GetModelFirst(db: Database, identifier: string)
    ensures GetModel(db, identifier).None? <==> forall j | 0 <= j < |db.models| :: db.models[j].identifier != identifier
    ensures GetModel(db, identifier).Some? ==>
              exists i | 0 <= i < |db.models| ::
                && GetModel(db, identifier).value == db.models[i]
                && db.models[i].identifier == identifier
                && forall j | 0 <= j < i :: db.models[j].identifier != identifier
  {
    match ModelIndex(db.models, identifier)
    case None =>
    case Some(i) =>
      assert GetModel(db, identifier).value == db.models[i];
  }

  /** Searching a concatenation searches the first part, then the second. */
  lemma {:induction false} ModelIndexAppend(a: seq<Model>, b: seq<Model>, identifier: string)
    ensures ModelIndex(a + b, identifier)
         == match ModelIndex(a, identifier)
            case Some(i) => Some(i)
            case None =>
              match ModelIndex(b, identifier)
              case None => None
              case Some(j) => Some(|a| + j)
    decreases |a|
  {
    if |a| == 0 {
      assert a + b == b;
    } else if a[0].identifier != identifier {
      assert (a + b)[1..] == a[1..] + b;
      ModelIndexAppend(a[1..], b, identifier);
    }
  }

  /** A model already present shadows the one a later populate adds for the
      same key: lookups keep answering with the stale model. */
  lemma PopulateShadows(db: Database, routes: map<string, ConfigRoute>, hint: seq<string>, identifier: string)
    requires GetModel(db, identifier).Some?
    ensures GetModel(Populate(db, routes, hint), identifier) == GetModel(db, identifier)
  {
    var keys := Enumerate(routes.Keys, hint);
    assert forall i | 0 <= i < |keys| :: keys[i] in routes;
    ModelIndexAppend(db.models, ModelsOf(routes, keys), identifier);
  }

  /** A key with no model yet gets the model built from its route. */
  lemma PopulateAddsFresh(db: Database, routes: map<string, ConfigRoute>, hint: seq<string>, identifier: string)
    requires GetModel(db, identifier).None?
    ensures GetModel(Populate(db, routes, hint), identifier)
         == if identifier in routes then Some(ModelOf(identifier, routes[identifier])) else None
  {
    var keys := Enumerate(routes.Keys, hint);
    assert forall i | 0 <= i < |keys| :: keys[i] in routes;
    var added := ModelsOf(routes, keys);
    assert Populate(db, routes, hint).models == db.models + added;
    ModelIndexAppend(db.models, added, identifier);
    ModelsOfFind(routes, keys, identifier);
  }

  /** The first model built for `keys` with `identifier` is the one built for
      that key, and there is one exactly when the key is listed. */
  lemma ModelsOfFind(routes: map<string, ConfigRoute>, keys: seq<string>, identifier: string)
    requires forall i | 0 <= i < |keys| :: keys[i] in routes
    ensures ModelIndex(ModelsOf(routes, keys), identifier).None? <==> identifier !in keys
    ensures ModelIndex(ModelsOf(routes, keys), identifier).Some? ==>
              identifier in routes &&
              ModelsOf(routes, keys)[ModelIndex(ModelsOf(routes, keys), identifier).value] == ModelOf(identifier, routes[identifier])
  {
    var added := ModelsOf(routes, keys);
    assert forall i | 0 <= i < |keys| :: added[i].identifier == keys[i];
  }

  /** A new database has no routes and no models, and populating it gives
      exactly one model per route. */
  lemma NewDatabaseEmpty(identifier: string, hint: seq<string>, routes: map<string, ConfigRoute>)
    ensures GetRoute(NewDatabase(), identifier).None?
    ensures GetRoutes(NewDatabase(), hint) == []
    ensures GetModel(NewDatabase(), identifier).None?
    ensures |GetModels(Populate(NewDatabase(), routes, hint))| == |routes|
  {
  }

  // ---------------------------------------------------------------------
  // Queries on a model

  /** `Model::get_status`. */
  function GetStatus(m: Model): Option<u16>
  {
    m.data.status
  }

  /** `Model::get_data`: with a results field naming a member of an object
      body, that member; otherwise the whole body. */
  function GetData(m: Model): (r: BodyResponse)
    ensures r.Value? <==> m.data.body.Value?
    ensures !r.Value? ==> r == m.data.body
  {
    if m.resultsField.Some? && m.data.body.Value? && m.data.body.value.JObject?
       && m.resultsField.value in m.data.body.value.fields
    then Value(m.data.body.value.fields[m.resultsField.value])
    else m.data.body
  }

  /** The projection: the named member of an object body when it exists, and
      otherwise the body itself, text bodies and absent members included. A
      value body stays a value and a text body stays text. */
  lemma GetDataProjects(m: Model)
    ensures GetData(m).Value? <==> m.data.body.Value?
    ensures !m.data.body.Value? ==> GetData(m) == m.data.body
    ensures m.resultsField.None? ==> GetData(m) == m.data.body
    ensures m.data.body.Value? && m.data.body.value.JObject? && m.resultsField.Some? ==>
              if m.resultsField.value in m.data.body.value.fields
              then GetData(m) == Value(m.data.body.value.fields[m.resultsField.value])
              else GetData(m) == m.data.body
    ensures m.data.body.Value? && !m.data.body.value.JObject? ==> GetData(m) == m.data.body
  {
  }

  /** One criterion of `find_entry_by_hashmap` against an object: the
      criterion's key, with every `:` removed, names a member, and either the
      raw key contains the id field and the member's JSON text is the
      criterion's value, or the member is the criterion's value as a JSON
      string. */
  predicate CriterionMatches(idField: string, key: string, value: string, obj: map<string, Json>)
  {
    var field := RemoveAll(key, ':');
    field in obj &&
    ((Contains(key, idField) && Render(obj[field]) == value) || obj[field] == JString(value))
  }

  /** The position in `keys` of the first criterion that matches `obj`. */
  function FirstCriterion(idField: string, criteria: map<string, string>, keys: seq<string>,
                          obj: map<string, Json>): (r: Option<nat>)
    requires forall i | 0 <= i < |keys| :: keys[i] in criteria
    ensures r.Some? ==> r.value < |keys| && CriterionMatches(idField, keys[r.value], criteria[keys[r.value]], obj)
    ensures r.None? ==> forall i | 0 <= i < |keys| :: !CriterionMatches(idField, keys[i], criteria[keys[i]], obj)
  {
    if |keys| == 0 then None
    else if CriterionMatches(idField, keys[0], criteria[keys[0]], obj) then Some(0)
    else
      match FirstCriterion(idField, criteria, keys[1..], obj)
      case None => None
      case Some(i) => Some(i + 1)
  }

  /** Some criterion matches the object. */
  predicate AnyCriterion(idField: string, criteria: map<string, string>, obj: map<string, Json>)
  {
    exists k | k in criteria :: CriterionMatches(idField, k, criteria[k], obj)
  }

  /** The position in `items` of the first object that some criterion
      matches. */
  function FirstItem(idField: string, criteria: map<string, string>, items: seq<Json>): (r: Option<nat>)
    ensures r.Some? ==> r.value < |items| && items[r.value].JObject?
                        && AnyCriterion(idField, criteria, items[r.value].fields)
    ensures r.Some? ==> forall j | 0 <= j < r.value ::
                          !(items[j].JObject? && AnyCriterion(idField, criteria, items[j].fields))
    ensures r.None? ==> forall j | 0 <= j < |items| ::
                          !(items[j].JObject? && AnyCriterion(idField, criteria, items[j].fields))
  {
    if |items| == 0 then None
    else if items[0].JObject? && AnyCriterion(idField, criteria, items[0].fields) then Some(0)
    else
      match FirstItem(idField, criteria, items[1..])
      case None => None
      case Some(i) => Some(i + 1)
  }

  /** `Model::find_entry_by_hashmap`, with `hint` fixing the criteria map's
      iteration order. On object data it answers with the matching member,
      on array data with the whole first matching element; other data and
      text bodies give nothing. */
  function FindEntry(m: Model, criteria: map<string, string>, hint: seq<string>): (r: Option<Json>)
    ensures r.Some? ==> GetData(m).Value? && (GetData(m).value.JObject? || GetData(m).value.JArray?)
    ensures r.Some? && GetData(m).value.JArray? ==> r.value in GetData(m).value.items
    ensures r.Some? && GetData(m).value.JObject? ==> r.value in GetData(m).value.fields.Values
  {
    var keys := Enumerate(criteria.Keys, hint);
    assert forall i | 0 <= i < |keys| :: keys[i] in criteria;
    match GetData(m)
    case Value(JObject(obj)) =>
      (match FirstCriterion(m.idField, criteria, keys, obj)
       case None => None
       case Some(i) => Some(obj[RemoveAll(keys[i], ':')]))
    case Value(JArray(items)) =>
      (match FirstItem(m.idField, criteria, items)
       case None => None
       case Some(i) => Some(items[i]))
    case _ => None
  }

  /** On object data an entry is found exactly when some criterion matches,
      and it is the member a matching criterion names. */
  lemma FindEntryInObject(m: Model, criteria: map<string, string>, hint: seq<string>)
    requires GetData(m).Value? && GetData(m).value.JObject?
    ensures var obj := GetData(m).value.fields;
            FindEntry(m, criteria, hint).Some? <==> AnyCriterion(m.idField, criteria, obj)
    ensures var obj := GetData(m).value.fields;
            FindEntry(m, criteria, hint).Some? ==>
              exists k | k in criteria ::
                CriterionMatches(m.idField, k, criteria[k], obj) && FindEntry(m, criteria, hint).value == obj[RemoveAll(k, ':')]
  {
    var obj := GetData(m).value.fields;
    var keys := Enumerate(criteria.Keys, hint);
    assert forall i | 0 <= i < |keys| :: keys[i] in criteria;
    FirstCriterionAny(m.idField, criteria, keys, obj);
  }

  /** Over a listing of all the criteria, the first matching one exists
      exactly when some criterion matches. */
  lemma FirstCriterionAny(idField: string, criteria: map<string, string>, keys: seq<string>, obj: map<string, Json>)
    requires forall i | 0 <= i < |keys| :: keys[i] in criteria
    requires forall k | k in criteria :: k in keys
    ensures FirstCriterion(idField, criteria, keys, obj).Some? <==> AnyCriterion(idField, criteria, obj)
  {
    var first := FirstCriterion(idField, criteria, keys, obj);
    if first.Some? {
      var k := keys[first.value];
      assert CriterionMatches(idField, k, criteria[k], obj);
    }
  }

  /** On array data the answer is the first element that is an object some
      criterion matches, if there is one. */
  lemma FindEntryInArray(m: Model, criteria: map<string, string>, hint: seq<string>)
    requires GetData(m).Value? && GetData(m).value.JArray?
    ensures var items := GetData(m).value.items;
            FindEntry(m, criteria, hint).Some? <==>
              exists i | 0 <= i < |items| :: items[i].JObject? && AnyCriterion(m.idField, criteria, items[i].fields)
    ensures var items := GetData(m).value.items;
            FindEntry(m, criteria, hint).Some? ==>
              exists i | 0 <= i < |items| ::
                && FindEntry(m, criteria, hint).value == items[i]
                && items[i].JObject? && AnyCriterion(m.idField, criteria, items[i].fields)
                && forall j | 0 <= j < i :: !(items[j].JObject? && AnyCriterion(m.idField, criteria, items[j].fields))
  {
    var items := GetData(m).value.items;
    match FirstItem(m.idField, criteria, items)
    case None =>
    case Some(i) =>
      assert FindEntry(m, criteria, hint).value == items[i];
  }

  /** Text bodies and scalar data never yield an entry. */
  lemma FindEntryNeedsContainer(m: Model, criteria: map<string, string>, hint: seq<string>)
    requires !(GetData(m).Value? && (GetData(m).value.JObject? || GetData(m).value.JArray?))
    ensures FindEntry(m, criteria, hint).None?
  {
  }

  /** The id comparison goes through the JSON text: a criterion whose key
      mentions the id field and whose value is an integer's numeral matches
      exactly the member that is that integer, or the string of that numeral. */
  lemma IdCriterionMatchesNumber(idField: string, key: string, n: int, obj: map<string, Json>)
    requires Contains(key, idField)
    requires RemoveAll(key, ':') in obj
    ensures CriterionMatches(idField, key, NumberText(n), obj) <==>
              obj[RemoveAll(key, ':')] == JNumber(n) || obj[RemoveAll(key, ':')] == JString(NumberText(n))
  {
    RenderNumberExactly(obj[RemoveAll(key, ':')], n);
  }

  /** A criterion whose key does not mention the id field matches only the
      member equal to its value as a JSON string. */
  lemma OtherCriterionMatchesString(idField: string, key: string, value: string, obj: map<string, Json>)
    requires !Contains(key, idField)
    ensures CriterionMatches(idField, key, value, obj) <==>
              RemoveAll(key, ':') in obj && obj[RemoveAll(key, ':')] == JString(value)
  {
  }
}
