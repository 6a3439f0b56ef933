/** The update layer of the store and the two-argument route lookup. The
    handlers call `Model::update_data`, `Database::update_model_data` and
    `Database::get_route(path, method)`; `database.rs` as given has neither
    the first two nor the second form of the third, so this module defines
    them from what the store's tests assert and leaves every combination
    those tests do not fix to a `Fallback` supplied by the caller. */
module Updates {
  import opened Results
  import opened Strings
  import opened JsonValues
  import opened Config
  import opened Store

  /** The error of an update aimed at a text body. */
  const StringBodyMessage: string := "Cannot merge data with string-based responses"

  /** The error of an update aimed at an identifier no model has; the tests
      fix only that it mentions "not found". */
  function NotFoundMessage(identifier: string): string
  {
    "Model " + identifier + " not found"
  }

  /** How the current data and the incoming data combine where the tests say
      nothing: an object into a number, an array into an object, and so on. */
  type Fallback = (Json, Json) -> Result<Json, string>

  /** Same id: both are objects holding `idField`, with equal values. */
  predicate SameId(item: Json, incoming: map<string, Json>, idField: string)
  {
    item.JObject? && idField in item.fields && idField in incoming && item.fields[idField] == incoming[idField]
  }

  /** The position of the first element with the same id as `incoming`. */
  function UpsertIndex(items: seq<Json>, incoming: map<string, Json>, idField: string): (r: Option<nat>)
    ensures r.Some? ==> r.value < |items| && SameId(items[r.value], incoming, idField)
    ensures r.Some? ==> forall j | 0 <= j < r.value :: !SameId(items[j], incoming, idField)
    ensures r.None? ==> forall j | 0 <= j < |items| :: !SameId(items[j], incoming, idField)
  {
    if |items| == 0 then None
    else if SameId(items[0], incoming, idField) then Some(0)
    else
      match UpsertIndex(items[1..], incoming, idField)
      case None => None
      case Some(i) => Some(i + 1)
  }

  /** An object into an array: merged into the first element with the same
      id, or appended when there is none. */
  function Upsert(items: seq<Json>, incoming: map<string, Json>, idField: string): seq<Json>
  {
    match UpsertIndex(items, incoming, idField)
    case Some(i) => items[i := JObject(items[i].fields + incoming)]
    case None => items + [JObject(incoming)]
  }

  /** Merging `incoming` into `current`: objects merge member by member with
      the incoming members winning, arrays concatenate, and an object goes
      into an array by `Upsert`. */
  function MergeJson(current: Json, incoming: Json, idField: string, fallback: Fallback): (r: Result<Json, string>)
    ensures current.JObject? && incoming.JObject? ==> r.Ok? && r.value.JObject?
    ensures current.JArray? && (incoming.JArray? || incoming.JObject?) ==> r.Ok? && r.value.JArray?
    ensures current.JArray? && incoming.JArray? ==> |r.value.items| == |current.items| + |incoming.items|
    ensures !(current.JObject? && incoming.JObject?) && !(current.JArray? && (incoming.JArray? || incoming.JObject?)) ==>
              r == fallback(current, incoming)
  {
    match (current, incoming)
    case (JObject(a), JObject(b)) => Ok(JObject(a + b))
    case (JArray(a), JArray(b)) => Ok(JArray(a + b))
    case (JArray(a), JObject(b)) => Ok(JArray(Upsert(a, b, idField)))
    case _ => fallback(current, incoming)
  }

  /** Object into object: every incoming member is present with its incoming
      value and every other member keeps its value. */
  lemma MergeObjects(a: map<string, Json>, b: map<string, Json>, idField: string, fallback: Fallback)
    ensures MergeJson(JObject(a), JObject(b), idField, fallback).Ok?
    ensures var r := MergeJson(JObject(a), JObject(b), idField, fallback).value;
            && r.JObject?
            && (forall k :: k in r.fields <==> k in a || k in b)
            && (forall k | k in b :: r.fields[k] == b[k])
            && (forall k | k in a && k !in b :: r.fields[k] == a[k])
  {
  }

  /** Array into array: the current elements in order, then the incoming
      ones in order. */
  lemma MergeArrays(a: seq<Json>, b: seq<Json>, idField: string, fallback: Fallback)
    ensures MergeJson(JArray(a), JArray(b), idField, fallback).Ok?
    ensures var r := MergeJson(JArray(a), JArray(b), idField, fallback).value;
            && r.JArray? && |r.items| == |a| + |b|
            && (forall i | 0 <= i < |a| :: r.items[i] == a[i])
            && (forall i | 0 <= i < |b| :: r.items[|a| + i] == b[i])
  {
  }

  /** Object into array: with an element of the same id the length stays and
      only the first such element changes, now holding the merged members;
      without one the object is appended. */
  lemma MergeObjectIntoArray(a: seq<Json>, b: map<string, Json>, idField: string, fallback: Fallback)
    ensures MergeJson(JArray(a), JObject(b), idField, fallback).Ok?
    ensures var r := MergeJson(JArray(a), JObject(b), idField, fallback).value;
            r.JArray? &&
            if exists i | 0 <= i < |a| :: SameId(a[i], b, idField) then
              && |r.items| == |a|
              && exists i | 0 <= i < |a| ::
                   && SameId(a[i], b, idField)
                   && (forall j | 0 <= j < i :: !SameId(a[j], b, idField))
                   && r.items[i] == JObject(a[i].fields + b)
                   && forall j | 0 <= j < |a| && j != i :: r.items[j] == a[j]
            else
              r.items == a + [JObject(b)]
  {
    match UpsertIndex(a, b, idField)
    case None =>
    case Some(i) =>
      var r := MergeJson(JArray(a), JObject(b), idField, fallback).value;
      assert r.items[i] == JObject(a[i].fields + b);
  }

  // ---------------------------------------------------------------------
  // Updating a model

  /** `Model::update_data`: text bodies refuse; with a results field over an
      object body the member it names is the target, created from the
      incoming data when absent; without a results field the whole body is.
      A results field over a body that is not an object is a case the tests
      leave open, so the fallback decides the new body. */
  function UpdateData(m: Model, incoming: Json, fallback: Fallback): (r: Result<Model, string>)
    ensures !m.data.body.Value? ==> r == Err(StringBodyMessage)
    ensures r.Ok? ==> r.value.identifier == m.identifier && r.value.idField == m.idField
                      && r.value.resultsField == m.resultsField && r.value.data.status == m.data.status
                      && r.value.data.body.Value?
  {
    match m.data.body
    case Value(body) =>
      if m.resultsField.Some? && body.JObject? then
        var field := m.resultsField.value;
        var slice :-
          if field in body.fields then MergeJson(body.fields[field], incoming, m.idField, fallback)
          else Ok(incoming);
        Ok(m.(data := m.data.(body := Value(JObject(body.fields[field := slice])))))
      else
        var merged :-
          if m.resultsField.Some? then fallback(body, incoming)
          else MergeJson(body, incoming, m.idField, fallback);
        Ok(m.(data := m.data.(body := Value(merged))))
    case _ => Err(StringBodyMessage)
  }

  /** A text body cannot be updated, whatever arrives. */
  lemma UpdateDataRefusesText(m: Model, incoming: Json, fallback: Fallback)
    ensures UpdateData(m, incoming, fallback).Err? <==>
              !m.data.body.Value? || MergeTarget(m, incoming, fallback).Err?
    ensures !m.data.body.Value? ==> UpdateData(m, incoming, fallback) == Err(StringBodyMessage)
  {
  }

  /** What the merge of an update produces, before it is put back. */
  function MergeTarget(m: Model, incoming: Json, fallback: Fallback): Result<Json, string>
    requires m.data.body.Value?
  {
    var body := m.data.body.value;
    if m.resultsField.Some? && body.JObject? then
      if m.resultsField.value in body.fields
      then MergeJson(body.fields[m.resultsField.value], incoming, m.idField, fallback)
      else Ok(incoming)
    else if m.resultsField.Some? then fallback(body, incoming)
    else MergeJson(body, incoming, m.idField, fallback)
  }

  /** A successful update changes nothing but the body. Without a results
      field, or with one over an object body, the data the model then shows
      is the merged target, and the other members of the body stay as they
      were. */
  lemma UpdateDataShows(m: Model, incoming: Json, fallback: Fallback)
    requires UpdateData(m, incoming, fallback).Ok?
    ensures m.data.body.Value? && MergeTarget(m, incoming, fallback).Ok?
    ensures var u := UpdateData(m, incoming, fallback).value;
            && u == m.(data := m.data.(body := u.data.body))
            && GetStatus(u) == GetStatus(m)
            && (m.resultsField.None? || m.data.body.value.JObject? ==>
                  GetData(u) == Value(MergeTarget(m, incoming, fallback).value))
            && (m.resultsField.None? || !m.data.body.value.JObject? ==>
                  u.data.body == Value(MergeTarget(m, incoming, fallback).value))
    ensures var u := UpdateData(m, incoming, fallback).value;
            m.resultsField.Some? && m.data.body.value.JObject? ==>
              && u.data.body.value.JObject?
              && u.data.body.value.fields.Keys == m.data.body.value.fields.Keys + {m.resultsField.value}
              && forall k | k in m.data.body.value.fields && k != m.resultsField.value ::
                   u.data.body.value.fields[k] == m.data.body.value.fields[k]
  {
  }

  /** With a results field naming no member of an object body, the update
      creates that member holding exactly the incoming data. */
  lemma UpdateDataCreatesField(m: Model, incoming: Json, fallback: Fallback)
    requires m.resultsField.Some? && m.data.body.Value? && m.data.body.value.JObject?
    requires m.resultsField.value !in m.data.body.value.fields
    ensures UpdateData(m, incoming, fallback).Ok?
    ensures GetData(UpdateData(m, incoming, fallback).value) == Value(incoming)
  {
  }

  // ---------------------------------------------------------------------
  // Updating the store

  /** `Database::update_model_data`: the update applied to the model
      `GetModel` finds. */
  function UpdateModelData(db: Database, identifier: string, incoming: Json, fallback: Fallback): (r: Result<Database, string>)
    ensures GetModel(db, identifier).None? ==> r.Err?
    ensures r.Ok? ==> r.value.routes == db.routes && |r.value.models| == |db.models|
  {
    match ModelIndex(db.models, identifier)
    case None => Err(NotFoundMessage(identifier))
    case Some(i) =>
      var updated :- UpdateData(db.models[i], incoming, fallback);
      Ok(db.(models := db.models[i := updated]))
  }

  /** An unknown identifier is reported as not found. */
  lemma UpdateModelDataNotFound(db: Database, identifier: string, incoming: Json, fallback: Fallback)
    requires GetModel(db, identifier).None?
    ensures UpdateModelData(db, identifier, incoming, fallback).Err?
    ensures Contains(UpdateModelData(db, identifier, incoming, fallback).error, "not found")
  {
    var message := NotFoundMessage(identifier);
    assert OccursAt(message, "not found", |identifier| + 7);
  }

  /** A known identifier's update fails exactly when the update of its model
      does; on success only that model changes, the routes and the other
      models stay, and lookups then see the updated model. */
  lemma UpdateModelDataTargets(db: Database, identifier: string, incoming: Json, fallback: Fallback)
    requires GetModel(db, identifier).Some?
    ensures UpdateModelData(db, identifier, incoming, fallback).Ok? <==>
              UpdateData(GetModel(db, identifier).value, incoming, fallback).Ok?
    ensures UpdateModelData(db, identifier, incoming, fallback).Ok? ==>
              var r := UpdateModelData(db, identifier, incoming, fallback).value;
              && r.routes == db.routes
              && |r.models| == |db.models|
              && GetModel(r, identifier) == Some(UpdateData(GetModel(db, identifier).value, incoming, fallback).value)
              && forall j | 0 <= j < |db.models| && r.models[j] != db.models[j] ::
                   db.models[j] == GetModel(db, identifier).value
  {
    var i := ModelIndex(db.models, identifier).value;
    var result := UpdateData(db.models[i], incoming, fallback);
    if result.Ok? {
      var r := UpdateModelData(db, identifier, incoming, fallback).value;
      assert r.models == db.models[i := result.value];
      assert ModelIndex(r.models, identifier) == Some(i) by {
        UpdateDataShows(db.models[i], incoming, fallback);
        ModelIndexSame(db.models, r.models, identifier);
      }
    }
  }

  /** Updating one identifier leaves the model every other identifier
      finds as it was. */
  lemma UpdateLeavesOthers(db: Database, target: string, incoming: Json, fallback: Fallback, other: string)
    requires other != target
    ensures UpdateModelData(db, target, incoming, fallback).Ok? ==>
              GetModel(UpdateModelData(db, target, incoming, fallback).value, other) == GetModel(db, other)
  {
    var r := UpdateModelData(db, target, incoming, fallback);
    if r.Ok? {
      var i := ModelIndex(db.models, target).value;
      UpdateDataShows(db.models[i], incoming, fallback);
      assert r.value.models == db.models[i := UpdateData(db.models[i], incoming, fallback).value];
      ModelIndexSame(db.models, r.value.models, other);
    }
  }

  /** The first-match search only reads identifiers. */
  lemma {:induction false} ModelIndexSame(a: seq<Model>, b: seq<Model>, identifier: string)
    requires |a| == |b|
    requires forall j | 0 <= j < |a| :: a[j].identifier == b[j].identifier
    ensures ModelIndex(a, identifier) == ModelIndex(b, identifier)
    decreases |a|
  {
    if |a| > 0 {
      ModelIndexSame(a[1..], b[1..], identifier);
    }
  }

  // ---------------------------------------------------------------------
  // Two-argument route lookup

  /** The key `get_route(identifier, method)` looks up: an identifier that
      already starts with a bracket is used as it is, any other becomes
      `[M] identifier` with `M` the method or `GET`. */
  function LookupKey(identifier: string, verb: Option<string>): string
  {
    if |identifier| > 0 && identifier[0] == '[' then identifier
    else "[" + verb.GetOr(DefaultMethod) + "] " + identifier
  }

  /** `Database::get_route(identifier, method)`. */
  function GetRouteFor(db: Database, identifier: string, verb: Option<string>): (r: Option<ConfigRoute>)
    ensures r.Some? ==> r.value in db.routes.Values
    ensures |identifier| > 0 && identifier[0] == '[' ==> r == GetRoute(db, identifier)
  {
    GetRoute(db, LookupKey(identifier, verb))
  }

  /** The lookup finds a route exactly under its canonical key: a plain path
      with a method finds the route under `[M] path`, no method means `GET`,
      and a bracketed identifier finds the route stored under it. */
  lemma GetRouteForKeys(db: Database, identifier: string, verb: Option<string>)
    ensures |identifier| > 0 && identifier[0] == '[' ==> GetRouteFor(db, identifier, verb) == GetRoute(db, identifier)
    ensures (|identifier| == 0 || identifier[0] != '[') ==>
              GetRouteFor(db, identifier, verb) == GetRoute(db, "[" + verb.GetOr("GET") + "] " + identifier)
    ensures GetRouteFor(db, identifier, None) == GetRouteFor(db, identifier, Some("GET"))
  {
  }

  /** Routes of different methods on the same path are told apart: a route
      found for one method is the one stored under that method's key. */
  lemma GetRouteForMethod(db: Database, path: string, verb: string)
    requires |path| == 0 || path[0] != '['
    requires GetRouteFor(db, path, Some(verb)).Some?
    ensures "[" + verb + "] " + path in db.routes
    ensures GetRouteFor(db, path, Some(verb)).value == db.routes["[" + verb + "] " + path]
  {
  }
}
