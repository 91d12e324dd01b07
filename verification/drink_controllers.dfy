/**
 * The drinks blueprint of `backend/app/drink/controllers.py`: the five
 * routes as transitions of the table, the per-route permissions, the
 * blueprint's `AuthError` handler, and the composition of the main request
 * gate with each view.
 */
module DrinkControllers {
  import opened Optional
  import opened Json
  import opened AuthTypes
  import opened DrinkModels
  import Auth
  import BearerHeader
  import KeySet

  /** The JSON bodies the blueprint answers with. */
  datatype Body =
    | Drinks(drinks: seq<DrinkView>)                     // {"success": true, "drinks": [...]}
    | Deleted(id: int)                                   // {"success": true, "delete": id}
    | Message(message: string)                           // {"success": false, "message": ...}
    | Aborted(errorCode: int, message: string)           // `abort(code, description)` through the blueprint handlers
    | AuthFailure(code: int, error: string, message: string)  // `handle_auth_error`
    | ServerError                                        // the framework's own 500 page

  datatype Response = Response(status: int, body: Body)

  /** A response and the table after the request. */
  datatype Step = Step(response: Response, store: Store)

  const TitleAndRecipeRequired := Response(400, Message("title and recipe required"))
  const DrinkNotFound := Response(404, Message("drink not found"))
  const TitleNotUnique := Response(422, Aborted(422, "Title is not unique"))
  const TitleExists := Response(422, Aborted(422, "Recipe with that title already exists"))
  const InternalError := Response(500, ServerError)

  /** `[drink.format() for drink in drinks]` over the rows in `ids` order. */
  function FormatAll(s: Store, ids: seq<int>): (views: seq<DrinkView>)
    requires forall i :: 0 <= i < |ids| ==> ids[i] in s.rows
    ensures |views| == |ids|
    ensures forall i :: 0 <= i < |ids| ==> views[i] == Format(s.rows[ids[i]])
  {
    seq(|ids|, i requires 0 <= i < |ids| => Format(s.rows[ids[i]]))
  }

  /** `[drink.short() for drink in drinks]`; `None` when some row's `short()` raises. */
  function ShortAll(s: Store, ids: seq<int>): (views: Option<seq<DrinkView>>)
    requires forall i :: 0 <= i < |ids| ==> ids[i] in s.rows
    ensures views.Some? <==> forall i :: 0 <= i < |ids| ==> Short(s.rows[ids[i]]).Some?
    ensures views.Some? ==>
      |views.value| == |ids| && forall i :: 0 <= i < |ids| ==> views.value[i] == Short(s.rows[ids[i]]).value
    decreases |ids|
  {
    if |ids| == 0 then Some([])
    else
      assert forall i :: 1 <= i < |ids| ==> ids[1..][i - 1] == ids[i];
      match (Short(s.rows[ids[0]]), ShortAll(s, ids[1..]))
      case (Some(v), Some(rest)) => Some([v] + rest)
      case _ => None
  }

  /**
   * `views` lists every row of the table exactly once, in ascending id
   * order, and nothing else.
   */
  ghost predicate ListsRows(s: Store, views: seq<DrinkView>) {
    && |views| == |s.rows|
    && (forall i, j :: 0 <= i < j < |views| ==> views[i].id < views[j].id)
    && (forall i :: 0 <= i < |views| ==> views[i].id in s.rows)
    && (forall k | k in s.rows :: exists i :: 0 <= i < |views| && views[i].id == k)
  }

  /** Views taken along the rowid index list the table. */
  lemma IndexOrderListsRows(s: Store, views: seq<DrinkView>)
    requires Valid(s)
    requires |views| == |s.ids| && forall i :: 0 <= i < |views| ==> views[i].id == s.ids[i]
    ensures ListsRows(s, views)
  {
    RowsAreIndexed(s);
    forall k | k in s.rows
      ensures exists i :: 0 <= i < |views| && views[i].id == k
    {
      assert k in s.ids;
      var i :| 0 <= i < |s.ids| && s.ids[i] == k;
      assert views[i].id == k;
    }
    assert forall i :: 0 <= i < |s.ids| ==> s.ids[i] in s.ids;
  }

  /** Every id of the index names a row. */
  lemma IndexedRowsExist(s: Store)
    requires Valid(s)
    ensures forall i :: 0 <= i < |s.ids| ==> s.ids[i] in s.rows
  {
    assert forall i :: 0 <= i < |s.ids| ==> s.ids[i] in s.ids;
  }

  /** A property of every row along the index is a property of every row. */
  lemma AllRowsShortable(s: Store)
    requires Valid(s)
    ensures (forall i :: 0 <= i < |s.ids| ==> s.ids[i] in s.rows && Short(s.rows[s.ids[i]]).Some?)
        <==> (forall k | k in s.rows :: Short(s.rows[k]).Some?)
  {
    IndexedRowsExist(s);
    if forall i :: 0 <= i < |s.ids| ==> s.ids[i] in s.rows && Short(s.rows[s.ids[i]]).Some? {
      forall k | k in s.rows
        ensures Short(s.rows[k]).Some?
      {
        assert k in s.ids;
        var i :| 0 <= i < |s.ids| && s.ids[i] == k;
      }
    }
  }

  /**
   * `GET /drinks`, public: every row's `short()`, in id order. A row whose
   * recipe `short()` cannot project makes the whole listing a 500.
   */
  function GetDrinks(s: Store): (step: Step)
    requires Valid(s)
    ensures step.store == s
    ensures step.response.status == 200 <==> forall k | k in s.rows :: Short(s.rows[k]).Some?
    ensures step.response.status != 200 ==> step.response == InternalError
    ensures step.response.status == 200 ==>
      && step.response.body.Drinks?
      && ListsRows(s, step.response.body.drinks)
      && forall v | v in step.response.body.drinks :: v == Short(s.rows[v.id]).value
  {
    IndexedRowsExist(s);
    AllRowsShortable(s);
    match ShortAll(s, s.ids)
    case Some(views) =>
      assert forall i :: 0 <= i < |views| ==> views[i].id == s.ids[i];
      IndexOrderListsRows(s, views);
      Step(Response(200, Drinks(views)), s)
    case None => Step(InternalError, s)
  }

  /** The index lists each row once, so there are as many entries as rows. */
  lemma RowsAreIndexed(s: Store)
    requires Valid(s)
    ensures |s.ids| == |s.rows|
  {
    IndexCardinality(s.ids, s.rows.Keys);
  }

  lemma {:induction false} IndexCardinality(ids: seq<int>, keys: set<int>)
    requires Ascending(ids)
    requires forall k :: k in keys <==> k in ids
    ensures |ids| == |keys|
    decreases |ids|
  {
    if |ids| > 0 {
      var rest := keys - {ids[0]};
      assert forall k :: k in ids[1..] ==> ids[0] < k;
      IndexCardinality(ids[1..], rest);
    } else {
      assert keys == {};
    }
  }

  /** `GET /drinks-detail`, the view behind the gate: every row's `format()`, in id order. */
  function GetDrinksDetail(s: Store): (step: Step)
    requires Valid(s)
    ensures step.store == s
    ensures step.response.status == 200 && step.response.body.Drinks?
    ensures ListsRows(s, step.response.body.drinks)
    ensures forall v | v in step.response.body.drinks :: v == Format(s.rows[v.id])
  {
    IndexedRowsExist(s);
    var views := FormatAll(s, s.ids);
    IndexOrderListsRows(s, views);
    Step(Response(200, Drinks(views)), s)
  }

  /** A dict recipe from the client is stored as a one-element list; anything else as given. */
  function WrapRecipe(recipe: Json): (stored: Json)
    ensures recipe.JObj? ==> stored == JArr([recipe])
    ensures !recipe.JObj? ==> stored == recipe
  {
    if recipe.JObj? then JArr([recipe]) else recipe
  }

  /**
   * `POST /drinks`, the view behind the gate. Both `title` and `recipe` are
   * required keys; a NULL or duplicate title fails the commit's integrity
   * check and is reported as 'Title is not unique'; a title the driver
   * cannot bind is a 500; a NULL recipe gets the column default `[]`.
   */
  function PostDrink(s: Store, data: map<string, Json>): (step: Step)
    requires Valid(s)
    ensures Valid(step.store)
    ensures "title" !in data || "recipe" !in data ==> step == Step(TitleAndRecipeRequired, s)
    ensures step.response.status != 201 ==> step.store == s
    ensures step.response.status in {201, 400, 422, 500}
    ensures step.response.status == 201 <==>
      && "title" in data && "recipe" in data
      && BindTitle(data["title"]).Text?
      && !TitleTaken(s, BindTitle(data["title"]).s, None)
      && FitsInt64(NewRowId(s))
    ensures ("title" in data && "recipe" in data && BindTitle(data["title"]).Text?
             && TitleTaken(s, BindTitle(data["title"]).s, None)) ==> step == Step(TitleNotUnique, s)
    ensures ("title" in data && "recipe" in data && BindTitle(data["title"]).Null?) ==>
      step == Step(TitleNotUnique, s)
    ensures ("title" in data && "recipe" in data && BindTitle(data["title"]).Unbindable?) ==>
      step == Step(InternalError, s)
    ensures step.response.status == 201 ==>
      && step.response.body.Drinks? && |step.response.body.drinks| == 1
      && var id := step.response.body.drinks[0].id;
      && var recipe := if data["recipe"] == JNull then DefaultRecipe else WrapRecipe(data["recipe"]);
      && var d := Drink(id, BindTitle(data["title"]).s, recipe);
      && id == NewRowId(s)
      && id !in s.rows
      && step.store.rows == s.rows[id := d]
      && step.response.body.drinks[0] == Format(d)
  {
    if "title" !in data || "recipe" !in data then Step(TitleAndRecipeRequired, s)
    else
      match Insert(s, data["title"], WrapRecipe(data["recipe"]))
      case Committed(s', d) => Step(Response(201, Drinks([Format(d)])), s')
      case IntegrityError => Step(TitleNotUnique, s)
      case OtherDbError => Step(InternalError, s)
  }

  /**
   * `PATCH /drinks/<id>`, the view behind the gate. At least one of `title`
   * and `recipe` is required (checked before the lookup). The lookup binds
   * the id outside every `try`, so an id beyond 64 bits raises
   * `OverflowError` (a 500). The supplied fields overwrite the row's, the
   * others are kept; a recipe is stored as given.
   */
  function PatchDrink(s: Store, id: int, data: map<string, Json>): (step: Step)
    requires Valid(s)
    ensures Valid(step.store)
    ensures "title" !in data && "recipe" !in data ==> step == Step(TitleAndRecipeRequired, s)
    ensures ("title" in data || "recipe" in data) && !FitsInt64(id) ==> step == Step(InternalError, s)
    ensures ("title" in data || "recipe" in data) && FitsInt64(id) && id !in s.rows ==> step == Step(DrinkNotFound, s)
    ensures step.response.status != 200 ==> step.store == s
    ensures step.response.status in {200, 400, 404, 422, 500}
    ensures step.response.status == 200 ==>
      && id in s.rows
      && ("title" in data ==> BindTitle(data["title"]).Text?)
      && var title := if "title" in data then BindTitle(data["title"]).s else s.rows[id].title;
      && var recipe := if "recipe" in data then data["recipe"] else s.rows[id].recipe;
      && step.store.rows == s.rows[id := Drink(id, title, recipe)]
      && step.response.body == Drinks([Format(Drink(id, title, recipe))])
    ensures ("title" in data && id in s.rows && BindTitle(data["title"]).Text?
             && TitleTaken(s, BindTitle(data["title"]).s, Some(id))) ==> step == Step(TitleExists, s)
    ensures step.response.status == 200 <==>
      && ("title" in data || "recipe" in data) && id in s.rows
      && ("title" in data ==> BindTitle(data["title"]).Text? && !TitleTaken(s, BindTitle(data["title"]).s, Some(id)))
      && ("recipe" in data ==> data["recipe"] != JNull)
    ensures ("title" in data && id in s.rows && BindTitle(data["title"]).Unbindable?) ==>
      step == Step(InternalError, s)
    ensures (id in s.rows && !("title" in data && BindTitle(data["title"]).Unbindable?)
             && (("title" in data && BindTitle(data["title"]).Null?) || ("recipe" in data && data["recipe"] == JNull))) ==>
      step == Step(TitleExists, s)
  {
    if "title" !in data && "recipe" !in data then Step(TitleAndRecipeRequired, s)
    else if !FitsInt64(id) then Step(InternalError, s)
    else if id !in s.rows then Step(DrinkNotFound, s)
    else
      var drink := s.rows[id];
      var title := if "title" in data then data["title"] else JStr(drink.title);
      var recipe := if "recipe" in data then data["recipe"] else drink.recipe;
      match Update(s, id, title, recipe)
      case Committed(s', d) => Step(Response(200, Drinks([Format(d)])), s')
      case IntegrityError => Step(TitleExists, s)
      case OtherDbError => Step(InternalError, s)
  }

  /**
   * `DELETE /drinks/<id>`, the view behind the gate; as for PATCH, an id
   * beyond 64 bits cannot be bound by the lookup and is a 500.
   */
  function DeleteDrink(s: Store, id: int): (step: Step)
    requires Valid(s)
    ensures Valid(step.store)
    ensures !FitsInt64(id) ==> step == Step(InternalError, s)
    ensures FitsInt64(id) && id !in s.rows ==> step == Step(DrinkNotFound, s)
    ensures id in s.rows ==>
      && step.response == Response(200, Deleted(id))
      && step.store.rows == s.rows - {id}
  {
    if !FitsInt64(id) then Step(InternalError, s)
    else if id !in s.rows then Step(DrinkNotFound, s)
    else Step(Response(200, Deleted(id)), Delete(s, id))
  }

  /**
   * `handle_auth_error`: the HTTP status and the body's `code` are both the
   * error's code, with its `error` and its description as `message`.
   */
  function HandleAuthError(e: AuthError): (r: Response)
    ensures r.status == e.code && r.body.AuthFailure? && r.body.code == e.code
    ensures r.body.error == e.error && r.body.message == e.description
  {
    Response(e.code, AuthFailure(e.code, e.error, e.description))
  }

  datatype Route =
    | ListDrinks            // GET /drinks
    | ListDrinksDetail      // GET /drinks-detail
    | CreateDrink           // POST /drinks
    | UpdateDrink(id: nat)  // PATCH /drinks/<int:id>: the converter matches digits only
    | RemoveDrink(id: nat)  // DELETE /drinks/<int:id>

  /** The permission each route's `requires_authorization` declares; the public listing has none. */
  function RoutePermission(route: Route): Option<string> {
    match route
    case ListDrinks => None
    case ListDrinksDetail => Some("get:drinks-detail")
    case CreateDrink => Some("post:drinks")
    case UpdateDrink(_) => Some("patch:drinks")
    case RemoveDrink(_) => Some("delete:drinks")
  }

  /** The part of a request the blueprint reads. */
  datatype Request = Request(authorization: Option<string>, body: map<string, Json>)

  /** The view a route runs once admitted. */
  function View(route: Route, body: map<string, Json>, s: Store): (step: Step)
    requires Valid(s)
    ensures Valid(step.store)
  {
    match route
    case ListDrinks => GetDrinks(s)
    case ListDrinksDetail => GetDrinksDetail(s)
    case CreateDrink => PostDrink(s, body)
    case UpdateDrink(id) => PatchDrink(s, id, body)
    case RemoveDrink(id) => DeleteDrink(s, id)
  }

  /**
   * A request end to end: the route's gate (if any), then its view; a gate
   * refusal goes through `handle_auth_error`, any other exception is a 500.
   */
  function Serve(p: Provider, route: Route, request: Request, s: Store): (step: Step)
    requires Valid(s)
    ensures Valid(step.store)
    ensures RoutePermission(route).None? ==> step == View(route, request.body, s)
    ensures RoutePermission(route).Some? ==>
      var req := Single(RoutePermission(route).value);
      && (Auth.Authorized(p, req, request.authorization) ==> step == View(route, request.body, s))
      && (!Auth.Authorized(p, req, request.authorization) ==>
            step.store == s && step.response.status in {401, 403, 500})
    ensures RoutePermission(route).Some? ==>
      var gate := Auth.RequiresAuthorization(p, Single(RoutePermission(route).value), request.authorization, route);
      && (gate.Err? ==> step == Step(HandleAuthError(gate.error), s))
      && (gate.Unhandled? ==> step == Step(InternalError, s))
  {
    match RoutePermission(route)
    case None => View(route, request.body, s)
    case Some(permission) =>
      match Auth.RequiresAuthorization(p, Single(permission), request.authorization, route)
      case Ok((_, r)) => View(r, request.body, s)
      case Err(e) =>
        assert e.code == 401 || e.code == 403 by {
          AuthErrorCodes(p, Single(permission), request.authorization, route);
        }
        Step(HandleAuthError(e), s)
      case Unhandled(_) => Step(InternalError, s)
  }

  /** Every refusal of the main gate is a 401 or, for an unknown key, a 403. */
  lemma AuthErrorCodes<A>(p: Provider, req: Requirement, authorization: Option<string>, args: A)
    ensures var r := Auth.RequiresAuthorization(p, req, authorization, args);
      r.Err? ==> r.error.code == 401 || r.error.code == 403
  {
  }

  /** Only a request the gate admits can change the table. */
  lemma StoreChangesOnlyWhenAuthorized(p: Provider, route: Route, request: Request, s: Store)
    requires Valid(s)
    ensures Serve(p, route, request, s).store != s ==>
      && RoutePermission(route).Some?
      && Auth.Authorized(p, Single(RoutePermission(route).value), request.authorization)
  {
  }

  /** `GET /drinks` is ungated: credentials and the provider make no difference. */
  lemma PublicListingIgnoresCredentials(p: Provider, q: Provider, r1: Request, r2: Request, s: Store)
    requires Valid(s)
    ensures Serve(p, ListDrinks, r1, s) == Serve(q, ListDrinks, r2, s) == GetDrinks(s)
  {
  }

  /**
   * Every other route without an `Authorization` header is a 401 carrying the
   * missing-header error, whatever the provider, and the table is unchanged.
   */
  lemma GatedRouteWithoutHeader(p: Provider, route: Route, body: map<string, Json>, s: Store)
    requires Valid(s) && route != ListDrinks
    ensures Serve(p, route, Request(None, body), s)
         == Step(Response(401, AuthFailure(401, "Unauthorized", "Authorization header is expected.")), s)
  {
  }

  /**
   * A correctly signed token that lacks 'post:drinks' gets a 401 (the
   * default code of the permission errors), and nothing is created.
   */
  lemma PostWithoutPermissionIs401(p: Provider, request: Request, s: Store)
    requires Valid(s)
    requires Auth.Authenticated(p, request.authorization)
    requires !Auth.Authorized(p, Single("post:drinks"), request.authorization)
    ensures Serve(p, CreateDrink, request, s).store == s
    ensures Serve(p, CreateDrink, request, s).response.status == 401
  {
    Auth.MissingPermissionIs401(p, Single("post:drinks"), request.authorization, CreateDrink);
  }

  /**
   * A token the last matching key finds expired is answered, on every gated
   * route, with 401 'token_expired' through `handle_auth_error`, and the
   * table is unchanged.
   */
  lemma ExpiredTokenIs401(p: Provider, route: Route, t: string, body: map<string, Json>, s: Store, j: int)
    requires Valid(s) && route != ListDrinks && ' ' !in t
    requires p.jwks.Some? && HeaderKid(p, t).Some?
    requires 0 <= j < |p.jwks.value| && p.jwks.value[j].kid == HeaderKid(p, t).value
    requires forall i | KeySet.IsLastMatch(p.jwks.value, HeaderKid(p, t).value, i) ::
      p.decode(t, p.jwks.value[i]).Expired?
    ensures Serve(p, route, Request(Some(BearerHeader.Scheme + t), body), s)
         == Step(Response(401, AuthFailure(401, "token_expired", "Expired Token")), s)
  {
    BearerHeader.TokenRoundTrip(t);
    KeySet.LastMatchExists(p.jwks.value, HeaderKid(p, t).value, j);
  }

  /** The first drink stored in an empty table gets id 1. */
  lemma FirstDrinkGetsIdOne(data: map<string, Json>)
    requires PostDrink(Empty(), data).response.status == 201
    ensures PostDrink(Empty(), data).response.body.drinks[0].id == 1
    ensures PostDrink(Empty(), data).store.ids == [1]
  {
  }

  /** A POST whose recipe is `null` stores the column default `[]`. */
  lemma PostedNullRecipeGetsDefault(s: Store, title: string)
    requires Valid(s) && !TitleTaken(s, title, None) && FitsInt64(NewRowId(s))
    ensures var posted := PostDrink(s, map["title" := JStr(title), "recipe" := JNull]);
      && posted.response.status == 201
      && posted.store.rows[posted.response.body.drinks[0].id].recipe == JArr([])
  {
  }

  /** A PATCH whose recipe is `null` violates NOT NULL and is refused with 422. */
  lemma PatchedNullRecipeIs422(s: Store, id: int)
    requires Valid(s) && id in s.rows
    ensures PatchDrink(s, id, map["recipe" := JNull]) == Step(TitleExists, s)
  {
  }

  /** An integer title beyond 64 bits cannot be bound: POST answers 500 and stores nothing. */
  lemma OversizedIntegerTitleIs500(s: Store, n: int, recipe: Json)
    requires Valid(s) && !DrinkModels.FitsInt64(n)
    ensures PostDrink(s, map["title" := JNum(n), "recipe" := recipe]) == Step(InternalError, s)
  {
  }

  /**
   * A row id beyond 64 bits passes the route's digit converter but not the
   * lookup's parameter binding: PATCH (with a field to set) and DELETE
   * answer 500 and change nothing.
   */
  lemma OversizedIdIs500(s: Store, id: nat, data: map<string, Json>)
    requires Valid(s) && !DrinkModels.FitsInt64(id) && ("title" in data || "recipe" in data)
    ensures PatchDrink(s, id, data) == Step(InternalError, s)
    ensures DeleteDrink(s, id) == Step(InternalError, s)
  {
  }

  /** Deleting the drink just created gives back the table as it was. */
  lemma PostThenDeleteRestores(s: Store, data: map<string, Json>)
    requires Valid(s)
    requires PostDrink(s, data).response.status == 201
    ensures var created := PostDrink(s, data);
      DeleteDrink(created.store, created.response.body.drinks[0].id) ==
        Step(Response(200, Deleted(created.response.body.drinks[0].id)), s)
  {
    var created := PostDrink(s, data);
    var id := created.response.body.drinks[0].id;
    assert created.store.ids == s.ids + [id];
    assert id !in s.ids;
    WithoutAppended(s.ids, id);
    assert created.store.rows - {id} == s.rows;
  }

  /** Repeating a successful PATCH changes nothing further and answers the same. */
  lemma PatchIsIdempotent(s: Store, id: int, data: map<string, Json>)
    requires Valid(s)
    requires PatchDrink(s, id, data).response.status == 200
    ensures var once := PatchDrink(s, id, data);
      PatchDrink(once.store, id, data) == once
  {
    var once := PatchDrink(s, id, data);
    var s' := once.store;
    if "title" in data {
      var t := BindTitle(data["title"]).s;
      assert !TitleTaken(s, t, Some(id));
      assert !TitleTaken(s', t, Some(id));
    }
  }

  /** A second DELETE of the same id is a 404 and leaves the table alone. */
  lemma DeleteTwiceIs404(s: Store, id: int)
    requires Valid(s) && id in s.rows
    ensures var once := DeleteDrink(s, id);
      DeleteDrink(once.store, id) == Step(DrinkNotFound, once.store)
  {
  }

  /**
   * PATCH stores a dict recipe as given, where POST wraps it into a list;
   * iterating a non-empty dict yields its keys, and `rec['color']` on a key
   * string raises `TypeError`, so afterwards the public listing fails with a 500.
   */
  lemma PatchedDictRecipeBreaksListing(s: Store, id: int, fields: map<string, Json>)
    requires Valid(s) && id in s.rows && |fields| > 0
    ensures var patched := PatchDrink(s, id, map["recipe" := JObj(fields)]);
      && patched.response.status == 200
      && patched.store.rows[id].recipe == JObj(fields)
      && GetDrinks(patched.store).response == InternalError
  {
    var patched := PatchDrink(s, id, map["recipe" := JObj(fields)]);
    assert !TitleTaken(s, s.rows[id].title, Some(id));
    assert Short(patched.store.rows[id]).None?;
  }

  /** POST stores the same dict recipe as a one-entry list. */
  lemma PostedDictRecipeIsWrapped(s: Store, title: string, fields: map<string, Json>)
    requires Valid(s) && !TitleTaken(s, title, None) && FitsInt64(NewRowId(s))
    ensures var posted := PostDrink(s, map["title" := JStr(title), "recipe" := JObj(fields)]);
      && posted.response.status == 201
      && posted.store.rows[posted.response.body.drinks[0].id].recipe == JArr([JObj(fields)])
  {
  }
}
