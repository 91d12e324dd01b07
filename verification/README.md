# Coffee Shop backend: request gate and drinks table, in Dafny

This project models the two pieces of sequential logic in the Coffee Shop
Flask backend and proves properties of them.

The first piece is the **request gate** of `backend/app/auth`. It does four things:

- It takes the credential from an `Authorization: Bearer <token>` header. This is a
  simplified form of section 2.1 of RFC 6750.
- It picks the verification key from the identity provider's JSON Web Key Set
  (RFC 7517) by the token header's `kid`.
- It turns the decoder's failures (signature; `exp`, `aud`, `iss` of section 4.1
  of RFC 7519) into `AuthError`s.
- It checks the `permissions` claim, and its decorators compose all of this
  around a view.

Both `auth/__init__.py` (the gate the drinks routes use) and the older
`auth/utils.py` are modelled. The parts that are textually identical are
defined once. The four places where the two files differ get their own
members, and lemmas compare the two gates.

The second piece is the **drinks table and its routes** of `backend/app/drink`.
The table is a map from row id to row, plus the ids in rowid order. Every
committed state keeps titles unique and recipes non-NULL. The routes are pure
transitions `Store -> (Response, Store)`. `Serve` composes each route with the
main gate and with the blueprint's `AuthError` handler.

Things the gate only calls are one `Provider` value passed in as a parameter:

- the HTTPS fetch of the key set;
- `jwt.get_unverified_header`;
- `jwt.decode`.

A refusal is either an `AuthError` or an exception of another kind (`Unhandled`).
Flask turns the second kind into its generic 500 response.

Files:

- `optional.dfy`, `json.dfy`: the `Option` and `Json` value types.
- `py_split.dfy`: Python's `str.split(' ')`, with `Join` and the two round trips.
- `auth_types.dfy`: `AuthError` (with the defaults of `AuthError.__init__`), the
  `Result` type, JWKs, payloads, decoder outcomes, the provider and requirements.
- `bearer_header.dfy`, `key_set.dfy`, `token_verify.dfy`: header parsing, key
  selection and the decode mapping, which both auth files share.
- `auth.dfy`, `auth_utils.dfy`: the two gates.
- `drink_models.dfy`, `drink_controllers.dfy`: the table and the blueprint.

Some behaviours of the code are easy to misread:

- A token whose header cannot be read escapes as a 500. This is because
  `get_unverified_header` is called outside every `try`. It is not a 401.
- A token whose non-empty `permissions` claim lacks the required permission
  gets a 401 'invalid_claims', and one without the claim gets a 401
  'Unauthorized'; neither gets a 403, because `AuthError`'s default code is kept.
- A row id in `/drinks/<id>` is any string of digits. The lookup binds it
  outside every `try`, so an id beyond 64 bits is a 500, not a 404.
- An unknown `kid` is a 403 in `__init__.py` and a 401 in `utils.py`.
- A readable token header without `kid` is not refused outright: the `kid`
  is looked up only inside the loop over the key set, so it escapes as a
  `KeyError` (a 500) when the set has entries, and with an empty set the gate
  answers 'Unable to find RSA key'.
- The main gate passes the DECLARED requirement to the view, not the permission
  that matched. The older gate passes no permission at all.

One behaviour of the code stands out and is proved as written
(`PatchedDictRecipeBreaksListing`). POST wraps a dict recipe into a one-element
list, but PATCH stores it as given. Iterating a non-empty dict
yields its keys, and `rec['color']` on a key string raises `TypeError`, so
after such a PATCH the public listing answers 500.

A `null` recipe is treated differently by the two writes. On POST the ORM
leaves a `None` value out of the INSERT because the column has a default, so
the row gets `[]`. On PATCH the UPDATE writes NULL, the NOT NULL constraint
refuses it, and the answer is 422.

## Model

| member | source | states |
|---|---|---|
| PySplit.Split | backend/app/auth/__init__.py:54 | `str.split(' ')` never returns an empty list, and no part contains the separator |
| PySplit.JoinSplit | backend/app/auth/__init__.py:54 | joining the parts of a split with the separator gives back the original header |
| PySplit.SplitCount | backend/app/auth/__init__.py:54-57 | a split has exactly one more part than the string has spaces, so "exactly two parts" means "exactly one space" |
| PySplit.SplitJoin | backend/app/auth/__init__.py:54 | splitting the join of separator-free parts gives back exactly those parts |
| BearerHeader.SplitShape | backend/app/auth/__init__.py:54-60 | the split is exactly `Bearer` plus one part iff the header is `Bearer ` followed by a space-free token, and that part is the token |
| BearerHeader.GetTokenAuthHeader | backend/app/auth/__init__.py:45-60 | no header gives 401 'Authorization header is expected.'; a space count other than one gives 'Invalid authorization header.'; one space with a scheme other than exactly `Bearer` gives 'Invalid bearer header.'; otherwise the result is the space-free text after `Bearer `; it never raises anything else |
| BearerHeader.TokenRoundTrip | backend/app/auth/__init__.py:54-60 | for every token without a space, parsing `Bearer <token>` returns that token, the empty token included |
| BearerHeader.ExtraPartRejected | backend/app/auth/__init__.py:56-57 | `Bearer a b` is refused as an invalid authorization header |
| BearerHeader.DoubleSpaceRejected | backend/app/auth/__init__.py:56-57 | `Bearer  t` (two spaces) is refused as an invalid authorization header |
| BearerHeader.CountCheckedBeforeScheme | backend/app/auth/__init__.py:56-59 | `bearer a b` fails the part count before the scheme check |
| BearerHeader.SchemeIsCaseSensitive | backend/app/auth/__init__.py:58-59 | `bearer t` is refused as an invalid bearer header |
| BearerHeader.EmptyTokenAccepted | backend/app/auth/__init__.py:54-60 | `Bearer ` yields the empty token |
| KeySet.SelectKey | backend/app/auth/__init__.py:78-87 | no key is selected iff no entry carries the header's `kid`; a selected key carries it |
| KeySet.SelectKeyIsLastMatch | backend/app/auth/__init__.py:79-87 | the selected key is the last entry whose `kid` matches |
| KeySet.FindRsaKey | backend/app/auth/__init__.py:78-87 | the overwriting loop over the key set ends with exactly the selected key |
| TokenVerify.DecodeVerdict | backend/app/auth/__init__.py:90-106 | the decoded payload is returned unchanged; each decode failure is an `AuthError` with code 401 and never another exception |
| TokenVerify.DecodeFailuresDistinguishable | backend/app/auth/__init__.py:98-105 | expired maps to 'token_expired', a claims error to 'invalid_claims', any other failure to 'invalid_header'; no two outcomes give the same verdict |
| TokenVerify.VerifyWithKeys | backend/app/auth/__init__.py:76-107 | an unreadable token header escapes as a non-`AuthError`; a readable header without `kid` escapes as a `KeyError` when the key set has entries and raises the key-not-found error when it is empty; an unknown `kid` raises the key-not-found error; otherwise the verdict is that of decoding with the last matching key |
| TokenVerify.NoKeyNoDecode | backend/app/auth/__init__.py:89-107 | with a readable header and no matching key (an unknown `kid`, or no `kid` and an empty key set), the key-not-found error is raised and the decoder is never consulted: replacing it changes nothing |
| Auth.VerifyDecodeJwt | backend/app/auth/__init__.py:63-107 | an unreachable key endpoint gives 401 'Unable to reach Auth server, try again later.'; every refusal is a 401, except the unknown-key 403 'invalid_header' |
| Auth.VerifyOkIff | backend/app/auth/__init__.py:63-106 | verification succeeds iff the keys are reachable, the token header names a `kid`, and the last key with that `kid` decodes the token; the claims are that decode's payload |
| Auth.ScanPermissions | backend/app/auth/__init__.py:120-127 | the loop finds a match iff some token permission equals a string requirement, or is in a list requirement |
| Auth.CheckPermissions | backend/app/auth/__init__.py:110-129 | an absent or empty claim gives 401 'Unauthorized'; otherwise the check passes iff the requirement is satisfied (a string is granted, or some granted permission is in the list), else 401 'invalid_claims' |
| Auth.RequiresAuthentication | backend/app/auth/__init__.py:132-141 | the view runs with its original arguments iff the request is authenticated; header errors come first, then the verification error is raised as is; permissions are never checked |
| Auth.RequiresAuthorization | backend/app/auth/__init__.py:144-158 | the view runs once iff header, verification and permission check all pass, with the declared requirement prepended; otherwise the first failing stage's error (header, then verification, then permission) is raised as is and the view does not run; admission implies authentication |
| Auth.EmptyListAdmitsNothing | backend/app/auth/__init__.py:125-128 | an empty list requirement admits no request |
| Auth.EmptyKeySetIs403 | backend/app/auth/__init__.py:76-107 | a readable token header without `kid` against an empty key set never reaches the `kid` lookup and is refused with 403 'Unable to find RSA key' |
| Auth.UnknownKeyIs403 | backend/app/auth/__init__.py:89-107 | a well-formed header whose `kid` is absent is refused with 403 'invalid_header', whatever the decoder does |
| Auth.UnreachableKeysAre401 | backend/app/auth/__init__.py:70-73 | an unreachable key endpoint refuses a well-formed request with the 401 unreachable error |
| Auth.MissingPermissionIs401 | backend/app/auth/__init__.py:116-129 | an authenticated but unpermitted request gets 401 'invalid_claims' if it has a permissions claim, and 401 'Unauthorized' if not |
| AuthUtils.VerifyDecodeJwt | backend/app/auth/utils.py:50-91 | an unreachable key endpoint is not turned into an `AuthError`; otherwise the verdict is that of the shared key selection and decode, with the unknown-key error at 401; every `AuthError` is a 401 |
| AuthUtils.ScanPermissions | backend/app/auth/utils.py:100-104 | the loop finds a match iff some token permission equals a string requirement |
| AuthUtils.CheckPermissions | backend/app/auth/utils.py:94-105 | passes iff the requirement is a string present in a non-empty claim; every failure is the same 401 'You are not authorized to access this resource.' |
| AuthUtils.RequiresAuthentication | backend/app/auth/utils.py:108-117 | the view runs with its original arguments iff the request is authenticated; header errors, then verification failures, are raised as is |
| AuthUtils.RequiresAuthorization | backend/app/auth/utils.py:120-135 | the view runs once, with only its original arguments, iff the requirement is a string and the request is authorized for it; otherwise the first failing stage's error is raised as is |
| AuthUtils.ListRequirementNeverSatisfied | backend/app/auth/utils.py:100-105 | a list requirement fails every permission check and admits no request |
| AuthUtils.SameHeaderRefusals | backend/app/auth/utils.py:32-47 | both gates refuse a bad header with the same error |
| AuthUtils.UnknownKeyCodesDiffer | backend/app/auth/utils.py:62-91 | for an unknown `kid`, the main gate answers 403 and this one 401, both with 'invalid_header' |
| AuthUtils.VerificationAgreesOnKnownKeys | backend/app/auth/utils.py:56-90 | with the keys reachable, both gates accept the same tokens with the same claims and map decode failures alike |
| AuthUtils.GatesAgreeOnSinglePermission | backend/app/auth/utils.py:126-135 | for a single-permission requirement, both gates admit exactly the same requests |
| DrinkModels.NewRowId | backend/app/drink/models.py:13 | a new row gets an id above every existing id: 1 in an empty table, otherwise one more than the largest |
| DrinkModels.BindTitle | backend/app/drink/models.py:25 | a string title is stored as is; only `None` becomes NULL; lists, dicts and integers outside the 64-bit range cannot be bound |
| DrinkModels.Insert | backend/app/drink/models.py:25-45 | the commit succeeds iff the title can be bound, is non-NULL and not taken, and the next id fits in 64 bits; a `None` recipe is stored as the column default `[]`; the row gets the id `NewRowId` gives, and that same row is added with nothing else changed; an unbindable title or an exhausted id range is a non-integrity error; the invariant, which includes 64-bit ids, is kept |
| DrinkModels.Update | backend/app/drink/models.py:70-72 | the commit succeeds iff the new title is storable, non-NULL and not used by another row, and the recipe is non-NULL; exactly that row is replaced, id kept; the invariant is kept |
| DrinkModels.Delete | backend/app/drink/models.py:56-58 | exactly that row is removed, all others are kept, and the invariant is kept |
| DrinkModels.ShortEntry | backend/app/drink/models.py:76 | an entry projects iff it is a dict with `color` and `parts`; the projection has exactly those two members, with the entry's values |
| DrinkModels.ShortEntries | backend/app/drink/models.py:75-77 | the comprehension succeeds iff every entry projects, and keeps length and order |
| DrinkModels.ShortRecipe | backend/app/drink/models.py:75-77 | a list recipe projects entry by entry; an empty dict or string gives no entries, a non-empty one raises; other values are not iterable |
| DrinkModels.Short | backend/app/drink/models.py:74-82 | `short()` keeps id and title, and replaces the recipe with its projected entries; it raises iff the recipe cannot be projected |
| DrinkModels.Long | backend/app/drink/models.py:84-89 | `long()` returns id, title and the stored recipe unprojected |
| DrinkModels.Format | backend/app/drink/models.py:91-96 | `format()` returns the same record as `long()` |
| DrinkModels.ShortRestrictsLong | backend/app/drink/models.py:74-89 | `short()` is `long()` with each recipe entry cut down to its `color` and `parts` members, in the same order |
| DrinkControllers.ShortAll | backend/app/drink/controllers.py:26 | the listing comprehension succeeds iff every row's `short()` does, in index order |
| DrinkControllers.FormatAll | backend/app/drink/controllers.py:36 | the detail comprehension is every row's `format()`, in index order |
| DrinkControllers.IndexOrderListsRows | backend/app/drink/controllers.py:23-26 | a listing taken along the rowid index holds every row exactly once, in ascending id order |
| DrinkControllers.GetDrinks | backend/app/drink/controllers.py:20-27 | 200 iff every row's `short()` succeeds, and then the list is every row's `short()` once, in id order; otherwise 500; the table never changes |
| DrinkControllers.GetDrinksDetail | backend/app/drink/controllers.py:30-37 | always 200, with every row's `format()` once, in id order; the table never changes |
| DrinkControllers.WrapRecipe | backend/app/drink/controllers.py:52-56 | a dict recipe becomes a one-element list; every other value is kept as given |
| DrinkControllers.PostDrink | backend/app/drink/controllers.py:40-73 | a missing `title` or `recipe` key gives 400 with the table unchanged; a taken or NULL title gives 422 'Title is not unique'; an unbindable title gives 500; 201 iff the title is bindable, non-NULL and new and the next id fits in 64 bits, and then exactly one row is added under the id `NewRowId` gives, with a dict recipe wrapped in a list and a `null` recipe replaced by `[]`, and returned through `format()`; every other answer leaves the table unchanged |
| DrinkControllers.PatchDrink | backend/app/drink/controllers.py:76-114 | a body with neither field gives 400, checked before the lookup; an id beyond 64 bits gives 500; a missing id gives 404; a title used by another row, a NULL title or a `null` recipe gives 422 'Recipe with that title already exists'; an unbindable title gives 500; 200 iff the row exists, a supplied title is bindable, non-NULL and not used by another row, and a supplied recipe is not `null`, and then exactly the supplied fields of that row change and nothing else; every other answer leaves the table unchanged |
| DrinkControllers.DeleteDrink | backend/app/drink/controllers.py:117-141 | an id beyond 64 bits gives 500 and a missing id 404, both with the table unchanged; otherwise exactly that row is removed and its id is returned as `delete` |
| DrinkControllers.HandleAuthError | backend/app/drink/controllers.py:214-221 | the HTTP status and the body's `code` both equal the error's code; `error` and `message` are its error and description |
| DrinkControllers.View | backend/app/drink/controllers.py:20-141 | every view keeps the table invariant (unique titles, non-NULL recipes, complete index) |
| DrinkControllers.Serve | backend/app/drink/controllers.py:20-118 | `GET /drinks` runs ungated; every other route runs its view iff the main gate admits its declared permission ('get:drinks-detail', 'post:drinks', 'patch:drinks', 'delete:drinks'); otherwise the table is unchanged and the answer is `handle_auth_error` of the gate's `AuthError`, or the generic 500 for any other exception |
| DrinkControllers.AuthErrorCodes | backend/app/auth/__init__.py:144-158 | every `AuthError` the main gate raises has code 401 or 403 |
| DrinkControllers.StoreChangesOnlyWhenAuthorized | backend/app/drink/controllers.py:30-118 | the table changes only on a gated route whose permission the request's token grants |
| DrinkControllers.PublicListingIgnoresCredentials | backend/app/drink/controllers.py:20-22 | the public listing is the same whatever the credentials and provider |
| DrinkControllers.GatedRouteWithoutHeader | backend/app/drink/controllers.py:30-31 | every gated route without a header answers 401 with the missing-header error and leaves the table unchanged |
| DrinkControllers.PostWithoutPermissionIs401 | backend/app/drink/controllers.py:40-42 | an authenticated token without 'post:drinks' gets 401 and creates nothing |
| DrinkControllers.ExpiredTokenIs401 | backend/app/drink/controllers.py:214-221 | on every gated route, a token the last matching key finds expired is answered 401 with error 'token_expired' and message 'Expired Token', and the table is unchanged |
| DrinkControllers.FirstDrinkGetsIdOne | backend/app/drink/models.py:13 | the first drink created in an empty table gets id 1 and is the only indexed row |
| DrinkControllers.PostedNullRecipeGetsDefault | backend/app/drink/models.py:26 | POST with a new title and a `null` recipe answers 201 and stores the recipe as `[]` |
| DrinkControllers.PatchedNullRecipeIs422 | backend/app/drink/controllers.py:96-102 | PATCH setting the recipe to `null` violates NOT NULL and is answered 422 'Recipe with that title already exists', with the table unchanged |
| DrinkControllers.OversizedIdIs500 | backend/app/drink/controllers.py:76-121 | a row id beyond 64 bits passes the route's digit converter, and then the lookup cannot bind it: PATCH with a field to set and DELETE both answer 500 and change nothing |
| DrinkControllers.OversizedIntegerTitleIs500 | backend/app/drink/controllers.py:58-66 | POST with an integer title outside the 64-bit range answers 500 and stores nothing |
| DrinkControllers.PostThenDeleteRestores | backend/app/drink/controllers.py:40-141 | deleting the drink just created restores the table exactly and returns its id |
| DrinkControllers.PatchIsIdempotent | backend/app/drink/controllers.py:76-114 | repeating a successful PATCH answers the same and changes nothing more |
| DrinkControllers.DeleteTwiceIs404 | backend/app/drink/controllers.py:117-127 | a second DELETE of the same id is a 404 that changes nothing |
| DrinkControllers.PatchedDictRecipeBreaksListing | backend/app/drink/controllers.py:96-97 | PATCH stores a non-empty dict recipe as given, after which the public listing answers 500 |
| DrinkControllers.PostedDictRecipeIsWrapped | backend/app/drink/controllers.py:52-54 | POST with a new title and a dict recipe stores the recipe as a one-element list |

## Left out

- The signature and claim checks of `jose.jwt.decode`, `jwt.get_unverified_header`, and the HTTPS fetch of the key set. These are foreign library code and network I/O. They are the `Provider` parameter, and the model takes one snapshot of the key set per verification.
- Parsing the fetched key set with `json.loads`, and the `KeyError`s for an entry without `kid`, `kty`, `use`, `n` or `e`. Every entry is assumed to carry the five members it copies.
- A `permissions` claim that is not a list of strings. Python would iterate such a claim anyway, but the model does not.
- The Auth0 management-token acquisition and client (backend/app/auth/__init__.py:26-32) and the OAuth registration (backend/app/auth/__init__.py:161-171). These are external service setup.
- `print(payload)` in the older gate. It is output only.
- backend/app/user/controllers.py. Its role routes are thin calls to the Auth0 management API, and the blueprint is never registered.
- backend/app/auth/controllers.py. It is CORS glue, and its error handler indexes `exception.error` as a dict.
- SQLAlchemy session mechanics, and the `date_created`/`date_modified` timestamps. The table is a map, and the session is a single commit that either succeeds or leaves the table unchanged.
- PATCH body keys other than `title` and `recipe`. The `setattr` loop would also overwrite arbitrary attributes, `id` included.
- Non-object JSON request bodies, and non-integer JSON numbers.
- The length limit of `title` (`String(80)`). SQLite does not enforce it.
- The 400/404/405/422/503 handlers as separate members. The 422 body shape appears as `Aborted`, and Flask's own 500 page appears as `ServerError`.
- The `/drink/test` route, backend/app/utils.py (CLI), backend/config_test.py, backend/run_tests.py, the app wiring, and the smoke tests. These are tooling.
- DrinkModels.Insert (and through it DrinkControllers.PostDrink): once the largest id is 2^63 - 1, SQLite tries random unused rowids before it fails with SQLITE_FULL; the model reports a database error (500) at once, because the random choice is outside a pure model.
- DrinkModels.BindTitle: numbers and booleans within the 64-bit range are stored as their SQLite text form, but nothing is claimed about that form beyond its being text. This follows the TEXT affinity of the SQLite database the app is configured with.
