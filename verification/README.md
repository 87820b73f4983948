# Request logic of the habit-tracker backend, in Dafny

The backend (`backend/app.py`) is a Flask service over MySQL. Every route
resolves a user id and then runs one or two SQL statements filtered by that
id. This project models that request logic as pure functions from a store
to a response and the store after it:

- identity resolution: a signed bearer token first, then the unverified
  `userId` query parameter, then user 1;
- sign-up, log-in and `/auth/me` over the profile table;
- the profile read, with its placeholder, and the profile upsert;
- create, whitelisted update and owner-scoped delete for tasks, diary
  entries, calendar events, food items and nutrient history;
- the food lookup and gram scaling of a history entry;
- the progress goal and the nutrient-goal upserts.

Modules:

- `Values` holds JSON values and the Python conversions the handlers apply
  (truthiness, `strip`, `lower`, `int()`, `float()`).
- `Fields` is the whitelist partial-update builder.
- `Tables` holds owned tables and the `(user_id, id)`-filtered statements.
- `Http` holds responses.
- `Store` holds the whole database.
- `Identity`, `Auth`, `Profiles` and `Crud` hold the handlers.
- `Api` is the write dispatcher, with the store-wide invariant and the
  isolation between users.

Some things the source leaves to libraries or to the server are parameters
of the model:

- the password hash and check (bcrypt);
- token signing and verification (itsdangerous);
- the clock (`today`, `NOW()`).

Where a lemma needs a property of one of these, it states it as a
`requires`.

Conversion errors, such as `int("abc")` or a non-text title, raise in the
source. The model answers them with the generic 500 that Flask returns for
an unhandled exception.

Two modelling choices about the database are built in:

- A statement's row count is the number of rows its `WHERE` matched. The
  connection in `backend/db_config.py:4-10` sets no client flags, so MySQL
  itself reports changed rows; the consequences are listed under
  "## Left out".
- When several profiles share an email, the model's `fetchone()` returns
  the one with the least id.

Two behaviours of the code are worth stating on their own:

- `get_user_id` returns any integer `int()` accepts from `?userId=`, 0 and
  negative ids included (`backend/app.py:80-81`).
- An update with no whitelisted field answers 422 before any ownership test
  (`backend/app.py:287`). Only an update that names a field can get the 404
  for a row the caller does not own.

## Model

| member | source | states |
|---|---|---|
| Values.Strip | backend/app.py:116 | `str.strip()`: the result is the input with its leading run of Python whitespace and its trailing whitespace removed — a contiguous slice starting after the leading run, followed only by whitespace — it has no whitespace at either end, and it equals its input exactly when the input was already trimmed |
| Values.StripPadded | backend/app.py:116 | stripping whitespace padding off trimmed text gives back that text |
| Values.StripIdempotent | backend/app.py:116 | stripping twice is stripping once |
| Values.Lower | backend/app.py:116 | `lower()` keeps the length and maps each character through the ASCII lower-case map, so no upper-case ASCII letter remains and every whitespace position is kept |
| Values.LowerKeepsLowerCase | backend/app.py:116 | a string with no upper-case ASCII letter is its own lower case |
| Values.LowerIdempotent | backend/app.py:116 | lower-casing twice is lower-casing once |
| Values.TextOf | backend/app.py:265 | `(d.get(k) or "").strip()`: a falsy value gives "", a string gives its stripped text, and a truthy non-string fails |
| Values.PyInt | backend/app.py:266 | `int()` truncates a number toward zero, maps `True`/`False` to 1/0, rejects a blank string, null, lists and objects |
| Values.PyIntAccepts | backend/app.py:266 | every string `int()` accepts strips to an optional `+`/`-` sign followed by a digit run with single underscores between digits |
| Values.PyIntRejectsPoint | backend/app.py:266 | `int("1.5")` is rejected rather than truncated |
| Values.PyIntOfDigits | backend/app.py:80-81 | a padded, optionally signed run of ASCII digits with single underscores between digits reads as its signed decimal value |
| Values.PyFloat | backend/app.py:602-603 | `float()` keeps a number, maps `True`/`False` to 1.0/0.0, rejects a blank string, null, lists and objects |
| Values.PyFloatAccepts | backend/app.py:602-603 | every string `float()` accepts strips to an optional sign, an optional grouped whole part, and an optional `.` with an optional grouped fraction, with at least one digit |
| Values.PyFloatRejectsSecondPoint | backend/app.py:602-603 | `float("1.2.3")` is rejected |
| Values.PyFloatOfDigits | backend/app.py:602-603 | a padded, optionally signed digit run reads as its signed decimal value |
| Values.PyFloatOfDecimal | backend/app.py:602-603 | a padded, optionally signed `whole.fraction` literal reads as whole plus fraction over its power of ten |
| Fields.Pick | backend/app.py:283-287 | the SET list holds exactly the whitelisted keys present in the body, each with the body's value; it is empty exactly when no whitelisted key is present, which is the 422 condition |
| Fields.PickKeepsWhitelistOrder | backend/app.py:284-286 | the selected keys appear in the whitelist's order |
| Fields.PatchPickIsOverlay | backend/app.py:283-290 | applying the generated assignments to a row gives the reference overlay: supplied whitelisted columns take the body's value and every other column keeps its value |
| Fields.OverlayColumns | backend/app.py:283-290 | after an overlay a supplied whitelisted column reads as the body's value, and every other column reads as before |
| Tables.FindOwned | backend/app.py:675-677 | the owner-filtered SELECT finds a row exactly when the caller owns that id, and the row found is the caller's own |
| Tables.FindOwnedSeesView | backend/app.py:675-680 | the lookup's answer depends only on the caller's own rows |
| Tables.UpdateOwned | backend/app.py:290-292 | the owner-filtered UPDATE reports 1 exactly when the caller owns the id, patches only that row, and keeps the ids and the counter |
| Tables.DeleteOwned | backend/app.py:301-302 | the owner-filtered DELETE reports 1 exactly when the caller owns the id, removes only that row and keeps the counter |
| Tables.InsertOwned | backend/app.py:270-275 | the new row gets the AUTO_INCREMENT id, which no existing row holds, belongs to the caller, and leaves every other row alone |
| Tables.InsertKeepsTableOk | backend/app.py:270-275 | an insert of schema columns keeps ids below the counter and rows within the schema |
| Tables.UpdateIsolated | backend/app.py:290 | an update by one user leaves every other user's rows exactly as they were |
| Tables.DeleteIsolated | backend/app.py:301 | a delete by one user leaves every other user's rows exactly as they were |
| Tables.InsertIsolated | backend/app.py:270-275 | an insert by one user leaves every other user's rows exactly as they were |
| Identity.UidFromBearer | backend/app.py:67-75 | no id unless the header starts with the exact, case-sensitive `Bearer `; with the prefix, a token that verifies gives exactly `int()` of its claim, and one that does not gives no id |
| Identity.FallbackUid | backend/app.py:80-83 | a `userId` parameter that `int()` reads resolves to that integer; a missing or unreadable one resolves to 1 |
| Identity.GetUserId | backend/app.py:77-83 | a verified token wins; otherwise the query parameter decides |
| Identity.BearerTokenClaim | backend/app.py:67-75 | `Bearer <token>`, with a token whose verified claim is `uid`, reads as `uid` |
| Identity.SignedTokenResolves | backend/app.py:77-79 | a valid token resolves to its claim whatever the query string says |
| Identity.NoBearerFallsBack | backend/app.py:67-83 | without the `Bearer ` prefix the token is ignored, and the id comes from `userId` or defaults to 1 |
| Identity.LowerCaseSchemeIgnored | backend/app.py:69 | `bearer <token>` in lower case is not a bearer header |
| Identity.NumericQueryParameter | backend/app.py:80-81 | `?userId=42` with no token resolves to 42 |
| Identity.DecimalQueryParameter | backend/app.py:80-83 | `?userId=1.5` is not a valid integer and falls back to 1 |
| Identity.QueryParameterShape | backend/app.py:80-83 | a `userId` query value that resolves to a user other than 1 strips to a sign and a grouped digit run |
| Identity.MalformedQueryParameter | backend/app.py:80-83 | `?userId=me` resolves to 1 |
| Identity.QueryParameterDigits | backend/app.py:80-81 | with no token, any padded, signed, underscore-grouped digit run in `userId` resolves to its signed value, 0 and negatives included |
| Identity.GroupedQueryParameter | backend/app.py:80-81 | `?userId=1_0` resolves to 10, as Python's `int()` reads it |
| Auth.NormalizedEmail | backend/app.py:116 | `(d.get("email") or "").strip().lower()`: a string gives the lower case of its stripped text, a falsy value gives "", and only a truthy non-string fails; the result is trimmed and has no upper-case ASCII letter |
| Auth.NormalizedEmailIdempotent | backend/app.py:116 | normalizing a normalized email changes nothing |
| Auth.NextProfileId | backend/app.py:129-130 | `COALESCE(MAX(id),0)+1`: exceeds every existing id; it is 1 on an empty table, and otherwise one more than an existing id |
| Auth.LeastId | backend/app.py:153-154 | the row chosen among matches is a member of the matches and no greater than any of them |
| Auth.SignupProfile | backend/app.py:118-137 | the inserted row has the given email and hash, display name "User" when blank, and no avatar or bio |
| Auth.SignupRefusal | backend/app.py:115-127 | the refusals in the source's order: 500 for an unreadable email or name; then 422 for a blank email or a falsy password; then 409 when the email is registered; then 500 for a truthy non-text password; no refusal exactly when the email is non-blank and free and the password is non-empty text |
| Auth.AddAccount | backend/app.py:129-139 | the new id is `COALESCE(MAX(id),0)+1` and exceeds every existing id; the profile stored there is the sign-up row; the existing profiles are unchanged |
| Auth.Signup | backend/app.py:113-142 | 201 exactly when there is no refusal, and every other answer is that refusal and changes nothing; a 201 stores the sign-up row with the normalized email and the password's hash at `MAX(id)+1` and returns a token signed for that id |
| Auth.SignupAcceptedCreates | backend/app.py:113-142 | a body with a fresh non-blank email, a readable name and a non-empty text password creates the account (201) |
| Auth.EmailTakenConflicts | backend/app.py:124-127 | a well-formed sign-up for a registered email is a 409 that changes nothing |
| Auth.Authenticate | backend/app.py:153-164 | on the least matching account: no account, a NULL or empty stored hash and a password the check rejects all give the same 401; a truthy non-text hash is a 500; a password the check accepts gives 200 with that account's id and its signed token |
| Auth.Login | backend/app.py:144-164 | 500 for an unreadable email; 422 exactly for a blank email or a falsy password; otherwise the answer of the credential check on the accounts registered under the normalized email |
| Auth.Me | backend/app.py:166-178 | 401 exactly when no verified token is present, 404 exactly when its id has no profile, otherwise that profile |
| Auth.SignupKeepsEmailsUnique | backend/app.py:124-137 | sign-up never creates a second profile with the same email |
| Auth.SignupAccountIsSole | backend/app.py:124-137 | after sign-up the new profile is the only one carrying the email |
| Auth.LoginSoleAccount | backend/app.py:152-164 | logging in to the only account with an email, with a password its hash accepts, returns that account's id and token |
| Auth.SignupThenLogin | backend/app.py:113-164 | signing up and then logging in with the same password, and an email that normalizes the same way, returns the new id |
| Auth.SignupTwiceConflicts | backend/app.py:124-127 | a second sign-up with the same normalized email is a 409 that changes nothing |
| Auth.SignupTokenShowsNewProfile | backend/app.py:141-178 | the token returned by sign-up, presented to `/auth/me`, shows the profile just created |
| Auth.LoginFailuresIndistinguishable | backend/app.py:153-162 | when every account under the email has a NULL or empty hash or a hash the check rejects, log-in gives the same 401 as an unknown email |
| Profiles.ProfileGet | backend/app.py:183-197 | always 200; the stored profile when there is one, and otherwise the fixed placeholder, never 404 |
| Profiles.InsertedProfile | backend/app.py:228-237 | the inserted row takes the body's values, with "User", NULL, NULL and "" as defaults, and has no password hash |
| Profiles.ProfilePut | backend/app.py:199-242 | 422 exactly when no whitelisted field is present, changing nothing; otherwise only the caller's profile changes, as an overlay of the stored row or as the inserted default row |
| Profiles.ProfilePutThenGet | backend/app.py:199-242 | after a PUT each whitelisted column reads as the body's value when supplied, and otherwise as the stored value or the insert's default |
| Profiles.ProfilePutKeepsPasswordHash | backend/app.py:204-224 | a profile PUT never touches the password hash or any other column outside the whitelist |
| Profiles.ProfilePutKeepsValid | backend/app.py:199-242 | the upsert keeps profiles within the profile schema |
| Profiles.ProfilePutCanDuplicateEmail | backend/app.py:204-224 | the handler does not check whether an email is free: with no unique index on `email`, a PUT can give a user another account's email |
| Crud.UpdateRoute | backend/app.py:283-295 | 422 exactly when no field is supplied; 404 exactly when a field is supplied and the caller does not own the id; on 200 the row becomes the overlay; only that row can change |
| Crud.DeleteRoute | backend/app.py:297-305 | 200 exactly when the caller owns the id, and then only that row is removed; 404 changes nothing |
| Crud.ForeignRowIsNotFound | backend/app.py:290-305 | a row owned by another user answers 404 to update and delete, and nothing changes |
| Crud.UpdateRouteKeepsTableOk | backend/app.py:283-295 | a whitelisted update keeps the counter invariant and the schema |
| Crud.UpdateRouteIsolated | backend/app.py:290 | an update never changes another user's rows |
| Crud.TaskRow | backend/app.py:270-273 | a task INSERT writes exactly `title`, `urgency` and `due_date`, with the given text, the integer urgency and the due date |
| Crud.DiaryRow | backend/app.py:502-505 | the diary INSERT writes exactly `entry_date`, `title`, `content` and `mood`, with the given values |
| Crud.EventRow | backend/app.py:553-556 | the event INSERT writes exactly its six columns, with the given values and the 0/1 `all_day` |
| Crud.FoodRow | backend/app.py:605-608 | the food INSERT writes exactly `name` and the four gram columns, with the given values |
| Crud.HistoryRow | backend/app.py:693-697 | the history INSERT writes exactly its eight columns: `eaten_at`, `food_id`, the macro name and grams, `amount_g` and `note` |
| Crud.TasksCreate | backend/app.py:261-277 | a bad urgency is a 500 even with a blank title; 422 exactly for a blank title with a good urgency; a 201 inserts, at the returned id and owned by the caller, a task row of the stripped title, `int(urgency)` (default 1) and `due_date` |
| Crud.TasksUpdate | backend/app.py:279-295 | the whitelisted update of the caller's own task, with its 422 and 404 conditions; only that row can change, and the ids and the counter are kept |
| Crud.TasksDelete | backend/app.py:297-305 | 200 exactly when the caller owns that task id, and then only that row is removed; the counter is kept |
| Crud.DiaryAdd | backend/app.py:491-509 | 500 exactly for an unreadable title or content; 422 exactly when both are blank; a 201 inserts the caller's row of the request date (today when falsy), stripped title and content, and mood |
| Crud.DiaryDelete | backend/app.py:511-519 | 200 exactly when the caller owns the entry, and then only that entry is removed; the counter is kept |
| Crud.EventsAdd | backend/app.py:540-560 | 500 exactly for an unreadable title; 422 exactly for a blank title or a falsy `starts_at`; a 201 inserts the caller's row of the stripped title, note, start, end, 0/1 `all_day` and color |
| Crud.EventsDelete | backend/app.py:562-570 | 200 exactly when the caller owns the event, and then only that event is removed; the counter is kept |
| Crud.FoodsCreate | backend/app.py:596-611 | 422 exactly for a blank name; 500 exactly for an unreadable name, or a non-blank name with a gram field `float()` rejects; a 201 inserts the caller's row of the stripped name and the four converted grams (`per_unit_g` defaults to 100) |
| Crud.FoodsUpdate | backend/app.py:613-626 | the whitelisted update of the caller's own food, with its 422 and 404 conditions; only that row can change, and the ids and the counter are kept |
| Crud.FoodsDelete | backend/app.py:628-635 | 200 exactly when the caller owns the food, and then only that food is removed; the counter is kept |
| Crud.FromFood | backend/app.py:672-680 | 500 when `food_id` or `amount_g` does not convert; 404 exactly when both convert and the caller owns no food with that id; when the caller owns it, exactly that row's name and grams scaled by `amount_g / per_unit_g` |
| Crud.ScaleFood | backend/app.py:677-685 | 404 exactly for a missing food; success implies a nonzero `per_unit_g`, and the entry takes the food's name |
| Crud.ScaleFoodProportional | backend/app.py:681-685 | recorded grams times `per_unit_g` equal stored grams times the amount; 10 g per 50 g at 100 g gives 20 g |
| Crud.FromBody | backend/app.py:686-690 | without a food, refused exactly when the name or a gram field does not convert; otherwise the stripped name (NULL when blank) and the three converted grams |
| Crud.HistoryAddOwnFood | backend/app.py:665-700 | naming one of the caller's own foods with numeric grams and a nonzero `per_unit_g` answers 201 and records the food's name and each gram column times `amount_g / per_unit_g` |
| Crud.HistoryAdd | backend/app.py:665-700 | a truthy `food_id` takes the food branch, any other the body branch; 201 exactly when that branch yields values, and otherwise its refusal (404 for a food the caller does not own); a 201 row holds `eaten_at` or `NOW()`, the raw `food_id`, the branch's name and grams, `amount_g` and `note` |
| Crud.HistoryUpdate | backend/app.py:429-462 | the whitelisted update of the caller's own history entry, with its 422 and 404 conditions; only that row can change, and the ids and the counter are kept |
| Crud.HistoryDelete | backend/app.py:702-709 | 200 exactly when the caller owns the entry, and then only that entry is removed; the counter is kept |
| Crud.WriteGoal | backend/app.py:418-426 | the upsert sets the caller's goal ratios and no other user's |
| Crud.NutrientsPut | backend/app.py:407-426 | 422 exactly when the path kind, lower-cased, is not `goal`; for `goal`, the answer is the upsert of the body's converted ratios (500 when a conversion fails) |
| Crud.NutrientsPutBody | backend/app.py:396-405 | 422 exactly when the body has no `goal` key; a truthy non-object goal is a 500; a falsy goal writes the zero ratios and an object goal writes its converted fields |
| Crud.NutrientGoalGet | backend/app.py:379-392 | the caller's stored goal ratios, or 0.48/0.30/0.22 when there is none |
| Crud.NutrientGoalRoundTrip | backend/app.py:379-426 | `PUT /nutrients/<kind>` with `goal` in any case and numeric or missing fields answers 200, and `GET /nutrients` then returns those ratios, a missing field as 0 |
| Crud.NutrientsBodyRoundTrip | backend/app.py:379-405 | a goal object written through `PUT /nutrients` reads back through `GET /nutrients`, missing fields as 0 |
| Crud.GoalPut | backend/app.py:322-335 | 500 exactly when `progress` does not convert; otherwise only the caller's progress is set |
| Crud.GoalGet | backend/app.py:310-320 | the caller's stored progress, or 0.0 when there is none |
| Crud.GoalRoundTrip | backend/app.py:310-335 | `PUT /goal` with a numeric progress answers with it, and `GET /goal` then returns it |
| Api.Handle | backend/app.py:261-709 | a refused write changes nothing, and no write adds a profile other than the caller's |
| Api.HandlePreservesValid | backend/app.py:199-709 | every write keeps each table's ids below its counter and its rows within its schema |
| Api.TaskRoutesKeepValid | backend/app.py:261-305 | task writes keep the store invariant |
| Api.DiaryRoutesKeepValid | backend/app.py:491-519 | diary writes keep the store invariant |
| Api.EventRoutesKeepValid | backend/app.py:540-570 | event writes keep the store invariant |
| Api.FoodRoutesKeepValid | backend/app.py:596-635 | food writes keep the store invariant |
| Api.HistoryRoutesKeepValid | backend/app.py:429-709 | history writes keep the store invariant: the update (lines 429-462), the add (665-700) and the delete (702-709) |
| Api.SettingsRoutesKeepValid | backend/app.py:199-426 | the profile upsert (lines 199-242), `PUT /goal` (322-335) and both nutrient-goal writes, `PUT /nutrients` and `PUT /nutrients/<kind>` (396-426), keep the store invariant |
| Api.HandleIsolated | backend/app.py:261-709 | a write by one user leaves every other user's rows, profile and goals exactly as they were |
| Api.TaskRoutesIsolated | backend/app.py:261-305 | task writes never change another user's data |
| Api.DiaryRoutesIsolated | backend/app.py:491-519 | diary writes never change another user's data |
| Api.EventRoutesIsolated | backend/app.py:540-570 | event writes never change another user's data |
| Api.FoodRoutesIsolated | backend/app.py:596-635 | food writes never change another user's data |
| Api.HistoryRoutesIsolated | backend/app.py:429-709 | history writes never change another user's data: the update (lines 429-462), the add (665-700) and the delete (702-709) |
| Api.SettingsRoutesIsolated | backend/app.py:199-426 | the profile upsert (lines 199-242), `PUT /goal` (322-335) and both nutrient-goal writes, `PUT /nutrients` and `PUT /nutrients/<kind>` (396-426), never change another user's data |
| Api.ProfilePutIsolated | backend/app.py:199-242 | the profile upsert never changes another user's data |
| Api.GoalPutIsolated | backend/app.py:322-335 | the progress upsert never changes another user's data |
| Api.FoodLookupSeesOnlyOwnFoods | backend/app.py:672-680 | the food lookup of a history entry gives the same answer on any two stores that agree on the caller's own foods |

## Left out

- List and read queries (`GET /tasks`, `/diary`, `/calendar/events`, `/foods`, `/nutrients/history`): their filters, ordering and `LIMIT` are SQL the model does not interpret.
- The `current` half of `GET /nutrients`: it is a SQL aggregate with floating-point rounding to 4 places. Only the `goal` half is modelled.
- `_coerce` and `_dict_rows`: they only format dates and decimals for JSON.
- The health routes `/__ping` and `/__dbcheck`, and `db_config.py`: connection handling only.
- Flask routing, JSON decoding and CORS: the model starts from the decoded body. A body that is not a JSON object is not modelled.
- Timestamps (`created_at`, `updated_at`): columns the database fills in.
- The `done` column: no task insert writes it.
- Races between the two statements of sign-up, of the profile upsert and of the history insert: each request is modelled as atomic.
- Database errors other than the ones the code provokes: column types, length limits and MySQL's own value coercion.
- A JSON list or object in the body is bound by the model as a column value; the MySQL connector refuses to bind such a value and the request ends in a 500.
- Emails are compared exactly. Under the `utf8mb4` connection's default case-insensitive collation, an email stored in mixed case through `PUT /profile` is still found by the sign-up and log-in lookups (`backend/app.py:124`, `backend/app.py:153`); the model's lookup does not find it.
- Values.Lower: lower-cases ASCII letters only; Python's `lower()` also maps other Unicode letters.
- Values.PyInt: reads ASCII digits (with single underscores between digits) only; Python's `int()` also accepts other Unicode decimal digits, and a `0x`/`0o`/`0b` prefix is not modelled because `int()` with no base rejects it anyway.
- Values.PyFloat: reads plain decimal literals with ASCII digits only, not exponents, `inf`, `nan` or other Unicode digits. Arithmetic is on exact reals, not IEEE doubles.
- Auth.Authenticate: when several accounts share an email, it picks the least id; MySQL's `fetchone()` can return any of them.
- Auth.Signup: `hash`, `sign` and `verify` are parameters; bcrypt's salt and cost and the token's timestamp are not modelled.
- Profiles.ProfilePut: the update's row count is read as rows matched. MySQL reports changed rows, so a PUT that rewrites a profile with identical values gets 0, goes on to the INSERT with the existing id, and fails on the duplicate primary key (a 500); the model answers 200.
- Crud.TasksUpdate: an update that writes the values a task row already holds changes no row, so MySQL reports 0 and the handler answers 404 (`backend/app.py:294`); the model, counting matched rows, answers 200.
- Crud.FoodsUpdate: likewise, an identical rewrite of a food answers 404 in the source (`backend/app.py:626`) and 200 in the model.
- Crud.HistoryUpdate: likewise, an identical rewrite of a history entry answers 404 in the source (`backend/app.py:459-460`) and 200 in the model.
