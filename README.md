# SafeTrack consent and geofence engine, in Dafny

SafeTrack is a location-sharing service. A *requester* asks a *recipient*, named by phone number, for permission to see their location. The recipient accepts or declines. The requester can revoke at any time. While a consent is `active`, the recipient's location reports reach the requester. Each report is checked against the requester's circular geofences and may raise `geofence_enter` / `geofence_exit` alerts.

This project models the decision and state logic of that engine:

- **PHP backend** (`backend/api.php`, `backend/helpers.php`):
  - the consent request, respond and revoke rules;
  - geofence creation, location intake and the geofence state tracker (`evaluateGeofences`);
  - the poll selections and their cursors;
  - the phone, E.164 and routing helpers.
- **Browser client** (`script.js`): its pure display helpers, and the client state that polling and the location simulator update.
- **In-browser mock backend** (`api.js` over `database.js`'s localStorage arrays).

Modules, one per file:

| file | models |
|---|---|
| `Wrappers.dfy` | `Option` and `Result` |
| `Text.dfy` | digit filtering (`preg_replace('/\D+/', '')`, `replace(/\D/g, '')`), PHP and JavaScript `trim`, ASCII case mapping, decimal rendering |
| `Helpers.dfy` | `normalizePhone`, `isValidE164`, `routePath`, `boolField` of backend/helpers.php |
| `Records.dfy` | the rows of the backend tables; `getUserByPhone`; per-table id lists |
| `Ledger.dfy` | the validation and write rules of the consent, geofence and location handlers, as functions |
| `Tracker.dfy` | `evaluateGeofences`: the join, one step per row, and the whole fold |
| `Feed.dfy` | the `/updates/poll` selections and the cursor |
| `Backend.dfy` | class `Store`: the tables as sequence fields, and the handlers as methods proved against Ledger, Tracker and Feed |
| `Frontend.dfy` | script.js helpers; class `ClientState` with `pollUpdates` and `simulateLocationUpdate` |
| `MockApi.dfy` | api.js operations over database.js's arrays; class `MockStore` |

Modelling choices:

- **Ids.** The backend's auto-increment ids come from one counter, `nextId`, kept in the `Store` class. Every table lists its ids in increasing order below the counter (`Store.Valid`).
- **Time stamps.** These are opaque strings passed in as parameters.
- **Distance.** The distance between two points is a function parameter returning a `real`.
- **Join order.** The join of `evaluateGeofences` has no `ORDER BY`. The model lists its rows consent by consent, each consent's geofences in table order. `Tracker.JoinRowsOrdered` proves that this order lists each (consent, geofence) pair once. The location feed of `/updates/poll` orders by `l.id` only, which leaves the order of one location's rows open. The model puts them in consent-id order (`Feed.RowsOfLocation`, `Feed.LocationsAfterLexOrdered`). That choice decides which rows `Feed.LimitSplitsLocation` cuts off.
- **The mock's clock.** `api.js` uses `Date.now()` both as the clock and as every new row's id. The model reads it once per operation, as the parameter `now`.

Three behaviours of the code that the model keeps as written:

- **Respond and revoke do not check the current status.** The intended lifecycle of a consent is pending→{active, declined} and active→revoked, with a response to a revoked or declined consent refused. The handlers at backend/api.php:252-308 never read `status`. So a revoked consent can be accepted again (`Ledger.RevokedConsentCanBeReaccepted`), and an accepted one can be declined (`Ledger.RespondOverwritesStamps`).
- **`isValidE164` accepts a trailing line feed.** It uses `preg_match` with `$` and no `D` modifier, so `"+12345678\n"` passes (`Helpers.ValidE164AcceptsTrailingNewline`). The handlers only validate normalised phones, which never end in a line feed.
- **The poll limit counts rows, not locations.** The location feed's `LIMIT 500` applies to (location, consent) rows. A location watched through several active consents of the same requester yields several rows. If the limit falls between two of them, the cursor moves past that location, and the later rows are never returned (`Feed.LimitSplitsLocation`).

## Model

| member | source | states |
|---|---|---|
| Helpers.NormalizeTrimmed | backend/helpers.php:40-58 | after trimming, the result is always `+` followed only by ASCII digits |
| Helpers.NormalizePhone | backend/helpers.php:38-59 | the normalised phone is always `+` followed only by ASCII digits |
| Helpers.NormalizePlus | backend/helpers.php:41-43 | input whose trim starts with `+` gives `+` and exactly the digits of the whole input |
| Helpers.NormalizeDoubleZero | backend/helpers.php:44-46 | input whose trim starts with `00` gives `+` and the digits after the two zeros |
| Helpers.NormalizePakistan | backend/helpers.php:49-54 | an 11-digit local number starting `03` gives `+92` and its last 10 digits |
| Helpers.NormalizeOther | backend/helpers.php:49-58 | any other input gives `+` and all of its digits |
| Helpers.NormalizeTrimmedCanonical | backend/helpers.php:40-43 | a canonical phone passes through the branches unchanged |
| Helpers.PhpTrimCanonical | backend/helpers.php:40 | a canonical phone has nothing for `trim` to remove |
| Helpers.NormalizePhoneIdempotent | backend/helpers.php:38-59 | normalising a normalised phone returns it unchanged |
| Helpers.NormalizedValidity | backend/helpers.php:61-64 | a normalised phone is valid E.164 exactly when its length is 9 to 16 and its first digit is not `0` |
| Helpers.IsValidE164 | backend/helpers.php:61-64 | definition of the pattern test; its meaning on normalised phones is in `Helpers.NormalizedValidity` and `Helpers.ValidE164AcceptsTrailingNewline` |
| Helpers.ValidE164AcceptsTrailingNewline | backend/helpers.php:61-64 | the pattern's `$` also accepts a number followed by one line feed |
| Helpers.UriPath | backend/helpers.php:132 | the URI path is never empty: null, empty and `"0"` all become `/` |
| Helpers.RoutePath | backend/helpers.php:125-140 | a non-empty PATH_INFO becomes that path with its leading slashes collapsed to one. Otherwise, a URI path under the script name gives the remainder, or `/` when nothing remains. Otherwise the URI path itself. Never empty |
| Helpers.BoolField | backend/helpers.php:153-159 | an absent key gives the default; an unparseable value also falls back to it |
| Records.GetUserByPhone | backend/api.php:16-22 | returns a user with exactly that phone, and nothing only when no user has it |
| Records.FindConsent | backend/api.php:261-266 | finds the consent with that id, and nothing only when there is none |
| Ledger.CheckConsentRequest | backend/api.php:197-204 | a request is accepted exactly when the permissions are a non-empty array (default `["location"]`) and the normalised phone is valid E.164. The permissions are checked first, each failure with its 422 message. An accepted phone is canonical |
| Ledger.NewConsent | backend/api.php:206-222 | the inserted consent is pending, owned by the requester, and bound to the recipient exactly when a user with that phone exists |
| Ledger.ParseAction | backend/api.php:256-259 | the action is accept or decline after lower-casing; anything else is refused |
| Ledger.RespondDecision | backend/api.php:268-287 | 403 when a bound recipient is not the actor, or when the consent is unbound and the phone differs. On success the actor is the bound recipient and a bound recipient is never replaced. The status is `active` iff accepting, else `declined`. The stamp of the other outcome is cleared |
| Ledger.RespondIgnoresStatus | backend/api.php:268-287 | the outcome of responding does not depend on the prior status |
| Ledger.RevokedConsentCanBeReaccepted | backend/api.php:268-287 | a revoked consent's recipient can make it active again |
| Ledger.RespondOverwritesStamps | backend/api.php:277-287 | declining after accepting succeeds, clears accepted_at and stamps declined_at |
| Ledger.RevokeDecision | backend/api.php:301-306 | fails 403 exactly when the actor is not the requester; otherwise the status becomes `revoked` and nothing but it and the stamp changes |
| Ledger.RevokeIdempotent | backend/api.php:301-306 | revoking twice succeeds and changes only the update stamp the second time |
| Ledger.FindOwnedConsent | backend/api.php:39-48 | finds a consent with that id and that requester, and nothing only when there is none |
| Ledger.CheckGeofence | backend/api.php:322-332 | a creation is accepted exactly when: consent id, name and radius are present and positive; the coordinates are in range; the consent is the actor's; and it is active. Failures are checked in that order, each with its own message: 422 for a missing field, 422 for bad coordinates, 404 for a consent that is not the actor's, 409 for an owned consent that is not active |
| Ledger.CheckLocation | backend/api.php:369-374 | a report is accepted exactly when the coordinates are in range and any battery level is 0..100; coordinates are checked first |
| Ledger.HistoryLimit | backend/api.php:397-400 | the history limit is always 1..200: a given value in range, else 20 |
| Ledger.ActivityLabel | backend/api.php:367 | definition: the trimmed activity, `unknown` when absent; used by `Backend.Store.RecordLocation` |
| Tracker.RowsForMembers | backend/api.php:52-59 | a consent's rows are exactly its geofences |
| Tracker.JoinRowsMembers | backend/api.php:52-59 | a row is in the join exactly when it pairs an active consent whose recipient is the reporter with one of that consent's geofences |
| Tracker.RowsForOrdered | backend/api.php:52-59 | one consent's rows are ordered by geofence id |
| Tracker.JoinRowsOrdered | backend/api.php:52-59 | the join lists each (consent, geofence) pair once |
| Tracker.FindState | backend/api.php:84-85 | finds the state row of the triple, and nothing only when none exists |
| Tracker.InsideNow | backend/api.php:81-82 | definition: inside iff the distance is at most the radius; properties in `Tracker.BoundaryIsInside` |
| Tracker.AlertMessage | backend/api.php:104-109 | definition of the alert text; used by `Tracker.EvalRow` |
| Tracker.EvalRow | backend/api.php:84-122 | definition of one iteration; properties in `Tracker.FirstObservation`, `Tracker.NoTransition`, `Tracker.Transition`, `Tracker.EvalRowFrame`, `Tracker.EvalRowSets`, `Tracker.EvalRowValid` |
| Tracker.EvalRows | backend/api.php:80-123 | definition of the `foreach`; properties in `Tracker.EvalRowsValid`, `Tracker.EvalRowsReflect`, `Tracker.EvalRowsFrame`, `Tracker.EvalRowsAlerts` |
| Tracker.FirstObservation | backend/api.php:84-97 | the first observation of a triple inserts exactly one state, holding the current inside/outside and this location id, and raises no alert |
| Tracker.NoTransition | backend/api.php:99-122 | an unchanged classification raises no alert and refreshes the state in place |
| Tracker.Transition | backend/api.php:99-122 | on a transition, an alert is appended iff the matching notify flag is set. It is `geofence_enter` iff now inside, and goes to the consent's requester. The state is updated either way |
| Tracker.BoundaryIsInside | backend/api.php:81-82 | a distance equal to the radius counts as inside |
| Tracker.EvalRowFrame | backend/api.php:84-122 | one row changes only its own triple's state |
| Tracker.EvalRowSets | backend/api.php:84-122 | after one row, its triple's state holds this report's classification and location |
| Tracker.EvalRowValid | backend/api.php:84-122 | one row keeps ids fresh and at most one state per triple |
| Tracker.EvalRowsValid | backend/api.php:80-123 | the whole evaluation keeps at most one state per triple and fresh ids, and never lowers the counter |
| Tracker.EvalRowsReflect | backend/api.php:80-123 | after the evaluation, every evaluated triple's state holds this report's classification and location id |
| Tracker.EvalRowsFrame | backend/api.php:80-123 | states of triples not evaluated are unchanged |
| Tracker.EvalRowsAlerts | backend/api.php:80-123 | alerts are only appended, at most one per row, each about the reporter and a row's pair, to that row's requester |
| Tracker.EvaluationScope | backend/api.php:50-124 | only states of the reporter under active consents and their geofences change |
| Tracker.EvaluationAlerts | backend/api.php:50-124 | every new alert goes to the requester of an active consent whose recipient is the reporter, for one of its geofences |
| Feed.Take | backend/api.php:452 | a `LIMIT n` keeps a prefix: all rows when there are at most n, otherwise exactly the first n |
| Feed.AlertsAfter | backend/api.php:452-454 | exactly the caller's alerts with id above the cursor |
| Feed.PollAlerts | backend/api.php:452-454 | at most 200 alerts, all the caller's, all past the cursor; when at most 200 match, every matching alert is returned |
| Feed.AlertsAfterAscending | backend/api.php:452 | the selected alerts are in ascending id order |
| Feed.PollAlertsAscending | backend/api.php:452-454 | the returned alerts are the first min(200, matching) of the whole ascending selection |
| Feed.RowsOfLocation | backend/api.php:456-462 | the rows of a location are exactly those pairing it with an active consent of the requester whose recipient reported it |
| Feed.RowsOfLocationDistinct | backend/api.php:456-462 | with the table's increasing consent ids, each watching consent gives one row, in consent-id order |
| Feed.LocationsAfter | backend/api.php:456-465 | exactly the watched locations past the cursor, each with a consent that makes it visible |
| Feed.PollLocations | backend/api.php:456-465 | at most 500 rows, each a watched location past the cursor; when at most 500 rows match, every matching row is returned |
| Feed.RowIds | backend/api.php:471-474 | the location ids of the returned rows, in order |
| Feed.LocationsAfterAscending | backend/api.php:456-465 | the selected rows are in non-decreasing location-id order |
| Feed.LocationsAfterLexOrdered | backend/api.php:456-465 | with the table's increasing ids, the selection lists each (location, consent) pair once, by location id, then by consent id |
| Feed.PollLocationsAscending | backend/api.php:456-465 | the returned rows are the first min(500, matching) of the whole ascending selection |
| Feed.MaxFrom | backend/api.php:467-474 | the cursor is at least the old one and every returned id, and is the old one or one of them |
| Feed.AdvanceCursor | backend/api.php:467-474 | the loop over the returned ids leaves the cursor at their max with the old cursor |
| Feed.MaxFromEmpty | backend/api.php:467-474 | nothing returned leaves the cursor unchanged |
| Feed.MaxFromAscending | backend/api.php:467-474 | with ascending ids above the old cursor, the cursor is the last id |
| Feed.AlertCursor | backend/api.php:467-470 | the alert cursor never decreases, covers every returned id, stays put on an empty result and is the last returned id |
| Feed.LocationCursor | backend/api.php:471-474 | the location cursor likewise |
| Feed.LimitSplitsLocation | backend/api.php:456-474 | when the limit splits a location's rows, the cursor moves to that location and its remaining rows are past every later poll |
| Backend.Store.RequestConsent | backend/api.php:194-231 | a refused request changes nothing. Otherwise exactly one pending consent is appended, with the next id, bound to the phone's user if any |
| Backend.Store.RespondConsent | backend/api.php:252-290 | 422 for an unknown action, then 404 for an unknown consent, then RespondDecision. On success only that consent is rewritten, whatever its prior status |
| Backend.Store.RevokeConsent | backend/api.php:292-308 | 404 for an unknown consent, then RevokeDecision. On success only that consent is rewritten |
| Backend.Store.CreateGeofence | backend/api.php:311-343 | a refused creation changes nothing. Otherwise exactly one geofence is appended with the next id, for the trimmed name |
| Backend.Store.RecordLocation | backend/api.php:359-392 | a refused report changes nothing. Otherwise one location is appended with the next id, and the states, alerts and counter become the evaluation of that report |
| Backend.Store.EvaluateGeofences | backend/api.php:50-124 | the loop over the join leaves exactly the tables EvalRows describes, and keeps them valid |
| Backend.Store.EvaluateRow | backend/api.php:80-123 | one iteration performs one EvalRow step |
| Backend.Store.Poll | backend/api.php:447-485 | returns the two selections and advances each cursor to the max of the old cursor and the returned ids |
| Frontend.JsNormalizePhone | script.js:689-708 | the browser's normalised phone is always `+` and digits only |
| Frontend.JsNormalizePlus | script.js:691-693 | a `+` prefix gives `+` and exactly the input's digits |
| Frontend.JsNormalizeDoubleZero | script.js:694-696 | a `00` prefix gives `+` and the digits after the zeros |
| Frontend.JsNormalizePakistan | script.js:698-703 | an 11-digit `03` number gives `+92` and its last 10 digits |
| Frontend.JsNormalizeAgreesWithServer | script.js:689-708 | without surrounding whitespace, browser and server normalise alike |
| Frontend.JsNormalizeMissing | script.js:690 | a missing phone gives `+` |
| Frontend.Split | script.js:713 | `split` yields at least one part, none containing the separator |
| Frontend.SplitJoin | script.js:713 | joining the parts gives back the string |
| Frontend.SplitNoSeparator | script.js:713 | a string without the separator is its only part |
| Frontend.SplitAppend | script.js:713 | splitting at a separator splits each side |
| Frontend.SplitOfSeparators | script.js:713-714 | a string of separators splits into empty parts only |
| Frontend.JoinChar | script.js:713 | every character of a part occurs in the joined string |
| Frontend.NonEmpty | script.js:714 | `filter(Boolean)` keeps exactly the non-empty parts |
| Frontend.NonEmptyAppend | script.js:714 | the filter keeps the parts' order: filtering two runs is filtering each in turn |
| Frontend.NonEmptySingle | script.js:714 | an empty part is dropped and a non-empty one kept exactly once |
| Frontend.Initials | script.js:710-718 | at most 2 characters: the upper-cased first letters of the first words, in order; `U` for an empty or missing name |
| Frontend.InitialsOfTwoWords | script.js:710-718 | a two-word name gives both initials, upper-cased |
| Frontend.InitialsOfSpaces | script.js:710-718 | a name of spaces only gives no initials |
| Frontend.Capitalize | script.js:720-722 | empty exactly for empty input; otherwise the first character upper-cased and the rest unchanged |
| Frontend.FormatRelativeTime | script.js:641-652 | under a minute `just now`; then whole minutes under an hour, hours under a day, else days, all floored |
| Frontend.AgoShape | script.js:649-651 | the count is written in decimal, and the unit takes an `s` exactly when the count is not 1 |
| Frontend.OneMinute | script.js:649 | exactly a minute reads `1 minute ago` |
| Frontend.StatusLabel | script.js:205 | `declined` shows as `expired`, a missing or empty status as `pending`, any other as itself |
| Frontend.LatestFor | script.js:247-249 | the last polled location of that consent, and nothing only when none matches |
| Frontend.LatestForAppend | script.js:247-249 | the latest of two batches is the second's if it has one |
| Frontend.MergeConsent | script.js:246-256 | a consent with no polled location is unchanged; otherwise only its last location and stamp change, to those of its latest |
| Frontend.MergeLatest | script.js:246-256 | every consent is merged with its own latest polled location, order kept |
| Frontend.MergeLatestTwice | script.js:246-256 | merging two polls in turn equals merging them at once |
| Frontend.MergeLatestKeeps | script.js:246-256 | ids, names, phones and statuses are never changed by the merge |
| Frontend.FindClientConsent | script.js:261 | the first consent with that id, and nothing only when there is none |
| Frontend.EntriesFor | script.js:260-269 | one history entry per polled location, in order |
| Frontend.LastN | script.js:270-272 | the splice keeps the last 100 entries in their original order |
| Frontend.PushCapped | script.js:566-574 | the simulator pushes one entry and drops the oldest once over 100 |
| Frontend.PushCappedIsLastN | script.js:566-574 | within the cap, the simulator's shift keeps the same entries as the poll's splice |
| Frontend.LastNOfLongTail | script.js:259-272 | a poll bringing 100 or more entries leaves only its own newest 100 |
| Frontend.ClientState.ApplyPoll | script.js:233-279 | the cursor is replaced by the server's when present, else kept. With no locations nothing else changes. Otherwise the consents are merged and the history becomes the last 100 of the old history plus one entry per location |
| Frontend.ClientState.AppendEntries | script.js:259-269 | the loop appends one entry per polled location, in order, and changes neither the consents nor the cursor |
| Frontend.ClientState.RecordSimulatedLocation | script.js:566-575 | the history is pushed and capped at 100, nothing else changes |
| MockApi.FindUserByPhone | database.js:32-35 | the first user with that phone (no earlier user has it), and nothing only when none has it |
| MockApi.FindUserById | database.js:37-40 | the first user with that id (no earlier user has it), and nothing only when none has it |
| MockApi.FindMockConsent | api.js:54 | the first consent with that id, and nothing only when none has it |
| MockApi.Related | api.js:35 | exactly the consents the user requested or that were sent to their phone |
| MockApi.GetConsents | api.js:30-50 | empty for an unknown user; otherwise exactly the consents that concern them, one view per related consent in stored order |
| MockApi.RelatedAppend | api.js:35 | the filter keeps stored order: the related consents of two runs of the table are those of each run, in turn |
| MockApi.ViewNames | api.js:37-47 | each name is the found user's name, and `Unknown` only when no user is found: by id for the requester, by phone for the recipient |
| MockApi.Targets | api.js:79 | exactly the active consents sent to the reporter's phone, never more than there are consents |
| MockApi.TargetsAppend | api.js:79 | the filter keeps stored order: the targets of two runs of the table are those of each run, in turn |
| MockApi.FirstRequested | api.js:83 | the first active consent the reporter requested (no earlier one is both active and theirs), and nothing only when none exists |
| MockApi.LocationsFor | api.js:93-95 | one location per target consent, for the reporter |
| MockApi.MockStore.RecordForTargets | api.js:92-95 | the loop appends one location per target consent, in order, and changes neither users nor consents |
| MockApi.UpdateLocationCoverage | api.js:79-95 | every target consent gets a location, every new location is the reporter's, and no other consent gets one; the exact count is `MockApi.UpdateLocationExactlyOnce` |
| MockApi.UpdateLocationExactlyOnce | api.js:79-95 | with distinct consent ids, each active consent sent to the reporter's phone gets exactly one new location, and every other consent none |
| MockApi.NewLocations | api.js:126-128 | exactly the stored locations past the cursor of a relevant consent, never more than are stored |
| MockApi.NewLocationsAppend | api.js:126-128 | the filter keeps stored order: the new locations of two runs of the table are those of each run, in turn |
| MockApi.ConsentIdsOf | api.js:124 | the ids of the given consents |
| MockApi.MockIds | api.js:134 | the ids of the given locations, in order |
| MockApi.PollUpdates | api.js:118-138 | alerts are always empty and their cursor unchanged. A location is returned exactly when it is stored, past the cursor, and belongs to a consent concerning the user. The location cursor is the last location's id, or unchanged when there is none |
| MockApi.NewLocationsAscending | api.js:126-128 | the filter keeps the stored id order |
| MockApi.MockCursorIsMax | api.js:132-135 | with ids stored in ascending order, the mock's cursor equals the server's max rule |
| MockApi.MockStore.Register | api.js:5-12 | fails on a phone already registered; otherwise appends exactly one user |
| MockApi.MockStore.RespondToConsent | api.js:52-62 | fails when no consent has the id. Otherwise the status becomes `active` iff the action is `accept`, else `declined`, and no other consent changes |
| MockApi.MockStore.RevokeConsent | api.js:64-73 | sets that consent to `revoked`; an unknown id changes nothing |
| MockApi.MockStore.UpdateLocation | api.js:78-99 | with active consents sent to the reporter's phone, one location each. Otherwise one location for the reporter's first active request, recorded for its recipient when registered. With neither, a message and no change |

## Left out

- Great-circle distance (`haversineMeters`): floating-point trigonometry. Distance is a parameter that returns a `real`, and coordinates are `real`, not IEEE doubles.
- SQL execution, transactions and `lastInsertId`: the tables are sequences. One id counter is shared by all tables, where the database keeps one counter per table.
- Concurrency between simultaneous reports: the code uses no locking.
- Clocks: `nowUtc()` and `Date.now()` are opaque parameters. The re-formatting by `new Date(x).toISOString()` is treated as the identity.
- Authentication and sessions: tokens, password hashing, and the login, register and logout routes of backend/api.php. The actor of each handler is a parameter.
- HTTP plumbing: `respond`, `fail`, CORS, the JSON request body and the request dispatch. `(int)`, `(float)` and `(string)` casts of request fields are done by the caller.
- `GET /consents`, `GET /geofences`, `GET /alerts`, and the queries of `/tracking/live` other than its history-limit clamp.
- The SMS and call routes, their providers, and the configuration.
- `parse_url` itself: `RoutePath` takes its result as input.
- Helpers.BoolField: `filter_var`'s boolean parsing is a parameter.
- `getLiveTrackingData`, `login` and `requestConsent` of api.js, and database.js's localStorage serialisation.
- JavaScript's `...locationData` spread: the model does not let the payload override the mock location's `id`, `consent_id` or `user_id`.
- MockApi.UpdateLocationExactlyOnce: assumes distinct consent ids. The mock's ids are `Date.now()` values, which it does not check for uniqueness; two consents created in the same millisecond would share their locations' `consent_id`.
- MockApi.MockStore.UpdateLocation: the model reads the clock once per call, so every location added in one `forEach` gets the same id `now`. The code reads `Date.now()` for each location.
- Browser rendering, notifications, maps, timers, geolocation and `Math.random`.
- Frontend.Initials: only ASCII letters are upper-cased. JavaScript's full Unicode `toUpperCase`, which can lengthen a string, is not modelled. Characters are code points, not UTF-16 code units.
- Frontend.Capitalize: only ASCII letters are upper-cased. JavaScript's `toUpperCase` also maps letters such as `é`, and can turn one character into several (`ß` becomes `SS`); neither is modelled.
- Frontend.FormatRelativeTime takes the elapsed milliseconds as an integer. The date parsing and a `NaN` for an unparseable date are not modelled.
- Frontend.ClientState.ApplyPoll: the alert notifications, and a non-array `locations` in the response, are not modelled.
- Character handling in general: strings are sequences of code points. PHP's byte-wise `trim` and `\D` are modelled on characters. This gives the same digits, because multi-byte characters contain no ASCII digits.
