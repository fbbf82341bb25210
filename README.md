# Reader server core: record store, access gate and history ledger

This project models the server side of a feed-reader web app in Dafny and
proves properties of that model. The app has one key-value store:

- user records live under `user:{email}`;
- generated summaries live under `history:{email}:{epochMillis}`.

Every API route and the sign-in layer is a short read-check-write over that
store. The model has these modules:

- `Text`: the string operations the handlers rely on: `split` on one character and its inverse `join`, and the decimal rendering of numbers used in keys and rendered windows.
- `KV`: the store and its values.
  - `Value` is `Str | Bool | Int | Null`, where `Null` stands for both `null` and `undefined`.
  - A record is a `map<string, Value>` and the store is a map from keys to records.
  - `Merge` is the effect of `hset`: a field merge that creates the hash when it is missing.
  - `Present` is the handlers' test "the hash exists and has at least one field".
  - The class `Store` holds the store's contents in `var data` and has `HGetAll`, `HSet` and `Keys`.
  - `Keys` gives an answer to `keys(prefix*)`: every matching key once, in an order the store chooses.
- `Access`: the three statuses `waitlist`, `active` and `disabled`, and the predicates relating two stores.
- `Http`: replies (a status code and a JSON body), the session principal (`Option<string>`, the session email) and the trusted-domain admin test.
- `Listing`: the newest-first order on `createdAt` shared by both listings.
- One module per route or layer:
  - `Waitlist`, for `POST /api/waitlist`;
  - `AdminUsers`, for the admin `GET` and `PATCH`;
  - `UserSettings`;
  - `UserHistory`;
  - `GenerateContent`;
  - `Auth`, for the `signIn` and `session` callbacks;
  - `Middleware`, the page routing guard.
- `Lifecycle`: how the handlers fit together.
  - A store invariant that every request keeps.
  - Only an admin's status change can grant or revoke sign-in.
  - The three admin checks are the same test.
  - Round trips across handlers: signup then sign-in, activate then sign-in, connect then generate, generate then list.

Each handler that writes has two parts:

- A function `XSpec(db, …)` that gives the reply and the new store. Its `ensures` clauses state the per-request promises: which status code answers which input, that the store is unchanged on every error path, and exactly which fields a successful write merges.
- An imperative method that takes the `Store` and does what the route does, step by step, with the same guards in the same order. It is proved to produce `XSpec(old(kv.data), …)`.

The two listing `GET`s are methods with the route's loop over the scanned keys. They are proved to return a newest-first permutation of the non-empty hashes under the prefix.

Inputs are modelled as follows:

- Request fields whose JavaScript type matters are `Value`s: the settings `PATCH` fields and the generated `feedTimeWindow`, which is stored as sent.
- Other request fields are strings, where `""` stands for a missing or falsy field.
- Clock readings are a `now` parameter.
- The content templates are a `Templates` parameter: the quick template's text around the interpolated window, and the two fixed texts.

Behaviours of the code a reader might not expect, which the model follows:

- An admin may set any status from any status, including back to `waitlist` and to the status the account already has.
- A settings `PATCH` for a signed-in email with no record creates a record without a `status`. So records are not created only by signup.
- Generation accepts any truthy `blueskyConnected`, not only `true`. `Lifecycle.ConnectionViewsAgree` shows that this agrees with the settings page while every stored flag is a boolean. That every handler keeps every flag boolean is part of the `Consistent` invariant that `Lifecycle.JoinKeeps`, `Lifecycle.SetStatusKeeps`, `Lifecycle.PatchSettingsKeeps`, `Lifecycle.ToggleKeeps`, `Lifecycle.GenerateKeeps` and `Lifecycle.SignInKeeps` prove.
- `wordCount` splits on the single character `' '`, not on whitespace in general.
- Toggling a favourite twice restores the flag's truth value. It restores the exact stored value only when the flag was a boolean or the key is absent: a missing flag becomes `false`.

## Model

| member | source | states |
|---|---|---|
| KV.Merge | src/app/api/waitlist/route.ts:37-45 | `hset`: the key set grows by the written key only, every other key keeps its hash, written fields take the new values and unwritten fields keep the old ones, so the merged hash has exactly the old fields plus the written ones, a stored `null` included (a missing hash is created) |
| KV.UserKey | src/app/api/waitlist/route.ts:13 | a user key is never empty and starts with `u` (so it is never a history key) |
| KV.HistoryKey | src/app/api/generate-content/route.ts:93 | a history key starts with its owner's prefix `history:{email}:` |
| KV.HistoryKeyInjective | src/app/api/generate-content/route.ts:93 | one owner's keys at two different milliseconds differ |
| KV.HistoryKeyNotUserKey | src/app/api/generate-content/route.ts:93-106 | a history key is never a user key and never starts with `user:`, so the two writes of a generation touch different hashes and the admin scan never lists history |
| KV.HistoryKeyOwner | src/app/api/user/history/route.ts:15 | for emails without a colon, a history key lies under the prefix of another email exactly when the two emails are equal, so each user's scan finds only their own entries |
| KV.ColonEmailsShareHistory | src/app/api/user/history/route.ts:15 | with a colon in an email, another email's history keys lie under its prefix: the entries of `a:b` match the scan of `a` |
| KV.Store.HGetAll | src/app/api/admin/users/route.ts:58 | `hgetall` answers the stored hash when the key is present and `null` otherwise, and changes nothing |
| KV.Store.HSet | src/app/api/admin/users/route.ts:65-69 | the new contents are the old contents with the fields merged in |
| KV.Store.Keys | src/app/api/admin/users/route.ts:15 | `keys(prefix*)`: every stored key with the prefix, each exactly once, and no other key |
| Http.AdminIsSignedIn | src/app/api/admin/users/route.ts:10 | a session that passes the admin suffix test has a non-empty email |
| Listing.Insert | src/app/api/admin/users/route.ts:26-30 | inserting into a newest-first list keeps it newest-first and adds exactly the one record |
| Listing.SortNewestFirst | src/app/api/user/history/route.ts:29-33 | the sorted list is newest-first by `createdAt` and is a permutation of its input |
| Listing.NewestIsFirst | src/app/api/user/history/route.ts:29-33 | a record strictly newer than all others comes first in any newest-first list |
| Waitlist.ExistingMessage | src/app/api/waitlist/route.ts:16-33 | a repeat signup has an already-exists message exactly when the stored status is one of the three names |
| Waitlist.JoinSpec | src/app/api/waitlist/route.ts:4-54 | 400 exactly for an empty email or one without `@`, with no write; already exists (200, status-specific message, no write) exactly when a non-empty record has a known status; otherwise the seven signup fields are merged and the reply is the success message; no key other than `user:{email}` ever changes |
| Waitlist.Join | src/app/api/waitlist/route.ts:4-54 | the handler's reply and new store are those of `JoinSpec` |
| Waitlist.JoinTwice | src/app/api/waitlist/route.ts:15-45 | a second signup leaves the store as the first left it (so `createdAt` keeps the first time) and answers already exists |
| Waitlist.JoinNew | src/app/api/waitlist/route.ts:37-45 | a first signup stores exactly the fresh record, with status `waitlist` |
| Waitlist.JoinResetsUnknownStatus | src/app/api/waitlist/route.ts:15-45 | a record whose status is none of the three falls through: status becomes `waitlist`, `createdAt` becomes `now`, fields outside the signup fields survive |
| AdminUsers.PresentRecords | src/app/api/admin/users/route.ts:18-23 | no more records are collected than keys were scanned |
| AdminUsers.PresentRecordsMembers | src/app/api/admin/users/route.ts:18-23 | a record is collected exactly when some scanned key holds it as a non-empty hash |
| AdminUsers.ListUsers | src/app/api/admin/users/route.ts:6-32 | 403 for a non-admin session; otherwise 200 with a newest-first permutation of the non-empty hashes at some complete scan of `user:` keys |
| AdminUsers.ListedUsers | src/app/api/admin/users/route.ts:15-30 | whatever the scan order, the listing holds exactly the non-empty records stored under `user:` keys |
| AdminUsers.SetStatusSpec | src/app/api/admin/users/route.ts:39-71 | 403 for a non-admin; 400 for a missing email or status; 400 for an unknown status; 404 for an absent or empty target; 200 exactly when all checks pass, and then `status`, `updatedAt` and `updatedBy` are merged; no write on any non-200 reply |
| AdminUsers.SetStatus | src/app/api/admin/users/route.ts:39-71 | the handler's reply and new store are those of `SetStatusSpec` |
| AdminUsers.InvalidStatusIgnoresStore | src/app/api/admin/users/route.ts:53-62 | an unknown status is refused (400 or 403) with the same reply whatever the store holds, since the check runs before the lookup |
| AdminUsers.AnyTransition | src/app/api/admin/users/route.ts:53-69 | every move between the three statuses is open to an admin and keeps every other field and every key |
| UserSettings.Project | src/app/api/user/settings/route.ts:20-27 | email as stored; a falsy window shows as `4hours` and a truthy one as stored; connected exactly when the stored flag is `true` or `"true"`; a truthy refresh time as stored and a falsy one as `null` |
| UserSettings.GetSettings | src/app/api/user/settings/route.ts:6-27 | 401 exactly without a session email, with the `Unauthorized` body; 404 exactly for an absent or empty record, with the `User not found` error; 200 for a signed-in user with a record, and then the body is the projection |
| UserSettings.Accepted | src/app/api/user/settings/route.ts:44-52 | the update holds `feedTimeWindow` exactly when it is one of the four windows and `blueskyConnected` exactly when it is a boolean, with the sent values and no other field |
| UserSettings.PatchSettingsSpec | src/app/api/user/settings/route.ts:34-62 | 401 without a session, 400 with no write when no field is valid; 200 exactly otherwise, merging the accepted fields and `updatedAt`, with no existence check |
| UserSettings.PatchSettings | src/app/api/user/settings/route.ts:34-62 | the handler's reply and new store are those of `PatchSettingsSpec` |
| UserSettings.PatchThenGet | src/app/api/user/settings/route.ts:6-62 | after a successful `PATCH`, `GET` answers 200 and shows each accepted field as written and every other setting as before |
| UserHistory.AsEntry | src/app/api/user/history/route.ts:21-24 | a listed entry's `id` is its key when the hash has no `id` field, and the stored `id` when it has one (the spread wins); all other fields are the hash's; the entry has exactly the hash's fields plus `id`, and every stored field keeps its stored value |
| UserHistory.Entries | src/app/api/user/history/route.ts:18-26 | no more entries are collected than keys were scanned |
| UserHistory.EntriesMembers | src/app/api/user/history/route.ts:18-26 | an entry is collected exactly when some scanned key holds a non-empty hash it is built from |
| UserHistory.ListHistory | src/app/api/user/history/route.ts:6-35 | 401 without a session; otherwise 200 with a newest-first permutation of the entries at some complete scan of `history:{email}:` |
| UserHistory.ListedHistory | src/app/api/user/history/route.ts:15-33 | whatever the scan order, the listing holds exactly the non-empty hashes under the user's prefix, each tagged with its key |
| UserHistory.ToggleSpec | src/app/api/user/history/route.ts:42-61 | 401 without a session, 200 otherwise; an absent id or another action writes nothing; on a present id `favorited` becomes the negated truth value, the hash keeps exactly its old fields (plus `favorited`) with their old values, and no other key changes |
| UserHistory.Toggle | src/app/api/user/history/route.ts:42-61 | the handler's reply and new store are those of `ToggleSpec` |
| UserHistory.ToggleTwice | src/app/api/user/history/route.ts:52-58 | toggling twice restores the flag's truth value and every other key, and the whole store when the flag was a boolean or the id absent |
| UserHistory.ToggleIgnoresCaller | src/app/api/user/history/route.ts:52-58 | the caller's identity plays no part: any signed-in user toggles any key alike |
| GenerateContent.ParseType | src/app/api/generate-content/route.ts:16-18 | a type is accepted only under its own name |
| GenerateContent.ParseTypeName | src/app/api/generate-content/route.ts:16-18 | each of the three names is accepted |
| GenerateContent.Render | src/app/api/generate-content/route.ts:29 | a string window is interpolated as the string itself; any other window renders as a non-empty text |
| GenerateContent.Template | src/app/api/generate-content/route.ts:28-90 | the quick content is the heading text, then the rendered window, then the body text, with nothing else; the other two contents are their fixed texts |
| GenerateContent.TemplateIgnoresWindow | src/app/api/generate-content/route.ts:28-90 | the `whats-going-on` and `deep-dive` contents do not depend on the window |
| GenerateContent.QuickTemplateShowsWindow | src/app/api/generate-content/route.ts:29 | two quick contents are equal only if the two windows render the same |
| Text.Split | src/app/api/generate-content/route.ts:99 | `split(" ")` gives one piece more than there are separators, and no piece holds a separator |
| Text.JoinSplit | src/app/api/generate-content/route.ts:99 | joining the pieces of a split with the separator gives back the input, so splitting loses nothing |
| Text.NatToString | src/app/api/generate-content/route.ts:93 | the decimal text of `Date.now()` in a history key is non-empty and all digits, with at least two digits from ten on |
| Text.NatToStringInjective | src/app/api/generate-content/route.ts:93 | two different milliseconds render as two different texts |
| GenerateContent.WordCount | src/app/api/generate-content/route.ts:99 | the word count is one more than the number of spaces, so at least one |
| GenerateContent.ReadingTime | src/app/api/generate-content/route.ts:100 | reading time is the least number of minutes whose 200 words a minute cover the words |
| GenerateContent.GenerateSpec | src/app/api/generate-content/route.ts:6-108 | 401 without a session, 400 for an unknown type, 400 when the stored connection flag is falsy, all with no write; 200 exactly otherwise, with the template as content, one new key `history:{email}:{now}` holding the entry fields, and the user's record keeping exactly its old fields, with their old values, except `lastFeedRefresh`, which is added or set to `now` |
| GenerateContent.Generate | src/app/api/generate-content/route.ts:6-108 | the handler's reply and new store are those of `GenerateSpec` |
| GenerateContent.GeneratedEntry | src/app/api/generate-content/route.ts:93-101 | a first entry holds exactly its six fields, with a word count of at least one, the reading time its ceiling over 200, `createdAt = now` and no `favorited` |
| Auth.SignInSpec | src/lib/auth.ts:13-41 | sign-in is allowed exactly for a non-empty email, no store failure and a stored status of exactly `active`; a denial writes nothing; an allowance merges only `lastLogin` |
| Auth.SignIn | src/lib/auth.ts:13-41 | the callback's answer and new store are those of `SignInSpec` |
| Auth.SignInKeepsAccess | src/lib/auth.ts:25-37 | signing in keeps the account active, so the next attempt is allowed too |
| Auth.Session | src/lib/auth.ts:43-48 | with an email, `isAdmin` is set, and true exactly for the trusted domain; without one the session is returned as it came |
| Auth.SessionIdempotent | src/lib/auth.ts:43-48 | running the callback twice gives what running it once gives |
| Auth.SessionFlagIsAdminGate | src/lib/auth.ts:44-47 | on a fresh session the flag is true exactly when the admin API would admit the email |
| Middleware.Route | middleware.ts:5-28 | redirect to sign-in exactly for a `/reader` or `/admin` path without a token; redirect home exactly for an `/admin` path whose token email is not of the trusted domain; pass through exactly otherwise |
| Middleware.Guard | middleware.ts:30-32 | only a matched path can be redirected; a matched path without a token goes to sign-in; with a token it passes exactly on a `/reader` path or on an `/admin` path whose token email is of the trusted domain, and any other token is sent to the home page |
| Middleware.MatchedIsGuarded | middleware.ts:9-32 | every matched path starts with exactly one of the two guarded prefixes, so a matched path without a token is sent to sign-in |
| Middleware.AdminPageGate | middleware.ts:17-24 | an admin page is shown exactly to a token whose email passes the admin test |
| Lifecycle.MergeConsistent | src/app/api/waitlist/route.ts:37-45 | a non-empty merge with a known status and a boolean flag (when it writes them) keeps the store invariant |
| Lifecycle.MergeKeepsStatuses | src/app/api/user/history/route.ts:55-57 | a merge that writes no status keeps every status and removes no key |
| Lifecycle.JoinKeeps | src/app/api/waitlist/route.ts:4-54 | signup keeps the invariant (known statuses, no empty hash, boolean flags) and grants no sign-in |
| Lifecycle.SetStatusKeeps | src/app/api/admin/users/route.ts:39-71 | a status change keeps the invariant |
| Lifecycle.PatchSettingsKeeps | src/app/api/user/settings/route.ts:34-62 | a settings update keeps the invariant and every status |
| Lifecycle.ToggleKeeps | src/app/api/user/history/route.ts:42-61 | a toggle keeps the invariant and every status, even on a user key |
| Lifecycle.GenerateKeeps | src/app/api/generate-content/route.ts:6-108 | a generation keeps the invariant and every status |
| Lifecycle.SignInKeeps | src/lib/auth.ts:13-41 | a sign-in keeps the invariant and every status |
| Lifecycle.KeptStatusesGrantNothing | src/lib/auth.ts:25-30 | across a request that keeps the statuses, an account can sign in afterwards exactly when it could before |
| Lifecycle.SignupCannotSignIn | src/app/api/waitlist/route.ts:37-45 | a signup never lets an inactive account sign in |
| Lifecycle.StatusChangeDecidesSignIn | src/app/api/admin/users/route.ts:65-69 | after an admin sets an existing account's status, it can sign in exactly when the status is `active` |
| Lifecycle.AdminGatesAgree | src/app/api/admin/users/route.ts:43-45 | the admin API's 403, the `/admin` page guard and the session flag admit exactly the same emails |
| Lifecycle.ConnectionViewsAgree | src/app/api/user/settings/route.ts:24 | when every stored flag is a boolean, the settings page shows connected exactly when generation sees a connected account |
| Lifecycle.ConnectThenGenerate | src/app/api/generate-content/route.ts:21-25 | after a settings `PATCH` that connects the account, generation of any valid type succeeds |
| Lifecycle.SignupCannotGenerate | src/app/api/generate-content/route.ts:21-25 | a fresh signup is not connected, so generation of any valid type with any window answers 400 |
| Lifecycle.GeneratedIsListed | src/app/api/user/history/route.ts:15-26 | the new history key is scanned for its owner and for no other colon-free email, and the entry appears in its owner's listing |
| Lifecycle.OthersOlder | src/app/api/user/history/route.ts:18-33 | in a listing of a scan, every entry other than the one at a given key comes from a stored hash with an older `createdAt` when all such hashes are older |
| Lifecycle.GeneratedIsNewest | src/app/api/user/history/route.ts:29-33 | after a generation newer than all the owner's entries, the owner's newest-first listing is non-empty and starts with the new entry |

## Left out

- JSON request parsing, and request fields of the wrong JavaScript type where only truthiness matters. The model takes the parsed fields as parameters.
- The 500 catch-all paths of the routes. The store is not modelled as failing there. The sign-in callback's store failure is modelled as the `storeError` parameter: a failed read denies sign-in with no write.
- A store failure between the two writes of a generation, or during the `lastLogin` write, is not modelled.
- Dates: `createdAt`, `updatedAt`, `lastLogin` and `lastFeedRefresh` are stored as the integer `now` in place of ISO strings. The three clock readings in one generation request are one `now`.
- GenerateContent.Render: renders `Null` as `undefined`, since `Null` stands for both a missing field and JSON `null`. A request that sends `"feedTimeWindow": null` gets `(null)` in the source's quick heading and `(undefined)` in `GenerateContent.GenerateSpec`'s content. The app's own client always sends a string window. A number window renders through `Text.IntToString`, while JavaScript writes integers of magnitude 1e21 and up in exponent form, so the two texts differ there; `Value` has no non-integer numbers, so a fractional window is not modelled.
- Listing.CreatedAt: sorts a record with no integer `createdAt` as 0. The source compares `NaN` there, which leaves the engine's order unspecified.
- Listing.SortNewestFirst: the engine's sort is modelled as a stable insertion sort on a value copy of the collected list, not as an in-place sort. The order of entries with equal `createdAt` is the store's scan order, which the model leaves open.
- The literal template texts: they are a `Templates` parameter rather than constants, so no property depends on their wording. The source's non-empty content depends on that wording and is not proved.
- Glob metacharacters (`*`, `?`, `[`) in an email used in a `keys` pattern. The model treats the pattern as a plain prefix.
- The NextAuth, Google provider and JWT machinery. The session and the token are inputs, and the `jwt` callback returns its token unchanged, so it is not modelled separately.
- KV.HistoryKeyOwner: holds only for emails without a colon. Session emails come from Google accounts, whose addresses contain no colon. `KV.ColonEmailsShareHistory` shows what a colon would do: the scan of one email would also list the other's entries.
- Logging with `console.log` and `console.error`.
- Concurrent requests and races between handlers. The model runs one request at a time.
- GenerateContent.GenerateSpec: two generations by one user in the same millisecond merge into one history hash. The model states this (the entry is merged over whatever the key held) but proves nothing special about it.
- The React components and the sign-in and error pages are not part of this model.
