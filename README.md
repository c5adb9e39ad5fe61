# TinyLink: short-code allocation and the dashboard's submit gate

This project models, in Dafny, the core of TinyLink, a minimal URL shortener:

- **The link-creation handler** (`POST` in `app/api/links/route.js`). It validates
  the destination URL. Then it either trims and checks a custom short code, or
  tries up to five random 6-character codes and takes the first free one. Finally
  it inserts exactly one record. The database is a finite map from code to link
  record.
- **The listing handler** (`GET` in the same file). It returns every record,
  newest `createdAt` first.
- **The dashboard's handlers** (`app/page.js`). `handleSubmit` is a validation gate
  in front of the POST request, followed by the handling of its response.
  `handleDelete` filters the list of links. The page's state fields (`links`,
  `url`, `code`, `loading`, `error`, `success`) are the fields of the class
  `DashboardPage.Dashboard`.

Modules, one per concern:

| file | module | models |
|---|---|---|
| `wrappers.dfy` | `Wrappers` | `Option`, `Result` |
| `js_text.dfy` | `JsText` | JavaScript's white-space set and `String.prototype.trim` |
| `code_format.dfy` | `CodeFormat` | `CODE_REGEX` (`/^[A-Za-z0-9]{6,8}$/`, declared identically in both core files) and the generator's alphabet |
| `links_route.dfy` | `LinksRoute` | `generateCode`, `POST`, `GET` |
| `dashboard.dfy` | `DashboardPage` | `handleSubmit`, `handleDelete`, `loadLinks` and the page state |

How the environment is abstracted:

- **Randomness.** Each random draw of a character becomes an entry of an oracle: a sequence
  of indices into the alphabet. `GenerateCode` consumes `length` of them and
  returns the rest. `POST` is given at least 30 valid indices (five attempts of
  six characters each), because `Math.random` never runs out.
- **URL parsing.** `new URL(...)` (used by `isValidUrl` on the server and by the
  page's own check) is a total predicate `isValidUrl: string -> bool`, passed in
  as a parameter. The page and the server receive the same predicate, so the
  model assumes that the browser's URL parser and the server's agree.
  `DashboardPage.GatePreventsServerValidationErrors` rests on that assumption.
- **Store-assigned values.** The record's `id` and the creation time `now` are
  parameters, as the store would assign them. A new record has `clicks = 0`,
  `lastClickedAt = None` and `createdAt = updatedAt = now`.
- **The request body.** Each of `url` and `code` is a `JsValue`:
  `Undefined | Str(s) | NonString(truthy)`. JavaScript truthiness is modelled
  exactly. So `code: ""` falls through to auto-generation, and so does a truthy
  non-string code.
- **Truthy non-string code after five collisions.** In that case `code` is never
  reset, so the guard at route.js:92 does not fire. `prisma.link.create` then
  receives a non-string code. The model takes it that the store rejects that
  value, so the catch-all answers 500 "Internal server error" and nothing is
  inserted. Prisma's type checking is not part of this model; that outcome is
  an assumption.
- **Server responses.** For the dashboard they are inputs of type `FetchResult`:
  a thrown network error, or a status plus a body of type `ReplyJson`. The body
  is either not JSON at all, or the JSON value `null`, or some other JSON value
  whose `error` string reads as "" when absent and whose `code` is `None` when
  absent. An absent `code` prints as "undefined" in the success message. Whether the reload (`loadLinks`) succeeded, what `confirm` answered and
  whether the DELETE request succeeded are inputs too.
- **The submit handler's two halves.** `handleSubmit` suspends at `await fetch`,
  so it is split at that point. `Dashboard.HandleSubmit` runs the gate and sets
  `loading`. `Dashboard.CompleteSubmit` handles the response and clears
  `loading`. The class invariant `Valid()` says two things: no message is shown
  while a request is in flight, and the error and success messages are never
  both shown.

Behaviours of the code worth knowing:

- Creation with an omitted code can fail. When all five candidates are taken,
  the handler answers 500 "Failed to generate code" (route.js:92-97;
  `LinksRoute.PostGeneratedCode`).
- A truthy non-string `code` does not get that answer. It reaches the catch-all
  500 "Internal server error" instead (route.js:105-111; see above).
- The dashboard checks the code without trimming it, while the server trims it
  first. For example, `" abc123"` is refused by the page
  (`DashboardPage.GateDoesNotTrimCode`), although the server would accept it
  as `"abc123"` (`DashboardPage.PaddedCodeTrimsToValid`).

## Model

| member | source | states |
|---|---|---|
| `CodeFormat.MatchesCodeRegex` | app/api/links/route.js:3 | `CODE_REGEX` (declared the same way at app/page.js:7) matches exactly the strings of 6 to 8 characters, each one a character of the generator's alphabet |
| `JsText.Trim` | app/api/links/route.js:61 | `trim` returns a slice of its input with only white space cut from each end, and the result neither starts nor ends with white space |
| `JsText.TrimEmptyIffAllWhiteSpace` | app/page.js:43 | `url.trim()` is empty exactly when every character of the URL is white space |
| `CodeFormat.AlphabetIsCharClass` | app/api/links/route.js:7 | the generator's 62-character alphabet is exactly the regex's class `[A-Za-z0-9]`, with no character repeated |
| `CodeFormat.RegexMatchIsTrimmed` | app/api/links/route.js:61-62 | a code that matches `CODE_REGEX` is unchanged by `trim` |
| `LinksRoute.GenerateCode` | app/api/links/route.js:6-13 | the loop yields exactly `length` characters, the `i`-th being the alphabet character the `i`-th oracle index names, all alphanumeric; the unused oracle is returned |
| `LinksRoute.DrawnIsAlphanumeric` | app/api/links/route.js:8-12 | a drawn code has the requested length and only alphanumeric characters; at lengths 6 to 8 it matches `CODE_REGEX` |
| `LinksRoute.CandidateMatchesRegex` | app/api/links/route.js:83 | every candidate of `generateCode(6)` matches `CODE_REGEX` |
| `LinksRoute.FirstFreeAttempt` | app/api/links/route.js:82-91 | the retry loop picks the first attempt (fewer than 5) whose candidate is absent from the store, all earlier candidates being present; there is none exactly when all five are present |
| `LinksRoute.Truthy` | app/api/links/route.js:45 | a body field is falsy exactly when it is `undefined`, the empty string or a falsy non-string, as the tests at route.js:45, 60 and 92 treat it |
| `LinksRoute.PostOutcome` | app/api/links/route.js:40-111 | the handler's decision answers 201, 400, 409 or 500. It answers 201 exactly when the payload is a record. Any other status leaves the store unchanged and carries a non-empty message. No existing record is removed or altered |
| `LinksRoute.Post` | app/api/links/route.js:40-104 | the handler, with its URL checks, trim, regex, conflict check, early-breaking bounded retry loop and single insert, produces exactly the reply and new store of the decision procedure `PostOutcome` |
| `LinksRoute.PostRejectsBadUrl` | app/api/links/route.js:45-57 | a missing, empty or non-string URL gives 400 "URL is required"; an unparseable one gives 400 "Invalid URL"; the store is unchanged in both cases |
| `LinksRoute.PostCustomCode` | app/api/links/route.js:60-79 | a non-empty string code is trimmed first. The result is 400 if and only if the trimmed code fails the regex, 409 if and only if it is well formed and taken, and 201 if and only if it is well formed and free. On 201 the record is inserted under exactly the trimmed code with the given URL; on 400 or 409 the store is unchanged |
| `LinksRoute.PostGeneratedCode` | app/api/links/route.js:80-98 | without a non-empty string code, a 201 inserts the candidate of the first free attempt, which is 6 characters long and matches the regex. The result is not 201 if and only if all five candidates are taken; it is then 500 with "Failed to generate code", or the catch-all error for a truthy non-string code, and the store is unchanged |
| `LinksRoute.PostAddsAtMostOneRecord` | app/api/links/route.js:100-104 | every status is 201, 400, 409 or 500. On 201 exactly one record is added, under a well-formed code that was free, with the request's URL, zero clicks and the current time, and no other record changes. Otherwise the store is unchanged and the reply carries a non-empty message |
| `LinksRoute.PostPreservesValidStore` | app/api/links/route.js:100-102 | if every record is filed under its own well-formed code (so codes are unique) before a POST, that stays true after it |
| `LinksRoute.RepeatedCustomCodeConflicts` | app/api/links/route.js:69-79 | repeating a successful custom-code creation gives 409 "Code already exists" and changes nothing |
| `LinksRoute.ListLinks` | app/api/links/route.js:27-29 | the listing has one entry per record of the store, contains every record and nothing else, and is ordered by `createdAt`, newest first. In a valid store no two entries share a code, so the listing is a permutation of the records |
| `LinksRoute.Get` | app/api/links/route.js:25-30 | GET answers 200 with a list of records. The list has one entry per stored record, contains every stored record and nothing else, and is ordered newest `createdAt` first |
| `LinksRoute.CreatedLinkListedFirst` | app/api/links/route.js:27-29 | a link created later than every existing one heads the listing after the POST |
| `DashboardPage.CheckSubmission` | app/page.js:43-59 | a form that passes the gate keeps its URL as typed, and that URL has a non-white-space character and parses. A code that is sent is the typed code and matches the regex. A refusal carries one of the gate's three messages |
| `DashboardPage.GateAdmitsExactlyWellFormedForms` | app/page.js:43-66 | the gate lets a form through if and only if the URL has a non-white-space character and parses, and the untrimmed code is empty or matches the regex. It then sends the URL as typed, with the code, or with no code when the code is empty. Otherwise the error is that of the first failed check |
| `DashboardPage.GateDoesNotTrimCode` | app/page.js:56-59 | the code is checked untrimmed: `" abc123"` is refused with "Code must be 6–8 letters or numbers" |
| `DashboardPage.PaddedCodeTrimsToValid` | app/api/links/route.js:61-62 | the server would trim `" abc123"` to the well-formed `"abc123"` |
| `DashboardPage.GatePreventsServerValidationErrors` | app/page.js:56-66 | for any store and oracle, a form the gate lets through never gets a 400 from the POST handler |
| `DashboardPage.RequestBody` | app/page.js:66 | the JSON body the page sends, as the server destructures it (route.js:43). Its `url` is a truthy string exactly when the typed URL is non-empty. Its `code` is a truthy string exactly when a non-empty code is sent, and is falsy otherwise |
| `DashboardPage.ResponseEffect` | app/page.js:69-84 | every error shown is non-empty. The page reports a created link exactly when the response is 2xx and its body is JSON other than `null` |
| `DashboardPage.ResponseEffectCases` | app/page.js:69-80 | a 409 whose body is JSON other than `null` shows the body's error message, or "Code already exists" when it has none. Any other failure status shows the body's message or "Failed to create link". A 2xx JSON body other than `null` that has no `code`, whatever its `error`, is announced as "Created short link undefined" |
| `DashboardPage.PostReplyShownFaithfully` | app/page.js:69-80 | whatever the POST handler answers, the page shows the stored code on 201 and the server's own message otherwise |
| `DashboardPage.WithoutCode` | app/page.js:98 | a successful delete removes every link with the deleted code and keeps every other link with its multiplicity |
| `DashboardPage.WithoutCodeKeepsOrder` | app/page.js:98 | the links that remain keep their original order |
| `DashboardPage.WithoutAbsentCode` | app/page.js:98 | deleting a code no listed link has leaves the list unchanged |
| `DashboardPage.Dashboard.constructor` | app/page.js:10-15 | the initial state has no links, empty form fields and messages, and `loading` false |
| `DashboardPage.Dashboard.LoadLinks` | app/page.js:20-32 | a successful reload replaces `links`; a failed one leaves it unchanged |
| `DashboardPage.Dashboard.HandleSubmit` | app/page.js:38-61 | both messages are cleared first. A refused form shows the gate's error, sends nothing and leaves `loading` false. An accepted one sets `loading` and returns the request. The form fields and links are unchanged |
| `DashboardPage.Dashboard.CompleteSubmit` | app/page.js:62-87 | `loading` is false afterwards on every path. An error response keeps `url`, `code` and `links` and shows its message. A success shows "Created short link " plus the code, clears `url` and `code`, and reloads `links` |
| `DashboardPage.Dashboard.HandleDelete` | app/page.js:90-102 | with no confirmation nothing is sent. A confirmed, acknowledged delete filters out the code. A failed delete leaves `links` unchanged |

## Left out

- Rendering, styling, the `baseUrl` environment variable and date formatting in `app/page.js` are presentation only.
- `app/CopyButton.js` is not part of this model: it is clipboard access and a timer.
- The redirect page, the stats page and the DELETE route (`app/[code]/page.js`, `app/code/[code]/page.js`, `app/api/links/[code]/route.js`) are not part of this model. The dashboard's delete handler takes the DELETE route's success as an input.
- The database (`lib/prisma`) and its schema are not part of this model. The store is a map, and `id` and the timestamps are parameters.
- Storage failures and a request body that is not JSON, or is the JSON value `null`, end in the catch-all 500 (route.js:105-111). They are not modelled, except for the rejected non-string code described above. A JSON value that is not an object (a number, string, boolean or array), or an object without a `url` field, destructures to an undefined `url`. It gets 400 "URL is required", which the model covers as a `CreateBody` whose `url` is `Undefined`.
- The check-then-insert race between concurrent creations is concurrency, not sequential logic. Each call is modelled as atomic.
- `fetch`, JSON parsing, `console.error`, `alert` and `confirm` are inputs or are omitted.
- A response body whose `error` or `code` field is not a string is not modelled: `ReplyJson.Fields` holds an `error` string ("" when absent) and an optional `code` string.
- `Math.random` floating-point arithmetic is replaced by the index oracle.
- `new URL` parsing semantics are replaced by the opaque predicate `isValidUrl`.
- JavaScript strings are UTF-16 code units, but the model's characters are Unicode scalar values. The two views agree on `trim` and `CODE_REGEX` for the following reason. Every character `trim` removes is in the Basic Multilingual Plane, and so is every character the class `[A-Za-z0-9]` accepts. Half of a surrogate pair is neither white space nor alphanumeric.
- A lone surrogate is not modelled. A JavaScript string can hold one, but a Dafny `char` cannot.
- LinksRoute.Post: the oracle must supply 30 indices up front, although the handler consumes only 6 per attempt made.
- LinksRoute.ListLinks: records with equal `createdAt` may come in any order, as the query leaves their order open. The model states the ordering, not one particular tie-break.
- DashboardPage.Dashboard.HandleSubmit: requires that no request is in flight, because the submit button is disabled while `loading` (app/page.js:174).
