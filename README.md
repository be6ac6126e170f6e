# bee-doo customer portal — core logic in Dafny

This project models the four pieces of the bee-doo solar-installation portal
that hold logic of their own, and proves properties of each:

- **WhatsApp notification dispatcher** (`whatsapp.dfy`, module `WhatsApp`).
  It formats the recipient address: an address with the `whatsapp:` prefix is
  kept, a `+` number only gains the prefix, and any other number gains
  `whatsapp:+49` after losing its leading zero, if it has one. It picks a template from
  the milestone key or trigger, falling back to *commissioning*. It turns the
  messaging provider's reply into a sid or an error text and records one
  consistent log row per send attempt. The single-customer POST runs a
  validation ladder (400, then 404, then 502 or 200). The daily
  appointment-reminder sweep is guarded by the cron secret. The notification
  log and the provider outbox are the `seq` fields of the class
  `NotificationService`. Its methods `Post` and `RemindTomorrow` are proved
  against the functions `Dispatch` and `ReminderRows`.
- **Review cache and tier selector** (`reviews.dfy`, module `Reviews`). A
  request is answered by the first of four tiers that applies:
  1. fresh cached rows, meaning cached within 24 hours;
  2. the six sample reviews, when provider credentials are missing;
  3. the live provider fetch, whose mapped rows are upserted by id;
  4. the cache without the freshness window, when the fetch failed.

  The cache query (filter, newest first, limit) is specified by what every
  answer must satisfy. The table write is the class `ReviewStore`, whose
  method `CacheBatch` performs the upsert. The `stars` request parameter is
  proved to round-trip.
- **Route guard** (`route_guard.dfy`, module `RouteGuard`). A signed-out user on
  a portal path is redirected to `/login`, and a signed-in user on `/login` is
  redirected to `/portal`. The path matcher restricts which paths reach the
  guard. Neither the guard nor the deployed matcher can redirect in a loop.
- **Portal view derivations** (`portal_view.dfy`, module `PortalView`). These
  are:
  - the done count, the first active milestone and the rounded progress
    percentage;
  - review and reply excerpts (200 and 130 characters, followed by `…`);
  - star highlighting;
  - the milestone note and date-line rules.

`wrappers.dfy` holds `Option` and JavaScript truthiness: a missing value and
`""` are both false. `domain.dfy` holds the milestone and project status
enumerations.

Time is an integer count of milliseconds. Every answer from the database, the
messaging provider or the review provider is a parameter.

Two behaviours of the review endpoint are easy to misread. After a failed
live fetch, an empty stale cache result is shown as an empty list, not as the
sample reviews: `fallback ?? DEMO_REVIEWS` replaces only a missing query
result, and an empty array is not missing (`FallbackTier`). The live fetch
asks the provider for the caller's `minStars`, not a fixed threshold, and for
`limit + 10` reviews (`Serve`, `LiveRequest`).

Hiding a review is not permanent. No single answer shows a row with
is_visible false (`NeverSurfacesHidden`). But every mapped provider review is
written with is_visible true, and the upsert overwrites all columns of a row
with the same id. So a live fetch that returns a hidden review again makes it
visible in the table, and later cache answers can show it (`LiveFetchUnhides`).

The messaging provider's body may lack a `sid` even on an ok answer. The send
then still counts as a success: its log row has status sent, a send time and
no sid (`ResultOf`, `LogEntry`).

## Model

| member | source | states |
|---|---|---|
| WhatsApp.DropTrunkZero | src/app/api/whatsapp/send/route.ts:42 | exactly one leading "0" is removed if present; otherwise the text is unchanged |
| WhatsApp.FormatRecipient | src/app/api/whatsapp/send/route.ts:42 | the address always starts with `whatsapp:`; an address that already has the prefix is kept unchanged |
| WhatsApp.FormatRecipientIdempotent | src/app/api/whatsapp/send/route.ts:42 | formatting an already formatted address changes nothing |
| WhatsApp.FormatRecipientInternational | src/app/api/whatsapp/send/route.ts:42 | a number starting with "+" only gains the channel prefix |
| WhatsApp.FormatRecipientNational | src/app/api/whatsapp/send/route.ts:42 | any other number becomes `whatsapp:+49` followed by the number with its leading zero, if any, removed; a number starting with "0" loses exactly that one zero |
| WhatsApp.FormatRecipientKeepsNumber | src/app/api/whatsapp/send/route.ts:42 | the caller's number, less a trunk zero, is a suffix of the address: no digit is lost |
| WhatsApp.FormatRecipientExample | src/app/api/whatsapp/send/route.ts:42 | "05251123456" is sent to "whatsapp:+495251123456" |
| WhatsApp.SelectTemplate | src/app/api/whatsapp/send/route.ts:87 | the template registered under milestone key ?? trigger; any unknown key gives commissioning |
| WhatsApp.TemplateNamesRoundTrip | src/app/api/whatsapp/send/route.ts:14-38 | each of the eight templates is found under its own key, and every key maps back to the template of that name |
| WhatsApp.MilestoneKeyWins | src/app/api/whatsapp/send/route.ts:87 | once a milestone key is given, the trigger has no influence, even when the key is "" |
| WhatsApp.ProjectStatusTemplates | src/app/api/whatsapp/send/route.ts:87 | every project status except "completed" selects its own template; "completed" has none and falls back to commissioning |
| WhatsApp.ResultOf | src/app/api/whatsapp/send/route.ts:59-61 | the result is an error exactly when the HTTP status is not ok; the error text is the provider's message, or "Twilio error"; otherwise the result is the sid of the provider's body, which may be absent |
| WhatsApp.LogEntry | src/app/api/whatsapp/send/route.ts:94-104 | the row is consistent: sent_at is present exactly when sent, error exactly when failed, and a sid only when sent; a success stores the provider's sid and the send time, a failure the error text; the request fields are copied |
| WhatsApp.CountSentBound | src/app/api/whatsapp/send/route.ts:159 | the sent counter never exceeds the number of rows, and it equals that number iff every row was sent |
| WhatsApp.Dispatch | src/app/api/whatsapp/send/route.ts:65-110 | a missing or empty customerId or trigger gives 400, and an unknown customer or missing phone gives 404, both with no send and no log row; otherwise there is exactly one send, to the formatted phone with the selected template, and exactly one log row with the customer's id and stored phone, the message, trigger, milestone key and the provider's result; the status is 502 iff the provider failed, with the provider's error text; success returns the sid and the stored phone |
| WhatsApp.ReminderRow | src/app/api/whatsapp/send/route.ts:139-157 | a reminder row carries the project's customer id, the project id, the customer's stored phone, the reminder template with the customer's first name and the date, the trigger "appointment_reminder" and no milestone key; it is consistent and sent iff the provider accepted; a success stores the sid and send time, a failure the error text |
| WhatsApp.ReminderRows | src/app/api/whatsapp/send/route.ts:137-160 | the rows the sweep writes, at most one per project; `ReminderRowsShape` states which row each project gets |
| WhatsApp.PhoneIndices | src/app/api/whatsapp/send/route.ts:138-140 | the projects the sweep does not skip: every project with a phone, each once, in list order, and no other |
| WhatsApp.ReminderRowsCount | src/app/api/whatsapp/send/route.ts:138-159 | the sweep writes exactly as many rows as there are projects with a phone |
| WhatsApp.ReminderRowAt | src/app/api/whatsapp/send/route.ts:138-159 | for one position k: the k-th row written is the reminder row, with its own reply and clock reading, of the k-th project with a phone |
| WhatsApp.ReminderRowsShape | src/app/api/whatsapp/send/route.ts:137-160 | the k-th row written is the reminder row of the k-th project with a phone, so each such project gets exactly one row, in order, and the others none; sent ≤ projects with a phone ≤ total |
| WhatsApp.AllDeliveredSweep | src/app/api/whatsapp/send/route.ts:159-162 | when every send succeeds, the reported sent count equals the number of projects with a phone |
| WhatsApp.Authorized | src/app/api/whatsapp/send/route.ts:121-124 | the sweep runs only when the header equals the configured secret; a missing header or a missing setting never passes |
| WhatsApp.NotificationService.Record | src/app/api/whatsapp/send/route.ts:94-104 | appends one row to the log and its provider call to the outbox, keeping them in step |
| WhatsApp.NotificationService.Post | src/app/api/whatsapp/send/route.ts:65-110 | the response, the new log and the new outbox are exactly those of `Dispatch`; the log/outbox invariant is kept |
| WhatsApp.NotificationService.RemindTomorrow | src/app/api/whatsapp/send/route.ts:119-163 | a wrong or missing secret gives 401 and changes nothing; otherwise the log grows by the sweep's rows and the outbox by their sends; the reply reports the sent count and the total number of projects (0 when the query returned nothing) |
| WhatsApp.SweepStep | src/app/api/whatsapp/send/route.ts:138-159 | one pass of the sweep's loop: a project with a phone adds exactly its own reminder row, one without adds nothing; the sent count grows by one iff the project has a phone and the provider accepted |
| WhatsApp.NotificationService.RemindAll | src/app/api/whatsapp/send/route.ts:137-160 | the sweep's loop skips projects without a phone, appends exactly `ReminderRows` to the log and counts its sent rows; each log row is stamped with its own clock reading (the outbox entries carry no time) |
| Reviews.ParseParams | src/app/api/trustpilot/route.ts:42-44 | a missing parameter takes its default (minStars 4, limit 6); a live fetch is forced iff sync is exactly "1" |
| Reviews.KeepAtLeast | src/app/api/trustpilot/route.ts:20 | the filter keeps exactly the values ≥ m |
| Reviews.KeepAtLeastDescending | src/app/api/trustpilot/route.ts:20 | the filter preserves descending order |
| Reviews.StarValues | src/app/api/trustpilot/route.ts:20 | the requested star values are exactly those in 1..5 that are ≥ minStars, strictly descending |
| Reviews.JoinDigits | src/app/api/trustpilot/route.ts:20 | the comma-joined list has digit k at position 2k and a comma at exactly the odd positions |
| Reviews.SplitJoinDigits | src/app/api/trustpilot/route.ts:20 | a reader that accepts only "," as separator, each followed by a digit, reads the joined list back as the list |
| Reviews.StarsParamRoundTrip | src/app/api/trustpilot/route.ts:19-24 | the comma-separated `stars` parameter reads back as exactly the requested star values |
| Reviews.StarsParam | src/app/api/trustpilot/route.ts:20 | the `stars` parameter is at most 9 characters, with a comma at exactly the odd positions |
| Reviews.StarsParamEmpty | src/app/api/trustpilot/route.ts:20 | the `stars` parameter is empty iff minStars > 5 |
| Reviews.StarsParamDefault | src/app/api/trustpilot/route.ts:20 | the default threshold of 4 asks for "5,4" |
| Reviews.StarsParamAll | src/app/api/trustpilot/route.ts:20 | any threshold of 1 or less asks for "5,4,3,2,1" |
| Reviews.LiveRequest | src/app/api/trustpilot/route.ts:19-24 | the provider request asks for exactly the star values ≥ minStars, newest first, the given page size, in German |
| Reviews.ToRow | src/app/api/trustpilot/route.ts:72-83 | id, stars, title, text and date are copied; the author is the display name, or "Anonym" when there is none; location and reply are copied when present; cached_at is now; the row is visible |
| Reviews.ToRows | src/app/api/trustpilot/route.ts:72-83 | the provider's reviews are mapped one to one, in the provider's order |
| Reviews.SliceTo | src/app/api/trustpilot/route.ts:65 | `slice(0, end)` gives a prefix of length min(end, n), or n + end clamped at 0 for a negative end |
| Reviews.AtLeast | src/app/api/trustpilot/route.ts:65 | the star filter keeps every copy of each row with enough stars and no other row, in the original order |
| Reviews.DemoReviews | src/app/api/trustpilot/route.ts:116-189 | six sample rows, all visible, all with at least four stars, all cached when the module was loaded |
| Reviews.TopRecent | src/app/api/trustpilot/route.ts:55-56 | min(k, n) distinct ids, newest first; no id left out is newer than one returned |
| Reviews.QueryCache | src/app/api/trustpilot/route.ts:49-56 | the query fails iff the limit is negative; otherwise it returns min(limit, qualifying) table rows, all qualifying (visible, enough stars, within the cutoff), distinct, newest first, with none left out that is newer |
| Reviews.Serve | src/app/api/trustpilot/route.ts:39-113 | tiers in order: the cache answers iff a fresh query finds rows; the sample data answers iff credentials are missing; the live fetch answers iff it succeeds, otherwise the fallback; a provider request is made iff live or fallback, and it has the right stars, order, page size and language; only the live tier writes; only the fallback carries an error |
| Reviews.CacheTier | src/app/api/trustpilot/route.ts:47-60 | a cache answer is not forced and has 1..limit rows that are a valid fresh-query answer |
| Reviews.DemoTier | src/app/api/trustpilot/route.ts:64-66 | a sample answer is exactly `slice(0, limit)` of the qualifying sample rows in listed order, each with enough stars |
| Reviews.ApiTier | src/app/api/trustpilot/route.ts:69-94 | a live answer writes all mapped rows, passes the provider's total through, and shows exactly `slice(0, limit)` of the mapped rows with enough stars, in the provider's order |
| Reviews.FallbackTier | src/app/api/trustpilot/route.ts:96-111 | the fallback carries the error message and answers with the stale query; an empty stale result is shown as [], and only a failed query (negative limit) shows the whole sample list |
| Reviews.NeverSurfacesHidden | src/app/api/trustpilot/route.ts:39-113 | no tier ever returns a row with is_visible false in that answer; this does not make a hide permanent, see `LiveFetchUnhides` |
| Reviews.LiveFetchUnhides | src/app/api/trustpilot/route.ts:72-88 | a live answer that returns a review hidden in the table writes it back with is_visible true, so after the upsert the table holds it as visible |
| Reviews.BatchMap | src/app/api/trustpilot/route.ts:87 | the batch as a table: its keys are the batch ids, each row is stored under its own id, and with distinct ids each row is found under its id |
| Reviews.Upserted | src/app/api/trustpilot/route.ts:86-88 | an upsert adds the batch ids to the table's keys and leaves rows with other ids unchanged; a batch naming an id twice changes nothing |
| Reviews.UpsertWritesBatch | src/app/api/trustpilot/route.ts:86-88 | after an upsert every batch id holds its batch row, rows with other ids are untouched, and the keys are old ∪ batch |
| Reviews.UpsertNoWrite | src/app/api/trustpilot/route.ts:86-88 | an empty batch, or one the database rejects for a repeated id, leaves the table unchanged |
| Reviews.UpsertIdempotent | src/app/api/trustpilot/route.ts:87 | repeating an upsert changes nothing |
| Reviews.UpsertKeyedById | src/app/api/trustpilot/route.ts:87 | the upsert keeps every row under its own id |
| Reviews.LaterUpsertWins | src/app/api/trustpilot/route.ts:87 | two upserts of the same id leave one row under that id, holding the later values |
| Reviews.ReviewStore.CacheBatch | src/app/api/trustpilot/route.ts:85-88 | the table becomes the upsert of the batch (no write for an empty batch), still keyed by id |
| Reviews.ServeThenCache | src/app/api/trustpilot/route.ts:85-94 | after a request's write the table is still keyed by id; after a live answer with distinct ids, every row shown is stored in the table |
| RouteGuard.Decide | src/middleware.ts:32-43 | redirect to login iff the path starts with /portal and no user is signed in; redirect to the portal iff the path is /login and a user is signed in; otherwise the request passes |
| RouteGuard.IsPortalRoute | src/middleware.ts:32 | a portal route is one whose first seven characters are "/portal", whatever follows |
| RouteGuard.IsLoginRoute | src/middleware.ts:33 | the login route is exactly "/login", which is never a portal route |
| RouteGuard.LoginIsNotPortal | src/middleware.ts:32-33 | /login is not a portal route, and /portal is a portal route but not the login route |
| RouteGuard.NoRedirectLoop | src/middleware.ts:35-41 | following the guard's redirect never triggers a second redirect |
| RouteGuard.MatchedRoutes | src/middleware.ts:46-48 | every path the matcher admits, except /login, is a portal route |
| RouteGuard.Matched | src/middleware.ts:46-48 | the matcher admits /login, /portal and every portal route whose eighth character is "/", and nothing else |
| RouteGuard.Handle | src/middleware.ts:32-48 | as deployed, a signed-out user is redirected to login iff the path is matched and is not /login; a signed-in user is redirected to the portal iff the path is /login; unmatched paths pass |
| RouteGuard.GuardWiderThanMatcher | src/middleware.ts:32-48 | "/portalx" would be redirected by the guard's own test, but the matcher never passes it to the guard |
| RouteGuard.HandleNoRedirectLoop | src/middleware.ts:35-48 | the deployed middleware cannot redirect in a loop |
| PortalView.DoneCount | src/app/portal/PortalClient.tsx:92 | the done count never exceeds the number of milestones |
| PortalView.DoneCountIsMultiplicity | src/app/portal/PortalClient.tsx:92 | the done count is the number of 'done' statuses among the milestones |
| PortalView.DoneCountAll | src/app/portal/PortalClient.tsx:92 | the count equals the length iff every milestone is done |
| PortalView.DoneCountNone | src/app/portal/PortalClient.tsx:92 | the count is 0 iff no milestone is done |
| PortalView.ActiveIndex | src/app/portal/PortalClient.tsx:93 | the position of the first active milestone, or none iff no milestone is active |
| PortalView.ActiveMilestone | src/app/portal/PortalClient.tsx:93 | the active milestone shown is the first active one; none iff there is no active milestone |
| PortalView.RoundedPercent | src/app/portal/PortalClient.tsx:94 | the rounded percentage p brackets the exact share: d·(2p−1) ≤ 200·done < d·(2p+1) with d = max(total, 1) |
| PortalView.ProgressPct | src/app/portal/PortalClient.tsx:94 | the value is between 0 and 100 and is the whole number nearest to 100·done/total (halves rounded up); 0 for no milestones; 100 when all are done |
| PortalView.PercentMonotone | src/app/portal/PortalClient.tsx:94 | more done milestones never give a lower percentage |
| PortalView.Excerpt | src/app/portal/PortalClient.tsx:338 | text of at most n characters is shown unchanged; longer text shows its first n characters followed by '…'; the result equals the input iff the input fits, or is already such an excerpt |
| PortalView.ExcerptIdempotent | src/app/portal/PortalClient.tsx:338 | shortening an excerpt again changes nothing |
| PortalView.ReviewExcerpt | src/app/portal/PortalClient.tsx:338 | a review text of at most 200 characters is shown whole; a longer one as its first 200 characters and '…' |
| PortalView.ReplyExcerpt | src/app/portal/PortalClient.tsx:347-350 | the reply box appears iff the reply is non-empty, and shows the 130-character excerpt |
| PortalView.StarRow | src/app/portal/PortalClient.tsx:65 | five positions; position i (1..5) is highlighted iff i ≤ n |
| PortalView.StarCount | src/app/portal/PortalClient.tsx:65 | the number of highlighted stars is n clamped to 0..5 |
| PortalView.NoteShown | src/app/portal/PortalClient.tsx:184 | the note is shown iff it is non-empty and the milestone is not pending |
| PortalView.DateLineOf | src/app/portal/PortalClient.tsx:183 | the done date wins over the planned date; an empty date counts as missing |
| PortalView.DateText | src/app/portal/PortalClient.tsx:183 | a done date is shown as formatted; a planned date as "geplant: " followed by the formatted date; no date as "" |

## Left out

- External calls are not modelled: the HTTP calls to the messaging and review providers, their credentials and Basic-auth header, and the hosted database client. Their answers are parameters: `TwilioReply`, `TpReply`, the customer map, the project list and the cache table.
- The rendered German message texts of the eight templates are left out. A message is modelled as its template and arguments.
- The texts of the six sample reviews are kept, but as lookup functions by index, not as one literal list.
- Failures of the log insert and of the upsert call are ignored by the code and left out. The one upsert failure that is modelled is a batch that names the same id twice: the database rejects it and the table stays as it was.
- Database errors are left out except a negative `limit`, which makes the query fail (no data).
- Thrown exceptions and the catch-all 500 answer of the send handler are left out. These cover malformed JSON, network failures and a throwing provider call in the sweep.
- Date handling is left out: `toISOString`, `toLocaleDateString`, the `date-fns` formatting and the computation of "tomorrow". The sweep takes the project list, the formatted date and the clock reading of each send (`nows`, indexed like the provider replies) as parameters, and the portal takes a date formatter.
- Reviews.QueryCache: when rows share a creation time, their order is left unspecified. The database's order for equal timestamps, and for a missing `created_at_tp`, is not modelled.
- Reviews.ParseParams: `parseInt` on malformed input (NaN, trailing characters) is not modelled. Parameters arrive as integers or as missing.
- Reviews.ToRows, Reviews.Serve: one clock reading `now` stands for both the freshness cutoff (src/app/api/trustpilot/route.ts:48, before the query) and every mapped row's `cached_at` (src/app/api/trustpilot/route.ts:81, read once per row after the fetch). The model does not capture that these readings differ by the time the query and the fetch take.
- PortalView.ProgressPct: this is `Math.round` over exact rationals. The floating-point rounding of `done / total * 100` is not modelled.
- PortalView.Excerpt: lengths and `substring` count Unicode code points, not UTF-16 code units.
- Keys inherited from the JavaScript object prototype (such as "toString") are not in the template table. The table is the finite map of its eight keys.
- The review card's `r.text.length` on a missing text is left out: it throws in the browser. `ReviewExcerpt` takes a present text.
- RouteGuard.Matched: the matcher is modelled by the documented meaning of the patterns `/portal/:path*` and `/login`. The framework's own matching (trailing slashes, letter case, data-route variants) is not modelled.
- Cookie refreshing in the middleware is left out. It copies session cookies onto the response, and the session is modelled only as signed in or not.
- Concurrency is left out, including duplicate cold-cache fetches from concurrent requests.
- The UI rendering, the demo page and the type declarations are left out. The status enumerations are modelled in `domain.dfy`.
