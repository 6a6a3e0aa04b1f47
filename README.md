# URL shortener: mapping engine, client slice and dashboard helpers

This project models the core of a small URL-shortening service and proves
properties of the model. The core has three parts.

- **The mapping engine** (server). Seven request handlers work on a
  document collection of short-URL records: create, get-original, update,
  delete, stats, redirect and list-all. The collection is the class
  `UrlController.UrlStore`. It holds `records`, a map keyed by short code,
  and `nextId`, the auto-increment counter for `url_id`. Each handler is a
  method that returns the HTTP answer as a `Response` value. The answer
  shapes are fixed per endpoint. Create and get-original answer a `Summary`,
  which has no `accessCount` field. Update, stats and list-all answer `Detail`
  views, which carry it. The record shape, its required fields and its
  defaults are in `UrlModel`.
- **The client slice** (`UrlSlice`). This is the state the dashboard shows:
  the list of URLs, `loading`, `error`, `stats`, `statsLoading` and
  `statsError`. A pure reducer `Reduce(state, action)` handles `clearError`,
  `clearStats` and the pending, fulfilled and rejected cases of the five
  requests.
- **Dashboard helpers** (`UrlDashboard`). These are the display truncation
  of long URLs, the copyable short link, the click-count fallback and the
  empty-input guards of the create and update handlers.

Some things come from outside the model and are passed in as parameters:

- the clock, as `nat` readings;
- the code the random generator produced, as a string of length 8;
- whether a database round trip fails, as `fault: bool`. When it fails, the
  handler answers 500 with its own message and the store stays unchanged.

Facts about the code that the model keeps:

- create does not retry when the generated code collides;
- a missing or empty `url` on create answers 500 (there is no 400 answer);
- create reads the clock twice, so the model does not claim
  `createdAt == updatedAt`;
- the access counter is read, incremented and saved, not incremented
  atomically;
- update runs no validators, so it can store an empty `url`. Saving runs
  the required check on the whole document, so get-original and redirect
  on such a record then answer 500 and do not count the access.

## Model

| member | source | states |
|---|---|---|
| `UrlModel.Document` | server/models/urlModel.js:4-11 | A valid draft becomes a document that keeps the given url, code and timestamps. Missing timestamps default to the time the document is built (not the time it is saved) and a missing access count defaults to 0. The result passes the required check. |
| `UrlModel.Present` | server/models/urlModel.js:6-7 | A `required` string path is satisfied only by a given, non-empty string. |
| `UrlModel.MeetsRequired` | server/models/urlModel.js:6-7 | A draft passes validation exactly when both `url` and `shortCode` are present and non-empty. |
| `UrlModel.PassesRequired` | server/controllers/urlController.js:33-35 | The required check that `save()` runs on a loaded and modified record: its `url` and `shortCode` are non-empty. |
| `UrlController.CreateDraft` | server/controllers/urlController.js:8-13 | The draft built by create passes the required check exactly when `url` is present and non-empty and the code is non-empty. It gives no access count, so the default 0 applies, and the resulting document keeps both clock readings. |
| `UrlController.UrlStore.Valid` | server/models/urlModel.js:5-7 | The store invariant: every record sits under its own 8-character `shortCode`, so codes are unique. Every `url_id` is below the counter, and no two records share a `url_id`. |
| `UrlController.OwnedIdsAreDistinct` | server/models/urlModel.js:5 | When every record's `url_id` maps back to its own code, no two records share an id. This is the id-uniqueness half of the store invariant. |
| `UrlController.UrlStore.constructor` | server/models/urlModel.js:13-14 | The collection starts empty, and the `url_id` counter starts at its first value, 1. |
| `UrlController.UrlStore.CreateShortUrl` | server/controllers/urlController.js:4-26 | A save succeeds only when there is no fault, `url` is present and non-empty, and the candidate code is unused. It then stores exactly one new record under the code, with the next `url_id` (larger than every existing id), the given url, both clock readings and `accessCount` 0. It answers 201 with a body that has no count. Otherwise it answers 500 "Failed to create short URL" and the store and counter stay unchanged (no retry). Code uniqueness and id uniqueness are preserved. |
| `UrlController.SummaryOf` | server/controllers/urlController.js:16-22 | The body of the create and get-original answers (also lines 36-42): `id` (the record's `url_id`), `url`, `shortCode`, `createdAt` and `updatedAt`. It has no `accessCount` field. |
| `UrlController.DetailOf` | server/controllers/urlController.js:58-66 | The body of the update, stats and list answers (also lines 88-95 and 121-128): the same five fields as the summary plus the record's `accessCount`. |
| `UrlController.UrlStore.GetOriginalUrl` | server/controllers/urlController.js:28-46 | For an existing code whose record passes the required check, `accessCount` rises by exactly 1 and `updatedAt` becomes now. Every other field and every other record stays the same. It answers 200 with the updated record, without its count. An absent code gives 404 "URL not found". A fault, or a stored record with an empty url (the save fails validation), gives 500 "Failed to retrieve URL". All three leave the store unchanged. |
| `UrlController.UrlStore.UpdateShortUrl` | server/controllers/urlController.js:48-70 | For an existing code, only `url` and `updatedAt` change. `accessCount`, `createdAt`, `shortCode` and `url_id` are kept and other records are untouched. It answers 200 with the post-update record, including its count. Otherwise it answers 404 "URL not found" or 500 "Failed to update URL" and the store is unchanged. |
| `UrlController.UrlStore.DeleteShortUrl` | server/controllers/urlController.js:72-81 | For an existing code, the new store is the old one without exactly that code, and the answer is 204 with no body. Otherwise it answers 404 "URL not found" or 500 "Failed to delete URL" and the store is unchanged. |
| `UrlController.UrlStore.GetUrlStats` | server/controllers/urlController.js:83-99 | The method only reads. For an existing code it answers 200 with the stored record's detail view, including the stored `accessCount`. Otherwise it answers 404 "URL not found" or 500 "Failed to retrieve stats". |
| `UrlController.UrlStore.RedirectUrl` | server/controllers/urlController.js:101-116 | For an existing code whose record passes the required check, `accessCount` rises by exactly 1 and `updatedAt` becomes now, as in get-original. It answers a 302 redirect to the stored url. An absent code gives 404 "URL not found or has been deleted". A fault, or a stored record with an empty url, gives 500 "Failed to redirect to the original URL". All three leave the store unchanged. |
| `UrlController.UrlStore.GetAllUrls` | server/controllers/urlController.js:117-133 | The method only reads. It answers 200 with a list as long as the collection, in which every stored record appears as its detail view. Each item is a stored record's view, no short code appears twice, and `createdAt` never increases along the list (newest first). A fault gives 500 "Failed to retrieve URLs". |
| `UrlController.InsertionPoint` | server/controllers/urlController.js:119 | In a newest-first list, the position returned comes after every entry at least as new as the given one and before every strictly older one. |
| `UrlController.InsertKeepsNewestFirst` | server/controllers/urlController.js:119 | Splicing an entry in at such a position keeps the list newest first. |
| `UrlController.ListingStep` | server/controllers/urlController.js:119-128 | Moving one record from the not-yet-listed codes into the listing keeps the partial listing exact: newest first, each code once, and every listed code a stored record. |
| `UrlController.DeletedCodeStaysGone` | server/controllers/urlController.js:28-81 | After delete answers 204, get-original and update on the same code answer 404, and the store is the old one without that code. |
| `UrlController.DeletedCodeHasNoStats` | server/controllers/urlController.js:72-116 | After delete answers 204, stats answers 404 "URL not found" and redirect answers 404 "URL not found or has been deleted". |
| `UrlController.EmptiedUrlStopsCounting` | server/controllers/urlController.js:28-116 | An update to an empty url answers 200. After it, get-original answers 500 "Failed to retrieve URL" and redirect answers 500 "Failed to redirect to the original URL". The record stays as the update left it, with its count unchanged. |
| `UrlController.CreateRedirectStats` | server/controllers/urlController.js:4-116 | Create (with two independent clock readings), then redirect, then stats: the redirect goes to the original url, and stats then shows `accessCount` 1 and the same id that create returned. |
| `UrlSlice.FromSummary` | client/src/redux/urlSlice.js:24 | An entry decoded from a create answer has no access count. |
| `UrlSlice.FromDetail` | client/src/redux/urlSlice.js:63 | An entry decoded from an update, stats or listing answer carries the server's count. |
| `UrlSlice.Reduce` | client/src/redux/urlSlice.js:105-196 | The reducer for every action. Actions of the list requests and `clearError` never touch `stats`, `statsLoading` or `statsError`. Stats actions and `clearStats` never touch `urls`, `loading` or `error`. `clearError`, a pending case and a rejected case never change the list. |
| `UrlSlice.Initial` | client/src/redux/urlSlice.js:107-114 | The initial state has an empty list, nothing loading, no errors and no stats. |
| `UrlSlice.ReplaceByCode` | client/src/redux/urlSlice.js:159-161 | The list keeps its length. Each entry whose code equals the payload's becomes the payload, and every other entry stays where it was. |
| `UrlSlice.RemoveByCode` | client/src/redux/urlSlice.js:174-176 | An entry is in the result exactly when it was in the list and does not carry the code. |
| `UrlSlice.RemoveDistributes` | client/src/redux/urlSlice.js:174-176 | Filtering distributes over concatenation, so the kept entries stay in their original order. |
| `UrlSlice.RemoveCount` | client/src/redux/urlSlice.js:174-176 | The result is shorter by exactly the number of entries that carry the code. |
| `UrlSlice.RemoveAbsent` | client/src/redux/urlSlice.js:174-176 | Filtering by a code that no entry carries returns the list unchanged. |
| `UrlSlice.RemoveIdempotent` | client/src/redux/urlSlice.js:174-176 | Filtering twice by the same code gives the same result as filtering once. |
| `UrlSlice.ReplaceAbsent` | client/src/redux/urlSlice.js:159-161 | Replacing by a code that no entry carries returns the list unchanged. |
| `UrlSlice.ReplaceThenRemove` | client/src/redux/urlSlice.js:157-177 | Update-fulfilled followed by delete-fulfilled on the same code leaves the same list as delete-fulfilled alone. |
| `UrlSlice.PendingStartsLoading` | client/src/redux/urlSlice.js:127-171 | The pending case of create, getAll, update and delete sets `loading` true and `error` null, and nothing else changes. |
| `UrlSlice.CreateFulfilledPrepends` | client/src/redux/urlSlice.js:131-134 | The new list is the payload followed by the old list, `loading` becomes false, and nothing else changes. |
| `UrlSlice.GetAllFulfilledReplaces` | client/src/redux/urlSlice.js:144-147 | The list becomes the payload wholesale, `loading` becomes false, and nothing else changes. |
| `UrlSlice.UpdateFulfilledReplaces` | client/src/redux/urlSlice.js:157-162 | Entries carrying the payload's code become the payload. Every other entry, its position and the list length are kept. `loading` becomes false and nothing else changes. |
| `UrlSlice.DeleteFulfilledFilters` | client/src/redux/urlSlice.js:172-177 | Exactly the entries with the given code are removed and the count drops by their number. `loading` becomes false and nothing else changes. |
| `UrlSlice.DeleteUndoesCreate` | client/src/redux/urlSlice.js:131-177 | Create-fulfilled under a code not yet listed, followed by delete-fulfilled of that code, restores the list. |
| `UrlSlice.RejectedShowsError` | client/src/redux/urlSlice.js:135-181 | A rejected case of create, getAll, update or delete sets `loading` false and `error` to the payload. The list and everything else are unchanged. |
| `UrlSlice.StatsCasesFrame` | client/src/redux/urlSlice.js:183-194 | The stats cases never change `urls`, `loading` or `error`. Each touches only `statsLoading`, `stats` and `statsError`, as listed. |
| `UrlSlice.ClearErrorOnlyError` | client/src/redux/urlSlice.js:116-118 | `clearError` sets only `error` to null, and it is idempotent. |
| `UrlSlice.ClearStatsOnlyStats` | client/src/redux/urlSlice.js:119-122 | `clearStats` sets only `stats` and `statsError` to null, and it is idempotent. |
| `UrlDashboard.Truncate` | client/src/pages/UrlDashboard.jsx:273-275 | A URL of at most 50 characters is shown unchanged. A longer one is shown as its first 50 characters followed by "...", which is 53 characters in all. |
| `UrlDashboard.TruncateIdempotent` | client/src/pages/UrlDashboard.jsx:273-275 | Truncating an already truncated URL changes nothing. |
| `UrlDashboard.IndexOfFrom` | client/src/pages/UrlDashboard.jsx:284 | It returns the first occurrence of the pattern at or after the start index, or -1 exactly when there is none. |
| `UrlDashboard.IndexOf` | client/src/pages/UrlDashboard.jsx:284 | It returns -1 exactly when the pattern does not occur. Otherwise it returns an occurrence with no earlier one. |
| `UrlDashboard.ReplaceFirst` | client/src/pages/UrlDashboard.jsx:284 | A string without the pattern is returned as it is. Otherwise only the first occurrence is replaced. |
| `UrlDashboard.ShortLink` | client/src/pages/UrlDashboard.jsx:284-286 | The copied link is the base with its first "/api" removed, then "/r/" and the code. For every base it ends in "/r/" followed by the short code. |
| `UrlDashboard.ShortLinkKeepsPlainBase` | client/src/pages/UrlDashboard.jsx:284-286 | A base that does not contain "/api" is used unchanged. |
| `UrlDashboard.StripFirstApi` | client/src/pages/UrlDashboard.jsx:284 | Removing the first "/api" from `pre + "/api" + post`, where `pre` has no "/api", leaves `pre + post`. |
| `UrlDashboard.ShortLinkDropsFirstApi` | client/src/pages/UrlDashboard.jsx:284-286 | Only the first "/api" of the base is removed. Everything before and after it is kept. |
| `UrlDashboard.RoutedRedirectCode` | server/routes/urlRoutes.js:19 | A path reaches the redirect handler exactly when it is "/api/r/" followed by one non-empty segment, which is the code. Both directions are in its contract. |
| `UrlDashboard.ShortLinkMissesRedirectRoute` | client/src/pages/UrlDashboard.jsx:284-286 | For a base of the form origin + "/api", the link as written is origin + "/r/" + code, and that path is not routed to the redirect handler. |
| `UrlDashboard.DefaultShortLinkMissesRoute` | client/src/pages/UrlDashboard.jsx:32 | With the default base, the link for "abcdefgh" is "http://localhost:5000/r/abcdefgh", whose path the redirect route does not match. |
| `UrlDashboard.RedirectLinkReachesRoute` | server/server.js:19 | The corrected link keeps the API base whole. Its path is "/api/r/" + code, which routes to the redirect handler for that code. |
| `UrlDashboard.ClickCount` | client/src/pages/UrlDashboard.jsx:308 | The clicks column shows the entry's `accessCount` when it is present, and 0 when it is absent. |
| `UrlDashboard.CreatedEntryShowsNoClicks` | client/src/pages/UrlDashboard.jsx:308 | A freshly created entry, whose create answer has no count, shows 0 clicks. |
| `UrlDashboard.DetailedEntryShowsCount` | client/src/pages/UrlDashboard.jsx:308 | An entry from a listing, update or stats answer shows the count the server sent. |
| `UrlDashboard.HandleCreate` | client/src/pages/UrlDashboard.jsx:38-46 | A create is dispatched exactly when the input is non-empty, and it carries that input. |
| `UrlDashboard.HandleUpdate` | client/src/pages/UrlDashboard.jsx:48-55 | An update is dispatched exactly when the edited URL is non-empty, and it carries the code and that URL. |
| `UrlDashboard.DispatchedCreatePassesRequired` | client/src/pages/UrlDashboard.jsx:40 | Every create the dashboard dispatches passes the server's required check on `url` and `shortCode`. |

## Findings

| source | as written | input that shows it | evidently intended | confidence | as-written member | corrected member |
|---|---|---|---|---|---|---|
| client/src/pages/UrlDashboard.jsx:284-286 | The copied link is the base with "/api" removed, followed by "/r/" and the code. The server mounts its router under "/api" (server/server.js:19), so the redirect route lives at "/api/r/:shortCode". | Default base "http://localhost:5000" and code "abcdefgh" give "http://localhost:5000/r/abcdefgh". A base "http://localhost:5000/api" gives the same link. No route of the server matches that path. | The link should reach the redirect handler: API base + "/r/" + code. | not executed; medium (a proxy in front of the server could rewrite the path) | `UrlDashboard.ShortLinkMissesRedirectRoute`, `UrlDashboard.DefaultShortLinkMissesRoute` | `UrlDashboard.RedirectLinkReachesRoute` |

## Left out

- Network I/O is not modelled. This covers the `fetch` calls in the async thunks and the Express framework (JSON parsing, CORS, `listen`, the global error handler). The thunks' fulfilled and rejected payloads appear as action data instead.
- `client/src/redux/store.js` is left out: it only combines reducers.
- Routing is modelled only for the redirect path, by `RoutedRedirectCode`. Express's case-insensitive matching, trailing slashes and percent-decoding are not modelled.
- `nanoid` randomness and collision probability are not modelled. The code is a parameter of length 8. The code does not retry on a collision, and neither does the model.
- Clocks and date formatting are not modelled. Times are `nat` readings passed in, and `formatDate` is not modelled.
- The invariant `updatedAt >= createdAt` is not modelled: clock readings are arbitrary parameters.
- Database failures are a single `fault` flag. The model does not say which step failed; the store is unchanged either way.
- `UrlController.UrlStore.CreateShortUrl`: the model does not say whether a save rejected for a duplicate code uses up a counter value in the auto-increment plugin. In the model the counter advances only on a successful save.
- `UrlController.UrlStore.CreateShortUrl`: type casting of a non-string `url` is not modelled. The body's `url` is an optional string.
- `UrlController.UrlStore.UpdateShortUrl`: the new `url` is always a string. An update request with no `url` in its body is not modelled. No validators run on update, so an empty url can be stored, as in the code. `EmptiedUrlStopsCounting` shows what follows from that.
- `UrlController.UrlStore.RedirectUrl`: the model stops at the argument passed to `res.redirect`. `Redirect(location)` is the stored url as given, not the `Location` header Express sends. Express percent-encodes that header and treats the string "back" as the Referer; neither is modelled.
- Concurrency is not modelled. The store is sequential, so concurrent read-increment-save on the counter and lost updates are outside the model.
- `UrlDashboard.Truncate` counts characters. JavaScript's `length` and `substring` count UTF-16 code units, which can differ from characters outside the Basic Multilingual Plane.
- Rendering is not modelled. This covers JSX, `useState`/`useEffect`, the clipboard, `setTimeout` and `window.confirm`.
