# playwright-debug-mcp capture-and-query core, in Dafny

This project models the part of the debugging server that captures what a browser page
does and answers questions about it. It covers three parts:

- **Bounded store** (`CircularBuffer`, `AppState`). Two FIFO logs, one for console
  entries and one for network entries. Each has a fixed capacity and evicts its oldest
  entry on overflow. They sit beside the browser, context and page handles. The logs
  change only by append, clear or reset.
- **Capture** (`Capture`). Four handlers turn browser signals into entries: console,
  pageerror, requestfinished and requestfailed. Each handler is a pure function from the
  signal's payload, the id counter and the current time to at most one entry, followed by
  one append. This part also covers:
  - the `req_<n>` id counter;
  - the content-type allow-list that gates response bodies;
  - the 50 000-character body ceiling and its `[Body too large: N bytes]` placeholder.
- **Queries** (`ConsoleTool`, `NetworkTool`, `DebugTool`). Pure functions over the two
  logs:
  - console filtering, limiting and formatting;
  - network filtering, limiting, formatting, and lookup by id or URL;
  - error correlation: choosing the anchor error, the ±5000 ms window, the last five
    failed requests, lexical classification and the suggestion list;
  - the debug summary counts.

`JsString` and `JsArray` hold the JavaScript built-ins the source relies on. Each is given
the source's semantics:
- `toLowerCase` and `toUpperCase` on ASCII letters;
- `includes`;
- `slice(-n)`, where `-0` is `0`, so a limit of zero keeps everything;
- `filter`, `find`, and the truthiness of optional strings.

In these places the model follows what the code does:

- A failed request stores status `0`, not an absent status (`src/browser.ts:106`). Both
  count as failed and both are shown as `'failed'`.
- A finished request draws its id after awaiting the response (`src/browser.ts:62,67`).
  So ids are unique and increase in issue order, but they do not follow request start
  order. The model promises only uniqueness and issue order.
- `getLast(0)` returns the whole buffer, because `slice(-0)` is `slice(0)`. It does not
  return an empty list.
- The store's bound needs a capacity of at least 1. With capacity 0 a push still leaves
  one item behind, which `CircularBuffer.ZeroCapacityKeepsOne` exhibits.
- The body ceiling is measured in characters (string length), not bytes.

## Model

| member | source | states |
|---|---|---|
| `JsString.ToLower` | src/tools/console.ts:22-23 | lower-casing keeps the length, leaves no ASCII capital, maps each capital to its small letter and leaves every other character alone |
| `JsString.ToUpper` | src/tools/network.ts:29 | upper-casing keeps the length, leaves no ASCII small letter and leaves every other character alone |
| `JsString.Includes` | src/tools/console.ts:23 | `includes` is true iff the needle occurs at some position of the text |
| `JsString.Ellipsize` | src/tools/console.ts:34 | text within the limit is unchanged; longer text keeps exactly its first `n` characters followed by "..." |
| `JsString.Take` | src/tools/debug.ts:39 | `slice(0, n)` is the prefix of length `min(n, length)` |
| `JsString.ParseNatToString` | src/browser.ts:12 | the decimal digits in an id or placeholder read back as the number they were written from |
| `JsString.NatToStringInjective` | src/browser.ts:12 | different counter values never render to the same digits |
| `JsString.NatToStringCanonical` | src/browser.ts:12 | a rendered counter is a non-empty digit string without a leading zero |
| `JsString.ToStringParseNat` | src/browser.ts:12 | a digit string without a leading zero is exactly the rendering of the number it reads as |
| `JsString.MissingCharExcludes` | src/tools/debug.ts:112 | a text lacking one of a needle's characters does not include the needle |
| `JsArray.Last` | src/state.ts:28-30 | the last `n` elements are a suffix of length `min(n, length)` |
| `JsArray.SliceFrom` | src/state.ts:29 | `slice(start)` is a suffix; a negative start keeps `min(-start, length)` elements and a non-negative one drops `min(start, length)` |
| `JsArray.LimitLast` | src/tools/console.ts:27-29 | an absent or zero limit keeps everything, a positive limit keeps the newest `last`, a negative one skips `-last` |
| `JsArray.LimitLastIsSubseq` | src/tools/network.ts:41-43 | limiting never adds or reorders elements |
| `JsArray.Filter` | src/tools/console.ts:16-18 | `filter` keeps exactly the elements satisfying the predicate, in their original order |
| `JsArray.FilterCounts` | src/tools/console.ts:16-18 | `filter` keeps each satisfying element as often as it occurs and drops every other |
| `JsArray.FindIndex` | src/tools/network.ts:83 | the index found is the first that satisfies the predicate; nothing is found iff none does |
| `JsArray.Find` | src/tools/network.ts:83 | `find` returns the first element satisfying the predicate, or nothing iff none does |
| `JsArray.FilterCompose` | src/tools/console.ts:16-24 | two successive filters equal one filter by the conjunction |
| `JsArray.FilterDisjointCount` | src/tools/debug.ts:213-214 | filters by predicates that never hold together select at most the whole list between them |
| `JsArray.FilterLast` | src/tools/network.ts:86-89 | the last element of a filter is the most recent element satisfying the predicate |
| `JsArray.FilterEmpty` | src/tools/debug.ts:26 | a filter is empty iff no element satisfies the predicate |
| `JsArray.FilterHeadIsFind` | src/tools/debug.ts:22-23 | the first element of a filter is what `find` returns |
| `JsArray.SubseqSnoc` | src/tools/debug.ts:174 | appending the same element to both sides keeps a subsequence |
| `JsArray.DistinctSnoc` | src/tools/debug.ts:174 | appending an element not yet present keeps a list free of repeats |
| `Entries.ShowStatus` | src/tools/network.ts:50 | `status \|\| 'failed'` shows "failed" iff the status is absent or 0, and otherwise the code itself |
| `Entries.StatusClasses` | src/tools/network.ts:34-38 | the success and error status classes are disjoint; a status in neither is a nonzero code below 200 |
| `CircularBuffer.New` | src/state.ts:13-15 | a new buffer is empty with the given capacity, and valid when the capacity is positive |
| `CircularBuffer.Push` | src/state.ts:17-22 | a push keeps the capacity and the bound, and on a non-full buffer appends without removing anything |
| `CircularBuffer.PushKeepsSuffix` | src/state.ts:17-22 | after a push the contents are a suffix of the old contents followed by the new item |
| `CircularBuffer.PushEvictsOldest` | src/state.ts:18-21 | a push onto a full buffer removes exactly the oldest item and keeps the order of the rest |
| `CircularBuffer.PushWindow` | src/state.ts:17-22 | on a valid buffer, a push leaves the newest `capacity` items of old contents plus the item |
| `CircularBuffer.GetLast` | src/state.ts:28-30 | `getLast(n)` is the newest `min(n, length)` items for `n >= 1`, the whole buffer for `n = 0`, and skips `-n` items for negative `n` |
| `CircularBuffer.Clear` | src/state.ts:32-34 | clearing empties the buffer and keeps its capacity |
| `CircularBuffer.ClearIdempotent` | src/state.ts:32-34 | clearing twice is clearing once |
| `CircularBuffer.PushAllWindow` | src/state.ts:17-22 | after any sequence of pushes the bound holds and the contents are the newest `capacity` of old contents followed by the pushes |
| `CircularBuffer.PushAllFromEmpty` | src/state.ts:17-22 | from empty, the contents are the last `min(N, k)` pushed items in push order, and the newest item is last |
| `CircularBuffer.FifoEviction` | src/state.ts:18-21 | pushing `N + 1` items onto an empty capacity-`N` buffer loses exactly the first |
| `CircularBuffer.ZeroCapacityKeepsOne` | src/state.ts:17-22 | with capacity 0 a push still leaves the pushed item, so the bound fails |
| `AppState.Init` | src/state.ts:42-48 | a new state has no handles and two empty logs with exactly the given capacities, and is valid when both capacities are positive |
| `AppState.Default` | src/state.ts:5-6 | the default state has two empty logs with capacities 200 and 100, and is valid |
| `AppState.AddConsoleLog` | src/state.ts:58-60 | the entry becomes the newest console entry after a suffix of the old ones, and a valid log becomes exactly the newest capacity-many of the old entries plus the new one; network log, handles and capacity untouched; validity kept |
| `AppState.AddNetworkLog` | src/state.ts:62-64 | the entry becomes the newest network entry after a suffix of the old ones, and a valid log becomes exactly the newest capacity-many of the old entries plus the new one; console log, handles and capacity untouched; validity kept |
| `AppState.AddShape` | src/state.ts:58-64 | on any store, valid or not, an append drops exactly the oldest entry of a log that has reached its capacity and nothing from a log below it, then adds the entry last |
| `AppState.GetRecentConsoleLogs` | src/state.ts:66-68 | the newest `n` console entries for positive `n`, all of them for 0 |
| `AppState.GetRecentNetworkLogs` | src/state.ts:70-72 | the newest `n` network entries for positive `n`, all of them for 0 |
| `AppState.ClearConsoleLogs` | src/state.ts:74-76 | the console log is empty; network log and handles untouched |
| `AppState.ClearNetworkLogs` | src/state.ts:78-80 | the network log is empty; console log and handles untouched |
| `AppState.Reset` | src/state.ts:82-88 | no handles, both logs empty, capacities and validity kept |
| `AppState.ApplyAllKeepsBounds` | src/state.ts:58-88 | after any sequence of appends, clears and resets neither log exceeds its capacity |
| `AppState.OpsTouchOneLog` | src/state.ts:58-80 | console operations leave the network log alone and vice versa; only reset touches the handles |
| `AppState.GetConsoleLogs` | src/state.ts:95-101 | one line per console entry, in log order, with its level, text and time |
| `Capture.IdNumberOfFormatId` | src/browser.ts:12 | an id `req_<n>` gives back `n` |
| `Capture.IdNumberIsExact` | src/browser.ts:12 | a string that reads as an id number is exactly the id `req_<n>` for that number, so no other spelling (such as a leading zero) is taken for an id |
| `Capture.GenerateNetworkId` | src/browser.ts:10-13 | each call raises the counter by exactly one and returns an id numbered with the new counter |
| `Capture.IssueIds` | src/browser.ts:10-13 | `k` calls in a row hand out ids numbered counter+1 … counter+k |
| `Capture.IssuedIdsIncrease` | src/browser.ts:10-13 | ids issued one after another are pairwise different and increase in issue order |
| `Capture.ShouldCaptureBody` | src/browser.ts:16-19 | the gate passes iff the content type is non-empty and contains some allow-listed type |
| `JsString.AnyIncluded` | src/browser.ts:18 | true iff some listed type occurs in the text |
| `Capture.ContentTypeExamples` | src/browser.ts:7 | JSON with a charset passes; `image/png`, an empty and an absent content type do not |
| `Capture.PlaceholderReportsSize` | src/browser.ts:28 | the placeholder names exactly the size it was made for |
| `Capture.ReportedSizeIsExact` | src/browser.ts:28 | a string that reads as a size placeholder is exactly the placeholder for that size |
| `Capture.CapBody` | src/browser.ts:83-87 | a body within 50 000 characters is kept verbatim; a longer one becomes the placeholder reporting its length |
| `Capture.CeilingExample` | src/browser.ts:8 | a body of 50 001 characters becomes exactly "[Body too large: 50001 bytes]" |
| `Capture.GetRequestBody` | src/browser.ts:22-34 | a body is returned iff the accessor returned a non-empty body; verbatim within the ceiling, otherwise the placeholder of its length; the returned body is the ceiling applied to the accessor's body |
| `Capture.ConsoleEntryOf` | src/browser.ts:39-47 | the console entry copies type, text and location and carries the commit time |
| `Capture.PageErrorEntry` | src/browser.ts:50-57 | a page error becomes level "error" with text `name: message`, a newline, then the stack or nothing |
| `Capture.ContentTypeOf` | src/browser.ts:63 | a content type exists iff there is a response carrying that header, and it is that header's value |
| `Capture.ResponseBodyOf` | src/browser.ts:79-91 | a response body is kept iff a response exists, the gate passes and the read did not throw; it is capped |
| `Capture.OnRequestFinished` | src/browser.ts:60-97 | a throwing lookup yields no entry and draws no id; otherwise one id is drawn and the entry copies the request; its status, content type, response headers and response body come from the looked-up response (absent when there is none), its timing and request headers from the request, with an ungated request body and a gated response body |
| `Capture.FailureReason` | src/browser.ts:109 | the driver's error text when non-empty; "Unknown failure" when the failure or its text is absent or empty |
| `Capture.OnRequestFailed` | src/browser.ts:100-113 | one entry with a fresh id, status 0 (a failed status), the failure reason, the request's headers and body and no response fields |
| `Capture.HandleSignal` | src/browser.ts:37-114 | a handler changes only its own log, draws ids only for network signals, and keeps the handles, capacities and bounds |
| `Capture.ConsoleSignalAppendsOne` | src/browser.ts:39-57 | a console or page-error signal appends exactly one entry to the console window |
| `Capture.NetworkSignalAppendsAtMostOne` | src/browser.ts:60-113 | a failed request appends exactly one entry; a finished one appends one unless its lookup threw, when nothing changes |
| `Capture.AppendFreshKeepsUnique` | src/browser.ts:67 | appending an entry numbered above the counter keeps network ids unique |
| `Capture.StepKeepsInvariants` | src/browser.ts:37-113 | every console, finished or failed signal, and every clear or reset of the stores (src/state.ts:74-88), keeps the bounds and unique ids, and never lowers the counter |
| `Capture.RunKeepsInvariants` | src/browser.ts:60-113 | over any interleaving of signals, clears and resets both logs stay bounded and no two network entries share an id |
| `Capture.StartIsValid` | src/state.ts:47-48 | the starting state with counter 0 satisfies both invariants |
| `ConsoleTool.SelectIsLimitedFilter` | src/tools/console.ts:16-29 | level filter then search filter then limit equals one combined filter then the limit |
| `ConsoleTool.SelectLogsSpec` | src/tools/console.ts:13-29 | a subsequence of the log; every entry has the requested level and contains the search ignoring case; without a limit all such entries; with a positive limit exactly the newest `last` |
| `ConsoleTool.FormatEntry` | src/tools/console.ts:32-39 | text over 1000 characters is cut to 1000 plus "..."; a location string only when the location has a URL |
| `ConsoleTool.GetConsole` | src/tools/console.ts:41-48 | always succeeds; `count` is the number shown, never above `total`, which is the log length; entry `i` is the formatted `i`th selected entry |
| `ConsoleTool.ClearConsole` | src/tools/console.ts:58-64 | empties only the console log and reports `cleared: true` |
| `NetworkTool.FilterWhenIsFilter` | src/tools/network.ts:22-38 | a filter step that is switched off is a filter by a predicate true everywhere |
| `NetworkTool.SelectIsLimitedFilter` | src/tools/network.ts:19-43 | URL, method and status filters then the limit equal one combined filter then the limit |
| `NetworkTool.SelectRequestsSpec` | src/tools/network.ts:19-43 | a subsequence of the log; each request passes the URL filter ignoring case, the exact upper-cased method, and the success or error class; without a limit all of them; with a positive limit the newest `last` |
| `NetworkTool.StatusSelectionsDisjoint` | src/tools/network.ts:34-38 | the "success" and "error" selections share no request |
| `NetworkTool.ViewOf` | src/tools/network.ts:46-59 | URL over 150 characters cut to 150 plus "..."; absent or 0 status shown as failed, and a shown code is the stored status; body flags true iff the body is non-empty |
| `NetworkTool.GetNetwork` | src/tools/network.ts:61-68 | always succeeds; `count` is the number shown, never above `total`, the log length; request `i` is the view of the `i`th selected request |
| `NetworkTool.FindByIdSpec` | src/tools/network.ts:82-83 | with an id, found iff some request has that exact id, and then the first such request |
| `NetworkTool.FindByUrlSpec` | src/tools/network.ts:84-90 | with a URL and no id, found iff some URL contains it case-sensitively, and then the most recent such request |
| `NetworkTool.FindWithoutKeys` | src/tools/network.ts:80-92 | with neither id nor URL nothing is found |
| `NetworkTool.FindByUniqueId` | src/tools/network.ts:82-83 | when ids are distinct, looking up a logged id returns exactly that request |
| `NetworkTool.LookupFindsLoggedRequest` | src/tools/network.ts:82-83 | after any run of the capture pipeline, looking up a logged request's id returns that request |
| `NetworkTool.DetailOf` | src/tools/network.ts:119-141 | the detail copies id, method, full URL, headers, bodies, failure reason, content type and timing, and shows an absent or 0 status as failed |
| `NetworkTool.GetRequestDetail` | src/tools/network.ts:92-97 | the not-found failure iff the lookup finds nothing; otherwise exactly the detail of the request the lookup found |
| `NetworkTool.ClearNetwork` | src/tools/network.ts:151-157 | empties only the network log and reports `cleared: true` |
| `DebugTool.AnchorIsError` | src/tools/debug.ts:16-24 | the anchor is always an error-level entry of the console log |
| `DebugTool.AnchorBySearch` | src/tools/debug.ts:19-20 | a non-empty search wins; nothing found iff no error contains it ignoring case; otherwise the earliest such error |
| `DebugTool.AnchorDefaultsToLatest` | src/tools/debug.ts:22-23 | without search or index, nothing found iff no error exists; otherwise no error comes after the anchor |
| `DebugTool.AnchorByIndex` | src/tools/debug.ts:22-31 | an explicit index (0 included) finds something iff it is a position in the error list, and then the error there |
| `DebugTool.AnchorIndexZeroIsEarliest` | src/tools/debug.ts:22-24 | index 0 picks the earliest error of the log |
| `DebugTool.RecentNetwork` | src/tools/debug.ts:35-42 | the list is, in log order and one for one, the requests strictly within 5000 ms of the anchor, each with its URL cut to 100 characters and its raw status |
| `DebugTool.RecentNetworkComplete` | src/tools/debug.ts:35-36 | every request strictly within 5000 ms of the anchor is shown |
| `DebugTool.WindowIsStrict` | src/tools/debug.ts:36 | 4999 ms away on either side is inside the window; 5000 ms away is not |
| `DebugTool.LastFailedAreFailed` | src/tools/debug.ts:45-47 | the failed list draws `min(5, #failed)` requests, each a failed request of the log |
| `DebugTool.FailedRequests` | src/tools/debug.ts:45-52 | at most five, each from a failed request of the log, each showing "failed" or a code of at least 400 |
| `DebugTool.FailedAreNewest` | src/tools/debug.ts:45-47 | the failed list is the newest five failed requests, regardless of time |
| `DebugTool.RowsMatchChain` | src/tools/debug.ts:112-130 | each row of the error-type table fires exactly on the test its branch makes |
| `DebugTool.NoCapitalsNoType` | src/tools/debug.ts:112-130 | a text without capital letters is given no error type, since every trigger starts with a capital |
| `DebugTool.DetectTypeIsFirstRule` | src/tools/debug.ts:112-130 | no type iff no row fires; otherwise the type of the first row that fires |
| `DebugTool.DetectReact` | src/tools/debug.ts:136-148 | the React kind is the first row of the React table whose trigger occurs in the text; none iff no trigger occurs |
| `DebugTool.AnalyzeError` | src/tools/debug.ts:108-163 | type and category are those of the first firing row; the React kind is the detected one exactly when the text mentions "React"; flags iff their codes occur; hint: auth beats server beats the React hint, and with neither flag it is the React hint or nothing |
| `DebugTool.SuggestionTextsDistinct` | src/tools/debug.ts:166-205 | the eight suggestion texts are pairwise different |
| `DebugTool.PushIfStep` | src/tools/debug.ts:174 | one conditional push keeps the list free of repeats and in rule order |
| `DebugTool.PushesSpec` | src/tools/debug.ts:172-198 | after the first `k` rules each rule's text is present iff that rule is among them and fired; no repeats; rule order |
| `DebugTool.SuggestionsForSpec` | src/tools/debug.ts:172-205 | for any rule outcomes: never empty; each specific suggestion iff its rule fired; generic pair iff none fired; fixed rule order; no repeats |
| `DebugTool.SuggestionsSpec` | src/tools/debug.ts:166-205 | for an error text and failed list: each specific suggestion iff its condition on the text or the failed requests holds; generic pair iff none holds; never empty, ordered, no repeats |
| `DebugTool.NoStatusMeansFailedMark` | src/tools/debug.ts:176 | the views never show status 0, so the no-status rule fires exactly on a "failed" mark |
| `DebugTool.ExplainError` | src/tools/debug.ts:11-98 | the not-found failure iff no anchor; otherwise the error is the resolved anchor's text, location and timestamp, with its analysis, window, the failed requests of the whole log and a repeat-free non-empty suggestion list |
| `DebugTool.GetDebugSummary` | src/tools/debug.ts:209-239 | error, warning and failed counts are the exact counts of the state read before the title await; the totals and recent errors come from the state read after it, the recent errors being the last three or fewer error texts, each cut to 100 characters; over one snapshot errors plus warnings are at most the total, failed at most the network total, and there are as many recent errors as errors up to three |
| `DebugTool.ClearDuringAwait` | src/tools/debug.ts:213-238 | a console clear during the title await yields a total of zero beside the earlier error count, with no recent errors |
| `DebugTool.ErrorDuringAwait` | src/tools/debug.ts:213-238 | an error logged during the title await is listed among the recent errors but not counted |
| `DebugTool.NoErrorsCounted` | src/tools/debug.ts:213 | the error count is zero iff the console log holds no error |
| `DebugTool.ScenarioAnchor` | src/tools/debug.ts:16-24 | in the worked case (info, null-access error, warning) the anchor is the error |
| `DebugTool.ScenarioNoType` | src/tools/debug.ts:112-130 | the worked case's text "x is undefined" matches no error-type row |
| `DebugTool.ScenarioNoStatusCodes` | src/tools/debug.ts:152-160 | the worked case's text sets neither the server nor the auth flag |
| `DebugTool.ScenarioAnalysis` | src/tools/debug.ts:108-163 | the worked case's analysis is empty |
| `DebugTool.OnlyNullCheckFired` | src/tools/debug.ts:188-203 | when only the null-access rule fires, its advice is the whole list and the generic pair is not added |
| `DebugTool.ScenarioSuggestions` | src/tools/debug.ts:188-190 | with no failed requests the worked case gets only the null-check suggestion |
| `DebugTool.ScenarioSummary` | src/tools/debug.ts:213-214 | the worked case's summary counts total 3, errors 1, warnings 1 |

## Left out

- Browser lifecycle is not modelled: launching, `getPage`, `page.evaluate`, `page.url()`
  and `page.title()`. This is foreign I/O. Signals are abstract payloads, `Date.now()` is a
  supplied integer, and the page's URL and title are a parameter.
- The MCP server, tool catalogue and dispatch in `src/index.ts` are protocol plumbing.
- The navigation, inspection, page-state, React, accessibility, performance and
  error-bridge tools are not part of this model. They are driver calls or scripts run in
  the page.
- Async interleaving of handlers is not modelled. Each handler commits with one atomic
  append, and `Capture.Run` allows any order of commits.
- Every tool's `try`/`catch` that turns a thrown exception into `success: false` is left
  out. The pure queries modelled here do not throw.
- AppState.Init: capacities are parameters. The parsing of `MAX_CONSOLE_ENTRIES` and
  `MAX_NETWORK_ENTRIES` from the environment is not modelled, including a NaN capacity.
- JsString.ToLower: ASCII letters only. Unicode case mapping is not modelled.
- JsString.ToUpper: ASCII letters only, for the same reason.
- JsString.Includes: strings are sequences of characters, and lengths count characters,
  not UTF-16 code units or bytes.
- Capture.CapBody: the ceiling is applied to the character length, where the source counts UTF-16 code units. It
  is not applied to a byte count.
- ConsoleTool.FormatEntry: the timestamp stays a number. ISO formatting is not modelled.
- AppState.GetConsoleLogs: the timestamp stays a number, for the same reason.
- DebugTool.RecentNetwork: the timestamp stays a number, for the same reason.
- NetworkTool.ViewOf: the `duration` field is not modelled. It is `Math.round` over
  fractional timing. The timestamp stays a number; ISO formatting is not modelled.
- NetworkTool.DetailOf: the `total`, `dns`, `connect` and `ttfb` timing summary is
  replaced by the raw timing record. Bodies are returned as stored, because JSON
  re-indenting via `JSON.parse`/`JSON.stringify` is not modelled.
- DebugTool.ExplainError: the React component tree is not modelled (it comes from
  `page.evaluate`). Page URL and title are a supplied `PageInfo`. The error's timestamp
  stays a number; ISO formatting is not modelled.
- DebugTool.GetDebugSummary: page URL and title are a supplied `PageInfo`. The state is
  read twice, before and after `await page.title()`; which commits land in between is left
  open, so the count relations are promised only when both reads see the same state.
- Capture.OnRequestFinished: the request and response accessors (method, URL, timing,
  headers, status) are treated as total. In the source they run after the id is drawn
  (`src/browser.ts:67-74`); a throw there is caught at `src/browser.ts:94`, which uses up
  the id and appends no entry. The model does not represent that path.
- Capture.OnRequestFinished: `timing` comes from the driver. Entries keep it as whole
  milliseconds, not fractional ones.
- Fractional query parameters such as `last: 2.5` are not modelled. Limits and indices
  are integers.
