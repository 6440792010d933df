# Stock history service: rate limiter and request decision, in Dafny

This project models the two pieces of the stock history service whose behaviour can be
stated precisely, and proves properties of them.

- **The per-API-key rate limiter** (`RateLimiterInterceptor.preHandle`, module `RateLimiter`).
  The interceptor keeps, for each `x-api-key` header value, a deque of admission instants in
  milliseconds. A call drops expired instants from the front of its key's deque and is
  admitted when fewer than `QUOTA_LIMIT` (10) remain. An admitted call appends its instant.
  A rejected call gets status 429 and leaves the pruned deque as it is. A request without
  the header passes untouched. The class `RateLimiterInterceptor` holds the registry as a
  `map<string, seq<int>>`. `TryAcquire` prunes with a `while` loop, and its contract ties
  the new registry to the specification functions `Prune` and `Step`. The lemmas cover:
  - the size bound;
  - sortedness under a clock that does not go back;
  - per-key isolation;
  - the exact pruning boundary;
  - the sliding-window guarantee, over any sequence of calls that reach the deque in time order.
- **The request decision of the stock endpoints** (`StockHistoryController.getStocks`,
  module `StockHistoryController`). This is a guard chain with a fixed precedence: missing
  key, then wrong key, then reversed dates. After it come the per-code collection and the
  content type chosen from `format`. The persistence layer is reduced to two lookup
  functions (`StockService`). The collection is modelled as written (`CollectAsWritten`)
  and as intended (`CollectIntended`); see "## Findings".

The boundary of the window is inclusive. An instant exactly `TIME_WINDOW` (10 000 ms) old is
kept and still counts, because the comparison at
`src/main/java/com/example/demo/interceptor/RateLimiterInterceptor.java:39` is strict
(`> TIME_WINDOW`). The model follows the code here (`WindowBoundary`), not a reading in
which such an instant is already outside the window.

Files: `wrappers.dfy` (Option), `rate_limiter.dfy`, `stock_history_controller.dfy`.

## Model

| member | source | states |
|---|---|---|
| `RateLimiter.Prune` | src/main/java/com/example/demo/interceptor/RateLimiterInterceptor.java:38-41 | The pruned deque is no longer than before. Every instant in front of the kept part is more than 10 000 ms old. The first kept instant, if any, is at most 10 000 ms old. |
| `RateLimiter.PruneIsSuffix` | src/main/java/com/example/demo/interceptor/RateLimiterInterceptor.java:39-41 | Pruning removes only a prefix: the result is a tail of the deque. |
| `RateLimiter.PruneIsRecent` | src/main/java/com/example/demo/interceptor/RateLimiterInterceptor.java:38-41 | On a sorted deque, pruning only from the front keeps exactly the instants still inside the window. The reference filter `Recent` looks at every element, not just the front. |
| `RateLimiter.Step` | src/main/java/com/example/demo/interceptor/RateLimiterInterceptor.java:39-49 | One call on a key's deque. An admitted call leaves at most 10 instants, the last of them `now`. A rejected call leaves at least 10 and does not record `now`. The deque grows by at most one. Its exact meaning against the reference filter is `StepAgainstRecent`. |
| `RateLimiter.StepAgainstRecent` | src/main/java/com/example/demo/interceptor/RateLimiterInterceptor.java:43-49 | The call is admitted iff fewer than 10 instants of the deque are inside the window. The new deque is those instants, with `now` appended exactly when the call is admitted. |
| `RateLimiter.StepBounded` | src/main/java/com/example/demo/interceptor/RateLimiterInterceptor.java:43-45 | A deque of at most 10 instants still has at most 10 after a call, admitted or not. |
| `RateLimiter.StepKeepsOrder` | src/main/java/com/example/demo/interceptor/RateLimiterInterceptor.java:39-44 | Take a sorted deque with no instant after `now`. After the call it is still sorted and still has no instant after `now`. |
| `RateLimiter.StepWithinWindow` | src/main/java/com/example/demo/interceptor/RateLimiterInterceptor.java:39-45 | Take a sorted deque with no instant after `now`. After the call, every instant kept lies in `[now - 10000, now]`. |
| `RateLimiter.FirstCallAdmitted` | src/main/java/com/example/demo/interceptor/RateLimiterInterceptor.java:33-45 | A freshly created, empty deque admits the call and then holds only `now`. |
| `RateLimiter.ElapsedWindowActsFresh` | src/main/java/com/example/demo/interceptor/RateLimiterInterceptor.java:39-45 | Once every recorded instant has expired, the call behaves exactly as on a fresh deque. |
| `RateLimiter.WindowSlide` | src/main/java/com/example/demo/interceptor/RateLimiterInterceptor.java:39-49 | A full deque of 10 instants `t` admits a call at `now` iff `t` has expired (`now - t > 10000`). |
| `RateLimiter.WindowBoundary` | src/main/java/com/example/demo/interceptor/RateLimiterInterceptor.java:39 | After a full burst at `t`, a call at exactly `t + 10000` is still rejected. A call at `t + 10001` is admitted and leaves only its own instant. |
| `RateLimiter.RunKeyBounded` | src/main/java/com/example/demo/interceptor/RateLimiterInterceptor.java:43-49 | Across any run of calls on one key, the deque never exceeds 10 instants. |
| `RateLimiter.StepRunTracks` | src/main/java/com/example/demo/interceptor/RateLimiterInterceptor.java:39-45 | One call with a clock that does not go back keeps the invariant "deque = admissions still inside the window, sorted". |
| `RateLimiter.RunKeyTracksAdmissions` | src/main/java/com/example/demo/interceptor/RateLimiterInterceptor.java:37-51 | With a non-decreasing clock, a key's deque after any run of calls holds exactly its admissions within 10 000 ms of the latest call, in order. |
| `RateLimiter.SlidingWindowQuota` | src/main/java/com/example/demo/interceptor/RateLimiterInterceptor.java:37-51 | With a non-decreasing clock, take any instant `at` not before the latest call. At most 10 admissions of the key lie in the closed interval `[at - 10000, at]`. |
| `RateLimiter.RunKeyPrefix` | src/main/java/com/example/demo/interceptor/RateLimiterInterceptor.java:37-51 | Later calls never change earlier decisions: the admissions of the first `k` calls are a prefix of the admissions of the whole run. Applying `SlidingWindowQuota` to each prefix bounds every window that ends at or after some call. |
| `RateLimiter.BurstWithinQuota` | src/main/java/com/example/demo/interceptor/RateLimiterInterceptor.java:43-45 | Up to 10 calls at one instant on a fresh key are all admitted and all recorded. |
| `RateLimiter.QuotaBurst` | src/main/java/com/example/demo/interceptor/RateLimiterInterceptor.java:43-49 | Of 11 calls at one instant on a fresh key, exactly the first 10 are admitted. |
| `RateLimiter.Handle` | src/main/java/com/example/demo/interceptor/RateLimiterInterceptor.java:26-49 | One request on the registry. Without a header key nothing changes. With one, the registry gains that key if absent, and no other key is added, removed or changed. Sequences of requests are covered by `ReplayBounded`, `ReplayIsolation`, `ReplayUntouched` and `ReplayKeepsOrder`. |
| `RateLimiter.ReplayBounded` | src/main/java/com/example/demo/interceptor/RateLimiterInterceptor.java:43-49 | Invariant: across any sequence of requests, every key's deque has at most 10 instants. |
| `RateLimiter.ReplayIsolation` | src/main/java/com/example/demo/interceptor/RateLimiterInterceptor.java:33-37 | A key's deque after any sequence of requests depends only on its own deque and on the instants of the requests carrying that key. |
| `RateLimiter.ReplayUntouched` | src/main/java/com/example/demo/interceptor/RateLimiterInterceptor.java:26-37 | A key that no request carries in its header is neither created nor changed. |
| `RateLimiter.HandleKeepsOrder` | src/main/java/com/example/demo/interceptor/RateLimiterInterceptor.java:33-45 | One request with a non-decreasing clock keeps every deque of the registry sorted. |
| `RateLimiter.ReplayKeepsOrder` | src/main/java/com/example/demo/interceptor/RateLimiterInterceptor.java:39-44 | Invariant: with non-decreasing request instants, every deque stays sorted across any sequence of requests. |
| `RateLimiter.RateLimiterInterceptor.constructor` | src/main/java/com/example/demo/interceptor/RateLimiterInterceptor.java:22 | The registry starts empty. |
| `RateLimiter.RateLimiterInterceptor.TryAcquire` | src/main/java/com/example/demo/interceptor/RateLimiterInterceptor.java:32-51 | The key's deque is created empty only if absent, then pruned by the loop. The call is admitted iff `Step` admits it. The key's new deque is `Step`'s, and every other key is unchanged. The size bound is kept, and sortedness too when the clock has not gone back. |
| `RateLimiter.RateLimiterInterceptor.PreHandle` | src/main/java/com/example/demo/interceptor/RateLimiterInterceptor.java:25-52 | Without an `x-api-key` header the request proceeds and the registry is unchanged; the `apikey` parameter is never limited. Otherwise the request proceeds iff the call is admitted. A rejection is exactly status 429 with the fixed quota message. |
| `StockHistoryController.SelectApiKey` | src/main/java/com/example/demo/controller/StockHistoryController.java:105 | The key checked is absent iff both the header and the parameter are absent. A header key, when present, is the one checked. Otherwise the parameter is. |
| `StockHistoryController.Guard` | src/main/java/com/example/demo/controller/StockHistoryController.java:99-117 | The checks before any lookup let a request through iff the selected key is the configured one and the start date is not after the end date. A refusal is a 400 or 403 error without data. Their order is fixed by `GetStocksDecision`. |
| `StockHistoryController.CollectIntended` | src/main/java/com/example/demo/controller/StockHistoryController.java:120-133 | The collection the not-found check expects: every key collected is a requested code. Each value is computed by `LookupEntry` (null for an unknown company, else the rows mapped by `ToResponses`), as the value mapper at :123-132 does. Its exact result is `CollectIntendedSpec`. |
| `StockHistoryController.CollectAsWritten` | src/main/java/com/example/demo/controller/StockHistoryController.java:120-133 | `Collectors.toMap` as written: every key collected is a requested code, and no collected value is null. Each value is computed by `LookupEntry` and `ToResponses`, as the value mapper at :123-132 does. Its relation to the intended collection is `CollectAsWrittenSpec`. |
| `StockHistoryController.Respond` | src/main/java/com/example/demo/controller/StockHistoryController.java:136-150 | After the collection: 500 exactly when it threw. Otherwise 404 or 200. A 200 carries the content type for `format` and one data entry per collected code. Any other answer carries neither a content type nor data. |
| `StockHistoryController.GetStocks` | src/main/java/com/example/demo/controller/StockHistoryController.java:90-151 | getStocks with the intended collection. It answers only 200, 400, 403, 404 or 500. A 200 carries the content type for `format` and data only for requested codes. An error carries neither. The full decision is `GetStocksDecision`. |
| `StockHistoryController.GetStocksAsWritten` | src/main/java/com/example/demo/controller/StockHistoryController.java:90-151 | getStocks as written. It answers only 200, 400, 403 or 500, never 404. A 200 carries the content type for `format` and data only for requested codes. Its relation to the intended reading is `AsWrittenDecision` and `AsWrittenDiffersOnlyOnNotFound`. |
| `StockHistoryController.GetSingleStock` | src/main/java/com/example/demo/controller/StockHistoryController.java:44-53 | Built on the intended `GetStocks`. In that reading the single endpoint never answers 500, because one code cannot repeat. As written, an unknown code gives 500 (`AsWrittenDiffersOnlyOnNotFound`). Without `format`, a success is JSON. It equals the multiple endpoint on a one-element list (`SingleIsMultipleOfOne`). |
| `StockHistoryController.GetMultipleStocks` | src/main/java/com/example/demo/controller/StockHistoryController.java:67-76 | The multiple endpoint: without `format`, a success is JSON, and its data holds only requested codes. |
| `StockHistoryController.FormatParam` | src/main/java/com/example/demo/controller/StockHistoryController.java:50 | The format used is the parameter when it is given and non-empty. Otherwise, when the parameter is absent or empty, it is the default "json". It is never empty. |
| `StockHistoryController.CollectIntendedSpec` | src/main/java/com/example/demo/controller/StockHistoryController.java:120-133 | The intended collection succeeds iff no code repeats. It then holds exactly one entry per requested code, and that entry is the code's lookup. |
| `StockHistoryController.CollectAsWrittenSpec` | src/main/java/com/example/demo/controller/StockHistoryController.java:120-133 | `Collectors.toMap` as written succeeds iff no code repeats and every company exists. It then holds what the intended collection holds. |
| `StockHistoryController.GetStocksDecision` | src/main/java/com/example/demo/controller/StockHistoryController.java:90-151 | The full decision, in order: 400 missing key; 403 wrong key; 400 reversed dates; 500 repeated code; 404 unknown company. Otherwise 200 "Data fetched successfully" with the content type for `format`. The data then has one entry per requested code, listing that company's rows in lookup order as (name, trade date, closing price). |
| `StockHistoryController.MissingKeyFirst` | src/main/java/com/example/demo/controller/StockHistoryController.java:99-102 | With neither a header nor a parameter key, the answer is 400 "API Key is missing", whatever else the request holds. |
| `StockHistoryController.HeaderKeyTakesPrecedence` | src/main/java/com/example/demo/controller/StockHistoryController.java:105 | When the header carries a key, the `apikey` parameter has no effect on the answer. |
| `StockHistoryController.InvalidKeyBeforeDates` | src/main/java/com/example/demo/controller/StockHistoryController.java:108-111 | A present but wrong key is answered 403 "Invalid API Key", whatever the dates and codes are. |
| `StockHistoryController.DateCheck` | src/main/java/com/example/demo/controller/StockHistoryController.java:114-117 | With a valid key, a start date after the end date is answered 400. Equal or ordered dates never give 400. |
| `StockHistoryController.UnknownCompanyNoSuccess` | src/main/java/com/example/demo/controller/StockHistoryController.java:120-139 | If any requested company is unknown, neither reading produces a success response. |
| `StockHistoryController.ContentTypeFor` | src/main/java/com/example/demo/controller/StockHistoryController.java:142-145 | The content type is XML iff `format` is "xml" in any letter case. Otherwise it is JSON. |
| `StockHistoryController.DefaultFormatIsJson` | src/main/java/com/example/demo/controller/StockHistoryController.java:50 | Without a `format` parameter, the content type is JSON. |
| `StockHistoryController.SingleIsMultipleOfOne` | src/main/java/com/example/demo/controller/StockHistoryController.java:44-53 | The single endpoint answers exactly as the multiple endpoint with a one-element code list. |
| `StockHistoryController.AsWrittenDecision` | src/main/java/com/example/demo/controller/StockHistoryController.java:120-139 | As written, the guards come first. A repeated code or an unknown company then gives 500. Any other request gets the intended answer. |
| `StockHistoryController.AsWrittenNeverNotFound` | src/main/java/com/example/demo/controller/StockHistoryController.java:136-139 | As written, no request is ever answered 404: the not-found branch is unreachable. |
| `StockHistoryController.AsWrittenDiffersOnlyOnNotFound` | src/main/java/com/example/demo/controller/StockHistoryController.java:120-139 | Where the intended reading answers 404, the code as written answers 500. Everywhere else the two agree. |
| `StockHistoryController.UnknownCompanyCounterexample` | src/main/java/com/example/demo/controller/StockHistoryController.java:120-139 | Take a valid key, ordered dates and the one unknown code "AAPL". The code as written answers 500, while 404 "One or more companies not found" is meant. |

## Findings

| source | as written | input that shows it | evidently intended | confidence | as-written member | corrected member |
|---|---|---|---|---|---|---|
| src/main/java/com/example/demo/controller/StockHistoryController.java:120-139 | `Collectors.toMap` throws `NullPointerException` when the value for a code is `null` (unknown company). The global exception handler turns that into 500 "Internal Server Error", so the `values().contains(null)` check never sees a null. | valid `x-api-key`, `startDate` <= `endDate`, `companyCode=AAPL` with no such company | 404 "One or more companies not found" | not executed | `StockHistoryController.GetStocksAsWritten`, shown by `StockHistoryController.UnknownCompanyCounterexample` and `StockHistoryController.AsWrittenNeverNotFound` | `StockHistoryController.GetStocks`, proved by `StockHistoryController.GetStocksDecision` |

A repeated company code also makes `toMap` throw (`IllegalStateException`), which gives 500.
Both readings keep that behaviour, because nothing in the code says what a repeated code
should do. In the corrected reading, this check comes before the not-found check, because
it happens during collection.

The endpoint functions `GetSingleStock` and `GetMultipleStocks` wrap the corrected
`GetStocks`. So for an unknown company they answer 404, where the code as written answers 500.

## Left out

- Concurrency: calls are modelled as atomic and sequential. In the source, `currentTime` is read at `RateLimiterInterceptor.java:32`, before `synchronized (timestamps)` at :37. So two calls on one key can reach the deque out of time order even with a monotone clock. For example, ten admissions at 100; call A reads 100 and call B reads 10101; B prunes all ten, then A appends 100, leaving eleven admissions at instant 100. The model allows such an order, because `TryAcquire`'s `now` is unconstrained. `StepBounded`, `ReplayBounded` and `ReplayIsolation` still hold. `ReplayKeepsOrder`, `RunKeyTracksAdmissions`, `SlidingWindowQuota` and the other order lemmas hold only for calls that reach the deque in time order.
- RateLimiter.RateLimiterInterceptor.TryAcquire: the Java method prunes the deque object the map holds, in place. The model prunes a local copy and stores it back at the end of the call. Since calls are atomic this has the same effect, but aliasing of the deque object is not modelled.
- The clock (`System.currentTimeMillis()`) is a parameter `now`. Instants are unbounded integers: Java's 64-bit `long` arithmetic cannot overflow for real clock values.
- The servlet objects: `response.setStatus` and `response.getWriter().write` become the `Rejected(429, message)` outcome. `ResponseEntity` becomes the `Response` datatype.
- Persistence: `StockHistoryService`, the repositories and the JPA entities are reduced to two total lookup functions. The date-range query's own semantics (`findByCompanyCodeAndTradeDateBetween`) are not visible and are not modelled; its rows are taken as given, in order.
- Serialization: the JSON/XML rendering of `ApiResponse` and `StockResponse` is not modelled. `tradeDate.toString()` (ISO text) is kept as the date value.
- Request binding: missing required parameters (answered 400 by `handleMissingParams`), unparsable dates and the splitting of `companyCode` into a list are done by the framework and are not modelled.
- StockHistoryController.ContentTypeFor: `equalsIgnoreCase` is modelled on ASCII letters only. Java's Unicode case mapping of other characters is not modelled.
- The content type of error responses is left to the framework (`None` in the model).
- `DemoApplication` (environment loading), `GlobalCorsConfig` and the rest of `GlobalExceptionHandler` are wiring and are not part of this model. The configured API key is a parameter.
- No eviction of idle keys exists in the source, so none is modelled: the registry only grows.
