# Booking-engine data worker: row classifier and stale-while-revalidate cache

This project models the core of the booking engine's data worker (`src/index.ts`), written in Dafny. The core has two parts.

- **Row classifier (`processData`).** The upstream source returns a flat list of untyped JSON rows. Each row is cleaned of its `row_number` field and appended to one of nine tables: `models`, `variants`, `colors`, `components`, `pricing`, `insurance_providers`, `insurance_plans`, `finance_providers` and `finance_options`. The table is chosen by an ordered, first-match list of field-presence tests that use JavaScript truthiness. A row that no test matches is dropped. The provider test separates finance providers from insurance providers by evaluating `name.includes("BANK")`. That call throws when `name` is missing or is not a string or array, and the exception aborts the whole classification.
- **Cache (`fetch` and `refreshCacheInBackground`).** There is one process-wide cache slot with a 30-minute freshness duration.
  - A normal request on an empty slot loads the data and stores it.
  - A normal request on a filled slot answers from the slot. If the entry is stale and not marked `refreshing`, the request marks the entry `refreshing` and starts a background refresh.
  - A background refresh either installs new data or, if it fails, only clears the flag.
  - A debug request always loads and never reads or writes the slot.
  - A manual refresh replaces the entry if its load succeeds and leaves it unchanged if the load fails.

Files:
- `wrappers.dfy` (module `Wrappers`): `Option` and `Result`.
- `values.dfy` (module `Values`): the JSON value type, truthiness, and the two JavaScript `includes` methods (`String.prototype.includes` and `Array.prototype.includes`).
- `classifier.dfy` (module `Classifier`):
  - the rules and their precedence order;
  - `Route`, the fate of one row, following the source's if/else-if chain branch for branch;
  - `ProcessData`, the classification loop;
  - the order and partition properties.
- `cache.dfy` (module `Cache`):
  - the cache state `Sys(cache: Option<Entry>, pending)`, where `pending` counts background refreshes that have started and not finished;
  - the three transitions `Request`, `BackgroundDone` and `ManualRefresh`;
  - event traces (`RunFrom`) and the single-flight properties.

Inputs the model takes as parameters:
- The clock reading `now`, in milliseconds. It replaces `Date.now()`.
- The outcome of the upstream load, `Success(data)` or `Failure(LoadError)`. It replaces `fetchDataFromAPI`. In the source, a successful load returns the tables `processData` built, and any exception inside `processData` turns into a load failure.
- The cached data type `D`. The cache is generic in it.

Notes on what the code does:
- Rows that match no rule are dropped. They are not forced into one of the nine tables.
- A missing `name` on a provider row is not a precondition. It is the throwing path, modelled as the fate `Throws`. `ProcessData` then returns `Failure(NameNotSearchable(i))` for the first such row `i`.
- `name.includes("BANK")` on an array checks for an element equal to the string `"BANK"`. It is not a substring search.
- A manual refresh whose load fails leaves the cache untouched. A successful manual refresh writes to the cache and clears `refreshing`. So a manual refresh can clear the flag while a background refresh is still running.
- The staleness test is strict: `now - timestamp > 30 * 60 * 1000`.
- A request on an empty cache stores its load's result unconditionally once the load returns, with the time the request started. It does not check whether the cache was filled or marked `refreshing` meanwhile. So a slow cold load can also clear the flag while a background refresh is still running.
- Single flight (at most one background refresh at a time) therefore fails in two ways: through a manual refresh, and through a cold load that lands after a background refresh has started. Both need a load that outlasts the 30-minute freshness duration.

## Model

| member | source | states |
|---|---|---|
| `Values.Contains` | src/index.ts:259 | `String.prototype.includes` is true exactly when the needle occurs in the string at some position. |
| `Values.NameIncludes` | src/index.ts:259 | `name.includes(...)` has a result (does not throw) exactly when `name` is present and is a string or an array. For a string name it is true exactly when the needle occurs in it. For an array name it is true exactly when one element is that string. |
| `Classifier.ByRulesIsFirstMatch` | src/index.ts:247-268 | A classifier that tries an ordered rule list drops a row exactly when no rule matches. Otherwise the first matching rule alone decides the row's fate. |
| `Classifier.RouteFollowsPrecedence` | src/index.ts:247-268 | The source's if/else-if chain equals the list-driven classifier run on the order models, variants, colors, components, pricing, providers, insurance plans, finance options. |
| `Classifier.RouteIsFirstMatch` | src/index.ts:247-268 | A row is dropped exactly when none of the eight tests holds. Otherwise the first test that holds decides, whatever later tests also hold. For example, truthy `model_code` with falsy `model_id` always means `models`. |
| `Classifier.ProviderSplit` | src/index.ts:257-263 | A row that reaches the provider test goes to `finance_providers` exactly when `name` contains "BANK". It goes to `insurance_providers` exactly when `name` is searchable but does not contain it. It throws exactly when `name` is missing or has no `includes`. |
| `Classifier.OnlyProvidersThrow` | src/index.ts:257-259 | Only a row whose first matching rule is the provider test can throw, and only when its `name` is not searchable. |
| `Classifier.TableNamesAreTheKeys` | src/index.ts:229-237 | The nine tables have distinct output keys, and those keys are exactly the nine names of the output record. Every table is one of the nine. |
| `Classifier.CleanDropsOnlyRowNumber` | src/index.ts:244 | The stored row lacks `row_number` and keeps every other field with its value. |
| `Classifier.PicksInOrder` | src/index.ts:242-268 | The positions chosen for a fate are strictly increasing, in range, and are exactly the rows that have that fate. So tables keep input order and contain each of their rows once. |
| `Classifier.ProcessData` | src/index.ts:226-272 | The classification succeeds exactly when no row throws. On success the result has exactly the nine table keys, and each table holds the cleaned rows routed to it, in input order, and nothing else. On failure it names the first throwing row. |
| `Classifier.EveryRowHasOneFate` | src/index.ts:242-269 | Partition: the row counts of the nine tables, the dropped rows and the throwing rows add up to the input length. Every row lands in exactly one of these. |
| `Cache.Request` | src/index.ts:84-124 | A debug request:<br>- answers the load's outcome;<br>- leaves the state untouched.<br><br>A normal request on an empty cache:<br>- stores `{now, data, refreshing=false}` on success;<br>- stays empty and fails on error.<br><br>A normal request on a filled cache:<br>- answers the cached data with `fromCache`, whatever the load would say;<br>- schedules a refresh exactly when the entry is strictly older than 30 minutes and not refreshing;<br>- in that case sets `refreshing` and starts one background task. |
| `Cache.TtlBoundary` | src/index.ts:95 | An idle entry exactly 30 minutes old schedules no refresh. One millisecond later, it schedules one. |
| `Cache.BackgroundDone` | src/index.ts:182-199 | A completed background refresh ends one in-flight task. Success installs `{now, newData, refreshing=false}`. Failure keeps the data and timestamp and only clears `refreshing`. |
| `Cache.ManualRefresh` | src/index.ts:42-76 | A successful manual refresh installs `{now, newData, refreshing=false}`. A failed one leaves the state unchanged and reports the error. Neither starts nor ends a background task. |
| `Cache.StepKeepsSingleFlight` | src/index.ts:90-124 | Requests and background completions keep the invariant "one refresh is in flight exactly when the entry is marked refreshing, otherwise none". |
| `Cache.AtMostOneRefreshInFlight` | src/index.ts:117-123 | Over any sequence of requests and background completions from process start, with each cold-path load treated as atomic, at most one background refresh is in flight at any point. |
| `Cache.NoSecondRefreshWhileRefreshing` | src/index.ts:90-97 | While the entry is marked refreshing, any run of requests starts no further refresh, keeps the flag set and keeps the same data. |
| `Cache.ManualRefreshAllowsSecondRefresh` | src/index.ts:42-51 | A concrete trace in which a manual refresh clears the flag during a background refresh, so that a later stale request starts a second one: two refreshes end up in flight. |
| `Cache.ColdLoadLands` | src/index.ts:101-110 | When a cold-path load returns, success stores `{started, data, refreshing=false}` whatever the cache holds by then, and failure stores nothing. It never starts or ends a background task. |
| `Cache.ColdRequestIsImmediateLanding` | src/index.ts:84-110 | A normal request on an empty cache is the same as its load landing immediately, with the request's own start time. |
| `Cache.LateColdLoadAllowsSecondRefresh` | src/index.ts:84-123 | A concrete trace with no manual refresh: a cold load that started on the empty cache lands after a background refresh has begun, clears the flag, and a later stale request starts a second refresh. Two refreshes end up in flight. |
| `Cache.StepKeepsOrProduces` | src/index.ts:98-111 | Each event either keeps the cached data and timestamp or installs exactly what it loaded itself, with its own time. |
| `Cache.CachedDataWasLoaded` | src/index.ts:90-110 | Whatever the cache holds was returned by a successful load at the recorded time. That load was made by a normal request that found the cache empty, by a background refresh, or by a manual refresh. Debug loads, failed loads and requests served from the cache never supply the cached data. |
| `Cache.FilledStaysFilled` | src/index.ts:17 | Once filled, the cache slot is never emptied again by any event. |

## Left out

- `fetchDataFromAPI` and the global `fetch` (src/index.ts:201-224): network I/O, status checks and JSON parsing. The load is an input result instead.
- Routing, CORS headers, OPTIONS handling, response construction and the 404/500 envelopes (src/index.ts:22-39, 126-177): HTTP plumbing. An error answer stands for the 500 response.
- Logging, `Date.now()` and `new Date().toISOString()`: the time is a parameter.
- The debug `cacheAge` text (src/index.ts:132): floating-point presentation (`Math.round` of a division).
- Real asynchrony. Each event is one atomic transition, and background completions are separate events in any order.
- Cache.Request: a request on an empty cache does its load inside its own transition. In the source it awaits the load, so concurrent cold requests each load, and the last to finish wins. The model keeps the source's stored timestamp, which is the time the request started.
- Cache.AtMostOneRefreshInFlight: proved only with each cold-path load taken as atomic, as in `Cache.Request`. In the source a cold load that lands after a background refresh has started clears `refreshing`, and a second refresh can then start (`Cache.LateColdLoadAllowsSecondRefresh`).
- Classifier.ProcessData: elements of the row list that are not JSON objects (`null`, numbers, strings) are not modelled, and neither is a response that is not an array. Rows are modelled as objects only.
- The key order of a cleaned row: rows are maps.
- Numbers that JSON parses to `Infinity`: numbers are reals. Such a value is truthy, as every non-zero real is.
- Pricing resolution, EMI computation and the vehicle/insurance/financing aggregation views: no such code is in `src/index.ts`.
