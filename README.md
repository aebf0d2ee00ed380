# Currency converter controller, modelled in Dafny

This project models the controller of a browser currency converter (`js/app.js`).
The page keeps three pieces of state. The first is the browser's local key-value
store, which holds a bounded conversion history and a cached list of currency codes.
The other two are the selections of the "from" and "to" currency selects, which
list the same codes.

The model is one class, `App.Converter`. It holds the store as a
`map<string, Stored>`, the option lists and values of both selects, and the
error and result regions. Its methods are the source's operations:
`SetHistory`, `AddHistory`, `ClearHistory`, `PopulateSymbols`, `LoadSymbols`,
`Convert` and `Swap`. Each method is proved against pure definitions in the
other modules:

- `Numbers`: JavaScript numbers (NaN, the two infinities, finite reals) and division.
- `Ordering`: the string order and sort behind `Object.keys(data.symbols).sort()`.
- `Storage`: the two store keys, history records, `getHistory` (`ReadHistory`), and
  the unshift-then-slice update (`Pushed`, repeated: `PushAll`).
- `Symbols`: the fallback list, what a select reads back after its value is set
  (`Select`), and `loadSymbols` as a function of the store and the reply (`SymbolLoad`).
- `Conversion`: validation, the rate choice and the whole decision of one `convert` call
  (`Attempt`).

The network replies, the parsed amount and the clock reading are parameters.
A symbols reply is `Unreachable`, `WithoutSymbols` or `WithSymbols(keys)`.
A convert reply is `FetchFailed`, `NoData` or `Data(success, result, info)`.
`Convert` returns the query it would send, or `None` when validation stops it
before any request.

Setting a select's value to a code none of its options carries leaves nothing
selected, and the select then reads back as the empty string. The model keeps this
DOM behaviour. So `PopulateSymbols` with a list lacking USD leaves the "from" value
empty, and the next `Convert` is refused with "Selecione moedas válidas.".

Facts about the code that the model keeps, some of them against what the
code's own comments and messages suggest:

- js/app.js:89 checks only for NaN and for a negative sign. `parseFloat("Infinity")` therefore passes validation, and so does 0 (`Conversion.ValidationAccepts`).
- A truthy `info.rate` is recorded unchecked. So amount × rate = converted holds only for a derived rate, and only for a finite, positive amount (`Conversion.ReplyRateIsTaken`, `Conversion.DerivedRateReproducesResult`).
- The 10-entry cap (js/app.js:146, commented "mantém só últimos 10") is applied only when the log is written. `getHistory` returns a longer stored list in full. From the first `addHistory` on, the log holds at most 10 entries whatever it started from (`Storage.PushAllIsBounded`).
- The cached symbol list is used as it is found. Nothing checks that it is sorted or free of duplicates.
- A rate that is not a finite number is stored as `null`. `renderHistory` then throws, so `convert` shows the generic error beside a successful result. This lasts for as long as that record is in the log (see Findings).

## Model

| member | source | states |
|---|---|---|
| Numbers.IsNaN | js/app.js:89 | `isNaN`: NaN is neither negative nor truthy |
| Numbers.IsNegative | js/app.js:89 | `amount < 0`: true for minus infinity, never for NaN or plus infinity; a negative number is truthy |
| Numbers.Truthy | js/app.js:109 | every number but 0 and NaN is truthy, the infinities included |
| Numbers.Div | js/app.js:109 | `converted / amount` with special values: a finite non-zero divisor gives a finite quotient q with q × amount = converted; NaN in gives NaN; a non-zero finite number over 0 is infinite; 0/0 is NaN; finite over infinite is 0; infinite over infinite is NaN |
| Ordering.Precedes | js/app.js:55 | the order of `.sort()` on strings: character by character, a prefix first |
| Ordering.PrecedesReflexive | js/app.js:55 | the sort order relates every code to itself |
| Ordering.PrecedesTotal | js/app.js:55 | any two codes are comparable |
| Ordering.PrecedesAntisymmetric | js/app.js:55 | two codes that precede each other are equal |
| Ordering.PrecedesTransitive | js/app.js:55 | the sort order is transitive |
| Ordering.Insert | js/app.js:55 | inserting into a sorted list gives a sorted list with exactly one more occurrence of the code |
| Ordering.Sort | js/app.js:55 | `.sort()` returns a sorted permutation of the keys |
| Ordering.SortedIsDeterminedByContents | js/app.js:55 | two sorted lists with the same elements are equal |
| Ordering.SortIgnoresArrivalOrder | js/app.js:55 | the sorted key list depends only on the keys, not on the order the service lists them in; sorting it again changes nothing |
| Ordering.SortKeepsDistinct | js/app.js:55 | distinct keys give a duplicate-free symbol list |
| Storage.KeysDiffer | js/app.js:18-19 | the history key and the symbol cache key are different keys |
| Storage.ReadHistory | js/app.js:137-141 | `getHistory` never fails; it is empty when the key is missing, and a non-empty log is exactly a stored list of records |
| Storage.WriteHistory | js/app.js:142 | `setHistory` puts the list under the history key and adds no other key |
| Storage.CachedSymbols | js/app.js:43-47 | the cache is read only when the key holds a list (codes, or the empty list `[]`), and a non-empty list read is the stored list of codes |
| Storage.EmptyListReadsEmpty | js/app.js:46 | the stored text `[]` reads as an empty list under either key, so an empty cached list is used without a fetch |
| Storage.MissingOrCorruptHistoryReadsEmpty | js/app.js:137-141 | `getHistory` gives the empty list when the key is missing or holds something that is not a list of records |
| Storage.ReadAfterWrite | js/app.js:137-142 | `getHistory` after `setHistory(list)` gives `list`, and every other key keeps its value |
| Storage.ReadAfterClear | js/app.js:170-172 | after removing the history key the history reads back empty; only that key is gone and every other value is kept |
| Storage.Pushed | js/app.js:143-146 | unshift then `slice(0, 10)`: at most 10 entries, the new item first, then the first min(n, 9) old entries in their order |
| Storage.PushAll | js/app.js:143-146 | after one or more additions the log holds at most 10 entries and the last item added is first |
| Storage.PushAllKeepsNewest | js/app.js:143-146 | after any sequence of additions the log is the additions newest first, followed by the earlier log, cut at 10: the oldest entries are dropped first |
| Storage.PushAllIsBounded | js/app.js:143-146 | after at least one addition the log never exceeds 10 entries, even when the stored log was longer; after 10 or more additions it holds exactly the last 10, newest first |
| Storage.RenderableAfterPush | js/app.js:143-147 | a log whose rates are all finite stays renderable after adding a record with a finite rate |
| Storage.UnrenderableEntryLingers | js/app.js:143-147 | a record with a non-finite rate among the first nine entries is still there after the next addition, so the log still does not render |
| Storage.UnrenderableEntryIsEvicted | js/app.js:143-147 | ten additions with finite rates evict every earlier entry, so the log renders again |
| Symbols.Select | js/app.js:79-80 | a select set to a value reads back that value when an option carries it, and the empty string otherwise |
| Symbols.SymbolLoad | js/app.js:41-64 | the endpoint is asked exactly when no readable list is cached; the selects are left alone exactly when a fetched reply has no symbols; the store changes only by caching the fetched list that is shown |
| Symbols.SelectKeepsOption | js/app.js:130-134 | setting a select to a value it already holds (an option or empty) reads back that value |
| Symbols.WarmCacheSkipsFetch | js/app.js:43-48 | a readable cached list is shown as it is, no fetch is made, the store is unchanged, whatever the endpoint would answer |
| Symbols.FetchedListIsSortedAndCached | js/app.js:53-57 | on a cache miss, the fetched keys are sorted, written to the cache key and shown; the list is a sorted permutation of the keys, duplicate-free when the keys are |
| Symbols.UnreachableFallsBack | js/app.js:59-62 | a failed fetch shows USD, EUR, BRL, GBP, JPY, CAD, AUD and writes nothing |
| Symbols.WithoutSymbolsChangesNothing | js/app.js:54 | a reply without `symbols` changes neither the cache nor the selects |
| Symbols.LoadTouchesOnlyCache | js/app.js:41-64 | loading symbols changes no key except the cache key, so the history is unaffected |
| Symbols.SecondLoadHitsCache | js/app.js:41-64 | after a cached or fetched list, a second load returns the same list, asks nothing and changes nothing; after the fallback, the next load asks again |
| Symbols.FallbackOffersDefaults | js/app.js:62 | USD and BRL are both in the fallback list, so they stay selected after it is shown |
| Conversion.Validate | js/app.js:89-96 | validation yields one of the two messages, and the currency message only for an amount that passed the amount check |
| Conversion.Succeeded | js/app.js:106 | only a body counts as success, and a body without a `success` field does |
| Conversion.RateOf | js/app.js:109 | the rate is either `converted / amount` or a truthy `info.rate` of the reply; without `info` it is always the derived one |
| Conversion.Attempt | js/app.js:84-118 | a call is rejected exactly when validation fails, and converts exactly when validation passes and the reply succeeds |
| Conversion.ErrorShown | js/app.js:85-118 | the error region is hidden exactly after a conversion whose new log renders; a rejection shows its own message |
| Conversion.BadAmountIsRejected | js/app.js:89-92 | a NaN or negative amount gives "Informe um valor válido.", whatever the selections and the reply |
| Conversion.MissingCurrencyIsRejected | js/app.js:93-96 | a valid amount with an empty selection gives "Selecione moedas válidas." |
| Conversion.ValidationAccepts | js/app.js:89-96 | validation passes exactly when the amount is +Infinity or finite and at least 0 (so 0 passes), and both selections are non-empty |
| Conversion.RejectionIgnoresReply | js/app.js:86-105 | when validation fails the reply is never consulted: every reply gives the same rejection |
| Conversion.ReplyDecidesAfterValidation | js/app.js:102-162 | after validation, failure (generic message) happens exactly for a fetch error, a falsy body or `success === false`; otherwise the record carries the clock reading, the pair, the amount and the result; the error region is hidden when the rate is finite and the earlier log renders, and shows the generic message when the rate is NaN or infinite |
| Conversion.ReplyRateIsTaken | js/app.js:109 | a truthy `info.rate` is recorded as it is |
| Conversion.DerivedRateReproducesResult | js/app.js:108-109 | a missing or falsy rate, a zero rate included, is derived so that amount × rate = result for a finite positive amount |
| Conversion.ZeroAmountHasNoFiniteDerivedRate | js/app.js:89-109 | an amount of 0 is accepted, and its derived rate is not finite (NaN for a zero result) |
| Conversion.ZeroAmountShowsErrorAfterSuccess | js/app.js:89-162 | an amount of 0 with no truthy rate converts, with a rate that is not finite, and the generic error is shown beside the result |
| Conversion.ToleratedErrorShown | js/app.js:116-118 | with a history renderer that copes with a missing rate, the error region is hidden exactly after a success |
| Conversion.ToleratedSuccessShowsNoError | js/app.js:116-118 | the tolerant renderer differs from the code only after a success whose log does not render |
| Conversion.HundredDollarsScenario | js/app.js:105-115 | 100 USD to BRL with result 500 is recorded at rate 5, with or without `info.rate: 5` |
| App.Converter.constructor | js/app.js:7-9 | the page starts with empty selects over an existing store |
| App.Converter.SetHistory | js/app.js:142 | the history key holds the given list afterwards |
| App.Converter.RenderHistory | js/app.js:149-167 | the walk over the stored log completes exactly when every stored rate is a finite number |
| App.Converter.AddHistory | js/app.js:143-148 | the stored history has at most 10 entries, the item first, then the old log's first min(n, 9) entries in order; no other key changes; the result says whether rendering the new log completes |
| App.Converter.ClearHistory | js/app.js:170-173 | the history key alone is removed, the history reads back empty, and rendering it cannot fail |
| App.Converter.PopulateSymbols | js/app.js:66-81 | both selects list exactly the given codes in order; the values are USD and BRL, or empty when the list lacks them |
| App.Converter.LoadSymbols | js/app.js:41-64 | store, fetch and selects change as `loadSymbols` decides; a reply without symbols leaves the selects untouched; both selects stay in step |
| App.Converter.Convert | js/app.js:84-122 | no request when validation fails; the result region and history follow the outcome; history gains exactly one record at position 0 on success and is unchanged otherwise; the error region follows the outcome and, after a success, whether the new log renders |
| App.Converter.Swap | js/app.js:130-134 | each select takes the other's value; with consistent selects this is an exact exchange |
| App.MissingDefaultBlocksConversion | js/app.js:79-96 | after populating a list without USD, every conversion is refused before any request |
| App.SwapTwice | js/app.js:130-134 | swapping twice restores the original pair |
| App.LoadTwice | js/app.js:41-64 | after a cached or fetched list, a second load makes no fetch and shows the same list |

## Left out

- DOM rendering is not modelled: the text `renderHistory` builds, `show`/`hide`/`setText`, option element creation and the loading indicator. Of `renderHistory`, only whether it completes is kept. The error and result regions are kept only as which message or conversion is visible.
- `formatMoney` (through `Intl.NumberFormat`) and `toFixed(6)` are not modelled; the result region holds the record, not its text.
- Numbers are exact reals plus NaN and the two infinities. Rounding to double precision and the sign of zero (`5 / -0`) are not modelled.
- `parseFloat` and `Number(...)` on the reply fields are not modelled; the amount, the result and the rate come in already converted. A missing `result` is passed as NaN.
- `fetch`, `res.ok`, `res.json()` and URL encoding are not modelled; each reply is one of the outcomes listed above. The query holds the raw parameters.
- JSON text is not modelled. A stored value is `Records`, `Codes` or `Corrupt`. A NaN or infinite number keeps its value in a stored record. `Storage.Renderable` stands for the fact that `JSON.stringify` writes it as `null`, which `it.rate.toFixed(6)` cannot format. The same `null` in `amount` or `converted` is left out: `Intl.NumberFormat` formats it without throwing.
- The fallback branch of `formatMoney` (`value.toFixed(2)` when `Intl.NumberFormat` refuses a currency code) is not modelled, nor the throw it would raise on a `null` value.
- A stored value that parses but is not a list of the expected kind is read as if missing. In js/app.js, `getHistory` would return it and `addHistory` would then throw inside `convert`. `populateSymbols` would clear both selects, throw on a non-array and fall through to the fetch, so a reply without symbols would leave the selects empty rather than untouched.
- Symbols are sorted by code point; the source compares UTF-16 code units. The two orders differ only above U+FFFF, never on currency codes.
- Async ordering is not modelled: `init` and event wiring, and stale or overlapping conversions. Each `Convert` call runs to completion with its reply.
- Exceptions from `localStorage.setItem` (quota exceeded) are not modelled.
- The selects' value during `populateSymbols` (the first added option is selected) is not modelled; only the final values are. A user choosing an option directly in a select is not an operation of the model.
- `script.js` is not part of this model. It is a second, simpler converter over a hardcoded list.

## Findings

`App.Converter.Convert` models the code as written. The corrected definition below states the behaviour the code evidently intends; it is proved beside the as-written one and is used in no method.

| source | as written | input that shows it | evidently intended | confidence | as-written member | corrected member |
|---|---|---|---|---|---|---|
| js/app.js:109 | An accepted amount of 0 with no truthy `info.rate` gets the rate `converted / 0`, which is NaN or infinite. `setHistory` stores it as `null`, `renderHistory` (js/app.js:162) throws on `null.toFixed`, and `convert` shows "Não foi possível converter…" beside the result shown at js/app.js:112. The same happens on the next successful conversions while the record is among the first ten. | amount 0, reply `{result: 0}` without `info` | a successful conversion shows no error, and the history keeps rendering | not executed; high, follows from `JSON.stringify(NaN) === "null"` and line 162 | Conversion.ZeroAmountShowsErrorAfterSuccess | Conversion.ToleratedErrorShown |
