# CryptoGraph core, modelled in Dafny

CryptoGraph is a React/TypeScript front end that lists crypto-currencies, shows live
reports for the coins a user selected, and asks an LLM for a buy / do-not-buy opinion.
This project models the logic underneath the views as pure functions over immutable data,
and proves properties of it:

- **Reports page** (`Reports.tsx`): the price-history updater. It is a window of at most 30
  points. Each point holds a candle per coin, built from the previous point's price and the
  fetched price. The page also derives per-coin reports and chart rows, and the refresh step
  wires these together.
- **Coins service** (`CoinsService.ts`): URL building and response shaping for CoinGecko and
  CryptoCompare. This covers trimming, filtering, upper-casing, first-placeholder substitution
  and defaults to 0.
- **OpenAI service** (`OpenAiService.ts`): message-content normalization, code-fence removal
  and the validation of the parsed recommendation.
- **Selection persistence** (`LocalStorageUtils.ts`): save, load and clear over a key/value
  storage.
- **Redux slices** (`SearchSlice.ts`, `CoinsSlice.ts`): reducers that replace the state.

Foreign calls are parameters:

- An HTTP GET is a function `http: string -> Reply<T>`, where `Failed` stands for the error
  axios throws.
- `JSON.parse` is `string -> Option<Json>`, where `None` means it threw.
- `JSON.stringify` is `seq<string> -> string`.
- The OpenAI SDK call is a `ChatReply`.
- A throwing `localStorage` call is a `fails` flag.
- The clock reading (time label and Unix timestamp) is passed in.

JavaScript built-ins are modelled in `JsStrings`:

- `trim` uses the ECMAScript white-space and line-terminator set.
- `toUpperCase` covers ASCII letters only.
- `replace` with a string pattern replaces the first occurrence only.
- `replace(/pat\n?/g, "")` is a leftmost, non-overlapping scan.
- `join(",")` comes with `Split` as its inverse.

Files:

- `wrappers.dfy`: `Option`.
- `json.dfy`: the JSON value.
- `js_strings.dfy`: the built-ins.
- `api_types.dfy`: response types, the coin record and URL templates.
- `coins_service.dfy`, `openai_service.dfy`, `local_storage.dfy`, `slices.dfy`: one per
  service or slice.
- `candles.dfy`, `price_history.dfy`, `reports.dfy`: the Reports page.

Facts about the code that the model keeps:

- A first candle is not degenerate. Its open and close are the price, but its high and low
  carry the ±0.2% wick (`Candles.MakeCandle`).
- Nothing caps the number of selected coins, and the store registers no selected-coins slice.
- Fetched prices are not validated. The candle-shape proof needs them non-negative, so that
  is stated as a hypothesis (`Reports.RefreshKeepsHistory`).
- The page looks prices up by a coin's id as it is, but the service keys them by the trimmed
  id. A coin whose id starts or ends with white space therefore never gets a candle and always
  reports a current price of 0 (`Reports.PaddedIdNeverPriced`).

## Model

| member | source | states |
|---|---|---|
| CoinsService.GetCoinsList | src/Services/CoinsService.ts:21-29 | a failed list request stays a failure (the error is rethrown); otherwise the body is returned as is |
| CoinsService.CoinPriceUrlFilled | src/Utils/AppConfig.ts:24-25 | substituting ids for the first `{id}` of the price template yields prefix + ids + `&vs_currencies=usd,eur,ils` |
| CoinsService.CoinDetailsUrlFilled | src/Utils/AppConfig.ts:16-17 | substituting an id into the details template yields `.../coins/` + id |
| CoinsService.PriceMultiUrlFilled | src/Utils/AppConfig.ts:31-32 | substituting symbols into the CryptoCompare template yields `...&fsyms=` + symbols |
| CoinsService.CoinPriceRequest | src/Services/CoinsService.ts:38-44 | no request exactly when the trimmed id is empty; otherwise the URL carries the trimmed id between the template's prefix and suffix |
| CoinsService.GetCoinPrices | src/Services/CoinsService.ts:36-59 | null for a blank id or a failed request; a result exactly when the response has an entry under the trimmed id with a USD price; EUR and ILS default to 0 |
| CoinsService.CoinDetailsRequest | src/Services/CoinsService.ts:67-73 | no request exactly for a blank id; otherwise the details URL for the trimmed id |
| CoinsService.GetCoinDetails | src/Services/CoinsService.ts:65-80 | null for a blank id or a failed request, else the body |
| CoinsService.GetCoinDetailsWithMarketData | src/Services/CoinsService.ts:86-101 | as above, with `?market_data=true` appended to the URL |
| CoinsService.ValidIds | src/Services/CoinsService.ts:110 | every kept id is a non-empty trimmed input id, and every input id that trims to non-empty is kept; one id is kept trimmed or dropped when blank |
| CoinsService.ValidIdsAppend | src/Services/CoinsService.ts:110 | the filter distributes over concatenation, so the kept ids follow the caller's order, repeats included |
| CoinsService.MultiplePricesRequest | src/Services/CoinsService.ts:110-117 | no request exactly when every id trims to empty; otherwise the valid ids comma-joined into the price URL |
| CoinsService.MultiplePricesQueryRoundTrip | src/Services/CoinsService.ts:116-117 | when no id contains a comma and some id is valid, splitting the `ids` parameter at commas gives back exactly the valid ids |
| CoinsService.GetMultipleCoinsPrices | src/Services/CoinsService.ts:108-134 | the result's keys are exactly the response keys with a USD price, each mapped to it; an empty map without valid ids or on failure |
| CoinsService.ValidCoins | src/Services/CoinsService.ts:143-145 | the kept pairs are trimmed input pairs with both parts non-empty, and every such pair is kept; one pair is kept trimmed when complete and dropped otherwise |
| CoinsService.ValidCoinsAppend | src/Services/CoinsService.ts:143-145 | the filter distributes over concatenation, so the kept pairs follow the caller's order, repeats included |
| CoinsService.BySymbolsRequest | src/Services/CoinsService.ts:143-153 | no request exactly when no pair is complete; otherwise the upper-cased symbols comma-joined into the CryptoCompare URL |
| CoinsService.BySymbolsQueryRoundTrip | src/Services/CoinsService.ts:152-153 | when no symbol contains a comma and some pair is complete, splitting the `fsyms` parameter gives back exactly the upper-cased symbols |
| CoinsService.QuotesById | src/Services/CoinsService.ts:157-164 | the `forEach` filling the map sets at most one key per pair |
| CoinsService.QuotesByIdKeys | src/Services/CoinsService.ts:157-164 | every key is the id of a pair whose upper-cased symbol has a USD quote, valued by that quote, and every such pair's id is a key |
| CoinsService.QuotesByIdAppend | src/Services/CoinsService.ts:157-164 | the map for `a + b` is the map for `a` overridden by the map for `b`, so of two quoted pairs with one id the later one's quote stays |
| CoinsService.QuotesByIdLastWins | src/Services/CoinsService.ts:157-164 | a quoted pair whose id no later quoted pair repeats leaves exactly its quote under its id; an unquoted later pair changes nothing |
| CoinsService.GetMultipleCoinsPricesBySymbols | src/Services/CoinsService.ts:141-171 | an empty map without complete pairs or on failure; otherwise the quotes of the valid pairs keyed by id |
| CoinsService.BySymbolsKeysSound | src/Services/CoinsService.ts:143-164 | every key of the result is the trimmed id of a caller's complete pair, valued by that pair's `response[upper(symbol)].USD` |
| CoinsService.BySymbolsKeysComplete | src/Services/CoinsService.ts:143-164 | every caller's complete pair whose upper-cased symbol has a USD quote has its trimmed id as a key |
| CoinsService.QuoteKeysTrimmed | src/Services/CoinsService.ts:144-162 | every key of the quote map is a trimmed id: non-empty, with no white space at either end |
| CoinsService.PricedIdsAreTrimmed | src/Services/CoinsService.ts:141-171 | the same holds for every key of the map the service returns |
| CoinsService.UsdOrZero | src/Services/CoinsService.ts:196-201 | the USD figure when the section and its `usd` are present, 0 otherwise |
| CoinsService.RecommendationDataFrom | src/Services/CoinsService.ts:186-202 | a result exactly when the request succeeded and market data is present; the name defaults to "" and each USD figure to 0 |
| CoinsService.GetCoinDataForRecommendation | src/Services/CoinsService.ts:177-207 | null for a blank id; otherwise the shaping of the details reply for the trimmed id |
| JsStrings.TrimSpec | src/Services/CoinsService.ts:38 | `trim` never lengthens, leaves no white space at either end, and is empty exactly for all-white-space input |
| JsStrings.TrimIdempotent | src/Services/OpenAiService.ts:154 | trimming twice is trimming once |
| JsStrings.TrimKeepsOut | src/Services/CoinsService.ts:110 | trimming introduces no character |
| JsStrings.IndexOf | src/Services/CoinsService.ts:44 | the first occurrence of the pattern, or none exactly when the pattern does not occur |
| JsStrings.ReplaceFirst | src/Services/CoinsService.ts:44 | only the first occurrence is replaced; with no occurrence the string is unchanged |
| JsStrings.SplitJoin | src/Services/CoinsService.ts:116 | splitting a comma-join of comma-free parts gives the parts back |
| JsStrings.ToUpper | src/Services/CoinsService.ts:152 | upper-casing keeps the length and maps each code point by its ASCII upper case |
| JsStrings.ToUpperIdempotent | src/Services/CoinsService.ts:152 | upper-casing an upper-cased symbol changes nothing |
| JsStrings.UpperHasNoLowercase | src/Components/PageArea/Reports/Reports.tsx:234 | an upper-cased string has no ASCII lower-case letter, so it is never "time" |
| JsStrings.StripAll | src/Services/OpenAiService.ts:124-126 | the global removal never lengthens the text |
| JsStrings.StripAllDropsMatch | src/Services/OpenAiService.ts:124-126 | a match at the head is cut out together with one line break right after it, and the scan goes on after it |
| JsStrings.StripAllKeepsUnmatched | src/Services/OpenAiService.ts:124-126 | text in which no match starts is copied through unchanged and the scan goes on after it; with the previous row this fixes the whole result |
| JsStrings.StripAllWithoutMatch | src/Services/OpenAiService.ts:124-126 | text with no match is left as it is |
| JsStrings.StripFenceLeavesNoFence | src/Services/OpenAiService.ts:124-126 | after removing every "```" (with an optional line break) no "```" is left, even where removals bring backticks together |
| OpenAiService.IsConfigured | src/Services/OpenAiService.ts:29-31 | `Boolean(apiKey)`: false for a missing or empty key, true for any non-empty key |
| OpenAiService.ConcatPartsAppend | src/Services/OpenAiService.ts:157-168 | joining the parts distributes over concatenation of part lists |
| OpenAiService.ConcatPartsSkipsEmpty | src/Services/OpenAiService.ts:159-167 | an object part without a string `text` contributes nothing |
| OpenAiService.NormalizeMessageContent | src/Services/OpenAiService.ts:146-173 | "" for missing content and the empty array; otherwise the trimmed string or trimmed join; never white space at either end |
| OpenAiService.NormalizeIdempotent | src/Services/OpenAiService.ts:153-169 | normalizing normalized content changes nothing |
| OpenAiService.StripFences | src/Services/OpenAiService.ts:122-127 | content not opening with "```" is unchanged; content opening with "```" is left with no fence at all; what survives is fixed by the `StripAll` lemmas |
| OpenAiService.JsonBlockUnwrapped | src/Services/OpenAiService.ts:123-124 | a "```json" block with a backtick-free body is reduced to the body and its closing line break |
| OpenAiService.PlainBlockUnwrapped | src/Services/OpenAiService.ts:125-126 | the same for a bare "```" block |
| OpenAiService.GetCoinRecommendation | src/Services/OpenAiService.ts:71-141 | a result exactly when the key is configured, the reply has non-empty normalized content, the de-fenced text parses, and `recommendation` is "buy" or "do not buy"; the result is the parsed value |
| OpenAiService.FencedReplyParsed | src/Services/OpenAiService.ts:112-136 | for a configured key, a reply that is a "```json" block yields the body's parse exactly when that is a valid recommendation |
| LocalStorage.Save | src/Utils/LocalStorageUtils.ts:10-16 | the key holds the stringified ids; a failure changes nothing; other keys are untouched |
| LocalStorage.Load | src/Utils/LocalStorageUtils.ts:21-35 | the stored array exactly when the key holds a non-empty text that parses to an array of strings; [] otherwise |
| LocalStorage.Clear | src/Utils/LocalStorageUtils.ts:40-46 | the key is gone; a failure changes nothing; other keys are untouched |
| LocalStorage.SaveThenLoad | src/Utils/LocalStorageUtils.ts:10-35 | save then load returns the saved ids when parse inverts stringify |
| LocalStorage.ClearThenLoad | src/Utils/LocalStorageUtils.ts:21-46 | clear then load returns [] |
| LocalStorage.LoadIgnoresOtherKeys | src/Utils/LocalStorageUtils.ts:23 | writing another key does not change what load returns |
| SearchSlice.Reduce | src/Redux/SearchSlice.ts:13-17 | set yields the payload and clear yields "", whatever the state |
| SearchSlice.LastActionDecides | src/Redux/SearchSlice.ts:8-17 | after any dispatch sequence the query is the last payload, "" after a clear, and "" initially |
| SearchSlice.SetTwice | src/Redux/SearchSlice.ts:13 | setting a query twice equals setting it once; set a then set b yields b |
| SearchSlice.RunAppend | src/Redux/SearchSlice.ts:13-17 | running a prefix then one more action is that action applied to the prefix's state |
| CoinsSlice.Reduce | src/Redux/CoinsSlice.ts:8-12 | `initCoins` yields the payload, ignoring the state |
| CoinsSlice.LastInitDecides | src/Redux/CoinsSlice.ts:8-19 | the list is [] initially and the last payload afterwards |
| CoinsSlice.InitTwice | src/Redux/CoinsSlice.ts:8-12 | the same payload twice equals once; a second payload replaces the first |
| Candles.MakeCandle | src/Components/PageArea/Reports/Reports.tsx:105-130 | close is the new price and open is the previous price (or the new price for a first candle); high and low are 0.2% beyond the body; a first candle at a positive price has a real wick; well shaped at non-negative prices |
| PriceHistory.LastN | src/Components/PageArea/Reports/Reports.tsx:136 | for a positive `n`, `slice(-n)` keeps the last min(n, length) elements, in order |
| PriceHistory.LastNAppend | src/Components/PageArea/Reports/Reports.tsx:135-136 | trimming before appending and trimming after give the same window |
| PriceHistory.AppendPoint | src/Components/PageArea/Reports/Reports.tsx:135-136 | at most 30 points, the new point last; old ++ [new] under 30 points, otherwise the oldest dropped and the order kept |
| PriceHistory.ReplayIsLastN | src/Components/PageArea/Reports/Reports.tsx:95-136 | a history built refresh by refresh is the last 30 of all points ever built |
| PriceHistory.AddCandles | src/Components/PageArea/Reports/Reports.tsx:99-133 | keys are the base keys plus the truthy ids of coins with a price; each such id holds the candle from the previous point and its price; other keys are kept |
| PriceHistory.NewPoint | src/Components/PageArea/Reports/Reports.tsx:97-133 | keys are "time", "timestamp" and the truthy ids of coins with a price; each such id holds its candle; the time label and timestamp stay unless a coin id is "time" or "timestamp" |
| PriceHistory.NewPointWellFormed | src/Components/PageArea/Reports/Reports.tsx:97-133 | at non-negative prices and timestamp, a point built on a well-formed point is well formed |
| PriceHistory.AppendKeepsWellFormed | src/Components/PageArea/Reports/Reports.tsx:135-136 | appending a well-formed point keeps every point well formed |
| Reports.SelectedCoins | src/Components/PageArea/Reports/Reports.tsx:59-61 | a coin is kept exactly when it has a truthy id among the selected ids; one coin is kept or dropped by that test |
| Reports.SelectedCoinsAppend | src/Components/PageArea/Reports/Reports.tsx:59-61 | the filter distributes over concatenation, so the selected coins keep the list's order, repeats included |
| Reports.WithId | src/Components/PageArea/Reports/Reports.tsx:139-140 | a coin is kept exactly when its id is truthy; one coin is kept or dropped by that test |
| Reports.WithIdAppend | src/Components/PageArea/Reports/Reports.tsx:139-140 | the filter distributes over concatenation, so the coins keep their order, repeats included |
| Reports.CoinsForApi | src/Components/PageArea/Reports/Reports.tsx:76-78 | every coin with truthy id and symbol gives its pair, and every pair comes from such a coin; one coin gives its pair or nothing |
| Reports.CoinsForApiAppend | src/Components/PageArea/Reports/Reports.tsx:76-78 | the mapping distributes over concatenation, so the pairs follow the coins' order, repeats included |
| Reports.ReportFor | src/Components/PageArea/Reports/Reports.tsx:141-163 | a missing price counts as 0; the previous price is the previous point's close or number, else the current price; change = current − previous; percent × previous = 100 × change when previous > 0, else 0 |
| Reports.FirstSightingShowsNoChange | src/Components/PageArea/Reports/Reports.tsx:150-155 | with no earlier price the change and the percentage are 0 |
| Reports.ComputeReports | src/Components/PageArea/Reports/Reports.tsx:139-164 | one report per selected coin with a truthy id, in order |
| Reports.ReportMatchesCandle | src/Components/PageArea/Reports/Reports.tsx:99-164 | for a coin with a price, the new candle opens at the report's previous price and closes at its current price |
| Reports.RowPrices | src/Components/PageArea/Reports/Reports.tsx:220-237 | the `forEach` filling a row sets at most one key per coin |
| Reports.RowPricesAppend | src/Components/PageArea/Reports/Reports.tsx:220-237 | the row for `a + b` is the row for `a` overridden by the row for `b`, so of two plotted coins whose symbols upper-case alike the later one's price stays |
| Reports.RowPricesKeys | src/Components/PageArea/Reports/Reports.tsx:220-237 | a row's keys are exactly the upper-cased symbols of the coins with a price in the point, each holding such a coin's close or number |
| Reports.PlottedRowNonEmpty | src/Components/PageArea/Reports/Reports.tsx:220-237 | a row has prices exactly when some coin is plotted in its point |
| Reports.KeyCountCountsPlotted | src/Components/PageArea/Reports/Reports.tsx:240-243 | the filter `keys.length > 1` keeps a row exactly when some coin is plotted |
| Reports.ChartRows | src/Components/PageArea/Reports/Reports.tsx:215-243 | no more rows than points, every row has a price, no rows exactly when no point has a plotted coin, and one point gives its row exactly when a coin is plotted in it |
| Reports.ChartRowsAppend | src/Components/PageArea/Reports/Reports.tsx:215-243 | the rows of a split history are the rows of each part in turn, so rows follow the history's order |
| Reports.ChartRowsSound | src/Components/PageArea/Reports/Reports.tsx:215-243 | every row is the row of a history point where some coin is plotted |
| Reports.ChartRowsComplete | src/Components/PageArea/Reports/Reports.tsx:215-243 | every history point where some coin is plotted has its row among the rows |
| Reports.ChartData | src/Components/PageArea/Reports/Reports.tsx:210-244 | no rows for an empty history or selection; every row is the row of a point with a plotted selected coin, every such point's row is there, and no row holds only the time label |
| Reports.Refresh | src/Components/PageArea/Reports/Reports.tsx:63-170 | cleared for an empty selection; unchanged when no coin has id and symbol; otherwise one point appended and the reports recomputed against the point before it |
| Reports.RefreshKeepsHistory | src/Components/PageArea/Reports/Reports.tsx:95-136 | the history stays within 30 points and well formed, given non-negative quotes and timestamp |
| Reports.PricesNonNegative | src/Services/CoinsService.ts:157-164 | every price the service returns is one of the response's quotes, so all are non-negative when the quotes are |
| Reports.PaddedIdNeverPriced | src/Components/PageArea/Reports/Reports.tsx:99-142 | a coin whose id starts or ends with white space is not among the priced ids, gets no candle, and reports a current price of 0 |
| Reports.FailedFetchGivesNoPrices | src/Services/CoinsService.ts:167-170 | a failed request yields the empty map |
| Reports.NoPricesNoCandles | src/Components/PageArea/Reports/Reports.tsx:97-133 | without prices the new point holds only the time label and timestamp |
| Reports.FailedFetchAppendsBarePoint | src/Components/PageArea/Reports/Reports.tsx:95-167 | a refresh whose fetch fails still appends a bare point and reports every current price as 0 |

## Left out

- Rendering: all JSX, MUI and recharts configuration, and the theme, layout, routing and
  navigation components. They contain no logic that can be stated.
- Timers, `async`/`await`, the `isCancelled` flag, the loading flag and `lastUpdated`. The
  refresh is modelled as one state transition; interleavings of concurrent refreshes are not.
- axios, the OpenAI SDK client and its lazy construction, `localStorage`, `JSON.parse` and
  `JSON.stringify`. They are foreign calls and appear as parameters.
- The prompt texts and model name in `getCoinRecommendation`. They are constant strings
  filled in with JavaScript number-to-string conversion, which is not modelled.
- `toLocaleTimeString` and `Math.floor(getTime() / 1000)`. The time label and timestamp are
  parameters.
- IEEE-754 rounding. Prices are reals.
- `pricesMap.get(id) || 0` also maps `NaN` to 0, but no price is `NaN` here.
- `toUpperCase` beyond ASCII. Symbols are ASCII tickers.
- `$` patterns in `replace` replacement strings. Ids and symbols do not contain them.
- JSON `null` and a missing field are not distinguished in the response types (`Option`).
  For `eur`, `ils`, `name` and `market_data` this matches the code (`??`, `||`, `?.`).
- CoinsService.GetCoinPrices: a JSON `null` under `usd` counts as missing here. The code tests
  `prices.usd !== undefined` (CoinsService.ts:47), so it returns `{usd: null, eur: 0, ils: 0}`
  where the model returns `None`.
- CoinsService.GetMultipleCoinsPrices: a `null` under `usd` is left out of the map. The code
  (`!== undefined`, CoinsService.ts:124) stores the id with `null`.
- CoinsService.GetMultipleCoinsPricesBySymbols: a `null` under `USD` is left out of the map. The
  code (CoinsService.ts:161) stores the id with `null`, and the page then builds a candle from
  it, because its test is `=== undefined` (Reports.tsx:103). These models leave out that path.
- A coin's extra fields (market cap, image, and so on) are not modelled; the model never reads them.
- Array content whose element is `null` or a number: `Part` has no case for it. The code's
  `"text" in part` throws a TypeError there, and `getCoinRecommendation` returns null.
- PriceFormatter, CoinChart, Recommendations and the remaining components. These are
  formatting or UI orchestration outside this model.
- `src/Models/CoinsModel.ts` is not part of this model. The coin record keeps only the `id`,
  `symbol` and `name` that the core code reads, each optional.
- `Reports.RefreshKeepsHistory`: candle shape is proved only for non-negative quotes and
  timestamp. The code does not check prices, and with a negative price `high < low` is
  possible.
- `Reports.ReportFor`: the percentage is stated multiplied out (percent × previous =
  100 × change) rather than as the code's division.
