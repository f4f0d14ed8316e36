# Revenue forecast handler, modelled in Dafny

This project models `handleForecast`, the revenue-forecasting endpoint of the
Insight Hunter lite backend. The endpoint exists twice, in
`backend/forecast/forecast.ts` and `backend/forecast/forecast.js`. It has two paths:

* **Upload** (`POST /forecast/upload`). The handler takes the uploaded CSV and
  reads one revenue value per row. It tries the columns `Revenue`, `revenue`, `Rev`
  and `Amount` in that order, and the first present, non-empty cell that
  `parseFloat` reads as a number wins. It stores the series under the KV key
  `raw_data`, then forecasts it.
* **Read** (any other request). The handler reads `raw_data`. When nothing is
  stored it uses the built-in series 12000, 13500, 14200, 15000. It refuses a
  stored document without a non-empty `revenue` array, and otherwise forecasts
  the stored series.

The same forecasting block runs on both paths:

* Projected value `i` is the historical value `i mod n`, grown at 5% per period
  for `i + 1` periods and rounded to cents with `toFixed(2)`.
* The horizon is 12 periods when `period=monthly`, and otherwise one period per
  historical value.
* Each period gets a label (`Month k` or `Qk`), a trend (`up`, `down` or
  `stable`) and a percent change, each against the previous projected value.
* Peaks and drops are interior indices strictly above, or strictly below, both
  neighbours.
* The result is written to `forecast_data` with a timestamp and returned together
  with chart data.

The two files differ in two places:
* The TypeScript file strips every character outside `[0-9.-]` from a cell
  before `parseFloat`.
* The JavaScript file parses the cell as is, and refuses texts longer than
  1024 × 1024 characters with a 413.

Modules, in dependency order:

| file | module | contents |
|---|---|---|
| `wrappers.dfy` | `Wrappers` | `Option` |
| `js_numbers.dfy` | `JsNumbers` | `parseFloat`, `toFixed(2)`, the decimal rendering of naturals |
| `ingest.dfy` | `Ingest` | cell sanitising, the alias order, revenue extraction |
| `engine.dfy` | `Engine` | projection, labels, trends, percent changes, peaks and drops: the two loops as methods, proved against specification functions |
| `kv_store.dfy` | `KvStore` | the KV namespace as a class with a `map` field |
| `orchestrator.dfy` | `Orchestrator` | requests, responses, stored documents, the handler as a function of the store (`Handle`), the shared forecasting block as a method (`Regenerate`), and the properties of the handler |
| `forecast_ts.dfy` | `ForecastTs` | the TypeScript `handleForecast` and its extraction loop, as methods proved equal to `Handle(TypeScript, …)` |
| `forecast_js.dfy` | `ForecastJs` | the same for the JavaScript file |

Numbers are exact reals. `parseFloat` is modelled on the characters of the cell:
* leading white space, then an optional sign;
* digits, an optional fraction and an optional exponent;
* no numeral gives NaN, which is `None` here.

`toFixed(2)` rounds half up on the exact value. A percent change against a
previous value of 0 is `None`, which is the `null` that `JSON.stringify` writes
for NaN and Infinity.

## Model

| member | source | states |
|---|---|---|
| `JsNumbers.NatToString` | backend/forecast/forecast.ts:84 | the rendering of `i + 1` in a label is a non-empty string of decimal digits, without a leading zero |
| `JsNumbers.NatToStringValue` | backend/forecast/forecast.ts:84 | reading the rendering back as digits gives the number again |
| `JsNumbers.NatToStringInjective` | backend/forecast/forecast.ts:84 | different numbers have different renderings |
| `JsNumbers.TrimStart` | backend/forecast/forecast.js:45 | parseFloat's white-space skip leaves no longer a string that does not start with white space |
| `JsNumbers.TrimStartDropsWhitespace` | backend/forecast/forecast.js:45 | only a prefix of white space is skipped; the rest is kept as it was |
| `JsNumbers.ScanNumeral` | backend/forecast/forecast.js:45 | the scanned numeral has at least one digit, and its integer and fraction parts are digits only |
| `JsNumbers.ScanDigits` | backend/forecast/forecast.js:45 | a plain digit string scans whole, as an integer without fraction or exponent |
| `JsNumbers.ScanNegatedDigits` | backend/forecast/forecast.js:45 | a minus sign before digits scans as a negative integer |
| `JsNumbers.ParseFloatDigits` | backend/forecast/forecast.js:45 | parseFloat of a digit string is its decimal value |
| `JsNumbers.ParseFloatNat` | backend/forecast/forecast.ts:50 | parseFloat reads the rendering of a natural number back as that number |
| `JsNumbers.ParseFloatNegatedNat` | backend/forecast/forecast.ts:50 | a leading minus sign negates the value read |
| `JsNumbers.ParseFloatDefined` | backend/forecast/forecast.js:46 | parseFloat is not NaN exactly when a digit, or a point and a digit, follows the white space and sign |
| `JsNumbers.Pow` | backend/forecast/forecast.ts:81 | `Math.pow` of a base above 0 is above 0, and of a base of at least 1 is at least 1 |
| `JsNumbers.PowMonotone` | backend/forecast/forecast.ts:81 | for a base of at least 1, more periods never give a smaller power |
| `JsNumbers.RoundCents` | backend/forecast/forecast.ts:81 | a non-negative amount rounds to a non-negative whole number of cents within half a cent of it, which makes it the nearest cent, ties rounded up |
| `JsNumbers.ToFixed2` | backend/forecast/forecast.ts:81 | `parseFloat(x.toFixed(2))` is within half a cent of `x` and keeps its sign; below 1e21 in magnitude it is a whole number of cents |
| `JsNumbers.FixedMagnitudeMonotone` | backend/forecast/forecast.ts:81 | rounding non-negative amounts keeps their order, across the 1e21 limit too |
| `JsNumbers.ToFixed2Monotone` | backend/forecast/forecast.ts:81 | rounding to cents never reverses the order of two amounts |
| `JsNumbers.ToFixed2Symmetric` | backend/forecast/forecast.ts:92 | rounding is symmetric about zero and maps 0 to 0 |
| `Ingest.Sanitise` | backend/forecast/forecast.ts:50 | the sanitised cell is no longer than the cell and holds only digits, `.` and `-` |
| `Ingest.SanitiseConcat` | backend/forecast/forecast.ts:50 | sanitising works character by character: it distributes over concatenation |
| `Ingest.SanitiseCounts` | backend/forecast/forecast.ts:50 | each digit, `.` and `-` survives as often as it occurs; every other character is removed |
| `Ingest.SanitiseFixes` | backend/forecast/forecast.ts:50 | sanitising changes nothing exactly when every character is a digit, `.` or `-` |
| `Ingest.FirstUsableWins` | backend/forecast/forecast.ts:47-55 | the first alias with a non-empty cell that reads as a number decides the row's value, whatever later aliases hold |
| `Ingest.FirstValueNone` | backend/forecast/forecast.ts:47-55 | a row yields nothing exactly when none of its aliases is usable |
| `Ingest.FirstValueStep` | backend/forecast/forecast.ts:47-55 | one turn of the alias loop either settles the row's value or passes on to the next alias |
| `Ingest.RowValues` | backend/forecast/forecast.ts:46 | one outcome per parsed row |
| `Ingest.Present` | backend/forecast/forecast.ts:52 | at most one value per outcome |
| `Ingest.Extracted` | backend/forecast/forecast.ts:45-57 | the series has at most one value per row |
| `Ingest.PresentConcat` | backend/forecast/forecast.ts:46-57 | collecting values distributes over concatenation |
| `Ingest.PresentEmpty` | backend/forecast/forecast.ts:59 | nothing is collected exactly when every outcome is missing |
| `Ingest.RowValuesConcat` | backend/forecast/forecast.ts:46 | rows are read independently of each other |
| `Ingest.ExtractedConcat` | backend/forecast/forecast.ts:45-57 | the series of a concatenation of rows is the concatenation of the series |
| `Ingest.ExtractedSnoc` | backend/forecast/forecast.ts:46-57 | each row appends its value, if it has one, in row order |
| `Ingest.ExtractedEmpty` | backend/forecast/forecast.ts:59-64 | nothing is extracted exactly when no row has a usable alias |
| `Ingest.SkippedRowIgnored` | backend/forecast/forecast.ts:46-57 | a row without a usable alias is skipped, not recorded as 0 |
| `Ingest.CleanCellAgrees` | backend/forecast/forecast.js:44-45 | a cell of digits, `.` and `-` only reads the same in both files |
| `Ingest.VariantsAgreeOnCleanRows` | backend/forecast/forecast.js:40-52 | when every cell consists of digits, `.` and `-`, both files extract the same series |
| `Ingest.FirstValuesAgree` | backend/forecast/forecast.js:42-51 | rows whose cells read the same in both files get the same value from the alias loop |
| `Ingest.CurrencyCellSanitised` | backend/forecast/forecast.ts:50 | the TypeScript file reads a cell such as `$1,200` as the value of its digits |
| `Ingest.CurrencyCellRejected` | backend/forecast/forecast.js:45 | the JavaScript file reads any cell starting with `$` as NaN |
| `Ingest.PlainCellExample` | backend/forecast/forecast.js:45 | the decimal rendering of a natural number, as a cell, reads as that number in both files |
| `Ingest.AliasFallThroughExample` | backend/forecast/forecast.ts:47-55 | an empty `Revenue` cell falls through to `Amount`; a row with only unknown or empty columns yields nothing |
| `Engine.TrendsSnoc` | backend/forecast/forecast.ts:86-91 | pushing a value pushes its trend against the previous value, or `stable` for the first |
| `Engine.PctChangesSnoc` | backend/forecast/forecast.ts:86-93 | pushing a value pushes its percent change against the previous value, or 0 for the first |
| `Engine.ProjectPrefixSnoc` | backend/forecast/forecast.ts:79-82 | period `i` appends `Grow(revenue[i mod n], i + 1)` to the projection so far |
| `Engine.LabelsSnoc` | backend/forecast/forecast.ts:84 | period `i` appends its own label |
| `Engine.Generate` | backend/forecast/forecast.ts:77-94 | the projection loop returns the projection over the horizon, with one label, trend and percent change per value as the specification functions define them |
| `Engine.DetectExtrema` | backend/forecast/forecast.ts:96-101 | the extremum loop returns exactly the peaks and the drops of the forecast |
| `Engine.ProjectionShape` | backend/forecast/forecast.ts:77-81 | 12 values when monthly, otherwise one per historical value; value `i` grows historical value `i mod n` for `i + 1` periods |
| `Engine.QuarterlyUsesEachValueOnce` | backend/forecast/forecast.ts:77-81 | in quarterly mode value `i` grows historical value `i` for `i + 1` periods |
| `Engine.MonthlyUsesFirstTwelve` | backend/forecast/forecast.ts:77-80 | in monthly mode history beyond the first twelve values is ignored |
| `Engine.GrowMonotoneInPeriods` | backend/forecast/forecast.ts:81 | a non-negative base grown for more periods is never smaller after rounding |
| `Engine.CycleRepeatsAnchor` | backend/forecast/forecast.ts:80-81 | when the horizon wraps round the history, a non-negative value comes back no smaller than one cycle earlier |
| `Engine.TrendsCharacterised` | backend/forecast/forecast.ts:86-91 | one trend per value: the first is `stable`; later ones are `up`, `down` or `stable` exactly when the value rose, fell or stayed |
| `Engine.PctChangesShape` | backend/forecast/forecast.ts:86-92 | one percent change per value, the first being 0 |
| `Engine.PctChangeAgreesWithTrend` | backend/forecast/forecast.ts:90-92 | the percent change is a number exactly when the previous value is not 0; after a positive value its sign never contradicts the trend |
| `Engine.ExtremaBelowMembers` | backend/forecast/forecast.ts:98-101 | after scanning up to `k`, the list holds exactly the qualifying indices below `k` |
| `Engine.ExtremaBelowIncreasing` | backend/forecast/forecast.ts:98-101 | the scan pushes indices in increasing order |
| `Engine.ExtremaBelowEmpty` | backend/forecast/forecast.ts:98-101 | the list so far is empty exactly when no index below `k` qualifies |
| `Engine.ExtremaMembers` | backend/forecast/forecast.ts:96-101 | peaks (drops) are exactly the interior indices strictly above (below) both neighbours |
| `Engine.ExtremaCharacterised` | backend/forecast/forecast.ts:96-101 | membership as above, strictly increasing, empty exactly when no interior index qualifies, and empty below three values |
| `Engine.PeaksAndDropsDisjoint` | backend/forecast/forecast.ts:99-100 | no index is both a peak and a drop |
| `Engine.ExtremaAreTurningPoints` | backend/forecast/forecast.ts:90-100 | a peak is exactly an `up` trend followed by a `down` trend; a drop the reverse |
| `Engine.FlatHistoryNonDecreasing` | backend/forecast/forecast.ts:79-82 | a constant non-negative history projects a non-decreasing forecast |
| `Engine.FlatHistoryNeverFalls` | backend/forecast/forecast.ts:79-101 | a constant non-negative history projects no `down` trend and no drop |
| `Engine.NoFallNoDrop` | backend/forecast/forecast.ts:98-101 | a forecast that never falls has no drops |
| `Engine.LabelsDistinct` | backend/forecast/forecast.ts:84 | no two chart labels are equal |
| `Engine.QuarterlyFallbackExample` | backend/forecast/forecast.ts:150-174 | the built-in series projects to 12600, 14883.75, 16438.28 and 18232.59, trends `stable, up, up, up`, with no peak and no drop |
| `Engine.LabelExamples` | backend/forecast/forecast.ts:84 | the first three quarterly labels are `Q1`, `Q2`, `Q3`; the first and twelfth monthly labels are `Month 1` and `Month 12` |
| `KvStore.Store.constructor` | backend/forecast/forecast.ts:7 | a namespace starts with the given contents |
| `KvStore.Store.Get` | backend/forecast/forecast.ts:133 | `get` returns the stored value, and `null` exactly when the key is absent |
| `KvStore.Store.Put` | backend/forecast/forecast.ts:67 | `put` replaces the value under its key and changes no other key |
| `Orchestrator.Regenerate` | backend/forecast/forecast.ts:143-207 | the shared block (both loops, the `forecast_data` write, the response) does exactly what `Forecast` specifies, to the response and to the store |
| `Orchestrator.MonthlyIffRequested` | backend/forecast/forecast.ts:70-77 | the horizon is monthly exactly when `period` is `monthly`; a missing or empty parameter means quarterly |
| `Orchestrator.FailuresLeaveStoreUntouched` | backend/forecast/forecast.ts:16-64 | every error response leaves the store as it was |
| `Orchestrator.UploadOutcomes` | backend/forecast/forecast.js:10-58 | a missing file gives 400; only the JavaScript file gives 413 for a text over 1 MB; the upload succeeds exactly when a file is present, within the limit where one applies, parsed, and yields at least one value |
| `Orchestrator.UploadRefusesUnusableCsv` | backend/forecast/forecast.ts:37-64 | a CSV without rows gives "CSV is empty or invalid"; one whose rows are all unusable gives "No valid revenue data found in CSV" |
| `Orchestrator.UploadStoresSeries` | backend/forecast/forecast.ts:59-128 | a successful upload returns the extracted series with its message, stores it under `raw_data`, stores the returned forecast under `forecast_data`, and changes no other key |
| `Orchestrator.ReadWritesOnlyForecast` | backend/forecast/forecast.ts:132-186 | the read path never writes `raw_data` or any key other than `forecast_data` |
| `Orchestrator.ReadOutcomes` | backend/forecast/forecast.ts:132-141 | the read path fails with the 400 "No revenue data available" exactly when `raw_data` holds neither a non-empty array nor the empty string; with nothing stored it forecasts the built-in series |
| `Orchestrator.ForecastConsistent` | backend/forecast/forecast.ts:77-128 | the shared block returns the projection of its series with matching labels, trends, percent changes, peaks, drops and chart data |
| `Orchestrator.PayloadConsistent` | backend/forecast/forecast.ts:143-207 | every successful response, on either path, is the projection of its own `revenue` over the requested horizon, with one label, trend and percent change per value and the forecast's own extrema |
| `Orchestrator.RegenerationIsIdempotent` | backend/forecast/forecast.ts:132-186 | reading twice gives the same response, and a record that differs only in `generatedAt` |
| `Orchestrator.ReadAfterUploadAgrees` | backend/forecast/forecast.ts:67-207 | a read right after a successful upload, with the same period, returns the upload's response without its message |
| `Orchestrator.OnlyJavaScriptLimitsSize` | backend/forecast/forecast.js:17-22 | the TypeScript handler's errors are all 400; so are the JavaScript handler's for uploads within the limit |
| `Orchestrator.FallbackForecastExample` | backend/forecast/forecast.ts:132-174 | a quarterly read of an empty store succeeds with the built-in series and its worked forecast |
| `ForecastTs.ExtractRevenue` | backend/forecast/forecast.ts:45-57 | the nested row and alias loops, with the sanitising parse, compute exactly `Extracted(TypeScript, rows)` |
| `ForecastTs.HandleForecast` | backend/forecast/forecast.ts:5-213 | the TypeScript handler's response and its store afterwards are exactly `Handle(TypeScript, …)` of the store before |
| `ForecastJs.ExtractRevenue` | backend/forecast/forecast.js:40-52 | the nested loops with the truthiness test and the raw parse compute exactly `Extracted(JavaScript, rows)` |
| `ForecastJs.HandleForecast` | backend/forecast/forecast.js:3-166 | the JavaScript handler's response and its store afterwards are exactly `Handle(JavaScript, …)` of the store before |

## Left out

- Floating point. Values are exact reals, so products, `Math.pow` and the division in the percent change are exact. A rounded result can therefore differ by a cent from the double-precision one when the double nearest a half cent lies below it: `(1.005).toFixed(2)` is `1.00` in JavaScript, while the model rounds the exact 1.005 up to 1.01. At the tie 14200 × 1.05³ = 16438.275 of the built-in series the two agree, because the double product lies just above the tie and `toFixed(2)` also gives 16438.28.
- `Engine.PctChangeAgreesWithTrend`: this is weaker than a statement about every case. Its sign agreement is proved only after a positive previous value. After a negative one, the source's percent change has the opposite sign to the trend, or is 0.
- `JsNumbers.ParseFloat`: the `Infinity` literal is read as NaN, and a numeral too large for a double is kept as a large real. In the source both give `Infinity`. The `Infinity` literal matters only in the JavaScript file, since the TypeScript file's sanitising removes its letters. The overflow applies to both files: a cell of more than 309 digits has nothing for the sanitising to remove, and the model reads it as its exact value.
- `Ingest.HasText`: the TypeScript `undefined`/`null`/`""` test and the JavaScript truthiness test are the same predicate here. Cells are strings, and the only falsy string is `""`. Non-string cell values are not modelled.
- Papa.parse is not part of this model. The upload is given as the parser's rows, or the information that it threw, together with the length of the text. CSV tokenisation, quoting, header handling and UTF-16 length counting are not modelled.
- JSON: the stored `raw_data` value is modelled as a document whose `revenue` field is an array of numbers, a document whose `revenue` is not an array, or the empty string. A bare stored array such as `[1,2]` has no `revenue` field, so it is the second case, and the source answers it with the 400. A `raw_data` value that `JSON.parse` rejects, and an array holding non-numbers, are not modelled. The source answers the first with the 500 below.
- The catch-all 500 response, and exceptions from `formData`, `file.text` or the KV store.
- `Date.now()` is the parameter `now`. HTTP headers, the `Content-Type` and JSON serialisation of the body are left out. The response is a datatype.
- Concurrency: requests are handled one at a time against the store. Interleaved KV writes from concurrent requests are not modelled.
- The rest of the backend (login, auth, PDF upload, summary, routing in `index`) and the frontend are not part of this model.
