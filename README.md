# LowPriceMonitor price engine in Dafny

A Dafny model of the price-monitoring engine in `monitor.js`. The engine keeps a
store of tracked product URLs. Each record holds the issue number, a baseline
price and a timestamp. The engine has two jobs:

- **Onboarding.** When an issue is opened, it pulls the first `http(s)://` URL
  out of the issue body, reads that product's price, records it and comments
  on the issue.
- **Scheduled sweep.** It re-reads every tracked price. On a strictly lower
  price it comments on the issue and lowers the baseline.

Prices come from Steam or MercadoLibre pages.

Modules, one per concern of the source:

- `JsText`: the JavaScript string primitives the program relies on. These are
  the regex class `\s`, `includes` and `trim`/`trimStart`.
- `UrlExtraction`: `extractUrlFromIssue`, the first match of
  `/https?:\/\/[^\s"']+/`.
- `PriceParsing`: JavaScript's `parseFloat`. It reads the longest decimal
  literal after leading whitespace and returns an exact `real`. `None` stands
  for NaN.
- `PriceExtraction`: `getPrice`. A rendered page is a map from CSS selector to
  text; a selector that is absent has null text. The module covers:
  - the Steam selector loop, as a method with a loop invariant, against the
    function `SteamScan`;
  - text cleaning;
  - the MercadoLibre `fraction.cents` composition;
  - the final `!price || isNaN(price)` check.
- `TrackingStore`: the `tracked` object.
  - It keeps JavaScript's insertion order for string keys that are not array
    indices, which covers every `http(s)://` URL: a new key goes last, an
    overwritten key keeps its place.
  - It covers the start-up load with its empty-store fallbacks.
- `Monitor`: the two branches of `run` and the dispatch between them.
  - Each branch is specified as a function from the old store to an `Outcome`:
    the store in memory, the snapshots written to the data file, and the
    comments posted.
  - The `Engine` class performs the same steps in place, and its methods are
    proved equal to those functions.
  - `Engine` holds `tracked` and the histories of file writes and comments.

Foreign effects are parameters of the model:

- the price `getPrice` gives each URL during a run (`Prices`);
- whether posting a given comment succeeds (`Notifier`);
- the timestamp;
- the page a URL renders to (`Option<Page>`);
- the data file's content and the outcome of `JSON.parse`.

## Model

| member | source | states |
|---|---|---|
| `JsText.TrimEmptyIffBlank` | monitor.js:32-33 | the trimmed file content is empty exactly when every character is JavaScript whitespace |
| `UrlExtraction.FindFrom` | monitor.js:50 | scanning from `i` finds nothing exactly when no match starts at or after `i`; otherwise it finds the leftmost start, with a maximal run of URL characters |
| `UrlExtraction.ExtractUrlFromIssue` | monitor.js:49-52 | null exactly when no position starts `http://` or `https://` plus a URL character; otherwise a substring of the body that starts with the scheme, is longer than the scheme, and holds no whitespace, `"` or `'` |
| `UrlExtraction.ExtractUrlIsLeftmostMaximal` | monitor.js:50 | the URL returned is the match at the leftmost start, extended through every following URL character |
| `PriceParsing.ScanLiteral` | monitor.js:84 | a literal is found exactly when the text starts with an optional sign and then a digit, or a point followed by a digit; its parts are digit strings; it is negative only after a leading `-` |
| `PriceParsing.ParseFloat` | monitor.js:84 | a number exactly when the text starts a decimal literal once leading whitespace is skipped (NaN otherwise); never negative when the text has no `-` |
| `PriceParsing.ParseDecimal` | monitor.js:95 | `int.frac` followed by text that cannot continue the literal parses to exactly int + frac/10^len(frac), whatever follows |
| `PriceParsing.ParseInteger` | monitor.js:84 | a run of digits followed by text that cannot continue the literal parses to the integer those digits spell |
| `PriceExtraction.KeepPriceChars` | monitor.js:83 | the cleaned text is no longer than the input and holds only digits, `.` and `,` |
| `PriceExtraction.KeepPriceCharsCounts` | monitor.js:83 | every digit, `.` and `,` survives cleaning as often as it occurs, and no other character survives |
| `PriceExtraction.KeepPriceCharsAppend` | monitor.js:83 | cleaning distributes over concatenation, so kept characters stay in their order |
| `PriceExtraction.KeepPriceCharsIdentity` | monitor.js:83 | cleaning leaves a text unchanged exactly when it already consists only of digits, `.` and `,` |
| `PriceExtraction.ReplaceFirstComma` | monitor.js:83 | the only character changed is the first comma, which becomes `.`; later commas survive |
| `PriceExtraction.ReplaceFirstCommaSplit` | monitor.js:83 | `x,y` with no comma in `x` becomes `x.y`, whatever commas `y` holds |
| `PriceExtraction.SteamDecimalComma` | monitor.js:83-84 | a Steam text `12,99` reads as 12.99 |
| `PriceExtraction.SteamThousandsSeparatorMisread` | monitor.js:83-84 | a Steam text `a.b,c` reads as `a.b`: "1.234,56" gives 1.234, not 1234.56 |
| `PriceExtraction.SteamIgnoresSurroundings` | monitor.js:83 | currency symbols, words and spaces around the amount do not change the cleaned text |
| `PriceExtraction.SteamClean` | monitor.js:83 | the cleaned text holds only digits, `.` and `,`, is no longer than the input, and a text without a comma is only filtered |
| `PriceExtraction.ReadSelector` | monitor.js:81-85 | a selector is skipped (empty reading) exactly when its text is null or empty |
| `PriceExtraction.ReadSelectorParses` | monitor.js:82-85 | a selector's text parses exactly when its cleaned form starts with a digit, or with a point and a digit |
| `PriceExtraction.Readings` | monitor.js:80-81 | one reading per selector, in the fixed selector order |
| `PriceExtraction.FirstPrice` | monitor.js:80-87 | the loop ends with a number exactly when some selector parses, and then with the first such number (0 included); it ends null exactly when every selector has empty text; otherwise NaN |
| `PriceExtraction.SteamScan` | monitor.js:80-87 | the Steam loop leaves null exactly when no selector has text, and a number exactly when some selector parses |
| `PriceExtraction.FirstPriceStep` | monitor.js:81-86 | one loop turn: empty text leaves `price` as it was, a parse ends the loop with that number, unparsable text sets NaN and the loop continues |
| `PriceExtraction.SteamLoop` | monitor.js:70-87 | the imperative `for` loop with its `break` leaves exactly `SteamScan` of the page in `price` |
| `PriceExtraction.Validate` | monitor.js:101-103 | a price is accepted exactly when it is a number other than 0; null, NaN and 0 all fail with "no valid price" |
| `PriceExtraction.PriceOf` | monitor.js:55-112 | a page that did not load fails with a navigation error and only then; a returned price is never 0; a URL with neither host fails with "no valid price" |
| `PriceExtraction.GetPrice` | monitor.js:63-106 | the imperative `getPrice` (navigation, Steam branch, MercadoLibre branch, final check) returns exactly `PriceOf` |
| `PriceExtraction.ReadingNonNegative` | monitor.js:83-84 | a Steam reading is never negative, because cleaning drops any minus sign |
| `PriceExtraction.FirstPriceNonNegative` | monitor.js:80-87 | the number the loop settles on is one of the readings, so it is non-negative when they are |
| `PriceExtraction.SteamPricePositive` | monitor.js:80-106 | a price `getPrice` returns for a URL without the MercadoLibre host is strictly positive |
| `PriceExtraction.SteamZeroStopsTheLoop` | monitor.js:80-103 | when the first selector that parses reads 0, the loop stops there and the page is rejected, whatever later selectors hold |
| `PriceExtraction.MercadoLibreScan` | monitor.js:91-97 | the MercadoLibre branch sets nothing exactly when the fraction element has no text; with no `-` in either text its number is non-negative |
| `PriceExtraction.MercadoLibreHostAbsent` | monitor.js:91 | without the MercadoLibre host only the Steam branch can set the price |
| `PriceExtraction.MercadoLibreOverridesSteam` | monitor.js:91-97 | once the fraction element has text, the MercadoLibre price replaces whatever the Steam branch found |
| `PriceExtraction.MercadoLibreWithoutFraction` | monitor.js:93 | with no fraction text the MercadoLibre branch leaves the Steam result as it was |
| `PriceExtraction.MercadoLibreThousandsMisread` | monitor.js:92-95 | a fraction shown as `a.b` (point as thousands separator) is composed into `a.b.cents` and read as `a.b`: "1.234" gives 1.234 |
| `PriceExtraction.MercadoLibrePrice` | monitor.js:92-95 | with digit texts the price is `fraction.cents`, cents `"00"` when empty; 0 is rejected |
| `TrackingStore.Put` | monitor.js:153 | `tracked[url] = rec`: url holds rec and every other key keeps its record; a new key is appended and an existing key keeps its place |
| `TrackingStore.FromEntries` | monitor.js:35 | the object `JSON.parse` builds holds exactly the keys of the document, each once, with its last value, in the order of their first occurrence (array-index keys excepted, see "Left out") |
| `TrackingStore.Load` | monitor.js:30-46 | a missing file, blank content and unparsable content each give the empty store; otherwise the parsed object |
| `Monitor.Engine.constructor` | monitor.js:30-46 | the module-level load leaves `tracked` equal to `Load` of the file, with no writes and no comments |
| `Monitor.Onboarding` | monitor.js:133-176 | no URL or a failed `getPrice` leaves the store untouched and unwritten; otherwise the store is `tracked[url] = {issue, price, now}` applied to the old one (no other key added, key order kept) and the file is written once with it; the comment posted is "no link", the `getPrice` failure, the success comment, or the failure comment when the success post fails (details after this table) |
| `Monitor.Engine.Onboard` | monitor.js:133-176 | the imperative onboarding branch leaves exactly the store, file writes and comments of `Onboarding` |
| `Monitor.Visit` | monitor.js:184-205 | the baseline changes only on a successful read strictly below it whose drop comment went through; a failed drop post leaves the record as it was; issue number and timestamp never change (details after this table) |
| `Monitor.Engine.Recheck` | monitor.js:184-205 | one turn of the sweep loop changes only the visited URL's record, to `Visit`'s record, and appends `Visit`'s comments |
| `Monitor.SweepComments` | monitor.js:183-206 | the first n visits post at most n comments, and each is a drop comment for a tracked URL, with its issue number, its old baseline and a strictly lower new price |
| `Monitor.SweepCommentsCarryReadPrice` | monitor.js:185-196 | every drop comment carries, as its new price, the price `getPrice` returned for its URL |
| `Monitor.DeliveredDropInSweep` | monitor.js:188-196 | a drop whose post went through during one of the visits is among the sweep's comments |
| `Monitor.SweepRecords` | monitor.js:183-206 | a sweep keeps every key, never changes an issue number or a timestamp, and never raises a baseline |
| `Monitor.SweptPrefixAt` | monitor.js:183-206 | after n visits, each visited key holds its own visit's record and every other key its original one |
| `Monitor.SweepByVisits` | monitor.js:183-209 | the sweep's records are those left by visiting every key, one by one, in key order |
| `Monitor.Sweeping` | monitor.js:180-211 | the scheduled branch keeps the key order and writes the file exactly once, after the loop, with the swept records |
| `Monitor.Engine.RecheckAll` | monitor.js:183-206 | the imperative loop over `Object.entries(tracked)` leaves the records and comments of visiting every key in order, and writes nothing |
| `Monitor.Engine.Sweep` | monitor.js:180-211 | the imperative scheduled branch leaves exactly the store, file writes and comments of `Sweeping` |
| `Monitor.QuietKey` | monitor.js:191-199 | a sweep posts nothing about a URL whose own visit posts nothing |
| `Monitor.QuietKeyUnchanged` | monitor.js:188-205 | a URL whose own visit posts nothing keeps its record through the sweep and gets no comment |
| `Monitor.SweepIsolatesFailure` | monitor.js:203-205 | a URL whose price cannot be read keeps its record and gets no comment; every other URL still gets the record of its own visit |
| `Monitor.SweepSettles` | monitor.js:188 | after a sweep whose posts all succeeded, a second sweep reading the same prices, whatever its posts do, changes nothing and posts nothing: an equal price is not a drop |
| `Monitor.NoDropAtOnboardingPrice` | monitor.js:153-188 | a product onboarded at price p and swept at price p keeps the record `{issue, p, now}` and gets no drop comment |
| `Monitor.Sweeps` | monitor.js:180-211 | any series of scheduled runs keeps the store well formed |
| `Monitor.BaselinesNeverRise` | monitor.js:188-199 | over any series of sweeps the URLs and their order stay the same, issue numbers and timestamps never change, and no baseline rises |
| `Monitor.Running` | monitor.js:115-215 | without an issue-tracker client, or on any other event, a run changes nothing, writes nothing and posts nothing; an opened issue runs onboarding and the schedule runs the sweep |
| `Monitor.Engine.Run` | monitor.js:115-215 | the imperative `run` leaves exactly the store, file writes and comments of `Running` |

`Monitor.Onboarding` states the following:

- With no URL in the body, the store is untouched and not written, and only
  the "no link found" comment is posted.
- When `getPrice` fails, nothing is written.
- The file is written exactly when a URL was found and `getPrice` succeeded.
  In that case the write is the new store, and `store[url]` is `{issue, price, now}`,
  whatever was there before.
- That new store is `TrackingStore.Put` of the old one. No other key is added.
  A new URL goes last, and an existing URL keeps its place.
- Every other URL keeps its record.
- At most one comment is posted. When `getPrice` fails, it is the failure
  comment carrying that error. On success it is the success comment, or, when
  that post fails, the failure comment. Each appears only if its own post
  succeeds.

`Monitor.Visit` states the following:

- The issue number and the timestamp never change.
- The baseline never rises.
- A comment is posted exactly when the record changes.
- A change needs a successful read strictly below the baseline. The comment
  then carries the issue, the old baseline, the new price and the URL.
- A successful lower read whose post goes through always lowers the baseline.
- A failed post leaves the baseline as it was.

Behaviour of the code that is easy to misread:

- The sweep never updates `lastChecked`.
- Onboarding an already-tracked URL overwrites its record, so the baseline can
  rise.
- Thousands separators are misread. On Steam only the first comma becomes a
  point, so "1.234,56" is read as 1.234. On MercadoLibre no comma is rewritten,
  but a fraction "1.234" is composed into "1.234.00", and `parseFloat` stops at
  the second point, again giving 1.234.
- A negative MercadoLibre price passes the final check, because only null,
  NaN and 0 are rejected.

## Left out

- Playwright work is not modelled: launching the browser, the context,
  `networkidle` navigation, timeouts, `waitForTimeout` and `browser.close`. A
  page is the text its selectors return, and a page that fails to load is
  `None`. The wait and throw of `textContent()` when a selector matches no
  element is not modelled; that case reads as null text.
- The Octokit client is not modelled. Each `createComment` is one entry in the
  comment history, and a `Notifier` says whether it succeeds. A failed post
  whose exception escapes to the outer `catch` of `run` ends the run, and the
  model ends it there as well. The text of comment bodies is not modelled.
- `TrackingStore.FromEntries`: keys that are array indices, such as `"0"` or
  `"42"`, are not ordered as JavaScript orders them. JavaScript lists such keys
  first, in ascending numeric order, and `Object.entries` and `JSON.stringify`
  follow that order. The model keeps them in document order. The program itself
  only adds `http(s)://` keys, so such a key can only come from a hand-edited
  data file. The difference shows only in the key order of the sweep and of
  the written file.
- `fs` and JSON are not modelled. The data file is its content together with
  the outcome of `JSON.parse`, given as the object's members in document order.
  A document that parses to something other than an object, or records with
  fields of the wrong type, are not modelled. A write is the snapshot written.
  A failing `writeFileSync` is not modelled.
- `GITHUB_EVENT_PATH` and `GITHUB_EVENT_NAME` handling and `require(payload)`
  are reduced to a `Trigger` value. Runs without a payload fall under `Other`.
  A null issue body, which makes `body.match` throw into the outer catch, is
  not modelled.
- `new Date().toISOString()` is an opaque timestamp parameter.
- Logging with `console.log` and `console.error` is not modelled.
- `Monitor.Engine`: the engine reads prices through a `Prices` oracle, one
  result per URL per run, instead of calling `GetPrice`. `GetPrice` is proved
  equal to `PriceOf` of the page separately, so composing the two needs only a
  page per URL.
- `PriceParsing.ParseFloat` reads values as exact rationals. IEEE-754 rounding
  is not modelled, and neither is the literal `Infinity`, which the model reads
  as NaN. Lone UTF-16 surrogates are not modelled.
