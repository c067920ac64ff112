# Quote rollups, statistics and the login dialog of AngularAndSpring

This project models three parts of the AngularAndSpring trading dashboard in Dafny.

1. **The rollup engine of the Itbit and Bitfinex services** (`ItbitService`, `BitfinexService`).
   - Raw quotes are compressed day by day into hourly and daily averages.
   - Each day window is queried with an open interval (`createdAt` strictly between its ends) and grouped by pair.
   - Each pair's quotes are cut into 24 hour buckets (hourly pass) or one day bucket (daily pass).
   - A bucket with more than 2 quotes is folded into one row. The fold starts from a zero seed and uses the step `avgIbQuote` / `avgBfQuote` with count = bucket size, which gives the field-wise mean.
   - The day-window loop runs while the window's end is before today's midnight. It writes only non-empty results.
   - A single-instance flag decides whether `createIbAvg` / `createBfAvg` builds the pipeline.
   - Itbit maps pair names for its `currpairs` lookup and for `getOrderbook`.
2. **The statistics engine, as pinned by `StatisticServiceTest`.**
   - Quotes no older than the horizon are kept.
   - Over them it computes performance (first to last price, in percent), average volume, the price range, and the volatility. The volatility is the population standard deviation, represented by its square.
   - The test's three scenarios (1, 2 and 5 years) are proved value by value.
3. **The login dialog (`LoginComponent`).**
   - The field rules of the two forms.
   - The password-match group validator.
   - The handling of login and sign-in replies: failure flags, the `loggedIn` flag, the token store and closing the dialog.
   - The "waiting for response" flag as an event machine.

Files:
- `arithmetic.dfy`: sums, means, minima, maxima and variance of real sequences.
- `quotes.dfy`: quotes and the reduce step.
- `rollup.dfy`: buckets, thresholds, hourly and daily rows, with their properties.
- `window.dfy`: a whole day window, i.e. all pairs.
- `services.dfy`: the loop, the guard and the pair mappings.
- `statistics.dfy`: the statistics engine.
- `scenarios.dfy`: the three statistics scenarios.
- `login.dfy`: the login dialog.

Both services are modelled by one definition parameterised by the exchange. The exchanges differ only in these ways:
- field count: 15 for Itbit, 7 for Bitfinex;
- the seed's extra value: Itbit's `serverTimeUTC` is the current time, Bitfinex's `timestamp` is `""`;
- where the pair comes from. Itbit's step copies it from the accumulator. Bitfinex's step builds a quote without a pair, and `setPair(key)` restores it after the fold.

The Bitfinex seed's `""` is its `timestamp` argument, not a pair.

Instants are integer milliseconds in the rollup model and whole days in the statistics scenarios.

## Model

| member | source | states |
|---|---|---|
| Quotes.AvgHourValue | backend/src/main/java/ch/xxx/trader/usecase/services/ItbitService.java:261-276 | one fold step adds exactly sample/count to the running value of a field |
| Quotes.AvgQuote | backend/src/main/java/ch/xxx/trader/usecase/services/ItbitService.java:261-279 | one reduce step moves every field of the accumulator by the new quote's value divided by count, keeps the accumulator's `createdAt` and server time, and keeps the pair for Itbit but drops it for Bitfinex |
| Quotes.Reduce | backend/src/main/java/ch/xxx/trader/usecase/services/ItbitService.java:230-233 | the sequential `reduce` keeps the seed's field count, `createdAt` and extra value |
| Quotes.ReduceKeeps | backend/src/main/java/ch/xxx/trader/usecase/services/ItbitService.java:261-278 | the fold keeps the seed's field count, `createdAt` and server time; Itbit also keeps the seed's pair |
| Quotes.ReduceField | backend/src/main/java/ch/xxx/trader/usecase/services/ItbitService.java:230-233 | after the fold, field k is the seed's value plus the bucket's column sum divided by count |
| Quotes.BitfinexFoldUnsetsPair | backend/src/main/java/ch/xxx/trader/usecase/services/BitfinexService.java:253-262 | a Bitfinex fold over at least one quote leaves the pair unset, whatever the seed held |
| Quotes.Aggregate | backend/src/main/java/ch/xxx/trader/usecase/services/BitfinexService.java:213-226 | an aggregated row carries the group key as pair, the bucket start as `createdAt`, the seed's timestamp, and all of the exchange's fields |
| Quotes.AggregateIsMean | backend/src/main/java/ch/xxx/trader/usecase/services/ItbitService.java:219-235 | every numeric field of an aggregated row is the arithmetic mean of that field over the bucket |
| Rollup.BetweenMembers | backend/src/main/java/ch/xxx/trader/usecase/services/ItbitService.java:116-117 | the query keeps exactly the quotes stamped strictly inside the window |
| Rollup.GroupMembers | backend/src/main/java/ch/xxx/trader/usecase/services/ItbitService.java:122 | a pair's group holds exactly the queried quotes with that pair |
| Rollup.Keys | backend/src/main/java/ch/xxx/trader/usecase/services/ItbitService.java:122-123 | the multimap's key set lists each pair once |
| Rollup.KeysMembers | backend/src/main/java/ch/xxx/trader/usecase/services/ItbitService.java:122-123 | a pair is a key exactly when some queried quote carries it |
| Rollup.EmittedHours | backend/src/main/java/ch/xxx/trader/usecase/services/ItbitService.java:218-229 | the hours that produce a row are strictly increasing, and each has more than 2 quotes in its bucket |
| Rollup.MakeQuoteHour | backend/src/main/java/ch/xxx/trader/usecase/services/ItbitService.java:214-239 | one row per hour whose bucket exceeds the threshold |
| Rollup.MakeQuoteDay | backend/src/main/java/ch/xxx/trader/usecase/services/ItbitService.java:241-259 | at most one row; a row exists exactly when the day bucket has more than 2 quotes, and it is that bucket's aggregate stamped with the day's begin, each field the mean of the bucket |
| Rollup.HourlyWindow | backend/src/main/java/ch/xxx/trader/usecase/services/ItbitService.java:115-127 | one hourly window yields at most 24·k rows in total, for k queried pairs, and none when the query is empty |
| Rollup.DailyWindow | backend/src/main/java/ch/xxx/trader/usecase/services/ItbitService.java:151-163 | one daily window yields at most one row per queried pair, all stamped with the window's begin, and none when the query is empty |
| RollupProperties.EmittedHoursComplete | backend/src/main/java/ch/xxx/trader/usecase/services/ItbitService.java:218-236 | every hour from h on whose bucket has more than 2 quotes is emitted |
| RollupProperties.EmittedHoursExact | backend/src/main/java/ch/xxx/trader/usecase/services/ItbitService.java:218-236 | an hour is emitted if and only if its bucket has more than 2 quotes |
| RollupProperties.HourlyRow | backend/src/main/java/ch/xxx/trader/usecase/services/ItbitService.java:223-235 | the j-th hourly row is stamped with its hour's start and is the mean of that hour's bucket |
| RollupProperties.HourlyStamps | backend/src/main/java/ch/xxx/trader/usecase/services/ItbitService.java:218-237 | hourly rows come in increasing time order, and a row stamped with hour i exists if and only if hour i's bucket has more than 2 quotes |
| RollupProperties.HourlyMeans | backend/src/main/java/ch/xxx/trader/usecase/services/BitfinexService.java:210-230 | at most 24 hourly rows, each the mean of an hour bucket with more than 2 quotes |
| RollupProperties.BoundaryQuoteInNoBucket | backend/src/main/java/ch/xxx/trader/usecase/services/ItbitService.java:225-228 | a quote stamped exactly on an hour boundary falls into no hour bucket (strict after/before) |
| WindowProperties.BetweenInside | backend/src/main/java/ch/xxx/trader/usecase/services/ItbitService.java:248-253 | re-filtering already-queried quotes by the same window changes nothing |
| WindowProperties.PairWithQuoteIsKey | backend/src/main/java/ch/xxx/trader/usecase/services/ItbitService.java:122-124 | every pair with a queried quote is among the multimap's keys |
| WindowProperties.DayGroupMembers | backend/src/main/java/ch/xxx/trader/usecase/services/ItbitService.java:152-158 | a pair's day group holds exactly the raw quotes with that pair stamped strictly inside the window |
| WindowProperties.DailyForKeysRows | backend/src/main/java/ch/xxx/trader/usecase/services/ItbitService.java:159-163 | every daily row belongs to a listed key whose bucket has more than 2 quotes, and is that bucket's aggregate |
| WindowProperties.DailyForKeysDistinct | backend/src/main/java/ch/xxx/trader/usecase/services/ItbitService.java:159-163 | distinct keys give daily rows with distinct pairs |
| WindowProperties.DailyForKeysComplete | backend/src/main/java/ch/xxx/trader/usecase/services/ItbitService.java:159-163 | every listed key whose bucket has more than 2 quotes gets a daily row |
| WindowProperties.DailyWindowSound | backend/src/main/java/ch/xxx/trader/usecase/services/ItbitService.java:151-163 | each row of a daily window is the aggregate of its pair's day group, which has more than 2 quotes |
| WindowProperties.DailyWindowOnePerPair | backend/src/main/java/ch/xxx/trader/usecase/services/BitfinexService.java:184-192 | a daily window has at most one row per pair |
| WindowProperties.DailyWindowComplete | backend/src/main/java/ch/xxx/trader/usecase/services/ItbitService.java:151-163 | every pair whose day group has more than 2 quotes gets a daily row |
| WindowProperties.HourBucketMembers | backend/src/main/java/ch/xxx/trader/usecase/services/ItbitService.java:225-227 | an hour bucket of a pair holds exactly that pair's raw quotes strictly inside both the day and the hour |
| WindowProperties.HourRowOfKey | backend/src/main/java/ch/xxx/trader/usecase/services/BitfinexService.java:221-227 | every hourly row of a key carries that key and is the aggregate of one of its hour buckets |
| WindowProperties.HourlyForKeysRows | backend/src/main/java/ch/xxx/trader/usecase/services/ItbitService.java:123-127 | every hourly row belongs to a listed key and is the aggregate of one of its buckets with more than 2 quotes |
| WindowProperties.HourlyForKeysComplete | backend/src/main/java/ch/xxx/trader/usecase/services/ItbitService.java:123-127 | every listed key's hour bucket with more than 2 quotes gets a row stamped with that hour |
| WindowProperties.ConcatDistinctRows | backend/src/main/java/ch/xxx/trader/usecase/services/ItbitService.java:123-127 | one key's block of hourly rows with increasing stamps, followed by rows of other keys with no repeated (pair, hour), repeats no (pair, hour) either |
| WindowProperties.HourlyForKeysDistinct | backend/src/main/java/ch/xxx/trader/usecase/services/ItbitService.java:214-239 | with distinct keys and increasing hour marks, no two hourly rows share both pair and hour, because each key's loop over the 24 hours emits at most one row per hour |
| WindowProperties.HourlyWindowOnePerPairHour | backend/src/main/java/ch/xxx/trader/usecase/services/ItbitService.java:115-127 | an hourly window holds at most one row per pair and hour |
| WindowProperties.HourlyWindowSound | backend/src/main/java/ch/xxx/trader/usecase/services/ItbitService.java:115-127 | each row of an hourly window is the aggregate of an hour bucket of its pair that has more than 2 quotes |
| WindowProperties.HourlyWindowComplete | backend/src/main/java/ch/xxx/trader/usecase/services/BitfinexService.java:144-156 | every pair's hour bucket with more than 2 quotes gets a row stamped with that hour |
| Services.DayHours | backend/src/main/java/ch/xxx/trader/usecase/services/ItbitService.java:216 | the day's 25 hour boundaries increase, start at the window's begin and end one day later |
| Services.WritesFor | backend/src/main/java/ch/xxx/trader/usecase/services/ItbitService.java:128-133 | at most one write per window; every write targets the pass's collection and is non-empty |
| Services.WindowCountExact | backend/src/main/java/ch/xxx/trader/usecase/services/ItbitService.java:113-136 | the loop's iteration count is the number of days, rounded up, from the first window's end to today, and zero when that end is not before today |
| Services.RunWindows | backend/src/main/java/ch/xxx/trader/usecase/services/ItbitService.java:107-141 | the pass visits windows shifted day by day, all ending before today, stops at the first one that does not, and writes each window's non-empty rows in order |
| Services.Enter | backend/src/main/java/ch/xxx/trader/usecase/services/ItbitService.java:181-182 | a call builds if and only if the deployment is not single-instance or the flag is unset; building sets the flag and nothing clears it |
| Services.SingleInstanceBuildsOnce | backend/src/main/java/ch/xxx/trader/usecase/services/ItbitService.java:179-197 | in single-instance mode, of n successive calls only the first on an unset flag builds |
| Services.MultiInstanceAlwaysBuilds | backend/src/main/java/ch/xxx/trader/usecase/services/ItbitService.java:179-197 | without single-instance mode every call builds |
| Services.CreateAvg | backend/src/main/java/ch/xxx/trader/usecase/services/ItbitService.java:179-212 | a call the guard lets through runs the hourly and the daily pass into their own collections; otherwise it writes nothing |
| Services.ItbitSymbol | backend/src/main/java/ch/xxx/trader/usecase/services/ItbitService.java:78-79 | `currpairs` knows exactly btcusd and btceur |
| Services.ItbitOrderbookPair | backend/src/main/java/ch/xxx/trader/usecase/services/ItbitService.java:82-83 | the order book call renames btcusd and nothing else |
| Services.OrderbookVersusCurrpairs | backend/src/main/java/ch/xxx/trader/usecase/services/ItbitService.java:78-83 | the order book name agrees with the `currpairs` name for btcusd only |
| Statistics.InHorizon | backend/src/test/java/ch/xxx/trader/usecase/services/StatisticServiceTest.java:66-77 | the filter never grows the sequence and keeps only quotes no older than the horizon |
| Statistics.InHorizonMembers | backend/src/test/java/ch/xxx/trader/usecase/services/StatisticServiceTest.java:66-77 | a quote is kept exactly when it is no older than the horizon |
| Statistics.InHorizonKeepsAll | backend/src/test/java/ch/xxx/trader/usecase/services/StatisticServiceTest.java:40-51 | when every quote is inside the horizon, all are kept in order |
| Statistics.InHorizonMonotone | backend/src/test/java/ch/xxx/trader/usecase/services/StatisticServiceTest.java:40-77 | a longer horizon keeps everything a shorter one keeps |
| Statistics.InHorizonChronological | backend/src/test/java/ch/xxx/trader/usecase/services/StatisticServiceTest.java:79-90 | filtering a chronological sequence keeps it chronological |
| Statistics.FirstAndLastAreExtremes | backend/src/test/java/ch/xxx/trader/usecase/services/StatisticServiceTest.java:79-90 | on chronological input, the first kept quote is the earliest and the last is a latest one |
| Statistics.Performance | backend/src/test/java/ch/xxx/trader/usecase/services/StatisticServiceTest.java:72 | performance times the first price is 100 times the change from first to last |
| Statistics.PerformanceOf | backend/src/test/java/ch/xxx/trader/usecase/services/StatisticServiceTest.java:46 | performance over the kept quotes is the percentage change from the first kept price to the last; none kept gives 0 |
| Statistics.AvgVolume | backend/src/test/java/ch/xxx/trader/usecase/services/StatisticServiceTest.java:73 | the average volume times the number of kept quotes is their total volume; none kept gives 0 |
| Statistics.AvgVolumeBetween | backend/src/test/java/ch/xxx/trader/usecase/services/StatisticServiceTest.java:73 | the average volume lies between the least and the greatest kept volume |
| Statistics.Low | backend/src/test/java/ch/xxx/trader/usecase/services/StatisticServiceTest.java:74 | the low bounds every kept price from below and is one of them |
| Statistics.High | backend/src/test/java/ch/xxx/trader/usecase/services/StatisticServiceTest.java:75 | the high bounds every kept price from above and is one of them |
| Statistics.Volatility | backend/src/test/java/ch/xxx/trader/usecase/services/StatisticServiceTest.java:76 | the squared volatility is non-negative, and times the count it is the sum of squared deviations from the mean price |
| Statistics.VolatilityPositive | backend/src/test/java/ch/xxx/trader/usecase/services/StatisticServiceTest.java:76 | the squared volatility is positive exactly when two kept prices differ, so it is zero exactly when all kept prices are equal |
| Statistics.Summarize | backend/src/test/java/ch/xxx/trader/usecase/services/StatisticServiceTest.java:40-77 | no kept quotes give all-zero statistics; otherwise low is at most high |
| Statistics.Analyze | backend/src/test/java/ch/xxx/trader/usecase/services/StatisticServiceTest.java:40-77 | an empty horizon gives all-zero statistics without failing |
| Statistics.BitfinexProjectionFields | backend/src/test/java/ch/xxx/trader/usecase/services/StatisticServiceTest.java:111-112 | the engine reads the Bitfinex fields named `last_price` and `volume` |
| StatisticsScenarios.BitfinexQuotesGiveSamples | backend/src/test/java/ch/xxx/trader/usecase/services/StatisticServiceTest.java:79-90 | the test's Bitfinex quotes give the engine the nine (stamp, price, volume) samples |
| StatisticsScenarios.BitstampQuotesGiveSamples | backend/src/test/java/ch/xxx/trader/usecase/services/StatisticServiceTest.java:92-109 | the test's Bitstamp quotes give the same samples |
| StatisticsScenarios.KeptOneYear | backend/src/test/java/ch/xxx/trader/usecase/services/StatisticServiceTest.java:81-83 | one year drops the 4-year and 15-month quotes and keeps the 11-month one and later |
| StatisticsScenarios.KeptTwoYears | backend/src/test/java/ch/xxx/trader/usecase/services/StatisticServiceTest.java:81-82 | two years drop only the 4-year quote |
| StatisticsScenarios.KeptFiveYears | backend/src/test/java/ch/xxx/trader/usecase/services/StatisticServiceTest.java:94 | five years keep every quote |
| StatisticsScenarios.OneYearScenario | backend/src/test/java/ch/xxx/trader/usecase/services/StatisticServiceTest.java:67-77 | one year: performance 200, average volume 60, range [30, 90], volatility 20 (squared 400) |
| StatisticsScenarios.TwoYearsScenario | backend/src/test/java/ch/xxx/trader/usecase/services/StatisticServiceTest.java:54-64 | two years: performance 350, average volume 55, range [20, 90], squared volatility 525 (22.9128…) |
| StatisticsScenarios.FiveYearsScenario | backend/src/test/java/ch/xxx/trader/usecase/services/StatisticServiceTest.java:41-51 | five years: performance 800, average volume 50, range [10, 90], squared volatility 2000/3 (25.8198…) |
| Login.Utf16Length | frontend/src/angular/src/app/overview/login/login.component.ts:65 | JavaScript's string length counts each character outside the Basic Multilingual Plane twice: it lies between the character count and twice that count, and equals the character count exactly when no character is outside that plane |
| Login.TwoAstralCharactersReachMinLength | frontend/src/angular/src/app/overview/login/login.component.ts:67-70 | a password of two emoji has length 4 and passes the password field's rules |
| Login.FieldValid | frontend/src/angular/src/app/overview/login/login.component.ts:61-90 | the e-mail is valid when non-empty; every other field when it has at least 4 UTF-16 code units |
| Login.LoginFormRule | frontend/src/angular/src/app/overview/login/login.component.ts:81-90 | the login form's fields pass if and only if name and password have at least 4 UTF-16 code units |
| Login.SigninFormRule | frontend/src/angular/src/app/overview/login/login.component.ts:61-76 | the sign-in form's fields pass if and only if name and both passwords have at least 4 UTF-16 code units and the e-mail is non-empty |
| Login.Validate | frontend/src/angular/src/app/overview/login/login.component.ts:95-115 | untouched: `pwMatching` and the controls stay; touched: the passwords match if and only if they are equal and non-empty, and on a mismatch both fields' errors are replaced by exactly {MatchPassword} |
| Login.EmptyPasswordsNeverMatch | frontend/src/angular/src/app/overview/login/login.component.ts:100-108 | two empty passwords never match, and both get the MatchPassword error |
| Login.ValidateIdempotent | frontend/src/angular/src/app/overview/login/login.component.ts:95-115 | validating again right away changes nothing |
| Login.ValidateSymmetric | frontend/src/angular/src/app/overview/login/login.component.ts:100-103 | swapping the two password fields does not change the match |
| Login.Initial | frontend/src/angular/src/app/overview/login/login.component.ts:46-51 | a new dialog is not waiting, takes the passwords as matching, shows no failure and is open |
| Login.MatchingUntilTouched | frontend/src/angular/src/app/overview/login/login.component.ts:95-114 | as long as every edit leaves both password fields untouched, `pwMatching` keeps the value it started with, so a fresh dialog reports matching passwords |
| Login.Respond | frontend/src/angular/src/app/overview/login/login.component.ts:149-173 | a reply sets `loggedIn` from the token and stops waiting; a non-null `userId` clears the failure and closes the dialog with `loggedIn`, a null one sets the failure; only a login writes the token store |
| Login.Step | frontend/src/angular/src/app/overview/login/login.component.ts:78-147 | clicks start waiting, replies stop it, request errors leave it; only a login reply can touch the token store; an edit of the sign-in form sets `pwMatching` to the group validator's result, and nothing else changes it |
| Login.Run | frontend/src/angular/src/app/overview/login/login.component.ts:117-177 | after a run of events the component waits when the last event was a click and not when it was a reply; without a login reply the token store is untouched |
| Login.WaitingAfterRun | frontend/src/angular/src/app/overview/login/login.component.ts:124-164 | after any events the dialog waits if and only if a click came after the last reply, or it was waiting and no reply came |
| Login.StoreOnlyFromLogin | frontend/src/angular/src/app/overview/login/login.component.ts:149-159 | without a successful login reply, for instance through sign-ins only, the token store keeps its contents |
| Login.StoreAfterLogin | frontend/src/angular/src/app/overview/login/login.component.ts:161-170 | after a successful login the store holds that reply's token and user id, and the dialog is closed with `loggedIn` |

## Left out

- Reactive plumbing is modelled sequentially: Reactor, Mongo I/O, timeouts, `onErrorResume`/`onErrorContinue`, logging and schedulers. The model reads every raw quote of a window and writes every row. In the services, the 5-second timeout applies to each item, and `onErrorResume` then completes the stream normally. So a read that times out or fails partway yields the rows of a partial query, which are still aggregated and inserted. An `insertAll` that fails partway can leave some rows written. None of this is modelled.
- `ensureIndex` and the two `CompletableFuture`s of `createHourDayAvg`: the hourly pass runs before the daily pass, with no 10-second delay and no concurrency.
- Concurrent callers racing on the static single-instance flag are not modelled.
- `ServiceUtils` is not part of this model.
  - `createTimeFrame`: the first window is a parameter.
  - `createDayHours`: taken as 25 instants one hour apart, with no daylight-saving shift (`Services.DayHours`).
  - `avgHourValue`: assumed to be a + b / n (`Quotes.AvgHourValue`).
- The day-window loop moves both ends by exactly one day (`DayMs`, in `Services.RunWindows` and `Services.WritesFor`). The services use `Calendar.add(DAY_OF_YEAR, 1)`, which moves 23 or 25 hours across a daylight-saving change. That shift is not modelled.
- Numeric fields are assumed never null, and aggregation is assumed never to throw. In the services, an exception inside the hourly or daily `map` (ItbitService.java:123-124 and 159-160) is not caught, because the `onErrorResume` sits upstream of it. `block()` would rethrow it and end the window loop early, skipping every later window. `Services.RunWindows` always runs to the last window.
- BigDecimal rounding is not modelled: numbers are exact reals. The `long` count is an unbounded `nat`.
- The Itbit seed's `new Date()` is modelled as one clock value per `createAvg` call, shared by every window, key and hour. The services create a new `Date` for every window, key and hour in `makeIbQuoteHour`, and for every window and key in `makeIbQuoteDay`.
- Java `HashMap` key order: the key set is taken in first-appearance order of the pairs. Any order gives the same set of rows; only the list order would differ.
- Bitfinex's `getOrderbook` passes the pair to the order book client unchanged; it has no logic of its own to model.
- `insertQuote`, `currentQuote`, `tfQuotes`, `pdfReport`: thin storage and report wrappers. Only their `currpairs` lookup is modelled.
- `ScheduledTask`, `SchedulingConfig`, the detail components and the auth guard are callers or context, outside this core.
- `StatisticService` is not part of this model, so the engine is modelled from its test.
  - The horizon cut-off is inclusive (a stamp equal to now minus the horizon is kept).
  - First and last are positional in the kept sequence.
  - Calendar months and years are taken as whole days.
- Statistics.Volatility: states the variance, the square of the standard deviation the service reports, because a square root is not available over the reals here.
- Statistics.PerformanceOf: a first price of 0 gives 0 here. What the service does then is not modelled.
- Statistics.Analyze: its own contract covers only the empty horizon; the non-empty case is stated per component by `PerformanceOf`, `AvgVolume`, `Low`, `High` and `Volatility`.
- Field order: Bitfinex quotes in the scenarios carry only `last_price` and `volume`. The other fields are 0, where the test passes `null`.
- The Angular runtime is not modelled:
  - template bindings and `ngOnInit`;
  - how Angular turns the group validator's boolean return value into the form's status;
  - re-validation of a control after `setErrors(null)` clears its required/min-length errors;
  - `takeUntilDestroyed`: events after the dialog closes are still handled in the model.
- Login.Respond: a missing reply (`us` null) sets `user`, `loggedIn` and `waiting`, then stops. In the component, reading `userId` at that point throws; the exception itself is not modelled.
- `getOrderbook` of Itbit translates btcusd only. btceur reaches the order book client as `btceur` although `currpairs` maps it to XBTEUR. The model keeps this behaviour (`Services.OrderbookVersusCurrpairs`).
