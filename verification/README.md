# A verified model of the stock backend

A Dafny model of three components of the backend and proofs about them.

- **Prices and the backtest.** Uploads of daily bars fill a price table; the days that
  have a bar are the trading calendar; the backtest settles every screened entry N trading
  days later. `Calendar`, `PriceStore` and `Backtest` hold the data, the bisection and the
  pure helpers. `BacktestEngine.RunBacktest` is the two-pass program with its loops. It is
  proved equal to `Backtest.Report` over `Backtest.Naive`, a definition that knows neither
  bisection nor the scatter of wanted prices: find the day that has exactly N trading days
  up to it, and look up the close there. `PriceLaws`, `Summary`, `BacktestLaws` and
  `BacktestMeaning` then say what that means for callers.
- **The sliding-window limiter.** `RateLimit` has the class with its deques, its sweep and
  a ghost history of calls, proved against a step function. `RateLimitLaws` proves that over
  any interleaving of keys and sweeps it decides like a limiter that keeps every allowed
  call of one key forever, and derives its bounds. `RateLimitLogin` takes the two counters of a
  sign-in attempt together and decides for every pair of rules whether one client can use up
  an address counter.
- **Accounts, sessions and email tokens.** `Accounts` plans each request as the list of its
  database commits, so a crash is a prefix of that list. `AccountStore.Session` has the
  handlers and database operations, proved to make exactly the planned commits in the
  planned order (a ghost journal records them). `AccountLaws` proves what holds after any
  run of requests, each of which may stop after any of its commits and be retried.
  `AccountEffects` gives the answer and the whole state that each request leaves, and says
  exactly what ends the life of a token.

Prices, returns and limiter times are real numbers; days are integers; account times are
integers in microseconds. `Ordering` and `AscendingSets` model Python's tuple and string
comparison, its stable `list.sort` (in both directions) and `sorted` of a set.

Points where the code decides:

- The docstring at app/routers/auth.py:277 says that `password_changed_at` ends older
  sessions. The code compares `token_version` only, and so does the model.
- An upload that names a symbol twice, with closes, on a day without a row for it adds two
  rows with one primary key, so the commit fails. `PriceStore.PriceTable.UpsertDailyPrices` reports this
  as `Conflict` and leaves the table as it was.
- `load_close_prices` never asks for the empty symbol, so `Backtest.PriceOf` has no price
  for it even if a bar with that symbol was uploaded.
- The limiter reads its clock before it takes the lock (app/ratelimit.py:69-71), so a call
  can enter with an earlier reading than the call before it; `RateLimit.SlidingWindowLimiter.Check`
  requires that this has not happened. `RateLimitLaws.ClockMustNotGoBack` proves that one step
  decides like the full log exactly then; `RateLimitLaws.ClockBackRefuses` and
  `RateLimitLaws.ClockBackAdmits` are runs in which it refuses a call with an empty window, and
  admits one beyond the rate bound.
- The docstring at app/ratelimit.py:17-20 says that one client cannot lock another out of an
  account, as the client's own counter trips first. `RateLimitLogin.OneClientNeverFillsIff`
  gives the exact condition on the two rules, in which the one attempt that reads its two clocks
  on either side of a window's end counts too. With 10 per 900 s for both it does not hold
  (`RateLimitLogin.ShippedRulesLetOneClientFill`); it would with an address limit of 12.
- The coverage warning looks at the last screening day and the largest horizon only. From
  horizon 1 on that decides all of them (`BacktestLaws.CoverageWarningExact`), but not at
  horizon 0. `BacktestLaws.CoverageWarningRightIff` says for every list of horizons exactly
  when the absence of the warning means full coverage, and
  `BacktestLaws.CoverageWarningMissesGapAtZero` is a whole run, at horizon 0, in which an
  earlier screening day has no exit and the response carries no warning of either kind.

## Model

| member | source | states |
|---|---|---|
| `Calendar.BisectRight` | app/backtest.py:100 | everything before the position is at most the day, everything from it on is later |
| `Calendar.BisectLeft` | app/backtest.py:96 | everything before the position is earlier than the day, nothing from it on is |
| `Calendar.NthTradingDayCounts` | app/backtest.py:79-101 | the bisected answer is d exactly when d is a trading day not before the entry day with exactly n trading days in (day, d], for every n |
| `Calendar.NoneIffTooFew` | app/backtest.py:84-86 | for n >= 1 there is no answer exactly when fewer than n trading days follow |
| `Calendar.NthDayUnique` | app/backtest.py:79-101 | at most one day is the n-th by counting |
| `Calendar.Composition` | app/backtest.py:88-101 | a days and then b days are a + b days, also from a day the calendar lacks |
| `Calendar.Monotone` | app/backtest.py:100-101 | a later entry day or a longer horizon never exits earlier |
| `Calendar.BackfillIsMonotone` | app/backtest.py:100-101 | with more known trading days the n-th stays defined and is no later |
| `Calendar.ExitDaySurvivesIff` | app/backtest.py:100-101 | one more trading day keeps an exit day if and only if it was known, is not after the entry day, or lies beyond the exit |
| `PriceStore.PriceTable.UpsertDailyPrices` | app/crud.py:425-464 | the table after an upload, the counts returned, and when the commit fails |
| `PriceStore.MergedAt` | app/crud.py:444-462 | an upload acts on each (day, symbol) by itself: old bar and items of that symbol decide the new bar |
| `PriceStore.ListPriceTradingDays` | app/crud.py:467-477 | strictly ascending, and exactly the days with a bar |
| `PriceStore.PriceTable.LoadClosePrices` | app/crud.py:502-530 | the answer's domain is exactly the wanted pairs with a non-empty symbol that the table has, with its closes; each wanted pair is asked for once, nothing else is, no statement exceeds the chunk size |
| `PriceStore.PriceTable.LoadDay` | app/crud.py:521-529 | the same for one day, for any chunk size from 1 on |
| `PriceStore.SortSymbols` | app/crud.py:520 | the symbols of a set in string order, each once |
| `PriceLaws.IngestPrices` | app/routers/ingest.py:82-101 | the counts are the numbers of items that create a row, overwrite one, or have no close; inserted is the growth of the table; the commit fails exactly when two items with closes share a symbol without a row |
| `PriceLaws.CountsAddUp` | app/crud.py:443-455 | every item is inserted, updated or skipped |
| `PriceLaws.CountsExact` | app/crud.py:443-455 | the three counts are those of the items with no close, with one for a row on record, and with one for none |
| `PriceLaws.GrowthIsInserted` | app/crud.py:450-453 | a committed upload grows the table by the inserted count |
| `PriceLaws.Unmentioned` | app/crud.py:432-435 | other days and unnamed symbols keep their bars |
| `PriceLaws.StartShowsThrough` | app/crud.py:456-462 | the bar on record survives only in a name or market that no item gives |
| `PriceLaws.LastItemIsStored` | app/crud.py:456-462 | the last item with a close decides its symbol's prices and volume, and its name and market if given |
| `PriceLaws.StoredBarExact` | app/crud.py:444-464 | every bar after every upload: prices and volume of the last item with a close, name and market last given by one, else on record, else empty; unchanged on a failing commit |
| `PriceLaws.UpsertIdempotent` | app/routers/ingest.py:88-91 | the same upload again changes nothing, kept names included |
| `PriceLaws.UpsertsCommute` | app/routers/ingest.py:88-91 | uploads of different days or disjoint symbols give the same table in either order, conflicts included |
| `PriceLaws.UploadAddsItsDay` | app/crud.py:467-477 | the calendar gains the upload's day exactly when it stores a close |
| `PriceLaws.NoClosesNoChange` | app/crud.py:445-448 | a payload without closes leaves the table as it was |
| `PriceLaws.RunsEnlargeTheCalendar` | app/crud.py:425-477 | no run of uploads ever removes a trading day |
| `PriceLaws.RunsBringExitsForward` | app/crud.py:425-477 | after any run of uploads every exit day is still defined and no later |
| `PriceLaws.UploadKeepsExitIff` | app/crud.py:425-477 | exactly when one upload leaves a resolved exit day where it was |
| `Ordering.StringLeIsTotalOrder` | app/backtest.py:317-323 | string comparison is a total order |
| `Ordering.StringLeMeans` | app/backtest.py:317-323 | strings compare by the first character in which they differ, and a beginning comes first |
| `Ordering.ListSortIsStable` | app/backtest.py:285 | sorting, also in reverse, yields a sorted permutation that keeps ties in their order |
| `Ordering.StableSortUnique` | app/backtest.py:285 | there is only one stable sort of a list |
| `Ordering.PrefixIsLeast` | app/backtest.py:280-288 | nothing cut off a sorted list precedes what is kept |
| `Summary.Round4Laws` | app/backtest.py:272-276 | rounding to four places is monotone and moves a value by at most half a unit |
| `Summary.RoundingExact` | app/backtest.py:136-141 | rounding is to the nearest multiple of the last place and, of two, to the even one; no other value is |
| `Summary.SummaryConserves` | app/backtest.py:118-142 | wins, losses and exact zeros add up to the samples; figures are absent exactly without samples |
| `Summary.SummaryOrdered` | app/backtest.py:137-141 | worst <= mean, median <= best, and the win rate lies in [0, 1] |
| `Summary.FiguresExact` | app/backtest.py:118-142 | the average rounds the mean, the median the middle of the sorted samples or the midpoint of two, best and worst its ends |
| `Summary.WinRateExact` | app/backtest.py:127-137 | the win rate rounds wins over samples to six places |
| `Summary.SumLaws` | app/backtest.py:138 | the sum under the mean is additive over every split of the samples |
| `Summary.MedianSplits` | app/backtest.py:139 | at least half the samples lie on either side of the median |
| `Summary.SummaryOrderFree` | app/backtest.py:118-142 | the statistics depend on the returns only, not on their order |
| `Backtest.NormalizedExactly` | app/backtest.py:104-115 | accepted if and only if there is a horizon, all lie in 0..120 and at most 16 differ; the result is the same set, ascending; which of the four errors is raised otherwise |
| `Backtest.RowLePreorder` | app/backtest.py:310-323 | every column's key orders all rows |
| `BacktestEngine.ResolveExitDays` | app/backtest.py:212-220 | the dictionary has an exit day for exactly the pairs the calendar reaches |
| `BacktestEngine.BuildWanted` | app/backtest.py:222-234 | every close the main loop looks up is wanted, and nothing else is |
| `BacktestEngine.LookupIsNaive` | app/backtest.py:235-263 | for every entry and horizon the looked-up outcome is the naive one, because the look-up was wanted |
| `BacktestEngine.ExitDayIsNth` | app/backtest.py:215-220 | the calendar's n-th day is the day found by counting over the table |
| `BacktestEngine.TallyEntry` | app/backtest.py:241-278 | one entry adds its return, missing count and detail row at every horizon |
| `BacktestEngine.Tally` | app/backtest.py:237-278 | the dictionaries and the detail hold what all entries contribute, in order |
| `BacktestEngine.TwoPasses` | app/backtest.py:212-278 | both passes together give the tallies and detail of the naive definition |
| `BacktestEngine.NoPricesNothingSettled` | app/backtest.py:189-210 | the early answers are what the naive definition gives |
| `BacktestEngine.RunBacktest` | app/backtest.py:163-307 | on every path the response or error is the report of the naive definition |
| `BacktestMeaning.SettledIff` | app/backtest.py:241-263 | a settled outcome is exactly a trade: bought at the screened price, or in close-to-close mode only at the table's close if there was none, positive; sold at the close of the n-th trading day; symbol not empty |
| `BacktestMeaning.StatCountsTrades` | app/backtest.py:118-142 | samples, wins and losses of a horizon are the numbers of entries sold, sold above and sold below their price |
| `BacktestMeaning.InEntryOrder` | app/backtest.py:261-278 | the return and the detail row of each trade stand at its place among the trades |
| `BacktestMeaning.RefusedIff` | app/backtest.py:176-181 | which queries are refused and for which reason, by column name, direction and horizons |
| `BacktestMeaning.ResponseSays` | app/backtest.py:289-307 | mode, sort and direction are the query's, its horizons come ascending with one line each, trading days are the distinct screening days |
| `BacktestMeaning.DetailAsAsked` | app/backtest.py:280-288 | the detail is in the order of the column and direction that the query names, and nothing cut off belongs before anything kept |
| `BacktestMeaning.EmptyWarning` | app/backtest.py:202-210 | no entries and no prices each have their own warning |
| `BacktestMeaning.EndsTooSoonExact` | app/backtest.py:336-346 | the first coverage warning names the last trading day and the largest horizon, and is given exactly when the last screening day has no such exit |
| `BacktestLaws.Conservation` | app/schemas.py:256-264 | samples + missing = entries, wins + losses + flat = samples, detail_total = samples at detail_n, on every path |
| `BacktestLaws.DetailHorizon` | app/backtest.py:182-183 | the detailed horizon is the one asked for if present, else the smallest |
| `BacktestLaws.StatMeansPrices` | app/backtest.py:127-128 | wins and losses count the entries sold above and below their entry price |
| `BacktestLaws.PctTakesEntryToExit` | app/backtest.py:261-262 | the return takes the entry price to the exit price |
| `BacktestLaws.RowShowsTrade` | app/backtest.py:264-277 | the row names the entry, each of its four figures is within half a unit of the trade's own, its change agrees with its prices, its return has the sign of the gain |
| `BacktestLaws.EntryOrderIrrelevant` | app/backtest.py:241-300 | the statistics are the same for any order of the entries |
| `BacktestLaws.RowOrderMeans` | app/backtest.py:310-323 | rows compare by the column's value, then screening day, then symbol |
| `BacktestLaws.DetailIsTop` | app/backtest.py:280-288 | the detail is the beginning of the one stable sort of all settled trades; no omitted trade precedes a kept one, in either direction |
| `BacktestLaws.CutWithinRounding` | app/backtest.py:280-288 | in every column of figures and in both directions, an omitted trade is on the wrong side of a kept one by at most 0.0001 before rounding |
| `BacktestLaws.SettledStaysSettled` | app/backtest.py:253-263 | an upload of a later day, or of new symbols for a known day, keeps every settled trade's entry price, exit day and exit price |
| `BacktestLaws.SettledSurvivesIff` | app/crud.py:425-477 | any upload leaves a settled trade exactly as it was if and only if it keeps its exit day, the close there, and the close it was bought at if the screening gave none |
| `BacktestLaws.RunKeepsSettled` | app/backtest.py:253-263 | the same over any run of such uploads |
| `BacktestLaws.SamplesNeverFall` | app/backtest.py:253-263 | no horizon loses a sample in such a run |
| `BacktestLaws.CoverageWarningExact` | app/backtest.py:339-346 | with a largest horizon >= 1 the first warning is absent if and only if every screening day has an exit at every horizon >= 1 |
| `BacktestLaws.CoverageWarningAtZero` | app/backtest.py:339-346 | with horizon 0 alone it is absent if and only if the last screening day traded |
| `BacktestLaws.CoverageWarningRightIff` | app/backtest.py:339-346 | for every list of horizons: its absence means full coverage exactly when 0 is not among them, or it is raised, or every screening day traded |
| `BacktestLaws.CoverageWarningMissesGapAtZero` | app/backtest.py:330-354 | a run at horizon 0 with one entry on an earlier day without prices and five or more priced ones later: counted missing, no warning at all |
| `BacktestLaws.GapWarningExact` | app/backtest.py:347-353 | the second warning appears with count c if and only if the first does not, c is the worst horizon's missing count and at least a fifth of the entries |
| `RateLimit.ShippedRulesAreValid` | app/ratelimit.py:43-54 | the shipped rules are positive, have colon-free buckets and a widest window of 3600 s |
| `RateLimit.KeysDistinct` | app/ratelimit.py:128 | a key determines its bucket and identifier |
| `RateLimit.WidestIsLargest` | app/ratelimit.py:94 | no rule's window exceeds the widest |
| `RateLimit.SlidingWindowLimiter.MaybeSweep` | app/ratelimit.py:90-97 | exactly the drained keys are deleted, at most every ten minutes |
| `RateLimit.SlidingWindowLimiter.Check` | app/ratelimit.py:67-80 | the decision, retry time and new deques are those of one step after the history of calls |
| `RateLimit.SlidingWindowLimiter.Enforce` | app/ratelimit.py:121-134 | disabled limits and unknown buckets count nothing; otherwise the refusal carries the step's retry time |
| `RateLimitLaws.StepMatches` | app/ratelimit.py:70-80 | one step decides like the full log and keeps the deque its recent end |
| `RateLimitLaws.SweepKeepsLink` | app/ratelimit.py:90-97 | a sweep drops only times that left every window |
| `RateLimitLaws.DecisionMatchesLog` | app/ratelimit.py:67-97 | in any interleaving of keys and sweeps a call is allowed if and only if fewer than limit allowed calls of its key lie in (now - window, now] |
| `RateLimitLaws.KeysAreIndependent` | app/ratelimit.py:67-97 | a key's allowed calls are those of a never-swept limiter fed that key's calls only |
| `RateLimitLaws.ClockMustNotGoBack` | app/ratelimit.py:69-71 | one step decides like the full log, in every state that holds its recent end, if and only if the clock reading is not before the last one |
| `RateLimitLaws.ClockBackRefuses` | app/ratelimit.py:69-77 | a run whose clock goes back and in which a call is refused although its window is empty |
| `RateLimitLaws.ClockBackAdmits` | app/ratelimit.py:69-80 | a run whose clock goes back and in which three calls are allowed within a window that has room for two |
| `RateLimitLaws.RateBound` | app/ratelimit.py:70-80 | in any half-open interval of length T at most limit * ceil(T / window) calls on a key are allowed |
| `RateLimitLaws.RetryAfterSufficientAndTight` | app/ratelimit.py:74-78 | 1 <= r <= window + 1; every call before now + r - 1 is refused; with no other call on the key, a call from now + r on is allowed |
| `RateLimitLaws.RetentionBound` | app/ratelimit.py:64-97 | every stored deque is non-empty, sorted, within its limit, and its newest hit is younger than the widest window plus the sweep interval |
| `RateLimitLaws.StoredIsWindow` | app/ratelimit.py:72-80 | right after a call its key's deque holds exactly the allowed calls of its window |
| `RateLimitLaws.ShippedRetention` | app/ratelimit.py:43-54 | with the shipped rules that is 4200 s |
| `RateLimitLogin.NextDecision` | app/ratelimit.py:67-80 | a call is allowed exactly when its key's log leaves room, whatever ran before |
| `RateLimitLogin.AttemptLogs` | app/routers/auth.py:150-151 | an attempt is counted for the client if its counter has room, and for the address only if that and the address counter have |
| `RateLimitLogin.Shadowed` | app/ratelimit.py:18-21 | over any window an address has at most one attempt more counted than the only client that tries it |
| `RateLimitLogin.ShareFormula` | app/ratelimit.py:18-21 | that client's share of the address counter is its limit times ceil(address window / client window), plus one |
| `RateLimitLogin.ShareIsReached` | app/ratelimit.py:18-21 | if the share reaches the address limit, a run of one client's attempts makes the address counter refuse |
| `RateLimitLogin.OneClientNeverFillsIff` | app/ratelimit.py:18-21 | no run of one client's attempts makes the address counter refuse the next call if and only if the share is below the address limit |
| `RateLimitLogin.ShippedRulesLetOneClientFill` | app/ratelimit.py:43-46 | the shipped pair of rules does not meet that condition |
| `Accounts.NormalizeIdempotent` | app/crud.py:34-41 | normal forms are normal, so storing and looking up agree |
| `Accounts.NormalizeIgnoresCase` | app/crud.py:34-41 | addresses that differ in case only belong to one account |
| `AccountEffects.NormalFormOf` | app/crud.py:34-41 | the normal form is the address in lower case without the blank text around it |
| `AccountStore.Session.GetUserByEmail` | app/crud.py:44-47 | the user stored under the normalised address |
| `AccountStore.Session.CreateUser` | app/crud.py:50-61 | one commit: the new user at session generation 0 |
| `AccountStore.Session.MarkEmailVerified` | app/crud.py:64-70 | one commit if the address was not verified, none otherwise |
| `AccountStore.Session.SetPassword` | app/crud.py:73-87 | one commit: new hash, audit date and next session generation |
| `AccountStore.Session.CreateEmailToken` | app/crud.py:93-105 | one commit: an unused token with its expiry |
| `AccountStore.Session.GetUsableEmailToken` | app/crud.py:108-128 | the token if and only if it is for the purpose, unused and not expired |
| `AccountStore.Session.ConsumeEmailToken` | app/crud.py:131-136 | one commit: this token is used |
| `AccountStore.Session.InvalidateEmailTokens` | app/crud.py:139-163 | one commit that uses up exactly the outstanding tokens, if there are any, and their number |
| `AccountStore.Session.IssueToken` | app/routers/auth.py:78-98 | retire what is outstanding, then store one new token |
| `AccountStore.Session.HandleRegister` | app/routers/auth.py:111-138 | exactly the planned commits in order, and the planned reply |
| `AccountStore.Session.HandleLogin` | app/routers/auth.py:142-160 | no commit; signed in if and only if the password verifies |
| `AccountStore.Session.HandleVerifyEmail` | app/routers/auth.py:180-199 | exactly the planned commits in order, and the planned reply |
| `AccountStore.Session.HandleResendVerification` | app/routers/auth.py:207-223 | exactly the planned commits in order, and the planned reply |
| `AccountStore.Session.HandleForgotPassword` | app/routers/auth.py:236-263 | exactly the planned commits in order, and the same reply for every address |
| `AccountStore.Session.HandleResetPassword` | app/routers/auth.py:267-301 | exactly the planned commits in order, the session token minted last |
| `AccountStore.Session.ConsumeAndRetire` | app/routers/auth.py:296-297 | consume the token, then retire the others of its kind |
| `AccountStore.Session.ChangeAndMark` | app/routers/auth.py:298-299 | change the password, then mark the address verified if it was not |
| `AccountEffects.CurrentUserIff` | app/security.py:81-118 | whom a bearer acts for: signed, for an existing user, of that user's generation, neither expired nor of the future; a token without generation is refused |
| `AccountEffects.LoginExact` | app/routers/auth.py:153-160 | exactly the right password signs in, as the user of the address; everything else is refused alike and nothing is committed |
| `AccountEffects.RegisterExact` | app/routers/auth.py:119-138 | a taken address changes nothing; a free one gets exactly this account and one verification token, and is signed in |
| `AccountEffects.RegisteredSignsIn` | app/routers/auth.py:129-134 | after registering, the password given, and no other, signs the new user in |
| `AccountEffects.VerifyExact` | app/routers/auth.py:187-199 | the whole state and the answer after a verification: exactly a token for it, unused and unexpired, is used up and verifies its user |
| `AccountEffects.VerifyVerifies` | app/routers/auth.py:197-199 | a usable token verifies the address it was issued for, is used up, and touches no other user or token |
| `AccountEffects.IssueExact` | app/crud.py:93-163 | issuing uses up the unused tokens of the user and purpose and stores the new one with its expiry |
| `AccountEffects.ResendExact` | app/routers/auth.py:217-223 | exactly an accepted, unverified user gets a new verification token |
| `AccountEffects.ForgotExact` | app/routers/auth.py:245-263 | the user of the address gets a new reset token in place of the others |
| `AccountEffects.ForgotUnknown` | app/routers/auth.py:245-263 | an unknown address changes nothing and is answered alike |
| `AccountEffects.ResetExact` | app/routers/auth.py:286-301 | the whole state and the answer after a reset: exactly a presentable token is used up, and its user gets the password, the next generation and a verified address |
| `AccountEffects.StaysLiveIff` | app/crud.py:108-163 | a request, wherever it stops, uses a live token up exactly if it makes a commit and presents the token in time at its endpoint or has another of its kind issued |
| `AccountEffects.LiveOverRunIff` | app/crud.py:108-163 | a live token is live after any run with crashes exactly if no request of it did so |
| `AccountLaws.PlanOk` | app/routers/auth.py:111-301 | every commit a handler makes meets its conditions in the state it is made in |
| `AccountLaws.InvariantAlways` | app/crud.py:139-147 | after any run with any crashes: unique normal addresses, no orphan tokens, at most one unused token per user and purpose |
| `AccountLaws.VersionIsNumberOfChanges` | app/models.py:68-80 | `token_version` is the number of password changes in the run |
| `AccountLaws.SessionAcceptedIff` | app/security.py:106-118 | after any run a session token is accepted if and only if it decodes, from its minting on: is unexpired, and its user's password has not changed since it was minted; its version is at most the current one |
| `AccountLaws.HandedOutSession` | app/security.py:106-118 | the same for every session token that a request of a run from the empty database handed out |
| `AccountLaws.StaleForever` | app/crud.py:73-87 | a session token that a password change made stale is refused in every later state |
| `AccountLaws.SessionLifetime` | app/security.py:37-49 | a session token decodes from the second of its minting up to, and without, the second its lifetime ends in (sections 4.1.4 and 4.1.6 of RFC 7519) |
| `AccountLaws.RepliesMintLast` | app/security.py:52-54 | every session token handed out carries the generation after the request's last commit, so it is accepted in the state the request leaves, and at once |
| `AccountLaws.TokenPersists` | app/crud.py:131-163 | tokens are never deleted or readdressed, and used ones stay used |
| `AccountLaws.SingleUse` | app/routers/auth.py:187-197 | a raw token that got past its checks once is invalid at both endpoints ever after |
| `AccountLaws.IssueRetiresEarlier` | app/crud.py:139-147 | issuing a token uses up every earlier one of the same user and purpose |
| `AccountLaws.PlanIsTimely` | app/crud.py:96-101 | every token is issued unused, with the lifetime of its purpose |
| `AccountLaws.LiveTokenOrigin` | app/crud.py:108-128 | a live token was issued by some request of the run, and none for the same pair came later |
| `AccountLaws.SuccessIsNewestAndTimely` | app/crud.py:108-128 | a raw token succeeds only at its own purpose's endpoint, before its lifetime is over, and as the newest of its pair |
| `AccountLaws.VerifiedNeedsToken` | app/routers/auth.py:180-199 | a request that verifies an address presents, at its own endpoint, a live token issued to its user |
| `AccountLaws.VerifiedByIssuedToken` | app/routers/auth.py:180-199 | over any run from the empty database: whoever is verified has had a request succeed with a live token that an earlier request had issued to that user |
| `AccountLaws.ResetStopped` | app/routers/auth.py:296-299 | where a reset is stopped decides exactly whether it changed no user, or changed the password, moved the generation on by one and left no reset token unused |
| `AccountLaws.NothingElseToRetire` | app/routers/auth.py:296-298 | under the invariant the reset's second step finds nothing, so the change is the second commit |
| `AccountLaws.ResetFinished` | app/routers/auth.py:267-301 | a whole reset also leaves the address verified and every other user as they were |
| `AccountLaws.ChangeComesWithToken` | app/routers/auth.py:296-299 | whichever request stops wherever, a changed password comes with a consumed usable token and a bumped generation |
| `AccountLaws.OneTokenOneChange` | app/routers/auth.py:286-299 | one raw token changes a password at most once, with crashes and retries |
| `AccountLaws.ChangesNeedIssuedTokens` | app/routers/auth.py:286-299 | over any run from the empty database a user's password changes, and session generation, are at most the reset tokens issued to that user |
| `AccountLaws.ResetRevokesSessions` | app/routers/auth.py:273-285 | a finished reset ends all earlier sessions of its user and of nobody else, and its own new session is accepted until it expires |
| `AccountLaws.PasswordTakesEffect` | app/routers/auth.py:154-159 | after a finished reset a login succeeds if and only if it uses the new password |

## Left out

- Screening snapshots: how `list_snapshot_entries` selects and orders entries is not modelled; a backtest takes its entries as given (`trade_date`, symbol, names, optional close).
- Response fields that only echo the query range or the snapshot session, and the wording of warnings and errors; warnings and errors are data here.
- Query parsing in app/routers/backtest.py, including its refusal of horizon 0 in close-to-close mode; the engine is modelled for all horizons, so the laws hold with or without that refusal.
- IEEE floating point and `Numeric(12, 4)` storage: prices and returns are real numbers, `round` is half-to-even on them, and the fraction 0.2 in the second coverage warning is exactly one fifth.
- Symbols longer than the column's 16 characters.
- Reading the SQL rows of one statement one by one: a statement's rows are added to the answer at once.
- `SlidingWindowLimiter.reset`, the `client_ip` header parsing and settings validation.
- Rate limiting inside the account handlers: a refused request makes no commit and is covered by a request stopped before its first commit.
- Threads: calls of the limiter are taken in lock order, and account requests one after the other; what interleaved requests could do between their commits is not modelled.
- The clock inside one request: every commit of a request and its session token use one reading.
- bcrypt, SHA-256, JWT signing and `jti`: a hash verifies for one password, digests are injective, and a token is either correctly signed or does not decode.
- Fresh random values: user ids and raw email tokens drawn by a request are assumed not to have been drawn before.
- Accounts.NormalizeIdempotent: stated for ASCII whitespace and letters; the program strips and lowers all of Unicode.
- Accounts.NormalizeIgnoresCase: stated for ASCII letters only, for the same reason.
- Address syntax.
- Sign-in attempts that overlap between their two counters: `RateLimitLogin` takes attempts one after the other.
- Not modelled: sending mail, templates, exporters, migrations, records CRUD and coverage aggregates.
