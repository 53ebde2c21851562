# lotto-insight analysis engine, modelled in Dafny

This project models the statistical analysis engine of lotto-insight (`src/lib/utils.ts`).
The engine reads a table of 4D lottery results. There is one row per draw date, and one
optional first-prize numeral per row for each of the seven operators in `COMPANIES`.
A numeral *wins* when two of its last three digits are equal, after left-padding it to four
digits. Each operator's draws are read in date order, and the engine derives the following:

- the digit pattern of a numeral (`getLast3DigitPattern`, `isUniqueLast3Pattern`);
- the longest win and lose streak (`getLongestStreaks`);
- the mean win and lose streak lengths (`getAverageStreaks`, `average`);
- a hit-rate replay that bets right after a losing run of average length (`getBetHitRate`);
- a progressive-stake simulation (`getBetResult`). After each loss it sets the stake to the
  smallest multiple of the base stake whose prize would cover the losses so far plus that
  new stake. This may leave the stake unchanged: with basePrize 840 and baseBet 280 the first
  loss keeps multiplier 1.

Modules, one per concern of the source:

| file | module | models |
|---|---|---|
| `wrappers.dfy` | `Wrappers` | `Option` |
| `results.dfy` | `Results` | `COMPANIES`, the pivoted result row, truthiness of a cell |
| `classifier.dfy` | `Classifier` | `hasDuplicateInLastThreeDigits`, `getLast3DigitPattern`, `isUniqueLast3Pattern` |
| `series.dfy` | `Series` | the date sort, one company's participating draws, their maximal runs |
| `longest.dfy` | `LongestStreaks` | `getLongestStreaks` |
| `average.dfy` | `AverageStreaks` | `average`, `getAverageStreaks` |
| `hitrate.dfy` | `HitRate` | `getBetHitRate` |
| `betresult.dfy` | `BetSimulator` | `getBetResult` |

The pure functions of the source are Dafny functions. Each scan loop is a Dafny `method` with
its own loop and local variables. Each method is proved equal to a specification function over
the company's draws, and lemmas prove the promised properties of that function. All the scans
share one fact: the draws of a company split uniquely into maximal runs of equal
classification (`Series.RunsOfIsPartition`, `Series.RunPartitionIsUnique`). The streak
analyzers are stated and proved about those runs.

Some points the code settles:

- A streak whose first draw has an empty date string is never recorded by
  `getLongestStreaks`, because `currentStart` is then falsy. The model keeps this through
  `Eligible`.
- In `getBetResult`, when basePrize > baseBet (the model's precondition), no draw can lower
  `netProfit`, so it never becomes negative. After every loss the stake is set, possibly to
  the same value, so that the next win pays more than the outstanding loss plus the stake. Without that condition a win can lose
  money: with basePrize 1 and baseBet 2, a single winning draw ends at -1. What the code
  accumulates in `netProfit` is the prizes minus all stakes, plus the not-yet-recovered
  `cumulativeLoss` (`BetSimulator.LedgerHolds`). It is not prizes minus total cost.
- In the second pass of `getBetHitRate`, `currentLose` is updated before the pending bet is
  settled. The two updates are independent, so the order changes nothing.

## Model

| member | source | states |
|---|---|---|
| Results.CompaniesListsEachCompanyOnce | src/lib/constants.ts:3 | there are seven companies, every company is listed, and none twice |
| Results.Participates | src/lib/utils.ts:67 | a company takes part in a row exactly when its cell is present, not null, and not the empty string (the `!value` test, also at lines 149, 192, 220 and 270) |
| Classifier.PadStart4 | src/lib/utils.ts:18 | the result is at least four long, ends with the input and has only '0's before it |
| Classifier.Last3 | src/lib/utils.ts:18-19 | the result has three characters: the last three of the input, or the input left-padded with '0' |
| Classifier.HasDuplicateInLastThreeDigits | src/lib/utils.ts:16-23 | a missing value never wins; otherwise the value wins exactly when two of the three last padded digits are equal |
| Classifier.IsUniqueLast3Pattern | src/lib/utils.ts:41-43 | a three-letter pattern is unique exactly when its three letters are pairwise distinct |
| Classifier.CharSetOfThree | src/lib/utils.ts:42 | the set of a three-character string is its three characters |
| Classifier.RelabelByFirstOccurrence | src/lib/utils.ts:27-38 | the map-and-counter loop labels each digit with the letter of its first occurrence, new digits taking the next letter from 'A' |
| Classifier.GetLast3DigitPattern | src/lib/utils.ts:25-39 | the pattern is the first-occurrence labelling of the padded last three digits, starts with 'A', and is unique exactly when the numeral does not win |
| Classifier.FirstOccurrenceLabelsUnique | src/lib/utils.ts:30-38 | the first-occurrence labelling of a digit string is unique |
| Classifier.LettersAreContiguous | src/lib/utils.ts:28-35 | the letters used are every letter from 'A' up to the highest one |
| Classifier.PatternAgreesWithClassifier | src/lib/utils.ts:41-43 | a pattern with the same equalities as the last three digits is unique exactly when the numeral does not win |
| Series.InsertByDate | src/lib/utils.ts:53 | inserting into a date-sorted sequence keeps it sorted and adds exactly that row |
| Series.SortByDate | src/lib/utils.ts:53 | the copy is sorted by date and is a permutation of the rows |
| Series.SortedArrangementIsUnique | src/lib/utils.ts:53 | two date-sorted permutations of rows keyed by date are equal |
| Series.SortIgnoresInputOrder | src/lib/utils.ts:53 | rows keyed by date sort to the same sequence in whatever order they come |
| Series.DateLeTotal | src/lib/utils.ts:53 | any two dates are comparable |
| Series.DateLeTransitive | src/lib/utils.ts:53 | date order is transitive |
| Series.DateLeAntisymmetric | src/lib/utils.ts:53 | dates ordered both ways are equal |
| Series.DrawsOf | src/lib/utils.ts:63-67 | a company has no more draws than there are rows |
| Series.SkippedRowChangesNothing | src/lib/utils.ts:67 | a row without a truthy value for the company changes nothing about its draws, wherever it stands |
| Series.DrawsOfAppend | src/lib/utils.ts:63-67 | the draws of two row sequences joined are the draws of each, joined |
| Series.RunsOf | src/lib/utils.ts:72-100 | no more runs than draws, and no runs exactly when no draws |
| Series.RunsOfIsPartition | src/lib/utils.ts:72-100 | the scan's runs joined give back the draws, none is empty, each is uniform, and neighbours differ |
| Series.RunPartitionIsUnique | src/lib/utils.ts:72-100 | the draws have only one such partition |
| Series.TrailingLosses | src/lib/utils.ts:224-228 | the count of trailing losing draws is at most the number of draws |
| LongestStreaks.Longest | src/lib/utils.ts:87-91 | a kept streak is an eligible run of the given type, taken from the runs |
| LongestStreaks.LongestNoneIffNoneEligible | src/lib/utils.ts:87-91 | nothing is kept exactly when no run is eligible |
| LongestStreaks.LongestIsFirstMaximum | src/lib/utils.ts:87-91 | the kept run is eligible, no eligible run is longer, and every earlier eligible run is strictly shorter (ties keep the first) |
| LongestStreaks.LastParticipating | src/lib/utils.ts:74-77 | the reverse search finds nothing exactly when no row participates, and otherwise finds a participating row |
| LongestStreaks.LastParticipatingIsLastDraw | src/lib/utils.ts:105-108 | the reverse search over the rows so far yields the date of the company's latest draw |
| LongestStreaks.CloseStreak | src/lib/utils.ts:73-92 | closing the current streak leaves the kept win and lose streaks those of all runs seen so far |
| LongestStreaks.ScanCompany | src/lib/utils.ts:56-123 | the kept win and lose streaks are the first longest eligible runs of the company's draws, with their lengths and first and last dates |
| LongestStreaks.GetLongestStreaks | src/lib/utils.ts:52-130 | the results are, company by company in list order, its longest win streak and then its longest lose streak, when they exist |
| LongestStreaks.LongestForShape | src/lib/utils.ts:125-126 | a company contributes at most two records, about itself and of positive length, win before lose, and none if it never drew |
| LongestStreaks.ReportNoneIffNoneEligible | src/lib/utils.ts:125-126 | no record of a type is pushed exactly when no run of that type is eligible |
| LongestStreaks.ReportIsFirstLongestRun | src/lib/utils.ts:79-91 | a pushed record is the first longest eligible run, with its length and its first and last draw dates |
| AverageStreaks.Average | src/lib/utils.ts:132-134 | the average of nothing is 0, and otherwise the average times the count is the sum |
| AverageStreaks.AverageWithin | src/lib/utils.ts:132-134 | the average of values between two bounds lies between them |
| AverageStreaks.Lengths | src/lib/utils.ts:155-166 | there are no more lengths than runs |
| AverageStreaks.PushFinished | src/lib/utils.ts:164-166 | pushing the final streak makes the lists the lengths of all win runs and all lose runs |
| AverageStreaks.ScanLengths | src/lib/utils.ts:141-166 | the lists are the lengths of the company's win runs and lose runs, in order |
| AverageStreaks.AverageAll | src/lib/utils.ts:140-173 | one result per company |
| AverageStreaks.AverageAllAt | src/lib/utils.ts:140-173 | the k-th result is the k-th company's |
| AverageStreaks.GetAverageStreaks | src/lib/utils.ts:136-176 | one result per company in list order: the averages of its win and lose run lengths |
| AverageStreaks.LengthsArePositive | src/lib/utils.ts:158 | every collected length is at least one |
| AverageStreaks.LengthsCoverFlatten | src/lib/utils.ts:147-166 | win lengths plus lose lengths add up to all the draws of the runs |
| AverageStreaks.AlternatingCounts | src/lib/utils.ts:154-157 | with alternating runs, the two list lengths differ by at most one, and the longer one is the type of the last run |
| AverageStreaks.RunLengthsPartitionDraws | src/lib/utils.ts:141-166 | the lengths are positive, add up to the participating draws, and the two counts differ by at most one |
| AverageStreaks.AverageOfLengths | src/lib/utils.ts:132-134 | the average of positive lengths summing to at most n is 0 for none and otherwise between 1 and n |
| AverageStreaks.AverageForBounds | src/lib/utils.ts:168-172 | each average is 0 when there is no run of that type and otherwise between 1 and the draw count |
| HitRate.RoundHalfUp | src/lib/utils.ts:209 | the rounded mean is the integer nearest total/count, halves going up |
| HitRate.AvgLoseStreak | src/lib/utils.ts:209 | 0 when no losing run was ended by a win, otherwise the integer nearest the mean length of those runs, halves going up |
| HitRate.AverageLoseStreak | src/lib/utils.ts:184-209 | the first pass yields the rounded mean length of the losing runs that a win ended |
| HitRate.AvgLoseStreakProperties | src/lib/utils.ts:190-209 | a lose run is always followed by a win run; the completed lose runs are all but a trailing one; the mean is 0 without any, else between 1 and the draws |
| HitRate.CompletedLosesWithin | src/lib/utils.ts:209 | with a completed losing run, the mean lies between 1 and the draw count |
| HitRate.RoundWithin | src/lib/utils.ts:209 | rounding a mean of values between 1 and hi stays between 1 and hi |
| HitRate.ReplayBets | src/lib/utils.ts:212-239 | the second pass counts one bet per draw that follows exactly avg trailing losses, and a hit when that draw wins |
| HitRate.HitsAtMostBets | src/lib/utils.ts:230-234 | hits never exceed bets, and bets never exceed the draws after the first |
| HitRate.MakeResult | src/lib/utils.ts:241-245 | the rate is 0 without bets, and otherwise the rate times the bets is 100 times the hits |
| HitRate.CompanyHitRate | src/lib/utils.ts:183-246 | both passes give the company's specified result |
| HitRate.HitRateAllAt | src/lib/utils.ts:183-246 | the keys are exactly the companies scanned, each holding its own result |
| HitRate.HitRateAllCompanies | src/lib/utils.ts:183-246 | every company has its own result |
| HitRate.GetBetHitRate | src/lib/utils.ts:178-249 | the record maps every company to its hit-rate result |
| HitRate.HitRateBounds | src/lib/utils.ts:241-245 | hits <= bets <= draws, and the rate is a percentage that is 0 without bets |
| HitRate.RateWithin | src/lib/utils.ts:244 | with hits <= bets, the rate is between 0 and 100, and 0 without bets |
| BetSimulator.CoverFromIsLeast | src/lib/utils.ts:286-289 | counting up from m past non-covering multipliers stops at the least covering one |
| BetSimulator.Multiplier | src/lib/utils.ts:286-289 | the chosen multiplier is the least m >= 1 with basePrize*m > loss + baseBet*m |
| BetSimulator.NoMarginNeverCovers | src/lib/utils.ts:286-289 | when basePrize <= baseBet and the loss is not negative, no multiplier covers it, so the search would not end |
| BetSimulator.MultiplierClosedForm | src/lib/utils.ts:286-289 | that multiplier is 1 when no loss is outstanding, else loss divided by (basePrize - baseBet), rounded down, plus one |
| BetSimulator.SearchMultiplier | src/lib/utils.ts:286-289 | the while loop ends, with the least covering multiplier |
| BetSimulator.Step | src/lib/utils.ts:274-292 | each draw adds the stake to the cost; a win counts one win and resets the loss, stake and prize to base; a loss counts one loss, adds the stake to the loss, keeps the profit, and leaves a prize above the new loss plus stake |
| BetSimulator.Simulate | src/lib/utils.ts:268-294 | after the draws, wins plus losses equal the number of draws |
| BetSimulator.Settle | src/lib/utils.ts:274-292 | one draw: the stake is added to the cost; a win adds prize minus loss minus stake and resets; a loss adds the stake to the loss and takes the least covering multiplier |
| BetSimulator.CompanyBetResult | src/lib/utils.ts:259-302 | the counters, cost and profit are those of the simulation over the company's draws |
| BetSimulator.BetAll | src/lib/utils.ts:259-303 | one outcome per company |
| BetSimulator.BetAllAt | src/lib/utils.ts:259-303 | the k-th outcome is the k-th company's |
| BetSimulator.GetBetResult | src/lib/utils.ts:251-306 | one outcome per company in list order, each that company's simulation |
| BetSimulator.LedgerHolds | src/lib/utils.ts:274-292 | totalCost is the sum of the stakes; cumulativeLoss is the sum of the stakes since the last win; netProfit is prizes minus stakes plus cumulativeLoss |
| BetSimulator.StakeCoversLoss | src/lib/utils.ts:279-292 | the stake and prize are always baseBet and basePrize times the least multiplier covering the outstanding loss |
| BetSimulator.WinIsProfitable | src/lib/utils.ts:278 | a win at the current stake always adds a positive amount to the profit |
| BetSimulator.NetProfitStep | src/lib/utils.ts:276-292 | a win raises the profit and resets the loss, stake and prize to base; a loss leaves the profit unchanged |
| BetSimulator.NetProfitAtLeastWins | src/lib/utils.ts:276-281 | the profit is at least the number of wins, hence never negative |
| BetSimulator.NetProfitMonotone | src/lib/utils.ts:276-292 | the profit after any prefix of the draws is at most the final profit |
| BetSimulator.CountsCoverDraws | src/lib/utils.ts:277-283 | wins plus losses equal the participating draws, and the losses include the trailing ones |
| BetSimulator.BetResultBounds | src/lib/utils.ts:296-302 | each outcome is about its company; wins plus losses are its draws; profit >= wins; cost is the sum of stakes |

## Left out

- `cn` (src/lib/utils.ts:12-14): a wrapper over the foreign `clsx` and `tailwind-merge` libraries.
- `formatQuarter` (src/lib/utils.ts:45-50): depends on the JavaScript `Date` object and is used only by the UI.
- The React pages and chart components, the scraping and results API routes, and the database: UI and I/O.
- Numeric cells: `PivotedResult` allows a number in a company cell. The model treats every cell as a string, or as absent; `toString` of a number is not modelled.
- `localeCompare` collation: draw dates are compared by Unicode code points. This agrees with locale order on ISO `YYYY-MM-DD` dates.
- UTF-16 code units: `slice(-3)` and `split('')` work on UTF-16 code units, while `Last3` and the pattern loop work on Dafny characters (Unicode scalar values). The two agree on digit strings and on any text without surrogate pairs.
- `Array.prototype.sort`: its algorithm belongs to the runtime. `SortByDate` is one sorted permutation, and `SortIgnoresInputOrder` proves that date-keyed rows have only one.
- AverageStreaks.Average: exact rational division. The `toFixed(2)` and `parseFloat` rounding to two decimals is left out.
- HitRate.MakeResult: the exact percentage. The `toFixed(2)` rounding is left out.
- Floating point in general: amounts, lengths and counts are unbounded integers or exact reals, with no overflow and no precision loss.
- GetBetResult: requires basePrize > baseBet. With basePrize <= baseBet and a non-negative baseBet, the source's multiplier loop never ends on the first losing draw (`NoMarginNeverCovers`). The model does not cover a company that never loses under such a configuration, nor negative stakes or prizes, for which the loop can end (basePrize = baseBet = -5 leaves it at once with multiplier 1).
- BetSimulator.BetResult: the company is kept as a `Company` value. Capitalising its name (src/lib/utils.ts:297) is cosmetic and left out.
