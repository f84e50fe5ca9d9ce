# Analytical view engine of the IMDB dashboards, in Dafny

This project models the view logic that the two React components share:
`frontend/src/App.js` and `imdb-dashboard/src/App.js`. Each component
takes the loaded list of media records and its UI controls, and on every
render computes:

- the filtered list: search box, genre drop-down, anomaly switch, and in
  the frontend component a movie/TV type filter;
- a sorted copy of it;
- the page count, the page shown and the rows on it;
- box-plot statistics of the ratings;
- the anomaly count;
- the scatter points.

The frontend component also shows:

- per-type counts;
- an overall mean rating and an overall anomaly count;
- a numbered page window;
- a jump-to-page box.

The imdb-dashboard component also has sortable column headers.

Modules:

- **`Basics`** (`basics.dfy`): the shared value types and helpers.
  - `Option`, plus `JsNum` for a field read as a number: `Missing`, `NaN` or `Num(real)`.
  - `clamp` and the JavaScript `filter`/`map`.
  - `trim` with the full ECMAScript whitespace set, `toLowerCase` and `includes`.
  - `String(n)` / `Number(s)` on decimal digits, and `localeCompare`.
- **`Records`** (`records.dfy`): the record, `isRecordAnomaly` and `getAnomalyReasons`. The latter is a method that pushes onto a list.
- **`Stats`** (`stats.dfy`): `quantile`, and `computeStats`, which gives quartiles, IQR, Tukey fences, mean and count.
- **`Sorting`** / **`Ordering`** (`sorting.dfy`, `ordering.dfy`): `compareMaybeNumber`, the row comparator, and the sort of a copy. The copy is a fresh array sorted in place by insertion sort.
- **`Filtering`** (`filtering.dfy`): the filter callback.
- **`Genres`** (`genres.dfy`): the genre vocabulary. It is built by a loop that adds to a set and is then sorted.
- **`Summary`** (`summary.dfy`): the `typeCounts` accumulator loop, `ratings`, `anomalyCount` and the overall mean.
- **`Paging`** (`paging.dfy`): `totalPages`, `currentPage`, `pageSlice`, and the numbered-window loop.
- **`Charts`** (`charts.dfy`): `scatterData` and its Normal/Anomaly series.
- **`View`** (`view.dfy`): one render, composing all of the above.
- **`Frontend`**, **`Dashboard`** (`frontend.dfy`, `dashboard.dfy`): each component's UI state is a class. Its methods are the control handlers: each changes the fields, then runs the React effects that the change triggers.

Two React effects decide how the classes behave:

- **The reset effect.** It runs `setPage(1)` when a dependency changes value. Setting a state to the value it already holds does not re-render, so it does not reset either.
- **The frontend's sync effect.** It copies `String(currentPage)` into the jump box whenever the page shown changes. The handler methods state the state after both effects have settled.

Points of the code's behaviour that the model keeps:

- **Missing values sort last, but the numbers still follow the direction.** Rows rated 7, unrated and 3 sort as `[3, 7, unrated]` ascending and `[7, 3, unrated]` descending.
- **Not every filter change resets the page.** In the frontend component `selectedType` is missing from the reset effect's dependencies, so a type button keeps the page, and only the clamp keeps the shown page in range.
- **The jump box holds digits only.** The box strips every non-digit as the user types, so `Number` only ever sees a digit string.
- **`getAnomalyReasons` never explains `is_anomaly`.** A record flagged only by `is_anomaly` is anomalous but has no reasons.
- **`typeCounts` counts a record typed `"all"` twice under `all`.** Its type key `"all"` collides with the total's key. The counting lemmas state this term explicitly.

## Model

| member | source | states |
|---|---|---|
| Basics.Clamp | frontend/src/App.js:124-126 | the result lies in [lo, hi] when lo ≤ hi; it is n inside the range, lo below it and hi above it |
| Basics.ToLower | frontend/src/App.js:128 | the lower-cased text has the same length, maps each character on its own, and holds no upper-case ASCII letter |
| Basics.SafeLower | frontend/src/App.js:127-129 | a string maps to its lower-cased form; a non-string maps to "" |
| Basics.Trim | frontend/src/App.js:449 | `trim` returns "" exactly when the text is all whitespace, and otherwise a result that neither starts nor ends with whitespace |
| Basics.TrimIsInfix | frontend/src/App.js:449 | the trimmed text is the input with only whitespace removed at both ends |
| Basics.TrimUnique | frontend/src/App.js:449 | any whitespace-free-ended core surrounded by whitespace is what `trim` returns |
| Basics.TrimPadded | frontend/src/App.js:449 | extra whitespace padding on both sides does not change the trimmed text |
| Basics.Contains | frontend/src/App.js:462 | `includes` holds exactly when the query occurs at some index of the haystack |
| Basics.DigitsOnly | frontend/src/App.js:1085-1089 | the jump box keeps the digits typed, in their order (a subsequence of the input) and each as often as it was typed, and nothing else |
| Basics.DecimalRoundTrip | frontend/src/App.js:497 | `Number(String(n))` is n for every non-negative integer |
| Basics.TrimOfDigits | frontend/src/App.js:519 | trimming a digit string leaves it unchanged |
| Basics.LexCompare | imdb-dashboard/src/App.js:433 | `localeCompare` is −1, 0 or 1, and 0 exactly on equal strings |
| Basics.LexAntisymmetric | imdb-dashboard/src/App.js:433 | swapping the arguments of `localeCompare` negates it |
| Basics.LexTransitive | imdb-dashboard/src/App.js:433 | `localeCompare` order is transitive |
| Basics.JoinWithSpace | frontend/src/App.js:460 | `join(" ")` of no genres is "", of one genre is that genre; every genre occurs in the result, and every other character of it is a space |
| Basics.JoinAppend | frontend/src/App.js:460 | appending a genre to a non-empty list appends one space and that genre to the joined text, which fixes the separator and the order |
| Basics.KeepIfIsSubsequence | frontend/src/App.js:448-466 | `filter` returns an order-preserving subsequence |
| Basics.KeepIfIdempotent | frontend/src/App.js:448-466 | filtering twice with the same test equals filtering once |
| Basics.KeepIfPartition | frontend/src/App.js:740-745 | a test and its negation split a list: the multisets add up, and so do the lengths |
| Records.TypeOf | frontend/src/App.js:412 | `r?.type \|\| "movie"` is never empty; it is the record's own type when that is non-empty, and "movie" when the type is absent or empty |
| Records.IsRecordAnomaly | frontend/src/App.js:139-146 | a record is anomalous exactly when `is_anomaly` is set or it has a reason to show |
| Records.GetAnomalyReasons | frontend/src/App.js:148-156 | at most three reasons; they form a subsequence of the fixed message list; each message is present exactly when its flag is set |
| Records.FlaggedReasonsInOrder | imdb-dashboard/src/App.js:196-204 | the messages of the set flags, taken in flag order, number at most three and form a subsequence of the fixed message list |
| Records.ReasonsImplyAnomaly | imdb-dashboard/src/App.js:187-204 | a record with any reason is anomalous |
| Records.AnomalyWithoutReasons | imdb-dashboard/src/App.js:187-204 | a record flagged only by `is_anomaly` is anomalous and gets no reasons |
| Records.AnomalyIsOr | frontend/src/App.js:139-146 | a record with only the duration-outlier flag is anomalous; a record with no flag set is not |
| Stats.SortAscending | frontend/src/App.js:169-171 | the numeric sort is ascending, a permutation, and keeps the length |
| Stats.CleanNumbers | frontend/src/App.js:169-170 | the cleaned list is the values of the non-NaN numbers of the input, one per entry, in input order |
| Stats.CleanNumbersEmpty | frontend/src/App.js:169-172 | the cleaned list is empty exactly when no entry is a non-NaN number |
| Stats.Quantile | frontend/src/App.js:158-166 | `null` on an empty list; a number for a non-empty list and p in [0, 1] |
| Stats.QuantileValue | frontend/src/App.js:158-166 | base = floor((n−1)p) is a valid rank with remainder in [0, 1). The result interpolates from sorted[base] towards sorted[base+1], or is sorted[base] exactly at the last rank |
| Stats.QuantileWithin | imdb-dashboard/src/App.js:206-214 | on a sorted non-empty list and p in [0, 1] the quantile lies between the first and the last element |
| Stats.QuantileMonotone | imdb-dashboard/src/App.js:206-214 | on a sorted list, a larger p never gives a smaller quantile |
| Stats.QuantileEnds | imdb-dashboard/src/App.js:206-214 | p = 0 gives the minimum and p = 1 the maximum |
| Stats.MeanWithin | frontend/src/App.js:178 | the mean of a sorted non-empty list lies between its first and last element |
| Stats.ComputeStats | frontend/src/App.js:168-181 | `null` exactly when no entry is a non-NaN number; otherwise `count` is the number of such entries |
| Stats.ComputeStatsMean | frontend/src/App.js:178 | the mean is the sum of the input's non-NaN numbers, in input order, divided by how many there are: sorting first does not change the sum |
| Stats.ComputeStatsLaws | imdb-dashboard/src/App.js:216-231 | min ≤ q1 ≤ median ≤ q3 ≤ max, iqr = q3 − q1 ≥ 0, lower ≤ q1, q3 ≤ upper, and min ≤ mean ≤ max, where min and max are clean values |
| Stats.StatsOfOneToTen | frontend/src/App.js:168-181 | 1..10 gives q1 3.25, q3 7.75, median 5.5, iqr 4.5, lower −3.5, upper 14.5, mean 5.5, count 10 |
| Sorting.SortInPlace | frontend/src/App.js:469-483 | the in-place sort of the copy keeps its elements and leaves every adjacent pair ordered under any antisymmetric comparator |
| Ordering.CompareMaybeNumber | frontend/src/App.js:130-137 | 0 when neither value is a non-NaN number; 1 when only a is not one and −1 when only b is not one, whatever the direction; otherwise a−b for ascending and b−a for descending |
| Ordering.CompareMaybeNumberAntisymmetric | imdb-dashboard/src/App.js:178-185 | swapping the arguments negates the result |
| Ordering.CompareMaybeNumberSign | imdb-dashboard/src/App.js:178-185 | ascending orders smaller numbers first and descending larger numbers first; the result is 0 exactly on equal numbers |
| Ordering.MissingLastBothWays | imdb-dashboard/src/App.js:178-185 | a missing value against a number compares the same in both directions, after the number |
| Ordering.CompareRecords | imdb-dashboard/src/App.js:461-473 | title: `localeCompare` in the chosen direction; anomaly: a flagged row goes after (ascending) or before (descending) an unflagged one; other keys: `compareMaybeNumber` on the field |
| Ordering.CompareRecordsAntisymmetric | imdb-dashboard/src/App.js:461-473 | the row comparator is antisymmetric |
| Ordering.CompareRecordsTransitive | imdb-dashboard/src/App.js:461-473 | the row comparator is transitive |
| Ordering.SortRecords | imdb-dashboard/src/App.js:459-475 | the sorted copy is a permutation of the filtered list, of the same length, with every adjacent pair ordered by the comparator |
| Ordering.SortedPairwise | imdb-dashboard/src/App.js:459-475 | in the sorted list every earlier row is ordered before or level with every later row |
| Ordering.MissingValuesLast | imdb-dashboard/src/App.js:459-475 | under a numeric key every row with a missing value comes after every row with a number, in both directions |
| Ordering.SortSevenMissingThree | imdb-dashboard/src/App.js:459-475 | ratings [7, missing, 3] sort as [7, 3, missing] descending and [3, 7, missing] ascending |
| Filtering.Haystack | frontend/src/App.js:459-461 | the search text contains the title, the year and every genre |
| Filtering.Passes | frontend/src/App.js:450-465 | a record passes exactly when it meets every control that is set: the selected type, the anomaly switch, the chosen genre, and the search term inside its lower-cased search text; controls left at "all", off and blank let every record through |
| Filtering.Filter | frontend/src/App.js:448-466 | no longer than the input; a record is kept exactly when it is in the input and passes all four tests |
| Filtering.FilterIsSubsequence | frontend/src/App.js:448-466 | the filtered list is an order-preserving subsequence of the records |
| Filtering.FilterIdempotent | frontend/src/App.js:448-466 | filtering the filtered list again changes nothing |
| Filtering.KeptRecord | frontend/src/App.js:450-463 | a kept record has the selected type (an absent or empty type reads as "movie"), and is anomalous when the switch is on. It holds the chosen genre exactly, and its lower-cased haystack contains the trimmed, lower-cased query |
| Filtering.FilterDefaults | imdb-dashboard/src/App.js:441-457 | with genre "all", the switch off and an empty query the list comes back unchanged |
| Filtering.QueryIsTrimmed | frontend/src/App.js:449 | whitespace around the query does not change the result |
| Filtering.UntrimmedGenreMisses | imdb-dashboard/src/App.js:446-448 | a record tagged " Drama " does not pass the genre test for "Drama" |
| Filtering.DashboardCriteria | imdb-dashboard/src/App.js:441-457 | the imdb-dashboard filter is the shared filter with the type fixed at "all" |
| Filtering.DashboardPasses | imdb-dashboard/src/App.js:441-457 | a record passes the imdb-dashboard filter exactly when it meets the anomaly switch, the chosen genre and the search term of that component's own controls; there is no type test |
| Genres.CollectGenres | frontend/src/App.js:433-441 | the set loop collects each trimmed non-empty genre once, and nothing else |
| Genres.AllGenres | imdb-dashboard/src/App.js:425-434 | the vocabulary starts with "all"; the rest are exactly the trimmed non-empty genres, strictly ascending, so without duplicates |
| Genres.StrictlyAscendingUnique | imdb-dashboard/src/App.js:433 | a strictly ascending list is determined by its elements, so the vocabulary does not depend on the order the records list their genres in |
| Genres.GenresOfDramaComedy | imdb-dashboard/src/App.js:425-434 | genres ["Drama", " Drama ", "Comedy"] give ["all", "Comedy", "Drama"] |
| Summary.TypeCounts | frontend/src/App.js:408-418 | `all` is the number of records plus the records typed "all"; any other type is a key exactly when a record has it, with its count as the value |
| Summary.NoAllType | frontend/src/App.js:408-418 | when no record is typed "all", `all` equals the number of records |
| Summary.CountsAddUp | frontend/src/App.js:408-418 | the per-type counts of distinct types covering every record add up to the number of records |
| Summary.MoviesPlusShows | frontend/src/App.js:585-595 | when every record is a movie or a TV show, the two cards add up to the total |
| Summary.UntypedIsMovie | frontend/src/App.js:412 | a record without a type adds one to the "movie" count |
| Summary.Ratings | frontend/src/App.js:504-510 | the ratings list is no longer than the records, and every entry is of number type |
| Summary.RatingsMembers | imdb-dashboard/src/App.js:491-497 | a value is in the ratings list exactly when it is of number type and is some record's rating |
| Summary.RatingsCount | imdb-dashboard/src/App.js:491-498 | the box plot counts exactly the records whose rating is a non-NaN number |
| Summary.AnomalyCount | frontend/src/App.js:512-515 | at most the number of filtered records; 0 exactly when none is anomalous |
| Summary.AnomalyCountIsSwitchRows | frontend/src/App.js:512-515 | the anomaly count equals the number of rows the "Only anomalies" switch keeps at default controls, and it plus the number of normal rows is the whole list |
| Summary.SumJs | frontend/src/App.js:430 | the `reduce` sum is NaN exactly when an entry is NaN, and otherwise the sum of the values |
| Summary.OverallMeanRating | frontend/src/App.js:425-431 | `null` exactly when no record has a number-type rating; NaN exactly when a rating is NaN |
| Summary.MeanMatchesBoxPlot | frontend/src/App.js:425-431 | without NaN ratings, the Avg Rating card equals the box-plot mean of the unfiltered records |
| Paging.TotalPages | frontend/src/App.js:486-489 | at least 1; 1 for no rows; otherwise the fewest pages of `pageSize` rows that hold them all |
| Paging.CurrentPage | frontend/src/App.js:490-493 | always in [1, totalPages]; the requested page when it is in range, else the nearer end |
| Paging.PageSlice | frontend/src/App.js:499-502 | the rows from (currentPage−1)·pageSize on, contiguous, as many as fit up to `pageSize` |
| Paging.RowOnItsPage | imdb-dashboard/src/App.js:477-489 | row k is row k mod pageSize of page ⌊k / pageSize⌋ + 1, and that page exists |
| Paging.TwentyThreeRows | imdb-dashboard/src/App.js:477-489 | 23 rows at 10 per page with page 99 requested: 3 pages, page 3 shown, holding the last 3 rows |
| Paging.PageWindow | frontend/src/App.js:1039-1044 | min(7, totalPages) consecutive pages within [1, totalPages], including the current one, starting at max(1, min(currentPage − 3, totalPages − 6)) |
| Charts.ToPoint | frontend/src/App.js:533-540 | the point carries the record's rating, metascore, title, votes and type, with `is_anomaly` equal to `isRecordAnomaly` |
| Charts.ScatterData | frontend/src/App.js:528-543 | one point per record with number-type rating and metascore, and only such values are plotted |
| Charts.ScatterMembers | imdb-dashboard/src/App.js:505-518 | a point is drawn exactly for a filtered record with number-type rating and metascore |
| Charts.ScatterKeepsOrder | imdb-dashboard/src/App.js:505-518 | the points keep the order of the filtered records |
| Charts.PlainScatterData | imdb-dashboard/src/App.js:505-518 | one point per record with number-type rating and metascore, and only such values are plotted |
| Charts.PlainIsProjection | imdb-dashboard/src/App.js:505-518 | the imdb-dashboard points are the frontend points without `type` and `votes` |
| Charts.NormalSeries | frontend/src/App.js:740 | the Normal series holds exactly the unflagged points |
| Charts.AnomalySeries | frontend/src/App.js:745 | the Anomaly series holds exactly the flagged points |
| Charts.SeriesPartition | imdb-dashboard/src/App.js:655-664 | the two series split the points: the multisets and the counts add up, and no point is in both |
| Charts.AnomalyPointsCounted | imdb-dashboard/src/App.js:500-518 | the Anomaly series never has more points than the anomaly count |
| View.Render | imdb-dashboard/src/App.js:441-518 | one render: the filtered list; a sorted permutation of it; page count and shown page; the page's rows; the statistics, anomaly count and scatter points of the filtered list. Every row on the page is a record that passes the filter |
| Frontend.JumpTarget | frontend/src/App.js:518-526 | empty input, or a number too large to be finite, means no jump; otherwise the target is clamp(n, 1, totalPages) |
| Frontend.JumpToShownPage | frontend/src/App.js:518-526 | jumping to the page the box shows lands on that same page |
| Frontend.JumpReadsBack | frontend/src/App.js:495-498 | when the box shows the current page, it reads back as that page |
| Frontend.FrontendApp.constructor | frontend/src/App.js:377-385 | initial controls; after the mount effects, page 1 with "1" in the box |
| Frontend.FrontendApp.Total | frontend/src/App.js:486-489 | the page count of the current filtered list is at least 1 |
| Frontend.FrontendApp.Current | frontend/src/App.js:490-493 | the page shown is in [1, totalPages], and it is the stored page when that is in range |
| Frontend.FrontendApp.SyncPageInput | frontend/src/App.js:495-498 | the box becomes `String(currentPage)` when the page shown has changed, and is left alone otherwise |
| Frontend.FrontendApp.SetSelectedType | frontend/src/App.js:636-657 | the stored page is kept; the shown page is the old page clamped to the new page count, and the box follows it when it moves |
| Frontend.FrontendApp.SetQuery | frontend/src/App.js:444-498 | a new query resets the page to 1; the same value changes nothing. After a change the box reads "1" when the shown page moved at the render with the old page or at the one after the reset, and keeps its text otherwise |
| Frontend.FrontendApp.SetGenre | frontend/src/App.js:444-498 | a new genre resets the page to 1; the same value changes nothing. After a change the box reads "1" when the shown page moved at the render with the old page or at the one after the reset, and keeps its text otherwise |
| Frontend.FrontendApp.SetPageSize | frontend/src/App.js:1010-1020 | a new page size from {5, 10, 20, 50} resets the page to 1; the same value changes nothing. After a change the box reads "1" when the shown page moved at the render with the old page or at the one after the reset, and keeps its text otherwise |
| Frontend.FrontendApp.Prev | frontend/src/App.js:1033 | the page becomes clamp(currentPage − 1, 1, totalPages): one back, or stays at 1 |
| Frontend.FrontendApp.Next | frontend/src/App.js:1068 | the page becomes clamp(currentPage + 1, 1, totalPages): one on, or stays at the last page |
| Frontend.FrontendApp.ClickPageNumber | frontend/src/App.js:1048 | the clicked page, which is in range, becomes the page shown |
| Frontend.FrontendApp.EditPageInput | frontend/src/App.js:1085-1089 | the box holds exactly the digits typed |
| Frontend.FrontendApp.GoToInputPage | frontend/src/App.js:518-526 | no target: page and box unchanged; otherwise page and box both become the target page |
| Frontend.FrontendApp.PageButtons | frontend/src/App.js:1039-1049 | the buttons shown are the page window around the current page |
| Frontend.FrontendApp.Render | frontend/src/App.js:448-543 | the frontend render, sorted by rating descending: the filtered list, its sorted permutation, page count, page shown and its rows, and the rating statistics, anomaly count and scatter points of the filtered list |
| Dashboard.NextDir | imdb-dashboard/src/App.js:687-763 | the direction after a header click is "desc" exactly when the clicked column was already sorted ascending |
| Dashboard.HeaderClicksAlternate | imdb-dashboard/src/App.js:687-763 | a newly clicked column starts ascending, and clicking the same header again flips the direction |
| Dashboard.DashboardApp.Total | imdb-dashboard/src/App.js:477-480 | the page count of the current filtered list is at least 1 |
| Dashboard.DashboardApp.Current | imdb-dashboard/src/App.js:482-485 | the page shown is in [1, totalPages], and it is the stored page when that is in range |
| Dashboard.DashboardApp.constructor | imdb-dashboard/src/App.js:396-402 | initial controls: rating descending, page 1 |
| Dashboard.DashboardApp.SetQuery | imdb-dashboard/src/App.js:437-439 | a new query resets the page to 1; the page stays in range |
| Dashboard.DashboardApp.SetGenre | imdb-dashboard/src/App.js:437-439 | a new genre resets the page to 1; the page stays in range |
| Dashboard.DashboardApp.SetOnlyAnomalies | imdb-dashboard/src/App.js:595-601 | toggling the checkbox resets the page to 1; the page stays in range |
| Dashboard.DashboardApp.SetPageSize | imdb-dashboard/src/App.js:607-617 | a new size from {10, 25, 50} resets the page to 1 |
| Dashboard.DashboardApp.ClickHeader | imdb-dashboard/src/App.js:687-763 | sort by the clicked key; "desc" only on a repeat click of the ascending column, else "asc". The sort state always changes, so the page goes back to 1 |
| Dashboard.DashboardApp.Prev | imdb-dashboard/src/App.js:865-873 | disabled on page 1; otherwise one page back, never below 1 |
| Dashboard.DashboardApp.Next | imdb-dashboard/src/App.js:875-883 | disabled on the last page; otherwise one page on, never beyond the last |
| Dashboard.DashboardApp.Render | imdb-dashboard/src/App.js:441-518 | the imdb-dashboard render under the current sort key and direction: the filtered list, its sorted permutation, page count, the stored page and its rows, the rating statistics and anomaly count of the filtered list, and its scatter points, which without `type` and `votes` are the component's own four-field points |

## Left out

- Loading the dataset (`fetch`, the loading and error screens) is network I/O. Each class starts from records that are already loaded.
- Rendering is left out: JSX markup, styles, the summary cards, tooltips, and `RechartsBoxPlot` with its pixel geometry.
- Display formatting is left out: `toFixed` and the `Math.round` anomaly percentage.
- Numbers are reals, so IEEE rounding and infinities are not modelled. One floating-point fact is kept. For the jump box, `Frontend.JumpTarget` treats a digit string at or above 2^1024 − 2^970 as `Infinity`, so the jump is ignored. Below that bound, rounding cannot change the clamped target.
- NaN is modelled where the code tells it apart. `ratings`, `scatterData` and `overallMeanRating` test only `typeof === "number"`, so NaN passes them. The model carries NaN through them, and the mean becomes NaN.
- `localeCompare` is modelled as code-point lexicographic order, not locale collation.
- `toLowerCase` maps only ASCII letters.
- `trim` uses the full ECMAScript whitespace set.
- Record fields of other types than the model's are left out, because the model gives each field one type:
  - a title that is not a string (`toString` of other values);
  - a `type` that is not a string (`kind` is an optional string);
  - non-string entries inside `genres`;
  - a `genres` value that is not an array (it reads as empty, which the model's `[]` stands for);
  - a fractional or non-numeric `year` (years are integers);
  - a `null` entry in the record list, on which both components throw a `TypeError` at `r.rating` or `r.genres`, although the anomaly helpers read it through `r?.`;
  - anomaly flags that are truthy without being `true`, such as `1` or `"yes"`, which the source counts as set (the flags are booleans here, an absent one reading as false).
- Summary.TypeCounts: models the accumulator as a map from strings to counts. The source counts into a plain object, so a type named like an inherited property behaves differently. With `"constructor"` or `"toString"`, `acc[t] || 0` reads an inherited function and the entry becomes a string, not a count. With `"__proto__"`, the assignment is ignored and no key appears. The promise that any other type is a key with its count holds only for types that are not such names.
- React scheduling (`useMemo`, and when effects run) is not modelled. Only the state after a handler once its effects have settled is.
- Sort stability, and the order of rows that compare equal, are not stated. The sort promises only adjacent order and a permutation. The JavaScript engine's own sort algorithm is replaced by an insertion sort.
- `Basics.LexCompare`, `Basics.ToLower` and `Basics.SafeLower` are weaker than the JavaScript built-ins in the ways just listed. They are the approximations stated above.
- Frontend.JumpTarget: models `Number` only on digit strings. This holds because the box only ever holds digits (`Frontend.FrontendApp.Valid`), so whitespace-only or malformed text never reaches it.
- The Python command-line wrappers (`movies_processor.py`, `run_pipeline.py`) are not part of this model, nor is the upstream pipeline that computes the anomaly flags.
- `react_example/ChartsExample.jsx` (a chart wrapper) is not part of this model, nor is the DOM smoke test `App.test.js`.
- The `url` field is never read by the view logic and is left out of the record.
