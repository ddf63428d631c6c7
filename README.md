# githut language chart: a Dafny model

This project models the chart-series pipeline of the githut language chart
component (`src/js/components/LangChart.js`). The pipeline turns raw
per-language, per-quarter GitHub counts into a Highcharts configuration:

- quarter labels for the x-axis;
- one series per top-50 language, with a colour, a default visibility and its
  counts, left-padded with zeros to a common length;
- each value turned into its share of the column total;
- a small memo that decides whether to rebuild, and a state update that
  commits only a configuration that differs from the current one.

Modules, one per file:

- `Categories` (`categories.dfy`): the x-axis labels. It holds the intended
  labelling and, separately, what line 41 computes as written (see Findings),
  with the JavaScript conversions behind the bitwise-or operator (ToNumber,
  ToUint32, ToInt32) written out. The chart configuration carries the
  intended labelling: `Chart.NewConfig`, and through it
  `Chart.LangChart.ConstructChart` and `Chart.LangChart.Effect`, put
  `Categories.Categories()` on the x-axis, not the 37 zeros line 41 yields.
- `Series` (`series.dfy`): the series record, `fillZeros`, and
  `percentageData`. JavaScript division by a zero column total is made
  explicit by the `Quotient` type, which is `Finite`, `NaN` or `Infinity`.
- `Colors` (`colors.dfy`): the canonical colour lookup, and the random
  fallback `"#" + Math.floor(r * 16777215).toString(16)`.
- `Builder` (`builder.dfy`): `uniqBy("name")`, the top-50 filter, grouping
  of counts by name, `createSeries` and `createSeriesPercentage`.
- `TopList` (`toplist.dfy`): the effect's `take(50)`, `sortBy("name")` and
  `map("name")`, and `lang.split(",")`.
- `Chart` (`chart.dfy`): the chart configuration and the class `LangChart`.
  The class holds the React state and the render-local variables
  `dataLength`, `top50` and `visible`. Its methods are `Render`,
  `UpdateState`, `ConstructChart` and `Effect`.
- `Optional` (`optional.dfy`): the option type.

Counts and shares are exact reals. In four places the code behaves in a way
that is easy to misread, and the model follows the code:

- A column whose total is 0 divides 0 by 0. It gives NaN, not 0.
- The rebuild guard returns early only when the top list is empty. In
  addition, either the data length or the top list must equal the
  remembered one.
- The random fallback colour is not zero-padded, so it has 1 to 6 digits.
- The percentage view is always applied.

Inputs from outside the component are parameters:

- the canonical colour table, a `map<string, string>`;
- `Math.random()`, an oracle `rand: nat -> real` with values in [0, 1),
  indexed by the position of the retained series;
- the store's data, name and initial configuration;
- the route's `lang` parameter;
- the names of the ranking table's rows.

Because the memo variables are declared in the component body, every render
resets them (`Render`). The effect runs on mount and after a render in which
one of its dependencies (`hist`, `store`, `table`) changed by reference; the
render that `setState` itself causes does not run it. Whenever it runs, it
starts from a freshly reset memo, so it rebuilds exactly when the ranking
table has at least one row (`Chart.LangChart.Effect`).

`Math.random()` is only reached through `createSeries`, so every run of the
effect draws afresh. `Chart.RenderTwice` describes two effect runs with
equal inputs, which in the component takes a dependency that changes by
reference but not by value (for example a new but equal ranking table). The
second run commits a new state whenever a retained language outside the
palette draws a different colour (`Chart.FreshDrawsRecolour`); it commits
nothing when every top-list language has a canonical colour.

## Model

| member | source | states |
|---|---|---|
| Categories.Slots | src/js/components/LangChart.js:41-42 | four slots per year over a half-open year range: slot k holds year lo + k/4 when k is a multiple of 4, and a blank otherwise |
| Categories.Categories | src/js/components/LangChart.js:39-45 | after dropping the first slot there are 4·38 − 1 labels; label k is a year exactly when k + 1 is a multiple of 4, namely 2012 + (k + 1)/4 |
| Categories.CategoriesShape | src/js/components/LangChart.js:39-45 | there are 151 labels, and the first one (2012/Q2) is blank |
| Categories.CategoriesYearOnce | src/js/components/LangChart.js:35-45 | every year from 2013 to 2049 is labelled exactly once, at index 4·(y − 2012) − 1 |
| Categories.CategoriesLabels | src/js/components/LangChart.js:43-44 | 2012 never gets a label; every label is blank or a year in (2012, 2050) |
| Categories.ToUint32 | src/js/components/LangChart.js:41 | the result is a 32-bit pattern; NaN gives 0 and a 32-bit non-negative integer is kept |
| Categories.ToInt32 | src/js/components/LangChart.js:41 | the result is a signed 32-bit integer congruent to the unsigned pattern modulo 2^32 |
| Categories.BitOr | src/js/components/LangChart.js:41 | `a \| b` is a signed 32-bit integer |
| Categories.OrBitsZero | src/js/components/LangChart.js:41 | or-ing with 0 keeps every bit |
| Categories.BitOrNonNumeral | src/js/components/LangChart.js:41 | an operand that is no numeral acts as 0: or-ing it with a non-negative 32-bit integer gives the integer, and two of them give 0 |
| Categories.BitOrExamples | src/js/components/LangChart.js:41 | numerals combine bit by bit: 5 \| 3 = 7 |
| Categories.BitOrSingletonArray | src/js/components/LangChart.js:41 | a one-element array counts as its element: [12] \| 3 = 15 |
| Categories.BitOrNegative | src/js/components/LangChart.js:41 | −1 or-ed with a non-numeral stays −1: the sign bit survives the 32-bit round trip |
| Categories.YearEntryAsWritten | src/js/components/LangChart.js:41 | the quarter array `range(1, 5)` (four elements, so NaN) or-ed with the curried `map(...)` (a function, so NaN) gives the number 0 for every year |
| Categories.CategoriesAsWrittenHasNoYears | src/js/components/LangChart.js:39-45 | the literal code yields 37 zeros: no year label at all, and not the intended labelling |
| Series.Divide | src/js/components/LangChart.js:55 | the quotient is finite iff the divisor is non-zero, and then it times the divisor gives back the dividend; 0/0 is NaN; x/0 is an infinity with the sign of x |
| Series.MaxLen | src/js/components/LangChart.js:68 | an upper bound on every data length, attained by some series; 0 when there are no series |
| Series.Pad | src/js/components/LangChart.js:69 | the result has the target length, ends with the original data, and is zero before it |
| Series.FillZeros | src/js/components/LangChart.js:67-71 | same count and order; only `data` changes; each data has the maximal length, keeps the original as a suffix and is zero before it |
| Series.FillZerosAt | src/js/components/LangChart.js:69-70 | padded series j keeps its name, has the maximal length, and is its original data preceded by zeros |
| Series.FillZerosAligned | src/js/components/LangChart.js:67-71 | after padding all lengths are equal, and the maximal length is unchanged |
| Series.FillZerosIdentityOnAligned | src/js/components/LangChart.js:70 | equal-length input is returned unchanged |
| Series.FillZerosIdempotent | src/js/components/LangChart.js:70 | padding twice is the same as padding once |
| Series.FillZerosNonNegative | src/js/components/LangChart.js:69 | padding keeps non-negative values non-negative |
| Series.Totals | src/js/components/LangChart.js:54 | one total per time index, equal to the sum of that index over all series |
| Series.PercentageData | src/js/components/LangChart.js:53-58 | count, order, names, colours, visibility and lengths are kept; value i of series s becomes its value divided by column total i |
| Series.PercentageShareInUnit | src/js/components/LangChart.js:55 | with non-negative counts and a positive column total, a share is finite and between 0 and 1 |
| Series.ColumnTotalBounds | src/js/components/LangChart.js:54 | with non-negative values, a column total is non-negative and bounds every value in its column |
| Series.ShareSumScales | src/js/components/LangChart.js:55 | dividing a column by a non-zero t divides its sum by t |
| Series.PercentageColumnSumsToOne | src/js/components/LangChart.js:53-57 | with non-negative counts and a positive column total, every share is finite, between 0 and 1, and the shares sum to 1 |
| Series.PercentageZeroColumnIsNaN | src/js/components/LangChart.js:55 | with non-negative counts, a column with total 0 becomes NaN in every series |
| Colors.HexDigit | src/js/components/LangChart.js:87 | a digit below 16 becomes a lower-case hexadecimal character |
| Colors.Hex | src/js/components/LangChart.js:87 | `toString(16)` gives at least one lower-case hexadecimal digit, with no leading zero unless the number is 0 |
| Colors.HexRoundTrip | src/js/components/LangChart.js:87 | reading back the digits gives the number |
| Colors.HexLength | src/js/components/LangChart.js:87 | a number below 16^k has at most k digits |
| Colors.RandomColor | src/js/components/LangChart.js:87 | the fallback is `#` followed by hexadecimal digits |
| Colors.RandomColorShape | src/js/components/LangChart.js:87 | the fallback has 1 to 6 digits and its value is below 16777215; it is not zero-padded: a longer colour never starts with '0', it has a single digit exactly when the scaled draw is below 16, and a draw of 0 gives "#0" |
| Colors.ColorOf | src/js/components/LangChart.js:85-87 | a name in the palette gets its canonical colour; any other name gets `#` followed by 1 to 6 lower-case hexadecimal digits |
| Builder.FirstIndex | src/js/components/LangChart.js:81 | the index of the first record with the name; no earlier record has it |
| Builder.UniqFromFirst | src/js/components/LangChart.js:81 | `uniqBy` keeps only the first record of each name, and never a name already seen |
| Builder.UniqFromOrdered | src/js/components/LangChart.js:81 | `uniqBy` keeps names in the order of their first occurrence |
| Builder.UniqFromCovers | src/js/components/LangChart.js:81 | `uniqBy` keeps every name not already seen |
| Builder.UniqFrom | src/js/components/LangChart.js:81 | `uniqBy` never grows the list |
| Builder.KeepTop | src/js/components/LangChart.js:82 | the filter never grows the list |
| Builder.KeepTopMembers | src/js/components/LangChart.js:82 | the filter keeps only records of its input whose name is in the top list |
| Builder.KeepTopCovers | src/js/components/LangChart.js:82 | the filter keeps every input record whose name is in the top list |
| Builder.KeepTopOrdered | src/js/components/LangChart.js:82 | the filter keeps first records in first-occurrence order |
| Builder.CountsOf | src/js/components/LangChart.js:89 | at most one count per record; counts exist only for a name that occurs |
| Builder.CountsOfAppend | src/js/components/LangChart.js:89 | grouping distributes over concatenation, so later quarters extend a series at its end |
| Builder.CountsOfSpec | src/js/components/LangChart.js:89 | every grouped count is the count of a record with that name, and every name that occurs has a count |
| Builder.Build | src/js/components/LangChart.js:83-90 | one series per retained record |
| Builder.CreateSeries | src/js/components/LangChart.js:79-93 | the series are aligned |
| Builder.RetainedSpec | src/js/components/LangChart.js:81-82 | the retained records are first records with names in the top list, in first-occurrence order, covering every such name |
| Builder.CreateSeriesFollowsRetained | src/js/components/LangChart.js:81-84 | there is one series per retained record, in the same order |
| Builder.CreateSeriesDataAt | src/js/components/LangChart.js:89-91 | series j is all counts of its name, in input order, preceded by zeros |
| Builder.CreateSeriesCovers | src/js/components/LangChart.js:80-84 | every input name in the top list has a series |
| Builder.CreateSeriesNames | src/js/components/LangChart.js:80-84 | exactly one series per distinct input name in the top list, with no duplicates, in first-occurrence order |
| Builder.CreateSeriesData | src/js/components/LangChart.js:89-91 | each series ends with all counts of its name in input order and is zero before them; the common length is that of some series' counts |
| Builder.CreateSeriesDataLongest | src/js/components/LangChart.js:68-69 | when there are series, some series needs no padding: the common length is that of some name's counts |
| Builder.CreateSeriesVisibility | src/js/components/LangChart.js:88 | with a language filter, visible iff listed; without one, visible iff among the first seven series |
| Builder.CreateSeriesColors | src/js/components/LangChart.js:85-87 | the canonical colour when known; otherwise `#` followed by 1 to 6 lower-case hexadecimal digits |
| Builder.FloorCounts | src/js/components/LangChart.js:109 | names are kept, and every count is floored |
| Builder.CreateSeriesPercentage | src/js/components/LangChart.js:107-113 | the same series as `createSeries` on floored counts (names, colours, visibility, lengths); value i of each series is its floored count divided by column total i |
| Builder.CreateSeriesPercentageFallback | src/js/components/LangChart.js:85-87 | a series whose language is not in the palette takes the random colour of its own position's draw |
| Builder.BuildSameDraws | src/js/components/LangChart.js:85-87 | two oracles that agree on the draws of the series outside the palette build the same series |
| Builder.CreateSeriesPercentageSameDraws | src/js/components/LangChart.js:85-87 | the percentage series do not depend on the draws when every top-list name is in the palette, or when the draws agree on every record position |
| Builder.BuildNonNegative | src/js/components/LangChart.js:89 | series built from non-negative counts hold non-negative values |
| Builder.CreateSeriesNonNegative | src/js/components/LangChart.js:109-110 | non-negative raw counts stay non-negative through flooring and padding |
| Builder.CreateSeriesPercentageColumns | src/js/components/LangChart.js:107-113 | for non-negative counts, a column with a positive total has shares summing to 1, and a column with total 0 is NaN throughout |
| Builder.ExampleRetained | src/js/components/LangChart.js:81-82 | in the worked example, Go (first record) and Rust are retained |
| Builder.ExampleCounts | src/js/components/LangChart.js:89 | in the worked example, Go's counts are [10, 20] and Rust's are [5] |
| Builder.ExampleBuild | src/js/components/LangChart.js:83-90 | in the worked example, before padding, Go is [10, 20] and Rust is [5], both visible |
| Builder.ExamplePadding | src/js/components/LangChart.js:67-71 | padding [10, 20] and [5] gives [10, 20] and [0, 5], keeping names and visibility |
| Builder.ExampleSeries | src/js/components/LangChart.js:79-93 | in the worked example, Go is [10, 20] and Rust is padded to [0, 5]; both are visible |
| Builder.ExampleShares | src/js/components/LangChart.js:53-58 | shares of [10, 20] and [0, 5] are [1, 0.8] and [0, 0.2] |
| Builder.EndToEndExample | src/js/components/LangChart.js:107-113 | records Go 10, Go 20, Rust 5 become the percentage series Go [1, 0.8] and Rust [0, 0.2] |
| TopList.LessEqTotal | src/js/components/LangChart.js:155 | the string order is total |
| TopList.LessEqReflexive | src/js/components/LangChart.js:155 | the string order is reflexive |
| TopList.LessEqAntisymmetric | src/js/components/LangChart.js:155 | the string order is antisymmetric |
| TopList.LessEqTransitive | src/js/components/LangChart.js:155 | the string order is transitive |
| TopList.Insert | src/js/components/LangChart.js:155 | insertion adds exactly the one element |
| TopList.InsertSorted | src/js/components/LangChart.js:155 | insertion keeps a list sorted |
| TopList.SortNames | src/js/components/LangChart.js:155 | sorting is a permutation |
| TopList.SortNamesSorted | src/js/components/LangChart.js:155 | the sort's output is sorted |
| TopList.TopNamesSpec | src/js/components/LangChart.js:153-157 | the top list has min(50, rows) names: the first rows' names as a multiset, in ascending order |
| TopList.SortedHeadLeast | src/js/components/LangChart.js:155 | the head of a sorted list precedes every element |
| TopList.SortedTail | src/js/components/LangChart.js:155 | the tail of a sorted list is sorted |
| TopList.SortedPermutationUnique | src/js/components/LangChart.js:155 | two sorted permutations of each other are equal, so the top list is determined by the first 50 rows |
| TopList.Split | src/js/components/LangChart.js:149 | `split(",")` gives at least one part, and no part contains a comma |
| TopList.JoinSplit | src/js/components/LangChart.js:149 | joining the parts with commas gives back the string |
| TopList.SplitJoin | src/js/components/LangChart.js:149 | splitting comma-free parts joined with commas gives back the parts |
| TopList.SplitNoComma | src/js/components/LangChart.js:149 | a string without a comma splits into itself |
| TopList.SplitAppend | src/js/components/LangChart.js:149 | splitting a + "," + b, for a comma-free a, gives a followed by the parts of b |
| TopList.VisibleFilter | src/js/components/LangChart.js:149 | the filter is absent iff `lang` is absent or empty; otherwise it is non-empty and joins back to `lang` |
| Chart.NewConfigFields | src/js/components/LangChart.js:128-136 | the new configuration keeps the other options of the state and of its y-axis; the title object holds only the text; the x-axis is replaced whole; the result does not depend on the old title, series or x-axis |
| Chart.NewConfigIdempotent | src/js/components/LangChart.js:128-137 | rebuilding from a built configuration with the same inputs gives the same configuration |
| Chart.ShouldSkipCases | src/js/components/LangChart.js:119-124 | a non-empty top list always rebuilds; from the memo a render starts with, the guard skips iff the top list is empty |
| Chart.LangChart.constructor | src/js/components/LangChart.js:23-26 | the state is the store's configuration, and the memo is as a render declares it |
| Chart.LangChart.Render | src/js/components/LangChart.js:25-32 | the memo is reset, and the state is kept |
| Chart.LangChart.UpdateState | src/js/components/LangChart.js:98-102 | commits iff the new state differs from the current one; afterwards the state equals the new state; the memo is untouched |
| Chart.LangChart.ConstructChart | src/js/components/LangChart.js:118-138 | rebuilds iff the guard does not hold; when skipping nothing changes; when rebuilding, it stores the top list and data length and commits the new configuration iff it differs |
| Chart.LangChart.Effect | src/js/components/LangChart.js:147-159 | sets the language filter from `lang` and builds with the sorted top-50 names; after a render, it rebuilds iff there is at least one ranking row; on a skip the state, data length and top list are unchanged |
| Chart.RenderTwice | src/js/components/LangChart.js:87-102 | two effect runs, each after a render, with equal inputs and fresh draws: both rebuild iff there are ranking rows; the second commits iff its percentage series differ from the first one's, so never when every top-list name has a canonical colour or the draws repeat |
| Chart.FreshDrawsRecolour | src/js/components/LangChart.js:87 | with one record of a language outside the palette, draws 0 and 0.5 give different configurations, so a second render commits |

## Left out

- Rendering is not modelled: the JSX, Highcharts, the style object, and the `null` returned for an empty series list (lines 161-166).
- React and the store are not modelled: `useState`, mobx autorun and the `LangChartStore` construction. The store's data, name and initial configuration are parameters. `Chart.LangChart.Render` stands for a render re-running the component body. When the effect runs is decided by its dependency list (line 159), which is not modelled: `Chart.LangChart.Effect` is one run, called by whoever models the trigger.
- `setState` is modelled as an immediate assignment. React applies it at the next render, so a stale closure cannot be told apart here.
- Floating-point semantics are not modelled. Counts, sums and quotients are exact reals, so rounding of `sum` and `divide` is not captured. `Series.Quotient` records only whether a quotient is finite, NaN, or an infinity and its sign.
- Series.PercentageData: requires equal-length series. It is only ever applied after `fillZeros`; for unequal lengths lodash's `unzip` would produce `undefined` entries, which are not modelled.
- The random fallback colour: `Math.random()` is an oracle indexed by the retained series' position, one oracle per effect run.
- The canonical colour table (`github-colors`) is a foreign library. It is a parameter `map<string, string>` from name to colour.
- TopList.LessEq: compares Dafny characters, which are Unicode scalar values. JavaScript compares UTF-16 code units, and the two orders differ only for characters outside the Basic Multilingual Plane.
- The ranking table's rows are given by their names only. The rows' other fields do not reach the chart.
- Lodash `isEqual` is modelled as Dafny equality on the configuration datatype. Both treat NaN as equal to itself.
- Categories.ToNumber: converts only integer numbers, arrays and functions, the operand kinds line 41 produces. Strings, fractional numbers and other objects are not modelled.
- `src/js/components/Select.js` and `src/js/components/Button.js` are input widgets (routing, store dispatch, async date loading) and are not part of this model.

## Findings

| source | as written | input that shows it | evidently intended | confidence | as-written member | corrected member |
|---|---|---|---|---|---|---|
| src/js/components/LangChart.js:41 | the quarter range and the quarter map are joined by the bitwise-or operator, not piped; both convert to 0, so each year maps to 0 and the function returns 37 zeros | no input needed: `categories()` takes none | a pipe of the quarter range into the map: four slots per year, the year in the first, 151 labels after the drop | high (not executed) | Categories.CategoriesAsWrittenHasNoYears | Categories.CategoriesYearOnce |
