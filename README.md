# Laconic registry leaderboard, modelled in Dafny

The leaderboard page reads the records of a Laconic registry and counts, per
*authority*, how many application, DNS and deployment names it has. A name is
a '/'-separated path. Segment 2 is the authority and segment 3 the category.
The page then shows one table row per authority, with a total-points column,
and lets the reader sort the table by any column. Each click on a column
alternates that column's direction.

The model has four modules:

- `Wrappers` (`wrappers.dfy`): `Option`, which stands for a JavaScript
  `undefined` field or index.
- `Text` (`text.dfy`): `String.prototype.split` on a one-character separator.
  `Join` is its inverse, and both round trips are proved.
- `Aggregator` (`aggregator.dfy`): `processNames`.
  - The code is modelled as it is written: a loop over records, a
    callback per record that resets the `applicationProcessed` flag and loops
    over the names, and a callback per name that updates a
    `map<string, Stats>`.
  - The loops are proved equal to a fold of specification functions (`Aggregate`).
  - That fold is then described in closed form. An authority has an entry
    exactly when a name with at least three segments mentions it. Its dns and
    deployments counters count its dns and deployments names. Its
    applications counter counts the records whose *first* applications name
    is its own. The flag is per record, not per authority.
  - The sum of all applications counters equals the number of records that
    have an applications name, so it never exceeds the number of records.
- `Leaderboard` (`leaderboard.dfy`): the rows of `renderTable` and the
  sorter of `sortTable`.
  - A `Sorter` class owns the `sortDirections` array and sorts an
    `array<Row>` in place.
  - The in-place sort is an insertion sort. A functional insertion sort
    specifies it.
  - The sort is proved sorted, a permutation and stable, and it leaves
    already sorted input unchanged.
  - After a sort the chosen column's flag is flipped and the other four are
    untouched.

## Model

| member | source | states |
|---|---|---|
| Text.Split | app.js:28 | `name.split('/')` yields at least one part, and no part contains the separator |
| Text.SplitLength | app.js:28-29 | the number of parts is the number of separators plus one, so `parts.length > 2` means at least two '/' |
| Text.JoinSplit | app.js:28 | joining the parts with the separator gives back the name: splitting loses nothing |
| Text.SplitJoin | app.js:28 | splitting the join of separator-free segments gives back exactly those segments |
| Aggregator.Classify | app.js:28-31 | a name is classified by an authority exactly when it holds at least two '/'; the authority (segment 2) holds no '/' |
| Aggregator.ProcessName | app.js:27-46 | the per-name callback updates the table and the record's flag as one step of the aggregation fold (`ApplyName`) |
| Aggregator.ProcessRecord | app.js:23-48 | the per-record callback skips a record without `names`; otherwise it starts the flag at false and folds the names in order |
| Aggregator.ProcessNames | app.js:20-51 | the result is the fold over all records. Its keys are exactly the authorities of names with more than two segments. Each entry is the closed-form tally `Expected` |
| Aggregator.StepEffect | app.js:29-44 | an ignored name changes nothing; otherwise the name's authority gets an entry and no other key appears. The flag ends set exactly when it was already set or the category is applications |
| Aggregator.StepTally | app.js:33-44 | per authority, one name adds one to exactly the counter its category selects (applications only while the flag is unset) and leaves every other authority's tally alone; a new entry starts from all zeros |
| Aggregator.OtherCategoryOnlyEntry | app.js:33-44 | a name whose category is missing or not one of the three creates the entry, changes no counter and keeps the flag |
| Aggregator.ShortNameNoEffect | app.js:28-29 | a name with at most two segments leaves the table and the flag unchanged |
| Aggregator.ShortNameIgnored | app.js:28-29 | a name with fewer than two '/' is ignored |
| Aggregator.IgnoredNameNoEffect | app.js:27-29 | deleting an ignored name from a record's names changes neither the table nor the flag |
| Aggregator.NamesEffect | app.js:25-46 | one record's names add exactly their named authorities as keys; the flag ends set exactly when it was set or some name is an applications name |
| Aggregator.NamesTallyEffect | app.js:25-46 | one record's names add to `a`'s tally its dns and deployments names. They add one application exactly when the flag was unset and the record's first applications name is `a`'s |
| Aggregator.AggregateEffect | app.js:23-48 | the records add exactly the authorities they mention as keys |
| Aggregator.AggregateTally | app.js:23-48 | the records add to `a`'s tally exactly `Expected(data, a)` |
| Aggregator.AggregateCharacterization | app.js:20-51 | the table's keys are the authorities mentioned, and every authority (absent ones read as zero) has tally `Expected(data, a)` |
| Aggregator.EmptyWithoutQualifyingNames | app.js:21-48 | when no name has more than two segments, the result is the empty table |
| Aggregator.RecordWithoutNames | app.js:24 | a record with no `names` field, or an empty one, leaves the table unchanged |
| Aggregator.StepTotal | app.js:37-39 | one name raises the sum of the applications counters by one exactly when it takes the record's applications increment |
| Aggregator.NamesTotal | app.js:25-46 | one record raises the sum of the applications counters by at most one: by one exactly when the flag was unset and it has an applications name |
| Aggregator.AggregateTotal | app.js:23-48 | the records raise the sum of the applications counters by the number of records with an applications name |
| Aggregator.ApplicationsCap | app.js:25-39 | the sum of all applications counters equals the number of records with an applications name, and so is at most the number of records |
| Aggregator.ClassifyJoin | app.js:28-31 | a path of separator-free segments is classified by its segment 2 (authority) and segment 3 (category, absent when there are three segments) |
| Aggregator.CrossAuthorityCap | app.js:25-39 | a record whose first applications name is A's and whose second is B's credits A with one application and B with none. B still gets an all-zero entry |
| Leaderboard.RowOf | app.js:58-67 | a row shows the authority and its three counters, and its total points are their sum |
| Leaderboard.RenderRows | app.js:57-69 | one row per table entry and no other, each showing that entry's counters, with total points equal to applications + dns + deployments |
| Leaderboard.RenderStep | app.js:57-68 | rendering one more unrendered entry extends the rows by exactly its row |
| Leaderboard.CompareTextAntisymmetric | app.js:87 | the string comparison is antisymmetric |
| Leaderboard.CompareTextZero | app.js:87 | the string comparison returns zero exactly for equal strings |
| Leaderboard.CompareTextTransitive | app.js:87 | the string comparison is transitive |
| Leaderboard.Comparator | app.js:79-91 | the sort callback returns zero exactly when the two rows have equal keys on the column: equal authorities on column 0, equal numbers on columns 1-4 |
| Leaderboard.ComparatorAntisymmetric | app.js:79-91 | swapping the two rows negates the comparator, so any two rows are in order one way or the other |
| Leaderboard.ComparatorTransitive | app.js:79-91 | "may stand before" is transitive in both directions, so the comparator is a total preorder |
| Leaderboard.CompareEqualKeys | app.js:83-88 | two rows with equal keys on the column compare the same way against any third row |
| Leaderboard.SortedMeaning | app.js:83-90 | sorted means text order on column 0, and non-decreasing (or, descending, non-increasing) numbers on columns 1-4 |
| Leaderboard.InsertMultiset | app.js:79-91 | inserting a row adds exactly that row |
| Leaderboard.InsertSorted | app.js:79-91 | inserting into sorted rows keeps them sorted |
| Leaderboard.InsertRun | app.js:79-91 | inserting a row puts it after every row equal to it and reorders no equal rows |
| Leaderboard.SortMultiset | app.js:79-91 | the insertion sort returns a permutation of its input |
| Leaderboard.SortSorted | app.js:79-91 | the insertion sort returns rows sorted by the comparator |
| Leaderboard.SortStable | app.js:79-91 | the insertion sort is stable: for every key, the rows with that key keep their relative order |
| Leaderboard.SortSortedIdentity | app.js:79-91 | rows already in order are returned unchanged |
| Leaderboard.InsertNext | app.js:79-91 | one pass of the in-place sort moves the row at `i` left into the sorted prefix and leaves the rest of the array alone |
| Leaderboard.SortRows | app.js:79-91 | `rows.sort(comparator)` in place: the array ends up as the functional insertion sort of its old contents. That result is sorted, a permutation and stable, and already sorted input keeps its order |
| Leaderboard.Sorter.constructor | app.js:72 | five direction flags, all ascending |
| Leaderboard.Sorter.SortTable | app.js:74-98 | sorts the rows on the column in the column's current direction (sorted, a permutation, stable), then negates that column's flag and leaves the other four as they were |
| Leaderboard.SortTwice | app.js:90-94 | a second sort on the same column sorts in the opposite direction and restores the column's flag |

## Left out

- `fetchData` and `init` (app.js:1-18, 100-106) are network I/O and async sequencing. The model starts from the decoded records.
- The DOM work of `renderTable` and `sortTable`:
  - `querySelector`, `innerHTML` and `appendChild`;
  - reading `textContent` back out of the cells.

  Rows are data, and the sort acts on an `array<Row>` directly. The authority goes into the page unescaped (app.js:59-68), and the sort (app.js:80-81) compares the cell text as the HTML parser rewrote it, after `.trim()`: entities are decoded (`a&amp;b` reads back as `a&b`), markup is dropped, and an authority containing `</td><td>` splits the row into extra cells, which shifts the numeric columns. The model compares the authority string itself.
- `localeCompare` (app.js:87) is modelled as plain lexicographic order of character codes. Locale collation rules are not modelled.
- `parseInt` (app.js:85): the cells are rendered from non-negative integers, so the model compares those integers directly.
- The iteration order of `Object.entries` (app.js:57) and of insertion into the `authorities` object. `RenderRows` produces the rows in an unspecified order and promises only which rows there are.
- JavaScript object-key quirks. Inherited keys such as `"constructor"` make `!authorities[authority]` false at app.js:33. The table is a plain map.
- Counters are unbounded naturals. JavaScript numbers are doubles, which are exact only up to 2^53.
- `record.names` that is present but not an array of strings, and names that are not strings.
- The engine's own `Array.prototype.sort` algorithm is not modelled. The model uses an insertion sort. Its result is the one any stable sort gives for this comparator.
- Leaderboard.Sorter.SortTable: requires a column 0 to 4, one of the table's five columns. With any other index the source throws once the comparator runs (two or more rows), reading `textContent` of an undefined cell; with fewer rows the comparator never runs, and app.js:94 stores `!undefined`, that is `true`, at that index of `sortDirections`, growing the array past five entries when the index is 5 or more.
- Leaderboard.RenderRows: the order of the rows is not specified.
