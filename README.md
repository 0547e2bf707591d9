# Hospital census reconciliation, modelled in Dafny

`process_excel` turns a workbook of monthly census sheets and a target year into one
`(year, month, total)` row per month. This project models that routine. The run goes as follows:

1. It checks that the year has four digits.
2. It walks the first twelve sheets in order. The sheet at position `i` stands for month `i`.
3. On each sheet, it finds the first row whose column-0 text contains `BSLMC Total Census` or
   `Census (from EPIC)Total Bed Count`, ignoring letter case.
4. It reads that row's cells from column 2 onward. Cells that are not numeric, or that equal zero,
   are dropped as missing days.
5. It sums the remaining readings. When some but not all of the month's days have a reading, it
   pro-rates the sum to the month's expected number of days. February has 29 days whenever the year
   is divisible by 4.
6. A run that yields no row fails with "no data".

Modules:

- `Wrappers`: `Option`.
- `Calendar`: the year range, the months and their names, and the day-count table.
- `Cells`: cells and numeric coercion.
- `Matching`: finding the census row.
- `Cleaning`: valid days.
- `Extrapolation`: pro-rating.
- `Gathering`: collecting the per-sheet results in order.
- `Census`: the per-sheet function, the run as a function (`Aggregate`), and the run as a loop
  (`ProcessExcel`, proved equal to `Aggregate`).
- `CensusProperties`: properties that relate several sheets, rows or runs.

How the model represents the inputs and outputs:

- A sheet is a grid of cells (`Num`, `Text` or `Empty`). A workbook is the sequence of its sheets,
  in sheet order.
- The year input is either an integer or `None`, where `None` stands for a string that `int()`
  rejects.
- The outcome is `InvalidYear`, `NoData` or `Summary(rows)`. Each row carries the year, the month
  (reported under `Name(month)`) and the total.

When the census row is found but none of its cells is a valid day, the code still appends a row
with total 0 (hospital_census.py:62-67) instead of skipping the month, and so does the model
(`EmptyCensusRowGivesZero`).

## Model

| member | source | states |
|---|---|---|
| Calendar.ValidYear | hospital_census.py:10 | a year is accepted when it lies in 1000..9999; `Aggregate` states that exactly the other years fail the run |
| Calendar.NamesInOrder | hospital_census.py:19-22 | sheets 0..11 are reported as January..December, in calendar order |
| Calendar.MonthAt | hospital_census.py:60 | sheet i stands for the i-th month of the calendar order; its name is given by `NamesInOrder` |
| Calendar.FebruaryDays | hospital_census.py:24 | February has 29 days exactly when the year is divisible by 4, and 28 otherwise |
| Calendar.ExpectedDays | hospital_census.py:25-29 | every month has 28 to 31 days: 28 only for February in a year not divisible by 4, 29 only for February in a year divisible by 4, and 30 exactly for April, June, September and November |
| Calendar.LookupByName | hospital_census.py:25-29 | looking a month's name up in the name-keyed table gives that month's expected days |
| Calendar.DaysByName | hospital_census.py:25-29 | the name-keyed table; `LookupByName` states that it gives each month's expected days under its name |
| Calendar.FirstHalfLength | hospital_census.py:25-27 | January to June add up to 153 days plus February's |
| Calendar.YearLength | hospital_census.py:24-29 | the table adds up to 366 days when the year is divisible by 4 and to 365 otherwise |
| Calendar.CenturyYearFebruary | hospital_census.py:24 | 1900 gets a 29-day February although it is not a Gregorian leap year; 2023 gets 28 and 2024 gets 29 |
| Cells.ParseUnsigned | hospital_census.py:55 | a successfully parsed unsigned decimal is non-negative and its text has a digit |
| Cells.ParseDecimal | hospital_census.py:55 | text that parses holds only digits, signs and a point; a leading minus gives a non-positive value, and any other start gives a non-negative one |
| Cells.Coerce | hospital_census.py:55 | a numeric cell coerces to its own value, and an empty cell to nothing |
| Cells.UnsignedDigits | hospital_census.py:55 | a non-empty run of digits parses to its decimal value |
| Cells.TextOfNaturalCoerces | hospital_census.py:55 | a natural number written in decimal, with or without a minus sign, coerces back to that number or its negation |
| Cells.LeadingDigitsAppend | hospital_census.py:55 | a prefix of digits adds its length to the leading-digit count |
| Cells.FractionParsesUnsigned | hospital_census.py:55 | `digits.digits`, `digits.` and `.digits` parse to the whole part plus the fractional digits over the matching power of ten |
| Cells.SignedForms | hospital_census.py:55 | an unsigned decimal parses to the same value bare and after a plus sign, and to its negation after a minus sign |
| Cells.FractionCoerces | hospital_census.py:55 | a decimal with a point, bare, with a plus sign or with a minus sign, coerces to the value it spells or its negation |
| Cells.PlusDigitsCoerce | hospital_census.py:55 | digits after a plus sign coerce to their decimal value |
| Cells.LetterBlocksCoercion | hospital_census.py:55 | text holding any character other than a digit, a sign or a point coerces to nothing |
| Matching.Lower | hospital_census.py:44 | case folding maps upper-case ASCII letters to lower case and leaves every other character alone |
| Matching.ContainsFold | hospital_census.py:42-45 | the search succeeds exactly when the pattern occurs at some offset of the text, ignoring case |
| Matching.IsCensusLabel | hospital_census.py:42-45 | a column-0 cell marks the census row when it is text containing either label, ignoring case; `LooseLabelMatches` and `ReorderedLabelDoesNotMatch` give matching and non-matching cases, and `FindCensusRow` the first-match rule |
| Matching.FindFrom | hospital_census.py:42-46 | the result is the first matching row at or after the start; None means that no row from the start on matches |
| Matching.FindCensusRow | hospital_census.py:42-46 | the result is a matching row with no matching row before it; None exactly when no row matches |
| Matching.FirstMatchIsFound | hospital_census.py:46 | a matching row preceded by no matching row is the one found |
| Matching.LaterRowsDoNotMove | hospital_census.py:46 | replacing every row after the first match, whatever they hold, leaves the found row unchanged |
| Matching.LooseLabelMatches | hospital_census.py:42-44 | a lower-case label followed by extra text still matches |
| Matching.ReorderedLabelDoesNotMatch | hospital_census.py:42-44 | the label's words in another order do not match, and neither do numeric or empty cells |
| Cleaning.Cleaned | hospital_census.py:55-57 | the cleaned readings are no more than the cells, and none of them is zero |
| Cleaning.IsValidDay | hospital_census.py:55-57 | a cell is a valid day when it coerces to a non-zero number; `CleanedMembers` and `CleanedCount` state that exactly these cells give the readings and their count |
| Cleaning.DayValues | hospital_census.py:55 | a row yields no more readings than it has cells |
| Cleaning.CleanedAppend | hospital_census.py:55-57 | cleaning works cell by cell: cleaning a concatenation concatenates the cleaned parts |
| Cleaning.SumAppend | hospital_census.py:62 | the sum of a concatenation is the sum of the sums |
| Cleaning.Sum | hospital_census.py:62 | the raw monthly sum; `SumAppend` and `SumOfConstant` state that it adds up the readings |
| Cleaning.CleanedMembers | hospital_census.py:55-57 | a value is among the readings exactly when it is non-zero and some cell coerces to it |
| Cleaning.CleanedSnoc | hospital_census.py:55-57 | one more cell adds its value when it is a valid day, and nothing otherwise |
| Cleaning.ValidIndicesSnoc | hospital_census.py:55-57 | one more cell adds its column to the valid columns exactly when it is a valid day |
| Cleaning.CleanedCount | hospital_census.py:58 | the number of days with data equals the number of cells that coerce to a non-zero number |
| Cleaning.InvalidCellsInterchangeable | hospital_census.py:55-57 | any two cells that are not valid days can replace each other without changing the readings |
| Cleaning.ZeroIsAbsent | hospital_census.py:56-57 | a zero reading gives the same readings as an empty cell in its place |
| Cleaning.LeadingColumnsIgnored | hospital_census.py:55 | whatever columns 0 and 1 hold, they never contribute a reading |
| Cleaning.SumOfConstant | hospital_census.py:62 | readings that all equal v sum to their number times v |
| Extrapolation.Extrapolate | hospital_census.py:64-65 | the pro-rating formula; `ScalingRule` states that the total is in the ratio expected : d to the raw sum when 0 < d < expected, and is the raw sum otherwise |
| Extrapolation.ScaledFrom | hospital_census.py:64-65 | the scaling relation between a total and a raw sum: ratio expected : d when 0 < d < expected, equality otherwise; `ScalingRule` proves that `Extrapolate` satisfies it |
| Extrapolation.ScalingRule | hospital_census.py:64-65 | when 0 < d < expected, the total is in the ratio expected : d to the raw sum; otherwise it is the raw sum |
| Extrapolation.KeepsDailyAverage | hospital_census.py:64-65 | a pro-rated month keeps the observed daily average |
| Extrapolation.NeverScalesDown | hospital_census.py:64-65 | with a non-negative raw sum, the total is never below the raw sum |
| Extrapolation.UniformMonth | hospital_census.py:64-65 | a month whose readings all equal v gets v for each expected day |
| Extrapolation.WorkedExamples | hospital_census.py:64-65 | 300 over 10 of 30 days gives 900; 280 over 28 of 29 days gives 290; full months and months without readings keep their sums |
| Gathering.Gathered | hospital_census.py:67 | the results list; `GatheredSnoc`, `GatheredOrigin`, `PositionsIncreasing`, `PositionsComplete` and `GatheredEmpty` state that it holds exactly the present results, in order |
| Gathering.GatheredSnoc | hospital_census.py:67 | a sheet's result, if any, is appended at the end, and a skipped sheet appends nothing |
| Gathering.PositionsMatchValues | hospital_census.py:67 | there is exactly one source position per gathered value |
| Gathering.PositionsInRange | hospital_census.py:31 | every source position is a position of the input |
| Gathering.GatheredOrigin | hospital_census.py:67 | the k-th gathered value is the result present at the k-th source position |
| Gathering.PositionsIncreasing | hospital_census.py:31 | source positions strictly increase, so values keep input order |
| Gathering.PositionsComplete | hospital_census.py:31-67 | every present result is gathered |
| Gathering.GatheredEmpty | hospital_census.py:69 | nothing is gathered exactly when every result is absent |
| Census.IsBlankSheet | hospital_census.py:37 | a sheet with no rows, or whose rows have no columns; `SkippedIff` states that such a sheet is skipped |
| Census.SheetRow | hospital_census.py:37-67 | a sheet yields a row exactly when it is not blank and has a census row; that row carries the target year and the month of the sheet's position |
| Census.Candidates | hospital_census.py:31-33 | there is one per-sheet result for each of the first n sheets |
| Census.CandidateAt | hospital_census.py:31-67 | the i-th per-sheet result is what sheet i yields |
| Census.Collect | hospital_census.py:31-67 | the first n sheets yield at most n rows |
| Census.CollectStep | hospital_census.py:67 | one more sheet appends its row, if it yields one, at the end of the rows so far |
| Census.Consulted | hospital_census.py:31-33 | at most twelve sheets are consulted, and fewer only when the workbook has fewer |
| Census.Aggregate | hospital_census.py:7-71 | the run fails with InvalidYear exactly when the year does not parse or lies outside 1000..9999; a summary holds between 1 and 12 rows, and no more rows than sheets |
| Census.ProcessSheet | hospital_census.py:35-67 | one iteration of the loop (skip a blank sheet, skip a sheet without a census row, otherwise clean, sum and pro-rate) computes exactly what the sheet yields |
| Census.ProcessExcel | hospital_census.py:7-71 | the loop with its break at twelve and its skips produces exactly the outcome of the run |
| CensusProperties.RowOrigin | hospital_census.py:60-67 | the k-th result row comes from a consulted sheet: it is that sheet's row and carries the sheet's month and the target year |
| CensusProperties.RowsInSheetOrder | hospital_census.py:31 | rows come out in the order of the sheets that produced them |
| CensusProperties.SourcesComplete | hospital_census.py:31-67 | every consulted sheet that yields a row contributes it |
| CensusProperties.SheetsBeyondTwelveIgnored | hospital_census.py:32-33 | appending sheets after the twelfth never changes the outcome |
| CensusProperties.CollectPrefix | hospital_census.py:31-33 | workbooks that agree on their first n sheets yield the same rows from them |
| CensusProperties.InvalidYearIgnoresWorkbook | hospital_census.py:9-16 | an invalid year fails the run whatever the workbook holds |
| CensusProperties.SkippedSheetAddsNothing | hospital_census.py:37-53 | replacing a skipped sheet by an empty one leaves the rows unchanged |
| CensusProperties.SkippedSheetLeavesRunUnchanged | hospital_census.py:37-53 | a skipped sheet does not influence the outcome of the run |
| CensusProperties.LaterRowsIgnored | hospital_census.py:46-55 | rows after the first census row, even other census rows, do not change the sheet's result |
| CensusProperties.SkippedIff | hospital_census.py:37-53 | a sheet is skipped exactly when it is blank or no column-0 cell matches a label |
| CensusProperties.NoDataIffAllSkipped | hospital_census.py:69-71 | a valid run fails with NoData exactly when every consulted sheet is skipped |
| CensusProperties.CensusDays | hospital_census.py:55-57 | the readings of the first census row are all non-zero |
| CensusProperties.SheetRowTotal | hospital_census.py:55-65 | with d readings of the first census row summing to raw and e expected days, a usable sheet's total satisfies `ScaledFrom`: it times d equals raw times e when 0 < d < e, and it is raw otherwise |
| CensusProperties.EmptyCensusRowGivesZero | hospital_census.py:64-67 | a census row without a valid reading still yields a row for the month, with total 0 |
| CensusProperties.ReadingsKept | hospital_census.py:55-57 | non-zero numeric readings pass cleaning unchanged and in order |
| CensusProperties.FebruaryReadings | hospital_census.py:55-62 | the example February row has 28 readings of 10 summing to 280, and its zero is dropped |
| CensusProperties.FebruaryExample | hospital_census.py:60-67 | the example February 2024 sheet yields February with 290 |
| CensusProperties.FebruaryRun | hospital_census.py:31-67 | with a January sheet that has no census row before it, the run reports February 2024 alone, with 290 |

## Left out

- The graphical front end, the file and folder dialogs, and the message boxes are not modelled. Their failure messages become the `InvalidYear` and `NoData` outcomes.
- Reading the workbook is not modelled. Each sheet is given as an already-loaded grid of cells, holding only the used range.
- A sheet whose cells are all empty may be dropped as empty by the reader. In the model it is not blank, but it has no census row, so it is skipped either way.
- Writing the output workbook (file name, header, column widths) is not modelled.
- Parsing the year string is not modelled. The year arrives as an integer, or as `None` when the string does not parse, so whitespace, underscores and signs in the string are not captured.
- `round(total, 2)` is not modelled. Totals are exact reals, and binary floating point is not modelled.
- Cells.ParseDecimal: covers plain decimals with an optional sign only (`[+|-]digits`, `[+|-]digits.digits`, `[+|-]digits.`, `[+|-].digits`, shown to parse to their values by `UnsignedDigits` with `SignedForms`, `PlusDigitsCoerce`, `TextOfNaturalCoerces` and `FractionCoerces`). Exponents, surrounding whitespace, `inf`/`nan` spellings, and boolean or date cells are not modelled.
- Matching.Lower: folds ASCII letters only. Unicode case folding is not modelled.
- The label test is a case-insensitive substring search for the two fixed labels, not a general regular-expression engine.
- The exception handler around the row search is not modelled. The search cannot fail on a grid of cells, so the handler's "skip the sheet" path never arises.
- The diagnostic messages printed for skipped sheets are not modelled.
- Census.ProcessExcel: the loop body is factored into `ProcessSheet`, whose early returns stand for the loop's `continue` statements.
- The month of a result row is kept as a `Month`. Its printed form is `Name(month)`, and the name-keyed table lookup is `DaysByName`, tied to `ExpectedDays` by `LookupByName`.
