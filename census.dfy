/**
 * The census aggregator: from a workbook of monthly sheets and a target
 * year to one (year, month, total) row per month.
 *
 * The year is checked first. The first twelve sheets are then processed in
 * order; the sheet at position `i` stands for month `i` (0 = January). A
 * sheet without cells or without a census row is skipped. Otherwise its
 * valid daily readings are summed and, if some days are missing, pro-rated
 * to the month's expected number of days. A run that yields no row at all
 * fails.
 */
module Census {
  import opened Wrappers
  import opened Calendar
  import opened Cells
  import opened Matching
  import opened Cleaning
  import opened Extrapolation
  import opened Gathering

  /** At most this many sheets are consulted. */
  const MaxSheets: nat := 12

  type Workbook = seq<Sheet>

  /** One output row; the month is reported under `Name(month)`. */
  datatype MonthResult = MonthResult(year: int, month: Month, total: real)

  datatype Outcome =
    | InvalidYear
    | NoData
    | Summary(rows: seq<MonthResult>)

  /** A sheet with no rows, or whose rows hold no columns at all. */
  predicate IsBlankSheet(sheet: Sheet) {
    |sheet| == 0 || forall row <- sheet :: |row| == 0
  }

  /** The month row that the sheet at position `i` yields, or None when the sheet is skipped. */
  function SheetRow(year: int, i: nat, sheet: Sheet): (r: Option<MonthResult>)
    requires i < MaxSheets
    ensures r.Some? <==> !IsBlankSheet(sheet) && FindCensusRow(sheet).Some?
    ensures r.Some? ==> r.value.year == year && r.value.month == MonthAt(i)
  {
    if IsBlankSheet(sheet) then None
    else match FindCensusRow(sheet)
      case None => None
      case Some(k) =>
        var days := DayValues(sheet[k]);
        var m := MonthAt(i);
        Some(MonthResult(year, m, Extrapolate(Sum(days), |days|, ExpectedDays(year, m))))
  }

  /** What each of the first `n` sheets yields, by position. */
  function Candidates(year: int, workbook: Workbook, n: nat): (c: seq<Option<MonthResult>>)
    requires n <= |workbook| && n <= MaxSheets
    ensures |c| == n
  {
    if n == 0 then [] else Candidates(year, workbook, n - 1) + [SheetRow(year, n - 1, workbook[n - 1])]
  }

  /** Entry `i` is what the sheet at position `i` yields. */
  lemma {:induction false} CandidateAt(year: int, workbook: Workbook, n: nat, i: nat)
    requires n <= |workbook| && n <= MaxSheets && i < n
    ensures Candidates(year, workbook, n)[i] == SheetRow(year, i, workbook[i])
  {
    if i < n - 1 {
      CandidateAt(year, workbook, n - 1, i);
    }
  }

  /** The rows that the first `n` sheets of the workbook yield, in sheet order. */
  function Collect(year: int, workbook: Workbook, n: nat): (rows: seq<MonthResult>)
    requires n <= |workbook| && n <= MaxSheets
    ensures |rows| <= n
  {
    Gathered(Candidates(year, workbook, n))
  }

  /** One more sheet adds its row, if it yields one, at the end. */
  lemma CollectStep(year: int, workbook: Workbook, n: nat)
    requires n < |workbook| && n < MaxSheets
    ensures SheetRow(year, n, workbook[n]).None? ==> Collect(year, workbook, n + 1) == Collect(year, workbook, n)
    ensures SheetRow(year, n, workbook[n]).Some? ==>
      Collect(year, workbook, n + 1) == Collect(year, workbook, n) + [SheetRow(year, n, workbook[n]).value]
  {
    GatheredSnoc(Candidates(year, workbook, n), SheetRow(year, n, workbook[n]));
  }

  function Min(a: nat, b: nat): nat {
    if a <= b then a else b
  }

  /** How many sheets are consulted: the first twelve at most. */
  function Consulted(workbook: Workbook): (n: nat)
    ensures n <= MaxSheets && n <= |workbook|
    ensures n == MaxSheets || n == |workbook|
  {
    Min(MaxSheets, |workbook|)
  }

  /** The result of a run, for a year input that is either an integer or unparseable (None). */
  function Aggregate(yearInput: Option<int>, workbook: Workbook): (o: Outcome)
    ensures o.InvalidYear? <==> yearInput.None? || !ValidYear(yearInput.value)
    ensures o.Summary? ==> 0 < |o.rows| <= MaxSheets && |o.rows| <= |workbook|
  {
    if yearInput.None? || !ValidYear(yearInput.value) then InvalidYear
    else
      var rows := Collect(yearInput.value, workbook, Consulted(workbook));
      if rows == [] then NoData else Summary(rows)
  }

  /**
   * One iteration of the sheet loop: skip a blank sheet, skip a sheet
   * without a census row, otherwise clean the first census row and compute
   * the month's total.
   */
  method ProcessSheet(year: int, i: nat, sheet: Sheet) returns (row: Option<MonthResult>)
    requires i < MaxSheets
    ensures row == SheetRow(year, i, sheet)
  {
    if IsBlankSheet(sheet) {
      return None;
    }
    var found := FindCensusRow(sheet);
    if found.None? {
      return None;
    }
    var days := DayValues(sheet[found.value]);
    var month := MonthAt(i);
    var expected := ExpectedDays(year, month);
    var total := Extrapolate(Sum(days), |days|, expected);
    return Some(MonthResult(year, month, total));
  }

  /**
   * The aggregation as a loop over the sheets: year check, then one pass
   * that appends one row per usable sheet and stops after twelve sheets.
   */
  method ProcessExcel(yearInput: Option<int>, workbook: Workbook) returns (outcome: Outcome)
    ensures outcome == Aggregate(yearInput, workbook)
  {
    if yearInput.None? || !ValidYear(yearInput.value) {
      return InvalidYear;
    }
    var year := yearInput.value;
    var results: seq<MonthResult> := [];
    var i := 0;
    while i < |workbook|
      invariant i <= |workbook| && i <= MaxSheets
      invariant results == Collect(year, workbook, i)
    {
      if i >= MaxSheets {
        break;
      }
      var row := ProcessSheet(year, i, workbook[i]);
      CollectStep(year, workbook, i);
      if row.Some? {
        results := results + [row.value];
      }
      i := i + 1;
    }
    assert i == Consulted(workbook);
    if results == [] {
      return NoData;
    }
    return Summary(results);
  }
}
