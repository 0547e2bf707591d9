/**
 * Properties of the census aggregation that relate several sheets, several
 * rows or several runs: result order and provenance, the twelve-sheet cap,
 * first match wins, skipped sheets, the no-data failure, and a worked
 * February example.
 */
module CensusProperties {
  import opened Wrappers
  import opened Calendar
  import opened Cells
  import opened Matching
  import opened Cleaning
  import opened Extrapolation
  import opened Census
  import opened Gathering

  /** The positions among the first `n` sheets that yield a row, in increasing order. */
  function Sources(year: int, workbook: Workbook, n: nat): seq<nat>
    requires n <= |workbook| && n <= MaxSheets
  {
    Positions(Candidates(year, workbook, n))
  }

  /**
   * The rows come out in sheet order: the k-th row is the row of the k-th
   * contributing sheet, so it carries that sheet's month and the target
   * year.
   */
  lemma RowOrigin(year: int, workbook: Workbook, n: nat, k: nat)
    requires n <= |workbook| && n <= MaxSheets && k < |Collect(year, workbook, n)|
    ensures |Sources(year, workbook, n)| == |Collect(year, workbook, n)|
    ensures Sources(year, workbook, n)[k] < n
    ensures SheetRow(year, Sources(year, workbook, n)[k], workbook[Sources(year, workbook, n)[k]])
      == Some(Collect(year, workbook, n)[k])
    ensures Collect(year, workbook, n)[k].month == MonthAt(Sources(year, workbook, n)[k])
    ensures Collect(year, workbook, n)[k].year == year
  {
    GatheredOrigin(Candidates(year, workbook, n), k);
    CandidateAt(year, workbook, n, Sources(year, workbook, n)[k]);
  }

  /** Rows from different sheets appear in the order of their sheets. */
  lemma RowsInSheetOrder(year: int, workbook: Workbook, n: nat, k: nat, l: nat)
    requires n <= |workbook| && n <= MaxSheets && k < l < |Collect(year, workbook, n)|
    ensures |Sources(year, workbook, n)| == |Collect(year, workbook, n)|
    ensures Sources(year, workbook, n)[k] < Sources(year, workbook, n)[l]
  {
    PositionsMatchValues(Candidates(year, workbook, n));
    PositionsIncreasing(Candidates(year, workbook, n), k, l);
  }

  /** Every consulted sheet that yields a row contributes it. */
  lemma SourcesComplete(year: int, workbook: Workbook, n: nat, i: nat)
    requires n <= |workbook| && n <= MaxSheets && i < n
    requires SheetRow(year, i, workbook[i]).Some?
    ensures i in Sources(year, workbook, n)
  {
    CandidateAt(year, workbook, n, i);
    PositionsComplete(Candidates(year, workbook, n), i);
  }

  /** Sheets after the twelfth never change the outcome of a run. */
  lemma SheetsBeyondTwelveIgnored(yearInput: Option<int>, workbook: Workbook, extra: Workbook)
    requires |workbook| >= MaxSheets
    ensures Aggregate(yearInput, workbook + extra) == Aggregate(yearInput, workbook)
  {
    if yearInput.Some? && ValidYear(yearInput.value) {
      CollectPrefix(yearInput.value, workbook, workbook + extra, MaxSheets);
    }
  }

  /** Only the consulted sheets matter: workbooks that agree on them yield the same rows. */
  lemma CollectPrefix(year: int, a: Workbook, b: Workbook, n: nat)
    requires n <= |a| && n <= |b| && n <= MaxSheets
    requires forall i :: 0 <= i < n ==> a[i] == b[i]
    ensures Collect(year, a, n) == Collect(year, b, n)
  {
    forall i | 0 <= i < n
      ensures Candidates(year, a, n)[i] == Candidates(year, b, n)[i]
    {
      CandidateAt(year, a, n, i);
      CandidateAt(year, b, n, i);
    }
    assert Candidates(year, a, n) == Candidates(year, b, n);
  }

  /** An invalid year fails the run whatever the workbook holds. */
  lemma InvalidYearIgnoresWorkbook(yearInput: Option<int>, workbook: Workbook, other: Workbook)
    requires yearInput.None? || !ValidYear(yearInput.value)
    ensures Aggregate(yearInput, workbook) == InvalidYear
    ensures Aggregate(yearInput, workbook) == Aggregate(yearInput, other)
  {
  }

  /** Replacing a skipped sheet by a blank one changes none of the rows. */
  lemma SkippedSheetAddsNothing(year: int, workbook: Workbook, n: nat, i: nat)
    requires n <= |workbook| && n <= MaxSheets && i < |workbook|
    requires i < MaxSheets ==> SheetRow(year, i, workbook[i]).None?
    ensures Collect(year, workbook[i := []], n) == Collect(year, workbook, n)
  {
    var blanked := workbook[i := []];
    forall j | 0 <= j < n
      ensures Candidates(year, blanked, n)[j] == Candidates(year, workbook, n)[j]
    {
      CandidateAt(year, blanked, n, j);
      CandidateAt(year, workbook, n, j);
      if j == i {
        assert SheetRow(year, i, []) == None;
      }
    }
    assert Candidates(year, blanked, n) == Candidates(year, workbook, n);
  }

  /** At the level of a run: a skipped sheet contributes nothing to the outcome. */
  lemma SkippedSheetLeavesRunUnchanged(yearInput: Option<int>, workbook: Workbook, i: nat)
    requires i < |workbook|
    requires yearInput.Some? && i < MaxSheets ==> SheetRow(yearInput.value, i, workbook[i]).None?
    ensures Aggregate(yearInput, workbook[i := []]) == Aggregate(yearInput, workbook)
  {
    if yearInput.Some? && ValidYear(yearInput.value) {
      SkippedSheetAddsNothing(yearInput.value, workbook, Consulted(workbook), i);
    }
  }

  /** Only the first census row counts: rows after it, matching or not, are ignored. */
  lemma LaterRowsIgnored(year: int, i: nat, sheet: Sheet, tail: Sheet)
    requires i < MaxSheets && FindCensusRow(sheet).Some?
    ensures SheetRow(year, i, sheet[..FindCensusRow(sheet).value + 1] + tail) == SheetRow(year, i, sheet)
  {
    var k := FindCensusRow(sheet).value;
    var cut := sheet[..k + 1] + tail;
    LaterRowsDoNotMove(sheet, k, tail);
    assert cut[k] == sheet[k];
    assert |sheet[k]| > 0 && sheet[k] in sheet && cut[k] in cut;
  }

  /** A sheet yields no row exactly when it is blank or has no census row. */
  lemma SkippedIff(year: int, i: nat, sheet: Sheet)
    requires i < MaxSheets
    ensures SheetRow(year, i, sheet).None? <==>
      IsBlankSheet(sheet) || forall j :: 0 <= j < |sheet| ==> !IsCensusLabel(LabelCell(sheet[j]))
  {
  }

  /** The run fails with no data exactly when every consulted sheet is skipped. */
  lemma NoDataIffAllSkipped(year: int, workbook: Workbook)
    requires ValidYear(year)
    ensures Aggregate(Some(year), workbook) == NoData <==>
      forall i :: 0 <= i < |workbook| && i < MaxSheets ==> SheetRow(year, i, workbook[i]).None?
  {
    var n := Consulted(workbook);
    var c := Candidates(year, workbook, n);
    GatheredEmpty(c);
    forall i | 0 <= i < n {
      CandidateAt(year, workbook, n, i);
    }
    assert (forall i :: 0 <= i < |c| ==> c[i].None?) <==>
      forall i :: 0 <= i < |workbook| && i < MaxSheets ==> SheetRow(year, i, workbook[i]).None?;
  }

  /** The daily readings of the sheet's first census row. */
  function CensusDays(sheet: Sheet): (days: seq<real>)
    requires FindCensusRow(sheet).Some?
    ensures forall v :: v in days ==> v != 0.0
  {
    DayValues(sheet[FindCensusRow(sheet).value])
  }

  /**
   * A usable sheet's total follows the scaling rule on its first census row:
   * with `d` readings summing to `raw` in a month of `e` expected days, the
   * total is in the ratio `e : d` to `raw` when `0 < d < e`, and is `raw`
   * otherwise.
   */
  lemma SheetRowTotal(year: int, i: nat, sheet: Sheet)
    requires i < MaxSheets && SheetRow(year, i, sheet).Some?
    ensures ScaledFrom(SheetRow(year, i, sheet).value.total,
      Sum(CensusDays(sheet)), |CensusDays(sheet)|, ExpectedDays(year, MonthAt(i)))
  {
    var days := CensusDays(sheet);
    SheetRowExtrapolates(year, i, sheet);
    ScalingRule(Sum(days), |days|, ExpectedDays(year, MonthAt(i)));
  }

  /** The total of a usable sheet is its first census row's pro-rated sum. */
  lemma SheetRowExtrapolates(year: int, i: nat, sheet: Sheet)
    requires i < MaxSheets && SheetRow(year, i, sheet).Some?
    ensures SheetRow(year, i, sheet).value.total ==
      Extrapolate(Sum(CensusDays(sheet)), |CensusDays(sheet)|, ExpectedDays(year, MonthAt(i)))
  {
  }

  /** A census row with no valid reading still yields a row for the month, with total 0. */
  lemma EmptyCensusRowGivesZero(year: int, i: nat, sheet: Sheet)
    requires i < MaxSheets && !IsBlankSheet(sheet) && FindCensusRow(sheet).Some?
    requires DayValues(sheet[FindCensusRow(sheet).value]) == []
    ensures SheetRow(year, i, sheet) == Some(MonthResult(year, MonthAt(i), 0.0))
  {
  }

  /** Non-zero numeric readings pass cleaning unchanged. */
  lemma {:induction false} ReadingsKept(cells: seq<Cell>)
    requires forall k :: 0 <= k < |cells| ==> cells[k].Num? && cells[k].n != 0.0
    ensures Cleaned(cells) == seq(|cells|, k requires 0 <= k < |cells| => cells[k].n)
  {
    if cells != [] {
      ReadingsKept(cells[1..]);
    }
  }

  /** The census sheet of the February example: 28 readings of 10 and one zero. */
  function FebruarySheet(): Sheet {
    [[Text(TotalCensusLabel), Empty] + seq(28, _ => Num(10.0)) + [Num(0.0)]]
  }

  /** The readings of the February sheet: 28 days of 10, the zero dropped. */
  lemma FebruaryReadings()
    ensures DayValues(FebruarySheet()[0]) == seq(28, _ => 10.0)
    ensures Sum(DayValues(FebruarySheet()[0])) == 280.0
  {
    var row := FebruarySheet()[0];
    var readings: seq<Cell> := seq(28, _ => Num(10.0));
    assert row[FirstDayColumn..] == readings + [Num(0.0)];
    CleanedSnoc(readings, Num(0.0));
    ReadingsKept(readings);
    var days := DayValues(row);
    assert days == seq(28, _ => 10.0);
    SumOfConstant(days, 10.0);
  }

  /**
   * The February example for 2024: 28 valid days summing to 280 in a
   * 29-day month are pro-rated to 290.
   */
  lemma FebruaryExample()
    ensures SheetRow(2024, 1, FebruarySheet()) == Some(MonthResult(2024, February, 290.0))
  {
    FebruaryReadings();
    var row := FebruarySheet()[0];
    assert OccursAt(TotalCensusLabel, TotalCensusLabel, 0);
    assert IsCensusLabel(LabelCell(row));
    assert FindCensusRow(FebruarySheet()) == Some(0);
    assert !IsBlankSheet(FebruarySheet());
    assert ExpectedDays(2024, MonthAt(1)) == 29;
    assert Extrapolate(280.0, 28, 29) == 290.0;
  }

  /** A January sheet without a census row is skipped, so the run reports February alone. */
  lemma FebruaryRun()
    ensures Aggregate(Some(2024), [[[Text("Notes")]], FebruarySheet()]) ==
      Summary([MonthResult(2024, February, 290.0)])
  {
    FebruaryExample();
    var notes: Sheet := [[Text("Notes")]];
    assert !IsCensusLabel(LabelCell(notes[0])) by {
      assert forall k: nat :: !OccursAt("Notes", TotalCensusLabel, k);
      assert forall k: nat :: !OccursAt("Notes", BedCountLabel, k);
    }
    var wb := [notes, FebruarySheet()];
    assert SheetRow(2024, 0, notes) == None;
    assert Consulted(wb) == 2;
    CollectStep(2024, wb, 0);
    CollectStep(2024, wb, 1);
  }
}
