/**
 * Locating the census row of a sheet.
 *
 * The row is the first one whose column-0 cell, read as text, contains one
 * of two fixed labels, compared without regard to letter case. Only text
 * cells can match: the textual form of a number or of an empty cell cannot
 * contain either label.
 */
module Matching {
  import opened Wrappers
  import opened Cells

  const TotalCensusLabel: string := "BSLMC Total Census"
  const BedCountLabel: string := "Census (from EPIC)Total Bed Count"

  /** ASCII lower-casing, the case folding under which the labels are compared. */
  function Lower(ch: char): (r: char)
    ensures 'A' <= ch <= 'Z' ==> r as int == ch as int + 32
    ensures !('A' <= ch <= 'Z') ==> r == ch
  {
    if 'A' <= ch <= 'Z' then (ch as int + 32) as char else ch
  }

  /** `pat` occurs in `text` at offset `k`, ignoring case. */
  predicate OccursAt(text: string, pat: string, k: nat) {
    k + |pat| <= |text| &&
    forall j :: 0 <= j < |pat| ==> Lower(text[k + j]) == Lower(pat[j])
  }

  predicate StartsWithFold(text: string, pat: string) {
    |pat| <= |text| && forall j :: 0 <= j < |pat| ==> Lower(text[j]) == Lower(pat[j])
  }

  /** Case-insensitive substring search, scanning the start positions left to right. */
  function ContainsFold(text: string, pat: string): (b: bool)
    ensures b <==> exists k: nat :: OccursAt(text, pat, k)
    decreases |text|
  {
    if StartsWithFold(text, pat) then
      assert OccursAt(text, pat, 0);
      true
    else if |text| <= |pat| then
      assert forall k: nat :: !OccursAt(text, pat, k) by {
        forall k: nat ensures !OccursAt(text, pat, k) {
          if k == 0 {
            assert !StartsWithFold(text, pat);
          }
        }
      }
      false
    else
      var rest := ContainsFold(text[1..], pat);
      assert forall k: nat :: OccursAt(text[1..], pat, k) <==> OccursAt(text, pat, k + 1) by {
        forall k: nat ensures OccursAt(text[1..], pat, k) <==> OccursAt(text, pat, k + 1) {
        }
      }
      assert (exists k: nat :: OccursAt(text, pat, k)) ==> exists k: nat :: OccursAt(text[1..], pat, k) by {
        if k: nat :| OccursAt(text, pat, k) {
          assert k != 0;
          assert OccursAt(text[1..], pat, k - 1);
        }
      }
      rest
  }

  /** The census-row test applied to a column-0 cell. */
  predicate IsCensusLabel(c: Cell) {
    c.Text? && (ContainsFold(c.s, TotalCensusLabel) || ContainsFold(c.s, BedCountLabel))
  }

  /** The label cell of a row: its column-0 cell. */
  function LabelCell(row: Row): Cell {
    CellAt(row, 0)
  }

  /** The first row at or after `from` whose label cell matches. */
  function FindFrom(sheet: Sheet, from: nat): (r: Option<nat>)
    requires from <= |sheet|
    ensures r.Some? ==> from <= r.value < |sheet| && IsCensusLabel(LabelCell(sheet[r.value]))
    ensures r.Some? ==> forall j :: from <= j < r.value ==> !IsCensusLabel(LabelCell(sheet[j]))
    ensures r.None? ==> forall j :: from <= j < |sheet| ==> !IsCensusLabel(LabelCell(sheet[j]))
    decreases |sheet| - from
  {
    if from == |sheet| then None
    else if IsCensusLabel(LabelCell(sheet[from])) then Some(from)
    else FindFrom(sheet, from + 1)
  }

  /** The index of the first census row of the sheet, if any row matches. */
  function FindCensusRow(sheet: Sheet): (r: Option<nat>)
    ensures r.Some? ==> r.value < |sheet| && IsCensusLabel(LabelCell(sheet[r.value]))
    ensures r.Some? ==> forall j :: 0 <= j < r.value ==> !IsCensusLabel(LabelCell(sheet[j]))
    ensures r.None? <==> forall j :: 0 <= j < |sheet| ==> !IsCensusLabel(LabelCell(sheet[j]))
  {
    FindFrom(sheet, 0)
  }

  /** Rows after the first match, whatever they hold, do not change which row is found. */
  lemma {:induction false} LaterRowsDoNotMove(sheet: Sheet, k: nat, tail: Sheet)
    requires FindCensusRow(sheet) == Some(k)
    ensures FindCensusRow(sheet[..k + 1] + tail) == Some(k)
  {
    var s' := sheet[..k + 1] + tail;
    assert forall j :: 0 <= j <= k ==> s'[j] == sheet[j];
    assert forall j :: 0 <= j < k ==> !IsCensusLabel(LabelCell(s'[j]));
    FirstMatchIsFound(s', k);
  }

  /** A row whose label matches and that follows no matching row is the one found. */
  lemma FirstMatchIsFound(sheet: Sheet, k: nat)
    requires k < |sheet| && IsCensusLabel(LabelCell(sheet[k]))
    requires forall j :: 0 <= j < k ==> !IsCensusLabel(LabelCell(sheet[j]))
    ensures FindCensusRow(sheet) == Some(k)
  {
  }

  /** Extra trailing text and mixed letter case do not prevent a match. */
  lemma LooseLabelMatches()
    ensures IsCensusLabel(Text("bslmc total census data"))
  {
    var text := "bslmc total census data";
    assert forall j :: 0 <= j < |TotalCensusLabel| ==> Lower(text[j]) == Lower(TotalCensusLabel[j]);
    assert OccursAt(text, TotalCensusLabel, 0);
  }

  /** The words of a label in another order, and non-text cells, do not match. */
  lemma ReorderedLabelDoesNotMatch()
    ensures !IsCensusLabel(Text("BSLMC Census Total"))
    ensures !IsCensusLabel(Num(5.0)) && !IsCensusLabel(Empty)
  {
    var miss := "BSLMC Census Total";
    forall k: nat ensures !OccursAt(miss, TotalCensusLabel, k) {
      if k == 0 {
        assert Lower(miss[6]) != Lower(TotalCensusLabel[6]);
      }
    }
    assert !ContainsFold(miss, BedCountLabel) by {
      assert forall k: nat :: !OccursAt(miss, BedCountLabel, k);
    }
  }
}
