/**
 * Turning the census row into the daily readings that count.
 *
 * Daily readings start at column 2. Each cell is coerced to a number; a cell
 * that does not coerce, or whose value is exactly zero, is treated as a
 * missing day and dropped. What remains are the valid days: their number is
 * the count of days with data and their sum is the raw monthly sum.
 */
module Cleaning {
  import opened Wrappers
  import opened Cells

  /** The first column that holds a daily reading. */
  const FirstDayColumn: nat := 2

  /** A cell counts as a valid day when it coerces to a non-zero number. */
  predicate IsValidDay(c: Cell) {
    Coerce(c).Some? && Coerce(c).value != 0.0
  }

  /** The values of the valid days among `cells`, in column order. */
  function Cleaned(cells: seq<Cell>): (vs: seq<real>)
    ensures |vs| <= |cells|
    ensures forall v :: v in vs ==> v != 0.0
  {
    if cells == [] then []
    else
      var rest := Cleaned(cells[1..]);
      if IsValidDay(cells[0]) then [Coerce(cells[0]).value] + rest else rest
  }

  /** The daily readings of a census row: the cleaned cells from column 2 onward. */
  function DayValues(row: Row): (vs: seq<real>)
    ensures |vs| <= |row|
  {
    if |row| <= FirstDayColumn then [] else Cleaned(row[FirstDayColumn..])
  }

  function Sum(vs: seq<real>): real {
    if vs == [] then 0.0 else vs[0] + Sum(vs[1..])
  }

  lemma {:induction false} CleanedAppend(a: seq<Cell>, b: seq<Cell>)
    ensures Cleaned(a + b) == Cleaned(a) + Cleaned(b)
  {
    if a == [] {
      assert a + b == b;
    } else {
      assert (a + b)[1..] == a[1..] + b;
      CleanedAppend(a[1..], b);
    }
  }

  lemma {:induction false} SumAppend(a: seq<real>, b: seq<real>)
    ensures Sum(a + b) == Sum(a) + Sum(b)
  {
    if a == [] {
      assert a + b == b;
    } else {
      assert (a + b)[1..] == a[1..] + b;
      SumAppend(a[1..], b);
    }
  }

  /** A value is among the cleaned values exactly when some cell coerces to it and it is not zero. */
  lemma {:induction false} CleanedMembers(cells: seq<Cell>, v: real)
    ensures v in Cleaned(cells) <==> v != 0.0 && exists k :: 0 <= k < |cells| && Coerce(cells[k]) == Some(v)
  {
    if cells != [] {
      CleanedMembers(cells[1..], v);
      if exists k :: 0 <= k < |cells[1..]| && Coerce(cells[1..][k]) == Some(v) {
        var k :| 0 <= k < |cells[1..]| && Coerce(cells[1..][k]) == Some(v);
        assert Coerce(cells[k + 1]) == Some(v);
      }
      if k :| 0 <= k < |cells| && Coerce(cells[k]) == Some(v) {
        if k > 0 {
          assert Coerce(cells[1..][k - 1]) == Some(v);
        }
      }
    }
  }

  /** The columns, counted from the first cell, whose cell is a valid day. */
  function ValidIndices(cells: seq<Cell>): set<nat> {
    set k: nat | k < |cells| && IsValidDay(cells[k])
  }

  lemma ValidIndicesSnoc(init: seq<Cell>, last: Cell)
    ensures IsValidDay(last) ==> ValidIndices(init + [last]) == ValidIndices(init) + {|init|}
    ensures !IsValidDay(last) ==> ValidIndices(init + [last]) == ValidIndices(init)
  {
    var cells := init + [last];
    forall k: nat | k < |init|
      ensures cells[k] == init[k]
    {
    }
  }

  lemma CleanedSnoc(init: seq<Cell>, last: Cell)
    ensures IsValidDay(last) ==> Cleaned(init + [last]) == Cleaned(init) + [Coerce(last).value]
    ensures !IsValidDay(last) ==> Cleaned(init + [last]) == Cleaned(init)
  {
    CleanedAppend(init, [last]);
    assert [last][1..] == [];
  }

  /** The number of valid days equals the number of cells that coerce to a non-zero number. */
  lemma {:induction false} CleanedCount(cells: seq<Cell>)
    ensures |Cleaned(cells)| == |ValidIndices(cells)|
  {
    if cells != [] {
      var init, last := cells[..|cells| - 1], cells[|cells| - 1];
      assert cells == init + [last];
      CleanedCount(init);
      CleanedSnoc(init, last);
      ValidIndicesSnoc(init, last);
      if IsValidDay(last) {
        assert |init| !in ValidIndices(init);
      }
    }
  }

  /** Two cells that are both invalid days are interchangeable in any position. */
  lemma {:induction false} InvalidCellsInterchangeable(cells: seq<Cell>, j: nat, c: Cell, d: Cell)
    requires j < |cells| && !IsValidDay(c) && !IsValidDay(d)
    ensures Cleaned(cells[j := c]) == Cleaned(cells[j := d])
  {
    if j == 0 {
      assert cells[j := c][1..] == cells[1..] == cells[j := d][1..];
    } else {
      assert cells[j := c][1..] == cells[1..][j - 1 := c];
      assert cells[j := d][1..] == cells[1..][j - 1 := d];
      InvalidCellsInterchangeable(cells[1..], j - 1, c, d);
    }
  }

  /** A zero reading is treated exactly like a cell with nothing in it. */
  lemma ZeroIsAbsent(row: Row, j: nat)
    requires j < |row|
    ensures DayValues(row[j := Num(0.0)]) == DayValues(row[j := Empty])
  {
    if FirstDayColumn < |row| {
      var days := row[FirstDayColumn..];
      if j < FirstDayColumn {
        assert row[j := Num(0.0)][FirstDayColumn..] == days == row[j := Empty][FirstDayColumn..];
      } else {
        assert row[j := Num(0.0)][FirstDayColumn..] == days[j - FirstDayColumn := Num(0.0)];
        assert row[j := Empty][FirstDayColumn..] == days[j - FirstDayColumn := Empty];
        InvalidCellsInterchangeable(days, j - FirstDayColumn, Num(0.0), Empty);
      }
    }
  }

  /** Columns 0 and 1 never contribute a reading. */
  lemma LeadingColumnsIgnored(row: Row, name: Cell, reserved: Cell)
    requires |row| >= FirstDayColumn
    ensures DayValues([name, reserved] + row[FirstDayColumn..]) == DayValues(row)
  {
    assert ([name, reserved] + row[FirstDayColumn..])[FirstDayColumn..] == row[FirstDayColumn..];
  }

  /** The sum of readings that all equal `v` is their number times `v`. */
  lemma {:induction false} SumOfConstant(vs: seq<real>, v: real)
    requires forall k :: 0 <= k < |vs| ==> vs[k] == v
    ensures Sum(vs) == (|vs| as real) * v
  {
    if vs != [] {
      SumOfConstant(vs[1..], v);
    }
  }
}
