/**
 * The row-splitting loop of `api/church-data.js`: the sheet's `values` (column A income
 * categories, column B expense categories) become two lists of trimmed, non-blank
 * names in row order. The Google Sheets request around it is not part of this model.
 */
module ChurchData {
  import opened Common
  import opened JsStrings

  /** `data.values`: not an array, or rows of cells (a short row lacks its trailing cells). */
  datatype SheetValues = NotArray | Rows(rows: seq<seq<string>>)

  /** `row[col]`, `undefined` past the end of the row. */
  function Cell(row: seq<string>, col: nat): Option<string> {
    if col < |row| then Some(row[col]) else None
  }

  /** `cell && String(cell).trim()`: the cell holds something besides whitespace. */
  predicate Filled(cell: Option<string>)
    ensures Filled(cell) <==> cell.Some? && exists i :: 0 <= i < |cell.value| && !IsSpace(cell.value[i])
  {
    if cell.Some? then
      TrimEmptyIffBlank(cell.value);
      Trim(cell.value) != ""
    else
      false
  }

  /** The trimmed non-blank cells of column `col`, in row order, duplicates kept. */
  function Column(rows: seq<seq<string>>, col: nat): (r: seq<string>)
    ensures |r| <= |rows|
    ensures forall i :: 0 <= i < |r| ==> r[i] != "" && Trimmed(r[i])
  {
    if rows == [] then []
    else
      var c := Cell(rows[0], col);
      (if Filled(c) then [Trim(c.value)] else []) + Column(rows[1..], col)
  }

  /** Column of a concatenation of row blocks: row order is kept. */
  lemma {:induction false} ColumnConcat(a: seq<seq<string>>, b: seq<seq<string>>, col: nat)
    ensures Column(a + b, col) == Column(a, col) + Column(b, col)
  {
    if a == [] {
      assert a + b == b;
    } else {
      assert (a + b)[0] == a[0] && (a + b)[1..] == a[1..] + b;
      ColumnConcat(a[1..], b, col);
    }
  }

  /** One more row adds its trimmed cell to the column when that cell is filled. */
  lemma ColumnSnoc(rows: seq<seq<string>>, row: seq<string>, col: nat)
    ensures Column(rows + [row], col) ==
      Column(rows, col) + (if Filled(Cell(row, col)) then [Trim(Cell(row, col).value)] else [])
  {
    ColumnConcat(rows, [row], col);
    assert [row][1..] == [];
  }

  /** The trimmed text of column `col` of every row (blank where the cell is missing). */
  function TrimmedCells(rows: seq<seq<string>>, col: nat): (r: seq<string>)
    ensures |r| == |rows|
  {
    seq(|rows|, i requires 0 <= i < |rows| => var c := Cell(rows[i], col); if c.Some? then Trim(c.value) else "")
  }

  /** The column is the order-preserving subsequence of the trimmed cells that are not blank. */
  lemma {:induction false} ColumnIsSubsequence(rows: seq<seq<string>>, col: nat)
    ensures IsSubsequence(Column(rows, col), TrimmedCells(rows, col))
  {
    if rows != [] {
      var cells := TrimmedCells(rows, col);
      ColumnIsSubsequence(rows[1..], col);
      assert cells[1..] == TrimmedCells(rows[1..], col);
      SubsequenceStep(Column(rows[1..], col), cells, Filled(Cell(rows[0], col)));
    }
  }

  /** No filled cell is lost: every one of them, trimmed, is in the column. */
  lemma {:induction false} ColumnKeepsFilled(rows: seq<seq<string>>, col: nat, i: int)
    requires 0 <= i < |rows| && Filled(Cell(rows[i], col))
    ensures Trim(Cell(rows[i], col).value) in Column(rows, col)
  {
    if i > 0 {
      ColumnKeepsFilled(rows[1..], col, i - 1);
    }
  }

  /**
   * The `values.forEach` loop: column 0 feeds `incomes`, column 1 feeds `expenses`,
   * and a non-array `values` counts as no rows.
   */
  method SplitRows(values: SheetValues) returns (incomes: seq<string>, expenses: seq<string>)
    ensures values.NotArray? ==> incomes == [] && expenses == []
    ensures values.Rows? ==> incomes == Column(values.rows, 0) && expenses == Column(values.rows, 1)
  {
    var rows := if values.Rows? then values.rows else [];
    incomes, expenses := [], [];
    var i := 0;
    while i < |rows|
      invariant 0 <= i <= |rows|
      invariant incomes == Column(rows[..i], 0)
      invariant expenses == Column(rows[..i], 1)
    {
      var row := rows[i];
      assert rows[..i + 1] == rows[..i] + [row];
      ColumnSnoc(rows[..i], row, 0);
      ColumnSnoc(rows[..i], row, 1);
      var ingreso, egreso := Cell(row, 0), Cell(row, 1);
      if Filled(ingreso) {
        incomes := incomes + [Trim(ingreso.value)];
      }
      if Filled(egreso) {
        expenses := expenses + [Trim(egreso.value)];
      }
      i := i + 1;
    }
    assert rows[..i] == rows;
  }
}
