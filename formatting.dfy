/** The column aligner `formatData`: per-column widths, right padding, `"  |  "` between cells, `"\n"` between rows. */
module Formatting {
  import opened Wrappers
  import opened Joining

  /** A cell as a parser hands it over, already as text; None is null or undefined. */
  type Cell = Option<string>
  type Row = seq<Cell>

  /** The fixed column separator: two spaces, a pipe, two spaces. */
  const Separator: string := "  |  "

  /** `String(cell ?? '')`. */
  function CellText(cell: Cell): string
  {
    match cell
    case None => ""
    case Some(text) => text
  }

  function Max(a: nat, b: nat): nat { if a < b then b else a }

  /** The number of cells in the longest row: the length the width array grows to. */
  function MaxCells(rows: seq<Row>): (n: nat)
    ensures forall r :: 0 <= r < |rows| ==> |rows[r]| <= n
  {
    if |rows| == 0 then 0 else Max(MaxCells(rows[..|rows| - 1]), |rows[|rows| - 1]|)
  }

  /** Width of column `i`: the largest text length found at index `i` in any row that has one. */
  function ColumnWidth(rows: seq<Row>, i: nat): nat
  {
    if |rows| == 0 then 0
    else
      var w := ColumnWidth(rows[..|rows| - 1], i);
      var last := rows[|rows| - 1];
      if i < |last| && |CellText(last[i])| > w then |CellText(last[i])| else w
  }

  /** Column `i`'s width is at least the text length of every cell at index `i`, and equals the text length
      of one of them, or is 0 when no row reaches index `i`. */
  lemma {:induction false} ColumnWidthIsMax(rows: seq<Row>, i: nat)
    ensures forall r :: 0 <= r < |rows| && i < |rows[r]| ==> |CellText(rows[r][i])| <= ColumnWidth(rows, i)
    ensures (exists r :: 0 <= r < |rows| && i < |rows[r]| && ColumnWidth(rows, i) == |CellText(rows[r][i])|)
         || (ColumnWidth(rows, i) == 0 && forall r :: 0 <= r < |rows| ==> |rows[r]| <= i)
  {
    if |rows| > 0 {
      var init := rows[..|rows| - 1];
      ColumnWidthIsMax(init, i);
      assert forall r :: 0 <= r < |init| ==> init[r] == rows[r];
    }
  }

  /** Some row reaches the full length of the width array. */
  lemma {:induction false} MaxCellsAttained(rows: seq<Row>)
    ensures MaxCells(rows) == 0 || exists r :: 0 <= r < |rows| && |rows[r]| == MaxCells(rows)
  {
    if |rows| > 0 {
      var init := rows[..|rows| - 1];
      MaxCellsAttained(init);
      assert forall r :: 0 <= r < |init| ==> init[r] == rows[r];
    }
  }

  /** Every cell fits its column, and every column's width is the text length of some cell in it. */
  lemma WidthsAreColumnMaxima(rows: seq<Row>)
    ensures forall r, i :: 0 <= r < |rows| && 0 <= i < |rows[r]| ==>
      i < |Widths(rows)| && |CellText(rows[r][i])| <= Widths(rows)[i]
    ensures forall i :: 0 <= i < |Widths(rows)| ==>
      exists r :: 0 <= r < |rows| && i < |rows[r]| && Widths(rows)[i] == |CellText(rows[r][i])|
  {
    var w := Widths(rows);
    forall r, i | 0 <= r < |rows| && 0 <= i < |rows[r]|
      ensures i < |w| && |CellText(rows[r][i])| <= w[i]
    {
      ColumnWidthIsMax(rows, i);
      WidthsAt(rows, i);
    }
    forall i | 0 <= i < |Widths(rows)|
      ensures exists r :: 0 <= r < |rows| && i < |rows[r]| && Widths(rows)[i] == |CellText(rows[r][i])|
    {
      ColumnWidthIsMax(rows, i);
      WidthsAt(rows, i);
      MaxCellsAttained(rows);
      var m :| 0 <= m < |rows| && |rows[m]| == MaxCells(rows);
      assert i < |rows[m]|;
    }
  }

  /** The width array of a sheet: one entry per column index that occurs in some row. */
  function Widths(rows: seq<Row>): (widths: seq<nat>)
    ensures |widths| == MaxCells(rows)
  {
    FirstWidths(rows, MaxCells(rows))
  }

  /** The widths of the first `n` columns. */
  function FirstWidths(rows: seq<Row>, n: nat): (widths: seq<nat>)
    ensures |widths| == n
  {
    if n == 0 then [] else FirstWidths(rows, n - 1) + [ColumnWidth(rows, n - 1)]
  }

  lemma {:induction false} FirstWidthsAt(rows: seq<Row>, n: nat, i: nat)
    requires i < n
    ensures FirstWidths(rows, n)[i] == ColumnWidth(rows, i)
  {
    if i < n - 1 {
      FirstWidthsAt(rows, n - 1, i);
    }
  }

  /** Entry `i` of the width array is the width of column `i`. */
  lemma WidthsAt(rows: seq<Row>, i: nat)
    requires i < |Widths(rows)|
    ensures Widths(rows)[i] == ColumnWidth(rows, i)
  {
    FirstWidthsAt(rows, MaxCells(rows), i);
  }

  /** `String.prototype.padEnd(width, ' ')`. */
  function PadEnd(s: string, width: nat): (p: string)
    ensures |p| == Max(|s|, width)
    ensures p[..|s|] == s
    ensures forall k :: |s| <= k < |p| ==> p[k] == ' '
  {
    if |s| < width then s + Spaces(width - |s|) else s
  }

  function Spaces(n: nat): (sp: string)
    ensures |sp| == n && forall k :: 0 <= k < n ==> sp[k] == ' '
  {
    if n == 0 then "" else Spaces(n - 1) + " "
  }

  /** Cell `j` of a row, padded to its column's width. */
  function RenderCell(cell: Cell, width: nat): string
  {
    PadEnd(CellText(cell), width)
  }

  /** The padded cells of one row, in order; a row yields only as many as it has. */
  function RenderedCells(row: Row, widths: seq<nat>): (cells: seq<string>)
    requires |row| <= |widths|
    ensures |cells| == |row|
  {
    if |row| == 0 then []
    else RenderedCells(row[..|row| - 1], widths) + [RenderCell(row[|row| - 1], widths[|row| - 1])]
  }

  lemma {:induction false} RenderedAt(row: Row, widths: seq<nat>, j: nat)
    requires |row| <= |widths| && j < |row|
    ensures RenderedCells(row, widths)[j] == RenderCell(row[j], widths[j])
  {
    if j < |row| - 1 {
      RenderedAt(row[..|row| - 1], widths, j);
    }
  }

  /** One output line: the padded cells joined by the separator. */
  function RenderRow(row: Row, widths: seq<nat>): string
    requires |row| <= |widths|
  {
    Join(RenderedCells(row, widths), Separator)
  }

  /** The lines of a sheet, rendered with the sheet's own widths. */
  function Lines(rows: seq<Row>): (lines: seq<string>)
    ensures |lines| == |rows|
  {
    RenderRows(rows, Widths(rows))
  }

  /** Every row rendered with the same widths. */
  function RenderRows(rows: seq<Row>, widths: seq<nat>): (lines: seq<string>)
    requires forall r :: 0 <= r < |rows| ==> |rows[r]| <= |widths|
    ensures |lines| == |rows|
  {
    if |rows| == 0 then []
    else RenderRows(rows[..|rows| - 1], widths) + [RenderRow(rows[|rows| - 1], widths)]
  }

  lemma {:induction false} RenderRowsAt(rows: seq<Row>, widths: seq<nat>, r: nat)
    requires forall q :: 0 <= q < |rows| ==> |rows[q]| <= |widths|
    requires r < |rows|
    ensures RenderRows(rows, widths)[r] == RenderRow(rows[r], widths)
  {
    if r < |rows| - 1 {
      RenderRowsAt(rows[..|rows| - 1], widths, r);
    }
  }

  /** What `formatData(rows)` returns. */
  function Format(rows: seq<Row>): string
  {
    if |rows| == 0 then "" else Join(Lines(rows), "\n")
  }

  /** The first phase of `formatData`: one pass over every cell of every row,
      growing the width array and raising an entry whenever a longer text turns up. */
  method ColumnWidths(data: seq<Row>) returns (widths: seq<nat>)
    ensures widths == Widths(data)
    ensures forall r, i :: 0 <= r < |data| && 0 <= i < |data[r]| ==>
      i < |widths| && |CellText(data[r][i])| <= widths[i]
    ensures forall i :: 0 <= i < |widths| ==>
      exists r :: 0 <= r < |data| && i < |data[r]| && widths[i] == |CellText(data[r][i])|
  {
    widths := [];
    var r := 0;
    while r < |data|
      invariant 0 <= r <= |data|
      invariant |widths| == MaxCells(data[..r])
      invariant forall i :: 0 <= i < |widths| ==> widths[i] == ColumnWidth(data[..r], i)
    {
      var row := data[r];
      ghost var seen, next := data[..r], data[..r + 1];
      assert next == seen + [row];
      var j := 0;
      while j < |row|
        invariant 0 <= j <= |row|
        invariant |widths| == Max(MaxCells(seen), j)
        invariant forall i :: 0 <= i < |widths| ==>
          widths[i] == if i < j then ColumnWidth(next, i) else ColumnWidth(seen, i)
      {
        var len := |CellText(row[j])|;
        ColumnWidthStep(seen, row, j);
        if j == |widths| {
          widths := widths + [len];
        } else if widths[j] == 0 || len > widths[j] {
          widths := widths[j := len];
        }
        j := j + 1;
      }
      assert MaxCells(next) == Max(MaxCells(seen), |row|);
      forall i | |row| <= i < |widths|
        ensures ColumnWidth(next, i) == ColumnWidth(seen, i)
      {
        ColumnWidthStep(seen, row, i);
      }
      r := r + 1;
    }
    assert data[..|data|] == data;
    forall i | 0 <= i < |widths|
      ensures widths[i] == Widths(data)[i]
    {
      WidthsAt(data, i);
    }
    WidthsAreColumnMaxima(data);
  }

  /** Adding one row to a sheet raises column `i` to that row's cell text if it is longer. */
  lemma ColumnWidthStep(rows: seq<Row>, row: Row, i: nat)
    ensures ColumnWidth(rows + [row], i) ==
      if i < |row| && |CellText(row[i])| > ColumnWidth(rows, i) then |CellText(row[i])| else ColumnWidth(rows, i)
    ensures MaxCells(rows) <= i ==> ColumnWidth(rows, i) == 0
  {
    assert (rows + [row])[..|rows|] == rows;
    ColumnWidthIsMax(rows, i);
  }

  /** `formatData(data)`: empty text for an absent or empty row list, otherwise the aligned block. */
  method FormatData(data: Option<seq<Row>>) returns (text: string)
    ensures data.None? ==> text == ""
    ensures data.Some? ==> text == Format(data.value)
  {
    if data.None? || |data.value| == 0 {
      return "";
    }
    var rows := data.value;
    var widths := ColumnWidths(rows);
    text := Join(RenderRows(rows, widths), "\n");
  }

  /** Index in a rendered line at which column `j` begins: the widths before it plus one separator each. */
  function ColumnStart(widths: seq<nat>, j: nat): nat
    requires j <= |widths|
  {
    if j == 0 then 0 else ColumnStart(widths, j - 1) + widths[j - 1] + |Separator|
  }

  /** No cell text of `row` is longer than its column's width. */
  ghost predicate Fits(row: Row, widths: seq<nat>)
  {
    |row| <= |widths| && forall j :: 0 <= j < |row| ==> |CellText(row[j])| <= widths[j]
  }

  /** `s` is `text` followed by spaces up to exactly `width` characters. */
  ghost predicate PaddedTo(s: string, text: string, width: nat)
  {
    |text| <= width && |s| == width && s[..|text|] == text
    && forall k :: |text| <= k < width ==> s[k] == ' '
  }

  lemma {:induction false} RenderedOffsets(row: Row, widths: seq<nat>, j: nat)
    requires Fits(row, widths) && j <= |row|
    ensures Offset(RenderedCells(row, widths), Separator, j) == ColumnStart(widths, j)
  {
    if j > 0 {
      RenderedOffsets(row, widths, j - 1);
      RenderedAt(row, widths, j - 1);
    }
  }

  /** A cell text no longer than its column's width is padded to exactly that width. */
  lemma PaddedCell(cell: Cell, width: nat)
    requires |CellText(cell)| <= width
    ensures PaddedTo(RenderCell(cell, width), CellText(cell), width)
  {
  }

  /** Cell `j` of a rendered line sits at `ColumnStart(widths, j)`. */
  lemma RowCell(row: Row, widths: seq<nat>, j: nat)
    requires Fits(row, widths) && j < |row|
    ensures ColumnStart(widths, j) + widths[j] <= |RenderRow(row, widths)|
    ensures RenderRow(row, widths)[ColumnStart(widths, j)..ColumnStart(widths, j) + widths[j]]
         == RenderCell(row[j], widths[j])
  {
    var cells, text := RenderedCells(row, widths), RenderRow(row, widths);
    assert text == Join(cells, Separator);
    RenderedCell(row, widths, j);
    JoinPartAt(cells, Separator, j, ColumnStart(widths, j), widths[j]);
    assert text[ColumnStart(widths, j)..ColumnStart(widths, j) + widths[j]] == cells[j];
  }

  /** Rendered cell `j` is exactly as wide as its column and begins at `ColumnStart(widths, j)` among the
      joined cells. */
  lemma RenderedCell(row: Row, widths: seq<nat>, j: nat)
    requires Fits(row, widths) && j < |row|
    ensures RenderedCells(row, widths)[j] == RenderCell(row[j], widths[j])
    ensures |RenderedCells(row, widths)[j]| == widths[j]
    ensures Offset(RenderedCells(row, widths), Separator, j) == ColumnStart(widths, j)
  {
    RenderedOffsets(row, widths, j);
    RenderedAt(row, widths, j);
  }

  /** Cell `j` of a rendered line, unless it is the last, is followed by exactly the separator. */
  lemma RowSeparator(row: Row, widths: seq<nat>, j: nat)
    requires Fits(row, widths) && j + 1 < |row|
    ensures ColumnStart(widths, j + 1) <= |RenderRow(row, widths)|
    ensures RenderRow(row, widths)[ColumnStart(widths, j) + widths[j]..ColumnStart(widths, j + 1)] == Separator
  {
    var cells := RenderedCells(row, widths);
    RenderedAt(row, widths, j);
    assert |cells[j]| == widths[j];
    JoinSeparator(cells, Separator, j);
    RenderedOffsets(row, widths, j);
    RenderedOffsets(row, widths, j + 1);
  }

  /** In a line rendered with widths its cells fit, cell `j` is its text padded to exactly the column's
      width, starting at `ColumnStart(widths, j)`, and is followed by the separator unless it is the last. */
  lemma RowLayout(row: Row, widths: seq<nat>, j: nat)
    requires Fits(row, widths) && j < |row|
    ensures ColumnStart(widths, j) + widths[j] <= |RenderRow(row, widths)|
    ensures PaddedTo(RenderRow(row, widths)[ColumnStart(widths, j)..ColumnStart(widths, j) + widths[j]],
                     CellText(row[j]), widths[j])
    ensures j + 1 < |row| ==>
      (ColumnStart(widths, j + 1) <= |RenderRow(row, widths)|
       && RenderRow(row, widths)[ColumnStart(widths, j) + widths[j]..ColumnStart(widths, j + 1)] == Separator)
  {
    RowCell(row, widths, j);
    PaddedCell(row[j], widths[j]);
    if j + 1 < |row| {
      RowSeparator(row, widths, j);
    }
  }

  /** A line is as long as its own cells and separators: ragged rows are not extended. */
  lemma RowLength(row: Row, widths: seq<nat>)
    requires Fits(row, widths)
    ensures |RenderRow(row, widths)| == if |row| == 0 then 0 else ColumnStart(widths, |row| - 1) + widths[|row| - 1]
  {
    if |row| > 0 {
      JoinLength(RenderedCells(row, widths), Separator);
      RenderedOffsets(row, widths, |row| - 1);
    }
  }

  /** Padding adds only spaces, so a character other than a space occurs in a line only inside a cell text
      or a separator. */
  lemma RowCount(row: Row, widths: seq<nat>, c: char)
    requires |row| <= |widths| && c != ' '
    requires forall j :: 0 <= j < |row| ==> c !in CellText(row[j])
    ensures Count(RenderRow(row, widths), c) == if |row| == 0 then 0 else (|row| - 1) * Count(Separator, c)
  {
    var cells := RenderedCells(row, widths);
    forall k | 0 <= k < |cells|
      ensures Count(cells[k], c) == 0
    {
      RenderedAt(row, widths, k);
      PadEndCount(CellText(row[k]), widths[k], c);
      CountZeroIff(CellText(row[k]), c);
    }
    CountAllZero(cells, c);
    if |row| > 0 {
      JoinCount(cells, Separator, c);
    }
  }

  lemma {:induction false} PadEndCount(s: string, width: nat, c: char)
    requires c != ' '
    ensures Count(PadEnd(s, width), c) == Count(s, c)
  {
    if |s| < width {
      var pad := Spaces(width - |s|);
      CountAppend(s, pad, c);
      CountZeroIff(pad, c);
    }
  }

  /** Every row of a sheet fits the sheet's widths, and is rendered with them. */
  lemma RowsFit(rows: seq<Row>, r: nat)
    requires r < |rows|
    ensures Fits(rows[r], Widths(rows))
    ensures Lines(rows)[r] == RenderRow(rows[r], Widths(rows))
  {
    WidthsAreColumnMaxima(rows);
    RenderRowsAt(rows, Widths(rows), r);
  }

  /** Cell `j` of line `r` is its text padded to exactly its column's width (an absent cell is all spaces),
      at an offset that depends only on the sheet's widths, followed by the separator unless it is the
      row's last cell. */
  lemma CellLayout(rows: seq<Row>, r: nat, j: nat)
    requires r < |rows| && j < |rows[r]|
    ensures var w, line := Widths(rows), Lines(rows)[r];
      j < |w| && ColumnStart(w, j) + w[j] <= |line|
      && PaddedTo(line[ColumnStart(w, j)..ColumnStart(w, j) + w[j]], CellText(rows[r][j]), w[j])
      && (j + 1 < |rows[r]| ==>
            (ColumnStart(w, j + 1) <= |line| && line[ColumnStart(w, j) + w[j]..ColumnStart(w, j + 1)] == Separator))
  {
    RowsFit(rows, r);
    RowLayout(rows[r], Widths(rows), j);
  }

  /** Rows with the same number of cells render to lines of the same length. */
  lemma EqualRowsEqualLines(rows: seq<Row>, r1: nat, r2: nat)
    requires r1 < |rows| && r2 < |rows| && |rows[r1]| == |rows[r2]|
    ensures |Lines(rows)[r1]| == |Lines(rows)[r2]|
  {
    var w := Widths(rows);
    RowsFit(rows, r1);
    RowsFit(rows, r2);
    RowLength(rows[r1], w);
    RowLength(rows[r2], w);
  }

  /** The separator after column `j` sits at the same offset in every line that has one. */
  lemma SeparatorsAligned(rows: seq<Row>, r1: nat, r2: nat, j: nat)
    requires r1 < |rows| && r2 < |rows| && j + 1 < |rows[r1]| && j + 1 < |rows[r2]|
    ensures var w := Widths(rows);
      j + 1 < |w| && ColumnStart(w, j + 1) <= |Lines(rows)[r1]| && ColumnStart(w, j + 1) <= |Lines(rows)[r2]|
      && Lines(rows)[r1][ColumnStart(w, j) + w[j]..ColumnStart(w, j + 1)] == Separator
      && Lines(rows)[r2][ColumnStart(w, j) + w[j]..ColumnStart(w, j + 1)] == Separator
  {
    CellLayout(rows, r1, j);
    CellLayout(rows, r2, j);
  }

  /** A row of `k` cells, none containing a pipe, renders with exactly `k - 1` pipes: a one-cell row has none. */
  lemma SeparatorCount(rows: seq<Row>, r: nat)
    requires r < |rows|
    requires forall j :: 0 <= j < |rows[r]| ==> '|' !in CellText(rows[r][j])
    ensures Count(Lines(rows)[r], '|') == if |rows[r]| == 0 then 0 else |rows[r]| - 1
  {
    RowsFit(rows, r);
    RowCount(rows[r], Widths(rows), '|');
    assert Count(Separator, '|') == 1 by {
      assert Separator == "  " + "|" + "  ";
      CountZeroIff("  ", '|');
      assert Count("|", '|') == 1 by { assert "|"[..0] == ""; }
      CountAppend("  ", "|", '|');
      CountAppend("  " + "|", "  ", '|');
    }
  }

  /** In a sheet whose cells hold no line break, no line holds one either. */
  lemma LinesWithoutBreaks(rows: seq<Row>)
    requires forall q, j :: 0 <= q < |rows| && 0 <= j < |rows[q]| ==> '\n' !in CellText(rows[q][j])
    ensures CountAll(Lines(rows), '\n') == 0
  {
    var lines, w := Lines(rows), Widths(rows);
    CountZeroIff(Separator, '\n');
    forall q | 0 <= q < |lines|
      ensures Count(lines[q], '\n') == 0
    {
      RowsFit(rows, q);
      RowCount(rows[q], w, '\n');
    }
    CountAllZero(lines, '\n');
  }

  /** A sheet whose cells hold no line break renders to exactly one line per row: `|rows| - 1` line breaks. */
  lemma LineBreakCount(rows: seq<Row>)
    requires |rows| > 0
    requires forall q, j :: 0 <= q < |rows| && 0 <= j < |rows[q]| ==> '\n' !in CellText(rows[q][j])
    ensures Count(Format(rows), '\n') == |rows| - 1
  {
    LinesWithoutBreaks(rows);
    JoinCount(Lines(rows), "\n", '\n');
    assert Count("\n", '\n') == 1 by { assert "\n"[..0] == ""; }
  }

  /** Line `r` of the output is row `r` rendered, followed by one `"\n"` unless it is the last, after
      which nothing follows. */
  lemma LinePlacement(rows: seq<Row>, r: nat)
    requires r < |rows|
    ensures var lines, at := Lines(rows), Offset(Lines(rows), "\n", r);
      at + |lines[r]| <= |Format(rows)| && Format(rows)[at..at + |lines[r]|] == lines[r]
      && (r + 1 < |rows| ==>
            (Offset(lines, "\n", r + 1) <= |Format(rows)|
             && Format(rows)[at + |lines[r]|..Offset(lines, "\n", r + 1)] == "\n"))
      && (r + 1 == |rows| ==> at + |lines[r]| == |Format(rows)|)
  {
    var lines := Lines(rows);
    assert Format(rows) == Join(lines, "\n");
    JoinLayout(lines, "\n", r);
    JoinLength(lines, "\n");
  }

  /** The worked example: widths 3 and 2, the second cell of the second row padded to width 2. */
  lemma TwoByTwoExample()
    ensures Format([[Some("a"), Some("bb")], [Some("ccc"), Some("d")]]) == "a    |  bb\nccc  |  d "
  {
    var rows: seq<Row> := [[Some("a"), Some("bb")], [Some("ccc"), Some("d")]];
    assert MaxCells(rows) == 2 by { assert rows[..1][..0] == []; }
    assert ColumnWidth(rows, 0) == 3 by { assert rows[..1][..0] == []; }
    assert ColumnWidth(rows, 1) == 2 by { assert rows[..1][..0] == []; }
    assert Widths(rows) == [3, 2];
    assert Lines(rows)[0] == "a    |  bb";
    assert Lines(rows)[1] == "ccc  |  d ";
  }
}
