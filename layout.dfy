/**
 * The padding scheme shared by the result-set renderer and the schema
 * describer: a column is as wide as the longest text placed in it (header
 * included), every cell is left-justified to its column's width, and the
 * cells of a line are joined with " | ".
 */
module Layout {
  import opened Text

  const Separator: string := " | "

  /** Every row has exactly `n` cells, one per column name. */
  predicate Rectangular(rows: seq<seq<string>>, n: nat) {
    forall j :: 0 <= j < |rows| ==> |rows[j]| == n
  }

  /** The line's cells all fit their column widths. */
  predicate Fits(cells: seq<string>, widths: seq<nat>) {
    |cells| == |widths| && forall i :: 0 <= i < |cells| ==> |cells[i]| <= widths[i]
  }

  function Max(a: nat, b: nat): (m: nat)
    ensures m >= a && m >= b && (m == a || m == b)
  {
    if a >= b then a else b
  }

  /**
   * The width of column `i`: a running maximum that starts at the header's
   * length and takes in the rows one after another. It is the largest of the
   * header's length and the lengths of the column's values.
   */
  function ColumnWidth(header: string, rows: seq<seq<string>>, i: nat): (w: nat)
    requires forall j :: 0 <= j < |rows| ==> i < |rows[j]|
    ensures |header| <= w
    ensures forall j :: 0 <= j < |rows| ==> |rows[j][i]| <= w
    decreases |rows|
  {
    if |rows| == 0 then |header|
    else
      Max(ColumnWidth(header, rows[..|rows| - 1], i), |rows[|rows| - 1][i]|)
  }

  /** One step of the running maximum: taking in row `r`. */
  lemma ColumnWidthStep(header: string, rows: seq<seq<string>>, r: nat, i: nat)
    requires r < |rows| && forall j :: 0 <= j < |rows| ==> i < |rows[j]|
    ensures ColumnWidth(header, rows[..r + 1], i) == Max(ColumnWidth(header, rows[..r], i), |rows[r][i]|)
  {
    assert rows[..r + 1][..r] == rows[..r];
  }

  /** The width is attained: it is the header's length or the length of one of the values. */
  lemma {:induction false} ColumnWidthAttained(header: string, rows: seq<seq<string>>, i: nat)
    requires forall j :: 0 <= j < |rows| ==> i < |rows[j]|
    ensures var w := ColumnWidth(header, rows, i);
            w == |header| || exists j :: 0 <= j < |rows| && w == |rows[j][i]|
    decreases |rows|
  {
    if |rows| > 0 {
      var prefix := rows[..|rows| - 1];
      ColumnWidthAttained(header, prefix, i);
      var w0 := ColumnWidth(header, prefix, i);
      if w0 != |header| && w0 >= |rows[|rows| - 1][i]| {
        var j :| 0 <= j < |prefix| && w0 == |prefix[j][i]|;
        assert rows[j] == prefix[j];
      }
    }
  }

  /** The widths of all columns. */
  function Widths(names: seq<string>, rows: seq<seq<string>>): (widths: seq<nat>)
    requires Rectangular(rows, |names|)
  {
    seq(|names|, i requires 0 <= i < |names| => ColumnWidth(names[i], rows, i))
  }

  /** The header and every row fit the computed widths, and each width is attained. */
  lemma WidthsFit(names: seq<string>, rows: seq<seq<string>>)
    requires Rectangular(rows, |names|)
    ensures var widths := Widths(names, rows);
            && Fits(names, widths)
            && (forall j :: 0 <= j < |rows| ==> Fits(rows[j], widths))
            && (forall i :: 0 <= i < |names| ==>
                  widths[i] == |names[i]| || exists j :: 0 <= j < |rows| && widths[i] == |rows[j][i]|)
  {
    var widths := Widths(names, rows);
    forall i | 0 <= i < |names| ensures
      widths[i] == |names[i]| || exists j :: 0 <= j < |rows| && widths[i] == |rows[j][i]|
    {
      ColumnWidthAttained(names[i], rows, i);
    }
    forall j | 0 <= j < |rows| ensures Fits(rows[j], widths) {
      forall i | 0 <= i < |names| ensures |rows[j][i]| <= widths[i] {
        assert widths[i] == ColumnWidth(names[i], rows, i);
      }
    }
  }

  /** Row `j` fits the computed widths. */
  lemma RowFits(names: seq<string>, rows: seq<seq<string>>, j: nat)
    requires Rectangular(rows, |names|) && j < |rows|
    ensures Fits(rows[j], Widths(names, rows))
  {
    var widths := Widths(names, rows);
    forall i | 0 <= i < |names| ensures |rows[j][i]| <= widths[i] {
      assert widths[i] == ColumnWidth(names[i], rows, i);
    }
  }

  function Sum(ws: seq<nat>): nat
    decreases |ws|
  {
    if |ws| == 0 then 0 else ws[0] + Sum(ws[1..])
  }

  /** Length of a rendered line: the widths plus one separator between neighbours. */
  function LineWidth(ws: seq<nat>): nat {
    if |ws| == 0 then 0 else Sum(ws) + |Separator| * (|ws| - 1)
  }

  /** Where cell `k` starts in a rendered line. */
  function Offset(ws: seq<nat>, k: nat): nat
    requires k <= |ws|
  {
    Sum(ws[..k]) + |Separator| * k
  }

  /** Each value left-justified to its column's width. */
  function PadCells(values: seq<string>, widths: seq<nat>): (cells: seq<string>)
    requires |values| == |widths|
    ensures |cells| == |values|
    ensures forall i :: 0 <= i < |cells| ==> cells[i] == LJust(values[i], widths[i])
  {
    seq(|values|, i requires 0 <= i < |values| => LJust(values[i], widths[i]))
  }

  /**
   * `" | ".join(value.ljust(width) ...)`: one line of the table. It starts
   * with the first value left-justified to the first width; the lemmas
   * below place every other cell.
   */
  function RenderLine(values: seq<string>, widths: seq<nat>): (line: string)
    requires |values| == |widths|
    ensures |values| == 0 ==> line == []
    ensures |values| == 1 ==> line == LJust(values[0], widths[0])
  {
    JoinWith(PadCells(values, widths), Separator)
  }

  /** A line with two or more cells is its first padded cell, a separator, and the rest. */
  lemma RenderLineCons(values: seq<string>, widths: seq<nat>)
    requires |values| == |widths| >= 2
    ensures RenderLine(values, widths)
         == LJust(values[0], widths[0]) + Separator + RenderLine(values[1..], widths[1..])
  {
    assert PadCells(values, widths)[1..] == PadCells(values[1..], widths[1..]);
  }

  /** Every line whose values fit the widths has the same length. */
  lemma {:induction false} RenderLineLength(values: seq<string>, widths: seq<nat>)
    requires Fits(values, widths)
    ensures |RenderLine(values, widths)| == LineWidth(widths)
    decreases |values|
  {
    if |values| == 1 {
      assert Sum(widths) == widths[0] + Sum(widths[1..]);
    } else if |values| >= 2 {
      RenderLineCons(values, widths);
      RenderLineLength(values[1..], widths[1..]);
      assert LineWidth(widths) == widths[0] + |Separator| + LineWidth(widths[1..]);
    }
  }

  lemma SumPrefix(ws: seq<nat>, k: nat)
    requires 0 < k <= |ws|
    ensures Sum(ws[..k]) == ws[0] + Sum(ws[1..][..k - 1])
  {
    assert ws[..k][1..] == ws[1..][..k - 1];
  }

  /**
   * In a join of cells whose lengths are `widths`, cell `k` sits at
   * `Offset(widths, k)` and is followed by " | " unless it is the last.
   */
  lemma {:induction false} JoinCell(cells: seq<string>, widths: seq<nat>, k: nat)
    requires |cells| == |widths| && k < |cells|
    requires forall i :: 0 <= i < |cells| ==> |cells[i]| == widths[i]
    ensures var line := JoinWith(cells, Separator);
            var o := Offset(widths, k);
            && o + widths[k] <= |line|
            && line[o..o + widths[k]] == cells[k]
            && (k + 1 < |cells| ==> o + widths[k] + |Separator| <= |line|)
            && (k + 1 < |cells| ==> line[o + widths[k]..o + widths[k] + |Separator|] == Separator)
    decreases k
  {
    var line := JoinWith(cells, Separator);
    if k == 0 {
      assert Offset(widths, 0) == 0 by { assert widths[..0] == []; }
      if |cells| > 1 {
        assert line == cells[0] + Separator + JoinWith(cells[1..], Separator);
      }
    } else {
      var rest := JoinWith(cells[1..], Separator);
      var start := widths[0] + |Separator|;
      assert line == cells[0] + Separator + rest;
      assert line[start..] == rest;
      SumPrefix(widths, k);
      var o' := Offset(widths[1..], k - 1);
      assert Offset(widths, k) == start + o';
      JoinCell(cells[1..], widths[1..], k - 1);
      var w := widths[k];
      assert widths[1..][k - 1] == w && cells[1..][k - 1] == cells[k];
      assert line[start + o'..start + o' + w] == rest[o'..o' + w];
      if k + 1 < |cells| {
        assert line[start + o' + w..start + o' + w + |Separator|] == rest[o' + w..o' + w + |Separator|];
      }
    }
  }

  /**
   * In a line whose values fit the widths, cell `k` sits at `Offset(widths, k)`,
   * holds the value left-justified to its width, and is followed by exactly
   * " | " unless it is the last cell.
   */
  lemma RenderLineCell(values: seq<string>, widths: seq<nat>, k: nat)
    requires Fits(values, widths) && k < |values|
    ensures var line := RenderLine(values, widths);
            var o := Offset(widths, k);
            && o + widths[k] <= |line|
            && line[o..o + widths[k]] == LJust(values[k], widths[k])
            && (k + 1 < |values| ==> o + widths[k] + |Separator| <= |line|)
            && (k + 1 < |values| ==> line[o + widths[k]..o + widths[k] + |Separator|] == Separator)
  {
    JoinCell(PadCells(values, widths), widths, k);
  }

  /**
   * Cell `k` of a rendered line, read off the line itself: the value, then
   * only spaces up to the column's width, then " | " unless it is the last.
   */
  lemma RenderLineValue(values: seq<string>, widths: seq<nat>, k: nat)
    requires Fits(values, widths) && k < |values|
    ensures var line := RenderLine(values, widths);
            var o := Offset(widths, k);
            var v := values[k];
            && o + widths[k] <= |line|
            && line[o..o + |v|] == v
            && (forall p :: o + |v| <= p < o + widths[k] ==> line[p] == ' ')
            && (k + 1 < |values| ==> o + widths[k] + |Separator| <= |line|)
            && (k + 1 < |values| ==> line[o + widths[k]..o + widths[k] + |Separator|] == Separator)
  {
    RenderLineCell(values, widths, k);
    var line := RenderLine(values, widths);
    var o := Offset(widths, k);
    var cell := LJust(values[k], widths[k]);
    assert line[o..o + widths[k]] == cell;
    forall p | o + |values[k]| <= p < o + widths[k] ensures line[p] == ' ' {
      assert line[p] == cell[p - o];
    }
    assert line[o..o + |values[k]|] == cell[..|values[k]|];
  }

  /** Every line whose values fit the widths has the length of the header. */
  lemma LinesLength(rows: seq<seq<string>>, widths: seq<nat>)
    requires Rectangular(rows, |widths|)
    ensures forall j :: 0 <= j < |rows| && Fits(rows[j], widths) ==>
              |RenderLine(rows[j], widths)| == LineWidth(widths)
  {
    forall j | 0 <= j < |rows| && Fits(rows[j], widths)
      ensures |RenderLine(rows[j], widths)| == LineWidth(widths)
    {
      RenderLineLength(rows[j], widths);
    }
  }

  /**
   * The data lines of a table, one per row, in the rows' order; each line
   * whose row fits the widths is as long as any other such line.
   */
  function DataLines(rows: seq<seq<string>>, widths: seq<nat>): (lines: seq<string>)
    requires Rectangular(rows, |widths|)
    ensures |lines| == |rows|
    ensures forall j :: 0 <= j < |rows| ==> lines[j] == RenderLine(rows[j], widths)
    ensures forall j :: 0 <= j < |rows| && Fits(rows[j], widths) ==> |lines[j]| == LineWidth(widths)
  {
    LinesLength(rows, widths);
    seq(|rows|, j requires 0 <= j < |rows| => RenderLine(rows[j], widths))
  }
}
