/**
 * `print_table_info`: describes one table from the catalog rows the driver
 * returned for it (`information_schema.columns`), as an aligned table with
 * the headers "Column Name", "Data Type" and "Constraints". The catalog
 * query itself is not modelled; its rows are the input.
 */
module TableInfo {
  import opened Text
  import opened Layout

  /** One catalog row, with every field already converted to text. */
  datatype CatalogRow = CatalogRow(
    columnName: string,
    dataType: string,
    columnDefault: string,
    isNullable: string)

  const Headers: seq<string> := ["Column Name", "Data Type", "Constraints"]

  /** The "Constraints" cell: the default, a comma and a space, and the nullability flag. */
  function Constraint(c: CatalogRow): (s: string)
    ensures |s| == |c.columnDefault| + 2 + |c.isNullable|
    ensures s[..|c.columnDefault|] == c.columnDefault
    ensures s[|c.columnDefault|..|c.columnDefault| + 2] == ", "
    ensures s[|c.columnDefault| + 2..] == c.isNullable
  {
    c.columnDefault + ", " + c.isNullable
  }

  /** The three cells shown for one catalog row. */
  function RowCells(c: CatalogRow): seq<string> {
    [c.columnName, c.dataType, Constraint(c)]
  }

  function Cells(columns: seq<CatalogRow>): (rows: seq<seq<string>>)
    ensures |rows| == |columns| && Rectangular(rows, |Headers|)
    ensures forall j :: 0 <= j < |columns| ==> rows[j] == RowCells(columns[j])
  {
    seq(|columns|, j requires 0 <= j < |columns| => RowCells(columns[j]))
  }

  /** The three column widths of the describer. */
  function DescribeWidths(columns: seq<CatalogRow>): seq<nat> {
    Widths(Headers, Cells(columns))
  }

  /**
   * The three-element `column_widths` list: starts at the headers' lengths
   * and is raised in place, catalog row by catalog row.
   */
  method ComputeDescribeWidths(columns: seq<CatalogRow>) returns (widths: seq<nat>)
    ensures widths == DescribeWidths(columns)
  {
    var cells := Cells(columns);
    var w := new nat[3](i requires 0 <= i < 3 => |Headers[i]|);
    assert cells[..0] == [];
    for r := 0 to |columns|
      invariant forall i :: 0 <= i < 3 ==> w[i] == ColumnWidth(Headers[i], cells[..r], i)
    {
      var column := columns[r];
      assert cells[r] == [column.columnName, column.dataType, Constraint(column)];
      ColumnWidthStep(Headers[0], cells, r, 0);
      ColumnWidthStep(Headers[1], cells, r, 1);
      ColumnWidthStep(Headers[2], cells, r, 2);
      w[0] := Max(w[0], |column.columnName|);
      w[1] := Max(w[1], |column.dataType|);
      var constraint := Constraint(column);
      w[2] := Max(w[2], |constraint|);
    }
    assert cells[..|columns|] == cells;
    widths := w[..];
  }

  function NoColumnsMessage(tableName: string): string {
    "No columns found for table '" + tableName + "'\n"
  }

  /** Everything `print_table_info` prints, one element per `print` call. */
  function Describe(tableName: string, columns: seq<CatalogRow>): (out: seq<string>)
    ensures |columns| == 0 <==> out == [NoColumnsMessage(tableName)]
    ensures |columns| > 0 ==> |out| == |columns| + 5
  {
    if |columns| == 0 then [NoColumnsMessage(tableName)]
    else
      var widths := DescribeWidths(columns);
      var header := RenderLine(Headers, widths);
      var rule := Dashes(|header|);
      ["Table: " + tableName, rule, header, rule]
        + DataLines(Cells(columns), widths)
        + [rule + "\n"]
  }

  /**
   * Each width is at least its header's length (11, 9 and 11) and at least
   * the length of every name, type and constraint text in its column.
   */
  lemma DescribeWidthBounds(columns: seq<CatalogRow>)
    ensures var w := DescribeWidths(columns);
            && |w| == 3
            && w[0] >= 11 && w[1] >= 9 && w[2] >= 11
            && (forall j :: 0 <= j < |columns| ==>
                  && |columns[j].columnName| <= w[0]
                  && |columns[j].dataType| <= w[1]
                  && |Constraint(columns[j])| <= w[2])
  {
    var cells := Cells(columns);
    WidthsFit(Headers, cells);
    forall j | 0 <= j < |columns|
      ensures Fits(RowCells(columns[j]), DescribeWidths(columns))
    {
      assert cells[j] == RowCells(columns[j]);
    }
  }

  /**
   * The shape of a description: the title, a rule, the header, a rule, one
   * line per catalog row in order, and a closing rule followed by a blank
   * line. The header, every data line and every rule have the same length.
   */
  lemma DescribeLayout(tableName: string, columns: seq<CatalogRow>)
    requires |columns| > 0
    ensures var out := Describe(tableName, columns);
            var widths := DescribeWidths(columns);
            var n := LineWidth(widths);
            && |out| == |columns| + 5
            && out[0] == "Table: " + tableName
            && out[1] == Dashes(n) && out[3] == Dashes(n) && out[|columns| + 4] == Dashes(n) + "\n"
            && out[2] == RenderLine(Headers, widths) && |out[2]| == n
            && (forall j :: 0 <= j < |columns| ==>
                  out[j + 4] == RenderLine(RowCells(columns[j]), widths)
                  && |RenderLine(RowCells(columns[j]), widths)| == n)
  {
    var cells := Cells(columns);
    var widths := DescribeWidths(columns);
    WidthsFit(Headers, cells);
    RenderLineLength(Headers, widths);
    forall j | 0 <= j < |columns|
      ensures |RenderLine(RowCells(columns[j]), widths)| == LineWidth(widths)
    {
      assert cells[j] == RowCells(columns[j]);
      RenderLineLength(RowCells(columns[j]), widths);
    }
  }

  /**
   * Data line `j` shows the column name, the data type and the constraint
   * text, each left-justified to its width and separated by " | ".
   */
  lemma DescribeRow(tableName: string, columns: seq<CatalogRow>, j: nat)
    requires j < |columns|
    ensures var line := Describe(tableName, columns)[j + 4];
            var w := DescribeWidths(columns);
            var c := columns[j];
            |w| == 3 && line == LJust(c.columnName, w[0]) + " | " + LJust(c.dataType, w[1]) + " | "
                                 + LJust(Constraint(c), w[2])
  {
    var w := DescribeWidths(columns);
    var cells := Cells(columns);
    assert DataLines(cells, w)[j] == RenderLine(cells[j], w);
    assert cells[j] == RowCells(columns[j]);
    ThreeCells(RowCells(columns[j]), w);
  }

  /** A three-cell line spelled out. */
  lemma ThreeCells(cells: seq<string>, w: seq<nat>)
    requires |cells| == |w| == 3
    ensures RenderLine(cells, w)
         == LJust(cells[0], w[0]) + " | " + LJust(cells[1], w[1]) + " | " + LJust(cells[2], w[2])
  {
    RenderLineCons(cells, w);
    RenderLineCons(cells[1..], w[1..]);
    assert cells[1..][1..] == [cells[2]] && w[1..][1..] == [w[2]];
    assert RenderLine([cells[2]], [w[2]]) == LJust(cells[2], w[2]);
  }
}
