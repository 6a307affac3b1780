/**
 * `format_result_set`: renders the rows a SELECT returned as an aligned text
 * table. The driver's column descriptions and fetched rows arrive as
 * parameters: `names` are the column names, and each row holds its values
 * already converted to text, in column order.
 */
module ResultSet {
  import opened Text
  import opened Layout

  const NoRowsMessage: string := "No rows returned\n"
  const RowsReturnedSuffix: string := " rows returned\n"

  /**
   * The `column_widths` list: starts at the column names' lengths and is
   * raised in place, row by row and column by column, to the longest value.
   */
  method ComputeWidths(names: seq<string>, rows: seq<seq<string>>) returns (widths: seq<nat>)
    requires Rectangular(rows, |names|)
    ensures widths == Widths(names, rows)
  {
    var w := new nat[|names|](i requires 0 <= i < |names| => |names[i]|);
    assert rows[..0] == [];
    for r := 0 to |rows|
      invariant forall i :: 0 <= i < |names| ==> w[i] == ColumnWidth(names[i], rows[..r], i)
    {
      var row := rows[r];
      assert rows[..r + 1][..r] == rows[..r];
      for i := 0 to |names|
        invariant forall k :: 0 <= k < i ==> w[k] == ColumnWidth(names[k], rows[..r + 1], k)
        invariant forall k :: i <= k < |names| ==> w[k] == ColumnWidth(names[k], rows[..r], k)
      {
        ColumnWidthStep(names[i], rows, r, i);
        w[i] := Max(w[i], |row[i]|);
      }
    }
    assert rows[..|rows|] == rows;
    widths := w[..];
  }

  /** Everything `format_result_set` prints, one element per `print` call. */
  function Format(names: seq<string>, rows: seq<seq<string>>): (out: seq<string>)
    requires Rectangular(rows, |names|)
    ensures |rows| == 0 <==> out == [NoRowsMessage]
    ensures |rows| > 0 ==> |out| == |rows| + 5
  {
    if |rows| == 0 then [NoRowsMessage]
    else
      var widths := Widths(names, rows);
      var header := RenderLine(names, widths);
      var rule := Dashes(|header|);
      [rule, header, rule] + DataLines(rows, widths) + [rule, NatToString(|rows|) + RowsReturnedSuffix]
  }

  /**
   * The shape of a non-empty result: a rule, the header, a rule, one line per
   * row in order, a closing rule and the count line. Every line but the count
   * is exactly as long as the header, which is the widths plus the separators.
   */
  lemma FormatLayout(names: seq<string>, rows: seq<seq<string>>)
    requires Rectangular(rows, |names|) && |rows| > 0
    ensures var out := Format(names, rows);
            var widths := Widths(names, rows);
            var n := LineWidth(widths);
            && |out| == |rows| + 5
            && out[0] == Dashes(n) && out[2] == Dashes(n) && out[|rows| + 3] == Dashes(n)
            && out[1] == RenderLine(names, widths) && |out[1]| == n
            && (forall j :: 0 <= j < |rows| ==>
                  out[j + 3] == RenderLine(rows[j], widths) && |RenderLine(rows[j], widths)| == n)
            && out[|rows| + 4] == NatToString(|rows|) + RowsReturnedSuffix
  {
    var widths := Widths(names, rows);
    WidthsFit(names, rows);
    RenderLineLength(names, widths);
    forall j | 0 <= j < |rows| ensures |RenderLine(rows[j], widths)| == LineWidth(widths) {
      RenderLineLength(rows[j], widths);
    }
  }

  /**
   * Cell `i` of data line `j` starts at the column's offset and is the value
   * followed only by spaces up to the column's width; a " | " follows every
   * cell but the last.
   */
  lemma FormatCell(names: seq<string>, rows: seq<seq<string>>, j: nat, i: nat)
    requires Rectangular(rows, |names|) && j < |rows| && i < |names|
    ensures var out := Format(names, rows);
            var widths := Widths(names, rows);
            var line := out[j + 3];
            var o := Offset(widths, i);
            var v := rows[j][i];
            && |v| <= widths[i]
            && o + widths[i] <= |line|
            && line[o..o + |v|] == v
            && (forall k :: o + |v| <= k < o + widths[i] ==> line[k] == ' ')
            && (i + 1 < |names| ==> o + widths[i] + |Separator| <= |line|)
            && (i + 1 < |names| ==> line[o + widths[i]..o + widths[i] + |Separator|] == Separator)
  {
    var widths := Widths(names, rows);
    RowFits(names, rows, j);
    FormatDataLine(names, rows, j);
    RenderLineValue(rows[j], widths, i);
  }

  /** Data line `j` of the output renders row `j` (a step of `FormatLayout`, kept small for the cell lemma). */
  lemma FormatDataLine(names: seq<string>, rows: seq<seq<string>>, j: nat)
    requires Rectangular(rows, |names|) && j < |rows|
    ensures Format(names, rows)[j + 3] == RenderLine(rows[j], Widths(names, rows))
  {
    assert DataLines(rows, Widths(names, rows))[j] == RenderLine(rows[j], Widths(names, rows));
  }

  /** The last line printed is the row count followed by " rows returned". */
  lemma FormatFooter(names: seq<string>, rows: seq<seq<string>>)
    requires Rectangular(rows, |names|) && |rows| > 0
    ensures Format(names, rows)[|rows| + 4] == NatToString(|rows|) + RowsReturnedSuffix
  {
  }

  /** The count in the footer reads back as the number of rows. */
  lemma FooterCount(names: seq<string>, rows: seq<seq<string>>)
    requires Rectangular(rows, |names|) && |rows| > 0
    ensures var footer := Format(names, rows)[|rows| + 4];
            var digits := footer[..|footer| - |RowsReturnedSuffix|];
            && |footer| > |RowsReturnedSuffix|
            && footer[|footer| - |RowsReturnedSuffix|..] == RowsReturnedSuffix
            && AllDigits(digits) && ParseDecimal(digits) == |rows|
  {
    FormatFooter(names, rows);
    var numeral := NatToString(|rows|);
    var footer := numeral + RowsReturnedSuffix;
    assert footer[..|footer| - |RowsReturnedSuffix|] == numeral;
    assert footer[|footer| - |RowsReturnedSuffix|..] == RowsReturnedSuffix;
    DecimalRoundTrip(|rows|);
  }

  /** The example of a two-row result: the "name" column is four wide, header included. */
  lemma TwoRowWidths()
    ensures Widths(["id", "name"], [["1", "a"], ["2", "bb"]]) == [2, 4]
  {
    var rows := [["1", "a"], ["2", "bb"]];
    assert rows[..1] == [["1", "a"]];
    assert rows[..1][..0] == [];
    assert ColumnWidth("id", rows[..1], 0) == 2 && ColumnWidth("name", rows[..1], 1) == 4;
  }

  /** The example of a two-row result: its widths, and the two rows counted in the footer. */
  lemma TwoRowExample()
    ensures var names := ["id", "name"];
            var rows := [["1", "a"], ["2", "bb"]];
            && Widths(names, rows) == [2, 4]
            && Format(names, rows)[6] == "2 rows returned\n"
  {
    TwoRowWidths();
    TwoRowsCounted(["id", "name"], [["1", "a"], ["2", "bb"]]);
  }

  /** Any two-row result ends with "2 rows returned". */
  lemma TwoRowsCounted(names: seq<string>, rows: seq<seq<string>>)
    requires Rectangular(rows, |names|) && |rows| == 2
    ensures Format(names, rows)[6] == "2 rows returned\n"
  {
    FormatFooter(names, rows);
    assert NatToString(2) == "2";
  }

  // ---------------------------------------------------------------------------
  // Rows as the driver hands them over: dictionaries keyed by column name
  // ---------------------------------------------------------------------------

  predicate Distinct(names: seq<string>) {
    forall a, b :: 0 <= a < b < |names| ==> names[a] != names[b]
  }

  /** Where `key` first occurs in `keys`. */
  function IndexOf(keys: seq<string>, key: string): (i: nat)
    requires key in keys
    ensures i < |keys| && keys[i] == key
    ensures forall j :: 0 <= j < i ==> keys[j] != key
    decreases |keys|
  {
    if keys[0] == key then 0 else 1 + IndexOf(keys[1..], key)
  }

  /** A key found before position `k` is found at the same place in `keys[..k]`. */
  lemma IndexOfPrefix(keys: seq<string>, k: nat, key: string)
    requires k <= |keys| && key in keys[..k]
    ensures key in keys && IndexOf(keys, key) == IndexOf(keys[..k], key)
  {
    var i' := IndexOf(keys[..k], key);
    assert keys[i'] == keys[..k][i'];
    assert forall j :: 0 <= j < i' ==> keys[j] != key by {
      forall j | 0 <= j < i' ensures keys[j] != key {
        assert keys[..k][j] == keys[j];
      }
    }
  }

  /** A key that does not occur before position `k` first occurs at `k`. */
  lemma IndexOfFresh(keys: seq<string>, k: nat)
    requires k < |keys| && keys[k] !in keys[..k]
    ensures IndexOf(keys, keys[k]) == k
  {
    assert forall j :: 0 <= j < k ==> keys[j] != keys[k] by {
      forall j | 0 <= j < k ensures keys[j] != keys[k] {
        assert keys[..k][j] == keys[j];
      }
    }
  }

  /**
   * The dictionary a dict-row cursor builds from one result row: the names
   * are assigned in order, a repeated name keeps its first position and
   * takes the later value. Returns the keys and `row.values()`.
   */
  function DictOf(names: seq<string>, values: seq<string>): (d: (seq<string>, seq<string>))
    requires |names| == |values|
    ensures |d.0| == |d.1| <= |names|
    ensures Distinct(d.0)
    ensures forall n :: n in d.0 <==> n in names
    decreases |names|
  {
    if |names| == 0 then ([], [])
    else
      var n := |names| - 1;
      var prior := DictOf(names[..n], values[..n]);
      if names[n] in prior.0 then (prior.0, prior.1[IndexOf(prior.0, names[n]) := values[n]])
      else (prior.0 + [names[n]], prior.1 + [values[n]])
  }

  /** `keys` are names of `names`, in the order in which those names first occur. */
  predicate InFirstOccurrenceOrder(keys: seq<string>, names: seq<string>)
  {
    (forall k :: k in keys ==> k in names) &&
    forall a, b :: 0 <= a < b < |keys| ==> IndexOf(names, keys[a]) < IndexOf(names, keys[b])
  }

  /**
   * The dict's keys, and so `row.values()`, are in the order in which the
   * names first occur: a repeated name keeps its first position.
   */
  lemma {:induction false} DictOfKeyOrder(names: seq<string>, values: seq<string>)
    requires |names| == |values|
    ensures InFirstOccurrenceOrder(DictOf(names, values).0, names)
    decreases |names|
  {
    if |names| > 0 {
      var n := |names| - 1;
      var prior := DictOf(names[..n], values[..n]).0;
      var keys := DictOf(names, values).0;
      DictOfKeyOrder(names[..n], values[..n]);
      assert InFirstOccurrenceOrder(prior, names[..n]);
      forall a | 0 <= a < |prior|
        ensures IndexOf(names, prior[a]) == IndexOf(names[..n], prior[a]) < n
      {
        IndexOfPrefix(names, n, prior[a]);
      }
      assert InFirstOccurrenceOrder(prior, names);
      if names[n] !in prior {
        assert names[n] !in names[..n];
        IndexOfFresh(names, n);
        assert keys == prior + [names[n]];
        forall a, b | 0 <= a < b < |keys|
          ensures IndexOf(names, keys[a]) < IndexOf(names, keys[b])
        {
          assert keys[a] == prior[a];
          if b < |prior| {
            assert keys[b] == prior[b];
          } else {
            assert keys[b] == names[n];
          }
        }
      }
    }
  }

  /** Column `j` is the last one of its name: no later column shares it. */
  predicate LastOfName(names: seq<string>, j: nat)
    requires j < |names|
  {
    forall k :: j < k < |names| ==> names[k] != names[j]
  }

  /** In keys without repeats, a key sits at exactly one position. */
  lemma IndexOfUnique(keys: seq<string>, i: nat)
    requires Distinct(keys) && i < |keys|
    ensures IndexOf(keys, keys[i]) == i
  {
  }

  /**
   * Every column name is a key of the dict row, and its entry holds the value
   * of the last column with that name: a later column overwrites an earlier one.
   */
  lemma {:induction false} DictOfKeepsLast(names: seq<string>, values: seq<string>, j: nat)
    requires |names| == |values| && j < |names| && LastOfName(names, j)
    ensures var d := DictOf(names, values);
            names[j] in d.0 && d.1[IndexOf(d.0, names[j])] == values[j]
    decreases |names|
  {
    var n := |names| - 1;
    var prior := DictOf(names[..n], values[..n]);
    var d := DictOf(names, values);
    if j < n {
      assert names[..n][j] == names[j] && values[..n][j] == values[j];
      assert LastOfName(names[..n], j);
      DictOfKeepsLast(names[..n], values[..n], j);
      var i := IndexOf(prior.0, names[j]);
      assert prior.1[i] == values[j];
      assert names[n] != names[j];
      if names[n] in prior.0 {
        var m := IndexOf(prior.0, names[n]);
        assert d == (prior.0, prior.1[m := values[n]]);
        assert i != m;
        assert d.1[i] == prior.1[i];
      } else {
        assert d == (prior.0 + [names[n]], prior.1 + [values[n]]);
        assert d.0[i] == names[j] && d.1[i] == prior.1[i];
        IndexOfUnique(d.0, i);
      }
    } else if names[n] in prior.0 {
      assert d == (prior.0, prior.1[IndexOf(prior.0, names[n]) := values[n]]);
    } else {
      assert d == (prior.0 + [names[n]], prior.1 + [values[n]]);
      IndexOfUnique(d.0, |prior.0|);
    }
  }

  /** With distinct column names, `row.values()` is the row's values in column order. */
  lemma {:induction false} DistinctNamesKeepValues(names: seq<string>, values: seq<string>)
    requires |names| == |values| && Distinct(names)
    ensures DictOf(names, values) == (names, values)
    decreases |names|
  {
    if |names| > 0 {
      var n := |names| - 1;
      DistinctNamesKeepValues(names[..n], values[..n]);
      assert names[n] !in names[..n];
      assert names[..n] + [names[n]] == names;
      assert values[..n] + [values[n]] == values;
    }
  }

  /** `row.values()` of every row the dict-row cursor hands over. */
  function DictValues(names: seq<string>, rows: seq<seq<string>>): (shown: seq<seq<string>>)
    requires Rectangular(rows, |names|)
    ensures |shown| == |rows|
    ensures forall j :: 0 <= j < |rows| ==> shown[j] == DictOf(names, rows[j]).1 && |shown[j]| <= |names|
  {
    seq(|rows|, j requires 0 <= j < |rows| => DictOf(names, rows[j]).1)
  }

  /**
   * The width of column `i` as the source computes it from dict rows: it is
   * raised only by the rows whose `values()` reach position `i`.
   */
  function AsWrittenColumnWidth(header: string, shown: seq<seq<string>>, i: nat): (w: nat)
    ensures |header| <= w
    ensures forall j :: 0 <= j < |shown| && i < |shown[j]| ==> |shown[j][i]| <= w
    decreases |shown|
  {
    if |shown| == 0 then |header|
    else
      var before := AsWrittenColumnWidth(header, shown[..|shown| - 1], i);
      var last := shown[|shown| - 1];
      if i < |last| then Max(before, |last[i]|) else before
  }

  /** When every row reaches position `i`, the source's width is the model's. */
  lemma {:induction false} AsWrittenWidthAgrees(header: string, rows: seq<seq<string>>, i: nat)
    requires forall j :: 0 <= j < |rows| ==> i < |rows[j]|
    ensures AsWrittenColumnWidth(header, rows, i) == ColumnWidth(header, rows, i)
    decreases |rows|
  {
    if |rows| > 0 {
      AsWrittenWidthAgrees(header, rows[..|rows| - 1], i);
    }
  }

  /**
   * Everything `format_result_set` prints, exactly as written: widths and
   * data lines come from each dict row's `values()`, and each data line
   * joins only as many cells as its row has values.
   */
  function AsWrittenFormat(names: seq<string>, rows: seq<seq<string>>): (out: seq<string>)
    requires Rectangular(rows, |names|)
    ensures |rows| == 0 <==> out == [NoRowsMessage]
    ensures |rows| > 0 ==> |out| == |rows| + 5
  {
    if |rows| == 0 then [NoRowsMessage]
    else
      var shown := DictValues(names, rows);
      var widths := seq(|names|, i requires 0 <= i < |names| => AsWrittenColumnWidth(names[i], shown, i));
      var header := RenderLine(names, widths);
      var rule := Dashes(|header|);
      [rule, header, rule]
        + seq(|rows|, j requires 0 <= j < |rows| => RenderLine(shown[j], widths[..|shown[j]|]))
        + [rule, NatToString(|rows|) + RowsReturnedSuffix]
  }

  /** With distinct column names the source's output is the positional model's, for any rows. */
  lemma AsWrittenAgreesWhenDistinct(names: seq<string>, rows: seq<seq<string>>)
    requires Rectangular(rows, |names|) && Distinct(names)
    ensures AsWrittenFormat(names, rows) == Format(names, rows)
  {
    if |rows| > 0 {
      var shown := DictValues(names, rows);
      forall j | 0 <= j < |rows| ensures shown[j] == rows[j] {
        DistinctNamesKeepValues(names, rows[j]);
      }
      assert shown == rows;
      var widths := Widths(names, rows);
      var asWritten := seq(|names|, i requires 0 <= i < |names| => AsWrittenColumnWidth(names[i], shown, i));
      forall i | 0 <= i < |names| ensures asWritten[i] == widths[i] {
        AsWrittenWidthAgrees(names[i], rows, i);
      }
      assert asWritten == widths;
      assert widths[..|names|] == widths;
      var lines := seq(|rows|, j requires 0 <= j < |rows| => RenderLine(shown[j], asWritten[..|shown[j]|]));
      assert lines == DataLines(rows, widths);
    }
  }

  /**
   * A query with two columns of the same name (`SELECT 1 AS id, 2 AS id`)
   * prints a header of two columns over a data line of one: "id | id", seven
   * characters, over "2 ", two.
   */
  lemma DuplicateNamesMisalign()
    ensures var out := AsWrittenFormat(["id", "id"], [["1", "2"]]);
            && |out| == 6
            && |out[1]| == 7
            && out[3] == "2 "
  {
    var names := ["id", "id"];
    var values := ["1", "2"];
    var rows: seq<seq<string>> := [values];
    assert names[..1] == ["id"] && values[..1] == ["1"];
    assert names[..1][..0] == [] && values[..1][..0] == [];
    var first := DictOf(names[..1], values[..1]);
    assert first.0 == [] + ["id"] && first.1 == [] + ["1"];
    assert "id" in first.0 && IndexOf(first.0, "id") == 0;
    var shown := DictValues(names, rows);
    assert shown[0] == first.1[0 := "2"] == ["2"];
    assert shown == [["2"]] && shown[..0] == [];
    assert AsWrittenColumnWidth("id", shown[..0], 0) == 2 && AsWrittenColumnWidth("id", shown[..0], 1) == 2;
    assert AsWrittenColumnWidth("id", shown, 0) == 2 && AsWrittenColumnWidth("id", shown, 1) == 2;
    var widths := seq(|names|, i requires 0 <= i < |names| => AsWrittenColumnWidth(names[i], shown, i));
    assert widths == [2, 2];
    RenderLineLength(names, widths);
    assert widths[..1] == [2];
    assert RenderLine(["2"], [2]) == LJust("2", 2);
    assert LJust("2", 2) == "2 ";
  }
}
