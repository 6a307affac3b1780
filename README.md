# PostgreSQL command-line client: table rendering and command dispatch

A Dafny model of the logic in `postgres-client-app.py`, an interactive
client that reads a line at a time at the `postgres> ` prompt. The model
covers three pieces.

- **Result-set renderer** (`format_result_set`). It takes column names and
  rows of text values. Each column is as wide as the longest of its name and
  its values. Every cell is left-justified to that width and cells are
  joined with `" | "`. The header sits between two dash rules, and a closing
  rule and an `"<n> rows returned"` line follow the rows. An empty result
  prints only `"No rows returned"`.
- **Schema describer** (`print_table_info`). It uses the same padding
  scheme over catalog rows from `information_schema.columns`, with the
  headers `Column Name`, `Data Type` and `Constraints`. The constraints cell
  is the default, `", "`, and the nullability flag. With no catalog rows it
  prints only `No columns found for table '<name>'`.
- **Command dispatch** (`repl`). An input line is classified as exit,
  describe (`\t <table>`), select, or another statement. A step function
  then decides what happens to the transaction: commit, rollback, nothing,
  or close.

Modules: `Text` (the Python string operations used: `isspace`, ASCII
`lower`, `strip`, `startswith`, `split`, `join`, `ljust`, `"-" * n`, `str(n)`),
`Layout` (column widths and line rendering shared by both tables; "the
separator" below is the three characters space, bar, space),
`ResultSet`, `TableInfo` and `Repl`. The two width computations are
methods that raise an array of widths in place inside loops, as the source
raises its `column_widths` list. Each is proved equal to the specification
function `Layout.Widths`. Rendering is written as functions, because the
source renders with comprehensions and `join`.

Behaviours of the code worth noting:

- A column's width includes its header. For rows `{id: 1, name: "a"}` and
  `{id: 2, name: "bb"}`, the `name` column is 4 wide, the length
  of its header, not 2, the length of its longest value
  (`ResultSet.TwoRowExample`).
- An empty input line is not skipped. It is classified as a statement
  (`Other("")`) and passed to `cursor.execute`, which raises for an empty
  query, so the handler rolls back.
- The constraints cell joins default and nullability with `", "`.
- Only the backslash-`t` spelling of the describe prefix appears in the
  modelled file, so only that spelling is modelled.

## Model

| member | source | states |
|---|---|---|
| Layout.ColumnWidth | postgres-client-app.py:71-76 | A column's width is at least the header's length and at least the length of every value in the column. |
| Layout.ColumnWidthAttained | postgres-client-app.py:74-76 | The width equals the header's length or the length of some value in the column, so together with the bounds it is exactly their maximum. |
| Layout.WidthsFit | postgres-client-app.py:71-76 | The header and every row fit the computed widths, and each width is attained by the header or a value. |
| Layout.RowFits | postgres-client-app.py:74-76 | Each single row fits the computed widths. |
| ResultSet.ComputeWidths | postgres-client-app.py:71-76 | The in-place loop over rows and columns computes exactly the specified widths. |
| Layout.RenderLine | postgres-client-app.py:79 | A line with no cells is empty and a one-column line is its value left-justified to the width; the placement of every cell is stated by the lemmas below. |
| Layout.DataLines | postgres-client-app.py:85-87 | One line per row, in the rows' order; line j renders row j, and every line whose row fits the widths is as long as a header line. |
| Layout.LinesLength | postgres-client-app.py:51-58 | Every data line whose row fits the widths has the same length as the header. |
| Layout.RenderLineLength | postgres-client-app.py:79 | A line whose values fit the widths is exactly the sum of the widths plus 3 per separator long. |
| Layout.JoinCell | postgres-client-app.py:86 | In cells of known lengths joined by the separator, cell k starts at the sum of the earlier widths plus 3k, and exactly the separator follows it unless it is last. |
| Layout.RenderLineCell | postgres-client-app.py:79 | In a rendered line, cell k at its offset is the value left-justified to the column width, followed by the separator unless it is last. |
| Layout.RenderLineValue | postgres-client-app.py:86 | In a rendered line, cell k is the value's text followed only by spaces up to the column width. |
| ResultSet.Format | postgres-client-app.py:68-91 | The output is exactly `"No rows returned\n"` iff there are no rows; otherwise it has one line per row plus five. |
| ResultSet.FormatLayout | postgres-client-app.py:79-89 | Output order is rule, header, rule, one line per row in order, rule, count. Rules are dashes of the header's length, and every data line has the header's length. |
| ResultSet.FormatDataLine | postgres-client-app.py:85-87 | Output line j+3 renders row j with the computed widths. |
| ResultSet.FormatFooter | postgres-client-app.py:89 | The last output line is the decimal row count followed by `" rows returned\n"`. |
| ResultSet.FormatCell | postgres-client-app.py:86 | Cell i of data line j is the value, then spaces up to the width, then the separator unless it is the last column. |
| ResultSet.FooterCount | postgres-client-app.py:89 | The footer is a decimal numeral followed by `" rows returned\n"`, and the numeral reads back as the number of rows. |
| ResultSet.TwoRowWidths | postgres-client-app.py:71-76 | For rows (1, "a") and (2, "bb") under `id`, `name`, the widths are 2 and 4, because the header counts. |
| ResultSet.TwoRowsCounted | postgres-client-app.py:89 | Any two-row result ends with `2 rows returned`. |
| ResultSet.TwoRowExample | postgres-client-app.py:71-89 | For the same rows, the widths are 2 and 4 and the footer reads `2 rows returned`. |
| Layout.ColumnWidthStep | postgres-client-app.py:76 | Taking in one more row raises a width to the maximum of its old value and that row's value length. |
| ResultSet.DistinctNamesKeepValues | postgres-client-app.py:75 | With distinct column names, a dict row's `values()` are the row's values in column order. |
| ResultSet.DictOf | postgres-client-app.py:18 | The dict row built from a result row has no repeated key, and its keys are exactly the column names. |
| ResultSet.IndexOf | postgres-client-app.py:18 | The position found holds the key, and no earlier position does: it is the key's first occurrence. |
| ResultSet.DictOfKeyOrder | postgres-client-app.py:18 | The dict row's keys, and so `row.values()`, follow the order in which the column names first occur: a repeated name keeps the position of its first column. |
| ResultSet.DictOfKeepsLast | postgres-client-app.py:18 | Every column name is a key, and its entry holds the value of the last column with that name. |
| ResultSet.DictValues | postgres-client-app.py:74-75 | Each row's `values()` is the value list of that row's dict, with at most as many entries as there are columns. |
| ResultSet.AsWrittenColumnWidth | postgres-client-app.py:71-76 | The width is at least the header's length and at least every value that `values()` places in that column. |
| ResultSet.AsWrittenWidthAgrees | postgres-client-app.py:74-76 | When every row reaches column i, the dict-row width equals the positional width. |
| ResultSet.AsWrittenFormat | postgres-client-app.py:68-91 | Exactly `"No rows returned\n"` iff there are no rows; otherwise one line per row plus five. Widths and data lines come from each row's `values()`, as written. |
| ResultSet.AsWrittenAgreesWhenDistinct | postgres-client-app.py:68-91 | With distinct column names, everything the source prints from dict rows equals the positional model's output, for any number of rows. |
| ResultSet.DuplicateNamesMisalign | postgres-client-app.py:74-87 | With two columns named `id` and one row (1, 2), the header is 7 characters but the data line is `2 `, 2 characters. |
| TableInfo.Constraint | postgres-client-app.py:41 | The constraints text is the default, then `", "`, then the nullability flag. |
| TableInfo.ComputeDescribeWidths | postgres-client-app.py:35-42 | The in-place loop over catalog rows computes exactly the three specified widths. |
| TableInfo.DescribeWidthBounds | postgres-client-app.py:34-42 | The widths are at least 11, 9 and 11, and at least every column name, data type and constraints text in their column. |
| TableInfo.Describe | postgres-client-app.py:32-61 | The output is only the no-columns message iff there are no catalog rows; otherwise it has one line per catalog row plus five. |
| TableInfo.DescribeLayout | postgres-client-app.py:44-59 | Output order is title, rule, header, rule, one line per catalog row in order, and a closing rule with a newline. Every rule, the header and every data line have the same length. |
| TableInfo.DescribeRow | postgres-client-app.py:52-58 | Data line j is the column name, data type and constraints, each left-justified to its width and separated by the separator. |
| Text.LJust | postgres-client-app.py:54-56 | `ljust` keeps the text and adds spaces up to the width; a text that is already that long is unchanged. |
| Text.Dashes | postgres-client-app.py:47 | A rule is exactly n dash characters. |
| Text.TrimLeft | postgres-client-app.py:104 | Leading strip: the result is a suffix, everything removed is whitespace, and the result does not start with whitespace. |
| Text.TrimRight | postgres-client-app.py:104 | Trailing strip: the result is a prefix, everything removed is whitespace, and the result does not end with whitespace. |
| Text.StripShape | postgres-client-app.py:104 | `strip()` returns the middle of the text, with only whitespace before and after it; the result neither starts nor ends with whitespace. |
| Text.StripFirst | postgres-client-app.py:104 | A text whose first character is not whitespace keeps that character first under `strip()`. |
| Text.StripPadding | postgres-client-app.py:104 | Whitespace around a line does not change its `strip()`. |
| Text.LowerChar | postgres-client-app.py:104 | An ASCII capital becomes its own small letter, 32 code points up; every other character is unchanged. |
| Text.Lower | postgres-client-app.py:104 | Lowercasing keeps the length and leaves no ASCII capital; each character is kept or is replaced by the small partner of the capital it was. |
| Text.LowerIgnoresCase | postgres-client-app.py:104 | Texts that differ only in ASCII letter case lowercase to the same text. |
| Text.JoinWith | postgres-client-app.py:79 | Joining no parts gives the empty text and joining one part gives that part; `Text.SplitJoin` shows it undoes a split. |
| Text.SplitOn | postgres-client-app.py:109 | `split(" ")` yields at least one piece, and no piece contains the split character. |
| Text.SplitJoin | postgres-client-app.py:109 | Joining the pieces of a split with the split character gives back the input. |
| Text.SplitHead | postgres-client-app.py:109 | The first piece of a split is the text up to the first occurrence of the split character. |
| Text.SplitAfter | postgres-client-app.py:109 | A prefix without the split character, followed by that character, becomes the first piece. |
| Text.NatToString | postgres-client-app.py:89 | `str(n)` is a non-empty string of digits without a leading zero. |
| Text.DecimalRoundTrip | postgres-client-app.py:89 | Reading back the numeral of n gives n. |
| Repl.Classify | postgres-client-app.py:104-113 | Exit iff the stripped, lowercased line is `exit`. Describe iff the line starts with `\t `, and its table name is the text after the prefix up to the next space. Select iff neither of those and the stripped, lowercased line starts with `select`. Statements carry the line verbatim. |
| Repl.DescribeIsNotExit | postgres-client-app.py:104-108 | No line starting with `\t ` reads as `exit`, so the exit check and the prefix check never compete. |
| Repl.DescribeTableName | postgres-client-app.py:108-109 | For a describe request, `split(" ")[1]` always exists and is the text after the prefix up to the next space. |
| Repl.EmptyTableName | postgres-client-app.py:109 | Two spaces after `\t` give an empty table name. |
| Repl.ExitIgnoresPadding | postgres-client-app.py:104 | Surrounding whitespace does not change whether a line means exit. |
| Repl.ExitIgnoresCase | postgres-client-app.py:104 | Lines equal up to ASCII letter case agree on whether they mean exit. |
| Repl.CapitalExitWord | postgres-client-app.py:104 | `Exit` and `exit` are equal up to ASCII letter case. |
| Repl.ExitPlain | postgres-client-app.py:104 | `exit` is classified as Exit. |
| Repl.ExitCapital | postgres-client-app.py:104 | `Exit` is classified as Exit. |
| Repl.ExitPadded | postgres-client-app.py:104 | `  exit  ` is classified as Exit. |
| Repl.Dispatch | postgres-client-app.py:104-121 | The connection is closed iff the line is exit. Any failure of a non-exit line rolls back. A commit happens iff a statement succeeded. The loop goes on iff the line is not exit and either its work succeeded or the rollback did; a failing rollback in the exception handler ends the program. |
| Repl.Effective | postgres-client-app.py:112 | Inside an aborted transaction every query fails; otherwise the query's outcome is the database's. |
| Repl.NeverLeftAborted | postgres-client-app.py:112-121 | From a usable connection, no line leaves the transaction aborted, because every failure is rolled back (a failure left alone would leave it aborted). The connection ends closed iff the line was exit, the program ends iff a failure's rollback failed too, and a statement that does not end the program leaves nothing pending. |
| Repl.RecoversAfterError | postgres-client-app.py:119-121 | After a failed line whose rollback went through the connection is idle, and a statement that then succeeds is committed and leaves it idle. |

## Findings

| source | as written | input that shows it | evidently intended | confidence | as-written member | corrected member |
|---|---|---|---|---|---|---|
| postgres-client-app.py:74-87 | Row values come from `row.values()` of a dictionary keyed by column name. Repeated column names collapse into one entry holding the later value. | `SELECT 1 AS id, 2 AS id`: the header (`id`, separator, `id`) is 7 characters, but the data line is `2 `, 2 characters | one cell per column, with every data line as long as the header | medium; not executed; follows from the dict-row cursor's semantics | ResultSet.DuplicateNamesMisalign (on ResultSet.AsWrittenFormat) | ResultSet.FormatLayout (on ResultSet.Format) |

The rest of the model reads a row's values by position, one per column. `ResultSet.AsWrittenAgreesWhenDistinct` shows that, for
any rows, the positional `Format` prints exactly what the dict-row
`AsWrittenFormat` prints whenever column names are distinct.

## Left out

- `connect_to_postgres` (postgres-client-app.py:5-22) is left out. It is a driver connect call, a configuration import and `exit(1)`.
- The driver's `execute`, `fetchall`, `description`, `rowcount`, `commit`, `rollback` and `close` are foreign calls. Their results enter the model as parameters: column names, rows, catalog rows, the `Outcome` of a line's `try` block, and the `Outcome` of the rollback.
- `Repl.AfterLine`, `Repl.Effective` and the `TxState` type are an abstraction of the driver's transaction state, not code from the source.
- Console input, printing and the `while True` loop are left out. Each function returns the strings passed to `print`, one element per call. Classification and dispatch are modelled for a single line.
- The messages `Operation successful, <n> rows affected`, `Error: <error>` and `Goodbye!` are not modelled. The first depends on the driver's `rowcount`.
- The SQL text built by interpolating the table name (postgres-client-app.py:29) is left out. What that query returns, including under injection, is decided by the database.
- Python's `str()` of driver values (integers, `None`, dates) is left out. Values arrive already as text.
- Text.Lower: lowercases ASCII letters only. Python's `str.lower` also maps non-ASCII letters, so a line containing them may lowercase differently than in Python.
- Repl.Dispatch: `exit` always closes successfully. A failure in `conn.close()` is not modelled.
- Repl.Dispatch: a `conn.commit()` that raises is not told apart from a failing query. The line's `Outcome` covers the whole `try` block, commit included, so a failing commit is a `Failed` outcome and leads to the rollback.
