/**
 * One iteration of `repl`: how an input line is classified, and what the
 * loop does with the connection's transaction once the line has been
 * handled. Reading the line, printing, and the database calls themselves
 * are outside the model; the outcome of the database work is an input.
 */
module Repl {
  import opened Text

  /** The meta-command prefix: a backslash, the letter t, and a space. */
  const DescribePrefix: string := "\\t "

  datatype Command =
    | Exit
    | Describe(table: string)
    | Select(stmt: string)
    | Other(stmt: string)

  /**
   * The table name of a describe request: the text after the prefix up to
   * the next space (the second piece of `line.split(" ")`), possibly empty.
   */
  predicate IsTableNameOf(line: string, table: string)
    requires StartsWith(line, DescribePrefix)
  {
    var rest := line[|DescribePrefix|..];
    && StartsWith(rest, table)
    && ' ' !in table
    && (|table| == |rest| || rest[|table|] == ' ')
  }

  /** A line that starts with the prefix never reads as "exit", whatever its case or padding. */
  lemma DescribeIsNotExit(line: string)
    ensures StartsWith(line, DescribePrefix) ==> Strip(Lower(line)) != "exit"
  {
    if StartsWith(line, DescribePrefix) {
      var lowered := Lower(line);
      assert line[0] == '\\';
      assert lowered[0] == '\\';
      StripFirst(lowered);
    }
  }

  /** `line.split(" ")[1]` exists for a describe request and is its table name. */
  lemma DescribeTableName(line: string)
    requires StartsWith(line, DescribePrefix)
    ensures |SplitOn(line, ' ')| >= 2 && IsTableNameOf(line, SplitOn(line, ' ')[1])
  {
    var rest := line[|DescribePrefix|..];
    assert line == "\\t" + [' '] + rest;
    SplitAfter("\\t", ' ', rest);
    SplitHead(rest, ' ');
  }

  /**
   * The dispatch of `repl`, in its order: "exit" in any case and with any
   * surrounding whitespace first, then the describe prefix, then statements,
   * which are reads when they start with "select" in any case.
   */
  function Classify(line: string): (cmd: Command)
    ensures cmd.Exit? <==> Strip(Lower(line)) == "exit"
    ensures cmd.Describe? <==> StartsWith(line, DescribePrefix)
    ensures cmd.Describe? ==> IsTableNameOf(line, cmd.table)
    ensures cmd.Select? <==>
              && !StartsWith(line, DescribePrefix)
              && Strip(Lower(line)) != "exit"
              && StartsWith(Strip(Lower(line)), "select")
    ensures (cmd.Select? || cmd.Other?) ==> cmd.stmt == line
  {
    DescribeIsNotExit(line);
    var key := Strip(Lower(line));
    if key == "exit" then Exit
    else if StartsWith(line, DescribePrefix) then
      DescribeTableName(line);
      Describe(SplitOn(line, ' ')[1])
    else if StartsWith(key, "select") then Select(line)
    else Other(line)
  }

  /** Surrounding whitespace does not change whether a line asks to exit. */
  lemma ExitIgnoresPadding(p: string, line: string, q: string)
    requires AllSpace(p) && AllSpace(q)
    ensures Classify(p + line + q).Exit? <==> Classify(line).Exit?
  {
    LowerAppend(p, line);
    LowerAppend(p + line, q);
    LowerKeepsSpace(p);
    LowerKeepsSpace(q);
    StripPadding(Lower(p), Lower(line), Lower(q));
  }

  /** A word with no whitespace at either end is its own `strip()`. */
  lemma StripWord(word: string)
    requires |word| > 0 && !IsSpace(word[0]) && !IsSpace(word[|word| - 1])
    ensures Strip(word) == word
  {
    assert TrimLeft(word) == word;
  }

  /** "exit" with no padding is its own key. */
  lemma ExitKey()
    ensures Strip(Lower("exit")) == "exit"
  {
    var s := "exit";
    assert Lower(s) == s by {
      assert forall k :: 0 <= k < |s| ==> !IsUpper(s[k]);
    }
    StripWord(s);
  }

  /** Lines that differ only in ASCII letter case are classified alike as to exiting. */
  lemma ExitIgnoresCase(line: string, other: string)
    requires EqualUpToCase(line, other)
    ensures Classify(line).Exit? <==> Classify(other).Exit?
  {
    LowerIgnoresCase(line, other);
  }

  lemma ExitPlain()
    ensures Classify("exit") == Exit
  {
    ExitKey();
  }

  lemma CapitalExitWord()
    ensures EqualUpToCase("Exit", "exit")
  {
    var capital, small := "Exit", "exit";
    assert capital[0] == 'E' && small[0] == 'e';
    assert forall k :: 1 <= k < 4 ==> capital[k] == small[k];
  }

  lemma ExitCapital()
    ensures Classify("Exit") == Exit
  {
    CapitalExitWord();
    ExitKey();
    ExitIgnoresCase("Exit", "exit");
  }

  lemma ExitPadded()
    ensures Classify("  exit  ") == Exit
  {
    ExitPlain();
    assert "  exit  " == "  " + "exit" + "  ";
    ExitIgnoresPadding("  ", "exit", "  ");
  }

  /** Two spaces after `\t` give an empty table name. */
  lemma EmptyTableName(line: string)
    requires StartsWith(line, DescribePrefix + " ")
    ensures Classify(line) == Describe("")
  {
    assert line[..3] == line[..4][..3];
    assert StartsWith(line, DescribePrefix);
    var cmd := Classify(line);
    assert cmd.Describe?;
    assert line[3] == line[..4][3] == ' ';
    var rest := line[3..];
    assert rest[0] == ' ';
    assert ' ' in rest[..1];
  }

  // ---------------------------------------------------------------------------
  // Transactions
  // ---------------------------------------------------------------------------

  /**
   * What a piece of database work came to: done, or an exception. For a
   * line, it is the whole `try` block after classification (the query, the
   * printing and, for a statement, the commit); for the rollback, the
   * `conn.rollback()` call in the exception handler.
   */
  datatype Outcome = Succeeded | Failed(error: string)

  /** What the loop does with the connection afterwards. */
  datatype Action = Commit | Rollback | NoAction | Close

  datatype Step = Step(action: Action, continues: bool)

  /**
   * The branching after the work of one line: "exit" closes the connection
   * and ends the loop; any exception, from a describe or a statement, rolls
   * back; a statement that succeeded is committed; a describe that succeeded
   * leaves the transaction alone. The rollback sits in the exception handler,
   * outside the `try`, so when it fails too the exception leaves the loop
   * and the program ends.
   */
  function Dispatch(cmd: Command, outcome: Outcome, rollback: Outcome): (step: Step)
    ensures step.continues <==> !cmd.Exit? && (outcome.Succeeded? || rollback.Succeeded?)
    ensures step.action == Close <==> cmd.Exit?
    ensures step.action == Rollback <==> !cmd.Exit? && outcome.Failed?
    ensures step.action == Commit <==> (cmd.Select? || cmd.Other?) && outcome.Succeeded?
  {
    match cmd
    case Exit => Step(Close, false)
    case Describe(_) =>
      if outcome.Failed? then Step(Rollback, rollback.Succeeded?) else Step(NoAction, true)
    case _ =>
      if outcome.Failed? then Step(Rollback, rollback.Succeeded?) else Step(Commit, true)
  }

  /**
   * The connection's transaction state, as the driver keeps it: the first
   * query opens a transaction, a failed query leaves it aborted until a
   * rollback, and commit or rollback return it to idle. `Ended` is the state
   * after an exception escaped the loop.
   */
  datatype TxState = Idle | InTransaction | Aborted | Closed | Ended

  /** The server's refusal of any query inside an aborted transaction. */
  const AbortedError: string := "current transaction is aborted"

  /**
   * What the line's query comes to in a given transaction state: inside an
   * aborted transaction every query fails; otherwise the database decides.
   */
  function Effective(state: TxState, outcome: Outcome): (o: Outcome)
    ensures state == Aborted ==> o == Failed(AbortedError)
    ensures state != Aborted ==> o == outcome
  {
    if state == Aborted then Failed(AbortedError) else outcome
  }

  /**
   * The transaction state after handling one line, starting from `state`:
   * a query that failed and was not rolled back leaves the transaction aborted.
   */
  function AfterLine(state: TxState, cmd: Command, outcome: Outcome, rollback: Outcome): TxState {
    var o := Effective(state, outcome);
    var step := Dispatch(cmd, o, rollback);
    match step.action
    case Close => Closed
    case Commit => Idle
    case Rollback => if step.continues then Idle else Ended
    case NoAction => if o.Failed? then Aborted else if state == Idle then InTransaction else state
  }

  /**
   * Whenever the loop goes on to the next line, the connection is not left
   * in an aborted transaction, and after a statement nothing is left
   * pending. The loop stops exactly when the line was exit (the connection
   * is closed) or a failure's rollback failed as well.
   */
  lemma NeverLeftAborted(state: TxState, cmd: Command, outcome: Outcome, rollback: Outcome)
    requires state == Idle || state == InTransaction
    ensures var after := AfterLine(state, cmd, outcome, rollback);
            && after != Aborted
            && (after == Closed <==> cmd.Exit?)
            && (after == Ended <==> !cmd.Exit? && outcome.Failed? && rollback.Failed?)
            && ((cmd.Select? || cmd.Other?) && after != Ended ==> after == Idle)
  {
  }

  /**
   * Recovery from an error: after a line whose work failed and whose
   * rollback went through, the connection is idle, and a statement that
   * then succeeds is committed and leaves it idle again.
   */
  lemma RecoversAfterError(state: TxState, failed: Command, error: string, next: Command, rollback: Outcome)
    requires state == Idle || state == InTransaction
    requires !failed.Exit?
    requires next.Select? || next.Other?
    ensures var s1 := AfterLine(state, failed, Failed(error), Succeeded);
            && s1 == Idle
            && Dispatch(next, Effective(s1, Succeeded), rollback).action == Commit
            && AfterLine(s1, next, Succeeded, rollback) == Idle
  {
  }
}
