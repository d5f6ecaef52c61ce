/** Python's indentation rule (section 2.1.8 of the Python Language
    Reference), applied to the logical lines of `try_read_file`. The
    tokenizer keeps a stack of indentation columns, starting at 0. A deeper
    line pushes its column; a shallower line pops every deeper column, and
    must then land exactly on a column still on the stack, or the file is
    rejected with an `IndentationError` before anything runs. */
module Indentation {
  import opened Sequences

  /** Columns strictly increasing from 0, as the tokenizer's stack always is. */
  predicate ValidStack(stack: seq<nat>) {
    && |stack| >= 1 && stack[0] == 0
    && forall i, j :: 0 <= i < j < |stack| ==> stack[i] < stack[j]
  }

  /** The stack after a logical line at column `col`, or None when the line
      dedents to a column that no enclosing block uses. */
  function Step(stack: seq<nat>, col: nat): (r: Option<seq<nat>>)
    requires |stack| >= 1
    ensures r.Some? ==> |r.value| >= 1
  {
    if col > stack[|stack| - 1] then Some(stack + [col]) else Dedent(stack, col)
  }

  /** Pops the columns deeper than `col`; the line must then sit exactly on
      the column left on top. */
  function Dedent(stack: seq<nat>, col: nat): (r: Option<seq<nat>>)
    requires |stack| >= 1
    ensures r.Some? ==> 1 <= |r.value| <= |stack|
    decreases |stack|
  {
    var top := stack[|stack| - 1];
    if col == top then Some(stack)
    else if col > top || |stack| == 1 then None
    else Dedent(stack[..|stack| - 1], col)
  }

  /** A dedent succeeds exactly when its column is on the stack, and leaves
      the stack cut just after that column. */
  lemma {:induction false} DedentIff(stack: seq<nat>, col: nat)
    requires ValidStack(stack)
    ensures Dedent(stack, col).Some? <==> col in stack
    ensures Dedent(stack, col).Some? ==>
      var next := Dedent(stack, col).value;
      && 1 <= |next| <= |stack| && next == stack[..|next|] && next[|next| - 1] == col
    decreases |stack|
  {
    var top := stack[|stack| - 1];
    if col > top {
      forall i | 0 <= i < |stack| ensures stack[i] != col {
        assert i == |stack| - 1 || stack[i] < top;
      }
    } else if col < top {
      var init := stack[..|stack| - 1];
      assert ValidStack(init);
      DedentIff(init, col);
      assert stack == init + [top];
    }
  }

  /** A prefix of a valid stack is valid. */
  lemma PrefixValid(stack: seq<nat>, n: nat)
    requires ValidStack(stack) && 1 <= n <= |stack|
    ensures ValidStack(stack[..n])
  {
  }

  /** A line is accepted exactly when it indents further or returns to a
      column on the stack; the new stack is valid again and ends at that column. */
  lemma StepAcceptsIff(stack: seq<nat>, col: nat)
    requires ValidStack(stack)
    ensures Step(stack, col).Some? <==> col > stack[|stack| - 1] || col in stack
    ensures Step(stack, col).Some? ==>
      ValidStack(Step(stack, col).value) && Step(stack, col).value[|Step(stack, col).value| - 1] == col
  {
    var top := stack[|stack| - 1];
    if col > top {
      var next := stack + [col];
      forall i, j | 0 <= i < j < |next| ensures next[i] < next[j] {
        assert i < |stack|;
        assert j == |stack| || stack[j] <= top;
      }
    } else {
      DedentIff(stack, col);
      if Dedent(stack, col).Some? {
        PrefixValid(stack, |Dedent(stack, col).value|);
      }
    }
  }

  /** The stack after a run of logical lines, or None at the first rejected one. */
  function Run(stack: seq<nat>, cols: seq<nat>): (r: Option<seq<nat>>)
    requires |stack| >= 1
    decreases |cols|
  {
    if cols == [] then Some(stack)
    else
      match Step(stack, cols[0])
      case None => None
      case Some(next) => Run(next, cols[1..])
  }

  /** A run of lines the tokenizer accepts. */
  predicate Accepted(cols: seq<nat>) {
    Run([0], cols).Some?
  }

  /** The columns of `try_read_file`'s logical lines as written: `def`, the
      `encodings` list (five spaces), `raw`, `for`, `try`, `return`, `except`,
      `continue`, `st.error`, `return []`. */
  const AsWrittenColumns: seq<nat> := [0, 5, 4, 4, 8, 12, 8, 12, 4, 4]

  /** The same lines with the `encodings` list at the body's four spaces. */
  const IntendedColumns: seq<nat> := [0, 4, 4, 4, 8, 12, 8, 12, 4, 4]

  /** Running from line k is taking line k's step, then running from line k + 1. */
  lemma RunLine(stack: seq<nat>, cols: seq<nat>, k: nat, next: seq<nat>)
    requires |stack| >= 1 && |next| >= 1 && k < |cols|
    requires Step(stack, cols[k]) == Some(next)
    ensures Run(stack, cols[k..]) == Run(next, cols[k + 1..])
  {
    assert cols[k..][0] == cols[k] && cols[k..][1..] == cols[k + 1..];
  }

  /** As written, the function is rejected, and at its third logical line:
      after `def` (column 0) and the list (column 5), `raw` at column 4
      matches no column on the stack. */
  lemma AsWrittenRejected()
    ensures Run([0], AsWrittenColumns[..2]) == Some([0, 5])
    ensures Step([0, 5], AsWrittenColumns[2]).None?
    ensures !Accepted(AsWrittenColumns)
  {
    var cols := AsWrittenColumns;
    assert [0] + [5] == [0, 5];
    assert [0, 5][..1] == [0];
    assert Step([0, 5], 4).None?;
    RunLine([0], cols[..2], 0, [0]);
    RunLine([0], cols[..2], 1, [0, 5]);
    assert cols[..2][2..] == [];
    RunLine([0], cols, 0, [0]);
    RunLine([0], cols, 1, [0, 5]);
    assert cols[2..][0] == 4;
  }

  /** With the intended indentation every line is accepted, and the function
      ends back at the body's column with the module level still below it. */
  lemma IntendedAccepted()
    ensures Accepted(IntendedColumns)
    ensures Run([0], IntendedColumns) == Some([0, 4])
  {
    var cols := IntendedColumns;
    assert [0] + [4] == [0, 4];
    RunLine([0], cols, 0, [0]);
    RunLine([0], cols, 1, [0, 4]);
    IntendedBody();
  }

  /** From `raw` on, the body opens the loop and its `try`, closes them, and
      returns to the body's column. */
  lemma IntendedBody()
    ensures Run([0, 4], IntendedColumns[2..]) == Some([0, 4])
  {
    var cols := IntendedColumns;
    assert [0, 4] + [8] == [0, 4, 8];
    RunLine([0, 4], cols, 2, [0, 4]);
    RunLine([0, 4], cols, 3, [0, 4]);
    RunLine([0, 4], cols, 4, [0, 4, 8]);
    IntendedLoop();
  }

  /** The `try`/`except` pair inside the loop, then the two closing lines. */
  lemma IntendedLoop()
    ensures Run([0, 4, 8], IntendedColumns[5..]) == Some([0, 4])
  {
    var cols := IntendedColumns;
    var inner := [0, 4, 8, 12];
    assert [0, 4, 8] + [12] == inner;
    assert inner[..3] == [0, 4, 8];
    assert Dedent(inner, 8) == Some([0, 4, 8]);
    RunLine([0, 4, 8], cols, 5, inner);
    RunLine(inner, cols, 6, [0, 4, 8]);
    RunLine([0, 4, 8], cols, 7, inner);
    IntendedClose();
  }

  /** `st.error` leaves both the `try` and the loop; `return []` stays put. */
  lemma IntendedClose()
    ensures Run([0, 4, 8, 12], IntendedColumns[8..]) == Some([0, 4])
  {
    var cols := IntendedColumns;
    var inner := [0, 4, 8, 12];
    assert inner[..3] == [0, 4, 8] && [0, 4, 8][..2] == [0, 4];
    assert Dedent(inner, 4) == Some([0, 4]);
    RunLine(inner, cols, 8, [0, 4]);
    RunLine([0, 4], cols, 9, [0, 4]);
    assert cols[10..] == [];
  }
}
