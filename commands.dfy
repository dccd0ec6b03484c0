/** The command log: tagged edit records, executing and inverting them, and
    the LIFO stack they are kept on (top of the stack at index 0). */
module Commands {
  import opened Points
  import opened EditorCore

  datatype CmdType = Add | Delete | NewRow | DelRow

  /** A logged edit. `rows`/`numrows` are the payload of `Add` and `Delete`;
      the other two kinds carry none (the model gives them `[]` and 0). */
  datatype Command = Command(at: Point, rows: seq<seq<char>>, numrows: int, kind: CmdType)

  /** `insertRange(E, at, rows, numrows)` has no definition among the modelled
      files, so every operation that reaches it takes it as a parameter. */
  type InsertRangeFn = (Buffer, Point, seq<seq<char>>, int) -> Buffer

  /** The end point `doCommand` computes for a `Delete`: the row `numrows - 1`
      below `at`, at the last payload row's last column, shifted by `at.c`
      when the payload is a single row. */
  function DeleteEnd(cmd: Command): (end: Point)
    requires 1 <= cmd.numrows <= |cmd.rows|
    ensures end.r - cmd.at.r == cmd.numrows - 1
    ensures cmd.numrows == 1 ==> end.c == cmd.at.c + |cmd.rows[0]| - 1
    ensures cmd.numrows > 1 ==> end.c == |cmd.rows[cmd.numrows - 1]| - 1
  {
    var lastC := |cmd.rows[cmd.numrows - 1]| - 1;
    Point(cmd.numrows - 1 + cmd.at.r, if cmd.numrows == 1 then lastC + cmd.at.c else lastC)
  }

  /** `doCommand` can run `cmd` on `rows`: a `Delete` needs a payload to read
      its end point from and an end point `deleteRange` accepts. */
  predicate CanDo(rows: Buffer, cmd: Command)
  {
    cmd.kind == Delete ==> 1 <= cmd.numrows <= |cmd.rows| && DeleteRangeOk(rows, cmd.at, DeleteEnd(cmd))
  }

  /** The rows after `doCommand`: only `Add` and `Delete` have an arm. */
  function Done(rows: Buffer, cmd: Command, insertRange: InsertRangeFn): (r: Buffer)
    requires CanDo(rows, cmd)
    ensures cmd.kind == NewRow || cmd.kind == DelRow ==> r == rows
    ensures cmd.kind == Add ==> r == insertRange(rows, cmd.at, cmd.rows, cmd.numrows)
    ensures cmd.kind == Delete ==> r == RangeDeleted(rows, cmd.at, DeleteEnd(cmd))
  {
    match cmd.kind
    case Add => insertRange(rows, cmd.at, cmd.rows, cmd.numrows)
    case Delete => RangeDeleted(rows, cmd.at, DeleteEnd(cmd))
    case _ => rows
  }

  /** The copy `undoCommand` runs: `Add` and `Delete` swapped, everything else kept. */
  function Inverse(cmd: Command): (inv: Command)
    ensures inv.at == cmd.at && inv.rows == cmd.rows && inv.numrows == cmd.numrows
    ensures cmd.kind == Add <==> inv.kind == Delete
    ensures cmd.kind == Delete <==> inv.kind == Add
    ensures cmd.kind == NewRow <==> inv.kind == NewRow
    ensures cmd.kind == DelRow <==> inv.kind == DelRow
  {
    var kind := match cmd.kind
      case Add => Delete
      case Delete => Add
      case k => k;
    cmd.(kind := kind)
  }

  /** Swapping twice gives the original command back. */
  lemma InverseInvolution(cmd: Command)
    ensures Inverse(Inverse(cmd)) == cmd
  {
  }

  /** Undoing a `NewRow` or `DelRow` leaves the buffer as it is, like doing one. */
  lemma RowCommandsChangeNothing(rows: Buffer, cmd: Command, insertRange: InsertRangeFn)
    requires cmd.kind == NewRow || cmd.kind == DelRow
    ensures CanDo(rows, cmd) && CanDo(rows, Inverse(cmd))
    ensures Done(rows, cmd, insertRange) == rows && Done(rows, Inverse(cmd), insertRange) == rows
  {
  }

  /** A one-character, one-row `Delete` (what Backspace builds) ends where it
      starts, so `deleteRange` takes its single-character path. */
  lemma SingleCharDeleteEnd(cmd: Command)
    requires cmd.numrows == 1 && |cmd.rows| >= 1 && |cmd.rows[0]| == 1
    ensures DeleteEnd(cmd) == cmd.at
  {
  }

  /** Undoing the one-character `Add` of a typed key, once that character is
      in the row at `at`, removes exactly that character. */
  lemma UndoTypedChar(rows: Buffer, at: Point, ch: char, insertRange: InsertRangeFn)
    requires 0 <= at.r < |rows| && 0 <= at.c <= |rows[at.r]|
    ensures var typed := rows[at.r := CharInserted(rows[at.r], at.c, ch)];
      var cmd := Command(at, [[ch]], 1, Add);
      CanDo(typed, Inverse(cmd)) && Done(typed, Inverse(cmd), insertRange) == rows
  {
    var typed := rows[at.r := CharInserted(rows[at.r], at.c, ch)];
    var inv := Inverse(Command(at, [[ch]], 1, Add));
    SingleCharDeleteEnd(inv);
    assert typed[at.r := CharDeleted(typed[at.r], at.c)] == rows by {
      DeleteUndoesInsert(rows[at.r], at.c, ch);
    }
  }

  method DoCommand(e: Editor, cmd: Command, insertRange: InsertRangeFn)
    requires CanDo(e.rows, cmd)
    modifies e
    ensures e.rows == Done(old(e.rows), cmd, insertRange) && e.clipboard == old(e.clipboard)
  {
    if cmd.kind == Add {
      e.rows := insertRange(e.rows, cmd.at, cmd.rows, cmd.numrows);
    } else if cmd.kind == Delete {
      var lastC := |cmd.rows[cmd.numrows - 1]| - 1;
      if cmd.numrows == 1 {
        lastC := lastC + cmd.at.c;
      }
      var end := Point(cmd.numrows - 1 + cmd.at.r, lastC);
      assert end == DeleteEnd(cmd);
      e.DeleteRange(cmd.at, end);
    }
  }

  method UndoCommand(e: Editor, cmd: Command, insertRange: InsertRangeFn)
    requires CanDo(e.rows, Inverse(cmd))
    modifies e
    ensures e.rows == Done(old(e.rows), Inverse(cmd), insertRange) && e.clipboard == old(e.clipboard)
  {
    var inv := cmd;
    if inv.kind == Add {
      inv := inv.(kind := Delete);
    } else if inv.kind == Delete {
      inv := inv.(kind := Add);
    }
    DoCommand(e, inv, insertRange);
  }

  // ---------------------------------------------------------------------
  // The command stack
  // ---------------------------------------------------------------------

  /** `push`: the new node is the top, the old stack its tail. */
  function Push(pushed: Command, stack: seq<Command>): (r: seq<Command>)
    ensures |r| == |stack| + 1 && r[0] == pushed && r[1..] == stack
  {
    [pushed] + stack
  }

  /** `remove_node`: an empty stack stays empty, otherwise the top is dropped. */
  function RemoveNode(stack: seq<Command>): (r: seq<Command>)
    ensures stack == [] ==> r == []
    ensures stack != [] ==> |r| == |stack| - 1 && [stack[0]] + r == stack
  {
    if stack == [] then [] else stack[1..]
  }

  /** Popping after pushing gives back the original stack. */
  lemma PopAfterPush(c: Command, stack: seq<Command>)
    ensures RemoveNode(Push(c, stack)) == stack
  {
  }
}
