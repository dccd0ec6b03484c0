/** The row store and range editor: a buffer of text rows that is never empty,
    character and string splices inside one row, row insertion, splitting and
    removal, multi-row range deletion, the clipboard, and the line format of
    the file loader and saver. */
module EditorCore {
  import opened Points
  import opened Wrappers

  /** The rows of an editor; `editorFromFile` always creates row 0 first and
      `deleteRow` refuses to remove the last row, so there is at least one. */
  type Buffer = rows: seq<seq<char>> | |rows| >= 1 witness [[]]

  // ---------------------------------------------------------------------
  // Splices inside one row (erow text with its explicit length)
  // ---------------------------------------------------------------------

  /** The row after `insertChar(row, pos, ch)`. */
  function CharInserted(s: seq<char>, pos: nat, ch: char): (r: seq<char>)
    requires pos <= |s|
    ensures |r| == |s| + 1 && r[pos] == ch
    ensures forall i :: 0 <= i < pos ==> r[i] == s[i]
    ensures forall i :: pos < i < |r| ==> r[i] == s[i - 1]
  {
    s[..pos] + [ch] + s[pos..]
  }

  /** The row after `insertString(row, pos, str, len)`: the first `len` bytes of `str` spliced in at `pos`. */
  function StringInserted(s: seq<char>, pos: nat, str: seq<char>, len: nat): (r: seq<char>)
    requires pos <= |s| && len <= |str|
    ensures |r| == |s| + len
    ensures r[..pos] == s[..pos] && r[pos..pos + len] == str[..len] && r[pos + len..] == s[pos..]
    ensures len == 0 ==> r == s
  {
    if len == 0 then s else s[..pos] + str[..len] + s[pos..]
  }

  /** The row after `deleteChar(row, pos)`. */
  function CharDeleted(s: seq<char>, pos: nat): (r: seq<char>)
    requires pos < |s|
    ensures |r| == |s| - 1
    ensures forall i :: 0 <= i < pos ==> r[i] == s[i]
    ensures forall i :: pos <= i < |r| ==> r[i] == s[i + 1]
  {
    s[..pos] + s[pos + 1..]
  }

  /** Deleting the character just inserted gives the row back. */
  lemma DeleteUndoesInsert(s: seq<char>, pos: nat, ch: char)
    requires pos <= |s|
    ensures CharDeleted(CharInserted(s, pos, ch), pos) == s
  {
    var t := CharInserted(s, pos, ch);
    var u := CharDeleted(t, pos);
    assert |u| == |s|;
    forall i | 0 <= i < |s| ensures u[i] == s[i] {
      if i >= pos { assert u[i] == t[i + 1]; }
    }
  }

  /** Putting a deleted character back where it was restores the row. */
  lemma InsertUndoesDelete(s: seq<char>, pos: nat)
    requires pos < |s|
    ensures CharInserted(CharDeleted(s, pos), pos, s[pos]) == s
  {
    var t := CharDeleted(s, pos);
    var u := CharInserted(t, pos, s[pos]);
    assert |u| == |s|;
    forall i | 0 <= i < |s| ensures u[i] == s[i] {
      if i > pos { assert u[i] == t[i - 1]; }
    }
  }

  /** Inserting a string of one character is inserting that character. */
  lemma OneCharString(s: seq<char>, pos: nat, ch: char)
    requires pos <= |s|
    ensures StringInserted(s, pos, [ch], 1) == CharInserted(s, pos, ch)
  {
  }

  // ---------------------------------------------------------------------
  // Whole-row operations on the buffer
  // ---------------------------------------------------------------------

  /** The rows after `newRow(E, at)`. */
  function RowAdded(rows: Buffer, at: nat): (r: Buffer)
    requires at <= |rows|
    ensures |r| == |rows| + 1 && r[at] == []
    ensures forall i :: 0 <= i < at ==> r[i] == rows[i]
    ensures forall i :: at < i < |r| ==> r[i] == rows[i - 1]
  {
    rows[..at] + [[]] + rows[at..]
  }

  /** The rows after `insertNewline(E, row, col)`. */
  function RowSplit(rows: Buffer, row: nat, col: nat): (r: Buffer)
    requires row < |rows| && col <= |rows[row]|
    ensures |r| == |rows| + 1
    ensures r[row] + r[row + 1] == rows[row] && |r[row]| == col
    ensures r[..row] == rows[..row] && r[row + 2..] == rows[row + 1..]
  {
    rows[..row] + [rows[row][..col], rows[row][col..]] + rows[row + 1..]
  }

  /** The rows after `deleteRow(E, idx)`: the sole row is never removed. */
  function RowRemoved(rows: Buffer, idx: nat): (r: Buffer)
    requires idx < |rows|
    ensures |rows| == 1 ==> r == rows
    ensures |rows| > 1 ==> |r| == |rows| - 1 && r[..idx] == rows[..idx] && r[idx..] == rows[idx + 1..]
  {
    if |rows| == 1 then rows else rows[..idx] + rows[idx + 1..]
  }

  /** Inserting an empty row and removing it again restores the buffer. */
  lemma RemoveUndoesAdd(rows: Buffer, at: nat)
    requires at <= |rows|
    ensures RowRemoved(RowAdded(rows, at), at) == rows
  {
    var t := RowAdded(rows, at);
    assert t[..at] == rows[..at];
    assert t[at + 1..] == rows[at..];
    assert rows == rows[..at] + rows[at..];
  }

  // ---------------------------------------------------------------------
  // deleteRange
  // ---------------------------------------------------------------------

  /** What is left of the end row once its columns `[0, from)` are consumed
      (the source clamps the remaining length at 0). */
  function Suffix(s: seq<char>, from: int): (r: seq<char>)
    requires from >= 0
    ensures |r| == Max(0, |s| - from) && r == s[|s| - |r|..]
  {
    if from >= |s| then [] else s[from..]
  }

  /** The positions `deleteRange(E, start, end)` can be called with without
      breaking an assertion or reading outside a row. */
  predicate DeleteRangeOk(rows: Buffer, start: Point, end: Point)
  {
    && 0 <= start.r < |rows|
    && (if start == end then
          |rows[start.r]| > 0 ==> 0 <= start.c < |rows[start.r]|
        else if start.r == end.r then
          0 <= start.c <= end.c + 1 && end.c < |rows[start.r]|
        else
          start.r < end.r < |rows| && 0 <= start.c <= |rows[start.r]| && end.c >= -1)
  }

  /** The rows after `deleteRange(E, start, end)`. */
  function RangeDeleted(rows: Buffer, start: Point, end: Point): (r: Buffer)
    requires DeleteRangeOk(rows, start, end)
    ensures start == end && |rows[start.r]| == 0 ==> r == RowRemoved(rows, start.r)
    ensures start == end && |rows[start.r]| > 0 ==> r == rows[start.r := CharDeleted(rows[start.r], start.c)]
    ensures start != end && start.r == end.r ==>
      r == rows[start.r := rows[start.r][..start.c] + rows[start.r][end.c + 1..]]
    ensures start.r < end.r ==>
      && |r| == |rows| - (end.r - start.r)
      && r[..start.r] == rows[..start.r]
      && r[start.r] == rows[start.r][..start.c] + Suffix(rows[end.r], end.c + 1)
      && r[start.r + 1..] == rows[end.r + 1..]
  {
    if start == end then
      if |rows[start.r]| == 0 then RowRemoved(rows, start.r)
      else rows[start.r := CharDeleted(rows[start.r], start.c)]
    else if start.r == end.r then
      rows[start.r := rows[start.r][..start.c] + rows[start.r][end.c + 1..]]
    else
      rows[..start.r] + [rows[start.r][..start.c] + Suffix(rows[end.r], end.c + 1)] + rows[end.r + 1..]
  }

  /** On one row, the span `[start.c, end.c]` is exactly what disappears:
      putting it back at `start.c` restores the row. */
  lemma SameRowDeleteRestores(rows: Buffer, start: Point, end: Point)
    requires DeleteRangeOk(rows, start, end) && start.r == end.r
    requires |rows[start.r]| > 0 || start != end
    ensures 0 <= start.c <= end.c + 1 <= |rows[start.r]|
    ensures var removed := rows[start.r][start.c..end.c + 1];
      var after := RangeDeleted(rows, start, end);
      && |after| == |rows|
      && StringInserted(after[start.r], start.c, removed, |removed|) == rows[start.r]
  {
    var row := rows[start.r];
    var removed := row[start.c..end.c + 1];
    var after := RangeDeleted(rows, start, end);
    assert after[start.r] == row[..start.c] + row[end.c + 1..];
    assert row == row[..start.c] + removed + row[end.c + 1..];
  }

  /** Only a degenerate range on an empty row changes the number of rows
      within one row; a multi-row range removes `end.r - start.r` rows. */
  lemma RangeDeleteRowCount(rows: Buffer, start: Point, end: Point)
    requires DeleteRangeOk(rows, start, end)
    ensures |RangeDeleted(rows, start, end)| ==
      if start == end && |rows[start.r]| == 0 && |rows| > 1 then |rows| - 1
      else if start.r == end.r then |rows|
      else |rows| - (end.r - start.r)
  {
  }

  // ---------------------------------------------------------------------
  // Clipboard
  // ---------------------------------------------------------------------

  /** The last clipboard row: the end row's bytes `[0, endc]`. When `endc`
      equals the row length (yanking an empty row) the byte after the content
      is copied too; the model takes that byte to be a NUL terminator, as it
      takes every row to be terminated right at its length. */
  function LastPiece(s: seq<char>, endc: int): (r: seq<char>)
    requires -1 <= endc <= |s|
    ensures |r| == endc + 1
    ensures endc < |s| ==> r == s[..endc + 1]
    ensures endc == |s| ==> r == s + ['\0']
  {
    if endc < |s| then s[..endc + 1] else s + ['\0']
  }

  predicate CopyOk(rows: Buffer, start: Point, end: Point)
  {
    && 0 <= start.r <= end.r < |rows|
    && 0 <= start.c <= |rows[start.r]|
    && -1 <= end.c <= |rows[end.r]|
  }

  /** The clipboard after `copyToClipboard(E, start, end)`. */
  function Clipped(rows: Buffer, start: Point, end: Point): (clip: seq<seq<char>>)
    requires CopyOk(rows, start, end)
    ensures |clip| == end.r - start.r + 1
    ensures clip[|clip| - 1] == LastPiece(rows[end.r], end.c)
    ensures |clip| > 1 ==> clip[0] == rows[start.r][start.c..]
    ensures forall i :: 0 < i < |clip| - 1 ==> clip[i] == rows[start.r + i]
  {
    var n := end.r - start.r + 1;
    if n == 1 then [LastPiece(rows[end.r], end.c)]
    else [rows[start.r][start.c..]] + rows[start.r + 1..end.r] + [LastPiece(rows[end.r], end.c)]
  }

  /** The single-row yank ignores the start column: it copies from column 0. */
  lemma SingleRowCopyFromColumnZero(rows: Buffer, start: Point, end: Point)
    requires CopyOk(rows, start, end) && start.r == end.r && end.c < |rows[end.r]|
    ensures Clipped(rows, start, end) == [rows[end.r][..end.c + 1]]
    ensures Clipped(rows, start, end) == Clipped(rows, Point(start.r, 0), end)
  {
  }

  /** The rows after `pasteClipboard(E, at)`: the first clipboard row is spliced
      into row `at.r` at `at.c` (the row is not split) and the other clipboard
      rows become new rows right after it. */
  function Pasted(rows: Buffer, at: Point, clip: seq<seq<char>>): (r: Buffer)
    requires 0 <= at.r < |rows| && 0 <= at.c <= |rows[at.r]| && |clip| >= 1
    ensures |r| == |rows| + |clip| - 1
    ensures r[..at.r] == rows[..at.r]
    ensures r[at.r] == StringInserted(rows[at.r], at.c, clip[0], |clip[0]|)
    ensures r[at.r + 1..at.r + |clip|] == clip[1..]
    ensures r[at.r + |clip|..] == rows[at.r + 1..]
  {
    rows[..at.r] + [StringInserted(rows[at.r], at.c, clip[0], |clip[0]|)] + clip[1..] + rows[at.r + 1..]
  }

  /** Yanking a whole non-empty row and pasting it at the start of an empty
      row makes that row a copy of the yanked one; every paste of the same
      clipboard inserts the same text. */
  lemma YankLinePasteOnEmptyRow(rows: Buffer, src: nat, dst: nat)
    requires src < |rows| && dst < |rows| && |rows[src]| > 0 && rows[dst] == []
    ensures var clip := Clipped(rows, Point(src, 0), Point(src, |rows[src]| - 1));
      clip == [rows[src]] && Pasted(rows, Point(dst, 0), clip)[dst] == rows[src]
  {
    var clip := Clipped(rows, Point(src, 0), Point(src, |rows[src]| - 1));
    assert clip == [rows[src][..|rows[src]|]];
    assert rows[src][..|rows[src]|] == rows[src];
  }

  // ---------------------------------------------------------------------
  // File format: load splits on '\n', drops every '\r'; save writes row + '\n'
  // ---------------------------------------------------------------------

  /** One byte of the load loop: a newline opens a new last row, a carriage
      return is dropped, any other byte is appended to the last row. */
  function LoadStep(acc: Buffer, b: char): (r: Buffer)
    ensures b == '\n' ==> r == acc + [[]]
    ensures b == '\r' ==> r == acc
    ensures b != '\n' && b != '\r' ==>
      |r| == |acc| && r[..|acc| - 1] == acc[..|acc| - 1] && r[|acc| - 1] == acc[|acc| - 1] + [b]
  {
    if b == '\n' then acc + [[]]
    else if b == '\r' then acc
    else acc[|acc| - 1 := acc[|acc| - 1] + [b]]
  }

  /** The rows the load loop has built after consuming `bytes`, starting from `acc`. */
  function Scan(acc: Buffer, bytes: seq<char>): Buffer
    decreases |bytes|
  {
    if |bytes| == 0 then acc else Scan(LoadStep(acc, bytes[0]), bytes[1..])
  }

  /** A final empty row left by the last line terminator is dropped, unless it is the only row. */
  function Trimmed(rows: Buffer): (r: Buffer)
    ensures |rows| - 1 <= |r| <= |rows| && r == rows[..|r|]
    ensures |r| == |rows| - 1 <==> |rows| > 1 && rows[|rows| - 1] == []
  {
    if |rows| > 1 && |rows[|rows| - 1]| == 0 then rows[..|rows| - 1] else rows
  }

  /** The rows of `editorFromFile`: `None` is a file that cannot be opened. */
  function Loaded(file: Option<seq<char>>): (r: Buffer)
    ensures file.None? ==> r == [[]]
  {
    match file
    case None => [[]]
    case Some(bytes) => Trimmed(Scan([[]], bytes))
  }

  /** The bytes `editorSaveFile` writes: every row followed by '\n', the last one included. */
  function Serialized(rows: seq<seq<char>>): seq<char>
  {
    if |rows| == 0 then [] else rows[0] + ['\n'] + Serialized(rows[1..])
  }

  /** A row that holds no line-break byte. */
  predicate LineText(s: seq<char>)
  {
    forall j :: 0 <= j < |s| ==> s[j] != '\n' && s[j] != '\r'
  }

  predicate NoLineBreaks(rows: seq<seq<char>>)
  {
    forall i :: 0 <= i < |rows| ==> LineText(rows[i])
  }

  function WithoutCR(bytes: seq<char>): (r: seq<char>)
    ensures forall i :: 0 <= i < |r| ==> r[i] != '\r'
    ensures |r| <= |bytes|
  {
    if |bytes| == 0 then []
    else if bytes[0] == '\r' then WithoutCR(bytes[1..])
    else [bytes[0]] + WithoutCR(bytes[1..])
  }

  lemma {:induction false} ScanAppend(acc: Buffer, x: seq<char>, y: seq<char>)
    ensures Scan(acc, x + y) == Scan(Scan(acc, x), y)
    decreases |x|
  {
    if |x| == 0 {
      assert x + y == y;
    } else {
      assert (x + y)[0] == x[0];
      assert (x + y)[1..] == x[1..] + y;
      ScanAppend(LoadStep(acc, x[0]), x[1..], y);
    }
  }

  /** Every carriage return is discarded, wherever it stands. */
  lemma {:induction false} CarriageReturnsIgnored(acc: Buffer, bytes: seq<char>)
    ensures Scan(acc, bytes) == Scan(acc, WithoutCR(bytes))
    decreases |bytes|
  {
    if |bytes| > 0 {
      CarriageReturnsIgnored(LoadStep(acc, bytes[0]), bytes[1..]);
      if bytes[0] != '\r' {
        var w := [bytes[0]] + WithoutCR(bytes[1..]);
        assert w[0] == bytes[0] && w[1..] == WithoutCR(bytes[1..]);
      }
    }
  }

  /** A line without terminators is appended to the current last row. */
  lemma {:induction false} ScanLine(acc: seq<seq<char>>, p: seq<char>, line: seq<char>)
    requires LineText(line)
    ensures Scan(acc + [p], line) == acc + [p + line]
    decreases |line|
  {
    if |line| == 0 {
      assert p + line == p;
    } else {
      var b := acc + [p];
      assert b[..|b| - 1] == acc;
      assert LoadStep(b, line[0]) == acc + [p + [line[0]]];
      ScanLine(acc, p + [line[0]], line[1..]);
      assert p + [line[0]] + line[1..] == p + line;
    }
  }

  /** One saved row, then its terminator: the row is appended and a new empty row opened. */
  lemma ScanRowThenNewline(acc: seq<seq<char>>, line: seq<char>, rest: seq<char>)
    requires LineText(line)
    ensures Scan(acc + [[]], line + ['\n'] + rest) == Scan(acc + [line] + [[]], rest)
  {
    assert line + ['\n'] + rest == line + (['\n'] + rest);
    ScanAppend(acc + [[]], line, ['\n'] + rest);
    ScanLine(acc, [], line);
    assert [] + line == line;
    ScanAppend(acc + [line], ['\n'], rest);
    assert ['\n'][1..] == [];
  }

  lemma NoLineBreaksTail(rows: seq<seq<char>>)
    requires |rows| > 0 && NoLineBreaks(rows)
    ensures NoLineBreaks(rows[1..])
  {
    forall i | 0 <= i < |rows| - 1 ensures LineText(rows[1..][i]) {
      assert rows[1..][i] == rows[i + 1];
    }
  }

  lemma {:induction false} ScanSerialized(acc: seq<seq<char>>, rows: seq<seq<char>>)
    requires NoLineBreaks(rows)
    ensures Scan(acc + [[]], Serialized(rows)) == acc + rows + [[]]
    decreases |rows|
  {
    if |rows| == 0 {
      assert acc + rows + [[]] == acc + [[]];
    } else {
      var first, rest := rows[0], rows[1..];
      assert LineText(first);
      NoLineBreaksTail(rows);
      assert Serialized(rows) == first + ['\n'] + Serialized(rest);
      ScanRowThenNewline(acc, first, Serialized(rest));
      ScanSerialized(acc + [first], rest);
      assert [first] + rest == rows;
      assert acc + [first] + rest + [[]] == acc + rows + [[]];
    }
  }

  /** Saving and loading a buffer whose rows hold no line-break bytes gives the same rows. */
  lemma SaveThenLoad(rows: Buffer)
    requires NoLineBreaks(rows)
    ensures Loaded(Some(Serialized(rows))) == rows
  {
    var empty: seq<seq<char>> := [];
    ScanSerialized(empty, rows);
    assert empty + [[]] == [[]];
    var scanned := Scan([[]], Serialized(rows));
    assert scanned == rows + [[]] by {
      assert empty + rows + [[]] == rows + [[]];
    }
    assert Trimmed(scanned) == scanned[..|rows|];
    assert scanned[..|rows|] == rows;
  }

  lemma {:induction false} SerializedSnoc(rows: seq<seq<char>>, row: seq<char>)
    ensures Serialized(rows + [row]) == Serialized(rows) + row + ['\n']
    decreases |rows|
  {
    if |rows| == 0 {
      assert rows + [row] == [row];
      assert Serialized([row]) == row + ['\n'] + Serialized([]);
    } else {
      var t := rows + [row];
      assert t[0] == rows[0];
      assert t[1..] == rows[1..] + [row];
      assert Serialized(t) == rows[0] + ['\n'] + Serialized(rows[1..] + [row]);
      SerializedSnoc(rows[1..], row);
      assert Serialized(rows) == rows[0] + ['\n'] + Serialized(rows[1..]);
    }
  }

  /** The load loop of `editorFromFile`, one byte at a time (the reading of
      the file itself is left to the caller). */
  method ReadRows(bytes: seq<char>) returns (rows: Buffer)
    ensures rows == Scan([[]], bytes)
  {
    rows := [[]];
    var i := 0;
    while i < |bytes|
      invariant 0 <= i <= |bytes|
      invariant Scan(rows, bytes[i..]) == Scan([[]], bytes)
    {
      var b := bytes[i];
      assert bytes[i..][1..] == bytes[i + 1..];
      if b == '\n' {
        rows := rows + [[]];
      } else if b != '\r' {
        var last := |rows| - 1;
        rows := rows[last := rows[last] + [b]];
      }
      i := i + 1;
    }
    assert bytes[i..] == [];
  }

  /** The bytes written by `editorSaveFile`, produced row by row. */
  method SaveText(rows: seq<seq<char>>) returns (out: seq<char>)
    ensures out == Serialized(rows)
    ensures |out| >= |rows|
  {
    out := [];
    var i := 0;
    while i < |rows|
      invariant 0 <= i <= |rows|
      invariant out == Serialized(rows[..i])
      invariant |out| >= i
    {
      SerializedSnoc(rows[..i], rows[i]);
      assert rows[..i + 1] == rows[..i] + [rows[i]];
      out := out + rows[i] + ['\n'];
      i := i + 1;
    }
    assert rows[..i] == rows;
  }

  // ---------------------------------------------------------------------
  // The editor object
  // ---------------------------------------------------------------------

  class Editor {
    var rows: Buffer
    var clipboard: seq<seq<char>>

    /** `editorFromFile`: the clipboard starts out empty. */
    constructor FromFile(file: Option<seq<char>>)
      ensures rows == Loaded(file) && clipboard == []
    {
      clipboard := [];
      match file {
        case None =>
          rows := [[]];
        case Some(bytes) =>
          var scanned := ReadRows(bytes);
          // the last line terminator does not open a row of its own
          if |scanned| > 1 && |scanned[|scanned| - 1]| == 0 {
            scanned := RowRemoved(scanned, |scanned| - 1);
          }
          rows := scanned;
      }
    }

    method InsertChar(r: nat, pos: nat, ch: char)
      requires r < |rows| && pos <= |rows[r]|
      modifies this
      ensures rows == old(rows)[r := CharInserted(old(rows)[r], pos, ch)]
      ensures clipboard == old(clipboard)
    {
      rows := rows[r := CharInserted(rows[r], pos, ch)];
    }

    method InsertString(r: nat, pos: nat, str: seq<char>, len: nat)
      requires r < |rows| && pos <= |rows[r]| && len <= |str|
      modifies this
      ensures rows == old(rows)[r := StringInserted(old(rows)[r], pos, str, len)]
      ensures clipboard == old(clipboard)
    {
      if len == 0 {
        return;
      }
      rows := rows[r := StringInserted(rows[r], pos, str, len)];
    }

    method DeleteChar(r: nat, pos: nat)
      requires r < |rows| && pos < |rows[r]|
      modifies this
      ensures rows == old(rows)[r := CharDeleted(old(rows)[r], pos)]
      ensures clipboard == old(clipboard)
    {
      rows := rows[r := CharDeleted(rows[r], pos)];
    }

    method NewRow(at: nat)
      requires at <= |rows|
      modifies this
      ensures rows == RowAdded(old(rows), at) && clipboard == old(clipboard)
    {
      rows := rows[..at] + [[]] + rows[at..];
    }

    method InsertNewline(row: nat, col: nat)
      requires row < |rows| && col <= |rows[row]|
      modifies this
      ensures rows == RowSplit(old(rows), row, col) && clipboard == old(clipboard)
    {
      NewRow(row + 1);
      var cur := rows[row];
      rows := rows[row + 1 := cur[col..]];
      rows := rows[row := cur[..col]];
      assert rows == old(rows)[..row] + [old(rows)[row][..col], old(rows)[row][col..]] + old(rows)[row + 1..];
    }

    method DeleteRow(idx: nat)
      requires idx < |rows|
      modifies this
      ensures rows == RowRemoved(old(rows), idx) && clipboard == old(clipboard)
    {
      if |rows| == 1 {
        return;
      }
      rows := rows[..idx] + rows[idx + 1..];
    }

    method DeleteRange(start: Point, end: Point)
      requires DeleteRangeOk(rows, start, end)
      modifies this
      ensures rows == RangeDeleted(old(rows), start, end) && clipboard == old(clipboard)
    {
      if start == end {
        if |rows[start.r]| == 0 {
          DeleteRow(start.r);
        } else {
          DeleteChar(start.r, start.c);
        }
        return;
      }
      if end.r == start.r {
        var row := rows[start.r];
        rows := rows[start.r := row[..start.c] + row[end.c + 1..]];
        return;
      }
      JoinRows(start, end);
    }

    /** The multi-row case of `deleteRange`. */
    method JoinRows(start: Point, end: Point)
      requires 0 <= start.r < end.r < |rows| && 0 <= start.c <= |rows[start.r]| && end.c >= -1
      modifies this
      ensures rows == old(rows)[..start.r] + [old(rows)[start.r][..start.c] + Suffix(old(rows)[end.r], end.c + 1)] + old(rows)[end.r + 1..]
      ensures clipboard == old(clipboard)
    {
      // the start row keeps its prefix, the end row loses columns [0, end.c]
      ghost var before := rows;
      var prefix := rows[start.r][..start.c];
      var tail := Suffix(rows[end.r], end.c + 1);
      rows := rows[end.r := tail];
      // the start row's prefix goes in front of the end row
      InsertString(end.r, 0, prefix, |prefix|);
      var joined := rows[end.r];
      assert joined == prefix + tail by {
        if |prefix| > 0 { assert joined == tail[..0] + prefix[..|prefix|] + tail[0..]; }
      }
      assert rows == before[end.r := joined];
      // rows [start.r, end.r) are freed and the rest shifts down
      rows := rows[..start.r] + rows[end.r..];
      assert rows == before[..start.r] + [joined] + before[end.r + 1..];
    }

    method CopyToClipboard(start: Point, end: Point)
      requires CopyOk(rows, start, end)
      modifies this
      ensures rows == old(rows) && clipboard == Clipped(rows, start, end)
    {
      var n := end.r - start.r + 1;
      var clip := [rows[start.r][start.c..]];
      var i := 1;
      while i < n - 1
        invariant 1 <= i <= if n > 1 then n - 1 else 1
        invariant |clip| == i && clip[0] == rows[start.r][start.c..]
        invariant forall k :: 0 < k < i ==> clip[k] == rows[start.r + k]
      {
        clip := clip + [rows[start.r + i]];
        i := i + 1;
      }
      // with one row, this overwrites the first entry
      clipboard := clip[..n - 1] + [LastPiece(rows[end.r], end.c)];
      assert |clipboard| == n;
      assert n > 1 ==> clipboard[..n - 1] == [rows[start.r][start.c..]] + rows[start.r + 1..end.r];
    }

    method PasteClipboard(at: Point)
      requires 0 <= at.r < |rows| && 0 <= at.c <= |rows[at.r]| && |clipboard| >= 1
      modifies this
      ensures clipboard == old(clipboard) && rows == Pasted(old(rows), at, clipboard)
    {
      InsertString(at.r, at.c, clipboard[0], |clipboard[0]|);
      rows := rows[..at.r + 1] + clipboard[1..] + rows[at.r + 1..];
    }
  }
}
