/** The mode dispatcher: the editor interface state (cursor, anchor, top row,
    mode, command line, undo stack) and the key handlers of VIEW, INSERT and
    COMMAND mode, plus the gutter width and the scroll adjustment that the
    main loop runs before each key. */
module Elfin {
  import opened Points
  import opened Wrappers
  import opened EditorCore
  import opened Commands
  import opened Display

  // Decoded key codes (KEY_ACTION); printable keys are their byte value.
  const ENTER := 13
  const ESC := 27
  const BACKSPACE := 127
  const ARROW_LEFT := 1000
  const ARROW_RIGHT := 1001
  const ARROW_UP := 1002
  const ARROW_DOWN := 1003

  datatype Mode = ViewMode | InsertMode | CommandMode | QuitMode

  /** `copyRange(rows, start, end)` has no definition among the modelled files. */
  type CopyRangeFn = (seq<seq<char>>, Point, Point) -> seq<seq<char>>

  /** The two range operations the dispatcher reaches but the modelled files do not define. */
  datatype Env = Env(insertRange: InsertRangeFn, copyRange: CopyRangeFn)

  /** What a command-line verb asks of the world outside the buffer: writing
      the file (with the bytes to write) or reopening another file. */
  datatype Effect = NoEffect | Save(bytes: seq<char>) | Reopen(path: seq<char>)

  /** The byte a key code is stored as when it is written into a row (a C `char`). */
  function ByteOf(key: int): char
  {
    (key % 256) as char
  }

  // ---------------------------------------------------------------------
  // countDigits and the gutter width
  // ---------------------------------------------------------------------

  function Pow10(k: nat): (p: nat)
    ensures p >= 1
  {
    if k == 0 then 1 else 10 * Pow10(k - 1)
  }

  /** The number of decimal digits of `n` (none for 0). */
  function DigitCount(n: nat): nat
  {
    if n == 0 then 0 else 1 + DigitCount(n / 10)
  }

  /** `DigitCount` is the number of decimal digits: `n` lies between the
      matching powers of ten. */
  lemma {:induction false} DigitCountBounds(n: nat)
    requires n > 0
    ensures DigitCount(n) >= 1
    ensures Pow10(DigitCount(n) - 1) <= n < Pow10(DigitCount(n))
  {
    var m := n / 10;
    if m > 0 {
      DigitCountBounds(m);
      var d := DigitCount(m);
      assert DigitCount(n) == d + 1;
      assert Pow10(d + 1) == 10 * Pow10(d);
      assert Pow10(d) == 10 * Pow10(d - 1) by {
        assert d >= 1;
      }
    }
  }

  /** C's `n /= 10`, which truncates toward zero. */
  function Quot10(n: int): (q: int)
    ensures (if q < 0 then -q else q) == (if n < 0 then -n else n) / 10
    ensures n >= 0 ==> q >= 0
    ensures n <= 0 ==> q <= 0
  {
    if n >= 0 then n / 10 else -((-n) / 10)
  }

  /** `countDigits`: the loop that divides by ten until nothing is left. */
  method CountDigits(n: int) returns (out: nat)
    ensures out == DigitCount(if n < 0 then -n else n)
  {
    out := 0;
    var m := n;
    while m != 0
      invariant DigitCount(if n < 0 then -n else n) == out + DigitCount(if m < 0 then -m else m)
      decreases if m < 0 then -m else m
    {
      m := Quot10(m);
      out := out + 1;
    }
  }

  // ---------------------------------------------------------------------
  // Selections and the commands the dispatcher builds
  // ---------------------------------------------------------------------

  /** An anchor is either the "no selection" sentinel or a point of the buffer. */
  predicate AnchorOk(rows: Buffer, anchor: Point)
  {
    anchor.r == -1 || (0 <= anchor.r < |rows| && anchor.c >= 0)
  }

  predicate CursorOk(rows: Buffer, cursor: Point)
  {
    0 <= cursor.r < |rows| && cursor.c >= 0
  }

  /** Column `c` clamped to `[0, len - 1]`. */
  function ClampCol(c: int, len: nat): (r: int)
    ensures 0 <= r && (len > 0 ==> r < len) && (len == 0 ==> r == 0)
    ensures 0 <= c < len ==> r == c
    ensures len > 0 && c >= len ==> r == len - 1
    ensures c < 0 ==> r == 0
  {
    Max(0, Min(c, len - 1))
  }

  /** The span `y` copies: the cursor's whole line, or the selection with its
      columns clamped to the last character of each end row. */
  function YankRange(rows: Buffer, cursor: Point, anchor: Point): (span: (Point, Point))
    requires CursorOk(rows, cursor) && AnchorOk(rows, anchor)
    ensures CopyOk(rows, span.0, span.1)
    ensures anchor.r == -1 ==> span == (Point(cursor.r, 0), Point(cursor.r, Max(0, |rows[cursor.r]| - 1)))
    ensures anchor.r != -1 ==> span.0.r == MinPoint(cursor, anchor).r && span.1.r == MaxPoint(cursor, anchor).r
    ensures anchor.r != -1 ==>
      && span.0.c == ClampCol(MinPoint(cursor, anchor).c, |rows[span.0.r]|)
      && span.1.c == Min(MaxPoint(cursor, anchor).c, |rows[span.1.r]| - 1)
  {
    if anchor.r == -1 then
      (Point(cursor.r, 0), Point(cursor.r, Max(0, |rows[cursor.r]| - 1)))
    else
      var start := MinPoint(cursor, anchor);
      var end := MaxPoint(cursor, anchor);
      // a start row that is empty would give column -1; the model starts at 0
      (start.(c := Max(0, Min(start.c, |rows[start.r]| - 1))), end.(c := Min(end.c, |rows[end.r]| - 1)))
  }

  /** The `Delete` that `d` pushes for an active selection. */
  function SelectionDelete(rows: Buffer, cursor: Point, anchor: Point, copyRange: CopyRangeFn): (cmd: Command)
    requires CursorOk(rows, cursor) && AnchorOk(rows, anchor) && anchor.r != -1
    ensures cmd.kind == Delete
    ensures cmd.at.r == MinPoint(cursor, anchor).r
    ensures cmd.at.c == ClampCol(MinPoint(cursor, anchor).c, |rows[cmd.at.r]|)
    ensures cmd.numrows == MaxPoint(cursor, anchor).r - MinPoint(cursor, anchor).r + 1 >= 1
    // the payload is the selection copied with both end columns clamped
    ensures var end := MaxPoint(cursor, anchor);
      cmd.rows == copyRange(rows, cmd.at, end.(c := ClampCol(end.c, |rows[end.r]|)))
  {
    var start := MinPoint(cursor, anchor);
    var end := MaxPoint(cursor, anchor);
    var s := start.(c := ClampCol(start.c, |rows[start.r]|));
    var e := end.(c := ClampCol(end.c, |rows[end.r]|));
    Command(s, copyRange(rows, s, e), e.r - s.r + 1, Delete)
  }

  /** The `Add` that `p` pushes: the clipboard pasted at the cursor, column clamped to the row length. */
  function PasteCommand(rows: Buffer, cursor: Point, clipboard: seq<seq<char>>, copyRange: CopyRangeFn): (cmd: Command)
    requires CursorOk(rows, cursor) && |clipboard| > 0
    ensures cmd.kind == Add && cmd.numrows == |clipboard|
    ensures cmd.at.r == cursor.r && cmd.at.c == Min(cursor.c, |rows[cursor.r]|)
    ensures cmd.rows == copyRange(clipboard, Point(0, 0), Point(|clipboard| - 1, |clipboard[|clipboard| - 1]| - 1))
  {
    var at := cursor.(c := Min(cursor.c, Max(0, |rows[cursor.r]|)));
    var last := |clipboard| - 1;
    Command(at, copyRange(clipboard, Point(0, 0), Point(last, |clipboard[last]| - 1)), last + 1, Add)
  }

  // ---------------------------------------------------------------------
  // Command-line verbs
  // ---------------------------------------------------------------------

  /** The byte at `i` of `s` read as a C string: past the content sits the terminating NUL. */
  function CharAt(s: seq<char>, i: nat): char
  {
    if i < |s| then s[i] else '\0'
  }

  /** `strncmp(a + i, b + i, n - i) == 0` on NUL-terminated strings: equal up
      to `n` bytes or up to a NUL both have at the same place. */
  predicate StrnFrom(a: seq<char>, b: seq<char>, n: nat, i: nat)
    decreases n - i
  {
    if i >= n then true
    else if CharAt(a, i) != CharAt(b, i) then false
    else if CharAt(a, i) == '\0' then true
    else StrnFrom(a, b, n, i + 1)
  }

  /** `!strncmp(a, b, n)`. */
  predicate StrnEq(a: seq<char>, b: seq<char>, n: nat)
  {
    StrnFrom(a, b, n, 0)
  }

  /** Comparing a text against a NUL-free literal over the text's own length:
      a text at least as long must spell the literal and then end or hold a
      NUL; a shorter text must be a prefix of the literal. */
  lemma {:induction false} StrnFromLiteral(cmd: seq<char>, lit: seq<char>, i: nat)
    requires '\0' !in lit && i <= |lit| && i <= |cmd|
    ensures |lit| <= |cmd| ==>
      (StrnFrom(cmd, lit, |cmd|, i) <==> cmd[i..|lit|] == lit[i..] && (|cmd| == |lit| || cmd[|lit|] == '\0'))
    ensures |cmd| < |lit| ==> (StrnFrom(cmd, lit, |cmd|, i) <==> cmd[i..] == lit[i..|cmd|])
    decreases |lit| - i
  {
    if i < |lit| && i < |cmd| {
      assert lit[i] != '\0' by {
        assert lit[i] in lit;
      }
      StrnFromLiteral(cmd, lit, i + 1);
      if |lit| <= |cmd| {
        assert cmd[i..|lit|] == [cmd[i]] + cmd[i + 1..|lit|];
        assert lit[i..] == [lit[i]] + lit[i + 1..];
      } else {
        assert cmd[i..] == [cmd[i]] + cmd[i + 1..];
        assert lit[i..|cmd|] == [lit[i]] + lit[i + 1..|cmd|];
      }
    }
  }

  /** `!strncmp(cmd, ":e ", 3)`: a two-byte text meets its terminator where
      the space should be, so only a text of three bytes or more matches. */
  predicate IsReopen(cmd: seq<char>)
  {
    |cmd| >= 3 && cmd[..3] == ":e "
  }

  /** The verbs `doUserCommand` recognises, in the order it tries them. */
  datatype Verb = Ignored | Find(pattern: seq<char>) | Open(path: seq<char>) | Write | Quit | WriteQuit | Unknown

  /** The branch of `doUserCommand` a command-line text takes. The exit and
      write verbs are compared with `strncmp` over the text's length, so a
      NUL byte right after the verb still matches it. */
  function VerbOf(cmd: seq<char>): (v: Verb)
    ensures |cmd| <= 1 ==> v == Ignored
    ensures v.Find? <==> |cmd| > 1 && cmd[0] == '/'
    ensures v.Find? ==> [cmd[0]] + v.pattern == cmd && |v.pattern| >= 1
    ensures v.Open? <==> IsReopen(cmd) && |cmd| > 3
    ensures v.Open? ==> v.path == cmd[3..]
    ensures v == Write <==> |cmd| >= 2 && cmd[..2] == ":w" && (|cmd| == 2 || cmd[2] == '\0')
    ensures v == Quit <==> |cmd| >= 2 && cmd[..2] == ":q" && (|cmd| == 2 || cmd[2] == '\0')
    ensures v == WriteQuit <==> |cmd| >= 3 && cmd[..3] == ":wq" && (|cmd| == 3 || cmd[3] == '\0')
  {
    if |cmd| <= 1 then Ignored
    else if cmd[0] == '/' then Find(cmd[1..])
    else if IsReopen(cmd) then
      assert cmd[1] == 'e';
      if |cmd| > 3 then Open(cmd[3..]) else Unknown
    else
      StrnFromLiteral(cmd, ":w", 0);
      StrnFromLiteral(cmd, ":q", 0);
      StrnFromLiteral(cmd, ":wq", 0);
      if StrnEq(cmd, ":w", |cmd|) then Write
      else if StrnEq(cmd, ":q", |cmd|) then Quit
      else if StrnEq(cmd, ":wq", |cmd|) then WriteQuit
      else Unknown
  }

  /** For a text without NUL bytes the exit and write verbs match exactly
      their own spelling. */
  lemma VerbsWithoutNul(cmd: seq<char>)
    requires '\0' !in cmd
    ensures VerbOf(cmd) == Write <==> cmd == ":w"
    ensures VerbOf(cmd) == Quit <==> cmd == ":q"
    ensures VerbOf(cmd) == WriteQuit <==> cmd == ":wq"
  {
    if |cmd| > 2 {
      assert cmd[2] in cmd;
    }
    if |cmd| > 3 {
      assert cmd[3] in cmd;
    }
  }

  /** What `doUserCommand` leaves behind: cursor, anchor, mode, and the effect asked of the outside. */
  datatype Outcome = Outcome(cursor: Point, anchor: Point, mode: Mode, eff: Effect)

  /** `doUserCommand(cmd)` on the buffer `rows`: a search moves the cursor to
      the match and selects it; the write verbs ask for the serialized buffer
      to be saved; the exit verbs switch to QUIT; `:e <path>` asks for a reopen. */
  function UserCommand(rows: Buffer, cursor: Point, anchor: Point, mode: Mode, cmd: seq<char>): (o: Outcome)
    requires CursorOk(rows, cursor)
    ensures var v := VerbOf(cmd);
      && (v.Find? ==> o.cursor == SearchResult(rows, cursor, v.pattern)
                      && o.anchor == o.cursor.(c := o.cursor.c + |v.pattern| - 1) && o.mode == mode)
      && (v.Find? ==> CursorOk(rows, o.cursor))
      && (v.Find? && !Nowhere(rows, v.pattern) ==> MatchAt(rows[o.cursor.r], o.cursor.c, v.pattern))
      && (v.Find? && Nowhere(rows, v.pattern) ==> o.cursor == cursor)
      && (!v.Find? ==> o.cursor == cursor && o.anchor == anchor)
      && (v != Quit && v != WriteQuit ==> o.mode == mode)
      && (v == Quit || v == WriteQuit ==> o.mode == QuitMode)
      && (v == Write || v == WriteQuit <==> o.eff == Save(Serialized(rows)))
      && (v.Open? <==> o.eff.Reopen?) && (v.Open? ==> o.eff.path == v.path)
      && (v != Write && v != WriteQuit && !v.Open? ==> o.eff == NoEffect)
  {
    match VerbOf(cmd)
    case Find(pattern) =>
      SearchSound(rows, cursor, pattern);
      var p := SearchResult(rows, cursor, pattern);
      Outcome(p, p.(c := p.c + |pattern| - 1), mode, NoEffect)
    case Open(path) => Outcome(cursor, anchor, mode, Reopen(path))
    case Write => Outcome(cursor, anchor, mode, Save(Serialized(rows)))
    case Quit => Outcome(cursor, anchor, QuitMode, NoEffect)
    case WriteQuit => Outcome(cursor, anchor, QuitMode, Save(Serialized(rows)))
    case _ => Outcome(cursor, anchor, mode, NoEffect)
  }

  // ---------------------------------------------------------------------
  // Cursor motions shared by VIEW and INSERT mode
  // ---------------------------------------------------------------------

  /** `j` / down arrow: one row down, stopping at the last row. */
  function Down(rows: Buffer, p: Point): (q: Point)
    requires CursorOk(rows, p)
    ensures CursorOk(rows, q) && q.c == p.c
    ensures p.r + 1 < |rows| ==> q.r == p.r + 1
    ensures p.r + 1 == |rows| ==> q == p
  {
    p.(r := Min(|rows| - 1, p.r + 1))
  }

  /** `k` / up arrow: one row up, stopping at the first row. */
  function Up(p: Point): (q: Point)
    ensures q.c == p.c
    ensures p.r > 0 ==> q.r == p.r - 1
    ensures p.r <= 0 ==> q.r == 0
  {
    p.(r := Max(0, p.r - 1))
  }

  /** `h` / left arrow: one column left, first pulled back onto the last
      character of the row; never below column 0. */
  function Left(rows: Buffer, p: Point): (q: Point)
    requires CursorOk(rows, p)
    ensures CursorOk(rows, q) && q.r == p.r
    ensures 0 < p.c <= |rows[p.r]| ==> q.c == p.c - 1
    ensures p.c > |rows[p.r]| ==> q.c == Max(0, |rows[p.r]| - 1)
    ensures p.c == 0 ==> q == p
  {
    p.(c := Max(0, Min(p.c - 1, |rows[p.r]| - 1)))
  }

  /** `l` / right arrow: one column right while before the end of the row
      (the end of the row itself is reachable). */
  function Right(rows: Buffer, p: Point): (q: Point)
    requires CursorOk(rows, p)
    ensures CursorOk(rows, q) && q.r == p.r
    ensures p.c < |rows[p.r]| ==> q.c == p.c + 1
    ensures p.c >= |rows[p.r]| ==> q == p
  {
    p.(c := p.c + (if p.c < |rows[p.r]| then 1 else 0))
  }

  /** Down then up comes back, except from the last row. */
  lemma UpUndoesDown(rows: Buffer, p: Point)
    requires CursorOk(rows, p) && p.r + 1 < |rows|
    ensures Up(Down(rows, p)) == p
  {
  }

  /** Inside a row, left and right undo each other. */
  lemma LeftRightInverse(rows: Buffer, p: Point)
    requires CursorOk(rows, p)
    ensures 0 < p.c <= |rows[p.r]| ==> Right(rows, Left(rows, p)) == p
    ensures p.c < |rows[p.r]| ==> Left(rows, Right(rows, p)) == p
  {
  }

  // ---------------------------------------------------------------------
  // The key handlers as functions of the interface state
  // ---------------------------------------------------------------------

  /** The part of the interface state a key can change: the buffer and
      clipboard of the editor, cursor, anchor, mode, command line and the
      undo stack (top at index 0). */
  datatype Ui = Ui(rows: Buffer, clipboard: seq<seq<char>>, cursor: Point, anchor: Point,
                   mode: Mode, msg: seq<char>, mcol: int, stack: seq<Command>)

  /** The state a key handler starts from: cursor and anchor inside the
      buffer, the command-line column inside the command line. */
  predicate UiReady(u: Ui)
  {
    CursorOk(u.rows, u.cursor) && AnchorOk(u.rows, u.anchor) && 0 <= u.mcol <= |u.msg|
  }

  /** `Insert(c)`: every key drops the selection; Enter, Backspace and
      printable keys build a command, push it and run it. */
  function InsertKey(u: Ui, c: int, env: Env): (w: Ui)
    requires UiReady(u)
    ensures w.anchor == u.anchor.(r := -1)
    ensures w.clipboard == u.clipboard && w.msg == u.msg && w.mcol == u.mcol
    ensures c != ESC ==> w.mode == u.mode
    ensures c == ESC ==> w.mode == ViewMode
    ensures c in {ESC, ARROW_DOWN, ARROW_UP, ARROW_LEFT, ARROW_RIGHT} ==>
      w.rows == u.rows && w.stack == u.stack && UiReady(w)
    ensures c == ESC ==> w.cursor == u.cursor
    ensures c == ARROW_DOWN ==> w.cursor == Down(u.rows, u.cursor)
    ensures c == ARROW_UP ==> w.cursor == Up(u.cursor)
    ensures c == ARROW_LEFT ==> w.cursor == Left(u.rows, u.cursor)
    ensures c == ARROW_RIGHT ==> w.cursor == Right(u.rows, u.cursor)
    ensures w.stack == u.stack || (|w.stack| == |u.stack| + 1 && w.stack[1..] == u.stack)
    // Enter logs a NEWROW, which doCommand does not act on: no row is added
    ensures c == ENTER ==> var b := BoundedCursor(u.rows, u.cursor);
      && w.rows == u.rows && w.cursor == Point(u.cursor.r + 1, 0)
      && w.stack == Push(Command(b, [], 0, NewRow), u.stack)
    ensures c == BACKSPACE ==> var b := BoundedCursor(u.rows, u.cursor);
      && (b.c > 0 ==>
            && w.rows == u.rows[b.r := CharDeleted(u.rows[b.r], b.c - 1)]
            && w.cursor == Point(b.r, b.c - 1)
            && w.stack == Push(Command(w.cursor, [[u.rows[b.r][b.c - 1]]], 1, Delete), u.stack))
      && (b.c == 0 && b.r > 0 ==>
            && w.rows == u.rows && w.cursor == Point(b.r - 1, |u.rows[b.r - 1]|)
            && w.stack == Push(Command(b.(c := |u.rows[b.r]|), [], 0, DelRow), u.stack))
      && (b.c == 0 && b.r == 0 ==> w.rows == u.rows && w.stack == u.stack && w.cursor == Point(0, 0))
    ensures c !in {ESC, ARROW_DOWN, ARROW_UP, ARROW_LEFT, ARROW_RIGHT, ENTER, BACKSPACE} ==>
      var b := BoundedCursor(u.rows, u.cursor);
      && w.rows == env.insertRange(u.rows, b, [[ByteOf(c)]], 1)
      && w.cursor == b.(c := b.c + 1)
      && w.stack == Push(Command(b, [[ByteOf(c)]], 1, Add), u.stack)
  {
    var v := u.(anchor := u.anchor.(r := -1));
    var b := BoundedCursor(u.rows, u.cursor);
    if c == ESC then v.(mode := ViewMode)
    else if c == ARROW_DOWN then v.(cursor := Down(u.rows, u.cursor))
    else if c == ARROW_UP then v.(cursor := Up(u.cursor))
    else if c == ARROW_LEFT then v.(cursor := Left(u.rows, u.cursor))
    else if c == ARROW_RIGHT then v.(cursor := Right(u.rows, u.cursor))
    else if c == ENTER then
      var cmd := Command(b, [], 0, NewRow);
      v.(rows := Done(u.rows, cmd, env.insertRange), cursor := Point(b.r + 1, 0), stack := Push(cmd, u.stack))
    else if c == BACKSPACE then
      if b.c == 0 && b.r > 0 then
        var cmd := Command(b.(c := |u.rows[b.r]|), [], 0, DelRow);
        v.(rows := Done(u.rows, cmd, env.insertRange), cursor := Point(b.r - 1, |u.rows[b.r - 1]|),
           stack := Push(cmd, u.stack))
      else if b.c > 0 then
        var at := b.(c := b.c - 1);
        var cmd := Command(at, [[u.rows[at.r][at.c]]], 1, Delete);
        SingleCharDeleteEnd(cmd);
        v.(rows := Done(u.rows, cmd, env.insertRange), cursor := at, stack := Push(cmd, u.stack))
      else v.(cursor := b)
    else
      var cmd := Command(b, [[ByteOf(c)]], 1, Add);
      v.(rows := Done(u.rows, cmd, env.insertRange), cursor := b.(c := b.c + 1), stack := Push(cmd, u.stack))
  }

  /** What `View(c)` needs beyond a ready state: `d` runs a `Delete` whose
      end point comes from the copied selection, and `u` runs the inverse of
      the top command; both must be commands `deleteRange` accepts. */
  predicate ViewCanRun(u: Ui, c: int, env: Env)
  {
    && UiReady(u)
    && (c == 'd' as int && u.anchor.r != -1 ==> CanDo(u.rows, SelectionDelete(u.rows, u.cursor, u.anchor, env.copyRange)))
    && (c == 'u' as int && u.stack != [] ==> CanDo(u.rows, Inverse(u.stack[0])))
  }

  /** The keys of VIEW mode that only move the cursor. */
  predicate IsMotionKey(c: int)
  {
    c in {ARROW_DOWN, ARROW_UP, ARROW_LEFT, ARROW_RIGHT, 'j' as int, 'k' as int, 'h' as int, 'l' as int,
          '0' as int, '$' as int, 'G' as int, 'g' as int}
  }

  /** Where a motion key of VIEW mode puts the cursor. Every motion keeps it
      on a row of the buffer. */
  function ViewMotion(rows: Buffer, cursor: Point, c: int, next: int): (p: Point)
    requires CursorOk(rows, cursor) && IsMotionKey(c)
    ensures CursorOk(rows, p)
    ensures c == ARROW_DOWN || c == 'j' as int ==> p == Down(rows, cursor)
    ensures c == ARROW_UP || c == 'k' as int ==> p == Up(cursor)
    ensures c == ARROW_LEFT || c == 'h' as int ==> p == Left(rows, cursor)
    ensures c == ARROW_RIGHT || c == 'l' as int ==> p == Right(rows, cursor)
    ensures c == '0' as int ==> p == cursor.(c := 0)
    ensures c == '$' as int ==> p == cursor.(c := |rows[cursor.r]|)
    ensures c == 'G' as int ==> p.r == |rows| - 1 && (|rows[p.r]| > 0 ==> p.c == |rows[p.r]| - 1)
    ensures c == 'G' as int && |rows[p.r]| == 0 ==> p.c == 0
    ensures c == 'g' as int && next == 'g' as int ==> p == Point(0, 0)
    ensures c == 'g' as int && next != 'g' as int ==> p == cursor
  {
    if c == ARROW_DOWN || c == 'j' as int then Down(rows, cursor)
    else if c == ARROW_UP || c == 'k' as int then Up(cursor)
    else if c == ARROW_LEFT || c == 'h' as int then Left(rows, cursor)
    else if c == ARROW_RIGHT || c == 'l' as int then Right(rows, cursor)
    else if c == '0' as int then cursor.(c := 0)
    else if c == '$' as int then cursor.(c := |rows[cursor.r]|)
    else if c == 'G' as int then
      var last := |rows| - 1;
      Point(last, Max(0, |rows[last]| - 1))
    else if next == 'g' as int then Point(0, 0)
    else cursor
  }

  /** The keys of VIEW mode that enter INSERT mode. */
  predicate IsInsertEntry(c: int)
  {
    c in {'i' as int, 'I' as int, 'a' as int, 'A' as int, 'o' as int, 'O' as int}
  }

  /** `i`, `I`, `a`, `A`, `o`, `O`: place the cursor, maybe log an Enter, and
      switch to INSERT mode. */
  function EnterInsert(u: Ui, c: int, env: Env): (w: Ui)
    requires UiReady(u) && IsInsertEntry(c)
    ensures w.mode == InsertMode
    ensures w.clipboard == u.clipboard && w.msg == u.msg && w.mcol == u.mcol && w.rows == u.rows
    ensures c != 'o' as int ==> CursorOk(w.rows, w.cursor)
    ensures c in {'i' as int, 'I' as int, 'a' as int, 'A' as int} ==> w.stack == u.stack && w.anchor == u.anchor
    ensures c == 'i' as int ==> w.cursor == u.cursor
    ensures c == 'I' as int ==> w.cursor == u.cursor.(c := 0)
    ensures c == 'a' as int ==> w.cursor == Right(u.rows, u.cursor)
    ensures c == 'A' as int ==> w.cursor == u.cursor.(c := |u.rows[u.cursor.r]|)
    ensures c == 'o' as int ==> w.cursor == Point(u.cursor.r + 1, 0) && w.anchor == u.anchor.(r := -1)
    ensures c == 'o' as int ==> w.stack == Push(Command(u.cursor.(c := |u.rows[u.cursor.r]|), [], 0, NewRow), u.stack)
    ensures c == 'O' as int ==> w.cursor == u.cursor.(c := 0) && w.anchor == u.anchor.(r := -1)
    ensures c == 'O' as int ==> w.stack == Push(Command(u.cursor.(c := 0), [], 0, NewRow), u.stack)
  {
    var len := |u.rows[u.cursor.r]|;
    if c == 'i' as int then u.(mode := InsertMode)
    else if c == 'I' as int then u.(cursor := u.cursor.(c := 0), mode := InsertMode)
    else if c == 'a' as int then u.(cursor := Right(u.rows, u.cursor), mode := InsertMode)
    else if c == 'A' as int then u.(cursor := u.cursor.(c := len), mode := InsertMode)
    else if c == 'o' as int then InsertKey(u.(cursor := u.cursor.(c := len)), ENTER, env).(mode := InsertMode)
    else
      // Enter moves to the next row; the nested View('k') moves back up
      var w := InsertKey(u.(cursor := u.cursor.(c := 0)), ENTER, env);
      w.(cursor := Up(w.cursor), mode := InsertMode)
  }

  /** `y`, `p`, `d`, `u`: the clipboard and the logged edits. */
  function EditKey(u: Ui, c: int, env: Env): (w: Ui)
    requires ViewCanRun(u, c, env) && c in {'y' as int, 'p' as int, 'd' as int, 'u' as int}
    ensures w.mode == u.mode && w.msg == u.msg && w.mcol == u.mcol
    ensures c != 'y' as int ==> w.clipboard == u.clipboard
    ensures c == 'y' as int ==> var span := YankRange(u.rows, u.cursor, u.anchor);
      w == u.(clipboard := Clipped(u.rows, span.0, span.1))
    ensures c == 'p' as int && |u.clipboard| > 0 ==>
      var cmd := PasteCommand(u.rows, u.cursor, u.clipboard, env.copyRange);
      w == u.(stack := Push(cmd, u.stack), rows := Done(u.rows, cmd, env.insertRange))
    ensures c == 'd' as int && u.anchor.r != -1 ==>
      var cmd := SelectionDelete(u.rows, u.cursor, u.anchor, env.copyRange);
      && w.stack == Push(cmd, u.stack) && w.rows == Done(u.rows, cmd, env.insertRange)
      && w.cursor == MinPoint(u.cursor, u.anchor) && w.anchor == u.anchor.(r := -1)
    ensures c == 'u' as int && u.stack != [] ==> var top := u.stack[0];
      && w.rows == Done(u.rows, Inverse(top), env.insertRange)
      && w.cursor == (if top.kind == DelRow then top.at.(c := 0) else top.at)
      && w.stack == u.stack[1..] && w.anchor == u.anchor
    ensures c == 'p' as int && |u.clipboard| == 0 ==> w == u
    ensures c == 'd' as int && u.anchor.r == -1 ==> w == u
    ensures c == 'u' as int && u.stack == [] ==> w == u
  {
    if c == 'y' as int then
      var span := YankRange(u.rows, u.cursor, u.anchor);
      u.(clipboard := Clipped(u.rows, span.0, span.1))
    else if c == 'p' as int then
      if |u.clipboard| > 0 then
        var cmd := PasteCommand(u.rows, u.cursor, u.clipboard, env.copyRange);
        u.(rows := Done(u.rows, cmd, env.insertRange), stack := Push(cmd, u.stack))
      else u
    else if c == 'd' as int then
      if u.anchor.r != -1 then
        var cmd := SelectionDelete(u.rows, u.cursor, u.anchor, env.copyRange);
        MinBeforeMax(u.cursor, u.anchor);
        u.(rows := Done(u.rows, cmd, env.insertRange), stack := Push(cmd, u.stack),
           cursor := MinPoint(u.anchor, u.cursor), anchor := u.anchor.(r := -1))
      else u
    else
      if u.stack != [] then
        var top := u.stack[0];
        var at := if top.kind == DelRow then top.at.(c := 0) else top.at;
        u.(rows := Done(u.rows, Inverse(top), env.insertRange), cursor := at, stack := RemoveNode(u.stack))
      else u
  }

  /** The remaining keys VIEW mode acts on. */
  predicate IsViewOther(c: int)
  {
    c in {ESC, '.' as int, '/' as int, ':' as int, 'v' as int, 'y' as int, 'p' as int, 'd' as int, 'u' as int}
  }

  /** `View(c)`, with `next` the key that `g` reads to complete `gg`; also
      gives what a repeated command line (`.`) asks of the outside. */
  function ViewKey(u: Ui, c: int, next: int, env: Env): (out: (Ui, Effect))
    requires ViewCanRun(u, c, env)
    ensures IsMotionKey(c) ==> out.0 == u.(cursor := ViewMotion(u.rows, u.cursor, c, next)) && UiReady(out.0)
    ensures IsInsertEntry(c) ==> out.0 == EnterInsert(u, c, env)
    ensures c in {'y' as int, 'p' as int, 'd' as int, 'u' as int} ==> out.0 == EditKey(u, c, env)
    ensures c == ESC ==> out.0 == u.(anchor := u.anchor.(r := -1)) && UiReady(out.0)
    ensures c == 'v' as int ==> out.0.cursor == u.cursor && out.0.rows == u.rows && UiReady(out.0)
    ensures c == 'v' as int ==> (u.anchor.r == -1 <==> out.0.anchor == u.cursor)
    ensures c == 'v' as int && u.anchor.r != -1 ==> out.0.anchor.r == -1
    ensures c == '.' as int ==> var o := UserCommand(u.rows, u.cursor, u.anchor, u.mode, u.msg);
      out == (u.(cursor := o.cursor, anchor := o.anchor, mode := o.mode), o.eff)
    ensures c == '/' as int || c == ':' as int ==>
      out.0 == u.(mode := CommandMode, msg := [ByteOf(c)], mcol := 1) && UiReady(out.0)
    ensures !IsMotionKey(c) && !IsInsertEntry(c) && !IsViewOther(c) ==> out == (u, NoEffect)
  {
    if c == ESC then (u.(anchor := u.anchor.(r := -1)), NoEffect)
    else if c == '.' as int then
      var o := UserCommand(u.rows, u.cursor, u.anchor, u.mode, u.msg);
      (u.(cursor := o.cursor, anchor := o.anchor, mode := o.mode), o.eff)
    else if c == '/' as int || c == ':' as int then
      (u.(mode := CommandMode, msg := [ByteOf(c)], mcol := 1), NoEffect)
    else if IsInsertEntry(c) then (EnterInsert(u, c, env), NoEffect)
    else if IsMotionKey(c) then (u.(cursor := ViewMotion(u.rows, u.cursor, c, next)), NoEffect)
    else if c == 'v' as int then
      (u.(anchor := if u.anchor.r == -1 then u.cursor else u.anchor.(r := -1)), NoEffect)
    else if c in {'y' as int, 'p' as int, 'd' as int, 'u' as int} then (EditKey(u, c, env), NoEffect)
    else (u, NoEffect)
  }

  /** `Command(c)`: editing the command line at `mcol`; Enter returns to
      VIEW mode and runs the line. The column never leaves the line. */
  function CommandLine(u: Ui, c: int): (out: (Ui, Effect))
    requires UiReady(u)
    ensures UiReady(out.0)
    ensures out.0.rows == u.rows && out.0.clipboard == u.clipboard && out.0.stack == u.stack
    ensures c != ENTER ==> out.0.cursor == u.cursor && out.0.anchor == u.anchor && out.1 == NoEffect
    ensures c == ESC ==> out.0 == u.(mode := ViewMode)
    ensures c == BACKSPACE && u.mcol > 1 ==>
      out.0 == u.(msg := CharDeleted(u.msg, u.mcol - 1), mcol := u.mcol - 1)
    ensures c == BACKSPACE && u.mcol <= 1 ==> out.0 == u.(mode := ViewMode)
    // the arrows stop after the prompt character and at the end of the line
    ensures c == ARROW_LEFT && u.mcol > 1 ==> out.0 == u.(mcol := u.mcol - 1)
    ensures c == ARROW_RIGHT && u.mcol < |u.msg| ==> out.0 == u.(mcol := u.mcol + 1)
    ensures (c == ARROW_LEFT && u.mcol <= 1) || (c == ARROW_RIGHT && u.mcol == |u.msg|) ==> out.0 == u
    ensures c == ENTER ==> var o := UserCommand(u.rows, u.cursor, u.anchor, ViewMode, u.msg);
      out == (u.(cursor := o.cursor, anchor := o.anchor, mode := o.mode), o.eff)
    ensures c !in {ESC, BACKSPACE, ARROW_LEFT, ARROW_RIGHT, ENTER} ==>
      out.0 == u.(msg := CharInserted(u.msg, u.mcol, ByteOf(c)), mcol := u.mcol + 1)
  {
    if c == ESC then (u.(mode := ViewMode), NoEffect)
    else if c == BACKSPACE then
      if u.mcol > 1 then (u.(msg := CharDeleted(u.msg, u.mcol - 1), mcol := u.mcol - 1), NoEffect)
      else (u.(mode := ViewMode), NoEffect)
    else if c == ARROW_LEFT then (if u.mcol > 1 then u.(mcol := u.mcol - 1) else u, NoEffect)
    else if c == ARROW_RIGHT then (if u.mcol < |u.msg| then u.(mcol := u.mcol + 1) else u, NoEffect)
    else if c == ENTER then
      var o := UserCommand(u.rows, u.cursor, u.anchor, ViewMode, u.msg);
      (u.(cursor := o.cursor, anchor := o.anchor, mode := o.mode), o.eff)
    else (u.(msg := CharInserted(u.msg, u.mcol, ByteOf(c)), mcol := u.mcol + 1), NoEffect)
  }

  /** `editorProcessKey(c)`: the handler of the current mode; QUIT ignores keys. */
  function KeyStep(u: Ui, c: int, next: int, env: Env): (out: (Ui, Effect))
    requires UiReady(u) && (u.mode == ViewMode ==> ViewCanRun(u, c, env))
    ensures u.mode == ViewMode ==> out == ViewKey(u, c, next, env)
    ensures u.mode == InsertMode ==> out == (InsertKey(u, c, env), NoEffect)
    ensures u.mode == CommandMode ==> out == CommandLine(u, c)
    ensures u.mode == QuitMode ==> out == (u, NoEffect)
    ensures u.mode == InsertMode ==> out.1 == NoEffect && out.0.msg == u.msg && out.0.clipboard == u.clipboard
    ensures u.mode == CommandMode ==> out.0.rows == u.rows && out.0.stack == u.stack && UiReady(out.0)
    // only a command line run by `.` or Enter asks anything of the outside
    ensures out.1 != NoEffect ==>
      (u.mode == ViewMode && c == '.' as int) || (u.mode == CommandMode && c == ENTER)
    ensures out.1.Save? ==> out.1.bytes == Serialized(u.rows)
  {
    match u.mode
    case ViewMode => ViewKey(u, c, next, env)
    case InsertMode => (InsertKey(u, c, env), NoEffect)
    case CommandMode => CommandLine(u, c)
    case QuitMode => (u, NoEffect)
  }

  /** What a VIEW key leaves alone: only `.` asks anything of the outside,
      only `y` writes the clipboard, only `p`, `d` and `u` change the rows,
      only `/` and `:` touch the command line; a key logs at most one
      command, and `u` takes exactly one off. */
  lemma ViewKeyFrame(u: Ui, c: int, next: int, env: Env)
    requires ViewCanRun(u, c, env)
    ensures var out := ViewKey(u, c, next, env);
      && (c != '.' as int ==> out.1 == NoEffect)
      && (c != 'y' as int ==> out.0.clipboard == u.clipboard)
      && (c !in {'p' as int, 'd' as int, 'u' as int} ==> out.0.rows == u.rows)
      && (c != '/' as int && c != ':' as int ==> out.0.msg == u.msg && out.0.mcol == u.mcol)
      && (c != 'u' as int ==> out.0.stack == u.stack || (|out.0.stack| == |u.stack| + 1 && out.0.stack[1..] == u.stack))
      && (c == 'u' as int ==> out.0.stack == RemoveNode(u.stack))
  {
    if IsInsertEntry(c) {
      var w := EnterInsert(u, c, env);
      if c == 'o' as int || c == 'O' as int {
        assert w.stack[1..] == u.stack;
      }
    }
  }

  // ---------------------------------------------------------------------
  // The editor interface
  // ---------------------------------------------------------------------

  class Interface {
    var e: Editor
    var toprow: int
    var mode: Mode
    var coloff: int
    var wsRow: int
    var wsCol: int
    var cursor: Point
    var anchor: Point
    var mcol: int
    var msg: seq<char>
    var cmdStack: seq<Command>

    /** The state every key handler starts from: cursor and anchor inside the
        buffer, the command-line column inside the command line. */
    ghost predicate Ready()
      reads this, e
    {
      UiReady(Snap())
    }

    /** The state the key handlers read and write, as one value. */
    function Snap(): Ui
      reads this, e
    {
      Ui(e.rows, e.clipboard, cursor, anchor, mode, msg, mcol, cmdStack)
    }

    /** The content width: terminal columns minus the gutter and one more column. */
    function Width(): int
      reads this
    {
      ContentWidth(wsCol, coloff)
    }

    /** `init_I` on an already loaded editor (the file name and window size are inputs). */
    constructor (editor: Editor, rowsOnScreen: int, colsOnScreen: int)
      ensures e == editor && toprow == 0 && mode == ViewMode
      ensures cursor == Point(0, 0) && anchor.r == -1 && msg == [] && mcol == 0 && cmdStack == []
      ensures wsRow == rowsOnScreen && wsCol == colsOnScreen
      ensures coloff == Max(4, DigitCount(|editor.rows|) + 2)
    {
      e := editor;
      toprow := 0;
      mode := ViewMode;
      var digits := CountDigits(|editor.rows|);
      coloff := Max(4, digits + 2);
      wsRow, wsCol := rowsOnScreen, colsOnScreen;
      cursor := Point(0, 0);
      anchor := Point(-1, 0);
      msg, mcol := [], 0;
      cmdStack := [];
    }

    /** The gutter width the main loop recomputes before every key. */
    method UpdateGutter()
      modifies this`coloff
      ensures coloff == Max(4, DigitCount(|e.rows|) + 2)
      ensures coloff >= 4 && (|e.rows| > 0 ==> Pow10(coloff - 2) > |e.rows|)
    {
      var digits := CountDigits(|e.rows|);
      coloff := Max(4, digits + 2);
      DigitCountBounds(|e.rows|);
      if digits + 2 < 4 {
        assert digits <= 1;
        assert Pow10(coloff - 2) == 100;
      } else {
        assert coloff - 2 == digits;
      }
    }

    /** `adjustToprow`: scroll up to the cursor row, or scroll down one row at
        a time until the bounded cursor is no further than the largest
        displayed point. If the cursor is on the last row and that row, shown
        at the top, still does not pass the test, the C loop goes on to a top
        row equal to the row count; there the counting loop does not run and
        the column it returns is an uninitialised variable. That case is
        excluded. */
    method AdjustToprow()
      requires CursorOk(e.rows, cursor) && toprow >= 0
      requires wsRow > 1 && Width() > 0
      requires cursor.r + 1 < |e.rows| || Shows(e.rows, cursor, cursor.r, wsRow, Width())
      modifies this`toprow
      ensures old(cursor.r < toprow) ==> toprow == cursor.r
      ensures old(cursor.r >= toprow) ==>
        old(toprow) <= toprow <= cursor.r + 1 && toprow < |e.rows| && Shows(e.rows, cursor, toprow, wsRow, Width())
      ensures old(cursor.r >= toprow) ==>
        forall t :: old(toprow) <= t < toprow ==> !Shows(e.rows, cursor, t, wsRow, Width())
      ensures old(cursor.r >= toprow) && 1 + Sublines(|e.rows[cursor.r]|, Width()) <= wsRow ==>
        toprow <= cursor.r
    {
      if cursor.r < toprow {
        toprow := cursor.r;
        return;
      }
      toprow := ScrollDown(e.rows, cursor, toprow, wsRow, wsCol, coloff);
    }

    /** `doUserCommand`: a search moves the cursor and selects the match;
        `:w`, `:q`, `:wq` act only on exactly that text; `:e <path>` asks
        for a reopen, which the model reports but does not perform. */
    method DoUserCommand(cmd: seq<char>) returns (eff: Effect)
      requires CursorOk(e.rows, cursor)
      modifies this`cursor, this`anchor, this`mode
      ensures Outcome(cursor, anchor, mode, eff) == UserCommand(e.rows, old(cursor), old(anchor), old(mode), cmd)
    {
      eff := NoEffect;
      if |cmd| <= 1 {
        return;
      }
      if cmd[0] == '/' {
        var found := Search(e.rows, cursor, cmd[1..]);
        cursor := found;
        anchor := cursor.(c := cursor.c + |cmd| - 2);
      } else if IsReopen(cmd) {
        if |cmd| > 3 {
          eff := Reopen(cmd[3..]);
        }
      } else if StrnEq(cmd, ":w", |cmd|) {
        var bytes := SaveText(e.rows);
        eff := Save(bytes);
      } else if StrnEq(cmd, ":q", |cmd|) {
        mode := QuitMode;
      } else if StrnEq(cmd, ":wq", |cmd|) {
        var bytes := SaveText(e.rows);
        eff := Save(bytes);
        mode := QuitMode;
      }
    }

    /** A key in COMMAND mode: editing the command line at `mcol`. */
    method CommandKey(c: int) returns (eff: Effect)
      requires Ready()
      modifies this`cursor, this`anchor, this`mode, this`mcol, this`msg
      ensures (Snap(), eff) == CommandLine(old(Snap()), c)
    {
      eff := NoEffect;
      if c == ESC {
        mode := ViewMode;
      } else if c == BACKSPACE {
        if mcol > 1 {
          msg := CharDeleted(msg, mcol - 1);
          mcol := mcol - 1;
        } else {
          mode := ViewMode;
        }
      } else if c == ARROW_LEFT {
        if mcol > 1 {
          mcol := mcol - 1;
        }
      } else if c == ARROW_RIGHT {
        if mcol < |msg| {
          mcol := mcol + 1;
        }
      } else if c == ENTER {
        mode := ViewMode;
        eff := DoUserCommand(msg);
      } else {
        msg := CharInserted(msg, mcol, ByteOf(c));
        mcol := mcol + 1;
      }
    }

    /** `Insert(c)`. */
    method Insert(c: int, env: Env)
      requires Ready()
      modifies this`cursor, this`anchor, this`mode, this`cmdStack, e
      ensures Snap() == InsertKey(old(Snap()), c, env)
    {
      if c == BACKSPACE {
        Backspace(env);
        return;
      }
      var len := |e.rows[cursor.r]|;
      anchor := anchor.(r := -1);
      if c == ESC {
        mode := ViewMode;
      } else if c == ARROW_DOWN {
        cursor := Down(e.rows, cursor);
      } else if c == ARROW_UP {
        cursor := Up(cursor);
      } else if c == ARROW_LEFT {
        cursor := Left(e.rows, cursor);
      } else if c == ARROW_RIGHT {
        cursor := Right(e.rows, cursor);
      } else if c == ENTER {
        cursor := cursor.(c := Min(cursor.c, len));
        var cmd := Command(cursor, [], 0, NewRow);
        cmdStack := Push(cmd, cmdStack);
        DoCommand(e, cmd, env.insertRange);
        cursor := Point(cursor.r + 1, 0);
      } else {
        cursor := cursor.(c := Min(cursor.c, len));
        var cmd := Command(cursor, [[ByteOf(c)]], 1, Add);
        cursor := cursor.(c := cursor.c + 1);
        cmdStack := Push(cmd, cmdStack);
        DoCommand(e, cmd, env.insertRange);
      }
    }

    /** The BACKSPACE arm of `Insert`. */
    method Backspace(env: Env)
      requires Ready()
      modifies this`cursor, this`anchor, this`cmdStack, e
      ensures Snap() == InsertKey(old(Snap()), BACKSPACE, env)
    {
      var len := |e.rows[cursor.r]|;
      anchor := anchor.(r := -1);
      cursor := cursor.(c := Min(cursor.c, len));
      var cmd;
      if cursor.c == 0 && cursor.r > 0 {
        cmd := Command(cursor.(c := len), [], 0, DelRow);
        cursor := Point(cursor.r - 1, |e.rows[cursor.r - 1]|);
      } else if cursor.c > 0 {
        var at := cursor.(c := cursor.c - 1);
        cmd := Command(at, [[e.rows[at.r][at.c]]], 1, Delete);
        SingleCharDeleteEnd(cmd);
        cursor := at;
      } else {
        return;
      }
      cmdStack := Push(cmd, cmdStack);
      DoCommand(e, cmd, env.insertRange);
    }

    /** The motion arms of `View`. */
    method MoveCursor(c: int, next: int)
      requires Ready() && IsMotionKey(c)
      modifies this`cursor
      ensures cursor == ViewMotion(e.rows, old(cursor), c, next)
    {
      var len := |e.rows[cursor.r]|;
      if c == ARROW_DOWN || c == 'j' as int {
        cursor := cursor.(r := Min(|e.rows| - 1, cursor.r + 1));
      } else if c == ARROW_UP || c == 'k' as int {
        cursor := cursor.(r := Max(0, cursor.r - 1));
      } else if c == ARROW_LEFT || c == 'h' as int {
        cursor := cursor.(c := Max(0, Min(cursor.c - 1, len - 1)));
      } else if c == ARROW_RIGHT || c == 'l' as int {
        cursor := cursor.(c := cursor.c + (if cursor.c < len then 1 else 0));
      } else if c == '0' as int {
        cursor := cursor.(c := 0);
      } else if c == '$' as int {
        cursor := cursor.(c := len);
      } else if c == 'G' as int {
        cursor := cursor.(r := |e.rows| - 1);
        cursor := cursor.(c := Max(0, |e.rows[cursor.r]| - 1));
      } else if next == 'g' as int {
        cursor := Point(0, 0);
      }
    }

    /** The arms of `View` that switch to INSERT mode. */
    method StartInsert(c: int, env: Env)
      requires Ready() && IsInsertEntry(c)
      modifies this`cursor, this`anchor, this`mode, this`cmdStack, e
      ensures Snap() == EnterInsert(old(Snap()), c, env)
    {
      var len := |e.rows[cursor.r]|;
      if c == 'I' as int {
        cursor := cursor.(c := 0);
      } else if c == 'a' as int {
        cursor := cursor.(c := cursor.c + (if cursor.c < len then 1 else 0));
      } else if c == 'A' as int {
        cursor := cursor.(c := len);
      } else if c == 'o' as int {
        cursor := cursor.(c := len);
        Insert(ENTER, env);
      } else if c == 'O' as int {
        cursor := cursor.(c := 0);
        Insert(ENTER, env);
        cursor := cursor.(r := Max(0, cursor.r - 1));  // the nested View('k')
      }
      mode := InsertMode;
    }

    /** The `y`, `p`, `d` and `u` arms of `View`. */
    method EditCommand(c: int, env: Env)
      requires ViewCanRun(Snap(), c, env) && c in {'y' as int, 'p' as int, 'd' as int, 'u' as int}
      modifies this`cursor, this`anchor, this`cmdStack, e
      ensures Snap() == EditKey(old(Snap()), c, env)
    {
      if c == 'y' as int {
        var span := YankRange(e.rows, cursor, anchor);
        e.CopyToClipboard(span.0, span.1);
      } else if c == 'p' as int {
        if |e.clipboard| > 0 {
          var cmd := PasteCommand(e.rows, cursor, e.clipboard, env.copyRange);
          cmdStack := Push(cmd, cmdStack);
          DoCommand(e, cmd, env.insertRange);
        }
      } else if c == 'd' as int {
        if anchor.r != -1 {
          var cmd := SelectionDelete(e.rows, cursor, anchor, env.copyRange);
          cmdStack := Push(cmd, cmdStack);
          DoCommand(e, cmd, env.insertRange);
          cursor := MinPoint(anchor, cursor);
          anchor := anchor.(r := -1);
        }
      } else {
        if cmdStack != [] {
          var cmd := cmdStack[0];
          UndoCommand(e, cmd, env.insertRange);
          cursor := cmd.at;
          if cmd.kind == DelRow {
            cursor := cursor.(c := 0);
          }
          cmdStack := RemoveNode(cmdStack);
        }
      }
    }

    /** `View(c)`; `next` is the key `g` reads. */
    method View(c: int, next: int, env: Env) returns (eff: Effect)
      requires ViewCanRun(Snap(), c, env)
      modifies this`cursor, this`anchor, this`mode, this`msg, this`mcol, this`cmdStack, e
      ensures (Snap(), eff) == ViewKey(old(Snap()), c, next, env)
    {
      eff := NoEffect;
      if c == ESC {
        anchor := anchor.(r := -1);
      } else if c == '.' as int {
        eff := DoUserCommand(msg);
      } else if c == '/' as int || c == ':' as int {
        mode := CommandMode;
        msg, mcol := [], 0;
        eff := CommandKey(c);
        assert msg == [ByteOf(c)] by {
          assert CharInserted([], 0, ByteOf(c)) == [ByteOf(c)];
        }
      } else if IsInsertEntry(c) {
        StartInsert(c, env);
      } else if IsMotionKey(c) {
        MoveCursor(c, next);
      } else if c == 'v' as int {
        if anchor.r == -1 {
          anchor := cursor;
        } else {
          anchor := anchor.(r := -1);
        }
      } else if c in {'y' as int, 'p' as int, 'd' as int, 'u' as int} {
        EditCommand(c, env);
      }
    }

    /** `editorProcessKey(c)`. */
    method ProcessKey(c: int, next: int, env: Env) returns (eff: Effect)
      requires Ready() && (mode == ViewMode ==> ViewCanRun(Snap(), c, env))
      modifies this`cursor, this`anchor, this`mode, this`msg, this`mcol, this`cmdStack, e
      ensures (Snap(), eff) == KeyStep(old(Snap()), c, next, env)
    {
      eff := NoEffect;
      if mode == ViewMode {
        eff := View(c, next, env);
      } else if mode == InsertMode {
        Insert(c, env);
      } else if mode == CommandMode {
        eff := CommandKey(c);
      }
    }
  }

  /** With `top` as the first row shown, the bounded cursor is not past the
      largest displayed point that `getLargestDisplayedPoint` computes. When
      the last counted row overflows the screen that point lies beyond the
      drawn columns (see `OverflowPointPastScreen`), so this is the test the
      scroll loop makes, not a guarantee that the cursor is drawn. */
  predicate Shows(rows: Buffer, cursor: Point, top: nat, maxr: int, maxc: int)
    requires CursorOk(rows, cursor) && top < |rows| && maxr > 1 && maxc > 0
  {
    !PointGreater(BoundedCursor(rows, cursor), LargestDisplayed(rows, top, maxr, maxc))
  }

  /** One row of 120 bytes on a screen of two lines (one for text) and 40
      columns: only columns 0..39 are drawn, yet the largest displayed point
      is column 160, so a cursor at column 100 passes the scroll test. */
  lemma OverflowPointPastScreen()
    ensures var rows: Buffer := [seq(120, _ => 'x')];
      && Sublines(120, 40) == 3
      && LargestDisplayed(rows, 0, 2, 40) == Point(0, 160)
      && Shows(rows, Point(0, 100), 0, 2, 40)
  {
    var rows: Buffer := [seq(120, _ => 'x')];
    assert Sublines(|rows[0]|, 40) == 3;
    assert Walk(rows, 1, 4, 2, 40) == (1, 4);
    assert Walk(rows, 0, 1, 2, 40) == (1, 4);
  }

  /** A top row whose largest displayed point is before the cursor lies at
      or above the cursor row, and is not the last row. */
  lemma ScrollStep(rows: Buffer, cursor: Point, top: nat, maxr: int, maxc: int)
    requires CursorOk(rows, cursor) && top < |rows| && maxr > 1 && maxc > 0
    requires cursor.r + 1 < |rows| || Shows(rows, cursor, cursor.r, maxr, maxc)
    requires !Shows(rows, cursor, top, maxr, maxc)
    ensures top <= cursor.r && top + 1 < |rows|
  {
    var p := LargestDisplayed(rows, top, maxr, maxc);
    assert top <= p.r <= cursor.r;
  }

  /** The columns left for text once the gutter and one more column are taken. */
  function ContentWidth(wsCol: int, coloff: int): int
  {
    wsCol - coloff - 1
  }

  /** The scrolling loop of `adjustToprow`: the first top row, from `top0`
      on, for which the bounded cursor is not past the largest displayed
      point. */
  method ScrollDown(rows: Buffer, cursor: Point, top0: nat, wsRow: int, wsCol: int, coloff: int) returns (top: nat)
    requires CursorOk(rows, cursor) && top0 <= cursor.r && wsRow > 1 && ContentWidth(wsCol, coloff) > 0
    requires cursor.r + 1 < |rows| || Shows(rows, cursor, cursor.r, wsRow, ContentWidth(wsCol, coloff))
    ensures top0 <= top <= cursor.r + 1 && top < |rows| && Shows(rows, cursor, top, wsRow, ContentWidth(wsCol, coloff))
    ensures forall t :: top0 <= t < top ==> !Shows(rows, cursor, t, wsRow, ContentWidth(wsCol, coloff))
    ensures 1 + Sublines(|rows[cursor.r]|, ContentWidth(wsCol, coloff)) <= wsRow ==> top <= cursor.r
  {
    ghost var maxc := ContentWidth(wsCol, coloff);
    var bounded := BoundedCursor(rows, cursor);
    top := top0;
    var largest := GetLargestDisplayedPoint(rows, top, wsRow, wsCol, coloff);
    while PointGreater(bounded, largest)
      invariant top0 <= top <= cursor.r + 1 && top < |rows|
      invariant largest == LargestDisplayed(rows, top, wsRow, maxc)
      invariant forall t :: top0 <= t < top ==> !Shows(rows, cursor, t, wsRow, maxc)
      decreases cursor.r + 1 - top
    {
      ScrollStep(rows, cursor, top, wsRow, maxc);
      top := top + 1;
      largest := GetLargestDisplayedPoint(rows, top, wsRow, wsCol, coloff);
    }
    if 1 + Sublines(|rows[cursor.r]|, maxc) <= wsRow {
      CursorRowFits(rows, cursor, wsRow, maxc);
    }
  }

  /** When the cursor's row alone fits on the screen, putting it at the top
      leaves the cursor not past the largest displayed point. */
  lemma CursorRowFits(rows: Buffer, cursor: Point, maxr: int, maxc: int)
    requires CursorOk(rows, cursor) && maxr > 1 && maxc > 0
    requires 1 + Sublines(|rows[cursor.r]|, maxc) <= maxr
    ensures Shows(rows, cursor, cursor.r, maxr, maxc)
  {
    var p := LargestDisplayed(rows, cursor.r, maxr, maxc);
    if p.r == cursor.r {
      assert Height(rows, cursor.r, cursor.r + 1, maxc) == Sublines(|rows[cursor.r]|, maxc) by {
        assert Height(rows, cursor.r + 1, cursor.r + 1, maxc) == 0;
      }
    }
  }

  // ---------------------------------------------------------------------
  // Keystroke sequences
  // ---------------------------------------------------------------------

  /** `insertRange` puts a single one-character row into a row as that one
      character: the behaviour the undo of a typed or deleted character
      relies on. */
  predicate InsertsChar(env: Env, rows: Buffer, at: Point, ch: char)
    requires 0 <= at.r < |rows| && 0 <= at.c <= |rows[at.r]|
  {
    env.insertRange(rows, at, [[ch]], 1) == rows[at.r := CharInserted(rows[at.r], at.c, ch)]
  }

  /** Typing a character, leaving INSERT mode and pressing `u` gives back the
      buffer and the undo stack, with the cursor where the character went. */
  lemma TypeThenUndo(u: Ui, key: int, env: Env)
    requires UiReady(u)
    requires key !in {ESC, ARROW_DOWN, ARROW_UP, ARROW_LEFT, ARROW_RIGHT, ENTER, BACKSPACE}
    requires InsertsChar(env, u.rows, BoundedCursor(u.rows, u.cursor), ByteOf(key))
    ensures var x := InsertKey(InsertKey(u, key, env), ESC, env);
      && ViewCanRun(x, 'u' as int, env)
      && ViewKey(x, 'u' as int, 0, env).0.rows == u.rows
      && ViewKey(x, 'u' as int, 0, env).0.stack == u.stack
      && ViewKey(x, 'u' as int, 0, env).0.cursor == BoundedCursor(u.rows, u.cursor)
  {
    var b := BoundedCursor(u.rows, u.cursor);
    UndoTypedChar(u.rows, b, ByteOf(key), env.insertRange);
  }

  /** Deleting a character with Backspace, leaving INSERT mode and pressing
      `u` gives back the buffer and the undo stack. */
  lemma BackspaceThenUndo(u: Ui, env: Env)
    requires UiReady(u)
    requires var b := BoundedCursor(u.rows, u.cursor);
      b.c > 0 && InsertsChar(env, u.rows[b.r := CharDeleted(u.rows[b.r], b.c - 1)], b.(c := b.c - 1), u.rows[b.r][b.c - 1])
    ensures var x := InsertKey(InsertKey(u, BACKSPACE, env), ESC, env);
      && ViewCanRun(x, 'u' as int, env)
      && ViewKey(x, 'u' as int, 0, env).0.rows == u.rows
      && ViewKey(x, 'u' as int, 0, env).0.stack == u.stack
  {
    var b := BoundedCursor(u.rows, u.cursor);
    var row := u.rows[b.r];
    var deleted := u.rows[b.r := CharDeleted(row, b.c - 1)];
    InsertUndoesDelete(row, b.c - 1);
    assert deleted[b.r := CharInserted(deleted[b.r], b.c - 1, row[b.c - 1])] == u.rows;
  }

  /** Enter in INSERT mode logs a NEWROW that neither doing nor undoing
      changes the buffer: undoing it only pops the stack and moves the cursor
      back to where Enter was pressed. */
  lemma EnterThenUndo(u: Ui, env: Env)
    requires UiReady(u) && u.cursor.r + 1 < |u.rows|
    ensures var x := InsertKey(InsertKey(u, ENTER, env), ESC, env);
      && InsertKey(u, ENTER, env).rows == u.rows
      && ViewCanRun(x, 'u' as int, env)
      && ViewKey(x, 'u' as int, 0, env).0.rows == u.rows
      && ViewKey(x, 'u' as int, 0, env).0.stack == u.stack
      && ViewKey(x, 'u' as int, 0, env).0.cursor == BoundedCursor(u.rows, u.cursor)
  {
  }

  /** Because Enter adds no row, pressing it on the last row moves the cursor
      below the buffer: the row the next key reads does not exist. */
  lemma EnterOnLastRowLeavesBuffer(u: Ui, env: Env)
    requires UiReady(u) && u.cursor.r == |u.rows| - 1
    ensures InsertKey(u, ENTER, env).rows == u.rows
    ensures InsertKey(u, ENTER, env).cursor.r == |u.rows|
    ensures !UiReady(InsertKey(u, ENTER, env))
  {
  }

  /** Pressing `v` twice without a selection ends without one, with nothing
      else changed. */
  lemma VisualToggleTwice(u: Ui, env: Env)
    requires UiReady(u) && u.anchor.r == -1
    ensures var once := ViewKey(u, 'v' as int, 0, env).0;
      && once.anchor == u.cursor
      && ViewCanRun(once, 'v' as int, env)
      && ViewKey(once, 'v' as int, 0, env).0 == u.(anchor := u.cursor.(r := -1))
  {
  }

  /** On the command line, Backspace removes the character just typed. */
  lemma TypeThenBackspace(u: Ui, key: int)
    requires UiReady(u) && u.mcol >= 1
    requires key !in {ESC, BACKSPACE, ARROW_LEFT, ARROW_RIGHT, ENTER}
    ensures var typed := CommandLine(u, key).0;
      UiReady(typed) && CommandLine(typed, BACKSPACE).0 == u
  {
    DeleteUndoesInsert(u.msg, u.mcol, ByteOf(key));
  }
}
