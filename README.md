# elfin editing core in Dafny

This project models the editing core of **elfin**, a small modal terminal
text editor written in C. It covers four parts:

- **Row store and range editor** (`editor.c`). A buffer is a non-empty list
  of text rows. The editor has character and string splices inside a row,
  row insertion, splitting and removal, multi-row range deletion, a
  clipboard, and the row-then-column order of points. It also has the line
  format that the file loader reads and the saver writes.
- **Command log** (`command.c`). An edit is recorded as `Add`, `Delete`,
  `NewRow` or `DelRow`. `doCommand` runs a command and `undoCommand` runs
  its inverse. Commands are kept on a LIFO stack.
- **Viewport arithmetic** (`display.c`). This part covers:
  - the output append buffer;
  - the bounded cursor;
  - the count of wrapped sublines that decides the last displayed point;
  - the scrolling loop of `adjustToprow`;
  - the literal forward search with wrap-around.
- **Mode dispatcher** (`elfin.c`). The global interface `I` becomes the
  class `Elfin.Interface`. It has the VIEW, INSERT, COMMAND and QUIT
  handlers, the command line with its own column, the verbs of
  `doUserCommand`, and the gutter width.

Rows are value sequences (`seq<char>`). `EditorCore.Editor` holds the rows
and the clipboard as fields, and its methods reassign them. Each mutating
method is proved equal to a pure function on the old state. Properties
such as undo, round trips and order are proved as lemmas about those
functions.

The key handlers work the same way. `Elfin.Ui` is a value with the part of
the interface state a key can change. `InsertKey`, `ViewKey`,
`CommandLine` and `KeyStep` give the new state. The methods of
`Interface` are proved to produce exactly that state (`Snap()`).

Some behaviour is taken as parameters:

- `insertRange` and `copyRange` are declared in `editor.h` but have no
  body in the modelled files. They are function-valued parameters
  (`Elfin.Env`) and are given no behaviour.
- File reading and writing, the terminal and the clock are outside the
  model. Loading and saving are functions over byte sequences.
- `:w` and `:e <path>` are returned as an `Effect`: the bytes to write, or
  the path to reopen.
- The second key of `gg` is a parameter of `View`.

Behaviour of the C code that the model reproduces as written:

- **`NewRow` and `DelRow` change nothing.** `doCommand` has arms only for
  `Add` and `Delete`. Doing or undoing a `NewRow` or `DelRow` leaves the
  buffer as it is.
- **Enter in INSERT mode adds no row.** It logs a `NewRow` and moves the
  cursor to `(r + 1, 0)`, but the buffer does not grow. On the last row
  the cursor ends up below the buffer (`Elfin.EnterOnLastRowLeavesBuffer`).
  For that reason a "cursor inside the buffer" invariant does not hold
  after Enter, `o` or `O`.
- **The loader drops every `'\r'`,** not only one that comes before a
  `'\n'`.
- **The bounded cursor clamps to the row length,** not to the length
  minus one.
- **`:w`, `:q` and `:wq` are compared with `strncmp` over the text's own
  length.** The text must spell the verb and then end or hold a NUL byte.
  A text without NUL bytes therefore matches only the exact verb
  (`Elfin.VerbsWithoutNul`).
- **`search` exists twice,** in `display.c` and in `elfin.c` (lines
  371-395). The two copies are identical, so one model (`Display.Search`)
  stands for both.
- **A single-row yank copies from column 0.** It ignores the start column
  because the last copy overwrites the first clipboard row.
- **The largest displayed point overshoots when the screen overflows.**
  When the last counted row does not fit, `getLargestDisplayedPoint` adds
  `(extra - 1) * maxc` to the column instead of taking it off. The point
  can then lie beyond the columns that are drawn, so the scroll loop can
  stop with the cursor off the screen. `Display.LargestDisplayedOverflow`
  states the general fact. `Elfin.OverflowPointPastScreen` gives an
  example: one row of 120 bytes, 40 columns and one text line, where a
  cursor at column 100 passes the test.

## Model

| member | source | states |
|---|---|---|
| Points.Min | editor.c:11 | the result is one of the arguments and no larger than either |
| Points.Max | editor.c:12 | the result is one of the arguments and no smaller than either |
| Points.OrderIsRowMajor | editor.c:15-35 | `pointLess` and `pointGreater` are the strict row-then-column order and each other's converse; `pointEqual` is equality; a point that is neither less nor greater is equal |
| Points.LessTransitive | editor.c:27-35 | `pointLess` is transitive |
| Points.MaxPoint | editor.c:37-43 | returns one of its arguments, neither argument lies after it, and on equal points it returns the second |
| Points.MinPoint | editor.c:45-51 | returns one of its arguments, neither argument lies before it, and on equal points it returns the second |
| Points.MinBeforeMax | editor.c:37-51 | the minimum never lies after the maximum, and the two are exactly the two arguments |
| EditorCore.CharInserted | editor.c:62-72 | `insertChar`: one longer, `c` at `pos`, bytes before `pos` kept, bytes from `pos` shifted right by one |
| EditorCore.StringInserted | editor.c:76-87 | `insertString`: `str[0..len)` spliced at `pos`, prefix and suffix kept, length grows by `len`, no change for `len == 0` |
| EditorCore.CharDeleted | editor.c:91-98 | `deleteChar`: one shorter, bytes before `pos` kept, later bytes shifted left by one |
| EditorCore.DeleteUndoesInsert | editor.c:62-98 | `deleteChar(pos)` after `insertChar(pos, c)` restores the row |
| EditorCore.InsertUndoesDelete | editor.c:62-98 | putting the deleted byte back at `pos` restores the row |
| EditorCore.OneCharString | editor.c:62-87 | inserting a one-byte string equals inserting that byte |
| EditorCore.RowAdded | editor.c:103-120 | `newRow(at)`: one more row, an empty row at `at`, rows before it kept, rows from `at` shifted up by one |
| EditorCore.RowSplit | editor.c:124-138 | `insertNewline(row, col)`: one more row; `row` keeps the first `col` bytes and the new `row + 1` the rest, together the old row; other rows kept in order |
| EditorCore.RowRemoved | editor.c:140-151 | `deleteRow(idx)`: no change when only one row is left, otherwise row `idx` removed and later rows shifted down |
| EditorCore.RemoveUndoesAdd | editor.c:103-151 | removing a freshly added empty row restores the buffer |
| EditorCore.Suffix | editor.c:183-186 | the end row keeps `max(0, len - from)` bytes (the length clamp), and they are its last bytes |
| EditorCore.RangeDeleted | editor.c:159-198 | `deleteRange` in its three cases: a single byte or an empty row for `start == end`; columns `[start.c, end.c]` within one row; across rows, the start prefix joined with the end row's rest, with `end.r - start.r` rows fewer and the rows outside the span kept in order |
| EditorCore.SameRowDeleteRestores | editor.c:173-177 | on one row, exactly the span `[start.c, end.c]` disappears: splicing it back at `start.c` restores the row |
| EditorCore.RangeDeleteRowCount | editor.c:159-198 | the row count drops by one only for an empty row (and not below one row), is unchanged within one row, and drops by `end.r - start.r` across rows |
| EditorCore.LastPiece | editor.c:217-220 | the last clipboard row is the end row's bytes `[0, end.c]`, including the terminator when `end.c` is the row length |
| EditorCore.Clipped | editor.c:200-221 | `clipboard_len == end.r - start.r + 1`, the first row from `start.c` on (multi-row case), the middle rows whole, the last row `[0, end.c]` |
| EditorCore.SingleRowCopyFromColumnZero | editor.c:207-220 | a single-row copy is the prefix up to `end.c` whatever `start.c` is |
| EditorCore.Pasted | editor.c:223-241 | `pasteClipboard`: the first clipboard row spliced into row `at.r` at `at.c` without splitting it, the other clipboard rows inserted right after, the rest kept in order |
| EditorCore.YankLinePasteOnEmptyRow | editor.c:200-241 | yanking a whole row and pasting it on an empty row makes that row a copy of it |
| EditorCore.LoadStep | editor.c:254-261 | one loaded byte: `'\n'` opens a new last row, `'\r'` is dropped, any other byte goes on the end of the last row |
| EditorCore.Trimmed | editor.c:264-266 | the result is a prefix of the rows, at most one row shorter; it is one row shorter exactly when there is more than one row and the last is empty |
| EditorCore.Loaded | editor.c:243-269 | a file that cannot be opened gives exactly one empty row |
| EditorCore.CarriageReturnsIgnored | editor.c:258 | loading gives the same rows with every `'\r'` removed from the input, wherever it stands |
| EditorCore.ScanLine | editor.c:254-261 | bytes without line breaks are appended to the current last row |
| EditorCore.ScanSerialized | editor.c:254-261 | loading the saved text of line-break-free rows rebuilds those rows plus one open empty row |
| EditorCore.SaveThenLoad | editor.c:243-277 | loading a saved buffer whose rows hold no `'\n'` or `'\r'` gives back the same rows |
| EditorCore.SerializedSnoc | editor.c:271-277 | saving one more row appends that row and a `'\n'` to the saved text |
| EditorCore.ReadRows | editor.c:253-261 | the byte-by-byte load loop builds exactly the rows of the load scan |
| EditorCore.SaveText | editor.c:271-277 | the save loop writes every row followed by `'\n'`, the last row included |
| EditorCore.Editor.FromFile | editor.c:243-269 | `editorFromFile`: the rows are the loaded rows (one empty row for a missing file) and the clipboard is empty |
| EditorCore.Editor.InsertChar | editor.c:62-72 | the row becomes `CharInserted` of the old row; other rows and the clipboard unchanged |
| EditorCore.Editor.InsertString | editor.c:76-87 | the row becomes `StringInserted` of the old row; nothing else changes |
| EditorCore.Editor.DeleteChar | editor.c:91-98 | the row becomes `CharDeleted` of the old row; nothing else changes |
| EditorCore.Editor.NewRow | editor.c:103-120 | the rows become `RowAdded` of the old rows; clipboard unchanged |
| EditorCore.Editor.InsertNewline | editor.c:124-138 | the rows become `RowSplit` of the old rows, built by adding a row and moving the tail into it |
| EditorCore.Editor.DeleteRow | editor.c:140-151 | the rows become `RowRemoved` of the old rows |
| EditorCore.Editor.DeleteRange | editor.c:159-198 | the rows become `RangeDeleted` of the old rows; clipboard unchanged |
| EditorCore.Editor.JoinRows | editor.c:179-197 | multi-row case: the end row loses `[0, end.c]`, the start prefix is inserted in front of it, and rows `[start.r, end.r)` are dropped |
| EditorCore.Editor.CopyToClipboard | editor.c:200-221 | the rows are unchanged and the clipboard becomes `Clipped`, built row by row |
| EditorCore.Editor.PasteClipboard | editor.c:223-241 | the clipboard is unchanged and the rows become `Pasted` |
| Commands.DeleteEnd | command.c:10-14 | the end point of a `Delete`: `numrows - 1` rows below `at`, at the last payload row's last column, shifted by `at.c` for a single row |
| Commands.Done | command.c:6-17 | `doCommand`: `Add` is `insertRange`, `Delete` is `deleteRange(at, DeleteEnd)`, `NewRow` and `DelRow` change nothing |
| Commands.Inverse | command.c:19-25 | the undo copy keeps `at`, `rows` and `numrows`, swaps `Add` and `Delete`, and keeps the other two kinds |
| Commands.InverseInvolution | command.c:19-25 | inverting twice gives the original command |
| Commands.RowCommandsChangeNothing | command.c:6-27 | doing or undoing a `NewRow` or `DelRow` leaves the buffer as it is |
| Commands.SingleCharDeleteEnd | command.c:10-15 | a one-row `Delete` of a one-byte payload ends where it starts, so `deleteRange` takes its single-byte path |
| Commands.UndoTypedChar | command.c:19-27 | undoing the one-byte `Add` of a typed key removes exactly that byte |
| Commands.DoCommand | command.c:6-17 | the rows become `Done` of the old rows; the clipboard is unchanged |
| Commands.UndoCommand | command.c:19-27 | the rows become `Done` of the inverse command |
| Commands.Push | command.c:44-50 | the pushed command is the top and the old stack the tail |
| Commands.RemoveNode | command.c:36-42 | an empty stack stays empty; otherwise exactly the top is dropped |
| Commands.PopAfterPush | command.c:36-50 | popping after pushing gives the original stack back |
| Display.AppendBuffer.Append | display.c:14-21 | the first `len` bytes of `s` go after the old content, which is unchanged; the size grows by `len` |
| Display.BoundedCursor | display.c:66-70 | same row, column `min(c, len)`: the cursor itself when it is inside the row, the row length otherwise |
| Display.SublinesIsCeiling | display.c:84 | a row of `len` bytes takes `ceil(len / maxc)` sublines, and an empty row exactly one |
| Display.Walk | display.c:82-85 | the counting loop stops at the end of the buffer or once the budget is reached; its count is 1 plus the sublines of the rows passed, and it stays under the budget before each row it counts |
| Display.LargestDisplayed | display.c:72-92 | the last counted row lies in `[toprow, numrows)`; when the budget is not exceeded, its column is the row's full length; every row up to it starts within the budget, and a later row would not |
| Display.LargestDisplayedOverflow | display.c:86-91 | when the last counted row overflows the screen, the column is at least the start of that row's last screen line: `(extra - 1) * maxc` is added, not taken off |
| Display.GetLargestDisplayedPoint | display.c:72-92 | the loop with its local accumulators returns exactly `LargestDisplayed` |
| Display.FindInRow | display.c:45-58 | the first column from `from` on where the needle lies wholly inside the row, or none when there is no such column |
| Display.FirstMatchFrom | display.c:41-58 | the first match in reading order from row `i`, column `col`, with no match skipped |
| Display.SearchSound | display.c:39-63 | the result is a real occurrence of the needle when any row contains it, and `start` when none does; a match later in the start row is found before anything else |
| Display.Search | display.c:39-63 | scans the start row from `start.c + 1`, then the following rows, then wraps to row 0, and returns `SearchResult` |
| Elfin.DigitCountBounds | elfin.c:40-50 | for `n > 0`, the digit count `d` satisfies `10^(d-1) <= n < 10^d` |
| Elfin.Quot10 | elfin.c:46 | C's `n /= 10` truncates toward zero: the magnitude is divided by ten and the sign is kept (0 when the magnitude is under ten) |
| Elfin.CountDigits | elfin.c:40-50 | `countDigits` returns the number of decimal digits of `|n|`, 0 for 0 |
| Elfin.Interface.UpdateGutter | elfin.c:486 | the gutter is `max(4, digits(numrows) + 2)`, which is wide enough for every row number |
| Elfin.Interface.constructor | elfin.c:52-65 | `init_I` on a loaded editor: top row 0, VIEW mode, cursor `(0, 0)`, no selection, empty stack, gutter `max(4, digits + 2)`; the command line, which `init_I` leaves unset, starts empty |
| Elfin.ClampCol | elfin.c:245-248 | a column clamped to `[0, len - 1]`: unchanged when inside, `len - 1` above, 0 below (and 0 for an empty row) |
| Elfin.YankRange | elfin.c:214-224 | `y` copies the cursor's line without a selection; with one, from `min(cursor, anchor)` to `max(cursor, anchor)`, the start column clamped to `[0, len - 1]` and the end column to `len - 1` of their rows |
| Elfin.SelectionDelete | elfin.c:241-262 | the `Delete` that `d` pushes starts at `min(cursor, anchor)` with its column clamped to `[0, len - 1]`, spans `end.r - start.r + 1` rows, and carries `copyRange` of the selection with both end columns clamped |
| Elfin.PasteCommand | elfin.c:225-240 | the `Add` that `p` pushes sits at the cursor row with the column clamped to the row length, has as many rows as the clipboard, and carries `copyRange` of the whole clipboard |
| Elfin.StrnFromLiteral | elfin.c:414-418 | `strncmp` over the text's length against a verb: a long enough text must spell the verb and then end or hold a NUL; a shorter text must be a prefix of it |
| Elfin.VerbOf | elfin.c:397-420 | which branch a command line takes: texts of length <= 1 are ignored; `/` starts a search; `:e ` with a path is a reopen; `:w`, `:q` and `:wq` match as `strncmp` does |
| Elfin.VerbsWithoutNul | elfin.c:414-418 | for a text without NUL bytes, `:w`, `:q` and `:wq` match exactly their own spelling |
| Elfin.UserCommand | elfin.c:397-420 | a search moves the cursor to a real match (or leaves it when there is none) and selects `|pattern|` bytes; `:w` and `:wq` ask to save exactly the serialized buffer; `:q` and `:wq` switch to QUIT; `:e <path>` asks for a reopen; nothing else changes |
| Elfin.Interface.DoUserCommand | elfin.c:397-420 | the new cursor, anchor, mode and effect are exactly `UserCommand` |
| Elfin.Down | elfin.c:185-188 | one row down, stopping at the last row |
| Elfin.Up | elfin.c:189-192 | one row up, stopping at row 0 |
| Elfin.Left | elfin.c:193-196 | `max(0, min(c - 1, len - 1))`, staying in the buffer |
| Elfin.Right | elfin.c:197-200 | one column right only while `c < len` |
| Elfin.UpUndoesDown | elfin.c:185-192 | down then up comes back, except from the last row |
| Elfin.LeftRightInverse | elfin.c:193-200 | inside a row, left and right undo each other |
| Elfin.InsertKey | elfin.c:289-368 | every key clears the selection; the arrows move as `Down`, `Up`, `Left` and `Right`, and ESC returns to VIEW with the cursor kept, none of them logging; Enter logs one `NewRow`, adds no row and moves to `(r + 1, 0)`; Backspace deletes the byte before the bounded cursor and logs one `Delete`, at column 0 of a later row moves to the end of the row above and logs a `DelRow`, which changes no row, or at `(0, 0)` logs nothing; a printable key logs one `Add` at the bounded cursor and advances it; at most one command is pushed |
| Elfin.ViewMotion | elfin.c:185-206 | `j`, `k`, `h`, `l` and the arrows move as `Down`, `Up`, `Left`, `Right`; `0` goes to column 0, `$` to `len`, `G` to `(numrows - 1, max(0, len - 1))`, `gg` to `(0, 0)`; the cursor stays in the buffer |
| Elfin.EnterInsert | elfin.c:159-184 | `i`, `I`, `a`, `A` place the cursor and switch to INSERT without logging; `o` and `O` run an Enter (one `NewRow`) from the end or start of the row, and `O` then moves up |
| Elfin.EditKey | elfin.c:214-285 | `y` sets the clipboard to the copied span; `p` logs and runs one `Add`; `d` with a selection logs and runs one `Delete`, puts the cursor at the selection start and clears the anchor; `u` undoes the top command, moves to its `at` (column 0 for `DelRow`) and pops exactly one node; with nothing to act on, nothing changes |
| Elfin.ViewKey | elfin.c:142-287 | `View`: ESC clears the selection; `v` toggles the anchor between the cursor and none; `/` and `:` open the command line with that byte; `.` reruns the command line; the other keys are `ViewMotion`, `EnterInsert` and `EditKey`; unknown keys change nothing |
| Elfin.ViewKeyFrame | elfin.c:142-287 | only `.` asks anything of the outside, only `y` writes the clipboard, only `p`, `d` and `u` change the rows, only `/` and `:` touch the command line; a key pushes at most one command, and `u` pops exactly one |
| Elfin.CommandLine | elfin.c:422-454 | ESC returns to VIEW; Backspace deletes before `mcol`, or returns to VIEW at `mcol <= 1`; left never goes below 1 and right never beyond the line; Enter returns to VIEW and runs the line; any other key inserts at `mcol` and advances it |
| Elfin.KeyStep | elfin.c:456-464 | VIEW keys go to `ViewKey`, INSERT keys to `InsertKey` (with no effect), COMMAND keys to `CommandLine`; QUIT ignores keys; only `.` in VIEW or Enter in COMMAND ask anything of the outside, and a save writes the serialized buffer |
| Elfin.Interface.Insert | elfin.c:289-368 | the new interface state is exactly `InsertKey` of the old one |
| Elfin.Interface.Backspace | elfin.c:322-349 | the Backspace arm, exactly as `InsertKey` |
| Elfin.Interface.MoveCursor | elfin.c:185-206 | the cursor becomes `ViewMotion` of the old cursor |
| Elfin.Interface.StartInsert | elfin.c:159-184 | the new state is exactly `EnterInsert` of the old one |
| Elfin.Interface.EditCommand | elfin.c:214-285 | the new state is exactly `EditKey` of the old one |
| Elfin.Interface.View | elfin.c:142-287 | the new state and effect are exactly `ViewKey` of the old state |
| Elfin.Interface.CommandKey | elfin.c:422-454 | the new state and effect are exactly `CommandLine` of the old state |
| Elfin.Interface.ProcessKey | elfin.c:456-464 | the new state and effect are exactly `KeyStep` of the old state |
| Elfin.ScrollStep | display.c:99-101 | a top row whose largest displayed point is before the cursor lies at or above the cursor row and is not the last row, so the loop can go on |
| Elfin.ScrollDown | display.c:99-101 | the scroll loop returns the first top row, from the old one on, for which the bounded cursor is not past the largest displayed point; it stays below `numrows` and at most one past the cursor row, and at the cursor row when that row fits on the screen |
| Elfin.CursorRowFits | display.c:72-103 | when the cursor's row alone fits on the screen, the cursor is not past the largest displayed point with that row at the top |
| Elfin.OverflowPointPastScreen | display.c:72-103 | with one 120-byte row, 40 columns and one text line, the row takes 3 screen lines, the largest displayed point is `(0, 160)`, and a cursor at `(0, 100)`, which is not drawn, passes the scroll test |
| Elfin.Interface.AdjustToprow | display.c:94-103 | a cursor above the top row becomes the top row; otherwise the top row only grows, to the first one whose largest displayed point is not before the bounded cursor |
| Elfin.TypeThenUndo | elfin.c:273-285 | typing a byte, ESC and `u` give back the buffer and the stack, with the cursor where the byte went |
| Elfin.BackspaceThenUndo | elfin.c:322-349 | Backspace, ESC and `u` give back the buffer and the stack |
| Elfin.EnterThenUndo | elfin.c:308-321 | Enter leaves the buffer as it is, and undoing it only pops the stack and returns the cursor |
| Elfin.EnterOnLastRowLeavesBuffer | elfin.c:308-321 | Enter on the last row moves the cursor to row `numrows`, outside the buffer |
| Elfin.VisualToggleTwice | elfin.c:207-213 | `v` twice without a selection ends without one, with nothing else changed |
| Elfin.TypeThenBackspace | elfin.c:427-434 | on the command line, Backspace removes the byte just typed |

## Left out

- Terminal and process handling are not modelled: raw mode, `readKey` and
  its escape decoding, `die`, `cleanup`, the main loop, the `SIGWINCH`
  handler and the window-size `ioctl`. The window size is an input of the
  constructor.
- Rendering is not modelled: `printEditorContents`, `printEditorStatus`,
  `statusPrintMode`, `clearScreen` and `move` only produce escape
  sequences.
- Memory management is not modelled: `malloc`, `realloc` and `free`,
  `freeRow`, `freeRowarr`, `destroyEditor`, `freeCommand`, `destroy_I`,
  `abFree`, and `abAppend`'s allocation-failure branch. Rows are values,
  so the copies the C code makes are automatic.
- `insertRange` and `copyRange` have no definition in the modelled files.
  They are parameters with no assumed behaviour. The undo lemmas for typed
  and deleted bytes state the one property of `insertRange` they rely on
  (`Elfin.InsertsChar`) as a precondition.
- File access is not modelled: opening, reading and writing files. `:w`
  returns the bytes to write and `:e <path>` returns the path. The model
  does not rebuild the interface for `:e`, which `init_I` does.
- Elfin.Interface.constructor: takes an already loaded editor rather than
  a file name. `init_I` leaves the command line's length and `mcol` unset;
  the model starts them at `[]` and 0.
- Display.AppendBuffer.Append: the `size` field is the length of `buf`.
- EditorCore.Serialized: writes each row's `len` bytes. `fprintf("%s")`
  writes up to the first NUL byte instead, which can come earlier or later
  than `len` (see the next line).
- Rows are taken to end exactly at their length. In C, `text[len]` is not
  always NUL: `insertString` does not write a terminator after the new
  length (editor.c:82-86), and the single-row `deleteRange` does not move
  it (editor.c:174-176). For example, deleting `[0, 5]` from "hello world"
  leaves length 5 but the C string "world world". The model does not
  capture the stale bytes past `len`. They matter where the C code reads
  past `len`: the save (`EditorCore.Serialized`), the extra byte a yank of
  a full row copies (`EditorCore.LastPiece`), and the search.
- Display.FindInRow: `strnstr` also stops at a NUL byte in the row or the
  needle. The model searches the whole row and the whole needle.
- Display.SearchResult: when the cursor sits past the end of its row, the
  C code reads beyond the row's terminator. The model searches nothing
  there, and the scan goes on from the next row.
- Elfin.YankRange: when a selection starts on an empty row, the C code
  uses column -1, which reads before the row. The model starts at column 0.
- EditorCore.LastPiece: when `end.c` is the row length (yanking an empty
  line), the copy takes one byte past the content, as the C code's
  `end.c + 1` bytes do. The model takes that byte to be NUL; in C it is
  whatever byte was left there.
- Elfin.Interface.AdjustToprow: requires that the cursor is not on the
  last row or that its row fits at the top. Without that, the loop can
  reach `toprow == numrows`. There the counting loop in
  `getLargestDisplayedPoint` does not run, and the returned column is
  `len`, which was never set (display.c:80-91).
- The first use of an uninitialised clipboard is not modelled. The model
  starts with an empty clipboard, so `p` before any `y` does nothing.
- Elfin.EnterInsert: for `O`, the nested `View('k')` would first read the
  row the cursor sits on after Enter. On the last row that row does not
  exist, and the model only applies the motion.
- Commands.Command: the payload of `NewRow` and `DelRow` commands is
  `[]` and 0, because the C code leaves those fields unset.
- Elfin.ViewMotion: the second key of `gg` is the parameter `next`, since
  reading it is terminal input.
- Concurrency is not modelled, because there is none beyond the excluded
  signal handler.
