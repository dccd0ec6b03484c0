/** Viewport arithmetic: the output append buffer, the bounded cursor, the
    wrapped-subline count behind scrolling, and the literal forward search. */
module Display {
  import opened Points
  import opened Wrappers
  import opened EditorCore

  // ---------------------------------------------------------------------
  // Append buffer (escape sequences are collected here before one write)
  // ---------------------------------------------------------------------

  /** `struct abuf`; its `size` field is the length of `buf`. */
  class AppendBuffer {
    var buf: seq<char>

    constructor ()
      ensures buf == []
    {
      buf := [];
    }

    /** `abAppend(ab, s, len)`: the first `len` bytes of `s` go after the old content. */
    method Append(s: seq<char>, len: nat)
      requires len <= |s|
      modifies this
      ensures |buf| == |old(buf)| + len
      ensures buf[..|old(buf)|] == old(buf) && buf[|old(buf)|..] == s[..len]
    {
      buf := buf + s[..len];
    }
  }

  // ---------------------------------------------------------------------
  // Cursor and wrapping
  // ---------------------------------------------------------------------

  /** `getBoundedCursor`: same row, column clamped to the row length (not
      length - 1: the append position counts as displayed). */
  function BoundedCursor(rows: Buffer, cursor: Point): (b: Point)
    requires 0 <= cursor.r < |rows|
    ensures b.r == cursor.r && b.c <= |rows[cursor.r]| && b.c <= cursor.c
    ensures cursor.c <= |rows[cursor.r]| ==> b == cursor
    ensures cursor.c > |rows[cursor.r]| ==> b.c == |rows[cursor.r]|
  {
    Point(cursor.r, Min(cursor.c, |rows[cursor.r]|))
  }

  /** The visual sublines a row of `len` bytes takes at width `maxc`. */
  function Sublines(len: nat, maxc: int): nat
    requires maxc > 0
  {
    len / maxc + (if len % maxc != 0 then 1 else 0) + (if len == 0 then 1 else 0)
  }

  /** A row takes ceil(len / maxc) sublines, and an empty row exactly one. */
  lemma SublinesIsCeiling(len: nat, maxc: int)
    requires maxc > 0
    ensures len == 0 ==> Sublines(len, maxc) == 1
    ensures len > 0 ==> Sublines(len, maxc) >= 1
    ensures len > 0 ==> (Sublines(len, maxc) - 1) * maxc < len <= Sublines(len, maxc) * maxc
  {
    var q, m := len / maxc, len % maxc;
    assert len == q * maxc + m;
    if len > 0 {
      if m == 0 {
        assert q >= 1;
        assert (q - 1) * maxc == q * maxc - maxc;
      } else {
        assert (q + 1) * maxc == q * maxc + maxc;
      }
    }
  }

  /** The sublines of rows `[a, b)`. */
  function Height(rows: Buffer, a: nat, b: nat, maxc: int): nat
    requires a <= b <= |rows| && maxc > 0
    decreases b - a
  {
    if a == b then 0 else Sublines(|rows[a]|, maxc) + Height(rows, a + 1, b, maxc)
  }

  /** The counting loop of `getLargestDisplayedPoint` from row `r` with
      `v` visual rows used: it stops at the end of the buffer or once the
      budget `maxr` is reached. Gives the row it stopped at and the count. */
  function Walk(rows: Buffer, r: nat, v: int, maxr: int, maxc: int): (res: (nat, int))
    requires r <= |rows| && maxc > 0
    ensures r <= res.0 <= |rows|
    ensures res.1 == v + Height(rows, r, res.0, maxc)
    ensures res.0 == |rows| || res.1 >= maxr
    ensures forall k :: r <= k < res.0 ==> v + Height(rows, r, k, maxc) < maxr
    ensures r < |rows| && v < maxr ==> res.0 > r
    decreases |rows| - r
  {
    if r < |rows| && v < maxr then
      var res := Walk(rows, r + 1, v + Sublines(|rows[r]|, maxc), maxr, maxc);
      assert forall k :: r + 1 <= k < res.0 ==>
        v + Height(rows, r, k, maxc) == v + Sublines(|rows[r]|, maxc) + Height(rows, r + 1, k, maxc);
      res
    else (r, v)
  }

  /** `getLargestDisplayedPoint` with `maxr` terminal rows (one is the status
      line) and content width `maxc`: the last row counted from `top`, at its
      full length, or further along when the budget is exceeded. */
  function LargestDisplayed(rows: Buffer, top: nat, maxr: int, maxc: int): (p: Point)
    requires top < |rows| && maxr > 1 && maxc > 0
    ensures top <= p.r < |rows| && p.c >= 0
    ensures 1 + Height(rows, top, p.r + 1, maxc) <= maxr ==> p.c == |rows[p.r]|
    ensures p.r + 1 < |rows| ==> 1 + Height(rows, top, p.r + 1, maxc) >= maxr
    ensures forall k :: top <= k <= p.r ==> 1 + Height(rows, top, k, maxc) < maxr
  {
    var res := Walk(rows, top, 1, maxr, maxc);
    var len := |rows[res.0 - 1]|;
    var extra := Max(res.1 - maxr, 0);
    assert res.0 > top;
    assert len % maxc <= len;
    assert extra != 0 ==> (extra - 1) * maxc >= 0;
    // C's % agrees with Dafny's here: len >= 0 and maxc > 0
    Point(res.0 - 1, if extra != 0 then len - (len % maxc - (extra - 1) * maxc) else len)
  }

  /** When the last counted row does not fit in the budget, the column is
      still at least the start of that row's last subline, although part of
      the row is cut off: the overflow is added to the column, not taken off. */
  lemma LargestDisplayedOverflow(rows: Buffer, top: nat, maxr: int, maxc: int)
    requires top < |rows| && maxr > 1 && maxc > 0
    requires var p := LargestDisplayed(rows, top, maxr, maxc);
      1 + Height(rows, top, p.r + 1, maxc) > maxr
    ensures var p := LargestDisplayed(rows, top, maxr, maxc);
      p.c >= |rows[p.r]| - |rows[p.r]| % maxc
  {
    var res := Walk(rows, top, 1, maxr, maxc);
    var extra := Max(res.1 - maxr, 0);
    assert res.0 == LargestDisplayed(rows, top, maxr, maxc).r + 1;
    assert extra >= 1;
    assert (extra - 1) * maxc >= 0;
  }

  method GetLargestDisplayedPoint(rows: Buffer, top: nat, wsRow: int, wsCol: int, coloff: int) returns (p: Point)
    requires top < |rows| && wsRow > 1 && wsCol - coloff - 1 > 0
    ensures p == LargestDisplayed(rows, top, wsRow, wsCol - coloff - 1)
  {
    var maxr := wsRow;
    var maxc := wsCol - coloff - 1;
    var visual := 1;
    var r := top;
    var len := 0;
    while r < |rows| && visual < maxr
      invariant top <= r <= |rows|
      invariant r > top ==> len == |rows[r - 1]|
      invariant r == top ==> visual < maxr
      invariant Walk(rows, r, visual, maxr, maxc) == Walk(rows, top, 1, maxr, maxc)
    {
      len := |rows[r]|;
      visual := visual + (len / maxc + (if len % maxc != 0 then 1 else 0) + (if len == 0 then 1 else 0));
      r := r + 1;
    }
    var extra := Max(visual - maxr, 0);
    if extra != 0 {
      len := len - (len % maxc - (extra - 1) * maxc);
    }
    p := Point(r - 1, len);
  }

  // ---------------------------------------------------------------------
  // Search
  // ---------------------------------------------------------------------

  /** `needle` occurs in `row` at column `i`, inside the row's length. */
  predicate MatchAt(row: seq<char>, i: int, needle: seq<char>)
  {
    0 <= i && i + |needle| <= |row| && row[i..i + |needle|] == needle
  }

  /** `strnstr` on `row` from column `from`: the first occurrence that ends
      within the row. A start past the row end finds nothing. */
  function FindInRow(row: seq<char>, from: nat, needle: seq<char>): (r: Option<nat>)
    ensures r.Some? ==> from <= r.value && MatchAt(row, r.value, needle)
    ensures r.Some? ==> forall j :: from <= j < r.value ==> !MatchAt(row, j, needle)
    ensures r.None? ==> forall j :: from <= j ==> !MatchAt(row, j, needle)
    decreases |row| - from
  {
    if from + |needle| > |row| then None
    else if row[from..from + |needle|] == needle then Some(from)
    else FindInRow(row, from + 1, needle)
  }

  /** The first match scanning row `i` from column `col`, then the following rows from column 0. */
  function FirstMatchFrom(rows: Buffer, i: nat, col: nat, needle: seq<char>): (r: Option<Point>)
    requires i <= |rows|
    ensures r.Some? ==> i <= r.value.r < |rows| && MatchAt(rows[r.value.r], r.value.c, needle)
    ensures r.Some? && r.value.r == i ==> col <= r.value.c
    ensures r.Some? ==> forall j :: (if r.value.r == i then col else 0) <= j < r.value.c ==> !MatchAt(rows[r.value.r], j, needle)
    ensures r.Some? && r.value.r > i ==> forall j :: col <= j ==> !MatchAt(rows[i], j, needle)
    ensures r.Some? ==> forall k, j :: i < k < r.value.r && 0 <= j ==> !MatchAt(rows[k], j, needle)
    ensures r.None? && i < |rows| ==> forall j :: col <= j ==> !MatchAt(rows[i], j, needle)
    ensures r.None? ==> forall k, j :: i < k < |rows| && 0 <= j ==> !MatchAt(rows[k], j, needle)
    decreases |rows| - i
  {
    if i == |rows| then None
    else match FindInRow(rows[i], col, needle)
      case Some(c) => Some(Point(i, c))
      case None => FirstMatchFrom(rows, i + 1, 0, needle)
  }

  /** No row of the buffer contains `needle`. */
  ghost predicate Nowhere(rows: Buffer, needle: seq<char>)
  {
    forall k, j :: 0 <= k < |rows| && 0 <= j ==> !MatchAt(rows[k], j, needle)
  }

  /** What `search(start, needle)` returns: the first match after `start` in
      reading order, else the first match from the top, else `start`. */
  function SearchResult(rows: Buffer, start: Point, needle: seq<char>): Point
    requires 0 <= start.r < |rows| && start.c >= -1
  {
    match FirstMatchFrom(rows, start.r, start.c + 1, needle)
    case Some(p) => p
    case None =>
      match FirstMatchFrom(rows, 0, 0, needle)
      case Some(p) => p
      case None => start
  }

  /** The search returns a real occurrence of the needle, or `start` exactly
      when no row contains it; a match later in the start row wins. */
  lemma SearchSound(rows: Buffer, start: Point, needle: seq<char>)
    requires 0 <= start.r < |rows| && start.c >= -1
    ensures var p := SearchResult(rows, start, needle);
      && (Nowhere(rows, needle) ==> p == start)
      && (!Nowhere(rows, needle) ==> 0 <= p.r < |rows| && MatchAt(rows[p.r], p.c, needle))
    ensures var p := SearchResult(rows, start, needle);
      forall j :: start.c < j && MatchAt(rows[start.r], j, needle) ==>
        p.r == start.r && start.c < p.c <= j
  {
    var first := FirstMatchFrom(rows, start.r, start.c + 1, needle);
    if first.None? {
      var second := FirstMatchFrom(rows, 0, 0, needle);
      if second.None? {
        assert Nowhere(rows, needle) by {
          forall k, j | 0 <= k < |rows| && 0 <= j ensures !MatchAt(rows[k], j, needle) {
            if k == 0 { } else { }
          }
        }
      } else {
        assert !Nowhere(rows, needle);
      }
    } else {
      assert !Nowhere(rows, needle);
    }
  }

  /** `search`: the scan from just after `start` to the end, then from the top. */
  method Search(rows: Buffer, start: Point, needle: seq<char>) returns (p: Point)
    requires 0 <= start.r < |rows| && start.c >= -1
    ensures p == SearchResult(rows, start, needle)
  {
    var col := start.c + 1;
    var i := start.r;
    while i < |rows|
      invariant start.r <= i <= |rows|
      invariant FirstMatchFrom(rows, start.r, col, needle) == FirstMatchFrom(rows, i, if i == start.r then col else 0, needle)
    {
      var from := if i == start.r then col else 0;
      var loc := FindInRow(rows[i], from, needle);
      if loc.Some? {
        return Point(i, loc.value);
      }
      i := i + 1;
    }
    i := 0;
    while i < |rows|
      invariant 0 <= i <= |rows|
      invariant FirstMatchFrom(rows, start.r, col, needle) == None
      invariant FirstMatchFrom(rows, 0, 0, needle) == FirstMatchFrom(rows, i, 0, needle)
    {
      var loc := FindInRow(rows[i], 0, needle);
      if loc.Some? {
        return Point(i, loc.value);
      }
      i := i + 1;
    }
    return start;
  }
}
