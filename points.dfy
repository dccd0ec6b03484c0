/** Integer helpers and the (row, column) point of the buffer, with the
    row-major order used for ranges and selections. */
module Points {

  function Min(a: int, b: int): (r: int)
    ensures r <= a && r <= b && (r == a || r == b)
  {
    if a < b then a else b
  }

  function Max(a: int, b: int): (r: int)
    ensures r >= a && r >= b && (r == a || r == b)
  {
    if a > b then a else b
  }

  /** A position in the buffer; `r == -1` is the "no selection" sentinel of an anchor. */
  datatype Point = Point(r: int, c: int)

  predicate PointEqual(p: Point, q: Point) { p.r == q.r && p.c == q.c }

  predicate PointGreater(p: Point, q: Point)
  {
    if p.r > q.r then true
    else if p.r < q.r then false
    else p.c > q.c
  }

  predicate PointLess(p: Point, q: Point)
  {
    if p.r < q.r then true
    else if p.r > q.r then false
    else p.c < q.c
  }

  /** The row-then-column order written as one formula. */
  predicate Before(p: Point, q: Point) { p.r < q.r || (p.r == q.r && p.c < q.c) }

  function MaxPoint(p: Point, q: Point): (m: Point)
    ensures m == p || m == q
    ensures !PointLess(m, p) && !PointLess(m, q)
    ensures PointEqual(p, q) ==> m == q
  {
    if PointGreater(p, q) then p else q
  }

  function MinPoint(p: Point, q: Point): (m: Point)
    ensures m == p || m == q
    ensures !PointGreater(m, p) && !PointGreater(m, q)
    ensures PointEqual(p, q) ==> m == q
  {
    if PointLess(p, q) then p else q
  }

  /** `pointLess` and `pointGreater` are the strict row-major order and each other's converse. */
  lemma OrderIsRowMajor(p: Point, q: Point)
    ensures PointLess(p, q) <==> Before(p, q)
    ensures PointGreater(p, q) <==> Before(q, p)
    ensures PointLess(p, q) <==> PointGreater(q, p)
    ensures PointEqual(p, q) <==> p == q
    ensures !PointLess(p, q) && !PointGreater(p, q) <==> p == q
  {
  }

  /** The order is transitive, so selections and ranges are well ordered. */
  lemma LessTransitive(p: Point, q: Point, s: Point)
    requires PointLess(p, q) && PointLess(q, s)
    ensures PointLess(p, s)
  {
  }

  /** The smaller of two points never lies after the larger one. */
  lemma MinBeforeMax(p: Point, q: Point)
    ensures !PointGreater(MinPoint(p, q), MaxPoint(p, q))
    ensures {MinPoint(p, q), MaxPoint(p, q)} == {p, q}
  {
  }
}
