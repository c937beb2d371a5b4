/**
 * The rectangle of bracket-lib that the room builder uses (its source is not
 * part of this model; the behaviour assumed of it is stated here).
 */
module Rects {
  import opened Grid

  /** Integer division by two, truncating toward zero as Rust's `i32 / 2` does. */
  function Half(n: int): (h: int)
    ensures n >= 0 ==> 0 <= 2 * h <= n < 2 * h + 2
    ensures n < 0 ==> 2 * h - 2 < n <= 2 * h <= 0
  {
    if n >= 0 then n / 2 else -((-n) / 2)
  }

  datatype Rect = Rect(x1: int, y1: int, x2: int, y2: int) {
    /** `center()`: the truncated midpoint of the corners. */
    function Center(): Point {
      Point(Half(x1 + x2), Half(y1 + y2))
    }

    /** `intersect`: the closed extents overlap on both axes. */
    predicate Intersect(other: Rect) {
      x1 <= other.x2 && x2 >= other.x1 && y1 <= other.y2 && y2 >= other.y1
    }

    /** The points `for_each` visits: columns `x1..x2`, rows `y1..y2`, upper ends excluded. */
    predicate Covers(p: Point) {
      x1 <= p.x < x2 && y1 <= p.y < y2
    }
  }

  /** `Rect::with_size(x, y, w, h)`: corners `(x, y)` and `(x + w, y + h)`. */
  function WithSize(x: int, y: int, w: int, h: int): (r: Rect)
    ensures r.x1 == x && r.y1 == y && r.x2 - r.x1 == w && r.y2 - r.y1 == h
  {
    Rect(x, y, x + w, y + h)
  }

  lemma IntersectSymmetric(a: Rect, b: Rect)
    ensures a.Intersect(b) <==> b.Intersect(a)
  {
  }

  /** A rectangle at non-negative coordinates with a non-empty interior covers its own centre. */
  lemma CenterCovered(r: Rect)
    requires 0 <= r.x1 < r.x2 && 0 <= r.y1 < r.y2
    ensures r.Covers(r.Center())
  {
  }
}
