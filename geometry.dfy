/** Screen geometry: the toroidal wrap of one coordinate and the axis-aligned
    boxes used for every collision test. */
module Geometry {

  /** A point or a velocity in screen pixels (per tick). */
  datatype Vec = Vec(x: real, y: real)

  /** The unit vector along a ship's nose for a heading in degrees:
      (sin θ, -cos θ). Trigonometry is not modelled, so callers pass it in. */
  type Heading = real -> Vec

  /** The teleporting wrap of one coordinate into [0, bound]: a coordinate
      below 0 jumps to the far edge, one beyond the far edge jumps to 0.
      It is not a modulus: -1 becomes `bound`, not `bound - 1`. */
  function Wrap(c: real, bound: real): (r: real)
    requires bound >= 0.0
    ensures 0.0 <= r <= bound
    ensures r == c <==> 0.0 <= c <= bound
    ensures c < 0.0 ==> r == bound
    ensures c > bound ==> r == 0.0
  {
    if c < 0.0 then bound
    else if c > bound then 0.0
    else c
  }

  /** Wrapping twice is the same as wrapping once. */
  lemma WrapIdempotent(c: real, bound: real)
    requires bound >= 0.0
    ensures Wrap(Wrap(c, bound), bound) == Wrap(c, bound)
  {
  }

  /** A rectangle with its top-left corner and its size, as pygame's Rect
      holds it (without pygame's truncation of coordinates to integers). */
  datatype Rect = Rect(left: real, top: real, width: real, height: real) {
    function Right(): real { left + width }
    function Bottom(): real { top + height }
  }

  /** The box of half-extent `half` centred on `(cx, cy)`. */
  function CentredBox(cx: real, cy: real, half: real): (r: Rect)
    ensures r.width == r.height == 2.0 * half
    ensures r.left + half == cx && r.top + half == cy
  {
    Rect(cx - half, cy - half, 2.0 * half, 2.0 * half)
  }

  /** pygame's `colliderect`: the open spans overlap on both axes (for
      boxes of positive size, the interiors), so boxes that only touch
      along an edge do not collide. */
  predicate Overlaps(a: Rect, b: Rect)
  {
    a.left < b.Right() && b.left < a.Right() &&
    a.top < b.Bottom() && b.top < a.Bottom()
  }

  /** Boxes that only touch along an edge do not collide, and two boxes
      with no width or no height between them never do. */
  lemma TouchingDoesNotOverlap(a: Rect, b: Rect)
    ensures a.Right() == b.left || b.Right() == a.left ==> !Overlaps(a, b)
    ensures a.Bottom() == b.top || b.Bottom() == a.top ==> !Overlaps(a, b)
    ensures Overlaps(a, b) ==> a.width + b.width > 0.0 && a.height + b.height > 0.0
  {
  }

  /** Collision is symmetric. */
  lemma OverlapsSymmetric(a: Rect, b: Rect)
    ensures Overlaps(a, b) <==> Overlaps(b, a)
  {
  }

  function Abs(r: real): real { if r < 0.0 then -r else r }

  /** Two centred boxes overlap exactly when, on each axis, their centres are
      closer than the sum of their half-extents. */
  lemma CentredOverlap(x1: real, y1: real, h1: real, x2: real, y2: real, h2: real)
    ensures Overlaps(CentredBox(x1, y1, h1), CentredBox(x2, y2, h2))
        <==> Abs(x1 - x2) < h1 + h2 && Abs(y1 - y2) < h1 + h2
  {
  }

  /** pygame's `collidepoint`: half-open on both axes, so the right and
      bottom edges are outside. */
  predicate ContainsPoint(r: Rect, px: real, py: real)
    ensures px == r.Right() || py == r.Bottom() ==> !ContainsPoint(r, px, py)
    ensures px == r.left && py == r.top ==> (ContainsPoint(r, px, py) <==> r.width > 0.0 && r.height > 0.0)
  {
    r.left <= px < r.Right() && r.top <= py < r.Bottom()
  }
}
