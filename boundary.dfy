/**
 * The axis-aligned box shared by the loader helpers (`src/world-loader/Boundary.js`)
 * and the quadtree (`Boundary` in `src/Classes/Quadtree/index.js`, the same class
 * without the object-form constructor). Coordinates are reals.
 */
module Boundary {
  import opened Wrappers

  /** A point; the source passes any object with `x` and `y`. */
  datatype Pos = Pos(x: real, y: real)

  /** `{x, y, width, height, padding}`; `padding` widens the box for `Contains` and for
      the other side of `Intersects`. */
  datatype Box = Box(x: real, y: real, width: real, height: real, padding: real)

  /** What the constructor may be given: an object with box fields (its own padding, if
      any, is not read), or the positional arguments with an optional padding. */
  datatype BoxArgs =
    | FromObject(ox: real, oy: real, owidth: real, oheight: real, opadding: real)
    | Positional(x: real, y: real, width: real, height: real, padding: Option<real>)

  /** `new Boundary(...)`. */
  function Construct(args: BoxArgs): (b: Box)
    ensures args.FromObject? ==> b == Box(args.ox, args.oy, args.owidth, args.oheight, 0.0)
    ensures args.Positional? && args.padding.None? ==> b.padding == 0.0
    ensures args.Positional? && args.padding.Some? ==> b.padding == args.padding.value
    ensures args.Positional? ==> b.x == args.x && b.y == args.y && b.width == args.width && b.height == args.height
  {
    match args
    case FromObject(x, y, w, h, _) => Box(x, y, w, h, 0.0)
    case Positional(x, y, w, h, pad) => Box(x, y, w, h, if pad.Some? then pad.value else 0.0)
  }

  /** `b.contains(p)`: closed on all four sides, widened by `b.padding`. */
  predicate Contains(b: Box, p: Pos)
  {
    && p.x >= b.x - b.padding
    && p.x <= b.x + b.width + b.padding
    && p.y >= b.y - b.padding
    && p.y <= b.y + b.height + b.padding
  }

  /** `b.intersects(other)`: strict on all four sides; only `other.padding` is applied. */
  predicate Intersects(b: Box, other: Box)
  {
    && b.x < other.x + other.width + other.padding
    && b.x + b.width > other.x - other.padding
    && b.y < other.y + other.height + other.padding
    && b.y + b.height > other.y - other.padding
  }

  /** `inner` lies within `outer` (paddings ignored). */
  predicate Inside(inner: Box, outer: Box)
  {
    && outer.x <= inner.x
    && inner.x + inner.width <= outer.x + outer.width
    && outer.y <= inner.y
    && inner.y + inner.height <= outer.y + outer.height
  }

  /** The padded box is closed: its lowest and highest padded corners are contained. */
  lemma ContainsClosedCorners(b: Box)
    requires b.width >= 0.0 && b.height >= 0.0 && b.padding >= 0.0
    ensures Contains(b, Pos(b.x - b.padding, b.y - b.padding))
    ensures Contains(b, Pos(b.x + b.width + b.padding, b.y + b.height + b.padding))
  {
  }

  /** Boxes that only share an edge do not intersect: the test is strict. */
  lemma TouchingBoxesDoNotIntersect(a: Box, b: Box)
    requires a.padding == 0.0 && b.padding == 0.0
    requires a.x + a.width == b.x || b.x + b.width == a.x || a.y + a.height == b.y || b.y + b.height == a.y
    ensures !Intersects(a, b) && !Intersects(b, a)
  {
  }

  /** The receiver's own padding plays no part in `Intersects`. */
  lemma IntersectsIgnoresOwnPadding(a: Box, b: Box, pad: real)
    ensures Intersects(a.(padding := pad), b) == Intersects(a, b)
  {
  }

  /** With both paddings 0 the test is symmetric. */
  lemma IntersectsSymmetric(a: Box, b: Box)
    requires a.padding == 0.0 && b.padding == 0.0
    ensures Intersects(a, b) == Intersects(b, a)
  {
  }

  /** Unpadded boxes of non-negative size that intersect share a point both contain. */
  lemma IntersectingBoxesShareAPoint(a: Box, b: Box) returns (p: Pos)
    requires a.padding == 0.0 && b.padding == 0.0
    requires a.width >= 0.0 && a.height >= 0.0 && b.width >= 0.0 && b.height >= 0.0
    requires Intersects(a, b)
    ensures Contains(a, p) && Contains(b, p)
  {
    p := Pos(if a.x < b.x then b.x else a.x, if a.y < b.y then b.y else a.y);
  }

  /** A box inside a box that misses `range` misses it too: the quadtree prunes on this. */
  lemma InsideKeepsDisjoint(inner: Box, outer: Box, range: Box)
    requires Inside(inner, outer) && !Intersects(outer, range)
    ensures !Intersects(inner, range)
  {
  }

  /** Being inside is transitive. */
  lemma InsideTransitive(a: Box, b: Box, c: Box)
    requires Inside(a, b) && Inside(b, c)
    ensures Inside(a, c)
  {
  }
}
