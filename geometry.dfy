/** Points, the drawable primitives produced by the traversals, and the
    abstract transform algebra (common/src/lib.rs, src/main.rs). */
module Geometry {
  import opened Colors

  /** `glam::Vec3`, with f32 coordinates read as reals. */
  datatype Vec3 = Vec3(x: real, y: real, z: real)

  /** `[Vec3; 2]`, `[Vec3; 3]`, `[Vec3; 4]` */
  type Pair = s: seq<Vec3> | |s| == 2 witness [Vec3(0.0, 0.0, 0.0), Vec3(0.0, 0.0, 0.0)]
  type Triple = s: seq<Vec3> | |s| == 3
    witness [Vec3(0.0, 0.0, 0.0), Vec3(0.0, 0.0, 0.0), Vec3(0.0, 0.0, 0.0)]
  type Quadruple = s: seq<Vec3> | |s| == 4
    witness [Vec3(0.0, 0.0, 0.0), Vec3(0.0, 0.0, 0.0), Vec3(0.0, 0.0, 0.0), Vec3(0.0, 0.0, 0.0)]

  /** `Poly`: a triangle or a quad. */
  datatype Poly = Tri(tri: Triple) | Quad(quad: Quadruple) {

    /** `as_slice`: the vertices, three for a triangle and four for a quad. */
    function AsSlice(): (s: seq<Vec3>)
      ensures |s| == (if Tri? then 3 else 4)
      ensures Tri? ==> s == tri
      ensures Quad? ==> s == quad
    {
      match this
      case Tri(t) => t
      case Quad(q) => q
    }

    /** Writing through `as_mut_slice`: the polygon whose slice is `s`. */
    function WithSlice(s: seq<Vec3>): (p: Poly)
      requires |s| == |AsSlice()|
      ensures p.AsSlice() == s
      ensures p.Tri? == Tri?
      ensures s == AsSlice() ==> p == this
    {
      match this
      case Tri(_) => Tri(s)
      case Quad(_) => Quad(s)
    }
  }

  /** `Primitive`: a line, or a polygon with its resolved colour code. */
  datatype Primitive = Line(line: Pair) | Polygon(poly: Poly, color: ColorCode) {

    /** `as_slice`: two points for a line, otherwise the polygon's vertices. */
    function AsSlice(): (s: seq<Vec3>)
      ensures 2 <= |s| <= 4
      ensures |s| == 2 <==> Line?
      ensures |s| == 3 <==> Polygon? && poly.Tri?
      ensures Line? ==> s == line
      ensures Polygon? ==> s == poly.AsSlice()
    {
      match this
      case Line(l) => l
      case Polygon(p, _) => p.AsSlice()
    }

    /** Writing through `as_mut_slice`: the same kind of primitive, with the
        same colour, whose slice is `s`; writing back the slice unchanged
        leaves the primitive unchanged. */
    function WithSlice(s: seq<Vec3>): (p: Primitive)
      requires |s| == |AsSlice()|
      ensures p.AsSlice() == s
      ensures p.Line? == Line?
      ensures p.Polygon? ==> p.color == color && p.poly.Tri? == poly.Tri?
      ensures s == AsSlice() ==> p == this
    {
      match this
      case Line(_) => Line(s)
      case Polygon(q, c) => Polygon(q.WithSlice(s), c)
    }

    /** `center`: the mean of the vertices; the divisor is never zero. */
    function Center(): (c: Vec3)
      ensures var n := |AsSlice()| as real;
              n > 0.0 && c.x * n == Sum(AsSlice()).x && c.y * n == Sum(AsSlice()).y
              && c.z * n == Sum(AsSlice()).z
    {
      var s := Sum(AsSlice());
      var n := |AsSlice()| as real;
      Vec3(s.x / n, s.y / n, s.z / n)
    }
  }

  /** Component-wise sum of points. */
  function Sum(pts: seq<Vec3>): Vec3
    decreases |pts|
  {
    if |pts| == 0 then Vec3(0.0, 0.0, 0.0)
    else
      var s := Sum(pts[..|pts| - 1]);
      var p := pts[|pts| - 1];
      Vec3(s.x + p.x, s.y + p.y, s.z + p.z)
  }

  /** What the traversals need of `weldr::Mat4`: the product (`*`), the
      sign of the determinant (`determinant() < 0.0`) and
      `transform_point3`. */
  datatype Algebra<!M> = Algebra(compose: (M, M) -> M, detNegative: M -> bool, apply: (M, Vec3) -> Vec3)

  /** The determinant of a product is negative exactly when exactly one
      factor's is. (This holds for invertible matrices; it fails when a
      factor is singular, so it is a hypothesis, never assumed.) */
  ghost predicate SignMultiplicative<M(!new)>(alg: Algebra<M>) {
    forall a: M, b: M :: alg.detNegative(alg.compose(a, b)) == (alg.detNegative(a) != alg.detNegative(b))
  }

  /** `project`: every vertex mapped through the same transform, in order. */
  function Project<M>(alg: Algebra<M>, transform: M, vertices: seq<Vec3>): (ws: seq<Vec3>)
    ensures |ws| == |vertices|
    ensures forall i :: 0 <= i < |vertices| ==> ws[i] == alg.apply(transform, vertices[i])
  {
    seq(|vertices|, i requires 0 <= i < |vertices| => alg.apply(transform, vertices[i]))
  }
}
