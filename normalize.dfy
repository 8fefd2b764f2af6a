/** Post-processing of the flattened drawing before it is written as PDF
    (`normalize` and the y-flip, identical in src/main.rs and
    render_2d/src/main.rs): shift everything so that no x or y coordinate is
    negative, then turn y upside down for the page. Coordinates are reals. */
module Normalize {
  import opened Geometry

  datatype Axis = X | Y

  function Coord(v: Vec3, a: Axis): real {
    if a == X then v.x else v.y
  }

  function Max(a: real, b: real): (m: real)
    ensures m >= a && m >= b && (m == a || m == b)
  {
    if a >= b then a else b
  }

  /** Every point of the drawing, shape by shape, in order
      (`shapes.iter().flat_map(Primitive::as_slice)`). */
  function Points(shapes: seq<Primitive>): seq<Vec3>
    decreases |shapes|
  {
    if |shapes| == 0 then [] else Points(shapes[..|shapes| - 1]) + shapes[|shapes| - 1].AsSlice()
  }

  /** The first loop of `normalize`: starting from 0, every negative
      coordinate `c` on the axis raises the running value to `max(_, -c)`. */
  function Extent(pts: seq<Vec3>, a: Axis): real
    decreases |pts|
  {
    if |pts| == 0 then 0.0
    else
      var d := Extent(pts[..|pts| - 1], a);
      var c := Coord(pts[|pts| - 1], a);
      if c < 0.0 then Max(d, -c) else d
  }

  /** The shift is never negative and covers every negative coordinate. */
  lemma {:induction false} ExtentBounds(pts: seq<Vec3>, a: Axis)
    ensures Extent(pts, a) >= 0.0
    ensures forall v :: v in pts ==> Extent(pts, a) >= -Coord(v, a)
    decreases |pts|
  {
    if |pts| > 0 {
      var init := pts[..|pts| - 1];
      ExtentBounds(init, a);
      forall v | v in pts ensures Extent(pts, a) >= -Coord(v, a) {
        if v != pts[|pts| - 1] {
          var i :| 0 <= i < |pts| && pts[i] == v;
          assert init[i] == v;
        }
      }
    }
  }

  /** The shift is 0 or is attained: it is the magnitude of a negative
      coordinate of some point; with no negative coordinate it is 0. */
  lemma {:induction false} ExtentAttained(pts: seq<Vec3>, a: Axis)
    ensures Extent(pts, a) == 0.0 || exists v :: v in pts && Coord(v, a) < 0.0 && Extent(pts, a) == -Coord(v, a)
    ensures (forall v :: v in pts ==> Coord(v, a) >= 0.0) ==> Extent(pts, a) == 0.0
    decreases |pts|
  {
    if |pts| > 0 {
      var init := pts[..|pts| - 1];
      ExtentAttained(init, a);
      if Extent(init, a) != 0.0 && Extent(pts, a) == Extent(init, a) {
        var v :| v in init && Coord(v, a) < 0.0 && Extent(init, a) == -Coord(v, a);
        assert v in pts;
      }
      if forall v :: v in pts ==> Coord(v, a) >= 0.0 {
        assert forall v :: v in init ==> v in pts;
      }
    }
  }

  lemma {:induction false} PointsContain(shapes: seq<Primitive>, i: nat, k: nat)
    requires i < |shapes| && k < |shapes[i].AsSlice()|
    ensures shapes[i].AsSlice()[k] in Points(shapes)
    decreases |shapes|
  {
    var n := |shapes| - 1;
    if i < n {
      PointsContain(shapes[..n], i, k);
    } else {
      assert Points(shapes)[|Points(shapes[..n])| + k] == shapes[i].AsSlice()[k];
    }
  }

  // ---------------------------------------------------------------------
  // Updating every point in place.

  function Map(s: seq<Vec3>, f: Vec3 -> Vec3): (r: seq<Vec3>)
    ensures |r| == |s| && forall k :: 0 <= k < |s| ==> r[k] == f(s[k])
  {
    seq(|s|, k requires 0 <= k < |s| => f(s[k]))
  }

  /** A primitive with `f` applied to each of its points in place: same
      kind, same colour. */
  function MapPrim(p: Primitive, f: Vec3 -> Vec3): (r: Primitive)
    ensures r.AsSlice() == Map(p.AsSlice(), f)
    ensures r.Line? == p.Line? && (r.Polygon? ==> r.color == p.color && r.poly.Tri? == p.poly.Tri?)
  {
    p.WithSlice(Map(p.AsSlice(), f))
  }

  function MapShapes(shapes: seq<Primitive>, f: Vec3 -> Vec3): (r: seq<Primitive>)
    ensures |r| == |shapes| && forall i :: 0 <= i < |shapes| ==> r[i] == MapPrim(shapes[i], f)
  {
    seq(|shapes|, i requires 0 <= i < |shapes| => MapPrim(shapes[i], f))
  }

  /** Writing a primitive's slice twice is writing it once. */
  lemma WithSliceTwice(p: Primitive, a: seq<Vec3>, b: seq<Vec3>)
    requires |a| == |p.AsSlice()| == |b|
    ensures p.WithSlice(a).WithSlice(b) == p.WithSlice(b)
  {
  }

  /** `for point in shapes.iter_mut().flat_map(Primitive::as_mut_slice)`
      with the loop body `f`. */
  method UpdatePoints(shapes: array<Primitive>, f: Vec3 -> Vec3)
    modifies shapes
    ensures shapes[..] == MapShapes(old(shapes[..]), f)
  {
    for i := 0 to shapes.Length
      invariant forall k :: 0 <= k < i ==> shapes[k] == MapPrim(old(shapes[k]), f)
      invariant forall k :: i <= k < shapes.Length ==> shapes[k] == old(shapes[k])
    {
      UpdateShape(shapes, i, f);
    }
  }

  /** The points of one shape, updated one at a time through its mutable
      slice. */
  method UpdateShape(shapes: array<Primitive>, i: nat, f: Vec3 -> Vec3)
    requires i < shapes.Length
    modifies shapes
    ensures shapes[i] == MapPrim(old(shapes[i]), f)
    ensures forall k :: 0 <= k < shapes.Length && k != i ==> shapes[k] == old(shapes[k])
  {
    ghost var orig := shapes[i];
    ghost var s := orig.AsSlice();
    var n := |shapes[i].AsSlice()|;
    for j := 0 to n
      invariant |shapes[i].AsSlice()| == n && shapes[i] == orig.WithSlice(shapes[i].AsSlice())
      invariant forall m :: 0 <= m < n ==> shapes[i].AsSlice()[m] == if m < j then f(s[m]) else s[m]
      invariant forall k :: 0 <= k < shapes.Length && k != i ==> shapes[k] == old(shapes[k])
    {
      var slice := shapes[i].AsSlice();
      var point := slice[j];
      WithSliceTwice(orig, slice, slice[j := f(point)]);
      shapes[i] := shapes[i].WithSlice(slice[j := f(point)]);
    }
    assert shapes[i].AsSlice() == Map(s, f);
  }

  // ---------------------------------------------------------------------
  // normalize

  /** `point.x += dx; point.y += dy` */
  function Shift(dx: real, dy: real): Vec3 -> Vec3 {
    (v: Vec3) => Vec3(v.x + dx, v.y + dy, v.z)
  }

  /** `normalize(shapes)`: the shift is the extent of the negative x and y
      coordinates over all points, and every point is shifted by it. */
  method Normalize(shapes: array<Primitive>)
    modifies shapes
    ensures shapes[..] == MapShapes(old(shapes[..]), Shift(Extent(Points(old(shapes[..])), X), Extent(Points(old(shapes[..])), Y)))
  {
    ghost var init := shapes[..];
    var dx, dy := 0.0, 0.0;
    for i := 0 to shapes.Length
      invariant shapes[..] == init
      invariant dx == Extent(Points(init[..i]), X) && dy == Extent(Points(init[..i]), Y)
    {
      assert init[..i + 1][..i] == init[..i];
      dx, dy := ShapeExtent(shapes[i].AsSlice(), dx, dy, Points(init[..i]));
    }
    assert init[..shapes.Length] == init;
    UpdatePoints(shapes, Shift(dx, dy));
  }

  /** The first loop of `normalize` over the points of one shape. */
  method ShapeExtent(s: seq<Vec3>, dx0: real, dy0: real, ghost before: seq<Vec3>) returns (dx: real, dy: real)
    requires dx0 == Extent(before, X) && dy0 == Extent(before, Y)
    ensures dx == Extent(before + s, X) && dy == Extent(before + s, Y)
  {
    dx, dy := dx0, dy0;
    assert before + s[..0] == before;
    for j := 0 to |s|
      invariant dx == Extent(before + s[..j], X) && dy == Extent(before + s[..j], Y)
    {
      assert (before + s[..j + 1])[..|before| + j] == before + s[..j];
      var point := s[j];
      var x, y := point.x, point.y;
      if x < 0.0 {
        dx := Max(dx, -x);
      }
      if y < 0.0 {
        dy := Max(dy, -y);
      }
    }
    assert s[..|s|] == s;
  }

  /** After `normalize`, no point has a negative x or y. */
  lemma NormalizedNonNegative(shapes: seq<Primitive>)
    ensures var out := MapShapes(shapes, Shift(Extent(Points(shapes), X), Extent(Points(shapes), Y)));
            forall i, k :: 0 <= i < |out| && 0 <= k < |out[i].AsSlice()| ==>
              out[i].AsSlice()[k].x >= 0.0 && out[i].AsSlice()[k].y >= 0.0
  {
    var pts := Points(shapes);
    ExtentBounds(pts, X);
    ExtentBounds(pts, Y);
    forall i, k | 0 <= i < |shapes| && 0 <= k < |shapes[i].AsSlice()|
      ensures shapes[i].AsSlice()[k] in pts
    {
      PointsContain(shapes, i, k);
    }
  }

  /** `normalize` moves every point by the same amount, keeps z, and keeps
      the number, kinds and colours of the shapes. */
  lemma NormalizeUniform(shapes: seq<Primitive>)
    ensures var dx := Extent(Points(shapes), X);
            var dy := Extent(Points(shapes), Y);
            var out := MapShapes(shapes, Shift(dx, dy));
            |out| == |shapes|
            && (forall i :: 0 <= i < |out| ==>
                  out[i].Line? == shapes[i].Line?
                  && (out[i].Polygon? ==> out[i].color == shapes[i].color && out[i].poly.Tri? == shapes[i].poly.Tri?)
                  && |out[i].AsSlice()| == |shapes[i].AsSlice()|)
            && (forall i, k :: 0 <= i < |out| && 0 <= k < |out[i].AsSlice()| ==>
                  out[i].AsSlice()[k] == Vec3(shapes[i].AsSlice()[k].x + dx, shapes[i].AsSlice()[k].y + dy,
                                              shapes[i].AsSlice()[k].z))
  {
  }

  /** With no negative coordinate, `normalize` changes nothing. */
  lemma NormalizeIdentity(shapes: seq<Primitive>)
    requires forall i, k :: 0 <= i < |shapes| && 0 <= k < |shapes[i].AsSlice()| ==>
               shapes[i].AsSlice()[k].x >= 0.0 && shapes[i].AsSlice()[k].y >= 0.0
    ensures MapShapes(shapes, Shift(Extent(Points(shapes), X), Extent(Points(shapes), Y))) == shapes
  {
    var pts := Points(shapes);
    forall v | v in pts ensures Coord(v, X) >= 0.0 && Coord(v, Y) >= 0.0 {
      PointsIn(shapes, v);
    }
    ExtentAttained(pts, X);
    ExtentAttained(pts, Y);
    var out := MapShapes(shapes, Shift(0.0, 0.0));
    forall i | 0 <= i < |shapes| ensures out[i] == shapes[i] {
      assert Map(shapes[i].AsSlice(), Shift(0.0, 0.0)) == shapes[i].AsSlice();
    }
  }

  /** Every point of the drawing belongs to one of its shapes. */
  lemma {:induction false} PointsIn(shapes: seq<Primitive>, v: Vec3)
    requires v in Points(shapes)
    ensures exists i, k :: 0 <= i < |shapes| && 0 <= k < |shapes[i].AsSlice()| && shapes[i].AsSlice()[k] == v
    decreases |shapes|
  {
    var n := |shapes| - 1;
    var init := Points(shapes[..n]);
    if v in init {
      PointsIn(shapes[..n], v);
      var i, k :| 0 <= i < n && 0 <= k < |shapes[..n][i].AsSlice()| && shapes[..n][i].AsSlice()[k] == v;
      assert shapes[i] == shapes[..n][i];
    } else {
      var m :| 0 <= m < |Points(shapes)| && Points(shapes)[m] == v;
      assert m >= |init|;
      assert shapes[n].AsSlice()[m - |init|] == v;
    }
  }

  // ---------------------------------------------------------------------
  // The y-flip

  /** `v[1] = 600.0 - v[1]` */
  function FlipY(): Vec3 -> Vec3 {
    (v: Vec3) => Vec3(v.x, 600.0 - v.y, v.z)
  }

  /** The y-flip loop after `normalize`. */
  method FlipAll(shapes: array<Primitive>)
    modifies shapes
    ensures shapes[..] == MapShapes(old(shapes[..]), FlipY())
  {
    UpdatePoints(shapes, FlipY());
  }

  /** The flip keeps x and z, maps y into y' with y + y' = 600, so it keeps
      the page band 0 <= y <= 600, and flipping twice restores the
      drawing. */
  lemma FlipProperties(shapes: seq<Primitive>)
    ensures var out := MapShapes(shapes, FlipY());
            forall i, k :: 0 <= i < |out| && 0 <= k < |out[i].AsSlice()| ==>
              var v := shapes[i].AsSlice()[k];
              var w := out[i].AsSlice()[k];
              w.x == v.x && w.z == v.z && w.y + v.y == 600.0
              && (0.0 <= v.y <= 600.0 ==> 0.0 <= w.y <= 600.0)
    ensures MapShapes(MapShapes(shapes, FlipY()), FlipY()) == shapes
  {
    var out := MapShapes(shapes, FlipY());
    var back := MapShapes(out, FlipY());
    forall i | 0 <= i < |shapes| ensures back[i] == shapes[i] {
      assert Map(out[i].AsSlice(), FlipY()) == shapes[i].AsSlice();
      WithSliceTwice(shapes[i], out[i].AsSlice(), shapes[i].AsSlice());
    }
  }
}
