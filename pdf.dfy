/** PDF content generation (src/pdf.rs): the drawing is sorted far-to-near
    by the depth of each primitive's centre, preceded by a fixed graphics
    state preamble, and drawn as path operations; a fill colour operation is
    emitted only when a polygon's colour differs from the previous
    polygon's. */
module Pdf {
  import opened Wrappers
  import opened Colors
  import opened Geometry
  import opened Ldraw
  import opened ColorMaps

  /** `lopdf::Object` as the content operations use it. */
  datatype Operand = Real(r: real) | Name(name: string) | Int(i: int)

  /** `lopdf::content::Operation` */
  datatype Operation = Operation(op: string, operands: seq<Operand>)

  /** Where `build_pdf` panics: `page_ids[0]` with no page, and
      `self.values[0]` in `by_code` with an empty colour table. */
  datatype PdfPanic = NoPages | EmptyColorMap

  /** `Color::new(255, 255, 255)`, the colour before anything is drawn. */
  const WHITE: Rgb := Rgb(255, 255, 255)

  /** `n as f32 / 255.0` */
  function Channel(n: u8): real {
    n as real / 255.0
  }

  function MoveTo(p: Vec3): Operation {
    Operation("m", [Real(p.x), Real(p.y)])
  }

  function LineTo(p: Vec3): Operation {
    Operation("l", [Real(p.x), Real(p.y)])
  }

  function SetFill(rgb: Rgb): Operation {
    Operation("rg", [Real(Channel(rgb.red)), Real(Channel(rgb.green)), Real(Channel(rgb.blue))])
  }

  function LineTos(ps: seq<Vec3>): seq<Operation> {
    seq(|ps|, k requires 0 <= k < |ps| => LineTo(ps[k]))
  }

  /** The operations `push_polygon(points, color)` appends. */
  function PolygonOps(points: seq<Vec3>, color: Option<Rgb>): seq<Operation>
    requires |points| > 0
  {
    [MoveTo(points[0])] + LineTos(points[1..]) + (if color.Some? then [SetFill(color.value)] else [])
    + [Operation("f", [])]
  }

  /** The operations `push_line(line)` appends. */
  function LineOps(line: Pair): seq<Operation> {
    [MoveTo(line[0]), LineTo(line[1]), Operation("S", [])]
  }

  /** `push_polygon` appends `n + 1` operations, plus one when a colour is
      given: a move to the first point, a line to each later point in
      order, the fill colour exactly when one is given, and the fill. */
  lemma PolygonOpsMeaning(points: seq<Vec3>, color: Option<Rgb>)
    requires |points| > 0
    ensures var ops := PolygonOps(points, color);
            |ops| == |points| + 1 + (if color.Some? then 1 else 0)
            && ops[0] == MoveTo(points[0])
            && (forall k :: 1 <= k < |points| ==> ops[k] == LineTo(points[k]))
            && (color.Some? ==> ops[|points|] == SetFill(color.value))
            && ops[|ops| - 1] == Operation("f", [])
            && ((exists k :: 0 <= k < |ops| && ops[k].op == "rg") <==> color.Some?)
  {
    var ops := PolygonOps(points, color);
    forall k | 1 <= k < |points| ensures ops[k] == LineTo(points[k]) {
      assert ops[k] == LineTos(points[1..])[k - 1];
    }
    if color.Some? {
      assert ops[|points|].op == "rg";
    } else {
      forall k | 0 <= k < |ops| ensures ops[k].op != "rg" {
        if 1 <= k < |points| {
          assert ops[k] == LineTo(points[k]);
        }
      }
    }
  }

  /** `lopdf::content::Content`: the page's operations, appended to in
      order. */
  class Content {
    var operations: seq<Operation>

    constructor ()
      ensures operations == []
    {
      operations := [];
    }

    /** `push_op(op, vs)` */
    method PushOp(op: string, vs: seq<Operand>)
      modifies this
      ensures operations == old(operations) + [Operation(op, vs)]
    {
      operations := operations + [Operation(op, vs)];
    }

    /** `push_polygon(points, color)` */
    method PushPolygon(points: seq<Vec3>, color: Option<Rgb>)
      requires |points| > 0
      modifies this
      ensures operations == old(operations) + PolygonOps(points, color)
    {
      PushOp("m", [Real(points[0].x), Real(points[0].y)]);
      var rest := points[1..];
      for i := 0 to |rest|
        invariant operations == old(operations) + [MoveTo(points[0])] + LineTos(rest[..i])
      {
        var p := rest[i];
        PushOp("l", [Real(p.x), Real(p.y)]);
        assert LineTos(rest[..i + 1]) == LineTos(rest[..i]) + [LineTo(p)];
      }
      assert rest[..|rest|] == rest;
      if color.Some? {
        var rgb := color.value;
        PushOp("rg", [Real(Channel(rgb.red)), Real(Channel(rgb.green)), Real(Channel(rgb.blue))]);
      }
      PushOp("f", []);
    }

    /** `push_line(line)` */
    method PushLine(line: Pair)
      modifies this
      ensures operations == old(operations) + LineOps(line)
    {
      PushOp("m", [Real(line[0].x), Real(line[0].y)]);
      PushOp("l", [Real(line[1].x), Real(line[1].y)]);
      PushOp("S", []);
    }
  }

  // ---------------------------------------------------------------------
  // The shape loop of `build_pdf`

  /** The operations so far and `current_color`. */
  datatype DrawState = DrawState(ops: seq<Operation>, current: Rgb)

  /** One iteration of the shape loop: a line is stroked and leaves the
      colour alone; a polygon's colour is looked up, given to
      `push_polygon` only when it differs from `current_color`, and becomes
      `current_color`. */
  function DrawStep(colors: ColorMap, st: DrawState, shape: Primitive): Result<DrawState, PdfPanic>
  {
    match shape
    case Line(l) => Ok(DrawState(st.ops + LineOps(l), st.current))
    case Polygon(poly, code) =>
      match ByCode(colors, code)
      case None => Err(EmptyColorMap)
      case Some(entry) =>
        var rgb := entry.value;
        Ok(DrawState(st.ops + PolygonOps(poly.AsSlice(), if rgb != st.current then Some(rgb) else None), rgb))
  }

  /** The shape loop after its first `k` iterations. */
  function DrawPrefix(shapes: seq<Primitive>, colors: ColorMap, k: nat): Result<DrawState, PdfPanic>
    requires k <= |shapes|
  {
    if k == 0 then Ok(DrawState([], WHITE))
    else
      match DrawPrefix(shapes, colors, k - 1)
      case Err(e) => Err(e)
      case Ok(st) => DrawStep(colors, st, shapes[k - 1])
  }

  lemma {:induction false} DrawPanicSticks(shapes: seq<Primitive>, colors: ColorMap, k: nat, n: nat)
    requires k <= n <= |shapes|
    requires DrawPrefix(shapes, colors, k).Err?
    ensures DrawPrefix(shapes, colors, n) == DrawPrefix(shapes, colors, k)
    decreases n - k
  {
    if k < n {
      DrawPanicSticks(shapes, colors, k + 1, n);
    }
  }

  /** The resolved colour of a code (`colors.by_code(code).value`). */
  function RgbOf(colors: ColorMap, code: ColorCode): Rgb
    requires InRange(colors) && |colors.values| > 0
  {
    ByCode(colors, code).value.value
  }

  /** The colours of the polygons among the shapes, in drawing order. */
  function PolygonRgbs(shapes: seq<Primitive>, colors: ColorMap): seq<Rgb>
    requires InRange(colors) && |colors.values| > 0
    decreases |shapes|
  {
    if |shapes| == 0 then []
    else
      var last := shapes[|shapes| - 1];
      PolygonRgbs(shapes[..|shapes| - 1], colors) + (if last.Polygon? then [RgbOf(colors, last.color)] else [])
  }

  /** The colour of the previously drawn polygon, white before the first. */
  function Previous(rgbs: seq<Rgb>): Rgb {
    if |rgbs| == 0 then WHITE else rgbs[|rgbs| - 1]
  }

  /** How many polygons' colours differ from their predecessor's. */
  function Changes(rgbs: seq<Rgb>): nat
    decreases |rgbs|
  {
    if |rgbs| == 0 then 0
    else Changes(rgbs[..|rgbs| - 1]) + (if rgbs[|rgbs| - 1] != Previous(rgbs[..|rgbs| - 1]) then 1 else 0)
  }

  function LineCount(shapes: seq<Primitive>): nat
    decreases |shapes|
  {
    if |shapes| == 0 then 0 else LineCount(shapes[..|shapes| - 1]) + (if shapes[|shapes| - 1].Line? then 1 else 0)
  }

  /** How many operations have the given operator. */
  function CountOp(ops: seq<Operation>, name: string): nat
    decreases |ops|
  {
    if |ops| == 0 then 0 else CountOp(ops[..|ops| - 1], name) + (if ops[|ops| - 1].op == name then 1 else 0)
  }

  lemma {:induction false} CountOpAppend(a: seq<Operation>, b: seq<Operation>, name: string)
    ensures CountOp(a + b, name) == CountOp(a, name) + CountOp(b, name)
    decreases |b|
  {
    if |b| == 0 {
      assert a + b == a;
    } else {
      assert (a + b)[..|a + b| - 1] == a + b[..|b| - 1];
      CountOpAppend(a, b[..|b| - 1], name);
    }
  }

  lemma CountOpSingle(x: Operation, name: string)
    ensures CountOp([x], name) == if x.op == name then 1 else 0
  {
    assert [x][..0] == [];
  }

  /** A polygon's operations hold one move, one fill and no stroke, and one
      fill colour exactly when a colour is given. */
  lemma PolygonCounts(points: seq<Vec3>, color: Option<Rgb>, name: string)
    requires |points| > 0 && name != "l"
    ensures CountOp(PolygonOps(points, color), name)
            == (if name == "m" || name == "f" then 1 else 0) + (if name == "rg" && color.Some? then 1 else 0)
  {
    var a := [MoveTo(points[0])];
    var ls := LineTos(points[1..]);
    var rg: seq<Operation> := if color.Some? then [SetFill(color.value)] else [];
    var f := [Operation("f", [])];
    assert PolygonOps(points, color) == a + ls + rg + f;
    CountOpAppend(a, ls, name);
    CountOpAppend(a + ls, rg, name);
    CountOpAppend(a + ls + rg, f, name);
    CountOpSingle(MoveTo(points[0]), name);
    CountOpSingle(Operation("f", []), name);
    if color.Some? {
      CountOpSingle(SetFill(color.value), name);
    }
    LineTosCount(points[1..], name);
  }

  /** A line's operations are one move, one line segment and one stroke. */
  lemma LineCounts(line: Pair, name: string)
    ensures CountOp(LineOps(line), name) == (if name == "m" || name == "l" || name == "S" then 1 else 0)
  {
    assert LineOps(line) == [MoveTo(line[0])] + [LineTo(line[1])] + [Operation("S", [])];
    CountOpAppend([MoveTo(line[0])], [LineTo(line[1])], name);
    CountOpAppend([MoveTo(line[0])] + [LineTo(line[1])], [Operation("S", [])], name);
    CountOpSingle(MoveTo(line[0]), name);
    CountOpSingle(LineTo(line[1]), name);
    CountOpSingle(Operation("S", []), name);
  }

  lemma {:induction false} LineTosCount(ps: seq<Vec3>, name: string)
    requires name != "l"
    ensures CountOp(LineTos(ps), name) == 0
    decreases |ps|
  {
    if |ps| > 0 {
      LineTosCount(ps[..|ps| - 1], name);
      assert LineTos(ps)[..|ps| - 1] == LineTos(ps[..|ps| - 1]);
    }
  }

  /** One iteration with a non-empty colour table: it does not panic; a
      polygon adds one fill, and one fill colour exactly when its colour
      differs from `current_color`, and becomes `current_color`; a line adds
      one stroke. */
  lemma DrawStepMeaning(colors: ColorMap, st: DrawState, shape: Primitive)
    requires InRange(colors) && |colors.values| > 0
    ensures DrawStep(colors, st, shape).Ok?
    ensures var next := DrawStep(colors, st, shape).value;
            next.current == (if shape.Polygon? then RgbOf(colors, shape.color) else st.current)
            && CountOp(next.ops, "rg")
               == CountOp(st.ops, "rg") + (if shape.Polygon? && RgbOf(colors, shape.color) != st.current then 1 else 0)
            && CountOp(next.ops, "f") == CountOp(st.ops, "f") + (if shape.Polygon? then 1 else 0)
            && CountOp(next.ops, "S") == CountOp(st.ops, "S") + (if shape.Line? then 1 else 0)
  {
    var next := DrawStep(colors, st, shape).value;
    match shape {
      case Line(l) =>
        CountOpAppend(st.ops, LineOps(l), "rg");
        CountOpAppend(st.ops, LineOps(l), "f");
        CountOpAppend(st.ops, LineOps(l), "S");
        LineCounts(l, "rg");
        LineCounts(l, "f");
        LineCounts(l, "S");
      case Polygon(poly, code) =>
        var rgb := RgbOf(colors, code);
        var color := if rgb != st.current then Some(rgb) else None;
        var emitted := PolygonOps(poly.AsSlice(), color);
        assert next.ops == st.ops + emitted;
        CountOpAppend(st.ops, emitted, "rg");
        CountOpAppend(st.ops, emitted, "f");
        CountOpAppend(st.ops, emitted, "S");
        PolygonCounts(poly.AsSlice(), color, "rg");
        PolygonCounts(poly.AsSlice(), color, "f");
        PolygonCounts(poly.AsSlice(), color, "S");
    }
  }

  /** With a non-empty colour table the shape loop never panics; after it,
      `current_color` is the last polygon's colour (white if none), there is
      one fill colour operation per colour change starting from white, one
      fill per polygon and one stroke per line. */
  lemma {:induction false} DrawMeaning(shapes: seq<Primitive>, colors: ColorMap, k: nat)
    requires InRange(colors) && |colors.values| > 0 && k <= |shapes|
    ensures DrawPrefix(shapes, colors, k).Ok?
    ensures var st := DrawPrefix(shapes, colors, k).value;
            var rgbs := PolygonRgbs(shapes[..k], colors);
            st.current == Previous(rgbs)
            && CountOp(st.ops, "rg") == Changes(rgbs)
            && CountOp(st.ops, "f") == |rgbs|
            && CountOp(st.ops, "S") == LineCount(shapes[..k])
  {
    if k > 0 {
      DrawMeaning(shapes, colors, k - 1);
      var st := DrawPrefix(shapes, colors, k - 1).value;
      var shape := shapes[k - 1];
      DrawStepMeaning(colors, st, shape);
      assert DrawPrefix(shapes, colors, k) == DrawStep(colors, st, shape);
      assert shapes[..k][..k - 1] == shapes[..k - 1];
      assert shapes[..k][k - 1] == shape;
      var before := PolygonRgbs(shapes[..k - 1], colors);
      if shape.Polygon? {
        var rgbs := before + [RgbOf(colors, shape.color)];
        assert PolygonRgbs(shapes[..k], colors) == rgbs;
        assert rgbs[..|rgbs| - 1] == before;
      } else {
        assert PolygonRgbs(shapes[..k], colors) == before;
      }
    }
  }

  /** The `k`-th polygon is filled with a fill colour operation exactly when
      its colour differs from the previous polygon's (white before the
      first); a line leaves the colour unchanged. */
  lemma DrawShapeStep(shapes: seq<Primitive>, colors: ColorMap, k: nat)
    requires InRange(colors) && |colors.values| > 0 && k < |shapes|
    ensures DrawPrefix(shapes, colors, k).Ok? && DrawPrefix(shapes, colors, k + 1).Ok?
    ensures var before := DrawPrefix(shapes, colors, k).value;
            var after := DrawPrefix(shapes, colors, k + 1).value;
            var prev := Previous(PolygonRgbs(shapes[..k], colors));
            match shapes[k]
            case Line(l) => after.ops == before.ops + LineOps(l) && after.current == before.current
            case Polygon(poly, code) =>
              var rgb := RgbOf(colors, code);
              after.ops == before.ops + PolygonOps(poly.AsSlice(), if rgb != prev then Some(rgb) else None)
              && after.current == rgb
  {
    DrawMeaning(shapes, colors, k);
  }

  /** The shape loop panics exactly when the colour table is empty and
      there is a polygon to colour. */
  lemma DrawPanics(shapes: seq<Primitive>, colors: ColorMap)
    requires InRange(colors)
    ensures DrawPrefix(shapes, colors, |shapes|).Err? <==> |colors.values| == 0 && exists i :: 0 <= i < |shapes| && shapes[i].Polygon?
  {
    if |colors.values| > 0 {
      DrawMeaning(shapes, colors, |shapes|);
    } else {
      EmptyTablePanics(shapes, colors, |shapes|);
    }
  }

  lemma {:induction false} EmptyTablePanics(shapes: seq<Primitive>, colors: ColorMap, k: nat)
    requires |colors.values| == 0 && k <= |shapes|
    ensures DrawPrefix(shapes, colors, k).Err? <==> exists i :: 0 <= i < k && shapes[i].Polygon?
    ensures DrawPrefix(shapes, colors, k).Err? ==> DrawPrefix(shapes, colors, k).error == EmptyColorMap
  {
    if k > 0 {
      EmptyTablePanics(shapes, colors, k - 1);
    }
  }

  // ---------------------------------------------------------------------
  // The depth sort

  /** The sort key: `center().z`, drawn in decreasing order. */
  function Depth(p: Primitive): real {
    p.Center().z
  }

  /** A shape tagged with its position in the unsorted drawing. */
  type Tagged = (nat, Primitive)

  /** The order `sort_by(|a, b| b.center().z.total_cmp(&a.center().z))`
      produces, made total by the stability of `sort_by`: deeper first, and
      on equal depth the earlier shape first. */
  predicate Before(a: Tagged, b: Tagged) {
    Depth(a.1) > Depth(b.1) || (Depth(a.1) == Depth(b.1) && a.0 < b.0)
  }

  predicate Sorted(s: seq<Tagged>) {
    forall i, j :: 0 <= i < j < |s| ==> Before(s[i], s[j])
  }

  /** Insert in front of the first element that is not deeper. */
  function Insert(x: Tagged, s: seq<Tagged>): (r: seq<Tagged>)
    ensures multiset(r) == multiset(s) + multiset{x}
    ensures |r| == |s| + 1
  {
    if |s| == 0 then [x]
    else if Depth(s[0].1) <= Depth(x.1) then [x] + s
    else
      assert s == [s[0]] + s[1..];
      [s[0]] + Insert(x, s[1..])
  }

  function InsertionSort(s: seq<Tagged>): (r: seq<Tagged>)
    ensures multiset(r) == multiset(s)
    ensures |r| == |s|
  {
    if |s| == 0 then []
    else
      assert s == [s[0]] + s[1..];
      Insert(s[0], InsertionSort(s[1..]))
  }

  function Tag(d: seq<Primitive>): seq<Tagged> {
    seq(|d|, i requires 0 <= i < |d| => (i, d[i]))
  }

  /** The sorted drawing. The standard library's merge sort is replaced by
      an insertion sort; both are stable, so both give this sequence. */
  function SortByDepth(d: seq<Primitive>): (out: seq<Primitive>)
    ensures |out| == |d|
  {
    var s := InsertionSort(Tag(d));
    seq(|s|, i requires 0 <= i < |s| => s[i].1)
  }

  lemma {:induction false} InsertSorted(x: Tagged, s: seq<Tagged>)
    requires Sorted(s) && forall e :: e in s ==> x.0 < e.0
    ensures Sorted(Insert(x, s))
    decreases |s|
  {
    if |s| > 0 && Depth(s[0].1) > Depth(x.1) {
      var tail := s[1..];
      assert Sorted(tail) by {
        forall i, j | 0 <= i < j < |tail| ensures Before(tail[i], tail[j]) {
          assert tail[i] == s[i + 1] && tail[j] == s[j + 1];
        }
      }
      InsertSorted(x, tail);
      var rest := Insert(x, tail);
      forall j | 0 <= j < |rest| ensures Before(s[0], rest[j]) {
        InsertMember(x, tail, j);
      }
      SortedCons(s[0], rest);
    }
  }

  /** An inserted-into sequence holds the new element and the old ones. */
  lemma InsertMember(x: Tagged, s: seq<Tagged>, j: nat)
    requires j < |Insert(x, s)|
    ensures Insert(x, s)[j] == x || exists m :: 0 <= m < |s| && s[m] == Insert(x, s)[j]
  {
    assert Insert(x, s)[j] in multiset(s) + multiset{x};
  }

  lemma SortedCons(y: Tagged, s: seq<Tagged>)
    requires Sorted(s) && forall j :: 0 <= j < |s| ==> Before(y, s[j])
    ensures Sorted([y] + s)
  {
    var r := [y] + s;
    forall i, j | 0 <= i < j < |r| ensures Before(r[i], r[j]) {
      assert r[j] == s[j - 1];
      if i > 0 {
        assert r[i] == s[i - 1];
      }
    }
  }

  /** Each tag carries its own shape. */
  ghost predicate TagsOf(s: seq<Tagged>, d: seq<Primitive>) {
    forall e :: e in s ==> e.0 < |d| && e.1 == d[e.0]
  }

  lemma {:induction false} InsertionSortSorted(s: seq<Tagged>)
    requires forall i, j :: 0 <= i < j < |s| ==> s[i].0 < s[j].0
    ensures Sorted(InsertionSort(s))
    decreases |s|
  {
    if |s| > 0 {
      InsertionSortSorted(s[1..]);
      forall e | e in InsertionSort(s[1..]) ensures s[0].0 < e.0 {
        assert e in multiset(s[1..]);
        var m :| 0 <= m < |s[1..]| && s[1..][m] == e;
        assert s[m + 1] == e;
      }
      InsertSorted(s[0], InsertionSort(s[1..]));
    }
  }

  /** The input position of each shape of the sorted drawing. */
  function SortPermutation(d: seq<Primitive>): (perm: seq<nat>)
    ensures |perm| == |d|
  {
    var s := InsertionSort(Tag(d));
    seq(|s|, i requires 0 <= i < |s| => s[i].0)
  }

  lemma SortedTags(d: seq<Primitive>)
    ensures forall e :: e in InsertionSort(Tag(d)) ==> e.0 < |d| && e.1 == d[e.0]
  {
    var t := Tag(d);
    forall e | e in InsertionSort(t) ensures e.0 < |d| && e.1 == d[e.0] {
      assert e in multiset(t);
      var m :| 0 <= m < |t| && t[m] == e;
    }
  }

  /** The sort draws the whole drawing, each shape once: position `i` of
      the result holds the shape at position `perm[i]` of the input, and
      `perm` is a permutation of the positions. Shapes come deepest first,
      and shapes of equal depth keep their input order. */
  lemma SortByDepthMeaning(d: seq<Primitive>)
    ensures var out := SortByDepth(d);
            var perm := SortPermutation(d);
            |out| == |d|
            && (forall i :: 0 <= i < |d| ==> perm[i] < |d| && out[i] == d[perm[i]])
            && (forall i, j :: 0 <= i < j < |d| ==> perm[i] != perm[j])
            && (forall i, j :: 0 <= i < j < |d| ==>
                  Depth(out[i]) > Depth(out[j]) || (Depth(out[i]) == Depth(out[j]) && perm[i] < perm[j]))
  {
    var s := InsertionSort(Tag(d));
    InsertionSortSorted(Tag(d));
    SortedTags(d);
    forall i | 0 <= i < |d| ensures s[i].0 < |d| && s[i].1 == d[s[i].0] {
      assert s[i] in s;
    }
  }

  // ---------------------------------------------------------------------
  // build_pdf

  /** The content operations `build_pdf` pushes before any shape: line
      width 0.1, the RGB fill and stroke colour spaces, round line caps. */
  function Preamble(): seq<Operation> {
    [Operation("w", [Real(0.1)]), Operation("cs", [Name("DeviceRGB")]), Operation("CS", [Name("DeviceRGB")]),
     Operation("J", [Int(1)])]
  }

  /** The page content `build_pdf(pages, width, height, drawing, colors)`
      writes: the preamble, then the sorted drawing's shape operations. It
      panics without a page, and on a polygon when the colour table is
      empty. */
  method BuildContent(pages: nat, drawing: seq<Primitive>, colors: ColorMap)
    returns (content: Content, panic: Option<PdfPanic>)
    ensures pages == 0 ==> panic == Some(NoPages)
    ensures pages > 0 && DrawPrefix(SortByDepth(drawing), colors, |drawing|).Err? ==>
              panic == Some(DrawPrefix(SortByDepth(drawing), colors, |drawing|).error)
    ensures pages > 0 && DrawPrefix(SortByDepth(drawing), colors, |drawing|).Ok? ==>
              panic == None
              && content.operations == Preamble() + DrawPrefix(SortByDepth(drawing), colors, |drawing|).value.ops
  {
    content := new Content();
    if pages == 0 {
      return content, Some(NoPages);
    }
    PushPreamble(content);
    var currentColor := WHITE;
    var sorted := SortByDepth(drawing);
    ghost var st := DrawState([], WHITE);
    for i := 0 to |sorted|
      invariant DrawPrefix(sorted, colors, i) == Ok(st)
      invariant content.operations == Preamble() + st.ops && currentColor == st.current
    {
      var e;
      currentColor, e := DrawShape(content, colors, currentColor, sorted[i], Preamble(), st);
      if e.Some? {
        DrawPanicSticks(sorted, colors, i + 1, |sorted|);
        return content, e;
      }
      st := DrawStep(colors, st, sorted[i]).value;
    }
    panic := None;
  }

  /** The four `push_op` calls that precede the shape loop. */
  method PushPreamble(content: Content)
    modifies content
    ensures content.operations == old(content.operations) + Preamble()
  {
    content.PushOp("w", [Real(0.1)]);
    content.PushOp("cs", [Name("DeviceRGB")]);
    content.PushOp("CS", [Name("DeviceRGB")]);
    content.PushOp("J", [Int(1)]);
  }

  /** The body of the shape loop of `build_pdf`. */
  method DrawShape(content: Content, colors: ColorMap, currentColor: Rgb, shape: Primitive,
                   ghost preamble: seq<Operation>, ghost st: DrawState)
    returns (color: Rgb, panic: Option<PdfPanic>)
    requires content.operations == preamble + st.ops && currentColor == st.current
    modifies content
    ensures DrawStep(colors, st, shape).Err? ==> panic == Some(DrawStep(colors, st, shape).error)
    ensures DrawStep(colors, st, shape).Ok? ==>
              panic == None && color == DrawStep(colors, st, shape).value.current
              && content.operations == preamble + DrawStep(colors, st, shape).value.ops
  {
    color, panic := currentColor, None;
    match shape {
      case Line(l) =>
        content.PushLine(l);
        assert content.operations == preamble + (st.ops + LineOps(l));
      case Polygon(polygon, code) =>
        var entry := ByCode(colors, code);
        if entry.None? {
          return color, Some(EmptyColorMap);
        }
        var rgb := entry.value.value;
        var emitted := PolygonOps(polygon.AsSlice(), if rgb != currentColor then Some(rgb) else None);
        assert DrawStep(colors, st, shape) == Ok(DrawState(st.ops + emitted, rgb));
        content.PushPolygon(polygon.AsSlice(), if rgb != currentColor then Some(rgb) else None);
        assert content.operations == preamble + (st.ops + emitted);
        color := rgb;
    }
  }
}
