/** The PDF pipeline's traversal (src/ldr.rs): it walks a model tree in
    document order and emits every line, triangle and quad as a world-space
    `Primitive`, polygons carrying their resolved colour code. */
module Ldr {
  import opened Wrappers
  import opened Colors
  import opened Geometry
  import opened Ldraw
  import opened Buffers

  /** `GeometryContext`: the accumulated transform and inherited colour. */
  datatype GeometryContext<M> = GeometryContext(transform: M, color: ColorCode)

  /** `GeometryContext::new`: the isometric view rotation (computed with trig
      in the source) is passed in; the colour starts as CURRENT_COLOR. */
  function NewContext<M>(view: M): (ctx: GeometryContext<M>)
    ensures ctx.transform == view && ctx.color == CURRENT_COLOR
  {
    GeometryContext(view, CURRENT_COLOR)
  }

  /** `child`: the reference's matrix multiplied on the right of the
      accumulated transform, and the reference's colour resolved against the
      inherited one. */
  function Child<M>(alg: Algebra<M>, ctx: GeometryContext<M>, sfrc: Command<M>): (c: GeometryContext<M>)
    requires sfrc.SubFileRef?
    ensures c.transform == alg.compose(ctx.transform, sfrc.matrix)
    ensures c.color == (if sfrc.color == CURRENT_COLOR then ctx.color else sfrc.color)
  {
    GeometryContext(alg.compose(ctx.transform, sfrc.matrix), NewColor(ctx.color, sfrc.color))
  }

  // ---------------------------------------------------------------------
  // Specification: what `traverse` appends, or the panic it raises.

  /** Everything `traverse(model_name, ctx)` appends to its output. */
  function Flatten<M>(sm: SourceMap<M>, alg: Algebra<M>, name: string, ctx: GeometryContext<M>)
    : Result<seq<Primitive>, Panic>
    requires sm.Ranked()
    decreases sm.Measure(name), sm.Length(name) + 1
  {
    if name !in sm.files then Err(MissingModel(name))
    else FlattenPrefix(sm, alg, name, ctx, |sm.files[name].cmds|)
  }

  /** What the first `k` commands of model `name` append. */
  function FlattenPrefix<M>(sm: SourceMap<M>, alg: Algebra<M>, name: string, ctx: GeometryContext<M>, k: nat)
    : Result<seq<Primitive>, Panic>
    requires sm.Ranked() && name in sm.files && k <= |sm.files[name].cmds|
    decreases sm.Measure(name), k
  {
    if k == 0 then Ok([])
    else
      match FlattenPrefix(sm, alg, name, ctx, k - 1)
      case Err(e) => Err(e)
      case Ok(out) =>
        match FlattenCommand(sm, alg, name, ctx, k - 1)
        case Err(e) => Err(e)
        case Ok(emitted) => Ok(out + emitted)
  }

  /** What command `i` of model `name` appends. */
  function FlattenCommand<M>(sm: SourceMap<M>, alg: Algebra<M>, name: string, ctx: GeometryContext<M>, i: nat)
    : Result<seq<Primitive>, Panic>
    requires sm.Ranked() && name in sm.files && i < |sm.files[name].cmds|
    decreases sm.Measure(name), 0
  {
    var cmd := sm.files[name].cmds[i];
    match cmd
    case SubFileRef(file, _, _) => Flatten(sm, alg, file, Child(alg, ctx, cmd))
    case Line(segment) => Ok([Primitive.Line(Project(alg, ctx.transform, segment))])
    case Triangle(vs, color) => Ok([Polygon(Tri(Project(alg, ctx.transform, vs)), NewColor(ctx.color, color))])
    case Quad(vs, color) => Ok([Polygon(Poly.Quad(Project(alg, ctx.transform, vs)), NewColor(ctx.color, color))])
    case _ => Ok([])
  }

  /** Once a prefix panics, every longer prefix raises the same panic. */
  lemma {:induction false} FlattenPanicSticks<M>(sm: SourceMap<M>, alg: Algebra<M>, name: string,
                                                 ctx: GeometryContext<M>, j: nat, k: nat)
    requires sm.Ranked() && name in sm.files && j <= k <= |sm.files[name].cmds|
    requires FlattenPrefix(sm, alg, name, ctx, j).Err?
    ensures FlattenPrefix(sm, alg, name, ctx, k) == FlattenPrefix(sm, alg, name, ctx, j)
    decreases k
  {
    if j < k {
      FlattenPanicSticks(sm, alg, name, ctx, j, k - 1);
    }
  }

  // ---------------------------------------------------------------------
  // The traversal itself.

  /** `traverse(source_map, model_name, ctx, output)` */
  method Traverse<M>(sm: SourceMap<M>, alg: Algebra<M>, name: string, ctx: GeometryContext<M>,
                     output: Vec<Primitive>) returns (panic: Option<Panic>)
    requires sm.Ranked()
    modifies output
    ensures Flatten(sm, alg, name, ctx).Err? ==> panic == Some(Flatten(sm, alg, name, ctx).error)
    ensures Flatten(sm, alg, name, ctx).Ok? ==>
              panic == None && output.items == old(output.items) + Flatten(sm, alg, name, ctx).value
    decreases sm.Measure(name)
  {
    if name !in sm.files {
      return Some(MissingModel(name));
    }
    var cmds := sm.files[name].cmds;
    var i := 0;
    while i < |cmds|
      invariant 0 <= i <= |cmds|
      invariant FlattenPrefix(sm, alg, name, ctx, i).Ok?
      invariant output.items == old(output.items) + FlattenPrefix(sm, alg, name, ctx, i).value
    {
      var cmd := cmds[i];
      match cmd {
        case SubFileRef(file, _, _) =>
          var e := Traverse(sm, alg, file, Child(alg, ctx, cmd), output);
          if e.Some? {
            FlattenPanicSticks(sm, alg, name, ctx, i + 1, |cmds|);
            return e;
          }
        case Line(segment) =>
          output.Push(Primitive.Line(Project(alg, ctx.transform, segment)));
        case Triangle(vs, color) =>
          var c := NewColor(ctx.color, color);
          var poly := Tri(Project(alg, ctx.transform, vs));
          output.Push(Polygon(poly, c));
        case Quad(vs, color) =>
          var c := NewColor(ctx.color, color);
          var poly := Poly.Quad(Project(alg, ctx.transform, vs));
          output.Push(Polygon(poly, c));
        case _ =>
      }
      i := i + 1;
    }
    return None;
  }

  // ---------------------------------------------------------------------
  // Properties of the traversal.

  /** The colour codes on the way to each primitive `Flatten` emits, in
      output order: the codes of the references passed through, outermost
      first, then the primitive's own code (a line has none). */
  function ColorPaths<M>(sm: SourceMap<M>, name: string): seq<seq<ColorCode>>
    requires sm.Ranked()
    decreases sm.Measure(name), sm.Length(name) + 1
  {
    if name !in sm.files then [] else ColorPathsPrefix(sm, name, |sm.files[name].cmds|)
  }

  function ColorPathsPrefix<M>(sm: SourceMap<M>, name: string, k: nat): seq<seq<ColorCode>>
    requires sm.Ranked() && name in sm.files && k <= |sm.files[name].cmds|
    decreases sm.Measure(name), k
  {
    if k == 0 then [] else ColorPathsPrefix(sm, name, k - 1) + ColorPathsCommand(sm, name, k - 1)
  }

  function ColorPathsCommand<M>(sm: SourceMap<M>, name: string, i: nat): seq<seq<ColorCode>>
    requires sm.Ranked() && name in sm.files && i < |sm.files[name].cmds|
    decreases sm.Measure(name), 0
  {
    match sm.files[name].cmds[i]
    case SubFileRef(file, color, _) => Below(color, ColorPaths(sm, file))
    case Line(_) => [[]]
    case Triangle(_, color) => [[color]]
    case Quad(_, color) => [[color]]
    case _ => []
  }

  /** Primitive `j` was reached along `paths[j]`, and every polygon's colour
      is what that path resolves to from `root`. */
  ghost predicate ColorsFollow(out: seq<Primitive>, paths: seq<seq<ColorCode>>, root: ColorCode) {
    |out| == |paths| &&
    forall j :: 0 <= j < |out| && out[j].Polygon? ==> |paths[j]| > 0 && out[j].color == Inherit(root, paths[j])
  }

  lemma ColorsFollowAppend(a: seq<Primitive>, pa: seq<seq<ColorCode>>, b: seq<Primitive>, pb: seq<seq<ColorCode>>,
                           root: ColorCode)
    requires ColorsFollow(a, pa, root) && ColorsFollow(b, pb, root)
    ensures ColorsFollow(a + b, pa + pb, root)
  {
    forall j | 0 <= j < |a + b| && (a + b)[j].Polygon?
      ensures |(pa + pb)[j]| > 0 && (a + b)[j].color == Inherit(root, (pa + pb)[j])
    {
      if j >= |a| {
        assert (a + b)[j] == b[j - |a|] && (pa + pb)[j] == pb[j - |a|];
      }
    }
  }

  /** Output reached through a reference of code `c` follows the paths
      with `c` in front, from the referencing context's colour. */
  lemma ColorsFollowBelow(out: seq<Primitive>, paths: seq<seq<ColorCode>>, root: ColorCode, c: ColorCode)
    requires ColorsFollow(out, paths, NewColor(root, c))
    ensures ColorsFollow(out, Below(c, paths), root)
  {
    forall j | 0 <= j < |out| && out[j].Polygon?
      ensures out[j].color == Inherit(root, Below(c, paths)[j])
    {
      InheritCons(root, c, paths[j]);
    }
  }

  /** Colour inheritance: every polygon's colour is its colour path
      resolved from the starting context's colour. */
  lemma {:induction false} FlattenColors<M>(sm: SourceMap<M>, alg: Algebra<M>, name: string, ctx: GeometryContext<M>)
    requires sm.Ranked()
    requires Flatten(sm, alg, name, ctx).Ok?
    ensures ColorsFollow(Flatten(sm, alg, name, ctx).value, ColorPaths(sm, name), ctx.color)
    decreases sm.Measure(name), sm.Length(name) + 1
  {
    FlattenPrefixColors(sm, alg, name, ctx, |sm.files[name].cmds|);
  }

  lemma {:induction false} FlattenPrefixColors<M>(sm: SourceMap<M>, alg: Algebra<M>, name: string,
                                                  ctx: GeometryContext<M>, k: nat)
    requires sm.Ranked() && name in sm.files && k <= |sm.files[name].cmds|
    requires FlattenPrefix(sm, alg, name, ctx, k).Ok?
    ensures ColorsFollow(FlattenPrefix(sm, alg, name, ctx, k).value, ColorPathsPrefix(sm, name, k), ctx.color)
    decreases sm.Measure(name), k
  {
    if k > 0 {
      FlattenPrefixColors(sm, alg, name, ctx, k - 1);
      var emitted := FlattenCommand(sm, alg, name, ctx, k - 1).value;
      var paths := ColorPathsCommand(sm, name, k - 1);
      match sm.files[name].cmds[k - 1] {
        case SubFileRef(file, color, m) =>
          var child := Child(alg, ctx, SubFileRef(file, color, m));
          FlattenColors(sm, alg, file, child);
          ColorsFollowBelow(emitted, ColorPaths(sm, file), ctx.color, color);
        case Triangle(_, color) =>
          assert [color][..0] == [];
        case Quad(_, color) =>
          assert [color][..0] == [];
        case _ =>
      }
      ColorsFollowAppend(FlattenPrefix(sm, alg, name, ctx, k - 1).value, ColorPathsPrefix(sm, name, k - 1),
                         emitted, paths, ctx.color);
    }
  }

  /** The rule as the renderer relies on it: a polygon's colour is the
      innermost code on its path that is not 16, its own code included; it
      is the starting colour when every code on the path is 16, and it is 16
      only when the starting colour and every code on the path are 16. */
  lemma FlattenColorIsInnermost<M>(sm: SourceMap<M>, alg: Algebra<M>, name: string, ctx: GeometryContext<M>, j: nat)
    requires sm.Ranked()
    requires Flatten(sm, alg, name, ctx).Ok?
    requires j < |Flatten(sm, alg, name, ctx).value| && Flatten(sm, alg, name, ctx).value[j].Polygon?
    ensures j < |ColorPaths(sm, name)| && |ColorPaths(sm, name)[j]| > 0
    ensures var c := Flatten(sm, alg, name, ctx).value[j].color;
            var path := ColorPaths(sm, name)[j];
            (c == CURRENT_COLOR <==> ctx.color == CURRENT_COLOR && forall i :: 0 <= i < |path| ==> path[i] == CURRENT_COLOR)
            && ((forall i :: 0 <= i < |path| ==> path[i] == CURRENT_COLOR) ==> c == ctx.color)
            && (forall i :: (0 <= i < |path| && path[i] != CURRENT_COLOR
                             && (forall l :: i < l < |path| ==> path[l] == CURRENT_COLOR)) ==> c == path[i])
  {
    FlattenColors(sm, alg, name, ctx);
    InheritIsInnermost(ctx.color, ColorPaths(sm, name)[j]);
  }

  /** The only panic is the lookup of an absent model, and it names a model
      the source map lacks. */
  lemma {:induction false} FlattenPanics<M>(sm: SourceMap<M>, alg: Algebra<M>, name: string, ctx: GeometryContext<M>)
    requires sm.Ranked()
    ensures Flatten(sm, alg, name, ctx).Err? ==>
              Flatten(sm, alg, name, ctx).error.MissingModel? && Flatten(sm, alg, name, ctx).error.name !in sm.files
    ensures name !in sm.files ==> Flatten(sm, alg, name, ctx) == Err(MissingModel(name))
    decreases sm.Measure(name), sm.Length(name) + 1
  {
    if name in sm.files {
      FlattenPrefixPanics(sm, alg, name, ctx, |sm.files[name].cmds|);
    }
  }

  lemma {:induction false} FlattenPrefixPanics<M>(sm: SourceMap<M>, alg: Algebra<M>, name: string,
                                                  ctx: GeometryContext<M>, k: nat)
    requires sm.Ranked() && name in sm.files && k <= |sm.files[name].cmds|
    ensures FlattenPrefix(sm, alg, name, ctx, k).Err? ==>
              FlattenPrefix(sm, alg, name, ctx, k).error.MissingModel?
              && FlattenPrefix(sm, alg, name, ctx, k).error.name !in sm.files
    decreases sm.Measure(name), k
  {
    if k > 0 {
      FlattenPrefixPanics(sm, alg, name, ctx, k - 1);
      var cmd := sm.files[name].cmds[k - 1];
      if cmd.SubFileRef? {
        FlattenPanics(sm, alg, cmd.file, Child(alg, ctx, cmd));
      }
    }
  }

  /** A model made only of leaf commands emits exactly one primitive per
      line, triangle and quad, in document order, with no vertex reordering
      and nothing for comments, optional lines or other commands. */
  lemma {:induction false} FlattenLeaves<M>(sm: SourceMap<M>, alg: Algebra<M>, name: string,
                                            ctx: GeometryContext<M>, k: nat)
    requires sm.Ranked() && name in sm.files && k <= |sm.files[name].cmds|
    requires forall i :: 0 <= i < k ==> !sm.files[name].cmds[i].SubFileRef?
    ensures FlattenPrefix(sm, alg, name, ctx, k) == Ok(LeafPrimitives(alg, ctx, sm.files[name].cmds[..k]))
    decreases k
  {
    if k > 0 {
      var cmds := sm.files[name].cmds;
      FlattenLeaves(sm, alg, name, ctx, k - 1);
      assert cmds[..k] == cmds[..k - 1] + [cmds[k - 1]];
      LeafPrimitivesAppend(alg, ctx, cmds[..k - 1], cmds[k - 1]);
      FlattenLeafCommand(sm, alg, name, ctx, k - 1);
    }
  }

  lemma FlattenLeafCommand<M>(sm: SourceMap<M>, alg: Algebra<M>, name: string, ctx: GeometryContext<M>, i: nat)
    requires sm.Ranked() && name in sm.files && i < |sm.files[name].cmds|
    requires !sm.files[name].cmds[i].SubFileRef?
    ensures FlattenCommand(sm, alg, name, ctx, i) == Ok(LeafPrimitives(alg, ctx, [sm.files[name].cmds[i]]))
  {
    var c := sm.files[name].cmds[i];
    assert [c][1..] == [];
    var nothing: seq<Primitive> := [];
    match c {
      case Line(segment) =>
        var x := Primitive.Line(Project(alg, ctx.transform, segment));
        assert [x] + nothing == [x];
      case Triangle(vs, color) =>
        var x := Polygon(Tri(Project(alg, ctx.transform, vs)), NewColor(ctx.color, color));
        assert [x] + nothing == [x];
      case Quad(vs, color) =>
        var x := Polygon(Poly.Quad(Project(alg, ctx.transform, vs)), NewColor(ctx.color, color));
        assert [x] + nothing == [x];
      case Comment(_) => assert nothing + nothing == nothing;
      case OptLine(_, _) => assert nothing + nothing == nothing;
      case Colour(_) => assert nothing + nothing == nothing;
      case Other => assert nothing + nothing == nothing;
    }
  }

  /** The reference reading of a reference-free command list: one
      primitive per drawable leaf, taken from the front. */
  function LeafPrimitives<M>(alg: Algebra<M>, ctx: GeometryContext<M>, cmds: seq<Command<M>>): seq<Primitive>
    decreases |cmds|
  {
    if |cmds| == 0 then []
    else
      var head := match cmds[0]
        case Line(segment) => [Primitive.Line(Project(alg, ctx.transform, segment))]
        case Triangle(vs, color) => [Polygon(Tri(Project(alg, ctx.transform, vs)), NewColor(ctx.color, color))]
        case Quad(vs, color) => [Polygon(Poly.Quad(Project(alg, ctx.transform, vs)), NewColor(ctx.color, color))]
        case _ => [];
      head + LeafPrimitives(alg, ctx, cmds[1..])
  }

  lemma {:induction false} LeafPrimitivesAppend<M>(alg: Algebra<M>, ctx: GeometryContext<M>,
                                                   cmds: seq<Command<M>>, last: Command<M>)
    requires !last.SubFileRef?
    ensures LeafPrimitives(alg, ctx, cmds + [last]) == LeafPrimitives(alg, ctx, cmds) + LeafPrimitives(alg, ctx, [last])
    decreases |cmds|
  {
    if |cmds| > 0 {
      assert (cmds + [last])[1..] == cmds[1..] + [last];
      LeafPrimitivesAppend(alg, ctx, cmds[1..], last);
    } else {
      assert cmds + [last] == [last];
    }
  }

  /** A concrete traversal: model "A" holds one reference to "B"
      with colour 7 and matrix `m`; "B" is certified CCW and holds one
      triangle of colour 16. Flattening "A" from the root yields exactly one
      triangle, its vertices mapped through `root * m` in their original
      order, with colour 7. */
  lemma SingleReferenceExample<M>(alg: Algebra<M>, root: M, m: M, tri: Triple)
    ensures
      var sm := SourceMap(
        map["A" := SourceFile([SubFileRef("B", 7, m)]),
            "B" := SourceFile([Comment("BFC CERTIFY CCW"), Triangle(tri, CURRENT_COLOR)])],
        map["A" := 1, "B" := 0]);
      sm.Ranked() &&
      Flatten(sm, alg, "A", NewContext(root))
        == Ok([Polygon(Tri([alg.apply(alg.compose(root, m), tri[0]),
                            alg.apply(alg.compose(root, m), tri[1]),
                            alg.apply(alg.compose(root, m), tri[2])]), 7)])
  {
    var sm := SourceMap(
      map["A" := SourceFile([SubFileRef("B", 7, m)]),
          "B" := SourceFile([Comment("BFC CERTIFY CCW"), Triangle(tri, CURRENT_COLOR)])],
      map["A" := 1, "B" := 0]);
    var ctx := NewContext(root);
    var child := Child(alg, ctx, SubFileRef("B", 7, m));
    assert sm.Ranked();
    var b := sm.files["B"].cmds;
    assert b[0] == Comment("BFC CERTIFY CCW") && b[1] == Triangle(tri, CURRENT_COLOR);
    assert FlattenPrefix(sm, alg, "B", child, 0) == Ok([]);
    assert FlattenCommand(sm, alg, "B", child, 0) == Ok([]);
    var nothing: seq<Primitive> := [];
    assert nothing + nothing == nothing;
    assert FlattenPrefix(sm, alg, "B", child, 1) == Ok(nothing);
    var t := Project(alg, child.transform, tri);
    assert t == [alg.apply(alg.compose(root, m), tri[0]), alg.apply(alg.compose(root, m), tri[1]),
                 alg.apply(alg.compose(root, m), tri[2])];
    assert FlattenCommand(sm, alg, "B", child, 1) == Ok([Polygon(Tri(t), 7)]);
    assert nothing + [Polygon(Tri(t), 7)] == [Polygon(Tri(t), 7)];
    assert FlattenPrefix(sm, alg, "B", child, 2) == Ok([Polygon(Tri(t), 7)]);
    assert Flatten(sm, alg, "B", child) == Ok([Polygon(Tri(t), 7)]);
    assert sm.files["A"].cmds[0] == SubFileRef("B", 7, m);
    assert FlattenCommand(sm, alg, "A", ctx, 0) == Flatten(sm, alg, "B", child);
    assert FlattenPrefix(sm, alg, "A", ctx, 1) == Flatten(sm, alg, "B", child);
  }
}
