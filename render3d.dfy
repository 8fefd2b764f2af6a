/** The 3D viewer's traversals (render_3d/src/main.rs), proved against the
    specifications `Bfc.PartModel` and `Bfc.DesignModel`. */
module Render3d {
  import opened Wrappers
  import opened Text
  import opened Colors
  import opened Geometry
  import opened Ldraw
  import opened Buffers
  import opened Bfc

  /** `Primitives`: the mesh buffers a part traversal appends to. */
  class Primitives {
    var triangles: seq<Triple>
    var lines: seq<Pair>
    var optLines: seq<(Pair, Pair)>

    /** `Primitives::default()` */
    constructor ()
      ensures Contents() == NoOutput
    {
      triangles := [];
      lines := [];
      optLines := [];
    }

    function Contents(): PartOut
      reads this
    {
      PartOut(triangles, lines, optLines)
    }

    method PushTriangle(t: Triple)
      modifies this
      ensures Contents() == old(Contents()).(triangles := old(triangles) + [t])
    {
      triangles := triangles + [t];
    }

    method ExtendTriangles(ts: seq<Triple>)
      modifies this
      ensures Contents() == old(Contents()).(triangles := old(triangles) + ts)
    {
      triangles := triangles + ts;
    }

    method PushLine(l: Pair)
      modifies this
      ensures Contents() == old(Contents()).(lines := old(lines) + [l])
    {
      lines := lines + [l];
    }

    method PushOptLine(l: (Pair, Pair))
      modifies this
      ensures Contents() == old(Contents()).(optLines := old(optLines) + [l])
    {
      optLines := optLines + [l];
    }
  }

  /** `traverse_part(source_map, model_name, ctx, output)` */
  method TraversePart<M>(sm: SourceMap<M>, alg: Algebra<M>, name: string, ctx: BfcContext<M>, output: Primitives)
    returns (panic: Option<Panic>)
    requires sm.Ranked()
    modifies output
    ensures PartModel(sm, alg, name, ctx).Err? ==> panic == Some(PartModel(sm, alg, name, ctx).error)
    ensures PartModel(sm, alg, name, ctx).Ok? ==>
              panic == None && output.Contents() == Then(old(output.Contents()), PartModel(sm, alg, name, ctx).value)
    decreases sm.Measure(name)
  {
    if name !in sm.files {
      return Some(MissingModel(name));
    }
    var cmds := sm.files[name].cmds;
    var currentWinding := Ccw;
    var currentInverted := ctx.inverted;
    if alg.detNegative(ctx.transform) {
      currentInverted := !currentInverted;
    }
    var invertNext := false;
    var i := 0;
    ghost var st := PartStart;
    ghost var start := output.Contents();
    while i < |cmds|
      invariant 0 <= i <= |cmds|
      invariant currentInverted == StartInverted(alg, ctx)
      invariant PartPrefix(sm, alg, name, ctx, i) == Ok(st)
      invariant st.winding == currentWinding && st.invertNext == invertNext
      invariant output.Contents() == Then(start, st.out)
    {
      var effectiveWinding := if currentInverted then currentWinding.Not() else currentWinding;
      var cmd := cmds[i];
      if cmd.SubFileRef? {
        var child := BfcChild(alg, ctx, cmd, invertNext);
        var e := TraversePart(sm, alg, cmd.file, child, output);
        if e.Some? {
          PartStepRefPanics(sm, alg, name, ctx, i, st);
          return e;
        }
        PartStepRef(sm, alg, name, ctx, i, st);
        ThenAssociative(start, st.out, PartModel(sm, alg, cmd.file, child).value);
        invertNext := false;
        st := st.(invertNext := false, out := Then(st.out, PartModel(sm, alg, cmd.file, child).value));
      } else {
        var e;
        currentWinding, invertNext, e := LeafCommand(alg, ctx, name, cmd, effectiveWinding, currentWinding, invertNext,
                                                     output, start, st);
        PartStepLeaf(sm, alg, name, ctx, i, st);
        if e.Some? {
          PartStepLeafPanics(sm, alg, name, ctx, i, st);
          return e;
        }
        st := LeafStep(alg, ctx, name, cmd, st).value;
      }
      i := i + 1;
    }
    assert start == old(output.Contents());
    return None;
  }

  /** The arms of `traverse_part`'s match for every command other than a
      sub-file reference: a comment updates the winding or `invert_next`
      (or panics), a line or optional line is projected and pushed, and a
      triangle or quad is projected, oriented by the effective winding and
      pushed, after asserting that no inversion is pending. */
  method LeafCommand<M>(alg: Algebra<M>, ctx: BfcContext<M>, name: string, cmd: Command<M>,
                        effectiveWinding: Winding, currentWinding: Winding, invertNext: bool, output: Primitives,
                        ghost start: PartOut, ghost st: PartState)
    returns (winding: Winding, invert: bool, panic: Option<Panic>)
    requires !cmd.SubFileRef?
    requires st.winding == currentWinding && st.invertNext == invertNext
    requires effectiveWinding == Effective(currentWinding, StartInverted(alg, ctx))
    requires output.Contents() == Then(start, st.out)
    modifies output
    ensures LeafStep(alg, ctx, name, cmd, st).Err? ==> panic == Some(LeafStep(alg, ctx, name, cmd, st).error)
    ensures LeafStep(alg, ctx, name, cmd, st).Ok? ==>
              var next := LeafStep(alg, ctx, name, cmd, st).value;
              panic == None && winding == next.winding && invert == next.invertNext
              && output.Contents() == Then(start, next.out)
  {
    winding, invert, panic := currentWinding, invertNext, None;
    var out := st.out;
    match cmd {
      case Comment(text) =>
        if StartsWith(text, CERTIFY) {
          if text == CERTIFY_CCW {
            winding := Ccw;
          } else if text == CERTIFY_CW {
            winding := Cw;
          } else {
            return winding, invert, Some(UnknownCertify(text));
          }
        } else if Contains(text, INVERTNEXT) {
          invert := true;
        }
      case Line(segment) =>
        output.PushLine(Project(alg, ctx.transform, segment));
        ThenExtend(start, out, [], [Project(alg, ctx.transform, segment)], []);
      case OptLine(segment, controlPoints) =>
        var l := (Project(alg, ctx.transform, segment), Project(alg, ctx.transform, controlPoints));
        output.PushOptLine(l);
        ThenExtend(start, out, [], [], [l]);
      case Triangle(vs, _) =>
        if invertNext {
          return winding, invert, Some(PendingInvert(name));
        }
        var p := Project(alg, ctx.transform, vs);
        var toPush := if effectiveWinding == Ccw then [p[0], p[1], p[2]] else [p[2], p[1], p[0]];
        assert toPush == Orient(effectiveWinding, p);
        output.PushTriangle(toPush);
        ThenExtend(start, out, [toPush], [], []);
      case Quad(vs, _) =>
        if invertNext {
          return winding, invert, Some(PendingInvert(name));
        }
        var p := Project(alg, ctx.transform, vs);
        var toPush := if effectiveWinding == Ccw then [[p[0], p[1], p[2]], [p[2], p[3], p[0]]]
                      else [[p[2], p[1], p[0]], [p[0], p[3], p[2]]];
        assert toPush == SplitQuad(effectiveWinding, p);
        output.ExtendTriangles(toPush);
        ThenExtend(start, out, toPush, [], []);
      case _ =>
    }
  }

  /** `traverse_design(source_map, model_name, ctx, output)` */
  method TraverseDesign<M>(sm: SourceMap<M>, alg: Algebra<M>, name: string, ctx: BfcContext<M>, output: Vec<Part<M>>)
    returns (panic: Option<Panic>)
    requires sm.Ranked()
    modifies output
    ensures DesignModel(sm, alg, name, ctx).Err? ==> panic == Some(DesignModel(sm, alg, name, ctx).error)
    ensures DesignModel(sm, alg, name, ctx).Ok? ==>
              panic == None && output.items == old(output.items) + DesignModel(sm, alg, name, ctx).value
    decreases sm.Measure(name)
  {
    if name !in sm.files {
      return Some(MissingModel(name));
    }
    var cmds := sm.files[name].cmds;
    var i := 0;
    while i < |cmds|
      invariant 0 <= i <= |cmds|
      invariant DesignPrefix(sm, alg, name, ctx, i).Ok?
      invariant output.items == old(output.items) + DesignPrefix(sm, alg, name, ctx, i).value
    {
      var cmd := cmds[i];
      match cmd {
        case SubFileRef(file, color, _) =>
          var childCtx := BfcChild(alg, ctx, cmd, false);
          if EndsWith(file, DAT) {
            output.Push(Part(file, NewColor(childCtx.color, color), childCtx.transform));
          } else {
            var e := TraverseDesign(sm, alg, file, childCtx, output);
            if e.Some? {
              DesignPanicSticks(sm, alg, name, ctx, i + 1, |cmds|);
              return e;
            }
          }
        case Line(_) =>
          DesignPanicSticks(sm, alg, name, ctx, i + 1, |cmds|);
          return Some(LineInDesign(name));
        case OptLine(_, _) =>
          DesignPanicSticks(sm, alg, name, ctx, i + 1, |cmds|);
          return Some(LineInDesign(name));
        case Triangle(_, _) =>
          DesignPanicSticks(sm, alg, name, ctx, i + 1, |cmds|);
          return Some(PolygonInDesign(name));
        case Quad(_, _) =>
          DesignPanicSticks(sm, alg, name, ctx, i + 1, |cmds|);
          return Some(PolygonInDesign(name));
        case _ =>
      }
      i := i + 1;
    }
    return None;
  }

  /** `build_part_mesh`: a part traversed from the identity transform, colour
      16 and no inversion, into fresh buffers. */
  method BuildPartMesh<M>(sm: SourceMap<M>, alg: Algebra<M>, identity: M, name: string)
    returns (primitives: Primitives, panic: Option<Panic>)
    requires sm.Ranked()
    ensures fresh(primitives)
    ensures PartModel(sm, alg, name, NewBfcContext(identity)).Err? ==>
              panic == Some(PartModel(sm, alg, name, NewBfcContext(identity)).error)
    ensures PartModel(sm, alg, name, NewBfcContext(identity)).Ok? ==>
              panic == None && primitives.Contents() == PartModel(sm, alg, name, NewBfcContext(identity)).value
  {
    primitives := new Primitives();
    var ctx := NewBfcContext(identity);
    panic := TraversePart(sm, alg, name, ctx, primitives);
    if panic.None? {
      ThenNothing(PartModel(sm, alg, name, ctx).value);
    }
  }

  lemma ThenAssociative(a: PartOut, b: PartOut, c: PartOut)
    ensures Then(Then(a, b), c) == Then(a, Then(b, c))
  {
    assert (a.triangles + b.triangles) + c.triangles == a.triangles + (b.triangles + c.triangles);
    assert (a.lines + b.lines) + c.lines == a.lines + (b.lines + c.lines);
    assert (a.optLines + b.optLines) + c.optLines == a.optLines + (b.optLines + c.optLines);
  }

  lemma ThenExtend(a: PartOut, b: PartOut, ts: seq<Triple>, ls: seq<Pair>, os: seq<(Pair, Pair)>)
    ensures Then(a, PartOut(b.triangles + ts, b.lines + ls, b.optLines + os))
            == PartOut(Then(a, b).triangles + ts, Then(a, b).lines + ls, Then(a, b).optLines + os)
  {
    assert (a.triangles + b.triangles) + ts == a.triangles + (b.triangles + ts);
    assert (a.lines + b.lines) + ls == a.lines + (b.lines + ls);
    assert (a.optLines + b.optLines) + os == a.optLines + (b.optLines + os);
  }

  lemma ThenNothing(o: PartOut)
    ensures Then(NoOutput, o) == o
  {
  }
}
