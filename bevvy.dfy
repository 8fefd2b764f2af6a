/** The PDF binary's Bevy viewer (src/bevvy.rs): its part traversal writes
    triangles and lines into two separate vectors and ignores optional
    lines; it is proved against the same specification `Bfc.PartModel` as
    the 3D viewer's. Its design traversal is the 3D viewer's
    (`Render3d.TraverseDesign`) line for line. */
module Bevvy {
  import opened Wrappers
  import opened Text
  import opened Colors
  import opened Geometry
  import opened Ldraw
  import opened Buffers
  import opened Bfc

  /** `traverse_part(source_map, model_name, ctx, triangles, lines)` */
  method TraversePart<M>(sm: SourceMap<M>, alg: Algebra<M>, name: string, ctx: BfcContext<M>,
                         triangles: Vec<Triple>, lines: Vec<Pair>)
    returns (panic: Option<Panic>)
    requires sm.Ranked()
    modifies triangles, lines
    ensures PartModel(sm, alg, name, ctx).Err? ==> panic == Some(PartModel(sm, alg, name, ctx).error)
    ensures PartModel(sm, alg, name, ctx).Ok? ==>
              panic == None
              && triangles.items == old(triangles.items) + PartModel(sm, alg, name, ctx).value.triangles
              && lines.items == old(lines.items) + PartModel(sm, alg, name, ctx).value.lines
    decreases sm.Measure(name)
  {
    if name !in sm.files {
      return Some(MissingModel(name));
    }
    var cmds := sm.files[name].cmds;
    var currentWinding := Ccw;
    var currentInverted := ctx.inverted;
    if alg.detNegative(ctx.transform) {
      currentInverted := !currentInverted;
    }
    var invertNext := false;
    var i := 0;
    ghost var st := PartStart;
    ghost var startTriangles := triangles.items;
    ghost var startLines := lines.items;
    while i < |cmds|
      invariant 0 <= i <= |cmds|
      invariant currentInverted == StartInverted(alg, ctx)
      invariant PartPrefix(sm, alg, name, ctx, i) == Ok(st)
      invariant st.winding == currentWinding && st.invertNext == invertNext
      invariant triangles.items == startTriangles + st.out.triangles
      invariant lines.items == startLines + st.out.lines
    {
      var effectiveWinding := if currentInverted then currentWinding.Not() else currentWinding;
      var cmd := cmds[i];
      if cmd.SubFileRef? {
        var child := BfcChild(alg, ctx, cmd, invertNext);
        var e := TraversePart(sm, alg, cmd.file, child, triangles, lines);
        if e.Some? {
          PartStepRefPanics(sm, alg, name, ctx, i, st);
          return e;
        }
        PartStepRef(sm, alg, name, ctx, i, st);
        ghost var o := PartModel(sm, alg, cmd.file, child).value;
        assert triangles.items == startTriangles + (st.out.triangles + o.triangles);
        assert lines.items == startLines + (st.out.lines + o.lines);
        invertNext := false;
        st := st.(invertNext := false, out := Then(st.out, o));
      } else {
        var e;
        currentWinding, invertNext, e := LeafCommand(alg, ctx, name, cmd, effectiveWinding, currentWinding, invertNext,
                                                     triangles, lines, startTriangles, startLines, st);
        PartStepLeaf(sm, alg, name, ctx, i, st);
        if e.Some? {
          PartStepLeafPanics(sm, alg, name, ctx, i, st);
          return e;
        }
        st := LeafStep(alg, ctx, name, cmd, st).value;
      }
      i := i + 1;
    }
    return None;
  }

  /** The arms of `traverse_part`'s match for every command other than a
      sub-file reference; optional lines fall into the catch-all arm. */
  method LeafCommand<M>(alg: Algebra<M>, ctx: BfcContext<M>, name: string, cmd: Command<M>,
                        effectiveWinding: Winding, currentWinding: Winding, invertNext: bool,
                        triangles: Vec<Triple>, lines: Vec<Pair>,
                        ghost startTriangles: seq<Triple>, ghost startLines: seq<Pair>, ghost st: PartState)
    returns (winding: Winding, invert: bool, panic: Option<Panic>)
    requires !cmd.SubFileRef?
    requires st.winding == currentWinding && st.invertNext == invertNext
    requires effectiveWinding == Effective(currentWinding, StartInverted(alg, ctx))
    requires triangles.items == startTriangles + st.out.triangles && lines.items == startLines + st.out.lines
    modifies triangles, lines
    ensures LeafStep(alg, ctx, name, cmd, st).Err? ==> panic == Some(LeafStep(alg, ctx, name, cmd, st).error)
    ensures LeafStep(alg, ctx, name, cmd, st).Ok? ==>
              var next := LeafStep(alg, ctx, name, cmd, st).value;
              panic == None && winding == next.winding && invert == next.invertNext
              && triangles.items == startTriangles + next.out.triangles
              && lines.items == startLines + next.out.lines
  {
    winding, invert, panic := currentWinding, invertNext, None;
    var out := st.out;
    match cmd {
      case Comment(text) =>
        if StartsWith(text, CERTIFY) {
          if text == CERTIFY_CCW {
            winding := Ccw;
          } else if text == CERTIFY_CW {
            winding := Cw;
          } else {
            return winding, invert, Some(UnknownCertify(text));
          }
        } else if Contains(text, INVERTNEXT) {
          invert := true;
        }
      case Line(segment) =>
        var l := Project(alg, ctx.transform, segment);
        lines.Push(l);
        assert lines.items == startLines + (out.lines + [l]);
      case Triangle(vs, _) =>
        if invertNext {
          return winding, invert, Some(PendingInvert(name));
        }
        var p := Project(alg, ctx.transform, vs);
        assert [p[0], p[1], p[2]] == Orient(Ccw, p);
        if effectiveWinding == Ccw {
          triangles.Push([p[0], p[1], p[2]]);
        } else {
          triangles.Push([p[2], p[1], p[0]]);
        }
        assert triangles.items == startTriangles + (out.triangles + [Orient(effectiveWinding, p)]);
      case Quad(vs, _) =>
        if invertNext {
          return winding, invert, Some(PendingInvert(name));
        }
        var p := Project(alg, ctx.transform, vs);
        if effectiveWinding == Ccw {
          triangles.Push([p[0], p[1], p[2]]);
          triangles.Push([p[2], p[3], p[0]]);
        } else {
          triangles.Push([p[2], p[1], p[0]]);
          triangles.Push([p[0], p[3], p[2]]);
        }
        assert triangles.items == startTriangles + (out.triangles + SplitQuad(effectiveWinding, p));
      case _ =>
    }
  }
}
