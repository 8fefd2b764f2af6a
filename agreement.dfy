/** How the PDF traversal (`Ldr.Flatten`) and the viewers' back-face-culling
    part traversal (`Bfc.PartModel`) relate on the same model tree: where
    the part traversal succeeds, so does the PDF traversal, with the same
    lines in the same order and one triangle for every triangle and two for
    every quad. */
module Agreement {
  import opened Wrappers
  import opened Colors
  import opened Geometry
  import opened Ldraw
  import opened Ldr
  import opened Bfc

  /** The lines among the primitives, in order. */
  function LinesOf(prims: seq<Primitive>): seq<Pair>
    decreases |prims|
  {
    if |prims| == 0 then []
    else LinesOf(prims[..|prims| - 1]) + (if prims[|prims| - 1].Line? then [prims[|prims| - 1].line] else [])
  }

  /** The number of triangles the primitives' polygons split into. */
  function TriangleCount(prims: seq<Primitive>): nat
    decreases |prims|
  {
    if |prims| == 0 then 0
    else
      var p := prims[|prims| - 1];
      TriangleCount(prims[..|prims| - 1]) + (if p.Line? then 0 else if p.poly.Tri? then 1 else 2)
  }

  lemma {:induction false} LinesOfAppend(a: seq<Primitive>, b: seq<Primitive>)
    ensures LinesOf(a + b) == LinesOf(a) + LinesOf(b)
    ensures TriangleCount(a + b) == TriangleCount(a) + TriangleCount(b)
    decreases |b|
  {
    if |b| == 0 {
      assert a + b == a;
    } else {
      var b' := b[..|b| - 1];
      assert (a + b)[..|a + b| - 1] == a + b';
      assert (a + b)[|a + b| - 1] == b[|b| - 1];
      LinesOfAppend(a, b');
    }
  }

  /** The PDF traversal's context for a viewer context. */
  function Plain<M>(ctx: BfcContext<M>): GeometryContext<M> {
    GeometryContext(ctx.transform, ctx.color)
  }

  /** Whenever the viewers' part traversal succeeds on a model, the PDF
      traversal succeeds on it too; the viewers' lines are exactly the PDF
      primitives' lines, and the viewers emit one triangle per PDF triangle
      and two per PDF quad. */
  lemma {:induction false} PartAgreesWithFlatten<M>(sm: SourceMap<M>, alg: Algebra<M>, name: string, ctx: BfcContext<M>)
    requires sm.Ranked()
    requires PartModel(sm, alg, name, ctx).Ok?
    ensures Flatten(sm, alg, name, Plain(ctx)).Ok?
    ensures PartModel(sm, alg, name, ctx).value.lines == LinesOf(Flatten(sm, alg, name, Plain(ctx)).value)
    ensures |PartModel(sm, alg, name, ctx).value.triangles| == TriangleCount(Flatten(sm, alg, name, Plain(ctx)).value)
    decreases sm.Measure(name), sm.Length(name) + 1
  {
    PrefixAgrees(sm, alg, name, ctx, |sm.files[name].cmds|);
  }

  lemma {:induction false} PrefixAgrees<M>(sm: SourceMap<M>, alg: Algebra<M>, name: string, ctx: BfcContext<M>, k: nat)
    requires sm.Ranked() && name in sm.files && k <= |sm.files[name].cmds|
    requires PartPrefix(sm, alg, name, ctx, k).Ok?
    ensures FlattenPrefix(sm, alg, name, Plain(ctx), k).Ok?
    ensures PartPrefix(sm, alg, name, ctx, k).value.out.lines == LinesOf(FlattenPrefix(sm, alg, name, Plain(ctx), k).value)
    ensures |PartPrefix(sm, alg, name, ctx, k).value.out.triangles|
            == TriangleCount(FlattenPrefix(sm, alg, name, Plain(ctx), k).value)
    decreases sm.Measure(name), k
  {
    if k > 0 {
      var cmd := sm.files[name].cmds[k - 1];
      var before := PartPrefix(sm, alg, name, ctx, k - 1);
      assert before.Ok?;
      PrefixAgrees(sm, alg, name, ctx, k - 1);
      var st := before.value;
      var flat := FlattenPrefix(sm, alg, name, Plain(ctx), k - 1).value;
      var emitted: seq<Primitive>;
      if cmd.SubFileRef? {
        var child := BfcChild(alg, ctx, cmd, st.invertNext);
        assert PartModel(sm, alg, cmd.file, child).Ok?;
        PartAgreesWithFlatten(sm, alg, cmd.file, child);
        assert Plain(child) == Ldr.Child(alg, Plain(ctx), cmd);
        emitted := Flatten(sm, alg, cmd.file, Plain(child)).value;
      } else {
        PartStepLeaf(sm, alg, name, ctx, k - 1, st);
        emitted := FlattenCommand(sm, alg, name, Plain(ctx), k - 1).value;
        LeafCounts(alg, ctx, name, cmd, st);
        FlattenLeafCommand(sm, alg, name, Plain(ctx), k - 1);
      }
      assert FlattenCommand(sm, alg, name, Plain(ctx), k - 1) == Ok(emitted);
      LinesOfAppend(flat, emitted);
    }
  }

  /** One leaf command adds the same lines, and as many triangles, to both
      traversals. */
  lemma LeafCounts<M>(alg: Algebra<M>, ctx: BfcContext<M>, name: string, cmd: Command<M>, st: PartState)
    requires !cmd.SubFileRef? && LeafStep(alg, ctx, name, cmd, st).Ok?
    ensures var next := LeafStep(alg, ctx, name, cmd, st).value.out;
            var emitted := LeafPrimitives(alg, Plain(ctx), [cmd]);
            next.lines == st.out.lines + LinesOf(emitted)
            && |next.triangles| == |st.out.triangles| + TriangleCount(emitted)
  {
    var emitted := LeafPrimitives(alg, Plain(ctx), [cmd]);
    assert [cmd][1..] == [];
    if emitted != [] {
      assert |emitted| == 1 && emitted[..0] == [];
    }
  }
}
