/** The back-face-culling (BFC) traversals of the 3D viewers
    (render_3d/src/main.rs and src/bevvy.rs): the design traversal that
    resolves a design into placed parts, and the part traversal that turns a
    part into counter-clockwise-facing triangles, lines and optional lines. */
module Bfc {
  import opened Wrappers
  import opened Text
  import opened Colors
  import opened Geometry
  import opened Ldraw

  /** `Winding` */
  datatype Winding = Ccw | Cw {
    /** `!winding` */
    function Not(): (w: Winding)
      ensures w != this
    {
      if Ccw? then Cw else Ccw
    }
  }

  /** The viewers' `GeometryContext`: transform, inherited colour, and
      whether the geometry reached so far is mirrored by an odd number of
      `BFC INVERTNEXT` markers. */
  datatype BfcContext<M> = BfcContext(transform: M, color: ColorCode, inverted: bool)

  /** `GeometryContext::new()` as the viewers use it: the given transform,
      colour 16, not inverted. */
  function NewBfcContext<M>(transform: M): (ctx: BfcContext<M>)
    ensures ctx.transform == transform && ctx.color == CURRENT_COLOR && !ctx.inverted
  {
    BfcContext(transform, CURRENT_COLOR, false)
  }

  /** `ctx.child(sfrc, invert)`: the matrix composed on the right, the colour
      resolved, and the inversion flag flipped when `invert` is set. */
  function BfcChild<M>(alg: Algebra<M>, ctx: BfcContext<M>, sfrc: Command<M>, invert: bool): (c: BfcContext<M>)
    requires sfrc.SubFileRef?
    ensures c.transform == alg.compose(ctx.transform, sfrc.matrix)
    ensures c.color == (if sfrc.color == CURRENT_COLOR then ctx.color else sfrc.color)
    ensures c.inverted <==> (ctx.inverted <==> !invert)
  {
    BfcContext(alg.compose(ctx.transform, sfrc.matrix), NewColor(ctx.color, sfrc.color), ctx.inverted != invert)
  }

  /** `current_inverted` at the start of `traverse_part`: the context's flag,
      flipped when the accumulated transform mirrors. */
  function StartInverted<M>(alg: Algebra<M>, ctx: BfcContext<M>): (b: bool)
    ensures b <==> (ctx.inverted <==> !alg.detNegative(ctx.transform))
  {
    if alg.detNegative(ctx.transform) then !ctx.inverted else ctx.inverted
  }

  /** `effective_winding` */
  function Effective(winding: Winding, inverted: bool): (w: Winding)
    ensures w == winding <==> !inverted
  {
    if inverted then winding.Not() else winding
  }

  // ---------------------------------------------------------------------
  // Meta-commands.

  /** What a comment does to the part traversal. */
  datatype CommentEffect = SetWinding(winding: Winding) | BadCertify | SetInvertNext | NoEffect

  const CERTIFY := "BFC CERTIFY"
  const CERTIFY_CCW := "BFC CERTIFY CCW"
  const CERTIFY_CW := "BFC CERTIFY CW"
  const INVERTNEXT := "BFC INVERTNEXT"

  /** A comment starting with `BFC CERTIFY` must be exactly `BFC CERTIFY
      CCW` or `BFC CERTIFY CW` (anything else, a bare `BFC CERTIFY`
      included, panics); any other comment containing `BFC INVERTNEXT` arms
      the inversion of the next reference; every other comment is ignored. */
  function ClassifyComment(text: string): (e: CommentEffect)
    ensures e == SetWinding(Ccw) <==> text == CERTIFY_CCW
    ensures e == SetWinding(Cw) <==> text == CERTIFY_CW
    ensures e == BadCertify <==> StartsWith(text, CERTIFY) && text != CERTIFY_CCW && text != CERTIFY_CW
    ensures e == SetInvertNext <==> !StartsWith(text, CERTIFY) && Contains(text, INVERTNEXT)
    ensures e == NoEffect <==> !StartsWith(text, CERTIFY) && !Contains(text, INVERTNEXT)
  {
    if StartsWith(text, CERTIFY) then
      if text == CERTIFY_CCW then SetWinding(Ccw)
      else if text == CERTIFY_CW then SetWinding(Cw)
      else BadCertify
    else if Contains(text, INVERTNEXT) then SetInvertNext
    else NoEffect
  }

  // ---------------------------------------------------------------------
  // Orientation.

  /** The triangle as pushed: `[a, b, c]` for CCW, `[c, b, a]` for CW. */
  function Orient(w: Winding, t: Triple): (r: Triple)
    ensures w == Ccw ==> r == t
    ensures w == Cw ==> r == [t[2], t[1], t[0]]
  {
    if w == Ccw then t else [t[2], t[1], t[0]]
  }

  /** The quad `[a, b, c, d]` split along its diagonal a-c: `[a, b, c]` and
      `[c, d, a]` for CCW, `[c, b, a]` and `[a, d, c]` for CW. */
  function SplitQuad(w: Winding, q: Quadruple): (ts: seq<Triple>)
    ensures w == Ccw ==> ts == [[q[0], q[1], q[2]], [q[2], q[3], q[0]]]
    ensures w == Cw ==> ts == [[q[2], q[1], q[0]], [q[0], q[3], q[2]]]
  {
    if w == Ccw then [[q[0], q[1], q[2]], [q[2], q[3], q[0]]]
    else [[q[2], q[1], q[0]], [q[0], q[3], q[2]]]
  }

  /** A triangle's vertices in reverse order. */
  function Reversed(t: Triple): Triple {
    [t[2], t[1], t[0]]
  }

  /** Clockwise output is counter-clockwise output reversed, triangle by
      triangle, so flipping the winding flips every emitted face; the two
      halves of a split quad cover its four vertices and share the
      diagonal. */
  lemma OrientationReverses(t: Triple, q: Quadruple)
    ensures Orient(Cw, t) == Reversed(Orient(Ccw, t))
    ensures Reversed(Orient(Cw, t)) == t
    ensures SplitQuad(Cw, q)[0] == Reversed(SplitQuad(Ccw, q)[0])
    ensures SplitQuad(Cw, q)[1] == Reversed(SplitQuad(Ccw, q)[1])
    ensures forall w: Winding, v :: v in q <==> v in SplitQuad(w, q)[0] || v in SplitQuad(w, q)[1]
    ensures forall w: Winding :: q[0] in SplitQuad(w, q)[0] && q[2] in SplitQuad(w, q)[0]
                             && q[0] in SplitQuad(w, q)[1] && q[2] in SplitQuad(w, q)[1]
  {
    assert Reversed(Orient(Cw, t)) == [t[0], t[1], t[2]];
    forall w: Winding, v | v in q ensures v in SplitQuad(w, q)[0] || v in SplitQuad(w, q)[1] {
      var i :| 0 <= i < 4 && q[i] == v;
      if w == Ccw {
        assert SplitQuad(w, q)[0] == [q[0], q[1], q[2]] && SplitQuad(w, q)[1] == [q[2], q[3], q[0]];
      } else {
        assert SplitQuad(w, q)[0] == [q[2], q[1], q[0]] && SplitQuad(w, q)[1] == [q[0], q[3], q[2]];
      }
    }
  }

  // ---------------------------------------------------------------------
  // The part traversal, as a specification.

  /** `Primitives`: what a part traversal appends. */
  datatype PartOut = PartOut(triangles: seq<Triple>, lines: seq<Pair>, optLines: seq<(Pair, Pair)>)

  const NoOutput := PartOut([], [], [])

  function Then(a: PartOut, b: PartOut): PartOut {
    PartOut(a.triangles + b.triangles, a.lines + b.lines, a.optLines + b.optLines)
  }

  /** The loop state of one `traverse_part` call: `current_winding`,
      `invert_next`, and what has been appended so far. */
  datatype PartState = PartState(winding: Winding, invertNext: bool, out: PartOut)

  const PartStart := PartState(Ccw, false, NoOutput)

  /** Everything `traverse_part(model_name, ctx)` appends, or its panic. */
  function PartModel<M>(sm: SourceMap<M>, alg: Algebra<M>, name: string, ctx: BfcContext<M>): Result<PartOut, Panic>
    requires sm.Ranked()
    decreases sm.Measure(name), sm.Length(name) + 1
  {
    if name !in sm.files then Err(MissingModel(name))
    else
      match PartPrefix(sm, alg, name, ctx, |sm.files[name].cmds|)
      case Err(e) => Err(e)
      case Ok(st) => Ok(st.out)
  }

  /** The loop state after the first `k` commands. */
  function PartPrefix<M>(sm: SourceMap<M>, alg: Algebra<M>, name: string, ctx: BfcContext<M>, k: nat): Result<PartState, Panic>
    requires sm.Ranked() && name in sm.files && k <= |sm.files[name].cmds|
    decreases sm.Measure(name), k
  {
    if k == 0 then Ok(PartStart)
    else
      match PartPrefix(sm, alg, name, ctx, k - 1)
      case Err(e) => Err(e)
      case Ok(st) => PartCommand(sm, alg, name, ctx, k - 1, st)
  }

  /** One iteration of the loop, on command `i`, from state `st`. */
  function PartCommand<M>(sm: SourceMap<M>, alg: Algebra<M>, name: string, ctx: BfcContext<M>, i: nat, st: PartState)
    : Result<PartState, Panic>
    requires sm.Ranked() && name in sm.files && i < |sm.files[name].cmds|
    decreases sm.Measure(name), 0
  {
    var cmd := sm.files[name].cmds[i];
    if cmd.SubFileRef? then
      match PartModel(sm, alg, cmd.file, BfcChild(alg, ctx, cmd, st.invertNext))
      case Err(e) => Err(e)
      case Ok(o) => Ok(st.(invertNext := false, out := Then(st.out, o)))
    else LeafStep(alg, ctx, name, cmd, st)
  }

  /** One iteration of the loop on any command other than a sub-file
      reference. */
  function LeafStep<M>(alg: Algebra<M>, ctx: BfcContext<M>, name: string, cmd: Command<M>, st: PartState)
    : (r: Result<PartState, Panic>)
    requires !cmd.SubFileRef?
    ensures (cmd.Triangle? || cmd.Quad?) && st.invertNext ==> r == Err(PendingInvert(name))
    ensures r.Err? ==> ((cmd.Triangle? || cmd.Quad?) && st.invertNext)
                       || (cmd.Comment? && ClassifyComment(cmd.text) == BadCertify)
    ensures cmd.Comment? && ClassifyComment(cmd.text) == BadCertify ==> r == Err(UnknownCertify(cmd.text))
    ensures r.Ok? ==> r.value.out.lines == st.out.lines + (if cmd.Line? then [Project(alg, ctx.transform, cmd.segment)] else [])
    ensures r.Ok? ==>
              r.value.out.optLines == st.out.optLines
              + (if cmd.OptLine? then [(Project(alg, ctx.transform, cmd.segment), Project(alg, ctx.transform, cmd.controlPoints))]
                 else [])
    ensures r.Ok? ==>
              r.value.out.triangles == st.out.triangles
              + (if cmd.Triangle? then [Orient(Effective(st.winding, StartInverted(alg, ctx)), Project(alg, ctx.transform, cmd.triangle))]
                 else if cmd.Quad? then SplitQuad(Effective(st.winding, StartInverted(alg, ctx)), Project(alg, ctx.transform, cmd.quad))
                 else [])
    ensures r.Ok? ==> r.value.invertNext == (IsInvertMarker(cmd) || st.invertNext)
    ensures r.Ok? ==> r.value.winding == (if IsCertify(cmd) then ClassifyComment(cmd.text).winding else st.winding)
  {
    var eff := Effective(st.winding, StartInverted(alg, ctx));
    var out := st.out;
    match cmd
    case Comment(text) =>
      (match ClassifyComment(text)
       case SetWinding(w) => Ok(st.(winding := w))
       case BadCertify => Err(UnknownCertify(text))
       case SetInvertNext => Ok(st.(invertNext := true))
       case NoEffect => Ok(st))
    case Line(segment) =>
      Ok(st.(out := out.(lines := out.lines + [Project(alg, ctx.transform, segment)])))
    case OptLine(segment, controlPoints) =>
      Ok(st.(out := out.(optLines := out.optLines
                          + [(Project(alg, ctx.transform, segment), Project(alg, ctx.transform, controlPoints))])))
    case Triangle(vs, _) =>
      if st.invertNext then Err(PendingInvert(name))
      else Ok(st.(out := out.(triangles := out.triangles + [Orient(eff, Project(alg, ctx.transform, vs))])))
    case Quad(vs, _) =>
      if st.invertNext then Err(PendingInvert(name))
      else Ok(st.(out := out.(triangles := out.triangles + SplitQuad(eff, Project(alg, ctx.transform, vs)))))
    case _ => Ok(st)
  }

  /** One step of the loop on a command other than a reference. */
  lemma PartStepLeaf<M>(sm: SourceMap<M>, alg: Algebra<M>, name: string, ctx: BfcContext<M>, i: nat, st: PartState)
    requires sm.Ranked() && name in sm.files && i < |sm.files[name].cmds|
    requires PartPrefix(sm, alg, name, ctx, i) == Ok(st) && !sm.files[name].cmds[i].SubFileRef?
    ensures PartPrefix(sm, alg, name, ctx, i + 1) == LeafStep(alg, ctx, name, sm.files[name].cmds[i], st)
  {
  }

  /** One step of the loop on a reference whose traversal succeeds. */
  lemma PartStepRef<M>(sm: SourceMap<M>, alg: Algebra<M>, name: string, ctx: BfcContext<M>, i: nat, st: PartState)
    requires sm.Ranked() && name in sm.files && i < |sm.files[name].cmds|
    requires PartPrefix(sm, alg, name, ctx, i) == Ok(st) && sm.files[name].cmds[i].SubFileRef?
    requires PartModel(sm, alg, sm.files[name].cmds[i].file, BfcChild(alg, ctx, sm.files[name].cmds[i], st.invertNext)).Ok?
    ensures PartPrefix(sm, alg, name, ctx, i + 1)
            == Ok(st.(invertNext := false,
                      out := Then(st.out, PartModel(sm, alg, sm.files[name].cmds[i].file,
                                                    BfcChild(alg, ctx, sm.files[name].cmds[i], st.invertNext)).value)))
  {
  }

  /** One step of the loop on a reference whose traversal panics. */
  lemma PartStepRefPanics<M>(sm: SourceMap<M>, alg: Algebra<M>, name: string, ctx: BfcContext<M>, i: nat, st: PartState)
    requires sm.Ranked() && name in sm.files && i < |sm.files[name].cmds|
    requires PartPrefix(sm, alg, name, ctx, i) == Ok(st) && sm.files[name].cmds[i].SubFileRef?
    requires PartModel(sm, alg, sm.files[name].cmds[i].file, BfcChild(alg, ctx, sm.files[name].cmds[i], st.invertNext)).Err?
    ensures PartModel(sm, alg, name, ctx)
            == Err(PartModel(sm, alg, sm.files[name].cmds[i].file, BfcChild(alg, ctx, sm.files[name].cmds[i], st.invertNext)).error)
  {
    PartPanicSticks(sm, alg, name, ctx, i + 1, |sm.files[name].cmds|);
  }

  /** One step of the loop on a command that panics. */
  lemma PartStepLeafPanics<M>(sm: SourceMap<M>, alg: Algebra<M>, name: string, ctx: BfcContext<M>, i: nat, st: PartState)
    requires sm.Ranked() && name in sm.files && i < |sm.files[name].cmds|
    requires PartPrefix(sm, alg, name, ctx, i) == Ok(st) && !sm.files[name].cmds[i].SubFileRef?
    requires LeafStep(alg, ctx, name, sm.files[name].cmds[i], st).Err?
    ensures PartModel(sm, alg, name, ctx) == Err(LeafStep(alg, ctx, name, sm.files[name].cmds[i], st).error)
  {
    PartPanicSticks(sm, alg, name, ctx, i + 1, |sm.files[name].cmds|);
  }

  /** Once a prefix panics, the whole traversal raises that panic. */
  lemma {:induction false} PartPanicSticks<M>(sm: SourceMap<M>, alg: Algebra<M>, name: string, ctx: BfcContext<M>,
                                              j: nat, k: nat)
    requires sm.Ranked() && name in sm.files && j <= k <= |sm.files[name].cmds|
    requires PartPrefix(sm, alg, name, ctx, j).Err?
    ensures PartPrefix(sm, alg, name, ctx, k) == PartPrefix(sm, alg, name, ctx, j)
    decreases k
  {
    if j < k {
      PartPanicSticks(sm, alg, name, ctx, j, k - 1);
    }
  }

  /** A comment that arms `invert_next`. */
  predicate IsInvertMarker<M>(cmd: Command<M>) {
    cmd.Comment? && ClassifyComment(cmd.text) == SetInvertNext
  }

  /** A comment that sets the winding. */
  predicate IsCertify<M>(cmd: Command<M>) {
    cmd.Comment? && ClassifyComment(cmd.text).SetWinding?
  }

  /** How one successful step changes `invert_next` and the winding. */
  lemma PartStepFlags<M>(sm: SourceMap<M>, alg: Algebra<M>, name: string, ctx: BfcContext<M>, k: nat)
    requires sm.Ranked() && name in sm.files && 0 < k <= |sm.files[name].cmds|
    requires PartPrefix(sm, alg, name, ctx, k).Ok?
    ensures PartPrefix(sm, alg, name, ctx, k - 1).Ok?
    ensures var cmd := sm.files[name].cmds[k - 1];
            var before := PartPrefix(sm, alg, name, ctx, k - 1).value;
            var after := PartPrefix(sm, alg, name, ctx, k).value;
            (after.invertNext <==> IsInvertMarker(cmd) || (before.invertNext && !cmd.SubFileRef?))
            && after.winding == (if IsCertify(cmd) then ClassifyComment(cmd.text).winding else before.winding)
  {
    var cmd := sm.files[name].cmds[k - 1];
    var before := PartPrefix(sm, alg, name, ctx, k - 1).value;
    if !cmd.SubFileRef? {
      PartStepLeaf(sm, alg, name, ctx, k - 1, before);
    }
  }

  /** `invert_next` is set exactly when some `BFC INVERTNEXT` comment has
      been seen with no sub-file reference after it. */
  lemma {:induction false} InvertNextMeaning<M>(sm: SourceMap<M>, alg: Algebra<M>, name: string, ctx: BfcContext<M>, k: nat)
    requires sm.Ranked() && name in sm.files && k <= |sm.files[name].cmds|
    requires PartPrefix(sm, alg, name, ctx, k).Ok?
    ensures var cmds := sm.files[name].cmds;
            PartPrefix(sm, alg, name, ctx, k).value.invertNext <==>
              exists j :: 0 <= j < k && IsInvertMarker(cmds[j]) && forall l :: j < l < k ==> !cmds[l].SubFileRef?
    decreases k
  {
    var cmds := sm.files[name].cmds;
    if k > 0 {
      PartStepFlags(sm, alg, name, ctx, k);
      InvertNextMeaning(sm, alg, name, ctx, k - 1);
      var cmd := cmds[k - 1];
      if PartPrefix(sm, alg, name, ctx, k).value.invertNext {
        if !IsInvertMarker(cmd) {
          var j :| 0 <= j < k - 1 && IsInvertMarker(cmds[j]) && forall l :: j < l < k - 1 ==> !cmds[l].SubFileRef?;
          assert forall l :: j < l < k ==> !cmds[l].SubFileRef?;
        }
      } else {
        forall j | 0 <= j < k && IsInvertMarker(cmds[j])
          ensures exists l :: j < l < k && cmds[l].SubFileRef?
        {
          if j < k - 1 && !cmd.SubFileRef? {
            var l :| j < l < k - 1 && cmds[l].SubFileRef?;
          }
        }
      }
    }
  }

  /** The winding is CW exactly when the last `BFC CERTIFY` comment seen was
      `BFC CERTIFY CW` (it starts as CCW). */
  lemma {:induction false} WindingMeaning<M>(sm: SourceMap<M>, alg: Algebra<M>, name: string, ctx: BfcContext<M>, k: nat)
    requires sm.Ranked() && name in sm.files && k <= |sm.files[name].cmds|
    requires PartPrefix(sm, alg, name, ctx, k).Ok?
    ensures var cmds := sm.files[name].cmds;
            PartPrefix(sm, alg, name, ctx, k).value.winding == Cw <==>
              exists j :: 0 <= j < k && cmds[j] == Comment(CERTIFY_CW) && forall l :: j < l < k ==> !IsCertify(cmds[l])
    decreases k
  {
    var cmds := sm.files[name].cmds;
    if k > 0 {
      PartStepFlags(sm, alg, name, ctx, k);
      WindingMeaning(sm, alg, name, ctx, k - 1);
      var cmd := cmds[k - 1];
      if cmd.Comment? {
        assert cmd == Comment(cmd.text);
      }
      if PartPrefix(sm, alg, name, ctx, k).value.winding == Cw {
        if cmd != Comment(CERTIFY_CW) {
          var j :| 0 <= j < k - 1 && cmds[j] == Comment(CERTIFY_CW) && forall l :: j < l < k - 1 ==> !IsCertify(cmds[l]);
          assert forall l :: j < l < k ==> !IsCertify(cmds[l]);
        }
      } else {
        forall j | 0 <= j < k && cmds[j] == Comment(CERTIFY_CW)
          ensures exists l :: j < l < k && IsCertify(cmds[l])
        {
          if j < k - 1 && !IsCertify(cmd) {
            var l :| j < l < k - 1 && IsCertify(cmds[l]);
          }
          if j == k - 1 {
            assert false;
          }
        }
      }
    }
  }

  /** A part's colour has no effect on its geometry (the viewers colour a
      whole part at once). */
  lemma {:induction false} PartColorIrrelevant<M>(sm: SourceMap<M>, alg: Algebra<M>, name: string, ctx: BfcContext<M>,
                                                 color: ColorCode)
    requires sm.Ranked()
    ensures PartModel(sm, alg, name, ctx) == PartModel(sm, alg, name, ctx.(color := color))
    decreases sm.Measure(name), sm.Length(name) + 1
  {
    if name in sm.files {
      PartPrefixColorIrrelevant(sm, alg, name, ctx, color, |sm.files[name].cmds|);
    }
  }

  lemma {:induction false} PartPrefixColorIrrelevant<M>(sm: SourceMap<M>, alg: Algebra<M>, name: string,
                                                       ctx: BfcContext<M>, color: ColorCode, k: nat)
    requires sm.Ranked() && name in sm.files && k <= |sm.files[name].cmds|
    ensures PartPrefix(sm, alg, name, ctx, k) == PartPrefix(sm, alg, name, ctx.(color := color), k)
    decreases sm.Measure(name), k
  {
    if k > 0 {
      PartPrefixColorIrrelevant(sm, alg, name, ctx, color, k - 1);
      var cmd := sm.files[name].cmds[k - 1];
      var prev := PartPrefix(sm, alg, name, ctx, k - 1);
      if prev.Ok? && cmd.SubFileRef? {
        var child := BfcChild(alg, ctx, cmd, prev.value.invertNext);
        var child' := BfcChild(alg, ctx.(color := color), cmd, prev.value.invertNext);
        PartColorIrrelevant(sm, alg, cmd.file, child, child'.color);
        assert child.(color := child'.color) == child';
      }
    }
  }

  // ---------------------------------------------------------------------
  // Inversion along a chain of references.

  /** The context reached by following a chain of references from `ctx`,
      each with its `invert_next` flag. */
  function Descend<M>(alg: Algebra<M>, ctx: BfcContext<M>, refs: seq<Command<M>>, flags: seq<bool>): BfcContext<M>
    requires |refs| == |flags| && forall i :: 0 <= i < |refs| ==> refs[i].SubFileRef?
    decreases |refs|
  {
    if |refs| == 0 then ctx
    else BfcChild(alg, Descend(alg, ctx, refs[..|refs| - 1], flags[..|flags| - 1]), refs[|refs| - 1], flags[|flags| - 1])
  }

  /** Number of `true` values. */
  function CountTrue(bs: seq<bool>): nat
    decreases |bs|
  {
    if |bs| == 0 then 0 else CountTrue(bs[..|bs| - 1]) + (if bs[|bs| - 1] then 1 else 0)
  }

  /** Number of mirroring matrices among the chain's references. */
  function CountMirrors<M>(alg: Algebra<M>, refs: seq<Command<M>>): nat
    requires forall i :: 0 <= i < |refs| ==> refs[i].SubFileRef?
    decreases |refs|
  {
    if |refs| == 0 then 0
    else CountMirrors(alg, refs[..|refs| - 1]) + (if alg.detNegative(refs[|refs| - 1].matrix) then 1 else 0)
  }

  /** When the sign of the determinant is multiplicative, a part reached
      along a chain of references is drawn mirrored (its `current_inverted`
      is set) exactly when the root is, flipped once for every
      `BFC INVERTNEXT` and once for every mirroring matrix on the way: an
      even number of inversions cancels out. */
  lemma {:induction false} DescendInverted<M(!new)>(alg: Algebra<M>, ctx: BfcContext<M>, refs: seq<Command<M>>, flags: seq<bool>)
    requires SignMultiplicative(alg)
    requires |refs| == |flags| && forall i :: 0 <= i < |refs| ==> refs[i].SubFileRef?
    ensures StartInverted(alg, Descend(alg, ctx, refs, flags))
            == (StartInverted(alg, ctx) != ((CountTrue(flags) + CountMirrors(alg, refs)) % 2 == 1))
    decreases |refs|
  {
    if |refs| > 0 {
      var n := |refs|;
      DescendInverted(alg, ctx, refs[..n - 1], flags[..n - 1]);
      var parent := Descend(alg, ctx, refs[..n - 1], flags[..n - 1]);
      assert alg.detNegative(alg.compose(parent.transform, refs[n - 1].matrix))
             == (alg.detNegative(parent.transform) != alg.detNegative(refs[n - 1].matrix));
    }
  }

  // ---------------------------------------------------------------------
  // The design traversal, as a specification.

  /** `Part`: a placed part, with its file name, colour and transform
      (`bevy_from_weldr_mat` only changes the matrix type). */
  datatype Part<M> = Part(id: string, color: ColorCode, transform: M)

  const DAT := ".dat"

  /** Everything `traverse_design(model_name, ctx)` appends, or its panic. */
  function DesignModel<M>(sm: SourceMap<M>, alg: Algebra<M>, name: string, ctx: BfcContext<M>): Result<seq<Part<M>>, Panic>
    requires sm.Ranked()
    decreases sm.Measure(name), sm.Length(name) + 1
  {
    if name !in sm.files then Err(MissingModel(name))
    else DesignPrefix(sm, alg, name, ctx, |sm.files[name].cmds|)
  }

  function DesignPrefix<M>(sm: SourceMap<M>, alg: Algebra<M>, name: string, ctx: BfcContext<M>, k: nat)
    : Result<seq<Part<M>>, Panic>
    requires sm.Ranked() && name in sm.files && k <= |sm.files[name].cmds|
    decreases sm.Measure(name), k
  {
    if k == 0 then Ok([])
    else
      match DesignPrefix(sm, alg, name, ctx, k - 1)
      case Err(e) => Err(e)
      case Ok(out) =>
        match DesignCommand(sm, alg, name, ctx, k - 1)
        case Err(e) => Err(e)
        case Ok(parts) => Ok(out + parts)
  }

  /** A `.dat` reference is a part, placed with the child context's
      transform and colour; any other reference is a sub-model, traversed;
      geometry directly in a design panics. */
  function DesignCommand<M>(sm: SourceMap<M>, alg: Algebra<M>, name: string, ctx: BfcContext<M>, i: nat)
    : Result<seq<Part<M>>, Panic>
    requires sm.Ranked() && name in sm.files && i < |sm.files[name].cmds|
    decreases sm.Measure(name), 0
  {
    var cmd := sm.files[name].cmds[i];
    match cmd
    case SubFileRef(file, color, _) =>
      var child := BfcChild(alg, ctx, cmd, false);
      if EndsWith(file, DAT) then Ok([Part(file, NewColor(child.color, color), child.transform)])
      else DesignModel(sm, alg, file, child)
    case Line(_) => Err(LineInDesign(name))
    case OptLine(_, _) => Err(LineInDesign(name))
    case Triangle(_, _) => Err(PolygonInDesign(name))
    case Quad(_, _) => Err(PolygonInDesign(name))
    case _ => Ok([])
  }

  lemma {:induction false} DesignPanicSticks<M>(sm: SourceMap<M>, alg: Algebra<M>, name: string, ctx: BfcContext<M>,
                                                j: nat, k: nat)
    requires sm.Ranked() && name in sm.files && j <= k <= |sm.files[name].cmds|
    requires DesignPrefix(sm, alg, name, ctx, j).Err?
    ensures DesignPrefix(sm, alg, name, ctx, k) == DesignPrefix(sm, alg, name, ctx, j)
    decreases k
  {
    if j < k {
      DesignPanicSticks(sm, alg, name, ctx, j, k - 1);
    }
  }

  /** The colour codes on the way to each part `DesignModel` places, in
      output order: the codes of the sub-model references passed through,
      outermost first, then the code of the `.dat` reference itself. */
  function DesignColorPaths<M>(sm: SourceMap<M>, name: string): seq<seq<ColorCode>>
    requires sm.Ranked()
    decreases sm.Measure(name), sm.Length(name) + 1
  {
    if name !in sm.files then [] else DesignColorPathsPrefix(sm, name, |sm.files[name].cmds|)
  }

  function DesignColorPathsPrefix<M>(sm: SourceMap<M>, name: string, k: nat): seq<seq<ColorCode>>
    requires sm.Ranked() && name in sm.files && k <= |sm.files[name].cmds|
    decreases sm.Measure(name), k
  {
    if k == 0 then [] else DesignColorPathsPrefix(sm, name, k - 1) + DesignColorPathsCommand(sm, name, k - 1)
  }

  function DesignColorPathsCommand<M>(sm: SourceMap<M>, name: string, i: nat): seq<seq<ColorCode>>
    requires sm.Ranked() && name in sm.files && i < |sm.files[name].cmds|
    decreases sm.Measure(name), 0
  {
    match sm.files[name].cmds[i]
    case SubFileRef(file, color, _) =>
      if EndsWith(file, DAT) then [[color]] else Below(color, DesignColorPaths(sm, file))
    case _ => []
  }

  /** Every placed part is a `.dat` file, part `j` was reached along
      `paths[j]`, and its colour is what that path resolves to from `root`. */
  ghost predicate PartsWellFormed<M>(parts: seq<Part<M>>, paths: seq<seq<ColorCode>>, root: ColorCode) {
    |parts| == |paths| &&
    forall j :: 0 <= j < |parts| ==>
      EndsWith(parts[j].id, DAT) && |paths[j]| > 0 && parts[j].color == Inherit(root, paths[j])
  }

  lemma PartsWellFormedAppend<M>(a: seq<Part<M>>, pa: seq<seq<ColorCode>>, b: seq<Part<M>>, pb: seq<seq<ColorCode>>,
                                 root: ColorCode)
    requires PartsWellFormed(a, pa, root) && PartsWellFormed(b, pb, root)
    ensures PartsWellFormed(a + b, pa + pb, root)
  {
    forall j | 0 <= j < |a + b|
      ensures EndsWith((a + b)[j].id, DAT) && |(pa + pb)[j]| > 0 && (a + b)[j].color == Inherit(root, (pa + pb)[j])
    {
      if j >= |a| {
        assert (a + b)[j] == b[j - |a|] && (pa + pb)[j] == pb[j - |a|];
      }
    }
  }

  lemma PartsWellFormedBelow<M>(parts: seq<Part<M>>, paths: seq<seq<ColorCode>>, root: ColorCode, c: ColorCode)
    requires PartsWellFormed(parts, paths, NewColor(root, c))
    ensures PartsWellFormed(parts, Below(c, paths), root)
  {
    forall j | 0 <= j < |parts| ensures parts[j].color == Inherit(root, Below(c, paths)[j]) {
      InheritCons(root, c, paths[j]);
    }
  }

  /** Every placed part is a `.dat` file, and its colour is its colour path
      resolved from the starting context's colour. */
  lemma {:induction false} DesignParts<M>(sm: SourceMap<M>, alg: Algebra<M>, name: string, ctx: BfcContext<M>)
    requires sm.Ranked()
    requires DesignModel(sm, alg, name, ctx).Ok?
    ensures PartsWellFormed(DesignModel(sm, alg, name, ctx).value, DesignColorPaths(sm, name), ctx.color)
    decreases sm.Measure(name), sm.Length(name) + 1
  {
    DesignPrefixParts(sm, alg, name, ctx, |sm.files[name].cmds|);
  }

  lemma {:induction false} DesignPrefixParts<M>(sm: SourceMap<M>, alg: Algebra<M>, name: string, ctx: BfcContext<M>, k: nat)
    requires sm.Ranked() && name in sm.files && k <= |sm.files[name].cmds|
    requires DesignPrefix(sm, alg, name, ctx, k).Ok?
    ensures PartsWellFormed(DesignPrefix(sm, alg, name, ctx, k).value, DesignColorPathsPrefix(sm, name, k), ctx.color)
    decreases sm.Measure(name), k
  {
    if k > 0 {
      DesignPrefixParts(sm, alg, name, ctx, k - 1);
      var parts := DesignCommand(sm, alg, name, ctx, k - 1).value;
      var paths := DesignColorPathsCommand(sm, name, k - 1);
      var cmd := sm.files[name].cmds[k - 1];
      if cmd.SubFileRef? {
        if EndsWith(cmd.file, DAT) {
          NewColorIdempotent(ctx.color, cmd.color);
          assert [cmd.color][..0] == [];
        } else {
          DesignParts(sm, alg, cmd.file, BfcChild(alg, ctx, cmd, false));
          PartsWellFormedBelow(parts, DesignColorPaths(sm, cmd.file), ctx.color, cmd.color);
        }
      }
      PartsWellFormedAppend(DesignPrefix(sm, alg, name, ctx, k - 1).value, DesignColorPathsPrefix(sm, name, k - 1),
                            parts, paths, ctx.color);
    }
  }

  /** The colour rule for placed parts: a part's colour is the innermost
      code on its path that is not 16, the `.dat` reference's own code
      included; it is 16 only when the starting colour and every code on
      the path are 16. */
  lemma DesignColorIsInnermost<M>(sm: SourceMap<M>, alg: Algebra<M>, name: string, ctx: BfcContext<M>, j: nat)
    requires sm.Ranked()
    requires DesignModel(sm, alg, name, ctx).Ok? && j < |DesignModel(sm, alg, name, ctx).value|
    ensures j < |DesignColorPaths(sm, name)| && |DesignColorPaths(sm, name)[j]| > 0
    ensures var c := DesignModel(sm, alg, name, ctx).value[j].color;
            var path := DesignColorPaths(sm, name)[j];
            (c == CURRENT_COLOR <==> ctx.color == CURRENT_COLOR && forall i :: 0 <= i < |path| ==> path[i] == CURRENT_COLOR)
            && ((forall i :: 0 <= i < |path| ==> path[i] == CURRENT_COLOR) ==> c == ctx.color)
            && (forall i :: (0 <= i < |path| && path[i] != CURRENT_COLOR
                             && (forall l :: i < l < |path| ==> path[l] == CURRENT_COLOR)) ==> c == path[i])
  {
    DesignParts(sm, alg, name, ctx);
    InheritIsInnermost(ctx.color, DesignColorPaths(sm, name)[j]);
  }

  /** A part placed directly by a reference of `name` gets the reference's
      colour resolved once against the context: applying `new_color` a
      second time to the child's colour changes nothing. */
  lemma DesignPartColor<M>(sm: SourceMap<M>, alg: Algebra<M>, name: string, ctx: BfcContext<M>, i: nat)
    requires sm.Ranked() && name in sm.files && i < |sm.files[name].cmds|
    requires sm.files[name].cmds[i].SubFileRef? && EndsWith(sm.files[name].cmds[i].file, DAT)
    ensures var cmd := sm.files[name].cmds[i];
            DesignCommand(sm, alg, name, ctx, i)
              == Ok([Part(cmd.file, NewColor(ctx.color, cmd.color), alg.compose(ctx.transform, cmd.matrix))])
  {
    var cmd := sm.files[name].cmds[i];
    NewColorIdempotent(ctx.color, cmd.color);
  }

  /** The panics of a design traversal: a missing model, or geometry placed
      directly in a design. */
  lemma {:induction false} DesignPanics<M>(sm: SourceMap<M>, alg: Algebra<M>, name: string, ctx: BfcContext<M>)
    requires sm.Ranked()
    ensures DesignModel(sm, alg, name, ctx).Err? ==>
              var e := DesignModel(sm, alg, name, ctx).error;
              (e.MissingModel? && e.name !in sm.files) || (e.LineInDesign? && e.model in sm.files)
              || (e.PolygonInDesign? && e.model in sm.files)
    decreases sm.Measure(name), sm.Length(name) + 1
  {
    if name in sm.files {
      DesignPrefixPanics(sm, alg, name, ctx, |sm.files[name].cmds|);
    }
  }

  lemma {:induction false} DesignPrefixPanics<M>(sm: SourceMap<M>, alg: Algebra<M>, name: string, ctx: BfcContext<M>, k: nat)
    requires sm.Ranked() && name in sm.files && k <= |sm.files[name].cmds|
    ensures DesignPrefix(sm, alg, name, ctx, k).Err? ==>
              var e := DesignPrefix(sm, alg, name, ctx, k).error;
              (e.MissingModel? && e.name !in sm.files) || (e.LineInDesign? && e.model in sm.files)
              || (e.PolygonInDesign? && e.model in sm.files)
    decreases sm.Measure(name), k
  {
    if k > 0 {
      DesignPrefixPanics(sm, alg, name, ctx, k - 1);
      var cmd := sm.files[name].cmds[k - 1];
      if cmd.SubFileRef? && !EndsWith(cmd.file, DAT) {
        DesignPanics(sm, alg, cmd.file, BfcChild(alg, ctx, cmd, false));
      }
    }
  }
}
