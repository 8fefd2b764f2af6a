/** LDraw colour codes and the "current colour" inheritance rule
    (src/ldr.rs). */
module Colors {

  /** `ColorCode = u32` */
  type ColorCode = c: int | 0 <= c < 0x1_0000_0000

  /** Code 16 stands for "the colour of the referencing context". */
  const CURRENT_COLOR: ColorCode := 16

  /** `new_color(current, new)`: a requested code of 16 inherits `current`,
      any other code replaces it. */
  function NewColor(current: ColorCode, requested: ColorCode): (r: ColorCode)
    ensures r == CURRENT_COLOR <==> current == CURRENT_COLOR && requested == CURRENT_COLOR
    ensures requested != CURRENT_COLOR ==> r == requested
    ensures requested == CURRENT_COLOR ==> r == current
  {
    if requested == CURRENT_COLOR then current else requested
  }

  /** Resolving the same request twice changes nothing more. */
  lemma NewColorIdempotent(current: ColorCode, requested: ColorCode)
    ensures NewColor(NewColor(current, requested), requested) == NewColor(current, requested)
  {
  }

  /** Resolution composes: resolving `a` against `b` and then against `c`
      is resolving `a` against the resolution of `b` against `c`. */
  lemma NewColorAssociative(a: ColorCode, b: ColorCode, c: ColorCode)
    ensures NewColor(NewColor(a, b), c) == NewColor(a, NewColor(b, c))
  {
  }

  /** The colour in force after descending through references whose codes
      are `path` (outermost first), starting from `root`. */
  function Inherit(root: ColorCode, path: seq<ColorCode>): ColorCode
    decreases |path|
  {
    if |path| == 0 then root else NewColor(Inherit(root, path[..|path| - 1]), path[|path| - 1])
  }

  /** The inherited colour is the innermost code on the path that is not
      16; it is `root` when every code is 16, and it is 16 exactly when the
      root and every code on the path are 16. */
  lemma {:induction false} InheritIsInnermost(root: ColorCode, path: seq<ColorCode>)
    ensures Inherit(root, path) == CURRENT_COLOR
            <==> root == CURRENT_COLOR && forall i :: 0 <= i < |path| ==> path[i] == CURRENT_COLOR
    ensures (forall i :: 0 <= i < |path| ==> path[i] == CURRENT_COLOR) ==> Inherit(root, path) == root
    ensures forall j :: 0 <= j < |path| && path[j] != CURRENT_COLOR
                        && (forall k :: j < k < |path| ==> path[k] == CURRENT_COLOR)
                        ==> Inherit(root, path) == path[j]
    decreases |path|
  {
    if |path| > 0 {
      var init := path[..|path| - 1];
      InheritIsInnermost(root, init);
      assert forall i :: 0 <= i < |init| ==> init[i] == path[i];
    }
  }

  /** Descending first through a reference of code `c` and then along
      `path` is descending along `path` from the colour `c` resolves to. */
  lemma {:induction false} InheritCons(root: ColorCode, c: ColorCode, path: seq<ColorCode>)
    ensures Inherit(root, [c] + path) == Inherit(NewColor(root, c), path)
    decreases |path|
  {
    if |path| > 0 {
      var n := |path|;
      assert ([c] + path)[..n] == [c] + path[..n - 1];
      InheritCons(root, c, path[..n - 1]);
    } else {
      assert [c] + path == [c];
    }
  }

  /** Every path of `paths` with the code `c` put in front. */
  function Below(c: ColorCode, paths: seq<seq<ColorCode>>): (r: seq<seq<ColorCode>>)
    ensures |r| == |paths| && forall i :: 0 <= i < |paths| ==> r[i] == [c] + paths[i]
  {
    seq(|paths|, i requires 0 <= i < |paths| => [c] + paths[i])
  }
}
