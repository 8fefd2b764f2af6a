/** The parsed LDraw command tree the traversals walk (the `weldr` crate's
    `Command` and `SourceMap`), and the panics the traversals can raise. */
module Ldraw {
  import opened Wrappers
  import opened Colors
  import opened Geometry

  type u8 = n: int | 0 <= n < 256

  /** `weldr::Color` */
  datatype Rgb = Rgb(red: u8, green: u8, blue: u8)

  /** `weldr::ColourCmd` (a `!COLOUR` meta-command). */
  datatype ColourCmd = ColourCmd(name: string, code: ColorCode, value: Rgb, alpha: Option<u8>)

  /** `weldr::Command`: line types 0 (comment), 1 (sub-file reference),
      2 (line), 3 (triangle), 4 (quad) and 5 (optional line); `Colour` for
      `!COLOUR` entries and `Other` for everything else. `M` is the
      transform type. */
  datatype Command<M> =
    | Comment(text: string)
    | SubFileRef(file: string, color: ColorCode, matrix: M)
    | Line(segment: Pair)
    | OptLine(segment: Pair, controlPoints: Pair)
    | Triangle(triangle: Triple, color: ColorCode)
    | Quad(quad: Quadruple, color: ColorCode)
    | Colour(colour: ColourCmd)
    | Other

  /** One model: its commands in document order. */
  datatype SourceFile<M> = SourceFile(cmds: seq<Command<M>>)

  /** `weldr::SourceMap`: models by name. `rank` is not part of the source:
      it witnesses that the reference graph is acyclic, so the recursive
      traversals terminate. */
  datatype SourceMap<M> = SourceMap(files: map<string, SourceFile<M>>, rank: map<string, nat>) {

    /** Every model has a rank, and every reference to a present model goes
        to a model of lower rank. */
    predicate Ranked() {
      forall n :: n in files ==>
        n in rank &&
        forall i :: 0 <= i < |files[n].cmds| && files[n].cmds[i].SubFileRef? && files[n].cmds[i].file in files ==>
          files[n].cmds[i].file in rank && rank[files[n].cmds[i].file] < rank[n]
    }

    /** Termination measure: 0 for an absent model, else its rank plus one. */
    function Measure(name: string): nat {
      if name in files && name in rank then rank[name] + 1 else 0
    }

    /** Number of commands of a model (0 when absent). */
    function Length(name: string): nat {
      if name in files then |files[name].cmds| else 0
    }
  }

  /** The panics the traversals raise. */
  datatype Panic =
    | MissingModel(name: string)        // `panic!("{model_name}")` on a failed lookup
    | UnknownCertify(text: string)      // a `BFC CERTIFY` comment other than CCW or CW
    | PendingInvert(model: string)      // `assert!(!invert_next)` at a triangle or quad
    | LineInDesign(model: string)       // `panic!("line in {model_name}")`
    | PolygonInDesign(model: string)    // `panic!("polygon in {model_name}")`
}
