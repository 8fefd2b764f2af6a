/** The attribute codecs of the PDF binary's copy of the instruction format
    (src/instruction/helpers.rs). They differ from the ins_xml crate's in
    three ways: `separated` reports a wrong count as `None`, `Arr4Space` and
    `Vec2Space` write plain `Display` text instead of `spaces`, and there are
    no optional or list codecs. Colours and capitalised booleans behave as in
    `InsXml`, which is proved below or reused. */
module Instruction {
  import opened Wrappers
  import opened Text
  import opened InsXml

  /** What `separated::<N>(s, sep)` returns here: the pieces when there are
      exactly `n` of them, otherwise `None`. */
  function Pieces(s: string, sep: char, n: nat): (r: Option<seq<string>>)
    ensures r.Some? <==> |Split(s, sep)| == n
    ensures r.Some? ==> r.value == Split(s, sep)
  {
    var pieces := Split(s, sep);
    if |pieces| == n then Some(pieces) else None
  }

  /** The two `separated` functions accept the same texts and return the
      same pieces. */
  lemma PiecesAgree(s: string, sep: char, n: nat)
    ensures Pieces(s, sep, n).Some? <==> SplitExactly(s, sep, n).Ok?
    ensures Pieces(s, sep, n).Some? ==> Pieces(s, sep, n).value == SplitExactly(s, sep, n).value
  {
  }

  /** `separated::<N>(s, sep)`: the array is filled from the split
      iterator; running out, or one piece too many, is `None`. */
  method SeparatedOption(s: string, sep: char, n: nat) returns (r: Option<seq<string>>)
    ensures r == Pieces(s, sep, n)
  {
    var pieces := Split(s, sep);
    var next := 0;
    var arr := seq(n, _ => "");
    for i := 0 to n
      invariant next == i <= |pieces| && |arr| == n
      invariant forall k :: 0 <= k < i ==> arr[k] == pieces[k]
    {
      if next >= |pieces| {
        return None;
      }
      arr := arr[i := pieces[next]];
      next := next + 1;
    }
    if next < |pieces| {
      return None;
    }
    assert arr == pieces;
    return Some(arr);
  }

  /** `Color::deserialize` of this copy: `separated` gives `None` for a
      wrong count, which becomes the same invalid-value error. */
  function ColorFromStr<F>(ff: FloatFormat<F>, v: string): (r: Result<Rgba<F>, DeError>)
    ensures r.Err? ==> r.error == InvalidValue(v, COLOR_EXPECTING)
  {
    match Pieces(v, ':', 4)
    case None => Err(InvalidValue(v, COLOR_EXPECTING))
    case Some(rgba) =>
      match ParseEach(ff, rgba)
      case Err(_) => Err(InvalidValue(v, COLOR_EXPECTING))
      case Ok(xs) => Ok(Rgba(xs[0], xs[1], xs[2], xs[3]))
  }

  /** Both colour parsers accept exactly the same texts with the same
      results, so this one also reads every serialised colour back. */
  lemma ColorParsersAgree<F(!new)>(ff: FloatFormat<F>, v: string, c: Rgba<F>)
    ensures ColorFromStr(ff, v) == InsXml.ColorFromStr(ff, v)
    ensures Faithful(ff) ==> ColorFromStr(ff, ColorToStr(ff, c)) == Ok(c)
  {
    PiecesAgree(v, ':', 4);
    if Faithful(ff) {
      ColorRoundTrip(ff, c);
      PiecesAgree(ColorToStr(ff, c), ':', 4);
    }
  }

  /** `Arr4Space` (n = 4) and `Vec2Space` (n = 2) serialisation:
      `"{x} {y} {z} {w}"` and `"{x} {y}"`. */
  function ArrToStr<F>(ff: FloatFormat<F>, xs: seq<F>): string {
    Join(Displays(ff, xs), ' ')
  }

  function Displays<F>(ff: FloatFormat<F>, xs: seq<F>): (ds: seq<string>)
    ensures |ds| == |xs| && forall i :: 0 <= i < |xs| ==> ds[i] == ff.display(xs[i])
  {
    seq(|xs|, i requires 0 <= i < |xs| => ff.display(xs[i]))
  }

  /** `Arr4Space` (n = 4) and `Vec2Space` (n = 2) deserialisation: a wrong
      piece count panics in `expect`, and the first piece that is not a
      float is the error. */
  function ArrFromStr<F>(ff: FloatFormat<F>, v: string, n: nat): (r: Result<seq<F>, DeError>)
    ensures |Split(v, ' ')| != n <==> r == Err(Panic(SEPARATED_EXPECT))
    ensures |Split(v, ' ')| == n ==> r == ParseEach(ff, Split(v, ' '))
    ensures r.Ok? ==> |r.value| == n
  {
    match Pieces(v, ' ', n)
    case None => Err(Panic(SEPARATED_EXPECT))
    case Some(pieces) => ParseEach(ff, pieces)
  }

  /** Every non-empty array, in particular every `[f32; 4]` and every
      `Vec2`, reads back as itself. */
  lemma ArrRoundTrip<F(!new)>(ff: FloatFormat<F>, xs: seq<F>)
    requires Faithful(ff) && |xs| > 0
    ensures ArrFromStr(ff, ArrToStr(ff, xs), |xs|) == Ok(xs)
  {
    var ds := Displays(ff, xs);
    forall i | 0 <= i < |ds| ensures ' ' !in ds[i] && ff.parse(ds[i]) == Some(xs[i]) {
      assert IsToken(ff.display(xs[i]), IsWhitespace) && IsWhitespace(' ');
    }
    SplitJoin(ds, ' ');
    var r := ParseEach(ff, ds);
    assert r.Ok? && r.value == xs;
  }
}
