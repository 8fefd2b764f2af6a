/** The attribute codecs of the building-instructions XML format
    (ins_xml/src/helpers.rs): fixed-arity splitting, colours, rectangles,
    space-separated float lists with compact number formatting, point
    lists, size-guide part lists, resize bars and capitalised booleans. */
module InsXml {
  import opened Wrappers
  import opened Text

  // ---------------------------------------------------------------------
  // Floats

  /** What the codecs use of `f32`: `Display` (`to_string`, `{}`), `{:E}`,
      `{:.2}` and `FromStr`. `F` is the float type. */
  datatype FloatFormat<!F> = FloatFormat(
    display: F -> string,
    scientific: F -> string,
    fixed2: F -> string,
    parse: string -> Option<F>)

  /** What Rust's float formatting guarantees and the round trips rely on:
      `Display` and the padded `{:E}` form read back exactly, `{:.2}` reads
      back as some float, every form is one token, and `Display` never
      writes a colon. (A hypothesis about the formatter, never assumed.) */
  ghost predicate Faithful<F(!new)>(ff: FloatFormat<F>) {
    DisplayFaithful(ff)
    && (forall v :: ff.parse(PadExponent(ff.scientific(v))) == Some(v) && IsToken(PadExponent(ff.scientific(v)), IsWhitespace))
    && (forall v :: ff.parse(ff.fixed2(v)).Some? && IsToken(ff.fixed2(v), IsWhitespace))
  }

  /** The part of `Faithful` about `Display` alone. */
  ghost predicate DisplayFaithful<F(!new)>(ff: FloatFormat<F>) {
    forall v :: ff.parse(ff.display(v)) == Some(v) && IsToken(ff.display(v), IsWhitespace) && ':' !in ff.display(v)
  }

  /** A deserialisation error (`serde::de::Error` / `quick_xml::DeError`),
      or a panic in the codec. */
  datatype DeError =
    | InvalidValue(unexpected: string, expected: string)   // `invalid_value(Unexpected::Str(_), &_)`
    | MissingField(field: string)                          // `missing_field(_)`
    | Panic(message: string)                               // `expect`, `assert_eq!`

  const FLOAT := "a float"

  /** `xml_float` / `de_parse`: a float, or an invalid-value error naming the
      text. */
  function XmlFloat<F>(ff: FloatFormat<F>, s: string): (r: Result<F, DeError>)
    ensures r.Ok? <==> ff.parse(s).Some?
    ensures r.Ok? ==> ff.parse(s) == Some(r.value)
    ensures r.Err? ==> r.error == InvalidValue(s, FLOAT)
  {
    match ff.parse(s)
    case Some(x) => Ok(x)
    case None => Err(InvalidValue(s, FLOAT))
  }

  /** The values of all pieces, or the error of the first that does not
      parse (`pieces.map(xml_float)` followed by `x?, y?, ...`). */
  function ParseEach<F>(ff: FloatFormat<F>, pieces: seq<string>): (r: Result<seq<F>, DeError>)
    ensures r.Ok? <==> forall i :: 0 <= i < |pieces| ==> ff.parse(pieces[i]).Some?
    ensures r.Ok? ==> |r.value| == |pieces| && forall i :: 0 <= i < |pieces| ==> ff.parse(pieces[i]) == Some(r.value[i])
    ensures r.Err? ==> exists i :: 0 <= i < |pieces| && ff.parse(pieces[i]).None? && r.error == InvalidValue(pieces[i], FLOAT)
                                   && forall j :: 0 <= j < i ==> ff.parse(pieces[j]).Some?
    decreases |pieces|
  {
    if |pieces| == 0 then Ok([])
    else
      match ff.parse(pieces[0])
      case None => Err(InvalidValue(pieces[0], FLOAT))
      case Some(x) =>
        var rest := ParseEach(ff, pieces[1..]);
        if rest.Err? then
          var i :| 0 <= i < |pieces[1..]| && ff.parse(pieces[1..][i]).None? && rest.error == InvalidValue(pieces[1..][i], FLOAT)
                   && forall j :: 0 <= j < i ==> ff.parse(pieces[1..][j]).Some?;
          assert pieces[i + 1] == pieces[1..][i];
          assert forall j :: 1 <= j < i + 1 ==> pieces[j] == pieces[1..][j - 1];
          Err(rest.error)
        else
          assert forall i :: 1 <= i < |pieces| ==> pieces[i] == pieces[1..][i - 1];
          Ok([x] + rest.value)
  }

  // ---------------------------------------------------------------------
  // separated

  /** `SeparatedError` */
  datatype SeparatedError = NotEnough | TooMany

  /** What `separated::<N>(s, sep)` returns: the pieces when `s` splits into
      exactly `n` of them, otherwise which way the count is off. */
  function SplitExactly(s: string, sep: char, n: nat): (r: Result<seq<string>, SeparatedError>)
    ensures r.Ok? <==> |Split(s, sep)| == n
    ensures r.Ok? ==> r.value == Split(s, sep)
    ensures r == Err(NotEnough) <==> |Split(s, sep)| < n
    ensures r == Err(TooMany) <==> |Split(s, sep)| > n
  {
    var pieces := Split(s, sep);
    if |pieces| < n then Err(NotEnough) else if |pieces| > n then Err(TooMany) else Ok(pieces)
  }

  /** `separated::<N>(s, sep)`: the array is filled from the split
      iterator, and one piece too many is an error. */
  method Separated(s: string, sep: char, n: nat) returns (r: Result<seq<string>, SeparatedError>)
    ensures r == SplitExactly(s, sep, n)
  {
    var pieces := Split(s, sep);
    var next := 0;
    var arr := seq(n, _ => "");
    for i := 0 to n
      invariant next == i <= |pieces| && |arr| == n
      invariant forall k :: 0 <= k < i ==> arr[k] == pieces[k]
    {
      if next >= |pieces| {
        return Err(NotEnough);
      }
      arr := arr[i := pieces[next]];
      next := next + 1;
    }
    if next < |pieces| {
      return Err(TooMany);
    }
    assert arr == pieces;
    return Ok(arr);
  }

  // ---------------------------------------------------------------------
  // Color and Rect

  /** `Color { r, g, b, a }` */
  datatype Rgba<F> = Rgba(r: F, g: F, b: F, a: F)

  const COLOR_EXPECTING := "A Color value, formatted as an r:g:b:a string with four floats"

  /** `Color::serialize`: `"{r}:{g}:{b}:{a}"` */
  function ColorToStr<F>(ff: FloatFormat<F>, c: Rgba<F>): string {
    Join([ff.display(c.r), ff.display(c.g), ff.display(c.b), ff.display(c.a)], ':')
  }

  /** `Color::deserialize`: exactly four `:`-separated floats, in the order
      r, g, b, a; anything else is one invalid-value error for the whole
      text. */
  function ColorFromStr<F>(ff: FloatFormat<F>, v: string): (r: Result<Rgba<F>, DeError>)
    ensures r.Ok? <==> |Split(v, ':')| == 4 && forall i :: 0 <= i < 4 ==> ff.parse(Split(v, ':')[i]).Some?
    ensures r.Ok? ==> var p := Split(v, ':');
                      ff.parse(p[0]) == Some(r.value.r) && ff.parse(p[1]) == Some(r.value.g)
                      && ff.parse(p[2]) == Some(r.value.b) && ff.parse(p[3]) == Some(r.value.a)
    ensures r.Err? ==> r.error == InvalidValue(v, COLOR_EXPECTING)
  {
    match SplitExactly(v, ':', 4)
    case Err(_) => Err(InvalidValue(v, COLOR_EXPECTING))
    case Ok(rgba) =>
      match ParseEach(ff, rgba)
      case Err(_) => Err(InvalidValue(v, COLOR_EXPECTING))
      case Ok(xs) => Ok(Rgba(xs[0], xs[1], xs[2], xs[3]))
  }

  /** A serialised colour reads back as itself. */
  lemma ColorRoundTrip<F(!new)>(ff: FloatFormat<F>, c: Rgba<F>)
    requires Faithful(ff)
    ensures ColorFromStr(ff, ColorToStr(ff, c)) == Ok(c)
  {
    var ps := [ff.display(c.r), ff.display(c.g), ff.display(c.b), ff.display(c.a)];
    assert FreeOf(ps, ':');
    SplitJoin(ps, ':');
  }

  /** `Rect { left, top, right, bottom }` */
  datatype Rect<F> = Rect(left: F, top: F, right: F, bottom: F)

  const RECT_EXPECTING := "A Rect value, formatted as an l t r b string with four floats"

  /** `Rect::serialize`: `spaces(&[left, top, right, bottom])` */
  function RectToStr<F>(ff: FloatFormat<F>, r: Rect<F>): string {
    SpacesOf(ff, [r.left, r.top, r.right, r.bottom])
  }

  /** `Rect::deserialize`: exactly four space-separated floats, in the order
      left, top, right, bottom. */
  function RectFromStr<F>(ff: FloatFormat<F>, v: string): (r: Result<Rect<F>, DeError>)
    ensures r.Ok? <==> |Split(v, ' ')| == 4 && forall i :: 0 <= i < 4 ==> ff.parse(Split(v, ' ')[i]).Some?
    ensures r.Ok? ==> var p := Split(v, ' ');
                      ff.parse(p[0]) == Some(r.value.left) && ff.parse(p[1]) == Some(r.value.top)
                      && ff.parse(p[2]) == Some(r.value.right) && ff.parse(p[3]) == Some(r.value.bottom)
    ensures r.Err? ==> r.error == InvalidValue(v, RECT_EXPECTING)
  {
    match SplitExactly(v, ' ', 4)
    case Err(_) => Err(InvalidValue(v, RECT_EXPECTING))
    case Ok(ltrb) =>
      match ParseEach(ff, ltrb)
      case Err(_) => Err(InvalidValue(v, RECT_EXPECTING))
      case Ok(xs) => Ok(Rect(xs[0], xs[1], xs[2], xs[3]))
  }

  /** A serialised rectangle reads back as itself. */
  lemma RectRoundTrip<F(!new)>(ff: FloatFormat<F>, r: Rect<F>)
    requires Faithful(ff)
    ensures RectFromStr(ff, RectToStr(ff, r)) == Ok(r)
  {
    SpacesSplit(ff, [r.left, r.top, r.right, r.bottom]);
  }

  // ---------------------------------------------------------------------
  // shorter and spaces

  /** `shorter(a, b)`: the shorter text, the first on a tie. */
  function Shorter(a: string, b: string): (r: string)
    ensures r == a || r == b
    ensures |r| <= |a| && |r| <= |b|
    ensures |a| <= |b| ==> r == a
  {
    if |a| <= |b| then a else b
  }

  /** The fix-up of `{:E}` output in `spaces`: when the next-to-last
      character is `-`, a `0` goes before the last one. */
  function PadExponent(s: string): (r: string)
    ensures |s| >= 2 && s[|s| - 2] == '-' ==> r == s[..|s| - 1] + "0" + [s[|s| - 1]]
    ensures !(|s| >= 2 && s[|s| - 2] == '-') ==> r == s
  {
    if |s| >= 2 && s[|s| - 2] == '-' then s[..|s| - 1] + "0" + [s[|s| - 1]] else s
  }

  /** A one-digit negative exponent gets a second digit (`E-1` becomes
      `E-01`); a two-digit one is left alone (`E-14` stays). */
  lemma PadExponentMeaning(mantissa: string, d: char, e1: char, e2: char)
    requires IsDigit(d) && IsDigit(e1) && IsDigit(e2)
    ensures PadExponent(mantissa + "E-" + [d]) == mantissa + "E-0" + [d]
    ensures PadExponent(mantissa + "E-" + [e1, e2]) == mantissa + "E-" + [e1, e2]
  {
    var s := mantissa + "E-" + [d];
    assert s[|s| - 2] == '-' && s[..|s| - 1] == mantissa + "E-";
    var t := mantissa + "E-" + [e1, e2];
    assert t[|t| - 2] == e1;
  }

  /** The text `spaces` writes for one value. */
  function FloatToken<F>(ff: FloatFormat<F>, v: F): string {
    Shorter(ff.display(v), PadExponent(ff.scientific(v)))
  }

  function FloatTokens<F>(ff: FloatFormat<F>, vs: seq<F>): (ts: seq<string>)
    ensures |ts| == |vs| && forall i :: 0 <= i < |vs| ==> ts[i] == FloatToken(ff, vs[i])
  {
    MapSeq(FloatTokenOf(ff), vs)
  }

  function FloatTokenOf<F>(ff: FloatFormat<F>): F -> string {
    (v: F) => FloatToken(ff, v)
  }

  /** `f` applied to every element. */
  function MapSeq<A, B>(f: A -> B, xs: seq<A>): (ys: seq<B>)
    ensures |ys| == |xs| && forall i :: 0 <= i < |xs| ==> ys[i] == f(xs[i])
    decreases |xs|
  {
    if |xs| == 0 then [] else [f(xs[0])] + MapSeq(f, xs[1..])
  }

  lemma {:induction false} MapSeqAppend<A, B>(f: A -> B, a: seq<A>, b: seq<A>)
    ensures MapSeq(f, a + b) == MapSeq(f, a) + MapSeq(f, b)
    decreases |a|
  {
    if |a| == 0 {
      assert a + b == b;
    } else {
      assert (a + b)[1..] == a[1..] + b;
      MapSeqAppend(f, a[1..], b);
    }
  }

  /** What `spaces(values)` returns: one token per value, separated by
      single spaces, with no space at the end (so `""` for no values). */
  function SpacesOf<F>(ff: FloatFormat<F>, values: seq<F>): string {
    Join(FloatTokens(ff, values), ' ')
  }

  /** The text of `push_str(piece); push(c)` for every piece in turn. */
  function Terminated(pieces: seq<string>, c: char): string
    decreases |pieces|
  {
    if |pieces| == 0 then "" else Terminated(pieces[..|pieces| - 1], c) + pieces[|pieces| - 1] + [c]
  }

  /** Popping the last terminator leaves the pieces joined. */
  lemma {:induction false} TerminatedJoin(pieces: seq<string>, c: char)
    requires |pieces| > 0
    ensures Terminated(pieces, c) == Join(pieces, c) + [c]
    decreases |pieces|
  {
    var init := pieces[..|pieces| - 1];
    var last := pieces[|pieces| - 1];
    if |init| > 0 {
      TerminatedJoin(init, c);
      JoinSnoc(init, last, c);
      assert init + [last] == pieces;
    }
  }

  lemma {:induction false} TerminatedAppend(a: seq<string>, b: seq<string>, c: char)
    ensures Terminated(a + b, c) == Terminated(a, c) + Terminated(b, c)
    decreases |b|
  {
    if |b| == 0 {
      assert a + b == a;
    } else {
      var b' := b[..|b| - 1];
      assert (a + b)[..|a + b| - 1] == a + b';
      TerminatedAppend(a, b', c);
    }
  }

  lemma TerminatedSnoc(pieces: seq<string>, p: string, c: char)
    ensures Terminated(pieces + [p], c) == Terminated(pieces, c) + p + [c]
  {
    assert (pieces + [p])[..|pieces|] == pieces;
  }

  lemma FloatTokensSnoc<F>(ff: FloatFormat<F>, values: seq<F>, i: nat)
    requires i < |values|
    ensures FloatTokens(ff, values[..i + 1]) == FloatTokens(ff, values[..i]) + [FloatToken(ff, values[i])]
  {
    assert values[..i + 1] == values[..i] + [values[i]];
    MapSeqAppend(FloatTokenOf(ff), values[..i], [values[i]]);
  }

  /** `spaces(values)` */
  method Spaces<F>(ff: FloatFormat<F>, values: seq<F>) returns (buf: string)
    ensures buf == SpacesOf(ff, values)
  {
    buf := "";
    for i := 0 to |values|
      invariant buf == Terminated(FloatTokens(ff, values[..i]), ' ')
    {
      var s := SpacesToken(ff, values[i]);
      buf := buf + s;
      buf := buf + " ";
      FloatTokensSnoc(ff, values, i);
      TerminatedSnoc(FloatTokens(ff, values[..i]), s, ' ');
    }
    assert values[..|values|] == values;
    if |buf| > 0 {
      buf := buf[..|buf| - 1];
    }
    if |values| > 0 {
      TerminatedJoin(FloatTokens(ff, values), ' ');
    }
  }

  /** The body of `spaces`'s loop for one value: `{:E}` with a one-digit
      negative exponent padded, or `Display`, whichever is shorter. */
  method SpacesToken<F>(ff: FloatFormat<F>, val: F) returns (s: string)
    ensures s == FloatToken(ff, val)
  {
    var scientific := ff.scientific(val);
    if |scientific| >= 2 && scientific[|scientific| - 2] == '-' {
      scientific := scientific[..|scientific| - 1] + "0" + [scientific[|scientific| - 1]];
    }
    s := Shorter(ff.display(val), scientific);
  }

  /** Every token `spaces` writes is one token that reads back as its
      value. */
  lemma FloatTokenMeaning<F(!new)>(ff: FloatFormat<F>, v: F)
    requires Faithful(ff)
    ensures ff.parse(FloatToken(ff, v)) == Some(v)
    ensures IsToken(FloatToken(ff, v), IsWhitespace) && ' ' !in FloatToken(ff, v)
  {
    assert IsWhitespace(' ');
  }

  /** `spaces` writes what splitting on a space and on any whitespace takes
      apart again, one token per value. */
  lemma SpacesSplit<F(!new)>(ff: FloatFormat<F>, values: seq<F>)
    requires Faithful(ff)
    ensures |values| > 0 ==> Split(SpacesOf(ff, values), ' ') == FloatTokens(ff, values)
    ensures Tokens(SpacesOf(ff, values), IsWhitespace) == FloatTokens(ff, values)
    ensures ParseEach(ff, FloatTokens(ff, values)) == Ok(values)
  {
    var ts := FloatTokens(ff, values);
    forall i | 0 <= i < |ts| ensures IsToken(ts[i], IsWhitespace) && ' ' !in ts[i] && ff.parse(ts[i]) == Some(values[i]) {
      FloatTokenMeaning(ff, values[i]);
    }
    var r := ParseEach(ff, ts);
    assert r.Ok?;
    assert r.value == values;
    if |values| > 0 {
      SplitJoin(ts, ' ');
    }
    TokensOfJoin(ts, IsWhitespace);
  }

  // ---------------------------------------------------------------------
  // Vec2Space, Vec3Space and their Option forms

  const SEPARATED_EXPECT := "TODO: better error"
  const SKIP_NONE_EXPECT := "missing #[skip_serializing_none]"

  /** `Vec2Space` / `Vec3Space` deserialisation: exactly `n` space-separated
      floats; a wrong count panics, a bad float is an error. */
  function VecSpaceFromStr<F>(ff: FloatFormat<F>, v: string, n: nat): (r: Result<seq<F>, DeError>)
    ensures |Split(v, ' ')| != n ==> r == Err(Panic(SEPARATED_EXPECT))
    ensures |Split(v, ' ')| == n ==> r == ParseEach(ff, Split(v, ' '))
  {
    match SplitExactly(v, ' ', n)
    case Err(_) => Err(Panic(SEPARATED_EXPECT))
    case Ok(pieces) => ParseEach(ff, pieces)
  }

  /** `Vec2SpaceOpt` / `Vec3SpaceOpt` serialisation: `None` panics. */
  function VecSpaceOptToStr<F>(ff: FloatFormat<F>, v: Option<seq<F>>): (r: Result<string, DeError>)
    ensures v.None? <==> r == Err(Panic(SKIP_NONE_EXPECT))
    ensures v.Some? ==> r == Ok(SpacesOf(ff, v.value))
  {
    match v
    case None => Err(Panic(SKIP_NONE_EXPECT))
    case Some(xs) => Ok(SpacesOf(ff, xs))
  }

  /** `Vec2SpaceOpt` / `Vec3SpaceOpt` deserialisation: always `Some`. */
  function VecSpaceOptFromStr<F>(ff: FloatFormat<F>, v: string, n: nat): (r: Result<Option<seq<F>>, DeError>)
    ensures r.Ok? <==> VecSpaceFromStr(ff, v, n).Ok?
    ensures r.Ok? ==> r.value == Some(VecSpaceFromStr(ff, v, n).value)
  {
    match VecSpaceFromStr(ff, v, n)
    case Err(e) => Err(e)
    case Ok(xs) => Ok(Some(xs))
  }

  /** A vector written with `spaces` reads back as itself, and so does a
      present optional vector. */
  lemma VecSpaceRoundTrip<F(!new)>(ff: FloatFormat<F>, xs: seq<F>)
    requires Faithful(ff) && |xs| > 0
    ensures VecSpaceFromStr(ff, SpacesOf(ff, xs), |xs|) == Ok(xs)
    ensures VecSpaceOptFromStr(ff, VecSpaceOptToStr(ff, Some(xs)).value, |xs|) == Ok(Some(xs))
  {
    SpacesSplit(ff, xs);
  }

  // ---------------------------------------------------------------------
  // PointList

  function Prepend<T>(x: T, r: Result<seq<T>, DeError>): Result<seq<T>, DeError> {
    match r
    case Ok(xs) => Ok([x] + xs)
    case Err(e) => Err(e)
  }

  function PrependAll<T>(xs: seq<T>, r: Result<seq<T>, DeError>): Result<seq<T>, DeError> {
    match r
    case Ok(ys) => Ok(xs + ys)
    case Err(e) => Err(e)
  }

  lemma PrependAllNil<T>(r: Result<seq<T>, DeError>)
    ensures PrependAll([], r) == r
  {
    if r.Ok? {
      assert [] + r.value == r.value;
    }
  }

  lemma PrependAllSnoc<T>(xs: seq<T>, x: T, r: Result<seq<T>, DeError>)
    ensures PrependAll(xs, Prepend(x, r)) == PrependAll(xs + [x], r)
  {
    if r.Ok? {
      assert xs + ([x] + r.value) == (xs + [x]) + r.value;
    }
  }

  /** The coordinates of the points, x then y for each. */
  function FlatPairs<F>(pts: seq<(F, F)>): (xs: seq<F>)
    ensures |xs| == 2 * |pts|
    decreases |pts|
  {
    if |pts| == 0 then [] else [pts[0].0, pts[0].1] + FlatPairs(pts[1..])
  }

  /** `PointList` serialisation: `spaces` over x, y of every point. */
  function PointListToStr<F>(ff: FloatFormat<F>, pts: seq<(F, F)>): string {
    SpacesOf(ff, FlatPairs(pts))
  }

  /** What the `PointList` parser makes of a token sequence: tokens are
      taken in (x, y) pairs; a bad float is an error, and a last x without a
      y is a missing `y`. */
  function PointsFrom<F>(ff: FloatFormat<F>, toks: seq<string>): Result<seq<(F, F)>, DeError>
    decreases |toks|
  {
    if |toks| == 0 then Ok([])
    else
      match XmlFloat(ff, toks[0])
      case Err(e) => Err(e)
      case Ok(x) =>
        if |toks| == 1 then Err(MissingField("y"))
        else
          match XmlFloat(ff, toks[1])
          case Err(e) => Err(e)
          case Ok(y) => Prepend((x, y), PointsFrom(ff, toks[2..]))
  }

  /** `PointList` deserialisation: a `while let` loop over the whitespace
      tokens. */
  method ParsePointList<F>(ff: FloatFormat<F>, v: string) returns (r: Result<seq<(F, F)>, DeError>)
    ensures r == PointsFrom(ff, Tokens(v, IsWhitespace))
  {
    var toks := Tokens(v, IsWhitespace);
    var i := 0;
    var points: seq<(F, F)> := [];
    assert toks[0..] == toks;
    PrependAllNil(PointsFrom(ff, toks));
    while i < |toks|
      invariant 0 <= i <= |toks|
      invariant PointsFrom(ff, toks) == PrependAll(points, PointsFrom(ff, toks[i..]))
      decreases |toks| - i
    {
      var x := XmlFloat(ff, toks[i]);
      if x.Err? {
        return Err(x.error);
      }
      if i + 1 >= |toks| {
        return Err(MissingField("y"));
      }
      var y := XmlFloat(ff, toks[i + 1]);
      if y.Err? {
        return Err(y.error);
      }
      assert toks[i..][2..] == toks[i + 2..];
      PrependAllSnoc(points, (x.value, y.value), PointsFrom(ff, toks[i + 2..]));
      points := points + [(x.value, y.value)];
      i := i + 2;
    }
    assert toks[i..] == [] && points + [] == points;
    return Ok(points);
  }

  /** Reading back tokens written by any faithful `tok`, two per point. */
  lemma {:induction false} PointsFromMapped<F>(ff: FloatFormat<F>, tok: F -> string, pts: seq<(F, F)>)
    requires forall v :: ff.parse(tok(v)) == Some(v)
    ensures PointsFrom(ff, MapSeq(tok, FlatPairs(pts))) == Ok(pts)
    decreases |pts|
  {
    if |pts| > 0 {
      var ts := MapSeq(tok, FlatPairs(pts));
      MapFlatCons(tok, pts);
      PointsFromMapped(ff, tok, pts[1..]);
      assert XmlFloat(ff, ts[0]) == Ok(pts[0].0) && XmlFloat(ff, ts[1]) == Ok(pts[0].1);
      assert PointsFrom(ff, ts) == Prepend(pts[0], PointsFrom(ff, ts[2..]));
      assert [pts[0]] + pts[1..] == pts;
    }
  }

  lemma MapFlatCons<F>(tok: F -> string, pts: seq<(F, F)>)
    requires |pts| > 0
    ensures MapSeq(tok, FlatPairs(pts))[..2] == [tok(pts[0].0), tok(pts[0].1)]
    ensures MapSeq(tok, FlatPairs(pts))[2..] == MapSeq(tok, FlatPairs(pts[1..]))
  {
    var flat := FlatPairs(pts);
    var rest := FlatPairs(pts[1..]);
    assert flat[1..][1..] == rest;
  }

  /** A serialised point list reads back as itself. */
  lemma PointListRoundTrip<F(!new)>(ff: FloatFormat<F>, pts: seq<(F, F)>)
    requires Faithful(ff)
    ensures PointsFrom(ff, Tokens(PointListToStr(ff, pts), IsWhitespace)) == Ok(pts)
  {
    SpacesSplit(ff, FlatPairs(pts));
    forall v ensures ff.parse(FloatTokenOf(ff)(v)) == Some(v) {
      FloatTokenMeaning(ff, v);
    }
    PointsFromMapped(ff, FloatTokenOf(ff), pts);
  }

  /** An odd number of well-formed floats is a missing `y`. */
  lemma {:induction false} PointListOddCount<F>(ff: FloatFormat<F>, toks: seq<string>)
    requires |toks| % 2 == 1 && forall i :: 0 <= i < |toks| ==> ff.parse(toks[i]).Some?
    ensures PointsFrom(ff, toks) == Err(MissingField("y"))
    decreases |toks|
  {
    if |toks| > 1 {
      assert forall i :: 0 <= i < |toks[2..]| ==> toks[2..][i] == toks[i + 2];
      PointListOddCount(ff, toks[2..]);
    }
  }

  // ---------------------------------------------------------------------
  // SizeGuidePartList

  type u32 = n: int | 0 <= n < 0x1_0000_0000

  /** `SizeGuidePart { id, color, size }` */
  datatype SizeGuidePart<F> = SizeGuidePart(id: string, color: u32, size: (F, F))

  /** One part as `format!("{}\t{}\t{}\t{}\n", id, color, size.x, size.y)`. */
  function PartLine<F>(ff: FloatFormat<F>, p: SizeGuidePart<F>): string {
    p.id + "\t" + NatToString(p.color) + "\t" + ff.display(p.size.0) + "\t" + ff.display(p.size.1) + "\n"
  }

  /** `SizeGuidePartList` serialisation: the part lines, concatenated. */
  function SizeGuideToStr<F>(ff: FloatFormat<F>, parts: seq<SizeGuidePart<F>>): string
    decreases |parts|
  {
    if |parts| == 0 then "" else PartLine(ff, parts[0]) + SizeGuideToStr(ff, parts[1..])
  }

  /** What the `SizeGuidePartList` parser makes of a token sequence: groups
      of id, colour, x and y; a short group names the first missing field;
      a bad colour or float is an invalid-value error (which, for the
      colour too, says it expected a float). */
  function PartsFrom<F>(ff: FloatFormat<F>, toks: seq<string>): Result<seq<SizeGuidePart<F>>, DeError>
    decreases |toks|
  {
    if |toks| == 0 then Ok([])
    else if |toks| < 2 then Err(MissingField("color"))
    else
      match ParseUnsigned(toks[1], 0x1_0000_0000)
      case None => Err(InvalidValue(toks[1], FLOAT))
      case Some(color) =>
        if |toks| < 3 then Err(MissingField("x"))
        else
          match XmlFloat(ff, toks[2])
          case Err(e) => Err(e)
          case Ok(x) =>
            if |toks| < 4 then Err(MissingField("y"))
            else
              match XmlFloat(ff, toks[3])
              case Err(e) => Err(e)
              case Ok(y) => Prepend(SizeGuidePart(toks[0], color, (x, y)), PartsFrom(ff, toks[4..]))
  }

  /** `SizeGuidePartList` deserialisation: a `while let` loop over the
      whitespace tokens. */
  method ParseSizeGuideParts<F>(ff: FloatFormat<F>, v: string) returns (r: Result<seq<SizeGuidePart<F>>, DeError>)
    ensures r == PartsFrom(ff, Tokens(v, IsWhitespace))
  {
    var toks := Tokens(v, IsWhitespace);
    var i := 0;
    var parts: seq<SizeGuidePart<F>> := [];
    assert toks[0..] == toks;
    PrependAllNil(PartsFrom(ff, toks));
    while i < |toks|
      invariant 0 <= i <= |toks|
      invariant PartsFrom(ff, toks) == PrependAll(parts, PartsFrom(ff, toks[i..]))
      decreases |toks| - i
    {
      var id := toks[i];
      if i + 1 >= |toks| {
        return Err(MissingField("color"));
      }
      var color := ParseUnsigned(toks[i + 1], 0x1_0000_0000);
      if color.None? {
        return Err(InvalidValue(toks[i + 1], FLOAT));
      }
      if i + 2 >= |toks| {
        return Err(MissingField("x"));
      }
      var x := XmlFloat(ff, toks[i + 2]);
      if x.Err? {
        return Err(x.error);
      }
      if i + 3 >= |toks| {
        return Err(MissingField("y"));
      }
      var y := XmlFloat(ff, toks[i + 3]);
      if y.Err? {
        return Err(y.error);
      }
      var part := SizeGuidePart(id, color.value, (x.value, y.value));
      assert toks[i..][4..] == toks[i + 4..];
      PrependAllSnoc(parts, part, PartsFrom(ff, toks[i + 4..]));
      parts := parts + [part];
      i := i + 4;
    }
    assert toks[i..] == [] && parts + [] == parts;
    return Ok(parts);
  }

  /** Four tokens, tab-separated and ending in a line feed, come back as
      those four tokens. */
  lemma FourFieldTokens(a: string, b: string, c: string, d: string, rest: string, ws: char -> bool)
    requires ws('\t') && ws('\n')
    requires IsToken(a, ws) && IsToken(b, ws) && IsToken(c, ws) && IsToken(d, ws)
    ensures Tokens(a + ['\t'] + (b + ['\t'] + (c + ['\t'] + (d + ['\n'] + rest))), ws)
            == [a, b, c, d] + Tokens(rest, ws)
  {
    var t := Tokens(rest, ws);
    var r3 := d + ['\n'] + rest;
    var r2 := c + ['\t'] + r3;
    var r1 := b + ['\t'] + r2;
    TokensAfter(d, '\n', rest, ws);
    TokensAfter(c, '\t', r3, ws);
    TokensAfter(b, '\t', r2, ws);
    TokensAfter(a, '\t', r1, ws);
    assert [a] + ([b] + ([c] + ([d] + t))) == [a, b, c, d] + t;
  }

  lemma FourFieldText(a: string, b: string, c: string, d: string, rest: string)
    ensures a + "\t" + b + "\t" + c + "\t" + d + "\n" + rest
            == a + ['\t'] + (b + ['\t'] + (c + ['\t'] + (d + ['\n'] + rest)))
  {
    var r3 := d + ['\n'] + rest;
    var r2 := c + ['\t'] + r3;
    var x6 := a + "\t" + b + "\t" + c + "\t" + d;
    var x4 := a + "\t" + b + "\t" + c;
    var x2 := a + "\t" + b;
    Assoc(x6, "\n", rest);
    Assoc(x4 + "\t", d, "\n" + rest);
    Assoc(d, "\n", rest);
    Assoc(x4, "\t", r3);
    Assoc(x2 + "\t", c, "\t" + r3);
    Assoc(c, "\t", r3);
    Assoc(x2, "\t", r2);
    Assoc(a + "\t", b, "\t" + r2);
    Assoc(b, "\t", r2);
  }

  lemma Assoc(x: string, y: string, z: string)
    ensures x + y + z == x + (y + z)
  {
  }

  /** The fields the part lines hold, in order. */
  function PartTokens<F>(ff: FloatFormat<F>, parts: seq<SizeGuidePart<F>>): seq<string>
    decreases |parts|
  {
    if |parts| == 0 then []
    else
      var p := parts[0];
      [p.id, NatToString(p.color), ff.display(p.size.0), ff.display(p.size.1)] + PartTokens(ff, parts[1..])
  }

  /** The part lines split into their fields, for any whitespace notion
      that includes tab and line feed and keeps every field whole. */
  lemma {:induction false} SizeGuideTokens<F>(ff: FloatFormat<F>, parts: seq<SizeGuidePart<F>>, ws: char -> bool)
    requires ws('\t') && ws('\n') && forall c :: IsDigit(c) ==> !ws(c)
    requires forall i :: 0 <= i < |parts| ==>
               IsToken(parts[i].id, ws) && IsToken(ff.display(parts[i].size.0), ws) && IsToken(ff.display(parts[i].size.1), ws)
    ensures Tokens(SizeGuideToStr(ff, parts), ws) == PartTokens(ff, parts)
    decreases |parts|
  {
    if |parts| > 0 {
      var p := parts[0];
      var rest := SizeGuideToStr(ff, parts[1..]);
      var c := NatToString(p.color);
      assert IsToken(c, ws);
      FourFieldText(p.id, c, ff.display(p.size.0), ff.display(p.size.1), rest);
      FourFieldTokens(p.id, c, ff.display(p.size.0), ff.display(p.size.1), rest, ws);
      assert forall i :: 0 <= i < |parts[1..]| ==> parts[1..][i] == parts[i + 1];
      SizeGuideTokens(ff, parts[1..], ws);
    }
  }

  /** The parser turns the fields back into the parts. */
  lemma {:induction false} PartsFromTokens<F>(ff: FloatFormat<F>, parts: seq<SizeGuidePart<F>>)
    requires forall i :: 0 <= i < |parts| ==>
               ff.parse(ff.display(parts[i].size.0)) == Some(parts[i].size.0)
               && ff.parse(ff.display(parts[i].size.1)) == Some(parts[i].size.1)
    ensures PartsFrom(ff, PartTokens(ff, parts)) == Ok(parts)
    decreases |parts|
  {
    if |parts| > 0 {
      var p := parts[0];
      var toks := PartTokens(ff, parts);
      assert toks[4..] == PartTokens(ff, parts[1..]);
      UnsignedRoundTrip(p.color, 0x1_0000_0000);
      assert XmlFloat(ff, toks[2]) == Ok(p.size.0) && XmlFloat(ff, toks[3]) == Ok(p.size.1);
      assert PartsFrom(ff, toks) == Prepend(SizeGuidePart(p.id, p.color, (p.size.0, p.size.1)), PartsFrom(ff, toks[4..]));
      assert forall i :: 0 <= i < |parts[1..]| ==> parts[1..][i] == parts[i + 1];
      PartsFromTokens(ff, parts[1..]);
      assert [p] + parts[1..] == parts;
    }
  }

  /** A serialised part list reads back as itself when every id is one
      token. */
  lemma SizeGuideRoundTrip<F(!new)>(ff: FloatFormat<F>, parts: seq<SizeGuidePart<F>>)
    requires DisplayFaithful(ff) && forall i :: 0 <= i < |parts| ==> IsToken(parts[i].id, IsWhitespace)
    ensures PartsFrom(ff, Tokens(SizeGuideToStr(ff, parts), IsWhitespace)) == Ok(parts)
  {
    SizeGuideTokens(ff, parts, IsWhitespace);
    PartsFromTokens(ff, parts);
  }

  /** The name of the field in position `pos` of a part's group. */
  function PartFieldName(pos: nat): string {
    if pos == 1 then "color" else if pos == 2 then "x" else "y"
  }

  /** Input whose fields are all well formed but whose last group is short
      fails on the first field that group lacks: `color`, `x` or `y`. */
  lemma {:induction false} SizeGuideShortInput<F>(ff: FloatFormat<F>, toks: seq<string>)
    requires |toks| % 4 != 0
    requires forall i :: 0 <= i < |toks| && i % 4 == 1 ==> ParseUnsigned(toks[i], 0x1_0000_0000).Some?
    requires forall i :: 0 <= i < |toks| && i % 4 >= 2 ==> ff.parse(toks[i]).Some?
    ensures PartsFrom(ff, toks) == Err(MissingField(PartFieldName(|toks| % 4)))
    decreases |toks|
  {
    if |toks| >= 2 {
      assert 1 % 4 == 1 && ParseUnsigned(toks[1], 0x1_0000_0000).Some?;
    }
    if |toks| >= 3 {
      assert 2 % 4 == 2 && ff.parse(toks[2]).Some?;
    }
    if |toks| >= 4 {
      assert 3 % 4 == 3 && ff.parse(toks[3]).Some?;
    }
    if |toks| > 4 {
      var rest := toks[4..];
      forall i | 0 <= i < |rest| ensures rest[i] == toks[i + 4] && (i + 4) % 4 == i % 4 {
      }
      assert |rest| % 4 == |toks| % 4;
      SizeGuideShortInput(ff, rest);
    }
  }

  // ---------------------------------------------------------------------
  // UpperBool and UpperBoolOpt

  /** The text of a rejected boolean (`"Invalid value {v:?}, ..."`). */
  datatype BoolError = InvalidBool(value: string)

  /** `UpperBool` serialisation. */
  function UpperBoolToStr(b: bool): string {
    if b then "True" else "False"
  }

  /** `UpperBool` deserialisation: `True`/`true` and `False`/`false`
      only. */
  function UpperBoolFromStr(v: string): (r: Result<bool, BoolError>)
    ensures r == Ok(true) <==> v == "True" || v == "true"
    ensures r == Ok(false) <==> v == "False" || v == "false"
    ensures r.Err? ==> r.error == InvalidBool(v)
  {
    if v == "True" || v == "true" then Ok(true)
    else if v == "False" || v == "false" then Ok(false)
    else Err(InvalidBool(v))
  }

  /** Every boolean reads back as itself. */
  lemma UpperBoolRoundTrip(b: bool)
    ensures UpperBoolFromStr(UpperBoolToStr(b)) == Ok(b)
  {
  }

  /** `UpperBoolOpt` serialisation: only `Some(true)` is `"True"`. */
  function UpperBoolOptToStr(v: Option<bool>): (r: string)
    ensures r == "True" <==> v == Some(true)
    ensures r == "True" || r == "False"
  {
    if v == Some(true) then "True" else "False"
  }

  /** `UpperBoolOpt` deserialisation: the boolean, always present. */
  function UpperBoolOptFromStr(v: string): (r: Result<Option<bool>, BoolError>)
    ensures r.Ok? <==> UpperBoolFromStr(v).Ok?
    ensures r.Ok? ==> r.value == Some(UpperBoolFromStr(v).value)
    ensures r.Err? ==> r.error == InvalidBool(v)
  {
    match UpperBoolFromStr(v)
    case Ok(b) => Ok(Some(b))
    case Err(e) => Err(e)
  }

  /** Reading back gives `Some`, with `None` coming back as
      `Some(false)`. */
  lemma UpperBoolOptRoundTrip(v: Option<bool>)
    ensures UpperBoolOptFromStr(UpperBoolOptToStr(v)) == Ok(Some(v == Some(true)))
    ensures v != None ==> UpperBoolOptFromStr(UpperBoolOptToStr(v)) == Ok(v)
  {
    if v.Some? {
      if v.value {
        assert UpperBoolFromStr("True") == Ok(true);
      } else {
        assert UpperBoolFromStr("False") == Ok(false);
      }
    }
  }

  // ---------------------------------------------------------------------
  // resize_bar_list

  type isize = i: int | -0x8000_0000_0000_0000 <= i < 0x8000_0000_0000_0000

  /** `ResizeBar { vertical, ref_index_1, ref_index_2, offset }` */
  datatype ResizeBar<F> = ResizeBar(vertical: bool, refIndex1: isize, refIndex2: isize, offset: F)

  /** The offset as `shorter(offset.to_string(), format!("{offset:.2}"))`. */
  function OffsetText<F>(ff: FloatFormat<F>, offset: F): string {
    Shorter(ff.display(offset), ff.fixed2(offset))
  }

  /** The four fields one bar writes. */
  function BarFields<F>(ff: FloatFormat<F>, bar: ResizeBar<F>): seq<string> {
    [UpperBoolToStr(bar.vertical), IntToString(bar.refIndex1), IntToString(bar.refIndex2), OffsetText(ff, bar.offset)]
  }

  function BarTokens<F>(ff: FloatFormat<F>, bars: seq<ResizeBar<F>>): (ts: seq<string>)
    ensures |ts| == 4 * |bars|
    decreases |bars|
  {
    if |bars| == 0 then [] else BarFields(ff, bars[0]) + BarTokens(ff, bars[1..])
  }

  lemma {:induction false} BarTokensSnoc<F>(ff: FloatFormat<F>, bars: seq<ResizeBar<F>>, bar: ResizeBar<F>)
    ensures BarTokens(ff, bars + [bar]) == BarTokens(ff, bars) + BarFields(ff, bar)
    decreases |bars|
  {
    if |bars| == 0 {
      assert [bar][1..] == [];
    } else {
      assert (bars + [bar])[1..] == bars[1..] + [bar];
      BarTokensSnoc(ff, bars[1..], bar);
    }
  }

  const POP_ASSERT := "assertion `left == right` failed"

  /** What `resize_bar_list::serialize` writes: every field of every bar,
      separated by single spaces; an empty list fails the assertion that a
      trailing space was popped. */
  function ResizeBarsText<F>(ff: FloatFormat<F>, bars: seq<ResizeBar<F>>): (r: Result<string, DeError>)
    ensures r.Err? <==> |bars| == 0
    ensures r.Err? ==> r.error == Panic(POP_ASSERT)
  {
    if |bars| == 0 then Err(Panic(POP_ASSERT)) else Ok(Join(BarTokens(ff, bars), ' '))
  }

  /** `resize_bar_list::serialize` */
  method WriteResizeBars<F>(ff: FloatFormat<F>, bars: seq<ResizeBar<F>>) returns (r: Result<string, DeError>)
    ensures r == ResizeBarsText(ff, bars)
  {
    var buf := "";
    for i := 0 to |bars|
      invariant buf == Terminated(BarTokens(ff, bars[..i]), ' ')
    {
      var s := WriteBar(ff, bars[i]);
      buf := buf + s;
      assert bars[..i + 1] == bars[..i] + [bars[i]];
      BarTokensSnoc(ff, bars[..i], bars[i]);
      TerminatedAppend(BarTokens(ff, bars[..i]), BarFields(ff, bars[i]), ' ');
    }
    assert bars[..|bars|] == bars;
    if |bars| > 0 {
      TerminatedJoin(BarTokens(ff, bars), ' ');
    }
    if |buf| == 0 || buf[|buf| - 1] != ' ' {
      return Err(Panic(POP_ASSERT));
    }
    buf := buf[..|buf| - 1];
    return Ok(buf);
  }

  /** The `write!` of one bar in `resize_bar_list::serialize`. */
  method WriteBar<F>(ff: FloatFormat<F>, bar: ResizeBar<F>) returns (s: string)
    ensures s == Terminated(BarFields(ff, bar), ' ')
  {
    var vertical := if bar.vertical then "True" else "False";
    var i1 := IntToString(bar.refIndex1);
    var i2 := IntToString(bar.refIndex2);
    var offsetStr := Shorter(ff.display(bar.offset), ff.fixed2(bar.offset));
    s := vertical + " " + i1 + " " + i2 + " " + offsetStr + " ";
    TerminatedFour(vertical, i1, i2, offsetStr);
  }

  lemma TerminatedFour(a: string, b: string, c: string, d: string)
    ensures Terminated([a, b, c, d], ' ') == a + " " + b + " " + c + " " + d + " "
  {
    TerminatedSnoc([], a, ' ');
    assert [a] == [] + [a];
    TerminatedSnoc([a], b, ' ');
    assert [a, b] == [a] + [b];
    TerminatedSnoc([a, b], c, ' ');
    assert [a, b, c] == [a, b] + [c];
    TerminatedSnoc([a, b, c], d, ' ');
    assert [a, b, c, d] == [a, b, c] + [d];
  }

  /** What the resize bar parser makes of a token sequence: groups of
      vertical flag, two integers and an offset; a short group names the
      first missing field. */
  function BarsFrom<F>(ff: FloatFormat<F>, toks: seq<string>): Result<seq<ResizeBar<F>>, DeError>
    decreases |toks|
  {
    if |toks| == 0 then Ok([])
    else
      match UpperBoolFromStr(toks[0])
      case Err(_) => Err(InvalidValue(toks[0], "True or False"))
      case Ok(vertical) =>
        if |toks| < 2 then Err(MissingField("refIndex1"))
        else
          match ParseSigned(toks[1], -0x8000_0000_0000_0000, 0x8000_0000_0000_0000)
          case None => Err(InvalidValue(toks[1], "an integer"))
          case Some(i1) =>
            if |toks| < 3 then Err(MissingField("refIndex2"))
            else
              match ParseSigned(toks[2], -0x8000_0000_0000_0000, 0x8000_0000_0000_0000)
              case None => Err(InvalidValue(toks[2], "an integer"))
              case Some(i2) =>
                if |toks| < 4 then Err(MissingField("offset"))
                else
                  match XmlFloat(ff, toks[3])
                  case Err(e) => Err(e)
                  case Ok(offset) => Prepend(ResizeBar(vertical, i1, i2, offset), BarsFrom(ff, toks[4..]))
  }

  /** `resize_bar_list::visit`: a `while let` loop over the ASCII whitespace
      tokens. */
  method ParseResizeBars<F>(ff: FloatFormat<F>, v: string) returns (r: Result<seq<ResizeBar<F>>, DeError>)
    ensures r == BarsFrom(ff, Tokens(v, IsAsciiWhitespace))
  {
    var toks := Tokens(v, IsAsciiWhitespace);
    var i := 0;
    var list: seq<ResizeBar<F>> := [];
    assert toks[0..] == toks;
    PrependAllNil(BarsFrom(ff, toks));
    while i < |toks|
      invariant 0 <= i <= |toks|
      invariant BarsFrom(ff, toks) == PrependAll(list, BarsFrom(ff, toks[i..]))
      decreases |toks| - i
    {
      var parsed := ParseBar(ff, toks[i..]);
      if parsed.Err? {
        return Err(parsed.error);
      }
      var bar := parsed.value;
      assert toks[i..][4..] == toks[i + 4..];
      PrependAllSnoc(list, bar, BarsFrom(ff, toks[i + 4..]));
      list := list + [bar];
      i := i + 4;
    }
    assert toks[i..] == [] && list + [] == list;
    return Ok(list);
  }

  /** One iteration of `visit`'s loop, on the tokens still to come. */
  method ParseBar<F>(ff: FloatFormat<F>, toks: seq<string>) returns (r: Result<ResizeBar<F>, DeError>)
    requires |toks| > 0
    ensures r.Err? ==> BarsFrom(ff, toks) == Err(r.error)
    ensures r.Ok? ==> |toks| >= 4 && BarsFrom(ff, toks) == Prepend(r.value, BarsFrom(ff, toks[4..]))
  {
    var vertical: bool;
    if toks[0] == "True" || toks[0] == "true" {
      vertical := true;
    } else if toks[0] == "False" || toks[0] == "false" {
      vertical := false;
    } else {
      return Err(InvalidValue(toks[0], "True or False"));
    }
    if |toks| < 2 {
      return Err(MissingField("refIndex1"));
    }
    var i1 := ParseSigned(toks[1], -0x8000_0000_0000_0000, 0x8000_0000_0000_0000);
    if i1.None? {
      return Err(InvalidValue(toks[1], "an integer"));
    }
    if |toks| < 3 {
      return Err(MissingField("refIndex2"));
    }
    var i2 := ParseSigned(toks[2], -0x8000_0000_0000_0000, 0x8000_0000_0000_0000);
    if i2.None? {
      return Err(InvalidValue(toks[2], "an integer"));
    }
    if |toks| < 4 {
      return Err(MissingField("offset"));
    }
    var offset := XmlFloat(ff, toks[3]);
    if offset.Err? {
      return Err(offset.error);
    }
    return Ok(ResizeBar(vertical, i1.value, i2.value, offset.value));
  }

  /** Re-reading a bar keeps everything but the offset, which becomes the
      value of its written text (when that text reads as a float, which a
      faithful formatter guarantees). */
  function Reread<F>(ff: FloatFormat<F>, bar: ResizeBar<F>): (r: ResizeBar<F>)
    ensures r.vertical == bar.vertical && r.refIndex1 == bar.refIndex1 && r.refIndex2 == bar.refIndex2
    ensures ff.parse(OffsetText(ff, bar.offset)).Some? ==> Some(r.offset) == ff.parse(OffsetText(ff, bar.offset))
  {
    match ff.parse(OffsetText(ff, bar.offset))
    case Some(x) => bar.(offset := x)
    case None => bar
  }

  function RereadAll<F>(ff: FloatFormat<F>, bars: seq<ResizeBar<F>>): (r: seq<ResizeBar<F>>)
    ensures |r| == |bars| && forall i :: 0 <= i < |bars| ==> r[i] == Reread(ff, bars[i])
    decreases |bars|
  {
    if |bars| == 0 then [] else [Reread(ff, bars[0])] + RereadAll(ff, bars[1..])
  }

  /** A serialised non-empty bar list reads back with the same flags and
      indices, and each offset as the float its text denotes: exactly the
      offset when `Display` was not the longer text, else its two-decimal
      rounding. */
  lemma ResizeBarsRoundTrip<F(!new)>(ff: FloatFormat<F>, bars: seq<ResizeBar<F>>)
    requires Faithful(ff) && |bars| > 0
    ensures ResizeBarsText(ff, bars).Ok?
    ensures BarsFrom(ff, Tokens(ResizeBarsText(ff, bars).value, IsAsciiWhitespace))
            == Ok(RereadAll(ff, bars))
    ensures forall i :: 0 <= i < |bars| && |ff.display(bars[i].offset)| <= |ff.fixed2(bars[i].offset)| ==>
              Reread(ff, bars[i]) == bars[i]
  {
    var ts := BarTokens(ff, bars);
    BarTokensAreTokens(ff, bars);
    TokensOfJoin(ts, IsAsciiWhitespace);
    BarsFromTokens(ff, bars);
  }

  /** A resize bar field that parses in position `pos` of its group: the
      flag, the two indices, the offset. */
  predicate BarFieldOk<F>(ff: FloatFormat<F>, t: string, pos: nat) {
    if pos == 0 then UpperBoolFromStr(t).Ok?
    else if pos <= 2 then ParseSigned(t, -0x8000_0000_0000_0000, 0x8000_0000_0000_0000).Some?
    else ff.parse(t).Some?
  }

  /** The name of the field in position `pos` of a bar's group. */
  function BarFieldName(pos: nat): string {
    if pos == 1 then "refIndex1" else if pos == 2 then "refIndex2" else "offset"
  }

  /** Input whose fields are all well formed but whose last group is short
      fails on the first field that group lacks: `refIndex1`, `refIndex2`
      or `offset`. */
  lemma {:induction false} ResizeBarsShortInput<F>(ff: FloatFormat<F>, toks: seq<string>)
    requires |toks| % 4 != 0
    requires forall i :: 0 <= i < |toks| ==> BarFieldOk(ff, toks[i], i % 4)
    ensures BarsFrom(ff, toks) == Err(MissingField(BarFieldName(|toks| % 4)))
    decreases |toks|
  {
    BarGroupStep(ff, toks);
    if |toks| > 4 {
      ResizeBarsShortInput(ff, toks[4..]);
    }
  }

  /** The first group of well-formed bar fields: a short group names its
      first missing field, a full one leaves the outcome to the rest, whose
      fields are well formed in the same positions. */
  lemma BarGroupStep<F>(ff: FloatFormat<F>, toks: seq<string>)
    requires |toks| % 4 != 0
    requires forall i :: 0 <= i < |toks| ==> BarFieldOk(ff, toks[i], i % 4)
    ensures |toks| < 4 ==> BarsFrom(ff, toks) == Err(MissingField(BarFieldName(|toks| % 4)))
    ensures |toks| > 4 ==> |toks[4..]| % 4 == |toks| % 4
    ensures |toks| > 4 ==> forall i :: 0 <= i < |toks[4..]| ==> BarFieldOk(ff, toks[4..][i], i % 4)
    ensures |toks| > 4 && BarsFrom(ff, toks[4..]).Err? ==> BarsFrom(ff, toks) == BarsFrom(ff, toks[4..])
  {
    BarHeadFields(ff, toks);
    FirstBarGroup(ff, toks);
    ModFourStep(|toks|);
    if |toks| > 4 {
      BarFieldsTail(ff, toks);
    }
  }

  /** Dropping a group of four keeps the position within a group. */
  lemma ModFourStep(n: nat)
    ensures n < 4 ==> n % 4 == n
    ensures n >= 4 ==> (n - 4) % 4 == n % 4
  {
  }

  /** The fields of the first group, one by one. */
  lemma BarHeadFields<F>(ff: FloatFormat<F>, toks: seq<string>)
    requires |toks| > 0
    requires forall i :: 0 <= i < |toks| ==> BarFieldOk(ff, toks[i], i % 4)
    ensures UpperBoolFromStr(toks[0]).Ok?
    ensures |toks| > 1 ==> ParseSigned(toks[1], -0x8000_0000_0000_0000, 0x8000_0000_0000_0000).Some?
    ensures |toks| > 2 ==> ParseSigned(toks[2], -0x8000_0000_0000_0000, 0x8000_0000_0000_0000).Some?
    ensures |toks| > 3 ==> ff.parse(toks[3]).Some?
  {
    assert BarFieldOk(ff, toks[0], 0);
    if |toks| > 1 { assert BarFieldOk(ff, toks[1], 1); }
    if |toks| > 2 { assert BarFieldOk(ff, toks[2], 2); }
    if |toks| > 3 { assert BarFieldOk(ff, toks[3], 3); }
  }

  /** The groups after the first are well formed in the same positions. */
  lemma BarFieldsTail<F>(ff: FloatFormat<F>, toks: seq<string>)
    requires |toks| > 4
    requires forall i :: 0 <= i < |toks| ==> BarFieldOk(ff, toks[i], i % 4)
    ensures forall i :: 0 <= i < |toks[4..]| ==> BarFieldOk(ff, toks[4..][i], i % 4)
  {
    var rest := toks[4..];
    forall i | 0 <= i < |rest| ensures BarFieldOk(ff, rest[i], i % 4) {
      assert rest[i] == toks[i + 4] && (i + 4) % 4 == i % 4;
    }
  }

  /** One step of `BarsFrom` over a well-formed first group. */
  lemma FirstBarGroup<F>(ff: FloatFormat<F>, toks: seq<string>)
    requires |toks| > 0 && UpperBoolFromStr(toks[0]).Ok?
    requires |toks| > 1 ==> ParseSigned(toks[1], -0x8000_0000_0000_0000, 0x8000_0000_0000_0000).Some?
    requires |toks| > 2 ==> ParseSigned(toks[2], -0x8000_0000_0000_0000, 0x8000_0000_0000_0000).Some?
    requires |toks| > 3 ==> ff.parse(toks[3]).Some?
    ensures |toks| < 4 ==> BarsFrom(ff, toks) == Err(MissingField(BarFieldName(|toks|)))
    ensures |toks| >= 4 && BarsFrom(ff, toks[4..]).Err? ==> BarsFrom(ff, toks) == BarsFrom(ff, toks[4..])
  {
  }

  /** A token for `split_whitespace` is one for `split_ascii_whitespace`. */
  lemma AsciiToken(s: string)
    requires IsToken(s, IsWhitespace)
    ensures IsToken(s, IsAsciiWhitespace)
  {
    forall i | 0 <= i < |s| ensures !IsAsciiWhitespace(s[i]) {
      assert !IsWhitespace(s[i]);
    }
  }

  lemma {:induction false} BarTokensAreTokens<F(!new)>(ff: FloatFormat<F>, bars: seq<ResizeBar<F>>)
    requires Faithful(ff)
    ensures forall i :: 0 <= i < |BarTokens(ff, bars)| ==> IsToken(BarTokens(ff, bars)[i], IsAsciiWhitespace)
    decreases |bars|
  {
    if |bars| > 0 {
      BarTokensAreTokens(ff, bars[1..]);
      var b := bars[0];
      IntIsToken(b.refIndex1, IsAsciiWhitespace);
      IntIsToken(b.refIndex2, IsAsciiWhitespace);
      AsciiToken(ff.display(b.offset));
      AsciiToken(ff.fixed2(b.offset));
      var ts := BarTokens(ff, bars);
      forall i | 0 <= i < |ts| ensures IsToken(ts[i], IsAsciiWhitespace) {
        if i >= 4 {
          assert ts[i] == BarTokens(ff, bars[1..])[i - 4];
        }
      }
    }
  }

  lemma {:induction false} BarsFromTokens<F(!new)>(ff: FloatFormat<F>, bars: seq<ResizeBar<F>>)
    requires Faithful(ff)
    ensures BarsFrom(ff, BarTokens(ff, bars)) == Ok(RereadAll(ff, bars))
    decreases |bars|
  {
    if |bars| > 0 {
      var b := bars[0];
      var ts := BarTokens(ff, bars);
      assert ts[4..] == BarTokens(ff, bars[1..]);
      SignedRoundTrip(b.refIndex1, -0x8000_0000_0000_0000, 0x8000_0000_0000_0000);
      SignedRoundTrip(b.refIndex2, -0x8000_0000_0000_0000, 0x8000_0000_0000_0000);
      assert ts[0] == UpperBoolToStr(b.vertical) && ts[1] == IntToString(b.refIndex1)
             && ts[2] == IntToString(b.refIndex2) && ts[3] == OffsetText(ff, b.offset);
      UpperBoolRoundTrip(b.vertical);
      assert XmlFloat(ff, ts[3]) == Ok(Reread(ff, b).offset);
      BarsFromTokens(ff, bars[1..]);
      assert BarsFrom(ff, ts) == Prepend(Reread(ff, b), BarsFrom(ff, ts[4..]));
    }
  }
}
