/** The parts of Rust's `str` API that the core relies on, stated on
    `seq<char>`: `starts_with`, `ends_with`, `contains`, `split` on a
    one-character pattern, `split_whitespace` / `split_ascii_whitespace`, and
    decimal `Display` / `FromStr` for integers. */
module Text {
  import opened Wrappers

  /** `s.starts_with(prefix)` */
  predicate StartsWith(s: string, prefix: string) {
    prefix <= s
  }

  /** `s.ends_with(suffix)` */
  predicate EndsWith(s: string, suffix: string) {
    |suffix| <= |s| && s[|s| - |suffix|..] == suffix
  }

  /** `s.contains(needle)`: the needle occurs at some position of `s`. */
  predicate Contains(s: string, needle: string)
    decreases |s|
  {
    StartsWith(s, needle) || (|s| > 0 && Contains(s[1..], needle))
  }

  // ---------------------------------------------------------------------
  // `str::split` with a one-character pattern, and its inverse `join`.

  /** The pieces `s.split(sep)` yields: the maximal runs between separators,
      so there is always one more piece than there are separators. */
  function Split(s: string, sep: char): (pieces: seq<string>)
    ensures |pieces| >= 1
    decreases |s|
  {
    if |s| == 0 then [""]
    else
      var rest := Split(s[1..], sep);
      if s[0] == sep then [""] + rest else [[s[0]] + rest[0]] + rest[1..]
  }

  /** `pieces.join(sep)`; the empty list joins to the empty string. */
  function Join(pieces: seq<string>, sep: char): string
    decreases |pieces|
  {
    if |pieces| == 0 then ""
    else if |pieces| == 1 then pieces[0]
    else pieces[0] + [sep] + Join(pieces[1..], sep)
  }

  /** No piece of `pieces` contains the separator. */
  predicate FreeOf(pieces: seq<string>, sep: char) {
    forall i :: 0 <= i < |pieces| ==> sep !in pieces[i]
  }

  lemma JoinCons(p: string, ps: seq<string>, sep: char)
    requires |ps| >= 1
    ensures Join([p] + ps, sep) == p + [sep] + Join(ps, sep)
  {
    assert ([p] + ps)[1..] == ps;
  }

  /** Every piece of a split is free of the separator. */
  lemma {:induction false} SplitFreeOf(s: string, sep: char)
    ensures FreeOf(Split(s, sep), sep)
    decreases |s|
  {
    if |s| > 0 {
      SplitFreeOf(s[1..], sep);
      var rest := Split(s[1..], sep);
      if s[0] != sep {
        assert sep !in [s[0]] + rest[0];
      }
    }
  }

  /** Joining the pieces of a split gives back the string. */
  lemma {:induction false} JoinSplit(s: string, sep: char)
    ensures Join(Split(s, sep), sep) == s
    decreases |s|
  {
    if |s| > 0 {
      JoinSplit(s[1..], sep);
      var rest := Split(s[1..], sep);
      if s[0] == sep {
        JoinCons("", rest, sep);
      } else if |rest| == 1 {
        assert s == [s[0]] + s[1..];
      } else {
        JoinCons([s[0]] + rest[0], rest[1..], sep);
        JoinCons(rest[0], rest[1..], sep);
        assert [rest[0]] + rest[1..] == rest;
        assert s == [s[0]] + s[1..];
      }
    }
  }

  /** A string without the separator splits into itself alone. */
  lemma {:induction false} SplitWithout(s: string, sep: char)
    requires sep !in s
    ensures Split(s, sep) == [s]
    decreases |s|
  {
    if |s| > 0 {
      assert sep !in s[1..] by {
        forall i | 0 <= i < |s[1..]| ensures s[1..][i] != sep { assert s[1..][i] == s[i + 1]; }
      }
      SplitWithout(s[1..], sep);
      assert s == [s[0]] + s[1..];
    }
  }

  /** A leading separator-free piece followed by the separator splits off. */
  lemma {:induction false} SplitAfter(a: string, b: string, sep: char)
    requires sep !in a
    ensures Split(a + [sep] + b, sep) == [a] + Split(b, sep)
    decreases |a|
  {
    var s := a + [sep] + b;
    if |a| == 0 {
      assert s == [sep] + b;
      assert s[1..] == b;
    } else {
      assert s[1..] == a[1..] + [sep] + b;
      assert sep !in a[1..] by {
        forall i | 0 <= i < |a[1..]| ensures a[1..][i] != sep { assert a[1..][i] == a[i + 1]; }
      }
      SplitAfter(a[1..], b, sep);
      assert [a[0]] + a[1..] == a;
    }
  }

  /** Splitting a join of separator-free pieces gives back the pieces. */
  lemma {:induction false} SplitJoin(pieces: seq<string>, sep: char)
    requires |pieces| >= 1 && FreeOf(pieces, sep)
    ensures Split(Join(pieces, sep), sep) == pieces
    decreases |pieces|
  {
    if |pieces| == 1 {
      assert sep !in pieces[0];
      SplitWithout(pieces[0], sep);
    } else {
      assert sep !in pieces[0];
      SplitJoin(pieces[1..], sep);
      SplitAfter(pieces[0], Join(pieces[1..], sep), sep);
      assert [pieces[0]] + pieces[1..] == pieces;
    }
  }

  /** Joining one more piece adds a separator and the piece. */
  lemma {:induction false} JoinSnoc(ps: seq<string>, p: string, sep: char)
    requires |ps| >= 1
    ensures Join(ps + [p], sep) == Join(ps, sep) + [sep] + p
    decreases |ps|
  {
    if |ps| == 1 {
      assert (ps + [p])[1..] == [p];
    } else {
      assert (ps + [p])[1..] == ps[1..] + [p];
      JoinSnoc(ps[1..], p, sep);
    }
  }

  // ---------------------------------------------------------------------
  // Whitespace tokens: `split_whitespace` and `split_ascii_whitespace`.

  /** `char::is_whitespace`: the Unicode White_Space property. */
  predicate IsWhitespace(c: char) {
    ('\t' <= c <= '\r') || c == ' ' || c == '\U{0085}' || c == '\U{00A0}'
    || c == '\U{1680}' || ('\U{2000}' <= c <= '\U{200A}') || c == '\U{2028}'
    || c == '\U{2029}' || c == '\U{202F}' || c == '\U{205F}' || c == '\U{3000}'
  }

  /** `u8::is_ascii_whitespace`: space, tab, line feed, form feed, carriage
      return (not the vertical tab). */
  predicate IsAsciiWhitespace(c: char) {
    c == ' ' || c == '\t' || c == '\n' || c == '\U{000C}' || c == '\r'
  }

  /** A non-empty string containing no whitespace in the sense of `ws`. */
  predicate IsToken(s: string, ws: char -> bool) {
    |s| > 0 && forall i :: 0 <= i < |s| ==> !ws(s[i])
  }

  /** Length of the run of non-whitespace characters at the start of `s`. */
  function RunLength(s: string, ws: char -> bool): (n: nat)
    ensures n <= |s|
    ensures forall i :: 0 <= i < n ==> !ws(s[i])
    ensures n < |s| ==> ws(s[n])
    decreases |s|
  {
    if |s| == 0 || ws(s[0]) then 0 else 1 + RunLength(s[1..], ws)
  }

  /** The tokens `split_whitespace` yields: maximal runs of non-whitespace,
      with no empty tokens. */
  function Tokens(s: string, ws: char -> bool): (ts: seq<string>)
    ensures forall i :: 0 <= i < |ts| ==> IsToken(ts[i], ws)
    decreases |s|
  {
    if |s| == 0 then []
    else if ws(s[0]) then Tokens(s[1..], ws)
    else
      var n := RunLength(s, ws);
      assert IsToken(s[..n], ws);
      [s[..n]] + Tokens(s[n..], ws)
  }

  /** A token alone splits into itself. */
  lemma TokensOfToken(t: string, ws: char -> bool)
    requires IsToken(t, ws)
    ensures Tokens(t, ws) == [t]
  {
    RunLengthOfToken(t, [], ws);
    assert t[..|t|] == t;
    assert t[|t|..] == [];
  }

  lemma {:induction false} RunLengthOfToken(t: string, rest: string, ws: char -> bool)
    requires forall i :: 0 <= i < |t| ==> !ws(t[i])
    requires |rest| == 0 || ws(rest[0])
    ensures RunLength(t + rest, ws) == |t|
    decreases |t|
  {
    if |t| > 0 {
      assert (t + rest)[1..] == t[1..] + rest;
      RunLengthOfToken(t[1..], rest, ws);
    } else {
      assert t + rest == rest;
    }
  }

  /** A token followed by whitespace is the first token. */
  lemma TokensAfter(t: string, w: char, rest: string, ws: char -> bool)
    requires IsToken(t, ws) && ws(w)
    ensures Tokens(t + [w] + rest, ws) == [t] + Tokens(rest, ws)
  {
    var s := t + [w] + rest;
    RunLengthOfToken(t, [w] + rest, ws);
    assert s == t + ([w] + rest);
    assert s[..|t|] == t;
    assert s[|t|..] == [w] + rest;
    assert ([w] + rest)[1..] == rest;
  }

  /** Tokens of space-joined tokens are those tokens. */
  lemma {:induction false} TokensOfJoin(ts: seq<string>, ws: char -> bool)
    requires ws(' ')
    requires forall i :: 0 <= i < |ts| ==> IsToken(ts[i], ws)
    ensures Tokens(Join(ts, ' '), ws) == ts
    decreases |ts|
  {
    if |ts| == 1 {
      TokensOfToken(ts[0], ws);
    } else if |ts| > 1 {
      TokensOfJoin(ts[1..], ws);
      TokensAfter(ts[0], ' ', Join(ts[1..], ' '), ws);
      assert [ts[0]] + ts[1..] == ts;
    }
  }

  // ---------------------------------------------------------------------
  // Decimal integers: `Display` and `FromStr`.

  predicate IsDigit(c: char) {
    '0' <= c <= '9'
  }

  function DigitChar(d: nat): (c: char)
    requires d < 10
    ensures IsDigit(c) && c as int - '0' as int == d
  {
    ('0' as int + d) as char
  }

  /** `n.to_string()` for an unsigned integer. */
  function NatToString(n: nat): (s: string)
    ensures |s| > 0 && forall i :: 0 <= i < |s| ==> IsDigit(s[i])
    decreases n
  {
    if n < 10 then [DigitChar(n)] else NatToString(n / 10) + [DigitChar(n % 10)]
  }

  /** `i.to_string()` for a signed integer. */
  function IntToString(i: int): (s: string)
    ensures |s| > 0 && forall k :: 0 <= k < |s| ==> s[k] == '-' || IsDigit(s[k])
  {
    if i < 0 then "-" + NatToString(-i) else NatToString(i)
  }

  predicate AllDigits(s: string) {
    forall i :: 0 <= i < |s| ==> IsDigit(s[i])
  }

  /** The value of a string of decimal digits (leading zeros allowed). */
  function DigitsValue(s: string): nat
    requires AllDigits(s)
    decreases |s|
  {
    if |s| == 0 then 0
    else DigitsValue(s[..|s| - 1]) * 10 + (s[|s| - 1] as int - '0' as int)
  }

  /** `u32::from_str` and friends: an optional `+`, then at least one digit,
      and a value below `bound`. */
  function ParseUnsigned(s: string, bound: nat): (r: Option<nat>)
    ensures r.Some? ==> r.value < bound
  {
    var digits := if |s| > 0 && s[0] == '+' then s[1..] else s;
    if |digits| == 0 || !AllDigits(digits) then None
    else if DigitsValue(digits) < bound then Some(DigitsValue(digits))
    else None
  }

  /** `isize::from_str` and friends: an optional `+` or `-`, then at least
      one digit, and a value in `[lo, hi)`. */
  function ParseSigned(s: string, lo: int, hi: int): (r: Option<int>)
    ensures r.Some? ==> lo <= r.value < hi
  {
    var negative := |s| > 0 && s[0] == '-';
    var digits := if |s| > 0 && (s[0] == '+' || s[0] == '-') then s[1..] else s;
    if |digits| == 0 || !AllDigits(digits) then None
    else
      var v: int := if negative then 0 - DigitsValue(digits) as int else DigitsValue(digits);
      if lo <= v < hi then Some(v) else None
  }

  lemma {:induction false} DigitsValueOfNat(n: nat)
    ensures DigitsValue(NatToString(n)) == n
    decreases n
  {
    var s := NatToString(n);
    if n >= 10 {
      DigitsValueOfNat(n / 10);
      assert s[..|s| - 1] == NatToString(n / 10);
    }
  }

  /** Reading back an unsigned decimal gives the number. */
  lemma UnsignedRoundTrip(n: nat, bound: nat)
    requires n < bound
    ensures ParseUnsigned(NatToString(n), bound) == Some(n)
  {
    DigitsValueOfNat(n);
  }

  /** Reading back a signed decimal gives the number. */
  lemma SignedRoundTrip(i: int, lo: int, hi: int)
    requires lo <= i < hi
    ensures ParseSigned(IntToString(i), lo, hi) == Some(i)
  {
    var s := IntToString(i);
    if i < 0 {
      DigitsValueOfNat(-i);
      assert s[1..] == NatToString(-i);
    } else {
      DigitsValueOfNat(i);
    }
  }

  /** Decimal integers are tokens for any whitespace notion that excludes
      digits and the minus sign. */
  lemma IntIsToken(i: int, ws: char -> bool)
    requires forall c :: IsDigit(c) || c == '-' ==> !ws(c)
    ensures IsToken(IntToString(i), ws)
  {
  }
}
