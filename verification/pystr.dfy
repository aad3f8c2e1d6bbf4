/** Python string operations that the probe cycle relies on, with Python's
    semantics written out: `str.split(sep)` keeps empty pieces, `str.split()`
    drops them, `str.strip()` trims `str.isspace` characters at both ends,
    and `sep.join(parts)` is the inverse of `split(sep)`. */
module PyStr {

  /** Python's `str.isspace()` on one character. */
  predicate IsSpace(c: char) {
    || '\t' <= c <= '\r'
    || '\U{1C}' <= c <= ' '
    || c == '\U{85}' || c == '\U{A0}' || c == '\U{1680}'
    || '\U{2000}' <= c <= '\U{200A}'
    || c == '\U{2028}' || c == '\U{2029}' || c == '\U{202F}' || c == '\U{205F}' || c == '\U{3000}'
  }

  /** Where a split cuts: at one given character, or at any whitespace. */
  datatype Separator = At(sep: char) | AnySpace {
    predicate Cuts(c: char) {
      match this
      case At(d) => c == d
      case AnySpace => IsSpace(c)
    }
  }

  /** No character of `s` is cut by `seps`. */
  predicate Avoids(s: string, seps: Separator) {
    forall i :: 0 <= i < |s| ==> !seps.Cuts(s[i])
  }

  /** Every character of `s` is whitespace. */
  predicate AllWhite(s: string) {
    forall i :: 0 <= i < |s| ==> IsSpace(s[i])
  }

  /** Cuts `s` at every character of `seps`, keeping empty pieces: Python's
      `s.split(sep)` when `seps == At(sep)`. */
  function SplitOn(s: string, seps: Separator): (r: seq<string>)
    ensures |r| >= 1
    ensures forall i :: 0 <= i < |r| ==> Avoids(r[i], seps)
    decreases |s|
  {
    if s == [] then [""]
    else
      var rest := SplitOn(s[1..], seps);
      if seps.Cuts(s[0]) then [""] + rest
      else [[s[0]] + rest[0]] + rest[1..]
  }

  /** Python's `str.split(sep)` for a one-character separator: the pieces
      hold no separator and, joined by it, give `s` back, which determines
      them. */
  function Split(s: string, sep: char): (r: seq<string>)
    ensures |r| >= 1
    ensures forall i :: 0 <= i < |r| ==> Avoids(r[i], At(sep))
    ensures Join(r, sep) == s
  {
    JoinSplit(s, sep);
    SplitOn(s, At(sep))
  }

  /** Python's `sep.join(parts)`. */
  function Join(parts: seq<string>, sep: char): string {
    if |parts| == 0 then ""
    else if |parts| == 1 then parts[0]
    else parts[0] + [sep] + Join(parts[1..], sep)
  }

  /** The pieces of `xs` that are not empty, in order. */
  function NonEmpty(xs: seq<string>): (r: seq<string>)
    ensures |r| <= |xs|
    ensures forall i :: 0 <= i < |r| ==> r[i] != "" && r[i] in xs
  {
    if xs == [] then []
    else (if xs[0] == "" then [] else [xs[0]]) + NonEmpty(xs[1..])
  }

  /** Python's `str.split()` with no argument: maximal runs of non-whitespace. */
  function Tokens(s: string): (r: seq<string>)
    ensures forall i :: 0 <= i < |r| ==> r[i] != "" && Avoids(r[i], AnySpace)
  {
    NonEmpty(SplitOn(s, AnySpace))
  }

  /** Python's `str.lstrip()`: the suffix left after dropping leading whitespace. */
  function LStrip(s: string): (r: string)
    ensures |r| <= |s| && r == s[|s| - |r|..]
    ensures AllWhite(s[..|s| - |r|])
    ensures r == [] || !IsSpace(r[0])
  {
    if s != [] && IsSpace(s[0]) then LStrip(s[1..]) else s
  }

  /** Python's `str.rstrip()`: the prefix left after dropping trailing whitespace. */
  function RStrip(s: string): (r: string)
    ensures |r| <= |s| && r == s[..|r|]
    ensures AllWhite(s[|r|..])
    ensures r == [] || !IsSpace(r[|r| - 1])
  {
    if s != [] && IsSpace(s[|s| - 1]) then
      var r := RStrip(s[..|s| - 1]);
      assert s[|r|..] == s[..|s| - 1][|r|..] + [s[|s| - 1]];
      r
    else s
  }

  /** `r` is the slice of `s` starting at `i`, with only whitespace around it. */
  predicate SliceBetweenWhite(s: string, i: int, r: string) {
    && 0 <= i <= |s| - |r| && r == s[i..i + |r|]
    && AllWhite(s[..i]) && AllWhite(s[i + |r|..])
  }

  /** Python's `str.strip()`: the slice of `s` between its leading and its
      trailing whitespace. */
  function Strip(s: string): (r: string)
    ensures exists i :: SliceBetweenWhite(s, i, r)
    ensures r != [] ==> !IsSpace(r[0])
    ensures r != [] ==> !IsSpace(r[|r| - 1])
  {
    var l := LStrip(s);
    var r := RStrip(l);
    SliceOfSuffix(s, l, r);
    r
  }

  /** A prefix `r` of a suffix `l` of `s`, with whitespace cut on both sides,
      is a slice of `s` between whitespace. */
  lemma SliceOfSuffix(s: string, l: string, r: string)
    requires |l| <= |s| && l == s[|s| - |l|..] && AllWhite(s[..|s| - |l|])
    requires |r| <= |l| && r == l[..|r|] && AllWhite(l[|r|..])
    ensures SliceBetweenWhite(s, |s| - |l|, r)
    ensures r != [] ==> r[0] == l[0]
  {
    var i := |s| - |l|;
    assert s[i + |r|..] == l[|r|..];
  }

  // ---------------------------------------------------------------------
  // Splitting and joining

  /** One step of `SplitOn`: the first character either cuts or joins the
      first piece of the rest. */
  lemma SplitOnCons(x: char, s: string, seps: Separator)
    ensures SplitOn([x] + s, seps) == PieceCons(x, seps.Cuts(x), SplitOn(s, seps))
  {
    assert ([x] + s)[0] == x && ([x] + s)[1..] == s;
  }

  /** Cutting at a separator character splits the work at that character. */
  lemma {:induction false} SplitOnAppend(a: string, c: char, b: string, seps: Separator)
    requires seps.Cuts(c)
    ensures SplitOn(a + [c] + b, seps) == SplitOn(a, seps) + SplitOn(b, seps)
    decreases |a|
  {
    if a == [] {
      assert a + [c] + b == [c] + b;
      SplitOnCons(c, b, seps);
    } else {
      var x, a' := a[0], a[1..];
      SplitOnAppend(a', c, b, seps);
      SplitOnAppendStep(x, a', c, b, seps);
      assert a + [c] + b == [x] + (a' + [c] + b);
      assert a == [x] + a';
    }
  }

  lemma SplitOnAppendStep(x: char, a: string, c: char, b: string, seps: Separator)
    requires SplitOn(a + [c] + b, seps) == SplitOn(a, seps) + SplitOn(b, seps)
    ensures SplitOn([x] + (a + [c] + b), seps) == SplitOn([x] + a, seps) + SplitOn(b, seps)
  {
    SplitOnCons(x, a + [c] + b, seps);
    SplitOnCons(x, a, seps);
    PieceConsAppend(x, seps.Cuts(x), SplitOn(a, seps), SplitOn(b, seps));
  }

  /** The first-step shape of `SplitOn`, applied to a concatenation of piece
      lists. */
  function PieceCons(x: char, cut: bool, rest: seq<string>): seq<string>
    requires |rest| >= 1
  {
    if cut then [""] + rest else [[x] + rest[0]] + rest[1..]
  }

  lemma PieceConsAppend(x: char, cut: bool, ra: seq<string>, rb: seq<string>)
    requires |ra| >= 1
    ensures PieceCons(x, cut, ra + rb) == PieceCons(x, cut, ra) + rb
  {
    if cut {
      assert [""] + (ra + rb) == ([""] + ra) + rb;
    } else {
      assert (ra + rb)[0] == ra[0];
      assert (ra + rb)[1..] == ra[1..] + rb;
      var h := [[x] + ra[0]];
      assert h + (ra[1..] + rb) == (h + ra[1..]) + rb;
    }
  }

  /** A string without separators is a single piece. */
  lemma {:induction false} SplitOnNone(s: string, seps: Separator)
    requires Avoids(s, seps)
    ensures SplitOn(s, seps) == [s]
    decreases |s|
  {
    if s != [] {
      SplitOnNone(s[1..], seps);
      assert [s[0]] + s[1..] == s;
    }
  }

  /** Joining pieces that avoid the separators and splitting again gives the
      pieces back. */
  lemma {:induction false} SplitOnJoin(parts: seq<string>, sep: char, seps: Separator)
    requires seps.Cuts(sep)
    requires |parts| >= 1
    requires forall i :: 0 <= i < |parts| ==> Avoids(parts[i], seps)
    ensures SplitOn(Join(parts, sep), seps) == parts
    decreases |parts|
  {
    if |parts| == 1 {
      SplitOnNone(parts[0], seps);
    } else {
      SplitOnAppend(parts[0], sep, Join(parts[1..], sep), seps);
      SplitOnNone(parts[0], seps);
      SplitOnJoin(parts[1..], sep, seps);
      assert [parts[0]] + parts[1..] == parts;
    }
  }

  /** Four separator-free pieces joined by the separator split back apart. */
  lemma SplitFour(a: string, b: string, c: string, d: string, sep: char)
    requires Avoids(a, At(sep)) && Avoids(b, At(sep)) && Avoids(c, At(sep)) && Avoids(d, At(sep))
    ensures Split(a + [sep] + b + [sep] + c + [sep] + d, sep) == [a, b, c, d]
  {
    SplitOnAppend(a + [sep] + b + [sep] + c, sep, d, At(sep));
    SplitOnAppend(a + [sep] + b, sep, c, At(sep));
    SplitOnAppend(a, sep, b, At(sep));
    SplitOnNone(a, At(sep));
    SplitOnNone(b, At(sep));
    SplitOnNone(c, At(sep));
    SplitOnNone(d, At(sep));
  }

  /** `sep.join(s.split(sep)) == s`, one half of the round trip. */
  lemma {:induction false} JoinSplit(s: string, sep: char)
    ensures Join(SplitOn(s, At(sep)), sep) == s
    decreases |s|
  {
    if s != [] {
      JoinSplit(s[1..], sep);
      var rest := SplitOn(s[1..], At(sep));
      if s[0] == sep {
        assert SplitOn(s, At(sep)) == [""] + rest;
        assert ([""] + rest)[1..] == rest;
      } else {
        JoinConsHead(s[0], rest, sep);
        assert [s[0]] + s[1..] == s;
      }
    }
  }

  /** `s.split(sep)` followed by `sep.join` is the identity on lists of
      separator-free pieces, the other half of the round trip. */
  lemma SplitJoin(parts: seq<string>, sep: char)
    requires |parts| >= 1
    requires forall i :: 0 <= i < |parts| ==> Avoids(parts[i], At(sep))
    ensures Split(Join(parts, sep), sep) == parts
  {
    SplitOnJoin(parts, sep, At(sep));
  }

  lemma JoinConsHead(c: char, parts: seq<string>, sep: char)
    requires |parts| >= 1
    ensures Join([[c] + parts[0]] + parts[1..], sep) == [c] + Join(parts, sep)
  {
    var q := [[c] + parts[0]] + parts[1..];
    assert q[1..] == parts[1..];
  }

  /** Joining five pieces writes the separator between neighbours. */
  lemma JoinFive(a: string, b: string, c: string, d: string, e: string, sep: char)
    ensures Join([a, b, c, d, e], sep) == a + [sep] + b + [sep] + c + [sep] + d + [sep] + e
  {
    var f := [a, b, c, d, e];
    assert f[1..] == [b, c, d, e] && f[1..][1..] == [c, d, e];
    assert f[1..][1..][1..] == [d, e] && f[1..][1..][1..][1..] == [e];
    var j3 := Join([d, e], sep);
    assert [d, e][1..] == [e];
    assert Join([e], sep) == e;
    assert j3 == d + [sep] + e;
    var j2 := Join([c, d, e], sep);
    assert j2 == c + [sep] + j3;
    var j1 := Join([b, c, d, e], sep);
    assert j1 == b + [sep] + j2;
  }

  /** Joining with a separator `seps` does not cut introduces nothing it
      cuts. */
  lemma {:induction false} JoinAvoids(parts: seq<string>, sep: char, seps: Separator)
    requires !seps.Cuts(sep)
    requires forall i :: 0 <= i < |parts| ==> Avoids(parts[i], seps)
    ensures Avoids(Join(parts, sep), seps)
    decreases |parts|
  {
    if |parts| > 1 {
      JoinAvoids(parts[1..], sep, seps);
      ConcatAvoids(parts[0], [sep], seps);
      ConcatAvoids(parts[0] + [sep], Join(parts[1..], sep), seps);
    }
  }

  /** Text that avoids `seps` on both sides of a concatenation avoids it
      throughout. */
  lemma ConcatAvoids(a: string, b: string, seps: Separator)
    requires Avoids(a, seps) && Avoids(b, seps)
    ensures Avoids(a + b, seps)
  {
    forall k | 0 <= k < |a + b| ensures !seps.Cuts((a + b)[k]) {
      if k < |a| { assert (a + b)[k] == a[k]; } else { assert (a + b)[k] == b[k - |a|]; }
    }
  }

  /** Text free of whitespace holds no line break. */
  lemma NoSpaceNoBreak(s: string)
    requires Avoids(s, AnySpace)
    ensures Avoids(s, At('\n'))
  {
    forall k | 0 <= k < |s| ensures s[k] != '\n' {
      assert !IsSpace(s[k]);
    }
  }

  // ---------------------------------------------------------------------
  // Whitespace tokens

  lemma {:induction false} NonEmptyAppend(a: seq<string>, b: seq<string>)
    ensures NonEmpty(a + b) == NonEmpty(a) + NonEmpty(b)
    decreases |a|
  {
    if a != [] {
      var h := if a[0] == "" then [] else [a[0]];
      assert (a + b)[0] == a[0] && (a + b)[1..] == a[1..] + b;
      NonEmptyAppend(a[1..], b);
      assert NonEmpty(a + b) == h + (NonEmpty(a[1..]) + NonEmpty(b));
      assert h + (NonEmpty(a[1..]) + NonEmpty(b)) == (h + NonEmpty(a[1..])) + NonEmpty(b);
    } else {
      assert a + b == b;
    }
  }

  lemma {:induction false} NonEmptyKeepsAll(xs: seq<string>)
    requires forall i :: 0 <= i < |xs| ==> xs[i] != ""
    ensures NonEmpty(xs) == xs
    decreases |xs|
  {
    if xs != [] {
      NonEmptyKeepsAll(xs[1..]);
      assert [xs[0]] + xs[1..] == xs;
    }
  }

  lemma TokensTrailingSpace(s: string, c: char)
    requires IsSpace(c)
    ensures Tokens(s + [c]) == Tokens(s)
  {
    SplitOnAppend(s, c, [], AnySpace);
    assert s + [c] + [] == s + [c];
    NonEmptyAppend(SplitOn(s, AnySpace), [""]);
  }

  /** Leading whitespace does not change `split()`. */
  lemma {:induction false} TokensLStrip(s: string)
    ensures Tokens(LStrip(s)) == Tokens(s)
    decreases |s|
  {
    if s != [] && IsSpace(s[0]) {
      TokensLStrip(s[1..]);
      assert SplitOn(s, AnySpace) == [""] + SplitOn(s[1..], AnySpace);
      NonEmptyAppend([""], SplitOn(s[1..], AnySpace));
    }
  }

  /** Trailing whitespace does not change `split()`. */
  lemma {:induction false} TokensRStrip(s: string)
    ensures Tokens(RStrip(s)) == Tokens(s)
    decreases |s|
  {
    if s != [] && IsSpace(s[|s| - 1]) {
      var p := s[..|s| - 1];
      TokensRStrip(p);
      assert p + [s[|s| - 1]] == s;
      TokensTrailingSpace(p, s[|s| - 1]);
    }
  }

  /** `s.strip().split() == s.split()`. */
  lemma TokensStrip(s: string)
    ensures Tokens(Strip(s)) == Tokens(s)
  {
    TokensLStrip(s);
    TokensRStrip(LStrip(s));
  }

  /** Words free of whitespace, joined by single spaces, are exactly the
      tokens `split()` returns, in order. */
  lemma TokensJoin(ws: seq<string>)
    requires |ws| >= 1
    requires forall i :: 0 <= i < |ws| ==> ws[i] != "" && Avoids(ws[i], AnySpace)
    ensures Tokens(Join(ws, ' ')) == ws
  {
    SplitOnJoin(ws, ' ', AnySpace);
    NonEmptyKeepsAll(ws);
  }

  /** A whitespace character ends one run: the tokens of `a + [c] + b` are
      those of `a` followed by those of `b`. */
  lemma TokensAtSpace(a: string, c: char, b: string)
    requires IsSpace(c)
    ensures Tokens(a + [c] + b) == Tokens(a) + Tokens(b)
  {
    SplitOnAppend(a, c, b, AnySpace);
    NonEmptyAppend(SplitOn(a, AnySpace), SplitOn(b, AnySpace));
  }

  /** A string without whitespace is one token, or none when it is empty;
      a string of whitespace only has no tokens. */
  lemma TokensOfRun(s: string)
    ensures Avoids(s, AnySpace) ==> Tokens(s) == (if s == "" then [] else [s])
    ensures AllWhite(s) ==> Tokens(s) == []
  {
    if Avoids(s, AnySpace) {
      SplitOnNone(s, AnySpace);
      assert NonEmpty([s]) == (if s == "" then [] else [s]) + NonEmpty([]);
    }
    if AllWhite(s) {
      TokensLStrip(s);
      assert LStrip(s) == [];
      assert Tokens([]) == [];
    }
  }

  // ---------------------------------------------------------------------
  // Stripping around a line break

  /** Once `a` holds a non-whitespace character, text after it is untouched
      by `lstrip`. */
  lemma {:induction false} LStripConcat(a: string, b: string)
    requires !AllWhite(a)
    ensures LStrip(a + b) == LStrip(a) + b
    decreases |a|
  {
    assert a != [];
    assert (a + b)[0] == a[0];
    if IsSpace(a[0]) {
      assert (a + b)[1..] == a[1..] + b;
      NotAllWhiteTail(a);
      LStripConcat(a[1..], b);
    }
  }

  /** Leading text made only of whitespace disappears under `lstrip`. */
  lemma {:induction false} LStripWhitePrefix(a: string, b: string)
    requires AllWhite(a)
    ensures LStrip(a + b) == LStrip(b)
    decreases |a|
  {
    if a == [] {
      assert a + b == b;
    } else {
      assert (a + b)[0] == a[0];
      assert (a + b)[1..] == a[1..] + b;
      LStripWhitePrefix(a[1..], b);
    }
  }

  /** Once `b` holds a non-whitespace character, text before it is untouched
      by `rstrip`. */
  lemma {:induction false} RStripConcat(a: string, b: string)
    requires !AllWhite(b)
    ensures RStrip(a + b) == a + RStrip(b)
    decreases |b|
  {
    assert b != [];
    var ab := a + b;
    assert ab[|ab| - 1] == b[|b| - 1];
    if IsSpace(b[|b| - 1]) {
      var b' := b[..|b| - 1];
      assert ab[..|ab| - 1] == a + b';
      NotAllWhiteInit(b);
      RStripConcat(a, b');
    }
  }

  /** Trailing whitespace disappears under `rstrip`. */
  lemma {:induction false} RStripWhiteSuffix(a: string, w: string)
    requires AllWhite(w)
    ensures RStrip(a + w) == RStrip(a)
    decreases |w|
  {
    if w == [] {
      assert a + w == a;
    } else {
      var aw, w' := a + w, w[..|w| - 1];
      assert aw[|aw| - 1] == w[|w| - 1];
      assert aw[..|aw| - 1] == a + w';
      assert AllWhite(w') by {
        forall i | 0 <= i < |w'| ensures IsSpace(w'[i]) {
          assert w'[i] == w[i];
        }
      }
      RStripWhiteSuffix(a, w');
    }
  }

  /** Whitespace appended to a string does not change what `strip()`
      keeps: `(s + w).strip() == s.strip()`. */
  lemma StripTrailingWhite(s: string, w: string)
    requires AllWhite(w)
    ensures Strip(s + w) == Strip(s)
  {
    if AllWhite(s) {
      LStripWhitePrefix(s, w);
      assert s + [] == s;
      LStripWhitePrefix(s, []);
      assert LStrip(w) == [] && LStrip(s) == [];
    } else {
      LStripConcat(s, w);
      RStripWhiteSuffix(LStrip(s), w);
    }
  }

  lemma NotAllWhiteTail(a: string)
    requires !AllWhite(a) && IsSpace(a[0])
    ensures !AllWhite(a[1..])
  {
    var i :| 0 <= i < |a| && !IsSpace(a[i]);
    assert a[1..][i - 1] == a[i];
  }

  lemma NotAllWhiteInit(b: string)
    requires !AllWhite(b) && IsSpace(b[|b| - 1])
    ensures !AllWhite(b[..|b| - 1])
  {
    var i :| 0 <= i < |b| && !IsSpace(b[i]);
    assert b[..|b| - 1][i] == b[i];
  }
}
