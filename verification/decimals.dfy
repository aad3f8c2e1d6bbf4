/** Latency values as exact decimals. The probe prints each statistic as an
    unsigned decimal literal such as `12.345`; the cycle reads it with
    Python's `float()` and writes it back with the format `{0:.3f}`. Here a
    value is the exact number `digits / 10^scale`, reading accepts the
    unsigned literals `float()` accepts, and writing rounds to thousandths,
    halves to even, and prints exactly three digits after the point. */
module Decimals {
  import opened Wrappers
  import opened PyStr

  /** The non-negative number `digits / 10^scale`. */
  datatype Decimal = Decimal(digits: nat, scale: nat)

  function Pow10(n: nat): (r: nat)
    ensures r >= 1
  {
    if n == 0 then 1 else 10 * Pow10(n - 1)
  }

  /** `a` and `b` denote the same number. */
  predicate SameValue(a: Decimal, b: Decimal) {
    a.digits * Pow10(b.scale) == b.digits * Pow10(a.scale)
  }

  function Dist(a: int, b: int): nat {
    if a >= b then a - b else b - a
  }

  predicate IsDigit(c: char) {
    '0' <= c <= '9'
  }

  predicate AllDigits(s: string) {
    forall i :: 0 <= i < |s| ==> IsDigit(s[i])
  }

  /** The number a string of decimal digits denotes (empty denotes zero). */
  function DigitsValue(s: string): nat
    requires AllDigits(s)
  {
    if s == [] then 0 else DigitsValue(s[..|s| - 1]) * 10 + (s[|s| - 1] as int - '0' as int)
  }

  function Digit(d: nat): (c: char)
    requires d < 10
    ensures IsDigit(c) && c as int - '0' as int == d
  {
    ('0' as int + d) as char
  }

  /** Python's `str(n)` for a non-negative integer: its shortest decimal
      spelling. */
  function DecimalString(n: nat): (r: string)
    ensures |r| >= 1 && AllDigits(r)
    ensures DigitsValue(r) == n
    ensures r[0] == '0' ==> n == 0
    ensures |r| > 1 ==> r[0] != '0'
  {
    if n < 10 then [Digit(n)]
    else
      var r := DecimalString(n / 10) + [Digit(n % 10)];
      assert r[..|r| - 1] == DecimalString(n / 10);
      r
  }

  /** The three digits of `k < 1000`, padded with leading zeros. */
  function ThreeDigits(k: nat): (r: string)
    requires k < 1000
    ensures |r| == 3 && AllDigits(r)
    ensures DigitsValue(r) == k
  {
    var h, t, u := k / 100, k / 10 % 10, k % 10;
    var r1 := [Digit(h)];
    var r2 := r1 + [Digit(t)];
    var r := r2 + [Digit(u)];
    assert r1[..0] == [] && r2[..1] == r1 && r[..2] == r2;
    assert DigitsValue(r1) == h;
    assert DigitsValue(r2) == h * 10 + t;
    assert DigitsValue(r) == (h * 10 + t) * 10 + u;
    assert k == (k / 10) * 10 + u;
    assert k / 10 == h * 10 + t;
    r
  }

  /** Python's `float(s)`, restricted to unsigned decimal literals: digits
      with at most one decimal point and at least one digit (`"12"`,
      `"12.345"`, `"12."`, `".5"`). Anything else is rejected. */
  function ParseFloat(s: string): (r: Option<Decimal>)
    ensures r.Some? ==> forall i :: 0 <= i < |s| ==> IsDigit(s[i]) || s[i] == '.'
  {
    var pieces := Split(s, '.');
    if |pieces| > 2 then None
    else
      var whole := pieces[0];
      var frac := if |pieces| == 2 then pieces[1] else "";
      if |whole| + |frac| == 0 || !AllDigits(whole) || !AllDigits(frac) then None
      else
        JoinSplit(s, '.');
        Some(Decimal(DigitsValue(whole + frac), |frac|))
  }

  /** `m / d` rounded to the nearest integer, ties to the even neighbour. */
  function RoundHalfEven(m: nat, d: nat): (r: nat)
    requires d > 0
    ensures 2 * Dist(r * d, m) <= d
    ensures 2 * Dist(r * d, m) == d ==> r % 2 == 0
  {
    var q := m / d;
    DivDist(m, d, q, m % d);
    if 2 * (m % d) > d || (2 * (m % d) == d && q % 2 == 1) then q + 1 else q
  }

  /** The distances from `m` to the two multiples of `d` around it. */
  lemma DivDist(m: nat, d: nat, q: nat, rem: nat)
    requires d > 0 && m == q * d + rem && rem < d
    ensures Dist(q * d, m) == rem
    ensures Dist((q + 1) * d, m) == d - rem
  {
    assert (q + 1) * d == q * d + d;
  }

  /** The value rounded to a whole number of thousandths, as `{0:.3f}` does. */
  function Thousandths(x: Decimal): (t: nat)
    ensures 2 * Dist(t * Pow10(x.scale), x.digits * 1000) <= Pow10(x.scale)
    ensures x.scale <= 3 ==> SameValue(Decimal(t, 3), x)
  {
    if x.scale <= 3 then
      var t := x.digits * Pow10(3 - x.scale);
      ScaleUpExact(x.digits, x.scale);
      t
    else
      var t := RoundHalfEven(x.digits, Pow10(x.scale - 3));
      ScaleDownNear(x.digits, x.scale, t);
      t
  }

  lemma ScaleUpExact(m: nat, s: nat)
    requires s <= 3
    ensures m * Pow10(3 - s) * Pow10(s) == m * 1000
  {
    Pow10Add(3 - s, s);
    assert Pow10(3) == 1000;
  }

  lemma ScaleDownNear(m: nat, s: nat, t: nat)
    requires s > 3
    requires 2 * Dist(t * Pow10(s - 3), m) <= Pow10(s - 3)
    ensures 2 * Dist(t * Pow10(s), m * 1000) <= Pow10(s)
  {
    var p := Pow10(s - 3);
    Pow10Add(s - 3, 3);
    assert Pow10(3) == 1000;
    assert Pow10(s) == p * 1000;
    ScaleDist(t * p, m, 1000);
    assert t * Pow10(s) == (t * p) * 1000;
  }

  /** Python's `"{0:.3f}".format(x)` for a non-negative value: the integer
      part, a point, and exactly three digits. */
  function Format3(x: Decimal): (r: string)
    ensures |r| >= 5 && r[|r| - 4] == '.'
    ensures AllDigits(r[..|r| - 4]) && AllDigits(r[|r| - 3..])
    ensures |r| > 5 ==> r[0] != '0'
  {
    var t := Thousandths(x);
    var whole := DecimalString(t / 1000);
    var frac := ThreeDigits(t % 1000);
    var r := whole + "." + frac;
    assert r[..|r| - 4] == whole && r[|r| - 3..] == frac;
    assert r[0] == whole[0];
    r
  }

  // ---------------------------------------------------------------------
  // Lemmas

  lemma {:induction false} Pow10Add(a: nat, b: nat)
    ensures Pow10(a + b) == Pow10(a) * Pow10(b)
    decreases a
  {
    if a > 0 {
      Pow10Add(a - 1, b);
      assert Pow10(a + b) == 10 * Pow10(a - 1 + b);
    }
  }

  lemma ScaleDist(a: nat, b: nat, k: nat)
    ensures Dist(a * k, b * k) == Dist(a, b) * k
  {
    if a >= b {
      assert a * k - b * k == (a - b) * k;
    } else {
      assert b * k - a * k == (b - a) * k;
    }
  }

  /** Reading digits left to right: the value of `a + b` shifts `a` past the
      digits of `b`. */
  lemma {:induction false} DigitsValueAppend(a: string, b: string)
    requires AllDigits(a) && AllDigits(b)
    ensures AllDigits(a + b)
    ensures DigitsValue(a + b) == DigitsValue(a) * Pow10(|b|) + DigitsValue(b)
    decreases |b|
  {
    var ab := a + b;
    assert AllDigits(ab) by {
      forall i | 0 <= i < |ab| ensures IsDigit(ab[i]) {
        if i < |a| { assert ab[i] == a[i]; } else { assert ab[i] == b[i - |a|]; }
      }
    }
    if b == [] {
      assert ab == a;
    } else {
      var b' := b[..|b| - 1];
      assert ab[..|ab| - 1] == a + b';
      assert ab[|ab| - 1] == b[|b| - 1];
      assert AllDigits(b');
      DigitsValueAppend(a, b');
      var last := b[|b| - 1] as int - '0' as int;
      assert DigitsValue(ab) == DigitsValue(a + b') * 10 + last;
      assert DigitsValue(b) == DigitsValue(b') * 10 + last;
      assert Pow10(|b|) == Pow10(|b'|) * 10;
      ShiftDigits(DigitsValue(a), Pow10(|b'|), DigitsValue(b'), last);
    }
  }

  lemma ShiftDigits(v: int, p: int, w: int, last: int)
    ensures (v * p + w) * 10 + last == v * (p * 10) + (w * 10 + last)
  {
  }

  /** A digit string holds no character other than digits. */
  lemma DigitsAvoid(s: string, c: char)
    requires AllDigits(s) && !IsDigit(c)
    ensures Avoids(s, At(c))
  {
  }

  /** What `float()` accepts: an unsigned literal with a point reads as its
      digits scaled by the number of digits after the point. */
  lemma ParseFloatPoint(whole: string, frac: string)
    requires AllDigits(whole) && AllDigits(frac) && |whole| + |frac| >= 1
    ensures ParseFloat(whole + "." + frac) == Some(Decimal(DigitsValue(whole + frac), |frac|))
  {
    DigitsAvoid(whole, '.');
    DigitsAvoid(frac, '.');
    SplitOnAppend(whole, '.', frac, At('.'));
    SplitOnNone(whole, At('.'));
    SplitOnNone(frac, At('.'));
  }

  /** What `float()` accepts: a literal without a point reads as an integer. */
  lemma ParseFloatWhole(whole: string)
    requires AllDigits(whole) && |whole| >= 1
    ensures ParseFloat(whole) == Some(Decimal(DigitsValue(whole), 0))
  {
    SplitOnNone(whole, At('.'));
    assert whole + "" == whole;
  }

  /** What `float()` rejects: a literal with two decimal points. */
  lemma ParseFloatTwoPoints(a: string, b: string, c: string)
    ensures ParseFloat(a + "." + b + "." + c) == None
  {
    SplitOnAppend(a + "." + b, '.', c, At('.'));
    SplitOnAppend(a, '.', b, At('.'));
  }

  /** What `float()` rejects: the empty string (an empty `/`-part such as
      the middle of `1//2`) and a lone point. */
  lemma ParseFloatNoDigits()
    ensures ParseFloat("") == None
    ensures ParseFloat(".") == None
  {
    SplitOnAppend("", '.', "", At('.'));
    assert "" + "." + "" == ".";
  }

  /** Writing with three decimals and reading back gives the value rounded to
      thousandths. */
  lemma Format3RoundTrip(x: Decimal)
    ensures ParseFloat(Format3(x)) == Some(Decimal(Thousandths(x), 3))
  {
    var t := Thousandths(x);
    var whole := DecimalString(t / 1000);
    var frac := ThreeDigits(t % 1000);
    assert Format3(x) == whole + "." + frac;
    ParseFloatPoint(whole, frac);
    DigitsValueAppend(whole, frac);
    assert Pow10(3) == 1000;
    DivModThousand(t);
  }

  lemma DivModThousand(t: nat)
    ensures t / 1000 * 1000 + t % 1000 == t
  {
  }

  /** Rounding to thousandths moves a value by at most half a thousandth, and
      a value the probe printed with at most three decimals comes back
      unchanged. */
  lemma Format3Faithful(x: Decimal)
    ensures ParseFloat(Format3(x)).Some?
    ensures var y := ParseFloat(Format3(x)).value;
      2 * Dist(y.digits * Pow10(x.scale), x.digits * Pow10(y.scale)) <= Pow10(x.scale)
    ensures x.scale <= 3 ==> SameValue(ParseFloat(Format3(x)).value, x)
  {
    Format3RoundTrip(x);
    assert Pow10(3) == 1000;
  }

  /** `{0:.3f}` writes only digits and the decimal point. */
  lemma Format3Chars(x: Decimal)
    ensures forall i :: 0 <= i < |Format3(x)| ==> IsDigit(Format3(x)[i]) || Format3(x)[i] == '.'
  {
    var f := Format3(x);
    forall i | 0 <= i < |f| ensures IsDigit(f[i]) || f[i] == '.' {
      if i < |f| - 4 { assert f[i] == f[..|f| - 4][i]; }
      else if i > |f| - 4 { assert f[i] == f[|f| - 3..][i - (|f| - 3)]; }
    }
  }

  /** Hence it writes no separator other than a digit or the point ... */
  lemma Format3Avoids(x: Decimal, c: char)
    requires !IsDigit(c) && c != '.'
    ensures Avoids(Format3(x), At(c))
  {
    Format3Chars(x);
  }

  /** ... and no whitespace. */
  lemma Format3NoSpace(x: Decimal)
    ensures Avoids(Format3(x), AnySpace)
  {
    Format3Chars(x);
  }

  /** Writing is stable: re-formatting a value read back from its own
      three-decimal rendering gives the same text. */
  lemma Format3Stable(x: Decimal)
    ensures ParseFloat(Format3(x)).Some?
    ensures Format3(ParseFloat(Format3(x)).value) == Format3(x)
  {
    Format3RoundTrip(x);
    var y := Decimal(Thousandths(x), 3);
    assert Pow10(0) == 1;
    assert Thousandths(y) == Thousandths(x);
  }
}
