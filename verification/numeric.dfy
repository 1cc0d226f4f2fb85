/** Numbers as the parsers see them: digit strings, Python `float()` and
    `Fraction()` on numeral text, `round(x, k)`, and `repr` of the result.
    A Python float is represented by the exact decimal it prints as. */
module Numeric {
  import opened Text
  import opened Wrappers
  import opened Rounding

  function Pow10(k: nat): (r: nat)
    ensures r >= 1
  {
    if k == 0 then 1 else 10 * Pow10(k - 1)
  }

  /** The non-negative decimal `digits / 10^scale`. */
  datatype Decimal = Decimal(digits: nat, scale: nat)

  /** No trailing zero after the decimal point: one representation per value. */
  predicate Canonical(d: Decimal)
  {
    d.scale == 0 || d.digits % 10 != 0
  }

  predicate SameValue(a: Decimal, b: Decimal)
  {
    a.digits * Pow10(b.scale) == b.digits * Pow10(a.scale)
  }

  /** Drops trailing zeros after the point; the value is unchanged. */
  function Canonicalise(d: Decimal): (r: Decimal)
    ensures Canonical(r)
    ensures SameValue(r, d)
    ensures r.scale <= d.scale
    decreases d.scale
  {
    if d.scale > 0 && d.digits % 10 == 0 then
      var r := Canonicalise(Decimal(d.digits / 10, d.scale - 1));
      ShedZero(d.digits, d.scale, r.digits, Pow10(r.scale));
      r
    else d
  }

  /** Dropping a trailing zero and one place of scale keeps the value. */
  lemma ShedZero(x: nat, s: nat, rd: nat, p: nat)
    requires s > 0 && x % 10 == 0
    requires rd * Pow10(s - 1) == (x / 10) * p
    ensures rd * Pow10(s) == x * p
  {
    var q := Pow10(s - 1);
    assert Pow10(s) == 10 * q;
    assert x == 10 * (x / 10);
    assert rd * (10 * q) == 10 * (rd * q);
    assert x * p == 10 * ((x / 10) * p);
  }

  function DigitValue(c: char): nat
    requires IsDigit(c)
  {
    c as nat - '0' as nat
  }

  function DigitChar(n: nat): (c: char)
    requires n < 10
    ensures IsDigit(c) && DigitValue(c) == n
  {
    ('0' as nat + n) as char
  }

  /** The value of a string of decimal digits (Python `int(s)`; 0 for ""). */
  function DigitsValue(s: string): nat
    requires AllDigits(s)
  {
    if s == [] then 0 else DigitsValue(s[..|s| - 1]) * 10 + DigitValue(s[|s| - 1])
  }

  lemma {:induction false} DigitsValueAppend(a: string, b: string)
    requires AllDigits(a) && AllDigits(b)
    ensures AllDigits(a + b)
    ensures DigitsValue(a + b) == DigitsValue(a) * Pow10(|b|) + DigitsValue(b)
    decreases |b|
  {
    AllDigitsConcat(a, b);
    if b == [] {
      assert a + b == a;
    } else {
      var b' := b[..|b| - 1];
      var c := b[|b| - 1];
      assert (a + b)[..|a + b| - 1] == a + b';
      assert (a + b)[|a + b| - 1] == c;
      DigitsValueAppend(a, b');
      ShiftDigit(DigitsValue(a), DigitsValue(b'), Pow10(|b'|), DigitValue(c));
    }
  }

  lemma AllDigitsConcat(a: string, b: string)
    requires AllDigits(a) && AllDigits(b)
    ensures AllDigits(a + b)
  {
    forall k | 0 <= k < |a + b| ensures IsDigit((a + b)[k]) {
      if k < |a| { assert (a + b)[k] == a[k]; } else { assert (a + b)[k] == b[k - |a|]; }
    }
  }

  /** Appending one digit to `b` in `x * 10^|b| + b`. */
  lemma ShiftDigit(x: nat, y: nat, p: nat, v: nat)
    ensures (x * p + y) * 10 + v == x * (10 * p) + (y * 10 + v)
  {
  }

  /** Python `str(n)` for a non-negative int. */
  function NatToDigits(n: nat): (s: string)
    ensures |s| > 0 && AllDigits(s)
    ensures DigitsValue(s) == n
  {
    if n < 10 then [DigitChar(n)]
    else
      var s := NatToDigits(n / 10) + [DigitChar(n % 10)];
      assert s[..|s| - 1] == NatToDigits(n / 10);
      s
  }

  /** The `w` low-order decimal digits of `n`, zero padded. */
  function PadDigits(n: nat, w: nat): (s: string)
    requires n < Pow10(w)
    ensures |s| == w && AllDigits(s)
    ensures DigitsValue(s) == n
  {
    if w == 0 then []
    else
      var s := PadDigits(n / 10, w - 1) + [DigitChar(n % 10)];
      assert s[..|s| - 1] == PadDigits(n / 10, w - 1);
      s
  }

  /** `s` reads a digit string, a '.' at `i` and a digit string, with at least
      one digit on some side: the shapes `digits.`, `.digits` and
      `digits.digits` that `float()` accepts. */
  predicate DotAt(s: string, i: nat)
  {
    i < |s| && s[i] == '.' && AllDigits(s[..i]) && AllDigits(s[i + 1..]) && |s| > 1
  }

  /** The value `a.b` of such a shape: the digits of `ab` over 10 to the power
      of the length of `b`. */
  function DotValue(s: string, i: nat): Decimal
    requires DotAt(s, i)
  {
    Decimal(DigitsValue(s[..i]) * Pow10(|s| - i - 1) + DigitsValue(s[i + 1..]), |s| - i - 1)
  }

  /** Digits cannot hold a '.', so the point of such a shape is the first '.'. */
  lemma DotIsFirst(s: string)
    ensures forall i: nat | DotAt(s, i) :: Find(s, ".") == i
  {
    forall i: nat | DotAt(s, i) ensures Find(s, ".") == i {
      assert OccursAt(s, ".", i) by { assert s[i..i + 1] == [s[i]]; }
      forall k | 0 <= k < i ensures !OccursAt(s, ".", k) {
        assert s[..i][k] == s[k];
        assert s[k..k + 1][0] == s[k];
      }
    }
  }

  /** Python `float(s)` for numeral text drawn from digits, '.' and CJK numerals:
      accepted exactly when `s` is `digits`, `digits.`, `.digits` or `digits.digits`,
      with the value of the digits read as `a.b`. */
  function ParseFloat(s: string): (r: Option<Decimal>)
    ensures r.Some? ==> Canonical(r.value)
    ensures r.Some? ==> |s| > 0 && forall k | 0 <= k < |s| :: IsDigit(s[k]) || s[k] == '.'
    ensures r.Some? <==> (|s| > 0 && AllDigits(s)) || exists i: nat :: DotAt(s, i)
    ensures |s| > 0 && AllDigits(s) ==> r == Some(Decimal(DigitsValue(s), 0))
    ensures forall i: nat | DotAt(s, i) :: r.Some? && SameValue(r.value, DotValue(s, i))
  {
    DotIsFirst(s);
    var dot := Find(s, ".");
    if dot < 0 then
      if |s| > 0 && AllDigits(s) then Some(Decimal(DigitsValue(s), 0)) else None
    else
      assert s[dot] == '.' by { assert s[dot..dot + 1][0] == s[dot]; }
      assert !IsDigit(s[dot]);
      DottedFloat(s, dot)
  }

  /** `float()` of text whose first '.' is at `dot`: digits (possibly none) on
      each side, not both sides empty. */
  function DottedFloat(s: string, dot: nat): (r: Option<Decimal>)
    requires dot < |s| && s[dot] == '.'
    ensures r.Some? ==> Canonical(r.value)
    ensures r.Some? ==> forall k | 0 <= k < |s| :: IsDigit(s[k]) || s[k] == '.'
    ensures r.Some? <==> DotAt(s, dot)
    ensures DotAt(s, dot) ==> r.Some? && SameValue(r.value, DotValue(s, dot))
  {
    var a := s[..dot];
    var b := s[dot + 1..];
    if AllDigits(a) && AllDigits(b) && |a| + |b| > 0 then
      assert s == a + "." + b;
      DotSplitChars(s, dot);
      DigitsValueAppend(a, b);
      Some(Canonicalise(Decimal(DigitsValue(a + b), |b|)))
    else None
  }

  /** Digits on both sides of a '.' leave only digits and that '.'. */
  lemma DotSplitChars(s: string, dot: nat)
    requires dot < |s| && s[dot] == '.' && AllDigits(s[..dot]) && AllDigits(s[dot + 1..])
    ensures forall k | 0 <= k < |s| :: IsDigit(s[k]) || s[k] == '.'
  {
    forall k | 0 <= k < |s| ensures IsDigit(s[k]) || s[k] == '.' {
      if k < dot {
        assert s[..dot][k] == s[k];
      } else if k > dot {
        assert s[dot + 1..][k - dot - 1] == s[k];
      }
    }
  }

  /** `s` reads a non-empty digit string, a '/' at `p`, and a non-empty digit string. */
  predicate SlashAt(s: string, p: nat)
  {
    0 < p && p + 1 < |s| && s[p] == '/' && AllDigits(s[..p]) && AllDigits(s[p + 1..])
  }

  /** Digits cannot hold a '/', so a slash split is the first '/' of the text. */
  lemma SlashIsFirst(s: string, p: nat)
    requires SlashAt(s, p)
    ensures Find(s, "/") == p
  {
    assert OccursAt(s, "/", p) by { assert s[p..p + 1] == [s[p]]; }
    forall k | 0 <= k < p ensures !OccursAt(s, "/", k) {
      assert s[..p][k] == s[k];
      assert s[k..k + 1][0] == s[k];
    }
  }

  lemma SlashSplitUnique(s: string)
    ensures forall p: nat | SlashAt(s, p) :: Find(s, "/") == p
  {
    forall p: nat | SlashAt(s, p) ensures Find(s, "/") == p {
      SlashIsFirst(s, p);
    }
  }

  /** Python `Fraction(s)` for numeral text: only `digits/digits` is read as a
      fraction, and a zero denominator raises ZeroDivisionError; any other text is
      a ValueError, reported as `Ok(None)`. */
  function ParseFraction(s: string): (r: Result<Option<(nat, nat)>>)
    ensures r.Raise? ==> r.error == ZeroDivisionError
    ensures r == Ok(None) <==> forall p | 0 <= p < |s| :: !SlashAt(s, p)
    ensures forall p: nat | SlashAt(s, p) ::
              && (r.Raise? <==> DigitsValue(s[p + 1..]) == 0)
              && (r.Ok? ==> r.value == Some((DigitsValue(s[..p]), DigitsValue(s[p + 1..]))))
  {
    SlashSplitUnique(s);
    var slash := Find(s, "/");
    if slash < 0 then Ok(None)
    else
      var a := s[..slash];
      var b := s[slash + 1..];
      if |a| > 0 && |b| > 0 && AllDigits(a) && AllDigits(b) then
        assert OccursAt(s, "/", slash);
        assert s[slash] == '/' by { assert s[slash..slash + 1][0] == s[slash]; }
        assert SlashAt(s, slash);
        if DigitsValue(b) == 0 then Raise(ZeroDivisionError)
        else Ok(Some((DigitsValue(a), DigitsValue(b))))
      else Ok(None)
  }

  /** `d` counted in units of `10^-k`, when it has at most `k` places. */
  function ScaledTo(d: Decimal, k: nat): nat
    requires d.scale <= k
  {
    d.digits * Pow10(k - d.scale)
  }

  lemma {:induction false} Pow10Add(a: nat, b: nat)
    ensures Pow10(a + b) == Pow10(a) * Pow10(b)
    decreases b
  {
    if b > 0 {
      Pow10Add(a, b - 1);
      assert Pow10(a + b) == 10 * Pow10(a + b - 1);
    }
  }

  lemma Regroup(x: int, q: int, p: int)
    ensures x * (q * p) == (x * p) * q
  {
  }

  lemma MulCancel(x: int, y: int, c: int)
    requires c > 0 && x * c == y * c
    ensures x == y
  {
    assert (x - y) * c == 0;
    if x != y { MulSign(x - y, c); }
  }

  /** A canonical form of `m / 10^k` counts `m` units of `10^-k`. */
  lemma CanonicalUnits(m: nat, k: nat)
    ensures Canonicalise(Decimal(m, k)).scale <= k
    ensures ScaledTo(Canonicalise(Decimal(m, k)), k) == m
  {
    var r := Canonicalise(Decimal(m, k));
    Pow10Add(r.scale, k - r.scale);
    var p := Pow10(k - r.scale);
    var q := Pow10(r.scale);
    assert r.digits * (q * p) == m * q;
    Regroup(r.digits, q, p);
    MulCancel(r.digits * p, m, q);
  }

  /** Python `round(n / d, k)` as an exact decimal: the nearest multiple of
      `10^-k`, a tie going to the even one. */
  function Round(n: nat, d: nat, k: nat): (r: Decimal)
    requires d > 0
    ensures Canonical(r) && r.scale <= k
    ensures NearestUnits(n * Pow10(k), d, ScaledTo(r, k))
  {
    CanonicalUnits(RoundUnits(n * Pow10(k), d), k);
    Canonicalise(Decimal(RoundUnits(n * Pow10(k), d), k))
  }

  /** At most one whole number of units is nearest, so `Round` is the only
      value meeting its contract. */
  lemma NearestUnique(x: int, d: int, a: int, b: int)
    requires d > 0 && NearestUnits(x, d, a) && NearestUnits(x, d, b)
    ensures a == b
  {
    assert (a - b) * d == (a * d - x) - (b * d - x);
    WithinOneUnit(a - b, d);
  }

  /** A multiple of `d` between `-d` and `d` is at most one `d`. */
  lemma WithinOneUnit(c: int, d: int)
    requires d > 0 && -d <= c * d <= d
    ensures -1 <= c <= 1
  {
    MulSign(c - 1, d);
    MulSign(c + 1, d);
    assert (c - 1) * d == c * d - d;
    assert (c + 1) * d == c * d + d;
  }

  /** `Round` picks exactly the nearest number of units. */
  lemma RoundIsNearest(n: nat, d: nat, k: nat, m: int)
    requires d > 0 && NearestUnits(n * Pow10(k), d, m)
    ensures ScaledTo(Round(n, d, k), k) == m
  {
    NearestUnique(n * Pow10(k), d, ScaledTo(Round(n, d, k), k), m);
  }

  /** A value that is a whole number of units is returned unchanged by rounding. */
  lemma RoundExact(m: nat, d: nat)
    requires d > 0
    ensures RoundUnits(m * d, d) == m
  {
    var r := RoundUnits(m * d, d);
    assert r * d - m * d == (r - m) * d;
    OnlyZeroMultiple(r - m, d);
  }

  /** The only multiple of `d` within half of `d` of zero is zero. */
  lemma OnlyZeroMultiple(k: int, d: int)
    requires d > 0 && -d <= 2 * (k * d) <= d
    ensures k == 0
  {
    MulSign(k, d);
  }

  lemma MulSign(k: int, d: int)
    requires d > 0
    ensures k >= 1 ==> k * d >= d
    ensures k <= -1 ==> k * d <= -d
  {
  }

  /** Python `repr(x)` of a float holding the canonical decimal `d` (below 1e16,
      where repr does not switch to exponent notation). */
  function DecimalText(d: Decimal): (s: string)
    requires Canonical(d)
    ensures |s| > 0
  {
    var qr := QuotRem(d.digits, Pow10(d.scale));
    var whole := NatToDigits(qr.0);
    if d.scale == 0 then whole + ".0"
    else whole + "." + PadDigits(qr.1, d.scale)
  }

  /** `float()` of `a.b` with both sides non-empty digit strings. */
  lemma {:induction false} ParseDotted(a: string, b: string)
    requires |a| > 0 && |b| > 0 && AllDigits(a) && AllDigits(b)
    ensures ParseFloat(a + "." + b)
            == Some(Canonicalise(Decimal(DigitsValue(a) * Pow10(|b|) + DigitsValue(b), |b|)))
  {
    var s := a + "." + b;
    assert OccursAt(s, ".", |a|);
    forall k | 0 <= k < |a| ensures !OccursAt(s, ".", k) {
      assert s[k] == a[k];
      assert s[k..k + 1][0] == s[k];
    }
    assert Find(s, ".") == |a|;
    assert s[..|a|] == a;
    assert s[|a| + 1..] == b;
    DigitsValueAppend(a, b);
  }

  lemma TenthsOfWhole(n: nat)
    ensures Canonicalise(Decimal(n * 10, 1)) == Decimal(n, 0)
  {
    assert (n * 10) % 10 == 0 && (n * 10) / 10 == n;
  }

  lemma {:induction false} WholeTextRoundTrip(d: Decimal)
    requires d.scale == 0
    ensures ParseFloat(DecimalText(d)) == Some(d)
  {
    var a := NatToDigits(d.digits);
    WholeText(d);
    assert DigitsValue("0") == 0 by { assert "0"[..0] == []; }
    ParseDotted(a, "0");
    assert Pow10(1) == 10;
    assert DigitsValue(a) * Pow10(1) + DigitsValue("0") == d.digits * 10;
    TenthsOfWhole(d.digits);
  }

  lemma WholeText(d: Decimal)
    requires d.scale == 0
    ensures DecimalText(d) == NatToDigits(d.digits) + "." + "0"
  {
    var qr := QuotRem(d.digits, 1);
    assert qr.0 == d.digits;
  }

  lemma {:induction false} FractionTextRoundTrip(d: Decimal)
    requires d.scale > 0 && Canonical(d)
    ensures ParseFloat(DecimalText(d)) == Some(d)
  {
    var qr := QuotRem(d.digits, Pow10(d.scale));
    var a := NatToDigits(qr.0);
    var b := PadDigits(qr.1, d.scale);
    assert DecimalText(d) == a + "." + b;
    FractionDigits(a, b, d);
  }

  /** The integer and fraction digits of a canonical decimal read back as it. */
  lemma FractionDigits(a: string, b: string, d: Decimal)
    requires |a| > 0 && |b| > 0 && AllDigits(a) && AllDigits(b) && Canonical(d)
    requires d.scale == |b| && d.digits == DigitsValue(a) * Pow10(|b|) + DigitsValue(b)
    ensures ParseFloat(a + "." + b) == Some(d)
  {
    ParseDotted(a, b);
    assert Decimal(DigitsValue(a) * Pow10(|b|) + DigitsValue(b), |b|) == d;
  }

  /** Printing a float and reading it back with `float()` gives the same value. */
  lemma DecimalTextRoundTrip(d: Decimal)
    requires Canonical(d)
    ensures ParseFloat(DecimalText(d)) == Some(d)
  {
    if d.scale == 0 {
      WholeTextRoundTrip(d);
    } else {
      FractionTextRoundTrip(d);
    }
  }
}
