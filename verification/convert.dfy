/** How the parsers turn a captured numeral group into a quantity: `float()` or
    `Fraction()`, then `round`, with a ValueError keeping the text and a
    ZeroDivisionError escaping to the caller. */
module Convert {
  import opened Wrappers
  import opened Text
  import opened Rounding
  import opened Numeric
  import opened Records
  import opened Lexicon

  /** Python `round(x, k)` of the float holding the decimal `d`. */
  function RoundTo(d: Decimal, k: nat): (r: Decimal)
    ensures Canonical(r) && r.scale <= k
    ensures NearestUnits(d.digits * Pow10(k), Pow10(d.scale), ScaledTo(r, k))
  {
    Round(d.digits, Pow10(d.scale), k)
  }

  lemma MulAssoc(a: nat, b: nat, c: nat)
    ensures a * (b * c) == (a * b) * c
  {
  }

  lemma TimesTen(x: nat)
    ensures (x * 10) % 10 == 0 && (x * 10) / 10 == x
  {
  }

  /** Appending `j` zeros after the point does not change the canonical form. */
  lemma {:induction false} CanonicaliseShift(n: nat, s: nat, j: nat)
    ensures Canonicalise(Decimal(n * Pow10(j), s + j)) == Canonicalise(Decimal(n, s))
    decreases j
  {
    if j > 0 {
      var x := n * Pow10(j - 1);
      assert Pow10(j) == Pow10(j - 1) * 10;
      assert n * Pow10(j) == x * 10 by { MulAssoc(n, Pow10(j - 1), 10); }
      TimesTen(x);
      CanonicaliseShift(n, s, j - 1);
    }
  }

  /** Rounding to at least as many places as a value has leaves it unchanged. */
  lemma RoundToExact(d: Decimal, k: nat)
    requires Canonical(d) && d.scale <= k
    ensures RoundTo(d, k) == d
  {
    var p := Pow10(d.scale);
    var j := k - d.scale;
    Pow10Add(d.scale, j);
    var m := d.digits * Pow10(j);
    assert d.digits * Pow10(k) == m * p;
    RoundExact(m, p);
    CanonicaliseShift(d.digits, d.scale, j);
    assert d.scale + j == k;
  }

  /** `try: round(float(q), k) except ValueError: q`: the text is kept exactly
      when `float()` rejects it; otherwise the value is the float rounded to the
      nearest `k`-place decimal, and a digit string is its own value. */
  function FloatOrText(q: string, k: nat): (r: Quantity)
    ensures r.Text? || r.Num?
    ensures r.Text? <==> ParseFloat(q).None?
    ensures r.Text? ==> r.text == q
    ensures r.Num? ==> Canonical(r.value) && r.value.scale <= k
    ensures r.Num? ==> var v := ParseFloat(q).value;
              NearestUnits(v.digits * Pow10(k), Pow10(v.scale), ScaledTo(r.value, k))
    ensures |q| > 0 && AllDigits(q) ==> r == Num(Decimal(DigitsValue(q), 0))
  {
    match ParseFloat(q)
    case Some(d) =>
      if |q| > 0 && AllDigits(q) then RoundToExact(d, k); Num(RoundTo(d, k))
      else Num(RoundTo(d, k))
    case None => Text(q)
  }

  /** A float printed with at most `k` places reads back unchanged. */
  lemma FloatOrTextOfPrinted(d: Decimal, k: nat)
    requires Canonical(d) && d.scale <= k
    ensures FloatOrText(DecimalText(d), k) == Num(d)
  {
    DecimalTextRoundTrip(d);
    RoundToExact(d, k);
  }

  /** `try: round(float(Fraction(q)), k) except ValueError: q`: `digits/digits`
      gives the quotient rounded to the nearest `k`-place decimal, a zero
      denominator raises ZeroDivisionError (not caught), and any other text is
      kept. */
  function FractionOrText(q: string, k: nat): (r: Result<Quantity>)
    ensures r.Raise? ==> r.error == ZeroDivisionError
    ensures (forall p | 0 <= p < |q| :: !SlashAt(q, p)) ==> r == Ok(Text(q))
    ensures forall p: nat | SlashAt(q, p) ::
              && (r.Raise? <==> DigitsValue(q[p + 1..]) == 0)
              && (r.Ok? ==> r.value.Num? && Canonical(r.value.value) && r.value.value.scale <= k)
              && (r.Ok? ==> NearestUnits(DigitsValue(q[..p]) * Pow10(k), DigitsValue(q[p + 1..]), ScaledTo(r.value.value, k)))
  {
    match ParseFraction(q)
    case Raise(e) => Raise(e)
    case Ok(None) => Ok(Text(q))
    case Ok(Some(f)) => Ok(Num(Round(f.0, f.1, k)))
  }

  /** `a/b` with `b` non-zero reads as the one nearest `k`-place decimal to `a / b`. */
  lemma FractionTextValue(a: string, b: string, k: nat, m: int)
    requires |a| > 0 && |b| > 0 && AllDigits(a) && AllDigits(b) && DigitsValue(b) > 0
    requires NearestUnits(DigitsValue(a) * Pow10(k), DigitsValue(b), m)
    ensures FractionOrText(a + "/" + b, k).Ok?
    ensures FractionOrText(a + "/" + b, k).value.Num?
    ensures ScaledTo(FractionOrText(a + "/" + b, k).value.value, k) == m
  {
    var s := a + "/" + b;
    assert s[..|a|] == a && s[|a| + 1..] == b;
    assert SlashAt(s, |a|);
    var r := FractionOrText(s, k).value.value;
    NearestUnique(DigitsValue(a) * Pow10(k), DigitsValue(b), ScaledTo(r, k), m);
  }

  /** The cascade's reading of a number group: with a '/' it is a fraction to 3
      places (a zero denominator raising), otherwise a float to 2 places; text
      neither reading accepts is kept. */
  function NumberGroup(q: string): (r: Result<Quantity>)
    ensures r.Raise? ==> r.error == ZeroDivisionError && '/' in q
    ensures r.Ok? ==> r.value.Num? || r.value.Text?
    ensures r.Ok? && r.value.Text? ==> r.value.text == q
    ensures |q| > 0 && AllDigits(q) ==> r == Ok(Num(Decimal(DigitsValue(q), 0)))
    ensures '/' !in q ==> r.Ok? && (r.value.Text? <==> ParseFloat(q).None?)
    ensures '/' !in q && r.value.Num? ==> r.value.value.scale <= 2 && var v := ParseFloat(q).value;
              NearestUnits(v.digits * Pow10(2), Pow10(v.scale), ScaledTo(r.value.value, 2))
    ensures forall p: nat | SlashAt(q, p) ::
              && (r.Raise? <==> DigitsValue(q[p + 1..]) == 0)
              && (r.Ok? ==> r.value.Num? && r.value.value.scale <= 3)
              && (r.Ok? ==> NearestUnits(DigitsValue(q[..p]) * 1000, DigitsValue(q[p + 1..]), ScaledTo(r.value.value, 3)))
  {
    assert Pow10(3) == 1000;
    if '/' in q then
      DigitsHaveNoSlash(q);
      FractionOrText(q, 3)
    else
      assert forall p: nat | p < |q| :: !SlashAt(q, p);
      Ok(FloatOrText(q, 2))
  }

  lemma DigitsHaveNoSlash(q: string)
    ensures AllDigits(q) ==> '/' !in q
  {
    if AllDigits(q) {
      forall j | 0 <= j < |q| ensures q[j] != '/' {
        assert IsDigit(q[j]);
      }
    }
  }

  /** `zh_num_map[c]`: 一 to 九 are one to nine, 兩 is two, 半 is the float 0.5. */
  function NumeralQuantity(c: char): (r: Quantity)
    requires IsNumeral(c)
    ensures c == '半' <==> r == Num(Decimal(5, 1))
    ensures c == '兩' ==> r == Whole(2)
    ensures forall j | 0 <= j < 9 :: c == Ordinals[j] ==> r == Whole(j + 1)
  {
    match NumeralValue(c)
    case Some(n) => Whole(n)
    case None => Num(Decimal(5, 1))
  }

  /** The quantity of a numeral run in the fallbacks: a single table numeral is
      its value, anything else is a float to 2 places or stays text. */
  function RunQuantity(q: string): (r: Quantity)
    ensures !r.NoQty?
    ensures |q| == 1 && IsNumeral(q[0]) && q[0] != '半' ==> r == Whole(NumeralValue(q[0]).value)
    ensures q == "半" ==> r == Num(Decimal(5, 1))
    ensures |q| > 0 && AllDigits(q) ==> r == Num(Decimal(DigitsValue(q), 0))
    ensures r.Text? ==> r.text == q && ParseFloat(q).None?
    ensures r.Num? && !(|q| == 1 && IsNumeral(q[0])) ==>
              && ParseFloat(q).Some? && r.value.scale <= 2
              && var v := ParseFloat(q).value;
                 NearestUnits(v.digits * Pow10(2), Pow10(v.scale), ScaledTo(r.value, 2))
  {
    if |q| == 1 && IsNumeral(q[0]) then
      assert !IsDigit(q[0]);
      NumeralQuantity(q[0])
    else FloatOrText(q, 2)
  }
}
