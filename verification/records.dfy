/** The structured ingredient record `{name, quantity, unit}` the parsers produce. */
module Records {
  import opened Wrappers
  import opened Numeric

  /** A quantity as Python holds it: `None`, an `int` (from the Chinese numeral
      table), a `float` (exact decimal value), or a `str` (range text, vague word,
      or numeral text that failed to convert). */
  datatype Quantity = NoQty | Whole(n: nat) | Num(value: Decimal) | Text(text: string)

  datatype Record = Record(name: Option<string>, quantity: Quantity, unit: Option<string>)

  /** Python `s or None` for a string. */
  function OrNone(s: string): (r: Option<string>)
    ensures r.Some? <==> |s| > 0
    ensures r.Some? ==> r.value == s
  {
    if |s| > 0 then Some(s) else None
  }

  /** Python `str(q)` of a quantity that is not `None`. */
  function QuantityText(q: Quantity): (s: string)
    requires !q.NoQty?
  {
    match q
    case Whole(n) => NatToDigits(n)
    case Num(d) => DecimalText(Canonicalise(d))
    case Text(t) => t
  }

  /** A float quantity prints as text that `float()` reads back as the same value. */
  lemma QuantityTextOfNum(d: Decimal)
    requires Canonical(d)
    ensures ParseFloat(QuantityText(Num(d))) == Some(d)
  {
    assert Canonicalise(d) == d;
    DecimalTextRoundTrip(d);
  }

  /** All three fields are `None`. */
  predicate Empty(r: Record)
  {
    r.name.None? && r.quantity.NoQty? && r.unit.None?
  }
}
