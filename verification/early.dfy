/** The two earlier revisions of the ingredient parser. Both look for a fraction
    `a/b` first, then for the first run of digits and points or of Chinese
    numerals, and otherwise keep the whole token as the name. The 0718 revision
    adds a "05" typo repair, an exact vague-word rule, guards against an empty
    name and a vague-unit rule; the original has none of these. */
module Early {
  import opened Wrappers
  import opened Text
  import opened Scan
  import opened Numeric
  import opened Records
  import opened Lexicon
  import opened Convert
  import opened Typography
  import Parse0720

  // ---------------------------------------------------------------------------
  // The fraction search `re.search(r"(\d+/\d+)", s)`

  /** `\d+/\d+` can match at `p` with its slash at `q`. */
  predicate FractionShape(s: string, p: nat, q: nat)
  {
    p < q && q + 1 < |s| && AllDigits(s[p..q]) && s[q] == '/' && IsDigit(s[q + 1])
  }

  /** `\d+/\d+` anchored at `p`: the positions of the slash and of the match end.
      The first `\d+` is maximal (a digit is not a slash) and so is the second. */
  function FractionAt(s: string, p: nat): (r: Option<(nat, nat)>)
    requires p <= |s|
    ensures r.Some? ==> var (q, e) := r.value;
              FractionShape(s, p, q) && q + 1 < e <= |s| && AllDigits(s[q + 1..e])
              && (e == |s| || !IsDigit(s[e]))
    ensures r.None? <==> forall q | p < q < |s| :: !FractionShape(s, p, q)
  {
    var q := RunEnd(s, p, IsDigit);
    if p < q && q + 1 < |s| && s[q] == '/' && IsDigit(s[q + 1]) then
      assert AllDigits(s[p..q]);
      var e := RunEnd(s, q + 1, IsDigit);
      assert AllDigits(s[q + 1..e]);
      Some((q, e))
    else
      forall q' | p < q' < |s| ensures !FractionShape(s, p, q') {
        if q' < q {
          assert IsDigit(s[q']);
        } else if q < q' {
          assert s[p..q'][q - p] == s[q];
        }
      }
      None
  }

  /** The leftmost fraction at or after `p`: its start, slash and end. */
  function FractionFrom(s: string, p: nat): (r: Option<(nat, nat, nat)>)
    requires p <= |s|
    ensures r.Some? ==> p <= r.value.0 < |s| && FractionAt(s, r.value.0) == Some((r.value.1, r.value.2))
    ensures r.Some? ==> forall k | p <= k < r.value.0 :: FractionAt(s, k).None?
    ensures r.None? <==> forall k | p <= k <= |s| :: FractionAt(s, k).None?
    decreases |s| - p
  {
    match FractionAt(s, p)
    case Some((q, e)) => Some((p, q, e))
    case None => if p == |s| then None else FractionFrom(s, p + 1)
  }

  /** `s[p..e]` is digits, the slash at `q`, and digits. */
  predicate FractionMatch(s: string, p: nat, q: nat, e: nat)
  {
    p < q && q + 1 < e <= |s| && s[q] == '/' && AllDigits(s[p..q]) && AllDigits(s[q + 1..e])
  }

  function FractionSearch(s: string): (r: Option<(nat, nat, nat)>)
    ensures r.Some? ==> r.value.0 < |s| && FractionAt(s, r.value.0) == Some((r.value.1, r.value.2))
    ensures r.Some? ==> FractionMatch(s, r.value.0, r.value.1, r.value.2)
    ensures r.Some? ==> forall k | 0 <= k < r.value.0 :: FractionAt(s, k).None?
    ensures r.None? <==> forall k | 0 <= k <= |s| :: FractionAt(s, k).None?
  {
    FractionFrom(s, 0)
  }

  /** A fraction starts with a digit, so text without digits has none. */
  lemma NoDigitNoFraction(s: string)
    requires forall k | 0 <= k < |s| :: !IsDigit(s[k])
    ensures FractionSearch(s).None?
  {
    forall k | 0 <= k <= |s| ensures FractionAt(s, k).None? {
      forall q | k < q < |s| ensures !FractionShape(s, k, q) {
        assert s[k..q][0] == s[k];
      }
    }
  }

  // ---------------------------------------------------------------------------
  // Shared pieces of the two revisions

  /** `any(n in name for n in names)`, scanning the list in order. */
  predicate HasAny(name: string, names: seq<string>)
  {
    names != [] && (Contains(name, names[0]) || HasAny(name, names[1..]))
  }

  lemma {:induction false} HasAnyMeans(name: string, names: seq<string>)
    ensures HasAny(name, names) <==> exists n | n in names :: Contains(name, n)
  {
    if names != [] {
      HasAnyMeans(name, names[1..]);
      assert forall n | n in names :: n == names[0] || n in names[1..];
    }
  }

  /** The name holds one of the solid ingredients of these revisions. */
  predicate HasSolid(name: string)
  {
    HasAny(name, EarlySolids)
  }

  /** What a branch splits the token into: name text, quantity, unit text. */
  datatype Split = Split(name: string, quantity: Quantity, unit: string)

  /** The fraction branch for the fraction at `p..e` with its slash at `q`: the
      text before it, the fraction, and the text after it. The quantity keeps the
      literal fraction after a solid name and is otherwise
      `round(float(Fraction(a/b)), 2)`, which raises ZeroDivisionError for a zero
      denominator. */
  function FractionSplitAt(t: string, p: nat, q: nat, e: nat): (r: Result<Split>)
    requires FractionMatch(t, p, q, e)
    ensures r.Raise? <==> !HasSolid(Strip(t[..p])) && DigitsValue(t[q + 1..e]) == 0
    ensures r.Raise? ==> r.error == ZeroDivisionError
    ensures r.Ok? ==> r.value.name == Strip(t[..p]) && r.value.unit == Strip(t[e..])
    ensures r.Ok? && HasSolid(Strip(t[..p])) ==> r.value.quantity == Text(t[p..e])
    ensures r.Ok? && !HasSolid(Strip(t[..p])) ==>
              r.value.quantity == Num(Round(DigitsValue(t[p..q]), DigitsValue(t[q + 1..e]), 2))
  {
    var name := Strip(t[..p]);
    var unit := Strip(t[e..]);
    if HasSolid(name) then Ok(Split(name, Text(t[p..e]), unit))
    else
      var d := DigitsValue(t[q + 1..e]);
      if d == 0 then Raise(ZeroDivisionError)
      else Ok(Split(name, Num(Round(DigitsValue(t[p..q]), d, 2)), unit))
  }

  /** The fraction branch at the first fraction of the token, if any. */
  function FractionSplit(t: string): (r: Option<Result<Split>>)
    ensures r.None? <==> FractionSearch(t).None?
    ensures r.Some? && r.value.Raise? ==> r.value.error == ZeroDivisionError
  {
    match FractionSearch(t)
    case None => None
    case Some((p, q, e)) => Some(FractionSplitAt(t, p, q, e))
  }

  /** The value of a numeral run before rounding: the numeral table for a single
      Chinese numeral, otherwise `float()`, with `None` when that fails. */
  function RunValue(qs: string): (r: Option<Quantity>)
    ensures r.Some? ==> r.value.Whole? || r.value.Num?
    ensures |qs| == 1 && IsNumeral(qs[0]) ==> r == Some(NumeralQuantity(qs[0]))
    ensures !(|qs| == 1 && IsNumeral(qs[0])) ==>
              (r.None? <==> ParseFloat(qs).None?) && (r.Some? ==> r.value == Num(ParseFloat(qs).value))
  {
    if |qs| == 1 && IsNumeral(qs[0]) then Some(NumeralQuantity(qs[0]))
    else
      match ParseFloat(qs)
      case Some(d) => Some(Num(d))
      case None => None
  }

  /** `round(q, 2)`: an int stays the same int; a float is rounded to 2 places. */
  function Round2(q: Quantity): (r: Quantity)
    requires q.Whole? || q.Num?
    ensures q.Whole? ==> r == q
    ensures q.Num? ==> r.Num? && Canonical(r.value) && r.value.scale <= 2
    ensures q.Num? && Canonical(q.value) && q.value.scale <= 2 ==> r == q
  {
    if q.Num? && Canonical(q.value) && q.value.scale <= 2 then
      RoundToExact(q.value, 2);
      Num(RoundTo(q.value, 2))
    else if q.Num? then Num(RoundTo(q.value, 2))
    else q
  }

  /** Python `remainder[len(quantity_str):].strip()`; slicing past the end
      gives the empty string. */
  function After(remainder: string, n: nat): string
  {
    if n <= |remainder| then Strip(remainder[n..]) else ""
  }

  /** The numeral branch: the text before the first run of digits and points
      or of Chinese numerals, the run's value (kept as it is after a solid name,
      rounded to 2 places otherwise; `None` when it does not convert), and the
      text after the run. */
  function NumeralSplit(t: string): (r: Option<Split>)
    ensures r.None? <==> forall k | 0 <= k < |t| :: !Parse0720.StartsAmount(t[k])
    ensures r.Some? ==> var (p, e) := Parse0720.AmountSearch(t).value;
              && r.value.name == Strip(t[..p])
              && r.value.unit == After(Strip(t[p..]), e - p)
              && (r.value.quantity.NoQty? <==> RunValue(t[p..e]).None?)
              && (HasSolid(r.value.name) && RunValue(t[p..e]).Some? ==>
                    r.value.quantity == RunValue(t[p..e]).value)
              && (!HasSolid(r.value.name) && RunValue(t[p..e]).Some? ==>
                    r.value.quantity == Round2(RunValue(t[p..e]).value))
  {
    match Parse0720.AmountSearch(t)
    case None => None
    case Some((p, e)) =>
      var name := Strip(t[..p]);
      var quantity :=
        match RunValue(t[p..e])
        case None => NoQty
        case Some(v) => if HasSolid(name) then v else Round2(v);
      Some(Split(name, quantity, After(Strip(t[p..]), e - p)))
  }

  // ---------------------------------------------------------------------------
  // The two revisions

  /** The repair only inserts characters: it empties nothing but the empty text. */
  lemma RepairOfEmpty(s: string)
    ensures Repair(s) == [] <==> s == []
  {
    if s != [] {
      assert RepairFrom(s, 0) != [];
    }
  }

  /** `parse_ingredient` of the original revision. */
  function ParseOriginal(raw: string): (r: Result<Record>)
    ensures r.Raise? ==> r.error == ZeroDivisionError
    ensures r.Ok? ==> r.value.name.Some?
    ensures r.Ok? && r.value.unit.Some? ==> |r.value.unit.value| > 0
  {
    var t := Strip(raw);
    match FractionSplit(t)
    case Some(Raise(e)) => Raise(e)
    case Some(Ok(sp)) => Ok(Record(Some(sp.name), sp.quantity, OrNone(sp.unit)))
    case None =>
      match NumeralSplit(t)
      case Some(sp) => Ok(Record(Some(sp.name), sp.quantity, OrNone(sp.unit)))
      case None => Ok(Record(Some(t), NoQty, None))
  }

  /** `parse_ingredient` of the 0718 revision. */
  function Parse0718(raw: string): (r: Result<Record>)
    ensures r.Raise? ==> r.error == ZeroDivisionError
    ensures r.Ok? && r.value.name.Some? && r.value.name.value == [] ==> Strip(raw) == []
    ensures r.Ok? && r.value.unit.Some? ==> |r.value.unit.value| > 0
  {
    var t := Repair(Strip(raw));
    RepairOfEmpty(Strip(raw));
    if t in Vague then
      VagueWords(t);
      Ok(Record(None, NoQty, Some(t)))
    else
      match FractionSplit(t)
      case Some(Raise(e)) => Raise(e)
      case Some(Ok(sp)) => Ok(Record(OrNone(sp.name), sp.quantity, OrNone(sp.unit)))
      case None =>
        match NumeralSplit(t)
        case Some(sp) =>
          if sp.name == [] then Ok(Record(None, sp.quantity, OrNone(sp.unit)))
          else if sp.unit in Vague then
            VagueWords(sp.unit);
            Ok(Record(Some(sp.name), NoQty, Some(sp.unit)))
          else Ok(Record(Some(sp.name), sp.quantity, OrNone(sp.unit)))
        case None => Ok(Record(Some(t), NoQty, None))
  }
}
