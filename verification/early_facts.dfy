/** What the two earlier parser revisions promise, and where they differ from
    each other and from the latest revision. */
module EarlyFacts {
  import opened Wrappers
  import opened Text
  import opened Scan
  import opened Numeric
  import opened Rounding
  import opened Records
  import opened Lexicon
  import opened Typography
  import opened Early
  import Parse0720
  import Parse0720Facts

  /** The fraction the branch reads is what `Fraction()` accepts: digits, a
      slash and digits, with a zero denominator raising ZeroDivisionError. */
  lemma {:induction false} FractionTextParses(a: string, b: string)
    requires |a| > 0 && |b| > 0 && AllDigits(a) && AllDigits(b)
    ensures ParseFraction(a + "/" + b) ==
              if DigitsValue(b) == 0 then Raise(ZeroDivisionError)
              else Ok(Some((DigitsValue(a), DigitsValue(b))))
  {
    var s := a + "/" + b;
    assert OccursAt(s, "/", |a|);
    forall k | 0 <= k < |a| ensures !OccursAt(s, "/", k) {
      assert s[k..k + 1][0] == a[k];
    }
    assert Find(s, "/") == |a|;
    assert s[..|a|] == a && s[|a| + 1..] == b;
  }

  /** The branch's quantity agrees with `Fraction()` on the matched text. */
  lemma FractionBranchIsFraction(t: string, p: nat, q: nat, e: nat)
    requires p < q && q + 1 < e <= |t|
    requires FractionSearch(t) == Some((p, q, e))
    ensures t[p..e] == t[p..q] + "/" + t[q + 1..e]
    ensures ParseFraction(t[p..e]).Raise? <==> DigitsValue(t[q + 1..e]) == 0
    ensures ParseFraction(t[p..e]).Ok? ==>
              ParseFraction(t[p..e]).value == Some((DigitsValue(t[p..q]), DigitsValue(t[q + 1..e])))
  {
    SearchShape(t, p, q, e);
    FractionPieces(t, p, q, e);
    FractionTextParses(t[p..q], t[q + 1..e]);
  }

  lemma SearchShape(t: string, p: nat, q: nat, e: nat)
    requires FractionSearch(t) == Some((p, q, e))
    ensures p < q && q + 1 < e <= |t| && t[q] == '/'
    ensures AllDigits(t[p..q]) && AllDigits(t[q + 1..e])
  {
  }

  /** A match is its digits, the slash and its digits. */
  lemma FractionPieces(t: string, p: nat, q: nat, e: nat)
    requires p < q < e <= |t| && t[q] == '/'
    ensures t[p..e] == t[p..q] + "/" + t[q + 1..e]
  {
  }

  /** A digit-free token has no fraction and no digit run; without a Chinese
      numeral or '.' either, the original revision keeps it whole as the name. */
  lemma WholeTokenOriginal(raw: string)
    requires forall k | 0 <= k < |Strip(raw)| :: !Parse0720.StartsAmount(Strip(raw)[k])
    ensures ParseOriginal(raw) == Ok(Record(Some(Strip(raw)), NoQty, None))
  {
    NoDigitNoFraction(Strip(raw));
  }

  /** The same holds in the 0718 revision unless the token is a vague word. */
  lemma WholeToken0718(raw: string)
    requires forall k | 0 <= k < |Strip(raw)| :: !Parse0720.StartsAmount(Strip(raw)[k])
    requires Strip(raw) !in Vague
    ensures Parse0718(raw) == Ok(Record(Some(Strip(raw)), NoQty, None))
  {
    var t := Strip(raw);
    RepairWithoutSites(t, 0);
    NoDigitNoFraction(t);
  }

  /** A bare vague word: the 0718 revision makes it the unit with no name and no
      quantity, while the latest revision makes it the quantity. */
  lemma VagueToken0718(raw: string)
    requires Strip(raw) in Vague
    ensures Parse0718(raw) == Ok(Record(None, NoQty, Some(Strip(raw))))
    ensures Parse0720.ParseIngredient(raw) == Ok(Record(None, Text(Strip(raw)), None))
  {
    var t := Strip(raw);
    VagueChars(t);
    RepairWithoutSites(t, 0);
    Parse0720Facts.ExactVagueToken(raw);
  }

  /** The two early revisions agree on every token the 0718 additions leave
      alone: no "05" typo, not a bare vague word, and an original result whose
      name is not empty and whose unit is not a vague word. */
  lemma RevisionsAgree(raw: string)
    requires forall p | 0 <= p < |Strip(raw)| :: !RepairSite(Strip(raw), p)
    requires Strip(raw) !in Vague
    requires ParseOriginal(raw).Ok? ==>
               ParseOriginal(raw).value.name != Some([])
               && (ParseOriginal(raw).value.unit.None? || ParseOriginal(raw).value.unit.value !in Vague)
    ensures Parse0718(raw) == ParseOriginal(raw)
  {
    RepairWithoutSites(Strip(raw), 0);
  }

  /** An amount at the very start leaves an empty name. */
  lemma AmountFirst(t: string)
    requires |t| > 0 && Parse0720.StartsAmount(t[0])
    ensures NumeralSplit(t).Some? && NumeralSplit(t).value.name == []
  {
    assert Parse0720.AmountSearch(t).value.0 == 0;
    assert t[..0] == [];
    StripOfStripped([]);
  }

  /** When the amount comes first there is no name: the original revision keeps
      the empty name, the 0718 revision replaces it with None. */
  lemma LeadingAmount(raw: string)
    requires |Strip(raw)| > 0 && Parse0720.StartsAmount(Strip(raw)[0])
    requires FractionSearch(Strip(raw)).None?
    requires forall p | 0 <= p < |Strip(raw)| :: !RepairSite(Strip(raw), p)
    requires Strip(raw) !in Vague
    ensures ParseOriginal(raw).Ok? && ParseOriginal(raw).value.name == Some([])
    ensures Parse0718(raw).Ok? && Parse0718(raw).value.name.None?
  {
    var t := Strip(raw);
    RepairWithoutSites(t, 0);
    assert Repair(t) == t;
    AmountFirst(t);
  }

  /** In the 0718 revision a vague word after the amount drops the quantity;
      the original revision keeps it. */
  lemma VagueUnitDropsQuantity(raw: string)
    requires forall p | 0 <= p < |Strip(raw)| :: !RepairSite(Strip(raw), p)
    requires Strip(raw) !in Vague && FractionSearch(Strip(raw)).None?
    requires NumeralSplit(Strip(raw)).Some?
    requires NumeralSplit(Strip(raw)).value.name != [] && NumeralSplit(Strip(raw)).value.unit in Vague
    ensures var sp := NumeralSplit(Strip(raw)).value;
            && Parse0718(raw) == Ok(Record(Some(sp.name), NoQty, Some(sp.unit)))
            && ParseOriginal(raw) == Ok(Record(Some(sp.name), sp.quantity, Some(sp.unit)))
  {
    RepairWithoutSites(Strip(raw), 0);
    VagueWords(NumeralSplit(Strip(raw)).value.unit);
  }

  /** A run that is neither one table numeral nor a decimal converts to nothing,
      without raising: two numerals, ... */
  lemma TwoNumerals()
    ensures RunValue("三三").None?
  {
    var s := "三三";
    assert !OccursAt(s, ".", 2);
    assert s[1..2][0] == s[1];
    assert FindFrom(s, ".", 1) == -1;
    assert s[0..1][0] == s[0];
    assert Find(s, ".") == -1;
    assert !IsDigit(s[0]);
    assert ParseFloat(s).None?;
  }

  /** ... points only, ... */
  lemma PointsOnly()
    ensures RunValue("..").None?
  {
    assert OccursAt("..", ".", 0);
    assert ".."[1..][0] == '.';
  }

  /** ... or two decimal points. */
  lemma TwoPoints()
    ensures RunValue("1.2.3").None?
  {
    assert "1.2.3"[0..1][0] == '1';
    assert OccursAt("1.2.3", ".", 1) && !OccursAt("1.2.3", ".", 0);
    assert "1.2.3"[2..][1] == '.';
  }

  /** The repair fires after any non-digit, a decimal point included, so a
      correct "1.05" is damaged into "1.0.5"; a leading "05" has nothing before
      its '0' and is left alone. */
  lemma RepairVectors()
    ensures Repair("鹽05") == "鹽0.5"
    ensures Repair("1.05") == "1.0.5"
    ensures Repair("05") == "05"
  {
    assert RepairSite("鹽05", 1);
    assert RepairFrom("鹽05", 3) == [];
    assert RepairSite("1.05", 2) && !RepairSite("1.05", 1) && !RepairSite("1.05", 0);
    assert RepairFrom("1.05", 4) == [];
    assert !RepairSite("05", 0) && !RepairSite("05", 1);
    assert RepairFrom("05", 2) == [];
  }

  // ---------------------------------------------------------------------------
  // "鹽1/8茶匙": a solid keeps the literal fraction

  const Salt: string := "鹽1/8茶匙"

  lemma SaltFraction()
    ensures FractionSearch(Salt) == Some((1, 2, 4))
  {
    assert RunEnd(Salt, 0, IsDigit) == 0;
    assert FractionAt(Salt, 0).None?;
    assert RunEnd(Salt, 2, IsDigit) == 2;
    assert RunEnd(Salt, 1, IsDigit) == 2;
    assert RunEnd(Salt, 4, IsDigit) == 4;
    assert RunEnd(Salt, 3, IsDigit) == 4;
    assert FractionAt(Salt, 1) == Some((2, 4));
  }

  lemma SaltIsSolid()
    ensures HasSolid("鹽")
  {
    assert OccursAt("鹽", "鹽", 0);
    assert Contains("鹽", EarlySolids[3]);
    assert EarlySolids[3..][0] == "鹽";
  }

  lemma SaltPieces()
    ensures Strip(Salt[..1]) == "鹽" && Salt[1..4] == "1/8" && Strip(Salt[4..]) == "茶匙"
  {
    SaltAmount();
    StrippedEnds(Salt, 1, 4, "鹽", "茶匙");
  }

  lemma SaltAmount()
    ensures Salt[1..4] == "1/8"
  {
  }

  lemma SaltNoRepair()
    ensures Repair(Salt) == Salt && Strip(Salt) == Salt && Salt !in Vague
  {
    assert forall p | 0 <= p < |Salt| :: !RepairSite(Salt, p);
    RepairWithoutSites(Salt, 0);
    StripOfStripped(Salt);
  }

  lemma SaltParsed()
    ensures ParseOriginal(Salt) == Ok(Record(Some("鹽"), Text("1/8"), Some("茶匙")))
    ensures Parse0718(Salt) == Ok(Record(Some("鹽"), Text("1/8"), Some("茶匙")))
  {
    SaltFraction();
    SaltPieces();
    SaltIsSolid();
    SaltNoRepair();
    SolidSplit(Salt, 1, 2, 4, "鹽", "1/8", "茶匙");
    FractionParsed(Salt, Split("鹽", Text("1/8"), "茶匙"));
  }

  /** The fraction branch after a solid name, for a token whose pieces are known. */
  lemma SolidSplit(t: string, p: nat, q: nat, e: nat, name: string, amount: string, unit: string)
    requires p < q && q + 1 < e <= |t|
    requires FractionSearch(t) == Some((p, q, e))
    requires Strip(t[..p]) == name && t[p..e] == amount && Strip(t[e..]) == unit
    requires HasSolid(name)
    ensures FractionSplit(t) == Some(Ok(Split(name, Text(amount), unit)))
  {
    SearchShape(t, p, q, e);
  }

  /** The fraction branch after any other name, for a token whose pieces are known. */
  lemma LiquidSplit(t: string, p: nat, q: nat, e: nat, name: string, a: string, b: string, unit: string, n: nat, m: nat)
    requires p < q && q + 1 < e <= |t|
    requires FractionSearch(t) == Some((p, q, e))
    requires Strip(t[..p]) == name && t[p..q] == a && t[q + 1..e] == b && Strip(t[e..]) == unit
    requires AllDigits(a) && AllDigits(b) && DigitsValue(a) == n && DigitsValue(b) == m
    requires !HasSolid(name) && m > 0
    ensures FractionSplit(t) == Some(Ok(Split(name, Num(Round(n, m, 2)), unit)))
  {
    SearchShape(t, p, q, e);
  }

  /** A token whose fraction branch succeeds, and which neither revision
      rewrites, parses to that branch's split in both revisions. */
  lemma FractionParsed(raw: string, sp: Split)
    requires Strip(raw) == raw && Repair(raw) == raw && raw !in Vague
    requires FractionSplit(raw) == Some(Ok(sp))
    requires sp.name != [] && sp.unit != []
    ensures ParseOriginal(raw) == Ok(Record(Some(sp.name), sp.quantity, Some(sp.unit)))
    ensures Parse0718(raw) == Ok(Record(Some(sp.name), sp.quantity, Some(sp.unit)))
  {
  }

  // ---------------------------------------------------------------------------
  // "醬油1/2大匙": a liquid gets the fraction's value

  const SoySauce: string := "醬油1/2大匙"

  lemma SoySauceFraction()
    ensures FractionSearch(SoySauce) == Some((2, 3, 5))
  {
    assert RunEnd(SoySauce, 0, IsDigit) == 0;
    assert FractionAt(SoySauce, 0).None?;
    assert RunEnd(SoySauce, 1, IsDigit) == 1;
    assert FractionAt(SoySauce, 1).None?;
    assert RunEnd(SoySauce, 3, IsDigit) == 3;
    assert RunEnd(SoySauce, 2, IsDigit) == 3;
    assert RunEnd(SoySauce, 5, IsDigit) == 5;
    assert RunEnd(SoySauce, 4, IsDigit) == 5;
    assert FractionAt(SoySauce, 2) == Some((3, 5));
  }

  lemma NotContained(s: string, n: string)
    requires |s| == 2 && |n| >= 1 && n[0] != s[0] && n[0] != s[1]
    ensures !Contains(s, n)
  {
    forall k | 0 <= k <= |s| ensures !OccursAt(s, n, k) {
      if k + |n| <= |s| { assert s[k..k + |n|][0] == s[k]; }
    }
  }

  lemma SoySauceIsLiquid()
    ensures !HasSolid("醬油")
  {
    var s := "醬油";
    NotContained(s, EarlySolids[0]);
    NotContained(s, EarlySolids[1]);
    NotContained(s, EarlySolids[2]);
    NotContained(s, EarlySolids[3]);
    assert EarlySolids[1..][0] == EarlySolids[1];
    assert EarlySolids[1..][1..][0] == EarlySolids[2];
    assert EarlySolids[1..][1..][1..][0] == EarlySolids[3];
    assert EarlySolids[1..][1..][1..][1..] == [];
  }

  lemma Half()
    ensures Round(1, 2, 2) == Decimal(5, 1)
  {
    assert Pow10(2) == 100;
    assert RoundUnits(100, 2) == 50;
    assert Canonicalise(Decimal(5, 1)) == Decimal(5, 1);
    assert Canonicalise(Decimal(50, 2)) == Decimal(5, 1);
  }

  lemma SoySaucePieces()
    ensures Strip(SoySauce[..2]) == "醬油" && Strip(SoySauce[5..]) == "大匙"
    ensures SoySauce[2..3] == "1" && SoySauce[4..5] == "2"
  {
    SoySauceDigits();
    StrippedEnds(SoySauce, 2, 5, "醬油", "大匙");
  }

  lemma SoySauceDigits()
    ensures SoySauce[2..3] == "1" && SoySauce[4..5] == "2"
  {
  }

  lemma OneHalfDigits()
    ensures AllDigits("1") && AllDigits("2") && DigitsValue("1") == 1 && DigitsValue("2") == 2
  {
  }

  lemma SoySauceSplit()
    ensures FractionSplit(SoySauce) == Some(Ok(Split("醬油", Num(Decimal(5, 1)), "大匙")))
  {
    SoySauceFraction();
    SoySaucePieces();
    SoySauceIsLiquid();
    OneHalfDigits();
    Half();
    LiquidSplit(SoySauce, 2, 3, 5, "醬油", "1", "2", "大匙", 1, 2);
  }

  lemma SoySauceParsed()
    ensures ParseOriginal(SoySauce) == Ok(Record(Some("醬油"), Num(Decimal(5, 1)), Some("大匙")))
  {
    StripOfStripped(SoySauce);
    SoySauceSplit();
  }
}
