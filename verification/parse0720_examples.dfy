/** Input/output pairs the repository's own test scripts pin for the latest
    parser, derived from the model. */
module Examples0720 {
  import opened Wrappers
  import opened Text
  import opened Scan
  import opened Numeric
  import opened Records
  import opened Lexicon
  import opened Convert
  import opened Typography
  import opened Cascade
  import opened Parse0720
  import opened Parse0720Facts

  /** A parse whose cascade decides: the stripped, normalised token is `s`. */
  lemma CascadeDecides(raw: string, s: string, rec: Record)
    requires Normalise(Strip(raw)) == s && Cascade.Cascade(s) == Ok(Some(rec))
    ensures ParseIngredient(raw) == Ok(rec)
  {
  }

  // ---------------------------------------------------------------------------
  // "水1～2大匙" → {水, "1～2", 大匙}

  const Water: string := "水1～2大匙"

  lemma WaterRangeAt()
    ensures RangeAt(Water, 1) == Some((4, 4))
  {
    assert RunEnd(Water, 2, IsDigit) == 2;
    assert RunEnd(Water, 1, IsDigit) == 2;
    assert Water[2] in "～~";
    assert RunEnd(Water, 4, IsDigit) == 4;
    assert RunEnd(Water, 3, IsDigit) == 4;
    assert DownFrom(4, 4) == [4];
    assert RunEnd(Water, 4, IsSpace) == 4;
    assert '\n' !in Water[4..];
    assert RestFrom(Water, 4) == Some(4);
  }

  lemma WaterPieces()
    ensures Strip(Water[..1]) == "水" && Water[1..4] == "1～2" && Strip(Water[4..]) == "大匙"
  {
    WaterAmount();
    StrippedEnds(Water, 1, 4, "水", "大匙");
  }

  lemma WaterAmount()
    ensures Water[1..4] == "1～2"
  {
  }

  lemma WaterMatch()
    ensures RangeMatch(Water) == Some((1, (4, 4)))
  {
    WaterRangeAt();
    LazySplitAt(Water, RangeTry(Water), 1);
  }

  lemma WaterRange()
    ensures Range(Water) == Some(Record(Some("水"), Text("1～2"), Some("大匙")))
  {
    WaterMatch();
    WaterPieces();
  }

  lemma WaterChars()
    ensures forall k | 0 <= k < |Water| :: Water[k] !in GlyphKeys
  {
  }

  lemma WaterNormal()
    ensures Normalise(Strip(Water)) == Water
  {
    StripOfStripped(Water);
    WaterChars();
    NormaliseGlyphFree(Water);
  }

  lemma WaterParsed()
    ensures ParseIngredient(Water) == Ok(Record(Some("水"), Text("1～2"), Some("大匙")))
  {
    WaterNormal();
    WaterRange();
    CascadeDecides(Water, Water, Record(Some("水"), Text("1～2"), Some("大匙")));
  }

  // ---------------------------------------------------------------------------
  // Helpers shared by the examples below.

  /** A token with no outer spaces and no glyph reaches the cascade unchanged. */
  lemma PlainToken(s: string)
    requires |s| > 0 && !IsSpace(s[0]) && !IsSpace(s[|s| - 1])
    requires forall k | 0 <= k < |s| :: s[k] !in GlyphKeys
    ensures Normalise(Strip(s)) == s
  {
    StripOfStripped(s);
    NormaliseGlyphFree(s);
  }

  /** Without a tilde the range pattern cannot match. */
  lemma NoTildeNoRange(s: string)
    requires forall k | 0 <= k < |s| :: s[k] !in "～~"
    ensures Range(s).None?
  {
    RangeNone(s);
    forall j | 1 <= j < |s| ensures RangeAt(s, j).None? {
      RangeAtSound(s, j);
    }
  }

  // ---------------------------------------------------------------------------
  // "油1~2茶匙" → {油, "1~2", 茶匙}

  const Oil: string := "油1~2茶匙"

  lemma OilRangeAt()
    ensures RangeAt(Oil, 1) == Some((4, 4))
  {
    assert RunEnd(Oil, 2, IsDigit) == 2;
    assert RunEnd(Oil, 1, IsDigit) == 2;
    assert Oil[2] in "～~";
    assert RunEnd(Oil, 4, IsDigit) == 4;
    assert RunEnd(Oil, 3, IsDigit) == 4;
    assert DownFrom(4, 4) == [4];
    assert RunEnd(Oil, 4, IsSpace) == 4;
    assert '\n' !in Oil[4..];
    assert RestFrom(Oil, 4) == Some(4);
  }

  lemma OilPieces()
    ensures Head(Oil, 1) == "油" && Oil[1..4] == "1~2" && Strip(Oil[4..]) == "茶匙"
  {
    OilAmount();
    StrippedEnds(Oil, 1, 4, "油", "茶匙");
  }

  lemma OilAmount()
    ensures Oil[1..4] == "1~2"
  {
  }

  lemma OilCascade()
    ensures Cascade.Cascade(Oil) == Ok(Some(Record(Some("油"), Text("1~2"), Some("茶匙"))))
  {
    OilRangeAt();
    RangeLeast(Oil, 1);
    OilPieces();
    CascadeAtRange(Oil);
  }

  lemma OilParsed()
    ensures ParseIngredient(Oil) == Ok(Record(Some("油"), Text("1~2"), Some("茶匙")))
  {
    PlainToken(Oil);
    OilCascade();
    CascadeDecides(Oil, Oil, Record(Some("油"), Text("1~2"), Some("茶匙")));
  }

  // ---------------------------------------------------------------------------
  // "鮭魚1片(270g)" → {鮭魚(270g), 1, 片}: the parenthetical joins the name.

  const Salmon: string := "鮭魚1片(270g)"

  lemma SalmonEnds()
    ensures NumberEnds(Salmon, 2, SlashPoint) == [3]
  {
    assert RunEnd(Salmon, 3, IsDigit) == 3;
    assert RunEnd(Salmon, 2, IsDigit) == 3;
    assert EndsAt(Salmon, 3, SlashPoint) == [3];
    assert LongestFirst(EndsOf(Salmon, SlashPoint), 2, 3) == [];
  }

  lemma SalmonTail()
    ensures UnitAndBracketToEnd(Salmon, 3) == Some((3, 4, 10))
  {
    assert ')' !in Salmon[5..9];
    UnitAndBracketToEndMeans(Salmon, 3, 3, 4);
  }

  lemma SalmonUnitBracketAt()
    ensures UnitBracketAt(Salmon, 2) == Some((3, (3, 4, 10)))
    ensures UnitBracketAt(Salmon, 1).None?
  {
    SalmonEnds();
    SalmonTail();
    assert NumberEnds(Salmon, 1, SlashPoint) == [];
  }

  lemma SalmonSlices()
    ensures Salmon[..2] == "鮭魚" && Salmon[4..] == "(270g)" && Salmon[2..3] == "1" && Salmon[3..4] == "片"
  {
  }

  lemma SalmonHead()
    ensures Head(Salmon, 2) == "鮭魚"
  {
    assert Salmon[..2] == "鮭魚" && Salmon[|Salmon|..] == [];
    StrippedEnds(Salmon, 2, |Salmon|, "鮭魚", []);
  }

  lemma SalmonUnit()
    ensures Strip(Salmon[3..4]) == "片"
  {
    assert Salmon[3..4] == "片";
    StripOfStripped("片");
  }

  lemma SalmonPieces()
    ensures Head(Salmon, 2) == "鮭魚" && Strip(Salmon[3..4]) == "片"
  {
    SalmonHead();
    SalmonUnit();
  }

  lemma SalmonName()
    ensures Head(Salmon, 2) + Salmon[4..] == "鮭魚(270g)"
  {
    SalmonPieces();
    SalmonSlices();
  }

  /** A bare digit run is read as a float, so the count 1 becomes 1.0. */
  lemma SalmonCount()
    ensures NumberGroup(Salmon[2..3]) == Ok(Num(Numeric.Decimal(1, 0)))
  {
    SalmonSlices();
    assert AllDigits("1") && DigitsValue("1") == 1;
  }

  lemma SalmonUnitBracket()
    ensures UnitBracket(Salmon) == Some(Ok(Record(Some("鮭魚(270g)"), Num(Numeric.Decimal(1, 0)), Some("片"))))
  {
    SalmonUnitBracketAt();
    UnitBracketLeast(Salmon, 2, 3, 3, 4);
    SalmonPieces();
    SalmonName();
    SalmonCount();
  }

  lemma SalmonNoRange()
    ensures Range(Salmon).None?
  {
    NoTildeNoRange(Salmon);
  }

  lemma SalmonCascade()
    ensures Cascade.Cascade(Salmon) == Ok(Some(Record(Some("鮭魚(270g)"), Num(Numeric.Decimal(1, 0)), Some("片"))))
  {
    SalmonUnitBracket();
    SalmonNoRange();
    CascadeAtUnitBracket(Salmon);
  }

  lemma SalmonParsed()
    ensures ParseIngredient(Salmon) == Ok(Record(Some("鮭魚(270g)"), Num(Numeric.Decimal(1, 0)), Some("片")))
  {
    PlainToken(Salmon);
    SalmonCascade();
    CascadeDecides(Salmon, Salmon, Record(Some("鮭魚(270g)"), Num(Numeric.Decimal(1, 0)), Some("片")));
  }

  // ---------------------------------------------------------------------------
  // "九層塔一把" → {九層塔, 1, 把}: the leading 九 is part of the name.

  /** The token, written as its name followed by its amount. */
  const Basil: string := "九層塔" + "一把"

  lemma BasilSlices()
    ensures Basil[..3] == "九層塔" && Basil[4..] == "把" && Basil[3] == '一'
  {
  }

  lemma BasilChars()
    ensures IsCountNumeral(Basil[3]) && '\n' !in Basil
    ensures forall j | 1 <= j < 3 :: !IsCountNumeral(Basil[j])
  {
  }

  lemma BasilPieces()
    ensures Head(Basil, 3) == "九層塔" && Strip(Basil[4..]) == "把" && "把" in Measures
    ensures CountQuantity(Basil[3]) == Whole(1)
  {
    BasilSlices();
    StrippedEnds(Basil, 3, 4, "九層塔", "把");
    assert Ordinals[0] == '一';
  }

  /** The counted-measure pattern at a numeral found first, with the pieces
      of its record already worked out. */
  lemma CountMeasureIs(s: string, i: nat, name: string, n: nat, measure: string)
    requires 1 <= i && i + 1 < |s| && IsCountNumeral(s[i]) && '\n' !in s
    requires forall j | 1 <= j < i :: !IsCountNumeral(s[j])
    requires Head(s, i) == name && Strip(s[i + 1..]) == measure && measure in Measures
    requires CountQuantity(s[i]) == Whole(n)
    ensures CountMeasure(s) == Some(Record(Some(name), Whole(n), Some(measure)))
  {
    CountMeasureLeast(s, i);
  }

  lemma BasilCountMeasure()
    ensures CountMeasure(Basil) == Some(Record(Some("九層塔"), Whole(1), Some("把")))
  {
    BasilChars();
    BasilPieces();
    CountMeasureIs(Basil, 3, "九層塔", 1, "把");
  }

  /** No pattern before the counted measure matches a token without digits or
      whitespace. */
  lemma EarlyPatternsFail(s: string)
    requires forall k | 0 <= k < |s| :: !IsDigit(s[k]) && !IsSpace(s[k])
    ensures Range(s).None? && UnitBracket(s).None? && FractionUnit(s).None? && SpacedVagueWord(s).None?
  {
    NoDigitNumberPatternsFail(s);
    SpacedVagueNeedsSpace(s);
  }

  lemma BasilCascade()
    ensures Cascade.Cascade(Basil) == Ok(Some(Record(Some("九層塔"), Whole(1), Some("把"))))
  {
    EarlyPatternsFail(Basil);
    BasilCountMeasure();
    CascadeAtCountMeasure(Basil);
  }

  lemma BasilParsed()
    ensures ParseIngredient(Basil) == Ok(Record(Some("九層塔"), Whole(1), Some("把")))
  {
    PlainToken(Basil);
    BasilCascade();
    CascadeDecides(Basil, Basil, Record(Some("九層塔"), Whole(1), Some("把")));
  }

  // ---------------------------------------------------------------------------
  // "小磨坊蒜香九層塔適量" → {小磨坊蒜香九層塔, 適量, None}: the counted-measure
  // pattern gives up at 九 and the trailing vague word decides.

  const Brand: string := "小磨坊蒜香九層塔適量"

  lemma BrandSlices()
    ensures Brand[6..] == "層塔適量" && Brand[..8] == "小磨坊蒜香九層塔" && Brand[8..] == "適量"
  {
  }

  lemma BrandChars()
    ensures IsCountNumeral(Brand[5]) && '\n' !in Brand
    ensures forall j | 1 <= j < 5 :: !IsCountNumeral(Brand[j])
    ensures forall j | 1 <= j < 8 :: Brand[j..] !in SuffixVague
  {
  }

  lemma BrandRest()
    ensures Strip(Brand[6..]) !in Measures
  {
    BrandSlices();
    StrippedEnds(Brand, 0, 6, [], "層塔適量");
    LongNotMeasure("層塔適量");
  }

  /** Every measure word is one or two characters long. */
  lemma LongNotMeasure(w: string)
    requires |w| > 2
    ensures w !in Measures
  {
    assert forall j | 0 <= j < |Measures| :: |Measures[j]| <= 2;
  }

  lemma BrandGivesUp()
    ensures CountMeasure(Brand).None?
  {
    BrandChars();
    BrandRest();
    CountMeasureLeast(Brand, 5);
  }

  lemma BrandSuffix()
    ensures SuffixVagueWord(Brand) == Some(Record(Some("小磨坊蒜香九層塔"), Text("適量"), None))
  {
    BrandSlices();
    BrandChars();
    StrippedEnds(Brand, 8, 10, "小磨坊蒜香九層塔", []);
    SuffixVagueLeast(Brand, 8);
  }

  lemma BrandCascade()
    ensures Cascade.Cascade(Brand) == Ok(Some(Record(Some("小磨坊蒜香九層塔"), Text("適量"), None)))
  {
    EarlyPatternsFail(Brand);
    BrandGivesUp();
    BrandSuffix();
    CascadeAtSuffixVague(Brand);
  }

  lemma BrandParsed()
    ensures ParseIngredient(Brand) == Ok(Record(Some("小磨坊蒜香九層塔"), Text("適量"), None))
  {
    PlainToken(Brand);
    BrandCascade();
    CascadeDecides(Brand, Brand, Record(Some("小磨坊蒜香九層塔"), Text("適量"), None));
  }

  // ---------------------------------------------------------------------------
  // "鹽 一撮" → {鹽, 一撮, None}

  const Salt: string := "鹽 一撮"

  lemma SaltAt()
    ensures SpacedVagueAt(Salt, 1) == Some(2)
  {
    assert Salt[2..] == "一撮" && IsSpace(Salt[1]);
    SpacedVagueAtComplete(Salt, 1, 2);
  }

  lemma SaltPieces()
    ensures Head(Salt, 1) == "鹽" && Salt[2..] == "一撮" && '\n' !in Salt[..1]
  {
    assert Salt[..1] == "鹽" && Salt[|Salt|..] == [];
    StrippedEnds(Salt, 1, |Salt|, "鹽", []);
  }

  lemma SaltSpaced()
    ensures SpacedVagueWord(Salt) == Some(Record(Some("鹽"), Text("一撮"), None))
  {
    SaltAt();
    SaltPieces();
    SpacedVagueLeast(Salt, 1, 2);
  }

  lemma SaltCascade()
    ensures Cascade.Cascade(Salt) == Ok(Some(Record(Some("鹽"), Text("一撮"), None)))
  {
    NoDigitNumberPatternsFail(Salt);
    SaltSpaced();
    CascadeAtSpacedVague(Salt);
  }

  lemma SaltParsed()
    ensures ParseIngredient(Salt) == Ok(Record(Some("鹽"), Text("一撮"), None))
  {
    PlainToken(Salt);
    SaltCascade();
    CascadeDecides(Salt, Salt, Record(Some("鹽"), Text("一撮"), None));
  }

  // ---------------------------------------------------------------------------
  // "檸檬1/4顆" → {檸檬, 0.25, 顆}: the fraction is read to 3 places.

  const Lemon: string := "檸檬1/4顆"

  lemma LemonEnds()
    ensures NumberEnds(Lemon, 2, SlashPoint) == [5, 3]
  {
    assert RunEnd(Lemon, 3, IsDigit) == 3;
    assert RunEnd(Lemon, 2, IsDigit) == 3;
    assert RunEnd(Lemon, 5, IsDigit) == 5;
    assert RunEnd(Lemon, 4, IsDigit) == 5;
    assert DecimalEnds(Lemon, 5) == [];
    assert SlashEnds(Lemon, 3, true) == [5];
    assert EndsAt(Lemon, 3, SlashPoint) == [5, 3];
    assert LongestFirst(EndsOf(Lemon, SlashPoint), 2, 3) == [];
  }

  lemma LemonUnitBracketAt()
    ensures UnitBracketAt(Lemon, 2) == Some((5, (5, 6, 6)))
    ensures UnitBracketAt(Lemon, 1).None?
  {
    LemonEnds();
    UnitAndBracketToEndMeans(Lemon, 5, 5, 6);
    assert NumberEnds(Lemon, 1, SlashPoint) == [];
  }

  lemma QuarterParts()
    ensures ParseFraction("1/4") == Ok(Some((1, 4)))
  {
    var q := "1/4";
    assert SlashAt(q, 1) && q[..1] == "1" && q[2..] == "4";
    assert DigitsValue("1") == 1 && DigitsValue("4") == 4;
  }

  lemma QuarterRound()
    ensures Numeric.Round(1, 4, 3) == Numeric.Decimal(25, 2)
  {
    assert Pow10(3) == 1000;
    Numeric.RoundExact(250, 4);
    assert Numeric.Canonicalise(Numeric.Decimal(250, 3)) == Numeric.Decimal(25, 2);
  }

  /** 1/4 to 3 places is 0.25. */
  lemma Quarter()
    ensures NumberGroup("1/4") == Ok(Num(Numeric.Decimal(25, 2)))
  {
    assert '/' in "1/4";
    QuarterParts();
    QuarterRound();
  }

  lemma LemonHead()
    ensures Head(Lemon, 2) == "檸檬" && Lemon[6..] == []
  {
    assert Lemon[..2] == "檸檬" && Lemon[|Lemon|..] == [];
    StrippedEnds(Lemon, 2, |Lemon|, "檸檬", []);
  }

  lemma LemonUnit()
    ensures Strip(Lemon[5..6]) == "顆"
  {
    assert Lemon[5..6] == "顆";
    StripOfStripped("顆");
  }

  lemma LemonPieces()
    ensures Head(Lemon, 2) + Lemon[6..] == "檸檬" && Strip(Lemon[5..6]) == "顆"
    ensures NumberGroup(Lemon[2..5]) == Ok(Num(Numeric.Decimal(25, 2)))
  {
    LemonHead();
    LemonUnit();
    assert Lemon[2..5] == "1/4";
    Quarter();
  }

  lemma LemonUnitBracket()
    ensures UnitBracket(Lemon) == Some(Ok(Record(Some("檸檬"), Num(Numeric.Decimal(25, 2)), Some("顆"))))
  {
    LemonUnitBracketAt();
    UnitBracketLeast(Lemon, 2, 5, 5, 6);
    LemonPieces();
  }

  lemma LemonNoRange()
    ensures Range(Lemon).None?
  {
    NoTildeNoRange(Lemon);
  }

  lemma LemonCascade()
    ensures Cascade.Cascade(Lemon) == Ok(Some(Record(Some("檸檬"), Num(Numeric.Decimal(25, 2)), Some("顆"))))
  {
    LemonUnitBracket();
    LemonNoRange();
    CascadeAtUnitBracket(Lemon);
  }

  lemma LemonParsed()
    ensures ParseIngredient(Lemon) == Ok(Record(Some("檸檬"), Num(Numeric.Decimal(25, 2)), Some("顆")))
  {
    PlainToken(Lemon);
    LemonCascade();
    CascadeDecides(Lemon, Lemon, Record(Some("檸檬"), Num(Numeric.Decimal(25, 2)), Some("顆")));
  }

  // ---------------------------------------------------------------------------
  // "鹽1／8茶匙" → {鹽, 0.125, 茶匙}: the full-width slash is normalised first.

  /** The token, written as its name, its amount and its unit. */
  const FullWidth: string := "鹽" + "1／8" + "茶匙"

  /** The token after normalisation. */
  const Eighth: string := "鹽" + "1/8" + "茶匙"

  /** Text with no glyph comes through glyph by glyph unchanged. */
  lemma NoGlyphs(s: string)
    requires forall k | 0 <= k < |s| :: s[k] !in GlyphKeys
    ensures MapChars(s, Glyph) == s
  {
    MapCharsIdentity(s, Glyph);
  }

  lemma SlashGlyph()
    ensures MapChars("／", Glyph) == "/"
  {
    assert Glyph('／') == "/";
    assert MapChars("／", Glyph) == Glyph('／') + MapChars([], Glyph);
  }

  /** A full-width slash between glyph-free texts becomes an ASCII slash. */
  lemma SlashBetween(a: string, b: string)
    requires forall k | 0 <= k < |a| :: a[k] !in GlyphKeys
    requires forall k | 0 <= k < |b| :: b[k] !in GlyphKeys
    ensures MapChars(a + ("／" + b), Glyph) == a + ("/" + b)
  {
    MapCharsAppend(a, "／" + b, Glyph);
    MapCharsAppend("／", b, Glyph);
    NoGlyphs(a);
    NoGlyphs(b);
    SlashGlyph();
  }

  lemma FullWidthGlyphs()
    ensures MapChars(FullWidth, Glyph) == Eighth
  {
    assert FullWidth == ("鹽" + "1") + ("／" + ("8" + "茶匙"));
    assert Eighth == ("鹽" + "1") + ("/" + ("8" + "茶匙"));
    SlashBetween("鹽" + "1", "8" + "茶匙");
  }

  lemma FullWidthNormal()
    ensures Normalise(Strip(FullWidth)) == Eighth
  {
    assert !IsSpace(FullWidth[0]) && !IsSpace(FullWidth[|FullWidth| - 1]);
    StripOfStripped(FullWidth);
    NormaliseCharwise(FullWidth);
    FullWidthGlyphs();
  }

  lemma EighthEnds()
    ensures NumberEnds(Eighth, 1, SlashPoint) == [4, 2]
  {
    assert RunEnd(Eighth, 2, IsDigit) == 2;
    assert RunEnd(Eighth, 1, IsDigit) == 2;
    assert RunEnd(Eighth, 4, IsDigit) == 4;
    assert RunEnd(Eighth, 3, IsDigit) == 4;
    assert DecimalEnds(Eighth, 4) == [];
    assert SlashEnds(Eighth, 2, true) == [4];
    assert EndsAt(Eighth, 2, SlashPoint) == [4, 2];
    assert LongestFirst(EndsOf(Eighth, SlashPoint), 1, 2) == [];
  }

  lemma EighthUnitBracketAt()
    ensures UnitBracketAt(Eighth, 1) == Some((4, (4, 6, 6)))
  {
    EighthEnds();
    UnitAndBracketToEndMeans(Eighth, 4, 4, 6);
  }

  /** 1/8 to 3 places is 0.125. */
  lemma OneEighth()
    ensures NumberGroup("1/8") == Ok(Num(Numeric.Decimal(125, 3)))
  {
    var q := "1/8";
    assert '/' in q;
    assert SlashAt(q, 1) && q[..1] == "1" && q[2..] == "8";
    assert DigitsValue("1") == 1 && DigitsValue("8") == 8;
    assert Pow10(3) == 1000;
    Numeric.RoundExact(125, 8);
  }

  lemma EighthHead()
    ensures Head(Eighth, 1) == "鹽" && Eighth[6..] == []
  {
    assert Eighth[..1] == "鹽" && Eighth[|Eighth|..] == [];
    StrippedEnds(Eighth, 1, |Eighth|, "鹽", []);
  }

  lemma EighthUnit()
    ensures Strip(Eighth[4..6]) == "茶匙"
  {
    assert Eighth[4..6] == "茶匙";
    StripOfStripped("茶匙");
  }

  lemma EighthPieces()
    ensures Head(Eighth, 1) + Eighth[6..] == "鹽" && Strip(Eighth[4..6]) == "茶匙"
    ensures NumberGroup(Eighth[1..4]) == Ok(Num(Numeric.Decimal(125, 3)))
  {
    EighthHead();
    EighthUnit();
    assert Eighth[1..4] == "1/8";
    OneEighth();
  }

  lemma EighthUnitBracket()
    ensures UnitBracket(Eighth) == Some(Ok(Record(Some("鹽"), Num(Numeric.Decimal(125, 3)), Some("茶匙"))))
  {
    EighthUnitBracketAt();
    UnitBracketLeast(Eighth, 1, 4, 4, 6);
    EighthPieces();
  }

  lemma EighthNoRange()
    ensures Range(Eighth).None?
  {
    NoTildeNoRange(Eighth);
  }

  lemma EighthCascade()
    ensures Cascade.Cascade(Eighth) == Ok(Some(Record(Some("鹽"), Num(Numeric.Decimal(125, 3)), Some("茶匙"))))
  {
    EighthUnitBracket();
    EighthNoRange();
    CascadeAtUnitBracket(Eighth);
  }

  /** The full-width slash parses like the ASCII one: {鹽, 0.125, 茶匙}. */
  lemma FullWidthParsed()
    ensures ParseIngredient(FullWidth) == Ok(Record(Some("鹽"), Num(Numeric.Decimal(125, 3)), Some("茶匙")))
  {
    FullWidthNormal();
    EighthCascade();
    CascadeDecides(FullWidth, Eighth, Record(Some("鹽"), Num(Numeric.Decimal(125, 3)), Some("茶匙")));
  }
}
