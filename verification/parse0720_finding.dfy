/** The late branch's name when nothing precedes the quantity. As written, the
    branch starts the name from the words after the unit (the `unit_match`
    remainder) and then appends those same words again, so "2顆 蛋" is named
    "蛋蛋". The corrected branch builds the name from the text after the
    quantity only, and its name is always a piece of that text. */
module LateName {
  import opened Wrappers
  import opened Text
  import opened Numeric
  import opened Records
  import opened Lexicon
  import opened Convert
  import opened Parse0720
  import Parse0720Facts

  lemma {:induction false} UnitTestWithin(post: string)
    ensures Within(UnitTest("", post).0, post) && Within(UnitTest("", post).1, post)
  {
    var g := RunEndWord(post);
    var m := Scan.RunEnd(post, g, IsSpace);
    var l := LineEnd(post, m);
    WithinSlice(post, 0, g);
    WithinSlice(post, 0, 0);
    WithinSlice(post, 0, |post|);
    assert post[0..|post|] == post;
    WithinSlice(post, m, l);
    WithinStrip(post[m..l]);
    WithinTrans(Strip(post[m..l]), post[m..l], post);
  }

  function RunEndWord(post: string): (g: nat)
    ensures g <= |post|
  {
    Scan.RunEnd(post, 0, Scan.IsWordPiece)
  }

  lemma SettleWithin(name: string, unit: string, post: string)
    requires Within(name, post) && Within(unit, post)
    ensures Within(Settle(name, unit, "").0, post)
  {
    var (name2, unit2) := if |name| == 0 && |unit| > 0 then (unit, "") else (name, unit);
    UnitFromNameWithin(name2, unit2, post);
  }

  /** Giving up a trailing unit word keeps the name a piece of `post`. */
  lemma UnitFromNameWithin(name: string, unit: string, post: string)
    requires Within(name, post)
    ensures Within(UnitFromName(name, unit).0, post)
  {
    TakeSuffixWithin(Units, name, unit, post);
  }

  /** Giving up a trailing word keeps the name a piece of `post`. */
  lemma TakeSuffixWithin(words: seq<string>, name: string, unit: string, post: string)
    requires Within(name, post)
    ensures Within(TakeSuffix(words, name, unit).0, post)
  {
    var n := TakeSuffixShape(words, name, unit);
    CutWithin(name, n, post);
  }

  /** The name left by `TakeSuffix` is the name itself or a stripped prefix of it. */
  lemma TakeSuffixShape(words: seq<string>, name: string, unit: string) returns (n: nat)
    ensures n <= |name|
    ensures TakeSuffix(words, name, unit).0 == name || TakeSuffix(words, name, unit).0 == Strip(name[..n])
  {
    n := 0;
    if |name| > 0 && |unit| == 0 && LongestSuffix(words, name).Some? {
      var u := LongestSuffix(words, name).value;
      assert EndsWith(name, u);
      n := |name| - |u|;
    }
  }

  /** A stripped prefix of a piece of `post` is a piece of `post`. */
  lemma CutWithin(name: string, n: nat, post: string)
    requires n <= |name| && Within(name, post)
    ensures Within(Strip(name[..n]), post)
  {
    var cut := name[..n];
    WithinSlice(name, 0, n);
    WithinStrip(cut);
    WithinTrans(Strip(cut), cut, name);
    WithinTrans(Strip(cut), name, post);
  }

  /** Corrected branch: with nothing before the quantity, the name is a piece of
      the stripped text after it (never a repetition of it). */
  lemma CorrectedNameWithinRest(s: string)
    requires Special(s).None? && AmountSearch(s).Some?
    requires AllSpace(s[..AmountSearch(s).value.0])
    ensures LateBranch(s, false).Ok?
    ensures var r := LateBranch(s, false).value;
            r.name.Some? ==> Within(r.name.value, Strip(s[AmountSearch(s).value.1..]))
  {
    var (p, e1) := AmountSearch(s).value;
    var post := Strip(s[e1..]);
    assert Strip(s[..p]) == "";
    UnitTestWithin(post);
    var (name1, unit1) := UnitTest("", post);
    SettleWithin(name1, unit1, post);
    assert NameAndUnit(s, p, e1, "") == Settle(name1, unit1, "");
  }

  /** The token the finding is shown on: a digit, a unit, a space, a name. */
  const Egg: string := "2顆 蛋"

  lemma EggSearch()
    ensures Special(Egg).None?
    ensures AmountSearch(Egg) == Some((0, 1))
  {
    EggNotSpecial();
    EggAmount();
  }

  lemma EggNotSpecial()
    ensures Special(Egg).None?
  {
    Parse0720Facts.NoDigitNumberPatternsFail(Egg);
  }

  lemma EggAmount()
    ensures AmountSearch(Egg) == Some((0, 1))
  {
    assert FirstAmount(Egg, 0) == 0;
    assert Scan.RunEnd(Egg, 0, IsDigitOrPoint) == 1 by {
      assert !IsDigitOrPoint(Egg[1]);
    }
  }

  lemma EggPost()
    ensures Strip(Egg[1..]) == "顆 蛋"
  {
    StripOfStripped("顆 蛋");
    assert Egg[1..] == "顆 蛋";
  }

  /** "顆 蛋" is the unit word 顆, one space, and the name 蛋. */
  lemma EggShape()
    ensures Scan.RunEnd("顆 蛋", 0, Scan.IsWordPiece) == 1
    ensures Scan.RunEnd("顆 蛋", 0, IsUnitWordChar) == 1
    ensures Scan.RunEnd("顆 蛋", 1, IsSpace) == 2
    ensures LineEnd("顆 蛋", 2) == 3
    ensures Strip("顆 蛋"[2..3]) == "蛋"
  {
    var post := "顆 蛋";
    assert Scan.RunEnd(post, 1, Scan.IsWordPiece) == 1;
    assert Scan.RunEnd(post, 1, IsUnitWordChar) == 1;
    assert Scan.RunEnd(post, 2, IsSpace) == 2;
    assert post[2..3] == "蛋";
    StripOfStripped("蛋");
  }

  lemma EggHasUnit()
    ensures HasUnit("顆 蛋"[..1])
  {
    assert "顆 蛋"[..1] == "顆" == Units[6];
    assert OccursAt("顆", "顆", 0);
  }

  lemma EggUnitTest(seed: string)
    ensures UnitTest(seed, "顆 蛋") == (if |seed| > 0 then seed + "蛋" else "蛋", "顆")
  {
    EggShape();
    EggHasUnit();
    var post := "顆 蛋";
    var g := Scan.RunEnd(post, 0, Scan.IsWordPiece);
    var m := Scan.RunEnd(post, g, IsSpace);
    assert g == 1 && m == 2;
    assert post[m..LineEnd(post, m)] == post[2..3];
    assert g > 0 && HasUnit(post[..g]);
    assert post[..g] == "顆";
    assert UnitTest(seed, post).1 == "顆";
    assert UnitTest(seed, post).0 == if |seed| > 0 then seed + "蛋" else "蛋";
  }

  lemma EggRemainder()
    ensures RemainderName("顆 蛋") == "蛋"
  {
    var rest := "顆 蛋";
    EggShape();
    assert Boundary(rest, 1);
    assert BoundedUnitEnd(rest, 1) == 1;
  }

  lemma EggSettle(name: string)
    requires |name| > 0
    ensures Settle(name, "顆", "") == (name, "顆")
  {
  }

  lemma EggQuantity()
    ensures RunQuantity(Egg[0..1]) == Num(Decimal(2, 0))
  {
    var q := Egg[0..1];
    assert q == "2";
    assert AllDigits(q) && DigitsValue(q) == 2;
    RoundToExact(Decimal(2, 0), 2);
  }

  lemma EggNameAndUnit(seed: string)
    ensures NameAndUnit(Egg, 0, 1, seed) == (if |seed| > 0 then seed + "蛋" else "蛋", "顆")
  {
    EggPost();
    EggUnitTest(seed);
    assert Strip(Egg[..0]) == "";
    var name := if |seed| > 0 then seed + "蛋" else "蛋";
    EggSettle(name);
  }

  lemma NotWithin()
    ensures !Within("蛋蛋", "顆 蛋")
  {
    forall i, j | 0 <= i <= j <= 3 ensures "蛋蛋" != "顆 蛋"[i..j] {
      if j - i == 2 {
        assert "顆 蛋"[i..j][0] == "顆 蛋"[i];
      }
    }
  }

  lemma EggSeed()
    ensures RemainderName(Strip(Egg[1..])) == "蛋"
  {
    EggPost();
    EggRemainder();
  }

  /** The late branch when the special pattern fails and the search finds the
      quantity at `s[p..e1]`. */
  lemma SearchBranch(s: string, p: nat, e1: nat, seed: string, seedFromRemainder: bool)
    requires Special(s).None? && AmountSearch(s) == Some((p, e1))
    requires seed == if seedFromRemainder then RemainderName(Strip(s[e1..])) else ""
    ensures LateBranch(s, seedFromRemainder)
         == Ok(Record(OrNone(NameAndUnit(s, p, e1, seed).0), RunQuantity(s[p..e1]), OrNone(NameAndUnit(s, p, e1, seed).1)))
  {
  }

  lemma Twice()
    ensures "蛋" + "蛋" == "蛋蛋"
  {
    assert ("蛋" + "蛋")[0] == '蛋' && ("蛋" + "蛋")[1] == '蛋';
  }

  /** As written: "2顆 蛋" is named "蛋蛋", which is not a piece of "顆 蛋". */
  lemma DuplicatedName()
    ensures LateBranch(Egg, true) == Ok(Record(Some("蛋蛋"), Num(Decimal(2, 0)), Some("顆")))
    ensures !Within("蛋蛋", Strip(Egg[1..]))
  {
    EggSearch();
    EggSeed();
    SearchBranch(Egg, 0, 1, "蛋", true);
    EggNameAndUnit("蛋");
    EggQuantity();
    var n := NameAndUnit(Egg, 0, 1, "蛋");
    Twice();
    assert n == ("蛋蛋", "顆");
    assert OrNone(n.0) == Some("蛋蛋") && OrNone(n.1) == Some("顆");
    NotWithin();
    EggPost();
  }

  /** Corrected: the same token is named "蛋". */
  lemma SingleName()
    ensures LateBranch(Egg, false) == Ok(Record(Some("蛋"), Num(Decimal(2, 0)), Some("顆")))
  {
    EggSearch();
    SearchBranch(Egg, 0, 1, "", false);
    EggNameAndUnit("");
    EggQuantity();
  }

  lemma EggChars()
    ensures forall k | 1 <= k < |Egg| :: !IsDigit(Egg[k]) && !IsCountNumeral(Egg[k])
    ensures forall k | 0 <= k < |Egg| :: Egg[k] !in Typography.GlyphKeys && Egg[k] != '0'
    ensures Egg[0] !in ReferenceInitials
  {
  }

  lemma EggEnding()
    ensures forall w | w in SpacedVague :: !EndsWith(Egg, w)
  {
    forall w | w in SpacedVague ensures !EndsWith(Egg, w) {
      assert |w| > 0 && w[|w| - 1] != '蛋';
    }
  }

  lemma EggStripped()
    ensures Strip(Egg) == Egg
  {
    StripOfStripped(Egg);
  }

  lemma EggCascade()
    ensures Cascade.Cascade(Typography.Normalise(Strip(Egg))) == Ok(None)
  {
    EggChars();
    EggEnding();
    EggStripped();
    Parse0720Facts.CascadeNone(Egg);
  }

  lemma EggFallbacks(seedFromRemainder: bool)
    ensures Fallbacks(Egg, seedFromRemainder) == LateBranch(Egg, seedFromRemainder)
  {
    EggChars();
    EggEnding();
    Parse0720Facts.SuffixVagueSpaced();
    NoReferencePrefix(Egg);
    assert VagueFallback(Egg).None?;
    Typography.RepairWithoutSites(Egg, 0);
    assert Typography.Repair(Egg) == Egg;
  }

  /** "2顆 蛋" gets past the cascade and both early fallbacks. */
  lemma EggReachesLateBranch(seedFromRemainder: bool)
    ensures Parse(Egg, seedFromRemainder) == LateBranch(Egg, seedFromRemainder)
  {
    EggCascade();
    EggStripped();
    EggFallbacks(seedFromRemainder);
  }

  /** The finding on the whole parser: as written, "2顆 蛋" is named "蛋蛋";
      corrected, "蛋". */
  lemma EggParsed()
    ensures ParseIngredientAsWritten(Egg) == Ok(Record(Some("蛋蛋"), Num(Decimal(2, 0)), Some("顆")))
    ensures ParseIngredient(Egg) == Ok(Record(Some("蛋"), Num(Decimal(2, 0)), Some("顆")))
  {
    EggReachesLateBranch(true);
    EggReachesLateBranch(false);
    DuplicatedName();
    SingleName();
  }
}
