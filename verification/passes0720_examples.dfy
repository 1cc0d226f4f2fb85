/** The compound-seasoning example of the list passes: the token
    "鹽巴白胡椒粉少許" parses to one record, and expansion replaces it by one
    record for 鹽巴 and one for 白胡椒粉. */
module ExamplesPasses {
  import opened Wrappers
  import opened Text
  import opened Records
  import opened Lexicon
  import opened Compound
  import opened Cascade
  import opened Parse0720
  import opened Passes
  import Examples0720
  import Parse0720Facts

  const Pair: string := "鹽巴" + "白胡椒粉"
  const Token: string := Pair + "少許"

  /** The record the parser gives the token. */
  const Glued: Record := Record(Some(Pair), Text("少許"), None)

  /** No seasoning is longer than four characters. */
  lemma SeasoningsShort()
    ensures forall m | m in Seasonings :: |m| <= 4
  {
    assert forall j | 0 <= j < |Seasonings| :: |Seasonings[j]| <= 4;
  }

  /** Of the seasonings only 鹽巴 and 鹽 start with 鹽. */
  lemma SaltInitial(s: string)
    requires |s| > 0 && s[0] == '鹽'
    ensures forall m | m in Seasonings && StartsWith(s, m) :: |m| <= 2
  {
    forall m | m in Seasonings && StartsWith(s, m) ensures |m| <= 2 {
      assert m[0] == s[0];
    }
  }

  /** A text that is a name followed by another name, where each is the longest
      name at its place, splits into those two names. */
  lemma SplitTwo(names: seq<string>, s: string, a: string, b: string)
    requires Splittable(names) && s == a + b && |a| > 0 && |b| > 0 && NoSpace(b)
    requires LongestPrefix(names, s) == Some(a) && LongestPrefix(names, b) == Some(b)
    ensures SplitBy(names, s) == [a, b]
  {
    assert s[|a|..] == b;
    StripOfStripped(b);
    SplitStep(names, s, a);
    assert b[|b|..] == [];
    StripOfStripped([]);
    SplitStep(names, b, b);
    var last := SplitBy(names, Strip(b[|b|..]));
    assert last == [];
    calc {
      SplitBy(names, s);
      [a] + SplitBy(names, b);
      [a] + ([b] + last);
    }
  }

  lemma PairSplit()
    ensures SplitCompounds(Pair) == ["鹽巴", "白胡椒粉"]
  {
    SeasoningsNonEmpty();
    SaltFirst();
    PepperWhole();
    PepperNoSpace();
    SplitTwo(Seasonings, Pair, "鹽巴", "白胡椒粉");
  }

  lemma PepperNoSpace()
    ensures NoSpace("白胡椒粉")
  {
  }

  lemma SaltFirst()
    ensures LongestPrefix(Seasonings, Pair) == Some("鹽巴")
  {
    SaltInitial(Pair);
    assert StartsWith(Pair, "鹽巴");
    LongestPrefixIs(Seasonings, Pair, "鹽巴");
  }

  lemma PepperWhole()
    ensures LongestPrefix(Seasonings, "白胡椒粉") == Some("白胡椒粉")
  {
    SeasoningsShort();
    assert StartsWith("白胡椒粉", "白胡椒粉");
    LongestPrefixIs(Seasonings, "白胡椒粉", "白胡椒粉");
  }

  lemma TokenCheckText()
    ensures CheckText(Token) == Pair
  {
    assert EndsWith(Token, Vague[0]);
    assert Token[..|Token| - |Vague[0]|] == Pair;
    StripOfStripped(Pair);
  }

  lemma TokenTriggers()
    ensures ShouldSplit(Glued, Token)
  {
    var once := Replace(Token, "少許", "");
    var twice := Replace(once, "適量", "");
    assert forall c | c in Token :: !Blocks(c);
    forall c | c in twice ensures !Blocks(c) {
      ReplaceDeleteSubset(once, "適量", c);
      ReplaceDeleteSubset(Token, "少許", c);
    }
  }

  lemma PairSeasonings()
    ensures AllSeasonings(["鹽巴", "白胡椒粉"])
  {
    assert Seasonings[5] == "鹽巴" && Seasonings[0] == "白胡椒粉";
  }

  lemma TokenExpands()
    ensures Expands(Glued, Token)
    ensures SplitCompounds(CheckText(Token)) == ["鹽巴", "白胡椒粉"]
  {
    TokenTriggers();
    TokenCheckText();
    PairSplit();
    PairSeasonings();
  }

  lemma PairRecords()
    ensures PartRecords(["鹽巴", "白胡椒粉"], Text("少許"))
         == [Record(Some("鹽巴"), Text("少許"), None), Record(Some("白胡椒粉"), Text("少許"), None)]
  {
    var r := PartRecords(["鹽巴", "白胡椒粉"], Text("少許"));
    assert |r| == 2 && r[0] == Record(Some("鹽巴"), Text("少許"), None) && r[1] == Record(Some("白胡椒粉"), Text("少許"), None);
  }

  /** "鹽巴白胡椒粉少許" becomes {鹽巴, 少許, None} and {白胡椒粉, 少許, None}. */
  lemma CompoundExpanded()
    ensures ExpandOne(Glued, Token) == [Record(Some("鹽巴"), Text("少許"), None), Record(Some("白胡椒粉"), Text("少許"), None)]
  {
    TokenExpands();
    PairRecords();
  }

  /** The list of that one token expands the same way. */
  lemma CompoundListExpanded()
    ensures Expand([Glued], [Token]) == [Record(Some("鹽巴"), Text("少許"), None), Record(Some("白胡椒粉"), Text("少許"), None)]
  {
    CompoundExpanded();
    ExpandSingle(Glued, Token);
  }

  /** Only the last two characters of the token form a trailing vague word. */
  lemma TokenSuffixes()
    ensures forall j | 1 <= j < 6 :: Token[j..] !in SuffixVague
  {
    assert forall w | w in SuffixVague :: |w| <= 3 && (|w| == 3 ==> w[0] == '依');
    forall j | 1 <= j < 6 ensures Token[j..] !in SuffixVague {
      assert |Token[j..]| >= 3 && Token[j..][0] == Token[j];
    }
  }

  lemma TokenChars()
    ensures forall k | 0 <= k < |Token| :: !IsDigit(Token[k])
    ensures forall k | 0 <= k < |Token| :: !IsSpace(Token[k])
    ensures forall k | 0 <= k < |Token| :: !IsCountNumeral(Token[k])
    ensures forall k | 0 <= k < |Token| :: Token[k] !in Typography.GlyphKeys
  {
  }

  /** The head of a trimmed text followed by a word is that text. */
  lemma HeadOfJoin(s: string, a: string, w: string)
    requires s == a + w && Trimmed(a)
    ensures Head(s, |a|) == a && s[|a|..] == w && s[..|a|] == a
  {
    assert s[..|a|] == a && s[|a|..] == w;
    StripOfStripped(a);
  }

  lemma PairPlain()
    ensures Trimmed(Pair) && '\n' !in Pair && |Pair| == 6
  {
  }

  lemma TokenPieces()
    ensures Head(Token, 6) == Pair && Token[6..] == "少許" && Token[6..] in SuffixVague && '\n' !in Token[..6]
  {
    PairPlain();
    HeadOfJoin(Token, Pair, "少許");
    assert Vague[0] == "少許";
  }

  lemma TokenSuffix()
    ensures SuffixVagueWord(Token) == Some(Glued)
  {
    TokenPieces();
    TokenSuffixes();
    SuffixVagueLeast(Token, 6);
  }

  lemma TokenCascade()
    ensures Cascade.Cascade(Token) == Ok(Some(Glued))
  {
    TokenChars();
    TokenSuffix();
    Examples0720.EarlyPatternsFail(Token);
    Parse0720Facts.CountMeasureNeedsNumeral(Token);
    CascadeAtSuffixVague(Token);
  }

  /** The token reaches the parser's trailing-vague pattern, which gives the
      glued record. */
  lemma TokenParsed()
    ensures ParseIngredient(Token) == Ok(Glued)
  {
    TokenChars();
    Examples0720.PlainToken(Token);
    TokenCascade();
    Examples0720.CascadeDecides(Token, Token, Glued);
  }
}
