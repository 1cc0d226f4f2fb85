/** What the latest parser promises: which tokens each cascade pattern cannot
    match, the whole-token fallback, the bare vague word, and the unreachable
    seasoning loop of the late branch. */
module Parse0720Facts {
  import opened Wrappers
  import opened Text
  import opened Scan
  import opened Records
  import opened Lexicon
  import opened Typography
  import opened Cascade
  import opened Parse0720

  /** Every pattern that needs a digit after its name fails on text whose only
      digits, if any, are at the very start. */
  lemma {:induction false} NoDigitNumberPatternsFail(s: string)
    requires forall k | 1 <= k < |s| :: !IsDigit(s[k])
    ensures Range(s).None? && UnitBracket(s).None? && FractionUnit(s).None?
    ensures NumberRest(s).None? && TrailingNumber(s).None? && Special(s).None?
  {
    forall j | 1 <= j < |s|
      ensures && RangeAt(s, j).None? && UnitBracketAt(s, j).None? && FractionUnitAt(s, j).None?
              && NumberRestAt(s, j).None? && TrailingNumberAt(s, j).None? && SpecialAt(s, j).None?
    {
      assert !IsDigit(s[j]);
      assert NumberEnds(s, j, SlashPoint) == [] && NumberEnds(s, j, Slash) == [] && NumberEnds(s, j, Point) == [];
    }
  }

  /** The whitespace-before-vague-word pattern fails unless the text ends with
      one of its vague words. */
  lemma {:induction false} SpacedVagueNeedsSuffix(s: string)
    requires forall w | w in SpacedVague :: !EndsWith(s, w)
    ensures SpacedVagueWord(s).None?
  {
    forall j | 1 <= j < |s| ensures SpacedVagueAt(s, j).None? {
      if SpacedVagueAt(s, j).Some? {
        var m := SpacedVagueAt(s, j).value;
        assert EndsWith(s, s[m..]);
      }
    }
  }

  /** The counted-measure pattern needs a count numeral after the first character. */
  lemma {:induction false} CountMeasureNeedsNumeral(s: string)
    requires forall k | 1 <= k < |s| :: !IsCountNumeral(s[k])
    ensures CountMeasure(s).None?
  {
    forall j | 1 <= j < |s| ensures CountNumeralAt(s, j).None? {
    }
  }

  /** The same pattern needs whitespace before the vague word. */
  lemma {:induction false} SpacedVagueNeedsSpace(s: string)
    requires forall k | 0 <= k < |s| :: !IsSpace(s[k])
    ensures SpacedVagueWord(s).None?
  {
    forall j | 1 <= j < |s| ensures SpacedVagueAt(s, j).None? {
    }
  }

  /** The trailing-vague-word pattern fails unless a vague word ends the text
      after its first character. */
  lemma {:induction false} SuffixVagueNeedsSuffix(s: string)
    requires forall j | 1 <= j < |s| :: s[j..] !in SuffixVague
    ensures SuffixVagueWord(s).None?
  {
    forall j | 1 <= j < |s| ensures SuffixVagueAt(s, j).None? {
    }
  }

  lemma SuffixFromEnd(s: string)
    requires forall w | w in SuffixVague :: !EndsWith(s, w)
    ensures forall j | 1 <= j < |s| :: s[j..] !in SuffixVague
  {
    forall j | 1 <= j < |s| ensures s[j..] !in SuffixVague {
    }
  }

  lemma SuffixVagueSpaced()
    ensures forall w | w in SuffixVague :: w in SpacedVague
    ensures forall w | w in Vague :: w in SpacedVague
  {
  }

  /** The whole cascade fails on text with no digit and no count numeral after
      the first character and neither vague-word pattern matching. */
  lemma CascadeFailsOnPlainText(s: string)
    requires forall k | 1 <= k < |s| :: !IsDigit(s[k])
    requires forall k | 1 <= k < |s| :: !IsCountNumeral(s[k])
    requires SpacedVagueWord(s).None? && SuffixVagueWord(s).None?
    ensures Cascade.Cascade(s) == Ok(None)
  {
    NoDigitNumberPatternsFail(s);
    CountMeasureNeedsNumeral(s);
  }

  /** A character that could start a number somewhere in the parser. */
  predicate Numberish(c: char)
  {
    IsDigit(c) || c == '.' || IsNumeral(c) || IsCountNumeral(c) || c in GlyphKeys
  }

  /** A token with no numeral of any kind, no vague word at its end and no
      reference name at its start comes back whole as the name. */
  lemma WholeTokenIsName(raw: string)
    requires forall k | 0 <= k < |Strip(raw)| :: !Numberish(Strip(raw)[k])
    requires forall w | w in SpacedVague :: !EndsWith(Strip(raw), w)
    requires forall n | n in ReferenceNames :: !StartsWith(Strip(raw), n)
    ensures ParseIngredient(raw) == Ok(Record(Some(Strip(raw)), NoQty, None))
    ensures ParseIngredientAsWritten(raw) == Ok(Record(Some(Strip(raw)), NoQty, None))
  {
    PlainParse(raw, false);
    PlainParse(raw, true);
  }

  /** Either late branch: the cascade and every fallback fail on such a token. */
  lemma PlainParse(raw: string, seedFromRemainder: bool)
    requires forall k | 0 <= k < |Strip(raw)| :: !Numberish(Strip(raw)[k])
    requires forall w | w in SpacedVague :: !EndsWith(Strip(raw), w)
    requires forall n | n in ReferenceNames :: !StartsWith(Strip(raw), n)
    ensures Parse(raw, seedFromRemainder) == Ok(Record(Some(Strip(raw)), NoQty, None))
  {
    var t := Strip(raw);
    PlainCascade(t);
    PlainFallbacks(t, seedFromRemainder);
  }

  /** No cascade pattern matches such a token, which normalisation leaves alone. */
  lemma PlainCascade(t: string)
    requires forall k | 0 <= k < |t| :: !Numberish(t[k])
    requires forall w | w in SpacedVague :: !EndsWith(t, w)
    ensures Cascade.Cascade(Normalise(t)) == Ok(None)
  {
    CascadeNone(t);
  }

  /** The cascade fails on glyph-free text with no digit or count numeral past
      its first character and no vague word at its end. */
  lemma CascadeNone(t: string)
    requires forall k | 0 <= k < |t| :: t[k] !in GlyphKeys
    requires forall k | 1 <= k < |t| :: !IsDigit(t[k]) && !IsCountNumeral(t[k])
    requires forall w | w in SpacedVague :: !EndsWith(t, w)
    ensures Cascade.Cascade(Normalise(t)) == Ok(None)
  {
    NormaliseGlyphFree(t);
    NoVagueEnding(t);
    CascadeFailsOnPlainText(t);
  }

  /** Neither vague-word pattern matches text that ends with no vague word. */
  lemma NoVagueEnding(t: string)
    requires forall w | w in SpacedVague :: !EndsWith(t, w)
    ensures SpacedVagueWord(t).None? && SuffixVagueWord(t).None?
  {
    SuffixVagueSpaced();
    SpacedVagueNeedsSuffix(t);
    SuffixFromEnd(t);
    SuffixVagueNeedsSuffix(t);
  }

  /** The fallbacks on such a token reach the last line of the late branch. */
  lemma PlainFallbacks(t: string, seedFromRemainder: bool)
    requires forall k | 0 <= k < |t| :: !Numberish(t[k])
    requires forall w | w in SpacedVague :: !EndsWith(t, w)
    requires forall n | n in ReferenceNames :: !StartsWith(t, n)
    ensures Fallbacks(t, seedFromRemainder) == Ok(Record(Some(t), NoQty, None))
  {
    SuffixVagueSpaced();
    assert VagueFallback(t).None?;
    RepairWithoutSites(t, 0);
    assert Repair(t) == t;
    NoDigitNumberPatternsFail(t);
    assert AmountSearch(t).None?;
  }

  /** No two of the four vague words end one another. */
  lemma VagueSuffixFree(i: nat, j: nat)
    requires i < |Vague| && j < |Vague| && EndsWith(Vague[i], Vague[j])
    ensures i == j
  {
  }

  lemma VagueNormal(w: string)
    requires w in Vague
    ensures Normalise(w) == w
  {
    VagueWords(w);
    assert forall k | 0 <= k < |w| :: w[k] !in GlyphKeys;
    NormaliseGlyphFree(w);
  }

  /** The cascade leaves a bare vague word alone. */
  lemma VagueWordPassesCascade(w: string)
    requires w in Vague
    ensures Cascade.Cascade(Normalise(w)) == Ok(None)
  {
    VagueChars(w);
    VagueNormal(w);
    SpacedVagueNeedsSpace(w);
    SuffixVagueNeedsSuffix(w);
    CascadeFailsOnPlainText(w);
  }

  /** The vague-word fallback on the word itself. */
  lemma VagueFallbackOnWord(w: string)
    requires w in Vague
    ensures VagueFallback(w) == Some(Record(None, Text(w), None))
  {
    var k := FirstSuffix(Vague, w);
    var i :| 0 <= i < |Vague| && Vague[i] == w;
    VagueSuffixFree(i, k);
  }

  /** A token that is exactly one of the four vague words is a quantity with no
      name and no unit. */
  lemma ExactVagueToken(raw: string)
    requires Strip(raw) in Vague
    ensures ParseIngredient(raw) == Ok(Record(None, Text(Strip(raw)), None))
  {
    var t := Strip(raw);
    VagueWordPassesCascade(t);
    VagueWordFallback(t);
  }

  /** The fallbacks on a vague word: no reference name, then the word itself. */
  lemma VagueWordFallback(w: string)
    requires w in Vague
    ensures Fallbacks(w, false) == Ok(Record(None, Text(w), None))
  {
    assert w[..|w|] == w;
    VagueNotReference(w);
    assert LongestPrefix(ReferenceNames, w).None?;
    VagueFallbackOnWord(w);
  }

  // ---------------------------------------------------------------------------
  // The seasoning loop of the late branch

  /** No reference seasoning holds the digit '0'. */
  lemma SeasoningsZeroFree()
    ensures forall s | s in Seasonings :: '0' !in s
  {
  }

  /** The late branch's seasoning loop can never fire: a token that reaches the
      late branch starts with no reference name, and the "05" repair cannot make
      it start with a seasoning, since no seasoning holds a '0'. */
  lemma SeasoningLoopUnreachable(t: string)
    requires LongestPrefix(ReferenceNames, t).None?
    ensures forall s | s in Seasonings :: !StartsWith(Repair(t), s)
  {
    SeasoningsZeroFree();
    forall s | s in Seasonings ensures !StartsWith(Repair(t), s) {
      assert s in ReferenceNames;
      RepairKeepsZeroFreePrefix(t, s);
    }
  }
}
