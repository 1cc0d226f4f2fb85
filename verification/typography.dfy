/** Two textual clean-ups applied before numbers are read: the full-width slash and
    the Unicode vulgar-fraction glyphs are spelled out as `a/b`, and a '0' typed
    for "0." (as in "鹽05") gets its decimal point back. */
module Typography {
  import opened Text

  /** The glyphs the parser rewrites, in the order it rewrites them: the
      full-width slash first, then the eighteen vulgar fractions. */
  const GlyphKeys: string := "／¼½¾⅐⅑⅒⅓⅔⅕⅖⅗⅘⅙⅚⅛⅜⅝⅞"

  /** The fraction text a glyph is rewritten to. */
  function Spelled(c: char): string
  {
    match c
    case '／' => "/"
    case '¼' => "1/4"
    case '½' => "1/2"
    case '¾' => "3/4"
    case '⅐' => "1/7"
    case '⅑' => "1/9"
    case '⅒' => "1/10"
    case '⅓' => "1/3"
    case '⅔' => "2/3"
    case '⅕' => "1/5"
    case '⅖' => "2/5"
    case '⅗' => "3/5"
    case '⅘' => "4/5"
    case '⅙' => "1/6"
    case '⅚' => "5/6"
    case '⅛' => "1/8"
    case '⅜' => "3/8"
    case '⅝' => "5/8"
    case '⅞' => "7/8"
    case _ => [c]
  }

  /** What normalisation makes of one character: the spelled-out fraction for a
      glyph, the character itself otherwise. */
  function Glyph(c: char): (r: string)
    ensures |r| > 0
    ensures c in GlyphKeys <==> r != [c]
    ensures c in GlyphKeys ==> forall d | d in r :: (IsDigit(d) || d == '/') && d !in GlyphKeys
  {
    if c in GlyphKeys then
      var r := Spelled(c);
      SpelledFractions();
      var i :| 0 <= i < |GlyphKeys| && GlyphKeys[i] == c;
      assert FractionText(r);
      FractionTextNoGlyph(r);
      r
    else [c]
  }

  /** Text made of digits and slashes only. */
  predicate FractionText(r: string)
  {
    forall k | 0 <= k < |r| :: IsDigit(r[k]) || r[k] == '/'
  }

  /** Every glyph is spelled as a non-empty fraction. */
  lemma SpelledFractions()
    ensures forall i | 0 <= i < |GlyphKeys| :: |Spelled(GlyphKeys[i])| > 0 && FractionText(Spelled(GlyphKeys[i]))
  {
  }

  /** Digits and slashes lie below every glyph. */
  lemma FractionTextNoGlyph(r: string)
    requires FractionText(r)
    ensures forall d | d in r :: (IsDigit(d) || d == '/') && d !in GlyphKeys
  {
  }

  /** One `str.replace` per glyph, in order. */
  function ReplaceEach(s: string, keys: string): string
    decreases |keys|
  {
    if keys == [] then s else ReplaceEach(Replace(s, [keys[0]], Spelled(keys[0])), keys[1..])
  }

  /** The text the cascade works on: every glyph replaced, in the parser's order. */
  function Normalise(s: string): string
  {
    ReplaceEach(s, GlyphKeys)
  }

  /** The substitution that spells out the glyphs in `keys` and keeps every
      other character. */
  function SpellKeys(keys: string): char -> string
  {
    c => if c in keys then Spelled(c) else [c]
  }

  /** Replacing the glyphs one after another is one character-wise substitution:
      no replacement text contains a glyph a later step would rewrite. */
  lemma {:induction false} ReplaceEachCharwise(s: string, keys: string)
    requires forall k | k in keys :: k in GlyphKeys
    ensures ReplaceEach(s, keys) == MapChars(s, SpellKeys(keys))
    decreases |keys|
  {
    if keys == [] {
      MapCharsIdentity(s, SpellKeys(keys));
    } else {
      var k := keys[0];
      var rest := keys[1..];
      var f := x => if x == k then Spelled(k) else [x];
      var g := SpellKeys(rest);
      var h := SpellKeys(keys);
      assert forall c | c in rest :: c in keys;
      ReplaceAsMap(s, k, Spelled(k));
      ReplaceEachCharwise(Replace(s, [k], Spelled(k)), rest);
      MapCharsCompose(s, f, g);
      forall c | c in s ensures MapChars(f(c), g) == h(c) {
        if c == k {
          assert Spelled(k) == Glyph(k);
          MapCharsIdentity(Spelled(k), g);
        } else {
          assert c in keys <==> c in rest;
          assert MapChars([c], g) == g(c) + MapChars([], g);
        }
      }
      MapCharsCongruent(s, c => MapChars(f(c), g), h);
    }
  }

  /** Normalising rewrites each character on its own. */
  lemma NormaliseCharwise(s: string)
    ensures Normalise(s) == MapChars(s, Glyph)
  {
    ReplaceEachCharwise(s, GlyphKeys);
    forall c | c in s ensures SpellKeys(GlyphKeys)(c) == Glyph(c) {
    }
    MapCharsCongruent(s, SpellKeys(GlyphKeys), Glyph);
  }

  /** Whitespace is left alone and other characters never become whitespace. */
  lemma GlyphSpaces(c: char)
    ensures IsSpace(c) ==> Glyph(c) == [c]
    ensures !IsSpace(c) ==> forall d | d in Glyph(c) :: !IsSpace(d)
  {
  }

  /** The rewrite of a character is left alone by a second rewrite. */
  lemma GlyphStable(c: char)
    ensures MapChars(Glyph(c), Glyph) == Glyph(c)
  {
    var r := Glyph(c);
    if c in GlyphKeys {
      forall d | d in r ensures Glyph(d) == [d] {
        assert d !in GlyphKeys;
      }
      MapCharsIdentity(r, Glyph);
    } else {
      assert MapChars([c], Glyph) == Glyph(c) + MapChars([], Glyph);
    }
  }

  lemma {:induction false} GlyphMapIdempotent(s: string)
    ensures MapChars(MapChars(s, Glyph), Glyph) == MapChars(s, Glyph)
  {
    var f: char -> string := Glyph;
    MapCharsCompose(s, f, f);
    forall c | c in s ensures MapChars(f(c), f) == f(c) {
      GlyphStable(c);
    }
    MapCharsCongruent(s, c => MapChars(f(c), f), f);
  }

  /** Normalised text has nothing left to normalise. */
  lemma NormaliseIdempotent(s: string)
    ensures Normalise(Normalise(s)) == Normalise(s)
  {
    var n := Normalise(s);
    NormaliseCharwise(s);
    NormaliseCharwise(n);
    GlyphMapIdempotent(s);
  }

  /** '0' at `p` between a non-digit and a digit: where `(?<=\D)0(\d)` matches. */
  predicate RepairSite(s: string, p: nat)
  {
    1 <= p && p + 1 < |s| && !IsDigit(s[p - 1]) && s[p] == '0' && IsDigit(s[p + 1])
  }

  /** `re.sub(r"(?<=\D)0(\d)", r"0.\1", s)` from position `p`: matches are found
      left to right, and scanning resumes after the consumed digit. */
  function RepairFrom(s: string, p: nat): string
    requires p <= |s|
    decreases |s| - p
  {
    if p == |s| then []
    else if RepairSite(s, p) then "0." + [s[p + 1]] + RepairFrom(s, p + 2)
    else [s[p]] + RepairFrom(s, p + 1)
  }

  /** The typo repair "05" to "0.5" (it needs a non-digit before the '0'). */
  function Repair(s: string): string
  {
    RepairFrom(s, 0)
  }

  /** Every character of `s` from `p` on, with a '.' after each repair site. */
  function Marked(s: string, p: nat): string
    requires p <= |s|
    decreases |s| - p
  {
    if p == |s| then [] else [s[p]] + (if RepairSite(s, p) then "." else "") + Marked(s, p + 1)
  }

  /** The scan never misses a site: the digit it consumes after a site is never
      itself a site, since a site needs a non-digit before it. */
  lemma {:induction false} RepairIsMarked(s: string, p: nat)
    requires p <= |s|
    ensures RepairFrom(s, p) == Marked(s, p)
    decreases |s| - p
  {
    if p < |s| {
      if RepairSite(s, p) {
        RepairIsMarked(s, p + 2);
        SiteMarked(s, p);
      } else {
        RepairIsMarked(s, p + 1);
        PlainMarked(s, p);
      }
    }
  }

  /** At a site the scan emits "0.", the digit, and goes on two places later. */
  lemma SiteMarked(s: string, p: nat)
    requires p + 2 <= |s| && RepairSite(s, p)
    requires RepairFrom(s, p + 2) == Marked(s, p + 2)
    ensures RepairFrom(s, p) == Marked(s, p)
  {
    assert !RepairSite(s, p + 1);
    var rest := Marked(s, p + 2);
    assert Marked(s, p + 1) == [s[p + 1]] + rest;
    MarkRegroup(s[p], s[p + 1], rest);
  }

  /** Elsewhere the scan copies one character. */
  lemma PlainMarked(s: string, p: nat)
    requires p < |s| && !RepairSite(s, p)
    requires RepairFrom(s, p + 1) == Marked(s, p + 1)
    ensures RepairFrom(s, p) == Marked(s, p)
  {
  }

  lemma MarkRegroup(zero: char, digit: char, rest: string)
    requires zero == '0'
    ensures "0." + [digit] + rest == [zero] + "." + ([digit] + rest)
  {
  }

  /** A '0'-free stretch is copied unchanged. */
  lemma {:induction false} MarkedZeroFree(s: string, p: nat, n: nat)
    requires p <= n <= |s| && '0' !in s[p..n]
    ensures Marked(s, p) == s[p..n] + Marked(s, n)
    decreases n - p
  {
    if p < n {
      assert s[p] == s[p..n][0];
      assert s[p + 1..n] == s[p..n][1..];
      MarkedZeroFree(s, p + 1, n);
    }
  }

  /** A prefix without '0' survives the repair, in both directions. */
  lemma RepairKeepsZeroFreePrefix(s: string, w: string)
    requires '0' !in w
    ensures StartsWith(Repair(s), w) <==> StartsWith(s, w)
  {
    RepairIsMarked(s, 0);
    var n := if '0' in s then Find(s, "0") else |s|;
    if '0' in s {
      ContainsChar(s, '0');
      assert OccursAt(s, "0", n);
      assert s[n] == '0' by { assert s[n..n + 1][0] == s[n]; }
      forall k | 0 <= k < n ensures s[k] != '0' {
        assert !OccursAt(s, "0", k);
        assert s[k..k + 1] == [s[k]];
      }
    }
    assert '0' !in s[..n];
    MarkedZeroFree(s, 0, n);
    var r := Repair(s);
    assert r == s[..n] + Marked(s, n);
    assert n < |s| ==> r[n] == '0';
    if StartsWith(r, w) {
      assert w == r[..|w|] == s[..|w|];
    }
    if StartsWith(s, w) {
      assert w == s[..|w|] == r[..|w|];
    }
  }

  /** Text without a repair site from `p` on is copied unchanged. */
  lemma {:induction false} RepairWithoutSites(s: string, p: nat)
    requires p <= |s|
    requires forall k | p <= k < |s| :: !RepairSite(s, k)
    ensures RepairFrom(s, p) == s[p..]
    decreases |s| - p
  {
    if p < |s| {
      RepairWithoutSites(s, p + 1);
      assert s[p..] == [s[p]] + s[p + 1..];
    }
  }

  /** Glyph-free text is already normal. */
  lemma NormaliseGlyphFree(s: string)
    requires forall k | 0 <= k < |s| :: s[k] !in GlyphKeys
    ensures Normalise(s) == s
  {
    NormaliseCharwise(s);
    MapCharsIdentity(s, Glyph);
  }
}
