/** The ordered pattern cascade tried first on a (stripped, glyph-normalised)
    ingredient token; the first pattern that matches decides the record. Every
    pattern starts with a lazy `^(.+?)`, so each one is a `LazySplit` over split
    indices with a per-index attempt. */
module Cascade {
  import opened Wrappers
  import opened Text
  import opened Scan
  import opened Records
  import opened Lexicon
  import opened Convert

  /** The name group: `group(1).strip()`. */
  function Head(s: string, i: nat): string
    requires i <= |s|
  {
    Strip(s[..i])
  }

  /** `\s*(.+)$` tried at each candidate end. */
  function RestTail(s: string): nat -> Option<nat>
  {
    (k: nat) => if k <= |s| then RestFrom(s, k) else None
  }

  /** `\s*([^\d\s\(]+)(\([^)]*\))?$` tried at each candidate end. */
  function UnitTailAt(s: string): nat -> Option<(nat, nat, nat)>
  {
    (k: nat) => if k <= |s| then UnitAndBracketToEnd(s, k) else None
  }

  /** `\s*([^\d\s]+)$` tried at each candidate end. */
  function WordTailAt(s: string): nat -> Option<nat>
  {
    (k: nat) => if k <= |s| then WordToEnd(s, k) else None
  }

  /** `$` tried at each candidate end. */
  function EndTail(s: string): nat -> Option<()>
  {
    (k: nat) => if k == |s| then Some(()) else None
  }

  // ---------------------------------------------------------------------------
  // Pattern 1: `^(.+?)(\d+[～~]\d+)\s*(.+)$`

  /** At split `i`: `(k, q)` with the range group `s[i..k]` and group 3 from `q`.
      Giving back digits of the first run cannot help, since the separator must
      follow it, so only the second run is given back. */
  function RangeAt(s: string, i: nat): (r: Option<(nat, nat)>)
    requires i <= |s|
    ensures r.Some? ==> i < r.value.0 <= r.value.1 < |s|
  {
    var a := RunEnd(s, i, IsDigit);
    if a == i || a == |s| || s[a] !in "～~" then None
    else
      var b := RunEnd(s, a + 1, IsDigit);
      FirstOf(DownFrom(b, a + 2), RestTail(s))
  }

  /** The pattern's groups 2 and 3 at split `i`: digits `s[i..a]`, a tilde, digits
      `s[a + 1..k]`, and group 3 starting at `q` after optional whitespace. */
  predicate RangeShape(s: string, i: nat, a: nat, k: nat, q: nat)
  {
    DigitsSpan(s, i, a) && a < |s| && s[a] in "～~" && DigitsSpan(s, a + 1, k) && RestStart(s, k, q)
  }

  /** What `RangeAt` finds is a range followed by a rest. */
  lemma RangeAtSound(s: string, i: nat)
    requires i <= |s|
    ensures RangeAt(s, i).Some? ==> RangeShape(s, i, RunEnd(s, i, IsDigit), RangeAt(s, i).value.0, RangeAt(s, i).value.1)
  {
    var r := RangeAt(s, i);
    if r.Some? {
      var a := RunEnd(s, i, IsDigit);
      var (k, q) := r.value;
      assert k in DownFrom(RunEnd(s, a + 1, IsDigit), a + 2);
      RunEndCovers(s, a + 1, IsDigit, k);
      assert RestFrom(s, k) == Some(q);
    }
  }

  /** Any range followed by a rest at split `i` makes `RangeAt` succeed there. */
  lemma RangeAtComplete(s: string, i: nat, a: nat, k: nat, q: nat)
    requires RangeShape(s, i, a, k, q)
    ensures RangeAt(s, i).Some?
  {
    RunEndCovers(s, i, IsDigit, a);
    RunEndCovers(s, i, IsDigit, a + 1);
    assert RunEnd(s, i, IsDigit) == a;
    RunEndCovers(s, a + 1, IsDigit, k);
    var b := RunEnd(s, a + 1, IsDigit);
    assert k in DownFrom(b, a + 2);
    RestFromSucceeds(s, k);
    assert RestTail(s)(k).Some?;
  }

  /** The attempt at each split index, as the lazy search takes it. */
  function RangeTry(s: string): nat -> Option<(nat, nat)>
  {
    (i: nat) => if i <= |s| then RangeAt(s, i) else None
  }

  function RangeMatch(s: string): (r: Option<(nat, (nat, nat))>)
    ensures r.Some? ==> 1 <= r.value.0 < |s| && RangeAt(s, r.value.0) == Some(r.value.1)
  {
    LazySplit(s, RangeTry(s))
  }

  /** Name, the literal range text, and the rest as the unit. */
  function Range(s: string): (r: Option<Record>)
    ensures r.Some? ==> r.value.quantity.Text? && r.value.name.Some? && r.value.unit.Some?
  {
    match RangeMatch(s)
    case None => None
    case Some((i, (k, q))) => Some(Record(Some(Head(s, i)), Text(s[i..k]), Some(Strip(s[q..]))))
  }

  /** At the least split where a range matches, the record is the stripped
      name, the range text as written, and the stripped rest as the unit. */
  lemma RangeLeast(s: string, i: nat)
    requires 1 <= i < |s| && '\n' !in s[..i] && RangeAt(s, i).Some?
    requires forall j | 1 <= j < i :: RangeAt(s, j).None?
    ensures Range(s) == Some(Record(Some(Head(s, i)), Text(s[i..RangeAt(s, i).value.0]), Some(Strip(s[RangeAt(s, i).value.1..]))))
  {
    LazySplitAt(s, RangeTry(s), i);
  }

  // ---------------------------------------------------------------------------
  // Pattern 2: `^(.+?)(\d+(?:/\d+)?(?:\.\d+)?)\s*([^\d\s\(]+)(\([^)]*\))?$`

  /** At split `i`: the number end `k` and the unit/bracket bounds `(m, e, b)`. */
  function UnitBracketAt(s: string, i: nat): (r: Option<(nat, (nat, nat, nat))>)
    requires i <= |s|
    ensures r.Some? ==> i < r.value.0 <= r.value.1.0 < r.value.1.1 <= r.value.1.2 == |s|
  {
    FirstOf(NumberEnds(s, i, SlashPoint), UnitTailAt(s))
  }

  /** Groups 2 to 4 at split `i`: the number `s[i..k]`, then the unit `s[m..e]`
      and an optional parenthetical running to the end. */
  ghost predicate UnitBracketShape(s: string, i: nat, k: nat, m: nat, e: nat)
  {
    NumberSpan(s, i, k, SlashPoint) && UnitTail(s, k, m, e)
  }

  lemma UnitBracketAtSound(s: string, i: nat)
    requires i <= |s|
    ensures UnitBracketAt(s, i).Some? ==>
      var r := UnitBracketAt(s, i).value;
      UnitBracketShape(s, i, r.0, r.1.0, r.1.1) && r.1.2 == |s|
  {
    FirstEndSound(s, i, SlashPoint, UnitTailAt(s));
    if UnitBracketAt(s, i).Some? {
      var r := UnitBracketAt(s, i).value;
      UnitAndBracketToEndMeans(s, r.0, r.1.0, r.1.1);
    }
  }

  lemma UnitBracketAtComplete(s: string, i: nat, k: nat, m: nat, e: nat)
    requires i <= |s| && UnitBracketShape(s, i, k, m, e)
    ensures UnitBracketAt(s, i).Some?
  {
    UnitAndBracketToEndMeans(s, k, m, e);
    FirstEndComplete(s, i, SlashPoint, UnitTailAt(s), k);
  }

  /** The attempt at each split index, as the lazy search takes it. */
  function UnitBracketTry(s: string): nat -> Option<(nat, (nat, nat, nat))>
  {
    (i: nat) => if i <= |s| then UnitBracketAt(s, i) else None
  }

  function UnitBracketMatch(s: string): (r: Option<(nat, (nat, (nat, nat, nat)))>)
    ensures r.Some? ==> 1 <= r.value.0 < |s| && UnitBracketAt(s, r.value.0) == Some(r.value.1)
    ensures r.Some? ==> var (i, (k, (m, e, b))) := r.value; i < k <= m < e <= b == |s|
  {
    LazySplit(s, UnitBracketTry(s))
  }

  /** The parenthetical is appended to the name; the number is a fraction to 3
      places or a decimal to 2 places. */
  function UnitBracket(s: string): (r: Option<Result<Record>>)
    ensures r.Some? && r.value.Raise? ==> r.value.error == ZeroDivisionError
    ensures r.Some? && r.value.Ok? ==> !r.value.value.quantity.NoQty?
    ensures r.Some? && r.value.Ok? ==> r.value.value.name.Some? && r.value.value.unit.Some?
  {
    match UnitBracketMatch(s)
    case None => None
    case Some((i, (k, (m, e, b)))) => Some(BracketRecord(s, i, k, m, e, b))
  }

  /** The record of a number, unit and bracket match: the text before the number
      with the bracket appended as the name, the number group as the quantity,
      the unit stripped. */
  function BracketRecord(s: string, i: nat, k: nat, m: nat, e: nat, b: nat): (r: Result<Record>)
    requires i < k <= m < e <= b <= |s|
    ensures r.Ok? ==> r.value.name.Some? && r.value.unit.Some? && !r.value.quantity.NoQty?
    ensures r.Raise? ==> r.error == ZeroDivisionError
  {
    match NumberGroup(s[i..k])
    case Raise(err) => Raise(err)
    case Ok(q) => Ok(Record(Some(Head(s, i) + s[e..b]), q, Some(Strip(s[m..e]))))
  }

  /** At the least split where the pattern matches, the name is the stripped
      text before the number with the parenthetical appended, the quantity is
      the number group's reading, and the unit is the stripped unit group. */
  lemma UnitBracketLeast(s: string, i: nat, k: nat, m: nat, e: nat)
    requires 1 <= i < |s| && '\n' !in s[..i] && UnitBracketAt(s, i) == Some((k, (m, e, |s|)))
    requires forall j | 1 <= j < i :: UnitBracketAt(s, j).None?
    ensures NumberGroup(s[i..k]).Raise? ==> UnitBracket(s) == Some(Raise(ZeroDivisionError))
    ensures NumberGroup(s[i..k]).Ok? ==>
      UnitBracket(s) == Some(Ok(Record(Some(Head(s, i) + s[e..]), NumberGroup(s[i..k]).value, Some(Strip(s[m..e])))))
  {
    UnitBracketLeastMatch(s, i, k, m, e);
    BracketRecordOf(s, i, k, m, e);
  }

  lemma BracketRecordOf(s: string, i: nat, k: nat, m: nat, e: nat)
    requires i < k <= m < e <= |s|
    ensures NumberGroup(s[i..k]).Raise? ==> BracketRecord(s, i, k, m, e, |s|) == Raise(ZeroDivisionError)
    ensures NumberGroup(s[i..k]).Ok? ==>
      BracketRecord(s, i, k, m, e, |s|) == Ok(Record(Some(Head(s, i) + s[e..]), NumberGroup(s[i..k]).value, Some(Strip(s[m..e]))))
  {
    assert s[e..|s|] == s[e..];
  }

  lemma UnitBracketLeastMatch(s: string, i: nat, k: nat, m: nat, e: nat)
    requires 1 <= i < |s| && '\n' !in s[..i] && UnitBracketAt(s, i) == Some((k, (m, e, |s|)))
    requires forall j | 1 <= j < i :: UnitBracketAt(s, j).None?
    ensures UnitBracket(s) == Some(BracketRecord(s, i, k, m, e, |s|))
  {
    LazySplitAt(s, UnitBracketTry(s), i);
  }

  // ---------------------------------------------------------------------------
  // Pattern 3: `^(.+?)(\d+/\d+)\s*([^\d\s]+)$`

  function FractionUnitAt(s: string, i: nat): (r: Option<(nat, nat)>)
    requires i <= |s|
    ensures r.Some? ==> i < r.value.0 <= r.value.1 < |s|
  {
    FirstOf(NumberEnds(s, i, Slash), WordTailAt(s))
  }

  /** Groups 2 and 3 at split `i`: the fraction `s[i..k]` and the word from `m`
      to the end. */
  ghost predicate FractionUnitShape(s: string, i: nat, k: nat, m: nat)
  {
    NumberSpan(s, i, k, Slash) && WordTail(s, k, m)
  }

  lemma FractionUnitAtSound(s: string, i: nat)
    requires i <= |s|
    ensures FractionUnitAt(s, i).Some? ==> FractionUnitShape(s, i, FractionUnitAt(s, i).value.0, FractionUnitAt(s, i).value.1)
  {
    FirstEndSound(s, i, Slash, WordTailAt(s));
    if FractionUnitAt(s, i).Some? {
      WordToEndMeans(s, FractionUnitAt(s, i).value.0, FractionUnitAt(s, i).value.1);
    }
  }

  lemma FractionUnitAtComplete(s: string, i: nat, k: nat, m: nat)
    requires i <= |s| && FractionUnitShape(s, i, k, m)
    ensures FractionUnitAt(s, i).Some?
  {
    WordToEndMeans(s, k, m);
    FirstEndComplete(s, i, Slash, WordTailAt(s), k);
  }

  /** The attempt at each split index, as the lazy search takes it. */
  function FractionUnitTry(s: string): nat -> Option<(nat, nat)>
  {
    (i: nat) => if i <= |s| then FractionUnitAt(s, i) else None
  }

  function FractionUnitMatch(s: string): (r: Option<(nat, (nat, nat))>)
    ensures r.Some? ==> 1 <= r.value.0 < |s| && FractionUnitAt(s, r.value.0) == Some(r.value.1)
    ensures r.Some? ==> var (i, (k, m)) := r.value; i < k <= m < |s|
  {
    LazySplit(s, FractionUnitTry(s))
  }

  function FractionUnit(s: string): (r: Option<Result<Record>>)
    ensures r.Some? && r.value.Raise? ==> r.value.error == ZeroDivisionError
    ensures r.Some? && r.value.Ok? ==> !r.value.value.quantity.NoQty?
    ensures r.Some? && r.value.Ok? ==> r.value.value.name.Some? && r.value.value.unit.Some?
  {
    match FractionUnitMatch(s)
    case None => None
    case Some((i, (k, m))) => Some(FractionRecord(s, i, k, m))
  }

  /** The record of a fraction and unit match. */
  function FractionRecord(s: string, i: nat, k: nat, m: nat): (r: Result<Record>)
    requires i < k <= m < |s|
    ensures r.Ok? ==> r.value.name.Some? && r.value.unit.Some? && !r.value.quantity.NoQty?
    ensures r.Raise? ==> r.error == ZeroDivisionError
  {
    match FractionOrText(s[i..k], 3)
    case Raise(err) => Raise(err)
    case Ok(q) => Ok(Record(Some(Head(s, i)), q, Some(Strip(s[m..]))))
  }

  /** At the least split where the pattern matches: the stripped name, the
      fraction read to 3 places, and the stripped word as the unit. */
  lemma FractionUnitLeast(s: string, i: nat, k: nat, m: nat)
    requires 1 <= i < |s| && '\n' !in s[..i] && FractionUnitAt(s, i) == Some((k, m))
    requires forall j | 1 <= j < i :: FractionUnitAt(s, j).None?
    ensures FractionOrText(s[i..k], 3).Raise? ==> FractionUnit(s) == Some(Raise(ZeroDivisionError))
    ensures FractionOrText(s[i..k], 3).Ok? ==>
      FractionUnit(s) == Some(Ok(Record(Some(Head(s, i)), FractionOrText(s[i..k], 3).value, Some(Strip(s[m..])))))
  {
    LazySplitAt(s, FractionUnitTry(s), i);
  }

  // ---------------------------------------------------------------------------
  // Pattern 4: `^(.+?)\s+(少許|適量|隨意|依喜好|小撮|一撮|一點|些許|少量)$`

  /** At split `i`: the start of the vague word. No vague word starts with
      whitespace, so `\s+` never gives anything back. */
  function SpacedVagueAt(s: string, i: nat): (r: Option<nat>)
    requires i <= |s|
    ensures r.Some? ==> i < r.value < |s| && s[r.value..] in SpacedVague
    ensures r.Some? ==> forall j | i <= j < r.value :: IsSpace(s[j])
  {
    if i < |s| && IsSpace(s[i]) then
      var m := RunEnd(s, i, IsSpace);
      if s[m..] in SpacedVague then Some(m) else None
    else None
  }

  /** The attempt at each split index, as the lazy search takes it. */
  function SpacedVagueTry(s: string): nat -> Option<nat>
  {
    (i: nat) => if i <= |s| then SpacedVagueAt(s, i) else None
  }

  /** Whitespace from `i` up to a vague word that ends the text is what
      `SpacedVagueAt` finds. */
  lemma SpacedVagueAtComplete(s: string, i: nat, m: nat)
    requires i < m < |s| && s[m..] in SpacedVague
    requires forall j | i <= j < m :: IsSpace(s[j])
    ensures SpacedVagueAt(s, i) == Some(m)
  {
    SpacedVagueSolid(s[m..]);
    assert s[m..][0] == s[m];
    RunEndCovers(s, i, IsSpace, m);
    RunEndCovers(s, i, IsSpace, m + 1);
  }

  /** No spaced vague word starts with whitespace. */
  lemma SpacedVagueSolid(w: string)
    requires w in SpacedVague
    ensures |w| > 0 && !IsSpace(w[0])
  {
  }

  function SpacedVagueMatch(s: string): (r: Option<(nat, nat)>)
    ensures r.Some? ==> 1 <= r.value.0 < |s| && SpacedVagueAt(s, r.value.0) == Some(r.value.1)
  {
    LazySplit(s, SpacedVagueTry(s))
  }

  function SpacedVagueWord(s: string): (r: Option<Record>)
    ensures r.Some? ==> r.value.quantity.Text? && r.value.quantity.text in SpacedVague
    ensures r.Some? ==> r.value.unit.None? && r.value.name.Some?
  {
    match SpacedVagueMatch(s)
    case None => None
    case Some((i, m)) => Some(Record(Some(Head(s, i)), Text(s[m..]), None))
  }

  /** At the least split where the pattern matches, the name is the stripped
      text before the whitespace and the quantity is the vague word. */
  lemma SpacedVagueLeast(s: string, i: nat, m: nat)
    requires 1 <= i < |s| && '\n' !in s[..i] && SpacedVagueAt(s, i) == Some(m)
    requires forall j | 1 <= j < i :: SpacedVagueAt(s, j).None?
    ensures SpacedVagueWord(s) == Some(Record(Some(Head(s, i)), Text(s[m..]), None))
  {
    LazySplitAt(s, SpacedVagueTry(s), i);
  }

  // ---------------------------------------------------------------------------
  // Pattern 5: `^(.+?)(一|二|三|四|五|六|七|八|九|十|半)(.+)$`, kept only when the
  // stripped group 3 is a measure word.

  function CountNumeralAt(s: string, i: nat): (r: Option<()>)
    ensures r.Some? <==> i + 1 < |s| && IsCountNumeral(s[i]) && '\n' !in s[i + 1..]
  {
    if i + 1 < |s| && IsCountNumeral(s[i]) && '\n' !in s[i + 1..] then Some(()) else None
  }

  /** The attempt at each split index, as the lazy search takes it. */
  function CountNumeralTry(s: string): nat -> Option<()>
  {
    (i: nat) => CountNumeralAt(s, i)
  }

  function CountNumeralMatch(s: string): (r: Option<(nat, ())>)
    ensures r.Some? ==> 1 <= r.value.0 && r.value.0 + 1 < |s| && IsCountNumeral(s[r.value.0])
    ensures r.Some? ==> '\n' !in s[r.value.0 + 1..]
  {
    LazySplit(s, CountNumeralTry(s))
  }

  /** The numeral's value: an int, or 0.5 for 半. */
  function CountQuantity(c: char): (r: Quantity)
    requires IsCountNumeral(c)
    ensures c == '半' <==> r == Num(Numeric.Decimal(5, 1))
    ensures c != '半' ==> r == Whole(CountValue(c).value)
    ensures forall j | 0 <= j < |Ordinals| :: c == Ordinals[j] ==> r == Whole(j + 1)
  {
    match CountValue(c)
    case Some(n) => Whole(n)
    case None => Num(Numeric.Decimal(5, 1))
  }

  /** The regex match is taken at the first numeral after the first character;
      if what follows is not a measure word the pattern gives up (it does not
      look for a later numeral). */
  function CountMeasure(s: string): (r: Option<Record>)
    ensures r.Some? ==> r.value.name.Some?
    ensures r.Some? ==> r.value.unit.Some? && r.value.unit.value in Measures
    ensures r.Some? ==> r.value.quantity.Whole? || r.value.quantity == Num(Numeric.Decimal(5, 1))
    ensures (forall j | 1 <= j < |s| && '\n' !in s[..j] :: CountNumeralAt(s, j).None?) ==> r.None?
  {
    match CountNumeralMatch(s)
    case None => None
    case Some((i, _)) =>
      var unit := Strip(s[i + 1..]);
      if unit in Measures then Some(Record(Some(Head(s, i)), CountQuantity(s[i]), Some(unit)))
      else None
  }

  /** At the first count numeral after the first character the pattern either
      keeps the record, when the stripped rest is a measure word, or gives up:
      a later numeral is never tried. */
  lemma CountMeasureLeast(s: string, i: nat)
    requires 1 <= i && i + 1 < |s| && IsCountNumeral(s[i]) && '\n' !in s
    requires forall j | 1 <= j < i :: !IsCountNumeral(s[j])
    ensures Strip(s[i + 1..]) in Measures ==>
      CountMeasure(s) == Some(Record(Some(Head(s, i)), CountQuantity(s[i]), Some(Strip(s[i + 1..]))))
    ensures Strip(s[i + 1..]) !in Measures ==> CountMeasure(s).None?
  {
    assert '\n' !in s[..i] && '\n' !in s[i + 1..];
    LazySplitAt(s, CountNumeralTry(s), i);
  }

  // ---------------------------------------------------------------------------
  // Pattern 6: `^(.+?)(少許|適量|隨意|依喜好|些許|少量)$`

  function SuffixVagueAt(s: string, i: nat): (r: Option<()>)
    ensures r.Some? <==> i <= |s| && s[i..] in SuffixVague
  {
    if i <= |s| && s[i..] in SuffixVague then Some(()) else None
  }

  /** The attempt at each split index, as the lazy search takes it. */
  function SuffixVagueTry(s: string): nat -> Option<()>
  {
    (i: nat) => SuffixVagueAt(s, i)
  }

  function SuffixVagueWord(s: string): (r: Option<Record>)
    ensures r.Some? ==> r.value.quantity.Text? && r.value.quantity.text in SuffixVague
    ensures r.Some? ==> r.value.unit.None? && r.value.name.Some?
  {
    match LazySplit(s, SuffixVagueTry(s))
    case None => None
    case Some((i, _)) => Some(Record(Some(Head(s, i)), Text(s[i..]), None))
  }

  /** The least split leaves the longest vague suffix as the quantity. */
  lemma SuffixVagueLeast(s: string, i: nat)
    requires 1 <= i < |s| && '\n' !in s[..i] && s[i..] in SuffixVague
    requires forall j | 1 <= j < i :: s[j..] !in SuffixVague
    ensures SuffixVagueWord(s) == Some(Record(Some(Head(s, i)), Text(s[i..]), None))
  {
    LazySplitAt(s, SuffixVagueTry(s), i);
  }

  // ---------------------------------------------------------------------------
  // Pattern 7: `^(.+?)(\d+(?:/\d+)?(?:\.\d+)?)\s*(.+)$`

  function NumberRestAt(s: string, i: nat): (r: Option<(nat, nat)>)
    requires i <= |s|
    ensures r.Some? ==> i < r.value.0 <= r.value.1 < |s|
  {
    FirstOf(NumberEnds(s, i, SlashPoint), RestTail(s))
  }

  /** Groups 2 and 3 at split `i`: the number `s[i..k]`, then group 3 from `q`
      after optional whitespace. */
  ghost predicate NumberRestShape(s: string, i: nat, k: nat, q: nat)
  {
    NumberSpan(s, i, k, SlashPoint) && RestStart(s, k, q)
  }

  lemma NumberRestAtSound(s: string, i: nat)
    requires i <= |s|
    ensures NumberRestAt(s, i).Some? ==> NumberRestShape(s, i, NumberRestAt(s, i).value.0, NumberRestAt(s, i).value.1)
  {
    FirstEndSound(s, i, SlashPoint, RestTail(s));
  }

  lemma NumberRestAtComplete(s: string, i: nat, k: nat, q: nat)
    requires i <= |s| && NumberRestShape(s, i, k, q)
    ensures NumberRestAt(s, i).Some?
  {
    RestFromSucceeds(s, k);
    FirstEndComplete(s, i, SlashPoint, RestTail(s), k);
  }

  /** The attempt at each split index, as the lazy search takes it. */
  function NumberRestTry(s: string): nat -> Option<(nat, nat)>
  {
    (i: nat) => if i <= |s| then NumberRestAt(s, i) else None
  }

  function NumberRestMatch(s: string): (r: Option<(nat, (nat, nat))>)
    ensures r.Some? ==> 1 <= r.value.0 < |s| && NumberRestAt(s, r.value.0) == Some(r.value.1)
    ensures r.Some? ==> var (i, (k, q)) := r.value; i < k <= q < |s|
  {
    LazySplit(s, NumberRestTry(s))
  }

  function NumberRest(s: string): (r: Option<Result<Record>>)
    ensures r.Some? && r.value.Raise? ==> r.value.error == ZeroDivisionError
    ensures r.Some? && r.value.Ok? ==> !r.value.value.quantity.NoQty?
    ensures r.Some? && r.value.Ok? ==> r.value.value.name.Some? && r.value.value.unit.Some?
  {
    match NumberRestMatch(s)
    case None => None
    case Some((i, (k, q))) => Some(RestRecord(s, i, k, q))
  }

  /** The record of a number and rest match. */
  function RestRecord(s: string, i: nat, k: nat, q: nat): (r: Result<Record>)
    requires i < k <= q < |s|
    ensures r.Ok? ==> r.value.name.Some? && r.value.unit.Some? && !r.value.quantity.NoQty?
    ensures r.Raise? ==> r.error == ZeroDivisionError
  {
    match NumberGroup(s[i..k])
    case Raise(err) => Raise(err)
    case Ok(qty) => Ok(Record(Some(Head(s, i)), qty, Some(Strip(s[q..]))))
  }

  /** At the least split where the pattern matches: the stripped name, the
      number group's reading, and the stripped rest as the unit. */
  lemma NumberRestLeast(s: string, i: nat, k: nat, q: nat)
    requires 1 <= i < |s| && '\n' !in s[..i] && NumberRestAt(s, i) == Some((k, q))
    requires forall j | 1 <= j < i :: NumberRestAt(s, j).None?
    ensures NumberGroup(s[i..k]).Raise? ==> NumberRest(s) == Some(Raise(ZeroDivisionError))
    ensures NumberGroup(s[i..k]).Ok? ==>
      NumberRest(s) == Some(Ok(Record(Some(Head(s, i)), NumberGroup(s[i..k]).value, Some(Strip(s[q..])))))
  {
    NumberRestLeastMatch(s, i, k, q);
  }

  lemma NumberRestLeastMatch(s: string, i: nat, k: nat, q: nat)
    requires 1 <= i < |s| && '\n' !in s[..i] && NumberRestAt(s, i) == Some((k, q))
    requires forall j | 1 <= j < i :: NumberRestAt(s, j).None?
    ensures NumberRest(s) == Some(RestRecord(s, i, k, q))
  {
    LazySplitAt(s, NumberRestTry(s), i);
  }

  // ---------------------------------------------------------------------------
  // Pattern 8: `^(.+?)(\d+(?:\.\d+)?)$`

  function TrailingNumberAt(s: string, i: nat): (r: Option<(nat, ())>)
    requires i <= |s|
    ensures r.Some? ==> r.value.0 == |s| && i < |s|
  {
    FirstOf(NumberEnds(s, i, Point), EndTail(s))
  }

  /** The pattern matches at split `i` exactly when `s[i..]` is a whole number
      group `\d+(?:\.\d+)?`. */
  lemma TrailingNumberAtMeans(s: string, i: nat)
    requires i <= |s|
    ensures TrailingNumberAt(s, i).Some? <==> NumberSpan(s, i, |s|, Point)
  {
    FirstEndSound(s, i, Point, EndTail(s));
    if NumberSpan(s, i, |s|, Point) {
      FirstEndComplete(s, i, Point, EndTail(s), |s|);
    }
  }

  /** The attempt at each split index, as the lazy search takes it. */
  function TrailingNumberTry(s: string): nat -> Option<(nat, ())>
  {
    (i: nat) => if i <= |s| then TrailingNumberAt(s, i) else None
  }

  function TrailingNumber(s: string): (r: Option<Record>)
    ensures r.Some? ==> r.value.name.Some?
    ensures r.Some? ==> r.value.unit.None? && (r.value.quantity.Num? || r.value.quantity.Text?)
  {
    match LazySplit(s, TrailingNumberTry(s))
    case None => None
    case Some((i, _)) => Some(Record(Some(Head(s, i)), FloatOrText(s[i..], 2), None))
  }

  /** The least split at which the rest is a whole number group: the stripped
      name and the number read to 2 places. */
  lemma TrailingNumberLeast(s: string, i: nat)
    requires 1 <= i < |s| && '\n' !in s[..i] && NumberSpan(s, i, |s|, Point)
    requires forall j | 1 <= j < i :: !NumberSpan(s, j, |s|, Point)
    ensures TrailingNumber(s) == Some(Record(Some(Head(s, i)), FloatOrText(s[i..], 2), None))
  {
    forall j | 1 <= j <= i ensures TrailingNumberAt(s, j).Some? <==> j == i {
      TrailingNumberAtMeans(s, j);
    }
    LazySplitAt(s, TrailingNumberTry(s), i);
  }

  // ---------------------------------------------------------------------------
  // When each pattern fails: at no split index does its tail match.

  lemma RangeNone(s: string)
    ensures Range(s).None? <==> forall j | 1 <= j < |s| && '\n' !in s[..j] :: RangeAt(s, j).None?
  {
    assert forall j | 1 <= j < |s| :: RangeTry(s)(j) == RangeAt(s, j);
  }

  lemma UnitBracketNone(s: string)
    ensures UnitBracket(s).None? <==> forall j | 1 <= j < |s| && '\n' !in s[..j] :: UnitBracketAt(s, j).None?
  {
    assert forall j | 1 <= j < |s| :: UnitBracketTry(s)(j) == UnitBracketAt(s, j);
  }

  lemma FractionUnitNone(s: string)
    ensures FractionUnit(s).None? <==> forall j | 1 <= j < |s| && '\n' !in s[..j] :: FractionUnitAt(s, j).None?
  {
    assert forall j | 1 <= j < |s| :: FractionUnitTry(s)(j) == FractionUnitAt(s, j);
  }

  lemma SpacedVagueNone(s: string)
    ensures SpacedVagueWord(s).None? <==> forall j | 1 <= j < |s| && '\n' !in s[..j] :: SpacedVagueAt(s, j).None?
  {
    assert forall j | 1 <= j < |s| :: SpacedVagueTry(s)(j) == SpacedVagueAt(s, j);
  }

  lemma NumberRestNone(s: string)
    ensures NumberRest(s).None? <==> forall j | 1 <= j < |s| && '\n' !in s[..j] :: NumberRestAt(s, j).None?
  {
    assert forall j | 1 <= j < |s| :: NumberRestTry(s)(j) == NumberRestAt(s, j);
  }

  lemma TrailingNumberNone(s: string)
    ensures TrailingNumber(s).None? <==> forall j | 1 <= j < |s| && '\n' !in s[..j] :: TrailingNumberAt(s, j).None?
  {
    assert forall j | 1 <= j < |s| :: TrailingNumberTry(s)(j) == TrailingNumberAt(s, j);
  }

  lemma SuffixVagueNone(s: string)
    ensures SuffixVagueWord(s).None? <==> forall j | 1 <= j < |s| && '\n' !in s[..j] :: s[j..] !in SuffixVague
  {
    assert forall j | 1 <= j < |s| :: SuffixVagueTry(s)(j).Some? <==> s[j..] in SuffixVague;
  }

  /** The counted-measure pattern fails when no count numeral follows the first
      character, and gives up at the first one otherwise (`CountMeasureLeast`). */
  lemma CountMeasureNone(s: string)
    requires forall j | 1 <= j < |s| && '\n' !in s[..j] :: CountNumeralAt(s, j).None?
    ensures CountMeasure(s).None?
  {
    assert forall j | 1 <= j < |s| :: CountNumeralTry(s)(j) == CountNumeralAt(s, j);
  }

  // ---------------------------------------------------------------------------

  /** `parse_complex_ingredient` on normalised text: the first pattern that
      matches decides; `Ok(None)` when none does. */
  function Cascade(s: string): (r: Result<Option<Record>>)
    ensures r.Ok? && r.value.Some? ==> r.value.value.name.Some? && !r.value.value.quantity.NoQty?
    ensures r.Raise? ==> r.error == ZeroDivisionError
  {
    match Range(s)
    case Some(rec) => Ok(Some(rec))
    case None =>
    match UnitBracket(s)
    case Some(res) => Lift(res)
    case None =>
    match FractionUnit(s)
    case Some(res) => Lift(res)
    case None =>
    match SpacedVagueWord(s)
    case Some(rec) => Ok(Some(rec))
    case None =>
    match CountMeasure(s)
    case Some(rec) => Ok(Some(rec))
    case None =>
    match SuffixVagueWord(s)
    case Some(rec) => Ok(Some(rec))
    case None =>
    match NumberRest(s)
    case Some(res) => Lift(res)
    case None =>
    match TrailingNumber(s)
    case Some(rec) => Ok(Some(rec))
    case None => Ok(None)
  }

  /** The cascade finds nothing exactly when no pattern matches. */
  lemma CascadeNoMatch(s: string)
    ensures Cascade(s) == Ok(None) <==>
      && Range(s).None? && UnitBracket(s).None? && FractionUnit(s).None? && SpacedVagueWord(s).None?
      && CountMeasure(s).None? && SuffixVagueWord(s).None? && NumberRest(s).None? && TrailingNumber(s).None?
  {
  }

  // The first pattern that matches decides, position by position.

  lemma CascadeAtRange(s: string)
    requires Range(s).Some?
    ensures Cascade(s) == Ok(Range(s))
  {
  }

  lemma CascadeAtUnitBracket(s: string)
    requires Range(s).None? && UnitBracket(s).Some?
    ensures Cascade(s) == Lift(UnitBracket(s).value)
  {
  }

  lemma CascadeAtFractionUnit(s: string)
    requires Range(s).None? && UnitBracket(s).None? && FractionUnit(s).Some?
    ensures Cascade(s) == Lift(FractionUnit(s).value)
  {
  }

  lemma CascadeAtSpacedVague(s: string)
    requires Range(s).None? && UnitBracket(s).None? && FractionUnit(s).None?
    requires SpacedVagueWord(s).Some?
    ensures Cascade(s) == Ok(SpacedVagueWord(s))
  {
  }

  lemma CascadeAtCountMeasure(s: string)
    requires Range(s).None? && UnitBracket(s).None? && FractionUnit(s).None?
    requires SpacedVagueWord(s).None? && CountMeasure(s).Some?
    ensures Cascade(s) == Ok(CountMeasure(s))
  {
  }

  lemma CascadeAtSuffixVague(s: string)
    requires Range(s).None? && UnitBracket(s).None? && FractionUnit(s).None?
    requires SpacedVagueWord(s).None? && CountMeasure(s).None? && SuffixVagueWord(s).Some?
    ensures Cascade(s) == Ok(SuffixVagueWord(s))
  {
  }

  lemma CascadeAtNumberRest(s: string)
    requires Range(s).None? && UnitBracket(s).None? && FractionUnit(s).None?
    requires SpacedVagueWord(s).None? && CountMeasure(s).None? && SuffixVagueWord(s).None?
    requires NumberRest(s).Some?
    ensures Cascade(s) == Lift(NumberRest(s).value)
  {
  }

  lemma CascadeAtTrailingNumber(s: string)
    requires Range(s).None? && UnitBracket(s).None? && FractionUnit(s).None?
    requires SpacedVagueWord(s).None? && CountMeasure(s).None? && SuffixVagueWord(s).None?
    requires NumberRest(s).None? && TrailingNumber(s).Some?
    ensures Cascade(s) == Ok(TrailingNumber(s))
  {
  }

  function Lift(r: Result<Record>): (o: Result<Option<Record>>)
    ensures o.Ok? <==> r.Ok?
    ensures o.Ok? ==> o.value == Some(r.value)
  {
    match r
    case Ok(rec) => Ok(Some(rec))
    case Raise(e) => Raise(e)
  }
}
