/** The latest `parse_ingredient`: the cascade on the normalised token, then the
    reference-name fallback, the vague-word fallback, the late repaired-numeral
    branch, and finally the whole token as the name. */
module Parse0720 {
  import opened Wrappers
  import opened Text
  import opened Scan
  import opened Records
  import opened Lexicon
  import opened Convert
  import opened Typography
  import opened Cascade

  // ---------------------------------------------------------------------------
  // Fallback A: the token starts with a reference name.

  /** `[一二兩三四五六七八九半\d./]`. */
  predicate IsAmountChar(c: char)
  {
    IsNumeral(c) || IsDigit(c) || c == '.' || c == '/'
  }

  /** `^([一二兩三四五六七八九半\d./]+)([^\d\s]*)\s*(.*)$` on `rest`: the ends of
      groups 1 and 2. Every way of giving characters back still leaves the text
      after the whitespace for `(.*)$`, so the match exists exactly when group 1
      is non-empty and that text has no newline. The caller strips `rest`, so a
      final newline, before which `$` would also match, never occurs. */
  function AmountMatch(rest: string): (r: Option<(nat, nat)>)
    ensures r.Some? ==> 0 < r.value.0 <= r.value.1 <= |rest|
    ensures r.Some? ==> forall k | 0 <= k < r.value.0 :: IsAmountChar(rest[k])
    ensures r.Some? ==> forall k | r.value.0 <= k < r.value.1 :: IsWordPiece(rest[k])
    ensures r.Some? ==> r.value.0 == |rest| || !IsAmountChar(rest[r.value.0])
    ensures r.Some? ==> r.value.1 == |rest| || !IsWordPiece(rest[r.value.1])
    ensures |rest| > 0 && IsAmountChar(rest[0]) && '\n' !in rest ==> r.Some?
    ensures r.None? ==> |rest| == 0 || !IsAmountChar(rest[0]) || '\n' in rest
  {
    var g1 := RunEnd(rest, 0, IsAmountChar);
    var g2 := RunEnd(rest, g1, IsWordPiece);
    var m := RunEnd(rest, g2, IsSpace);
    if g1 > 0 && '\n' !in rest[m..] then Some((g1, g2)) else None
  }

  /** A run of word pieces has no whitespace to strip. */
  lemma WordPiecesTrimmed(s: string, i: nat, j: nat)
    requires i <= j <= |s| && forall k | i <= k < j :: IsWordPiece(s[k])
    ensures Strip(s[i..j]) == s[i..j]
  {
    assert forall k | 0 <= k < j - i :: s[i..j][k] == s[i + k];
    StripOfStripped(s[i..j]);
  }

  /** The amount group's value: a fraction to 2 places when it holds '/', a single
      table numeral by lookup, otherwise `float` to 2 places or the text. */
  function AmountQuantity(q: string): (r: Result<Quantity>)
    ensures r.Raise? ==> r.error == ZeroDivisionError
    ensures r.Ok? ==> !r.value.NoQty?
    ensures '/' !in q ==> r == Ok(RunQuantity(q))
    ensures '/' in q ==> r == FractionOrText(q, 2)
  {
    if '/' in q then FractionOrText(q, 2) else Ok(RunQuantity(q))
  }

  /** `w` ends `rest` and is kept as its quantity: it is the whole rest, or
      what precedes it, stripped, is non-empty and starts with one of `names`. */
  predicate KeepsWord(names: seq<string>, rest: string, w: string)
  {
    && EndsWith(rest, w)
    && (rest == w || (|Strip(rest[..|rest| - |w|])| > 0 && exists s | s in names :: StartsWith(Strip(rest[..|rest| - |w|]), s)))
  }

  /** The quantity word taken from the end of `rest`: the first of `words` (in
      list order) that ends it, kept as `KeepsWord` says. */
  function SuffixQuantity(words: seq<string>, names: seq<string>, rest: string): (q: Quantity)
    ensures q.NoQty? || (q.Text? && exists j | 0 <= j < |words| :: q.text == words[j] && EndsWith(rest, words[j]))
    ensures (forall j | 0 <= j < |words| :: !EndsWith(rest, words[j])) ==> q.NoQty?
    ensures forall j | 0 <= j < |words| && EndsWith(rest, words[j]) && (forall i | 0 <= i < j :: !EndsWith(rest, words[i])) ::
              q == if KeepsWord(names, rest, words[j]) then Text(words[j]) else NoQty
  {
    var k := FirstSuffix(words, rest);
    FirstSuffixIsFirst(words, rest);
    if k < 0 then NoQty
    else
      var w := words[k];
      var keep := rest == w || (var remaining := Strip(rest[..|rest| - |w|]);
                                |remaining| > 0 && LongestPrefix(names, remaining).Some?);
      assert keep == KeepsWord(names, rest, w);
      if keep then Text(w) else NoQty
  }

  /** What fallback A does with the text after the reference name when no amount
      matches: a vague word is the quantity if it is the whole rest, or if it ends
      the rest and what precedes it starts with a seasoning; the first vague word
      the rest ends with decides. */
  function VagueAfterName(rest: string): (q: Quantity)
    ensures q.NoQty? || (q.Text? && exists j | 0 <= j < |Vague| :: q.text == Vague[j] && EndsWith(rest, Vague[j]))
    ensures (forall j | 0 <= j < |Vague| :: !EndsWith(rest, Vague[j])) ==> q.NoQty?
    ensures forall j | 0 <= j < |Vague| && EndsWith(rest, Vague[j]) && (forall i | 0 <= i < j :: !EndsWith(rest, Vague[i])) ::
              q == if KeepsWord(Seasonings, rest, Vague[j]) then Text(Vague[j]) else NoQty
  {
    SuffixQuantity(Vague, Seasonings, rest)
  }

  /** Fallback A for a token `t` that starts with the reference name `n`. */
  function ReferenceFallback(t: string, n: string): (r: Result<Record>)
    requires StartsWith(t, n)
    ensures r.Ok? ==> r.value.name == Some(n)
    ensures r.Raise? ==> r.error == ZeroDivisionError
    ensures var rest := Strip(t[|n|..]);
            AmountMatch(rest).None? ==> r == Ok(Record(Some(n), VagueAfterName(rest), None))
    ensures var rest := Strip(t[|n|..]);
            AmountMatch(rest).Some? ==>
              var (g1, g2) := AmountMatch(rest).value;
              && (AmountQuantity(rest[..g1]).Raise? ==> r == Raise(ZeroDivisionError))
              && (AmountQuantity(rest[..g1]).Ok? ==>
                    r == Ok(Record(Some(n), AmountQuantity(rest[..g1]).value, if g1 < g2 then Some(rest[g1..g2]) else None)))
  {
    var rest := Strip(t[|n|..]);
    match AmountMatch(rest)
    case Some((g1, g2)) =>
      var q := rest[..g1];
      var u := rest[g1..g2];
      WordPiecesTrimmed(rest, g1, g2);
      (match AmountQuantity(q)
       case Raise(e) => Raise(e)
       case Ok(qty) => Ok(Record(Some(n), qty, if |u| > 0 then Some(Strip(u)) else None)))
    case None =>
      Ok(Record(Some(n), VagueAfterName(rest), None))
  }

  // ---------------------------------------------------------------------------
  // Fallback B: the token is, or ends with, one of the four vague words.

  function VagueFallback(t: string): (r: Option<Record>)
    ensures r.Some? <==> exists j | 0 <= j < |Vague| :: EndsWith(t, Vague[j])
    ensures r.Some? ==> r.value.unit.None? && r.value.quantity.Text?
    ensures r.Some? ==> exists j | 0 <= j < |Vague| :: r.value.quantity.text == Vague[j] && EndsWith(t, Vague[j])
    ensures forall j | 0 <= j < |Vague| && EndsWith(t, Vague[j]) && (forall i | 0 <= i < j :: !EndsWith(t, Vague[i])) ::
              r == Some(Record(OrNone(Strip(t[..|t| - |Vague[j]|])), Text(Vague[j]), None))
  {
    var k := FirstSuffix(Vague, t);
    FirstSuffixIsFirst(Vague, t);
    if k < 0 then None
    else
      var w := Vague[k];
      if t == w then Some(Record(None, Text(w), None))
      else Some(Record(OrNone(Strip(t[..|t| - |w|])), Text(w), None))
  }

  // ---------------------------------------------------------------------------
  // The late branch, on the repaired token.

  /** `^(.+?)(\d+(?:/\d+)?(?:\.\d+)?)\s*([^\d\s\(]+)(\([^)]*\))?` (no `$`). */
  function SpecialAt(s: string, i: nat): (r: Option<(nat, (nat, nat, nat))>)
    requires i <= |s|
    ensures r.Some? ==> i < r.value.0 <= r.value.1.0 < r.value.1.1 <= r.value.1.2 <= |s|
  {
    FirstOf(NumberEnds(s, i, SlashPoint), (k: nat) => if k <= |s| then UnitAndBracket(s, k) else None)
  }

  /** The attempt at each split index, as the lazy search takes it. */
  function SpecialTry(s: string): nat -> Option<(nat, (nat, nat, nat))>
  {
    (i: nat) => if i <= |s| then SpecialAt(s, i) else None
  }

  function Special(s: string): (r: Option<Result<Record>>)
    ensures r.Some? && r.value.Ok? ==> r.value.value.name.Some? && r.value.value.unit.Some?
    ensures r.Some? && r.value.Ok? ==> !r.value.value.quantity.NoQty?
    ensures r.Some? && r.value.Raise? ==> r.value.error == ZeroDivisionError
  {
    match SpecialMatch(s)
    case None => None
    case Some((i, k, m, e, b)) => Some(BracketRecord(s, i, k, m, e, b))
  }

  /** The lazy search's split index with the positions of the number's end, the
      unit's start and end, and the bracket's end. */
  function SpecialMatch(s: string): (r: Option<(nat, nat, nat, nat, nat)>)
    ensures r.None? <==> LazySplit(s, SpecialTry(s)).None?
    ensures r.Some? ==> var (i, k, m, e, b) := r.value; i < k <= m < e <= b <= |s|
  {
    match LazySplit(s, SpecialTry(s))
    case None => None
    case Some((i, (k, (m, e, b)))) =>
      SpecialTryAt(s, i);
      Some((i, k, m, e, b))
  }

  lemma SpecialTryAt(s: string, i: nat)
    requires i <= |s|
    ensures SpecialTry(s)(i) == SpecialAt(s, i)
  {
  }

  /** `[\d\.]`. */
  predicate IsDigitOrPoint(c: char)
  {
    IsDigit(c) || c == '.'
  }

  predicate StartsAmount(c: char)
  {
    IsDigitOrPoint(c) || IsNumeral(c)
  }

  /** Index of the first character that can start an amount, or |s|. */
  function FirstAmount(s: string, p: nat): (r: nat)
    requires p <= |s|
    ensures p <= r <= |s|
    ensures r < |s| ==> StartsAmount(s[r])
    ensures forall k | p <= k < r :: !StartsAmount(s[k])
    decreases |s| - p
  {
    if p == |s| || StartsAmount(s[p]) then p else FirstAmount(s, p + 1)
  }

  /** `re.search(r"([\d\.]+|\d+/\d+|[一二兩三四五六七八九半]+)...", s)`: the match
      starts at the first amount character and group 1 is the maximal run of its
      class. The `\d+/\d+` alternative can never win, since `[\d\.]+` is tried
      first at the same position. */
  function AmountSearch(s: string): (r: Option<(nat, nat)>)
    ensures r.Some? ==> r.value.0 < r.value.1 <= |s|
    ensures r.Some? ==> forall k | 0 <= k < r.value.0 :: !StartsAmount(s[k])
    ensures r.Some? ==> forall k | r.value.0 <= k < r.value.1 ::
                          if IsNumeral(s[r.value.0]) then IsNumeral(s[k]) else IsDigitOrPoint(s[k])
    ensures r.None? <==> forall k | 0 <= k < |s| :: !StartsAmount(s[k])
  {
    var p := FirstAmount(s, 0);
    if p == |s| then None
    else if IsDigitOrPoint(s[p]) then Some((p, RunEnd(s, p, IsDigitOrPoint)))
    else Some((p, RunEnd(s, p, IsNumeral)))
  }

  /** `str.find` of the matched run lands on the match itself: no amount
      character comes before it, and the run starts with one. */
  lemma FindIsMatchStart(s: string)
    requires AmountSearch(s).Some?
    ensures var m := AmountSearch(s).value; Find(s, s[m.0..m.1]) == m.0
  {
    var p, e := AmountSearch(s).value.0, AmountSearch(s).value.1;
    var q := s[p..e];
    assert OccursAt(s, q, p);
    forall k | 0 <= k < p ensures !OccursAt(s, q, k) {
      assert q[0] == s[p];
    }
  }

  /** Python `\w` (approximation: ASCII letters and digits, '_', CJK ideographs). */
  predicate IsWordChar(c: char)
  {
    IsAsciiLetter(c) || IsDigit(c) || c == '_' || ('㐀' <= c <= '鿿') || ('豈' <= c <= '﫿')
  }

  /** `\b` at position `e`. */
  predicate Boundary(s: string, e: nat)
    requires e <= |s|
  {
    (e > 0 && IsWordChar(s[e - 1])) != (e < |s| && IsWordChar(s[e]))
  }

  /** `[^\d\s\.]`. */
  predicate IsUnitWordChar(c: char)
  {
    !IsDigit(c) && !IsSpace(c) && c != '.'
  }

  /** Greedy `([^\d\s\.]+\b)?` at 0, giving back characters until `\b` holds. */
  function BoundedUnitEnd(s: string, e: nat): (r: nat)
    requires e <= |s|
    ensures r <= e
    decreases e
  {
    if e == 0 then 0 else if Boundary(s, e) then e else BoundedUnitEnd(s, e - 1)
  }

  /** Up to the first newline from `m` (what `(.*)` takes). */
  function LineEnd(s: string, m: nat): (r: nat)
    requires m <= |s|
    ensures m <= r <= |s| && '\n' !in s[m..r]
    ensures r == |s| || s[r] == '\n'
  {
    var r := RunEnd(s, m, c => c != '\n');
    assert forall k | m <= k < r :: s[m..r][k - m] == s[k];
    r
  }

  /** `re.match(r"^([^\d\s\.]+\b)?\s*(.*)", rest)`: the stripped group 2 (the name
      the branch starts from). */
  function RemainderName(rest: string): string
  {
    var g := BoundedUnitEnd(rest, RunEnd(rest, 0, IsUnitWordChar));
    var m := RunEnd(rest, g, IsSpace);
    Strip(rest[m..LineEnd(rest, m)])
  }

  /** Some recognised unit occurs in `x` as a substring. */
  predicate HasUnit(x: string)
  {
    exists k | 0 <= k < |Units| :: Contains(x, Units[k])
  }

  /** The end of `[^\d\s]+` at the start of `post` (0 when it does not match). */
  function LeadingWord(post: string): (g: nat)
    ensures g <= |post| && NoSpace(post[..g])
  {
    var g := RunEnd(post, 0, IsWordPiece);
    assert forall k | 0 <= k < g :: post[..g][k] == post[k];
    g
  }

  /** `possible_unit`/`possible_name` from `^([^\d\s]+)?\s*(.*)` on the text
      after the quantity: when the leading word holds a known unit it becomes the
      unit and the words after it join the name; otherwise the whole text joins
      the name (after a space) and there is no unit. "" stands for a falsy value. */
  function UnitTest(name: string, post: string): (r: (string, string))
    ensures |r.1| > 0 ==> HasUnit(r.1) && NoSpace(r.1)
  {
    var g := LeadingWord(post);
    var m := RunEnd(post, g, IsSpace);
    var possibleName := post[m..LineEnd(post, m)];
    if g > 0 && HasUnit(post[..g]) then
      (if |name| > 0 then name + Strip(possibleName) else Strip(possibleName), post[..g])
    else
      (if |name| > 0 then name + " " + post else post, "")
  }

  /** The clean-up after the unit test: a unit with no name becomes the name, a
      name with no unit gives up a trailing unit word, and an empty name falls
      back to the text before the quantity. */
  function Settle(name: string, unit: string, pre: string): (r: (string, string))
    ensures r.1 == "" || r.1 == unit || r.1 in Units
  {
    var (name2, unit2) := if |name| == 0 && |unit| > 0 then (unit, "") else (name, unit);
    var (name3, unit3) := UnitFromName(name2, unit2);
    var name4 := if |name3| == 0 && |pre| > 0 then pre else name3;
    (name4, unit3)
  }

  /** A name with no unit gives up its longest trailing unit word, if any. */
  function UnitFromName(name: string, unit: string): (r: (string, string))
    ensures r.1 == unit || r.1 in Units
  {
    TakeSuffix(Units, name, unit)
  }

  /** A name with no unit gives up its longest trailing word of `words`, if any,
      which becomes the unit. */
  function TakeSuffix(words: seq<string>, name: string, unit: string): (r: (string, string))
    ensures r.1 == unit || r.1 in words
  {
    if |name| > 0 && |unit| == 0 then
      match LongestSuffix(words, name)
      case Some(u) => (Strip(name[..|name| - |u|]), u)
      case None => (name, unit)
    else (name, unit)
  }

  /** The name/unit decision for a quantity at `s[p..e1]`: the name starts as the
      text before the quantity when there is some, else as `seed`. */
  function NameAndUnit(s: string, p: nat, e1: nat, seed: string): (r: (string, string))
    requires p <= e1 <= |s|
  {
    var pre := Strip(s[..p]);
    var (name1, unit1) := UnitTest(if |pre| > 0 then pre else seed, Strip(s[e1..]));
    Settle(name1, unit1, pre)
  }

  /** The late branch on the repaired token `s`. `seedFromRemainder` selects the
      code as written, where a token with nothing before its quantity starts its
      name from the text after the unit, which the unit test then appends again. */
  function LateBranch(s: string, seedFromRemainder: bool): (r: Result<Record>)
    ensures r.Raise? ==> r.error == ZeroDivisionError
    ensures r.Ok? && r.value.quantity.NoQty? ==> r.value.name == Some(s)
  {
    match Special(s)
    case Some(res) => res
    case None =>
      match AmountSearch(s)
      case None => Ok(Record(Some(s), NoQty, None))
      case Some((p, e1)) =>
        var qty := RunQuantity(s[p..e1]);
        var seed := if seedFromRemainder then RemainderName(Strip(s[e1..])) else "";
        var (name, unit) := NameAndUnit(s, p, e1, seed);
        Ok(Record(OrNone(name), qty, OrNone(unit)))
  }

  /** The late branch exactly as the source has it. */
  function LateParseAsWritten(s: string): (r: Result<Record>)
    ensures AmountSearch(s).None? && Special(s).None? ==> r == Ok(Record(Some(s), NoQty, None))
  {
    LateBranch(s, true)
  }

  /** The late branch with the name built from the text before and after the
      quantity only, so that text after the unit is used once. */
  function LateParse(s: string): (r: Result<Record>)
    ensures AmountSearch(s).None? && Special(s).None? ==> r == Ok(Record(Some(s), NoQty, None))
  {
    LateBranch(s, false)
  }

  // ---------------------------------------------------------------------------

  /** What a parse promises: an error only from dividing by zero, and a name on
      every record that has no quantity. */
  predicate Outcome(r: Result<Record>)
  {
    && (r.Raise? ==> r.error == ZeroDivisionError)
    && (r.Ok? && r.value.quantity.NoQty? ==> r.value.name.Some?)
  }

  /** Everything after the cascade has failed, on the stripped token `t`. */
  function Fallbacks(t: string, seedFromRemainder: bool): (r: Result<Record>)
    ensures Outcome(r)
  {
    match LongestPrefix(ReferenceNames, t)
    case Some(n) => ReferenceFallback(t, n)
    case None =>
      match VagueFallback(t)
      case Some(rec) => Ok(rec)
      case None => LateBranch(Repair(t), seedFromRemainder)
  }

  /** `parse_ingredient`, with the late branch selected by `seedFromRemainder`. */
  function Parse(raw: string, seedFromRemainder: bool): (r: Result<Record>)
    ensures Outcome(r)
  {
    var t := Strip(raw);
    AfterCascade(t, Cascade.Cascade(Normalise(t)), seedFromRemainder)
  }

  /** What the cascade promises about its outcome. */
  predicate CascadeOutcome(c: Result<Option<Record>>)
  {
    && (c.Ok? && c.value.Some? ==> c.value.value.name.Some? && !c.value.value.quantity.NoQty?)
    && (c.Raise? ==> c.error == ZeroDivisionError)
  }

  /** The cascade's outcome `c` on the stripped token `t`: its error or record,
      or the fallbacks when no pattern matched. */
  function AfterCascade(t: string, c: Result<Option<Record>>, seedFromRemainder: bool): (r: Result<Record>)
    requires CascadeOutcome(c)
    ensures Outcome(r)
  {
    if c.Raise? then Raise(c.error)
    else if c.value.Some? then Ok(c.value.value)
    else Fallbacks(t, seedFromRemainder)
  }

  /** `parse_ingredient` of the latest revision (with the late branch corrected). */
  function ParseIngredient(raw: string): (r: Result<Record>)
    ensures Outcome(r)
  {
    Parse(raw, false)
  }

  /** `parse_ingredient` exactly as written. */
  function ParseIngredientAsWritten(raw: string): (r: Result<Record>)
    ensures Outcome(r)
  {
    Parse(raw, true)
  }
}
