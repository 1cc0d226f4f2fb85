/** The list passes the latest revision runs over one recipe's parsed records:
    compound expansion, orphan reconciliation, defaulting and pruning. */
module Passes {
  import opened Wrappers
  import opened Text
  import opened Records
  import opened Lexicon
  import opened Compound
  import opened Parse0720
  import opened Lists

  // ---------------------------------------------------------------------------
  // Compound expansion

  /** A character that stops a compound from being split: a digit, a slash or a
      Chinese numeral (`[\d/一二兩三四五六七八九半]`). */
  predicate Blocks(c: char)
  {
    IsDigit(c) || c == '/' || IsNumeral(c)
  }

  /** The expansion trigger: a non-empty name, one of the four vague words as the
      quantity, no unit, and no blocking character in the original token once
      少許 and 適量 are deleted from it. */
  predicate ShouldSplit(rec: Record, original: string)
  {
    && rec.name.Some? && |rec.name.value| > 0
    && rec.quantity.Text? && rec.quantity.text in Vague
    && rec.unit.None?
    && forall c | c in Replace(Replace(original, "少許", ""), "適量", "") :: !Blocks(c)
  }

  /** The text with the first word of `words` (in list order) that ends it cut
      off, stripped; the text itself when no word ends it. */
  function CutFirstSuffix(words: seq<string>, s: string): (r: string)
    ensures Within(r, s)
    ensures (forall j | 0 <= j < |words| :: !EndsWith(s, words[j])) ==> r == s
    ensures forall j | 0 <= j < |words| && EndsWith(s, words[j]) && (forall i | 0 <= i < j :: !EndsWith(s, words[i])) ::
              r == Strip(s[..|s| - |words[j]|])
  {
    var k := FirstSuffix(words, s);
    FirstSuffixIsFirst(words, s);
    if k < 0 then
      WithinSlice(s, 0, |s|);
      assert s[0..|s|] == s;
      s
    else
      var cut := s[..|s| - |words[k]|];
      WithinSlice(s, 0, |s| - |words[k]|);
      WithinStrip(cut);
      WithinTrans(Strip(cut), cut, s);
      Strip(cut)
  }

  /** The original token with its first matching vague word (in list order) cut
      from the end, stripped. */
  function CheckText(original: string): (r: string)
    ensures Within(r, original)
    ensures (forall j | 0 <= j < |Vague| :: !EndsWith(original, Vague[j])) ==> r == original
    ensures forall j | 0 <= j < |Vague| && EndsWith(original, Vague[j]) && (forall i | 0 <= i < j :: !EndsWith(original, Vague[i])) ::
              r == Strip(original[..|original| - |Vague[j]|])
  {
    CutFirstSuffix(Vague, original)
  }

  /** All parts are seasonings. */
  predicate AllSeasonings(parts: seq<string>)
  {
    forall i | 0 <= i < |parts| :: parts[i] in Seasonings
  }

  /** One record per part, each with the vague quantity and no unit. */
  function PartRecords(parts: seq<string>, q: Quantity): (r: seq<Record>)
    ensures |r| == |parts|
    ensures forall i | 0 <= i < |r| :: r[i] == Record(Some(parts[i]), q, None)
  {
    if parts == [] then [] else [Record(Some(parts[0]), q, None)] + PartRecords(parts[1..], q)
  }

  /** The record is replaced: it triggers, and its check text splits into two or
      more parts that are all seasonings. */
  predicate Expands(rec: Record, original: string)
  {
    var parts := SplitCompounds(CheckText(original));
    ShouldSplit(rec, original) && |parts| > 1 && AllSeasonings(parts)
  }

  /** What expansion makes of one record: either the record itself, or (when it
      triggers and its text splits into two or more seasonings) one record per
      seasoning, with the same vague quantity and no unit. */
  function ExpandOne(rec: Record, original: string): (r: seq<Record>)
    ensures r == [rec] || (ShouldSplit(rec, original) && |r| >= 2)
    ensures Expands(rec, original) ==> r == PartRecords(SplitCompounds(CheckText(original)), rec.quantity)
    ensures !Expands(rec, original) ==> r == [rec]
    ensures r != [rec] ==>
              forall i | 0 <= i < |r| ::
                r[i].name.Some? && |r[i].name.value| > 0 && r[i].quantity == rec.quantity && r[i].unit.None?
  {
    if ShouldSplit(rec, original) then
      var parts := SplitCompounds(CheckText(original));
      if |parts| > 1 && AllSeasonings(parts) then SeasoningRecords(parts, rec.quantity) else [rec]
    else [rec]
  }

  /** The records of two or more seasonings: named, with the given quantity and no unit. */
  function SeasoningRecords(parts: seq<string>, q: Quantity): (r: seq<Record>)
    requires |parts| > 1 && AllSeasonings(parts)
    ensures |r| >= 2
    ensures forall i | 0 <= i < |r| :: r[i].name.Some? && |r[i].name.value| > 0 && r[i].quantity == q && r[i].unit.None?
  {
    SeasoningsNonEmpty();
    assert forall i | 0 <= i < |parts| :: |parts[i]| > 0;
    PartRecords(parts, q)
  }

  /** The names of an expanded record are the seasonings of its token: glued
      together, they give the token without its vague word, up to whitespace. */
  lemma ExpandedNames(rec: Record, original: string)
    requires ExpandOne(rec, original) != [rec]
    ensures AllSeasonings(Names(ExpandOne(rec, original)))
    ensures Filter(Concat(Names(ExpandOne(rec, original))), c => !IsSpace(c))
         == Filter(CheckText(original), c => !IsSpace(c))
  {
    var parts := SplitCompounds(CheckText(original));
    PartNames(parts, rec.quantity);
    CompoundsRejoin(CheckText(original));
  }

  lemma {:induction false} PartNames(parts: seq<string>, q: Quantity)
    ensures Names(PartRecords(parts, q)) == parts
  {
    if parts != [] {
      PartNames(parts[1..], q);
    }
  }

  /** The present names of the records, in order. */
  function Names(rs: seq<Record>): (ns: seq<string>)
    ensures |ns| <= |rs|
  {
    if rs == [] then []
    else if rs[0].name.Some? then [rs[0].name.value] + Names(rs[1..])
    else Names(rs[1..])
  }

  /** Expansion over the list: the token of record `i` is `originals[i]`, or ""
      past the end of the token list. */
  function Expand(rs: seq<Record>, originals: seq<string>): (r: seq<Record>)
    ensures |r| >= |rs|
    decreases |rs|
  {
    if rs == [] then []
    else
      var original := if |originals| > 0 then originals[0] else "";
      var rest := if |originals| > 0 then originals[1..] else [];
      ExpandOne(rs[0], original) + Expand(rs[1..], rest)
  }

  /** Expansion works record by record: the list is the expansions of its parts,
      in order, when each record comes with its own token. */
  lemma {:induction false} ExpandAppend(a: seq<Record>, oa: seq<string>, b: seq<Record>, ob: seq<string>)
    requires |oa| == |a|
    ensures Expand(a + b, oa + ob) == Expand(a, oa) + Expand(b, ob)
    decreases |a|
  {
    if a == [] {
      assert a + b == b && oa + ob == ob;
    } else {
      assert (a + b)[0] == a[0] && (a + b)[1..] == a[1..] + b;
      assert (oa + ob)[0] == oa[0] && (oa + ob)[1..] == oa[1..] + ob;
      ExpandAppend(a[1..], oa[1..], b, ob);
    }
  }

  /** A one-record list expands as that record. */
  lemma ExpandSingle(rec: Record, original: string)
    ensures Expand([rec], [original]) == ExpandOne(rec, original)
  {
  }

  /** A list where no record triggers is left exactly as it is. */
  lemma {:induction false} ExpandNothing(rs: seq<Record>, originals: seq<string>)
    requires |originals| == |rs|
    requires forall i | 0 <= i < |rs| :: !ShouldSplit(rs[i], originals[i])
    ensures Expand(rs, originals) == rs
    decreases |rs|
  {
    if rs != [] {
      assert !ShouldSplit(rs[0], originals[0]);
      ExpandNothing(rs[1..], originals[1..]);
      assert rs == [rs[0]] + rs[1..];
    }
  }

  // ---------------------------------------------------------------------------
  // Orphan reconciliation

  /** A record with no name but a quantity or a unit. */
  predicate Orphan(r: Record)
  {
    r.name.None? && (!r.quantity.NoQty? || r.unit.Some?)
  }

  /** A record with neither quantity nor unit. */
  predicate Bare(r: Record)
  {
    r.quantity.NoQty? && r.unit.None?
  }

  /** The text re-parsed when an orphan is merged into the record before it:
      that record's name, the orphan's quantity as `str()` prints it, and its
      unit, glued and stripped. */
  function MergeText(name: string, orphan: Record): string
  {
    var q := if orphan.quantity.NoQty? then "" else QuantityText(orphan.quantity);
    var u := if orphan.unit.Some? then orphan.unit.value else "";
    Strip(name + q + u)
  }

  /** A parser's record for the text: the reconciliation loop calls
      `parse_ingredient`, passed in here so that the loop can be reasoned about
      apart from the parser. */
  type Parser = string -> Result<Record>

  /** The loop tries a merge: the record is an orphan and the last record kept
      so far is bare. */
  predicate Tries(out: seq<Record>, cur: Record)
  {
    Orphan(cur) && |out| > 0 && Bare(out[|out| - 1])
  }

  /** The re-parse takes the previous record's place: it has that record's name
      and a quantity or a unit. */
  predicate Absorbs(prev: Record, re: Record)
  {
    prev.name.Some? && re.name == prev.name && !Bare(re)
  }

  /** One step of the reconciliation loop: the output so far and the next record. */
  function Merge(out: seq<Record>, cur: Record, parse: Parser): (r: Result<seq<Record>>)
    ensures !Tries(out, cur) ==> r == Ok(out + [cur])
    ensures Tries(out, cur) && out[|out| - 1].name.None? ==> r == Raise(TypeError)
    ensures Tries(out, cur) && out[|out| - 1].name.Some? ==>
              var re := parse(MergeText(out[|out| - 1].name.value, cur));
              && (re.Raise? ==> r == Raise(re.error))
              && (re.Ok? && Absorbs(out[|out| - 1], re.value) ==> r == Ok(out[..|out| - 1] + [re.value]))
              && (re.Ok? && !Absorbs(out[|out| - 1], re.value) ==> r == Ok(out + [cur]))
    ensures r.Raise? ==>
              && Orphan(cur) && |out| > 0 && Bare(out[|out| - 1])
              && (if out[|out| - 1].name.None? then r.error == TypeError
                  else parse(MergeText(out[|out| - 1].name.value, cur)) == Raise(r.error))
    ensures r.Ok? ==>
              || r.value == out + [cur]
              || (&& Orphan(cur) && |out| > 0 && Bare(out[|out| - 1])
                  && |r.value| == |out| && r.value[..|out| - 1] == out[..|out| - 1]
                  && r.value[|out| - 1].name == out[|out| - 1].name && !Bare(r.value[|out| - 1]))
  {
    if Orphan(cur) && |out| > 0 && Bare(out[|out| - 1]) then
      var prev := out[|out| - 1];
      if prev.name.None? then Raise(TypeError)
      else
        match parse(MergeText(prev.name.value, cur))
        case Raise(e) => Raise(e)
        case Ok(re) =>
          if re.name == prev.name && !Bare(re) then Ok(out[..|out| - 1] + [re]) else Ok(out + [cur])
    else Ok(out + [cur])
  }

  /** The number of steps of the loop from `out` onwards that replace the last
      record instead of appending one. */
  function Merges(out: seq<Record>, rest: seq<Record>, parse: Parser): nat
    decreases |rest|
  {
    if rest == [] then 0
    else
      match Merge(out, rest[0], parse)
      case Raise(_) => 0
      case Ok(o) => (if |o| == |out| then 1 else 0) + Merges(o, rest[1..], parse)
  }

  /** The loop from a given output onwards. */
  function ReconcileFrom(out: seq<Record>, rest: seq<Record>, parse: Parser): (r: Result<seq<Record>>)
    ensures r.Ok? ==> |r.value| <= |out| + |rest|
    ensures r.Ok? ==> |r.value| == |out| + |rest| - Merges(out, rest, parse)
    decreases |rest|
  {
    if rest == [] then Ok(out)
    else
      match Merge(out, rest[0], parse)
      case Raise(e) => Raise(e)
      case Ok(o) => ReconcileFrom(o, rest[1..], parse)
  }

  /** Orphan reconciliation over a recipe's records. */
  function Reconcile(rs: seq<Record>, parse: Parser): (r: Result<seq<Record>>)
    ensures r.Ok? ==> |r.value| <= |rs|
    ensures r.Ok? ==> |r.value| == |rs| - Merges([], rs, parse)
    ensures r.Ok? ==> Names(r.value) == Names(rs)
  {
    var r := ReconcileFrom([], rs, parse);
    if r.Ok? then ReconcileFromKeepsNames([], rs, parse); assert Names([]) == []; r else r
  }

  lemma {:induction false} NamesAppend(a: seq<Record>, b: seq<Record>)
    ensures Names(a + b) == Names(a) + Names(b)
    decreases |a|
  {
    if a != [] {
      assert (a + b)[1..] == a[1..] + b;
      NamesAppend(a[1..], b);
    } else {
      assert a + b == b;
    }
  }

  /** Records without a name. */
  function Unnamed(rs: seq<Record>): (n: nat)
    ensures |Names(rs)| + n == |rs|
  {
    if rs == [] then 0 else (if rs[0].name.None? then 1 else 0) + Unnamed(rs[1..])
  }

  /** A merge step keeps the names in order and removes at most the orphan. */
  lemma MergeKeepsNames(out: seq<Record>, cur: Record, parse: Parser)
    requires Merge(out, cur, parse).Ok?
    ensures Names(Merge(out, cur, parse).value) == Names(out) + Names([cur])
  {
    var r := Merge(out, cur, parse).value;
    NamesAppend(out, [cur]);
    if r != out + [cur] {
      var n := |out| - 1;
      assert out == out[..n] + [out[n]];
      assert r == out[..n] + [r[n]];
      NamesAppend(out[..n], [out[n]]);
      NamesAppend(out[..n], [r[n]]);
      assert Names([r[n]]) == Names([out[n]]);
      assert Names([cur]) == [];
    }
  }

  lemma {:induction false} ReconcileFromKeepsNames(out: seq<Record>, rest: seq<Record>, parse: Parser)
    requires ReconcileFrom(out, rest, parse).Ok?
    ensures Names(ReconcileFrom(out, rest, parse).value) == Names(out) + Names(rest)
    decreases |rest|
  {
    if rest != [] {
      var o := Merge(out, rest[0], parse).value;
      MergeKeepsNames(out, rest[0], parse);
      ReconcileFromKeepsNames(o, rest[1..], parse);
      assert rest == [rest[0]] + rest[1..];
      NamesAppend([rest[0]], rest[1..]);
    }
  }

  /** Reconciliation keeps every name in its order; each merge absorbs exactly
      one unnamed record, so the output is shorter than the input by the number
      of merges. */
  lemma ReconcileKeepsNames(rs: seq<Record>, parse: Parser)
    requires Reconcile(rs, parse).Ok?
    ensures Names(Reconcile(rs, parse).value) == Names(rs)
    ensures |rs| - |Reconcile(rs, parse).value| == Unnamed(rs) - Unnamed(Reconcile(rs, parse).value)
  {
    ReconcileFromKeepsNames([], rs, parse);
    assert Names([]) == [];
  }

  /** A bare named record followed by an orphan collapses into the re-parse of
      the two when that re-parse keeps the name and carries a quantity or a
      unit; otherwise both records stay. */
  lemma ReconcilePair(prev: Record, cur: Record, parse: Parser)
    requires prev.name.Some? && Bare(prev) && Orphan(cur)
    ensures var re := parse(MergeText(prev.name.value, cur));
            && (re.Raise? ==> Reconcile([prev, cur], parse) == Raise(re.error))
            && (re.Ok? && Absorbs(prev, re.value) ==> Reconcile([prev, cur], parse) == Ok([re.value]))
            && (re.Ok? && !Absorbs(prev, re.value) ==> Reconcile([prev, cur], parse) == Ok([prev, cur]))
  {
    var rs := [prev, cur];
    assert !Tries([], prev) && [] + [prev] == [prev];
    assert rs[0] == prev && rs[1..] == [cur] && [cur][1..] == [];
    assert ReconcileFrom([], rs, parse) == ReconcileFrom([prev], [cur], parse);
    assert Tries([prev], cur) && [prev] + [cur] == rs;
    var re := parse(MergeText(prev.name.value, cur));
    if re.Ok? && Absorbs(prev, re.value) {
      assert [prev][..0] + [re.value] == [re.value];
      assert Merge([prev], cur, parse) == Ok([re.value]);
      assert ReconcileFrom([prev], [cur], parse) == ReconcileFrom([re.value], [], parse);
    } else if re.Ok? {
      assert Merge([prev], cur, parse) == Ok(rs);
      assert ReconcileFrom([prev], [cur], parse) == ReconcileFrom(rs, [], parse);
    }
  }

  /** A list with no orphans is left as it is. */
  lemma {:induction false} ReconcileNoOrphans(out: seq<Record>, rest: seq<Record>, parse: Parser)
    requires forall i | 0 <= i < |rest| :: !Orphan(rest[i])
    ensures ReconcileFrom(out, rest, parse) == Ok(out + rest)
    decreases |rest|
  {
    if rest == [] {
      assert out + rest == out;
    } else {
      assert !Orphan(rest[0]);
      assert forall i | 0 <= i < |rest[1..]| :: rest[1..][i] == rest[i + 1];
      assert Merge(out, rest[0], parse) == Ok(out + [rest[0]]);
      ReconcileNoOrphans(out + [rest[0]], rest[1..], parse);
      assert out + [rest[0]] + rest[1..] == out + rest;
    }
  }

  /** A record the parser can return: one with neither quantity nor unit has a
      name. */
  predicate Sound(r: Record)
  {
    Bare(r) ==> r.name.Some?
  }

  predicate AllSound(rs: seq<Record>)
  {
    forall i | 0 <= i < |rs| :: Sound(rs[i])
  }

  /** A parser whose only exception is a zero denominator and whose records are
      sound, as both versions of `Parse0720.ParseIngredient` are. */
  ghost predicate WellBehaved(parse: Parser)
  {
    forall t :: (parse(t).Raise? ==> parse(t).error == ZeroDivisionError) && (parse(t).Ok? ==> Sound(parse(t).value))
  }

  /** On sound records, reconciliation never meets a missing name: the only
      exception it can raise is the parser's own. */
  lemma {:induction false} ReconcileSound(out: seq<Record>, rest: seq<Record>, parse: Parser)
    requires WellBehaved(parse) && AllSound(out) && AllSound(rest)
    ensures ReconcileFrom(out, rest, parse).Raise? ==> ReconcileFrom(out, rest, parse).error == ZeroDivisionError
    ensures ReconcileFrom(out, rest, parse).Ok? ==> AllSound(ReconcileFrom(out, rest, parse).value)
    decreases |rest|
  {
    if rest != [] {
      var m := Merge(out, rest[0], parse);
      assert Sound(rest[0]);
      if m.Ok? {
        MergeSound(out, rest[0], parse);
        assert forall i | 0 <= i < |rest[1..]| :: rest[1..][i] == rest[i + 1];
        ReconcileSound(m.value, rest[1..], parse);
      } else {
        assert Sound(out[|out| - 1]);
      }
    }
  }

  lemma MergeSound(out: seq<Record>, cur: Record, parse: Parser)
    requires AllSound(out) && Sound(cur) && Merge(out, cur, parse).Ok?
    ensures AllSound(Merge(out, cur, parse).value)
  {
    var o := Merge(out, cur, parse).value;
    if o != out + [cur] {
      var n := |out| - 1;
      forall i | 0 <= i < |o| ensures Sound(o[i]) {
        if i < n {
          assert o[i] == o[..n][i] == out[..n][i] == out[i];
        }
      }
    }
  }

  // ---------------------------------------------------------------------------
  // Defaults and pruning

  /** Names that get the vague quantity 少許 when they have none. */
  const DefaultNames: seq<string> := ["糖", "胡椒粉", "米酒"]

  function DefaultOne(r: Record): (d: Record)
    ensures d.name == r.name
    ensures !d.quantity.NoQty? || !(r.name.Some? && r.name.value in DefaultNames)
    ensures r.quantity.NoQty? && r.name.Some? && r.name.value in DefaultNames ==> d.unit.None?
    ensures r.quantity.NoQty? && r.name.Some? && r.name.value in DefaultNames ==> d == Record(r.name, Text("少許"), None)
    ensures !(r.quantity.NoQty? && r.name.Some? && r.name.value in DefaultNames) ==> d == r
  {
    if r.name.Some? && r.name.value in DefaultNames && r.quantity.NoQty? then
      Record(r.name, Text("少許"), None)
    else r
  }

  /** The defaulting loop, record by record. */
  function Defaults(rs: seq<Record>): (ds: seq<Record>)
    ensures |ds| == |rs|
    ensures forall i | 0 <= i < |rs| :: ds[i] == DefaultOne(rs[i])
  {
    seq(|rs|, i requires 0 <= i < |rs| => DefaultOne(rs[i]))
  }

  /** Defaulting twice is defaulting once. */
  lemma DefaultsIdempotent(rs: seq<Record>)
    ensures Defaults(Defaults(rs)) == Defaults(rs)
  {
  }

  /** The final filter: drop records whose three fields are all `None`. */
  function Prune(rs: seq<Record>): (ps: seq<Record>)
    ensures |ps| <= |rs|
    ensures forall i | 0 <= i < |ps| :: !Empty(ps[i])
    ensures forall i | 0 <= i < |ps| :: ps[i] in rs
  {
    if rs == [] then []
    else if Empty(rs[0]) then Prune(rs[1..])
    else [rs[0]] + Prune(rs[1..])
  }

  /** Pruning drops exactly the empty records: a list with none is unchanged. */
  lemma {:induction false} PruneKeeps(rs: seq<Record>)
    requires forall i | 0 <= i < |rs| :: !Empty(rs[i])
    ensures Prune(rs) == rs
  {
    if rs != [] {
      PruneKeeps(rs[1..]);
      assert rs == [rs[0]] + rs[1..];
    }
  }

  lemma {:induction false} PruneAppend(a: seq<Record>, b: seq<Record>)
    ensures Prune(a + b) == Prune(a) + Prune(b)
  {
    if a == [] {
      assert a + b == b;
    } else {
      assert (a + b)[1..] == a[1..] + b;
      PruneAppend(a[1..], b);
    }
  }

  /** Defaulting leaves sound records sound, and sound records are never
      empty, so the final prune of the latest revision drops nothing. */
  lemma PruneIsIdle(rs: seq<Record>)
    requires AllSound(rs)
    ensures AllSound(Defaults(rs))
    ensures Prune(Defaults(rs)) == Defaults(rs)
  {
    var ds := Defaults(rs);
    assert forall i | 0 <= i < |ds| :: Sound(rs[i]) && !Empty(ds[i]);
    PruneKeeps(ds);
  }

  // ---------------------------------------------------------------------------
  // One recipe, end to end

  /** Parsing every token; the first exception ends the list. */
  function ParseAll(items: seq<string>, parse: Parser): (r: Result<seq<Record>>)
    ensures r.Ok? ==> |r.value| == |items| && forall i | 0 <= i < |items| :: parse(items[i]) == Ok(r.value[i])
    ensures r.Raise? ==> exists i | 0 <= i < |items| :: parse(items[i]) == Raise(r.error)
  {
    if items == [] then Ok([])
    else
      match parse(items[0])
      case Raise(e) => Raise(e)
      case Ok(rec) =>
        match ParseAll(items[1..], parse)
        case Raise(e) =>
          var i :| 0 <= i < |items[1..]| && parse(items[1..][i]) == Raise(e);
          assert parse(items[i + 1]) == Raise(e);
          Raise(e)
        case Ok(rest) =>
          var all := [rec] + rest;
          assert forall i | 1 <= i < |items| :: items[i] == items[1..][i - 1] && all[i] == rest[i - 1];
          Ok(all)
  }

  /** The structured ingredients of one recipe: its ingredient string cleaned
      into tokens, each token parsed, compounds expanded, orphans reconciled,
      defaults filled in and empty records pruned. */
  function StructuredIngredients(ingredients: string, parse: Parser): Result<seq<Record>>
  {
    var items := CleanIngredients(ingredients);
    match ParseAll(items, parse)
    case Raise(e) => Raise(e)
    case Ok(parsed) =>
      match Reconcile(Expand(parsed, items), parse)
      case Raise(e) => Raise(e)
      case Ok(recs) => Ok(Prune(Defaults(recs)))
  }

  lemma {:induction false} ExpandSound(rs: seq<Record>, originals: seq<string>)
    requires AllSound(rs)
    ensures AllSound(Expand(rs, originals))
    decreases |rs|
  {
    if rs != [] {
      var original := if |originals| > 0 then originals[0] else "";
      var rest := if |originals| > 0 then originals[1..] else [];
      assert Sound(rs[0]);
      assert forall i | 0 <= i < |rs[1..]| :: rs[1..][i] == rs[i + 1];
      ExpandSound(rs[1..], rest);
      ExpandOneSound(rs[0], original);
      AllSoundAppend(ExpandOne(rs[0], original), Expand(rs[1..], rest));
    }
  }

  lemma AllSoundAppend(a: seq<Record>, b: seq<Record>)
    requires AllSound(a) && AllSound(b)
    ensures AllSound(a + b)
  {
    assert forall i | |a| <= i < |a + b| :: (a + b)[i] == b[i - |a|];
  }

  lemma ExpandOneSound(rec: Record, original: string)
    requires Sound(rec)
    ensures AllSound(ExpandOne(rec, original))
  {
  }

  /** With a well-behaved parser the whole pass chain raises only the parser's
      zero-denominator error, and every record it returns is sound. */
  lemma StructuredIngredientsSound(ingredients: string, parse: Parser)
    requires WellBehaved(parse)
    ensures var r := StructuredIngredients(ingredients, parse);
            && (r.Raise? ==> r.error == ZeroDivisionError)
            && (r.Ok? ==> AllSound(r.value) && forall i | 0 <= i < |r.value| :: !Empty(r.value[i]))
  {
    var items := CleanIngredients(ingredients);
    var p := ParseAll(items, parse);
    if p.Ok? {
      assert AllSound(p.value) by {
        forall i | 0 <= i < |p.value| ensures Sound(p.value[i]) {
          assert parse(items[i]) == Ok(p.value[i]);
        }
      }
      var e := Expand(p.value, items);
      ExpandSound(p.value, items);
      ReconcileSound([], e, parse);
      var c := Reconcile(e, parse);
      if c.Ok? {
        PruneIsIdle(c.value);
      }
    } else {
      var i :| 0 <= i < |items| && parse(items[i]) == Raise(p.error);
    }
  }

  /** The latest revision's parser is well behaved, both as written and with
      the late branch corrected. */
  lemma ParseIngredientWellBehaved()
    ensures WellBehaved(ParseIngredientAsWritten)
    ensures WellBehaved(ParseIngredient)
  {
    forall t
      ensures && (ParseIngredientAsWritten(t).Raise? ==> ParseIngredientAsWritten(t).error == ZeroDivisionError)
              && (ParseIngredientAsWritten(t).Ok? ==> Sound(ParseIngredientAsWritten(t).value))
    {
    }
    forall t
      ensures && (ParseIngredient(t).Raise? ==> ParseIngredient(t).error == ZeroDivisionError)
              && (ParseIngredient(t).Ok? ==> Sound(ParseIngredient(t).value))
    {
    }
  }
}
