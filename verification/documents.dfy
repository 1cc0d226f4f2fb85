/** The search documents of scripts/generate_documents.py: each recipe's preview
    ingredients cleaned into words and joined by spaces. */
module Documents {
  import opened Text

  /** The separators rewritten to a space before anything else. */
  const Breaks: string := "、/,，"

  /** A CJK unified ideograph of the basic block U+4E00..U+9FA5. */
  predicate IsHan(c: char)
  {
    '\U{4E00}' <= c <= '\U{9FA5}'
  }

  /** The characters a cleaned word may hold. */
  predicate IsTokenChar(c: char)
  {
    IsHan(c) || IsAsciiLetter(c) || IsDigit(c)
  }

  /** `re.sub(r"[、/,，]", " ", text)`. */
  function BreaksToSpaces(s: string): (r: string)
    ensures |r| == |s|
    ensures forall k | 0 <= k < |s| :: r[k] == if s[k] in Breaks then ' ' else s[k]
  {
    seq(|s|, k requires 0 <= k < |s| => if s[k] in Breaks then ' ' else s[k])
  }

  /** What the second substitution keeps: word characters and whitespace. */
  predicate Kept(c: char)
  {
    IsTokenChar(c) || IsSpace(c)
  }

  /** Rewriting breaks to spaces, dropping everything but word characters and
      whitespace, then dropping whitespace, leaves exactly the word characters. */
  lemma {:induction false} CleanFilters(s: string)
    ensures Filter(Filter(BreaksToSpaces(s), Kept), c => !IsSpace(c)) == Filter(s, IsTokenChar)
  {
    if s != [] {
      CleanFilters(s[1..]);
      assert s == [s[0]] + s[1..];
      CleanedAppend([s[0]], s[1..]);
      CleanedChar(s[0]);
      FilterAppend([s[0]], s[1..], IsTokenChar);
    }
  }

  /** The three cleaning filters in a row. */
  function Cleaned(s: string): string
  {
    Filter(Filter(BreaksToSpaces(s), Kept), c => !IsSpace(c))
  }

  lemma BreaksAppend(a: string, b: string)
    ensures BreaksToSpaces(a + b) == BreaksToSpaces(a) + BreaksToSpaces(b)
  {
  }

  lemma CleanedAppend(a: string, b: string)
    ensures Cleaned(a + b) == Cleaned(a) + Cleaned(b)
  {
    BreaksAppend(a, b);
    FilterAppend(BreaksToSpaces(a), BreaksToSpaces(b), Kept);
    FilterAppend(Filter(BreaksToSpaces(a), Kept), Filter(BreaksToSpaces(b), Kept), c => !IsSpace(c));
  }

  lemma CleanedChar(c: char)
    ensures Cleaned([c]) == Filter([c], IsTokenChar)
  {
    var r := BreaksToSpaces([c]);
    assert r == [if c in Breaks then ' ' else c];
    if IsTokenChar(c) {
      TokenNotBreak(c);
    }
  }

  /** `clean_ingredient_text`: the whitespace-separated words left once breaks
      are spaces and every other character outside the word set is gone. */
  function CleanIngredientText(text: string): (parts: seq<string>)
    ensures forall i | 0 <= i < |parts| :: |parts[i]| > 0 && NoSpace(parts[i])
    ensures forall i | 0 <= i < |parts| :: forall k | 0 <= k < |parts[i]| :: IsTokenChar(parts[i][k])
    ensures Concat(parts) == Filter(text, IsTokenChar)
  {
    var x := Filter(BreaksToSpaces(text), Kept);
    var parts := Words(x);
    WordsWithin(x);
    WordsConcat(x);
    CleanFilters(text);
    parts
  }

  /** No word character is a break. */
  lemma TokenNotBreak(c: char)
    requires IsTokenChar(c)
    ensures c !in Breaks
  {
  }

  /** Breaks become spaces and word characters stay. */
  lemma BreakFiltered(a: string, b: char, c: string)
    requires b in Breaks
    requires forall k | 0 <= k < |a| :: IsTokenChar(a[k])
    requires forall k | 0 <= k < |c| :: IsTokenChar(c[k])
    ensures Filter(BreaksToSpaces(a + [b] + c), Kept) == a + " " + c
  {
    var s := a + [b] + c;
    var r := BreaksToSpaces(s);
    forall k | 0 <= k < |s| ensures r[k] == (a + " " + c)[k] {
      if k < |a| {
        TokenNotBreak(a[k]);
      } else if k > |a| {
        assert s[k] == c[k - |a| - 1];
        TokenNotBreak(c[k - |a| - 1]);
      }
    }
    assert r == a + " " + c;
    TokenFilter(a);
    TokenFilter(c);
    assert Filter(a + " ", Kept) == a + " " by {
      FilterAppend(a, " ", Kept);
    }
    FilterAppend(a + " ", c, Kept);
  }

  /** A break between two runs of word characters splits them into two words. */
  lemma BreakSplits(a: string, b: char, c: string)
    requires |a| > 0 && |c| > 0 && b in Breaks
    requires forall k | 0 <= k < |a| :: IsTokenChar(a[k])
    requires forall k | 0 <= k < |c| :: IsTokenChar(c[k])
    ensures CleanIngredientText(a + [b] + c) == [a, c]
  {
    var x := Filter(BreaksToSpaces(a + [b] + c), Kept);
    BreakFiltered(a, b, c);
    TokensNoSpace(a);
    TokensNoSpace(c);
    WordThenSpace(a, c);
    WordsOfWord(c);
    assert Words(x) == [a, c];
  }

  /** Word characters are not whitespace. */
  lemma TokensNoSpace(s: string)
    requires forall k | 0 <= k < |s| :: IsTokenChar(s[k])
    ensures NoSpace(s)
  {
  }

  lemma {:induction false} TokenFilter(s: string)
    requires forall k | 0 <= k < |s| :: IsTokenChar(s[k])
    ensures Filter(s, Kept) == s
  {
    if s != [] {
      TokenFilter(s[1..]);
    }
  }

  /** The text the word split sees, around one character `b` in the middle. */
  lemma KeptAround(a: string, b: char, c: string)
    ensures var m := if b in Breaks then ' ' else b;
      Filter(BreaksToSpaces(a + [b] + c), Kept)
        == Filter(BreaksToSpaces(a), Kept) + Filter([m], Kept) + Filter(BreaksToSpaces(c), Kept)
  {
    var m := if b in Breaks then ' ' else b;
    BreaksAppend(a + [b], c);
    BreaksAppend(a, [b]);
    assert BreaksToSpaces([b]) == [m];
    FilterAppend(BreaksToSpaces(a) + [m], BreaksToSpaces(c), Kept);
    FilterAppend(BreaksToSpaces(a), [m], Kept);
  }

  /** A separator or a whitespace character cuts the text: the words on each
      side are cleaned on their own. */
  lemma CleanSplitsAt(a: string, b: char, c: string)
    requires b in Breaks || IsSpace(b)
    ensures CleanIngredientText(a + [b] + c) == CleanIngredientText(a) + CleanIngredientText(c)
  {
    var m := if b in Breaks then ' ' else b;
    KeptAround(a, b, c);
    assert Filter([m], Kept) == [m];
    WordsSpaceSplit(Filter(BreaksToSpaces(a), Kept), m, Filter(BreaksToSpaces(c), Kept));
  }

  /** Any other character outside the word set vanishes without cutting: the
      text on its two sides glues together. */
  lemma CleanDropsAt(a: string, b: char, c: string)
    requires b !in Breaks && !Kept(b)
    ensures CleanIngredientText(a + [b] + c) == CleanIngredientText(a + c)
  {
    var fa, fc := Filter(BreaksToSpaces(a), Kept), Filter(BreaksToSpaces(c), Kept);
    KeptAround(a, b, c);
    assert Filter([b], Kept) == [];
    assert fa + [] + fc == fa + fc;
    BreaksAppend(a, c);
    FilterAppend(BreaksToSpaces(a), BreaksToSpaces(c), Kept);
    assert Filter(BreaksToSpaces(a + [b] + c), Kept) == Filter(BreaksToSpaces(a + c), Kept);
  }

  /** A non-empty run of word characters is one word. */
  lemma CleanOfWord(w: string)
    requires |w| > 0 && forall k | 0 <= k < |w| :: IsTokenChar(w[k])
    ensures CleanIngredientText(w) == [w]
  {
    forall k | 0 <= k < |w| ensures w[k] !in Breaks {
      TokenNotBreak(w[k]);
    }
    assert BreaksToSpaces(w) == w;
    TokenFilter(w);
    TokensNoSpace(w);
    WordsOfWord(w);
  }

  /** Whitespace around the text changes none of its words. */
  lemma {:induction false} CleanIgnoresSpaces(a: string, s: string, b: string)
    requires AllSpace(a) && AllSpace(b)
    ensures CleanIngredientText(a + s + b) == CleanIngredientText(s)
    decreases |a| + |b|
  {
    if a != [] {
      var rest := a[1..] + s + b;
      assert a + s + b == [] + [a[0]] + rest;
      CleanSplitsAt([], a[0], rest);
      assert CleanIngredientText([]) == [];
      CleanIgnoresSpaces(a[1..], s, b);
    } else if b != [] {
      var front := s + b[..|b| - 1];
      assert a + s + b == front + [b[|b| - 1]] + [];
      CleanSplitsAt(front, b[|b| - 1], []);
      assert CleanIngredientText([]) == [];
      assert front == a + s + b[..|b| - 1];
      CleanIgnoresSpaces(a, s, b[..|b| - 1]);
    } else {
      assert a + s + b == s;
    }
  }

  /** `clean_ingredient_text` of the stripped text is that of the text. */
  lemma CleanOfStrip(s: string)
    ensures CleanIngredientText(Strip(s)) == CleanIngredientText(s)
  {
    var a, b := StripParts(s);
    CleanIgnoresSpaces(a, Strip(s), b);
  }

  /** A preview item of a recipe whose preview is a list. */
  datatype PreviewItem = ItemDict(name: string) | ItemText(text: string) | ItemOther

  /** `preview_ingredients` as read from JSON: a string, a list, or anything else. */
  datatype Preview = PreviewText(text: string) | PreviewList(items: seq<PreviewItem>) | PreviewOther

  /** The fields read from a recipe; a missing id is "". */
  datatype DocRecipe = DocRecipe(id: string, preview: Preview)

  datatype Document = Document(id: string, document: string)

  /** The names of one list item: a dict contributes its stripped name when that
      is not empty, a string contributes itself, anything else nothing. */
  function ItemNames(item: PreviewItem): (names: seq<string>)
    ensures forall i | 0 <= i < |names| :: |names[i]| > 0 && NoSpace(names[i])
    ensures item.ItemOther? ==> names == []
    ensures item.ItemDict? ==> names == CleanIngredientText(item.name)
    ensures item.ItemText? ==> names == CleanIngredientText(item.text)
    ensures item.ItemDict? ==> Concat(names) == Filter(item.name, IsTokenChar)
    ensures item.ItemText? ==> Concat(names) == Filter(item.text, IsTokenChar)
  {
    match item
    case ItemDict(n) =>
      var s := Strip(n);
      StripKeeps(n, IsTokenChar);
      CleanOfStrip(n);
      if s != [] then CleanIngredientText(s)
      else
        FilterRejects(n, IsTokenChar);
        assert CleanIngredientText(s) == [];
        []
    case ItemText(t) => CleanIngredientText(t)
    case ItemOther => []
  }

  /** The names of a list preview, item after item. */
  function ListNames(items: seq<PreviewItem>): (names: seq<string>)
    ensures forall i | 0 <= i < |names| :: |names[i]| > 0 && NoSpace(names[i])
  {
    if items == [] then [] else ItemNames(items[0]) + ListNames(items[1..])
  }

  /** The `extend` loop: a list's names are its parts' names in order, and a
      one-item list gives that item's names. */
  lemma {:induction false} ListNamesAppend(a: seq<PreviewItem>, b: seq<PreviewItem>)
    ensures ListNames(a + b) == ListNames(a) + ListNames(b)
    ensures ListNames([]) == [] && ListNames(b[..0]) == []
    ensures |a| == 1 ==> ListNames(a) == ItemNames(a[0])
  {
    if a != [] {
      assert (a + b)[1..] == a[1..] + b;
      ListNamesAppend(a[1..], b);
    } else {
      assert a + b == b;
    }
    if |a| == 1 {
      assert a[1..] == [];
    }
  }

  /** The names of a preview: a string is cleaned whole, a list item by item. */
  function PreviewNames(p: Preview): (names: seq<string>)
    ensures forall i | 0 <= i < |names| :: |names[i]| > 0 && NoSpace(names[i])
    ensures p.PreviewOther? ==> names == []
    ensures p.PreviewText? ==> names == CleanIngredientText(p.text)
    ensures p.PreviewList? ==> names == ListNames(p.items)
    ensures p.PreviewText? ==> Concat(names) == Filter(p.text, IsTokenChar)
  {
    match p
    case PreviewText(t) => CleanIngredientText(t)
    case PreviewList(items) => ListNames(items)
    case PreviewOther => []
  }

  /** The document of one recipe. */
  function DocumentOf(r: DocRecipe): (d: Document)
    ensures d.id == r.id && SingleSpaced(d.document)
    ensures Words(d.document) == PreviewNames(r.preview)
  {
    var names := PreviewNames(r.preview);
    JoinWords(names);
    WordsOfJoin(names);
    Document(r.id, Join(names, " "))
  }

  /** `generate_documents`: one document per recipe, in order, holding the
      recipe's names separated by single spaces. */
  function GenerateDocuments(rs: seq<DocRecipe>): (docs: seq<Document>)
    ensures |docs| == |rs|
    ensures forall i | 0 <= i < |rs| :: docs[i].id == rs[i].id
    ensures forall i | 0 <= i < |rs| :: SingleSpaced(docs[i].document)
    ensures forall i | 0 <= i < |rs| :: Words(docs[i].document) == PreviewNames(rs[i].preview)
  {
    seq(|rs|, i requires 0 <= i < |rs| => DocumentOf(rs[i]))
  }
}
