/** The ingredient extraction of scripts/extract_ingredients_from_json.py: every
    preview ingredient of a recipe paired with the first detailed ingredient line
    that mentions it. */
module Extract {
  import opened Text
  import Lists

  /** The full-width enumeration comma, read as a plain comma. */
  const EnumComma: char := '、'

  /** The characters an item keeps: everything but whitespace and the two commas. */
  predicate IsItemChar(c: char)
  {
    !IsSpace(c) && c != ',' && c != EnumComma
  }

  /** The stripped pieces that are not empty, in order. */
  function NonBlank(pieces: seq<string>): (items: seq<string>)
    ensures |items| <= |pieces|
    ensures forall i | 0 <= i < |items| :: items[i] != [] && Trimmed(items[i])
  {
    if pieces == [] then []
    else
      var rest := NonBlank(pieces[1..]);
      var s := Strip(pieces[0]);
      if s != [] then
        var items := [s] + rest;
        assert forall i | 1 <= i < |items| :: items[i] == rest[i - 1];
        items
      else rest
  }

  /** A character in no piece is in no item. */
  lemma {:induction false} NonBlankWithout(pieces: seq<string>, c: char)
    requires forall k | 0 <= k < |pieces| :: c !in pieces[k]
    ensures forall i | 0 <= i < |NonBlank(pieces)| :: c !in NonBlank(pieces)[i]
  {
    if pieces != [] {
      NonBlankWithout(pieces[1..], c);
      CharOfStrip(pieces[0], c);
      var rest := NonBlank(pieces[1..]);
      if Strip(pieces[0]) != [] {
        assert forall i | 1 <= i < |NonBlank(pieces)| :: NonBlank(pieces)[i] == rest[i - 1];
      }
    }
  }

  /** Stripping adds no character. */
  lemma CharOfStrip(s: string, c: char)
    ensures c in Strip(s) ==> c in s
  {
    var r := Strip(s);
    if c in r {
      var k :| 0 <= k < |r| && r[k] == c;
      assert s[LeadingSpaces(s) + k] == c;
    }
  }

  /** `[item.strip() for item in preview.replace('、', ',').split(',') if item.strip()]`. */
  function PreviewItems(preview: string): (items: seq<string>)
    ensures forall i | 0 <= i < |items| :: items[i] != [] && Trimmed(items[i])
    ensures forall i | 0 <= i < |items| :: ',' !in items[i] && EnumComma !in items[i]
  {
    var r := Replace(preview, [EnumComma], ",");
    var pieces := Split(r, ",");
    ReplaceChar(preview, EnumComma, ',');
    assert EnumComma !in r;
    forall k | 0 <= k < |pieces| ensures ',' !in pieces[k] && EnumComma !in pieces[k] {
      ContainsChar(pieces[k], ',');
      CharInJoin(pieces, ",", k);
    }
    NonBlankWithout(pieces, ',');
    NonBlankWithout(pieces, EnumComma);
    NonBlank(pieces)
  }

  /** A character of a part is a character of the joined text. */
  lemma {:induction false} CharInJoin(parts: seq<string>, sep: string, i: nat)
    requires i < |parts|
    ensures forall c | c in parts[i] :: c in Join(parts, sep)
    decreases i
  {
    if |parts| > 1 {
      assert Join(parts, sep) == parts[0] + sep + Join(parts[1..], sep);
      if i > 0 {
        CharInJoin(parts[1..], sep, i - 1);
        assert parts[1..][i - 1] == parts[i];
      }
    }
  }

  // ---------------------------------------------------------------------------
  // The items keep the preview's text

  /** Joining on a separator the filter drops is concatenating. */
  lemma {:induction false} FilterJoin(parts: seq<string>, sep: string, keep: char -> bool)
    requires forall k | 0 <= k < |sep| :: !keep(sep[k])
    ensures Filter(Join(parts, sep), keep) == Filter(Concat(parts), keep)
  {
    FilterRejected(sep, keep);
    if |parts| == 1 {
      assert parts[1..] == [];
      assert Concat(parts) == parts[0];
    } else if |parts| > 1 {
      FilterJoin(parts[1..], sep, keep);
      assert Join(parts, sep) == (parts[0] + sep) + Join(parts[1..], sep);
      FilterAppend(parts[0] + sep, Join(parts[1..], sep), keep);
      FilterAppend(parts[0], sep, keep);
      FilterAppend(parts[0], Concat(parts[1..]), keep);
    }
  }

  lemma {:induction false} FilterRejected(s: string, keep: char -> bool)
    requires forall k | 0 <= k < |s| :: !keep(s[k])
    ensures Filter(s, keep) == []
  {
    if s != [] {
      FilterRejected(s[1..], keep);
    }
  }

  /** Rewriting one dropped character into another keeps the filtered text. */
  lemma {:induction false} FilterReplaceRejected(s: string, c: char, d: char, keep: char -> bool)
    requires !keep(c) && !keep(d)
    ensures Filter(Replace(s, [c], [d]), keep) == Filter(s, keep)
    decreases |s|
  {
    if |s| >= 1 {
      FilterReplaceRejected(s[1..], c, d, keep);
      assert s[..1] == [s[0]];
      var r := Replace(s[1..], [c], [d]);
      if s[0] == c {
        FilterAppend([d], r, keep);
      } else {
        FilterAppend([s[0]], r, keep);
      }
    }
  }

  /** Dropping blank pieces and stripping the rest keeps the filtered text. */
  lemma {:induction false} NonBlankKeeps(pieces: seq<string>)
    ensures Filter(Concat(NonBlank(pieces)), IsItemChar) == Filter(Concat(pieces), IsItemChar)
  {
    if pieces != [] {
      NonBlankKeeps(pieces[1..]);
      var s := Strip(pieces[0]);
      var rest := NonBlank(pieces[1..]);
      StripKeeps(pieces[0], IsItemChar);
      FilterAppend(pieces[0], Concat(pieces[1..]), IsItemChar);
      if s != [] {
        assert ([s] + rest)[1..] == rest;
        FilterAppend(s, Concat(rest), IsItemChar);
      } else {
        FilterRejected(s, IsItemChar);
      }
    }
  }

  /** The items hold every character of the preview but whitespace and commas,
      in order. */
  lemma PreviewItemsKeepText(preview: string)
    ensures Filter(Concat(PreviewItems(preview)), IsItemChar) == Filter(preview, IsItemChar)
  {
    var r := Replace(preview, [EnumComma], ",");
    FilterReplaceRejected(preview, EnumComma, ',', IsItemChar);
    FilterJoin(Split(r, ","), ",", IsItemChar);
    NonBlankKeeps(Split(r, ","));
  }

  /** Items that each start with a kept character leave some text when there
      is at least one. */
  lemma ItemsLeaveText(items: seq<string>)
    requires forall i | 0 <= i < |items| :: items[i] != [] && IsItemChar(items[i][0])
    ensures Filter(Concat(items), IsItemChar) == [] ==> items == []
  {
    if items != [] {
      assert Concat(items) == items[0] + Concat(items[1..]);
      FilterAppend(items[0], Concat(items[1..]), IsItemChar);
    }
  }

  /** Pieces that are already non-empty and stripped are kept as they are. */
  lemma {:induction false} NonBlankOfItems(xs: seq<string>)
    requires forall k | 0 <= k < |xs| :: xs[k] != [] && Trimmed(xs[k])
    ensures NonBlank(xs) == xs
  {
    if xs != [] {
      NonBlankOfItems(xs[1..]);
      StripOfStripped(xs[0]);
      assert xs == [xs[0]] + xs[1..];
    }
  }

  /** Items that are non-empty, stripped and free of both commas come back
      from their comma-join unchanged. */
  lemma PreviewItemsOfJoin(xs: seq<string>)
    requires |xs| >= 1
    requires forall k | 0 <= k < |xs| :: xs[k] != [] && Trimmed(xs[k])
    requires forall k | 0 <= k < |xs| :: ',' !in xs[k] && EnumComma !in xs[k]
    ensures PreviewItems(Join(xs, ",")) == xs
  {
    var s := Join(xs, ",");
    assert EnumComma !in s by {
      if EnumComma in s {
        Lists.JoinNoChar(xs, ",", EnumComma);
      }
    }
    Lists.ReplaceAbsentString(s, EnumComma, ",");
    Lists.SplitJoin(xs, ',');
    NonBlankOfItems(xs);
  }

  /** A preview of whitespace and commas only has no item. */
  lemma PreviewItemsOfBlank(preview: string)
    requires forall k | 0 <= k < |preview| :: !IsItemChar(preview[k])
    ensures PreviewItems(preview) == []
  {
    var items := PreviewItems(preview);
    forall i | 0 <= i < |items| ensures IsItemChar(items[i][0]) {
      assert items[i][0] in items[i];
    }
    PreviewItemsKeepText(preview);
    FilterRejected(preview, IsItemChar);
    ItemsLeaveText(items);
  }

  // ---------------------------------------------------------------------------
  // Matching an item with its detailed line

  /** The first detailed ingredient that contains the item, or "" when none does. */
  function Detailed(item: string, ingredients: seq<string>): (d: string)
    ensures (exists k | 0 <= k < |ingredients| :: Contains(ingredients[k], item)) ==>
              exists k | 0 <= k < |ingredients| ::
                && d == ingredients[k] && Contains(ingredients[k], item)
                && forall j | 0 <= j < k :: !Contains(ingredients[j], item)
    ensures (forall k | 0 <= k < |ingredients| :: !Contains(ingredients[k], item)) ==> d == []
  {
    if ingredients == [] then []
    else if Contains(ingredients[0], item) then ingredients[0]
    else
      var d := Detailed(item, ingredients[1..]);
      assert forall k | 1 <= k < |ingredients| :: ingredients[k] == ingredients[1..][k - 1];
      d
  }

  // ---------------------------------------------------------------------------
  // The rows

  /** The fields read from a recipe: a missing id or preview is "", missing
      ingredients an empty list. */
  datatype SourceRecipe = SourceRecipe(id: string, preview: string, ingredients: seq<string>)

  /** One output row: id, preview ingredient, detailed ingredient. */
  datatype ExtractedRow = ExtractedRow(id: string, preview: string, detailed: string)

  /** The rows of one recipe: one per preview item, in order; none without an id. */
  function RecipeRows(r: SourceRecipe): (rows: seq<ExtractedRow>)
    ensures r.id == [] ==> rows == []
    ensures forall i | 0 <= i < |rows| :: rows[i].id == r.id && rows[i].preview != []
    ensures r.id != [] ==> |rows| == |PreviewItems(r.preview)|
    ensures r.id != [] ==> forall i | 0 <= i < |rows| ::
              rows[i] == ExtractedRow(r.id, PreviewItems(r.preview)[i], Detailed(PreviewItems(r.preview)[i], r.ingredients))
  {
    if r.id == [] then []
    else if r.preview == [] then
      PreviewItemsOfBlank(r.preview);
      []
    else
      var items := PreviewItems(r.preview);
      seq(|items|, i requires 0 <= i < |items| => ExtractedRow(r.id, items[i], Detailed(items[i], r.ingredients)))
  }

  /** Every row of a recipe names a preview ingredient, and its detailed line,
      when there is one, is an ingredient that mentions it. */
  lemma RecipeRowsMatch(r: SourceRecipe, i: nat)
    requires i < |RecipeRows(r)|
    ensures var row := RecipeRows(r)[i];
            && row.id == r.id && row.preview != []
            && (row.detailed != [] ==> row.detailed in r.ingredients && Contains(row.detailed, row.preview))
            && (row.detailed == [] ==> forall k | 0 <= k < |r.ingredients| :: !Contains(r.ingredients[k], row.preview))
  {
    var row := RecipeRows(r)[i];
    var item := PreviewItems(r.preview)[i];
    if exists k | 0 <= k < |r.ingredients| :: Contains(r.ingredients[k], item) {
      var k :| 0 <= k < |r.ingredients| && row.detailed == r.ingredients[k] && Contains(r.ingredients[k], item);
      ContainsNonEmpty(r.ingredients[k], item);
    }
  }

  /** Only a non-empty text contains a non-empty piece. */
  lemma ContainsNonEmpty(s: string, p: string)
    requires p != [] && Contains(s, p)
    ensures s != []
  {
    assert OccursAt(s, p, Find(s, p));
  }

  /** All rows of all recipes, recipe by recipe. */
  function ExtractAll(rs: seq<SourceRecipe>): (rows: seq<ExtractedRow>)
    ensures forall i | 0 <= i < |rows| :: rows[i].id != [] && rows[i].preview != []
  {
    if rs == [] then []
    else
      RecipeRows(rs[0]) + ExtractAll(rs[1..])
  }

  /** Number of preview items of the recipes that have an id. */
  function ItemCount(rs: seq<SourceRecipe>): nat
  {
    if rs == [] then 0
    else (if rs[0].id != [] then |PreviewItems(rs[0].preview)| else 0) + ItemCount(rs[1..])
  }

  /** One row per preview item of every recipe with an id. */
  lemma {:induction false} ExtractAllCount(rs: seq<SourceRecipe>)
    ensures |ExtractAll(rs)| == ItemCount(rs)
  {
    if rs != [] {
      ExtractAllCount(rs[1..]);
    }
  }

  /** Extracting two batches is extracting each, one after the other. */
  lemma {:induction false} ExtractAllAppend(a: seq<SourceRecipe>, b: seq<SourceRecipe>)
    ensures ExtractAll(a + b) == ExtractAll(a) + ExtractAll(b)
  {
    if a == [] {
      assert a + b == b;
    } else {
      assert (a + b)[1..] == a[1..] + b;
      ExtractAllAppend(a[1..], b);
    }
  }
}
