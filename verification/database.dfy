/** The pure pieces of the database builder (scripts/create_database.py): image
    paths made relative, step rows cut out of the joined step text, and
    ingredient rows taken from the structured ingredients. */
module Database {
  import opened Wrappers
  import opened Text
  import opened Records

  // ---------------------------------------------------------------------------
  // convert_to_relative_path

  /** The Windows form of the image directory marker, `\image\`. */
  const BackslashImage: string := "\\image\\"

  /** The POSIX form of the image directory marker, `/image/`. */
  const SlashImage: string := "/image/"

  /** `s.split(sep, 1)[1]`: the text after the first occurrence of `sep`. */
  function AfterFirst(s: string, sep: string): (r: string)
    requires Contains(s, sep)
    ensures exists i | 0 <= i && i + |sep| <= |s| :: OccursAt(s, sep, i) && r == s[i + |sep|..]
              && forall k | 0 <= k < i :: !OccursAt(s, sep, k)
  {
    var i := Find(s, sep);
    s[i + |sep|..]
  }

  /** Every backslash turned into a forward slash. */
  function ForwardSlashes(s: string): (r: string)
    ensures |r| == |s|
    ensures forall k | 0 <= k < |s| :: r[k] == if s[k] == '\\' then '/' else s[k]
    ensures '\\' !in r
  {
    ReplaceChar(s, '\\', '/');
    Replace(s, "\\", "/")
  }

  /** `convert_to_relative_path`: the part after the image directory marker,
      under `image/`, or the path itself with forward slashes. */
  function RelativePath(path: string): (r: string)
    ensures r == [] <==> path == []
    ensures Contains(path, BackslashImage) ==> StartsWith(r, "image/") && '\\' !in r
    ensures !Contains(path, BackslashImage) && Contains(path, SlashImage) ==>
              StartsWith(r, "image/") && EndsWith(path, r[6..])
    ensures !Contains(path, BackslashImage) && !Contains(path, SlashImage) ==>
              |r| == |path| && '\\' !in r
              && forall k | 0 <= k < |path| :: r[k] == if path[k] == '\\' then '/' else path[k]
    ensures forall i: nat | FirstOccurrence(path, BackslashImage, i) ::
              r == "image/" + ForwardSlashes(path[i + |BackslashImage|..])
    ensures !Contains(path, BackslashImage) ==> forall i: nat | FirstOccurrence(path, SlashImage, i) ::
              r == "image/" + path[i + |SlashImage|..]
  {
    FirstMarker(path, BackslashImage);
    FirstMarker(path, SlashImage);
    if path == [] then []
    else if Contains(path, BackslashImage) then "image/" + ForwardSlashes(AfterFirst(path, BackslashImage))
    else if Contains(path, SlashImage) then "image/" + AfterFirst(path, SlashImage)
    else ForwardSlashes(path)
  }

  /** Whatever first occurrence of `sep` there is, `AfterFirst` cuts there. */
  lemma FirstMarker(path: string, sep: string)
    ensures forall i: nat | FirstOccurrence(path, sep, i) :: Contains(path, sep) && AfterFirst(path, sep) == path[i + |sep|..]
  {
    forall i: nat | FirstOccurrence(path, sep, i)
      ensures Contains(path, sep) && AfterFirst(path, sep) == path[i + |sep|..]
    {
      FindIsFirst(path, sep, i);
    }
  }

  /** A path with no marker and no backslash is already relative. */
  lemma RelativeFixpoint(path: string)
    requires !Contains(path, SlashImage) && '\\' !in path
    ensures RelativePath(path) == path
  {
    forall k | 0 <= k <= |path| ensures !OccursAt(path, BackslashImage, k) {
      if k + 7 <= |path| { assert path[k..k + 7][0] == path[k]; }
    }
  }

  /** Converting twice changes nothing, unless the first result still holds a
      marker or was taken after `/image/` with its backslashes left in. */
  lemma RelativeIdempotent(path: string)
    requires !Contains(RelativePath(path), SlashImage)
    requires Contains(path, BackslashImage) || !Contains(path, SlashImage)
    ensures RelativePath(RelativePath(path)) == RelativePath(path)
  {
    RelativeFixpoint(RelativePath(path));
  }

  /** After `/image/` a backslash survives. */
  lemma SlashMarkerKeepsBackslash()
    ensures RelativePath("/image/a\\b") == "image/a\\b"
  {
    var p := "/image/a\\b";
    assert p[0] != '\\' && p[1] != '\\' && p[2] != '\\' && p[3] != '\\';
    NoBackslashMarker(p, 4);
    assert OccursAt(p, SlashImage, 0);
    SlashMarkerFirst(p);
    assert p[7..] == "a\\b";
  }

  /** A path whose backslashes all sit in its last six characters holds no `\image\`. */
  lemma NoBackslashMarker(p: string, n: nat)
    requires |p| <= n + 6 && forall k | 0 <= k < n && k < |p| :: p[k] != '\\'
    ensures !Contains(p, BackslashImage)
  {
    forall k | 0 <= k <= |p| ensures !OccursAt(p, BackslashImage, k) {
      if k + 7 <= |p| { assert p[k..k + 7][0] == p[k]; }
    }
  }

  /** A path that starts with `/image/` and holds no `\image\` keeps what follows. */
  lemma SlashMarkerFirst(p: string)
    requires !Contains(p, BackslashImage) && OccursAt(p, SlashImage, 0)
    ensures RelativePath(p) == "image/" + p[|SlashImage|..]
  {
    assert Find(p, SlashImage) == 0;
  }

  // ---------------------------------------------------------------------------
  // Step rows of process_vegetable_steps

  /** The step text cleaned: newlines turned into spaces, then `' '.join(s.split())`. */
  function CleanDescription(d: string): (r: string)
    ensures '\n' !in r && '\r' !in r
    ensures Trimmed(r) && SingleSpaced(r)
    ensures Filter(r, c => !IsSpace(c)) == Filter(d, c => !IsSpace(c))
    ensures r == [] <==> AllSpace(d)
    ensures Words(r) == Words(d)
  {
    var x := Replace(Replace(Strip(d), "\n", " "), "\r", " ");
    var ws := Words(x);
    var r := Join(ws, " ");
    JoinWords(ws);
    WordsOfJoin(ws);
    WordsReplaceSpace(Replace(Strip(d), "\n", " "), '\r');
    WordsReplaceSpace(Strip(d), '\n');
    WordsOfStrip(d);
    WordsConcat(x);
    FilterReplaceSpace(Replace(Strip(d), "\n", " "), '\r');
    FilterReplaceSpace(Strip(d), '\n');
    StripKeepsWords(d);
    FilterEmptyIffAllSpace(d);
    FilterEmptyIffAllSpace(r);
    r
  }

  /** One row of the steps table. */
  datatype StepRow = StepRow(id: string, description: string, stepNo: nat)

  /** The rows for `steps`, numbered from `n`; blank steps are skipped but still
      use up their number. */
  function StepRowsFrom(id: string, steps: seq<string>, n: nat, clean: string -> string): (rows: seq<StepRow>)
    ensures |rows| <= |steps|
    ensures forall i | 0 <= i < |rows| ::
              && rows[i].id == id
              && n <= rows[i].stepNo < n + |steps|
              && !AllSpace(steps[rows[i].stepNo - n])
              && rows[i].description == clean(steps[rows[i].stepNo - n])
    ensures forall i, j | 0 <= i < j < |rows| :: rows[i].stepNo < rows[j].stepNo
    decreases |steps|
  {
    if steps == [] then []
    else
      var rest := StepRowsFrom(id, steps[1..], n + 1, clean);
      RowsShift(id, steps, n, clean, rest);
      if !AllSpace(steps[0]) then
        RowsCons(id, steps, n, clean, rest);
        [StepRow(id, clean(steps[0]), n)] + rest
      else rest
  }

  /** The rows of a step list's tail are rows of the whole list, one number on. */
  lemma RowsShift(id: string, steps: seq<string>, n: nat, clean: string -> string, rest: seq<StepRow>)
    requires steps != []
    requires forall i | 0 <= i < |rest| ::
              && rest[i].id == id
              && n + 1 <= rest[i].stepNo < n + 1 + |steps[1..]|
              && !AllSpace(steps[1..][rest[i].stepNo - (n + 1)])
              && rest[i].description == clean(steps[1..][rest[i].stepNo - (n + 1)])
    ensures forall i | 0 <= i < |rest| ::
              && rest[i].id == id
              && n < rest[i].stepNo < n + |steps|
              && !AllSpace(steps[rest[i].stepNo - n])
              && rest[i].description == clean(steps[rest[i].stepNo - n])
  {
    assert forall i | 0 <= i < |rest| :: steps[1..][rest[i].stepNo - (n + 1)] == steps[rest[i].stepNo - n];
  }

  /** A row for the first step in front of the rows of the others. */
  lemma RowsCons(id: string, steps: seq<string>, n: nat, clean: string -> string, rest: seq<StepRow>)
    requires steps != [] && !AllSpace(steps[0])
    requires forall i | 0 <= i < |rest| ::
              && rest[i].id == id
              && n < rest[i].stepNo < n + |steps|
              && !AllSpace(steps[rest[i].stepNo - n])
              && rest[i].description == clean(steps[rest[i].stepNo - n])
    requires forall i, j | 0 <= i < j < |rest| :: rest[i].stepNo < rest[j].stepNo
    ensures var rows := [StepRow(id, clean(steps[0]), n)] + rest;
            && (forall i | 0 <= i < |rows| ::
                  && rows[i].id == id
                  && n <= rows[i].stepNo < n + |steps|
                  && !AllSpace(steps[rows[i].stepNo - n])
                  && rows[i].description == clean(steps[rows[i].stepNo - n]))
            && (forall i, j | 0 <= i < j < |rows| :: rows[i].stepNo < rows[j].stepNo)
  {
    var rows := [StepRow(id, clean(steps[0]), n)] + rest;
    assert forall i | 1 <= i < |rows| :: rows[i] == rest[i - 1];
  }

  /** Some row carries step number `m`. */
  predicate Numbered(rows: seq<StepRow>, m: nat)
  {
    exists i | 0 <= i < |rows| :: rows[i].stepNo == m
  }

  /** No step that has text is skipped: its 1-based position is some row's
      number. */
  lemma {:induction false} StepRowsComplete(id: string, steps: seq<string>, n: nat, clean: string -> string, k: nat)
    requires k < |steps| && !AllSpace(steps[k])
    ensures Numbered(StepRowsFrom(id, steps, n, clean), n + k)
    decreases k
  {
    if k == 0 {
      StepRowsFirst(id, steps, n, clean);
    } else {
      StepRowsUnfold(id, steps, n, clean);
      assert steps[1..][k - 1] == steps[k];
      StepRowsComplete(id, steps[1..], n + 1, clean, k - 1);
      NumberedTail(if !AllSpace(steps[0]) then [StepRow(id, clean(steps[0]), n)] else [],
                   StepRowsFrom(id, steps[1..], n + 1, clean), n + k);
    }
  }

  /** One step of the recursion of `StepRowsFrom`, as an equation. */
  lemma StepRowsUnfold(id: string, steps: seq<string>, n: nat, clean: string -> string)
    requires steps != []
    ensures StepRowsFrom(id, steps, n, clean)
            == (if !AllSpace(steps[0]) then [StepRow(id, clean(steps[0]), n)] else [])
               + StepRowsFrom(id, steps[1..], n + 1, clean)
  {
  }

  /** A first step with text is numbered `n`. */
  lemma StepRowsFirst(id: string, steps: seq<string>, n: nat, clean: string -> string)
    requires steps != [] && !AllSpace(steps[0])
    ensures Numbered(StepRowsFrom(id, steps, n, clean), n)
  {
    var rows := StepRowsFrom(id, steps, n, clean);
    assert rows[0].stepNo == n;
  }

  lemma NumberedTail(head: seq<StepRow>, rest: seq<StepRow>, m: nat)
    requires Numbered(rest, m)
    ensures Numbered(head + rest, m)
  {
    var i :| 0 <= i < |rest| && rest[i].stepNo == m;
    assert (head + rest)[|head| + i] == rest[i];
  }

  /** The step rows of one recipe: its step text split on " | ", numbered from 1.
      `description.strip()` is empty exactly when the step is all whitespace. */
  function StepRows(id: string, steps: string): (rows: seq<StepRow>)
    ensures steps == [] ==> rows == []
    ensures forall i | 0 <= i < |rows| ::
              rows[i].id == id && rows[i].description != [] && 1 <= rows[i].stepNo <= |Split(steps, " | ")|
    ensures forall i | 0 <= i < |rows| :: rows[i].description == CleanDescription(Split(steps, " | ")[rows[i].stepNo - 1])
    ensures forall i, j | 0 <= i < j < |rows| :: rows[i].stepNo < rows[j].stepNo
  {
    if steps == [] then [] else StepRowsFrom(id, Split(steps, " | "), 1, CleanDescription)
  }

  // ---------------------------------------------------------------------------
  // Ingredient rows of process_vegetable_ingredients

  /** An entry of `structured_ingredients` as read back from JSON: a dict with
      the three record keys, or something else. */
  datatype Entry = Dict(record: Record) | NotDict

  /** The fields of a recipe the ingredient table reads; a missing id is "" and
      a missing ingredient list is empty. */
  datatype RecipeEntry = RecipeEntry(id: string, structured: seq<Entry>)

  datatype IngredientRow = IngredientRow(id: string, ingredient: string, quantity: Quantity, unit: Option<string>)

  /** `isinstance(e, dict) and e.get("name")`: a dict with a non-empty name. */
  predicate HasName(e: Entry)
  {
    e.Dict? && e.record.name.Some? && e.record.name.value != []
  }

  function RowOf(id: string, e: Entry): IngredientRow
    requires HasName(e)
  {
    IngredientRow(id, e.record.name.value, e.record.quantity, e.record.unit)
  }

  /** The rows of the entries of one recipe, in order. */
  function EntryRows(id: string, es: seq<Entry>): (rows: seq<IngredientRow>)
    ensures |rows| <= |es|
    ensures forall i | 0 <= i < |rows| :: rows[i].id == id && rows[i].ingredient != []
    ensures forall i | 0 <= i < |rows| :: exists k | 0 <= k < |es| :: HasName(es[k]) && rows[i] == RowOf(id, es[k])
    ensures forall k | 0 <= k < |es| && HasName(es[k]) :: RowOf(id, es[k]) in rows
  {
    if es == [] then []
    else
      var rest := EntryRows(id, es[1..]);
      assert forall k | 1 <= k < |es| :: es[k] == es[1..][k - 1];
      if HasName(es[0]) then
        var rows := [RowOf(id, es[0])] + rest;
        assert forall i | 1 <= i < |rows| :: rows[i] == rest[i - 1];
        rows
      else rest
  }

  /** The rows of one recipe: none without an id or without ingredients. */
  function RecipeRows(r: RecipeEntry): (rows: seq<IngredientRow>)
    ensures r.id == [] ==> rows == []
    ensures forall i | 0 <= i < |rows| :: rows[i].id == r.id && rows[i].ingredient != []
    ensures forall k | 0 <= k < |r.structured| && HasName(r.structured[k]) && r.id != [] ::
              RowOf(r.id, r.structured[k]) in rows
  {
    if r.id == [] || r.structured == [] then [] else EntryRows(r.id, r.structured)
  }

  /** The ingredient table: the rows of every recipe, recipe by recipe. */
  function IngredientRows(rs: seq<RecipeEntry>): (rows: seq<IngredientRow>)
    ensures forall i | 0 <= i < |rows| :: rows[i].id != [] && rows[i].ingredient != []
  {
    if rs == [] then [] else RecipeRows(rs[0]) + IngredientRows(rs[1..])
  }

  /** The table of two batches of recipes is the two tables one after the other. */
  lemma {:induction false} IngredientRowsAppend(a: seq<RecipeEntry>, b: seq<RecipeEntry>)
    ensures IngredientRows(a + b) == IngredientRows(a) + IngredientRows(b)
  {
    if a == [] {
      assert a + b == b;
    } else {
      assert (a + b)[1..] == a[1..] + b;
      IngredientRowsAppend(a[1..], b);
    }
  }

  /** Number of entries with a name. */
  function NamedCount(es: seq<Entry>): nat
  {
    if es == [] then 0 else (if HasName(es[0]) then 1 else 0) + NamedCount(es[1..])
  }

  /** One row per named entry. */
  lemma {:induction false} EntryRowsCount(id: string, es: seq<Entry>)
    ensures |EntryRows(id, es)| == NamedCount(es)
  {
    if es != [] {
      EntryRowsCount(id, es[1..]);
    }
  }
}
