/** The ingredient step of the 0718 `load_and_clean_csv`: split glued seasoning
    compounds, parse every piece, and keep the records that have a name. */
module Load0718 {
  import opened Wrappers
  import opened Text
  import opened Records
  import opened Compound
  import opened Early
  import opened Passes

  /** The cleaned tokens with each compound split into its seasonings, flattened
      in order. */
  function ExpandTokens(items: seq<string>): (parts: seq<string>)
    ensures forall i | 0 <= i < |parts| :: |parts[i]| > 0
    ensures (forall i | 0 <= i < |items| :: items[i] != []) ==> |parts| >= |items|
  {
    if items == [] then []
    else SplitCompounds(items[0]) + ExpandTokens(items[1..])
  }

  /** Splitting loses no text but whitespace: the pieces glue back into the
      tokens up to whitespace, and exactly for whitespace-free tokens. */
  lemma {:induction false} ExpandKeepsWords(items: seq<string>)
    ensures Filter(Concat(ExpandTokens(items)), c => !IsSpace(c)) == Filter(Concat(items), c => !IsSpace(c))
    ensures (forall i | 0 <= i < |items| :: NoSpace(items[i])) ==> Concat(ExpandTokens(items)) == Concat(items)
  {
    if items != [] {
      var head := SplitCompounds(items[0]);
      var tail := ExpandTokens(items[1..]);
      ExpandKeepsWords(items[1..]);
      CompoundsRejoin(items[0]);
      ConcatAppend(head, tail);
      FilterAppend(Concat(head), Concat(tail), c => !IsSpace(c));
      FilterAppend(items[0], Concat(items[1..]), c => !IsSpace(c));
    }
  }

  /** Truthy in Python: a name that is present and not empty. */
  predicate Named(r: Record)
  {
    r.name.Some? && r.name.value != []
  }

  /** `[i for i in structured if i["name"]]`. */
  function KeepNamed(rs: seq<Record>): (kept: seq<Record>)
    ensures |kept| <= |rs|
    ensures forall i | 0 <= i < |kept| :: Named(kept[i]) && kept[i] in rs
    ensures forall x | x in rs && Named(x) :: x in kept
  {
    if rs == [] then []
    else if Named(rs[0]) then [rs[0]] + KeepNamed(rs[1..])
    else KeepNamed(rs[1..])
  }

  /** The filter keeps order: the named records of `a + b` are those of `a`
      followed by those of `b`, and one record is kept exactly when named. */
  lemma {:induction false} KeepNamedAppend(a: seq<Record>, b: seq<Record>)
    ensures KeepNamed(a + b) == KeepNamed(a) + KeepNamed(b)
    ensures |a| == 1 ==> KeepNamed(a) == if Named(a[0]) then a else []
    decreases |a|
  {
    if a != [] {
      assert (a + b)[0] == a[0] && (a + b)[1..] == a[1..] + b;
      KeepNamedAppend(a[1..], b);
      if Named(a[0]) {
        assert KeepNamed(a + b) == [a[0]] + KeepNamed(a[1..] + b);
      }
    } else {
      assert a + b == b;
    }
  }

  /** Parse every token, then keep the records that have a name. */
  function ParseNamed(tokens: seq<string>, parse: Parser): (r: Result<seq<Record>>)
    ensures r.Raise? ==> exists j | 0 <= j < |tokens| :: parse(tokens[j]) == Raise(r.error)
    ensures r.Ok? ==> forall i | 0 <= i < |r.value| :: Named(r.value[i])
    ensures r.Ok? ==> forall i | 0 <= i < |r.value| ::
              exists j | 0 <= j < |tokens| :: parse(tokens[j]) == Ok(r.value[i])
    ensures r.Ok? ==> forall j | 0 <= j < |tokens| ::
              parse(tokens[j]).Ok? && (Named(parse(tokens[j]).value) ==> parse(tokens[j]).value in r.value)
  {
    match ParseAll(tokens, parse)
    case Raise(e) => Raise(e)
    case Ok(rs) =>
      KeptFromTokens(tokens, parse, rs);
      Ok(KeepNamed(rs))
  }

  /** Each kept record is the parse of some token. */
  lemma KeptFromTokens(tokens: seq<string>, parse: Parser, rs: seq<Record>)
    requires |rs| == |tokens|
    requires forall j | 0 <= j < |tokens| :: parse(tokens[j]) == Ok(rs[j])
    ensures forall i | 0 <= i < |KeepNamed(rs)| :: exists j | 0 <= j < |tokens| :: parse(tokens[j]) == Ok(KeepNamed(rs)[i])
  {
    var kept := KeepNamed(rs);
    forall i | 0 <= i < |kept| ensures exists j | 0 <= j < |tokens| :: parse(tokens[j]) == Ok(kept[i]) {
      var j :| 0 <= j < |rs| && rs[j] == kept[i];
      assert parse(tokens[j]) == Ok(kept[i]);
    }
  }

  /** A parser whose only exception is ZeroDivisionError. */
  ghost predicate RaisesOnlyZeroDivision(parse: Parser)
  {
    forall t :: parse(t).Raise? ==> parse(t).error == ZeroDivisionError
  }

  lemma Parse0718RaisesOnlyZeroDivision()
    ensures RaisesOnlyZeroDivision(Parse0718)
  {
    forall t ensures Parse0718(t).Raise? ==> Parse0718(t).error == ZeroDivisionError {
    }
  }

  /** The structured ingredients of one recipe in the 0718 revision: compounds
      are split before parsing, so each seasoning of a compound becomes a record
      of its own; `ParseNamed` says which records are kept. */
  function StructuredIngredients0718(items: seq<string>): (r: Result<seq<Record>>)
    ensures r.Raise? ==> r.error == ZeroDivisionError
    ensures r.Ok? ==> forall i | 0 <= i < |r.value| :: Named(r.value[i])
  {
    Parse0718RaisesOnlyZeroDivision();
    ParseNamed(ExpandTokens(items), Parse0718)
  }
}
