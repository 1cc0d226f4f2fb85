/** The list splitters shared by every parser revision: ingredient strings cut on
    commas, step strings cut on the first separator present, and the rule that
    keeps only the first recipe of each name. */
module Lists {
  import opened Text

  /** Every character of a part is a character of the joined string. */
  lemma {:induction false} JoinContains(parts: seq<string>, sep: string, k: nat, c: char)
    requires k < |parts| && c in parts[k]
    ensures c in Join(parts, sep)
    decreases |parts|
  {
    if |parts| > 1 {
      if k > 0 {
        JoinContains(parts[1..], sep, k - 1, c);
      }
      assert Join(parts, sep) == parts[0] + sep + Join(parts[1..], sep);
    }
  }

  /** Splitting on a one-character separator undoes joining on it. */
  lemma {:induction false} SplitJoin(xs: seq<string>, c: char)
    requires |xs| >= 1
    requires forall k | 0 <= k < |xs| :: c !in xs[k]
    ensures Split(Join(xs, [c]), [c]) == xs
    decreases |xs|
  {
    var s := Join(xs, [c]);
    if |xs| == 1 {
      ContainsChar(xs[0], c);
    } else {
      var x, rest := xs[0], Join(xs[1..], [c]);
      assert s == x + [c] + rest;
      FirstBreak(x, c, rest);
      SplitJoin(xs[1..], c);
      assert xs == [x] + xs[1..];
    }
  }

  /** Splitting text whose first separator follows `x` takes `x` off first. */
  lemma FirstBreak(x: string, c: char, rest: string)
    requires c !in x
    ensures Split(x + [c] + rest, [c]) == [x] + Split(rest, [c])
  {
    var s := x + [c] + rest;
    assert OccursAt(s, [c], |x|);
    forall k | 0 <= k < |x| ensures !OccursAt(s, [c], k) {
      assert s[k] == x[k];
      assert s[k..k + 1][0] == s[k];
    }
    assert Find(s, [c]) == |x|;
    assert s[..|x|] == x;
    assert s[|x| + 1..] == rest;
  }

  /** Deleting a character the string does not hold changes nothing. */
  lemma {:induction false} ReplaceAbsent(s: string, c: char)
    requires c !in s
    ensures Replace(s, [c], []) == s
    decreases |s|
  {
    if |s| >= 1 {
      assert s[..1] == [s[0]];
      assert c !in s[1..];
      ReplaceAbsent(s[1..], c);
      assert s == [s[0]] + s[1..];
    }
  }

  // ---------------------------------------------------------------------------
  // clean_ingredients

  /** The non-blank pieces, stripped and with every '*' deleted; the blank test
      comes before the deletion. */
  function KeepItems(pieces: seq<string>): (items: seq<string>)
    ensures |items| <= |pieces|
    ensures forall k | 0 <= k < |items| :: '*' !in items[k]
  {
    if pieces == [] then []
    else
      var rest := KeepItems(pieces[1..]);
      var t := Strip(pieces[0]);
      if t == [] then rest
      else
        var item := Replace(t, "*", []);
        ReplaceDeletesChar(t, '*');
        var items := [item] + rest;
        assert forall k | 1 <= k < |items| :: items[k] == rest[k - 1];
        items
  }

  /** A character no piece holds is in no item. */
  lemma {:induction false} KeepItemsAvoid(pieces: seq<string>, c: char)
    requires forall j | 0 <= j < |pieces| :: c !in pieces[j]
    ensures forall k | 0 <= k < |KeepItems(pieces)| :: c !in KeepItems(pieces)[k]
  {
    if pieces != [] {
      var tail := pieces[1..];
      assert forall j | 0 <= j < |tail| :: tail[j] == pieces[j + 1];
      KeepItemsAvoid(tail, c);
      var t := Strip(pieces[0]);
      if t != [] {
        StripAvoid(pieces[0], c);
        var item := Replace(t, "*", []);
        if c in item {
          ReplaceDeleteSubset(t, "*", c);
        }
        assert KeepItems(pieces) == [item] + KeepItems(tail);
        AvoidCons(item, KeepItems(tail), c);
      }
    }
  }

  /** A character in neither the head nor any of the rest is in no element. */
  lemma AvoidCons(x: string, rest: seq<string>, c: char)
    requires c !in x && forall k | 0 <= k < |rest| :: c !in rest[k]
    ensures forall k | 0 <= k < |[x] + rest| :: c !in ([x] + rest)[k]
  {
    var xs := [x] + rest;
    assert forall k | 1 <= k < |xs| :: xs[k] == rest[k - 1];
  }

  /** `clean_ingredients`: '、' turned into ',', split on ',', blank pieces
      dropped, each kept piece stripped with its '*'s deleted. */
  function CleanIngredients(s: string): (items: seq<string>)
    ensures forall k | 0 <= k < |items| :: ',' !in items[k] && '、' !in items[k] && '*' !in items[k]
  {
    var pieces := Split(Replace(s, "、", ","), ",");
    PiecesAvoidSeparators(s, pieces);
    KeepItemsAvoid(pieces, ',');
    KeepItemsAvoid(pieces, '、');
    KeepItems(pieces)
  }

  /** After '、' becomes ',' and the text is split on ',', no piece holds either. */
  lemma PiecesAvoidSeparators(s: string, pieces: seq<string>)
    requires pieces == Split(Replace(s, "、", ","), ",")
    ensures forall j | 0 <= j < |pieces| :: ',' !in pieces[j] && '、' !in pieces[j]
  {
    var commas := Replace(s, "、", ",");
    ReplaceChar(s, '、', ',');
    forall j | 0 <= j < |pieces| ensures ',' !in pieces[j] && '、' !in pieces[j] {
      ContainsChar(pieces[j], ',');
      if '、' in pieces[j] {
        JoinContains(pieces, ",", j, '、');
      }
    }
  }

  /** A piece of nothing but '*' is not blank, so it survives as "". */
  lemma StarOnlyItem()
    ensures CleanIngredients("*") == [""]
  {
    assert Replace("*", "、", ",") == "*";
    assert Find("*", ",") == -1 by {
      assert !OccursAt("*", ",", 0) && !OccursAt("*", ",", 1);
    }
    StripOfStripped("*");
    assert Replace("*", "*", []) == [];
  }

  /** Items that are already clean come back from their comma-join unchanged. */
  lemma CleanIngredientsOfJoin(xs: seq<string>)
    requires |xs| >= 1
    requires forall k | 0 <= k < |xs| :: |xs[k]| > 0 && Strip(xs[k]) == xs[k]
    requires forall k | 0 <= k < |xs| :: ',' !in xs[k] && '、' !in xs[k] && '*' !in xs[k]
    ensures CleanIngredients(Join(xs, ",")) == xs
  {
    var s := Join(xs, ",");
    assert '、' !in s by {
      if '、' in s {
        JoinNoChar(xs, ",", '、');
      }
    }
    ReplaceAbsentString(s, '、', ",");
    SplitJoin(xs, ',');
    KeepClean(xs);
  }

  lemma {:induction false} JoinNoChar(parts: seq<string>, sep: string, c: char)
    requires c !in sep && forall k | 0 <= k < |parts| :: c !in parts[k]
    ensures c !in Join(parts, sep)
    decreases |parts|
  {
    if |parts| > 1 {
      JoinNoChar(parts[1..], sep, c);
      assert Join(parts, sep) == parts[0] + sep + Join(parts[1..], sep);
    }
  }

  lemma ReplaceAbsentString(s: string, c: char, t: string)
    requires c !in s
    ensures Replace(s, [c], t) == s
  {
    ReplaceAsMap(s, c, t);
    MapCharsIdentity(s, x => if x == c then t else [x]);
  }

  lemma {:induction false} KeepClean(xs: seq<string>)
    requires forall k | 0 <= k < |xs| :: |xs[k]| > 0 && Strip(xs[k]) == xs[k] && '*' !in xs[k]
    ensures KeepItems(xs) == xs
  {
    if xs != [] {
      ReplaceAbsent(xs[0], '*');
      KeepClean(xs[1..]);
      assert xs == [xs[0]] + xs[1..];
    }
  }

  // ---------------------------------------------------------------------------
  // clean_steps

  /** The step separators, in the order they are tried. */
  const StepSeparators: seq<string> := ["|", "/", "，", ","]

  /** Index of the first separator that occurs in `s`, or -1. */
  function FirstSeparator(s: string): (k: int)
    ensures -1 <= k < |StepSeparators|
    ensures k >= 0 ==> Contains(s, StepSeparators[k])
    ensures forall j | 0 <= j < |StepSeparators| && (k < 0 || j < k) :: !Contains(s, StepSeparators[j])
  {
    if Contains(s, "|") then 0
    else if Contains(s, "/") then 1
    else if Contains(s, "，") then 2
    else if Contains(s, ",") then 3
    else -1
  }

  /** The non-blank pieces, stripped. */
  function KeepSteps(pieces: seq<string>): (steps: seq<string>)
    ensures |steps| <= |pieces|
    ensures forall k | 0 <= k < |steps| :: |steps[k]| > 0 && Trimmed(steps[k])
  {
    if pieces == [] then []
    else
      var rest := KeepSteps(pieces[1..]);
      var t := Strip(pieces[0]);
      if t == [] then rest
      else
        StepCons(t, rest);
        [t] + rest
  }

  lemma StepCons(t: string, rest: seq<string>)
    requires |t| > 0 && Trimmed(t)
    requires forall k | 0 <= k < |rest| :: |rest[k]| > 0 && Trimmed(rest[k])
    ensures forall k | 0 <= k < |[t] + rest| :: |([t] + rest)[k]| > 0 && Trimmed(([t] + rest)[k])
  {
    var steps := [t] + rest;
    assert forall k | 1 <= k < |steps| :: steps[k] == rest[k - 1];
  }

  lemma StripAvoid(s: string, c: char)
    requires c !in s
    ensures c !in Strip(s)
  {
    var i := LeadingSpaces(s);
    var t := Strip(s);
    assert t == s[i..i + |t|];
  }

  /** A character no piece holds is in no step. */
  lemma {:induction false} KeepStepsAvoid(pieces: seq<string>, c: char)
    requires forall j | 0 <= j < |pieces| :: c !in pieces[j]
    ensures forall k | 0 <= k < |KeepSteps(pieces)| :: c !in KeepSteps(pieces)[k]
  {
    if pieces != [] {
      var tail := pieces[1..];
      assert forall j | 0 <= j < |tail| :: tail[j] == pieces[j + 1];
      KeepStepsAvoid(tail, c);
      var t := Strip(pieces[0]);
      if t != [] {
        StripAvoid(pieces[0], c);
        assert KeepSteps(pieces) == [t] + KeepSteps(tail);
        AvoidCons(t, KeepSteps(tail), c);
      }
    }
  }

  /** `clean_steps`: split on the first separator present, keep the stripped
      non-blank pieces; with no separator, the stripped string alone. */
  function CleanSteps(s: string): (steps: seq<string>)
    ensures FirstSeparator(s) < 0 ==> steps == [Strip(s)]
    ensures FirstSeparator(s) >= 0 ==>
              forall k | 0 <= k < |steps| ::
                && |steps[k]| > 0 && Trimmed(steps[k])
                && StepSeparators[FirstSeparator(s)][0] !in steps[k]
  {
    var k := FirstSeparator(s);
    if k < 0 then [Strip(s)]
    else
      var sep := StepSeparators[k];
      assert |sep| == 1;
      var pieces := Split(s, sep);
      forall j | 0 <= j < |pieces| ensures sep[0] !in pieces[j] {
        assert sep == [sep[0]];
        ContainsChar(pieces[j], sep[0]);
      }
      KeepStepsAvoid(pieces, sep[0]);
      KeepSteps(pieces)
  }

  /** Steps joined with '|' come back unchanged, provided each is stripped,
      non-blank and free of '|'. */
  lemma CleanStepsOfJoin(steps: seq<string>)
    requires |steps| >= 2
    requires forall k | 0 <= k < |steps| :: |steps[k]| > 0 && Strip(steps[k]) == steps[k] && '|' !in steps[k]
    ensures CleanSteps(Join(steps, "|")) == steps
  {
    var s := Join(steps, "|");
    assert s == steps[0] + "|" + Join(steps[1..], "|");
    assert s[|steps[0]|] == '|';
    BarFirst(s, |steps[0]|);
    SplitJoin(steps, '|');
    KeepStripped(steps);
  }

  /** Text holding a '|' splits on '|'. */
  lemma BarFirst(s: string, i: nat)
    requires i < |s| && s[i] == '|'
    ensures FirstSeparator(s) == 0
  {
    ContainsChar(s, '|');
    assert [s[i]] == "|";
  }

  lemma {:induction false} KeepStripped(xs: seq<string>)
    requires forall k | 0 <= k < |xs| :: |xs[k]| > 0 && Strip(xs[k]) == xs[k]
    ensures KeepSteps(xs) == xs
  {
    if xs != [] {
      KeepStripped(xs[1..]);
      assert xs == [xs[0]] + xs[1..];
    }
  }

  // ---------------------------------------------------------------------------
  // One recipe per name

  /** Row `i` is the first with its key. */
  predicate FirstOfKey(keys: seq<string>, i: nat)
    requires i < |keys|
  {
    forall j | 0 <= j < i :: keys[j] != keys[i]
  }

  /** The rows `load_and_clean_csv` keeps, given each row's key (its stripped
      recipe name): a row is skipped when its key has been seen before. */
  method KeepFirst(keys: seq<string>) returns (kept: seq<nat>)
    ensures forall k | 0 <= k < |kept| :: kept[k] < |keys|
    ensures forall k, l | 0 <= k < l < |kept| :: kept[k] < kept[l]
    ensures forall i | 0 <= i < |keys| :: (i in kept <==> FirstOfKey(keys, i))
    ensures forall k, l | 0 <= k < l < |kept| :: keys[kept[k]] != keys[kept[l]]
  {
    var seen: set<string> := {};
    kept := [];
    var i := 0;
    while i < |keys|
      invariant 0 <= i <= |keys|
      invariant seen == set j | 0 <= j < i :: keys[j]
      invariant forall k | 0 <= k < |kept| :: kept[k] < i
      invariant forall k, l | 0 <= k < l < |kept| :: kept[k] < kept[l]
      invariant forall j | 0 <= j < i :: (j in kept <==> FirstOfKey(keys, j))
    {
      if keys[i] !in seen {
        kept := kept + [i];
      }
      seen := seen + {keys[i]};
      i := i + 1;
    }
    forall k, l | 0 <= k < l < |kept| ensures keys[kept[k]] != keys[kept[l]] {
      assert FirstOfKey(keys, kept[l]);
    }
  }

  /** The key of each row: its stripped recipe name. */
  function NameKeys(names: seq<string>): (keys: seq<string>)
    ensures |keys| == |names|
    ensures forall i | 0 <= i < |names| :: keys[i] == Strip(names[i])
  {
    seq(|names|, i requires 0 <= i < |names| => Strip(names[i]))
  }
}
