/** Splitting a run of seasoning names glued together ("鹽巴白胡椒粉") into its
    names, longest known seasoning first. The same splitter appears in both the
    latest and the 0718 parser. */
module Compound {
  import opened Wrappers
  import opened Text
  import opened Lexicon


  /** Names that can be split off: none of them is empty. */
  predicate Splittable(names: seq<string>)
  {
    forall n | n in names :: |n| > 0
  }

  lemma SeasoningsNonEmpty()
    ensures Splittable(Seasonings)
  {
    ReferenceInitialsCover();
    assert forall n | n in Seasonings :: n in ReferenceNames;
  }

  /** Repeatedly take the longest name of `names` the text starts with and strip
      what follows; text that starts with no such name ends the list as it stands. */
  function SplitBy(names: seq<string>, s: string): (parts: seq<string>)
    requires Splittable(names)
    ensures parts == [] <==> s == []
    ensures WellSplit(names, parts)
    decreases |s|
  {
    if s == [] then []
    else
      match LongestPrefix(names, s)
      case None =>
        SplitSingle(names, s);
        [s]
      case Some(n) =>
        assert |n| > 0;
        var tail := Strip(s[|n|..]);
        assert |tail| < |s|;
        var rest := SplitBy(names, tail);
        SplitCons(names, n, rest);
        [n] + rest
  }

  /** Every part is non-empty, every part but the last is a name, and the last
      is a name or starts with none. */
  predicate WellSplit(names: seq<string>, parts: seq<string>)
  {
    && (forall i | 0 <= i < |parts| :: |parts[i]| > 0)
    && (forall i | 0 <= i < |parts| - 1 :: parts[i] in names)
    && (|parts| > 0 ==> parts[|parts| - 1] in names || LongestPrefix(names, parts[|parts| - 1]).None?)
  }

  /** Text that starts with no name is a well-formed split on its own. */
  lemma SplitSingle(names: seq<string>, s: string)
    requires s != [] && LongestPrefix(names, s).None?
    ensures WellSplit(names, [s])
  {
  }

  /** A name in front of a well-formed split is a well-formed split. */
  lemma SplitCons(names: seq<string>, n: string, rest: seq<string>)
    requires |n| > 0 && n in names
    requires WellSplit(names, rest)
    ensures WellSplit(names, [n] + rest)
  {
    var parts := [n] + rest;
    assert forall i | 1 <= i < |parts| :: parts[i] == rest[i - 1];
  }

  /** `split_seasoning_compounds`: the splitter over the common seasonings;
      `SplitBy` states what its parts are. */
  function SplitCompounds(s: string): seq<string>
  {
    SeasoningsNonEmpty();
    SplitBy(Seasonings, s)
  }

  lemma SingleConcat(s: string)
    ensures Concat([s]) == s
  {
    assert [s][1..] == [];
  }

  /** One step of the splitter: the longest name, then the split of the
      stripped rest. */
  lemma SplitStep(names: seq<string>, s: string, n: string)
    requires Splittable(names) && s != [] && LongestPrefix(names, s) == Some(n)
    ensures |n| > 0 && StartsWith(s, n) && s == n + s[|n|..]
    ensures SplitBy(names, s) == [n] + SplitBy(names, Strip(s[|n|..]))
  {
  }

  lemma SplitStop(names: seq<string>, s: string)
    requires Splittable(names) && s != [] && LongestPrefix(names, s).None?
    ensures SplitBy(names, s) == [s] && Concat(SplitBy(names, s)) == s
  {
    SingleConcat(s);
  }

  lemma NoSpaceSuffix(s: string, k: nat)
    requires NoSpace(s) && k <= |s|
    ensures NoSpace(s[k..]) && Strip(s[k..]) == s[k..]
  {
    assert NoSpace(s[k..]);
    StripOfStripped(s[k..]);
  }

  /** Gluing the parts back together gives the input up to whitespace. */
  lemma {:induction false} SplitKeepsWords(names: seq<string>, s: string)
    requires Splittable(names)
    ensures Filter(Concat(SplitBy(names, s)), c => !IsSpace(c)) == Filter(s, c => !IsSpace(c))
    decreases |s|
  {
    var keep := c => !IsSpace(c);
    if s != [] {
      match LongestPrefix(names, s)
      case None =>
        SplitStop(names, s);
      case Some(n) =>
        SplitStep(names, s, n);
        var tail := s[|n|..];
        var rest := SplitBy(names, Strip(tail));
        SplitKeepsWords(names, Strip(tail));
        StripKeepsWords(tail);
        assert Concat([n] + rest) == n + Concat(rest);
        FilterAppend(n, Concat(rest), keep);
        FilterAppend(n, tail, keep);
    }
  }

  /** Without whitespace the parts glue back into exactly the input. */
  lemma {:induction false} SplitRejoins(names: seq<string>, s: string)
    requires Splittable(names) && NoSpace(s)
    ensures Concat(SplitBy(names, s)) == s
    decreases |s|
  {
    if s != [] {
      match LongestPrefix(names, s)
      case None =>
        SplitStop(names, s);
      case Some(n) =>
        SplitStep(names, s, n);
        var tail := s[|n|..];
        NoSpaceSuffix(s, |n|);
        SplitRejoins(names, tail);
        var rest := SplitBy(names, tail);
        assert Concat([n] + rest) == n + Concat(rest);
    }
  }

  /** Every part but the last is the longest name that the text from that part
      onwards starts with. */
  predicate Greedy(names: seq<string>, parts: seq<string>)
  {
    |parts| <= 1 || (LongestPrefix(names, Concat(parts)) == Some(parts[0]) && Greedy(names, parts[1..]))
  }

  /** Without whitespace the splitter is greedy: it never takes a shorter name
      when a longer one fits. */
  lemma {:induction false} SplitIsGreedy(names: seq<string>, s: string)
    requires Splittable(names) && NoSpace(s)
    ensures Greedy(names, SplitBy(names, s))
    decreases |s|
  {
    var parts := SplitBy(names, s);
    if s != [] && LongestPrefix(names, s).Some? {
      var n := LongestPrefix(names, s).value;
      SplitStep(names, s, n);
      var tail := s[|n|..];
      NoSpaceSuffix(s, |n|);
      SplitIsGreedy(names, tail);
      SplitRejoins(names, s);
      assert parts[1..] == SplitBy(names, tail);
    }
  }

  /** The three facts for the seasoning list itself. */
  lemma CompoundsRejoin(s: string)
    ensures Filter(Concat(SplitCompounds(s)), c => !IsSpace(c)) == Filter(s, c => !IsSpace(c))
    ensures NoSpace(s) ==> Concat(SplitCompounds(s)) == s
    ensures NoSpace(s) ==> Greedy(Seasonings, SplitCompounds(s))
  {
    SeasoningsNonEmpty();
    SplitKeepsWords(Seasonings, s);
    if NoSpace(s) {
      SplitRejoins(Seasonings, s);
      SplitIsGreedy(Seasonings, s);
    }
  }
}
