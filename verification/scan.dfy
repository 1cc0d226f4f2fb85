/** Explicit encodings of the regular-expression pieces the parsers use, with
    Python's backtracking order spelled out. A pattern `^(.+?)X` becomes `Lazy`: the
    least split index whose suffix matches `X`. A number group such as
    `\d+(?:/\d+)?(?:\.\d+)?` becomes the list of its possible end positions, in the
    order the engine tries them (`NumberEnds`); the first end whose tail matches wins
    (`FirstOf`). */
module Scan {
  import opened Wrappers
  import opened Text

  /** End of the maximal run of `cls` characters starting at `i`. */
  function RunEnd(s: string, i: nat, cls: char -> bool): (j: nat)
    requires i <= |s|
    ensures i <= j <= |s|
    ensures forall k | i <= k < j :: cls(s[k])
    ensures j == |s| || !cls(s[j])
    decreases |s| - i
  {
    if i < |s| && cls(s[i]) then RunEnd(s, i + 1, cls) else i
  }

  /** `^(.+?)X` from split index `i` on: the least `j >= i` at which `attempt(j)`
      succeeds, provided `s[i-1..j]` (the tail of group 1) holds no newline, which
      `.` does not match. Group 1 and `X` are both non-empty, so `j < |s|`. */
  function Lazy<T>(s: string, attempt: nat -> Option<T>, i: nat): (r: Option<(nat, T)>)
    requires 1 <= i
    ensures r.Some? ==> i <= r.value.0 < |s| && attempt(r.value.0) == Some(r.value.1)
    ensures r.Some? ==> '\n' !in s[i - 1..r.value.0]
    ensures r.Some? ==> forall j | i <= j < r.value.0 :: attempt(j).None?
    ensures r.None? ==> forall j | i <= j < |s| && '\n' !in s[i - 1..j] :: attempt(j).None?
    decreases |s| - i
  {
    if i >= |s| || s[i - 1] == '\n' then None
    else
      match attempt(i)
      case Some(t) => Some((i, t))
      case None =>
        var r := Lazy(s, attempt, i + 1);
        assert forall j | i + 1 <= j <= |s| :: s[i - 1..j] == [s[i - 1]] + s[i..j];
        r
  }

  /** `re.match(r"^(.+?)X", s)`: the shortest non-empty, newline-free group 1
      after which `X` matches. */
  function LazySplit<T>(s: string, attempt: nat -> Option<T>): (r: Option<(nat, T)>)
    ensures r.Some? ==> 1 <= r.value.0 < |s| && '\n' !in s[..r.value.0]
    ensures r.Some? ==> attempt(r.value.0) == Some(r.value.1)
    ensures r.Some? ==> forall j | 1 <= j < r.value.0 :: attempt(j).None?
    ensures r.None? <==> forall j | 1 <= j < |s| && '\n' !in s[..j] :: attempt(j).None?
  {
    var r := Lazy(s, attempt, 1);
    assert forall j | 1 <= j <= |s| :: s[0..j] == s[..j];
    r
  }

  /** The lazy split lands on `i` when `attempt` first succeeds there. */
  lemma LazySplitAt<T>(s: string, attempt: nat -> Option<T>, i: nat)
    requires 1 <= i < |s| && '\n' !in s[..i] && attempt(i).Some?
    requires forall j | 1 <= j < i :: attempt(j).None?
    ensures LazySplit(s, attempt) == Some((i, attempt(i).value))
  {
    var r := LazySplit(s, attempt);
    assert r.Some?;
  }

  /** Candidate `j` is the first one in `ends` at which `attempt` succeeds. */
  predicate FirstHit<T>(ends: seq<nat>, attempt: nat -> Option<T>, j: nat)
  {
    j < |ends| && attempt(ends[j]).Some? && forall i | 0 <= i < j :: attempt(ends[i]).None?
  }

  /** The first candidate in `ends` at which `attempt` succeeds. */
  function FirstOf<T>(ends: seq<nat>, attempt: nat -> Option<T>): (r: Option<(nat, T)>)
    ensures r.Some? ==> r.value.0 in ends && attempt(r.value.0) == Some(r.value.1)
    ensures r.None? <==> forall k | k in ends :: attempt(k).None?
    ensures |ends| > 0 && attempt(ends[0]).Some? ==> r == Some((ends[0], attempt(ends[0]).value))
  {
    if ends == [] then None
    else
      match attempt(ends[0])
      case Some(t) => Some((ends[0], t))
      case None =>
        assert forall k | k in ends :: k == ends[0] || k in ends[1..];
        FirstOf(ends[1..], attempt)
  }

  /** `FirstOf` stops at the first candidate that succeeds, and only there. */
  lemma {:induction false} FirstOfAt<T>(ends: seq<nat>, attempt: nat -> Option<T>, j: nat)
    requires FirstHit(ends, attempt, j)
    ensures FirstOf(ends, attempt) == Some((ends[j], attempt(ends[j]).value))
    decreases j
  {
    if j > 0 {
      assert attempt(ends[0]).None?;
      assert FirstHit(ends[1..], attempt, j - 1);
      FirstOfAt(ends[1..], attempt, j - 1);
    }
  }

  /** What `FirstOf` picks is the first candidate that succeeds: every earlier
      candidate fails. */
  lemma {:induction false} FirstOfHit<T>(ends: seq<nat>, attempt: nat -> Option<T>)
    requires FirstOf(ends, attempt).Some?
    ensures exists j | 0 <= j < |ends| :: FirstHit(ends, attempt, j) && ends[j] == FirstOf(ends, attempt).value.0
    decreases |ends|
  {
    if attempt(ends[0]).Some? {
      assert FirstHit(ends, attempt, 0);
    } else {
      FirstOfHit(ends[1..], attempt);
      var j :| 0 <= j < |ends[1..]| && FirstHit(ends[1..], attempt, j) && ends[1..][j] == FirstOf(ends[1..], attempt).value.0;
      forall i | 0 <= i < j + 1 ensures attempt(ends[i]).None? {
        if i > 0 {
          assert ends[i] == ends[1..][i - 1];
        }
      }
      assert FirstHit(ends, attempt, j + 1);
    }
  }

  /** `[hi, hi - 1, ..., lo]`: a greedy quantifier giving back one character at a time. */
  function DownFrom(hi: nat, lo: nat): (r: seq<nat>)
    ensures forall k | k in r :: lo <= k <= hi
    ensures forall k | lo <= k <= hi :: k in r
    ensures |r| == if hi >= lo then hi - lo + 1 else 0
    ensures forall a | 0 <= a < |r| :: r[a] == hi - a
    decreases hi
  {
    if hi < lo then []
    else if hi == 0 then [0]
    else [hi] + DownFrom(hi - 1, lo)
  }

  /** The three number groups of the cascade. */
  datatype NumberShape =
    | Point       // \d+(?:\.\d+)?
    | SlashPoint  // \d+(?:/\d+)?(?:\.\d+)?
    | Slash       // \d+/\d+

  /** Ends of an optional `\.\d+` right after position `a`, longest first. */
  function DecimalEnds(s: string, a: nat): (r: seq<nat>)
    requires a <= |s|
    ensures forall k | k in r :: a + 2 <= k <= |s|
  {
    if a < |s| && s[a] == '.' then DownFrom(RunEnd(s, a + 1, IsDigit), a + 2) else []
  }

  /** Ends of `/\d+` (each optionally followed by `\.\d+` when `dec`) right after `a`. */
  function SlashEnds(s: string, a: nat, dec: bool): (r: seq<nat>)
    requires a <= |s|
    ensures forall k | k in r :: a + 2 <= k <= |s|
  {
    if a < |s| && s[a] == '/' then SlashEndsFrom(s, RunEnd(s, a + 1, IsDigit), a + 2, dec) else []
  }

  /** `f(b) + f(b - 1) + ... + f(lo)`: the ends tried for each length of a greedy
      `\d+` run, longest first. */
  function LongestFirst(f: nat -> seq<nat>, b: nat, lo: nat): seq<nat>
    decreases b
  {
    if b < lo || b == 0 then [] else f(b) + LongestFirst(f, b - 1, lo)
  }

  /** A listed end comes from some run length in range. */
  lemma {:induction false} LongestFirstSource(f: nat -> seq<nat>, b: nat, lo: nat, k: nat) returns (a: nat)
    requires lo >= 1 && k in LongestFirst(f, b, lo)
    ensures lo <= a <= b && k in f(a)
    decreases b
  {
    if k in f(b) {
      a := b;
    } else {
      a := LongestFirstSource(f, b - 1, lo, k);
    }
  }

  /** Every run length in range contributes its ends. */
  lemma {:induction false} LongestFirstHas(f: nat -> seq<nat>, b: nat, lo: nat, a: nat, k: nat)
    requires 1 <= lo <= a <= b && k in f(a)
    ensures k in LongestFirst(f, b, lo)
    decreases b
  {
    if a < b {
      LongestFirstHas(f, b - 1, lo, a, k);
    }
  }

  lemma LongestFirstWithin(f: nat -> seq<nat>, b: nat, lo: nat, hi: nat)
    requires lo >= 1
    requires forall a: nat, k | lo <= a <= b && k in f(a) :: lo <= k <= hi
    ensures forall k | k in LongestFirst(f, b, lo) :: lo <= k <= hi
  {
    forall k | k in LongestFirst(f, b, lo) ensures lo <= k <= hi {
      var a := LongestFirstSource(f, b, lo, k);
    }
  }

  /** The ends after a denominator ending at `c`: the optional `\.\d+` when
      `dec`, then `c` itself. */
  function SlashStops(s: string, dec: bool): nat -> seq<nat>
  {
    (c: nat) => if c <= |s| then (if dec then DecimalEnds(s, c) else []) + [c] else []
  }

  function SlashEndsFrom(s: string, b: nat, lo: nat, dec: bool): (r: seq<nat>)
    requires b <= |s| && lo >= 1
    ensures forall k | k in r :: lo <= k <= |s|
  {
    LongestFirstWithin(SlashStops(s, dec), b, lo, |s|);
    LongestFirst(SlashStops(s, dec), b, lo)
  }

  /** Ends tried for one length of the leading `\d+` run ending at `a`. */
  function EndsAt(s: string, a: nat, shape: NumberShape): (r: seq<nat>)
    requires a <= |s|
    ensures forall k | k in r :: a <= k <= |s|
  {
    var r := match shape
      case Point => DecimalEnds(s, a) + [a]
      case SlashPoint => SlashEnds(s, a, true) + DecimalEnds(s, a) + [a]
      case Slash => SlashEnds(s, a, false);
    r
  }

  function EndsOf(s: string, shape: NumberShape): nat -> seq<nat>
  {
    (a: nat) => if a <= |s| then EndsAt(s, a, shape) else []
  }

  function EndsFrom(s: string, a: nat, lo: nat, shape: NumberShape): (r: seq<nat>)
    requires a <= |s| && lo >= 1
    ensures forall k | k in r :: lo <= k <= |s|
  {
    LongestFirstWithin(EndsOf(s, shape), a, lo, |s|);
    LongestFirst(EndsOf(s, shape), a, lo)
  }

  /** Every end position at which a number group of the given shape starting at
      `i` can stop, in the order the engine tries them. */
  function NumberEnds(s: string, i: nat, shape: NumberShape): (r: seq<nat>)
    requires i <= |s|
    ensures forall k | k in r :: i < k <= |s|
    ensures i == |s| || !IsDigit(s[i]) ==> r == []
  {
    EndsFrom(s, RunEnd(s, i, IsDigit), i + 1, shape)
  }

  /** `s[a..b]` is a non-empty run of digits (`\d+`). */
  predicate DigitsSpan(s: string, a: nat, b: nat)
  {
    a < b <= |s| && forall j | a <= j < b :: IsDigit(s[j])
  }

  /** `\.\d+` spans `s[a..k]`. */
  predicate PointSpan(s: string, a: nat, k: nat)
  {
    a < |s| && s[a] == '.' && DigitsSpan(s, a + 1, k)
  }

  /** `/\d+` spans `s[a..k]`. */
  predicate SlashSpan(s: string, a: nat, k: nat)
  {
    a < |s| && s[a] == '/' && DigitsSpan(s, a + 1, k)
  }

  /** After a denominator ending at `c`, the group ends at `k`: right there, or
      after an optional `\.\d+` when `dec`. */
  predicate SlashStop(s: string, c: nat, k: nat, dec: bool)
  {
    k == c || (dec && PointSpan(s, c, k))
  }

  /** What may follow the leading `\d+` (ending at `a`) up to `k`, per shape. */
  ghost predicate TailSpan(s: string, a: nat, k: nat, shape: NumberShape)
  {
    match shape
    case Point => k == a || PointSpan(s, a, k)
    case Slash => SlashSpan(s, a, k)
    case SlashPoint => k == a || PointSpan(s, a, k) || exists c: nat | SlashSpan(s, a, c) :: SlashStop(s, c, k, true)
  }

  /** The number group of the given shape matches exactly `s[i..k]`. */
  ghost predicate NumberSpan(s: string, i: nat, k: nat, shape: NumberShape)
  {
    exists a: nat | DigitsSpan(s, i, a) :: TailSpan(s, a, k, shape)
  }

  lemma DecimalEndsMeans(s: string, a: nat, k: nat)
    requires a <= |s|
    ensures k in DecimalEnds(s, a) <==> PointSpan(s, a, k)
  {
    if a < |s| && s[a] == '.' && a + 1 < k <= |s| {
      RunEndCovers(s, a + 1, IsDigit, k);
    }
  }

  lemma SlashEndsMeans(s: string, a: nat, dec: bool, k: nat)
    requires a <= |s|
    ensures k in SlashEnds(s, a, dec) <==> exists c: nat | SlashSpan(s, a, c) :: SlashStop(s, c, k, dec)
  {
    if k in SlashEnds(s, a, dec) {
      SlashEndIsSpan(s, a, dec, k);
    }
    if exists c: nat | SlashSpan(s, a, c) :: SlashStop(s, c, k, dec) {
      var c: nat :| SlashSpan(s, a, c) && SlashStop(s, c, k, dec);
      SlashSpanIsEnd(s, a, dec, c, k);
    }
  }

  lemma SlashEndIsSpan(s: string, a: nat, dec: bool, k: nat)
    requires a <= |s| && k in SlashEnds(s, a, dec)
    ensures exists c: nat | SlashSpan(s, a, c) :: SlashStop(s, c, k, dec)
  {
    var e := RunEnd(s, a + 1, IsDigit);
    var c := LongestFirstSource(SlashStops(s, dec), e, a + 2, k);
    DecimalEndsMeans(s, c, k);
    RunEndCovers(s, a + 1, IsDigit, c);
    assert SlashSpan(s, a, c) && SlashStop(s, c, k, dec);
  }

  lemma SlashSpanIsEnd(s: string, a: nat, dec: bool, c: nat, k: nat)
    requires a <= |s| && SlashSpan(s, a, c) && SlashStop(s, c, k, dec)
    ensures k in SlashEnds(s, a, dec)
  {
    var e := RunEnd(s, a + 1, IsDigit);
    RunEndCovers(s, a + 1, IsDigit, c);
    assert a + 2 <= c <= e;
    var stops := SlashStops(s, dec);
    assert k in stops(c) by {
      if k != c {
        DecimalEndsMeans(s, c, k);
        assert k in DecimalEnds(s, c);
      }
    }
    LongestFirstHas(stops, e, a + 2, c, k);
    assert SlashEnds(s, a, dec) == LongestFirst(stops, e, a + 2);
  }

  lemma EndsAtMeans(s: string, a: nat, shape: NumberShape, k: nat)
    requires a <= |s|
    ensures k in EndsAt(s, a, shape) <==> TailSpan(s, a, k, shape)
  {
    DecimalEndsMeans(s, a, k);
    SlashEndsMeans(s, a, shape.SlashPoint?, k);
    if shape.Slash? {
      if exists c: nat | SlashSpan(s, a, c) :: SlashStop(s, c, k, false) {
        var c: nat :| SlashSpan(s, a, c) && SlashStop(s, c, k, false);
        assert c == k;
      }
      if SlashSpan(s, a, k) {
        assert SlashStop(s, k, k, false);
      }
    }
  }

  /** The ends `NumberEnds` lists are exactly the ends of the number groups of
      that shape starting at `i`. */
  lemma NumberEndsMeans(s: string, i: nat, shape: NumberShape, k: nat)
    requires i <= |s|
    ensures k in NumberEnds(s, i, shape) <==> NumberSpan(s, i, k, shape)
  {
    if k in NumberEnds(s, i, shape) {
      NumberEndIsSpan(s, i, shape, k);
    }
    if NumberSpan(s, i, k, shape) {
      NumberSpanIsEnd(s, i, shape, k);
    }
  }

  lemma NumberEndIsSpan(s: string, i: nat, shape: NumberShape, k: nat)
    requires i <= |s| && k in NumberEnds(s, i, shape)
    ensures NumberSpan(s, i, k, shape)
  {
    var e := RunEnd(s, i, IsDigit);
    var a := LongestFirstSource(EndsOf(s, shape), e, i + 1, k);
    EndsAtMeans(s, a, shape, k);
    RunEndCovers(s, i, IsDigit, a);
    assert DigitsSpan(s, i, a);
  }

  lemma NumberSpanIsEnd(s: string, i: nat, shape: NumberShape, k: nat)
    requires i <= |s| && NumberSpan(s, i, k, shape)
    ensures k in NumberEnds(s, i, shape)
  {
    var e := RunEnd(s, i, IsDigit);
    var a: nat :| DigitsSpan(s, i, a) && TailSpan(s, a, k, shape);
    RunEndCovers(s, i, IsDigit, a);
    EndsAtMeans(s, a, shape, k);
    LongestFirstHas(EndsOf(s, shape), e, i + 1, a, k);
  }

  /** What the search over a number group's ends finds is a number group of
      that shape whose tail succeeds there. */
  lemma FirstEndSound<T>(s: string, i: nat, shape: NumberShape, tail: nat -> Option<T>)
    requires i <= |s|
    ensures var r := FirstOf(NumberEnds(s, i, shape), tail);
      r.Some? ==> NumberSpan(s, i, r.value.0, shape) && tail(r.value.0) == Some(r.value.1)
  {
    var r := FirstOf(NumberEnds(s, i, shape), tail);
    if r.Some? {
      NumberEndsMeans(s, i, shape, r.value.0);
    }
  }

  /** Any number group of that shape whose tail succeeds makes the search succeed. */
  lemma FirstEndComplete<T>(s: string, i: nat, shape: NumberShape, tail: nat -> Option<T>, k: nat)
    requires i <= |s| && NumberSpan(s, i, k, shape) && tail(k).Some?
    ensures FirstOf(NumberEnds(s, i, shape), tail).Some?
  {
    NumberEndsMeans(s, i, shape, k);
  }

  /** `\s*(.+)$` at `k`: the start of group `(.+)`, giving back spaces one at a
      time while the rest is empty or crosses a newline. */
  function RestFrom(s: string, k: nat): (r: Option<nat>)
    requires k <= |s|
    ensures r.Some? ==> k <= r.value < |s| && '\n' !in s[r.value..]
    ensures r.Some? ==> forall j | k <= j < r.value :: IsSpace(s[j])
  {
    RestTry(s, RunEnd(s, k, IsSpace), k)
  }

  function RestTry(s: string, q: nat, k: nat): (r: Option<nat>)
    requires k <= q <= |s|
    requires forall j | k <= j < q :: IsSpace(s[j])
    ensures r.Some? ==> k <= r.value <= q && r.value < |s| && '\n' !in s[r.value..]
    decreases q
  {
    if q < |s| && '\n' !in s[q..] then Some(q)
    else if q == k then None
    else RestTry(s, q - 1, k)
  }

  /** Group `(.+)` of `\s*(.+)$` can start at `j`: only whitespace from `k` to
      `j`, and a non-empty, newline-free rest. */
  predicate RestStart(s: string, k: nat, j: nat)
  {
    k <= j < |s| && (forall t | k <= t < j :: IsSpace(s[t])) && '\n' !in s[j..]
  }

  /** `\s*(.+)$` at `k` succeeds exactly when group `(.+)` can start somewhere;
      `\s*` may swallow a newline on the way. */
  lemma RestFromSucceeds(s: string, k: nat)
    requires k <= |s|
    ensures RestFrom(s, k).Some? <==> exists j: nat | k <= j :: RestStart(s, k, j)
  {
    var r := RestFrom(s, k);
    if r.Some? {
      assert RestStart(s, k, r.value);
    }
    if exists j: nat | k <= j :: RestStart(s, k, j) {
      var j: nat :| k <= j && RestStart(s, k, j);
      RunEndCovers(s, k, IsSpace, j);
      RestTryFinds(s, RunEnd(s, k, IsSpace), k, j);
    }
  }

  /** A run of `cls` characters from `i` to `k` ends no later than `RunEnd`. */
  lemma RunEndCovers(s: string, i: nat, cls: char -> bool, k: nat)
    requires i <= k <= |s|
    ensures k <= RunEnd(s, i, cls) <==> forall j | i <= j < k :: cls(s[j])
  {
    var e := RunEnd(s, i, cls);
    if k > e {
      assert !cls(s[e]);
    }
  }

  lemma {:induction false} RestTryFinds(s: string, q: nat, k: nat, j: nat)
    requires k <= j <= q <= |s|
    requires forall t | k <= t < q :: IsSpace(s[t])
    requires RestStart(s, k, j)
    ensures RestTry(s, q, k).Some?
    decreases q
  {
    if !(q < |s| && '\n' !in s[q..]) {
      assert q != j;
      RestTryFinds(s, q - 1, k, j);
    }
  }

  /** A unit-class character: `[^\d\s\(]`. */
  predicate IsUnitChar(c: char)
  {
    !IsDigit(c) && !IsSpace(c) && c != '('
  }

  /** A `[^\d\s]` character. */
  predicate IsWordPiece(c: char)
  {
    !IsDigit(c) && !IsSpace(c)
  }

  /** `(\([^)]*\))?` at `e`, greedy: the end of the parenthetical when `s[e]` is '('
      and a ')' follows; the group then ends at the first ')'. */
  function Bracket(s: string, e: nat): (r: Option<nat>)
    requires e <= |s|
    ensures r.Some? ==> e + 2 <= r.value <= |s| && s[e] == '(' && s[r.value - 1] == ')'
    ensures r.Some? ==> ')' !in s[e + 1..r.value - 1]
    ensures r.None? ==> e == |s| || s[e] != '(' || ')' !in s[e + 1..]
  {
    if e < |s| && s[e] == '(' then
      var j := RunEnd(s, e + 1, c => c != ')');
      if j < |s| then
        assert forall i | e + 1 <= i < j :: s[e + 1..j][i - e - 1] == s[i];
        Some(j + 1)
      else
        assert forall i | e + 1 <= i < |s| :: s[e + 1..][i - e - 1] == s[i];
        None
    else None
  }

  /** `\s*([^\d\s\(]+)(\([^)]*\))?` at `k`: the unit group `s[m..e]` and the
      optional parenthetical `s[e..b]`, returned as `(m, e, b)` with `b == e` when
      there is none. Giving back spaces or unit characters can never help: a unit
      cannot start with a space, and a shorter unit is followed by a unit
      character, which neither '(' nor the end of the pattern accepts. */
  function UnitAndBracket(s: string, k: nat): (r: Option<(nat, nat, nat)>)
    requires k <= |s|
    ensures r.Some? ==> k <= r.value.0 < r.value.1 <= r.value.2 <= |s|
    ensures r.Some? ==> forall j | k <= j < r.value.0 :: IsSpace(s[j])
    ensures r.Some? ==> forall j | r.value.0 <= j < r.value.1 :: IsUnitChar(s[j])
    ensures r.Some? ==> r.value.1 == |s| || !IsUnitChar(s[r.value.1])
    ensures r.Some? ==> r.value.2 == if Bracket(s, r.value.1).Some? then Bracket(s, r.value.1).value else r.value.1
    ensures r.None? <==> var m := RunEnd(s, k, IsSpace); m == |s| || !IsUnitChar(s[m])
  {
    var m := RunEnd(s, k, IsSpace);
    var e := RunEnd(s, m, IsUnitChar);
    if e == m then None
    else
      match Bracket(s, e)
      case Some(b) => Some((m, e, b))
      case None => Some((m, e, e))
  }

  /** The same tail anchored with `$`: the pattern must end at the end of `s`. */
  function UnitAndBracketToEnd(s: string, k: nat): (r: Option<(nat, nat, nat)>)
    requires k <= |s|
    ensures r.Some? ==> r == UnitAndBracket(s, k) && r.value.2 == |s|
    ensures r.None? ==> UnitAndBracket(s, k).None? || UnitAndBracket(s, k).value.2 < |s|
  {
    var u := UnitAndBracket(s, k);
    if u.Some? && u.value.2 == |s| then u else None
  }

  /** `\s*([^\d\s]+)$` at `k`: the start of the unit group, which runs to the end. */
  function WordToEnd(s: string, k: nat): (r: Option<nat>)
    requires k <= |s|
    ensures r.Some? ==> k <= r.value < |s| && forall j | k <= j < r.value :: IsSpace(s[j])
    ensures r.Some? ==> forall j | r.value <= j < |s| :: IsWordPiece(s[j])
  {
    var m := RunEnd(s, k, IsSpace);
    var e := RunEnd(s, m, IsWordPiece);
    if e > m && e == |s| then Some(m) else None
  }

  /** `\s*([^\d\s\(]+)(\([^)]*\))?$` matches `s[k..]` with the unit group
      `s[m..e]`: spaces before it, and either the end or one parenthetical after. */
  predicate UnitTail(s: string, k: nat, m: nat, e: nat)
  {
    && k <= m < e <= |s|
    && (forall j | k <= j < m :: IsSpace(s[j]))
    && (forall j | m <= j < e :: IsUnitChar(s[j]))
    && (e == |s| || (e + 2 <= |s| && s[e] == '(' && s[|s| - 1] == ')' && ')' !in s[e + 1..|s| - 1]))
  }

  /** The anchored unit-and-bracket tail finds exactly the unit group the
      pattern allows, and there is only one. */
  lemma UnitAndBracketToEndMeans(s: string, k: nat, m: nat, e: nat)
    requires k <= |s|
    ensures UnitAndBracketToEnd(s, k) == Some((m, e, |s|)) <==> UnitTail(s, k, m, e)
  {
    if UnitTail(s, k, m, e) {
      UnitTailFound(s, k, m, e);
    }
  }

  lemma UnitTailFound(s: string, k: nat, m: nat, e: nat)
    requires UnitTail(s, k, m, e)
    ensures UnitAndBracket(s, k) == Some((m, e, |s|))
  {
    assert IsUnitChar(s[m]);
    RunEndCovers(s, k, IsSpace, m);
    RunEndCovers(s, k, IsSpace, m + 1);
    RunEndCovers(s, m, IsUnitChar, e);
    if e < |s| {
      RunEndCovers(s, m, IsUnitChar, e + 1);
    }
    if e < |s| {
      BracketToEnd(s, e);
    }
  }

  /** A parenthetical that closes at the last character ends the text. */
  lemma BracketToEnd(s: string, e: nat)
    requires e + 2 <= |s| && s[e] == '(' && s[|s| - 1] == ')' && ')' !in s[e + 1..|s| - 1]
    ensures Bracket(s, e) == Some(|s|)
  {
    assert s[|s| - 1] == s[e + 1..][|s| - 2 - e];
    var b := Bracket(s, e).value;
    assert forall t | e + 1 <= t < |s| - 1 :: s[t] == s[e + 1..|s| - 1][t - e - 1];
    assert s[b - 1] == ')';
  }

  /** `\s*([^\d\s]+)$` matches `s[k..]` with the word group starting at `m`. */
  predicate WordTail(s: string, k: nat, m: nat)
  {
    && k <= m < |s|
    && (forall j | k <= j < m :: IsSpace(s[j]))
    && (forall j | m <= j < |s| :: IsWordPiece(s[j]))
  }

  lemma WordToEndMeans(s: string, k: nat, m: nat)
    requires k <= |s|
    ensures WordToEnd(s, k) == Some(m) <==> WordTail(s, k, m)
  {
    if WordTail(s, k, m) {
      assert IsWordPiece(s[m]);
      RunEndCovers(s, k, IsSpace, m);
      RunEndCovers(s, k, IsSpace, m + 1);
      RunEndCovers(s, m, IsWordPiece, |s|);
    }
  }
}

