/** Python string primitives over `string` (= seq<char>): character classes,
    strip, prefix/suffix/substring tests, replace, split and join. */
module Text {

  /** `str.isspace()` and the regex class `\s` (they agree in Python 3). */
  predicate IsSpace(c: char)
  {
    || c == ' '
    || ('\t' <= c <= '\r')
    || ('\U{1C}' <= c <= '\U{1F}')
    || c == '\U{85}' || c == '\U{A0}' || c == '\U{1680}'
    || ('\U{2000}' <= c <= '\U{200A}')
    || c == '\U{2028}' || c == '\U{2029}' || c == '\U{202F}' || c == '\U{205F}'
    || c == '\U{3000}'
  }

  /** The regex class `\d` and `str.isdigit()`, restricted to ASCII digits. */
  predicate IsDigit(c: char)
  {
    '0' <= c <= '9'
  }

  predicate IsAsciiLetter(c: char)
  {
    ('a' <= c <= 'z') || ('A' <= c <= 'Z')
  }

  predicate AllSpace(s: string)
  {
    forall k | 0 <= k < |s| :: IsSpace(s[k])
  }

  predicate AllDigits(s: string)
  {
    forall k | 0 <= k < |s| :: IsDigit(s[k])
  }

  predicate NoSpace(s: string)
  {
    forall k | 0 <= k < |s| :: !IsSpace(s[k])
  }

  /** Number of leading whitespace characters. */
  function LeadingSpaces(s: string): (n: nat)
    ensures n <= |s|
    ensures AllSpace(s[..n])
    ensures n == |s| || !IsSpace(s[n])
  {
    if |s| == 0 || !IsSpace(s[0]) then 0 else 1 + LeadingSpaces(s[1..])
  }

  /** Number of trailing whitespace characters. */
  function TrailingSpaces(s: string): (n: nat)
    ensures n <= |s|
    ensures AllSpace(s[|s| - n..])
    ensures n == |s| || !IsSpace(s[|s| - n - 1])
  {
    if |s| == 0 || !IsSpace(s[|s| - 1]) then 0
    else
      var p := s[..|s| - 1];
      var m := TrailingSpaces(p);
      assert s[|s| - (m + 1)..] == p[|p| - m..] + [s[|s| - 1]];
      m + 1
  }

  /** Python `s.strip()`: the slice left after dropping whitespace at both ends. */
  function Strip(s: string): (r: string)
    ensures |r| <= |s|
    ensures r == [] || (!IsSpace(r[0]) && !IsSpace(r[|r| - 1]))
    ensures var i := LeadingSpaces(s);
            i + |r| <= |s| && r == s[i..i + |r|] && AllSpace(s[i + |r|..])
    ensures AllSpace(s) <==> r == []
  {
    var i := LeadingSpaces(s);
    var t := s[i..];
    var j := TrailingSpaces(t);
    var r := t[..|t| - j];
    assert AllSpace(s) ==> i == |s|;
    assert r == [] ==> t[|t| - j..] == t;
    assert t != [] ==> t[0] == s[i];
    assert s[..|s|] == s;
    r
  }

  /** No whitespace at either end: what `strip()` leaves. */
  predicate Trimmed(s: string)
  {
    s == [] || (!IsSpace(s[0]) && !IsSpace(s[|s| - 1]))
  }

  lemma {:induction false} StripOfStripped(s: string)
    requires s == [] || (!IsSpace(s[0]) && !IsSpace(s[|s| - 1]))
    ensures Strip(s) == s
  {
    var r := Strip(s);
    assert LeadingSpaces(s) == 0;
    if |r| < |s| {
      assert false;
    }
  }

  lemma StripIdempotent(s: string)
    ensures Strip(Strip(s)) == Strip(s)
  {
    StripOfStripped(Strip(s));
  }

  /** The text before and after a piece of `s`, each free of outer spaces,
      strips to itself. Stated over a parameter so that a literal it is applied
      to is unfolded only while its preconditions are checked. */
  lemma StrippedEnds(s: string, i: nat, j: nat, a: string, b: string)
    requires i <= j <= |s| && s[..i] == a && s[j..] == b
    requires a == [] || (!IsSpace(a[0]) && !IsSpace(a[|a| - 1]))
    requires b == [] || (!IsSpace(b[0]) && !IsSpace(b[|b| - 1]))
    ensures Strip(s[..i]) == a && Strip(s[j..]) == b
  {
    StripOfStripped(a);
    StripOfStripped(b);
  }

  predicate StartsWith(s: string, p: string)
  {
    |p| <= |s| && s[..|p|] == p
  }

  predicate EndsWith(s: string, p: string)
  {
    |p| <= |s| && s[|s| - |p|..] == p
  }

  /** `p` occurs in `s` at index `k`. */
  predicate OccursAt(s: string, p: string, k: nat)
  {
    k + |p| <= |s| && s[k..k + |p|] == p
  }

  /** Index of the first occurrence of `p` in `s` at or after `from`, as `str.find`. */
  function FindFrom(s: string, p: string, from: nat): (r: int)
    requires from <= |s|
    ensures -1 <= r <= |s|
    ensures r >= 0 ==> from <= r && OccursAt(s, p, r)
    ensures r >= 0 ==> forall k | from <= k < r :: !OccursAt(s, p, k)
    ensures r == -1 ==> forall k | from <= k <= |s| :: !OccursAt(s, p, k)
    decreases |s| - from
  {
    if OccursAt(s, p, from) then from
    else if from == |s| then -1
    else FindFrom(s, p, from + 1)
  }

  /** Python `s.find(p)`. */
  function Find(s: string, p: string): (r: int)
    ensures -1 <= r <= |s|
    ensures r >= 0 ==> OccursAt(s, p, r) && forall k | 0 <= k < r :: !OccursAt(s, p, k)
    ensures r == -1 <==> forall k | 0 <= k <= |s| :: !OccursAt(s, p, k)
  {
    FindFrom(s, p, 0)
  }

  /** `i` is the first index at which `p` occurs in `s`. */
  predicate FirstOccurrence(s: string, p: string, i: nat)
  {
    OccursAt(s, p, i) && forall k | 0 <= k < i :: !OccursAt(s, p, k)
  }

  /** The first occurrence is the one `find` reports. */
  lemma FindIsFirst(s: string, p: string, i: nat)
    requires FirstOccurrence(s, p, i)
    ensures Find(s, p) == i
  {
    assert Find(s, p) != -1;
  }

  /** Python `p in s` for strings. */
  predicate Contains(s: string, p: string)
  {
    Find(s, p) >= 0
  }

  lemma ContainsChar(s: string, c: char)
    ensures Contains(s, [c]) <==> c in s
  {
    if c in s {
      var k :| 0 <= k < |s| && s[k] == c;
      assert OccursAt(s, [c], k);
    }
    if Contains(s, [c]) {
      var k := Find(s, [c]);
      assert OccursAt(s, [c], k);
      assert s[k..k + 1][0] == s[k];
    }
  }

  /** Python `s.replace(p, q)`: every occurrence, scanned left to right without overlap. */
  function Replace(s: string, p: string, q: string): string
    requires |p| > 0
    decreases |s|
  {
    if |s| < |p| then s
    else if s[..|p|] == p then q + Replace(s[|p|..], p, q)
    else [s[0]] + Replace(s[1..], p, q)
  }

  /** Replacing one character by another rewrites exactly the matching positions. */
  lemma {:induction false} ReplaceChar(s: string, c: char, d: char)
    ensures |Replace(s, [c], [d])| == |s|
    ensures forall k | 0 <= k < |s| ::
              Replace(s, [c], [d])[k] == (if s[k] == c then d else s[k])
    decreases |s|
  {
    if |s| >= 1 {
      ReplaceChar(s[1..], c, d);
      var r := Replace(s, [c], [d]);
      assert s[..1] == [s[0]];
      assert r == (if s[0] == c then [d] else [s[0]]) + Replace(s[1..], [c], [d]);
    }
  }

  /** Deleting a character keeps every other character, in order. */
  lemma {:induction false} ReplaceDeletesChar(s: string, c: char)
    ensures Replace(s, [c], []) == Filter(s, x => x != c)
    decreases |s|
  {
    if |s| >= 1 {
      ReplaceDeletesChar(s[1..], c);
      assert s[..1] == [s[0]];
    }
  }

  /** Every character kept by `Replace(s, p, [])` was a character of `s`. */
  lemma {:induction false} ReplaceDeleteSubset(s: string, p: string, c: char)
    requires |p| > 0
    requires c in Replace(s, p, [])
    ensures c in s
    decreases |s|
  {
    if |s| >= |p| {
      if s[..|p|] == p {
        ReplaceDeleteSubset(s[|p|..], p, c);
        assert s[|p|..] == s[|p|..];
        var k :| 0 <= k < |s[|p|..]| && s[|p|..][k] == c;
        assert s[|p| + k] == c;
      } else if c != s[0] {
        ReplaceDeleteSubset(s[1..], p, c);
        var k :| 0 <= k < |s[1..]| && s[1..][k] == c;
        assert s[1 + k] == c;
      }
    }
  }

  function Filter(s: string, keep: char -> bool): (r: string)
    ensures |r| <= |s|
    ensures forall k | 0 <= k < |r| :: keep(r[k])
    ensures forall c | c in r :: c in s
  {
    if s == [] then []
    else (if keep(s[0]) then [s[0]] else []) + Filter(s[1..], keep)
  }

  lemma FilterAppend(a: string, b: string, keep: char -> bool)
    ensures Filter(a + b, keep) == Filter(a, keep) + Filter(b, keep)
  {
    if a == [] {
      assert a + b == b;
    } else {
      assert (a + b)[1..] == a[1..] + b;
      FilterAppend(a[1..], b, keep);
    }
  }

  /** `parts[0] + sep + parts[1] + ... + sep + parts[n-1]`: Python `sep.join(parts)`. */
  function Join(parts: seq<string>, sep: string): string
  {
    if |parts| == 0 then []
    else if |parts| == 1 then parts[0]
    else parts[0] + sep + Join(parts[1..], sep)
  }

  /** Concatenation of all parts (`"".join(parts)`). */
  function Concat(parts: seq<string>): string
  {
    if |parts| == 0 then [] else parts[0] + Concat(parts[1..])
  }

  lemma ConcatAppend(a: seq<string>, b: seq<string>)
    ensures Concat(a + b) == Concat(a) + Concat(b)
  {
    if a == [] {
      assert a + b == b;
    } else {
      assert (a + b)[1..] == a[1..] + b;
    }
  }

  /** Python `s.split(sep)` for a non-empty separator string. */
  function Split(s: string, sep: string): (parts: seq<string>)
    requires |sep| > 0
    ensures |parts| >= 1
    ensures forall k | 0 <= k < |parts| :: !Contains(parts[k], sep)
    ensures Join(parts, sep) == s
    ensures forall k | 0 <= k < |parts| - 1 :: !Contains(parts[k] + sep[..|sep| - 1], sep)
    decreases |s|
  {
    var i := Find(s, sep);
    if i < 0 then [s]
    else
      assert OccursAt(s, sep, i);
      var head := s[..i];
      var rest := Split(s[i + |sep|..], sep);
      LeftmostCut(s, sep, i);
      assert !Contains(head, sep) by {
        forall k | 0 <= k <= |head| ensures !OccursAt(head, sep, k) {
          if OccursAt(head, sep, k) {
            assert s[k..k + |sep|] == head[k..k + |sep|];
            assert OccursAt(s, sep, k);
          }
        }
      }
      var parts := [head] + rest;
      assert parts[1..] == rest;
      assert s == head + sep + s[i + |sep|..];
      parts
  }

  /** Cutting at the first occurrence: no occurrence starts inside the part
      before the cut, even one that would run into the separator. */
  lemma LeftmostCut(s: string, sep: string, i: nat)
    requires |sep| > 0 && FirstOccurrence(s, sep, i)
    ensures !Contains(s[..i] + sep[..|sep| - 1], sep)
  {
    var x := s[..i] + sep[..|sep| - 1];
    assert x == s[..i + |sep| - 1];
    forall k | 0 <= k <= |x| ensures !OccursAt(x, sep, k) {
      if k + |sep| <= |x| {
        assert k < i;
        assert x[k..k + |sep|] == s[k..k + |sep|];
        assert !OccursAt(s, sep, k);
      }
    }
  }

  /** Length of the run of non-whitespace characters at the start of `s`. */
  function WordLength(s: string): (n: nat)
    ensures n <= |s|
    ensures NoSpace(s[..n])
    ensures n == |s| || IsSpace(s[n])
  {
    if |s| == 0 || IsSpace(s[0]) then 0 else 1 + WordLength(s[1..])
  }

  /** Python `s.split()` with no argument: the maximal runs of non-whitespace characters. */
  function Words(s: string): (w: seq<string>)
    ensures forall k | 0 <= k < |w| :: |w[k]| > 0 && NoSpace(w[k])
    decreases |s|
  {
    var t := s[LeadingSpaces(s)..];
    if t == [] then []
    else
      var n := WordLength(t);
      var rest := Words(t[n..]);
      WordCons(t[..n], rest);
      [t[..n]] + rest
  }

  lemma WordCons(w: string, rest: seq<string>)
    requires |w| > 0 && NoSpace(w)
    requires forall k | 0 <= k < |rest| :: |rest[k]| > 0 && NoSpace(rest[k])
    ensures forall k | 0 <= k < |[w] + rest| :: |([w] + rest)[k]| > 0 && NoSpace(([w] + rest)[k])
  {
    var ws := [w] + rest;
    assert forall k | 1 <= k < |ws| :: ws[k] == rest[k - 1];
  }

  /** The words of `s`, glued together, are `s` with its whitespace removed. */
  lemma {:induction false} WordsConcat(s: string)
    ensures Concat(Words(s)) == Filter(s, c => !IsSpace(c))
    decreases |s|
  {
    var t := s[LeadingSpaces(s)..];
    SpacesFiltered(s);
    if t != [] {
      var n := WordLength(t);
      WordsSkipSpaces(s);
      WordsStep(t);
      WordFiltered(t);
      WordsConcat(t[n..]);
      assert ([t[..n]] + Words(t[n..]))[1..] == Words(t[n..]);
    }
  }

  /** Leading whitespace adds no words. */
  lemma WordsSkipSpaces(s: string)
    ensures Words(s) == Words(s[LeadingSpaces(s)..])
  {
    var t := s[LeadingSpaces(s)..];
    assert LeadingSpaces(t) == 0;
    assert t[0..] == t;
  }

  /** Leading whitespace adds nothing to the non-whitespace filter. */
  lemma SpacesFiltered(s: string)
    ensures Filter(s, c => !IsSpace(c)) == Filter(s[LeadingSpaces(s)..], c => !IsSpace(c))
  {
    var i := LeadingSpaces(s);
    assert s == s[..i] + s[i..];
    FilterAppend(s[..i], s[i..], c => !IsSpace(c));
    FilterOfSpaces(s[..i]);
  }

  /** The first word survives the non-whitespace filter whole. */
  lemma WordFiltered(t: string)
    ensures Filter(t, c => !IsSpace(c)) == t[..WordLength(t)] + Filter(t[WordLength(t)..], c => !IsSpace(c))
  {
    var n := WordLength(t);
    assert t == t[..n] + t[n..];
    FilterAppend(t[..n], t[n..], c => !IsSpace(c));
    FilterOfWord(t[..n]);
  }

  /** Stripping removes whitespace only. */
  lemma StripKeepsWords(s: string)
    ensures Filter(Strip(s), c => !IsSpace(c)) == Filter(s, c => !IsSpace(c))
  {
    StripKeeps(s, c => !IsSpace(c));
  }

  /** Text whose non-whitespace filter is empty is all whitespace. */
  lemma {:induction false} FilterEmptyIffAllSpace(s: string)
    ensures Filter(s, c => !IsSpace(c)) == [] <==> AllSpace(s)
  {
    if s != [] {
      FilterEmptyIffAllSpace(s[1..]);
      assert AllSpace(s) <==> IsSpace(s[0]) && AllSpace(s[1..]);
    }
  }

  /** Rewriting a whitespace character into a space keeps the non-whitespace text. */
  lemma {:induction false} FilterReplaceSpace(s: string, c: char)
    requires IsSpace(c)
    ensures Filter(Replace(s, [c], " "), x => !IsSpace(x)) == Filter(s, x => !IsSpace(x))
    decreases |s|
  {
    var keep := x => !IsSpace(x);
    if |s| >= 1 {
      FilterReplaceSpace(s[1..], c);
      assert s[..1] == [s[0]];
      var r := Replace(s[1..], [c], " ");
      if s[0] == c {
        FilterAppend(" ", r, keep);
      } else {
        FilterAppend([s[0]], r, keep);
      }
    }
  }

  /** No whitespace at either end, and every whitespace character inside is a
      single space between two non-whitespace characters. */
  predicate SingleSpaced(s: string)
  {
    forall k | 0 <= k < |s| && IsSpace(s[k]) ::
      s[k] == ' ' && 0 < k < |s| - 1 && !IsSpace(s[k - 1]) && !IsSpace(s[k + 1])
  }

  /** Words joined by single spaces: single-spaced, and the same text once
      whitespace is dropped. */
  lemma JoinWords(ws: seq<string>)
    requires forall i | 0 <= i < |ws| :: |ws[i]| > 0 && NoSpace(ws[i])
    ensures SingleSpaced(Join(ws, " "))
    ensures Filter(Join(ws, " "), c => !IsSpace(c)) == Concat(ws)
  {
    JoinSingleSpaced(ws);
    JoinFilter(ws);
  }

  lemma {:induction false} JoinSingleSpaced(ws: seq<string>)
    requires forall i | 0 <= i < |ws| :: |ws[i]| > 0 && NoSpace(ws[i])
    ensures SingleSpaced(Join(ws, " "))
  {
    if |ws| > 1 {
      JoinSingleSpaced(ws[1..]);
      JoinNonEmpty(ws[1..]);
      SpaceBetween(ws[0], Join(ws[1..], " "));
    }
  }

  /** A word, a space and single-spaced text that starts with a word character
      are single-spaced. */
  lemma SpaceBetween(w: string, rest: string)
    requires |w| > 0 && NoSpace(w)
    requires |rest| > 0 && !IsSpace(rest[0]) && SingleSpaced(rest)
    ensures SingleSpaced(w + " " + rest)
  {
    var j := w + " " + rest;
    forall k | 0 <= k < |j| && IsSpace(j[k])
      ensures j[k] == ' ' && 0 < k < |j| - 1 && !IsSpace(j[k - 1]) && !IsSpace(j[k + 1])
    {
      if k > |w| {
        assert j[k] == rest[k - |w| - 1];
        if k - |w| - 1 > 0 { assert j[k - 1] == rest[k - |w| - 2]; }
        assert j[k + 1] == rest[k - |w|];
      } else {
        assert k == |w|;
        assert j[k + 1] == rest[0];
      }
    }
  }

  lemma {:induction false} JoinFilter(ws: seq<string>)
    requires forall i | 0 <= i < |ws| :: NoSpace(ws[i])
    ensures Filter(Join(ws, " "), c => !IsSpace(c)) == Concat(ws)
  {
    var keep := c => !IsSpace(c);
    if |ws| == 1 {
      FilterOfWord(ws[0]);
      assert Concat(ws) == ws[0] + Concat([]);
    } else if |ws| > 1 {
      var rest := Join(ws[1..], " ");
      JoinFilter(ws[1..]);
      FilterOfWord(ws[0]);
      assert Join(ws, " ") == (ws[0] + " ") + rest;
      FilterAppend(ws[0] + " ", rest, keep);
      FilterAppend(ws[0], " ", keep);
    }
  }

  /** Non-empty, whitespace-free words join into text that starts and ends with
      a word character. */
  lemma {:induction false} JoinNonEmpty(ws: seq<string>)
    requires |ws| > 0 && forall i | 0 <= i < |ws| :: |ws[i]| > 0 && NoSpace(ws[i])
    ensures |Join(ws, " ")| > 0 && !IsSpace(Join(ws, " ")[0])
    ensures !IsSpace(Join(ws, " ")[|Join(ws, " ")| - 1])
  {
    if |ws| > 1 {
      JoinNonEmpty(ws[1..]);
      var rest := Join(ws[1..], " ");
      var j := ws[0] + " " + rest;
      assert j[0] == ws[0][0];
      assert j[|j| - 1] == rest[|rest| - 1];
    }
  }

  lemma {:induction false} WordLengthOfWord(w: string, x: string)
    requires NoSpace(w) && (x == [] || IsSpace(x[0]))
    ensures WordLength(w + x) == |w|
    decreases |w|
  {
    if w != [] {
      assert (w + x)[1..] == w[1..] + x;
      WordLengthOfWord(w[1..], x);
    } else {
      assert w + x == x;
    }
  }

  lemma WordsOfWord(w: string)
    requires |w| > 0 && NoSpace(w)
    ensures Words(w) == [w]
  {
    WordLengthOfWord(w, []);
    assert w + [] == w;
    assert w[|w|..] == [];
  }

  lemma WordsAfterSpace(c: char, s: string)
    requires IsSpace(c) && (s == [] || !IsSpace(s[0]))
    ensures Words([c] + s) == Words(s)
  {
    assert ([c] + s)[1..] == s;
    assert LeadingSpaces([c] + s) == 1;
    assert ([c] + s)[1..] == s[LeadingSpaces(s)..];
  }

  /** A word, a space and text that starts with a word: the first word comes
      off. */
  lemma WordThenSpace(w: string, rest: string)
    requires |w| > 0 && NoSpace(w) && (rest == [] || !IsSpace(rest[0]))
    ensures Words(w + " " + rest) == [w] + Words(rest)
  {
    var tail := [' '] + rest;
    var s := w + tail;
    assert w + " " + rest == s;
    WordLengthOfWord(w, tail);
    WordsStep(s);
    assert s[..|w|] == w && s[|w|..] == tail;
    WordsAfterSpace(' ', rest);
    assert Words(s) == [w] + Words(tail);
  }

  /** Text that starts with a word: its first word comes off. */
  lemma WordsStep(s: string)
    requires s != [] && !IsSpace(s[0])
    ensures Words(s) == [s[..WordLength(s)]] + Words(s[WordLength(s)..])
  {
    assert LeadingSpaces(s) == 0;
    assert s[0..] == s;
  }

  /** A whitespace character in front adds no word. */
  lemma WordsDropSpace(c: char, s: string)
    requires IsSpace(c)
    ensures Words([c] + s) == Words(s)
  {
    var cs := [c] + s;
    assert cs[1..] == s;
    assert LeadingSpaces(cs) == 1 + LeadingSpaces(s);
    assert cs[LeadingSpaces(cs)..] == s[LeadingSpaces(s)..];
  }

  /** `split()` cuts at every whitespace character: the words on either side of
      one are the words of the two sides. */
  lemma {:induction false} WordsSpaceSplit(x: string, c: char, y: string)
    requires IsSpace(c)
    ensures Words(x + [c] + y) == Words(x) + Words(y)
    decreases |x|
  {
    if x == [] {
      assert x + [c] + y == [c] + y;
      WordsDropSpace(c, y);
    } else if IsSpace(x[0]) {
      WordsSpaceSplit(x[1..], c, y);
      LeadSpaceWords(x, c, y);
    } else {
      WordsSpaceSplit(x[WordLength(x)..], c, y);
      LeadWordSplit(x, c, y);
    }
  }

  /** The inductive step of WordsSpaceSplit when `x` starts with a word. */
  lemma LeadWordSplit(x: string, c: char, y: string)
    requires IsSpace(c) && x != [] && !IsSpace(x[0])
    requires Words(x[WordLength(x)..] + [c] + y) == Words(x[WordLength(x)..]) + Words(y)
    ensures Words(x + [c] + y) == Words(x) + Words(y)
  {
    var n := WordLength(x);
    LeadWordWords(x, c, y);
    ConsThenAppend(Words(x + [c] + y), Words(x[n..] + [c] + y), Words(x[n..]), Words(y), Words(x), x[..n]);
  }

  /** `[w] + (c + d)` regrouped as `([w] + c) + d`, for named lists. */
  lemma ConsThenAppend<T>(a: seq<T>, b: seq<T>, c: seq<T>, d: seq<T>, e: seq<T>, w: T)
    requires a == [w] + b && b == c + d && e == [w] + c
    ensures a == e + d
  {
  }

  /** Leading whitespace of `x` drops out of the words of `x + [c] + y`. */
  lemma LeadSpaceWords(x: string, c: char, y: string)
    requires x != [] && IsSpace(x[0])
    ensures Words(x + [c] + y) == Words(x[1..] + [c] + y)
    ensures Words(x) == Words(x[1..])
  {
    var x' := x[1..];
    var s, s' := x + [c] + y, x' + [c] + y;
    assert s == [x[0]] + s';
    WordsDropSpace(x[0], s');
    assert x == [x[0]] + x';
    WordsDropSpace(x[0], x');
  }

  /** The first word of `x` is the first word of `x + [c] + y` when `c` is
      whitespace. */
  lemma LeadWordWords(x: string, c: char, y: string)
    requires IsSpace(c) && x != [] && !IsSpace(x[0])
    ensures var n := WordLength(x);
      && Words(x + [c] + y) == [x[..n]] + Words(x[n..] + [c] + y)
      && Words(x) == [x[..n]] + Words(x[n..])
  {
    var n := WordLength(x);
    var w, x' := x[..n], x[n..];
    var s, s' := x + [c] + y, x' + [c] + y;
    assert x == w + x';
    assert s == w + s';
    WordsWordThen(w, s');
    WordsWordThen(w, x');
  }

  /** Texts that differ only in which whitespace character stands where have
      the same words. */
  lemma {:induction false} WordsAlike(s: string, t: string)
    requires |s| == |t|
    requires forall k | 0 <= k < |s| :: s[k] == t[k] || (IsSpace(s[k]) && IsSpace(t[k]))
    ensures Words(s) == Words(t)
    decreases |s|
  {
    if s != t {
      var k :| 0 <= k < |s| && s[k] != t[k];
      assert s == s[..k] + [s[k]] + s[k + 1..];
      assert t == t[..k] + [t[k]] + t[k + 1..];
      WordsAlike(s[..k], t[..k]);
      WordsAlike(s[k + 1..], t[k + 1..]);
      WordsSpaceSplit(s[..k], s[k], s[k + 1..]);
      WordsSpaceSplit(t[..k], t[k], t[k + 1..]);
    }
  }

  /** Rewriting one whitespace character into a space keeps the words. */
  lemma WordsReplaceSpace(s: string, c: char)
    requires IsSpace(c)
    ensures Words(Replace(s, [c], " ")) == Words(s)
  {
    ReplaceChar(s, c, ' ');
    WordsAlike(Replace(s, [c], " "), s);
  }

  /** Whitespace around the text adds no word. */
  lemma {:induction false} WordsIgnoresSpaces(a: string, s: string, b: string)
    requires AllSpace(a) && AllSpace(b)
    ensures Words(a + s + b) == Words(s)
    decreases |a| + |b|
  {
    if a != [] {
      var rest := a[1..] + s + b;
      assert a + s + b == [a[0]] + rest;
      WordsDropSpace(a[0], rest);
      WordsIgnoresSpaces(a[1..], s, b);
    } else if b != [] {
      var front := s + b[..|b| - 1];
      assert a + s + b == front + [b[|b| - 1]] + [];
      WordsSpaceSplit(front, b[|b| - 1], []);
      assert front + [] == front;
      assert front == a + s + b[..|b| - 1];
      WordsIgnoresSpaces(a, s, b[..|b| - 1]);
    } else {
      assert a + s + b == s;
    }
  }

  /** `strip()` keeps the words. */
  lemma WordsOfStrip(s: string)
    ensures Words(Strip(s)) == Words(s)
  {
    var a, b := StripParts(s);
    WordsIgnoresSpaces(a, Strip(s), b);
  }

  /** A word followed by nothing or by whitespace: the word comes off whole. */
  lemma WordsWordThen(w: string, z: string)
    requires |w| > 0 && NoSpace(w) && (z == [] || IsSpace(z[0]))
    ensures Words(w + z) == [w] + Words(z)
  {
    var s := w + z;
    WordLengthOfWord(w, z);
    WordsStep(s);
    assert s[..|w|] == w && s[|w|..] == z;
  }

  /** Splitting words joined by single spaces gives the words back. */
  lemma {:induction false} WordsOfJoin(ws: seq<string>)
    requires forall i | 0 <= i < |ws| :: |ws[i]| > 0 && NoSpace(ws[i])
    ensures Words(Join(ws, " ")) == ws
    decreases |ws|
  {
    if |ws| == 1 {
      WordsOfWord(ws[0]);
    } else if |ws| > 1 {
      var tail := ws[1..];
      assert forall i | 0 <= i < |tail| :: tail[i] == ws[i + 1];
      var rest := Join(tail, " ");
      JoinNonEmpty(tail);
      WordThenSpace(ws[0], rest);
      WordsOfJoin(tail);
      assert [ws[0]] + tail == ws;
    }
  }

  /** A character of a part is a character of the concatenation. */
  lemma {:induction false} CharInConcat(parts: seq<string>, i: nat, k: nat)
    requires i < |parts| && k < |parts[i]|
    ensures parts[i][k] in Concat(parts)
    decreases i
  {
    if i == 0 {
      assert Concat(parts) == parts[0] + Concat(parts[1..]);
      assert Concat(parts)[k] == parts[0][k];
    } else {
      CharInConcat(parts[1..], i - 1, k);
      assert parts[1..][i - 1] == parts[i];
      var c := parts[i][k];
      var j :| 0 <= j < |Concat(parts[1..])| && Concat(parts[1..])[j] == c;
      assert Concat(parts)[|parts[0]| + j] == c;
    }
  }

  /** Every character of every word is a character of the text. */
  lemma WordsWithin(s: string)
    ensures forall i, k | 0 <= i < |Words(s)| && 0 <= k < |Words(s)[i]| :: Words(s)[i][k] in s
  {
    WordsConcat(s);
    forall i, k | 0 <= i < |Words(s)| && 0 <= k < |Words(s)[i]| ensures Words(s)[i][k] in s {
      CharInConcat(Words(s), i, k);
    }
  }

  /** Stripping removes only characters that `keep` rejects. */
  lemma StripKeeps(s: string, keep: char -> bool)
    requires forall c | IsSpace(c) :: !keep(c)
    ensures Filter(Strip(s), keep) == Filter(s, keep)
  {
    var a, b := StripParts(s);
    FilterBetweenSpaces(a, Strip(s), b, keep);
  }

  /** The whitespace that stripping removes from either end. */
  lemma StripParts(s: string) returns (a: string, b: string)
    ensures AllSpace(a) && AllSpace(b) && s == a + Strip(s) + b
  {
    var i := LeadingSpaces(s);
    var j := i + |Strip(s)|;
    a, b := s[..i], s[j..];
    SliceThree(s, i, j);
  }

  lemma SliceThree(s: string, i: nat, j: nat)
    requires i <= j <= |s|
    ensures s == s[..i] + s[i..j] + s[j..]
  {
    assert s[..j] == s[..i] + s[i..j];
    assert s == s[..j] + s[j..];
  }

  /** Whitespace on either side adds nothing a whitespace-rejecting filter keeps. */
  lemma FilterBetweenSpaces(a: string, r: string, b: string, keep: char -> bool)
    requires AllSpace(a) && AllSpace(b) && forall c | IsSpace(c) :: !keep(c)
    ensures Filter(a + r + b, keep) == Filter(r, keep)
  {
    FilterRejects(a, keep);
    FilterRejects(b, keep);
    FilterAppend(a, r, keep);
    FilterAppend(a + r, b, keep);
  }

  lemma {:induction false} FilterRejects(s: string, keep: char -> bool)
    requires AllSpace(s) && forall c | IsSpace(c) :: !keep(c)
    ensures Filter(s, keep) == []
  {
    if s != [] {
      FilterRejects(s[1..], keep);
    }
  }

  lemma {:induction false} FilterOfSpaces(s: string)
    requires AllSpace(s)
    ensures Filter(s, c => !IsSpace(c)) == []
  {
    if s != [] {
      FilterOfSpaces(s[1..]);
    }
  }

  lemma {:induction false} FilterOfWord(s: string)
    requires NoSpace(s)
    ensures Filter(s, c => !IsSpace(c)) == s
  {
    if s != [] {
      FilterOfWord(s[1..]);
    }
  }

  /** Each character rewritten to a string: a character-wise substitution. */
  function MapChars(s: string, f: char -> string): string
  {
    if s == [] then [] else f(s[0]) + MapChars(s[1..], f)
  }

  lemma {:induction false} MapCharsAppend(a: string, b: string, f: char -> string)
    ensures MapChars(a + b, f) == MapChars(a, f) + MapChars(b, f)
    decreases |a|
  {
    if a != [] {
      assert (a + b)[1..] == a[1..] + b;
      MapCharsAppend(a[1..], b, f);
    } else {
      assert a + b == b;
    }
  }

  /** Two substitutions that agree on the characters of `s` rewrite it alike. */
  lemma {:induction false} MapCharsCongruent(s: string, f: char -> string, g: char -> string)
    requires forall c | c in s :: f(c) == g(c)
    ensures MapChars(s, f) == MapChars(s, g)
    decreases |s|
  {
    if s != [] {
      assert forall c | c in s[1..] :: c in s;
      MapCharsCongruent(s[1..], f, g);
    }
  }

  /** A substitution that fixes every character of `s` leaves it unchanged. */
  lemma {:induction false} MapCharsIdentity(s: string, f: char -> string)
    requires forall c | c in s :: f(c) == [c]
    ensures MapChars(s, f) == s
    decreases |s|
  {
    if s != [] {
      assert forall c | c in s[1..] :: c in s;
      MapCharsIdentity(s[1..], f);
      assert s == [s[0]] + s[1..];
    }
  }

  /** Substituting twice is substituting once by the composed rewrite. */
  lemma {:induction false} MapCharsCompose(s: string, f: char -> string, g: char -> string)
    ensures MapChars(MapChars(s, f), g) == MapChars(s, c => MapChars(f(c), g))
    decreases |s|
  {
    if s != [] {
      MapCharsAppend(f(s[0]), MapChars(s[1..], f), g);
      MapCharsCompose(s[1..], f, g);
    }
  }

  /** Replacing a single character is the substitution that rewrites only that character. */
  lemma {:induction false} ReplaceAsMap(s: string, c: char, t: string)
    ensures Replace(s, [c], t) == MapChars(s, x => if x == c then t else [x])
    decreases |s|
  {
    if |s| >= 1 {
      assert s[..1] == [s[0]];
      ReplaceAsMap(s[1..], c, t);
    }
  }

  /** `x` is a contiguous piece of `y`. */
  predicate Within(x: string, y: string)
  {
    exists i, j | 0 <= i <= j <= |y| :: x == y[i..j]
  }

  lemma WithinSlice(y: string, i: nat, j: nat)
    requires i <= j <= |y|
    ensures Within(y[i..j], y)
  {
  }

  lemma WithinStrip(y: string)
    ensures Within(Strip(y), y)
  {
    var i := LeadingSpaces(y);
    WithinSlice(y, i, i + |Strip(y)|);
  }

  lemma WithinTrans(x: string, y: string, z: string)
    requires Within(x, y) && Within(y, z)
    ensures Within(x, z)
  {
    var i, j :| 0 <= i <= j <= |y| && x == y[i..j];
    var a, b :| 0 <= a <= b <= |z| && y == z[a..b];
    SliceOfSlice(z, a, b, i, j);
    WithinSlice(z, a + i, a + j);
  }

  lemma SliceOfSlice(z: string, a: nat, b: nat, i: nat, j: nat)
    requires a <= b <= |z| && i <= j <= b - a
    ensures z[a..b][i..j] == z[a + i..a + j]
  {
    var x, y := z[a..b][i..j], z[a + i..a + j];
    assert |x| == |y|;
    forall k | 0 <= k < |x| ensures x[k] == y[k] {
      assert x[k] == z[a..b][i + k];
    }
  }
}
