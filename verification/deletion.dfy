/** The pure kernels of the recipe deleter (scripts/delete_recipe.py): reading
    the delete list, dropping the listed recipes from a table or a JSON list,
    and choosing the image files a listed id owns. */
module Deletion {
  import opened Text

  // ---------------------------------------------------------------------------
  // load_delete_list

  /** A delete-list line that names an id once stripped: not empty and all
      digits. */
  predicate IsIdLine(line: string)
  {
    IsDigitId(Strip(line))
  }

  /** The per-line decision of `load_delete_list`: the stripped line is kept
      unless it is blank or a `#` comment, and then only when it is all digits. */
  predicate KeepsLine(line: string)
  {
    var s := Strip(line);
    !(s == [] || StartsWith(s, "#")) && AllDigits(s)
  }

  /** A non-empty run of digits; such a text is its own strip. */
  predicate IsDigitId(s: string)
  {
    s != [] && AllDigits(s)
  }

  /** A kept line is a non-empty run of digits. */
  lemma KeptLineIsId(line: string)
    requires KeepsLine(line)
    ensures IsDigitId(Strip(line))
  {
  }

  /** `load_delete_list` over the lines of the file: the stripped lines kept,
      in file order; the others are reported and skipped. */
  function DeleteIds(lines: seq<string>): (ids: seq<string>)
    ensures |ids| <= |lines|
    ensures forall i | 0 <= i < |ids| :: IsDigitId(ids[i])
  {
    if lines == [] then []
    else
      var rest := DeleteIds(lines[1..]);
      if KeepsLine(lines[0]) then
        var id := Strip(lines[0]);
        KeptLineIsId(lines[0]);
        IdsCons(id, rest)
      else rest
  }

  function IdsCons(id: string, rest: seq<string>): (ids: seq<string>)
    requires IsDigitId(id) && forall i | 0 <= i < |rest| :: IsDigitId(rest[i])
    ensures |ids| == |rest| + 1 && forall i | 0 <= i < |ids| :: IsDigitId(ids[i])
  {
    var ids := [id] + rest;
    assert forall i | 1 <= i < |ids| :: ids[i] == rest[i - 1];
    ids
  }

  /** The lines `keep` accepts, each mapped through `f`, in order. */
  function Picked(lines: seq<string>, keep: string -> bool, f: string -> string): seq<string>
  {
    if lines == [] then []
    else (if keep(lines[0]) then [f(lines[0])] else []) + Picked(lines[1..], keep, f)
  }

  /** The stripped id lines, in order: what the delete list yields once the
      comment rule is seen to be subsumed by the digit rule. */
  function IdLines(lines: seq<string>): seq<string>
  {
    Picked(lines, IsIdLine, Strip)
  }

  /** A comment line never reaches the digit test, but it would fail it anyway:
      the list is exactly the stripped all-digit lines, in file order. */
  lemma {:induction false} DeleteIdsAreIdLines(lines: seq<string>)
    ensures DeleteIds(lines) == IdLines(lines)
  {
    if lines != [] {
      DeleteIdsAreIdLines(lines[1..]);
      CommentIsNoId(lines[0]);
    }
  }

  /** The comment test changes nothing: a line starting with `#` is not
      digits. */
  lemma CommentIsNoId(line: string)
    ensures KeepsLine(line) <==> IsIdLine(line)
  {
    var s := Strip(line);
    if s != [] && StartsWith(s, "#") {
      assert s[..1][0] == '#';
    }
  }

  /** No id line is lost: each one's stripped text is read. */
  lemma IdLinesComplete(lines: seq<string>, k: nat)
    requires k < |lines| && IsIdLine(lines[k])
    ensures Strip(lines[k]) in IdLines(lines)
  {
    PickedComplete(lines, IsIdLine, Strip, k);
  }

  /** Nothing else is read: each id is the stripped text of an id line. */
  lemma IdLinesSound(lines: seq<string>, x: string)
    requires x in IdLines(lines)
    ensures exists k | 0 <= k < |lines| :: IsIdLine(lines[k]) && x == Strip(lines[k])
  {
    PickedSound(lines, IsIdLine, Strip, x);
  }

  lemma {:induction false} PickedComplete(lines: seq<string>, keep: string -> bool, f: string -> string, k: nat)
    requires k < |lines| && keep(lines[k])
    ensures f(lines[k]) in Picked(lines, keep, f)
  {
    var head := if keep(lines[0]) then [f(lines[0])] else [];
    assert Picked(lines, keep, f) == head + Picked(lines[1..], keep, f);
    if k > 0 {
      assert lines[1..][k - 1] == lines[k];
      PickedComplete(lines[1..], keep, f, k - 1);
    }
  }

  lemma {:induction false} PickedSound(lines: seq<string>, keep: string -> bool, f: string -> string, x: string)
    requires x in Picked(lines, keep, f)
    ensures exists k | 0 <= k < |lines| :: keep(lines[k]) && x == f(lines[k])
  {
    var head := if keep(lines[0]) then [f(lines[0])] else [];
    assert Picked(lines, keep, f) == head + Picked(lines[1..], keep, f);
    if x !in head {
      PickedSound(lines[1..], keep, f, x);
      var k :| 0 <= k < |lines[1..]| && keep(lines[1..][k]) && x == f(lines[1..][k]);
      assert lines[1..][k] == lines[k + 1];
    }
  }

  // ---------------------------------------------------------------------------
  // delete_from_json and delete_from_csv

  /** A stored recipe: its id and the rest of its fields. */
  datatype Stored = Stored(id: string, fields: seq<string>)

  /** `[recipe for recipe in recipes if recipe["id"] not in delete_ids]`. */
  function Remaining(rs: seq<Stored>, ids: seq<string>): (kept: seq<Stored>)
    ensures |kept| <= |rs|
  {
    if rs == [] then []
    else if rs[0].id !in ids then [rs[0]] + Remaining(rs[1..], ids)
    else Remaining(rs[1..], ids)
  }

  /** The kept recipes are exactly the unlisted ones. */
  lemma {:induction false} RemainingMeans(rs: seq<Stored>, ids: seq<string>)
    ensures forall i | 0 <= i < |Remaining(rs, ids)| ::
              Remaining(rs, ids)[i].id !in ids && Remaining(rs, ids)[i] in rs
    ensures forall r | r in rs && r.id !in ids :: r in Remaining(rs, ids)
  {
    if rs != [] {
      RemainingMeans(rs[1..], ids);
      var rest := Remaining(rs[1..], ids);
      assert forall r | r in rs :: r == rs[0] || r in rs[1..];
      if rs[0].id !in ids {
        var kept := [rs[0]] + rest;
        assert forall i | 1 <= i < |kept| :: kept[i] == rest[i - 1];
      }
    }
  }

  /** Number of recipes whose id is listed. */
  function Listed(rs: seq<Stored>, ids: seq<string>): nat
  {
    if rs == [] then 0 else (if rs[0].id in ids then 1 else 0) + Listed(rs[1..], ids)
  }

  /** Every recipe is kept or listed, never both. */
  lemma {:induction false} RemainingPlusListed(rs: seq<Stored>, ids: seq<string>)
    ensures |Remaining(rs, ids)| + Listed(rs, ids) == |rs|
  {
    if rs != [] {
      RemainingPlusListed(rs[1..], ids);
    }
  }

  /** The outcome of `delete_from_json`: the recipes written back and the count
      returned. */
  datatype JsonOutcome = JsonOutcome(remaining: seq<Stored>, deleted: nat)

  /** `delete_from_json`: the count is the original length minus the kept
      length, which is the number of listed recipes. */
  function DeleteFromJson(rs: seq<Stored>, ids: seq<string>): (o: JsonOutcome)
    ensures o.remaining == Remaining(rs, ids)
    ensures o.deleted == Listed(rs, ids)
    ensures o.deleted == 0 <==> forall i | 0 <= i < |rs| :: rs[i].id !in ids
  {
    RemainingPlusListed(rs, ids);
    NoneListed(rs, ids);
    JsonOutcome(Remaining(rs, ids), |rs| - |Remaining(rs, ids)|)
  }

  lemma {:induction false} NoneListed(rs: seq<Stored>, ids: seq<string>)
    ensures Listed(rs, ids) == 0 <==> forall i | 0 <= i < |rs| :: rs[i].id !in ids
  {
    if rs != [] {
      NoneListed(rs[1..], ids);
      assert forall i | 1 <= i < |rs| :: rs[i] == rs[1..][i - 1];
    }
  }

  lemma {:induction false} RemainingAppend(a: seq<Stored>, b: seq<Stored>, ids: seq<string>)
    ensures Remaining(a + b, ids) == Remaining(a, ids) + Remaining(b, ids)
  {
    if a == [] {
      assert a + b == b;
    } else {
      assert (a + b)[1..] == a[1..] + b;
      RemainingAppend(a[1..], b, ids);
      RemainingStep(a, b, ids);
    }
  }

  /** The first recipe of `a` is decided the same way in front of `b`. */
  lemma RemainingStep(a: seq<Stored>, b: seq<Stored>, ids: seq<string>)
    requires a != [] && (a + b)[1..] == a[1..] + b
    requires Remaining(a[1..] + b, ids) == Remaining(a[1..], ids) + Remaining(b, ids)
    ensures Remaining(a + b, ids) == Remaining(a, ids) + Remaining(b, ids)
  {
    var ra := Remaining(a[1..], ids);
    var rb := Remaining(b, ids);
    assert (a + b)[0] == a[0];
    if a[0].id !in ids {
      assert Remaining(a + b, ids) == [a[0]] + (ra + rb);
      assert Remaining(a, ids) == [a[0]] + ra;
    }
  }

  lemma {:induction false} ListedAppend(a: seq<Stored>, b: seq<Stored>, ids: seq<string>)
    ensures Listed(a + b, ids) == Listed(a, ids) + Listed(b, ids)
  {
    if a == [] {
      assert a + b == b;
    } else {
      assert (a + b)[1..] == a[1..] + b;
      ListedAppend(a[1..], b, ids);
    }
  }

  /** `delete_from_csv`: the rows are read one at a time; a listed row is
      counted, any other is written. */
  method DeleteFromCsv(rows: seq<Stored>, ids: seq<string>) returns (written: seq<Stored>, deleted: nat)
    ensures written == DeleteFromJson(rows, ids).remaining
    ensures deleted == DeleteFromJson(rows, ids).deleted
    ensures |written| + deleted == |rows|
  {
    written, deleted := [], 0;
    var i := 0;
    while i < |rows|
      invariant 0 <= i <= |rows|
      invariant written == Remaining(rows[..i], ids)
      invariant deleted == Listed(rows[..i], ids)
    {
      var row := rows[i];
      assert rows[..i + 1] == rows[..i] + [row];
      RemainingAppend(rows[..i], [row], ids);
      ListedAppend(rows[..i], [row], ids);
      if row.id in ids {
        assert Remaining([row], ids) == [] && Listed([row], ids) == 1;
        deleted := deleted + 1;
      } else {
        assert Remaining([row], ids) == [row] && Listed([row], ids) == 0;
        written := written + [row];
      }
      i := i + 1;
    }
    assert rows[..i] == rows;
    RemainingPlusListed(rows, ids);
  }

  // ---------------------------------------------------------------------------
  // The image files of delete_images

  /** The extensions searched, in order. */
  const ImageExtensions: seq<string> := ["jpg", "jpeg", "png", "gif", "webp"]

  /** The name matches the glob `{id}_*.{ext}`: the prefix `id_` and the suffix
      `.ext` do not overlap. */
  predicate NamedImage(name: string, id: string, ext: string)
  {
    |id| + |ext| + 2 <= |name| && StartsWith(name, id + "_") && EndsWith(name, "." + ext)
  }

  /** The name matches the glob `{id}.{ext}`. */
  predicate BareImage(name: string, id: string, ext: string)
  {
    name == id + "." + ext
  }

  /** The name matches one of the two globs for one of the extensions. */
  predicate ImageOf(name: string, id: string, exts: seq<string>)
  {
    exts != [] && (NamedImage(name, id, exts[0]) || BareImage(name, id, exts[0]) || ImageOf(name, id, exts[1..]))
  }

  lemma {:induction false} ImageOfMeans(name: string, id: string, exts: seq<string>)
    ensures ImageOf(name, id, exts) <==> exists e | e in exts :: NamedImage(name, id, e) || BareImage(name, id, e)
  {
    if exts != [] {
      ImageOfMeans(name, id, exts[1..]);
      assert forall e | e in exts :: e == exts[0] || e in exts[1..];
    }
  }

  /** The names a glob does not match, in order. */
  function Unmatched(names: seq<string>, matches: string -> bool): (r: seq<string>)
    ensures |r| <= |names|
    ensures forall i | 0 <= i < |r| :: !matches(r[i]) && r[i] in names
    ensures forall n | n in names && !matches(n) :: n in r
  {
    if names == [] then []
    else if matches(names[0]) then Unmatched(names[1..], matches)
    else [names[0]] + Unmatched(names[1..], matches)
  }

  /** Removing the matches of one glob and then of another is removing the
      names either matches. */
  lemma {:induction false} UnmatchedTwice(names: seq<string>, p: string -> bool, q: string -> bool, pq: string -> bool)
    requires forall n | n in names :: pq(n) == (p(n) || q(n))
    ensures Unmatched(Unmatched(names, p), q) == Unmatched(names, pq)
  {
    if names != [] {
      UnmatchedTwice(names[1..], p, q, pq);
      if !p(names[0]) {
        assert Unmatched(names, p)[1..] == Unmatched(names[1..], p);
      }
    }
  }

  function NamedGlob(id: string, ext: string): string -> bool
  {
    n => NamedImage(n, id, ext)
  }

  function BareGlob(id: string, ext: string): string -> bool
  {
    n => BareImage(n, id, ext)
  }

  function ImageGlob(id: string, exts: seq<string>): string -> bool
  {
    n => ImageOf(n, id, exts)
  }

  /** What is left of a directory and how many files went. */
  datatype Sweep = Sweep(left: seq<string>, count: nat)

  /** The inner loops of `delete_images` for one id: for each extension in turn,
      every file matching `{id}_*.{ext}` is deleted and counted, then every file
      matching `{id}.{ext}`. */
  function SweepId(names: seq<string>, id: string, exts: seq<string>): (s: Sweep)
    ensures s.count + |s.left| == |names|
    ensures s.left == Unmatched(names, ImageGlob(id, exts))
    decreases |exts|
  {
    if exts == [] then
      NoneMatched(names, ImageGlob(id, exts));
      Sweep(names, 0)
    else
      var afterNamed := Unmatched(names, NamedGlob(id, exts[0]));
      var afterBare := Unmatched(afterNamed, BareGlob(id, exts[0]));
      var rest := SweepId(afterBare, id, exts[1..]);
      UnmatchedTwice(names, NamedGlob(id, exts[0]), BareGlob(id, exts[0]), FirstExtGlob(id, exts));
      UnmatchedTwice(names, FirstExtGlob(id, exts), ImageGlob(id, exts[1..]), ImageGlob(id, exts));
      Sweep(rest.left, (|names| - |afterNamed|) + (|afterNamed| - |afterBare|) + rest.count)
  }

  function FirstExtGlob(id: string, exts: seq<string>): string -> bool
    requires exts != []
  {
    n => NamedImage(n, id, exts[0]) || BareImage(n, id, exts[0])
  }

  lemma {:induction false} NoneMatched(names: seq<string>, matches: string -> bool)
    requires forall n | n in names :: !matches(n)
    ensures Unmatched(names, matches) == names
  {
    if names != [] {
      NoneMatched(names[1..], matches);
    }
  }

  /** The name is an image of one of the ids. */
  predicate OwnedBy(name: string, ids: seq<string>)
  {
    ids != [] && (ImageOf(name, ids[0], ImageExtensions) || OwnedBy(name, ids[1..]))
  }

  lemma {:induction false} OwnedByMeans(name: string, ids: seq<string>)
    ensures OwnedBy(name, ids) <==> exists j | 0 <= j < |ids| :: ImageOf(name, ids[j], ImageExtensions)
  {
    if ids != [] {
      OwnedByMeans(name, ids[1..]);
      assert forall j | 1 <= j < |ids| :: ids[j] == ids[1..][j - 1];
    }
  }

  function OwnerGlob(ids: seq<string>): string -> bool
  {
    n => OwnedBy(n, ids)
  }

  /** `delete_images` over the file names of the image tree: each id in turn
      deletes its files from what the earlier ids left, so what is left is
      exactly the files no listed id owns, in order. */
  function DeleteImages(names: seq<string>, ids: seq<string>): (s: Sweep)
    ensures s.count + |s.left| == |names|
    ensures s.left == Unmatched(names, OwnerGlob(ids))
    decreases |ids|
  {
    if ids == [] then
      NoneMatched(names, OwnerGlob(ids));
      Sweep(names, 0)
    else
      var first := SweepId(names, ids[0], ImageExtensions);
      var rest := DeleteImages(first.left, ids[1..]);
      UnmatchedTwice(names, ImageGlob(ids[0], ImageExtensions), OwnerGlob(ids[1..]), OwnerGlob(ids));
      Sweep(rest.left, first.count + rest.count)
  }

  /** The files left are those no listed id owns: none of them is an image of
      a listed id, and every file that is not one stays. */
  lemma DeleteImagesLeaves(names: seq<string>, ids: seq<string>)
    ensures forall i | 0 <= i < |DeleteImages(names, ids).left| ::
              forall j | 0 <= j < |ids| :: !ImageOf(DeleteImages(names, ids).left[i], ids[j], ImageExtensions)
    ensures forall n | n in names && (forall j | 0 <= j < |ids| :: !ImageOf(n, ids[j], ImageExtensions)) ::
              n in DeleteImages(names, ids).left
  {
    var left := DeleteImages(names, ids).left;
    forall n | n in names || n in left {
      OwnedByMeans(n, ids);
    }
  }

  /** A file of a digit id starts with that id and the next character is `_`
      or `.`, never a digit. */
  lemma OwnerPrefix(name: string, id: string)
    requires exists e | e in ImageExtensions :: NamedImage(name, id, e) || BareImage(name, id, e)
    ensures |id| < |name| && name[..|id|] == id && !IsDigit(name[|id|])
  {
    var e :| e in ImageExtensions && (NamedImage(name, id, e) || BareImage(name, id, e));
    if NamedImage(name, id, e) {
      assert name[..|id| + 1] == id + "_";
      assert name[|id|] == name[..|id| + 1][|id|];
      assert name[..|id|] == name[..|id| + 1][..|id|];
    } else {
      assert name[|id|] == (id + "." + e)[|id|];
      assert name[..|id|] == id;
    }
  }

  /** Two all-digit ids that claim the same file are the same id: the character
      after an id in a file name is `_` or `.`, never a digit. */
  lemma ImageOwnerUnique(name: string, a: string, b: string)
    requires AllDigits(a) && AllDigits(b)
    requires ImageOf(name, a, ImageExtensions) && ImageOf(name, b, ImageExtensions)
    ensures a == b
  {
    ImageOfMeans(name, a, ImageExtensions);
    ImageOfMeans(name, b, ImageExtensions);
    OwnerPrefix(name, a);
    OwnerPrefix(name, b);
  }
}
