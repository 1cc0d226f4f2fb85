# Recipe cleaning, indexing and deletion kernels

This project is a Dafny model of the data-cleaning core of a recipe-search
pipeline. The pipeline crawls recipes for one vegetable at a time and turns
each recipe's free-text ingredient lines ("鹽1/8茶匙", "水1～2大匙", "九層塔一把",
"鹽巴白胡椒粉少許") into structured `{name, quantity, unit}` records. It then
builds search documents, database tables and an ingredient cross-reference
from the cleaned recipes. It can also delete recipes, and their images,
by id.

What is modelled:

- **The three parser revisions.**
  - The latest revision (`scripts/clean_recipe_csv_0720.py`) has four stages:
    - a cascade of eight anchored regular-expression patterns on normalised
      text, where the first match decides;
    - a fallback anchored on a known seasoning or ingredient name;
    - a fallback for vague quantity words (少許, 適量, 隨意, 依喜好);
    - a late branch that repairs "05"-style typos and searches for the first
      numeral.
  - The 0718 revision (`scripts/clean_recipe_csv_0718.py`) and the original
    revision (`scripts/clean_recipe_csv.py`) are two short parsers: a
    fraction branch and a numeral branch.
  - Each regular expression is written out as an explicit search over split
    points, in the order the backtracking engine tries them:
    - lazy groups take the shortest split that works;
    - greedy groups give characters back one at a time;
    - `.` never crosses a newline.
- **The list passes of the latest revision.** They run over one recipe's
  records:
  - compound-seasoning expansion (`split_seasoning_compounds`);
  - reconciliation of orphan quantities with the record before them;
  - defaults for 糖, 胡椒粉 and 米酒;
  - the final prune of empty records.
- **The 0718 loader's steps.** It splits compounds on the token list, then
  filters out unnamed records.
- **The shared helpers.** `clean_ingredients`, `clean_steps`, and
  first-occurrence deduplication by recipe name.
- **The downstream kernels.**
  - `convert_to_relative_path` and the ingredient and step tables of
    `scripts/create_database.py`;
  - `clean_ingredient_text` and `generate_documents` of
    `scripts/generate_documents.py`;
  - the preview/detailed matching of
    `scripts/extract_ingredients_from_json.py`;
  - `load_delete_list`, `delete_from_json`, `delete_from_csv` and
    `delete_images` of `scripts/delete_recipe.py`. File system effects
    become functions over file contents and file names.

How the model represents things:

- **Python values.**
  - A parsed record is `Records.Record`, with an optional name, a
    `Quantity` and an optional unit.
  - A quantity is absent, an int, a float or a string.
  - A Python float is the exact canonical decimal its `repr` prints
    (`Numeric.Decimal`). `round(x, k)` is round-half-to-even on the exact
    rational.
- **Exceptions.**
  - `Fraction("a/0")` raises `ZeroDivisionError`, and no parser catches it.
    The model carries this as the `Raise` case of `Wrappers.Result`, not as
    a precondition.
  - The parser contracts state that this is the only exception the parsers
    can raise on values within the float range. `OverflowError` from a
    fraction beyond that range is not modelled (see "Left out").
  - Reconciliation's `None` name is shown never to reach string
    concatenation. So the `TypeError` that concatenation would raise cannot
    happen.

Behaviours of the code that a reader might not expect:

- **Exceptions.** `Fraction` on a zero denominator raises
  `ZeroDivisionError`. Each fraction branch catches only `ValueError`
  (`scripts/clean_recipe_csv_0720.py:126-130`), so the error escapes the
  parser.
- **A reference name followed by another name.** The name-anchored fallback
  (`scripts/clean_recipe_csv_0720.py:268-283`) only records a trailing vague
  word as the quantity. Expansion into several records happens later, in the
  list pass.
- **Rounding precision.** A fraction matched by the cascade patterns or by
  the special pattern of the late branch is rounded to 3 places
  (`scripts/clean_recipe_csv_0720.py:128,147,201,313`). A fraction found by
  the name-anchored fallback or by the late search gets 2 places (lines 256
  and 339), and so does every other number, whatever the ingredient.
- **The "05" repair.** The substitution at
  `scripts/clean_recipe_csv_0720.py:295-296` fires after any non-digit. A
  decimal point is a non-digit, so "1.05" becomes "1.0.5"
  (`EarlyFacts.RepairVectors`).

## Model

| member | source | states |
|---|---|---|
| Text.Strip | scripts/clean_recipe_csv_0720.py:70 | `str.strip()`: the result is the slice between the leading and trailing whitespace runs. It starts and ends with non-whitespace, and it is empty exactly when the input is all whitespace. |
| Text.StripIdempotent | scripts/clean_recipe_csv_0720.py:70 | Stripping an already stripped token changes nothing. |
| Text.StripKeepsWords | scripts/clean_recipe_csv_0720.py:70 | Stripping removes whitespace only: the non-whitespace text is unchanged. |
| Text.Find | scripts/clean_recipe_csv_0720.py:351 | `str.find`: the index of an occurrence with no earlier occurrence, or -1 exactly when there is no occurrence at all. |
| Text.Split | scripts/clean_recipe_csv_0720.py:478 | `str.split(sep)`: no part contains the separator, and joining the parts with it gives the input back. Every cut is at the leftmost occurrence: no occurrence starts inside a part, not even one that runs on into the separator after it (" | " overlaps itself). |
| Text.WordsConcat | scripts/create_database.py:293 | `s.split()`: the words glued together are `s` with its whitespace removed. |
| Text.WordsOfJoin | scripts/create_database.py:293 | Splitting words that were joined with single spaces gives the same words back. |
| Text.WordsSpaceSplit | scripts/generate_documents.py:33 | `split()` cuts at every whitespace character: the words of `x + [c] + y` are the words of `x` followed by those of `y`. |
| Text.WordsAlike | scripts/create_database.py:291-293 | Texts that differ only in which whitespace character stands at a position have the same words. |
| Text.WordsReplaceSpace | scripts/create_database.py:291 | Replacing a whitespace character by a space keeps the words. |
| Text.WordsOfStrip | scripts/create_database.py:291 | `strip()` keeps the words. |
| Text.LeftmostCut | scripts/clean_recipe_csv_0720.py:478 | Before the first occurrence of a separator, no occurrence starts, even one overlapping the separator. |
| Text.JoinWords | scripts/generate_documents.py:57 | `" ".join(words)` is single-spaced and holds exactly the words' characters once spaces are dropped. |
| Text.ReplaceDeletesChar | scripts/clean_recipe_csv_0720.py:477 | `.replace("*", "")` keeps every other character, in order. |
| Numeric.ParseFloat | scripts/clean_recipe_csv_0720.py:131-135 | `float()` on numeral text accepts exactly the shapes `digits`, `digits.`, `.digits` and `digits.digits`. A digit string reads as its integer value; `a.b` reads as the digits of `ab` over 10 to the power of the length of `b`, in canonical form. |
| Numeric.ParseFraction | scripts/clean_recipe_csv_0720.py:126-130 | `Fraction()` of `a/b`: text without such a slash is not a fraction. With one, it raises ZeroDivisionError exactly when `b` reads as 0, and otherwise its value is the pair (int(a), int(b)). |
| Numeric.Round | scripts/clean_recipe_csv_0718.py:110 | `round(n / d, k)` is canonical with at most `k` decimal places, and it is the `k`-place value nearest to n/d, ties going to the even last digit. |
| Numeric.DecimalTextRoundTrip | scripts/clean_recipe_csv_0720.py:582 | `str()` of a float quantity, read back by `float()`, is the same value. |
| Records.QuantityTextOfNum | scripts/clean_recipe_csv_0720.py:580-585 | The text that reconciliation builds from a float quantity reads back as that float. |
| Records.OrNone | scripts/clean_recipe_csv_0720.py:468 | `s or None` is `None` exactly for the empty string and otherwise `s` itself. |
| Rounding.RoundUnits | scripts/clean_recipe_csv_0718.py:110 | Python's round-half-even picks a nearest whole number of units. |
| Convert.RoundTo | scripts/clean_recipe_csv_0720.py:133 | `round(x, k)` of a float is canonical with at most `k` places, and it is the `k`-place value nearest to `x`, ties to even. |
| Convert.RoundToExact | scripts/clean_recipe_csv_0720.py:133 | A value with at most `k` places is unchanged by `round(x, k)`. |
| Convert.FloatOrText | scripts/clean_recipe_csv_0720.py:131-135 | The quantity stays the text itself exactly when `float()` rejects it. Otherwise it is the nearest value to the parsed float with at most `k` places; a digit string is its integer. |
| Convert.FractionOrText | scripts/clean_recipe_csv_0720.py:126-130 | Without a digits/digits slash the text is kept. With one, it raises exactly when the denominator is 0, and otherwise it is the nearest `k`-place value to a/b. |
| Convert.NumberGroup | scripts/clean_recipe_csv_0720.py:125-135 | A group with a digits/digits slash raises exactly on a zero denominator and otherwise is a/b to the nearest 3 places. A group without '/' never raises: it is the float to the nearest 2 places, or the text itself when `float()` rejects it. |
| Convert.NumeralQuantity | scripts/clean_recipe_csv_0720.py:73-85 | `zh_num_map`: 半 and only 半 is the float 0.5, 兩 is 2, and the nine ordinals 一..九 are 1..9. |
| Convert.RunQuantity | scripts/clean_recipe_csv_0720.py:337-348 | A single table numeral is its table value (半 is 0.5). Any other run is the float to the nearest 2 places, or the text itself when `float()` rejects it. A quantity is always present. |
| Lexicon.NumeralValue | scripts/clean_recipe_csv_0720.py:73-85 | The ordinals 一..九 map to 1..9 and 兩 to 2. The value is None exactly for 半. |
| Lexicon.CountValue | scripts/clean_recipe_csv_0720.py:175-177 | The measure pattern's numerals map to 1..10. The value is None exactly for 半. |
| Lexicon.LongestPrefix | scripts/clean_recipe_csv_0720.py:233-239 | The first hit of the length-sorted `startswith` scan: a listed name that starts the text with no longer such name. It is None exactly when no name starts the text. |
| Lexicon.LongestSuffix | scripts/clean_recipe_csv_0720.py:457-462 | The same for `endswith` over the sorted unit list. |
| Lexicon.FirstSuffix | scripts/clean_recipe_csv_0720.py:288-293 | The first vague word, in list order, that ends the text. It is -1 exactly when none does. |
| Lexicon.VagueNotReference | scripts/clean_recipe_csv_0720.py:232-239 | A token that starts with a vague word starts with no reference name, so the name-anchored fallback never catches it. |
| Scan.RunEnd | scripts/clean_recipe_csv_0720.py:325-328 | A greedy character-class run: every character inside belongs to the class, and the next one does not. |
| Scan.LazySplit | scripts/clean_recipe_csv_0720.py:106 | `^(.+?)X`: the shortest non-empty, newline-free first group after which `X` matches. It is None exactly when no split works. |
| Scan.DownFrom | scripts/clean_recipe_csv_0720.py:115 | A greedy quantifier's give-back order: position `a` holds `hi - a`, so the lengths are tried strictly downwards, and every length in range appears. |
| Scan.FirstOf | scripts/clean_recipe_csv_0720.py:115 | The first candidate end, in engine order, at which the rest of the pattern matches. It is None exactly when none does. |
| Scan.NumberEnds | scripts/clean_recipe_csv_0720.py:115 | Every end of `\d+(?:/\d+)?(?:\.\d+)?` lies after its start. There is none when no digit starts it. |
| Scan.Bracket | scripts/clean_recipe_csv_0720.py:115 | `(\([^)]*\))?` ends at the first ')' after '('. It is absent exactly when no '(' is there or no ')' follows. |
| Scan.UnitAndBracket | scripts/clean_recipe_csv_0720.py:300 | `\s*([^\d\s\(]+)(...)?`: a whitespace run, then a maximal non-empty run of unit characters, then the bracket exactly when `Bracket` finds one. It is None exactly when no unit character follows the whitespace. |
| Scan.RestFromSucceeds | scripts/clean_recipe_csv_0720.py:192 | `\s*(.+)$` matches at `k` exactly when, after some whitespace, a non-empty newline-free suffix is left. |
| Scan.LazySplitAt | scripts/clean_recipe_csv_0720.py:106 | The lazy first group stops at the least newline-free split where the rest matches. |
| Scan.FirstOfAt | scripts/clean_recipe_csv_0720.py:115 | When the candidate at position `j` is the first that succeeds, the engine takes it. |
| Scan.FirstOfHit | scripts/clean_recipe_csv_0720.py:115 | What the engine takes is a candidate that succeeds after every earlier candidate failed. |
| Scan.NumberEndsMeans | scripts/clean_recipe_csv_0720.py:115 | An end is listed exactly when `\d+(?:/\d+)?(?:\.\d+)?` (or the pattern's own number shape) matches from the start to it. |
| Scan.FirstEndSound | scripts/clean_recipe_csv_0720.py:115 | The end the engine takes bounds a number match, and the rest of the pattern matches there. |
| Scan.FirstEndComplete | scripts/clean_recipe_csv_0720.py:115 | If some number match is followed by a match of the rest, the engine finds one. |
| Scan.UnitAndBracketToEndMeans | scripts/clean_recipe_csv_0720.py:115 | Unit and optional bracket reach the end of the text exactly when the unit-tail shape holds. |
| Scan.WordToEndMeans | scripts/clean_recipe_csv_0720.py:140 | `\s*([^\d\s]+)$` matches exactly when the word-tail shape holds. |
| Numeric.NearestUnique | scripts/clean_recipe_csv_0720.py:128 | Two nearest-with-ties-to-even roundings of the same value agree, so the rounded value is determined. |
| Numeric.RoundIsNearest | scripts/clean_recipe_csv_0720.py:128 | Any nearest `k`-place value of n/d is the one `round` gives. |
| Numeric.SlashIsFirst | scripts/clean_recipe_csv_0720.py:126 | The slash of a digits/digits text is its first '/'. |
| Convert.FloatOrTextOfPrinted | scripts/clean_recipe_csv_0720.py:580-585 | A printed float of at most `k` places reads back as itself. |
| Convert.FractionTextValue | scripts/clean_recipe_csv_0720.py:128 | `a/b` with a non-zero denominator reads as the nearest `k`-place value of a/b. |
| Typography.Glyph | scripts/clean_recipe_csv_0720.py:94-101 | A character changes exactly when it is a fraction glyph. A glyph becomes digits and '/'. |
| Typography.ReplaceEachCharwise | scripts/clean_recipe_csv_0720.py:102-103 | The sequence of `replace` calls over the glyph table is one character-wise substitution. |
| Typography.NormaliseCharwise | scripts/clean_recipe_csv_0720.py:91-103 | Normalisation (the full-width slash and the glyphs) rewrites each character on its own. |
| Typography.GlyphSpaces | scripts/clean_recipe_csv_0720.py:91-103 | Normalisation leaves whitespace alone and creates none. |
| Typography.NormaliseIdempotent | scripts/clean_recipe_csv_0720.py:91-103 | Normalised text has nothing left to normalise. |
| Typography.NormaliseGlyphFree | scripts/clean_recipe_csv_0720.py:91-103 | Text without glyphs is already normal. |
| Typography.RepairIsMarked | scripts/clean_recipe_csv_0720.py:296 | The left-to-right `re.sub` scan rewrites every "non-digit, 0, digit" site, and nothing else. |
| Typography.RepairKeepsZeroFreePrefix | scripts/clean_recipe_csv_0720.py:296 | A prefix without '0' starts the repaired text exactly when it starts the original. |
| Typography.RepairWithoutSites | scripts/clean_recipe_csv_0720.py:296 | Text without a repair site is unchanged. |
| Cascade.RangeAtSound | scripts/clean_recipe_csv_0720.py:106 | What the attempt at split `i` finds is digits, a tilde (～ or ~), digits, and a rest starting after optional whitespace. |
| Cascade.RangeAtComplete | scripts/clean_recipe_csv_0720.py:106 | Any such range followed by a rest at split `i` makes the attempt succeed there. |
| Cascade.RangeMatch | scripts/clean_recipe_csv_0720.py:106 | The range match sits at a split where the range attempt succeeds, inside the text. |
| Cascade.RangeLeast | scripts/clean_recipe_csv_0720.py:106-112 | At the least split where a range matches: the stripped name, the range text as written (not a number), and the stripped rest as the unit. |
| Cascade.RangeNone | scripts/clean_recipe_csv_0720.py:106-107 | The range pattern fails exactly when the attempt fails at every newline-free split. |
| Cascade.UnitBracketAtSound | scripts/clean_recipe_csv_0720.py:115 | What the attempt at split `i` finds is a number group followed by a unit run and an optional parenthetical that ends the text. |
| Cascade.UnitBracketAtComplete | scripts/clean_recipe_csv_0720.py:115 | Any number group followed by such a unit and bracket makes the attempt succeed. |
| Cascade.UnitBracketLeast | scripts/clean_recipe_csv_0720.py:115-137 | At the least split: the name is the stripped text before the number with the parenthetical appended, the quantity is the number group's reading (fraction to 3 places, decimal to 2), and the unit is stripped. A zero denominator raises ZeroDivisionError. |
| Cascade.BracketRecordOf | scripts/clean_recipe_csv_0720.py:117-137 | The record of a match: the bracket text `s[e..]` is appended to the stripped name, the unit is the stripped unit group, and the quantity is the number group's reading. |
| Cascade.UnitBracketNone | scripts/clean_recipe_csv_0720.py:115-116 | The pattern fails exactly when the attempt fails at every newline-free split. |
| Cascade.FractionUnitAtSound | scripts/clean_recipe_csv_0720.py:140 | What the attempt finds is `\d+/\d+`, optional whitespace, and a word of non-digit, non-space characters that ends the text. |
| Cascade.FractionUnitAtComplete | scripts/clean_recipe_csv_0720.py:140 | Any such fraction and word makes the attempt succeed. |
| Cascade.FractionUnitLeast | scripts/clean_recipe_csv_0720.py:140-151 | At the least split: the stripped name, the fraction read to the nearest 3 places, and the stripped word as the unit. A zero denominator raises ZeroDivisionError. |
| Cascade.FractionUnitNone | scripts/clean_recipe_csv_0720.py:140-141 | The pattern fails exactly when the attempt fails at every newline-free split. |
| Cascade.SpacedVagueAt | scripts/clean_recipe_csv_0720.py:154 | A match at split `i` is whitespace up to one of the nine vague words, which ends the text. |
| Cascade.SpacedVagueAtComplete | scripts/clean_recipe_csv_0720.py:154 | Conversely, whitespace from `i` up to a vague word that ends the text is a match there. |
| Cascade.SpacedVagueLeast | scripts/clean_recipe_csv_0720.py:154-159 | At the least split: the stripped text before the whitespace is the name, the vague word is the quantity, and there is no unit. |
| Cascade.SpacedVagueNone | scripts/clean_recipe_csv_0720.py:154-155 | The pattern fails exactly when no newline-free split is followed by whitespace and a final vague word. |
| Cascade.CountNumeralAt | scripts/clean_recipe_csv_0720.py:163 | The measure pattern matches at a count numeral exactly when a non-empty newline-free rest follows it. |
| Cascade.CountQuantity | scripts/clean_recipe_csv_0720.py:175-177 | `chinese_to_num`: 半 and only 半 gives 0.5, and the ordinals 一..九 give 1..9. |
| Cascade.CountMeasure | scripts/clean_recipe_csv_0720.py:163-179 | A record has a name, a unit from `common_units`, and an int or 0.5. Without a count numeral after the first character there is none. |
| Cascade.CountMeasureLeast | scripts/clean_recipe_csv_0720.py:163-179 | At the first count numeral after the first character, the pattern keeps the record when the stripped rest is a measure word and otherwise gives up; a later numeral is never tried. |
| Cascade.SuffixVagueAt | scripts/clean_recipe_csv_0720.py:182 | The pattern matches at split `i` exactly when the text from `i` is one of its vague words. |
| Cascade.SuffixVagueLeast | scripts/clean_recipe_csv_0720.py:182-187 | At the least split whose suffix is a vague word: the stripped prefix is the name, the suffix is the quantity, and there is no unit. |
| Cascade.SuffixVagueNone | scripts/clean_recipe_csv_0720.py:182-183 | The pattern fails exactly when no newline-free split leaves a vague word as the suffix. |
| Cascade.NumberRestAtSound | scripts/clean_recipe_csv_0720.py:192 | What the attempt finds is a number group and then a rest after optional whitespace. |
| Cascade.NumberRestAtComplete | scripts/clean_recipe_csv_0720.py:192 | Any number group followed by such a rest makes the attempt succeed. |
| Cascade.NumberRestLeast | scripts/clean_recipe_csv_0720.py:192-210 | At the least split: the stripped name, the number group's reading, and the stripped rest as the unit. A zero denominator raises ZeroDivisionError. |
| Cascade.NumberRestNone | scripts/clean_recipe_csv_0720.py:192-193 | The pattern fails exactly when the attempt fails at every newline-free split. |
| Cascade.TrailingNumberAtMeans | scripts/clean_recipe_csv_0720.py:213 | The pattern matches at split `i` exactly when the text from `i` is a whole `\d+(?:\.\d+)?` group. |
| Cascade.TrailingNumberLeast | scripts/clean_recipe_csv_0720.py:213-223 | At the least such split: the stripped name, the number read to the nearest 2 places, and no unit. |
| Cascade.TrailingNumberNone | scripts/clean_recipe_csv_0720.py:213-214 | The pattern fails exactly when no newline-free split leaves a whole number group. |
| Cascade.Cascade | scripts/clean_recipe_csv_0720.py:104-225 | `parse_complex_ingredient`: any record it returns has a name and a quantity. The only exception is ZeroDivisionError. |
| Cascade.CascadeNoMatch | scripts/clean_recipe_csv_0720.py:104-225 | The cascade returns None exactly when all eight patterns fail. |
| Cascade.CascadeAtRange | scripts/clean_recipe_csv_0720.py:106-112 | A range match decides the cascade. |
| Cascade.CascadeAtUnitBracket | scripts/clean_recipe_csv_0720.py:114-137 | With no range match, a number-unit-bracket match decides. |
| Cascade.CascadeAtFractionUnit | scripts/clean_recipe_csv_0720.py:139-151 | With neither earlier match, a fraction-unit match decides. |
| Cascade.CascadeAtSpacedVague | scripts/clean_recipe_csv_0720.py:153-159 | With none of the three earlier matches, a spaced vague word decides. |
| Cascade.CascadeAtCountMeasure | scripts/clean_recipe_csv_0720.py:161-179 | Next, a counted measure decides. |
| Cascade.CascadeAtSuffixVague | scripts/clean_recipe_csv_0720.py:181-187 | Next, a trailing vague word decides. |
| Cascade.CascadeAtNumberRest | scripts/clean_recipe_csv_0720.py:191-210 | Next, a number and rest decides. |
| Cascade.CascadeAtTrailingNumber | scripts/clean_recipe_csv_0720.py:212-225 | Last, a trailing number decides. |
| Parse0720.AmountMatch | scripts/clean_recipe_csv_0720.py:244-246 | The amount regex on the stripped rest matches exactly when the rest is non-empty, starts with an amount character and holds no newline. Group 1 is then the longest run of amount characters, and group 2 the longest run of non-digit, non-space characters after it. |
| Parse0720.AmountQuantity | scripts/clean_recipe_csv_0720.py:252-265 | The amount's quantity is always present. A run with '/' is a fraction rounded to 2 places, or stays text when it is not a fraction. A run without '/' is a table numeral, else a float rounded to 2 places, else text. The only exception is ZeroDivisionError. |
| Parse0720.VagueAfterName | scripts/clean_recipe_csv_0720.py:268-283 | Without an amount: when no vague word ends the rest, there is no quantity. When the first vague word that ends it is `w`, the quantity is `w` exactly when the rest is `w` or what precedes `w`, stripped, is non-empty and starts with a seasoning. |
| Parse0720.ReferenceFallback | scripts/clean_recipe_csv_0720.py:238-285 | Fallback A names the record with the reference name. Without an amount match, the quantity is the vague word after the name and there is no unit. With a match, the quantity is group 1 read as an amount, the unit is group 2 or none when it is empty, and the only exception is the amount's ZeroDivisionError. |
| Parse0720.VagueFallback | scripts/clean_recipe_csv_0720.py:287-293 | It applies exactly when a vague word ends the token. For the first such word `w`, the record is the stripped text before `w` (none when empty) with quantity `w` and no unit. |
| Parse0720.SpecialMatch | scripts/clean_recipe_csv_0720.py:300 | The special match exists exactly when the lazy search finds a split, with its groups in order inside the text. |
| Parse0720.Special | scripts/clean_recipe_csv_0720.py:298-322 | The special pattern gives a name, a quantity and a unit. It raises only ZeroDivisionError. |
| Parse0720.FirstAmount | scripts/clean_recipe_csv_0720.py:325-328 | The first character that can start an amount, with no earlier one. |
| Parse0720.AmountSearch | scripts/clean_recipe_csv_0720.py:325-328 | `re.search` starts at the first amount character, and group 1 is a maximal run. It is None exactly when no amount character occurs. |
| Parse0720.FindIsMatchStart | scripts/clean_recipe_csv_0720.py:351-352 | `find(quantity_str)` lands on the search match itself. |
| Parse0720.UnitTest | scripts/clean_recipe_csv_0720.py:407-449 | A unit that is taken holds a known unit word and no whitespace. |
| Parse0720.Settle | scripts/clean_recipe_csv_0720.py:451-466 | After the clean-up, the unit is empty, the unit found before, or a known unit word. |
| Parse0720.TakeSuffix | scripts/clean_recipe_csv_0720.py:456-462 | The unit taken from the end of the name is the old unit or one of the listed words. |
| Parse0720.LateBranch | scripts/clean_recipe_csv_0720.py:325-468 | The late branch raises only ZeroDivisionError. A record without a quantity is named with the whole token. |
| Parse0720.LateParseAsWritten | scripts/clean_recipe_csv_0720.py:296-471 | A token with neither the special pattern nor a numeral comes back whole as the name. |
| Parse0720.LateParse | scripts/clean_recipe_csv_0720.py:296-471 | The same for the corrected late branch. |
| Parse0720.Fallbacks | scripts/clean_recipe_csv_0720.py:232-471 | After the cascade: it raises only ZeroDivisionError, and a record without a quantity has a name. |
| Parse0720.AfterCascade | scripts/clean_recipe_csv_0720.py:227-230 | The cascade's record wins. Otherwise the fallbacks decide, with the same guarantee. |
| Parse0720.ParseIngredient | scripts/clean_recipe_csv_0720.py:69-471 | `parse_ingredient` (corrected late branch) raises only ZeroDivisionError, and every record without a quantity has a name. |
| Parse0720.ParseIngredientAsWritten | scripts/clean_recipe_csv_0720.py:69-471 | The same guarantee for the code as written. |
| Parse0720Facts.NoDigitNumberPatternsFail | scripts/clean_recipe_csv_0720.py:106-223 | Every pattern that needs a digit after the name fails when no digit follows the first character. |
| Parse0720Facts.SpacedVagueNeedsSuffix | scripts/clean_recipe_csv_0720.py:154 | The spaced vague-word pattern fails unless one of its words ends the text. |
| Parse0720Facts.SpacedVagueNeedsSpace | scripts/clean_recipe_csv_0720.py:154 | The same pattern needs whitespace before the word. |
| Parse0720Facts.CountMeasureNeedsNumeral | scripts/clean_recipe_csv_0720.py:163 | The measure pattern needs a count numeral after the first character. |
| Parse0720Facts.SuffixVagueNeedsSuffix | scripts/clean_recipe_csv_0720.py:182 | The trailing vague-word pattern fails unless one of its words ends the text. |
| Parse0720Facts.CascadeFailsOnPlainText | scripts/clean_recipe_csv_0720.py:106-225 | On text with no digit, no count numeral and no vague ending, no pattern matches. |
| Parse0720Facts.CascadeNone | scripts/clean_recipe_csv_0720.py:91-225 | The same after normalisation, for glyph-free text. |
| Parse0720Facts.PlainFallbacks | scripts/clean_recipe_csv_0720.py:232-471 | Such a token passes both fallbacks and the late branch, and it comes back as the name. |
| Parse0720Facts.WholeTokenIsName | scripts/clean_recipe_csv_0720.py:470-471 | "No number means a plain name": a token with no numeral, no vague ending and no reference prefix is the name, with no quantity and no unit. This holds in both late-branch variants. |
| Parse0720Facts.PlainParse | scripts/clean_recipe_csv_0720.py:69-471 | The same for either late branch. |
| Parse0720Facts.VagueSuffixFree | scripts/clean_recipe_csv_0720.py:288-293 | No two of the four vague words end one another, so the order of the scan does not matter. |
| Parse0720Facts.VagueWordPassesCascade | scripts/clean_recipe_csv_0720.py:154-187 | A bare vague word matches no cascade pattern: each pattern needs a name before the word. |
| Parse0720Facts.VagueFallbackOnWord | scripts/clean_recipe_csv_0720.py:288-290 | A bare vague word becomes the quantity, with no name and no unit. |
| Parse0720Facts.ExactVagueToken | scripts/clean_recipe_csv_0720.py:287-290 | The whole parser maps a bare vague word to `{None, word, None}`. |
| Parse0720Facts.SeasoningLoopUnreachable | scripts/clean_recipe_csv_0720.py:363-366 | A token that reaches the late branch, after the "05" repair, starts with no reference seasoning, so the seasoning loop never fires. |
| Examples0720.WaterRange | scripts/clean_recipe_csv_0720.py:106-112 | "水1～2大匙" matches the range pattern as 水, "1～2", 大匙. |
| Examples0720.WaterParsed | scripts/clean_recipe_csv_0720.py:69-230 | The whole parser gives {水, "1～2", 大匙} for "水1～2大匙". |
| Examples0720.CascadeDecides | scripts/clean_recipe_csv_0720.py:227-230 | A token whose normalised form the cascade parses comes back as the cascade's record. |
| Examples0720.NoTildeNoRange | scripts/clean_recipe_csv_0720.py:106 | Text without a tilde never matches the range pattern. |
| Examples0720.OilCascade | scripts/test_chinese_patterns.py:49-54 | "油1~2茶匙" gives {油, "1~2", 茶匙}: the ASCII tilde is a range too. |
| Examples0720.OilParsed | scripts/test_chinese_patterns.py:49-54 | The whole parser gives the same record. |
| Examples0720.SalmonUnitBracket | scripts/test_ingredient_parsing.py:17-22 | "鮭魚1片(270g)" matches the number-unit-bracket pattern as {鮭魚(270g), 1.0, 片}. |
| Examples0720.SalmonParsed | scripts/test_ingredient_parsing.py:17-22 | The whole parser gives {鮭魚(270g), 1.0, 片}. |
| Examples0720.Quarter | scripts/clean_recipe_csv_0720.py:126-128 | The number group "1/4" reads as 0.25. |
| Examples0720.LemonUnitBracket | scripts/test_ingredient_parsing.py:25-30 | "檸檬1/4顆" is caught by the number-unit-bracket pattern as {檸檬, 0.25, 顆}. |
| Examples0720.LemonParsed | scripts/test_ingredient_parsing.py:25-30 | The whole parser gives {檸檬, 0.25, 顆}. |
| Examples0720.BasilCountMeasure | scripts/test_chinese_patterns.py:17-22 | "九層塔一把" matches the counted-measure pattern as {九層塔, 1, 把}. |
| Examples0720.BasilParsed | scripts/test_brand_name.py:25-30 | The whole parser gives {九層塔, 1, 把}. |
| Examples0720.BrandGivesUp | scripts/clean_recipe_csv_0720.py:161-179 | In "小磨坊蒜香九層塔適量" the first count numeral 九 is followed by no measure word, so the counted-measure pattern gives up. |
| Examples0720.BrandParsed | scripts/test_brand_name.py:17-22 | The whole parser gives {小磨坊蒜香九層塔, 適量, None}. |
| Examples0720.SaltSpaced | scripts/test_space_quantity.py:41-46 | "鹽 一撮" matches the spaced vague-word pattern as {鹽, 一撮, None}. |
| Examples0720.SaltParsed | scripts/test_space_quantity.py:41-46 | The whole parser gives {鹽, 一撮, None}. |
| Examples0720.FullWidthNormal | scripts/clean_recipe_csv_0720.py:91-103 | Normalisation turns "鹽1／8茶匙" into "鹽1/8茶匙". |
| Examples0720.EighthUnitBracket | scripts/clean_recipe_csv_0720.py:115-137 | "鹽1/8茶匙" matches the number-unit-bracket pattern as {鹽, 0.125, 茶匙}. |
| Examples0720.FullWidthParsed | scripts/test_fullwidth_slash.py:15-22 | The whole parser gives {鹽, 0.125, 茶匙} for the full-width slash. |
| ExamplesPasses.TokenParsed | scripts/clean_recipe_csv_0720.py:181-187 | The token "鹽巴白胡椒粉少許" parses to one record named 鹽巴白胡椒粉 with quantity 少許 and no unit. |
| ExamplesPasses.CompoundExpanded | scripts/clean_recipe_csv_0720.py:512-561 | That record, with its token, expands into 鹽巴 and 白胡椒粉, each with quantity 少許 and no unit. |
| ExamplesPasses.CompoundListExpanded | scripts/clean_recipe_csv_0720.py:512-563 | The expansion of the one-record list is those two records. |
| LateName.UnitTestWithin | scripts/clean_recipe_csv_0720.py:407-449 | With nothing before the quantity, the unit test's name and unit are pieces of the text after the quantity. |
| LateName.SettleWithin | scripts/clean_recipe_csv_0720.py:451-466 | The clean-up keeps the name a piece of that text. |
| LateName.TakeSuffixShape | scripts/clean_recipe_csv_0720.py:456-462 | Giving up a trailing unit leaves the name or a stripped prefix of it. |
| LateName.CorrectedNameWithinRest | scripts/clean_recipe_csv_0720.py:355-466 | Corrected branch: with nothing before the quantity, the name is a piece of the stripped text after it. |
| LateName.DuplicatedName | scripts/clean_recipe_csv_0720.py:355-449 | As written: "2顆 蛋" is named "蛋蛋", which is not a piece of "顆 蛋". |
| LateName.SingleName | scripts/clean_recipe_csv_0720.py:355-449 | Corrected: the same token is named 蛋, with quantity 2.0 and unit 顆. |
| LateName.EggReachesLateBranch | scripts/clean_recipe_csv_0720.py:69-325 | "2顆 蛋" gets past the cascade and both early fallbacks to the late branch. |
| LateName.EggParsed | scripts/clean_recipe_csv_0720.py:69-471 | The whole parser names "2顆 蛋" "蛋蛋" as written and 蛋 when corrected. |
| Compound.SplitBy | scripts/clean_recipe_csv_0720.py:50-65 | `split_seasoning_compounds` returns parts exactly when the input is not empty. Every part is non-empty, every part but the last is a seasoning, and the last part is a seasoning or starts with none. |
| Compound.SplitStep | scripts/clean_recipe_csv_0720.py:56-61 | One loop step takes the longest seasoning and strips the rest. |
| Compound.SplitStop | scripts/clean_recipe_csv_0720.py:62-64 | Text that starts with no seasoning is kept whole as the last part. |
| Compound.SplitKeepsWords | scripts/clean_recipe_csv_0720.py:50-65 | The parts glue back into the input, up to whitespace. |
| Compound.SplitRejoins | scripts/clean_recipe_csv_0720.py:50-65 | Without whitespace, the parts glue back into exactly the input. |
| Compound.SplitIsGreedy | scripts/clean_recipe_csv_0720.py:51-61 | No part is a seasoning shorter than one that also fits there. |
| Compound.CompoundsRejoin | scripts/clean_recipe_csv_0720.py:8-65 | For the real seasoning list: the parts glue back into the input up to whitespace, exactly when the input holds none, and the split is greedy. |
| Passes.CheckText | scripts/clean_recipe_csv_0720.py:536-541 | When no vague word ends the token, the check text is the token. Otherwise it is the token with the first vague word that ends it cut off, then stripped. It is always a contiguous piece of the token. |
| Passes.CutFirstSuffix | scripts/clean_recipe_csv_0720.py:538-541 | Cutting the first listed word that ends a text: the text itself when none does, else the stripped text before that word. |
| Passes.ExpandOne | scripts/clean_recipe_csv_0720.py:515-561 | A record is replaced exactly when the split condition holds, its check text splits into two or more parts, and every part is a seasoning. It is then replaced by one record per part, in order, each with the record's quantity and no unit. Otherwise it is kept as it is. |
| Passes.ExpandedNames | scripts/clean_recipe_csv_0720.py:543-555 | The names of an expanded record are seasonings, and together they rebuild the check text. |
| Passes.PartRecords | scripts/clean_recipe_csv_0720.py:551-555 | One record per part, in order. |
| Passes.Expand | scripts/clean_recipe_csv_0720.py:514-563 | The expansion never shortens the list. |
| Passes.ExpandAppend | scripts/clean_recipe_csv_0720.py:514-563 | The loop works record by record: expanding two lists, each record with its own token, is expanding each and concatenating. |
| Passes.ExpandNothing | scripts/clean_recipe_csv_0720.py:514-563 | A list where no record triggers expansion is left exactly as it is. |
| Passes.ExpandSound | scripts/clean_recipe_csv_0720.py:514-563 | Expansion keeps every record sound (a record with neither quantity nor unit has a name). |
| Passes.Merge | scripts/clean_recipe_csv_0720.py:567-597 | A record that is not an orphan after a bare record is appended. An orphan after a bare unnamed record raises TypeError. After a bare named record, the joined text is re-parsed: an exception propagates, a re-parse with the same name and a quantity or unit replaces the bare record, and otherwise the orphan is appended. |
| Passes.ReconcileFrom | scripts/clean_recipe_csv_0720.py:565-598 | The result is the input shortened by exactly the number of steps that replace the last record. |
| Passes.Reconcile | scripts/clean_recipe_csv_0720.py:565-598 | The list shrinks by exactly the number of merges, and every name is kept, in order. |
| Passes.ReconcilePair | scripts/clean_recipe_csv_0720.py:565-598 | A named bare record and an orphan: a re-parse that raises makes the pass raise, one with the same name and a quantity or unit leaves one record, and any other leaves both. |
| Passes.MergeKeepsNames | scripts/clean_recipe_csv_0720.py:567-597 | A merge step keeps every name, in order. |
| Passes.ReconcileKeepsNames | scripts/clean_recipe_csv_0720.py:565-598 | Reconciliation keeps every name, in order. Each record it removes is an unnamed orphan. |
| Passes.ReconcileNoOrphans | scripts/clean_recipe_csv_0720.py:565-598 | A list without orphans is left as it is. |
| Passes.ReconcileSound | scripts/clean_recipe_csv_0720.py:565-598 | On sound records with a well-behaved parser, reconciliation raises only ZeroDivisionError and keeps the records sound. The `None + str` TypeError cannot happen. |
| Passes.MergeSound | scripts/clean_recipe_csv_0720.py:567-597 | A merge step keeps the records sound. |
| Passes.DefaultOne | scripts/clean_recipe_csv_0720.py:601-608 | 糖, 胡椒粉 and 米酒 with no quantity become the same name with quantity 少許 and no unit. Every other record is unchanged. |
| Passes.Defaults | scripts/clean_recipe_csv_0720.py:601-608 | The defaults apply record by record, and the length is kept. |
| Passes.DefaultsIdempotent | scripts/clean_recipe_csv_0720.py:601-608 | Applying the defaults twice is applying them once. |
| Passes.Prune | scripts/clean_recipe_csv_0720.py:611-617 | No empty record survives, and every survivor is an input record. |
| Passes.PruneKeeps | scripts/clean_recipe_csv_0720.py:611-617 | A list without empty records is unchanged. |
| Passes.PruneAppend | scripts/clean_recipe_csv_0720.py:611-617 | Pruning distributes over concatenation. |
| Passes.PruneIsIdle | scripts/clean_recipe_csv_0720.py:600-617 | After the defaults, sound records are never empty, so the prune removes nothing. |
| Passes.ParseAll | scripts/clean_recipe_csv_0720.py:508-510 | Either every token's record, in order, or the exception of some token. |
| Passes.StructuredIngredientsSound | scripts/clean_recipe_csv_0720.py:505-617 | With a well-behaved parser, the whole pass chain raises only ZeroDivisionError and leaves sound records. |
| Passes.ParseIngredientWellBehaved | scripts/clean_recipe_csv_0720.py:69-471 | The latest parser is well behaved both as written and with the late branch corrected: only ZeroDivisionError, and only sound records. |
| Lists.CleanIngredients | scripts/clean_recipe_csv_0720.py:475-481 | `clean_ingredients`: no item holds ',', '、' or '*'. |
| Lists.KeepItems | scripts/clean_recipe_csv_0720.py:476-480 | The kept pieces are at most as many as the pieces, with every '*' gone. |
| Lists.StarOnlyItem | scripts/clean_recipe_csv_0720.py:476-480 | A piece of only '*' passes the blank test before the '*' is removed, so it survives as "". |
| Lists.CleanIngredientsOfJoin | scripts/clean_recipe_csv_0720.py:475-481 | Clean items joined with ',' come back unchanged. |
| Lists.SplitJoin | scripts/clean_recipe_csv_0720.py:478 | Splitting on one character undoes joining on it. |
| Lists.FirstSeparator | scripts/clean_recipe_csv_0720.py:486-487 | The first of the four step separators, in their list order, that occurs in the text (the bar, the slash, the full-width comma, the comma). No earlier listed separator is present, and the result is -1 exactly when none occurs. |
| Lists.KeepSteps | scripts/clean_recipe_csv_0720.py:488 | The kept steps are non-empty and stripped. |
| Lists.CleanSteps | scripts/clean_recipe_csv_0720.py:485-489 | `clean_steps`: with no separator, the stripped text alone. Otherwise the non-blank stripped pieces split on the first separator. |
| Lists.CleanStepsOfJoin | scripts/clean_recipe_csv_0720.py:485-489 | Clean steps joined with the bar separator come back unchanged. |
| Lists.BarFirst | scripts/clean_recipe_csv_0720.py:486-488 | Text holding the bar separator is always split on it, whatever else it holds. |
| Lists.KeepFirst | scripts/clean_recipe_csv_0720.py:500-503 | A row is kept exactly when it is the first with its stripped name. The kept rows are in order and have distinct names. |
| Lists.NameKeys | scripts/clean_recipe_csv_0720.py:500 | Each row's key is its stripped name. |
| Early.FractionAt | scripts/clean_recipe_csv_0718.py:98 | `\d+/\d+` anchored at a position: both digit runs are maximal. There is no match exactly when no fraction shape starts there. |
| Early.FractionSearch | scripts/clean_recipe_csv_0718.py:98 | `re.search` finds the leftmost fraction. It is None exactly when there is none. |
| Early.NoDigitNoFraction | scripts/clean_recipe_csv_0718.py:98 | Text without digits has no fraction. |
| Early.HasAnyMeans | scripts/clean_recipe_csv_0718.py:106 | `any(solid in name ...)` holds exactly when some solid name occurs in the name. |
| Early.FractionSplitAt | scripts/clean_recipe_csv_0718.py:99-116 | The branch raises exactly for a non-solid name with a zero denominator. The name and unit are the stripped text around the fraction. After a solid name, the quantity is the literal fraction. |
| Early.FractionSplit | scripts/clean_recipe_csv_0718.py:98-116 | The fraction branch applies exactly when a fraction occurs, and it raises only ZeroDivisionError. |
| Early.RunValue | scripts/clean_recipe_csv_0718.py:124-131 | A single table numeral is looked up. Otherwise the value is `float()`, or None when that fails. |
| Early.Round2 | scripts/clean_recipe_csv_0718.py:137 | An int is unchanged. A float gets at most 2 places, and one that already has at most 2 is unchanged. |
| Early.NumeralSplit | scripts/clean_recipe_csv_0718.py:119-141 | The numeral branch applies exactly when some amount character occurs, and it splits at the search match. |
| Early.RepairOfEmpty | scripts/clean_recipe_csv_0718.py:91 | The repair only inserts characters, so it empties only the empty text. |
| Early.ParseOriginal | scripts/clean_recipe_csv.py:16-84 | The original parser raises only ZeroDivisionError. Every record has a name, and a unit is never empty. |
| Early.Parse0718 | scripts/clean_recipe_csv_0718.py:74-157 | The 0718 parser raises only ZeroDivisionError. An empty name only comes from a blank token, and a unit is never empty. |
| EarlyFacts.FractionTextParses | scripts/clean_recipe_csv_0718.py:110 | The branch's text is what `Fraction()` accepts. A zero denominator raises. |
| EarlyFacts.FractionBranchIsFraction | scripts/clean_recipe_csv_0718.py:98-111 | The branch's quantity agrees with `Fraction()` on the matched text. |
| EarlyFacts.WholeTokenOriginal | scripts/clean_recipe_csv.py:79-84 | The original parser keeps a token without numerals whole as the name. |
| EarlyFacts.WholeToken0718 | scripts/clean_recipe_csv_0718.py:156-157 | So does the 0718 parser, unless the token is a vague word. |
| EarlyFacts.VagueToken0718 | scripts/clean_recipe_csv_0718.py:94-95 | The 0718 parser makes a bare vague word the unit. The latest parser makes it the quantity. |
| EarlyFacts.RevisionsAgree | scripts/clean_recipe_csv_0718.py:74-157 | The two early revisions agree on every token that the 0718 additions leave alone. |
| EarlyFacts.LeadingAmount | scripts/clean_recipe_csv_0718.py:143-146 | With the amount first, the original parser keeps the empty name and the 0718 parser gives None. |
| EarlyFacts.VagueUnitDropsQuantity | scripts/clean_recipe_csv_0718.py:148-150 | The 0718 parser drops the quantity when a vague word follows the amount. The original parser keeps it. |
| EarlyFacts.TwoNumerals | scripts/clean_recipe_csv_0718.py:124-131 | "三三" converts to nothing, without raising. |
| EarlyFacts.TwoPoints | scripts/clean_recipe_csv_0718.py:124-131 | "1.2.3" converts to nothing, without raising. |
| EarlyFacts.RepairVectors | scripts/clean_recipe_csv_0718.py:91 | 鹽05 becomes 鹽0.5. "1.05" is damaged into "1.0.5". A leading "05" is left alone. |
| EarlyFacts.FractionParsed | scripts/clean_recipe_csv_0718.py:98-116 | A token whose fraction branch succeeds parses to that split in both early revisions. |
| EarlyFacts.SaltParsed | scripts/clean_recipe_csv_0718.py:98-116 | "鹽1/8茶匙" gives {鹽, "1/8", 茶匙} in both early revisions: a solid keeps its fraction text. |
| EarlyFacts.SoySauceParsed | scripts/clean_recipe_csv.py:23-43 | "醬油1/2大匙" gives {醬油, 0.5, 大匙}: a liquid's fraction is rounded. |
| Load0718.ExpandTokens | scripts/clean_recipe_csv_0718.py:196-200 | The flattened compound split has only non-empty parts, and at least as many as there are non-empty tokens. |
| Load0718.ExpandKeepsWords | scripts/clean_recipe_csv_0718.py:196-200 | The parts glue back into the tokens up to whitespace, and exactly when the tokens hold no whitespace. |
| Load0718.KeepNamed | scripts/clean_recipe_csv_0718.py:205 | Exactly the records with a non-empty name are kept. |
| Load0718.KeepNamedAppend | scripts/clean_recipe_csv_0718.py:205 | The filter keeps order: it distributes over concatenation, and a single record is kept exactly when it is named. |
| Load0718.ParseNamed | scripts/clean_recipe_csv_0718.py:203-205 | Every kept record is named and is some token's record, and every token's named record is kept. An exception is some token's exception. |
| Load0718.Parse0718RaisesOnlyZeroDivision | scripts/clean_recipe_csv_0718.py:74-157 | The 0718 parser's only exception is ZeroDivisionError. |
| Load0718.StructuredIngredients0718 | scripts/clean_recipe_csv_0718.py:192-205 | The 0718 pipeline raises only ZeroDivisionError, and every record it keeps is named. |
| Database.AfterFirst | scripts/create_database.py:54 | `split(sep, 1)[1]` is the text after some occurrence of the separator. |
| Database.ForwardSlashes | scripts/create_database.py:61 | Every backslash becomes '/', and nothing else changes. |
| Database.RelativePath | scripts/create_database.py:46-61 | `convert_to_relative_path`: empty exactly for an empty path. With a `\image\` marker the result is `image/` plus the text after the FIRST such marker, with forward slashes. Otherwise, with a `/image/` marker, it is `image/` plus the text after the first `/image/`, unchanged. With neither marker it is the path with every backslash turned into a forward slash. |
| Database.FirstMarker | scripts/create_database.py:54-57 | `split(marker, 1)[1]` is the text after the first occurrence of the marker. |
| Database.RelativeFixpoint | scripts/create_database.py:59-61 | A path with no marker and no backslash is already relative. |
| Database.RelativeIdempotent | scripts/create_database.py:46-61 | Converting twice changes nothing, unless the first result still holds a marker or was taken after `/image/` with backslashes left in. |
| Database.SlashMarkerKeepsBackslash | scripts/create_database.py:56-58 | After `/image/`, a backslash survives: "/image/a\b" gives "image/a\b". |
| Database.CleanDescription | scripts/create_database.py:291-293 | A cleaned step has no newline, is stripped and single-spaced, and has exactly the words of the step. It is empty exactly when the step is blank. |
| Database.StepRowsFrom | scripts/create_database.py:288-301 | The rows are numbered in increasing order. Blank steps are skipped but still use up their number. |
| Database.StepRowsComplete | scripts/create_database.py:288-290 | No step that has text is lost: its position is some row's number. |
| Database.StepRows | scripts/create_database.py:278-301 | Each row's description is the non-empty cleaned step at its 1-based number in the split on the spaced bar separator. The numbers increase, and empty step text gives no rows. |
| Database.EntryRows | scripts/create_database.py:97-107 | Exactly the named entries give rows, in order. |
| Database.RecipeRows | scripts/create_database.py:87-107 | A recipe without an id gives no row. Every named entry of a recipe with an id gives one. |
| Database.IngredientRows | scripts/create_database.py:87-107 | Every row of the ingredient table has an id and an ingredient. |
| Database.IngredientRowsAppend | scripts/create_database.py:87-107 | The table of two batches is the two tables one after the other. |
| Database.EntryRowsCount | scripts/create_database.py:97-107 | There is one row per named entry. |
| Deletion.DeleteIds | scripts/delete_recipe.py:42-58 | `load_delete_list`: no more ids than lines, and every id is a non-empty digit string. |
| Deletion.KeptLineIsId | scripts/delete_recipe.py:46-53 | A kept line is an all-digit id. |
| Deletion.CommentIsNoId | scripts/delete_recipe.py:48-52 | The comment test changes nothing: a line that starts with '#' fails the digit test anyway. |
| Deletion.DeleteIdsAreIdLines | scripts/delete_recipe.py:45-55 | The list is exactly the stripped all-digit lines, in file order. |
| Deletion.IdLinesComplete | scripts/delete_recipe.py:45-55 | No id line is lost. |
| Deletion.IdLinesSound | scripts/delete_recipe.py:45-55 | Every id is the stripped text of an id line. |
| Deletion.RemainingMeans | scripts/delete_recipe.py:110-112 | The kept recipes are exactly the unlisted ones. |
| Deletion.RemainingPlusListed | scripts/delete_recipe.py:109-113 | Every recipe is kept or listed, never both. |
| Deletion.DeleteFromJson | scripts/delete_recipe.py:99-122 | The deleted count is the number of listed recipes. It is zero exactly when no recipe is listed, which is when the file is left alone. |
| Deletion.RemainingAppend | scripts/delete_recipe.py:110-112 | The filter distributes over concatenation. |
| Deletion.ListedAppend | scripts/delete_recipe.py:110-113 | The count distributes over concatenation. |
| Deletion.DeleteFromCsv | scripts/delete_recipe.py:64-90 | The row loop writes exactly the rows the JSON filter keeps and counts the others. |
| Deletion.ImageOfMeans | scripts/delete_recipe.py:143-158 | A file is an id's image exactly when it matches `{id}_*.{ext}` or `{id}.{ext}` for a listed extension. |
| Deletion.Unmatched | scripts/delete_recipe.py:146-148 | What survives one glob: exactly the names it does not match, in order. |
| Deletion.UnmatchedTwice | scripts/delete_recipe.py:143-170 | Two globs in a row remove the names that either one matches. |
| Deletion.SweepId | scripts/delete_recipe.py:143-170 | For one id, the deleted count plus the survivors is the number of files. The survivors are the files that are not its images. |
| Deletion.DeleteImages | scripts/delete_recipe.py:128-173 | `delete_images`: the count plus the files left is the number of files, and the files left are those no listed id owns. |
| Deletion.DeleteImagesLeaves | scripts/delete_recipe.py:128-173 | No file left belongs to a listed id, and every file that does not is left. |
| Deletion.OwnedByMeans | scripts/delete_recipe.py:139-170 | Ownership is being an image of some listed id. |
| Deletion.OwnerPrefix | scripts/delete_recipe.py:145-158 | A file of an all-digit id starts with that id as its leading digit run. |
| Deletion.ImageOwnerUnique | scripts/delete_recipe.py:139-158 | Two all-digit ids never claim the same file. |
| Documents.BreaksToSpaces | scripts/generate_documents.py:27 | Exactly the four separators become spaces. |
| Documents.CleanFilters | scripts/generate_documents.py:27-33 | The three filters together leave exactly the word characters. |
| Documents.CleanIngredientText | scripts/generate_documents.py:21-34 | `clean_ingredient_text`: non-empty whitespace-free words made only of word characters, which glue back into exactly the word characters of the input. CleanSplitsAt, CleanDropsAt and CleanOfWord fix where the words split. |
| Documents.BreakSplits | scripts/generate_documents.py:21-34 | A separator between two runs of word characters splits them into two words. |
| Documents.CleanSplitsAt | scripts/generate_documents.py:27-33 | A separator or whitespace character cuts the text: the words of `a + [b] + c` are the words of `a` followed by those of `c`. |
| Documents.CleanDropsAt | scripts/generate_documents.py:30-33 | Any other character outside the word set vanishes without cutting: the words of `a + [b] + c` are those of `a + c`. |
| Documents.CleanOfWord | scripts/generate_documents.py:30-33 | A non-empty run of word characters is one word. |
| Documents.CleanOfStrip | scripts/generate_documents.py:51-53 | Cleaning the stripped text gives the same words as cleaning the text. |
| Documents.ItemNames | scripts/generate_documents.py:49-55 | A dict item gives the cleaned words of its name (stripping first changes nothing), a string gives its cleaned words, and anything else gives nothing. |
| Documents.PreviewNames | scripts/generate_documents.py:45-55 | A string preview gives its cleaned words and a list gives its items' names in order. A value that is neither gives nothing. Every name is a non-empty word. |
| Documents.ListNamesAppend | scripts/generate_documents.py:48-55 | The `extend` loop: the names of a list are the names of its parts in order, and a one-item list gives that item's names. |
| Documents.DocumentOf | scripts/generate_documents.py:39-58 | The document keeps the recipe id, and its words are the preview names, single-spaced. |
| Documents.GenerateDocuments | scripts/generate_documents.py:37-59 | One document per recipe, in order, with the recipe's id and exactly its names as words. |
| ExamplesDocuments.DocstringExample | scripts/generate_documents.py:22-25 | The docstring's example: "韭菜* /蒜頭🧄/辣椒🌶️" cleans to 韭菜, 蒜頭 and 辣椒. |
| Extract.PreviewItems | scripts/extract_ingredients_from_json.py:58 | The items are non-empty, stripped, and hold no ',' or '、'. |
| Extract.PreviewItemsKeepText | scripts/extract_ingredients_from_json.py:58 | The items keep every character of the preview except whitespace and the commas. |
| Extract.PreviewItemsOfBlank | scripts/extract_ingredients_from_json.py:57-58 | A preview of only whitespace and commas has no item. |
| Extract.PreviewItemsOfJoin | scripts/extract_ingredients_from_json.py:58 | Non-empty, stripped items without ',' or '、' come back unchanged from their comma-join. |
| Extract.Detailed | scripts/extract_ingredients_from_json.py:61-66 | The first detailed ingredient that contains the item, or "" exactly when none does. |
| Extract.RecipeRows | scripts/extract_ingredients_from_json.py:48-66 | A recipe without an id gives no row. Otherwise there is one row per preview item, in order, each with its detailed match. |
| Extract.RecipeRowsMatch | scripts/extract_ingredients_from_json.py:60-66 | Every row's detailed line is an ingredient that contains the preview item, or empty exactly when no ingredient contains it. |
| Extract.ExtractAll | scripts/extract_ingredients_from_json.py:41-66 | Every row has an id and a preview item. |
| Extract.ExtractAllCount | scripts/extract_ingredients_from_json.py:41-66 | There is one row per preview item of every recipe with an id. |
| Extract.ExtractAllAppend | scripts/extract_ingredients_from_json.py:41-66 | Extracting two batches is extracting each, one after the other. |

## Left out

- File and console I/O is outside the model: reading and writing CSV/JSON, `glob`, `unlink`, `os.replace`, temporary files, `input()` confirmation, and every `print`. The kernels take file contents and file names as parameters.
- The per-file `try/except Exception` wrappers return 0 or [] on any I/O or decoding error. That is an I/O failure, so it is left out.
- Non-string JSON values are not modelled:
  - `pd.isna` and integer ids;
  - a `preview_ingredients` that is not a string in the extractor;
  - `isinstance` checks beyond the string/list/dict cases of `generate_documents`.
- The orchestration is not modelled, because it only sequences the modelled kernels over directories. This covers:
  - `run`, `process_vegetable_folder` and `print_summary` of the deleter (its image counter `self.deleted_images` is never assigned);
  - `create_ingredient_database`, `create_recipe_steps_database`, `run` and `get_available_vegetables` of the database builder;
  - `save_clean_data` and the `main` functions.
- `process_vegetable` copies four columns per row, and its only computation is `convert_to_relative_path` (`Database.RelativePath`). The copy itself is not modelled.
- The `combined_text` and `image_path` fields of the loaders are string formatting of already modelled values, so they are left out.
- `\d`, `str.isdigit` and the digit class are ASCII 0-9 only. Python also accepts other Unicode decimal digits.
- `\w` in the `\b` of the late branch's unit regex is approximated: ASCII letters, digits, '_' and the CJK ideograph blocks.
- Whitespace (`Text.IsSpace`) is the set of characters Python 3 `str.isspace` accepts, written out as a fixed table; it would have to be revised if a later Unicode version added a space character.
- Floats are exact decimals. `repr` is modelled below 1e16 only, where Python does not switch to exponent notation. Binary floating-point error in `round` (values not exactly representable) is not modelled.
- The seasoning loop of the latest late branch (`scripts/clean_recipe_csv_0720.py:363-398`) is not a branch of the model. It is unreachable (`Parse0720Facts.SeasoningLoopUnreachable`): any token starting with a seasoning is caught earlier by the name-anchored fallback, and the "05" repair never changes a '0'-free prefix (`Typography.RepairKeepsZeroFreePrefix`).
- The `\d+/\d+` alternative of the late search (`scripts/clean_recipe_csv_0720.py:326`) can never win, because `[\d\.]+` is tried first at the same start. The model's `Parse0720.AmountSearch` has no such case.
- Scan.NumberEnds: the contracts say which ends are listed (`Scan.NumberEndsMeans`), not the order the engine tries them in. That order comes only from the definition: the longest leading digit run first, and for each run the longer optional parts before the shorter.
- Parse0720.ParseIngredient: values beyond the float range are not modelled. `float(Fraction(a/b))` raises `OverflowError` when a/b exceeds the largest float (a 400-digit numerator over 1, say), and every fraction branch catches only `ValueError` (`scripts/clean_recipe_csv_0720.py:127-130, 255-258, 312-315, 336-339`). The model returns the exact value there, so its "only ZeroDivisionError" ensures holds only for values within the float range. For the same reason `float()` of a huge digit string, which gives `inf`, is modelled as its exact value.
- Parse0720.ParseIngredientAsWritten: its "only ZeroDivisionError" ensures holds only for values within the float range; beyond it the fraction branches raise an uncaught `OverflowError` (`scripts/clean_recipe_csv_0720.py:127-130, 255-258, 312-315, 336-339`).
- Parse0720.Fallbacks: its "only ZeroDivisionError" ensures holds only for values within the float range; beyond it the fallback fraction branches raise an uncaught `OverflowError` (`scripts/clean_recipe_csv_0720.py:255-258, 312-315, 336-339`).
- Parse0720.Special: its "only ZeroDivisionError" ensures holds only for values within the float range; beyond it `float(Fraction(...))` raises an uncaught `OverflowError` (`scripts/clean_recipe_csv_0720.py:312-315`).
- Cascade.Cascade: its "only ZeroDivisionError" ensures holds only for values within the float range; beyond it the fraction pattern raises an uncaught `OverflowError` (`scripts/clean_recipe_csv_0720.py:127-130`).
- Parse0720.LateBranch: the contract states only the exception and the unquantified-name guarantee. The name and unit are pinned down by `LateName` for the finding's token and for text with nothing before the quantity.
- Deletion.DeleteIds: the contract gives bounds and digit ids only. The exact list is stated by `Deletion.DeleteIdsAreIdLines`.
- Deletion.Remaining: the contract gives the length bound only. Its meaning is stated by `Deletion.RemainingMeans` and `Deletion.RemainingPlusListed`.
- Deletion.ImageOfMeans: an image file's extension is matched case-sensitively. On Windows `Path.glob` ignores case, so the source deletes "123.JPG" for id 123 and the model keeps it.
- Lists.CleanIngredients: the contract gives the character facts only. The content is stated by `Lists.CleanIngredientsOfJoin` and `Lists.StarOnlyItem`.

## Findings

| source | as written | input that shows it | evidently intended | confidence | as-written member | corrected member |
|---|---|---|---|---|---|---|
| scripts/clean_recipe_csv_0720.py:355-449 | With nothing before the quantity, `name` starts as the text after the unit word (line 358). The unit test then appends the same words again (line 441). | "2顆 蛋" parses to name "蛋蛋", quantity 2.0, unit 顆 | Name 蛋: the text after the unit is used once | not executed | LateName.DuplicatedName | LateName.CorrectedNameWithinRest |

The list passes take the parser as a parameter, so every guarantee about them holds for the code as written (`Parse0720.ParseIngredientAsWritten`, which is what the repository runs) and for the corrected late branch (`Parse0720.ParseIngredient`) alike: `Passes.ParseIngredientWellBehaved` proves both well behaved. `LateName.EggParsed` shows the two disagree on the token above.
