/** The closed word lists the parsers consult, and longest-prefix / longest-suffix
    lookup in them. */
module Lexicon {
  import opened Wrappers
  import opened Text

  /** The reference seasoning names. */
  const Seasonings: seq<string> := [
    "白胡椒粉", "黑胡椒粉", "白胡椒鹽", "胡椒粉", "胡椒鹽", "鹽巴", "鹽", "砂糖", "糖",
    "冰糖", "醬油", "味醂", "米酒", "香油", "麻油", "蠔油", "辣椒醬", "豆瓣醬", "辣椒粉",
    "五香粉", "八角粉", "回香粉", "花椒粉", "孜然粉", "咖哩粉", "番茄醬", "烏醋", "醋",
    "味噌", "雞粉", "雞精", "高湯粉", "味精"]

  /** Solid ingredients of the latest revision. */
  const Solids: seq<string> := ["米", "糖", "鹽巴", "鹽", "白胡椒粉"]

  /** Solid ingredients of the two earlier revisions. */
  const EarlySolids: seq<string> := ["米", "糖", "鹽巴", "鹽"]

  const Liquids: seq<string> := ["水", "醬油", "油", "高湯", "米酒", "香油"]

  /** Names a token may start with in the reference-name fallback. */
  const ReferenceNames: seq<string> := Seasonings + Solids + Liquids

  /** The four vague quantity words of the fallbacks and the list passes. */
  const Vague: seq<string> := ["少許", "適量", "隨意", "依喜好"]

  /** Vague words accepted after whitespace. */
  const SpacedVague: seq<string> :=
    ["少許", "適量", "隨意", "依喜好", "小撮", "一撮", "一點", "些許", "少量"]

  /** Vague words accepted as a bare suffix. */
  const SuffixVague: seq<string> := ["少許", "適量", "隨意", "依喜好", "些許", "少量"]

  /** Measure words that make a Chinese numeral a quantity. */
  const Measures: seq<string> := [
    "把", "根", "片", "顆", "個", "條", "支", "束", "小撮", "大撮", "撮", "塊", "杯",
    "匙", "茶匙", "碗", "斤", "兩", "滴", "份", "瓶", "包", "罐", "籃", "粒", "盒"]

  /** Units recognised in the text after a quantity. */
  const Units: seq<string> := [
    "杯", "小匙", "大匙", "克", "毫升", "個", "顆", "片", "段", "碗", "包", "把",
    "小把", "米杯", "根", "邊", "g", "ml", "kg", "l"]

  /** The Chinese numerals of the numeral-run searches (`[一二兩三四五六七八九半]`). */
  predicate IsNumeral(c: char)
  {
    c in "一二兩三四五六七八九半"
  }

  /** The Chinese numerals of the numeral-plus-measure pattern (`一|…|九|十|半`). */
  predicate IsCountNumeral(c: char)
  {
    c in "一二三四五六七八九十半"
  }

  /** The Chinese numerals one to ten in counting order. */
  const Ordinals: string := "一二三四五六七八九十"

  /** The value of a Chinese numeral in the measure pattern: `Some(n)` for a whole
      number, `None` for 半 (one half). */
  function CountValue(c: char): (r: Option<nat>)
    requires IsCountNumeral(c)
    ensures r.None? <==> c == '半'
    ensures forall j | 0 <= j < |Ordinals| :: c == Ordinals[j] ==> r == Some(j + 1)
  {
    match c
    case '一' => Some(1)
    case '二' => Some(2)
    case '三' => Some(3)
    case '四' => Some(4)
    case '五' => Some(5)
    case '六' => Some(6)
    case '七' => Some(7)
    case '八' => Some(8)
    case '九' => Some(9)
    case '十' => Some(10)
    case _ => None
  }

  /** The value of a Chinese numeral in the run searches: `Some(n)` for a whole
      number (兩 is 2), `None` for 半. */
  function NumeralValue(c: char): (r: Option<nat>)
    requires IsNumeral(c)
    ensures r.None? <==> c == '半'
    ensures c == '兩' ==> r == Some(2)
    ensures forall j | 0 <= j < 9 :: c == Ordinals[j] ==> r == Some(j + 1)
  {
    if c == '兩' then Some(2) else CountValue(c)
  }

  /** The longest name in `names` that `s` starts with. This is what taking the
      first match in the list sorted by decreasing length yields, whatever the
      order among names of equal length. */
  function LongestPrefix(names: seq<string>, s: string): (r: Option<string>)
    ensures r.Some? ==> r.value in names && StartsWith(s, r.value)
    ensures r.Some? ==> forall n | n in names && StartsWith(s, n) :: |n| <= |r.value|
    ensures r.None? <==> forall n | n in names :: !StartsWith(s, n)
  {
    if names == [] then None
    else
      var rest := LongestPrefix(names[1..], s);
      assert forall n | n in names[1..] :: n in names;
      assert forall n | n in names :: n == names[0] || n in names[1..];
      if StartsWith(s, names[0]) && (rest.None? || |names[0]| >= |rest.value|) then Some(names[0])
      else rest
  }

  /** A name that starts the text and is at least as long as every other name
      that does is the one `LongestPrefix` reports. */
  lemma LongestPrefixIs(names: seq<string>, s: string, n: string)
    requires n in names && StartsWith(s, n)
    requires forall m | m in names && StartsWith(s, m) :: |m| <= |n|
    ensures LongestPrefix(names, s) == Some(n)
  {
    var r := LongestPrefix(names, s);
    assert r.Some?;
    assert |r.value| == |n|;
    assert r.value == s[..|n|] == n;
  }

  /** The longest name in `names` that `s` ends with. */
  function LongestSuffix(names: seq<string>, s: string): (r: Option<string>)
    ensures r.Some? ==> r.value in names && EndsWith(s, r.value)
    ensures r.Some? ==> forall n | n in names && EndsWith(s, n) :: |n| <= |r.value|
    ensures r.None? <==> forall n | n in names :: !EndsWith(s, n)
  {
    if names == [] then None
    else
      var rest := LongestSuffix(names[1..], s);
      assert forall n | n in names[1..] :: n in names;
      assert forall n | n in names :: n == names[0] || n in names[1..];
      if EndsWith(s, names[0]) && (rest.None? || |names[0]| >= |rest.value|) then Some(names[0])
      else rest
  }

  /** Index of the first word of `words` that `s` ends with, or -1 (the list order
      matters: Python scans it front to back and stops at the first hit). */
  function FirstSuffix(words: seq<string>, s: string): (k: int)
    ensures -1 <= k < |words|
    ensures k >= 0 ==> EndsWith(s, words[k]) && forall j | 0 <= j < k :: !EndsWith(s, words[j])
    ensures k == -1 <==> forall j | 0 <= j < |words| :: !EndsWith(s, words[j])
  {
    if words == [] then -1
    else if EndsWith(s, words[0]) then 0
    else
      var k := FirstSuffix(words[1..], s);
      assert forall j | 1 <= j < |words| :: words[j] == words[1..][j - 1];
      if k < 0 then -1 else k + 1
  }

  /** The first word that ends the text is the one `FirstSuffix` reports. */
  lemma FirstSuffixIsFirst(words: seq<string>, s: string)
    ensures forall j | 0 <= j < |words| && EndsWith(s, words[j]) && (forall i | 0 <= i < j :: !EndsWith(s, words[i])) ::
              FirstSuffix(words, s) == j
  {
  }

  /** The first characters of the reference names. */
  const ReferenceInitials: string := "白黑胡鹽砂糖冰醬味米香麻蠔辣豆五八回花孜咖番烏醋雞高水油"

  lemma ReferenceInitialsCover()
    ensures forall n | n in ReferenceNames :: |n| > 0 && n[0] in ReferenceInitials
  {
    assert forall i | 0 <= i < |Seasonings| :: |Seasonings[i]| > 0 && Seasonings[i][0] in ReferenceInitials;
    assert forall i | 0 <= i < |Solids| :: |Solids[i]| > 0 && Solids[i][0] in ReferenceInitials;
    assert forall i | 0 <= i < |Liquids| :: |Liquids[i]| > 0 && Liquids[i][0] in ReferenceInitials;
    var names := ReferenceNames;
    assert forall n | n in names :: n in Seasonings || n in Solids || n in Liquids;
  }

  /** A token whose first character starts no reference name has no reference
      prefix. */
  lemma NoReferencePrefix(w: string)
    requires |w| == 0 || w[0] !in ReferenceInitials
    ensures LongestPrefix(ReferenceNames, w).None?
  {
    NoReferenceStart(w);
  }

  lemma NoReferenceStart(w: string)
    requires |w| == 0 || w[0] !in ReferenceInitials
    ensures forall n | n in ReferenceNames :: !StartsWith(w, n)
  {
    ReferenceInitialsCover();
    NoInitialNoStart(ReferenceNames, ReferenceInitials, w);
  }

  lemma NoInitialNoStart(names: seq<string>, initials: string, w: string)
    requires forall n | n in names :: |n| > 0 && n[0] in initials
    requires |w| == 0 || w[0] !in initials
    ensures forall n | n in names :: !StartsWith(w, n)
  {
    forall n | n in names ensures !StartsWith(w, n) {
    }
  }

  /** The four vague words, spelled out. */
  lemma VagueWords(w: string)
    requires w in Vague
    ensures w == "少許" || w == "適量" || w == "隨意" || w == "依喜好"
  {
  }

  /** A token starting with a vague word has no reference-name prefix. */
  lemma VagueNotReference(w: string)
    requires exists v | v in Vague :: StartsWith(w, v)
    ensures forall n | n in ReferenceNames :: !StartsWith(w, n)
  {
    var v :| v in Vague && StartsWith(w, v);
    VagueWords(v);
    VagueInitial(v);
    assert w[0] == v[0];
    NoReferenceStart(w);
  }

  lemma VagueInitial(w: string)
    requires w == "少許" || w == "適量" || w == "隨意" || w == "依喜好"
    ensures |w| > 0 && w[0] !in ReferenceInitials
  {
  }

  /** A vague word holds no digit, point, numeral or whitespace. */
  lemma VagueChars(w: string)
    requires w in Vague
    ensures forall k | 0 <= k < |w| :: !IsDigit(w[k]) && w[k] != '.' && !IsNumeral(w[k]) && !IsCountNumeral(w[k]) && !IsSpace(w[k])
    ensures forall j | 1 <= j < |w| :: w[j..] !in SuffixVague
  {
    VagueWords(w);
  }
}
