/** The example of `clean_ingredient_text`'s docstring in
    scripts/generate_documents.py: "韭菜* /蒜頭🧄/辣椒🌶️" cleans to the three
    words 韭菜, 蒜頭 and 辣椒. */
module ExamplesDocuments {
  import opened Text
  import opened Documents

  const Chives: string := "韭菜"
  const Garlic: string := "蒜頭"
  const Chili: string := "辣椒"

  /** 辣椒 and the pepper. */
  const ChiliPepper: string := Chili + "\U{1F336}"

  /** 辣椒 and its emoji, the pepper followed by the emoji variation selector. */
  const ChiliEmoji: string := ChiliPepper + "\U{FE0F}"

  /** What follows the first slash. */
  const Tail: string := Garlic + "\U{1F9C4}" + "/" + ChiliEmoji

  /** What precedes the space. */
  const Head: string := Chives + "*"

  /** What follows the space. */
  const Slashed: string := "/" + Tail

  const Docstring: string := Head + " " + Slashed

  /** Each of the three names is one word. */
  lemma Words3()
    ensures CleanIngredientText(Chives) == [Chives]
    ensures CleanIngredientText(Garlic) == [Garlic]
    ensures CleanIngredientText(Chili) == [Chili]
  {
    CleanOfWord(Chives);
    CleanOfWord(Garlic);
    CleanOfWord(Chili);
  }

  /** A symbol after a word is dropped. */
  lemma ChivesStar()
    ensures CleanIngredientText(Head) == [Chives]
  {
    assert Head == Chives + ['*'] + [];
    assert Chives + [] == Chives;
    CleanDropsAt(Chives, '*', []);
    Words3();
  }

  lemma GarlicEmoji()
    ensures CleanIngredientText(Garlic + "\U{1F9C4}") == [Garlic]
  {
    assert Garlic + "\U{1F9C4}" == Garlic + ['\U{1F9C4}'] + [];
    assert Garlic + [] == Garlic;
    CleanDropsAt(Garlic, '\U{1F9C4}', []);
    Words3();
  }

  /** The pepper emoji is dropped. */
  lemma PepperDropped()
    ensures CleanIngredientText(ChiliPepper) == [Chili]
  {
    assert ChiliPepper == Chili + ['\U{1F336}'] + [];
    assert Chili + [] == Chili;
    CleanDropsAt(Chili, '\U{1F336}', []);
    Words3();
  }

  /** Both characters of the emoji sequence are dropped. */
  lemma ChiliEmojiWord()
    ensures CleanIngredientText(ChiliEmoji) == [Chili]
  {
    assert ChiliEmoji == ChiliPepper + ['\U{FE0F}'] + [];
    assert ChiliPepper + [] == ChiliPepper;
    CleanDropsAt(ChiliPepper, '\U{FE0F}', []);
    PepperDropped();
  }

  /** The second slash cuts 蒜頭 from 辣椒. */
  lemma TailWords()
    ensures CleanIngredientText(Tail) == [Garlic, Chili]
  {
    assert Tail == (Garlic + "\U{1F9C4}") + ['/'] + ChiliEmoji;
    CleanSplitsAt(Garlic + "\U{1F9C4}", '/', ChiliEmoji);
    GarlicEmoji();
    ChiliEmojiWord();
  }

  /** A leading slash cuts off nothing. */
  lemma SlashedWords()
    ensures CleanIngredientText(Slashed) == [Garlic, Chili]
  {
    assert Slashed == [] + ['/'] + Tail;
    CleanSplitsAt([], '/', Tail);
    assert CleanIngredientText([]) == [];
    TailWords();
  }

  /** The docstring's example. */
  lemma DocstringExample()
    ensures CleanIngredientText(Docstring) == ["韭菜", "蒜頭", "辣椒"]
  {
    assert Docstring == Head + [' '] + Slashed;
    CleanSplitsAt(Head, ' ', Slashed);
    ChivesStar();
    SlashedWords();
  }
}
