/** The flashcard entity: a German/English phrase pair with its tags and display flag. */
module FlashCards {

  datatype GermanPhrase = GermanPhrase(phrase: string)

  datatype EnglishPhrase = EnglishPhrase(phrase: string)

  /** A free-form label; two tags are equal when their names are. */
  datatype Tag = Tag(tagName: string)

  /** The two closed-set tags a card carries. */
  datatype PredefinedTag = DifficultyTag(difficulty: string) | GenderTag(gender: string)

  /** The tag a card carries in its difficulty slot. */
  type Difficulty = t: PredefinedTag | t.DifficultyTag? witness DifficultyTag("")

  /** The tag a card carries in its gender slot. */
  type Gender = t: PredefinedTag | t.GenderTag? witness GenderTag("")

  datatype FlashCard = FlashCard(
    germanPhrase: GermanPhrase,
    englishPhrase: EnglishPhrase,
    difficultyTag: Difficulty,
    genderTag: Gender,
    tags: set<Tag>,
    showingEnglish: bool)

  /** The de-duplication key of a card: its phrase pair only. */
  function Identity(c: FlashCard): (GermanPhrase, EnglishPhrase) {
    (c.germanPhrase, c.englishPhrase)
  }

  /** `isSameFlashCard`: the weaker notion of equality used for duplicate detection. */
  predicate SameFlashCard(a: FlashCard, b: FlashCard) {
    Identity(a) == Identity(b)
  }

  /**
   * `toEdit.copy()` followed by `updateShowingEnglish(true)`: the same card (so the same
   * identity and tags) with its English side shown.
   */
  function RevealEnglish(c: FlashCard): (r: FlashCard)
    ensures SameFlashCard(r, c) && r.showingEnglish
    ensures r.tags == c.tags && r.difficultyTag == c.difficultyTag && r.genderTag == c.genderTag
    ensures c.showingEnglish ==> r == c
  {
    c.(showingEnglish := true)
  }
}
