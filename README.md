# Forgetfulnus model core in Dafny

This project models the in-memory core of Forgetfulnus, a desktop flashcard manager for
German–English vocabulary quizzes:

- **Flashcards** (`FlashCards`): a German/English phrase pair with a difficulty tag, a gender
  tag, free-form tags and a `showingEnglish` display flag. A card's *identity*
  (`isSameFlashCard`) is its phrase pair.
- **The duplicate-free card list** (`UniqueFlashCardList`): the ordered list behind a
  glossary, with the invariant that no two cards share an identity.
- **The address book / glossary** (`AddressBooks.AddressBook`): a class whose `flashCards`
  field is updated in place by add, replace, remove and whole-list reset. The
  "must exist" and "must not already exist" conditions that the wrapped list enforces are
  returned as a failed `Outcome` (`DuplicateFlashCard`, `FlashCardNotFound`). A failure leaves
  the list unchanged.
- **The model facade** (`ModelManagers.ModelManager`): a class holding the glossary, the
  backup glossary taken when a random quiz starts, the stored filter predicate, the
  predicate the shown list applies, the quiz flags and the quiz counters. The shown list is
  the *filtered view* `Filter`: the glossary cards that satisfy the predicate, in glossary order. The counters are
  Java `int`s that wrap around (`JavaInt`). Each method states its whole new state. The
  quiz part is tied to a transition of `QuizSession` (`Quiz() == QuizSession.F(old(Quiz()))`).
  The promises of the `Model` interface are part of these method contracts.
- **The end-of-quiz command** (`EndQuizCommand.Execute`): a loop over the shown list that
  replaces each card by its copy with the English side shown. It then switches quiz mode
  off, sets the index to 0 and re-applies the stored filter.
- **The input parsers** (`ParserUtil`): trim, case-map, validate and wrap the strings of a
  command. They use Java's `trim`, ASCII case mapping and decimal conversion
  (`JavaString`). The validity rules of phrases and tags are predicates held in a `Rules`
  value, as are the two tag prefixes. The results hold for every choice of those rules.

The glossary class `Glossary` used by `ModelManager` is not part of this model.
`AddressBook` has the same shape and stands for it. `UniqueFlashCardList` is not part of this
model either. Its behaviour follows the usual unique-list pattern of this code base:
`contains` is by identity, while `indexOf` and `remove` are by full equality.
`Model` is an interface whose only implementation here is `ModelManager`, so its contracts are
written on `ModelManager`'s methods. `EndQuizCommand` was written against an earlier model
interface that has `updateQuizModeIndex(int)`. That operation is
`ModelManager.UpdateQuizModeIndex`, which sets the index.

Facts about the code worth knowing when reading the model:

- `quizScore <= quizTotalQuestions` is not an invariant: `updateWithCorrectAttempt` never
  checks the total (`QuizSession.ScoreMayExceedTotal`). The bound holds only for callers
  that count every question (`QuizSession.ScoreWithinTotal`).
- `setRandomQuizMode(false)` keeps `backupGlossary` after restoring the glossary from it.
- `EndQuizCommand` reveals only the cards of the shown list and re-applies the *stored*
  predicate, not the show-all one.
- `setQuizMode` does not touch any card, and `setRandomQuizMode` does not shuffle; they
  only reset counters and take or restore the snapshot.
- `resetData` reads the other book's cards through a live view of its list, and the
  wrapped list clears itself before copying from that view. So resetting a book from
  itself, or `setGlossary(getGlossary())`, empties the glossary. `AddressBook.ResetData`
  and `ModelManager.SetGlossary` state that case.

## Model

| member | source | states |
|---|---|---|
| `FlashCards.RevealEnglish` | src/main/java/seedu/address/logic/commands/EndQuizCommand.java:24-25 | the copy with its English side shown keeps the identity, the tags and every other field; it is the card itself when the card already shows English |
| `UniqueFlashCardList.IndexOf` | src/main/java/seedu/address/model/AddressBook.java:77-87 | the position used to replace or remove a card is the first position holding an equal card, and -1 exactly when the card is absent |
| `UniqueFlashCardList.UniqueIndexOf` | src/main/java/seedu/address/model/AddressBook.java:11-14 | in a duplicate-free list, any position holding a card is that card's index |
| `UniqueFlashCardList.UniqueDistinct` | src/main/java/seedu/address/model/AddressBook.java:12-13 | a list with no two cards of one identity holds no card twice |
| `UniqueFlashCardList.AppendUnique` | src/main/java/seedu/address/model/AddressBook.java:69-75 | appending a card of a new identity keeps the list duplicate-free |
| `UniqueFlashCardList.ReplaceUnique` | src/main/java/seedu/address/model/AddressBook.java:78-82 | replacing a card by one of the same identity, or of an identity not yet present, keeps the list duplicate-free |
| `UniqueFlashCardList.RemoveAt` | src/main/java/seedu/address/model/AddressBook.java:93-95 | removal keeps the cards before the position and shifts the ones after it down by one |
| `UniqueFlashCardList.RemoveUnique` | src/main/java/seedu/address/model/AddressBook.java:89-92 | after removing a card from a duplicate-free list, no card of its identity is left and the list stays duplicate-free |
| `ModelManagers.Filter` | src/main/java/seedu/forgetfulnus/model/ModelManager.java:157-161 | the shown list holds exactly the glossary cards the predicate accepts, and is no longer than the glossary |
| `ModelManagers.FilterAppend` | src/main/java/seedu/forgetfulnus/model/ModelManager.java:48 | filtering distributes over concatenation, so the shown list keeps glossary order |
| `ModelManagers.FilterShowAll` | src/main/java/seedu/forgetfulnus/model/Model.java:15 | filtering by the always-true predicate shows the whole glossary |
| `ModelManagers.FilterUnique` | src/main/java/seedu/address/logic/commands/EndQuizCommand.java:20-21 | the shown list of a duplicate-free glossary is duplicate-free |
| `AddressBooks.ListHash` | src/main/java/seedu/address/model/AddressBook.java:118-120 | the list hash is a Java `int` and is 1 for the empty list |
| `AddressBooks.AddressBook.constructor` | src/main/java/seedu/address/model/AddressBook.java:26-30 | a new address book is empty and valid |
| `AddressBooks.AddressBook.Copy` | src/main/java/seedu/address/model/AddressBook.java:35-38 | the copy holds exactly the cards of the original |
| `AddressBooks.AddressBook.SetFlashCards` | src/main/java/seedu/address/model/AddressBook.java:42-48 | a duplicate-free input replaces the list; an input with two cards of one identity fails with `DuplicateFlashCard` and changes nothing |
| `AddressBooks.AddressBook.ResetData` | src/main/java/seedu/address/model/AddressBook.java:53-57 | the list becomes the list of the other address book, and becomes empty when the other book is this one |
| `AddressBooks.AddressBook.HasFlashCard` | src/main/java/seedu/address/model/AddressBook.java:61-67 | true exactly when some card has the identity of the argument; every member card is found |
| `AddressBooks.AddressBook.AddFlashCard` | src/main/java/seedu/address/model/AddressBook.java:69-75 | an absent card is appended and the existing cards are unchanged; a present identity fails with `DuplicateFlashCard`; afterwards the card's identity is present |
| `AddressBooks.AddressBook.SetFlashCard` | src/main/java/seedu/address/model/AddressBook.java:77-87 | the target must be present and the edit must not collide with another card; then only the target's position changes, to the edited card; otherwise the matching error and no change |
| `AddressBooks.AddressBook.RemoveFlashCard` | src/main/java/seedu/address/model/AddressBook.java:89-95 | a present key is removed, the others keep their relative order and its identity is gone; an absent key fails with `FlashCardNotFound` and changes nothing |
| `AddressBooks.AddressBook.ToString` | src/main/java/seedu/address/model/AddressBook.java:99-103 | the text is the decimal number of cards followed by `" flashCards"`, and the digits read back as the size |
| `AddressBooks.AddressBook.Equals` | src/main/java/seedu/address/model/AddressBook.java:110-115 | two address books are equal exactly when their card lists are |
| `AddressBooks.AddressBook.HashCode` | src/main/java/seedu/address/model/AddressBook.java:117-120 | the hash code is the Java `int` hash of the card list |
| `AddressBooks.HashCodeConsistent` | src/main/java/seedu/address/model/AddressBook.java:111-120 | equal address books have equal hash codes |
| `JavaInt.Wrap` | src/main/java/seedu/forgetfulnus/model/ModelManager.java:31-35 | the `int` value differs from the mathematical one by a multiple of 2^32 and is the value itself when it fits |
| `JavaInt.Increment` | src/main/java/seedu/forgetfulnus/model/ModelManager.java:171-172 | `x++` on an `int` is the wrapped `x + 1`, and `x + 1` below the maximum |
| `JavaInt.IncrementWrap` | src/main/java/seedu/forgetfulnus/model/ModelManager.java:170-173 | incrementing the wrapped `n` gives the wrapped `n + 1` |
| `QuizSession.SetQuizMode` | src/main/java/seedu/forgetfulnus/model/Model.java:105-109 | the flag becomes the argument; starting zeroes index, score and total; ending keeps all three |
| `QuizSession.SetRandomQuizMode` | src/main/java/seedu/forgetfulnus/model/Model.java:117 | the random flag becomes the argument; leaving random mode sets the index to 0; score and total are kept |
| `QuizSession.IncrementQuizModeIndex` | src/main/java/seedu/forgetfulnus/model/Model.java:94-97 | index and total each go up by one (as `int`s); score and flags are kept |
| `QuizSession.UpdateWithCorrectAttempt` | src/main/java/seedu/forgetfulnus/model/Model.java:121-124 | the score goes up by one and nothing else changes |
| `QuizSession.ResetQuiz` | src/main/java/seedu/forgetfulnus/model/Model.java:138-141 | index, score and total become 0; both flags are kept |
| `QuizSession.UpdateQuizModeIndex` | src/main/java/seedu/address/logic/commands/EndQuizCommand.java:29 | the index becomes the argument and nothing else changes |
| `QuizSession.StartThenIncrement` | src/main/java/seedu/forgetfulnus/model/ModelManager.java:181-188 | after starting a quiz and N increments, index and total both equal N (wrapped) and the score is 0 |
| `QuizSession.QuizTally` | src/main/java/seedu/forgetfulnus/model/ModelManager.java:170-173 | a quiz of N questions with M correct answers ends with total and index N and score M (wrapped) |
| `QuizSession.ScoreWithinTotal` | src/main/java/seedu/forgetfulnus/model/ModelManager.java:213-215 | when every question is counted and no counter wraps, score never exceeds total |
| `QuizSession.ScoreMayExceedTotal` | src/main/java/seedu/forgetfulnus/model/ModelManager.java:212-215 | a correct attempt recorded right after the quiz starts gives score 1 with total 0, so score <= total is not an invariant of the state |
| `QuizSession.CreditAndCountCommute` | src/main/java/seedu/forgetfulnus/model/Model.java:94-124 | crediting a correct answer and counting a question commute |
| `QuizSession.ResetIsRestart` | src/main/java/seedu/forgetfulnus/model/ModelManager.java:136-144 | during a quiz, resetting equals starting the quiz again |
| `QuizSession.CountCorrect` | src/main/java/seedu/forgetfulnus/model/ModelManager.java:213-214 | the number of correct answers is at most the number of answers |
| `ModelManagers.ModelManager.constructor` | src/main/java/seedu/forgetfulnus/model/ModelManager.java:40-49 | a fresh glossary copy, every card shown, no backup, quiz off and counters 0 |
| `ModelManagers.ModelManager.FilteredFlashCardList` | src/main/java/seedu/forgetfulnus/model/ModelManager.java:151-154 | the shown list is the glossary filtered by the stored predicate: the filtered list's own predicate always equals the stored one |
| `ModelManagers.ModelManager.SetGlossary` | src/main/java/seedu/forgetfulnus/model/ModelManager.java:92-95 | the glossary holds the cards of the argument, or none when the argument is the glossary itself; backup, filter and quiz state are unchanged |
| `ModelManagers.ModelManager.HasFlashCard` | src/main/java/seedu/forgetfulnus/model/Model.java:55-58 | true exactly when some glossary card has the argument's identity |
| `ModelManagers.ModelManager.DeleteFlashCard` | src/main/java/seedu/forgetfulnus/model/Model.java:60-64 | the target must be in the glossary; it is removed, others keep their order, its identity is gone; the predicate and quiz state are unchanged |
| `ModelManagers.ModelManager.AddFlashCard` | src/main/java/seedu/forgetfulnus/model/ModelManager.java:113-117 | a card of a new identity is appended, the stored predicate becomes show-all and the new card is shown; a duplicate fails and changes nothing; the quiz state is unchanged |
| `ModelManagers.ModelManager.SetFlashCard` | src/main/java/seedu/forgetfulnus/model/Model.java:72-78 | the target must exist and the edit must not take another card's identity; the target's position gets the edited card; the predicate and quiz state are unchanged |
| `ModelManagers.ModelManager.UpdateFilteredPhraseList` | src/main/java/seedu/forgetfulnus/model/ModelManager.java:156-161 | the predicate is stored and the shown list becomes the glossary cards it accepts, in order |
| `ModelManagers.ModelManager.ReapplyFilteredPhraseList` | src/main/java/seedu/forgetfulnus/model/Model.java:89-92 | the shown list is filtered by the predicate already held; nothing changes, including the stored predicate |
| `ModelManagers.ModelManager.IncrementQuizModeIndex` | src/main/java/seedu/forgetfulnus/model/ModelManager.java:169-173 | index and total go up by one each; score, flags, glossary, backup and filter are unchanged |
| `ModelManagers.ModelManager.UpdateQuizModeIndex` | src/main/java/seedu/address/logic/commands/EndQuizCommand.java:29-30 | the index is set to the argument; nothing else changes |
| `ModelManagers.ModelManager.SetQuizMode` | src/main/java/seedu/forgetfulnus/model/ModelManager.java:180-188 | afterwards `isQuizMode` is the argument; `true` zeroes index, score and total, `false` keeps them; glossary and filter unchanged |
| `ModelManagers.ModelManager.UpdateWithCorrectAttempt` | src/main/java/seedu/forgetfulnus/model/ModelManager.java:212-215 | only the score changes, by one |
| `ModelManagers.ModelManager.ResetQuiz` | src/main/java/seedu/forgetfulnus/model/ModelManager.java:139-144 | score, total and index become 0; both flags, glossary and filter unchanged |
| `ModelManagers.ModelManager.SetRandomQuizMode` | src/main/java/seedu/forgetfulnus/model/ModelManager.java:195-205 | entering snapshots the glossary into a fresh backup; leaving (backup required) restores the glossary from the backup, sets the index to 0 and shows every card |
| `ModelManagers.ModelManager.Equals` | src/main/java/seedu/forgetfulnus/model/ModelManager.java:217-234 | equal exactly when glossary cards, user prefs and shown lists are equal; quiz flags and counters play no part |
| `ModelManagers.RandomQuizRoundTrip` | src/main/java/seedu/forgetfulnus/model/ModelManager.java:196-204 | after entering random mode, adding, filtering, deleting and scoring, leaving random mode restores the glossary as it was on entry, with index 0 and every card shown |
| `EndQuizCommand.Execute` | src/main/java/seedu/address/logic/commands/EndQuizCommand.java:17-32 | never fails and returns "Quiz ended!"; each shown card is replaced in place by its English-showing copy, other cards, the length and all identities are kept; quiz mode off, index 0, score and total kept, stored predicate re-applied |
| `EndQuizCommand.RevealStep` | src/main/java/seedu/address/logic/commands/EndQuizCommand.java:22-26 | each iteration's target is still in the glossary unrevealed, and replacing it at its index reveals exactly one more shown card |
| `EndQuizCommand.RevealedAll` | src/main/java/seedu/address/logic/commands/EndQuizCommand.java:22-27 | once the loop is done, every shown card is in the glossary with its English side shown and every position keeps its identity |
| `JavaString.Trim` | src/main/java/seedu/forgetfulnus/logic/parser/ParserUtil.java:37 | the result is the infix of the input left after removing every leading and trailing character <= U+0020, and starts and ends with a kept character |
| `JavaString.TrimIdempotent` | src/main/java/seedu/forgetfulnus/logic/parser/ParserUtil.java:72 | trimming twice is trimming once |
| `JavaString.TrimPadded` | src/main/java/seedu/forgetfulnus/logic/parser/ParserUtil.java:36-37 | blanks around a trimmed string are removed exactly |
| `JavaString.ToLower` | src/main/java/seedu/forgetfulnus/logic/parser/ParserUtil.java:52 | same length, each character mapped to lower case |
| `JavaString.ToUpper` | src/main/java/seedu/forgetfulnus/logic/parser/ParserUtil.java:124 | same length, each character mapped to upper case |
| `JavaString.ToLowerIdempotent` | src/main/java/seedu/forgetfulnus/logic/parser/ParserUtil.java:61 | lower-casing twice is lower-casing once |
| `JavaString.TrimToLowerCommute` | src/main/java/seedu/forgetfulnus/logic/parser/ParserUtil.java:52-53 | trimming and lower-casing commute |
| `JavaString.DecimalString` | src/main/java/seedu/address/model/AddressBook.java:101 | the decimal form of a size is a non-empty digit string with no leading zero |
| `JavaString.DecimalRoundTrip` | src/main/java/seedu/forgetfulnus/logic/parser/ParserUtil.java:41 | reading back the decimal form of n gives n |
| `ParserUtil.ParseIndex` | src/main/java/seedu/forgetfulnus/logic/parser/ParserUtil.java:36-42 | accepted exactly when the trimmed input is a non-zero unsigned integer; then the one-based index equals that integer; otherwise the invalid-index error |
| `ParserUtil.ParseIndexOfDecimal` | src/main/java/seedu/forgetfulnus/logic/parser/ParserUtil.java:31-42 | every positive `int` written in decimal, with any blanks around it, parses to the index of that number |
| `ParserUtil.ParseSortParams` | src/main/java/seedu/forgetfulnus/logic/parser/ParserUtil.java:51-62 | accepted exactly when the lower-cased trimmed input is one of the eight keywords, and then returns that normalised form; otherwise the error names the input |
| `ParserUtil.ParseSortParamsIdempotent` | src/main/java/seedu/forgetfulnus/logic/parser/ParserUtil.java:44-62 | feeding the returned keyword back in returns the same keyword |
| `ParserUtil.ParseGermanPhrase` | src/main/java/seedu/forgetfulnus/logic/parser/ParserUtil.java:70-77 | wraps the trimmed input exactly when the German-phrase rule accepts it; otherwise the German-phrase error |
| `ParserUtil.ParseEnglishPhrase` | src/main/java/seedu/forgetfulnus/logic/parser/ParserUtil.java:85-92 | wraps the trimmed input exactly when the English-phrase rule accepts it; otherwise the English-phrase error |
| `ParserUtil.ParseTag` | src/main/java/seedu/forgetfulnus/logic/parser/ParserUtil.java:142-149 | a tag named by the trimmed input exactly when the tag-name rule accepts it; otherwise the tag error |
| `ParserUtil.ParsedTextReparses` | src/main/java/seedu/forgetfulnus/logic/parser/ParserUtil.java:64-92 | a parsed phrase or tag name parses again to itself |
| `ParserUtil.ParsePredefinedTag` | src/main/java/seedu/forgetfulnus/logic/parser/ParserUtil.java:116-134 | difficulty prefix: a difficulty tag of the upper-cased trimmed input exactly when the difficulty rule accepts the trimmed input; gender prefix: the same for gender; any other prefix: the prefix error; an accepted tag has no lower-case letter |
| `ParserUtil.IndexErrorMessage` | src/main/java/seedu/forgetfulnus/logic/parser/ParserUtil.java:36-40 | a rejected index carries the text "Index is not a non-zero unsigned integer." |
| `ParserUtil.SortErrorMessage` | src/main/java/seedu/forgetfulnus/logic/parser/ParserUtil.java:58-60 | a rejected sort parameter carries " <input> is not a valid sort parameter.", naming the untrimmed input |
| `ParserUtil.PrefixErrorMessage` | src/main/java/seedu/forgetfulnus/logic/parser/ParserUtil.java:131-133 | a prefix that is neither tag prefix carries " <prefix> is not a valid prefix parameter." |
| `ParserUtil.ParseTags` | src/main/java/seedu/forgetfulnus/logic/parser/ParserUtil.java:151-161 | fails exactly when some name is invalid; otherwise the set of tags of the trimmed names, so no names give the empty set and repeated names give one tag |

## Left out

- The `Model` interface is not written as a separate Dafny type. Its contracts belong to the methods of `ModelManager`, its only implementation here.
- User prefs, GUI settings and the glossary file path (`ModelManager.java:57-88`) are one opaque `UserPrefs` value that the constructor stores and `Equals` compares. `setUserPrefs`, `setGuiSettings` and `setGlossaryFilePath` are not modelled, because they only pass values through.
- The no-argument `ModelManager()` constructor is not modelled, because the default `UserPrefs` value is not part of this model.
- Accessors that return a field (`getGlossary`, `getQuizScore`, `getQuizTotalQuestions`, `getQuizModeIndex`, `isQuizMode`, `isRandomQuizMode`, `getUserPrefs`) are reads of the class's fields or of `Cards()`.
- Logging and `requireNonNull` checks are not modelled, because Dafny references are never null.
- The JavaFX observable and filtered lists are not modelled. The shown list is the function `FilteredFlashCardList`, recomputed from the glossary each time it is read.
- `EndQuizCommand.Execute` iterates over the shown list as it was when the loop started. The live list could drop a replaced card if the predicate depended on `showingEnglish`; that effect, and the iterator's concurrent-modification checks, are not modelled.
- `ModelManagers.ModelManager.SetRandomQuizMode`: leaving random mode requires an earlier backup. Without one, the source throws a null-pointer exception after it has already cleared the random flag and the index. That failure path is not modelled.
- `JavaString.ToLower` and `JavaString.ToUpper` map only the ASCII letters. Java's full Unicode and locale-dependent case mapping is not modelled.
- `ParserUtil.IsNonZeroUnsignedInteger`: the body of `StringUtil.isNonZeroUnsignedInteger` is not part of this model, so this predicate gives it the meaning its name and `Integer.parseInt` imply: ASCII digits with value 1..2^31-1. Non-ASCII Unicode digits, which `parseInt` also accepts, are not modelled.
- The bodies of `GermanPhrase.isValidGermanPhrase`, `EnglishPhrase.isValidEnglishPhrase`, `DifficultyTag.isValidDifficultyTag`, `GenderTag.isValidGenderTag` and `Tag.isValidTagName` are not part of this model. They are arbitrary predicates in `Rules`. `CliSyntax` is not part of this model either, so the two tag prefixes are `Rules` fields. The constraint messages of those classes are not modelled; each is an error constructor instead.
- `ParserUtil.Message` assumes a prefix prints as its own text. The constraint messages of the phrase and tag classes are not part of this model, so `Message` covers only the three texts `ParserUtil` defines.
- The normalisation of phrases in `isSameFlashCard` is not modelled. Identity is equality of the phrase pair. The proofs use only the fact that identity is equality of a key.
- `FlashCard` and `FlashCard.copy` are not part of this model. A copy with its English side shown is the same value with `showingEnglish` set.
- `FlashCard.hashCode` is not part of this model. `AddressBook.HashCode` takes the per-card hash as a parameter.
- File storage (`Storage.java`) and random shuffling are not modelled. Any reordering between entering and leaving random mode is an arbitrary glossary change.
- `AddressBooks.AddressBook.ResetData`: the emptying of a book reset from itself is inferred from the usual unique-list pattern (`setAll` clears, then copies from the live view); `UniqueFlashCardList.java` is not part of this model.
- `ModelManagers.ModelManager.UpdateQuizModeIndex` is the earlier interface's `updateQuizModeIndex(int)`. Its body is not part of this model, so it is taken to set the index and nothing else.
