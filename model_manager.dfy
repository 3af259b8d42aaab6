/**
 * `ModelManager`, the in-memory model: a glossary, a backup glossary taken when a random
 * quiz starts, the filter behind the shown list, and the quiz flags and counters.
 * The contracts of its methods also carry the promises of the `Model` interface it implements.
 */
module ModelManagers {
  import opened FlashCards
  import opened UniqueFlashCardList
  import opened AddressBooks
  import opened QuizSession
  import JavaInt

  datatype Option<T> = None | Some(value: T)

  /** User preferences (GUI settings, glossary file path): passed through, never inspected. */
  datatype UserPrefs = UserPrefs(guiSettings: string, glossaryFilePath: string)

  /** `PREDICATE_SHOW_ALL_FLASHCARDS`: the predicate that holds of every card. */
  const ShowAll: FlashCard -> bool := (c: FlashCard) => true

  /** The cards of `cards` that satisfy `p`, in their order in `cards`. */
  function Filter(cards: seq<FlashCard>, p: FlashCard -> bool): (r: seq<FlashCard>)
    ensures |r| <= |cards|
    ensures forall c :: c in r <==> c in cards && p(c)
    decreases |cards|
  {
    if |cards| == 0 then []
    else if p(cards[|cards| - 1]) then Filter(cards[..|cards| - 1], p) + [cards[|cards| - 1]]
    else Filter(cards[..|cards| - 1], p)
  }

  /** Filtering distributes over concatenation: the filtered view keeps glossary order. */
  lemma {:induction false} FilterAppend(s: seq<FlashCard>, t: seq<FlashCard>, p: FlashCard -> bool)
    ensures Filter(s + t, p) == Filter(s, p) + Filter(t, p)
    decreases |t|
  {
    if |t| == 0 {
      assert s + t == s;
    } else {
      var u, init, last := s + t, t[..|t| - 1], t[|t| - 1];
      assert u[..|u| - 1] == s + init;
      assert u[|u| - 1] == last;
      FilterAppend(s, init, p);
      if p(last) {
        calc {
          Filter(u, p);
          Filter(s + init, p) + [last];
          Filter(s, p) + Filter(init, p) + [last];
          Filter(s, p) + (Filter(init, p) + [last]);
        }
      }
    }
  }

  /** Filtering by `PREDICATE_SHOW_ALL_FLASHCARDS` shows the whole list. */
  lemma {:induction false} FilterShowAll(cards: seq<FlashCard>)
    ensures Filter(cards, ShowAll) == cards
    decreases |cards|
  {
    if |cards| > 0 {
      var init, last := cards[..|cards| - 1], cards[|cards| - 1];
      FilterShowAll(init);
      assert ShowAll(last);
      assert Filter(cards, ShowAll) == Filter(init, ShowAll) + [last];
      assert init + [last] == cards;
    }
  }

  /** The filtered view of a duplicate-free list is itself duplicate-free. */
  lemma {:induction false} FilterUnique(cards: seq<FlashCard>, p: FlashCard -> bool)
    requires Unique(cards)
    ensures Unique(Filter(cards, p))
    decreases |cards|
  {
    if |cards| > 0 {
      var init, last := cards[..|cards| - 1], cards[|cards| - 1];
      FilterUnique(init, p);
      if p(last) {
        var f := Filter(init, p);
        forall i | 0 <= i < |f| ensures !SameFlashCard(f[i], last) {
          assert f[i] in init;
          var j :| 0 <= j < |init| && init[j] == f[i];
          assert cards[j] == f[i];
        }
        assert !Contains(f, last);
        AppendUnique(f, last);
      }
    }
  }

  class ModelManager {
    /** The glossary; the object is created once and then changed only in place. */
    const glossary: AddressBook
    /** The copy of the glossary taken by `setRandomQuizMode(true)`; `null` before the first one. */
    var backupGlossary: AddressBook?
    const userPrefs: UserPrefs
    /** The predicate field that the parameterless refresh re-applies. */
    var storedPredicate: FlashCard -> bool
    /** The predicate the filtered list currently applies. */
    var viewPredicate: FlashCard -> bool

    var isQuizMode: bool
    var quizModeIndex: int
    var isRandomQuiz: bool
    var quizScore: int
    var quizTotalQuestions: int

    ghost predicate Valid()
      reads this, glossary, backupGlossary
    {
      && glossary.Valid()
      && (backupGlossary != null ==> backupGlossary != glossary && backupGlossary.Valid())
      && viewPredicate == storedPredicate
      && QuizSession.Valid(Quiz())
    }

    /** The quiz flags and counters as one value. */
    function Quiz(): QuizState
      reads this
    {
      QuizState(isQuizMode, isRandomQuiz, quizModeIndex, quizScore, quizTotalQuestions)
    }

    /** The cards of the glossary, in order. */
    function Cards(): seq<FlashCard>
      reads this, glossary
    {
      glossary.flashCards
    }

    /** The cards of the backup glossary, if there is one. */
    function Snapshot(): Option<seq<FlashCard>>
      reads this, backupGlossary
    {
      if backupGlossary == null then None else Some(backupGlossary.flashCards)
    }

    /**
     * `getFilteredFlashCardList`: the shown list, a live view of the glossary through the
     * filter's predicate — exactly the glossary cards the stored predicate accepts, in order.
     */
    function FilteredFlashCardList(): (shown: seq<FlashCard>)
      requires Valid()
      reads this, glossary, backupGlossary
      ensures shown == Filter(Cards(), storedPredicate)
      ensures forall c :: c in shown <==> c in Cards() && storedPredicate(c)
    {
      Filter(glossary.flashCards, viewPredicate)
    }

    /** Nothing but the quiz state has changed. */
    twostate predicate GlossaryAndFilterUnchanged()
      reads this, glossary, backupGlossary
    {
      && glossary.flashCards == old(glossary.flashCards)
      && backupGlossary == old(backupGlossary)
      && Snapshot() == old(Snapshot())
      && storedPredicate == old(storedPredicate)
      && viewPredicate == old(viewPredicate)
    }

    /**
     * Starts with a copy of `glossary`, showing every card, outside quiz mode and with all
     * counters at zero.
     */
    constructor (glossary: AddressBook, userPrefs: UserPrefs)
      requires glossary.Valid()
      ensures Valid() && fresh(this.glossary)
      ensures Cards() == glossary.flashCards && Snapshot() == None
      ensures this.userPrefs == userPrefs
      ensures storedPredicate == ShowAll && FilteredFlashCardList() == Cards()
      ensures Quiz() == Initial
    {
      this.glossary := new AddressBook.Copy(glossary);
      this.userPrefs := userPrefs;
      backupGlossary := null;
      storedPredicate := ShowAll;
      viewPredicate := ShowAll;
      isQuizMode, quizModeIndex, isRandomQuiz := false, 0, false;
      quizScore, quizTotalQuestions := 0, 0;
      new;
      FilterShowAll(this.glossary.flashCards);
    }

    /**
     * `setGlossary`: the glossary now holds the cards of `newData` (none, when `newData` is the
     * glossary itself, as `resetData` of a book from itself empties it); nothing else changes.
     */
    method SetGlossary(newData: AddressBook)
      requires Valid() && newData.Valid()
      modifies glossary
      ensures Valid()
      ensures Cards() == if newData == glossary then [] else old(newData.flashCards)
      ensures Snapshot() == old(Snapshot())
    {
      glossary.ResetData(newData);
    }

    /** `hasFlashCard`: some glossary card has the identity of `c`. */
    predicate HasFlashCard(c: FlashCard)
      reads this, glossary
      ensures HasFlashCard(c) <==> exists d :: d in Cards() && SameFlashCard(d, c)
    {
      glossary.HasFlashCard(c)
    }

    /**
     * `deleteFlashCard`: `target` must be in the glossary; it is removed, the other cards
     * keep their order, and the filter is left as it was.
     */
    method DeleteFlashCard(target: FlashCard) returns (r: Outcome)
      requires Valid()
      modifies glossary
      ensures Valid()
      ensures r == if target in old(Cards()) then Pass else Fail(FlashCardNotFound)
      ensures r.Pass? ==> Cards() == RemoveAt(old(Cards()), IndexOf(old(Cards()), target))
      ensures r.Pass? ==> !HasFlashCard(target)
      ensures r.Fail? ==> Cards() == old(Cards())
      ensures Snapshot() == old(Snapshot())
    {
      r := glossary.RemoveFlashCard(target);
    }

    /**
     * `addFlashCard`: no card of the same identity may exist. The card is appended and the
     * filter is reset to show every card, so the new card is shown.
     */
    method AddFlashCard(flashCard: FlashCard) returns (r: Outcome)
      requires Valid()
      modifies this, glossary
      ensures Valid()
      ensures r == if old(HasFlashCard(flashCard)) then Fail(DuplicateFlashCard) else Pass
      ensures r.Pass? ==> Cards() == old(Cards()) + [flashCard]
      ensures r.Pass? ==> storedPredicate == ShowAll && FilteredFlashCardList() == Cards()
      ensures r.Pass? ==> flashCard in FilteredFlashCardList()
      ensures r.Fail? ==> Cards() == old(Cards()) && storedPredicate == old(storedPredicate)
      ensures backupGlossary == old(backupGlossary) && Snapshot() == old(Snapshot())
      ensures Quiz() == old(Quiz())
    {
      ghost var snapshot := Snapshot();
      r := glossary.AddFlashCard(flashCard);
      assert Snapshot() == snapshot;
      if r.Fail? {
        return;
      }
      ghost var added := glossary.flashCards;
      UpdateFilteredPhraseList(ShowAll);
      assert Snapshot() == snapshot;
      FilterShowAll(added);
    }

    /**
     * `setFlashCard`: `target` must be in the glossary and the edit must not take the
     * identity of another card. The card is replaced in place; the filter is left as it was.
     */
    method SetFlashCard(target: FlashCard, editedFlashCard: FlashCard) returns (r: Outcome)
      requires Valid()
      modifies glossary
      ensures Valid()
      ensures r == if target !in old(Cards()) then Fail(FlashCardNotFound)
                   else if !SameFlashCard(target, editedFlashCard) && old(HasFlashCard(editedFlashCard)) then Fail(DuplicateFlashCard)
                   else Pass
      ensures r.Pass? ==> Cards() == old(Cards())[IndexOf(old(Cards()), target) := editedFlashCard]
      ensures r.Fail? ==> Cards() == old(Cards())
      ensures Snapshot() == old(Snapshot())
    {
      r := glossary.SetFlashCard(target, editedFlashCard);
    }

    /** `updateFilteredPhraseList(p)`: `p` is stored and the shown list is filtered by it. */
    method UpdateFilteredPhraseList(p: FlashCard -> bool)
      requires Valid()
      modifies this
      ensures Valid()
      ensures storedPredicate == p && FilteredFlashCardList() == Filter(Cards(), p)
      ensures backupGlossary == old(backupGlossary) && Quiz() == old(Quiz())
    {
      storedPredicate := p;
      viewPredicate := p;
    }

    /**
     * `updateFilteredPhraseList()`: the filter is set again to the stored predicate, which
     * does not change.
     */
    method ReapplyFilteredPhraseList()
      requires Valid()
      modifies this
      ensures Valid()
      ensures GlossaryAndFilterUnchanged() && Quiz() == old(Quiz())
      ensures FilteredFlashCardList() == Filter(Cards(), storedPredicate)
    {
      viewPredicate := storedPredicate;
    }

    /** `incrementQuizModeIndex`: index and total go up by one each; the score stays. */
    method IncrementQuizModeIndex()
      requires Valid()
      modifies this
      ensures Valid() && GlossaryAndFilterUnchanged()
      ensures Quiz() == QuizSession.IncrementQuizModeIndex(old(Quiz()))
    {
      quizModeIndex := JavaInt.Increment(quizModeIndex);
      quizTotalQuestions := JavaInt.Increment(quizTotalQuestions);
    }

    /** `updateQuizModeIndex(i)` of the earlier model interface: the index is set to `i`. */
    method UpdateQuizModeIndex(i: int)
      requires Valid() && JavaInt.IsInt(i)
      modifies this
      ensures Valid() && GlossaryAndFilterUnchanged()
      ensures Quiz() == QuizSession.UpdateQuizModeIndex(old(Quiz()), i)
    {
      quizModeIndex := i;
    }

    /**
     * `setQuizMode(on)`: afterwards `isQuizMode == on`; starting a quiz zeroes index, score
     * and total, ending one leaves them as they were.
     */
    method SetQuizMode(on: bool)
      requires Valid()
      modifies this
      ensures Valid() && GlossaryAndFilterUnchanged()
      ensures Quiz() == QuizSession.SetQuizMode(old(Quiz()), on)
      ensures isQuizMode == on
    {
      isQuizMode := on;
      if on {
        quizModeIndex := 0;
        quizScore := 0;
        quizTotalQuestions := 0;
      }
    }

    /** `updateWithCorrectAttempt`: the score goes up by one; nothing else changes. */
    method UpdateWithCorrectAttempt()
      requires Valid()
      modifies this
      ensures Valid() && GlossaryAndFilterUnchanged()
      ensures Quiz() == QuizSession.UpdateWithCorrectAttempt(old(Quiz()))
    {
      quizScore := JavaInt.Increment(quizScore);
    }

    /** `resetQuiz`: score, total and index become zero; both flags stay. */
    method ResetQuiz()
      requires Valid()
      modifies this
      ensures Valid() && GlossaryAndFilterUnchanged()
      ensures Quiz() == QuizSession.ResetQuiz(old(Quiz()))
    {
      quizScore := 0;
      quizTotalQuestions := 0;
      quizModeIndex := 0;
    }

    /**
     * `setRandomQuizMode(on)`. Entering random mode snapshots the glossary into a fresh
     * backup. Leaving it rewinds the index, restores the glossary from the backup (which
     * must exist) and shows every card again.
     */
    method SetRandomQuizMode(on: bool)
      requires Valid()
      requires !on ==> backupGlossary != null
      modifies this, glossary
      ensures Valid()
      ensures Quiz() == QuizSession.SetRandomQuizMode(old(Quiz()), on)
      ensures on ==> fresh(backupGlossary) && Snapshot() == Some(old(Cards()))
      ensures on ==> Cards() == old(Cards()) && storedPredicate == old(storedPredicate)
      ensures !on ==> backupGlossary == old(backupGlossary) && Snapshot() == old(Snapshot())
      ensures !on ==> Cards() == old(backupGlossary.flashCards)
      ensures !on ==> storedPredicate == ShowAll && FilteredFlashCardList() == Cards()
    {
      isRandomQuiz := on;
      if on {
        backupGlossary := new AddressBook.Copy(glossary);
      } else {
        quizModeIndex := 0;
        var restored := new AddressBook.Copy(backupGlossary);
        SetGlossary(restored);
        UpdateFilteredPhraseList(ShowAll);
        FilterShowAll(glossary.flashCards);
      }
    }

    /**
     * `equals`: two models are equal exactly when their glossaries, user preferences and
     * shown lists are; the quiz flags and counters play no part.
     */
    predicate Equals(other: ModelManager)
      requires Valid() && other.Valid()
      reads this, glossary, backupGlossary, other, other.glossary, other.backupGlossary
      ensures Equals(other) <==> Cards() == other.Cards() && userPrefs == other.userPrefs
                                 && FilteredFlashCardList() == other.FilteredFlashCardList()
    {
      other == this
      || (glossary.Equals(other.glossary)
          && userPrefs == other.userPrefs
          && FilteredFlashCardList() == other.FilteredFlashCardList())
    }
  }

  /**
   * A random quiz round trip: whatever happens to the glossary and the filter between
   * `setRandomQuizMode(true)` and `setRandomQuizMode(false)`, the glossary ends as it was
   * when random mode was entered, the index is zero and every card is shown.
   */
  method RandomQuizRoundTrip(m: ModelManager, added: FlashCard, removed: FlashCard, p: FlashCard -> bool)
    requires m.Valid()
    modifies m, m.glossary
    ensures m.Valid()
    ensures m.Cards() == old(m.Cards())
    ensures m.quizModeIndex == 0 && !m.isRandomQuiz
    ensures m.storedPredicate == ShowAll && m.FilteredFlashCardList() == m.Cards()
  {
    m.SetRandomQuizMode(true);
    var a := m.AddFlashCard(added);
    m.UpdateFilteredPhraseList(p);
    var d := m.DeleteFlashCard(removed);
    m.IncrementQuizModeIndex();
    m.UpdateWithCorrectAttempt();
    m.SetRandomQuizMode(false);
  }
}
