/**
 * The `end` command: every card of the shown list is replaced by a copy showing its English
 * side, then quiz mode is switched off, the quiz index rewound and the filter re-applied.
 */
module EndQuizCommand {
  import opened FlashCards
  import opened UniqueFlashCardList
  import opened AddressBooks
  import opened ModelManagers

  const COMMAND_WORD: string := "end"
  const MESSAGE_SUCCESS: string := "Quiz ended!"

  datatype CommandResult = CommandResult(feedbackToUser: string)

  /**
   * The glossary `cards` after the first `i` cards of `shown` have been replaced by their
   * English-showing copies.
   */
  ghost function RevealedUpTo(cards: seq<FlashCard>, shown: seq<FlashCard>, i: nat): seq<FlashCard>
    requires i <= |shown|
  {
    seq(|cards|, k requires 0 <= k < |cards| =>
      if cards[k] in shown[..i] then RevealEnglish(cards[k]) else cards[k])
  }

  /**
   * One step of the loop: the next shown card is still in the glossary unrevealed, and
   * replacing it at its index reveals exactly one more card of `shown`.
   */
  lemma RevealStep(cards: seq<FlashCard>, shown: seq<FlashCard>, i: nat)
    requires Unique(cards) && Unique(shown) && i < |shown|
    requires forall c :: c in shown ==> c in cards
    requires Unique(RevealedUpTo(cards, shown, i))
    ensures var cur := RevealedUpTo(cards, shown, i);
            && shown[i] in cur
            && cur[IndexOf(cur, shown[i]) := RevealEnglish(shown[i])] == RevealedUpTo(cards, shown, i + 1)
  {
    var cur := RevealedUpTo(cards, shown, i);
    var toEdit := shown[i];
    assert toEdit in cards;
    var k :| 0 <= k < |cards| && cards[k] == toEdit;
    forall j | 0 <= j < i ensures shown[j] != toEdit {
      UniqueDistinct(shown, j, i);
    }
    assert toEdit !in shown[..i];
    assert cur[k] == toEdit;
    UniqueIndexOf(cur, k, toEdit);
    assert shown[..i + 1] == shown[..i] + [toEdit];
    forall k' | 0 <= k' < |cards| && k' != k ensures cards[k'] != toEdit {
      UniqueDistinct(cards, k, k');
    }
  }

  /**
   * `execute`. It cannot fail. Afterwards each glossary card that was in the shown list has
   * been replaced, in place, by its copy with the English side shown; every other card, the
   * glossary's length and every card's identity are as before. Quiz mode is off, the index is
   * zero, score and total are kept, and the shown list is the glossary through the stored
   * predicate.
   */
  method Execute(model: ModelManager) returns (result: CommandResult)
    requires model.Valid()
    modifies model, model.glossary
    ensures model.Valid()
    ensures result == CommandResult(MESSAGE_SUCCESS)
    ensures |model.Cards()| == |old(model.Cards())|
    ensures forall k :: 0 <= k < |model.Cards()| ==>
              model.Cards()[k] == if old(model.Cards())[k] in old(model.FilteredFlashCardList())
                                  then RevealEnglish(old(model.Cards())[k]) else old(model.Cards())[k]
    ensures forall k :: 0 <= k < |model.Cards()| ==> SameFlashCard(model.Cards()[k], old(model.Cards())[k])
    ensures forall c :: c in old(model.FilteredFlashCardList()) ==> RevealEnglish(c) in model.Cards()
    ensures !model.isQuizMode && model.quizModeIndex == 0
    ensures model.quizScore == old(model.quizScore) && model.quizTotalQuestions == old(model.quizTotalQuestions)
    ensures model.isRandomQuiz == old(model.isRandomQuiz)
    ensures model.storedPredicate == old(model.storedPredicate)
    ensures model.FilteredFlashCardList() == Filter(model.Cards(), model.storedPredicate)
    ensures model.Snapshot() == old(model.Snapshot())
  {
    var lastShownList := model.FilteredFlashCardList();
    ghost var g0 := model.Cards();
    FilterUnique(g0, model.storedPredicate);
    assert RevealedUpTo(g0, lastShownList, 0) == g0;
    var i := 0;
    while i < |lastShownList|
      invariant 0 <= i <= |lastShownList|
      invariant model.Valid()
      invariant model.Cards() == RevealedUpTo(g0, lastShownList, i)
      invariant model.Quiz() == old(model.Quiz())
      invariant model.storedPredicate == old(model.storedPredicate)
      invariant model.Snapshot() == old(model.Snapshot())
    {
      var toEdit := lastShownList[i];
      var changeTo := RevealEnglish(toEdit);
      RevealStep(g0, lastShownList, i);
      var r := model.SetFlashCard(toEdit, changeTo);
      i := i + 1;
    }
    assert lastShownList[..i] == lastShownList;
    RevealedAll(g0, lastShownList);
    model.SetQuizMode(false);
    model.UpdateQuizModeIndex(0);
    model.ReapplyFilteredPhraseList();
    result := CommandResult(MESSAGE_SUCCESS);
  }

  /** Once all of `shown` is revealed, every shown card appears revealed and identities are kept. */
  lemma RevealedAll(cards: seq<FlashCard>, shown: seq<FlashCard>)
    requires forall c :: c in shown ==> c in cards
    ensures var r := RevealedUpTo(cards, shown, |shown|);
            && (forall k :: 0 <= k < |r| ==> SameFlashCard(r[k], cards[k]))
            && (forall c :: c in shown ==> RevealEnglish(c) in r)
  {
    var r := RevealedUpTo(cards, shown, |shown|);
    assert shown[..|shown|] == shown;
    forall c | c in shown ensures RevealEnglish(c) in r {
      var k :| 0 <= k < |cards| && cards[k] == c;
      assert r[k] == RevealEnglish(c);
    }
  }
}
