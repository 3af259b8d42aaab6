/**
 * `AddressBook`: the glossary-level wrapper around a duplicate-free flashcard list.
 * The list it wraps is updated in place; a violated precondition of the wrapped list
 * (a duplicate identity or a missing card) is reported as a failed `Outcome` and leaves
 * the list as it was.
 */
module AddressBooks {
  import opened FlashCards
  import opened UniqueFlashCardList
  import JavaString
  import JavaInt

  datatype CollectionError = DuplicateFlashCard | FlashCardNotFound

  datatype Outcome = Pass | Fail(error: CollectionError)

  const FLASHCARDS_SUFFIX: string := " flashCards"

  /** `List.hashCode`: `h = 31 * h + e.hashCode()` from `h = 1`, in 32-bit arithmetic. */
  function ListHash(cards: seq<FlashCard>, elementHash: FlashCard -> int): (h: int)
    ensures JavaInt.IsInt(h)
    ensures cards == [] ==> h == 1
    decreases |cards|
  {
    if |cards| == 0 then 1
    else JavaInt.Wrap(31 * ListHash(cards[..|cards| - 1], elementHash) + JavaInt.Wrap(elementHash(cards[|cards| - 1])))
  }

  class AddressBook {
    /** The wrapped `UniqueFlashCardList`, in display order. */
    var flashCards: seq<FlashCard>

    /** No two cards share an identity. */
    ghost predicate Valid()
      reads this
    {
      Unique(flashCards)
    }

    constructor ()
      ensures Valid() && flashCards == []
    {
      flashCards := [];
    }

    /** Creates an address book holding the cards of `toBeCopied`. */
    constructor Copy(toBeCopied: AddressBook)
      requires toBeCopied.Valid()
      ensures Valid() && flashCards == toBeCopied.flashCards
    {
      flashCards := toBeCopied.flashCards;
    }

    /** Replaces the whole list; an input holding two cards of one identity is refused. */
    method SetFlashCards(cards: seq<FlashCard>) returns (r: Outcome)
      requires Valid()
      modifies this
      ensures Valid()
      ensures r == if Unique(cards) then Pass else Fail(DuplicateFlashCard)
      ensures flashCards == if r.Pass? then cards else old(flashCards)
    {
      if !Unique(cards) {
        return Fail(DuplicateFlashCard);
      }
      flashCards := cards;
      r := Pass;
    }

    /**
     * Replaces the list with the cards of `newData`, which is always duplicate-free.
     * `newData`'s cards are read through a live view of its list, and the wrapped list is
     * cleared before it copies from that view; so resetting a book from itself empties it.
     */
    method ResetData(newData: AddressBook)
      requires Valid() && newData.Valid()
      modifies this
      ensures Valid()
      ensures flashCards == if newData == this then [] else old(newData.flashCards)
    {
      var source := if newData == this then [] else newData.flashCards;
      var r := SetFlashCards(source);
      assert r == Pass;
    }

    /** Identity-based membership. */
    predicate HasFlashCard(c: FlashCard)
      reads this
      ensures HasFlashCard(c) <==> exists d :: d in flashCards && SameFlashCard(d, c)
      ensures c in flashCards ==> HasFlashCard(c)
    {
      Contains(flashCards, c)
    }

    /** Appends `p`, unless a card of the same identity is already present. */
    method AddFlashCard(p: FlashCard) returns (r: Outcome)
      requires Valid()
      modifies this
      ensures Valid()
      ensures r == if old(HasFlashCard(p)) then Fail(DuplicateFlashCard) else Pass
      ensures flashCards == if r.Pass? then old(flashCards) + [p] else old(flashCards)
      ensures HasFlashCard(p)
    {
      if Contains(flashCards, p) {
        return Fail(DuplicateFlashCard);
      }
      AppendUnique(flashCards, p);
      flashCards := flashCards + [p];
      ContainsMember(flashCards, |flashCards| - 1);
      r := Pass;
    }

    /**
     * Replaces `target` by `editedFlashCard` at the same position. Fails if `target` is
     * not in the list, or if the edit changes the identity to one another card already has.
     */
    method SetFlashCard(target: FlashCard, editedFlashCard: FlashCard) returns (r: Outcome)
      requires Valid()
      modifies this
      ensures Valid()
      ensures r == if target !in old(flashCards) then Fail(FlashCardNotFound)
                   else if !SameFlashCard(target, editedFlashCard) && old(HasFlashCard(editedFlashCard)) then Fail(DuplicateFlashCard)
                   else Pass
      ensures r.Pass? ==> flashCards == old(flashCards)[IndexOf(old(flashCards), target) := editedFlashCard]
      ensures r.Fail? ==> flashCards == old(flashCards)
    {
      var index := IndexOf(flashCards, target);
      if index == -1 {
        return Fail(FlashCardNotFound);
      }
      if !SameFlashCard(target, editedFlashCard) && Contains(flashCards, editedFlashCard) {
        return Fail(DuplicateFlashCard);
      }
      ReplaceUnique(flashCards, index, editedFlashCard);
      flashCards := flashCards[index := editedFlashCard];
      r := Pass;
    }

    /**
     * Removes `key` (found by equality). Afterwards no card of its identity is left and
     * the other cards keep their order.
     */
    method RemoveFlashCard(key: FlashCard) returns (r: Outcome)
      requires Valid()
      modifies this
      ensures Valid()
      ensures r == if key in old(flashCards) then Pass else Fail(FlashCardNotFound)
      ensures r.Pass? ==> flashCards == RemoveAt(old(flashCards), IndexOf(old(flashCards), key))
      ensures r.Pass? ==> !HasFlashCard(key)
      ensures r.Fail? ==> flashCards == old(flashCards)
    {
      var index := IndexOf(flashCards, key);
      if index == -1 {
        return Fail(FlashCardNotFound);
      }
      RemoveUnique(flashCards, index);
      flashCards := RemoveAt(flashCards, index);
      r := Pass;
    }

    /** `toString`: the number of cards in decimal, then `" flashCards"`. */
    function ToString(): (s: string)
      reads this
      ensures |s| > |FLASHCARDS_SUFFIX| && s[|s| - |FLASHCARDS_SUFFIX|..] == FLASHCARDS_SUFFIX
      ensures JavaString.IsDigits(s[..|s| - |FLASHCARDS_SUFFIX|])
      ensures JavaString.DecimalValue(s[..|s| - |FLASHCARDS_SUFFIX|]) == |flashCards|
    {
      var digits := JavaString.DecimalString(|flashCards|);
      JavaString.DecimalRoundTrip(|flashCards|);
      var s := digits + FLASHCARDS_SUFFIX;
      assert s[..|s| - |FLASHCARDS_SUFFIX|] == digits;
      s
    }

    /** `equals`: two address books are equal exactly when their card lists are. */
    predicate Equals(other: AddressBook)
      reads this, other
      ensures Equals(other) <==> flashCards == other.flashCards
    {
      other == this || flashCards == other.flashCards
    }

    /** `hashCode`: the hash of the wrapped list, for a given hash of single cards. */
    function HashCode(elementHash: FlashCard -> int): (h: int)
      reads this
      ensures JavaInt.IsInt(h)
    {
      ListHash(flashCards, elementHash)
    }
  }

  /** `hashCode` is consistent with `equals`. */
  lemma HashCodeConsistent(a: AddressBook, b: AddressBook, elementHash: FlashCard -> int)
    requires a.Equals(b)
    ensures a.HashCode(elementHash) == b.HashCode(elementHash)
  {
  }
}
