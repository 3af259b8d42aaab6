/**
 * The ordered, duplicate-free list of flashcards that backs a glossary.
 */
module UniqueFlashCardList {
  import opened FlashCards

  /** `contains`: some card in the list has the same identity as `c`. */
  predicate Contains(cards: seq<FlashCard>, c: FlashCard) {
    exists i :: 0 <= i < |cards| && SameFlashCard(cards[i], c)
  }

  /** The class invariant: no two cards share an identity. */
  predicate Unique(cards: seq<FlashCard>) {
    forall i, j :: 0 <= i < j < |cards| ==> !SameFlashCard(cards[i], cards[j])
  }

  /** `List.indexOf`: the first position holding a card equal to `c`, or -1. */
  function IndexOf(cards: seq<FlashCard>, c: FlashCard): (k: int)
    ensures -1 <= k < |cards|
    ensures k == -1 <==> c !in cards
    ensures 0 <= k ==> cards[k] == c && c !in cards[..k]
  {
    if |cards| == 0 then -1
    else if cards[0] == c then 0
    else
      var k := IndexOf(cards[1..], c);
      if k == -1 then -1
      else
        assert cards[..k + 1] == [cards[0]] + cards[1..][..k];
        k + 1
  }

  /** In a duplicate-free list a card occurs once, so any position holding it is its index. */
  lemma UniqueIndexOf(cards: seq<FlashCard>, k: nat, c: FlashCard)
    requires Unique(cards) && k < |cards| && cards[k] == c
    ensures IndexOf(cards, c) == k
  {
    var i := IndexOf(cards, c);
    assert SameFlashCard(cards[i], cards[k]);
  }

  /** Identity, unlike equality, is what `Contains` looks for: a list contains each of its cards. */
  lemma ContainsMember(cards: seq<FlashCard>, k: nat)
    requires k < |cards|
    ensures Contains(cards, cards[k])
  {
  }

  /** The list with position `k` removed: what `remove` leaves behind. */
  function RemoveAt(cards: seq<FlashCard>, k: nat): (r: seq<FlashCard>)
    requires k < |cards|
    ensures |r| == |cards| - 1
    ensures forall i :: 0 <= i < k ==> r[i] == cards[i]
    ensures forall i :: k <= i < |r| ==> r[i] == cards[i + 1]
  {
    cards[..k] + cards[k + 1..]
  }

  /** Removing the only card of its identity leaves no card of that identity, and the rest stays unique. */
  lemma {:induction false} RemoveUnique(cards: seq<FlashCard>, k: nat)
    requires Unique(cards) && k < |cards|
    ensures Unique(RemoveAt(cards, k))
    ensures !Contains(RemoveAt(cards, k), cards[k])
  {
    var r := RemoveAt(cards, k);
    forall i, j | 0 <= i < j < |r| ensures !SameFlashCard(r[i], r[j]) {
      var i', j' := if i < k then i else i + 1, if j < k then j else j + 1;
      assert r[i] == cards[i'] && r[j] == cards[j'];
    }
    forall i | 0 <= i < |r| ensures !SameFlashCard(r[i], cards[k]) {
      var i' := if i < k then i else i + 1;
      assert r[i] == cards[i'];
    }
  }

  /** Appending a card whose identity is new keeps the list unique. */
  lemma AppendUnique(cards: seq<FlashCard>, c: FlashCard)
    requires Unique(cards) && !Contains(cards, c)
    ensures Unique(cards + [c])
  {
    var r := cards + [c];
    forall i, j | 0 <= i < j < |r| ensures !SameFlashCard(r[i], r[j]) {
      if j == |cards| {
        assert !SameFlashCard(cards[i], c);
      }
    }
  }

  /**
   * Replacing position `k` by `edited` keeps the list unique when `edited` keeps the
   * identity of the card it replaces or has an identity absent from the list.
   */
  lemma ReplaceUnique(cards: seq<FlashCard>, k: nat, edited: FlashCard)
    requires Unique(cards) && k < |cards|
    requires SameFlashCard(cards[k], edited) || !Contains(cards, edited)
    ensures Unique(cards[k := edited])
  {
    var r := cards[k := edited];
    forall i, j | 0 <= i < j < |r| ensures !SameFlashCard(r[i], r[j]) {
      if i == k {
        assert !SameFlashCard(cards[j], edited);
      } else if j == k {
        assert !SameFlashCard(cards[i], edited);
      }
    }
  }

  /** A duplicate-free list holds no card twice. */
  lemma UniqueDistinct(cards: seq<FlashCard>, i: nat, j: nat)
    requires Unique(cards) && i < |cards| && j < |cards| && i != j
    ensures cards[i] != cards[j]
  {
    if i < j {
      assert !SameFlashCard(cards[i], cards[j]);
    } else {
      assert !SameFlashCard(cards[j], cards[i]);
    }
  }
}
