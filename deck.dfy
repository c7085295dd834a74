// The deck: building the 52 cards, shuffling them and dealing from the end.

module Decks {
  import opened Cards
  import opened Hands

  /** The 52 cards in the order `Deck::new_deck` pushes them: suit by suit in
      iteration order, numbers 1 to 13 within each suit. */
  function Unshuffled(): (r: seq<Card>)
    ensures |r| == 52
  {
    seq(52, i requires 0 <= i < 52 => Card(i % 13 + 1, Suits()[i / 13]))
  }

  /** The unshuffled deck holds every valid card and each only once. */
  lemma UnshuffledIsFull()
    ensures Distinct(Unshuffled())
    ensures forall c :: c in Unshuffled() <==> ValidCard(c)
  {
    var u := Unshuffled();
    forall c | ValidCard(c)
      ensures c in u
    {
      var s := if c.suit == Diamonds then 0 else if c.suit == Clubs then 1 else if c.suit == Hearts then 2 else 3;
      var i := 13 * s + c.number - 1;
      assert i / 13 == s && i % 13 == c.number - 1;
      assert Suits()[s] == c.suit;
      assert u[i] == c;
    }
    forall i, j | 0 <= i < j < 52
      ensures u[i] != u[j]
    {
      assert i == 13 * (i / 13) + i % 13 && j == 13 * (j / 13) + j % 13;
      assert i / 13 != j / 13 || i % 13 != j % 13;
      var a, b := i / 13, j / 13;
      assert a != b ==> Suits()[a] != Suits()[b];
    }
  }

  /** The two nested loops of `Deck::new_deck`, before the shuffle. */
  method BuildCards() returns (cards: seq<Card>)
    ensures cards == Unshuffled()
  {
    cards := [];
    for s := 0 to 4
      invariant cards == Unshuffled()[..13 * s]
    {
      var suit := Suits()[s];
      for i := 1 to 14
        invariant cards == Unshuffled()[..13 * s + i - 1]
      {
        ghost var k := 13 * s + i - 1;
        assert k / 13 == s && k % 13 == i - 1;
        assert Unshuffled()[..k + 1] == Unshuffled()[..k] + [Card(i, suit)];
        cards := cards + [Card(i, suit)];
      }
    }
  }

  /** `order` names every position 0..n-1 exactly once: the outcome of a shuffle. */
  predicate IsOrdering(order: seq<nat>, n: nat)
  {
    && |order| == n
    && (forall k :: 0 <= k < n ==> order[k] < n)
    && (forall i, j :: 0 <= i < j < n ==> order[i] != order[j])
    && (forall p :: 0 <= p < n ==> p in order)
  }

  /** The cards of `s` rearranged so that position k holds `s[order[k]]`. */
  function Permute(s: seq<Card>, order: seq<nat>): (r: seq<Card>)
    requires IsOrdering(order, |s|)
  {
    seq(|s|, k requires 0 <= k < |s| => s[order[k]])
  }

  /** A shuffle keeps exactly the same cards. */
  lemma PermuteKeepsCards(s: seq<Card>, order: seq<nat>)
    requires IsOrdering(order, |s|)
    requires Distinct(s)
    ensures |Permute(s, order)| == |s|
    ensures Distinct(Permute(s, order))
    ensures forall c :: c in Permute(s, order) <==> c in s
    ensures multiset(Permute(s, order)) == multiset(s)
  {
    var r := Permute(s, order);
    forall c | c in s
      ensures c in r
    {
      var p :| 0 <= p < |s| && s[p] == c;
      assert p in order;
      var k :| 0 <= k < |order| && order[k] == p;
      assert r[k] == c;
    }
    SameCardsSameMultiset(r, s);
  }

  /** A freshly shuffled deck: 52 cards, each valid card exactly once. */
  lemma ShuffledIsFull(order: seq<nat>)
    requires IsOrdering(order, 52)
    ensures |Permute(Unshuffled(), order)| == 52
    ensures Distinct(Permute(Unshuffled(), order))
    ensures forall c :: c in Permute(Unshuffled(), order) <==> ValidCard(c)
    ensures multiset(Permute(Unshuffled(), order)) == multiset(Unshuffled())
  {
    UnshuffledIsFull();
    PermuteKeepsCards(Unshuffled(), order);
  }

  /** `Deck`: the cards not yet dealt; the last one is dealt next. */
  class Deck {
    var cards: seq<Card>
    var usedCount: nat

    /** `Deck::new_deck`: all 52 cards, rearranged by the shuffle `order`;
        nothing has been used yet. */
    constructor NewDeck(order: seq<nat>)
      requires IsOrdering(order, 52)
      ensures cards == Permute(Unshuffled(), order)
      ensures usedCount == 0
    {
      var ordered := BuildCards();
      cards := Permute(ordered, order);
      usedCount := 0;
    }

    /** `Deck::deal`: pops the last card and pushes it onto `hand`. On an empty
        deck `unwrap` panics; that is `ok == false`, and nothing has moved. */
    method Deal(hand: Hand) returns (ok: bool)
      modifies this, hand
      ensures ok <==> old(cards) != []
      ensures usedCount == old(usedCount)
      ensures ok ==> cards == old(cards)[..|old(cards)| - 1]
      ensures ok ==> hand.cards == old(hand.cards) + [old(cards)[|old(cards)| - 1]]
      ensures !ok ==> cards == old(cards) && hand.cards == old(hand.cards)
    {
      if cards == [] {
        return false;
      }
      var card := cards[|cards| - 1];
      cards := cards[..|cards| - 1];
      hand.cards := hand.cards + [card];
      ok := true;
    }
  }
}
