// A participant's hand of cards.

module Hands {
  import opened Cards

  /** `Hand`: the cards a participant holds, in the order they were dealt. */
  class Hand {
    var cards: seq<Card>

    /** `Hand::new_hand`: an empty hand. */
    constructor NewHand()
      ensures cards == []
    {
      cards := [];
    }

    /** `Hand::points`: the score of the cards held now (see `Cards.Score`). */
    function Points(): (r: nat)
      reads this
    {
      Score(cards)
    }
  }
}
