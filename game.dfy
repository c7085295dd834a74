// The game: one human player against the dealer, played round by round on
// real objects. Each method is proved to compute the matching function of
// `Rules` on the deck and the two hands.

module Games {
  import opened Decks
  import opened Players
  import opened Rules

  /** `Game`: the dealer and the player. */
  class Game {
    var dealer: Player
    var player: Player

    /** The two participants, and their hands, are different objects. */
    ghost predicate Valid()
      reads this, dealer, player
    {
      dealer != player && dealer.currentHand != player.currentHand
    }

    /** `Game::new`: the given player against a new dealer named "Dealer". */
    constructor New(player: Player)
      ensures Valid()
      ensures this.player == player
      ensures fresh(dealer) && fresh(dealer.currentHand)
      ensures dealer.name == "Dealer" && dealer.balance == InitialBalance
      ensures dealer.currentHand.cards == []
    {
      this.player := player;
      dealer := new Player.New("Dealer");
    }

    /** The deck and the two hands, as a value. */
    function TableOf(deck: Deck): (r: Table)
      reads this, dealer, player, deck, dealer.currentHand, player.currentHand
    {
      Table(deck.cards, player.currentHand.cards, dealer.currentHand.cards)
    }

    /** `Game::start_game`: a new deck shuffled into `order`, the opening
        deal, the player's turn driven by `decisions`, then the dealer's turn. */
    method StartGame(order: seq<nat>, decisions: seq<Decision>) returns (outcome: Outcome)
      requires Valid()
      requires IsOrdering(order, 52)
      modifies player.currentHand, dealer.currentHand
      ensures var (t, o) := Round(Table(Permute(Unshuffled(), order), old(player.currentHand.cards), old(dealer.currentHand.cards)), decisions);
        && outcome == o
        && player.currentHand.cards == t.player
        && dealer.currentHand.cards == t.dealer
    {
      var deck := new Deck.NewDeck(order);
      ghost var t0 := TableOf(deck);
      ghost var sides := [ToDealer, ToPlayer, ToDealer, ToPlayer];
      var ok := deck.Deal(dealer.currentHand);
      if !ok {
        return DeckExhausted;
      }
      assert DealInOrder(t0, sides) == DealInOrder(TableOf(deck), sides[1..]);
      ok := deck.Deal(player.currentHand);
      if !ok {
        return DeckExhausted;
      }
      assert DealInOrder(t0, sides) == DealInOrder(TableOf(deck), sides[2..]);
      ok := deck.Deal(dealer.currentHand);
      if !ok {
        return DeckExhausted;
      }
      assert DealInOrder(t0, sides) == DealInOrder(TableOf(deck), sides[3..]);
      ok := deck.Deal(player.currentHand);
      if !ok {
        return DeckExhausted;
      }
      assert OpeningDeal(t0) == (TableOf(deck), true);
      var e := PlayerTurn(deck, decisions);
      match e
      case Bust =>
        return Won(DealerWins);
      case OutOfCards =>
        return DeckExhausted;
      case OutOfInput =>
        return InputExhausted;
      case Stand =>
        var d := DealerTurn(deck);
        if d == Bust {
          outcome := Won(PlayerWins);
        } else if d == Stand {
          outcome := Won(DealerWins);
        } else {
          outcome := DeckExhausted;
        }
    }

    /** The `loop` of `Game::start_game` that asks the player for more cards. */
    method PlayerTurn(deck: Deck, decisions: seq<Decision>) returns (end: TurnEnd)
      requires Valid()
      modifies deck, player.currentHand
      ensures (TableOf(deck), end) == Rules.PlayerTurn(old(TableOf(deck)), decisions)
    {
      var i := 0;
      while true
        invariant 0 <= i <= |decisions|
        invariant Rules.PlayerTurn(TableOf(deck), decisions[i..]) == Rules.PlayerTurn(old(TableOf(deck)), decisions)
        decreases |decisions| - i
      {
        if i == |decisions| {
          return OutOfInput;
        }
        var d := decisions[i];
        ghost var before := TableOf(deck);
        assert decisions[i..][0] == d && decisions[i..][1..] == decisions[i + 1..];
        i := i + 1;
        match d {
          case Yes =>
            var ok := deck.Deal(player.currentHand);
            if !ok {
              return OutOfCards;
            }
            assert TableOf(deck) == DealTo(before, ToPlayer);
          case No =>
            return Stand;
          case Other =>
            continue;
          case ReadError =>
        }
        if player.currentHand.Points() > 21 {
          return Bust;
        }
      }
    }

    /** `Game::dealer_turn`: the dealer draws while its points are at most 16;
        `Bust` is the `Some(player)` of a dealer over 21, `Stand` the `None`. */
    method DealerTurn(deck: Deck) returns (end: TurnEnd)
      requires Valid()
      modifies deck, dealer.currentHand
      ensures (TableOf(deck), end) == Rules.DealerTurn(old(TableOf(deck)))
    {
      while dealer.currentHand.Points() <= 16
        invariant Rules.DealerTurn(TableOf(deck)) == Rules.DealerTurn(old(TableOf(deck)))
        decreases |deck.cards|
      {
        var ok := deck.Deal(dealer.currentHand);
        if !ok {
          return OutOfCards;
        }
      }
      if dealer.currentHand.Points() > 21 {
        return Bust;
      } else {
        return Stand;
      }
    }
  }
}
