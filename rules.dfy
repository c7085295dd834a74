// The round as a value: the opening deal, the player's turn, the dealer's turn
// and the verdict, each a function of the table and the player's decisions.
// The methods of `Games.Game` are proved to compute exactly these.

module Rules {
  import opened Cards
  import opened Decks

  /** One answer read from the player at "Want more cards? (y,n)". */
  datatype Decision =
    | Yes        // the line "y": hit
    | No         // the line "n": stand
    | Other      // any other line: asked again
    | ReadError  // reading the line failed

  datatype Side = ToPlayer | ToDealer

  /** How a turn ended. The dealer's turn ends in `Bust` where `dealer_turn`
      returns `Some(player)` and in `Stand` where it returns `None`. */
  datatype TurnEnd =
    | Bust
    | Stand
    | OutOfCards  // a deal found the deck empty: `unwrap` panics
    | OutOfInput  // the decisions ran out before the player stood or busted

  datatype Winner = PlayerWins | DealerWins

  datatype Outcome =
    | Won(winner: Winner)
    | DeckExhausted
    | InputExhausted

  /** The cards of one round: the deck and the two hands. */
  datatype Table = Table(deck: seq<Card>, player: seq<Card>, dealer: seq<Card>)

  /** Every card on the table, wherever it is. */
  function AllCards(t: Table): (r: seq<Card>)
  {
    t.deck + t.player + t.dealer
  }

  /** The table holds exactly the 52 cards of one deck. */
  ghost predicate InPlay(t: Table)
  {
    multiset(AllCards(t)) == multiset(Unshuffled())
  }

  /** `Deck::deal` on the table: the deck's last card goes to one side. */
  function DealTo(t: Table, side: Side): (r: Table)
    requires t.deck != []
  {
    var n := |t.deck|;
    match side
    case ToPlayer => Table(t.deck[..n - 1], t.player + [t.deck[n - 1]], t.dealer)
    case ToDealer => Table(t.deck[..n - 1], t.player, t.dealer + [t.deck[n - 1]])
  }

  /** A deal moves one card and keeps every card on the table. */
  lemma DealConserves(t: Table, side: Side)
    requires t.deck != []
    ensures multiset(AllCards(DealTo(t, side))) == multiset(AllCards(t))
    ensures |DealTo(t, side).deck| == |t.deck| - 1
  {
    var n := |t.deck|;
    assert t.deck == t.deck[..n - 1] + [t.deck[n - 1]];
  }

  /** Deals to the sides in order, stopping at the first deal that finds
      the deck empty; `ok` says whether all of them happened. */
  function DealInOrder(t: Table, sides: seq<Side>): (r: (Table, bool))
    decreases |sides|
  {
    if sides == [] then (t, true)
    else if t.deck == [] then (t, false)
    else DealInOrder(DealTo(t, sides[0]), sides[1..])
  }

  /** The four opening deals of `Game::start_game`. */
  function OpeningDeal(t: Table): (r: (Table, bool))
  {
    DealInOrder(t, [ToDealer, ToPlayer, ToDealer, ToPlayer])
  }

  lemma {:induction false} DealInOrderConserves(t: Table, sides: seq<Side>)
    ensures multiset(AllCards(DealInOrder(t, sides).0)) == multiset(AllCards(t))
    decreases |sides|
  {
    if sides != [] && t.deck != [] {
      DealConserves(t, sides[0]);
      DealInOrderConserves(DealTo(t, sides[0]), sides[1..]);
    }
  }

  /** The opening deal takes the deck's last four cards: the last to the dealer,
      the one before to the player, then the dealer, then the player again. */
  lemma OpeningDealShape(t: Table)
    requires |t.deck| >= 4
    ensures var (t1, ok) := OpeningDeal(t);
      var d, n := t.deck, |t.deck|;
      && ok
      && t1.deck == d[..n - 4]
      && t1.dealer == t.dealer + [d[n - 1], d[n - 3]]
      && t1.player == t.player + [d[n - 2], d[n - 4]]
  {
    var d, n := t.deck, |t.deck|;
    var a := DealTo(t, ToDealer);
    var b := DealTo(a, ToPlayer);
    var c := DealTo(b, ToDealer);
    var e := DealTo(c, ToPlayer);
    assert d[..n - 1][..n - 2] == d[..n - 2];
    assert d[..n - 2][..n - 3] == d[..n - 3];
    assert d[..n - 3][..n - 4] == d[..n - 4];
    var sides := [ToDealer, ToPlayer, ToDealer, ToPlayer];
    assert DealInOrder(t, sides) == DealInOrder(a, sides[1..]);
    assert DealInOrder(a, sides[1..]) == DealInOrder(b, sides[2..]);
    assert DealInOrder(b, sides[2..]) == DealInOrder(c, sides[3..]);
    assert DealInOrder(c, sides[3..]) == DealInOrder(e, []);
  }

  /** The player's loop of `Game::start_game`: "y" deals one card and then
      checks for a bust; "n" ends the turn; any other line asks again without
      the bust check; a read error deals nothing but runs the bust check. */
  function PlayerTurn(t: Table, ds: seq<Decision>): (r: (Table, TurnEnd))
    decreases |ds|
  {
    if ds == [] then (t, OutOfInput)
    else
      match ds[0]
      case Yes =>
        if t.deck == [] then (t, OutOfCards)
        else
          var t1 := DealTo(t, ToPlayer);
          if Score(t1.player) > 21 then (t1, Bust) else PlayerTurn(t1, ds[1..])
      case No => (t, Stand)
      case Other => PlayerTurn(t, ds[1..])
      case ReadError => if Score(t.player) > 21 then (t, Bust) else PlayerTurn(t, ds[1..])
  }

  /** What one decision does at the start of the player's turn. */
  lemma DecisionStep(t: Table, d: Decision, rest: seq<Decision>)
    ensures d == Yes && t.deck != [] && Score(DealTo(t, ToPlayer).player) > 21 ==>
      PlayerTurn(t, [d] + rest) == (DealTo(t, ToPlayer), Bust)
    ensures d == Yes && t.deck != [] && Score(DealTo(t, ToPlayer).player) <= 21 ==>
      PlayerTurn(t, [d] + rest) == PlayerTurn(DealTo(t, ToPlayer), rest)
    ensures d == Yes && t.deck == [] ==> PlayerTurn(t, [d] + rest) == (t, OutOfCards)
    ensures d == No ==> PlayerTurn(t, [d] + rest) == (t, Stand)
    ensures d == Other ==> PlayerTurn(t, [d] + rest) == PlayerTurn(t, rest)
    ensures d == ReadError && Score(t.player) <= 21 ==> PlayerTurn(t, [d] + rest) == PlayerTurn(t, rest)
  {
    assert ([d] + rest)[0] == d && ([d] + rest)[1..] == rest;
  }

  /** During the player's turn the dealer's hand does not change, the player's
      hand only grows, every card stays on the table, and a bust means a score
      over 21. */
  lemma {:induction false} PlayerTurnConserves(t: Table, ds: seq<Decision>)
    ensures var (t1, e) := PlayerTurn(t, ds);
      && (e != OutOfInput ==> ds != [])
      && t1.dealer == t.dealer
      && |t1.player| >= |t.player| && t1.player[..|t.player|] == t.player
      && |t1.player| - |t.player| <= |ds|
      && multiset(AllCards(t1)) == multiset(AllCards(t))
      && (e == Bust ==> Score(t1.player) > 21)
    decreases |ds|
  {
    if ds != [] {
      match ds[0]
      case Yes =>
        if t.deck != [] {
          var t1 := DealTo(t, ToPlayer);
          DealConserves(t, ToPlayer);
          if Score(t1.player) <= 21 {
            PlayerTurnConserves(t1, ds[1..]);
            var t2 := PlayerTurn(t1, ds[1..]).0;
            assert |t2.player| >= |t1.player| && t2.player[..|t1.player|] == t1.player;
            assert t1.player[..|t.player|] == t.player;
            assert t2.player[..|t.player|] == t2.player[..|t1.player|][..|t.player|];
          }
        }
      case No =>
      case Other => PlayerTurnConserves(t, ds[1..]);
      case ReadError =>
        if Score(t.player) <= 21 {
          PlayerTurnConserves(t, ds[1..]);
        }
    }
  }

  /** The decisions with every line that was neither "y" nor "n" removed. */
  function Answers(ds: seq<Decision>): (r: seq<Decision>)
    ensures |r| <= |ds|
    ensures forall i :: 0 <= i < |r| ==> r[i] == Yes || r[i] == No
  {
    if ds == [] then []
    else if ds[0] == Yes || ds[0] == No then [ds[0]] + Answers(ds[1..])
    else Answers(ds[1..])
  }

  /** An unrecognised line or a failed read changes nothing: while the player
      has not busted, the turn goes exactly as if only the "y" and "n" answers
      had been given. */
  lemma {:induction false} OnlyAnswersMatter(t: Table, ds: seq<Decision>)
    requires Score(t.player) <= 21
    ensures PlayerTurn(t, ds) == PlayerTurn(t, Answers(ds))
    decreases |ds|
  {
    if ds != [] {
      var rest := ds[1..];
      match ds[0]
      case Yes =>
        DecisionStep(t, Yes, Answers(rest));
        if t.deck != [] && Score(DealTo(t, ToPlayer).player) <= 21 {
          OnlyAnswersMatter(DealTo(t, ToPlayer), rest);
        }
      case No =>
        DecisionStep(t, No, Answers(rest));
      case Other =>
        OnlyAnswersMatter(t, rest);
      case ReadError =>
        OnlyAnswersMatter(t, rest);
    }
  }

  /** `Game::dealer_turn`: the dealer draws while its score is at most 16,
      then has busted when its score is over 21. */
  function DealerTurn(t: Table): (r: (Table, TurnEnd))
    decreases |t.deck|
  {
    if Score(t.dealer) <= 16 then
      if t.deck == [] then (t, OutOfCards) else DealerTurn(DealTo(t, ToDealer))
    else if Score(t.dealer) > 21 then (t, Bust)
    else (t, Stand)
  }

  /** How the dealer's turn ends: it busts exactly when its score is over 21,
      stands exactly with a score from 17 to 21, and otherwise has run the
      deck dry with a score of at most 16. */
  lemma {:induction false} DealerTurnEnds(t: Table)
    ensures var (t1, e) := DealerTurn(t);
      && e != OutOfInput
      && (e == Bust <==> Score(t1.dealer) > 21)
      && (e == Stand <==> 17 <= Score(t1.dealer) <= 21)
      && (e == OutOfCards <==> Score(t1.dealer) <= 16)
      && (e == OutOfCards ==> t1.deck == [])
    decreases |t.deck|
  {
    if Score(t.dealer) <= 16 && t.deck != [] {
      DealerTurnEnds(DealTo(t, ToDealer));
    }
  }

  /** The dealer's cards come off the end of the deck, the player's hand stays
      as it was, and every card stays on the table. */
  lemma {:induction false} DealerTurnConserves(t: Table)
    ensures var t1 := DealerTurn(t).0;
      && t1.player == t.player
      && |t1.dealer| >= |t.dealer| && t1.dealer[..|t.dealer|] == t.dealer
      && |t1.deck| <= |t.deck| && t1.deck == t.deck[..|t1.deck|]
      && multiset(AllCards(t1)) == multiset(AllCards(t))
    decreases |t.deck|
  {
    if Score(t.dealer) <= 16 && t.deck != [] {
      var t2 := DealTo(t, ToDealer);
      DealConserves(t, ToDealer);
      DealerTurnConserves(t2);
      var t1 := DealerTurn(t2).0;
      assert t1.dealer[..|t.dealer|] == t1.dealer[..|t2.dealer|][..|t.dealer|];
      assert t2.deck == t.deck[..|t.deck| - 1];
      assert t1.deck == t.deck[..|t.deck| - 1][..|t1.deck|];
    }
  }

  /** The dealer drew each of its new cards while its score was at most 16. */
  lemma {:induction false} DealerTurnDraws(t: Table)
    ensures var t1 := DealerTurn(t).0;
      && |t1.dealer| >= |t.dealer|
      && (forall k :: |t.dealer| <= k < |t1.dealer| ==> Score(t1.dealer[..k]) <= 16)
    decreases |t.deck|
  {
    if Score(t.dealer) <= 16 && t.deck != [] {
      var t2 := DealTo(t, ToDealer);
      DealerTurnDraws(t2);
      DealerTurnConserves(t2);
      var t1 := DealerTurn(t2).0;
      assert t1.dealer[..|t.dealer|] == t.dealer;
    }
  }

  /** What `start_game` decides once the dealer's turn is over: the player
      wins when the dealer busted, and otherwise the dealer wins. */
  function Verdict(e: TurnEnd): (r: Outcome)
  {
    match e
    case Bust => Won(PlayerWins)
    case Stand => Won(DealerWins)
    case _ => DeckExhausted
  }

  /** A whole round of `Game::start_game`, with the cards left on the table. */
  function Round(t: Table, ds: seq<Decision>): (r: (Table, Outcome))
  {
    var (t1, ok) := OpeningDeal(t);
    if !ok then (t1, DeckExhausted)
    else
      var (t2, e) := PlayerTurn(t1, ds);
      match e
      case Bust => (t2, Won(DealerWins))
      case OutOfCards => (t2, DeckExhausted)
      case OutOfInput => (t2, InputExhausted)
      case Stand =>
        var (t3, d) := DealerTurn(t2);
        (t3, Verdict(d))
  }

  /** The table at the start of a round of a new game: a shuffled deck, two empty hands. */
  function FreshTable(order: seq<nat>): (r: Table)
    requires IsOrdering(order, 52)
  {
    Table(Permute(Unshuffled(), order), [], [])
  }

  /** What `InPlay` gives: 52 cards, no card in two places, all of them real. */
  lemma InPlayFacts(t: Table)
    requires InPlay(t)
    ensures |t.deck| + |t.player| + |t.dealer| == 52
    ensures Distinct(AllCards(t))
    ensures forall c :: c in AllCards(t) <==> ValidCard(c)
    ensures AllValid(t.player) && AllValid(t.dealer)
  {
    UnshuffledIsFull();
    assert |AllCards(t)| == |multiset(AllCards(t))| == |multiset(Unshuffled())| == 52;
    DistinctCounts(Unshuffled());
    CountsDistinct(AllCards(t));
    forall c
      ensures c in AllCards(t) <==> ValidCard(c)
    {
      assert (c in AllCards(t)) == (c in multiset(AllCards(t)));
      assert (c in Unshuffled()) == (c in multiset(Unshuffled()));
    }
  }

  /** The opening deal of a new game leaves two cards in each hand and 48 in the deck. */
  lemma FreshOpening(order: seq<nat>)
    requires IsOrdering(order, 52)
    ensures var (t1, ok) := OpeningDeal(FreshTable(order));
      && ok && InPlay(t1)
      && |t1.deck| == 48 && |t1.player| == 2 && |t1.dealer| == 2
      && Score(t1.player) <= 20 && Score(t1.dealer) <= 20
  {
    var t := FreshTable(order);
    ShuffledIsFull(order);
    assert AllCards(t) == t.deck;
    OpeningDealShape(t);
    DealInOrderConserves(t, [ToDealer, ToPlayer, ToDealer, ToPlayer]);
  }

  /** With the 52 cards on the table, a card is always left when one is
      needed: at least 29 when the player (at 21 or less) hits with the dealer
      on its two opening cards, and at least 15 when the dealer draws at 16 or
      less against a player at 21 or less. */
  lemma CardsLeft(t: Table)
    requires InPlay(t)
    requires Score(t.player) <= 21
    ensures |t.dealer| == 2 ==> |t.deck| >= 29
    ensures Score(t.dealer) <= 16 ==> |t.deck| >= 15
  {
    InPlayFacts(t);
  }

  /** In a game that started from a full deck, the player never hits an empty
      deck: the player has at most 21 points and so at most 21 cards. */
  lemma {:induction false} PlayerTurnHasCards(t: Table, ds: seq<Decision>)
    requires InPlay(t)
    requires Score(t.player) <= 21 && |t.dealer| == 2
    ensures var (t1, e) := PlayerTurn(t, ds);
      && InPlay(t1)
      && e != OutOfCards
      && (e != Bust ==> Score(t1.player) <= 21)
    decreases |ds|
  {
    PlayerTurnConserves(t, ds);
    InPlayFacts(t);
    if ds != [] {
      match ds[0]
      case Yes =>
        assert t.deck != [];
        var t1 := DealTo(t, ToPlayer);
        DealConserves(t, ToPlayer);
        if Score(t1.player) <= 21 {
          PlayerTurnHasCards(t1, ds[1..]);
        }
      case No =>
      case Other => PlayerTurnHasCards(t, ds[1..]);
      case ReadError =>
        if Score(t.player) <= 21 {
          PlayerTurnHasCards(t, ds[1..]);
        }
    }
  }

  /** Nor does the dealer: it draws only with at most 16 points, so at most 16
      cards, while the player holds at most 21. */
  lemma {:induction false} DealerTurnHasCards(t: Table)
    requires InPlay(t)
    requires Score(t.player) <= 21
    ensures DealerTurn(t).1 != OutOfCards
    decreases |t.deck|
  {
    InPlayFacts(t);
    if Score(t.dealer) <= 16 {
      assert t.deck != [];
      DealConserves(t, ToDealer);
      DealerTurnHasCards(DealTo(t, ToDealer));
    }
  }

  /** After the player's turn of a new game: the 52 cards are on the table,
      the dealer still holds its two opening cards, and the player is over 21
      exactly when the turn ended in a bust. */
  lemma FreshPlayerTurn(order: seq<nat>, ds: seq<Decision>)
    requires IsOrdering(order, 52)
    ensures var (t2, e) := PlayerTurn(OpeningDeal(FreshTable(order)).0, ds);
      && InPlay(t2)
      && e != OutOfCards
      && |t2.player| >= 2 && |t2.dealer| == 2 && Score(t2.dealer) <= 20
      && (e == Bust <==> Score(t2.player) > 21)
  {
    FreshOpening(order);
    var t1 := OpeningDeal(FreshTable(order)).0;
    PlayerTurnHasCards(t1, ds);
    PlayerTurnConserves(t1, ds);
  }

  /** The dealer's turn of a new game, once the player has stood: it ends in a
      bust or a stand, with all 52 cards still on the table. */
  lemma FreshDealerTurn(t2: Table)
    requires InPlay(t2) && Score(t2.player) <= 21 && |t2.dealer| >= 2
    ensures var (t3, d) := DealerTurn(t2);
      && InPlay(t3)
      && (d == Bust || d == Stand)
      && t3.player == t2.player && |t3.dealer| >= 2
      && (d == Bust <==> Score(t3.dealer) > 21)
      && (d == Stand <==> 17 <= Score(t3.dealer) <= 21)
  {
    DealerTurnHasCards(t2);
    DealerTurnEnds(t2);
    DealerTurnConserves(t2);
  }

  /** A round of a new game. It never runs out of cards; the 52 cards stay on
      the table, none of them twice. A player over 21 has busted: the dealer
      wins holding only its two opening cards. Otherwise the player wins
      exactly when the dealer ends over 21; no scores are compared. */
  lemma FreshRound(order: seq<nat>, ds: seq<Decision>)
    requires IsOrdering(order, 52)
    ensures var (t, o) := Round(FreshTable(order), ds);
      && o != DeckExhausted
      && |t.deck| + |t.player| + |t.dealer| == 52
      && Distinct(AllCards(t))
      && (forall c :: c in AllCards(t) <==> ValidCard(c))
      && |t.player| >= 2 && |t.dealer| >= 2
      && (Score(t.player) > 21 ==> o == Won(DealerWins) && |t.dealer| == 2)
      && (o == InputExhausted ==> |t.dealer| == 2)
      && (o == Won(PlayerWins) <==> Score(t.dealer) > 21)
      && (o == Won(DealerWins) && Score(t.player) <= 21 ==> 17 <= Score(t.dealer) <= 21)
  {
    FreshOpening(order);
    FreshPlayerTurn(order, ds);
    var t1 := OpeningDeal(FreshTable(order)).0;
    var (t2, e) := PlayerTurn(t1, ds);
    if e == Stand {
      FreshDealerTurn(t2);
      InPlayFacts(DealerTurn(t2).0);
    } else {
      InPlayFacts(t2);
    }
  }

  /** The player can stand on the higher score and still lose: with the
      dealer dealt 10 and 7 and the player King and Queen, standing gives the
      dealer the round on 17 against 20. */
  lemma HigherScoreStillLoses(rest: seq<Card>)
    ensures var t0 := Table(rest + [Card(12, Spades), Card(7, Clubs), Card(13, Hearts), Card(10, Diamonds)], [], []);
      var (t, o) := Round(t0, [No]);
      && t.player == [Card(13, Hearts), Card(12, Spades)]
      && t.dealer == [Card(10, Diamonds), Card(7, Clubs)]
      && Score(t.player) == 20 && Score(t.dealer) == 17
      && o == Won(DealerWins)
  {
    var t0 := Table(rest + [Card(12, Spades), Card(7, Clubs), Card(13, Hearts), Card(10, Diamonds)], [], []);
    OpeningDealShape(t0);
    var t1 := OpeningDeal(t0).0;
    assert t0.deck[..|t0.deck| - 4] == rest;
    assert Score(t1.player) == 20 by {
      ScoreAppend([Card(13, Hearts)], Card(12, Spades));
    }
    assert Score(t1.dealer) == 17 by {
      ScoreAppend([Card(10, Diamonds)], Card(7, Clubs));
    }
    assert PlayerTurn(t1, [No]) == (t1, Stand);
  }
}
