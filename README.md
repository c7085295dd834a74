# Blackjack round engine, modelled in Dafny

This project models the round-resolution engine of a terminal blackjack game
(`src/main.rs`). A round goes like this:

- A new 52-card deck is built and shuffled.
- Four opening cards are dealt, one at a time, off the end of the deck.
- The player answers "Want more cards? (y,n)" until they stand or bust.
- The dealer then draws by a fixed rule, and a winner is named.

The shuffle's random draws and the player's typed answers are inputs to the
model:

- The shuffle is a parameter `order`, a permutation of the positions 0..51
  (`Decks.IsOrdering`).
- The answers are a finite sequence of `Decision`s: `Yes` (the line "y"),
  `No` ("n"), `Other` (any other line) and `ReadError` (the read failed).
  When the sequence runs out before the player stands or busts, the round ends
  with `InputExhausted`.

Modules, following the entities of the source:

- `Cards`: `Suit`, `Card`, a card's value `min(10, number)` and `Score`, a
  hand's points. This is the pure iterator sum of `Hand::points`. There is no
  soft ace.
- `Hands`: class `Hand` with its `cards` field.
- `Decks`: the nested loops of `Deck::new_deck` (`BuildCards`, specified by the
  closed form `Unshuffled`), the shuffle as `Permute`, and class `Deck` with
  `Deal`. `Deal` pops the last card and pushes it onto a hand. On an empty deck
  it returns `ok == false`, which is where `unwrap` panics, and nothing moves.
- `Players`: class `Player` with `name`, `currentHand` and a `u32` `balance`,
  plus `Add` and `Sub`.
- `Rules`: the round as pure functions on a `Table`, which is a value holding
  the deck and the two hands:
  - `OpeningDeal`: dealer, player, dealer, player.
  - `PlayerTurn`: the hit/stand loop.
  - `DealerTurn`: draw while the dealer has at most 16 points.
  - `Verdict` and `Round`: who wins.
  - The lemmas about these functions.
- `Games`: class `Game`. Its methods `StartGame`, `PlayerTurn` and `DealerTurn`
  run on the real objects. Their loops are proved, through loop invariants, to
  compute exactly the `Rules` functions on the deck and the two hands.

The behaviour proved about the model:

- A new deck holds each of the 52 rank×suit cards exactly once, and the shuffle
  only rearranges them.
- A new round never empties the deck. The player has at most 21 points, so at
  most 21 cards. The dealer draws only with at most 16 points. So at least 29
  cards are left when the player hits and at least 15 when the dealer draws
  (`Rules.CardsLeft`).
- Throughout a round, the 52 cards stay spread over the deck and the two
  hands, with no card in two places.
- The dealer stops on 17 or more, and draws each of its cards while it has at
  most 16 points.
- A player who busts loses at once, and the dealer keeps its two opening
  cards.
- Once the player stands, the player wins exactly when the dealer ends over 21.

## Behaviour of the code worth knowing

- **Opening deal order.** The code deals to the dealer, the player, the dealer
  and the player, in that order (`src/main.rs:94-97`). See
  `Rules.OpeningDealShape`.
- **Which end of the deck is dealt.** `Deck::deal` pops the last element of the
  `Vec` (`src/main.rs:53`), so cards leave from the end of `Deck.cards`.
- **No score comparison.** Once the player stands, no scores are compared
  (`src/main.rs:121-131`). If the dealer does not bust, the dealer wins, so the
  player wins only when the dealer busts. A player who stands on 20 against a
  dealer's 17 loses (`Rules.HigherScoreStillLoses`). There is no tie or push
  rule either.
- **No early dealer-bust check.** Nothing looks at the dealer's hand between
  the opening deal and the player's turn.
- **Read errors.** A failed read falls through to the bust check
  (`src/main.rs:112-114`), while any other unrecognised line skips it with
  `continue` (`src/main.rs:108-110`). The model keeps that difference. It
  changes nothing, because a player who has not busted is never over 21 there
  (`Rules.OnlyAnswersMatter`).

## Model

| member | source | states |
|---|---|---|
| `Cards.Suits` | src/main.rs:13-17 | the four suits in iteration order: Diamonds, Clubs, Hearts, Spades |
| `Cards.Value` | src/main.rs:168 | a card contributes `min(10, number)`: at most 10, never more than its number, at least 1 for a card numbered 1..13 |
| `Cards.Score` | src/main.rs:164-171 | a hand of n cards scores at most 10·n, and at least n when all its cards are real; the empty hand scores 0 |
| `Cards.ScoreConcat` | src/main.rs:164-171 | the score is additive: two hands laid end to end score the sum of their scores |
| `Cards.ScoreAppend` | src/main.rs:164-171 | adding a card raises the score by exactly that card's value, so never lowers it, and by 1 to 10 for a real card |
| `Cards.ScoreExamples` | src/main.rs:164-171 | Ace and King score 11 (no soft ace); 10, 10, 5 score 25 |
| `Decks.Unshuffled` | src/main.rs:31-39 | the 52 cards in push order: position i holds number i mod 13 + 1 of the suit at i div 13 in Diamonds, Clubs, Hearts, Spades order |
| `Decks.Permute` | src/main.rs:40 | the result of the shuffle: position k of the deck holds the built card at `order[k]`, where `order` is a permutation of 0..51 |
| `Decks.BuildCards` | src/main.rs:31-39 | the nested suit/number loops push the 52 cards suit by suit, numbers 1 to 13, in the order `Unshuffled` gives |
| `Decks.UnshuffledIsFull` | src/main.rs:31-39 | the unshuffled deck holds each (number 1..13, suit) card, and each only once |
| `Decks.PermuteKeepsCards` | src/main.rs:40 | rearranging a repeat-free deck by a permutation of its positions keeps it repeat-free, with the same cards and the same multiset |
| `Decks.ShuffledIsFull` | src/main.rs:30-45 | a shuffled new deck has 52 cards, no repeats, exactly the valid cards, and is a permutation of the unshuffled one |
| `Decks.Deck.NewDeck` | src/main.rs:30-45 | the deck is the 52 built cards rearranged by the shuffle, and `used_count` is 0 |
| `Decks.Deck.Deal` | src/main.rs:52-57 | on a non-empty deck, its last card leaves the deck and is appended to the hand, and every other card keeps its position; on an empty deck it fails (the panic) and nothing changes |
| `Hands.Hand.NewHand` | src/main.rs:161-163 | a new hand is empty |
| `Hands.Hand.Points` | src/main.rs:164-171 | the hand's points, recomputed from its current cards by `Cards.Score` |
| `Players.Player.New` | src/main.rs:66-72 | the given name, a fresh empty hand, a balance of 10000 |
| `Players.Player.Add` | src/main.rs:73-75 | the balance rises by exactly b; name and hand are unchanged |
| `Players.Player.Sub` | src/main.rs:76-78 | the balance falls by exactly b, which may not exceed the balance (u32 underflow); name and hand are unchanged |
| `Games.Game.New` | src/main.rs:85-90 | the game keeps the given player and adds a new dealer named "Dealer", with balance 10000 and an empty hand |
| `Games.Game.StartGame` | src/main.rs:92-132 | the outcome and both final hands are those of `Rules.Round`, started from the shuffled deck and the hands as they were |
| `Games.Game.PlayerTurn` | src/main.rs:98-119 | the deck, the hands and how the turn ends are those of `Rules.PlayerTurn` on the decisions |
| `Games.Game.DealerTurn` | src/main.rs:133-150 | the deck, the hands and how the turn ends are those of `Rules.DealerTurn` |
| `Rules.DealTo` | src/main.rs:52-57 | one deal on the table: the deck loses its last card, which is appended to the named hand; the other hand is untouched |
| `Rules.OpeningDeal` | src/main.rs:93-97 | the four opening deals in the order dealer, player, dealer, player, stopping with a failure at the first deal that finds the deck empty |
| `Rules.PlayerTurn` | src/main.rs:98-119 | the player's loop over the decisions: "y" deals one card to the player and ends in a bust above 21; "n" ends in a stand; another line goes to the next decision without the bust check; a read error runs the bust check and goes on; a deal on an empty deck fails; running out of decisions ends the turn unfinished |
| `Rules.DealerTurn` | src/main.rs:133-150 | the dealer's loop: while the dealer has at most 16 points it takes the deck's last card; then it ends in a bust above 21 (the `Some(player)` result) and a stand otherwise (`None`); a draw from an empty deck fails |
| `Rules.Verdict` | src/main.rs:121-131 | after the dealer's turn: a dealer bust makes the player the winner, a dealer stand makes the dealer the winner, with no comparison of scores |
| `Rules.Round` | src/main.rs:92-132 | a whole round: the opening deal, the player's turn (a bust makes the dealer the winner without a dealer turn), then the dealer's turn and `Verdict`; failures and unfinished input end the round |
| `Rules.DealConserves` | src/main.rs:52-57 | a deal shrinks the deck by one and keeps every card on the table |
| `Rules.DealInOrderConserves` | src/main.rs:93-97 | a run of deals keeps every card on the table |
| `Rules.OpeningDealShape` | src/main.rs:94-97 | with 4 or more cards, the opening deal gives the deck's last card and the third from last to the dealer, the second and fourth from last to the player, and leaves the rest of the deck in place |
| `Rules.FreshOpening` | src/main.rs:93-97 | the opening deal of a new game succeeds and leaves 2 cards in each hand and 48 in the deck, all 52 still present |
| `Rules.DecisionStep` | src/main.rs:102-118 | a step lemma that unfolds `Rules.PlayerTurn` for one first decision, used by `Rules.OnlyAnswersMatter`; it adds nothing beyond the definition: "y" deals exactly one card: if the player then has over 21 points the turn ends in a bust, otherwise the turn goes on; "y" on an empty deck fails; "n" ends the turn and deals nothing; another line changes nothing; a read error changes nothing when the player is at 21 or less |
| `Rules.PlayerTurnConserves` | src/main.rs:98-119 | during the player's turn the dealer's hand is unchanged, the player's hand only grows, by at most one card per decision, every card stays on the table, and a bust means over 21 points |
| `Rules.OnlyAnswersMatter` | src/main.rs:102-113 | while the player is at 21 or less, the turn goes exactly as if every unrecognised line and read error had been left out |
| `Rules.CardsLeft` | src/main.rs:105-136 | with the 52 cards on the table and the player at 21 or less, at least 29 cards remain while the dealer holds 2 cards, and at least 15 while the dealer is at 16 or less |
| `Rules.PlayerTurnHasCards` | src/main.rs:105 | with the 52 cards on the table, the dealer on its 2 opening cards and the player at 21 or less, the player never hits an empty deck, and stands or runs out of input with at most 21 points |
| `Rules.FreshPlayerTurn` | src/main.rs:93-118 | in a new game, after the player's turn the dealer still holds its 2 opening cards, and the player is over 21 exactly when the turn ended in a bust |
| `Rules.DealerTurnEnds` | src/main.rs:135-149 | the dealer's turn ends in a bust exactly when the dealer is over 21, in a stand exactly when at 17 to 21, and fails only with the deck empty and 16 or less |
| `Rules.DealerTurnConserves` | src/main.rs:135-141 | the dealer's cards come off the end of the deck, its hand only grows, the player's hand is unchanged, and every card stays on the table |
| `Rules.DealerTurnDraws` | src/main.rs:135-141 | every card the dealer drew was drawn while its score was at most 16 |
| `Rules.DealerTurnHasCards` | src/main.rs:135-136 | with the 52 cards on the table and the player at 21 or less, the dealer never hits an empty deck |
| `Rules.FreshDealerTurn` | src/main.rs:121-150 | in a new game, the dealer's turn after a stand ends in a bust (over 21) or a stand (17 to 21), with the player's hand untouched |
| `Rules.FreshRound` | src/main.rs:92-132 | a round of a new game never runs out of cards. The 52 cards stay on the table with no repeats. A player over 21 loses, and the dealer then holds 2 cards. The player wins exactly when the dealer is over 21. Otherwise, a player at 21 or less loses to a dealer at 17 to 21 |
| `Rules.HigherScoreStillLoses` | src/main.rs:121-131 | no score comparison: a player standing on King-Queen (20) loses to a dealer on 10-7 (17) |

## Left out

- Terminal output is not modelled. This covers every `println!`, `display_point` and `Deck::print_cards`; none of them changes state.
- Terminal input is not modelled. `io::stdin().read_line` is replaced by the `Decision` sequence, and the real program waits for input where the model returns `InputExhausted`. At end of input `read_line` yields an empty line, which counts as `Other`, so the real loop would spin for ever.
- The random number generator behind `shuffle(&mut thread_rng())` is not modelled. Its result is the `order` parameter, which may be any permutation.
- The `main` replay loop, bet parsing and the `it_works` test are not modelled. They are glue, and the parsed bet is never used.
- `used_count` is modelled only at its initial value 0, because no code updates it.
- A panic is not modelled as ending the process. An empty-deck deal becomes `ok == false`, and the round stops with `DeckExhausted`.
- The `u8` card number and the `u32` points are unbounded naturals here. New decks hold only numbers 1..13, and a score never exceeds 520, so neither width matters.
- `start_game` returns a reference to the winning `Player`. Here it returns the `Outcome` `Won(PlayerWins)` or `Won(DealerWins)`.
- Players.Player.Add: requires that the sum fit in a `u32`. Rust panics on that overflow in a debug build and wraps around in a release build; neither is modelled.
- Players.Player.Sub: requires `b <= balance`. Rust panics on that `u32` underflow in a debug build and wraps around in a release build; neither is modelled.
