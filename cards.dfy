// Cards, suits and the scoring rule of a hand.

module Cards {

  /** The four suits, in the order `Suit::iterator` yields them. Suits never affect a score. */
  datatype Suit = Diamonds | Clubs | Hearts | Spades

  /** A card: its number (1 = Ace, 11..13 = face cards) and its suit. */
  datatype Card = Card(number: nat, suit: Suit)

  /** The suits in iteration order. */
  function Suits(): (r: seq<Suit>)
    ensures |r| == 4
  {
    [Diamonds, Clubs, Hearts, Spades]
  }

  predicate ValidCard(c: Card)
  {
    1 <= c.number <= 13
  }

  predicate AllValid(s: seq<Card>)
  {
    forall c :: c in s ==> ValidCard(c)
  }

  /** No card occurs at two positions of `s`. */
  predicate Distinct(s: seq<Card>)
  {
    forall i, j :: 0 <= i < j < |s| ==> s[i] != s[j]
  }

  /** What one card adds to a score: `min(10, number)`; an Ace always counts 1. */
  function Value(c: Card): (r: nat)
    ensures r <= 10
    ensures r <= c.number
    ensures ValidCard(c) ==> 1 <= r
  {
    if c.number < 10 then c.number else 10
  }

  /** The score of a hand: the sum of the card values, first card first. */
  function Score(s: seq<Card>): (r: nat)
    ensures r <= 10 * |s|
    ensures AllValid(s) ==> |s| <= r
  {
    if s == [] then 0 else Value(s[0]) + Score(s[1..])
  }

  /** The score of two hands laid end to end is the sum of their scores. */
  lemma {:induction false} ScoreConcat(a: seq<Card>, b: seq<Card>)
    ensures Score(a + b) == Score(a) + Score(b)
  {
    if a == [] {
      assert a + b == b;
    } else {
      assert (a + b)[1..] == a[1..] + b;
      ScoreConcat(a[1..], b);
    }
  }

  /** Adding a card raises the score by exactly that card's value: never lowers it,
      and by 1 to 10 for a real card. */
  lemma ScoreAppend(s: seq<Card>, c: Card)
    ensures Score(s + [c]) == Score(s) + Value(c)
    ensures Score(s) <= Score(s + [c]) <= Score(s) + 10
    ensures ValidCard(c) ==> Score(s) + 1 <= Score(s + [c])
  {
    ScoreConcat(s, [c]);
    assert Score([c]) == Value(c) + Score([]);
  }

  /** Two worked examples: Ace and King score 11; ten, ten, five score 25, a bust. */
  lemma ScoreExamples()
    ensures Score([Card(1, Spades), Card(13, Hearts)]) == 11
    ensures Score([Card(10, Clubs), Card(10, Hearts), Card(5, Diamonds)]) == 25
  {
    ScoreAppend([Card(1, Spades)], Card(13, Hearts));
    ScoreAppend([Card(10, Clubs), Card(10, Hearts)], Card(5, Diamonds));
    ScoreAppend([Card(10, Clubs)], Card(10, Hearts));
  }

  /** A sequence without repeated cards holds each card at most once, counted as a multiset. */
  lemma {:induction false} DistinctCounts(s: seq<Card>)
    requires Distinct(s)
    ensures forall c :: multiset(s)[c] <= 1
  {
    if s != [] {
      var p := s[..|s| - 1];
      assert s == p + [s[|s| - 1]];
      assert Distinct(p);
      DistinctCounts(p);
      assert s[|s| - 1] !in p;
    }
  }

  /** Conversely, a sequence that holds each card at most once has no repeats. */
  lemma CountsDistinct(s: seq<Card>)
    requires forall c :: multiset(s)[c] <= 1
    ensures Distinct(s)
  {
    forall i, j | 0 <= i < j < |s|
      ensures s[i] != s[j]
    {
      assert s == s[..j] + [s[j]] + s[j + 1..];
      assert s[i] in s[..j];
      assert multiset(s) == multiset(s[..j]) + multiset{s[j]} + multiset(s[j + 1..]);
      assert multiset(s)[s[j]] <= 1;
      assert s[j] !in multiset(s[..j]);
    }
  }

  /** Two repeat-free sequences with the same cards are permutations of each other. */
  lemma SameCardsSameMultiset(a: seq<Card>, b: seq<Card>)
    requires Distinct(a) && Distinct(b)
    requires forall c :: c in a <==> c in b
    ensures multiset(a) == multiset(b)
  {
    DistinctCounts(a);
    DistinctCounts(b);
    forall c
      ensures multiset(a)[c] == multiset(b)[c]
    {
      assert (c in a) == (c in multiset(a)) && (c in b) == (c in multiset(b));
    }
  }
}
