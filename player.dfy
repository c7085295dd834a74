// A participant: the human player or the dealer.

module Players {
  import opened Hands

  /** The balance every `Player::new` starts with. */
  const InitialBalance: nat := 10000

  /** The largest value of the `u32` balance. */
  const U32Max: nat := 0xFFFF_FFFF

  /** `Player`: a name, the hand of the current round and a balance. */
  class Player {
    var name: string
    var currentHand: Hand
    var balance: nat

    /** The balance fits in a `u32`. */
    ghost predicate Valid()
      reads this
    {
      balance <= U32Max
    }

    /** `Player::new`: the given name, an empty hand, a balance of 10000. */
    constructor New(name: string)
      ensures Valid()
      ensures this.name == name && balance == InitialBalance
      ensures fresh(currentHand) && currentHand.cards == []
    {
      this.name := name;
      currentHand := new Hand.NewHand();
      balance := InitialBalance;
    }

    /** `Player::add`: raises the balance by exactly `b`. A sum beyond the
        `u32` range is an overflow, which the caller must not cause. */
    method Add(b: nat)
      requires Valid()
      requires balance + b <= U32Max
      modifies this
      ensures Valid()
      ensures balance == old(balance) + b
      ensures name == old(name) && currentHand == old(currentHand)
      ensures currentHand.cards == old(currentHand.cards)
    {
      balance := balance + b;
    }

    /** `Player::sub`: lowers the balance by exactly `b`. Taking more than
        the balance underflows the `u32`, which the caller must not cause. */
    method Sub(b: nat)
      requires Valid()
      requires b <= balance
      modifies this
      ensures Valid()
      ensures balance == old(balance) - b
      ensures name == old(name) && currentHand == old(currentHand)
      ensures currentHand.cards == old(currentHand.cards)
    {
      balance := balance - b;
    }
  }
}
