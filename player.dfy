/**
 * A seat at the table as src/player.rs defines it: a bank, the hole cards,
 * the last action taken and the amount bid in the current round. Money is
 * modelled as an exact `real`.
 */
module Players {
  import opened Options
  import opened Cards
  import opened HandSpec
  import opened Hands

  datatype PlayerAction = Fold | Check | Call | Raise | AllIn | None

  /** What a player's bank starts at when no amount is given. */
  const DefaultBank: real := 100.0

  class Player {
    const id: nat
    const name: string
    var bank: real
    var hand: Hand
    var lastAction: PlayerAction
    var bid: real

    /** A player with `bank`, or the default bank, empty hole cards, no action and no bid. */
    constructor (id: nat, name: string, bank: Option<real>)
      ensures this.id == id && this.name == name
      ensures this.bank == (match bank case Some(b) => b case _ => DefaultBank)
      ensures fresh(hand) && hand.Valid() && hand.cards[..] == [Unset, Unset]
      ensures hand.value == Scored(ScoringHands.None, 0)
      ensures lastAction == PlayerAction.None && bid == 0.0
    {
      this.id := id;
      this.name := name;
      this.bank := match bank case Some(b) => b case _ => DefaultBank;
      hand := new Hand();
      lastAction := PlayerAction.None;
      bid := 0.0;
    }

    /**
     * Moves `amount` from the bank to the bid and returns it; an amount
     * above the bank is refused with 0 and changes nothing. Money is never
     * created or lost, and a bank that was not negative stays so for an
     * amount that is not negative.
     */
    method Raise(amount: real) returns (paid: real)
      modifies this`bank, this`bid, this`lastAction
      ensures amount > old(bank) ==>
        paid == 0.0 && bank == old(bank) && bid == old(bid) && lastAction == old(lastAction)
      ensures amount <= old(bank) ==>
        paid == amount && bank == old(bank) - amount && bid == old(bid) + amount && lastAction == PlayerAction.Raise
      ensures bank + bid == old(bank) + old(bid)
      ensures old(bank) >= 0.0 && amount >= 0.0 ==> bank >= 0.0
    {
      if amount > bank {
        return 0.0;
      }
      bank := bank - amount;
      bid := bid + amount;
      lastAction := PlayerAction.Raise;
      paid := amount;
    }

    /**
     * Takes `amount` from the bank and returns it; an amount above the bank
     * is refused with 0. The bid is left as it was, so what a call pays is
     * not recorded in the bid.
     */
    method Call(amount: real) returns (paid: real)
      modifies this`bank, this`lastAction
      ensures amount > old(bank) ==> paid == 0.0 && bank == old(bank) && lastAction == old(lastAction)
      ensures amount <= old(bank) ==> paid == amount && bank == old(bank) - amount && lastAction == PlayerAction.Call
      ensures bank + paid == old(bank)
      ensures old(bank) >= 0.0 && amount >= 0.0 ==> bank >= 0.0
    {
      if amount > bank {
        return 0.0;
      }
      bank := bank - amount;
      lastAction := PlayerAction.Call;
      paid := amount;
    }

    method Check()
      modifies this`lastAction
      ensures lastAction == PlayerAction.Check
    {
      lastAction := PlayerAction.Check;
    }

    /** Folding leaves the player inactive whatever the bank. */
    method Fold()
      modifies this`lastAction
      ensures lastAction == PlayerAction.Fold && !IsActive()
    {
      lastAction := PlayerAction.Fold;
    }

    /**
     * Moves the whole bank to the bid and returns it. The action recorded
     * is `Raise`, and with an empty bank the player is no longer active.
     */
    method AllIn() returns (paid: real)
      modifies this`bank, this`bid, this`lastAction
      ensures paid == old(bank) && bank == 0.0 && bid == old(bid) + old(bank) && lastAction == PlayerAction.Raise
      ensures bank + bid == old(bank) + old(bid)
      ensures !IsActive()
    {
      paid := bank;
      bank := 0.0;
      bid := bid + paid;
      lastAction := PlayerAction.Raise;
    }

    /** Still in the round: money left to bet and not folded. */
    predicate IsActive()
      reads this
      ensures lastAction == PlayerAction.Fold ==> !IsActive()
      ensures bank <= 0.0 ==> !IsActive()
    {
      bank > 0.0 && lastAction != PlayerAction.Fold
    }

    /**
     * Dispatches on `action`. A call or a raise needs an amount (the source
     * unwraps it); `None` does nothing.
     */
    method TakeAction(action: PlayerAction, amount: Option<real>)
      requires action == PlayerAction.Call || action == PlayerAction.Raise ==> amount.Some?
      modifies this`bank, this`bid, this`lastAction
      ensures action == PlayerAction.Fold ==> lastAction == PlayerAction.Fold && bank == old(bank) && bid == old(bid)
      ensures action == PlayerAction.Check ==> lastAction == PlayerAction.Check && bank == old(bank) && bid == old(bid)
      ensures action == PlayerAction.Call ==>
        bid == old(bid) &&
        if amount.value > old(bank) then bank == old(bank) && lastAction == old(lastAction)
        else bank == old(bank) - amount.value && lastAction == PlayerAction.Call
      ensures action == PlayerAction.Raise ==>
        if amount.value > old(bank) then bank == old(bank) && bid == old(bid) && lastAction == old(lastAction)
        else bank == old(bank) - amount.value && bid == old(bid) + amount.value && lastAction == PlayerAction.Raise
      ensures action == PlayerAction.AllIn ==> bank == 0.0 && bid == old(bid) + old(bank) && lastAction == PlayerAction.Raise
      ensures action == PlayerAction.None ==> bank == old(bank) && bid == old(bid) && lastAction == old(lastAction)
      ensures action != PlayerAction.Call ==> bank + bid == old(bank) + old(bid)
    {
      match action
      case Fold =>
        this.Fold();
      case Check =>
        this.Check();
      case Call =>
        var _ := this.Call(amount.value);
      case Raise =>
        var _ := this.Raise(amount.value);
      case AllIn =>
        var _ := this.AllIn();
      case None =>
    }
  }
}
