/**
 * The table of src/game.rs: its own, smaller player record (no bid, and a
 * player starts out as having checked), the seating of `player_count`
 * players in a shuffled order, a shuffled deck, and the betting-round state
 * machine PreFlop, Flop, Turn, River, Showdown and back to PreFlop.
 */
module Games {
  import opened Options
  import opened Shuffling
  import opened Cards
  import opened Hands

  datatype PlayerAction = Fold | Check | Call | Raise

  datatype GameState = PreFlop | Flop | Turn | River | Showdown

  /** What a player's bank starts at when no amount is given. */
  const DefaultBank: real := 100.0

  /** The small blind the table is created with. */
  const InitialBlind: real := 0.25

  class Player {
    const id: nat
    const name: string
    var bank: real
    var hand: Hand
    var lastAction: PlayerAction

    /** A player with `bank`, or the default bank, and empty hole cards, counted as having checked. */
    constructor (id: nat, name: string, bank: Option<real>)
      ensures this.id == id && this.name == name
      ensures this.bank == (match bank case Some(b) => b case _ => DefaultBank)
      ensures fresh(hand) && hand.Valid() && hand.cards[..] == [Unset, Unset]
      ensures lastAction == PlayerAction.Check
    {
      this.id := id;
      this.name := name;
      this.bank := match bank case Some(b) => b case _ => DefaultBank;
      hand := new Hand();
      lastAction := PlayerAction.Check;
    }

    /**
     * Takes `amount` from the bank and returns it; an amount above the bank
     * is refused with 0 and changes nothing.
     */
    method Raise(amount: real) returns (paid: real)
      modifies this`bank, this`lastAction
      ensures amount > old(bank) ==> paid == 0.0 && bank == old(bank) && lastAction == old(lastAction)
      ensures amount <= old(bank) ==> paid == amount && lastAction == PlayerAction.Raise
      ensures bank + paid == old(bank)
      ensures old(bank) >= 0.0 && amount >= 0.0 ==> bank >= 0.0
    {
      if amount > bank {
        return 0.0;
      }
      bank := bank - amount;
      lastAction := PlayerAction.Raise;
      paid := amount;
    }

    /** As `Raise`, recording a call. */
    method Call(amount: real) returns (paid: real)
      modifies this`bank, this`lastAction
      ensures amount > old(bank) ==> paid == 0.0 && bank == old(bank) && lastAction == old(lastAction)
      ensures amount <= old(bank) ==> paid == amount && lastAction == PlayerAction.Call
      ensures bank + paid == old(bank)
      ensures old(bank) >= 0.0 && amount >= 0.0 ==> bank >= 0.0
    {
      if amount > bank {
        return 0.0;
      }
      bank := bank - amount;
      lastAction := PlayerAction.Call;
      paid := amount;
    }

    method Check()
      modifies this`lastAction
      ensures lastAction == PlayerAction.Check
    {
      lastAction := PlayerAction.Check;
    }

    /** Folding leaves the player inactive whatever the bank. */
    method Fold()
      modifies this`lastAction
      ensures lastAction == PlayerAction.Fold && !IsActive()
    {
      lastAction := PlayerAction.Fold;
    }

    /** Empties the bank and returns what it held, recorded as a raise; the player is then inactive. */
    method AllIn() returns (paid: real)
      modifies this`bank, this`lastAction
      ensures paid == old(bank) && bank == 0.0 && lastAction == PlayerAction.Raise
      ensures !IsActive()
    {
      paid := bank;
      bank := 0.0;
      lastAction := PlayerAction.Raise;
    }

    /** Still in the round: money left to bet and not folded. */
    predicate IsActive()
      reads this
      ensures lastAction == PlayerAction.Fold ==> !IsActive()
      ensures bank <= 0.0 ==> !IsActive()
    {
      bank > 0.0 && lastAction != PlayerAction.Fold
    }

    /** Dispatches on `action`; a call or a raise needs an amount (the source unwraps it). */
    method TakeAction(action: PlayerAction, amount: Option<real>)
      requires action == PlayerAction.Call || action == PlayerAction.Raise ==> amount.Some?
      modifies this`bank, this`lastAction
      ensures action == PlayerAction.Fold ==> lastAction == PlayerAction.Fold && bank == old(bank)
      ensures action == PlayerAction.Check ==> lastAction == PlayerAction.Check && bank == old(bank)
      ensures action == PlayerAction.Call ==>
        if amount.value > old(bank) then bank == old(bank) && lastAction == old(lastAction)
        else bank == old(bank) - amount.value && lastAction == PlayerAction.Call
      ensures action == PlayerAction.Raise ==>
        if amount.value > old(bank) then bank == old(bank) && lastAction == old(lastAction)
        else bank == old(bank) - amount.value && lastAction == PlayerAction.Raise
    {
      match action
      case Fold =>
        this.Fold();
      case Check =>
        this.Check();
      case Call =>
        var _ := this.Call(amount.value);
      case Raise =>
        var _ := this.Raise(amount.value);
    }
  }

  // ---------------------------------------------------------------------
  // Player names: `format!("Player {}", i)`
  // ---------------------------------------------------------------------

  predicate IsDigit(c: char) {
    '0' <= c <= '9'
  }

  function DigitChar(d: nat): (c: char)
    requires d < 10
    ensures IsDigit(c) && c as int - '0' as int == d
  {
    "0123456789"[d]
  }

  /** The decimal numeral for `n`, as `{}` formats an integer. */
  function Decimal(n: nat): (s: string)
    ensures |s| >= 1
    ensures forall k :: 0 <= k < |s| ==> IsDigit(s[k])
    ensures |s| > 1 ==> s[0] != '0'
  {
    if n < 10 then [DigitChar(n)] else Decimal(n / 10) + [DigitChar(n % 10)]
  }

  /** Reads a string of digits back as a number. */
  function DecimalValue(s: string): nat
    requires forall k :: 0 <= k < |s| ==> IsDigit(s[k])
  {
    if s == [] then 0
    else
      assert IsDigit(s[|s| - 1]);
      10 * DecimalValue(s[..|s| - 1]) + (s[|s| - 1] as int - '0' as int)
  }

  /** Reading a numeral back gives the number it was written from. */
  lemma {:induction false} DecimalRoundTrip(n: nat)
    ensures DecimalValue(Decimal(n)) == n
  {
    if n >= 10 {
      DecimalRoundTrip(n / 10);
      var s := Decimal(n);
      assert s[..|s| - 1] == Decimal(n / 10);
    }
  }

  function PlayerName(id: nat): (r: string)
    ensures |r| > 7 && r[..7] == "Player "
    ensures forall k :: 7 <= k < |r| ==> IsDigit(r[k])
    ensures DecimalValue(r[7..]) == id
  {
    DecimalRoundTrip(id);
    assert ("Player " + Decimal(id))[7..] == Decimal(id);
    "Player " + Decimal(id)
  }

  /** No two seats get the same name. */
  lemma PlayerNamesDiffer(i: nat, j: nat)
    requires i != j
    ensures PlayerName(i) != PlayerName(j)
  {
  }

  // ---------------------------------------------------------------------
  // The betting-round state machine
  // ---------------------------------------------------------------------

  /** The state `advance_state` moves to: one position on, wrapping from Showdown back to PreFlop. */
  function Next(s: GameState): (t: GameState)
    ensures Position(t) == (Position(s) + 1) % 5
    ensures s == Showdown <==> t == PreFlop
  {
    match s
    case PreFlop => Flop
    case Flop => Turn
    case Turn => River
    case River => Showdown
    case Showdown => PreFlop
  }

  /** Where a state sits in the round, PreFlop first. */
  function Position(s: GameState): (p: nat)
    ensures p < 5
  {
    match s
    case PreFlop => 0
    case Flop => 1
    case Turn => 2
    case River => 3
    case Showdown => 4
  }

  /** `k` successive advances. */
  function Advance(s: GameState, k: nat): GameState {
    if k == 0 then s else Next(Advance(s, k - 1))
  }

  /** Positions name states one-to-one. */
  lemma PositionIsInjective(s: GameState, t: GameState)
    requires Position(s) == Position(t)
    ensures s == t
  {
  }

  /** After `k` advances the round is `k` positions on, counted modulo five. */
  lemma {:induction false} AdvanceIsModular(s: GameState, k: nat)
    ensures Position(Advance(s, k)) == (Position(s) + k) % 5
  {
    if k > 0 {
      AdvanceIsModular(s, k - 1);
    }
  }

  /** Every five advances bring the round back to the state it started in. */
  lemma FiveAdvancesReturn(s: GameState, k: nat)
    ensures Advance(s, 5 * k) == s
  {
    AdvanceIsModular(s, 5 * k);
    assert (Position(s) + 5 * k) % 5 == Position(s);
    PositionIsInjective(Advance(s, 5 * k), s);
  }

  /** From PreFlop, the fourth advance reaches the showdown and none before it does. */
  lemma ShowdownIsFourAdvancesOn(k: nat)
    requires k < 5
    ensures Advance(PreFlop, k) == Showdown <==> k == 4
  {
    AdvanceIsModular(PreFlop, k);
  }

  // ---------------------------------------------------------------------
  // Counting the players still in the round
  // ---------------------------------------------------------------------

  /** How many of `ps` are active. */
  ghost function ActiveCount(ps: seq<Player>): (n: nat)
    reads ps
    ensures n <= |ps|
  {
    if ps == [] then 0
    else ActiveCount(ps[..|ps| - 1]) + (if ps[|ps| - 1].IsActive() then 1 else 0)
  }

  /** Two different seats are both active. */
  ghost predicate TwoActive(ps: seq<Player>)
    reads ps
  {
    exists i, j :: 0 <= i < j < |ps| && ps[i].IsActive() && ps[j].IsActive()
  }

  /** No seat is active exactly when the count is zero. */
  lemma {:induction false} NoneActive(ps: seq<Player>)
    ensures ActiveCount(ps) == 0 <==> forall i :: 0 <= i < |ps| ==> !ps[i].IsActive()
  {
    if ps != [] {
      var init := ps[..|ps| - 1];
      NoneActive(init);
      assert forall i :: 0 <= i < |init| ==> init[i] == ps[i];
    }
  }

  /** The count is at most one exactly when no two seats are both active. */
  lemma {:induction false} AtMostOneActive(ps: seq<Player>)
    ensures ActiveCount(ps) <= 1 <==> !TwoActive(ps)
  {
    if ps != [] {
      var init := ps[..|ps| - 1];
      var last := |ps| - 1;
      AtMostOneActive(init);
      NoneActive(init);
      assert forall i :: 0 <= i < |init| ==> init[i] == ps[i];
      if TwoActive(init) {
        var i, j :| 0 <= i < j < |init| && init[i].IsActive() && init[j].IsActive();
        assert ps[i].IsActive() && ps[j].IsActive();
      }
      if ps[last].IsActive() && ActiveCount(init) > 0 {
        var i :| 0 <= i < |init| && init[i].IsActive();
        assert ps[i].IsActive() && i < last;
      }
      if TwoActive(ps) {
        var i, j :| 0 <= i < j < |ps| && ps[i].IsActive() && ps[j].IsActive();
        if j < last {
          assert init[i].IsActive() && init[j].IsActive();
        } else {
          assert init[i].IsActive();
        }
      }
    }
  }

  /** Seats `count` players with ids `0..count`, named after their id, default bank, checked. */
  method SeatPlayers(count: nat) returns (seats: seq<Player>)
    ensures |seats| == count
    ensures forall k :: 0 <= k < count ==> fresh(seats[k])
    ensures forall k :: 0 <= k < count ==>
      seats[k].id == k && seats[k].name == PlayerName(k) &&
      seats[k].bank == DefaultBank && seats[k].lastAction == PlayerAction.Check
  {
    seats := [];
    for i := 0 to count
      invariant |seats| == i
      invariant forall k :: 0 <= k < i ==> fresh(seats[k])
      invariant forall k :: 0 <= k < i ==>
        seats[k].id == k && seats[k].name == PlayerName(k) &&
        seats[k].bank == DefaultBank && seats[k].lastAction == PlayerAction.Check
    {
      var p := new Player(i, PlayerName(i), Option.None);
      seats := seats + [p];
    }
  }

  /** Shuffles the seating order: the same players, each once. */
  method ShuffleSeats(seats: seq<Player>, rng: nat -> nat) returns (order: seq<Player>)
    ensures multiset(order) == multiset(seats)
    ensures Distinct(seats) ==> Distinct(order)
  {
    var a := new Player[|seats|](k requires 0 <= k < |seats| => seats[k]);
    assert a[..] == seats;
    ShuffleInPlace(a, rng);
    order := a[..];
  }

  class Game {
    var players: seq<Player>
    var deck: Deck
    var turn: nat
    var state: GameState
    var pot: real
    var blind: real

    /**
     * `Game::new` for `playerCount` players (at most 255, the ids being
     * bytes): ids `0..playerCount` in a shuffled seating order, each with
     * the default bank, and a shuffled full deck. The two random generators
     * are parameters.
     */
    constructor (playerCount: nat, seatRng: nat -> nat, deckRng: nat -> nat)
      requires playerCount < 256
      ensures |players| == playerCount
      ensures forall i :: 0 <= i < |players| ==>
        fresh(players[i]) && players[i].id < playerCount && players[i].name == PlayerName(players[i].id) &&
        players[i].bank == DefaultBank && players[i].lastAction == PlayerAction.Check
      ensures forall i, j :: 0 <= i < j < |players| ==> players[i].id != players[j].id
      ensures fresh(deck) && fresh(deck.cards) && deck.Valid() && deck.dealt == 0
      ensures multiset(deck.cards[..]) == multiset(NewDeck()) && Distinct(deck.cards[..])
      ensures turn == 0 && state == PreFlop && pot == 0.0 && blind == InitialBlind
    {
      var seats := SeatPlayers(playerCount);
      assert Distinct(seats) by {
        forall i, j | 0 <= i < j < |seats|
          ensures seats[i] != seats[j]
        {
          assert seats[i].id != seats[j].id;
        }
      }
      var order := ShuffleSeats(seats, seatRng);
      forall i | 0 <= i < |order|
        ensures order[i] in seats && order[i] == seats[order[i].id]
      {
        assert order[i] in multiset(seats);
      }
      var d := new Deck();
      NewDeckHasNoRepeats();
      d.Shuffle(deckRng);
      players := order;
      deck := d;
      turn := 0;
      state := PreFlop;
      pot := 0.0;
      blind := InitialBlind;
    }

    /** The round is over once at most one player is still active. */
    method ShouldAdvanceState() returns (b: bool)
      ensures b <==> ActiveCount(players) <= 1
      ensures b <==> !TwoActive(players)
    {
      var active := 0;
      for i := 0 to |players|
        invariant active == ActiveCount(players[..i])
      {
        assert players[..i + 1][..i] == players[..i];
        if players[i].IsActive() {
          active := active + 1;
        }
      }
      assert players[..|players|] == players;
      AtMostOneActive(players);
      b := active <= 1;
    }

    /** Moves the round to its next stage and changes nothing else. */
    method AdvanceState()
      modifies this`state
      ensures state == Next(old(state))
    {
      match state
      case PreFlop =>
        state := Flop;
      case Flop =>
        state := Turn;
      case Turn =>
        state := River;
      case River =>
        state := Showdown;
      case Showdown =>
        state := PreFlop;
    }
  }
}
