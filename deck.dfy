/**
 * Cards, the 52-card deck with its deal cursor, and the five-slot
 * community board (src/deck.rs).
 */
module Cards {
  import opened Shuffling

  /** Declaration order gives the derived ordering; `None` marks an unset slot. */
  datatype Suit = None | Clubs | Diamonds | Hearts | Spades

  /** Declaration order gives the derived ordering; `None` marks an unset slot. */
  datatype Rank = None | Two | Three | Four | Five | Six | Seven | Eight
                | Nine | Ten | Jack | Queen | King | Ace
  {
    /** The discriminant, which the evaluator reads as `rank as u8`. */
    function Value(): (v: nat)
      ensures v <= 13
      ensures v == 0 <==> this == Rank.None
    {
      match this
      case None => 0
      case Two => 1
      case Three => 2
      case Four => 3
      case Five => 4
      case Six => 5
      case Seven => 6
      case Eight => 7
      case Nine => 8
      case Ten => 9
      case Jack => 10
      case Queen => 11
      case King => 12
      case Ace => 13
    }
  }

  datatype Card = Card(suit: Suit, rank: Rank)

  /** The placeholder held by a board or hand slot that has not been dealt. */
  const Unset: Card := Card(Suit.None, Rank.None)

  predicate IsReal(c: Card) {
    c.suit != Suit.None && c.rank != Rank.None
  }

  /** The suits of a new deck, outer loop of `Deck::new`. */
  const DeckSuits: seq<Suit> := [Clubs, Diamonds, Hearts, Spades]

  /** The ranks of a new deck, inner loop of `Deck::new`: the Ace leads. */
  const DeckRanks: seq<Rank> := [Ace, Two, Three, Four, Five, Six, Seven, Eight, Nine, Ten, Jack, Queen, King]

  /** The card at position `k` of a deck straight out of `Deck::new`. */
  function NewDeckCard(k: nat): (c: Card)
    requires k < 52
    ensures IsReal(c)
  {
    Card(DeckSuits[k / 13], DeckRanks[k % 13])
  }

  /** Where a real card sits in a new deck. */
  function NewDeckIndex(c: Card): (k: nat)
    requires IsReal(c)
    ensures k < 52 && NewDeckCard(k) == c
  {
    var s := match c.suit
      case Clubs => 0 case Diamonds => 1 case Hearts => 2 case Spades => 3;
    var r := if c.rank == Ace then 0 else c.rank.Value();
    assert (13 * s + r) / 13 == s && (13 * s + r) % 13 == r;
    13 * s + r
  }

  /** Every real card is in a new deck, and nothing else is. */
  lemma NewDeckIsComplete(c: Card)
    ensures IsReal(c) <==> exists k :: 0 <= k < 52 && NewDeckCard(k) == c
  {
    if IsReal(c) {
      var k := NewDeckIndex(c);
      assert NewDeckCard(k) == c;
    }
  }

  /** No card appears twice in a new deck. */
  lemma NewDeckIsDistinct(j: nat, k: nat)
    requires j < 52 && k < 52 && j != k
    ensures NewDeckCard(j) != NewDeckCard(k)
  {
  }

  /** A deck straight out of `Deck::new`, as a sequence. */
  function NewDeck(): (d: seq<Card>)
    ensures |d| == 52 && forall k :: 0 <= k < 52 ==> d[k] == NewDeckCard(k)
  {
    seq(52, k requires 0 <= k < 52 => NewDeckCard(k))
  }

  /** Whatever order a shuffle leaves, the deck holds exactly the real cards. */
  lemma ShuffledDeckIsComplete(s: seq<Card>)
    requires multiset(s) == multiset(NewDeck())
    ensures forall c :: c in s <==> IsReal(c)
  {
    forall c
      ensures c in s <==> IsReal(c)
    {
      NewDeckIsComplete(c);
      assert c in s <==> c in multiset(NewDeck());
    }
  }

  /** A new deck holds each card once. */
  lemma NewDeckHasNoRepeats()
    ensures Distinct(NewDeck())
  {
    forall j, k | 0 <= j < k < 52
      ensures NewDeck()[j] != NewDeck()[k]
    {
      NewDeckIsDistinct(j, k);
    }
  }

  class Deck {
    var cards: array<Card>
    var dealt: nat

    ghost predicate Valid()
      reads this
    {
      cards.Length == 52
    }

    /** `Deck::new`: suits Clubs to Spades, each Ace, Two, ..., King; nothing dealt. */
    constructor ()
      ensures Valid() && fresh(cards) && dealt == 0
      ensures cards[..] == NewDeck()
    {
      var a := new Card[52](_ => Card(Clubs, Ace));
      var i := 0;
      for si := 0 to 4
        invariant i == 13 * si
        invariant forall k :: 0 <= k < i ==> a[k] == NewDeckCard(k)
      {
        for ri := 0 to 13
          invariant i == 13 * si + ri
          invariant forall k :: 0 <= k < i ==> a[k] == NewDeckCard(k)
        {
          assert i / 13 == si && i % 13 == ri;
          a[i] := Card(DeckSuits[si], DeckRanks[ri]);
          i := i + 1;
        }
      }
      cards := a;
      dealt := 0;
    }

    /** `Deck::shuffle`: rearranges the cards and restarts the deal. */
    method Shuffle(rng: nat -> nat)
      requires Valid()
      modifies this`dealt, cards
      ensures Valid() && dealt == 0
      ensures multiset(cards[..]) == old(multiset(cards[..]))
      ensures Distinct(old(cards[..])) ==> Distinct(cards[..])
    {
      ShuffleInPlace(cards, rng);
      dealt := 0;
    }

    /** `Deck::deal`: indexing past the last card panics in the source. */
    method Deal() returns (c: Card)
      requires Valid() && dealt < 52
      modifies this`dealt
      ensures c == cards[old(dealt)] && dealt == old(dealt) + 1
    {
      c := cards[dealt];
      dealt := dealt + 1;
    }

    /** `Deck::discard`: burns a card by moving the cursor only. */
    method Discard()
      modifies this`dealt
      ensures dealt == old(dealt) + 1
    {
      dealt := dealt + 1;
    }
  }

  class Community {
    var cards: array<Card>

    ghost predicate Valid()
      reads this
    {
      cards.Length == 5
    }

    constructor ()
      ensures Valid() && fresh(cards)
      ensures cards[..] == [Unset, Unset, Unset, Unset, Unset]
    {
      cards := new Card[5](_ => Unset);
    }

    method Reset()
      requires Valid()
      modifies cards
      ensures cards[..] == [Unset, Unset, Unset, Unset, Unset]
    {
      for k := 0 to 5
        invariant forall j :: 0 <= j < k ==> cards[j] == Unset
      {
        cards[k] := Unset;
      }
    }

    /** Deals three cards into slots 0, 1 and 2 and returns them in deal order. */
    method Flop(deck: Deck) returns (flop: seq<Card>)
      requires Valid() && deck.Valid() && deck.dealt + 3 <= 52 && deck.cards != cards
      modifies cards, deck`dealt
      ensures flop == old(deck.cards[deck.dealt..deck.dealt + 3])
      ensures cards[..] == flop + old(cards[3..])
      ensures deck.dealt == old(deck.dealt) + 3
    {
      var c0 := deck.Deal();
      var c1 := deck.Deal();
      var c2 := deck.Deal();
      flop := [c0, c1, c2];
      cards[0] := flop[0];
      cards[1] := flop[1];
      cards[2] := flop[2];
    }

    /** Deals one card into slot 3. */
    method Turn(deck: Deck) returns (c: Card)
      requires Valid() && deck.Valid() && deck.dealt < 52 && deck.cards != cards
      modifies cards, deck`dealt
      ensures c == old(deck.cards[deck.dealt])
      ensures cards[..] == old(cards[..])[3 := c]
      ensures deck.dealt == old(deck.dealt) + 1
    {
      cards[3] := deck.Deal();
      c := cards[3];
    }

    /** Deals one card into slot 4. */
    method River(deck: Deck) returns (c: Card)
      requires Valid() && deck.Valid() && deck.dealt < 52 && deck.cards != cards
      modifies cards, deck`dealt
      ensures c == old(deck.cards[deck.dealt])
      ensures cards[..] == old(cards[..])[4 := c]
      ensures deck.dealt == old(deck.dealt) + 1
    {
      cards[4] := deck.Deal();
      c := cards[4];
    }
  }
}
