/**
 * A player's two hole cards and the evaluation of those cards together
 * with the five community cards (`Hand` in src/hand.rs).
 *
 * The source groups the seven cards into two hash maps and walks them in
 * hash order. The model takes that order as a parameter: any listing,
 * without repeats, of exactly the keys present. `DetermineValue` is proved
 * to return `Evaluate` of the seven cards for every such order.
 */
module Hands {
  import opened Options
  import opened Cards
  import opened HandSpec

  /** `order` lists, without repeats, exactly the ranks occurring in `cs`. */
  predicate IsRankKeyOrder(cs: seq<Card>, order: seq<Rank>) {
    && (forall i, j :: 0 <= i < j < |order| ==> order[i] != order[j])
    && (forall r :: r in order <==> RankCount(cs, r) > 0)
  }

  /** `order` lists, without repeats, exactly the suits occurring in `cs`. */
  predicate IsSuitKeyOrder(cs: seq<Card>, order: seq<Suit>) {
    && (forall i, j :: 0 <= i < j < |order| ==> order[i] != order[j])
    && (forall s :: s in order <==> SuitCount(cs, s) > 0)
  }

  /**
   * A `u8` accumulator after walking `keys`: it takes the discriminant of
   * each rank occurring `k` times that is larger than what it holds.
   */
  function PrefixTop(cs: seq<Card>, keys: seq<Rank>, k: nat): nat
    decreases |keys|
  {
    if keys == [] then 0
    else
      var top := PrefixTop(cs, keys[..|keys| - 1], k);
      var r := keys[|keys| - 1];
      if RankCount(cs, r) == k && r.Value() > top then r.Value() else top
  }

  /** One more key walked. */
  lemma PrefixTopStep(cs: seq<Card>, keys: seq<Rank>, j: nat, k: nat)
    requires j < |keys|
    ensures PrefixTop(cs, keys[..j + 1], k) ==
      var top := PrefixTop(cs, keys[..j], k);
      if RankCount(cs, keys[j]) == k && keys[j].Value() > top then keys[j].Value() else top
  {
    assert keys[..j + 1][..j] == keys[..j];
  }

  lemma {:induction false} PrefixTopBounds(cs: seq<Card>, keys: seq<Rank>, k: nat)
    ensures forall r :: r in keys && RankCount(cs, r) == k ==> r.Value() <= PrefixTop(cs, keys, k)
    ensures PrefixTop(cs, keys, k) == 0 ||
            exists r :: r in keys && RankCount(cs, r) == k && r.Value() == PrefixTop(cs, keys, k)
    decreases |keys|
  {
    if keys != [] {
      var init := keys[..|keys| - 1];
      PrefixTopBounds(cs, init, k);
      assert keys == init + [keys[|keys| - 1]];
    }
  }

  /** Walking every rank present, in any order, ends at the highest such rank. */
  lemma PrefixTopIsHighest(cs: seq<Card>, keys: seq<Rank>, k: nat)
    requires k > 0 && forall r :: RankCount(cs, r) > 0 ==> r in keys
    ensures PrefixTop(cs, keys, k) == HighestWithCount(cs, k)
  {
    PrefixTopBounds(cs, keys, k);
    HighestWithCountBounds(cs, k);
  }

  /**
   * Once both accumulators are positive part way through the walk, the
   * triple found is the only one, so the early return agrees with the
   * full walk.
   */
  lemma FullHouseFound(cs: seq<Card>, keys: seq<Rank>)
    requires |cs| == 7 && PrefixTop(cs, keys, 3) > 0 && PrefixTop(cs, keys, 2) > 0
    ensures HighestWithCount(cs, 3) == PrefixTop(cs, keys, 3)
    ensures HighestWithCount(cs, 2) > 0
  {
    PrefixTopBounds(cs, keys, 3);
    PrefixTopBounds(cs, keys, 2);
    var t :| t in keys && RankCount(cs, t) == 3 && t.Value() == PrefixTop(cs, keys, 3);
    var p :| p in keys && RankCount(cs, p) == 2 && p.Value() == PrefixTop(cs, keys, 2);
    OnlyTriple(cs, t, p);
    HighestWithCountBounds(cs, 3);
    HighestWithCountBounds(cs, 2);
  }

  /** The ranks among `keys` occurring exactly twice. */
  function PairKeys(cs: seq<Card>, keys: seq<Rank>): set<Rank> {
    set r | r in keys && RankCount(cs, r) == 2
  }

  lemma PairKeysStep(cs: seq<Card>, keys: seq<Rank>, j: nat)
    requires j < |keys| && keys[j] !in keys[..j]
    ensures |PairKeys(cs, keys[..j + 1])| == |PairKeys(cs, keys[..j])| + (if RankCount(cs, keys[j]) == 2 then 1 else 0)
  {
    var r := keys[j];
    assert keys[..j + 1] == keys[..j] + [r];
    if RankCount(cs, r) == 2 {
      assert PairKeys(cs, keys[..j + 1]) == PairKeys(cs, keys[..j]) + {r};
    } else {
      assert PairKeys(cs, keys[..j + 1]) == PairKeys(cs, keys[..j]);
    }
  }

  lemma PairKeysOfAllRanks(cs: seq<Card>, keys: seq<Rank>)
    requires forall r :: r in keys <==> RankCount(cs, r) > 0
    ensures PairKeys(cs, keys) == PairRanks(cs)
  {
    forall r
      ensures r in PairKeys(cs, keys) <==> r in PairRanks(cs)
    {
      RanksDescListsEveryRank(r);
    }
  }

  /** `cards_by_rank` after the cards `cs` were pushed. */
  predicate GroupedByRank(cs: seq<Card>, byRank: map<Rank, seq<Card>>) {
    && (forall r :: r in byRank <==> RankCount(cs, r) > 0)
    && (forall r :: r in byRank ==> byRank[r] == WithRank(cs, r))
  }

  /** `cards_by_suit` after the cards `cs` were pushed. */
  predicate GroupedBySuit(cs: seq<Card>, bySuit: map<Suit, seq<Card>>) {
    && (forall s :: s in bySuit <==> SuitCount(cs, s) > 0)
    && (forall s :: s in bySuit ==> bySuit[s] == WithSuit(cs, s))
  }

  function PushByRank(byRank: map<Rank, seq<Card>>, c: Card): map<Rank, seq<Card>> {
    if c.rank in byRank then byRank[c.rank := byRank[c.rank] + [c]] else byRank[c.rank := [c]]
  }

  function PushBySuit(bySuit: map<Suit, seq<Card>>, c: Card): map<Suit, seq<Card>> {
    if c.suit in bySuit then bySuit[c.suit := bySuit[c.suit] + [c]] else bySuit[c.suit := [c]]
  }

  lemma PushKeepsGroupedByRank(cs: seq<Card>, byRank: map<Rank, seq<Card>>, c: Card)
    requires GroupedByRank(cs, byRank)
    ensures GroupedByRank(cs + [c], PushByRank(byRank, c))
  {
    assert (cs + [c])[..|cs|] == cs;
    var m := PushByRank(byRank, c);
    forall r
      ensures r in m <==> RankCount(cs + [c], r) > 0
      ensures r in m ==> m[r] == WithRank(cs + [c], r)
    {
      assert WithRank(cs + [c], r) == WithRank(cs, r) + (if c.rank == r then [c] else []);
    }
  }

  lemma PushKeepsGroupedBySuit(cs: seq<Card>, bySuit: map<Suit, seq<Card>>, c: Card)
    requires GroupedBySuit(cs, bySuit)
    ensures GroupedBySuit(cs + [c], PushBySuit(bySuit, c))
  {
    assert (cs + [c])[..|cs|] == cs;
    var m := PushBySuit(bySuit, c);
    forall s
      ensures s in m <==> SuitCount(cs + [c], s) > 0
      ensures s in m ==> m[s] == WithSuit(cs + [c], s)
    {
      assert WithSuit(cs + [c], s) == WithSuit(cs, s) + (if c.suit == s then [c] else []);
    }
  }

  /** The loop filling `cards_by_rank` and `cards_by_suit`. */
  method GroupCards(all: seq<Card>) returns (byRank: map<Rank, seq<Card>>, bySuit: map<Suit, seq<Card>>)
    ensures GroupedByRank(all, byRank) && GroupedBySuit(all, bySuit)
  {
    byRank := map[];
    bySuit := map[];
    for i := 0 to |all|
      invariant GroupedByRank(all[..i], byRank) && GroupedBySuit(all[..i], bySuit)
    {
      var card := all[i];
      assert all[..i + 1] == all[..i] + [card];
      PushKeepsGroupedByRank(all[..i], byRank, card);
      PushKeepsGroupedBySuit(all[..i], bySuit, card);
      if card.rank in byRank {
        byRank := byRank[card.rank := byRank[card.rank] + [card]];
      } else {
        byRank := byRank[card.rank := [card]];
      }
      if card.suit in bySuit {
        bySuit := bySuit[card.suit := bySuit[card.suit] + [card]];
      } else {
        bySuit := bySuit[card.suit := [card]];
      }
    }
    assert all[..|all|] == all;
  }

  // ---------------------------------------------------------------------
  // The phases of `determine_value`, each returning early with `Some`

  /**
   * `for i in 0..ranked.len()-5` with the four-step test: the rank where it
   * first succeeds.
   */
  method ScanForRun(ranked: seq<Card>) returns (top: Option<nat>)
    requires |ranked| >= 5
    ensures top == RunTop(ranked)
  {
    for i := 0 to |ranked| - 5
      invariant forall i' :: 0 <= i' < i ==> !StepsUpAt(ranked, i')
    {
      if StepsUpAt(ranked, i) {
        return Some(ranked[i].rank.Value());
      }
    }
    return Option.None;
  }

  /**
   * The body of the first loop over `cards_by_suit` for a suit with five or
   * more cards; `None` where the source moves on to the next suit.
   */
  method CheckRunOfSuit(suitCards: seq<Card>) returns (found: Option<Scored>)
    ensures found == RunOfSuit(Ranked(suitCards))
  {
    var ranked := SortByRankDesc(suitCards);
    ranked := DedupByRank(ranked);
    assert ranked == Ranked(suitCards);
    if |ranked| < 5 {
      return Option.None;
    }
    if RoyalRanks <= Ranks(ranked) {
      return Some(Scored(RoyalFlush, ranked[0].rank.Value()));
    }
    var top := ScanForRun(ranked);
    match top
    case Some(t) => return Some(Scored(StraightFlush, t));
    case _ => return Option.None;
  }

  /** No suit at all holds five cards once the walk saw none. */
  lemma NoSuitWithFive(all: seq<Card>, suitOrder: seq<Suit>)
    requires IsSuitKeyOrder(all, suitOrder)
    requires forall j :: 0 <= j < |suitOrder| ==> SuitCount(all, suitOrder[j]) < 5
    ensures FlushSuit(all).None?
  {
  }

  /** A suit of five decides the suited tests. */
  lemma SuitedRunAt(all: seq<Card>, bySuit: map<Suit, seq<Card>>, s: Suit)
    requires |all| == 7 && GroupedBySuit(all, bySuit)
    requires s in bySuit && |bySuit[s]| >= 5
    ensures SuitedRunScore(all) == RunOfSuit(Ranked(bySuit[s]))
  {
    FlushSuitIs(all, s);
  }

  /** The first loop over `cards_by_suit`: royal flush, then straight flush. */
  method CheckSuitedRuns(all: seq<Card>, bySuit: map<Suit, seq<Card>>, suitOrder: seq<Suit>)
    returns (found: Option<Scored>)
    requires |all| == 7 && GroupedBySuit(all, bySuit) && IsSuitKeyOrder(all, suitOrder)
    ensures found == SuitedRunScore(all)
  {
    ghost var scanned := false;
    for j := 0 to |suitOrder|
      invariant scanned ==> SuitedRunScore(all).None?
      invariant !scanned ==> forall j' :: 0 <= j' < j ==> SuitCount(all, suitOrder[j']) < 5
    {
      var suitCards := bySuit[suitOrder[j]];
      if |suitCards| >= 5 {
        SuitedRunAt(all, bySuit, suitOrder[j]);
        var run := CheckRunOfSuit(suitCards);
        if run.Some? {
          return run;
        }
        scanned := true;
      }
    }
    if !scanned {
      NoSuitWithFive(all, suitOrder);
    }
    return Option.None;
  }

  /** The loop looking for a rank with four cards. */
  method CheckFour(all: seq<Card>, byRank: map<Rank, seq<Card>>, rankOrder: seq<Rank>)
    returns (found: Option<Scored>)
    requires |all| == 7 && GroupedByRank(all, byRank) && IsRankKeyOrder(all, rankOrder)
    ensures found == FourOfAKindScore(all)
  {
    for j := 0 to |rankOrder|
      invariant forall j' :: 0 <= j' < j ==> RankCount(all, rankOrder[j']) != 4
    {
      var rank := rankOrder[j];
      if |byRank[rank]| == 4 {
        FourOfAKindIs(all, rank);
        return Some(Scored(FourOfAKind, rank.Value()));
      }
    }
    return Option.None;
  }

  /** The loop with the two accumulators that returns once both are positive. */
  method CheckFullHouse(all: seq<Card>, byRank: map<Rank, seq<Card>>, rankOrder: seq<Rank>)
    returns (found: Option<Scored>)
    requires |all| == 7 && GroupedByRank(all, byRank) && IsRankKeyOrder(all, rankOrder)
    ensures found == FullHouseScore(all)
  {
    var pair := 0;
    var threeOfAKind := 0;
    for j := 0 to |rankOrder|
      invariant threeOfAKind == PrefixTop(all, rankOrder[..j], 3)
      invariant pair == PrefixTop(all, rankOrder[..j], 2)
      invariant !(threeOfAKind > 0 && pair > 0)
    {
      var rank := rankOrder[j];
      PrefixTopStep(all, rankOrder, j, 3);
      PrefixTopStep(all, rankOrder, j, 2);
      if |byRank[rank]| == 3 && rank.Value() > threeOfAKind {
        threeOfAKind := rank.Value();
      }
      if |byRank[rank]| == 2 && rank.Value() > pair {
        pair := rank.Value();
      }
      if threeOfAKind > 0 && pair > 0 {
        FullHouseFound(all, rankOrder[..j + 1]);
        return Some(Scored(FullHouse, threeOfAKind));
      }
    }
    assert rankOrder[..|rankOrder|] == rankOrder;
    PrefixTopIsHighest(all, rankOrder, 3);
    PrefixTopIsHighest(all, rankOrder, 2);
    return Option.None;
  }

  /** The suit whose group holds five cards decides the flush test. */
  lemma FlushFoundAt(all: seq<Card>, bySuit: map<Suit, seq<Card>>, s: Suit)
    requires |all| == 7 && GroupedBySuit(all, bySuit) && s in bySuit && |bySuit[s]| >= 5
    ensures FlushScore(all) == Some(Scored(Flush, SortByRankDesc(bySuit[s])[0].rank.Value()))
  {
    FlushSuitIs(all, s);
  }

  /** The second loop over `cards_by_suit`: the highest card of a suit with five. */
  method CheckFlush(all: seq<Card>, bySuit: map<Suit, seq<Card>>, suitOrder: seq<Suit>)
    returns (found: Option<Scored>)
    requires |all| == 7 && GroupedBySuit(all, bySuit) && IsSuitKeyOrder(all, suitOrder)
    ensures found == FlushScore(all)
  {
    for j := 0 to |suitOrder|
      invariant forall j' :: 0 <= j' < j ==> SuitCount(all, suitOrder[j']) < 5
    {
      var suitCards := bySuit[suitOrder[j]];
      if |suitCards| >= 5 {
        FlushFoundAt(all, bySuit, suitOrder[j]);
        var sorted := SortByRankDesc(suitCards);
        return Some(Scored(Flush, sorted[0].rank.Value()));
      }
      assert SuitCount(all, suitOrder[j]) < 5;
    }
    NoSuitWithFive(all, suitOrder);
    return Option.None;
  }

  /** The scan of all seven cards, sorted and deduplicated, for five steps up. */
  method CheckStraight(all: seq<Card>) returns (ranked: seq<Card>, found: Option<Scored>)
    ensures ranked == Ranked(all)
    ensures found == StraightScore(all)
  {
    ranked := SortByRankDesc(all);
    ranked := DedupByRank(ranked);
    if |ranked| >= 5 {
      var top := ScanForRun(ranked);
      if top.Some? {
        return ranked, Some(Scored(Straight, top.value));
      }
    }
    return ranked, Option.None;
  }

  /** A loop keeping the highest discriminant among the ranks with `k` cards. */
  method HighestInWalk(all: seq<Card>, byRank: map<Rank, seq<Card>>, rankOrder: seq<Rank>, k: nat)
    returns (top: nat)
    requires GroupedByRank(all, byRank) && IsRankKeyOrder(all, rankOrder) && k > 0
    ensures top == HighestWithCount(all, k)
  {
    top := 0;
    for j := 0 to |rankOrder|
      invariant top == PrefixTop(all, rankOrder[..j], k)
    {
      var rank := rankOrder[j];
      PrefixTopStep(all, rankOrder, j, k);
      if |byRank[rank]| == k && rank.Value() > top {
        top := rank.Value();
      }
    }
    assert rankOrder[..|rankOrder|] == rankOrder;
    PrefixTopIsHighest(all, rankOrder, k);
  }

  /** The pair loop: the highest pair and how many ranks hold exactly two cards. */
  method CountPairs(all: seq<Card>, byRank: map<Rank, seq<Card>>, rankOrder: seq<Rank>)
    returns (pairRank: nat, pairCount: nat)
    requires GroupedByRank(all, byRank) && IsRankKeyOrder(all, rankOrder)
    ensures pairRank == HighestWithCount(all, 2)
    ensures pairCount == |PairRanks(all)|
  {
    pairRank := 0;
    pairCount := 0;
    for j := 0 to |rankOrder|
      invariant pairRank == PrefixTop(all, rankOrder[..j], 2)
      invariant pairCount == |PairKeys(all, rankOrder[..j])|
    {
      var rank := rankOrder[j];
      PairKeysStep(all, rankOrder, j);
      PrefixTopStep(all, rankOrder, j, 2);
      if |byRank[rank]| == 2 {
        pairCount := pairCount + 1;
        if rank.Value() > pairRank {
          pairRank := rank.Value();
        }
      }
    }
    assert rankOrder[..|rankOrder|] == rankOrder;
    PrefixTopIsHighest(all, rankOrder, 2);
    PairKeysOfAllRanks(all, rankOrder);
  }

  class Hand {
    var cards: array<Card>
    var value: Scored

    ghost predicate Valid()
      reads this
    {
      cards.Length == 2
    }

    /** Two unset cards and no value yet. */
    constructor ()
      ensures Valid() && fresh(cards)
      ensures cards[..] == [Unset, Unset] && value == Scored(ScoringHands.None, 0)
    {
      cards := new Card[2](_ => Unset);
      value := Scored(ScoringHands.None, 0);
    }

    method Reset()
      requires Valid()
      modifies cards, this`value
      ensures cards[..] == [Unset, Unset] && value == Scored(ScoringHands.None, 0)
    {
      cards[0] := Unset;
      cards[1] := Unset;
      value := Scored(ScoringHands.None, 0);
    }

    /** Deals the next two cards of the deck into the hand. */
    method Fill(deck: Deck)
      requires Valid() && deck.Valid() && deck.dealt + 2 <= 52 && deck.cards != cards
      modifies cards, deck`dealt
      ensures cards[..] == old(deck.cards[deck.dealt..deck.dealt + 2])
      ensures deck.dealt == old(deck.dealt) + 2
    {
      cards[0] := deck.Deal();
      cards[1] := deck.Deal();
    }

    /** The hole cards followed by the board, in the order the source lists them. */
    ghost function AllCards(community: Community): seq<Card>
      reads this, cards, community, community.cards
    {
      cards[..] + community.cards[..]
    }

    /**
     * The evaluation itself. `suitOrder` and `rankOrder` are the orders in
     * which the two hash maps happen to be walked.
     */
    method DetermineValue(community: Community, rankOrder: seq<Rank>, suitOrder: seq<Suit>) returns (v: Scored)
      requires Valid() && community.Valid()
      requires IsRankKeyOrder(AllCards(community), rankOrder)
      requires IsSuitKeyOrder(AllCards(community), suitOrder)
      ensures v == Evaluate(AllCards(community))
    {
      var all := [cards[0], cards[1], community.cards[0], community.cards[1], community.cards[2],
                  community.cards[3], community.cards[4]];
      assert all == AllCards(community);
      var byRank, bySuit := GroupCards(all);
      var found := CheckSuitedRuns(all, bySuit, suitOrder);
      if found.Some? {
        return found.value;
      }
      found := CheckFour(all, byRank, rankOrder);
      if found.Some? {
        return found.value;
      }
      found := CheckFullHouse(all, byRank, rankOrder);
      if found.Some? {
        return found.value;
      }
      found := CheckFlush(all, bySuit, suitOrder);
      if found.Some? {
        return found.value;
      }
      var ranked;
      ranked, found := CheckStraight(all);
      if found.Some? {
        return found.value;
      }
      var threeOfAKind := HighestInWalk(all, byRank, rankOrder, 3);
      if threeOfAKind > 0 {
        return Scored(ThreeOfAKind, threeOfAKind);
      }
      var pairRank, pairCount := CountPairs(all, byRank, rankOrder);
      if pairCount == 1 {
        return Scored(OnePair, pairRank);
      } else if pairCount >= 2 {
        return Scored(TwoPair, pairRank);
      }
      RankedFacts(all);
      return Scored(HighCard, ranked[0].rank.Value());
    }

    /** Evaluates the hand and stores the result in `value`. */
    method HandValue(community: Community, rankOrder: seq<Rank>, suitOrder: seq<Suit>) returns (v: Scored)
      requires Valid() && community.Valid()
      requires IsRankKeyOrder(AllCards(community), rankOrder)
      requires IsSuitKeyOrder(AllCards(community), suitOrder)
      modifies this`value
      ensures v == value == Evaluate(AllCards(community))
    {
      value := DetermineValue(community, rankOrder, suitOrder);
      v := value;
    }
  }
}
