/**
 * What the categories returned by `Evaluate` mean for seven cards, and the
 * two hands of tests/hand_value_test.rs.
 *
 * Two properties of the source show up here: neither straight test can
 * ever succeed (the cards are sorted highest first, the test looks for
 * ranks going up), and three cards of one rank with three of another is
 * not a full house.
 */
module HandFacts {
  import opened Options
  import opened Cards
  import opened HandSpec

  /** Some suit holds the ten, jack, queen, king and ace. */
  ghost predicate HasRoyal(cs: seq<Card>) {
    exists s :: RoyalRanks <= Ranks(WithSuit(cs, s))
  }

  /** Some rank occurs exactly four times. */
  ghost predicate HasFour(cs: seq<Card>) {
    exists r :: RankCount(cs, r) == 4
  }

  /** No suit holds five or more of the cards. */
  ghost predicate NoFlush(cs: seq<Card>) {
    forall s :: SuitCount(cs, s) < 5
  }

  /** The head of a list sorted strictly highest first is its highest card. */
  lemma StrictHeadIsHighest(s: seq<Card>)
    requires StrictlyDescendingByRank(s) && s != []
    ensures forall c :: c in s ==> c.rank.Value() <= s[0].rank.Value()
  {
    forall c | c in s
      ensures c.rank.Value() <= s[0].rank.Value()
    {
      var i :| 0 <= i < |s| && s[i] == c;
      if i > 0 {
        assert s[0].rank.Value() > s[i].rank.Value();
      }
    }
  }

  lemma {:induction false} SubsetSize<T>(a: set<T>, b: set<T>)
    requires a <= b
    ensures |a| <= |b|
    decreases a
  {
    if a != {} {
      var x :| x in a;
      SubsetSize(a - {x}, b - {x});
    }
  }

  /** Five distinct ranks need five cards. */
  lemma RoyalNeedsFive(cs: seq<Card>, s: Suit)
    requires RoyalRanks <= Ranks(WithSuit(cs, s))
    ensures SuitCount(cs, s) >= 5
  {
    RanksAtMostCards(WithSuit(cs, s));
    SubsetSize(RoyalRanks, Ranks(WithSuit(cs, s)));
    RoyalRanksAreFive();
  }

  /** Cards sorted strictly highest first that hold the royal ranks are at least five, led by the ace. */
  lemma RoyalLeadsWithAce(suited: seq<Card>)
    requires StrictlyDescendingByRank(suited) && RoyalRanks <= Ranks(suited)
    ensures |suited| >= 5 && suited[0].rank == Ace
  {
    SubsetSize(RoyalRanks, Ranks(suited));
    RanksAtMostCards(suited);
    RoyalRanksAreFive();
    StrictHeadIsHighest(suited);
    assert Ace in Ranks(suited);
    var ace :| ace in suited && ace.rank == Ace;
  }

  /** On the deduplicated cards of a suit, only the royal test can succeed. */
  lemma RunOfSuitIsRoyalTest(x: seq<Card>)
    ensures RunOfSuit(Ranked(x)).Some? <==> RoyalRanks <= Ranks(x)
    ensures RunOfSuit(Ranked(x)).Some? ==> RunOfSuit(Ranked(x)).value == Scored(RoyalFlush, Ace.Value())
  {
    var suited := Ranked(x);
    RankedFacts(x);
    RunTopNeverOnDescending(suited);
    if RoyalRanks <= Ranks(x) {
      RoyalLeadsWithAce(suited);
    }
  }

  /** The first suit walk only ever yields a royal flush, and exactly when there is one. */
  lemma SuitedRunOnlyRoyal(cs: seq<Card>)
    requires |cs| == 7
    ensures SuitedRunScore(cs).Some? ==> SuitedRunScore(cs).value == Scored(RoyalFlush, Ace.Value())
    ensures SuitedRunScore(cs).Some? <==> HasRoyal(cs)
  {
    if HasRoyal(cs) {
      var t :| RoyalRanks <= Ranks(WithSuit(cs, t));
      RoyalNeedsFive(cs, t);
      FlushSuitIs(cs, t);
    }
    match FlushSuit(cs)
    case Some(s) =>
      RunOfSuitIsRoyalTest(WithSuit(cs, s));
    case _ =>
  }

  /** A royal flush is reported exactly when one suit holds the five royal ranks, with the ace's discriminant. */
  lemma EvaluateRoyalFlush(cs: seq<Card>)
    requires |cs| == 7
    ensures Evaluate(cs).category == RoyalFlush <==> HasRoyal(cs)
    ensures HasRoyal(cs) ==> Evaluate(cs).tieBreak == Ace.Value()
  {
    SuitedRunOnlyRoyal(cs);
  }

  /** The straight test on all the cards never succeeds. */
  lemma StraightScoreNever(cs: seq<Card>)
    ensures StraightScore(cs).None?
  {
    RankedFacts(cs);
    RunTopNeverOnDescending(Ranked(cs));
  }

  /** Neither straight test ever succeeds on any seven cards. */
  lemma EvaluateNeverStraight(cs: seq<Card>)
    requires |cs| == 7
    ensures Evaluate(cs).category != Straight && Evaluate(cs).category != StraightFlush
  {
    SuitedRunOnlyRoyal(cs);
    StraightScoreNever(cs);
  }

  /** Four of a kind is reported exactly when a rank occurs four times and there is no royal flush. */
  lemma EvaluateFourOfAKind(cs: seq<Card>)
    requires |cs| == 7
    ensures Evaluate(cs).category == FourOfAKind <==> HasFour(cs) && !HasRoyal(cs)
    ensures Evaluate(cs).category == FourOfAKind ==>
      exists r :: RankCount(cs, r) == 4 && r.Value() == Evaluate(cs).tieBreak
  {
    SuitedRunOnlyRoyal(cs);
    if HasFour(cs) {
      var r :| RankCount(cs, r) == 4;
      FourOfAKindIs(cs, r);
    }
  }

  /** With cards of real ranks, the accumulator is positive exactly when some rank occurs `k` times. */
  lemma HighestWithCountPositive(cs: seq<Card>, k: nat)
    requires AllReal(cs) && k > 0
    ensures HighestWithCount(cs, k) > 0 <==> exists r :: RankCount(cs, r) == k
  {
    HighestWithCountBounds(cs, k);
    if r :| RankCount(cs, r) == k {
      RankCountPositive(cs, r);
      var c :| c in cs && c.rank == r;
    }
  }

  /** No rank occurs four times once one occurs three times and another twice. */
  lemma NoFourBesideFullHouse(cs: seq<Card>, t: Rank, p: Rank)
    requires |cs| == 7 && RankCount(cs, t) == 3 && RankCount(cs, p) == 2
    ensures !HasFour(cs)
  {
    if q :| RankCount(cs, q) == 4 {
      ThreeRanksShareCards(cs, t, p, q);
    }
  }

  /** A triple and a pair of real ranks, without a royal flush, score as a full house on the triple. */
  lemma EvaluateFullHouse(cs: seq<Card>, t: Rank, p: Rank)
    requires |cs| == 7 && t != Rank.None && p != Rank.None
    requires RankCount(cs, t) == 3 && RankCount(cs, p) == 2 && !HasRoyal(cs)
    ensures Evaluate(cs) == Scored(FullHouse, t.Value())
  {
    SuitedRunOnlyRoyal(cs);
    NoFourBesideFullHouse(cs, t, p);
    OnlyTriple(cs, t, p);
    HighestWithCountBounds(cs, 3);
    HighestWithCountBounds(cs, 2);
  }

  /** Two triples leave one card, so no rank occurs twice. */
  lemma NoPairBesideTwoTriples(cs: seq<Card>, a: Rank, b: Rank)
    requires |cs| == 7 && a != b && RankCount(cs, a) == 3 && RankCount(cs, b) == 3
    ensures HighestWithCount(cs, 2) == 0
  {
    HighestWithCountBounds(cs, 2);
    if q :| RankCount(cs, q) == 2 {
      ThreeRanksShareCards(cs, a, b, q);
    }
  }

  /** Two triples leave no pair among seven cards, so the source does not call them a full house. */
  lemma TwoTriplesAreNotFullHouse(cs: seq<Card>, a: Rank, b: Rank)
    requires |cs| == 7 && a != b && RankCount(cs, a) == 3 && RankCount(cs, b) == 3
    ensures Evaluate(cs).category != FullHouse
  {
    NoPairBesideTwoTriples(cs, a, b);
  }

  /** The flush test scores the highest rank among the cards of the suit holding five. */
  lemma FlushScoreIsHighestOfSuit(cs: seq<Card>, s: Suit)
    requires |cs| == 7 && AllReal(cs) && SuitCount(cs, s) >= 5
    ensures FlushScore(cs).Some?
    ensures forall c :: c in cs && c.suit == s ==> c.rank.Value() <= FlushScore(cs).value.tieBreak
    ensures exists c :: c in cs && c.suit == s && c.rank.Value() == FlushScore(cs).value.tieBreak
  {
    FlushSuitIs(cs, s);
    var sorted := SortByRankDesc(WithSuit(cs, s));
    HeadIsHighest(sorted);
    assert sorted[0] in multiset(WithSuit(cs, s));
    forall c | c in cs && c.suit == s
      ensures c.rank.Value() <= sorted[0].rank.Value()
    {
      assert c in multiset(sorted);
    }
  }

  /** With a suit holding five and none of the earlier hands, the flush test decides. */
  lemma EvaluateIsFlushScore(cs: seq<Card>, s: Suit)
    requires |cs| == 7 && AllReal(cs) && SuitCount(cs, s) >= 5
    requires !HasRoyal(cs) && !HasFour(cs)
    requires forall t, p :: !(RankCount(cs, t) == 3 && RankCount(cs, p) == 2)
    ensures FlushScore(cs).Some? && Evaluate(cs) == FlushScore(cs).value
  {
    SuitedRunOnlyRoyal(cs);
    FlushSuitIs(cs, s);
    HighestWithCountPositive(cs, 3);
    HighestWithCountPositive(cs, 2);
  }

  /**
   * Five cards of one suit, without a royal flush, four of a kind or a
   * triple beside a pair, score as a flush on the suit's highest rank.
   */
  lemma EvaluateFlush(cs: seq<Card>, s: Suit)
    requires |cs| == 7 && AllReal(cs) && SuitCount(cs, s) >= 5
    requires !HasRoyal(cs) && !HasFour(cs)
    requires forall t, p :: !(RankCount(cs, t) == 3 && RankCount(cs, p) == 2)
    ensures Evaluate(cs).category == Flush
    ensures forall c :: c in cs && c.suit == s ==> c.rank.Value() <= Evaluate(cs).tieBreak
    ensures exists c :: c in cs && c.suit == s && c.rank.Value() == Evaluate(cs).tieBreak
  {
    EvaluateIsFlushScore(cs, s);
    FlushScoreIsHighestOfSuit(cs, s);
  }

  /** Without a flush, a straight test can never help: no flush also means no royal flush. */
  lemma NoFlushNoRoyal(cs: seq<Card>)
    requires NoFlush(cs)
    ensures !HasRoyal(cs)
  {
    if HasRoyal(cs) {
      var t :| RoyalRanks <= Ranks(WithSuit(cs, t));
      RoyalNeedsFive(cs, t);
    }
  }

  /**
   * Without a flush, a quad, or a triple beside a pair, every test before
   * three of a kind fails.
   */
  lemma EvaluateIsLowScore(cs: seq<Card>)
    requires |cs| == 7 && AllReal(cs) && NoFlush(cs) && !HasFour(cs)
    requires forall t, p :: !(RankCount(cs, t) == 3 && RankCount(cs, p) == 2)
    ensures Evaluate(cs) == LowScore(cs)
  {
    NoFlushNoRoyal(cs);
    SuitedRunOnlyRoyal(cs);
    RankedFacts(cs);
    RunTopNeverOnDescending(Ranked(cs));
    HighestWithCountPositive(cs, 3);
    HighestWithCountPositive(cs, 2);
  }

  /** A triple without a pair, a quad or a flush scores as three of a kind on the highest triple. */
  lemma EvaluateThreeOfAKind(cs: seq<Card>, t: Rank)
    requires |cs| == 7 && AllReal(cs) && NoFlush(cs) && RankCount(cs, t) == 3
    requires forall r :: RankCount(cs, r) != 2 && RankCount(cs, r) != 4
    ensures Evaluate(cs).category == ThreeOfAKind
    ensures forall r :: RankCount(cs, r) == 3 ==> r.Value() <= Evaluate(cs).tieBreak
    ensures exists r :: RankCount(cs, r) == 3 && r.Value() == Evaluate(cs).tieBreak
  {
    EvaluateIsLowScore(cs);
    HighestWithCountPositive(cs, 3);
    HighestWithCountBounds(cs, 3);
  }

  /**
   * Without a flush or a rank occurring three or more times, one pair or
   * two pairs, scored on the highest pair.
   */
  lemma EvaluatePairs(cs: seq<Card>)
    requires |cs| == 7 && AllReal(cs) && NoFlush(cs)
    requires forall r :: RankCount(cs, r) < 3
    ensures |PairRanks(cs)| == 1 ==> Evaluate(cs).category == OnePair
    ensures |PairRanks(cs)| >= 2 ==> Evaluate(cs).category == TwoPair
    ensures |PairRanks(cs)| >= 1 ==>
      (forall r :: RankCount(cs, r) == 2 ==> r.Value() <= Evaluate(cs).tieBreak) &&
      (exists r :: RankCount(cs, r) == 2 && r.Value() == Evaluate(cs).tieBreak)
  {
    EvaluateIsLowScore(cs);
    HighestWithCountPositive(cs, 3);
    HighestWithCountBounds(cs, 2);
    if |PairRanks(cs)| >= 1 {
      var r :| r in PairRanks(cs);
      HighestWithCountPositive(cs, 2);
    }
  }

  /** With no two cards of a rank and no flush, the highest card scores. */
  lemma EvaluateHighCard(cs: seq<Card>)
    requires |cs| == 7 && AllReal(cs) && NoFlush(cs)
    requires forall r :: RankCount(cs, r) < 2
    ensures Evaluate(cs).category == HighCard
    ensures forall c :: c in cs ==> c.rank.Value() <= Evaluate(cs).tieBreak
    ensures exists c :: c in cs && c.rank.Value() == Evaluate(cs).tieBreak
  {
    EvaluateIsLowScore(cs);
    HighestWithCountPositive(cs, 3);
    assert PairRanks(cs) == {};
    RankedFacts(cs);
    var sorted := SortByRankDesc(cs);
    HeadIsHighest(sorted);
    assert sorted[0] in multiset(cs);
    forall c | c in cs
      ensures c.rank.Value() <= sorted[0].rank.Value()
    {
      assert c in multiset(sorted);
    }
  }

  /** Cards of pairwise different ranks hold each rank at most once. */
  lemma {:induction false} DistinctRanksCountOnce(cs: seq<Card>, r: Rank)
    requires forall i, j :: 0 <= i < j < |cs| ==> cs[i].rank != cs[j].rank
    ensures RankCount(cs, r) <= 1
  {
    if cs != [] {
      var init := cs[..|cs| - 1];
      DistinctRanksCountOnce(init, r);
      if cs[|cs| - 1].rank == r {
        forall c | c in init
          ensures c.rank != r
        {
          var i :| 0 <= i < |init| && init[i] == c;
          assert cs[i] == c;
        }
        RankCountPositive(init, r);
      }
    }
  }

  /** A suit's count is at most the number of positions that may hold it. */
  lemma {:induction false} SuitCountWithin(cs: seq<Card>, s: Suit, slots: set<nat>)
    requires forall i :: 0 <= i < |cs| && cs[i].suit == s ==> i in slots
    ensures SuitCount(cs, s) <= |slots|
    decreases |cs|
  {
    if cs != [] {
      var last := |cs| - 1;
      var init := cs[..last];
      assert forall i :: 0 <= i < |init| ==> init[i] == cs[i];
      if cs[last].suit == s {
        SuitCountWithin(init, s, slots - {last});
      } else {
        SuitCountWithin(init, s, slots);
      }
    }
  }

  /** The first hand of tests/hand_value_test.rs: ace and king of clubs beside the board. */
  lemma RoyalFlushExample()
    ensures Evaluate([Card(Clubs, Ace), Card(Clubs, King), Card(Spades, Four), Card(Spades, Five),
                      Card(Clubs, Queen), Card(Clubs, Jack), Card(Clubs, Ten)])
            == Scored(RoyalFlush, Ace.Value())
  {
    var cs := [Card(Clubs, Ace), Card(Clubs, King), Card(Spades, Four), Card(Spades, Five),
               Card(Clubs, Queen), Card(Clubs, Jack), Card(Clubs, Ten)];
    assert Card(Clubs, Ten) in WithSuit(cs, Clubs);
    assert Card(Clubs, Jack) in WithSuit(cs, Clubs);
    assert Card(Clubs, Queen) in WithSuit(cs, Clubs);
    assert Card(Clubs, King) in WithSuit(cs, Clubs);
    assert Card(Clubs, Ace) in WithSuit(cs, Clubs);
    assert RoyalRanks <= Ranks(WithSuit(cs, Clubs));
    EvaluateRoyalFlush(cs);
  }

  /** The second hand of tests/hand_value_test.rs beside the same board. */
  const UnrelatedHand: seq<Card> := [Card(Diamonds, Two), Card(Spades, Seven), Card(Spades, Four),
    Card(Spades, Five), Card(Clubs, Queen), Card(Clubs, Jack), Card(Clubs, Ten)]

  lemma UnrelatedHandTopsAtQueen()
    ensures forall c :: c in UnrelatedHand ==> c.rank.Value() <= Queen.Value()
  {
    forall c | c in UnrelatedHand
      ensures c.rank.Value() <= Queen.Value()
    {
      var i :| 0 <= i < 7 && UnrelatedHand[i] == c;
    }
  }

  lemma UnrelatedHandNoFlush()
    ensures NoFlush(UnrelatedHand)
  {
    forall s
      ensures SuitCount(UnrelatedHand, s) < 5
    {
      var slots: set<nat> := if s == Clubs then {4, 5, 6} else if s == Spades then {1, 2, 3} else {0};
      SuitCountWithin(UnrelatedHand, s, slots);
    }
  }

  lemma UnrelatedHandHasNoPair()
    ensures forall r :: RankCount(UnrelatedHand, r) < 2
  {
    forall r
      ensures RankCount(UnrelatedHand, r) < 2
    {
      DistinctRanksCountOnce(UnrelatedHand, r);
    }
  }

  /** Unrelated cards: the queen on the board scores. */
  lemma HighCardExample()
    ensures Evaluate(UnrelatedHand) == Scored(HighCard, Queen.Value())
  {
    UnrelatedHandNoFlush();
    UnrelatedHandHasNoPair();
    EvaluateHighCard(UnrelatedHand);
    assert UnrelatedHand[4] in UnrelatedHand;
    UnrelatedHandTopsAtQueen();
  }
}
