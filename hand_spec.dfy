/**
 * What `Hand::determine_value` (src/hand.rs) computes, as functions of the
 * seven cards, and the properties of that result.
 *
 * `Evaluate` follows the branches of the source in their order. Where the
 * source walks a `HashMap`, `Evaluate` walks a fixed list instead; the
 * method `Hands.Hand.DetermineValue` shows that every walking order gives
 * the same result. The lemmas at the end state what the categories mean.
 */
module HandSpec {
  import opened Options
  import opened Cards

  /** Declaration order, which the derived `PartialOrd` compares. */
  datatype ScoringHands = None | HighCard | OnePair | TwoPair | ThreeOfAKind | Straight
                        | Flush | FullHouse | FourOfAKind | StraightFlush | RoyalFlush
  {
    function Strength(): (n: nat)
      ensures n <= 10
    {
      match this
      case None => 0
      case HighCard => 1
      case OnePair => 2
      case TwoPair => 3
      case ThreeOfAKind => 4
      case Straight => 5
      case Flush => 6
      case FullHouse => 7
      case FourOfAKind => 8
      case StraightFlush => 9
      case RoyalFlush => 10
    }
  }

  /** The categories from weakest to strongest. */
  const Ladder: seq<ScoringHands> := [ScoringHands.None, HighCard, OnePair, TwoPair, ThreeOfAKind,
                                      Straight, Flush, FullHouse, FourOfAKind, StraightFlush, RoyalFlush]

  /** The derived ordering is strict and total and follows the declaration order. */
  lemma LadderIsAscending(h: ScoringHands)
    ensures h in Ladder && Ladder[h.Strength()] == h
    ensures forall i, j :: 0 <= i < j < |Ladder| ==> Ladder[i].Strength() < Ladder[j].Strength()
  {
  }

  /** The pair `(ScoringHands, u8)` that the evaluator returns. */
  datatype Scored = Scored(category: ScoringHands, tieBreak: nat)

  predicate AllReal(cs: seq<Card>) {
    forall c :: c in cs ==> IsReal(c)
  }

  // ---------------------------------------------------------------------
  // Ranks as numbers

  /** The rank whose discriminant is `v`. */
  function RankOf(v: nat): (r: Rank)
    requires v <= 13
    ensures r.Value() == v
  {
    [Rank.None, Two, Three, Four, Five, Six, Seven, Eight, Nine, Ten, Jack, Queen, King, Ace][v]
  }

  lemma RankOfValue(r: Rank)
    ensures RankOf(r.Value()) == r
  {
  }

  /** Every rank, highest discriminant first. */
  const RanksDesc: seq<Rank> := [Ace, King, Queen, Jack, Ten, Nine, Eight, Seven, Six, Five, Four, Three, Two, Rank.None]

  lemma RanksDescListsEveryRank(r: Rank)
    ensures r in RanksDesc
    ensures forall i :: 0 <= i < |RanksDesc| ==> RanksDesc[i].Value() == 13 - i
  {
  }

  /** Every suit, an order for the places where the source walks a map of suits. */
  const SuitList: seq<Suit> := [Suit.None, Clubs, Diamonds, Hearts, Spades]

  lemma SuitListListsEverySuit(s: Suit)
    ensures s in SuitList
  {
  }

  /** The ranks a royal flush needs. */
  const RoyalRanks: set<Rank> := {Ten, Jack, Queen, King, Ace}

  lemma RoyalRanksAreFive()
    ensures |RoyalRanks| == 5
  {
    assert RoyalRanks == {Ten, Jack, Queen, King} + {Ace};
    assert |{Ten, Jack, Queen, King}| == 4;
  }

  // ---------------------------------------------------------------------
  // Grouping by rank and by suit (the two `HashMap`s)

  /** The cards of rank `r`, in the order they occur: `cards_by_rank[r]`. */
  function WithRank(cs: seq<Card>, r: Rank): (g: seq<Card>)
    ensures |g| <= |cs|
    ensures forall c :: c in g ==> c in cs && c.rank == r
    ensures forall c :: c in cs && c.rank == r ==> c in g
  {
    if cs == [] then []
    else WithRank(cs[..|cs| - 1], r) + (if cs[|cs| - 1].rank == r then [cs[|cs| - 1]] else [])
  }

  /** The cards of suit `s`, in the order they occur: `cards_by_suit[s]`. */
  function WithSuit(cs: seq<Card>, s: Suit): (g: seq<Card>)
    ensures |g| <= |cs|
    ensures forall c :: c in g ==> c in cs && c.suit == s
    ensures forall c :: c in cs && c.suit == s ==> c in g
  {
    if cs == [] then []
    else WithSuit(cs[..|cs| - 1], s) + (if cs[|cs| - 1].suit == s then [cs[|cs| - 1]] else [])
  }

  function RankCount(cs: seq<Card>, r: Rank): nat {
    |WithRank(cs, r)|
  }

  function SuitCount(cs: seq<Card>, s: Suit): nat {
    |WithSuit(cs, s)|
  }

  /** The set of ranks that occur among `cs`. */
  function Ranks(cs: seq<Card>): set<Rank> {
    set c | c in cs :: c.rank
  }

  lemma {:induction false} RanksAtMostCards(cs: seq<Card>)
    ensures |Ranks(cs)| <= |cs|
  {
    if cs != [] {
      var init := cs[..|cs| - 1];
      RanksAtMostCards(init);
      assert cs == init + [cs[|cs| - 1]];
      assert Ranks(cs) == Ranks(init) + {cs[|cs| - 1].rank};
    }
  }

  /** Two different ranks together hold at most all the cards. */
  lemma {:induction false} TwoRanksShareCards(cs: seq<Card>, a: Rank, b: Rank)
    requires a != b
    ensures RankCount(cs, a) + RankCount(cs, b) <= |cs|
  {
    if cs != [] {
      TwoRanksShareCards(cs[..|cs| - 1], a, b);
    }
  }

  /** Three different ranks together hold at most all the cards. */
  lemma {:induction false} ThreeRanksShareCards(cs: seq<Card>, a: Rank, b: Rank, c: Rank)
    requires a != b && b != c && a != c
    ensures RankCount(cs, a) + RankCount(cs, b) + RankCount(cs, c) <= |cs|
  {
    if cs != [] {
      ThreeRanksShareCards(cs[..|cs| - 1], a, b, c);
    }
  }

  /** Two different suits together hold at most all the cards. */
  lemma {:induction false} TwoSuitsShareCards(cs: seq<Card>, a: Suit, b: Suit)
    requires a != b
    ensures SuitCount(cs, a) + SuitCount(cs, b) <= |cs|
  {
    if cs != [] {
      TwoSuitsShareCards(cs[..|cs| - 1], a, b);
    }
  }

  lemma RankCountPositive(cs: seq<Card>, r: Rank)
    ensures RankCount(cs, r) > 0 <==> r in Ranks(cs)
  {
    if RankCount(cs, r) > 0 {
      assert WithRank(cs, r)[0] in WithRank(cs, r);
    }
    if r in Ranks(cs) {
      var c :| c in cs && c.rank == r;
      assert c in WithRank(cs, r);
    }
  }

  // ---------------------------------------------------------------------
  // Sorting by rank, highest first, and removing repeated ranks

  predicate DescendingByRank(s: seq<Card>) {
    forall i, j :: 0 <= i < j < |s| ==> s[i].rank.Value() >= s[j].rank.Value()
  }

  predicate StrictlyDescendingByRank(s: seq<Card>) {
    forall i, j :: 0 <= i < j < |s| ==> s[i].rank.Value() > s[j].rank.Value()
  }

  /** Puts `c` before the first card of `s` whose rank is not higher. */
  function InsertByRank(c: Card, s: seq<Card>): (r: seq<Card>)
    ensures multiset(r) == multiset(s) + multiset{c}
  {
    if s == [] || s[0].rank.Value() <= c.rank.Value() then [c] + s
    else
      assert s == [s[0]] + s[1..];
      [s[0]] + InsertByRank(c, s[1..])
  }

  /** A card no lower than any card of a descending run can lead it. */
  lemma DescendingPrepend(c: Card, d: seq<Card>)
    requires DescendingByRank(d) && forall x :: x in d ==> x.rank.Value() <= c.rank.Value()
    ensures DescendingByRank([c] + d)
  {
    var r := [c] + d;
    forall i, j | 0 <= i < j < |r|
      ensures r[i].rank.Value() >= r[j].rank.Value()
    {
      assert r[j] == d[j - 1];
      if i > 0 {
        assert r[i] == d[i - 1];
      }
    }
  }

  /** The head of a list sorted highest first carries its highest rank. */
  lemma HeadIsHighest(s: seq<Card>)
    requires DescendingByRank(s) && s != []
    ensures forall x :: x in s ==> x.rank.Value() <= s[0].rank.Value()
  {
    forall x | x in s
      ensures x.rank.Value() <= s[0].rank.Value()
    {
      var k :| 0 <= k < |s| && s[k] == x;
    }
  }

  lemma {:induction false} InsertKeepsDescending(c: Card, s: seq<Card>)
    requires DescendingByRank(s)
    ensures DescendingByRank(InsertByRank(c, s))
  {
    if s == [] {
    } else if s[0].rank.Value() <= c.rank.Value() {
      HeadIsHighest(s);
      DescendingPrepend(c, s);
    } else {
      var t := InsertByRank(c, s[1..]);
      InsertKeepsDescending(c, s[1..]);
      HeadIsHighest(s);
      forall x | x in t
        ensures x.rank.Value() <= s[0].rank.Value()
      {
        assert x in multiset(t);
        assert x == c || x in multiset(s[1..]);
        assert x == c || x in s;
      }
      DescendingPrepend(s[0], t);
    }
  }

  /** `sort_by(|a, b| b.rank.cmp(&a.rank))`: a stable sort, highest rank first. */
  function SortByRankDesc(s: seq<Card>): (r: seq<Card>)
    ensures multiset(r) == multiset(s) && |r| == |s|
    ensures DescendingByRank(r)
  {
    if s == [] then []
    else
      var t := SortByRankDesc(s[1..]);
      assert s == [s[0]] + s[1..];
      InsertKeepsDescending(s[0], t);
      InsertByRank(s[0], t)
  }

  lemma SortedHasSameRanks(s: seq<Card>)
    ensures Ranks(SortByRankDesc(s)) == Ranks(s)
  {
    var r := SortByRankDesc(s);
    forall x | x in Ranks(r) ensures x in Ranks(s) {
      var c :| c in r && c.rank == x;
      assert c in multiset(r);
    }
    forall x | x in Ranks(s) ensures x in Ranks(r) {
      var c :| c in s && c.rank == x;
      assert c in multiset(s);
    }
  }

  /** `dedup_by(|a, b| a.rank == b.rank)`: drops a card whose rank equals the one kept before it. */
  function DedupByRank(s: seq<Card>): (r: seq<Card>)
    ensures |r| <= |s|
    ensures forall c :: c in r ==> c in s
    ensures Ranks(r) == Ranks(s)
    ensures s != [] ==> r != [] && r[0] == s[0]
    decreases |s|
  {
    if |s| <= 1 then s
    else if s[1].rank == s[0].rank then
      assert Ranks(s) == Ranks([s[0]] + s[2..]) by {
        assert s == [s[0], s[1]] + s[2..];
      }
      DedupByRank([s[0]] + s[2..])
    else
      assert Ranks(s) == {s[0].rank} + Ranks(s[1..]) by {
        assert s == [s[0]] + s[1..];
      }
      [s[0]] + DedupByRank(s[1..])
  }

  /** Putting a strictly higher card in front of a strictly descending run keeps it strict. */
  lemma StrictPrepend(c: Card, s: seq<Card>, d: seq<Card>)
    requires DescendingByRank(s) && s != [] && c.rank.Value() > s[0].rank.Value()
    requires StrictlyDescendingByRank(d) && forall x :: x in d ==> x in s
    ensures StrictlyDescendingByRank([c] + d)
  {
    var r := [c] + d;
    forall i, j | 0 <= i < j < |r|
      ensures r[i].rank.Value() > r[j].rank.Value()
    {
      assert r[j] == d[j - 1];
      if i == 0 {
        assert d[j - 1] in s;
        var k :| 0 <= k < |s| && s[k] == d[j - 1];
      } else {
        assert r[i] == d[i - 1];
      }
    }
  }

  lemma {:induction false} DedupOfDescendingIsStrict(s: seq<Card>)
    requires DescendingByRank(s)
    ensures StrictlyDescendingByRank(DedupByRank(s))
    decreases |s|
  {
    if |s| > 1 {
      if s[1].rank == s[0].rank {
        DedupOfDescendingIsStrict([s[0]] + s[2..]);
      } else {
        DedupOfDescendingIsStrict(s[1..]);
        RankOfValue(s[0].rank);
        RankOfValue(s[1].rank);
        StrictPrepend(s[0], s[1..], DedupByRank(s[1..]));
      }
    }
  }

  /** `sort_by` followed by `dedup_by`, as the straight checks prepare their cards. */
  function Ranked(s: seq<Card>): (r: seq<Card>)
    ensures Ranks(r) == Ranks(s)
  {
    SortedHasSameRanks(s);
    DedupOfDescendingIsStrict(SortByRankDesc(s));
    DedupByRank(SortByRankDesc(s))
  }

  lemma RankedFacts(s: seq<Card>)
    ensures StrictlyDescendingByRank(Ranked(s))
    ensures Ranks(Ranked(s)) == Ranks(s)
    ensures s != [] ==> Ranked(s) != [] && Ranked(s)[0] == SortByRankDesc(s)[0]
  {
    SortedHasSameRanks(s);
    DedupOfDescendingIsStrict(SortByRankDesc(s));
  }

  // ---------------------------------------------------------------------
  // The straight scans

  /** The source's test at position `i`: each rank one above the rank before it. */
  predicate StepsUpAt(ranked: seq<Card>, i: nat)
    requires i + 4 < |ranked|
  {
    && ranked[i].rank.Value() + 1 == ranked[i + 1].rank.Value()
    && ranked[i + 1].rank.Value() + 1 == ranked[i + 2].rank.Value()
    && ranked[i + 2].rank.Value() + 1 == ranked[i + 3].rank.Value()
    && ranked[i + 3].rank.Value() + 1 == ranked[i + 4].rank.Value()
  }

  /** `for i in 0..ranked.len()-5`: the first position from `i` where the test holds. */
  function StraightScan(ranked: seq<Card>, i: nat): (o: Option<nat>)
    requires 5 <= |ranked| && i <= |ranked| - 5
    ensures o.Some? ==> i <= o.value < |ranked| - 5 && StepsUpAt(ranked, o.value)
    ensures o.Some? ==> forall j :: i <= j < o.value ==> !StepsUpAt(ranked, j)
    ensures o.None? ==> forall j :: i <= j < |ranked| - 5 ==> !StepsUpAt(ranked, j)
    decreases |ranked| - i
  {
    if i == |ranked| - 5 then Option.None
    else if StepsUpAt(ranked, i) then Some(i)
    else StraightScan(ranked, i + 1)
  }

  /**
   * A straight check as the source writes it: with at least five cards,
   * the rank of the card where the scan succeeds.
   */
  function RunTop(ranked: seq<Card>): (o: Option<nat>)
    ensures o.Some? ==> exists i :: 0 <= i < |ranked| - 5 && StepsUpAt(ranked, i) && o.value == ranked[i].rank.Value()
    ensures o.None? ==> forall i :: 0 <= i < |ranked| - 5 ==> !StepsUpAt(ranked, i)
  {
    if |ranked| < 5 then Option.None
    else match StraightScan(ranked, 0)
      case Some(i) => Some(ranked[i].rank.Value())
      case _ => Option.None
  }

  /** On cards sorted strictly highest first, the straight check never succeeds. */
  lemma RunTopNeverOnDescending(ranked: seq<Card>)
    requires StrictlyDescendingByRank(ranked)
    ensures RunTop(ranked).None?
  {
  }

  // ---------------------------------------------------------------------
  // Fixed-order searches standing in for the map walks

  function FirstSuitWithFive(cs: seq<Card>, suits: seq<Suit>): (o: Option<Suit>)
    ensures o.Some? ==> o.value in suits && SuitCount(cs, o.value) >= 5
    ensures o.None? ==> forall s :: s in suits ==> SuitCount(cs, s) < 5
  {
    if suits == [] then Option.None
    else if SuitCount(cs, suits[0]) >= 5 then Some(suits[0])
    else FirstSuitWithFive(cs, suits[1..])
  }

  /** The suit holding at least five of the cards, if any. */
  function FlushSuit(cs: seq<Card>): Option<Suit> {
    FirstSuitWithFive(cs, SuitList)
  }

  function FirstRankWithCount(cs: seq<Card>, ranks: seq<Rank>, k: nat): (o: Option<Rank>)
    ensures o.Some? ==> o.value in ranks && RankCount(cs, o.value) == k
    ensures o.None? ==> forall r :: r in ranks ==> RankCount(cs, r) != k
  {
    if ranks == [] then Option.None
    else if RankCount(cs, ranks[0]) == k then Some(ranks[0])
    else FirstRankWithCount(cs, ranks[1..], k)
  }

  /** The rank that occurs exactly four times, if any. */
  function FourOfAKindRank(cs: seq<Card>): Option<Rank> {
    FirstRankWithCount(cs, RanksDesc, 4)
  }

  /**
   * The highest discriminant among the ranks occurring exactly `k` times,
   * 0 if there is none: what the source's `u8` accumulators end with.
   */
  function HighestWithCount(cs: seq<Card>, k: nat): nat {
    match FirstRankWithCount(cs, RanksDesc, k)
    case None => 0
    case Some(r) => r.Value()
  }

  /** The ranks occurring exactly twice. */
  function PairRanks(cs: seq<Card>): set<Rank> {
    set r | r in RanksDesc && RankCount(cs, r) == 2
  }

  /** Only one suit can hold five of seven cards, so the fixed walk finds it. */
  lemma FlushSuitIs(cs: seq<Card>, s: Suit)
    requires |cs| == 7 && SuitCount(cs, s) >= 5
    ensures FlushSuit(cs) == Some(s)
  {
    SuitListListsEverySuit(s);
    var t := FlushSuit(cs).value;
    if t != s {
      TwoSuitsShareCards(cs, s, t);
    }
  }

  /** Only one rank can occur four times among seven cards. */
  lemma FourOfAKindIs(cs: seq<Card>, r: Rank)
    requires |cs| == 7 && RankCount(cs, r) == 4
    ensures FourOfAKindRank(cs) == Some(r)
  {
    RanksDescListsEveryRank(r);
    var t := FourOfAKindRank(cs).value;
    if t != r {
      TwoRanksShareCards(cs, r, t);
    }
  }

  /** Beside a pair, seven cards leave room for one triple only. */
  lemma OnlyTriple(cs: seq<Card>, t: Rank, p: Rank)
    requires |cs| == 7 && RankCount(cs, t) == 3 && RankCount(cs, p) == 2
    ensures forall q :: RankCount(cs, q) == 3 ==> q == t
  {
    forall q | RankCount(cs, q) == 3
      ensures q == t
    {
      if q != t {
        ThreeRanksShareCards(cs, t, q, p);
      }
    }
  }

  lemma {:induction false} FirstRankIsHighest(cs: seq<Card>, ranks: seq<Rank>, k: nat)
    requires forall i, j :: 0 <= i < j < |ranks| ==> ranks[i].Value() >= ranks[j].Value()
    ensures FirstRankWithCount(cs, ranks, k).Some? ==>
      forall r :: r in ranks && RankCount(cs, r) == k ==> r.Value() <= FirstRankWithCount(cs, ranks, k).value.Value()
  {
    if ranks != [] && RankCount(cs, ranks[0]) != k {
      FirstRankIsHighest(cs, ranks[1..], k);
    }
  }

  /** `HighestWithCount` is the largest discriminant among the ranks occurring `k` times. */
  lemma HighestWithCountBounds(cs: seq<Card>, k: nat)
    ensures forall r :: RankCount(cs, r) == k ==> r.Value() <= HighestWithCount(cs, k)
    ensures HighestWithCount(cs, k) == 0 ||
            exists r :: RankCount(cs, r) == k && r.Value() == HighestWithCount(cs, k)
  {
    RanksDescListsEveryRank(Rank.None);
    FirstRankIsHighest(cs, RanksDesc, k);
    forall r | RankCount(cs, r) == k
      ensures r.Value() <= HighestWithCount(cs, k)
    {
      RanksDescListsEveryRank(r);
    }
  }

  // ---------------------------------------------------------------------
  // The evaluator

  /**
   * The tests on the deduplicated cards of one suit: a royal flush, else a
   * straight flush.
   */
  function RunOfSuit(suited: seq<Card>): (o: Option<Scored>)
    ensures o.Some? ==> o.value.category == RoyalFlush || o.value.category == StraightFlush
  {
    if |suited| >= 5 && RoyalRanks <= Ranks(suited) then
      Some(Scored(RoyalFlush, suited[0].rank.Value()))
    else match RunTop(suited)
      case Some(top) => Some(Scored(StraightFlush, top))
      case _ => Option.None
  }

  /** The first walk over the suits: the tests on the suit holding five or more. */
  function SuitedRunScore(cs: seq<Card>): (o: Option<Scored>)
    ensures o.Some? ==> o.value.category == RoyalFlush || o.value.category == StraightFlush
  {
    match FlushSuit(cs)
    case Some(s) => RunOfSuit(Ranked(WithSuit(cs, s)))
    case _ => Option.None
  }

  /** A rank with four cards. */
  function FourOfAKindScore(cs: seq<Card>): (o: Option<Scored>)
    ensures o.Some? ==> o.value.category == FourOfAKind
  {
    match FourOfAKindRank(cs)
    case Some(r) => Some(Scored(FourOfAKind, r.Value()))
    case _ => Option.None
  }

  /** Some rank with three cards and some rank with two, scored by the triple. */
  function FullHouseScore(cs: seq<Card>): (o: Option<Scored>)
    ensures o.Some? ==> o.value.category == FullHouse
  {
    if HighestWithCount(cs, 3) > 0 && HighestWithCount(cs, 2) > 0 then
      Some(Scored(FullHouse, HighestWithCount(cs, 3)))
    else
      Option.None
  }

  /** A suit with five or more cards, scored by its highest rank. */
  function FlushScore(cs: seq<Card>): (o: Option<Scored>)
    ensures o.Some? ==> o.value.category == Flush
  {
    match FlushSuit(cs)
    case Some(s) => Some(Scored(Flush, SortByRankDesc(WithSuit(cs, s))[0].rank.Value()))
    case _ => Option.None
  }

  /** The straight check on all the cards, sorted and deduplicated. */
  function StraightScore(cs: seq<Card>): (o: Option<Scored>)
    ensures o.Some? ==> o.value.category == Straight
  {
    match RunTop(Ranked(cs))
    case Some(top) => Some(Scored(Straight, top))
    case _ => Option.None
  }

  /** What is left once no earlier test succeeded: trips, pairs, high card. */
  function LowScore(cs: seq<Card>): (v: Scored)
    requires cs != []
    ensures v.category == ThreeOfAKind || v.category == TwoPair || v.category == OnePair || v.category == HighCard
  {
    if HighestWithCount(cs, 3) > 0 then
      Scored(ThreeOfAKind, HighestWithCount(cs, 3))
    else if |PairRanks(cs)| == 1 then
      Scored(OnePair, HighestWithCount(cs, 2))
    else if |PairRanks(cs)| >= 2 then
      Scored(TwoPair, HighestWithCount(cs, 2))
    else
      Scored(HighCard, Ranked(cs)[0].rank.Value())
  }

  /** `Hand::determine_value` on the seven cards `cs`: the first test that succeeds. */
  function Evaluate(cs: seq<Card>): (v: Scored)
    requires |cs| == 7
    ensures SuitedRunScore(cs).Some? ==> v == SuitedRunScore(cs).value
    ensures v.category == FourOfAKind ==> FourOfAKindScore(cs) == Some(v)
    ensures v.category == FullHouse ==> FullHouseScore(cs) == Some(v)
    ensures v.category == Flush ==> FlushScore(cs) == Some(v)
    ensures v.category == Straight ==> StraightScore(cs) == Some(v)
    ensures v.category != ScoringHands.None
  {
    match SuitedRunScore(cs)
    case Some(v) => v
    case _ =>
      match FourOfAKindScore(cs)
      case Some(v) => v
      case _ =>
        match FullHouseScore(cs)
        case Some(v) => v
        case _ =>
          match FlushScore(cs)
          case Some(v) => v
          case _ =>
            match StraightScore(cs)
            case Some(v) => v
            case _ => LowScore(cs)
  }
}
