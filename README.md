# A verified model of the rust-deck poker core

rust-deck is a small Texas hold'em library. It has four core files:

- `src/deck.rs`: cards, the 52-card deck with its deal cursor, and the five-slot community board.
- `src/hand.rs`: a player's two hole cards and `determine_value`. This evaluator scores the seven cards of hole and board as a `(ScoringHands, u8)` pair.
- `src/player.rs`: a player with a bank, a bid and a last action, plus the betting actions.
- `src/game.rs`: a second, smaller player record, the table set-up and the round state machine (PreFlop, Flop, Turn, River, Showdown).

The model mirrors that structure:

- `deck.dfy` (module `Cards`). The deck and the board are classes over arrays, as the source updates them in place.
- `shuffle.dfy` (module `Shuffling`). The Fisher–Yates shuffle that `SliceRandom::shuffle` performs, taking the random generator as a parameter.
- `hand_spec.dfy` (module `HandSpec`). `Evaluate`, the reference definition of the evaluator on a sequence of seven cards. It follows the source's branches in order.
- `hand.dfy` (module `Hands`). A `Hand` class whose `DetermineValue` method groups the cards into maps and walks them with loops, as the source does. It is proved equal to `Evaluate` for every walk order.
- `hand_facts.dfy` (module `HandFacts`). What each category returned by `Evaluate` means, plus the two hands of `tests/hand_value_test.rs`.
- `player.dfy` (module `Players`) and `game.dfy` (module `Games`).
- `options.dfy` holds the `Option` datatype.

Money (`f32` in the source) is an exact `real`. Random generators are parameters of type `nat -> nat`. The order in which a `HashMap` is walked is a parameter: any listing, without repeats, of exactly the keys present.

Some of the source's behaviour is easy to misread, and the model keeps it as written:

- The two straight tests compare `ranked[i] + 1 == ranked[i + 1]` on cards sorted highest first with repeated ranks removed. Such a run never steps up, so neither `Straight` nor `StraightFlush` is ever returned (`HandFacts.EvaluateNeverStraight`).
- Three cards of one rank and three of another are not a full house, because the full-house test asks for a rank occurring exactly twice (`HandFacts.TwoTriplesAreNotFullHouse`).
- A royal flush carries the ace's discriminant, 13, as its tie-break.
- `all_in` records the action as `Raise`, in both player records.
- In `src/player.rs`, `call` takes the money from the bank but does not add it to the bid, while `raise` and `all_in` do.
- `Rank::None` and `Suit::None` mark unset slots. Their discriminant is 0, so an accumulator starting at 0 never picks them.

## Model

| member | source | states |
|---|---|---|
| Cards.Rank.Value | src/deck.rs:64-79 | the discriminant is at most 13 and is 0 exactly for the unset rank |
| Cards.NewDeckCard | src/deck.rs:95-118 | every card the nested loops build has a real suit and a real rank |
| Cards.NewDeck | src/deck.rs:89-124 | a new deck holds 52 cards, suit by suit in the order of the outer loop and rank by rank in that of the inner loop |
| Cards.NewDeckIndex | src/deck.rs:89-124 | every real card has a position in a new deck |
| Cards.NewDeckIsComplete | src/deck.rs:89-124 | a card is a real card exactly when it occurs in a new deck |
| Cards.NewDeckIsDistinct | src/deck.rs:95-118 | two positions of a new deck hold different cards |
| Cards.NewDeckHasNoRepeats | src/deck.rs:89-124 | a new deck holds each card once |
| Cards.ShuffledDeckIsComplete | src/deck.rs:126-129 | any rearrangement of a new deck holds exactly the real cards |
| Cards.Deck.constructor | src/deck.rs:89-124 | the deck holds suits Clubs to Spades, each Ace, Two, ..., King, with nothing dealt |
| Cards.Deck.Shuffle | src/deck.rs:126-129 | the cards are rearranged (same multiset, still no repeats) and the deal restarts |
| Cards.Deck.Deal | src/deck.rs:131-135 | returns the card at the cursor and advances it by one; dealing past the last card is excluded, where the source panics |
| Cards.Deck.Discard | src/deck.rs:137-139 | advances the cursor by one and returns nothing |
| Cards.Community.constructor | src/deck.rs:9-16 | five unset slots |
| Cards.Community.Reset | src/deck.rs:18-23 | every slot unset again |
| Cards.Community.Flop | src/deck.rs:25-32 | the next three cards fill slots 0 to 2 and are returned; the deck moves on by three |
| Cards.Community.Turn | src/deck.rs:34-38 | the next card fills slot 3 and nothing else changes |
| Cards.Community.River | src/deck.rs:40-44 | the next card fills slot 4 and nothing else changes |
| Shuffling.SwapKeepsDistinct | src/deck.rs:126-129 | exchanging two positions keeps a sequence free of repeats |
| Shuffling.ShuffleInPlace | src/deck.rs:127 | for every generator, the array ends as a rearrangement of what it held, and one without repeats stays so |
| HandSpec.ScoringHands.Strength | src/hand.rs:167-180 | the derived order follows the declaration order |
| HandSpec.LadderIsAscending | src/hand.rs:167-180 | every category is on the ladder, which is strictly increasing |
| HandSpec.RankOf | src/deck.rs:64-79 | the inverse of the discriminant |
| HandSpec.RankOfValue | src/deck.rs:64-79 | reading a discriminant back gives the rank |
| HandSpec.RanksDescListsEveryRank | src/deck.rs:64-79 | the fixed rank listing holds every rank, discriminants descending from 13 |
| HandSpec.SuitListListsEverySuit | src/deck.rs:55-61 | the fixed suit listing holds every suit |
| HandSpec.RoyalRanksAreFive | src/hand.rs:73 | the royal ranks are five different ranks |
| HandSpec.WithRank | src/hand.rs:45-53 | `cards_by_rank[r]` holds exactly the cards of rank `r` |
| HandSpec.WithSuit | src/hand.rs:45-60 | `cards_by_suit[s]` holds exactly the cards of suit `s` |
| HandSpec.RanksAtMostCards | src/hand.rs:74 | there are no more distinct ranks than cards |
| HandSpec.TwoRanksShareCards | src/hand.rs:89-109 | two ranks together hold at most all the cards |
| HandSpec.ThreeRanksShareCards | src/hand.rs:96-109 | three ranks together hold at most all the cards |
| HandSpec.TwoSuitsShareCards | src/hand.rs:63-64 | two suits together hold at most all the cards |
| HandSpec.RankCountPositive | src/hand.rs:45-53 | a rank has a group exactly when it occurs |
| HandSpec.InsertByRank | src/hand.rs:66 | insertion adds the card to the multiset |
| HandSpec.DescendingPrepend | src/hand.rs:66 | a card no lower than a descending run can lead it |
| HandSpec.InsertKeepsDescending | src/hand.rs:66 | insertion keeps cards sorted highest first |
| HandSpec.SortByRankDesc | src/hand.rs:66 | `sort_by` on descending rank is a permutation sorted highest first |
| HandSpec.SortedHasSameRanks | src/hand.rs:66 | sorting keeps the set of ranks |
| HandSpec.HeadIsHighest | src/hand.rs:66 | after sorting, the first card has the highest rank |
| HandSpec.DedupByRank | src/hand.rs:67 | `dedup_by` on equal ranks keeps the first card, keeps the set of ranks and takes only cards of the input |
| HandSpec.StrictPrepend | src/hand.rs:67 | a strictly higher card in front of a strictly descending run keeps it strict |
| HandSpec.DedupOfDescendingIsStrict | src/hand.rs:66-67 | de-duplicating a run sorted highest first leaves it strictly descending |
| HandSpec.Ranked | src/hand.rs:122-123 | sorting and de-duplicating keeps exactly the ranks the cards had |
| HandSpec.RankedFacts | src/hand.rs:121-123 | the sorted, de-duplicated cards are strictly descending with the same ranks and the same head |
| HandSpec.StraightScan | src/hand.rs:80-84 | finds the first start `0..len-5` where the ranks go up by one in each of the four steps across five cards, and none before it |
| HandSpec.RunTop | src/hand.rs:80-84 | a reported top is the rank at a start where the ranks step up; no result means no start steps up |
| HandSpec.RunTopNeverOnDescending | src/hand.rs:80-84 | on strictly descending cards the step-up test never holds |
| HandSpec.FirstSuitWithFive | src/hand.rs:63-64 | finds a listed suit with five or more cards, or none exists |
| HandSpec.FirstRankWithCount | src/hand.rs:89-93 | finds a listed rank with `k` cards, or none exists |
| HandSpec.FlushSuitIs | src/hand.rs:112-118 | among seven cards only one suit can hold five, and the search finds it |
| HandSpec.FourOfAKindIs | src/hand.rs:89-93 | among seven cards only one rank can occur four times, and the search finds it |
| HandSpec.OnlyTriple | src/hand.rs:96-109 | beside a pair, seven cards hold one triple only |
| HandSpec.FirstRankIsHighest | src/hand.rs:96-104 | searching highest first finds the highest rank with `k` cards |
| HandSpec.HighestWithCountBounds | src/hand.rs:133-138 | the accumulator's final value is the largest discriminant among ranks with `k` cards, or 0 |
| HandSpec.RunOfSuit | src/hand.rs:68-84 | the suited tests give only a royal flush or a straight flush |
| HandSpec.SuitedRunScore | src/hand.rs:63-86 | the first suit walk gives only a royal flush or a straight flush |
| HandSpec.FourOfAKindScore | src/hand.rs:89-93 | only four of a kind |
| HandSpec.FullHouseScore | src/hand.rs:96-109 | only a full house |
| HandSpec.FlushScore | src/hand.rs:112-118 | only a flush |
| HandSpec.StraightScore | src/hand.rs:121-130 | only a straight |
| HandSpec.LowScore | src/hand.rs:133-162 | only three of a kind, two pair, one pair or high card |
| HandSpec.Evaluate | src/hand.rs:39-163 | a four of a kind, full house, flush or straight is reported only when that test succeeds, a suited result wins over everything, and the category is never `None` |
| Hands.PrefixTopStep | src/hand.rs:98-104 | one more key walked updates the accumulator as the loop body does |
| Hands.PrefixTopBounds | src/hand.rs:98-104 | the accumulator is the largest discriminant among the walked ranks with `k` cards, or 0 |
| Hands.PrefixTopIsHighest | src/hand.rs:133-138 | walking all keys in any order ends at the highest rank with `k` cards |
| Hands.FullHouseFound | src/hand.rs:106-108 | the early return in the middle of the walk reports the same triple as the full walk |
| Hands.PairKeysStep | src/hand.rs:146-153 | one more key walked adds one to the pair count exactly when its rank occurs twice |
| Hands.PairKeysOfAllRanks | src/hand.rs:146-153 | walking all keys counts exactly the ranks occurring twice |
| Hands.PushKeepsGroupedByRank | src/hand.rs:49-53 | pushing a card keeps `cards_by_rank` equal to the grouping of the cards seen |
| Hands.PushKeepsGroupedBySuit | src/hand.rs:55-59 | pushing a card keeps `cards_by_suit` equal to the grouping of the cards seen |
| Hands.GroupCards | src/hand.rs:40-60 | the two maps hold exactly the present ranks and suits, each with its cards in order |
| Hands.ScanForRun | src/hand.rs:80-84 | the scan loop returns what `RunTop` specifies |
| Hands.CheckRunOfSuit | src/hand.rs:65-84 | sort, dedup, the `continue` on fewer than five, the royal test and the straight-flush scan, as `RunOfSuit` |
| Hands.NoSuitWithFive | src/hand.rs:63-64 | when no walked suit has five cards there is no flush suit |
| Hands.CheckSuitedRuns | src/hand.rs:63-86 | for every walk order the loop returns `SuitedRunScore`, moving on to the next suit whenever a suit of five gives no run |
| Hands.CheckFour | src/hand.rs:89-93 | for every walk order the loop returns `FourOfAKindScore` |
| Hands.CheckFullHouse | src/hand.rs:96-109 | for every walk order, early return included, the loop returns `FullHouseScore` |
| Hands.FlushFoundAt | src/hand.rs:112-117 | the suit group with five cards decides the flush test |
| Hands.CheckFlush | src/hand.rs:112-118 | for every walk order the loop returns `FlushScore` |
| Hands.CheckStraight | src/hand.rs:121-130 | returns the prepared cards and `StraightScore` |
| Hands.HighestInWalk | src/hand.rs:133-138 | for every walk order the accumulator ends at the highest rank with `k` cards |
| Hands.CountPairs | src/hand.rs:144-153 | for every walk order, the count of ranks occurring twice and the highest such rank |
| Hands.Hand.constructor | src/hand.rs:11-19 | two unset cards, value `(None, 0)` |
| Hands.Hand.Reset | src/hand.rs:21-27 | two unset cards, value `(None, 0)` again |
| Hands.Hand.Fill | src/hand.rs:29-32 | the next two cards of the deck become the hole cards |
| Hands.Hand.DetermineValue | src/hand.rs:39-163 | for every hash-map walk order the evaluation equals `Evaluate` of the hole cards followed by the board |
| Hands.Hand.HandValue | src/hand.rs:34-37 | stores and returns the evaluation |
| HandFacts.StrictHeadIsHighest | src/hand.rs:75-76 | the head of a strictly descending run is its highest card |
| HandFacts.SubsetSize | src/hand.rs:75 | a subset is no larger than its superset |
| HandFacts.RoyalNeedsFive | src/hand.rs:64-75 | a suit holding the royal ranks holds at least five cards |
| HandFacts.RoyalLeadsWithAce | src/hand.rs:75-76 | de-duplicated suited cards holding the royal ranks are at least five and led by the ace |
| HandFacts.RunOfSuitIsRoyalTest | src/hand.rs:68-84 | the suited tests succeed exactly when the royal ranks are present, and then report `(RoyalFlush, 13)` |
| HandFacts.SuitedRunOnlyRoyal | src/hand.rs:63-86 | the first suit walk succeeds exactly when one suit holds the royal ranks, and gives `(RoyalFlush, 13)` |
| HandFacts.EvaluateRoyalFlush | src/hand.rs:75-77 | a royal flush is reported exactly when one suit holds ten to ace, with the ace's discriminant |
| HandFacts.StraightScoreNever | src/hand.rs:121-130 | the straight test on all seven cards never succeeds |
| HandFacts.EvaluateNeverStraight | src/hand.rs:80-84 | neither straight nor straight flush is ever returned |
| HandFacts.EvaluateFourOfAKind | src/hand.rs:89-93 | four of a kind is returned exactly when a rank occurs four times and there is no royal flush, scored by that rank |
| HandFacts.HighestWithCountPositive | src/hand.rs:96-104 | with real cards the accumulator is positive exactly when some rank occurs `k` times |
| HandFacts.NoFourBesideFullHouse | src/hand.rs:89-109 | a triple beside a pair leaves no room for four of a kind |
| HandFacts.EvaluateFullHouse | src/hand.rs:96-109 | a triple and a pair, without a royal flush, give `(FullHouse, triple)` |
| HandFacts.NoPairBesideTwoTriples | src/hand.rs:102-103 | two triples among seven cards leave no pair |
| HandFacts.TwoTriplesAreNotFullHouse | src/hand.rs:96-109 | two triples are not reported as a full house |
| HandFacts.FlushScoreIsHighestOfSuit | src/hand.rs:112-118 | the flush test scores the highest rank of the suit with five cards |
| HandFacts.EvaluateIsFlushScore | src/hand.rs:112-118 | with five of a suit and none of the earlier hands, the flush test decides |
| HandFacts.EvaluateFlush | src/hand.rs:112-118 | five of a suit, without the earlier hands, give a flush scored by that suit's highest rank |
| HandFacts.NoFlushNoRoyal | src/hand.rs:63-77 | without five of a suit there is no royal flush |
| HandFacts.EvaluateIsLowScore | src/hand.rs:63-163 | without a flush, a quad, or a triple beside a pair, the result is decided by the trips, pair and high-card tests |
| HandFacts.EvaluateThreeOfAKind | src/hand.rs:133-141 | a triple without a pair, quad or flush gives three of a kind on the highest triple |
| HandFacts.EvaluatePairs | src/hand.rs:144-159 | one pair or two pairs by the number of ranks occurring twice, scored by the highest pair |
| HandFacts.EvaluateHighCard | src/hand.rs:161-162 | with no repeated rank and no flush, high card scored by the highest card |
| HandFacts.DistinctRanksCountOnce | src/hand.rs:45-53 | cards of pairwise different ranks hold each rank at most once |
| HandFacts.SuitCountWithin | src/hand.rs:55-59 | a suit's count is at most the number of positions that may hold it |
| HandFacts.RoyalFlushExample | tests/hand_value_test.rs:10-51 | ace and king of clubs with the test board give `(RoyalFlush, Ace)` |
| HandFacts.UnrelatedHandTopsAtQueen | tests/hand_value_test.rs:20-48 | no card of the second test hand is above the queen |
| HandFacts.UnrelatedHandNoFlush | tests/hand_value_test.rs:20-48 | the second test hand has no five cards of a suit |
| HandFacts.UnrelatedHandHasNoPair | tests/hand_value_test.rs:20-48 | the second test hand has no repeated rank |
| HandFacts.HighCardExample | tests/hand_value_test.rs:20-54 | two of diamonds and seven of spades with the test board give `(HighCard, Queen)` |
| Players.Player.constructor | src/player.rs:13-22 | the given bank or 100, empty hole cards, action `None`, bid 0 |
| Players.Player.Raise | src/player.rs:24-35 | an amount above the bank is refused with 0 and changes nothing; otherwise it moves from bank to bid, so bank plus bid is conserved |
| Players.Player.Call | src/player.rs:37-47 | an amount above the bank is refused with 0; otherwise it leaves the bank and the bid is untouched |
| Players.Player.Check | src/player.rs:49-51 | records a check |
| Players.Player.Fold | src/player.rs:53-55 | records a fold, after which the player is inactive |
| Players.Player.AllIn | src/player.rs:57-64 | the whole bank moves to the bid, recorded as a raise; the player is then inactive |
| Players.Player.IsActive | src/player.rs:66-68 | a player who folded or has no money left is not active |
| Players.Player.TakeAction | src/player.rs:70-91 | each action has the effect of its method; `None` changes nothing; every action but a call conserves bank plus bid |
| Games.Player.constructor | src/game.rs:15-23 | the given bank or 100, empty hole cards, action `Check` |
| Games.Player.Raise | src/game.rs:25-35 | an amount above the bank is refused with 0 and changes nothing; otherwise it leaves the bank |
| Games.Player.Call | src/game.rs:37-47 | an amount above the bank is refused with 0 and changes nothing; otherwise it leaves the bank |
| Games.Player.Check | src/game.rs:49-51 | records a check |
| Games.Player.Fold | src/game.rs:53-55 | records a fold, after which the player is inactive |
| Games.Player.AllIn | src/game.rs:57-63 | empties the bank and returns it, recorded as a raise; the player is then inactive |
| Games.Player.IsActive | src/game.rs:65-67 | a player who folded or has no money left is not active |
| Games.Player.TakeAction | src/game.rs:69-84 | each of the four actions has the effect of its method |
| Games.DigitChar | src/game.rs:117 | a digit character for each value below ten |
| Games.Decimal | src/game.rs:117 | `{}` formats a number as a non-empty digit string without a leading zero |
| Games.DecimalRoundTrip | src/game.rs:117 | reading the formatted number back gives the number |
| Games.PlayerName | src/game.rs:116-118 | a name is `"Player "` followed by digits that read back as the id |
| Games.PlayerNamesDiffer | src/game.rs:116-118 | players with different ids get different names |
| Games.Position | src/game.rs:104-110 | each state has a place in the round below five |
| Games.Next | src/game.rs:150-174 | advancing moves one place on, and only Showdown goes back to PreFlop |
| Games.PositionIsInjective | src/game.rs:104-110 | different states have different places |
| Games.AdvanceIsModular | src/game.rs:150-174 | after `k` advances the round is `k` places on, modulo five |
| Games.FiveAdvancesReturn | src/game.rs:150-174 | every five advances bring the round back to where it started |
| Games.ShowdownIsFourAdvancesOn | src/game.rs:150-174 | from PreFlop, the fourth advance is the first to reach Showdown |
| Games.ActiveCount | src/game.rs:136-141 | the number of active players is at most the number of players |
| Games.NoneActive | src/game.rs:136-141 | the count is zero exactly when no player is active |
| Games.AtMostOneActive | src/game.rs:136-147 | the count is at most one exactly when no two players are both active |
| Games.SeatPlayers | src/game.rs:115-118 | players with ids `0..count`, named `Player <id>`, with the default bank, having checked |
| Games.ShuffleSeats | src/game.rs:119 | the seating order is a rearrangement of the players, each still once |
| Games.Game.constructor | src/game.rs:113-133 | `count` fresh players with pairwise different ids below `count`, named after their id, with bank 100; a shuffled full deck with no repeats and nothing dealt; turn 0, PreFlop, pot 0, blind 0.25 |
| Games.Game.ShouldAdvanceState | src/game.rs:135-148 | true exactly when at most one player is active, that is, when no two players are both active |
| Games.Game.AdvanceState | src/game.rs:150-174 | moves to the next state of the cycle and changes nothing else |

## Left out

- Randomness: `thread_rng` is replaced by generator parameters. The shuffle is modelled as the Fisher–Yates loop of `SliceRandom::shuffle`. The generator's distribution is not modelled.
- Floating point: banks, bids, the pot and the blind are exact reals. `f32` rounding is not modelled, and neither are the NaN and infinity comparisons that `amount > self.bank` would allow.
- Integer widths:
  - Player ids are `u8`. `Games.Game.constructor` requires fewer than 256 players and uses `nat` ids.
  - `Deck.dealt` is a `usize` and is unbounded here. `Cards.Deck.Deal`, `Cards.Community.Flop`/`Turn`/`River` and `Hands.Hand.Fill` require enough cards left, where the source would panic on an index out of bounds.
- `Players.Player.TakeAction`, `Games.Player.TakeAction`: `amount.unwrap()` on a call or raise is a precondition. The source panics on `None`.
- Hash maps: the iteration order of `cards_by_rank` and `cards_by_suit` is a parameter of `Hands.Hand.DetermineValue`. Hashing itself is not modelled.
- Arrays and aliasing: `Cards.Community.Flop`/`Turn`/`River` and `Hands.Hand.Fill` require that the deck's array is not the board's or the hand's. Rust's borrow rules guarantee this in the source.
- The `continue` in the suited loop (src/hand.rs:68-70) and a failed straight-flush scan (src/hand.rs:80-84) are both modelled by `Hands.CheckRunOfSuit` returning no result, after which `Hands.CheckSuitedRuns` moves on to the next suit. The specification `HandSpec.SuitedRunScore` looks only at the one suit with five cards; the two agree because seven cards hold at most one such suit (`HandSpec.FlushSuitIs`).
- Console input and output: `src/main.rs` is not part of this model. `prompt_action`, which tests/player_prompt_test.rs calls, does not exist in src/player.rs. The comments in `advance_state` about dealing and the showdown are not code and are not modelled.
- Module paths: src/game.rs imports `crate::deck::Hand`, and the test imports `Hand` and `ScoringHands` from `rust_deck::deck`. In the source both live in `hand`. The model uses `Hands.Hand` and `HandSpec.ScoringHands`.
- `Debug`, `Clone` and the other derives are not modelled, except the ordering of `ScoringHands`, which `HandSpec.ScoringHands.Strength` states.
