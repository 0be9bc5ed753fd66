# Poker hand evaluator: a Dafny model

This project models `poker.py`, a small poker hand evaluator. Given seven
cards written as two-character tokens such as `TH` (the ten of hearts),
`best_hand` returns the five cards that `hand_rank` scores highest. The
wild variant `best_wild_hand` also accepts the black joker `?B`, which may
stand for any club or spade, and the red joker `?R`, which may stand for any
heart or diamond. Neither joker may become a card the hand already holds.

The model follows the program's layers:

- `Cards` (`cards.dfy`): cards, the two jokers and the rank table `int_ranks`.
- `Seqs` (`seqs.dfy`): the list built-ins the program relies on:
  `list.count`, `list.remove` and `sorted(..., reverse=True)`.
- `Scores` (`scores.dfy`): the score tuples of `hand_rank` and Python's
  tuple comparison on them.
- `Ranking` (`ranking.dfy`): `card_ranks`, `flush`, `straight`, `kind`,
  `two_pair` and `hand_rank`.
- `Jokers` (`jokers.dfy`): `get_cards`, `get_replaced_hand` and
  `get_combinations_without_joker`.
- `Search` (`search.dfy`): `itertools.combinations`, `_best_hand`,
  `best_hand` and `best_wild_hand`.
- `Forcing` (`forcing.dfy`): shared reasoning for concrete hands. It shows
  which five cards of a pool can reach a given score, and that the search
  then returns exactly them.
- `Scenarios` and `WildScenarios` (`scenarios.dfy`, `wild_scenarios.dfy`):
  the six hands of the module's self-tests, `test_best_hand` and
  `test_best_wild_hand`.

The functions of the program that loop (`kind`, `get_replaced_hand`,
`get_combinations_without_joker`, `_best_hand` and `best_wild_hand`) are
methods with loops. `two_pair` and `best_hand`, which only call other
functions in sequence, are methods without loops. Each method is proved
equal to a function, and the properties are proved about that function.

A score is the category 0..8 with a list of tie-break integers. Python
compares `hand_rank`'s tuples item by item, and within one category every
tuple has the same shape. So flattening the items after the category into
one list keeps every comparison. The search's starting value `(0,)` is the
score with category 0 and no tie-break items.

## Model

| member | source | states |
|---|---|---|
| Cards.RankTable | poker.py:32-46 | The table knows exactly the thirteen rank characters 2..9, T, J, Q, K, A. They map to 2..14 in that order, and the joker's `?` is not a key. |
| Cards.RankValue | poker.py:32-46 | A card's rank value lies between 2 and 14. |
| Jokers.JokersUnranked | poker.py:32-46 | Neither joker has a rank in the table, so scoring a hand that still holds one fails. |
| Seqs.Count | poker.py:96 | `ranks.count(rank)` is at most the list's length, and is positive exactly when the value occurs in the list. |
| Seqs.FirstIndex | poker.py:106 | The position found is an occurrence of the value, and no earlier position holds it. |
| Seqs.RemoveFirst | poker.py:106 | `list.remove` on a copy gives a list one element shorter, with exactly one occurrence of the value fewer. |
| Seqs.RemoveFirstAt | poker.py:124 | `list.remove` drops exactly the first occurrence; the elements before and after it keep their order, as in `two_pair` at poker.py:106. |
| Seqs.SortDescending | poker.py:75 | `sorted(..., reverse=True)` gives a non-increasing list with the same elements, duplicates kept. |
| Seqs.DescendingUnique | poker.py:75 | Two non-increasing lists with the same elements are equal, so the sorted ranks are determined by the rank multiset. |
| Scores.LessIsStrictTotalOrder | poker.py:148 | Comparing scores is irreflexive, transitive and total on distinct scores. |
| Scores.SentinelIsLeast | poker.py:144 | The start value `(0,)` is below every score that carries tie-break items, including every score `hand_rank` returns. |
| Ranking.CardRanks | poker.py:72-75 | `card_ranks` has one entry per card, is non-increasing, is a permutation of the cards' rank values, and each value lies in 2..14. |
| Ranking.Flush | poker.py:78-80 | `flush` holds exactly when the hand is non-empty and every card has the first card's suit. |
| Ranking.Straight | poker.py:83-89 | On sorted ranks, `straight` holds exactly when there are five distinct ranks and the highest is four above the lowest. |
| Ranking.NoAceLowStraight | poker.py:83-89 | Sorted ranks holding both an ace and a two are never a straight; A-2-3-4-5 is not recognised. |
| Ranking.KindOf | poker.py:92-97 | `kind(n, ranks)` returns a rank occurring exactly n times, the first such in list order, and returns none exactly when no rank occurs n times. |
| Ranking.Kind | poker.py:92-97 | The early-return loop of `kind` computes `KindOf`. |
| Ranking.TwoPairOf | poker.py:100-109 | `two_pair` returns two ranks, the higher first, each occurring exactly twice, and returns none exactly when fewer than two ranks occur twice. |
| Ranking.TwoPair | poker.py:100-109 | The copy, remove and second-search steps of `two_pair` compute `TwoPairOf`. |
| Ranking.SecondPairSurvives | poker.py:103-107 | With two pairs present, removing one card of the first pair's rank still leaves a pair for the second search. |
| Ranking.QuadsHaveKicker | poker.py:54-55 | With four of a kind among five ranks, `kind(1, ranks)` finds the fifth rank. |
| Ranking.HandRankCategory | poker.py:49-69 | The category is that of the first test in the chain that the hand passes, and the hand fails every higher category's test. |
| Ranking.HandRankTiebreaks | poker.py:49-69 | Gives the tie-break items of each category. These are the top rank for straights, the quad rank then the kicker, the triple rank then the pair rank, the whole sorted ranks for flush and high card, and the kind's rank(s) followed by the sorted ranks for trips, two pair and one pair. |
| Ranking.HandRankDependsOnRanksAndFlush | poker.py:49-69 | Two hands with the same rank multiset and the same flush flag score the same. |
| Ranking.HandRankOrderFree | poker.py:49-69 | Reordering the five cards does not change the score. |
| Ranking.HandRank | poker.py:49-69 | `hand_rank` returns a category between 0 and 8 with at least one tie-break item; which category and which items is stated by Ranking.HandRankCategory and Ranking.HandRankTiebreaks. |
| Ranking.ScoreOf | poker.py:52-69 | The chain of tests after `ranks` is computed yields a category between 0 and 8 with at least one tie-break item. |
| Jokers.GetCards | poker.py:112-114 | `get_cards` lists 13 candidates per suit letter. |
| Jokers.GetCardsMembers | poker.py:112-114 | The candidates are exactly the cards of a known rank in one of the given suits. |
| Jokers.GetCardsDistinct | poker.py:112-114 | With distinct suit letters, no candidate is listed twice. |
| Jokers.ReplaceFirst | poker.py:123-125 | One replacement keeps the hand's size and swaps one occurrence of the joker for the card: the first occurrence is removed, the other cards keep their order, and the new card comes last. |
| Jokers.ReplacedHands | poker.py:117-127 | `get_replaced_hand` never returns an empty list, and returns `[hand]` when the joker is absent. |
| Jokers.GetReplacedHand | poker.py:117-127 | The loop of `get_replaced_hand` computes `ReplacedHands`. |
| Jokers.ReplacedHandsExactly | poker.py:117-127 | With the joker present and some candidate free, the hands returned are exactly the hand with the joker replaced by each free candidate. |
| Jokers.FreeCandidate | poker.py:121-122 | A hand of at most 26 cards holding the joker leaves some candidate of two suits free. |
| Jokers.ReplacedHandsAreReplacements | poker.py:117-127 | Each hand returned is the hand with the joker replaced by a free candidate, or the hand itself when the joker is absent, and every such hand is returned. |
| Jokers.BlackStepKeepsRed | poker.py:135-138 | Replacing the black joker changes neither the red joker's presence nor which red cards are free. |
| Jokers.RedStep | poker.py:137-138 | The red step on one black resolution gives exactly the hands reached by choosing a red replacement after it. |
| Jokers.JokerFreePools | poker.py:130-140 | `get_combinations_without_joker` returns at least one pool. |
| Jokers.GetCombinationsWithoutJoker | poker.py:130-140 | The pop-and-extend loop computes `JokerFreePools`. |
| Jokers.JokerFreePoolsAreResolutions | poker.py:130-140 | For a hand of at most 26 cards, the pools returned are exactly the ways to replace each joker the hand holds. Black goes first, and each replacement is a card of the joker's colour not already in the hand. |
| Jokers.ResolutionShape | poker.py:117-138 | A resolution keeps the hand's size, holds no joker, keeps every ordinary card, and has only ranked cards when the hand's ordinary cards are ranked. |
| Search.CombinationsExactly | poker.py:156 | The k-card selections are exactly the order-keeping k-element subsequences of the pool. |
| Search.Combinations | poker.py:156 | `itertools.combinations(pool, k)` yields C(n, k) selections, by Pascal's rule; which selections they are is stated by Search.CombinationsExactly. |
| Search.SevenChooseFive | poker.py:156 | Seven cards give 21 five-card hands. |
| Search.CombinationsNonEmpty | poker.py:156 | There is a selection exactly when the pool has at least k cards. |
| Search.ScanBy | poker.py:143-151 | The scan's result, when there is one, is an item of the list returned with its own score; when there is none, the score is the start value `(0,)`. |
| Search.Scan | poker.py:143-151 | The hand `_best_hand` keeps, when there is one, is one of the hands given, and the score kept with it is its `hand_rank`. |
| Search.ScanFindsFirstBest | poker.py:143-151 | The scan finds an item exactly when the list is non-empty. That item is the first of the greatest score, and it is returned with that score. |
| Search.FirstBestUnique | poker.py:143-151 | At most one position is the first one of greatest score, so ties go to the earliest hand. |
| Search.BestOf | poker.py:143-151 | The loop of `_best_hand` computes the scan. |
| Search.ScanIsBest | poker.py:143-151 | The scan returns a hand exactly when the list is non-empty. That hand is in the list and no hand in the list scores higher. |
| Search.BestSelection | poker.py:154-157 | `best_hand` returns a hand exactly when the pool has five cards or more. The hand is five of the pool's cards in pool order, and no five cards of the pool score higher. |
| Search.BestHand | poker.py:154-157 | `best_hand` searches the five-card selections in `itertools` order. |
| Search.WildCandidates | poker.py:162-164 | Every hand the `hands += ...` loop collects has five cards. |
| Search.WildCandidatesMembers | poker.py:162-164 | The collected candidates are exactly the five-card selections of the pools. |
| Search.WildCandidatesAreSelections | poker.py:160-165 | A wild candidate is exactly five cards, in order, of some resolution of the hand. |
| Search.WildScorable | poker.py:160-165 | Every wild candidate can be scored: no joker survives into a scored hand. |
| Search.WildCandidatesNonEmpty | poker.py:160-165 | The wild search has a candidate exactly when the hand holds five cards or more. |
| Search.BestWildSelection | poker.py:160-165 | `best_wild_hand` returns a hand exactly when the hand holds five cards or more. The hand is five cards of some resolution, and no five cards of any resolution score higher. |
| Search.BestWildHand | poker.py:160-165 | `best_wild_hand` searches every five-card selection of every pool `get_combinations_without_joker` returns, in order. |
| Search.WildWithoutJokers | poker.py:117-140 | Without jokers the only pool is the hand itself, so the wild search searches what `best_hand` searches. |
| Forcing.BestIsForced | poker.py:143-157 | When every five cards of the pool scoring at least some hand's score are that hand, `best_hand` returns it. |
| WildScenarios.WildBestIsForced | poker.py:143-165 | When every five cards of every resolution scoring at least some candidate's score are that candidate, `best_wild_hand` returns it. |
| Scenarios.BestHandStraightFlush | poker.py:170 | `best_hand` on `6C 7C 8C 9C TC 5C JS` returns `6C 7C 8C 9C TC`. |
| Scenarios.BestHandFullHouse | poker.py:171 | `best_hand` on `TD TC TH 7C 7D 8C 8S` returns `TD TC TH 8C 8S`. |
| Scenarios.BestHandQuads | poker.py:172 | `best_hand` on `JD TC TH 7C 7D 7S 7H` returns `JD 7C 7D 7S 7H`. |
| WildScenarios.BestWildHandStraightFlush | poker.py:178 | `best_wild_hand` on `6C 7C 8C 9C TC 5C ?B` returns `7C 8C 9C TC JC`; the black joker becomes the jack of clubs. |
| WildScenarios.BestWildHandFourTens | poker.py:179 | `best_wild_hand` on `TD TC 5H 5C 7C ?R ?B` returns `TD TC 7C TS TH`; the jokers become the ten of spades and the ten of hearts. |
| WildScenarios.BestWildHandJokerFree | poker.py:180 | `best_wild_hand` on `JD TC TH 7C 7D 7S 7H` returns `JD 7C 7D 7S 7H`, the same as `best_hand`. |

## Left out

- The self-test functions, their `print` calls and the `__main__` entry point are not modelled. The six assertions of the tests are lemmas instead. Each lemma proves the exact list returned, in the search's order; the tests compare only the sorted list.
- Splitting the input string into tokens is not modelled. A card is given as a pair of rank and suit characters.
- Pool validation is not modelled. The header comment (poker.py:5-9) describes a hand of seven cards, and the comment at poker.py:122 says a deck cannot hold the same card twice. The code checks neither, and the model follows the code: pools of any length are accepted.
- `itertools.combinations` is modelled by its documented output order, not its implementation. `best_wild_hand` materialises each pool's combinations in a list, and the model does the same.
- Lists are values here. The copies `hand.copy()` and `copy(ranks)` therefore need no modelling, and nothing can alias them.
- The fallback `hands or hand` at poker.py:140 is not modelled. `get_replaced_hand` never returns an empty list, so `hands` is never empty when the fallback is reached.
- Ranking.HandRank: requires five cards of known rank. A joker or an unknown rank makes the program raise `KeyError`. The five-card requirement is not forced by the code: `hand_rank` also scores hands of one to four or six and more ranked cards, but its only callers pass the five-card selections of `itertools.combinations(..., 5)` (poker.py:156, 164).
- Ranking.TwoPairOf / Ranking.TwoPair: the tests `if rank1:` and `if rank2:` (poker.py:105, 108) use Python truthiness, which the model reads as "a rank was found". The two differ only for a rank of 0, which `int_ranks` never yields (Ranking.CardRanks keeps every rank in 2..14). On a list such as `[5, 5, 0, 0, 3]` the program returns `None` and `TwoPairOf` a pair. The same reading is used for the `elif kind(...)` tests of `hand_rank` in Ranking.ScoreOf, which only ever sees ranks from `card_ranks`.
- Ranking.Straight: requires a non-empty list. `straight([])` raises `IndexError`.
- Search.BestWildHand: requires each joker at most once, at most 26 cards, and every non-joker card of known rank. With a repeated joker, `list.remove` replaces only the first occurrence. When the hand holds five cards or more, the second joker would reach `hand_rank` and raise `KeyError`; with fewer, nothing is scored and `best_wild_hand` returns `None`. Such hands are outside the model. The requirement that non-joker cards have a known rank matters only for hands of five cards or more: with fewer, nothing is scored and `best_wild_hand` returns `None` whatever the cards. With more than 26 cards, a joker might find no free card and stay in the hand.
- Search.BestHand: requires every card to have a known rank. With five cards or more, a card of unknown rank reaches `hand_rank` and the program raises `KeyError`. With fewer than five, `itertools.combinations(hand, 5)` is empty, nothing is scored and `best_hand` returns `None` whatever the cards; the model leaves those unranked short hands out too.
- Score tuples: the tuples of `hand_rank` are flattened into one tie-break list, as described above. The ordering is proved to be a strict total order, but not to be item-by-item identical to Python's comparison of nested tuples.
