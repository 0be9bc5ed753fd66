/**
 * The rank classifier and `hand_rank`: from a five-card hand to its score.
 */
module Ranking {
  import opened Wrappers
  import opened Seqs
  import opened Cards
  import opened Scores

  /** The rank values of a hand, in card order. */
  function RankValues(hand: seq<Card>): seq<int>
    requires AllRanked(hand)
  {
    seq(|hand|, i requires 0 <= i < |hand| => RankValue(hand[i]))
  }

  /** `card_ranks`: the hand's rank values, largest first, duplicates kept. */
  function CardRanks(hand: seq<Card>): (ranks: seq<int>)
    requires AllRanked(hand)
    ensures |ranks| == |hand|
    ensures NonIncreasing(ranks)
    ensures multiset(ranks) == multiset(RankValues(hand))
    ensures forall x :: x in ranks ==> 2 <= x <= 14
  {
    var values := RankValues(hand);
    var ranks := SortDescending(values);
    assert forall x :: x in ranks ==> x in multiset(values);
    ranks
  }

  lemma SingleSuit(hand: seq<Card>)
    ensures |set c | c in hand :: c.suit| == 1 <==> hand != [] && forall c :: c in hand ==> c.suit == hand[0].suit
  {
    var suits := set c | c in hand :: c.suit;
    if hand != [] && forall c :: c in hand ==> c.suit == hand[0].suit {
      assert suits == {hand[0].suit};
    }
    if |suits| == 1 {
      var s :| s in suits;
      assert |suits - {s}| == |suits| - 1;
      assert suits - {s} == {};
      assert hand != [];
      forall c | c in hand
        ensures c.suit == hand[0].suit
      {
        assert c.suit in suits && hand[0].suit in suits;
      }
    }
  }

  /** `flush`: the set of suits in the hand has exactly one element. */
  function Flush(hand: seq<Card>): (b: bool)
    ensures b <==> hand != [] && forall c :: c in hand ==> c.suit == hand[0].suit
  {
    SingleSuit(hand);
    |set c | c in hand :: c.suit| == 1
  }

  /**
   * `straight`: the ranks equal the five values counted down from the first
   * one.  For ranks sorted largest first this is exactly "five different
   * ranks spanning four", with the ace counting only as 14.
   */
  function Straight(ranks: seq<int>): (b: bool)
    requires ranks != []
    ensures NonIncreasing(ranks) ==> (b <==> |ranks| == 5 && Distinct(ranks) && ranks[0] - ranks[4] == 4)
  {
    StraightIsRun(ranks);
    seq(5, i => ranks[0] - i) == ranks
  }

  lemma StraightIsRun(ranks: seq<int>)
    requires ranks != []
    ensures NonIncreasing(ranks) ==>
      (seq(5, i => ranks[0] - i) == ranks <==> |ranks| == 5 && Distinct(ranks) && ranks[0] - ranks[4] == 4)
  {
    if NonIncreasing(ranks) && |ranks| == 5 && Distinct(ranks) && ranks[0] - ranks[4] == 4 {
      assert ranks[0] > ranks[1] > ranks[2] > ranks[3] > ranks[4];
      assert seq(5, i => ranks[0] - i) == ranks;
    }
  }

  /** Ace-to-five is not a straight: no sorted rank list holding both an ace and a two is one. */
  lemma NoAceLowStraight(ranks: seq<int>)
    requires ranks != [] && NonIncreasing(ranks)
    requires 14 in ranks && 2 in ranks
    ensures !Straight(ranks)
  {
    var i :| 0 <= i < |ranks| && ranks[i] == 14;
    var j :| 0 <= j < |ranks| && ranks[j] == 2;
    assert ranks[0] >= 14 && ranks[|ranks| - 1] <= 2;
  }

  /** Some rank occurs exactly `n` times. */
  predicate HasKind(n: nat, ranks: seq<int>)
  {
    exists x :: x in ranks && Count(ranks, x) == n
  }

  /** Two different ranks each occur exactly twice. */
  predicate HasTwoPairs(ranks: seq<int>)
  {
    exists x, y :: x in ranks && y in ranks && x != y && Count(ranks, x) == 2 && Count(ranks, y) == 2
  }

  /** The position of the first rank, from `from` on, whose count in the whole list is `n`. */
  function FirstOfCount(n: nat, ranks: seq<int>, from: nat): (k: nat)
    requires from <= |ranks|
    ensures from <= k <= |ranks|
    ensures k < |ranks| ==> Count(ranks, ranks[k]) == n
    ensures forall j :: from <= j < k ==> Count(ranks, ranks[j]) != n
    decreases |ranks| - from
  {
    if from == |ranks| then |ranks|
    else if Count(ranks, ranks[from]) == n then from
    else FirstOfCount(n, ranks, from + 1)
  }

  /** What `kind(n, ranks)` returns: the first rank in list order occurring exactly `n` times. */
  function KindOf(n: nat, ranks: seq<int>): (r: Option<int>)
    ensures r.Some? ==> Count(ranks, r.value) == n
    ensures r.Some? ==> exists k :: 0 <= k < |ranks| && ranks[k] == r.value && forall j :: 0 <= j < k ==> Count(ranks, ranks[j]) != n
    ensures r.None? <==> !HasKind(n, ranks)
  {
    var k := FirstOfCount(n, ranks, 0);
    if k < |ranks| then Some(ranks[k]) else None
  }

  /** `kind`: a for-loop over the ranks that returns at the first match. */
  method Kind(n: nat, ranks: seq<int>) returns (r: Option<int>)
    ensures r == KindOf(n, ranks)
  {
    for i := 0 to |ranks|
      invariant forall j :: 0 <= j < i ==> Count(ranks, ranks[j]) != n
    {
      if Count(ranks, ranks[i]) == n {
        return Some(ranks[i]);
      }
    }
    return None;
  }

  /** What `two_pair(ranks)` returns: the two paired ranks, higher first. */
  function TwoPairOf(ranks: seq<int>): (r: Option<(int, int)>)
    ensures r.Some? ==> r.value.0 > r.value.1 && Count(ranks, r.value.0) == 2 && Count(ranks, r.value.1) == 2
    ensures r.None? <==> !HasTwoPairs(ranks)
  {
    match KindOf(2, ranks)
    case None => None
    case Some(rank1) =>
      var rest := RemoveFirst(ranks, rank1);
      assert forall x :: x != rank1 ==> Count(rest, x) == Count(ranks, x);
      match KindOf(2, rest)
      case None =>
        SecondPairSurvives(ranks, rank1);
        None
      case Some(rank2) =>
        assert Count(rest, rank1) == 1;
        assert rank2 in multiset(ranks);
        if rank1 > rank2 then Some((rank1, rank2)) else Some((rank2, rank1))
  }

  /** With two pairs present, removing one card of a paired rank leaves a pair. */
  lemma SecondPairSurvives(ranks: seq<int>, rank1: int)
    requires rank1 in ranks
    ensures HasTwoPairs(ranks) ==> HasKind(2, RemoveFirst(ranks, rank1))
  {
    if HasTwoPairs(ranks) {
      var rest := RemoveFirst(ranks, rank1);
      var x, y :| x in ranks && y in ranks && x != y && Count(ranks, x) == 2 && Count(ranks, y) == 2;
      var z := if x != rank1 then x else y;
      assert Count(rest, z) == 2;
      assert z in multiset(rest);
    }
  }

  /** `two_pair`: searches a copy, removes the first pair rank from it, searches again. */
  method TwoPair(ranks: seq<int>) returns (r: Option<(int, int)>)
    ensures r == TwoPairOf(ranks)
  {
    var ranksCopy := ranks;
    r := None;
    var rank1 := Kind(2, ranksCopy);
    if rank1.Some? {
      ranksCopy := RemoveFirst(ranksCopy, rank1.value);
      var rank2 := Kind(2, ranksCopy);
      if rank2.Some? {
        r := if rank1.value > rank2.value then Some((rank1.value, rank2.value)) else Some((rank2.value, rank1.value));
      }
    }
  }

  lemma {:induction false} AllEqualCount(s: seq<int>, x: int)
    requires forall i :: 0 <= i < |s| ==> s[i] == x
    ensures Count(s, x) == |s|
  {
    if s != [] {
      assert s == [s[0]] + s[1..];
      AllEqualCount(s[1..], x);
    }
  }

  /** With four of a kind among five ranks, the fifth rank occurs exactly once. */
  lemma QuadsHaveKicker(ranks: seq<int>, q: int)
    requires |ranks| == 5 && Count(ranks, q) == 4
    ensures KindOf(1, ranks).Some?
  {
    if forall i :: 0 <= i < |ranks| ==> ranks[i] == q {
      AllEqualCount(ranks, q);
    }
    var i :| 0 <= i < |ranks| && ranks[i] != q;
    CountsOfTwoValues(ranks, q, ranks[i]);
    assert ranks[i] in multiset(ranks);
  }

  /**
   * The tests of `hand_rank`, one per category, on the sorted ranks and the
   * flush flag: category `c` is awarded when its test holds and the tests of
   * all higher categories fail.
   */
  predicate Qualifies(ranks: seq<int>, flush: bool, c: nat)
    requires ranks != []
  {
    match c
    case 8 => Straight(ranks) && flush
    case 7 => HasKind(4, ranks)
    case 6 => HasKind(3, ranks) && HasKind(2, ranks)
    case 5 => flush
    case 4 => Straight(ranks)
    case 3 => HasKind(3, ranks)
    case 2 => HasTwoPairs(ranks)
    case 1 => HasKind(2, ranks)
    case 0 => true
    case _ => false
  }

  /** `hand_rank`: the category of the first test that matches, with its tie-breakers. */
  function HandRank(hand: seq<Card>): (score: Score)
    requires |hand| == 5 && AllRanked(hand)
    ensures score.category <= 8 && score.tiebreak != []
  {
    ScoreOf(CardRanks(hand), Flush(hand))
  }

  /** The body of `hand_rank` once `ranks = card_ranks(hand)` and `flush(hand)` are known. */
  function ScoreOf(ranks: seq<int>, flush: bool): (score: Score)
    requires |ranks| == 5
    ensures score.category <= 8 && score.tiebreak != []
  {
    if Straight(ranks) && flush then
      Score(8, [ranks[0]])
    else if KindOf(4, ranks).Some? then
      QuadsHaveKicker(ranks, KindOf(4, ranks).value);
      Score(7, [KindOf(4, ranks).value, KindOf(1, ranks).value])
    else if KindOf(3, ranks).Some? && KindOf(2, ranks).Some? then
      Score(6, [KindOf(3, ranks).value, KindOf(2, ranks).value])
    else if flush then
      Score(5, ranks)
    else if Straight(ranks) then
      Score(4, [ranks[0]])
    else if KindOf(3, ranks).Some? then
      Score(3, [KindOf(3, ranks).value] + ranks)
    else if TwoPairOf(ranks).Some? then
      Score(2, [TwoPairOf(ranks).value.0, TwoPairOf(ranks).value.1] + ranks)
    else if KindOf(2, ranks).Some? then
      Score(1, [KindOf(2, ranks).value] + ranks)
    else
      Score(0, ranks)
  }

  /** The category is that of the first test, strongest first, that the hand passes. */
  lemma HandRankCategory(hand: seq<Card>)
    requires |hand| == 5 && AllRanked(hand)
    ensures Qualifies(CardRanks(hand), Flush(hand), HandRank(hand).category)
    ensures forall c :: HandRank(hand).category < c <= 8 ==> !Qualifies(CardRanks(hand), Flush(hand), c)
  {
    ScoreOfCategory(CardRanks(hand), Flush(hand));
  }

  lemma ScoreOfCategory(ranks: seq<int>, flush: bool)
    requires |ranks| == 5
    ensures Qualifies(ranks, flush, ScoreOf(ranks, flush).category)
    ensures forall c :: ScoreOf(ranks, flush).category < c <= 8 ==> !Qualifies(ranks, flush, c)
  {
    var c := ScoreOf(ranks, flush).category;
    if Straight(ranks) && flush {
      assert c == 8;
    } else if HasKind(4, ranks) {
      assert c == 7;
    } else if HasKind(3, ranks) && HasKind(2, ranks) {
      assert c == 6;
    } else if flush {
      assert c == 5;
    } else if Straight(ranks) {
      assert c == 4;
    } else if HasKind(3, ranks) {
      assert c == 3;
    } else if HasTwoPairs(ranks) {
      assert c == 2;
    } else if HasKind(2, ranks) {
      assert c == 1;
    } else {
      assert c == 0;
    }
  }

  /** What the tie-break items of each category are. */
  lemma HandRankTiebreaks(hand: seq<Card>)
    requires |hand| == 5 && AllRanked(hand)
    ensures var score := HandRank(hand); var ranks := CardRanks(hand);
      && (score.category in {8, 4} ==> score.tiebreak == [ranks[0]] && forall x :: x in ranks ==> x <= ranks[0])
      && (score.category == 7 ==> |score.tiebreak| == 2 && Count(ranks, score.tiebreak[0]) == 4 && Count(ranks, score.tiebreak[1]) == 1)
      && (score.category == 6 ==> |score.tiebreak| == 2 && Count(ranks, score.tiebreak[0]) == 3 && Count(ranks, score.tiebreak[1]) == 2)
      && (score.category in {5, 0} ==> score.tiebreak == ranks)
      && (score.category == 3 ==> score.tiebreak[1..] == ranks && Count(ranks, score.tiebreak[0]) == 3)
      && (score.category == 2 ==> |score.tiebreak| == 7 && score.tiebreak[2..] == ranks && score.tiebreak[0] > score.tiebreak[1]
                                  && Count(ranks, score.tiebreak[0]) == 2 && Count(ranks, score.tiebreak[1]) == 2)
      && (score.category == 1 ==> score.tiebreak[1..] == ranks && Count(ranks, score.tiebreak[0]) == 2)
  {
    ScoreOfTiebreaks(CardRanks(hand), Flush(hand));
  }

  lemma ScoreOfTiebreaks(ranks: seq<int>, flush: bool)
    requires |ranks| == 5 && NonIncreasing(ranks)
    ensures var score := ScoreOf(ranks, flush);
      && (score.category in {8, 4} ==> score.tiebreak == [ranks[0]] && forall x :: x in ranks ==> x <= ranks[0])
      && (score.category == 7 ==> |score.tiebreak| == 2 && Count(ranks, score.tiebreak[0]) == 4 && Count(ranks, score.tiebreak[1]) == 1)
      && (score.category == 6 ==> |score.tiebreak| == 2 && Count(ranks, score.tiebreak[0]) == 3 && Count(ranks, score.tiebreak[1]) == 2)
      && (score.category in {5, 0} ==> score.tiebreak == ranks)
      && (score.category == 3 ==> score.tiebreak[1..] == ranks && Count(ranks, score.tiebreak[0]) == 3)
      && (score.category == 2 ==> |score.tiebreak| == 7 && score.tiebreak[2..] == ranks && score.tiebreak[0] > score.tiebreak[1]
                                  && Count(ranks, score.tiebreak[0]) == 2 && Count(ranks, score.tiebreak[1]) == 2)
      && (score.category == 1 ==> score.tiebreak[1..] == ranks && Count(ranks, score.tiebreak[0]) == 2)
  {
    var score := ScoreOf(ranks, flush);
    forall x | x in ranks ensures x <= ranks[0] {
      HeadIsMax(ranks, x);
    }
    if Straight(ranks) && flush {
      assert score == Score(8, [ranks[0]]);
    } else if KindOf(4, ranks).Some? {
      QuadsHaveKicker(ranks, KindOf(4, ranks).value);
      assert score == Score(7, [KindOf(4, ranks).value, KindOf(1, ranks).value]);
    } else if KindOf(3, ranks).Some? && KindOf(2, ranks).Some? {
      assert score == Score(6, [KindOf(3, ranks).value, KindOf(2, ranks).value]);
    } else if flush {
      assert score == Score(5, ranks);
    } else if Straight(ranks) {
      assert score == Score(4, [ranks[0]]);
    } else if KindOf(3, ranks).Some? {
      assert score == Score(3, [KindOf(3, ranks).value] + ranks);
    } else if TwoPairOf(ranks).Some? {
      var pair := TwoPairOf(ranks).value;
      assert score == Score(2, [pair.0, pair.1] + ranks);
    } else if KindOf(2, ranks).Some? {
      assert score == Score(1, [KindOf(2, ranks).value] + ranks);
    } else {
      assert score == Score(0, ranks);
    }
  }

  /** `hand_rank` depends only on the multiset of rank values and on whether the suits agree. */
  lemma HandRankDependsOnRanksAndFlush(h1: seq<Card>, h2: seq<Card>)
    requires |h1| == 5 && |h2| == 5 && AllRanked(h1) && AllRanked(h2)
    requires multiset(RankValues(h1)) == multiset(RankValues(h2))
    requires Flush(h1) == Flush(h2)
    ensures HandRank(h1) == HandRank(h2)
  {
    DescendingUnique(CardRanks(h1), CardRanks(h2));
  }

  lemma RankValuesAppend(a: seq<Card>, b: seq<Card>)
    requires AllRanked(a) && AllRanked(b)
    ensures AllRanked(a + b)
    ensures RankValues(a + b) == RankValues(a) + RankValues(b)
  {
  }

  /** Taking one card out of a hand takes its rank value out of the rank multiset. */
  lemma RankValuesRemoveAt(h: seq<Card>, j: nat)
    requires AllRanked(h) && j < |h|
    ensures AllRanked(h[..j] + h[j + 1..])
    ensures multiset(RankValues(h)) == multiset(RankValues(h[..j] + h[j + 1..])) + multiset{RankValue(h[j])}
  {
    var left, mid, right := h[..j], [h[j]], h[j + 1..];
    assert h == left + (mid + right);
    assert AllRanked(left) by {
      forall c | c in left ensures HasRank(c) {
        assert c in h;
      }
    }
    assert AllRanked(right) by {
      forall c | c in right ensures HasRank(c) {
        assert c in h;
      }
    }
    var v := RankValue(h[j]);
    assert RankValues(mid) == [v];
    RankValuesAppend(mid, right);
    RankValuesAppend(left, mid + right);
    RankValuesAppend(left, right);
    assert RankValues(h) == RankValues(left) + ([v] + RankValues(right));
    assert multiset(RankValues(h)) == multiset(RankValues(left)) + multiset{v} + multiset(RankValues(right));
  }

  /** Cutting out position `j` removes one copy of the element there. */
  lemma RemoveAtMultiset<T>(s: seq<T>, j: nat)
    requires j < |s|
    ensures multiset(s[..j] + s[j + 1..]) == multiset(s) - multiset{s[j]}
  {
    assert s == s[..j] + [s[j]] + s[j + 1..];
  }

  /** Reordering keeps every card, so it keeps every card ranked. */
  lemma AllRankedPermutation(h1: seq<Card>, h2: seq<Card>)
    requires AllRanked(h1) && multiset(h1) == multiset(h2)
    ensures AllRanked(h2)
  {
    forall c | c in h2 ensures HasRank(c) {
      assert c in multiset(h2);
    }
  }

  /** Where the first card of `h1` sits in a reordering `h2` of it. */
  lemma IndexOfMember(h1: seq<Card>, h2: seq<Card>) returns (j: nat)
    requires h1 != [] && multiset(h1) == multiset(h2)
    ensures j < |h2| && h2[j] == h1[0]
  {
    assert h1[0] in multiset(h1);
    assert h1[0] in h2;
    j :| 0 <= j < |h2| && h2[j] == h1[0];
  }

  lemma {:induction false} RankValuesPermutation(h1: seq<Card>, h2: seq<Card>)
    requires AllRanked(h1) && multiset(h1) == multiset(h2)
    ensures AllRanked(h2)
    ensures multiset(RankValues(h1)) == multiset(RankValues(h2))
    decreases |h1|
  {
    AllRankedPermutation(h1, h2);
    if h1 != [] {
      var c, t := h1[0], h1[1..];
      var j := IndexOfMember(h1, h2);
      assert h2[j] == c;
      var rest := h2[..j] + h2[j + 1..];
      assert h1[..0] + h1[1..] == t;
      assert multiset(t) == multiset(rest) by {
        RemoveAtMultiset(h2, j);
        RemoveAtMultiset(h1, 0);
      }
      assert AllRanked(t) && multiset(RankValues(h1)) == multiset(RankValues(t)) + multiset{RankValue(c)} by {
        RankValuesRemoveAt(h1, 0);
      }
      assert multiset(RankValues(h2)) == multiset(RankValues(rest)) + multiset{RankValue(c)} by {
        RankValuesRemoveAt(h2, j);
      }
      RankValuesPermutation(t, rest);
    }
  }

  /** Reordering the cards of a hand does not change its score. */
  lemma HandRankOrderFree(h1: seq<Card>, h2: seq<Card>)
    requires |h1| == 5 && AllRanked(h1)
    requires multiset(h1) == multiset(h2)
    ensures |h2| == 5 && AllRanked(h2)
    ensures HandRank(h1) == HandRank(h2)
  {
    assert |h2| == |multiset(h2)| == |multiset(h1)| == 5;
    RankValuesPermutation(h1, h2);
    forall c ensures c in h1 <==> c in h2 {
      assert c in h1 <==> c in multiset(h1);
    }
    assert (set c | c in h1 :: c.suit) == (set c | c in h2 :: c.suit);
    HandRankDependsOnRanksAndFlush(h1, h2);
  }
}
