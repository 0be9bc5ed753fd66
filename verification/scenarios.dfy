/**
 * The three hands of the module's self-test `test_best_hand`: for each seven
 * cards, the five that `best_hand` returns, proved by showing that no other
 * five cards of the pool reach their score.
 */
module Scenarios {
  import opened Wrappers
  import opened Seqs
  import opened Cards
  import opened Scores
  import opened Ranking
  import opened Search
  import opened Forcing

  // ---------------------------------------------------------------------
  // "6C 7C 8C 9C TC 5C JS": the ten-high straight flush in clubs.
  // ---------------------------------------------------------------------

  const StraightFlushPool: seq<Card> := [Card('6', 'C'), Card('7', 'C'), Card('8', 'C'), Card('9', 'C'), Card('T', 'C'), Card('5', 'C'), Card('J', 'S')]
  const StraightFlushHand: seq<Card> := [Card('6', 'C'), Card('7', 'C'), Card('8', 'C'), Card('9', 'C'), Card('T', 'C')]

  lemma StraightFlushSuits()
    ensures var pool := StraightFlushPool;
      && AllRanked(pool)
      && (forall x :: x in pool && RankValue(x) == 11 ==> x.suit == 'S')
      && (forall x :: x in pool && RankValue(x) == 7 ==> x.suit == 'C')
  {
    var pool := StraightFlushPool;
    assert AllRanked(pool);
  }

  lemma StraightFlushPoolFacts()
    ensures AllRanked(StraightFlushPool) && RankValues(StraightFlushPool) == [6, 7, 8, 9, 10, 5, 11]
  {
    assert AllRanked(StraightFlushPool);
  }

  lemma StraightFlushPoolMultiset(values: seq<int>)
    requires values == [6, 7, 8, 9, 10, 5, 11]
    ensures multiset(values) == multiset{6, 7, 8, 9, 10, 5, 11}
  {
  }

  lemma StraightFlushSelection()
    ensures AllRanked(StraightFlushPool) && WithRanks(StraightFlushPool, {6, 7, 8, 9, 10}) == StraightFlushHand
  {
    var pool, values := StraightFlushPool, {6, 7, 8, 9, 10};
    assert AllRanked(pool);
    assert WithRanks(pool[6..], values) == [];
    assert WithRanks(pool[5..], values) == [];
    assert WithRanks(pool[4..], values) == [pool[4]];
    assert WithRanks(pool[3..], values) == pool[3..5];
    assert WithRanks(pool[2..], values) == pool[2..5];
    assert WithRanks(pool[1..], values) == pool[1..5];
  }

  lemma StraightFlushSubseq()
    ensures IsSubseq(StraightFlushHand, StraightFlushPool)
  {
  }

  lemma StraightFlushScore(h: seq<Card>, ranks: seq<int>)
    requires h == StraightFlushHand && ranks == [10, 9, 8, 7, 6]
    ensures AllRanked(h) && HandRank(h) == ScoreOf(ranks, true)
  {
    StraightFlushHandFacts();
    StraightFlushSorted([6, 7, 8, 9, 10], ranks);
    DescendingFive(10, 9, 8, 7, 6);
    ScoreOfHand(h, ranks, true);
  }

  lemma StraightFlushHandFacts()
    ensures var h := StraightFlushHand;
      AllRanked(h) && RankValues(h) == [6, 7, 8, 9, 10] && Flush(h)
  {
    var h := StraightFlushHand;
    assert AllRanked(h);
    assert forall c :: c in h ==> c.suit == h[0].suit;
  }

  lemma StraightFlushSorted(values: seq<int>, ranks: seq<int>)
    requires values == [6, 7, 8, 9, 10] && ranks == [10, 9, 8, 7, 6]
    ensures multiset(values) == multiset(ranks)
  {
    assert multiset(values) == multiset{6, 7, 8, 9, 10};
    assert multiset(ranks) == multiset{6, 7, 8, 9, 10};
  }

  lemma StraightFlushScoreOf()
    ensures ScoreOf([10, 9, 8, 7, 6], true) == Score(8, [10])
  {
    assert seq(5, i => 10 - i) == [10, 9, 8, 7, 6];
  }

  lemma StraightFlushPoolRanks(ranks: seq<int>)
    requires |ranks| == 5
    requires forall v :: Count(ranks, v) <= multiset{6, 7, 8, 9, 10, 5, 11}[v]
    ensures forall i :: 0 <= i < 5 ==> 5 <= ranks[i] <= 11
  {
    RanksInPool(ranks, multiset{6, 7, 8, 9, 10, 5, 11});
  }

  /** Sorted ranks out of `6 7 8 9 T 5 J` that score a straight flush of ten or better. */
  lemma StraightFlushRanks(ranks: seq<int>, flush: bool, score: Score)
    requires |ranks| == 5 && NonIncreasing(ranks)
    requires forall i :: 0 <= i < 5 ==> 5 <= ranks[i] <= 11
    requires Explains(score, ranks, flush) && !Less(score, Score(8, [10]))
    ensures flush && 7 in ranks && (ranks[0] == 10 || ranks[0] == 11)
    ensures ranks[0] == 11 ==> 11 in ranks
    ensures ranks[0] == 10 ==> forall v :: v in ranks ==> 6 <= v <= 10
  {
    assert score.category == 8;
    var r := ranks[0];
    assert score.tiebreak == [r];
    assert r < 10 ==> SeqLess([r], [10]);
    StraightRun(ranks);
    assert ranks[3] == r - 3 && ranks[4] == r - 4;
    forall v | v in ranks ensures r - 4 <= v <= r {
      var i :| 0 <= i < 5 && ranks[i] == v;
    }
  }

  lemma StraightFlushValues(pool: seq<Card>, b: seq<Card>, score: Score)
    requires AllRanked(pool) && multiset(RankValues(pool)) == multiset{6, 7, 8, 9, 10, 5, 11}
    requires forall x :: x in pool && RankValue(x) == 11 ==> x.suit == 'S'
    requires forall x :: x in pool && RankValue(x) == 7 ==> x.suit == 'C'
    requires |b| == 5 && IsSubseq(b, pool) && AllRanked(b)
    requires Explains(score, CardRanks(b), Flush(b)) && !Less(score, Score(8, [10]))
    ensures forall x :: x in b ==> RankValue(x) in {6, 7, 8, 9, 10}
  {
    SelectionRanks(b, pool);
    assert forall v :: Count(CardRanks(b), v) <= multiset{6, 7, 8, 9, 10, 5, 11}[v];
    StraightFlushPoolRanks(CardRanks(b));
    StraightFlushRanks(CardRanks(b), Flush(b), score);
    FlushClash(b, pool, 11, 'S', 7, 'C');
    forall x | x in b ensures RankValue(x) in {6, 7, 8, 9, 10} {
      assert RankValue(x) in CardRanks(b);
    }
  }

  lemma StraightFlushValuesAll(pool: seq<Card>, values: set<int>)
    requires AllRanked(pool) && multiset(RankValues(pool)) == multiset{6, 7, 8, 9, 10, 5, 11}
    requires forall x :: x in pool && RankValue(x) == 11 ==> x.suit == 'S'
    requires forall x :: x in pool && RankValue(x) == 7 ==> x.suit == 'C'
    requires values == {6, 7, 8, 9, 10}
    ensures forall b :: |b| == 5 && IsSubseq(b, pool) && AllRanked(b) && !Less(HandRank(b), Score(8, [10])) ==>
      forall x :: x in b ==> RankValue(x) in values
  {
    forall b | |b| == 5 && IsSubseq(b, pool) && AllRanked(b) && !Less(HandRank(b), Score(8, [10]))
      ensures forall x :: x in b ==> RankValue(x) in values
    {
      HandRankExplained(b);
      StraightFlushValues(pool, b, HandRank(b));
    }
  }

  lemma StraightFlushForced(pool: seq<Card>, e: seq<Card>)
    requires AllRanked(pool) && multiset(RankValues(pool)) == multiset{6, 7, 8, 9, 10, 5, 11}
    requires forall x :: x in pool && RankValue(x) == 11 ==> x.suit == 'S'
    requires forall x :: x in pool && RankValue(x) == 7 ==> x.suit == 'C'
    requires e == WithRanks(pool, {6, 7, 8, 9, 10}) && |e| == 5
    ensures forall b :: |b| == 5 && IsSubseq(b, pool) && AllRanked(b) && !Less(HandRank(b), Score(8, [10])) ==> b == e
  {
    var values := {6, 7, 8, 9, 10};
    StraightFlushValuesAll(pool, values);
    ForcedByValues(pool, e, values, Score(8, [10]));
  }

  /** `best_hand("6C 7C 8C 9C TC 5C JS")` returns the clubs from six to ten. */
  lemma BestHandStraightFlush()
    ensures AllRanked(StraightFlushPool) && Scorable(Combinations(StraightFlushPool, 5))
    ensures Scan(Combinations(StraightFlushPool, 5)).1 == Some(StraightFlushHand)
  {
    StraightFlushPoolFacts();
    StraightFlushPoolMultiset(RankValues(StraightFlushPool));
    StraightFlushSuits();
    StraightFlushSelection();
    StraightFlushSubseq();
    StraightFlushForced(StraightFlushPool, StraightFlushHand);
    StraightFlushScore(StraightFlushHand, [10, 9, 8, 7, 6]);
    StraightFlushScoreOf();
    BestIsForced(StraightFlushPool, StraightFlushHand, Score(8, [10]));
  }

  // ---------------------------------------------------------------------
  // "TD TC TH 7C 7D 8C 8S": tens full of eights.
  // ---------------------------------------------------------------------

  const FullHousePool: seq<Card> := [Card('T', 'D'), Card('T', 'C'), Card('T', 'H'), Card('7', 'C'), Card('7', 'D'), Card('8', 'C'), Card('8', 'S')]
  const FullHouseHand: seq<Card> := [Card('T', 'D'), Card('T', 'C'), Card('T', 'H'), Card('8', 'C'), Card('8', 'S')]

  lemma FullHousePoolFacts()
    ensures AllRanked(FullHousePool) && RankValues(FullHousePool) == [10, 10, 10, 7, 7, 8, 8]
  {
    assert AllRanked(FullHousePool);
  }

  lemma FullHousePoolMultiset(values: seq<int>)
    requires values == [10, 10, 10, 7, 7, 8, 8]
    ensures multiset(values) == multiset{10, 10, 10, 7, 7, 8, 8}
  {
  }

  lemma FullHouseSelection()
    ensures AllRanked(FullHousePool) && WithRanks(FullHousePool, {10, 8}) == FullHouseHand
  {
    assert AllRanked(FullHousePool);
  }

  lemma FullHouseSubseq()
    ensures IsSubseq(FullHouseHand, FullHousePool)
  {
  }

  lemma FullHouseScore()
    ensures var h := FullHouseHand;
      AllRanked(h) && HandRank(h) == ScoreOf([10, 10, 10, 8, 8], false)
  {
    var h := FullHouseHand;
    assert AllRanked(h);
    assert RankValues(h) == [10, 10, 10, 8, 8];
    assert !Flush(h) by {
      assert h[1].suit != h[0].suit;
    }
    DescendingFive(10, 10, 10, 8, 8);
    ScoreOfHand(h, [10, 10, 10, 8, 8], false);
  }

  lemma FullHouseScoreOf()
    ensures ScoreOf([10, 10, 10, 8, 8], false) == Score(6, [10, 8])
  {
  }

  lemma FullHousePoolRanks(ranks: seq<int>)
    requires |ranks| == 5
    requires forall v :: Count(ranks, v) <= multiset{10, 10, 10, 7, 7, 8, 8}[v]
    ensures forall i :: 0 <= i < 5 ==> ranks[i] in {10, 8, 7}
    ensures Count(ranks, 10) <= 3 && forall v :: v != 10 ==> Count(ranks, v) <= 2
  {
    forall i | 0 <= i < 5 ensures ranks[i] in {10, 8, 7} {
      assert Count(ranks, ranks[i]) >= 1;
    }
  }

  /** Sorted ranks out of `T T T 7 7 8 8` that score tens full of eights or better. */
  lemma FullHouseRanks(ranks: seq<int>, flush: bool, score: Score)
    requires |ranks| == 5 && NonIncreasing(ranks)
    requires forall i :: 0 <= i < 5 ==> ranks[i] in {10, 8, 7}
    requires Count(ranks, 10) <= 3 && forall v :: v != 10 ==> Count(ranks, v) <= 2
    requires Explains(score, ranks, flush) && !Less(score, Score(6, [10, 8]))
    ensures forall v :: v in ranks ==> v == 10 || v == 8
  {
    StraightRun(ranks);
    assert Straight(ranks) ==> ranks[1] == ranks[0] - 1 && ranks[2] == ranks[0] - 2;
    assert score.category == 6;
    var t, p := score.tiebreak[0], score.tiebreak[1];
    assert t == 10;
    assert p in {10, 8, 7} by {
      assert p in multiset(ranks);
    }
    assert score.tiebreak == [t, p];
    assert p < 8 ==> SeqLess([10, p], [10, 8]);
    assert p == 8;
    TwoValuesOnly(ranks, 10, 8);
  }

  lemma FullHouseValues(pool: seq<Card>, b: seq<Card>, score: Score)
    requires AllRanked(pool) && multiset(RankValues(pool)) == multiset{10, 10, 10, 7, 7, 8, 8}
    requires |b| == 5 && IsSubseq(b, pool) && AllRanked(b)
    requires Explains(score, CardRanks(b), Flush(b)) && !Less(score, Score(6, [10, 8]))
    ensures forall x :: x in b ==> RankValue(x) in {10, 8}
  {
    SelectionRanks(b, pool);
    assert forall v :: Count(CardRanks(b), v) <= multiset{10, 10, 10, 7, 7, 8, 8}[v];
    FullHousePoolRanks(CardRanks(b));
    FullHouseRanks(CardRanks(b), Flush(b), score);
    forall x | x in b ensures RankValue(x) in {10, 8} {
      assert RankValue(x) in CardRanks(b);
    }
  }

  lemma FullHouseValuesAll(pool: seq<Card>)
    requires AllRanked(pool) && multiset(RankValues(pool)) == multiset{10, 10, 10, 7, 7, 8, 8}
    ensures forall b :: |b| == 5 && IsSubseq(b, pool) && AllRanked(b) && !Less(HandRank(b), Score(6, [10, 8])) ==>
      forall x :: x in b ==> RankValue(x) in {10, 8}
  {
    forall b | |b| == 5 && IsSubseq(b, pool) && AllRanked(b) && !Less(HandRank(b), Score(6, [10, 8]))
      ensures forall x :: x in b ==> RankValue(x) in {10, 8}
    {
      HandRankExplained(b);
      FullHouseValues(pool, b, HandRank(b));
    }
  }

  lemma FullHouseForced(pool: seq<Card>, e: seq<Card>)
    requires AllRanked(pool) && multiset(RankValues(pool)) == multiset{10, 10, 10, 7, 7, 8, 8}
    requires e == WithRanks(pool, {10, 8}) && |e| == 5
    ensures forall b :: |b| == 5 && IsSubseq(b, pool) && AllRanked(b) && !Less(HandRank(b), Score(6, [10, 8])) ==> b == e
  {
    FullHouseValuesAll(pool);
    ForcedByValues(pool, e, {10, 8}, Score(6, [10, 8]));
  }

  /** `best_hand("TD TC TH 7C 7D 8C 8S")` returns the three tens and the two eights. */
  lemma BestHandFullHouse()
    ensures AllRanked(FullHousePool) && Scorable(Combinations(FullHousePool, 5))
    ensures Scan(Combinations(FullHousePool, 5)).1 == Some(FullHouseHand)
  {
    FullHousePoolFacts();
    FullHousePoolMultiset(RankValues(FullHousePool));
    FullHouseSelection();
    FullHouseSubseq();
    FullHouseForced(FullHousePool, FullHouseHand);
    FullHouseScore();
    FullHouseScoreOf();
    BestIsForced(FullHousePool, FullHouseHand, Score(6, [10, 8]));
  }

  // ---------------------------------------------------------------------
  // "JD TC TH 7C 7D 7S 7H": four sevens with the jack.
  // ---------------------------------------------------------------------

  const QuadsPool: seq<Card> := [Card('J', 'D'), Card('T', 'C'), Card('T', 'H'), Card('7', 'C'), Card('7', 'D'), Card('7', 'S'), Card('7', 'H')]
  const QuadsHand: seq<Card> := [Card('J', 'D'), Card('7', 'C'), Card('7', 'D'), Card('7', 'S'), Card('7', 'H')]

  /** Ranks drawn from the pool's ranks `J T T 7 7 7 7`. */
  lemma QuadsPoolRanks(ranks: seq<int>)
    requires |ranks| == 5
    requires forall v :: Count(ranks, v) <= multiset{11, 10, 10, 7, 7, 7, 7}[v]
    ensures forall i :: 0 <= i < 5 ==> ranks[i] in {11, 10, 7}
    ensures forall v :: v != 7 ==> Count(ranks, v) <= 2
  {
    forall i | 0 <= i < 5 ensures ranks[i] in {11, 10, 7} {
      assert Count(ranks, ranks[i]) >= 1;
    }
  }

  lemma QuadsRanks(ranks: seq<int>, flush: bool, score: Score)
    requires |ranks| == 5 && NonIncreasing(ranks)
    requires forall i :: 0 <= i < 5 ==> ranks[i] in {11, 10, 7}
    requires forall v :: v != 7 ==> Count(ranks, v) <= 2
    requires Explains(score, ranks, flush) && !Less(score, Score(7, [7, 11]))
    ensures forall v :: v in ranks ==> v == 7 || v == 11
  {
    StraightRun(ranks);
    assert Straight(ranks) ==> ranks[1] == ranks[0] - 1 && ranks[2] == ranks[0] - 2;
    assert score.category == 7;
    var q, k := score.tiebreak[0], score.tiebreak[1];
    assert q == 7;
    assert k in {11, 10, 7} by {
      assert k in multiset(ranks);
    }
    assert score.tiebreak == [q, k];
    assert k < 11 ==> SeqLess([7, k], [7, 11]);
    assert k == 11;
    TwoValuesOnly(ranks, 7, 11);
  }

  lemma QuadsValues(pool: seq<Card>, b: seq<Card>, score: Score)
    requires AllRanked(pool) && multiset(RankValues(pool)) == multiset{11, 10, 10, 7, 7, 7, 7}
    requires |b| == 5 && IsSubseq(b, pool) && AllRanked(b)
    requires Explains(score, CardRanks(b), Flush(b)) && !Less(score, Score(7, [7, 11]))
    ensures forall x :: x in b ==> RankValue(x) in {7, 11}
  {
    SelectionRanks(b, pool);
    assert forall v :: Count(CardRanks(b), v) <= multiset{11, 10, 10, 7, 7, 7, 7}[v];
    QuadsPoolRanks(CardRanks(b));
    QuadsRanks(CardRanks(b), Flush(b), score);
    forall x | x in b ensures RankValue(x) in {7, 11} {
      assert RankValue(x) in CardRanks(b);
    }
  }

  lemma QuadsValuesAll(pool: seq<Card>)
    requires AllRanked(pool) && multiset(RankValues(pool)) == multiset{11, 10, 10, 7, 7, 7, 7}
    ensures forall b :: |b| == 5 && IsSubseq(b, pool) && AllRanked(b) && !Less(HandRank(b), Score(7, [7, 11])) ==>
      forall x :: x in b ==> RankValue(x) in {7, 11}
  {
    forall b | |b| == 5 && IsSubseq(b, pool) && AllRanked(b) && !Less(HandRank(b), Score(7, [7, 11]))
      ensures forall x :: x in b ==> RankValue(x) in {7, 11}
    {
      HandRankExplained(b);
      QuadsValues(pool, b, HandRank(b));
    }
  }

  lemma QuadsForced(pool: seq<Card>, e: seq<Card>)
    requires AllRanked(pool) && multiset(RankValues(pool)) == multiset{11, 10, 10, 7, 7, 7, 7}
    requires e == WithRanks(pool, {7, 11}) && |e| == 5
    ensures forall b :: |b| == 5 && IsSubseq(b, pool) && AllRanked(b) && !Less(HandRank(b), Score(7, [7, 11])) ==> b == e
  {
    QuadsValuesAll(pool);
    ForcedByValues(pool, e, {7, 11}, Score(7, [7, 11]));
  }

  lemma QuadsPoolFacts()
    ensures AllRanked(QuadsPool) && RankValues(QuadsPool) == [11, 10, 10, 7, 7, 7, 7]
  {
    assert AllRanked(QuadsPool);
  }

  lemma QuadsPoolMultiset(values: seq<int>)
    requires values == [11, 10, 10, 7, 7, 7, 7]
    ensures multiset(values) == multiset{11, 10, 10, 7, 7, 7, 7}
  {
  }

  lemma QuadsSelection()
    ensures AllRanked(QuadsPool) && WithRanks(QuadsPool, {7, 11}) == QuadsHand
  {
    assert AllRanked(QuadsPool);
  }

  lemma QuadsSubseq()
    ensures IsSubseq(QuadsHand, QuadsPool)
  {
  }

  lemma QuadsScore()
    ensures var h := QuadsHand;
      AllRanked(h) && HandRank(h) == ScoreOf([11, 7, 7, 7, 7], false)
  {
    var h := QuadsHand;
    assert AllRanked(h);
    assert RankValues(h) == [11, 7, 7, 7, 7];
    assert !Flush(h) by {
      assert h[1].suit != h[0].suit;
    }
    DescendingFive(11, 7, 7, 7, 7);
    ScoreOfHand(h, [11, 7, 7, 7, 7], false);
  }

  lemma QuadsScoreOf()
    ensures ScoreOf([11, 7, 7, 7, 7], false) == Score(7, [7, 11])
  {
  }

  /** `best_hand("JD TC TH 7C 7D 7S 7H")` returns the four sevens and the jack. */
  lemma BestHandQuads()
    ensures AllRanked(QuadsPool) && Scorable(Combinations(QuadsPool, 5))
    ensures Scan(Combinations(QuadsPool, 5)).1 == Some(QuadsHand)
  {
    QuadsPoolFacts();
    QuadsPoolMultiset(RankValues(QuadsPool));
    QuadsSelection();
    QuadsSubseq();
    QuadsForced(QuadsPool, QuadsHand);
    QuadsScore();
    QuadsScoreOf();
    BestIsForced(QuadsPool, QuadsHand, Score(7, [7, 11]));
  }
}
