/**
 * Reasoning shared by the self-test scenarios: which five cards of a pool
 * can reach a given score, and why the search then returns exactly them.
 */
module Forcing {
  import opened Wrappers
  import opened Seqs
  import opened Cards
  import opened Scores
  import opened Ranking
  import opened Jokers
  import opened Search

  /** The cards of `pool` whose rank value is one of `values`, in pool order. */
  function WithRanks(pool: seq<Card>, values: set<int>): seq<Card>
    requires AllRanked(pool)
  {
    if pool == [] then []
    else (if RankValue(pool[0]) in values then [pool[0]] else []) + WithRanks(pool[1..], values)
  }

  /** A subsequence whose ranks all lie in `values` is a subsequence of the cards with those ranks. */
  lemma {:induction false} SubseqWithRanks(c: seq<Card>, pool: seq<Card>, values: set<int>)
    requires AllRanked(pool) && AllRanked(c) && IsSubseq(c, pool)
    requires forall x :: x in c ==> RankValue(x) in values
    ensures IsSubseq(c, WithRanks(pool, values))
    decreases |pool|
  {
    if c != [] {
      var rest := WithRanks(pool[1..], values);
      if c[0] == pool[0] && IsSubseq(c[1..], pool[1..]) {
        SubseqWithRanks(c[1..], pool[1..], values);
        assert WithRanks(pool, values) == [pool[0]] + rest;
      } else {
        SubseqWithRanks(c, pool[1..], values);
        if RankValue(pool[0]) in values {
          assert WithRanks(pool, values)[1..] == rest;
        } else {
          assert WithRanks(pool, values) == rest;
        }
      }
    }
  }

  /** A subsequence as long as the whole is the whole. */
  lemma {:induction false} SubseqSameLength<T>(c: seq<T>, pool: seq<T>)
    requires IsSubseq(c, pool) && |c| == |pool|
    ensures c == pool
    decreases |pool|
  {
    if c != [] {
      if c[0] == pool[0] && IsSubseq(c[1..], pool[1..]) {
        SubseqSameLength(c[1..], pool[1..]);
        assert c == [c[0]] + c[1..] && pool == [pool[0]] + pool[1..];
      } else {
        SubseqMultiset(c, pool[1..]);
        assert false;
      }
    }
  }

  lemma {:induction false} RankValuesSubseq(c: seq<Card>, pool: seq<Card>)
    requires AllRanked(pool) && IsSubseq(c, pool)
    ensures AllRanked(c) && IsSubseq(RankValues(c), RankValues(pool))
    decreases |pool|
  {
    SubseqRanked(c, pool);
    if c != [] {
      assert RankValues(pool) == [RankValue(pool[0])] + RankValues(pool[1..]);
      assert RankValues(c) == [RankValue(c[0])] + RankValues(c[1..]);
      if c[0] == pool[0] && IsSubseq(c[1..], pool[1..]) {
        RankValuesSubseq(c[1..], pool[1..]);
      } else {
        RankValuesSubseq(c, pool[1..]);
      }
    }
  }

  /** The ranks of a selection: drawn from the pool's ranks, each carried by one of the selected cards. */
  lemma SelectionRanks(b: seq<Card>, pool: seq<Card>)
    requires AllRanked(pool) && IsSubseq(b, pool)
    ensures AllRanked(b)
    ensures forall v :: Count(CardRanks(b), v) <= Count(RankValues(pool), v)
    ensures forall v :: v in CardRanks(b) ==> v in RankValues(pool)
    ensures forall x :: x in b ==> RankValue(x) in CardRanks(b)
    ensures forall v :: v in CardRanks(b) ==> exists x :: x in b && RankValue(x) == v
  {
    RankValuesSubseq(b, pool);
    SubseqMultiset(RankValues(b), RankValues(pool));
    var ranks, values := CardRanks(b), RankValues(b);
    forall v | v in ranks ensures v in RankValues(pool) {
      assert v in multiset(ranks);
    }
    forall x | x in b ensures RankValue(x) in ranks {
      var i :| 0 <= i < |b| && b[i] == x;
      assert values[i] == RankValue(x);
      assert RankValue(x) in multiset(values);
    }
    forall v | v in ranks ensures exists x :: x in b && RankValue(x) == v {
      assert v in multiset(values);
      var i :| 0 <= i < |values| && values[i] == v;
      assert b[i] in b;
    }
  }

  /** A list of length `x`-count plus `y`-count holds nothing but `x` and `y`. */
  lemma {:induction false} TwoValuesOnly(s: seq<int>, x: int, y: int)
    requires x != y && Count(s, x) + Count(s, y) == |s|
    ensures forall v :: v in s ==> v == x || v == y
  {
    if s != [] {
      assert s == [s[0]] + s[1..];
      CountsOfTwoValues(s[1..], x, y);
      TwoValuesOnly(s[1..], x, y);
    }
  }

  /** Sorted straight ranks count down by one from the first. */
  lemma StraightRun(ranks: seq<int>)
    requires |ranks| == 5 && NonIncreasing(ranks)
    ensures Straight(ranks) ==> forall i :: 0 <= i < 5 ==> ranks[i] == ranks[0] - i
  {
    if Straight(ranks) {
      assert ranks[0] > ranks[1] > ranks[2] > ranks[3] > ranks[4];
    }
  }

  /** Five values listed largest first form a descending sequence. */
  lemma DescendingFive(a: int, b: int, c: int, d: int, e: int)
    requires a >= b >= c >= d >= e
    ensures NonIncreasing([a, b, c, d, e])
  {
  }

  /** The score of a five-card hand from its rank values, sorted by hand, and whether it is a flush. */
  lemma ScoreOfHand(h: seq<Card>, ranks: seq<int>, flush: bool)
    requires |h| == 5 && AllRanked(h)
    requires NonIncreasing(ranks) && multiset(RankValues(h)) == multiset(ranks)
    requires Flush(h) == flush
    ensures HandRank(h) == ScoreOf(ranks, flush)
  {
    DescendingUnique(CardRanks(h), ranks);
  }


  /** A selection whose ranks all lie in `values`, as many as the pool's cards with those ranks, is those cards. */
  lemma OnlyCardsWithRanks(c: seq<Card>, pool: seq<Card>, values: set<int>)
    requires AllRanked(pool) && IsSubseq(c, pool) && AllRanked(c)
    requires forall x :: x in c ==> RankValue(x) in values
    requires |WithRanks(pool, values)| == |c|
    ensures c == WithRanks(pool, values)
  {
    SubseqWithRanks(c, pool, values);
    SubseqSameLength(c, WithRanks(pool, values));
  }

  /**
   * When `e` is a selection of the pool scoring `s`, and every selection
   * scoring at least `s` is `e`, the search returns `e`.
   */
  lemma BestIsForced(pool: seq<Card>, e: seq<Card>, s: Score)
    requires AllRanked(pool) && |e| == 5 && IsSubseq(e, pool) && AllRanked(e) && HandRank(e) == s
    requires forall b :: |b| == 5 && IsSubseq(b, pool) && AllRanked(b) && !Less(HandRank(b), s) ==> b == e
    ensures Scorable(Combinations(pool, 5)) && Scan(Combinations(pool, 5)).1 == Some(e)
  {
    SubseqMultiset(e, pool);
    BestSelection(pool);
  }

  /** What a score says about the sorted ranks and the flush flag, for the categories from six up. */
  predicate Explains(score: Score, ranks: seq<int>, flush: bool)
    requires |ranks| == 5
  {
    && score.category <= 8
    && (score.category == 8 ==> Straight(ranks) && flush && score.tiebreak == [ranks[0]])
    && (score.category == 7 ==> |score.tiebreak| == 2 && Count(ranks, score.tiebreak[0]) == 4 && Count(ranks, score.tiebreak[1]) == 1)
    && (score.category == 6 ==> |score.tiebreak| == 2 && Count(ranks, score.tiebreak[0]) == 3 && Count(ranks, score.tiebreak[1]) == 2)
  }

  lemma HandRankExplained(b: seq<Card>)
    requires |b| == 5 && AllRanked(b)
    ensures Explains(HandRank(b), CardRanks(b), Flush(b))
  {
    var score, ranks, flush := HandRank(b), CardRanks(b), Flush(b);
    HandRankTiebreaks(b);
    HandRankCategory(b);
    assert Qualifies(ranks, flush, score.category);
    assert score.category == 8 ==> Straight(ranks) && flush;
  }

  /** The sorted ranks of a selection, drawn from a pool whose rank values make up `m`, lie in `m`. */
  lemma SelectionCounts(b: seq<Card>, pool: seq<Card>, m: multiset<int>)
    requires AllRanked(pool) && IsSubseq(b, pool) && multiset(RankValues(pool)) == m
    ensures AllRanked(b)
    ensures forall v :: Count(CardRanks(b), v) <= m[v]
    ensures forall i :: 0 <= i < |CardRanks(b)| ==> CardRanks(b)[i] in m
  {
    SelectionRanks(b, pool);
    RanksInPool(CardRanks(b), m);
  }

  /** When the sorted ranks of a hand lie between `lo` and `hi`, so does the value of each of its cards. */
  lemma CardsInRange(b: seq<Card>, lo: int, hi: int)
    requires AllRanked(b) && forall v :: v in CardRanks(b) ==> lo <= v <= hi
    ensures forall x :: x in b ==> lo <= RankValue(x) <= hi
  {
    forall x | x in b ensures lo <= RankValue(x) <= hi {
      var i :| 0 <= i < |b| && b[i] == x;
      assert RankValues(b)[i] == RankValue(x);
      assert RankValue(x) in multiset(RankValues(b));
      assert RankValue(x) in multiset(CardRanks(b));
      assert RankValue(x) in CardRanks(b);
    }
  }

  /** Every value of a list drawn from the multiset `m` lies in `m`. */
  lemma RanksInPool(ranks: seq<int>, m: multiset<int>)
    requires forall v :: Count(ranks, v) <= m[v]
    ensures forall i :: 0 <= i < |ranks| ==> ranks[i] in m
  {
    forall i | 0 <= i < |ranks| ensures ranks[i] in m {
      assert Count(ranks, ranks[i]) >= 1;
    }
  }

  /**
   * A flush drawn from a pool whose cards of value `v1` all have suit `s1`
   * and whose cards of value `v2` all have another suit `s2` cannot hold both values.
   */
  lemma FlushClash(b: seq<Card>, pool: seq<Card>, v1: int, s1: char, v2: int, s2: char)
    requires AllRanked(pool) && IsSubseq(b, pool) && AllRanked(b) && Flush(b) && s1 != s2
    requires forall x :: x in pool && RankValue(x) == v1 ==> x.suit == s1
    requires forall x :: x in pool && RankValue(x) == v2 ==> x.suit == s2
    ensures !(v1 in CardRanks(b) && v2 in CardRanks(b))
  {
    SelectionRanks(b, pool);
    SubseqMembers(b, pool);
  }

  /**
   * When every selection of the pool scoring at least `s` draws only on the
   * values in `values`, and the pool holds exactly five such cards, those
   * five are the only selection scoring at least `s`.
   */
  lemma ForcedByValues(pool: seq<Card>, e: seq<Card>, values: set<int>, s: Score)
    requires AllRanked(pool) && e == WithRanks(pool, values) && |e| == 5
    requires forall b :: |b| == 5 && IsSubseq(b, pool) && AllRanked(b) && !Less(HandRank(b), s) ==>
      forall x :: x in b ==> RankValue(x) in values
    ensures forall b :: |b| == 5 && IsSubseq(b, pool) && AllRanked(b) && !Less(HandRank(b), s) ==> b == e
  {
    forall b | |b| == 5 && IsSubseq(b, pool) && AllRanked(b) && !Less(HandRank(b), s)
      ensures b == e
    {
      OnlyCardsWithRanks(b, pool, values);
    }
  }
}
