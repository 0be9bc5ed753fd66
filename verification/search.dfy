/**
 * The best-hand search: `itertools.combinations`, the scan `_best_hand` that
 * keeps the first hand whose score beats every score seen before it, and the
 * two entry points `best_hand` and `best_wild_hand`.
 */
module Search {
  import opened Wrappers
  import opened Seqs
  import opened Cards
  import opened Scores
  import opened Ranking
  import opened Jokers

  /**
   * `itertools.combinations(pool, k)`: the k-element selections of `pool`,
   * positions kept in order, in lexicographic order of positions (first
   * every selection that takes `pool[0]`, then every one that skips it).
   * There are C(n, k) of them.
   */
  function Combinations<T>(pool: seq<T>, k: nat): (r: seq<seq<T>>)
    ensures |r| == Choose(|pool|, k)
    decreases |pool|
  {
    if k == 0 then [[]]
    else if pool == [] then []
    else
      ChoosePascal(|pool|, k);
      Prepend(pool[0], Combinations(pool[1..], k - 1)) + Combinations(pool[1..], k)
  }

  /** `x` put in front of each sequence of `cs`, in order. */
  function Prepend<T>(x: T, cs: seq<seq<T>>): (r: seq<seq<T>>)
    ensures |r| == |cs|
  {
    seq(|cs|, i requires 0 <= i < |cs| => [x] + cs[i])
  }

  lemma PrependMembers<T>(x: T, cs: seq<seq<T>>, c: seq<T>)
    ensures c in Prepend(x, cs) <==> c != [] && c[0] == x && c[1..] in cs
  {
    var r := Prepend(x, cs);
    if c in r {
      var i :| 0 <= i < |r| && r[i] == c;
      assert c[1..] == cs[i];
    }
    if c != [] && c[0] == x && c[1..] in cs {
      var i :| 0 <= i < |cs| && cs[i] == c[1..];
      assert r[i] == c;
    }
  }

  /** `c` is `pool` with some positions deleted and the rest kept in order. */
  predicate IsSubseq<T(==)>(c: seq<T>, pool: seq<T>)
    decreases |pool|
  {
    if c == [] then true
    else if pool == [] then false
    else (c[0] == pool[0] && IsSubseq(c[1..], pool[1..])) || IsSubseq(c, pool[1..])
  }

  /** The binomial coefficient: 1 on the edges of Pascal's triangle, 0 outside it, Pascal's rule inside. */
  function Choose(n: nat, k: nat): nat
  {
    if k == 0 || k == n then 1
    else if n < k then 0
    else Choose(n - 1, k - 1) + Choose(n - 1, k)
  }

  /** Pascal's rule holds on the edges and outside the triangle too. */
  lemma ChoosePascal(n: nat, k: nat)
    requires 0 < n && 0 < k
    ensures Choose(n, k) == Choose(n - 1, k - 1) + Choose(n - 1, k)
  {
  }

  /** Every selection is an order-keeping k-element subsequence of the pool. */
  lemma {:induction false} CombinationsAreSubseqs<T>(pool: seq<T>, k: nat, c: seq<T>)
    requires c in Combinations(pool, k)
    ensures |c| == k && IsSubseq(c, pool)
    decreases |pool|
  {
    if k != 0 && pool != [] {
      var taking := Combinations(pool[1..], k - 1);
      PrependMembers(pool[0], taking, c);
      if c in Prepend(pool[0], taking) {
        CombinationsAreSubseqs(pool[1..], k - 1, c[1..]);
      } else {
        CombinationsAreSubseqs(pool[1..], k, c);
      }
    }
  }

  /** Every order-keeping k-element subsequence of the pool is a selection. */
  lemma {:induction false} SubseqsAreCombinations<T>(pool: seq<T>, k: nat, c: seq<T>)
    requires |c| == k && IsSubseq(c, pool)
    ensures c in Combinations(pool, k)
    decreases |pool|
  {
    if k != 0 {
      var taking := Combinations(pool[1..], k - 1);
      if c[0] == pool[0] && IsSubseq(c[1..], pool[1..]) {
        SubseqsAreCombinations(pool[1..], k - 1, c[1..]);
        PrependMembers(pool[0], taking, c);
      } else {
        SubseqsAreCombinations(pool[1..], k, c);
      }
    }
  }

  /** The selections are exactly the order-keeping k-element subsequences of the pool. */
  lemma CombinationsExactly<T>(pool: seq<T>, k: nat)
    ensures forall c :: c in Combinations(pool, k) <==> |c| == k && IsSubseq(c, pool)
  {
    forall c | c in Combinations(pool, k) ensures |c| == k && IsSubseq(c, pool) {
      CombinationsAreSubseqs(pool, k, c);
    }
    forall c | |c| == k && IsSubseq(c, pool) ensures c in Combinations(pool, k) {
      SubseqsAreCombinations(pool, k, c);
    }
  }

  /** Seven cards give C(7, 5) = 21 five-card hands. */
  lemma SevenChooseFive()
    ensures Choose(7, 5) == 21
  {
  }

  /** There is some selection exactly when the pool has at least k elements. */
  lemma {:induction false} CombinationsNonEmpty<T>(pool: seq<T>, k: nat)
    ensures Combinations(pool, k) != [] <==> k <= |pool|
    decreases |pool|
  {
    if k != 0 && pool != [] {
      CombinationsNonEmpty(pool[1..], k - 1);
      CombinationsNonEmpty(pool[1..], k);
    }
  }

  /** A subsequence takes each element at most as often as the pool holds it. */
  lemma {:induction false} SubseqMultiset<T>(c: seq<T>, pool: seq<T>)
    requires IsSubseq(c, pool)
    ensures multiset(c) <= multiset(pool) && |c| <= |pool|
    decreases |pool|
  {
    if c != [] {
      assert pool == [pool[0]] + pool[1..];
      if c[0] == pool[0] && IsSubseq(c[1..], pool[1..]) {
        SubseqMultiset(c[1..], pool[1..]);
        assert c == [c[0]] + c[1..];
      } else {
        SubseqMultiset(c, pool[1..]);
      }
    }
  }

  /** Every element of a subsequence is an element of the pool. */
  lemma SubseqMembers<T>(c: seq<T>, pool: seq<T>)
    requires IsSubseq(c, pool)
    ensures forall x :: x in c ==> x in pool
  {
    SubseqMultiset(c, pool);
    forall x | x in c ensures x in pool {
      assert x in multiset(c);
    }
  }

  /** Every hand in the list can be scored by `hand_rank`. */
  predicate Scorable(hands: seq<seq<Card>>)
  {
    forall i :: 0 <= i < |hands| ==> |hands[i]| == 5 && AllRanked(hands[i])
  }

  /**
   * The loop of `_best_hand` over any list and any scoring: it starts at
   * `(0,)` and no item, and an item replaces the best so far only when its
   * score is strictly greater.  Returns the best score and the best item.
   */
  function ScanBy<T>(items: seq<T>, score: T -> Score): (r: (Score, Option<T>))
    ensures r.1.Some? ==> r.1.value in items && r.0 == score(r.1.value)
    ensures r.1.None? ==> r.0 == Sentinel
    decreases |items|
  {
    if items == [] then (Sentinel, None)
    else
      var sofar := ScanBy(items[..|items| - 1], score);
      var x := items[|items| - 1];
      if Less(sofar.0, score(x)) then (score(x), Some(x)) else sofar
  }

  /** `items[k]` scores at least as high as every item, and strictly higher than every item before it. */
  predicate IsFirstBest<T>(items: seq<T>, score: T -> Score, k: int)
  {
    && 0 <= k < |items|
    && (forall j :: 0 <= j < |items| ==> !Less(score(items[k]), score(items[j])))
    && (forall j :: 0 <= j < k ==> Less(score(items[j]), score(items[k])))
  }

  /** A new last item that beats the first best of the earlier items is the first best of all. */
  lemma FirstBestNew<T>(items: seq<T>, score: T -> Score, k: int)
    requires |items| > 1 && IsFirstBest(items[..|items| - 1], score, k)
    requires Less(score(items[k]), score(items[|items| - 1]))
    ensures IsFirstBest(items, score, |items| - 1)
  {
    var n := |items|;
    var top := score(items[n - 1]);
    LessIsStrictTotalOrder();
    forall j | 0 <= j < n - 1 ensures Less(score(items[j]), top) {
      assert items[..n - 1][j] == items[j];
    }
  }

  /** A new last item that does not beat the first best of the earlier items leaves it first best. */
  lemma FirstBestOld<T>(items: seq<T>, score: T -> Score, k: int)
    requires |items| > 1 && IsFirstBest(items[..|items| - 1], score, k)
    requires !Less(score(items[k]), score(items[|items| - 1]))
    ensures IsFirstBest(items, score, k)
  {
    var n := |items|;
    forall j | 0 <= j < n - 1 ensures items[..n - 1][j] == items[j] {
    }
  }

  /**
   * The scan finds an item exactly when there is one, and the item it finds
   * is the first item of the greatest score, returned with that score --
   * provided every score carries tie-break items, so that each beats `(0,)`.
   */
  lemma {:induction false} ScanFindsFirstBest<T>(items: seq<T>, score: T -> Score)
    requires forall i :: 0 <= i < |items| ==> score(items[i]).tiebreak != []
    ensures ScanBy(items, score).1.None? <==> items == []
    ensures items != [] ==> exists k :: IsFirstBest(items, score, k) && ScanBy(items, score) == (score(items[k]), Some(items[k]))
    decreases |items|
  {
    if items != [] {
      var n := |items|;
      var init := items[..n - 1];
      if init == [] {
        SentinelIsLeast(score(items[0]));
        LessIsStrictTotalOrder();
        assert IsFirstBest(items, score, 0);
      } else {
        assert forall i :: 0 <= i < |init| ==> init[i] == items[i];
        ScanFindsFirstBest(init, score);
        var k :| IsFirstBest(init, score, k) && ScanBy(init, score) == (score(init[k]), Some(init[k]));
        assert init[k] == items[k];
        if Less(score(items[k]), score(items[n - 1])) {
          FirstBestNew(items, score, k);
        } else {
          FirstBestOld(items, score, k);
        }
      }
    }
  }

  /** At most one position is the first best one. */
  lemma FirstBestUnique<T>(items: seq<T>, score: T -> Score, k1: int, k2: int)
    requires IsFirstBest(items, score, k1) && IsFirstBest(items, score, k2)
    ensures k1 == k2
  {
    var s1, s2 := score(items[k1]), score(items[k2]);
    assert k1 < k2 ==> Less(s1, s2);
    assert k2 < k1 ==> Less(s2, s1);
  }

  /** `hand_rank` where it is defined (five cards of known rank); `(0,)` elsewhere, which the search never meets. */
  function HandScore(hand: seq<Card>): Score
  {
    if |hand| == 5 && AllRanked(hand) then HandRank(hand) else Sentinel
  }

  /** What `_best_hand(hands)` computes: its best score and best hand. */
  function Scan(hands: seq<seq<Card>>): (r: (Score, Option<seq<Card>>))
    requires Scorable(hands)
    ensures r.1.Some? ==> r.1.value in hands && r.0 == HandRank(r.1.value)
  {
    ScanBy(hands, HandScore)
  }

  /** `_best_hand`: one pass over the hands, keeping the best score and hand seen so far. */
  method BestOf(hands: seq<seq<Card>>) returns (best: Option<seq<Card>>)
    requires Scorable(hands)
    ensures best == Scan(hands).1
  {
    var bestScore := Sentinel;
    best := None;
    for i := 0 to |hands|
      invariant (bestScore, best) == ScanBy(hands[..i], HandScore)
    {
      var score := HandRank(hands[i]);
      assert hands[..i + 1][..i] == hands[..i];
      assert HandScore(hands[i]) == score;
      if Less(bestScore, score) {
        bestScore := score;
        best := Some(hands[i]);
      }
    }
    assert hands[..|hands|] == hands;
  }

  /** The five-card selections of a pool of ranked cards can all be scored. */
  lemma CombinationsScorable(pool: seq<Card>)
    requires AllRanked(pool)
    ensures Scorable(Combinations(pool, 5))
  {
    var cs := Combinations(pool, 5);
    CombinationsExactly(pool, 5);
    forall i | 0 <= i < |cs| ensures |cs[i]| == 5 && AllRanked(cs[i]) {
      assert cs[i] in cs;
      SubseqMembers(cs[i], pool);
    }
  }

  /**
   * What the search over a list of candidates promises: it finds a hand
   * exactly when there is a candidate, the hand is a candidate, and no
   * candidate scores higher.
   */
  lemma ScanIsBest(hands: seq<seq<Card>>)
    requires Scorable(hands)
    ensures Scan(hands).1.Some? <==> hands != []
    ensures Scan(hands).1.Some? ==> Scan(hands).1.value in hands
    ensures Scan(hands).1.Some? ==> forall c :: c in hands ==> !Less(HandRank(Scan(hands).1.value), HandRank(c))
  {
    forall i | 0 <= i < |hands| ensures HandScore(hands[i]) == HandRank(hands[i]) && HandScore(hands[i]).tiebreak != [] {
    }
    ScanFindsFirstBest(hands, HandScore);
    if hands != [] {
      var k :| IsFirstBest(hands, HandScore, k) && Scan(hands) == (HandScore(hands[k]), Some(hands[k]));
      forall c | c in hands ensures !Less(HandRank(hands[k]), HandRank(c)) {
        var j :| 0 <= j < |hands| && hands[j] == c;
        assert !Less(HandScore(hands[k]), HandScore(hands[j]));
      }
    }
  }

  /** The selections of a ranked pool hold ranked cards only. */
  lemma SubseqRanked(c: seq<Card>, pool: seq<Card>)
    requires AllRanked(pool) && IsSubseq(c, pool)
    ensures AllRanked(c)
  {
    SubseqMembers(c, pool);
  }

  /**
   * What `best_hand` promises of a pool of ranked cards: a hand exactly when
   * the pool holds five cards or more; that hand is five of the pool's cards,
   * and no five of the pool's cards score higher.
   */
  lemma BestSelection(pool: seq<Card>)
    requires AllRanked(pool)
    ensures Scorable(Combinations(pool, 5))
    ensures var best := Scan(Combinations(pool, 5)).1;
      && (best.Some? <==> |pool| >= 5)
      && (best.Some? ==> |best.value| == 5 && IsSubseq(best.value, pool) && AllRanked(best.value))
      && (best.Some? ==> forall c :: |c| == 5 && IsSubseq(c, pool) ==>
            AllRanked(c) && !Less(HandRank(best.value), HandRank(c)))
  {
    var hands := Combinations(pool, 5);
    CombinationsScorable(pool);
    CombinationsExactly(pool, 5);
    CombinationsNonEmpty(pool, 5);
    ScanIsBest(hands);
    forall c | |c| == 5 && IsSubseq(c, pool) ensures AllRanked(c) {
      SubseqRanked(c, pool);
    }
  }

  /** `best_hand`: search the five-card selections of the pool in `itertools` order. */
  method BestHand(pool: seq<Card>) returns (best: Option<seq<Card>>)
    requires AllRanked(pool)
    ensures Scorable(Combinations(pool, 5)) && best == Scan(Combinations(pool, 5)).1
  {
    var hands := Combinations(pool, 5);
    CombinationsScorable(pool);
    best := BestOf(hands);
  }

  /** The candidates `best_wild_hand` collects: the five-card selections of each pool in turn. */
  function WildCandidates(pools: seq<seq<Card>>): (r: seq<seq<Card>>)
    ensures forall c :: c in r ==> |c| == 5
    decreases |pools|
  {
    if pools == [] then []
    else
      CombinationsExactly(pools[|pools| - 1], 5);
      WildCandidates(pools[..|pools| - 1]) + Combinations(pools[|pools| - 1], 5)
  }

  lemma {:induction false} WildCandidatesMembers(pools: seq<seq<Card>>)
    ensures forall c :: c in WildCandidates(pools) <==> exists p :: p in pools && c in Combinations(p, 5)
    decreases |pools|
  {
    if pools != [] {
      var init, last := pools[..|pools| - 1], pools[|pools| - 1];
      WildCandidatesMembers(init);
      assert pools == init + [last];
      forall c | c in WildCandidates(pools) ensures exists p :: p in pools && c in Combinations(p, 5) {
        if c !in WildCandidates(init) {
          assert last in pools && c in Combinations(last, 5);
        } else {
          var p :| p in init && c in Combinations(p, 5);
          assert p in pools;
        }
      }
      forall c | exists p :: p in pools && c in Combinations(p, 5) ensures c in WildCandidates(pools) {
        var p :| p in pools && c in Combinations(p, 5);
        if p != last {
          assert p in init;
        }
      }
    }
  }

  /**
   * What `best_wild_hand` needs of its hand: each joker at most once, every
   * other card of a known rank, and few enough cards that a joker always
   * finds a free replacement.
   */
  predicate WildHand(hand: seq<Card>)
  {
    && Count(hand, BlackJoker) <= 1 && Count(hand, RedJoker) <= 1
    && |hand| <= 26
    && forall c :: c in hand && c != BlackJoker && c != RedJoker ==> HasRank(c)
  }

  /** A candidate of `best_wild_hand` is exactly a five-card selection of some resolution of the hand. */
  lemma WildCandidatesAreSelections(hand: seq<Card>)
    requires |hand| <= 26
    ensures forall c :: c in WildCandidates(JokerFreePools(hand)) <==>
      |c| == 5 && exists p :: IsResolution(hand, p) && IsSubseq(c, p)
  {
    var pools := JokerFreePools(hand);
    WildCandidatesMembers(pools);
    JokerFreePoolsAreResolutions(hand);
    forall c | c in WildCandidates(pools) ensures |c| == 5 && exists p :: IsResolution(hand, p) && IsSubseq(c, p) {
      var p :| p in pools && c in Combinations(p, 5);
      CombinationsExactly(p, 5);
    }
    forall c | |c| == 5 && (exists p :: IsResolution(hand, p) && IsSubseq(c, p))
      ensures c in WildCandidates(pools)
    {
      var p :| IsResolution(hand, p) && IsSubseq(c, p);
      CombinationsExactly(p, 5);
      assert p in pools;
    }
  }

  /** The cards of a selection of a resolution are ranked: no joker survives into a scored hand. */
  lemma ResolutionSelectionRanked(hand: seq<Card>, p: seq<Card>, c: seq<Card>)
    requires WildHand(hand) && IsResolution(hand, p) && IsSubseq(c, p)
    ensures AllRanked(c)
  {
    ResolutionShape(hand, p);
    SubseqRanked(c, p);
  }

  /** Every candidate of a wild hand can be scored. */
  lemma WildScorable(hand: seq<Card>)
    requires WildHand(hand)
    ensures Scorable(WildCandidates(JokerFreePools(hand)))
  {
    var cs := WildCandidates(JokerFreePools(hand));
    WildCandidatesAreSelections(hand);
    forall i | 0 <= i < |cs| ensures |cs[i]| == 5 && AllRanked(cs[i]) {
      assert cs[i] in cs;
      var p :| IsResolution(hand, p) && IsSubseq(cs[i], p);
      ResolutionSelectionRanked(hand, p, cs[i]);
    }
  }

  /** Every hand has a resolution; it has the hand's size. */
  lemma SomeResolution(hand: seq<Card>)
    requires WildHand(hand)
    ensures exists p :: IsResolution(hand, p) && |p| == |hand|
  {
    JokerFreePoolsAreResolutions(hand);
    var p := JokerFreePools(hand)[0];
    assert p in JokerFreePools(hand);
    ResolutionShape(hand, p);
  }

  /** A hand of five cards or more leaves some selection of five among the wild candidates. */
  lemma WildCandidateExists(hand: seq<Card>)
    requires WildHand(hand) && |hand| >= 5
    ensures WildCandidates(JokerFreePools(hand)) != []
  {
    SomeResolution(hand);
    var p :| IsResolution(hand, p) && |p| == |hand|;
    CombinationsNonEmpty(p, 5);
    var c := Combinations(p, 5)[0];
    CombinationsAreSubseqs(p, 5, c);
    WildCandidatesAreSelections(hand);
    assert c in WildCandidates(JokerFreePools(hand));
  }

  /** A wild candidate is five cards out of a resolution, which has the hand's size. */
  lemma WildCandidateNeedsFive(hand: seq<Card>, c: seq<Card>)
    requires WildHand(hand) && c in WildCandidates(JokerFreePools(hand))
    ensures |hand| >= 5
  {
    WildCandidatesAreSelections(hand);
    var p :| IsResolution(hand, p) && IsSubseq(c, p);
    ResolutionShape(hand, p);
    SubseqMultiset(c, p);
  }

  /** The wild search has a candidate exactly when the hand holds five cards or more. */
  lemma WildCandidatesNonEmpty(hand: seq<Card>)
    requires WildHand(hand)
    ensures WildCandidates(JokerFreePools(hand)) != [] <==> |hand| >= 5
  {
    var hands := WildCandidates(JokerFreePools(hand));
    if |hand| >= 5 {
      WildCandidateExists(hand);
    }
    if hands != [] {
      WildCandidateNeedsFive(hand, hands[0]);
    }
  }

  /**
   * What `best_wild_hand` promises: a hand exactly when the hand holds five
   * cards or more; that hand is five cards of some way of replacing the
   * jokers, and no five cards of any way of replacing them score higher.
   */
  lemma BestWildSelection(hand: seq<Card>)
    requires WildHand(hand)
    ensures Scorable(WildCandidates(JokerFreePools(hand)))
    ensures var best := Scan(WildCandidates(JokerFreePools(hand))).1;
      && (best.Some? <==> |hand| >= 5)
      && (best.Some? ==> |best.value| == 5 && AllRanked(best.value) && exists p :: IsResolution(hand, p) && IsSubseq(best.value, p))
      && (best.Some? ==> forall p, c :: IsResolution(hand, p) && |c| == 5 && IsSubseq(c, p) ==>
            AllRanked(c) && !Less(HandRank(best.value), HandRank(c)))
  {
    var hands := WildCandidates(JokerFreePools(hand));
    WildScorable(hand);
    WildCandidatesNonEmpty(hand);
    WildCandidatesAreSelections(hand);
    ScanIsBest(hands);
    forall p, c | IsResolution(hand, p) && |c| == 5 && IsSubseq(c, p) ensures AllRanked(c) && c in hands {
      ResolutionSelectionRanked(hand, p, c);
    }
  }

  /** `best_wild_hand`: collect the five-card selections of every joker-free version of the hand, then search them. */
  method BestWildHand(hand: seq<Card>) returns (best: Option<seq<Card>>)
    requires WildHand(hand)
    ensures Scorable(WildCandidates(JokerFreePools(hand))) && best == Scan(WildCandidates(JokerFreePools(hand))).1
  {
    var pools := GetCombinationsWithoutJoker(hand);
    var hands := [];
    for i := 0 to |pools|
      invariant hands == WildCandidates(pools[..i])
    {
      assert pools[..i + 1][..i] == pools[..i];
      hands := hands + Combinations(pools[i], 5);
    }
    assert pools[..|pools|] == pools;
    WildScorable(hand);
    best := BestOf(hands);
  }

  /** Without jokers there is one pool, the hand itself, so `best_wild_hand` searches what `best_hand` searches. */
  lemma WildWithoutJokers(hand: seq<Card>)
    requires BlackJoker !in hand && RedJoker !in hand
    ensures JokerFreePools(hand) == [hand]
    ensures WildCandidates(JokerFreePools(hand)) == Combinations(hand, 5)
  {
    assert ReplacedHands(BlackJoker, "SC", hand) == [hand];
    assert ResolveRed([hand]) == ReplacedHands(RedJoker, "HD", hand) + ResolveRed([]);
    assert WildCandidates([hand]) == WildCandidates([]) + Combinations(hand, 5);
  }
}
