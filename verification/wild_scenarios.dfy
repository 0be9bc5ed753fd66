/**
 * The three hands of the module's self-test `test_best_wild_hand`: for each
 * seven cards, jokers included, the five that `best_wild_hand` returns.
 */
module WildScenarios {
  import opened Wrappers
  import opened Seqs
  import opened Cards
  import opened Scores
  import opened Ranking
  import opened Jokers
  import opened Search
  import opened Forcing
  import opened Scenarios

  /** Removing the first `x` from `s + t` when `s` has none removes it from `t`. */
  lemma {:induction false} RemoveFirstAfter<T>(s: seq<T>, t: seq<T>, x: T)
    requires x !in s && x in t
    ensures RemoveFirst(s + t, x) == s + RemoveFirst(t, x)
    decreases |s|
  {
    if s != [] {
      assert s[0] in s && (s + t)[0] == s[0];
      assert (s + t)[1..] == s[1..] + t;
      RemoveFirstAfter(s[1..], t, x);
      assert s + RemoveFirst(t, x) == [s[0]] + (s[1..] + RemoveFirst(t, x));
    } else {
      assert s + t == t && s + RemoveFirst(t, x) == RemoveFirst(t, x);
    }
  }

  /** A replacement candidate is a ranked card, so neither joker. */
  lemma CandidateIsNotJoker(suits: seq<char>, c: Card)
    requires c in GetCards(suits)
    ensures c != BlackJoker && c != RedJoker
  {
    CardsHaveRankAndSuit(suits, c);
    JokersUnranked();
  }

  /** Replacing a joker that only the last card is. */
  lemma ReplaceLastJoker(rest: seq<Card>, joker: Card, c: Card)
    requires joker !in rest
    ensures ReplaceIfPresent(rest + [joker], joker, c) == rest + [c]
  {
    RemoveFirstAfter(rest, [joker], joker);
  }

  /** Replacing a joker that only the last card but one is. */
  lemma ReplaceJokerBeforeLast(rest: seq<Card>, joker: Card, x: Card, c: Card)
    requires joker !in rest
    ensures ReplaceIfPresent(rest + [joker, x], joker, c) == rest + [x, c]
  {
    RemoveFirstAfter(rest, [joker, x], joker);
    assert RemoveFirst([joker, x], joker) == [x];
  }

  /** A black card for the black joker at the end of a hand that holds no other joker. */
  lemma BlackLastResolves(rest: seq<Card>, c: Card)
    requires BlackJoker !in rest && RedJoker !in rest
    requires c in GetCards("SC") && c !in rest
    ensures Resolves(rest + [BlackJoker], rest + [c], c, c)
  {
    var hand := rest + [BlackJoker];
    CandidateIsNotJoker("SC", c);
    ReplaceLastJoker(rest, BlackJoker, c);
    assert c !in hand && RedJoker !in hand;
    assert CandidateFor(BlackJoker, "SC", hand, c);
    assert CandidateFor(RedJoker, "HD", hand, c);
    assert RedJoker !in rest + [c];
  }

  /** With the black joker last and no red joker, a resolution appends one free black card. */
  lemma BlackLastStep(rest: seq<Card>, p: seq<Card>, b: Card, r: Card)
    requires BlackJoker !in rest && RedJoker !in rest
    requires Resolves(rest + [BlackJoker], p, b, r)
    ensures p == rest + [b] && b in GetCards("SC") && b !in rest
  {
    var hand := rest + [BlackJoker];
    assert BlackJoker in hand;
    assert CandidateFor(BlackJoker, "SC", hand, b);
    CandidateIsNotJoker("SC", b);
    ReplaceLastJoker(rest, BlackJoker, b);
    assert RedJoker !in rest + [b];
  }

  /** The resolutions of a hand whose only joker is a black one at the end. */
  lemma BlackLastResolution(rest: seq<Card>, p: seq<Card>)
    requires BlackJoker !in rest && RedJoker !in rest
    requires IsResolution(rest + [BlackJoker], p)
    ensures exists c :: p == rest + [c] && c in GetCards("SC") && c !in rest
  {
    var b, r :| Resolves(rest + [BlackJoker], p, b, r);
    BlackLastStep(rest, p, b, r);
  }

  /** A black card and a red card for the two jokers at the end of a hand. */
  lemma TwoJokersResolve(rest: seq<Card>, b: Card, r: Card)
    requires BlackJoker !in rest && RedJoker !in rest
    requires b in GetCards("SC") && b !in rest && r in GetCards("HD") && r !in rest
    ensures Resolves(rest + [RedJoker, BlackJoker], rest + [b, r], b, r)
  {
    var hand := rest + [RedJoker, BlackJoker];
    CandidateIsNotJoker("SC", b);
    CandidateIsNotJoker("HD", r);
    assert hand == (rest + [RedJoker]) + [BlackJoker];
    ReplaceLastJoker(rest + [RedJoker], BlackJoker, b);
    var q := ReplaceIfPresent(hand, BlackJoker, b);
    assert q == rest + [RedJoker, b];
    ReplaceJokerBeforeLast(rest, RedJoker, b, r);
    assert b !in hand && r !in hand;
    assert CandidateFor(BlackJoker, "SC", hand, b);
    assert CandidateFor(RedJoker, "HD", hand, r);
  }

  /** With the red and then the black joker last, a resolution appends a free black card and then a free red one. */
  lemma TwoJokersStep(rest: seq<Card>, p: seq<Card>, b: Card, r: Card)
    requires BlackJoker !in rest && RedJoker !in rest
    requires Resolves(rest + [RedJoker, BlackJoker], p, b, r)
    ensures p == rest + [b, r]
    ensures b in GetCards("SC") && b !in rest && r in GetCards("HD") && r !in rest
  {
    var hand := rest + [RedJoker, BlackJoker];
    assert BlackJoker in hand && RedJoker in hand;
    assert CandidateFor(BlackJoker, "SC", hand, b);
    assert CandidateFor(RedJoker, "HD", hand, r);
    assert b in GetCards("SC") && b !in hand && r in GetCards("HD") && r !in hand;
    CandidateIsNotJoker("SC", b);
    assert hand == (rest + [RedJoker]) + [BlackJoker];
    ReplaceLastJoker(rest + [RedJoker], BlackJoker, b);
    var q := ReplaceIfPresent(hand, BlackJoker, b);
    assert q == rest + [RedJoker, b];
    ReplaceJokerBeforeLast(rest, RedJoker, b, r);
  }

  /** The resolutions of a hand ending in the red and then the black joker. */
  lemma TwoJokersResolution(rest: seq<Card>, p: seq<Card>)
    requires BlackJoker !in rest && RedJoker !in rest
    requires IsResolution(rest + [RedJoker, BlackJoker], p)
    ensures exists b, r :: p == rest + [b, r] && b in GetCards("SC") && b !in rest && r in GetCards("HD") && r !in rest
  {
    var b, r :| Resolves(rest + [RedJoker, BlackJoker], p, b, r);
    TwoJokersStep(rest, p, b, r);
  }

  /** A card's rank character is fixed by its value: the value `v` belongs to `RankChars[v - 2]` alone. */
  lemma RankCharOf(c: Card, v: int)
    requires HasRank(c) && RankValue(c) == v
    ensures 2 <= v <= 14 && c.rank == RankChars[v - 2]
  {
    RankTable();
    var k :| 0 <= k < |RankChars| && RankChars[k] == c.rank;
  }

  /**
   * When `e` is five cards of a resolution `p0` of a wild hand, scoring `s`,
   * and every five cards of any resolution scoring at least `s` are `e`,
   * the wild search returns `e`.
   */
  lemma WildBestIsForced(hand: seq<Card>, p0: seq<Card>, e: seq<Card>, s: Score)
    requires WildHand(hand) && IsResolution(hand, p0)
    requires |e| == 5 && IsSubseq(e, p0) && AllRanked(e) && HandRank(e) == s
    requires forall p, b :: IsResolution(hand, p) && |b| == 5 && IsSubseq(b, p) && AllRanked(b) && !Less(HandRank(b), s) ==> b == e
    ensures Scorable(WildCandidates(JokerFreePools(hand)))
    ensures Scan(WildCandidates(JokerFreePools(hand))).1 == Some(e)
  {
    ResolutionShape(hand, p0);
    SubseqMultiset(e, p0);
    BestWildSelection(hand);
  }

  /** A hand of at most 26 cards of known rank holds no joker and is a hand `best_wild_hand` accepts. */
  lemma RankedIsWild(hand: seq<Card>)
    requires AllRanked(hand) && |hand| <= 26
    ensures BlackJoker !in hand && RedJoker !in hand && WildHand(hand)
  {
    JokersUnranked();
    assert Count(hand, BlackJoker) == 0 && Count(hand, RedJoker) == 0;
  }

  // ---------------------------------------------------------------------
  // "JD TC TH 7C 7D 7S 7H": no joker, so the plain search's answer.
  // ---------------------------------------------------------------------

  /** `best_wild_hand("JD TC TH 7C 7D 7S 7H")` returns the four sevens and the jack, as `best_hand` does. */
  lemma BestWildHandJokerFree()
    ensures WildHand(QuadsPool) && Scorable(WildCandidates(JokerFreePools(QuadsPool)))
    ensures Scan(WildCandidates(JokerFreePools(QuadsPool))).1 == Some(QuadsHand)
  {
    QuadsPoolFacts();
    RankedIsWild(QuadsPool);
    WildWithoutJokers(QuadsPool);
    BestHandQuads();
  }

  /** The cards of `base + [c]`, their rank values and where each comes from. */
  lemma AppendOne(base: seq<Card>, c: Card)
    requires AllRanked(base) && HasRank(c)
    ensures AllRanked(base + [c])
    ensures multiset(RankValues(base + [c])) == multiset(RankValues(base)) + multiset{RankValue(c)}
    ensures forall x :: x in base + [c] ==> x in base || x == c
  {
    RankValuesAppend(base, [c]);
    assert RankValues([c]) == [RankValue(c)];
  }

  /** The cards of `base + [b, r]`, their rank values and where each comes from. */
  lemma AppendTwo(base: seq<Card>, b: Card, r: Card)
    requires AllRanked(base) && HasRank(b) && HasRank(r)
    ensures AllRanked(base + [b, r])
    ensures multiset(RankValues(base + [b, r])) == multiset(RankValues(base)) + multiset{RankValue(b), RankValue(r)}
    ensures forall x :: x in base + [b, r] ==> x in base || x == b || x == r
  {
    RankValuesAppend(base, [b, r]);
    assert RankValues([b, r]) == [RankValue(b), RankValue(r)];
  }

  // ---------------------------------------------------------------------
  // "6C 7C 8C 9C TC 5C ?B": the black joker becomes the jack of clubs.
  // ---------------------------------------------------------------------

  const WildStraightFlushPool: seq<Card> := [Card('6', 'C'), Card('7', 'C'), Card('8', 'C'), Card('9', 'C'), Card('T', 'C'), Card('5', 'C'), Card('?', 'B')]
  const WildStraightFlushBase: seq<Card> := [Card('6', 'C'), Card('7', 'C'), Card('8', 'C'), Card('9', 'C'), Card('T', 'C'), Card('5', 'C')]
  const WildStraightFlushResolution: seq<Card> := [Card('6', 'C'), Card('7', 'C'), Card('8', 'C'), Card('9', 'C'), Card('T', 'C'), Card('5', 'C'), Card('J', 'C')]
  const WildStraightFlushHand: seq<Card> := [Card('7', 'C'), Card('8', 'C'), Card('9', 'C'), Card('T', 'C'), Card('J', 'C')]

  lemma WildStraightFlushParts()
    ensures WildStraightFlushPool == WildStraightFlushBase + [BlackJoker]
    ensures WildStraightFlushResolution == WildStraightFlushBase + [Card('J', 'C')]
  {
  }

  lemma WildStraightFlushBaseFacts()
    ensures var base := WildStraightFlushBase;
      && AllRanked(base) && RankValues(base) == [6, 7, 8, 9, 10, 5]
      && BlackJoker !in base && RedJoker !in base && Card('J', 'C') !in base
  {
    assert AllRanked(WildStraightFlushBase);
  }

  lemma WildStraightFlushBaseMultiset(values: seq<int>)
    requires values == [6, 7, 8, 9, 10, 5]
    ensures multiset(values) == multiset{6, 7, 8, 9, 10, 5}
  {
  }

  lemma WildStraightFlushBaseCards()
    ensures var base := WildStraightFlushBase;
      && AllRanked(base)
      && (forall x :: x in base ==> RankValue(x) <= 10)
      && (forall x :: x in base && RankValue(x) == 7 ==> x.suit == 'C')
  {
    assert AllRanked(WildStraightFlushBase);
  }

  lemma WildStraightFlushWild()
    ensures WildHand(WildStraightFlushPool)
  {
    var pool := WildStraightFlushPool;
    assert Count(pool, BlackJoker) == 1 && Count(pool, RedJoker) == 0;
  }

  lemma WildStraightFlushSelectionTail()
    ensures AllRanked(WildStraightFlushResolution[3..])
    ensures WithRanks(WildStraightFlushResolution[3..], {7, 8, 9, 10, 11}) == [Card('9', 'C'), Card('T', 'C'), Card('J', 'C')]
  {
    var pool, values := WildStraightFlushResolution, {7, 8, 9, 10, 11};
    assert AllRanked(pool[3..]);
    assert WithRanks(pool[7..], values) == [];
    assert WithRanks(pool[6..], values) == [pool[6]];
    assert WithRanks(pool[5..], values) == [pool[6]];
    assert WithRanks(pool[4..], values) == [pool[4], pool[6]];
  }

  lemma WildStraightFlushSelection()
    ensures AllRanked(WildStraightFlushResolution)
    ensures WithRanks(WildStraightFlushResolution, {7, 8, 9, 10, 11}) == WildStraightFlushHand
  {
    var pool, values := WildStraightFlushResolution, {7, 8, 9, 10, 11};
    WildStraightFlushSelectionTail();
    assert AllRanked(pool);
    assert pool[3..][1..] == pool[4..];
    assert WithRanks(pool[2..], values) == [pool[2]] + WithRanks(pool[3..], values);
    assert WithRanks(pool[1..], values) == [pool[1]] + WithRanks(pool[2..], values);
  }

  lemma WildStraightFlushSubseq()
    ensures IsSubseq(WildStraightFlushHand, WildStraightFlushResolution)
  {
    var pool, hand := WildStraightFlushResolution, WildStraightFlushHand;
    assert IsSubseq(hand[4..], pool[6..]);
    assert IsSubseq(hand[4..], pool[5..]);
    assert IsSubseq(hand[3..], pool[4..]);
    assert IsSubseq(hand[2..], pool[3..]);
    assert IsSubseq(hand[1..], pool[2..]);
    assert IsSubseq(hand, pool[1..]);
  }

  lemma WildStraightFlushScore(h: seq<Card>, ranks: seq<int>)
    requires h == WildStraightFlushHand && ranks == [11, 10, 9, 8, 7]
    ensures AllRanked(h) && HandRank(h) == ScoreOf(ranks, true)
  {
    WildStraightFlushHandFacts();
    WildStraightFlushSorted([7, 8, 9, 10, 11], ranks);
    DescendingFive(11, 10, 9, 8, 7);
    ScoreOfHand(h, ranks, true);
  }

  lemma WildStraightFlushHandFacts()
    ensures var h := WildStraightFlushHand;
      AllRanked(h) && RankValues(h) == [7, 8, 9, 10, 11] && Flush(h)
  {
    var h := WildStraightFlushHand;
    assert AllRanked(h);
    assert forall c :: c in h ==> c.suit == h[0].suit;
  }

  lemma WildStraightFlushSorted(values: seq<int>, ranks: seq<int>)
    requires values == [7, 8, 9, 10, 11] && ranks == [11, 10, 9, 8, 7]
    ensures multiset(values) == multiset(ranks)
  {
    assert multiset(values) == multiset{7, 8, 9, 10, 11};
    assert multiset(ranks) == multiset{7, 8, 9, 10, 11};
  }

  lemma WildStraightFlushScoreOf()
    ensures ScoreOf([11, 10, 9, 8, 7], true) == Score(8, [11])
  {
    assert seq(5, i => 11 - i) == [11, 10, 9, 8, 7];
  }

  /** Sorted ranks out of `6 7 8 9 T 5` and the joker's value `vc` that score a jack-high straight flush or better. */
  lemma WildStraightFlushRanks(ranks: seq<int>, flush: bool, score: Score, vc: int, m: multiset<int>)
    requires |ranks| == 5 && NonIncreasing(ranks)
    requires m == multiset{6, 7, 8, 9, 10, 5} + multiset{vc} && forall i :: 0 <= i < |ranks| ==> ranks[i] in m
    requires Explains(score, ranks, flush) && !Less(score, Score(8, [11]))
    ensures flush && vc == 11 && 11 in ranks && 7 in ranks
    ensures forall v :: v in ranks ==> 7 <= v <= 11
  {
    assert score.category == 8;
    var r := ranks[0];
    assert score.tiebreak == [r];
    assert r < 11 ==> SeqLess([r], [11]);
    StraightRun(ranks);
    assert ranks[1] == r - 1 && ranks[4] == r - 4;
    forall v | v in ranks ensures r - 4 <= v <= r {
      var i :| 0 <= i < 5 && ranks[i] == v;
    }
  }

  lemma WildStraightFlushValues(p: seq<Card>, b: seq<Card>, score: Score, vc: int)
    requires AllRanked(p) && multiset(RankValues(p)) == multiset{6, 7, 8, 9, 10, 5} + multiset{vc}
    requires |b| == 5 && IsSubseq(b, p) && AllRanked(b)
    requires Explains(score, CardRanks(b), Flush(b)) && !Less(score, Score(8, [11]))
    ensures vc == 11 && Flush(b) && 11 in CardRanks(b) && 7 in CardRanks(b)
    ensures forall x :: x in b ==> RankValue(x) in {7, 8, 9, 10, 11}
  {
    var m := multiset{6, 7, 8, 9, 10, 5} + multiset{vc};
    SelectionCounts(b, p, m);
    WildStraightFlushRanks(CardRanks(b), Flush(b), score, vc, m);
    CardsInRange(b, 7, 11);
  }

  /** In a flush holding a jack and a seven out of `p`, where the only jack is `c` and every other seven is a club, `c` is a club. */
  lemma WildStraightFlushSuit(p: seq<Card>, b: seq<Card>, c: Card)
    requires AllRanked(p) && HasRank(c) && RankValue(c) == 11
    requires forall x :: x in p && x != c ==> RankValue(x) <= 10
    requires forall x :: x in p && x != c && RankValue(x) == 7 ==> x.suit == 'C'
    requires IsSubseq(b, p) && AllRanked(b) && Flush(b) && 11 in CardRanks(b) && 7 in CardRanks(b)
    ensures c.suit == 'C'
  {
    SelectionRanks(b, p);
    SubseqMembers(b, p);
    var x :| x in b && RankValue(x) == 11;
    var y :| y in b && RankValue(y) == 7;
    assert x == c;
    assert y.suit == 'C';
  }

  /** Five cards of `base + [c]` scoring at least a jack-high straight flush are the five cards of `e`. */
  lemma WildStraightFlushOne(base: seq<Card>, c: Card, b: seq<Card>, e: seq<Card>)
    requires AllRanked(base) && multiset(RankValues(base)) == multiset{6, 7, 8, 9, 10, 5}
    requires forall x :: x in base ==> RankValue(x) <= 10
    requires forall x :: x in base && RankValue(x) == 7 ==> x.suit == 'C'
    requires c in GetCards("SC")
    requires AllRanked(base + [Card('J', 'C')]) && WithRanks(base + [Card('J', 'C')], {7, 8, 9, 10, 11}) == e && |e| == 5
    requires |b| == 5 && IsSubseq(b, base + [c]) && AllRanked(b) && !Less(HandRank(b), Score(8, [11]))
    ensures b == e
  {
    var p := base + [c];
    CardsHaveRankAndSuit("SC", c);
    AppendOne(base, c);
    HandRankExplained(b);
    WildStraightFlushValues(p, b, HandRank(b), RankValue(c));
    WildStraightFlushSuit(p, b, c);
    RankCharOf(c, 11);
    assert p == base + [Card('J', 'C')];
    OnlyCardsWithRanks(b, p, {7, 8, 9, 10, 11});
  }

  /** Five cards of any resolution of `base + [?B]` scoring at least a jack-high straight flush are the five cards of `e`. */
  lemma WildStraightFlushResolved(base: seq<Card>, pool: seq<Card>, res: seq<Card>, p: seq<Card>, b: seq<Card>, e: seq<Card>)
    requires AllRanked(base) && multiset(RankValues(base)) == multiset{6, 7, 8, 9, 10, 5}
    requires BlackJoker !in base && RedJoker !in base
    requires forall x :: x in base ==> RankValue(x) <= 10
    requires forall x :: x in base && RankValue(x) == 7 ==> x.suit == 'C'
    requires pool == base + [BlackJoker] && res == base + [Card('J', 'C')]
    requires AllRanked(res) && WithRanks(res, {7, 8, 9, 10, 11}) == e && |e| == 5
    requires IsResolution(pool, p)
    requires |b| == 5 && IsSubseq(b, p) && AllRanked(b) && !Less(HandRank(b), Score(8, [11]))
    ensures b == e
  {
    BlackLastResolution(base, p);
    var c :| p == base + [c] && c in GetCards("SC") && c !in base;
    WildStraightFlushOne(base, c, b, e);
  }

  lemma WildStraightFlushAllResolved(base: seq<Card>, pool: seq<Card>, res: seq<Card>, e: seq<Card>)
    requires AllRanked(base) && multiset(RankValues(base)) == multiset{6, 7, 8, 9, 10, 5}
    requires BlackJoker !in base && RedJoker !in base
    requires forall x :: x in base ==> RankValue(x) <= 10
    requires forall x :: x in base && RankValue(x) == 7 ==> x.suit == 'C'
    requires pool == base + [BlackJoker] && res == base + [Card('J', 'C')]
    requires AllRanked(res) && WithRanks(res, {7, 8, 9, 10, 11}) == e && |e| == 5
    ensures forall p, b ::
      (IsResolution(pool, p) && |b| == 5 && IsSubseq(b, p) && AllRanked(b) && !Less(HandRank(b), Score(8, [11])))
      ==> b == e
  {
    forall p, b | IsResolution(pool, p) && |b| == 5 && IsSubseq(b, p) && AllRanked(b) && !Less(HandRank(b), Score(8, [11]))
      ensures b == e
    {
      WildStraightFlushResolved(base, pool, res, p, b, e);
    }
  }

  lemma WildStraightFlushForced()
    ensures forall p, b ::
      (IsResolution(WildStraightFlushPool, p) && |b| == 5 && IsSubseq(b, p) && AllRanked(b) && !Less(HandRank(b), Score(8, [11])))
      ==> b == WildStraightFlushHand
  {
    var base := WildStraightFlushBase;
    WildStraightFlushParts();
    WildStraightFlushBaseFacts();
    WildStraightFlushBaseMultiset(RankValues(base));
    WildStraightFlushBaseCards();
    WildStraightFlushSelection();
    WildStraightFlushAllResolved(base, WildStraightFlushPool, WildStraightFlushResolution, WildStraightFlushHand);
  }

  /** `best_wild_hand("6C 7C 8C 9C TC 5C ?B")` turns the black joker into the jack of clubs and returns the clubs from seven to jack. */
  lemma BestWildHandStraightFlush()
    ensures WildHand(WildStraightFlushPool) && Scorable(WildCandidates(JokerFreePools(WildStraightFlushPool)))
    ensures Scan(WildCandidates(JokerFreePools(WildStraightFlushPool))).1 == Some(WildStraightFlushHand)
  {
    WildStraightFlushWild();
    WildStraightFlushParts();
    WildStraightFlushBaseFacts();
    RankAndSuitMakeCard("SC", Card('J', 'C'));
    BlackLastResolves(WildStraightFlushBase, Card('J', 'C'));
    WildStraightFlushSubseq();
    WildStraightFlushScore(WildStraightFlushHand, [11, 10, 9, 8, 7]);
    WildStraightFlushScoreOf();
    WildStraightFlushForced();
    WildBestIsForced(WildStraightFlushPool, WildStraightFlushResolution, WildStraightFlushHand, Score(8, [11]));
  }

  // ---------------------------------------------------------------------
  // "TD TC 5H 5C 7C ?R ?B": the jokers become the ten of spades and the ten of hearts.
  // ---------------------------------------------------------------------

  const FourTensPool: seq<Card> := [Card('T', 'D'), Card('T', 'C'), Card('5', 'H'), Card('5', 'C'), Card('7', 'C'), Card('?', 'R'), Card('?', 'B')]
  const FourTensBase: seq<Card> := [Card('T', 'D'), Card('T', 'C'), Card('5', 'H'), Card('5', 'C'), Card('7', 'C')]
  const FourTensResolution: seq<Card> := [Card('T', 'D'), Card('T', 'C'), Card('5', 'H'), Card('5', 'C'), Card('7', 'C'), Card('T', 'S'), Card('T', 'H')]
  const FourTensHand: seq<Card> := [Card('T', 'D'), Card('T', 'C'), Card('7', 'C'), Card('T', 'S'), Card('T', 'H')]

  lemma FourTensParts()
    ensures FourTensPool == FourTensBase + [RedJoker, BlackJoker]
    ensures FourTensResolution == FourTensBase + [Card('T', 'S'), Card('T', 'H')]
  {
  }

  lemma FourTensBaseFacts()
    ensures var base := FourTensBase;
      && AllRanked(base) && RankValues(base) == [10, 10, 5, 5, 7]
      && BlackJoker !in base && RedJoker !in base
      && Card('T', 'C') in base && Card('T', 'D') in base
      && Card('T', 'S') !in base && Card('T', 'H') !in base
  {
    assert AllRanked(FourTensBase);
  }

  lemma FourTensBaseMultiset(values: seq<int>)
    requires values == [10, 10, 5, 5, 7]
    ensures multiset(values) == multiset{10, 10, 5, 5, 7}
  {
  }

  lemma FourTensWild()
    ensures WildHand(FourTensPool)
  {
    var pool := FourTensPool;
    assert Count(pool, BlackJoker) == 1 && Count(pool, RedJoker) == 1;
  }

  lemma FourTensSelectionTail()
    ensures AllRanked(FourTensResolution[3..])
    ensures WithRanks(FourTensResolution[3..], {10, 7}) == [Card('7', 'C'), Card('T', 'S'), Card('T', 'H')]
  {
    var pool, values := FourTensResolution, {10, 7};
    assert AllRanked(pool[3..]);
    assert WithRanks(pool[7..], values) == [];
    assert WithRanks(pool[6..], values) == [pool[6]];
    assert WithRanks(pool[5..], values) == [pool[5], pool[6]];
    assert WithRanks(pool[4..], values) == [pool[4], pool[5], pool[6]];
  }

  lemma FourTensSelection()
    ensures AllRanked(FourTensResolution)
    ensures WithRanks(FourTensResolution, {10, 7}) == FourTensHand
  {
    var pool, values := FourTensResolution, {10, 7};
    FourTensSelectionTail();
    assert AllRanked(pool);
    assert pool[2..][1..] == pool[3..];
    assert WithRanks(pool[2..], values) == WithRanks(pool[3..], values);
    assert WithRanks(pool[1..], values) == [pool[1]] + WithRanks(pool[2..], values);
  }

  lemma FourTensSubseq()
    ensures IsSubseq(FourTensHand, FourTensResolution)
  {
    var pool, hand := FourTensResolution, FourTensHand;
    assert IsSubseq(hand[4..], pool[6..]);
    assert IsSubseq(hand[3..], pool[5..]);
    assert IsSubseq(hand[2..], pool[4..]);
    assert IsSubseq(hand[2..], pool[3..]);
    assert IsSubseq(hand[2..], pool[2..]);
    assert IsSubseq(hand[1..], pool[1..]);
  }

  lemma FourTensScore(h: seq<Card>, ranks: seq<int>)
    requires h == FourTensHand && ranks == [10, 10, 10, 10, 7]
    ensures AllRanked(h) && HandRank(h) == ScoreOf(ranks, false)
  {
    FourTensHandFacts();
    FourTensSorted([10, 10, 7, 10, 10], ranks);
    DescendingFive(10, 10, 10, 10, 7);
    ScoreOfHand(h, ranks, false);
  }

  lemma FourTensHandFacts()
    ensures var h := FourTensHand;
      AllRanked(h) && RankValues(h) == [10, 10, 7, 10, 10] && !Flush(h)
  {
    var h := FourTensHand;
    assert AllRanked(h);
    assert h[1].suit != h[0].suit;
  }

  lemma FourTensSorted(values: seq<int>, ranks: seq<int>)
    requires values == [10, 10, 7, 10, 10] && ranks == [10, 10, 10, 10, 7]
    ensures multiset(values) == multiset(ranks)
  {
    assert values == [10, 10, 7] + [10, 10];
    assert ranks == [10, 10] + [10, 10, 7];
    SwapHalves([10, 10, 7], [10, 10]);
  }

  lemma FourTensScoreOf()
    ensures ScoreOf([10, 10, 10, 10, 7], false) == Score(7, [10, 7])
  {
  }

  /** `x` is a rank value of `T T 5 5 7` or of a joker standing for `vb` or `vr`. */
  predicate FourTensValue(x: int, vb: int, vr: int)
  {
    x == 10 || x == 5 || x == 7 || x == vb || x == vr
  }

  /** No five consecutive values fit into `T T 5 5 7` and two jokers: the tens and the fives are five apart. */
  lemma FourTensNoRun(r: int, vb: int, vr: int)
    ensures !(FourTensValue(r, vb, vr) && FourTensValue(r - 1, vb, vr) && FourTensValue(r - 2, vb, vr)
              && FourTensValue(r - 3, vb, vr) && FourTensValue(r - 4, vb, vr))
  {
  }

  lemma FourTensNoStraight(ranks: seq<int>, vb: int, vr: int, m: multiset<int>)
    requires |ranks| == 5 && NonIncreasing(ranks)
    requires m == multiset{10, 10, 5, 5, 7} + multiset{vb, vr}
    requires forall i :: 0 <= i < |ranks| ==> ranks[i] in m
    ensures !Straight(ranks)
  {
    StraightRun(ranks);
    assert FourTensValue(ranks[0], vb, vr) && FourTensValue(ranks[1], vb, vr) && FourTensValue(ranks[2], vb, vr);
    assert FourTensValue(ranks[3], vb, vr) && FourTensValue(ranks[4], vb, vr);
    FourTensNoRun(ranks[0], vb, vr);
  }

  /** Sorted ranks out of `T T 5 5 7` and the jokers' values `vb`, `vr` that score four tens with a seven or better. */
  lemma FourTensRanks(ranks: seq<int>, flush: bool, score: Score, vb: int, vr: int, m: multiset<int>)
    requires |ranks| == 5 && NonIncreasing(ranks)
    requires m == multiset{10, 10, 5, 5, 7} + multiset{vb, vr}
    requires forall i :: 0 <= i < |ranks| ==> ranks[i] in m
    requires forall v :: Count(ranks, v) <= m[v]
    requires Explains(score, ranks, flush) && !Less(score, Score(7, [10, 7]))
    ensures vb == 10 && vr == 10
    ensures forall v :: v in ranks ==> v == 10 || v == 7
  {
    FourTensNoStraight(ranks, vb, vr, m);
    assert score.category == 7;
    var q, k := score.tiebreak[0], score.tiebreak[1];
    assert score.tiebreak == [q, k];
    assert q < 10 ==> SeqLess([q, k], [10, 7]);
    assert q == 10 && vb == 10 && vr == 10;
    assert k < 7 ==> SeqLess([10, k], [10, 7]);
    assert k == 7;
    TwoValuesOnly(ranks, 10, 7);
  }

  lemma FourTensValues(p: seq<Card>, b: seq<Card>, score: Score, vb: int, vr: int)
    requires AllRanked(p) && multiset(RankValues(p)) == multiset{10, 10, 5, 5, 7} + multiset{vb, vr}
    requires |b| == 5 && IsSubseq(b, p) && AllRanked(b)
    requires Explains(score, CardRanks(b), Flush(b)) && !Less(score, Score(7, [10, 7]))
    ensures vb == 10 && vr == 10
    ensures forall x :: x in b ==> RankValue(x) in {10, 7}
  {
    var m := multiset{10, 10, 5, 5, 7} + multiset{vb, vr};
    SelectionCounts(b, p, m);
    FourTensRanks(CardRanks(b), Flush(b), score, vb, vr, m);
    SelectionRanks(b, p);
    forall x | x in b ensures RankValue(x) in {10, 7} {
      assert RankValue(x) in CardRanks(b);
    }
  }

  /** Tens standing in for the jokers, next to the ten of clubs and the ten of diamonds, are the ten of spades and the ten of hearts. */
  lemma FourTensJokers(base: seq<Card>, cb: Card, cr: Card)
    requires Card('T', 'C') in base && Card('T', 'D') in base
    requires cb in GetCards("SC") && cb !in base && cr in GetCards("HD") && cr !in base
    requires HasRank(cb) && RankValue(cb) == 10 && HasRank(cr) && RankValue(cr) == 10
    ensures cb == Card('T', 'S') && cr == Card('T', 'H')
  {
    CardsHaveRankAndSuit("SC", cb);
    CardsHaveRankAndSuit("HD", cr);
    RankCharOf(cb, 10);
    RankCharOf(cr, 10);
  }

  /** Five cards of `base + [cb, cr]` scoring at least four tens with a seven are tens and sevens, and the jokers became the ten of spades and the ten of hearts. */
  lemma FourTensCards(base: seq<Card>, cb: Card, cr: Card, b: seq<Card>)
    requires AllRanked(base) && multiset(RankValues(base)) == multiset{10, 10, 5, 5, 7}
    requires Card('T', 'C') in base && Card('T', 'D') in base
    requires cb in GetCards("SC") && cb !in base && cr in GetCards("HD") && cr !in base
    requires |b| == 5 && IsSubseq(b, base + [cb, cr]) && AllRanked(b) && !Less(HandRank(b), Score(7, [10, 7]))
    ensures cb == Card('T', 'S') && cr == Card('T', 'H')
    ensures forall x :: x in b ==> RankValue(x) in {10, 7}
  {
    CardsHaveRankAndSuit("SC", cb);
    CardsHaveRankAndSuit("HD", cr);
    AppendTwo(base, cb, cr);
    HandRankExplained(b);
    FourTensValues(base + [cb, cr], b, HandRank(b), RankValue(cb), RankValue(cr));
    FourTensJokers(base, cb, cr);
  }

  /** Five cards of `base + [cb, cr]` scoring at least four tens with a seven are the five cards of `e`. */
  lemma FourTensOne(base: seq<Card>, res: seq<Card>, cb: Card, cr: Card, b: seq<Card>, e: seq<Card>)
    requires AllRanked(base) && multiset(RankValues(base)) == multiset{10, 10, 5, 5, 7}
    requires Card('T', 'C') in base && Card('T', 'D') in base
    requires cb in GetCards("SC") && cb !in base && cr in GetCards("HD") && cr !in base
    requires res == base + [Card('T', 'S'), Card('T', 'H')]
    requires AllRanked(res) && WithRanks(res, {10, 7}) == e && |e| == 5
    requires |b| == 5 && IsSubseq(b, base + [cb, cr]) && AllRanked(b) && !Less(HandRank(b), Score(7, [10, 7]))
    ensures b == e
  {
    FourTensCards(base, cb, cr, b);
    assert base + [cb, cr] == res;
    OnlyCardsWithRanks(b, res, {10, 7});
  }

  /** Five cards of any resolution of `base + [?R, ?B]` scoring at least four tens with a seven are the five cards of `e`. */
  lemma FourTensResolved(base: seq<Card>, pool: seq<Card>, res: seq<Card>, p: seq<Card>, b: seq<Card>, e: seq<Card>)
    requires AllRanked(base) && multiset(RankValues(base)) == multiset{10, 10, 5, 5, 7}
    requires BlackJoker !in base && RedJoker !in base && Card('T', 'C') in base && Card('T', 'D') in base
    requires pool == base + [RedJoker, BlackJoker] && res == base + [Card('T', 'S'), Card('T', 'H')]
    requires AllRanked(res) && WithRanks(res, {10, 7}) == e && |e| == 5
    requires IsResolution(pool, p)
    requires |b| == 5 && IsSubseq(b, p) && AllRanked(b) && !Less(HandRank(b), Score(7, [10, 7]))
    ensures b == e
  {
    TwoJokersResolution(base, p);
    var cb, cr :| p == base + [cb, cr] && cb in GetCards("SC") && cb !in base && cr in GetCards("HD") && cr !in base;
    FourTensOne(base, res, cb, cr, b, e);
  }

  lemma FourTensAllResolved(base: seq<Card>, pool: seq<Card>, res: seq<Card>, e: seq<Card>)
    requires AllRanked(base) && multiset(RankValues(base)) == multiset{10, 10, 5, 5, 7}
    requires BlackJoker !in base && RedJoker !in base && Card('T', 'C') in base && Card('T', 'D') in base
    requires pool == base + [RedJoker, BlackJoker] && res == base + [Card('T', 'S'), Card('T', 'H')]
    requires AllRanked(res) && WithRanks(res, {10, 7}) == e && |e| == 5
    ensures forall p, b ::
      (IsResolution(pool, p) && |b| == 5 && IsSubseq(b, p) && AllRanked(b) && !Less(HandRank(b), Score(7, [10, 7])))
      ==> b == e
  {
    forall p, b | IsResolution(pool, p) && |b| == 5 && IsSubseq(b, p) && AllRanked(b) && !Less(HandRank(b), Score(7, [10, 7]))
      ensures b == e
    {
      FourTensResolved(base, pool, res, p, b, e);
    }
  }

  lemma FourTensForced()
    ensures forall p, b ::
      (IsResolution(FourTensPool, p) && |b| == 5 && IsSubseq(b, p) && AllRanked(b) && !Less(HandRank(b), Score(7, [10, 7])))
      ==> b == FourTensHand
  {
    var base := FourTensBase;
    FourTensParts();
    FourTensBaseFacts();
    FourTensBaseMultiset(RankValues(base));
    FourTensSelection();
    FourTensAllResolved(base, FourTensPool, FourTensResolution, FourTensHand);
  }

  /**
   * `best_wild_hand("TD TC 5H 5C 7C ?R ?B")` turns the black joker into the
   * ten of spades and the red one into the ten of hearts, and returns the
   * four tens with the seven.
   */
  lemma BestWildHandFourTens()
    ensures WildHand(FourTensPool) && Scorable(WildCandidates(JokerFreePools(FourTensPool)))
    ensures Scan(WildCandidates(JokerFreePools(FourTensPool))).1 == Some(FourTensHand)
  {
    FourTensWild();
    FourTensParts();
    FourTensBaseFacts();
    RankAndSuitMakeCard("SC", Card('T', 'S'));
    RankAndSuitMakeCard("HD", Card('T', 'H'));
    TwoJokersResolve(FourTensBase, Card('T', 'S'), Card('T', 'H'));
    FourTensSubseq();
    FourTensScore(FourTensHand, [10, 10, 10, 10, 7]);
    FourTensScoreOf();
    FourTensForced();
    WildBestIsForced(FourTensPool, FourTensResolution, FourTensHand, Score(7, [10, 7]));
  }
}
