/**
 * Joker resolution for the wild variant.  The black joker "?B" may stand for
 * a spade or a club of any rank, the red joker "?R" for a heart or a diamond.
 * A replacement must not be a card the hand already holds.
 */
module Jokers {
  import opened Seqs
  import opened Cards

  /** `get_cards`: every rank of the table (outer loop) in each of the given suits (inner loop). */
  function GetCards(suits: seq<char>): (cards: seq<Card>)
    ensures |cards| == 13 * |suits|
  {
    seq(13 * |suits|, i requires 0 <= i < 13 * |suits| => Card(RankChars[i / |suits|], suits[i % |suits|]))
  }

  lemma {:induction false} MulAtLeast(k: nat, d: nat)
    requires 1 <= d
    ensures k <= k * d
  {
    if d > 1 {
      MulAtLeast(k, d - 1);
      assert k * d == k * (d - 1) + k;
    }
  }

  /** Position `a * k + b` of the candidate list holds rank number `a` and suit number `b`. */
  lemma CardIndex(k: nat, a: int, b: int, i: int)
    requires 0 < k && 0 <= b < k && i == a * k + b
    ensures i / k == a && i % k == b
  {
    var q, r := i / k, i % k;
    assert k * q + r == k * a + b;
    if q > a {
      MulAtLeast(k, q - a);
    } else if q < a {
      MulAtLeast(k, a - q);
    }
  }

  lemma CardIndexBound(k: nat, i: int)
    requires 0 < k && 0 <= i < 13 * k
    ensures 0 <= i / k < 13
  {
  }

  lemma CardsHaveRankAndSuit(suits: seq<char>, c: Card)
    requires c in GetCards(suits)
    ensures HasRank(c) && c.suit in suits
  {
    RankTable();
    var cards := GetCards(suits);
    var i :| 0 <= i < |cards| && cards[i] == c;
    CardIndexBound(|suits|, i);
  }

  lemma RankAndSuitMakeCard(suits: seq<char>, c: Card)
    requires HasRank(c) && c.suit in suits
    ensures c in GetCards(suits)
  {
    RankTable();
    var cards, k := GetCards(suits), |suits|;
    var a :| 0 <= a < 13 && RankChars[a] == c.rank;
    var b :| 0 <= b < k && suits[b] == c.suit;
    CardIndex(k, a, b, a * k + b);
    MulAtLeast(k, 13 - a);
    assert k * (13 - a) == 13 * k - a * k;
    assert cards[a * k + b] == c;
  }

  /** The candidates are exactly the cards of a known rank in one of the given suits. */
  lemma GetCardsMembers(suits: seq<char>)
    ensures forall c :: c in GetCards(suits) <==> HasRank(c) && c.suit in suits
  {
    forall c | c in GetCards(suits) ensures HasRank(c) && c.suit in suits {
      CardsHaveRankAndSuit(suits, c);
    }
    forall c | HasRank(c) && c.suit in suits ensures c in GetCards(suits) {
      RankAndSuitMakeCard(suits, c);
    }
  }

  /** The candidates for a joker are all different when its suit letters are. */
  lemma GetCardsDistinct(suits: seq<char>)
    requires Distinct(suits)
    ensures Distinct(GetCards(suits))
  {
    RankCharsDistinct();
    var cards, k := GetCards(suits), |suits|;
    forall i, j | 0 <= i < j < |cards| ensures cards[i] != cards[j] {
      CardIndexBound(k, i);
      CardIndexBound(k, j);
      CardIndex(k, i / k, i % k, i);
    }
  }

  /** One replacement: the first occurrence of `joker` is removed and `card` appended. */
  function ReplaceFirst(hand: seq<Card>, joker: Card, card: Card): (r: seq<Card>)
    requires joker in hand
    ensures |r| == |hand|
    ensures multiset(r) == multiset(hand) - multiset{joker} + multiset{card}
    ensures r[|r| - 1] == card && r[..|r| - 1] == RemoveFirst(hand, joker)
  {
    RemoveFirst(hand, joker) + [card]
  }

  /** The hands the loop of `get_replaced_hand` collects while walking the candidates `cards`. */
  function ReplaceEach(joker: Card, cards: seq<Card>, hand: seq<Card>): seq<seq<Card>>
    requires joker in hand
  {
    if cards == [] then []
    else
      var card := cards[|cards| - 1];
      ReplaceEach(joker, cards[..|cards| - 1], hand)
        + (if card !in hand then [ReplaceFirst(hand, joker, card)] else [])
  }

  /** What `get_replaced_hand(joker, suits, hand)` returns. */
  function ReplacedHands(joker: Card, suits: seq<char>, hand: seq<Card>): (hands: seq<seq<Card>>)
    ensures hands != []
    ensures joker !in hand ==> hands == [hand]
  {
    var hands := if joker in hand then ReplaceEach(joker, GetCards(suits), hand) else [];
    if hands == [] then [hand] else hands
  }

  /** One more candidate adds its replacement when it is free, and nothing otherwise. */
  lemma ReplaceEachStep(joker: Card, cards: seq<Card>, i: nat, hand: seq<Card>)
    requires joker in hand && i < |cards|
    ensures ReplaceEach(joker, cards[..i + 1], hand) == ReplaceEach(joker, cards[..i], hand)
      + (if cards[i] !in hand then [RemoveFirst(hand, joker) + [cards[i]]] else [])
  {
    assert cards[..i + 1][..i] == cards[..i];
  }

  /** `get_replaced_hand`: a loop over the candidate cards that copies, removes and appends. */
  method GetReplacedHand(joker: Card, suits: seq<char>, hand: seq<Card>) returns (hands: seq<seq<Card>>)
    ensures hands == ReplacedHands(joker, suits, hand)
  {
    hands := [];
    if joker in hand {
      var cards := GetCards(suits);
      for i := 0 to |cards|
        invariant hands == ReplaceEach(joker, cards[..i], hand)
      {
        var card := cards[i];
        ReplaceEachStep(joker, cards, i, hand);
        if card !in hand {
          var handCopy := hand;
          handCopy := RemoveFirst(handCopy, joker);
          handCopy := handCopy + [card];
          hands := hands + [handCopy];
        }
      }
      assert cards[..|cards|] == cards;
    }
    if hands == [] {
      hands := [hand];
    }
  }

  lemma {:induction false} ReplaceEachMembers(joker: Card, cards: seq<Card>, hand: seq<Card>)
    requires joker in hand
    ensures forall c :: c in cards && c !in hand ==> ReplaceFirst(hand, joker, c) in ReplaceEach(joker, cards, hand)
    ensures forall h :: h in ReplaceEach(joker, cards, hand) ==>
      exists c :: c in cards && c !in hand && h == ReplaceFirst(hand, joker, c)
  {
    if cards != [] {
      var init, card := cards[..|cards| - 1], cards[|cards| - 1];
      ReplaceEachMembers(joker, init, hand);
      assert cards == init + [card];
      forall h | h in ReplaceEach(joker, cards, hand)
        ensures exists c :: c in cards && c !in hand && h == ReplaceFirst(hand, joker, c)
      {
        if h !in ReplaceEach(joker, init, hand) {
          assert card in cards;
        }
      }
    }
  }

  /**
   * `get_replaced_hand` with the joker present and some candidate free: the
   * hands returned are exactly the hand with the joker's first occurrence
   * replaced by each free candidate of the given suits.
   */
  lemma ReplacedHandsExactly(joker: Card, suits: seq<char>, hand: seq<Card>)
    requires joker in hand
    requires exists c :: c in GetCards(suits) && c !in hand
    ensures forall c :: c in GetCards(suits) && c !in hand ==> ReplaceFirst(hand, joker, c) in ReplacedHands(joker, suits, hand)
    ensures forall h :: h in ReplacedHands(joker, suits, hand) ==>
      exists c :: c in GetCards(suits) && c !in hand && h == ReplaceFirst(hand, joker, c)
  {
    ReplaceEachMembers(joker, GetCards(suits), hand);
    var c :| c in GetCards(suits) && c !in hand;
    assert ReplaceFirst(hand, joker, c) in ReplaceEach(joker, GetCards(suits), hand);
  }

  /** Two different suit letters offer 26 candidates, so a hand of at most 26 cards holding the joker leaves one free. */
  lemma FreeCandidate(joker: Card, suits: seq<char>, hand: seq<Card>)
    requires joker in hand && !HasRank(joker)
    requires |suits| == 2 && suits[0] != suits[1]
    requires |hand| <= 26
    ensures exists c :: c in GetCards(suits) && c !in hand
  {
    var cards := GetCards(suits);
    var rest := RemoveFirst(hand, joker);
    GetCardsDistinct(suits);
    Pigeonhole(cards, rest);
    var c :| c in cards && c !in rest;
    assert c != joker;
    assert multiset(rest)[c] == multiset(hand)[c];
    assert c !in hand;
  }

  /** Replace the joker if the hand holds it; otherwise the hand is unchanged. */
  function ReplaceIfPresent(hand: seq<Card>, joker: Card, card: Card): seq<Card>
  {
    if joker in hand then ReplaceFirst(hand, joker, card) else hand
  }

  /** `card` may stand in for `joker`: when the hand holds the joker, `card` is a free candidate of the given suits. */
  predicate CandidateFor(joker: Card, suits: seq<char>, hand: seq<Card>, card: Card)
  {
    joker in hand ==> card in GetCards(suits) && card !in hand
  }

  /** `p` is `hand` with the black joker (if held) replaced by `b` and then the red joker (if held) by `r`. */
  ghost predicate Resolves(hand: seq<Card>, p: seq<Card>, b: Card, r: Card)
  {
    && CandidateFor(BlackJoker, "SC", hand, b)
    && CandidateFor(RedJoker, "HD", hand, r)
    && p == ReplaceIfPresent(ReplaceIfPresent(hand, BlackJoker, b), RedJoker, r)
  }

  /** `p` is `hand` with each joker it holds replaced by a card of the joker's colour that the hand does not hold. */
  ghost predicate IsResolution(hand: seq<Card>, p: seq<Card>)
  {
    exists b, r :: Resolves(hand, p, b, r)
  }

  /** The red step of `get_combinations_without_joker`, over the popped hands, last first. */
  function ResolveRed(pools: seq<seq<Card>>): seq<seq<Card>>
  {
    if pools == [] then []
    else ReplacedHands(RedJoker, "HD", pools[|pools| - 1]) + ResolveRed(pools[..|pools| - 1])
  }

  /** What `get_combinations_without_joker(hand)` returns. */
  function JokerFreePools(hand: seq<Card>): (pools: seq<seq<Card>>)
    ensures pools != []
  {
    ResolveRed(ReplacedHands(BlackJoker, "SC", hand))
  }

  /** `get_combinations_without_joker`: resolve the black joker, then pop each result and resolve the red one. */
  method GetCombinationsWithoutJoker(hand: seq<Card>) returns (hands: seq<seq<Card>>)
    ensures hands == JokerFreePools(hand)
  {
    var handsCopy := GetReplacedHand(BlackJoker, "SC", hand);
    ghost var black := handsCopy;
    hands := [];
    while handsCopy != []
      invariant hands + ResolveRed(handsCopy) == ResolveRed(black)
      decreases |handsCopy|
    {
      var last := handsCopy[|handsCopy| - 1];
      handsCopy := handsCopy[..|handsCopy| - 1];
      var more := GetReplacedHand(RedJoker, "HD", last);
      hands := hands + more;
    }
  }

  lemma {:induction false} ResolveRedMembers(pools: seq<seq<Card>>)
    ensures forall p :: p in ResolveRed(pools) <==> exists q :: q in pools && p in ReplacedHands(RedJoker, "HD", q)
  {
    if pools != [] {
      var init := pools[..|pools| - 1];
      ResolveRedMembers(init);
      assert pools == init + [pools[|pools| - 1]];
    }
  }

  /** One joker step: the hands returned are the hand with the joker replaced by each free candidate, or the hand itself without the joker. */
  lemma ReplacedHandsAreReplacements(joker: Card, suits: seq<char>, hand: seq<Card>)
    requires !HasRank(joker) && |suits| == 2 && suits[0] != suits[1] && |hand| <= 26
    ensures forall q :: q in ReplacedHands(joker, suits, hand) <==>
      exists c :: CandidateFor(joker, suits, hand, c) && q == ReplaceIfPresent(hand, joker, c)
  {
    var hands := ReplacedHands(joker, suits, hand);
    if joker in hand {
      FreeCandidate(joker, suits, hand);
      ReplacedHandsExactly(joker, suits, hand);
      forall q | q in hands ensures exists c :: CandidateFor(joker, suits, hand, c) && q == ReplaceIfPresent(hand, joker, c) {
        var c :| c in GetCards(suits) && c !in hand && q == ReplaceFirst(hand, joker, c);
        assert CandidateFor(joker, suits, hand, c);
      }
      forall q, c | CandidateFor(joker, suits, hand, c) && q == ReplaceIfPresent(hand, joker, c) ensures q in hands {
      }
    } else {
      assert hands == [hand];
      assert CandidateFor(joker, suits, hand, joker) && hand == ReplaceIfPresent(hand, joker, joker);
    }
  }

  /** Replacing the black joker changes neither the red joker's presence nor which red cards are free. */
  lemma BlackStepKeepsRed(hand: seq<Card>, b: Card)
    requires CandidateFor(BlackJoker, "SC", hand, b)
    ensures var q := ReplaceIfPresent(hand, BlackJoker, b);
      && |q| == |hand|
      && (RedJoker in q <==> RedJoker in hand)
      && forall r :: CandidateFor(RedJoker, "HD", q, r) <==> CandidateFor(RedJoker, "HD", hand, r)
  {
    var q := ReplaceIfPresent(hand, BlackJoker, b);
    if BlackJoker in hand {
      assert b.suit in "SC";
      assert multiset(q) == multiset(hand) - multiset{BlackJoker} + multiset{b};
      assert multiset(q)[RedJoker] == multiset(hand)[RedJoker];
      forall r | r in GetCards("HD") ensures r in q <==> r in hand {
        assert r.suit in "HD";
        assert r != b && r != BlackJoker;
        assert multiset(q)[r] == multiset(hand)[r];
      }
      forall r ensures CandidateFor(RedJoker, "HD", q, r) <==> CandidateFor(RedJoker, "HD", hand, r) {
      }
    }
  }

  /** The red step applied to one black resolution gives exactly its red resolutions. */
  lemma RedStep(hand: seq<Card>, b: Card)
    requires |hand| <= 26 && CandidateFor(BlackJoker, "SC", hand, b)
    ensures var q := ReplaceIfPresent(hand, BlackJoker, b);
      forall p :: p in ReplacedHands(RedJoker, "HD", q) <==> exists r :: Resolves(hand, p, b, r)
  {
    RankTable();
    var q := ReplaceIfPresent(hand, BlackJoker, b);
    BlackStepKeepsRed(hand, b);
    ReplacedHandsAreReplacements(RedJoker, "HD", q);
    forall p | p in ReplacedHands(RedJoker, "HD", q) ensures exists r :: Resolves(hand, p, b, r) {
      var r :| CandidateFor(RedJoker, "HD", q, r) && p == ReplaceIfPresent(q, RedJoker, r);
      assert Resolves(hand, p, b, r);
    }
  }

  /** One joker step on a hand holding that joker at most once: size kept, the joker gone, the other cards kept, nothing new but `card`. */
  lemma StepShape(hand: seq<Card>, joker: Card, card: Card)
    requires Count(hand, joker) <= 1 && (joker in hand ==> card != joker)
    ensures var q := ReplaceIfPresent(hand, joker, card);
      && |q| == |hand| && joker !in q
      && (forall c :: c != joker && c != card ==> Count(q, c) == Count(hand, c))
      && (forall c :: c != joker ==> Count(hand, c) <= Count(q, c))
      && (forall c :: c in q ==> c in hand || c == card)
  {
    var q := ReplaceIfPresent(hand, joker, card);
    if joker in hand {
      assert multiset(q) == multiset(hand) - multiset{joker} + multiset{card};
      assert multiset(q)[joker] == 0;
      forall c | c in q ensures c in hand || c == card {
        assert c in multiset(q);
      }
    }
  }

  /** The jokers have no rank in the table. */
  lemma JokersUnranked()
    ensures !HasRank(BlackJoker) && !HasRank(RedJoker)
  {
    RankTable();
  }

  lemma ResolvesShape(hand: seq<Card>, p: seq<Card>, b: Card, r: Card)
    requires Count(hand, BlackJoker) <= 1 && Count(hand, RedJoker) <= 1
    requires Resolves(hand, p, b, r)
    ensures |p| == |hand| && BlackJoker !in p && RedJoker !in p
    ensures forall c :: c != BlackJoker && c != RedJoker ==> Count(hand, c) <= Count(p, c)
    ensures forall c :: c in p ==> c in hand || (c == b && HasRank(b)) || (c == r && HasRank(r))
  {
    JokersUnranked();
    var q := ReplaceIfPresent(hand, BlackJoker, b);
    if BlackJoker in hand {
      CardsHaveRankAndSuit("SC", b);
    }
    StepShape(hand, BlackJoker, b);
    if RedJoker in q {
      CardsHaveRankAndSuit("HD", r);
    }
    StepShape(q, RedJoker, r);
  }

  /** What a resolution keeps and removes: same size, no joker left, every ordinary card kept. */
  lemma ResolutionShape(hand: seq<Card>, p: seq<Card>)
    requires Count(hand, BlackJoker) <= 1 && Count(hand, RedJoker) <= 1
    requires IsResolution(hand, p)
    ensures |p| == |hand| && BlackJoker !in p && RedJoker !in p
    ensures forall c :: c != BlackJoker && c != RedJoker ==> Count(hand, c) <= Count(p, c)
    ensures (forall c :: c in hand && c != BlackJoker && c != RedJoker ==> HasRank(c)) ==> AllRanked(p)
  {
    var b, r :| Resolves(hand, p, b, r);
    ResolvesShape(hand, p, b, r);
    JokersUnranked();
  }

  /**
   * For a hand with at most 26 cards, `get_combinations_without_joker`
   * yields exactly the resolutions of the hand.
   */
  lemma JokerFreePoolsAreResolutions(hand: seq<Card>)
    requires |hand| <= 26
    ensures forall p :: p in JokerFreePools(hand) <==> IsResolution(hand, p)
  {
    RankTable();
    var black := ReplacedHands(BlackJoker, "SC", hand);
    ReplacedHandsAreReplacements(BlackJoker, "SC", hand);
    ResolveRedMembers(black);
    forall p | p in JokerFreePools(hand) ensures IsResolution(hand, p) {
      var q :| q in black && p in ReplacedHands(RedJoker, "HD", q);
      var b :| CandidateFor(BlackJoker, "SC", hand, b) && q == ReplaceIfPresent(hand, BlackJoker, b);
      RedStep(hand, b);
    }
    forall p | IsResolution(hand, p) ensures p in JokerFreePools(hand) {
      var b, r :| Resolves(hand, p, b, r);
      var q := ReplaceIfPresent(hand, BlackJoker, b);
      assert q in black;
      RedStep(hand, b);
      assert p in ReplacedHands(RedJoker, "HD", q);
    }
  }
}
