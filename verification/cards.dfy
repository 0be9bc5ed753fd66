/**
 * Cards as the evaluator writes them: a two-character token, rank character
 * then suit character ("TH" is the ten of hearts).  The two jokers of the
 * wild variant are the tokens "?B" (black) and "?R" (red).
 */
module Cards {

  datatype Card = Card(rank: char, suit: char)

  const BlackJoker: Card := Card('?', 'B')
  const RedJoker: Card := Card('?', 'R')

  /** The rank characters in the order the rank table lists them, two to ace. */
  const RankChars: seq<char> := "23456789TJQKA"

  /** The rank table `int_ranks`: rank character to its value 2..14. */
  const IntRanks: map<char, int> := map[
    '2' := 2, '3' := 3, '4' := 4, '5' := 5, '6' := 6, '7' := 7, '8' := 8,
    '9' := 9, 'T' := 10, 'J' := 11, 'Q' := 12, 'K' := 13, 'A' := 14]

  /** The table knows this card's rank character (otherwise the lookup raises KeyError). */
  predicate HasRank(c: Card)
  {
    c.rank in IntRanks
  }

  predicate AllRanked(hand: seq<Card>)
  {
    forall c :: c in hand ==> HasRank(c)
  }

  function RankValue(c: Card): (v: int)
    requires HasRank(c)
    ensures 2 <= v <= 14
  {
    IntRanks[c.rank]
  }

  /**
   * The table lists thirteen rank characters, in increasing value from 2 to
   * 14, and knows no other character (in particular not the joker's '?').
   */
  lemma RankTable()
    ensures |RankChars| == 13
    ensures forall i :: 0 <= i < |RankChars| ==> RankChars[i] in IntRanks && IntRanks[RankChars[i]] == i + 2
    ensures forall ch :: ch in IntRanks <==> ch in RankChars
    ensures '?' !in IntRanks
  {
  }

  lemma RankCharsDistinct()
    ensures forall i, j :: 0 <= i < j < |RankChars| ==> RankChars[i] != RankChars[j]
  {
    RankTable();
  }
}
