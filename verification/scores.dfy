/**
 * Hand scores.  `hand_rank` returns a Python tuple whose first item is the
 * category 0..8 and whose remaining items break ties; Python compares such
 * tuples item by item, and a tuple that is a proper prefix of another is the
 * smaller one.  Within one category every tuple has the same shape, so the
 * items after the category can be flattened into one list of integers
 * without changing any comparison.  The search starts from the tuple `(0,)`,
 * which is the `Sentinel` here.
 */
module Scores {

  datatype Score = Score(category: nat, tiebreak: seq<int>)

  /** The starting value `(0,)` of the best-hand search. */
  const Sentinel: Score := Score(0, [])

  /** Python's `<` on lists of integers: lexicographic, a proper prefix is smaller. */
  predicate SeqLess(a: seq<int>, b: seq<int>)
  {
    if a == [] then b != []
    else b != [] && (a[0] < b[0] || (a[0] == b[0] && SeqLess(a[1..], b[1..])))
  }

  /** Python's `<` on score tuples. */
  predicate Less(a: Score, b: Score)
  {
    a.category < b.category || (a.category == b.category && SeqLess(a.tiebreak, b.tiebreak))
  }

  lemma {:induction false} SeqLessIrreflexive(a: seq<int>)
    ensures !SeqLess(a, a)
  {
    if a != [] {
      SeqLessIrreflexive(a[1..]);
    }
  }

  lemma {:induction false} SeqLessTransitive(a: seq<int>, b: seq<int>, c: seq<int>)
    requires SeqLess(a, b) && SeqLess(b, c)
    ensures SeqLess(a, c)
  {
    if a != [] && a[0] == b[0] && b[0] == c[0] {
      SeqLessTransitive(a[1..], b[1..], c[1..]);
    }
  }

  lemma {:induction false} SeqLessTotal(a: seq<int>, b: seq<int>)
    requires a != b
    ensures SeqLess(a, b) || SeqLess(b, a)
  {
    if a != [] && b != [] && a[0] == b[0] {
      assert a == [a[0]] + a[1..] && b == [b[0]] + b[1..];
      SeqLessTotal(a[1..], b[1..]);
    }
  }

  /** Score comparison is a strict total order: irreflexive, transitive and total. */
  lemma LessIsStrictTotalOrder()
    ensures forall a: Score :: !Less(a, a)
    ensures forall a: Score, b: Score, c: Score :: Less(a, b) && Less(b, c) ==> Less(a, c)
    ensures forall a: Score, b: Score :: a != b ==> Less(a, b) || Less(b, a)
  {
    forall a: Score {
      SeqLessIrreflexive(a.tiebreak);
    }
    forall a: Score, b: Score, c: Score | Less(a, b) && Less(b, c) ensures Less(a, c) {
      if a.category == b.category == c.category {
        SeqLessTransitive(a.tiebreak, b.tiebreak, c.tiebreak);
      }
    }
    forall a: Score, b: Score | a != b ensures Less(a, b) || Less(b, a) {
      if a.category == b.category {
        SeqLessTotal(a.tiebreak, b.tiebreak);
      }
    }
  }

  /** `(0,)` is below every score that carries tie-break items. */
  lemma SentinelIsLeast(s: Score)
    requires s.tiebreak != []
    ensures Less(Sentinel, s)
  {
  }
}
