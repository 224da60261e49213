/** The order in which the answers to a community question are shown. */
module AnswerRanking {
  import opened GoStrings
  import opened Sorting

  /** `id` is the printed form of the answer's UUID. */
  datatype AnswerRank = AnswerRank(id: string, isOfficial: bool, isAccepted: bool, helpfulCount: int, publishedAt: int)

  predicate Less(x: AnswerRank, y: AnswerRank) {
    if x.isOfficial != y.isOfficial then x.isOfficial
    else if x.isAccepted != y.isAccepted then x.isAccepted
    else if x.helpfulCount != y.helpfulCount then x.helpfulCount > y.helpfulCount
    else if x.publishedAt != y.publishedAt then x.publishedAt < y.publishedAt
    else StringLess(x.id, y.id)
  }

  function Ranked(items: seq<AnswerRank>): seq<AnswerRank> {
    InsertionSorted(items, Less)
  }

  method RankAnswers(items: array<AnswerRank>)
    modifies items
    ensures items[..] == Ranked(old(items[..]))
  {
    SliceStable(items, Less);
  }

  /** The comparator is a strict total order on answers. */
  lemma LessIsStrictTotal()
    ensures StrictTotal(Less)
  {
    forall x: AnswerRank, y: AnswerRank
      ensures !Less(x, x) && (x == y || Less(x, y) || Less(y, x))
    {
      StringLessTotal(x.id, x.id);
      StringLessTotal(x.id, y.id);
    }
    forall x: AnswerRank, y: AnswerRank, z: AnswerRank | Less(x, y) && Less(y, z) ensures Less(x, z) {
      if StringLess(x.id, y.id) && StringLess(y.id, z.id) {
        StringLessTransitive(x.id, y.id, z.id);
      }
    }
  }

  /** `x` may stand before `y`: each criterion decides only between answers equal on the earlier ones. */
  predicate MayPrecede(x: AnswerRank, y: AnswerRank) {
    && (y.isOfficial ==> x.isOfficial)
    && (x.isOfficial == y.isOfficial && y.isAccepted ==> x.isAccepted)
    && (x.isOfficial == y.isOfficial && x.isAccepted == y.isAccepted ==> x.helpfulCount >= y.helpfulCount)
    && (x.isOfficial == y.isOfficial && x.isAccepted == y.isAccepted && x.helpfulCount == y.helpfulCount
        ==> x.publishedAt <= y.publishedAt)
    && (x.(id := "") == y.(id := "") ==> x.id == y.id || StringLess(x.id, y.id))
  }

  /** Ranking rearranges the answers into the documented order. */
  lemma RankedInOrder(items: seq<AnswerRank>)
    ensures multiset(Ranked(items)) == multiset(items)
    ensures forall i, j :: 0 <= i < j < |items| ==> MayPrecede(Ranked(items)[i], Ranked(items)[j])
  {
    LessIsStrictTotal();
    SortingPermutes(items, Less);
    SortedResult(items, Less);
    forall i, j | 0 <= i < j < |items| ensures MayPrecede(Ranked(items)[i], Ranked(items)[j]) {
      var x, y := Ranked(items)[i], Ranked(items)[j];
      assert !Less(y, x);
      StringLessTotal(x.id, y.id);
    }
  }

  /** The outcome is canonical: it does not depend on the order the answers arrive in, and it is the
      only arrangement in the documented order. */
  lemma RankingIsCanonical(items: seq<AnswerRank>, other: seq<AnswerRank>)
    requires multiset(items) == multiset(other)
    ensures Ranked(items) == Ranked(other)
    ensures (forall i, j :: 0 <= i < j < |other| ==> MayPrecede(other[i], other[j])) ==> other == Ranked(items)
  {
    LessIsStrictTotal();
    SortedResult(items, Less);
    SortedResult(other, Less);
    SortingPermutes(items, Less);
    SortingPermutes(other, Less);
    SortedUnique(Ranked(items), Ranked(other), Less);
    if forall i, j :: 0 <= i < j < |other| ==> MayPrecede(other[i], other[j]) {
      forall i, j | 0 <= i < j < |other| ensures !Less(other[j], other[i]) {
        StringLessTotal(other[i].id, other[j].id);
        assert MayPrecede(other[i], other[j]);
      }
      SortedUnique(other, Ranked(items), Less);
    }
  }
}
