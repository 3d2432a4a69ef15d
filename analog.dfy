/** The analog matcher: a customer's "elite analogous rater" is the elite
    member whose ratings of popular items are closest to the customer's.
 */
module Analog {
  import opened Tables
  import opened Bags

  function Abs(x: int): nat
  {
    if x < 0 then -x else x
  }

  /** |cust's score − `er`'s rating| for each of cust's Rating rows on `er`'s item. */
  function CustDifferences(cust: int, ratings: seq<RatingRow>, er: EliteRatingRow): seq<nat>
  {
    if |ratings| == 0 then []
    else
      var r := ratings[0];
      (if r.cid == cust && r.item == er.item then [Abs(r.score - er.rating)] else [])
      + CustDifferences(cust, ratings[1..], er)
  }

  /** The rating differences between cust and elite member `e`: one per pair of
      a Rating row of cust and an EliteRating row of e on the same item, that
      item being in PopularItem. */
  function DifferencesFrom(cust: int, e: int, ratings: seq<RatingRow>, popular: seq<PopularRow>,
                           eliteRating: seq<EliteRatingRow>): seq<nat>
  {
    if |eliteRating| == 0 then []
    else
      var er := eliteRating[0];
      (if er.cid == e && InPopular(popular, er.item) then CustDifferences(cust, ratings, er) else [])
      + DifferencesFrom(cust, e, ratings, popular, eliteRating[1..])
  }

  function Differences(db: Database, cust: int, e: int): seq<nat>
  {
    DifferencesFrom(cust, e, db.base.ratings, db.popularItem, db.eliteRating)
  }

  function SumNat(s: seq<nat>): nat
  {
    if |s| == 0 then 0 else s[0] + SumNat(s[1..])
  }

  /** The "average rating difference" between cust and `e`: NULL when they
      rated no popular item in common. */
  function AvgDifference(db: Database, cust: int, e: int): Option<real>
  {
    var d := Differences(db, cust, e);
    if |d| == 0 then None else Some(SumNat(d) as real / |d| as real)
  }

  /** cust and `e` both rated some item of PopularItem, e's rating being the
      one recorded in EliteRating. */
  ghost predicate SharePopularItem(db: Database, cust: int, e: int)
  {
    exists er, r :: er in db.eliteRating && r in db.base.ratings &&
      er.cid == e && InPopular(db.popularItem, er.item) && r.cid == cust && r.item == er.item
  }

  lemma {:induction false} CustDifferencesEmpty(cust: int, ratings: seq<RatingRow>, er: EliteRatingRow)
    ensures CustDifferences(cust, ratings, er) == [] <==>
      forall r :: r in ratings ==> r.cid != cust || r.item != er.item
  {
    if |ratings| > 0 {
      CustDifferencesEmpty(cust, ratings[1..], er);
      assert ratings == [ratings[0]] + ratings[1..];
    }
  }

  lemma {:induction false} DifferencesFromEmpty(cust: int, e: int, ratings: seq<RatingRow>, popular: seq<PopularRow>,
                                                eliteRating: seq<EliteRatingRow>)
    ensures DifferencesFrom(cust, e, ratings, popular, eliteRating) == [] <==>
      forall er, r :: er in eliteRating && r in ratings && er.cid == e && InPopular(popular, er.item)
        ==> r.cid != cust || r.item != er.item
  {
    if |eliteRating| > 0 {
      DifferencesFromEmpty(cust, e, ratings, popular, eliteRating[1..]);
      CustDifferencesEmpty(cust, ratings, eliteRating[0]);
      assert eliteRating == [eliteRating[0]] + eliteRating[1..];
    }
  }

  /** The average difference is NULL exactly when cust and `e` share no rated popular item. */
  lemma AvgDifferenceNullIffNothingShared(db: Database, cust: int, e: int)
    ensures AvgDifference(db, cust, e).None? <==> !SharePopularItem(db, cust, e)
  {
    DifferencesFromEmpty(cust, e, db.base.ratings, db.popularItem, db.eliteRating);
  }

  /** cust and `e` gave the same score to every popular item they both rated. */
  ghost predicate AgreeOnShared(db: Database, cust: int, e: int)
  {
    forall er, r :: er in db.eliteRating && r in db.base.ratings &&
      er.cid == e && InPopular(db.popularItem, er.item) && r.cid == cust && r.item == er.item
      ==> r.score == er.rating
  }

  lemma {:induction false} CustDifferencesZero(cust: int, ratings: seq<RatingRow>, er: EliteRatingRow)
    requires forall r :: r in ratings && r.cid == cust && r.item == er.item ==> r.score == er.rating
    ensures SumNat(CustDifferences(cust, ratings, er)) == 0
  {
    if |ratings| > 0 {
      CustDifferencesZero(cust, ratings[1..], er);
      SumNatAppend(if ratings[0].cid == cust && ratings[0].item == er.item then [0] else [],
                   CustDifferences(cust, ratings[1..], er));
    }
  }

  lemma {:induction false} DifferencesFromZero(cust: int, e: int, ratings: seq<RatingRow>, popular: seq<PopularRow>,
                                               eliteRating: seq<EliteRatingRow>)
    requires forall er, r ::
               (er in eliteRating && r in ratings && er.cid == e && InPopular(popular, er.item) &&
                r.cid == cust && r.item == er.item) ==> r.score == er.rating
    ensures SumNat(DifferencesFrom(cust, e, ratings, popular, eliteRating)) == 0
  {
    if |eliteRating| > 0 {
      var er := eliteRating[0];
      DifferencesFromZero(cust, e, ratings, popular, eliteRating[1..]);
      if er.cid == e && InPopular(popular, er.item) {
        CustDifferencesZero(cust, ratings, er);
      }
      SumNatAppend(if er.cid == e && InPopular(popular, er.item) then CustDifferences(cust, ratings, er) else [],
                   DifferencesFrom(cust, e, ratings, popular, eliteRating[1..]));
    }
  }

  lemma {:induction false} SumNatAppend(a: seq<nat>, b: seq<nat>)
    ensures SumNat(a + b) == SumNat(a) + SumNat(b)
  {
    if |a| > 0 {
      SumNatAppend(a[1..], b);
      assert (a + b)[1..] == a[1..] + b;
    } else {
      assert a + b == b;
    }
  }

  /** An elite member who agrees with cust on every shared popular item has
      an average difference of exactly 0, so nobody is strictly closer. */
  lemma AgreeingRaterHasZeroDifference(db: Database, cust: int, e: int)
    requires SharePopularItem(db, cust, e) && AgreeOnShared(db, cust, e)
    ensures AvgDifference(db, cust, e) == Some(0.0)
  {
    AvgDifferenceNullIffNothingShared(db, cust, e);
    DifferencesFromZero(cust, e, db.base.ratings, db.popularItem, db.eliteRating);
  }

  /** Ordering of the candidates for analogous rater: a lower average
      difference wins, and on equal differences the lower cid. */
  predicate Closer(d1: real, e1: int, d2: real, e2: int)
  {
    d1 < d2 || (d1 == d2 && e1 <= e2)
  }

  /** The elite analogous rater of cust among the EliteMember rows `elite`. */
  function AnalogFrom(db: Database, cust: int, elite: seq<int>): (r: Option<int>)
    ensures r.None? <==> forall e :: e in elite ==> AvgDifference(db, cust, e).None?
    ensures r.Some? ==> r.value in elite && AvgDifference(db, cust, r.value).Some?
    ensures r.Some? ==> forall e :: e in elite && AvgDifference(db, cust, e).Some? ==>
      Closer(AvgDifference(db, cust, r.value).value, r.value, AvgDifference(db, cust, e).value, e)
  {
    if |elite| == 0 then None
    else
      var rest := AnalogFrom(db, cust, elite[1..]);
      var e := elite[0];
      assert elite == [e] + elite[1..];
      match AvgDifference(db, cust, e)
      case None => rest
      case Some(d) =>
        if rest.None? || Closer(d, e, AvgDifference(db, cust, rest.value).value, rest.value) then Some(e)
        else rest
  }

  /** cust's elite analogous rater, or NULL when no elite member has a
      non-NULL average difference with cust. */
  function AnalogousRater(db: Database, cust: int): Option<int>
  {
    AnalogFrom(db, cust, db.base.eliteMembers)
  }

  /** The analogous rater shares a rated popular item with cust, and has the
      lowest average difference; on a tie, it has the lower cid. An elite
      member sharing nothing with cust is never chosen. */
  lemma AnalogousRaterIsClosest(db: Database, cust: int)
    ensures AnalogousRater(db, cust).None? <==>
      forall e :: e in db.base.eliteMembers ==> !SharePopularItem(db, cust, e)
    ensures AnalogousRater(db, cust).Some? ==>
      var a := AnalogousRater(db, cust).value;
      a in db.base.eliteMembers && SharePopularItem(db, cust, a) && AvgDifference(db, cust, a).Some? &&
      forall e :: e in db.base.eliteMembers && SharePopularItem(db, cust, e) ==>
        AvgDifference(db, cust, e).Some? &&
        Closer(AvgDifference(db, cust, a).value, a, AvgDifference(db, cust, e).value, e)
  {
    forall e | e in db.base.eliteMembers || (AnalogousRater(db, cust).Some? && e == AnalogousRater(db, cust).value) {
      AvgDifferenceNullIffNothingShared(db, cust, e);
    }
  }

  /** Of two elite members with the same non-NULL difference, the higher cid is not chosen. */
  lemma AnalogTieGoesToLowerCid(db: Database, cust: int, e1: int, e2: int)
    requires e1 in db.base.eliteMembers && e2 in db.base.eliteMembers && e1 < e2
    requires AvgDifference(db, cust, e1).Some? && AvgDifference(db, cust, e1) == AvgDifference(db, cust, e2)
    ensures AnalogousRater(db, cust) != Some(e2)
  {
  }

  // ---------------------------------------------------------------------
  // Independence from the order of rows
  // ---------------------------------------------------------------------

  /** What one Rating row contributes to CustDifferences for `er`. */
  function CustDifferenceOf(cust: int, er: EliteRatingRow): RatingRow -> seq<nat>
  {
    (r: RatingRow) => if r.cid == cust && r.item == er.item then [Abs(r.score - er.rating)] else []
  }

  lemma {:induction false} CustDifferencesIsFlatMap(cust: int, ratings: seq<RatingRow>, er: EliteRatingRow)
    ensures CustDifferences(cust, ratings, er) == FlatMap(CustDifferenceOf(cust, er), ratings)
  {
    if |ratings| > 0 {
      CustDifferencesIsFlatMap(cust, ratings[1..], er);
    }
  }

  /** What one EliteRating row contributes to DifferencesFrom. */
  function EliteDifferencesOf(cust: int, e: int, ratings: seq<RatingRow>, popular: seq<PopularRow>)
    : EliteRatingRow -> seq<nat>
  {
    (er: EliteRatingRow) => if er.cid == e && InPopular(popular, er.item) then CustDifferences(cust, ratings, er) else []
  }

  lemma {:induction false} DifferencesFromIsFlatMap(cust: int, e: int, ratings: seq<RatingRow>,
                                                    popular: seq<PopularRow>, eliteRating: seq<EliteRatingRow>)
    ensures DifferencesFrom(cust, e, ratings, popular, eliteRating) ==
      FlatMap(EliteDifferencesOf(cust, e, ratings, popular), eliteRating)
  {
    if |eliteRating| > 0 {
      DifferencesFromIsFlatMap(cust, e, ratings, popular, eliteRating[1..]);
    }
  }

  /** A sum does not depend on the order of its terms. */
  lemma {:induction false} SumNatPermutation(a: seq<nat>, b: seq<nat>)
    requires multiset(a) == multiset(b)
    ensures SumNat(a) == SumNat(b)
    decreases |a|
  {
    if |a| == 0 {
      assert |b| == |multiset(b)| == 0;
    } else {
      var x := a[0];
      var i := RemoveOne(a, b);
      var b' := b[..i] + b[i + 1..];
      assert b == b[..i] + ([x] + b[i + 1..]);
      SumNatPermutation(a[1..], b');
      SumNatAppend(b[..i], [x] + b[i + 1..]);
      SumNatAppend([x], b[i + 1..]);
      SumNatAppend(b[..i], b[i + 1..]);
    }
  }

  /** Databases holding the same rows give the same rating differences, perhaps in another order. */
  lemma DifferencesIgnoreRowOrder(db1: Database, db2: Database, cust: int, e: int)
    requires SameRows(db1, db2)
    ensures multiset(Differences(db1, cust, e)) == multiset(Differences(db2, cust, e))
  {
    var r1, r2 := db1.base.ratings, db2.base.ratings;
    var p1, p2 := db1.popularItem, db2.popularItem;
    var f1 := EliteDifferencesOf(cust, e, r1, p1);
    var f2 := EliteDifferencesOf(cust, e, r2, p2);
    DifferencesFromIsFlatMap(cust, e, r1, p1, db1.eliteRating);
    DifferencesFromIsFlatMap(cust, e, r2, p2, db2.eliteRating);
    FlatMapPermutation(f1, db1.eliteRating, db2.eliteRating);
    assert forall p :: p in p1 <==> p in p2 by {
      forall p ensures p in p1 <==> p in p2 {
        assert p in p1 <==> p in multiset(p1);
        assert p in p2 <==> p in multiset(p2);
      }
    }
    forall er | er in db2.eliteRating ensures multiset(f1(er)) == multiset(f2(er)) {
      assert InPopular(p1, er.item) == InPopular(p2, er.item);
      CustDifferencesIsFlatMap(cust, r1, er);
      CustDifferencesIsFlatMap(cust, r2, er);
      FlatMapPermutation(CustDifferenceOf(cust, er), r1, r2);
    }
    FlatMapPointwise(f1, f2, db2.eliteRating);
  }

  /** The average rating difference depends on the rows of the tables, not on their order. */
  lemma AvgDifferenceIgnoresRowOrder(db1: Database, db2: Database, cust: int, e: int)
    requires SameRows(db1, db2)
    ensures AvgDifference(db1, cust, e) == AvgDifference(db2, cust, e)
  {
    var d1, d2 := Differences(db1, cust, e), Differences(db2, cust, e);
    DifferencesIgnoreRowOrder(db1, db2, cust, e);
    assert |d1| == |multiset(d1)| == |multiset(d2)| == |d2|;
    SumNatPermutation(d1, d2);
  }

  /** The elite analogous rater depends on the rows of the tables, not on their order. */
  lemma AnalogousRaterIgnoresRowOrder(db1: Database, db2: Database, cust: int)
    requires SameRows(db1, db2)
    ensures AnalogousRater(db1, cust) == AnalogousRater(db2, cust)
  {
    var el1, el2 := db1.base.eliteMembers, db2.base.eliteMembers;
    forall e ensures AvgDifference(db1, cust, e) == AvgDifference(db2, cust, e) {
      AvgDifferenceIgnoresRowOrder(db1, db2, cust, e);
    }
    forall e ensures e in el1 <==> e in el2 {
      assert e in el1 <==> e in multiset(el1);
      assert e in el2 <==> e in multiset(el2);
    }
  }
}
