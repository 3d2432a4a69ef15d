/** The two recommenders, as functions of the database state: the generic
    one ranks PopularItem by average rating; the personal one ranks what the
    customer's elite analogous rater rated and the customer never bought.
 */
module Recommendation {
  import opened Tables
  import opened Ranking
  import opened Analog
  import opened Bags

  /** A PopularItem row as a rankable candidate: the item and its average rating. */
  function PopularCandidate(p: PopularRow): Candidate
  {
    Candidate(p.item, p.avgRating)
  }

  function PopularCandidates(popular: seq<PopularRow>): seq<Candidate>
  {
    seq(|popular|, i requires 0 <= i < |popular| => PopularCandidate(popular[i]))
  }

  /** The generic recommendation: the ids of the top k PopularItem rows by
      average rating, NULL below every rating, ties cut by the lower item id. */
  function GenericRecommendation(popular: seq<PopularRow>, k: nat): seq<int>
  {
    Ids(TopK(PopularCandidates(popular), k))
  }

  /** `p` is ranked before `q` by the generic recommender. */
  predicate RatedBefore(p: PopularRow, q: PopularRow)
  {
    RanksBefore(PopularCandidate(p), PopularCandidate(q))
  }

  lemma PopularCandidatesFacts(popular: seq<PopularRow>)
    requires PopularKeyed(popular)
    ensures var cs := PopularCandidates(popular);
      && DistinctIds(cs)
      && (forall p :: p in popular ==> PopularCandidate(p) in cs)
      && (forall c :: c in cs ==> exists p :: p in popular && c == PopularCandidate(p))
  {
    var cs := PopularCandidates(popular);
    forall p | p in popular ensures PopularCandidate(p) in cs {
      var i :| 0 <= i < |popular| && popular[i] == p;
      assert cs[i] == PopularCandidate(p);
    }
    forall c | c in cs ensures exists p :: p in popular && c == PopularCandidate(p) {
      var i :| 0 <= i < |cs| && cs[i] == c;
      assert popular[i] in popular;
    }
  }

  /** The generic recommendation lists min(k, |PopularItem|) distinct popular
      items, best first; every listed item is ranked before every popular
      item left out. */
  lemma GenericRecommendationSpec(popular: seq<PopularRow>, k: nat)
    requires PopularKeyed(popular)
    ensures var r := GenericRecommendation(popular, k);
      && |r| == Min(k, |popular|)
      && (forall i :: 0 <= i < |r| ==> InPopular(popular, r[i]))
      && (forall i, j :: 0 <= i < j < |r| ==> r[i] != r[j])
      && (forall i, j, p, q ::
            (0 <= i < j < |r| && p in popular && q in popular && p.item == r[i] && q.item == r[j])
            ==> RatedBefore(p, q))
      && (forall p, q :: p in popular && q in popular && p.item in r && q.item !in r ==> RatedBefore(p, q))
  {
    var cs := PopularCandidates(popular);
    var r := GenericRecommendation(popular, k);
    PopularCandidatesFacts(popular);
    TopKIds(cs, k);
    forall i | 0 <= i < |r| ensures InPopular(popular, r[i]) {
      var c :| c in cs && c.id == r[i];
      var p :| p in popular && c == PopularCandidate(p);
    }
  }

  /** An item with a NULL average is recommended only once every rated popular item is. */
  lemma NullAverageRanksLowest(popular: seq<PopularRow>, k: nat, p: PopularRow, q: PopularRow)
    requires PopularKeyed(popular)
    requires p in popular && q in popular && p.avgRating.Some? && q.avgRating.None?
    requires q.item in GenericRecommendation(popular, k)
    ensures p.item in GenericRecommendation(popular, k)
  {
    GenericRecommendationSpec(popular, k);
    assert !RatedBefore(q, p);
  }

  /** The generic recommendation depends on PopularItem's rows, not on their order. */
  lemma GenericIgnoresRowOrder(popular1: seq<PopularRow>, popular2: seq<PopularRow>, k: nat)
    requires PopularKeyed(popular1) && PopularKeyed(popular2)
    requires |popular1| == |popular2| && forall p :: p in popular1 <==> p in popular2
    ensures GenericRecommendation(popular1, k) == GenericRecommendation(popular2, k)
  {
    var cs1, cs2 := PopularCandidates(popular1), PopularCandidates(popular2);
    PopularCandidatesFacts(popular1);
    PopularCandidatesFacts(popular2);
    TopKOrderIndependent(cs1, cs2, k);
  }

  /** An empty PopularItem table gives an empty recommendation. */
  lemma GenericOfEmptyIsEmpty(k: nat)
    ensures GenericRecommendation([], k) == []
  {
  }

  const TestPopularItems: seq<PopularRow> :=
    [PopularRow(2, Some(3.5)), PopularRow(4, Some(3.5)), PopularRow(3, Some(2.5))]

  /** PopularItem holding (2, 3.5), (4, 3.5) and (3, 2.5), in that order:
      the top 2 are items 2 and 4, the tie on 3.5 listed by item id. */
  lemma GenericScenarioListed()
    ensures GenericRecommendation(TestPopularItems, 2) == [2, 4]
  {
    var cs := PopularCandidates(TestPopularItems);
    assert cs == [Candidate(2, Some(3.5)), Candidate(4, Some(3.5)), Candidate(3, Some(2.5))];
    assert BestIndex(cs) == 0;
    var others := RemoveAt(cs, 0);
    assert others == [Candidate(4, Some(3.5)), Candidate(3, Some(2.5))];
    assert BestIndex(others) == 0;
    assert TopK(cs, 2) == [cs[0], others[0]];
  }

  /** The same three rows in any order give [2, 4] too. */
  lemma GenericScenario(popular: seq<PopularRow>)
    requires PopularKeyed(popular) && |popular| == 3
    requires forall p :: p in popular <==>
      p == PopularRow(2, Some(3.5)) || p == PopularRow(4, Some(3.5)) || p == PopularRow(3, Some(2.5))
    ensures GenericRecommendation(popular, 2) == [2, 4]
  {
    var listed := TestPopularItems;
    forall p ensures p in popular <==> p in listed {
      assert p in listed <==> p == listed[0] || p == listed[1] || p == listed[2];
    }
    assert PopularKeyed(listed);
    GenericIgnoresRowOrder(popular, listed, 2);
    GenericScenarioListed();
  }

  /** The item id decides only among equal ratings: PopularItem holding
      (100, 5.0), (1, 4.0) and (2, 4.0) with k = 2 gives [100, 1], not the
      two lowest ids [1, 2]. */
  lemma GenericTieBreakOnlyAmongEqualRatings()
    ensures GenericRecommendation([PopularRow(100, Some(5.0)), PopularRow(1, Some(4.0)), PopularRow(2, Some(4.0))], 2)
      == [100, 1]
  {
    var cs := PopularCandidates([PopularRow(100, Some(5.0)), PopularRow(1, Some(4.0)), PopularRow(2, Some(4.0))]);
    assert cs == [Candidate(100, Some(5.0)), Candidate(1, Some(4.0)), Candidate(2, Some(4.0))];
    assert BestIndex(cs) == 0;
    var others := RemoveAt(cs, 0);
    assert others == [Candidate(1, Some(4.0)), Candidate(2, Some(4.0))];
    assert BestIndex(others) == 0;
    assert TopK(cs, 2) == [cs[0], others[0]];
  }

  /** A Rating row the personal recommender may draw on: rated by `rater`
      and of an item `cust` never bought. */
  predicate Recommendable(purchases: seq<PurchaseRow>, rater: int, cust: int, r: RatingRow)
  {
    r.cid == rater && !Bought(purchases, cust, r.item)
  }

  function RatingCandidate(r: RatingRow): Candidate
  {
    Candidate(r.item, Some(r.score as real))
  }

  /** The items `rater` rated and `cust` never bought, each with rater's score. */
  function PersonalCandidates(ratings: seq<RatingRow>, purchases: seq<PurchaseRow>, rater: int, cust: int)
    : seq<Candidate>
  {
    if |ratings| == 0 then []
    else
      (if Recommendable(purchases, rater, cust, ratings[0]) then [RatingCandidate(ratings[0])] else [])
      + PersonalCandidates(ratings[1..], purchases, rater, cust)
  }

  lemma {:induction false} PersonalCandidatesMembers(ratings: seq<RatingRow>, purchases: seq<PurchaseRow>,
                                                     rater: int, cust: int)
    ensures forall r :: r in ratings && Recommendable(purchases, rater, cust, r) ==>
      RatingCandidate(r) in PersonalCandidates(ratings, purchases, rater, cust)
    ensures forall c :: c in PersonalCandidates(ratings, purchases, rater, cust) ==>
      exists r :: r in ratings && Recommendable(purchases, rater, cust, r) && c == RatingCandidate(r)
  {
    if |ratings| > 0 {
      PersonalCandidatesMembers(ratings[1..], purchases, rater, cust);
      assert ratings == [ratings[0]] + ratings[1..];
    }
  }

  lemma {:induction false} PersonalCandidatesEmpty(ratings: seq<RatingRow>, purchases: seq<PurchaseRow>,
                                                   rater: int, cust: int)
    ensures PersonalCandidates(ratings, purchases, rater, cust) == [] <==>
      forall r :: r in ratings ==> !Recommendable(purchases, rater, cust, r)
  {
    if |ratings| > 0 {
      PersonalCandidatesEmpty(ratings[1..], purchases, rater, cust);
      assert ratings == [ratings[0]] + ratings[1..];
    }
  }

  lemma {:induction false} PersonalCandidatesDistinct(ratings: seq<RatingRow>, purchases: seq<PurchaseRow>,
                                                      rater: int, cust: int)
    requires RatingsKeyed(ratings)
    ensures DistinctIds(PersonalCandidates(ratings, purchases, rater, cust))
  {
    if |ratings| > 0 {
      var tail := ratings[1..];
      var rest := PersonalCandidates(tail, purchases, rater, cust);
      assert RatingsKeyed(tail) by {
        forall i, j | 0 <= i < j < |tail| ensures tail[i].cid != tail[j].cid || tail[i].item != tail[j].item {
          assert tail[i] == ratings[i + 1] && tail[j] == ratings[j + 1];
        }
      }
      PersonalCandidatesDistinct(tail, purchases, rater, cust);
      if Recommendable(purchases, rater, cust, ratings[0]) {
        PersonalCandidatesMembers(tail, purchases, rater, cust);
        forall j | 0 <= j < |rest| ensures rest[j].id != ratings[0].item {
          assert rest[j] in rest;
          var r :| r in tail && Recommendable(purchases, rater, cust, r) && rest[j] == RatingCandidate(r);
          var m :| 0 <= m < |tail| && tail[m] == r;
          assert ratings[m + 1] == r;
        }
        PrependDistinct(RatingCandidate(ratings[0]), rest);
      } else {
        assert PersonalCandidates(ratings, purchases, rater, cust) == rest;
      }
    }
  }

  lemma PrependDistinct(c: Candidate, rest: seq<Candidate>)
    requires DistinctIds(rest)
    requires forall j :: 0 <= j < |rest| ==> rest[j].id != c.id
    ensures DistinctIds([c] + rest)
  {
  }

  /** The recommendation for `cust`: the personal ranking when cust has an
      elite analogous rater who rated something cust never bought, and the
      generic recommendation otherwise. */
  function RecommendationFor(db: Database, cust: int, k: nat): seq<int>
  {
    match AnalogousRater(db, cust)
    case None => GenericRecommendation(db.popularItem, k)
    case Some(e) =>
      var cs := PersonalCandidates(db.base.ratings, db.base.purchases, e, cust);
      if |cs| == 0 then GenericRecommendation(db.popularItem, k)
      else PersonalRecommendation(db.base.ratings, db.base.purchases, e, cust, k)
  }

  /** Without an elite analogous rater, or when cust bought everything the
      rater rated, cust gets the generic recommendation. */
  lemma RecommendFallsBack(db: Database, cust: int, k: nat)
    requires AnalogousRater(db, cust).None? ||
      forall r :: r in db.base.ratings ==>
        !Recommendable(db.base.purchases, AnalogousRater(db, cust).value, cust, r)
    ensures RecommendationFor(db, cust, k) == GenericRecommendation(db.popularItem, k)
  {
    if AnalogousRater(db, cust).Some? {
      var e := AnalogousRater(db, cust).value;
      var cs := PersonalCandidates(db.base.ratings, db.base.purchases, e, cust);
      PersonalCandidatesEmpty(db.base.ratings, db.base.purchases, e, cust);
    }
  }

  /** With an empty EliteMember table, nobody is an analogous rater, so
      every customer gets the generic recommendation. */
  lemma NoEliteMembersGivesGeneric(db: Database, cust: int, k: nat)
    requires db.base.eliteMembers == []
    ensures RecommendationFor(db, cust, k) == GenericRecommendation(db.popularItem, k)
  {
  }

  /** With an elite analogous rater `e` who rated something cust never
      bought, cust gets e's personal ranking. */
  lemma RecommendIsPersonal(db: Database, cust: int, k: nat)
    requires AnalogousRater(db, cust).Some?
    requires exists r :: (r in db.base.ratings &&
      Recommendable(db.base.purchases, AnalogousRater(db, cust).value, cust, r))
    ensures RecommendationFor(db, cust, k) ==
      PersonalRecommendation(db.base.ratings, db.base.purchases, AnalogousRater(db, cust).value, cust, k)
  {
    var e := AnalogousRater(db, cust).value;
    PersonalCandidatesMembers(db.base.ratings, db.base.purchases, e, cust);
    var w :| w in db.base.ratings && Recommendable(db.base.purchases, e, cust, w);
    assert RatingCandidate(w) in PersonalCandidates(db.base.ratings, db.base.purchases, e, cust);
  }

  /** The ids of the top k items `rater` rated and `cust` never bought. */
  function PersonalRecommendation(ratings: seq<RatingRow>, purchases: seq<PurchaseRow>, rater: int, cust: int,
                                  k: nat): seq<int>
  {
    Ids(TopK(PersonalCandidates(ratings, purchases, rater, cust), k))
  }

  /** The personal ranking of `rater` for `cust` lists min(k, n) distinct
      items, n being the number of distinct items rater rated and cust never
      bought; each was rated by rater and never bought by cust; they come
      highest score first, equal scores by item id; and each listed item
      outscores every such item left out, or ties it with a lower id. */
  lemma PersonalRecommendationSpec(ratings: seq<RatingRow>, purchases: seq<PurchaseRow>, rater: int, cust: int,
                                   k: nat)
    requires RatingsKeyed(ratings)
    ensures var res := PersonalRecommendation(ratings, purchases, rater, cust, k);
      && |res| == Min(k, |RecommendableItems(ratings, purchases, rater, cust)|)
      && (forall i :: 0 <= i < |res| ==>
            exists r :: r in ratings && Recommendable(purchases, rater, cust, r) && r.item == res[i])
      && (forall i, j :: 0 <= i < j < |res| ==> res[i] != res[j])
      && (forall i, j, r1, r2 ::
            (0 <= i < j < |res| && r1 in ratings && r2 in ratings && Recommendable(purchases, rater, cust, r1) &&
             Recommendable(purchases, rater, cust, r2) && r1.item == res[i] && r2.item == res[j])
            ==> r1.score > r2.score || (r1.score == r2.score && r1.item < r2.item))
      && (forall r1, r2 ::
            (r1 in ratings && r2 in ratings && Recommendable(purchases, rater, cust, r1) &&
             Recommendable(purchases, rater, cust, r2) && r1.item in res && r2.item !in res)
            ==> r1.score > r2.score || (r1.score == r2.score && r1.item < r2.item))
  {
    var cs := PersonalCandidates(ratings, purchases, rater, cust);
    PersonalCandidatesMembers(ratings, purchases, rater, cust);
    PersonalCandidatesDistinct(ratings, purchases, rater, cust);
    TopKIds(cs, k);
    PersonalCandidatesCount(ratings, purchases, rater, cust);
    RankedRatingsRated(ratings, purchases, rater, cust, cs, k);
    RankedRatingsOrdered(ratings, purchases, rater, cust, cs, k);
    RankedRatingsKept(ratings, purchases, rater, cust, cs, k);
  }

  /** The items `rater` rated and `cust` never bought. */
  ghost function RecommendableItems(ratings: seq<RatingRow>, purchases: seq<PurchaseRow>, rater: int, cust: int)
    : set<int>
  {
    set r | r in ratings && Recommendable(purchases, rater, cust, r) :: r.item
  }

  /** There is one personal candidate per item rater rated and cust never bought. */
  lemma PersonalCandidatesCount(ratings: seq<RatingRow>, purchases: seq<PurchaseRow>, rater: int, cust: int)
    requires RatingsKeyed(ratings)
    ensures |PersonalCandidates(ratings, purchases, rater, cust)| == |RecommendableItems(ratings, purchases, rater, cust)|
  {
    var cs := PersonalCandidates(ratings, purchases, rater, cust);
    var items := RecommendableItems(ratings, purchases, rater, cust);
    PersonalCandidatesMembers(ratings, purchases, rater, cust);
    PersonalCandidatesDistinct(ratings, purchases, rater, cust);
    DistinctIdsCount(cs);
    forall x ensures x in IdSet(cs) <==> x in items {
      IdSetMembers(cs, x);
      if x in items {
        var r :| r in ratings && Recommendable(purchases, rater, cust, r) && r.item == x;
        assert RatingCandidate(r) in cs;
      }
    }
    assert IdSet(cs) == items;
  }

  lemma RankedRatingsRated(ratings: seq<RatingRow>, purchases: seq<PurchaseRow>, rater: int, cust: int,
                           cs: seq<Candidate>, k: nat)
    requires DistinctIds(cs)
    requires forall c :: c in cs ==>
      exists r :: r in ratings && Recommendable(purchases, rater, cust, r) && c == RatingCandidate(r)
    ensures var res := Ids(TopK(cs, k));
      forall i :: 0 <= i < |res| ==>
        exists r :: r in ratings && Recommendable(purchases, rater, cust, r) && r.item == res[i]
  {
    var res := Ids(TopK(cs, k));
    TopKIds(cs, k);
    forall i | 0 <= i < |res|
      ensures exists r :: r in ratings && Recommendable(purchases, rater, cust, r) && r.item == res[i]
    {
      var c :| c in cs && c.id == res[i];
      var r :| r in ratings && Recommendable(purchases, rater, cust, r) && c == RatingCandidate(r);
    }
  }

  lemma RankedRatingsOrdered(ratings: seq<RatingRow>, purchases: seq<PurchaseRow>, rater: int, cust: int,
                             cs: seq<Candidate>, k: nat)
    requires DistinctIds(cs)
    requires forall r :: r in ratings && Recommendable(purchases, rater, cust, r) ==> RatingCandidate(r) in cs
    ensures var res := Ids(TopK(cs, k));
      forall i, j, r1, r2 ::
        (0 <= i < j < |res| && r1 in ratings && r2 in ratings && Recommendable(purchases, rater, cust, r1) &&
         Recommendable(purchases, rater, cust, r2) && r1.item == res[i] && r2.item == res[j])
        ==> r1.score > r2.score || (r1.score == r2.score && r1.item < r2.item)
  {
    var res := Ids(TopK(cs, k));
    TopKIds(cs, k);
    forall i, j, r1, r2 |
      0 <= i < j < |res| && r1 in ratings && r2 in ratings && Recommendable(purchases, rater, cust, r1) &&
      Recommendable(purchases, rater, cust, r2) && r1.item == res[i] && r2.item == res[j]
      ensures r1.score > r2.score || (r1.score == r2.score && r1.item < r2.item)
    {
      assert RanksBefore(RatingCandidate(r1), RatingCandidate(r2));
    }
  }

  lemma RankedRatingsKept(ratings: seq<RatingRow>, purchases: seq<PurchaseRow>, rater: int, cust: int,
                          cs: seq<Candidate>, k: nat)
    requires DistinctIds(cs)
    requires forall r :: r in ratings && Recommendable(purchases, rater, cust, r) ==> RatingCandidate(r) in cs
    ensures var res := Ids(TopK(cs, k));
      forall r1, r2 ::
        (r1 in ratings && r2 in ratings && Recommendable(purchases, rater, cust, r1) &&
         Recommendable(purchases, rater, cust, r2) && r1.item in res && r2.item !in res)
        ==> r1.score > r2.score || (r1.score == r2.score && r1.item < r2.item)
  {
    var res := Ids(TopK(cs, k));
    TopKIds(cs, k);
    forall r1, r2 |
      r1 in ratings && r2 in ratings && Recommendable(purchases, rater, cust, r1) &&
      Recommendable(purchases, rater, cust, r2) && r1.item in res && r2.item !in res
      ensures r1.score > r2.score || (r1.score == r2.score && r1.item < r2.item)
    {
      assert RanksBefore(RatingCandidate(r1), RatingCandidate(r2));
    }
  }

  /** What one Rating row contributes to PersonalCandidates. */
  function CandidateOf(purchases: seq<PurchaseRow>, rater: int, cust: int): RatingRow -> seq<Candidate>
  {
    (r: RatingRow) => if Recommendable(purchases, rater, cust, r) then [RatingCandidate(r)] else []
  }

  lemma {:induction false} PersonalCandidatesIsFlatMap(ratings: seq<RatingRow>, purchases: seq<PurchaseRow>,
                                                       rater: int, cust: int)
    ensures PersonalCandidates(ratings, purchases, rater, cust) == FlatMap(CandidateOf(purchases, rater, cust), ratings)
  {
    if |ratings| > 0 {
      PersonalCandidatesIsFlatMap(ratings[1..], purchases, rater, cust);
    }
  }

  /** The personal ranking depends on the rows of Rating and Purchase, not on their order. */
  lemma PersonalIgnoresRowOrder(ratings1: seq<RatingRow>, ratings2: seq<RatingRow>,
                                purchases1: seq<PurchaseRow>, purchases2: seq<PurchaseRow>,
                                rater: int, cust: int, k: nat)
    requires RatingsKeyed(ratings1) && RatingsKeyed(ratings2)
    requires multiset(ratings1) == multiset(ratings2) && multiset(purchases1) == multiset(purchases2)
    ensures |PersonalCandidates(ratings1, purchases1, rater, cust)| ==
            |PersonalCandidates(ratings2, purchases2, rater, cust)|
    ensures PersonalRecommendation(ratings1, purchases1, rater, cust, k) ==
            PersonalRecommendation(ratings2, purchases2, rater, cust, k)
  {
    var cs1 := PersonalCandidates(ratings1, purchases1, rater, cust);
    var cs2 := PersonalCandidates(ratings2, purchases2, rater, cust);
    var h1, h2 := CandidateOf(purchases1, rater, cust), CandidateOf(purchases2, rater, cust);
    PersonalCandidatesIsFlatMap(ratings1, purchases1, rater, cust);
    PersonalCandidatesIsFlatMap(ratings2, purchases2, rater, cust);
    FlatMapPermutation(h1, ratings1, ratings2);
    forall p ensures p in purchases1 <==> p in purchases2 {
      assert p in purchases1 <==> p in multiset(purchases1);
      assert p in purchases2 <==> p in multiset(purchases2);
    }
    forall r | r in ratings2 ensures multiset(h1(r)) == multiset(h2(r)) {
      assert Bought(purchases1, cust, r.item) == Bought(purchases2, cust, r.item);
    }
    FlatMapPointwise(h1, h2, ratings2);
    assert |cs1| == |multiset(cs1)| == |multiset(cs2)| == |cs2|;
    forall c ensures c in cs1 <==> c in cs2 {
      assert c in cs1 <==> c in multiset(cs1);
      assert c in cs2 <==> c in multiset(cs2);
    }
    PersonalCandidatesDistinct(ratings1, purchases1, rater, cust);
    PersonalCandidatesDistinct(ratings2, purchases2, rater, cust);
    TopKOrderIndependent(cs1, cs2, k);
  }

  /** The recommendation depends on the rows of the tables, not on their
      order: two databases holding the same rows give every customer the
      same list. */
  lemma RecommendationIgnoresRowOrder(db1: Database, db2: Database, cust: int, k: nat)
    requires SameRows(db1, db2)
    requires PopularKeyed(db1.popularItem) && PopularKeyed(db2.popularItem)
    requires RatingsKeyed(db1.base.ratings) && RatingsKeyed(db2.base.ratings)
    ensures RecommendationFor(db1, cust, k) == RecommendationFor(db2, cust, k)
  {
    AnalogousRaterIgnoresRowOrder(db1, db2, cust);
    var p1, p2 := db1.popularItem, db2.popularItem;
    assert |p1| == |multiset(p1)| == |multiset(p2)| == |p2|;
    forall p ensures p in p1 <==> p in p2 {
      assert p in p1 <==> p in multiset(p1);
      assert p in p2 <==> p in multiset(p2);
    }
    GenericIgnoresRowOrder(p1, p2, k);
    if AnalogousRater(db1, cust).Some? {
      PersonalIgnoresRowOrder(db1.base.ratings, db2.base.ratings, db1.base.purchases, db2.base.purchases,
                              AnalogousRater(db1, cust).value, cust, k);
    }
  }

  /** No elite members and PopularItem holding (2, 3.5), (4, 3.5) and
      (3, 2.5): customer 1599 asking for 2 items gets [2, 4]. */
  lemma RecommendScenarioNoElite(db: Database)
    requires db.base.eliteMembers == []
    requires PopularKeyed(db.popularItem) && |db.popularItem| == 3
    requires forall p :: p in db.popularItem <==>
      p == PopularRow(2, Some(3.5)) || p == PopularRow(4, Some(3.5)) || p == PopularRow(3, Some(2.5))
    ensures RecommendationFor(db, 1599, 2) == [2, 4]
  {
    GenericScenario(db.popularItem);
  }
}
