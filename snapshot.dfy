/** The snapshot builder: what the rebuild writes into PopularItem and
    EliteRating, computed from the base relations alone.
 */
module Snapshot {
  import opened Tables

  // ---------------------------------------------------------------------
  // Aggregates over the base relations
  // ---------------------------------------------------------------------

  /** Total units sold of item `id`: the sum of the quantities of its purchases. */
  function UnitsSold(purchases: seq<PurchaseRow>, id: int): int
  {
    if |purchases| == 0 then 0
    else (if purchases[0].item == id then purchases[0].quantity else 0) + UnitsSold(purchases[1..], id)
  }

  /** Number of ratings of item `id`. */
  function RatingCount(ratings: seq<RatingRow>, id: int): nat
  {
    if |ratings| == 0 then 0
    else (if ratings[0].item == id then 1 else 0) + RatingCount(ratings[1..], id)
  }

  /** Sum of the scores of the ratings of item `id`. */
  function RatingSum(ratings: seq<RatingRow>, id: int): int
  {
    if |ratings| == 0 then 0
    else (if ratings[0].item == id then ratings[0].score else 0) + RatingSum(ratings[1..], id)
  }

  /** AVG(score) over the ratings of item `id`: NULL when there are none, never 0. */
  function AvgRating(ratings: seq<RatingRow>, id: int): Option<real>
  {
    var n := RatingCount(ratings, id);
    if n == 0 then None else Some(RatingSum(ratings, id) as real / n as real)
  }

  /** The average is NULL exactly when nobody rated the item. */
  lemma {:induction false} AvgRatingNullIffUnrated(ratings: seq<RatingRow>, id: int)
    ensures AvgRating(ratings, id).None? <==> forall r :: r in ratings ==> r.item != id
  {
    if |ratings| > 0 {
      AvgRatingNullIffUnrated(ratings[1..], id);
      assert ratings == [ratings[0]] + ratings[1..];
    }
  }

  lemma {:induction false} RatingSumBounds(ratings: seq<RatingRow>, id: int, lo: int, hi: int)
    requires forall r :: r in ratings && r.item == id ==> lo <= r.score <= hi
    ensures lo * RatingCount(ratings, id) <= RatingSum(ratings, id) <= hi * RatingCount(ratings, id)
  {
    if |ratings| > 0 {
      RatingSumBounds(ratings[1..], id, lo, hi);
      var n := RatingCount(ratings[1..], id);
      assert lo * (n + 1) == lo * n + lo;
      assert hi * (n + 1) == hi * n + hi;
    }
  }

  /** The average of scores that all lie in [lo, hi] lies in [lo, hi]. */
  lemma AvgRatingBounds(ratings: seq<RatingRow>, id: int, lo: int, hi: int)
    requires forall r :: r in ratings && r.item == id ==> lo <= r.score <= hi
    ensures AvgRating(ratings, id).Some? ==>
      lo as real <= AvgRating(ratings, id).value <= hi as real
  {
    var n := RatingCount(ratings, id);
    if n > 0 {
      RatingSumBounds(ratings, id, lo, hi);
      QuotientBounds(RatingSum(ratings, id), n, lo, hi);
    }
  }

  lemma QuotientBounds(s: int, n: int, lo: int, hi: int)
    requires n > 0 && lo * n <= s <= hi * n
    ensures lo as real <= s as real / n as real <= hi as real
  {
    assert (lo * n) as real == lo as real * n as real;
    assert (hi * n) as real == hi as real * n as real;
    QuotientBoundsReal(s as real, n as real, lo as real, hi as real);
  }

  lemma QuotientBoundsReal(s: real, n: real, lo: real, hi: real)
    requires n > 0.0 && lo * n <= s <= hi * n
    ensures lo <= s / n <= hi
  {
    assert s / n - lo == (s - lo * n) / n;
    assert hi - s / n == (hi * n - s) / n;
  }

  // ---------------------------------------------------------------------
  // PopularItem
  // ---------------------------------------------------------------------

  /** Item `j` is in category `c`, sold at least one unit, and (when a cap is
      given) sold fewer units than the cap. */
  predicate Qualifies(purchases: seq<PurchaseRow>, j: ItemRow, c: int, cap: Option<int>)
  {
    j.category == c && UnitsSold(purchases, j.id) >= 1 &&
    (cap.None? || UnitsSold(purchases, j.id) < cap.value)
  }

  /** The largest units-sold total among the qualifying items, or NULL if none qualifies. */
  function TopTotal(items: seq<ItemRow>, purchases: seq<PurchaseRow>, c: int, cap: Option<int>): (r: Option<int>)
    ensures r.Some? ==>
      exists j :: j in items && Qualifies(purchases, j, c, cap) && UnitsSold(purchases, j.id) == r.value
    ensures forall j :: j in items && Qualifies(purchases, j, c, cap) ==>
      r.Some? && UnitsSold(purchases, j.id) <= r.value
  {
    if |items| == 0 then None
    else
      var rest := TopTotal(items[1..], purchases, c, cap);
      var u := UnitsSold(purchases, items[0].id);
      if Qualifies(purchases, items[0], c, cap) && (rest.None? || rest.value < u) then Some(u)
      else rest
  }

  /** The selection the rebuild makes: the item sold at least one unit and its
      total is the highest or the second-highest distinct total of its category. */
  predicate InTopTwoTiers(base: BaseTables, it: ItemRow)
  {
    var u := UnitsSold(base.purchases, it.id);
    var first := TopTotal(base.items, base.purchases, it.category, None);
    var second := if first.Some? then TopTotal(base.items, base.purchases, it.category, first) else None;
    u >= 1 && (first == Some(u) || second == Some(u))
  }

  /** The distinct units-sold totals of `it`'s category that exceed its own. */
  ghost function HigherTotals(base: BaseTables, it: ItemRow): set<int>
  {
    set j | j in base.items && j.category == it.category &&
            UnitsSold(base.purchases, j.id) > UnitsSold(base.purchases, it.id)
          :: UnitsSold(base.purchases, j.id)
  }

  /** Popularity as a dense rank: at least one unit sold, and fewer than two
      distinct totals of its category above its own (dense rank 1 or 2, ties included). */
  ghost predicate IsPopular(base: BaseTables, it: ItemRow)
  {
    UnitsSold(base.purchases, it.id) >= 1 && |HigherTotals(base, it)| < 2
  }

  /** The top-two-tiers selection is exactly the dense-rank definition. */
  lemma TopTwoTiersIsDenseRank(base: BaseTables, it: ItemRow)
    requires it in base.items
    ensures InTopTwoTiers(base, it) <==> IsPopular(base, it)
  {
    var ps, c := base.purchases, it.category;
    var u := UnitsSold(ps, it.id);
    var higher := HigherTotals(base, it);
    if u >= 1 {
      var first := TopTotal(base.items, ps, c, None);
      assert Qualifies(ps, it, c, None);
      var t1 := first.value;
      if u == t1 {
        forall j | j in base.items && j.category == c ensures UnitsSold(ps, j.id) <= u {
          if UnitsSold(ps, j.id) >= 1 {
            assert Qualifies(ps, j, c, None);
          }
        }
        assert higher == {};
      } else {
        var second := TopTotal(base.items, ps, c, first);
        assert Qualifies(ps, it, c, first);
        var t2 := second.value;
        var j1 :| j1 in base.items && Qualifies(ps, j1, c, None) && UnitsSold(ps, j1.id) == t1;
        assert t1 in higher;
        if u == t2 {
          forall j | j in base.items && j.category == c
            ensures UnitsSold(ps, j.id) <= u || UnitsSold(ps, j.id) == t1
          {
            if UnitsSold(ps, j.id) >= 1 {
              assert Qualifies(ps, j, c, None);
              if UnitsSold(ps, j.id) < t1 {
                assert Qualifies(ps, j, c, first);
              }
            }
          }
          assert higher == {t1};
        } else {
          var j2 :| j2 in base.items && Qualifies(ps, j2, c, first) && UnitsSold(ps, j2.id) == t2;
          assert t2 in higher;
          assert {t1, t2} <= higher;
          assert |{t1, t2}| == 2;
          SubsetCardinality({t1, t2}, higher);
        }
      }
    }
  }

  lemma SubsetCardinality(a: set<int>, b: set<int>)
    requires a <= b
    ensures |a| <= |b|
  {
    assert b == a + (b - a);
  }

  /** The PopularItem rows produced from the item rows `items`. */
  function PopularFrom(base: BaseTables, items: seq<ItemRow>): seq<PopularRow>
  {
    if |items| == 0 then []
    else
      var it := items[0];
      (if InTopTwoTiers(base, it) then [PopularRow(it.id, AvgRating(base.ratings, it.id))] else [])
      + PopularFrom(base, items[1..])
  }

  /** The new contents of PopularItem. */
  function PopularItems(base: BaseTables): seq<PopularRow>
  {
    PopularFrom(base, base.items)
  }

  lemma {:induction false} PopularFromMembers(base: BaseTables, items: seq<ItemRow>, row: PopularRow)
    ensures row in PopularFrom(base, items) <==>
      exists it :: it in items && InTopTwoTiers(base, it) && row == PopularRow(it.id, AvgRating(base.ratings, it.id))
  {
    if |items| > 0 {
      PopularFromMembers(base, items[1..], row);
      assert items == [items[0]] + items[1..];
    }
  }

  /** PopularItem holds one row per popular item (dense rank at most 2 within
      its category, at least one unit sold), with that item's average rating,
      and nothing else: every tie is present. */
  lemma PopularItemsExactly(base: BaseTables, row: PopularRow)
    ensures row in PopularItems(base) <==>
      exists it :: it in base.items && IsPopular(base, it) && row == PopularRow(it.id, AvgRating(base.ratings, it.id))
  {
    PopularFromMembers(base, base.items, row);
    forall it | it in base.items {
      TopTwoTiersIsDenseRank(base, it);
    }
  }

  /** Each row of PopularItem records the average of all ratings of its item,
      which is NULL exactly when the item was never rated. */
  lemma PopularAverageIsNullIffUnrated(base: BaseTables, row: PopularRow)
    requires row in PopularItems(base)
    ensures row.avgRating == AvgRating(base.ratings, row.item)
    ensures row.avgRating.None? <==> forall r :: r in base.ratings ==> r.item != row.item
  {
    PopularFromMembers(base, base.items, row);
    AvgRatingNullIffUnrated(base.ratings, row.item);
  }

  /** An item that never sold a unit is never popular, whatever its ratings. */
  lemma UnsoldNeverPopular(base: BaseTables, row: PopularRow)
    requires row in PopularItems(base)
    ensures UnitsSold(base.purchases, row.item) >= 1
  {
    PopularFromMembers(base, base.items, row);
  }

  lemma {:induction false} PopularFromIds(base: BaseTables, items: seq<ItemRow>, row: PopularRow)
    requires row in PopularFrom(base, items)
    ensures exists it :: it in items && it.id == row.item
  {
    PopularFromMembers(base, items, row);
  }

  lemma {:induction false} PopularFromKeyed(base: BaseTables, items: seq<ItemRow>)
    requires ItemsKeyed(items)
    ensures PopularKeyed(PopularFrom(base, items))
  {
    if |items| > 0 {
      var rest := PopularFrom(base, items[1..]);
      assert ItemsKeyed(items[1..]) by {
        forall i, j | 0 <= i < j < |items[1..]| ensures items[1..][i].id != items[1..][j].id {
          assert items[1..][i] == items[i + 1] && items[1..][j] == items[j + 1];
        }
      }
      PopularFromKeyed(base, items[1..]);
      forall r | r in rest ensures r.item != items[0].id {
        PopularFromIds(base, items[1..], r);
        var it :| it in items[1..] && it.id == r.item;
        var m :| 0 <= m < |items[1..]| && items[1..][m] == it;
        assert items[m + 1] == it;
      }
    }
  }

  /** When Item is keyed by id, so is the rebuilt PopularItem. */
  lemma PopularItemsKeyed(base: BaseTables)
    requires ItemsKeyed(base.items)
    ensures PopularKeyed(PopularItems(base))
  {
    PopularFromKeyed(base, base.items);
  }

  // ---------------------------------------------------------------------
  // EliteRating
  // ---------------------------------------------------------------------

  /** The EliteRating rows produced from the rating rows `ratings`. */
  function EliteFrom(elite: seq<int>, popular: seq<PopularRow>, ratings: seq<RatingRow>): seq<EliteRatingRow>
  {
    if |ratings| == 0 then []
    else
      var r := ratings[0];
      (if r.cid in elite && InPopular(popular, r.item) then [EliteRatingRow(r.cid, r.item, r.score)] else [])
      + EliteFrom(elite, popular, ratings[1..])
  }

  /** The new contents of EliteRating, given the new contents of PopularItem. */
  function EliteRatings(base: BaseTables, popular: seq<PopularRow>): seq<EliteRatingRow>
  {
    EliteFrom(base.eliteMembers, popular, base.ratings)
  }

  lemma {:induction false} EliteFromMembers(elite: seq<int>, popular: seq<PopularRow>, ratings: seq<RatingRow>, e: EliteRatingRow)
    ensures e in EliteFrom(elite, popular, ratings) <==>
      e.cid in elite && InPopular(popular, e.item) && RatingRow(e.cid, e.item, e.rating) in ratings
  {
    if |ratings| > 0 {
      EliteFromMembers(elite, popular, ratings[1..], e);
      assert ratings == [ratings[0]] + ratings[1..];
    }
  }

  /** EliteRating is exactly the set of (elite member, popular item, rating)
      triples for which that member gave that item that rating. */
  lemma EliteRatingsExactly(base: BaseTables, popular: seq<PopularRow>, e: EliteRatingRow)
    ensures e in EliteRatings(base, popular) <==>
      e.cid in base.eliteMembers && InPopular(popular, e.item) &&
      RatingRow(e.cid, e.item, e.rating) in base.ratings
  {
    EliteFromMembers(base.eliteMembers, popular, base.ratings, e);
  }

  /** EliteRating is empty exactly when no elite member rated a popular item;
      in particular when EliteMember or PopularItem is empty. */
  lemma EliteRatingsEmpty(base: BaseTables, popular: seq<PopularRow>)
    ensures EliteRatings(base, popular) == [] <==>
      forall r :: r in base.ratings ==> r.cid !in base.eliteMembers || !InPopular(popular, r.item)
    ensures base.eliteMembers == [] || popular == [] ==> EliteRatings(base, popular) == []
  {
    var er := EliteRatings(base, popular);
    forall r | r in base.ratings && r.cid in base.eliteMembers && InPopular(popular, r.item)
      ensures er != []
    {
      EliteRatingsExactly(base, popular, EliteRatingRow(r.cid, r.item, r.score));
    }
    if er != [] {
      EliteRatingsExactly(base, popular, er[0]);
    }
  }
}
