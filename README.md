# Online-shopping recommender, modelled in Dafny

A `Recommender` is connected to a database of items, purchases, customer
ratings and elite members. It keeps two snapshot relations derived from
those base relations, and it answers two recommendation queries:

- **PopularItem(item, avg_rating)**: per category, the items whose total
  units sold is the highest or the second-highest distinct total of that
  category. Only items that sold at least one unit qualify, and every tie is
  kept. Each row records the item's average rating, NULL when it was never rated.
- **EliteRating(cid, item, rating)**: every rating an elite member gave to a
  popular item.
- **repopulate** empties both snapshot relations and refills them from the
  current base relations. It reports success, and failure on a database error.
- **recommend_generic(k)** ranks PopularItem by average rating and returns
  the ids of the top k. A NULL average is below every number, 0 included.
  Ties at the cutoff keep the lowest item ids.
- **recommend(cust, k)** finds cust's *elite analogous rater*. That is the
  elite member whose ratings of popular items cust also rated are closest to
  cust's own, measured as the lowest non-NULL average absolute difference;
  ties go to the lower cid. It then ranks, by that rater's scores, all items the
  rater rated and cust never bought. It falls back to the generic
  recommendation when there is no such rater or no such item.

The method bodies in `assignment_2/starter_code/part3/a2.py` are
placeholders. The model follows the behaviour their documentation prescribes
and the expectations of `test_preliminary.py`.

Modules:

- `Tables` holds the rows and the database.
- `Bags` holds the facts that make results independent of row order.
- `Snapshot` computes what the rebuild writes.
- `Ranking` is the top-k selection shared by both recommenders.
- `Analog` chooses the elite analogous rater.
- `Recommendation` holds both recommenders as functions of the database.
- `Recommender` is the class. Its `db` field is the connected database. Its
  methods rebuild the snapshot or answer a query.

Modelling choices:

- Each relation is a sequence of rows. The order of rows carries no meaning.
  Two databases holding the same rows, each as often (`Tables.SameRows`), give
  every customer the same recommendation (`Recommendation.RecommendationIgnoresRowOrder`)
  and the same analogous rater (`Analog.AnalogousRaterIgnoresRowOrder`). The
  generic recommendation depends only on PopularItem's rows
  (`Recommendation.GenericIgnoresRowOrder`).
- "Highest and second-highest, ties included" is a dense rank of at most 2:
  fewer than two distinct totals of the category lie above the item's own.
  `Snapshot.InTopTwoTiers` is that selection computed the way a query would
  compute it: the top total, then the top total below it.
  `Snapshot.TopTwoTiersIsDenseRank` proves the two agree.
- The ranking is by score, highest first, with NULL lowest; equal scores go
  by item id, lowest first. The recommenders return the first k positions of
  that ranking.
  - The documentation's "order these items by item ID and take the lowest k"
    (a2.py:132-134 and 189-192) could be read two ways. The model reads it as
    deciding only among the items tied on a score, not as re-ranking every
    candidate by id.
  - Example: PopularItem (100, 5.0), (1, 4.0), (2, 4.0) with k = 2 gives
    `[100, 1]`. Ranking every candidate by id would give `[1, 2]`
    (`Recommendation.GenericTieBreakOnlyAmongEqualRatings`).
  - The `[2, 4]` the tests expect fits both readings.
  - The returned list is in ranking order, so ties within the top k also
    come in id order.
- A database error is the parameter `fault`. When it is set, the operation
  reports failure (`false`, or `None`). The database is then unchanged,
  because no change of an aborted transaction is committed.

## Model

| member | source | states |
|---|---|---|
| Snapshot.AvgRatingNullIffUnrated | assignment_2/starter_code/part3/a2.py:102-103 | an item's average rating is NULL exactly when no Rating row is for that item |
| Snapshot.AvgRatingBounds | assignment_2/starter_code/part3/a2.py:102 | when every score of an item lies in [lo, hi], its average rating (if not NULL) lies in [lo, hi] too |
| Snapshot.TopTotal | assignment_2/starter_code/part3/a2.py:98-100 | the result is a units-sold total reached by a qualifying item (category, at least one unit, below the cap), and no qualifying item's total exceeds it; NULL only when nothing qualifies |
| Snapshot.TopTwoTiersIsDenseRank | assignment_2/starter_code/part3/a2.py:97-101 | an item is in the top two tiers of its category (the top total or the top total below it) exactly when it sold at least one unit and fewer than two distinct totals of its category exceed its own |
| Snapshot.PopularItemsExactly | assignment_2/starter_code/part3/a2.py:97-103 | a row is in the rebuilt PopularItem exactly when it is (id, average rating) of an item of rank 1 or 2 in its category; every tie is present |
| Snapshot.PopularAverageIsNullIffUnrated | assignment_2/starter_code/part3/a2.py:102-103 | each PopularItem row carries its item's average rating, NULL exactly when the item was never rated |
| Snapshot.UnsoldNeverPopular | assignment_2/starter_code/part3/a2.py:100 | every PopularItem row is for an item that sold at least one unit |
| Snapshot.PopularItemsKeyed | assignment_2/starter_code/part3/a2.py:97-101 | when Item is keyed by id, the rebuilt PopularItem has no two rows for one item |
| Snapshot.EliteRatingsExactly | assignment_2/starter_code/part3/a2.py:105-107 | a row is in the rebuilt EliteRating exactly when its cid is an elite member, its item is popular, and that member gave that item that rating |
| Snapshot.EliteRatingsEmpty | assignment_2/starter_code/part3/a2.py:108-110 | EliteRating is empty exactly when no elite member rated a popular item; in particular when EliteMember or PopularItem is empty |
| Ranking.BestIndex | assignment_2/starter_code/part3/a2.py:128-134 | returns a position whose candidate no other candidate ranks before |
| Ranking.TopK | assignment_2/starter_code/part3/a2.py:136 | at most k candidates, each taken from the input |
| Ranking.TopKMeetsSpec | assignment_2/starter_code/part3/a2.py:128-139 | the selection has min(k, n) entries from the input, strictly in ranking order (score descending, NULL lowest, then id ascending), each ranked before every candidate left out |
| Ranking.TopKUnique | assignment_2/starter_code/part3/a2.py:132-134 | with distinct ids, only one list meets that definition, so ties leave no choice |
| Ranking.TopKOrderIndependent | assignment_2/starter_code/part3/a2.py:128-134 | two tables with the same rows in different orders give the same top-k list |
| Ranking.TopKIds | assignment_2/starter_code/part3/a2.py:128-139 | the returned ids are min(k, n) distinct candidate ids in ranking order, every listed candidate ranked before every unlisted one |
| Analog.AvgDifferenceNullIffNothingShared | assignment_2/starter_code/part3/a2.py:168-176 | the average rating difference of cust and an elite member is NULL exactly when they rated no item of PopularItem in common |
| Analog.AgreeingRaterHasZeroDifference | assignment_2/starter_code/part3/a2.py:168-175 | an elite member who shares a rated popular item with cust and agrees with cust on every one has average difference 0 |
| Analog.AnalogFrom | assignment_2/starter_code/part3/a2.py:178-180 | the chosen member is listed and has a non-NULL difference, is closer than (or tied with and no higher cid than) every member with a non-NULL difference, and none is chosen exactly when all differences are NULL |
| Analog.AnalogousRaterIsClosest | assignment_2/starter_code/part3/a2.py:165-180 | cust has no analogous rater exactly when no elite member shares a rated popular item with cust; otherwise the rater shares one and has the lowest average difference, ties going to the lower cid |
| Analog.AvgDifferenceIgnoresRowOrder | assignment_2/starter_code/part3/a2.py:168-176 | the average rating difference depends only on the rows of Rating, PopularItem and EliteRating, not on their order |
| Analog.AnalogousRaterIgnoresRowOrder | assignment_2/starter_code/part3/a2.py:165-180 | two databases holding the same rows choose the same analogous rater for every customer |
| Analog.AnalogTieGoesToLowerCid | assignment_2/starter_code/part3/a2.py:180 | of two elite members with the same non-NULL difference, the higher cid is never chosen |
| Recommendation.GenericRecommendationSpec | assignment_2/starter_code/part3/a2.py:125-139 | min(k, \|PopularItem\|) distinct popular items, ordered by average rating descending (NULL lowest) then item id; every listed item ranks before every unlisted popular item |
| Recommendation.NullAverageRanksLowest | assignment_2/starter_code/part3/a2.py:138-139 | an item with a NULL average is recommended only if every rated popular item is |
| Recommendation.GenericIgnoresRowOrder | assignment_2/starter_code/part3/a2.py:128-134 | the generic recommendation depends only on the rows of PopularItem, not on their order |
| Recommendation.GenericOfEmptyIsEmpty | assignment_2/starter_code/part3/test_preliminary.py:217-222 | an empty PopularItem gives an empty list |
| Recommendation.GenericScenarioListed | assignment_2/starter_code/part3/test_preliminary.py:224-231 | PopularItem (2, 3.5), (4, 3.5), (3, 2.5), in that order, and k = 2 give [2, 4] |
| Recommendation.GenericScenario | assignment_2/starter_code/part3/test_preliminary.py:224-231 | PopularItem (2, 3.5), (4, 3.5), (3, 2.5) in any order and k = 2 give [2, 4] |
| Recommendation.GenericTieBreakOnlyAmongEqualRatings | assignment_2/starter_code/part3/a2.py:132-134 | PopularItem (100, 5.0), (1, 4.0), (2, 4.0) with k = 2 gives [100, 1]: the id decides only among equal ratings |
| Recommendation.PersonalCandidatesMembers | assignment_2/starter_code/part3/a2.py:182-183 | the personal candidates are exactly the rater's ratings of items cust never bought, popular or not |
| Recommendation.PersonalCandidatesEmpty | assignment_2/starter_code/part3/a2.py:195-197 | there are no personal candidates exactly when cust bought every item the rater rated |
| Recommendation.PersonalCandidatesCount | assignment_2/starter_code/part3/a2.py:182-183 | with Rating keyed, there is one personal candidate per distinct item the rater rated and cust never bought |
| Recommendation.PersonalRecommendationSpec | assignment_2/starter_code/part3/a2.py:182-193 | min(k, n) distinct items the rater rated and cust never bought, n being the number of such distinct items, highest score first and equal scores by item id, each outscoring (or tying with a lower id) every such item left out |
| Recommendation.RecommendIsPersonal | assignment_2/starter_code/part3/a2.py:182-184 | with an analogous rater who rated an item cust never bought, cust gets that rater's personal ranking |
| Recommendation.RecommendFallsBack | assignment_2/starter_code/part3/a2.py:195-197 | with no analogous rater, or when cust bought everything the rater rated, cust gets the generic recommendation |
| Recommendation.NoEliteMembersGivesGeneric | assignment_2/starter_code/part3/a2.py:195-197 | with EliteMember empty, every customer gets the generic recommendation |
| Recommendation.PersonalIgnoresRowOrder | assignment_2/starter_code/part3/a2.py:182-192 | the personal ranking depends only on the rows of Rating and Purchase, not on their order |
| Recommendation.RecommendationIgnoresRowOrder | assignment_2/starter_code/part3/a2.py:160-197 | two databases holding the same rows in every relation (PopularItem and Rating keyed) give every customer the same recommendation |
| Recommendation.RecommendScenarioNoElite | assignment_2/starter_code/part3/test_preliminary.py:270-277 | no elite members and PopularItem (2, 3.5), (4, 3.5), (3, 2.5): customer 1599 asking for 2 items gets [2, 4] |
| Recommender.Rebuilt | assignment_2/starter_code/part3/a2.py:86-92 | a rebuild leaves the base relations as they are |
| Recommender.RebuiltForgetsOldSnapshot | assignment_2/starter_code/part3/a2.py:89-92 | the rebuilt snapshot depends only on the base relations, so rebuilding twice equals rebuilding once |
| Recommender.RebuiltIsConsistent | assignment_2/starter_code/part3/a2.py:97-110 | after a rebuild, PopularItem is keyed by item, every EliteRating row is an elite member's rating of a popular item, and EliteRating is empty when EliteMember or PopularItem is |
| Recommender.Recommender.Repopulate | assignment_2/starter_code/part3/a2.py:85-123 | returns true exactly when no database error occurs; then the database holds the rebuilt snapshot of its old base relations; on an error it returns false and the database is unchanged |
| Recommender.Recommender.RecommendGeneric | assignment_2/starter_code/part3/a2.py:125-158 | None on a database error, otherwise the generic recommendation of the current PopularItem |
| Recommender.Recommender.Recommend | assignment_2/starter_code/part3/a2.py:160-221 | None on a database error, otherwise the recommendation for cust of the current database |

## Left out

- connect and disconnect (a2.py:37-83): opening and closing a database connection is I/O. The model's `Recommender` is constructed already holding its database.
- SQL execution and `pg.Error`: error detection is I/O. A database error is the `fault` input, at a single point of each operation.
- Floating point: averages are exact rationals (`real`), not the database's numeric or float values.
- Integer width: ids, quantities and scores are unbounded integers, and no range of Rating scores is assumed.
- Schema (DDL): key constraints appear only as the predicates `ItemsKeyed`, `PopularKeyed` and `RatingsKeyed`. Lemmas that need them take them as preconditions, standing for the schema conformance that `Recommender` assumes.
- The "repopulate has been called at least once" precondition of both recommenders is not tracked as state. The tests fill PopularItem by hand instead.
- Recommender.Recommender.Recommend: the precondition that cust exists in the database is not stated, as the Customer relation is not part of this model. The precondition that cust is not an elite member is stated.
- The repopulate scenarios of test_preliminary.py:113-178 rely on a sample data file, which is not part of this model.
- Tie reading: the model takes the reading in which the id order decides only among equal scores, as described above. The other reading, which ranks every candidate by id before taking k items, is not modelled.
- Order of returned ids: the documentation does not say in which order the ids are returned. The model returns them in ranking order.
