/** The relations of the recommender's database, as in-memory tables.

    A table is a sequence of rows; the order of the rows carries no meaning
    (SQL tables are bags). The base relations are only read by the
    recommender; PopularItem and EliteRating are the derived snapshot
    relations that the rebuild replaces.
 */
module Tables {

  /** An SQL value that may be NULL. */
  datatype Option<T> = None | Some(value: T)

  /** Item(id, category): every item belongs to exactly one category. */
  datatype ItemRow = ItemRow(id: int, category: int)

  /** Purchase(cid, item, quantity): a customer bought `quantity` units of an item. */
  datatype PurchaseRow = PurchaseRow(cid: int, item: int, quantity: int)

  /** Rating(cid, item, score): a customer's rating of an item. */
  datatype RatingRow = RatingRow(cid: int, item: int, score: int)

  /** PopularItem(item, avg_rating): avg_rating is NULL when the item was never rated. */
  datatype PopularRow = PopularRow(item: int, avgRating: Option<real>)

  /** EliteRating(cid, item, rating): an elite member's rating of a popular item. */
  datatype EliteRatingRow = EliteRatingRow(cid: int, item: int, rating: int)

  /** The relations the recommender reads and never writes. */
  datatype BaseTables = BaseTables(
    items: seq<ItemRow>,
    purchases: seq<PurchaseRow>,
    ratings: seq<RatingRow>,
    eliteMembers: seq<int>)

  /** The whole database: the base relations and the two snapshot relations. */
  datatype Database = Database(
    base: BaseTables,
    popularItem: seq<PopularRow>,
    eliteRating: seq<EliteRatingRow>)

  /** `item` has a row in the PopularItem table `popular`. */
  predicate InPopular(popular: seq<PopularRow>, item: int)
  {
    exists p :: p in popular && p.item == item
  }

  /** Item is the key of Item: no two rows share an id. */
  predicate ItemsKeyed(items: seq<ItemRow>)
  {
    forall i, j :: 0 <= i < j < |items| ==> items[i].id != items[j].id
  }

  /** Item is the key of PopularItem: no two rows share an item. */
  predicate PopularKeyed(popular: seq<PopularRow>)
  {
    forall i, j :: 0 <= i < j < |popular| ==> popular[i].item != popular[j].item
  }

  /** (cid, item) is the key of Rating: a customer rates an item at most once. */
  predicate RatingsKeyed(ratings: seq<RatingRow>)
  {
    forall i, j :: 0 <= i < j < |ratings| ==>
      ratings[i].cid != ratings[j].cid || ratings[i].item != ratings[j].item
  }

  /** The customer `cid` bought `item` at least once. */
  predicate Bought(purchases: seq<PurchaseRow>, cid: int, item: int)
  {
    exists p :: p in purchases && p.cid == cid && p.item == item
  }

  /** The two databases hold the same rows in every relation, each row as
      often, though perhaps in another order. */
  predicate SameRows(db1: Database, db2: Database)
  {
    && multiset(db1.base.items) == multiset(db2.base.items)
    && multiset(db1.base.purchases) == multiset(db2.base.purchases)
    && multiset(db1.base.ratings) == multiset(db2.base.ratings)
    && multiset(db1.base.eliteMembers) == multiset(db2.base.eliteMembers)
    && multiset(db1.popularItem) == multiset(db2.popularItem)
    && multiset(db1.eliteRating) == multiset(db2.eliteRating)
  }
}
