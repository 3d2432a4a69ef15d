/** The Recommender object: it holds the database it is connected to, and
    its operations read it or rebuild its snapshot relations.

    A store error is an input: `fault` says whether the database raised an
    error while the operation ran. The operation then reports failure and,
    as nothing it did is committed, the database is as before.
 */
module Recommender {
  import opened Tables
  import opened Snapshot
  import opened Analog
  import opened Recommendation

  /** The database after a rebuild of the snapshot relations from `db`'s base relations. */
  function Rebuilt(db: Database): (r: Database)
    ensures r.base == db.base
  {
    var popular := PopularItems(db.base);
    Database(db.base, popular, EliteRatings(db.base, popular))
  }

  /** A rebuilt snapshot is a function of the base relations alone: the old
      snapshot leaves no trace, so rebuilding twice is rebuilding once. */
  lemma RebuiltForgetsOldSnapshot(db1: Database, db2: Database)
    requires db1.base == db2.base
    ensures Rebuilt(db1) == Rebuilt(db2)
    ensures Rebuilt(Rebuilt(db1)) == Rebuilt(db1)
  {
  }

  /** After a rebuild, PopularItem is keyed by item (given that Item is keyed
      by id), every EliteRating row is an elite member's rating of a popular
      item, and EliteRating is empty when EliteMember or PopularItem is. */
  lemma RebuiltIsConsistent(db: Database)
    requires ItemsKeyed(db.base.items)
    ensures var r := Rebuilt(db);
      && PopularKeyed(r.popularItem)
      && (forall e :: e in r.eliteRating ==>
            e.cid in r.base.eliteMembers && InPopular(r.popularItem, e.item) &&
            RatingRow(e.cid, e.item, e.rating) in r.base.ratings)
      && (r.base.eliteMembers == [] || r.popularItem == [] ==> r.eliteRating == [])
  {
    var r := Rebuilt(db);
    PopularItemsKeyed(db.base);
    forall e | e in r.eliteRating
      ensures e.cid in r.base.eliteMembers && InPopular(r.popularItem, e.item) &&
              RatingRow(e.cid, e.item, e.rating) in r.base.ratings
    {
      EliteRatingsExactly(db.base, r.popularItem, e);
    }
    EliteRatingsEmpty(db.base, r.popularItem);
  }

  class Recommender {
    /** The database this recommender is connected to. */
    var db: Database

    constructor(db0: Database)
      ensures db == db0
    {
      db := db0;
    }

    /** Empty PopularItem and EliteRating, then fill them from the base
        relations. On a store error, report false and leave the database as it was. */
    method Repopulate(fault: bool) returns (ok: bool)
      modifies this
      ensures ok == !fault
      ensures ok ==> db == Rebuilt(old(db))
      ensures !ok ==> db == old(db)
    {
      var saved := db;
      db := db.(popularItem := [], eliteRating := []);
      if fault {
        db := saved;
        return false;
      }
      var popular := PopularItems(db.base);
      db := db.(popularItem := popular);
      db := db.(eliteRating := EliteRatings(db.base, db.popularItem));
      return true;
    }

    /** The generic recommendation of k items, or None on a store error. */
    method RecommendGeneric(k: nat, fault: bool) returns (r: Option<seq<int>>)
      requires k > 0
      ensures fault ==> r.None?
      ensures !fault ==> r == Some(GenericRecommendation(db.popularItem, k))
    {
      if fault {
        return None;
      }
      return Some(GenericRecommendation(db.popularItem, k));
    }

    /** The recommendation of k items for customer `cust`, or None on a store error. */
    method Recommend(cust: int, k: nat, fault: bool) returns (r: Option<seq<int>>)
      requires k > 0
      requires cust !in db.base.eliteMembers
      ensures fault ==> r.None?
      ensures !fault ==> r == Some(RecommendationFor(db, cust, k))
    {
      if fault {
        return None;
      }
      return Some(RecommendationFor(db, cust, k));
    }
  }
}
