/** Top-k selection shared by both recommenders: rank by score, highest
    first, with NULL below every number (0 included); among equal scores
    the lower id comes first, so ties at the cutoff keep the lowest ids.
 */
module Ranking {
  import opened Tables

  /** A rankable row: an item id and its score (possibly NULL). */
  datatype Candidate = Candidate(id: int, score: Option<real>)

  /** `a` is a strictly higher score than `b`, NULL being the lowest score. */
  predicate ScoreAbove(a: Option<real>, b: Option<real>)
  {
    match a
    case None => false
    case Some(x) => b.None? || x > b.value
  }

  /** `a` comes before `b` in the ranking. */
  predicate RanksBefore(a: Candidate, b: Candidate)
  {
    ScoreAbove(a.score, b.score) || (a.score == b.score && a.id < b.id)
  }

  predicate DistinctIds(cs: seq<Candidate>)
  {
    forall i, j :: 0 <= i < j < |cs| ==> cs[i].id != cs[j].id
  }

  function Min(a: nat, b: nat): nat
  {
    if a <= b then a else b
  }

  /** The ids of a ranked list. */
  function Ids(cs: seq<Candidate>): (ids: seq<int>)
    ensures |ids| == |cs|
    ensures forall i :: 0 <= i < |cs| ==> ids[i] == cs[i].id
  {
    if |cs| == 0 then [] else [cs[0].id] + Ids(cs[1..])
  }

  /** The position of a candidate that no other candidate ranks before. */
  function BestIndex(cs: seq<Candidate>): (i: nat)
    requires |cs| > 0
    ensures i < |cs|
    ensures forall j :: 0 <= j < |cs| ==> !RanksBefore(cs[j], cs[i])
  {
    if |cs| == 1 then 0
    else
      var i := BestIndex(cs[1..]) + 1;
      assert forall j :: 1 <= j < |cs| ==> cs[j] == cs[1..][j - 1];
      if RanksBefore(cs[0], cs[i]) then 0 else i
  }

  /** `cs` without its row at position `i`. */
  function RemoveAt(cs: seq<Candidate>, i: nat): (r: seq<Candidate>)
    requires i < |cs|
    ensures |r| == |cs| - 1
    ensures forall j :: 0 <= j < i ==> r[j] == cs[j]
    ensures forall j :: i <= j < |r| ==> r[j] == cs[j + 1]
  {
    cs[..i] + cs[i + 1..]
  }

  /** ORDER BY score DESC NULLS LAST, id ASC LIMIT k. */
  function TopK(cs: seq<Candidate>, k: nat): (r: seq<Candidate>)
    ensures |r| <= k
    ensures forall c :: c in r ==> c in cs
    decreases |cs|
  {
    if k == 0 || |cs| == 0 then []
    else
      var i := BestIndex(cs);
      var rest := TopK(RemoveAt(cs, i), k - 1);
      assert forall c :: c in RemoveAt(cs, i) ==> c in cs;
      [cs[i]] + rest
  }

  /** Reference definition of the top-k list: min(k, |cs|) candidates, in
      ranking order, and each one ranked before every candidate left out. */
  ghost predicate IsTopK(cs: seq<Candidate>, k: nat, r: seq<Candidate>)
  {
    && |r| == Min(k, |cs|)
    && (forall i :: 0 <= i < |r| ==> r[i] in cs)
    && (forall i, j :: 0 <= i < j < |r| ==> RanksBefore(r[i], r[j]))
    && (forall c, i :: c in cs && c !in r && 0 <= i < |r| ==> RanksBefore(r[i], c))
  }

  lemma RanksBeforeTotal(a: Candidate, b: Candidate)
    requires a.id != b.id
    ensures RanksBefore(a, b) || RanksBefore(b, a)
  {
  }

  lemma RanksBeforeAsymmetric(a: Candidate, b: Candidate)
    ensures !(RanksBefore(a, b) && RanksBefore(b, a))
  {
  }

  /** TopK meets the reference definition. */
  lemma {:induction false} TopKMeetsSpec(cs: seq<Candidate>, k: nat)
    requires DistinctIds(cs)
    ensures IsTopK(cs, k, TopK(cs, k))
    decreases |cs|
  {
    if k != 0 && |cs| != 0 {
      var i := BestIndex(cs);
      var others := RemoveAt(cs, i);
      var rest := TopK(others, k - 1);
      RemoveAtDistinct(cs, i);
      TopKMeetsSpec(others, k - 1);
      PrependBest(cs, k, i, others, rest);
      assert TopK(cs, k) == [cs[i]] + rest;
    }
  }

  lemma RemoveAtDistinct(cs: seq<Candidate>, i: nat)
    requires i < |cs| && DistinctIds(cs)
    ensures DistinctIds(RemoveAt(cs, i))
  {
  }

  /** The inductive step of TopKMeetsSpec: the best candidate followed by the
      top k-1 of the others is the top k. */
  lemma PrependBest(cs: seq<Candidate>, k: nat, i: nat, others: seq<Candidate>, rest: seq<Candidate>)
    requires DistinctIds(cs) && k != 0 && i < |cs|
    requires forall j :: 0 <= j < |cs| ==> !RanksBefore(cs[j], cs[i])
    requires |others| == |cs| - 1
    requires forall j :: 0 <= j < i ==> others[j] == cs[j]
    requires forall j :: i <= j < |others| ==> others[j] == cs[j + 1]
    requires IsTopK(others, k - 1, rest)
    ensures IsTopK(cs, k, [cs[i]] + rest)
  {
    var b := cs[i];
    var r := [b] + rest;
    assert |r| == Min(k, |cs|);
    forall c | c in others ensures c in cs && RanksBefore(b, c) {
      var m :| 0 <= m < |others| && others[m] == c;
      var j := if m < i then m else m + 1;
      assert c == cs[j] && j != i;
      RanksBeforeTotal(b, c);
    }
    forall c | c in cs && c != b ensures c in others {
      var j :| 0 <= j < |cs| && cs[j] == c;
      if j < i {
        assert others[j] == c;
      } else {
        assert others[j - 1] == c;
      }
    }
    assert forall i :: 0 <= i < |r| ==> r[i] in cs by {
      forall i | 0 <= i < |r| ensures r[i] in cs {
        if i > 0 {
          assert r[i] == rest[i - 1];
        }
      }
    }
    assert forall i, j :: 0 <= i < j < |r| ==> RanksBefore(r[i], r[j]) by {
      forall i, j | 0 <= i < j < |r| ensures RanksBefore(r[i], r[j]) {
        assert r[j] == rest[j - 1];
        if i > 0 {
          assert r[i] == rest[i - 1];
        }
      }
    }
    assert forall c, i :: c in cs && c !in r && 0 <= i < |r| ==> RanksBefore(r[i], c) by {
      forall c, i | c in cs && c !in r && 0 <= i < |r| ensures RanksBefore(r[i], c) {
        assert c in others;
        if i > 0 {
          assert r[i] == rest[i - 1];
        }
      }
    }
  }

  /** The reference definition admits exactly one list: ties never leave a choice. */
  lemma TopKUnique(cs: seq<Candidate>, k: nat, r1: seq<Candidate>, r2: seq<Candidate>)
    requires DistinctIds(cs)
    requires IsTopK(cs, k, r1) && IsTopK(cs, k, r2)
    ensures r1 == r2
  {
    forall i | 0 <= i < |r1| ensures r1[i] == r2[i] {
      SameAt(cs, k, r1, r2, i);
    }
  }

  lemma {:induction false} SameAt(cs: seq<Candidate>, k: nat, r1: seq<Candidate>, r2: seq<Candidate>, i: nat)
    requires DistinctIds(cs)
    requires IsTopK(cs, k, r1) && IsTopK(cs, k, r2)
    requires i < |r1|
    ensures r1[i] == r2[i]
    decreases i
  {
    forall m | 0 <= m < i ensures r1[m] == r2[m] {
      SameAt(cs, k, r1, r2, m);
    }
    var a, b := r1[i], r2[i];
    RemainingRanked(cs, k, r2, i, a);
    RemainingRanked(cs, k, r1, i, b);
    RanksBeforeAsymmetric(a, b);
  }

  /** In a top-k list, the entry at position i ranks before every candidate
      not already listed before position i. */
  lemma RemainingRanked(cs: seq<Candidate>, k: nat, r: seq<Candidate>, i: nat, c: Candidate)
    requires IsTopK(cs, k, r)
    requires i < |r| && c in cs
    requires forall m :: 0 <= m < i ==> r[m] != c
    ensures c == r[i] || RanksBefore(r[i], c)
  {
  }

  /** The top-k list depends only on the table's contents, not on the order of its rows. */
  lemma TopKOrderIndependent(cs1: seq<Candidate>, cs2: seq<Candidate>, k: nat)
    requires DistinctIds(cs1) && DistinctIds(cs2)
    requires |cs1| == |cs2| && forall c :: c in cs1 <==> c in cs2
    ensures TopK(cs1, k) == TopK(cs2, k)
  {
    TopKMeetsSpec(cs1, k);
    TopKMeetsSpec(cs2, k);
    TopKUnique(cs1, k, TopK(cs1, k), TopK(cs2, k));
  }

  /** The ids of a table of candidates. */
  function IdSet(cs: seq<Candidate>): set<int>
  {
    if |cs| == 0 then {} else {cs[0].id} + IdSet(cs[1..])
  }

  lemma {:induction false} IdSetMembers(cs: seq<Candidate>, x: int)
    ensures x in IdSet(cs) <==> exists c :: c in cs && c.id == x
  {
    if |cs| > 0 {
      IdSetMembers(cs[1..], x);
      assert cs == [cs[0]] + cs[1..];
    }
  }

  /** A table with distinct ids has as many rows as ids. */
  lemma {:induction false} DistinctIdsCount(cs: seq<Candidate>)
    requires DistinctIds(cs)
    ensures |IdSet(cs)| == |cs|
  {
    if |cs| > 0 {
      var rest := cs[1..];
      assert DistinctIds(rest) by {
        forall i, j | 0 <= i < j < |rest| ensures rest[i].id != rest[j].id {
          assert rest[i] == cs[i + 1] && rest[j] == cs[j + 1];
        }
      }
      DistinctIdsCount(rest);
      IdSetMembers(rest, cs[0].id);
      assert cs[0].id !in IdSet(rest) by {
        forall c | c in rest ensures c.id != cs[0].id {
          var m :| 0 <= m < |rest| && rest[m] == c;
          assert cs[m + 1] == c;
        }
      }
    }
  }

  /** The ids of the top-k list: min(k, |cs|) distinct ids of candidates, in
      ranking order, every listed candidate ranked before every one left out. */
  lemma TopKIds(cs: seq<Candidate>, k: nat)
    requires DistinctIds(cs)
    ensures var r := Ids(TopK(cs, k));
      && |r| == Min(k, |cs|)
      && (forall i :: 0 <= i < |r| ==> exists c :: c in cs && c.id == r[i])
      && (forall i, j :: 0 <= i < j < |r| ==> r[i] != r[j])
      && (forall i, j, a, b :: 0 <= i < j < |r| && a in cs && b in cs && a.id == r[i] && b.id == r[j]
            ==> RanksBefore(a, b))
      && (forall a, b :: a in cs && b in cs && a.id in r && b.id !in r ==> RanksBefore(a, b))
  {
    var t := TopK(cs, k);
    TopKMeetsSpec(cs, k);
    SpecIds(cs, k, t);
  }

  /** TopKIds for any list meeting the reference definition. */
  lemma SpecIds(cs: seq<Candidate>, k: nat, t: seq<Candidate>)
    requires DistinctIds(cs) && IsTopK(cs, k, t)
    ensures var r := Ids(t);
      && |r| == Min(k, |cs|)
      && (forall i :: 0 <= i < |r| ==> exists c :: c in cs && c.id == r[i])
      && (forall i, j :: 0 <= i < j < |r| ==> r[i] != r[j])
      && (forall i, j, a, b :: 0 <= i < j < |r| && a in cs && b in cs && a.id == r[i] && b.id == r[j]
            ==> RanksBefore(a, b))
      && (forall a, b :: a in cs && b in cs && a.id in r && b.id !in r ==> RanksBefore(a, b))
  {
    var r := Ids(t);
    assert forall i :: 0 <= i < |r| ==> t[i] in cs && t[i].id == r[i];
    SpecIdsDistinct(cs, k, t);
    SpecIdsOrdered(cs, k, t);
    SpecIdsKept(cs, k, t);
  }

  /** A top-k list repeats no id. */
  lemma SpecIdsDistinct(cs: seq<Candidate>, k: nat, t: seq<Candidate>)
    requires DistinctIds(cs) && IsTopK(cs, k, t)
    ensures forall i, j :: 0 <= i < j < |t| ==> t[i].id != t[j].id
  {
  }

  /** The candidates behind two listed ids rank in list order. */
  lemma SpecIdsOrdered(cs: seq<Candidate>, k: nat, t: seq<Candidate>)
    requires DistinctIds(cs) && IsTopK(cs, k, t)
    ensures forall i, j, a, b ::
      (0 <= i < j < |t| && a in cs && b in cs && a.id == t[i].id && b.id == t[j].id) ==> RanksBefore(a, b)
  {
  }

  /** A candidate whose id is listed ranks before one whose id is not. */
  lemma SpecIdsKept(cs: seq<Candidate>, k: nat, t: seq<Candidate>)
    requires DistinctIds(cs) && IsTopK(cs, k, t)
    ensures forall a, b :: a in cs && b in cs && a.id in Ids(t) && b.id !in Ids(t) ==> RanksBefore(a, b)
  {
  }
}
