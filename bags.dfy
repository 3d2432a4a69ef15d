/** Tables are bags of rows. A computation that concatenates, row by row,
    what it derives from each row yields the same multiset of results
    whatever the order of the rows.
 */
module Bags {

  /** The concatenation of f(x) over the rows x of s, in order. */
  function FlatMap<A, B>(f: A -> seq<B>, s: seq<A>): seq<B>
  {
    if |s| == 0 then [] else f(s[0]) + FlatMap(f, s[1..])
  }

  lemma {:induction false} FlatMapAppend<A, B>(f: A -> seq<B>, a: seq<A>, b: seq<A>)
    ensures FlatMap(f, a + b) == FlatMap(f, a) + FlatMap(f, b)
  {
    if |a| == 0 {
      assert a + b == b;
    } else {
      FlatMapAppend(f, a[1..], b);
      assert (a + b)[1..] == a[1..] + b;
    }
  }

  /** Reordering the rows leaves the multiset of results unchanged. */
  lemma {:induction false} FlatMapPermutation<A, B>(f: A -> seq<B>, a: seq<A>, b: seq<A>)
    requires multiset(a) == multiset(b)
    ensures multiset(FlatMap(f, a)) == multiset(FlatMap(f, b))
    decreases |a|
  {
    if |a| == 0 {
      assert |b| == |multiset(b)| == 0;
    } else {
      var x := a[0];
      var i := RemoveOne(a, b);
      var b' := b[..i] + b[i + 1..];
      assert b == b[..i] + ([x] + b[i + 1..]);
      FlatMapPermutation(f, a[1..], b');
      FlatMapAppend(f, b[..i], [x] + b[i + 1..]);
      FlatMapAppend(f, [x], b[i + 1..]);
      FlatMapAppend(f, b[..i], b[i + 1..]);
      assert FlatMap(f, [x]) == f(x) by {
        assert [x][1..] == [];
      }
    }
  }

  /** Replacing what each row yields by a reordering of it leaves the
      multiset of results unchanged. */
  lemma {:induction false} FlatMapPointwise<A, B>(f: A -> seq<B>, g: A -> seq<B>, s: seq<A>)
    requires forall x :: x in s ==> multiset(f(x)) == multiset(g(x))
    ensures multiset(FlatMap(f, s)) == multiset(FlatMap(g, s))
  {
    if |s| > 0 {
      assert forall x :: x in s[1..] ==> x in s;
      FlatMapPointwise(f, g, s[1..]);
    }
  }

  /** The first row of `a` is at some position i of its reordering `b`,
      and the other rows of `a` reorder `b` without position i. */
  lemma RemoveOne<A>(a: seq<A>, b: seq<A>) returns (i: nat)
    requires multiset(a) == multiset(b) && |a| > 0
    ensures i < |b| && b[i] == a[0]
    ensures multiset(a[1..]) == multiset(b[..i] + b[i + 1..])
  {
    var x := a[0];
    assert x in multiset(b);
    i :| 0 <= i < |b| && b[i] == x;
    assert b == b[..i] + [x] + b[i + 1..];
    assert a == [x] + a[1..];
    assert multiset(a[1..]) == multiset(a) - multiset{x};
    assert multiset(b[..i] + b[i + 1..]) == multiset(b) - multiset{x};
  }
}
