/**
 * Boolean-mask selection, the `df[mask]` of a data frame whose mask is
 * computed row by row: keep, in their original order, the elements that
 * satisfy a predicate.
 */
module Seqs {

  function Where<T(!new)>(xs: seq<T>, p: T -> bool): (r: seq<T>)
    ensures |r| <= |xs|
    ensures forall x :: x in r <==> x in xs && p(x)
  {
    if |xs| == 0 then
      []
    else
      assert xs == [xs[0]] + xs[1..];
      (if p(xs[0]) then [xs[0]] else []) + Where(xs[1..], p)
  }

  /** Selection distributes over concatenation, so the kept elements keep
      their relative order. */
  lemma {:induction false} WhereConcat<T(!new)>(a: seq<T>, b: seq<T>, p: T -> bool)
    ensures Where(a + b, p) == Where(a, p) + Where(b, p)
  {
    if |a| > 0 {
      assert (a + b)[0] == a[0] && (a + b)[1..] == a[1..] + b;
      WhereConcat(a[1..], b, p);
    } else {
      assert a + b == b;
    }
  }

  /** Selection neither duplicates nor merges elements: each kept value
      occurs exactly as often as in the input. */
  lemma {:induction false} WhereCount<T(!new)>(xs: seq<T>, p: T -> bool, x: T)
    ensures multiset(Where(xs, p))[x] == if p(x) then multiset(xs)[x] else 0
  {
    if |xs| > 0 {
      assert xs == [xs[0]] + xs[1..];
      WhereCount(xs[1..], p, x);
    }
  }

  /** Selecting twice is selecting once by the conjunction. */
  lemma {:induction false} WhereWhere<T(!new)>(xs: seq<T>, p: T -> bool, q: T -> bool, both: T -> bool)
    requires forall x :: x in xs ==> both(x) == (p(x) && q(x))
    ensures Where(Where(xs, p), q) == Where(xs, both)
  {
    if |xs| > 0 {
      var head := if p(xs[0]) then [xs[0]] else [];
      assert xs == [xs[0]] + xs[1..];
      assert forall x :: x in xs[1..] ==> x in xs;
      WhereConcat(head, Where(xs[1..], p), q);
      WhereWhere(xs[1..], p, q, both);
    }
  }

  /** Selection of every element is the identity. */
  lemma {:induction false} WhereAll<T(!new)>(xs: seq<T>, p: T -> bool)
    requires forall x :: x in xs ==> p(x)
    ensures Where(xs, p) == xs
  {
    if |xs| > 0 {
      assert xs == [xs[0]] + xs[1..];
      WhereAll(xs[1..], p);
    }
  }

  /** Elementwise application of `f`. */
  function Map<T, U>(f: T -> U, xs: seq<T>): (r: seq<U>)
    ensures |r| == |xs|
    ensures forall i :: 0 <= i < |xs| ==> r[i] == f(xs[i])
  {
    if |xs| == 0 then [] else [f(xs[0])] + Map(f, xs[1..])
  }

  /** Some image lies in `hits` exactly when some element is sent into `hits`. */
  lemma MapHits<T, U>(f: T -> U, xs: seq<T>, hits: set<U>)
    ensures (exists y :: y in Map(f, xs) && y in hits) <==> (exists x :: x in xs && f(x) in hits)
  {
    var ys := Map(f, xs);
    if exists x :: x in xs && f(x) in hits {
      var x :| x in xs && f(x) in hits;
      var i :| 0 <= i < |xs| && xs[i] == x;
      assert ys[i] in ys;
    }
    if exists y :: y in ys && y in hits {
      var y :| y in ys && y in hits;
      var i :| 0 <= i < |ys| && ys[i] == y;
      assert xs[i] in xs;
    }
  }

  /** Selecting after mapping is mapping after selecting by a predicate
      that tests each element as its image would be tested. */
  lemma {:induction false} WhereMap<T(!new), U(!new)>(f: T -> U, xs: seq<T>, p: U -> bool, q: T -> bool)
    requires forall x :: x in xs ==> q(x) == p(f(x))
    ensures Where(Map(f, xs), p) == Map(f, Where(xs, q))
  {
    if |xs| > 0 {
      var m := Map(f, xs);
      assert m[1..] == Map(f, xs[1..]);
      assert xs[0] in xs;
      assert forall x :: x in xs[1..] ==> x in xs;
      WhereMap(f, xs[1..], p, q);
    }
  }

  /** Mapping a concatenation is concatenating the maps. */
  lemma {:induction false} MapConcat<T, U>(f: T -> U, a: seq<T>, b: seq<T>)
    ensures Map(f, a + b) == Map(f, a) + Map(f, b)
  {
    if |a| > 0 {
      assert (a + b)[0] == a[0] && (a + b)[1..] == a[1..] + b;
      MapConcat(f, a[1..], b);
    } else {
      assert a + b == b;
    }
  }
}
