/**
 * `sorted(column.unique())`: the distinct values of a column in ascending
 * order. Numbers compare numerically and strings by code point, as Python
 * compares them; a missing cell sorts first and numbers before strings (a
 * column mixing the two kinds cannot be sorted by Python at all).
 */
module Ordering {
  import opened Text
  import opened Tables

  /** The order `sorted` puts cells in: missing first, then numbers by size, then text by code point. */
  predicate Less(a: Value, b: Value) {
    match (a, b)
    case (Null, Null) => false
    case (Null, _) => true
    case (Num(x), Num(y)) => x < y
    case (Num(_), Str(_)) => true
    case (Str(x), Str(y)) => StrLess(x, y)
    case _ => false
  }

  /** No cell comes before itself. */
  lemma LessIrreflexive(a: Value)
    ensures !Less(a, a)
  {
    if a.Str? {
      StrLessIrreflexive(a.s);
    }
  }

  /** The cell order is transitive. */
  lemma LessTransitive(a: Value, b: Value, c: Value)
    requires Less(a, b) && Less(b, c)
    ensures Less(a, c)
  {
    if a.Str? && b.Str? && c.Str? {
      StrLessTransitive(a.s, b.s, c.s);
    }
  }

  /** Any two different cells are ordered one way or the other. */
  lemma LessTotal(a: Value, b: Value)
    requires a != b
    ensures Less(a, b) || Less(b, a)
  {
    if a.Str? && b.Str? {
      StrLessTotal(a.s, b.s);
    }
  }

  /** Each cell comes strictly before every later one. */
  ghost predicate StrictlyAscending(s: seq<Value>) {
    forall i, j :: 0 <= i < j < |s| ==> Less(s[i], s[j])
  }

  /** A strictly ascending sequence holds no value twice. */
  lemma AscendingDistinct(s: seq<Value>, i: nat, j: nat)
    requires StrictlyAscending(s) && i < j < |s|
    ensures s[i] != s[j]
  {
    LessIrreflexive(s[i]);
  }

  /** Adds `x` at its place in a strictly ascending sequence, unless it is already there. */
  function Insert(x: Value, s: seq<Value>): (r: seq<Value>)
    requires StrictlyAscending(s)
    ensures StrictlyAscending(r)
    ensures forall v :: v in r <==> v == x || v in s
  {
    if |s| == 0 then
      [x]
    else if x == s[0] then
      s
    else if Less(x, s[0]) then
      assert forall j :: 0 < j < |s| ==> Less(x, s[j]) by {
        forall j | 0 < j < |s| {
          LessTransitive(x, s[0], s[j]);
        }
      }
      [x] + s
    else
      LessTotal(x, s[0]);
      var rest := Insert(x, s[1..]);
      assert forall v :: v in rest ==> Less(s[0], v);
      [s[0]] + rest
  }

  /** The distinct values of `xs`, in ascending order. */
  function SortedDistinct(xs: seq<Value>): (r: seq<Value>)
    ensures StrictlyAscending(r)
    ensures forall v :: v in r <==> v in xs
    ensures |r| <= |xs|
  {
    if |xs| == 0 then
      []
    else
      var init := xs[..|xs| - 1];
      assert xs == init + [xs[|xs| - 1]];
      InsertLength(xs[|xs| - 1], SortedDistinct(init));
      Insert(xs[|xs| - 1], SortedDistinct(init))
  }

  /** Inserting lengthens the list by at most one. */
  lemma {:induction false} InsertLength(x: Value, s: seq<Value>)
    requires StrictlyAscending(s)
    ensures |Insert(x, s)| <= |s| + 1
  {
    if |s| > 0 && x != s[0] && !Less(x, s[0]) {
      InsertLength(x, s[1..]);
    }
  }
}
