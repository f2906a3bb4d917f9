/**
 * The two chart panels driven by the whole table: the five states with
 * the largest `TOTAL IPC CRIMES` sums, and the chosen state's sum per year.
 * Group sums add up each group's cells after numeric coercion, a missing or
 * unparsable cell counting 0, as `groupby(...).sum()` does.
 */
module Aggregates {
  import opened Wrappers
  import opened Seqs
  import opened Tables
  import opened Ordering
  import opened Schema
  import opened Views

  /** The sum of `TOTAL IPC CRIMES` over the rows of state `k`. */
  function StateTotal(t: Table, k: Value): int {
    ColumnSum(t.columns, Where(t.rows, HasValue(t.columns, StateCol, k)), TotalCol)
  }

  /** A value that is not one of the states sums to 0. */
  lemma StateTotalAbsent(t: Table, k: Value)
    requires k !in States(t)
    ensures StateTotal(t, k) == 0
  {
    var w := Where(t.rows, HasValue(t.columns, StateCol, k));
  }

  /** `df.groupby('STATE/UT')['TOTAL IPC CRIMES'].sum()`: one entry per state, by ascending state. */
  function Groups(t: Table): (g: seq<(Value, int)>)
    ensures |g| == |States(t)|
    ensures forall i :: 0 <= i < |g| ==> g[i] == (States(t)[i], StateTotal(t, States(t)[i]))
  {
    var ks := States(t);
    seq(|ks|, i requires 0 <= i < |ks| => (ks[i], StateTotal(t, ks[i])))
  }

  // ---------------------------------------------------------------- sorting by value

  ghost predicate NonIncreasing(s: seq<(Value, int)>) {
    forall i, j :: 0 <= i < j < |s| ==> s[i].1 >= s[j].1
  }

  /** Puts `p` in place in a list of non-increasing values. */
  function InsertDescending(p: (Value, int), s: seq<(Value, int)>): (r: seq<(Value, int)>)
    requires NonIncreasing(s)
    ensures NonIncreasing(r)
    ensures multiset(r) == multiset(s) + multiset{p}
  {
    if |s| == 0 then
      [p]
    else if p.1 >= s[0].1 then
      [p] + s
    else
      var rest := InsertDescending(p, s[1..]);
      InsertBehind(p, s, rest);
      [s[0]] + rest
  }

  /** Putting the head of `s` in front of `p` inserted into the tail keeps
      the values non-increasing and adds exactly `p`. */
  lemma InsertBehind(p: (Value, int), s: seq<(Value, int)>, rest: seq<(Value, int)>)
    requires NonIncreasing(s) && |s| > 0 && p.1 < s[0].1
    requires NonIncreasing(rest) && multiset(rest) == multiset(s[1..]) + multiset{p}
    ensures NonIncreasing([s[0]] + rest)
    ensures multiset([s[0]] + rest) == multiset(s) + multiset{p}
  {
    assert s == [s[0]] + s[1..];
    forall q | q in rest
      ensures q.1 <= s[0].1
    {
      assert q in multiset(rest);
      if q != p {
        assert q in s[1..];
      }
    }
    var r := [s[0]] + rest;
    assert forall i :: 1 <= i < |r| ==> r[i] == rest[i - 1];
  }

  /** `sort_values(ascending=False)`: a permutation whose values never increase.
      Which of two equal values comes first is not promised. */
  function SortDescending(s: seq<(Value, int)>): (r: seq<(Value, int)>)
    ensures NonIncreasing(r)
    ensures multiset(r) == multiset(s)
  {
    if |s| == 0 then
      []
    else
      assert s == s[..|s| - 1] + [s[|s| - 1]];
      InsertDescending(s[|s| - 1], SortDescending(s[..|s| - 1]))
  }

  /** How many states the ranking shows. */
  const TopCount := 5

  /** `.head(5)` of a list sorted by descending value. */
  function Head(sorted: seq<(Value, int)>): (top: seq<(Value, int)>)
    ensures |top| == if |sorted| <= TopCount then |sorted| else TopCount
    ensures forall i :: 0 <= i < |top| ==> top[i] == sorted[i]
  {
    if |sorted| <= TopCount then sorted else sorted[..TopCount]
  }

  /** `groups.sort_values(ascending=False).head(5)`: at most five entries,
      by non-increasing value, each one of the groups; when there are five
      groups or fewer, every group is ranked. */
  function Top(g: seq<(Value, int)>): (top: seq<(Value, int)>)
    ensures |top| == if |g| <= TopCount then |g| else TopCount
    ensures NonIncreasing(top)
    ensures forall p :: p in top ==> p in g
    ensures |g| <= TopCount ==> forall p :: p in g ==> p in top
  {
    var sorted := SortDescending(g);
    var top := Head(sorted);
    HeadOfPermutation(g, sorted, top);
    top
  }

  /** The head of a permutation of `g` holds only entries of `g`, and all
      of them when it is the whole permutation. */
  lemma HeadOfPermutation(g: seq<(Value, int)>, sorted: seq<(Value, int)>, top: seq<(Value, int)>)
    requires multiset(sorted) == multiset(g)
    requires |top| <= |sorted| && forall i :: 0 <= i < |top| ==> top[i] == sorted[i]
    ensures |sorted| == |g|
    ensures forall p :: p in top ==> p in g
    ensures |top| == |sorted| ==> forall p :: p in g ==> p in top
  {
    assert |multiset(sorted)| == |multiset(g)|;
    forall p | p in top
      ensures p in g
    {
      var i :| 0 <= i < |top| && top[i] == p;
      assert sorted[i] in multiset(g);
    }
    if |top| == |sorted| {
      assert top == sorted;
      forall p | p in g
        ensures p in top
      {
        assert p in multiset(sorted);
      }
    }
  }

  /** The ranking of the states by their `TOTAL IPC CRIMES` sums: at most
      five of the state groups. */
  function TopStates(t: Table): (top: seq<(Value, int)>)
    ensures |top| <= TopCount
    ensures forall p :: p in top ==> p in Groups(t)
  {
    Top(Groups(t))
  }

  /** Keys that strictly ascend, as `groupby` leaves them. */
  ghost predicate KeysAscending(g: seq<(Value, int)>) {
    forall i, j :: 0 <= i < j < |g| ==> Less(g[i].0, g[j].0)
  }

  /** Pairs whose keys strictly ascend are all distinct. */
  lemma {:induction false} KeysAscendingCountOnce(g: seq<(Value, int)>, p: (Value, int))
    requires KeysAscending(g)
    ensures multiset(g)[p] <= 1
  {
    if |g| > 0 {
      assert g == [g[0]] + g[1..];
      if g[0] == p {
        forall j | 1 <= j < |g| ensures g[j] != p {
          LessIrreflexive(g[0].0);
        }
        assert p !in g[1..];
      }
      KeysAscendingCountOnce(g[1..], p);
    }
  }

  /** A value found at two positions is counted twice. */
  lemma TwiceCounted<T>(s: seq<T>, i: nat, j: nat)
    requires i < j < |s| && s[i] == s[j]
    ensures multiset(s)[s[i]] >= 2
  {
    assert s == s[..j] + [s[j]] + s[j + 1..];
    assert s[i] in s[..j];
  }

  /** The groups come out of `groupby` with strictly ascending keys. */
  lemma GroupsAscending(t: Table)
    ensures KeysAscending(Groups(t))
  {
  }

  /** Over groups with distinct keys, no two ranked entries share a key. */
  lemma TopDistinct(g: seq<(Value, int)>)
    requires KeysAscending(g)
    ensures forall i, j :: 0 <= i < j < |Top(g)| ==> Top(g)[i].0 != Top(g)[j].0
  {
    var sorted := SortDescending(g);
    var top := Top(g);
    forall i, j | 0 <= i < j < |top|
      ensures top[i].0 != top[j].0
    {
      if top[i].0 == top[j].0 {
        assert sorted[i] in multiset(g) && sorted[j] in multiset(g);
        var a :| 0 <= a < |g| && g[a] == sorted[i];
        var b :| 0 <= b < |g| && g[b] == sorted[j];
        assert a == b by {
          if a < b {
            LessIrreflexive(g[a].0);
          } else if b < a {
            LessIrreflexive(g[b].0);
          }
        }
        TwiceCounted(sorted, i, j);
        KeysAscendingCountOnce(g, sorted[i]);
        assert false;
      }
    }
  }

  /** A group whose key is not ranked comes after five entries at least as large. */
  lemma TopLeftOut(g: seq<(Value, int)>, p: (Value, int))
    requires p in g && forall q :: q in Top(g) ==> q.0 != p.0
    ensures |Top(g)| == TopCount && p.1 <= Top(g)[TopCount - 1].1
  {
    var sorted := SortDescending(g);
    var top := Top(g);
    assert p in multiset(sorted);
    var idx :| 0 <= idx < |sorted| && sorted[idx] == p;
    if idx < |top| {
      assert top[idx] in top;
    }
    assert top[TopCount - 1] == sorted[TopCount - 1];
  }

  /** The ranking has at most five entries, by non-increasing sum, and
      when there are five states or fewer every state is ranked. */
  lemma TopStatesShape(t: Table)
    ensures |TopStates(t)| == if |States(t)| <= TopCount then |States(t)| else TopCount
    ensures NonIncreasing(TopStates(t))
    ensures |States(t)| <= TopCount ==> forall k :: k in States(t) ==> exists p :: p in TopStates(t) && p.0 == k
  {
    var g := Groups(t);
    if |States(t)| <= TopCount {
      forall k | k in States(t)
        ensures exists p :: p in TopStates(t) && p.0 == k
      {
        var i :| 0 <= i < |States(t)| && States(t)[i] == k;
        assert g[i] in g;
        assert g[i] in TopStates(t);
      }
    }
  }

  /** Each ranked entry is a distinct state carrying that state's sum. */
  lemma TopStatesEntries(t: Table)
    ensures forall i, j :: 0 <= i < j < |TopStates(t)| ==> TopStates(t)[i].0 != TopStates(t)[j].0
    ensures forall p :: p in TopStates(t) ==> p.0 in States(t) && p.1 == StateTotal(t, p.0)
  {
    GroupsAscending(t);
    TopDistinct(Groups(t));
  }

  /** Every state left out of the ranking has a sum no greater than the last ranked entry's. */
  lemma TopStatesLeftOut(t: Table, k: Value)
    requires k in States(t) && forall p :: p in TopStates(t) ==> p.0 != k
    ensures |TopStates(t)| == TopCount && StateTotal(t, k) <= TopStates(t)[TopCount - 1].1
  {
    var g := Groups(t);
    var i :| 0 <= i < |States(t)| && States(t)[i] == k;
    assert g[i] in g;
    TopLeftOut(g, g[i]);
  }

  /** The ranking is drawn only when the table has a `TOTAL IPC CRIMES` column. */
  function RankingView(t: Table): (v: Option<seq<(Value, int)>>)
    ensures v.Some? <==> TotalCol in t.columns
    ensures v.Some? ==> v.value == TopStates(t)
  {
    if TotalCol in t.columns then Some(TopStates(t)) else None
  }

  // ---------------------------------------------------------------- groups partition the rows

  function SumValues(g: seq<(Value, int)>): int {
    if |g| == 0 then 0 else g[0].1 + SumValues(g[1..])
  }

  /** The sums over the rows of each key in `keys`. */
  function KeySums(t: Table, l: string, keys: seq<Value>): int {
    if |keys| == 0 then 0 else ColumnSum(t.columns, Where(t.rows, HasValue(t.columns, l, keys[0])), TotalCol) + KeySums(t, l, keys[1..])
  }

  /** Over distinct keys, the amount of a row with key `v` is picked up once if `v` is a key. */
  lemma {:induction false} PickOnce(keys: seq<Value>, v: Value, a: int, cols: seq<string>, l: string, r: Row, rest: seq<Row>)
    requires StrictlyAscending(keys) && Cell(cols, r, l) == v && a == Amount(Cell(cols, r, TotalCol))
    ensures KeySums(Table(cols, [r] + rest), l, keys) == (if v in keys then a else 0) + KeySums(Table(cols, rest), l, keys)
  {
    if |keys| > 0 {
      var k := keys[0];
      var rows := [r] + rest;
      assert rows[0] == r && rows[1..] == rest;
      var w := Where(rows, HasValue(cols, l, k));
      assert w == (if v == k then [r] else []) + Where(rest, HasValue(cols, l, k));
      ColumnSumConcat(cols, if v == k then [r] else [], Where(rest, HasValue(cols, l, k)), TotalCol);
      assert StrictlyAscending(keys[1..]);
      PickOnce(keys[1..], v, a, cols, l, r, rest);
      if v == k {
        forall j | 1 <= j < |keys| ensures keys[j] != v {
          AscendingDistinct(keys, 0, j);
        }
        assert v !in keys[1..];
      } else {
        assert v in keys <==> v in keys[1..];
      }
    }
  }

  /** Grouping by a key that lists every row's key once loses and doubles nothing. */
  lemma {:induction false} KeySumsCover(t: Table, l: string, keys: seq<Value>)
    requires StrictlyAscending(keys)
    requires forall r :: r in t.rows ==> Cell(t.columns, r, l) in keys
    ensures KeySums(t, l, keys) == ColumnSum(t.columns, t.rows, TotalCol)
    decreases |t.rows|
  {
    if |t.rows| == 0 {
      KeySumsEmpty(t, l, keys);
    } else {
      var r := t.rows[0];
      var rest := Table(t.columns, t.rows[1..]);
      assert t.rows == [r] + rest.rows;
      PickOnce(keys, Cell(t.columns, r, l), Amount(Cell(t.columns, r, TotalCol)), t.columns, l, r, rest.rows);
      KeySumsCover(rest, l, keys);
    }
  }

  /** With no rows every key sums to 0. */
  lemma {:induction false} KeySumsEmpty(t: Table, l: string, keys: seq<Value>)
    requires |t.rows| == 0
    ensures KeySums(t, l, keys) == 0
  {
    if |keys| > 0 {
      KeySumsEmpty(t, l, keys[1..]);
    }
  }

  /** Adding up the group values is adding up the sums over their keys. */
  lemma {:induction false} GroupSumsAreKeySums(t: Table, ks: seq<Value>, g: seq<(Value, int)>)
    requires |g| == |ks| && forall i :: 0 <= i < |g| ==> g[i] == (ks[i], StateTotal(t, ks[i]))
    ensures SumValues(g) == KeySums(t, StateCol, ks)
  {
    if |g| > 0 {
      GroupSumsAreKeySums(t, ks[1..], g[1..]);
    }
  }

  /** The state groups add up to the column total over the whole table. */
  lemma GroupsPartition(t: Table)
    ensures SumValues(Groups(t)) == ColumnSum(t.columns, t.rows, TotalCol)
  {
    GroupSumsAreKeySums(t, States(t), Groups(t));
    KeySumsCover(t, StateCol, States(t));
  }

  // ---------------------------------------------------------------- yearly trend

  function StateYear(cols: seq<string>, s: Value, y: Value): Row -> bool {
    r => Cell(cols, r, StateCol) == s && Cell(cols, r, YearCol) == y
  }

  /** The sum of `TOTAL IPC CRIMES` over the rows of state `s` in year `y`. */
  function YearTotal(t: Table, s: Value, y: Value): int {
    ColumnSum(t.columns, Where(t.rows, StateYear(t.columns, s, y)), TotalCol)
  }

  /** `df[df['STATE/UT'] == s].groupby('YEAR')['TOTAL IPC CRIMES'].sum().sort_index()`:
      one entry per year of the state, carrying the sum over the state's rows of that year. */
  function Trend(t: Table, s: Value): (tr: seq<(Value, int)>)
    ensures |tr| == |Years(t, s)|
    ensures forall i :: 0 <= i < |tr| ==> tr[i].0 == Years(t, s)[i] && tr[i].1 == YearTotal(t, s, tr[i].0)
  {
    var st := StateRows(t, s);
    var ys := Years(t, s);
    var tr := seq(|ys|, i requires 0 <= i < |ys| => (ys[i], ColumnSum(st.columns, Where(st.rows, HasValue(st.columns, YearCol, ys[i])), TotalCol)));
    YearSums(t, s, tr);
    tr
  }

  /** Grouping the state's rows by year sums, for each year, the rows of that state and year. */
  lemma YearSums(t: Table, s: Value, tr: seq<(Value, int)>)
    requires forall i :: 0 <= i < |tr| ==>
               tr[i].1 == ColumnSum(t.columns, Where(StateRows(t, s).rows, HasValue(t.columns, YearCol, tr[i].0)), TotalCol)
    ensures forall i :: 0 <= i < |tr| ==> tr[i].1 == YearTotal(t, s, tr[i].0)
  {
    forall i | 0 <= i < |tr|
      ensures tr[i].1 == YearTotal(t, s, tr[i].0)
    {
      var y := tr[i].0;
      WhereWhere(t.rows, HasValue(t.columns, StateCol, s), HasValue(t.columns, YearCol, y), StateYear(t.columns, s, y));
    }
  }

  /** The key of a `(key, sum)` entry. */
  function Key(p: (Value, int)): Value {
    p.0
  }

  /** The trend's years are the state's years: strictly ascending, and
      exactly the years in which the state has rows. */
  lemma TrendYears(t: Table, s: Value)
    ensures Map(Key, Trend(t, s)) == Years(t, s)
    ensures StrictlyAscending(Map(Key, Trend(t, s)))
    ensures forall y :: y in Map(Key, Trend(t, s)) <==>
              exists r :: r in t.rows && Cell(t.columns, r, StateCol) == s && Cell(t.columns, r, YearCol) == y
  {
    assert Map(Key, Trend(t, s)) == Years(t, s);
  }

  /** The trend is drawn only when the table has a `TOTAL IPC CRIMES` column. */
  function TrendView(t: Table, s: Value): (v: Option<seq<(Value, int)>>)
    ensures v.Some? <==> TotalCol in t.columns
    ensures v.Some? ==> v.value == Trend(t, s)
  {
    if TotalCol in t.columns then Some(Trend(t, s)) else None
  }
}
