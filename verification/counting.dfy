/** Count tables and key-ordered sorting shared by the aggregators.
    A count table is a sequence of (value, count) rows; the order of the rows is
    the order in which a dictionary that is updated row by row would list them. */
module Counting {

  /** The values of a count table, in row order. */
  function Keys<T>(t: seq<(T, nat)>): (ks: seq<T>)
    ensures |ks| == |t|
    ensures forall i :: 0 <= i < |t| ==> ks[i] == t[i].0
  {
    if t == [] then [] else [t[0].0] + Keys(t[1..])
  }

  predicate Distinct<T(==)>(q: seq<T>) {
    forall i, j :: 0 <= i < j < |q| ==> q[i] != q[j]
  }

  /** Sum of the counts of a table. */
  function SumCounts<T>(t: seq<(T, nat)>): nat {
    if t == [] then 0 else t[0].1 + SumCounts(t[1..])
  }

  /** dict.get(v, 0): the count of the first row whose value is v, 0 if none. */
  function Lookup<T(==)>(t: seq<(T, nat)>, v: T): nat {
    if t == [] then 0 else if t[0].0 == v then t[0].1 else Lookup(t[1..], v)
  }

  /** dict[v] = dict.get(v, 0) + 1: the row for v is incremented in place, or a
      new row (v, 1) is added at the end. */
  function Bump<T(==,!new)>(t: seq<(T, nat)>, v: T): (r: seq<(T, nat)>)
    ensures forall w :: Lookup(r, w) == Lookup(t, w) + (if w == v then 1 else 0)
    ensures Keys(r) == if v in Keys(t) then Keys(t) else Keys(t) + [v]
    ensures SumCounts(r) == SumCounts(t) + 1
  {
    if t == [] then [(v, 1)]
    else if t[0].0 == v then [(v, t[0].1 + 1)] + t[1..]
    else
      var rest := Bump(t[1..], v);
      assert ([t[0]] + rest)[1..] == rest;
      [t[0]] + rest
  }

  /** The table a dictionary-updating counting loop builds over s: one row per
      distinct value, in order of first appearance, holding its number of
      occurrences. */
  function TallyOf<T(==,!new)>(s: seq<T>): (t: seq<(T, nat)>)
    ensures Distinct(Keys(t))
    ensures forall v :: v in Keys(t) <==> v in s
    ensures forall v :: Lookup(t, v) == multiset(s)[v]
    ensures SumCounts(t) == |s|
  {
    if s == [] then []
    else
      var init := s[..|s| - 1];
      assert s == init + [s[|s| - 1]];
      Bump(TallyOf(init), s[|s| - 1])
  }

  /** In a table with distinct values, each row holds the count Lookup finds. */
  lemma {:induction false} LookupRow<T>(t: seq<(T, nat)>, i: nat)
    requires Distinct(Keys(t)) && i < |t|
    ensures Lookup(t, t[i].0) == t[i].1
  {
    if i > 0 {
      assert Keys(t)[0] != Keys(t)[i];
      assert Keys(t[1..]) == Keys(t)[1..];
      LookupRow(t[1..], i - 1);
    }
  }

  /** A sequence without repetitions has as many distinct elements as it is long. */
  lemma {:induction false} DistinctCard<T>(q: seq<T>)
    requires Distinct(q)
    ensures |set x | x in q| == |q|
  {
    if q != [] {
      DistinctCard(q[1..]);
      assert (set x | x in q) == {q[0]} + (set x | x in q[1..]);
      assert q[0] !in (set x | x in q[1..]);
    }
  }

  /** Every row of the tally holds the number of occurrences of its value. */
  lemma TallyRows<T(!new)>(s: seq<T>)
    ensures forall row :: row in TallyOf(s) ==> row.0 in s && row.1 == multiset(s)[row.0]
    ensures |TallyOf(s)| == |set x | x in s|
  {
    var t := TallyOf(s);
    forall row | row in t
      ensures row.0 in s && row.1 == multiset(s)[row.0]
    {
      var i :| 0 <= i < |t| && t[i] == row;
      assert Keys(t)[i] == row.0;
      LookupRow(t, i);
    }
    DistinctCard(Keys(t));
    assert (set x | x in Keys(t)) == (set x | x in s);
  }

  // ---------------------------------------------------------------------
  // Sorting by an integer key, largest key first. Insertion puts a new
  // element before the elements with an equal key, so sorting a sequence
  // keeps elements with equal keys in their original order.

  predicate SortedBy<T>(s: seq<T>, key: T -> int) {
    forall i, j :: 0 <= i < j < |s| ==> key(s[i]) >= key(s[j])
  }

  function Insert<T>(x: T, s: seq<T>, key: T -> int): (r: seq<T>)
    ensures multiset(r) == multiset(s) + multiset{x}
    ensures |r| == |s| + 1
  {
    if s == [] || key(x) >= key(s[0]) then [x] + s
    else
      assert s == [s[0]] + s[1..];
      [s[0]] + Insert(x, s[1..], key)
  }

  lemma {:induction false} InsertSorted<T>(x: T, s: seq<T>, key: T -> int)
    requires SortedBy(s, key)
    ensures SortedBy(Insert(x, s, key), key)
  {
    if s != [] && key(x) < key(s[0]) {
      var rest := Insert(x, s[1..], key);
      InsertSorted(x, s[1..], key);
      forall j | 0 <= j < |rest| ensures key(s[0]) >= key(rest[j]) {
        assert rest[j] in multiset(rest);
        if rest[j] != x {
          assert rest[j] in multiset(s[1..]);
          var k :| 0 <= k < |s[1..]| && s[1..][k] == rest[j];
          assert s[k + 1] == rest[j];
        }
      }
      var r := [s[0]] + rest;
      forall i, j | 0 <= i < j < |r| ensures key(r[i]) >= key(r[j]) {
        if i > 0 {
          assert r[i] == rest[i - 1] && r[j] == rest[j - 1];
        } else {
          assert r[j] == rest[j - 1];
        }
      }
    }
  }

  /** Stable sort by non-increasing key. */
  function SortBy<T>(s: seq<T>, key: T -> int): (r: seq<T>)
    ensures SortedBy(r, key)
    ensures multiset(r) == multiset(s)
    ensures |r| == |s|
  {
    if s == [] then []
    else
      assert s == [s[0]] + s[1..];
      var rest := SortBy(s[1..], key);
      InsertSorted(s[0], rest, key);
      Insert(s[0], rest, key)
  }

  lemma {:induction false} InsertSum<T>(x: (T, nat), s: seq<(T, nat)>, key: ((T, nat)) -> int)
    ensures SumCounts(Insert(x, s, key)) == x.1 + SumCounts(s)
  {
    if s != [] && key(x) < key(s[0]) {
      InsertSum(x, s[1..], key);
    }
  }

  lemma {:induction false} SortSum<T>(s: seq<(T, nat)>, key: ((T, nat)) -> int)
    ensures SumCounts(SortBy(s, key)) == SumCounts(s)
  {
    if s != [] {
      SortSum(s[1..], key);
      InsertSum(s[0], SortBy(s[1..], key), key);
    }
  }

  /** Key of a count row for pandas' value_counts order (most frequent first). */
  function ByCount<T>(row: (T, nat)): int { row.1 }

  /** Key of a count row for sort_index order (smallest value first). */
  function ByValueAscending(row: (int, nat)): int { -row.0 }

  /** value_counts(): one row per distinct value with its number of
      occurrences, most frequent first (ties in order of first appearance). */
  function ValueCounts<T(==,!new)>(s: seq<T>): seq<(T, nat)> {
    SortBy(TallyOf(s), ByCount)
  }

  lemma ValueCountsSpec<T(!new)>(s: seq<T>)
    ensures SortedBy(ValueCounts(s), ByCount)
    ensures forall row :: row in ValueCounts(s) ==> row.0 in s && row.1 == multiset(s)[row.0]
    ensures forall v :: v in s ==> (v, multiset(s)[v]) in ValueCounts(s)
    ensures |ValueCounts(s)| == |set x | x in s|
    ensures SumCounts(ValueCounts(s)) == |s|
  {
    SortedTallySpec(s, ByCount);
  }

  /** A tally sorted by any key still has one row per distinct value, holding
      that value's number of occurrences; the counts add up to the length. */
  lemma SortedTallySpec<T(!new)>(s: seq<T>, key: ((T, nat)) -> int)
    ensures forall row :: row in SortBy(TallyOf(s), key) ==> row.0 in s && row.1 == multiset(s)[row.0]
    ensures forall v :: v in s ==> (v, multiset(s)[v]) in SortBy(TallyOf(s), key)
    ensures |SortBy(TallyOf(s), key)| == |set x | x in s|
    ensures SumCounts(SortBy(TallyOf(s), key)) == |s|
  {
    var t := TallyOf(s);
    var r := SortBy(t, key);
    TallyRows(s);
    SortSum(t, key);
    forall row | row in r ensures row in t {
      assert row in multiset(r);
    }
    forall v | v in s ensures (v, multiset(s)[v]) in r {
      assert v in Keys(t);
      var i :| 0 <= i < |t| && Keys(t)[i] == v;
      LookupRow(t, i);
      assert t[i] in multiset(r);
    }
  }

  /** value_counts().sort_index() on integer values: one row per distinct
      value, in increasing order of value. */
  function CountsByValue(s: seq<int>): seq<(int, nat)> {
    SortBy(TallyOf(s), ByValueAscending)
  }

  lemma CountsByValueSpec(s: seq<int>)
    ensures forall i, j :: 0 <= i < j < |CountsByValue(s)| ==> CountsByValue(s)[i].0 < CountsByValue(s)[j].0
    ensures forall row :: row in CountsByValue(s) ==> row.0 in s && row.1 == multiset(s)[row.0]
    ensures forall v :: v in s ==> (v, multiset(s)[v]) in CountsByValue(s)
    ensures |CountsByValue(s)| == |set x | x in s|
    ensures SumCounts(CountsByValue(s)) == |s|
  {
    SortedTallySpec(s, ByValueAscending);
    CountsByValueIncreasing(s);
  }

  lemma CountsByValueIncreasing(s: seq<int>)
    ensures forall i, j :: 0 <= i < j < |CountsByValue(s)| ==> CountsByValue(s)[i].0 < CountsByValue(s)[j].0
  {
    SortedTallyDistinct(s, ByValueAscending);
  }

  /** Sorting a tally keeps one row per value: no two rows share a value. */
  lemma SortedTallyDistinct<T(!new)>(s: seq<T>, key: ((T, nat)) -> int)
    ensures forall i, j :: 0 <= i < j < |SortBy(TallyOf(s), key)| ==>
              SortBy(TallyOf(s), key)[i].0 != SortBy(TallyOf(s), key)[j].0
  {
    var t := TallyOf(s);
    var r := SortBy(t, key);
    forall i, j | 0 <= i < j < |r| ensures r[i].0 != r[j].0 {
      PermutedRowsDistinct(t, r, i, j);
    }
  }

  /** A reordering of a table with distinct values has distinct values. */
  lemma PermutedRowsDistinct<T>(t: seq<(T, nat)>, r: seq<(T, nat)>, i: nat, j: nat)
    requires Distinct(Keys(t)) && multiset(r) == multiset(t)
    requires i < j < |r|
    ensures r[i].0 != r[j].0
  {
    if r[i].0 == r[j].0 {
      // two rows with one value: the table holds no value twice
      assert r[i] in multiset(t) && r[j] in multiset(t);
      var a :| 0 <= a < |t| && t[a] == r[i];
      var b :| 0 <= b < |t| && t[b] == r[j];
      assert Keys(t)[a] == Keys(t)[b];
      assert a == b;
      assert r == r[..j] + r[j..];
      assert r[i] in r[..j] && r[j] in r[j..];
      assert multiset(r)[r[i]] == multiset(r[..j])[r[i]] + multiset(r[j..])[r[i]];
      DistinctRows(t, r[i]);
      assert false;
    }
  }

  /** A table whose values are distinct holds no row twice. */
  lemma {:induction false} DistinctRows<T>(t: seq<(T, nat)>, row: (T, nat))
    requires Distinct(Keys(t))
    ensures multiset(t)[row] <= 1
  {
    if t != [] {
      assert t == [t[0]] + t[1..];
      assert Keys(t[1..]) == Keys(t)[1..];
      DistinctRows(t[1..], row);
      if row == t[0] {
        assert row.0 !in Keys(t[1..]);
      }
    }
  }

  /** The first at most k rows of a table. */
  function Take<T>(s: seq<T>, k: nat): (r: seq<T>)
    ensures |r| == if |s| < k then |s| else k
  {
    if |s| < k then s else s[..k]
  }

  /** The first k elements of a sorted sequence are sorted, and are a part of
      it: a prefix, so a sub-multiset. */
  lemma TakeSorted<T>(s: seq<T>, key: T -> int, k: nat)
    requires SortedBy(s, key)
    ensures SortedBy(Take(s, k), key)
    ensures Take(s, k) == s[..|Take(s, k)|]
    ensures multiset(Take(s, k)) <= multiset(s)
  {
    var r := Take(s, k);
    assert s == r + s[|r|..];
  }

  /** An element of a sorted sequence left out of its first k has a key no
      larger than any of the first k. */
  lemma TakeLeftOut<T>(s: seq<T>, key: T -> int, k: nat, x: T, i: nat)
    requires SortedBy(s, key)
    requires x in multiset(s) - multiset(Take(s, k)) && i < |Take(s, k)|
    ensures key(x) <= key(s[i])
  {
    var r := Take(s, k);
    assert s == r + s[|r|..];
    assert multiset(s) == multiset(r) + multiset(s[|r|..]);
    assert x in multiset(s[|r|..]);
    var j :| 0 <= j < |s[|r|..]| && s[|r|..][j] == x;
    assert s[|r| + j] == x;
  }
}
