/** Totals per key, as the charts and reports build them with
    `reduce((acc, x) => { acc[k] = (acc[k] || 0) + w; return acc; }, {})`: one entry per
    distinct key, in order of first appearance, holding the sum of the weights of the
    elements with that key. */
module Grouping {
  import opened Wrappers
  import opened Lists

  /** Sum of the weights, adding from the front. */
  function Sum<T>(s: seq<T>, weight: T -> int): int {
    if |s| == 0 then 0 else Sum(s[..|s| - 1], weight) + weight(s[|s| - 1])
  }

  lemma SumAppend<T>(s: seq<T>, x: T, weight: T -> int)
    ensures Sum(s + [x], weight) == Sum(s, weight) + weight(x)
  {
    assert (s + [x])[..|s|] == s;
  }

  lemma SumSingleton<T>(x: T, weight: T -> int)
    ensures Sum([x], weight) == weight(x)
  {
    assert [x][..0] == [];
  }

  lemma SumOfThree<T>(a: T, b: T, c: T, weight: T -> int)
    ensures Sum([a, b, c], weight) == weight(a) + weight(b) + weight(c)
  {
    assert [a, b, c][..2] == [a, b];
    assert [a, b][..1] == [a];
    SumSingleton(a, weight);
  }

  lemma {:induction false} SumConcat<T>(a: seq<T>, b: seq<T>, weight: T -> int)
    ensures Sum(a + b, weight) == Sum(a, weight) + Sum(b, weight)
    decreases |b|
  {
    if |b| > 0 {
      var b' := b[..|b| - 1];
      assert a + b == (a + b') + [b[|b| - 1]];
      SumAppend(a + b', b[|b| - 1], weight);
      SumConcat(a, b', weight);
      assert b == b' + [b[|b| - 1]];
      SumAppend(b', b[|b| - 1], weight);
    } else {
      assert a + b == a;
    }
  }

  /** A weight of one per element sums to the length. */
  lemma {:induction false} SumOfOnes<T>(s: seq<T>, one: T -> int)
    requires forall i :: 0 <= i < |s| ==> one(s[i]) == 1
    ensures Sum(s, one) == |s|
  {
    if |s| > 0 {
      SumOfOnes(s[..|s| - 1], one);
    }
  }

  /** Weights that are never negative have a sum that is not negative. */
  lemma {:induction false} SumNonNegative<T>(s: seq<T>, weight: T -> int)
    requires forall i :: 0 <= i < |s| ==> weight(s[i]) >= 0
    ensures Sum(s, weight) >= 0
  {
    if |s| > 0 {
      SumNonNegative(s[..|s| - 1], weight);
    }
  }

  /** Rearranging a list does not change its sum. */
  lemma {:induction false} SumPermutation<T>(a: seq<T>, b: seq<T>, weight: T -> int)
    requires multiset(a) == multiset(b)
    ensures Sum(a, weight) == Sum(b, weight)
    decreases |a|
  {
    if |a| == 0 {
      assert |b| == |multiset(b)| == 0;
    } else {
      var front, x := a[..|a| - 1], a[|a| - 1];
      assert a == front + [x];
      assert x in multiset(b);
      var k :| 0 <= k < |b| && b[k] == x;
      var left, right := b[..k], b[k + 1..];
      assert b == left + [x] + right;
      RemoveOne(front, x, left, right);
      SumPermutation(front, left + right, weight);
      SumConcat(left + [x], right, weight);
      SumAppend(left, x, weight);
      SumConcat(left, right, weight);
    }
  }

  /** Taking the same element out of two equal multisets leaves equal multisets. */
  lemma RemoveOne<T>(front: seq<T>, x: T, left: seq<T>, right: seq<T>)
    requires multiset(front + [x]) == multiset(left + [x] + right)
    ensures multiset(front) == multiset(left + right)
  {
    var m1, m2 := multiset(front), multiset(left + right);
    assert multiset(front + [x]) == m1 + multiset{x};
    assert left + [x] + right == (left + right)[..|left|] + [x] + (left + right)[|left|..];
    assert multiset(left + [x] + right) == m2 + multiset{x};
    forall y ensures m1[y] == m2[y] {
      assert (m1 + multiset{x})[y] == (m2 + multiset{x})[y];
    }
  }

  datatype Group = Group(key: string, total: int)

  function GroupTotal(g: Group): int {
    g.total
  }

  predicate HasKey(groups: seq<Group>, k: string) {
    exists i :: 0 <= i < |groups| && groups[i].key == k
  }

  predicate DistinctKeys(groups: seq<Group>) {
    forall i, j :: 0 <= i < j < |groups| ==> groups[i].key != groups[j].key
  }

  /** The running total kept for key `k`; 0 when the key has no entry yet. */
  function TotalFor(groups: seq<Group>, k: string): int {
    match FindFirst(groups, (g: Group) => g.key == k)
    case Some(i) => groups[i].total
    case None => 0
  }

  /** Adds `v` to the entry for `k`, creating it at the end when absent. */
  function AddTo(groups: seq<Group>, k: string, v: int): (r: seq<Group>)
    requires DistinctKeys(groups)
    ensures DistinctKeys(r)
    ensures HasKey(r, k)
    ensures forall key :: HasKey(r, key) <==> HasKey(groups, key) || key == k
    ensures forall key :: TotalFor(r, key) == TotalFor(groups, key) + (if key == k then v else 0)
    ensures Sum(r, GroupTotal) == Sum(groups, GroupTotal) + v
    ensures |groups| <= |r| && forall i :: 0 <= i < |groups| ==> r[i].key == groups[i].key
  {
    match FindFirst(groups, (g: Group) => g.key == k)
    case Some(i) =>
      var r := groups[i := Group(k, groups[i].total + v)];
      SumUpdate(groups, i, Group(k, groups[i].total + v));
      assert forall j :: 0 <= j < |r| ==> r[j].key == groups[j].key;
      forall key ensures TotalFor(r, key) == TotalFor(groups, key) + (if key == k then v else 0) {
        FindByKey(groups, key);
        FindByKey(r, key);
        if key == k {
          assert r[i].key == key;
        } else if HasKey(groups, key) {
          var j :| 0 <= j < |groups| && groups[j].key == key;
          assert r[j] == groups[j];
        } else {
          assert !HasKey(r, key);
        }
      }
      r
    case None =>
      var r := groups + [Group(k, v)];
      SumAppend(groups, Group(k, v), GroupTotal);
      forall key ensures TotalFor(r, key) == TotalFor(groups, key) + (if key == k then v else 0) {
        FindByKey(groups, key);
        FindByKey(r, key);
      }
      r
  }

  /** With distinct keys the entry found for a key is its only entry. */
  lemma FindByKey(groups: seq<Group>, k: string)
    requires DistinctKeys(groups)
    ensures forall i :: 0 <= i < |groups| && groups[i].key == k ==> TotalFor(groups, k) == groups[i].total
    ensures !HasKey(groups, k) ==> TotalFor(groups, k) == 0
  {
  }

  lemma {:induction false} SumUpdate(groups: seq<Group>, i: nat, g: Group)
    requires i < |groups|
    ensures Sum(groups[i := g], GroupTotal) == Sum(groups, GroupTotal) - groups[i].total + g.total
    decreases |groups|
  {
    var last := |groups| - 1;
    var front := groups[..last];
    assert groups[i := g][..last] == if i == last then front else front[i := g];
    if i < last {
      SumUpdate(front, i, g);
    }
  }

  /** The object built by the reduce, as a list of entries in key-insertion order. */
  function GroupTotals<T>(s: seq<T>, key: T -> string, weight: T -> int): (r: seq<Group>)
    ensures DistinctKeys(r)
    ensures forall j :: 0 <= j < |s| ==> HasKey(r, key(s[j]))
    ensures forall k :: HasKey(r, k) ==> exists j :: 0 <= j < |s| && key(s[j]) == k
    ensures Sum(r, GroupTotal) == Sum(s, weight)
  {
    if |s| == 0 then []
    else
      var front := s[..|s| - 1];
      var x := s[|s| - 1];
      var r := AddTo(GroupTotals(front, key, weight), key(x), weight(x));
      assert forall j :: 0 <= j < |front| ==> front[j] == s[j];
      r
  }

  /** The test "has key `k`". */
  function KeyIs<T>(key: T -> string, k: string): T -> bool {
    (x: T) => key(x) == k
  }

  /** Each entry's total is the sum of the weights of exactly the elements with its key,
      and a key no element has gets no entry. */
  lemma {:induction false} GroupTotalIsSum<T>(s: seq<T>, key: T -> string, weight: T -> int, k: string)
    ensures TotalFor(GroupTotals(s, key, weight), k) == Sum(Filter(s, KeyIs(key, k)), weight)
    decreases |s|
  {
    if |s| > 0 {
      GroupTotalIsSum(s[..|s| - 1], key, weight, k);
      GroupTotalsStep(s, key, weight, k);
      FilteredSumStep(s, KeyIs(key, k), weight);
    }
  }

  lemma GroupTotalsStep<T>(s: seq<T>, key: T -> string, weight: T -> int, k: string)
    requires |s| > 0
    ensures TotalFor(GroupTotals(s, key, weight), k)
         == TotalFor(GroupTotals(s[..|s| - 1], key, weight), k) + (if key(s[|s| - 1]) == k then weight(s[|s| - 1]) else 0)
  {
  }

  lemma FilteredSumStep<T>(s: seq<T>, f: T -> bool, weight: T -> int)
    requires |s| > 0
    ensures Sum(Filter(s, f), weight)
         == Sum(Filter(s[..|s| - 1], f), weight) + (if f(s[|s| - 1]) then weight(s[|s| - 1]) else 0)
  {
    FilterOfLast(s, f);
    SumMaybeAppend(Filter(s[..|s| - 1], f), Filter(s, f), s[|s| - 1], f(s[|s| - 1]), weight);
  }

  lemma SumMaybeAppend<T>(a: seq<T>, b: seq<T>, x: T, c: bool, weight: T -> int)
    requires b == a + (if c then [x] else [])
    ensures Sum(b, weight) == Sum(a, weight) + (if c then weight(x) else 0)
  {
    if c {
      SumAppend(a, x, weight);
    } else {
      assert b == a;
    }
  }

  lemma FilterOfLast<T>(s: seq<T>, f: T -> bool)
    requires |s| > 0
    ensures Filter(s, f) == Filter(s[..|s| - 1], f) + (if f(s[|s| - 1]) then [s[|s| - 1]] else [])
  {
    var front, x := s[..|s| - 1], s[|s| - 1];
    assert s == front + [x];
    FilterConcat(front, [x], f);
    FilterSingleton(x, f);
  }

  lemma FilterSingleton<T>(x: T, f: T -> bool)
    ensures Filter([x], f) == if f(x) then [x] else []
  {
    assert [x][1..] == [];
  }
}
