/** `Array.prototype.filter`, `find` and counting, once for every list view of the application. */
module Lists {
  import opened Wrappers

  /** The elements of `s` that satisfy `keep`, in their original order. */
  function Filter<T>(s: seq<T>, keep: T -> bool): (r: seq<T>)
    ensures |r| <= |s|
    ensures forall i :: 0 <= i < |r| ==> r[i] in s && keep(r[i])
    ensures forall i :: 0 <= i < |s| && keep(s[i]) ==> s[i] in r
    ensures multiset(r) <= multiset(s)
  {
    if |s| == 0 then []
    else
      var rest := Filter(s[1..], keep);
      FilterStep(s, keep, rest);
      if keep(s[0]) then [s[0]] + rest else rest
  }

  /** One step of the filter: the properties of the filtered tail carry over to the list
      with its first element put back, kept or dropped. */
  lemma FilterStep<T>(s: seq<T>, keep: T -> bool, rest: seq<T>)
    requires |s| > 0
    requires forall i :: 0 <= i < |rest| ==> rest[i] in s[1..] && keep(rest[i])
    requires forall i :: 1 <= i < |s| && keep(s[i]) ==> s[i] in rest
    requires multiset(rest) <= multiset(s[1..])
    ensures var r := if keep(s[0]) then [s[0]] + rest else rest;
      && (forall i :: 0 <= i < |r| ==> r[i] in s && keep(r[i]))
      && (forall i :: 0 <= i < |s| && keep(s[i]) ==> s[i] in r)
      && multiset(r) <= multiset(s)
  {
    assert s == [s[0]] + s[1..];
  }

  /** Filtering distributes over concatenation: the kept elements of a list are the kept
      elements of its front followed by those of its back, so the original order is kept. */
  lemma {:induction false} FilterConcat<T>(a: seq<T>, b: seq<T>, keep: T -> bool)
    ensures Filter(a + b, keep) == Filter(a, keep) + Filter(b, keep)
  {
    if |a| > 0 {
      assert (a + b)[1..] == a[1..] + b;
      FilterConcat(a[1..], b, keep);
    } else {
      assert a + b == b;
    }
  }

  /** A filter whose test every element passes keeps the whole list. */
  lemma {:induction false} FilterKeepsAll<T>(s: seq<T>, keep: T -> bool)
    requires forall i :: 0 <= i < |s| ==> keep(s[i])
    ensures Filter(s, keep) == s
  {
    if |s| > 0 {
      FilterKeepsAll(s[1..], keep);
      assert s == [s[0]] + s[1..];
    }
  }

  /** A filter whose test no element passes keeps nothing. */
  lemma FilterKeepsNone<T>(s: seq<T>, keep: T -> bool)
    requires forall i :: 0 <= i < |s| ==> !keep(s[i])
    ensures Filter(s, keep) == []
  {
    var r := Filter(s, keep);
    if |r| > 0 {
      var i :| 0 <= i < |s| && s[i] == r[0];
    }
  }

  /** A filter that rejects the element at position `k` keeps fewer elements. */
  lemma {:induction false} FilterShrinks<T>(s: seq<T>, keep: T -> bool, k: nat)
    requires k < |s| && !keep(s[k])
    ensures |Filter(s, keep)| < |s|
  {
    if k > 0 {
      FilterShrinks(s[1..], keep, k - 1);
    }
  }

  /** Two tests that agree on every element keep the same elements. */
  lemma {:induction false} FilterSameTest<T>(s: seq<T>, f: T -> bool, g: T -> bool)
    requires forall i :: 0 <= i < |s| ==> f(s[i]) == g(s[i])
    ensures Filter(s, f) == Filter(s, g)
  {
    if |s| > 0 {
      FilterSameTest(s[1..], f, g);
    }
  }

  /** An element that passes the test makes the count positive. */
  lemma CountPositive<T>(s: seq<T>, test: T -> bool, k: nat)
    requires k < |s| && test(s[k])
    ensures Count(s, test) >= 1
  {
    assert s[k] in Filter(s, test);
  }

  /** A count of at least one has a witness position; a count of at least two has two
      distinct witness positions. */
  lemma {:induction false} CountWitnesses<T>(s: seq<T>, test: T -> bool)
    ensures Count(s, test) >= 1 ==> exists i :: 0 <= i < |s| && test(s[i])
    ensures Count(s, test) >= 2 ==> exists i, j :: 0 <= i < j < |s| && test(s[i]) && test(s[j])
  {
    if |s| > 0 {
      CountWitnesses(s[1..], test);
      if Count(s, test) >= 1 && !test(s[0]) {
        var i :| 0 <= i < |s[1..]| && test(s[1..][i]);
        assert test(s[i + 1]);
      }
      if Count(s, test) >= 2 {
        var i :| 0 <= i < |s[1..]| && test(s[1..][i]);
        if test(s[0]) {
          assert test(s[0]) && test(s[i + 1]);
        } else {
          var i', j' :| 0 <= i' < j' < |s[1..]| && test(s[1..][i']) && test(s[1..][j']);
          assert test(s[i' + 1]) && test(s[j' + 1]);
        }
      }
    }
  }

  /** The number of elements of `s` that satisfy `test`. */
  function Count<T>(s: seq<T>, test: T -> bool): nat {
    |Filter(s, test)|
  }

  /** Comparing two lists of the same length position by position: when every element of
      `b` that passes `f` sits opposite an element of `a` that passes `g`, `b` has at most
      as many passing elements. */
  lemma {:induction false} CountMonotonic<T, U>(a: seq<T>, b: seq<U>, g: T -> bool, f: U -> bool)
    requires |a| == |b|
    requires forall i :: 0 <= i < |b| && f(b[i]) ==> g(a[i])
    ensures Count(b, f) <= Count(a, g)
  {
    if |a| > 0 {
      assert forall i :: 0 <= i < |b[1..]| && f(b[1..][i]) ==> g(a[1..][i]) by {
        forall i | 0 <= i < |b[1..]| && f(b[1..][i]) ensures g(a[1..][i]) {
          assert f(b[i + 1]);
        }
      }
      CountMonotonic(a[1..], b[1..], g, f);
    }
  }

  /** Position by position agreement of the two tests gives equal counts. */
  lemma CountSame<T, U>(a: seq<T>, b: seq<U>, g: T -> bool, f: U -> bool)
    requires |a| == |b|
    requires forall i :: 0 <= i < |b| ==> f(b[i]) == g(a[i])
    ensures Count(b, f) == Count(a, g)
  {
    CountMonotonic(a, b, g, f);
    CountMonotonic(b, a, f, g);
  }

  /** The position of the first element that satisfies `test` (`Array.prototype.find`). */
  function FindFirst<T>(s: seq<T>, test: T -> bool): (r: Option<nat>)
    ensures r.Some? ==> r.value < |s| && test(s[r.value])
    ensures r.Some? ==> forall j :: 0 <= j < r.value ==> !test(s[j])
    ensures r.None? ==> forall j :: 0 <= j < |s| ==> !test(s[j])
  {
    FindFrom(s, test, 0)
  }

  function FindFrom<T>(s: seq<T>, test: T -> bool, from: nat): (r: Option<nat>)
    requires from <= |s|
    requires forall j :: 0 <= j < from ==> !test(s[j])
    ensures r.Some? ==> from <= r.value < |s| && test(s[r.value])
    ensures r.Some? ==> forall j :: 0 <= j < r.value ==> !test(s[j])
    ensures r.None? ==> forall j :: 0 <= j < |s| ==> !test(s[j])
    decreases |s| - from
  {
    if from == |s| then None
    else if test(s[from]) then Some(from)
    else FindFrom(s, test, from + 1)
  }
}
