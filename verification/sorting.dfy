/** The stable `Array.prototype.sort` the application uses with a key comparator: ascending
    or descending by a number or a string, with ties kept in their original order. */
module Sorting {
  import opened Text

  /** A sort key: the value a comparator reads from an element. */
  datatype Key = Num(n: int) | Str(s: string)

  /** JavaScript's `<=` on two numbers or on two strings (numbers sort before strings;
      no list of the application mixes the two). */
  predicate KeyLe(a: Key, b: Key) {
    match (a, b)
    case (Num(x), Num(y)) => x <= y
    case (Str(x), Str(y)) => StrLe(x, y)
    case (Num(_), Str(_)) => true
    case (Str(_), Num(_)) => false
  }

  /** `a` may come before `b` in the requested direction. */
  predicate Before(a: Key, b: Key, descending: bool) {
    if descending then KeyLe(b, a) else KeyLe(a, b)
  }

  lemma BeforeTotal(a: Key, b: Key, descending: bool)
    ensures Before(a, b, descending) || Before(b, a, descending)
  {
    if a.Str? && b.Str? {
      StrLeTotal(a.s, b.s);
    }
  }

  lemma BeforeTransitive(a: Key, b: Key, c: Key, descending: bool)
    requires Before(a, b, descending) && Before(b, c, descending)
    ensures Before(a, c, descending)
  {
    if a.Str? && b.Str? && c.Str? {
      if descending {
        StrLeTransitive(c.s, b.s, a.s);
      } else {
        StrLeTransitive(a.s, b.s, c.s);
      }
    }
  }

  /** Every earlier element may come before every later one. */
  ghost predicate SortedBy<T>(s: seq<T>, key: T -> Key, descending: bool) {
    forall i, j :: 0 <= i < j < |s| ==> Before(key(s[i]), key(s[j]), descending)
  }

  /** Places `x` in front of the first element it may come before. */
  function Insert<T>(x: T, s: seq<T>, key: T -> Key, descending: bool): (r: seq<T>)
    ensures multiset(r) == multiset(s) + multiset{x}
    ensures |r| == |s| + 1
  {
    if |s| == 0 then [x]
    else if Before(key(x), key(s[0]), descending) then [x] + s
    else
      assert s == [s[0]] + s[1..];
      [s[0]] + Insert(x, s[1..], key, descending)
  }

  lemma {:induction false} InsertSorted<T>(x: T, s: seq<T>, key: T -> Key, descending: bool)
    requires SortedBy(s, key, descending)
    ensures SortedBy(Insert(x, s, key, descending), key, descending)
  {
    if |s| > 0 && !Before(key(x), key(s[0]), descending) {
      var rest := Insert(x, s[1..], key, descending);
      InsertSorted(x, s[1..], key, descending);
      BeforeTotal(key(x), key(s[0]), descending);
      var r := [s[0]] + rest;
      forall j | 0 < j < |r|
        ensures Before(key(r[0]), key(r[j]), descending)
      {
        assert r[j] in multiset(rest);
        assert r[j] == x || r[j] in multiset(s[1..]);
        if r[j] != x {
          var k :| 0 <= k < |s[1..]| && s[1..][k] == r[j];
          assert s[k + 1] == r[j];
        }
      }
    } else if |s| > 0 {
      var r := [x] + s;
      forall i, j | 0 <= i < j < |r|
        ensures Before(key(r[i]), key(r[j]), descending)
      {
        if i == 0 && j > 1 {
          BeforeTransitive(key(x), key(s[0]), key(s[j - 1]), descending);
        }
      }
    }
  }

  /** A stable sort of `s` by `key`: the result holds the same elements, each earlier one
      allowed before each later one. */
  function SortBy<T>(s: seq<T>, key: T -> Key, descending: bool): (r: seq<T>)
    ensures multiset(r) == multiset(s)
    ensures |r| == |s|
    ensures SortedBy(r, key, descending)
  {
    if |s| == 0 then []
    else
      var rest := SortBy(s[1..], key, descending);
      InsertSorted(s[0], rest, key, descending);
      MultisetOfCons(s);
      Insert(s[0], rest, key, descending)
  }

  lemma MultisetOfCons<T>(s: seq<T>)
    requires |s| > 0
    ensures multiset(s) == multiset(s[1..]) + multiset{s[0]}
  {
    assert s == [s[0]] + s[1..];
  }

  /** The sort is stable on sorted input: a list already in order comes back unchanged. */
  lemma {:induction false} SortBySorted<T>(s: seq<T>, key: T -> Key, descending: bool)
    requires SortedBy(s, key, descending)
    ensures SortBy(s, key, descending) == s
  {
    if |s| > 0 {
      assert SortedBy(s[1..], key, descending);
      SortBySorted(s[1..], key, descending);
      if |s| > 1 {
        assert Before(key(s[0]), key(s[1..][0]), descending);
      }
      assert [s[0]] + s[1..] == s;
    }
  }
}
