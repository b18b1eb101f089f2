/** Pagination as both list views do it: `slice((page - 1) * perPage, page * perPage)`
    over the full list, a page count of `Math.ceil(n / perPage)`, and "previous"/"next"
    buttons clamped with `Math.max` and `Math.min`. */
module Paging {
  /** `Array.prototype.slice(start, end)`: a negative bound counts from the end, bounds
      are clamped to the list, and a window that ends before it starts is empty. */
  function JsSlice<T>(s: seq<T>, start: int, end: int): (r: seq<T>)
    ensures 0 <= start <= end <= |s| ==> r == s[start..end]
    ensures end == 0 ==> r == []
    ensures |r| <= |s|
    ensures forall i :: 0 <= i < |r| ==> r[i] in s
  {
    var from := if start < 0 then Max0(|s| + start) else Min(start, |s|);
    var to := if end < 0 then Max0(|s| + end) else Min(end, |s|);
    if to <= from then [] else s[from..to]
  }

  function Max0(x: int): nat {
    if x < 0 then 0 else x
  }

  function Min(x: int, y: int): int {
    if x <= y then x else y
  }

  /** The products shown on page `page` (counting from 1). */
  function Paginate<T>(s: seq<T>, page: int, perPage: nat): (r: seq<T>)
    ensures |r| <= perPage
    ensures forall i :: 0 <= i < |r| ==> r[i] in s
  {
    var start := (page - 1) * perPage;
    JsSlice(s, start, start + perPage)
  }

  /** `Math.ceil(n / perPage)`. */
  function TotalPages(n: nat, perPage: nat): (r: nat)
    requires perPage > 0
    ensures r == 0 <==> n == 0
    ensures n <= r * perPage
    ensures r > 0 ==> (r - 1) * perPage < n
  {
    (n + perPage - 1) / perPage
  }

  /** Pages 1 to `k` shown one after the other. */
  function PagesUpTo<T>(s: seq<T>, perPage: nat, k: nat): seq<T> {
    if k == 0 then [] else PagesUpTo(s, perPage, k - 1) + Paginate(s, k, perPage)
  }

  /** Reading pages 1 to the page count one after another gives back the whole list, in
      order, and none of those pages is empty: the pages split the list without loss,
      overlap or reordering. */
  lemma PagesCoverTheList<T>(s: seq<T>, perPage: nat)
    requires perPage > 0
    ensures PagesUpTo(s, perPage, TotalPages(|s|, perPage)) == s
    ensures forall page :: 1 <= page <= TotalPages(|s|, perPage) ==> |Paginate(s, page, perPage)| > 0
  {
    var t := TotalPages(|s|, perPage);
    PagesPrefix(s, perPage, t);
    assert Min(t * perPage, |s|) == |s|;
    forall page | 1 <= page <= t ensures |Paginate(s, page, perPage)| > 0 {
      PageContents(s, perPage, page);
    }
  }

  lemma {:induction false} PagesPrefix<T>(s: seq<T>, perPage: nat, k: nat)
    requires perPage > 0 && k <= TotalPages(|s|, perPage)
    ensures PagesUpTo(s, perPage, k) == s[..Min(k * perPage, |s|)]
  {
    if k > 0 {
      PagesPrefix(s, perPage, k - 1);
      PageContents(s, perPage, k);
      var start := (k - 1) * perPage;
      assert Min(start, |s|) == start;
      assert s[..start] + s[start..Min(k * perPage, |s|)] == s[..Min(k * perPage, |s|)];
    }
  }

  /** A page within the page count is the next `perPage` products, cut at the end. */
  lemma PageContents<T>(s: seq<T>, perPage: nat, page: int)
    requires perPage > 0 && 1 <= page <= TotalPages(|s|, perPage)
    ensures 0 <= (page - 1) * perPage < |s|
    ensures Paginate(s, page, perPage) == s[(page - 1) * perPage .. Min(page * perPage, |s|)]
    ensures |Paginate(s, page, perPage)| > 0
  {
    var t := TotalPages(|s|, perPage);
    MulMonotonic(page - 1, t - 1, perPage);
    assert page * perPage == (page - 1) * perPage + perPage;
  }

  /** Entry `m` of page `q + 1` is product `q * perPage + m`. */
  lemma EntryOfPage<T>(s: seq<T>, perPage: nat, q: nat, m: nat)
    requires m < perPage && q * perPage + m < |s|
    ensures q + 1 <= TotalPages(|s|, perPage)
    ensures m < |Paginate(s, q + 1, perPage)|
    ensures Paginate(s, q + 1, perPage)[m] == s[q * perPage + m]
  {
    var start := q * perPage;
    IndexPageInRange(|s|, perPage, q, start + m);
    PageContents(s, perPage, q + 1);
    NextMultiple(q, perPage);
  }

  lemma NextMultiple(q: int, perPage: nat)
    ensures (q + 1 - 1) * perPage == q * perPage
    ensures (q + 1) * perPage == q * perPage + perPage
  {
  }

  lemma IndexPageInRange(n: nat, perPage: nat, q: int, i: int)
    requires perPage > 0 && 0 <= q && q * perPage <= i < n
    ensures q + 1 <= TotalPages(n, perPage)
  {
    var t := TotalPages(n, perPage);
    if t <= q {
      MulMonotonic(t, q, perPage);
      assert false;
    }
  }

  lemma MulMonotonic(a: int, b: int, c: nat)
    requires a <= b
    ensures a * c <= b * c
  {
  }

  /** The "previous" button: one page back, never below page 1. */
  function PrevPage(page: int): (r: int)
    ensures r >= 1
    ensures page > 1 ==> r == page - 1
    ensures page <= 1 ==> r == 1
  {
    if page - 1 < 1 then 1 else page - 1
  }

  /** The "next" button: one page on, never beyond the page count. */
  function NextPage(page: int, totalPages: int): (r: int)
    ensures r <= totalPages
    ensures page < totalPages ==> r == page + 1
    ensures page >= totalPages ==> r == totalPages
  {
    Min(totalPages, page + 1)
  }

  /** Inside the page range the buttons stay inside it, and "next" then "previous" comes
      back to the same page unless the last page was already reached. */
  lemma NavigationStaysInRange(page: int, totalPages: int)
    requires 1 <= page <= totalPages
    ensures 1 <= NextPage(page, totalPages) <= totalPages
    ensures 1 <= PrevPage(page) <= totalPages
    ensures page < totalPages ==> PrevPage(NextPage(page, totalPages)) == page
  {
  }
}
