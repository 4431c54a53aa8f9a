/**
 * Client-side pagination of the filtered list: fixed pages of six items,
 * the page count, the slice shown for a page, and the previous/next
 * handlers of the pagination controls.
 */
module Pagination {

  /** `ITEM_PER_PAGE`. */
  const ItemsPerPage: nat := 6

  function Min(a: int, b: int): int {
    if a <= b then a else b
  }

  function Max(a: int, b: int): int {
    if a <= b then b else a
  }

  /** `Math.ceil(n / ITEM_PER_PAGE)`: the fewest pages that hold `n` items. */
  function TotalPages(n: nat): (k: nat)
    ensures k * ItemsPerPage >= n
    ensures k > 0 ==> (k - 1) * ItemsPerPage < n
  {
    (n + ItemsPerPage - 1) / ItemsPerPage
  }

  /** How `Array.prototype.slice` resolves one bound: negative counts from the end, then clamp. */
  function RelativeIndex(i: int, len: nat): (r: nat)
    ensures r <= len
  {
    if i < 0 then Max(len + i, 0) else Min(i, len)
  }

  /** `s.slice(start, end)`: clipped at both ends, empty when the bounds cross. */
  function JsSlice<T>(s: seq<T>, start: int, end: int): (r: seq<T>)
    ensures |r| <= |s|
    ensures 0 <= start <= |s| && start <= end ==> r == s[start..Min(end, |s|)]
    ensures |s| <= start ==> r == []
    ensures start <= end ==> |r| <= end - start
  {
    var from := RelativeIndex(start, |s|);
    var to := RelativeIndex(end, |s|);
    RelativeIndexGap(start, end, |s|);
    if from < to then s[from..to] else []
  }

  /** Resolving two ordered bounds never widens the gap between them. */
  lemma RelativeIndexGap(a: int, b: int, len: nat)
    ensures a <= b ==> RelativeIndex(b, len) - RelativeIndex(a, len) <= b - a
  {
  }

  /** `startIndex` for a page. */
  function PageStart(page: int): int {
    (page - 1) * ItemsPerPage
  }

  /** `currentItems`: the slice of the list shown on `page`. */
  function PageSlice<T>(list: seq<T>, page: int): (items: seq<T>)
    ensures |items| <= ItemsPerPage
    ensures page >= 1 && PageStart(page) <= |list| ==>
              items == list[PageStart(page)..Min(page * ItemsPerPage, |list|)]
    ensures page > TotalPages(|list|) ==> items == []
    ensures 1 <= page <= TotalPages(|list|) ==> items != []
  {
    JsSlice(list, PageStart(page), PageStart(page) + ItemsPerPage)
  }

  /** An item at offset `j` of a page is the list item at `startIndex + j`. */
  lemma PageSliceAt<T>(list: seq<T>, page: int, j: int)
    requires page >= 1 && 0 <= j < |PageSlice(list, page)|
    ensures PageStart(page) + j < |list|
    ensures PageSlice(list, page)[j] == list[PageStart(page) + j]
  {
  }

  /** Pages `1..k`, concatenated in order. */
  function PagesUpTo<T>(list: seq<T>, k: nat): seq<T> {
    if k == 0 then [] else PagesUpTo(list, k - 1) + PageSlice(list, k)
  }

  lemma {:induction false} PagesUpToPrefix<T>(list: seq<T>, k: nat)
    ensures PagesUpTo(list, k) == list[..Min(k * ItemsPerPage, |list|)]
  {
    if k > 0 {
      PagesUpToPrefix(list, k - 1);
      var m := Min((k - 1) * ItemsPerPage, |list|);
      if PageStart(k) <= |list| {
        assert list[..m] + list[m..Min(k * ItemsPerPage, |list|)] == list[..Min(k * ItemsPerPage, |list|)];
      }
    }
  }

  /** Concatenating pages `1..totalPages` gives back the whole list. */
  lemma PagesReassemble<T>(list: seq<T>)
    ensures PagesUpTo(list, TotalPages(|list|)) == list
  {
    PagesUpToPrefix(list, TotalPages(|list|));
    assert list[..|list|] == list;
  }

  /** Position `i` lies on page `p` exactly when `p` is `i / 6 + 1`: no item is on two pages. */
  lemma OnePagePerIndex(i: nat, p: int)
    requires p >= 1
    ensures PageStart(p) <= i < PageStart(p) + ItemsPerPage <==> p == i / ItemsPerPage + 1
  {
    var q := i / ItemsPerPage;
    assert i == q * ItemsPerPage + i % ItemsPerPage;
  }

  /** Every list item is shown on page `i / 6 + 1`, within the page count. */
  lemma IndexOnPage<T>(list: seq<T>, i: int)
    requires 0 <= i < |list|
    ensures 1 <= i / ItemsPerPage + 1 <= TotalPages(|list|)
    ensures i - PageStart(i / ItemsPerPage + 1) < |PageSlice(list, i / ItemsPerPage + 1)|
    ensures PageSlice(list, i / ItemsPerPage + 1)[i - PageStart(i / ItemsPerPage + 1)] == list[i]
  {
    var p := i / ItemsPerPage + 1;
    OnePagePerIndex(i, p);
    assert PageStart(p) <= |list|;
  }

  /** On a non-empty list the last page holds between one and six items. */
  lemma LastPageSize<T>(list: seq<T>)
    requires |list| > 0
    ensures 1 <= |PageSlice(list, TotalPages(|list|))| <= ItemsPerPage
  {
  }

  /** Thirteen items make three pages, the third holding one item. */
  lemma ThirteenItems<T>(list: seq<T>)
    requires |list| == 13
    ensures TotalPages(|list|) == 3 && |PageSlice(list, 3)| == 1
  {
  }

  /** `handlePrevious`: steps back by one unless already on page 1. */
  function PreviousPage(page: int): (r: int)
    ensures r < page <==> page > 1
    ensures r == page || r == page - 1
    ensures page >= 1 ==> r >= 1
  {
    if page > 1 then page - 1 else page
  }

  /** `handleNext`: steps forward by one unless already on the last page. */
  function NextPage(page: int, totalPages: int): (r: int)
    ensures r > page <==> page < totalPages
    ensures r == page || r == page + 1
    ensures page <= totalPages ==> r <= totalPages
  {
    if page < totalPages then page + 1 else page
  }

  /** Both handlers keep the page within `1..max(1, totalPages)`. */
  lemma NavigationInRange(page: int, totalPages: int)
    requires 1 <= page <= Max(1, totalPages)
    ensures 1 <= PreviousPage(page) <= Max(1, totalPages)
    ensures 1 <= NextPage(page, totalPages) <= Max(1, totalPages)
  {
  }

  /** A button is disabled (`currentPage === 1`, `currentPage === totalPages`) exactly when its handler does nothing. */
  lemma DisabledExactlyWhenNoOp(page: int, totalPages: int)
    requires 1 <= page <= totalPages
    ensures PreviousPage(page) == page <==> page == 1
    ensures NextPage(page, totalPages) == page <==> page == totalPages
  {
  }

  /** Next then previous, and previous then next, return to the page away from the ends. */
  lemma NavigationRoundTrip(page: int, totalPages: int)
    ensures 1 <= page < totalPages ==> PreviousPage(NextPage(page, totalPages)) == page
    ensures 1 < page <= totalPages ==> NextPage(PreviousPage(page), totalPages) == page
  {
  }

  /** The pagination controls are rendered when not loading, the list is non-empty, and there is more than one page. */
  predicate ControlsRendered(loading: bool, filteredCount: nat) {
    !loading && filteredCount > 0 && !(TotalPages(filteredCount) <= 1)
  }

  /** The controls appear exactly when not loading and the list needs a second page. */
  lemma ControlsRenderedIff(loading: bool, n: nat)
    ensures ControlsRendered(loading, n) <==> !loading && n > ItemsPerPage
  {
  }
}
