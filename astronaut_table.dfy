/**
 * The table's pagination buttons. `maxPages` may be null (None) before the
 * first listing has arrived; the "Next" button is then disabled.
 */
module AstronautTable {
  import opened Json

  /** `canVisitPrevPage`: the page before this one is a page number (pages
      start at 1). */
  predicate CanVisitPrevPage(page: int)
  {
    page > 1
  }

  /** `canVisitNextPage`: the page count is known and the page after this
      one does not pass it. */
  predicate CanVisitNextPage(page: int, maxPages: Option<int>)
  {
    maxPages.Some? && page < maxPages.value
  }

  /** `nextPage`: one page forward if that page exists, otherwise no change. */
  function NextPage(page: int, maxPages: Option<int>): (r: int)
    ensures r == page || r == page + 1
    ensures r == page + 1 <==> maxPages.Some? && page < maxPages.value
    ensures maxPages.Some? && page <= maxPages.value ==> r <= maxPages.value
  {
    if CanVisitNextPage(page, maxPages) then page + 1 else page
  }

  /** `prevPage`: one page back unless on page 1 (or below), otherwise no change. */
  function PrevPage(page: int): (r: int)
    ensures r == page || r == page - 1
    ensures r == page - 1 <==> page > 1
    ensures 1 <= page ==> 1 <= r
  {
    if CanVisitPrevPage(page) then page - 1 else page
  }

  /** A click on one of the two pagination buttons. */
  datatype Click = Next | Prev

  /** The page after a series of clicks, each handled once the previous one
      has updated the page. */
  function Navigate(page: int, maxPages: Option<int>, clicks: seq<Click>): int
    decreases |clicks|
  {
    if clicks == [] then page
    else
      var p := if clicks[0] == Next then NextPage(page, maxPages) else PrevPage(page);
      Navigate(p, maxPages, clicks[1..])
  }

  /** Starting on a page between 1 and maxPages, no series of clicks leaves
      that range. */
  lemma {:induction false} NavigationStaysInRange(page: int, maxPages: int, clicks: seq<Click>)
    requires 1 <= page <= maxPages
    ensures 1 <= Navigate(page, Some(maxPages), clicks) <= maxPages
    decreases |clicks|
  {
    if clicks != [] {
      var p := if clicks[0] == Next then NextPage(page, Some(maxPages)) else PrevPage(page);
      NavigationStaysInRange(p, maxPages, clicks[1..]);
    }
  }

  /** While the page count is unknown, clicks can only go back, never forward. */
  lemma {:induction false} NoForwardWithoutPageCount(page: int, clicks: seq<Click>)
    ensures Navigate(page, None, clicks) <= page
    ensures 1 <= page ==> 1 <= Navigate(page, None, clicks)
    decreases |clicks|
  {
    if clicks != [] {
      var p := if clicks[0] == Next then NextPage(page, None) else PrevPage(page);
      NoForwardWithoutPageCount(p, clicks[1..]);
    }
  }

  function Repeat(c: Click, k: nat): (r: seq<Click>)
    ensures |r| == k && forall i :: 0 <= i < k ==> r[i] == c
  {
    if k == 0 then [] else [c] + Repeat(c, k - 1)
  }

  /** k clicks on "Next" move k pages forward, stopping at the last page;
      k clicks on "Previous" move k pages back, stopping at page 1. */
  lemma {:induction false} RepeatedClicks(page: int, maxPages: int, k: nat)
    requires 1 <= page <= maxPages
    ensures Navigate(page, Some(maxPages), Repeat(Next, k)) == if page + k <= maxPages then page + k else maxPages
    ensures Navigate(page, Some(maxPages), Repeat(Prev, k)) == if page - k >= 1 then page - k else 1
    decreases k
  {
    if k > 0 {
      assert Repeat(Next, k)[1..] == Repeat(Next, k - 1);
      assert Repeat(Prev, k)[1..] == Repeat(Prev, k - 1);
      RepeatedClicks(NextPage(page, Some(maxPages)), maxPages, k - 1);
      RepeatedClicks(PrevPage(page), maxPages, k - 1);
    }
  }
}
