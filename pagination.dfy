/**
 * The pagination bar: a page click inside `[1, last_page]` sets `page`
 * without resetting it, the window of page buttons around the current page,
 * and which controls are disabled.
 */
module Pagination {
  import opened Wrappers
  import opened Types
  import opened QueryParams
  import Strings

  /** `FIRST_PAGE`. */
  const FirstPage := "1"

  /** `handlePageClick(page)`. */
  function HandlePageClick(p: Params, page: int, lastPage: int): (r: Params)
    ensures page < 1 || page > lastPage ==> r == p
  {
    if page < 1 || page > lastPage then p
    else Updated(p, [ParamUpdate(PageKey, Some(Strings.IntToString(page)))], false)
  }

  /** An in-range click sets `page` to the number's decimal text and keeps every other key. */
  lemma PageClickInRange(p: Params, page: int, lastPage: int)
    requires 1 <= page <= lastPage
    ensures var r := HandlePageClick(p, page, lastPage);
      && Get(r, PageKey) == Some(Strings.NatToString(page))
      && Strings.ParseInt(r[PageKey]) == page
      && forall k :: k != PageKey ==> Get(r, k) == Get(p, k)
  {
    var us := [ParamUpdate(PageKey, Some(Strings.IntToString(page)))];
    UpdateSetsValue(p, us, false, 0);
    forall k | k != PageKey ensures Get(Updated(p, us, false), k) == Get(p, k) {
      UpdateFrame(p, us, false, k);
    }
    Strings.ParseIntToString(page);
  }

  /** Clicking page 1 writes `FIRST_PAGE`. */
  lemma FirstPageClick(p: Params, lastPage: int)
    requires lastPage >= 1
    ensures Get(HandlePageClick(p, 1, lastPage), PageKey) == Some(FirstPage)
  {
    PageClickInRange(p, 1, lastPage);
  }

  function Max(a: int, b: int): int { if a < b then b else a }
  function Min(a: int, b: int): int { if a < b then a else b }

  /** The page numbers rendered: `max(1, cur - 2)` up to `min(last, cur + 2)`. */
  function PageWindow(currentPage: int, lastPage: int): (w: seq<int>)
    ensures forall i :: 0 <= i < |w| ==> w[i] == Max(1, currentPage - 2) + i
    ensures forall n :: n in w <==> Max(1, currentPage - 2) <= n <= Min(lastPage, currentPage + 2)
  {
    var start := Max(1, currentPage - 2);
    var end := Min(lastPage, currentPage + 2);
    if end < start then []
    else
      var w := seq(end - start + 1, i => start + i);
      RunMembers(start, w);
      w
  }

  /** A run of consecutive numbers from `start` holds every number it spans. */
  lemma RunMembers(start: int, w: seq<int>)
    requires forall i :: 0 <= i < |w| ==> w[i] == start + i
    ensures forall n :: start <= n < start + |w| ==> n in w
  {
    forall n | start <= n < start + |w| ensures n in w {
      assert w[n - start] == n;
    }
  }

  /** At most five buttons, ascending, all between 1 and `last_page`. */
  lemma PageWindowBounds(currentPage: int, lastPage: int)
    ensures var w := PageWindow(currentPage, lastPage);
      && |w| <= 5
      && (forall i :: 0 <= i < |w| ==> 1 <= w[i] <= lastPage)
      && (forall i, j :: 0 <= i < j < |w| ==> w[i] < w[j])
  {
  }

  /** A current page inside the range is in the window, around the middle. */
  lemma PageWindowHasCurrent(currentPage: int, lastPage: int)
    requires 1 <= currentPage <= lastPage
    ensures currentPage in PageWindow(currentPage, lastPage)
    ensures forall i :: 0 <= i < |PageWindow(currentPage, lastPage)| ==>
      currentPage - 2 <= PageWindow(currentPage, lastPage)[i] <= currentPage + 2
  {
    var w := PageWindow(currentPage, lastPage);
    assert w[currentPage - Max(1, currentPage - 2)] == currentPage;
  }

  datatype PageButton = PageButton(page: int, disabled: bool, highlighted: bool)

  /** `renderPageNumbers`: the `for` loop that pushes one button per page. */
  method RenderPageNumbers(currentPage: int, lastPage: int, isPlaceholderData: bool)
    returns (pageButtons: seq<PageButton>)
    ensures |pageButtons| == |PageWindow(currentPage, lastPage)|
    ensures forall i :: 0 <= i < |pageButtons| ==>
      pageButtons[i] == PageButton(PageWindow(currentPage, lastPage)[i], isPlaceholderData,
                                   PageWindow(currentPage, lastPage)[i] == currentPage)
  {
    pageButtons := [];
    var rangeStart := Max(1, currentPage - 2);
    var rangeEnd := Min(lastPage, currentPage + 2);
    var i := rangeStart;
    while i <= rangeEnd
      invariant rangeStart <= i <= Max(rangeStart, rangeEnd + 1)
      invariant |pageButtons| == i - rangeStart
      invariant forall j :: 0 <= j < |pageButtons| ==>
        pageButtons[j] == PageButton(rangeStart + j, isPlaceholderData, rangeStart + j == currentPage)
    {
      pageButtons := pageButtons + [PageButton(i, isPlaceholderData, i == currentPage)];
      i := i + 1;
    }
  }

  /** With the current page in range, exactly its button is highlighted. */
  lemma ExactlyCurrentHighlighted(buttons: seq<PageButton>, currentPage: int, lastPage: int, placeholder: bool)
    requires 1 <= currentPage <= lastPage
    requires |buttons| == |PageWindow(currentPage, lastPage)|
    requires forall i :: 0 <= i < |buttons| ==>
      buttons[i] == PageButton(PageWindow(currentPage, lastPage)[i], placeholder,
                               PageWindow(currentPage, lastPage)[i] == currentPage)
    ensures exists i :: 0 <= i < |buttons| && buttons[i].highlighted
    ensures forall i, j ::
      (0 <= i < |buttons| && 0 <= j < |buttons| && buttons[i].highlighted && buttons[j].highlighted) ==> i == j
    ensures forall i :: 0 <= i < |buttons| ==> buttons[i].disabled == placeholder
  {
    var w := PageWindow(currentPage, lastPage);
    var k := currentPage - Max(1, currentPage - 2);
    assert w[k] == currentPage;
    assert buttons[k].highlighted;
  }

  /** What the bar shows: which controls are disabled, whether numbers are listed. */
  datatype Controls = Controls(
    previousDisabled: bool,
    nextDisabled: bool,
    pageNumbers: seq<int>,
    pageNumbersDisabled: bool)

  function BarControls(p: PaginationInfo, isPlaceholderData: bool): (c: Controls)
    ensures !p.hasPages ==> c.pageNumbers == []
    ensures p.hasPages ==> c.pageNumbers == PageWindow(p.currentPage, p.lastPage)
    ensures isPlaceholderData ==> c.previousDisabled && c.nextDisabled && c.pageNumbersDisabled
    ensures c.previousDisabled <==> !p.hasPrevPage || isPlaceholderData
    ensures c.nextDisabled <==> !p.hasNextPage || isPlaceholderData
    ensures c.pageNumbersDisabled <==> isPlaceholderData
  {
    Controls(
      !p.hasPrevPage || isPlaceholderData,
      !p.hasNextPage || isPlaceholderData,
      if p.hasPages then PageWindow(p.currentPage, p.lastPage) else [],
      isPlaceholderData)
  }

  /** The backend's pagination invariant: the flags agree with the page numbers. */
  predicate Consistent(p: PaginationInfo) {
    && 1 <= p.currentPage <= p.lastPage
    && (p.hasPrevPage <==> p.currentPage > 1)
    && (p.hasNextPage <==> p.currentPage < p.lastPage)
  }

  /**
   * When the backend's flags are consistent, an enabled Previous or Next
   * button is never ignored: its click lands on the neighbouring page.
   */
  lemma EnabledNeighbourClickTakesEffect(params: Params, p: PaginationInfo, isPlaceholderData: bool)
    requires Consistent(p)
    ensures !BarControls(p, isPlaceholderData).previousDisabled ==>
      Get(HandlePageClick(params, p.currentPage - 1, p.lastPage), PageKey)
        == Some(Strings.NatToString(p.currentPage - 1))
    ensures !BarControls(p, isPlaceholderData).nextDisabled ==>
      Get(HandlePageClick(params, p.currentPage + 1, p.lastPage), PageKey)
        == Some(Strings.NatToString(p.currentPage + 1))
    ensures isPlaceholderData ==>
      BarControls(p, isPlaceholderData).previousDisabled && BarControls(p, isPlaceholderData).nextDisabled
  {
    if p.hasPrevPage {
      PageClickInRange(params, p.currentPage - 1, p.lastPage);
    }
    if p.hasNextPage {
      PageClickInRange(params, p.currentPage + 1, p.lastPage);
    }
  }
}
