/**
 * The dashboard table of public/js/scripts.js: the fetched listings are
 * shown twenty at a time, and a pagination bar offers Previous, one button
 * per page and Next. The HTML rows become Row values carrying the listing
 * and the data-index of its details button.
 */
module Dashboard {
  import opened Wrappers
  import opened Seqs
  import opened Extractor

  const ItemsPerPage: nat := 20

  /** Array.prototype.slice's reading of one bound: negative counts from the end, then clamp. */
  function SliceBound(rel: int, len: nat): (k: nat)
    ensures k <= len
    ensures 0 <= rel <= len ==> k == rel
    ensures rel > len ==> k == len
    ensures rel < 0 ==> k == if len + rel < 0 then 0 else len + rel
  {
    if rel < 0 then (if len + rel < 0 then 0 else len + rel)
    else if rel < len then rel
    else len
  }

  /** Array.prototype.slice(start, end). */
  function JsSlice<T>(s: seq<T>, start: int, end: int): seq<T> {
    var from, to := SliceBound(start, |s|), SliceBound(end, |s|);
    if from < to then s[from..to] else []
  }

  /** The index in `listings` of the first row of page p. */
  function StartIndex(pageNum: int): int {
    (pageNum - 1) * ItemsPerPage
  }

  /**
   * The listings page p shows. For a page number from 1 on it is the run of
   * at most twenty listings beginning at StartIndex(p), cut short by the end
   * of the list, and nothing once StartIndex(p) is past the end.
   */
  function PageListings<T>(listings: seq<T>, pageNum: int): (r: seq<T>)
    ensures pageNum >= 1 ==> |r| <= ItemsPerPage
    ensures pageNum >= 1 ==> |r| == if StartIndex(pageNum) >= |listings| then 0
                                     else Min(ItemsPerPage, |listings| - StartIndex(pageNum))
    ensures pageNum >= 1 ==> forall i :: 0 <= i < |r| ==> r[i] == listings[StartIndex(pageNum) + i]
  {
    JsSlice(listings, StartIndex(pageNum), StartIndex(pageNum) + ItemsPerPage)
  }

  /** Math.ceil(len / 20): the number of pages there are buttons for. */
  function TotalPages(len: nat): (n: nat)
    ensures len == 0 <==> n == 0
    ensures n > 0 ==> (n - 1) * ItemsPerPage < len <= n * ItemsPerPage
  {
    (len + ItemsPerPage - 1) / ItemsPerPage
  }

  /** One listing's pair of table rows; dataIndex is the data-index of its details button. */
  datatype Row = Row(listing: ListingRecord, dataIndex: int)

  /** A numbered page button; `active` is the highlighted one. */
  datatype PageButton = PageButton(pageNumber: nat, active: bool)

  /** The pagination bar: Previous, the page buttons in order, Next. */
  datatype PaginationBar = PaginationBar(prevDisabled: bool, pageButtons: seq<PageButton>, nextDisabled: bool)

  /** The rows displayPage(p) renders: each listing of the page with the button index startIndex + index. */
  function PageRows(listings: seq<ListingRecord>, pageNum: int): seq<Row> {
    var shown := PageListings(listings, pageNum);
    seq(|shown|, i requires 0 <= i < |shown| => Row(shown[i], StartIndex(pageNum) + i))
  }

  /** The bar updatePagination builds for a list of `len` listings while page `currentPage` is shown. */
  function PaginationFor(len: nat, currentPage: int): PaginationBar {
    PaginationBar(
      currentPage == 1,
      seq(TotalPages(len), i requires 0 <= i < TotalPages(len) => PageButton(i + 1, i + 1 == currentPage)),
      currentPage == TotalPages(len))
  }

  /**
   * On every page from 1 on, a row's data-index is the position in `listings`
   * of the very listing that row shows, and the rows are consecutive.
   */
  lemma RowsPointIntoListings(listings: seq<ListingRecord>, pageNum: int)
    requires pageNum >= 1
    ensures |PageRows(listings, pageNum)| <= ItemsPerPage
    ensures forall i :: 0 <= i < |PageRows(listings, pageNum)| ==>
      var row := PageRows(listings, pageNum)[i];
      row.dataIndex == StartIndex(pageNum) + i &&
      0 <= row.dataIndex < |listings| && listings[row.dataIndex] == row.listing
  {
  }

  /**
   * A button is active exactly when its page is the current one, so there is
   * one active button when the current page is among 1..totalPages and none
   * otherwise.
   */
  lemma ActiveButtonUnique(len: nat, currentPage: int)
    ensures var buttons := PaginationFor(len, currentPage).pageButtons;
            forall k :: 0 <= k < |buttons| ==> (buttons[k].active <==> buttons[k].pageNumber == currentPage)
    ensures var buttons := PaginationFor(len, currentPage).pageButtons;
            forall j, k :: 0 <= j < k < |buttons| && buttons[j].active ==> !buttons[k].active
    ensures var buttons := PaginationFor(len, currentPage).pageButtons;
            (exists k :: 0 <= k < |buttons| && buttons[k].active) <==> 1 <= currentPage <= TotalPages(len)
  {
    var buttons := PaginationFor(len, currentPage).pageButtons;
    if 1 <= currentPage <= TotalPages(len) {
      assert buttons[currentPage - 1].active;
    }
  }

  /** With no listings there are no page buttons, and on page 1 Previous is disabled but Next is not. */
  lemma EmptyListKeepsNextEnabled()
    ensures PaginationFor(0, 1).pageButtons == []
    ensures PaginationFor(0, 1).prevDisabled && !PaginationFor(0, 1).nextDisabled
  {
  }

  /**
   * Every enabled control leads to a page in range again: Previous is enabled
   * only past page 1, Next, on a non-empty list, only before the last page,
   * and the page buttons are numbered 1..totalPages. On an empty list there
   * are no page buttons and every page from 1 on is in range.
   */
  lemma NavigationStaysInRange(len: nat, currentPage: int)
    requires currentPage >= 1 && (len > 0 ==> currentPage <= TotalPages(len))
    ensures !PaginationFor(len, currentPage).prevDisabled ==>
              1 <= currentPage - 1 && (len > 0 ==> currentPage - 1 <= TotalPages(len))
    ensures !PaginationFor(len, currentPage).nextDisabled && len > 0 ==> 1 <= currentPage + 1 <= TotalPages(len)
    ensures forall b :: b in PaginationFor(len, currentPage).pageButtons ==> 1 <= b.pageNumber <= TotalPages(len)
  {
  }

  /** Pages 1..k together show the first min(20k, len) listings, in order. */
  lemma {:induction false} PagesPrefix<T>(listings: seq<T>, k: nat)
    requires k <= TotalPages(|listings|)
    ensures ConcatRange((p: nat) => PageListings(listings, p), 1, k) == listings[..Min(k * ItemsPerPage, |listings|)]
  {
    if k > 0 {
      PagesPrefix(listings, k - 1);
      PageIsSlice(listings, k);
      SlicesJoin(listings, (k - 1) * ItemsPerPage, Min(k * ItemsPerPage, |listings|));
    }
  }

  /** Page k, for k among 1..totalPages, is the slice from (k-1)*20 to min(20k, len). */
  lemma PageIsSlice<T>(listings: seq<T>, k: nat)
    requires 1 <= k <= TotalPages(|listings|)
    ensures (k - 1) * ItemsPerPage <= Min(k * ItemsPerPage, |listings|) <= |listings|
    ensures PageListings(listings, k) == listings[(k - 1) * ItemsPerPage..Min(k * ItemsPerPage, |listings|)]
  {
  }

  /** A prefix followed by the slice after it is a longer prefix. */
  lemma SlicesJoin<T>(s: seq<T>, lo: nat, hi: nat)
    requires lo <= hi <= |s|
    ensures s[..lo] + s[lo..hi] == s[..hi]
  {
  }

  /** Pages 1..totalPages, taken in order, show every listing exactly once: together they are `listings`. */
  lemma PagesReassemble<T>(listings: seq<T>)
    ensures ConcatRange((p: nat) => PageListings(listings, p), 1, TotalPages(|listings|)) == listings
  {
    PagesPrefix(listings, TotalPages(|listings|));
    assert listings[..|listings|] == listings;
  }

  /**
   * The dashboard's state: the listings fetched from the back end, the page
   * shown, the table body and the pagination bar (None before the first
   * displayPage).
   */
  class ListingsTable {
    var listings: seq<ListingRecord>
    var currentPage: int
    var rows: seq<Row>
    var pagination: Option<PaginationBar>

    /** The rendered table and bar are those of the current page. */
    predicate Displayed()
      reads this
    {
      rows == PageRows(listings, currentPage) && pagination == Some(PaginationFor(|listings|, currentPage))
    }

    /** The current page is a real page number, and one of the list's pages when it has any. */
    predicate InRange()
      reads this
    {
      currentPage >= 1 && (listings != [] ==> currentPage <= TotalPages(|listings|))
    }

    /** The state before the fetch completes: no listings, page 1, nothing rendered. */
    constructor ()
      ensures listings == [] && currentPage == 1 && rows == [] && pagination == None
      ensures InRange()
    {
      listings := [];
      currentPage := 1;
      rows := [];
      pagination := None;
    }

    /** A successful fetch: the listings are stored and the first page is shown. */
    method ReceiveListings(data: seq<ListingRecord>)
      modifies this
      ensures listings == data && currentPage == 1
      ensures Displayed() && InRange()
    {
      listings := data;
      DisplayPage(1);
    }

    /** displayPage(pageNum): render that page's rows, make it current and rebuild the bar; the listings stay. */
    method DisplayPage(pageNum: int)
      modifies this`currentPage, this`rows, this`pagination
      ensures listings == old(listings) && currentPage == pageNum
      ensures rows == PageRows(listings, pageNum)
      ensures pagination == Some(PaginationFor(|listings|, pageNum))
      ensures Displayed()
    {
      var startIndex := (pageNum - 1) * ItemsPerPage;
      var endIndex := startIndex + ItemsPerPage;
      var pageListings := JsSlice(listings, startIndex, endIndex);
      var body: seq<Row> := [];
      var index := 0;
      while index < |pageListings|
        invariant 0 <= index <= |pageListings| && |body| == index
        invariant forall i :: 0 <= i < index ==> body[i] == Row(pageListings[i], startIndex + i)
      {
        body := body + [Row(pageListings[index], startIndex + index)];
        index := index + 1;
      }
      rows := body;
      currentPage := pageNum;
      UpdatePagination();
    }

    /** updatePagination(): rebuild the bar for the current page. */
    method UpdatePagination()
      modifies this`pagination
      ensures pagination == Some(PaginationFor(|listings|, currentPage))
    {
      var totalPages := TotalPages(|listings|);
      var prevDisabled := currentPage == 1;
      var buttons: seq<PageButton> := [];
      for i := 1 to totalPages + 1
        invariant |buttons| == i - 1
        invariant forall k :: 0 <= k < i - 1 ==> buttons[k] == PageButton(k + 1, k + 1 == currentPage)
      {
        buttons := buttons + [PageButton(i, i == currentPage)];
      }
      assert buttons == PaginationFor(|listings|, currentPage).pageButtons;
      var nextDisabled := currentPage == totalPages;
      pagination := Some(PaginationBar(prevDisabled, buttons, nextDisabled));
    }

    /** A click on an enabled Previous button shows the page before the current one. */
    method ClickPrevious()
      requires pagination.Some? && !pagination.value.prevDisabled
      requires Displayed() && InRange()
      modifies this`currentPage, this`rows, this`pagination
      ensures currentPage == old(currentPage) - 1 && listings == old(listings)
      ensures Displayed() && InRange()
    {
      NavigationStaysInRange(|listings|, currentPage);
      DisplayPage(currentPage - 1);
    }

    /** A click on an enabled Next button shows the page after the current one. */
    method ClickNext()
      requires pagination.Some? && !pagination.value.nextDisabled
      requires Displayed() && InRange()
      modifies this`currentPage, this`rows, this`pagination
      ensures currentPage == old(currentPage) + 1 && listings == old(listings)
      ensures Displayed() && InRange()
    {
      NavigationStaysInRange(|listings|, currentPage);
      DisplayPage(currentPage + 1);
    }

    /** A click on the k-th page button shows the page it is numbered with. */
    method ClickPageButton(k: nat)
      requires pagination.Some? && k < |pagination.value.pageButtons|
      requires Displayed() && InRange()
      modifies this`currentPage, this`rows, this`pagination
      ensures currentPage == k + 1 && listings == old(listings)
      ensures Displayed() && InRange()
    {
      DisplayPage(pagination.value.pageButtons[k].pageNumber);
    }
  }
}
