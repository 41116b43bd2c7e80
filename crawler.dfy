/**
 * The Batch Crawler and its driver (public/js/scrape_kijiji.js).
 *
 * The browser is not modelled: loading a page is a given function from the
 * page URL to the cards the loaded page shows (None when navigation throws),
 * and a browser session is not represented, since it carries nothing from
 * one page to the next that the extracted data depends on.
 */
module Crawler {
  import opened Wrappers
  import opened JsText
  import opened Extractor
  import opened Seqs

  // ---------------------------------------------------------------------------
  // Page URLs
  // ---------------------------------------------------------------------------

  const BaseUrl: string := "https://www.kijiji.ca/b-apartments-condos/kitchener-waterloo/"
  const CategorySuffix: string := "c37l1700212"
  const PagePrefix: string := BaseUrl + "page-"
  const PageSuffix: string := "/" + CategorySuffix

  /** The URL of index page `pageNum`: page 1 is the bare category URL. */
  function PageUrl(pageNum: nat): string {
    if pageNum == 1 then BaseUrl + CategorySuffix
    else PagePrefix + NatToDecimal(pageNum) + PageSuffix
  }

  /**
   * The page number a crawler URL names, if it is one: the bare category
   * URL names page 1, and `page-n/` with n written as `${n}` writes it, other
   * than 1, names page n.
   */
  function PageOfUrl(url: string): Option<nat> {
    if url == BaseUrl + CategorySuffix then Some(1)
    else if |url| >= |PagePrefix| + |PageSuffix|
         && url[..|PagePrefix|] == PagePrefix
         && url[|url| - |PageSuffix|..] == PageSuffix
    then
      var digits := url[|PagePrefix|..|url| - |PageSuffix|];
      if IsCanonicalDecimal(digits) && DecimalValue(digits) != 1 then Some(DecimalValue(digits)) else None
    else None
  }

  /** Only page 1 is fetched at the bare category URL. */
  lemma BareUrlIsPageOne(pageNum: nat)
    ensures PageUrl(pageNum) == BaseUrl + CategorySuffix <==> pageNum == 1
  {
    if pageNum != 1 {
      assert |PageUrl(pageNum)| == |PagePrefix| + |NatToDecimal(pageNum)| + |PageSuffix|;
    }
  }

  /** Every page URL names its page: the URL builder loses nothing. */
  lemma PageUrlRoundTrip(pageNum: nat)
    ensures PageOfUrl(PageUrl(pageNum)) == Some(pageNum)
  {
    if pageNum != 1 {
      var d := NatToDecimal(pageNum);
      var url := PageUrl(pageNum);
      BareUrlIsPageOne(pageNum);
      assert url[..|PagePrefix|] == PagePrefix;
      assert url[|url| - |PageSuffix|..] == PageSuffix;
      assert url[|PagePrefix|..|url| - |PageSuffix|] == d;
      DecimalRoundTrip(pageNum);
      NatToDecimalCanonical(pageNum);
    }
  }

  /** A URL the crawler reads as page n is exactly the URL it builds for page n. */
  lemma PageOfUrlOnlyCanonical(url: string, pageNum: nat)
    requires PageOfUrl(url) == Some(pageNum)
    ensures url == PageUrl(pageNum)
  {
    if url != BaseUrl + CategorySuffix {
      var digits := url[|PagePrefix|..|url| - |PageSuffix|];
      CanonicalDecimalRoundTrip(digits);
      assert url == url[..|PagePrefix|] + digits + url[|url| - |PageSuffix|..];
    }
  }

  /** Distinct pages are fetched from distinct URLs. */
  lemma PageUrlInjective(m: nat, n: nat)
    requires PageUrl(m) == PageUrl(n)
    ensures m == n
  {
    PageUrlRoundTrip(m);
    PageUrlRoundTrip(n);
  }

  // ---------------------------------------------------------------------------
  // Request interception
  // ---------------------------------------------------------------------------

  datatype Verdict = Abort | Continue

  const BlockedResourceTypes: seq<string> := ["image", "stylesheet", "font"]

  /** The request handler: what happens to a request of the given resource type. */
  function OnRequest(resourceType: string): (v: Verdict)
    ensures v == Abort <==> resourceType == "image" || resourceType == "stylesheet" || resourceType == "font"
  {
    if resourceType in BlockedResourceTypes then Abort else Continue
  }

  /** The requests that carry listing data are never blocked. */
  lemma DataRequestsContinue()
    ensures OnRequest("document") == Continue
    ensures OnRequest("script") == Continue
    ensures OnRequest("xhr") == Continue
    ensures OnRequest("fetch") == Continue
  {
  }

  // ---------------------------------------------------------------------------
  // One batch
  // ---------------------------------------------------------------------------

  /**
   * Navigation and in-page evaluation, as seen by the crawler: the cards
   * matching the listing-card selector on the page at a URL, in document
   * order, or None when navigating to the URL throws.
   */
  type Loader = string -> Option<seq<Card>>

  /** What one page contributes to its batch: nothing when it failed to load. */
  function PageRecords(load: Loader, pageNum: nat): seq<ListingRecord> {
    match load(PageUrl(pageNum))
    case None => []
    case Some(cards) => ExtractPage(cards)
  }

  /** Each page number's contribution, as one function. */
  function PageContent(load: Loader): nat -> seq<ListingRecord> {
    (p: nat) => PageRecords(load, p)
  }

  /** The records of pages `startPage..endPage`, page after page. */
  function BatchRecords(load: Loader, startPage: nat, endPage: int): seq<ListingRecord> {
    ConcatRange(PageContent(load), startPage, endPage)
  }

  /** scrapeKijijiBatch: visit every page of the range, skipping those that fail. */
  method ScrapeBatch(load: Loader, startPage: nat, endPage: int) returns (listings: seq<ListingRecord>)
    ensures listings == BatchRecords(load, startPage, endPage)
  {
    listings := [];
    var pageNum := startPage;
    while pageNum <= endPage
      invariant startPage <= pageNum && (pageNum <= endPage + 1 || pageNum == startPage)
      invariant listings == BatchRecords(load, startPage, pageNum - 1)
      decreases endPage - pageNum
    {
      var url := PageUrl(pageNum);
      var loaded := load(url);
      BatchStep(load, startPage, pageNum);
      if loaded.None? {
        pageNum := pageNum + 1;
        continue;
      }
      var newResults := ExtractPage(loaded.value);
      listings := listings + newResults;
      pageNum := pageNum + 1;
    }
  }

  /** Extending a batch by one page appends that page's records. */
  lemma BatchStep(load: Loader, startPage: nat, pageNum: nat)
    requires startPage <= pageNum
    ensures BatchRecords(load, startPage, pageNum)
            == BatchRecords(load, startPage, pageNum - 1) + PageRecords(load, pageNum)
  {
    assert PageContent(load)(pageNum) == PageRecords(load, pageNum);
  }

  /** A batch is the batch of its first part followed by the batch of the rest. */
  lemma BatchSplit(load: Loader, startPage: nat, mid: nat, endPage: int)
    requires startPage <= mid <= endPage + 1
    ensures BatchRecords(load, startPage, endPage)
            == BatchRecords(load, startPage, mid - 1) + BatchRecords(load, mid, endPage)
  {
    ConcatRangeSplit(PageContent(load), startPage, mid, endPage);
  }

  /**
   * A page that fails to load contributes nothing, and neither the pages
   * before it nor the pages after it are lost.
   */
  lemma FailedPageSkipped(load: Loader, startPage: nat, k: nat, endPage: int)
    requires startPage <= k <= endPage
    requires load(PageUrl(k)).None?
    ensures BatchRecords(load, startPage, endPage)
            == BatchRecords(load, startPage, k - 1) + BatchRecords(load, k + 1, endPage)
  {
    var f := PageContent(load);
    assert PageRecords(load, k) == [];
    assert f(k) == [];
    assert ConcatRange(f, k, k) == ConcatRange(f, k, k - 1) + f(k) == [];
    ConcatRangeSplit(f, startPage, k, endPage);
    ConcatRangeSplit(f, k, k + 1, endPage);
  }

  /** The pages of a batch come out in increasing page order, each in document order. */
  lemma ConsecutivePages(load: Loader, p: nat, cards1: seq<Card>, cards2: seq<Card>)
    requires load(PageUrl(p)) == Some(cards1) && load(PageUrl(p + 1)) == Some(cards2)
    ensures BatchRecords(load, p, p + 1) == ExtractPage(cards1) + ExtractPage(cards2)
  {
    var f := PageContent(load);
    ConcatRangePair(f, p);
    assert f(p) == ExtractPage(cards1);
    assert f(p + 1) == ExtractPage(cards2);
  }

  /** A record is in a batch's output exactly when one of the batch's pages produced it. */
  lemma BatchMembership(load: Loader, startPage: nat, endPage: int, r: ListingRecord)
    ensures r in BatchRecords(load, startPage, endPage)
            <==> exists k :: startPage <= k <= endPage && r in PageRecords(load, k)
  {
    var f := PageContent(load);
    ConcatRangeMembership(f, startPage, endPage, r);
    assert forall k :: f(k) == PageRecords(load, k);
  }

  // ---------------------------------------------------------------------------
  // Batch ranges
  // ---------------------------------------------------------------------------

  /** An inclusive range of 1-based page numbers crawled in one browser session. */
  datatype PageRange = PageRange(start: nat, end: int)

  /** ceil(totalPages / batchSize) for a positive total, none otherwise. */
  function RangeCount(totalPages: int, batchSize: int): (n: nat)
    requires batchSize >= 1
    ensures totalPages <= 0 ==> n == 0
    ensures totalPages > 0 ==> (n - 1) * batchSize < totalPages <= n * batchSize
  {
    if totalPages <= 0 then 0 else CeilDiv(totalPages, batchSize)
  }

  function CeilDiv(a: nat, b: int): (n: nat)
    requires b >= 1
    ensures n * b >= a && (n - 1) * b < a
    decreases a
  {
    if a == 0 then 0 else if a <= b then 1 else 1 + CeilDiv(a - b, b)
  }

  /** The j-th range the partition loop pushes (counting from 0). */
  function NthRange(j: nat, totalPages: int, batchSize: int): PageRange
    requires batchSize >= 1
  {
    var i := 1 + j * batchSize;
    PageRange(i, Min(i + batchSize - 1, totalPages))
  }

  /** The partition of pages 1..totalPages into batches. */
  function Partition(totalPages: int, batchSize: int): seq<PageRange>
    requires batchSize >= 1
  {
    seq(RangeCount(totalPages, batchSize), j requires 0 <= j => NthRange(j, totalPages, batchSize))
  }

  /** The batch-range loop of scrapeAllListings. */
  method BatchRanges(totalPages: int, batchSize: int) returns (batchRanges: seq<PageRange>)
    requires batchSize >= 1
    ensures |batchRanges| == RangeCount(totalPages, batchSize)
    ensures forall j :: 0 <= j < |batchRanges| ==> batchRanges[j] == NthRange(j, totalPages, batchSize)
  {
    batchRanges := [];
    var i := 1;
    while i <= totalPages
      invariant i == 1 + |batchRanges| * batchSize
      invariant totalPages > 0 ==> (|batchRanges| - 1) * batchSize < totalPages
      invariant totalPages <= 0 ==> batchRanges == []
      invariant forall j :: 0 <= j < |batchRanges| ==> batchRanges[j] == NthRange(j, totalPages, batchSize)
      decreases totalPages - i
    {
      batchRanges := batchRanges + [PageRange(i, Min(i + batchSize - 1, totalPages))];
      i := i + batchSize;
    }
    CountFromBounds(totalPages, batchSize, |batchRanges|);
  }

  /** The number of steps the loop takes is pinned down by where it stops. */
  lemma CountFromBounds(totalPages: int, batchSize: int, n: nat)
    requires batchSize >= 1
    requires totalPages > 0 ==> (n - 1) * batchSize < totalPages < 1 + n * batchSize
    requires totalPages <= 0 ==> n == 0
    ensures n == RangeCount(totalPages, batchSize)
  {
    if totalPages > 0 {
      var m := RangeCount(totalPages, batchSize);
      if n < m {
        MulMonotone(n, m - 1, batchSize);
      } else if n > m {
        MulMonotone(m, n - 1, batchSize);
      }
    }
  }

  lemma MulMonotone(a: nat, b: nat, c: nat)
    requires a <= b
    ensures a * c <= b * c
  {
  }

  /** Every range is non-empty, within 1..totalPages and at most batchSize long. */
  lemma PartitionRangesBounded(totalPages: int, batchSize: int, j: nat)
    requires batchSize >= 1
    requires j < |Partition(totalPages, batchSize)|
    ensures var r := Partition(totalPages, batchSize)[j];
            1 <= r.start <= r.end <= totalPages && r.end - r.start + 1 <= batchSize
  {
    var n := RangeCount(totalPages, batchSize);
    MulMonotone(j, n - 1, batchSize);
  }

  /**
   * The ranges follow one another without gap or overlap, from page 1 to
   * page totalPages; all but the last are exactly batchSize long.
   */
  lemma PartitionContiguous(totalPages: int, batchSize: int)
    requires batchSize >= 1
    ensures var p := Partition(totalPages, batchSize);
            && (totalPages >= 1 ==> |p| >= 1 && p[0].start == 1 && p[|p| - 1].end == totalPages)
            && (forall j :: 0 <= j < |p| - 1 ==> p[j + 1].start == p[j].end + 1)
            && (forall j :: 0 <= j < |p| - 1 ==> p[j].end - p[j].start + 1 == batchSize)
  {
    var p := Partition(totalPages, batchSize);
    var n := |p|;
    forall j | 0 <= j < n - 1
      ensures p[j + 1].start == p[j].end + 1
      ensures p[j].end - p[j].start + 1 == batchSize
    {
      MulMonotone(j + 1, n - 1, batchSize);
      assert (j + 1) * batchSize == j * batchSize + batchSize;
    }
    if totalPages >= 1 {
      assert (n - 1) * batchSize + batchSize == n * batchSize;
    }
  }

  /** Every page of 1..totalPages lies in exactly one range, and no other page lies in any. */
  lemma PartitionCoversOnce(totalPages: int, batchSize: int, page: int)
    requires batchSize >= 1
    ensures var p := Partition(totalPages, batchSize);
            forall j :: 0 <= j < |p| ==>
              (p[j].start <= page <= p[j].end <==> 1 <= page <= totalPages && j == (page - 1) / batchSize)
    ensures 1 <= page <= totalPages ==> (page - 1) / batchSize < |Partition(totalPages, batchSize)|
  {
    var p := Partition(totalPages, batchSize);
    if 1 <= page <= totalPages {
      var n := |p|;
      var q := (page - 1) / batchSize;
      DivBounds(page - 1, batchSize);
      if q >= n {
        MulMonotone(n, q, batchSize);
      }
    }
    forall j | 0 <= j < |p|
      ensures p[j].start <= page <= p[j].end <==> 1 <= page <= totalPages && j == (page - 1) / batchSize
    {
      RangeContains(totalPages, batchSize, j, page);
    }
  }

  /** Range j holds a page exactly when the page is in 1..totalPages and j is its batch index. */
  lemma RangeContains(totalPages: int, batchSize: int, j: nat, page: int)
    requires batchSize >= 1
    requires j < RangeCount(totalPages, batchSize)
    ensures var r := NthRange(j, totalPages, batchSize);
            r.start <= page <= r.end <==> 1 <= page <= totalPages && j == (page - 1) / batchSize
  {
    var r := NthRange(j, totalPages, batchSize);
    var lo := j * batchSize;
    assert r.start == lo + 1;
    assert r.end == Min(lo + batchSize, totalPages);
    MulMonotone(j, RangeCount(totalPages, batchSize) - 1, batchSize);
    assert lo < totalPages;
    if r.start <= page <= r.end {
      DivInRange(page - 1, batchSize, j);
    }
    if 1 <= page <= totalPages && j == (page - 1) / batchSize {
      DivBounds(page - 1, batchSize);
    }
  }

  lemma DivBounds(x: nat, b: int)
    requires b >= 1
    ensures (x / b) * b <= x < (x / b) * b + b
  {
  }

  lemma DivInRange(x: nat, b: int, j: nat)
    requires b >= 1 && j * b <= x < j * b + b
    ensures x / b == j
  {
    var q := x / b;
    DivBounds(x, b);
    if q < j {
      MulMonotone(q + 1, j, b);
    } else if q > j {
      MulMonotone(j + 1, q, b);
    }
  }

  /** The configured run: 44 pages in batches of 10. */
  lemma ConfiguredPartition()
    ensures Partition(44, 10) == [PageRange(1, 10), PageRange(11, 20), PageRange(21, 30),
                                  PageRange(31, 40), PageRange(41, 44)]
  {
    assert RangeCount(44, 10) == 5;
  }

  // ---------------------------------------------------------------------------
  // The driver
  // ---------------------------------------------------------------------------

  /** For each range in turn, the pages of the range in turn. */
  function RangesConcat<T>(f: nat -> seq<T>, ranges: seq<PageRange>): seq<T> {
    if ranges == [] then []
    else
      var last := ranges[|ranges| - 1];
      RangesConcat(f, ranges[..|ranges| - 1]) + ConcatRange(f, last.start, last.end)
  }

  /** The batch outputs of the given ranges, concatenated in range order. */
  function CrawlRecords(load: Loader, ranges: seq<PageRange>): seq<ListingRecord> {
    RangesConcat(PageContent(load), ranges)
  }

  /** The sum of the lengths of the batch outputs. */
  function BatchLengths(load: Loader, ranges: seq<PageRange>): nat {
    if ranges == [] then 0
    else
      var last := ranges[|ranges| - 1];
      BatchLengths(load, ranges[..|ranges| - 1]) + |BatchRecords(load, last.start, last.end)|
  }

  /** The final output is as long as all the batches together. */
  lemma {:induction false} CrawlLength(load: Loader, ranges: seq<PageRange>)
    ensures |CrawlRecords(load, ranges)| == BatchLengths(load, ranges)
  {
    if ranges != [] {
      CrawlLength(load, ranges[..|ranges| - 1]);
    }
  }

  /** Where the k-th range starts and ends, in terms of the pages covered before it. */
  lemma RangeStep(totalPages: int, batchSize: int, k: nat)
    requires batchSize >= 1
    requires k < RangeCount(totalPages, batchSize)
    ensures NthRange(k, totalPages, batchSize).start == Min(k * batchSize, totalPages) + 1
    ensures NthRange(k, totalPages, batchSize).end == Min((k + 1) * batchSize, totalPages)
    ensures NthRange(k, totalPages, batchSize).start <= NthRange(k, totalPages, batchSize).end + 1
  {
    MulMonotone(k, RangeCount(totalPages, batchSize) - 1, batchSize);
    assert (k + 1) * batchSize == k * batchSize + batchSize;
  }

  /** The first k ranges together cover pages 1..min(k * batchSize, totalPages). */
  lemma {:induction false} PrefixConcat<T>(f: nat -> seq<T>, totalPages: int, batchSize: int, k: nat)
    requires batchSize >= 1
    requires k <= RangeCount(totalPages, batchSize)
    ensures RangesConcat(f, Partition(totalPages, batchSize)[..k])
            == ConcatRange(f, 1, Min(k * batchSize, totalPages))
  {
    var p := Partition(totalPages, batchSize);
    if k > 0 {
      PrefixConcat(f, totalPages, batchSize, k - 1);
      assert p[..k] == p[..k - 1] + [p[k - 1]];
      RangeStep(totalPages, batchSize, k - 1);
      assert (k - 1 + 1) * batchSize == k * batchSize;
      RangesConcatStep(f, p[..k - 1], p[k - 1], Min((k - 1) * batchSize, totalPages));
    }
  }

  /** Ranges covering pages 1..covered, followed by the range that starts right after, cover up to its end. */
  lemma RangesConcatStep<T>(f: nat -> seq<T>, ranges: seq<PageRange>, next: PageRange, covered: nat)
    requires RangesConcat(f, ranges) == ConcatRange(f, 1, covered)
    requires next.start == covered + 1 && covered <= next.end
    ensures RangesConcat(f, ranges + [next]) == ConcatRange(f, 1, next.end)
  {
    assert (ranges + [next])[..|ranges|] == ranges;
    ConcatRangeExtend(f, RangesConcat(f, ranges), 1, covered, next.end);
  }

  /**
   * Crawling in batches gives exactly what one crawl of pages 1..totalPages
   * would give: the partition neither drops, repeats nor reorders a page.
   */
  lemma BatchingIsTransparent(load: Loader, totalPages: int, batchSize: int)
    requires batchSize >= 1
    ensures CrawlRecords(load, Partition(totalPages, batchSize)) == BatchRecords(load, 1, totalPages)
  {
    var p := Partition(totalPages, batchSize);
    var n := |p|;
    PrefixConcat(PageContent(load), totalPages, batchSize, n);
    assert p[..n] == p;
    assert Min(n * batchSize, totalPages) == totalPages;
  }

  /** scrapeAllListings: partition, run the batches one after another, concatenate. */
  method ScrapeAllListings(load: Loader, totalPages: int, batchSize: int)
    returns (allListings: seq<ListingRecord>)
    requires batchSize >= 1
    ensures allListings == CrawlRecords(load, Partition(totalPages, batchSize))
    ensures allListings == BatchRecords(load, 1, totalPages)
  {
    var batchRanges := BatchRanges(totalPages, batchSize);
    assert batchRanges == Partition(totalPages, batchSize);
    allListings := [];
    for k := 0 to |batchRanges|
      invariant allListings == CrawlRecords(load, batchRanges[..k])
    {
      assert batchRanges[..k + 1][..k] == batchRanges[..k];
      var batchListings := ScrapeBatch(load, batchRanges[k].start, batchRanges[k].end);
      allListings := allListings + batchListings;
    }
    assert batchRanges[..|batchRanges|] == batchRanges;
    BatchingIsTransparent(load, totalPages, batchSize);
  }
}
