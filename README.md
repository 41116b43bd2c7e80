# Kijiji rental-listing crawler and dashboard, modelled in Dafny

The system crawls the Kijiji apartment index for Kitchener-Waterloo with a
headless browser and turns each listing card into a flat record of eleven
strings. The dashboard then shows those records twenty at a time, and an
analysis page groups them by location, area and unit type. This project
models the logic of the three scripts behind that:

- `crawler.dfy`, module Crawler.
  - The page URL builder and the request filter that aborts images, stylesheets and fonts.
  - The batch loop `scrapeKijijiBatch`, where loading a page is a given function from URL to the page's cards (`None` when navigation throws).
  - The partition of pages 1..totalPages into batch ranges.
  - The sequential driver `scrapeAllListings`.
- `extractor.dfy`, module Extractor: the in-page extractor. A card maps each field to its element's text, and each field becomes that text trimmed or the field's sentinel.
- `jstext.dfy`, module JsText: `String.prototype.trim` and the decimal rendering of a page number inside a template literal.
- `dashboard.dfy`, module Dashboard: the pagination of `scripts.js`. It is a class holding `listings`, `currentPage`, the rendered rows and the pagination bar, with `displayPage`, `updatePagination` and the three kinds of button click.
- `analysis.dfy`, module Analysis: the location → area → unit type tree of `analysis.js`, and the price-text character filter.
- `seqs.dfy`, module Seqs: generic sequence facts used throughout, such as `map`, `filter`, `[...new Set(...)]` and the concatenation of a run of pages.
- `wrappers.dfy`, module Wrappers: `Option`.

The central results:
- Crawling in batches gives exactly what one crawl of pages 1..totalPages would give (`Crawler.BatchingIsTransparent`, `Crawler.ScrapeAllListings`).
- Pages 1..totalPages of the dashboard reassemble the list exactly (`Dashboard.PagesReassemble`).
- Every listing lands in the tree group of its own location, area and unit type (`Analysis.EveryListingPlaced`).

## Model

| member | source | states |
|---|---|---|
| JsText.TrimIsInnerPiece | public/js/scrape_kijiji.js:50-60 | `trim()` removes a whitespace prefix and a whitespace suffix and nothing else. The result is a contiguous piece of the input and has no whitespace at either end. |
| JsText.TrimIdempotent | public/js/scrape_kijiji.js:50-60 | Trimming an already trimmed text changes nothing. |
| JsText.TrimAllWhitespace | public/js/scrape_kijiji.js:50-60 | An element whose text is only whitespace yields the empty string, not the sentinel. |
| JsText.NatToDecimal | public/js/scrape_kijiji.js:25 | `${pageNum}` is a non-empty string of decimal digits, with no leading zero unless the number is 0. |
| JsText.DecimalRoundTrip | public/js/scrape_kijiji.js:25 | Reading the rendered digits back gives the page number. |
| JsText.DecimalInjective | public/js/scrape_kijiji.js:25 | Different page numbers render differently. |
| JsText.NatToDecimalCanonical | public/js/scrape_kijiji.js:25 | Every rendering is canonical: non-empty digits, with no leading zero except for "0" itself. |
| JsText.CanonicalDecimalRoundTrip | public/js/scrape_kijiji.js:25 | Every canonical digit string is the rendering of its own value, so rendering and reading back are inverse on canonical texts. |
| JsText.Trim | public/js/scrape_kijiji.js:50-60 | Definition of `trim()`; its properties are in the rows JsText.TrimIsInnerPiece, JsText.TrimIdempotent and JsText.TrimAllWhitespace. |
| Extractor.Sentinel | public/js/scrape_kijiji.js:50-60 | Definition of the eleven "… not found" texts; their properties are in the row Extractor.SentinelTrimmed. |
| Extractor.ExtractField | public/js/scrape_kijiji.js:50-60 | Definition of one field's value, the trimmed text or the sentinel; its properties are in the rows Extractor.FieldLookup and Extractor.ExtractedFieldTrimmed. |
| Extractor.ExtractRecord | public/js/scrape_kijiji.js:49-61 | Definition of the record built from one card; its properties are in the row Extractor.RecordFieldIsExtracted. |
| Extractor.ExtractPage | public/js/scrape_kijiji.js:35-36 | Exactly one record per card. |
| Extractor.ExtractPageAppend | public/js/scrape_kijiji.js:36 | The records of a run of cards are those of its parts, in document order. |
| Extractor.RecordFieldIsExtracted | public/js/scrape_kijiji.js:49-61 | Each of the eleven fields of the record holds the extraction of that field and no other. |
| Extractor.FieldLookup | public/js/scrape_kijiji.js:37-61 | A missing element gives exactly that field's sentinel, and a present one gives its text trimmed. Each field depends only on its own element. |
| Extractor.SentinelTrimmed | public/js/scrape_kijiji.js:50-60 | No sentinel starts or ends with whitespace. |
| Extractor.ExtractedFieldTrimmed | public/js/scrape_kijiji.js:49-61 | Every field of every record has no surrounding whitespace. |
| Crawler.PageUrl | public/js/scrape_kijiji.js:21-25 | Definition of the URL builder; its properties are in the rows Crawler.BareUrlIsPageOne, Crawler.PageUrlRoundTrip, Crawler.PageOfUrlOnlyCanonical and Crawler.PageUrlInjective. |
| Crawler.PageOfUrl | public/js/scrape_kijiji.js:25 | Definition of the inverse of the URL builder: the bare category URL names page 1, and `page-n/c37l1700212` names page n when n is written without a leading zero and is not 1. |
| Crawler.BareUrlIsPageOne | public/js/scrape_kijiji.js:25 | The bare category URL, the base URL followed by `c37l1700212`, is built for page 1 and for no other page. |
| Crawler.PageUrlRoundTrip | public/js/scrape_kijiji.js:21-25 | The page number can be read back from the URL built for it. |
| Crawler.PageOfUrlOnlyCanonical | public/js/scrape_kijiji.js:21-25 | A URL read as page n is exactly the URL built for page n. So `page-1/…` and zero-padded numbers are not page URLs, and the URL format is pinned to the builder's. |
| Crawler.PageUrlInjective | public/js/scrape_kijiji.js:25 | Distinct pages are fetched from distinct URLs. |
| Crawler.OnRequest | public/js/scrape_kijiji.js:13-19 | A request is aborted if and only if its resource type is `image`, `stylesheet` or `font`, and is continued otherwise. |
| Crawler.DataRequestsContinue | public/js/scrape_kijiji.js:13-19 | Requests of type document, script, xhr and fetch are continued. |
| Crawler.PageRecords | public/js/scrape_kijiji.js:27-65 | Definition of what one page contributes: its records when navigation succeeds, none when it throws; its properties are in the rows Crawler.BatchStep and Crawler.FailedPageSkipped. |
| Crawler.BatchRecords | public/js/scrape_kijiji.js:24-69 | Definition of the batch output as the page contributions concatenated in page order; its properties are in the rows Crawler.ScrapeBatch, Crawler.BatchSplit, Crawler.ConsecutivePages and Crawler.BatchMembership. |
| Crawler.ScrapeBatch | public/js/scrape_kijiji.js:22-72 | The batch loop returns the records of the pages startPage..endPage in page order, with a failed page contributing nothing. |
| Crawler.BatchStep | public/js/scrape_kijiji.js:24-65 | Visiting one more page appends that page's records to what was collected. |
| Crawler.BatchSplit | public/js/scrape_kijiji.js:24-69 | A batch is its first part followed by the rest. |
| Crawler.FailedPageSkipped | public/js/scrape_kijiji.js:27-32 | A page that fails to load contributes no record. The records of the pages before it are kept and the pages after it are still crawled. |
| Crawler.ConsecutivePages | public/js/scrape_kijiji.js:24-65 | Two pages that load follow each other in the output, in page order. |
| Crawler.BatchMembership | public/js/scrape_kijiji.js:24-65 | A record is in the batch output exactly when one of the batch's pages produced it. |
| Crawler.RangeCount | public/js/scrape_kijiji.js:80 | The number of ranges is ceil(totalPages / batchSize), and 0 when totalPages ≤ 0. |
| Crawler.NthRange | public/js/scrape_kijiji.js:81 | Definition of the j-th range pushed; its properties are in the rows Crawler.PartitionRangesBounded and Crawler.PartitionCoversOnce. |
| Crawler.Partition | public/js/scrape_kijiji.js:80-81 | Definition of the list of ranges; its properties are in the rows Crawler.BatchRanges, Crawler.PartitionContiguous, Crawler.PartitionCoversOnce and Crawler.ConfiguredPartition. |
| Crawler.BatchRanges | public/js/scrape_kijiji.js:79-82 | The partition loop pushes ceil(totalPages / batchSize) ranges. Range j is [1 + j·b, min(j·b + b, totalPages)]. |
| Crawler.PartitionRangesBounded | public/js/scrape_kijiji.js:81 | Each range satisfies 1 ≤ start ≤ end ≤ totalPages and holds at most batchSize pages. |
| Crawler.PartitionContiguous | public/js/scrape_kijiji.js:80-81 | The ranges run from page 1 to totalPages with no gap or overlap, and all but the last are full. |
| Crawler.PartitionCoversOnce | public/js/scrape_kijiji.js:80-81 | A page lies in range j if and only if it is in 1..totalPages and j = (page−1) div batchSize. So every page is in exactly one range, and for a page in 1..totalPages that index j is the index of an existing range. |
| Crawler.ConfiguredPartition | public/js/scrape_kijiji.js:95-96 | 44 pages in batches of 10 give [1,10], [11,20], [21,30], [31,40], [41,44]. |
| Crawler.CrawlRecords | public/js/scrape_kijiji.js:85-89 | Definition of the driver's output as the batch outputs concatenated in partition order; its properties are in the rows Crawler.CrawlLength, Crawler.BatchingIsTransparent and Crawler.ScrapeAllListings. |
| Crawler.CrawlLength | public/js/scrape_kijiji.js:85-89 | The final output is as long as all the batch outputs together. |
| Crawler.BatchingIsTransparent | public/js/scrape_kijiji.js:79-89 | The batch outputs concatenated in partition order equal one crawl of pages 1..totalPages. |
| Crawler.ScrapeAllListings | public/js/scrape_kijiji.js:75-92 | The driver returns the batch outputs in partition order, which equals the records of pages 1..totalPages. |
| Dashboard.JsSlice | public/js/scripts.js:39 | Definition of `Array.prototype.slice` with its negative and out-of-range bounds; its properties are in the rows Dashboard.PageListings and Dashboard.PagesReassemble. |
| Dashboard.PageListings | public/js/scripts.js:37-39 | For a page number p ≥ 1 the page holds at most 20 listings, namely `listings[(p−1)·20 ..]` cut at min(20, remaining). It holds none when the start is past the end. |
| Dashboard.TotalPages | public/js/scripts.js:84 | totalPages = ceil(len / 20): 0 for an empty list, otherwise (n−1)·20 < len ≤ n·20. |
| Dashboard.PageRows | public/js/scripts.js:44-52 | Definition of the rows rendered for a page; its properties are in the row Dashboard.RowsPointIntoListings. |
| Dashboard.PaginationFor | public/js/scripts.js:83-108 | Definition of the pagination bar; its properties are in the rows Dashboard.ActiveButtonUnique, Dashboard.EmptyListKeepsNextEnabled, Dashboard.NavigationStaysInRange and Dashboard.ListingsTable.UpdatePagination. |
| Dashboard.RowsPointIntoListings | public/js/scripts.js:44-52 | On page p, row i carries data-index (p−1)·20 + i, which is the index in `listings` of the listing that row shows. |
| Dashboard.ActiveButtonUnique | public/js/scripts.js:93-98 | A page button is active exactly when its number is currentPage. At most one is active, and one is active if and only if 1 ≤ currentPage ≤ totalPages. |
| Dashboard.EmptyListKeepsNextEnabled | public/js/scripts.js:89-105 | With no listings there are no page buttons, and on page 1 Previous is disabled while Next is enabled. |
| Dashboard.NavigationStaysInRange | public/js/scripts.js:89-106 | Previous is enabled only past page 1. On a non-empty list, from a page in 1..totalPages, Next is enabled only before the last page, and every enabled button leads to a page in 1..totalPages. The page buttons are numbered 1..totalPages. |
| Dashboard.PagesReassemble | public/js/scripts.js:37-39 | The slices of pages 1..totalPages, taken in order, concatenate to exactly `listings`. |
| Dashboard.ListingsTable.constructor | public/js/scripts.js:5-6 | The state before the fetch: no listings, page 1, nothing rendered. |
| Dashboard.ListingsTable.ReceiveListings | public/js/scripts.js:24-25 | The fetched listings are stored and page 1 is shown. |
| Dashboard.ListingsTable.DisplayPage | public/js/scripts.js:36-80 | Renders the page's rows with their data-index, sets currentPage to the page and rebuilds the bar. Leaves `listings` unchanged. |
| Dashboard.ListingsTable.UpdatePagination | public/js/scripts.js:83-108 | Builds the bar: Previous disabled iff currentPage = 1, buttons 1..totalPages with the current one active, Next disabled iff currentPage = totalPages. |
| Dashboard.ListingsTable.ClickPrevious | public/js/scripts.js:90 | An enabled Previous shows the page before. The page stays in range: among 1..totalPages on a non-empty list, any page from 1 on for an empty one. |
| Dashboard.ListingsTable.ClickNext | public/js/scripts.js:106 | An enabled Next shows the page after. The page stays in range: among 1..totalPages on a non-empty list, any page from 1 on for an empty one. |
| Dashboard.ListingsTable.ClickPageButton | public/js/scripts.js:99 | The k-th page button shows page k + 1. |
| Seqs.FilterMembership | public/js/analysis.js:9 | A value is kept by `filter` exactly when it is in the input and satisfies the predicate. |
| Seqs.FilterCounts | public/js/analysis.js:21-23 | `filter` keeps every occurrence of a satisfying value and no occurrence of any other value. |
| Seqs.FilterAppend | public/js/analysis.js:21-23 | `filter` keeps the original order: filtering a concatenation filters each part. |
| Seqs.Dedup | public/js/analysis.js:5 | `[...new Set(s)]` keeps every value of s, adds none and lists each value once. |
| Seqs.DedupFirstOccurrenceOrder | public/js/analysis.js:5 | `[...new Set(s)]` lists the values in the order of their first occurrence in s. |
| Analysis.Locations | public/js/analysis.js:5 | Definition of `locations`; its properties are in the row Analysis.LocationsExact. |
| Analysis.AreasIn | public/js/analysis.js:9-10 | Definition of the areas under one location; its properties are in the row Analysis.AreasExact. |
| Analysis.UnitTypesIn | public/js/analysis.js:15-16 | Definition of the unit types under one area, as written; its properties are in the rows Analysis.UnitTypesExact and Analysis.UnitTypesLeakAcrossLocations. |
| Analysis.GroupListings | public/js/analysis.js:21-23 | Definition of one unit-type group's listings, as written; its properties are in the rows Analysis.GroupListingsExact and Analysis.GroupNonEmpty. |
| Analysis.StructuredData | public/js/analysis.js:8-32 | Definition of the tree as written; its properties are in the rows Analysis.EveryListingPlaced and Analysis.UnitTypesLeakAcrossLocations. |
| Analysis.LocationsExact | public/js/analysis.js:5 | `locations` holds every listing's location exactly once, in order of first appearance, and nothing else. |
| Analysis.AreasExact | public/js/analysis.js:9-10 | The areas under location L are exactly the distinct areas of the listings in L. |
| Analysis.UnitTypesExact | public/js/analysis.js:15-16 | The unit types under area A are exactly the distinct unit types of the listings in A, in any location. |
| Analysis.GroupListingsExact | public/js/analysis.js:21-23 | A unit-type group holds each listing with that area and unit type as often as the data does, and no other listing. |
| Analysis.GroupNonEmpty | public/js/analysis.js:15-23 | No unit-type group is empty. |
| Analysis.EveryListingPlaced | public/js/analysis.js:5-32 | Every listing appears in the group of its own location, area and unit type. |
| Analysis.UnitTypesLeakAcrossLocations | public/js/analysis.js:15-23 | Take two listings with the same area but different locations and unit types. Under the first listing's location, the tree shows the second listing's unit type, and that group holds the second listing. |
| Analysis.StructuredDataByLocation | public/js/analysis.js:8-32 | Definition of the corrected tree, filtering by location as well as area; its properties are in the rows Analysis.UnitTypesAtExact, Analysis.GroupListingsAtExact, Analysis.ByLocationGroupsConsistent, Analysis.ByLocationEveryListingPlaced and Analysis.ByLocationKeepsLocationsApart. |
| Analysis.UnitTypesAtExact | public/js/analysis.js:15-16 | Corrected tree: the unit types under L/A are exactly those of the listings in L with area A. |
| Analysis.GroupListingsAtExact | public/js/analysis.js:21-23 | Corrected tree: a group holds exactly the listings of its location, area and unit type. |
| Analysis.ByLocationGroupsConsistent | public/js/analysis.js:8-32 | Corrected tree: every group is non-empty, and each of its listings has the location, area and unit type of the labels above it. |
| Analysis.ByLocationEveryListingPlaced | public/js/analysis.js:5-32 | Corrected tree: every listing appears in the group of its own location, area and unit type. |
| Analysis.ByLocationKeepsLocationsApart | public/js/analysis.js:15-23 | Corrected tree: on the two listings of the leak, the first location shows only its own listing. |
| Analysis.CleanPrice | public/js/analysis.js:37 | Definition of `price.replace(/[^0-9.-]+/g, "")`; its properties are in the rows Analysis.CleanPriceKeepsExactly, Analysis.CleanPriceAppend and Analysis.CleanPriceIdempotent. |
| Analysis.CleanPriceKeepsExactly | public/js/analysis.js:37 | The cleaning keeps every digit, `.` and `-` as often as the price has it, and drops every other character. |
| Analysis.CleanPriceAppend | public/js/analysis.js:37 | The kept characters stay in their original order. |
| Analysis.CleanPriceIdempotent | public/js/analysis.js:37 | Cleaning a cleaned price changes nothing. |

## Left out

- Environment and effects:
  - The browser itself is not modelled: launch, new page, request interception set-up, `networkidle2` waiting, `page.evaluate` and closing. Loading a page is the parameter `load`, from URL to the cards of the loaded page or `None` when navigation throws. DOM matching of the selectors is part of that parameter.
  - Time and asynchrony: the one-second delay between pages and the async/await sequencing.
  - Console output: the error log of a failed page and the final JSON printout.
  - The unused `totalListings` counter.
- Extractor details:
  - `Extractor.Selector` records the CSS selector of each field but is not used as the key of a card. A card is keyed by the field its selector stands for, so the selectors' distinctness is not needed and not proved.
  - `innerText` is taken as given. Its layout-dependent whitespace collapsing belongs to the browser.
- Crawler restrictions:
  - Crawler.ScrapeBatch: page numbers are natural numbers. The driver only passes ranges starting at 1 or later, so a negative start page is not modelled.
  - Crawler.BatchRanges: requires batchSize ≥ 1. With a batch size of 0 or less and totalPages ≥ 1 the source loop never ends; with totalPages ≤ 0 it never runs and returns no ranges whatever the batch size, and that case is not modelled for batch sizes below 1. Fractional page counts are not modelled.
  - Crawler.BatchRanges: JavaScript numbers are doubles. Above 2^53, `i += batchSize` and `pageNum++` can stop changing the counter so that the loops never end; the model's counters are unbounded integers, so its loops always end.
  - JsText.NatToDecimal: `${n}` of a double writes numbers of 10^21 and more in exponent form (`1e+21`); the model renders every natural number in plain decimal digits.
- Fatal failures:
  - Crawler.ScrapeBatch: only a throw of `page.goto` is modelled, as a skipped page. A throw of `puppeteer.launch`, `newPage`, `setRequestInterception`, `page.evaluate` or `browser.close` rejects the whole batch without closing the browser; the model assumes these never throw.
  - Crawler.ScrapeAllListings: such a rejection also rejects the driver, and then no record is printed at all; the model has no rejected outcome.
- Dashboard omissions:
  - The fetch from the back end, its `ok` and status checks and its error path are left out. `ReceiveListings` is the successful path at lines 24-25.
  - The loading spinner is left out.
  - The HTML of the rows is abstracted: a row is the listing with its data-index.
  - The "Show Details" toggle and event wiring are left out.
- Dashboard.RowsPointIntoListings: stated only for page numbers from 1 on. Below 1, `slice`'s negative bounds (modelled exactly) would show rows whose data-index is not their position, but no click reaches such a page from a state in range: ClickPrevious, ClickNext and ClickPageButton keep InRange.
- Analysis omissions:
  - Reading `localStorage` is left out.
  - `calculateAveragePrice` is floating point: `parseFloat`, summation, division and `toFixed`. Only its character filter is modelled. Unit-type groups therefore carry no average price.
  - The DOM building of `populateDropdowns`, `showListings` and `toggleDropdown` is left out.
  - The `link` field is left out, because the crawler never produces it.
- `scrape_kijiji.php` is not part of this model: it runs the crawler in a child process and decodes its JSON.

## Findings

| source | as written | input that shows it | evidently intended | confidence | as-written member | corrected member |
|---|---|---|---|---|---|---|
| public/js/analysis.js:15-23 | The unit types of an area, and the listings of each unit-type group, are filtered by area only, although the tree already sits under a location. | Two listings with the same area (for example both "Area not found") in different locations and with different unit types. Under the first location the tree shows both unit types, and the second group holds the listing from the other location. | Filter by location and area, as the area price at public/js/analysis.js:79 does, so that each group holds only listings of its own location. | medium (not executed) | Analysis.UnitTypesLeakAcrossLocations | Analysis.ByLocationGroupsConsistent |
