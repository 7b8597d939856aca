# Danawa unit-price crawler, modelled in Dafny

The crawler walks the pages of a Danawa product category and collects product links. It then opens every product page and writes one record per purchase option: the product title, the capacity read from the title, the option label, the price, the unit price, the product code and the page URL.

This project models the parts of `price_crawler.py` that decide what ends up in those records. The browser is an abstract input.

- **Title capacity** (`Capacity`). `extract_capacity_from_title` lower-cases the title and tries three regular expressions in order:
  1. `(\d+)\s?(g|ml)`
  2. `(\d+)\s?(매|개|입|팩)`
  3. `(\d+)\s?x\s?(\d+)\s?(매|개|입|팩)`

  For each pattern there is:
  - a predicate stating what a match at an index is;
  - a matcher proved to find exactly that match, and the only one;
  - a leftmost search standing for `re.search`.

  The third pattern can never decide the result. Any text it matches also matches the second pattern, so a capacity is always a pair. For example, "70매 x 10개" gives `("70", "매")`.
- **Unit price** (`UnitPrice`). `extract_unit_price` deletes commas and searches for `(\d+)\s?원/\s?(\d+)(g|ml|매|개)`. The model proves four things about the result:
  - it is built from the leftmost match;
  - it is `None` exactly when nothing matches;
  - both numbers are maximal digit runs;
  - commas never change it.
- **Product code** (`Pcode`). `re.search(r"pcode=(\d+)", link)` is modelled with its greedy group.
- **Per-option records** (`InfoPage`). Each row is parsed in the source's order:
  - the price goes through a model of Python's `int()` (`Numbers.ParseInt`; `None` stands for `ValueError`);
  - an empty unit-price text gives no unit price;
  - a missing `href` raises, because `re.search(r"pcode=…", None)` is a `TypeError`.

  `CrawlInfoPage` is the row loop, proved equal to the function `PageRecords`. That function either gives one record per row in order, or the first row's exception.
- **Collection loops** (`Crawl`).
  - `CrawlCategoryAllPages` is the nested page and item loop, with both of its `break`s. It is proved equal to `WalkUrls`.
  - `CollectRecords` is the try/extend loop of `crawl_category`. It is proved equal to `Gathered`.
  - `CrawlCategory` joins the two with the default cap of 50 pages.

The browser enters as two values:
- `listing: nat -> ListingPage` gives, for each page number, the `href` of every product link, plus whether `goto_page(p + 1)` succeeded;
- `load: string -> Visit` gives, for a product URL, its title and option rows, or `LoadFailed`.

Python's `\d`, `\s`, `str.strip()` and `str.lower()` are modelled over ASCII (see "Left out").

Each file holds one module: `wrappers.dfy`, `text.dfy`, `numbers.dfy`, `scan.dfy`, `capacity.dfy`, `capacity_examples.dfy`, `unit_price.dfy`, `pcode.dfy`, `info_page.dfy` and `crawl.dfy`.

## Model

| member | source | states |
|---|---|---|
| Text.LowerAscii | price_crawler.py:19 | `lower()` keeps the length and maps every character through ASCII lower-casing |
| Text.LowerAsciiIdempotent | price_crawler.py:19 | lower-casing twice is lower-casing once |
| Text.RemoveCommas | price_crawler.py:27 | `replace(",", "")` leaves no comma and never lengthens the text |
| Text.RemoveCommasAppend | price_crawler.py:27 | comma removal distributes over concatenation |
| Text.RemoveCommasNoComma | price_crawler.py:27 | text without commas is left unchanged |
| Text.RemoveCommasKeeps | price_crawler.py:58 | every character other than a comma survives comma removal |
| Text.RemoveCommasDropsComma | price_crawler.py:27 | deleting a comma between two texts gives the same result as deleting the commas of the two texts joined |
| Text.StripSlice | price_crawler.py:46 | `strip()` yields a slice of its input with only whitespace cut from either end |
| Text.StripEnds | price_crawler.py:46 | what `strip()` leaves neither starts nor ends with whitespace |
| Text.Strip | price_crawler.py:46 | `s.strip()`: the text between the first and the last non-whitespace character, or empty when there is none; its contract is stated by `StripSlice` and `StripEnds` |
| Text.DigitRunText | price_crawler.py:31-34 | the text a `(\d+)` group captures is a nonempty string of digits, the input `int()` reads at lines 33-34 |
| Numbers.DecimalValue | price_crawler.py:33-34 | what `int()` makes of a `(\d+)` group: the digits read most significant first in base 10; inverted by `NatToString` (see `DecimalValueOfNatToString`) and agreeing with `ParseInt` (see `ParseIntOfDigits`) |
| Numbers.ParseInt | price_crawler.py:59 | `int()` on a string succeeds exactly when the stripped text, less one sign, is digit groups joined by single underscores, of any length (see "Left out") |
| Numbers.ParseIntOfDigits | price_crawler.py:59 | a nonempty run of digits converts to its decimal value |
| Numbers.ParseIntOfIntToString | price_crawler.py:59 | round trip: `int(str(n)) == n` for every integer, with no limit on the number of digits (see "Left out") |
| Numbers.ParseIntRejects | price_crawler.py:59 | a character that is not a digit, whitespace, sign or underscore makes `int()` raise |
| Numbers.DecimalValueOfNatToString | price_crawler.py:33-34 | the decimal value of a number's digit string is that number |
| Scan.Leftmost | price_crawler.py:19 | `re.search`: the result is a match, there is no match before it, and `None` means no index matches |
| Scan.FirstUnitAt | price_crawler.py:13-14 | an alternation of units: the unit found occurs at the index; `None` means none of them does |
| Scan.FirstUnitAtFinds | price_crawler.py:13-14 | with distinct first characters, the unit occurring at an index is the one found |
| Capacity.SearchUnitPattern | price_crawler.py:19 | `re.search` with pattern 1 or 2: `Leftmost` of the matcher over every start index of the text; see `SearchSound`, `SearchFinds`, `SearchIsLeftmost` and `SearchFirst` |
| Capacity.SearchCompound | price_crawler.py:19 | `re.search` with pattern 3: `Leftmost` of the compound matcher over every start index |
| Capacity.ExtractCapacity | price_crawler.py:8-23 | `extract_capacity_from_title`: `CapacityIn` of the lower-cased title; its contract is stated by `CapacityShape`, `CapacityNoneIff`, `CapacityPrefersMass` and `CapacityFallsBackToCount` |
| Capacity.CapacityIn | price_crawler.py:12-23 | the loop over the three patterns on lower-cased text: the groups of the first pattern whose search succeeds, else `None`; see `CapacityFromSearches` and `CapacityInShape` |
| Capacity.UnitPatternAt | price_crawler.py:13-14 | the declarative reading of `(\d+)\s?(units)`: a nonempty digit run from the index, at most one whitespace after it, then one of the listed units; pattern 1 with g, ml and pattern 2 with 매, 개, 입, 팩 |
| Capacity.CompoundAt | price_crawler.py:15 | the declarative reading of pattern 3: a digit run, at most one whitespace, `x`, at most one whitespace, and from there a match of pattern 2 |
| Capacity.MatchUnitPattern | price_crawler.py:13-14 | the computed match at an index is a match of `(\d+)\s?(units)` |
| Capacity.UnitPatternUnique | price_crawler.py:13-14 | every match of `(\d+)\s?(units)` at an index is the computed one, so backtracking order is irrelevant |
| Capacity.MatchCompound | price_crawler.py:15 | the computed match is a match of pattern 3, the compound count |
| Capacity.CompoundUnique | price_crawler.py:15 | every match of the compound pattern at an index is the computed one |
| Capacity.SearchSound | price_crawler.py:19 | what the search reports is a match of the pattern |
| Capacity.SearchFinds | price_crawler.py:19 | where the pattern matches, the search finds a match at that index or earlier |
| Capacity.SearchIsLeftmost | price_crawler.py:19 | the search reports exactly the leftmost match |
| Capacity.SearchNoneIff | price_crawler.py:19-20 | the search is `None` exactly when the pattern matches nowhere |
| Capacity.SearchFirst | price_crawler.py:19 | no index before the one the search reports holds a match of the pattern |
| Capacity.CompoundImpliesCount | price_crawler.py:14-15 | any text matching pattern 3 also matches pattern 2 |
| Capacity.CapacityIsPair | price_crawler.py:10-21 | the result is always `None` or a pair, never the triple that pattern 3 would give |
| Capacity.CapacityPrefersMass | price_crawler.py:12-21 | when pattern 1 (g or ml) matches, the result is its leftmost match, whatever count units come earlier |
| Capacity.CapacityFallsBackToCount | price_crawler.py:12-21 | with no mass or volume anywhere, the result is the leftmost count match |
| Capacity.CapacityFromSearches | price_crawler.py:18-23 | the result comes from pattern 1's search when it finds something, else from pattern 2's, else it is `None` |
| Capacity.CapacityInNoneIff | price_crawler.py:18-23 | on lower-cased text: `None` exactly when neither pattern 1 nor pattern 2 matches |
| Capacity.MassDecides | price_crawler.py:18-21 | a match of pattern 1 gives the capacity, read from that leftmost match |
| Capacity.CountDecides | price_crawler.py:18-21 | with no match of pattern 1, a match of pattern 2 gives the capacity, read from that leftmost match |
| Capacity.CapacityNoneIff | price_crawler.py:18-23 | `None` exactly when neither pattern 1 nor pattern 2 matches the lower-cased title |
| Capacity.CapacityInShape | price_crawler.py:13-21 | on lower-cased text: the result is read from the leftmost match of pattern 1, or, when pattern 1 matches nowhere, from the leftmost match of pattern 2; its number is a digit run that no digit precedes or follows, and its unit follows it |
| Capacity.CapacityShape | price_crawler.py:13-21 | the same shape for `ExtractCapacity(title)`, read in the lower-cased title |
| Capacity.CapacityIgnoresCase | price_crawler.py:19 | lower-casing the title first changes nothing |
| Capacity.CapacityExample300G | price_crawler.py:19 | "300G" gives ("300", "g") |
| Capacity.NoMassWithoutLetters | price_crawler.py:13 | text without `g` or `m` never matches pattern 1 |
| CapacityExamples.CapacityExampleMassAfterCount | price_crawler.py:12-21 | "2개 300g" gives ("300", "g"): mass beats an earlier count |
| CapacityExamples.CapacityExampleCompound | price_crawler.py:10-21 | "70매 x 10개" gives ("70", "매"), not a triple |
| CapacityExamples.SpacedCompound | price_crawler.py:15 | pattern 3 does match "70 x 10개" at index 0 |
| CapacityExamples.CapacityExampleCompoundSpaced | price_crawler.py:10-21 | even so, "70 x 10개" gives ("10", "개") through pattern 2 |
| UnitPrice.PricePatternAt | price_crawler.py:28 | the declarative reading of `(\d+)\s?원/\s?(\d+)(units)`: a digit run, at most one whitespace, `원/`, at most one whitespace, a second digit run, then one of g, ml, 매, 개 |
| UnitPrice.PriceTailAt | price_crawler.py:28 | the part of that pattern from `원/` on, matched at a given index |
| UnitPrice.MatchPricePattern | price_crawler.py:28 | the computed match at an index is a match of the unit-price pattern |
| UnitPrice.PricePatternUnique | price_crawler.py:28 | every match of the unit-price pattern at an index is the computed one |
| UnitPrice.MatchPriceTail | price_crawler.py:28 | the computed match of `원/\s?(\d+)(unit)` from an index is a match of that tail |
| UnitPrice.PriceTailUnique | price_crawler.py:28 | every match of that tail from an index is the computed one |
| UnitPrice.SearchPrice | price_crawler.py:29 | `re.search` with the unit-price pattern: `Leftmost` of the matcher over every start index |
| UnitPrice.SearchPriceSound | price_crawler.py:29 | what the search reports is a match |
| UnitPrice.SearchPriceFinds | price_crawler.py:29 | where the pattern matches, the search finds a match there or earlier |
| UnitPrice.ExtractUnitPrice | price_crawler.py:26-37 | `extract_unit_price`: `UnitPriceIn` of the text with its commas removed; its contract is stated by `UnitPriceShape`, `UnitPriceNoneIff` and `UnitPriceCommaInvariant` |
| UnitPrice.UnitPriceIn | price_crawler.py:28-37 | on comma-free text: the decimal values of the two digit groups and the unit of the search hit, else `None`; see `UnitPriceLeftmost` and `UnitPriceInShape` |
| UnitPrice.UnitPriceLeftmost | price_crawler.py:27-36 | given the leftmost match in the comma-free text, the result holds its two numbers' decimal values and its unit |
| UnitPrice.UnitPriceInNoneIff | price_crawler.py:29-37 | on comma-free text: `None` exactly when the pattern matches nowhere |
| UnitPrice.UnitPriceNoneIff | price_crawler.py:27-37 | `None` exactly when the pattern matches nowhere in the comma-free text |
| UnitPrice.UnitPriceInShape | price_crawler.py:28-35 | on comma-free text: both numbers are the values of maximal digit runs, and the unit is one of g, ml, 매, 개 |
| UnitPrice.UnitPriceShape | price_crawler.py:27-35 | the same shape for `ExtractUnitPrice(text)`, read in the comma-free text |
| UnitPrice.UnitPriceCommaInvariant | price_crawler.py:27 | removing commas first changes nothing |
| UnitPrice.UnitPriceCommaInsertion | price_crawler.py:27 | inserting a comma anywhere changes nothing |
| UnitPrice.UnitPriceExample | price_crawler.py:26-37 | "1,000원/100g" gives unit price 1000, unit value 100, unit type "g" |
| Pcode.PcodeAt | price_crawler.py:70 | the declarative reading of `pcode=(\d+)`: `pcode=` occurs at the index and a nonempty digit run follows it up to the given end |
| Pcode.MatchPcode | price_crawler.py:70 | the greedy match at an index is a match whose digit run cannot be extended; `None` means no match there |
| Pcode.MatchPcodeLongest | price_crawler.py:70 | every match at an index ends no later than the greedy one |
| Pcode.ExtractPcode | price_crawler.py:70-71 | `m.group(1) if m else None` for `re.search(r"pcode=(\d+)", link)`: the greedy digit run of the leftmost match; see `PcodeLeftmost`, `PcodeNoneIff` and `PcodeShape` |
| Pcode.PcodeLeftmost | price_crawler.py:70-71 | the code is the maximal digit run after the leftmost `pcode=` that is followed by a digit |
| Pcode.PcodeNoneIff | price_crawler.py:70-71 | `None` exactly when no `pcode=` is followed by a digit |
| Pcode.PcodeShape | price_crawler.py:70-71 | a code found is a maximal digit run right after `pcode=`, with no earlier match |
| Pcode.PcodeExample | price_crawler.py:70-71 | "?pcode=&pcode=42" gives "42" |
| InfoPage.RowRecord | price_crawler.py:57-81 | a row gives a record exactly when its comma-free price text is an integer and it has an href; the record carries the page's title, capacity and URL; a bad price raises with that text |
| InfoPage.RowUnitPrice | price_crawler.py:62-63 | `extract_unit_price` of the stripped unit-price text, or `None` when that text is empty; see `RowEmptyUnitPrice` and `RowUnitPriceIsParse` |
| InfoPage.Collect | price_crawler.py:54-59 | the outcomes of the rows in order: all their values, or the first failure; see `CollectSuccessIff`, `CollectPointwise` and `CollectFirstError` |
| InfoPage.RowsRecords | price_crawler.py:52-83 | `Collect` of every row's `RowRecord`, with the page's title, capacity and URL; see `RowsRecordsSuccessIff`, `RowsRecordsPointwise` and `RowsRecordsFirstError` |
| InfoPage.PageRecords | price_crawler.py:40-83 | `crawl_info_page` as a value: `PageUnavailable` for a failed visit, else `RowsRecords` with the stripped title and its capacity; see `PageRecordsShared` |
| InfoPage.CollectFailureSticks | price_crawler.py:54-59 | once a row has raised, later rows change nothing |
| InfoPage.CollectSuccessIff | price_crawler.py:54-81 | collecting succeeds exactly when every outcome is a success |
| InfoPage.CollectPointwise | price_crawler.py:54-81 | a successful collection holds every value, in order |
| InfoPage.CollectFirstError | price_crawler.py:54-59 | a failed collection reports the first failure |
| InfoPage.BuildRecords | price_crawler.py:52-83 | the row loop gives the records of all rows in order, or the first row's exception |
| InfoPage.CrawlInfoPage | price_crawler.py:40-83 | `crawl_info_page` gives `PageRecords`: a failed visit raises; otherwise the stripped title and its capacity go into every row's record |
| InfoPage.RowsRecordsSuccessIff | price_crawler.py:54-83 | a page gives records exactly when every row does |
| InfoPage.RowsRecordsPointwise | price_crawler.py:54-83 | exactly one record per row, in row order, each built from its own row |
| InfoPage.RowsRecordsFirstError | price_crawler.py:54-59 | a failing page reports its first failing row's exception |
| InfoPage.PageRecordsShared | price_crawler.py:46-47 | every record of a page carries the stripped title, that title's capacity and the page URL, and there are as many records as rows |
| InfoPage.PageWithoutRows | price_crawler.py:50-54 | a page without option rows gives no records and raises nothing |
| InfoPage.PageUnavailableRaises | price_crawler.py:43-46 | a page that cannot be visited raises |
| InfoPage.RowPriceOfDigits | price_crawler.py:58-59 | a price text of digits and commas gives its decimal value as the price |
| InfoPage.RowPriceRejects | price_crawler.py:58-59 | a price text holding a character `int()` cannot read makes the row raise |
| InfoPage.RowPcode | price_crawler.py:69-71 | a row's `pcode` is what its link yields |
| InfoPage.RowEmptyUnitPrice | price_crawler.py:62-63 | an empty or all-whitespace unit-price text gives no unit price |
| InfoPage.RowUnitPriceIsParse | price_crawler.py:62-63 | the empty-text guard agrees with parsing the stripped text directly |
| Crawl.CrawlCategoryAllPages | price_crawler.py:120-145 | the page and item loops with their two `break`s collect exactly `WalkUrls` from page 1 |
| Crawl.IsProductUrl | price_crawler.py:136 | `url and url.startswith("http")`: the href is present and begins with "http" |
| Crawl.PageProductUrls | price_crawler.py:134-137 | the item loop keeps exactly the page's product URLs, in item order |
| Crawl.HttpUrls | price_crawler.py:134-137 | the hrefs of one page that are present and start with "http", in item order; see `HttpUrlsMembers` and `HttpUrlsAppend` |
| Crawl.WalkUrls | price_crawler.py:120-145 | the URLs collected from page `p` on: a page without items or past the cap ends the walk, a failed move ends it after that page's URLs; see `WalkIsVisitedUrls` |
| Crawl.VisitedPages | price_crawler.py:122-143 | the page numbers the walk visits from `p` on; see `VisitedPagesRange`, `PagesVisitedBound` and `VisitedPagesStops` |
| Crawl.HttpUrlsAppend | price_crawler.py:134-137 | the per-page filter distributes over concatenation |
| Crawl.HttpUrlsMembers | price_crawler.py:134-137 | a URL is kept exactly when it is a present href that starts with "http" |
| Crawl.WalkUrlsAreProductUrls | price_crawler.py:136-137 | every collected URL starts with "http" |
| Crawl.VisitedPagesRange | price_crawler.py:122 | the walk visits consecutive pages from its start and never passes the cap |
| Crawl.PagesVisitedBound | price_crawler.py:122 | at most `max_pages` pages are visited, all numbered within 1..`max_pages` |
| Crawl.VisitedPagesStops | price_crawler.py:128-143 | every page before the last had items and a successful move; the last had no items, a failed move, or is the cap |
| Crawl.WalkIsVisitedUrls | price_crawler.py:120-145 | the collected URLs are the filtered hrefs of the visited pages, page after page and in item order |
| Crawl.WalkReadsOnlyVisited | price_crawler.py:122-143 | pages the walk does not visit have no influence on what it collects |
| Crawl.CollectRecords | price_crawler.py:158-168 | the try/extend loop gives `Gathered`: the records of every URL whose crawl did not raise, in URL order |
| Crawl.Contribution | price_crawler.py:164-168 | what one URL adds: its records when `crawl_info_page` returns (`results.extend(info)`), nothing when it raises (the `except` branch) |
| Crawl.Gathered | price_crawler.py:158-168 | the records of every URL in order, a URL whose crawl fails adding none; see `GatheredOne`, `GatheredSkipsFailure`, `GatheredFrom` and `GatheredProvenance` |
| Crawl.CrawlCategory | price_crawler.py:155-168 | the pipeline's results are the gathered records of the URLs collected from at most 50 pages |
| Crawl.GatheredAppend | price_crawler.py:161-166 | the accumulated results distribute over concatenation of the URL list |
| Crawl.GatheredOne | price_crawler.py:164-168 | one URL contributes its page's records, or nothing if it raises |
| Crawl.GatheredSkipsFailure | price_crawler.py:164-168 | a URL that raises contributes nothing and does not stop the URLs after it |
| Crawl.GatheredFrom | price_crawler.py:161-166 | every result comes from a listed URL whose crawl succeeded |
| Crawl.GatheredProvenance | price_crawler.py:161-166 | every result's `detail_url` is a listed URL, that URL's crawl succeeded, and the record is one of that crawl's records |

## Left out

- The browser. Playwright's launch and close, `page.goto`, `locator`, `count`, `nth`, `inner_text`, `get_attribute` and `wait_for_load_state` are not modelled. What they return enters as the `listing` and `load` inputs.
- `goto_page` (price_crawler.py:86-110). The button lookup, click and waits reduce to the `moved` flag of each listing page.
- Where an exception is raised inside `crawl_info_page`. A missing element or a timeout on a product page is a whole visit that fails (`LoadFailed`, giving `PageUnavailable`). Row-level failures are modelled only for the price conversion and the missing href. Each of these makes the page contribute nothing, so the gathered results are the same.
- Exceptions outside the try block. These include a failure while opening the category page, which ends the whole run in the source. They are not modelled: the walk over the listing always completes.
- The shared browser page. The model treats a product page as depending only on its URL, and a listing page only on its number. The single page object's history, and a site that changes between visits, are not modelled.
- `time.sleep` and the `print` logging have no effect on the results and are left out.
- The CSV file written with `csv.DictWriter` in utf-8-sig (price_crawler.py:172-181) is file I/O. The model stops at the list of records.
- Unicode character classes:
  - `\d` and `int()` digits are the ASCII digits only;
  - `\s` and `str.strip()` whitespace are space, tab, newline, carriage return, vertical tab and form feed;
  - `str.lower()` maps only A–Z.

  Python accepts more in each case.
- A general regular-expression engine. Only the patterns the crawler uses are modelled.
- The capacity tuple. It is represented as a sequence of its group strings. The record fields are represented as a datatype rather than a dictionary.
- Numbers.ParseInt: accepts digit strings of any length. CPython 3.11 and later, and the 3.10.7, 3.9.14 and 3.8.14 security releases, raise `ValueError` when `int()` reads a decimal string of more than 4300 digits. For such a price text, the source's `int(price_raw)` (price_crawler.py:59) makes `crawl_info_page` raise, and `int(price)` and `int(unit_val)` (price_crawler.py:33-34) make `extract_unit_price` raise. The model accepts these texts, because the limit depends on the interpreter version and on `sys.set_int_max_str_digits`.
