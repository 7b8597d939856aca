/**
 * `crawl_info_page`: one record per option row of a product's detail page.
 *
 * The browser is abstracted away: a visit either fails (the page or one of
 * its elements could not be reached) or yields the texts the crawler reads,
 * the title and, per option row, the price, unit-price and spec texts and
 * the link's `href` attribute.
 */
module InfoPage {
  import opened Wrappers
  import opened Text
  import opened Numbers
  import opened Capacity
  import opened UnitPrice
  import opened Pcode

  /** What the crawler reads from one `ul.list__variant-selector > li`. */
  datatype OptionRow = OptionRow(priceText: string, unitPriceText: string, specText: string, href: Option<string>)

  /** What the crawler reads from a detail page. */
  datatype DetailPage = DetailPage(titleText: string, rows: seq<OptionRow>)

  /** The outcome of loading a detail page. */
  datatype Visit = Loaded(page: DetailPage) | LoadFailed

  /** The dictionary appended per option row. */
  datatype Record = Record(
    productTitle: string,
    capacity: Option<seq<string>>,
    optionSpec: string,
    price: int,
    unitPrice: Option<UnitPriceInfo>,
    pcode: Option<string>,
    detailUrl: string)

  /** Why `crawl_info_page` raises. */
  datatype CrawlError =
    | PageUnavailable                  // navigation, a missing element or a timeout
    | PriceNotAnInteger(text: string)  // `int(price_raw)` raises `ValueError`
    | HrefMissing                      // `re.search` on a `None` href raises `TypeError`

  /** The `unit_price` field: no parse at all when the stripped text is empty. */
  function RowUnitPrice(unitPriceText: string): Option<UnitPriceInfo> {
    var raw := Strip(unitPriceText);
    if raw == "" then None else ExtractUnitPrice(raw)
  }

  /**
   * The record for one row, or the first exception the row raises: the price
   * is converted before the link is read.
   */
  function RowRecord(title: string, capacity: Option<seq<string>>, url: string, row: OptionRow): (r: Result<Record, CrawlError>)
    ensures r.Success? <==> ParseInt(RemoveCommas(row.priceText)).Some? && row.href.Some?
    ensures r.Success? ==>
              r.value.productTitle == title && r.value.capacity == capacity && r.value.detailUrl == url
    ensures ParseInt(RemoveCommas(row.priceText)).None? ==> r == Failure(PriceNotAnInteger(RemoveCommas(row.priceText)))
  {
    var priceRaw := RemoveCommas(row.priceText);
    match ParseInt(priceRaw)
    case None => Failure(PriceNotAnInteger(priceRaw))
    case Some(price) =>
      var unitInfo := RowUnitPrice(row.unitPriceText);
      var spec := Strip(row.specText);
      match row.href
      case None => Failure(HrefMissing)
      case Some(link) =>
        Success(Record(title, capacity, spec, price, unitInfo, ExtractPcode(link), url))
  }

  /** Each row's outcome, in row order. */
  function RowOutcomes(title: string, capacity: Option<seq<string>>, url: string, rows: seq<OptionRow>): (r: seq<Result<Record, CrawlError>>)
    ensures |r| == |rows|
    ensures forall k :: 0 <= k < |rows| ==> r[k] == RowRecord(title, capacity, url, rows[k])
  {
    seq(|rows|, k requires 0 <= k < |rows| => RowRecord(title, capacity, url, rows[k]))
  }

  /** Outcomes gathered in order: every value, or the first failure. */
  function Collect<T, E>(outcomes: seq<Result<T, E>>): Result<seq<T>, E> {
    if outcomes == [] then Success([])
    else
      match Collect(outcomes[..|outcomes| - 1])
      case Failure(e) => Failure(e)
      case Success(done) =>
        match outcomes[|outcomes| - 1]
        case Failure(e) => Failure(e)
        case Success(v) => Success(done + [v])
  }

  /** The records of `rows` in order, or the first row's exception. */
  function RowsRecords(title: string, capacity: Option<seq<string>>, url: string, rows: seq<OptionRow>): Result<seq<Record>, CrawlError> {
    Collect(RowOutcomes(title, capacity, url, rows))
  }

  /** `crawl_info_page(page, url)` as a value: the records, or the exception raised. */
  function PageRecords(visit: Visit, url: string): Result<seq<Record>, CrawlError> {
    match visit
    case LoadFailed => Failure(PageUnavailable)
    case Loaded(page) =>
      var title := Strip(page.titleText);
      RowsRecords(title, ExtractCapacity(title), url, page.rows)
  }

  /** Once an outcome has failed, later outcomes change nothing. */
  lemma {:induction false} CollectFailureSticks<T, E>(outcomes: seq<Result<T, E>>, more: seq<Result<T, E>>)
    requires Collect(outcomes).Failure?
    ensures Collect(outcomes + more) == Collect(outcomes)
    decreases |more|
  {
    if more != [] {
      var front := more[..|more| - 1];
      assert (outcomes + more)[..|outcomes + more| - 1] == outcomes + front;
      CollectFailureSticks(outcomes, front);
    } else {
      assert outcomes + more == outcomes;
    }
  }

  /** A failure among the first `i` outcomes is the failure of them all. */
  lemma CollectFailurePrefix<T, E>(outcomes: seq<Result<T, E>>, i: nat)
    requires i <= |outcomes| && Collect(outcomes[..i]).Failure?
    ensures Collect(outcomes) == Collect(outcomes[..i])
  {
    CollectFailureSticks(outcomes[..i], outcomes[i..]);
    assert outcomes[..i] + outcomes[i..] == outcomes;
  }

  /** Gathering one more outcome. */
  lemma CollectStep<T, E>(outcomes: seq<Result<T, E>>, i: nat, done: seq<T>)
    requires i < |outcomes| && Collect(outcomes[..i]) == Success(done)
    ensures outcomes[i].Failure? ==> Collect(outcomes[..i + 1]) == Failure(outcomes[i].error)
    ensures outcomes[i].Success? ==> Collect(outcomes[..i + 1]) == Success(done + [outcomes[i].value])
  {
    assert outcomes[..i + 1][..i] == outcomes[..i];
  }

  /**
   * The loop of `crawl_info_page` over the option rows: one record appended
   * per row, stopping at the first exception.
   */
  method BuildRecords(title: string, capacity: Option<seq<string>>, url: string, rows: seq<OptionRow>)
    returns (r: Result<seq<Record>, CrawlError>)
    ensures r == RowsRecords(title, capacity, url, rows)
  {
    ghost var outcomes := RowOutcomes(title, capacity, url, rows);
    var results: seq<Record> := [];
    var i := 0;
    while i < |rows|
      invariant 0 <= i <= |rows|
      invariant Collect(outcomes[..i]) == Success(results)
    {
      var item := RowRecord(title, capacity, url, rows[i]);
      assert item == outcomes[i];
      CollectStep(outcomes, i, results);
      if item.Failure? {
        CollectFailurePrefix(outcomes, i + 1);
        return Failure(item.error);
      }
      results := results + [item.value];
      i := i + 1;
    }
    assert outcomes[..i] == outcomes;
    r := Success(results);
  }

  /** `crawl_info_page(page, url)`: read the title and its capacity, then build the records. */
  method CrawlInfoPage(visit: Visit, url: string) returns (r: Result<seq<Record>, CrawlError>)
    ensures r == PageRecords(visit, url)
  {
    if visit.LoadFailed? {
      return Failure(PageUnavailable);
    }
    var title := Strip(visit.page.titleText);
    var capacity := ExtractCapacity(title);
    r := BuildRecords(title, capacity, url, visit.page.rows);
  }

  /** Gathering succeeds exactly when every outcome is a success. */
  lemma {:induction false} CollectSuccessIff<T, E>(outcomes: seq<Result<T, E>>)
    ensures Collect(outcomes).Success? <==> forall k :: 0 <= k < |outcomes| ==> outcomes[k].Success?
  {
    if outcomes != [] {
      var front := outcomes[..|outcomes| - 1];
      CollectSuccessIff(front);
      assert forall k :: 0 <= k < |front| ==> front[k] == outcomes[k];
    }
  }

  /** A successful gathering holds every value, in order. */
  lemma {:induction false} CollectPointwise<T, E>(outcomes: seq<Result<T, E>>)
    requires Collect(outcomes).Success?
    ensures |Collect(outcomes).value| == |outcomes|
    ensures forall k :: 0 <= k < |outcomes| ==> outcomes[k] == Success(Collect(outcomes).value[k])
  {
    if outcomes != [] {
      var front := outcomes[..|outcomes| - 1];
      CollectPointwise(front);
      assert forall k :: 0 <= k < |front| ==> front[k] == outcomes[k];
    }
  }

  /** A failed gathering reports the first failure. */
  lemma {:induction false} CollectFirstError<T, E>(outcomes: seq<Result<T, E>>)
    requires Collect(outcomes).Failure?
    ensures exists k ::
              && 0 <= k < |outcomes|
              && outcomes[k] == Failure(Collect(outcomes).error)
              && forall j :: 0 <= j < k ==> outcomes[j].Success?
  {
    var front := outcomes[..|outcomes| - 1];
    assert forall j :: 0 <= j < |front| ==> front[j] == outcomes[j];
    if Collect(front).Failure? {
      CollectFirstError(front);
      var k :| && 0 <= k < |front|
               && front[k] == Failure(Collect(front).error)
               && forall j :: 0 <= j < k ==> front[j].Success?;
      assert outcomes[k] == Failure(Collect(outcomes).error);
    } else {
      CollectSuccessIff(front);
    }
  }

  /** The page yields records exactly when every row does. */
  lemma RowsRecordsSuccessIff(title: string, capacity: Option<seq<string>>, url: string, rows: seq<OptionRow>)
    ensures RowsRecords(title, capacity, url, rows).Success?
            <==> forall k :: 0 <= k < |rows| ==> RowRecord(title, capacity, url, rows[k]).Success?
  {
    CollectSuccessIff(RowOutcomes(title, capacity, url, rows));
  }

  /** One record per row, in row order, each built from its own row. */
  lemma RowsRecordsPointwise(title: string, capacity: Option<seq<string>>, url: string, rows: seq<OptionRow>)
    requires RowsRecords(title, capacity, url, rows).Success?
    ensures |RowsRecords(title, capacity, url, rows).value| == |rows|
    ensures forall k :: 0 <= k < |rows| ==>
              RowRecord(title, capacity, url, rows[k]) == Success(RowsRecords(title, capacity, url, rows).value[k])
  {
    CollectPointwise(RowOutcomes(title, capacity, url, rows));
  }

  /** A failing page reports the exception of its first failing row. */
  lemma RowsRecordsFirstError(title: string, capacity: Option<seq<string>>, url: string, rows: seq<OptionRow>)
    requires RowsRecords(title, capacity, url, rows).Failure?
    ensures exists k ::
              && 0 <= k < |rows|
              && RowRecord(title, capacity, url, rows[k]) == Failure(RowsRecords(title, capacity, url, rows).error)
              && forall j :: 0 <= j < k ==> RowRecord(title, capacity, url, rows[j]).Success?
  {
    CollectFirstError(RowOutcomes(title, capacity, url, rows));
  }

  /**
   * Every record of a page carries the stripped page title, the capacity
   * read from it and the page's URL, and there is one per option row.
   */
  lemma PageRecordsShared(page: DetailPage, url: string)
    requires PageRecords(Loaded(page), url).Success?
    ensures |PageRecords(Loaded(page), url).value| == |page.rows|
    ensures forall rec :: rec in PageRecords(Loaded(page), url).value ==>
              && rec.productTitle == Strip(page.titleText)
              && rec.capacity == ExtractCapacity(Strip(page.titleText))
              && rec.detailUrl == url
  {
    var title := Strip(page.titleText);
    RowsRecordsPointwise(title, ExtractCapacity(title), url, page.rows);
  }

  /** A page without option rows yields no records and raises nothing. */
  lemma PageWithoutRows(title: string, url: string)
    ensures PageRecords(Loaded(DetailPage(title, [])), url) == Success([])
  {
  }

  /** A page that cannot be loaded raises. */
  lemma PageUnavailableRaises(url: string)
    ensures PageRecords(LoadFailed, url).Failure?
  {
  }

  /** The price of a digits-only text (commas aside) is the number it spells. */
  lemma RowPriceOfDigits(title: string, capacity: Option<seq<string>>, url: string, row: OptionRow)
    requires |RemoveCommas(row.priceText)| > 0 && AllDigits(RemoveCommas(row.priceText))
    requires row.href.Some?
    ensures RowRecord(title, capacity, url, row).Success?
    ensures RowRecord(title, capacity, url, row).value.price == DecimalValue(RemoveCommas(row.priceText))
  {
    ParseIntOfDigits(RemoveCommas(row.priceText));
  }

  /** A price text holding a character `int` cannot read makes the row raise. */
  lemma RowPriceRejects(title: string, capacity: Option<seq<string>>, url: string, row: OptionRow, c: char)
    requires c in row.priceText && c != ','
    requires !IsDigit(c) && !IsSpace(c) && c !in "+-_"
    ensures RowRecord(title, capacity, url, row) == Failure(PriceNotAnInteger(RemoveCommas(row.priceText)))
  {
    var raw := RemoveCommas(row.priceText);
    RemoveCommasKeeps(row.priceText, c);
    var k :| 0 <= k < |raw| && raw[k] == c;
    ParseIntRejects(raw, k);
  }

  /** The `pcode` field is what the link yields. */
  lemma RowPcode(title: string, capacity: Option<seq<string>>, url: string, row: OptionRow)
    requires RowRecord(title, capacity, url, row).Success?
    ensures row.href.Some?
    ensures RowRecord(title, capacity, url, row).value.pcode == ExtractPcode(row.href.value)
  {
  }

  /** An empty (or all-whitespace) unit-price text gives no unit price. */
  lemma RowEmptyUnitPrice(title: string, capacity: Option<seq<string>>, url: string, row: OptionRow)
    requires Strip(row.unitPriceText) == ""
    requires RowRecord(title, capacity, url, row).Success?
    ensures RowRecord(title, capacity, url, row).value.unitPrice.None?
  {
  }

  /** The empty-text guard agrees with parsing the empty text. */
  lemma RowUnitPriceIsParse(unitPriceText: string)
    ensures RowUnitPrice(unitPriceText) == ExtractUnitPrice(Strip(unitPriceText))
  {
    if Strip(unitPriceText) == "" {
      assert RemoveCommas("") == "";
      UnitPriceInNoneIff("");
    }
  }
}
