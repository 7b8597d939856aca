/**
 * `extract_unit_price`: the price per reference quantity shown beside an
 * option, such as "1,000원/100g".
 *
 * Commas are deleted, then `(\d+)\s?원/\s?(\d+)(g|ml|매|개)` is searched for.
 */
module UnitPrice {
  import opened Wrappers
  import opened Text
  import opened Numbers
  import opened Scan

  /** The alternatives of the unit group. */
  const PriceUnits: seq<string> := ["g", "ml", "매", "개"]

  /** The `unit_price` dictionary: price, reference quantity and its unit. */
  datatype UnitPriceInfo = UnitPriceInfo(unitPrice: nat, unitValue: nat, unitType: string)

  /** A match: where the price ends, where `원/` is, where the quantity starts and ends, the unit. */
  datatype PriceMatch = PriceMatch(priceEnd: nat, wonAt: nat, valueStart: nat, valueEnd: nat, unit: string)

  /** `(\d+)\s?원/\s?(\d+)(g|ml|매|개)` matches `t` from index `i` as `m` describes. */
  predicate PricePatternAt(t: string, i: nat, m: PriceMatch) {
    && DigitRun(t, i, m.priceEnd)
    && OptSpace(t, m.priceEnd, m.wonAt)
    && OccursAt(t, m.wonAt, "원/")
    && OptSpace(t, m.wonAt + 2, m.valueStart)
    && DigitRun(t, m.valueStart, m.valueEnd)
    && m.unit in PriceUnits
    && OccursAt(t, m.valueEnd, m.unit)
  }

  /** `원/\s?(\d+)(g|ml|매|개)` matches from index `a`, as the tail of `m` describes. */
  predicate PriceTailAt(t: string, a: nat, m: PriceMatch) {
    && m.wonAt == a
    && OccursAt(t, a, "원/")
    && OptSpace(t, a + 2, m.valueStart)
    && DigitRun(t, m.valueStart, m.valueEnd)
    && m.unit in PriceUnits
    && OccursAt(t, m.valueEnd, m.unit)
  }

  /** The match of the pattern's tail from index `a`, after a price ending at `j`. */
  function MatchPriceTail(t: string, j: nat, a: nat): (r: Option<PriceMatch>)
    ensures r.Some? ==> r.value.priceEnd == j && PriceTailAt(t, a, r.value)
  {
    if !OccursAt(t, a, "원/") then None
    else
      var b := SkipSpace(t, a + 2);
      var k := DigitRunEnd(t, b);
      if k == b then None
      else
        match FirstUnitAt(t, k, PriceUnits)
        case None => None
        case Some(u) => Some(PriceMatch(j, a, b, k, u))
  }

  /** The match of the unit-price pattern that starts at index `i`, if there is one. */
  function MatchPricePattern(t: string, i: nat): (r: Option<PriceMatch>)
    ensures r.Some? ==> PricePatternAt(t, i, r.value)
  {
    if i >= |t| then None
    else
      var j := DigitRunEnd(t, i);
      if j == i then None
      else MatchPriceTail(t, j, SkipSpace(t, j))
  }

  /** Every match of the tail is the computed one. */
  lemma PriceTailUnique(t: string, a: nat, m: PriceMatch)
    requires PriceTailAt(t, a, m)
    ensures MatchPriceTail(t, m.priceEnd, a) == Some(m)
  {
    assert m.valueStart == SkipSpace(t, a + 2);
    UnitStart(t, m.valueEnd, PriceUnits, m.unit);
    DigitRunMaximal(t, m.valueStart, m.valueEnd);
    FirstUnitAtFinds(t, m.valueEnd, PriceUnits, m.unit);
  }

  /**
   * Every match at `i` is the computed one: both numbers are maximal digit
   * runs and each `\s?` takes a whitespace when there is one, so the regex
   * engine's backtracking order does not matter.
   */
  lemma PricePatternUnique(t: string, i: nat, m: PriceMatch)
    requires PricePatternAt(t, i, m)
    ensures MatchPricePattern(t, i) == Some(m)
  {
    assert t[m.wonAt] == '원' by {
      assert t[m.wonAt..m.wonAt + 2][0] == t[m.wonAt];
    }
    assert !IsDigit(t[m.priceEnd]);
    DigitRunMaximal(t, i, m.priceEnd);
    assert m.wonAt == SkipSpace(t, m.priceEnd);
    PriceTailUnique(t, m.wonAt, m);
  }

  function PriceMatcher(t: string): (at: nat -> Option<PriceMatch>)
    ensures forall k :: at(k) == MatchPricePattern(t, k)
  {
    (k: nat) => MatchPricePattern(t, k)
  }

  /** `re.search` with the unit-price pattern. */
  function SearchPrice(t: string): Option<(nat, PriceMatch)> {
    Leftmost(PriceMatcher(t), 0, |t|)
  }

  /** The dictionary built from the leftmost match in comma-free text `t`. */
  function UnitPriceIn(t: string): Option<UnitPriceInfo> {
    match SearchPrice(t)
    case None => None
    case Some((i, m)) =>
      assert PriceMatcher(t)(i) == Some(m);
      DigitRunText(t, i, m.priceEnd);
      DigitRunText(t, m.valueStart, m.valueEnd);
      Some(UnitPriceInfo(DecimalValue(t[i..m.priceEnd]), DecimalValue(t[m.valueStart..m.valueEnd]), m.unit))
  }

  /** `extract_unit_price(text)`. */
  function ExtractUnitPrice(text: string): Option<UnitPriceInfo> {
    UnitPriceIn(RemoveCommas(text))
  }

  /** The unit-price pattern matches somewhere in `t`. */
  ghost predicate PriceMatchesSomewhere(t: string) {
    exists k: nat, m: PriceMatch :: PricePatternAt(t, k, m)
  }

  lemma SearchPriceSound(t: string)
    requires SearchPrice(t).Some?
    ensures PricePatternAt(t, SearchPrice(t).value.0, SearchPrice(t).value.1)
  {
    var (i, m) := SearchPrice(t).value;
    assert PriceMatcher(t)(i) == Some(m);
  }

  lemma SearchPriceFinds(t: string, i: nat, m: PriceMatch)
    requires PricePatternAt(t, i, m)
    ensures SearchPrice(t).Some? && SearchPrice(t).value.0 <= i
  {
    PricePatternUnique(t, i, m);
    LeftmostFinds(PriceMatcher(t), |t|, i);
  }

  /** The value of a match is the leftmost match in the comma-free text, read as numbers. */
  lemma UnitPriceInLeftmost(t: string, i: nat, m: PriceMatch)
    requires PricePatternAt(t, i, m)
    requires forall k: nat, m': PriceMatch :: k < i ==> !PricePatternAt(t, k, m')
    ensures AllDigits(t[i..m.priceEnd]) && AllDigits(t[m.valueStart..m.valueEnd])
    ensures UnitPriceIn(t) == Some(UnitPriceInfo(
      DecimalValue(t[i..m.priceEnd]), DecimalValue(t[m.valueStart..m.valueEnd]), m.unit))
  {
    SearchPriceFinds(t, i, m);
    SearchPriceSound(t);
    PricePatternUnique(t, i, m);
    DigitRunText(t, i, m.priceEnd);
    DigitRunText(t, m.valueStart, m.valueEnd);
  }

  /**
   * `extract_unit_price` reads the leftmost match of the pattern in the text
   * with commas deleted: the price and the quantity as decimal numbers, and the unit.
   */
  lemma UnitPriceLeftmost(text: string, i: nat, m: PriceMatch)
    requires PricePatternAt(RemoveCommas(text), i, m)
    requires forall k: nat, m': PriceMatch :: k < i ==> !PricePatternAt(RemoveCommas(text), k, m')
    ensures AllDigits(RemoveCommas(text)[i..m.priceEnd])
    ensures AllDigits(RemoveCommas(text)[m.valueStart..m.valueEnd])
    ensures ExtractUnitPrice(text) == Some(UnitPriceInfo(
      DecimalValue(RemoveCommas(text)[i..m.priceEnd]),
      DecimalValue(RemoveCommas(text)[m.valueStart..m.valueEnd]), m.unit))
  {
    UnitPriceInLeftmost(RemoveCommas(text), i, m);
  }

  lemma UnitPriceInNoneIff(t: string)
    ensures UnitPriceIn(t).None? <==> !PriceMatchesSomewhere(t)
  {
    if SearchPrice(t).Some? {
      var (k, m) := SearchPrice(t).value;
      SearchPriceSound(t);
      assert PricePatternAt(t, k, m);
    } else {
      forall k: nat, m: PriceMatch
        ensures !PricePatternAt(t, k, m)
      {
        if PricePatternAt(t, k, m) {
          SearchPriceFinds(t, k, m);
        }
      }
    }
  }

  /** `None` exactly when the comma-free text holds no match of the pattern. */
  lemma UnitPriceNoneIff(text: string)
    ensures ExtractUnitPrice(text).None? <==> !PriceMatchesSomewhere(RemoveCommas(text))
  {
    UnitPriceInNoneIff(RemoveCommas(text));
  }

  /**
   * `info` is read from the match `m` at `i`: the price and the quantity are
   * the values of digit runs that no digit precedes or follows, and the unit
   * is the match's unit.
   */
  ghost predicate ReadFrom(t: string, info: UnitPriceInfo, i: nat, m: PriceMatch) {
    && PricePatternAt(t, i, m)
    && AllDigits(t[i..m.priceEnd]) && AllDigits(t[m.valueStart..m.valueEnd])
    && info.unitPrice == DecimalValue(t[i..m.priceEnd])
    && info.unitValue == DecimalValue(t[m.valueStart..m.valueEnd])
    && info.unitType == m.unit
    && (i == 0 || !IsDigit(t[i - 1]))
    && !IsDigit(t[m.priceEnd])
    && !IsDigit(t[m.valueStart - 1])
    && !IsDigit(t[m.valueEnd])
  }

  /** Around a match, the characters next to both digit runs are no digits. */
  lemma PriceMatchBounded(t: string, i: nat, m: PriceMatch)
    requires PricePatternAt(t, i, m)
    ensures !IsDigit(t[m.priceEnd]) && !IsDigit(t[m.valueStart - 1]) && !IsDigit(t[m.valueEnd])
  {
    assert t[m.wonAt] == '원' && t[m.wonAt + 1] == '/' by {
      assert t[m.wonAt..m.wonAt + 2][0] == t[m.wonAt];
      assert t[m.wonAt..m.wonAt + 2][1] == t[m.wonAt + 1];
    }
    UnitStart(t, m.valueEnd, PriceUnits, m.unit);
  }

  /** The match the search reports starts a run of digits: no digit comes before it. */
  lemma SearchPriceStartsRun(t: string)
    requires SearchPrice(t).Some?
    ensures var i := SearchPrice(t).value.0; i == 0 || !IsDigit(t[i - 1])
  {
    var (i, m) := SearchPrice(t).value;
    SearchPriceSound(t);
    if i > 0 && IsDigit(t[i - 1]) {
      assert PricePatternAt(t, i - 1, m);
      SearchPriceFinds(t, i - 1, m);
      assert false;
    }
  }

  /** The value read from the match the search reports. */
  lemma UnitPriceInFromSearch(t: string)
    requires SearchPrice(t).Some?
    ensures var (i, m) := SearchPrice(t).value;
            && PricePatternAt(t, i, m)
            && UnitPriceIn(t) == Some(UnitPriceInfo(DecimalValue(t[i..m.priceEnd]), DecimalValue(t[m.valueStart..m.valueEnd]), m.unit))
  {
    SearchPriceSound(t);
  }

  lemma UnitPriceInShape(t: string)
    ensures UnitPriceIn(t).Some? ==> exists i: nat, m: PriceMatch :: ReadFrom(t, UnitPriceIn(t).value, i, m)
  {
    if SearchPrice(t).Some? {
      var (i, m) := SearchPrice(t).value;
      UnitPriceInFromSearch(t);
      SearchPriceStartsRun(t);
      PriceMatchBounded(t, i, m);
      DigitRunText(t, i, m.priceEnd);
      DigitRunText(t, m.valueStart, m.valueEnd);
      assert ReadFrom(t, UnitPriceIn(t).value, i, m);
    }
  }

  /**
   * A unit price is read from maximal digit runs: the price run is not
   * preceded or followed by a digit, nor is the quantity run, and the unit is
   * one of g, ml, 매, 개.
   */
  lemma UnitPriceShape(text: string)
    ensures ExtractUnitPrice(text).Some? ==>
      && ExtractUnitPrice(text).value.unitType in PriceUnits
      && exists i: nat, m: PriceMatch :: ReadFrom(RemoveCommas(text), ExtractUnitPrice(text).value, i, m)
  {
    UnitPriceInShape(RemoveCommas(text));
  }

  /** Deleting commas beforehand changes nothing. */
  lemma UnitPriceCommaInvariant(text: string)
    ensures ExtractUnitPrice(RemoveCommas(text)) == ExtractUnitPrice(text)
  {
    RemoveCommasNoComma(RemoveCommas(text));
  }

  /** Inserting a comma anywhere changes nothing. */
  lemma UnitPriceCommaInsertion(a: string, b: string)
    ensures ExtractUnitPrice(a + "," + b) == ExtractUnitPrice(a + b)
  {
    RemoveCommasDropsComma(a, b);
  }

  lemma ExampleText() ensures RemoveCommas("1000원/100g") == "1000원/100g" {
    RemoveCommasNoComma("1000원/100g");
  }

  lemma ExampleNumbers() ensures DecimalValue("1000") == 1000 && DecimalValue("100") == 100 {
    assert "1000"[..3] == "100";
    assert "100"[..2] == "10";
    assert "10"[..1] == "1";
    assert "1"[..0] == "";
  }

  lemma ExampleMatch(t: string)
    requires t == "1000원/100g"
    ensures PricePatternAt(t, 0, PriceMatch(4, 4, 6, 9, "g"))
  {
    assert t[4..6] == "원/" && t[9..10] == "g";
  }

  lemma ExampleRuns(t: string)
    requires t == "1000원/100g"
    ensures AllDigits(t[0..4]) && DecimalValue(t[0..4]) == 1000
    ensures AllDigits(t[6..9]) && DecimalValue(t[6..9]) == 100
  {
    assert t[0..4] == "1000";
    assert t[6..9] == "100";
    ExampleNumbers();
  }

  lemma ExampleWithoutComma(t: string)
    requires t == "1000원/100g"
    ensures UnitPriceIn(t) == Some(UnitPriceInfo(1000, 100, "g"))
  {
    ExampleMatch(t);
    ExampleRuns(t);
    UnitPriceInLeftmost(t, 0, PriceMatch(4, 4, 6, 9, "g"));
  }

  /** "1,000원/100g" is 1000 won per 100 g. */
  lemma UnitPriceExample()
    ensures ExtractUnitPrice("1,000원/100g") == Some(UnitPriceInfo(1000, 100, "g"))
  {
    assert "1,000원/100g" == "1" + "," + "000원/100g";
    assert "1000원/100g" == "1" + "000원/100g";
    UnitPriceCommaInsertion("1", "000원/100g");
    ExampleText();
    ExampleWithoutComma("1000원/100g");
  }
}
