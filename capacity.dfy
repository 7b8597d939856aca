/**
 * `extract_capacity_from_title`: the package size written in a product title.
 *
 * The lower-cased title is searched with three patterns in turn, and the
 * groups of the first pattern that matches anywhere are returned:
 *   1. `(\d+)\s?(g|ml)`                       mass or volume
 *   2. `(\d+)\s?(매|개|입|팩)`                 a count
 *   3. `(\d+)\s?x\s?(\d+)\s?(매|개|입|팩)`      a count times a count
 * Each pattern has a predicate saying where it matches, a function computing
 * the match at one index, and a lemma that the two agree. Because the tail of
 * pattern 3 is pattern 2, pattern 3 is never the one that decides.
 */
module Capacity {
  import opened Wrappers
  import opened Text
  import opened Scan

  /** The alternatives of pattern 1. */
  const MassUnits: seq<string> := ["g", "ml"]
  /** The alternatives of patterns 2 and 3. */
  const CountUnits: seq<string> := ["매", "개", "입", "팩"]

  /** A match of `(\d+)\s?(unit)`: where the digits end, where the unit starts, which unit. */
  datatype UnitMatch = UnitMatch(digitsEnd: nat, unitStart: nat, unit: string)

  /** A match of pattern 3: where the first number ends, `x`, the second number, the unit. */
  datatype CompoundMatch = CompoundMatch(
    firstEnd: nat, crossAt: nat, secondStart: nat, secondEnd: nat, unitStart: nat, unit: string)

  /**
   * `(\d+)\s?(u1|u2|...)` matches `t` from index `i` as `m` describes:
   * pattern 1 with `units == MassUnits`, pattern 2 with `units == CountUnits`.
   */
  predicate UnitPatternAt(t: string, i: nat, m: UnitMatch, units: seq<string>) {
    && DigitRun(t, i, m.digitsEnd)
    && OptSpace(t, m.digitsEnd, m.unitStart)
    && m.unit in units
    && OccursAt(t, m.unitStart, m.unit)
  }

  /** Pattern 3, `(\d+)\s?x\s?(\d+)\s?(매|개|입|팩)`: from the second number on it is pattern 2. */
  predicate CompoundAt(t: string, i: nat, c: CompoundMatch) {
    && DigitRun(t, i, c.firstEnd)
    && OptSpace(t, c.firstEnd, c.crossAt)
    && OccursAt(t, c.crossAt, "x")
    && OptSpace(t, c.crossAt + 1, c.secondStart)
    && UnitPatternAt(t, c.secondStart, UnitMatch(c.secondEnd, c.unitStart, c.unit), CountUnits)
  }

  /** The match of `(\d+)\s?(units)` that starts at index `i`, if there is one. */
  function MatchUnitPattern(t: string, i: nat, units: seq<string>): (r: Option<UnitMatch>)
    ensures r.Some? ==> UnitPatternAt(t, i, r.value, units)
  {
    if i >= |t| then None
    else
      var j := DigitRunEnd(t, i);
      if j == i then None
      else
        var q := SkipSpace(t, j);
        match FirstUnitAt(t, q, units)
        case None => None
        case Some(u) => Some(UnitMatch(j, q, u))
  }

  /**
   * Every match of `(\d+)\s?(units)` at `i` is the computed one: the digits
   * run as far as they go and `\s?` takes a whitespace when there is one. So
   * whichever order the regex engine backtracks in, it reports this match.
   */
  lemma UnitPatternUnique(t: string, i: nat, m: UnitMatch, units: seq<string>)
    requires WellFormedUnits(units) && UnitPatternAt(t, i, m, units)
    ensures MatchUnitPattern(t, i, units) == Some(m)
  {
    var j := DigitRunEnd(t, i);
    UnitStart(t, m.unitStart, units, m.unit);
    if m.digitsEnd < j {
      assert false;
    }
    if m.digitsEnd > j {
      assert false;
    }
    assert m.unitStart == SkipSpace(t, j);
    FirstUnitAtFinds(t, m.unitStart, units, m.unit);
  }

  /** The match of pattern 3 that starts at index `i`, if there is one. */
  function MatchCompound(t: string, i: nat): (r: Option<CompoundMatch>)
    ensures r.Some? ==> CompoundAt(t, i, r.value)
  {
    if i >= |t| then None
    else
      var j := DigitRunEnd(t, i);
      if j == i then None
      else
        var a := SkipSpace(t, j);
        if !OccursAt(t, a, "x") then None
        else
          var b := SkipSpace(t, a + 1);
          match MatchUnitPattern(t, b, CountUnits)
          case None => None
          case Some(m) => Some(CompoundMatch(j, a, b, m.digitsEnd, m.unitStart, m.unit))
  }

  /** Every match of pattern 3 at `i` is the computed one. */
  lemma CompoundUnique(t: string, i: nat, c: CompoundMatch)
    requires CompoundAt(t, i, c)
    ensures MatchCompound(t, i) == Some(c)
  {
    var j := DigitRunEnd(t, i);
    assert t[c.crossAt] == 'x' by {
      assert t[c.crossAt..c.crossAt + 1][0] == t[c.crossAt];
    }
    if c.firstEnd < j {
      assert false;
    }
    if c.firstEnd > j {
      assert false;
    }
    assert c.crossAt == SkipSpace(t, j);
    assert IsDigit(t[c.secondStart]);
    assert c.secondStart == SkipSpace(t, c.crossAt + 1);
    UnitPatternUnique(t, c.secondStart, UnitMatch(c.secondEnd, c.unitStart, c.unit), CountUnits);
  }

  function UnitMatcher(t: string, units: seq<string>): (at: nat -> Option<UnitMatch>)
    ensures forall k :: at(k) == MatchUnitPattern(t, k, units)
  {
    (k: nat) => MatchUnitPattern(t, k, units)
  }

  function CompoundMatcher(t: string): (at: nat -> Option<CompoundMatch>)
    ensures forall k :: at(k) == MatchCompound(t, k)
  {
    (k: nat) => MatchCompound(t, k)
  }

  /** `re.search` with pattern 1 (`MassUnits`) or pattern 2 (`CountUnits`). */
  function SearchUnitPattern(t: string, units: seq<string>): Option<(nat, UnitMatch)> {
    Leftmost(UnitMatcher(t, units), 0, |t|)
  }

  /** `re.search` with pattern 3. */
  function SearchCompound(t: string): Option<(nat, CompoundMatch)> {
    Leftmost(CompoundMatcher(t), 0, |t|)
  }

  /**
   * `extract_capacity_from_title(title)`: the groups of the first pattern that
   * matches the lower-cased title, as a sequence standing for Python's tuple.
   */
  function ExtractCapacity(title: string): Option<seq<string>> {
    CapacityIn(LowerAscii(title))
  }

  /** The groups of the first of the three patterns that matches `t`. */
  function CapacityIn(t: string): Option<seq<string>> {
    match SearchUnitPattern(t, MassUnits)
    case Some((i, m)) => Some([t[i..m.digitsEnd], m.unit])
    case None =>
      match SearchUnitPattern(t, CountUnits)
      case Some((i, m)) => Some([t[i..m.digitsEnd], m.unit])
      case None =>
        match SearchCompound(t)
        case Some((i, c)) => Some([t[i..c.firstEnd], t[c.secondStart..c.secondEnd], c.unit])
        case None => None
  }

  /** What the search reports is a match of the pattern. */
  lemma SearchSound(t: string, units: seq<string>)
    requires SearchUnitPattern(t, units).Some?
    ensures UnitPatternAt(t, SearchUnitPattern(t, units).value.0, SearchUnitPattern(t, units).value.1, units)
  {
    var (i, m) := SearchUnitPattern(t, units).value;
    assert UnitMatcher(t, units)(i) == Some(m);
  }

  /** Where the pattern matches, the search finds a match there or earlier. */
  lemma SearchFinds(t: string, i: nat, m: UnitMatch, units: seq<string>)
    requires WellFormedUnits(units) && UnitPatternAt(t, i, m, units)
    ensures SearchUnitPattern(t, units).Some? && SearchUnitPattern(t, units).value.0 <= i
  {
    UnitPatternUnique(t, i, m, units);
    LeftmostFinds(UnitMatcher(t, units), |t|, i);
  }

  /** The search reports the leftmost match of the pattern. */
  lemma SearchIsLeftmost(t: string, i: nat, m: UnitMatch, units: seq<string>)
    requires WellFormedUnits(units) && UnitPatternAt(t, i, m, units)
    requires forall k: nat, m': UnitMatch :: k < i ==> !UnitPatternAt(t, k, m', units)
    ensures SearchUnitPattern(t, units) == Some((i, m))
  {
    SearchFinds(t, i, m, units);
    SearchSound(t, units);
    UnitPatternUnique(t, i, m, units);
  }

  /** A match of pattern 3 anywhere gives pattern 2's search a match too. */
  lemma CompoundImpliesCount(t: string)
    requires SearchCompound(t).Some?
    ensures SearchUnitPattern(t, CountUnits).Some?
  {
    var (i, c) := SearchCompound(t).value;
    assert CompoundMatcher(t)(i) == Some(c);
    SearchFinds(t, c.secondStart, UnitMatch(c.secondEnd, c.unitStart, c.unit), CountUnits);
  }

  /**
   * The third pattern is never the one that decides: a capacity is always a
   * pair (number, unit), never the triple the compound pattern would give.
   */
  lemma CapacityIsPair(title: string)
    ensures ExtractCapacity(title).Some? ==> |ExtractCapacity(title).value| == 2
  {
    var t := LowerAscii(title);
    if SearchCompound(t).Some? {
      CompoundImpliesCount(t);
    }
  }

  /**
   * Mass and volume take priority: when `(\d+)\s?(g|ml)` matches the
   * lower-cased title, the capacity is its leftmost match, whatever count
   * units occur before it.
   */
  lemma CapacityPrefersMass(title: string, i: nat, m: UnitMatch)
    requires UnitPatternAt(LowerAscii(title), i, m, MassUnits)
    requires forall k: nat, m': UnitMatch :: k < i ==> !UnitPatternAt(LowerAscii(title), k, m', MassUnits)
    ensures ExtractCapacity(title) == Some([LowerAscii(title)[i..m.digitsEnd], m.unit])
  {
    SearchIsLeftmost(LowerAscii(title), i, m, MassUnits);
  }

  /** Without any mass or volume, the capacity is the leftmost count. */
  lemma CapacityFallsBackToCount(title: string, i: nat, m: UnitMatch)
    requires forall k: nat, m': UnitMatch :: !UnitPatternAt(LowerAscii(title), k, m', MassUnits)
    requires UnitPatternAt(LowerAscii(title), i, m, CountUnits)
    requires forall k: nat, m': UnitMatch :: k < i ==> !UnitPatternAt(LowerAscii(title), k, m', CountUnits)
    ensures ExtractCapacity(title) == Some([LowerAscii(title)[i..m.digitsEnd], m.unit])
  {
    var t := LowerAscii(title);
    if SearchUnitPattern(t, MassUnits).Some? {
      SearchSound(t, MassUnits);
    }
    SearchIsLeftmost(t, i, m, CountUnits);
  }

  /** `(\d+)\s?(units)` matches somewhere in `t`. */
  ghost predicate MatchesSomewhere(t: string, units: seq<string>) {
    exists k: nat, m: UnitMatch :: UnitPatternAt(t, k, m, units)
  }

  /** The search finds nothing exactly when the pattern matches nowhere. */
  lemma SearchNoneIff(t: string, units: seq<string>)
    requires WellFormedUnits(units)
    ensures SearchUnitPattern(t, units).None? <==> !MatchesSomewhere(t, units)
  {
    if SearchUnitPattern(t, units).Some? {
      var (k, m) := SearchUnitPattern(t, units).value;
      SearchSound(t, units);
      assert UnitPatternAt(t, k, m, units);
    } else {
      forall k: nat, m: UnitMatch
        ensures !UnitPatternAt(t, k, m, units)
      {
        if UnitPatternAt(t, k, m, units) {
          SearchFinds(t, k, m, units);
        }
      }
    }
  }

  /** No capacity exactly when neither a mass/volume nor a count occurs. */
  lemma CapacityInNoneIff(t: string)
    ensures CapacityIn(t).None? <==> !MatchesSomewhere(t, MassUnits) && !MatchesSomewhere(t, CountUnits)
  {
    if SearchCompound(t).Some? {
      CompoundImpliesCount(t);
    }
    SearchNoneIff(t, MassUnits);
    SearchNoneIff(t, CountUnits);
  }

  /** No capacity exactly when neither a mass/volume nor a count occurs in the lower-cased title. */
  lemma CapacityNoneIff(title: string)
    ensures ExtractCapacity(title).None? <==>
      !MatchesSomewhere(LowerAscii(title), MassUnits) && !MatchesSomewhere(LowerAscii(title), CountUnits)
  {
    CapacityInNoneIff(LowerAscii(title));
  }

  /** `m` at `i` is the leftmost match of `(\d+)\s?(units)` in `t`. */
  ghost predicate FirstMatchAt(t: string, i: nat, m: UnitMatch, units: seq<string>) {
    && UnitPatternAt(t, i, m, units)
    && forall k: nat, m': UnitMatch :: k < i ==> !UnitPatternAt(t, k, m', units)
  }

  /**
   * `value` is read from the match `m` at `i` that decides the capacity: the
   * leftmost match of pattern 1, or, when pattern 1 matches nowhere, the
   * leftmost match of pattern 2. The number is the text of a run of digits
   * that no digit precedes or follows, and the unit follows it (past one
   * optional whitespace).
   */
  ghost predicate CapacityReadFrom(t: string, value: seq<string>, i: nat, m: UnitMatch) {
    && (FirstMatchAt(t, i, m, MassUnits) || (!MatchesSomewhere(t, MassUnits) && FirstMatchAt(t, i, m, CountUnits)))
    && value == [t[i..m.digitsEnd], m.unit]
    && (i == 0 || !IsDigit(t[i - 1]))
    && m.digitsEnd < |t| && !IsDigit(t[m.digitsEnd])
  }

  /** Nothing before the match a search reports is a match. */
  lemma SearchFirst(t: string, units: seq<string>)
    requires WellFormedUnits(units) && SearchUnitPattern(t, units).Some?
    ensures FirstMatchAt(t, SearchUnitPattern(t, units).value.0, SearchUnitPattern(t, units).value.1, units)
  {
    var (i, m) := SearchUnitPattern(t, units).value;
    SearchSound(t, units);
    forall k: nat, m': UnitMatch | k < i
      ensures !UnitPatternAt(t, k, m', units)
    {
      if UnitPatternAt(t, k, m', units) {
        UnitPatternUnique(t, k, m', units);
        assert false;
      }
    }
  }

  /** The match a search reports is bounded by non-digits on both sides. */
  lemma SearchBounded(t: string, units: seq<string>)
    requires WellFormedUnits(units) && SearchUnitPattern(t, units).Some?
    ensures var (i, m) := SearchUnitPattern(t, units).value;
            && UnitPatternAt(t, i, m, units)
            && (i == 0 || !IsDigit(t[i - 1]))
            && m.digitsEnd < |t| && !IsDigit(t[m.digitsEnd])
  {
    var (i, m) := SearchUnitPattern(t, units).value;
    SearchSound(t, units);
    UnitStart(t, m.unitStart, units, m.unit);
    if i > 0 && IsDigit(t[i - 1]) {
      assert UnitPatternAt(t, i - 1, m, units);
      SearchFinds(t, i - 1, m, units);
      assert false;
    }
  }

  /**
   * A capacity is read from the leftmost g/ml match, or, when there is none,
   * from the leftmost 매/개/입/팩 match: the text of a maximal run of digits
   * and the unit after it.
   */
  lemma CapacityInShape(t: string)
    ensures CapacityIn(t).Some? ==> exists i: nat, m: UnitMatch :: CapacityReadFrom(t, CapacityIn(t).value, i, m)
  {
    if SearchUnitPattern(t, MassUnits).Some? {
      MassDecides(t);
      var (i, m) := SearchUnitPattern(t, MassUnits).value;
      assert CapacityReadFrom(t, CapacityIn(t).value, i, m);
    } else if SearchUnitPattern(t, CountUnits).Some? {
      CountDecides(t);
      var (i, m) := SearchUnitPattern(t, CountUnits).value;
      assert CapacityReadFrom(t, CapacityIn(t).value, i, m);
    } else {
      CapacityFromSearches(t);
    }
  }

  /** A match of pattern 1 decides the capacity. */
  lemma MassDecides(t: string)
    requires SearchUnitPattern(t, MassUnits).Some?
    ensures var (i, m) := SearchUnitPattern(t, MassUnits).value;
            CapacityIn(t).Some? && CapacityReadFrom(t, CapacityIn(t).value, i, m)
  {
    CapacityFromSearches(t);
    SearchBounded(t, MassUnits);
    SearchFirst(t, MassUnits);
  }

  /** Without a match of pattern 1, a match of pattern 2 decides the capacity. */
  lemma CountDecides(t: string)
    requires SearchUnitPattern(t, MassUnits).None? && SearchUnitPattern(t, CountUnits).Some?
    ensures var (i, m) := SearchUnitPattern(t, CountUnits).value;
            CapacityIn(t).Some? && CapacityReadFrom(t, CapacityIn(t).value, i, m)
  {
    CapacityFromSearches(t);
    SearchBounded(t, CountUnits);
    SearchFirst(t, CountUnits);
    SearchNoneIff(t, MassUnits);
  }

  lemma CapacityShape(title: string)
    ensures ExtractCapacity(title).Some? ==>
      exists i: nat, m: UnitMatch :: CapacityReadFrom(LowerAscii(title), ExtractCapacity(title).value, i, m)
  {
    CapacityInShape(LowerAscii(title));
  }

  /** Matching ignores the case of g and ml. */
  lemma CapacityIgnoresCase(title: string)
    ensures ExtractCapacity(LowerAscii(title)) == ExtractCapacity(title)
  {
    LowerAsciiIdempotent(title);
  }

  /** "300G": pattern 1 after lower-casing. */
  lemma CapacityExample300G()
    ensures ExtractCapacity("300G") == Some(["300", "g"])
  {
    var t := LowerAscii("300G");
    assert t == "300g";
    assert UnitPatternAt(t, 0, UnitMatch(3, 3, "g"), MassUnits);
    CapacityPrefersMass("300G", 0, UnitMatch(3, 3, "g"));
    assert t[0..3] == "300";
  }

  /** Without a `g` and an `m` in the text, pattern 1 matches nowhere. */
  lemma NoMassWithoutLetters(t: string)
    requires 'g' !in t && 'm' !in t
    ensures SearchUnitPattern(t, MassUnits).None?
  {
    if SearchUnitPattern(t, MassUnits).Some? {
      var (i, m) := SearchUnitPattern(t, MassUnits).value;
      SearchSound(t, MassUnits);
      UnitStart(t, m.unitStart, MassUnits, m.unit);
    }
  }

  /**
   * The capacity comes from pattern 1's search when it finds something, else
   * from pattern 2's, else there is none.
   */
  lemma CapacityFromSearches(t: string)
    ensures SearchUnitPattern(t, MassUnits).Some? ==>
      var (i, m) := SearchUnitPattern(t, MassUnits).value;
      i <= m.digitsEnd <= |t| && CapacityIn(t) == Some([t[i..m.digitsEnd], m.unit])
    ensures SearchUnitPattern(t, MassUnits).None? && SearchUnitPattern(t, CountUnits).Some? ==>
      var (i, m) := SearchUnitPattern(t, CountUnits).value;
      i <= m.digitsEnd <= |t| && CapacityIn(t) == Some([t[i..m.digitsEnd], m.unit])
    ensures SearchUnitPattern(t, MassUnits).None? && SearchUnitPattern(t, CountUnits).None? ==>
      CapacityIn(t).None?
  {
    if SearchUnitPattern(t, MassUnits).Some? {
      SearchSound(t, MassUnits);
    } else if SearchUnitPattern(t, CountUnits).Some? {
      SearchSound(t, CountUnits);
    } else if SearchCompound(t).Some? {
      CompoundImpliesCount(t);
    }
  }
}
