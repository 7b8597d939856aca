/**
 * Titles run through `extract_capacity_from_title`. Each example is shown
 * from the patterns' definitions: which indices cannot start a match, and the
 * match at the first index that does.
 */
module CapacityExamples {
  import opened Wrappers
  import opened Text
  import opened Scan
  import opened Capacity

  /** No match of `(\d+)\s?(units)` can start where there is no digit. */
  lemma NoMatchWithoutDigit(t: string, k: nat, units: seq<string>)
    requires k >= |t| || !IsDigit(t[k])
    ensures MatchUnitPattern(t, k, units).None?
  {
  }

  /** No unit of the list occurs where the character is none of their first characters. */
  lemma NoUnitAt(t: string, q: nat, units: seq<string>)
    requires q < |t|
    requires forall u :: u in units ==> |u| > 0 && u[0] != t[q]
    ensures forall u :: u in units ==> !OccursAt(t, q, u)
  {
    forall u | u in units
      ensures !OccursAt(t, q, u)
    {
      if OccursAt(t, q, u) {
        OccursAtFirst(t, q, u);
      }
    }
  }

  /** A maximal digit run from `k` not followed by a unit: no match starts at `k`. */
  lemma NoMatchWithoutUnit(t: string, k: nat, e: nat, units: seq<string>)
    requires DigitRun(t, k, e) && (e == |t| || !IsDigit(t[e]))
    requires forall u :: u in units ==> !OccursAt(t, SkipSpace(t, e), u)
    ensures MatchUnitPattern(t, k, units).None?
  {
    DigitRunMaximal(t, k, e);
  }

  lemma MassAfterCountMisses(t: string)
    requires t == "2개 300g"
    ensures forall k: nat :: k < 3 ==> UnitMatcher(t, MassUnits)(k).None?
  {
    assert SkipSpace(t, 1) == 1;
    NoUnitAt(t, 1, MassUnits);
    NoMatchWithoutUnit(t, 0, 1, MassUnits);
    NoMatchWithoutDigit(t, 1, MassUnits);
    NoMatchWithoutDigit(t, 2, MassUnits);
  }

  lemma MassAfterCountHit(t: string)
    requires t == "2개 300g"
    ensures UnitMatcher(t, MassUnits)(3) == Some(UnitMatch(6, 6, "g"))
  {
    OccursAtChar(t, 6, "g");
    UnitPatternUnique(t, 3, UnitMatch(6, 6, "g"), MassUnits);
  }

  /** "2개 300g": the mass wins over a count that comes first. */
  lemma MassAfterCountCapacity(t: string)
    requires t == "2개 300g"
    ensures ExtractCapacity(t) == Some(["300", "g"])
  {
    LowerAsciiKeeps(t);
    MassAfterCountMisses(t);
    MassAfterCountHit(t);
    LeftmostIs(UnitMatcher(t, MassUnits), |t|, 3);
    CapacityFromSearches(t);
    assert t[3..6] == "300";
  }

  lemma CapacityExampleMassAfterCount()
    ensures ExtractCapacity("2개 300g") == Some(["300", "g"])
  {
    MassAfterCountCapacity("2개 300g");
  }

  lemma CompoundHit(t: string)
    requires t == "70매 x 10개"
    ensures UnitMatcher(t, CountUnits)(0) == Some(UnitMatch(2, 2, "매"))
  {
    OccursAtChar(t, 2, "매");
    UnitPatternUnique(t, 0, UnitMatch(2, 2, "매"), CountUnits);
  }

  lemma CompoundPlain(t: string)
    requires t == "70매 x 10개"
    ensures LowerAscii(t) == t && SearchUnitPattern(t, MassUnits).None?
  {
    LowerAsciiKeeps(t);
    NoMassWithoutLetters(t);
  }

  /** "70매 x 10개": the count pattern answers ("70", "매"), not a triple. */
  lemma CompoundCapacity(t: string)
    requires t == "70매 x 10개"
    ensures ExtractCapacity(t) == Some(["70", "매"])
  {
    CompoundPlain(t);
    CompoundHit(t);
    LeftmostIs(UnitMatcher(t, CountUnits), |t|, 0);
    CapacityFromSearches(t);
    assert t[0..2] == "70";
  }

  lemma CapacityExampleCompound()
    ensures ExtractCapacity("70매 x 10개") == Some(["70", "매"])
  {
    CompoundCapacity("70매 x 10개");
  }

  /** Pattern 3 does match "70 x 10개", at index 0. */
  lemma SpacedCompound()
    ensures MatchCompound("70 x 10개", 0).Some?
  {
    var t := "70 x 10개";
    OccursAtChar(t, 3, "x");
    OccursAtChar(t, 7, "개");
    CompoundUnique(t, 0, CompoundMatch(2, 3, 5, 7, 7, "개"));
  }

  lemma SpacedMisses(t: string)
    requires t == "70 x 10개"
    ensures forall k: nat :: k < 5 ==> UnitMatcher(t, CountUnits)(k).None?
  {
    assert SkipSpace(t, 2) == 3;
    NoUnitAt(t, 3, CountUnits);
    NoMatchWithoutUnit(t, 0, 2, CountUnits);
    NoMatchWithoutUnit(t, 1, 2, CountUnits);
    NoMatchWithoutDigit(t, 2, CountUnits);
    NoMatchWithoutDigit(t, 3, CountUnits);
    NoMatchWithoutDigit(t, 4, CountUnits);
  }

  lemma SpacedHit(t: string)
    requires t == "70 x 10개"
    ensures UnitMatcher(t, CountUnits)(5) == Some(UnitMatch(7, 7, "개"))
  {
    OccursAtChar(t, 7, "개");
    UnitPatternUnique(t, 5, UnitMatch(7, 7, "개"), CountUnits);
  }

  lemma SpacedPlain(t: string)
    requires t == "70 x 10개"
    ensures LowerAscii(t) == t && SearchUnitPattern(t, MassUnits).None?
  {
    LowerAsciiKeeps(t);
    NoMassWithoutLetters(t);
  }

  /** "70 x 10개": pattern 3 matches, yet pattern 2 answers first with ("10", "개"). */
  lemma SpacedCapacity(t: string)
    requires t == "70 x 10개"
    ensures ExtractCapacity(t) == Some(["10", "개"])
  {
    SpacedPlain(t);
    SpacedMisses(t);
    SpacedHit(t);
    LeftmostIs(UnitMatcher(t, CountUnits), |t|, 5);
    CapacityFromSearches(t);
    assert t[5..7] == "10";
  }

  lemma CapacityExampleCompoundSpaced()
    ensures ExtractCapacity("70 x 10개") == Some(["10", "개"])
  {
    SpacedCapacity("70 x 10개");
  }
}
