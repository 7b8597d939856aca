/**
 * What `re.search` does for the crawler's patterns: try each start index from
 * left to right and report the first index at which the pattern matches.
 */
module Scan {
  import opened Wrappers
  import opened Text

  /**
   * The leftmost index in `from..to` (both ends included) at which `at`
   * reports a match, with that match.
   */
  function Leftmost<T>(at: nat -> Option<T>, from: nat, to: nat): (r: Option<(nat, T)>)
    decreases to as int + 1 - from
    ensures r.Some? ==> from <= r.value.0 <= to && at(r.value.0) == Some(r.value.1)
    ensures r.Some? ==> forall k :: from <= k < r.value.0 ==> at(k).None?
    ensures r.None? ==> forall k :: from <= k <= to ==> at(k).None?
  {
    if from > to then None
    else if at(from).Some? then Some((from, at(from).value))
    else Leftmost(at, from + 1, to)
  }

  /** The leftmost match is the one at any index that has a match and none before it. */
  lemma LeftmostIs<T>(at: nat -> Option<T>, to: nat, i: nat)
    requires i <= to && at(i).Some?
    requires forall k :: 0 <= k < i ==> at(k).None?
    ensures Leftmost(at, 0, to) == Some((i, at(i).value))
  {
  }

  /** Wherever a match exists, the search finds one at that index or before it. */
  lemma LeftmostFinds<T>(at: nat -> Option<T>, to: nat, i: nat)
    requires i <= to && at(i).Some?
    ensures Leftmost(at, 0, to).Some? && Leftmost(at, 0, to).value.0 <= i
  {
  }

  /**
   * A list of alternatives such as `g|ml`, tried in order, each nonempty,
   * none starting with a digit or whitespace and no two with the same first
   * character (so at most one of them can occur at a given index).
   */
  predicate WellFormedUnits(units: seq<string>) {
    && (forall a :: 0 <= a < |units| ==>
          |units[a]| > 0 && !IsDigit(units[a][0]) && !IsSpace(units[a][0]))
    && (forall a, b :: 0 <= a < b < |units| ==> units[a][0] != units[b][0])
  }

  /** The first alternative that occurs at index `q`. */
  function FirstUnitAt(t: string, q: nat, units: seq<string>): (r: Option<string>)
    ensures r.Some? ==> r.value in units && OccursAt(t, q, r.value)
    ensures r.None? ==> forall u :: u in units ==> !OccursAt(t, q, u)
  {
    if units == [] then None
    else if OccursAt(t, q, units[0]) then Some(units[0])
    else FirstUnitAt(t, q, units[1..])
  }

  /** Where a unit occurs there is neither a digit nor whitespace. */
  lemma UnitStart(t: string, q: nat, units: seq<string>, u: string)
    requires WellFormedUnits(units) && u in units && OccursAt(t, q, u)
    ensures q < |t| && t[q] == u[0] && !IsDigit(t[q]) && !IsSpace(t[q])
  {
    assert t[q..q + |u|][0] == t[q];
  }

  /** The order of the alternatives does not matter: the one that occurs is found. */
  lemma {:induction false} FirstUnitAtFinds(t: string, q: nat, units: seq<string>, u: string)
    requires WellFormedUnits(units) && u in units && OccursAt(t, q, u)
    ensures FirstUnitAt(t, q, units) == Some(u)
  {
    UnitStart(t, q, units, u);
    if units[0] != u {
      if OccursAt(t, q, units[0]) {
        UnitStart(t, q, units, units[0]);
        assert false;
      }
      assert u in units[1..];
      assert WellFormedUnits(units[1..]) by {
        forall a, b | 0 <= a < b < |units| - 1
          ensures units[1..][a][0] != units[1..][b][0]
        {
          assert units[1..][a] == units[a + 1] && units[1..][b] == units[b + 1];
        }
      }
      FirstUnitAtFinds(t, q, units[1..], u);
    }
  }
}
