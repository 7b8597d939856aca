/**
 * The product code in an option's link: the first `pcode=` followed by at
 * least one digit, and the digits after it (`re.search(r"pcode=(\d+)", link)`).
 */
module Pcode {
  import opened Wrappers
  import opened Text
  import opened Scan

  const Key: string := "pcode="

  /** `pcode=(\d+)` can match `t` from index `i` with its group ending at `j`. */
  predicate PcodeAt(t: string, i: nat, j: nat) {
    OccursAt(t, i, Key) && DigitRun(t, i + |Key|, j)
  }

  /**
   * The greedy match at `i`: the end of the longest digit run after `pcode=`.
   * Unlike the other patterns, shorter groups also match here; `\d+` takes
   * them all.
   */
  function MatchPcode(t: string, i: nat): (r: Option<nat>)
    ensures r.Some? ==> PcodeAt(t, i, r.value) && (r.value == |t| || !IsDigit(t[r.value]))
    ensures r.None? ==> forall j :: !PcodeAt(t, i, j)
  {
    if !OccursAt(t, i, Key) then None
    else
      var j := DigitRunEnd(t, i + |Key|);
      if j == i + |Key| then None else Some(j)
  }

  /** Any match at `i` ends at or before the greedy one. */
  lemma MatchPcodeLongest(t: string, i: nat, j: nat)
    requires PcodeAt(t, i, j)
    ensures MatchPcode(t, i).Some? && j <= MatchPcode(t, i).value
  {
    var e := DigitRunEnd(t, i + |Key|);
    if e < j {
      assert false;
    }
  }

  function PcodeMatcher(t: string): (at: nat -> Option<nat>)
    ensures forall k :: at(k) == MatchPcode(t, k)
  {
    (k: nat) => MatchPcode(t, k)
  }

  /** The `pcode` field: the leftmost match's digits, or `None`. */
  function ExtractPcode(link: string): Option<string> {
    match Leftmost(PcodeMatcher(link), 0, |link|)
    case None => None
    case Some((i, j)) =>
      assert PcodeMatcher(link)(i) == Some(j);
      Some(link[i + |Key|..j])
  }

  /** `pcode=` followed by a digit occurs somewhere in `t`. */
  ghost predicate PcodeSomewhere(t: string) {
    exists i: nat, j: nat :: PcodeAt(t, i, j)
  }

  /**
   * The code is the longest digit run after the leftmost `pcode=` that is
   * followed by a digit; an earlier `pcode=` without digits is passed over.
   */
  lemma PcodeLeftmost(link: string, i: nat, j: nat)
    requires PcodeAt(link, i, j)
    requires forall k: nat, e: nat :: k < i ==> !PcodeAt(link, k, e)
    ensures ExtractPcode(link) == Some(link[i + |Key|..DigitRunEnd(link, i + |Key|)])
  {
    MatchPcodeLongest(link, i, j);
    forall k: nat | k < i
      ensures PcodeMatcher(link)(k).None?
    {
    }
    LeftmostIs(PcodeMatcher(link), |link|, i);
  }

  /** The field is `None` exactly when no `pcode=` is followed by a digit. */
  lemma PcodeNoneIff(link: string)
    ensures ExtractPcode(link).None? <==> !PcodeSomewhere(link)
  {
    var r := Leftmost(PcodeMatcher(link), 0, |link|);
    if r.Some? {
      var (i, j) := r.value;
      assert PcodeMatcher(link)(i) == Some(j);
      assert PcodeAt(link, i, j);
    } else {
      forall i: nat, j: nat
        ensures !PcodeAt(link, i, j)
      {
        if i <= |link| {
          assert PcodeMatcher(link)(i).None?;
        }
      }
    }
  }

  /**
   * `code` is the code read at index `i`: a nonempty, maximal run of digits
   * right after `pcode=`, with no `pcode=` before it followed by a digit.
   */
  ghost predicate PcodeFoundAt(link: string, i: nat, code: string) {
    var e := i + |Key| + |code|;
    && PcodeAt(link, i, e)
    && code == link[i + |Key|..e]
    && (e == |link| || !IsDigit(link[e]))
    && (forall k: nat, e': nat :: k < i ==> !PcodeAt(link, k, e'))
  }

  lemma PcodeShape(link: string)
    requires ExtractPcode(link).Some?
    ensures exists i: nat :: PcodeFoundAt(link, i, ExtractPcode(link).value)
  {
    var (i, j) := Leftmost(PcodeMatcher(link), 0, |link|).value;
    assert PcodeMatcher(link)(i) == Some(j);
    var code := ExtractPcode(link).value;
    assert i + |Key| + |code| == j;
    forall k: nat, e: nat | k < i
      ensures !PcodeAt(link, k, e)
    {
      assert PcodeMatcher(link)(k).None?;
    }
    assert PcodeFoundAt(link, i, code);
  }

  lemma ExampleMatch(t: string)
    requires t == "?pcode=&pcode=42"
    ensures PcodeAt(t, 8, 16) && DigitRunEnd(t, 14) == 16 && t[14..16] == "42"
  {
    assert t[8..14] == "pcode=";
  }

  lemma ExampleNoEarlier(t: string)
    requires t == "?pcode=&pcode=42"
    ensures forall k: nat, e: nat :: k < 8 ==> !PcodeAt(t, k, e)
  {
    forall k: nat, e: nat | k < 8
      ensures !PcodeAt(t, k, e)
    {
      assert !IsDigit(t[k + 6]);
    }
  }

  /** A `pcode=` without digits is passed over: "?pcode=&pcode=42" yields "42". */
  lemma PcodeExample()
    ensures ExtractPcode("?pcode=&pcode=42") == Some("42")
  {
    var t := "?pcode=&pcode=42";
    ExampleMatch(t);
    ExampleNoEarlier(t);
    PcodeLeftmost(t, 8, 16);
  }
}
