/**
 * Character classes and string operations the crawler relies on.
 *
 * Python's `\d` is modelled as the ASCII digits, `\s` and `str.strip()` as the
 * six ASCII whitespace characters, and `str.lower()` as ASCII A-Z to a-z.
 */
module Text {

  predicate IsDigit(c: char) {
    '0' <= c <= '9'
  }

  predicate IsSpace(c: char) {
    c == ' ' || c == '\t' || c == '\n' || c == '\r' || c == '\U{0B}' || c == '\U{0C}'
  }

  function LowerChar(c: char): char {
    if 'A' <= c <= 'Z' then (c as int + 32) as char else c
  }

  /** `str.lower()` restricted to ASCII letters. */
  function LowerAscii(s: string): (r: string)
    ensures |r| == |s|
    ensures forall k :: 0 <= k < |s| ==> r[k] == LowerChar(s[k])
  {
    if s == [] then [] else [LowerChar(s[0])] + LowerAscii(s[1..])
  }

  /** Text without ASCII capitals is left as it is. */
  lemma LowerAsciiKeeps(s: string)
    requires forall k :: 0 <= k < |s| ==> !('A' <= s[k] <= 'Z')
    ensures LowerAscii(s) == s
  {
  }

  lemma LowerAsciiIdempotent(s: string)
    ensures LowerAscii(LowerAscii(s)) == LowerAscii(s)
  {
  }

  /** `s.replace(",", "")`. */
  function RemoveCommas(s: string): (r: string)
    ensures ',' !in r
    ensures |r| <= |s|
  {
    if s == [] then []
    else if s[0] == ',' then RemoveCommas(s[1..])
    else [s[0]] + RemoveCommas(s[1..])
  }

  lemma {:induction false} RemoveCommasAppend(a: string, b: string)
    ensures RemoveCommas(a + b) == RemoveCommas(a) + RemoveCommas(b)
  {
    if a == [] {
      assert a + b == b;
    } else {
      assert (a + b)[0] == a[0] && (a + b)[1..] == a[1..] + b;
      RemoveCommasAppend(a[1..], b);
    }
  }

  lemma RemoveCommasOfComma()
    ensures RemoveCommas(",") == ""
  {
    assert ","[1..] == "";
  }

  /** A comma between two strings is dropped and nothing else changes. */
  lemma RemoveCommasDropsComma(a: string, b: string)
    ensures RemoveCommas(a + "," + b) == RemoveCommas(a + b)
  {
    calc == {
      RemoveCommas(a + "," + b);
      { RemoveCommasAppend(a + ",", b); }
      RemoveCommas(a + ",") + RemoveCommas(b);
      { RemoveCommasAppend(a, ","); RemoveCommasOfComma(); }
      RemoveCommas(a) + RemoveCommas(b);
      { RemoveCommasAppend(a, b); }
      RemoveCommas(a + b);
    }
  }

  /** A string without commas is left as it is. */
  lemma {:induction false} RemoveCommasNoComma(s: string)
    requires ',' !in s
    ensures RemoveCommas(s) == s
  {
    if s != [] {
      assert s == [s[0]] + s[1..];
      RemoveCommasNoComma(s[1..]);
    }
  }

  /** Every character other than a comma survives comma removal. */
  lemma {:induction false} RemoveCommasKeeps(s: string, c: char)
    requires c in s && c != ','
    ensures c in RemoveCommas(s)
  {
    if s[0] != c {
      assert c in s[1..];
      RemoveCommasKeeps(s[1..], c);
    }
  }

  /** `s.startswith(prefix)`. */
  predicate StartsWith(s: string, prefix: string) {
    |prefix| <= |s| && s[..|prefix|] == prefix
  }

  /** The literal `u` occurs in `t` at index `q`. */
  predicate OccursAt(t: string, q: nat, u: string) {
    q + |u| <= |t| && t[q..q + |u|] == u
  }

  lemma OccursAtChar(t: string, q: nat, u: string)
    requires |u| == 1
    ensures OccursAt(t, q, u) <==> q < |t| && t[q] == u[0]
  {
    if q < |t| {
      assert t[q..q + 1] == [t[q]];
    }
  }

  /** Where a literal occurs, its first character is there. */
  lemma OccursAtFirst(t: string, q: nat, u: string)
    requires OccursAt(t, q, u) && |u| > 0
    ensures q < |t| && t[q] == u[0]
  {
    assert t[q..q + |u|][0] == t[q];
  }

  /** `t[i..j]` is a nonempty run of digits (one way `(\d+)` can match at `i`). */
  predicate DigitRun(t: string, i: nat, j: nat) {
    i < j <= |t| && forall k :: i <= k < j ==> IsDigit(t[k])
  }

  /** Every character of `s` is a decimal digit: `s` is empty or one run of digits. */
  predicate AllDigits(s: string) {
    s == [] || DigitRun(s, 0, |s|)
  }

  /** The text of a run of digits is a nonempty digit string. */
  lemma DigitRunText(t: string, i: nat, j: nat)
    requires DigitRun(t, i, j)
    ensures |t[i..j]| > 0 && AllDigits(t[i..j])
  {
    assert forall k :: 0 <= k < j - i ==> t[i..j][k] == t[i + k];
  }

  /** `\s?` at index `j` can end at index `q`. */
  predicate OptSpace(t: string, j: nat, q: nat) {
    q == j || (q == j + 1 && j < |t| && IsSpace(t[j]))
  }

  /** The end of the longest run of digits that starts at `i`. */
  function DigitRunEnd(t: string, i: nat): (j: nat)
    requires i <= |t|
    ensures i <= j <= |t|
    ensures forall k :: i <= k < j ==> IsDigit(t[k])
    ensures j == |t| || !IsDigit(t[j])
    decreases |t| - i
  {
    if i < |t| && IsDigit(t[i]) then DigitRunEnd(t, i + 1) else i
  }

  /** A run of digits followed by no digit is the longest run from its start. */
  lemma DigitRunMaximal(t: string, i: nat, e: nat)
    requires DigitRun(t, i, e) && (e == |t| || !IsDigit(t[e]))
    ensures e == DigitRunEnd(t, i)
  {
  }

  /** Where `\s?` ends when the next token can never be whitespace. */
  function SkipSpace(t: string, j: nat): (q: nat)
    ensures OptSpace(t, j, q)
    ensures q == j + 1 <==> j < |t| && IsSpace(t[j])
  {
    if j < |t| && IsSpace(t[j]) then j + 1 else j
  }

  /** Where the text starts once the whitespace from index `i` on is skipped. */
  function StripStart(s: string, i: nat): (a: nat)
    requires i <= |s|
    ensures i <= a <= |s|
    ensures forall k :: i <= k < a ==> IsSpace(s[k])
    ensures a == |s| || !IsSpace(s[a])
    decreases |s| - i
  {
    if i < |s| && IsSpace(s[i]) then StripStart(s, i + 1) else i
  }

  /** Where the text ends once the whitespace before index `j` (back to `a`) is dropped. */
  function StripEnd(s: string, a: nat, j: nat): (b: nat)
    requires a <= j <= |s|
    ensures a <= b <= j
    ensures forall k :: b <= k < j ==> IsSpace(s[k])
    ensures b == a || !IsSpace(s[b - 1])
    decreases j
  {
    if a < j && IsSpace(s[j - 1]) then StripEnd(s, a, j - 1) else j
  }

  /** `str.strip()`: whitespace removed from both ends. */
  function Strip(s: string): string {
    var a := StripStart(s, 0);
    s[a..StripEnd(s, a, |s|)]
  }

  /** `s[a..b]` is what strip leaves of `s`: only whitespace lies outside it. */
  ghost predicate StrippedTo(s: string, a: int, b: int) {
    && 0 <= a <= b <= |s| && Strip(s) == s[a..b]
    && (forall k :: 0 <= k < a ==> IsSpace(s[k]))
    && (forall k :: b <= k < |s| ==> IsSpace(s[k]))
  }

  /** What strip leaves is a slice of the input with only whitespace cut away on either side. */
  lemma StripSlice(s: string)
    ensures exists a, b :: StrippedTo(s, a, b)
  {
    var a := StripStart(s, 0);
    assert StrippedTo(s, a, StripEnd(s, a, |s|));
  }

  /** What strip leaves neither starts nor ends with whitespace. */
  lemma StripEnds(s: string)
    ensures Strip(s) == [] || (!IsSpace(Strip(s)[0]) && !IsSpace(Strip(s)[|Strip(s)| - 1]))
  {
  }

  /** Text that neither starts nor ends with whitespace is left as it is. */
  lemma StripUnpadded(s: string)
    requires |s| > 0 && !IsSpace(s[0]) && !IsSpace(s[|s| - 1])
    ensures Strip(s) == s
  {
    assert StripStart(s, 0) == 0;
    assert StripEnd(s, 0, |s|) == |s|;
  }
}
