/**
 * Decimal digit strings and Python's `int(str)` conversion in base 10.
 */
module Numbers {
  import opened Wrappers
  import opened Text

  function DigitValue(c: char): (d: nat)
    requires IsDigit(c)
    ensures d < 10
  {
    c as int - '0' as int
  }

  function DigitChar(d: nat): (c: char)
    requires d < 10
    ensures IsDigit(c) && DigitValue(c) == d
  {
    ('0' as int + d) as char
  }

  /** The number a string of decimal digits denotes (what `int` makes of `(\d+)`). */
  function DecimalValue(s: string): nat
    requires AllDigits(s)
  {
    if s == [] then 0 else 10 * DecimalValue(s[..|s| - 1]) + DigitValue(s[|s| - 1])
  }

  /** The decimal rendering of a natural number, without leading zeros. */
  function NatToString(n: nat): (r: string)
    ensures |r| > 0 && AllDigits(r)
  {
    if n < 10 then [DigitChar(n)] else NatToString(n / 10) + [DigitChar(n % 10)]
  }

  /** `str(n)` */
  function IntToString(n: int): (r: string)
    ensures |r| > 0
  {
    if n < 0 then "-" + NatToString(-n) else NatToString(n)
  }

  lemma {:induction false} DecimalValueOfNatToString(n: nat)
    ensures DecimalValue(NatToString(n)) == n
  {
    var s := NatToString(n);
    if n >= 10 {
      assert s[..|s| - 1] == NatToString(n / 10);
      DecimalValueOfNatToString(n / 10);
    }
  }

  /**
   * The body that Python's `int` accepts after an optional sign: digits, with
   * single underscores allowed between digits (`1_000`).
   */
  predicate IsDigitGroups(b: string) {
    && |b| > 0
    && IsDigit(b[0])
    && IsDigit(b[|b| - 1])
    && (forall k :: 0 <= k < |b| ==> IsDigit(b[k]) || b[k] == '_')
    && (forall k :: 0 <= k < |b| - 1 ==> b[k] == '_' ==> b[k + 1] != '_')
  }

  function RemoveUnderscores(s: string): (r: string)
    ensures (forall k :: 0 <= k < |s| ==> IsDigit(s[k]) || s[k] == '_') ==> AllDigits(r)
  {
    if s == [] then []
    else if s[0] == '_' then RemoveUnderscores(s[1..])
    else [s[0]] + RemoveUnderscores(s[1..])
  }

  lemma {:induction false} RemoveUnderscoresOfDigits(s: string)
    requires AllDigits(s)
    ensures RemoveUnderscores(s) == s
  {
    if s != [] {
      assert s == [s[0]] + s[1..];
      RemoveUnderscoresOfDigits(s[1..]);
    }
  }

  /** The text that remains once a leading `+` or `-` is taken off. */
  function UnsignedPart(b: string): string {
    if |b| > 0 && (b[0] == '+' || b[0] == '-') then b[1..] else b
  }

  /**
   * `int(s)` on a string: surrounding whitespace is ignored, one sign is
   * allowed, then digit groups. Anything else raises `ValueError`, here `None`.
   */
  function ParseInt(s: string): (r: Option<int>)
    ensures r.Some? <==> IsDigitGroups(UnsignedPart(Strip(s)))
  {
    var b := Strip(s);
    var body := UnsignedPart(b);
    if IsDigitGroups(body) then
      var v: int := DecimalValue(RemoveUnderscores(body));
      Some(if |b| > 0 && b[0] == '-' then -v else v)
    else
      None
  }

  /** A nonempty string of digits converts to the number it denotes. */
  lemma ParseIntOfDigits(s: string)
    requires |s| > 0 && AllDigits(s)
    ensures ParseInt(s) == Some(DecimalValue(s))
  {
    StripUnpadded(s);
    assert IsDigitGroups(s);
    RemoveUnderscoresOfDigits(s);
  }

  /** Round trip: `int(str(n)) == n`. */
  lemma ParseIntOfIntToString(n: int)
    ensures ParseInt(IntToString(n)) == Some(n)
  {
    var s := IntToString(n);
    var digits := NatToString(if n < 0 then -n else n);
    assert s[|s| - 1] == digits[|digits| - 1];
    StripUnpadded(s);
    assert UnsignedPart(s) == digits;
    assert IsDigitGroups(digits);
    RemoveUnderscoresOfDigits(digits);
    DecimalValueOfNatToString(if n < 0 then -n else n);
  }

  /** A character that is no digit, whitespace, sign or underscore makes `int` raise. */
  lemma ParseIntRejects(s: string, k: nat)
    requires k < |s|
    requires !IsDigit(s[k]) && !IsSpace(s[k]) && s[k] !in "+-_"
    ensures ParseInt(s) == None
  {
    StripSlice(s);
    var a, b :| StrippedTo(s, a, b);
    var t := Strip(s);
    assert t[k - a] == s[k];
    var body := UnsignedPart(t);
    if |t| > 0 && (t[0] == '+' || t[0] == '-') {
      assert body[k - a - 1] == s[k];
    } else {
      assert body[k - a] == s[k];
    }
  }
}
