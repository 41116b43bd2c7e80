/**
 * The two pieces of JavaScript string behaviour the crawler relies on:
 * String.prototype.trim, applied to every extracted innerText, and the
 * decimal rendering of an integer page number inside a template literal.
 */
module JsText {

  /** WhiteSpace and LineTerminator code points of ECMAScript, the set trim() strips. */
  predicate IsJsWhitespace(c: char) {
    || c == '\t' || c == '\U{000B}' || c == '\U{000C}' || c == ' '
    || c == '\U{00A0}' || c == '\U{FEFF}' || c == '\U{1680}'
    || ('\U{2000}' <= c <= '\U{200A}')
    || c == '\U{202F}' || c == '\U{205F}' || c == '\U{3000}'
    || c == '\n' || c == '\r' || c == '\U{2028}' || c == '\U{2029}'
  }

  /** Leading whitespace removed: the longest whitespace prefix is dropped. */
  function TrimStart(s: string): (r: string)
    ensures |r| <= |s| && r == s[|s| - |r|..]
    ensures forall i :: 0 <= i < |s| - |r| ==> IsJsWhitespace(s[i])
    ensures r == [] || !IsJsWhitespace(r[0])
  {
    if |s| > 0 && IsJsWhitespace(s[0]) then TrimStart(s[1..]) else s
  }

  /** Trailing whitespace removed: the longest whitespace suffix is dropped. */
  function TrimEnd(s: string): (r: string)
    ensures |r| <= |s| && r == s[..|r|]
    ensures forall i :: |r| <= i < |s| ==> IsJsWhitespace(s[i])
    ensures r == [] || !IsJsWhitespace(r[|r| - 1])
  {
    if |s| > 0 && IsJsWhitespace(s[|s| - 1]) then TrimEnd(s[..|s| - 1]) else s
  }

  /** String.prototype.trim. */
  function Trim(s: string): string {
    TrimEnd(TrimStart(s))
  }

  /** A string whose ends are not whitespace. */
  predicate IsTrimmed(s: string) {
    s == [] || (!IsJsWhitespace(s[0]) && !IsJsWhitespace(s[|s| - 1]))
  }

  /** How many characters trim() takes off the front of `s`. */
  function LeadingBlanks(s: string): nat {
    |s| - |TrimStart(s)|
  }

  /** trim() leaves no whitespace at either end. */
  lemma TrimmedEnds(s: string)
    ensures IsTrimmed(Trim(s))
  {
    PrefixKeepsStart(TrimStart(s), Trim(s));
  }

  /** A prefix of a text that starts non-blank, itself ending non-blank, has non-blank ends. */
  lemma PrefixKeepsStart(t: string, r: string)
    requires t == [] || !IsJsWhitespace(t[0])
    requires |r| <= |t| && r == t[..|r|]
    requires r == [] || !IsJsWhitespace(r[|r| - 1])
    ensures IsTrimmed(r)
  {
    if r != [] {
      assert r[0] == t[0];
    }
  }

  /**
   * trim() removes a whitespace prefix and a whitespace suffix and nothing
   * else: the result is a contiguous piece of the input with non-blank ends.
   */
  lemma TrimIsInnerPiece(s: string)
    ensures IsTrimmed(Trim(s))
    ensures LeadingBlanks(s) + |Trim(s)| <= |s|
    ensures Trim(s) == s[LeadingBlanks(s)..LeadingBlanks(s) + |Trim(s)|]
    ensures forall i :: 0 <= i < LeadingBlanks(s) ==> IsJsWhitespace(s[i])
    ensures forall i :: LeadingBlanks(s) + |Trim(s)| <= i < |s| ==> IsJsWhitespace(s[i])
  {
    TrimmedEnds(s);
    InnerPiece(s, LeadingBlanks(s), TrimStart(s), Trim(s));
  }

  /**
   * A prefix r of the suffix t of s starting at lo, followed in t by
   * whitespace only, is the piece of s starting at lo, followed in s by
   * whitespace only.
   */
  lemma InnerPiece(s: string, lo: nat, t: string, r: string)
    requires lo <= |s| && t == s[lo..]
    requires |r| <= |t| && r == t[..|r|]
    requires forall i :: |r| <= i < |t| ==> IsJsWhitespace(t[i])
    ensures lo + |r| <= |s| && r == s[lo..lo + |r|]
    ensures forall i :: lo + |r| <= i < |s| ==> IsJsWhitespace(s[i])
  {
    forall i | lo + |r| <= i < |s| ensures IsJsWhitespace(s[i]) {
      assert s[i] == t[i - lo];
    }
  }

  /** A string with non-blank ends is left as it is. */
  lemma TrimOfTrimmed(s: string)
    requires IsTrimmed(s)
    ensures Trim(s) == s
  {
  }

  /** Trimming twice is trimming once. */
  lemma TrimIdempotent(s: string)
    ensures Trim(Trim(s)) == Trim(s)
  {
    TrimIsInnerPiece(s);
    TrimOfTrimmed(Trim(s));
  }

  /** A text made only of whitespace trims to the empty string. */
  lemma {:induction false} TrimAllWhitespace(s: string)
    requires forall i :: 0 <= i < |s| ==> IsJsWhitespace(s[i])
    ensures Trim(s) == ""
  {
    if |s| > 0 {
      TrimAllWhitespace(s[1..]);
    }
  }

  predicate IsDigit(c: char) {
    '0' <= c <= '9'
  }

  predicate AllDigits(s: string) {
    forall i :: 0 <= i < |s| ==> IsDigit(s[i])
  }

  function DigitChar(d: nat): (c: char)
    requires d < 10
    ensures IsDigit(c) && (c as int) - ('0' as int) == d
  {
    ('0' as int + d) as char
  }

  /** The decimal text of a non-negative integer, as `${n}` renders it. */
  function NatToDecimal(n: nat): (r: string)
    ensures |r| >= 1 && AllDigits(r)
    ensures r[0] == '0' ==> n == 0
  {
    if n < 10 then [DigitChar(n)] else NatToDecimal(n / 10) + [DigitChar(n % 10)]
  }

  /** The value of a string of decimal digits. */
  function DecimalValue(s: string): nat
    requires AllDigits(s)
  {
    if s == [] then 0
    else 10 * DecimalValue(s[..|s| - 1]) + ((s[|s| - 1] as int) - ('0' as int))
  }

  /** Reading back the rendered decimal text yields the number. */
  lemma {:induction false} DecimalRoundTrip(n: nat)
    ensures DecimalValue(NatToDecimal(n)) == n
  {
    var r := NatToDecimal(n);
    if n >= 10 {
      DecimalRoundTrip(n / 10);
      assert r[..|r| - 1] == NatToDecimal(n / 10);
    }
  }

  /** A digit string as `${n}` writes it: no leading zero except for "0" itself. */
  predicate IsCanonicalDecimal(s: string) {
    s != [] && AllDigits(s) && (s[0] != '0' || s == "0")
  }

  /** A digit string that starts with a non-zero digit denotes a positive number. */
  lemma {:induction false} LeadingDigitPositive(s: string)
    requires s != [] && AllDigits(s) && s[0] != '0'
    ensures DecimalValue(s) > 0
  {
    if |s| > 1 {
      LeadingDigitPositive(s[..|s| - 1]);
    }
  }

  /** Rendering the value of a canonical digit string gives that string back. */
  lemma {:induction false} CanonicalDecimalRoundTrip(s: string)
    requires IsCanonicalDecimal(s)
    ensures NatToDecimal(DecimalValue(s)) == s
  {
    var last := s[|s| - 1];
    var d := (last as int) - ('0' as int);
    if |s| > 1 {
      var init := s[..|s| - 1];
      LeadingDigitPositive(init);
      CanonicalDecimalRoundTrip(init);
      var n := DecimalValue(s);
      assert n / 10 == DecimalValue(init) && n % 10 == d;
      assert DigitChar(d) == last;
      assert s == init + [last];
    } else {
      assert DigitChar(d) == last;
    }
  }

  /** The rendering of every number is canonical. */
  lemma NatToDecimalCanonical(n: nat)
    ensures IsCanonicalDecimal(NatToDecimal(n))
  {
    if NatToDecimal(n)[0] == '0' {
      assert n == 0;
    }
  }

  /** Different numbers render as different texts. */
  lemma DecimalInjective(m: nat, n: nat)
    requires NatToDecimal(m) == NatToDecimal(n)
    ensures m == n
  {
    DecimalRoundTrip(m);
    DecimalRoundTrip(n);
  }
}
