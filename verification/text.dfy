/** Character classes, trimming, and the integer and decimal conventions of
    Swift and Foundation that the rest of the model relies on.  Strings are
    sequences of Unicode scalar values; grapheme clustering is not modelled. */
module Text {

  // ---------------------------------------------------------------------
  // Character classes
  // ---------------------------------------------------------------------

  /** Membership in Foundation's `.whitespacesAndNewlines` set (the Unicode
      White_Space property), used by `trimmingCharacters(in:)`. */
  predicate IsWhitespace(c: char) {
    ('\t' <= c <= '\r') || c == ' ' || c == '\U{85}' || c == '\U{A0}' || c == '\U{1680}'
    || ('\U{2000}' <= c <= '\U{200A}') || c == '\U{2028}' || c == '\U{2029}'
    || c == '\U{202F}' || c == '\U{205F}' || c == '\U{3000}'
  }

  predicate IsDigit(c: char) {
    '0' <= c <= '9'
  }

  predicate AllDigits(s: string) {
    forall i :: 0 <= i < |s| ==> IsDigit(s[i])
  }

  // ---------------------------------------------------------------------
  // Trimming
  // ---------------------------------------------------------------------

  /** The position of the first non-whitespace character at or after `i`,
      or `|s|` when there is none. */
  function SkipLeading(s: string, i: nat): (k: nat)
    requires i <= |s|
    ensures i <= k <= |s|
    ensures forall j :: i <= j < k ==> IsWhitespace(s[j])
    ensures k == |s| || !IsWhitespace(s[k])
    decreases |s| - i
  {
    if i < |s| && IsWhitespace(s[i]) then SkipLeading(s, i + 1) else i
  }

  /** The position just past the last non-whitespace character of
      `s[lo..j]`, or `lo` when there is none. */
  function SkipTrailing(s: string, lo: nat, j: nat): (k: nat)
    requires lo <= j <= |s|
    ensures lo <= k <= j
    ensures forall i :: k <= i < j ==> IsWhitespace(s[i])
    ensures k == lo || !IsWhitespace(s[k - 1])
    decreases j
  {
    if j > lo && IsWhitespace(s[j - 1]) then SkipTrailing(s, lo, j - 1) else j
  }

  /** `s` with its leading whitespace removed. */
  function TrimStart(s: string): (r: string)
    ensures |r| <= |s| && r == s[|s| - |r|..]
    ensures forall i :: 0 <= i < |s| - |r| ==> IsWhitespace(s[i])
    ensures r == [] || !IsWhitespace(r[0])
  {
    s[SkipLeading(s, 0)..]
  }

  /** Foundation's `trimmingCharacters(in: .whitespacesAndNewlines)`: the
      longest infix of `s` that neither starts nor ends with whitespace and
      is surrounded by whitespace only. */
  function Trim(s: string): (r: string)
    ensures var a := |s| - |TrimStart(s)|;
            a + |r| <= |s| && r == s[a..a + |r|]
            && (forall i :: 0 <= i < a ==> IsWhitespace(s[i]))
            && (forall i :: a + |r| <= i < |s| ==> IsWhitespace(s[i]))
    ensures r == [] || (!IsWhitespace(r[0]) && !IsWhitespace(r[|r| - 1]))
  {
    var a := SkipLeading(s, 0);
    s[a..SkipTrailing(s, a, |s|)]
  }

  /** `trimmingCharacters(in: .whitespacesAndNewlines).isEmpty`. */
  predicate IsBlank(s: string) {
    Trim(s) == []
  }

  /** A string is blank exactly when every character of it is whitespace. */
  lemma BlankIffAllWhitespace(s: string)
    ensures IsBlank(s) <==> forall i :: 0 <= i < |s| ==> IsWhitespace(s[i])
  {
    var a := SkipLeading(s, 0);
    if IsBlank(s) {
      assert SkipTrailing(s, a, |s|) == a;
    }
  }

  /** Trimming is idempotent. */
  lemma TrimIdempotent(s: string)
    ensures Trim(Trim(s)) == Trim(s)
  {
    var r := Trim(s);
    if r != [] {
      TrimUnpadded(r);
    }
  }

  /** A string with no whitespace at either end is its own trimming. */
  lemma TrimUnpadded(s: string)
    requires |s| > 0 && !IsWhitespace(s[0]) && !IsWhitespace(s[|s| - 1])
    ensures Trim(s) == s
  {
    assert SkipLeading(s, 0) == 0;
    assert SkipTrailing(s, 0, |s|) == |s|;
  }

  /** Whitespace appended to a string disappears in its trimming. */
  lemma TrimDropsTrailingWhitespace(s: string, w: string)
    requires forall k :: 0 <= k < |w| ==> IsWhitespace(w[k])
    ensures Trim(s + w) == Trim(s)
  {
    var x := s + w;
    var a, a' := SkipLeading(s, 0), SkipLeading(x, 0);
    assert forall k :: 0 <= k < |s| ==> x[k] == s[k];
    assert forall k :: |s| <= k < |x| ==> x[k] == w[k - |s|];
    if a < |s| {
      assert a' == a;
      var b, b' := SkipTrailing(s, a, |s|), SkipTrailing(x, a, |x|);
      assert b' == b;
      assert x[a..b] == s[a..b];
    }
  }

  // ---------------------------------------------------------------------
  // Swift integer arithmetic
  // ---------------------------------------------------------------------

  /** Swift's `/` on `Int`: the quotient truncated toward zero. */
  function TruncDiv(a: int, b: int): (q: int)
    requires b != 0
    ensures var r := a - b * q;
            (r == 0 || (r > 0 <==> a > 0)) && (if r >= 0 then r else -r) < (if b >= 0 then b else -b)
  {
    var n := if a >= 0 then a else -a;
    var d := if b >= 0 then b else -b;
    if (a >= 0) == (b > 0) then n / d else -(n / d)
  }

  /** Swift's `%` on `Int`: the remainder takes the sign of the dividend. */
  function TruncRem(a: int, b: int): (r: int)
    requires b != 0
    ensures a == b * TruncDiv(a, b) + r
    ensures r == 0 || (r > 0 <==> a > 0)
    ensures (if r >= 0 then r else -r) < (if b >= 0 then b else -b)
  {
    a - b * TruncDiv(a, b)
  }

  /** On non-negative operands Swift's and Dafny's division agree. */
  lemma TruncDivOfNatural(a: int, b: int)
    requires a >= 0 && b > 0
    ensures TruncDiv(a, b) == a / b && TruncRem(a, b) == a % b
  {
  }

  /** Swift's `Int(x)` on a floating value: truncation toward zero. */
  function TruncReal(x: real): (n: int)
    ensures x >= 0.0 ==> 0 <= n && n as real <= x < n as real + 1.0
    ensures x < 0.0 ==> n <= 0 && n as real - 1.0 < x <= n as real
  {
    if x >= 0.0 then x.Floor else -((-x).Floor)
  }

  // ---------------------------------------------------------------------
  // Decimal rendering (`"\(n)"` and `%02d`)
  // ---------------------------------------------------------------------

  function DigitChar(d: int): (c: char)
    requires 0 <= d < 10
    ensures IsDigit(c) && c as int - '0' as int == d
  {
    ('0' as int + d) as char
  }

  /** The value of a string of decimal digits. */
  function DecimalValue(s: string): (n: nat)
    requires AllDigits(s)
  {
    if s == [] then 0 else 10 * DecimalValue(s[..|s| - 1]) + (s[|s| - 1] as int - '0' as int)
  }

  /** The shortest decimal rendering of a natural number. */
  function NatToDecimal(n: nat): (s: string)
    ensures 1 <= |s| && AllDigits(s)
    ensures |s| == 1 <==> n < 10
    ensures s[0] == '0' ==> n == 0
  {
    if n < 10 then [DigitChar(n)] else NatToDecimal(n / 10) + [DigitChar(n % 10)]
  }

  /** Reading back the rendering gives the number: rendering is injective. */
  lemma {:induction false} DecimalRoundTrip(n: nat)
    ensures DecimalValue(NatToDecimal(n)) == n
  {
    if n >= 10 {
      DecimalRoundTrip(n / 10);
      var s := NatToDecimal(n);
      assert s[..|s| - 1] == NatToDecimal(n / 10);
    }
  }

  /** Swift's string interpolation of an `Int`. */
  function IntToDecimal(n: int): (s: string)
    ensures 1 <= |s|
    ensures n >= 0 ==> s == NatToDecimal(n)
    ensures n < 0 ==> s == "-" + NatToDecimal(-n)
  {
    if n >= 0 then NatToDecimal(n) else "-" + NatToDecimal(-n)
  }

  /** `String(format: "%02d", n)`: at least two characters, zero-padded on
      the left only when the number is a single non-negative digit; any
      other number is its plain decimal rendering, sign included. */
  function ZeroPad2(n: int): (s: string)
    ensures 2 <= |s|
    ensures 0 <= n < 100 ==> |s| == 2 && AllDigits(s) && DecimalValue(s) == n
    ensures n >= 0 ==> AllDigits(s) && DecimalValue(s) == n
    ensures n >= 0 ==> (s[0] == '0' <==> n < 10)
    ensures n >= 10 ==> s == NatToDecimal(n)
    ensures n < 0 ==> s == "-" + NatToDecimal(-n)
  {
    if 0 <= n < 10 then
      var s := "0" + [DigitChar(n)];
      assert s[..1] == "0" && DecimalValue("0") == 0;
      s
    else
      DecimalRoundTrip(if n >= 0 then n else -n);
      IntToDecimal(n)
  }
}
