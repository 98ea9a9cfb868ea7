/** The hex colour codec of FocusFlow/Utilities/ColorHex.swift at the level
    of integer colour components: `UIColor(hex:)` parses "#RRGGBB" or
    "#RRGGBBAA" (in any case, with surrounding whitespace) into four
    components, and `toHex(includeAlpha:)` prints them back as "#" and two
    uppercase hex digits per component. */
module ColorHex {
  import opened Wrappers
  import opened Text

  /** A colour component: `CGFloat(x) / 255.0` for an integer `x` in 0...255. */
  type Byte = x: int | 0 <= x < 256

  datatype Rgba = Rgba(red: Byte, green: Byte, blue: Byte, alpha: Byte)

  // ---------------------------------------------------------------------
  // Hex digits
  // ---------------------------------------------------------------------

  /** A digit `Scanner.scanHexInt64` accepts. */
  predicate IsHexDigit(c: char) {
    IsDigit(c) || ('A' <= c <= 'F') || ('a' <= c <= 'f')
  }

  /** A digit `%X` prints. */
  predicate IsUpperHexDigit(c: char) {
    IsDigit(c) || ('A' <= c <= 'F')
  }

  predicate AllUpperHex(s: string) {
    forall i :: 0 <= i < |s| ==> IsUpperHexDigit(s[i])
  }

  function HexDigitValue(c: char): (d: int)
    requires IsHexDigit(c)
    ensures 0 <= d < 16
  {
    if IsDigit(c) then c as int - '0' as int
    else if 'A' <= c <= 'F' then c as int - 'A' as int + 10
    else c as int - 'a' as int + 10
  }

  /** The uppercase hex digit for a value below 16. */
  function HexChar(d: int): (c: char)
    requires 0 <= d < 16
    ensures IsUpperHexDigit(c) && HexDigitValue(c) == d
  {
    if d < 10 then ('0' as int + d) as char else ('A' as int + d - 10) as char
  }

  lemma HexCharOfValue(c: char)
    requires IsUpperHexDigit(c)
    ensures HexChar(HexDigitValue(c)) == c
  {
  }

  /** The value of a string of hex digits. */
  function HexValue(s: string): (v: nat)
    requires forall i :: 0 <= i < |s| ==> IsHexDigit(s[i])
  {
    if s == [] then 0 else 16 * HexValue(s[..|s| - 1]) + HexDigitValue(s[|s| - 1])
  }

  /** Two more digits shift the value by a byte. */
  lemma HexValueAppendPair(x: string, y: string)
    requires forall i :: 0 <= i < |x| ==> IsHexDigit(x[i])
    requires |y| == 2 && IsHexDigit(y[0]) && IsHexDigit(y[1])
    ensures HexValue(x + y) == 256 * HexValue(x) + HexValue(y)
  {
    var xy := x + y;
    var x0 := x + [y[0]];
    assert xy[..|xy| - 1] == x0;
    assert x0[..|x0| - 1] == x;
    assert HexValue(x0) == 16 * HexValue(x) + HexDigitValue(y[0]);
    assert HexValue(xy) == 16 * HexValue(x0) + HexDigitValue(y[1]);
    HexValuePair(y);
  }

  /** Two digits: the high one counts sixteen times. */
  lemma HexValuePair(p: string)
    requires |p| == 2 && IsHexDigit(p[0]) && IsHexDigit(p[1])
    ensures HexValue(p) == 16 * HexDigitValue(p[0]) + HexDigitValue(p[1])
  {
    var p0 := [p[0]];
    assert p[..|p| - 1] == p0;
    assert p0[..|p0| - 1] == [];
    assert HexValue(p0) == HexDigitValue(p[0]);
  }

  /** `%02X` of a component: exactly two uppercase hex digits. */
  function Hex2(x: Byte): (s: string)
    ensures |s| == 2 && AllUpperHex(s)
    ensures HexValue(s) == x
  {
    var s := [HexChar(x / 16), HexChar(x % 16)];
    HexValuePair(s);
    s
  }

  /** Two uppercase hex digits print back as themselves. */
  lemma Hex2OfValue(p: string)
    requires |p| == 2 && AllUpperHex(p)
    ensures HexValue(p) < 256 && Hex2(HexValue(p)) == p
  {
    var hi, lo := HexDigitValue(p[0]), HexDigitValue(p[1]);
    HexValuePair(p);
    PlaceValue16(hi, lo);
    HexCharOfValue(p[0]);
    HexCharOfValue(p[1]);
    assert Hex2(HexValue(p)) == [HexChar(hi), HexChar(lo)];
  }

  /** Two uppercase hex digits make a byte. */
  lemma HexPairBound(p: string)
    requires |p| == 2 && AllUpperHex(p)
    ensures HexValue(p) < 256
  {
    HexValuePair(p);
  }

  /** Division by 16 splits a two-digit value into its digits. */
  lemma PlaceValue16(hi: int, lo: int)
    requires 0 <= hi < 16 && 0 <= lo < 16
    ensures (16 * hi + lo) / 16 == hi && (16 * hi + lo) % 16 == lo
  {
  }

  // ---------------------------------------------------------------------
  // Parsing
  // ---------------------------------------------------------------------

  /** `uppercased()` on ASCII letters. */
  function AsciiUpper(s: string): (r: string)
    ensures |r| == |s|
    ensures forall i :: 0 <= i < |s| ==> r[i] == (if 'a' <= s[i] <= 'z' then (s[i] as int - 32) as char else s[i])
  {
    seq(|s|, i requires 0 <= i < |s| => if 'a' <= s[i] <= 'z' then (s[i] as int - 32) as char else s[i])
  }

  /** A string without lowercase ASCII letters is its own uppercasing. */
  lemma UpperUnchanged(s: string)
    requires forall i :: 0 <= i < |s| ==> !('a' <= s[i] <= 'z')
    ensures AsciiUpper(s) == s
  {
    var u := AsciiUpper(s);
    forall i | 0 <= i < |s|
      ensures u[i] == s[i]
    {
    }
  }

  /** The digits `init?(hex:)` looks at: the input trimmed, uppercased, and
      without one leading "#". */
  function Normalize(hex: string): (n: string)
    ensures var u := AsciiUpper(Trim(hex));
            n == (if |u| > 0 && u[0] == '#' then u[1..] else u)
  {
    var u := AsciiUpper(Trim(hex));
    if |u| > 0 && u[0] == '#' then u[1..] else u
  }

  /** The length of the run of hex digits `s` starts with. */
  function HexPrefixLength(s: string): (k: nat)
    ensures k <= |s|
    ensures forall i :: 0 <= i < k ==> IsHexDigit(s[i])
    ensures k < |s| ==> !IsHexDigit(s[k])
  {
    if |s| > 0 && IsHexDigit(s[0]) then 1 + HexPrefixLength(s[1..]) else 0
  }

  /** `Scanner(string:).scanHexInt64(&v)` starting from 0: leading
      whitespace is skipped and the longest run of hex digits is read; with
      no digits the value stays 0. */
  function ScanHex(s: string): nat {
    var t := TrimStart(s);
    HexValue(t[..HexPrefixLength(t)])
  }

  /** On a string of hex digits the scanner reads all of them. */
  lemma ScanAllHex(s: string)
    requires |s| > 0 && forall i :: 0 <= i < |s| ==> IsHexDigit(s[i])
    ensures ScanHex(s) == HexValue(s)
  {
    assert !IsWhitespace(s[0]);
    var t := TrimStart(s);
    assert |t| == |s|;
    assert t == s;
    var k := HexPrefixLength(s);
    assert k == |s|;
    assert s[..k] == s;
  }

  /** The components of a scanned value: six digits are RRGGBB with an
      opaque alpha, eight are RRGGBBAA, each component shifted down and
      masked to a byte. */
  function Components(v: nat, digits: nat): (c: Rgba)
    ensures digits != 8 ==> c.alpha == 255
  {
    if digits == 8 then Rgba((v / 0x100_0000) % 256, (v / 0x1_0000) % 256, (v / 0x100) % 256, v % 256)
    else Rgba((v / 0x1_0000) % 256, (v / 0x100) % 256, v % 256, 255)
  }

  /** `UIColor.init?(hex:)`: nothing unless six or eight characters remain
      after normalizing; otherwise the components of the scanned value. */
  function ParseHex(hex: string): (r: Option<Rgba>)
    ensures r.Some? <==> |Normalize(hex)| == 6 || |Normalize(hex)| == 8
    ensures r.Some? && |Normalize(hex)| == 6 ==> r.value.alpha == 255
  {
    var n := Normalize(hex);
    if |n| != 6 && |n| != 8 then None else Some(Components(ScanHex(n), |n|))
  }

  // ---------------------------------------------------------------------
  // Printing
  // ---------------------------------------------------------------------

  /** `toHex(includeAlpha:)`: "#RRGGBB", or "#RRGGBBAA" with the alpha. */
  function ToHex(c: Rgba, includeAlpha: bool): (s: string)
    ensures |s| == (if includeAlpha then 9 else 7)
    ensures s[0] == '#' && AllUpperHex(s[1..])
  {
    var rgb := "#" + Hex2(c.red) + Hex2(c.green) + Hex2(c.blue);
    if includeAlpha then rgb + Hex2(c.alpha) else rgb
  }

  /** SwiftUI's `Color(hex:)`, built from the parsed `UIColor`. */
  datatype Color = Color(ui: Rgba)

  function ColorFromHex(hex: string): (r: Option<Color>)
    ensures r.None? <==> ParseHex(hex).None?
    ensures r.Some? ==> r.value.ui == ParseHex(hex).value
  {
    match ParseHex(hex)
    case None => None
    case Some(ui) => Some(Color(ui))
  }

  /** `Color.toHex(includeAlpha:)` goes through `UIColor`. */
  function ColorToHex(c: Color, includeAlpha: bool): (s: string)
    ensures s == ToHex(c.ui, includeAlpha)
  {
    ToHex(c.ui, includeAlpha)
  }

  // ---------------------------------------------------------------------
  // Round trips
  // ---------------------------------------------------------------------

  /** Division by a byte place value undoes a place-value step. */
  lemma DivMod(q: nat, r: nat, k: nat)
    requires k == 0x100 || k == 0x1_0000 || k == 0x100_0000
    requires r < k
    ensures (q * k + r) / k == q && (q * k + r) % k == r
  {
    if k == 0x100 {
      assert (q * 0x100 + r) / 0x100 == q;
    } else if k == 0x1_0000 {
      assert (q * 0x1_0000 + r) / 0x1_0000 == q;
    } else {
      assert (q * 0x100_0000 + r) / 0x100_0000 == q;
    }
  }

  /** Shifting and masking the bytes of a value built byte by byte. */
  lemma Bytes3(r: Byte, g: Byte, b: Byte)
    ensures var v := (r * 256 + g) * 256 + b;
            (v / 0x1_0000) % 256 == r && (v / 0x100) % 256 == g && v % 256 == b
  {
    var v := (r * 256 + g) * 256 + b;
    DivMod(r * 256 + g, b, 256);
    DivMod(r, g, 256);
    DivMod(r, g * 256 + b, 0x1_0000);
    DivMod(0, r, 256);
  }

  lemma Bytes4(r: Byte, g: Byte, b: Byte, a: Byte)
    ensures var v := ((r * 256 + g) * 256 + b) * 256 + a;
            (v / 0x100_0000) % 256 == r && (v / 0x1_0000) % 256 == g && (v / 0x100) % 256 == b && v % 256 == a
  {
    var w := (r * 256 + g) * 256 + b;
    var v := w * 256 + a;
    DivMod(w, a, 256);
    Bytes3(r, g, b);
    DivMod((r * 256 + g), b * 256 + a, 0x1_0000);
    DivMod(r, g * 0x1_0000 + b * 256 + a, 0x100_0000);
    DivMod(0, r, 256);
  }

  /** The components of a value built from three or four bytes are those
      bytes. */
  lemma ComponentsOf3(r: Byte, g: Byte, b: Byte)
    ensures Components((r * 256 + g) * 256 + b, 6) == Rgba(r, g, b, 255)
  {
    Bytes3(r, g, b);
  }

  lemma ComponentsOf4(r: Byte, g: Byte, b: Byte, a: Byte)
    ensures Components(((r * 256 + g) * 256 + b) * 256 + a, 8) == Rgba(r, g, b, a)
  {
    Bytes4(r, g, b, a);
  }

  lemma AllUpperHexAppend(a: string, b: string)
    requires AllUpperHex(a) && AllUpperHex(b)
    ensures AllUpperHex(a + b)
  {
    assert forall i :: 0 <= i < |a + b| ==> (a + b)[i] == (if i < |a| then a[i] else b[i - |a|]);
  }

  /** A string of uppercase hex digits with nothing around it normalizes to
      itself once prefixed by "#". */
  lemma NormalizeCanonical(body: string)
    requires |body| > 0 && AllUpperHex(body)
    ensures Normalize("#" + body) == body
  {
    var s := "#" + body;
    assert s[0] == '#' && s[|s| - 1] == body[|body| - 1];
    TrimUnpadded(s);
    forall i | 0 <= i < |s|
      ensures !('a' <= s[i] <= 'z')
    {
      if i > 0 {
        assert s[i] == body[i - 1] && IsUpperHexDigit(body[i - 1]);
      }
    }
    UpperUnchanged(s);
    assert s[1..] == body;
  }

  /** Parsing "#" and a canonical body reads every digit of it. */
  lemma ParseCanonical(body: string)
    requires (|body| == 6 || |body| == 8) && AllUpperHex(body)
    ensures ParseHex("#" + body) == Some(Components(HexValue(body), |body|))
  {
    NormalizeCanonical(body);
    ScanAllHex(body);
  }

  /** The printed digits of three or four components, and their value. */
  lemma PrintedDigits(c: Rgba)
    ensures var rgb := Hex2(c.red) + Hex2(c.green) + Hex2(c.blue);
            && AllUpperHex(rgb) && |rgb| == 6
            && HexValue(rgb) == (c.red * 256 + c.green) * 256 + c.blue
            && AllUpperHex(rgb + Hex2(c.alpha))
            && HexValue(rgb + Hex2(c.alpha)) == ((c.red * 256 + c.green) * 256 + c.blue) * 256 + c.alpha
  {
    var r, g, b, a := Hex2(c.red), Hex2(c.green), Hex2(c.blue), Hex2(c.alpha);
    AllUpperHexAppend(r, g);
    AllUpperHexAppend(r + g, b);
    AllUpperHexAppend(r + g + b, a);
    HexValueAppendPair(r, g);
    HexValueAppendPair(r + g, b);
    HexValueAppendPair(r + g + b, a);
  }

  /** Printing a colour and parsing the result gives the colour back (with
      an opaque alpha when the alpha was not printed). */
  lemma ParsePrinted(c: Rgba, includeAlpha: bool)
    ensures ParseHex(ToHex(c, includeAlpha)) == Some(if includeAlpha then c else c.(alpha := 255))
  {
    var rgb := Hex2(c.red) + Hex2(c.green) + Hex2(c.blue);
    PrintedDigits(c);
    if includeAlpha {
      var body := rgb + Hex2(c.alpha);
      assert ToHex(c, true) == "#" + body;
      ComponentsOf4(c.red, c.green, c.blue, c.alpha);
      assert Components(HexValue(body), |body|) == c;
      ParseCanonical(body);
    } else {
      assert ToHex(c, false) == "#" + rgb;
      ComponentsOf3(c.red, c.green, c.blue);
      assert Components(HexValue(rgb), |rgb|) == c.(alpha := 255);
      ParseCanonical(rgb);
    }
  }

  /** The value of canonical digits, pair by pair. */
  lemma DigitPairs(n: string)
    requires (|n| == 6 || |n| == 8) && AllUpperHex(n)
    ensures HexValue(n[0..2]) < 256 && HexValue(n[2..4]) < 256 && HexValue(n[4..6]) < 256
    ensures |n| == 8 ==> HexValue(n[6..8]) < 256
    ensures |n| == 6 ==> HexValue(n) == (HexValue(n[0..2]) * 256 + HexValue(n[2..4])) * 256 + HexValue(n[4..6])
    ensures |n| == 8 ==> HexValue(n) == ((HexValue(n[0..2]) * 256 + HexValue(n[2..4])) * 256 + HexValue(n[4..6])) * 256 + HexValue(n[6..8])
  {
    var p0, p1, p2 := n[0..2], n[2..4], n[4..6];
    HexPairBound(p0);
    HexPairBound(p1);
    HexPairBound(p2);
    Split(n, 2, 4);
    Split(n, 4, 6);
    assert n[0..2] == p0;
    HexValueThreePairs(p0, p1, p2);
    if |n| == 6 {
      assert n[0..6] == n;
    } else {
      var p3 := n[6..8];
      HexPairBound(p3);
      Split(n, 6, 8);
      assert n[0..8] == n;
      HexValueAppendPair(p0 + p1 + p2, p3);
    }
  }

  /** Three pairs of digits read as three bytes. */
  lemma HexValueThreePairs(p0: string, p1: string, p2: string)
    requires |p0| == 2 && |p1| == 2 && |p2| == 2 && AllUpperHex(p0) && AllUpperHex(p1) && AllUpperHex(p2)
    ensures forall i :: 0 <= i < |p0 + p1 + p2| ==> IsHexDigit((p0 + p1 + p2)[i])
    ensures HexValue(p0 + p1 + p2) == (HexValue(p0) * 256 + HexValue(p1)) * 256 + HexValue(p2)
  {
    AllUpperHexAppend(p0, p1);
    AllUpperHexAppend(p0 + p1, p2);
    HexValueAppendPair(p0, p1);
    HexValueAppendPair(p0 + p1, p2);
  }

  /** A prefix of `s` split at two more positions. */
  lemma Split(s: string, i: nat, j: nat)
    requires i <= j <= |s|
    ensures s[0..j] == s[0..i] + s[i..j]
  {
  }

  /** Printing the components of six or eight canonical digits gives the
      digits back. */
  lemma PrintComponents(n: string)
    requires (|n| == 6 || |n| == 8) && AllUpperHex(n)
    ensures ToHex(Components(HexValue(n), |n|), |n| == 8) == "#" + n
  {
    DigitPairs(n);
    Hex2OfValue(n[0..2]);
    Hex2OfValue(n[2..4]);
    Hex2OfValue(n[4..6]);
    Split(n, 2, 4);
    Split(n, 4, 6);
    if |n| == 6 {
      PrintComponents6(n);
    } else {
      Hex2OfValue(n[6..8]);
      Split(n, 6, 8);
      PrintComponents8(n);
    }
  }

  lemma PrintComponents6(n: string)
    requires |n| == 6 && AllUpperHex(n)
    requires HexValue(n[0..2]) < 256 && HexValue(n[2..4]) < 256 && HexValue(n[4..6]) < 256
    requires Hex2(HexValue(n[0..2])) == n[0..2] && Hex2(HexValue(n[2..4])) == n[2..4] && Hex2(HexValue(n[4..6])) == n[4..6]
    requires HexValue(n) == (HexValue(n[0..2]) * 256 + HexValue(n[2..4])) * 256 + HexValue(n[4..6])
    requires n[0..6] == n[0..4] + n[4..6] && n[0..4] == n[0..2] + n[2..4]
    ensures ToHex(Components(HexValue(n), 6), false) == "#" + n
  {
    var r, g, b := HexValue(n[0..2]), HexValue(n[2..4]), HexValue(n[4..6]);
    ComponentsOf3(r, g, b);
    var c := Rgba(r, g, b, 255);
    assert Components(HexValue(n), 6) == c;
    assert ToHex(c, false) == "#" + (n[0..2] + n[2..4] + n[4..6]);
    assert n[0..6] == n;
  }

  lemma PrintComponents8(n: string)
    requires |n| == 8 && AllUpperHex(n)
    requires HexValue(n[0..2]) < 256 && HexValue(n[2..4]) < 256 && HexValue(n[4..6]) < 256 && HexValue(n[6..8]) < 256
    requires Hex2(HexValue(n[0..2])) == n[0..2] && Hex2(HexValue(n[2..4])) == n[2..4]
    requires Hex2(HexValue(n[4..6])) == n[4..6] && Hex2(HexValue(n[6..8])) == n[6..8]
    requires HexValue(n) == ((HexValue(n[0..2]) * 256 + HexValue(n[2..4])) * 256 + HexValue(n[4..6])) * 256 + HexValue(n[6..8])
    requires n[0..8] == n[0..6] + n[6..8] && n[0..6] == n[0..4] + n[4..6] && n[0..4] == n[0..2] + n[2..4]
    ensures ToHex(Components(HexValue(n), 8), true) == "#" + n
  {
    var r, g, b, a := HexValue(n[0..2]), HexValue(n[2..4]), HexValue(n[4..6]), HexValue(n[6..8]);
    ComponentsOf4(r, g, b, a);
    var c := Rgba(r, g, b, a);
    assert Components(HexValue(n), 8) == c;
    assert ToHex(c, true) == "#" + (n[0..2] + n[2..4] + n[4..6] + n[6..8]);
    assert n[0..8] == n;
  }

  /** Parsing a well-formed code and printing the colour gives back its
      canonical form: "#" and the six or eight digits, uppercased. */
  lemma PrintParsed(hex: string)
    requires |Normalize(hex)| == 6 || |Normalize(hex)| == 8
    requires AllUpperHex(Normalize(hex))
    ensures ToHex(ParseHex(hex).value, |Normalize(hex)| == 8) == "#" + Normalize(hex)
  {
    var n := Normalize(hex);
    ScanAllHex(n);
    PrintComponents(n);
  }
}
