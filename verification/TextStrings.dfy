/** parse_string: the second pass never writes past what the first pass allocated. */
module TextStrings {
  import opened Text
  import opened Options

  /** The first pass over a literal: escapes met so far, and whether the next byte belongs to one. */
  datatype Pass = Pass(escapes: nat, inside: bool)

  function Scan(s: string, p: nat): Pass
    requires p <= |s|
  {
    if p == 0 then Pass(0, false)
    else
      var before := Scan(s, p - 1);
      if before.inside then Pass(before.escapes, false)
      else if s[p - 1] == '\\' then Pass(before.escapes + 1, true)
      else before
  }

  /** An escape takes two bytes, so few begin in a short stretch, wherever the second pass has got to. */
  lemma {:induction false} EscapesInStretch(s: string, p: nat, k: nat)
    requires p + k <= |s|
    ensures Scan(s, p).escapes <= Scan(s, p + k).escapes
    ensures 2 * Scan(s, p + k).escapes + (if Scan(s, p).inside then 1 else 0)
         <= 2 * Scan(s, p).escapes + k + (if Scan(s, p + k).inside then 1 else 0)
    decreases k
  {
    if k > 0 {
      EscapesInStretch(s, p, k - 1);
    }
  }

  /** What the first pass allows for the output, apart from the terminator and one spare byte. */
  function Allowed(s: string): int {
    |s| - Scan(s, |s|).escapes
  }

  /** Where the output may have got to when the second pass stands at p. */
  function AllowedAt(s: string, p: nat): int
    requires p <= |s|
  {
    p - Scan(s, p).escapes
  }

  lemma AllowedGrows(s: string, p: nat, k: nat)
    requires p + k <= |s|
    ensures AllowedAt(s, p) <= AllowedAt(s, p + k) <= Allowed(s)
    ensures k == 2 ==> AllowedAt(s, p) + 1 <= AllowedAt(s, p + k)
    ensures k == 6 ==> AllowedAt(s, p) + 3 <= AllowedAt(s, p + k)
    ensures k == 12 ==> AllowedAt(s, p) + 6 <= AllowedAt(s, p + k)
  {
    EscapesInStretch(s, p, k);
    EscapesInStretch(s, p + k, |s| - p - k);
  }

  lemma LastBackslash(s: string)
    requires s != "" && s[|s| - 1] == '\\' && !Scan(s, |s|).inside
    ensures AllowedAt(s, |s| - 1) + 1 == Allowed(s)
  {
  }

  lemma {:induction false} DecodedFitsFrom(s: string, p: nat)
    requires p <= |s| && !Scan(s, |s|).inside && Unescape(s[p..]).Some?
    ensures AllowedAt(s, p) + |Unescape(s[p..]).value| <= Allowed(s)
    decreases |s| - p
  {
    var rest := s[p..];
    if rest == "" {
    } else if rest[0] != '\\' {
      assert rest[1..] == s[p + 1..];
      AllowedGrows(s, p, 1);
      assert Scan(s, p + 1).escapes == Scan(s, p).escapes;
      DecodedFitsFrom(s, p + 1);
    } else if |rest| == 1 {
      LastBackslash(s);
      assert "\"" + "" == "\"" && |Unescape(rest).value| == 1;
    } else if rest[1] == 'u' {
      var length := Literal(rest).value.1;
      assert rest[length..] == s[p + length..];
      AllowedGrows(s, p, length);
      DecodedFitsFrom(s, p + length);
    } else {
      assert rest[2..] == s[p + 2..];
      AllowedGrows(s, p, 2);
      DecodedFitsFrom(s, p + 2);
    }
  }

  /** For every literal, even one whose escapes the two passes see differently. */
  lemma DecodedFits(s: string)
    requires !Scan(s, |s|).inside && Unescape(s).Some?
    ensures |Unescape(s).value| <= |s| - Scan(s, |s|).escapes
  {
    assert s[0..] == s;
    DecodedFitsFrom(s, 0);
  }

  // ----- UTF-8 -----

  /** A reference decoder: the code point that the bytes spell. */
  function CodeOf(bytes: string): int
    requires 1 <= |bytes| <= 4
  {
    if |bytes| == 1 then bytes[0] as int
    else if |bytes| == 2 then (bytes[0] as int - 0xC0) * 64 + (bytes[1] as int - 0x80)
    else if |bytes| == 3 then ((bytes[0] as int - 0xE0) * 64 + (bytes[1] as int - 0x80)) * 64 + (bytes[2] as int - 0x80)
    else
      (((bytes[0] as int - 0xF0) * 64 + (bytes[1] as int - 0x80)) * 64 + (bytes[2] as int - 0x80)) * 64
      + (bytes[3] as int - 0x80)
  }

  lemma Utf8Spells(code: nat)
    requires code <= 0x10FFFF
    ensures CodeOf(Utf8(code)) == code
    ensures forall i :: 1 <= i < |Utf8(code)| ==> 0x80 <= Utf8(code)[i] as int < 0xC0
  {
    assert code / 64 / 64 == code / 4096 && code / 4096 / 64 == code / 262144;
  }

  /** A hexadecimal digit in either case, section 2.3 of RFC 5234. */
  predicate IsHex(c: char, d: nat) {
    d < 16 && (c == "0123456789abcdef"[d] || c == "0123456789ABCDEF"[d])
  }

  /** Four digits spell a number. */
  predicate HexCode(digits: string, n: nat) {
    && |digits| == 4 && n < 0x10000
    && IsHex(digits[0], n / 4096) && IsHex(digits[1], n / 256 % 16)
    && IsHex(digits[2], n / 16 % 16) && IsHex(digits[3], n % 16)
  }

  /** Four characters that are not all digits. */
  ghost predicate BadHex(digits: string) {
    |digits| == 4 && exists i :: 0 <= i < 4 && forall d: nat :: !IsHex(digits[i], d)
  }

  /** What stands for a digit, and nothing else does. */
  lemma HexValueExact(c: char)
    ensures HexValue(c).Some? ==> IsHex(c, HexValue(c).value)
    ensures forall d: nat :: IsHex(c, d) ==> HexValue(c) == Some(d)
  {
    forall d: nat | IsHex(c, d) ensures HexValue(c) == Some(d) { HexDigitValue(c, d); }
  }

  lemma HexDigitValue(c: char, d: nat)
    requires IsHex(c, d)
    ensures HexValue(c) == Some(d)
  {
    if d < 10 {
      assert "0123456789abcdef"[d] == '0' + d as char == "0123456789ABCDEF"[d];
    } else {
      assert "0123456789abcdef"[d] == 'a' + (d - 10) as char;
      assert "0123456789ABCDEF"[d] == 'A' + (d - 10) as char;
    }
  }

  lemma HexDigitsOf(n: nat)
    requires n < 0x10000
    ensures n == ((n / 4096 * 16 + n / 256 % 16) * 16 + n / 16 % 16) * 16 + n % 16
  {
    var high, middle := n / 16, n / 256;
    assert middle == high / 16 && n / 4096 == middle / 16;
  }

  lemma DigitsOfHex(a: nat, b: nat, c: nat, d: nat)
    requires a < 16 && b < 16 && c < 16 && d < 16
    ensures var n := ((a * 16 + b) * 16 + c) * 16 + d;
            n < 0x10000 && n / 4096 == a && n / 256 % 16 == b && n / 16 % 16 == c && n % 16 == d
  {
    var n := ((a * 16 + b) * 16 + c) * 16 + d;
    assert n / 16 == (a * 16 + b) * 16 + c;
    assert n / 256 == a * 16 + b;
  }

  /** parse_hex4 reads four digits of either case as their number, and anything else as zero. */
  lemma Hex4Exact(digits: string)
    requires |digits| == 4
    ensures HexCode(digits, Hex4(digits)) || (BadHex(digits) && Hex4(digits) == 0)
    ensures forall n :: HexCode(digits, n) ==> Hex4(digits) == n
    ensures BadHex(digits) ==> Hex4(digits) == 0
  {
    hide HexValue, IsHex;
    HexValueExact(digits[0]);
    HexValueExact(digits[1]);
    HexValueExact(digits[2]);
    HexValueExact(digits[3]);
    var a, b, c, d := HexValue(digits[0]), HexValue(digits[1]), HexValue(digits[2]), HexValue(digits[3]);
    if a.Some? && b.Some? && c.Some? && d.Some? {
      SmallDigit(digits[0], a.value);
      SmallDigit(digits[1], b.value);
      SmallDigit(digits[2], c.value);
      SmallDigit(digits[3], d.value);
      DigitsOfHex(a.value, b.value, c.value, d.value);
    }
    forall n | HexCode(digits, n) ensures Hex4(digits) == n {
      HexDigitsOf(n);
    }
  }

  lemma SmallDigit(c: char, d: nat)
    requires IsHex(c, d)
    ensures d < 16
  {
  }

  /** A code point written as section 7 of RFC 8259 says, in one escape or in a surrogate pair. */
  predicate Utf16Escape(escape: string, code: nat) {
    if code < 0x10000 then |escape| == 6 && escape[..2] == "\\u" && HexCode(escape[2..], code)
    else
      && code <= 0x10FFFF && |escape| == 12 && escape[..2] == "\\u" && escape[6..8] == "\\u"
      && HexCode(escape[2..6], 0xD800 + (code - 0x10000) / 0x400)
      && HexCode(escape[8..], 0xDC00 + (code - 0x10000) % 0x400)
  }

  lemma EscapeLiteral(code: nat, escape: string, rest: string)
    requires Utf16Escape(escape, code) && !(0xD800 <= code < 0xE000)
    ensures Literal(escape + rest) == Some((Utf8(code), |escape|))
  {
    hide Hex4, Utf8, HexCode;
    var s := escape + rest;
    assert s[2..6] == escape[2..6];
    Hex4Exact(escape[2..6]);
    if code < 0x10000 {
      assert escape[2..] == escape[2..6];
    } else {
      assert s[6] == escape[6..8][0] && s[7] == escape[6..8][1];
      assert s[8..12] == escape[8..];
      Hex4Exact(escape[8..]);
    }
  }

  /** Every code point that is not a surrogate comes out of any of its escapes as its own UTF-8. */
  lemma EscapedCodePoint(code: nat, escape: string, rest: string)
    requires Utf16Escape(escape, code) && !(0xD800 <= code < 0xE000)
    ensures Unescape(escape + rest) == Prepend(Utf8(code), Unescape(rest))
  {
    hide Literal, Utf8, HexCode;
    var s := escape + rest;
    EscapeLiteral(code, escape, rest);
    assert s[0] == escape[..2][0] && s[1] == escape[..2][1] && s[|escape|..] == rest;
  }
}
