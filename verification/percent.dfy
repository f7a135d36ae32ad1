/** `percentEncode` (index.js:57-59): JavaScript `encodeURIComponent`, which
    escapes the UTF-8 bytes of every character outside its unescaped set,
    followed by the escaping of `!`, `'`, `(`, `)` and `*`. The result is the
    percent-encoding of section 3.6 of RFC 5849 (OAuth 1.0), which leaves
    exactly the unreserved characters of RFC 3986 alone. */
module Percent {
  import opened Strings

  /* ------------------------------------------------------------------ UTF-8 */

  /** The UTF-8 encoding of one Unicode scalar value (section 3 of RFC 3629). */
  function Utf8(c: char): (r: seq<nat>)
    ensures 1 <= |r| <= 4
    ensures forall i :: 0 <= i < |r| ==> r[i] < 256
    ensures |r| == 1 <==> (c as int) < 0x80
    ensures |r| == 1 ==> r[0] == c as int
    ensures |r| > 1 ==> forall i :: 0 <= i < |r| ==> r[i] >= 0x80
  {
    var n := c as int;
    if n < 0x80 then [n]
    else if n < 0x800 then [0xC0 + n / 64, 0x80 + n % 64]
    else if n < 0x10000 then [0xE0 + n / 4096, 0x80 + (n / 64) % 64, 0x80 + n % 64]
    else [0xF0 + n / 262144, 0x80 + (n / 4096) % 64, 0x80 + (n / 64) % 64, 0x80 + n % 64]
  }

  /* ----------------------------------------------------------- hex escapes */

  /** An upper-case hexadecimal digit, as `toString(16).toUpperCase()`
      writes it. */
  predicate IsHexDigit(c: char) {
    '0' <= c <= '9' || 'A' <= c <= 'F'
  }

  function HexDigit(n: nat): (r: char)
    requires n < 16
    ensures IsHexDigit(r)
  {
    if n < 10 then ('0' as int + n) as char else ('A' as int + n - 10) as char
  }

  /** The value of an upper-case hexadecimal digit. */
  function HexValue(c: char): (r: nat)
    requires IsHexDigit(c)
    ensures r < 16
  {
    if '0' <= c <= '9' then c as int - '0' as int else c as int - 'A' as int + 10
  }

  lemma HexRoundTrip(n: nat, c: char)
    ensures n < 16 ==> HexValue(HexDigit(n)) == n
    ensures IsHexDigit(c) ==> HexDigit(HexValue(c)) == c
  {
  }

  /** `%XY`: one byte as two upper-case hexadecimal digits. */
  function Escape(b: nat): (r: string)
    requires b < 256
    ensures |r| == 3 && r[0] == '%' && IsHexDigit(r[1]) && IsHexDigit(r[2])
    ensures HexValue(r[1]) * 16 + HexValue(r[2]) == b
  {
    HexRoundTrip(b / 16, '0');
    HexRoundTrip(b % 16, '0');
    ['%', HexDigit(b / 16), HexDigit(b % 16)]
  }

  function EscapeBytes(bs: seq<nat>): (r: string)
    requires forall i :: 0 <= i < |bs| ==> bs[i] < 256
    ensures |r| == 3 * |bs|
    ensures forall i :: 0 <= i < |r| ==> r[i] == '%' || IsHexDigit(r[i])
  {
    if |bs| == 0 then "" else Escape(bs[0]) + EscapeBytes(bs[1..])
  }

  /* ------------------------------------------------------ character classes */

  predicate IsAlphaNumeric(c: char) {
    'A' <= c <= 'Z' || 'a' <= c <= 'z' || '0' <= c <= '9'
  }

  /** The characters `encodeURIComponent` leaves alone. */
  predicate IsUriUnescaped(c: char) {
    IsAlphaNumeric(c) || c in "-_.!~*'()"
  }

  /** The characters the second step escapes. */
  predicate IsSubDelim(c: char) {
    c in "!'()*"
  }

  /** The unreserved characters of section 2.3 of RFC 3986. */
  predicate IsUnreserved(c: char) {
    IsAlphaNumeric(c) || c in "-._~"
  }

  /* ---------------------------------------------------------- the encoders */

  function EncodeUriChar(c: char): string {
    if IsUriUnescaped(c) then [c] else EscapeBytes(Utf8(c))
  }

  /** `encodeURIComponent` on a string of scalar values. */
  function EncodeUriComponent(s: string): (r: string)
    ensures forall i :: 0 <= i < |r| ==> IsUriUnescaped(r[i]) || r[i] == '%' || IsHexDigit(r[i])
  {
    if |s| == 0 then "" else EncodeUriChar(s[0]) + EncodeUriComponent(s[1..])
  }

  /** `.replace(/[!'()*]/g, …)`: each of the five characters becomes `%`
      followed by its code in upper-case hexadecimal. */
  function EscapeSubDelims(s: string): (r: string)
    ensures forall i :: 0 <= i < |r| ==> !IsSubDelim(r[i])
    ensures (forall i :: 0 <= i < |s| ==> IsUriUnescaped(s[i]) || s[i] == '%' || IsHexDigit(s[i])) ==>
              forall i :: 0 <= i < |r| ==> IsUnreserved(r[i]) || r[i] == '%'
  {
    if |s| == 0 then ""
    else (if IsSubDelim(s[0]) then Escape(s[0] as int) else [s[0]]) + EscapeSubDelims(s[1..])
  }

  /** `percentEncode`. Its output uses only unreserved characters, `%` and
      hexadecimal digits, so it never contains `&` or `=`, the separators of
      the OAuth parameter and signature strings. */
  function PercentEncode(s: string): (r: string)
    ensures forall i :: 0 <= i < |r| ==> IsUnreserved(r[i]) || r[i] == '%'
  {
    EscapeSubDelims(EncodeUriComponent(s))
  }

  /** The percent-encoding of section 3.6 of RFC 5849, one character at a
      time: unreserved characters stay, all others become the escapes of
      their UTF-8 bytes. */
  function Rfc5849Encode(s: string): string {
    if |s| == 0 then "" else
      (if IsUnreserved(s[0]) then [s[0]] else EscapeBytes(Utf8(s[0]))) + Rfc5849Encode(s[1..])
  }

  /* ------------------------------------------------------------ properties */

  lemma {:induction false} EscapeSubDelimsAppend(a: string, b: string)
    ensures EscapeSubDelims(a + b) == EscapeSubDelims(a) + EscapeSubDelims(b)
    decreases |a|
  {
    if |a| == 0 {
      assert a + b == b;
    } else {
      var c, rest := a[0], a[1..];
      var h := if IsSubDelim(c) then Escape(c as int) else [c];
      assert a == [c] + rest && a + b == [c] + (rest + b);
      EscapeSubDelimsCons(c, rest);
      EscapeSubDelimsCons(c, rest + b);
      EscapeSubDelimsAppend(rest, b);
      Regroup(h, EscapeSubDelims(rest), EscapeSubDelims(b));
    }
  }

  lemma Regroup(h: string, x: string, y: string)
    ensures h + (x + y) == (h + x) + y
  {
  }

  lemma EscapeSubDelimsCons(c: char, s: string)
    ensures EscapeSubDelims([c] + s)
            == (if IsSubDelim(c) then Escape(c as int) else [c]) + EscapeSubDelims(s)
  {
    assert ([c] + s)[0] == c && ([c] + s)[1..] == s;
  }

  /** Escapes contain no sub-delimiter, so the second step keeps them. */
  lemma {:induction false} EscapeSubDelimsKeepsEscapes(s: string)
    requires forall i :: 0 <= i < |s| ==> s[i] == '%' || IsHexDigit(s[i])
    ensures EscapeSubDelims(s) == s
    decreases |s|
  {
    if |s| > 0 {
      EscapeSubDelimsKeepsEscapes(s[1..]);
      assert [s[0]] + s[1..] == s;
    }
  }

  /** One character goes through both steps as RFC 5849 requires. */
  lemma EncodeOneChar(c: char)
    ensures EscapeSubDelims(EncodeUriChar(c))
            == if IsUnreserved(c) then [c] else EscapeBytes(Utf8(c))
  {
    if IsUriUnescaped(c) {
      assert EncodeUriChar(c) == [c];
      assert EscapeSubDelims([c]) == (if IsSubDelim(c) then Escape(c as int) else [c]) + EscapeSubDelims([]);
      if IsSubDelim(c) {
        assert Utf8(c) == [c as int];
        assert EscapeBytes([c as int]) == Escape(c as int) + EscapeBytes([]);
      }
    } else {
      EscapeSubDelimsKeepsEscapes(EscapeBytes(Utf8(c)));
    }
  }

  /** `percentEncode` is the percent-encoding of RFC 5849. */
  lemma {:induction false} PercentEncodeIsRfc5849(s: string)
    ensures PercentEncode(s) == Rfc5849Encode(s)
    decreases |s|
  {
    if |s| > 0 {
      PercentEncodeIsRfc5849(s[1..]);
      EscapeSubDelimsAppend(EncodeUriChar(s[0]), EncodeUriComponent(s[1..]));
      EncodeOneChar(s[0]);
    }
  }

  /** A character is left as it is exactly when it is unreserved. */
  lemma PercentEncodeKeepsExactlyUnreserved(c: char)
    ensures PercentEncode([c]) == [c] <==> IsUnreserved(c)
  {
    PercentEncodeIsRfc5849([c]);
    assert Rfc5849Encode([c]) == (if IsUnreserved(c) then [c] else EscapeBytes(Utf8(c))) + Rfc5849Encode([]);
    if !IsUnreserved(c) {
      assert |EscapeBytes(Utf8(c))| >= 3;
    }
  }

  /** Decimal digits, such as the OAuth timestamp, pass unchanged. */
  lemma {:induction false} DigitsAreUnchanged(s: string)
    requires forall i :: 0 <= i < |s| ==> IsDigit(s[i])
    ensures PercentEncode(s) == s
    decreases |s|
  {
    PercentEncodeIsRfc5849(s);
    RfcKeepsUnreserved(s);
  }

  lemma {:induction false} RfcKeepsUnreserved(s: string)
    requires forall i :: 0 <= i < |s| ==> IsUnreserved(s[i])
    ensures Rfc5849Encode(s) == s
    decreases |s|
  {
    if |s| > 0 {
      RfcKeepsUnreserved(s[1..]);
      assert [s[0]] + s[1..] == s;
    }
  }

  /* -------------------------------------------------------------- decoding */

  /** Percent-decoding for text whose escapes stand for single ASCII bytes:
      `%XY` becomes the character with code `XY`, anything else stays. */
  function PercentDecode(s: string): string
    decreases |s|
  {
    if |s| == 0 then ""
    else if |s| >= 3 && s[0] == '%' && IsHexDigit(s[1]) && IsHexDigit(s[2])
    then [(HexValue(s[1]) * 16 + HexValue(s[2])) as char] + PercentDecode(s[3..])
    else [s[0]] + PercentDecode(s[1..])
  }

  predicate IsAscii(s: string) {
    forall i :: 0 <= i < |s| ==> (s[i] as int) < 0x80
  }

  /** Decoding undoes `percentEncode` on ASCII text. */
  lemma {:induction false} DecodeUndoesPercentEncode(s: string)
    requires IsAscii(s)
    ensures PercentDecode(PercentEncode(s)) == s
    decreases |s|
  {
    PercentEncodeIsRfc5849(s);
    DecodeUndoesRfc5849(s);
  }

  lemma {:induction false} DecodeUndoesRfc5849(s: string)
    requires IsAscii(s)
    ensures PercentDecode(Rfc5849Encode(s)) == s
    decreases |s|
  {
    if |s| > 0 {
      var c := s[0];
      var rest := Rfc5849Encode(s[1..]);
      DecodeUndoesRfc5849(s[1..]);
      if IsUnreserved(c) {
        assert Rfc5849Encode(s) == [c] + rest;
        assert ([c] + rest)[1..] == rest;
      } else {
        var e := Escape(c as int);
        assert EscapeBytes(Utf8(c)) == e + EscapeBytes([]);
        assert Rfc5849Encode(s) == e + rest;
        assert (e + rest)[3..] == rest;
        assert (e + rest)[0] == '%' && (e + rest)[1] == e[1] && (e + rest)[2] == e[2];
      }
      assert [c] + s[1..] == s;
    }
  }
}
