/**
  `encodeURIComponent` of ECMAScript: every character outside the
  unreserved set is replaced by the percent-encoded bytes of its UTF-8
  form (RFC 3629), written with upper-case hexadecimal digits.
 */
module JsUri {
  import opened JsText

  /** The characters `encodeURIComponent` leaves untouched. */
  predicate IsUnreserved(c: char) {
    IsAlnum(c) || c == '-' || c == '_' || c == '.' || c == '!' || c == '~' ||
    c == '*' || c == '\'' || c == '(' || c == ')'
  }

  /** What may appear in an encoded component. */
  predicate IsUriSafe(c: char) {
    IsUnreserved(c) || c == '%' || IsUpperAscii(c)
  }

  /** The UTF-8 bytes of one Unicode scalar value. */
  function Utf8(c: char): (bs: seq<nat>)
    ensures 1 <= |bs| <= 4
    ensures forall i :: 0 <= i < |bs| ==> bs[i] < 256
    ensures |bs| == 1 <==> (c as int) < 0x80
  {
    var n := c as int;
    if n < 0x80 then [n]
    else if n < 0x800 then [0xC0 + n / 64, 0x80 + n % 64]
    else if n < 0x1_0000 then [0xE0 + n / 4096, 0x80 + (n / 64) % 64, 0x80 + n % 64]
    else [0xF0 + n / 0x4_0000, 0x80 + (n / 4096) % 64, 0x80 + (n / 64) % 64, 0x80 + n % 64]
  }

  function UpperHexDigit(d: nat): (c: char)
    requires d < 16
    ensures IsDigit(c) || ('A' <= c <= 'F')
  {
    if d < 10 then DigitChar(d) else ('A' as int + (d - 10)) as char
  }

  function PercentBytes(bs: seq<nat>): (r: string)
    requires forall i :: 0 <= i < |bs| ==> bs[i] < 256
    ensures |r| == 3 * |bs|
    ensures forall i :: 0 <= i < |r| ==> IsUriSafe(r[i])
  {
    if bs == [] then []
    else ['%', UpperHexDigit(bs[0] / 16), UpperHexDigit(bs[0] % 16)] + PercentBytes(bs[1..])
  }

  function EncodeChar(c: char): (r: string)
    ensures |r| > 0 && forall i :: 0 <= i < |r| ==> IsUriSafe(r[i])
  {
    if IsUnreserved(c) then [c] else PercentBytes(Utf8(c))
  }

  /** `encodeURIComponent(s)`. */
  function EncodeURIComponent(s: string): (r: string)
    ensures |s| <= |r| <= 12 * |s|
    ensures forall i :: 0 <= i < |r| ==> IsUriSafe(r[i])
  {
    if s == [] then [] else EncodeChar(s[0]) + EncodeURIComponent(s[1..])
  }

  /** A component made of unreserved characters only is passed through. */
  lemma {:induction false} EncodeUnreservedIdentity(s: string)
    requires forall i :: 0 <= i < |s| ==> IsUnreserved(s[i])
    ensures EncodeURIComponent(s) == s
  {
    if s != [] {
      EncodeUnreservedIdentity(s[1..]);
    }
  }

  /** The encoding never produces a path, query or fragment delimiter, so an
      encoded value stays inside the URL segment it is appended to. */
  lemma EncodedHasNoDelimiter(s: string)
    ensures '/' !in EncodeURIComponent(s) && '?' !in EncodeURIComponent(s) && '#' !in EncodeURIComponent(s)
  {
    var r := EncodeURIComponent(s);
    forall i | 0 <= i < |r|
      ensures r[i] != '/' && r[i] != '?' && r[i] != '#'
    {
      assert IsUriSafe(r[i]);
    }
  }
}
