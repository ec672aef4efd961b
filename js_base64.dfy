/**
  The browser's `atob`: the forgiving-base64 decode of the WHATWG Infra
  standard over the alphabet of RFC 4648 section 4. The result is a
  "binary string", one character per decoded byte; a failure (where `atob`
  throws) is `None`.
 */
module JsBase64 {
  import opened JsText

  type Byte = b: int | 0 <= b < 256

  /** ASCII white space in the sense of the Infra standard. */
  predicate IsAsciiWhite(c: char) {
    c == '\t' || c == '\n' || c == '\U{C}' || c == '\r' || c == ' '
  }

  function RemoveAsciiWhite(s: string): (r: string)
    ensures |r| <= |s|
    ensures forall i :: 0 <= i < |r| ==> !IsAsciiWhite(r[i])
  {
    if s == [] then []
    else if IsAsciiWhite(s[0]) then RemoveAsciiWhite(s[1..])
    else [s[0]] + RemoveAsciiWhite(s[1..])
  }

  /** The standard base64 alphabet of RFC 4648 section 4. */
  predicate IsBase64Char(c: char) {
    IsAlnum(c) || c == '+' || c == '/'
  }

  predicate AllBase64(s: string) {
    forall i :: 0 <= i < |s| ==> IsBase64Char(s[i])
  }

  /** The 6-bit value of a base64 character. */
  function SextetOf(c: char): (v: nat)
    requires IsBase64Char(c)
    ensures v < 64
  {
    if IsUpperAscii(c) then c as int - 'A' as int
    else if IsLowerAscii(c) then c as int - 'a' as int + 26
    else if IsDigit(c) then c as int - '0' as int + 52
    else if c == '+' then 62
    else 63
  }

  /** Drops one or two trailing `=` from a string whose length is a multiple of four. */
  function StripPadding(d: string): (r: string)
    ensures r <= d && |d| - 2 <= |r|
    ensures forall j :: |r| <= j < |d| ==> d[j] == '='
  {
    if |d| % 4 != 0 then d
    else if |d| >= 2 && d[|d| - 2..] == "==" then d[..|d| - 2]
    else if |d| >= 1 && d[|d| - 1] == '=' then d[..|d| - 1]
    else d
  }

  /** Decodes groups of four characters into three bytes each; a trailing
      group of two or three characters gives one or two bytes, and its
      leftover low bits are discarded. */
  function DecodeGroups(d: string): seq<Byte>
    requires AllBase64(d) && |d| % 4 != 1
    decreases |d|
  {
    if |d| == 0 then []
    else
      var v0, v1 := SextetOf(d[0]), SextetOf(d[1]);
      var b0 := v0 * 4 + v1 / 16;
      if |d| == 2 then [b0]
      else
        var v2 := SextetOf(d[2]);
        var b1 := (v1 % 16) * 16 + v2 / 4;
        if |d| == 3 then [b0, b1]
        else
          var b2 := (v2 % 4) * 64 + SextetOf(d[3]);
          [b0, b1, b2] + DecodeGroups(d[4..])
  }

  /** Every full group gives three bytes, a final group of two or three
      characters one or two. */
  lemma {:induction false} DecodeGroupsLength(d: string)
    requires AllBase64(d) && |d| % 4 != 1
    ensures |DecodeGroups(d)| == (|d| / 4) * 3 + (if |d| % 4 == 2 then 1 else if |d| % 4 == 3 then 2 else 0)
    decreases |d|
  {
    if |d| >= 4 {
      DecodeGroupsLength(d[4..]);
    }
  }

  /** The binary string of a byte sequence: character `i` has code `bytes[i]`. */
  function BinaryString(bytes: seq<Byte>): (s: string)
    ensures |s| == |bytes|
    ensures forall i :: 0 <= i < |s| ==> s[i] as int == bytes[i]
  {
    seq(|bytes|, i requires 0 <= i < |bytes| => bytes[i] as char)
  }

  /** `atob(data)`. */
  function Atob(data: string): (r: Option<string>)
    ensures r.Some? ==> forall i :: 0 <= i < |r.value| ==> r.value[i] as int < 256
  {
    var d := StripPadding(RemoveAsciiWhite(data));
    if |d| % 4 == 1 || !AllBase64(d) then None
    else Some(BinaryString(DecodeGroups(d)))
  }

  /** Anything outside the alphabet, other than white space and final
      padding, makes `atob` fail. */
  lemma AtobRejectsForeignCharacter(data: string, i: nat)
    requires i < |data| && !IsBase64Char(data[i]) && !IsAsciiWhite(data[i]) && data[i] != '='
    ensures Atob(data) == None
  {
    ForeignCharacterSurvives(data, i);
  }

  lemma {:induction false} ForeignCharacterSurvives(data: string, i: nat)
    requires i < |data| && !IsBase64Char(data[i]) && !IsAsciiWhite(data[i]) && data[i] != '='
    ensures data[i] in StripPadding(RemoveAsciiWhite(data))
  {
    var c := data[i];
    var w := RemoveAsciiWhite(data);
    CharacterSurvivesWhiteRemoval(data, i);
    var k :| 0 <= k < |w| && w[k] == c;
    var d := StripPadding(w);
    assert k < |d|;
    assert d[k] == c;
  }

  lemma {:induction false} CharacterSurvivesWhiteRemoval(s: string, i: nat)
    requires i < |s| && !IsAsciiWhite(s[i])
    ensures s[i] in RemoveAsciiWhite(s)
  {
    if i > 0 {
      CharacterSurvivesWhiteRemoval(s[1..], i - 1);
    }
  }
}
