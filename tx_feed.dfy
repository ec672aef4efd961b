/**
  The client-side activity feed (app/components/TxFeed.tsx): the
  canonical form of a TON address, and the rows the feed shows for TON
  events and for BTC/LTC transactions with their in/out/neutral
  direction. Amounts are integers in each network's smallest unit.
 */
module TxFeed {
  import opened JsText
  import opened JsBase64
  import opened JsUri
  import opened LookupClassify

  // ---------------------------------------------------------------------
  // TON address canonicalisation
  // ---------------------------------------------------------------------

  /** `s.replace(/x/g, y)` for a single character. */
  function ReplaceAll(s: string, x: char, y: char): (r: string)
    ensures |r| == |s|
    ensures forall i :: 0 <= i < |s| ==> r[i] == (if s[i] == x then y else s[i])
  {
    seq(|s|, i requires 0 <= i < |s| => if s[i] == x then y else s[i])
  }

  /** The url-safe alphabet mapped back to the standard one. */
  function StandardAlphabet(a: string): (r: string)
    ensures |r| == |a|
  {
    ReplaceAll(ReplaceAll(a, '-', '+'), '_', '/')
  }

  /** Pads with `=` up to the next multiple of four. */
  function Padded(b: string): (r: string)
    ensures |r| % 4 == 0 && b <= r && |r| < |b| + 4
    ensures forall i :: |b| <= i < |r| ==> r[i] == '='
  {
    if |b| % 4 == 0 then b else b + seq(4 - |b| % 4, _ => '=')
  }

  /** The value a `Uint8Array` stores for a character code. */
  function BytesOf(bin: string): (r: seq<Byte>)
    ensures |r| == |bin|
  {
    seq(|bin|, i requires 0 <= i < |bin| => (bin[i] as int) % 256)
  }

  /** The bytes of a friendly address, when its base64 decodes. */
  function DecodedBytes(a: string): Option<seq<Byte>> {
    match Atob(Padded(StandardAlphabet(a)))
    case None => None
    case Some(bin) => Some(BytesOf(bin))
  }

  /** A byte read as a signed 8-bit integer (`(b << 24) >> 24`). */
  function Int8(b: Byte): (v: int)
    ensures -128 <= v < 128
    ensures v % 256 == b
  {
    if b >= 128 then b - 256 else b
  }

  /** Lower-case hexadecimal, two digits per byte, that reads back as the bytes. */
  function HexOf(bytes: seq<Byte>): (r: string)
    ensures |r| == 2 * |bytes|
    ensures forall i :: 0 <= i < |r| ==> IsHexChar(r[i]) && !IsUpperAscii(r[i])
    ensures HexValues(r) == bytes
  {
    if bytes == [] then []
    else
      var h, t := HexByte(bytes[0]), HexOf(bytes[1..]);
      assert (h + t)[2..] == t;
      h + t
  }

  /** The byte values a hexadecimal string denotes, two digits at a time:
      a reader independent of `HexOf`. */
  function HexValues(s: string): seq<int> {
    if |s| < 2 then [] else [HexDigitValue(s[0]) * 16 + HexDigitValue(s[1])] + HexValues(s[2..])
  }

  /** The raw form `workchain:hash` of a decoded friendly address: byte 1
      is the workchain, bytes 2 to 33 the account hash. */
  function RawFromBytes(bytes: seq<Byte>): (r: string)
    requires |bytes| >= 34
    ensures forall i :: 0 <= i < |r| ==> !IsUpperAscii(r[i])
  {
    IntToDecimal(Int8(bytes[1])) + ":" + HexOf(bytes[2..34])
  }

  /** What `normalizeTonAddress` returns: `""` for blank input, the
      lower-cased input when it is already raw or does not decode to at
      least 36 bytes, and the raw form of the decoded bytes otherwise. */
  function NormalizedTon(input: string): (r: string)
    ensures r == "" <==> Trim(input) == ""
    ensures forall i :: 0 <= i < |r| ==> !IsUpperAscii(r[i])
  {
    var a := Trim(input);
    if a == "" then ""
    else if ':' in a then Lower(a)
    else
      match DecodedBytes(a)
      case None => Lower(a)
      case Some(bytes) => if |bytes| < 36 then Lower(a) else Lower(RawFromBytes(bytes))
  }

  /** `normalizeTonAddress`, filling the byte buffer one character at a time. */
  method NormalizeTonAddress(input: string) returns (r: string)
    ensures r == NormalizedTon(input)
  {
    var a := Trim(input);
    if a == "" {
      return "";
    }
    if ':' in a {
      return Lower(a);
    }
    var decoded := Atob(Padded(StandardAlphabet(a)));
    if decoded.None? {
      return Lower(a);
    }
    var bin := decoded.value;
    var bytes := FillBytes(bin);
    var bs := bytes[..];
    assert DecodedBytes(a) == Some(bs);
    if bytes.Length < 36 {
      return Lower(a);
    }
    var wcSigned := Int8(bs[1]);
    var hex := HexOf(bs[2..34]);
    r := Lower(IntToDecimal(wcSigned) + ":" + hex);
    assert r == Lower(RawFromBytes(bs));
  }

  /** The `Uint8Array` of a binary string, filled one character code at a
      time; a code is stored modulo 256. */
  method FillBytes(bin: string) returns (bytes: array<Byte>)
    ensures fresh(bytes) && bytes[..] == BytesOf(bin)
  {
    bytes := new Byte[|bin|];
    for i := 0 to |bin|
      invariant forall j :: 0 <= j < i ==> bytes[j] == (bin[j] as int) % 256
    {
      bytes[i] := (bin[i] as int) % 256;
    }
  }

  /** A trimmed input with a colon is taken to be raw already. */
  lemma NormalizedRawInput(input: string)
    requires ':' in Trim(input)
    ensures NormalizedTon(input) == Lower(Trim(input))
  {
  }

  /** A decode failure or a short decode falls back to the lower-cased input. */
  lemma NormalizedFallback(input: string)
    requires Trim(input) != "" && ':' !in Trim(input)
    requires DecodedBytes(Trim(input)).None? || |DecodedBytes(Trim(input)).value| < 36
    ensures NormalizedTon(input) == Lower(Trim(input))
  {
  }

  /** A successful decode gives the workchain in decimal, a colon and the
      64 lower-case hexadecimal digits of the hash. */
  lemma NormalizedDecodedShape(input: string)
    requires Trim(input) != "" && ':' !in Trim(input)
    requires DecodedBytes(Trim(input)).Some? && |DecodedBytes(Trim(input)).value| >= 36
    ensures var bytes := DecodedBytes(Trim(input)).value;
      NormalizedTon(input) == IntToDecimal(Int8(bytes[1])) + ":" + HexOf(bytes[2..34])
    ensures var r := NormalizedTon(input);
      |r| >= 66 && r[|r| - 65] == ':' && AllHex(r[|r| - 64..])
  {
    var bytes := DecodedBytes(Trim(input)).value;
    var raw := RawFromBytes(bytes);
    LowerOfLower(raw);
    var w := IntToDecimal(Int8(bytes[1]));
    assert raw[|raw| - 65] == ':';
    assert raw[|raw| - 64..] == HexOf(bytes[2..34]);
  }

  /** Encoding invariance: only bytes 1 to 33 are read, so the tag byte and
      the checksum never change the canonical form. */
  lemma NormalizedIgnoresTagAndChecksum(x: string, y: string)
    requires Trim(x) != "" && ':' !in Trim(x) && Trim(y) != "" && ':' !in Trim(y)
    requires DecodedBytes(Trim(x)).Some? && DecodedBytes(Trim(y)).Some?
    requires |DecodedBytes(Trim(x)).value| >= 36 && |DecodedBytes(Trim(y)).value| >= 36
    requires DecodedBytes(Trim(x)).value[1..34] == DecodedBytes(Trim(y)).value[1..34]
    ensures NormalizedTon(x) == NormalizedTon(y)
  {
    var bx, yb := DecodedBytes(Trim(x)).value, DecodedBytes(Trim(y)).value;
    assert bx[1] == bx[1..34][0] && yb[1] == yb[1..34][0];
    assert bx[2..34] == bx[1..34][1..] && yb[2..34] == yb[1..34][1..];
  }

  /** The converse of `NormalizedIgnoresTagAndChecksum`: two decoded
      addresses with the same canonical form agree on the workchain and
      the hash, so the canonical form tells distinct accounts apart. */
  lemma NormalizedSeparatesAccounts(x: string, y: string)
    requires Trim(x) != "" && ':' !in Trim(x) && Trim(y) != "" && ':' !in Trim(y)
    requires DecodedBytes(Trim(x)).Some? && DecodedBytes(Trim(y)).Some?
    requires |DecodedBytes(Trim(x)).value| >= 36 && |DecodedBytes(Trim(y)).value| >= 36
    requires NormalizedTon(x) == NormalizedTon(y)
    ensures DecodedBytes(Trim(x)).value[1..34] == DecodedBytes(Trim(y)).value[1..34]
  {
    NormalizedDecodedShape(x);
    NormalizedDecodedShape(y);
    RawFormSeparates(DecodedBytes(Trim(x)).value, DecodedBytes(Trim(y)).value);
  }

  /** Equal raw forms come from equal workchain and hash bytes. */
  lemma RawFormSeparates(bx: seq<Byte>, yb: seq<Byte>)
    requires |bx| >= 34 && |yb| >= 34
    requires IntToDecimal(Int8(bx[1])) + ":" + HexOf(bx[2..34]) == IntToDecimal(Int8(yb[1])) + ":" + HexOf(yb[2..34])
    ensures bx[1..34] == yb[1..34]
  {
    var hx, hy := HexOf(bx[2..34]), HexOf(yb[2..34]);
    SplitAtColon(IntToDecimal(Int8(bx[1])), hx, IntToDecimal(Int8(yb[1])), hy);
    IntToDecimalInjective(Int8(bx[1]), Int8(yb[1]));
    assert bx[2..34] == HexValues(hx) == yb[2..34];
    assert bx[1..34] == [bx[1]] + bx[2..34];
    assert yb[1..34] == [yb[1]] + yb[2..34];
  }

  lemma SplitAtColon(d1: string, h1: string, d2: string, h2: string)
    requires |h1| == |h2| && d1 + ":" + h1 == d2 + ":" + h2
    ensures d1 == d2 && h1 == h2
  {
    var r := d1 + ":" + h1;
    assert d1 == r[..|d1|] && d2 == r[..|d2|];
    assert h1 == r[|d1| + 1..] && h2 == r[|d2| + 1..];
  }

  /** A canonical raw form is its own canonical form. */
  lemma NormalizedIsFixedPoint(input: string)
    requires Trim(input) != "" && ':' !in Trim(input)
    requires DecodedBytes(Trim(input)).Some? && |DecodedBytes(Trim(input)).value| >= 36
    ensures NormalizedTon(NormalizedTon(input)) == NormalizedTon(input)
  {
    var bytes := DecodedBytes(Trim(input)).value;
    var dec, hex := IntToDecimal(Int8(bytes[1])), HexOf(bytes[2..34]);
    NormalizedDecodedShape(input);
    RawFormIsCanonical(dec, hex);
  }

  /** A string `decimal:hex` in lower case is left as it is. */
  lemma RawFormIsCanonical(dec: string, hex: string)
    requires |dec| > 0 && (IsDigit(dec[0]) || dec[0] == '-')
    requires forall i :: 0 <= i < |dec| ==> !IsUpperAscii(dec[i])
    requires |hex| > 0 && forall i :: 0 <= i < |hex| ==> IsHexChar(hex[i]) && !IsUpperAscii(hex[i])
    ensures NormalizedTon(dec + ":" + hex) == dec + ":" + hex
  {
    var r := dec + ":" + hex;
    assert r[0] == dec[0] && r[|r| - 1] == hex[|hex| - 1] && r[|dec|] == ':';
    TrimOfTrimmed(r);
    LowerOfLower(r);
  }

  /** No ASCII white space: the string is its own white-space-free form. */
  lemma {:induction false} RemoveAsciiWhiteNoOp(s: string)
    requires forall i :: 0 <= i < |s| ==> !IsAsciiWhite(s[i])
    ensures RemoveAsciiWhite(s) == s
  {
    if s != [] {
      RemoveAsciiWhiteNoOp(s[1..]);
    }
  }

  /** The first base64 character only reaches the first decoded byte. */
  lemma FirstCharOnlyReachesFirstByte(d1: string, d2: string)
    requires AllBase64(d1) && AllBase64(d2) && |d1| == |d2| >= 4 && |d1| % 4 != 1
    requires d1[1..] == d2[1..]
    ensures DecodeGroups(d1)[1..] == DecodeGroups(d2)[1..]
  {
    LengthAfterFirst(|d1|);
    assert d1[1] == d2[1] && d1[2] == d2[2] && d1[3] == d2[3];
    assert d1[4..] == d1[1..][3..] == d2[1..][3..] == d2[4..];
    var v1, v2, v3 := SextetOf(d1[1]), SextetOf(d1[2]), SextetOf(d1[3]);
    var a1: Byte, a2: Byte := SextetOf(d1[0]) * 4 + v1 / 16, SextetOf(d2[0]) * 4 + v1 / 16;
    var b1: Byte, b2: Byte := (v1 % 16) * 16 + v2 / 4, (v2 % 4) * 64 + v3;
    var rest := DecodeGroups(d1[4..]);
    DecodeFirstGroup(d1, a1, b1, b2);
    DecodeFirstGroup(d2, a2, b1, b2);
    DropFirstOfThree(a1, b1, b2, rest);
    DropFirstOfThree(a2, b1, b2, rest);
  }

  /** Decoding a string of at least four characters takes one group of
      three bytes off the front. */
  lemma DecodeFirstGroup(d: string, b0: Byte, b1: Byte, b2: Byte)
    requires AllBase64(d) && |d| >= 4 && |d| % 4 != 1 && |d[4..]| % 4 != 1
    requires b0 == SextetOf(d[0]) * 4 + SextetOf(d[1]) / 16
    requires b1 == (SextetOf(d[1]) % 16) * 16 + SextetOf(d[2]) / 4
    requires b2 == (SextetOf(d[2]) % 4) * 64 + SextetOf(d[3])
    ensures DecodeGroups(d) == [b0, b1, b2] + DecodeGroups(d[4..])
  {
  }

  lemma DropFirstOfThree<T>(a: T, b: T, c: T, s: seq<T>)
    ensures ([a, b, c] + s)[1..] == [b, c] + s
  {
  }

  lemma LengthAfterFirst(n: nat)
    requires n >= 4 && n % 4 != 1
    ensures (n - 4) % 4 != 1
  {
    var q := n / 4;
    assert n == 4 * q + n % 4;
    assert n - 4 == 4 * (q - 1) + n % 4;
  }

  /** A well-formed base64 string with no padding decodes group by group. */
  lemma AtobOfUnpadded(d: string)
    requires AllBase64(d) && |d| % 4 == 0
    ensures Atob(d) == Some(BinaryString(DecodeGroups(d)))
  {
    Base64HasNoWhite(d);
    RemoveAsciiWhiteNoOp(d);
    StripPaddingOfUnpadded(d);
  }

  lemma Base64HasNoWhite(d: string)
    requires AllBase64(d)
    ensures forall i :: 0 <= i < |d| ==> !IsAsciiWhite(d[i])
  {
    forall i | 0 <= i < |d| ensures !IsAsciiWhite(d[i]) { assert IsBase64Char(d[i]); }
  }

  lemma StripPaddingOfUnpadded(d: string)
    requires AllBase64(d)
    ensures StripPadding(d) == d
  {
    if |d| > 0 {
      assert IsBase64Char(d[|d| - 1]);
    }
  }

  /** Mapping the url-safe alphabet gives a standard base64 string. */
  lemma StandardAlphabetIsBase64(a: string)
    requires AllBase64Url(a)
    ensures AllBase64(StandardAlphabet(a))
  {
    var d := StandardAlphabet(a);
    forall i | 0 <= i < |d| ensures IsBase64Char(d[i]) { assert IsBase64UrlChar(a[i]); }
  }

  /** A friendly address has no white space and no colon. */
  lemma FriendlyIsTrimmedAndNotRaw(a: string)
    requires |a| > 0 && AllBase64Url(a)
    ensures Trim(a) == a && ':' !in a
  {
    assert IsBase64UrlChar(a[0]) && IsBase64UrlChar(a[|a| - 1]);
    TrimOfTrimmed(a);
    forall i | 0 <= i < |a| ensures a[i] != ':' { assert IsBase64UrlChar(a[i]); }
  }

  /** A 48-character friendly TON address decodes to its 36 bytes. */
  lemma FriendlyDecodes(a: string)
    requires |a| == 48 && AllBase64Url(a)
    ensures Trim(a) == a && ':' !in a
    ensures var d := StandardAlphabet(a);
      AllBase64(d) && DecodedBytes(a) == Some(DecodeGroups(d)) && |DecodeGroups(d)| == 36
  {
    FriendlyIsTrimmedAndNotRaw(a);
    var d := StandardAlphabet(a);
    StandardAlphabetIsBase64(a);
    assert Padded(d) == d;
    AtobOfUnpadded(d);
    var bytes := DecodeGroups(d);
    DecodeGroupsLength(d);
    BytesOfBinaryString(bytes);
  }

  /** The byte buffer gives back the bytes of a binary string. */
  lemma BytesOfBinaryString(bytes: seq<Byte>)
    ensures BytesOf(BinaryString(bytes)) == bytes
  {
    var bin := BinaryString(bytes);
    assert forall i :: 0 <= i < |bytes| ==> BytesOf(bin)[i] == bytes[i];
  }

  /** Decoding splits at a group boundary. */
  lemma {:induction false} DecodeGroupsAppend(a: string, b: string)
    requires AllBase64(a) && AllBase64(b) && |a| % 4 == 0 && |b| % 4 != 1
    ensures AllBase64(a + b) && |a + b| % 4 != 1
    ensures DecodeGroups(a + b) == DecodeGroups(a) + DecodeGroups(b)
    decreases |a|
  {
    AllBase64Append(a, b);
    AddMultipleOfFour(|a|, |b|);
    if a == [] {
      assert a + b == b;
    } else {
      var ab := a + b;
      assert ab[..4] == a[..4] && ab[4..] == a[4..] + b;
      AddMultipleOfFour(4, |a| - 4);
      DecodeGroupsAppend(a[4..], b);
      DecodeGroupsFirst(a);
      DecodeGroupsFirst(ab);
    }
  }

  lemma AllBase64Append(a: string, b: string)
    requires AllBase64(a) && AllBase64(b)
    ensures AllBase64(a + b)
  {
    var ab := a + b;
    forall i | 0 <= i < |ab| ensures IsBase64Char(ab[i]) {
      if i < |a| { assert ab[i] == a[i]; } else { assert ab[i] == b[i - |a|]; }
    }
  }

  /** The first group of four characters decodes on its own. */
  lemma DecodeGroupsFirst(d: string)
    requires AllBase64(d) && |d| >= 4 && |d| % 4 != 1
    ensures AllBase64(d[..4]) && AllBase64(d[4..]) && |d[4..]| % 4 != 1
    ensures DecodeGroups(d) == DecodeGroups(d[..4]) + DecodeGroups(d[4..])
  {
    LengthAfterFirst(|d|);
    var h := d[..4];
    assert h[0] == d[0] && h[1] == d[1] && h[2] == d[2] && h[3] == d[3];
    assert AllBase64(h);
    var v1, v2 := SextetOf(d[1]), SextetOf(d[2]);
    var b0: Byte := SextetOf(d[0]) * 4 + v1 / 16;
    var b1: Byte := (v1 % 16) * 16 + v2 / 4;
    var b2: Byte := (v2 % 4) * 64 + SextetOf(d[3]);
    DecodeFirstGroup(d, b0, b1, b2);
    DecodeFirstGroup(h, b0, b1, b2);
    assert h[4..] == [];
  }

  lemma AddMultipleOfFour(m: nat, n: nat)
    requires m % 4 == 0
    ensures (m + n) % 4 == n % 4
  {
    assert m == 4 * (m / 4);
    assert m + n == 4 * (m / 4 + n / 4) + n % 4;
  }

  /** The top two bits of a base64 character's value: the part of the
      twelfth group's second character that falls in byte 33. */
  predicate SameHighBits(c1: char, c2: char) {
    IsBase64Char(c1) && IsBase64Char(c2) && SextetOf(c1) / 16 == SextetOf(c2) / 16
  }

  /** In 48 base64 characters, bytes 1 to 33 (workchain and hash) are
      carried by characters 1 to 44 and the top two bits of character 45;
      character 0 and the rest of 45 to 47 carry only the tag byte and the
      two checksum bytes. */
  lemma HashBytesFromCharacters(d1: string, d2: string)
    requires AllBase64(d1) && AllBase64(d2) && |d1| == 48 && |d2| == 48
    requires d1[1..45] == d2[1..45] && SameHighBits(d1[45], d2[45])
    ensures |DecodeGroups(d1)| == 36 && |DecodeGroups(d2)| == 36
    ensures DecodeGroups(d1)[1..34] == DecodeGroups(d2)[1..34]
  {
    SplitLastGroup(d1);
    SplitLastGroup(d2);
    var h1, h2 := d1[..44], d2[..44];
    assert h1[1..] == h2[1..] by {
      assert h1[1..] == d1[1..45][..43];
      assert h2[1..] == d2[1..45][..43];
    }
    assert d1[44] == d2[44] by {
      assert d1[44] == d1[1..45][43];
      assert d2[44] == d2[1..45][43];
    }
    FirstCharOnlyReachesFirstByte(h1, h2);
    var g1, g2 := DecodeGroups(d1[44..]), DecodeGroups(d2[44..]);
    assert g1[0] == g2[0];
    AppendSlice(DecodeGroups(h1), g1);
    AppendSlice(DecodeGroups(h2), g2);
  }

  /** 48 characters decode as 33 bytes from the first 44 and one last group
      of three, whose first byte comes from characters 44 and 45. */
  lemma SplitLastGroup(d: string)
    requires AllBase64(d) && |d| == 48
    ensures AllBase64(d[..44]) && AllBase64(d[44..])
    ensures DecodeGroups(d) == DecodeGroups(d[..44]) + DecodeGroups(d[44..])
    ensures |DecodeGroups(d[..44])| == 33 && |DecodeGroups(d[44..])| == 3
    ensures DecodeGroups(d[44..])[0] == SextetOf(d[44]) * 4 + SextetOf(d[45]) / 16
  {
    var h, t := d[..44], d[44..];
    assert d == h + t;
    DecodeGroupsAppend(h, t);
    DecodeGroupsLength(h);
    DecodeGroupsLength(t);
    assert t[0] == d[44] && t[1] == d[45];
  }

  lemma AppendSlice<T>(a: seq<T>, g: seq<T>)
    requires |a| == 33 && |g| == 3
    ensures (a + g)[1..34] == a[1..] + [g[0]]
  {
  }

  /** The bounceable (`EQ…`) and non-bounceable (`UQ…`) spellings of one
      account differ in the tag (character 0) and in the checksum, which
      covers the tag (the low bits of character 45 and characters 46 and
      47); they agree on the rest, and have the same canonical form. */
  lemma FriendlyTagIrrelevant(x: string, y: string)
    requires |x| == 48 && |y| == 48 && AllBase64Url(x) && AllBase64Url(y)
    requires x[1..45] == y[1..45] && SameHighBits(StandardAlphabet(x)[45], StandardAlphabet(y)[45])
    ensures NormalizedTon(x) == NormalizedTon(y)
  {
    FriendlyDecodes(x);
    FriendlyDecodes(y);
    var dx, dy := StandardAlphabet(x), StandardAlphabet(y);
    assert dx[1..45] == dy[1..45] by {
      forall i | 1 <= i < 45 ensures dx[i] == dy[i] { assert x[i] == x[1..45][i - 1] == y[1..45][i - 1] == y[i]; }
    }
    HashBytesFromCharacters(dx, dy);
    NormalizedIgnoresTagAndChecksum(x, y);
  }

  // ---------------------------------------------------------------------
  // Feed rows
  // ---------------------------------------------------------------------

  datatype Direction = DirIn | DirOut | Neutral

  /** One row of the feed. */
  datatype FeedRow = FeedRow(
    ts: Option<int>, rowType: string, sender: string, recipient: string,
    amount: Option<int>, direction: Direction, hash: string,
    openUrl: Option<string>, unit: Option<string>)

  /** The first action of a TON event, fields already extracted (`""` and
      `0` where absent; an amount that is not a number is `0`). */
  datatype FeedAction = FeedAction(actionType: string, sender: string, recipient: string, amountNano: int)

  datatype TonFeedEvent = TonFeedEvent(hash: string, timestamp: int, actions: seq<FeedAction>)

  /** The recipient test wins over the sender test; an empty canonical
      form never matches. */
  function TonDirection(normSender: string, normRecipient: string, normAddr: string): (d: Direction)
    ensures d == DirIn <==> normRecipient != "" && normRecipient == normAddr
    ensures d == DirOut <==> !(normRecipient != "" && normRecipient == normAddr) && normSender != "" && normSender == normAddr
  {
    if normRecipient != "" && normRecipient == normAddr then DirIn
    else if normSender != "" && normSender == normAddr then DirOut
    else Neutral
  }

  /** `getTonRow`: the row of a TON event, read from its first action. */
  function TonRow(ev: TonFeedEvent, addr: string): (row: FeedRow)
    ensures row.direction == DirIn <==>
      ev.actions != [] && Trim(ev.actions[0].recipient) != "" &&
      NormalizedTon(ev.actions[0].recipient) == NormalizedTon(addr)
    ensures row.direction == DirOut <==>
      ev.actions != [] && row.direction != DirIn && Trim(ev.actions[0].sender) != "" &&
      NormalizedTon(ev.actions[0].sender) == NormalizedTon(addr)
    ensures ev.actions == [] ==> row.direction == Neutral && row.amount.None? && row.rowType == "Event"
    ensures row.openUrl.Some? <==> ev.hash != ""
    ensures row.amount.Some? ==> row.amount.value != 0
  {
    var main := if ev.actions != [] then ev.actions[0] else FeedAction("", "", "", 0);
    var direction := TonDirection(NormalizedTon(main.sender), NormalizedTon(main.recipient), NormalizedTon(addr));
    FeedRow(
      if ev.timestamp != 0 then Some(ev.timestamp) else None,
      if main.actionType != "" then main.actionType else "Event",
      main.sender, main.recipient,
      if main.amountNano != 0 then Some(main.amountNano) else None,
      direction, ev.hash,
      if ev.hash != "" then Some("https://tonviewer.com/transaction/" + EncodeURIComponent(ev.hash)) else None,
      None)
  }

  /** The feed compares canonical forms, so the address the user typed may
      be given in either friendly spelling: the rows do not change. */
  lemma TonRowTagIrrelevant(ev: TonFeedEvent, x: string, y: string)
    requires |x| == 48 && |y| == 48 && AllBase64Url(x) && AllBase64Url(y)
    requires x[1..45] == y[1..45] && SameHighBits(StandardAlphabet(x)[45], StandardAlphabet(y)[45])
    ensures TonRow(ev, x) == TonRow(ev, y)
  {
    FriendlyTagIrrelevant(x, y);
  }

  /** An event whose first action is sent by the viewed address to itself
      is shown as incoming. */
  lemma TonSelfTransferShownIncoming(ev: TonFeedEvent, addr: string)
    requires ev.actions != [] && ev.actions[0].sender == ev.actions[0].recipient
    requires Trim(addr) != "" && NormalizedTon(ev.actions[0].recipient) == NormalizedTon(addr)
    ensures TonRow(ev, addr).direction == DirIn
  {
  }

  /** One input or output of a BTC/LTC transaction. */
  datatype TxIo = TxIo(addresses: seq<string>, value: int)

  datatype BtcFeedTx = BtcFeedTx(hash: string, confirmedAt: Option<int>, inputs: seq<TxIo>, outputs: seq<TxIo>)

  /** The value of the entries whose address list contains `addr`. */
  function Matching(ios: seq<TxIo>, addr: string): int {
    if ios == [] then 0
    else Matching(ios[..|ios| - 1], addr) + (if addr in ios[|ios| - 1].addresses then ios[|ios| - 1].value else 0)
  }

  lemma MatchingAppend(ios: seq<TxIo>, io: TxIo, addr: string)
    ensures Matching(ios + [io], addr) == Matching(ios, addr) + (if addr in io.addresses then io.value else 0)
  {
    assert (ios + [io])[..|ios|] == ios;
  }

  /** Entries that do not mention the address contribute nothing. */
  lemma {:induction false} MatchingNone(ios: seq<TxIo>, addr: string)
    requires forall i :: 0 <= i < |ios| ==> addr !in ios[i].addresses
    ensures Matching(ios, addr) == 0
  {
    if ios != [] {
      MatchingNone(ios[..|ios| - 1], addr);
    }
  }

  /** With non-negative values the sum is non-negative. */
  lemma {:induction false} MatchingNonNegative(ios: seq<TxIo>, addr: string)
    requires forall i :: 0 <= i < |ios| ==> ios[i].value >= 0
    ensures Matching(ios, addr) >= 0
  {
    if ios != [] {
      MatchingNonNegative(ios[..|ios| - 1], addr);
    }
  }

  function Abs(n: int): (r: nat)
    ensures r == n || r == -n
  {
    if n < 0 then -n else n
  }

  function FirstAddress(ios: seq<TxIo>): (r: string)
    ensures ios != [] && ios[0].addresses != [] ==> r == ios[0].addresses[0]
  {
    if ios != [] && ios[0].addresses != [] then ios[0].addresses[0] else ""
  }

  /** The row of a BTC/LTC transaction: received is the value of the
      outputs paying the address, spent that of the inputs drawing on it. */
  function BtcRow(tx: BtcFeedTx, addr: string, network: string): (row: FeedRow)
    ensures var diff := Matching(tx.outputs, addr) - Matching(tx.inputs, addr);
      && (row.direction == DirIn <==> diff > 0)
      && (row.direction == DirOut <==> diff < 0)
      && row.amount == Some(Abs(diff))
    ensures row.unit == Some(network) && row.rowType == "Transfer"
  {
    var net := Matching(tx.outputs, addr) - Matching(tx.inputs, addr);
    FeedRow(tx.confirmedAt, "Transfer", FirstAddress(tx.inputs), FirstAddress(tx.outputs),
            Some(Abs(net)),
            if net > 0 then DirIn else if net < 0 then DirOut else Neutral,
            tx.hash, Some(BtcOpenUrl(tx.hash, network)), Some(network))
  }

  /** The explorer link of a BTC or LTC transaction. */
  function BtcOpenUrl(hash: string, network: string): string {
    if network == "BTC" then "https://www.blockchain.com/btc/tx/" + EncodeURIComponent(hash)
    else "https://blockchair.com/litecoin/transaction/" + EncodeURIComponent(hash)
  }

  /** `getBtcRow`, accumulating the received and spent values in two loops. */
  method GetBtcRow(tx: BtcFeedTx, addr: string, network: string) returns (row: FeedRow)
    ensures row == BtcRow(tx, addr, network)
  {
    var inSat := SumMatching(tx.outputs, addr);
    var outSat := SumMatching(tx.inputs, addr);
    var net := inSat - outSat;
    var direction := if net > 0 then DirIn else if net < 0 then DirOut else Neutral;
    var openUrl := BtcOpenUrl(tx.hash, network);
    row := FeedRow(tx.confirmedAt, "Transfer", FirstAddress(tx.inputs), FirstAddress(tx.outputs),
                   Some(Abs(net)), direction, tx.hash, Some(openUrl), Some(network));
  }

  /** One of the two loops of `getBtcRow`: the sum of the values of the
      entries whose address list contains `addr`. */
  method SumMatching(ios: seq<TxIo>, addr: string) returns (total: int)
    ensures total == Matching(ios, addr)
  {
    total := 0;
    var k := 0;
    while k < |ios|
      invariant 0 <= k <= |ios|
      invariant total == Matching(ios[..k], addr)
    {
      var io := ios[k];
      if addr in io.addresses {
        total := total + io.value;
      }
      MatchingAppend(ios[..k], io, addr);
      assert ios[..k + 1] == ios[..k] + [io];
      k := k + 1;
    }
    assert ios[..k] == ios;
  }

  /** A transaction that pays the address without drawing on it is never
      shown as outgoing. */
  lemma BtcReceiveOnlyNeverOut(tx: BtcFeedTx, addr: string, network: string)
    requires forall i :: 0 <= i < |tx.outputs| ==> tx.outputs[i].value >= 0
    requires forall i :: 0 <= i < |tx.inputs| ==> addr !in tx.inputs[i].addresses
    ensures BtcRow(tx, addr, network).direction != DirOut
    ensures BtcRow(tx, addr, network).amount == Some(Matching(tx.outputs, addr))
  {
    MatchingNone(tx.inputs, addr);
    MatchingNonNegative(tx.outputs, addr);
  }

  /** A transaction that draws on the address without paying it is never
      shown as incoming. */
  lemma BtcSpendOnlyNeverIn(tx: BtcFeedTx, addr: string, network: string)
    requires forall i :: 0 <= i < |tx.inputs| ==> tx.inputs[i].value >= 0
    requires forall i :: 0 <= i < |tx.outputs| ==> addr !in tx.outputs[i].addresses
    ensures BtcRow(tx, addr, network).direction != DirIn
    ensures BtcRow(tx, addr, network).amount == Some(Matching(tx.inputs, addr))
  {
    MatchingNone(tx.outputs, addr);
    MatchingNonNegative(tx.inputs, addr);
  }

  /** One feed entry, seen through whichever fields the network reads. */
  datatype FeedItem = FeedItem(ton: TonFeedEvent, btc: BtcFeedTx)

  /** The rows of the feed: TON events for TON, transactions for BTC and
      LTC, nothing for any other network. */
  function FeedRows(network: string, address: string, feed: seq<FeedItem>): (rows: seq<FeedRow>)
    ensures network == "TON" || network == "BTC" || network == "LTC" ==> |rows| == |feed|
    ensures !(network == "TON" || network == "BTC" || network == "LTC") ==> rows == []
    ensures network == "TON" ==> forall i :: 0 <= i < |rows| ==> rows[i] == TonRow(feed[i].ton, address)
    ensures network == "BTC" || network == "LTC" ==>
      forall i :: 0 <= i < |rows| ==> rows[i] == BtcRow(feed[i].btc, address, network)
  {
    if network == "TON" then seq(|feed|, i requires 0 <= i < |feed| => TonRow(feed[i].ton, address))
    else if network == "BTC" || network == "LTC" then seq(|feed|, i requires 0 <= i < |feed| => BtcRow(feed[i].btc, address, network))
    else []
  }
}
