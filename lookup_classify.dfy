/**
  The input classifier of the lookup endpoint (app/api/lookup/route.ts):
  an ordered, first-match-wins cascade of string-shape tests that maps a
  pasted string to a kind (address, transaction, unknown) and a network,
  and its forced-network variant. Each regular expression of the source
  is an explicit predicate over ASCII character classes.
 */
module LookupClassify {
  import opened JsText

  datatype Network = BTC | ETH | LTC | TON | TRON | UNKNOWN
  datatype Kind = Address | Tx | Unknown
  datatype Classification = Classification(kind: Kind, network: Network)

  const UnknownInput := Classification(Unknown, UNKNOWN)

  /** The wire name of a network, as the request body and the responses spell it. */
  function NetworkName(n: Network): string {
    match n
    case BTC => "BTC"
    case ETH => "ETH"
    case LTC => "LTC"
    case TON => "TON"
    case TRON => "TRON"
    case UNKNOWN => "UNKNOWN"
  }

  /** `[A-Za-z0-9_-]`: the base64url alphabet of RFC 4648 section 5. */
  predicate IsBase64UrlChar(c: char) { IsAlnum(c) || c == '_' || c == '-' }

  /** `[ac-hj-np-z02-9]` under the `i` flag: the bech32 data characters. */
  predicate IsBech32Char(c: char) {
    var l := LowerChar(c);
    l == 'a' || ('c' <= l <= 'h') || ('j' <= l <= 'n') || ('p' <= l <= 'z') || l == '0' || ('2' <= l <= '9')
  }

  /** The data-character set of BIP 173, in its own order. */
  const Bech32Charset := "qpzry9x8gf2tvdw0s3jn54khce6mua7l"

  /** The character class of the bech32 patterns is exactly the BIP 173 set,
      in either case. */
  lemma Bech32ClassIsBip173(c: char)
    ensures IsBech32Char(c) <==> LowerChar(c) in Bech32Charset
  {
    var l := LowerChar(c);
    if IsBech32Char(c) {
      if l == 'a' { assert Bech32Charset[29] == l; }
      else if 'c' <= l <= 'h' {
        if l == 'c' { assert Bech32Charset[24] == l; }
        else if l == 'd' { assert Bech32Charset[13] == l; }
        else if l == 'e' { assert Bech32Charset[25] == l; }
        else if l == 'f' { assert Bech32Charset[9] == l; }
        else if l == 'g' { assert Bech32Charset[8] == l; }
        else { assert Bech32Charset[23] == l; }
      } else if 'j' <= l <= 'n' {
        if l == 'j' { assert Bech32Charset[18] == l; }
        else if l == 'k' { assert Bech32Charset[22] == l; }
        else if l == 'l' { assert Bech32Charset[31] == l; }
        else if l == 'm' { assert Bech32Charset[27] == l; }
        else { assert Bech32Charset[19] == l; }
      } else if 'p' <= l <= 'z' {
        if l == 'p' { assert Bech32Charset[1] == l; }
        else if l == 'q' { assert Bech32Charset[0] == l; }
        else if l == 'r' { assert Bech32Charset[3] == l; }
        else if l == 's' { assert Bech32Charset[16] == l; }
        else if l == 't' { assert Bech32Charset[11] == l; }
        else if l == 'u' { assert Bech32Charset[28] == l; }
        else if l == 'v' { assert Bech32Charset[12] == l; }
        else if l == 'w' { assert Bech32Charset[14] == l; }
        else if l == 'x' { assert Bech32Charset[6] == l; }
        else if l == 'y' { assert Bech32Charset[4] == l; }
        else { assert Bech32Charset[2] == l; }
      } else if l == '0' { assert Bech32Charset[15] == l; }
      else {
        if l == '2' { assert Bech32Charset[10] == l; }
        else if l == '3' { assert Bech32Charset[17] == l; }
        else if l == '4' { assert Bech32Charset[21] == l; }
        else if l == '5' { assert Bech32Charset[20] == l; }
        else if l == '6' { assert Bech32Charset[26] == l; }
        else if l == '7' { assert Bech32Charset[30] == l; }
        else if l == '8' { assert Bech32Charset[7] == l; }
        else { assert Bech32Charset[5] == l; }
      }
    } else {
      forall i | 0 <= i < |Bech32Charset| ensures Bech32Charset[i] != l {
      }
    }
  }

  predicate AllBase64Url(s: string) { forall i :: 0 <= i < |s| ==> IsBase64UrlChar(s[i]) }

  predicate AllBech32(s: string) { forall i :: 0 <= i < |s| ==> IsBech32Char(s[i]) }

  /** `^0x[a-fA-F0-9]{64}$` */
  predicate IsEthTxShape(v: string) { |v| == 66 && v[0] == '0' && v[1] == 'x' && AllHex(v[2..]) }

  /** `^0x[a-fA-F0-9]{40}$` */
  predicate IsEthAddressShape(v: string) { |v| == 42 && v[0] == '0' && v[1] == 'x' && AllHex(v[2..]) }

  /** `^[a-fA-F0-9]{64}$` */
  predicate IsHex64(v: string) { |v| == 64 && AllHex(v) }

  /** `^(1|3)[a-zA-Z0-9]{25,62}$` */
  predicate IsBtcLegacy(v: string) { 26 <= |v| <= 63 && (v[0] == '1' || v[0] == '3') && AllAlnum(v[1..]) }

  /** `^bc1[ac-hj-np-z02-9]{11,90}$` with the `i` flag. */
  predicate IsBtcBech32(v: string) { 14 <= |v| <= 93 && Lower(v[..3]) == "bc1" && AllBech32(v[3..]) }

  /** `^(L|M)[a-zA-Z0-9]{25,62}$` */
  predicate IsLtcLegacy(v: string) { 26 <= |v| <= 63 && (v[0] == 'L' || v[0] == 'M') && AllAlnum(v[1..]) }

  /** `^ltc1[ac-hj-np-z02-9]{11,90}$` with the `i` flag. */
  predicate IsLtcBech32(v: string) { 15 <= |v| <= 94 && Lower(v[..4]) == "ltc1" && AllBech32(v[4..]) }

  /** `^T[a-zA-Z0-9]{33}$` */
  predicate IsTronAddress(v: string) { |v| == 34 && v[0] == 'T' && AllAlnum(v[1..]) }

  /** `^(EQ|UQ|kQ)[A-Za-z0-9_-]{46}$` */
  predicate IsTonFriendly(v: string) {
    |v| == 48 && (v[0] == 'E' || v[0] == 'U' || v[0] == 'k') && v[1] == 'Q' && AllBase64Url(v[2..])
  }

  /** `^-?\d+:[a-fA-F0-9]{64}$`: an optional minus, at least one digit, a
      colon, then 64 hexadecimal digits. The colon is therefore the 65th
      character from the end. */
  predicate IsTonRaw(v: string) {
    var body := if |v| > 0 && v[0] == '-' then v[1..] else v;
    |body| >= 66 && body[|body| - 65] == ':' && AllDigits(body[..|body| - 65]) && AllHex(body[|body| - 64..])
  }

  /** The first character decides which bech32 prefix can match. */
  lemma Bech32PrefixFacts(v: string)
    ensures IsBtcBech32(v) ==> v[0] == 'b' || v[0] == 'B'
    ensures IsLtcBech32(v) ==> v[0] == 'l' || v[0] == 'L'
  {
    if IsBtcBech32(v) {
      assert Lower(v[..3])[0] == LowerChar(v[0]);
    }
    if IsLtcBech32(v) {
      assert Lower(v[..4])[0] == LowerChar(v[0]);
    }
  }

  /** The server's `detectInput`. */
  function DetectInput(raw: string): (r: Classification)
    ensures Trim(raw) == "" ==> r == UnknownInput
    ensures r.kind == Tx ==> r.network == ETH || r.network == UNKNOWN
    ensures r.network == UNKNOWN ==> r.kind != Address
    ensures r.network != UNKNOWN && r.network != ETH ==> r.kind == Address
  {
    var v := Trim(raw);
    if v == "" then UnknownInput
    else if IsEthTxShape(v) then Classification(Tx, ETH)
    else if IsEthAddressShape(v) then Classification(Address, ETH)
    else if IsHex64(v) then Classification(Tx, UNKNOWN)
    else if IsBtcLegacy(v) || IsBtcBech32(v) then Classification(Address, BTC)
    else if IsLtcLegacy(v) || IsLtcBech32(v) then Classification(Address, LTC)
    else if IsTronAddress(v) then Classification(Address, TRON)
    else if IsTonFriendly(v) || IsTonRaw(v) then Classification(Address, TON)
    else UnknownInput
  }

  /** The facts about a raw TON address that separate it from every other shape. */
  lemma TonRawFacts(v: string)
    requires IsTonRaw(v)
    ensures v[0] == '-' || IsDigit(v[0])
    ensures v[1] == ':' || IsDigit(v[1]) || v[0] == '-'
    ensures !AllHex(v) && !AllAlnum(v[1..])
  {
    var neg := |v| > 0 && v[0] == '-';
    var body := if neg then v[1..] else v;
    var colon := (if neg then 1 else 0) + |body| - 65;
    assert v[colon] == ':' && 1 <= colon;
    assert !IsAlnum(v[1..][colon - 1]);
    if !neg {
      assert body[..|body| - 65][0] == v[0];
      if colon > 1 {
        assert body[..|body| - 65][1] == v[1];
      }
    }
  }

  /** `0x` + 64 hexadecimal digits, and only that, is an ETH transaction;
      `0x` + 40 of them, and only that, an ETH address. */
  lemma DetectEth(raw: string)
    ensures var v := Trim(raw);
      && (DetectInput(raw) == Classification(Tx, ETH) <==> IsEthTxShape(v))
      && (DetectInput(raw) == Classification(Address, ETH) <==> IsEthAddressShape(v))
      && (DetectInput(raw).network == ETH <==> IsEthTxShape(v) || IsEthAddressShape(v))
  {
  }

  /** A bare 64-hex string is a transaction of undetermined network, and it
      is checked before any address pattern: such a string is never an
      address, even when it also has the shape of a bech32 address. */
  lemma DetectHex64(raw: string)
    ensures var v := Trim(raw);
      && (DetectInput(raw) == Classification(Tx, UNKNOWN) <==> IsHex64(v))
      && (IsHex64(v) ==> DetectInput(raw).kind != Address)
  {
  }

  /** BTC is reported exactly for the BTC shapes that are not also 64 hex digits. */
  lemma DetectBtc(raw: string)
    ensures var v := Trim(raw);
      DetectInput(raw).network == BTC <==> (IsBtcLegacy(v) || IsBtcBech32(v)) && !IsHex64(v)
  {
    Bech32PrefixFacts(Trim(raw));
  }

  /** LTC is reported exactly for the LTC shapes. */
  lemma DetectLtc(raw: string)
    ensures var v := Trim(raw);
      DetectInput(raw).network == LTC <==> IsLtcLegacy(v) || IsLtcBech32(v)
  {
    var v := Trim(raw);
    Bech32PrefixFacts(v);
    if IsLtcBech32(v) || IsLtcLegacy(v) {
      assert !IsHexChar(v[0]);
    }
  }

  /** TRON is reported exactly for `T` followed by 33 alphanumerics. */
  lemma DetectTron(raw: string)
    ensures DetectInput(raw).network == TRON <==> IsTronAddress(Trim(raw))
  {
    var v := Trim(raw);
    Bech32PrefixFacts(v);
    if IsTronAddress(v) {
      assert !IsHexChar(v[0]);
    }
  }

  /** TON is reported exactly for the friendly and the raw TON shapes. */
  lemma DetectTon(raw: string)
    ensures var v := Trim(raw);
      DetectInput(raw).network == TON <==> IsTonFriendly(v) || IsTonRaw(v)
  {
    var v := Trim(raw);
    if IsTonFriendly(v) || IsTonRaw(v) {
      TonShapeExcludesOthers(v);
    }
  }

  /** A TON address shape has none of the shapes checked before it. */
  lemma TonShapeExcludesOthers(v: string)
    requires IsTonFriendly(v) || IsTonRaw(v)
    ensures !IsEthTxShape(v) && !IsEthAddressShape(v) && !IsHex64(v)
    ensures !IsBtcLegacy(v) && !IsBtcBech32(v) && !IsLtcLegacy(v) && !IsLtcBech32(v) && !IsTronAddress(v)
  {
    Bech32PrefixFacts(v);
    if IsTonRaw(v) {
      TonRawFacts(v);
    } else {
      assert !IsHexChar(v[1]);
    }
  }

  /** Whatever matches none of the patterns is unknown. */
  lemma DetectUnknown(raw: string)
    ensures var v := Trim(raw);
      DetectInput(raw) == UnknownInput <==>
        !(IsEthTxShape(v) || IsEthAddressShape(v) || IsHex64(v) || IsBtcLegacy(v) || IsBtcBech32(v) ||
          IsLtcLegacy(v) || IsLtcBech32(v) || IsTronAddress(v) || IsTonFriendly(v) || IsTonRaw(v))
  {
    var v := Trim(raw);
    if v == "" {
      assert !IsTonRaw(v);
    }
  }

  /** The server's `forceNetwork`: `forced` is the `network` field of the
      request body, with "" standing for an absent or null field. */
  function ForceNetwork(raw: string, forced: string): (r: Classification)
    ensures forced == "" || forced == "AUTO" ==> r == DetectInput(raw)
    ensures forced == "TON" ==> r == Classification(Address, TON)
    ensures forced == "ETH" ==> r.network == ETH && (r.kind == Tx <==> IsEthTxShape(Trim(raw))) && r.kind != Unknown
    ensures forced == "BTC" ==> r.network == BTC && (r.kind == Tx <==> IsHex64(Trim(raw))) && r.kind != Unknown
    ensures forced == "LTC" ==> r.network == LTC && (r.kind == Tx <==> IsHex64(Trim(raw))) && r.kind != Unknown
    ensures forced == "TRON" ==> r.network == TRON && (r.kind == Tx <==> IsHex64(Trim(raw))) && r.kind != Unknown
  {
    var v := Trim(raw);
    TrimIdempotent(raw);
    if forced == "" || forced == "AUTO" then DetectInput(v)
    else if forced == "ETH" then
      if IsEthTxShape(v) then Classification(Tx, ETH) else Classification(Address, ETH)
    else if forced == "BTC" || forced == "LTC" then
      var n := if forced == "BTC" then BTC else LTC;
      if IsHex64(v) then Classification(Tx, n) else Classification(Address, n)
    else if forced == "TRON" then
      if IsHex64(v) then Classification(Tx, TRON) else Classification(Address, TRON)
    else if forced == "TON" then Classification(Address, TON)
    else DetectInput(v)
  }

  /** Forcing a real network always yields that network and a definite kind,
      whatever the string looks like: the input is not checked against the
      forced network's syntax. */
  lemma ForcedNetworkWins(raw: string, n: Network)
    requires n != UNKNOWN
    ensures ForceNetwork(raw, NetworkName(n)).network == n
    ensures ForceNetwork(raw, NetworkName(n)).kind != Unknown
  {
  }

  /** A forced value that names no supported network (including "UNKNOWN"
      and any other string) falls back to auto-detection. */
  lemma UnrecognisedForcedIsAuto(raw: string, forced: string)
    requires forall n: Network :: n != UNKNOWN ==> forced != NetworkName(n)
    ensures ForceNetwork(raw, forced) == DetectInput(raw)
  {
    assert forced != NetworkName(BTC) && forced != NetworkName(ETH) && forced != NetworkName(LTC);
    assert forced != NetworkName(TON) && forced != NetworkName(TRON);
    TrimIdempotent(raw);
  }
}
