/**
  The pure helpers of the explorer page (components/sections/explorer-section.tsx):
  the looser client-side input classifier and the badge it shows when a
  network is forced, string shortening, class-name joining, and the key and
  guards of the comment panel.
 */
module ExplorerSection {
  import opened JsText
  import opened LookupClassify
  import opened CommentsStore

  /* ------------------------------------------------- client classifier */

  /** `^(1|3|bc1)[a-zA-Z0-9]{25,62}$` (no `i` flag: the prefix is lower case). */
  predicate IsClientBtc(v: string) {
    IsBtcLegacy(v) || (28 <= |v| <= 65 && v[..3] == "bc1" && AllAlnum(v[3..]))
  }

  /** `^(L|M|ltc1)[a-zA-Z0-9]{25,62}$` */
  predicate IsClientLtc(v: string) {
    IsLtcLegacy(v) || (29 <= |v| <= 66 && v[..4] == "ltc1" && AllAlnum(v[4..]))
  }

  /** `^(EQ|UQ)[A-Za-z0-9_-]{40,80}$` */
  predicate IsClientTon(v: string) {
    42 <= |v| <= 82 && (v[0] == 'E' || v[0] == 'U') && v[1] == 'Q' && AllBase64Url(v[2..])
  }

  /** The page's own `detectInput`, used for the badge before any request. */
  function ClientDetectInput(raw: string): (r: Classification)
    ensures r.kind == Tx ==> r.network == ETH || r.network == UNKNOWN
    ensures r.network == UNKNOWN ==> r.kind != Address
    ensures Trim(raw) == "" ==> r == UnknownInput
  {
    var v := Trim(raw);
    if IsEthTxShape(v) then Classification(Tx, ETH)
    else if IsEthAddressShape(v) then Classification(Address, ETH)
    else if IsHex64(v) then Classification(Tx, UNKNOWN)
    else if IsClientBtc(v) then Classification(Address, BTC)
    else if IsClientLtc(v) then Classification(Address, LTC)
    else if IsTronAddress(v) then Classification(Address, TRON)
    else if IsClientTon(v) then Classification(Address, TON)
    else UnknownInput
  }

  /** The page reports BTC exactly for its BTC shape, unless the string is
      also 64 hex characters (`bc1` and 61 hex digits is one), which the
      earlier test claims as a transaction. */
  lemma ClientDetectBtc(raw: string)
    ensures var v := Trim(raw);
      ClientDetectInput(raw) == Classification(Address, BTC) <==> IsClientBtc(v) && !IsHex64(v)
    ensures ClientDetectInput(raw).network == BTC ==> ClientDetectInput(raw).kind == Address
  {
    var v := Trim(raw);
    if IsClientBtc(v) && !IsBtcLegacy(v) {
      assert v[0] == v[..3][0] == 'b';
    }
  }

  /** LTC exactly for the page's LTC shape: no earlier test can claim it. */
  lemma ClientDetectLtc(raw: string)
    ensures ClientDetectInput(raw) == Classification(Address, LTC) <==> IsClientLtc(Trim(raw))
  {
    var v := Trim(raw);
    if IsClientLtc(v) {
      if !IsLtcLegacy(v) { assert v[0] == v[..4][0] == 'l'; }
      assert !IsHexChar(v[0]);
    }
  }

  /** TRON exactly for the TRON shape. */
  lemma ClientDetectTron(raw: string)
    ensures ClientDetectInput(raw) == Classification(Address, TRON) <==> IsTronAddress(Trim(raw))
  {
    var v := Trim(raw);
    if IsTronAddress(v) {
      assert !IsHexChar(v[0]);
    }
  }

  /** TON exactly for the page's `EQ`/`UQ` shape of 42 to 82 characters. */
  lemma ClientDetectTon(raw: string)
    ensures ClientDetectInput(raw) == Classification(Address, TON) <==> IsClientTon(Trim(raw))
  {
    var v := Trim(raw);
    if IsClientTon(v) {
      assert !IsHexChar(v[1]);
    }
  }

  /** A bech32 character is a letter or a digit. */
  lemma Bech32CharIsAlnum(c: char)
    requires IsBech32Char(c)
    ensures IsAlnum(c)
  {
  }

  lemma AllBech32IsAlnum(s: string)
    requires AllBech32(s)
    ensures AllAlnum(s)
  {
    forall i | 0 <= i < |s| ensures IsAlnum(s[i]) { Bech32CharIsAlnum(s[i]); }
  }

  /** Page and server agree on legacy BTC and LTC addresses, and on
      lower-case bech32 ones whose length both patterns allow. */
  lemma ClientAgreesOnLegacyAndLowerBech32(raw: string)
    ensures var v := Trim(raw);
      ((IsBtcLegacy(v) && !IsHex64(v)) ||
       (IsBtcBech32(v) && v[..3] == "bc1" && 28 <= |v| <= 65 && !IsHex64(v))) ==>
        ClientDetectInput(raw) == DetectInput(raw) == Classification(Address, BTC)
    ensures var v := Trim(raw);
      (IsLtcLegacy(v) || (IsLtcBech32(v) && v[..4] == "ltc1" && 29 <= |v| <= 66)) ==>
        ClientDetectInput(raw) == DetectInput(raw) == Classification(Address, LTC)
  {
    var v := Trim(raw);
    DetectBtc(raw);
    DetectLtc(raw);
    ClientDetectBtc(raw);
    ClientDetectLtc(raw);
    if IsBtcBech32(v) && v[..3] == "bc1" { AllBech32IsAlnum(v[3..]); }
    if IsLtcBech32(v) && v[..4] == "ltc1" { AllBech32IsAlnum(v[4..]); }
  }

  /** Where they disagree on BTC: the server's bech32 test ignores case and
      allows 11 to 90 data characters, the page's wants lower-case `bc1`
      and 25 to 62, so an upper-case, short or long bech32 address is BTC to
      the server and unknown to the page; conversely the page accepts any
      letters and digits after `bc1`, where the server wants the bech32
      alphabet, which has no `b`, `i`, `o` or `1`. */
  lemma ClientAndServerDifferOnBech32(raw: string)
    ensures var v := Trim(raw);
      (IsBtcBech32(v) && !IsHex64(v) && (v[0] == 'B' || |v| < 28 || |v| > 65)) ==>
        DetectInput(raw) == Classification(Address, BTC) && ClientDetectInput(raw) == UnknownInput
    ensures var v := Trim(raw);
      (28 <= |v| <= 65 && v[..3] == "bc1" && AllAlnum(v[3..]) && !AllBech32(v[3..]) && !IsHex64(v)) ==>
        ClientDetectInput(raw) == Classification(Address, BTC) && DetectInput(raw).network != BTC
  {
    var v := Trim(raw);
    DetectBtc(raw);
    ClientDetectBtc(raw);
    Bech32PrefixFacts(v);
    if IsBtcBech32(v) && !IsHex64(v) && (v[0] == 'B' || |v| < 28 || |v| > 65) {
      assert v[0] == 'b' || v[0] == 'B';
      assert |v| >= 28 && v[..3] == "bc1" ==> v[0] == v[..3][0];
      assert !IsClientBtc(v);
      ClientDetectLtc(raw);
      ClientDetectTron(raw);
      ClientDetectTon(raw);
    }
    if 28 <= |v| <= 65 && v[..3] == "bc1" {
      assert v[0] == v[..3][0];
    }
  }

  /** Page and server agree on the first three tests: ETH transactions, ETH
      addresses and bare 64-hex transactions. */
  lemma ClientAgreesOnEthAndHex(raw: string)
    ensures var v := Trim(raw);
      IsEthTxShape(v) || IsEthAddressShape(v) || IsHex64(v) ==>
        ClientDetectInput(raw) == DetectInput(raw)
    ensures ClientDetectInput(raw).network == ETH <==> DetectInput(raw).network == ETH
  {
    DetectEth(raw);
  }

  /** The same agreement for TRON, which both sides test with one pattern. */
  lemma ClientAgreesOnTron(raw: string)
    ensures IsTronAddress(Trim(raw)) ==>
      ClientDetectInput(raw) == DetectInput(raw) == Classification(Address, TRON)
  {
    var v := Trim(raw);
    if IsTronAddress(v) {
      DetectTron(raw);
      assert !IsHexChar(v[0]);
    }
  }

  /** A raw TON address (`wc:hex`) is a TON address to the server but
      unknown to the page, which has no pattern for it. */
  lemma RawTonUnknownToClient(raw: string)
    requires IsTonRaw(Trim(raw))
    ensures DetectInput(raw) == Classification(Address, TON)
    ensures ClientDetectInput(raw) == UnknownInput
  {
    var v := Trim(raw);
    DetectTon(raw);
    TonShapeExcludesOthers(v);
    TonRawFacts(v);
    assert |v| >= 66;
  }

  /** Of the server's 48-character friendly TON forms, the page recognises
      the `EQ` and `UQ` ones and not the `kQ` (testnet) one. */
  lemma FriendlyTonOnClient(raw: string)
    requires IsTonFriendly(Trim(raw))
    ensures DetectInput(raw) == Classification(Address, TON)
    ensures ClientDetectInput(raw) == (if Trim(raw)[0] == 'k' then UnknownInput else Classification(Address, TON))
  {
    var v := Trim(raw);
    DetectTon(raw);
    TonShapeExcludesOthers(v);
  }

  /* ------------------------------------------------ forced-network badge */

  /** The network selector: automatic, or one network forced. */
  datatype Selection = Auto | Forced(network: Network)

  /** `guessed`: with a forced network the page keeps the network it was
      given and takes only the kind from its own classifier. */
  function Guessed(q: string, sel: Selection): (r: Classification)
    ensures sel.Auto? ==> r == ClientDetectInput(q)
    ensures sel.Forced? ==> r.network == sel.network && r.kind == ClientDetectInput(q).kind
  {
    match sel
    case Auto => ClientDetectInput(q)
    case Forced(n) => Classification(ClientDetectInput(q).kind, n)
  }

  /** The badge and the server can disagree on the kind under a forced
      network: an ETH transaction hash with BTC forced is shown as a BTC
      transaction, while the server classifies it as a BTC address, and a
      string the page does not recognise is shown as unknown, while the
      server never answers unknown for a forced network. */
  lemma ForcedBadgeDiffersFromServer(q: string)
    ensures IsEthTxShape(Trim(q)) ==>
      Guessed(q, Forced(BTC)) == Classification(Tx, BTC) &&
      ForceNetwork(q, "BTC") == Classification(Address, BTC)
    ensures ClientDetectInput(q) == UnknownInput ==>
      Guessed(q, Forced(BTC)).kind == Unknown && ForceNetwork(q, "BTC").kind != Unknown
  {
    var v := Trim(q);
    if IsEthTxShape(v) {
      assert !IsHexChar(v[1]);
    }
  }

  /* ----------------------------------------------------------- shorten */

  /** `s.slice(-n)`. `-0` is `0`, so a zero `n` gives the whole string. */
  function SliceFromEnd(s: string, n: nat): (r: string)
    ensures n == 0 ==> r == s
    ensures 0 < n <= |s| ==> |r| == n && s == s[..|s| - n] + r
  {
    if n == 0 then s else if n >= |s| then s else s[|s| - n..]
  }

  const Ellipsis: char := '\U{2026}'

  /** `shorten(s, head, tail)`, as the page writes it. */
  function Shorten(s: string, head: nat, tail: nat): (r: string)
    ensures s == "" || |s| <= head + tail + 3 ==> r == s
    ensures tail > 0 && |s| > head + tail + 3 ==>
      |r| == head + tail + 1 && |r| < |s| &&
      r[..head] == s[..head] && r[head] == Ellipsis && r[head + 1..] == s[|s| - tail..]
  {
    if s == "" then s
    else if |s| <= head + tail + 3 then s
    else
      var r := s[..head] + [Ellipsis] + SliceFromEnd(s, tail);
      assert r[head + 1..] == SliceFromEnd(s, tail);
      r
  }

  /** With a zero tail the end slice is the whole string, so a string long
      enough to be shortened comes back longer than it went in. */
  lemma ShortenZeroTailGrows(s: string, head: nat)
    requires |s| > head + 3
    ensures Shorten(s, head, 0) == s[..head] + [Ellipsis] + s
    ensures |Shorten(s, head, 0)| == head + 1 + |s| > |s|
  {
  }

  /** `shorten` with the end slice taken as the last `tail` characters for
      every `tail`. */
  function ShortenCorrected(s: string, head: nat, tail: nat): (r: string)
    ensures |r| <= |s|
    ensures |s| <= head + tail + 3 ==> r == s
    ensures |s| > head + tail + 3 ==>
      |r| == head + tail + 1 &&
      r[..head] == s[..head] && r[head] == Ellipsis && r[head + 1..] == s[|s| - tail..]
  {
    if |s| <= head + tail + 3 then s
    else
      var r := s[..head] + [Ellipsis] + s[|s| - tail..];
      assert r[head + 1..] == s[|s| - tail..];
      r
  }

  /** The two agree for every positive tail, which is every call the page makes. */
  lemma ShortenAgreesForPositiveTail(s: string, head: nat, tail: nat)
    requires tail > 0
    ensures Shorten(s, head, tail) == ShortenCorrected(s, head, tail)
  {
  }

  /* ---------------------------------------------------------------- cn */

  /** `classes.filter(Boolean)`: absent entries (`false`, `null`,
      `undefined`, written `None`) and empty strings are dropped. */
  function Kept(classes: seq<Option<string>>): (r: seq<string>)
    ensures |r| <= |classes|
    ensures forall i :: 0 <= i < |r| ==> r[i] != ""
  {
    if classes == [] then []
    else
      var rest := Kept(classes[..|classes| - 1]);
      match classes[|classes| - 1]
      case Some(c) => if c != "" then rest + [c] else rest
      case None => rest
  }

  /** `parts.join(sep)`. */
  function Join(parts: seq<string>, sep: string): (r: string)
  {
    if parts == [] then ""
    else if |parts| == 1 then parts[0]
    else Join(parts[..|parts| - 1], sep) + sep + parts[|parts| - 1]
  }

  /** `cn(...classes)`. */
  function Cn(classes: seq<Option<string>>): (r: string)
    ensures r == "" <==> Kept(classes) == []
  {
    JoinEmpty(Kept(classes), " ");
    Join(Kept(classes), " ")
  }

  lemma JoinEmpty(parts: seq<string>, sep: string)
    requires forall i :: 0 <= i < |parts| ==> parts[i] != ""
    ensures Join(parts, sep) == "" <==> parts == []
  {
  }

  /** `cn` appends each present class in order, one space apart, and skips
      absent and empty ones. */
  lemma CnAppend(classes: seq<Option<string>>, c: Option<string>)
    ensures c.None? || c == Some("") ==> Cn(classes + [c]) == Cn(classes)
    ensures c.Some? && c.value != "" ==>
      Cn(classes + [c]) == if Cn(classes) == "" then c.value else Cn(classes) + " " + c.value
  {
    assert (classes + [c])[..|classes + [c]| - 1] == classes;
    var rest := Kept(classes);
    if c.Some? && c.value != "" && rest != [] {
      assert (rest + [c.value])[..|rest + [c.value]| - 1] == rest;
    }
  }

  /** The joined string is exactly as long as its classes plus the spaces
      between them. */
  lemma {:induction false} JoinLength(parts: seq<string>, sep: string)
    requires parts != []
    ensures |Join(parts, sep)| == TotalLength(parts) + (|parts| - 1) * |sep|
  {
    if |parts| > 1 {
      var init, n := parts[..|parts| - 1], |parts|;
      JoinLength(init, sep);
      assert Join(parts, sep) == Join(init, sep) + sep + parts[n - 1];
      assert TotalLength(parts) == TotalLength(init) + |parts[n - 1]|;
      assert (n - 1) * |sep| == (n - 2) * |sep| + |sep|;
    }
  }

  function TotalLength(parts: seq<string>): nat {
    if parts == [] then 0 else TotalLength(parts[..|parts| - 1]) + |parts[|parts| - 1]|
  }

  /* ------------------------------------------------------ comment panel */

  /** What the page keeps of the last lookup result: its `normalized` and
      `network` fields, `""` when absent. */
  datatype LookupView = LookupView(normalized: string, network: string)

  datatype CommentsKey = CommentsKey(network: string, address: string)

  /** `getCommentsKey`: the address is the normalised result, or the typed
      query when there is none, trimmed; the network is the result's,
      upper-cased, `UNKNOWN` when there is none. */
  function GetCommentsKey(res: Option<LookupView>, q: string): (key: CommentsKey)
    ensures Trimmed(key.address)
    ensures forall i :: 0 <= i < |key.network| ==> !IsLowerAscii(key.network[i])
    ensures res.None? ==> key == CommentsKey("UNKNOWN", Trim(q))
    ensures res.Some? ==> key.address == Trim(if res.value.normalized != "" then res.value.normalized else q)
    ensures res.Some? ==> key.network == Upper(if res.value.network != "" then res.value.network else "UNKNOWN")
  {
    var normalized := if res.Some? then res.value.normalized else "";
    var network := if res.Some? then res.value.network else "";
    CommentsKey(Upper(if network != "" then network else "UNKNOWN"),
                Trim(if normalized != "" then normalized else q))
  }

  /** Once a result names a normalised address, the thread follows that
      address and not the spelling the user typed. */
  lemma SameResultSameThread(res: Option<LookupView>, q1: string, q2: string)
    requires res.Some? && res.value.normalized != ""
    ensures GetCommentsKey(res, q1) == GetCommentsKey(res, q2)
    ensures GetCommentsKey(res, q1).address == Trim(res.value.normalized)
  {
  }

  /** The early return of `openComments`. */
  predicate OpenCommentsProceeds(key: CommentsKey) {
    key.address != "" && key.network != "UNKNOWN"
  }

  /** The early return of `submitComment`. */
  predicate SubmitCommentProceeds(key: CommentsKey, commentText: string) {
    Trim(commentText) != "" && OpenCommentsProceeds(key)
  }

  /** Without a lookup result the panel never opens: the network is `UNKNOWN`. */
  lemma NoResultNoComments(q: string, text: string)
    ensures !OpenCommentsProceeds(GetCommentsKey(None, q))
    ensures !SubmitCommentProceeds(GetCommentsKey(None, q), text)
  {
  }

  /** A key the panel opens with passes the server's GET check, and the
      server reads it under the very network and address the page holds. */
  lemma OpenedKeyIsServed(res: Option<LookupView>, q: string, st: Store, ih: string)
    requires OpenCommentsProceeds(GetCommentsKey(res, q))
    ensures var key := GetCommentsKey(res, q);
      var r := GetStep(st, key.network, key.address, ih);
      r.GetOk? && r.network == key.network && r.address == key.address
  {
    var key := GetCommentsKey(res, q);
    UpperOfUpper(key.network);
    TrimOfTrimmed(key.address);
  }
}
