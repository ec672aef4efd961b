/**
  The provider-facing part of the lookup endpoint (app/api/lookup/route.ts):
  explorer deep links, the fallback "mock" envelope, and the three rules
  that label each upstream transfer in, out or other and total them
  (BlockCypher transaction references, Tronscan transactions, TonAPI
  events). Amounts are integers in each network's smallest unit; the
  division into coins and every USD figure are not part of this model.
 */
module LookupAdapters {
  import opened JsText
  import opened JsUri
  import opened LookupClassify

  datatype TxKind = In | Out | Other

  /** The provider-independent transfer record (`BaseTx`). */
  datatype BaseTx = BaseTx(
    id: string,
    timestamp: Option<int>,
    kind: TxKind,
    amount: Option<int>,
    symbol: string,
    from: Option<string>,
    to: Option<string>,
    txType: string,
    explorerUrl: string)

  datatype Summary = Summary(
    title: string, subtitle: string,
    balance: string, usd: string, usdBalance: string,
    usdTotalReceived: string, usdTotalSent: string,
    txCount: string, totalReceived: string, totalSent: string,
    status: string)

  datatype NftItem = NftItem(address: string, name: string, image: Option<string>, collection: string)

  /** The response envelope of a successful lookup. */
  datatype LookupResult = LookupResult(
    ok: bool, kind: Kind, network: Network, normalized: string, explorerUrl: string,
    summary: Summary, txs: seq<BaseTx>, nfts: seq<NftItem>)

  /** The "unknown" sentinel of every unresolved summary figure. */
  const Dash := "—"

  /** The fixed part of each explorer link after the scheme. */
  function ExplorerPath(network: Network, kind: Kind): string {
    match network
    case BTC => if kind == Tx then "www.blockchain.com/btc/tx/" else "www.blockchain.com/btc/address/"
    case ETH => if kind == Tx then "etherscan.io/tx/" else "etherscan.io/address/"
    case LTC => if kind == Tx then "blockchair.com/litecoin/transaction/" else "blockchair.com/litecoin/address/"
    case TRON => if kind == Tx then "tronscan.org/#/transaction/" else "tronscan.org/#/address/"
    case TON => if kind == Tx then "tonviewer.com/transaction/" else "tonviewer.com/"
    case UNKNOWN => ""
  }

  /** The deep link into each network's public explorer: empty exactly for
      an unknown network, otherwise an https link ending in the
      percent-encoded value. */
  function ExplorerUrl(network: Network, kind: Kind, value: string): (r: string)
    ensures r == "" <==> network == UNKNOWN
    ensures network != UNKNOWN ==>
      |r| > 8 + |EncodeURIComponent(value)| && r[..8] == "https://" &&
      r[|r| - |EncodeURIComponent(value)|..] == EncodeURIComponent(value)
  {
    if network == UNKNOWN then ""
    else
      var b := "https://" + ExplorerPath(network, kind);
      var v := EncodeURIComponent(value);
      assert (b + v)[..8] == b[..8];
      assert (b + v)[|b + v| - |v|..] == v;
      b + v
  }

  /** The fallback envelope returned when a provider cannot be reached. */
  function Mock(kind: Kind, network: Network, query: string): (r: LookupResult)
    ensures r.ok && r.kind == kind && r.network == network && r.normalized == query
    ensures r.txs == [] && r.nfts == []
    ensures r.summary.status == "mock" && r.summary.subtitle == query
    ensures r.summary.title == (if kind == Tx then "Transaction" else "Wallet")
    ensures var s := r.summary;
      s.balance == Dash && s.usd == Dash && s.usdBalance == Dash && s.usdTotalReceived == Dash &&
      s.usdTotalSent == Dash && s.txCount == Dash && s.totalReceived == Dash && s.totalSent == Dash
    ensures r.explorerUrl == ExplorerUrl(network, kind, query)
    ensures r.explorerUrl == "" <==> network == UNKNOWN
  {
    LookupResult(
      true, kind, network, query, ExplorerUrl(network, kind, query),
      Summary(if kind == Tx then "Transaction" else "Wallet", query,
              Dash, Dash, Dash, Dash, Dash, Dash, Dash, Dash, "mock"),
      [], [])
  }

  // ---------------------------------------------------------------------
  // BlockCypher transaction references (BTC, LTC, ETH)
  // ---------------------------------------------------------------------

  /** One `txrefs` entry, fields already extracted: `inputN`/`outputN` are
      `None` where `Number(...)` gives NaN. */
  datatype TxRef = TxRef(hash: string, confirmedAt: Option<int>, value: int, inputN: Option<int>, outputN: Option<int>)

  /** The provider's index convention: `tx_input_n == -1` means the address
      is among the outputs (incoming), `tx_output_n == -1` that it is among
      the inputs (outgoing); the first test wins. */
  function RefKind(t: TxRef): (k: TxKind)
    ensures k == In <==> t.inputN == Some(-1)
    ensures k == Out <==> t.inputN != Some(-1) && t.outputN == Some(-1)
  {
    if t.inputN == Some(-1) then In else if t.outputN == Some(-1) then Out else Other
  }

  function MapTxRef(t: TxRef, symbol: string, addr: string, net: Network): BaseTx {
    var kind := RefKind(t);
    BaseTx(t.hash, t.confirmedAt, kind, Some(t.value), symbol,
           if kind == In then None else Some(addr),
           if kind == Out then None else Some(addr),
           "transfer", ExplorerUrl(net, Tx, t.hash))
  }

  function Min(a: int, b: int): int { if a <= b then a else b }

  /** `mapBlockcypherTxRefs`: `txrefs` is `None` when the field is not an array. */
  function MapBlockcypherTxRefs(txrefs: Option<seq<TxRef>>, symbol: string, addr: string, net: Network): (r: seq<BaseTx>)
    ensures txrefs.None? ==> r == []
    ensures txrefs.Some? ==> |r| == Min(30, |txrefs.value|)
    ensures forall i :: 0 <= i < |r| ==>
      var t := txrefs.value[i];
      && r[i].id == t.hash && r[i].amount == Some(t.value)
      && (r[i].kind == In <==> t.inputN == Some(-1))
      && (r[i].kind == Out <==> t.inputN != Some(-1) && t.outputN == Some(-1))
      && (r[i].from.None? <==> r[i].kind == In)
      && (r[i].to.None? <==> r[i].kind == Out)
      && (r[i].from.Some? ==> r[i].from.value == addr)
      && (r[i].to.Some? ==> r[i].to.value == addr)
  {
    match txrefs
    case None => []
    case Some(refs) =>
      var n := Min(30, |refs|);
      seq(n, i requires 0 <= i < n => MapTxRef(refs[i], symbol, addr, net))
  }

  // ---------------------------------------------------------------------
  // Tronscan transactions
  // ---------------------------------------------------------------------

  /** One Tronscan transaction, its fields taken after the code's
      fall-backs (`contractType` defaults to `"transfer"`, the others to
      `""` or 0). */
  datatype TronRaw = TronRaw(hash: string, timestampMs: int, from: string, to: string, contractType: string, amountSun: int)

  /** The direction of a transfer seen from `self`, shared by the TRON and
      the TON branches: the recipient test wins over the sender test, and
      an empty address never matches. */
  function TransferKind(from: string, to: string, self: string): (k: TxKind)
    ensures k == In <==> to != "" && to == self
    ensures k == Out <==> !(to != "" && to == self) && from != "" && from == self
  {
    if to != "" && to == self then In
    else if from != "" && from == self then Out
    else Other
  }

  function MapTronTx(t: TronRaw, query: string): BaseTx {
    BaseTx(t.hash,
           if t.timestampMs != 0 then Some(t.timestampMs / 1000) else None,
           TransferKind(t.from, t.to, query),
           Some(t.amountSun), "TRX",
           if t.from != "" then Some(t.from) else None,
           if t.to != "" then Some(t.to) else None,
           t.contractType, ExplorerUrl(TRON, Tx, t.hash))
  }

  /** `map(...)` over Tronscan transactions. */
  function MapTron(raw: seq<TronRaw>, query: string): (r: seq<BaseTx>)
    ensures |r| == |raw|
  {
    seq(|raw|, i requires 0 <= i < |raw| => MapTronTx(raw[i], query))
  }

  /** `txsRaw.slice(0, 30).map(...)` of the TRON branch: the first thirty
      transactions, each keeping its hash, amount in sun, counterparties
      and explorer link, and classified against the query. */
  function TronTxs(raw: seq<TronRaw>, query: string): (r: seq<BaseTx>)
    ensures |r| == Min(30, |raw|)
    ensures forall i :: 0 <= i < |r| ==>
      r[i].id == raw[i].hash && r[i].amount == Some(raw[i].amountSun) && r[i].symbol == "TRX" &&
      (r[i].kind == In <==> raw[i].to != "" && raw[i].to == query) &&
      (r[i].kind == Out <==> !(raw[i].to != "" && raw[i].to == query) && raw[i].from != "" && raw[i].from == query) &&
      (r[i].from.None? <==> raw[i].from == "") && (r[i].from.Some? ==> r[i].from.value == raw[i].from) &&
      (r[i].to.None? <==> raw[i].to == "") && (r[i].to.Some? ==> r[i].to.value == raw[i].to) &&
      r[i].explorerUrl == ExplorerUrl(TRON, Tx, raw[i].hash)
  {
    MapTron(raw[..Min(30, |raw|)], query)
  }

  /** `txs.filter(t => t.kind === k).reduce((a, b) => a + (b.amount ?? 0), 0)`. */
  function TotalOfKind(txs: seq<BaseTx>, k: TxKind): int {
    if txs == [] then 0
    else TotalOfKind(txs[..|txs| - 1], k) +
         (if txs[|txs| - 1].kind == k then AmountOrZero(txs[|txs| - 1]) else 0)
  }

  function AmountOrZero(t: BaseTx): int { if t.amount.Some? then t.amount.value else 0 }

  function TotalAmount(txs: seq<BaseTx>): int {
    if txs == [] then 0 else TotalAmount(txs[..|txs| - 1]) + AmountOrZero(txs[|txs| - 1])
  }

  /** Every transfer is counted in exactly one of the three totals, so the
      received and sent totals never overlap and "other" entries are in neither. */
  lemma {:induction false} TotalsPartition(txs: seq<BaseTx>)
    ensures TotalOfKind(txs, In) + TotalOfKind(txs, Out) + TotalOfKind(txs, Other) == TotalAmount(txs)
  {
    if txs != [] {
      TotalsPartition(txs[..|txs| - 1]);
    }
  }

  /** A reference definition of the TRON received total, on the raw
      transactions: the amounts whose recipient is exactly the query. */
  function TronReceived(raw: seq<TronRaw>, query: string): int {
    if raw == [] then 0
    else TronReceived(raw[..|raw| - 1], query) +
         (if raw[|raw| - 1].to != "" && raw[|raw| - 1].to == query then raw[|raw| - 1].amountSun else 0)
  }

  /** ... and of the sent total: sender is the query and recipient is not. */
  function TronSent(raw: seq<TronRaw>, query: string): int {
    if raw == [] then 0
    else
      var t := raw[|raw| - 1];
      TronSent(raw[..|raw| - 1], query) +
        (if t.from != "" && t.from == query && !(t.to != "" && t.to == query) then t.amountSun else 0)
  }

  lemma {:induction false} TronTotalsMatchReference(raw: seq<TronRaw>, query: string)
    ensures TotalOfKind(MapTron(raw, query), In) == TronReceived(raw, query)
    ensures TotalOfKind(MapTron(raw, query), Out) == TronSent(raw, query)
  {
    if raw != [] {
      var txs := MapTron(raw, query);
      TronTotalsMatchReference(raw[..|raw| - 1], query);
      assert txs[..|txs| - 1] == MapTron(raw[..|raw| - 1], query);
      TronContribution(raw[|raw| - 1], query);
    }
  }

  /** What one Tronscan transaction adds to each total. */
  lemma TronContribution(t: TronRaw, query: string)
    ensures var m := MapTronTx(t, query);
      && (if m.kind == In then AmountOrZero(m) else 0) == (if t.to != "" && t.to == query then t.amountSun else 0)
      && (if m.kind == Out then AmountOrZero(m) else 0) ==
         (if t.from != "" && t.from == query && !(t.to != "" && t.to == query) then t.amountSun else 0)
  {
  }

  /** The totals reported for a TRON address (`totalIn`, `totalOut`) are
      the reference totals of the first 30 transactions. */
  lemma TronTotalsOfSlice(raw: seq<TronRaw>, query: string)
    ensures TotalOfKind(TronTxs(raw, query), In) == TronReceived(raw[..Min(30, |raw|)], query)
    ensures TotalOfKind(TronTxs(raw, query), Out) == TronSent(raw[..Min(30, |raw|)], query)
  {
    TronTotalsMatchReference(raw[..Min(30, |raw|)], query);
  }

  // ---------------------------------------------------------------------
  // TonAPI events
  // ---------------------------------------------------------------------

  /** One action of a TonAPI event, after the payload has been resolved:
      the sender and recipient address strings (`""` where absent) and the
      amount in nanotons (`0` where absent or not a number). */
  datatype TonAction = TonAction(actionType: string, sender: string, recipient: string, amountNano: int)

  /** One event; `timestamp` is `0` when the event carries none. */
  datatype TonEvent = TonEvent(id: string, timestamp: int, actions: seq<TonAction>)

  /** The TON transfer record (`TonTx`); `amountNano` is present only when positive. */
  datatype TonTx = TonTx(
    id: string, timestamp: Option<int>, kind: TxKind, amountNano: Option<int>,
    from: Option<string>, to: Option<string>, txType: string)

  /** `s.includes(sub)` keeps holding when characters are put in front of `s`. */
  lemma {:induction false} IncludesInSuffix(s: string, k: nat, sub: string)
    requires k <= |s| && Includes(s[k..], sub)
    ensures Includes(s, sub)
    decreases k
  {
    if k > 0 {
      assert s[1..][k - 1..] == s[k..];
      IncludesInSuffix(s[1..], k - 1, sub);
    }
  }

  /** Every type that mentions "ton_transfer" mentions "transfer", so the
      primary-action test is the single test `includes("transfer")`. */
  lemma TonTransferMentionsTransfer(t: string)
    requires Includes(t, "ton_transfer")
    ensures Includes(t, "transfer")
  {
    var k := TonTransferAt(t);
    assert t[k + 4..k + 12] == t[k..k + 12][4..];
    assert t[k + 4..][..8] == t[k + 4..k + 12];
    IncludesInSuffix(t, k + 4, "transfer");
  }

  /** The position at which an included "ton_transfer" starts. */
  lemma {:induction false} TonTransferAt(t: string) returns (k: nat)
    requires Includes(t, "ton_transfer")
    ensures k + 12 <= |t| && t[k..k + 12] == "ton_transfer"
  {
    if t[..12] == "ton_transfer" {
      k := 0;
    } else {
      var k1 := TonTransferAt(t[1..]);
      k := k1 + 1;
      assert t[1..][k1..k1 + 12] == t[k1 + 1..k1 + 13];
    }
  }

  /** The transfer-like test of the primary-action search. */
  predicate IsTransferLike(a: TonAction) {
    var t := Lower(a.actionType);
    Includes(t, "ton_transfer") || Includes(t, "transfer")
  }

  /** The first transfer-like action, if any. */
  function FirstTransfer(actions: seq<TonAction>): (r: Option<TonAction>)
    ensures r.Some? ==> r.value in actions && IsTransferLike(r.value)
    ensures r.None? <==> forall i :: 0 <= i < |actions| ==> !IsTransferLike(actions[i])
  {
    if actions == [] then None
    else if IsTransferLike(actions[0]) then Some(actions[0])
    else FirstTransfer(actions[1..])
  }

  /** The primary action: the first transfer-like one, else the first one. */
  function Primary(actions: seq<TonAction>): (r: Option<TonAction>)
    ensures r.None? <==> actions == []
    ensures r.Some? ==> r.value in actions
    ensures (exists i :: 0 <= i < |actions| && IsTransferLike(actions[i])) ==> r == FirstTransfer(actions)
  {
    var f := FirstTransfer(actions);
    if f.Some? then f else if actions == [] then None else Some(actions[0])
  }

  /** The comparison key of an address: its raw form when `toRaw`
      recognises it, the string itself otherwise; trimmed and lower-cased. */
  function AddressKey(raw: string, toRaw: string -> string): (k: string)
    ensures forall i :: 0 <= i < |k| ==> !IsUpperAscii(k[i])
  {
    var norm := if raw != "" then toRaw(raw) else "";
    Lower(Trim(if norm != "" then norm else raw))
  }

  /** The display form of an address: friendly, else raw, else absent. */
  function AddressDisplay(raw: string, toRaw: string -> string, toFriendly: string -> string): (d: Option<string>)
    ensures raw == "" ==> d.None?
  {
    var disp := if raw != "" then toFriendly(raw) else "";
    var norm := if raw != "" then toRaw(raw) else "";
    if disp != "" then Some(disp) else if norm != "" then Some(norm) else None
  }

  /** The transfer record one event becomes, for the queried address key. */
  function EventTx(ev: TonEvent, addrKey: string, toRaw: string -> string, toFriendly: string -> string): TonTx {
    var p := Primary(ev.actions);
    var sender := if p.Some? then p.value.sender else "";
    var recipient := if p.Some? then p.value.recipient else "";
    var amount := if p.Some? then p.value.amountNano else 0;
    var txType := if p.Some? && p.value.actionType != "" then p.value.actionType else "event";
    TonTx(ev.id,
          if ev.timestamp != 0 then Some(ev.timestamp) else None,
          TransferKind(AddressKey(sender, toRaw), AddressKey(recipient, toRaw), addrKey),
          if amount > 0 then Some(amount) else None,
          AddressDisplay(sender, toRaw, toFriendly),
          AddressDisplay(recipient, toRaw, toFriendly),
          txType)
  }

  /** The records of a list of events, in order. */
  function EventTxs(events: seq<TonEvent>, addrKey: string, toRaw: string -> string, toFriendly: string -> string): (r: seq<TonTx>)
    ensures |r| == |events|
  {
    seq(|events|, i requires 0 <= i < |events| => EventTx(events[i], addrKey, toRaw, toFriendly))
  }

  /** One more event adds its record at the end. */
  lemma EventTxsSnoc(events: seq<TonEvent>, e: nat, addrKey: string, toRaw: string -> string, toFriendly: string -> string)
    requires e < |events|
    ensures EventTxs(events[..e + 1], addrKey, toRaw, toFriendly) ==
      EventTxs(events[..e], addrKey, toRaw, toFriendly) + [EventTx(events[e], addrKey, toRaw, toFriendly)]
  {
    var a := EventTxs(events[..e + 1], addrKey, toRaw, toFriendly);
    var b := EventTxs(events[..e], addrKey, toRaw, toFriendly) + [EventTx(events[e], addrKey, toRaw, toFriendly)];
    forall i | 0 <= i < |a| ensures a[i] == b[i] {
      assert events[..e + 1][i] == events[i];
      if i < e { assert events[..e][i] == events[i]; }
    }
  }

  /** The sum of the positive amounts of the records of kind `k`. */
  function TonTotal(txs: seq<TonTx>, k: TxKind): int {
    if txs == [] then 0
    else
      var t := txs[|txs| - 1];
      TonTotal(txs[..|txs| - 1], k) + (if t.kind == k && t.amountNano.Some? then t.amountNano.value else 0)
  }

  /** The primary-action search of `parseTonEvents`: a scan that stops at
      the first transfer-like action, falling back to the first action. */
  method FindPrimary(actions: seq<TonAction>) returns (primary: Option<TonAction>)
    ensures primary == Primary(actions)
  {
    primary := None;
    var j := 0;
    while j < |actions|
      invariant 0 <= j <= |actions|
      invariant primary.None? ==> FirstTransfer(actions[j..]) == FirstTransfer(actions)
      invariant primary.Some? ==> primary == FirstTransfer(actions)
    {
      if IsTransferLike(actions[j]) {
        primary := Some(actions[j]);
        break;
      }
      assert actions[j..][1..] == actions[j + 1..];
      j := j + 1;
    }
    if primary.None? && |actions| > 0 {
      primary := Some(actions[0]);
    }
  }

  /** Appending one record adds its positive amount to the total of its kind. */
  lemma TonTotalAppend(txs: seq<TonTx>, t: TonTx, k: TxKind)
    ensures TonTotal(txs + [t], k) == TonTotal(txs, k) + (if t.kind == k && t.amountNano.Some? then t.amountNano.value else 0)
  {
    assert (txs + [t])[..|txs|] == txs;
  }

  /** The body of the event loop of `parseTonEvents`: the record of one
      event and what it adds to the received and sent totals. */
  method ParseEvent(ev: TonEvent, addrKey: string, toRaw: string -> string, toFriendly: string -> string)
    returns (tx: TonTx, addIn: int, addOut: int)
    ensures tx == EventTx(ev, addrKey, toRaw, toFriendly)
    ensures addIn == (if tx.kind == In && tx.amountNano.Some? then tx.amountNano.value else 0)
    ensures addOut == (if tx.kind == Out && tx.amountNano.Some? then tx.amountNano.value else 0)
  {
    var primary := FindPrimary(ev.actions);
    var txType := if primary.Some? && primary.value.actionType != "" then primary.value.actionType else "event";
    var senderRaw := if primary.Some? then primary.value.sender else "";
    var recipientRaw := if primary.Some? then primary.value.recipient else "";
    var amountNano := if primary.Some? then primary.value.amountNano else 0;
    var senderKey := AddressKey(senderRaw, toRaw);
    var recipientKey := AddressKey(recipientRaw, toRaw);
    var kind := Other;
    addIn, addOut := 0, 0;
    if recipientKey != "" && recipientKey == addrKey {
      kind := In;
      if amountNano > 0 { addIn := amountNano; }
    } else if senderKey != "" && senderKey == addrKey {
      kind := Out;
      if amountNano > 0 { addOut := amountNano; }
    }
    tx := TonTx(ev.id,
                if ev.timestamp != 0 then Some(ev.timestamp) else None,
                kind,
                if amountNano > 0 then Some(amountNano) else None,
                AddressDisplay(senderRaw, toRaw, toFriendly),
                AddressDisplay(recipientRaw, toRaw, toFriendly),
                txType);
  }

  /** `parseTonEvents`: one record per event, in order, with the received
      and sent totals in nanotons. */
  method ParseTonEvents(events: seq<TonEvent>, addrRaw: string, toRaw: string -> string, toFriendly: string -> string)
    returns (txs: seq<TonTx>, totalIn: int, totalOut: int)
    ensures txs == EventTxs(events, Lower(Trim(addrRaw)), toRaw, toFriendly)
    ensures |txs| == |events|
    ensures totalIn == TonTotal(txs, In) && totalOut == TonTotal(txs, Out)
    ensures totalIn >= 0 && totalOut >= 0
  {
    txs := [];
    totalIn, totalOut := 0, 0;
    var addrKey := Lower(Trim(addrRaw));
    var e := 0;
    while e < |events|
      invariant 0 <= e <= |events| && |txs| == e
      invariant txs == EventTxs(events[..e], addrKey, toRaw, toFriendly)
      invariant totalIn == TonTotal(txs, In) && totalOut == TonTotal(txs, Out)
    {
      var tx, addIn, addOut := ParseEvent(events[e], addrKey, toRaw, toFriendly);
      EventStep(events, e, addrKey, toRaw, toFriendly, txs, totalIn, totalOut, tx, addIn, addOut);
      txs, totalIn, totalOut := txs + [tx], totalIn + addIn, totalOut + addOut;
      e := e + 1;
    }
    assert events[..e] == events;
    EventAmountsPositive(events, addrKey, toRaw, toFriendly);
    TonTotalNonNegative(txs, In);
    TonTotalNonNegative(txs, Out);
  }

  /** One turn of the event loop: appending the record of event `e` and
      adding its amounts keeps the loop's account of the events before it. */
  lemma EventStep(events: seq<TonEvent>, e: nat, addrKey: string, toRaw: string -> string, toFriendly: string -> string,
                  txs: seq<TonTx>, totalIn: int, totalOut: int, tx: TonTx, addIn: int, addOut: int)
    requires e < |events| && txs == EventTxs(events[..e], addrKey, toRaw, toFriendly)
    requires totalIn == TonTotal(txs, In) && totalOut == TonTotal(txs, Out)
    requires tx == EventTx(events[e], addrKey, toRaw, toFriendly)
    requires addIn == (if tx.kind == In && tx.amountNano.Some? then tx.amountNano.value else 0)
    requires addOut == (if tx.kind == Out && tx.amountNano.Some? then tx.amountNano.value else 0)
    ensures txs + [tx] == EventTxs(events[..e + 1], addrKey, toRaw, toFriendly)
    ensures totalIn + addIn == TonTotal(txs + [tx], In) && totalOut + addOut == TonTotal(txs + [tx], Out)
  {
    EventTxsSnoc(events, e, addrKey, toRaw, toFriendly);
    TonTotalAppend(txs, tx, In);
    TonTotalAppend(txs, tx, Out);
  }

  /** The totals only ever add positive amounts. */
  lemma {:induction false} TonTotalNonNegative(txs: seq<TonTx>, k: TxKind)
    requires forall i :: 0 <= i < |txs| && txs[i].amountNano.Some? ==> txs[i].amountNano.value > 0
    ensures TonTotal(txs, k) >= 0
  {
    if txs != [] {
      TonTotalNonNegative(txs[..|txs| - 1], k);
    }
  }

  /** Every record of an event carries either no amount or a positive one. */
  lemma EventAmountPositive(ev: TonEvent, addrKey: string, toRaw: string -> string, toFriendly: string -> string)
    ensures var t := EventTx(ev, addrKey, toRaw, toFriendly);
      t.amountNano.Some? ==> t.amountNano.value > 0
  {
  }

  /** Every amount recorded for a list of events is positive. */
  lemma EventAmountsPositive(events: seq<TonEvent>, addrKey: string, toRaw: string -> string, toFriendly: string -> string)
    ensures var txs := EventTxs(events, addrKey, toRaw, toFriendly);
      forall i :: 0 <= i < |txs| && txs[i].amountNano.Some? ==> txs[i].amountNano.value > 0
  {
    var txs := EventTxs(events, addrKey, toRaw, toFriendly);
    forall i | 0 <= i < |txs| && txs[i].amountNano.Some? ensures txs[i].amountNano.value > 0 {
      EventAmountPositive(events[i], addrKey, toRaw, toFriendly);
    }
  }

  /** An event whose primary action is not addressed to or from the queried
      address adds nothing to either total. */
  lemma {:induction false} TonOtherAddsNothing(txs: seq<TonTx>, t: TonTx)
    requires t.kind == Other
    ensures TonTotal(txs + [t], In) == TonTotal(txs, In)
    ensures TonTotal(txs + [t], Out) == TonTotal(txs, Out)
  {
    assert (txs + [t])[..|txs|] == txs;
  }

  /** The queried address is compared trimmed and lower-cased, so a query
      written with other ASCII letter case (`Lower(c) == Lower(a)`) and
      surrounded by white space gives the same key and, through the
      contract of `ParseTonEvents`, the same rows and totals. */
  lemma QueryCasingIrrelevant(events: seq<TonEvent>, a: string, w1: string, c: string, w2: string,
                              toRaw: string -> string, toFriendly: string -> string)
    requires AllWhite(w1) && AllWhite(w2) && Lower(c) == Lower(a)
    ensures Lower(Trim(w1 + c + w2)) == Lower(Trim(a))
    ensures EventTxs(events, Lower(Trim(w1 + c + w2)), toRaw, toFriendly) == EventTxs(events, Lower(Trim(a)), toRaw, toFriendly)
  {
    TrimPadded(w1, c, w2);
    TrimLower(c);
    TrimLower(a);
  }

  /** An event sent by the queried address to itself counts as received. */
  lemma TonSelfTransferIsIncoming(ev: TonEvent, addrKey: string, toRaw: string -> string, toFriendly: string -> string)
    requires ev.actions != [] && Primary(ev.actions).value.sender == Primary(ev.actions).value.recipient
    requires AddressKey(Primary(ev.actions).value.recipient, toRaw) == addrKey && addrKey != ""
    ensures EventTx(ev, addrKey, toRaw, toFriendly).kind == In
  {
  }
}
