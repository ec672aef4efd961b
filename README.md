# Crypto explorer: lookup, activity feed and comments

This project models the core of a small multi-chain block explorer. The explorer has two server routes and the client code that calls them:

- **lookup**: classifies a pasted query as an address or a transaction of BTC, ETH, LTC, TRON or TON, then maps provider payloads to transaction rows and totals;
- **comments**: stores one plain-text comment per client and per (network, address) pair;
- **client**: the page that guesses the network, shortens strings and builds the comments key, plus the activity feed that decides whether a row is incoming or outgoing.

The model has one module per source file, and three modules for the JavaScript built-ins that the code relies on:

| module | models |
|---|---|
| `JsText` | `trim` (the full ECMAScript white-space and line-terminator set), ASCII `toLowerCase`/`toUpperCase`, `includes`, `split(sep)[0]`, UTF-16 length, decimal and hex rendering |
| `JsUri` | `encodeURIComponent`, through UTF-8 and upper-case percent escapes |
| `JsBase64` | `atob`, which applies the "forgiving-base64 decode" algorithm of the WHATWG Infra standard |
| `LookupClassify` | `detectInput` and `forceNetwork` of `app/api/lookup/route.ts` |
| `LookupAdapters` | `explorerUrl`, `mock`, the BlockCypher and Tronscan mappings and `parseTonEvents` of the same route |
| `TxFeed` | `app/components/TxFeed.tsx`: TON address normalisation and the TON and BTC/LTC feed rows |
| `CommentsSanitize` | `sanitizePlainText` of `app/api/comments/route.ts` |
| `CommentsStore` | the rest of the comments route: key building, client IP, validation, the in-memory GET and POST (class `CommentStore`) |
| `ExplorerSection` | `components/sections/explorer-section.tsx`: the client-side `detectInput`, the forced-network badge, `shorten`, `cn` and the comments key |
| `DisplayUtils` | `app/components/utils.ts` |

Amounts are integers in the chain's smallest unit (satoshi, sun, nanoton). Some inputs are not computed inside the model and are passed in as parameters:

- `toRawTonAddress`, `toFriendlyTonAddress` and the salted SHA-256 `ipHash` become uninterpreted functions.
- `crypto.randomUUID()` and `Date.now()` become arguments of `CommentStore.Post`.

The untyped JSON that the providers return becomes datatypes. These hold the fields after the code's `a || b || ""` fall-backs have been applied.

## Model

| member | source | states |
|---|---|---|
| JsText.Trim | app/api/comments/route.ts:80 | the result has no leading or trailing white space, is no longer than the input, consists of input characters, and is empty exactly when the input is all white space |
| JsText.TrimIdempotent | app/api/comments/route.ts:80 | trimming twice is trimming once |
| JsText.TrimDropBack | app/api/lookup/route.ts:182 | trailing white space may be removed first: `trim` does not depend on the order |
| JsText.TrimPadded | app/api/lookup/route.ts:182 | white space added around a string does not change its trim |
| JsText.TrimLower | app/api/lookup/route.ts:182 | trimming and lower-casing commute |
| JsText.Lower | app/api/lookup/route.ts:182 | `toLowerCase` keeps the length and leaves no ASCII upper-case letter |
| JsText.Upper | app/api/comments/route.ts:124 | `toUpperCase` keeps the length and leaves no ASCII lower-case letter |
| JsText.LowerOfLower | app/api/lookup/route.ts:216-217 | lower-casing is idempotent |
| JsText.UpperOfUpper | app/api/comments/route.ts:79 | upper-casing is idempotent |
| JsText.IndexOf | app/api/comments/route.ts:19 | the index is the first occurrence of the separator, or the length when there is none |
| JsText.FirstField | app/api/comments/route.ts:19 | `split(sep)[0]` is a prefix without the separator, followed by the separator whenever it is shorter than the input |
| JsText.Utf16Length | app/api/comments/route.ts:133 | `.length` counts UTF-16 code units: between one and two per character |
| JsText.NatToDecimal | app/components/TxFeed.tsx:35 | a number's decimal rendering is a non-empty string of digits that reads back as the number |
| JsText.IntToDecimal | app/components/TxFeed.tsx:30-35 | a negative number renders as `-` followed by digits, any other as digits only, and the rendering reads back, sign included, as the number |
| JsText.IntToDecimalInjective | app/components/TxFeed.tsx:30-35 | distinct numbers never render alike |
| JsText.HexByte | app/components/TxFeed.tsx:33 | `toString(16).padStart(2, "0")` of a byte is two lower-case hex digits whose value is the byte |
| JsUri.Utf8 | app/api/lookup/route.ts:15 | a code point encodes to 1–4 bytes, and to one byte exactly when it is ASCII |
| JsUri.PercentBytes | app/api/lookup/route.ts:15 | each byte becomes `%` plus two upper-case hex digits, all URI-safe |
| JsUri.EncodeChar | app/api/lookup/route.ts:15 | a character encodes to a non-empty string of URI-safe characters |
| JsUri.EncodeURIComponent | app/api/lookup/route.ts:15 | the result is at least as long as the input and at most twelve times as long, and contains only URI-safe characters |
| JsUri.EncodeUnreservedIdentity | app/api/lookup/route.ts:15 | a string of unreserved characters encodes to itself |
| JsUri.EncodedHasNoDelimiter | app/api/lookup/route.ts:14-22 | an encoded value never contains `/`, `?` or `#`, so it cannot leave the path segment of an explorer link |
| JsBase64.RemoveAsciiWhite | app/components/TxFeed.tsx:25 | `atob` first removes ASCII white space: nothing longer, no white space left |
| JsBase64.StripPadding | app/components/TxFeed.tsx:24-25 | removing padding leaves a prefix at most two characters shorter, and every character removed is `=` |
| JsBase64.DecodeGroupsLength | app/components/TxFeed.tsx:25-26 | n base64 characters decode to 3n/4 bytes when rounded down |
| JsBase64.BinaryString | app/components/TxFeed.tsx:26-27 | the binary string has one character per byte, and that character's code is the byte |
| JsBase64.Atob | app/components/TxFeed.tsx:25 | a successful decode yields only characters below 256 |
| JsBase64.AtobRejectsForeignCharacter | app/components/TxFeed.tsx:22-37 | a character outside the base64 alphabet and white space makes `atob` throw |
| LookupClassify.Bech32ClassIsBip173 | app/api/lookup/route.ts:37 | the class `[ac-hj-np-z02-9]` under the `i` flag is exactly the BIP 173 data charset, case-insensitively |
| LookupClassify.DetectInput | app/api/lookup/route.ts:24-53 | an empty query is unknown; only ETH or UNKNOWN can be a transaction; UNKNOWN is never an address; BTC, LTC, TRON and TON results are addresses |
| LookupClassify.DetectEth | app/api/lookup/route.ts:29-30 | ETH transaction exactly for `0x` plus 64 hex characters, ETH address exactly for `0x` plus 40 |
| LookupClassify.DetectHex64 | app/api/lookup/route.ts:33 | a bare 64-hex query is a transaction of unknown network, and only such a query is |
| LookupClassify.DetectBtc | app/api/lookup/route.ts:36-37 | BTC exactly when the query has a legacy or bech32 BTC shape and is not 64 hex characters |
| LookupClassify.DetectLtc | app/api/lookup/route.ts:40-41 | LTC exactly when the query has a legacy or bech32 LTC shape |
| LookupClassify.DetectTron | app/api/lookup/route.ts:44 | TRON exactly for `T` plus 33 alphanumerics |
| LookupClassify.DetectTon | app/api/lookup/route.ts:47-50 | TON exactly for a friendly (`EQ`/`UQ`/`kQ` plus 46 base64url characters) or raw (`wc:hex64`) address |
| LookupClassify.TonShapeExcludesOthers | app/api/lookup/route.ts:24-53 | a TON-shaped query matches no earlier pattern, so the order of the tests does not hide TON |
| LookupClassify.DetectUnknown | app/api/lookup/route.ts:52 | the result is unknown exactly when no pattern matches |
| LookupClassify.ForceNetwork | app/api/lookup/route.ts:55-79 | AUTO or no choice defers to auto-detection; TON is always an address; ETH is a transaction exactly for `0x`+64 hex; BTC, LTC and TRON are transactions exactly for 64 hex; a forced network never yields an unknown kind |
| LookupClassify.ForcedNetworkWins | app/api/lookup/route.ts:59-76 | forcing any real network returns that network |
| LookupClassify.UnrecognisedForcedIsAuto | app/api/lookup/route.ts:78 | any other forced value, UNKNOWN included, behaves as AUTO |
| LookupAdapters.ExplorerUrl | app/api/lookup/route.ts:14-22 | the link is empty exactly for UNKNOWN; otherwise it is an https link that ends with the encoded value |
| LookupAdapters.Mock | app/api/lookup/route.ts:81-105 | the placeholder answer echoes kind, network and query, has no transactions or NFTs, status "mock", dashes in every figure and a title that follows the kind |
| LookupAdapters.RefKind | app/api/lookup/route.ts:280-282 | incoming exactly when `tx_input_n` is -1; outgoing exactly when it is not and `tx_output_n` is -1 |
| LookupAdapters.MapBlockcypherTxRefs | app/api/lookup/route.ts:270-296 | a missing list maps to none; otherwise the first 30 references map in order, each keeping its id and value, with `from` absent for incoming and `to` absent for outgoing |
| LookupAdapters.TransferKind | app/api/lookup/route.ts:470-472 | the direction test shared by the Tronscan rows and the TON events (lines 226-233): incoming exactly when the recipient is the viewer; outgoing exactly when it is not and the sender is; an empty address never matches |
| LookupAdapters.TronTxs | app/api/lookup/route.ts:455-486 | only the first 30 Tronscan rows are mapped, in order; each keeps its hash, its amount in sun, its sender and recipient (absent exactly when empty) and its explorer link, and is incoming or outgoing as `TransferKind` decides for the query |
| LookupAdapters.TotalsPartition | app/api/lookup/route.ts:489-490 | received, sent and other amounts add up to the total of the list |
| LookupAdapters.TronTotalsMatchReference | app/api/lookup/route.ts:489-490 | the filter-and-reduce totals equal an independent sum over the raw rows of the amounts received by, and sent from, the query |
| LookupAdapters.TronTotalsOfSlice | app/api/lookup/route.ts:488-490 | the reported totals cover only the first 30 rows |
| LookupAdapters.TonTransferMentionsTransfer | app/api/lookup/route.ts:193 | the `ton_transfer` test is subsumed by the `transfer` test |
| LookupAdapters.FirstTransfer | app/api/lookup/route.ts:190-194 | the action found is the first transfer-like one, and none is found exactly when no action is transfer-like |
| LookupAdapters.Primary | app/api/lookup/route.ts:189-195 | there is no primary action exactly when there are no actions; otherwise it is one of them, and it is the first transfer-like one whenever one exists |
| LookupAdapters.AddressKey | app/api/lookup/route.ts:212-217 | a comparison key holds no upper-case letter |
| LookupAdapters.AddressDisplay | app/api/lookup/route.ts:219-221 | an absent address has no display form |
| LookupAdapters.EventTxs | app/api/lookup/route.ts:184-244 | one row per event, row i being the record of event i |
| LookupAdapters.FindPrimary | app/api/lookup/route.ts:190-195 | the loop with `break` finds the primary action |
| LookupAdapters.ParseEvent | app/api/lookup/route.ts:185-243 | one event's row, and the amounts it adds to the received and sent totals |
| LookupAdapters.ParseTonEvents | app/api/lookup/route.ts:176-247 | the rows are the per-event rows in order, keyed by the trimmed, lower-cased query; the totals are the sums of the amounts of incoming and outgoing rows, and are never negative |
| LookupAdapters.TonTotalNonNegative | app/api/lookup/route.ts:229-232 | totals built from positive amounts are never negative |
| LookupAdapters.EventAmountPositive | app/api/lookup/route.ts:223-224 | a row carries an amount only when that amount is positive |
| LookupAdapters.EventAmountsPositive | app/api/lookup/route.ts:223-224 | every amount recorded for a list of events is positive |
| LookupAdapters.TonOtherAddsNothing | app/api/lookup/route.ts:226-233 | a row that is neither incoming nor outgoing changes neither total |
| LookupAdapters.QueryCasingIrrelevant | app/api/lookup/route.ts:181-182 | a query rewritten in other ASCII letter case and surrounded by any white space yields the same comparison key, hence the same rows and (by the contract of `ParseTonEvents`) the same totals |
| LookupAdapters.TonSelfTransferIsIncoming | app/api/lookup/route.ts:227-233 | a transfer from the query to itself counts as incoming |
| TxFeed.ReplaceAll | app/components/TxFeed.tsx:23 | every occurrence of the character is replaced and nothing else changes |
| TxFeed.Padded | app/components/TxFeed.tsx:24 | padding extends the string with `=` to the next multiple of four, adding fewer than four |
| TxFeed.Int8 | app/components/TxFeed.tsx:30 | `(b << 24) >> 24` is the signed byte in [-128, 127] congruent to b modulo 256 |
| TxFeed.HexOf | app/components/TxFeed.tsx:32-34 | bytes become two lower-case hex digits each, which read back, two digits at a time, as the bytes |
| TxFeed.NormalizedTon | app/components/TxFeed.tsx:14-39 | the normal form is empty exactly for a blank input and never holds an upper-case letter |
| TxFeed.NormalizeTonAddress | app/components/TxFeed.tsx:14-39 | the imperative procedure, with its byte-copy loop, computes the normal form |
| TxFeed.FillBytes | app/components/TxFeed.tsx:26-27 | the array holds each character's code, reduced modulo 256 as a `Uint8Array` does |
| TxFeed.NormalizedRawInput | app/components/TxFeed.tsx:19 | an input containing `:` normalises to its trimmed lower-case form |
| TxFeed.NormalizedFallback | app/components/TxFeed.tsx:28-37 | an input that fails to decode, or decodes to fewer than 36 bytes, normalises to its trimmed lower-case form |
| TxFeed.NormalizedDecodedShape | app/components/TxFeed.tsx:30-35 | a decoded friendly address normalises to the signed workchain byte, `:`, and 64 lower-case hex digits of bytes 2–33 |
| TxFeed.NormalizedIgnoresTagAndChecksum | app/components/TxFeed.tsx:30-31 | two friendly forms that agree on bytes 1–33 normalise alike, whatever their tag and checksum |
| TxFeed.NormalizedSeparatesAccounts | app/components/TxFeed.tsx:30-35 | conversely, two decoded friendly forms with the same normal form agree on the workchain and hash (bytes 1–33), so distinct accounts never normalise alike |
| TxFeed.RawFormSeparates | app/components/TxFeed.tsx:30-35 | equal raw renderings come from equal workchain and hash bytes |
| TxFeed.NormalizedIsFixedPoint | app/components/TxFeed.tsx:14-39 | normalising a normalised friendly address changes nothing |
| TxFeed.RawFormIsCanonical | app/components/TxFeed.tsx:19 | a lower-case raw address is already normal |
| TxFeed.FriendlyDecodes | app/components/TxFeed.tsx:21-28 | a 48-character base64url address decodes without throwing to 36 bytes |
| TxFeed.DecodeGroupsAppend | app/components/TxFeed.tsx:25 | decoding splits at a boundary between groups of four characters |
| TxFeed.HashBytesFromCharacters | app/components/TxFeed.tsx:25-31 | in 48 base64 characters, bytes 1–33 depend only on characters 1–44 and the top two bits of character 45 |
| TxFeed.FriendlyTagIrrelevant | app/components/TxFeed.tsx:21-35 | bounceable and non-bounceable forms of one address normalise to the same raw address: they agree on characters 1–44 and on the top two bits of character 45, and differ in the tag (character 0) and the checksum (the rest of character 45 and characters 46–47) |
| TxFeed.TonDirection | app/components/TxFeed.tsx:54-65 | "in" exactly when the recipient matches the viewed address; "out" exactly when it does not and the sender does |
| TxFeed.TonRow | app/components/TxFeed.tsx:41-69 | the row is incoming exactly when the first action's normalised recipient is the viewed address, and outgoing exactly when it is not and the normalised sender is; an event without actions is a neutral "Event" row without amount; a link exists exactly when there is a hash; a shown amount is never zero |
| TxFeed.TonRowTagIrrelevant | app/components/TxFeed.tsx:50 | viewing an address in either friendly form (same characters 1–44 and same top bits of character 45) produces the same rows |
| TxFeed.TonSelfTransferShownIncoming | app/components/TxFeed.tsx:54-65 | a self-transfer is shown as incoming |
| TxFeed.MatchingAppend | app/components/TxFeed.tsx:81-89 | each input or output adds its value when it lists the address, and nothing otherwise |
| TxFeed.MatchingNone | app/components/TxFeed.tsx:81-89 | entries that never list the address sum to zero |
| TxFeed.BtcRow | app/components/TxFeed.tsx:71-112 | the direction is the sign of received minus spent, the amount is its absolute value, the unit is the network and the type is "Transfer" |
| TxFeed.GetBtcRow | app/components/TxFeed.tsx:71-112 | the procedure with its two summing loops builds that row |
| TxFeed.SumMatching | app/components/TxFeed.tsx:81-84 | the loop sums the values of the entries that list the address |
| TxFeed.BtcReceiveOnlyNeverOut | app/components/TxFeed.tsx:91-92 | when the address spends nothing, the row is never "out" and shows the amount received |
| TxFeed.BtcSpendOnlyNeverIn | app/components/TxFeed.tsx:91-92 | when the address receives nothing, the row is never "in" and shows the amount spent |
| TxFeed.FeedRows | app/components/TxFeed.tsx:114-125 | TON feeds map each item to its TON row, and BTC and LTC feeds to their BTC row, in order; any other network shows no rows |
| CommentsSanitize.StripControl | app/api/comments/route.ts:41 | no listed C0 control or DEL remains, every other input character is kept, every kept character comes from the input, and nothing grows |
| CommentsSanitize.StripControlConcat | app/api/comments/route.ts:41 | stripping works character by character: it distributes over concatenation, so kept characters stay in their order |
| CommentsSanitize.StripControlChar | app/api/comments/route.ts:41 | one character is removed exactly when it is a listed control |
| CommentsSanitize.ScriptElementLen | app/api/comments/route.ts:42 | a matched script element is non-empty, fits in the text and starts at `<` |
| CommentsSanitize.StripScripts | app/api/comments/route.ts:42 | the result is no longer than the input and consists of input characters |
| CommentsSanitize.StripTags | app/api/comments/route.ts:43 | the result is no longer than the input, consists of input characters, and has no `<` followed anywhere later by `>`, so no tag survives |
| CommentsSanitize.NoAngleUntouched | app/api/comments/route.ts:42-43 | text without `<` passes both markup passes unchanged |
| CommentsSanitize.ReplaceWith | app/api/comments/route.ts:48-52 | replacing a character by text that does not contain it removes every occurrence |
| CommentsSanitize.EscapeOnce | app/api/comments/route.ts:48-52 | the single-pass escape leaves no `<`, `>`, `"` or `'`, and never shortens |
| CommentsSanitize.EscapeHtmlIsEscapeOnce | app/api/comments/route.ts:48-52 | the five chained replaces, `&` first, equal escaping each character once |
| CommentsSanitize.UnescapeEscape | app/api/comments/route.ts:48-52 | decoding the five entities undoes the escape |
| CommentsSanitize.EscapeOnceAmpersands | app/api/comments/route.ts:48 | every `&` in the escaped text starts one of the five entities |
| CommentsSanitize.Stripped | app/api/comments/route.ts:40-44 | the text before escaping is trimmed and free of the stripped controls |
| CommentsSanitize.Sanitize | app/api/comments/route.ts:38-53 | the output is empty exactly when the stripped text is |
| CommentsSanitize.SanitizeIsSafe | app/api/comments/route.ts:38-53 | the output has no markup character and no stripped control, every `&` is an entity, and it is trimmed |
| CommentsSanitize.SanitizeRoundTrip | app/api/comments/route.ts:38-53 | decoding the entities recovers the stripped text |
| CommentsSanitize.SanitizePlain | app/api/comments/route.ts:38-53 | trimmed text without controls or markup characters passes unchanged |
| CommentsSanitize.SanitizeNotIdempotent | app/api/comments/route.ts:48 | text that keeps an `&` through stripping grows again when sanitised a second time, so sanitising is not idempotent |
| CommentsSanitize.EscapeOnceGrows | app/api/comments/route.ts:48-52 | escaping lengthens any text containing `&` |
| CommentsStore.SafeKeyPartIgnoresCase | app/api/comments/route.ts:55-58 | the `i`-flagged key test accepts a string exactly when it accepts the upper-cased string |
| CommentsStore.KeyFor | app/api/comments/route.ts:70-72 | the comments key is exactly `comments:` and `:` longer than the network and address together |
| CommentsStore.IpKeyFor | app/api/comments/route.ts:73-75 | the IP-set key is exactly `commentips:` and `:` longer than the network and address together |
| CommentsStore.KeysDisjoint | app/api/comments/route.ts:70-75 | no comments key equals any IP-set key |
| CommentsStore.KeyForInjective | app/api/comments/route.ts:70-72 | for networks without `:`, distinct pairs get distinct keys |
| CommentsStore.KeyForAmbiguous | app/api/comments/route.ts:70-75 | a `:` inside the network makes two pairs share a key |
| CommentsStore.IpFrom | app/api/comments/route.ts:17-31 | the client IP is trimmed and comes from the first non-empty header in the order `x-forwarded-for`, `x-vercel-forwarded-for` (first comma-separated field of either), `cf-connecting-ip`, `x-real-ip`, else 127.0.0.1 |
| CommentsStore.ForwardedForWins | app/api/comments/route.ts:18-19 | a non-empty `x-forwarded-for` decides the IP: its first comma-separated field, trimmed |
| CommentsStore.IpFromIgnoresOtherHeaders | app/api/comments/route.ts:17-31 | headers other than the four consulted do not affect the IP |
| CommentsStore.IpFromDefault | app/api/comments/route.ts:30 | without any of the four headers the IP is 127.0.0.1 |
| CommentsStore.Validate | app/api/comments/route.ts:124-139 | an accepted body has an upper-cased safe network, a trimmed address of at most 200 code units and sanitised text of at most 500; a rejection carries one of the three messages |
| CommentsStore.ValidationOrder | app/api/comments/route.ts:129-139 | missing fields are reported first, then an invalid key part, then an over-long text, and a body that passes all three is accepted |
| CommentsStore.AcceptedTextIsSafe | app/api/comments/route.ts:127-139 | accepted text holds no markup character and no stripped control, and each of its `&` starts an entity |
| CommentsStore.KeepLast | app/api/comments/route.ts:189 | `slice(-200)` keeps the last 200 entries, or all of them when there are fewer |
| CommentsStore.GetStep | app/api/comments/route.ts:77-119 | GET fails exactly when the network or the trimmed address is empty; otherwise it echoes the upper-cased network and trimmed address, returns the stored list for that pair, and offers to post exactly when this client is not recorded for it |
| CommentsStore.PostFailureChangesNothing | app/api/comments/route.ts:129-177 | a refused POST changes nothing; 400 exactly for a rejected body, 403 exactly when this client is already recorded for the pair |
| CommentsStore.KeepLastAppend | app/api/comments/route.ts:187-189 | after appending, the new comment is last and is preceded by the most recent earlier ones |
| CommentsStore.PostOkStep | app/api/comments/route.ts:171-191 | a successful POST records the client and stores the kept list, extended with the new comment |
| CommentsStore.PostSuccess | app/api/comments/route.ts:181-191 | the response carries the new comment, the stored list and `canPost` false |
| CommentsStore.PostSuccessFrame | app/api/comments/route.ts:178-189 | the client is added to the pair's IP set, and every other key of both maps is unchanged |
| CommentsStore.PostKeepsBounded | app/api/comments/route.ts:189 | no stored list grows past 200 |
| CommentsStore.PostOncePerClient | app/api/comments/route.ts:174-177 | a second POST by the same client to the same pair is refused with 403 and changes nothing |
| CommentsStore.GetAfterPost | app/api/comments/route.ts:108-119 | after a successful POST, a GET for the pair by the same client shows the new list and no longer offers to post |
| CommentsStore.CommentStore.constructor | app/api/comments/route.ts:12-15 | the store starts with both maps empty |
| CommentsStore.CommentStore.Get | app/api/comments/route.ts:77-120 | the handler answers as the GET step on the current maps, for the hashed client IP |
| CommentsStore.CommentStore.Post | app/api/comments/route.ts:122-192 | the handler updates the maps and answers as the POST step on the validated body, and keeps every list bounded |
| ExplorerSection.ClientDetectInput | components/sections/explorer-section.tsx:82-99 | an empty query is unknown; only ETH or UNKNOWN can be a transaction; UNKNOWN is never an address |
| ExplorerSection.ClientDetectBtc | components/sections/explorer-section.tsx:90-91 | the page shows a BTC address exactly for its `1`/`3`/`bc1` shape that is not also 64 hex characters, which the earlier test takes as a transaction |
| ExplorerSection.ClientDetectLtc | components/sections/explorer-section.tsx:92 | LTC exactly for the `L`/`M`/`ltc1` shape |
| ExplorerSection.ClientDetectTron | components/sections/explorer-section.tsx:93 | TRON exactly for `T` plus 33 letters or digits |
| ExplorerSection.ClientDetectTon | components/sections/explorer-section.tsx:96 | TON exactly for `EQ`/`UQ` plus 40 to 80 base64url characters |
| ExplorerSection.ClientAgreesOnLegacyAndLowerBech32 | components/sections/explorer-section.tsx:91-92 | page and server agree on legacy BTC and LTC addresses and on lower-case bech32 addresses of a length both patterns allow |
| ExplorerSection.ClientAndServerDifferOnBech32 | components/sections/explorer-section.tsx:91 | an upper-case, short or long bech32 BTC address is BTC to the server and unknown to the page, and `bc1` followed by letters and digits outside the bech32 alphabet is BTC to the page only |
| ExplorerSection.ClientAgreesOnEthAndHex | components/sections/explorer-section.tsx:86-90 | the page and the server agree on every ETH-shaped or bare-hex query, and on which queries are ETH |
| ExplorerSection.ClientAgreesOnTron | components/sections/explorer-section.tsx:93 | the page and the server agree on TRON-shaped addresses |
| ExplorerSection.RawTonUnknownToClient | components/sections/explorer-section.tsx:96 | a raw TON address is TON to the server but unknown to the page |
| ExplorerSection.FriendlyTonOnClient | components/sections/explorer-section.tsx:96 | a `kQ` friendly address is TON to the server but unknown to the page; `EQ` and `UQ` addresses are TON to both |
| ExplorerSection.Guessed | components/sections/explorer-section.tsx:305-308 | AUTO shows the page's guess; a forced network keeps the guessed kind under the forced network |
| ExplorerSection.ForcedBadgeDiffersFromServer | components/sections/explorer-section.tsx:305-308 | the badge can differ from the server's classification: an ETH hash forced to BTC shows a transaction the server calls an address, and an unrecognised query forced to a network shows kind unknown |
| ExplorerSection.SliceFromEnd | components/sections/explorer-section.tsx:79 | `slice(-n)` is the last n characters, and the whole string for n = 0 |
| ExplorerSection.Shorten | components/sections/explorer-section.tsx:76-80 | short or empty strings are kept; for a positive tail, longer ones become head, `…`, tail |
| ExplorerSection.ShortenZeroTailGrows | components/sections/explorer-section.tsx:79 | with tail 0 the "shortened" string is longer than the input |
| ExplorerSection.ShortenCorrected | components/sections/explorer-section.tsx:76-80 | never longer than the input; keeps short strings; otherwise head, `…`, tail |
| ExplorerSection.ShortenAgreesForPositiveTail | components/sections/explorer-section.tsx:76-80 | the corrected form and the code agree whenever the tail is positive |
| ExplorerSection.Kept | components/sections/explorer-section.tsx:73 | `filter(Boolean)` keeps only non-empty class names |
| ExplorerSection.Cn | components/sections/explorer-section.tsx:72-74 | the joined class list is empty exactly when no class survives the filter |
| ExplorerSection.JoinEmpty | components/sections/explorer-section.tsx:73 | joining non-empty parts is empty exactly when there are none |
| ExplorerSection.CnAppend | components/sections/explorer-section.tsx:72-74 | a falsy extra class changes nothing; a real one is appended after a space |
| ExplorerSection.JoinLength | components/sections/explorer-section.tsx:73 | the joined length is the sum of the parts plus one separator between each neighbouring pair |
| ExplorerSection.GetCommentsKey | components/sections/explorer-section.tsx:331-335 | the address is the trimmed `normalized` of the result, or the trimmed query when that is empty or there is no result; the network is the result's, upper-cased, or `UNKNOWN` |
| ExplorerSection.SameResultSameThread | components/sections/explorer-section.tsx:331-335 | once a result carries a normalised address, the key no longer depends on what was typed: the thread follows the canonical address |
| ExplorerSection.NoResultNoComments | components/sections/explorer-section.tsx:337-371 | before any lookup result the panel neither loads nor submits comments |
| ExplorerSection.OpenedKeyIsServed | components/sections/explorer-section.tsx:337-350 | a key the panel opens with passes the server's GET check and is served under the same network and address |
| DisplayUtils.ShortAddr | app/components/utils.ts:1-5 | at most 14 characters; a dash for a missing or empty address; short ones kept; long ones become 6 characters, `…`, and the last 6 |
| DisplayUtils.ShortAddrVsShorten | app/components/utils.ts:1-5 | `shortAddr` and `shorten(s, 6, 6)` agree except on 15-character strings, which only `shortAddr` cuts |
| DisplayUtils.Fmt | app/components/utils.ts:7-11 | a non-finite number shows the dash; a finite one is formatted |
| DisplayUtils.TsToLocal | app/components/utils.ts:13-17 | a missing, zero or NaN timestamp shows the dash; any other is rendered |

## Left out

- Network I/O is not modelled: the `fetch` calls to TonAPI, BlockCypher, Tronscan, CoinGecko and the lookup/comments routes, and `tryFetchJson`. The adapters take the provider payloads as datatypes.
- The POST handler of the lookup route (app/api/lookup/route.ts:298-524) is modelled through its parts only. Its dispatch to providers, its `try`/`catch` fall-back to `mock` and its JSON envelope depend on network answers.
- The ETH branch and the BTC/LTC address branch of the lookup POST are not modelled, because they are provider calls. Of the BTC/LTC work, only `mapBlockcypherTxRefs` is modelled.
- `pickImage` and the NFT listing are not modelled, because they only probe JSON.
- Floating point is not modelled. This covers the division by 1e8, 1e9 and 1e6 into coin units, the USD prices and `usdStr`, `toFixed`, and the trailing-zero regex of both `fmt` functions. Amounts stay integers in the smallest unit.
- DisplayUtils.Fmt: rounding and formatting are left to a function parameter.
- DisplayUtils.TsToLocal: the locale's date format is left to a function parameter.
- Date parsing of `confirmed` timestamps and the `Math.floor(ts / 1000)` conversions are not modelled, because they are display only.
- `toRawTonAddress` and `toFriendlyTonAddress` (from `@ton/core`) are not part of this model. They are uninterpreted parameters.
- The salted SHA-256 `ipHash` is not part of this model; it is an uninterpreted parameter.
- `crypto.randomUUID()` and `Date.now()` are arguments, not computed.
- The Vercel KV branch of the comments GET and POST is not modelled, being an external store. Only the in-memory store is modelled.
- Concurrent requests are not modelled: each handler call is one atomic step.
- Header names are looked up exactly as written. HTTP's case-insensitive header matching is not modelled.
- The comments POST body fields are modelled as strings. A non-string JSON value (a number, an object) and the `String()` conversions are not modelled.
- An unparsable JSON body is modelled as all fields empty, which the code then rejects as missing fields.
- The URL decoding of the GET query string is not modelled. `network` and `address` arrive already decoded, or empty when absent.
- Case mapping covers ASCII letters only. Unicode case mapping (e.g. `ß` upper-casing to `SS`) is not modelled.
- Strings are sequences of code points. Lengths are bounded by `Utf16Length`, but slicing by UTF-16 code units and lone surrogates are not modelled.
- CommentsSanitize.StripScripts: states only that the result does not grow, not that no script element survives. The regex is applied once, left to right, and its `[^>]*` and lazy `[\s\S]*?` matching is modelled literally.
- CommentsSanitize.Sanitize is not idempotent. The code escapes `&` again on a second pass; `CommentsSanitize.SanitizeNotIdempotent` states the counterexample. The model follows the code.
- ExplorerSection.Shorten: the ensures describes the shortened form only for a positive tail; for tail 0 see `ExplorerSection.ShortenZeroTailGrows` and the finding below.
- CommentsStore.KeyFor is not injective when the network contains `:`. `isSafeKeyPart` admits `:`, and `CommentsStore.KeyForAmbiguous` states the collision. This is how the code behaves; it is not changed.
- The React rendering is not modelled: icons, copy buttons, collapsing sections, timers and loading state. Of explorer-section.tsx, only the lookup guess, `shorten`, `cn` and the comments key and guards are modelled.

## Findings

| source | as written | input that shows it | evidently intended | confidence | as-written member | corrected member |
|---|---|---|---|---|---|---|
| components/sections/explorer-section.tsx:79 | `s.slice(-tail)` with `tail = 0` is `s.slice(0)`, the whole string, so the "shortened" form is head, `…`, and the entire input | `shorten("abcdefghijkl", 8, 0)` gives `"abcdefgh…abcdefghijkl"`, longer than the input | an empty tail, so that the result is never longer than the input | low, not executed (no caller in the page passes tail 0) | ExplorerSection.ShortenZeroTailGrows | ExplorerSection.ShortenCorrected |
