/**
  The comment endpoint of the explorer: one comment per client IP and per
  (network, address) pair, the last 200 comments kept. The in-memory store
  is a class holding the two maps the handler mutates; `PostStep` and
  `GetStep` are the value-level description of one request, against which
  the class's methods are proved.
 */
module CommentsStore {
  import opened JsText
  import opened CommentsSanitize

  datatype Comment = Comment(id: string, createdAt: int, text: string)

  /** How many comments a key keeps. */
  const MaxKept: nat := 200
  const MaxAddressLength: nat := 200
  const MaxTextLength: nat := 500

  const MissingFields := "Missing network/address/text"
  const InvalidKeyPart := "Invalid network/address"
  const TextTooLong := "Comment too long (max 500 chars)"
  const AlreadyPosted := "You have already posted a comment."
  const MissingQuery := "Missing network or address"

  /* ---------------------------------------------------------------- keys */

  predicate IsKeyChar(c: char) {
    IsAlnum(c) || c == ':' || c == '_' || c == '-' || c == '.'
  }

  /** `isSafeKeyPart`: two to eighty characters, each a letter of either
      case, a digit or one of `: _ - .`. */
  predicate IsSafeKeyPart(s: string) {
    2 <= |s| <= 80 && forall i :: 0 <= i < |s| ==> IsKeyChar(s[i])
  }

  /** The pattern is case-insensitive, so upper-casing the network first
      neither admits nor rejects anything. */
  lemma SafeKeyPartIgnoresCase(s: string)
    ensures IsSafeKeyPart(Upper(s)) <==> IsSafeKeyPart(s)
  {
    forall i | 0 <= i < |s|
      ensures IsKeyChar(Upper(s)[i]) <==> IsKeyChar(s[i])
    {
      assert Upper(s)[i] == UpperChar(s[i]);
    }
  }

  function KeyFor(network: string, address: string): (k: string)
    ensures |k| == 10 + |network| + |address|
  {
    "comments:" + network + ":" + address
  }

  function IpKeyFor(network: string, address: string): (k: string)
    ensures |k| == 12 + |network| + |address|
  {
    "commentips:" + network + ":" + address
  }

  /** The comment list and the IP set of a pair never share a key. */
  lemma KeysDisjoint(n1: string, a1: string, n2: string, a2: string)
    ensures KeyFor(n1, a1) != IpKeyFor(n2, a2)
  {
    assert KeyFor(n1, a1)[7] == 's';
    assert IpKeyFor(n2, a2)[7] == 'i';
  }

  /** With no `:` in the network, a key names exactly one pair. */
  lemma KeyForInjective(n1: string, a1: string, n2: string, a2: string)
    requires ':' !in n1 && ':' !in n2
    requires KeyFor(n1, a1) == KeyFor(n2, a2)
    ensures n1 == n2 && a1 == a2
  {
    var t1, t2 := n1 + ":" + a1, n2 + ":" + a2;
    assert t1 == KeyFor(n1, a1)[9..] && t2 == KeyFor(n2, a2)[9..];
    assert t1[|n1|] == ':' && forall i :: 0 <= i < |n1| ==> t1[i] == n1[i];
    assert t2[|n2|] == ':' && forall i :: 0 <= i < |n2| ==> t2[i] == n2[i];
    assert IndexOf(t1, ':') == |n1| && IndexOf(t2, ':') == |n2|;
    assert n1 == t1[..|n1|] && n2 == t2[..|n2|];
    assert a1 == t1[|n1| + 1..] && a2 == t2[|n2| + 1..];
  }

  /** A safe network may contain `:`, and then two different pairs share
      one key: the thread of `A:B` / `C` is the thread of `A` / `B:C`. */
  lemma KeyForAmbiguous(n: string, m: string, a: string)
    ensures KeyFor(n + ":" + m, a) == KeyFor(n, m + ":" + a)
    ensures IpKeyFor(n + ":" + m, a) == IpKeyFor(n, m + ":" + a)
  {
    calc {
      KeyFor(n + ":" + m, a);
      "comments:" + n + ":" + m + ":" + a;
      KeyFor(n, m + ":" + a);
    }
    calc {
      IpKeyFor(n + ":" + m, a);
      "commentips:" + n + ":" + m + ":" + a;
      IpKeyFor(n, m + ":" + a);
    }
  }

  /* ---------------------------------------------------------- client IP */

  /** A request header, `""` when absent; names are given in lower case. */
  function Header(headers: map<string, string>, name: string): string {
    if name in headers then headers[name] else ""
  }

  const LocalIp := "127.0.0.1"

  /** `ipFrom`: the first non-empty of the two forwarded-for headers gives
      its first comma-separated entry, trimmed; otherwise the first
      non-empty of the two single-address headers, trimmed; otherwise the
      loopback address. */
  function IpFrom(headers: map<string, string>): (ip: string)
    ensures Trimmed(ip)
    ensures Header(headers, "x-forwarded-for") != "" ==>
      ip == Trim(FirstField(Header(headers, "x-forwarded-for"), ','))
    ensures Header(headers, "x-forwarded-for") == "" && Header(headers, "x-vercel-forwarded-for") != "" ==>
      ip == Trim(FirstField(Header(headers, "x-vercel-forwarded-for"), ','))
    ensures (Header(headers, "x-forwarded-for") == "" && Header(headers, "x-vercel-forwarded-for") == "" &&
             Header(headers, "cf-connecting-ip") != "") ==>
      ip == Trim(Header(headers, "cf-connecting-ip"))
    ensures (Header(headers, "x-forwarded-for") == "" && Header(headers, "x-vercel-forwarded-for") == "" &&
             Header(headers, "cf-connecting-ip") == "" && Header(headers, "x-real-ip") != "") ==>
      ip == Trim(Header(headers, "x-real-ip"))
    ensures (Header(headers, "x-forwarded-for") == "" && Header(headers, "x-vercel-forwarded-for") == "" &&
             Header(headers, "cf-connecting-ip") == "" && Header(headers, "x-real-ip") == "") ==>
      ip == LocalIp
  {
    var xf := Header(headers, "x-forwarded-for");
    var xv := Header(headers, "x-vercel-forwarded-for");
    var cf := Header(headers, "cf-connecting-ip");
    var xr := Header(headers, "x-real-ip");
    if xf != "" then Trim(FirstField(xf, ','))
    else if xv != "" then Trim(FirstField(xv, ','))
    else if cf != "" then Trim(cf)
    else if xr != "" then Trim(xr)
    else LocalIp
  }

  /** A non-empty `x-forwarded-for` decides the IP whatever else is sent,
      and the IP it gives holds no comma. */
  lemma ForwardedForWins(headers: map<string, string>, v: string)
    requires v != ""
    ensures IpFrom(headers["x-forwarded-for" := v]) == Trim(FirstField(v, ','))
    ensures ',' !in IpFrom(headers["x-forwarded-for" := v])
  {
    var ip := Trim(FirstField(v, ','));
    assert forall c :: c in ip ==> c in FirstField(v, ',');
  }

  /** Headers other than the four consulted do not change the IP. */
  lemma IpFromIgnoresOtherHeaders(headers: map<string, string>, name: string, v: string)
    requires name !in {"x-forwarded-for", "x-vercel-forwarded-for", "cf-connecting-ip", "x-real-ip"}
    ensures IpFrom(headers[name := v]) == IpFrom(headers)
  {
    var h := headers[name := v];
    assert Header(h, "x-forwarded-for") == Header(headers, "x-forwarded-for");
    assert Header(h, "x-vercel-forwarded-for") == Header(headers, "x-vercel-forwarded-for");
    assert Header(h, "cf-connecting-ip") == Header(headers, "cf-connecting-ip");
    assert Header(h, "x-real-ip") == Header(headers, "x-real-ip");
  }

  /** With none of the four headers present the client is the loopback address. */
  lemma IpFromDefault(headers: map<string, string>)
    requires forall name :: name in headers ==> name !in {"x-forwarded-for", "x-vercel-forwarded-for", "cf-connecting-ip", "x-real-ip"}
    ensures IpFrom(headers) == LocalIp
  {
    assert "x-forwarded-for" !in headers;
    assert "x-vercel-forwarded-for" !in headers;
    assert "cf-connecting-ip" !in headers;
    assert "x-real-ip" !in headers;
  }

  /* --------------------------------------------------------- validation */

  /** The fields of a POST body; a missing field is `""`. */
  datatype PostBody = PostBody(network: string, address: string, text: string)

  datatype Validation =
    | Rejected(error: string)
    | Accepted(network: string, address: string, text: string)

  /** The checks of a POST, in the order the handler makes them. */
  function Validate(body: PostBody): (v: Validation)
    ensures v.Accepted? ==>
      && v.network == Upper(body.network) && IsSafeKeyPart(v.network)
      && v.address == Trim(body.address) && v.address != ""
      && Utf16Length(v.address) <= MaxAddressLength
      && v.text == Sanitize(body.text) && v.text != ""
      && Utf16Length(v.text) <= MaxTextLength
    ensures v.Rejected? ==> v.error in {MissingFields, InvalidKeyPart, TextTooLong}
  {
    var network := Upper(body.network);
    var address := Trim(body.address);
    var text := Sanitize(body.text);
    if network == "" || address == "" || text == "" then Rejected(MissingFields)
    else if !IsSafeKeyPart(network) || Utf16Length(address) > MaxAddressLength then Rejected(InvalidKeyPart)
    else if Utf16Length(text) > MaxTextLength then Rejected(TextTooLong)
    else Accepted(network, address, text)
  }

  /** Which error a rejected body gets: an empty field is reported before
      an unsafe key, and an unsafe key before an over-long text. Every body
      passing the three checks is accepted. */
  lemma ValidationOrder(body: PostBody)
    ensures body.network == "" || Trim(body.address) == "" || Sanitize(body.text) == ""
      ==> Validate(body) == Rejected(MissingFields)
    ensures body.network != "" && Trim(body.address) != "" && Sanitize(body.text) != ""
      && (!IsSafeKeyPart(body.network) || Utf16Length(Trim(body.address)) > MaxAddressLength)
      ==> Validate(body) == Rejected(InvalidKeyPart)
    ensures body.network != "" && IsSafeKeyPart(body.network) && Trim(body.address) != ""
      && Utf16Length(Trim(body.address)) <= MaxAddressLength
      && Sanitize(body.text) != "" && Utf16Length(Sanitize(body.text)) > MaxTextLength
      ==> Validate(body) == Rejected(TextTooLong)
    ensures body.network != "" && IsSafeKeyPart(body.network) && Trim(body.address) != ""
      && Utf16Length(Trim(body.address)) <= MaxAddressLength
      && Sanitize(body.text) != "" && Utf16Length(Sanitize(body.text)) <= MaxTextLength
      ==> Validate(body).Accepted?
  {
    SafeKeyPartIgnoresCase(body.network);
  }

  /** An accepted comment is safe to embed in HTML. */
  lemma AcceptedTextIsSafe(body: PostBody)
    requires Validate(body).Accepted?
    ensures var t := Validate(body).text;
      && (forall i :: 0 <= i < |t| ==> !IsMarkupChar(t[i]) && !IsStrippedControl(t[i]))
      && AmpersandsAreEntities(t)
  {
    SanitizeIsSafe(body.text);
  }

  /* -------------------------------------------------------------- store */

  /** The two in-memory maps: key to comment list, IP key to the set of
      IP hashes that have posted. */
  datatype Store = Store(comments: map<string, seq<Comment>>, ips: map<string, set<string>>)

  function CommentsAt(st: Store, k: string): seq<Comment> {
    if k in st.comments then st.comments[k] else []
  }

  function IpsAt(st: Store, ik: string): set<string> {
    if ik in st.ips then st.ips[ik] else {}
  }

  /** Every list holds at most `MaxKept` comments. */
  predicate Bounded(st: Store) {
    forall k :: k in st.comments ==> |st.comments[k]| <= MaxKept
  }

  /** `list.slice(-n)` for a positive `n`: the last `n` entries, or all of them. */
  function KeepLast(s: seq<Comment>, n: nat): (r: seq<Comment>)
    requires n > 0
    ensures |r| == if |s| <= n then |s| else n
    ensures s == s[..|s| - |r|] + r
  {
    if |s| <= n then s else s[|s| - n..]
  }

  datatype PostResponse =
    | PostFailed(status: nat, error: string)
    | PostOk(comment: Comment, comments: seq<Comment>, canPost: bool)

  datatype GetResponse =
    | GetFailed(status: nat, error: string)
    | GetOk(network: string, address: string, canPost: bool, comments: seq<Comment>)

  /** One POST against the in-memory store, given the outcome `v` of
      validating its body, for a client whose salted IP hash is `ih`; `id`
      and `now` are the fresh identifier and the clock. */
  function PostStep(st: Store, v: Validation, ih: string, id: string, now: int): (res: (Store, PostResponse))
  {
    match v
    case Rejected(e) => (st, PostFailed(400, e))
    case Accepted(network, address, text) =>
      var k, ik := KeyFor(network, address), IpKeyFor(network, address);
      if ih in IpsAt(st, ik) then (st, PostFailed(403, AlreadyPosted))
      else
        var c := Comment(id, now, text);
        var list := KeepLast(CommentsAt(st, k) + [c], MaxKept);
        (Store(st.comments[k := list], st.ips[ik := IpsAt(st, ik) + {ih}]), PostOk(c, list, false))
  }

  /** One GET: reads the list and whether this client may still post. */
  function GetStep(st: Store, rawNetwork: string, rawAddress: string, ih: string): (r: GetResponse)
    ensures r.GetFailed? <==> rawNetwork == "" || Trim(rawAddress) == ""
    ensures r.GetOk? ==> r.network == Upper(rawNetwork) && r.address == Trim(rawAddress)
    ensures r.GetOk? ==> r.canPost == (ih !in IpsAt(st, IpKeyFor(r.network, r.address)))
    ensures r.GetOk? ==> r.comments == CommentsAt(st, KeyFor(r.network, r.address))
  {
    var network := Upper(rawNetwork);
    var address := Trim(rawAddress);
    if network == "" || address == "" then GetFailed(400, MissingQuery)
    else
      var ik := IpKeyFor(network, address);
      GetOk(network, address, ih !in IpsAt(st, ik), CommentsAt(st, KeyFor(network, address)))
  }

  /** A rejected POST changes neither map; 400 means the body failed
      validation, 403 that this client already posted on the pair. */
  lemma PostFailureChangesNothing(st: Store, v: Validation, ih: string, id: string, now: int)
    ensures var (st', r) := PostStep(st, v, ih, id, now);
      && (r.PostFailed? ==> st' == st)
      && (r.PostFailed? && r.status == 400 <==> v.Rejected?)
      && (r.PostFailed? && r.status == 403 <==> v.Accepted? && ih in IpsAt(st, IpKeyFor(v.network, v.address)))
  {
  }

  /** Appending to a kept list: the new entry is last, and before it
      stand the most recent earlier entries. */
  lemma KeepLastAppend(s: seq<Comment>, c: Comment)
    ensures var r := KeepLast(s + [c], MaxKept);
      && 1 <= |r| <= MaxKept && r[|r| - 1] == c
      && r[..|r| - 1] == s[|s| + 1 - |r|..]
  {
    var full := s + [c];
    var r := KeepLast(full, MaxKept);
    assert full == full[..|full| - |r|] + r;
    assert r[|r| - 1] == full[|full| - 1] == c;
    assert r[..|r| - 1] == full[|full| - |r|..|full| - 1];
    assert full[..|full| - 1] == s;
  }

  /** The store and the response after a successful POST. */
  lemma PostOkStep(st: Store, v: Validation, ih: string, id: string, now: int)
    requires PostStep(st, v, ih, id, now).1.PostOk?
    ensures v.Accepted?
    ensures var k, ik := KeyFor(v.network, v.address), IpKeyFor(v.network, v.address);
      var c := Comment(id, now, v.text);
      var list := KeepLast(CommentsAt(st, k) + [c], MaxKept);
      && ih !in IpsAt(st, ik)
      && PostStep(st, v, ih, id, now) ==
           (Store(st.comments[k := list], st.ips[ik := IpsAt(st, ik) + {ih}]), PostOk(c, list, false))
  {
  }

  /** A successful POST answers with the new comment, the list now
      stored for the pair (the last `MaxKept` of the old list and the
      comment: see `KeepLastAppend`), and says that this client may not
      post again. */
  lemma PostSuccess(st: Store, v: Validation, ih: string, id: string, now: int)
    requires PostStep(st, v, ih, id, now).1.PostOk?
    ensures var st', r := PostStep(st, v, ih, id, now).0, PostStep(st, v, ih, id, now).1;
      var k := KeyFor(v.network, v.address);
      && r.comment == Comment(id, now, v.text) && !r.canPost
      && r.comments == CommentsAt(st', k) == KeepLast(CommentsAt(st, k) + [r.comment], MaxKept)
  {
    PostOkStep(st, v, ih, id, now);
  }

  /** A successful POST records the client on its pair and changes no
      other key of either map. */
  lemma PostSuccessFrame(st: Store, v: Validation, ih: string, id: string, now: int)
    requires PostStep(st, v, ih, id, now).1.PostOk?
    ensures var st' := PostStep(st, v, ih, id, now).0;
      var k, ik := KeyFor(v.network, v.address), IpKeyFor(v.network, v.address);
      && ih !in IpsAt(st, ik) && IpsAt(st', ik) == IpsAt(st, ik) + {ih}
      && (forall k' :: k' != k ==> CommentsAt(st', k') == CommentsAt(st, k'))
      && (forall ik' :: ik' != ik ==> IpsAt(st', ik') == IpsAt(st, ik'))
  {
    PostOkStep(st, v, ih, id, now);
    var k, ik := KeyFor(v.network, v.address), IpKeyFor(v.network, v.address);
    var list := KeepLast(CommentsAt(st, k) + [Comment(id, now, v.text)], MaxKept);
    var st' := Store(st.comments[k := list], st.ips[ik := IpsAt(st, ik) + {ih}]);
    assert PostStep(st, v, ih, id, now).0 == st';
    assert IpsAt(st', ik) == IpsAt(st, ik) + {ih};
    forall k' | k' != k ensures CommentsAt(st', k') == CommentsAt(st, k') {
    }
    forall ik' | ik' != ik ensures IpsAt(st', ik') == IpsAt(st, ik') {
    }
  }

  /** The store stays bounded. */
  lemma PostKeepsBounded(st: Store, v: Validation, ih: string, id: string, now: int)
    requires Bounded(st)
    ensures Bounded(PostStep(st, v, ih, id, now).0)
  {
  }

  /** One comment per client and pair: once a POST succeeds, the same
      client's next POST to the same pair is refused with 403. */
  lemma PostOncePerClient(st: Store, v: Validation, v2: Validation, ih: string, id: string, now: int, id2: string, now2: int)
    requires PostStep(st, v, ih, id, now).1.PostOk?
    requires v2.Accepted? && v2.network == v.network && v2.address == v.address
    ensures PostStep(PostStep(st, v, ih, id, now).0, v2, ih, id2, now2) ==
      (PostStep(st, v, ih, id, now).0, PostFailed(403, AlreadyPosted))
  {
    PostSuccessFrame(st, v, ih, id, now);
  }

  /** After a successful POST, a GET by the same client for the same pair
      (any spelling that normalises to it, the POST's own fields among
      them: an accepted body has a non-empty network and address) shows the stored list, which ends with the new comment, and no
      longer offers to post. */
  lemma GetAfterPost(st: Store, v: Validation, ih: string, id: string, now: int, rawNetwork: string, rawAddress: string)
    requires PostStep(st, v, ih, id, now).1.PostOk?
    requires v.network != "" && v.address != ""
    requires Upper(rawNetwork) == v.network && Trim(rawAddress) == v.address
    ensures var st', r := PostStep(st, v, ih, id, now).0, PostStep(st, v, ih, id, now).1;
      GetStep(st', rawNetwork, rawAddress, ih) == GetOk(v.network, v.address, false, r.comments)
  {
    PostSuccess(st, v, ih, id, now);
    PostSuccessFrame(st, v, ih, id, now);
    var st' := PostStep(st, v, ih, id, now).0;
    assert ih in IpsAt(st', IpKeyFor(v.network, v.address));
  }

  /** The in-memory store. */
  class CommentStore {
    var comments: map<string, seq<Comment>>
    var ips: map<string, set<string>>

    constructor ()
      ensures comments == map[] && ips == map[]
    {
      comments := map[];
      ips := map[];
    }

    /** The in-memory branch of GET; `ipHash` is the salted SHA-256 of an IP. */
    method Get(rawNetwork: string, rawAddress: string, headers: map<string, string>, ipHash: string -> string)
      returns (r: GetResponse)
      ensures r == GetStep(Store(comments, ips), rawNetwork, rawAddress, ipHash(IpFrom(headers)))
    {
      var network := Upper(rawNetwork);
      var address := Trim(rawAddress);
      if network == "" || address == "" {
        return GetFailed(400, MissingQuery);
      }
      var ih := ipHash(IpFrom(headers));
      var k := KeyFor(network, address);
      var ik := IpKeyFor(network, address);
      var list := if k in comments then comments[k] else [];
      var clients := if ik in ips then ips[ik] else {};
      r := GetOk(network, address, ih !in clients, list);
    }

    /** The in-memory branch of POST. */
    method Post(body: PostBody, headers: map<string, string>, ipHash: string -> string, id: string, now: int)
      returns (r: PostResponse)
      modifies this
      ensures (Store(comments, ips), r) == PostStep(Store(old(comments), old(ips)), Validate(body), ipHash(IpFrom(headers)), id, now)
      ensures Bounded(Store(old(comments), old(ips))) ==> Bounded(Store(comments, ips))
    {
      var v := Validate(body);
      if v.Rejected? {
        return PostFailed(400, v.error);
      }
      var ih := ipHash(IpFrom(headers));
      var k := KeyFor(v.network, v.address);
      var ik := IpKeyFor(v.network, v.address);
      var clients := if ik in ips then ips[ik] else {};
      if ih in clients {
        return PostFailed(403, AlreadyPosted);
      }
      clients := clients + {ih};
      ips := ips[ik := clients];
      var c := Comment(id, now, v.text);
      var list := if k in comments then comments[k] else [];
      list := list + [c];
      comments := comments[k := KeepLast(list, MaxKept)];
      r := PostOk(c, comments[k], false);
    }
  }
}
