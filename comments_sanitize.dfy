/**
  `sanitizePlainText` of the comments endpoint (app/api/comments/route.ts):
  control characters, `<script>` elements and tags are removed, the rest
  trimmed, and the five HTML-significant characters escaped. Each regular
  expression is written out as the scan its global `replace` performs:
  at each position the leftmost match is removed and the scan resumes
  after it; where nothing matches, one character is kept.
 */
module CommentsSanitize {
  import opened JsText

  /** `[\u0000-\u0008\u000B\u000C\u000E-\u001F\u007F]`: the C0 controls
      other than tab, line feed and carriage return, and DEL. */
  predicate IsStrippedControl(c: char) {
    c <= '\U{8}' || c == '\U{B}' || c == '\U{C}' || ('\U{E}' <= c <= '\U{1F}') || c == '\U{7F}'
  }

  /** `replace(/[\u0000-…]/g, "")`: every stripped control goes, every
      other character stays. */
  function StripControl(s: string): (r: string)
    ensures |r| <= |s|
    ensures forall i :: 0 <= i < |r| ==> !IsStrippedControl(r[i]) && r[i] in s
    ensures forall i :: 0 <= i < |s| && !IsStrippedControl(s[i]) ==> s[i] in r
  {
    if s == [] then []
    else
      var rest := StripControl(s[1..]);
      assert forall i :: 1 <= i < |s| ==> s[i] == s[1..][i - 1];
      if IsStrippedControl(s[0]) then rest else [s[0]] + rest
  }

  /** Stripping works character by character: it distributes over
      concatenation, and on one character it keeps exactly the
      non-controls, so the kept characters stay in their order. */
  lemma {:induction false} StripControlConcat(a: string, b: string)
    ensures StripControl(a + b) == StripControl(a) + StripControl(b)
  {
    if a == [] {
      assert a + b == b;
    } else {
      assert (a + b)[0] == a[0] && (a + b)[1..] == a[1..] + b;
      StripControlConcat(a[1..], b);
      if !IsStrippedControl(a[0]) {
        assert [a[0]] + (StripControl(a[1..]) + StripControl(b)) == ([a[0]] + StripControl(a[1..])) + StripControl(b);
      }
    }
  }

  lemma StripControlChar(c: char)
    ensures StripControl([c]) == (if IsStrippedControl(c) then [] else [c])
  {
    assert [c][1..] == [];
  }

  /** The length of the leading run of `\s` characters. */
  function SkipWhite(t: string): (n: nat)
    ensures n <= |t|
    ensures forall i :: 0 <= i < n ==> IsWhite(t[i])
    ensures n < |t| ==> !IsWhite(t[n])
  {
    if t != [] && IsWhite(t[0]) then 1 + SkipWhite(t[1..]) else 0
  }

  /** `t` starts with `w`, ignoring ASCII case (the `i` flag). */
  predicate StartsWithWord(t: string, w: string) {
    |w| <= |t| && Lower(t[..|w|]) == w
  }

  /** `<\s*script[^>]*>` at the start of `t`: the length of the opening
      tag, which ends at the first `>` after the word. */
  function ScriptOpenLen(t: string): (r: Option<nat>)
    ensures r.Some? ==> 0 < r.value <= |t| && t[0] == '<' && t[r.value - 1] == '>'
  {
    if t == [] || t[0] != '<' then None
    else
      var p := 1 + SkipWhite(t[1..]);
      if !StartsWithWord(t[p..], "script") then None
      else
        var q := p + 6;
        var g := IndexOf(t[q..], '>');
        if q + g < |t| then Some(q + g + 1) else None
  }

  /** `<\s*\/\s*script\s*>` at the start of `t`: the length of the closing tag. */
  function ScriptCloseLen(t: string): (r: Option<nat>)
    ensures r.Some? ==> 0 < r.value <= |t| && t[0] == '<'
  {
    if t == [] || t[0] != '<' then None
    else
      var p := 1 + SkipWhite(t[1..]);
      if p >= |t| || t[p] != '/' then None
      else
        var q := p + 1 + SkipWhite(t[p + 1..]);
        if !StartsWithWord(t[q..], "script") then None
        else
          var e := q + 6 + SkipWhite(t[q + 6..]);
          if e < |t| && t[e] == '>' then Some(e + 1) else None
  }

  /** `[\s\S]*?` followed by a closing tag: the length up to the end of the
      first closing tag in `t`, the lazy quantifier taking the shortest run. */
  function ThroughFirstClose(t: string): (r: Option<nat>)
    ensures r.Some? ==> 0 < r.value <= |t|
  {
    if t == [] then None
    else
      match ScriptCloseLen(t)
      case Some(n) => Some(n)
      case None =>
        match ThroughFirstClose(t[1..])
        case Some(m) => Some(m + 1)
        case None => None
  }

  /** A whole script element at the start of `t`. */
  function ScriptElementLen(t: string): (r: Option<nat>)
    ensures r.Some? ==> 0 < r.value <= |t| && t[0] == '<'
  {
    match ScriptOpenLen(t)
    case None => None
    case Some(o) =>
      match ThroughFirstClose(t[o..])
      case None => None
      case Some(c) => Some(o + c)
  }

  /** `replace(/<\s*script[^>]*>[\s\S]*?<\s*\/\s*script\s*>/gi, "")`. */
  function StripScripts(s: string): (r: string)
    ensures |r| <= |s|
    ensures forall i :: 0 <= i < |r| ==> r[i] in s
    decreases |s|
  {
    if s == [] then []
    else
      match ScriptElementLen(s)
      case Some(n) => StripScripts(s[n..])
      case None => [s[0]] + StripScripts(s[1..])
  }

  /** `<[^>]*>` at the start of `t`: from `<` to the first `>` after it. */
  function TagLen(t: string): (r: Option<nat>)
    ensures r.Some? ==> 0 < r.value <= |t|
  {
    if t == [] || t[0] != '<' then None
    else
      var g := IndexOf(t[1..], '>');
      if g < |t| - 1 then Some(g + 2) else None
  }

  /** No `<` is followed, anywhere later, by a `>`: nothing tag-shaped is left. */
  predicate NoClosedTag(r: string) {
    forall i, j :: 0 <= i < j < |r| && r[i] == '<' ==> r[j] != '>'
  }

  /** `replace(/<[^>]*>/g, "")`: every `<` with a `>` after it opens a tag
      that is removed, so what is left holds no tag. */
  function StripTags(s: string): (r: string)
    ensures |r| <= |s|
    ensures forall i :: 0 <= i < |r| ==> r[i] in s
    ensures NoClosedTag(r)
    decreases |s|
  {
    if s == [] then []
    else
      match TagLen(s)
      case Some(n) => StripTags(s[n..])
      case None =>
        var rest := StripTags(s[1..]);
        assert s[0] == '<' ==> '>' !in s[1..] by {
          if s[0] == '<' {
            var g := IndexOf(s[1..], '>');
            assert g >= |s| - 1;
          }
        }
        assert forall j :: 0 <= j < |rest| ==> rest[j] in s[1..];
        [s[0]] + rest
  }

  /** Text without any markup-opening character is left alone by both removals. */
  lemma {:induction false} NoAngleUntouched(s: string)
    requires '<' !in s
    ensures StripScripts(s) == s && StripTags(s) == s
  {
    if s != [] {
      NoAngleUntouched(s[1..]);
    }
  }

  /** `s.replace(/c/g, rep)`. */
  function ReplaceWith(s: string, c: char, rep: string): (r: string)
    ensures c !in rep ==> c !in r
  {
    if s == [] then [] else (if s[0] == c then rep else [s[0]]) + ReplaceWith(s[1..], c, rep)
  }

  lemma {:induction false} ReplaceWithConcat(a: string, b: string, c: char, rep: string)
    ensures ReplaceWith(a + b, c, rep) == ReplaceWith(a, c, rep) + ReplaceWith(b, c, rep)
  {
    if a != [] {
      var h := if a[0] == c then rep else [a[0]];
      assert (a + b)[0] == a[0] && (a + b)[1..] == a[1..] + b;
      ReplaceWithConcat(a[1..], b, c, rep);
      calc {
        ReplaceWith(a + b, c, rep);
        h + ReplaceWith(a[1..] + b, c, rep);
        h + (ReplaceWith(a[1..], c, rep) + ReplaceWith(b, c, rep));
        (h + ReplaceWith(a[1..], c, rep)) + ReplaceWith(b, c, rep);
      }
    } else {
      assert a + b == b;
    }
  }

  /** The five escaping passes, in the order the source applies them. */
  function EscapeHtml(s: string): string {
    ReplaceWith(ReplaceWith(ReplaceWith(ReplaceWith(ReplaceWith(
      s, '&', "&amp;"), '<', "&lt;"), '>', "&gt;"), '"', "&quot;"), '\'', "&#39;")
  }

  predicate IsMarkupChar(c: char) { c == '<' || c == '>' || c == '"' || c == '\'' }

  /** The entity of one character. */
  function EscapeChar(c: char): (r: string)
    ensures |r| >= 1
    ensures !IsMarkupChar(c) && c != '&' ==> r == [c]
  {
    if c == '&' then "&amp;"
    else if c == '<' then "&lt;"
    else if c == '>' then "&gt;"
    else if c == '"' then "&quot;"
    else if c == '\'' then "&#39;"
    else [c]
  }

  /** A single left-to-right pass that replaces every character by its entity. */
  function EscapeOnce(s: string): (r: string)
    ensures |r| >= |s|
    ensures forall i :: 0 <= i < |r| ==> !IsMarkupChar(r[i])
  {
    if s == [] then [] else EscapeChar(s[0]) + EscapeOnce(s[1..])
  }

  lemma EscapeHtmlConcat(a: string, b: string)
    ensures EscapeHtml(a + b) == EscapeHtml(a) + EscapeHtml(b)
  {
    var a1, b1 := ReplaceWith(a, '&', "&amp;"), ReplaceWith(b, '&', "&amp;");
    ReplaceWithConcat(a, b, '&', "&amp;");
    var a2, b2 := ReplaceWith(a1, '<', "&lt;"), ReplaceWith(b1, '<', "&lt;");
    ReplaceWithConcat(a1, b1, '<', "&lt;");
    var a3, b3 := ReplaceWith(a2, '>', "&gt;"), ReplaceWith(b2, '>', "&gt;");
    ReplaceWithConcat(a2, b2, '>', "&gt;");
    var a4, b4 := ReplaceWith(a3, '"', "&quot;"), ReplaceWith(b3, '"', "&quot;");
    ReplaceWithConcat(a3, b3, '"', "&quot;");
    ReplaceWithConcat(a4, b4, '\'', "&#39;");
  }

  /** The later passes never touch an entity written by an earlier one, so
      the five passes escape each character exactly once. */
  lemma {:induction false} EscapeHtmlIsEscapeOnce(s: string)
    ensures EscapeHtml(s) == EscapeOnce(s)
  {
    if s != [] {
      assert s == [s[0]] + s[1..];
      EscapeHtmlConcat([s[0]], s[1..]);
      EscapeHtmlIsEscapeOnce(s[1..]);
      EscapeHtmlChar(s[0]);
    }
  }

  /** The five passes on one character. */
  lemma EscapeHtmlChar(c: char)
    ensures EscapeHtml([c]) == EscapeChar(c)
  {
    var s1 := ReplaceWith([c], '&', "&amp;");
    ReplaceWithSingle(c, '&', "&amp;");
    if c == '&' {
      assert s1[0] == '&' && s1[1] == 'a' && s1[2] == 'm' && s1[3] == 'p' && s1[4] == ';';
      MarkupPassesKeep(s1);
    } else {
      LaterPassesOnChar(c);
    }
  }

  /** The four markup passes on a character other than `&`. */
  lemma LaterPassesOnChar(c: char)
    requires c != '&'
    ensures ReplaceWith(ReplaceWith(ReplaceWith(ReplaceWith(
      [c], '<', "&lt;"), '>', "&gt;"), '"', "&quot;"), '\'', "&#39;") == EscapeChar(c)
  {
    var s2 := ReplaceWith([c], '<', "&lt;");
    ReplaceWithSingle(c, '<', "&lt;");
    if c == '<' {
      assert s2[0] == '&' && s2[1] == 'l' && s2[2] == 't' && s2[3] == ';';
      MarkupPassesKeep(s2);
      return;
    }
    var s3 := ReplaceWith(s2, '>', "&gt;");
    ReplaceWithSingle(c, '>', "&gt;");
    if c == '>' {
      assert s3[0] == '&' && s3[1] == 'g' && s3[2] == 't' && s3[3] == ';';
      MarkupPassesKeep(s3);
      return;
    }
    var s4 := ReplaceWith(s3, '"', "&quot;");
    ReplaceWithSingle(c, '"', "&quot;");
    if c == '"' {
      assert s4[0] == '&' && s4[1] == 'q' && s4[2] == 'u' && s4[3] == 'o' && s4[4] == 't' && s4[5] == ';';
      MarkupPassesKeep(s4);
      return;
    }
    ReplaceWithSingle(c, '\'', "&#39;");
  }

  /** The markup passes leave a text without markup characters alone. */
  lemma MarkupPassesKeep(s: string)
    requires forall i :: 0 <= i < |s| ==> !IsMarkupChar(s[i])
    ensures ReplaceWith(s, '<', "&lt;") == s && ReplaceWith(s, '>', "&gt;") == s
    ensures ReplaceWith(s, '"', "&quot;") == s && ReplaceWith(s, '\'', "&#39;") == s
  {
    ReplaceWithAbsent(s, '<', "&lt;");
    ReplaceWithAbsent(s, '>', "&gt;");
    ReplaceWithAbsent(s, '"', "&quot;");
    ReplaceWithAbsent(s, '\'', "&#39;");
  }

  lemma ReplaceWithSingle(c: char, x: char, rep: string)
    ensures ReplaceWith([c], x, rep) == if c == x then rep else [c]
  {
    assert [c][1..] == [];
  }

  /** A pass for a character the text does not contain changes nothing. */
  lemma {:induction false} ReplaceWithAbsent(s: string, c: char, rep: string)
    requires c !in s
    ensures ReplaceWith(s, c, rep) == s
  {
    if s != [] {
      ReplaceWithAbsent(s[1..], c, rep);
    }
  }

  /** Reads the five entities back. */
  function Unescape(t: string): string
    decreases |t|
  {
    if t == [] then []
    else if "&amp;" <= t then "&" + Unescape(t[5..])
    else if "&lt;" <= t then "<" + Unescape(t[4..])
    else if "&gt;" <= t then ">" + Unescape(t[4..])
    else if "&quot;" <= t then "\"" + Unescape(t[6..])
    else if "&#39;" <= t then "'" + Unescape(t[5..])
    else [t[0]] + Unescape(t[1..])
  }

  /** Escaping loses nothing: the text the user wrote is recovered from
      the stored text. */
  lemma {:induction false} UnescapeEscape(s: string)
    ensures Unescape(EscapeOnce(s)) == s
  {
    if s != [] {
      UnescapeEscape(s[1..]);
      UnescapeEscapedChar(s[0], EscapeOnce(s[1..]));
    }
  }

  /** An escaped character is read back, and reading resumes right after it. */
  lemma UnescapeEscapedChar(c: char, e: string)
    ensures Unescape(EscapeChar(c) + e) == [c] + Unescape(e)
  {
    var h := EscapeChar(c);
    var t := h + e;
    assert t[..|h|] == h && t[|h|..] == e;
    if c == '&' {
      assert "&amp;" <= t;
    } else if c == '<' {
      assert t[1] == 'l' && "&lt;" <= t;
    } else if c == '>' {
      assert t[1] == 'g' && "&gt;" <= t;
    } else if c == '"' {
      assert t[1] == 'q' && "&quot;" <= t;
    } else if c == '\'' {
      assert t[1] == '#' && "&#39;" <= t;
    } else {
      assert t[0] == c;
    }
  }

  predicate StartsEntity(t: string) {
    "&amp;" <= t || "&lt;" <= t || "&gt;" <= t || "&quot;" <= t || "&#39;" <= t
  }

  /** Every `&` begins one of the five entities. */
  predicate AmpersandsAreEntities(r: string) {
    forall i :: 0 <= i < |r| && r[i] == '&' ==> StartsEntity(r[i..])
  }

  lemma AmpersandsConcat(a: string, b: string)
    requires AmpersandsAreEntities(a) && AmpersandsAreEntities(b)
    ensures AmpersandsAreEntities(a + b)
  {
    forall i | 0 <= i < |a + b| && (a + b)[i] == '&'
      ensures StartsEntity((a + b)[i..])
    {
      if i < |a| {
        assert (a + b)[i..] == a[i..] + b;
        assert StartsEntity(a[i..]);
      } else {
        assert (a + b)[i..] == b[i - |a|..];
      }
    }
  }

  lemma {:induction false} EscapeOnceAmpersands(s: string)
    ensures AmpersandsAreEntities(EscapeOnce(s))
  {
    if s != [] {
      var c := EscapeChar(s[0]);
      EscapeCharAmpersands(s[0]);
      EscapeOnceAmpersands(s[1..]);
      AmpersandsConcat(c, EscapeOnce(s[1..]));
    }
  }

  lemma EscapeCharAmpersands(x: char)
    ensures AmpersandsAreEntities(EscapeChar(x))
  {
    var c := EscapeChar(x);
    forall i | 0 <= i < |c| && c[i] == '&' ensures StartsEntity(c[i..]) {
      assert i == 0;
      assert c[0..] == c;
    }
  }

  /** Escaping keeps a trimmed text trimmed: entities start with `&` and end with `;`. */
  lemma EscapeOnceTrimmed(s: string)
    requires Trimmed(s)
    ensures Trimmed(EscapeOnce(s))
  {
    if s != [] {
      var r := EscapeOnce(s);
      var first, last := EscapeChar(s[0]), EscapeChar(s[|s| - 1]);
      EscapeOnceLast(s);
      EscapeCharEnds(s[0]);
      EscapeCharEnds(s[|s| - 1]);
      assert r[0] == first[0] && r[|r| - 1] == last[|last| - 1];
    }
  }

  /** The escaped text begins with the entity of the first character and
      ends with the entity of the last one. */
  lemma {:induction false} EscapeOnceLast(s: string)
    requires s != []
    ensures var r, e := EscapeOnce(s), EscapeChar(s[|s| - 1]);
      r[0] == EscapeChar(s[0])[0] && r[|r| - 1] == e[|e| - 1]
  {
    var r := EscapeOnce(s);
    var h := EscapeChar(s[0]);
    assert r == h + EscapeOnce(s[1..]);
    if |s| > 1 {
      EscapeOnceLast(s[1..]);
      assert s[1..][|s[1..]| - 1] == s[|s| - 1];
    }
  }

  /** An entity starts with `&` and ends with `;`, so escaping a
      character that is not white space gives no white space at either end. */
  lemma EscapeCharEnds(c: char)
    requires !IsWhite(c)
    ensures var e := EscapeChar(c); !IsWhite(e[0]) && !IsWhite(e[|e| - 1])
  {
  }

  lemma {:induction false} EscapeOnceConcat(a: string, b: string)
    ensures EscapeOnce(a + b) == EscapeOnce(a) + EscapeOnce(b)
  {
    if a != [] {
      assert (a + b)[0] == a[0] && (a + b)[1..] == a[1..] + b;
      EscapeOnceConcat(a[1..], b);
      calc {
        EscapeOnce(a + b);
        EscapeChar(a[0]) + EscapeOnce(a[1..] + b);
        EscapeChar(a[0]) + (EscapeOnce(a[1..]) + EscapeOnce(b));
        (EscapeChar(a[0]) + EscapeOnce(a[1..])) + EscapeOnce(b);
      }
    } else {
      assert a + b == b;
    }
  }

  /** Text without markup characters and ampersands is not escaped. */
  lemma {:induction false} EscapeOncePlain(s: string)
    requires forall i :: 0 <= i < |s| ==> !IsMarkupChar(s[i]) && s[i] != '&'
    ensures EscapeOnce(s) == s
  {
    if s != [] {
      EscapeOncePlain(s[1..]);
    }
  }

  /** The text stripped of controls, script elements and tags, and trimmed. */
  function Stripped(input: string): (r: string)
    ensures Trimmed(r)
    ensures forall i :: 0 <= i < |r| ==> !IsStrippedControl(r[i])
  {
    var t := StripTags(StripScripts(StripControl(input)));
    assert forall i :: 0 <= i < |t| ==> !IsStrippedControl(t[i]);
    var r := Trim(t);
    assert forall i :: 0 <= i < |r| ==> r[i] in r;
    r
  }

  /** `sanitizePlainText`. */
  function Sanitize(input: string): (r: string)
    ensures r == "" <==> Stripped(input) == ""
  {
    EscapeHtml(Stripped(input))
  }

  /** What is stored is safe to embed in HTML: no markup character, no
      control character, no stray `&`, and no white space at either end. */
  lemma SanitizeIsSafe(input: string)
    ensures var r := Sanitize(input);
      && (forall i :: 0 <= i < |r| ==> !IsMarkupChar(r[i]) && !IsStrippedControl(r[i]))
      && AmpersandsAreEntities(r)
      && Trimmed(r)
  {
    var t := Stripped(input);
    EscapeHtmlIsEscapeOnce(t);
    EscapeOnceAmpersands(t);
    EscapeOnceTrimmed(t);
    EscapeOnceNoControl(t);
  }

  /** Escaping brings in no control character: entities are printable. */
  lemma {:induction false} EscapeOnceNoControl(t: string)
    requires forall i :: 0 <= i < |t| ==> !IsStrippedControl(t[i])
    ensures forall i :: 0 <= i < |EscapeOnce(t)| ==> !IsStrippedControl(EscapeOnce(t)[i])
  {
    if t != [] {
      EscapeOnceNoControl(t[1..]);
      var e, rest := EscapeChar(t[0]), EscapeOnce(t[1..]);
      assert forall i :: 0 <= i < |e| ==> !IsStrippedControl(e[i]);
      assert EscapeOnce(t) == e + rest;
    }
  }

  /** The sanitised text decodes back to the stripped text. */
  lemma SanitizeRoundTrip(input: string)
    ensures Unescape(Sanitize(input)) == Stripped(input)
  {
    EscapeHtmlIsEscapeOnce(Stripped(input));
    UnescapeEscape(Stripped(input));
  }

  /** Text with no control character, no `<` and nothing to trim is only escaped. */
  lemma SanitizeUnstripped(s: string)
    requires Trimmed(s) && '<' !in s
    requires forall i :: 0 <= i < |s| ==> !IsStrippedControl(s[i])
    ensures Stripped(s) == s && Sanitize(s) == EscapeOnce(s)
  {
    StripControlNoOp(s);
    NoAngleUntouched(s);
    TrimOfTrimmed(s);
    EscapeHtmlIsEscapeOnce(s);
  }

  /** Plain text (no controls, markup characters or ampersands, nothing to
      trim) is stored as written. */
  lemma SanitizePlain(s: string)
    requires Trimmed(s)
    requires forall i :: 0 <= i < |s| ==> !IsStrippedControl(s[i]) && !IsMarkupChar(s[i]) && s[i] != '&'
    ensures Sanitize(s) == s
  {
    assert '<' !in s by {
      forall i | 0 <= i < |s| ensures s[i] != '<' { assert !IsMarkupChar(s[i]); }
    }
    SanitizeUnstripped(s);
    EscapeOncePlain(s);
  }

  lemma {:induction false} StripControlNoOp(s: string)
    requires forall i :: 0 <= i < |s| ==> !IsStrippedControl(s[i])
    ensures StripControl(s) == s
  {
    if s != [] {
      StripControlNoOp(s[1..]);
    }
  }

  /** Sanitising is not idempotent: text that keeps an ampersand through
      stripping grows again on a second pass, since the `&` of every entity
      is escaped once more. */
  lemma SanitizeNotIdempotent(s: string)
    requires Trimmed(s) && '<' !in s && '&' in s
    requires forall i :: 0 <= i < |s| ==> !IsStrippedControl(s[i])
    ensures |Sanitize(Sanitize(s))| > |Sanitize(s)|
  {
    SanitizeUnstripped(s);
    var t := EscapeOnce(s);
    EscapeOnceTrimmed(s);
    EscapeOnceNoControl(s);
    assert '<' !in t by {
      forall i | 0 <= i < |t| ensures t[i] != '<' { assert !IsMarkupChar(t[i]); }
    }
    EscapeOnceKeepsAmpersand(s);
    SanitizeUnstripped(t);
    EscapeOnceGrows(t);
  }

  lemma {:induction false} EscapeOnceKeepsAmpersand(s: string)
    requires '&' in s
    ensures '&' in EscapeOnce(s)
  {
    if s[0] == '&' {
      assert EscapeOnce(s)[0] == '&';
    } else {
      EscapeOnceKeepsAmpersand(s[1..]);
      assert EscapeOnce(s) == EscapeChar(s[0]) + EscapeOnce(s[1..]);
    }
  }

  /** Escaping text with an ampersand makes it strictly longer. */
  lemma {:induction false} EscapeOnceGrows(s: string)
    requires '&' in s
    ensures |EscapeOnce(s)| > |s|
  {
    if s[0] != '&' {
      EscapeOnceGrows(s[1..]);
    }
  }
}
