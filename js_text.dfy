/**
  The JavaScript string built-ins the explorer relies on, restated over
  Dafny strings: `String.prototype.trim`, ASCII case mapping, `includes`,
  `split(sep)[0]`, UTF-16 `length`, decimal and hexadecimal rendering.
 */
module JsText {

  datatype Option<T> = None | Some(value: T)

  /** The WhiteSpace and LineTerminator code points of ECMAScript: what `trim`
      removes and what a regular-expression `\s` matches. */
  predicate IsWhite(c: char) {
    c == '\t' || c == '\n' || c == '\U{B}' || c == '\U{C}' || c == '\r' || c == ' ' ||
    c == '\U{A0}' || c == '\U{1680}' || ('\U{2000}' <= c <= '\U{200A}') ||
    c == '\U{2028}' || c == '\U{2029}' || c == '\U{202F}' || c == '\U{205F}' ||
    c == '\U{3000}' || c == '\U{FEFF}'
  }

  /** No white space at either end. */
  predicate Trimmed(s: string) {
    s == [] || (!IsWhite(s[0]) && !IsWhite(s[|s| - 1]))
  }

  /** `s.trim()`: `s` without its leading and trailing white space. */
  function Trim(s: string): (r: string)
    ensures Trimmed(r)
    ensures |r| <= |s|
    ensures forall c :: c in r ==> c in s
    ensures r == [] <==> forall i :: 0 <= i < |s| ==> IsWhite(s[i])
  {
    if |s| > 0 && IsWhite(s[0]) then Trim(s[1..])
    else if |s| > 0 && IsWhite(s[|s| - 1]) then Trim(s[..|s| - 1])
    else s
  }

  /** A string with no white space at its ends is its own trim. */
  lemma TrimOfTrimmed(s: string)
    requires Trimmed(s)
    ensures Trim(s) == s
  {
  }

  /** Trimming twice is trimming once. */
  lemma TrimIdempotent(s: string)
    ensures Trim(Trim(s)) == Trim(s)
  {
    TrimOfTrimmed(Trim(s));
  }

  predicate IsUpperAscii(c: char) { 'A' <= c <= 'Z' }
  predicate IsLowerAscii(c: char) { 'a' <= c <= 'z' }
  predicate IsDigit(c: char) { '0' <= c <= '9' }
  predicate IsAlnum(c: char) { IsDigit(c) || IsLowerAscii(c) || IsUpperAscii(c) }
  predicate IsHexChar(c: char) { IsDigit(c) || ('a' <= c <= 'f') || ('A' <= c <= 'F') }

  function LowerChar(c: char): char {
    if IsUpperAscii(c) then (c as int + 32) as char else c
  }

  function UpperChar(c: char): char {
    if IsLowerAscii(c) then (c as int - 32) as char else c
  }

  /** `toLowerCase`, restricted to the ASCII letters. */
  function Lower(s: string): (r: string)
    ensures |r| == |s|
    ensures forall i :: 0 <= i < |r| ==> !IsUpperAscii(r[i])
  {
    seq(|s|, i requires 0 <= i < |s| => LowerChar(s[i]))
  }

  /** `toUpperCase`, restricted to the ASCII letters. */
  function Upper(s: string): (r: string)
    ensures |r| == |s|
    ensures forall i :: 0 <= i < |r| ==> !IsLowerAscii(r[i])
  {
    seq(|s|, i requires 0 <= i < |s| => UpperChar(s[i]))
  }

  lemma LowerOfLower(s: string)
    requires forall i :: 0 <= i < |s| ==> !IsUpperAscii(s[i])
    ensures Lower(s) == s
  {
  }

  lemma UpperOfUpper(s: string)
    requires forall i :: 0 <= i < |s| ==> !IsLowerAscii(s[i])
    ensures Upper(s) == s
  {
  }

  /** Nothing but white space. */
  predicate AllWhite(s: string) { forall i :: 0 <= i < |s| ==> IsWhite(s[i]) }

  /** Trailing white space can be dropped first: `trim` removes it whatever
      the order. */
  lemma {:induction false} TrimDropBack(s: string)
    requires |s| > 0 && IsWhite(s[|s| - 1])
    ensures Trim(s) == Trim(s[..|s| - 1])
    decreases |s|
  {
    if IsWhite(s[0]) && |s| > 1 {
      TrimDropBack(s[1..]);
      assert s[1..][..|s| - 2] == s[..|s| - 1][1..];
    }
  }

  /** Surrounding white space does not change the trimmed string. */
  lemma {:induction false} TrimPadded(w1: string, s: string, w2: string)
    requires AllWhite(w1) && AllWhite(w2)
    ensures Trim(w1 + s + w2) == Trim(s)
    decreases |w1| + |w2|
  {
    var t := w1 + s + w2;
    if w1 != [] {
      assert t[0] == w1[0] && t[1..] == w1[1..] + s + w2;
      TrimPadded(w1[1..], s, w2);
    } else if w2 != [] {
      assert t[|t| - 1] == w2[|w2| - 1];
      TrimDropBack(t);
      assert t[..|t| - 1] == w1 + s + w2[..|w2| - 1];
      TrimPadded(w1, s, w2[..|w2| - 1]);
    } else {
      assert t == s;
    }
  }

  /** Case mapping never creates or removes white space. */
  lemma LowerCharWhite(c: char)
    ensures IsWhite(LowerChar(c)) == IsWhite(c)
  {
  }

  /** Trimming and lower-casing commute. */
  lemma {:induction false} TrimLower(s: string)
    ensures Trim(Lower(s)) == Lower(Trim(s))
    decreases |s|
  {
    var l := Lower(s);
    if |s| > 0 {
      LowerCharWhite(s[0]);
      LowerCharWhite(s[|s| - 1]);
    }
    if |s| > 0 && IsWhite(s[0]) {
      assert l[1..] == Lower(s[1..]);
      TrimLower(s[1..]);
    } else if |s| > 0 && IsWhite(s[|s| - 1]) {
      assert l[..|l| - 1] == Lower(s[..|s| - 1]);
      TrimLower(s[..|s| - 1]);
    } else {
      TrimOfTrimmed(l);
    }
  }

  /** `s.includes(sub)`. */
  predicate Includes(s: string, sub: string) {
    |sub| <= |s| && (s[..|sub|] == sub || Includes(s[1..], sub))
  }

  /** The position of the first `c` in `s`, or `|s|` when there is none. */
  function IndexOf(s: string, c: char): (k: nat)
    ensures k <= |s|
    ensures forall i :: 0 <= i < k ==> s[i] != c
    ensures k < |s| ==> s[k] == c
  {
    if |s| == 0 then 0 else if s[0] == c then 0 else 1 + IndexOf(s[1..], c)
  }

  /** `s.split(sep)[0]`: everything before the first separator. */
  function FirstField(s: string, sep: char): (r: string)
    ensures r <= s && sep !in r
    ensures |r| < |s| ==> s[|r|] == sep
  {
    s[..IndexOf(s, sep)]
  }

  /** A string's JavaScript `length`: characters outside the Basic
      Multilingual Plane occupy two UTF-16 code units. */
  function Utf16Length(s: string): (n: nat)
    ensures |s| <= n <= 2 * |s|
  {
    if s == [] then 0 else (if s[0] as int >= 0x1_0000 then 2 else 1) + Utf16Length(s[1..])
  }

  function DigitChar(d: nat): (c: char)
    requires d < 10
    ensures IsDigit(c) && DigitValue(c) == d
  {
    ('0' as int + d) as char
  }

  /** The value of a decimal digit character. */
  function DigitValue(c: char): nat {
    if IsDigit(c) then c as int - '0' as int else 0
  }

  /** The number a string of decimal digits denotes, read left to right:
      a reader independent of the renderings below. */
  function DecimalValue(s: string): nat {
    if s == [] then 0 else DecimalValue(s[..|s| - 1]) * 10 + DigitValue(s[|s| - 1])
  }

  /** The number a decimal string with an optional leading `-` denotes. */
  function SignedDecimalValue(s: string): int {
    if s != [] && s[0] == '-' then 0 - DecimalValue(s[1..]) as int else DecimalValue(s)
  }

  /** The decimal rendering of a natural number, no leading zeros: the
      digits read back as `n`. */
  function NatToDecimal(n: nat): (r: string)
    ensures |r| > 0 && forall i :: 0 <= i < |r| ==> IsDigit(r[i])
    ensures DecimalValue(r) == n
  {
    if n < 10 then [DigitChar(n)]
    else
      var p, d := NatToDecimal(n / 10), DigitChar(n % 10);
      assert (p + [d])[..|p|] == p;
      p + [d]
  }

  /** `String(i)` for an integer: reads back as `i`. */
  function IntToDecimal(i: int): (r: string)
    ensures |r| > 0 && forall k :: 0 <= k < |r| ==> IsDigit(r[k]) || (k == 0 && r[k] == '-')
    ensures SignedDecimalValue(r) == i
  {
    if i < 0 then
      var p := NatToDecimal(-i);
      assert ("-" + p)[1..] == p;
      "-" + p
    else NatToDecimal(i)
  }

  /** Two integers with the same rendering are equal. */
  lemma IntToDecimalInjective(i: int, j: int)
    requires IntToDecimal(i) == IntToDecimal(j)
    ensures i == j
  {
    assert SignedDecimalValue(IntToDecimal(i)) == i;
  }

  function HexDigitChar(d: nat): (c: char)
    requires d < 16
    ensures IsHexChar(c) && !IsUpperAscii(c) && HexDigitValue(c) == d
  {
    if d < 10 then DigitChar(d) else ('a' as int + (d - 10)) as char
  }

  /** The value of a hexadecimal digit character, either case. */
  function HexDigitValue(c: char): nat {
    if IsDigit(c) then c as int - '0' as int
    else if 'a' <= c <= 'f' then c as int - 'a' as int + 10
    else if 'A' <= c <= 'F' then c as int - 'A' as int + 10
    else 0
  }

  /** `b.toString(16).padStart(2, "0")` for a byte: two lower-case hex
      digits, high digit first, that read back as `b`. */
  function HexByte(b: nat): (r: string)
    requires b < 256
    ensures |r| == 2 && IsHexChar(r[0]) && IsHexChar(r[1])
    ensures !IsUpperAscii(r[0]) && !IsUpperAscii(r[1])
    ensures HexDigitValue(r[0]) * 16 + HexDigitValue(r[1]) == b
  {
    [HexDigitChar(b / 16), HexDigitChar(b % 16)]
  }

  /** Every character of `s` is a hexadecimal digit. */
  predicate AllHex(s: string) { forall i :: 0 <= i < |s| ==> IsHexChar(s[i]) }

  predicate AllAlnum(s: string) { forall i :: 0 <= i < |s| ==> IsAlnum(s[i]) }

  predicate AllDigits(s: string) { forall i :: 0 <= i < |s| ==> IsDigit(s[i]) }
}
