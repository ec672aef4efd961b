/**
  The display helpers of the transaction feed (app/components/utils.ts):
  address shortening and the placeholder branches of the number and time
  formatters. The formatting itself (fixed-point rounding, the locale's
  date format) is an uninterpreted parameter.
 */
module DisplayUtils {
  import opened JsText
  import opened ExplorerSection

  /** The placeholder shown for a missing value. */
  const Dash := "\U{2014}"

  /** `shortAddr(a)`; `None` is `undefined`. */
  function ShortAddr(a: Option<string>): (r: string)
    ensures |r| <= 14
    ensures a.None? || a.value == "" ==> r == Dash
    ensures a.Some? && 0 < |a.value| <= 14 ==> r == a.value
    ensures a.Some? && |a.value| > 14 ==>
      |r| == 13 && r[..6] == a.value[..6] && r[6] == Ellipsis && r[7..] == a.value[|a.value| - 6..]
  {
    if a.None? || a.value == "" then Dash
    else if |a.value| <= 14 then a.value
    else
      var s := a.value;
      var r := s[..6] + [Ellipsis] + s[|s| - 6..];
      assert r[7..] == s[|s| - 6..];
      r
  }

  /** `shortAddr` and the page's `shorten(s, 6, 6)` differ only on strings
      of exactly 15 characters, which `shorten` leaves whole and
      `shortAddr` cuts to 13. */
  lemma ShortAddrVsShorten(s: string)
    requires s != ""
    ensures |s| != 15 ==> ShortAddr(Some(s)) == Shorten(s, 6, 6)
    ensures |s| == 15 ==> Shorten(s, 6, 6) == s && |ShortAddr(Some(s))| == 13
  {
    if |s| > 15 {
      var a, b := ShortAddr(Some(s)), Shorten(s, 6, 6);
      assert |a| == |b|;
      assert a[..6] == b[..6] && a[6] == b[6] && a[7..] == b[7..];
      assert a == a[..6] + [a[6]] + a[7..];
      assert b == b[..6] + [b[6]] + b[7..];
    }
  }

  /** A JavaScript number, as far as these helpers distinguish them. */
  datatype JsNumber = Finite(value: real) | NaN | Infinity | NegativeInfinity

  /** `fmt(n, digits)`: a non-finite number is the dash; a finite one is
      handed to `format`, which stands for `toFixed` and the trailing-zero
      strip. */
  function Fmt(n: JsNumber, digits: nat, format: (real, nat) -> string): (r: string)
    ensures !n.Finite? ==> r == Dash
    ensures n.Finite? ==> r == format(n.value, digits)
  {
    if !n.Finite? then Dash else format(n.value, digits)
  }

  /** `!ts` for a number: `undefined`, zero and NaN. */
  predicate IsFalsy(ts: Option<JsNumber>) {
    ts.None? || ts.value == NaN || ts.value == Finite(0.0)
  }

  /** `tsToLocal(ts)`: the dash when `ts` is falsy; otherwise `render`,
      which stands for `new Date(ts * 1000).toLocaleString()`. */
  function TsToLocal(ts: Option<JsNumber>, render: JsNumber -> string): (r: string)
    ensures IsFalsy(ts) ==> r == Dash
    ensures !IsFalsy(ts) ==> r == render(ts.value)
  {
    if IsFalsy(ts) then Dash else render(ts.value)
  }
}
