/**
 * Decimal text as Rust's formatter prints it (`{n}` and `{n:0w}`) and as
 * `str::parse` reads it back, plus the string splitting the parsers use.
 */
module Decimal {

  datatype Option<+T> = None | Some(value: T)

  predicate IsDigit(c: char) { '0' <= c <= '9' }

  predicate AllDigits(s: string) { forall i :: 0 <= i < |s| ==> IsDigit(s[i]) }

  function DigitChar(d: nat): (c: char)
    requires d < 10
    ensures IsDigit(c) && DigitValue(c) == d
  {
    ['0', '1', '2', '3', '4', '5', '6', '7', '8', '9'][d]
  }

  function DigitValue(c: char): (d: nat)
    requires IsDigit(c)
    ensures d < 10
  {
    c as int - '0' as int
  }

  /** `n` in decimal, zero-padded on the left to at least `width` digits. */
  function Pad(n: nat, width: nat): string
    decreases n, width
  {
    if n < 10 && width <= 1 then [DigitChar(n)]
    else Pad(n / 10, if width > 0 then width - 1 else 0) + [DigitChar(n % 10)]
  }

  /** The number a digit string denotes. */
  function Value(s: string): nat
    requires AllDigits(s)
  {
    if s == "" then 0 else Value(s[..|s| - 1]) * 10 + DigitValue(s[|s| - 1])
  }

  function Pow10(w: nat): (p: nat)
    ensures p >= 1
  {
    if w == 0 then 1 else 10 * Pow10(w - 1)
  }

  /** Printing then reading gives the number back; the text has at least the asked width. */
  lemma {:induction false} ValueOfPad(n: nat, width: nat)
    ensures AllDigits(Pad(n, width)) && |Pad(n, width)| >= 1 && |Pad(n, width)| >= width
    ensures Value(Pad(n, width)) == n
    decreases n, width
  {
    if n < 10 && width <= 1 {
      var s := Pad(n, width);
      assert s[..0] == "";
    } else {
      var w := if width > 0 then width - 1 else 0;
      ValueOfPad(n / 10, w);
      var s := Pad(n, width);
      assert s[..|s| - 1] == Pad(n / 10, w);
    }
  }

  /** Reading then printing gives the text back, exactly when it carries no surplus zeros. */
  lemma {:induction false} PadOfValue(s: string, width: nat)
    requires AllDigits(s) && |s| >= 1 && |s| >= width
    requires |s| > width && |s| > 1 ==> s[0] != '0'
    ensures Pad(Value(s), width) == s
  {
    var init, d := s[..|s| - 1], DigitValue(s[|s| - 1]);
    assert s == init + [DigitChar(d)];
    assert Value(s) / 10 == Value(init) && Value(s) % 10 == d;
    if |s| == 1 {
      assert Value(init) == 0;
    } else {
      var w := if width > 0 then width - 1 else 0;
      PadOfValue(init, w);
      if Value(s) < 10 && width <= 1 {
        NonZeroLead(init);
        assert false;
      }
    }
  }

  lemma {:induction false} NonZeroLead(s: string)
    requires AllDigits(s) && |s| >= 1 && s[0] != '0'
    ensures Value(s) > 0
  {
    if |s| > 1 { NonZeroLead(s[..|s| - 1]); }
  }

  /** A number below `10^width` prints in exactly `width` digits, a larger one in more. */
  lemma {:induction false} PadWidth(n: nat, width: nat)
    requires width >= 1
    ensures n < Pow10(width) <==> |Pad(n, width)| == width
    decreases width
  {
    if width == 1 {
      if n >= 10 { ValueOfPad(n / 10, 0); }
    } else {
      assert n < Pow10(width) <==> n / 10 < Pow10(width - 1);
      PadWidth(n / 10, width - 1);
    }
  }

  lemma PadInjective(a: nat, b: nat, width: nat)
    requires Pad(a, width) == Pad(b, width)
    ensures a == b
  {
    ValueOfPad(a, width);
    ValueOfPad(b, width);
  }

  /** `str::parse` into an unsigned type whose largest value is `max`. */
  function ParseNumber(s: string, max: nat): Option<nat> {
    if s == "" || !AllDigits(s) || Value(s) > max then None else Some(Value(s))
  }

  predicate EndsWith(s: string, suffix: string) {
    |s| >= |suffix| && s[|s| - |suffix|..] == suffix
  }

  /** `str::strip_suffix`. */
  function StripSuffix(s: string, suffix: string): Option<string> {
    if EndsWith(s, suffix) then Some(s[..|s| - |suffix|]) else None
  }

  lemma StripSuffixOfConcat(s: string, suffix: string)
    ensures StripSuffix(s + suffix, suffix) == Some(s)
  {
    var t := s + suffix;
    assert t[|t| - |suffix|..] == suffix;
    assert t[..|t| - |suffix|] == s;
  }

  /** `str::split_once` on a character. */
  function SplitOnce(s: string, c: char): Option<(string, string)> {
    if s == "" then None
    else if s[0] == c then Some(("", s[1..]))
    else match SplitOnce(s[1..], c)
      case None => None
      case Some((a, b)) => Some(([s[0]] + a, b))
  }

  lemma {:induction false} SplitOnceOfConcat(a: string, c: char, b: string)
    requires c !in a
    ensures SplitOnce(a + [c] + b, c) == Some((a, b))
  {
    var s := a + [c] + b;
    if a == "" {
      assert s[1..] == b;
    } else {
      assert s[1..] == a[1..] + [c] + b;
      SplitOnceOfConcat(a[1..], c, b);
      assert [a[0]] + a[1..] == a;
    }
  }

  lemma {:induction false} SplitOnceMeaning(s: string, c: char)
    ensures match SplitOnce(s, c)
            case None => c !in s
            case Some((a, b)) => s == a + [c] + b && c !in a
  {
    if s != "" && s[0] != c { SplitOnceMeaning(s[1..], c); }
  }

  /** `str::split` on a character: one more part than there are separators. */
  function Split(s: string, c: char): (parts: seq<string>)
    ensures |parts| >= 1
    decreases |s|
  {
    match SplitOnce(s, c)
    case None => [s]
    case Some((a, b)) => SplitOnceMeaning(s, c); [a] + Split(b, c)
  }
}
