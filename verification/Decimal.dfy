/** Decimal text of integers, as `str(int)` and JSON print it and as `int(str)` reads it. */
module Decimal {
  import opened Common
  import opened Text

  predicate IsDigit(c: char) {
    '0' <= c <= '9'
  }

  predicate AllDigits(s: string) {
    forall i :: 0 <= i < |s| ==> IsDigit(s[i])
  }

  function Digit(d: nat): (c: char)
    requires d < 10
    ensures IsDigit(c) && DigitValue(c) == d
  {
    "0123456789"[d]
  }

  function DigitValue(c: char): nat
    requires IsDigit(c)
  {
    c as int - '0' as int
  }

  function NatText(n: nat): (s: string)
    ensures s != "" && AllDigits(s)
  {
    if n < 10 then [Digit(n)] else NatText(n / 10) + [Digit(n % 10)]
  }

  function NatValue(s: string): nat
    requires AllDigits(s)
  {
    if s == "" then 0 else 10 * NatValue(s[..|s| - 1]) + DigitValue(s[|s| - 1])
  }

  lemma {:induction false} NatRoundTrip(n: nat)
    ensures NatValue(NatText(n)) == n
  {
    if n < 10 {
      assert NatText(n)[..0] == "";
    } else {
      NatRoundTrip(n / 10);
      var s := NatText(n / 10);
      assert NatText(n)[..|s|] == s;
    }
  }

  function IntText(n: int): (s: string)
    ensures s != "" && (IsDigit(s[0]) || s[0] == '-')
  {
    if n < 0 then "-" + NatText(-n) else NatText(n)
  }

  ghost predicate EndsNumber(rest: string) {
    rest == "" || !IsDigit(rest[0])
  }

  lemma DigitsNotLonger(s: string, t: string, x: string, y: string)
    requires AllDigits(t) && EndsNumber(x) && s + x == t + y
    ensures |t| <= |s|
  {
    var w := s + x;
    assert |w| == |s| || w[|s|] == x[0];
    assert |w| == |t + y|;
    assert forall i :: 0 <= i < |t| ==> w[i] == t[i];
  }

  lemma DigitsReadable(s: string, t: string, x: string, y: string)
    requires AllDigits(s) && AllDigits(t) && EndsNumber(x) && EndsNumber(y)
    requires s + x == t + y
    ensures s == t && x == y
  {
    DigitsNotLonger(s, t, x, y);
    DigitsNotLonger(t, s, y, x);
    assert s == (s + x)[..|s|] && t == (t + y)[..|t|];
    assert x == (s + x)[|s|..] && y == (t + y)[|t|..];
  }

  /** A printed number is recognised wherever something other than a digit follows it. */
  lemma IntReadable(m: int, n: int, x: string, y: string)
    requires EndsNumber(x) && EndsNumber(y)
    requires IntText(m) + x == IntText(n) + y
    ensures m == n && x == y
  {
    hide NatText, NatValue, AllDigits;
    SignReadable(m, n, x, y);
    var p, q := if m < 0 then -m else m, if n < 0 then -n else n;
    DigitsReadable(NatText(p), NatText(q), x, y);
    NatRoundTrip(p);
    NatRoundTrip(q);
  }

  lemma SignReadable(m: int, n: int, x: string, y: string)
    requires IntText(m) + x == IntText(n) + y
    ensures (m < 0) == (n < 0)
    ensures NatText(if m < 0 then -m else m) + x == NatText(if n < 0 then -n else n) + y
  {
    hide NatText;
    assert (IntText(m) + x)[0] == IntText(m)[0] && (IntText(n) + y)[0] == IntText(n)[0];
    if m < 0 && n < 0 {
      assert NatText(-m) + x == (IntText(m) + x)[1..] && NatText(-n) + y == (IntText(n) + y)[1..];
    }
  }

  // ---------------------------------------------------------------- reading

  /** The digits of `int(text)`: single underscores may stand between them. */
  function ReadDigits(s: string): Option<nat> {
    if s == "" || !IsDigit(s[|s| - 1]) then None
    else
      var d := DigitValue(s[|s| - 1]);
      if |s| == 1 then Some(d)
      else
        var high := ReadDigits(if s[|s| - 2] == '_' then s[..|s| - 2] else s[..|s| - 1]);
        if high.None? then None else Some(high.value * 10 + d)
  }

  function Signed(negative: bool, n: nat): int {
    if negative then 0 - n else n
  }

  /** `int(text)`. */
  function ReadInt(text: string): Option<int> {
    var s := Strip(text);
    if s != "" && (s[0] == '-' || s[0] == '+') then
      var n := ReadDigits(s[1..]);
      if n.None? then None else Some(Signed(s[0] == '-', n.value))
    else
      var n := ReadDigits(s);
      if n.None? then None else Some(n.value)
  }

  lemma {:induction false} DigitsRoundTrip(n: nat)
    ensures ReadDigits(NatText(n)) == Some(n)
  {
    if n >= 10 {
      DigitsRoundTrip(n / 10);
      var s := NatText(n / 10);
      assert NatText(n)[..|s|] == s && NatText(n)[|s|] == Digit(n % 10);
      assert IsDigit(s[|s| - 1]);
    }
  }

  lemma IntRoundTrip(n: int)
    ensures ReadInt(IntText(n)) == Some(n)
    ensures forall c :: c in IntText(n) ==> IsDigit(c) || c == '-'
  {
    hide Strip, ReadDigits, NatText;
    var s := IntText(n);
    StripFixpoint(s);
    assert Stripped(s) by {
      assert s[|s| - 1] == '-' || IsDigit(s[|s| - 1]);
    }
    DigitsRoundTrip(if n < 0 then -n else n);
    if n < 0 {
      assert s[1..] == NatText(-n);
    }
  }
}
