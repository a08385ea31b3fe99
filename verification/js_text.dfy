/** The pieces of JavaScript string handling the stage-configuration reducer
    relies on: `startsWith`, `split("-")[1]`, `parseInt` without a radix, and
    the decimal rendering of an integer inside a template literal. */
module JsText {
  import opened Wrappers

  /** `s.startsWith(prefix)` */
  predicate StartsWith(s: string, prefix: string) {
    |prefix| <= |s| && s[..|prefix|] == prefix
  }

  /** Position of the first `c` in `s`, or `|s|` when there is none. */
  function IndexOf(s: string, c: char): (i: nat)
    ensures i <= |s|
    ensures forall k :: 0 <= k < i ==> s[k] != c
    ensures i < |s| ==> s[i] == c
  {
    if |s| == 0 then 0
    else if s[0] == c then 0
    else 1 + IndexOf(s[1..], c)
  }

  lemma {:induction false} IndexOfAppend(a: string, b: string, c: char)
    requires c !in a
    ensures IndexOf(a + b, c) == |a| + IndexOf(b, c)
  {
    if |a| > 0 {
      assert (a + b)[1..] == a[1..] + b;
      IndexOfAppend(a[1..], b, c);
    } else {
      assert a + b == b;
    }
  }

  /** `s.split(sep)[1]`: the text between the first and the second `sep`
      (or the end of `s`); `undefined` (None) when `s` holds no `sep`. */
  function SecondField(s: string, sep: char): (r: Option<string>)
    ensures r.None? <==> sep !in s
    ensures r.Some? ==> sep !in r.value
    ensures r.Some? ==> exists i :: 0 <= i < |s| && s[i] == sep && sep !in s[..i]
                                  && StartsWith(s[i + 1..], r.value)
                                  && (i + 1 + |r.value| == |s| || s[i + 1 + |r.value|] == sep)
  {
    var i := IndexOf(s, sep);
    if i == |s| then
      None
    else
      var rest := s[i + 1..];
      var j := IndexOf(rest, sep);
      assert rest[..j] == s[i + 1..][..j];
      Some(rest[..j])
  }

  /** After a separator-free head and one separator, the second field runs up
      to the next separator. */
  lemma SecondFieldAfterHead(head: string, rest: string, sep: char)
    requires sep !in head
    ensures SecondField(head + [sep] + rest, sep) == Some(rest[..IndexOf(rest, sep)])
  {
    var s := head + [sep] + rest;
    IndexOfAppend(head, [sep] + rest, sep);
    assert s == head + ([sep] + rest);
    assert s[|head| + 1..] == rest;
  }

  /** The characters ECMAScript's StrWhiteSpaceChar admits: white space and line terminators. */
  predicate IsJsWhitespace(c: char) {
    || c == '\t' || c == '\n' || c == '\U{B}' || c == '\U{C}' || c == '\r' || c == ' '
    || c == '\U{A0}' || c == '\U{1680}' || ('\U{2000}' <= c <= '\U{200A}')
    || c == '\U{2028}' || c == '\U{2029}' || c == '\U{202F}' || c == '\U{205F}'
    || c == '\U{3000}' || c == '\U{FEFF}'
  }

  /** `s` without its leading white space. */
  function TrimStart(s: string): (r: string)
    ensures |r| <= |s| && r == s[|s| - |r|..]
    ensures forall k :: 0 <= k < |s| - |r| ==> IsJsWhitespace(s[k])
    ensures |r| == 0 || !IsJsWhitespace(r[0])
  {
    if |s| > 0 && IsJsWhitespace(s[0]) then TrimStart(s[1..]) else s
  }

  /** Value of `c` as a digit in base `radix` (10 or 16), if it is one. */
  function DigitValue(c: char, radix: nat): (d: Option<nat>)
    requires radix == 10 || radix == 16
    ensures d.Some? ==> d.value < radix
  {
    if '0' <= c <= '9' then Some(c as nat - '0' as nat)
    else if radix == 16 && 'a' <= c <= 'f' then Some(c as nat - 'a' as nat + 10)
    else if radix == 16 && 'A' <= c <= 'F' then Some(c as nat - 'A' as nat + 10)
    else None
  }

  predicate IsDigit(c: char, radix: nat)
    requires radix == 10 || radix == 16
  {
    DigitValue(c, radix).Some?
  }

  predicate AllDigits(s: string, radix: nat)
    requires radix == 10 || radix == 16
  {
    forall k :: 0 <= k < |s| ==> IsDigit(s[k], radix)
  }

  /** The longest prefix of `s` made of base-`radix` digits. */
  function DigitPrefix(s: string, radix: nat): (r: string)
    requires radix == 10 || radix == 16
    ensures StartsWith(s, r)
    ensures AllDigits(r, radix)
    ensures |r| == |s| || !IsDigit(s[|r|], radix)
  {
    if |s| > 0 && IsDigit(s[0], radix) then [s[0]] + DigitPrefix(s[1..], radix) else []
  }

  /** Positional value of a digit string, most significant digit first. */
  function DigitsValue(ds: string, radix: nat): nat
    requires radix == 10 || radix == 16
    requires AllDigits(ds, radix)
  {
    if |ds| == 0 then 0
    else DigitsValue(ds[..|ds| - 1], radix) * radix + DigitValue(ds[|ds| - 1], radix).value
  }

  /** The digits after the sign: a `0x`/`0X` prefix switches to base 16, and
      the longest run of digits that follows is read; None when there is none. */
  function ParseUnsigned(u: string): (r: Option<nat>)
    ensures r.Some? ==> |u| > 0 && IsDigit(u[0], 10)
  {
    if |u| >= 2 && u[0] == '0' && (u[1] == 'x' || u[1] == 'X') then
      var ds := DigitPrefix(u[2..], 16);
      if |ds| == 0 then None
      else
        Some(DigitsValue(ds, 16))
    else
      var ds := DigitPrefix(u, 10);
      if |ds| == 0 then None
      else Some(DigitsValue(ds, 10))
  }

  /** `parseInt(s)` with no radix argument; `None` is `NaN`. Leading white
      space is skipped and one sign is accepted before the digits. */
  function ParseInt(s: string): (r: Option<int>)
    ensures r.Some? ==> |TrimStart(s)| > 0
    ensures r.Some? ==> var c := TrimStart(s)[0]; c == '-' || c == '+' || IsDigit(c, 10)
    ensures r.Some? && r.value < 0 ==> TrimStart(s)[0] == '-'
  {
    var t := TrimStart(s);
    var negative := |t| > 0 && t[0] == '-';
    var u := if |t| > 0 && (t[0] == '-' || t[0] == '+') then t[1..] else t;
    match ParseUnsigned(u)
    case None => None
    case Some(v) =>
      var n: int := if negative then -(v as int) else v;
      Some(n)
  }

  function DigitChar(d: nat): (c: char)
    requires d < 10
    ensures DigitValue(c, 10) == Some(d)
  {
    "0123456789"[d]
  }

  /** Decimal rendering of a natural number, as `${n}` produces it. */
  function NatToString(n: nat): (s: string)
    ensures |s| >= 1
    ensures AllDigits(s, 10)
    ensures (|s| == 1) == (n < 10)
    ensures n >= 1 ==> s[0] != '0'
  {
    if n < 10 then [DigitChar(n)]
    else NatToString(n / 10) + [DigitChar(n % 10)]
  }

  /** Decimal rendering of an integer, with a leading `-` when it is negative. */
  function IntToString(n: int): (s: string)
    ensures n >= 0 ==> s == NatToString(n)
    ensures n < 0 ==> s == "-" + NatToString(-n)
  {
    if n < 0 then "-" + NatToString(-n) else NatToString(n)
  }

  /** Reading back a rendered natural number returns it. */
  lemma {:induction false} DigitsValueOfNatToString(n: nat)
    ensures DigitsValue(NatToString(n), 10) == n
  {
    var s := NatToString(n);
    if n >= 10 {
      DigitsValueOfNatToString(n / 10);
      assert s[..|s| - 1] == NatToString(n / 10);
    }
  }

  /** Decimal rendering is injective. */
  lemma NatToStringInjective(a: nat, b: nat)
    requires NatToString(a) == NatToString(b)
    ensures a == b
  {
    DigitsValueOfNatToString(a);
    DigitsValueOfNatToString(b);
  }

  /** A decimal digit string holds no `-`. */
  lemma IndexOfDashInDigits(s: string)
    requires AllDigits(s, 10)
    ensures IndexOf(s, '-') == |s|
  {
    assert forall k :: 0 <= k < |s| ==> IsDigit(s[k], 10);
  }

  lemma {:induction false} DigitPrefixOfDigits(s: string, radix: nat)
    requires radix == 10 || radix == 16
    requires AllDigits(s, radix)
    ensures DigitPrefix(s, radix) == s
  {
    if |s| > 0 {
      DigitPrefixOfDigits(s[1..], radix);
    }
  }

  /** A string made only of decimal digits reads as its decimal value: the
      `0x` test fails on its second character, and the digit run is the whole string. */
  lemma ParseUnsignedOfDecimal(d: string)
    requires |d| >= 1 && AllDigits(d, 10)
    ensures ParseUnsigned(d) == Some(DigitsValue(d, 10))
  {
    DigitPrefixOfDigits(d, 10);
  }

  lemma TrimStartNoSpace(s: string)
    requires |s| > 0 && !IsJsWhitespace(s[0])
    ensures TrimStart(s) == s
  {
  }

  lemma DigitIsNotSpaceOrSign(c: char)
    requires IsDigit(c, 10)
    ensures !IsJsWhitespace(c) && c != '-' && c != '+'
  {
  }

  /** `parseInt` of an unsigned string is what `ParseUnsigned` reads. */
  lemma ParseIntUnsigned(u: string)
    requires |u| > 0 && !IsJsWhitespace(u[0]) && u[0] != '-' && u[0] != '+'
    ensures ParseInt(u) == match ParseUnsigned(u) case None => None case Some(v) => Some(v as int)
  {
    TrimStartNoSpace(u);
  }

  /** `parseInt` of `-` and an unsigned string negates what `ParseUnsigned` reads. */
  lemma ParseIntNegated(u: string)
    ensures ParseInt("-" + u) == match ParseUnsigned(u) case None => None case Some(v) => Some(-(v as int))
  {
    var s := "-" + u;
    TrimStartNoSpace(s);
    assert s[1..] == u;
  }

  /** `parseInt` inverts the decimal rendering of every integer. */
  lemma ParseIntOfIntToString(n: int)
    ensures ParseInt(IntToString(n)) == Some(n)
  {
    var m: nat := if n < 0 then -n else n;
    var d := NatToString(m);
    DigitsValueOfNatToString(m);
    ParseUnsignedOfDecimal(d);
    assert ParseUnsigned(d) == Some(m);
    if n < 0 {
      ParseIntNegated(d);
    } else {
      DigitIsNotSpaceOrSign(d[0]);
      ParseIntUnsigned(d);
    }
  }
}
