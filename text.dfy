/** The parts of the JavaScript string runtime that the components rely on:
    `length` (UTF-16 code units), `trim`, `parseInt` without a radix, the
    decimal rendering of integers and `Array.prototype.join`. */
module Text {
  import opened Wrappers

  /** `s.length`: a character outside the Basic Multilingual Plane is a
      surrogate pair and counts twice. */
  function JsLength(s: string): (n: nat)
    ensures |s| <= n <= 2 * |s|
  {
    if s == [] then 0 else (if s[0] as int > 0xFFFF then 2 else 1) + JsLength(s[1..])
  }

  /** For text made only of Basic Multilingual Plane characters the
      JavaScript length is the number of characters. */
  lemma {:induction false} JsLengthOfBmp(s: string)
    requires forall i :: 0 <= i < |s| ==> s[i] as int <= 0xFFFF
    ensures JsLength(s) == |s|
  {
    if s != [] {
      JsLengthOfBmp(s[1..]);
    }
  }

  /** The JavaScript length of a concatenation is the sum of the lengths. */
  lemma {:induction false} JsLengthAppend(a: string, b: string)
    ensures JsLength(a + b) == JsLength(a) + JsLength(b)
  {
    if a == [] {
      assert a + b == b;
    } else {
      assert (a + b)[1..] == a[1..] + b;
      JsLengthAppend(a[1..], b);
    }
  }

  /** WhiteSpace and LineTerminator of the ECMAScript grammar: the characters
      `trim` removes and `parseInt` skips. */
  predicate IsJsWhitespace(c: char) {
    var n := c as int;
    n == 0x09 || n == 0x0A || n == 0x0B || n == 0x0C || n == 0x0D || n == 0x20 ||
    n == 0xA0 || n == 0x1680 || (0x2000 <= n <= 0x200A) || n == 0x2028 ||
    n == 0x2029 || n == 0x202F || n == 0x205F || n == 0x3000 || n == 0xFEFF
  }

  /** The number of whitespace characters `s` starts with. */
  function LeadingWhitespace(s: string): (k: nat)
    ensures k <= |s|
    ensures forall i :: 0 <= i < k ==> IsJsWhitespace(s[i])
    ensures k < |s| ==> !IsJsWhitespace(s[k])
  {
    if s == [] || !IsJsWhitespace(s[0]) then 0 else 1 + LeadingWhitespace(s[1..])
  }

  /** The number of whitespace characters `s` ends with. */
  function TrailingWhitespace(s: string): (k: nat)
    ensures k <= |s|
    ensures forall i :: |s| - k <= i < |s| ==> IsJsWhitespace(s[i])
    ensures k < |s| ==> !IsJsWhitespace(s[|s| - 1 - k])
  {
    if s == [] || !IsJsWhitespace(s[|s| - 1]) then 0
    else 1 + TrailingWhitespace(s[..|s| - 1])
  }

  /** `s.trim()`: `s` without its leading and trailing whitespace. The result
      is empty exactly when `s` holds no other character; otherwise it starts
      and ends with a non-whitespace character of `s`. */
  function Trim(s: string): (r: string)
    ensures r == [] <==> forall i :: 0 <= i < |s| ==> IsJsWhitespace(s[i])
    ensures r != [] ==> !IsJsWhitespace(r[0]) && !IsJsWhitespace(r[|r| - 1])
    ensures r != [] ==>
      var a := LeadingWhitespace(s);
      a + |r| <= |s| && r == s[a .. a + |r|]
  {
    var a := LeadingWhitespace(s);
    if a == |s| then []
    else
      var z := TrailingWhitespace(s);
      assert a < |s| - z by {
        assert !IsJsWhitespace(s[a]);
      }
      s[a .. |s| - z]
  }

  /** A string is blank when `trim` leaves nothing: `!s.trim()` in JavaScript. */
  predicate IsBlank(s: string) {
    Trim(s) == []
  }

  /** The character of decimal digit `d`. */
  function DecimalDigit(d: nat): (c: char)
    requires d < 10
    ensures '0' <= c <= '9' && c as int - '0' as int == d
  {
    ('0' as int + d) as char
  }

  /** `String(n)` for a non-negative integer: its decimal numeral, without
      leading zeros. */
  function NatToString(n: nat): (s: string)
    ensures |s| >= 1
    ensures forall i :: 0 <= i < |s| ==> '0' <= s[i] <= '9'
    ensures s[0] == '0' ==> n == 0
    decreases n
  {
    if n < 10 then [DecimalDigit(n)] else NatToString(n / 10) + [DecimalDigit(n % 10)]
  }

  /** `String(n)` for any integer. */
  function IntToString(n: int): (s: string)
    ensures n < 0 ==> s == "-" + NatToString(-n)
    ensures n >= 0 ==> s == NatToString(n)
  {
    if n < 0 then "-" + NatToString(-n) else NatToString(n)
  }

  /** The value of `c` as a digit in bases up to 36, or 36 when it is not a
      digit in any of them. */
  function DigitValue(c: char): (v: nat)
    ensures v <= 36
  {
    if '0' <= c <= '9' then c as int - '0' as int
    else if 'a' <= c <= 'z' then c as int - 'a' as int + 10
    else if 'A' <= c <= 'Z' then c as int - 'A' as int + 10
    else 36
  }

  /** The length of the longest prefix of `s` made of digits of `radix`. */
  function DigitRun(s: string, radix: nat): (k: nat)
    ensures k <= |s|
    ensures forall i :: 0 <= i < k ==> DigitValue(s[i]) < radix
    ensures k < |s| ==> DigitValue(s[k]) >= radix
  {
    if s == [] || DigitValue(s[0]) >= radix then 0 else 1 + DigitRun(s[1..], radix)
  }

  /** The number a string of digits of `radix` denotes. */
  function Value(ds: string, radix: nat): nat
    requires forall i :: 0 <= i < |ds| ==> DigitValue(ds[i]) < radix
  {
    if ds == [] then 0 else Value(ds[..|ds| - 1], radix) * radix + DigitValue(ds[|ds| - 1])
  }

  /** `parseInt` after the sign: a `0x`/`0X` prefix selects base 16, otherwise
      base 10, then the longest run of digits is read; `None` when there is no
      digit (NaN). */
  function ParseUnsigned(u: string): Option<nat> {
    var hex := |u| >= 2 && u[0] == '0' && (u[1] == 'x' || u[1] == 'X');
    var radix := if hex then 16 else 10;
    var body := if hex then u[2..] else u;
    var k := DigitRun(body, radix);
    if k == 0 then None else Some(Value(body[..k], radix))
  }

  /** `parseInt(s)` with no radix: leading whitespace is skipped, one `-` or
      `+` is read, then the unsigned part. `None` stands for NaN. */
  function ParseInt(s: string): Option<int> {
    var t := s[LeadingWhitespace(s)..];
    var negative := |t| > 0 && t[0] == '-';
    var u := if |t| > 0 && (t[0] == '-' || t[0] == '+') then t[1..] else t;
    ApplySign(negative, ParseUnsigned(u))
  }

  /** The signed result of `parseInt` from its sign and its unsigned part. */
  function ApplySign(negative: bool, m: Option<nat>): Option<int> {
    match m
    case None => None
    case Some(v) => Some(if negative then -(v as int) else v as int)
  }

  /** Reading a numeral back gives the number it was written from. */
  lemma {:induction false} ValueOfNatToString(n: nat)
    ensures forall i :: 0 <= i < |NatToString(n)| ==> DigitValue(NatToString(n)[i]) < 10
    ensures Value(NatToString(n), 10) == n
    decreases n
  {
    var s := NatToString(n);
    if n >= 10 {
      ValueOfNatToString(n / 10);
      assert s[..|s| - 1] == NatToString(n / 10);
    }
  }

  /** `parseInt(String(n))` is `n` for every non-negative integer. */
  lemma ParseUnsignedOfNatToString(n: nat)
    ensures ParseUnsigned(NatToString(n)) == Some(n)
  {
    var s := NatToString(n);
    ValueOfNatToString(n);
    assert |s| >= 2 ==> s[1] != 'x' && s[1] != 'X';
    var k := DigitRun(s, 10);
    assert k == |s|;
    assert s[..k] == s;
  }

  /** `parseInt(String(n))` is `n` for every integer: the round trip of the
      distance field of the filters panel. */
  lemma ParseIntOfIntToString(n: int)
    ensures ParseInt(IntToString(n)) == Some(n)
  {
    if n < 0 {
      ParseIntOfNegative(-n);
    } else {
      ParseIntOfNat(n);
    }
  }

  lemma ParseIntOfNat(n: nat)
    ensures ParseInt(NatToString(n)) == Some(n)
  {
    var s := NatToString(n);
    ParseIntOfDigits(s);
    ParseUnsignedOfNatToString(n);
  }

  lemma ParseIntOfNegative(m: nat)
    requires m > 0
    ensures ParseInt("-" + NatToString(m)) == Some(-(m as int))
  {
    var u := NatToString(m);
    ParseUnsignedOfNatToString(m);
    assert ParseUnsigned(u) == Some(m);
    ParseIntSigned(u);
    assert ApplySign(true, Some(m)) == Some(-(m as int));
  }

  /** A string that starts with a digit is read by `parseInt` without sign. */
  lemma ParseIntOfDigits(s: string)
    requires |s| > 0 && '0' <= s[0] <= '9'
    ensures ParseInt(s) == ApplySign(false, ParseUnsigned(s))
  {
    assert LeadingWhitespace(s) == 0;
    assert s[0..] == s;
  }

  /** A `-` followed by digits is read as the negated number. */
  lemma ParseIntSigned(u: string)
    requires |u| > 0 && '0' <= u[0] <= '9'
    ensures ParseInt("-" + u) == ApplySign(true, ParseUnsigned(u))
  {
    var s := "-" + u;
    assert LeadingWhitespace(s) == 0;
    assert s[0..] == s;
    assert s[1..] == u;
  }

  /** Digits followed by a character that is not one stop the digit run at
      the end of the digits. */
  lemma {:induction false} DigitRunOfPrefix(ds: string, rest: string, radix: nat)
    requires forall i :: 0 <= i < |ds| ==> DigitValue(ds[i]) < radix
    requires rest == [] || DigitValue(rest[0]) >= radix
    ensures DigitRun(ds + rest, radix) == |ds|
  {
    if ds != [] {
      assert (ds + rest)[1..] == ds[1..] + rest;
      DigitRunOfPrefix(ds[1..], rest, radix);
    } else {
      assert ds + rest == rest;
    }
  }

  /** The unsigned part of `parseInt` reads a numeral at the start of a
      text and stops at the first character that is not a digit (an `x`
      after a lone `0` would select base 16 instead). */
  lemma ParseUnsignedOfNumeralPrefix(n: nat, rest: string)
    requires rest == [] || (DigitValue(rest[0]) >= 10 && rest[0] != 'x' && rest[0] != 'X')
    ensures ParseUnsigned(NatToString(n) + rest) == Some(n)
  {
    var ds := NatToString(n);
    var s := ds + rest;
    ValueOfNatToString(n);
    DigitRunOfPrefix(ds, rest, 10);
    assert s[..|ds|] == ds;
    assert |s| >= 2 ==> s[1] != 'x' && s[1] != 'X' by {
      if |s| >= 2 && |ds| == 1 {
        assert s[1] == rest[0];
      }
    }
  }

  /** `parseInt` of a numeral followed by other text is the numeral's value. */
  lemma ParseIntOfNumeralPrefix(n: nat, rest: string)
    requires rest == [] || (DigitValue(rest[0]) >= 10 && rest[0] != 'x' && rest[0] != 'X')
    ensures ParseInt(NatToString(n) + rest) == Some(n)
  {
    ParseUnsignedOfNumeralPrefix(n, rest);
    ParseIntOfDigits(NatToString(n) + rest);
  }

  /** `parseInt` skips a leading space and reads a `+` sign. */
  lemma ParseIntOfSpacePlus(u: string)
    ensures ParseInt(" +" + u) == ApplySign(false, ParseUnsigned(u))
  {
    var s := " +" + u;
    assert LeadingWhitespace(s[1..]) == 0;
    assert LeadingWhitespace(s) == 1;
    assert s[1..][1..] == u;
  }

  /** `xs.join(sep)`. */
  function Join(sep: string, xs: seq<string>): (r: string)
    ensures |xs| == 1 ==> r == xs[0]
    ensures |xs| == 0 ==> r == ""
  {
    if |xs| == 0 then "" else if |xs| == 1 then xs[0] else xs[0] + sep + Join(sep, xs[1..])
  }

  /** Joining one more item appends the separator and that item. */
  lemma {:induction false} JoinAppend(sep: string, xs: seq<string>, x: string)
    requires xs != []
    ensures Join(sep, xs + [x]) == Join(sep, xs) + sep + x
  {
    if |xs| > 1 {
      assert (xs + [x])[1..] == xs[1..] + [x];
      JoinAppend(sep, xs[1..], x);
    }
  }

  /** `xs.slice(0, n)`: the first `n` items, or all of them. */
  function Take<T>(xs: seq<T>, n: nat): (r: seq<T>)
    ensures |r| == if |xs| < n then |xs| else n
    ensures r <= xs
  {
    if |xs| <= n then xs else xs[..n]
  }
}
