/** `encodeURIComponent`: every character outside the unreserved set is
    written as the percent-escaped bytes of its UTF-8 encoding. */
module Uri {

  /** The characters `encodeURIComponent` leaves as they are. */
  predicate IsUnreserved(c: char) {
    ('A' <= c <= 'Z') || ('a' <= c <= 'z') || ('0' <= c <= '9') ||
    c == '-' || c == '_' || c == '.' || c == '!' || c == '~' || c == '*' ||
    c == '\'' || c == '(' || c == ')'
  }

  /** The UTF-8 encoding of one Unicode scalar value. */
  function Utf8(c: char): (bytes: seq<nat>)
    ensures 1 <= |bytes| <= 4
    ensures forall i :: 0 <= i < |bytes| ==> bytes[i] < 256
    ensures |bytes| == 1 <==> c as int < 0x80
    ensures |bytes| == 1 <==> bytes[0] < 0x80
    ensures |bytes| == 2 <==> 0xC0 <= bytes[0] < 0xE0
    ensures |bytes| == 3 <==> 0xE0 <= bytes[0] < 0xF0
    ensures |bytes| == 4 <==> 0xF0 <= bytes[0]
  {
    var n := c as int;
    if n < 0x80 then [n]
    else if n < 0x800 then [0xC0 + n / 64, 0x80 + n % 64]
    else if n < 0x10000 then [0xE0 + n / 4096, 0x80 + (n / 64) % 64, 0x80 + n % 64]
    else [0xF0 + n / 262144, 0x80 + (n / 4096) % 64, 0x80 + (n / 64) % 64, 0x80 + n % 64]
  }

  /** The scalar value a UTF-8 sequence of one to four bytes stands for. */
  function Utf8Value(bytes: seq<nat>): int
    requires 1 <= |bytes| <= 4
  {
    if |bytes| == 1 then bytes[0]
    else if |bytes| == 2 then (bytes[0] as int - 0xC0) * 64 + (bytes[1] as int - 0x80)
    else if |bytes| == 3 then ((bytes[0] as int - 0xE0) * 64 + (bytes[1] as int - 0x80)) * 64 + (bytes[2] as int - 0x80)
    else (((bytes[0] as int - 0xF0) * 64 + (bytes[1] as int - 0x80)) * 64 + (bytes[2] as int - 0x80)) * 64 + (bytes[3] as int - 0x80)
  }

  /** Decoding undoes the encoding, so no two characters share one. */
  lemma Utf8RoundTrip(c: char)
    ensures Utf8Value(Utf8(c)) == c as int
  {
    var n := c as int;
    assert n == 64 * (n / 64) + n % 64;
    assert n / 4096 == (n / 64) / 64;
    assert n / 64 == 64 * (n / 4096) + (n / 64) % 64;
    assert n / 262144 == (n / 4096) / 64;
    assert n / 4096 == 64 * (n / 262144) + (n / 4096) % 64;
  }

  lemma Utf8Injective(c: char, d: char)
    requires Utf8(c) == Utf8(d)
    ensures c == d
  {
    Utf8RoundTrip(c);
    Utf8RoundTrip(d);
  }

  /** An upper-case hexadecimal digit. */
  function HexDigit(d: nat): (c: char)
    requires d < 16
    ensures IsUnreserved(c)
  {
    if d < 10 then ('0' as int + d) as char else ('A' as int + d - 10) as char
  }

  /** Two hexadecimal digits spell one byte. */
  lemma HexPairInjective(a: nat, b: nat)
    requires a < 256 && b < 256
    requires HexDigit(a / 16) == HexDigit(b / 16) && HexDigit(a % 16) == HexDigit(b % 16)
    ensures a == b
  {
    HexDigitInjective(a / 16, b / 16);
    HexDigitInjective(a % 16, b % 16);
  }

  lemma HexDigitInjective(d: nat, e: nat)
    requires d < 16 && e < 16 && HexDigit(d) == HexDigit(e)
    ensures d == e
  {
    assert HexDigit(d) as int == if d < 10 then '0' as int + d else 'A' as int + d - 10;
    assert HexDigit(e) as int == if e < 10 then '0' as int + e else 'A' as int + e - 10;
  }

  /** `%XX` for each byte. */
  function PercentBytes(bytes: seq<nat>): (r: string)
    requires forall i :: 0 <= i < |bytes| ==> bytes[i] < 256
    ensures |r| == 3 * |bytes|
    ensures forall i :: 0 <= i < |r| ==> IsUnreserved(r[i]) || r[i] == '%'
  {
    if bytes == [] then ""
    else ['%', HexDigit(bytes[0] / 16), HexDigit(bytes[0] % 16)] + PercentBytes(bytes[1..])
  }

  /** Escapes of as many bytes, followed by anything, agree only when the
      bytes and what follows agree. */
  lemma {:induction false} PercentBytesPrefix(a: seq<nat>, b: seq<nat>, x: string, y: string)
    requires |a| == |b|
    requires forall i :: 0 <= i < |a| ==> a[i] < 256
    requires forall i :: 0 <= i < |b| ==> b[i] < 256
    requires PercentBytes(a) + x == PercentBytes(b) + y
    ensures a == b && x == y
  {
    if a != [] {
      var l := PercentBytes(a) + x;
      var r := PercentBytes(b) + y;
      assert l[1] == HexDigit(a[0] / 16) && l[2] == HexDigit(a[0] % 16);
      assert r[1] == HexDigit(b[0] / 16) && r[2] == HexDigit(b[0] % 16);
      HexPairInjective(a[0], b[0]);
      assert l[3..] == PercentBytes(a[1..]) + x;
      assert r[3..] == PercentBytes(b[1..]) + y;
      PercentBytesPrefix(a[1..], b[1..], x, y);
      assert a == [a[0]] + a[1..] && b == [b[0]] + b[1..];
    } else {
      assert PercentBytes(a) + x == x && PercentBytes(b) + y == y;
    }
  }

  /** The encoding of one character: itself when unreserved, escapes otherwise. */
  function EncodeChar(c: char): (r: string)
    ensures forall i :: 0 <= i < |r| ==> IsUnreserved(r[i]) || r[i] == '%'
    ensures IsUnreserved(c) ==> r == [c]
    ensures !IsUnreserved(c) ==> |r| >= 3 && r[0] == '%'
  {
    if IsUnreserved(c) then [c] else PercentBytes(Utf8(c))
  }

  /** No character's encoding is the start of another's: two encoded
      characters followed by anything agree only when the characters and
      what follows agree. */
  lemma EncodeCharPrefix(c: char, d: char, x: string, y: string)
    requires EncodeChar(c) + x == EncodeChar(d) + y
    ensures c == d && x == y
  {
    var l := EncodeChar(c) + x;
    assert l[0] == if IsUnreserved(c) then c else '%';
    assert l[0] == if IsUnreserved(d) then d else '%';
    if IsUnreserved(c) {
      assert l[1..] == x && l[1..] == y;
    } else {
      var a := Utf8(c);
      var b := Utf8(d);
      assert l[1] == HexDigit(a[0] / 16) && l[2] == HexDigit(a[0] % 16);
      assert l[1] == HexDigit(b[0] / 16) && l[2] == HexDigit(b[0] % 16);
      HexPairInjective(a[0], b[0]);
      PercentBytesPrefix(a, b, x, y);
      Utf8Injective(c, d);
    }
  }

  /** `encodeURIComponent(s)`: the result holds only unreserved characters
      and `%`, so no `&`, `=`, `#`, `?`, `/` or space of `s` survives. */
  function EncodeURIComponent(s: string): (r: string)
    ensures forall i :: 0 <= i < |r| ==> IsUnreserved(r[i]) || r[i] == '%'
    ensures |r| >= |s|
  {
    if s == [] then "" else EncodeChar(s[0]) + EncodeURIComponent(s[1..])
  }

  /** Different texts have different encodings, so the encoded form can
      always be decoded back. */
  lemma {:induction false} EncodeInjective(s: string, t: string)
    requires EncodeURIComponent(s) == EncodeURIComponent(t)
    ensures s == t
  {
    if s == [] || t == [] {
      assert |EncodeURIComponent(s)| >= |s| && |EncodeURIComponent(t)| >= |t|;
      assert EncodeURIComponent([]) == [];
    } else {
      EncodeCharPrefix(s[0], t[0], EncodeURIComponent(s[1..]), EncodeURIComponent(t[1..]));
      EncodeInjective(s[1..], t[1..]);
      assert s == [s[0]] + s[1..] && t == [t[0]] + t[1..];
    }
  }

  /** Text made only of unreserved characters is encoded as itself. */
  lemma {:induction false} EncodeUnreserved(s: string)
    requires forall i :: 0 <= i < |s| ==> IsUnreserved(s[i])
    ensures EncodeURIComponent(s) == s
  {
    if s != [] {
      EncodeUnreserved(s[1..]);
      assert s == [s[0]] + s[1..];
    }
  }

  /** Text with a reserved character is never encoded as itself: each
      reserved character grows into an escape of three or more characters. */
  lemma {:induction false} EncodeGrows(s: string, k: nat)
    requires k < |s| && !IsUnreserved(s[k])
    ensures |EncodeURIComponent(s)| >= |s| + 2
  {
    assert EncodeURIComponent(s) == EncodeChar(s[0]) + EncodeURIComponent(s[1..]);
    if k > 0 {
      EncodeGrows(s[1..], k - 1);
    }
  }
}
