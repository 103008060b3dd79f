/** Python strings as bytes: ASCII, UTF-8 and hexadecimal. */
module Text {
  import opened Bytes

  predicate IsAscii(s: string) { forall i :: 0 <= i < |s| ==> s[i] as int < 128 }

  function Utf8Char(c: char): bytes {
    var n := c as int;
    if n < 0x80 then [n]
    else if n < 0x800 then [0xC0 + n / 64, 0x80 + n % 64]
    else if n < 0x10000 then [0xE0 + n / 4096, 0x80 + n / 64 % 64, 0x80 + n % 64]
    else [0xF0 + n / 262144, 0x80 + n / 4096 % 64, 0x80 + n / 64 % 64, 0x80 + n % 64]
  }

  function Utf8(s: string): bytes {
    if s == "" then [] else Utf8Char(s[0]) + Utf8(s[1..])
  }

  /** The code point a UTF-8 byte string starts with. */
  function FirstCode(b: bytes): int
    requires b != []
  {
    var At := (i: int) => if 0 <= i < |b| then b[i] as int else 0;
    if At(0) < 0x80 then At(0)
    else if At(0) < 0xE0 then (At(0) - 0xC0) * 64 + At(1) - 0x80
    else if At(0) < 0xF0 then (At(0) - 0xE0) * 4096 + (At(1) - 0x80) * 64 + At(2) - 0x80
    else (At(0) - 0xF0) * 262144 + (At(1) - 0x80) * 4096 + (At(2) - 0x80) * 64 + At(3) - 0x80
  }

  lemma Base64Digits(n: nat)
    ensures n == n / 64 * 64 + n % 64
    ensures n == n / 4096 * 4096 + n / 64 % 64 * 64 + n % 64
    ensures n == n / 262144 * 262144 + n / 4096 % 64 * 4096 + n / 64 % 64 * 64 + n % 64
  {
    var m, k := n / 64, n / 4096;
    Nested(n);
    Nested(m);
    assert k == m / 64 && n / 262144 == k / 64;
  }

  lemma Nested(n: nat)
    ensures n / 4096 == n / 64 / 64 && n / 262144 == n / 64 / 4096
  {}

  lemma FirstCodeOf(c: char, rest: bytes)
    ensures FirstCode(Utf8Char(c) + rest) == c as int
  {
    Base64Digits(c as int);
    var b, u := Utf8Char(c) + rest, Utf8Char(c);
    assert forall i :: 0 <= i < |u| ==> b[i] == u[i];
  }

  lemma {:induction false} Utf8Injective(s: string, t: string)
    requires Utf8(s) == Utf8(t)
    ensures s == t
  {
    if s != "" && t != "" {
      FirstCodeOf(s[0], Utf8(s[1..]));
      FirstCodeOf(t[0], Utf8(t[1..]));
      var k := |Utf8Char(s[0])|;
      assert Utf8(s[1..]) == Utf8(s)[k..] && Utf8(t[1..]) == Utf8(t)[k..];
      Utf8Injective(s[1..], t[1..]);
      assert s == [s[0]] + s[1..] && t == [t[0]] + t[1..];
    }
  }

  /** On ASCII text every character is its own byte. */
  lemma {:induction false} Utf8OfAscii(s: string)
    requires IsAscii(s)
    ensures |Utf8(s)| == |s| && forall i :: 0 <= i < |s| ==> Utf8(s)[i] == s[i] as int
  {
    if s != "" {
      Utf8OfAscii(s[1..]);
    }
  }

  /** `bytes.decode("ascii")` */
  function FromAscii(b: bytes): Option<string> {
    if forall i :: 0 <= i < |b| ==> b[i] < 128 then Some(seq(|b|, i requires 0 <= i < |b| => b[i] as char)) else None
  }

  lemma FromAsciiInverse(b: bytes)
    requires FromAscii(b).Some?
    ensures IsAscii(FromAscii(b).value) && Utf8(FromAscii(b).value) == b
  {
    Utf8OfAscii(FromAscii(b).value);
  }

  lemma AsciiInverse(s: string)
    requires IsAscii(s)
    ensures FromAscii(Utf8(s)) == Some(s)
  {
    Utf8OfAscii(s);
    assert FromAscii(Utf8(s)).value == s;
  }

  // ----- case, of ASCII letters ---------------------------------------------------------------

  function LowerChar(c: char): char { if 'A' <= c <= 'Z' then (c as int + 32) as char else c }

  function UpperChar(c: char): char { if 'a' <= c <= 'z' then (c as int - 32) as char else c }

  function Lower(s: string): (r: string)
    ensures |r| == |s| && forall i :: 0 <= i < |s| ==> r[i] == LowerChar(s[i])
  {
    seq(|s|, i requires 0 <= i < |s| => LowerChar(s[i]))
  }

  function Upper(s: string): (r: string)
    ensures |r| == |s| && forall i :: 0 <= i < |s| ==> r[i] == UpperChar(s[i])
  {
    seq(|s|, i requires 0 <= i < |s| => UpperChar(s[i]))
  }

  // ----- hexadecimal ------------------------------------------------------------------------

  function HexDigit(n: int): char
    requires 0 <= n < 16
  {
    if n < 10 then (48 + n) as char else (87 + n) as char
  }

  /** `b.hex()` */
  function Hex(b: bytes): string {
    if b == [] then "" else [HexDigit(b[0] / 16), HexDigit(b[0] % 16)] + Hex(b[1..])
  }

  function HexValue(c: char): Option<int> {
    if '0' <= c <= '9' then Some(c as int - 48)
    else if 'a' <= c <= 'f' then Some(c as int - 87)
    else if 'A' <= c <= 'F' then Some(c as int - 55)
    else None
  }

  predicate AsciiSpace(c: char) { c as int == 32 || 9 <= c as int <= 13 }

  /** `bytes.fromhex(s)`: pairs of digits of either case, white space between pairs skipped. */
  function FromHex(s: string): Option<bytes> {
    if s == "" then Some([])
    else if AsciiSpace(s[0]) then FromHex(s[1..])
    else if |s| < 2 then None
    else
      var high :- HexValue(s[0]);
      var low :- HexValue(s[1]);
      var rest :- FromHex(s[2..]);
      HexRange(s[0], s[1]);
      Some([16 * high + low] + rest)
  }

  lemma HexRange(c: char, d: char)
    ensures HexValue(c).Some? ==> 0 <= HexValue(c).value < 16
    ensures HexValue(d).Some? ==> 0 <= HexValue(d).value < 16
  {}

  lemma HexDigitValue(n: int)
    requires 0 <= n < 16
    ensures HexValue(HexDigit(n)) == Some(n) && !AsciiSpace(HexDigit(n))
  {}

  lemma HexPair(x: byte, rest: string)
    requires FromHex(rest).Some?
    ensures FromHex([HexDigit(x / 16), HexDigit(x % 16)] + rest) == Some([x] + FromHex(rest).value)
  {
    hide HexDigit, HexValue, AsciiSpace;
    HexDigitValue(x / 16);
    HexDigitValue(x % 16);
    var s := [HexDigit(x / 16), HexDigit(x % 16)] + rest;
    assert s[2..] == rest;
    assert 16 * (x / 16) + x % 16 == x;
  }

  lemma {:induction false} FromHexOfHex(b: bytes)
    ensures FromHex(Hex(b)) == Some(b)
  {
    hide HexDigit, FromHex;
    if b == [] {
      FromNoHex();
    } else {
      FromHexOfHex(b[1..]);
      HexPair(b[0], Hex(b[1..]));
      assert b == [b[0]] + b[1..];
    }
  }

  lemma FromNoHex()
    ensures FromHex("") == Some([])
  {}
}
