/** Base64 with padding, as `b64decode(..., validate=True)` reads it: unused bits of the last character are not looked at. */
module Base64 {
  import opened Bytes

  type sextet = x: int | 0 <= x < 64

  function Char64(n: sextet): char {
    if n < 26 then ('A' as int + n) as char
    else if n < 52 then ('a' as int + n - 26) as char
    else if n < 62 then ('0' as int + n - 52) as char
    else if n == 62 then '+'
    else '/'
  }

  function Value64(c: char): Option<sextet> {
    if 'A' <= c <= 'Z' then Some(c as int - 'A' as int)
    else if 'a' <= c <= 'z' then Some(c as int - 'a' as int + 26)
    else if '0' <= c <= '9' then Some(c as int - '0' as int + 52)
    else if c == '+' then Some(62)
    else if c == '/' then Some(63)
    else None
  }

  lemma ValueOfChar(n: sextet)
    ensures Value64(Char64(n)) == Some(n) && Char64(n) != '='
  {}

  lemma CharOfValue(c: char)
    requires Value64(c).Some?
    ensures Char64(Value64(c).value) == c && c != '='
  {}

  // ----- groups of four characters -------------------------------------------------------------------

  function Quad(b: bytes): (r: string)
    requires |b| == 3
    ensures |r| == 4
  {
    [Char64(b[0] / 4), Char64(b[0] % 4 * 16 + b[1] / 16), Char64(b[1] % 16 * 4 + b[2] / 64), Char64(b[2] % 64)]
  }

  /** The last group of one or two bytes. */
  function Padded(b: bytes): (r: string)
    requires 1 <= |b| <= 2
    ensures |r| == 4
  {
    if |b| == 1 then [Char64(b[0] / 4), Char64(b[0] % 4 * 16), '=', '=']
    else [Char64(b[0] / 4), Char64(b[0] % 4 * 16 + b[1] / 16), Char64(b[1] % 16 * 4), '=']
  }

  function Encode64(b: bytes): string {
    if b == [] then "" else if |b| < 3 then Padded(b) else Quad(b[..3]) + Encode64(b[3..])
  }

  function FromQuad(s: string): Option<bytes>
    requires |s| == 4
  {
    var a :- Value64(s[0]);
    var b :- Value64(s[1]);
    var c :- Value64(s[2]);
    var d :- Value64(s[3]);
    Some([a * 4 + b / 16, b % 16 * 16 + c / 4, c % 4 * 64 + d])
  }

  function FromLast(s: string): Option<bytes>
    requires |s| == 4
  {
    if s[3] != '=' then FromQuad(s)
    else
      var a :- Value64(s[0]);
      var b :- Value64(s[1]);
      if s[2] == '=' then Some([a * 4 + b / 16])
      else
        var c :- Value64(s[2]);
        Some([a * 4 + b / 16, b % 16 * 16 + c / 4])
  }

  function Decode64(s: string): Option<bytes> {
    if s == "" then Some([])
    else if |s| < 4 then None
    else if |s| == 4 then FromLast(s)
    else
      var front :- FromQuad(s[..4]);
      var rest :- Decode64(s[4..]);
      Some(front + rest)
  }

  /** The bits of the last character before the padding that no byte takes. */
  function Spare(s: string): nat {
    if |s| < 4 || s[|s| - 1] != '=' then 0
    else if s[|s| - 2] == '=' then Value64(s[|s| - 3]).GetOr(0) % 16
    else Value64(s[|s| - 2]).GetOr(0) % 4
  }

  // ----- round trips -----------------------------------------------------------------------------------

  lemma FromQuadOfQuad(b: bytes)
    requires |b| == 3
    ensures FromQuad(Quad(b)) == Some(b) && Quad(b)[3] != '='
  {
    hide Char64, Value64;
    ValueOfChar(b[0] / 4);
    ValueOfChar(b[0] % 4 * 16 + b[1] / 16);
    ValueOfChar(b[1] % 16 * 4 + b[2] / 64);
    ValueOfChar(b[2] % 64);
    assert b == [b[0], b[1], b[2]];
  }

  lemma FromLastOfPadded(b: bytes)
    requires 1 <= |b| <= 2
    ensures FromLast(Padded(b)) == Some(b)
  {
    hide Char64, Value64;
    ValueOfChar(b[0] / 4);
    if |b| == 1 {
      ValueOfChar(b[0] % 4 * 16);
      assert b == [b[0]];
    } else {
      ValueOfChar(b[0] % 4 * 16 + b[1] / 16);
      ValueOfChar(b[1] % 16 * 4);
      assert b == [b[0], b[1]];
    }
  }

  /** Decoding undoes encoding. */
  lemma {:induction false} DecodeOfEncode(b: bytes)
    ensures Decode64(Encode64(b)) == Some(b)
  {
    hide Quad, FromQuad, FromLast, Padded;
    if b != [] && |b| < 3 {
      FromLastOfPadded(b);
    } else if b != [] {
      var q, r := Quad(b[..3]), Encode64(b[3..]);
      FromQuadOfQuad(b[..3]);
      DecodeOfEncode(b[3..]);
      assert b == b[..3] + b[3..];
      assert (q + r)[..4] == q && (q + r)[4..] == r;
      if r == "" {
        NoneLeft(b[3..]);
        LastIsQuad(q);
        assert q + r == q && b[..3] == b;
      }
    }
  }

  lemma NoneLeft(b: bytes)
    ensures Encode64(b) == "" <==> b == []
  {}

  lemma LastIsQuad(s: string)
    requires |s| == 4 && s[3] != '='
    ensures FromLast(s) == FromQuad(s)
  {}

  lemma QuadOfFromQuad(s: string)
    requires |s| == 4 && FromQuad(s).Some?
    ensures |FromQuad(s).value| == 3 && Quad(FromQuad(s).value) == s && s[3] != '='
  {
    hide Char64, Value64;
    CharOfValue(s[0]);
    CharOfValue(s[1]);
    CharOfValue(s[2]);
    CharOfValue(s[3]);
  }

  /** A last group is the one that is written for its bytes exactly when its spare bits are zero. */
  lemma PaddedOfFromLast(s: string)
    requires |s| == 4 && s[3] == '=' && FromLast(s).Some?
    ensures 1 <= |FromLast(s).value| <= 2
    ensures Padded(FromLast(s).value) == s <==> Spare(s) == 0
  {
    hide Char64, Value64;
    CharOfValue(s[0]);
    CharOfValue(s[1]);
    var a, b := Value64(s[0]).value, Value64(s[1]).value;
    if s[2] == '=' {
      LowBits(a, b, 16);
      SameChar(b, b - b % 16);
    } else {
      CharOfValue(s[2]);
      LowBits(b, Value64(s[2]).value, 4);
      SameChar(Value64(s[2]).value, Value64(s[2]).value - Value64(s[2]).value % 4);
    }
  }

  lemma LowBits(a: sextet, b: sextet, k: int)
    requires k == 4 || k == 16
    ensures 0 <= b - b % k < 64
    ensures var x := a * 4 + b / 16; x / 4 == a && x % 4 * 16 == b - b % 16
    ensures var y := a % 16 * 16 + b / 4; y / 16 == a % 16 && y % 16 * 4 == b - b % 4
  {}

  lemma SameChar(m: sextet, n: int)
    requires 0 <= n < 64
    ensures Char64(m) == Char64(n) <==> m == n
  {
    ValueOfChar(m);
    ValueOfChar(n);
  }

  lemma SpareTail(s: string)
    requires |s| > 4 && |s[4..]| >= 4
    ensures Spare(s) == Spare(s[4..])
  {}

  /** A text that decodes is the encoding of its bytes exactly when its spare bits are zero. */
  lemma {:induction false} CanonicalIff(s: string)
    requires Decode64(s).Some?
    ensures Encode64(Decode64(s).value) == s <==> Spare(s) == 0
  {
    hide Quad, FromQuad, FromLast, Padded, Spare;
    if s == "" {
      NoSpare(s);
    } else if |s| == 4 {
      LastCanonical(s);
    } else {
      var rest := Decode64(s[4..]).value;
      QuadOfFromQuad(s[..4]);
      CanonicalIff(s[4..]);
      AtLeastFour(s[4..]);
      SpareTail(s);
      var b := Decode64(s).value;
      assert b[..3] == FromQuad(s[..4]).value && b[3..] == rest;
      assert s == s[..4] + s[4..];
      var e := Encode64(rest);
      assert (s[..4] + e)[4..] == e;
    }
  }

  lemma NoSpare(s: string)
    requires |s| < 4
    ensures Spare(s) == 0
  {}

  lemma AtLeastFour(s: string)
    requires s != "" && Decode64(s).Some?
    ensures |s| >= 4
  {}

  lemma LastCanonical(s: string)
    requires |s| == 4 && FromLast(s).Some?
    ensures Encode64(FromLast(s).value) == s <==> Spare(s) == 0
  {
    hide Quad, FromQuad, Padded;
    if s[3] == '=' {
      PaddedOfFromLast(s);
    } else {
      QuadOfFromQuad(s);
      var b := FromQuad(s).value;
      assert b[..3] == b && b[3..] == [];
      assert Encode64(b) == Quad(b) + "";
    }
  }

  // ----- spellings of one byte string ---------------------------------------------------------------------

  /** Two texts of the same bytes are one text exactly when their spare bits agree. */
  lemma {:induction false} SpellingsIff(s: string, t: string)
    requires Decode64(s).Some? && Decode64(s) == Decode64(t)
    ensures s == t <==> Spare(s) == Spare(t)
  {
    hide FromQuad, FromLast, Spare;
    SameLength(s, t);
    if |s| == 4 {
      LastSpellings(s, t);
    } else if s != "" {
      QuadOfFromQuad(s[..4]);
      QuadOfFromQuad(t[..4]);
      var b, c := Decode64(s).value, Decode64(t).value;
      assert b[..3] == FromQuad(s[..4]).value && c[..3] == FromQuad(t[..4]).value;
      assert b[3..] == Decode64(s[4..]).value && c[3..] == Decode64(t[4..]).value;
      SpellingsIff(s[4..], t[4..]);
      AtLeastFour(s[4..]);
      SpareTail(s);
      SpareTail(t);
      assert s == s[..4] + s[4..] && t == t[..4] + t[4..];
    }
  }

  /** The number of bytes a text stands for fixes its length. */
  lemma {:induction false} LengthOf(s: string)
    requires Decode64(s).Some?
    ensures |s| == (|Decode64(s).value| + 2) / 3 * 4
  {
    hide FromQuad, FromLast;
    if |s| == 4 {
      LastLength(s);
    } else if s != "" {
      LengthOf(s[4..]);
      QuadOfFromQuad(s[..4]);
    }
  }

  lemma LastLength(s: string)
    requires |s| == 4 && FromLast(s).Some?
    ensures 1 <= |FromLast(s).value| <= 3
  {}

  lemma SameLength(s: string, t: string)
    requires Decode64(s).Some? && Decode64(s) == Decode64(t)
    ensures |s| == |t|
  {
    LengthOf(s);
    LengthOf(t);
  }

  lemma LastSpellings(s: string, t: string)
    requires |s| == |t| == 4 && FromLast(s).Some? && FromLast(s) == FromLast(t)
    ensures s == t <==> Spare(s) == Spare(t)
  {
    hide Char64, Value64, Spare;
    SpareOfLast(s);
    SpareOfLast(t);
    if Spare(s) == Spare(t) {
      SameEnding(s, t);
      forall i | 0 <= i < 4 ensures s[i] == t[i] {
        if Value64(s[i]).Some? && Value64(t[i]).Some? { CharOfValue(s[i]); CharOfValue(t[i]); }
      }
    }
  }

  lemma SpareOfLast(s: string)
    requires |s| == 4
    ensures Spare(s) == if s[3] != '=' then 0 else if s[2] == '=' then Value64(s[1]).GetOr(0) % 16 else Value64(s[2]).GetOr(0) % 4
  {}

  lemma FirstTwo(a: sextet, b: sextet, a': sextet, b': sextet)
    requires a * 4 + b / 16 == a' * 4 + b' / 16
    ensures a == a' && b / 16 == b' / 16
    ensures b % 16 == b' % 16 ==> b == b'
  {}

  lemma NextTwo(b: sextet, c: sextet, b': sextet, c': sextet)
    requires b % 16 * 16 + c / 4 == b' % 16 * 16 + c' / 4
    ensures b % 16 == b' % 16 && c / 4 == c' / 4
    ensures c % 4 == c' % 4 ==> c == c'
  {}

  lemma LastTwo(c: sextet, d: sextet, c': sextet, d': sextet)
    requires c % 4 * 64 + d == c' % 4 * 64 + d'
    ensures c % 4 == c' % 4 && d == d'
  {}

  /** Equal bytes and equal spare bits leave nothing to differ in. */
  lemma SameEnding(s: string, t: string)
    requires |s| == |t| == 4 && FromLast(s).Some? && FromLast(s) == FromLast(t) && Spare(s) == Spare(t)
    ensures Value64(s[0]) == Value64(t[0]) && Value64(s[1]) == Value64(t[1]) && Value64(s[0]).Some? && Value64(s[1]).Some?
    ensures (s[3] == '=' <==> t[3] == '=') && (s[3] == '=' ==> (s[2] == '=' <==> t[2] == '='))
    ensures s[3] != '=' || s[2] != '=' ==> Value64(s[2]) == Value64(t[2]) && Value64(s[2]).Some?
    ensures s[3] != '=' ==> Value64(s[3]) == Value64(t[3]) && Value64(s[3]).Some?
  {
    hide Char64, Value64, Spare, FromQuad;
    SpareOfLast(s);
    SpareOfLast(t);
    if s[3] != '=' {
      QuadValues(s);
    }
    if t[3] != '=' {
      QuadValues(t);
    }
    FirstTwo(Value64(s[0]).value, Value64(s[1]).value, Value64(t[0]).value, Value64(t[1]).value);
    if s[3] != '=' || s[2] != '=' {
      NextTwo(Value64(s[1]).value, Value64(s[2]).value, Value64(t[1]).value, Value64(t[2]).value);
    }
    if s[3] != '=' {
      LastTwo(Value64(s[2]).value, Value64(s[3]).value, Value64(t[2]).value, Value64(t[3]).value);
    }
  }

  lemma QuadValues(s: string)
    requires |s| == 4 && FromQuad(s).Some?
    ensures Value64(s[0]).Some? && Value64(s[1]).Some? && Value64(s[2]).Some? && Value64(s[3]).Some?
    ensures var r: bytes := FromQuad(s).value;
            var a: int := Value64(s[0]).value;
            var b: int := Value64(s[1]).value;
            var c: int := Value64(s[2]).value;
            var d: int := Value64(s[3]).value;
            |r| == 3 && r[0] == a * 4 + b / 16 && r[1] == b % 16 * 16 + c / 4 && r[2] == c % 4 * 64 + d
  {
    hide Value64;
  }

  /** Another text of the same bytes, for a text that ends in two padding characters. */
  function Respell(s: string): string
    requires |s| >= 4 && Value64(s[|s| - 3]).Some?
  {
    var v := Value64(s[|s| - 3]).value;
    s[|s| - 3 := Char64(if v % 16 == 15 then v - 15 else v + 1)]
  }

  lemma {:induction false} RespellDecodes(s: string)
    requires Decode64(s).Some? && |Decode64(s).value| % 3 == 1
    ensures |s| >= 4 && Value64(s[|s| - 3]).Some?
    ensures Respell(s) != s && Decode64(Respell(s)) == Decode64(s)
  {
    hide Char64, Value64, FromQuad;
    if |s| == 4 {
      LastLength(s);
      RespellLast(s);
    } else {
      QuadOfFromQuad(s[..4]);
      var rest := Decode64(s[4..]).value;
      assert |Decode64(s).value| == 3 + |rest|;
      RespellDecodes(s[4..]);
      assert s[4..][|s[4..]| - 3] == s[|s| - 3];
      var t := Respell(s);
      assert t[..4] == s[..4] && t[4..] == Respell(s[4..]);
    }
  }

  lemma RespellLast(s: string)
    requires |s| == 4 && FromLast(s).Some? && |FromLast(s).value| == 1
    ensures s[2] == '=' && s[3] == '=' && Value64(s[1]).Some?
    ensures Respell(s) != s && FromLast(Respell(s)) == FromLast(s)
  {
    hide Char64, Value64;
    var v := Value64(s[1]).value;
    var n := if v % 16 == 15 then v - 15 else v + 1;
    CharOfValue(s[1]);
    ValueOfChar(n);
    SameChar(v, n);
    assert n / 16 == v / 16;
  }
}
