/** Bech32m strings: BIP-350, with the checksum structure of BIP-173. */
module Bech32m {
  import opened Bytes
  import opened Text
  import opened Checksum
  import BitRegroup

  const CHARSET := "qpzry9x8gf2tvdw0s3jn54khce6mua7l"

  datatype Decoded = Decoded(hrp: string, payload: bytes)

  // ----- characters ---------------------------------------------------------

  predicate Printable(c: char) { 33 <= c as int <= 126 }

  predicate AllPrintable(s: string) { forall i :: 0 <= i < |s| ==> Printable(s[i]) }

  /** `s.rfind("1")`: the last separator, or -1. */
  function LastOne(s: string): (pos: int)
    ensures -1 <= pos < |s|
    ensures pos >= 0 ==> s[pos] == '1'
    ensures forall i :: pos < i < |s| ==> s[i] != '1'
  {
    if s == "" then -1
    else if s[|s| - 1] == '1' then |s| - 1
    else LastOne(s[..|s| - 1])
  }

  // ----- the charset -----------------------------------------------------------

  /** `CHARSET.index(c)`, or -1 where Python raises. */
  function IndexFrom(c: char, i: nat): (r: int)
    requires i <= 32
    ensures -1 <= r < 32
    ensures r >= 0 ==> CHARSET[r] == c
    ensures r == -1 ==> forall j :: i <= j < 32 ==> CHARSET[j] != c
    decreases 32 - i
  {
    if i == 32 then -1 else if CHARSET[i] == c then i else IndexFrom(c, i + 1)
  }

  function SymbolOf(c: char): int { IndexFrom(c, 0) }

  function CharOf(v: value): char
    requires v < 32
  {
    CHARSET[v]
  }

  lemma CharsetFacts()
    ensures forall i :: 0 <= i < 32 ==>
              Printable(CHARSET[i]) && CHARSET[i] != '1' && LowerChar(CHARSET[i]) == CHARSET[i]
  {}

  lemma CharsetDistinct(i: nat, j: nat)
    requires i < j < 32
    ensures CHARSET[i] != CHARSET[j]
  {}

  lemma SymbolOfCharOf(v: value)
    requires v < 32
    ensures SymbolOf(CharOf(v)) == v
  {
    var i := SymbolOf(CharOf(v));
    assert i != -1 by { assert CHARSET[v] == CharOf(v); }
    if i < v {
      CharsetDistinct(i, v);
    } else if v < i {
      CharsetDistinct(v, i);
    }
  }

  function Chars(d: seq<value>): (r: string)
    requires Symbols(d)
    ensures |r| == |d| && forall i :: 0 <= i < |d| ==> r[i] == CharOf(d[i])
  {
    seq(|d|, i requires 0 <= i < |d| => CharOf(d[i]))
  }

  predicate InCharset(s: string) {
    forall i :: 0 <= i < |s| ==> SymbolOf(s[i]) >= 0
  }

  function SymbolsOf(s: string): (d: seq<value>)
    requires InCharset(s)
    ensures |d| == |s| && Symbols(d) && forall i :: 0 <= i < |s| ==> d[i] == SymbolOf(s[i])
  {
    seq(|s|, i requires 0 <= i < |s| => SymbolOf(s[i]))
  }

  lemma SymbolsOfChars(d: seq<value>)
    requires Symbols(d)
    ensures InCharset(Chars(d)) && SymbolsOf(Chars(d)) == d
  {
    forall i | 0 <= i < |d| ensures SymbolOf(Chars(d)[i]) == d[i] { SymbolOfCharOf(d[i]); }
  }

  lemma CharsOfSymbols(s: string)
    requires InCharset(s)
    ensures Chars(SymbolsOf(s)) == s
  {
    hide SymbolOf;
    forall i | 0 <= i < |s| ensures Chars(SymbolsOf(s))[i] == s[i] { CharOfSymbol(s[i]); }
  }

  lemma CharOfSymbol(c: char)
    requires SymbolOf(c) >= 0
    ensures CharOf(SymbolOf(c)) == c
  {}

  // ----- the codec ---------------------------------------------------------------

  /** `_hrp_expand`: the high bits of every character, a zero, then the low bits. */
  function HrpExpand(hrp: string): (r: seq<value>)
    ensures |r| == 2 * |hrp| + 1
  {
    seq(|hrp|, i requires 0 <= i < |hrp| => hrp[i] as int / 32)
    + [0]
    + seq(|hrp|, i requires 0 <= i < |hrp| => hrp[i] as int % 32)
  }

  predicate VerifyChecksum(hrp: string, data: seq<value>) {
    Polymod(HrpExpand(hrp) + data) == BECH32M_CONST
  }

  /** The 5-bit groups of a payload. */
  function Groups(payload: bytes): (g: seq<value>)
    ensures Symbols(g)
    ensures BitRegroup.Regroup(payload, 8, 5, true) == Some(g)
    ensures BitRegroup.Regroup(g, 5, 8, false) == Some(payload)
  {
    BytesFit(payload);
    BitRegroup.GroupsToBytesOfBytesToGroups(payload);
    GroupsFit(BitRegroup.Regroup(payload, 8, 5, true).value);
    BitRegroup.Regroup(payload, 8, 5, true).value
  }

  lemma Pow2Values()
    ensures BitRegroup.Pow2(5) == 32 && BitRegroup.Pow2(8) == 256
  {
    assert BitRegroup.Pow2(3) == 8;
    assert BitRegroup.Pow2(5) == 2 * (2 * BitRegroup.Pow2(3));
    assert BitRegroup.Pow2(7) == 2 * (2 * BitRegroup.Pow2(5));
  }

  lemma BytesFit(p: bytes)
    ensures BitRegroup.AllFit(p, 8)
  {
    Pow2Values();
  }

  lemma GroupsFit(g: seq<int>)
    ensures BitRegroup.AllFit(g, 5) <==> forall i :: 0 <= i < |g| ==> 0 <= g[i] < 32
  {
    Pow2Values();
  }

  function Encode(hrp: string, payload: bytes): string {
    var data := Groups(payload);
    hrp + "1" + Chars(data + CreateChecksum(HrpExpand(hrp) + data))
  }

  function Decode(s0: string): Option<Decoded> {
    if !AllPrintable(s0) then None
    else if Lower(s0) != s0 && Upper(s0) != s0 then None
    else
      var s := Lower(s0);
      var pos := LastOne(s);
      if pos < 1 || pos + 7 > |s| then None
      else DecodeParts(s[..pos], s[pos + 1..])
  }

  function DecodeParts(hrp: string, tail: string): Option<Decoded>
    requires |tail| >= 6
  {
    if !InCharset(tail) || !VerifyChecksum(hrp, SymbolsOf(tail)) then None
    else
      match BitRegroup.Regroup(SymbolsOf(tail)[..|tail| - 6], 5, 8, false)
      case None => None
      case Some(payload) =>
        PayloadFits(SymbolsOf(tail)[..|tail| - 6]);
        Some(Decoded(hrp, payload))
  }

  lemma PayloadFits(g: seq<int>)
    requires BitRegroup.Regroup(g, 5, 8, false).Some?
    ensures forall i :: 0 <= i < |BitRegroup.Regroup(g, 5, 8, false).value| ==>
              0 <= BitRegroup.Regroup(g, 5, 8, false).value[i] < 256
  {
    BitRegroup.BytesToGroupsOfGroupsToBytes(g);
    Pow2Values();
  }

  // ----- what the two halves mean to each other -------------------------------------

  /** The accepted tails are exactly the groups of a payload followed by their checksum. */
  lemma DecodePartsIff(hrp: string, tail: string, payload: bytes)
    requires |tail| >= 6
    ensures DecodeParts(hrp, tail) == Some(Decoded(hrp, payload))
       <==> tail == Chars(Groups(payload) + CreateChecksum(HrpExpand(hrp) + Groups(payload)))
  {
    hide DecodeParts, Groups, CreateChecksum, HrpExpand, Chars;
    if DecodeParts(hrp, tail) == Some(Decoded(hrp, payload)) {
      AcceptedTail(hrp, tail, payload);
    }
    if tail == Chars(Groups(payload) + CreateChecksum(HrpExpand(hrp) + Groups(payload))) {
      WrittenTail(hrp, tail, payload);
    }
  }

  lemma AcceptedTail(hrp: string, tail: string, payload: bytes)
    requires |tail| >= 6 && DecodeParts(hrp, tail) == Some(Decoded(hrp, payload))
    ensures tail == Chars(Groups(payload) + CreateChecksum(HrpExpand(hrp) + Groups(payload)))
  {
    hide BitRegroup.Regroup, SymbolOf, Polymod, CreateChecksum, HrpExpand;
    var d, g := SymbolsOf(tail), Groups(payload);
    var body, check := d[..|d| - 6], d[|d| - 6..];
    BitRegroup.BytesToGroupsOfGroupsToBytes(body);
    assert body == g;
    assert d == body + check && HrpExpand(hrp) + d == HrpExpand(hrp) + g + check;
    ChecksumVerifies(HrpExpand(hrp) + g, check);
    CharsOfSymbols(tail);
  }

  lemma WrittenTail(hrp: string, tail: string, payload: bytes)
    requires |tail| >= 6 && tail == Chars(Groups(payload) + CreateChecksum(HrpExpand(hrp) + Groups(payload)))
    ensures DecodeParts(hrp, tail) == Some(Decoded(hrp, payload))
  {
    hide BitRegroup.Regroup, SymbolOf, Polymod, CreateChecksum, HrpExpand;
    var g := Groups(payload);
    var cs := CreateChecksum(HrpExpand(hrp) + g);
    SymbolsOfChars(g + cs);
    assert (g + cs)[..|g + cs| - 6] == g;
    assert HrpExpand(hrp) + (g + cs) == HrpExpand(hrp) + g + cs;
    ChecksumVerifies(HrpExpand(hrp) + g, cs);
  }

  lemma DecodePartsHrp(hrp: string, tail: string)
    requires |tail| >= 6 && DecodeParts(hrp, tail).Some?
    ensures DecodeParts(hrp, tail).value.hrp == hrp
  {}

  lemma LastOneIs(s: string, pos: nat)
    requires pos < |s| && s[pos] == '1' && forall i :: pos < i < |s| ==> s[i] != '1'
    ensures LastOne(s) == pos
  {}

  /** Re-encoding: an accepted string in lower case is the encoding of what it decodes to. */
  lemma EncodeOfDecode(s: string)
    requires Decode(s).Some?
    ensures Encode(Decode(s).value.hrp, Decode(s).value.payload) == Lower(s)
  {
    hide DecodeParts, Chars, CreateChecksum, HrpExpand, LastOne;
    var low := Lower(s);
    var pos := LastOne(low);
    DecodePartsHrp(low[..pos], low[pos + 1..]);
    DecodePartsIff(low[..pos], low[pos + 1..], Decode(s).value.payload);
    assert low == low[..pos] + "1" + low[pos + 1..];
  }

  /** A usable human-readable part: non-empty, printable and free of capitals. */
  predicate CanonicalHrp(hrp: string) {
    hrp != "" && AllPrintable(hrp) && Lower(hrp) == hrp
  }

  predicate DataChar(c: char) { Printable(c) && c != '1' && LowerChar(c) == c }

  lemma CharsAreData(d: seq<value>)
    requires Symbols(d)
    ensures forall i :: 0 <= i < |d| ==> DataChar(Chars(d)[i])
  {
    CharsetFacts();
  }

  lemma JoinShape(hrp: string, tail: string)
    requires |tail| >= 6 && forall i :: 0 <= i < |tail| ==> DataChar(tail[i])
    ensures var e := hrp + "1" + tail;
            && e[..|hrp|] == hrp && e[|hrp|] == '1'
            && (forall i :: |hrp| < i < |e| ==> DataChar(e[i]))
            && LastOne(e) == |hrp|
  {
    hide LastOne;
    var e := hrp + "1" + tail;
    forall i | |hrp| < i < |e| ensures DataChar(e[i]) { assert e[i] == tail[i - |hrp| - 1]; }
    LastOneIs(e, |hrp|);
  }

  lemma EncodeShape(hrp: string, payload: bytes)
    ensures var e := Encode(hrp, payload);
            && |e| >= |hrp| + 7 && e[..|hrp|] == hrp && e[|hrp|] == '1'
            && (forall i :: |hrp| < i < |e| ==> DataChar(e[i]))
            && LastOne(e) == |hrp|
  {
    hide CreateChecksum, HrpExpand, LastOne, DataChar;
    var data := Groups(payload);
    var cs := data + CreateChecksum(HrpExpand(hrp) + data);
    CharsAreData(cs);
    JoinShape(hrp, Chars(cs));
  }

  /** Decoding undoes encoding exactly for the canonical human-readable parts. */
  lemma DecodeOfEncode(hrp: string, payload: bytes)
    ensures Decode(Encode(hrp, payload)) == Some(Decoded(hrp, payload)) <==> CanonicalHrp(hrp)
  {
    hide DecodeParts, CreateChecksum, HrpExpand, LastOne;
    var e := Encode(hrp, payload);
    EncodeShape(hrp, payload);
    if CanonicalHrp(hrp) {
      forall i | 0 <= i < |e| ensures Printable(e[i]) && LowerChar(e[i]) == e[i] {
        if i < |hrp| { assert e[i] == hrp[i]; }
      }
      assert Lower(e) == e;
      assert e == hrp + "1" + e[|hrp| + 1..];
      assert e[|hrp| + 1..] == Chars(Groups(payload) + CreateChecksum(HrpExpand(hrp) + Groups(payload)));
      DecodePartsIff(hrp, e[|hrp| + 1..], payload);
    }
    if Decode(e) == Some(Decoded(hrp, payload)) {
      var pos := LastOne(Lower(e));
      DecodePartsHrp(Lower(e)[..pos], Lower(e)[pos + 1..]);
      DecodedHrpCanonical(e);
    }
  }

  lemma DecodedHrpCanonical(s: string)
    requires Decode(s).Some?
    ensures CanonicalHrp(Decode(s).value.hrp)
  {
    var low := Lower(s);
    DecodePartsHrp(low[..LastOne(low)], low[LastOne(low) + 1..]);
    LowerTwice(s);
  }

  lemma LowerTwice(s: string)
    ensures Lower(Lower(s)) == Lower(s)
  {}

  // ----- error detection ---------------------------------------------------------------

  /** Two symbol strings that verify under one prefix and differ inside one window are equal. */
  lemma TailsAgree(h: seq<value>, x: seq<value>, y: seq<value>, m: nat)
    requires |x| == |y| && m + 6 <= |x| && Symbols(x) && Symbols(y)
    requires x[..m] == y[..m] && x[m + 6..] == y[m + 6..]
    requires Polymod(h + x) == Polymod(h + y)
    ensures x == y
  {
    hide Polymod;
    assert h + x == (h + x[..m]) + x[m..m + 6] + x[m + 6..];
    assert h + y == (h + x[..m]) + y[m..m + 6] + x[m + 6..];
    WindowDetermined(h + x[..m], x[m..m + 6], y[m..m + 6], x[m + 6..]);
    assert x == x[..m] + x[m..m + 6] + x[m + 6..];
    assert y == y[..m] + y[m..m + 6] + y[m + 6..];
  }

  lemma SymbolCharsAreNotOne(c: char)
    requires SymbolOf(c) >= 0
    ensures c != '1' && LowerChar(c) == c
  {
    CharsetFacts();
    assert CHARSET[SymbolOf(c)] == c;
  }

  /** Where the strings differ: both positions lie in the window of the data part. */
  ghost predicate DifferInWindow(a: string, b: string, k: nat) {
    |a| == |b| && k + 6 <= |a| && a[..k] == b[..k] && a[k + 6..] == b[k + 6..]
  }

  lemma SameSeparator(a: string, b: string, k: nat)
    requires DifferInWindow(a, b, k) && 0 <= LastOne(a) < k
    requires forall i :: k <= i < k + 6 ==> SymbolOf(b[i]) >= 0
    ensures LastOne(b) == LastOne(a)
  {
    hide LastOne, SymbolOf;
    var pos := LastOne(a);
    forall i | pos <= i < |b| ensures i == pos ==> b[i] == '1' ensures i > pos ==> b[i] != '1' {
      if i < k {
        assert b[..k][i] == a[..k][i];
      } else if i < k + 6 {
        SymbolCharsAreNotOne(b[i]);
      } else {
        assert b[k + 6..][i - k - 6] == a[k + 6..][i - k - 6];
      }
    }
    LastOneIs(b, pos);
  }

  lemma BurstDetectedLower(a: string, b: string, k: nat)
    requires DifferInWindow(a, b, k) && 1 <= LastOne(a) < k
    requires forall i :: k <= i < k + 6 ==> SymbolOf(b[i]) >= 0
    requires DecodeParts(a[..LastOne(a)], a[LastOne(a) + 1..]).Some? && a != b
    ensures LastOne(b) == LastOne(a) && DecodeParts(b[..LastOne(b)], b[LastOne(b) + 1..]) == None
  {
    hide LastOne, SymbolOf, Polymod, HrpExpand, SymbolsOf, Chars, BitRegroup.Regroup;
    var pos := LastOne(a);
    SameSeparator(a, b, k);
    assert a[..pos] == b[..pos] by { assert a[..pos] == a[..k][..pos] && b[..pos] == b[..k][..pos]; }
    var p, q := a[pos + 1..], b[pos + 1..];
    assert a == a[..k][..pos + 1] + p && b == b[..k][..pos + 1] + q;
    if InCharset(q) && VerifyChecksum(b[..pos], SymbolsOf(q)) {
      var m := k - pos - 1;
      SymbolsSlices(p, q, m, a, b, k, pos);
      TailsAgree(HrpExpand(a[..pos]), SymbolsOf(p), SymbolsOf(q), m);
      CharsOfSymbols(p);
      CharsOfSymbols(q);
    }
  }

  lemma SymbolsSlices(p: string, q: string, m: nat, a: string, b: string, k: nat, pos: nat)
    requires DifferInWindow(a, b, k) && pos < k && m == k - pos - 1
    requires p == a[pos + 1..] && q == b[pos + 1..] && InCharset(p) && InCharset(q)
    ensures SymbolsOf(p)[..m] == SymbolsOf(q)[..m] && SymbolsOf(p)[m + 6..] == SymbolsOf(q)[m + 6..]
  {
    hide SymbolOf;
    forall i | 0 <= i < m ensures p[i] == q[i] {
      assert a[..k][pos + 1 + i] == b[..k][pos + 1 + i];
    }
    forall i | m + 6 <= i < |p| ensures p[i] == q[i] {
      assert a[k + 6..][i - m - 6] == b[k + 6..][i - m - 6];
    }
  }

  /**
   * Burst detection: changing an accepted string only inside six consecutive characters of its
   * data part, to characters whose lower case is in the charset, gives a rejected string
   * unless the change was one of letter case only.
   */
  lemma BurstDetected(s: string, t: string, k: nat)
    requires Decode(s).Some? && |s| == |t|
    requires LastOne(Lower(s)) < k && k + 6 <= |s|
    requires forall i :: 0 <= i < |s| && !(k <= i < k + 6) ==> s[i] == t[i]
    requires forall i :: k <= i < k + 6 ==> SymbolOf(LowerChar(t[i])) >= 0
    requires Lower(s) != Lower(t)
    ensures Decode(t) == None
  {
    hide DecodeParts, LastOne, SymbolOf;
    BurstDetectedLower(Lower(s), Lower(t), k);
  }

  /** Replacing one data character by a different charset character is always detected. */
  lemma SubstitutionDetected(s: string, i: nat, c: char)
    requires Decode(s).Some? && Lower(s) == s
    requires LastOne(s) < i < |s| && SymbolOf(c) >= 0 && c != s[i]
    ensures Decode(s[i := c]) == None
  {
    hide DecodeParts, LastOne, SymbolOf;
    var t := s[i := c];
    var k := if i + 6 <= |s| then i else |s| - 6;
    SymbolCharsAreNotOne(c);
    forall j | k <= j < k + 6 ensures SymbolOf(LowerChar(t[j])) >= 0 {
      if j != i { DataInCharset(s, j); }
    }
    assert Lower(t)[i] == c && Lower(s)[i] == s[i];
    BurstDetected(s, t, k);
  }

  lemma DataInCharset(s: string, j: nat)
    requires Decode(s).Some? && LastOne(Lower(s)) < j < |s|
    ensures SymbolOf(LowerChar(s[j])) >= 0
  {
    var low := Lower(s);
    var pos := LastOne(low);
    assert InCharset(low[pos + 1..]);
    assert low[pos + 1..][j - pos - 1] == low[j];
  }
}
