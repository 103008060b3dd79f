/** The Bech32m checksum (`_polymod`) as a linear map over 30-bit words. */
module Checksum {

  type word = bv30

  /** Expanded human-readable parts reach `0x10FFFF >> 5`; data symbols stay below 32. */
  type value = v: int | 0 <= v < 0x1_0000

  const BECH32M_CONST: word := 0x2bc830a3

  function When(bit: word, g: word): word { if bit == 1 then g else 0 }

  /** `gen[i] if ((b >> i) & 1) else 0` */
  function Pick(b: word, i: nat): word
    requires i < 5
  {
    match i
    case 0 => When(b & 1, 0x3b6a57b2)
    case 1 => When((b >> 1) & 1, 0x26508e6d)
    case 2 => When((b >> 2) & 1, 0x1ea119fa)
    case 3 => When((b >> 3) & 1, 0x3d4233dd)
    case _ => When((b >> 4) & 1, 0x2a1462b3)
  }

  function Xor(a: word, b: word): word { a ^ b }
  function Top(c: word): word { c >> 25 }
  function Feedback(b: word): word {
    Xor(Xor(Xor(Xor(Pick(b, 0), Pick(b, 1)), Pick(b, 2)), Pick(b, 3)), Pick(b, 4))
  }
  function Absorb(c: word, v: word): word { ((c & 0x1ffffff) << 5) ^ v }

  /** One round of the checksum: absorb `v` into the state `c`. */
  function Step(c: word, v: word): word { Xor(Absorb(c, v), Feedback(Top(c))) }

  function Word(v: value): word { v as word }

  function PolymodFrom(c: word, vs: seq<value>): word {
    if vs == [] then c else Step(PolymodFrom(c, vs[..|vs| - 1]), Word(vs[|vs| - 1]))
  }

  function Polymod(vs: seq<value>): word { PolymodFrom(1, vs) }

  // ----- the loops ----------------------------------------------------------

  function FeedbackUpTo(b: word, n: nat): word
    requires n <= 5
  {
    if n == 0 then 0 else Xor(FeedbackUpTo(b, n - 1), Pick(b, n - 1))
  }

  lemma FeedbackIsUpTo(b: word)
    ensures FeedbackUpTo(b, 5) == Feedback(b)
  {
    hide Pick, Xor;
    var p0, p1, p2, p3 := Pick(b, 0), Pick(b, 1), Pick(b, 2), Pick(b, 3);
    XorLaws(p0, 0);
    assert FeedbackUpTo(b, 1) == Xor(FeedbackUpTo(b, 0), p0) == p0;
    assert FeedbackUpTo(b, 3) == Xor(Xor(p0, p1), p2);
  }

  lemma XorAssociative(a: word, b: word, c: word)
    ensures Xor(Xor(a, b), c) == Xor(a, Xor(b, c))
  {}

  method Round(c: word, v: value) returns (chk: word)
    ensures chk == Step(c, Word(v))
  {
    hide Pick, Absorb, Feedback, Top, Word, Xor;
    var b := Top(c);
    var mixed := Absorb(c, Word(v));
    chk := mixed;
    XorLaws(mixed, 0);
    for i := 0 to 5
      invariant chk == Xor(mixed, FeedbackUpTo(b, i))
    {
      XorAssociative(mixed, FeedbackUpTo(b, i), Pick(b, i));
      chk := Xor(chk, Pick(b, i));
    }
    FeedbackIsUpTo(b);
  }

  method ComputePolymod(vs: seq<value>) returns (chk: word)
    ensures chk == Polymod(vs)
  {
    hide Step, Word;
    chk := 1;
    for i := 0 to |vs|
      invariant chk == PolymodFrom(1, vs[..i])
    {
      assert vs[..i + 1][..i] == vs[..i];
      chk := Round(chk, vs[i]);
    }
    assert vs[..|vs|] == vs;
  }

  // ----- linearity -----------------------------------------------------------

  lemma XorCommutes(a: word, b: word)
    ensures Xor(a, b) == Xor(b, a)
  {}

  lemma XorSwap(a: word, b: word, c: word, d: word)
    ensures Xor(Xor(a, b), Xor(c, d)) == Xor(Xor(a, c), Xor(b, d))
  {
    hide Xor;
    XorAssociative(a, b, Xor(c, d));
    XorAssociative(b, c, d);
    XorCommutes(b, c);
    XorAssociative(c, b, d);
    XorAssociative(a, c, Xor(b, d));
  }

  lemma WhenLinear(x: word, y: word, g: word)
    requires x < 2 && y < 2
    ensures When(x ^ y, g) == Xor(When(x, g), When(y, g))
  {
    hide Xor;
    XorLaws(g, g);
    XorLaws(0, 0);
    if x == 0 {
      assert x ^ y == y;
    } else {
      assert x == 1;
    }
  }

  lemma BitLinear(a: word, b: word)
    ensures Xor(a, b) & 1 == (a & 1) ^ (b & 1)
    ensures (Xor(a, b) >> 1) & 1 == ((a >> 1) & 1) ^ ((b >> 1) & 1)
    ensures (Xor(a, b) >> 2) & 1 == ((a >> 2) & 1) ^ ((b >> 2) & 1)
    ensures (Xor(a, b) >> 3) & 1 == ((a >> 3) & 1) ^ ((b >> 3) & 1)
    ensures (Xor(a, b) >> 4) & 1 == ((a >> 4) & 1) ^ ((b >> 4) & 1)
    ensures a & 1 < 2 && (a >> 1) & 1 < 2 && (a >> 2) & 1 < 2 && (a >> 3) & 1 < 2 && (a >> 4) & 1 < 2
  {}

  lemma PickLinear(a: word, b: word, i: nat)
    requires i < 5
    ensures Pick(Xor(a, b), i) == Xor(Pick(a, i), Pick(b, i))
  {
    hide Xor, When;
    BitLinear(a, b);
    BitLinear(b, a);
    match i
    case 0 => WhenLinear(a & 1, b & 1, 0x3b6a57b2);
    case 1 => WhenLinear((a >> 1) & 1, (b >> 1) & 1, 0x26508e6d);
    case 2 => WhenLinear((a >> 2) & 1, (b >> 2) & 1, 0x1ea119fa);
    case 3 => WhenLinear((a >> 3) & 1, (b >> 3) & 1, 0x3d4233dd);
    case _ => WhenLinear((a >> 4) & 1, (b >> 4) & 1, 0x2a1462b3);
  }

  lemma FeedbackLinear(a: word, b: word)
    ensures Feedback(Xor(a, b)) == Xor(Feedback(a), Feedback(b))
  {
    hide Pick, Xor;
    PickLinear(a, b, 0);
    PickLinear(a, b, 1);
    PickLinear(a, b, 2);
    PickLinear(a, b, 3);
    PickLinear(a, b, 4);
    var a1, b1 := Xor(Pick(a, 0), Pick(a, 1)), Xor(Pick(b, 0), Pick(b, 1));
    var a2, b2 := Xor(a1, Pick(a, 2)), Xor(b1, Pick(b, 2));
    XorSwap(Pick(a, 0), Pick(b, 0), Pick(a, 1), Pick(b, 1));
    XorSwap(a1, b1, Pick(a, 2), Pick(b, 2));
    XorSwap(a2, b2, Pick(a, 3), Pick(b, 3));
    XorSwap(Xor(a2, Pick(a, 3)), Xor(b2, Pick(b, 3)), Pick(a, 4), Pick(b, 4));
  }

  lemma AbsorbTopLinear(a: word, b: word, v: word, w: word)
    ensures Absorb(Xor(a, b), Xor(v, w)) == Xor(Absorb(a, v), Absorb(b, w))
    ensures Top(Xor(a, b)) == Xor(Top(a), Top(b))
  {}

  /** A round is linear over GF(2) in the state and the input together. */
  lemma StepLinear(a: word, b: word, v: word, w: word)
    ensures Step(Xor(a, b), Xor(v, w)) == Xor(Step(a, v), Step(b, w))
  {
    hide Feedback, Absorb, Xor, Top;
    AbsorbTopLinear(a, b, v, w);
    FeedbackLinear(Top(a), Top(b));
    XorSwap(Absorb(a, v), Absorb(b, w), Feedback(Top(a)), Feedback(Top(b)));
  }

  /** The zero-input round has trivial kernel. */
  lemma StepKernel(c: word)
    requires Step(c, 0) == 0
    ensures c == 0
  {}

  lemma XorUnit(a: word)
    ensures Xor(a, a) == 0 && Xor(a, 0) == a && Xor(0, a) == a
  {}

  lemma XorZero(a: word, b: word)
    ensures Xor(a, b) == 0 ==> a == b
  {}

  lemma XorTwice(a: word, b: word)
    ensures Xor(a, Xor(a, b)) == b
  {}

  lemma XorLaws(a: word, b: word)
    ensures Xor(a, a) == 0 && Xor(a, 0) == a && Xor(0, a) == a
    ensures Xor(a, b) == 0 ==> a == b
    ensures Xor(a, Xor(a, b)) == b
  {
    hide Xor;
    XorUnit(a);
    XorZero(a, b);
    XorTwice(a, b);
  }

  lemma StepInjective(a: word, b: word, v: word)
    requires Step(a, v) == Step(b, v)
    ensures a == b
  {
    hide *;
    StepLinear(a, b, v, v);
    XorLaws(v, v);
    XorLaws(Step(a, v), Step(b, v));
    StepKernel(Xor(a, b));
    XorLaws(a, b);
  }

  lemma {:induction false} PolymodConcat(c: word, s: seq<value>, t: seq<value>)
    ensures PolymodFrom(c, s + t) == PolymodFrom(PolymodFrom(c, s), t)
  {
    hide Step, Word;
    if t == [] {
      assert s + t == s;
    } else {
      assert (s + t)[..|s + t| - 1] == s + t[..|t| - 1];
      PolymodConcat(c, s, t[..|t| - 1]);
    }
  }

  /** Absorbing the same symbols keeps different states different. */
  lemma {:induction false} PolymodInjective(a: word, b: word, s: seq<value>)
    requires PolymodFrom(a, s) == PolymodFrom(b, s)
    ensures a == b
  {
    hide Step, Word;
    if s != [] {
      var front := s[..|s| - 1];
      StepInjective(PolymodFrom(a, front), PolymodFrom(b, front), Word(s[|s| - 1]));
      PolymodInjective(a, b, front);
    }
  }

  function Zeros(n: nat): seq<value> { seq(n, _ => 0) }

  /** The contribution of the symbols is independent of the state they are absorbed into. */
  lemma {:induction false} PolymodAffine(c: word, s: seq<value>)
    ensures PolymodFrom(c, s) == Xor(PolymodFrom(c, Zeros(|s|)), PolymodFrom(0, s))
  {
    hide Step, Word, Xor;
    if s == [] {
      XorLaws(c, 0);
    } else {
      var front, v := s[..|s| - 1], Word(s[|s| - 1]);
      PolymodAffine(c, front);
      assert Zeros(|s|)[..|s| - 1] == Zeros(|front|);
      StepLinear(PolymodFrom(c, Zeros(|front|)), PolymodFrom(0, front), 0, v);
      XorLaws(v, 0);
      WordZero();
    }
  }

  lemma WordZero()
    ensures Word(0) == 0
  {}

  // ----- six symbols fit in the state -----------------------------------------

  function Concat6(a: word, b: word, c: word, d: word, e: word, f: word): word {
    (a << 25) | (b << 20) | (c << 15) | (d << 10) | (e << 5) | f
  }

  predicate Symbols(s: seq<value>) {
    forall i :: 0 <= i < |s| ==> s[i] < 32
  }

  /** While fewer than six symbols have been absorbed, a round only appends one. */
  lemma SmallRound(c: word, v: word)
    requires c < 0x2000000 && v < 32
    ensures Step(c, v) == (c << 5) | v
  {}

  lemma AppendShifts(a: word, b: word, c: word, d: word, e: word, f: word)
    requires a < 32 && b < 32 && c < 32 && d < 32 && e < 32 && f < 32
    ensures (0 << 5) | a == a
    ensures (a << 5) | b < 0x400
    ensures (((a << 5) | b) << 5) | c < 0x8000
    ensures (((((a << 5) | b) << 5) | c) << 5) | d < 0x100000
    ensures (((((((a << 5) | b) << 5) | c) << 5) | d) << 5) | e < 0x2000000
    ensures (((((((((a << 5) | b) << 5) | c) << 5) | d) << 5) | e) << 5) | f == Concat6(a, b, c, d, e, f)
  {}

  lemma SixRounds(a: word, b: word, c: word, d: word, e: word, f: word)
    requires a < 32 && b < 32 && c < 32 && d < 32 && e < 32 && f < 32
    ensures Step(Step(Step(Step(Step(Step(0, a), b), c), d), e), f) == Concat6(a, b, c, d, e, f)
  {
    hide Step, Concat6;
    AppendShifts(a, b, c, d, e, f);
    var s2 := (a << 5) | b;
    var s3 := (s2 << 5) | c;
    var s4 := (s3 << 5) | d;
    var s5 := (s4 << 5) | e;
    SmallRound(0, a);
    SmallRound(a, b);
    SmallRound(s2, c);
    SmallRound(s3, d);
    SmallRound(s4, e);
    SmallRound(s5, f);
  }

  lemma Concat6Injective(a: word, b: word, c: word, d: word, e: word, f: word,
                         a': word, b': word, c': word, d': word, e': word, f': word)
    requires a < 32 && b < 32 && c < 32 && d < 32 && e < 32 && f < 32
    requires a' < 32 && b' < 32 && c' < 32 && d' < 32 && e' < 32 && f' < 32
    requires Concat6(a, b, c, d, e, f) == Concat6(a', b', c', d', e', f')
    ensures a == a' && b == b' && c == c' && d == d' && e == e' && f == f'
  {}

  lemma WordOfSymbol(v: value)
    requires v < 32
    ensures Word(v) < 32 && Word(v) as int == v
  {
    SymbolFitsWord(v);
    SymbolRoundTrip(v);
  }

  lemma SymbolFitsWord(v: value)
    requires v < 32
    ensures Word(v) < 32
  {}

  lemma SymbolRoundTrip(v: value)
    requires v < 32
    ensures Word(v) as int == v
  {
    var five: bv5 := v as bv5;
    assert five as int == v;
    assert five as word == Word(v);
  }

  lemma SixSymbols(s: seq<value>)
    requires |s| == 6 && Symbols(s)
    ensures forall i :: 0 <= i < 6 ==> Word(s[i]) < 32
    ensures PolymodFrom(0, s) == Concat6(Word(s[0]), Word(s[1]), Word(s[2]), Word(s[3]), Word(s[4]), Word(s[5]))
  {
    hide Step, Word, Concat6;
    forall i | 0 <= i < 6 ensures Word(s[i]) < 32 { WordOfSymbol(s[i]); }
    assert s[..5][..4] == s[..4] && s[..4][..3] == s[..3] && s[..3][..2] == s[..2] && s[..2][..1] == s[..1] && s[..1][..0] == [];
    assert PolymodFrom(0, s[..1]) == Step(0, Word(s[0]));
    assert PolymodFrom(0, s[..2]) == Step(Step(0, Word(s[0])), Word(s[1]));
    assert PolymodFrom(0, s[..4]) == Step(Step(PolymodFrom(0, s[..2]), Word(s[2])), Word(s[3]));
    SixRounds(Word(s[0]), Word(s[1]), Word(s[2]), Word(s[3]), Word(s[4]), Word(s[5]));
  }

  lemma SixSymbolsInjective(s: seq<value>, t: seq<value>)
    requires |s| == |t| == 6 && Symbols(s) && Symbols(t)
    requires PolymodFrom(0, s) == PolymodFrom(0, t)
    ensures s == t
  {
    hide Step, Word, Concat6, PolymodFrom;
    SixSymbols(s);
    SixSymbols(t);
    Concat6Injective(Word(s[0]), Word(s[1]), Word(s[2]), Word(s[3]), Word(s[4]), Word(s[5]),
                     Word(t[0]), Word(t[1]), Word(t[2]), Word(t[3]), Word(t[4]), Word(t[5]));
    forall i | 0 <= i < 6 ensures s[i] == t[i] {
      WordOfSymbol(s[i]);
      WordOfSymbol(t[i]);
    }
  }

  /**
   * Two words that agree outside one window of six consecutive symbols and have the same
   * checksum are the same word. Both single-symbol errors and the uniqueness of the appended
   * checksum are instances.
   */
  lemma WindowDetermined(pre: seq<value>, s: seq<value>, t: seq<value>, suf: seq<value>)
    requires |s| == |t| == 6 && Symbols(s) && Symbols(t)
    requires Polymod(pre + s + suf) == Polymod(pre + t + suf)
    ensures s == t
  {
    hide PolymodFrom;
    var c := PolymodFrom(1, pre);
    PolymodConcat(1, pre + s, suf);
    PolymodConcat(1, pre + t, suf);
    PolymodConcat(1, pre, s);
    PolymodConcat(1, pre, t);
    PolymodInjective(PolymodFrom(c, s), PolymodFrom(c, t), suf);
    PolymodAffine(c, s);
    PolymodAffine(c, t);
    CancelXor(PolymodFrom(c, Zeros(6)), PolymodFrom(0, s), PolymodFrom(0, t));
    SixSymbolsInjective(s, t);
  }

  lemma CancelXor(a: word, b: word, c: word)
    requires Xor(a, b) == Xor(a, c)
    ensures b == c
  {
    hide Xor;
    XorLaws(a, b);
    XorLaws(a, c);
  }

  // ----- creating a checksum ---------------------------------------------------

  function Low5(w: word): (v: value)
    ensures v < 32 && Word(v) == w & 31
  {
    (w & 31) as int
  }

  /** The six symbols that `_create_checksum` appends after the values `vs`. */
  function CreateChecksum(vs: seq<value>): (r: seq<value>)
    ensures |r| == 6 && Symbols(r)
  {
    var p := Xor(Polymod(vs + Zeros(6)), BECH32M_CONST);
    [Low5(p >> 25), Low5(p >> 20), Low5(p >> 15), Low5(p >> 10), Low5(p >> 5), Low5(p)]
  }

  lemma Reassemble(p: word)
    ensures Concat6((p >> 25) & 31, (p >> 20) & 31, (p >> 15) & 31, (p >> 10) & 31, (p >> 5) & 31, p & 31) == p
  {}

  lemma CreatedChecksumVerifies(vs: seq<value>)
    ensures Polymod(vs + CreateChecksum(vs)) == BECH32M_CONST
  {
    hide PolymodFrom, Low5, Concat6, Xor, Word;
    var good := CreateChecksum(vs);
    var p := Xor(Polymod(vs + Zeros(6)), BECH32M_CONST);
    PolymodConcat(1, vs, Zeros(6));
    PolymodConcat(1, vs, good);
    PolymodAffine(PolymodFrom(1, vs), good);
    SixSymbols(good);
    Reassemble(p);
    XorLaws(Polymod(vs + Zeros(6)), BECH32M_CONST);
  }

  /** The checksum that is created is the only one that verifies. */
  lemma ChecksumVerifies(vs: seq<value>, cs: seq<value>)
    requires |cs| == 6 && Symbols(cs)
    ensures Polymod(vs + cs) == BECH32M_CONST <==> cs == CreateChecksum(vs)
  {
    hide Polymod, CreateChecksum;
    CreatedChecksumVerifies(vs);
    if Polymod(vs + cs) == BECH32M_CONST {
      assert vs + cs + [] == vs + cs && vs + CreateChecksum(vs) + [] == vs + CreateChecksum(vs);
      WindowDetermined(vs, cs, CreateChecksum(vs), []);
    }
  }
}
