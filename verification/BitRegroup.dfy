/** Regrouping a stream of `from`-bit values into `to`-bit values (`_convertbits`). */
module BitRegroup {
  import opened Bytes

  // ----- shifts of unbounded integers --------------------------------------

  lemma DivNonNegative(x: int, d: int)
    requires x >= 0 && d > 0
    ensures x / d >= 0
  {}

  function Pow2(n: nat): (r: nat)
    ensures r >= 1
  {
    if n == 0 then 1 else 2 * Pow2(n - 1)
  }

  function Shl(x: nat, n: nat): nat { x * Pow2(n) }
  function Shr(x: nat, n: nat): nat {
    DivNonNegative(x, Pow2(n));
    x / Pow2(n)
  }
  /** `x & ((1 << n) - 1)` */
  function Low(x: nat, n: nat): nat { x % Pow2(n) }

  lemma MulMono(a: int, b: int, d: nat)
    requires a <= b
    ensures a * d <= b * d
  {}

  lemma Distribute(a: int, b: int, d: int)
    ensures (a + b) * d == a * d + b * d
  {}

  lemma Associate(a: int, b: int, c: int)
    ensures (a * b) * c == a * (b * c)
  {}

  lemma DivMod(x: int, d: int)
    requires d > 0
    ensures x == (x / d) * d + x % d
  {}

  lemma DivUnique(x: int, d: int, q: int, r: int)
    requires d > 0 && x == q * d + r && 0 <= r < d
    ensures x / d == q && x % d == r
  {
    var q' := x / d;
    DivMod(x, d);
    if q' < q {
      MulMono(q' + 1, q, d);
      Distribute(q', 1, d);
    } else if q' > q {
      MulMono(q + 1, q', d);
      Distribute(q, 1, d);
    }
  }

  lemma {:induction false} Pow2Add(a: nat, b: nat)
    ensures Pow2(a + b) == Pow2(a) * Pow2(b)
  {
    if a != 0 {
      Pow2Add(a - 1, b);
      Associate(2, Pow2(a - 1), Pow2(b));
    }
  }

  lemma Split(x: nat, n: nat)
    ensures x == Shl(Shr(x, n), n) + Low(x, n) && Low(x, n) < Pow2(n)
  {
    DivMod(x, Pow2(n));
  }

  lemma Join(q: nat, v: nat, n: nat)
    requires v < Pow2(n)
    ensures Shr(Shl(q, n) + v, n) == q && Low(Shl(q, n) + v, n) == v
  {
    DivUnique(Shl(q, n) + v, Pow2(n), q, v);
  }

  lemma ShlShl(x: nat, a: nat, b: nat)
    ensures Shl(Shl(x, a), b) == Shl(x, a + b)
  {
    Pow2Add(a, b);
    Associate(x, Pow2(a), Pow2(b));
  }

  lemma ShlAdd(x: nat, y: nat, n: nat)
    ensures Shl(x + y, n) == Shl(x, n) + Shl(y, n)
  {
    Distribute(x, y, Pow2(n));
  }

  lemma ShlLess(x: nat, y: nat, v: nat, n: nat)
    requires x < y && v < Pow2(n)
    ensures Shl(x, n) + v < Shl(y, n)
  {
    MulMono(x + 1, y, Pow2(n));
    Distribute(x, 1, Pow2(n));
  }

  lemma ShlPow2(n: nat, m: nat)
    ensures Shl(Pow2(n), m) == Pow2(n + m)
  {
    Pow2Add(n, m);
  }

  lemma ShlBound(x: nat, v: nat, a: nat, n: nat)
    requires x < Pow2(a) && v < Pow2(n)
    ensures Shl(x, n) + v < Pow2(a + n)
  {
    hide Shl, Pow2;
    ShlLess(x, Pow2(a), v, n);
    ShlPow2(a, n);
  }

  lemma ShrBound(x: nat, a: nat, n: nat)
    requires x < Pow2(a + n)
    ensures Shr(x, n) < Pow2(a)
  {
    hide Shl, Shr, Low, Pow2;
    Split(x, n);
    ShlPow2(a, n);
    if Pow2(a) < Shr(x, n) { ShlLess(Pow2(a), Shr(x, n), 0, n); }
  }

  lemma ShrShr(x: nat, a: nat, b: nat)
    ensures Shr(x, a + b) == Shr(Shr(x, a), b)
  {
    hide Shl, Shr, Low, Pow2;
    var q := Shr(x, a);
    Split(x, a);
    Split(q, b);
    ShlAdd(Shl(Shr(q, b), b), Low(q, b), a);
    ShlShl(Shr(q, b), b, a);
    ShlBound(Low(q, b), Low(x, a), b, a);
    Join(Shr(q, b), Shl(Low(q, b), a) + Low(x, a), a + b);
  }

  lemma LowOfShl(x: nat, m: nat, n: nat)
    ensures Low(Shl(x, m), m + n) == Shl(Low(x, n), m)
  {
    hide Shl, Shr, Low;
    Split(x, n);
    ShlAdd(Shl(Shr(x, n), n), Low(x, n), m);
    ShlShl(Shr(x, n), n, m);
    ShlBound(Low(x, n), 0, n, m);
    Join(Shr(x, n), Shl(Low(x, n), m), m + n);
  }

  // ----- digit strings -----------------------------------------------------

  predicate AllFit(ds: seq<int>, w: nat) {
    forall i :: 0 <= i < |ds| ==> 0 <= ds[i] < Pow2(w)
  }

  /** The number a big-endian string of `w`-bit digits denotes. */
  function Value(ds: seq<int>, w: nat): nat
    requires AllFit(ds, w)
  {
    if ds == [] then 0 else Shl(Value(ds[..|ds| - 1], w), w) + ds[|ds| - 1]
  }

  /** The low `k` digits of width `w` of `x`, most significant first. */
  function Digits(x: nat, w: nat, k: nat): (r: seq<int>)
    ensures |r| == k
    decreases k
  {
    if k == 0 then [] else Digits(Shr(x, w), w, k - 1) + [Low(x, w)]
  }

  lemma {:induction false} DigitsFit(x: nat, w: nat, k: nat)
    ensures AllFit(Digits(x, w, k), w)
  {
    if k != 0 {
      DigitsFit(Shr(x, w), w, k - 1);
    }
  }

  lemma {:induction false} ValueBound(ds: seq<int>, w: nat)
    requires AllFit(ds, w)
    ensures Value(ds, w) < Pow2(w * |ds|)
  {
    hide Shl, Pow2;
    if ds == [] {
      NoBits(w);
    } else {
      var front := ds[..|ds| - 1];
      ValueBound(front, w);
      ShlBound(Value(front, w), ds[|ds| - 1], w * |front|, w);
      OneMore(|front|, w);
    }
  }

  lemma NoBits(w: nat)
    ensures Pow2(w * 0) == 1
  {}

  lemma OneMore(n: nat, w: nat)
    ensures w * n + w == w * (n + 1)
  {}

  lemma ValueSnoc(front: seq<int>, last: int, w: nat)
    requires AllFit(front, w) && 0 <= last < Pow2(w)
    ensures AllFit(front + [last], w) && Value(front + [last], w) == Shl(Value(front, w), w) + last
  {
    hide Shl, Pow2;
    assert (front + [last])[..|front|] == front;
  }

  lemma DigitsSnoc(x: nat, w: nat, k: nat)
    ensures Digits(x, w, k + 1) == Digits(Shr(x, w), w, k) + [Low(x, w)]
  {}

  lemma {:induction false} DigitsOfValue(ds: seq<int>, w: nat)
    requires AllFit(ds, w)
    ensures Digits(Value(ds, w), w, |ds|) == ds
  {
    hide Shl, Shr, Low, Pow2, Value, Digits;
    if ds == [] {
    } else {
      var front, last := ds[..|ds| - 1], ds[|ds| - 1];
      assert ds == front + [last];
      DigitsOfValue(front, w);
      ValueSnoc(front, last, w);
      Join(Value(front, w), last, w);
      DigitsSnoc(Value(ds, w), w, |front|);
    }
  }

  lemma {:induction false} ValueOfDigits(x: nat, w: nat, k: nat)
    requires x < Pow2(w * k)
    ensures AllFit(Digits(x, w, k), w) && Value(Digits(x, w, k), w) == x
    decreases k
  {
    hide Shl, Shr, Low;
    DigitsFit(x, w, k);
    if k == 0 {
      assert w * k == 0 && Pow2(0) == 1;
    } else {
      assert w * (k - 1) + w == w * k by { Distribute(k - 1, 1, w); }
      ShrBound(x, w * (k - 1), w);
      ValueOfDigits(Shr(x, w), w, k - 1);
      assert Digits(x, w, k)[..k - 1] == Digits(Shr(x, w), w, k - 1);
      Split(x, w);
    }
  }

  // ----- the conversion ------------------------------------------------------

  /**
   * What `_convertbits` computes, in closed form: the digits of the number its input denotes,
   * where the bits left over either fill a last digit with zeros (`pad`) or must be a run of
   * zeros shorter than one input value.
   */
  function Regroup(data: seq<int>, from: nat, to: nat, pad: bool): Option<seq<int>>
    requires from > 0 && to > 0
  {
    if !AllFit(data, from) then None
    else
      var x := Value(data, from);
      var bits := (from * |data|) % to;
      var whole := Digits(Shr(x, bits), to, (from * |data|) / to);
      var tail := Low(Shl(x, to - bits), to);
      if pad then Some(if bits > 0 then whole + [tail] else whole)
      else if bits >= from || tail != 0 then None
      else Some(whole)
  }

  /** Dropping the bits just shifted in gives back the number before. */
  lemma ShiftIn(acc: nat, bits: nat, f: nat, v: nat)
    requires v < Pow2(f)
    ensures Shr(Shl(acc, f) + v, bits + f) == Shr(acc, bits)
  {
    ShrShr(Shl(acc, f) + v, f, bits);
    Join(acc, v, f);
  }

  /** Emits every digit that is complete; `k` input values have been read. */
  method Drain(acc: nat, pending: nat, to: nat, ret0: seq<int>) returns (bits: nat, ret: seq<int>)
    requires to > 0 && ret0 == Digits(Shr(acc, pending), to, |ret0|)
    ensures bits < to && to * |ret| + bits == to * |ret0| + pending
    ensures ret == Digits(Shr(acc, bits), to, |ret|)
  {
    hide Shl, Shr, Low, Pow2;
    bits, ret := pending, ret0;
    while bits >= to
      invariant to * |ret| + bits == to * |ret0| + pending
      invariant ret == Digits(Shr(acc, bits), to, |ret|)
    {
      bits := bits - to;
      ShrShr(acc, bits, to);
      Distribute(|ret|, 1, to);
      ret := ret + [Low(Shr(acc, bits), to)];
    }
  }

  lemma NothingRead(data: seq<int>, from: nat, to: nat)
    ensures AllFit(data[..0], from) && Value(data[..0], from) == 0
    ensures Digits(Shr(0, 0), to, 0) == [] && from * 0 == to * 0
  {}

  lemma Misfit(data: seq<int>, i: nat, from: nat)
    requires i < |data| && (data[i] < 0 || data[i] >= Pow2(from))
    ensures !AllFit(data, from)
  {}

  /** `_convertbits`: the accumulator loop, emitting a digit whenever enough bits are pending. */
  method ConvertBits(data: seq<int>, from: nat, to: nat, pad: bool) returns (r: Option<seq<int>>)
    requires from > 0 && to > 0
    ensures r == Regroup(data, from, to, pad)
  {
    hide Shl, Shr, Low, Pow2, Value, Digits, AllFit;
    var acc: nat, bits: nat, ret: seq<int> := 0, 0, [];
    var i := 0;
    NothingRead(data, from, to);
    while i < |data|
      invariant 0 <= i <= |data| && AllFit(data[..i], from)
      invariant acc == Value(data[..i], from)
      invariant bits < to && from * i == to * |ret| + bits
      invariant ret == Digits(Shr(acc, bits), to, |ret|)
    {
      if data[i] < 0 || data[i] >= Pow2(from) {
        Misfit(data, i, from);
        return None;
      }
      assert data[..i + 1] == data[..i] + [data[i]];
      ValueSnoc(data[..i], data[i], from);
      ShiftIn(acc, bits, from, data[i]);
      OneMore(i, from);
      acc := Shl(acc, from) + data[i];
      bits, ret := Drain(acc, bits + from, to, ret);
      i := i + 1;
    }
    assert data[..i] == data;
    DivUnique(from * |data|, to, |ret|, bits);
    var tail := Low(Shl(acc, to - bits), to);
    if pad {
      if bits > 0 {
        ret := ret + [tail];
      }
    } else if bits >= from || tail != 0 {
      return None;
    }
    return Some(ret);
  }

  // ----- bytes to 5-bit groups and back ------------------------------------------

  /** Zero bits that fill the last 5-bit group of `n` bytes. */
  function PadBits(n: nat): (p: nat)
    ensures p < 5 && (8 * n + p) % 5 == 0
  {
    (5 - (8 * n) % 5) % 5
  }

  lemma PadBitsCases(n: nat)
    ensures (8 * n) % 5 == 0 ==> PadBits(n) == 0
    ensures (8 * n) % 5 != 0 ==>
              && PadBits(n) == 5 - (8 * n) % 5
              && (8 * n + PadBits(n)) / 5 == (8 * n) / 5 + 1
  {}

  lemma ShlZero(x: nat)
    ensures Shl(x, 0) == x && Shr(x, 0) == x
  {}

  lemma PadOnto(x: nat, bits: nat, k: nat)
    requires bits < 5
    ensures (if bits > 0 then Digits(Shr(x, bits), 5, k) + [Low(Shl(x, 5 - bits), 5)] else Digits(Shr(x, bits), 5, k))
         == (if bits > 0 then Digits(Shl(x, 5 - bits), 5, k + 1) else Digits(Shl(x, 0), 5, k))
  {
    hide Shl, Shr, Low, Pow2;
    if bits == 0 {
      ShlZero(x);
    } else {
      ShiftIn(x, bits, 5 - bits, 0);
    }
  }

  lemma RegroupWithPadding(p: seq<int>, bits: nat, k: nat)
    requires AllFit(p, 8) && bits == (8 * |p|) % 5 && k == (8 * |p|) / 5
    ensures Regroup(p, 8, 5, true)
         == Some(if bits > 0 then Digits(Shl(Value(p, 8), 5 - bits), 5, k + 1) else Digits(Shl(Value(p, 8), 0), 5, k))
  {
    hide Shl, Shr, Low, Pow2, PadBits, Digits, Value;
    PadOnto(Value(p, 8), bits, k);
  }

  /** Padding to 5-bit groups writes the input number shifted left by the padding. */
  lemma PaddedForm(p: seq<int>)
    requires AllFit(p, 8)
    ensures Regroup(p, 8, 5, true)
         == Some(Digits(Shl(Value(p, 8), PadBits(|p|)), 5, (8 * |p| + PadBits(|p|)) / 5))
  {
    hide *;
    PadBitsCases(|p|);
    RegroupWithPadding(p, (8 * |p|) % 5, (8 * |p|) / 5);
  }

  /** The no-padding direction spelled out for a stream whose length is known. */
  lemma RegroupStrict(g: seq<int>, bits: nat, n: nat)
    requires bits == (5 * |g|) % 8 && n == (5 * |g|) / 8
    ensures Regroup(g, 5, 8, false).Some? <==>
              AllFit(g, 5) && bits < 5 && Low(Shl(Value(g, 5), 8 - bits), 8) == 0
    ensures Regroup(g, 5, 8, false).Some? ==>
              Regroup(g, 5, 8, false).value == Digits(Shr(Value(g, 5), bits), 8, n)
  {
    hide Shl, Shr, Low, Pow2, Digits, Value;
  }

  /** How many groups `n` bytes take, and what their bits leave over. */
  lemma GroupCount(n: nat) returns (k: nat)
    ensures k == (8 * n + PadBits(n)) / 5 && 5 * k == 8 * n + PadBits(n)
    ensures PadBits(n) < 5 && (5 * k) % 8 == PadBits(n) && (5 * k) / 8 == n
  {
    hide PadBits;
    k := (8 * n + PadBits(n)) / 5;
    assert 5 * k == 8 * n + PadBits(n);
    EightSplit(n, PadBits(n));
  }

  lemma EightSplit(n: nat, r: nat)
    requires r < 8
    ensures (8 * n + r) % 8 == r && (8 * n + r) / 8 == n
  {}

  lemma GroupsToBytesOfBytesToGroups(p: seq<int>)
    requires AllFit(p, 8)
    ensures var g := Regroup(p, 8, 5, true);
            && g.Some? && AllFit(g.value, 5)
            && Regroup(g.value, 5, 8, false) == Some(p)
  {
    hide *;
    PaddedForm(p);
    var x, pad := Value(p, 8), PadBits(|p|);
    var k := GroupCount(|p|);
    var g := Regroup(p, 8, 5, true).value;
    ValueBound(p, 8);
    ShlBound(x, 0, 8 * |p|, pad);
    ValueOfDigits(Shl(x, pad), 5, k);
    RegroupStrict(g, pad, |p|);
    Join(x, 0, pad);
    ShlShl(x, pad, 8 - pad);
    Join(x, 0, 8);
    DigitsOfValue(p, 8);
  }

  lemma PadBitsOfGroups(k: nat, n: nat, bits: nat)
    requires bits == (5 * k) % 8 && n == (5 * k) / 8 && bits < 5
    ensures PadBits(n) == bits && (8 * n + bits) / 5 == k
  {
    assert 8 * n + bits == 5 * k;
    FiveComplement(8 * n, bits, k);
  }

  lemma FiveComplement(m: nat, r: nat, k: nat)
    requires m + r == 5 * k && r < 5
    ensures m % 5 == (if r == 0 then 0 else 5 - r) && (m + r) / 5 == k
  {}

  lemma BytesToGroupsOfGroupsToBytes(g: seq<int>)
    requires Regroup(g, 5, 8, false).Some?
    ensures var p := Regroup(g, 5, 8, false).value;
            AllFit(p, 8) && Regroup(p, 8, 5, true) == Some(g)
  {
    hide *;
    var bits, n := (5 * |g|) % 8, (5 * |g|) / 8;
    RegroupStrict(g, bits, n);
    var x := Value(g, 5);
    // the bits left over are zero, so shifting them out loses nothing
    LowOfShl(x, 8 - bits, bits);
    ShlPositive(Low(x, bits), 8 - bits);
    Split(x, bits);
    ValueBound(g, 5);
    ShrBound(x, 8 * n, bits);
    ValueOfDigits(Shr(x, bits), 8, n);
    PaddedForm(Digits(Shr(x, bits), 8, n));
    PadBitsOfGroups(|g|, n, bits);
    DigitsOfValue(g, 5);
  }

  lemma ShlPositive(x: nat, n: nat)
    ensures Shl(x, n) == 0 ==> x == 0
  {}
}
