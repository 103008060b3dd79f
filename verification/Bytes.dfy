/** Byte strings, big-endian integers and the prefix readers every codec is built from. */
module Bytes {

  datatype Option<+T> = None | Some(value: T) {
    predicate IsFailure() { None? }
    function PropagateFailure<U>(): Option<U> requires None? { None }
    function Extract(): T requires Some? { value }
    function GetOr(other: T): T { if Some? then value else other }
  }

  type byte = x: int | 0 <= x < 256
  type bytes = seq<byte>

  /** `bytes(n)`: n zero bytes. */
  function ZeroBytes(n: nat): (r: bytes)
    ensures |r| == n && forall i :: 0 <= i < n ==> r[i] == 0
  {
    seq(n, _ => 0)
  }

  /** A 32-byte digest or tag. */
  type Hash = h: bytes | |h| == 32 witness ZeroBytes(32)

  /** A parser consumes a prefix and returns what it read together with the rest. */
  type Parsed<+T> = Option<(T, bytes)>

  function Pow256(w: nat): (r: nat)
    ensures r >= 1
  {
    if w == 0 then 1 else 256 * Pow256(w - 1)
  }

  /** The low `w` bytes of `n`, most significant first. */
  function BE(n: nat, w: nat): (r: bytes)
    ensures |r| == w
  {
    if w == 0 then [] else BE(n / 256, w - 1) + [n % 256]
  }

  function FromBE(s: bytes): nat {
    if s == [] then 0 else 256 * FromBE(s[..|s| - 1]) + s[|s| - 1]
  }

  lemma {:induction false} FromBEOfBE(n: nat, w: nat)
    requires n < Pow256(w)
    ensures FromBE(BE(n, w)) == n
  {
    if w != 0 {
      var r := BE(n, w);
      assert r[..|r| - 1] == BE(n / 256, w - 1);
      FromBEOfBE(n / 256, w - 1);
    }
  }

  lemma {:induction false} BEOfFromBE(s: bytes)
    ensures FromBE(s) < Pow256(|s|)
    ensures BE(FromBE(s), |s|) == s
  {
    if s != [] {
      BEOfFromBE(s[..|s| - 1]);
      var n := FromBE(s);
      assert n / 256 == FromBE(s[..|s| - 1]) && n % 256 == s[|s| - 1];
    }
  }

  /** Values of the field widths the formats use. */
  lemma Widths()
    ensures Pow256(1) == 0x100 && Pow256(2) == 0x1_0000
    ensures Pow256(4) == 0x1_0000_0000 && Pow256(8) == 0x1_0000_0000_0000_0000
  {
    assert Pow256(2) == 256 * Pow256(1);
    assert Pow256(4) == 256 * (256 * Pow256(2));
    assert Pow256(6) == 256 * (256 * Pow256(4));
    assert Pow256(8) == 256 * (256 * Pow256(6));
  }

  function Take(n: nat, b: bytes): Parsed<bytes> {
    if |b| < n then None else Some((b[..n], b[n..]))
  }

  function Uint(w: nat, b: bytes): Parsed<nat> {
    if |b| < w then None else Some((FromBE(b[..w]), b[w..]))
  }

  lemma TakeOfConcat(v: bytes, rest: bytes)
    ensures Take(|v|, v + rest) == Some((v, rest))
  {
    assert (v + rest)[..|v|] == v && (v + rest)[|v|..] == rest;
  }

  lemma TakeInverse(n: nat, b: bytes)
    requires Take(n, b).Some?
    ensures |Take(n, b).value.0| == n && b == Take(n, b).value.0 + Take(n, b).value.1
  {
  }

  lemma UintOfConcat(n: nat, w: nat, rest: bytes)
    requires n < Pow256(w)
    ensures Uint(w, BE(n, w) + rest) == Some((n, rest))
  {
    TakeOfConcat(BE(n, w), rest);
    FromBEOfBE(n, w);
  }

  lemma UintInverse(w: nat, b: bytes)
    requires Uint(w, b).Some?
    ensures Uint(w, b).value.0 < Pow256(w)
    ensures b == BE(Uint(w, b).value.0, w) + Uint(w, b).value.1
  {
    BEOfFromBE(b[..w]);
    assert b == b[..w] + b[w..];
  }

  // ----- formats: a writer puts a value in front of the bytes that follow it --------

  predicate Fits(n: int, w: nat) { 0 <= n < Pow256(w) }

  /** `n.to_bytes(w, "big")` in front of `rest`, for `n` that fits. */
  function PutUint(n: int, w: nat, rest: bytes): bytes { BE(if n < 0 then 0 else n, w) + rest }

  function PutMany<T>(put: (T, bytes) -> bytes, vs: seq<T>, rest: bytes): bytes {
    if vs == [] then rest else put(vs[0], PutMany(put, vs[1..], rest))
  }

  function GetMany<T>(n: nat, get: bytes -> Parsed<T>, b: bytes): Parsed<seq<T>> {
    if n == 0 then Some(([], b))
    else
      var (v, b1) :- get(b);
      var (vs, b2) :- GetMany(n - 1, get, b1);
      Some(([v] + vs, b2))
  }

  /** `get` undoes `put` on acceptable values and accepts nothing else. */
  ghost predicate Inverse<T(!new)>(put: (T, bytes) -> bytes, get: bytes -> Parsed<T>, ok: T -> bool) {
    && (forall v: T, rest: bytes :: ok(v) ==> get(put(v, rest)) == Some((v, rest)))
    && (forall b: bytes :: get(b).Some? ==>
          ok(get(b).value.0) && b == put(get(b).value.0, get(b).value.1))
  }

  lemma GetOfPutUint(n: int, w: nat, rest: bytes)
    requires Fits(n, w)
    ensures Uint(w, PutUint(n, w, rest)) == Some((n, rest))
  {
    UintOfConcat(n, w, rest);
  }

  lemma PutOfGetUint(w: nat, b: bytes)
    requires Uint(w, b).Some?
    ensures Fits(Uint(w, b).value.0, w)
    ensures b == PutUint(Uint(w, b).value.0, w, Uint(w, b).value.1)
  {
    UintInverse(w, b);
  }

  lemma {:induction false} GetOfPutMany<T(!new)>(
      put: (T, bytes) -> bytes, get: bytes -> Parsed<T>, ok: T -> bool, vs: seq<T>, rest: bytes)
    requires Inverse(put, get, ok)
    requires forall i :: 0 <= i < |vs| ==> ok(vs[i])
    ensures GetMany(|vs|, get, PutMany(put, vs, rest)) == Some((vs, rest))
  {
    if vs != [] {
      GetOfPutMany(put, get, ok, vs[1..], rest);
      assert [vs[0]] + vs[1..] == vs;
    }
  }

  lemma {:induction false} PutOfGetMany<T(!new)>(
      put: (T, bytes) -> bytes, get: bytes -> Parsed<T>, ok: T -> bool, n: nat, b: bytes)
    requires Inverse(put, get, ok)
    requires GetMany(n, get, b).Some?
    ensures var (vs, rest) := GetMany(n, get, b).value;
            && |vs| == n
            && (forall i :: 0 <= i < n ==> ok(vs[i]))
            && b == PutMany(put, vs, rest)
  {
    if n != 0 {
      var (v, b1) := get(b).value;
      PutOfGetMany(put, get, ok, n - 1, b1);
      var (vs, rest) := GetMany(n - 1, get, b1).value;
      assert ([v] + vs)[1..] == vs;
    }
  }

  /** A two-byte count, at most `cap`, and that many items. */
  function PutCounted<T>(put: (T, bytes) -> bytes, vs: seq<T>, rest: bytes): bytes {
    PutUint(|vs|, 2, PutMany(put, vs, rest))
  }

  function GetCounted<T>(cap: nat, get: bytes -> Parsed<T>, b: bytes): Parsed<seq<T>> {
    var (n, b1) :- Uint(2, b);
    if n > cap then None else GetMany(n, get, b1)
  }

  lemma GetOfPutCounted<T(!new)>(
      put: (T, bytes) -> bytes, get: bytes -> Parsed<T>, ok: T -> bool, cap: nat, vs: seq<T>, rest: bytes)
    requires Inverse(put, get, ok) && |vs| <= cap && Fits(|vs|, 2)
    requires forall i :: 0 <= i < |vs| ==> ok(vs[i])
    ensures GetCounted(cap, get, PutCounted(put, vs, rest)) == Some((vs, rest))
  {
    hide Inverse;
    GetOfPutUint(|vs|, 2, PutMany(put, vs, rest));
    GetOfPutMany(put, get, ok, vs, rest);
  }

  lemma PutOfGetCounted<T(!new)>(
      put: (T, bytes) -> bytes, get: bytes -> Parsed<T>, ok: T -> bool, cap: nat, b: bytes)
    requires Inverse(put, get, ok)
    requires GetCounted(cap, get, b).Some?
    ensures var (vs, rest) := GetCounted(cap, get, b).value;
            && |vs| <= cap && Fits(|vs|, 2)
            && (forall i :: 0 <= i < |vs| ==> ok(vs[i]))
            && b == PutCounted(put, vs, rest)
  {
    hide Inverse;
    UintInverse(2, b);
    PutOfGetMany(put, get, ok, Uint(2, b).value.0, Uint(2, b).value.1);
  }

  lemma {:induction false} PutManyLength<T>(put: (T, bytes) -> bytes, vs: seq<T>, rest: bytes, k: nat)
    requires forall i, r :: 0 <= i < |vs| ==> |put(vs[i], r)| == k + |r|
    ensures |PutMany(put, vs, rest)| == k * |vs| + |rest|
  {
    if vs != [] {
      PutManyLength(put, vs[1..], rest, k);
      assert k * |vs| == k + k * (|vs| - 1);
    }
  }
}
