/** Growing an output buffer: each write is related to what the specification puts before the rest. */
module WireWriting {
  import opened Bytes

  /** Appends `n` in `w` bytes, big-endian; the source raises when it does not fit. */
  method WriteUint(out: bytes, n: int, w: nat, ghost rest: bytes) returns (r: Option<bytes>)
    ensures r.Some? <==> Fits(n, w)
    ensures r.Some? ==> r.value + rest == out + PutUint(n, w, rest)
  {
    if !Fits(n, w) {
      return None;
    }
    r := Some(out + BE(n, w));
    assert out + BE(n, w) + rest == out + (BE(n, w) + rest);
  }

  /** The same for a value already known to fit: a count, a flag or a constant. */
  method WriteSmall(out: bytes, n: int, w: nat, ghost rest: bytes) returns (r: bytes)
    requires Fits(n, w)
    ensures r + rest == out + PutUint(n, w, rest)
  {
    r := out + BE(n, w);
    assert out + BE(n, w) + rest == out + (BE(n, w) + rest);
  }

  /** `out += v` */
  method WriteBytes(out: bytes, v: bytes, ghost rest: bytes) returns (r: bytes)
    ensures r + rest == out + (v + rest)
  {
    r := out + v;
    assert out + v + rest == out + (v + rest);
  }

  lemma ManyStep<T>(put: (T, bytes) -> bytes, items: seq<T>, i: nat, rest: bytes)
    requires i < |items|
    ensures PutMany(put, items[i..], rest) == put(items[i], PutMany(put, items[i + 1..], rest))
  {
    assert items[i..][1..] == items[i + 1..];
  }

  lemma ManyStart<T>(put: (T, bytes) -> bytes, items: seq<T>, rest: bytes)
    ensures PutMany(put, items[0..], rest) == PutMany(put, items, rest)
  {
    assert items[0..] == items;
  }

  lemma ManyEnd<T>(put: (T, bytes) -> bytes, items: seq<T>, rest: bytes)
    ensures PutMany(put, items[|items|..], rest) == rest
  {}
}
