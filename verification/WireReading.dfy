/** The checked reader of the wire formats, and list reading loops against their specification. */
module WireReading {
  import opened Bytes

  class WireReader {
    const data: bytes
    var off: nat

    constructor (data: bytes, start: nat)
      requires start <= |data|
      ensures Valid() && this.data == data && off == start
    {
      this.data, off := data, start;
    }

    ghost predicate Valid()
      reads this
    {
      off <= |data|
    }

    /** What has not been read yet. */
    ghost function Rest(): bytes
      reads this
      requires Valid()
    {
      data[off..]
    }

    /** `read_bytes`; None where the source raises. */
    method ReadBytes(n: nat) returns (r: Option<bytes>)
      requires Valid()
      modifies this
      ensures Valid() && Yields(Take(n, old(Rest())), r, Rest())
    {
      if off + n > |data| {
        return None;
      }
      r := Some(data[off..off + n]);
      assert data[off..][..n] == data[off..off + n] && data[off..][n..] == data[off + n..];
      off := off + n;
    }

    /** `read_u8`, `read_u16be`, `read_u32be` and `read_u64be`, by width. */
    method ReadUint(w: nat) returns (r: Option<nat>)
      requires Valid()
      modifies this
      ensures Valid() && Yields(Uint(w, old(Rest())), r, Rest())
    {
      if off + w > |data| {
        return None;
      }
      r := Some(FromBE(data[off..off + w]));
      assert data[off..][..w] == data[off..off + w] && data[off..][w..] == data[off + w..];
      off := off + w;
    }
  }

  /** A read that returned `r` and left `rest` did what the parser says. */
  ghost predicate Yields<T>(p: Parsed<T>, r: Option<T>, rest: bytes) {
    match p
    case None => r.None?
    case Some(read) => r == Some(read.0) && rest == read.1
  }

  // ----- lists ----------------------------------------------------------------------------

  function Prepend<T>(items: seq<T>, p: Parsed<seq<T>>): Parsed<seq<T>> {
    match p
    case None => None
    case Some(read) => Some((items + read.0, read.1))
  }

  /** With `items` read and `rest` to go, the whole list is the items and what the rest yields. */
  ghost predicate Progress<T>(n: nat, get: bytes -> Parsed<T>, start: bytes, items: seq<T>, rest: bytes) {
    |items| <= n && GetMany(n, get, start) == Prepend(items, GetMany(n - |items|, get, rest))
  }

  lemma ProgressStart<T>(n: nat, get: bytes -> Parsed<T>, start: bytes)
    ensures Progress(n, get, start, [], start)
  {
    match GetMany(n, get, start)
    case None =>
    case Some(read) => assert [] + read.0 == read.0;
  }

  lemma ProgressStep<T>(n: nat, get: bytes -> Parsed<T>, start: bytes, items: seq<T>, rest: bytes)
    requires Progress(n, get, start, items, rest) && |items| < n
    ensures get(rest).None? ==> GetMany(n, get, start).None?
    ensures get(rest).Some? ==> Progress(n, get, start, items + [get(rest).value.0], get(rest).value.1)
  {
    if get(rest).Some? {
      var (v, b) := get(rest).value;
      match GetMany(n - |items| - 1, get, b)
      case None =>
      case Some(more) => assert items + ([v] + more.0) == items + [v] + more.0;
    }
  }

  lemma ProgressEnd<T>(n: nat, get: bytes -> Parsed<T>, start: bytes, items: seq<T>, rest: bytes)
    requires Progress(n, get, start, items, rest) && |items| == n
    ensures GetMany(n, get, start) == Some((items, rest))
  {
    assert items + [] == items;
  }
}
