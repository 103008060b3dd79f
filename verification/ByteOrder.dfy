/** Python's order of byte strings. */
module ByteOrder {
  import opened Bytes
  import opened Sorting

  predicate LeBytes(a: bytes, b: bytes) { Lex((x: byte, y: byte) => x < y, a, b) }

  predicate LtBytes(a: bytes, b: bytes) { !LeBytes(b, a) }

  lemma LeBytesOrder(a: bytes, b: bytes, c: bytes)
    ensures LeBytes(a, b) || LeBytes(b, a)
    ensures LeBytes(a, b) && LeBytes(b, c) ==> LeBytes(a, c)
    ensures LeBytes(a, b) && LeBytes(b, a) ==> a == b
    ensures LeBytes(a, a)
  {
    LexOrder((x: byte, y: byte) => x < y, a, b, c);
    LexOrder((x: byte, y: byte) => x < y, a, a, a);
  }
}
