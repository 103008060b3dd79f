/** The eight-byte bitmap of an inbound set: setting and testing bits of integer bytes. */
module Bitmap {
  import opened Bytes
  import opened BraidState

  /** `b | (1 << k)` */
  function OrBit(b: byte, k: nat): byte
    requires k < 8
  {
    if TestBit(b, k) then b else
      OrBitInRange(b, k);
      b + BitWeight(k)
  }

  function SetBit(bitmap: bytes, i: nat): (r: bytes)
    requires i / 8 < |bitmap|
    ensures |r| == |bitmap|
  {
    bitmap[i / 8 := OrBit(bitmap[i / 8], i % 8)]
  }

  // ----- a byte is the weighted sum of its bits -----------------------------------------

  type Bits = s: seq<int> | |s| == 8 && forall i :: 0 <= i < 8 ==> 0 <= s[i] <= 1 witness [0, 0, 0, 0, 0, 0, 0, 0]

  function Sum(s: Bits): byte {
    s[0] + 2 * s[1] + 4 * s[2] + 8 * s[3] + 16 * s[4] + 32 * s[5] + 64 * s[6] + 128 * s[7]
  }

  function BitsOf(b: byte): Bits {
    [b % 2, (b / 2) % 2, (b / 4) % 2, (b / 8) % 2, (b / 16) % 2, (b / 32) % 2, (b / 64) % 2, (b / 128) % 2]
  }

  lemma Halves(b: byte)
    ensures b / 4 == (b / 2) / 2 && b / 8 == (b / 4) / 2 && b / 16 == (b / 8) / 2
    ensures b / 32 == (b / 16) / 2 && b / 64 == (b / 32) / 2 && b / 128 == (b / 64) / 2
  {}

  lemma SumOfHalves(b: byte, h1: int, h2: int, h3: int, h4: int, h5: int, h6: int, h7: int)
    requires h1 == b / 2 && h2 == h1 / 2 && h3 == h2 / 2 && h4 == h3 / 2
    requires h5 == h4 / 2 && h6 == h5 / 2 && h7 == h6 / 2
    ensures b == b % 2 + 2 * (h1 % 2) + 4 * (h2 % 2) + 8 * (h3 % 2)
              + 16 * (h4 % 2) + 32 * (h5 % 2) + 64 * (h6 % 2) + 128 * (h7 % 2)
  {}

  lemma SumOfBitsOf(b: byte)
    ensures Sum(BitsOf(b)) == b
  {
    Halves(b);
    SumOfHalves(b, b / 2, b / 4, b / 8, b / 16, b / 32, b / 64, b / 128);
  }

  /** Reading bit `k` of a sum of bits gives the k-th summand. */
  lemma TestBitOfSum(s: Bits, k: nat)
    requires k < 8
    ensures TestBit(Sum(s), k) <==> s[k] == 1
  {
    if k < 4 { TestLowBit(s, k); } else { TestHighBit(s, k); }
  }

  lemma TestLowBit(s: Bits, k: nat)
    requires k < 4
    ensures TestBit(Sum(s), k) <==> s[k] == 1
  {
    var x := Sum(s);
    var high := s[4] + 2 * s[5] + 4 * s[6] + 8 * s[7];
    match k
    case 0 => assert x / 1 == x;
    case 1 => assert x / 2 == s[1] + 2 * (s[2] + 2 * s[3] + 4 * high);
    case 2 => assert x / 4 == s[2] + 2 * (s[3] + 2 * high);
    case _ => assert x / 8 == s[3] + 2 * high;
  }

  lemma TestHighBit(s: Bits, k: nat)
    requires 4 <= k < 8
    ensures TestBit(Sum(s), k) <==> s[k] == 1
  {
    var x := Sum(s);
    match k
    case 4 => assert x / 16 == s[4] + 2 * (s[5] + 2 * s[6] + 4 * s[7]);
    case 5 => assert x / 32 == s[5] + 2 * (s[6] + 2 * s[7]);
    case 6 => assert x / 64 == s[6] + 2 * s[7];
    case _ => assert x / 128 == s[7];
  }

  lemma SumOfUpdate(s: Bits, k: nat)
    requires k < 8 && s[k] == 0
    ensures Sum(s[k := 1]) == Sum(s) + BitWeight(k)
  {
    match k
    case 0 =>
    case 1 =>
    case 2 =>
    case 3 =>
    case 4 =>
    case 5 =>
    case 6 =>
    case _ =>
  }

  lemma OrBitInRange(b: byte, k: nat)
    requires k < 8 && !TestBit(b, k)
    ensures b + BitWeight(k) < 256
  {
    hide Sum, TestBit, BitsOf, BitWeight;
    SumOfBitsOf(b);
    TestBitOfSum(BitsOf(b), k);
    SumOfUpdate(BitsOf(b), k);
  }

  lemma TestOrBit(b: byte, k: nat, j: nat)
    requires k < 8 && j < 8
    ensures TestBit(OrBit(b, k), j) <==> j == k || TestBit(b, j)
  {
    hide Sum, TestBit, BitsOf, BitWeight;
    SumOfBitsOf(b);
    TestBitOfSum(BitsOf(b), j);
    TestBitOfSum(BitsOf(b), k);
    if !TestBit(b, k) {
      SumOfUpdate(BitsOf(b), k);
      TestBitOfSum(BitsOf(b)[k := 1], j);
    }
  }

  lemma ByteExtensional(a: byte, b: byte)
    requires forall k: nat :: k < 8 ==> (TestBit(a, k) <==> TestBit(b, k))
    ensures a == b
  {
    hide Sum, TestBit, BitsOf;
    SumOfBitsOf(a);
    SumOfBitsOf(b);
    forall k: nat | k < 8 ensures BitsOf(a)[k] == BitsOf(b)[k] {
      TestBitOfSum(BitsOf(a), k);
      TestBitOfSum(BitsOf(b), k);
    }
    assert BitsOf(a) == BitsOf(b);
  }

  // ----- bitmaps ---------------------------------------------------------------------------

  lemma GetAfterSet(bitmap: bytes, i: nat, j: nat)
    requires |bitmap| == 8 && i < 64 && j < 64
    ensures BitmapGet(SetBit(bitmap, i), j) <==> j == i || BitmapGet(bitmap, j)
  {
    hide TestBit, OrBit;
    if i / 8 == j / 8 {
      TestOrBit(bitmap[i / 8], i % 8, j % 8);
    }
  }

  lemma BitmapExtensional(a: bytes, b: bytes)
    requires |a| == 8 && |b| == 8
    requires forall i: nat :: i < 64 ==> (BitmapGet(a, i) <==> BitmapGet(b, i))
    ensures a == b
  {
    hide TestBit;
    forall j | 0 <= j < 8 ensures a[j] == b[j] {
      forall k: nat | k < 8 ensures TestBit(a[j], k) <==> TestBit(b[j], k) {
        var i := 8 * j + k;
        assert i / 8 == j && i % 8 == k;
        assert BitmapGet(a, i) <==> BitmapGet(b, i);
      }
      ByteExtensional(a[j], b[j]);
    }
  }
}
