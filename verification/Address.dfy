/** Raven addresses: version and identity hash as a Bech32m string. */
module Address {
  import opened Bytes
  import opened Text
  import Bech32m
  import BitRegroup
  import Checksum

  const ADDRESS_VERSION: byte := 1

  /** The characters `str.strip` removes. */
  predicate IsSpace(c: char) {
    var n := c as int;
    9 <= n <= 13 || 28 <= n <= 32 || n == 0x85 || n == 0xA0 || n == 0x1680 || 0x2000 <= n <= 0x200A
    || n == 0x2028 || n == 0x2029 || n == 0x202F || n == 0x205F || n == 0x3000
  }

  function LStrip(s: string): (r: string)
    ensures |r| <= |s| && (|r| == |s| ==> r == s)
  {
    if s != "" && IsSpace(s[0]) then LStrip(s[1..]) else s
  }

  function RStrip(s: string): (r: string)
    ensures |r| <= |s| && (|r| == |s| ==> r == s)
  {
    if s != "" && IsSpace(s[|s| - 1]) then RStrip(s[..|s| - 1]) else s
  }

  function Strip(s: string): (r: string)
    ensures |r| <= |s| && (|r| == |s| ==> r == s)
  {
    RStrip(LStrip(s))
  }

  function Encode(sha256: bytes -> Hash, identityPub: bytes): string {
    Bech32m.Encode("rvn", [ADDRESS_VERSION] + sha256(identityPub)[..20])
  }

  /** The identity hash and version of an address. */
  function Decode(addr: string): Option<(bytes, byte)> {
    var res :- Bech32m.Decode(Strip(addr));
    if res.hrp != "rvn" || |res.payload| != 21 then None else Some((res.payload[1..], res.payload[0]))
  }

  lemma PayloadLength(payload: bytes)
    requires |payload| == 21
    ensures |Bech32m.Encode("rvn", payload)| == 44
  {
    hide Bech32m.Groups, Checksum.CreateChecksum, Bech32m.HrpExpand, BitRegroup.PadBits;
    Bech32m.BytesFit(payload);
    BitRegroup.PaddedForm(payload);
    PadOfTwentyOne();
  }

  lemma PadOfTwentyOne()
    ensures (8 * 21 + BitRegroup.PadBits(21)) / 5 == 34
  {}

  /** A decodable string of 44 characters has nothing to strip: it is all printable ASCII. */
  lemma Exact(addr: string)
    requires |addr| == 44 && Decode(addr).Some?
    ensures Strip(addr) == addr && Bech32m.AllPrintable(addr)
    ensures Lower(addr) == addr ==> addr[..4] == "rvn1"
  {
    hide Strip, Bech32m.Encode, Bech32m.DecodeParts, Bech32m.LastOne;
    var s := Strip(addr);
    var payload := Bech32m.Decode(s).value.payload;
    Bech32m.EncodeOfDecode(s);
    PayloadLength(payload);
    Bech32m.EncodeShape("rvn", payload);
    var e := Bech32m.Encode("rvn", payload);
    assert e[..4] == e[..3] + [e[3]];
  }

  /** The address of an identity key decodes to that key's hash and is canonical. */
  lemma EncodeIsCanonical(sha256: bytes -> Hash, identityPub: bytes)
    ensures var addr := Encode(sha256, identityPub);
            && |addr| == 44 && Lower(addr) == addr && addr[..4] == "rvn1"
            && Decode(addr) == Some((sha256(identityPub)[..20], ADDRESS_VERSION))
  {
    hide Bech32m.Encode, Bech32m.Decode, Bech32m.LastOne, Strip;
    var payload := [ADDRESS_VERSION] + sha256(identityPub)[..20];
    var addr := Bech32m.Encode("rvn", payload);
    PayloadLength(payload);
    Bech32m.DecodeOfEncode("rvn", payload);
    Bech32m.EncodeShape("rvn", payload);
    NothingToStrip(addr);
    assert addr[..4] == addr[..3] + [addr[3]];
    forall i | 0 <= i < |addr| ensures LowerChar(addr[i]) == addr[i] {
      if i < 3 { assert addr[i] == addr[..3][i]; }
    }
  }

  lemma NothingToStrip(s: string)
    requires s != "" && !IsSpace(s[0]) && !IsSpace(s[|s| - 1])
    ensures Strip(s) == s
  {}
}
