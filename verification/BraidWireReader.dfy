/** The decoders of the input and environment wires as the source writes them: an offset that advances. */
module BraidWireReader {
  import opened Bytes
  import opened BraidChunks
  import opened BraidWire
  import opened WireReading

  lemma AfterMagic(data: bytes)
    requires |data| >= 8
    ensures Take(8, data) == Some((data[..8], data[8..]))
  {}

  /** `decode_rvch1` */
  method DecodeRvch1Bytes(data: bytes) returns (r: Option<Rvch1>)
    ensures r == DecodeRvch1(data)
  {
    hide Uint, Take;
    if |data| != RVCH1_LEN {
      return None;
    }
    AfterMagic(data);
    if data[..8] != RVCH1_MAGIC {
      return None;
    }
    var reader := new WireReader(data, 8);
    var schema :- reader.ReadUint(2);
    if schema != 1 {
      return None;
    }
    var ecDhPub :- reader.ReadBytes(32);
    var ecPn :- reader.ReadUint(4);
    var ecN :- reader.ReadUint(4);
    var sckaEpoch :- reader.ReadUint(8);
    var sckaPn :- reader.ReadUint(4);
    var sckaN :- reader.ReadUint(4);
    var direction :- reader.ReadUint(1);
    var reserved :- reader.ReadUint(1);
    if reserved != 0 || reader.off != |data| {
      return None;
    }
    return Some(Rvch1(ecDhPub, ecPn, ecN, sckaEpoch, sckaPn, sckaN, direction));
  }

  /** `decode_rvbc1` */
  method DecodeFrameBytes(data: bytes) returns (r: Option<Frame>)
    ensures r == DecodeFrame(data)
  {
    hide Uint, Take;
    if |data| < 55 || |data| > RVBC1_MAX_LEN {
      ShortFrame(data);
      return None;
    }
    AfterMagic(data);
    if data[..8] != RVBC1_MAGIC {
      return None;
    }
    var reader := new WireReader(data, 8);
    var epoch :- reader.ReadUint(8);
    var chunkType :- reader.ReadUint(1);
    var index :- reader.ReadUint(4);
    var n :- reader.ReadUint(2);
    var payload :- reader.ReadBytes(n);
    var binding :- reader.ReadBytes(32);
    if reader.off != |data| {
      return None;
    }
    return Some(Frame(epoch, chunkType, index, payload, binding));
  }

  /** No decodable frame is shorter than its header and digest. */
  lemma ShortFrame(data: bytes)
    ensures DecodeFrame(data).Some? ==> 55 <= |data| <= RVBC1_MAX_LEN
  {
    hide GetFrame, PutFrame, Fits;
    if DecodeFrame(data).Some? {
      PutOfGetFrame(data);
    }
  }

  /** `decode_rvbm1` */
  method DecodeMutationBytes(data: bytes) returns (r: Option<Rvbm1>)
    ensures r == DecodeMutation(data)
  {
    hide Uint, Take, MutationOk;
    if |data| < 8 {
      TooShort(data);
      return None;
    }
    AfterMagic(data);
    if data[..8] != RVBM1_MAGIC {
      return None;
    }
    var reader := new WireReader(data, 8);
    var schema :- reader.ReadUint(2);
    if schema != 1 {
      return None;
    }
    var needs :- reader.ReadUint(1);
    var reserved :- reader.ReadUint(1);
    if reserved != 0 {
      return None;
    }
    var oracleLen :- reader.ReadUint(2);
    var oracle :- reader.ReadBytes(32);
    var aadLen :- reader.ReadUint(2);
    var aad :- reader.ReadBytes(aadLen);
    var mode :- reader.ReadUint(1);
    var bodyLen :- reader.ReadUint(4);
    var body :- reader.ReadBytes(bodyLen);
    var ct := None;
    if needs == 1 && mode == 0 {
      var n :- reader.ReadUint(4);
      var v :- reader.ReadBytes(n);
      ct := Some(v);
    }
    if reader.off != |data| {
      return None;
    }
    var m := Rvbm1(needs, oracleLen, oracle, aad, mode, body, ct);
    return if MutationOk(m) then Some(m) else None;
  }

  lemma TooShort(data: bytes)
    requires |data| < 8
    ensures Take(8, data).None?
  {}

  /** A presence byte, a reserved byte and a chain header. */
  method ReadOptionalHeader(reader: WireReader) returns (r: Option<Option<Rvch1>>)
    requires reader.Valid()
    modifies reader
    ensures reader.Valid() && Yields(GetOptional(GetHeader, old(reader.Rest())), r, reader.Rest())
  {
    hide Uint, Take, DecodeRvch1;
    var present :- reader.ReadUint(1);
    var reserved :- reader.ReadUint(1);
    if reserved != 0 {
      return None;
    }
    if present == 1 {
      var raw :- reader.ReadBytes(RVCH1_LEN);
      var ch :- DecodeRvch1Bytes(raw);
      return Some(Some(ch));
    }
    return if present == 0 then Some(None) else None;
  }

  method ReadOptionalDigest(reader: WireReader) returns (r: Option<Option<bytes>>)
    requires reader.Valid()
    modifies reader
    ensures reader.Valid() && Yields(GetOptional(GetDigest, old(reader.Rest())), r, reader.Rest())
  {
    hide Uint, Take;
    var present :- reader.ReadUint(1);
    var reserved :- reader.ReadUint(1);
    if reserved != 0 {
      return None;
    }
    if present == 1 {
      var digest :- reader.ReadBytes(32);
      return Some(Some(digest));
    }
    return if present == 0 then Some(None) else None;
  }

  method ReadInputFrame(reader: WireReader, op: nat) returns (r: Option<Option<bytes>>)
    requires reader.Valid()
    modifies reader
    ensures reader.Valid() && Yields(GetInputFrame(op, old(reader.Rest())), r, reader.Rest())
  {
    hide Uint, DecodeFrame;
    if op != OP_RECEIVE {
      return Some(None);
    }
    var n :- reader.ReadUint(4);
    ghost var rest := reader.Rest();
    if n < 55 || n > RVBC1_MAX_LEN {
      if Take(n, rest).Some? {
        ShortFrame(Take(n, rest).value.0);
      }
      return None;
    }
    var raw :- reader.ReadBytes(n);
    var frame :- DecodeFrameBytes(raw);
    return Some(Some(raw));
  }

  /** A mutation that uses up its input is a decodable one but for its contract. */
  lemma MutationAtEnd(b: bytes)
    ensures DecodeMutation(b).Some? ==> GetMutation(b) == Some((DecodeMutation(b).value, [])) && EncodeMutation(DecodeMutation(b).value) == Some(b)
    ensures GetMutation(b).Some? && GetMutation(b).value.1 == [] && MutationOk(GetMutation(b).value.0) ==> DecodeMutation(b).Some?
  {
    hide GetMutation, MutationOk, PutMutation;
    if DecodeMutation(b).Some? {
      MutationCanonical(b);
      var read := GetMutation(b).value;
      assert read == (DecodeMutation(b).value, []);
    }
  }

  /** `decode_rvbi1`: its second look at the mutation's length always agrees. */
  method DecodeInputBytes(data: bytes) returns (r: Option<Rvbi1>)
    ensures r == DecodeInput(data)
  {
    hide Uint, Take, GetOptional, GetInputFrame, GetMutation, DecodeMutation, MutationOk, PutMutation;
    if |data| < 8 {
      TooShort(data);
      return None;
    }
    AfterMagic(data);
    if data[..8] != RVBI1_MAGIC {
      return None;
    }
    var reader := new WireReader(data, 8);
    var schema :- reader.ReadUint(2);
    if schema != 1 {
      return None;
    }
    var op :- reader.ReadUint(1);
    var direction :- reader.ReadUint(1);
    var reserved :- reader.ReadUint(2);
    if reserved != 0 {
      return None;
    }
    var ch :- ReadOptionalHeader(reader);
    var expectedCh :- ReadOptionalHeader(reader);
    var objectDigest :- ReadOptionalDigest(reader);
    var frame :- ReadInputFrame(reader, op);
    var start := reader.off;
    MutationAtEnd(data[start..]);
    var decoded := DecodeMutationBytes(data[start..]);
    if decoded.None? {
      return None;
    }
    var mutation := decoded.value;
    var again := EncodeMutation(mutation);
    if again.None? || start + |again.value| != |data| {
      return None;
    }
    var i := Rvbi1(op, direction, ch, expectedCh, objectDigest, frame, mutation);
    return if InputOk(i) then Some(i) else None;
  }

  method ReadBlob2(reader: WireReader) returns (r: Option<bytes>)
    requires reader.Valid()
    modifies reader
    ensures reader.Valid() && Yields(GetBlob2(old(reader.Rest())), r, reader.Rest())
  {
    hide Uint, Take;
    var n :- reader.ReadUint(2);
    r := reader.ReadBytes(n);
  }

  method ReadTrust(reader: WireReader) returns (r: Option<Option<Trust>>)
    requires reader.Valid()
    modifies reader
    ensures reader.Valid() && Yields(GetTrust(old(reader.Rest())), r, reader.Rest())
  {
    hide Uint;
    var n :- reader.ReadUint(2);
    if n == 0 {
      return Some(None);
    }
    if n != 128 {
      return None;
    }
    var raw :- reader.ReadBytes(128);
    return Some(Some(Trust(raw[..32], raw[32..64], raw[64..96], raw[96..])));
  }

  /** `decode_rvbe1` */
  method DecodeEnvBytes(data: bytes) returns (r: Option<Rvbe1>)
    ensures r == DecodeEnv(data)
  {
    hide Uint, Take, GetBlob2, GetTrust, EnvOk;
    if |data| < 8 {
      TooShort(data);
      return None;
    }
    AfterMagic(data);
    if data[..8] != RVBE1_MAGIC {
      return None;
    }
    var reader := new WireReader(data, 8);
    var schema :- reader.ReadUint(2);
    if schema != 2 {
      return None;
    }
    var clock :- reader.ReadUint(8);
    var capPayload :- reader.ReadUint(4);
    var capChunks :- reader.ReadUint(4);
    var capState :- reader.ReadUint(4);
    var capReplayEntries :- reader.ReadUint(4);
    var capReplayBytes :- reader.ReadUint(4);
    var keygenSeed :- ReadBlob2(reader);
    var encapsCoins :- ReadBlob2(reader);
    var ecDhSeed :- ReadBlob2(reader);
    var trust :- ReadTrust(reader);
    var reserved :- reader.ReadUint(4);
    if reserved != 0 || reader.off != |data| {
      return None;
    }
    var e := Rvbe1(clock, capPayload, capChunks, capState, capReplayEntries, capReplayBytes, keygenSeed, encapsCoins, ecDhSeed, trust);
    return if EnvOk(e) then Some(e) else None;
  }
}
