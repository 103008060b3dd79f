/** The encoders of the input and environment wires as the source writes them: a buffer that grows. */
module BraidWireWriter {
  import opened Bytes
  import opened BraidWire
  import opened WireWriting

  /** `_u8`: the low byte. */
  method WriteU8(out: bytes, n: nat, ghost rest: bytes) returns (r: bytes)
    ensures r + rest == out + PutU8(n, rest)
  {
    r := out + [n % 256];
    assert out + [n % 256] + rest == out + ([n % 256] + rest);
  }

  /** `_encode_rvbm1_wire` */
  method EncodeMutationBytes(m: Rvbm1) returns (r: Option<bytes>)
    ensures r == EncodeMutation(m)
  {
    hide MutationOk, PutUint, PutU8, Fits;
    if !MutationOk(m) {
      return None;
    }
    MutationWidths(m);
    SmallFits();
    ghost var r9 := PutCt(m, []);
    ghost var r8 := m.body + r9;
    ghost var r7 := PutUint(|m.body|, 4, r8);
    ghost var r6 := PutU8(m.mode, r7);
    ghost var r5 := m.aad + r6;
    ghost var r4 := PutUint(|m.aad|, 2, r5);
    ghost var r3 := m.oracle + r4;
    ghost var r2 := PutUint(m.oracleLen, 2, r3);
    ghost var r1 := PutU8(0, r2);
    var o := WriteSmall(RVBM1_MAGIC, 1, 2, PutU8(m.needsAead, r1));
    o := WriteU8(o, m.needsAead, r1);
    o := WriteU8(o, 0, r2);
    o := WriteSmall(o, m.oracleLen, 2, r3);
    o := WriteBytes(o, m.oracle, r4);
    o := WriteSmall(o, |m.aad|, 2, r5);
    o := WriteBytes(o, m.aad, r6);
    o := WriteU8(o, m.mode, r7);
    o := WriteSmall(o, |m.body|, 4, r8);
    o := WriteBytes(o, m.body, r9);
    if m.needsAead == 1 && m.mode == 0 {
      o := WriteSmall(o, |m.expectedCt.value|, 4, m.expectedCt.value + []);
      o := WriteBytes(o, m.expectedCt.value, []);
    }
    assert o + [] == o;
    return Some(o);
  }

  /** A presence byte, a reserved byte and the header, which may not encode. */
  method WriteOptionalHeader(out: bytes, v: Option<Rvch1>, ghost rest: bytes) returns (r: Option<bytes>)
    ensures r.Some? <==> (v.Some? ==> EncodeRvch1(v.value).Some?)
    ensures r.Some? ==> r.value + rest == out + PutOptional(PutRvch1, v, rest)
  {
    hide PutU8, PutRvch1, DirectionOk, Rvch1Fits;
    if v.None? {
      var o := WriteU8(out, 0, PutU8(0, rest));
      o := WriteU8(o, 0, rest);
      return Some(o);
    }
    ghost var body := PutRvch1(v.value, rest);
    var o := WriteU8(out, 1, PutU8(0, body));
    o := WriteU8(o, 0, body);
    var header :- EncodeRvch1(v.value);
    PutRvch1Append(v.value, rest);
    o := WriteBytes(o, header, rest);
    return Some(o);
  }

  method WriteOptionalDigest(out: bytes, v: Option<bytes>, ghost rest: bytes) returns (r: Option<bytes>)
    ensures r.Some? <==> (v.Some? ==> |v.value| == 32)
    ensures r.Some? ==> r.value + rest == out + PutOptional(PutDigest, v, rest)
  {
    hide PutU8;
    if v.None? {
      var o := WriteU8(out, 0, PutU8(0, rest));
      o := WriteU8(o, 0, rest);
      return Some(o);
    }
    if |v.value| != 32 {
      return None;
    }
    ghost var body := v.value + rest;
    var o := WriteU8(out, 1, PutU8(0, body));
    o := WriteU8(o, 0, body);
    o := WriteBytes(o, v.value, rest);
    return Some(o);
  }

  method WriteInputFrame(out: bytes, op: nat, frame: Option<bytes>, ghost rest: bytes) returns (r: Option<bytes>)
    requires op == OP_RECEIVE <==> frame.Some?
    ensures r.Some? <==> (frame.Some? ==> DecodeFrame(frame.value).Some?)
    ensures r.Some? ==> r.value + rest == out + PutInputFrame(op, frame, rest)
  {
    hide DecodeFrame, PutUint, Fits;
    if op != OP_RECEIVE {
      return Some(out);
    }
    var f :- DecodeFrame(frame.value);
    FrameLengthFits(frame.value);
    var o := WriteSmall(out, |frame.value|, 4, frame.value + rest);
    o := WriteBytes(o, frame.value, rest);
    return Some(o);
  }

  /** An input the contract admits has a frame exactly when it is received. */
  lemma FrameWhenReceived(i: Rvbi1)
    requires InputOk(i)
    ensures i.op == OP_RECEIVE <==> i.frame.Some?
  {}

  /** `encode_rvbi1` */
  method EncodeInputBytes(i: Rvbi1) returns (r: Option<bytes>)
    ensures r == EncodeInput(i)
  {
    hide InputOk, PutUint, PutU8, PutOptional, PutInputFrame, PutMutation, MutationOk, DecodeFrame, DirectionOk, Rvch1Fits, Fits;
    if !InputOk(i) {
      return None;
    }
    FrameWhenReceived(i);
    SmallFits();
    ghost var r7 := PutMutation(i.mutation, []);
    ghost var r6 := PutInputFrame(i.op, i.frame, r7);
    ghost var r5 := PutOptional(PutDigest, i.objectDigest, r6);
    ghost var r4 := PutOptional(PutRvch1, i.expectedCh, r5);
    ghost var r3 := PutOptional(PutRvch1, i.ch, r4);
    ghost var r2 := PutUint(0, 2, r3);
    ghost var r1 := PutU8(i.direction, r2);
    var o := WriteSmall(RVBI1_MAGIC, 1, 2, PutU8(i.op, r1));
    o := WriteU8(o, i.op, r1);
    o := WriteU8(o, i.direction, r2);
    o := WriteSmall(o, 0, 2, r3);
    o :- WriteOptionalHeader(o, i.ch, r4);
    o :- WriteOptionalHeader(o, i.expectedCh, r5);
    o :- WriteOptionalDigest(o, i.objectDigest, r6);
    o :- WriteInputFrame(o, i.op, i.frame, r7);
    var mutation :- EncodeMutationBytes(i.mutation);
    o := o + mutation;
    return Some(o);
  }

  method WriteTrust(out: bytes, t: Option<Trust>, ghost rest: bytes) returns (r: Option<bytes>)
    ensures r.Some? <==> (t.Some? ==> |TrustBytes(t.value)| == 128)
    ensures r.Some? ==> r.value + rest == out + PutTrust(t, rest)
  {
    hide PutUint, Fits, TrustBytes;
    Widths();
    WidthFits(128);
    SmallFits();
    if t.None? {
      var none := WriteSmall(out, 0, 2, rest);
      return Some(none);
    }
    var raw := TrustBytes(t.value);
    if |raw| != 128 {
      return None;
    }
    var o := WriteSmall(out, |raw|, 2, raw + rest);
    o := WriteBytes(o, raw, rest);
    return Some(o);
  }

  method WriteBlob2(out: bytes, b: bytes, ghost rest: bytes) returns (r: bytes)
    requires |b| <= 64
    ensures r + rest == out + PutBlob2(b, rest)
  {
    hide PutUint, Fits;
    WidthFits(|b|);
    r := WriteSmall(out, |b|, 2, b + rest);
    r := WriteBytes(r, b, rest);
  }

  /** `encode_rvbe1` */
  method EncodeEnvBytes(e: Rvbe1) returns (r: Option<bytes>)
    ensures r == EncodeEnv(e)
  {
    hide PutUint, PutBlob2, PutTrust, TrustBytes, Fits;
    if !EnvOk(e) {
      return None;
    }
    EnvFits(e);
    SmallFits();
    ghost var r11 := PutUint(0, 4, []);
    ghost var r10 := PutTrust(e.trust, r11);
    ghost var r9 := PutBlob2(e.ecDhSeed, r10);
    ghost var r8 := PutBlob2(e.encapsCoins, r9);
    ghost var r7 := PutBlob2(e.keygenSeed, r8);
    ghost var r6 := PutUint(e.capReplayBytes, 4, r7);
    ghost var r5 := PutUint(e.capReplayEntries, 4, r6);
    ghost var r4 := PutUint(e.capState, 4, r5);
    ghost var r3 := PutUint(e.capChunks, 4, r4);
    ghost var r2 := PutUint(e.capPayload, 4, r3);
    var o := WriteSmall(RVBE1_MAGIC, 2, 2, PutUint(e.clock, 8, r2));
    o :- WriteUint(o, e.clock, 8, r2);
    o := WriteSmall(o, e.capPayload, 4, r3);
    o := WriteSmall(o, e.capChunks, 4, r4);
    o := WriteSmall(o, e.capState, 4, r5);
    o := WriteSmall(o, e.capReplayEntries, 4, r6);
    o := WriteSmall(o, e.capReplayBytes, 4, r7);
    o := WriteBlob2(o, e.keygenSeed, r8);
    o := WriteBlob2(o, e.encapsCoins, r9);
    o := WriteBlob2(o, e.ecDhSeed, r10);
    o :- WriteTrust(o, e.trust, r11);
    o := WriteSmall(o, 0, 4, []);
    assert o + [] == o;
    return Some(o);
  }
}
