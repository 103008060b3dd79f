/** The input and environment wires of a transition: RVCH1, RVBM1, RVBC1, RVBI1 and RVBE1. */
module BraidWire {
  import opened Bytes
  import opened BraidChunks

  const OP_RECEIVE := 1
  const MODE_OPEN := 1
  const RVBA1_LEN := 176
  const MAX_PLAINTEXT := 8192
  const MAX_CIPHERTEXT := 8208
  const RVBC1_MAX_LEN := 8247
  const RVBC1_MAX_PAYLOAD := RVBC1_MAX_LEN - 23 - 32
  const RVCH1_LEN := 68
  const MAX_STATE_BYTES := 262144

  const RVCH1_MAGIC: bytes := [0x52, 0x56, 0x43, 0x48, 0x31, 0, 0, 0]
  const RVBM1_MAGIC: bytes := [0x52, 0x56, 0x42, 0x4D, 0x31, 0, 0, 0]
  const RVBC1_MAGIC: bytes := [0x52, 0x56, 0x42, 0x43, 0x31, 0, 0, 0]
  const RVBI1_MAGIC: bytes := [0x52, 0x56, 0x42, 0x49, 0x31, 0, 0, 0]
  const RVBE1_MAGIC: bytes := [0x52, 0x56, 0x42, 0x45, 0x31, 0, 0, 0]

  /** One-byte fields are written masked: `bytes([n & 0xFF])`. */
  function PutU8(n: int, rest: bytes): bytes { [n % 256] + rest }

  lemma GetOfPutU8(n: int, rest: bytes)
    ensures Uint(1, PutU8(n, rest)) == Some((n % 256, rest))
  {
    var b := PutU8(n, rest);
    assert b[..1] == [n % 256] && b[1..] == rest;
    OneByte(n % 256);
  }

  lemma OneByte(x: byte)
    ensures FromBE([x]) == x
  {
    assert [x][..0] == [];
  }

  lemma PutOfGetU8(b: bytes)
    requires Uint(1, b).Some?
    ensures 0 <= Uint(1, b).value.0 < 256 && b == PutU8(Uint(1, b).value.0, Uint(1, b).value.1)
  {
    assert b[..1] == [b[0]];
    OneByte(b[0]);
    assert b == [b[0]] + b[1..];
  }

  lemma WidthFits(n: nat)
    ensures Fits(n, 2) <==> n < 0x1_0000
    ensures Fits(n, 4) <==> n < 0x1_0000_0000
    ensures Fits(n, 8) <==> n < 0x1_0000_0000_0000_0000
  {
    Widths();
  }

  /** The parser has to use up its input. */
  function Whole<T>(p: Parsed<T>): Option<T> {
    var (v, rest) :- p;
    if rest == [] then Some(v) else None
  }

  // ----- RVCH1: chain headers ------------------------------------------------------------------

  datatype Rvch1 = Rvch1(ecDhPub: bytes, ecPn: int, ecN: int, sckaEpoch: int, sckaPn: int, sckaN: int, direction: nat)

  predicate Rvch1Fits(v: Rvch1) {
    |v.ecDhPub| == 32 && Fits(v.ecPn, 4) && Fits(v.ecN, 4) && Fits(v.sckaEpoch, 8) && Fits(v.sckaPn, 4) && Fits(v.sckaN, 4)
  }

  function PutRvch1(v: Rvch1, rest: bytes): bytes {
    RVCH1_MAGIC + PutUint(1, 2, v.ecDhPub + PutUint(v.ecPn, 4, PutUint(v.ecN, 4, PutUint(v.sckaEpoch, 8,
      PutUint(v.sckaPn, 4, PutUint(v.sckaN, 4, PutU8(v.direction, PutU8(0, rest))))))))
  }

  function GetRvch1(b: bytes): Parsed<Rvch1> {
    var (magic, b0) :- Take(8, b);
    var (schema, b1) :- Uint(2, b0);
    var (ecDhPub, b2) :- Take(32, b1);
    var (ecPn, b3) :- Uint(4, b2);
    var (ecN, b4) :- Uint(4, b3);
    var (sckaEpoch, b5) :- Uint(8, b4);
    var (sckaPn, b6) :- Uint(4, b5);
    var (sckaN, b7) :- Uint(4, b6);
    var (direction, b8) :- Uint(1, b7);
    var (reserved, b9) :- Uint(1, b8);
    if magic != RVCH1_MAGIC || schema != 1 || reserved != 0 then None
    else Some((Rvch1(ecDhPub, ecPn, ecN, sckaEpoch, sckaPn, sckaN, direction), b9))
  }

  predicate DirectionOk(v: Rvch1) { v.direction == 0 || v.direction == 1 }

  function EncodeRvch1(v: Rvch1): Option<bytes> {
    if Rvch1Fits(v) && DirectionOk(v) then Some(PutRvch1(v, [])) else None
  }

  function DecodeRvch1(data: bytes): Option<Rvch1> { if |data| != RVCH1_LEN then None else Whole(GetRvch1(data)) }

  lemma GetOfPutRvch1(v: Rvch1, rest: bytes)
    requires Rvch1Fits(v)
    ensures GetRvch1(PutRvch1(v, rest)) == Some((v.(direction := v.direction % 256), rest))
    ensures |PutRvch1(v, rest)| == RVCH1_LEN + |rest|
  {
    hide Uint, Take, Fits;
    Widths();
    var r8 := PutU8(0, rest);
    var r7 := PutU8(v.direction, r8);
    var r6 := PutUint(v.sckaN, 4, r7);
    var r5 := PutUint(v.sckaPn, 4, r6);
    var r4 := PutUint(v.sckaEpoch, 8, r5);
    var r3 := PutUint(v.ecN, 4, r4);
    var r2 := PutUint(v.ecPn, 4, r3);
    TakeOfConcat(RVCH1_MAGIC, PutUint(1, 2, v.ecDhPub + r2));
    SmallFits();
    GetOfPutUint(1, 2, v.ecDhPub + r2);
    TakeOfConcat(v.ecDhPub, r2);
    GetOfPutUint(v.ecPn, 4, r3);
    GetOfPutUint(v.ecN, 4, r4);
    GetOfPutUint(v.sckaEpoch, 8, r5);
    GetOfPutUint(v.sckaPn, 4, r6);
    GetOfPutUint(v.sckaN, 4, r7);
    GetOfPutU8(v.direction, r8);
    GetOfPutU8(0, rest);
  }

  lemma SmallFits()
    ensures Fits(0, 2) && Fits(1, 2) && Fits(2, 2) && Fits(0, 4)
  {
    Widths();
  }

  lemma PutOfGetRvch1(b: bytes)
    requires GetRvch1(b).Some?
    ensures var (v, rest) := GetRvch1(b).value; Rvch1Fits(v) && v.direction < 256 && b == PutRvch1(v, rest)
  {
    hide Uint, Take, Fits, PutUint;
    TakeInverse(8, b);
    var b0 := Take(8, b).value.1;
    PutOfGetUint(2, b0);
    var b1 := Uint(2, b0).value.1;
    TakeInverse(32, b1);
    var b2 := Take(32, b1).value.1;
    PutOfGetUint(4, b2);
    var b3 := Uint(4, b2).value.1;
    PutOfGetUint(4, b3);
    var b4 := Uint(4, b3).value.1;
    PutOfGetUint(8, b4);
    var b5 := Uint(8, b4).value.1;
    PutOfGetUint(4, b5);
    var b6 := Uint(4, b5).value.1;
    PutOfGetUint(4, b6);
    var b7 := Uint(4, b6).value.1;
    PutOfGetU8(b7);
    PutOfGetU8(Uint(1, b7).value.1);
  }

  /** The decoder accepts every direction byte; exactly those with 0 or 1 encode again. */
  lemma Rvch1Canonical(data: bytes)
    requires DecodeRvch1(data).Some?
    ensures EncodeRvch1(DecodeRvch1(data).value) == Some(data) <==> DirectionOk(DecodeRvch1(data).value)
    ensures EncodeRvch1(DecodeRvch1(data).value).Some? ==> EncodeRvch1(DecodeRvch1(data).value) == Some(data)
  {
    hide GetRvch1, PutRvch1, Fits;
    PutOfGetRvch1(data);
  }

  /** What the encoder writes is read back. */
  lemma Rvch1RoundTrip(v: Rvch1)
    requires EncodeRvch1(v).Some?
    ensures DecodeRvch1(EncodeRvch1(v).value) == Some(v)
  {
    hide GetRvch1, PutRvch1, Fits;
    GetOfPutRvch1(v, []);
  }

  // ----- RVBC1: data frames ----------------------------------------------------------------------

  predicate FrameFits(f: Frame) { Fits(f.epoch, 8) && Fits(f.index, 4) && |f.binding| == 32 && |f.payload| <= RVBC1_MAX_PAYLOAD }

  function PutFrame(f: Frame): bytes {
    RVBC1_MAGIC + PutUint(f.epoch, 8, PutU8(f.chunkType, PutUint(f.index, 4, PutUint(|f.payload|, 2, f.payload + (f.binding + [])))))
  }

  function GetFrame(b: bytes): Parsed<Frame> {
    var (magic, b0) :- Take(8, b);
    var (epoch, b1) :- Uint(8, b0);
    var (chunkType, b2) :- Uint(1, b1);
    var (index, b3) :- Uint(4, b2);
    var (n, b4) :- Uint(2, b3);
    var (payload, b5) :- Take(n, b4);
    var (binding, b6) :- Take(32, b5);
    if magic != RVBC1_MAGIC then None else Some((Frame(epoch, chunkType, index, payload, binding), b6))
  }

  function EncodeFrame(f: Frame): Option<bytes> { if FrameFits(f) then Some(PutFrame(f)) else None }

  function DecodeFrame(data: bytes): Option<Frame> {
    if |data| > RVBC1_MAX_LEN then None else Whole(GetFrame(data))
  }

  lemma FrameLength(f: Frame)
    requires FrameFits(f)
    ensures |PutFrame(f)| == 23 + |f.payload| + 32
  {
    hide Fits, BE;
  }

  lemma GetOfPutFrame(f: Frame)
    requires FrameFits(f)
    ensures GetFrame(PutFrame(f)) == Some((f.(chunkType := f.chunkType % 256), []))
  {
    hide Uint, Take, Fits;
    WidthFits(|f.payload|);
    var r5 := f.binding + [];
    var r4 := f.payload + r5;
    var r3 := PutUint(|f.payload|, 2, r4);
    var r2 := PutUint(f.index, 4, r3);
    var r1 := PutU8(f.chunkType, r2);
    TakeOfConcat(RVBC1_MAGIC, PutUint(f.epoch, 8, r1));
    GetOfPutUint(f.epoch, 8, r1);
    GetOfPutU8(f.chunkType, r2);
    GetOfPutUint(f.index, 4, r3);
    GetOfPutUint(|f.payload|, 2, r4);
    TakeOfConcat(f.payload, r5);
    TakeOfConcat(f.binding, []);
  }

  lemma PutOfGetFrame(b: bytes)
    requires GetFrame(b).Some? && GetFrame(b).value.1 == []
    ensures var f := GetFrame(b).value.0;
            && b == PutFrame(f) && 0 <= f.chunkType < 256 && |f.binding| == 32 && Fits(f.epoch, 8) && Fits(f.index, 4)
            && |b| == 55 + |f.payload|
  {
    hide Uint, Take, Fits, PutUint;
    TakeInverse(8, b);
    var b0 := Take(8, b).value.1;
    PutOfGetUint(8, b0);
    var b1 := Uint(8, b0).value.1;
    PutOfGetU8(b1);
    var b2 := Uint(1, b1).value.1;
    PutOfGetUint(4, b2);
    var b3 := Uint(4, b2).value.1;
    PutOfGetUint(2, b3);
    var b4 := Uint(2, b3).value.1;
    TakeInverse(Uint(2, b3).value.0, b4);
    TakeInverse(32, Take(Uint(2, b3).value.0, b4).value.1);
    FramePieces(GetFrame(b).value.0);
  }

  lemma FramePieces(f: Frame)
    ensures |PutFrame(f)| == 23 + |f.payload| + |f.binding|
  {
    hide BE;
  }

  /** Frames and their wires correspond exactly, the chunk type up to its low byte when written. */
  lemma FrameInverse(f: Frame, data: bytes)
    ensures DecodeFrame(data) == Some(f) <==> EncodeFrame(f) == Some(data) && 0 <= f.chunkType < 256
    ensures EncodeFrame(f) == Some(data) ==> DecodeFrame(data) == Some(f.(chunkType := f.chunkType % 256))
  {
    hide GetFrame, PutFrame, Fits;
    if FrameFits(f) {
      GetOfPutFrame(f);
      FrameLength(f);
    }
    if DecodeFrame(data).Some? {
      PutOfGetFrame(data);
    }
  }

  // ----- RVBM1: the AEAD mutation ---------------------------------------------------------------------

  datatype Rvbm1 = Rvbm1(needsAead: nat, oracleLen: nat, oracle: bytes, aad: bytes, mode: nat, body: bytes, expectedCt: Option<bytes>)

  /** `_validate_rvbm1_contract` */
  predicate MutationOk(m: Rvbm1) {
    if m.needsAead == 0 then m == Rvbm1(0, 0, ZeroBytes(32), [], 0, [], None)
    else
      && m.needsAead == 1 && (m.oracleLen == 0 || m.oracleLen == 32) && |m.aad| == RVBA1_LEN && m.mode <= 1
      && (if m.mode == MODE_OPEN then 16 <= |m.body| <= MAX_CIPHERTEXT && m.expectedCt.None?
          else |m.body| <= MAX_PLAINTEXT && m.expectedCt.Some? && |m.expectedCt.value| == |m.body| + 16)
  }

  predicate CarriesCt(m: Rvbm1) { m.needsAead == 1 && m.mode == 0 }

  function PutCt(m: Rvbm1, rest: bytes): bytes {
    if CarriesCt(m) && m.expectedCt.Some? then PutUint(|m.expectedCt.value|, 4, m.expectedCt.value + rest) else rest
  }

  function PutMutation(m: Rvbm1, rest: bytes): bytes {
    RVBM1_MAGIC + PutUint(1, 2, PutU8(m.needsAead, PutU8(0, PutUint(m.oracleLen, 2, m.oracle + PutUint(|m.aad|, 2,
      m.aad + PutU8(m.mode, PutUint(|m.body|, 4, m.body + PutCt(m, rest))))))))
  }

  function GetCt(needs: nat, mode: nat, b: bytes): Parsed<Option<bytes>> {
    if needs == 1 && mode == 0 then
      var (n, b1) :- Uint(4, b);
      var (ct, b2) :- Take(n, b1);
      Some((Some(ct), b2))
    else Some((None, b))
  }

  function GetMutation(b: bytes): Parsed<Rvbm1> {
    var (magic, b0) :- Take(8, b);
    var (schema, b1) :- Uint(2, b0);
    var (needs, b2) :- Uint(1, b1);
    var (reserved, b3) :- Uint(1, b2);
    var (oracleLen, b4) :- Uint(2, b3);
    var (oracle, b5) :- Take(32, b4);
    var (aadLen, b6) :- Uint(2, b5);
    var (aad, b7) :- Take(aadLen, b6);
    var (mode, b8) :- Uint(1, b7);
    var (bodyLen, b9) :- Uint(4, b8);
    var (body, b10) :- Take(bodyLen, b9);
    var (ct, b11) :- GetCt(needs, mode, b10);
    if magic != RVBM1_MAGIC || schema != 1 || reserved != 0 then None
    else Some((Rvbm1(needs, oracleLen, oracle, aad, mode, body, ct), b11))
  }

  function EncodeMutation(m: Rvbm1): Option<bytes> { if MutationOk(m) then Some(PutMutation(m, [])) else None }

  function DecodeMutation(data: bytes): Option<Rvbm1> {
    var m :- Whole(GetMutation(data));
    if MutationOk(m) then Some(m) else None
  }

  lemma MutationWidths(m: Rvbm1)
    requires MutationOk(m)
    ensures Fits(m.oracleLen, 2) && Fits(|m.aad|, 2) && Fits(|m.body|, 4) && (m.expectedCt.Some? ==> Fits(|m.expectedCt.value|, 4))
    ensures m.needsAead < 256 && m.mode < 256 && (CarriesCt(m) <==> m.expectedCt.Some?)
  {
    Widths();
  }

  lemma GetOfPutCt(m: Rvbm1, rest: bytes)
    requires MutationOk(m)
    ensures GetCt(m.needsAead, m.mode, PutCt(m, rest)) == Some((m.expectedCt, rest))
  {
    hide Uint, Take, PutUint, Fits, MutationOk;
    MutationWidths(m);
    if CarriesCt(m) {
      GetOfPutUint(|m.expectedCt.value|, 4, m.expectedCt.value + rest);
      TakeOfConcat(m.expectedCt.value, rest);
    }
  }

  lemma GetOfPutMutation(m: Rvbm1, rest: bytes)
    requires MutationOk(m) && |m.oracle| == 32
    ensures GetMutation(PutMutation(m, rest)) == Some((m, rest))
  {
    hide Uint, Take, Fits, MutationOk, PutCt, GetCt, PutUint;
    MutationWidths(m);
    SmallFits();
    var r9 := PutCt(m, rest);
    var r8 := m.body + r9;
    var r7 := PutUint(|m.body|, 4, r8);
    var r6 := PutU8(m.mode, r7);
    var r5 := m.aad + r6;
    var r4 := PutUint(|m.aad|, 2, r5);
    var r3 := m.oracle + r4;
    var r2 := PutUint(m.oracleLen, 2, r3);
    var r1 := PutU8(0, r2);
    var r0 := PutU8(m.needsAead, r1);
    TakeOfConcat(RVBM1_MAGIC, PutUint(1, 2, r0));
    GetOfPutUint(1, 2, r0);
    GetOfPutU8(m.needsAead, r1);
    GetOfPutU8(0, r2);
    GetOfPutUint(m.oracleLen, 2, r3);
    TakeOfConcat(m.oracle, r4);
    GetOfPutUint(|m.aad|, 2, r5);
    TakeOfConcat(m.aad, r6);
    GetOfPutU8(m.mode, r7);
    GetOfPutUint(|m.body|, 4, r8);
    TakeOfConcat(m.body, r9);
    GetOfPutCt(m, rest);
  }

  lemma PutOfGetCt(needs: nat, mode: nat, b: bytes)
    requires GetCt(needs, mode, b).Some?
    ensures var (ct, rest) := GetCt(needs, mode, b).value;
            && (ct.Some? <==> needs == 1 && mode == 0)
            && b == if ct.Some? then PutUint(|ct.value|, 4, ct.value + rest) else rest
  {
    hide Uint, Take, PutUint, Fits;
    if needs == 1 && mode == 0 {
      PutOfGetUint(4, b);
      TakeInverse(Uint(4, b).value.0, Uint(4, b).value.1);
    }
  }

  lemma PutOfGetMutation(b: bytes)
    requires GetMutation(b).Some?
    ensures var (m, rest) := GetMutation(b).value; b == PutMutation(m, rest) && |m.oracle| == 32
  {
    hide Uint, Take, Fits, PutUint, GetCt;
    TakeInverse(8, b);
    var b0 := Take(8, b).value.1;
    PutOfGetUint(2, b0);
    var b1 := Uint(2, b0).value.1;
    PutOfGetU8(b1);
    var b2 := Uint(1, b1).value.1;
    PutOfGetU8(b2);
    var b3 := Uint(1, b2).value.1;
    PutOfGetUint(2, b3);
    var b4 := Uint(2, b3).value.1;
    TakeInverse(32, b4);
    var b5 := Take(32, b4).value.1;
    PutOfGetUint(2, b5);
    var b6 := Uint(2, b5).value.1;
    TakeInverse(Uint(2, b5).value.0, b6);
    var b7 := Take(Uint(2, b5).value.0, b6).value.1;
    PutOfGetU8(b7);
    var b8 := Uint(1, b7).value.1;
    PutOfGetUint(4, b8);
    var b9 := Uint(4, b8).value.1;
    TakeInverse(Uint(4, b8).value.0, b9);
    PutOfGetCt(Uint(1, b1).value.0, Uint(1, b7).value.0, Take(Uint(4, b8).value.0, b9).value.1);
  }

  /** Every accepted mutation wire is canonical. */
  lemma MutationCanonical(data: bytes)
    requires DecodeMutation(data).Some?
    ensures EncodeMutation(DecodeMutation(data).value) == Some(data) && |DecodeMutation(data).value.oracle| == 32
  {
    hide GetMutation, PutMutation, MutationOk;
    PutOfGetMutation(data);
  }

  /** An encodable mutation is read back exactly when its oracle has 32 bytes, which the encoder does not check. */
  lemma MutationRoundTripIff(m: Rvbm1)
    requires EncodeMutation(m).Some?
    ensures DecodeMutation(EncodeMutation(m).value) == Some(m) <==> |m.oracle| == 32
  {
    hide GetMutation, PutMutation, MutationOk;
    if |m.oracle| == 32 {
      GetOfPutMutation(m, []);
    }
    if DecodeMutation(EncodeMutation(m).value) == Some(m) {
      MutationCanonical(EncodeMutation(m).value);
    }
  }

  // ----- RVBI1: transition inputs ----------------------------------------------------------------------

  datatype Rvbi1 = Rvbi1(op: nat, direction: nat, ch: Option<Rvch1>, expectedCh: Option<Rvch1>,
                         objectDigest: Option<bytes>, frame: Option<bytes>, mutation: Rvbm1)

  /** `_validate_rvbi1_contract` */
  predicate InputOk(i: Rvbi1) {
    && i.op <= OP_RECEIVE
    && (i.op == 0 ==> i.ch.None? && i.expectedCh.None? && i.objectDigest.None? && i.frame.None?)
    && (i.op == OP_RECEIVE ==> i.frame.Some? && i.objectDigest.Some? && (i.mutation.needsAead == 1 <==> i.ch.Some?))
  }

  function PutOptional<T>(put: (T, bytes) -> bytes, v: Option<T>, rest: bytes): bytes {
    match v
    case None => PutU8(0, PutU8(0, rest))
    case Some(x) => PutU8(1, PutU8(0, put(x, rest)))
  }

  function GetOptional<T>(get: bytes -> Parsed<T>, b: bytes): Parsed<Option<T>> {
    var (present, b1) :- Uint(1, b);
    var (reserved, b2) :- Uint(1, b1);
    if reserved != 0 then None
    else if present == 0 then Some((None, b2))
    else if present != 1 then None
    else
      var (v, b3) :- get(b2);
      Some((Some(v), b3))
  }

  function PutDigest(d: bytes, rest: bytes): bytes { d + rest }
  function GetDigest(b: bytes): Parsed<bytes> { Take(32, b) }

  function PutInputFrame(op: nat, frame: Option<bytes>, rest: bytes): bytes {
    if op == OP_RECEIVE && frame.Some? then PutUint(|frame.value|, 4, frame.value + rest) else rest
  }

  function PutInput(i: Rvbi1): bytes {
    RVBI1_MAGIC + PutUint(1, 2, PutU8(i.op, PutU8(i.direction, PutUint(0, 2,
      PutOptional(PutRvch1, i.ch, PutOptional(PutRvch1, i.expectedCh, PutOptional(PutDigest, i.objectDigest,
        PutInputFrame(i.op, i.frame, PutMutation(i.mutation, [])))))))))
  }

  function GetInputFrame(op: nat, b: bytes): Parsed<Option<bytes>> {
    if op != OP_RECEIVE then Some((None, b))
    else
      var (n, b1) :- Uint(4, b);
      var (frame, b2) :- Take(n, b1);
      if DecodeFrame(frame).None? then None else Some((Some(frame), b2))
  }

  /** A chain header inside an input is the next 68 bytes, decoded as a whole. */
  function GetHeader(b: bytes): Parsed<Rvch1> {
    var (raw, rest) :- Take(RVCH1_LEN, b);
    var v :- DecodeRvch1(raw);
    Some((v, rest))
  }

  function GetInput(b: bytes): Parsed<Rvbi1> {
    var (magic, b0) :- Take(8, b);
    var (schema, b1) :- Uint(2, b0);
    var (op, b2) :- Uint(1, b1);
    var (direction, b3) :- Uint(1, b2);
    var (reserved, b4) :- Uint(2, b3);
    var (ch, b5) :- GetOptional(GetHeader, b4);
    var (expectedCh, b6) :- GetOptional(GetHeader, b5);
    var (objectDigest, b7) :- GetOptional(GetDigest, b6);
    var (frame, b8) :- GetInputFrame(op, b7);
    var (mutation, b9) :- GetMutation(b8);
    if magic != RVBI1_MAGIC || schema != 1 || reserved != 0 then None
    else Some((Rvbi1(op, direction, ch, expectedCh, objectDigest, frame, mutation), b9))
  }

  /** Both chain headers carry a direction that encodes. */
  predicate DirectionsOk(i: Rvbi1) {
    (i.ch.Some? ==> DirectionOk(i.ch.value)) && (i.expectedCh.Some? ==> DirectionOk(i.expectedCh.value))
  }

  function EncodeInput(i: Rvbi1): Option<bytes> {
    if !InputOk(i) || !DirectionsOk(i) then None
    else if (i.ch.Some? && !Rvch1Fits(i.ch.value)) || (i.expectedCh.Some? && !Rvch1Fits(i.expectedCh.value)) then None
    else if i.objectDigest.Some? && |i.objectDigest.value| != 32 then None
    else if i.frame.Some? && DecodeFrame(i.frame.value).None? then None
    else if !MutationOk(i.mutation) then None
    else Some(PutInput(i))
  }

  function DecodeInput(data: bytes): Option<Rvbi1> {
    var i :- Whole(GetInput(data));
    if MutationOk(i.mutation) && InputOk(i) then Some(i) else None
  }

  lemma HeaderIsRvch1(b: bytes)
    ensures GetHeader(b).Some? ==> GetRvch1(b) == GetHeader(b)
    ensures GetHeader(b).Some? ==> var (v, rest) := GetHeader(b).value; Rvch1Fits(v) && v.direction < 256 && b == PutRvch1(v, rest)
  {
    hide GetRvch1, PutRvch1, Fits;
    if GetHeader(b).Some? {
      var (raw, rest) := Take(RVCH1_LEN, b).value;
      var v := GetHeader(b).value.0;
      TakeInverse(RVCH1_LEN, b);
      PutOfGetRvch1(raw);
      PutRvch1Append(v, rest);
      GetOfPutRvch1(v, rest);
    }
  }

  lemma PutRvch1Append(v: Rvch1, rest: bytes)
    requires Rvch1Fits(v)
    ensures PutRvch1(v, []) + rest == PutRvch1(v, rest)
  {
    hide BE;
    var a, b, c, d, e, g := BE(1, 2), BE(v.ecPn, 4), BE(v.ecN, 4), BE(v.sckaEpoch, 8), BE(v.sckaPn, 4), BE(v.sckaN, 4);
    var t: bytes := [v.direction % 256];
    assert RVCH1_MAGIC + (a + (v.ecDhPub + (b + (c + (d + (e + (g + (t + ([0] + []))))))))) + rest
        == RVCH1_MAGIC + (a + (v.ecDhPub + (b + (c + (d + (e + (g + (t + ([0] + rest)))))))));
  }

  lemma GetHeaderOfPut(v: Rvch1, rest: bytes)
    requires Rvch1Fits(v) && v.direction < 256
    ensures GetHeader(PutRvch1(v, rest)) == Some((v, rest))
  {
    hide GetRvch1, PutRvch1, Fits, Take;
    GetOfPutRvch1(v, []);
    PutRvch1Append(v, rest);
    TakeOfConcat(PutRvch1(v, []), rest);
  }

  lemma GetOfPutOptional<T>(put: (T, bytes) -> bytes, get: bytes -> Parsed<T>, v: Option<T>, rest: bytes)
    requires v.Some? ==> get(put(v.value, rest)) == Some((v.value, rest))
    ensures GetOptional(get, PutOptional(put, v, rest)) == Some((v, rest))
  {
    hide Uint;
    match v
    case None =>
      GetOfPutU8(0, PutU8(0, rest));
      GetOfPutU8(0, rest);
    case Some(x) =>
      GetOfPutU8(1, PutU8(0, put(x, rest)));
      GetOfPutU8(0, put(x, rest));
  }

  lemma PutOfGetOptional<T>(put: (T, bytes) -> bytes, get: bytes -> Parsed<T>, b: bytes)
    requires GetOptional(get, b).Some?
    requires var b2 := Uint(1, Uint(1, b).value.1).value.1;
             get(b2).Some? ==> b2 == put(get(b2).value.0, get(b2).value.1)
    ensures var (v, rest) := GetOptional(get, b).value; b == PutOptional(put, v, rest)
  {
    hide Uint;
    PutOfGetU8(b);
    PutOfGetU8(Uint(1, b).value.1);
  }

  lemma FrameLengthFits(frame: bytes)
    requires DecodeFrame(frame).Some?
    ensures Fits(|frame|, 4)
  {
    Widths();
  }

  lemma GetOfPutInputFrame(op: nat, frame: Option<bytes>, rest: bytes)
    requires (op == OP_RECEIVE <==> frame.Some?) && (frame.Some? ==> DecodeFrame(frame.value).Some?)
    ensures GetInputFrame(op, PutInputFrame(op, frame, rest)) == Some((frame, rest))
  {
    hide Uint, Take, PutUint, Fits, DecodeFrame;
    if op == OP_RECEIVE {
      FrameLengthFits(frame.value);
      GetOfPutUint(|frame.value|, 4, frame.value + rest);
      TakeOfConcat(frame.value, rest);
    }
  }

  lemma PutOfGetInputFrame(op: nat, b: bytes)
    requires GetInputFrame(op, b).Some?
    ensures var (frame, rest) := GetInputFrame(op, b).value;
            && b == PutInputFrame(op, frame, rest) && (frame.Some? <==> op == OP_RECEIVE) && (frame.Some? ==> DecodeFrame(frame.value).Some?)
  {
    hide Uint, Take, PutUint, Fits, DecodeFrame;
    if op == OP_RECEIVE {
      PutOfGetUint(4, b);
      TakeInverse(Uint(4, b).value.0, Uint(4, b).value.1);
    }
  }

  /** Everything an input decoded from a wire satisfies but for the two directions. */
  predicate InputShape(i: Rvbi1) {
    && i.op < 256 && i.direction < 256
    && (i.ch.Some? ==> Rvch1Fits(i.ch.value) && i.ch.value.direction < 256)
    && (i.expectedCh.Some? ==> Rvch1Fits(i.expectedCh.value) && i.expectedCh.value.direction < 256)
    && (i.objectDigest.Some? ==> |i.objectDigest.value| == 32)
    && (i.frame.Some? <==> i.op == OP_RECEIVE) && (i.frame.Some? ==> DecodeFrame(i.frame.value).Some?)
    && |i.mutation.oracle| == 32
  }

  lemma GetOfPutInput(i: Rvbi1)
    requires InputShape(i) && MutationOk(i.mutation)
    ensures GetInput(PutInput(i)) == Some((i, []))
  {
    hide Uint, Take, PutUint, Fits, PutOptional, GetOptional, PutRvch1, GetHeader, PutMutation, GetMutation, MutationOk, PutInputFrame, GetInputFrame, DecodeFrame, Rvch1Fits;
    SmallFits();
    var r7 := PutMutation(i.mutation, []);
    var r6 := PutInputFrame(i.op, i.frame, r7);
    var r5 := PutOptional(PutDigest, i.objectDigest, r6);
    var r4 := PutOptional(PutRvch1, i.expectedCh, r5);
    var r3 := PutOptional(PutRvch1, i.ch, r4);
    var r2 := PutUint(0, 2, r3);
    var r1 := PutU8(i.direction, r2);
    var r0 := PutU8(i.op, r1);
    TakeOfConcat(RVBI1_MAGIC, PutUint(1, 2, r0));
    GetOfPutUint(1, 2, r0);
    GetOfPutU8(i.op, r1);
    GetOfPutU8(i.direction, r2);
    GetOfPutUint(0, 2, r3);
    if i.ch.Some? { GetHeaderOfPut(i.ch.value, r4); }
    GetOfPutOptional(PutRvch1, GetHeader, i.ch, r4);
    if i.expectedCh.Some? { GetHeaderOfPut(i.expectedCh.value, r5); }
    GetOfPutOptional(PutRvch1, GetHeader, i.expectedCh, r5);
    if i.objectDigest.Some? { TakeOfConcat(i.objectDigest.value, r6); }
    GetOfPutOptional(PutDigest, GetDigest, i.objectDigest, r6);
    GetOfPutInputFrame(i.op, i.frame, r7);
    GetOfPutMutation(i.mutation, []);
  }

  lemma OptionalHeader(b: bytes)
    requires GetOptional(GetHeader, b).Some?
    ensures var (v, rest) := GetOptional(GetHeader, b).value;
            b == PutOptional(PutRvch1, v, rest) && (v.Some? ==> Rvch1Fits(v.value) && v.value.direction < 256)
  {
    hide Uint, GetHeader, PutRvch1, Rvch1Fits;
    HeaderIsRvch1(Uint(1, Uint(1, b).value.1).value.1);
    PutOfGetOptional(PutRvch1, GetHeader, b);
  }

  lemma OptionalDigest(b: bytes)
    requires GetOptional(GetDigest, b).Some?
    ensures var (v, rest) := GetOptional(GetDigest, b).value;
            b == PutOptional(PutDigest, v, rest) && (v.Some? ==> |v.value| == 32)
  {
    hide Uint, Take;
    var b2 := Uint(1, Uint(1, b).value.1).value.1;
    if GetDigest(b2).Some? {
      TakeInverse(32, b2);
    }
    PutOfGetOptional(PutDigest, GetDigest, b);
  }

  lemma PutOfGetInput(b: bytes)
    requires GetInput(b).Some? && GetInput(b).value.1 == []
    ensures b == PutInput(GetInput(b).value.0) && InputShape(GetInput(b).value.0)
  {
    hide Uint, Take, PutUint, Fits, PutOptional, GetOptional, PutRvch1, GetHeader, PutMutation, GetMutation, PutInputFrame, GetInputFrame, DecodeFrame, Rvch1Fits;
    TakeInverse(8, b);
    var b0 := Take(8, b).value.1;
    PutOfGetUint(2, b0);
    var b1 := Uint(2, b0).value.1;
    PutOfGetU8(b1);
    var b2 := Uint(1, b1).value.1;
    PutOfGetU8(b2);
    var b3 := Uint(1, b2).value.1;
    PutOfGetUint(2, b3);
    var b4 := Uint(2, b3).value.1;
    OptionalHeader(b4);
    var b5 := GetOptional(GetHeader, b4).value.1;
    OptionalHeader(b5);
    var b6 := GetOptional(GetHeader, b5).value.1;
    OptionalDigest(b6);
    var b7 := GetOptional(GetDigest, b6).value.1;
    PutOfGetInputFrame(Uint(1, b1).value.0, b7);
    PutOfGetMutation(GetInputFrame(Uint(1, b1).value.0, b7).value.1);
  }

  /**
   * The decoder accepts inputs the encoder refuses: an accepted input wire is what the encoder writes for
   * it if and only if the directions of both its chain headers are 0 or 1.
   */
  lemma InputCanonicalIff(data: bytes)
    requires DecodeInput(data).Some?
    ensures EncodeInput(DecodeInput(data).value) == Some(data) <==> DirectionsOk(DecodeInput(data).value)
  {
    hide GetInput, PutInput, MutationOk, DecodeFrame, Rvch1Fits, DirectionOk;
    PutOfGetInput(data);
  }

  /** What the encoder writes is read back exactly for byte-sized directions and a 32-byte oracle, which it does not check. */
  lemma InputRoundTripIff(i: Rvbi1)
    requires EncodeInput(i).Some?
    ensures DecodeInput(EncodeInput(i).value) == Some(i) <==> i.direction < 256 && |i.mutation.oracle| == 32
  {
    hide GetInput, PutInput, MutationOk, DecodeFrame, Rvch1Fits;
    if i.direction < 256 && |i.mutation.oracle| == 32 {
      GetOfPutInput(i);
    }
    if DecodeInput(EncodeInput(i).value) == Some(i) {
      PutOfGetInput(EncodeInput(i).value);
    }
  }

  /** The condition is a real one: a receive input whose chain header has direction 7. */
  lemma NonCanonicalInput() returns (data: bytes)
    ensures DecodeInput(data).Some? && EncodeInput(DecodeInput(data).value) != Some(data)
  {
    hide GetInput, PutInput, GetFrame, PutFrame;
    var f := Frame(1, 1, 0, ZeroBytes(32), ZeroBytes(32));
    Widths();
    FrameInverse(f, PutFrame(f));
    var ch := Rvch1(ZeroBytes(32), 0, 0, 1, 0, 0, 7);
    var m := Rvbm1(1, 0, ZeroBytes(32), ZeroBytes(RVBA1_LEN), MODE_OPEN, ZeroBytes(16), None);
    var i := Rvbi1(OP_RECEIVE, 0, Some(ch), None, Some(ZeroBytes(32)), Some(PutFrame(f)), m);
    data := PutInput(i);
    GetOfPutInput(i);
    InputCanonicalIff(data);
  }

  // ----- RVBE1: the environment ---------------------------------------------------------------------------

  datatype Trust = Trust(initiatorCert: bytes, initiatorPub: bytes, responderCert: bytes, responderPub: bytes)

  datatype Rvbe1 = Rvbe1(clock: nat, capPayload: nat, capChunks: nat, capState: nat, capReplayEntries: nat, capReplayBytes: nat,
                         keygenSeed: bytes, encapsCoins: bytes, ecDhSeed: bytes, trust: Option<Trust>)

  /** `_validate_rvbe1_caps` */
  predicate EnvOk(e: Rvbe1) {
    && e.capPayload <= 8192 && e.capChunks <= 64 && e.capState <= MAX_STATE_BYTES && e.capReplayEntries <= 64 && e.capReplayBytes <= 8192
    && (|e.keygenSeed| == 0 || |e.keygenSeed| == 64) && (|e.encapsCoins| == 0 || |e.encapsCoins| == 32) && (|e.ecDhSeed| == 0 || |e.ecDhSeed| == 32)
  }

  function TrustBytes(t: Trust): bytes { t.initiatorCert + (t.initiatorPub + (t.responderCert + t.responderPub)) }

  function PutTrust(t: Option<Trust>, rest: bytes): bytes {
    match t
    case None => PutUint(0, 2, rest)
    case Some(x) => PutUint(128, 2, TrustBytes(x) + rest)
  }

  function PutBlob2(b: bytes, rest: bytes): bytes { PutUint(|b|, 2, b + rest) }

  function PutSeeds(e: Rvbe1, rest: bytes): bytes { PutBlob2(e.keygenSeed, PutBlob2(e.encapsCoins, PutBlob2(e.ecDhSeed, PutTrust(e.trust, rest)))) }

  function PutEnv(e: Rvbe1): bytes {
    RVBE1_MAGIC + PutUint(2, 2, PutUint(e.clock, 8, PutUint(e.capPayload, 4, PutUint(e.capChunks, 4, PutUint(e.capState, 4,
      PutUint(e.capReplayEntries, 4, PutUint(e.capReplayBytes, 4, PutSeeds(e, PutUint(0, 4, [])))))))))
  }

  function EncodeEnv(e: Rvbe1): Option<bytes> {
    if EnvOk(e) && Fits(e.clock, 8) && (e.trust.Some? ==> |TrustBytes(e.trust.value)| == 128) then Some(PutEnv(e)) else None
  }

  function GetBlob2(b: bytes): Parsed<bytes> {
    var (n, b1) :- Uint(2, b);
    Take(n, b1)
  }

  function GetTrust(b: bytes): Parsed<Option<Trust>> {
    var (n, b1) :- Uint(2, b);
    if n == 0 then Some((None, b1))
    else if n != 128 then None
    else
      var (raw, b2) :- Take(128, b1);
      Some((Some(Trust(raw[..32], raw[32..64], raw[64..96], raw[96..])), b2))
  }

  function GetEnv(b: bytes): Parsed<Rvbe1> {
    var (magic, b0) :- Take(8, b);
    var (schema, b1) :- Uint(2, b0);
    var (clock, b2) :- Uint(8, b1);
    var (capPayload, b3) :- Uint(4, b2);
    var (capChunks, b4) :- Uint(4, b3);
    var (capState, b5) :- Uint(4, b4);
    var (capReplayEntries, b6) :- Uint(4, b5);
    var (capReplayBytes, b7) :- Uint(4, b6);
    var (keygenSeed, b8) :- GetBlob2(b7);
    var (encapsCoins, b9) :- GetBlob2(b8);
    var (ecDhSeed, b10) :- GetBlob2(b9);
    var (trust, b11) :- GetTrust(b10);
    var (reserved, b12) :- Uint(4, b11);
    if magic != RVBE1_MAGIC || schema != 2 || reserved != 0 then None
    else Some((Rvbe1(clock, capPayload, capChunks, capState, capReplayEntries, capReplayBytes, keygenSeed, encapsCoins, ecDhSeed, trust), b12))
  }

  function DecodeEnv(data: bytes): Option<Rvbe1> {
    var e :- Whole(GetEnv(data));
    if EnvOk(e) then Some(e) else None
  }

  /** The four parts of the evidence have 32 bytes each; the encoder checks only their sum. */
  predicate TrustParts(t: Option<Trust>) {
    t.Some? ==> |t.value.initiatorCert| == 32 && |t.value.initiatorPub| == 32 && |t.value.responderCert| == 32 && |t.value.responderPub| == 32
  }

  lemma GetOfPutBlob2(b: bytes, rest: bytes)
    requires |b| <= 64
    ensures GetBlob2(PutBlob2(b, rest)) == Some((b, rest))
  {
    hide Uint, Take, PutUint;
    Widths();
    GetOfPutUint(|b|, 2, b + rest);
    TakeOfConcat(b, rest);
  }

  lemma PutOfGetBlob2(b: bytes)
    requires GetBlob2(b).Some?
    ensures b == PutBlob2(GetBlob2(b).value.0, GetBlob2(b).value.1)
  {
    hide Uint, Take, PutUint;
    PutOfGetUint(2, b);
    TakeInverse(Uint(2, b).value.0, Uint(2, b).value.1);
  }

  lemma TrustSlices(t: Trust)
    requires TrustParts(Some(t))
    ensures var raw := TrustBytes(t); |raw| == 128 && Trust(raw[..32], raw[32..64], raw[64..96], raw[96..]) == t
  {
    var raw := TrustBytes(t);
    assert raw[..32] == t.initiatorCert && raw[32..64] == t.initiatorPub && raw[64..96] == t.responderCert && raw[96..] == t.responderPub;
  }

  lemma GetOfPutTrust(t: Option<Trust>, rest: bytes)
    requires TrustParts(t)
    ensures GetTrust(PutTrust(t, rest)) == Some((t, rest))
  {
    hide Uint, Take, PutUint, TrustBytes;
    Widths();
    match t
    case None => GetOfPutUint(0, 2, rest);
    case Some(x) =>
      TrustSlices(x);
      GetOfPutUint(128, 2, TrustBytes(x) + rest);
      TakeOfConcat(TrustBytes(x), rest);
  }

  lemma PutOfGetTrust(b: bytes)
    requires GetTrust(b).Some?
    ensures var (t, rest) := GetTrust(b).value; TrustParts(t) && b == PutTrust(t, rest)
  {
    hide Uint, Take, PutUint;
    PutOfGetUint(2, b);
    var b1 := Uint(2, b).value.1;
    if Uint(2, b).value.0 == 128 {
      TakeInverse(128, b1);
      var raw := Take(128, b1).value.0;
      assert raw[..32] + (raw[32..64] + (raw[64..96] + raw[96..])) == raw;
    }
  }

  lemma EnvFits(e: Rvbe1)
    requires EnvOk(e)
    ensures Fits(e.capPayload, 4) && Fits(e.capChunks, 4) && Fits(e.capState, 4) && Fits(e.capReplayEntries, 4) && Fits(e.capReplayBytes, 4)
  {
    Widths();
  }

  lemma GetOfPutEnv(e: Rvbe1)
    requires EnvOk(e) && Fits(e.clock, 8) && TrustParts(e.trust)
    ensures GetEnv(PutEnv(e)) == Some((e, []))
  {
    hide Uint, Take, PutUint, Fits, PutBlob2, GetBlob2, PutTrust, GetTrust, TrustParts;
    EnvFits(e);
    SmallFits();
    var r11 := PutUint(0, 4, []);
    var r10 := PutTrust(e.trust, r11);
    var r9 := PutBlob2(e.ecDhSeed, r10);
    var r8 := PutBlob2(e.encapsCoins, r9);
    var r7 := PutBlob2(e.keygenSeed, r8);
    var r6 := PutUint(e.capReplayBytes, 4, r7);
    var r5 := PutUint(e.capReplayEntries, 4, r6);
    var r4 := PutUint(e.capState, 4, r5);
    var r3 := PutUint(e.capChunks, 4, r4);
    var r2 := PutUint(e.capPayload, 4, r3);
    var r1 := PutUint(e.clock, 8, r2);
    TakeOfConcat(RVBE1_MAGIC, PutUint(2, 2, r1));
    GetOfPutUint(2, 2, r1);
    GetOfPutUint(e.clock, 8, r2);
    GetOfPutUint(e.capPayload, 4, r3);
    GetOfPutUint(e.capChunks, 4, r4);
    GetOfPutUint(e.capState, 4, r5);
    GetOfPutUint(e.capReplayEntries, 4, r6);
    GetOfPutUint(e.capReplayBytes, 4, r7);
    GetOfPutBlob2(e.keygenSeed, r8);
    GetOfPutBlob2(e.encapsCoins, r9);
    GetOfPutBlob2(e.ecDhSeed, r10);
    GetOfPutTrust(e.trust, r11);
    GetOfPutUint(0, 4, []);
  }

  lemma PutOfGetEnv(b: bytes)
    requires GetEnv(b).Some? && GetEnv(b).value.1 == []
    ensures var e := GetEnv(b).value.0; b == PutEnv(e) && Fits(e.clock, 8) && TrustParts(e.trust)
  {
    hide Uint, Take, PutUint, Fits, PutBlob2, GetBlob2, PutTrust, GetTrust, TrustParts;
    TakeInverse(8, b);
    var b0 := Take(8, b).value.1;
    PutOfGetUint(2, b0);
    var b1 := Uint(2, b0).value.1;
    PutOfGetUint(8, b1);
    var b2 := Uint(8, b1).value.1;
    PutOfGetUint(4, b2);
    var b3 := Uint(4, b2).value.1;
    PutOfGetUint(4, b3);
    var b4 := Uint(4, b3).value.1;
    PutOfGetUint(4, b4);
    var b5 := Uint(4, b4).value.1;
    PutOfGetUint(4, b5);
    var b6 := Uint(4, b5).value.1;
    PutOfGetUint(4, b6);
    var b7 := Uint(4, b6).value.1;
    PutOfGetBlob2(b7);
    var b8 := GetBlob2(b7).value.1;
    PutOfGetBlob2(b8);
    var b9 := GetBlob2(b8).value.1;
    PutOfGetBlob2(b9);
    var b10 := GetBlob2(b9).value.1;
    PutOfGetTrust(b10);
    PutOfGetUint(4, GetTrust(b10).value.1);
  }

  lemma PartsAdd(t: Option<Trust>)
    requires TrustParts(t) && t.Some?
    ensures |TrustBytes(t.value)| == 128
  {}

  /** Every accepted environment wire is canonical: that test of the transition never fires. */
  lemma EnvCanonical(data: bytes)
    requires DecodeEnv(data).Some?
    ensures EncodeEnv(DecodeEnv(data).value) == Some(data) && TrustParts(DecodeEnv(data).value.trust)
  {
    hide GetEnv, PutEnv, EnvOk, TrustBytes, Fits;
    PutOfGetEnv(data);
    if DecodeEnv(data).value.trust.Some? {
      PartsAdd(DecodeEnv(data).value.trust);
    }
  }

  /** An encodable environment is read back exactly when each part of its evidence has 32 bytes. */
  lemma EnvRoundTripIff(e: Rvbe1)
    requires EncodeEnv(e).Some?
    ensures DecodeEnv(EncodeEnv(e).value) == Some(e) <==> TrustParts(e.trust)
  {
    hide GetEnv, PutEnv, EnvOk, TrustBytes, Fits;
    if TrustParts(e.trust) {
      GetOfPutEnv(e);
    }
    if DecodeEnv(EncodeEnv(e).value) == Some(e) {
      EnvCanonical(EncodeEnv(e).value);
    }
  }
}
