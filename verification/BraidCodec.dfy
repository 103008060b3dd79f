/** RVFB1: the canonical encoding of a Full Braid session state. */
module BraidCodec {
  import opened Bytes
  import opened BraidState

  /** Two-byte counts have no cap of their own while reading; the validator caps the lists. */
  const ANY_COUNT := 0xFFFF

  // ----- prefix ---------------------------------------------------------------------

  predicate PrefixFits(p: Prefix) {
    && |p.sessionId| == 32 && Fits(p.role, 1) && Fits(p.generation, 8) && Fits(p.agent, 1)
    && Fits(p.terminalReason, 2) && |p.authRoot| == 32 && |p.authMacKey| == 32
    && Fits(p.agentEpoch, 8) && Fits(p.sendEpoch, 8) && Fits(p.recvEpoch, 8)
    && Fits(p.flags, 4) && Fits(p.pendingPhase, 1)
    && |p.pendingTransitionId| == 32 && |p.pendingBeforeDigest| == 32
    && |p.pendingOutputDigest| == 32 && |p.pendingExecutionDigest| == 32
  }

  function PutPending(p: Prefix, rest: bytes): bytes {
    PutUint(p.flags, 4, PutUint(p.pendingPhase, 1,
      p.pendingTransitionId + (p.pendingBeforeDigest + (p.pendingOutputDigest + (p.pendingExecutionDigest + rest)))))
  }

  /** Everything after the magic. */
  function PutPrefixFields(p: Prefix, rest: bytes): bytes {
    PutUint(1, 2, p.sessionId + PutUint(p.role, 1, PutUint(p.generation, 8,
      PutUint(p.agent, 1, PutUint(p.terminalReason, 2, p.authRoot + (p.authMacKey +
        PutUint(p.agentEpoch, 8, PutUint(p.sendEpoch, 8, PutUint(p.recvEpoch, 8, PutPending(p, rest))))))))))
  }

  function PutPrefix(p: Prefix, rest: bytes): bytes { RVFB1_MAGIC + PutPrefixFields(p, rest) }

  function GetPrefixFields(b0: bytes): Parsed<Prefix> {
    var (schema, b1) :- Uint(2, b0);
    var (sessionId, b2) :- Take(32, b1);
    var (role, b3) :- Uint(1, b2);
    var (generation, b4) :- Uint(8, b3);
    var (agent, b5) :- Uint(1, b4);
    var (terminalReason, b6) :- Uint(2, b5);
    var (authRoot, b7) :- Take(32, b6);
    var (authMacKey, b8) :- Take(32, b7);
    var (agentEpoch, b9) :- Uint(8, b8);
    var (sendEpoch, b10) :- Uint(8, b9);
    var (recvEpoch, b11) :- Uint(8, b10);
    var (flags, b12) :- Uint(4, b11);
    var (phase, b13) :- Uint(1, b12);
    var (tid, b14) :- Take(32, b13);
    var (before, b15) :- Take(32, b14);
    var (output, b16) :- Take(32, b15);
    var (execution, b17) :- Take(32, b16);
    if schema != 1 then None
    else Some((Prefix(sessionId, role, generation, agent, terminalReason, authRoot, authMacKey,
                      agentEpoch, sendEpoch, recvEpoch, flags, phase, tid, before, output, execution), b17))
  }

  function GetPrefix(b: bytes): Parsed<Prefix> {
    var (magic, b0) :- Take(8, b);
    if magic != RVFB1_MAGIC then None else GetPrefixFields(b0)
  }

  lemma SchemaFits()
    ensures Fits(1, 2) && Fits(0, 1) && Fits(1, 1)
  {
    Widths();
  }

  lemma GetOfPutPrefixFields(p: Prefix, rest: bytes)
    requires PrefixFits(p)
    ensures GetPrefixFields(PutPrefixFields(p, rest)) == Some((p, rest))
  {
    hide Uint, Take, PutUint, Fits;
    SchemaFits();
    var r16 := p.pendingExecutionDigest + rest;
    var r15 := p.pendingOutputDigest + r16;
    var r14 := p.pendingBeforeDigest + r15;
    var r13 := p.pendingTransitionId + r14;
    var r12 := PutUint(p.pendingPhase, 1, r13);
    var r11 := PutUint(p.flags, 4, r12);
    var r10 := PutUint(p.recvEpoch, 8, r11);
    var r9 := PutUint(p.sendEpoch, 8, r10);
    var r8 := PutUint(p.agentEpoch, 8, r9);
    var r7 := p.authMacKey + r8;
    var r6 := p.authRoot + r7;
    var r5 := PutUint(p.terminalReason, 2, r6);
    var r4 := PutUint(p.agent, 1, r5);
    var r3 := PutUint(p.generation, 8, r4);
    var r2 := PutUint(p.role, 1, r3);
    GetOfPutUint(1, 2, p.sessionId + r2);
    TakeOfConcat(p.sessionId, r2);
    GetOfPutUint(p.role, 1, r3);
    GetOfPutUint(p.generation, 8, r4);
    GetOfPutUint(p.agent, 1, r5);
    GetOfPutUint(p.terminalReason, 2, r6);
    TakeOfConcat(p.authRoot, r7);
    TakeOfConcat(p.authMacKey, r8);
    GetOfPutUint(p.agentEpoch, 8, r9);
    GetOfPutUint(p.sendEpoch, 8, r10);
    GetOfPutUint(p.recvEpoch, 8, r11);
    GetOfPutUint(p.flags, 4, r12);
    GetOfPutUint(p.pendingPhase, 1, r13);
    TakeOfConcat(p.pendingTransitionId, r14);
    TakeOfConcat(p.pendingBeforeDigest, r15);
    TakeOfConcat(p.pendingOutputDigest, r16);
    TakeOfConcat(p.pendingExecutionDigest, rest);
  }

  lemma GetOfPutPrefix(p: Prefix, rest: bytes)
    requires PrefixFits(p)
    ensures GetPrefix(PutPrefix(p, rest)) == Some((p, rest))
  {
    hide GetPrefixFields, PutPrefixFields, Take;
    TakeOfConcat(RVFB1_MAGIC, PutPrefixFields(p, rest));
    GetOfPutPrefixFields(p, rest);
  }

  lemma PutOfGetPrefixFields(b0: bytes)
    requires GetPrefixFields(b0).Some?
    ensures PrefixFits(GetPrefixFields(b0).value.0) && b0 == PutPrefixFields(GetPrefixFields(b0).value.0, GetPrefixFields(b0).value.1)
  {
    hide Uint, Take, PutUint, Fits;
    PutOfGetUint(2, b0);
    var b1 := Uint(2, b0).value.1;
    TakeInverse(32, b1);
    var b2 := Take(32, b1).value.1;
    PutOfGetUint(1, b2);
    var b3 := Uint(1, b2).value.1;
    PutOfGetUint(8, b3);
    var b4 := Uint(8, b3).value.1;
    PutOfGetUint(1, b4);
    var b5 := Uint(1, b4).value.1;
    PutOfGetUint(2, b5);
    var b6 := Uint(2, b5).value.1;
    TakeInverse(32, b6);
    var b7 := Take(32, b6).value.1;
    TakeInverse(32, b7);
    var b8 := Take(32, b7).value.1;
    PutOfGetUint(8, b8);
    var b9 := Uint(8, b8).value.1;
    PutOfGetUint(8, b9);
    var b10 := Uint(8, b9).value.1;
    PutOfGetUint(8, b10);
    var b11 := Uint(8, b10).value.1;
    PutOfGetUint(4, b11);
    var b12 := Uint(4, b11).value.1;
    PutOfGetUint(1, b12);
    var b13 := Uint(1, b12).value.1;
    TakeInverse(32, b13);
    var b14 := Take(32, b13).value.1;
    TakeInverse(32, b14);
    var b15 := Take(32, b14).value.1;
    TakeInverse(32, b15);
    TakeInverse(32, Take(32, b15).value.1);
  }

  lemma PutOfGetPrefix(b: bytes)
    requires GetPrefix(b).Some?
    ensures PrefixFits(GetPrefix(b).value.0) && b == PutPrefix(GetPrefix(b).value.0, GetPrefix(b).value.1)
  {
    hide GetPrefixFields, PutPrefixFields, Take, PrefixFits;
    TakeInverse(8, b);
    PutOfGetPrefixFields(Take(8, b).value.1);
  }

  // ----- length-prefixed bytes -----------------------------------------------------------

  function PutBlob(w: nat, v: bytes, rest: bytes): bytes { PutUint(|v|, w, v + rest) }

  function GetBlob(w: nat, b: bytes): Parsed<bytes> {
    var (n, b1) :- Uint(w, b);
    Take(n, b1)
  }

  lemma GetOfPutBlob(w: nat, v: bytes, rest: bytes)
    requires Fits(|v|, w)
    ensures GetBlob(w, PutBlob(w, v, rest)) == Some((v, rest))
  {
    hide Uint, Take, PutUint, Fits;
    GetOfPutUint(|v|, w, v + rest);
    TakeOfConcat(v, rest);
  }

  lemma PutOfGetBlob(w: nat, b: bytes)
    requires GetBlob(w, b).Some?
    ensures Fits(|GetBlob(w, b).value.0|, w)
    ensures b == PutBlob(w, GetBlob(w, b).value.0, GetBlob(w, b).value.1)
  {
    hide Uint, Take, PutUint, Fits;
    PutOfGetUint(w, b);
    TakeInverse(Uint(w, b).value.0, Uint(w, b).value.1);
  }

  // ----- inbound sets -----------------------------------------------------------------------

  predicate ChunkFits(c: InboundChunk) { Fits(c.index, 4) && Fits(|c.payload|, 2) }

  function PutChunk(c: InboundChunk, rest: bytes): bytes { PutUint(c.index, 4, PutBlob(2, c.payload, rest)) }

  function GetChunk(b: bytes): Parsed<InboundChunk> {
    var (index, b1) :- Uint(4, b);
    var (payload, b2) :- GetBlob(2, b1);
    Some((InboundChunk(index, payload), b2))
  }

  lemma ChunkInverse()
    ensures Inverse(PutChunk, GetChunk, ChunkFits)
  {
    hide Uint, PutUint, Fits, PutBlob, GetBlob;
    forall v: InboundChunk, rest: bytes | ChunkFits(v) ensures GetChunk(PutChunk(v, rest)) == Some((v, rest)) {
      GetOfPutUint(v.index, 4, PutBlob(2, v.payload, rest));
      GetOfPutBlob(2, v.payload, rest);
    }
    forall b: bytes | GetChunk(b).Some?
      ensures ChunkFits(GetChunk(b).value.0) && b == PutChunk(GetChunk(b).value.0, GetChunk(b).value.1)
    {
      PutOfGetUint(4, b);
      PutOfGetBlob(2, Uint(4, b).value.1);
    }
  }

  predicate InboundFits(s: InboundSet) {
    && Fits(s.direction, 1) && Fits(s.epoch, 8) && Fits(s.sourceKind, 1)
    && Fits(s.expectedLen, 4) && Fits(s.maxIndex, 4) && Fits(|s.bitmap|, 2)
    && Fits(|s.chunks|, 2) && (forall i :: 0 <= i < |s.chunks| ==> ChunkFits(s.chunks[i]))
  }

  function PutInbound(s: InboundSet, rest: bytes): bytes {
    PutUint(s.direction, 1, PutUint(s.epoch, 8, PutUint(s.sourceKind, 1, PutUint(s.expectedLen, 4,
      PutUint(s.maxIndex, 4, PutBlob(2, s.bitmap, PutCounted(PutChunk, s.chunks, rest)))))))
  }

  function GetInbound(b: bytes): Parsed<InboundSet> {
    var (direction, b1) :- Uint(1, b);
    var (epoch, b2) :- Uint(8, b1);
    var (sourceKind, b3) :- Uint(1, b2);
    var (expectedLen, b4) :- Uint(4, b3);
    var (maxIndex, b5) :- Uint(4, b4);
    var (bitmap, b6) :- GetBlob(2, b5);
    var (chunks, b7) :- GetCounted(ANY_COUNT, GetChunk, b6);
    Some((InboundSet(direction, epoch, sourceKind, expectedLen, maxIndex, bitmap, chunks), b7))
  }

  lemma CountBound(n: int)
    requires Fits(n, 2)
    ensures n <= ANY_COUNT
  {
    Widths();
  }

  lemma GetOfPutInbound(v: InboundSet, rest: bytes)
    requires InboundFits(v)
    ensures GetInbound(PutInbound(v, rest)) == Some((v, rest))
  {
    hide Uint, PutUint, Fits, PutBlob, GetBlob, PutCounted, GetCounted, ChunkFits;
    ChunkInverse();
    CountBound(|v.chunks|);
    var r6 := PutCounted(PutChunk, v.chunks, rest);
    var r5 := PutBlob(2, v.bitmap, r6);
    var r4 := PutUint(v.maxIndex, 4, r5);
    var r3 := PutUint(v.expectedLen, 4, r4);
    var r2 := PutUint(v.sourceKind, 1, r3);
    GetOfPutUint(v.direction, 1, PutUint(v.epoch, 8, r2));
    GetOfPutUint(v.epoch, 8, r2);
    GetOfPutUint(v.sourceKind, 1, r3);
    GetOfPutUint(v.expectedLen, 4, r4);
    GetOfPutUint(v.maxIndex, 4, r5);
    GetOfPutBlob(2, v.bitmap, r6);
    GetOfPutCounted(PutChunk, GetChunk, ChunkFits, ANY_COUNT, v.chunks, rest);
  }

  lemma PutOfGetInbound(b: bytes)
    requires GetInbound(b).Some?
    ensures InboundFits(GetInbound(b).value.0) && b == PutInbound(GetInbound(b).value.0, GetInbound(b).value.1)
  {
    hide Uint, PutUint, Fits, PutBlob, GetBlob, PutCounted, GetCounted, ChunkFits;
    ChunkInverse();
    PutOfGetUint(1, b);
    var b1 := Uint(1, b).value.1;
    PutOfGetUint(8, b1);
    var b2 := Uint(8, b1).value.1;
    PutOfGetUint(1, b2);
    var b3 := Uint(1, b2).value.1;
    PutOfGetUint(4, b3);
    var b4 := Uint(4, b3).value.1;
    PutOfGetUint(4, b4);
    var b5 := Uint(4, b4).value.1;
    PutOfGetBlob(2, b5);
    PutOfGetCounted(PutChunk, GetChunk, ChunkFits, ANY_COUNT, GetBlob(2, b5).value.1);
  }

  lemma InboundInverse()
    ensures Inverse(PutInbound, GetInbound, InboundFits)
  {
    hide PutInbound, GetInbound, InboundFits;
    forall v: InboundSet, rest: bytes | InboundFits(v) ensures GetInbound(PutInbound(v, rest)) == Some((v, rest)) {
      GetOfPutInbound(v, rest);
    }
    forall b: bytes | GetInbound(b).Some?
      ensures InboundFits(GetInbound(b).value.0) && b == PutInbound(GetInbound(b).value.0, GetInbound(b).value.1)
    {
      PutOfGetInbound(b);
    }
  }

  // ----- the active send ----------------------------------------------------------------------

  predicate ActiveFits(a: ActiveSend) {
    && Fits(a.direction, 1) && Fits(a.epoch, 8) && Fits(a.wireType, 1) && Fits(a.sourceKind, 1)
    && Fits(a.sourceLen, 4) && |a.sourceDigest| == 32 && |a.source| == a.sourceLen && Fits(a.nextIndex, 4)
  }

  function PutActive(a: Option<ActiveSend>, rest: bytes): bytes {
    match a
    case None => PutUint(0, 1, rest)
    case Some(a) =>
      PutUint(1, 1, PutUint(a.direction, 1, PutUint(a.epoch, 8, PutUint(a.wireType, 1, PutUint(a.sourceKind, 1,
        PutUint(a.sourceLen, 4, a.sourceDigest + (a.source + PutUint(a.nextIndex, 4, rest))))))))
  }

  function GetActive(b: bytes): Parsed<Option<ActiveSend>> {
    var (present, b0) :- Uint(1, b);
    if present == 0 then Some((None, b0))
    else if present != 1 then None
    else
      var (direction, b1) :- Uint(1, b0);
      var (epoch, b2) :- Uint(8, b1);
      var (wireType, b3) :- Uint(1, b2);
      var (sourceKind, b4) :- Uint(1, b3);
      var (sourceLen, b5) :- Uint(4, b4);
      var (sourceDigest, b6) :- Take(32, b5);
      var (source, b7) :- Take(sourceLen, b6);
      var (nextIndex, b8) :- Uint(4, b7);
      Some((Some(ActiveSend(direction, epoch, wireType, sourceKind, sourceLen, sourceDigest, source, nextIndex)), b8))
  }

  lemma GetOfPutActive(o: Option<ActiveSend>, rest: bytes)
    requires o.Some? ==> ActiveFits(o.value)
    ensures GetActive(PutActive(o, rest)) == Some((o, rest))
  {
    hide Uint, Take, PutUint, Fits;
    SchemaFits();
    match o
    case None => GetOfPutUint(0, 1, rest);
    case Some(a) =>
      var r7 := PutUint(a.nextIndex, 4, rest);
      var r6 := a.source + r7;
      var r5 := a.sourceDigest + r6;
      var r4 := PutUint(a.sourceLen, 4, r5);
      var r3 := PutUint(a.sourceKind, 1, r4);
      var r2 := PutUint(a.wireType, 1, r3);
      var r1 := PutUint(a.epoch, 8, r2);
      GetOfPutUint(1, 1, PutUint(a.direction, 1, r1));
      GetOfPutUint(a.direction, 1, r1);
      GetOfPutUint(a.epoch, 8, r2);
      GetOfPutUint(a.wireType, 1, r3);
      GetOfPutUint(a.sourceKind, 1, r4);
      GetOfPutUint(a.sourceLen, 4, r5);
      TakeOfConcat(a.sourceDigest, r6);
      TakeOfConcat(a.source, r7);
      GetOfPutUint(a.nextIndex, 4, rest);
  }

  lemma PutOfGetActive(b: bytes)
    requires GetActive(b).Some?
    ensures var (o, rest) := GetActive(b).value; (o.Some? ==> ActiveFits(o.value)) && b == PutActive(o, rest)
  {
    hide Uint, Take, PutUint, Fits;
    PutOfGetUint(1, b);
    var b0 := Uint(1, b).value.1;
    if Uint(1, b).value.0 == 1 {
      PutOfGetUint(1, b0);
      var b1 := Uint(1, b0).value.1;
      PutOfGetUint(8, b1);
      var b2 := Uint(8, b1).value.1;
      PutOfGetUint(1, b2);
      var b3 := Uint(1, b2).value.1;
      PutOfGetUint(1, b3);
      var b4 := Uint(1, b3).value.1;
      PutOfGetUint(4, b4);
      var b5 := Uint(4, b4).value.1;
      TakeInverse(32, b5);
      var b6 := Take(32, b5).value.1;
      TakeInverse(Uint(4, b4).value.0, b6);
      PutOfGetUint(4, Take(Uint(4, b4).value.0, b6).value.1);
    }
  }

  // ----- objects, replays, TLVs -----------------------------------------------------------------

  predicate ObjectFits(o: BraidObject) {
    Fits(o.direction, 1) && Fits(o.epoch, 8) && Fits(o.sourceKind, 1) && |o.digest| == 32
  }

  function PutObject(o: BraidObject, rest: bytes): bytes {
    PutUint(o.direction, 1, PutUint(o.epoch, 8, PutUint(o.sourceKind, 1, o.digest + rest)))
  }

  function GetObject(b: bytes): Parsed<BraidObject> {
    var (direction, b1) :- Uint(1, b);
    var (epoch, b2) :- Uint(8, b1);
    var (sourceKind, b3) :- Uint(1, b2);
    var (digest, b4) :- Take(32, b3);
    Some((BraidObject(direction, epoch, sourceKind, digest), b4))
  }

  lemma ObjectInverse()
    ensures Inverse(PutObject, GetObject, ObjectFits)
  {
    hide Uint, Take, PutUint, Fits;
    forall v: BraidObject, rest: bytes | ObjectFits(v) ensures GetObject(PutObject(v, rest)) == Some((v, rest)) {
      var r := PutUint(v.sourceKind, 1, v.digest + rest);
      GetOfPutUint(v.direction, 1, PutUint(v.epoch, 8, r));
      GetOfPutUint(v.epoch, 8, r);
      GetOfPutUint(v.sourceKind, 1, v.digest + rest);
      TakeOfConcat(v.digest, rest);
    }
    forall b: bytes | GetObject(b).Some?
      ensures ObjectFits(GetObject(b).value.0) && b == PutObject(GetObject(b).value.0, GetObject(b).value.1)
    {
      PutOfGetUint(1, b);
      var b1 := Uint(1, b).value.1;
      PutOfGetUint(8, b1);
      var b2 := Uint(8, b1).value.1;
      PutOfGetUint(1, b2);
      TakeInverse(32, Uint(1, b2).value.1);
    }
  }

  predicate ReplayFits(r: ReplayRecord) {
    && |r.transitionId| == 32 && |r.executionDigest| == 32 && |r.outputDigest| == 32
    && Fits(r.outputLen, 4) && Fits(r.flags, 2)
  }

  function PutReplay(r: ReplayRecord, rest: bytes): bytes {
    r.transitionId + (r.executionDigest + (r.outputDigest + PutUint(r.outputLen, 4, PutUint(r.flags, 2, rest))))
  }

  function GetReplay(b: bytes): Parsed<ReplayRecord> {
    var (transitionId, b1) :- Take(32, b);
    var (executionDigest, b2) :- Take(32, b1);
    var (outputDigest, b3) :- Take(32, b2);
    var (outputLen, b4) :- Uint(4, b3);
    var (flags, b5) :- Uint(2, b4);
    Some((ReplayRecord(transitionId, executionDigest, outputDigest, outputLen, flags), b5))
  }

  lemma ReplayInverse()
    ensures Inverse(PutReplay, GetReplay, ReplayFits)
  {
    hide Uint, Take, PutUint, Fits;
    forall v: ReplayRecord, rest: bytes | ReplayFits(v) ensures GetReplay(PutReplay(v, rest)) == Some((v, rest)) {
      var r2 := PutUint(v.outputLen, 4, PutUint(v.flags, 2, rest));
      TakeOfConcat(v.transitionId, v.executionDigest + (v.outputDigest + r2));
      TakeOfConcat(v.executionDigest, v.outputDigest + r2);
      TakeOfConcat(v.outputDigest, r2);
      GetOfPutUint(v.outputLen, 4, PutUint(v.flags, 2, rest));
      GetOfPutUint(v.flags, 2, rest);
    }
    forall b: bytes | GetReplay(b).Some?
      ensures ReplayFits(GetReplay(b).value.0) && b == PutReplay(GetReplay(b).value.0, GetReplay(b).value.1)
    {
      TakeInverse(32, b);
      var b1 := Take(32, b).value.1;
      TakeInverse(32, b1);
      var b2 := Take(32, b1).value.1;
      TakeInverse(32, b2);
      var b3 := Take(32, b2).value.1;
      PutOfGetUint(4, b3);
      PutOfGetUint(2, Uint(4, b3).value.1);
    }
  }

  predicate TlvFits(t: Tlv) { Fits(t.tag, 2) && Fits(|t.value|, 4) }

  function PutTlv(t: Tlv, rest: bytes): bytes { PutUint(t.tag, 2, PutBlob(4, t.value, rest)) }

  function GetTlv(b: bytes): Parsed<Tlv> {
    var (tag, b1) :- Uint(2, b);
    var (value, b2) :- GetBlob(4, b1);
    Some((Tlv(tag, value), b2))
  }

  lemma TlvInverse()
    ensures Inverse(PutTlv, GetTlv, TlvFits)
  {
    hide Uint, PutUint, Fits, PutBlob, GetBlob;
    forall v: Tlv, rest: bytes | TlvFits(v) ensures GetTlv(PutTlv(v, rest)) == Some((v, rest)) {
      GetOfPutUint(v.tag, 2, PutBlob(4, v.value, rest));
      GetOfPutBlob(4, v.value, rest);
    }
    forall b: bytes | GetTlv(b).Some?
      ensures TlvFits(GetTlv(b).value.0) && b == PutTlv(GetTlv(b).value.0, GetTlv(b).value.1)
    {
      PutOfGetUint(2, b);
      PutOfGetBlob(4, Uint(2, b).value.1);
    }
  }

  // ----- the whole state ---------------------------------------------------------------------------

  /** Every integer and length fits the width of the field it is written to. */
  predicate Encodable(s: State) {
    && PrefixFits(s.prefix)
    && Fits(|s.inbound|, 2) && (forall i :: 0 <= i < |s.inbound| ==> InboundFits(s.inbound[i]))
    && (s.active.Some? ==> ActiveFits(s.active.value))
    && Fits(|s.objects|, 2) && (forall i :: 0 <= i < |s.objects| ==> ObjectFits(s.objects[i]))
    && Fits(|s.replays|, 2) && (forall i :: 0 <= i < |s.replays| ==> ReplayFits(s.replays[i]))
    && Fits(|s.tlvs|, 2) && (forall i :: 0 <= i < |s.tlvs| ==> TlvFits(s.tlvs[i]))
    && Fits(|s.tr|, 4)
  }

  function PutTail(s: State): bytes {
    PutCounted(PutObject, s.objects, PutCounted(PutReplay, s.replays, PutCounted(PutTlv, s.tlvs, PutBlob(4, s.tr, []))))
  }

  function PutRvfb1(s: State): bytes {
    PutPrefix(s.prefix, PutCounted(PutInbound, s.inbound, PutActive(s.active, PutTail(s))))
  }

  function EncodeRvfb1(s: State): Option<bytes> {
    if ValidState(s) && Encodable(s) then Some(PutRvfb1(s)) else None
  }

  /** Everything `decode_rvfb1` reads, before validation. */
  function ReadRvfb1(data: bytes): Option<State> {
    var (prefix, b0) :- GetPrefix(data);
    var (inbound, b1) :- GetCounted(ANY_COUNT, GetInbound, b0);
    var (active, b2) :- GetActive(b1);
    var (objects, b3) :- GetCounted(ANY_COUNT, GetObject, b2);
    var (replays, b4) :- GetCounted(ANY_COUNT, GetReplay, b3);
    var (tlvs, b5) :- GetCounted(ANY_COUNT, GetTlv, b4);
    var (tr, b6) :- GetBlob(4, b5);
    if b6 != [] then None else Some(State(prefix, inbound, active, objects, replays, tlvs, tr))
  }

  function DecodeRvfb1(data: bytes): Option<State> {
    var s :- ReadRvfb1(data);
    if ValidState(s) then Some(s) else None
  }

  lemma ReadOfPut(s: State)
    requires Encodable(s)
    ensures ReadRvfb1(PutRvfb1(s)) == Some(s)
  {
    hide Fits, PrefixFits, InboundFits, ActiveFits, ObjectFits, ReplayFits, TlvFits;
    hide PutPrefix, GetPrefix, PutActive, GetActive, PutCounted, GetCounted, PutBlob, GetBlob;
    InboundInverse();
    ObjectInverse();
    ReplayInverse();
    TlvInverse();
    CountBound(|s.inbound|);
    CountBound(|s.objects|);
    CountBound(|s.replays|);
    CountBound(|s.tlvs|);
    var r4 := PutBlob(4, s.tr, []);
    var r3 := PutCounted(PutTlv, s.tlvs, r4);
    var r2 := PutCounted(PutReplay, s.replays, r3);
    var r1 := PutActive(s.active, PutTail(s));
    GetOfPutPrefix(s.prefix, PutCounted(PutInbound, s.inbound, r1));
    GetOfPutCounted(PutInbound, GetInbound, InboundFits, ANY_COUNT, s.inbound, r1);
    GetOfPutActive(s.active, PutTail(s));
    GetOfPutCounted(PutObject, GetObject, ObjectFits, ANY_COUNT, s.objects, r2);
    GetOfPutCounted(PutReplay, GetReplay, ReplayFits, ANY_COUNT, s.replays, r3);
    GetOfPutCounted(PutTlv, GetTlv, TlvFits, ANY_COUNT, s.tlvs, r4);
    GetOfPutBlob(4, s.tr, []);
  }

  lemma PutOfRead(data: bytes)
    requires ReadRvfb1(data).Some?
    ensures Encodable(ReadRvfb1(data).value) && PutRvfb1(ReadRvfb1(data).value) == data
  {
    hide Fits, PrefixFits, InboundFits, ActiveFits, ObjectFits, ReplayFits, TlvFits;
    hide PutPrefix, GetPrefix, PutActive, GetActive, PutCounted, GetCounted, PutBlob, GetBlob;
    InboundInverse();
    ObjectInverse();
    ReplayInverse();
    TlvInverse();
    PutOfGetPrefix(data);
    var b0 := GetPrefix(data).value.1;
    PutOfGetCounted(PutInbound, GetInbound, InboundFits, ANY_COUNT, b0);
    var b1 := GetCounted(ANY_COUNT, GetInbound, b0).value.1;
    PutOfGetActive(b1);
    var b2 := GetActive(b1).value.1;
    PutOfGetCounted(PutObject, GetObject, ObjectFits, ANY_COUNT, b2);
    var b3 := GetCounted(ANY_COUNT, GetObject, b2).value.1;
    PutOfGetCounted(PutReplay, GetReplay, ReplayFits, ANY_COUNT, b3);
    var b4 := GetCounted(ANY_COUNT, GetReplay, b3).value.1;
    PutOfGetCounted(PutTlv, GetTlv, TlvFits, ANY_COUNT, b4);
    PutOfGetBlob(4, GetCounted(ANY_COUNT, GetTlv, b4).value.1);
  }

  /** RVFB1 encoding and decoding are inverse to each other, in both directions. */
  lemma Rvfb1Inverse(s: State, data: bytes)
    ensures EncodeRvfb1(s) == Some(data) <==> DecodeRvfb1(data) == Some(s)
  {
    hide ReadRvfb1, PutRvfb1, ValidState, Encodable;
    if EncodeRvfb1(s) == Some(data) {
      ReadOfPut(s);
    }
    if DecodeRvfb1(data) == Some(s) {
      PutOfRead(data);
    }
  }
}
