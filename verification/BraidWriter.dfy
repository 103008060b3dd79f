/** `encode_rvfb1` as the source writes it: validation, then a buffer grown by nested loops. */
module BraidWriter {
  import opened Bytes
  import opened BraidState
  import opened BraidCodec
  import opened BraidValidate
  import opened WireWriting

  method WriteBlob(out: bytes, w: nat, v: bytes, ghost rest: bytes) returns (r: Option<bytes>)
    ensures r.Some? <==> Fits(|v|, w)
    ensures r.Some? ==> r.value + rest == out + PutBlob(w, v, rest)
  {
    hide PutUint, Fits;
    var o :- WriteUint(out, |v|, w, v + rest);
    o := WriteBytes(o, v, rest);
    return Some(o);
  }

  method WriteChunk(out: bytes, c: InboundChunk, ghost rest: bytes) returns (r: Option<bytes>)
    ensures r.Some? <==> ChunkFits(c)
    ensures r.Some? ==> r.value + rest == out + PutChunk(c, rest)
  {
    hide PutUint, Fits, PutBlob, PutCounted;
    ghost var r1 := PutBlob(2, c.payload, rest);
    var o := out;
    o :- WriteUint(o, c.index, 4, r1);
    o :- WriteBlob(o, 2, c.payload, rest);
    return Some(o);
  }

  method WriteChunks(out: bytes, items: seq<InboundChunk>, ghost rest: bytes) returns (r: Option<bytes>)
    ensures r.Some? <==> Fits(|items|, 2) && forall i :: 0 <= i < |items| ==> ChunkFits(items[i])
    ensures r.Some? ==> r.value + rest == out + PutCounted(PutChunk, items, rest)
  {
    hide PutMany, PutUint, ChunkFits, PutChunk, Fits;
    var o :- WriteUint(out, |items|, 2, PutMany(PutChunk, items, rest));
    ManyStart(PutChunk, items, rest);
    var i := 0;
    while i < |items|
      invariant 0 <= i <= |items| && forall j :: 0 <= j < i ==> ChunkFits(items[j])
      invariant o + PutMany(PutChunk, items[i..], rest) == out + PutCounted(PutChunk, items, rest)
    {
      ManyStep(PutChunk, items, i, rest);
      o :- WriteChunk(o, items[i], PutMany(PutChunk, items[i + 1..], rest));
      i := i + 1;
    }
    ManyEnd(PutChunk, items, rest);
    return Some(o);
  }

  method WriteInbound(out: bytes, s: InboundSet, ghost rest: bytes) returns (r: Option<bytes>)
    ensures r.Some? <==> InboundFits(s)
    ensures r.Some? ==> r.value + rest == out + PutInbound(s, rest)
  {
    hide PutUint, Fits, PutBlob, PutCounted, ChunkFits;
    ghost var r6 := PutCounted(PutChunk, s.chunks, rest);
    ghost var r5 := PutBlob(2, s.bitmap, r6);
    ghost var r4 := PutUint(s.maxIndex, 4, r5);
    ghost var r3 := PutUint(s.expectedLen, 4, r4);
    ghost var r2 := PutUint(s.sourceKind, 1, r3);
    ghost var r1 := PutUint(s.epoch, 8, r2);
    var o := out;
    o :- WriteUint(o, s.direction, 1, r1);
    o :- WriteUint(o, s.epoch, 8, r2);
    o :- WriteUint(o, s.sourceKind, 1, r3);
    o :- WriteUint(o, s.expectedLen, 4, r4);
    o :- WriteUint(o, s.maxIndex, 4, r5);
    o :- WriteBlob(o, 2, s.bitmap, r6);
    o :- WriteChunks(o, s.chunks, rest);
    return Some(o);
  }

  method WriteInboundSets(out: bytes, items: seq<InboundSet>, ghost rest: bytes) returns (r: Option<bytes>)
    ensures r.Some? <==> Fits(|items|, 2) && forall i :: 0 <= i < |items| ==> InboundFits(items[i])
    ensures r.Some? ==> r.value + rest == out + PutCounted(PutInbound, items, rest)
  {
    hide PutMany, PutUint, InboundFits, PutInbound, Fits;
    var o :- WriteUint(out, |items|, 2, PutMany(PutInbound, items, rest));
    ManyStart(PutInbound, items, rest);
    var i := 0;
    while i < |items|
      invariant 0 <= i <= |items| && forall j :: 0 <= j < i ==> InboundFits(items[j])
      invariant o + PutMany(PutInbound, items[i..], rest) == out + PutCounted(PutInbound, items, rest)
    {
      ManyStep(PutInbound, items, i, rest);
      o :- WriteInbound(o, items[i], PutMany(PutInbound, items[i + 1..], rest));
      i := i + 1;
    }
    ManyEnd(PutInbound, items, rest);
    return Some(o);
  }

  method WriteActive(out: bytes, active: Option<ActiveSend>, ghost rest: bytes) returns (r: Option<bytes>)
    requires active.Some? ==> |active.value.source| == active.value.sourceLen && |active.value.sourceDigest| == 32
    ensures r.Some? <==> (active.Some? ==> ActiveFits(active.value))
    ensures r.Some? ==> r.value + rest == out + PutActive(active, rest)
  {
    hide PutUint, Fits;
    SchemaFits();
    if active.None? {
      var none := WriteSmall(out, 0, 1, rest);
      return Some(none);
    }
    var a := active.value;
    ghost var r7 := PutUint(a.nextIndex, 4, rest);
    ghost var r6 := a.source + r7;
    ghost var r5 := a.sourceDigest + r6;
    ghost var r4 := PutUint(a.sourceLen, 4, r5);
    ghost var r3 := PutUint(a.sourceKind, 1, r4);
    ghost var r2 := PutUint(a.wireType, 1, r3);
    ghost var r1 := PutUint(a.epoch, 8, r2);
    var o := WriteSmall(out, 1, 1, PutUint(a.direction, 1, r1));
    o :- WriteUint(o, a.direction, 1, r1);
    o :- WriteUint(o, a.epoch, 8, r2);
    o :- WriteUint(o, a.wireType, 1, r3);
    o :- WriteUint(o, a.sourceKind, 1, r4);
    o :- WriteUint(o, a.sourceLen, 4, r5);
    o := WriteBytes(o, a.sourceDigest, r6);
    o := WriteBytes(o, a.source, r7);
    r := WriteUint(o, a.nextIndex, 4, rest);
  }

  method WriteObject(out: bytes, b: BraidObject, ghost rest: bytes) returns (r: Option<bytes>)
    ensures r.Some? <==> ObjectFits(b)
    ensures r.Some? ==> r.value + rest == out + PutObject(b, rest)
  {
    hide PutUint, Fits;
    if |b.digest| != 32 {
      return None;
    }
    ghost var r2 := PutUint(b.sourceKind, 1, b.digest + rest);
    var o :- WriteUint(out, b.direction, 1, PutUint(b.epoch, 8, r2));
    o :- WriteUint(o, b.epoch, 8, r2);
    o :- WriteUint(o, b.sourceKind, 1, b.digest + rest);
    o := WriteBytes(o, b.digest, rest);
    return Some(o);
  }

  method WriteObjects(out: bytes, items: seq<BraidObject>, ghost rest: bytes) returns (r: Option<bytes>)
    ensures r.Some? <==> Fits(|items|, 2) && forall i :: 0 <= i < |items| ==> ObjectFits(items[i])
    ensures r.Some? ==> r.value + rest == out + PutCounted(PutObject, items, rest)
  {
    hide PutMany, PutUint, ObjectFits, PutObject, Fits;
    var o :- WriteUint(out, |items|, 2, PutMany(PutObject, items, rest));
    ManyStart(PutObject, items, rest);
    var i := 0;
    while i < |items|
      invariant 0 <= i <= |items| && forall j :: 0 <= j < i ==> ObjectFits(items[j])
      invariant o + PutMany(PutObject, items[i..], rest) == out + PutCounted(PutObject, items, rest)
    {
      ManyStep(PutObject, items, i, rest);
      o :- WriteObject(o, items[i], PutMany(PutObject, items[i + 1..], rest));
      i := i + 1;
    }
    ManyEnd(PutObject, items, rest);
    return Some(o);
  }

  method WriteReplay(out: bytes, p: ReplayRecord, ghost rest: bytes) returns (r: Option<bytes>)
    requires |p.transitionId| == 32 && |p.executionDigest| == 32 && |p.outputDigest| == 32
    ensures r.Some? <==> ReplayFits(p)
    ensures r.Some? ==> r.value + rest == out + PutReplay(p, rest)
  {
    hide PutUint, Fits;
    ghost var r4 := PutUint(p.flags, 2, rest);
    ghost var r3 := PutUint(p.outputLen, 4, r4);
    var o := WriteBytes(out, p.transitionId, p.executionDigest + (p.outputDigest + r3));
    o := WriteBytes(o, p.executionDigest, p.outputDigest + r3);
    o := WriteBytes(o, p.outputDigest, r3);
    o :- WriteUint(o, p.outputLen, 4, r4);
    r := WriteUint(o, p.flags, 2, rest);
  }

  method WriteReplays(out: bytes, items: seq<ReplayRecord>, ghost rest: bytes) returns (r: Option<bytes>)
    requires forall i :: 0 <= i < |items| ==> |items[i].transitionId| == 32 && |items[i].executionDigest| == 32 && |items[i].outputDigest| == 32
    ensures r.Some? <==> Fits(|items|, 2) && forall i :: 0 <= i < |items| ==> ReplayFits(items[i])
    ensures r.Some? ==> r.value + rest == out + PutCounted(PutReplay, items, rest)
  {
    hide PutMany, PutUint, ReplayFits, PutReplay, Fits;
    var o :- WriteUint(out, |items|, 2, PutMany(PutReplay, items, rest));
    ManyStart(PutReplay, items, rest);
    var i := 0;
    while i < |items|
      invariant 0 <= i <= |items| && forall j :: 0 <= j < i ==> ReplayFits(items[j])
      invariant o + PutMany(PutReplay, items[i..], rest) == out + PutCounted(PutReplay, items, rest)
    {
      ManyStep(PutReplay, items, i, rest);
      o :- WriteReplay(o, items[i], PutMany(PutReplay, items[i + 1..], rest));
      i := i + 1;
    }
    ManyEnd(PutReplay, items, rest);
    return Some(o);
  }

  method WriteTlv(out: bytes, t: Tlv, ghost rest: bytes) returns (r: Option<bytes>)
    ensures r.Some? <==> TlvFits(t)
    ensures r.Some? ==> r.value + rest == out + PutTlv(t, rest)
  {
    hide PutUint, Fits, PutBlob, PutCounted;
    ghost var r1 := PutBlob(4, t.value, rest);
    var o := out;
    o :- WriteUint(o, t.tag, 2, r1);
    o :- WriteBlob(o, 4, t.value, rest);
    return Some(o);
  }

  method WriteTlvs(out: bytes, items: seq<Tlv>, ghost rest: bytes) returns (r: Option<bytes>)
    ensures r.Some? <==> Fits(|items|, 2) && forall i :: 0 <= i < |items| ==> TlvFits(items[i])
    ensures r.Some? ==> r.value + rest == out + PutCounted(PutTlv, items, rest)
  {
    hide PutMany, PutUint, TlvFits, PutTlv, Fits;
    var o :- WriteUint(out, |items|, 2, PutMany(PutTlv, items, rest));
    ManyStart(PutTlv, items, rest);
    var i := 0;
    while i < |items|
      invariant 0 <= i <= |items| && forall j :: 0 <= j < i ==> TlvFits(items[j])
      invariant o + PutMany(PutTlv, items[i..], rest) == out + PutCounted(PutTlv, items, rest)
    {
      ManyStep(PutTlv, items, i, rest);
      o :- WriteTlv(o, items[i], PutMany(PutTlv, items[i + 1..], rest));
      i := i + 1;
    }
    ManyEnd(PutTlv, items, rest);
    return Some(o);
  }

  /** `_encode_prefix` */
  method WritePrefix(p: Prefix, ghost rest: bytes) returns (r: Option<bytes>)
    ensures r.Some? <==> PrefixFits(p)
    ensures r.Some? ==> r.value + rest == PutPrefix(p, rest)
  {
    hide PutUint, Fits;
    if |p.sessionId| != 32 || |p.authRoot| != 32 || |p.authMacKey| != 32 || |p.pendingTransitionId| != 32
       || |p.pendingBeforeDigest| != 32 || |p.pendingOutputDigest| != 32 || |p.pendingExecutionDigest| != 32
    {
      return None;
    }
    SchemaFits();
    ghost var r16 := p.pendingExecutionDigest + rest;
    ghost var r15 := p.pendingOutputDigest + r16;
    ghost var r14 := p.pendingBeforeDigest + r15;
    ghost var r13 := p.pendingTransitionId + r14;
    ghost var r12 := PutUint(p.pendingPhase, 1, r13);
    ghost var r11 := PutUint(p.flags, 4, r12);
    ghost var r10 := PutUint(p.recvEpoch, 8, r11);
    ghost var r9 := PutUint(p.sendEpoch, 8, r10);
    ghost var r8 := PutUint(p.agentEpoch, 8, r9);
    ghost var r7 := p.authMacKey + r8;
    ghost var r6 := p.authRoot + r7;
    ghost var r5 := PutUint(p.terminalReason, 2, r6);
    ghost var r4 := PutUint(p.agent, 1, r5);
    ghost var r3 := PutUint(p.generation, 8, r4);
    ghost var r2 := PutUint(p.role, 1, r3);
    var o := WriteSmall(RVFB1_MAGIC, 1, 2, p.sessionId + r2);
    o := WriteBytes(o, p.sessionId, r2);
    o :- WriteUint(o, p.role, 1, r3);
    o :- WriteUint(o, p.generation, 8, r4);
    o :- WriteUint(o, p.agent, 1, r5);
    o :- WriteUint(o, p.terminalReason, 2, r6);
    o := WriteBytes(o, p.authRoot, r7);
    o := WriteBytes(o, p.authMacKey, r8);
    o :- WriteUint(o, p.agentEpoch, 8, r9);
    o :- WriteUint(o, p.sendEpoch, 8, r10);
    o :- WriteUint(o, p.recvEpoch, 8, r11);
    o :- WriteUint(o, p.flags, 4, r12);
    o :- WriteUint(o, p.pendingPhase, 1, r13);
    o := WriteBytes(o, p.pendingTransitionId, r14);
    o := WriteBytes(o, p.pendingBeforeDigest, r15);
    o := WriteBytes(o, p.pendingOutputDigest, r16);
    o := WriteBytes(o, p.pendingExecutionDigest, rest);
    return Some(o);
  }

  lemma ValidParts(s: State)
    requires ValidState(s)
    ensures s.active.Some? ==> |s.active.value.source| == s.active.value.sourceLen && |s.active.value.sourceDigest| == 32
    ensures forall i :: 0 <= i < |s.replays| ==>
              |s.replays[i].transitionId| == 32 && |s.replays[i].executionDigest| == 32 && |s.replays[i].outputDigest| == 32
  {
    hide InboundOk, TlvsOk, StrictlySorted;
  }

  /** `encode_rvfb1` */
  method EncodeRvfb1State(s: State) returns (r: Option<bytes>)
    ensures r == EncodeRvfb1(s)
  {
    hide ValidState, PutPrefix, PutCounted, PutActive, PutBlob, Fits;
    hide PrefixFits, InboundFits, ActiveFits, ObjectFits, ReplayFits, TlvFits;
    var ok := ValidateState(s);
    if !ok {
      return None;
    }
    ValidParts(s);
    ghost var r5 := PutBlob(4, s.tr, []);
    ghost var r4 := PutCounted(PutTlv, s.tlvs, r5);
    ghost var r3 := PutCounted(PutReplay, s.replays, r4);
    ghost var r2 := PutCounted(PutObject, s.objects, r3);
    ghost var r1 := PutActive(s.active, r2);
    var o :- WritePrefix(s.prefix, PutCounted(PutInbound, s.inbound, r1));
    o :- WriteInboundSets(o, s.inbound, r1);
    o :- WriteActive(o, s.active, r2);
    o :- WriteObjects(o, s.objects, r3);
    o :- WriteReplays(o, s.replays, r4);
    o :- WriteTlvs(o, s.tlvs, r5);
    o :- WriteBlob(o, 4, s.tr, []);
    assert o + [] == o;
    return Some(o);
  }
}
