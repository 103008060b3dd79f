/** `decode_rvfb1` as the source writes it: nested reading loops, then validation. */
module BraidReader {
  import opened Bytes
  import opened BraidState
  import opened BraidCodec
  import opened BraidValidate
  import opened WireReading

  const RVFB1_PREFIX_LEN := 275

  /** A two-byte count is never beyond what the specification admits while reading. */
  lemma AnyCount(b: bytes)
    ensures Uint(2, b).Some? ==> Uint(2, b).value.0 <= ANY_COUNT
  {
    if Uint(2, b).Some? {
      PutOfGetUint(2, b);
      CountBound(Uint(2, b).value.0);
    }
  }

  method ReadBlob(reader: WireReader, w: nat) returns (r: Option<bytes>)
    requires reader.Valid()
    modifies reader
    ensures reader.Valid() && Yields(GetBlob(w, old(reader.Rest())), r, reader.Rest())
  {
    hide Uint, Take;
    var n :- reader.ReadUint(w);
    r := reader.ReadBytes(n);
  }

  method ReadChunk(reader: WireReader) returns (r: Option<InboundChunk>)
    requires reader.Valid()
    modifies reader
    ensures reader.Valid() && Yields(GetChunk(old(reader.Rest())), r, reader.Rest())
  {
    hide Uint, Take, GetBlob, GetCounted;
    var index :- reader.ReadUint(4);
    var payload :- ReadBlob(reader, 2);
    return Some(InboundChunk(index, payload));
  }

  method ReadChunks(reader: WireReader) returns (r: Option<seq<InboundChunk>>)
    requires reader.Valid()
    modifies reader
    ensures reader.Valid() && Yields(GetCounted(ANY_COUNT, GetChunk, old(reader.Rest())), r, reader.Rest())
  {
    hide Uint, GetMany, GetChunk, Progress;
    ghost var whole := reader.Rest();
    var count :- reader.ReadUint(2);
    AnyCount(whole);
    ghost var start := reader.Rest();
    var items: seq<InboundChunk> := [];
    ProgressStart(count, GetChunk, start);
    while |items| < count
      invariant |items| <= count && reader.Valid() && Progress(count, GetChunk, start, items, reader.Rest())
    {
      ProgressStep(count, GetChunk, start, items, reader.Rest());
      var entry :- ReadChunk(reader);
      items := items + [entry];
    }
    ProgressEnd(count, GetChunk, start, items, reader.Rest());
    return Some(items);
  }

  method ReadInbound(reader: WireReader) returns (r: Option<InboundSet>)
    requires reader.Valid()
    modifies reader
    ensures reader.Valid() && Yields(GetInbound(old(reader.Rest())), r, reader.Rest())
  {
    hide Uint, Take, GetBlob, GetCounted;
    var direction :- reader.ReadUint(1);
    var epoch :- reader.ReadUint(8);
    var sourceKind :- reader.ReadUint(1);
    var expectedLen :- reader.ReadUint(4);
    var maxIndex :- reader.ReadUint(4);
    var bitmap :- ReadBlob(reader, 2);
    var chunks :- ReadChunks(reader);
    return Some(InboundSet(direction, epoch, sourceKind, expectedLen, maxIndex, bitmap, chunks));
  }

  method ReadInboundSets(reader: WireReader) returns (r: Option<seq<InboundSet>>)
    requires reader.Valid()
    modifies reader
    ensures reader.Valid() && Yields(GetCounted(ANY_COUNT, GetInbound, old(reader.Rest())), r, reader.Rest())
  {
    hide Uint, GetMany, GetInbound, Progress;
    ghost var whole := reader.Rest();
    var count :- reader.ReadUint(2);
    AnyCount(whole);
    ghost var start := reader.Rest();
    var items: seq<InboundSet> := [];
    ProgressStart(count, GetInbound, start);
    while |items| < count
      invariant |items| <= count && reader.Valid() && Progress(count, GetInbound, start, items, reader.Rest())
    {
      ProgressStep(count, GetInbound, start, items, reader.Rest());
      var entry :- ReadInbound(reader);
      items := items + [entry];
    }
    ProgressEnd(count, GetInbound, start, items, reader.Rest());
    return Some(items);
  }

  method ReadActive(reader: WireReader) returns (r: Option<Option<ActiveSend>>)
    requires reader.Valid()
    modifies reader
    ensures reader.Valid() && Yields(GetActive(old(reader.Rest())), r, reader.Rest())
  {
    hide Uint, Take;
    var present :- reader.ReadUint(1);
    if present == 0 {
      return Some(None);
    }
    if present != 1 {
      return None;
    }
    var direction :- reader.ReadUint(1);
    var epoch :- reader.ReadUint(8);
    var wireType :- reader.ReadUint(1);
    var sourceKind :- reader.ReadUint(1);
    var sourceLen :- reader.ReadUint(4);
    var sourceDigest :- reader.ReadBytes(32);
    var source :- reader.ReadBytes(sourceLen);
    var nextIndex :- reader.ReadUint(4);
    return Some(Some(ActiveSend(direction, epoch, wireType, sourceKind, sourceLen, sourceDigest, source, nextIndex)));
  }

  method ReadObject(reader: WireReader) returns (r: Option<BraidObject>)
    requires reader.Valid()
    modifies reader
    ensures reader.Valid() && Yields(GetObject(old(reader.Rest())), r, reader.Rest())
  {
    hide Uint, Take, GetBlob, GetCounted;
    var direction :- reader.ReadUint(1);
    var epoch :- reader.ReadUint(8);
    var sourceKind :- reader.ReadUint(1);
    var digest :- reader.ReadBytes(32);
    return Some(BraidObject(direction, epoch, sourceKind, digest));
  }

  method ReadObjects(reader: WireReader) returns (r: Option<seq<BraidObject>>)
    requires reader.Valid()
    modifies reader
    ensures reader.Valid() && Yields(GetCounted(ANY_COUNT, GetObject, old(reader.Rest())), r, reader.Rest())
  {
    hide Uint, GetMany, GetObject, Progress;
    ghost var whole := reader.Rest();
    var count :- reader.ReadUint(2);
    AnyCount(whole);
    ghost var start := reader.Rest();
    var items: seq<BraidObject> := [];
    ProgressStart(count, GetObject, start);
    while |items| < count
      invariant |items| <= count && reader.Valid() && Progress(count, GetObject, start, items, reader.Rest())
    {
      ProgressStep(count, GetObject, start, items, reader.Rest());
      var entry :- ReadObject(reader);
      items := items + [entry];
    }
    ProgressEnd(count, GetObject, start, items, reader.Rest());
    return Some(items);
  }

  method ReadReplay(reader: WireReader) returns (r: Option<ReplayRecord>)
    requires reader.Valid()
    modifies reader
    ensures reader.Valid() && Yields(GetReplay(old(reader.Rest())), r, reader.Rest())
  {
    hide Uint, Take, GetBlob, GetCounted;
    var transitionId :- reader.ReadBytes(32);
    var executionDigest :- reader.ReadBytes(32);
    var outputDigest :- reader.ReadBytes(32);
    var outputLen :- reader.ReadUint(4);
    var flags :- reader.ReadUint(2);
    return Some(ReplayRecord(transitionId, executionDigest, outputDigest, outputLen, flags));
  }

  method ReadReplays(reader: WireReader) returns (r: Option<seq<ReplayRecord>>)
    requires reader.Valid()
    modifies reader
    ensures reader.Valid() && Yields(GetCounted(ANY_COUNT, GetReplay, old(reader.Rest())), r, reader.Rest())
  {
    hide Uint, GetMany, GetReplay, Progress;
    ghost var whole := reader.Rest();
    var count :- reader.ReadUint(2);
    AnyCount(whole);
    ghost var start := reader.Rest();
    var items: seq<ReplayRecord> := [];
    ProgressStart(count, GetReplay, start);
    while |items| < count
      invariant |items| <= count && reader.Valid() && Progress(count, GetReplay, start, items, reader.Rest())
    {
      ProgressStep(count, GetReplay, start, items, reader.Rest());
      var entry :- ReadReplay(reader);
      items := items + [entry];
    }
    ProgressEnd(count, GetReplay, start, items, reader.Rest());
    return Some(items);
  }

  method ReadTlv(reader: WireReader) returns (r: Option<Tlv>)
    requires reader.Valid()
    modifies reader
    ensures reader.Valid() && Yields(GetTlv(old(reader.Rest())), r, reader.Rest())
  {
    hide Uint, Take, GetBlob, GetCounted;
    var tag :- reader.ReadUint(2);
    var value :- ReadBlob(reader, 4);
    return Some(Tlv(tag, value));
  }

  method ReadTlvs(reader: WireReader) returns (r: Option<seq<Tlv>>)
    requires reader.Valid()
    modifies reader
    ensures reader.Valid() && Yields(GetCounted(ANY_COUNT, GetTlv, old(reader.Rest())), r, reader.Rest())
  {
    hide Uint, GetMany, GetTlv, Progress;
    ghost var whole := reader.Rest();
    var count :- reader.ReadUint(2);
    AnyCount(whole);
    ghost var start := reader.Rest();
    var items: seq<Tlv> := [];
    ProgressStart(count, GetTlv, start);
    while |items| < count
      invariant |items| <= count && reader.Valid() && Progress(count, GetTlv, start, items, reader.Rest())
    {
      ProgressStep(count, GetTlv, start, items, reader.Rest());
      var entry :- ReadTlv(reader);
      items := items + [entry];
    }
    ProgressEnd(count, GetTlv, start, items, reader.Rest());
    return Some(items);
  }

  lemma PrefixLength(data: bytes)
    requires GetPrefix(data).Some?
    ensures |data| == RVFB1_PREFIX_LEN + |GetPrefix(data).value.1|
  {
    hide GetPrefix, Fits, BE;
    PutOfGetPrefix(data);
  }

  /** `_decode_prefix`: its closing test on the offset always passes. */
  method ReadPrefix(data: bytes) returns (r: Option<Prefix>)
    ensures r.Some? <==> GetPrefix(data).Some?
    ensures r.Some? ==> |data| >= RVFB1_PREFIX_LEN && GetPrefix(data) == Some((r.value, data[RVFB1_PREFIX_LEN..]))
  {
    hide Uint, GetPrefix;
    if GetPrefix(data).Some? {
      PrefixLength(data);
    }
    if |data| < RVFB1_PREFIX_LEN {
      return None;
    }
    if data[..8] != RVFB1_MAGIC {
      WrongMagic(data);
      return None;
    }
    var reader := new WireReader(data, 8);
    r := ReadPrefixFields(reader);
    PrefixAfterMagic(data);
    if r.Some? {
      PrefixLength(data);
      assert reader.off == RVFB1_PREFIX_LEN;
    }
  }

  lemma WrongMagic(data: bytes)
    requires |data| >= 8 && data[..8] != RVFB1_MAGIC
    ensures GetPrefix(data).None?
  {
    hide GetPrefixFields;
  }

  lemma PrefixAfterMagic(data: bytes)
    requires |data| >= 8 && data[..8] == RVFB1_MAGIC
    ensures GetPrefix(data) == GetPrefixFields(data[8..])
  {
    hide GetPrefixFields;
  }

  method ReadPrefixFields(reader: WireReader) returns (r: Option<Prefix>)
    requires reader.Valid()
    modifies reader
    ensures reader.Valid() && Yields(GetPrefixFields(old(reader.Rest())), r, reader.Rest())
  {
    hide Uint, Take;
    var schema :- reader.ReadUint(2);
    if schema != 1 {
      return None;
    }
    var sessionId :- reader.ReadBytes(32);
    var role :- reader.ReadUint(1);
    var generation :- reader.ReadUint(8);
    var agent :- reader.ReadUint(1);
    var terminalReason :- reader.ReadUint(2);
    var authRoot :- reader.ReadBytes(32);
    var authMacKey :- reader.ReadBytes(32);
    var agentEpoch :- reader.ReadUint(8);
    var sendEpoch :- reader.ReadUint(8);
    var recvEpoch :- reader.ReadUint(8);
    var flags :- reader.ReadUint(4);
    var phase :- reader.ReadUint(1);
    var tid :- reader.ReadBytes(32);
    var before :- reader.ReadBytes(32);
    var output :- reader.ReadBytes(32);
    var execution :- reader.ReadBytes(32);
    return Some(Prefix(sessionId, role, generation, agent, terminalReason, authRoot, authMacKey,
                       agentEpoch, sendEpoch, recvEpoch, flags, phase, tid, before, output, execution));
  }

  /** `decode_rvfb1` */
  method DecodeRvfb1Bytes(data: bytes) returns (r: Option<State>)
    ensures r == DecodeRvfb1(data)
  {
    hide GetPrefix, GetCounted, GetActive, GetBlob, ValidState;
    var prefix :- ReadPrefix(data);
    var reader := new WireReader(data, RVFB1_PREFIX_LEN);
    var inbound :- ReadInboundSets(reader);
    var active :- ReadActive(reader);
    var objects :- ReadObjects(reader);
    var replays :- ReadReplays(reader);
    var tlvs :- ReadTlvs(reader);
    var tr :- ReadBlob(reader, 4);
    if reader.off != |data| {
      return None;
    }
    var s := State(prefix, inbound, active, objects, replays, tlvs, tr);
    var ok := ValidateState(s);
    return if ok then Some(s) else None;
  }
}
