/** `decode_rvft1` as the source writes it: a reader stepped field by field, list by list. */
module RatchetReader {
  import opened Bytes
  import opened BraidState
  import opened RatchetCodec
  import opened WireReading

  method ReadChainEntry(reader: WireReader) returns (r: Option<SckaChainEntry>)
    requires reader.Valid()
    modifies reader
    ensures reader.Valid() && Yields(GetChainEntry(old(reader.Rest())), r, reader.Rest())
  {
    hide Uint, Take;
    var epoch :- reader.ReadUint(8);
    var ck :- reader.ReadBytes(32);
    var n :- reader.ReadUint(4);
    return Some(SckaChainEntry(epoch, ck, n));
  }

  method ReadChain(reader: WireReader) returns (r: Option<seq<SckaChainEntry>>)
    requires reader.Valid()
    modifies reader
    ensures reader.Valid() && Yields(GetCounted(MAX_SCKA_CHAIN, GetChainEntry, old(reader.Rest())), r, reader.Rest())
  {
    hide Uint, GetMany, GetChainEntry, Progress;
    var count :- reader.ReadUint(2);
    if count > MAX_SCKA_CHAIN {
      return None;
    }
    ghost var start := reader.Rest();
    var items: seq<SckaChainEntry> := [];
    ProgressStart(count, GetChainEntry, start);
    while |items| < count
      invariant |items| <= count && reader.Valid() && Progress(count, GetChainEntry, start, items, reader.Rest())
    {
      ProgressStep(count, GetChainEntry, start, items, reader.Rest());
      var entry :- ReadChainEntry(reader);
      items := items + [entry];
    }
    ProgressEnd(count, GetChainEntry, start, items, reader.Rest());
    return Some(items);
  }

  method ReadSckaSkippedEntry(reader: WireReader) returns (r: Option<SckaSkippedEntry>)
    requires reader.Valid()
    modifies reader
    ensures reader.Valid() && Yields(GetSckaSkipped(old(reader.Rest())), r, reader.Rest())
  {
    hide Uint, Take;
    var direction :- reader.ReadUint(1);
    var epoch :- reader.ReadUint(8);
    var n :- reader.ReadUint(4);
    var mk :- reader.ReadBytes(32);
    return Some(SckaSkippedEntry(direction, epoch, n, mk));
  }

  method ReadSckaSkipped(reader: WireReader) returns (r: Option<seq<SckaSkippedEntry>>)
    requires reader.Valid()
    modifies reader
    ensures reader.Valid() && Yields(GetCounted(MAX_SCKA_SKIPPED, GetSckaSkipped, old(reader.Rest())), r, reader.Rest())
  {
    hide Uint, GetMany, GetSckaSkipped, Progress;
    var count :- reader.ReadUint(2);
    if count > MAX_SCKA_SKIPPED {
      return None;
    }
    ghost var start := reader.Rest();
    var items: seq<SckaSkippedEntry> := [];
    ProgressStart(count, GetSckaSkipped, start);
    while |items| < count
      invariant |items| <= count && reader.Valid() && Progress(count, GetSckaSkipped, start, items, reader.Rest())
    {
      ProgressStep(count, GetSckaSkipped, start, items, reader.Rest());
      var entry :- ReadSckaSkippedEntry(reader);
      items := items + [entry];
    }
    ProgressEnd(count, GetSckaSkipped, start, items, reader.Rest());
    return Some(items);
  }

  method ReadEcSkippedEntry(reader: WireReader) returns (r: Option<EcSkippedEntry>)
    requires reader.Valid()
    modifies reader
    ensures reader.Valid() && Yields(GetEcSkipped(old(reader.Rest())), r, reader.Rest())
  {
    hide Uint, Take;
    var dhPub :- reader.ReadBytes(32);
    var n :- reader.ReadUint(4);
    var mk :- reader.ReadBytes(32);
    return Some(EcSkippedEntry(dhPub, n, mk));
  }

  method ReadEcSkipped(reader: WireReader) returns (r: Option<seq<EcSkippedEntry>>)
    requires reader.Valid()
    modifies reader
    ensures reader.Valid() && Yields(GetCounted(MAX_EC_SKIPPED, GetEcSkipped, old(reader.Rest())), r, reader.Rest())
  {
    hide Uint, GetMany, GetEcSkipped, Progress;
    var count :- reader.ReadUint(2);
    if count > MAX_EC_SKIPPED {
      return None;
    }
    ghost var start := reader.Rest();
    var items: seq<EcSkippedEntry> := [];
    ProgressStart(count, GetEcSkipped, start);
    while |items| < count
      invariant |items| <= count && reader.Valid() && Progress(count, GetEcSkipped, start, items, reader.Rest())
    {
      ProgressStep(count, GetEcSkipped, start, items, reader.Rest());
      var entry :- ReadEcSkippedEntry(reader);
      items := items + [entry];
    }
    ProgressEnd(count, GetEcSkipped, start, items, reader.Rest());
    return Some(items);
  }

  method ReadSckaPart(reader: WireReader) returns (r: Option<Scka>)
    requires reader.Valid()
    modifies reader
    ensures reader.Valid() && Yields(GetScka(old(reader.Rest())), r, reader.Rest())
  {
    hide Uint, Take, GetCounted;
    var rk :- reader.ReadBytes(32);
    var sendingEpoch :- reader.ReadUint(8);
    var receivingEpoch :- reader.ReadUint(8);
    var sendChain :- ReadChain(reader);
    var recvChain :- ReadChain(reader);
    var sendPn :- reader.ReadUint(4);
    var skipped :- ReadSckaSkipped(reader);
    return Some(Scka(rk, sendingEpoch, receivingEpoch, sendChain, recvChain, sendPn, skipped));
  }

  method ReadEcPart(reader: WireReader) returns (r: Option<Ec>)
    requires reader.Valid()
    modifies reader
    ensures reader.Valid() && Yields(GetEc(old(reader.Rest())), r, reader.Rest())
  {
    hide Uint, Take, GetCounted;
    var rk :- reader.ReadBytes(32);
    var dhsPriv :- reader.ReadBytes(32);
    var dhsPub :- reader.ReadBytes(32);
    var dhrPresent :- reader.ReadUint(1);
    var dhrPub :- reader.ReadBytes(32);
    var ckSendPresent :- reader.ReadUint(1);
    var ckRecvPresent :- reader.ReadUint(1);
    var ckSend :- reader.ReadBytes(32);
    var ckRecv :- reader.ReadBytes(32);
    var ns :- reader.ReadUint(4);
    var nr :- reader.ReadUint(4);
    var pn :- reader.ReadUint(4);
    var skipped :- ReadEcSkipped(reader);
    return Some(Ec(rk, dhsPriv, dhsPub, dhrPresent, dhrPub, ckSendPresent, ckRecvPresent, ckSend, ckRecv, ns, nr, pn, skipped));
  }

  /** `decode_rvft1` */
  method DecodeRvft1Bytes(data: bytes) returns (r: Option<Rvft1>)
    ensures r == DecodeRvft1(data)
  {
    hide Uint, GetScka, GetEc, ValidRvft1;
    if |data| > RVFT1_MAX_SIZE {
      return None;
    }
    if |data| < 8 || data[..8] != RVFT1_MAGIC {
      return None;
    }
    var reader := new WireReader(data, 8);
    var schema :- reader.ReadUint(2);
    if schema != 1 {
      return None;
    }
    var scka :- ReadSckaPart(reader);
    var ec :- ReadEcPart(reader);
    var reserved :- reader.ReadUint(4);
    if reserved != 0 {
      return None;
    }
    if reader.off != |data| {
      return None;
    }
    var value := Rvft1(scka, ec);
    return if ValidRvft1(value) then Some(value) else None;
  }
}
