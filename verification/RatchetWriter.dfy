/** `encode_rvft1` as the source writes it: a buffer grown field by field, list by list. */
module RatchetWriter {
  import opened Bytes
  import opened BraidState
  import opened RatchetCodec
  import opened WireWriting

  method WriteChainEntry(out: bytes, e: SckaChainEntry, ghost rest: bytes) returns (r: Option<bytes>)
    requires |e.ck| == 32
    ensures r.Some? <==> ChainEntryFits(e)
    ensures r.Some? ==> r.value + rest == out + PutChainEntry(e, rest)
  {
    hide PutUint, Fits;
    var o1 :- WriteUint(out, e.epoch, 8, e.ck + PutUint(e.n, 4, rest));
    var o2 := WriteBytes(o1, e.ck, PutUint(e.n, 4, rest));
    r := WriteUint(o2, e.n, 4, rest);
  }

  method WriteChain(out: bytes, items: seq<SckaChainEntry>, ghost rest: bytes) returns (r: Option<bytes>)
    requires |items| <= MAX_SCKA_CHAIN && forall i :: 0 <= i < |items| ==> |items[i].ck| == 32
    ensures r.Some? <==> forall i :: 0 <= i < |items| ==> ChainEntryFits(items[i])
    ensures r.Some? ==> r.value + rest == out + PutCounted(PutChainEntry, items, rest)
  {
    hide PutMany, PutUint, ChainEntryFits, PutChainEntry, Fits;
    CountsFit();
    var o := WriteSmall(out, |items|, 2, PutMany(PutChainEntry, items, rest));
    ManyStart(PutChainEntry, items, rest);
    var i := 0;
    while i < |items|
      invariant 0 <= i <= |items| && forall j :: 0 <= j < i ==> ChainEntryFits(items[j])
      invariant o + PutMany(PutChainEntry, items[i..], rest) == out + PutCounted(PutChainEntry, items, rest)
    {
      ManyStep(PutChainEntry, items, i, rest);
      o :- WriteChainEntry(o, items[i], PutMany(PutChainEntry, items[i + 1..], rest));
      i := i + 1;
    }
    ManyEnd(PutChainEntry, items, rest);
    return Some(o);
  }

  method WriteSckaSkippedEntry(out: bytes, e: SckaSkippedEntry, ghost rest: bytes) returns (r: Option<bytes>)
    requires |e.mk| == 32
    ensures r.Some? <==> SckaSkippedFits(e)
    ensures r.Some? ==> r.value + rest == out + PutSckaSkipped(e, rest)
  {
    hide PutUint, Fits;
    ghost var r2 := PutUint(e.n, 4, e.mk + rest);
    var o :- WriteUint(out, e.direction, 1, PutUint(e.epoch, 8, r2));
    o :- WriteUint(o, e.epoch, 8, r2);
    o :- WriteUint(o, e.n, 4, e.mk + rest);
    o := WriteBytes(o, e.mk, rest);
    return Some(o);
  }

  method WriteSckaSkipped(out: bytes, items: seq<SckaSkippedEntry>, ghost rest: bytes) returns (r: Option<bytes>)
    requires |items| <= MAX_SCKA_SKIPPED && forall i :: 0 <= i < |items| ==> |items[i].mk| == 32
    ensures r.Some? <==> forall i :: 0 <= i < |items| ==> SckaSkippedFits(items[i])
    ensures r.Some? ==> r.value + rest == out + PutCounted(PutSckaSkipped, items, rest)
  {
    hide PutMany, PutUint, SckaSkippedFits, PutSckaSkipped, Fits;
    CountsFit();
    var o := WriteSmall(out, |items|, 2, PutMany(PutSckaSkipped, items, rest));
    ManyStart(PutSckaSkipped, items, rest);
    var i := 0;
    while i < |items|
      invariant 0 <= i <= |items| && forall j :: 0 <= j < i ==> SckaSkippedFits(items[j])
      invariant o + PutMany(PutSckaSkipped, items[i..], rest) == out + PutCounted(PutSckaSkipped, items, rest)
    {
      ManyStep(PutSckaSkipped, items, i, rest);
      o :- WriteSckaSkippedEntry(o, items[i], PutMany(PutSckaSkipped, items[i + 1..], rest));
      i := i + 1;
    }
    ManyEnd(PutSckaSkipped, items, rest);
    return Some(o);
  }

  method WriteEcSkippedEntry(out: bytes, e: EcSkippedEntry, ghost rest: bytes) returns (r: Option<bytes>)
    requires |e.dhPub| == 32 && |e.mk| == 32
    ensures r.Some? <==> EcSkippedFits(e)
    ensures r.Some? ==> r.value + rest == out + PutEcSkipped(e, rest)
  {
    hide PutUint, Fits;
    var o := WriteBytes(out, e.dhPub, PutUint(e.n, 4, e.mk + rest));
    o :- WriteUint(o, e.n, 4, e.mk + rest);
    o := WriteBytes(o, e.mk, rest);
    return Some(o);
  }

  method WriteEcSkipped(out: bytes, items: seq<EcSkippedEntry>, ghost rest: bytes) returns (r: Option<bytes>)
    requires |items| <= MAX_EC_SKIPPED && forall i :: 0 <= i < |items| ==> |items[i].dhPub| == 32 && |items[i].mk| == 32
    ensures r.Some? <==> forall i :: 0 <= i < |items| ==> EcSkippedFits(items[i])
    ensures r.Some? ==> r.value + rest == out + PutCounted(PutEcSkipped, items, rest)
  {
    hide PutMany, PutUint, EcSkippedFits, PutEcSkipped, Fits;
    CountsFit();
    var o := WriteSmall(out, |items|, 2, PutMany(PutEcSkipped, items, rest));
    ManyStart(PutEcSkipped, items, rest);
    var i := 0;
    while i < |items|
      invariant 0 <= i <= |items| && forall j :: 0 <= j < i ==> EcSkippedFits(items[j])
      invariant o + PutMany(PutEcSkipped, items[i..], rest) == out + PutCounted(PutEcSkipped, items, rest)
    {
      ManyStep(PutEcSkipped, items, i, rest);
      o :- WriteEcSkippedEntry(o, items[i], PutMany(PutEcSkipped, items[i + 1..], rest));
      i := i + 1;
    }
    ManyEnd(PutEcSkipped, items, rest);
    return Some(o);
  }

  method WriteScka(out: bytes, v: Scka, ghost rest: bytes) returns (r: Option<bytes>)
    requires SckaOk(v)
    ensures r.Some? <==> SckaFits(v)
    ensures r.Some? ==> r.value + rest == out + PutScka(v, rest)
  {
    hide PutUint, PutCounted, Fits, ChainEntryFits, SckaSkippedFits, StrictlySorted;
    ghost var r6 := PutCounted(PutSckaSkipped, v.skipped, rest);
    ghost var r5 := PutUint(v.sendPn, 4, r6);
    ghost var r4 := PutCounted(PutChainEntry, v.recvChain, r5);
    ghost var r3 := PutCounted(PutChainEntry, v.sendChain, r4);
    ghost var r2 := PutUint(v.receivingEpoch, 8, r3);
    var o := WriteBytes(out, v.rk, PutUint(v.sendingEpoch, 8, r2));
    o :- WriteUint(o, v.sendingEpoch, 8, r2);
    o :- WriteUint(o, v.receivingEpoch, 8, r3);
    o :- WriteChain(o, v.sendChain, r4);
    o :- WriteChain(o, v.recvChain, r5);
    o :- WriteUint(o, v.sendPn, 4, r6);
    r := WriteSckaSkipped(o, v.skipped, rest);
  }

  method WriteEc(out: bytes, v: Ec, ghost rest: bytes) returns (r: Option<bytes>)
    requires EcOk(v)
    ensures r.Some? <==> EcFits(v)
    ensures r.Some? ==> r.value + rest == out + PutEc(v, rest)
  {
    hide PutUint, PutCounted, Fits, EcSkippedFits, StrictlySorted, KeyOrZero;
    PresenceFits(v);
    ghost var r12 := PutCounted(PutEcSkipped, v.skipped, rest);
    ghost var r11 := PutUint(v.pn, 4, r12);
    ghost var r10 := PutUint(v.nr, 4, r11);
    ghost var r9 := PutUint(v.ns, 4, r10);
    ghost var r8 := KeyOrZero(v.ckRecvPresent, v.ckRecv) + r9;
    ghost var r7 := KeyOrZero(v.ckSendPresent, v.ckSend) + r8;
    ghost var r6 := PutUint(v.ckRecvPresent, 1, r7);
    ghost var r5 := PutUint(v.ckSendPresent, 1, r6);
    ghost var r4 := KeyOrZero(v.dhrPresent, v.dhrPub) + r5;
    ghost var r3 := PutUint(v.dhrPresent, 1, r4);
    var o := WriteBytes(out, v.rk, v.dhsPriv + (v.dhsPub + r3));
    o := WriteBytes(o, v.dhsPriv, v.dhsPub + r3);
    o := WriteBytes(o, v.dhsPub, r3);
    o := WriteSmall(o, v.dhrPresent, 1, r4);
    o := WriteBytes(o, KeyOrZero(v.dhrPresent, v.dhrPub), r5);
    o := WriteSmall(o, v.ckSendPresent, 1, r6);
    o := WriteSmall(o, v.ckRecvPresent, 1, r7);
    o := WriteBytes(o, KeyOrZero(v.ckSendPresent, v.ckSend), r8);
    o := WriteBytes(o, KeyOrZero(v.ckRecvPresent, v.ckRecv), r9);
    o :- WriteUint(o, v.ns, 4, r10);
    o :- WriteUint(o, v.nr, 4, r11);
    o :- WriteUint(o, v.pn, 4, r12);
    r := WriteEcSkipped(o, v.skipped, rest);
  }

  lemma PresenceFits(v: Ec)
    requires EcOk(v)
    ensures Fits(v.dhrPresent, 1) && Fits(v.ckSendPresent, 1) && Fits(v.ckRecvPresent, 1)
  {
    SmallFits();
  }

  /** `encode_rvft1` */
  method EncodeRvft1Value(v: Rvft1) returns (r: Option<bytes>)
    ensures r == EncodeRvft1(v)
  {
    hide PutUint, Fits, PutScka, PutEc, SckaOk, EcOk, SckaFits, EcFits;
    if !ValidRvft1(v) {
      return None;
    }
    SmallFits();
    ghost var r3 := PutUint(0, 4, []);
    ghost var r2 := PutEc(v.ec, r3);
    ghost var r1 := PutScka(v.scka, r2);
    var o := WriteSmall(RVFT1_MAGIC, 1, 2, r1);
    o :- WriteScka(o, v.scka, r2);
    o :- WriteEc(o, v.ec, r3);
    o := WriteSmall(o, 0, 4, []);
    assert o + [] == o;
    if |o| > RVFT1_MAX_SIZE {
      return None;
    }
    return Some(o);
  }
}
