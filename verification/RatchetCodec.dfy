/** RVFT1: the canonical encoding of the ratchet state. */
module RatchetCodec {
  import opened Bytes
  import opened BraidState

  // ----- list items -----------------------------------------------------------------

  predicate ChainEntryFits(e: SckaChainEntry) { Fits(e.epoch, 8) && |e.ck| == 32 && Fits(e.n, 4) }

  function PutChainEntry(e: SckaChainEntry, rest: bytes): bytes {
    PutUint(e.epoch, 8, e.ck + PutUint(e.n, 4, rest))
  }

  function GetChainEntry(b: bytes): Parsed<SckaChainEntry> {
    var (epoch, b1) :- Uint(8, b);
    var (ck, b2) :- Take(32, b1);
    var (n, b3) :- Uint(4, b2);
    Some((SckaChainEntry(epoch, ck, n), b3))
  }

  lemma ChainEntryInverse()
    ensures Inverse(PutChainEntry, GetChainEntry, ChainEntryFits)
  {
    hide Uint, Take, PutUint, Fits;
    forall v: SckaChainEntry, rest: bytes | ChainEntryFits(v)
      ensures GetChainEntry(PutChainEntry(v, rest)) == Some((v, rest))
    {
      var r1 := PutUint(v.n, 4, rest);
      GetOfPutUint(v.epoch, 8, v.ck + r1);
      TakeOfConcat(v.ck, r1);
      GetOfPutUint(v.n, 4, rest);
    }
    forall b: bytes | GetChainEntry(b).Some?
      ensures ChainEntryFits(GetChainEntry(b).value.0)
      ensures b == PutChainEntry(GetChainEntry(b).value.0, GetChainEntry(b).value.1)
    {
      PutOfGetUint(8, b);
      var b1 := Uint(8, b).value.1;
      TakeInverse(32, b1);
      PutOfGetUint(4, Take(32, b1).value.1);
    }
  }

  predicate SckaSkippedFits(e: SckaSkippedEntry) {
    Fits(e.direction, 1) && Fits(e.epoch, 8) && Fits(e.n, 4) && |e.mk| == 32
  }

  function PutSckaSkipped(e: SckaSkippedEntry, rest: bytes): bytes {
    PutUint(e.direction, 1, PutUint(e.epoch, 8, PutUint(e.n, 4, e.mk + rest)))
  }

  function GetSckaSkipped(b: bytes): Parsed<SckaSkippedEntry> {
    var (direction, b1) :- Uint(1, b);
    var (epoch, b2) :- Uint(8, b1);
    var (n, b3) :- Uint(4, b2);
    var (mk, b4) :- Take(32, b3);
    Some((SckaSkippedEntry(direction, epoch, n, mk), b4))
  }

  lemma SckaSkippedInverse()
    ensures Inverse(PutSckaSkipped, GetSckaSkipped, SckaSkippedFits)
  {
    hide Uint, Take, PutUint, Fits;
    forall v: SckaSkippedEntry, rest: bytes | SckaSkippedFits(v)
      ensures GetSckaSkipped(PutSckaSkipped(v, rest)) == Some((v, rest))
    {
      var r1 := PutUint(v.n, 4, v.mk + rest);
      GetOfPutUint(v.direction, 1, PutUint(v.epoch, 8, r1));
      GetOfPutUint(v.epoch, 8, r1);
      GetOfPutUint(v.n, 4, v.mk + rest);
      TakeOfConcat(v.mk, rest);
    }
    forall b: bytes | GetSckaSkipped(b).Some?
      ensures SckaSkippedFits(GetSckaSkipped(b).value.0)
      ensures b == PutSckaSkipped(GetSckaSkipped(b).value.0, GetSckaSkipped(b).value.1)
    {
      PutOfGetUint(1, b);
      var b1 := Uint(1, b).value.1;
      PutOfGetUint(8, b1);
      var b2 := Uint(8, b1).value.1;
      PutOfGetUint(4, b2);
      TakeInverse(32, Uint(4, b2).value.1);
    }
  }

  predicate EcSkippedFits(e: EcSkippedEntry) { |e.dhPub| == 32 && Fits(e.n, 4) && |e.mk| == 32 }

  function PutEcSkipped(e: EcSkippedEntry, rest: bytes): bytes { e.dhPub + PutUint(e.n, 4, e.mk + rest) }

  function GetEcSkipped(b: bytes): Parsed<EcSkippedEntry> {
    var (dhPub, b1) :- Take(32, b);
    var (n, b2) :- Uint(4, b1);
    var (mk, b3) :- Take(32, b2);
    Some((EcSkippedEntry(dhPub, n, mk), b3))
  }

  lemma EcSkippedInverse()
    ensures Inverse(PutEcSkipped, GetEcSkipped, EcSkippedFits)
  {
    hide Uint, Take, PutUint, Fits;
    forall v: EcSkippedEntry, rest: bytes | EcSkippedFits(v)
      ensures GetEcSkipped(PutEcSkipped(v, rest)) == Some((v, rest))
    {
      TakeOfConcat(v.dhPub, PutUint(v.n, 4, v.mk + rest));
      GetOfPutUint(v.n, 4, v.mk + rest);
      TakeOfConcat(v.mk, rest);
    }
    forall b: bytes | GetEcSkipped(b).Some?
      ensures EcSkippedFits(GetEcSkipped(b).value.0)
      ensures b == PutEcSkipped(GetEcSkipped(b).value.0, GetEcSkipped(b).value.1)
    {
      TakeInverse(32, b);
      var b1 := Take(32, b).value.1;
      PutOfGetUint(4, b1);
      TakeInverse(32, Uint(4, b1).value.1);
    }
  }

  // ----- the post-quantum half ----------------------------------------------------------

  predicate SckaFits(v: Scka) {
    && |v.rk| == 32 && Fits(v.sendingEpoch, 8) && Fits(v.receivingEpoch, 8)
    && |v.sendChain| <= MAX_SCKA_CHAIN && (forall i :: 0 <= i < |v.sendChain| ==> ChainEntryFits(v.sendChain[i]))
    && |v.recvChain| <= MAX_SCKA_CHAIN && (forall i :: 0 <= i < |v.recvChain| ==> ChainEntryFits(v.recvChain[i]))
    && Fits(v.sendPn, 4)
    && |v.skipped| <= MAX_SCKA_SKIPPED && (forall i :: 0 <= i < |v.skipped| ==> SckaSkippedFits(v.skipped[i]))
  }

  function PutScka(v: Scka, rest: bytes): bytes {
    v.rk + PutUint(v.sendingEpoch, 8, PutUint(v.receivingEpoch, 8,
      PutCounted(PutChainEntry, v.sendChain, PutCounted(PutChainEntry, v.recvChain,
        PutUint(v.sendPn, 4, PutCounted(PutSckaSkipped, v.skipped, rest))))))
  }

  function GetScka(b: bytes): Parsed<Scka> {
    var (rk, b1) :- Take(32, b);
    var (sendingEpoch, b2) :- Uint(8, b1);
    var (receivingEpoch, b3) :- Uint(8, b2);
    var (sendChain, b4) :- GetCounted(MAX_SCKA_CHAIN, GetChainEntry, b3);
    var (recvChain, b5) :- GetCounted(MAX_SCKA_CHAIN, GetChainEntry, b4);
    var (sendPn, b6) :- Uint(4, b5);
    var (skipped, b7) :- GetCounted(MAX_SCKA_SKIPPED, GetSckaSkipped, b6);
    Some((Scka(rk, sendingEpoch, receivingEpoch, sendChain, recvChain, sendPn, skipped), b7))
  }

  lemma CountsFit()
    ensures forall n :: 0 <= n <= MAX_EC_SKIPPED ==> Fits(n, 2)
  {
    Widths();
  }

  lemma GetOfPutScka(v: Scka, rest: bytes)
    requires SckaFits(v)
    ensures GetScka(PutScka(v, rest)) == Some((v, rest))
  {
    hide Uint, Take, PutUint, Fits, PutCounted, GetCounted, ChainEntryFits, SckaSkippedFits;
    ChainEntryInverse();
    SckaSkippedInverse();
    CountsFit();
    var r6 := PutCounted(PutSckaSkipped, v.skipped, rest);
    var r5 := PutUint(v.sendPn, 4, r6);
    var r4 := PutCounted(PutChainEntry, v.recvChain, r5);
    var r3 := PutCounted(PutChainEntry, v.sendChain, r4);
    var r2 := PutUint(v.receivingEpoch, 8, r3);
    TakeOfConcat(v.rk, PutUint(v.sendingEpoch, 8, r2));
    GetOfPutUint(v.sendingEpoch, 8, r2);
    GetOfPutUint(v.receivingEpoch, 8, r3);
    GetOfPutCounted(PutChainEntry, GetChainEntry, ChainEntryFits, MAX_SCKA_CHAIN, v.sendChain, r4);
    GetOfPutCounted(PutChainEntry, GetChainEntry, ChainEntryFits, MAX_SCKA_CHAIN, v.recvChain, r5);
    GetOfPutUint(v.sendPn, 4, r6);
    GetOfPutCounted(PutSckaSkipped, GetSckaSkipped, SckaSkippedFits, MAX_SCKA_SKIPPED, v.skipped, rest);
  }

  lemma PutOfGetScka(b: bytes)
    requires GetScka(b).Some?
    ensures SckaFits(GetScka(b).value.0) && b == PutScka(GetScka(b).value.0, GetScka(b).value.1)
  {
    hide Uint, Take, PutUint, Fits, PutCounted, GetCounted, ChainEntryFits, SckaSkippedFits;
    ChainEntryInverse();
    SckaSkippedInverse();
    TakeInverse(32, b);
    var b1 := Take(32, b).value.1;
    PutOfGetUint(8, b1);
    var b2 := Uint(8, b1).value.1;
    PutOfGetUint(8, b2);
    var b3 := Uint(8, b2).value.1;
    PutOfGetCounted(PutChainEntry, GetChainEntry, ChainEntryFits, MAX_SCKA_CHAIN, b3);
    var b4 := GetCounted(MAX_SCKA_CHAIN, GetChainEntry, b3).value.1;
    PutOfGetCounted(PutChainEntry, GetChainEntry, ChainEntryFits, MAX_SCKA_CHAIN, b4);
    var b5 := GetCounted(MAX_SCKA_CHAIN, GetChainEntry, b4).value.1;
    PutOfGetUint(4, b5);
    var b6 := Uint(4, b5).value.1;
    PutOfGetCounted(PutSckaSkipped, GetSckaSkipped, SckaSkippedFits, MAX_SCKA_SKIPPED, b6);
  }

  // ----- the elliptic-curve half ------------------------------------------------------------

  predicate EcFits(v: Ec) {
    && |v.rk| == 32 && |v.dhsPriv| == 32 && |v.dhsPub| == 32
    && Fits(v.dhrPresent, 1) && |v.dhrPub| == 32
    && Fits(v.ckSendPresent, 1) && Fits(v.ckRecvPresent, 1) && |v.ckSend| == 32 && |v.ckRecv| == 32
    && Fits(v.ns, 4) && Fits(v.nr, 4) && Fits(v.pn, 4)
    && |v.skipped| <= MAX_EC_SKIPPED && (forall i :: 0 <= i < |v.skipped| ==> EcSkippedFits(v.skipped[i]))
  }

  /** An absent key is written as zeros whatever the field holds. */
  function KeyOrZero(present: int, key: bytes): bytes { if present == 1 then key else ZeroBytes(32) }

  function PutCounters(v: Ec, rest: bytes): bytes {
    PutUint(v.ns, 4, PutUint(v.nr, 4, PutUint(v.pn, 4, PutCounted(PutEcSkipped, v.skipped, rest))))
  }

  function PutEc(v: Ec, rest: bytes): bytes {
    v.rk + (v.dhsPriv + (v.dhsPub + PutUint(v.dhrPresent, 1, KeyOrZero(v.dhrPresent, v.dhrPub) +
      PutUint(v.ckSendPresent, 1, PutUint(v.ckRecvPresent, 1,
        KeyOrZero(v.ckSendPresent, v.ckSend) + (KeyOrZero(v.ckRecvPresent, v.ckRecv) + PutCounters(v, rest)))))))
  }

  function GetEc(b: bytes): Parsed<Ec> {
    var (rk, b1) :- Take(32, b);
    var (dhsPriv, b2) :- Take(32, b1);
    var (dhsPub, b3) :- Take(32, b2);
    var (dhrPresent, b4) :- Uint(1, b3);
    var (dhrPub, b5) :- Take(32, b4);
    var (ckSendPresent, b6) :- Uint(1, b5);
    var (ckRecvPresent, b7) :- Uint(1, b6);
    var (ckSend, b8) :- Take(32, b7);
    var (ckRecv, b9) :- Take(32, b8);
    var (ns, b10) :- Uint(4, b9);
    var (nr, b11) :- Uint(4, b10);
    var (pn, b12) :- Uint(4, b11);
    var (skipped, b13) :- GetCounted(MAX_EC_SKIPPED, GetEcSkipped, b12);
    Some((Ec(rk, dhsPriv, dhsPub, dhrPresent, dhrPub, ckSendPresent, ckRecvPresent, ckSend, ckRecv, ns, nr, pn, skipped), b13))
  }

  lemma KeyOrZeroOk(present: int, key: bytes)
    requires OptionalKeyOk(present, key)
    ensures KeyOrZero(present, key) == key
  {}

  lemma GetOfPutEc(v: Ec, rest: bytes)
    requires EcFits(v) && EcOk(v)
    ensures GetEc(PutEc(v, rest)) == Some((v, rest))
  {
    hide Uint, Take, PutUint, Fits, PutCounted, GetCounted, EcSkippedFits, KeyOrZero, OptionalKeyOk;
    EcSkippedInverse();
    CountsFit();
    KeyOrZeroOk(v.dhrPresent, v.dhrPub);
    KeyOrZeroOk(v.ckSendPresent, v.ckSend);
    KeyOrZeroOk(v.ckRecvPresent, v.ckRecv);
    var r12 := PutCounted(PutEcSkipped, v.skipped, rest);
    var r11 := PutUint(v.pn, 4, r12);
    var r10 := PutUint(v.nr, 4, r11);
    var r9 := PutUint(v.ns, 4, r10);
    var r8 := v.ckRecv + r9;
    var r7 := v.ckSend + r8;
    var r6 := PutUint(v.ckRecvPresent, 1, r7);
    var r5 := PutUint(v.ckSendPresent, 1, r6);
    var r4 := v.dhrPub + r5;
    var r3 := PutUint(v.dhrPresent, 1, r4);
    TakeOfConcat(v.rk, v.dhsPriv + (v.dhsPub + r3));
    TakeOfConcat(v.dhsPriv, v.dhsPub + r3);
    TakeOfConcat(v.dhsPub, r3);
    GetOfPutUint(v.dhrPresent, 1, r4);
    TakeOfConcat(v.dhrPub, r5);
    GetOfPutUint(v.ckSendPresent, 1, r6);
    GetOfPutUint(v.ckRecvPresent, 1, r7);
    TakeOfConcat(v.ckSend, r8);
    TakeOfConcat(v.ckRecv, r9);
    GetOfPutUint(v.ns, 4, r10);
    GetOfPutUint(v.nr, 4, r11);
    GetOfPutUint(v.pn, 4, r12);
    GetOfPutCounted(PutEcSkipped, GetEcSkipped, EcSkippedFits, MAX_EC_SKIPPED, v.skipped, rest);
  }

  lemma PutOfGetEc(b: bytes)
    requires GetEc(b).Some? && EcOk(GetEc(b).value.0)
    ensures EcFits(GetEc(b).value.0) && b == PutEc(GetEc(b).value.0, GetEc(b).value.1)
  {
    hide Uint, Take, PutUint, Fits, PutCounted, GetCounted, EcSkippedFits, KeyOrZero, OptionalKeyOk;
    EcSkippedInverse();
    var v := GetEc(b).value.0;
    KeyOrZeroOk(v.dhrPresent, v.dhrPub);
    KeyOrZeroOk(v.ckSendPresent, v.ckSend);
    KeyOrZeroOk(v.ckRecvPresent, v.ckRecv);
    TakeInverse(32, b);
    var b1 := Take(32, b).value.1;
    TakeInverse(32, b1);
    var b2 := Take(32, b1).value.1;
    TakeInverse(32, b2);
    var b3 := Take(32, b2).value.1;
    PutOfGetUint(1, b3);
    var b4 := Uint(1, b3).value.1;
    TakeInverse(32, b4);
    var b5 := Take(32, b4).value.1;
    PutOfGetUint(1, b5);
    var b6 := Uint(1, b5).value.1;
    PutOfGetUint(1, b6);
    var b7 := Uint(1, b6).value.1;
    TakeInverse(32, b7);
    var b8 := Take(32, b7).value.1;
    TakeInverse(32, b8);
    var b9 := Take(32, b8).value.1;
    PutOfGetUint(4, b9);
    var b10 := Uint(4, b9).value.1;
    PutOfGetUint(4, b10);
    var b11 := Uint(4, b10).value.1;
    PutOfGetUint(4, b11);
    var b12 := Uint(4, b11).value.1;
    PutOfGetCounted(PutEcSkipped, GetEcSkipped, EcSkippedFits, MAX_EC_SKIPPED, b12);
  }

  // ----- the whole record ------------------------------------------------------------------

  predicate Encodable(v: Rvft1) { SckaFits(v.scka) && EcFits(v.ec) }

  function PutRvft1(v: Rvft1): bytes {
    RVFT1_MAGIC + PutUint(1, 2, PutScka(v.scka, PutEc(v.ec, PutUint(0, 4, []))))
  }

  function EncodeRvft1(v: Rvft1): Option<bytes> {
    if !ValidRvft1(v) || !Encodable(v) then None
    else if |PutRvft1(v)| > RVFT1_MAX_SIZE then None
    else Some(PutRvft1(v))
  }

  /** Everything `decode_rvft1` reads, before validation. */
  function ReadRvft1(data: bytes): Option<Rvft1> {
    var (magic, b1) :- Take(8, data);
    var (schema, b2) :- Uint(2, b1);
    var (scka, b3) :- GetScka(b2);
    var (ec, b4) :- GetEc(b3);
    var (reserved, b5) :- Uint(4, b4);
    if magic != RVFT1_MAGIC || schema != 1 || reserved != 0 || b5 != [] then None
    else Some(Rvft1(scka, ec))
  }

  function DecodeRvft1(data: bytes): Option<Rvft1> {
    if |data| > RVFT1_MAX_SIZE then None
    else
      var v :- ReadRvft1(data);
      if ValidRvft1(v) then Some(v) else None
  }

  lemma {:induction false} SmallFits()
    ensures Fits(0, 4) && Fits(1, 2) && Fits(0, 1) && Fits(1, 1)
  {
    Widths();
  }

  lemma ReadOfPut(v: Rvft1)
    requires ValidRvft1(v) && Encodable(v)
    ensures ReadRvft1(PutRvft1(v)) == Some(v)
  {
    hide Uint, Take, PutUint, Fits, GetScka, GetEc, PutScka, PutEc, SckaFits, EcFits, SckaOk, EcOk;
    SmallFits();
    var r3 := PutUint(0, 4, []);
    var r2 := PutEc(v.ec, r3);
    var r1 := PutScka(v.scka, r2);
    TakeOfConcat(RVFT1_MAGIC, PutUint(1, 2, r1));
    GetOfPutUint(1, 2, r1);
    GetOfPutScka(v.scka, r2);
    GetOfPutEc(v.ec, r3);
    GetOfPutUint(0, 4, []);
  }

  lemma PutOfRead(data: bytes)
    requires ReadRvft1(data).Some? && ValidRvft1(ReadRvft1(data).value)
    ensures Encodable(ReadRvft1(data).value) && PutRvft1(ReadRvft1(data).value) == data
  {
    hide Uint, Take, PutUint, Fits, GetScka, GetEc, PutScka, PutEc, SckaFits, EcFits, SckaOk, EcOk;
    TakeInverse(8, data);
    var b1 := Take(8, data).value.1;
    PutOfGetUint(2, b1);
    var b2 := Uint(2, b1).value.1;
    PutOfGetScka(b2);
    var b3 := GetScka(b2).value.1;
    PutOfGetEc(b3);
    PutOfGetUint(4, GetEc(b3).value.1);
  }

  // ----- size ------------------------------------------------------------------------------

  lemma ChainLength(chain: seq<SckaChainEntry>, rest: bytes)
    requires forall i :: 0 <= i < |chain| ==> |chain[i].ck| == 32
    ensures |PutCounted(PutChainEntry, chain, rest)| == 2 + 44 * |chain| + |rest|
  {
    hide PutMany;
    forall i, r: bytes | 0 <= i < |chain| ensures |PutChainEntry(chain[i], r)| == 44 + |r| {}
    PutManyLength(PutChainEntry, chain, rest, 44);
  }

  lemma SckaSkippedLength(skipped: seq<SckaSkippedEntry>, rest: bytes)
    requires forall i :: 0 <= i < |skipped| ==> |skipped[i].mk| == 32
    ensures |PutCounted(PutSckaSkipped, skipped, rest)| == 2 + 45 * |skipped| + |rest|
  {
    hide PutMany;
    forall i, r: bytes | 0 <= i < |skipped| ensures |PutSckaSkipped(skipped[i], r)| == 45 + |r| {}
    PutManyLength(PutSckaSkipped, skipped, rest, 45);
  }

  lemma EcSkippedLength(skipped: seq<EcSkippedEntry>, rest: bytes)
    requires forall i :: 0 <= i < |skipped| ==> |skipped[i].dhPub| == 32 && |skipped[i].mk| == 32
    ensures |PutCounted(PutEcSkipped, skipped, rest)| == 2 + 68 * |skipped| + |rest|
  {
    hide PutMany;
    forall i, r: bytes | 0 <= i < |skipped| ensures |PutEcSkipped(skipped[i], r)| == 68 + |r| {}
    PutManyLength(PutEcSkipped, skipped, rest, 68);
  }

  lemma SckaLength(v: Scka, rest: bytes)
    requires SckaOk(v)
    ensures |PutScka(v, rest)| == 58 + 44 * |v.sendChain| + 44 * |v.recvChain| + 45 * |v.skipped| + |rest|
  {
    hide PutCounted, BE;
    var r2 := PutUint(v.sendPn, 4, PutCounted(PutSckaSkipped, v.skipped, rest));
    SckaSkippedLength(v.skipped, rest);
    ChainLength(v.recvChain, r2);
    ChainLength(v.sendChain, PutCounted(PutChainEntry, v.recvChain, r2));
  }

  lemma EcLength(v: Ec, rest: bytes)
    requires EcOk(v)
    ensures |PutEc(v, rest)| == 209 + 68 * |v.skipped| + |rest|
  {
    hide PutCounted, BE;
    EcSkippedLength(v.skipped, rest);
  }

  predicate AtCaps(v: Rvft1) {
    && |v.scka.sendChain| == MAX_SCKA_CHAIN && |v.scka.recvChain| == MAX_SCKA_CHAIN
    && |v.scka.skipped| == MAX_SCKA_SKIPPED && |v.ec.skipped| == MAX_EC_SKIPPED
  }

  /** The size cap never fires on a valid value, and is met exactly when every list is full. */
  lemma SizeCap(v: Rvft1)
    requires ValidRvft1(v)
    ensures |PutRvft1(v)| <= RVFT1_MAX_SIZE
    ensures |PutRvft1(v)| == RVFT1_MAX_SIZE <==> AtCaps(v)
  {
    hide PutScka, PutEc;
    SckaLength(v.scka, PutEc(v.ec, PutUint(0, 4, [])));
    EcLength(v.ec, PutUint(0, 4, []));
  }

  /** RVFT1 encoding and decoding are inverse to each other, in both directions. */
  lemma Rvft1Inverse(v: Rvft1, data: bytes)
    ensures EncodeRvft1(v) == Some(data) <==> DecodeRvft1(data) == Some(v)
  {
    hide ReadRvft1, PutRvft1, ValidRvft1, Encodable;
    if EncodeRvft1(v) == Some(data) {
      ReadOfPut(v);
    }
    if DecodeRvft1(data) == Some(v) {
      PutOfRead(data);
      SizeCap(v);
    }
  }
}
