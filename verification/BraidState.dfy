/** The records of the Full Braid state and the checks `_validate_rvft1` and `_validate_state` make. */
module BraidState {
  import opened Bytes
  import opened ByteOrder

  const MAX_SCKA_CHAIN := 8
  const MAX_SCKA_SKIPPED := 256
  const MAX_EC_SKIPPED := 1000
  const RVFT1_MAX_SIZE := 80505
  const MAX_INBOUND_SETS := 8
  const MAX_OBJECTS := 32
  const MAX_REPLAYS := 64
  const MAX_CHUNKS := 64
  const MAX_CHUNK_INDEX := 63

  const KIND_HDR := 1
  const KIND_CT1 := 5
  const KIND_CT2 := 6

  const RVFT1_MAGIC: bytes := [0x52, 0x56, 0x46, 0x54, 0x31, 0, 0, 0]
  const RVFB1_MAGIC: bytes := [0x52, 0x56, 0x46, 0x42, 0x31, 0, 0, 0]

  // ----- the ratchet part (RVFT1) -----------------------------------------------

  datatype SckaChainEntry = SckaChainEntry(epoch: int, ck: bytes, n: int)
  datatype SckaSkippedEntry = SckaSkippedEntry(direction: int, epoch: int, n: int, mk: bytes)
  datatype EcSkippedEntry = EcSkippedEntry(dhPub: bytes, n: int, mk: bytes)

  datatype Scka = Scka(
    rk: bytes, sendingEpoch: int, receivingEpoch: int,
    sendChain: seq<SckaChainEntry>, recvChain: seq<SckaChainEntry>,
    sendPn: int, skipped: seq<SckaSkippedEntry>)

  datatype Ec = Ec(
    rk: bytes, dhsPriv: bytes, dhsPub: bytes,
    dhrPresent: int, dhrPub: bytes,
    ckSendPresent: int, ckRecvPresent: int, ckSend: bytes, ckRecv: bytes,
    ns: int, nr: int, pn: int, skipped: seq<EcSkippedEntry>)

  datatype Rvft1 = Rvft1(scka: Scka, ec: Ec)

  predicate IsBit(x: int) { x == 0 || x == 1 }

  /** `_strictly_sorted`: every neighbouring pair increases. */
  predicate StrictlySorted<T>(lt: (T, T) -> bool, s: seq<T>) {
    forall i :: 0 <= i < |s| - 1 ==> lt(s[i], s[i + 1])
  }

  predicate LtTriple(a: (int, int, int), b: (int, int, int)) {
    a.0 < b.0 || (a.0 == b.0 && (a.1 < b.1 || (a.1 == b.1 && a.2 < b.2)))
  }

  predicate LtChain(a: SckaChainEntry, b: SckaChainEntry) { a.epoch < b.epoch }
  predicate LtScka(a: SckaSkippedEntry, b: SckaSkippedEntry) {
    LtTriple((a.direction, a.epoch, a.n), (b.direction, b.epoch, b.n))
  }
  predicate LtEc(a: EcSkippedEntry, b: EcSkippedEntry) {
    LtBytes(a.dhPub, b.dhPub) || (a.dhPub == b.dhPub && a.n < b.n)
  }

  predicate OptionalKeyOk(present: int, key: bytes) {
    |key| == 32 && (present == 1 || (present == 0 && key == ZeroBytes(32)))
  }

  predicate ChainOk(chain: seq<SckaChainEntry>) {
    && |chain| <= MAX_SCKA_CHAIN
    && StrictlySorted(LtChain, chain)
    && forall i :: 0 <= i < |chain| ==> |chain[i].ck| == 32
  }

  predicate SckaOk(v: Scka) {
    && |v.rk| == 32
    && ChainOk(v.sendChain) && ChainOk(v.recvChain)
    && |v.skipped| <= MAX_SCKA_SKIPPED
    && StrictlySorted(LtScka, v.skipped)
    && forall i :: 0 <= i < |v.skipped| ==> IsBit(v.skipped[i].direction) && |v.skipped[i].mk| == 32
  }

  predicate EcOk(v: Ec) {
    && |v.rk| == 32 && |v.dhsPriv| == 32 && |v.dhsPub| == 32
    && |v.skipped| <= MAX_EC_SKIPPED
    && StrictlySorted(LtEc, v.skipped)
    && (forall i :: 0 <= i < |v.skipped| ==> |v.skipped[i].dhPub| == 32 && |v.skipped[i].mk| == 32)
    && OptionalKeyOk(v.dhrPresent, v.dhrPub)
    && OptionalKeyOk(v.ckSendPresent, v.ckSend)
    && OptionalKeyOk(v.ckRecvPresent, v.ckRecv)
  }

  /** `_validate_rvft1` */
  predicate ValidRvft1(v: Rvft1) { SckaOk(v.scka) && EcOk(v.ec) }

  // ----- the session part (RVFB1) --------------------------------------------------

  datatype Prefix = Prefix(
    sessionId: bytes, role: int, generation: int, agent: int, terminalReason: int,
    authRoot: bytes, authMacKey: bytes,
    agentEpoch: int, sendEpoch: int, recvEpoch: int,
    flags: int, pendingPhase: int,
    pendingTransitionId: bytes, pendingBeforeDigest: bytes,
    pendingOutputDigest: bytes, pendingExecutionDigest: bytes)

  datatype InboundChunk = InboundChunk(index: int, payload: bytes)
  datatype InboundSet = InboundSet(
    direction: int, epoch: int, sourceKind: int, expectedLen: int, maxIndex: int,
    bitmap: bytes, chunks: seq<InboundChunk>)
  datatype ActiveSend = ActiveSend(
    direction: int, epoch: int, wireType: int, sourceKind: int, sourceLen: int,
    sourceDigest: bytes, source: bytes, nextIndex: int)
  datatype BraidObject = BraidObject(direction: int, epoch: int, sourceKind: int, digest: bytes)
  datatype ReplayRecord = ReplayRecord(
    transitionId: bytes, executionDigest: bytes, outputDigest: bytes, outputLen: int, flags: int)
  datatype Tlv = Tlv(tag: int, value: bytes)

  datatype State = State(
    prefix: Prefix, inbound: seq<InboundSet>, active: Option<ActiveSend>,
    objects: seq<BraidObject>, replays: seq<ReplayRecord>, tlvs: seq<Tlv>, tr: bytes)

  predicate LtInbound(a: InboundSet, b: InboundSet) {
    LtTriple((a.direction, a.epoch, a.sourceKind), (b.direction, b.epoch, b.sourceKind))
  }
  predicate LtObject(a: BraidObject, b: BraidObject) {
    LtTriple((a.direction, a.epoch, a.sourceKind), (b.direction, b.epoch, b.sourceKind))
  }
  predicate LtReplay(a: ReplayRecord, b: ReplayRecord) { LtBytes(a.transitionId, b.transitionId) }
  predicate LtTlv(a: Tlv, b: Tlv) { a.tag < b.tag }
  predicate LtChunk(a: InboundChunk, b: InboundChunk) { a.index < b.index }

  /** `SOURCE_LENGTHS` */
  function SourceLength(kind: int): Option<nat> {
    match kind
    case 1 => Some(96)
    case 2 => Some(1152)
    case 5 => Some(960)
    case 6 => Some(160)
    case _ => None
  }

  /** `TLV_LENGTHS` */
  function TlvLength(tag: int): Option<nat> {
    match tag
    case 1 => Some(2400)
    case 2 => Some(32)
    case 3 => Some(32)
    case 4 => Some(1152)
    case 5 => Some(2080)
    case 6 => Some(960)
    case 7 => Some(128)
    case 8 => Some(64)
    case _ => None
  }

  predicate KnownAgent(agent: int) { 0 <= agent <= 11 }

  /** `_TLV_MATRIX`, first column: the tags an agent state requires. */
  predicate RequiresTag(agent: int, tag: int) {
    match agent
    case 1 => tag == 1 || tag == 2 || tag == 3 || tag == 4 || tag == 8
    case 2 => tag == 1 || tag == 4
    case 3 => tag == 1 || tag == 4 || tag == 6
    case 4 => tag == 1 || tag == 6
    case 6 => tag == 2 || tag == 3
    case 7 => tag == 2 || tag == 3 || tag == 5 || tag == 6
    case 8 => tag == 2 || tag == 3 || tag == 4 || tag == 5 || tag == 6
    case 9 => tag == 2 || tag == 3 || tag == 5 || tag == 6
    case 10 => tag == 7
    case _ => false
  }

  /** First and second column together; every other tag is forbidden. */
  predicate AllowsTag(agent: int, tag: int) { RequiresTag(agent, tag) || (agent == 10 && tag == 6) }

  /** `_validate_tlvs_for_agent` */
  predicate TlvsOk(agent: int, tlvs: seq<Tlv>) {
    && KnownAgent(agent)
    && (forall i :: 0 <= i < |tlvs| ==>
          TlvLength(tlvs[i].tag) == Some(|tlvs[i].value|) && AllowsTag(agent, tlvs[i].tag))
    && (forall tag | 1 <= tag <= 8 :: RequiresTag(agent, tag) ==> HasTag(tlvs, tag))
  }

  predicate HasTag(tlvs: seq<Tlv>, tag: int) {
    exists i :: 0 <= i < |tlvs| && tlvs[i].tag == tag
  }

  // ----- bitmaps ---------------------------------------------------------------------

  function BitWeight(k: nat): (w: nat)
    requires k < 8
    ensures 1 <= w <= 128
  {
    match k
    case 0 => 1
    case 1 => 2
    case 2 => 4
    case 3 => 8
    case 4 => 16
    case 5 => 32
    case 6 => 64
    case _ => 128
  }

  /** `b & (1 << k) != 0` */
  predicate TestBit(b: byte, k: nat)
    requires k < 8
  {
    (b / BitWeight(k)) % 2 == 1
  }

  predicate BitmapGet(bitmap: bytes, i: nat)
    requires i / 8 < |bitmap|
  {
    TestBit(bitmap[i / 8], i % 8)
  }

  /** Bitmap and chunk list name exactly the same indices. */
  predicate BitmapAgrees(bitmap: bytes, chunks: seq<InboundChunk>)
    requires |bitmap| == 8
  {
    forall i: nat :: i < 64 ==> (BitmapGet(bitmap, i) <==> exists j :: 0 <= j < |chunks| && chunks[j].index == i)
  }

  /** The part of `_validate_inbound_set` that concerns the received chunks. */
  predicate ChunksOk(bitmap: bytes, chunks: seq<InboundChunk>) {
    && |bitmap| == 8
    && |chunks| <= MAX_CHUNKS
    && StrictlySorted(LtChunk, chunks)
    && (forall i :: 0 <= i < |chunks| ==> 0 <= chunks[i].index <= MAX_CHUNK_INDEX && |chunks[i].payload| == 32)
    && BitmapAgrees(bitmap, chunks)
  }

  /** `_validate_inbound_set` */
  predicate InboundOk(s: InboundSet) {
    && IsBit(s.direction)
    && SourceLength(s.sourceKind) == Some(s.expectedLen)
    && s.maxIndex == MAX_CHUNK_INDEX
    && ChunksOk(s.bitmap, s.chunks)
  }

  predicate ActiveOk(a: ActiveSend) {
    IsBit(a.direction) && |a.source| == a.sourceLen && |a.sourceDigest| == 32 && a.nextIndex <= MAX_CHUNKS
  }

  /** `_validate_state` */
  predicate ValidState(s: State) {
    && IsBit(s.prefix.role)
    && |s.inbound| <= MAX_INBOUND_SETS && |s.objects| <= MAX_OBJECTS && |s.replays| <= MAX_REPLAYS
    && StrictlySorted(LtInbound, s.inbound)
    && (forall i :: 0 <= i < |s.inbound| ==> InboundOk(s.inbound[i]))
    && StrictlySorted(LtObject, s.objects)
    && StrictlySorted(LtReplay, s.replays)
    && StrictlySorted(LtTlv, s.tlvs)
    && (forall i :: 0 <= i < |s.replays| ==>
          |s.replays[i].transitionId| == 32 && |s.replays[i].executionDigest| == 32 && |s.replays[i].outputDigest| == 32)
    && TlvsOk(s.prefix.agent, s.tlvs)
    && (s.active.Some? ==> ActiveOk(s.active.value))
    && |s.tr| >= 8 && s.tr[..8] == RVFT1_MAGIC
  }
}
