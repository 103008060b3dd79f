/** The four accepted transitions of a Full Braid session, from one canonical state to the next. */
module BraidTransition {
  import opened Bytes
  import opened BraidState
  import opened BraidChunks
  import opened Bitmap
  import opened SckaChain
  import RatchetCodec
  import BraidCodec

  const WIRE_HDR := 1
  const WIRE_CT1 := 5
  const WIRE_CT2 := 6

  const KEYS_UNSAMPLED := 0
  const KEYS_SAMPLED := 1
  const EK_SENT_CT1_RECEIVED := 4
  const NO_HEADER_RECEIVED := 5
  const HEADER_RECEIVED := 6
  const CT1_SAMPLED := 7

  type Key = k: bytes | |k| == 32 witness ZeroBytes(32)

  /** Key material supplied at the ML-KEM boundary, with the lengths its constructors enforce. */
  datatype KeygenMaterial = KeygenMaterial(dk: bytes, header: bytes, ekVector: bytes)
  datatype PromoteMaterial = PromoteMaterial(sharedSecret: Key, encapsState: bytes, ct1: bytes)

  predicate KeygenOk(m: KeygenMaterial) { |m.dk| == 2400 && |m.header| == 64 && |m.ekVector| == 1152 }
  predicate PromoteOk(m: PromoteMaterial) {
    (m.encapsState == [] || |m.encapsState| == 2080) && (m.ct1 == [] || |m.ct1| == 960)
  }

  /** What `_confirm_send` produces: the elliptic-curve half, the chain header's wire and the ciphertext. */
  datatype Sealed = Sealed(ec: Ec, header: bytes, ciphertext: bytes)

  /**
   * The cryptographic steps, as arbitrary functions. `sendStep` and `recvStep` stand for
   * `_confirm_send` and `_confirm_receive` up to what they produce: trust evidence, chain header,
   * AEAD comparison and the DH ratchet; they may refuse.
   */
  datatype Crypto = Crypto(
    macHdr: (bytes, int, bytes) -> Key,
    sourceDigest: bytes -> Key,
    bind: Binding,
    encapsSecret: (bytes, bytes) -> Key,
    outputKey: (Key, int) -> Key,
    authUpdate: (bytes, int, Key) -> (Key, Key),
    verifyCt: (Key, int, bytes, bytes) -> bool,
    rootStep: (bytes, Key) -> (Key, Key),
    sendStep: (Prefix, Rvft1, Frame, Key, int) -> Option<Sealed>,
    recvStep: (Prefix, Rvft1, Frame, Key, int) -> Option<Ec>)

  // ----- parts ----------------------------------------------------------------------------

  function TlvValue(tlvs: seq<Tlv>, tag: int): Option<bytes> {
    if tlvs == [] then None
    else if tlvs[0].tag == tag then Some(tlvs[0].value)
    else TlvValue(tlvs[1..], tag)
  }

  /** `_tlv_value`: the first entry with the tag, of the expected length. */
  function TlvOfLength(tlvs: seq<Tlv>, tag: int, length: nat): Option<bytes> {
    var v :- TlvValue(tlvs, tag);
    if |v| == length then Some(v) else None
  }

  function NewActive(c: Crypto, direction: int, epoch: int, wireType: int, kind: int, source: bytes): ActiveSend {
    ActiveSend(direction, epoch, wireType, kind, |source|, c.sourceDigest(source), source, 0)
  }

  /** `flags & ~(1 << 2)` on a non-negative flag word. */
  function ClearAckFlag(flags: int): int { if (flags / 4) % 2 == 1 then flags - 4 else flags }

  /** The SCKA root step and chain insertion of `_promote_scka_send`. */
  function PromoteSend(c: Crypto, v: Rvft1, epoch: int, key: Key): Option<Rvft1> {
    if key == ZeroBytes(32) then None
    else
      var (rk, ck) := c.rootStep(v.scka.rk, key);
      Some(v.(scka := v.scka.(rk := rk, sendingEpoch := epoch,
                              sendChain := InsertChain(v.scka.sendChain, SckaChainEntry(epoch, ck, 0)))))
  }

  function PromoteReceive(c: Crypto, v: Rvft1, epoch: int, key: Key): Option<Rvft1> {
    if key == ZeroBytes(32) then None
    else
      var (rk, ck) := c.rootStep(v.scka.rk, key);
      Some(v.(scka := v.scka.(rk := rk, receivingEpoch := epoch,
                              recvChain := InsertChain(v.scka.recvChain, SckaChainEntry(epoch, ck, 0)))))
  }

  // ----- the four transitions -----------------------------------------------------------------

  /** `_apply_keys_unsampled_send`: publish the header and start sending it. */
  function KeySend(c: Crypto, s: State, m: KeygenMaterial, direction: int): Option<(State, Frame)> {
    if s.prefix.agent != KEYS_UNSAMPLED || !KeygenOk(m) then None
    else
      var ep := s.prefix.agentEpoch;
      var source := m.header + c.macHdr(s.prefix.authMacKey, ep, m.header);
      var payload :- SystematicChunk(source, 0);
      var frame := Frame(ep, WIRE_HDR, 0, payload, c.bind(direction, ep, WIRE_HDR, 0, payload, s.prefix.sessionId));
      Some((s.(tlvs := [Tlv(1, m.dk), Tlv(2, m.header[..32]), Tlv(3, m.header[32..]), Tlv(4, m.ekVector), Tlv(8, m.header)],
               active := Some(NewActive(c, direction, ep, WIRE_HDR, KIND_HDR, source).(nextIndex := 1)),
               prefix := s.prefix.(agent := KEYS_SAMPLED, sendEpoch := ep - 1)), frame))
  }

  /** `_apply_hdr_receive`: the first header chunk of the peer. */
  function HeaderReceive(s: State, f: Frame): Option<State> {
    var ep := s.prefix.agentEpoch;
    if s.prefix.agent != NO_HEADER_RECEIVED || f.epoch != ep || f.chunkType != WIRE_HDR then None
    else if |s.inbound| != 1 then None
    else
      var set0 := s.inbound[0];
      if set0.sourceKind != KIND_HDR || set0.chunks != [] || f.index < 0 || f.index / 8 >= |set0.bitmap| then None
      else Some(s.(inbound := [set0.(bitmap := SetBit(set0.bitmap, f.index), chunks := [InboundChunk(f.index, f.payload)])],
                   prefix := s.prefix.(recvEpoch := ep - 1)))
  }

  /** The re-encoded ratchet bytes after an EC step and an epoch promotion. */
  function Confirmed(c: Crypto, s: State, ec: Ec, epoch: int, key: Key, sending: bool): Option<bytes> {
    var tr :- RatchetCodec.DecodeRvft1(s.tr);
    var confirmed :- RatchetCodec.EncodeRvft1(tr.(ec := ec));
    var tr1 :- RatchetCodec.DecodeRvft1(confirmed);
    var tr2 :- if sending then PromoteSend(c, tr1, epoch, key) else PromoteReceive(c, tr1, epoch, key);
    RatchetCodec.EncodeRvft1(tr2)
  }

  /** `_apply_header_received_send`: encapsulate, start sending CT1, advance both ratchets. */
  function Ct1Send(c: Crypto, s: State, m: PromoteMaterial, coins: bytes, direction: int): Option<(State, Frame, Sealed)> {
    if s.prefix.agent != HEADER_RECEIVED || !PromoteOk(m) || m.encapsState == [] || m.ct1 == [] then None
    else
      var rho :- TlvOfLength(s.tlvs, 2, 32);
      var hek :- TlvOfLength(s.tlvs, 3, 32);
      if |coins| != 32 || c.encapsSecret(rho + hek, coins) != m.sharedSecret || m.encapsState[2048..] != coins then None
      else
        var ep := s.prefix.agentEpoch;
        var key := c.outputKey(m.sharedSecret, ep);
        var (root, mac) := c.authUpdate(s.prefix.authRoot, ep, key);
        var p := s.prefix.(authRoot := root, authMacKey := mac, agent := CT1_SAMPLED);
        var (active, frame) :- EmitActive(c.bind, p, Some(NewActive(c, direction, ep, WIRE_CT1, KIND_CT1, m.ct1)));
        var tr0 :- RatchetCodec.DecodeRvft1(s.tr);
        var sealed :- c.sendStep(p, tr0, frame, key, ep);
        var tr :- Confirmed(c, s, sealed.ec, ep, key, true);
        Some((s.(prefix := p.(sendEpoch := ep - 1),
                 tlvs := [Tlv(2, rho), Tlv(3, hek), Tlv(5, m.encapsState), Tlv(6, m.ct1)],
                 active := Some(active), tr := tr), frame, sealed))
  }

  /** `_apply_ek_sent_ct1_received_receive`: the last CT2 chunk completes the epoch. */
  function Ct2Receive(c: Crypto, s: State, f: Frame, m: PromoteMaterial, direction: int): Option<State> {
    var ep := s.prefix.agentEpoch;
    if s.prefix.agent != EK_SENT_CT1_RECEIVED || f.epoch != ep || f.chunkType != WIRE_CT2 then None
    else
      var (inbound, complete) :- InsertFrame(s.inbound, direction, f, KIND_CT2);
      var source :- complete;
      if |source| != 160 then None
      else
        var dk :- TlvOfLength(s.tlvs, 1, 2400);
        var ct1 :- TlvOfLength(s.tlvs, 6, 960);
        var key := c.outputKey(m.sharedSecret, ep);
        var (root, mac) := c.authUpdate(s.prefix.authRoot, ep, key);
        if !c.verifyCt(mac, ep, ct1 + source[..128], source[128..]) then None
        else
          var p := s.prefix.(authRoot := root, authMacKey := mac);
          var tr0 :- RatchetCodec.DecodeRvft1(s.tr);
          var ec :- c.recvStep(p, tr0, f, key, ep);
          var tr :- Confirmed(c, s, ec, ep, key, false);
          Some(s.(prefix := p.(agentEpoch := ep + 1, recvEpoch := ep - 1, agent := NO_HEADER_RECEIVED,
                               flags := ClearAckFlag(p.flags)),
                  tlvs := [], active := None, inbound := [EmptySet(direction, ep + 1, KIND_HDR)], tr := tr))
  }

  // ----- dispatch --------------------------------------------------------------------------------

  datatype Op = Send | Receive

  /** `validate_role_mode`: Alice sends and Bob receives towards B (0), the others towards A (1). */
  predicate RoleModeOk(role: int, op: Op, direction: int) {
    IsBit(role) && direction == if (role == 0) == op.Send? then 0 else 1
  }

  /** `validate_chunk_contract` */
  predicate ChunkContract(f: Frame) {
    if f.chunkType == 0 || f.chunkType == 4 then f.index == 0 && f.payload == []
    else if f.chunkType in [1, 2, 3, 5, 6] then 0 <= f.index <= 63 && |f.payload| == CW
    else false
  }

  predicate BindingOk(c: Crypto, f: Frame, direction: int, sessionId: bytes) {
    f.binding == c.bind(direction, f.epoch, f.chunkType, f.index, f.payload, sessionId)
  }

  /** The decoded input and environment of one transition. */
  datatype Input = Input(
    op: Op, direction: int, frame: Option<Frame>, keygenSeed: bytes, coins: bytes,
    keygen: Option<KeygenMaterial>, promote: Option<PromoteMaterial>)

  /** An accepted transition: the candidate, and on sending the frame with what was sealed beside it. */
  datatype Accepted = Accepted(state: State, frame: Option<Frame>, sealed: Option<Sealed>)

  /** `transition` between states: everything up to the final encoding. */
  function Accept(c: Crypto, s: State, inp: Input): Option<Accepted> {
    if s.prefix.pendingPhase != 0 || !RoleModeOk(s.prefix.role, inp.op, inp.direction) then None
    else if inp.op.Send? then
      if s.prefix.agent == KEYS_UNSAMPLED then
        var m :- inp.keygen;
        if |inp.keygenSeed| != 64 then None
        else
          var (s', frame) :- KeySend(c, s, m, inp.direction);
          Some(Accepted(s', Some(frame), None))
      else
        var m :- inp.promote;
        var (s', frame, sealed) :- Ct1Send(c, s, m, inp.coins, inp.direction);
        Some(Accepted(s', Some(frame), Some(sealed)))
    else
      var f :- inp.frame;
      if !BindingOk(c, f, inp.direction, s.prefix.sessionId) || !ChunkContract(f) then None
      else if s.prefix.agent == NO_HEADER_RECEIVED then
        var s' :- HeaderReceive(s, f);
        Some(Accepted(s', None, None))
      else
        var m :- inp.promote;
        var s' :- Ct2Receive(c, s, f, m, inp.direction);
        Some(Accepted(s', None, None))
  }

  // ----- validity of what the transitions produce ----------------------------------------------------

  lemma EpochPredFits(ep: int)
    requires Fits(ep, 8)
    ensures Fits(ep - 1, 8) <==> ep >= 1
    ensures Fits(ep + 1, 8) <==> ep + 1 < 0x1_0000_0000_0000_0000
  {
    Widths();
  }

  lemma SmallNumbersFit(n: int)
    requires 0 <= n < 256
    ensures Fits(n, 1) && Fits(n, 2) && Fits(n, 4)
  {
    Widths();
  }

  lemma LengthsFit(n: int)
    requires 0 <= n <= 2400
    ensures Fits(n, 2) && Fits(n, 4)
  {
    Widths();
  }

  /** Exactly the epochs for which both neighbours written by a transition exist. */
  predicate EpochRoom(s: State, s': State) {
    && 1 <= s.prefix.agentEpoch
    && (s'.prefix.agentEpoch != s.prefix.agentEpoch ==> s'.prefix.agentEpoch < 0x1_0000_0000_0000_0000)
  }

  lemma KeySendValid(c: Crypto, s: State, m: KeygenMaterial, direction: int)
    requires ValidState(s) && BraidCodec.Encodable(s) && IsBit(direction)
    requires KeySend(c, s, m, direction).Some?
    ensures var s' := KeySend(c, s, m, direction).value.0;
            && ValidState(s') && s'.prefix.agentEpoch == s.prefix.agentEpoch
            && (BraidCodec.Encodable(s') <==> EpochRoom(s, s'))
  {
    hide InboundOk, BraidCodec.InboundFits, BraidCodec.ObjectFits, BraidCodec.ReplayFits, Fits, SystematicChunk;
    var s' := KeySend(c, s, m, direction).value.0;
    EpochPredFits(s.prefix.agentEpoch);
    SmallNumbersFit(1);
    SmallNumbersFit(direction);
    SmallNumbersFit(96);
    SmallNumbersFit(5);
    KeySendTlvs(m);
  }

  lemma KeySendTlvs(m: KeygenMaterial)
    requires KeygenOk(m)
    ensures var tlvs := [Tlv(1, m.dk), Tlv(2, m.header[..32]), Tlv(3, m.header[32..]), Tlv(4, m.ekVector), Tlv(8, m.header)];
            && TlvsOk(KEYS_SAMPLED, tlvs) && StrictlySorted(LtTlv, tlvs)
            && forall i :: 0 <= i < |tlvs| ==> BraidCodec.TlvFits(tlvs[i])
  {
    hide Fits;
    var tlvs := [Tlv(1, m.dk), Tlv(2, m.header[..32]), Tlv(3, m.header[32..]), Tlv(4, m.ekVector), Tlv(8, m.header)];
    assert tlvs[0].tag == 1 && tlvs[1].tag == 2 && tlvs[2].tag == 3 && tlvs[3].tag == 4 && tlvs[4].tag == 8;
    forall i | 0 <= i < |tlvs| ensures BraidCodec.TlvFits(tlvs[i]) {
      SmallNumbersFit(tlvs[i].tag);
      LengthsFit(|tlvs[i].value|);
    }
  }

  lemma HeaderReceiveValid(s: State, f: Frame)
    requires ValidState(s) && BraidCodec.Encodable(s) && ChunkContract(f)
    requires HeaderReceive(s, f).Some?
    ensures var s' := HeaderReceive(s, f).value;
            && ValidState(s') && s'.prefix.agentEpoch == s.prefix.agentEpoch
            && (BraidCodec.Encodable(s') <==> EpochRoom(s, s'))
  {
    hide Fits, BraidCodec.ObjectFits, BraidCodec.ReplayFits, BraidCodec.TlvFits, BitmapGet, SetBit, TlvsOk;
    var set0, s' := s.inbound[0], HeaderReceive(s, f).value;
    EpochPredFits(s.prefix.agentEpoch);
    SmallNumbersFit(f.index);
    SmallNumbersFit(32);
    SmallNumbersFit(1);
    assert InboundOk(set0) && BraidCodec.InboundFits(set0);
    var set1 := s'.inbound[0];
    forall i: nat | i < 64 ensures BitmapGet(set1.bitmap, i) <==> exists j :: 0 <= j < |set1.chunks| && set1.chunks[j].index == i {
      GetAfterSet(set0.bitmap, f.index, i);
      assert !BitmapGet(set0.bitmap, i);
      assert set1.chunks[0].index == f.index;
    }
    assert InboundOk(set1) && BraidCodec.InboundFits(set1);
  }

  lemma PromoteValid(c: Crypto, v: Rvft1, epoch: int, key: Key)
    requires ValidRvft1(v) && RatchetCodec.Encodable(v) && Fits(epoch, 8) && key != ZeroBytes(32)
    ensures RatchetCodec.EncodeRvft1(PromoteSend(c, v, epoch, key).value).Some?
    ensures RatchetCodec.EncodeRvft1(PromoteReceive(c, v, epoch, key).value).Some?
  {
    hide EcOk, RatchetCodec.EcFits, InsertChain, RatchetCodec.PutRvft1, Fits, ChainOk;
    var (rk, ck) := c.rootStep(v.scka.rk, key);
    var entry := SckaChainEntry(epoch, ck, 0);
    SmallNumbersFit(0);
    ChainCaps(v.scka.sendChain, entry);
    ChainCaps(v.scka.recvChain, entry);
    RatchetCodec.SizeCap(PromoteSend(c, v, epoch, key).value);
    RatchetCodec.SizeCap(PromoteReceive(c, v, epoch, key).value);
  }

  lemma ChainCaps(chain: seq<SckaChainEntry>, entry: SckaChainEntry)
    requires ChainOk(chain) && RatchetCodec.ChainEntryFits(entry)
    requires forall i :: 0 <= i < |chain| ==> RatchetCodec.ChainEntryFits(chain[i])
    ensures ChainOk(InsertChain(chain, entry)) && |InsertChain(chain, entry)| <= MAX_SCKA_CHAIN
    ensures forall i :: 0 <= i < |InsertChain(chain, entry)| ==> RatchetCodec.ChainEntryFits(InsertChain(chain, entry)[i])
  {
    hide InsertChain, Fits;
    InsertKeepsChainOk(chain, entry);
  }

  /** After the confirmation succeeded, only the zero output key can still stop the promotion. */
  lemma ConfirmedNeverFails(c: Crypto, s: State, ec: Ec, epoch: int, key: Key, sending: bool)
    requires Fits(epoch, 8) && key != ZeroBytes(32)
    requires RatchetCodec.DecodeRvft1(s.tr).Some?
    requires RatchetCodec.EncodeRvft1(RatchetCodec.DecodeRvft1(s.tr).value.(ec := ec)).Some?
    ensures Confirmed(c, s, ec, epoch, key, sending).Some?
  {
    hide RatchetCodec.DecodeRvft1, RatchetCodec.PutRvft1, PromoteSend, PromoteReceive, ValidRvft1, RatchetCodec.Encodable;
    var tr := RatchetCodec.DecodeRvft1(s.tr).value.(ec := ec);
    var bytes1 := RatchetCodec.EncodeRvft1(tr).value;
    RatchetCodec.Rvft1Inverse(tr, bytes1);
    PromoteDefined(c, tr, epoch, key);
    PromoteValid(c, tr, epoch, key);
  }

  lemma PromoteDefined(c: Crypto, v: Rvft1, epoch: int, key: Key)
    requires key != ZeroBytes(32)
    ensures PromoteSend(c, v, epoch, key).Some? && PromoteReceive(c, v, epoch, key).Some?
  {}

  /** The ratchet bytes written by a confirmation start with the magic and fit their length field. */
  lemma RatchetBytesOk(v: Rvft1, tr: bytes)
    requires RatchetCodec.EncodeRvft1(v) == Some(tr)
    ensures |tr| >= 8 && tr[..8] == RVFT1_MAGIC && Fits(|tr|, 4)
  {
    hide ValidRvft1, RatchetCodec.Encodable, RatchetCodec.PutScka;
    Widths();
  }

  lemma ConfirmedBytesOk(c: Crypto, s: State, ec: Ec, epoch: int, key: Key, sending: bool)
    requires Confirmed(c, s, ec, epoch, key, sending).Some?
    ensures var tr := Confirmed(c, s, ec, epoch, key, sending).value;
            |tr| >= 8 && tr[..8] == RVFT1_MAGIC && Fits(|tr|, 4)
  {
    hide RatchetCodec.DecodeRvft1, RatchetCodec.EncodeRvft1, Fits, PromoteSend, PromoteReceive;
    var tr := RatchetCodec.DecodeRvft1(s.tr).value;
    var confirmed := RatchetCodec.EncodeRvft1(tr.(ec := ec)).value;
    var tr1 := RatchetCodec.DecodeRvft1(confirmed).value;
    var tr2 := if sending then PromoteSend(c, tr1, epoch, key).value else PromoteReceive(c, tr1, epoch, key).value;
    RatchetBytesOk(tr2, Confirmed(c, s, ec, epoch, key, sending).value);
  }

  lemma Ct1Tlvs(rho: bytes, hek: bytes, m: PromoteMaterial)
    requires |rho| == 32 && |hek| == 32 && PromoteOk(m) && m.encapsState != [] && m.ct1 != []
    ensures var tlvs := [Tlv(2, rho), Tlv(3, hek), Tlv(5, m.encapsState), Tlv(6, m.ct1)];
            && TlvsOk(CT1_SAMPLED, tlvs) && StrictlySorted(LtTlv, tlvs)
            && forall i :: 0 <= i < |tlvs| ==> BraidCodec.TlvFits(tlvs[i])
  {
    hide Fits;
    var tlvs := [Tlv(2, rho), Tlv(3, hek), Tlv(5, m.encapsState), Tlv(6, m.ct1)];
    assert tlvs[0].tag == 2 && tlvs[1].tag == 3 && tlvs[2].tag == 5 && tlvs[3].tag == 6;
    forall i | 0 <= i < |tlvs| ensures BraidCodec.TlvFits(tlvs[i]) {
      SmallNumbersFit(tlvs[i].tag);
      LengthsFit(|tlvs[i].value|);
    }
  }

  lemma Ct1SendValid(c: Crypto, s: State, m: PromoteMaterial, coins: bytes, direction: int)
    requires ValidState(s) && BraidCodec.Encodable(s) && IsBit(direction)
    requires Ct1Send(c, s, m, coins, direction).Some?
    ensures var s' := Ct1Send(c, s, m, coins, direction).value.0;
            && ValidState(s') && s'.prefix.agentEpoch == s.prefix.agentEpoch
            && (BraidCodec.Encodable(s') <==> EpochRoom(s, s'))
  {
    hide InboundOk, BraidCodec.InboundFits, BraidCodec.ObjectFits, BraidCodec.ReplayFits, Fits;
    hide SystematicChunk, Confirmed, TlvOfLength, RatchetCodec.DecodeRvft1, TlvsOk, BraidCodec.TlvFits;
    var s' := Ct1Send(c, s, m, coins, direction).value.0;
    var ep := s.prefix.agentEpoch;
    EpochPredFits(ep);
    SmallNumbersFit(1);
    SmallNumbersFit(direction);
    SmallNumbersFit(5);
    SmallNumbersFit(7);
    SmallNumbersFit(4);
    LengthsFit(960);
    var rho, hek := TlvOfLength(s.tlvs, 2, 32).value, TlvOfLength(s.tlvs, 3, 32).value;
    TlvOfLengthLength(s.tlvs, 2, 32);
    TlvOfLengthLength(s.tlvs, 3, 32);
    Ct1Tlvs(rho, hek, m);
    var key := c.outputKey(m.sharedSecret, ep);
    var (root, mac) := c.authUpdate(s.prefix.authRoot, ep, key);
    var p := s.prefix.(authRoot := root, authMacKey := mac, agent := CT1_SAMPLED);
    var frame := EmitActive(c.bind, p, Some(NewActive(c, direction, ep, WIRE_CT1, KIND_CT1, m.ct1))).value.1;
    var ec := c.sendStep(p, RatchetCodec.DecodeRvft1(s.tr).value, frame, key, ep).value.ec;
    ConfirmedBytesOk(c, s, ec, ep, key, true);
  }

  lemma TlvOfLengthLength(tlvs: seq<Tlv>, tag: int, length: nat)
    requires TlvOfLength(tlvs, tag, length).Some?
    ensures |TlvOfLength(tlvs, tag, length).value| == length
  {}

  lemma ClearAckFlagFits(flags: int)
    requires Fits(flags, 4)
    ensures Fits(ClearAckFlag(flags), 4)
  {
    Widths();
  }

  lemma EmptySetOk(direction: int, epoch: int)
    requires IsBit(direction)
    ensures InboundOk(EmptySet(direction, epoch, KIND_HDR))
    ensures BraidCodec.InboundFits(EmptySet(direction, epoch, KIND_HDR)) <==> Fits(epoch, 8)
  {
    hide Fits;
    SmallNumbersFit(direction);
    SmallNumbersFit(1);
    SmallNumbersFit(96);
    SmallNumbersFit(63);
    SmallNumbersFit(8);
    SmallNumbersFit(0);
  }

  lemma Ct2ReceiveValid(c: Crypto, s: State, f: Frame, m: PromoteMaterial, direction: int)
    requires ValidState(s) && BraidCodec.Encodable(s) && IsBit(direction)
    requires Ct2Receive(c, s, f, m, direction).Some?
    ensures var s' := Ct2Receive(c, s, f, m, direction).value;
            && ValidState(s') && s'.prefix.agentEpoch == s.prefix.agentEpoch + 1
            && (BraidCodec.Encodable(s') <==> EpochRoom(s, s'))
  {
    hide InboundOk, BraidCodec.InboundFits, BraidCodec.ObjectFits, BraidCodec.ReplayFits, Fits;
    hide InsertFrame, Confirmed, TlvOfLength, RatchetCodec.DecodeRvft1, ClearAckFlag, EmptySet;
    var s' := Ct2Receive(c, s, f, m, direction).value;
    var ep := s.prefix.agentEpoch;
    EpochPredFits(ep);
    SmallNumbersFit(1);
    SmallNumbersFit(0);
    SmallNumbersFit(5);
    ClearAckFlagFits(s.prefix.flags);
    EmptySetOk(direction, ep + 1);
    var key := c.outputKey(m.sharedSecret, ep);
    var (root, mac) := c.authUpdate(s.prefix.authRoot, ep, key);
    var p := s.prefix.(authRoot := root, authMacKey := mac);
    var ec := c.recvStep(p, RatchetCodec.DecodeRvft1(s.tr).value, f, key, ep).value;
    ConfirmedBytesOk(c, s, ec, ep, key, false);
  }

  /**
   * Whatever transition is accepted, its candidate passes every check of the validator; it can be
   * written exactly when the epochs it mentions exist, and only CT2 reception moves the agent epoch.
   */
  lemma CandidateValid(c: Crypto, s: State, inp: Input)
    requires ValidState(s) && BraidCodec.Encodable(s) && Accept(c, s, inp).Some?
    ensures var s' := Accept(c, s, inp).value.state;
            && ValidState(s')
            && (BraidCodec.Encodable(s') <==> EpochRoom(s, s'))
            && s'.prefix.agentEpoch
                 == s.prefix.agentEpoch + (if inp.op.Receive? && s.prefix.agent == EK_SENT_CT1_RECEIVED then 1 else 0)
  {
    hide ValidState, BraidCodec.Encodable, KeySend, HeaderReceive, Ct1Send, Ct2Receive, ChunkContract, BindingOk, EpochRoom;
    if inp.op.Send? {
      if s.prefix.agent == KEYS_UNSAMPLED {
        KeySendValid(c, s, inp.keygen.value, inp.direction);
      } else {
        Ct1SendValid(c, s, inp.promote.value, inp.coins, inp.direction);
      }
    } else if s.prefix.agent == NO_HEADER_RECEIVED {
      HeaderReceiveValid(s, inp.frame.value);
    } else {
      Ct2Agent(c, s, inp.frame.value, inp.promote.value, inp.direction);
      Ct2ReceiveValid(c, s, inp.frame.value, inp.promote.value, inp.direction);
    }
  }

  lemma Ct2Agent(c: Crypto, s: State, f: Frame, m: PromoteMaterial, direction: int)
    requires Ct2Receive(c, s, f, m, direction).Some?
    ensures s.prefix.agent == EK_SENT_CT1_RECEIVED
  {}
}
