/** The transition steps as the source performs them: a session object whose fields change in place. */
module BraidSession {
  import opened Bytes
  import opened BraidState
  import opened BraidChunks
  import opened Bitmap
  import opened Sorting
  import opened SckaChain
  import opened BraidTransition
  import RatchetCodec

  /** `_insert_scka_chain`: filter, append, sort, drop the oldest. */
  method InsertSckaChain(chain: seq<SckaChainEntry>, entry: SckaChainEntry) returns (r: seq<SckaChainEntry>)
    ensures r == InsertChain(chain, entry)
  {
    hide Sort;
    r := [];
    var i := 0;
    assert chain[..0] == [];
    while i < |chain|
      invariant 0 <= i <= |chain| && r == Without(chain[..i], entry.epoch)
    {
      assert chain[..i + 1][..i] == chain[..i];
      if chain[i].epoch != entry.epoch {
        r := r + [chain[i]];
      }
      i := i + 1;
    }
    assert chain[..i] == chain;
    r := r + [entry];
    r := Sort(LeChain, r);
    if |r| > MAX_SCKA_CHAIN {
      r := r[1..];
    }
  }

  // ----- what a refused step leaves behind --------------------------------------------------------------

  /** The inbound sets after `_insert_systematic_frame` raised: the chunk is in place before its bit is out of range. */
  function InsertLeaves(sets: seq<InboundSet>, direction: int, frame: Frame, kind: int): seq<InboundSet> {
    if SourceLength(kind).None? then sets
    else
      var blank := EmptySet(direction, frame.epoch, kind);
      var sets1 := if FindSet(sets, direction, frame.epoch, kind) >= 0 then sets else Sort(LeInbound, sets + [blank]);
      var p := FindSet(sets1, direction, frame.epoch, kind);
      FreshSetFound(sets, blank);
      if sets1[p].expectedLen != SourceLength(kind).value || sets1[p].maxIndex != 63 || |sets1[p].bitmap| != 8
         || FirstAt(sets1[p].chunks, frame.index).Some?
      then sets1
      else sets1[p := sets1[p].(chunks := Sort(LeChunk, sets1[p].chunks + [InboundChunk(frame.index, frame.payload)]))]
  }

  /** A frame whose index is in range leaves nothing behind when it is refused. */
  lemma RefusalLeavesNothing(sets: seq<InboundSet>, direction: int, frame: Frame, kind: int)
    requires InsertFrame(sets, direction, frame, kind).None? && 0 <= frame.index <= 63
    ensures InsertLeaves(sets, direction, frame, kind) == sets
  {
    hide Sort, SetBit, FirstAt, Collect, FindSet;
    if SourceLength(kind).Some? && FindSet(sets, direction, frame.epoch, kind) < 0 {
      BlankTakes(sets, direction, frame, kind);
    }
  }

  lemma BlankTakes(sets: seq<InboundSet>, direction: int, frame: Frame, kind: int)
    requires SourceLength(kind).Some? && FindSet(sets, direction, frame.epoch, kind) < 0 && 0 <= frame.index <= 63
    ensures InsertFrame(sets, direction, frame, kind).Some?
  {
    hide Sort, SetBit, Collect, FindSet;
    var blank := EmptySet(direction, frame.epoch, kind);
    var sorted := Sort(LeInbound, sets + [blank]);
    FreshSetFound(sets, blank);
    SortMultiset(LeInbound, sets + [blank]);
    var found := sorted[FindSet(sorted, direction, frame.epoch, kind)];
    assert found in multiset(sorted) && found in sets + [blank];
    assert found == blank;
  }

  /** The ratchet bytes once the elliptic-curve half was stored, or as they were. */
  function Stored(s: State, ec: Ec): bytes {
    match RatchetCodec.DecodeRvft1(s.tr)
    case None => s.tr
    case Some(tr) => RatchetCodec.EncodeRvft1(tr.(ec := ec)).GetOr(s.tr)
  }

  /** The object after `_apply_header_received_send` raised. */
  function Ct1Leaves(c: Crypto, s: State, m: PromoteMaterial, coins: bytes, direction: int): State {
    if s.prefix.agent != HEADER_RECEIVED || !PromoteOk(m) || m.encapsState == [] || m.ct1 == [] then s
    else if TlvOfLength(s.tlvs, 2, 32).None? || TlvOfLength(s.tlvs, 3, 32).None? then s
    else
      var rho, hek := TlvOfLength(s.tlvs, 2, 32).value, TlvOfLength(s.tlvs, 3, 32).value;
      if |coins| != 32 || c.encapsSecret(rho + hek, coins) != m.sharedSecret || m.encapsState[2048..] != coins then s
      else
        var ep := s.prefix.agentEpoch;
        var key := c.outputKey(m.sharedSecret, ep);
        var (root, mac) := c.authUpdate(s.prefix.authRoot, ep, key);
        var p := s.prefix.(authRoot := root, authMacKey := mac, agent := CT1_SAMPLED);
        var fresh1 := NewActive(c, direction, ep, WIRE_CT1, KIND_CT1, m.ct1);
        var s1 := s.(prefix := p, tlvs := [Tlv(2, rho), Tlv(3, hek), Tlv(5, m.encapsState), Tlv(6, m.ct1)], active := Some(fresh1));
        match EmitActive(c.bind, p, Some(fresh1))
        case None => s1
        case Some(emitted) =>
          var s2 := s1.(active := Some(emitted.0));
          if RatchetCodec.DecodeRvft1(s.tr).None? then s2
          else
            match c.sendStep(p, RatchetCodec.DecodeRvft1(s.tr).value, emitted.1, key, ep)
            case None => s2
            case Some(sealed) => s2.(tr := Stored(s, sealed.ec))
  }

  /** The object after `_apply_ek_sent_ct1_received_receive` raised. */
  function Ct2Leaves(c: Crypto, s: State, f: Frame, m: PromoteMaterial, direction: int): State {
    var ep := s.prefix.agentEpoch;
    if s.prefix.agent != EK_SENT_CT1_RECEIVED || f.epoch != ep || f.chunkType != WIRE_CT2 then s
    else
      match InsertFrame(s.inbound, direction, f, KIND_CT2)
      case None => s.(inbound := InsertLeaves(s.inbound, direction, f, KIND_CT2))
      case Some(inserted) =>
        var s1 := s.(inbound := inserted.0);
        if inserted.1.None? || |inserted.1.value| != 160 || TlvOfLength(s.tlvs, 1, 2400).None? || TlvOfLength(s.tlvs, 6, 960).None? then s1
        else
          var source, ct1 := inserted.1.value, TlvOfLength(s.tlvs, 6, 960).value;
          var key := c.outputKey(m.sharedSecret, ep);
          var (root, mac) := c.authUpdate(s.prefix.authRoot, ep, key);
          if !c.verifyCt(mac, ep, ct1 + source[..128], source[128..]) then s1
          else
            var s2 := s1.(prefix := s.prefix.(authRoot := root, authMacKey := mac));
            if RatchetCodec.DecodeRvft1(s.tr).None? then s2
            else
              match c.recvStep(s2.prefix, RatchetCodec.DecodeRvft1(s.tr).value, f, key, ep)
              case None => s2
              case Some(ec) => s2.(tr := Stored(s, ec))
  }

  class Session {
    var prefix: Prefix
    var inbound: seq<InboundSet>
    var active: Option<ActiveSend>
    var objects: seq<BraidObject>
    var replays: seq<ReplayRecord>
    var tlvs: seq<Tlv>
    var tr: bytes

    constructor (s: State)
      ensures View() == s
    {
      prefix, inbound, active, objects, replays, tlvs, tr :=
        s.prefix, s.inbound, s.active, s.objects, s.replays, s.tlvs, s.tr;
    }

    function View(): State
      reads this
    {
      State(prefix, inbound, active, objects, replays, tlvs, tr)
    }

    /** `_emit_active`: the next frame, the send's own index advanced. */
    method Emit(bind: Binding) returns (r: Option<Frame>)
      modifies this`active
      ensures match EmitActive(bind, prefix, old(active))
              case None => r.None? && active == old(active)
              case Some(out) => r == Some(out.1) && active == Some(out.0)
    {
      if active.None? {
        return None;
      }
      var a := active.value;
      if a.epoch != prefix.agentEpoch || a.nextIndex > 63 {
        return None;
      }
      var index := a.nextIndex;
      var payload := SystematicChunk(a.source, index);
      if payload.None? {
        return None;
      }
      r := Some(Frame(a.epoch, a.wireType, index, payload.value,
                      bind(a.direction, a.epoch, a.wireType, index, payload.value, prefix.sessionId)));
      active := Some(a.(nextIndex := index + 1));
    }

    /** `_insert_systematic_frame`: find or create the set, store the chunk, reassemble when complete. */
    method InsertSystematicFrame(direction: int, frame: Frame, kind: int) returns (ok: bool, source: Option<bytes>)
      modifies this`inbound
      ensures ok <==> InsertFrame(old(inbound), direction, frame, kind).Some?
      ensures ok ==> (inbound, source) == InsertFrame(old(inbound), direction, frame, kind).value
      ensures !ok ==> inbound == InsertLeaves(old(inbound), direction, frame, kind)
      ensures !ok && 0 <= frame.index <= 63 ==> inbound == old(inbound)
    {
      hide Sort, SetBit, FirstAt, Collect, FindSet, SourceLength;
      ok, source := false, None;
      if InsertFrame(inbound, direction, frame, kind).None? && 0 <= frame.index <= 63 {
        RefusalLeavesNothing(inbound, direction, frame, kind);
      }
      if SourceLength(kind).None? {
        return;
      }
      var p := Find(inbound, direction, frame.epoch, kind);
      if p < 0 {
        var blank := EmptySet(direction, frame.epoch, kind);
        FreshSetFound(inbound, blank);
        inbound := Sort(LeInbound, inbound + [blank]);
        p := Find(inbound, direction, frame.epoch, kind);
      }
      var set0 := inbound[p];
      if set0.expectedLen != SourceLength(kind).value || set0.maxIndex != 63 || |set0.bitmap| != 8 {
        return;
      }
      var existing := FirstAt(set0.chunks, frame.index);
      if existing.Some? {
        if existing.value != frame.payload {
          return;
        }
        assert inbound[p := set0] == inbound;
      } else {
        ghost var before := inbound;
        set0 := set0.(chunks := Sort(LeChunk, set0.chunks + [InboundChunk(frame.index, frame.payload)]));
        inbound := inbound[p := set0];
        if frame.index < 0 || frame.index > 63 {
          return;
        }
        ghost var half := inbound;
        set0 := set0.(bitmap := SetBit(set0.bitmap, frame.index));
        inbound := inbound[p := set0];
        assert half[p := set0] == before[p := set0];
      }
      source := Reassemble(set0.chunks, set0.expectedLen / CW);
      ok := true;
    }

    /** `_apply_keys_unsampled_send` */
    method ApplyKeysUnsampledSend(c: Crypto, m: KeygenMaterial, direction: int) returns (r: Option<Frame>)
      modifies this
      ensures match KeySend(c, old(View()), m, direction)
              case None => r.None? && View() == old(View())
              case Some(out) => r == Some(out.1) && View() == out.0
    {
      hide SystematicChunk;
      if prefix.agent != KEYS_UNSAMPLED || !KeygenOk(m) {
        return None;
      }
      var ep := prefix.agentEpoch;
      var source := m.header + c.macHdr(prefix.authMacKey, ep, m.header);
      var payload := SystematicChunk(source, 0);
      if payload.None? {
        return None;
      }
      var frame := Frame(ep, WIRE_HDR, 0, payload.value, c.bind(direction, ep, WIRE_HDR, 0, payload.value, prefix.sessionId));
      tlvs := [Tlv(1, m.dk), Tlv(2, m.header[..32]), Tlv(3, m.header[32..]), Tlv(4, m.ekVector), Tlv(8, m.header)];
      active := Some(ActiveSend(direction, ep, WIRE_HDR, KIND_HDR, |source|, c.sourceDigest(source), source, 1));
      prefix := prefix.(agent := KEYS_SAMPLED);
      prefix := prefix.(sendEpoch := ep - 1);
      return Some(frame);
    }

    /** `_apply_hdr_receive` */
    method ApplyHdrReceive(frame: Frame) returns (ok: bool)
      modifies this
      ensures ok <==> HeaderReceive(old(View()), frame).Some?
      ensures View() == if ok then HeaderReceive(old(View()), frame).value else old(View())
    {
      hide SetBit;
      if prefix.agent != NO_HEADER_RECEIVED {
        return false;
      }
      var ep := prefix.agentEpoch;
      if frame.epoch != ep || frame.chunkType != WIRE_HDR || |inbound| != 1 {
        return false;
      }
      var set0 := inbound[0];
      if set0.sourceKind != KIND_HDR || set0.chunks != [] || frame.index < 0 || frame.index / 8 >= |set0.bitmap| {
        return false;
      }
      set0 := set0.(bitmap := SetBit(set0.bitmap, frame.index));
      set0 := set0.(chunks := [InboundChunk(frame.index, frame.payload)]);
      inbound := [set0];
      prefix := prefix.(recvEpoch := ep - 1);
      return true;
    }

    /** `_apply_header_received_send` */
    method ApplyHeaderReceivedSend(c: Crypto, m: PromoteMaterial, coins: bytes, direction: int) returns (r: Option<(Frame, Sealed)>)
      modifies this
      ensures match Ct1Send(c, old(View()), m, coins, direction)
              case None => r.None? && View() == Ct1Leaves(c, old(View()), m, coins, direction)
              case Some(out) => r == Some((out.1, out.2)) && View() == out.0
    {
      hide TlvOfLength, EmitActive, Confirmed, RatchetCodec.DecodeRvft1, Stored;
      ghost var s0 := View();
      if prefix.agent != HEADER_RECEIVED || !PromoteOk(m) || m.encapsState == [] || m.ct1 == [] {
        return None;
      }
      var rho :- TlvOfLength(tlvs, 2, 32);
      var hek :- TlvOfLength(tlvs, 3, 32);
      if |coins| != 32 || c.encapsSecret(rho + hek, coins) != m.sharedSecret || m.encapsState[2048..] != coins {
        return None;
      }
      var ep := prefix.agentEpoch;
      var key := c.outputKey(m.sharedSecret, ep);
      var (root, mac) := c.authUpdate(prefix.authRoot, ep, key);
      prefix := prefix.(authRoot := root, authMacKey := mac);
      tlvs := [Tlv(2, rho), Tlv(3, hek), Tlv(5, m.encapsState), Tlv(6, m.ct1)];
      active := Some(NewActive(c, direction, ep, WIRE_CT1, KIND_CT1, m.ct1));
      prefix := prefix.(agent := CT1_SAMPLED);
      var frame :- Emit(c.bind);
      var tr0 :- RatchetCodec.DecodeRvft1(tr);
      var sealed :- c.sendStep(prefix, tr0, frame, key, ep);
      SameRatchet(c, s0, View(), sealed.ec, ep, key, true);
      var ok := Confirm(c, sealed.ec, ep, key, true);
      if !ok {
        return None;
      }
      prefix := prefix.(sendEpoch := ep - 1);
      return Some((frame, sealed));
    }

    /** Store the elliptic-curve half, read the ratchet back and promote one of its chains. */
    method Confirm(c: Crypto, ec: Ec, epoch: int, key: Key, sending: bool) returns (ok: bool)
      modifies this`tr
      ensures ok <==> Confirmed(c, old(View()), ec, epoch, key, sending).Some?
      ensures tr == if ok then Confirmed(c, old(View()), ec, epoch, key, sending).value else Stored(old(View()), ec)
    {
      hide RatchetCodec.DecodeRvft1, RatchetCodec.EncodeRvft1, PromoteSend, PromoteReceive;
      var tr0 := RatchetCodec.DecodeRvft1(tr);
      if tr0.None? {
        return false;
      }
      var confirmed := RatchetCodec.EncodeRvft1(tr0.value.(ec := ec));
      if confirmed.None? {
        return false;
      }
      tr := confirmed.value;
      var tr1 := RatchetCodec.DecodeRvft1(tr);
      if tr1.None? {
        return false;
      }
      var tr2 := if sending then PromoteSend(c, tr1.value, epoch, key) else PromoteReceive(c, tr1.value, epoch, key);
      if tr2.None? {
        return false;
      }
      var promoted := RatchetCodec.EncodeRvft1(tr2.value);
      if promoted.None? {
        return false;
      }
      tr := promoted.value;
      return true;
    }

    /** `_apply_ek_sent_ct1_received_receive` */
    method ApplyEkSentCt1ReceivedReceive(c: Crypto, frame: Frame, m: PromoteMaterial, direction: int) returns (r: Option<int>)
      modifies this
      ensures match Ct2Receive(c, old(View()), frame, m, direction)
              case None => r.None? && View() == Ct2Leaves(c, old(View()), frame, m, direction)
              case Some(after) => r == Some(old(prefix).agentEpoch) && View() == after
    {
      hide TlvOfLength, InsertFrame, InsertLeaves, Confirmed, RatchetCodec.DecodeRvft1, ClearAckFlag, Stored;
      ghost var s0 := View();
      var ep := prefix.agentEpoch;
      if prefix.agent != EK_SENT_CT1_RECEIVED || frame.epoch != ep || frame.chunkType != WIRE_CT2 {
        return None;
      }
      var ok, complete := InsertSystematicFrame(direction, frame, KIND_CT2);
      if !ok || complete.None? || |complete.value| != 160 {
        return None;
      }
      var source := complete.value;
      var dk :- TlvOfLength(tlvs, 1, 2400);
      var ct1 :- TlvOfLength(tlvs, 6, 960);
      var key := c.outputKey(m.sharedSecret, ep);
      var (root, mac) := c.authUpdate(prefix.authRoot, ep, key);
      if !c.verifyCt(mac, ep, ct1 + source[..128], source[128..]) {
        return None;
      }
      prefix := prefix.(authRoot := root, authMacKey := mac);
      var tr0 :- RatchetCodec.DecodeRvft1(tr);
      var ec :- c.recvStep(prefix, tr0, frame, key, ep);
      SameRatchet(c, s0, View(), ec, ep, key, false);
      var confirmed := Confirm(c, ec, ep, key, false);
      if !confirmed {
        return None;
      }
      prefix := prefix.(agentEpoch := ep + 1, recvEpoch := ep - 1, agent := NO_HEADER_RECEIVED);
      prefix := prefix.(flags := ClearAckFlag(prefix.flags));
      tlvs := [];
      active := None;
      inbound := [EmptySet(direction, ep + 1, KIND_HDR)];
      return Some(ep);
    }
  }

  /** `next(item for item in inbound_sets if key matches)`, as a position. */
  method Find(sets: seq<InboundSet>, direction: int, epoch: int, kind: int) returns (p: int)
    ensures p == FindSet(sets, direction, epoch, kind)
  {
    hide FindSet;
    var i := 0;
    while i < |sets|
      invariant 0 <= i <= |sets| && forall j :: 0 <= j < i ==> !HasKey(sets[j], direction, epoch, kind)
    {
      if HasKey(sets[i], direction, epoch, kind) {
        return i;
      }
      i := i + 1;
    }
    return -1;
  }

  /** Chunks 0..needed-1 joined, or nothing while one is missing. */
  method Reassemble(chunks: seq<InboundChunk>, needed: nat) returns (r: Option<bytes>)
    ensures r == Collect(chunks, needed)
  {
    hide ByIndex;
    var out: bytes := [];
    var i := 0;
    while i < needed
      invariant 0 <= i <= needed && Collect(chunks, i) == Some(out)
    {
      var c := ByIndex(chunks, i);
      if c.None? {
        MissingChunk(chunks, i, needed);
        return None;
      }
      out := out + c.value;
      i := i + 1;
    }
    return Some(out);
  }

  lemma {:induction false} MissingChunk(chunks: seq<InboundChunk>, i: nat, n: nat)
    requires i < n && ByIndex(chunks, i).None?
    ensures Collect(chunks, n) == None
  {
    hide ByIndex;
    if i < n - 1 {
      MissingChunk(chunks, i, n - 1);
    }
  }

  lemma SameRatchet(c: Crypto, s: State, t: State, ec: Ec, epoch: int, key: Key, sending: bool)
    requires s.tr == t.tr
    ensures Confirmed(c, s, ec, epoch, key, sending) == Confirmed(c, t, ec, epoch, key, sending)
    ensures Stored(s, ec) == Stored(t, ec)
  {
    hide RatchetCodec.DecodeRvft1, RatchetCodec.EncodeRvft1, PromoteSend, PromoteReceive;
  }
}
