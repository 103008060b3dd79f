/** What a confirmation leaves in the ratchet, and two parties that stay in agreement. */
module BraidAgreement {
  import opened Bytes
  import opened BraidState
  import opened BraidChunks
  import opened SckaChain
  import opened BraidTransition
  import RatchetCodec

  /** The entry a promotion adds for an epoch. */
  function NewEntry(c: Crypto, rk: bytes, epoch: int, key: Key): SckaChainEntry {
    SckaChainEntry(epoch, c.rootStep(rk, key).1, 0)
  }

  /** What a confirmation's bytes decode to: the given EC half, the next root, one new chain entry. */
  lemma ConfirmedDecodes(c: Crypto, s: State, ec: Ec, epoch: int, key: Key, sending: bool)
    requires Confirmed(c, s, ec, epoch, key, sending).Some?
    ensures RatchetCodec.DecodeRvft1(s.tr).Some? && RatchetCodec.DecodeRvft1(Confirmed(c, s, ec, epoch, key, sending).value).Some?
    ensures var before := RatchetCodec.DecodeRvft1(s.tr).value;
            var after := RatchetCodec.DecodeRvft1(Confirmed(c, s, ec, epoch, key, sending).value).value;
            var entry := NewEntry(c, before.scka.rk, epoch, key);
            && after.ec == ec && after.scka.rk == c.rootStep(before.scka.rk, key).0
            && after.scka.skipped == before.scka.skipped
            && after.scka.sendChain == (if sending then InsertChain(before.scka.sendChain, entry) else before.scka.sendChain)
            && after.scka.recvChain == (if sending then before.scka.recvChain else InsertChain(before.scka.recvChain, entry))
            && after.scka.sendingEpoch == (if sending then epoch else before.scka.sendingEpoch)
            && after.scka.receivingEpoch == (if sending then before.scka.receivingEpoch else epoch)
  {
    hide RatchetCodec.DecodeRvft1, RatchetCodec.EncodeRvft1, InsertChain;
    var tr := RatchetCodec.DecodeRvft1(s.tr).value.(ec := ec);
    var confirmed := RatchetCodec.EncodeRvft1(tr).value;
    RatchetCodec.Rvft1Inverse(tr, confirmed);
    var tr2 := if sending then PromoteSend(c, tr, epoch, key).value else PromoteReceive(c, tr, epoch, key).value;
    RatchetCodec.Rvft1Inverse(tr2, Confirmed(c, s, ec, epoch, key, sending).value);
  }

  function Ratchet(s: State): Option<Rvft1> { RatchetCodec.DecodeRvft1(s.tr) }

  lemma Ct1SendRatchet(c: Crypto, s: State, m: PromoteMaterial, coins: bytes, direction: int)
    requires Ct1Send(c, s, m, coins, direction).Some?
    ensures var (s', ep, key) := (Ct1Send(c, s, m, coins, direction).value.0, s.prefix.agentEpoch, c.outputKey(m.sharedSecret, s.prefix.agentEpoch));
            && Ratchet(s).Some? && Ratchet(s').Some?
            && (s'.prefix.authRoot, s'.prefix.authMacKey) == c.authUpdate(s.prefix.authRoot, ep, key)
            && Ratchet(s').value.scka.rk == c.rootStep(Ratchet(s).value.scka.rk, key).0
            && Ratchet(s').value.scka.sendChain == InsertChain(Ratchet(s).value.scka.sendChain, NewEntry(c, Ratchet(s).value.scka.rk, ep, key))
  {
    hide EmitActive, Confirmed, TlvOfLength, RatchetCodec.DecodeRvft1, InsertChain;
    var ep := s.prefix.agentEpoch;
    var key := c.outputKey(m.sharedSecret, ep);
    var (root, mac) := c.authUpdate(s.prefix.authRoot, ep, key);
    var p := s.prefix.(authRoot := root, authMacKey := mac, agent := CT1_SAMPLED);
    var frame := EmitActive(c.bind, p, Some(NewActive(c, direction, ep, WIRE_CT1, KIND_CT1, m.ct1))).value.1;
    var ec := c.sendStep(p, RatchetCodec.DecodeRvft1(s.tr).value, frame, key, ep).value.ec;
    ConfirmedDecodes(c, s, ec, ep, key, true);
  }

  lemma Ct2ReceiveRatchet(c: Crypto, s: State, f: Frame, m: PromoteMaterial, direction: int)
    requires Ct2Receive(c, s, f, m, direction).Some?
    ensures var (s', ep, key) := (Ct2Receive(c, s, f, m, direction).value, s.prefix.agentEpoch, c.outputKey(m.sharedSecret, s.prefix.agentEpoch));
            && Ratchet(s).Some? && Ratchet(s').Some?
            && (s'.prefix.authRoot, s'.prefix.authMacKey) == c.authUpdate(s.prefix.authRoot, ep, key)
            && Ratchet(s').value.scka.rk == c.rootStep(Ratchet(s).value.scka.rk, key).0
            && Ratchet(s').value.scka.recvChain == InsertChain(Ratchet(s).value.scka.recvChain, NewEntry(c, Ratchet(s).value.scka.rk, ep, key))
  {
    hide InsertFrame, Confirmed, TlvOfLength, RatchetCodec.DecodeRvft1, InsertChain, ClearAckFlag;
    var ep := s.prefix.agentEpoch;
    var key := c.outputKey(m.sharedSecret, ep);
    var (root, mac) := c.authUpdate(s.prefix.authRoot, ep, key);
    var p := s.prefix.(authRoot := root, authMacKey := mac);
    var ec := c.recvStep(p, RatchetCodec.DecodeRvft1(s.tr).value, f, key, ep).value;
    ConfirmedDecodes(c, s, ec, ep, key, false);
  }

  /**
   * Two parties in the same epoch, with the same authentication root, ratchet root and shared secret:
   * after one sent CT1 and the other received CT2 they again hold the same authentication keys and
   * ratchet root, and the chain entry the sender stored for sending is the one the receiver stored
   * for receiving.
   */
  lemma ExchangeAgrees(c: Crypto, s: State, t: State, m: PromoteMaterial, m': PromoteMaterial, coins: bytes, f: Frame, dS: int, dT: int)
    requires Ct1Send(c, s, m, coins, dS).Some? && Ct2Receive(c, t, f, m', dT).Some?
    requires s.prefix.agentEpoch == t.prefix.agentEpoch && s.prefix.authRoot == t.prefix.authRoot && m.sharedSecret == m'.sharedSecret
    requires Ratchet(s).Some? && Ratchet(t).Some? && Ratchet(s).value.scka.rk == Ratchet(t).value.scka.rk
    ensures var (s', t') := (Ct1Send(c, s, m, coins, dS).value.0, Ct2Receive(c, t, f, m', dT).value);
            && s'.prefix.authRoot == t'.prefix.authRoot && s'.prefix.authMacKey == t'.prefix.authMacKey
            && Ratchet(s').Some? && Ratchet(t').Some? && Ratchet(s').value.scka.rk == Ratchet(t').value.scka.rk
            && exists e: SckaChainEntry :: e.epoch == s.prefix.agentEpoch && e.n == 0
                 && Ratchet(s').value.scka.sendChain == InsertChain(Ratchet(s).value.scka.sendChain, e)
                 && Ratchet(t').value.scka.recvChain == InsertChain(Ratchet(t).value.scka.recvChain, e)
  {
    hide Ct1Send, Ct2Receive, Ratchet, InsertChain;
    Ct1SendRatchet(c, s, m, coins, dS);
    Ct2ReceiveRatchet(c, t, f, m', dT);
    var e := NewEntry(c, Ratchet(s).value.scka.rk, s.prefix.agentEpoch, c.outputKey(m.sharedSecret, s.prefix.agentEpoch));
    assert e.epoch == s.prefix.agentEpoch && e.n == 0;
  }
}
