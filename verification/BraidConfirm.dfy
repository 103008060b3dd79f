/** Confirming an epoch: trust evidence, chain header and frame under one AEAD seal or opening. */
module BraidConfirm {
  import opened Bytes
  import opened Text
  import opened BraidState
  import opened BraidChunks
  import opened BraidWire
  import opened BraidTransition
  import opened BraidCodec
  import RatchetCodec

  const RVBA1_MAGIC: bytes := [0x52, 0x56, 0x42, 0x41, 0x31, 0, 0, 0]

  function Profile(): bytes { Utf8("ATSAM/hybrid-ratchet/v2") }
  function AddressDomain(): bytes { Utf8("ATSAM/v2/full-braid/transcript-addr") }

  /**
   * Arbitrary functions for the hash, the chain step, the receiving half of the elliptic-curve
   * ratchet, seed expansion, the combined key derivation and the AEAD.
   */
  datatype Primitives = Primitives(
    sha256: bytes -> Hash,
    chainStep: bytes -> (Key, Key),
    ecDecrypt: (Ec, bytes, int, int, Option<Key>) -> Option<(Ec, Key)>,
    localKey: (bytes, bytes, int) -> Key,
    hybrid: (Key, Key) -> (bytes, bytes),
    seal: (bytes, bytes, bytes, bytes) -> bytes,
    open: (bytes, bytes, bytes, bytes) -> Option<bytes>)

  // ----- associated data -------------------------------------------------------------------------

  /** What `_transcript_addr_binding` hashes. */
  function AddressBytes(sessionId: bytes, party: byte, cert: bytes, pub: bytes): bytes {
    AddressDomain() + (sessionId + ([party] + (cert + pub)))
  }

  /** `_expected_rvba1` */
  function ExpectedAad(q: Primitives, sessionId: bytes, direction: nat, t: Trust): bytes {
    hide AddressBytes;
    RVBA1_MAGIC + PutUint(1, 2, q.sha256(Profile()) + (sessionId + PutUint(1, 2, PutUint(4, 2, PutU8(direction, PutU8(0,
      q.sha256(AddressBytes(sessionId, 0, t.initiatorCert, t.initiatorPub)) +
      (q.sha256(AddressBytes(sessionId, 1, t.responderCert, t.responderPub)) +
       (if direction == 0 then t.initiatorCert else t.responderCert))))))))
  }

  /** `_effective_ad` */
  function EffectiveAd(aad: bytes, header: bytes, frame: bytes): bytes {
    PutBlob(4, aad, PutBlob(4, header, PutBlob(4, frame, [])))
  }

  /** `_check_ec_mk_oracle` */
  predicate OracleOk(m: Rvbm1, mk: Key) {
    (m.oracleLen == 0 && m.oracle == ZeroBytes(32)) || (m.oracleLen == 32 && m.oracle == mk)
  }

  /** `_validate_rvba1` */
  predicate TrustShown(q: Primitives, sessionId: bytes, i: Rvbi1, e: Rvbe1) {
    e.trust.Some? && i.mutation.aad == ExpectedAad(q, sessionId, i.direction, e.trust.value)
  }

  // ----- the two confirmations -----------------------------------------------------------------------

  function ChainIndex(chain: seq<SckaChainEntry>, epoch: int): int {
    if chain == [] then 0 else if chain[0].epoch == epoch then chain[0].n else ChainIndex(chain[1..], epoch)
  }

  /** `_send_rvch1` */
  function SendHeader(tr: Rvft1, direction: nat, epoch: int): Rvch1 {
    Rvch1(tr.ec.dhsPub, tr.ec.pn, tr.ec.ns, epoch, tr.scka.sendPn, ChainIndex(tr.scka.sendChain, epoch), direction)
  }

  /** `ec_dr_encrypt`: the sending chain advanced, and its message key. */
  function EcSend(q: Primitives, ec: Ec): Option<(Ec, Key)> {
    if ec.ckSendPresent != 1 then None
    else
      var (ck, mk) := q.chainStep(ec.ckSend);
      Some((ec.(ckSend := ck, ns := ec.ns + 1), mk))
  }

  function Seal(q: Primitives, m: Rvbm1, header: bytes, frame: bytes, mk: Key, key: Key): bytes {
    var (k, nonce) := q.hybrid(mk, key);
    q.seal(k, nonce, m.body, EffectiveAd(m.aad, header, frame))
  }

  function Open(q: Primitives, m: Rvbm1, header: bytes, frame: bytes, mk: Key, key: Key): Option<bytes> {
    var (k, nonce) := q.hybrid(mk, key);
    q.open(k, nonce, m.body, EffectiveAd(m.aad, header, frame))
  }

  /** `_confirm_send` */
  function ConfirmSend(q: Primitives, i: Rvbi1, e: Rvbe1, p: Prefix, tr: Rvft1, f: Frame, key: Key, epoch: int): Option<Sealed> {
    hide TrustShown, EcSend, SendHeader, EncodeRvch1, EncodeFrame, OracleOk, Seal;
    var m := i.mutation;
    if m.needsAead != 1 || m.mode != 0 || !TrustShown(q, p.sessionId, i, e) then None
    else
      var (ec, mk) :- EcSend(q, tr.ec);
      var header :- EncodeRvch1(SendHeader(tr, i.direction, epoch));
      var frame :- EncodeFrame(f);
      if !OracleOk(m, mk) then None
      else
        var ciphertext := Seal(q, m, header, frame, mk, key);
        if m.expectedCt != Some(ciphertext) then None else Some(Sealed(ec, header, ciphertext))
  }

  /** `_materialize_ec_dh_priv`, when a seed is given. */
  function FreshLocal(q: Primitives, e: Rvbe1, p: Prefix): Option<Option<Key>> {
    if e.ecDhSeed == [] then Some(None)
    else if |e.ecDhSeed| != 32 || q.localKey(e.ecDhSeed, p.sessionId, p.generation) == ZeroBytes(32) then None
    else Some(Some(q.localKey(e.ecDhSeed, p.sessionId, p.generation)))
  }

  /** A header of the current chain with an index already passed. */
  predicate Rewinds(ch: Rvch1, ec: Ec) { ec.dhrPresent == 1 && ch.ecDhPub == ec.dhrPub && ch.ecN < ec.nr }

  /** `_confirm_receive` */
  function ConfirmReceive(q: Primitives, i: Rvbi1, e: Rvbe1, p: Prefix, tr: Rvft1, f: Frame, key: Key, epoch: int): Option<Ec> {
    hide TrustShown, Rewinds, FreshLocal, EncodeRvch1, EncodeFrame, OracleOk, Open;
    var m := i.mutation;
    if m.needsAead != 1 || m.mode != MODE_OPEN || i.ch.None? || !TrustShown(q, p.sessionId, i, e) then None
    else
      var ch := i.ch.value;
      if (i.expectedCh.Some? && i.expectedCh != i.ch) || ch.direction != i.direction || ch.sckaEpoch != epoch || Rewinds(ch, tr.ec) then None
      else
        var local :- FreshLocal(q, e, p);
        var (ec, mk) :- q.ecDecrypt(tr.ec, ch.ecDhPub, ch.ecPn, ch.ecN, local);
        var header :- EncodeRvch1(ch);
        var frame :- EncodeFrame(f);
        if !OracleOk(m, mk) then None
        else
          var plain :- Open(q, m, header, frame, mk, key);
          if |plain| > MAX_PLAINTEXT then None else Some(ec)
  }

  // ----- what a confirmation binds -----------------------------------------------------------------------

  lemma EffectiveAdInjective(a: bytes, h: bytes, f: bytes, a': bytes, h': bytes, f': bytes)
    requires Fits(|a|, 4) && Fits(|h|, 4) && Fits(|f|, 4) && Fits(|a'|, 4) && Fits(|h'|, 4) && Fits(|f'|, 4)
    requires EffectiveAd(a, h, f) == EffectiveAd(a', h', f')
    ensures a == a' && h == h' && f == f'
  {
    hide Fits, PutBlob, GetBlob;
    GetOfPutBlob(4, a, PutBlob(4, h, PutBlob(4, f, [])));
    GetOfPutBlob(4, a', PutBlob(4, h', PutBlob(4, f', [])));
    GetOfPutBlob(4, h, PutBlob(4, f, []));
    GetOfPutBlob(4, h', PutBlob(4, f', []));
    GetOfPutBlob(4, f, []);
    GetOfPutBlob(4, f', []);
  }

  lemma Halves(a: bytes, b: bytes, a': bytes, b': bytes)
    requires |a| == |a'| && a + b == a' + b'
    ensures a == a' && b == b'
  {
    assert a == (a + b)[..|a|] && b == (a + b)[|a|..];
    assert a' == (a' + b')[..|a|] && b' == (a' + b')[|a|..];
  }

  /** Evidence whose two address preimages do not collide with the other side's. */
  predicate NoCollision(q: Primitives, s: bytes, t: Trust, s': bytes, t': Trust) {
    hide AddressBytes;
    && (q.sha256(AddressBytes(s, 0, t.initiatorCert, t.initiatorPub)) == q.sha256(AddressBytes(s', 0, t'.initiatorCert, t'.initiatorPub))
        ==> AddressBytes(s, 0, t.initiatorCert, t.initiatorPub) == AddressBytes(s', 0, t'.initiatorCert, t'.initiatorPub))
    && (q.sha256(AddressBytes(s, 1, t.responderCert, t.responderPub)) == q.sha256(AddressBytes(s', 1, t'.responderCert, t'.responderPub))
        ==> AddressBytes(s, 1, t.responderCert, t.responderPub) == AddressBytes(s', 1, t'.responderCert, t'.responderPub))
  }

  lemma AddressFields(s: bytes, party: byte, cert: bytes, pub: bytes, s': bytes, cert': bytes, pub': bytes)
    requires |s| == |s'| && |cert| == |cert'| && AddressBytes(s, party, cert, pub) == AddressBytes(s', party, cert', pub')
    ensures cert == cert' && pub == pub'
  {
    hide AddressDomain;
    Halves(AddressDomain(), s + ([party] + (cert + pub)), AddressDomain(), s' + ([party] + (cert' + pub')));
    Halves(s, [party] + (cert + pub), s', [party] + (cert' + pub'));
    Halves([party], cert + pub, [party], cert' + pub');
    Halves(cert, pub, cert', pub');
  }

  lemma U8Halves(n: nat, rest: bytes, n': nat, rest': bytes)
    requires n < 256 && n' < 256 && PutU8(n, rest) == PutU8(n', rest')
    ensures n == n' && rest == rest'
  {
    Halves([n], rest, [n'], rest');
  }

  lemma UintHalves(n: int, w: nat, rest: bytes, rest': bytes)
    requires PutUint(n, w, rest) == PutUint(n, w, rest')
    ensures rest == rest'
  {
    var b := BE(if n < 0 then 0 else n, w);
    Halves(b, rest, b, rest');
  }

  /** Equal admitted-trust bytes mean the same session, direction and evidence. */
  lemma AadBinds(q: Primitives, s: bytes, d: nat, t: Trust, s': bytes, d': nat, t': Trust)
    requires |s| == |s'| && d < 256 && d' < 256 && TrustParts(Some(t)) && TrustParts(Some(t'))
    requires NoCollision(q, s, t, s', t')
    requires ExpectedAad(q, s, d, t) == ExpectedAad(q, s', d', t')
    ensures s == s' && d == d' && t == t'
  {
    hide PutUint, PutU8, Profile, AddressBytes;
    var h, a, b := q.sha256(Profile()), q.sha256(AddressBytes(s, 0, t.initiatorCert, t.initiatorPub)), q.sha256(AddressBytes(s, 1, t.responderCert, t.responderPub));
    var a', b' := q.sha256(AddressBytes(s', 0, t'.initiatorCert, t'.initiatorPub)), q.sha256(AddressBytes(s', 1, t'.responderCert, t'.responderPub));
    var c, c' := if d == 0 then t.initiatorCert else t.responderCert, if d' == 0 then t'.initiatorCert else t'.responderCert;
    var r6, r6' := PutU8(0, a + (b + c)), PutU8(0, a' + (b' + c'));
    var r5, r5' := PutU8(d, r6), PutU8(d', r6');
    var r4, r4' := PutUint(4, 2, r5), PutUint(4, 2, r5');
    var r3, r3' := PutUint(1, 2, r4), PutUint(1, 2, r4');
    Halves(RVBA1_MAGIC, PutUint(1, 2, h + (s + r3)), RVBA1_MAGIC, PutUint(1, 2, h + (s' + r3')));
    UintHalves(1, 2, h + (s + r3), h + (s' + r3'));
    Halves(h, s + r3, h, s' + r3');
    Halves(s, r3, s', r3');
    UintHalves(1, 2, r4, r4');
    UintHalves(4, 2, r5, r5');
    U8Halves(d, r6, d', r6');
    U8Halves(0, a + (b + c), 0, a' + (b' + c'));
    Halves(a, b + c, a', b' + c');
    Halves(b, c, b', c');
    AddressFields(s, 0, t.initiatorCert, t.initiatorPub, s', t'.initiatorCert, t'.initiatorPub);
    AddressFields(s, 1, t.responderCert, t.responderPub, s', t'.responderCert, t'.responderPub);
  }

  /** Under this key and nonce the ciphertext opens under no other associated data. */
  ghost predicate OpensOnlyUnder(q: Primitives, k: bytes, nonce: bytes, ciphertext: bytes, ad: bytes) {
    forall other: bytes :: q.open(k, nonce, ciphertext, other).Some? ==> other == ad
  }

  /** One side of a confirmation. */
  datatype Side = Side(i: Rvbi1, e: Rvbe1, p: Prefix, tr: Rvft1, f: Frame, key: Key, epoch: int)

  function Sent(q: Primitives, a: Side): Option<Sealed> { ConfirmSend(q, a.i, a.e, a.p, a.tr, a.f, a.key, a.epoch) }
  function Received(q: Primitives, b: Side): Option<Ec> { ConfirmReceive(q, b.i, b.e, b.p, b.tr, b.f, b.key, b.epoch) }

  function SendKey(q: Primitives, a: Side): Option<(Ec, Key)> { EcSend(q, a.tr.ec) }
  function ReceiveKey(q: Primitives, b: Side): Option<(Ec, Key)> {
    var ch :- b.i.ch;
    var local :- FreshLocal(q, b.e, b.p);
    q.ecDecrypt(b.tr.ec, ch.ecDhPub, ch.ecPn, ch.ecN, local)
  }

  function SealedUnder(q: Primitives, a: Side): bytes {
    EffectiveAd(a.i.mutation.aad, PutRvch1(SendHeader(a.tr, a.i.direction, a.epoch), []), PutFrame(a.f))
  }

  /** What wires and states guarantee of a side: contracts met, 32-byte session, byte-sized chunk type. */
  predicate SideOk(a: Side) {
    && MutationOk(a.i.mutation) && a.i.direction < 256 && |a.p.sessionId| == 32 && TrustParts(a.e.trust)
    && 0 <= a.f.chunkType < 256
  }

  lemma PartsFit(a: Side)
    requires MutationOk(a.i.mutation) && a.i.mutation.needsAead == 1
    ensures Fits(|a.i.mutation.aad|, 4)
    ensures forall v: Rvch1 {:trigger PutRvch1(v, [])} :: Rvch1Fits(v) ==> Fits(|PutRvch1(v, [])|, 4)
    ensures FrameFits(a.f) ==> Fits(|PutFrame(a.f)|, 4)
  {
    hide PutRvch1, PutFrame, Rvch1Fits;
    Widths();
    forall v: Rvch1 | Rvch1Fits(v) ensures Fits(|PutRvch1(v, [])|, 4) { GetOfPutRvch1(v, []); }
    if FrameFits(a.f) { FrameLength(a.f); }
  }

  lemma SentParts(q: Primitives, a: Side)
    requires Sent(q, a).Some?
    ensures var ch := SendHeader(a.tr, a.i.direction, a.epoch);
            && Rvch1Fits(ch) && DirectionOk(ch) && FrameFits(a.f) && SendKey(q, a).Some?
            && Sent(q, a).value.header == PutRvch1(ch, []) && TrustShown(q, a.p.sessionId, a.i, a.e)
            && a.i.mutation.needsAead == 1 && a.i.mutation.mode == 0
            && var (k, nonce) := q.hybrid(SendKey(q, a).value.1, a.key);
               Sent(q, a).value.ciphertext == q.seal(k, nonce, a.i.mutation.body, SealedUnder(q, a))
  {
    hide PutRvch1, PutFrame, EffectiveAd, EcSend, SendHeader, ExpectedAad;
  }

  lemma ReceivedParts(q: Primitives, b: Side)
    requires Received(q, b).Some?
    ensures b.i.ch.Some? && Rvch1Fits(b.i.ch.value) && DirectionOk(b.i.ch.value) && FrameFits(b.f) && ReceiveKey(q, b).Some?
    ensures TrustShown(q, b.p.sessionId, b.i, b.e) && b.i.mutation.needsAead == 1
    ensures var (k, nonce) := q.hybrid(ReceiveKey(q, b).value.1, b.key);
            q.open(k, nonce, b.i.mutation.body, EffectiveAd(b.i.mutation.aad, PutRvch1(b.i.ch.value, []), PutFrame(b.f))).Some?
  {
    hide PutRvch1, PutFrame, EffectiveAd, ExpectedAad, Rvch1Fits, FrameFits, DirectionOk;
    var ch := b.i.ch.value;
    var header, frame := EncodeRvch1(ch).value, EncodeFrame(b.f).value;
    var (k, nonce) := q.hybrid(ReceiveKey(q, b).value.1, b.key);
    assert q.open(k, nonce, b.i.mutation.body, EffectiveAd(b.i.mutation.aad, header, frame)).Some?;
  }

  /** What `ConfirmationBinds` asks of two sides. */
  ghost predicate Meet(q: Primitives, a: Side, b: Side) {
    && SideOk(a) && SideOk(b) && Sent(q, a).Some? && Received(q, b).Some?
    && b.i.mutation.body == Sent(q, a).value.ciphertext && a.key == b.key
    && SendKey(q, a).Some? && ReceiveKey(q, b).Some? && SendKey(q, a).value.1 == ReceiveKey(q, b).value.1
    && (var (k, nonce) := q.hybrid(SendKey(q, a).value.1, a.key);
        OpensOnlyUnder(q, k, nonce, Sent(q, a).value.ciphertext, SealedUnder(q, a)))
    && (a.e.trust.Some? && b.e.trust.Some? ==> NoCollision(q, a.p.sessionId, a.e.trust.value, b.p.sessionId, b.e.trust.value))
  }

  /**
   * A receiver that accepts the sender's ciphertext under the same message key and output key acts on
   * exactly what the sender sealed: the chain header, the frame, the session, the direction and the
   * trust evidence.
   */
  lemma ConfirmationBinds(q: Primitives, a: Side, b: Side)
    requires Meet(q, a, b)
    ensures b.i.ch == Some(SendHeader(a.tr, a.i.direction, a.epoch)) && b.f == a.f && b.epoch == a.epoch
    ensures b.p.sessionId == a.p.sessionId && b.i.direction == a.i.direction && b.e.trust == a.e.trust
  {
    hide PutRvch1, PutFrame, EffectiveAd, EcSend, ExpectedAad, MutationOk, Rvch1Fits, FrameFits, NoCollision, TrustParts;
    SentParts(q, a);
    ReceivedParts(q, b);
    PartsFit(a);
    PartsFit(b);
    EffectiveAdInjective(a.i.mutation.aad, PutRvch1(SendHeader(a.tr, a.i.direction, a.epoch), []), PutFrame(a.f),
                         b.i.mutation.aad, PutRvch1(b.i.ch.value, []), PutFrame(b.f));
    Rvch1RoundTrip(SendHeader(a.tr, a.i.direction, a.epoch));
    Rvch1RoundTrip(b.i.ch.value);
    FrameInverse(a.f, PutFrame(a.f));
    FrameInverse(b.f, PutFrame(b.f));
    AadBinds(q, a.p.sessionId, a.i.direction, a.e.trust.value, b.p.sessionId, b.i.direction, b.e.trust.value);
    ReceivedEpoch(q, b);
  }

  lemma ReceivedEpoch(q: Primitives, b: Side)
    requires Received(q, b).Some?
    ensures b.i.ch.Some? && b.i.ch.value.sckaEpoch == b.epoch && b.i.ch.value.direction == b.i.direction
  {
    hide EffectiveAd, ExpectedAad, EncodeRvch1, EncodeFrame;
  }

  /**
   * Conversely, what the sender sealed opens: a receiver with the same session, evidence, direction,
   * frame, epoch and keys, given the sender's header and ciphertext, accepts unless the header's index
   * lies behind its chain.
   */
  lemma ConfirmationOpens(q: Primitives, a: Side, b: Side)
    requires SideOk(a) && SideOk(b) && Sent(q, a).Some?
    requires b.p.sessionId == a.p.sessionId && b.e.trust == a.e.trust && b.i.direction == a.i.direction
    requires b.f == a.f && b.epoch == a.epoch && b.key == a.key
    requires b.i.ch == Some(SendHeader(a.tr, a.i.direction, a.epoch)) && (b.i.expectedCh.Some? ==> b.i.expectedCh == b.i.ch)
    requires var m := b.i.mutation; m.needsAead == 1 && m.mode == MODE_OPEN && m.aad == a.i.mutation.aad && m.body == Sent(q, a).value.ciphertext
    requires SendKey(q, a).Some? && ReceiveKey(q, b).Some? && SendKey(q, a).value.1 == ReceiveKey(q, b).value.1
    requires OracleOk(b.i.mutation, ReceiveKey(q, b).value.1)
    requires var (k, nonce) := q.hybrid(SendKey(q, a).value.1, a.key);
             q.open(k, nonce, Sent(q, a).value.ciphertext, SealedUnder(q, a)) == Some(a.i.mutation.body)
    ensures Received(q, b) == if Rewinds(b.i.ch.value, b.tr.ec) then None else Some(ReceiveKey(q, b).value.0)
  {
    hide PutRvch1, PutFrame, EffectiveAd, EcSend, ExpectedAad, Rvch1Fits, FrameFits, TrustParts, Rewinds;
    SentParts(q, a);
    var header, frame := EncodeRvch1(b.i.ch.value).value, EncodeFrame(b.f).value;
    var (k, nonce) := q.hybrid(ReceiveKey(q, b).value.1, b.key);
    assert q.open(k, nonce, b.i.mutation.body, EffectiveAd(b.i.mutation.aad, header, frame)) == Some(a.i.mutation.body);
    assert |a.i.mutation.body| <= MAX_PLAINTEXT;
  }

  function Toy(ad: bytes): Primitives {
    var z := ZeroBytes(32);
    Primitives((b: bytes) => z, (ck: bytes) => (z, z), (ec: Ec, dh: bytes, pn: int, n: int, local: Option<Key>) => Some((ec, z)),
               (seed: bytes, sid: bytes, g: int) => z, (mk: Key, key: Key) => (z, z),
               (k: bytes, nonce: bytes, plain: bytes, under: bytes) => ZeroBytes(16),
               (k: bytes, nonce: bytes, ct: bytes, under: bytes) => if under == ad then Some([]) else None)
  }

  /** Two sides that meet: one seals an empty message, the other opens it. */
  lemma SidesMeet() returns (q: Primitives, a: Side, b: Side)
    ensures Meet(q, a, b)
  {
    hide PutRvch1, PutFrame, EffectiveAd, ExpectedAad, AddressBytes;
    var z := ZeroBytes(32);
    var t := Trust(z, z, z, z);
    var e := Rvbe1(0, 0, 0, 0, 0, 0, [], [], [], Some(t));
    var p := Prefix(z, 0, 0, 0, 0, z, z, 1, 0, 0, 0, 0, z, z, z, z);
    var tr := Rvft1(Scka(z, 0, 0, [], [], 0, []), Ec(z, z, z, 0, z, 1, 0, z, z, 0, 0, 0, []));
    var f := Frame(1, 1, 0, z, z);
    var aad := ExpectedAad(Toy([]), z, 0, t);
    var m := Rvbm1(1, 0, z, aad, 0, [], Some(ZeroBytes(16)));
    var i := Rvbi1(0, 0, None, None, None, None, m);
    a := Side(i, e, p, tr, f, z, 1);
    q := Toy(SealedUnder(Toy([]), a));
    var ch := SendHeader(tr, 0, 1);
    b := Side(Rvbi1(1, 0, Some(ch), None, Some(z), Some(PutFrame(f)), m.(mode := 1, body := ZeroBytes(16), expectedCt := None)), e, p, tr, f, z, 1);
    ToyAad(z, t, SealedUnder(Toy([]), a));
    Widths();
    SidesSend(q, a);
    ConfirmationOpens(q, a, b);
  }

  lemma ToyAad(z: bytes, t: Trust, ad: bytes)
    requires |z| == 32 && TrustParts(Some(t))
    ensures ExpectedAad(Toy(ad), z, 0, t) == ExpectedAad(Toy([]), z, 0, t) && |ExpectedAad(Toy([]), z, 0, t)| == RVBA1_LEN
  {
    hide AddressBytes, Profile;
  }

  lemma SidesSend(q: Primitives, a: Side)
    requires a.i.mutation.needsAead == 1 && a.i.mutation.mode == 0 && TrustShown(q, a.p.sessionId, a.i, a.e)
    requires a.tr.ec.ckSendPresent == 1 && Rvch1Fits(SendHeader(a.tr, a.i.direction, a.epoch)) && a.i.direction == 0 && FrameFits(a.f)
    requires OracleOk(a.i.mutation, q.chainStep(a.tr.ec.ckSend).1)
    requires a.i.mutation.expectedCt == Some(Seal(q, a.i.mutation, PutRvch1(SendHeader(a.tr, a.i.direction, a.epoch), []), PutFrame(a.f), q.chainStep(a.tr.ec.ckSend).1, a.key))
    ensures Sent(q, a).Some?
  {
    hide PutRvch1, PutFrame, ExpectedAad, Seal, Rvch1Fits, FrameFits;
  }

  lemma SentEc(q: Primitives, a: Side)
    requires Sent(q, a).Some?
    ensures EcSend(q, a.tr.ec).Some? && Sent(q, a).value.ec == EcSend(q, a.tr.ec).value.0
  {
    hide EcSend, EncodeRvch1, EncodeFrame, Seal, TrustShown, OracleOk;
  }

  lemma EcSendOk(q: Primitives, ec: Ec)
    requires EcOk(ec) && EcSend(q, ec).Some?
    ensures EcOk(EcSend(q, ec).value.0)
    ensures RatchetCodec.EcFits(ec) ==> (RatchetCodec.EcFits(EcSend(q, ec).value.0) <==> ec.ns < 0xFFFF_FFFF)
  {
    hide StrictlySorted;
    Widths();
    var (ck, mk) := q.chainStep(ec.ckSend);
  }

  /** The sending step keeps a ratchet encodable exactly while its message counter has room. */
  lemma SentEncodesIff(q: Primitives, a: Side)
    requires ValidRvft1(a.tr) && RatchetCodec.Encodable(a.tr) && Sent(q, a).Some?
    ensures RatchetCodec.EncodeRvft1(a.tr.(ec := Sent(q, a).value.ec)).Some? <==> a.tr.ec.ns < 0xFFFF_FFFF
  {
    hide Sent, EcOk, EcSend, SckaOk, RatchetCodec.SckaFits, RatchetCodec.EcFits, RatchetCodec.PutRvft1;
    SentEc(q, a);
    EcSendOk(q, a.tr.ec);
    RatchetCodec.SizeCap(a.tr.(ec := Sent(q, a).value.ec));
  }
}
