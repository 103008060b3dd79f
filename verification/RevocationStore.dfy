/** The deny-set store: claims are never forgotten, and their order of arrival does not show. */
module RevocationStore {
  import opened Bytes
  import opened RevocationSnapshot
  import opened Text
  import Address
  import Wire = RevocationWire

  /** SHA-256 and Ed25519 verification of (public key, signature, message). */
  datatype Crypto = Crypto(sha256: Sha256, ed25519: (bytes, bytes, bytes) -> bool)

  datatype Kind = DeviceId | DeviceEdPub | DeviceXPub | DeviceCertHash
  datatype RevokedTarget = RevokedTarget(kind: Kind, value: bytes, claimDigest: Hash, revocationId: bytes)
  datatype Collision = Collision(revocationId: bytes, first: Hash, second: Hash)

  datatype JournalKind = PendingRevoke | PendingRevokeExhausted | OtherKind

  /** A journal as stored: hexadecimal text, of which entries written elsewhere may lack either part. */
  datatype Journal = Journal(kind: JournalKind, digestHex: Option<string>, recordHex: Option<string>)

  /** The last claim of an issuer, and a pair of claims under one number. */
  datatype IssuerHead = IssuerHead(issuerSeq: int, claimDigest: Hash, forkFlag: bool)
  datatype Fork = Fork(issuer: bytes, issuerSeq: int, first: Hash, second: Hash)

  /** The store's fields; `claims` lists the dictionary in insertion order. */
  datatype State = State(
    identityAddress: string,
    generation: int,
    claims: seq<(Hash, bytes)>,
    revoked: seq<RevokedTarget>,
    exhausted: seq<Exhausted>,
    corrupt: seq<Corrupt>,
    seenIds: map<bytes, Hash>,
    collisions: seq<Collision>,
    forks: seq<Fork>,
    issuerHeads: map<bytes, IssuerHead>,
    maxClaims: int,
    journal: Option<Journal>)

  datatype Error = BadWire | AddressMismatch | VerifyFailed | MissingPending | DirectExhaustedConsumption
                 | PendingBytesMismatch | PendingDigestMismatch | StoreCorrupt
  datatype Result = Applied | QuotaExhausted | Idempotent | Raised(error: Error)

  function EmptyState(identityAddress: string, maxClaims: int): State {
    State(identityAddress, 0, [], [], [], [], map[], [], [], map[], maxClaims, None)
  }

  // ----- specification of the operations -----------------------------------------------------

  predicate Verify(crypto: Crypto, rec: Wire.Revocation, pub: bytes) {
    && Address.Encode(crypto.sha256, pub) == rec.identityAddress
    && Wire.SigningBytes(rec).Some?
    && crypto.ed25519(pub, rec.signature, Wire.SigningBytes(rec).value)
  }

  function LineageTargets(rec: Wire.Revocation, cd: Hash): seq<RevokedTarget> {
    [RevokedTarget(DeviceId, rec.deviceId, cd, rec.revocationId),
     RevokedTarget(DeviceEdPub, rec.deviceEdPub, cd, rec.revocationId),
     RevokedTarget(DeviceXPub, rec.deviceXPub, cd, rec.revocationId),
     RevokedTarget(DeviceCertHash, rec.deviceCertHash, cd, rec.revocationId)]
  }

  type Pair = (Kind, bytes)

  /** The four (kind, value) pairs a record revokes. */
  function Lineage(rec: Wire.Revocation): set<Pair> {
    {(DeviceId, rec.deviceId), (DeviceEdPub, rec.deviceEdPub), (DeviceXPub, rec.deviceXPub), (DeviceCertHash, rec.deviceCertHash)}
  }

  function Denied(revoked: seq<RevokedTarget>): set<Pair> { set t | t in revoked :: (t.kind, t.value) }

  /** Targets not yet denied are appended, in order. */
  function AddTargets(revoked: seq<RevokedTarget>, ts: seq<RevokedTarget>): seq<RevokedTarget>
    decreases ts
  {
    if ts == [] then revoked
    else AddTargets(if (ts[0].kind, ts[0].value) in Denied(revoked) then revoked else revoked + [ts[0]], ts[1..])
  }

  function Without(exhausted: seq<Exhausted>, cd: Hash): (r: seq<Exhausted>)
    ensures forall e :: e in r <==> e in exhausted && e.claimDigest != cd
  {
    if exhausted == [] then []
    else
      var front := Without(exhausted[..|exhausted| - 1], cd);
      if exhausted[|exhausted| - 1].claimDigest != cd then front + [exhausted[|exhausted| - 1]] else front
  }

  predicate HasClaim(claims: seq<(Hash, bytes)>, cd: Hash) { exists i :: 0 <= i < |claims| && claims[i].0 == cd }

  /** What the journal has to say about a claim before it is considered. */
  function JournalGate(journal: Option<Journal>, wire: bytes, cd: Hash, pendingWritten: bool): Option<Error> {
    if pendingWritten then
      match journal
      case None => Some(MissingPending)
      case Some(j) =>
        if j.kind == PendingRevokeExhausted then Some(DirectExhaustedConsumption)
        else if j.kind != PendingRevoke then Some(MissingPending)
        else if j.recordHex != Some(Hex(wire)) then Some(PendingBytesMismatch)
        else if j.digestHex != Some(Hex(cd)) then Some(PendingDigestMismatch)
        else None
    else if journal.Some? && journal.value.kind == PendingRevokeExhausted then Some(DirectExhaustedConsumption)
    else None
  }

  /** The claim is kept as a marker only. */
  function Exhaust(st: State, wire: bytes, cd: Hash): State {
    st.(exhausted := Without(st.exhausted, cd) + [Exhausted(st.identityAddress, cd, wire)],
        journal := Some(Journal(PendingRevokeExhausted, Some(Hex(cd)), Some(Hex(wire)))),
        generation := st.generation + 1)
  }

  function Record(st: State, rec: Wire.Revocation, cd: Hash): State {
    if rec.revocationId in st.seenIds && st.seenIds[rec.revocationId] != cd then
      st.(collisions := st.collisions + [Collision(rec.revocationId, st.seenIds[rec.revocationId], cd)])
    else st.(seenIds := st.seenIds[rec.revocationId := cd])
  }

  /** The new claim carries the number of its issuer's last claim. */
  predicate Forked(st: State, rec: Wire.Revocation, cd: Hash) {
    && rec.issuerDeviceId in st.issuerHeads
    && st.issuerHeads[rec.issuerDeviceId].issuerSeq == rec.issuerSeq
    && st.issuerHeads[rec.issuerDeviceId].claimDigest != cd
  }

  function NewForks(st: State, rec: Wire.Revocation, cd: Hash): seq<Fork> {
    if Forked(st, rec, cd) then
      st.forks + [Fork(rec.issuerDeviceId, rec.issuerSeq, st.issuerHeads[rec.issuerDeviceId].claimDigest, cd)]
    else st.forks
  }

  function Admit(st: State, rec: Wire.Revocation, wire: bytes, cd: Hash, pendingWritten: bool): State {
    var st1 := Record(st, rec, cd);
    st1.(claims := st.claims + [(cd, wire)],
         revoked := AddTargets(st.revoked, LineageTargets(rec, cd)),
         exhausted := Without(st.exhausted, cd),
         forks := NewForks(st, rec, cd),
         issuerHeads := st.issuerHeads[rec.issuerDeviceId := IssuerHead(rec.issuerSeq, cd, Forked(st, rec, cd))],
         journal := if pendingWritten || (st.journal.Some? && st.journal.value.kind == PendingRevoke) then None else st.journal,
         generation := st.generation + 1)
  }

  /** `apply_verified_claim` */
  function Apply(crypto: Crypto, st: State, wire: bytes, pub: bytes, pendingWritten: bool): (State, Result) {
    match Wire.Decode(wire)
    case None => (st, Raised(BadWire))
    case Some(rec) =>
      var cd := crypto.sha256(wire);
      if rec.identityAddress != st.identityAddress then (st, Raised(AddressMismatch))
      else if !Verify(crypto, rec, pub) then (st, Raised(VerifyFailed))
      else
        match JournalGate(st.journal, wire, cd, pendingWritten)
        case Some(error) => (st, Raised(error))
        case None =>
          if HasClaim(st.claims, cd) then (st, Idempotent)
          else if st.corrupt != [] then (st, Raised(StoreCorrupt))
          else if |st.claims| >= st.maxClaims then (Exhaust(st, wire, cd), QuotaExhausted)
          else (Admit(st, rec, wire, cd, pendingWritten), Applied)
  }

  function ExpandQuota(st: State, newMax: int): State {
    if newMax < st.maxClaims then st else st.(maxClaims := newMax)
  }

  /** An exhausted journal with both its parts. */
  predicate Convertible(journal: Option<Journal>) {
    journal.Some? && journal.value.kind == PendingRevokeExhausted && journal.value.digestHex.Some? && journal.value.recordHex.Some?
  }

  function ConvertJournal(st: State): State {
    if Convertible(st.journal) then
      st.(journal := Some(st.journal.value.(kind := PendingRevoke)))
    else st
  }

  /** `Malformed`: the journal's record is absent or not hexadecimal, which raises before anything is changed. */
  datatype Reverified = NoJournal | Malformed | Ok | Failed(reasonCode: int)

  /** The bytes to re-verify: those supplied, or the journal's. */
  function JournalledBytes(journal: Journal): Option<bytes> {
    var text :- journal.recordHex;
    FromHex(text)
  }

  /** The checks on the bytes, in order, with the reason code of the first that fails. */
  function CheckBytes(crypto: Crypto, journal: Option<Journal>, wire: bytes, pub: bytes, claimed: Option<bytes>): Reverified {
    if |wire| < 54 then Failed(1)
    else
      match Wire.Decode(wire)
      case None => Failed(9)
      case Some(rec) =>
        var cd := crypto.sha256(wire);
        if claimed.Some? && claimed.value != cd then Failed(2)
        else if journal.Some? && journal.value.digestHex.Some? && journal.value.digestHex.value != "" then
          match FromHex(journal.value.digestHex.value)
          case None => Failed(9)
          case Some(digest) => if digest != cd then Failed(2) else if !Verify(crypto, rec, pub) then Failed(3) else Ok
        else if !Verify(crypto, rec, pub) then Failed(3)
        else Ok
  }

  /** The outcome of re-verifying journalled or supplied bytes. */
  function ReverifyOutcome(crypto: Crypto, st: State, pub: bytes, exact: Option<bytes>, claimed: Option<bytes>): Reverified {
    if st.journal.None? && exact.None? then NoJournal
    else
      match if exact.Some? then exact else JournalledBytes(st.journal.value)
      case None => Malformed
      case Some(wire) => CheckBytes(crypto, st.journal, wire, pub, claimed)
  }

  function Reverify(crypto: Crypto, st: State, pub: bytes, exact: Option<bytes>, claimed: Option<bytes>): State {
    match ReverifyOutcome(crypto, st, pub, exact, claimed)
    case Failed(code) =>
      st.(corrupt := st.corrupt + [Corrupt(st.identityAddress, code)], journal := None, generation := st.generation + 1)
    case _ => st
  }

  datatype Device = Device(id: Option<bytes>, edPub: Option<bytes>, xPub: Option<bytes>, certHash: Option<bytes>)

  function Presents(d: Device): seq<(Kind, Option<bytes>)> {
    [(DeviceId, d.id), (DeviceEdPub, d.edPub), (DeviceXPub, d.xPub), (DeviceCertHash, d.certHash)]
  }

  datatype Verdict = Authorized | RefusedCorrupt | RefusedExhausted | RefusedTarget(kind: Kind)

  predicate MarkedExhausted(st: State) {
    exists i :: 0 <= i < |st.exhausted| && st.exhausted[i].identityAddress == st.identityAddress
  }

  /** A device value is on the deny list. */
  predicate Matches(st: State, k: Kind, v: Option<bytes>) { v.Some? && (k, v.value) in Denied(st.revoked) }

  ghost predicate VerdictOk(st: State, d: Device, v: Verdict) {
    match v
    case RefusedCorrupt => st.corrupt != []
    case RefusedExhausted => st.corrupt == [] && MarkedExhausted(st)
    case RefusedTarget(kind) =>
      && st.corrupt == [] && !MarkedExhausted(st)
      && exists i :: 0 <= i < 4 && Presents(d)[i].0 == kind && Matches(st, kind, Presents(d)[i].1)
                     && forall j :: 0 <= j < i ==> !Matches(st, Presents(d)[j].0, Presents(d)[j].1)
    case Authorized =>
      && st.corrupt == [] && !MarkedExhausted(st)
      && forall i :: 0 <= i < 4 ==> !Matches(st, Presents(d)[i].0, Presents(d)[i].1)
  }

  // ----- the code: fields updated in place ------------------------------------------------------

  class ConformanceStore {
    const identityAddress: string
    var generation: int
    var claims: seq<(Hash, bytes)>
    var revoked: seq<RevokedTarget>
    var exhausted: seq<Exhausted>
    var corrupt: seq<Corrupt>
    var seenIds: map<bytes, Hash>
    var collisions: seq<Collision>
    var forks: seq<Fork>
    var issuerHeads: map<bytes, IssuerHead>
    var maxClaims: int
    var journal: Option<Journal>

    function View(): State
      reads this
    {
      State(identityAddress, generation, claims, revoked, exhausted, corrupt, seenIds, collisions, forks, issuerHeads, maxClaims, journal)
    }

    constructor (identityAddress: string, maxClaims: int)
      ensures View() == EmptyState(identityAddress, maxClaims)
    {
      this.identityAddress, this.maxClaims := identityAddress, maxClaims;
      generation, claims, revoked, exhausted, corrupt := 0, [], [], [], [];
      seenIds, collisions, forks, issuerHeads, journal := map[], [], [], map[], None;
    }

    /** `_append_targets` */
    method AppendTargets(rec: Wire.Revocation, cd: Hash)
      modifies this`revoked
      ensures revoked == AddTargets(old(revoked), LineageTargets(rec, cd))
    {
      var existing := Denied(revoked);
      var ts := LineageTargets(rec, cd);
      var i := 0;
      while i < |ts|
        invariant 0 <= i <= |ts|
        invariant existing == Denied(revoked)
        invariant AddTargets(revoked, ts[i..]) == AddTargets(old(revoked), ts)
      {
        var t := ts[i];
        assert ts[i..][1..] == ts[i + 1..];
        if (t.kind, t.value) !in existing {
          DeniedSnoc(revoked, t);
          revoked := revoked + [t];
          existing := existing + {(t.kind, t.value)};
        }
        i := i + 1;
      }
    }

    /** Revocation-id bookkeeping: the first digest per id, later ones as collisions. */
    method NoteId(rid: bytes, cd: Hash)
      modifies this`seenIds, this`collisions
      ensures rid in old(seenIds) && old(seenIds)[rid] != cd ==>
                seenIds == old(seenIds) && collisions == old(collisions) + [Collision(rid, old(seenIds)[rid], cd)]
      ensures !(rid in old(seenIds) && old(seenIds)[rid] != cd) ==>
                seenIds == old(seenIds)[rid := cd] && collisions == old(collisions)
    {
      if rid in seenIds && seenIds[rid] != cd {
        collisions := collisions + [Collision(rid, seenIds[rid], cd)];
      } else {
        seenIds := seenIds[rid := cd];
      }
    }

    /** Issuer bookkeeping: a fork against the issuer's last claim, which is then replaced. */
    method NoteIssuer(rec: Wire.Revocation, cd: Hash)
      modifies this`forks, this`issuerHeads
      ensures forks == NewForks(old(View()), rec, cd)
      ensures issuerHeads == old(issuerHeads)[rec.issuerDeviceId := IssuerHead(rec.issuerSeq, cd, Forked(old(View()), rec, cd))]
    {
      var issuer := rec.issuerDeviceId;
      var forked := issuer in issuerHeads && issuerHeads[issuer].issuerSeq == rec.issuerSeq && issuerHeads[issuer].claimDigest != cd;
      if forked {
        forks := forks + [Fork(issuer, rec.issuerSeq, issuerHeads[issuer].claimDigest, cd)];
      }
      issuerHeads := issuerHeads[issuer := IssuerHead(rec.issuerSeq, cd, forked)];
    }

    /** The insertion branch: bookkeeping, claim, targets, markers and journal. */
    method InsertClaim(rec: Wire.Revocation, wire: bytes, cd: Hash, pendingWritten: bool)
      modifies this
      ensures View() == Admit(old(View()), rec, wire, cd, pendingWritten)
    {
      hide Without, AddTargets, LineageTargets, NewForks, Forked;
      ghost var before := View();
      NoteId(rec.revocationId, cd);
      NoteIssuer(rec, cd);
      SameHeads(before, before.(seenIds := seenIds, collisions := collisions), rec, cd);
      claims := claims + [(cd, wire)];
      AppendTargets(rec, cd);
      exhausted := Without(exhausted, cd);
      if pendingWritten || (journal.Some? && journal.value.kind == PendingRevoke) {
        journal := None;
      }
      generation := generation + 1;
    }

    method ApplyVerifiedClaim(crypto: Crypto, wire: bytes, pub: bytes, pendingWritten: bool) returns (r: Result)
      modifies this
      ensures (View(), r) == Apply(crypto, old(View()), wire, pub, pendingWritten)
    {
      hide Without, Admit, Verify, HasClaim, JournalGate, Wire.Decode;
      var decoded := Wire.DecodeWire(wire);
      if decoded == None {
        return Raised(BadWire);
      }
      var rec := decoded.value;
      if rec.identityAddress != identityAddress {
        return Raised(AddressMismatch);
      }
      if !Verify(crypto, rec, pub) {
        return Raised(VerifyFailed);
      }
      var cd := crypto.sha256(wire);
      var gate := JournalGate(journal, wire, cd, pendingWritten);
      if gate.Some? {
        return Raised(gate.value);
      }
      if HasClaim(claims, cd) {
        return Idempotent;
      }
      if corrupt != [] {
        return Raised(StoreCorrupt);
      }
      if |claims| >= maxClaims {
        exhausted := Without(exhausted, cd) + [Exhausted(identityAddress, cd, wire)];
        journal := Some(Journal(PendingRevokeExhausted, Some(Hex(cd)), Some(Hex(wire))));
        generation := generation + 1;
        return QuotaExhausted;
      }
      InsertClaim(rec, wire, cd, pendingWritten);
      return Applied;
    }

    method Expand(newMax: int) returns (ok: bool)
      modifies this`maxClaims
      ensures View() == ExpandQuota(old(View()), newMax) && (ok <==> newMax >= old(maxClaims))
    {
      ok := newMax >= maxClaims;
      if ok {
        maxClaims := newMax;
      }
    }

    method ConvertExhaustedJournalToPending() returns (ok: bool)
      modifies this`journal
      ensures View() == ConvertJournal(old(View()))
      ensures ok <==> Convertible(old(journal))
    {
      if journal.None? || journal.value.kind != PendingRevokeExhausted {
        return false;
      }
      if journal.value.digestHex.None? || journal.value.recordHex.None? {
        return false;
      }
      journal := Some(Journal(PendingRevoke, journal.value.digestHex, journal.value.recordHex));
      return true;
    }

    method ReverifyJournal(crypto: Crypto, pub: bytes, exact: Option<bytes>, claimed: Option<bytes>) returns (r: Reverified)
      modifies this
      ensures r == ReverifyOutcome(crypto, old(View()), pub, exact, claimed)
      ensures View() == Reverify(crypto, old(View()), pub, exact, claimed)
    {
      hide Verify, Wire.Decode, FromHex;
      if journal.None? && exact.None? {
        return NoJournal;
      }
      var found := if exact.Some? then exact else JournalledBytes(journal.value);
      if found.None? {
        return Malformed;
      }
      var checked := CheckJournalled(crypto, found.value, pub, claimed);
      if checked.Ok? {
        return Ok;
      }
      var code := checked.reasonCode;
      corrupt := corrupt + [Corrupt(identityAddress, code)];
      journal := None;
      generation := generation + 1;
      return Failed(code);
    }

    /** The `try` block of `reverify_journal`: the reason of the first check that raises. */
    method CheckJournalled(crypto: Crypto, wire: bytes, pub: bytes, claimed: Option<bytes>) returns (r: Reverified)
      ensures r == CheckBytes(crypto, journal, wire, pub, claimed) && (r.Ok? || r.Failed?)
    {
      hide Verify, Wire.Decode, FromHex;
      if |wire| < 54 {
        return Failed(1);
      }
      var rec := Wire.DecodeWire(wire);
      if rec.None? {
        return Failed(9);
      }
      var cd := crypto.sha256(wire);
      if claimed.Some? && claimed.value != cd {
        return Failed(2);
      }
      if journal.Some? && journal.value.digestHex.Some? && journal.value.digestHex.value != "" {
        var digest := FromHex(journal.value.digestHex.value);
        if digest.None? {
          return Failed(9);
        }
        if digest.value != cd {
          return Failed(2);
        }
      }
      if !Verify(crypto, rec.value, pub) {
        return Failed(3);
      }
      return Ok;
    }

    /** `authorize_device`: the nested search over presented values and revoked targets. */
    method AuthorizeDevice(d: Device) returns (v: Verdict)
      ensures VerdictOk(View(), d, v)
    {
      ghost var st := View();
      if corrupt != [] {
        return RefusedCorrupt;
      }
      if exists i :: 0 <= i < |exhausted| && exhausted[i].identityAddress == identityAddress {
        return RefusedExhausted;
      }
      var checks := Presents(d);
      var i := 0;
      while i < |checks|
        invariant 0 <= i <= |checks|
        invariant forall j :: 0 <= j < i ==> !Matches(st, checks[j].0, checks[j].1)
      {
        var (kind, val) := checks[i];
        if val.Some? {
          var n := 0;
          while n < |revoked|
            invariant 0 <= n <= |revoked|
            invariant forall m :: 0 <= m < n ==> (revoked[m].kind, revoked[m].value) != (kind, val.value)
          {
            if revoked[n].kind == kind && revoked[n].value == val.value {
              assert revoked[n] in revoked;
              assert Matches(st, kind, val);
              return RefusedTarget(kind);
            }
            n := n + 1;
          }
        }
        assert !Matches(st, kind, val);
        i := i + 1;
      }
      return Authorized;
    }
  }

  /** Fork detection looks at the issuer heads only. */
  lemma SameHeads(st: State, st': State, rec: Wire.Revocation, cd: Hash)
    requires st'.issuerHeads == st.issuerHeads && st'.forks == st.forks
    ensures NewForks(st', rec, cd) == NewForks(st, rec, cd) && Forked(st', rec, cd) == Forked(st, rec, cd)
  {}

  lemma DeniedSnoc(revoked: seq<RevokedTarget>, t: RevokedTarget)
    ensures Denied(revoked + [t]) == Denied(revoked) + {(t.kind, t.value)}
  {
    forall p ensures p in Denied(revoked + [t]) <==> p in Denied(revoked) + {(t.kind, t.value)} {
      if p in Denied(revoked) {
        var u :| u in revoked && p == (u.kind, u.value);
        assert u in revoked + [t];
      }
      if p == (t.kind, t.value) {
        assert t in revoked + [t];
      }
    }
  }
}
