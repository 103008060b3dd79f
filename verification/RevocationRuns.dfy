/** Whole runs of the revocation store. */
module RevocationRuns {
  import opened Bytes
  import opened Collections
  import opened Text
  import opened RevocationSnapshot
  import opened RevocationStore
  import Address
  import Sorting
  import Wire = RevocationWire

  /** Everything that can happen to a store; the journal may also be written from outside. */
  datatype Op =
    | ApplyClaim(wire: bytes, pub: bytes, pendingWritten: bool)
    | Expand(newMax: int)
    | Convert
    | Reverifying(pub: bytes, exact: Option<bytes>, claimed: Option<bytes>)
    | WriteJournal(journal: Option<Journal>)

  function Step(crypto: Crypto, st: State, op: Op): State {
    match op
    case ApplyClaim(wire, pub, pendingWritten) => Apply(crypto, st, wire, pub, pendingWritten).0
    case Expand(newMax) => ExpandQuota(st, newMax)
    case Convert => ConvertJournal(st)
    case Reverifying(pub, exact, claimed) => Reverify(crypto, st, pub, exact, claimed)
    case WriteJournal(journal) => st.(journal := journal)
  }

  function Run(crypto: Crypto, st: State, ops: seq<Op>): State {
    if ops == [] then st else Step(crypto, Run(crypto, st, ops[..|ops| - 1]), ops[|ops| - 1])
  }

  // ----- a revoked lineage stays refused -----------------------------------------------------

  ghost predicate Marked(st: State, cd: Hash) {
    exists e :: e in st.exhausted && e.identityAddress == st.identityAddress && e.claimDigest == cd
  }

  ghost predicate Listed(st: State, wire: bytes) {
    Wire.Decode(wire).Some? && Lineage(Wire.Decode(wire).value) <= Denied(st.revoked)
  }

  /** The store refuses the claim's whole lineage, for one of three reasons. */
  ghost predicate Blocked(crypto: Crypto, st: State, wire: bytes) {
    st.corrupt != [] || Marked(st, crypto.sha256(wire)) || Listed(st, wire)
  }

  lemma {:induction false} AddTargetsDenies(revoked: seq<RevokedTarget>, ts: seq<RevokedTarget>)
    ensures Denied(AddTargets(revoked, ts)) == Denied(revoked) + Denied(ts)
    ensures revoked <= AddTargets(revoked, ts)
    decreases ts
  {
    if ts != [] {
      hide Denied;
      var t := ts[0];
      DeniedSnoc(revoked, t);
      DeniedCons(ts);
      AddTargetsDenies(if (t.kind, t.value) in Denied(revoked) then revoked else revoked + [t], ts[1..]);
      assert Denied(revoked) + ({(t.kind, t.value)} + Denied(ts[1..])) == Denied(revoked) + {(t.kind, t.value)} + Denied(ts[1..]);
    } else {
      assert Denied(revoked) + {} == Denied(revoked);
    }
  }

  lemma DeniedCons(ts: seq<RevokedTarget>)
    requires ts != []
    ensures Denied(ts) == {(ts[0].kind, ts[0].value)} + Denied(ts[1..])
  {
    assert forall t :: t in ts <==> t == ts[0] || t in ts[1..];
  }

  lemma LineageDenied(rec: Wire.Revocation, cd: Hash)
    ensures Denied(LineageTargets(rec, cd)) == Lineage(rec)
  {
    var ts := LineageTargets(rec, cd);
    assert ts[0] in ts && ts[1] in ts && ts[2] in ts && ts[3] in ts;
  }

  lemma AdmitDenies(st: State, rec: Wire.Revocation, wire: bytes, cd: Hash, pendingWritten: bool)
    ensures Denied(Admit(st, rec, wire, cd, pendingWritten).revoked) == Denied(st.revoked) + Lineage(rec)
  {
    hide Denied, Lineage, LineageTargets, AddTargets, Without;
    AddTargetsDenies(st.revoked, LineageTargets(rec, cd));
    LineageDenied(rec, cd);
  }

  /** A claim that was applied, or only marked for want of room, blocks its lineage. */
  lemma ApplyBlocks(crypto: Crypto, st: State, wire: bytes, pub: bytes, pendingWritten: bool)
    requires Apply(crypto, st, wire, pub, pendingWritten).1 == Applied || Apply(crypto, st, wire, pub, pendingWritten).1 == QuotaExhausted
    ensures Blocked(crypto, Apply(crypto, st, wire, pub, pendingWritten).0, wire)
  {
    hide Denied, Lineage, Verify, HasClaim, JournalGate, Wire.Decode, Without, AddTargets;
    var rec, cd := Wire.Decode(wire).value, crypto.sha256(wire);
    AdmitDenies(st, rec, wire, cd, pendingWritten);
    var marker := Exhausted(st.identityAddress, cd, wire);
    assert marker in Exhaust(st, wire, cd).exhausted;
  }

  lemma ApplyKeepsBlocked(crypto: Crypto, st: State, wire: bytes, w: bytes, pub: bytes, pendingWritten: bool)
    requires Blocked(crypto, st, wire) && (crypto.sha256(w) == crypto.sha256(wire) ==> w == wire)
    ensures Blocked(crypto, Apply(crypto, st, w, pub, pendingWritten).0, wire)
  {
    hide Denied, Lineage, Verify, HasClaim, JournalGate, Wire.Decode, Blocked, AddTargets;
    var (st', r) := Apply(crypto, st, w, pub, pendingWritten);
    if w == wire && (r == Applied || r == QuotaExhausted) {
      ApplyBlocks(crypto, st, w, pub, pendingWritten);
    } else if r == Applied || r == QuotaExhausted {
      OtherClaimKeepsBlocked(crypto, st, wire, w, pendingWritten);
    }
  }

  lemma OtherClaimKeepsBlocked(crypto: Crypto, st: State, wire: bytes, w: bytes, pendingWritten: bool)
    requires Blocked(crypto, st, wire) && crypto.sha256(w) != crypto.sha256(wire) && Wire.Decode(w).Some?
    ensures Blocked(crypto, Admit(st, Wire.Decode(w).value, w, crypto.sha256(w), pendingWritten), wire)
    ensures Blocked(crypto, Exhaust(st, w, crypto.sha256(w)), wire)
  {
    hide Denied, Lineage, Wire.Decode, AddTargets;
    var cd := crypto.sha256(w);
    AdmitDenies(st, Wire.Decode(w).value, w, cd, pendingWritten);
    if Marked(st, crypto.sha256(wire)) {
      var e :| e in st.exhausted && e.identityAddress == st.identityAddress && e.claimDigest == crypto.sha256(wire);
      assert e in Without(st.exhausted, cd);
      assert e in Exhaust(st, w, cd).exhausted;
    }
  }

  /** The step brings no other bytes with the claim's digest. */
  predicate Distinguishes(crypto: Crypto, wire: bytes, op: Op) {
    op.ApplyClaim? && crypto.sha256(op.wire) == crypto.sha256(wire) ==> op.wire == wire
  }

  lemma StepKeepsBlocked(crypto: Crypto, st: State, op: Op, wire: bytes)
    requires Blocked(crypto, st, wire) && Distinguishes(crypto, wire, op)
    ensures Blocked(crypto, Step(crypto, st, op), wire)
  {
    hide Denied, Lineage, Apply, ReverifyOutcome, Wire.Decode;
    match op
    case ApplyClaim(w, pub, pendingWritten) => ApplyKeepsBlocked(crypto, st, wire, w, pub, pendingWritten);
    case _ =>
  }

  lemma {:induction false} RunKeepsBlocked(crypto: Crypto, st: State, ops: seq<Op>, wire: bytes)
    requires Blocked(crypto, st, wire) && forall i :: 0 <= i < |ops| ==> Distinguishes(crypto, wire, ops[i])
    ensures Blocked(crypto, Run(crypto, st, ops), wire)
  {
    hide Blocked, Step, Distinguishes;
    if ops != [] {
      RunKeepsBlocked(crypto, st, ops[..|ops| - 1], wire);
      StepKeepsBlocked(crypto, Run(crypto, st, ops[..|ops| - 1]), ops[|ops| - 1], wire);
    }
  }

  /** The device presents one of the record's four lineage values. */
  ghost predicate Shares(d: Device, rec: Wire.Revocation) {
    exists i :: 0 <= i < 4 && Presents(d)[i].1.Some? && (Presents(d)[i].0, Presents(d)[i].1.value) in Lineage(rec)
  }

  lemma BlockedRefuses(crypto: Crypto, st: State, wire: bytes, d: Device, v: Verdict)
    requires Blocked(crypto, st, wire) && Wire.Decode(wire).Some? && Shares(d, Wire.Decode(wire).value)
    requires VerdictOk(st, d, v)
    ensures v != Authorized
  {
    hide Denied, Lineage, Wire.Decode;
    if st.corrupt == [] && !Listed(st, wire) {
      var e :| e in st.exhausted && e.identityAddress == st.identityAddress && e.claimDigest == crypto.sha256(wire);
      var n :| 0 <= n < |st.exhausted| && st.exhausted[n] == e;
      assert MarkedExhausted(st);
    } else if st.corrupt == [] {
      var rec := Wire.Decode(wire).value;
      var i :| 0 <= i < 4 && Presents(d)[i].1.Some? && (Presents(d)[i].0, Presents(d)[i].1.value) in Lineage(rec);
      assert Matches(st, Presents(d)[i].0, Presents(d)[i].1);
    }
  }

  /**
   * From any state: once a claim has been applied or marked exhausted, every device that shares one
   * of its lineage values is refused after any further steps whatever that bring no other bytes with
   * the claim's digest.
   */
  lemma RevokedForever(crypto: Crypto, st: State, wire: bytes, pub: bytes, pendingWritten: bool, ops: seq<Op>, d: Device, v: Verdict)
    requires forall i :: 0 <= i < |ops| ==> Distinguishes(crypto, wire, ops[i])
    requires Apply(crypto, st, wire, pub, pendingWritten).1 == Applied || Apply(crypto, st, wire, pub, pendingWritten).1 == QuotaExhausted
    requires Wire.Decode(wire).Some? && Shares(d, Wire.Decode(wire).value)
    requires VerdictOk(Run(crypto, Apply(crypto, st, wire, pub, pendingWritten).0, ops), d, v)
    ensures v != Authorized
  {
    hide Distinguishes, Blocked, Run, Apply, VerdictOk, Shares, Wire.Decode;
    ApplyBlocks(crypto, st, wire, pub, pendingWritten);
    var st' := Apply(crypto, st, wire, pub, pendingWritten).0;
    RunKeepsBlocked(crypto, st', ops, wire);
    BlockedRefuses(crypto, Run(crypto, st', ops), wire, d, v);
  }

  // ----- the replay path after exhaustion ------------------------------------------------------

  /** The journal an exhausted claim leaves behind always re-verifies under the same key. */
  lemma OwnJournalReverifies(crypto: Crypto, st: State, wire: bytes, pub: bytes, pendingWritten: bool)
    requires Apply(crypto, st, wire, pub, pendingWritten).1 == QuotaExhausted
    ensures ReverifyOutcome(crypto, Apply(crypto, st, wire, pub, pendingWritten).0, pub, None, None) == Ok
  {
    hide Verify, HasClaim, JournalGate, Wire.Decode, Without, Hex, FromHex;
    LongEnough(wire);
    FromHexOfHex(wire);
    FromHexOfHex(crypto.sha256(wire));
  }

  lemma LongEnough(wire: bytes)
    ensures Wire.Decode(wire).Some? ==> |wire| >= 54
  {
    hide Wire.Decode;
    Wire.DecodeNeeds(wire);
  }

  /**
   * An exhausted claim is refused until the quota has grown and the journal was converted; then the
   * same bytes are applied, which clears journal and marker.
   */
  lemma ReplayAfterExpand(crypto: Crypto, st: State, wire: bytes, pub: bytes, newMax: int)
    requires Apply(crypto, st, wire, pub, false).1 == QuotaExhausted && newMax > |st.claims|
    ensures var st1 := Apply(crypto, st, wire, pub, false).0;
            var st2 := ConvertJournal(ExpandQuota(st1, newMax));
            var (st3, r) := Apply(crypto, st2, wire, pub, true);
            && (forall pending :: Apply(crypto, st1, wire, pub, pending).1 == Raised(DirectExhaustedConsumption))
            && r == Applied && st3.journal == None && !Marked(st3, crypto.sha256(wire)) && Listed(st3, wire)
            && st3.claims == st.claims + [(crypto.sha256(wire), wire)] && st3.generation == st.generation + 2
  {
    hide Verify, HasClaim, Wire.Decode, AddTargets, Denied, Lineage, Hex, NewForks, Forked;
    var st1 := Apply(crypto, st, wire, pub, false).0;
    var st2 := ConvertJournal(ExpandQuota(st1, newMax));
    AdmitDenies(st2, Wire.Decode(wire).value, wire, crypto.sha256(wire), true);
  }

  // ----- what every reachable store holds --------------------------------------------------------

  ghost predicate ClaimsOk(crypto: Crypto, st: State) {
    && (forall i :: 0 <= i < |st.claims| ==>
          st.claims[i].0 == crypto.sha256(st.claims[i].1) && Wire.Decode(st.claims[i].1).Some?)
    && (forall i, j :: 0 <= i < j < |st.claims| ==> st.claims[i].0 != st.claims[j].0)
  }

  /** The pair is in the lineage of some stored claim. */
  ghost predicate FromClaims(st: State, p: Pair) {
    exists i :: 0 <= i < |st.claims| && Wire.Decode(st.claims[i].1).Some? && p in Lineage(Wire.Decode(st.claims[i].1).value)
  }

  ghost predicate DeniedOk(st: State) { forall p :: p in Denied(st.revoked) <==> FromClaims(st, p) }

  ghost predicate HasId(st: State, id: bytes) {
    exists i :: 0 <= i < |st.claims| && Wire.Decode(st.claims[i].1).Some? && Wire.Decode(st.claims[i].1).value.revocationId == id
  }

  /** The first digest per revocation id; every further claim with that id is a recorded collision. */
  ghost predicate IdsOk(st: State) {
    && (forall id :: id in st.seenIds <==> HasId(st, id))
    && (forall id :: id in st.seenIds ==> HasClaim(st.claims, st.seenIds[id]))
    && |st.claims| == |st.seenIds| + |st.collisions|
  }

  /** Issuer and number of a stored claim. */
  function IssuerOf(c: (Hash, bytes)): Option<(bytes, int)> {
    match Wire.Decode(c.1)
    case None => None
    case Some(rec) => Some((rec.issuerDeviceId, rec.issuerSeq))
  }

  predicate IssuedBy(c: (Hash, bytes), issuer: bytes) { IssuerOf(c).Some? && IssuerOf(c).value.0 == issuer }

  /** The last claim of an issuer, or -1. */
  function LastBy(claims: seq<(Hash, bytes)>, issuer: bytes): (i: int)
    ensures -1 <= i < |claims|
  {
    if claims == [] then -1
    else if IssuedBy(claims[|claims| - 1], issuer) then |claims| - 1
    else LastBy(claims[..|claims| - 1], issuer)
  }

  lemma {:induction false} LastByIs(claims: seq<(Hash, bytes)>, issuer: bytes)
    ensures LastBy(claims, issuer) >= 0 ==> IssuedBy(claims[LastBy(claims, issuer)], issuer)
    ensures forall k :: LastBy(claims, issuer) < k < |claims| ==> !IssuedBy(claims[k], issuer)
  {
    hide IssuedBy;
    if claims != [] && !IssuedBy(claims[|claims| - 1], issuer) {
      LastByIs(claims[..|claims| - 1], issuer);
    }
  }

  /** Forks by the claims alone: each claim against its issuer's claim before it. */
  function ForksOf(claims: seq<(Hash, bytes)>): seq<Fork> {
    if claims == [] then []
    else
      var front, last := claims[..|claims| - 1], claims[|claims| - 1];
      match IssuerOf(last)
      case None => ForksOf(front)
      case Some(made) =>
        var p := LastBy(front, made.0);
        if p >= 0 && IssuerOf(front[p]) == Some(made) then ForksOf(front) + [Fork(made.0, made.1, front[p].0, last.0)]
        else ForksOf(front)
  }

  /** The heads are the issuers' last claims, and the recorded forks are those of the claims. */
  ghost predicate ForksOk(st: State) {
    && st.forks == ForksOf(st.claims)
    && (forall issuer :: issuer in st.issuerHeads <==> LastBy(st.claims, issuer) >= 0)
    && (forall issuer :: issuer in st.issuerHeads ==>
          var c := st.claims[LastBy(st.claims, issuer)];
          st.issuerHeads[issuer].claimDigest == c.0 && IssuerOf(c) == Some((issuer, st.issuerHeads[issuer].issuerSeq)))
  }

  ghost predicate StoreOk(crypto: Crypto, st: State) { ClaimsOk(crypto, st) && DeniedOk(st) && IdsOk(st) && ForksOk(st) }

  lemma FromClaimsSnoc(st: State, st': State, cd: Hash, wire: bytes, p: Pair)
    requires st'.claims == st.claims + [(cd, wire)] && Wire.Decode(wire).Some?
    ensures FromClaims(st', p) <==> FromClaims(st, p) || p in Lineage(Wire.Decode(wire).value)
  {
    hide Wire.Decode, Lineage;
    var n := |st.claims|;
    assert st'.claims[n] == (cd, wire);
    if FromClaims(st, p) {
      var i :| 0 <= i < n && Wire.Decode(st.claims[i].1).Some? && p in Lineage(Wire.Decode(st.claims[i].1).value);
      assert st'.claims[i] == st.claims[i];
    }
  }

  lemma HasIdSnoc(st: State, st': State, cd: Hash, wire: bytes, id: bytes)
    requires st'.claims == st.claims + [(cd, wire)] && Wire.Decode(wire).Some?
    ensures HasId(st', id) <==> HasId(st, id) || id == Wire.Decode(wire).value.revocationId
  {
    hide Wire.Decode;
    var n := |st.claims|;
    assert st'.claims[n] == (cd, wire);
    if HasId(st, id) {
      var i :| 0 <= i < n && Wire.Decode(st.claims[i].1).Some? && Wire.Decode(st.claims[i].1).value.revocationId == id;
      assert st'.claims[i] == st.claims[i];
    }
  }

  lemma AdmitKeepsDenied(st: State, wire: bytes, cd: Hash, pendingWritten: bool)
    requires DeniedOk(st) && Wire.Decode(wire).Some?
    ensures DeniedOk(Admit(st, Wire.Decode(wire).value, wire, cd, pendingWritten))
  {
    hide Wire.Decode, Lineage, Denied, FromClaims, AddTargets, Without;
    var rec := Wire.Decode(wire).value;
    var st' := Admit(st, rec, wire, cd, pendingWritten);
    AdmitDenies(st, rec, wire, cd, pendingWritten);
    forall p ensures p in Denied(st'.revoked) <==> FromClaims(st', p) { FromClaimsSnoc(st, st', cd, wire, p); }
  }

  lemma HasClaimSnoc(claims: seq<(Hash, bytes)>, c: (Hash, bytes))
    ensures forall cd :: HasClaim(claims + [c], cd) <==> HasClaim(claims, cd) || cd == c.0
  {
    var longer := claims + [c];
    assert longer[|claims|] == c;
    forall cd | HasClaim(claims, cd) ensures HasClaim(longer, cd) {
      var i :| 0 <= i < |claims| && claims[i].0 == cd;
      assert longer[i] == claims[i];
    }
  }

  lemma AdmitKeepsIds(st: State, wire: bytes, cd: Hash, pendingWritten: bool)
    requires IdsOk(st) && Wire.Decode(wire).Some? && !HasClaim(st.claims, cd)
    ensures IdsOk(Admit(st, Wire.Decode(wire).value, wire, cd, pendingWritten))
  {
    hide Wire.Decode, HasId, HasClaim, AddTargets, Without, LineageTargets, NewForks, Forked;
    var rec := Wire.Decode(wire).value;
    var id := rec.revocationId;
    var st' := Admit(st, rec, wire, cd, pendingWritten);
    HasClaimSnoc(st.claims, (cd, wire));
    forall x ensures HasId(st', x) <==> HasId(st, x) || x == id { HasIdSnoc(st, st', cd, wire, x); }
    if id in st.seenIds {
      assert st.seenIds[id] != cd;
    } else {
      assert st'.seenIds == st.seenIds[id := cd];
    }
  }

  lemma AdmitKeepsClaims(crypto: Crypto, st: State, wire: bytes, pendingWritten: bool)
    requires ClaimsOk(crypto, st) && Wire.Decode(wire).Some? && !HasClaim(st.claims, crypto.sha256(wire))
    ensures ClaimsOk(crypto, Admit(st, Wire.Decode(wire).value, wire, crypto.sha256(wire), pendingWritten))
  {
    hide Wire.Decode, AddTargets, Without, LineageTargets, NewForks, Forked;
  }

  lemma LastBySnoc(claims: seq<(Hash, bytes)>, c: (Hash, bytes), issuer: bytes)
    ensures LastBy(claims + [c], issuer) == if IssuedBy(c, issuer) then |claims| else LastBy(claims, issuer)
    ensures LastBy(claims, issuer) >= 0 ==> (claims + [c])[LastBy(claims, issuer)] == claims[LastBy(claims, issuer)]
  {
    hide IssuedBy;
    assert (claims + [c])[..|claims|] == claims;
  }

  lemma AdmitKeepsForks(st: State, wire: bytes, cd: Hash, pendingWritten: bool)
    requires ForksOk(st) && Wire.Decode(wire).Some? && !HasClaim(st.claims, cd)
    ensures ForksOk(Admit(st, Wire.Decode(wire).value, wire, cd, pendingWritten))
  {
    hide Wire.Decode, AddTargets, Without, LineageTargets, LastBy;
    var rec := Wire.Decode(wire).value;
    var st' := Admit(st, rec, wire, cd, pendingWritten);
    var c := (cd, wire);
    assert st'.claims[..|st.claims|] == st.claims;
    forall issuer
      ensures issuer in st'.issuerHeads <==> LastBy(st'.claims, issuer) >= 0
      ensures issuer in st'.issuerHeads ==>
                var d := st'.claims[LastBy(st'.claims, issuer)];
                st'.issuerHeads[issuer].claimDigest == d.0 && IssuerOf(d) == Some((issuer, st'.issuerHeads[issuer].issuerSeq))
    {
      LastBySnoc(st.claims, c, issuer);
    }
  }

  /** Digests of recorded forks are digests of claims. */
  lemma {:induction false} ForkDigests(claims: seq<(Hash, bytes)>, f: Fork)
    requires f in ForksOf(claims)
    ensures HasClaim(claims, f.second)
  {
    hide IssuerOf;
    var front, last := claims[..|claims| - 1], claims[|claims| - 1];
    if f in ForksOf(front) {
      ForkDigests(front, f);
      var i :| 0 <= i < |front| && front[i].0 == f.second;
      assert claims[i].0 == f.second;
    } else {
      assert claims[|front|].0 == f.second;
    }
  }

  /** Two claims of one issuer under one number are recorded exactly when no other claim of the issuer came between. */
  lemma {:induction false} ForkIff(claims: seq<(Hash, bytes)>, i: nat, j: nat)
    requires i < j < |claims| && IssuerOf(claims[i]).Some? && IssuerOf(claims[i]) == IssuerOf(claims[j])
    requires forall k, l :: 0 <= k < l < |claims| ==> claims[k].0 != claims[l].0
    ensures var (issuer, n) := IssuerOf(claims[i]).value;
            Fork(issuer, n, claims[i].0, claims[j].0) in ForksOf(claims) <==> forall k :: i < k < j ==> !IssuedBy(claims[k], issuer)
    decreases |claims|
  {
    hide IssuerOf;
    var front, last := claims[..|claims| - 1], claims[|claims| - 1];
    var (issuer, n) := IssuerOf(claims[i]).value;
    var f := Fork(issuer, n, claims[i].0, claims[j].0);
    if j < |front| {
      ForkIff(front, i, j);
      assert f in ForksOf(claims) <==> f in ForksOf(front);
    } else {
      if f in ForksOf(front) {
        ForkDigests(front, f);
      }
      LastByIs(front, issuer);
      var p := LastBy(front, issuer);
      assert front[i] == claims[i] && forall k :: 0 <= k < |front| ==> front[k] == claims[k];
      assert IssuedBy(front[i], issuer);
      if p > i {
        assert IssuedBy(claims[p], issuer);
      }
    }
  }

  lemma SameClaims(crypto: Crypto, st: State, st': State)
    requires StoreOk(crypto, st) && st'.claims == st.claims && st'.revoked == st.revoked
    requires st'.seenIds == st.seenIds && st'.collisions == st.collisions
    requires st'.forks == st.forks && st'.issuerHeads == st.issuerHeads
    ensures StoreOk(crypto, st')
  {
    hide Wire.Decode, ClaimsOk, DeniedOk, IdsOk, ForksOf, LastBy, IssuerOf;
    assert ClaimsOk(crypto, st') by { SameClaimsOk(crypto, st, st'); }
    SameDeniedOk(st, st');
    SameIdsOk(st, st');
  }

  lemma SameClaimsOk(crypto: Crypto, st: State, st': State)
    requires ClaimsOk(crypto, st) && st'.claims == st.claims
    ensures ClaimsOk(crypto, st')
  {
    hide Wire.Decode;
  }

  lemma SameDeniedOk(st: State, st': State)
    requires DeniedOk(st) && st'.claims == st.claims && st'.revoked == st.revoked
    ensures DeniedOk(st')
  {
    hide Wire.Decode, Denied, Lineage;
    forall p ensures p in Denied(st'.revoked) <==> FromClaims(st', p) {
      assert FromClaims(st', p) <==> FromClaims(st, p);
    }
  }

  lemma SameIdsOk(st: State, st': State)
    requires IdsOk(st) && st'.claims == st.claims && st'.seenIds == st.seenIds && st'.collisions == st.collisions
    ensures IdsOk(st')
  {
    hide Wire.Decode, HasClaim;
    forall id ensures id in st'.seenIds <==> HasId(st', id) {
      assert HasId(st', id) <==> HasId(st, id);
    }
  }

  lemma ApplyKeepsStore(crypto: Crypto, st: State, wire: bytes, pub: bytes, pendingWritten: bool)
    requires StoreOk(crypto, st)
    ensures StoreOk(crypto, Apply(crypto, st, wire, pub, pendingWritten).0)
  {
    hide Wire.Decode, ClaimsOk, DeniedOk, IdsOk, ForksOk, Verify, HasClaim, JournalGate, Admit, Without, Hex;
    var (st', r) := Apply(crypto, st, wire, pub, pendingWritten);
    if r == Applied {
      AdmitKeepsClaims(crypto, st, wire, pendingWritten);
      AdmitKeepsDenied(st, wire, crypto.sha256(wire), pendingWritten);
      AdmitKeepsIds(st, wire, crypto.sha256(wire), pendingWritten);
      AdmitKeepsForks(st, wire, crypto.sha256(wire), pendingWritten);
    } else {
      SameClaims(crypto, st, st');
    }
  }

  lemma StepKeepsStore(crypto: Crypto, st: State, op: Op)
    requires StoreOk(crypto, st)
    ensures StoreOk(crypto, Step(crypto, st, op))
  {
    hide StoreOk, Apply, ReverifyOutcome;
    match op
    case ApplyClaim(w, pub, pendingWritten) => ApplyKeepsStore(crypto, st, w, pub, pendingWritten);
    case _ => SameClaims(crypto, st, Step(crypto, st, op));
  }

  lemma EmptyStoreOk(crypto: Crypto, identityAddress: string, maxClaims: int)
    ensures StoreOk(crypto, EmptyState(identityAddress, maxClaims))
  {}

  /**
   * In every reachable store the deny list is exactly the lineage of the stored claims, and the
   * claims are counted by distinct revocation ids plus recorded collisions.
   */
  lemma {:induction false} ReachableStoreOk(crypto: Crypto, identityAddress: string, maxClaims: int, ops: seq<Op>)
    ensures StoreOk(crypto, Run(crypto, EmptyState(identityAddress, maxClaims), ops))
  {
    hide StoreOk, Step;
    if ops == [] {
      EmptyStoreOk(crypto, identityAddress, maxClaims);
    } else {
      ReachableStoreOk(crypto, identityAddress, maxClaims, ops[..|ops| - 1]);
      StepKeepsStore(crypto, Run(crypto, EmptyState(identityAddress, maxClaims), ops[..|ops| - 1]), ops[|ops| - 1]);
    }
  }

  /**
   * What fork detection promises: of two stored claims of one issuer under one number, the pair is
   * recorded if and only if no claim of that issuer was stored between them.
   */
  lemma ForkRecordedIff(crypto: Crypto, identityAddress: string, maxClaims: int, ops: seq<Op>, i: nat, j: nat)
    requires i < j < |Run(crypto, EmptyState(identityAddress, maxClaims), ops).claims|
    requires var claims := Run(crypto, EmptyState(identityAddress, maxClaims), ops).claims;
             IssuerOf(claims[i]).Some? && IssuerOf(claims[i]) == IssuerOf(claims[j])
    ensures var st := Run(crypto, EmptyState(identityAddress, maxClaims), ops);
            var (issuer, n) := IssuerOf(st.claims[i]).value;
            Fork(issuer, n, st.claims[i].0, st.claims[j].0) in st.forks <==> forall k :: i < k < j ==> !IssuedBy(st.claims[k], issuer)
  {
    hide Run, IssuerOf, DeniedOk, IdsOk, Wire.Decode, ForksOf, LastBy;
    ReachableStoreOk(crypto, identityAddress, maxClaims, ops);
    ForkIff(Run(crypto, EmptyState(identityAddress, maxClaims), ops).claims, i, j);
  }

  lemma SharesIsMatch(crypto: Crypto, st: State, d: Device)
    requires StoreOk(crypto, st)
    ensures (exists i :: 0 <= i < |st.claims| && Shares(d, Wire.Decode(st.claims[i].1).value))
            <==> exists k :: 0 <= k < 4 && Matches(st, Presents(d)[k].0, Presents(d)[k].1)
  {
    hide Wire.Decode, Denied, Lineage, IdsOk, ForksOk;
    if i :| 0 <= i < |st.claims| && Shares(d, Wire.Decode(st.claims[i].1).value) {
      var rec := Wire.Decode(st.claims[i].1).value;
      var k :| 0 <= k < 4 && Presents(d)[k].1.Some? && (Presents(d)[k].0, Presents(d)[k].1.value) in Lineage(rec);
      assert FromClaims(st, (Presents(d)[k].0, Presents(d)[k].1.value));
      assert Matches(st, Presents(d)[k].0, Presents(d)[k].1);
    }
    if k :| 0 <= k < 4 && Matches(st, Presents(d)[k].0, Presents(d)[k].1) {
      var p := (Presents(d)[k].0, Presents(d)[k].1.value);
      assert FromClaims(st, p);
      var i :| 0 <= i < |st.claims| && Wire.Decode(st.claims[i].1).Some? && p in Lineage(Wire.Decode(st.claims[i].1).value);
      assert Shares(d, Wire.Decode(st.claims[i].1).value);
    }
  }

  /** In every reachable store a device is authorised exactly when nothing is amiss and no stored claim shares a value with it. */
  lemma AuthorizedIff(crypto: Crypto, identityAddress: string, maxClaims: int, ops: seq<Op>, d: Device, v: Verdict)
    requires VerdictOk(Run(crypto, EmptyState(identityAddress, maxClaims), ops), d, v)
    ensures var st := Run(crypto, EmptyState(identityAddress, maxClaims), ops);
            && ClaimsOk(crypto, st)
            && (v == Authorized <==>
                  st.corrupt == [] && !MarkedExhausted(st)
                  && !exists i :: 0 <= i < |st.claims| && Shares(d, Wire.Decode(st.claims[i].1).value))
  {
    hide Shares, Matches, Wire.Decode, Run, DeniedOk, IdsOk, ForksOk;
    var st := Run(crypto, EmptyState(identityAddress, maxClaims), ops);
    ReachableStoreOk(crypto, identityAddress, maxClaims, ops);
    SharesIsMatch(crypto, st, d);
  }

  // ----- order and repetition of arrivals do not show ----------------------------------------------------

  /** Applying the claims in turn, none written to the journal first. */
  function ApplyAll(crypto: Crypto, st: State, wires: seq<bytes>, pub: bytes): State {
    if wires == [] then st
    else Apply(crypto, ApplyAll(crypto, st, wires[..|wires| - 1], pub), wires[|wires| - 1], pub, false).0
  }

  ghost predicate Verified(crypto: Crypto, identityAddress: string, wire: bytes, pub: bytes) {
    && Wire.Decode(wire).Some? && Wire.Decode(wire).value.identityAddress == identityAddress
    && Verify(crypto, Wire.Decode(wire).value, pub)
  }

  function Wires(st: State): (r: seq<bytes>)
    ensures |r| == |st.claims| && forall i :: 0 <= i < |r| ==> r[i] == st.claims[i].1
  {
    seq(|st.claims|, i requires 0 <= i < |st.claims| => st.claims[i].1)
  }

  lemma {:induction false} DistinctCount(s: seq<bytes>)
    requires forall i, j :: 0 <= i < j < |s| ==> s[i] != s[j]
    ensures |SetOf(s)| == |s|
    ensures forall x :: multiset(s)[x] == if x in s then 1 else 0
  {
    if s != [] {
      var front, last := s[..|s| - 1], s[|s| - 1];
      DistinctCount(front);
      assert s == front + [last];
      assert SetOf(s) == SetOf(front) + {last};
      assert last !in front;
    }
  }

  lemma ClaimsDistinct(crypto: Crypto, st: State)
    requires ClaimsOk(crypto, st)
    ensures |SetOf(Wires(st))| == |st.claims|
    ensures forall x :: multiset(Wires(st))[x] == if x in Wires(st) then 1 else 0
  {
    hide Wire.Decode;
    var w := Wires(st);
    forall i, j | 0 <= i < j < |w| ensures w[i] != w[j] {
      assert st.claims[i].0 != st.claims[j].0;
    }
    DistinctCount(w);
  }

  lemma StoreCounts(crypto: Crypto, st: State)
    requires StoreOk(crypto, st)
    ensures |SetOf(Wires(st))| == |st.claims|
  {
    hide ClaimsOk, DeniedOk, IdsOk, ForksOk;
    ClaimsDistinct(crypto, st);
  }

  /** While within quota: the store is a function of the set of wires seen. */
  ghost predicate InQuota(st: State, seen: set<bytes>) {
    && SetOf(Wires(st)) == seen && st.generation == |st.claims|
    && st.exhausted == [] && st.corrupt == [] && st.journal == None
  }

  /** Past it: a marker blocks everything until an operator acts. */
  ghost predicate OverQuota(st: State, seen: set<bytes>) {
    && st.exhausted != [] && st.journal.Some? && st.journal.value.kind == PendingRevokeExhausted
    && |seen| > st.maxClaims
  }

  ghost predicate Progress(crypto: Crypto, st: State, st0: State, seen: set<bytes>) {
    && StoreOk(crypto, st) && st.identityAddress == st0.identityAddress && st.maxClaims == st0.maxClaims
    && ((InQuota(st, seen) && |seen| <= st.maxClaims) || OverQuota(st, seen))
  }

  lemma WiresSnoc(st: State, st': State, cd: Hash, wire: bytes)
    requires st'.claims == st.claims + [(cd, wire)]
    ensures SetOf(Wires(st')) == SetOf(Wires(st)) + {wire}
  {
    assert Wires(st') == Wires(st) + [wire];
  }

  lemma HasClaimIffSeen(crypto: Crypto, st: State, wire: bytes)
    requires ClaimsOk(crypto, st) && CollisionFree(crypto.sha256, SetOf(Wires(st)) + {wire})
    ensures HasClaim(st.claims, crypto.sha256(wire)) <==> wire in SetOf(Wires(st))
  {
    hide Wire.Decode;
    var w := Wires(st);
    if wire in w {
      var i :| 0 <= i < |w| && w[i] == wire;
      assert st.claims[i].0 == crypto.sha256(wire);
    }
    if HasClaim(st.claims, crypto.sha256(wire)) {
      var i :| 0 <= i < |st.claims| && st.claims[i].0 == crypto.sha256(wire);
      assert w[i] in SetOf(w);
      assert w[i] == wire;
    }
  }

  /** One more distinct element, or the same set. */
  lemma Grown(seen: set<bytes>, wire: bytes)
    ensures |seen + {wire}| == if wire in seen then |seen| else |seen| + 1
    ensures wire in seen ==> seen + {wire} == seen
  {
    if wire in seen {
      assert seen + {wire} == seen;
    }
  }

  lemma ProgressStep(crypto: Crypto, st: State, st0: State, seen: set<bytes>, wire: bytes, pub: bytes)
    requires CollisionFree(crypto.sha256, seen + {wire}) && Progress(crypto, st, st0, seen)
    requires Verified(crypto, st.identityAddress, wire, pub)
    ensures Progress(crypto, Apply(crypto, st, wire, pub, false).0, st0, seen + {wire})
  {
    hide Wire.Decode, ClaimsOk, DeniedOk, IdsOk, Verify, HasClaim, AddTargets, SetOf, CollisionFree, LineageTargets, ForksOk, NewForks, Forked;
    var cd := crypto.sha256(wire);
    var st' := Apply(crypto, st, wire, pub, false).0;
    ApplyKeepsStore(crypto, st, wire, pub, false);
    Grown(seen, wire);
    if InQuota(st, seen) {
      HasClaimIffSeen(crypto, st, wire);
      ClaimsDistinct(crypto, st);
      if wire !in seen && |st.claims| < st.maxClaims {
        WiresSnoc(st, st', cd, wire);
        assert st'.exhausted == [] by { WithoutNothing(cd); }
      }
    }
  }

  lemma WithoutNothing(cd: Hash)
    ensures Without([], cd) == []
  {}

  lemma SetOfSnoc(s: seq<bytes>)
    requires s != []
    ensures SetOf(s) == SetOf(s[..|s| - 1]) + {s[|s| - 1]}
  {
    assert s == s[..|s| - 1] + [s[|s| - 1]];
  }

  lemma FewerCollisions(sha256: Sha256, some: set<bytes>, all: set<bytes>)
    requires CollisionFree(sha256, all) && some <= all
    ensures CollisionFree(sha256, some)
  {}

  lemma {:induction false} ApplyAllProgress(crypto: Crypto, st0: State, wires: seq<bytes>, pub: bytes)
    requires CollisionFree(crypto.sha256, SetOf(wires)) && st0 == EmptyState(st0.identityAddress, st0.maxClaims) && st0.maxClaims >= 0
    requires forall i :: 0 <= i < |wires| ==> Verified(crypto, st0.identityAddress, wires[i], pub)
    ensures Progress(crypto, ApplyAll(crypto, st0, wires, pub), st0, SetOf(wires))
  {
    hide CollisionFree, Verified, Apply, StoreOk;
    if wires == [] {
      EmptyStoreOk(crypto, st0.identityAddress, st0.maxClaims);
      assert SetOf(Wires(st0)) == SetOf(wires) == {};
    } else {
      var front, last := wires[..|wires| - 1], wires[|wires| - 1];
      SetOfSnoc(wires);
      FewerCollisions(crypto.sha256, SetOf(front), SetOf(wires));
      ApplyAllProgress(crypto, st0, front, pub);
      ProgressStep(crypto, ApplyAll(crypto, st0, front, pub), st0, SetOf(front), last, pub);
    }
  }

  /**
   * The quota is exceeded exactly when more distinct claims were submitted than it admits, in
   * whatever order and however often repeated; otherwise every claim is stored once.
   */
  lemma QuotaIff(crypto: Crypto, identityAddress: string, maxClaims: nat, wires: seq<bytes>, pub: bytes)
    requires CollisionFree(crypto.sha256, SetOf(wires))
    requires forall i :: 0 <= i < |wires| ==> Verified(crypto, identityAddress, wires[i], pub)
    ensures var st := ApplyAll(crypto, EmptyState(identityAddress, maxClaims), wires, pub);
            && (st.exhausted == [] <==> |SetOf(wires)| <= maxClaims)
            && (|SetOf(wires)| <= maxClaims ==> InQuota(st, SetOf(wires)) && |st.claims| == |SetOf(wires)|)
            && StoreOk(crypto, st)
  {
    hide CollisionFree, Verified, StoreOk, ApplyAll;
    ApplyAllProgress(crypto, EmptyState(identityAddress, maxClaims), wires, pub);
    var st := ApplyAll(crypto, EmptyState(identityAddress, maxClaims), wires, pub);
    StoreCounts(crypto, st);
  }

  lemma SameDenied(crypto: Crypto, st: State, st': State)
    requires StoreOk(crypto, st) && StoreOk(crypto, st') && SetOf(Wires(st)) == SetOf(Wires(st'))
    ensures Denied(st.revoked) <= Denied(st'.revoked)
  {
    hide Wire.Decode, Denied, Lineage, ClaimsOk, IdsOk, ForksOk;
    forall p | p in Denied(st.revoked) ensures p in Denied(st'.revoked) {
      var i :| 0 <= i < |st.claims| && Wire.Decode(st.claims[i].1).Some? && p in Lineage(Wire.Decode(st.claims[i].1).value);
      assert Wires(st)[i] in SetOf(Wires(st'));
      var j :| 0 <= j < |Wires(st')| && Wires(st')[j] == Wires(st)[i];
      assert FromClaims(st', p);
    }
  }

  ghost function HashOf(crypto: Crypto, st: State): Option<Hash> {
    StoreHash(crypto.sha256, st.generation, Wires(st), st.exhausted, st.corrupt)
  }

  /** The same claims in any order, with any repeats, within quota: one store, as far as anyone can see. */
  lemma ArrivalOrderIrrelevant(crypto: Crypto, identityAddress: string, maxClaims: nat, ws: seq<bytes>, vs: seq<bytes>, pub: bytes)
    requires CollisionFree(crypto.sha256, SetOf(ws)) && SetOf(ws) == SetOf(vs) && |SetOf(ws)| <= maxClaims
    requires forall i :: 0 <= i < |ws| ==> Verified(crypto, identityAddress, ws[i], pub)
    requires forall i :: 0 <= i < |vs| ==> Verified(crypto, identityAddress, vs[i], pub)
    ensures var a := ApplyAll(crypto, EmptyState(identityAddress, maxClaims), ws, pub);
            var b := ApplyAll(crypto, EmptyState(identityAddress, maxClaims), vs, pub);
            && multiset(Wires(a)) == multiset(Wires(b)) && Denied(a.revoked) == Denied(b.revoked)
            && a.generation == b.generation == |SetOf(ws)| && HashOf(crypto, a) == HashOf(crypto, b)
            && a.seenIds.Keys == b.seenIds.Keys && |a.collisions| == |b.collisions|
  {
    hide CollisionFree, Verified, ApplyAll, Denied, StoreOk, SetOf, Snapshot;
    var a := ApplyAll(crypto, EmptyState(identityAddress, maxClaims), ws, pub);
    var b := ApplyAll(crypto, EmptyState(identityAddress, maxClaims), vs, pub);
    QuotaIff(crypto, identityAddress, maxClaims, ws, pub);
    QuotaIff(crypto, identityAddress, maxClaims, vs, pub);
    SameWires(crypto, a, b);
    SameDenied(crypto, a, b);
    SameDenied(crypto, b, a);
    NoMarkers(crypto.sha256, Wires(a));
    SnapshotForgetsOrder(crypto.sha256, a.generation, Wires(a), [], [], Wires(b), [], []);
    SameIds(crypto, a, b);
  }

  lemma NoMarkers(sha256: Sha256, cl: seq<bytes>)
    requires CollisionFree(sha256, SetOf(cl))
    ensures OrderHidden(sha256, cl, [], [])
  {
    hide CollisionFree;
  }

  lemma SameWires(crypto: Crypto, a: State, b: State)
    requires StoreOk(crypto, a) && StoreOk(crypto, b) && SetOf(Wires(a)) == SetOf(Wires(b))
    ensures multiset(Wires(a)) == multiset(Wires(b)) && |a.claims| == |b.claims|
  {
    hide ClaimsOk, DeniedOk, IdsOk, ForksOk;
    ClaimsDistinct(crypto, a);
    ClaimsDistinct(crypto, b);
    var x, y := Wires(a), Wires(b);
    forall w ensures w in x <==> w in y {
      assert w in x <==> w in SetOf(x);
      assert w in y <==> w in SetOf(y);
    }
    assert multiset(x) == multiset(y);
  }

  lemma HasIdSame(a: State, b: State, id: bytes)
    requires SetOf(Wires(a)) == SetOf(Wires(b)) && HasId(a, id)
    ensures HasId(b, id)
  {
    hide Wire.Decode;
    var i :| 0 <= i < |a.claims| && Wire.Decode(a.claims[i].1).Some? && Wire.Decode(a.claims[i].1).value.revocationId == id;
    assert Wires(a)[i] in SetOf(Wires(b));
    var j :| 0 <= j < |Wires(b)| && Wires(b)[j] == Wires(a)[i];
    assert b.claims[j].1 == a.claims[i].1;
  }

  lemma SameIds(crypto: Crypto, a: State, b: State)
    requires StoreOk(crypto, a) && StoreOk(crypto, b) && SetOf(Wires(a)) == SetOf(Wires(b))
    ensures a.seenIds.Keys == b.seenIds.Keys && |a.collisions| == |b.collisions|
  {
    hide ClaimsOk, DeniedOk, HasId, HasClaim, ForksOk;
    SameWires(crypto, a, b);
    forall id ensures id in a.seenIds.Keys <==> id in b.seenIds.Keys {
      if HasId(a, id) { HasIdSame(a, b, id); }
      if HasId(b, id) { HasIdSame(b, a, id); }
    }
    assert |a.seenIds| == |a.seenIds.Keys| && |b.seenIds| == |b.seenIds.Keys|;
  }

  // ----- instances -------------------------------------------------------------------------------------------

  /** Two failed re-verifications, of bytes too short and of bytes that are no record. */
  function TwoFailures(pub: bytes): seq<Op> {
    [Reverifying(pub, Some([]), None), Reverifying(pub, Some(ZeroBytes(54)), None)]
  }

  function SameInOtherOrder(pub: bytes): seq<Op> {
    [Reverifying(pub, Some(ZeroBytes(54)), None), Reverifying(pub, Some([]), None)]
  }

  lemma RunTwo(crypto: Crypto, st: State, a: Op, b: Op)
    ensures Run(crypto, st, [a, b]) == Step(crypto, Step(crypto, st, a), b)
  {
    hide Step;
    assert [a, b][..1] == [a] && [a][..0] == [];
    assert Run(crypto, st, [a]) == Step(crypto, st, a) by { RunOne(crypto, st, a); }
  }

  lemma RunOne(crypto: Crypto, st: State, a: Op)
    ensures Run(crypto, st, [a]) == Step(crypto, st, a)
  {
    hide Step;
    var one := [a];
    assert one[..0] == [];
  }

  lemma FailsShort(crypto: Crypto, st: State, pub: bytes)
    ensures Step(crypto, st, Reverifying(pub, Some([]), None))
            == st.(corrupt := st.corrupt + [Corrupt(st.identityAddress, 1)], journal := None, generation := st.generation + 1)
  {
    hide Wire.Decode, Verify;
  }

  lemma FailsZeros(crypto: Crypto, st: State, pub: bytes)
    ensures Step(crypto, st, Reverifying(pub, Some(ZeroBytes(54)), None))
            == st.(corrupt := st.corrupt + [Corrupt(st.identityAddress, 9)], journal := None, generation := st.generation + 1)
  {
    hide Wire.Decode, Verify;
    Wire.DecodeNeeds(ZeroBytes(54));
  }

  /**
   * The condition on corrupt markers is a real one: every store whose address can be written reaches two
   * reasons in one scope, and doing the two failures in the other order gives the same markers,
   * generation and claims but another snapshot.
   */
  lemma FailureOrderShows(crypto: Crypto, identityAddress: string, maxClaims: int, pub: bytes)
    requires CorruptFits(Corrupt(identityAddress, 1))
    ensures var a := Run(crypto, EmptyState(identityAddress, maxClaims), TwoFailures(pub));
            var b := Run(crypto, EmptyState(identityAddress, maxClaims), SameInOtherOrder(pub));
            && !OneReasonPerScope(a.corrupt) && multiset(a.corrupt) == multiset(b.corrupt) && b == a.(corrupt := b.corrupt)
            && Snapshot(crypto.sha256, a.generation, Wires(a), a.exhausted, a.corrupt).Some?
            && Snapshot(crypto.sha256, a.generation, Wires(a), a.exhausted, a.corrupt)
               != Snapshot(crypto.sha256, b.generation, Wires(b), b.exhausted, b.corrupt)
  {
    hide Run, Snapshot, OneReasonPerScope, CorruptFits;
    var x, y := Corrupt(identityAddress, 1), Corrupt(identityAddress, 9);
    AfterFailures(crypto, EmptyState(identityAddress, maxClaims), pub);
    TwoMarkers(crypto.sha256, x, y);
    assert Wires(EmptyState(identityAddress, maxClaims)) == [];
    assert [] + [x, y] == [x, y] && [] + [y, x] == [y, x];
    var a := Run(crypto, EmptyState(identityAddress, maxClaims), TwoFailures(pub));
    var b := Run(crypto, EmptyState(identityAddress, maxClaims), SameInOtherOrder(pub));
    assert Wires(a) == [] && Wires(b) == [];
  }

  lemma AfterFailures(crypto: Crypto, st: State, pub: bytes)
    ensures Run(crypto, st, TwoFailures(pub))
            == st.(corrupt := st.corrupt + [Corrupt(st.identityAddress, 1), Corrupt(st.identityAddress, 9)], journal := None, generation := st.generation + 2)
    ensures Run(crypto, st, SameInOtherOrder(pub))
            == st.(corrupt := st.corrupt + [Corrupt(st.identityAddress, 9), Corrupt(st.identityAddress, 1)], journal := None, generation := st.generation + 2)
  {
    hide Run, Step;
    var x, y := Corrupt(st.identityAddress, 1), Corrupt(st.identityAddress, 9);
    RunTwo(crypto, st, TwoFailures(pub)[0], TwoFailures(pub)[1]);
    RunTwo(crypto, st, SameInOtherOrder(pub)[0], SameInOtherOrder(pub)[1]);
    FailsShort(crypto, st, pub);
    FailsZeros(crypto, st, pub);
    FailsZeros(crypto, Step(crypto, st, TwoFailures(pub)[0]), pub);
    FailsShort(crypto, Step(crypto, st, SameInOtherOrder(pub)[0]), pub);
    assert st.corrupt + [x] + [y] == st.corrupt + [x, y] && st.corrupt + [y] + [x] == st.corrupt + [y, x];
  }

  lemma TwoMarkers(sha256: Sha256, x: Corrupt, y: Corrupt)
    requires x.scope == y.scope && 0 <= x.reasonCode < y.reasonCode < 256 && CorruptFits(x)
    ensures !OneReasonPerScope([x, y]) && multiset([x, y]) == multiset([y, x])
    ensures Snapshot(sha256, 2, [], [], [x, y]).Some? && Snapshot(sha256, 2, [], [], [x, y]) != Snapshot(sha256, 2, [], [], [y, x])
  {
    hide Layout, ByScope, SnapshotFits;
    assert x in [x, y] && y in [x, y] && LowByte(x) != LowByte(y);
    SameScope(x, y);
    SortTwo(x, y);
    SortTwo(y, x);
    TwoFit(sha256, x, y);
    TwoFit(sha256, y, x);
    if Snapshot(sha256, 2, [], [], [x, y]) == Snapshot(sha256, 2, [], [], [y, x]) {
      LayoutInjective(sha256, 2, [], [], [x, y], 2, [], [], [y, x]);
      assert false;
    }
  }

  lemma TwoFit(sha256: Sha256, x: Corrupt, y: Corrupt)
    requires CorruptFits(x) && CorruptFits(y)
    ensures SnapshotFits(sha256, 2, [], [], [x, y])
  {
    hide CorruptFits;
    Widths();
  }

  lemma SortTwo(x: Corrupt, y: Corrupt)
    requires ByScope(x, y)
    ensures Sorting.Sort(ByScope, [x, y]) == [x, y]
  {
    hide ByScope;
    Sorting.SortOfSorted(ByScope, [x, y]);
  }

  /** A digest that tells byte strings apart by their last byte, under which every signature verifies. */
  function LastByte(b: bytes): Hash { if b == [] then ZeroBytes(32) else [b[|b| - 1]] + ZeroBytes(31) }

  function Lenient(): Crypto { Crypto(LastByte, (pub, signature, message) => true) }

  function SampleRecord(last: byte, number: byte): Wire.Revocation {
    Wire.Revocation(Address.Encode(LastByte, []), [1], ZeroBytes(32), ZeroBytes(32), ZeroBytes(32), [1], number,
                    [1] + ZeroBytes(15), 0, 0, ZeroBytes(63) + [last])
  }

  lemma SampleFields(last: byte, number: byte)
    ensures Wire.FieldsOk(SampleRecord(last, number)) && |SampleRecord(last, number).signature| == 64
  {
    hide Address.Encode, Address.Decode;
    Address.EncodeIsCanonical(LastByte, []);
    SmallFields(number);
    var id: bytes := [1] + ZeroBytes(15);
    assert id[0] == 1 && ZeroBytes(16)[0] == 0;
  }

  lemma SmallFields(number: byte)
    ensures Fits(0, 1) && Fits(0, 8) && Fits(number, 8)
  {
    Widths();
  }

  lemma SampleWire(last: byte, number: byte) returns (wire: bytes)
    ensures Wire.Decode(wire) == Some(SampleRecord(last, number))
    ensures Verified(Lenient(), Address.Encode(LastByte, []), wire, [])
    ensures LastByte(wire) == [last] + ZeroBytes(31)
  {
    hide Wire.FieldsOk, Wire.Decode, Address.Encode, Wire.PutSigned;
    SampleFields(last, number);
    var r := SampleRecord(last, number);
    Wire.DecodeOfEncode(r);
    Wire.EncodeForm(r);
    wire := Wire.Encode(r).value;
    EndsWithSignature(r, wire);
  }

  lemma EndsWithSignature(r: Wire.Revocation, wire: bytes)
    requires Wire.Encode(r) == Some(wire) && |r.signature| == 64
    ensures wire != [] && wire[|wire| - 1] == r.signature[63]
  {
    hide Wire.SigningBytes;
  }

  /**
   * The hypotheses of the two theorems above can be met: two different verified claims without a
   * collision, which may arrive in either order and repeatedly.
   */
  lemma TwoClaims() returns (v: bytes, w: bytes)
    ensures v != w && CollisionFree(Lenient().sha256, {v, w})
    ensures SetOf([v, w]) == SetOf([w, v, w]) == {v, w} && |SetOf([v, w])| == 2
    ensures forall x :: x in {v, w} ==> Verified(Lenient(), Address.Encode(LastByte, []), x, [])
    ensures var crypto, addr := Lenient(), Address.Encode(LastByte, []);
            var a, b := ApplyAll(crypto, EmptyState(addr, 2), [v, w], []), ApplyAll(crypto, EmptyState(addr, 2), [w, v, w], []);
            && |a.claims| == 2 && a.exhausted == [] && multiset(Wires(a)) == multiset(Wires(b)) && HashOf(crypto, a) == HashOf(crypto, b)
  {
    hide Verified, ApplyAll, Address.Encode, LastByte, StoreOk, HashOf, SetOf, CollisionFree;
    v, w := TwoWires();
    var crypto, addr := Lenient(), Address.Encode(LastByte, []);
    QuotaIff(crypto, addr, 2, [v, w], []);
    ArrivalOrderIrrelevant(crypto, addr, 2, [v, w], [w, v, w], []);
  }

  lemma TwoWires() returns (v: bytes, w: bytes)
    ensures v != w && CollisionFree(Lenient().sha256, {v, w})
    ensures SetOf([v, w]) == SetOf([w, v, w]) == {v, w} && |SetOf([v, w])| == 2
    ensures forall x :: x in {v, w} ==> Verified(Lenient(), Address.Encode(LastByte, []), x, [])
  {
    hide Verified, Address.Encode, Wire.Decode, LastByte, SampleRecord;
    v := SampleWire(1, 0);
    w := SampleWire(2, 0);
    assert ([1] + ZeroBytes(31))[0] != ([2] + ZeroBytes(31))[0];
    assert SetOf([v, w]) == {v, w} && SetOf([w, v, w]) == {v, w};
    assert |{v, w}| == 2;
  }

  /** And those of `RevokedForever`: a claim applied to an empty store, then the other one and itself again. */
  lemma RevokedInstance(v: bytes, w: bytes)
    requires v != w && CollisionFree(Lenient().sha256, {v, w})
    requires Verified(Lenient(), Address.Encode(LastByte, []), v, [])
    ensures Apply(Lenient(), EmptyState(Address.Encode(LastByte, []), 2), v, [], false).1 == Applied
    ensures var ops := [ApplyClaim(w, [], false), Expand(7), ApplyClaim(v, [], false), Reverifying([], Some(v), None)];
            forall i :: 0 <= i < |ops| ==> Distinguishes(Lenient(), v, ops[i])
  {
    hide Wire.Decode, Verify, Address.Encode, LastByte;
  }

  // ----- a fork that goes unrecorded ----------------------------------------------------------------------

  /** A verified claim that is new to a store with room, no journal and nothing corrupt. */
  lemma ClaimAdded(crypto: Crypto, st: State, wire: bytes, pub: bytes)
    requires Verified(crypto, st.identityAddress, wire, pub) && !HasClaim(st.claims, crypto.sha256(wire))
    requires st.journal == None && st.corrupt == [] && |st.claims| < st.maxClaims
    ensures var st' := Step(crypto, st, ApplyClaim(wire, pub, false));
            && st'.claims == st.claims + [(crypto.sha256(wire), wire)]
            && st'.journal == None && st'.corrupt == [] && st'.maxClaims == st.maxClaims && st'.identityAddress == st.identityAddress
  {
    hide Wire.Decode, Verify, HasClaim, NewForks, Forked, AddTargets, LineageTargets, Without;
  }

  /** Three claims of one issuer, the third under the first one's number: the fork is in the store and not on record. */
  lemma ForkMissed() returns (ops: seq<Op>)
    ensures var st := Run(Lenient(), EmptyState(Address.Encode(LastByte, []), 3), ops);
            && |st.claims| == 3 && st.claims[0].0 != st.claims[2].0
            && IssuerOf(st.claims[0]) == IssuerOf(st.claims[2]) == Some(([1], 0))
            && Fork([1], 0, st.claims[0].0, st.claims[2].0) !in st.forks
  {
    hide Run, Step, Verified, Wire.Decode, Address.Encode, LastByte;
    var x := SampleWire(1, 0);
    var y := SampleWire(2, 1);
    var z := SampleWire(3, 0);
    var hx, hy, hz := LastByte(x), LastByte(y), LastByte(z);
    assert hx[0] == 1 && hy[0] == 2 && hz[0] == 3;
    var crypto, st0 := Lenient(), EmptyState(Address.Encode(LastByte, []), 3);
    ops := [ApplyClaim(x, [], false), ApplyClaim(y, [], false), ApplyClaim(z, [], false)];
    var st1 := Step(crypto, st0, ops[0]);
    var st2 := Step(crypto, st1, ops[1]);
    ClaimAdded(crypto, st0, x, []);
    ClaimAdded(crypto, st1, y, []);
    ClaimAdded(crypto, st2, z, []);
    RunThree(crypto, st0, ops[0], ops[1], ops[2]);
    var st := Run(crypto, st0, ops);
    assert st.claims == [(hx, x), (hy, y), (hz, z)];
    assert IssuedBy(st.claims[1], [1]);
    ForkRecordedIff(crypto, Address.Encode(LastByte, []), 3, ops, 0, 2);
  }

  lemma RunThree(crypto: Crypto, st: State, a: Op, b: Op, c: Op)
    ensures Run(crypto, st, [a, b, c]) == Step(crypto, Step(crypto, Step(crypto, st, a), b), c)
  {
    hide Step;
    RunTwo(crypto, st, a, b);
    assert [a, b, c][..2] == [a, b];
  }
}
