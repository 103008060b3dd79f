/** The two signature verifiers: every check in order, ending in the replay cache. */
module SignatureCheck {
  import opened Bytes
  import opened Text
  import opened Base64
  import opened Collections
  import opened Delegation
  import opened ReplayCache

  const NONCE_BYTES := 16

  /** The pinned key of an address, SHA-256 and Ed25519 over (public key, signature, message). */
  datatype Verifier = Verifier(
    publicKey: (string, string) -> Option<bytes>,
    sha256: bytes -> Hash,
    ed25519: (bytes, bytes, bytes) -> bool)

  datatype Policy = Policy(trustedPeers: map<string, string>, revoked: set<string>, recipient: string, taskId: string, kind: string)

  /** A signature of any other length is invalid. */
  predicate Ed25519Ok(v: Verifier, key: bytes, signature: bytes, message: bytes) { |signature| == 64 && v.ed25519(key, signature, message) }

  /** A metadata block as strings; a time that is no integer is None. */
  datatype Meta = Meta(
    sender: string,
    context: string,
    recipient: string,
    taskId: string,
    kind: string,
    issuedAt: Option<int>,
    expiresAt: Option<int>,
    nonce: string,
    signature: string)

  datatype Reason =
    | NoMetadata | MissingSignature | UnknownPeer | RevokedPeer | BadContext | BadAlgorithm | VerifierIncomplete
    | RecipientMismatch | TaskIdMismatch | KindMismatch | BadTimeBounds | TooFarInFuture | InvalidExpiry
    | LifetimeExceedsMaximum | ExpiredSignature | BadNonce | UndecodableSignature | InvalidIdentity | Unsignable | SignatureInvalid
    | Replayed | Verified

  // ----- the time checks ---------------------------------------------------------------------

  function TimeRefusal(issuedAt: int, expiresAt: int, now: int): Option<Reason> {
    if issuedAt > now + MAX_FUTURE_SKEW_SECONDS then Some(TooFarInFuture)
    else if expiresAt <= issuedAt then Some(InvalidExpiry)
    else if expiresAt - issuedAt > MAX_DELEGATION_TTL_SECONDS then Some(LifetimeExceedsMaximum)
    else if now >= expiresAt then Some(ExpiredSignature)
    else None
  }

  lemma TimeRefusalIff(issuedAt: int, expiresAt: int, now: int)
    ensures TimeRefusal(issuedAt, expiresAt, now) == None <==> TimeOk(issuedAt, expiresAt, now)
  {}

  // ----- delegations ----------------------------------------------------------------------------

  function DelegationOf(meta: Meta, text: string, nonce: bytes): Delegation
    requires meta.issuedAt.Some? && meta.expiresAt.Some?
  {
    Delegation(meta.sender, meta.recipient, meta.taskId, meta.kind, meta.issuedAt.value, meta.expiresAt.value, text, nonce)
  }

  /** The bytes the block claims to sign. */
  function SignedBytes(v: Verifier, meta: Meta, text: string): Option<bytes> {
    var nonce :- FromHex(meta.nonce);
    if meta.issuedAt.None? || meta.expiresAt.None? then None else SigningBytes(v.sha256, DelegationOf(meta, text, nonce))
  }

  /** The checks after the time checks. */
  function SignatureRefusal(v: Verifier, policy: Policy, meta: Meta, text: string): Option<Reason>
    requires meta.sender in policy.trustedPeers
  {
    if |meta.nonce| != 2 * NONCE_BYTES || FromHex(meta.nonce).None? then Some(BadNonce)
    else if Decode64(meta.signature).None? then Some(UndecodableSignature)
    else if v.publicKey(meta.sender, policy.trustedPeers[meta.sender]).None? then Some(InvalidIdentity)
    else if SignedBytes(v, meta, text).None? then Some(Unsignable)
    else if !Ed25519Ok(v, v.publicKey(meta.sender, policy.trustedPeers[meta.sender]).value, Decode64(meta.signature).value, SignedBytes(v, meta, text).value)
    then Some(SignatureInvalid)
    else None
  }

  /** `verify_delegation` up to the replay cache: the first check that refuses. */
  function DelegationRefusal(v: Verifier, policy: Policy, meta: Meta, text: string, now: int): Option<Reason> {
    if meta.sender !in policy.trustedPeers then Some(UnknownPeer)
    else if meta.sender in policy.revoked then Some(RevokedPeer)
    else if meta.context != "raven.a2a.delegation.v2" then Some(BadContext)
    else if policy.recipient == "" || policy.taskId == "" then Some(VerifierIncomplete)
    else if meta.recipient != policy.recipient then Some(RecipientMismatch)
    else if meta.taskId != policy.taskId then Some(TaskIdMismatch)
    else if meta.kind != policy.kind then Some(KindMismatch)
    else if meta.issuedAt.None? || meta.expiresAt.None? then Some(BadTimeBounds)
    else if TimeRefusal(meta.issuedAt.value, meta.expiresAt.value, now).Some? then TimeRefusal(meta.issuedAt.value, meta.expiresAt.value, now)
    else SignatureRefusal(v, policy, meta, text)
  }

  /** A signature string that verifies for a message under the key pinned for a sender. */
  predicate SignedBy(v: Verifier, peers: map<string, string>, sender: string, signature: string, message: bytes) {
    && sender in peers && v.publicKey(sender, peers[sender]).Some? && Decode64(signature).Some?
    && Ed25519Ok(v, v.publicKey(sender, peers[sender]).value, Decode64(signature).value, message)
  }

  /** Everything a verifier demands of a delegation that does not depend on time. */
  predicate DelegationGenuine(v: Verifier, policy: Policy, meta: Meta, text: string) {
    && meta.sender !in policy.revoked && meta.context == "raven.a2a.delegation.v2"
    && policy.recipient == meta.recipient != "" && policy.taskId == meta.taskId != "" && policy.kind == meta.kind
    && |meta.nonce| == 32
    && SignedBytes(v, meta, text).Some? && SignedBy(v, policy.trustedPeers, meta.sender, meta.signature, SignedBytes(v, meta, text).value)
  }

  /** How a presentation enters the replay model. */
  function DelegationAttempt(v: Verifier, policy: Policy, meta: Meta, text: string, verifiedAt: real, consumedAt: real): Attempt {
    Attempt(meta.signature, DelegationGenuine(v, policy, meta, text), meta.issuedAt.GetOr(0), meta.expiresAt.GetOr(0), verifiedAt, consumedAt)
  }

  /** The checks pass exactly for a genuine block within its time window. */
  lemma DelegationPassesIff(v: Verifier, policy: Policy, meta: Meta, text: string, verifiedAt: real, consumedAt: real)
    ensures DelegationRefusal(v, policy, meta, text, verifiedAt.Floor) == None
            <==> Admissible(DelegationAttempt(v, policy, meta, text, verifiedAt, consumedAt))
  {
    hide SigningBytes, FromHex, TimeRefusal, TimeOk;
    if meta.issuedAt.Some? && meta.expiresAt.Some? {
      TimeRefusalIff(meta.issuedAt.value, meta.expiresAt.value, verifiedAt.Floor);
    }
  }

  /** `verify_delegation`; the clock is read once for the checks and once by the cache. */
  method VerifyDelegation(v: Verifier, cache: ReplayCache, policy: Policy, meta: Option<Meta>, text: string, required: bool, consume: bool,
                          verifiedAt: real, consumedAt: real, databaseOk: bool)
    returns (r: Reason)
    requires 0.0 <= verifiedAt <= consumedAt
    modifies cache
    ensures meta.None? ==> r == (if required then MissingSignature else NoMetadata) && cache.View() == old(cache.View())
    ensures meta.Some? && DelegationRefusal(v, policy, meta.value, text, verifiedAt.Floor).Some? ==>
              r == DelegationRefusal(v, policy, meta.value, text, verifiedAt.Floor).value && cache.View() == old(cache.View())
    ensures meta.Some? && !consume ==>
              cache.View() == old(cache.View())
              && (r == Verified <==> Admissible(DelegationAttempt(v, policy, meta.value, text, verifiedAt, consumedAt)))
    ensures meta.Some? && consume && (databaseOk || !cache.durable) ==>
              (cache.View(), r == Verified)
              == Verify(cache.cfg, old(cache.View()), DelegationAttempt(v, policy, meta.value, text, verifiedAt, consumedAt))
    ensures consume && cache.durable && !databaseOk ==> r != Verified && cache.View() == old(cache.View())
  {
    hide DelegationRefusal, DelegationGenuine, FirstTime;
    if meta.None? {
      return if required then MissingSignature else NoMetadata;
    }
    DelegationPassesIff(v, policy, meta.value, text, verifiedAt, consumedAt);
    NeverVerified(v, policy, meta.value, text, verifiedAt.Floor);
    var refusal := DelegationRefusal(v, policy, meta.value, text, verifiedAt.Floor);
    if refusal.Some? {
      return refusal.value;
    }
    if consume {
      var ok := cache.FirstTimeSeen(meta.value.signature, Some(meta.value.expiresAt.GetOr(0)), consumedAt, databaseOk);
      if !ok {
        return Replayed;
      }
    }
    return Verified;
  }

  lemma NeverVerified(v: Verifier, policy: Policy, meta: Meta, text: string, now: int)
    ensures DelegationRefusal(v, policy, meta, text, now) != Some(Verified)
  {
    hide SignedBytes, FromHex;
  }

  // ----- HTTP requests -----------------------------------------------------------------------------

  datatype Authorization = Authorization(
    address: string,
    recipient: string,
    context: string,
    algorithm: string,
    issuedAt: Option<int>,
    expiresAt: Option<int>,
    nonce: string,
    signature: string)

  datatype Request = Request(verb: string, target: string, body: bytes)

  /** The bytes the authorization claims to sign, over the request as received. */
  function RequestBytes(v: Verifier, policy: Policy, auth: Authorization, req: Request): Option<bytes> {
    var nonce :- FromHex(auth.nonce);
    if auth.issuedAt.None? || auth.expiresAt.None? then None
    else HttpSigningBytes(v.sha256, HttpRequest(auth.address, policy.recipient, req.verb, req.target, auth.issuedAt.value, auth.expiresAt.value, req.body, nonce))
  }

  /** `verify_http_request` up to the replay cache. */
  function RequestRefusal(v: Verifier, policy: Policy, auth: Authorization, req: Request, now: int): Option<Reason> {
    if auth.address !in policy.trustedPeers then Some(UnknownPeer)
    else if auth.address in policy.revoked then Some(RevokedPeer)
    else if auth.recipient != policy.recipient then Some(RecipientMismatch)
    else if auth.context != "raven.a2a.http-request.v1" then Some(BadContext)
    else if Lower(auth.algorithm) != "ed25519" then Some(BadAlgorithm)
    else if auth.issuedAt.None? || auth.expiresAt.None? then Some(BadTimeBounds)
    else if TimeRefusal(auth.issuedAt.value, auth.expiresAt.value, now).Some? then TimeRefusal(auth.issuedAt.value, auth.expiresAt.value, now)
    else if FromHex(auth.nonce).None? || |FromHex(auth.nonce).value| != NONCE_BYTES then Some(BadNonce)
    else if RequestBytes(v, policy, auth, req).None? || !SignedBy(v, policy.trustedPeers, auth.address, auth.signature, RequestBytes(v, policy, auth, req).value)
    then Some(SignatureInvalid)
    else None
  }

  predicate RequestGenuine(v: Verifier, policy: Policy, auth: Authorization, req: Request) {
    && auth.address !in policy.revoked && auth.recipient == policy.recipient
    && auth.context == "raven.a2a.http-request.v1" && Lower(auth.algorithm) == "ed25519"
    && FromHex(auth.nonce).Some? && |FromHex(auth.nonce).value| == 16
    && RequestBytes(v, policy, auth, req).Some? && SignedBy(v, policy.trustedPeers, auth.address, auth.signature, RequestBytes(v, policy, auth, req).value)
  }

  function RequestAttempt(v: Verifier, policy: Policy, auth: Authorization, req: Request, verifiedAt: real, consumedAt: real): Attempt {
    Attempt(auth.signature, RequestGenuine(v, policy, auth, req), auth.issuedAt.GetOr(0), auth.expiresAt.GetOr(0), verifiedAt, consumedAt)
  }

  lemma RequestPassesIff(v: Verifier, policy: Policy, auth: Authorization, req: Request, verifiedAt: real, consumedAt: real)
    ensures RequestRefusal(v, policy, auth, req, verifiedAt.Floor) == None
            <==> Admissible(RequestAttempt(v, policy, auth, req, verifiedAt, consumedAt))
  {
    hide HttpSigningBytes, FromHex, TimeRefusal, TimeOk, Lower;
    if auth.issuedAt.Some? && auth.expiresAt.Some? {
      TimeRefusalIff(auth.issuedAt.value, auth.expiresAt.value, verifiedAt.Floor);
    }
  }

  lemma RequestNeverVerified(v: Verifier, policy: Policy, auth: Authorization, req: Request, now: int)
    ensures RequestRefusal(v, policy, auth, req, now) != Some(Verified)
  {
    hide RequestBytes, FromHex, Lower;
  }

  /** `verify_http_request`, with the owner it reports. */
  method VerifyHttpRequest(v: Verifier, cache: ReplayCache, policy: Policy, auth: Authorization, req: Request, verifiedAt: real, consumedAt: real, databaseOk: bool)
    returns (r: Reason, owner: string)
    requires 0.0 <= verifiedAt <= consumedAt
    modifies cache
    ensures owner == if r == Verified then auth.address else ""
    ensures RequestRefusal(v, policy, auth, req, verifiedAt.Floor).Some? ==>
              r == RequestRefusal(v, policy, auth, req, verifiedAt.Floor).value && cache.View() == old(cache.View())
    ensures databaseOk || !cache.durable ==>
              (cache.View(), r == Verified) == Verify(cache.cfg, old(cache.View()), RequestAttempt(v, policy, auth, req, verifiedAt, consumedAt))
    ensures cache.durable && !databaseOk ==> r != Verified && cache.View() == old(cache.View())
  {
    hide RequestRefusal, RequestGenuine, FirstTime;
    RequestPassesIff(v, policy, auth, req, verifiedAt, consumedAt);
    RequestNeverVerified(v, policy, auth, req, verifiedAt.Floor);
    var refusal := RequestRefusal(v, policy, auth, req, verifiedAt.Floor);
    if refusal.Some? {
      return refusal.value, "";
    }
    var ok := cache.FirstTimeSeen(auth.signature, Some(auth.expiresAt.GetOr(0)), consumedAt, databaseOk);
    if !ok {
      return Replayed, "";
    }
    return Verified, auth.address;
  }

  // ----- a whole history of presentations ---------------------------------------------------------------

  datatype Presentation =
    | Block(policy: Policy, meta: Meta, text: string, verifiedAt: real, consumedAt: real)
    | Http(policy: Policy, auth: Authorization, req: Request, verifiedAt: real, consumedAt: real)

  function AttemptOf(v: Verifier, p: Presentation): Attempt {
    match p
    case Block(policy, meta, text, t, u) => DelegationAttempt(v, policy, meta, text, t, u)
    case Http(policy, auth, req, t, u) => RequestAttempt(v, policy, auth, req, t, u)
  }

  function Attempts(v: Verifier, ps: seq<Presentation>): (r: seq<Attempt>)
    ensures |r| == |ps| && forall i :: 0 <= i < |ps| ==> r[i] == AttemptOf(v, ps[i])
  {
    seq(|ps|, i requires 0 <= i < |ps| => AttemptOf(v, ps[i]))
  }

  function Message(v: Verifier, p: Presentation): Option<bytes> {
    match p
    case Block(_, meta, text, _, _) => SignedBytes(v, meta, text)
    case Http(policy, auth, req, _, _) => RequestBytes(v, policy, auth, req)
  }

  /** Among these presentations no signature string verifies for two messages. */
  ghost predicate SignaturesBind(v: Verifier, ps: seq<Presentation>) {
    forall i, j :: 0 <= i < |ps| && 0 <= j < |ps| ==>
      AttemptOf(v, ps[i]).genuine && AttemptOf(v, ps[j]).genuine && AttemptOf(v, ps[i]).signature == AttemptOf(v, ps[j]).signature ==>
        Message(v, ps[i]) == Message(v, ps[j])
  }

  lemma SameMessageSameExpiry(v: Verifier, p: Presentation, q: Presentation)
    requires AttemptOf(v, p).genuine && AttemptOf(v, q).genuine && Message(v, p) == Message(v, q)
    ensures AttemptOf(v, p).expiresAt == AttemptOf(v, q).expiresAt && AttemptOf(v, p).issuedAt == AttemptOf(v, q).issuedAt
  {
    hide SigningBytes, HttpSigningBytes, FromHex, SignedBy, Lower;
    match (p, q)
    case (Block(_, m, x, _, _), Block(_, n, y, _, _)) =>
      SigningBytesInjective(v.sha256, DelegationOf(m, x, FromHex(m.nonce).value), DelegationOf(n, y, FromHex(n.nonce).value));
    case (Http(pp, a, r, _, _), Http(qp, b, s, _, _)) =>
      HttpSigningBytesInjective(v.sha256, HttpOf(pp, a, r), HttpOf(qp, b, s));
    case (Block(_, m, x, _, _), Http(qp, b, s, _, _)) =>
      ContextsApart(v.sha256, DelegationOf(m, x, FromHex(m.nonce).value), HttpOf(qp, b, s));
    case (Http(pp, a, r, _, _), Block(_, n, y, _, _)) =>
      ContextsApart(v.sha256, DelegationOf(n, y, FromHex(n.nonce).value), HttpOf(pp, a, r));
  }

  function HttpOf(policy: Policy, auth: Authorization, req: Request): HttpRequest
    requires FromHex(auth.nonce).Some? && auth.issuedAt.Some? && auth.expiresAt.Some?
  {
    HttpRequest(auth.address, policy.recipient, req.verb, req.target, auth.issuedAt.value, auth.expiresAt.value, req.body, FromHex(auth.nonce).value)
  }

  /** Signatures that bind one message fix the signed expiry: what the replay theorems ask for. */
  lemma BindingFixesFields(v: Verifier, ps: seq<Presentation>)
    requires SignaturesBind(v, ps)
    ensures FieldsFixed(Attempts(v, ps))
  {
    hide AttemptOf, Message;
    var attempts := Attempts(v, ps);
    forall i, j | 0 <= i < |attempts| && 0 <= j < |attempts| && attempts[i].genuine && attempts[j].genuine && attempts[i].signature == attempts[j].signature
      ensures attempts[i].expiresAt == attempts[j].expiresAt
    {
      SameMessageSameExpiry(v, ps[i], ps[j]);
    }
  }

  /**
   * Delegations and HTTP requests presented to one cache in any order, each with one clock reading: no
   * signature string is accepted twice.
   */
  lemma NoReplay(v: Verifier, cfg: Config, durable: bool, ps: seq<Presentation>)
    requires SignaturesBind(v, ps) && ClockOk(Attempts(v, ps)) && OneReading(Attempts(v, ps))
    requires !durable ==> cfg.ttl >= MAX_DELEGATION_TTL_SECONDS + MAX_FUTURE_SKEW_SECONDS
    ensures AcceptedOnce(cfg, durable, Attempts(v, ps))
  {
    hide SignaturesBind, ClockOk, OneReading, AcceptedOnce;
    BindingFixesFields(v, ps);
    NeverTwice(cfg, durable, Attempts(v, ps));
  }

  // ----- one signature under several spellings --------------------------------------------------------------

  /** The same presentation under another text for its signature, at other instants. */
  function Respelled(p: Presentation, text: string, verifiedAt: real, consumedAt: real): Presentation {
    match p
    case Block(policy, meta, body, _, _) => Block(policy, meta.(signature := text), body, verifiedAt, consumedAt)
    case Http(policy, auth, req, _, _) => Http(policy, auth.(signature := text), req, verifiedAt, consumedAt)
  }

  /** The checks do not tell two texts of one signature apart. */
  lemma RespelledSame(v: Verifier, p: Presentation, text: string, verifiedAt: real, consumedAt: real)
    requires Decode64(text) == Decode64(AttemptOf(v, p).signature)
    ensures AttemptOf(v, Respelled(p, text, verifiedAt, consumedAt))
            == AttemptOf(v, p).(signature := text, verifiedAt := verifiedAt, consumedAt := consumedAt)
  {
    hide SigningBytes, HttpSigningBytes, FromHex, Lower, Decode64, Ed25519Ok;
  }

  lemma GenuineDecodes(v: Verifier, p: Presentation)
    requires AttemptOf(v, p).genuine
    ensures Decode64(AttemptOf(v, p).signature).Some? && |Decode64(AttemptOf(v, p).signature).value| == 64
  {
    hide SigningBytes, HttpSigningBytes, FromHex, Lower, Decode64;
  }

  /** No two accepted attempts carry one signature, whatever its text. */
  ghost predicate SignatureOnce(cfg: Config, durable: bool, attempts: seq<Attempt>) {
    forall i, j :: 0 <= i < j < |attempts| && Run(cfg, Empty(durable), attempts).1[i] && Run(cfg, Empty(durable), attempts).1[j] ==>
      Decode64(attempts[i].signature) != Decode64(attempts[j].signature)
  }

  /** Every genuine presentation spells its signature as the encoder would. */
  ghost predicate Canonical(attempts: seq<Attempt>) {
    forall i :: 0 <= i < |attempts| && attempts[i].genuine ==> Spare(attempts[i].signature) == 0
  }

  lemma {:induction false} AcceptedIsGenuine(cfg: Config, durable: bool, attempts: seq<Attempt>, i: nat)
    requires i < |attempts| && Run(cfg, Empty(durable), attempts).1[i]
    ensures attempts[i].genuine
  {
    hide FirstTime;
    if i < |attempts| - 1 {
      AcceptedIsGenuine(cfg, durable, attempts[..|attempts| - 1], i);
    }
  }

  /** While texts are canonical, no signature is accepted twice; the texts alone would not say so. */
  lemma NoSignatureTwice(v: Verifier, cfg: Config, durable: bool, ps: seq<Presentation>)
    requires SignaturesBind(v, ps) && ClockOk(Attempts(v, ps)) && OneReading(Attempts(v, ps)) && Canonical(Attempts(v, ps))
    requires !durable ==> cfg.ttl >= MAX_DELEGATION_TTL_SECONDS + MAX_FUTURE_SKEW_SECONDS
    ensures SignatureOnce(cfg, durable, Attempts(v, ps))
  {
    hide SignaturesBind, ClockOk, OneReading, Decode64, Spare, Run, AttemptOf;
    NoReplay(v, cfg, durable, ps);
    var attempts := Attempts(v, ps);
    forall i, j | 0 <= i < j < |attempts| && Run(cfg, Empty(durable), attempts).1[i] && Run(cfg, Empty(durable), attempts).1[j]
      ensures Decode64(attempts[i].signature) != Decode64(attempts[j].signature)
    {
      AcceptedIsGenuine(cfg, durable, attempts, i);
      AcceptedIsGenuine(cfg, durable, attempts, j);
      GenuineDecodes(v, ps[i]);
      if Decode64(attempts[i].signature) == Decode64(attempts[j].signature) {
        SpellingsIff(attempts[i].signature, attempts[j].signature);
      }
    }
  }

  /**
   * The condition is a real one, and exact: after an accepted presentation the same one under a text of the
   * same signature is accepted if and only if the spare bits of the text differ.
   */
  lemma SpellingAcceptedIff(v: Verifier, cfg: Config, durable: bool, p: Presentation, text: string, verifiedAt: real, consumedAt: real)
    requires var a := AttemptOf(v, p);
             && Admissible(a) && a.verifiedAt == a.consumedAt && 0.0 <= a.verifiedAt <= verifiedAt == consumedAt
             && TimeOk(a.issuedAt, a.expiresAt, verifiedAt.Floor)
             && Decode64(text) == Decode64(a.signature) && CollisionFree(cfg.sha256, {a.signature, text})
    requires cfg.maxEntries > 1 && (!durable ==> cfg.ttl >= MAX_DELEGATION_TTL_SECONDS + MAX_FUTURE_SKEW_SECONDS)
    ensures Run(cfg, Empty(durable), Attempts(v, [p, Respelled(p, text, verifiedAt, consumedAt)])).1
            == [true, Spare(text) != Spare(AttemptOf(v, p).signature)]
  {
    hide AttemptOf, Decode64, Spare, TimeOk, FirstTime, Verify, Admissible;
    var a, q := AttemptOf(v, p), Respelled(p, text, verifiedAt, consumedAt);
    RespelledSame(v, p, text, verifiedAt, consumedAt);
    GenuineOf(a);
    GenuineDecodes(v, p);
    SpellingsIff(a.signature, text);
    assert Attempts(v, [p, q]) == [a, AttemptOf(v, q)];
    TwoTexts(cfg, durable, a, AttemptOf(v, q));
  }

  /** Such a text there is for every genuine presentation: 64 bytes leave four bits of the last character over. */
  lemma AnotherSpelling(v: Verifier, p: Presentation) returns (text: string)
    requires AttemptOf(v, p).genuine
    ensures Decode64(text) == Decode64(AttemptOf(v, p).signature) && Spare(text) != Spare(AttemptOf(v, p).signature)
  {
    hide AttemptOf, Decode64, Spare, Respell;
    var s := AttemptOf(v, p).signature;
    GenuineDecodes(v, p);
    RespellDecodes(s);
    text := Respell(s);
    SpellingsIff(text, s);
  }

  lemma GenuineOf(a: Attempt)
    requires Admissible(a)
    ensures a.genuine
  {}

  /** Two admissible attempts that differ in their text and their instants at most. */
  lemma TwoTexts(cfg: Config, durable: bool, a: Attempt, b: Attempt)
    requires Admissible(a) && a.verifiedAt == a.consumedAt && 0.0 <= a.verifiedAt <= b.verifiedAt == b.consumedAt
    requires b == a.(signature := b.signature, verifiedAt := b.verifiedAt, consumedAt := b.consumedAt) && TimeOk(b.issuedAt, b.expiresAt, b.verifiedAt.Floor)
    requires CollisionFree(cfg.sha256, {a.signature, b.signature})
    requires cfg.maxEntries > 1 && (!durable ==> cfg.ttl >= MAX_DELEGATION_TTL_SECONDS + MAX_FUTURE_SKEW_SECONDS)
    ensures Run(cfg, Empty(durable), [a, b]).1 == [true, a.signature != b.signature]
  {
    hide FirstTime, TimeOk, Verify, Run, AcceptedOnce, CollisionFree;
    var c0 := Empty(durable);
    RunNone(cfg, c0);
    RunPair(cfg, c0, a, b);
    NothingYet(durable);
    FreshIsAccepted(cfg, durable, [], a);
    if a.signature == b.signature {
      assert OneReading([a, b]) && ClockOk([a, b]) && FieldsFixed([a, b]);
      NeverTwice(cfg, durable, [a, b]);
      OnlyOne(cfg, durable, a, b);
    } else {
      OneEntry(cfg, durable, a);
      assert cfg.sha256(a.signature) != cfg.sha256(b.signature) by { Apart(cfg, a.signature, b.signature); }
      assert Admissible(b);
      FreshIsAccepted(cfg, durable, [a], b);
    }
  }

  lemma Apart(cfg: Config, s: string, t: string)
    requires CollisionFree(cfg.sha256, {s, t}) && s != t
    ensures cfg.sha256(s) != cfg.sha256(t)
  {}

  lemma RunNone(cfg: Config, c: Cache)
    ensures Run(cfg, c, []) == (c, [])
  {}

  lemma RunPair(cfg: Config, c: Cache, a: Attempt, b: Attempt)
    ensures Run(cfg, c, [a]) == (Verify(cfg, c, a).0, [Verify(cfg, c, a).1])
    ensures Run(cfg, c, [a, b]).1 == [Verify(cfg, c, a).1, Verify(cfg, Run(cfg, c, [a]).0, b).1]
  {
    hide Verify;
    var one, two := [a], [a, b];
    assert one[..0] == [] && two[..1] == one;
    assert [] + [Verify(cfg, c, a).1] == [Verify(cfg, c, a).1];
  }

  lemma NothingYet(durable: bool)
    ensures Entries(Empty(durable)) == 0
  {}

  lemma OneEntry(cfg: Config, durable: bool, a: Attempt)
    ensures Entries(Verify(cfg, Empty(durable), a).0) <= 1
  {
    hide TimeOk;
    assert Live(map[], a.consumedAt.Floor) == map[] && Kept(map[], a.consumedAt, cfg.ttl) == map[];
  }

  lemma OnlyOne(cfg: Config, durable: bool, a: Attempt, b: Attempt)
    requires AcceptedOnce(cfg, durable, [a, b]) && a.signature == b.signature
    ensures var accepted := Run(cfg, Empty(durable), [a, b]).1; |accepted| == 2 && accepted[0] ==> !accepted[1]
  {
    hide Run;
    assert [a, b][0] == a && [a, b][1] == b;
  }
}
