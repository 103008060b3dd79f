/** Committing a received message: the ledger of accepted keys and the order of durable steps. */
module ReceiveCommit {
  import opened Bytes

  // ----- the ledger -----------------------------------------------------------------------

  /** The identity of a message; the source checks no lengths. */
  datatype AcceptKey = AcceptKey(sessionId: bytes, dhPub: bytes, n: int, sckaEpoch: int, sckaCtr: int)

  predicate KeyFits(k: AcceptKey) { Fits(k.n, 4) && Fits(k.sckaEpoch, 4) && Fits(k.sckaCtr, 4) }

  function Packed(k: AcceptKey): bytes {
    k.sessionId + (k.dhPub + PutUint(k.n, 4, PutUint(k.sckaEpoch, 4, PutUint(k.sckaCtr, 4, []))))
  }

  datatype Ledger = Ledger(acceptedKeys: set<bytes>, digestToAck: map<bytes, bytes>, mutationCount: nat)

  datatype Verdict = Overflow | Replay | DuplicateCommitted | Accepted

  function CommitAccept(l: Ledger, k: AcceptKey, digest: bytes, ack: bytes): (Ledger, Verdict) {
    if !KeyFits(k) then (l, Overflow)
    else if Packed(k) in l.acceptedKeys then (l, Replay)
    else if digest in l.digestToAck then (l, DuplicateCommitted)
    else (Ledger(l.acceptedKeys + {Packed(k)}, l.digestToAck[digest := ack], l.mutationCount + 1), Accepted)
  }

  datatype Message = Message(key: AcceptKey, digest: bytes, ack: bytes)

  /** The ledger after the messages, and the verdict on each. */
  function Commit(ms: seq<Message>): (r: (Ledger, seq<Verdict>))
    ensures |r.1| == |ms|
  {
    if ms == [] then (Ledger({}, map[], 0), [])
    else
      var (l, vs) := Commit(ms[..|ms| - 1]);
      var m := ms[|ms| - 1];
      var (l', v) := CommitAccept(l, m.key, m.digest, m.ack);
      (l', vs + [v])
  }

  function Counters(k: AcceptKey): bytes { PutUint(k.n, 4, PutUint(k.sckaEpoch, 4, PutUint(k.sckaCtr, 4, []))) }

  lemma CountersInjective(a: AcceptKey, b: AcceptKey)
    requires KeyFits(a) && KeyFits(b) && Counters(a) == Counters(b)
    ensures a.n == b.n && a.sckaEpoch == b.sckaEpoch && a.sckaCtr == b.sckaCtr
  {
    hide PutUint, Uint, Fits;
    GetOfPutUint(a.n, 4, PutUint(a.sckaEpoch, 4, PutUint(a.sckaCtr, 4, [])));
    GetOfPutUint(b.n, 4, PutUint(b.sckaEpoch, 4, PutUint(b.sckaCtr, 4, [])));
    GetOfPutUint(a.sckaEpoch, 4, PutUint(a.sckaCtr, 4, []));
    GetOfPutUint(b.sckaEpoch, 4, PutUint(b.sckaCtr, 4, []));
    GetOfPutUint(a.sckaCtr, 4, []);
    GetOfPutUint(b.sckaCtr, 4, []);
  }

  lemma EqualTails(x: bytes, y: bytes, t: bytes, u: bytes)
    requires |t| == |u|
    ensures x + t == y + u <==> x == y && t == u
  {
    if x + t == y + u {
      assert |x| == |y|;
      TakeOfConcat(x, t);
      TakeOfConcat(y, u);
    }
  }

  /** Packing keeps the counters apart, and of the two byte strings only their concatenation. */
  lemma PackedIff(a: AcceptKey, b: AcceptKey)
    requires KeyFits(a) && KeyFits(b)
    ensures Packed(a) == Packed(b) <==>
              a.sessionId + a.dhPub == b.sessionId + b.dhPub && a.n == b.n && a.sckaEpoch == b.sckaEpoch && a.sckaCtr == b.sckaCtr
  {
    hide PutUint, Fits;
    assert Packed(a) == a.sessionId + a.dhPub + Counters(a) && Packed(b) == b.sessionId + b.dhPub + Counters(b);
    CountersLength(a);
    CountersLength(b);
    EqualTails(a.sessionId + a.dhPub, b.sessionId + b.dhPub, Counters(a), Counters(b));
    if Counters(a) == Counters(b) {
      CountersInjective(a, b);
    }
  }

  lemma CountersLength(k: AcceptKey)
    ensures |Counters(k)| == 12
  {}

  /** So two keys that pack alike are one key exactly when their session identifiers have one length. */
  lemma PackedInjectiveIff(a: AcceptKey, b: AcceptKey)
    requires KeyFits(a) && KeyFits(b) && Packed(a) == Packed(b)
    ensures a == b <==> |a.sessionId| == |b.sessionId|
  {
    hide Packed;
    PackedIff(a, b);
    if |a.sessionId| == |b.sessionId| {
      TakeOfConcat(a.sessionId, a.dhPub);
      TakeOfConcat(b.sessionId, b.dhPub);
    }
  }

  /** Without fixed lengths two keys can pack alike. */
  lemma DifferentKeysPackAlike()
    ensures AcceptKey([1], [], 0, 0, 0) != AcceptKey([], [1], 0, 0, 0)
    ensures Packed(AcceptKey([1], [], 0, 0, 0)) == Packed(AcceptKey([], [1], 0, 0, 0))
  {
    var a, b := AcceptKey([1], [], 0, 0, 0), AcceptKey([], [1], 0, 0, 0);
    assert a.sessionId != b.sessionId;
    Widths();
    PackedIff(a, b);
  }

  lemma {:induction false} CommitRecords(ms: seq<Message>, i: nat)
    requires i < |ms| && Commit(ms).1[i] == Accepted
    ensures Packed(ms[i].key) in Commit(ms).0.acceptedKeys
    ensures ms[i].digest in Commit(ms).0.digestToAck && Commit(ms).0.digestToAck[ms[i].digest] == ms[i].ack
  {
    hide Packed;
    if i < |ms| - 1 {
      CommitRecords(ms[..|ms| - 1], i);
    }
  }

  lemma {:induction false} CommitAt(ms: seq<Message>, j: nat)
    requires j < |ms|
    ensures Commit(ms).1[j] == CommitAccept(Commit(ms[..j]).0, ms[j].key, ms[j].digest, ms[j].ack).1
    ensures forall i :: 0 <= i < j ==> Commit(ms[..j]).1[i] == Commit(ms).1[i]
    decreases |ms|
  {
    hide CommitAccept;
    if j < |ms| - 1 {
      var front := ms[..|ms| - 1];
      CommitAt(front, j);
      assert front[..j] == ms[..j];
    }
  }

  /** In any run no accept key and no object digest is accepted twice, and the first ack is kept. */
  lemma AcceptedOnce(ms: seq<Message>, i: nat, j: nat)
    requires i < j < |ms| && Commit(ms).1[i] == Accepted
    ensures Packed(ms[i].key) == Packed(ms[j].key) && KeyFits(ms[j].key) ==> Commit(ms).1[j] == Replay
    ensures ms[i].digest == ms[j].digest ==> Commit(ms).1[j] != Accepted
    ensures ms[i].digest in Commit(ms).0.digestToAck && Commit(ms).0.digestToAck[ms[i].digest] == ms[i].ack
  {
    hide Packed, Commit;
    CommitRecords(ms, i);
    CommitAt(ms, j);
    CommitRecords(ms[..j], i);
    CommitAt(ms, i);
  }

  /** Keys, digests and mutations are counted alike. */
  lemma {:induction false} LedgerCounts(ms: seq<Message>)
    ensures var l := Commit(ms).0; |l.acceptedKeys| == |l.digestToAck| == l.mutationCount
  {
    hide Packed;
    if ms != [] {
      LedgerCounts(ms[..|ms| - 1]);
    }
  }

  // ----- the order of durable steps ------------------------------------------------------------

  datatype Stage = Idle | Candidate | Derived | AeadOk | Pending | SqlCommitted | SkippedPersisted | Finalized | Cleared

  datatype Action =
    | CloneCandidate | DeriveKeysOnCandidate | DecryptionOk | WritePending | SqlCommit | PersistSkipped
    | FinalizeHead | PromoteEpochOnCandidate | CommitEpochWithFinalize | ClearPending
    | FinalizeBeforeSql | PromoteEpochBeforeSql

  datatype Progress = Progress(
    stage: Stage, durableMutation: bool, skippedPersisted: bool, epochPromoted: bool, epochOnCandidate: bool, generation: nat)

  /** One action; None where the machine raises, having changed nothing. */
  function Perform(p: Progress, a: Action): Option<Progress> {
    match a
    case CloneCandidate => if p.stage.Idle? then Some(p.(stage := Candidate)) else None
    case DeriveKeysOnCandidate => if p.stage.Candidate? then Some(p.(stage := Derived)) else None
    case DecryptionOk => if p.stage.Derived? then Some(p.(stage := AeadOk)) else None
    case WritePending => if p.stage.AeadOk? then Some(p.(stage := Pending)) else None
    case SqlCommit => if p.stage.Pending? then Some(p.(stage := SqlCommitted, durableMutation := true)) else None
    case PersistSkipped =>
      if p.stage.SqlCommitted? then Some(p.(stage := SkippedPersisted, skippedPersisted := true)) else None
    case FinalizeHead =>
      if (p.stage.SqlCommitted? || p.stage.SkippedPersisted?) && !p.epochOnCandidate then
        Some(p.(stage := Finalized, generation := p.generation + 1))
      else None
    case PromoteEpochOnCandidate =>
      if p.stage.Derived? || p.stage.AeadOk? then Some(p.(epochOnCandidate := true)) else None
    case CommitEpochWithFinalize =>
      if (p.stage.SqlCommitted? || p.stage.SkippedPersisted?) && p.epochOnCandidate && p.durableMutation then
        Some(p.(stage := Finalized, epochPromoted := true, generation := p.generation + 1))
      else None
    case ClearPending => if p.stage.Finalized? then Some(p.(stage := Cleared)) else None
    case FinalizeBeforeSql => None
    case PromoteEpochBeforeSql => None
  }

  function Start(): Progress { Progress(Idle, false, false, false, false, 0) }

  function RunActions(actions: seq<Action>): Progress {
    if actions == [] then Start()
    else
      var p := RunActions(actions[..|actions| - 1]);
      match Perform(p, actions[|actions| - 1])
      case None => p
      case Some(p') => p'
  }

  predicate Committed(s: Stage) { s.SqlCommitted? || s.SkippedPersisted? || s.Finalized? || s.Cleared? }
  predicate Final(s: Stage) { s.Finalized? || s.Cleared? }

  class ReceiveCommitMachine {
    var stage: Stage
    var durableMutation: bool
    var skippedPersisted: bool
    var epochPromoted: bool
    var epochOnCandidate: bool
    var generation: nat

    constructor ()
      ensures View() == Start()
    {
      stage, durableMutation, skippedPersisted, epochPromoted, epochOnCandidate, generation := Idle, false, false, false, false, 0;
    }

    function View(): Progress
      reads this
    {
      Progress(stage, durableMutation, skippedPersisted, epochPromoted, epochOnCandidate, generation)
    }

    /** `apply` */
    method Apply(a: Action) returns (ok: bool)
      modifies this
      ensures ok <==> Perform(old(View()), a).Some?
      ensures View() == if ok then Perform(old(View()), a).value else old(View())
    {
      ok := false;
      match a
      case CloneCandidate => if stage.Idle? { stage, ok := Candidate, true; }
      case DeriveKeysOnCandidate => if stage.Candidate? { stage, ok := Derived, true; }
      case DecryptionOk => if stage.Derived? { stage, ok := AeadOk, true; }
      case WritePending => if stage.AeadOk? { stage, ok := Pending, true; }
      case SqlCommit => if stage.Pending? { stage, durableMutation, ok := SqlCommitted, true, true; }
      case PersistSkipped => if stage.SqlCommitted? { skippedPersisted, stage, ok := true, SkippedPersisted, true; }
      case FinalizeHead =>
        if (stage.SqlCommitted? || stage.SkippedPersisted?) && !epochOnCandidate {
          generation, stage, ok := generation + 1, Finalized, true;
        }
      case PromoteEpochOnCandidate => if stage.Derived? || stage.AeadOk? { epochOnCandidate, ok := true, true; }
      case CommitEpochWithFinalize =>
        if (stage.SqlCommitted? || stage.SkippedPersisted?) && epochOnCandidate && durableMutation {
          epochPromoted, generation, stage, ok := true, generation + 1, Finalized, true;
        }
      case ClearPending => if stage.Finalized? { stage, ok := Cleared, true; }
      case _ =>
    }
  }

  /**
   * Whatever actions are tried in whatever order: the message is committed in SQL exactly from that
   * step on, the head is finalised once and only after it, and the epoch is promoted exactly when a
   * candidate that carried a promotion is finalised.
   */
  lemma {:induction false} DurableOrder(actions: seq<Action>)
    ensures var p := RunActions(actions);
            && (p.durableMutation <==> Committed(p.stage))
            && (p.generation == if Final(p.stage) then 1 else 0)
            && (p.epochPromoted <==> Final(p.stage) && p.epochOnCandidate)
            && (p.skippedPersisted ==> p.durableMutation && !p.stage.SqlCommitted?)
            && (p.stage.SkippedPersisted? ==> p.skippedPersisted)
            && (p.epochOnCandidate ==> !p.stage.Idle? && !p.stage.Candidate?)
  {
    if actions != [] {
      DurableOrder(actions[..|actions| - 1]);
    }
  }
}
