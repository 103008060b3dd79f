/** Relay task processing as a state machine over durable writes, with crashes between any two. */
module Relay {
  import opened Bytes
  import opened Collections
  import opened RelayOutcomes
  import opened Delegation

  datatype Envelope = Envelope(sender: string, taskId: string, text: string, signature: string, issuedAt: int, expiresAt: int)

  /** The hash of signatures, what each signature string signs, and the length of a serialized reply. */
  datatype World = World(hash: string -> Hash, signed: string -> Envelope, size: Reply -> nat)

  /** A valid signature fixes the signed fields. */
  predicate Genuine(w: World, env: Envelope) { env == w.signed(env.signature) }

  /** What `verify_delegation` demands at second `now` of a trusted sender's task. */
  predicate Admissible(w: World, env: Envelope, now: int) { Genuine(w, env) && TimeOk(env.issuedAt, env.expiresAt, now) }

  /** Where the single worker stands between durable writes. */
  datatype Phase =
    | Idle
    | Verified(path: string, env: Envelope)
    | Running(path: string, env: Envelope)
    | Abandoned(path: string, env: Envelope)
    | Ready(path: string, env: Envelope, reply: Reply)
    | Recorded(path: string, env: Envelope, reply: Reply)
    | Written(path: string, env: Envelope, reply: Reply)

  /**
   * Durable state, the worker's volatile state (`listing`, `phase`) and a history: the signatures the
   * brain was run for, the replies written, the signatures claimed at or after their expiry, the files
   * that arrived, and how many of them had when the inbox was last listed.
   */
  datatype State = State(
    clock: int,
    inbox: map<string, Envelope>,
    outbox: map<(string, string), Reply>,
    rows: Rows,
    listing: seq<(string, Envelope)>,
    phase: Phase,
    brainLog: seq<string>,
    written: seq<(string, Reply)>,
    late: set<string>,
    arrivals: seq<(string, Envelope)>,
    polled: nat)

  datatype Step =
    | Tick(to: int)
    | Arrive(at: string, envelope: Envelope)
    | Poll(files: seq<string>)
    | Check(ok: bool)
    | ClaimRow
    | Brain(answer: Reply)
    | Excuse(answer: Reply)
    | CompleteRow
    | WriteReply
    | Unlink
    | Crash

  function Stop(s: State): State { s.(phase := Idle, listing := []) }

  /** `_read_slot`: the listed files that are there. */
  function List(inbox: map<string, Envelope>, files: seq<string>): seq<(string, Envelope)> {
    if files == [] then []
    else (if files[0] in inbox then [(files[0], inbox[files[0]])] else []) + List(inbox, files[1..])
  }

  function DoCheck(w: World, s: State, ok: bool): State {
    if !s.phase.Idle? || s.listing == [] then s
    else
      var (path, env) := s.listing[0];
      var s1 := s.(listing := s.listing[1..]);
      if ok && Admissible(w, env, s.clock) then s1.(phase := Verified(path, env))
      else s1.(inbox := s.inbox - {path})
  }

  function DoClaim(w: World, s: State): State {
    if !s.phase.Verified? then s
    else
      var env := s.phase.env;
      var (rows, r) := Claim(s.rows, w.hash(env.signature), env.expiresAt, s.clock);
      var s1 := s.(rows := rows, late := if s.clock >= env.expiresAt then s.late + {env.signature} else s.late);
      match r
      case New => s1.(phase := Running(s.phase.path, env))
      case Interrupted => s1.(phase := Abandoned(s.phase.path, env))
      case Completed(reply) => s1.(phase := Recorded(s.phase.path, env, reply))
      case _ => Stop(s1)
  }

  function DoComplete(w: World, s: State): State {
    if !s.phase.Ready? then s
    else
      var env := s.phase.env;
      var (rows, r) := Complete(s.rows, w.hash(env.signature), env.expiresAt, s.phase.reply, w.size(s.phase.reply), s.clock);
      if r.Persisted? then s.(rows := rows, phase := Recorded(s.phase.path, env, s.phase.reply)) else Stop(s)
  }

  /** One step; a step that is not enabled changes nothing. */
  function Next(w: World, s: State, step: Step): State {
    match step
    case Tick(to) => if to >= s.clock then s.(clock := to) else s
    case Arrive(path, env) => s.(inbox := s.inbox[path := env], arrivals := s.arrivals + [(path, env)])
    case Poll(files) => if s.phase.Idle? && s.listing == [] then s.(listing := List(s.inbox, files), polled := |s.arrivals|) else s
    case Check(ok) => DoCheck(w, s, ok)
    case ClaimRow => DoClaim(w, s)
    case Brain(answer) =>
      if s.phase.Running? then
        s.(phase := Ready(s.phase.path, s.phase.env, answer), brainLog := s.brainLog + [s.phase.env.signature])
      else s
    case Excuse(answer) => if s.phase.Abandoned? then s.(phase := Ready(s.phase.path, s.phase.env, answer)) else s
    case CompleteRow => DoComplete(w, s)
    case WriteReply =>
      if s.phase.Recorded? then
        s.(phase := Written(s.phase.path, s.phase.env, s.phase.reply),
           outbox := s.outbox[(s.phase.env.sender, s.phase.env.taskId) := s.phase.reply],
           written := s.written + [(s.phase.env.signature, s.phase.reply)])
      else s
    case Unlink => if s.phase.Written? then s.(inbox := s.inbox - {s.phase.path}, phase := Idle) else s
    case Crash => Stop(s)
  }

  function Run(w: World, s: State, steps: seq<Step>): State {
    if steps == [] then s else Next(w, Run(w, s, steps[..|steps| - 1]), steps[|steps| - 1])
  }

  function Start(clock: int, inbox: map<string, Envelope>): State {
    State(clock, inbox, map[], map[], [], Idle, [], [], {}, [], 0)
  }

  // ----- the signatures of a run -------------------------------------------------------------------

  /** Every signature string that is in the inbox at the start or arrives later. */
  function Occurring(inbox: map<string, Envelope>, steps: seq<Step>): set<string> {
    (set p | p in inbox :: inbox[p].signature)
    + (set i | 0 <= i < |steps| && steps[i].Arrive? :: steps[i].envelope.signature)
  }

  predicate StepIn(sigs: set<string>, step: Step) { step.Arrive? ==> step.envelope.signature in sigs }

  /** The state mentions no other signatures. */
  ghost predicate Within(sigs: set<string>, s: State) {
    && (forall p :: p in s.inbox ==> s.inbox[p].signature in sigs)
    && (forall i :: 0 <= i < |s.listing| ==> s.listing[i].1.signature in sigs)
    && (!s.phase.Idle? ==> s.phase.env.signature in sigs)
    && (forall sig :: sig in s.brainLog ==> sig in sigs)
    && (forall i :: 0 <= i < |s.written| ==> s.written[i].0 in sigs)
  }

  lemma {:induction false} ListWithin(sigs: set<string>, inbox: map<string, Envelope>, files: seq<string>)
    requires forall p :: p in inbox ==> inbox[p].signature in sigs
    ensures forall i :: 0 <= i < |List(inbox, files)| ==> List(inbox, files)[i].1.signature in sigs
  {
    if files != [] {
      ListWithin(sigs, inbox, files[1..]);
    }
  }

  lemma CheckWithin(w: World, sigs: set<string>, s: State, ok: bool)
    requires Within(sigs, s)
    ensures Within(sigs, DoCheck(w, s, ok))
  {
    hide Admissible;
  }

  lemma ClaimWithin(w: World, sigs: set<string>, s: State)
    requires Within(sigs, s)
    ensures Within(sigs, DoClaim(w, s))
  {
    hide Claim;
  }

  lemma CompleteWithin(w: World, sigs: set<string>, s: State)
    requires Within(sigs, s)
    ensures Within(sigs, DoComplete(w, s))
  {
    hide Complete;
  }

  lemma WriteWithin(w: World, sigs: set<string>, s: State)
    requires Within(sigs, s)
    ensures Within(sigs, Next(w, s, WriteReply))
  {}

  lemma NextWithin(w: World, sigs: set<string>, s: State, step: Step)
    requires Within(sigs, s) && StepIn(sigs, step)
    ensures Within(sigs, Next(w, s, step))
  {
    hide DoCheck, DoClaim, DoComplete, List;
    match step
    case Check(ok) => CheckWithin(w, sigs, s, ok);
    case ClaimRow => ClaimWithin(w, sigs, s);
    case CompleteRow => CompleteWithin(w, sigs, s);
    case WriteReply => WriteWithin(w, sigs, s);
    case Poll(files) => ListWithin(sigs, s.inbox, files);
    case _ =>
  }

  // ----- the invariant ---------------------------------------------------------------------------

  function Times(log: seq<string>, signature: string): nat { multiset(log)[signature] }

  /** A row's expiry is that of the signature it belongs to. */
  ghost predicate RowsOk(w: World, sigs: set<string>, rows: Rows) {
    forall sig :: sig in sigs && w.hash(sig) in rows ==> rows[w.hash(sig)].expiresAt == w.signed(sig).expiresAt
  }

  /** The row behind the envelope in hand. */
  ghost predicate PhaseOk(w: World, s: State) {
    s.phase.Idle? || (
      && Genuine(w, s.phase.env)
      && var key := w.hash(s.phase.env.signature);
      match s.phase
      case Verified(_, _) => true
      case Running(_, _) => key in s.rows && s.rows[key].state == Processing
      case Abandoned(_, _) => key in s.rows && s.rows[key].state == Processing
      case Ready(_, _, _) => key in s.rows && s.rows[key].state == Processing
      case Recorded(_, _, reply) => key in s.rows && s.rows[key].state == Stored(reply)
      case Written(_, env, reply) =>
        && key in s.rows && s.rows[key].state == Stored(reply)
        && (env.signature, reply) in s.written
        && (env.sender, env.taskId) in s.outbox && s.outbox[(env.sender, env.taskId)] == reply)
  }

  /** What the table remembers of a signature that was never claimed late. */
  ghost predicate HistoryOk(w: World, s: State, sig: string) {
    && Times(s.brainLog, sig) <= 1
    && (sig in s.brainLog ==> w.hash(sig) in s.rows || s.clock >= w.signed(sig).expiresAt)
    && (s.phase.Running? && s.phase.env.signature == sig ==> sig !in s.brainLog)
    && (forall i :: 0 <= i < |s.written| && s.written[i].0 == sig ==>
          if w.hash(sig) in s.rows then s.rows[w.hash(sig)].state == Stored(s.written[i].1)
          else s.clock >= w.signed(sig).expiresAt)
    && (forall i, j :: 0 <= i < |s.written| && 0 <= j < |s.written| && s.written[i].0 == sig && s.written[j].0 == sig
                       ==> s.written[i].1 == s.written[j].1)
  }

  ghost predicate Inv(w: World, sigs: set<string>, s: State) {
    && Within(sigs, s) && RowsOk(w, sigs, s.rows) && PhaseOk(w, s)
    && (forall sig :: sig in sigs && sig !in s.late ==> HistoryOk(w, s, sig))
  }

  /** A step that touches neither table, clock, logs nor the envelope in hand keeps every history. */
  lemma HistoryStays(w: World, s: State, s': State, sig: string)
    requires HistoryOk(w, s, sig) && s'.brainLog == s.brainLog && s'.written == s.written && s'.clock >= s.clock
    requires s'.phase.Running? ==> s'.phase == s.phase
    requires s'.rows == s.rows
    ensures HistoryOk(w, s', sig)
  {}

  lemma QuietStep(w: World, sigs: set<string>, s: State, s': State)
    requires Inv(w, sigs, s) && Within(sigs, s') && PhaseOk(w, s')
    requires s'.brainLog == s.brainLog && s'.written == s.written && s'.clock >= s.clock && s'.rows == s.rows && s'.late == s.late
    requires s'.phase.Running? ==> s'.phase == s.phase
    ensures Inv(w, sigs, s')
  {
    hide HistoryOk, PhaseOk, RowsOk, Within;
    forall sig | sig in sigs && sig !in s'.late ensures HistoryOk(w, s', sig) { HistoryStays(w, s, s', sig); }
  }

  // ----- claiming -----------------------------------------------------------------------------------

  lemma ClaimRowsOk(w: World, sigs: set<string>, rows: Rows, sig: string, now: int)
    requires CollisionFree(w.hash, sigs) && sig in sigs && RowsOk(w, sigs, rows)
    ensures RowsOk(w, sigs, Claim(rows, w.hash(sig), w.signed(sig).expiresAt, now).0)
  {
    var rows' := Claim(rows, w.hash(sig), w.signed(sig).expiresAt, now).0;
    forall t | t in sigs && w.hash(t) in rows' ensures rows'[w.hash(t)].expiresAt == w.signed(t).expiresAt {
      if t != sig { assert w.hash(t) in rows; }
    }
  }

  /** Claiming touches no other signature's row before its expiry. */
  lemma ClaimOthers(w: World, sigs: set<string>, rows: Rows, sig: string, other: string, now: int)
    requires CollisionFree(w.hash, sigs) && sig in sigs && other in sigs && RowsOk(w, sigs, rows) && other != sig
    ensures var rows' := Claim(rows, w.hash(sig), w.signed(sig).expiresAt, now).0;
            && (w.hash(other) in rows' ==> w.hash(other) in rows && rows'[w.hash(other)] == rows[w.hash(other)])
            && (w.hash(other) in rows && w.hash(other) !in rows' ==> now >= w.signed(other).expiresAt)
  {
    assert w.hash(other) != w.hash(sig);
  }

  /** Before expiry, a claim finds the row if there is one and leaves its reply alone. */
  lemma ClaimOwn(w: World, sigs: set<string>, rows: Rows, sig: string, now: int)
    requires sig in sigs && RowsOk(w, sigs, rows) && now < w.signed(sig).expiresAt
    ensures var key := w.hash(sig);
            var (rows', r) := Claim(rows, key, w.signed(sig).expiresAt, now);
            && (r.New? <==> key !in rows && key in rows')
            && (key in rows ==> key in rows' && rows'[key] == rows[key])
            && (r.New? ==> rows'[key].state == Processing)
            && (key !in rows && !r.New? ==> key !in rows')
  {}

  lemma ClaimPhase(w: World, s: State)
    requires s.phase.Verified? && PhaseOk(w, s)
    ensures PhaseOk(w, DoClaim(w, s))
  {}

  lemma ClaimHistoryOwn(w: World, sigs: set<string>, s: State)
    requires RowsOk(w, sigs, s.rows) && PhaseOk(w, s) && s.phase.Verified? && s.clock < s.phase.env.expiresAt
    requires s.phase.env.signature in sigs && HistoryOk(w, s, s.phase.env.signature)
    ensures HistoryOk(w, DoClaim(w, s), s.phase.env.signature)
  {
    hide Claim, RowsOk;
    assert s.phase.env == w.signed(s.phase.env.signature);
    ClaimOwn(w, sigs, s.rows, s.phase.env.signature, s.clock);
  }

  lemma ClaimHistoryOther(w: World, sigs: set<string>, s: State, sig: string)
    requires CollisionFree(w.hash, sigs) && RowsOk(w, sigs, s.rows) && PhaseOk(w, s) && s.phase.Verified? && HistoryOk(w, s, sig)
    requires sig in sigs && s.phase.env.signature in sigs && sig != s.phase.env.signature
    ensures HistoryOk(w, DoClaim(w, s), sig)
  {
    hide Claim, CollisionFree, RowsOk;
    assert s.phase.env == w.signed(s.phase.env.signature);
    ClaimOthers(w, sigs, s.rows, s.phase.env.signature, sig, s.clock);
  }

  lemma ClaimHistory(w: World, sigs: set<string>, s: State, sig: string)
    requires CollisionFree(w.hash, sigs) && Inv(w, sigs, s) && s.phase.Verified? && sig in sigs && sig !in DoClaim(w, s).late
    ensures HistoryOk(w, DoClaim(w, s), sig)
  {
    hide HistoryOk, Claim, CollisionFree, RowsOk, PhaseOk;
    if sig == s.phase.env.signature {
      ClaimHistoryOwn(w, sigs, s);
    } else {
      ClaimHistoryOther(w, sigs, s, sig);
    }
  }

  lemma ClaimKeepsInv(w: World, sigs: set<string>, s: State)
    requires CollisionFree(w.hash, sigs) && Inv(w, sigs, s) && Within(sigs, DoClaim(w, s))
    ensures Inv(w, sigs, DoClaim(w, s))
  {
    hide HistoryOk, Claim;
    if s.phase.Verified? {
      ClaimRowsOk(w, sigs, s.rows, s.phase.env.signature, s.clock);
      ClaimPhase(w, s);
      forall sig | sig in sigs && sig !in DoClaim(w, s).late ensures HistoryOk(w, DoClaim(w, s), sig) { ClaimHistory(w, sigs, s, sig); }
    }
  }

  // ----- running, completing, writing -----------------------------------------------------------------

  lemma BrainKeepsInv(w: World, sigs: set<string>, s: State, answer: Reply)
    requires Inv(w, sigs, s) && Within(sigs, Next(w, s, Brain(answer)))
    ensures Inv(w, sigs, Next(w, s, Brain(answer)))
  {
    hide Within;
    var s' := Next(w, s, Brain(answer));
    forall sig | sig in sigs && sig !in s'.late ensures HistoryOk(w, s', sig) {
      assert HistoryOk(w, s, sig);
    }
  }

  lemma CompleteOthers(w: World, sigs: set<string>, rows: Rows, sig: string, other: string, reply: Reply, now: int)
    requires CollisionFree(w.hash, sigs) && sig in sigs && other in sigs && RowsOk(w, sigs, rows) && other != sig
    ensures var rows' := Complete(rows, w.hash(sig), w.signed(sig).expiresAt, reply, w.size(reply), now).0;
            && (w.hash(other) in rows' ==> w.hash(other) in rows && rows'[w.hash(other)] == rows[w.hash(other)])
            && (w.hash(other) in rows && w.hash(other) !in rows' ==> now >= w.signed(other).expiresAt)
  {
    assert w.hash(other) != w.hash(sig);
  }

  lemma CompleteRowsOk(w: World, sigs: set<string>, rows: Rows, sig: string, reply: Reply, now: int)
    requires CollisionFree(w.hash, sigs) && sig in sigs && RowsOk(w, sigs, rows)
    ensures RowsOk(w, sigs, Complete(rows, w.hash(sig), w.signed(sig).expiresAt, reply, w.size(reply), now).0)
  {
    var rows' := Complete(rows, w.hash(sig), w.signed(sig).expiresAt, reply, w.size(reply), now).0;
    forall t | t in sigs && w.hash(t) in rows' ensures rows'[w.hash(t)].expiresAt == w.signed(t).expiresAt {
      if t != sig { assert w.hash(t) in rows; }
    }
  }

  lemma CompleteOwn(rows: Rows, key: Hash, expiresAt: int, reply: Reply, size: nat, now: int)
    requires key in rows
    ensures var (rows', r) := Complete(rows, key, expiresAt, reply, size, now);
            if size > MAX_RELAY_ENVELOPE_BYTES then r == TooLarge && rows' == rows
            else r == Persisted && key in rows' && rows'[key].state == Stored(reply)
  {}

  lemma CompleteHistory(w: World, sigs: set<string>, s: State, sig: string)
    requires CollisionFree(w.hash, sigs) && Inv(w, sigs, s) && s.phase.Ready? && sig in sigs && sig !in s.late
    ensures HistoryOk(w, DoComplete(w, s), sig)
  {
    hide Complete, CollisionFree, RowsOk;
    var mine := s.phase.env.signature;
    assert HistoryOk(w, s, sig);
    assert s.phase.env == w.signed(mine);
    CompleteOwn(s.rows, w.hash(mine), s.phase.env.expiresAt, s.phase.reply, w.size(s.phase.reply), s.clock);
    if sig != mine {
      CompleteOthers(w, sigs, s.rows, mine, sig, s.phase.reply, s.clock);
    }
  }

  lemma CompleteKeepsInv(w: World, sigs: set<string>, s: State)
    requires CollisionFree(w.hash, sigs) && Inv(w, sigs, s) && Within(sigs, DoComplete(w, s))
    ensures Inv(w, sigs, DoComplete(w, s))
  {
    hide HistoryOk, Complete;
    if s.phase.Ready? {
      CompleteRowsOk(w, sigs, s.rows, s.phase.env.signature, s.phase.reply, s.clock);
      CompleteOwn(s.rows, w.hash(s.phase.env.signature), s.phase.env.expiresAt, s.phase.reply, w.size(s.phase.reply), s.clock);
      forall sig | sig in sigs && sig !in s.late ensures HistoryOk(w, DoComplete(w, s), sig) { CompleteHistory(w, sigs, s, sig); }
    }
  }

  lemma WriteKeepsInv(w: World, sigs: set<string>, s: State)
    requires Inv(w, sigs, s) && Within(sigs, Next(w, s, WriteReply))
    ensures Inv(w, sigs, Next(w, s, WriteReply))
  {
    hide Within;
    var s' := Next(w, s, WriteReply);
    if s.phase.Recorded? {
      assert s'.written[|s.written|] == (s.phase.env.signature, s.phase.reply);
      forall sig | sig in sigs && sig !in s'.late ensures HistoryOk(w, s', sig) { WriteHistory(w, s, sig); }
    }
  }

  lemma WriteHistory(w: World, s: State, sig: string)
    requires PhaseOk(w, s) && HistoryOk(w, s, sig) && s.phase.Recorded?
    ensures HistoryOk(w, Next(w, s, WriteReply), sig)
  {}

  /** Every step of the worker, the clock and the outside world keeps the invariant. */
  lemma NextKeepsInv(w: World, sigs: set<string>, s: State, step: Step)
    requires CollisionFree(w.hash, sigs) && Inv(w, sigs, s) && StepIn(sigs, step)
    ensures Inv(w, sigs, Next(w, s, step))
  {
    hide HistoryOk, DoClaim, DoComplete, CollisionFree, List, Inv, Within;
    InvParts(w, sigs, s);
    NextWithin(w, sigs, s, step);
    match step
    case ClaimRow => ClaimKeepsInv(w, sigs, s);
    case CompleteRow => CompleteKeepsInv(w, sigs, s);
    case Brain(answer) => BrainKeepsInv(w, sigs, s, answer);
    case WriteReply => WriteKeepsInv(w, sigs, s);
    case _ => QuietStep(w, sigs, s, Next(w, s, step));
  }

  lemma InvParts(w: World, sigs: set<string>, s: State)
    requires Inv(w, sigs, s)
    ensures PhaseOk(w, s) && Within(sigs, s)
  {}

  lemma StartInv(w: World, sigs: set<string>, clock: int, inbox: map<string, Envelope>)
    requires forall p :: p in inbox ==> inbox[p].signature in sigs
    ensures Inv(w, sigs, Start(clock, inbox))
  {}

  lemma {:induction false} RunInv(w: World, sigs: set<string>, clock: int, inbox: map<string, Envelope>, steps: seq<Step>)
    requires CollisionFree(w.hash, sigs)
    requires (forall p :: p in inbox ==> inbox[p].signature in sigs) && (forall i :: 0 <= i < |steps| ==> StepIn(sigs, steps[i]))
    ensures Inv(w, sigs, Run(w, Start(clock, inbox), steps))
  {
    hide Inv, Next, CollisionFree;
    if steps == [] {
      StartInv(w, sigs, clock, inbox);
    } else {
      RunInv(w, sigs, clock, inbox, steps[..|steps| - 1]);
      NextKeepsInv(w, sigs, Run(w, Start(clock, inbox), steps[..|steps| - 1]), steps[|steps| - 1]);
    }
  }

  /** The signatures that occur in a run serve as the set. */
  lemma OccurringInv(w: World, clock: int, inbox: map<string, Envelope>, steps: seq<Step>)
    requires CollisionFree(w.hash, Occurring(inbox, steps))
    ensures Inv(w, Occurring(inbox, steps), Run(w, Start(clock, inbox), steps))
  {
    hide Inv, Next, Run, CollisionFree;
    RunInv(w, Occurring(inbox, steps), clock, inbox, steps);
  }

  // ----- what follows -----------------------------------------------------------------------------------------

  ghost predicate OneRunOneReply(s: State, sig: string) {
    && Times(s.brainLog, sig) <= 1
    && (forall i, j :: 0 <= i < |s.written| && 0 <= j < |s.written| && s.written[i].0 == sig && s.written[j].0 == sig
                       ==> s.written[i].1 == s.written[j].1)
  }

  /**
   * In every run whose occurring signatures do not collide, with crashes anywhere, the brain runs at most
   * once for each signature that was never claimed past its expiry, and every reply written for it is
   * the same reply.
   */
  lemma AtMostOnce(w: World, clock: int, inbox: map<string, Envelope>, steps: seq<Step>, sig: string)
    requires CollisionFree(w.hash, Occurring(inbox, steps))
    ensures var s := Run(w, Start(clock, inbox), steps); sig !in s.late ==> OneRunOneReply(s, sig)
  {
    hide Run, CollisionFree, Occurring;
    OccurringInv(w, clock, inbox, steps);
    var s := Run(w, Start(clock, inbox), steps);
    if sig !in Occurring(inbox, steps) {
      assert sig !in s.brainLog && forall i :: 0 <= i < |s.written| ==> s.written[i].0 != sig;
    }
  }

  /** The clock reading of the check still holds when the row is claimed. */
  ghost predicate OneReading(w: World, s: State, steps: seq<Step>) {
    forall i :: 0 <= i < |steps| && steps[i].Tick? ==> !Run(w, s, steps[..i]).phase.Verified?
  }

  ghost predicate Timely(s: State) { s.late == {} && (s.phase.Verified? ==> s.clock < s.phase.env.expiresAt) }

  lemma NextTimely(w: World, s: State, step: Step)
    requires Timely(s) && (step.Tick? ==> !s.phase.Verified?)
    ensures Timely(Next(w, s, step))
  {
    hide Claim, Complete, List;
  }

  lemma {:induction false} NeverLate(w: World, clock: int, inbox: map<string, Envelope>, steps: seq<Step>)
    requires OneReading(w, Start(clock, inbox), steps)
    ensures Timely(Run(w, Start(clock, inbox), steps))
  {
    hide Next;
    if steps != [] {
      var front := steps[..|steps| - 1];
      forall i | 0 <= i < |front| && front[i].Tick? ensures !Run(w, Start(clock, inbox), front[..i]).phase.Verified? {
        assert front[..i] == steps[..i] && steps[i].Tick?;
      }
      NeverLate(w, clock, inbox, front);
      assert steps[|steps| - 1].Tick? ==> !Run(w, Start(clock, inbox), front).phase.Verified?;
      NextTimely(w, Run(w, Start(clock, inbox), front), steps[|steps| - 1]);
    }
  }

  /** With one clock reading per task: at most one run per signature, and one reply. */
  lemma AtMostOncePerSignature(w: World, clock: int, inbox: map<string, Envelope>, steps: seq<Step>, sig: string)
    requires CollisionFree(w.hash, Occurring(inbox, steps)) && OneReading(w, Start(clock, inbox), steps)
    ensures OneRunOneReply(Run(w, Start(clock, inbox), steps), sig)
  {
    hide Run, CollisionFree, OneReading, OneRunOneReply;
    NeverLate(w, clock, inbox, steps);
    AtMostOnce(w, clock, inbox, steps, sig);
  }

  // ----- why the one reading matters ------------------------------------------------------------------------

  lemma RunSnoc(w: World, s: State, steps: seq<Step>, step: Step)
    ensures Run(w, s, steps + [step]) == Next(w, Run(w, s, steps), step)
  {
    assert (steps + [step])[..|steps|] == steps;
  }

  function RunTwice(path: string, env: Envelope, answer: Reply): seq<Step> {
    [Poll([path]), Check(true), ClaimRow, Brain(answer), Crash, Poll([path]), Check(true), Tick(env.expiresAt), ClaimRow, Brain(answer)]
  }

  /** One task from check to brain, the clock reaching `to` in between. */
  lemma Attempt(w: World, s: State, path: string, env: Envelope, answer: Reply, to: int)
    requires s.phase.Idle? && s.listing == [] && s.inbox == map[path := env] && Admissible(w, env, s.clock) && s.clock <= to
    requires Unexpired(s.rows, to) == map[]
    ensures var s1 := Next(w, Next(w, s, Poll([path])), Check(true));
            var s2 := Next(w, Next(w, Next(w, s1, Tick(to)), ClaimRow), Brain(answer));
            && s1.phase == Verified(path, env) && s1.clock == s.clock
            && s2.brainLog == s.brainLog + [env.signature] && s2.inbox == s.inbox && s2.clock == to
            && s2.rows == map[w.hash(env.signature) := Row(env.expiresAt, Processing)]
  {
    assert List(s.inbox, [path]) == [(path, env)];
  }

  lemma TickNow(w: World, s: State)
    ensures Next(w, s, Tick(s.clock)) == s
  {}

  /**
   * For every task there is a run in which the brain runs twice: a crash before completion, then a
   * check in the last second of the signature's life and a claim in the next.
   */
  lemma LateClaimRunsTwice(w: World, path: string, env: Envelope, answer: Reply)
    requires Genuine(w, env) && env.issuedAt < env.expiresAt <= env.issuedAt + MAX_DELEGATION_TTL_SECONDS
    ensures Times(Run(w, Start(env.expiresAt - 1, map[path := env]), RunTwice(path, env, answer)).brainLog, env.signature) == 2
  {
    hide Next, Claim, Complete, Unexpired;
    var s0, p := Start(env.expiresAt - 1, map[path := env]), RunTwice(path, env, answer);
    var s4 := FirstHalf(w, path, env, answer);
    var s5 := Next(w, s4, Crash);
    Restarted(w, s4);
    ExpiredRow(w.hash(env.signature), env.expiresAt);
    Attempt(w, s5, path, env, answer, env.expiresAt);
    RunSnoc(w, s0, p[..4], p[4]);
    RunSnoc(w, s0, p[..5], p[5]);
    RunSnoc(w, s0, p[..6], p[6]);
    RunSnoc(w, s0, p[..7], p[7]);
    RunSnoc(w, s0, p[..8], p[8]);
    RunSnoc(w, s0, p[..9], p[9]);
    assert p[..4] + [p[4]] == p[..5] && p[..5] + [p[5]] == p[..6] && p[..6] + [p[6]] == p[..7];
    assert p[..7] + [p[7]] == p[..8] && p[..8] + [p[8]] == p[..9] && p[..9] + [p[9]] == p;
  }

  lemma FirstHalf(w: World, path: string, env: Envelope, answer: Reply) returns (s4: State)
    requires Genuine(w, env) && env.issuedAt < env.expiresAt <= env.issuedAt + MAX_DELEGATION_TTL_SECONDS
    ensures s4 == Run(w, Start(env.expiresAt - 1, map[path := env]), RunTwice(path, env, answer)[..4])
    ensures s4.brainLog == [env.signature] && s4.inbox == map[path := env] && s4.clock == env.expiresAt - 1
    ensures s4.rows == map[w.hash(env.signature) := Row(env.expiresAt, Processing)]
  {
    hide Next, Claim, Complete;
    var s0, p := Start(env.expiresAt - 1, map[path := env]), RunTwice(path, env, answer);
    Attempt(w, s0, path, env, answer, s0.clock);
    var s2 := Next(w, Next(w, s0, p[0]), p[1]);
    TickNow(w, s2);
    s4 := Next(w, Next(w, s2, p[2]), p[3]);
    RunSnoc(w, s0, [], p[0]);
    RunSnoc(w, s0, p[..1], p[1]);
    RunSnoc(w, s0, p[..2], p[2]);
    RunSnoc(w, s0, p[..3], p[3]);
    assert [] + [p[0]] == p[..1] && p[..1] + [p[1]] == p[..2] && p[..2] + [p[2]] == p[..3] && p[..3] + [p[3]] == p[..4];
  }

  lemma Restarted(w: World, s: State)
    ensures Next(w, s, Crash) == s.(phase := Idle, listing := [])
  {}

  lemma ExpiredRow(key: Hash, expiresAt: int)
    ensures Unexpired(map[key := Row(expiresAt, Processing)], expiresAt) == map[]
  {}

  // ----- an undisturbed task -------------------------------------------------------------------------------------

  function Undisturbed(answer: Reply): seq<Step> {
    [Check(true), ClaimRow, Brain(answer), CompleteRow, WriteReply, Unlink]
  }

  /** A listed task with a fresh signature, room in the table and a reply within the limit. */
  predicate Servable(w: World, s: State, env: Envelope, answer: Reply) {
    && Admissible(w, env, s.clock) && w.hash(env.signature) !in Unexpired(s.rows, s.clock)
    && |Unexpired(s.rows, s.clock)| < MAX_RELAY_OUTCOMES && w.size(answer) <= MAX_RELAY_ENVELOPE_BYTES
  }

  /** Six steps answer such a task: one brain run, its reply recorded and written, its file gone. */
  lemma TaskAnswered(w: World, s: State, path: string, env: Envelope, rest: seq<(string, Envelope)>, answer: Reply)
    requires s.phase.Idle? && s.listing == [(path, env)] + rest && Servable(w, s, env, answer)
    ensures Run(w, s, Undisturbed(answer))
            == s.(inbox := s.inbox - {path}, listing := rest, phase := Idle,
                  rows := Unexpired(s.rows, s.clock)[w.hash(env.signature) := Row(env.expiresAt, Stored(answer))],
                  outbox := s.outbox[(env.sender, env.taskId) := answer],
                  brainLog := s.brainLog + [env.signature], written := s.written + [(env.signature, answer)])
  {
    hide Next, Claim, Complete, Unexpired, Run;
    var p := Undisturbed(answer);
    var live, key := Unexpired(s.rows, s.clock), w.hash(env.signature);
    var rows1 := live[key := Row(env.expiresAt, Processing)];
    var s1 := s.(listing := rest, phase := Verified(path, env));
    var s2 := s1.(rows := rows1, phase := Running(path, env));
    var s3 := s2.(phase := Ready(path, env, answer), brainLog := s.brainLog + [env.signature]);
    var s4 := s3.(rows := live[key := Row(env.expiresAt, Stored(answer))], phase := Recorded(path, env, answer));
    AnswerStart(w, s, path, env, rest, answer);
    AnswerRecord(w, s3, s.rows);
    assert Next(w, s3, CompleteRow) == s4;
    AnswerEnd(w, s4);
    RunEmpty(w, s);
    RunSnoc(w, s, [], p[0]);
    RunSnoc(w, s, p[..1], p[1]);
    RunSnoc(w, s, p[..2], p[2]);
    RunSnoc(w, s, p[..3], p[3]);
    RunSnoc(w, s, p[..4], p[4]);
    RunSnoc(w, s, p[..5], p[5]);
    assert [] + [p[0]] == p[..1] && p[..1] + [p[1]] == p[..2] && p[..2] + [p[2]] == p[..3];
    assert p[..3] + [p[3]] == p[..4] && p[..4] + [p[4]] == p[..5] && p[..5] + [p[5]] == p;
  }

  lemma RunEmpty(w: World, s: State)
    ensures Run(w, s, []) == s
  {}

  lemma AnswerStart(w: World, s: State, path: string, env: Envelope, rest: seq<(string, Envelope)>, answer: Reply)
    requires s.phase.Idle? && s.listing == [(path, env)] + rest && Servable(w, s, env, answer)
    ensures var s1 := s.(listing := rest, phase := Verified(path, env));
            var s2 := s1.(rows := Unexpired(s.rows, s.clock)[w.hash(env.signature) := Row(env.expiresAt, Processing)], phase := Running(path, env));
            && Next(w, s, Check(true)) == s1 && Next(w, s1, ClaimRow) == s2
            && Next(w, s2, Brain(answer)) == s2.(phase := Ready(path, env, answer), brainLog := s.brainLog + [env.signature])
  {
    hide Unexpired;
    assert s.listing[1..] == rest;
  }

  lemma AnswerRecord(w: World, s: State, before: Rows)
    requires s.phase.Ready? && s.clock < s.phase.env.expiresAt && w.size(s.phase.reply) <= MAX_RELAY_ENVELOPE_BYTES
    requires s.rows == Unexpired(before, s.clock)[w.hash(s.phase.env.signature) := Row(s.phase.env.expiresAt, Processing)]
    ensures Next(w, s, CompleteRow)
            == s.(rows := Unexpired(before, s.clock)[w.hash(s.phase.env.signature) := Row(s.phase.env.expiresAt, Stored(s.phase.reply))],
                  phase := Recorded(s.phase.path, s.phase.env, s.phase.reply))
  {
    var key := w.hash(s.phase.env.signature);
    var row := Row(s.phase.env.expiresAt, Stored(s.phase.reply));
    assert UnexpiredOr(s.rows, s.clock, key)[key := row] == Unexpired(before, s.clock)[key := row];
  }

  lemma AnswerEnd(w: World, s: State)
    requires s.phase.Recorded?
    ensures Next(w, Next(w, s, WriteReply), Unlink)
            == s.(inbox := s.inbox - {s.phase.path}, phase := Idle,
                  outbox := s.outbox[(s.phase.env.sender, s.phase.env.taskId) := s.phase.reply],
                  written := s.written + [(s.phase.env.signature, s.phase.reply)])
  {}

  // ----- an instance: two tasks, two hashes -------------------------------------------------------------------------

  function TwoHashes(sig: string): Hash { if sig == "a" then ZeroBytes(32) else [1] + ZeroBytes(31) }

  function SampleWorld(): World { World(TwoHashes, sig => Envelope("peer", sig, "text", sig, 0, 10), reply => 0) }

  function TwoTasks(): map<string, Envelope> {
    map["a.json" := Envelope("peer", "a", "text", "a", 0, 10), "b.json" := Envelope("peer", "b", "text", "b", 0, 10)]
  }

  /**
   * The hypotheses of the theorems can be met: two tasks with different signatures whose hashes differ,
   * both served in one undisturbed poll.
   */
  lemma TwoTasksServed(x: Reply, y: Reply)
    ensures var steps := ServeBoth(x, y);
            var s := Run(SampleWorld(), Start(0, TwoTasks()), steps);
            && CollisionFree(SampleWorld().hash, Occurring(TwoTasks(), steps)) && OneReading(SampleWorld(), Start(0, TwoTasks()), steps)
            && s.brainLog == ["a", "b"] && s.written == [("a", x), ("b", y)] && s.inbox == map[] && s.late == {}
  {
    hide Next, Run, OneReading, Occurring, CollisionFree;
    BothServed(x, y);
    TwoTasksHypotheses(x, y);
  }

  function ServeBoth(x: Reply, y: Reply): seq<Step> { [Poll(["a.json", "b.json"])] + Undisturbed(x) + Undisturbed(y) }

  lemma TwoTasksHypotheses(x: Reply, y: Reply)
    ensures CollisionFree(SampleWorld().hash, Occurring(TwoTasks(), ServeBoth(x, y)))
    ensures OneReading(SampleWorld(), Start(0, TwoTasks()), ServeBoth(x, y))
  {
    hide Run, TwoHashes;
    var steps := ServeBoth(x, y);
    DifferentHashes();
    assert forall i :: 0 <= i < |steps| ==> !steps[i].Tick? && !steps[i].Arrive?;
    forall sig | sig in Occurring(TwoTasks(), steps) ensures sig == "a" || sig == "b" {}
  }

  lemma BothServed(x: Reply, y: Reply)
    ensures var s := Run(SampleWorld(), Start(0, TwoTasks()), ServeBoth(x, y));
            s.brainLog == ["a", "b"] && s.written == [("a", x), ("b", y)] && s.inbox == map[] && s.late == {}
  {
    hide Next, Run, TwoHashes;
    DifferentHashes();
    PairServed(SampleWorld(), 0, "a.json", TwoTasks()["a.json"], "b.json", TwoTasks()["b.json"], x, y);
  }

  /** Two admissible tasks whose signatures have different hashes are both served in one poll. */
  lemma PairServed(w: World, clock: int, pa: string, ea: Envelope, pb: string, eb: Envelope, x: Reply, y: Reply)
    requires pa != pb && Admissible(w, ea, clock) && Admissible(w, eb, clock) && w.hash(ea.signature) != w.hash(eb.signature)
    requires w.size(x) <= MAX_RELAY_ENVELOPE_BYTES && w.size(y) <= MAX_RELAY_ENVELOPE_BYTES
    ensures var s := Run(w, Start(clock, map[pa := ea, pb := eb]), [Poll([pa, pb])] + Undisturbed(x) + Undisturbed(y));
            && s.brainLog == [ea.signature, eb.signature] && s.written == [(ea.signature, x), (eb.signature, y)]
            && s.inbox == map[] && s.late == {}
  {
    hide Next, Run, Unexpired, List;
    var inbox, poll := map[pa := ea, pb := eb], Poll([pa, pb]);
    var s0 := Start(clock, inbox);
    var s1 := s0.(listing := [(pa, ea), (pb, eb)]);
    PollBoth(w, s0, pa, pb);
    RunEmpty(w, s0);
    RunSnoc(w, s0, [], poll);
    assert [] + [poll] == [poll];
    RowsAfterFirst(w.hash(ea.signature), ea.expiresAt, x, clock);
    assert s1.listing == [(pa, ea)] + [(pb, eb)];
    TaskAnswered(w, s1, pa, ea, [(pb, eb)], x);
    var s2 := Run(w, s1, Undisturbed(x));
    assert s2.listing == [(pb, eb)] + [];
    TaskAnswered(w, s2, pb, eb, [], y);
    assert inbox - {pa} - {pb} == map[];
    RunAppend(w, s0, [poll], Undisturbed(x));
    RunAppend(w, s0, [poll] + Undisturbed(x), Undisturbed(y));
  }

  lemma PollBoth(w: World, s: State, pa: string, pb: string)
    requires s.phase.Idle? && s.listing == [] && s.polled == |s.arrivals| && pa in s.inbox && pb in s.inbox
    ensures Next(w, s, Poll([pa, pb])) == s.(listing := [(pa, s.inbox[pa]), (pb, s.inbox[pb])])
  {
    var files := [pa, pb];
    assert files[1..] == [pb] && files[1..][1..] == [];
    assert List(s.inbox, [pb]) == [(pb, s.inbox[pb])];
  }

  lemma DifferentHashes()
    ensures TwoHashes("a") != TwoHashes("b") && CollisionFree(TwoHashes, {"a", "b"})
  {
    assert TwoHashes("a")[0] == 0 && TwoHashes("b")[0] == 1;
  }

  lemma RowsAfterFirst(key: Hash, expiresAt: int, x: Reply, clock: int)
    requires clock < expiresAt
    ensures Unexpired(map[], clock) == map[]
    ensures Unexpired(map[key := Row(expiresAt, Stored(x))], clock) == map[key := Row(expiresAt, Stored(x))]
  {}

  lemma {:induction false} RunAppend(w: World, s: State, a: seq<Step>, b: seq<Step>)
    ensures Run(w, s, a + b) == Run(w, Run(w, s, a), b)
  {
    hide Next, Run;
    if b == [] {
      assert a + b == a;
      RunEmpty(w, Run(w, s, a));
    } else {
      var front, last := b[..|b| - 1], b[|b| - 1];
      RunAppend(w, s, a, front);
      RunSnoc(w, s, a + front, last);
      RunSnoc(w, Run(w, s, a), front, last);
      assert a + b == a + front + [last] && b == front + [last];
    }
  }
}
