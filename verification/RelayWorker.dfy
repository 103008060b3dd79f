/** `process_inbox` as the source writes it, shown to take exactly the steps of the state machine. */
module RelayWorker {
  import opened Bytes
  import opened RelayOutcomes
  import opened Relay

  /**
   * What the worker calls out to: trust policy, the brain, the signer of replies, and whether the
   * database answers at the k-th reading of the clock.
   */
  datatype Services = Services(trusted: string -> bool, brain: string -> string, build: (string, string, string) -> Reply, databaseOk: nat -> bool)

  datatype TaskResult = Done | Quarantined | Raised

  const INTERRUPTED := "relay execution was interrupted before a durable answer; it was not automatically retried to avoid duplicate side effects"

  class GitRelay {
    const w: World
    const outcomes: RelayOutcomeStore
    var inbox: map<string, Envelope>
    var outbox: map<(string, string), Reply>
    ghost var brainLog: seq<string>
    ghost var written: seq<(string, Reply)>
    ghost var late: set<string>
    ghost var arrivals: seq<(string, Envelope)>
    ghost var polled: nat

    constructor (w: World, inbox: map<string, Envelope>)
      ensures fresh(outcomes) && this.w == w && outcomes.hash == w.hash
      ensures forall clock :: View(clock, [], Idle) == Start(clock, inbox)
    {
      this.w, this.inbox, outbox := w, inbox, map[];
      outcomes := new RelayOutcomeStore(w.hash);
      brainLog, written, late, arrivals, polled := [], [], {}, [], 0;
    }

    ghost function View(clock: int, listing: seq<(string, Envelope)>, phase: Phase): State
      reads this, outcomes
    {
      State(clock, inbox, outbox, outcomes.rows, listing, phase, brainLog, written, late, arrivals, polled)
    }

    /** The verification branch: a task that fails it is moved out of the inbox. */
    method CheckTask(path: string, env: Envelope, trusted: string -> bool, now: int, ghost rest: seq<(string, Envelope)>) returns (ok: bool)
      requires outcomes.hash == w.hash
      modifies this
      ensures written == old(written)
      ensures var before := old(View(now, [(path, env)] + rest, Idle));
              exists b :: View(now, rest, if ok then Verified(path, env) else Idle) == Next(w, before, Check(b)) && (ok ==> b)
    {
      ok := trusted(env.sender) && Admissible(w, env, now);
      if !ok {
        inbox := inbox - {path};
      }
      assert ([(path, env)] + rest)[1..] == rest;
      assert View(now, rest, if ok then Verified(path, env) else Idle) == Next(w, old(View(now, [(path, env)] + rest, Idle)), Check(ok));
    }

    /** The phase a claim leads to. */
    ghost function Claimed(path: string, env: Envelope, outcome: ClaimResult): Phase {
      match outcome
      case New => Running(path, env)
      case Interrupted => Abandoned(path, env)
      case Completed(reply) => Recorded(path, env, reply)
      case _ => Idle
    }

    /** What the state machine does: claim the row, or stop as after a crash when the database fails. */
    ghost function ClaimStep(outcome: ClaimResult): Step { if outcome.Unavailable? then Crash else ClaimRow }

    method ClaimOutcome(path: string, env: Envelope, now: int, databaseOk: bool, ghost rest: seq<(string, Envelope)>) returns (outcome: ClaimResult)
      requires outcomes.hash == w.hash
      modifies this, outcomes
      ensures inbox == old(inbox) && written == old(written)
      ensures View(now, if Claimed(path, env, outcome).Idle? then [] else rest, Claimed(path, env, outcome))
              == Next(w, old(View(now, rest, Verified(path, env))), ClaimStep(outcome))
    {
      hide Claim;
      ghost var before := outcomes.rows;
      outcome := outcomes.ClaimTask(env.signature, env.expiresAt, now, databaseOk);
      NeverUnavailable(before, outcomes.hash(env.signature), env.expiresAt, now);
      if databaseOk && now >= env.expiresAt {
        late := late + {env.signature};
      }
    }

    /** A fresh task runs the brain; an interrupted one only says so. */
    method Answer(path: string, env: Envelope, services: Services, outcome: ClaimResult, ghost now: int, ghost rest: seq<(string, Envelope)>)
      returns (reply: Reply)
      requires outcome.New? || outcome.Interrupted?
      modifies this
      ensures inbox == old(inbox) && written == old(written)
      ensures View(now, rest, Ready(path, env, reply))
              == Next(w, old(View(now, rest, Claimed(path, env, outcome))), if outcome.New? then Brain(reply) else Excuse(reply))
    {
      var answer := INTERRUPTED;
      if outcome.New? {
        answer := services.brain(env.text);
        brainLog := brainLog + [env.signature];
      }
      reply := services.build(env.taskId, env.sender, answer);
    }

    ghost function CompleteStep(r: CompleteResult): Step { if r.Unpersisted? then Crash else CompleteRow }

    method RecordReply(path: string, env: Envelope, reply: Reply, now: int, databaseOk: bool, ghost rest: seq<(string, Envelope)>) returns (r: CompleteResult)
      requires outcomes.hash == w.hash
      modifies outcomes
      ensures (if r.Persisted? then View(now, rest, Recorded(path, env, reply)) else View(now, [], Idle))
              == Next(w, old(View(now, rest, Ready(path, env, reply))), CompleteStep(r))
    {
      hide Complete;
      ghost var before := outcomes.rows;
      r := outcomes.CompleteTask(env.signature, env.expiresAt, reply, w.size(reply), now, databaseOk);
      CompleteRefused(before, outcomes.hash(env.signature), env.expiresAt, reply, w.size(reply), now);
    }

    /** From the claim to the recorded reply, at readings `k` and `k + 1` of the clock. */
    method ObtainReply(path: string, env: Envelope, services: Services, clock: nat -> int, k: nat, ghost rest: seq<(string, Envelope)>)
      returns (reply: Option<Reply>, ghost steps: seq<Step>, ghost now: int)
      requires outcomes.hash == w.hash && clock(k) <= clock(k + 1)
      modifies this, outcomes
      ensures inbox == old(inbox) && written == old(written) && clock(k) <= now <= clock(k + 1)
      ensures Run(w, old(View(clock(k), rest, Verified(path, env))), steps)
              == if reply.Some? then View(now, rest, Recorded(path, env, reply.value)) else View(now, [], Idle)
    {
      hide Next;
      ghost var s0 := View(clock(k), rest, Verified(path, env));
      reply, now := None, clock(k);
      var outcome := ClaimOutcome(path, env, clock(k), services.databaseOk(k), rest);
      steps := ExtendRun(w, s0, [], ClaimStep(outcome));
      match outcome
      case Completed(cached) =>
        reply := Some(cached);
        return;
      case Full => return;
      case CorruptReply => return;
      case Unavailable => return;
      case _ =>
        var built := Answer(path, env, services, outcome, clock(k), rest);
        steps := ExtendRun(w, s0, steps, if outcome.New? then Brain(built) else Excuse(built));
        TickIs(w, Run(w, s0, steps), clock(k + 1));
        steps := ExtendRun(w, s0, steps, Tick(clock(k + 1)));
        now := clock(k + 1);
        var r := RecordReply(path, env, built, clock(k + 1), services.databaseOk(k + 1), rest);
        steps := ExtendRun(w, s0, steps, CompleteStep(r));
        if r.Persisted? {
          reply := Some(built);
        }
    }

    /** One entry of the listing: check, claim, answer, record, write, unlink. */
    method ProcessTask(path: string, env: Envelope, services: Services, clock: nat -> int, k: nat, ghost now: int, ghost rest: seq<(string, Envelope)>)
      returns (r: TaskResult, k': nat, ghost steps: seq<Step>, ghost now': int)
      requires outcomes.hash == w.hash && (forall i: nat, j: nat :: i <= j ==> clock(i) <= clock(j)) && now <= clock(k)
      modifies this, outcomes
      ensures k <= k' && now' <= clock(k')
      ensures Run(w, old(View(now, [(path, env)] + rest, Idle)), steps) == View(now', if r.Raised? then [] else rest, Idle)
      ensures |written| == |old(written)| + if r.Done? then 1 else 0
    {
      hide Next, Run;
      ghost var s0 := View(now, [(path, env)] + rest, Idle);
      steps := ExtendRun(w, s0, [], Tick(clock(k)));
      TickIs(w, s0, clock(k));
      var ok := CheckTask(path, env, services.trusted, clock(k), rest);
      ghost var b :| View(clock(k), rest, if ok then Verified(path, env) else Idle) == Next(w, s0.(clock := clock(k)), Check(b)) && (ok ==> b);
      steps := ExtendRun(w, s0, steps, Check(b));
      now', k' := clock(k), k + 1;
      if !ok {
        return Quarantined, k', steps, now';
      }
      ghost var s2 := Run(w, s0, steps);
      steps := ExtendRun(w, s0, steps, Tick(clock(k + 1)));
      TickIs(w, s2, clock(k + 1));
      ghost var more;
      var reply;
      reply, more, now' := ObtainReply(path, env, services, clock, k + 1, rest);
      RunAppend(w, s0, steps, more);
      steps := steps + more;
      k' := k + 3;
      if reply.None? {
        return Raised, k', steps, now';
      }
      WriteIs(w, Run(w, s0, steps));
      outbox := outbox[(env.sender, env.taskId) := reply.value];
      written := written + [(env.signature, reply.value)];
      steps := ExtendRun(w, s0, steps, WriteReply);
      UnlinkIs(w, Run(w, s0, steps));
      inbox := inbox - {path};
      steps := ExtendRun(w, s0, steps, Unlink);
      return Done, k', steps, now';
    }

    /**
     * `process_inbox`: the files are listed once, then handled one by one; an exception leaves the
     * rest for the next poll. Whatever happened is a run of the state machine.
     */
    method ProcessInbox(files: seq<string>, services: Services, clock: nat -> int, ghost now: int)
      returns (done: nat, raised: bool, ghost steps: seq<Step>, ghost now': int)
      requires outcomes.hash == w.hash && (forall i: nat, j: nat :: i <= j ==> clock(i) <= clock(j)) && now <= clock(0)
      modifies this, outcomes
      ensures View(now', [], Idle) == Run(w, old(View(now, [], Idle)), steps)
      ensures |written| == |old(written)| + done
    {
      hide Next, Run, List;
      ghost var s0 := View(now, [], Idle);
      var listing := List(inbox, files);
      PollIs(w, s0, files);
      polled := |arrivals|;
      steps := ExtendRun(w, s0, [], Poll(files));
      done, raised, now' := 0, false, now;
      var i, k := 0, 0;
      assert listing[0..] == listing;
      while i < |listing|
        invariant 0 <= i <= |listing| && now' <= clock(k) && |written| == |old(written)| + done
        invariant View(now', listing[i..], Idle) == Run(w, s0, steps)
      {
        HeadAndRest(listing, i);
        ghost var more;
        var r;
        r, k, more, now' := ProcessTask(listing[i].0, listing[i].1, services, clock, k, now', listing[i + 1..]);
        RunAppend(w, s0, steps, more);
        steps := steps + more;
        if r.Raised? {
          return done, true, steps, now';
        }
        if r.Done? {
          done := done + 1;
        }
        i := i + 1;
      }
    }
  }

  lemma HeadAndRest(listing: seq<(string, Envelope)>, i: nat)
    requires i < |listing|
    ensures listing[i..] == [(listing[i].0, listing[i].1)] + listing[i + 1..]
  {}

  lemma ExtendRun(w: World, s: State, steps: seq<Step>, step: Step) returns (longer: seq<Step>)
    ensures longer == steps + [step] && Run(w, s, longer) == Next(w, Run(w, s, steps), step)
    ensures Run(w, s, []) == s
  {
    longer := steps + [step];
    RunSnoc(w, s, steps, step);
  }

  lemma TickIs(w: World, s: State, to: int)
    ensures s.clock <= to ==> Next(w, s, Tick(to)) == s.(clock := to)
  {}

  lemma CompleteRefused(rows: Rows, key: Hash, expiresAt: int, reply: Reply, size: nat, now: int)
    ensures !Complete(rows, key, expiresAt, reply, size, now).1.Persisted? ==> Complete(rows, key, expiresAt, reply, size, now).0 == rows
    ensures !Complete(rows, key, expiresAt, reply, size, now).1.Unpersisted?
  {}

  lemma NeverUnavailable(rows: Rows, key: Hash, expiresAt: int, now: int)
    ensures !Claim(rows, key, expiresAt, now).1.Unavailable?
  {}

  lemma WriteIs(w: World, s: State)
    ensures s.phase.Recorded? ==>
              Next(w, s, WriteReply) == s.(phase := Written(s.phase.path, s.phase.env, s.phase.reply),
                                           outbox := s.outbox[(s.phase.env.sender, s.phase.env.taskId) := s.phase.reply],
                                           written := s.written + [(s.phase.env.signature, s.phase.reply)])
  {}

  lemma UnlinkIs(w: World, s: State)
    ensures s.phase.Written? ==> Next(w, s, Unlink) == s.(inbox := s.inbox - {s.phase.path}, phase := Idle)
  {}

  lemma PollIs(w: World, s: State, files: seq<string>)
    ensures s.phase.Idle? && s.listing == [] ==> Next(w, s, Poll(files)) == s.(listing := List(s.inbox, files), polled := |s.arrivals|)
  {}
}
