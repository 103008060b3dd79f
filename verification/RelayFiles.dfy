/** Which file an unlink removes: the listed one, unless another arrived at its path meanwhile. */
module RelayFiles {
  import opened Bytes
  import opened Collections
  import opened RelayOutcomes
  import opened Relay

  /** What arrived last at a path. */
  function LastAt(log: seq<(string, Envelope)>, path: string): Option<Envelope> {
    if log == [] then None
    else if log[|log| - 1].0 == path then Some(log[|log| - 1].1)
    else LastAt(log[..|log| - 1], path)
  }

  lemma LastAtSnoc(log: seq<(string, Envelope)>, at: string, env: Envelope, path: string)
    ensures LastAt(log + [(at, env)], path) == if at == path then Some(env) else LastAt(log, path)
  {
    assert (log + [(at, env)])[..|log|] == log;
  }

  /** What arrived since the inbox was last listed. */
  function Since(s: State): seq<(string, Envelope)> { if s.polled <= |s.arrivals| then s.arrivals[s.polled..] else [] }

  /** A file that lies at the path of a listed envelope is the last one that arrived there, if any did, or the listed one. */
  predicate LiesAt(s: State, path: string, env: Envelope) { path in s.inbox ==> s.inbox[path] == LastAt(Since(s), path).GetOr(env) }

  ghost predicate FilesOk(s: State) {
    && s.polled <= |s.arrivals|
    && (forall i :: 0 <= i < |s.listing| ==> LiesAt(s, s.listing[i].0, s.listing[i].1))
    && (!s.phase.Idle? ==> LiesAt(s, s.phase.path, s.phase.env))
  }

  lemma {:induction false} ListIs(inbox: map<string, Envelope>, files: seq<string>)
    ensures forall i :: 0 <= i < |List(inbox, files)| ==> List(inbox, files)[i].0 in inbox && inbox[List(inbox, files)[i].0] == List(inbox, files)[i].1
  {
    if files != [] {
      ListIs(inbox, files[1..]);
    }
  }

  lemma ArriveKeepsFiles(w: World, s: State, at: string, env: Envelope)
    requires FilesOk(s)
    ensures FilesOk(Next(w, s, Arrive(at, env)))
  {
    hide LastAt;
    var s' := Next(w, s, Arrive(at, env));
    assert Since(s') == Since(s) + [(at, env)];
    forall path ensures LastAt(Since(s'), path) == if at == path then Some(env) else LastAt(Since(s), path) {
      LastAtSnoc(Since(s), at, env, path);
    }
  }

  lemma PollKeepsFiles(w: World, s: State, files: seq<string>)
    requires FilesOk(s)
    ensures FilesOk(Next(w, s, Poll(files)))
  {
    hide List;
    ListIs(s.inbox, files);
  }

  /** A step that removes files or none, and holds nothing new. */
  lemma FewerFiles(s: State, s': State)
    requires FilesOk(s) && s'.arrivals == s.arrivals && s'.polled == s.polled
    requires forall path :: path in s'.inbox ==> path in s.inbox && s'.inbox[path] == s.inbox[path]
    requires forall i :: 0 <= i < |s'.listing| ==> s'.listing[i] in s.listing
    requires !s'.phase.Idle? ==> (!s.phase.Idle? && s'.phase.path == s.phase.path && s'.phase.env == s.phase.env) || (s'.phase.path, s'.phase.env) in s.listing
    ensures FilesOk(s')
  {
    hide LastAt;
  }

  lemma CheckKeepsFiles(w: World, s: State, ok: bool)
    requires FilesOk(s)
    ensures FilesOk(Next(w, s, Check(ok)))
  {
    hide FilesOk, Admissible;
    var s' := Next(w, s, Check(ok));
    if s.phase.Idle? && s.listing != [] {
      assert s.listing[0] in s.listing && s'.phase.Verified? ==> (s'.phase.path, s'.phase.env) == s.listing[0];
    }
    FewerFiles(s, s');
  }

  lemma NextKeepsFiles(w: World, s: State, step: Step)
    requires FilesOk(s)
    ensures FilesOk(Next(w, s, step))
  {
    hide FilesOk, List, Claim, Complete, Admissible;
    match step
    case Arrive(at, env) => ArriveKeepsFiles(w, s, at, env);
    case Poll(files) => PollKeepsFiles(w, s, files);
    case Check(ok) => CheckKeepsFiles(w, s, ok);
    case _ => FewerFiles(s, Next(w, s, step));
  }

  lemma {:induction false} RunKeepsFiles(w: World, clock: int, inbox: map<string, Envelope>, steps: seq<Step>)
    ensures FilesOk(Run(w, Start(clock, inbox), steps))
  {
    hide Next;
    if steps != [] {
      RunKeepsFiles(w, clock, inbox, steps[..|steps| - 1]);
      NextKeepsFiles(w, Run(w, Start(clock, inbox), steps[..|steps| - 1]), steps[|steps| - 1]);
    }
  }

  // ----- removal --------------------------------------------------------------------------------------------

  /** The row of the envelope is completed with a reply that stands written for it. */
  ghost predicate Answered(w: World, s: State, env: Envelope) {
    && w.hash(env.signature) in s.rows && s.rows[w.hash(env.signature)].state.Stored?
    && var reply := s.rows[w.hash(env.signature)].state.reply;
       && (env.signature, reply) in s.written
       && (env.sender, env.taskId) in s.outbox && s.outbox[(env.sender, env.taskId)] == reply
  }

  /** Since the inbox was listed, another envelope has come to lie at this one's path. */
  predicate Replaced(s: State, path: string, env: Envelope) { LastAt(Since(s), path).GetOr(env) != env }

  /** A step that takes the file at a path away acts for this envelope: one that failed its check, or one that is answered. */
  ghost predicate ActsFor(w: World, s: State, step: Step, path: string, env: Envelope) {
    || (step.Check? && s.listing != [] && s.listing[0] == (path, env) && !(step.ok && Admissible(w, env, s.clock)))
    || (step == Unlink && s.phase.Written? && s.phase.path == path && s.phase.env == env && Genuine(w, env) && Answered(w, s, env))
  }

  /**
   * A file leaves the inbox only by a failed check or by an unlink after an answer, of the envelope listed
   * for its path; and the file that leaves is that envelope if and only if no other has replaced it since.
   */
  lemma RemovedIff(w: World, clock: int, inbox: map<string, Envelope>, steps: seq<Step>, step: Step, path: string) returns (env: Envelope)
    requires CollisionFree(w.hash, Occurring(inbox, steps))
    requires path in Run(w, Start(clock, inbox), steps).inbox
    requires path !in Next(w, Run(w, Start(clock, inbox), steps), step).inbox
    ensures var s := Run(w, Start(clock, inbox), steps);
            ActsFor(w, s, step, path, env) && (s.inbox[path] == env <==> !Replaced(s, path, env))
  {
    hide Run, CollisionFree, Claim, Complete, List, HistoryOk, Occurring, Within, RowsOk, LastAt;
    OccurringInv(w, clock, inbox, steps);
    RunKeepsFiles(w, clock, inbox, steps);
    var s := Run(w, Start(clock, inbox), steps);
    env := if step == Unlink then s.phase.env else s.listing[0].1;
  }

  /**
   * A task file nothing replaced is unlinked only after its outcome row was completed and its reply
   * written; any other way it goes, it failed its own check.
   */
  lemma FileRemovedOnlyWhenDone(w: World, clock: int, inbox: map<string, Envelope>, steps: seq<Step>, step: Step, path: string)
    requires CollisionFree(w.hash, Occurring(inbox, steps))
    requires path in Run(w, Start(clock, inbox), steps).inbox
    requires path !in Next(w, Run(w, Start(clock, inbox), steps), step).inbox
    requires LastAt(Since(Run(w, Start(clock, inbox), steps)), path).None?
    ensures var s := Run(w, Start(clock, inbox), steps);
            if step == Unlink then Answered(w, s, s.inbox[path])
            else step.Check? && !(step.ok && Admissible(w, s.inbox[path], s.clock))
  {
    hide Run, CollisionFree, LastAt, Next, Answered, Admissible;
    var env := RemovedIff(w, clock, inbox, steps, step, path);
  }

  /**
   * The condition is a real one: a genuine, admissible task that arrives over a listed one is unlinked
   * with it, and neither run nor answered.
   */
  lemma OverwrittenUnanswered(w: World, clock: int, path: string, env: Envelope, other: Envelope, answer: Reply)
    requires Servable(w, Start(clock, map[path := env]), env, answer)
    requires Admissible(w, other, clock) && other.signature != env.signature
    ensures var s := Run(w, Start(clock, map[path := env]), [Poll([path]), Arrive(path, other)] + Undisturbed(answer));
            path !in s.inbox && s.brainLog == [env.signature] && s.written == [(env.signature, answer)]
  {
    hide Run, Next;
    var s0 := Start(clock, map[path := env]);
    RunEmpty(w, s0);
    RunSnoc(w, s0, [], Poll([path]));
    RunSnoc(w, s0, [Poll([path])], Arrive(path, other));
    RunAppend(w, s0, [Poll([path]), Arrive(path, other)], Undisturbed(answer));
    assert [] + [Poll([path])] == [Poll([path])] && [Poll([path])] + [Arrive(path, other)] == [Poll([path]), Arrive(path, other)];
    ListedThenReplaced(w, s0, path, env, other);
    var s2 := Run(w, s0, [Poll([path]), Arrive(path, other)]);
    assert s2.listing == [(path, env)] + [];
    TaskAnswered(w, s2, path, env, [], answer);
  }

  lemma ListedThenReplaced(w: World, s: State, path: string, env: Envelope, other: Envelope)
    requires s.phase.Idle? && s.listing == [] && path in s.inbox && s.inbox[path] == env
    ensures var s' := Next(w, Next(w, s, Poll([path])), Arrive(path, other));
            s' == s.(inbox := s.inbox[path := other], listing := [(path, env)], polled := |s.arrivals|, arrivals := s.arrivals + [(path, other)])
  {
    assert [path][1..] == [];
    assert List(s.inbox, [path]) == [(path, env)];
  }
}
