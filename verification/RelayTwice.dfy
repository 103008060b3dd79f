/** How often the brain can run for one signature, and exactly when it runs a second time. */
module RelayTwice {
  import opened Collections
  import opened RelayOutcomes
  import opened Relay

  /** Of a signature once claimed at or after its expiry: no check lets it through again, and at most one run is still to come. */
  ghost predicate LateOk(w: World, s: State, sig: string) {
    && s.clock >= w.signed(sig).expiresAt
    && !(s.phase.Verified? && s.phase.env.signature == sig)
    && Times(s.brainLog, sig) <= if s.phase.Running? && s.phase.env.signature == sig then 1 else 2
  }

  ghost predicate LatesOk(w: World, s: State) { forall sig :: sig in s.late ==> LateOk(w, s, sig) }

  lemma ClaimLateOwn(w: World, s: State, sig: string)
    requires s.phase.Verified? && s.phase.env.signature == sig && s.phase.env == w.signed(sig)
    requires s.clock >= s.phase.env.expiresAt && Times(s.brainLog, sig) <= 1
    ensures LateOk(w, DoClaim(w, s), sig)
  {
    hide Claim;
  }

  lemma ClaimLateOther(w: World, s: State, sig: string)
    requires s.phase.Verified? && s.phase.env.signature != sig && LateOk(w, s, sig)
    ensures LateOk(w, DoClaim(w, s), sig)
  {
    hide Claim;
  }

  lemma ClaimLate(w: World, sigs: set<string>, s: State, sig: string)
    requires Inv(w, sigs, s) && LatesOk(w, s) && s.phase.Verified? && sig in DoClaim(w, s).late
    ensures LateOk(w, DoClaim(w, s), sig)
  {
    hide Claim, RowsOk, LateOk;
    if sig == s.phase.env.signature {
      if sig in s.late {
        assert LateOk(w, s, sig);
        NotVerifiedAgain(w, s, sig);
      }
      assert HistoryOk(w, s, sig);
      ClaimLateOwn(w, s, sig);
    } else {
      assert LateOk(w, s, sig);
      ClaimLateOther(w, s, sig);
    }
  }

  lemma NotVerifiedAgain(w: World, s: State, sig: string)
    requires LateOk(w, s, sig)
    ensures !(s.phase.Verified? && s.phase.env.signature == sig)
  {}

  lemma CheckLate(w: World, s: State, ok: bool, sig: string)
    requires LateOk(w, s, sig)
    ensures LateOk(w, DoCheck(w, s, ok), sig)
  {}

  lemma BrainLate(w: World, s: State, answer: Reply, sig: string)
    requires LateOk(w, s, sig)
    ensures LateOk(w, Next(w, s, Brain(answer)), sig)
  {}

  /** A step that neither logs a run nor takes an envelope up. */
  lemma QuietLate(w: World, s: State, s': State, sig: string)
    requires LateOk(w, s, sig) && s'.clock >= s.clock && s'.brainLog == s.brainLog
    requires s'.phase.Verified? || s'.phase.Running? ==> s'.phase == s.phase
    ensures LateOk(w, s', sig)
  {}

  lemma NextLate(w: World, sigs: set<string>, s: State, step: Step)
    requires Inv(w, sigs, s) && LatesOk(w, s)
    ensures LatesOk(w, Next(w, s, step))
  {
    hide LateOk, Inv, Claim, Complete, List, Admissible;
    var s' := Next(w, s, step);
    forall sig | sig in s'.late ensures LateOk(w, s', sig) {
      match step
      case ClaimRow => if s.phase.Verified? { ClaimLate(w, sigs, s, sig); }
      case Check(ok) => CheckLate(w, s, ok, sig);
      case Brain(answer) => BrainLate(w, s, answer, sig);
      case _ => QuietLate(w, s, s', sig);
    }
  }

  lemma {:induction false} RunLate(w: World, sigs: set<string>, clock: int, inbox: map<string, Envelope>, steps: seq<Step>)
    requires CollisionFree(w.hash, sigs)
    requires (forall p :: p in inbox ==> inbox[p].signature in sigs) && (forall i :: 0 <= i < |steps| ==> StepIn(sigs, steps[i]))
    ensures LatesOk(w, Run(w, Start(clock, inbox), steps)) && Inv(w, sigs, Run(w, Start(clock, inbox), steps))
  {
    hide Next, Inv, LatesOk, CollisionFree;
    RunInv(w, sigs, clock, inbox, steps);
    if steps == [] {
      NothingLate(w, clock, inbox);
    } else {
      RunLate(w, sigs, clock, inbox, steps[..|steps| - 1]);
      NextLate(w, sigs, Run(w, Start(clock, inbox), steps[..|steps| - 1]), steps[|steps| - 1]);
    }
  }

  lemma NothingLate(w: World, clock: int, inbox: map<string, Envelope>)
    ensures LatesOk(w, Start(clock, inbox))
  {}

  lemma ReachableLate(w: World, clock: int, inbox: map<string, Envelope>, steps: seq<Step>)
    requires CollisionFree(w.hash, Occurring(inbox, steps))
    ensures LatesOk(w, Run(w, Start(clock, inbox), steps)) && Inv(w, Occurring(inbox, steps), Run(w, Start(clock, inbox), steps))
  {
    hide Inv, Next, Run, LatesOk, CollisionFree;
    RunLate(w, Occurring(inbox, steps), clock, inbox, steps);
  }

  // ----- what follows -----------------------------------------------------------------------------------

  /** Whatever the clock does and wherever the worker crashes: no signature's task runs more than twice. */
  lemma AtMostTwice(w: World, clock: int, inbox: map<string, Envelope>, steps: seq<Step>, sig: string)
    requires CollisionFree(w.hash, Occurring(inbox, steps))
    ensures Times(Run(w, Start(clock, inbox), steps).brainLog, sig) <= 2
  {
    hide Run, CollisionFree, Occurring;
    ReachableLate(w, clock, inbox, steps);
    AtMostOnce(w, clock, inbox, steps, sig);
    assert sig in Run(w, Start(clock, inbox), steps).late ==> LateOk(w, Run(w, Start(clock, inbox), steps), sig);
  }

  /** The row in hand has run out and the table has room: a claim now finds nothing of an earlier run. */
  predicate Forgotten(s: State) {
    s.phase.Verified? && s.clock >= s.phase.env.expiresAt && |Unexpired(s.rows, s.clock)| < MAX_RELAY_OUTCOMES
  }

  /** A task that has run and passed its check again runs again if and only if it is claimed too late and there is room. */
  lemma ReclaimIff(w: World, clock: int, inbox: map<string, Envelope>, steps: seq<Step>, answer: Reply)
    requires CollisionFree(w.hash, Occurring(inbox, steps))
    requires var s := Run(w, Start(clock, inbox), steps); s.phase.Verified? && s.phase.env.signature in s.brainLog
    ensures var s := Run(w, Start(clock, inbox), steps);
            var s' := Next(w, Next(w, s, ClaimRow), Brain(answer));
            Times(s'.brainLog, s.phase.env.signature) == if Forgotten(s) then 2 else 1
  {
    hide Run, CollisionFree, Occurring, Unexpired;
    ReachableLate(w, clock, inbox, steps);
    var s := Run(w, Start(clock, inbox), steps);
    ClaimRuns(w, Occurring(inbox, steps), s);
    assert Times(s.brainLog, s.phase.env.signature) == 1;
  }

  lemma ClaimRuns(w: World, sigs: set<string>, s: State)
    requires Inv(w, sigs, s) && LatesOk(w, s) && s.phase.Verified? && s.phase.env.signature in s.brainLog
    ensures DoClaim(w, s).phase.Running? <==> Forgotten(s)
    ensures Times(s.brainLog, s.phase.env.signature) == 1
  {
    hide List;
    var sig := s.phase.env.signature;
    assert s.phase.env == w.signed(sig) && sig in sigs;
    assert sig !in s.late && HistoryOk(w, s, sig);
    assert multiset(s.brainLog)[sig] >= 1;
  }

  /** Has run twice, or is about to. */
  ghost predicate Second(s: State, sig: string) {
    Times(s.brainLog, sig) >= 2 || (s.phase.Running? && s.phase.env.signature == sig && sig in s.brainLog)
  }

  lemma BecomesSecond(w: World, sigs: set<string>, s: State, step: Step, sig: string)
    requires Inv(w, sigs, s) && LatesOk(w, s) && !Second(s, sig) && Second(Next(w, s, step), sig)
    ensures step == ClaimRow && Forgotten(s) && s.phase.env.signature == sig && sig in s.brainLog
  {
    hide Inv, LatesOk, List, Complete, Claim, Forgotten, Admissible;
    if step == ClaimRow && s.phase.Verified? && s.phase.env.signature in s.brainLog {
      ClaimRuns(w, sigs, s);
    }
  }

  /**
   * In a whole run: the second run of a task is always the work of one claim, of a row that had run out
   * between the check and the claim.
   */
  lemma {:induction false} TwiceOnlyByReclaim(w: World, clock: int, inbox: map<string, Envelope>, steps: seq<Step>, sig: string) returns (i: nat)
    requires CollisionFree(w.hash, Occurring(inbox, steps)) && Second(Run(w, Start(clock, inbox), steps), sig)
    ensures i < |steps| && steps[i] == ClaimRow
    ensures var s := Run(w, Start(clock, inbox), steps[..i]);
            Forgotten(s) && s.phase.env.signature == sig && sig in s.brainLog
  {
    hide Next, Second, Forgotten, CollisionFree, Inv, LatesOk, Occurring;
    assert steps != [] by { NotAtStart(clock, inbox, sig); }
    var front, last := steps[..|steps| - 1], steps[|steps| - 1];
    FewerOccur(w, inbox, steps);
    if Second(Run(w, Start(clock, inbox), front), sig) {
      i := TwiceOnlyByReclaim(w, clock, inbox, front, sig);
      assert front[..i] == steps[..i];
    } else {
      ReachableLate(w, clock, inbox, front);
      BecomesSecond(w, Occurring(inbox, front), Run(w, Start(clock, inbox), front), last, sig);
      i := |steps| - 1;
    }
  }

  lemma NotAtStart(clock: int, inbox: map<string, Envelope>, sig: string)
    ensures !Second(Start(clock, inbox), sig)
  {}

  lemma FewerOccur(w: World, inbox: map<string, Envelope>, steps: seq<Step>)
    requires steps != [] && CollisionFree(w.hash, Occurring(inbox, steps))
    ensures CollisionFree(w.hash, Occurring(inbox, steps[..|steps| - 1]))
  {
    var front := steps[..|steps| - 1];
    forall sig | sig in Occurring(inbox, front) ensures sig in Occurring(inbox, steps) {
      if i :| 0 <= i < |front| && front[i].Arrive? && front[i].envelope.signature == sig {
        assert steps[i] == front[i];
      }
    }
  }
}
