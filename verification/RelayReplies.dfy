/** Delivery of signed replies: kept until shown, not shown again once acknowledged. */
module RelayReplies {
  import opened Bytes
  import opened Collections
  import opened ReplayCache
  import opened Relay
  import opened RelayFiles

  datatype Taken = Taken(path: string, env: Envelope)

  /** What is being done to one reply: verified and to be looked up, refused by the cache, or about to be unlinked. */
  datatype Hand = Free | Looking(t: Taken) | Doubting(t: Taken) | Removing(t: Taken)

  /**
   * Reply files and the durable replay rows, the replies read and still to be examined (`listing`), those
   * handed out (`taken`) and the one in hand; and a history: the signatures shown to the user and
   * acknowledged, the files delivered, and how many of them had been when a reply was last read.
   */
  datatype Desk = Desk(
    clock: real,
    files: map<string, Envelope>,
    rows: map<Hash, int>,
    listing: seq<Taken>,
    taken: seq<Taken>,
    hand: Hand,
    shown: set<string>,
    acked: set<string>,
    deliveries: seq<(string, Envelope)>,
    marks: map<Taken, nat>)

  datatype DeskStep =
    | Pass(to: real)
    | Deliver(at: string, envelope: Envelope)
    | Scan(names: seq<string>)
    | Examine(ok: bool)
    | LookUp
    | Show(which: nat)
    | Record(which: nat)
    | Doubt(which: nat)
    | Confirm
    | Remove
    | Abandon
    | Restart

  predicate IsLive(w: World, d: Desk, t: Taken) { w.hash(t.env.signature) in Live(d.rows, d.clock.Floor) }

  /** `_read_slot`: the replies read from the named files that are there. */
  function ReadAll(files: map<string, Envelope>, names: seq<string>): seq<Taken> {
    if names == [] then []
    else (if names[0] in files then [Taken(names[0], files[names[0]])] else []) + ReadAll(files, names[1..])
  }

  function DoScan(d: Desk, names: seq<string>): Desk {
    if !d.hand.Free? || d.listing != [] then d
    else
      var listing := ReadAll(d.files, names);
      d.(listing := listing, marks := d.marks + map t | t in listing :: |d.deliveries|)
  }

  /** Verification of the next reply in `take_replies`; what fails is quarantined. */
  function DoExamine(w: World, d: Desk, ok: bool): Desk {
    if !d.hand.Free? || d.listing == [] then d
    else
      var t, d1 := d.listing[0], d.(listing := d.listing[1..]);
      if ok && Relay.Admissible(w, t.env, d.clock.Floor) then d1.(hand := Looking(t)) else d1.(files := d.files - {t.path})
  }

  /** The replay lookup: an acknowledged reply is dropped, any other handed out. */
  function DoLookUp(w: World, d: Desk): Desk {
    if !d.hand.Looking? then d
    else if IsLive(w, d, d.hand.t) then d.(files := d.files - {d.hand.t.path}, hand := Free)
    else d.(taken := d.taken + [d.hand.t], hand := Free)
  }

  /** The first half of `ack_replies`, for a reply the caller has shown. */
  function DoRecord(w: World, maxEntries: int, d: Desk, t: Taken): Desk {
    var (rows, first) := DurableFirstTime(maxEntries, d.rows, w.hash(t.env.signature), t.env.expiresAt, d.clock);
    if first then d.(rows := rows, hand := Removing(t), acked := d.acked + {t.env.signature}) else d.(hand := Doubting(t))
  }

  /** A refused recording counts only if the signature is there already; otherwise the call raises. */
  function DoConfirm(w: World, d: Desk): Desk {
    if !d.hand.Doubting? then d
    else if IsLive(w, d, d.hand.t) then d.(hand := Removing(d.hand.t), acked := d.acked + {d.hand.t.env.signature})
    else d.(hand := Free)
  }

  function NextDesk(w: World, maxEntries: int, d: Desk, step: DeskStep): Desk {
    match step
    case Pass(to) => if to >= d.clock then d.(clock := to) else d
    case Deliver(path, env) => d.(files := d.files[path := env], deliveries := d.deliveries + [(path, env)])
    case Scan(names) => DoScan(d, names)
    case Examine(ok) => DoExamine(w, d, ok)
    case LookUp => DoLookUp(w, d)
    case Show(i) => if i < |d.taken| then d.(shown := d.shown + {d.taken[i].env.signature}) else d
    case Record(i) =>
      if i < |d.taken| && d.taken[i].env.signature in d.shown && d.hand.Free? then DoRecord(w, maxEntries, d, d.taken[i]) else d
    case Doubt(i) =>
      if i < |d.taken| && d.taken[i].env.signature in d.shown && d.hand.Free? then d.(hand := Doubting(d.taken[i])) else d
    case Confirm => DoConfirm(w, d)
    case Remove => if d.hand.Removing? then d.(files := d.files - {d.hand.t.path}, hand := Free) else d
    case Abandon => d.(hand := Free)
    case Restart => d.(listing := [], taken := [], hand := Free)
  }

  function RunDesk(w: World, maxEntries: int, d: Desk, steps: seq<DeskStep>): Desk {
    if steps == [] then d else NextDesk(w, maxEntries, RunDesk(w, maxEntries, d, steps[..|steps| - 1]), steps[|steps| - 1])
  }

  function NewDesk(clock: real, files: map<string, Envelope>): Desk { Desk(clock, files, map[], [], [], Free, {}, {}, [], map[]) }

  // ----- the invariant ------------------------------------------------------------------------

  /** Every signature string of a reply file there at the start or delivered later. */
  function Delivered(files: map<string, Envelope>, steps: seq<DeskStep>): set<string> {
    (set p | p in files :: files[p].signature) + (set i | 0 <= i < |steps| && steps[i].Deliver? :: steps[i].envelope.signature)
  }

  predicate StepWithin(sigs: set<string>, step: DeskStep) { step.Deliver? ==> step.envelope.signature in sigs }

  ghost predicate HandOk(w: World, sigs: set<string>, d: Desk) {
    match d.hand
    case Free => true
    case Looking(t) => Genuine(w, t.env) && t.env.signature in sigs
    case Doubting(t) => Genuine(w, t.env) && t.env.signature in sigs && t.env.signature in d.shown
    case Removing(t) => Genuine(w, t.env) && t.env.signature in sigs && t.env.signature in d.acked
  }

  /** A row is that of an acknowledged signature and runs out when the signature does. */
  ghost predicate DeskRowsOk(w: World, sigs: set<string>, d: Desk) {
    forall sig :: sig in sigs && w.hash(sig) in d.rows ==> d.rows[w.hash(sig)] == w.signed(sig).expiresAt && sig in d.acked
  }

  ghost predicate AckedOk(w: World, d: Desk) {
    && d.acked <= d.shown
    && forall sig :: sig in d.acked ==> w.hash(sig) in d.rows || d.clock.Floor >= w.signed(sig).expiresAt
  }

  ghost predicate TakenOk(w: World, sigs: set<string>, d: Desk) {
    && (forall i :: 0 <= i < |d.taken| ==> Genuine(w, d.taken[i].env) && d.taken[i].env.signature in sigs)
    && (forall i :: 0 <= i < |d.listing| ==> d.listing[i].env.signature in sigs)
  }

  ghost predicate DeskOk(w: World, sigs: set<string>, d: Desk) {
    && (forall p :: p in d.files ==> d.files[p].signature in sigs)
    && DeskRowsOk(w, sigs, d) && TakenOk(w, sigs, d) && AckedOk(w, d) && HandOk(w, sigs, d)
  }

  lemma RecordRows(w: World, sigs: set<string>, maxEntries: int, d: Desk, t: Taken)
    requires CollisionFree(w.hash, sigs) && DeskRowsOk(w, sigs, d) && Genuine(w, t.env) && t.env.signature in sigs
    ensures DeskRowsOk(w, sigs, DoRecord(w, maxEntries, d, t))
  {
    var d' := DoRecord(w, maxEntries, d, t);
    forall sig | sig in sigs && w.hash(sig) in d'.rows ensures d'.rows[w.hash(sig)] == w.signed(sig).expiresAt && sig in d'.acked {
      assert sig != t.env.signature ==> w.hash(sig) in d.rows;
    }
  }

  lemma RecordAcked(w: World, maxEntries: int, d: Desk, t: Taken)
    requires AckedOk(w, d) && Genuine(w, t.env) && t.env.signature in d.shown && RowsByExpiry(w, d)
    ensures AckedOk(w, DoRecord(w, maxEntries, d, t))
  {}

  /** What `DeskRowsOk` says of acknowledged signatures. */
  ghost predicate RowsByExpiry(w: World, d: Desk) {
    forall sig :: sig in d.acked && w.hash(sig) in d.rows ==> d.rows[w.hash(sig)] == w.signed(sig).expiresAt
  }

  lemma RecordKeeps(w: World, sigs: set<string>, maxEntries: int, d: Desk, t: Taken)
    requires CollisionFree(w.hash, sigs) && DeskOk(w, sigs, d) && Genuine(w, t.env) && t.env.signature in d.shown && t.env.signature in sigs
    requires d.acked <= sigs
    ensures DeskOk(w, sigs, DoRecord(w, maxEntries, d, t))
  {
    hide DurableFirstTime, Live, CollisionFree;
    RecordRows(w, sigs, maxEntries, d, t);
    assert RowsByExpiry(w, d);
    RecordAcked(w, maxEntries, d, t);
  }

  ghost predicate DeskInv(w: World, sigs: set<string>, d: Desk) { DeskOk(w, sigs, d) && d.acked <= sigs && d.shown <= sigs }

  lemma NextKeepsDesk(w: World, sigs: set<string>, maxEntries: int, d: Desk, step: DeskStep)
    requires CollisionFree(w.hash, sigs) && DeskInv(w, sigs, d) && StepWithin(sigs, step)
    ensures DeskInv(w, sigs, NextDesk(w, maxEntries, d, step))
  {
    hide DoRecord, DoScan, DoExamine, DoLookUp, DoConfirm, CollisionFree;
    match step
    case Record(i) => RecordStep(w, sigs, maxEntries, d, i);
    case Pass(to) => FloorMono(d.clock, if to >= d.clock then to else d.clock);
    case Scan(names) => ScanKeeps(w, sigs, d, names);
    case Examine(ok) => ExamineKeeps(w, sigs, d, ok);
    case LookUp => LookUpKeeps(w, sigs, d);
    case Confirm => ConfirmKeeps(w, sigs, d);
    case _ =>
  }

  lemma RecordStep(w: World, sigs: set<string>, maxEntries: int, d: Desk, i: nat)
    requires CollisionFree(w.hash, sigs) && DeskInv(w, sigs, d)
    ensures DeskInv(w, sigs, NextDesk(w, maxEntries, d, Record(i)))
  {
    hide DurableFirstTime, CollisionFree;
    if i < |d.taken| && d.taken[i].env.signature in d.shown {
      RecordKeeps(w, sigs, maxEntries, d, d.taken[i]);
    }
  }

  lemma {:induction false} ReadAllIs(files: map<string, Envelope>, names: seq<string>)
    ensures forall t :: t in ReadAll(files, names) ==> t.path in files && files[t.path] == t.env
  {
    if names != [] {
      ReadAllIs(files, names[1..]);
    }
  }

  lemma ScanKeeps(w: World, sigs: set<string>, d: Desk, names: seq<string>)
    requires DeskInv(w, sigs, d)
    ensures DeskInv(w, sigs, DoScan(d, names))
  {
    hide ReadAll;
    ReadAllIs(d.files, names);
    var listing := ReadAll(d.files, names);
    forall i | 0 <= i < |listing| ensures listing[i].env.signature in sigs { assert listing[i] in listing; }
  }

  lemma ExamineKeeps(w: World, sigs: set<string>, d: Desk, ok: bool)
    requires DeskInv(w, sigs, d)
    ensures DeskInv(w, sigs, DoExamine(w, d, ok))
  {}

  lemma LookUpKeeps(w: World, sigs: set<string>, d: Desk)
    requires DeskInv(w, sigs, d)
    ensures DeskInv(w, sigs, DoLookUp(w, d))
  {
    hide IsLive;
  }

  lemma ConfirmKeeps(w: World, sigs: set<string>, d: Desk)
    requires DeskInv(w, sigs, d)
    ensures DeskInv(w, sigs, DoConfirm(w, d))
  {}

  lemma {:induction false} RunKeepsDesk(w: World, sigs: set<string>, maxEntries: int, clock: real, files: map<string, Envelope>, steps: seq<DeskStep>)
    requires CollisionFree(w.hash, sigs)
    requires (forall p :: p in files ==> files[p].signature in sigs) && (forall i :: 0 <= i < |steps| ==> StepWithin(sigs, steps[i]))
    ensures DeskInv(w, sigs, RunDesk(w, maxEntries, NewDesk(clock, files), steps))
  {
    hide NextDesk, CollisionFree;
    if steps != [] {
      RunKeepsDesk(w, sigs, maxEntries, clock, files, steps[..|steps| - 1]);
      NextKeepsDesk(w, sigs, maxEntries, RunDesk(w, maxEntries, NewDesk(clock, files), steps[..|steps| - 1]), steps[|steps| - 1]);
    }
  }

  lemma ReachableDesk(w: World, maxEntries: int, clock: real, files: map<string, Envelope>, steps: seq<DeskStep>)
    requires CollisionFree(w.hash, Delivered(files, steps))
    ensures DeskInv(w, Delivered(files, steps), RunDesk(w, maxEntries, NewDesk(clock, files), steps))
  {
    hide RunDesk, NextDesk, CollisionFree, DeskInv;
    RunKeepsDesk(w, Delivered(files, steps), maxEntries, clock, files, steps);
  }

  // ----- the files behind the replies ---------------------------------------------------------------

  /** The file at a read reply's path is the last one delivered there since, if any was, or that reply. */
  predicate StillAt(d: Desk, t: Taken) {
    t in d.marks && d.marks[t] <= |d.deliveries| && (t.path in d.files ==> d.files[t.path] == LastAt(d.deliveries[d.marks[t]..], t.path).GetOr(t.env))
  }

  ghost predicate ReadsOk(d: Desk) {
    && (forall t :: t in d.marks ==> StillAt(d, t))
    && (forall i :: 0 <= i < |d.listing| ==> d.listing[i] in d.marks)
    && (forall i :: 0 <= i < |d.taken| ==> d.taken[i] in d.marks)
    && (!d.hand.Free? ==> d.hand.t in d.marks)
  }

  lemma DeliverKeepsReads(w: World, maxEntries: int, d: Desk, at: string, env: Envelope)
    requires ReadsOk(d)
    ensures ReadsOk(NextDesk(w, maxEntries, d, Deliver(at, env)))
  {
    hide LastAt;
    var d' := NextDesk(w, maxEntries, d, Deliver(at, env));
    forall t | t in d'.marks ensures StillAt(d', t) {
      assert StillAt(d, t);
      assert d'.deliveries[d'.marks[t]..] == d.deliveries[d.marks[t]..] + [(at, env)];
      LastAtSnoc(d.deliveries[d.marks[t]..], at, env, t.path);
    }
  }

  lemma ScanKeepsReads(d: Desk, names: seq<string>)
    requires ReadsOk(d)
    ensures ReadsOk(DoScan(d, names))
  {
    hide ReadAll;
    ReadAllIs(d.files, names);
    var d', listing := DoScan(d, names), ReadAll(d.files, names);
    forall t | t in d'.marks ensures StillAt(d', t) {
      if t in d.marks { assert StillAt(d, t); }
    }
    forall i | 0 <= i < |listing| ensures listing[i] in listing {}
  }

  /** A step that removes files or none and holds only replies read before. */
  lemma FewerReplies(d: Desk, d': Desk)
    requires ReadsOk(d) && d'.deliveries == d.deliveries && d'.marks == d.marks
    requires forall p :: p in d'.files ==> p in d.files && d'.files[p] == d.files[p]
    requires (forall i :: 0 <= i < |d'.listing| ==> d'.listing[i] in d.marks) && (forall i :: 0 <= i < |d'.taken| ==> d'.taken[i] in d.marks)
    requires !d'.hand.Free? ==> d'.hand.t in d.marks
    ensures ReadsOk(d')
  {
    hide LastAt;
    forall t | t in d'.marks ensures StillAt(d', t) { assert StillAt(d, t); }
  }

  lemma ExamineReads(w: World, d: Desk, ok: bool)
    requires ReadsOk(d)
    ensures ReadsOk(DoExamine(w, d, ok))
  {
    hide ReadsOk, Relay.Admissible;
    Held(d);
    FewerReplies(d, DoExamine(w, d, ok));
  }

  lemma LookUpReads(w: World, d: Desk)
    requires ReadsOk(d)
    ensures ReadsOk(DoLookUp(w, d))
  {
    hide ReadsOk, IsLive;
    Held(d);
    FewerReplies(d, DoLookUp(w, d));
  }

  lemma RecordReads(w: World, maxEntries: int, d: Desk, t: Taken)
    requires ReadsOk(d) && t in d.marks
    ensures ReadsOk(DoRecord(w, maxEntries, d, t))
  {
    hide ReadsOk, DurableFirstTime;
    Held(d);
    FewerReplies(d, DoRecord(w, maxEntries, d, t));
  }

  lemma ConfirmReads(w: World, d: Desk)
    requires ReadsOk(d)
    ensures ReadsOk(DoConfirm(w, d))
  {
    hide ReadsOk, IsLive;
    Held(d);
    FewerReplies(d, DoConfirm(w, d));
  }

  lemma Held(d: Desk)
    requires ReadsOk(d)
    ensures forall i :: 0 <= i < |d.listing| ==> d.listing[i] in d.marks
    ensures forall i :: 0 <= i < |d.taken| ==> d.taken[i] in d.marks
    ensures !d.hand.Free? ==> d.hand.t in d.marks
  {
    hide StillAt;
  }

  lemma NextKeepsReads(w: World, maxEntries: int, d: Desk, step: DeskStep)
    requires ReadsOk(d)
    ensures ReadsOk(NextDesk(w, maxEntries, d, step))
  {
    hide ReadsOk, DoScan, DoExamine, DoLookUp, DoRecord, DoConfirm;
    Held(d);
    match step
    case Deliver(at, env) => DeliverKeepsReads(w, maxEntries, d, at, env);
    case Scan(names) => ScanKeepsReads(d, names);
    case Examine(ok) => ExamineReads(w, d, ok);
    case LookUp => LookUpReads(w, d);
    case Record(i) => if i < |d.taken| { RecordReads(w, maxEntries, d, d.taken[i]); }
    case Confirm => ConfirmReads(w, d);
    case _ => FewerReplies(d, NextDesk(w, maxEntries, d, step));
  }

  lemma {:induction false} RunKeepsReads(w: World, maxEntries: int, clock: real, files: map<string, Envelope>, steps: seq<DeskStep>)
    ensures ReadsOk(RunDesk(w, maxEntries, NewDesk(clock, files), steps))
  {
    hide NextDesk;
    if steps != [] {
      RunKeepsReads(w, maxEntries, clock, files, steps[..|steps| - 1]);
      NextKeepsReads(w, maxEntries, RunDesk(w, maxEntries, NewDesk(clock, files), steps[..|steps| - 1]), steps[|steps| - 1]);
    }
  }

  // ----- what follows ----------------------------------------------------------------------------

  /** A step that takes a file away acts for this reply: one that failed its check, or one shown and acknowledged. */
  ghost predicate DropsFor(w: World, d: Desk, step: DeskStep, t: Taken) {
    || (step.Examine? && d.listing != [] && d.listing[0] == t && !(step.ok && Relay.Admissible(w, t.env, d.clock.Floor)))
    || (((step.LookUp? && d.hand == Looking(t)) || (step.Remove? && d.hand == Removing(t)))
        && t.env.signature in d.shown && t.env.signature in d.acked)
  }

  /** The reply a step is about. */
  function InHand(d: Desk, step: DeskStep): Option<Taken> {
    if step.Examine? then (if d.listing == [] then None else Some(d.listing[0]))
    else if d.hand.Free? then None
    else Some(d.hand.t)
  }

  /** Since the reply was last read, another has come to lie at its path. */
  predicate Overlaid(d: Desk, t: Taken) {
    t in d.marks && d.marks[t] <= |d.deliveries| && LastAt(d.deliveries[d.marks[t]..], t.path).GetOr(t.env) != t.env
  }

  /**
   * A reply file goes away only by quarantine or after its path's reply was shown and acknowledged; and the
   * file that goes is that reply if and only if no other was delivered over it since it was read.
   */
  lemma ReplyRemovedIff(w: World, maxEntries: int, clock: real, files: map<string, Envelope>, steps: seq<DeskStep>, step: DeskStep, path: string)
    requires CollisionFree(w.hash, Delivered(files, steps))
    requires path in RunDesk(w, maxEntries, NewDesk(clock, files), steps).files
    requires path !in NextDesk(w, maxEntries, RunDesk(w, maxEntries, NewDesk(clock, files), steps), step).files
    ensures var d := RunDesk(w, maxEntries, NewDesk(clock, files), steps);
            InHand(d, step).Some?
            && var t := InHand(d, step).value;
               t.path == path && DropsFor(w, d, step, t) && (d.files[path] == t.env <==> !Overlaid(d, t))
  {
    hide RunDesk, CollisionFree, DurableFirstTime, Delivered, LastAt, ReadAll;
    ReachableDesk(w, maxEntries, clock, files, steps);
    RunKeepsReads(w, maxEntries, clock, files, steps);
    var d := RunDesk(w, maxEntries, NewDesk(clock, files), steps);
    assert StillAt(d, InHand(d, step).value);
  }

  /** At least once: a reply file nothing was delivered over goes away only if it failed its own check or was shown and acknowledged. */
  lemma RemovedOnlyAfterShown(w: World, maxEntries: int, clock: real, files: map<string, Envelope>, steps: seq<DeskStep>, step: DeskStep, path: string)
    requires CollisionFree(w.hash, Delivered(files, steps))
    requires path in RunDesk(w, maxEntries, NewDesk(clock, files), steps).files
    requires path !in NextDesk(w, maxEntries, RunDesk(w, maxEntries, NewDesk(clock, files), steps), step).files
    requires var d := RunDesk(w, maxEntries, NewDesk(clock, files), steps); InHand(d, step).Some? ==> !Overlaid(d, InHand(d, step).value)
    ensures var d := RunDesk(w, maxEntries, NewDesk(clock, files), steps);
            var file := d.files[path];
            if step.Examine? then !(step.ok && Relay.Admissible(w, file, d.clock.Floor))
            else file.signature in d.shown && file.signature in d.acked
  {
    hide RunDesk, NextDesk, CollisionFree, Overlaid, Relay.Admissible, InHand;
    ReplyRemovedIff(w, maxEntries, clock, files, steps, step, path);
  }

  /** Exactly when an acknowledged reply is handed out again: the lookup comes at or after its expiry. */
  lemma HandedOutAgainIff(w: World, maxEntries: int, clock: real, files: map<string, Envelope>, steps: seq<DeskStep>)
    requires CollisionFree(w.hash, Delivered(files, steps))
    requires var d := RunDesk(w, maxEntries, NewDesk(clock, files), steps); d.hand.Looking? && d.hand.t.env.signature in d.acked
    ensures var d := RunDesk(w, maxEntries, NewDesk(clock, files), steps);
            var d' := NextDesk(w, maxEntries, d, LookUp);
            if d.clock.Floor >= d.hand.t.env.expiresAt then d'.taken == d.taken + [d.hand.t] && d'.files == d.files
            else d'.taken == d.taken && d'.files == d.files - {d.hand.t.path}
  {
    hide RunDesk, CollisionFree, DurableFirstTime, Delivered;
    ReachableDesk(w, maxEntries, clock, files, steps);
  }

  /** With one clock reading for check and lookup, an acknowledged reply is never handed out again. */
  lemma AcknowledgedNotTaken(w: World, maxEntries: int, clock: real, files: map<string, Envelope>, steps: seq<DeskStep>, ok: bool)
    requires CollisionFree(w.hash, Delivered(files, steps))
    requires var d := RunDesk(w, maxEntries, NewDesk(clock, files), steps); d.hand.Free? && d.listing != [] && d.listing[0].env.signature in d.acked
    ensures var d := RunDesk(w, maxEntries, NewDesk(clock, files), steps);
            var d' := NextDesk(w, maxEntries, NextDesk(w, maxEntries, d, Examine(ok)), LookUp);
            d'.taken == d.taken && d.listing[0].path !in d'.files
  {
    hide RunDesk, CollisionFree, DurableFirstTime, Delivered;
    ReachableDesk(w, maxEntries, clock, files, steps);
  }

  // ----- the code ------------------------------------------------------------------------------------

  class ReplyDesk {
    const w: World
    const maxEntries: int
    var files: map<string, Envelope>
    var rows: map<Hash, int>
    ghost var shown: set<string>
    ghost var acked: set<string>
    ghost var deliveries: seq<(string, Envelope)>
    ghost var marks: map<Taken, nat>

    constructor (w: World, maxEntries: int, files: map<string, Envelope>)
      ensures this.w == w && this.maxEntries == maxEntries
      ensures forall clock :: View(clock, [], [], Free) == NewDesk(clock, files)
    {
      this.w, this.maxEntries, this.files, rows, shown, acked := w, maxEntries, files, map[], {}, {};
      deliveries, marks := [], map[];
    }

    ghost function View(clock: real, listing: seq<Taken>, taken: seq<Taken>, hand: Hand): Desk
      reads this
    {
      Desk(clock, files, rows, listing, taken, hand, shown, acked, deliveries, marks)
    }

    /** One reply of `take_replies`, verified at `clock(k)` and looked up at `clock(k + 1)`; None where the cache raises. */
    method TakeReply(t: Taken, trusted: string -> bool, clock: nat -> real, k: nat, databaseOk: nat -> bool,
                     ghost now: real, ghost rest: seq<Taken>, ghost taken: seq<Taken>)
      returns (r: Option<seq<Taken>>, ghost steps: seq<DeskStep>, ghost now': real)
      requires now <= clock(k) <= clock(k + 1)
      modifies this`files
      ensures now' <= clock(k + 1)
      ensures r.Some? ==> View(now', rest, taken + r.value, Free) == RunDesk(w, maxEntries, old(View(now, [t] + rest, taken, Free)), steps)
      ensures r.None? ==> View(now', [], [], Free) == RunDesk(w, maxEntries, old(View(now, [t] + rest, taken, Free)), steps)
    {
      hide RunDesk, NextDesk, Live;
      ghost var d0 := View(now, [t] + rest, taken, Free);
      steps := ExtendDesk(w, maxEntries, d0, [], Pass(clock(k)));
      now' := clock(k);
      PassIs(w, maxEntries, d0, clock(k));
      assert taken + [] == taken && ([t] + rest)[1..] == rest;
      var good := trusted(t.env.sender) && Relay.Admissible(w, t.env, clock(k).Floor);
      ghost var d1 := RunDesk(w, maxEntries, d0, steps);
      ExamineIs(w, maxEntries, d1, trusted(t.env.sender));
      steps := ExtendDesk(w, maxEntries, d0, steps, Examine(trusted(t.env.sender)));
      if !good {
        files := files - {t.path};
        return Some([]), steps, now';
      }
      ghost var d2 := RunDesk(w, maxEntries, d0, steps);
      if !databaseOk(k + 1) {
        RestartIs(w, maxEntries, d2);
        steps := ExtendDesk(w, maxEntries, d0, steps, Restart);
        return None, steps, now';
      }
      PassIs(w, maxEntries, d2, clock(k + 1));
      steps := ExtendDesk(w, maxEntries, d0, steps, Pass(clock(k + 1)));
      now' := clock(k + 1);
      LookUpIs(w, maxEntries, RunDesk(w, maxEntries, d0, steps));
      steps := ExtendDesk(w, maxEntries, d0, steps, LookUp);
      var key := w.hash(t.env.signature);
      LiveKey(rows, clock(k + 1).Floor, key);
      if key in rows && rows[key] > clock(k + 1).Floor {
        files := files - {t.path};
        return Some([]), steps, now';
      }
      return Some([t]), steps, now';
    }

    /** `take_replies`: the named files are read first, then handled one by one; two clock readings per reply. */
    method TakeReplies(names: seq<string>, trusted: string -> bool, clock: nat -> real, databaseOk: nat -> bool, ghost now: real)
      returns (accepted: Option<seq<Taken>>, ghost steps: seq<DeskStep>, ghost now': real)
      requires (forall i: nat, j: nat :: i <= j ==> clock(i) <= clock(j)) && now <= clock(0)
      modifies this`files, this`marks
      ensures View(now', [], accepted.GetOr([]), Free) == RunDesk(w, maxEntries, old(View(now, [], [], Free)), steps)
    {
      hide RunDesk, NextDesk, ReadAll;
      ghost var d0 := View(now, [], [], Free);
      var listing := ReadAll(files, names);
      ScanIs(w, maxEntries, d0, names);
      steps := ExtendDesk(w, maxEntries, d0, [], Scan(names));
      marks := marks + map t | t in listing :: |deliveries|;
      now' := now;
      var taken: seq<Taken> := [];
      var i := 0;
      assert listing[0..] == listing;
      while i < |listing|
        invariant 0 <= i <= |listing| && now' <= clock(2 * i)
        invariant View(now', listing[i..], taken, Free) == RunDesk(w, maxEntries, d0, steps)
      {
        assert listing[i..] == [listing[i]] + listing[i + 1..];
        var r;
        ghost var more;
        r, more, now' := TakeReply(listing[i], trusted, clock, 2 * i, databaseOk, now', listing[i + 1..], taken);
        RunDeskConcat(w, maxEntries, d0, steps, more);
        steps := steps + more;
        if r.None? {
          return None, steps, now';
        }
        taken := taken + r.value;
        i := i + 1;
      }
      return Some(taken), steps, now';
    }

    /** One reply of `ack_replies`, recorded at `clock(k)` or found recorded at `clock(k + 1)`, then unlinked. */
    method AckReply(taken: seq<Taken>, which: nat, clock: nat -> real, k: nat, databaseOk: nat -> bool, ghost now: real)
      returns (ok: bool, ghost steps: seq<DeskStep>, ghost now': real)
      requires which < |taken| && taken[which].env.signature in shown && now <= clock(k) <= clock(k + 1)
      modifies this
      ensures shown == old(shown) && files.Keys <= old(files.Keys) && now' <= clock(k + 1)
      ensures View(now', [], taken, Free) == RunDesk(w, maxEntries, old(View(now, [], taken, Free)), steps)
      ensures ok ==> taken[which].path !in files
    {
      hide RunDesk, NextDesk, DurableFirstTime, Live;
      var t := taken[which];
      ghost var d0 := View(now, [], taken, Free);
      PassIs(w, maxEntries, d0, clock(k));
      steps := ExtendDesk(w, maxEntries, d0, [], Pass(clock(k)));
      now' := clock(k);
      if !databaseOk(k) {
        DoubtIs(w, maxEntries, RunDesk(w, maxEntries, d0, steps), which);
        steps := ExtendDesk(w, maxEntries, d0, steps, Doubt(which));
        ok, steps, now' := Reconsider(t, clock(k + 1), databaseOk(k + 1), d0, steps, now', taken);
        return;
      }
      RecordIs(w, maxEntries, RunDesk(w, maxEntries, d0, steps), which);
      steps := ExtendDesk(w, maxEntries, d0, steps, Record(which));
      var (rows', first) := DurableFirstTime(maxEntries, rows, w.hash(t.env.signature), t.env.expiresAt, clock(k));
      if !first {
        ok, steps, now' := Reconsider(t, clock(k + 1), databaseOk(k + 1), d0, steps, now', taken);
        return;
      }
      rows := rows';
      acked := acked + {t.env.signature};
      RemoveIs(w, maxEntries, RunDesk(w, maxEntries, d0, steps));
      steps := ExtendDesk(w, maxEntries, d0, steps, Remove);
      files := files - {t.path};
      ok := true;
    }

    /** The recording was refused: a reply already recorded is unlinked all the same, any other raises. */
    method Reconsider(t: Taken, at: real, databaseOk: bool, ghost d0: Desk, ghost steps: seq<DeskStep>, ghost now: real, ghost taken: seq<Taken>)
      returns (live: bool, ghost steps': seq<DeskStep>, ghost now': real)
      requires now <= at && RunDesk(w, maxEntries, d0, steps) == View(now, [], taken, Doubting(t))
      modifies this
      ensures shown == old(shown) && files.Keys <= old(files.Keys) && now' == at
      ensures View(now', [], taken, Free) == RunDesk(w, maxEntries, d0, steps')
      ensures live ==> t.path !in files
    {
      hide RunDesk, NextDesk, Live;
      PassIs(w, maxEntries, RunDesk(w, maxEntries, d0, steps), at);
      steps' := ExtendDesk(w, maxEntries, d0, steps, Pass(at));
      now' := at;
      var key := w.hash(t.env.signature);
      LiveKey(rows, at.Floor, key);
      live := databaseOk && key in rows && rows[key] > at.Floor;
      if live {
        ConfirmIs(w, maxEntries, RunDesk(w, maxEntries, d0, steps'));
        steps' := ExtendDesk(w, maxEntries, d0, steps', Confirm);
        acked := acked + {t.env.signature};
        RemoveIs(w, maxEntries, RunDesk(w, maxEntries, d0, steps'));
        steps' := ExtendDesk(w, maxEntries, d0, steps', Remove);
        files := files - {t.path};
      } else {
        GiveUpIs(w, maxEntries, RunDesk(w, maxEntries, d0, steps'));
        steps' := ExtendDesk(w, maxEntries, d0, steps', Abandon);
      }
    }

    /** `ack_replies`; the first reply that cannot be recorded raises. */
    method AckReplies(taken: seq<Taken>, clock: nat -> real, databaseOk: nat -> bool, ghost now: real)
      returns (acknowledged: nat, ghost steps: seq<DeskStep>, ghost now': real)
      requires (forall i: nat, j: nat :: i <= j ==> clock(i) <= clock(j)) && now <= clock(0)
      requires forall i :: 0 <= i < |taken| ==> taken[i].env.signature in shown
      modifies this
      ensures View(now', [], taken, Free) == RunDesk(w, maxEntries, old(View(now, [], taken, Free)), steps)
      ensures acknowledged <= |taken| && forall i :: 0 <= i < acknowledged ==> taken[i].path !in files
    {
      hide RunDesk;
      ghost var d0 := View(now, [], taken, Free);
      RunDeskNone(w, maxEntries, d0);
      acknowledged, steps, now' := 0, [], now;
      while acknowledged < |taken|
        invariant acknowledged <= |taken| && shown == old(shown) && now' <= clock(2 * acknowledged)
        invariant View(now', [], taken, Free) == RunDesk(w, maxEntries, d0, steps)
        invariant forall i :: 0 <= i < acknowledged ==> taken[i].path !in files
      {
        var ok;
        ghost var more;
        ok, more, now' := AckReply(taken, acknowledged, clock, 2 * acknowledged, databaseOk, now');
        RunDeskConcat(w, maxEntries, d0, steps, more);
        steps := steps + more;
        if !ok {
          return;
        }
        acknowledged := acknowledged + 1;
      }
    }
  }

  lemma RunDeskNone(w: World, maxEntries: int, d: Desk)
    ensures RunDesk(w, maxEntries, d, []) == d
  {}

  lemma RunDeskSnoc(w: World, maxEntries: int, d: Desk, steps: seq<DeskStep>, step: DeskStep)
    ensures RunDesk(w, maxEntries, d, steps + [step]) == NextDesk(w, maxEntries, RunDesk(w, maxEntries, d, steps), step)
  {
    assert (steps + [step])[..|steps|] == steps;
  }

  lemma ExtendDesk(w: World, maxEntries: int, d: Desk, steps: seq<DeskStep>, step: DeskStep) returns (longer: seq<DeskStep>)
    ensures longer == steps + [step] && RunDesk(w, maxEntries, d, longer) == NextDesk(w, maxEntries, RunDesk(w, maxEntries, d, steps), step)
    ensures RunDesk(w, maxEntries, d, []) == d
  {
    longer := steps + [step];
    RunDeskSnoc(w, maxEntries, d, steps, step);
  }

  lemma PassIs(w: World, maxEntries: int, d: Desk, to: real)
    ensures d.clock <= to ==> NextDesk(w, maxEntries, d, Pass(to)) == d.(clock := to)
  {}

  lemma ScanIs(w: World, maxEntries: int, d: Desk, names: seq<string>)
    ensures NextDesk(w, maxEntries, d, Scan(names)) == DoScan(d, names)
  {}

  lemma ExamineIs(w: World, maxEntries: int, d: Desk, ok: bool)
    ensures NextDesk(w, maxEntries, d, Examine(ok)) == DoExamine(w, d, ok)
  {}

  lemma LookUpIs(w: World, maxEntries: int, d: Desk)
    ensures NextDesk(w, maxEntries, d, LookUp) == DoLookUp(w, d)
  {}

  lemma RecordIs(w: World, maxEntries: int, d: Desk, i: nat)
    ensures i < |d.taken| && d.taken[i].env.signature in d.shown && d.hand.Free? ==>
              NextDesk(w, maxEntries, d, Record(i)) == DoRecord(w, maxEntries, d, d.taken[i])
  {}

  lemma DoubtIs(w: World, maxEntries: int, d: Desk, i: nat)
    ensures i < |d.taken| && d.taken[i].env.signature in d.shown && d.hand.Free? ==>
              NextDesk(w, maxEntries, d, Doubt(i)) == d.(hand := Doubting(d.taken[i]))
  {}

  lemma ConfirmIs(w: World, maxEntries: int, d: Desk)
    ensures NextDesk(w, maxEntries, d, Confirm) == DoConfirm(w, d)
  {}

  lemma RemoveIs(w: World, maxEntries: int, d: Desk)
    ensures d.hand.Removing? ==> NextDesk(w, maxEntries, d, Remove) == d.(files := d.files - {d.hand.t.path}, hand := Free)
  {}

  lemma RestartIs(w: World, maxEntries: int, d: Desk)
    ensures NextDesk(w, maxEntries, d, Restart) == d.(listing := [], taken := [], hand := Free)
  {}

  lemma GiveUpIs(w: World, maxEntries: int, d: Desk)
    ensures NextDesk(w, maxEntries, d, Abandon) == d.(hand := Free)
  {}

  lemma {:induction false} RunDeskConcat(w: World, maxEntries: int, d: Desk, a: seq<DeskStep>, b: seq<DeskStep>)
    ensures RunDesk(w, maxEntries, d, a + b) == RunDesk(w, maxEntries, RunDesk(w, maxEntries, d, a), b)
  {
    hide NextDesk, RunDesk;
    if b == [] {
      assert a + b == a;
      RunDeskNone(w, maxEntries, RunDesk(w, maxEntries, d, a));
    } else {
      var front, last := b[..|b| - 1], b[|b| - 1];
      RunDeskConcat(w, maxEntries, d, a, front);
      RunDeskSnoc(w, maxEntries, d, a + front, last);
      RunDeskSnoc(w, maxEntries, RunDesk(w, maxEntries, d, a), front, last);
      assert a + b == a + front + [last] && b == front + [last];
    }
  }

  // ----- instances: two replies, two hashes ---------------------------------------------------------------

  function ReplyA(): Taken { Taken("a.json", TwoTasks()["a.json"]) }
  function ReplyB(): Taken { Taken("b.json", TwoTasks()["b.json"]) }

  /** Both replies are taken and shown, the first is acknowledged, comes back and is looked up at an instant. */
  function BackAgain(at: real): seq<DeskStep> {
    [Scan(["a.json", "b.json"]), Examine(true), LookUp, Examine(true), LookUp] + [Show(0), Record(0), Remove]
    + [Deliver("a.json", ReplyA().env), Scan(["a.json"]), Examine(true)] + [Pass(at), LookUp]
  }

  /** After the reply has come back and passed its check. */
  function Returned(): Desk {
    NewDesk(0.0, TwoTasks()).(rows := map[TwoHashes("a") := 10], taken := [ReplyA(), ReplyB()], hand := Looking(ReplyA()),
                              shown := {"a"}, acked := {"a"}, deliveries := [("a.json", ReplyA().env)],
                              marks := map[ReplyA() := 1, ReplyB() := 0])
  }

  /**
   * The hypotheses of the theorems can be met, by such runs. Before its expiry the reply is dropped; at
   * or after it, it is handed out again although acknowledged.
   */
  lemma TwoRepliesDelivered(maxEntries: nat, at: real)
    requires maxEntries > 0 && at >= 0.0
    ensures var d := RunDesk(SampleWorld(), maxEntries, NewDesk(0.0, TwoTasks()), BackAgain(at));
            && CollisionFree(SampleWorld().hash, Delivered(TwoTasks(), BackAgain(at)))
            && d.acked == {"a"}
            && (if at.Floor < 10 then d.taken == [ReplyA(), ReplyB()] && d.files == map["b.json" := ReplyB().env]
                else d.taken == [ReplyA(), ReplyB(), ReplyA()] && d.files == TwoTasks())
  {
    hide RunDesk, NextDesk, CollisionFree, TwoHashes;
    SampleDelivered(at);
    var w, d0, p := SampleWorld(), NewDesk(0.0, TwoTasks()), BackAgain(at);
    var d5 := BothTaken(maxEntries);
    var d8 := FirstAcked(maxEntries, d5);
    CameBack(maxEntries, d8);
    LookedUp(maxEntries, at);
    RunDeskConcat(w, maxEntries, d0, p[..5], p[5..8]);
    RunDeskConcat(w, maxEntries, d0, p[..8], p[8..11]);
    RunDeskConcat(w, maxEntries, d0, p[..11], p[11..]);
    assert p[..5] + p[5..8] == p[..8] && p[..8] + p[8..11] == p[..11] && p[..11] + p[11..] == p;
    assert p[5..8] == [Show(0), Record(0), Remove] && p[11..] == [Pass(at), LookUp];
    assert p[8..11] == [Deliver("a.json", ReplyA().env), Scan(["a.json"]), Examine(true)];
  }

  lemma SampleDelivered(at: real)
    ensures CollisionFree(SampleWorld().hash, Delivered(TwoTasks(), BackAgain(at)))
  {
    hide TwoHashes;
    DifferentHashes();
    forall sig | sig in Delivered(TwoTasks(), BackAgain(at)) ensures sig == "a" || sig == "b" {}
  }

  lemma RunOne(w: World, maxEntries: int, d: Desk, x: DeskStep)
    ensures RunDesk(w, maxEntries, d, [x]) == NextDesk(w, maxEntries, d, x)
  {
    hide NextDesk, RunDesk;
    RunDeskNone(w, maxEntries, d);
    RunDeskSnoc(w, maxEntries, d, [], x);
    assert [] + [x] == [x];
  }

  lemma RunTwo(w: World, maxEntries: int, d: Desk, x: DeskStep, y: DeskStep)
    ensures RunDesk(w, maxEntries, d, [x, y]) == NextDesk(w, maxEntries, NextDesk(w, maxEntries, d, x), y)
  {
    hide NextDesk, RunDesk;
    RunOne(w, maxEntries, d, x);
    RunDeskSnoc(w, maxEntries, d, [x], y);
    assert [x] + [y] == [x, y];
  }

  lemma RunThree(w: World, maxEntries: int, d: Desk, x: DeskStep, y: DeskStep, z: DeskStep)
    ensures RunDesk(w, maxEntries, d, [x, y, z]) == NextDesk(w, maxEntries, NextDesk(w, maxEntries, NextDesk(w, maxEntries, d, x), y), z)
  {
    hide NextDesk, RunDesk;
    RunTwo(w, maxEntries, d, x, y);
    RunDeskSnoc(w, maxEntries, d, [x, y], z);
    assert [x, y] + [z] == [x, y, z];
  }

  /** An admissible reply that is not recorded is handed out. */
  lemma Taking(w: World, maxEntries: int, d: Desk, t: Taken, rest: seq<Taken>)
    requires d.hand.Free? && d.listing == [t] + rest && Relay.Admissible(w, t.env, d.clock.Floor) && !IsLive(w, d, t)
    ensures RunDesk(w, maxEntries, d, [Examine(true), LookUp]) == d.(listing := rest, taken := d.taken + [t])
  {
    hide RunDesk, Relay.Admissible;
    RunTwo(w, maxEntries, d, Examine(true), LookUp);
    assert ([t] + rest)[1..] == rest;
  }

  lemma ScanBoth(maxEntries: nat) returns (d: Desk)
    ensures d == NextDesk(SampleWorld(), maxEntries, NewDesk(0.0, TwoTasks()), Scan(["a.json", "b.json"]))
    ensures d == NewDesk(0.0, TwoTasks()).(listing := [ReplyA(), ReplyB()], marks := map[ReplyA() := 0, ReplyB() := 0])
  {
    hide TwoHashes;
    var names := ["a.json", "b.json"];
    assert names[1..] == ["b.json"] && names[1..][1..] == [];
    assert ReadAll(TwoTasks(), ["b.json"]) == [ReplyB()];
    assert ReadAll(TwoTasks(), names) == [ReplyA(), ReplyB()];
    d := NextDesk(SampleWorld(), maxEntries, NewDesk(0.0, TwoTasks()), Scan(names));
  }

  lemma BothTaken(maxEntries: nat) returns (d: Desk)
    ensures d == RunDesk(SampleWorld(), maxEntries, NewDesk(0.0, TwoTasks()), [Scan(["a.json", "b.json"]), Examine(true), LookUp, Examine(true), LookUp])
    ensures d == NewDesk(0.0, TwoTasks()).(taken := [ReplyA(), ReplyB()], marks := map[ReplyA() := 0, ReplyB() := 0])
  {
    hide RunDesk, NextDesk, TwoHashes;
    var w, d0, scan := SampleWorld(), NewDesk(0.0, TwoTasks()), Scan(["a.json", "b.json"]);
    var d1 := ScanBoth(maxEntries);
    RunOne(w, maxEntries, d0, scan);
    assert Live(map[], 0) == map[];
    assert d1.listing == [ReplyA()] + [ReplyB()];
    Taking(w, maxEntries, d1, ReplyA(), [ReplyB()]);
    var d3 := d1.(listing := [ReplyB()], taken := [ReplyA()]);
    assert d3.listing == [ReplyB()] + [];
    Taking(w, maxEntries, d3, ReplyB(), []);
    RunDeskConcat(w, maxEntries, d0, [scan], [Examine(true), LookUp]);
    RunDeskConcat(w, maxEntries, d0, [scan] + [Examine(true), LookUp], [Examine(true), LookUp]);
    assert [scan] + [Examine(true), LookUp] + [Examine(true), LookUp] == [scan, Examine(true), LookUp, Examine(true), LookUp];
    assert [] + [ReplyA()] == [ReplyA()] && [ReplyA()] + [ReplyB()] == [ReplyA(), ReplyB()];
    assert RunDesk(w, maxEntries, d1, [Examine(true), LookUp]) == d3;
    d := d3.(listing := [], taken := [ReplyA(), ReplyB()]);
    assert RunDesk(w, maxEntries, d3, [Examine(true), LookUp]) == d;
  }

  /** Showing a reply, recording it for the first time and unlinking it. */
  lemma Acknowledge(w: World, maxEntries: int, d: Desk, i: nat)
    requires d.hand.Free? && i < |d.taken|
    requires DurableFirstTime(maxEntries, d.rows, w.hash(d.taken[i].env.signature), d.taken[i].env.expiresAt, d.clock).1
    ensures var t := d.taken[i];
            RunDesk(w, maxEntries, d, [Show(i), Record(i), Remove])
            == d.(files := d.files - {t.path}, shown := d.shown + {t.env.signature}, acked := d.acked + {t.env.signature},
                  rows := DurableFirstTime(maxEntries, d.rows, w.hash(t.env.signature), t.env.expiresAt, d.clock).0)
  {
    hide RunDesk, DurableFirstTime;
    RunThree(w, maxEntries, d, Show(i), Record(i), Remove);
  }

  lemma FirstAcked(maxEntries: nat, d: Desk) returns (d': Desk)
    requires maxEntries > 0
    requires d == NewDesk(0.0, TwoTasks()).(taken := [ReplyA(), ReplyB()], marks := map[ReplyA() := 0, ReplyB() := 0])
    ensures d' == RunDesk(SampleWorld(), maxEntries, d, [Show(0), Record(0), Remove])
    ensures d' == d.(files := map["b.json" := ReplyB().env], rows := map[TwoHashes("a") := 10], shown := {"a"}, acked := {"a"})
  {
    hide RunDesk, NextDesk, TwoHashes;
    assert Live(map[], 0) == map[];
    Acknowledge(SampleWorld(), maxEntries, d, 0);
    assert TwoTasks() - {"a.json"} == map["b.json" := ReplyB().env];
    d' := RunDesk(SampleWorld(), maxEntries, d, [Show(0), Record(0), Remove]);
  }

  /** A reply delivered to an idle desk, read and found admissible. */
  lemma Returning(w: World, maxEntries: int, d: Desk, t: Taken)
    requires d.hand.Free? && d.listing == [] && Relay.Admissible(w, t.env, d.clock.Floor)
    ensures RunDesk(w, maxEntries, d, [Deliver(t.path, t.env), Scan([t.path]), Examine(true)])
            == d.(files := d.files[t.path := t.env], deliveries := d.deliveries + [(t.path, t.env)], hand := Looking(t),
                  marks := d.marks + map[t := |d.deliveries| + 1])
  {
    hide RunDesk, Relay.Admissible;
    RunThree(w, maxEntries, d, Deliver(t.path, t.env), Scan([t.path]), Examine(true));
    var d1 := NextDesk(w, maxEntries, d, Deliver(t.path, t.env));
    assert [t.path][1..] == [] && ReadAll(d1.files, [t.path]) == [t];
    assert d1.marks + (map x | x in [t] :: |d1.deliveries|) == d.marks + map[t := |d.deliveries| + 1];
    assert [t][1..] == [];
  }

  lemma CameBack(maxEntries: nat, d: Desk)
    requires d == Returned().(files := map["b.json" := ReplyB().env], hand := Free, deliveries := [], marks := map[ReplyA() := 0, ReplyB() := 0])
    ensures RunDesk(SampleWorld(), maxEntries, d, [Deliver("a.json", ReplyA().env), Scan(["a.json"]), Examine(true)]) == Returned()
  {
    hide RunDesk, TwoHashes;
    Returning(SampleWorld(), maxEntries, d, ReplyA());
    assert d.files["a.json" := ReplyA().env] == TwoTasks();
    assert d.marks + map[ReplyA() := 1] == map[ReplyA() := 1, ReplyB() := 0];
    assert d.deliveries + [("a.json", ReplyA().env)] == [("a.json", ReplyA().env)];
  }

  lemma LookedUp(maxEntries: nat, at: real)
    requires at >= 0.0
    ensures RunDesk(SampleWorld(), maxEntries, Returned(), [Pass(at), LookUp])
            == if at.Floor < 10 then Returned().(clock := at, hand := Free, files := map["b.json" := ReplyB().env])
               else Returned().(clock := at, hand := Free, taken := [ReplyA(), ReplyB(), ReplyA()])
  {
    hide RunDesk, TwoHashes;
    RunTwo(SampleWorld(), maxEntries, Returned(), Pass(at), LookUp);
    assert TwoTasks() - {"a.json"} == map["b.json" := ReplyB().env];
  }

  // ----- a reply delivered over another -------------------------------------------------------------------

  /** One reply is read, another delivered over it, and the first taken, shown, acknowledged and unlinked. */
  function OverlayRun(path: string, other: Envelope): seq<DeskStep> {
    [Scan([path]), Deliver(path, other)] + [Examine(true), LookUp] + [Show(0), Record(0), Remove]
  }

  /** Then the other one is gone although it was never shown. */
  lemma OverlaidNeverShown(w: World, maxEntries: nat, path: string, env: Envelope, other: Envelope, clock: real)
    requires maxEntries > 0 && Relay.Admissible(w, env, clock.Floor) && other.signature != env.signature
    ensures var d := RunDesk(w, maxEntries, NewDesk(clock, map[path := env]), OverlayRun(path, other));
            d.files == map[] && d.shown == {env.signature} && d.taken == [Taken(path, env)]
  {
    hide RunDesk, NextDesk, Relay.Admissible;
    var d0, t := NewDesk(clock, map[path := env]), Taken(path, env);
    var d2 := ReadThenOverlaid(w, maxEntries, path, env, other, clock);
    RunTwo(w, maxEntries, d0, Scan([path]), Deliver(path, other));
    assert Live(map[], clock.Floor) == map[] && d2.listing == [t] + [];
    Taking(w, maxEntries, d2, t, []);
    var d4 := d2.(listing := [], taken := [t]);
    Acknowledge(w, maxEntries, d4, 0);
    RunDeskConcat(w, maxEntries, d0, [Scan([path]), Deliver(path, other)], [Examine(true), LookUp]);
    RunDeskConcat(w, maxEntries, d0, [Scan([path]), Deliver(path, other)] + [Examine(true), LookUp], [Show(0), Record(0), Remove]);
    assert map[path := other] - {path} == map[] && {} + {env.signature} == {env.signature} && [] + [t] == [t];
    assert RunDesk(w, maxEntries, d2, [Examine(true), LookUp]) == d4;
    assert OverlayRun(path, other) == [Scan([path]), Deliver(path, other)] + [Examine(true), LookUp] + [Show(0), Record(0), Remove];
  }

  lemma ReadThenOverlaid(w: World, maxEntries: nat, path: string, env: Envelope, other: Envelope, clock: real) returns (d: Desk)
    ensures d == NextDesk(w, maxEntries, NextDesk(w, maxEntries, NewDesk(clock, map[path := env]), Scan([path])), Deliver(path, other))
    ensures d == NewDesk(clock, map[path := env]).(files := map[path := other], listing := [Taken(path, env)],
                                                   deliveries := [(path, other)], marks := map[Taken(path, env) := 0])
  {
    assert [path][1..] == [] && ReadAll(map[path := env], [path]) == [Taken(path, env)];
    d := NextDesk(w, maxEntries, NextDesk(w, maxEntries, NewDesk(clock, map[path := env]), Scan([path])), Deliver(path, other));
  }
}
