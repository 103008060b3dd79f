/** The two-party epoch ratchet: roots promoted per epoch, one chain per direction. */
module EpochRatchet {
  import opened Bytes
  import opened SymmetricRatchet

  datatype Epochs = Epochs(
    rk: Key, ckSend: Key, ckRecv: Key,
    sendingEpoch: nat, receivingEpoch: nat, sendCtr: nat, recvCtr: nat)

  /** The key derivations, as arbitrary functions. */
  datatype Kdfs = Kdfs(
    init: Key -> (Key, Key, Key),     // the three 32-byte parts of the initial expansion
    root: (Key, Key) -> (Key, Key),   // next root and chain key
    chain: Kdf)

  function ZeroKey(): Key { ZeroBytes(32) }

  function FromInit(k: Kdfs, alice: bool, sk: Key): Epochs {
    var (rk, first, second) := k.init(sk);
    if alice then Epochs(rk, first, second, 0, 0, 0, 0) else Epochs(rk, second, first, 0, 0, 0, 0)
  }

  /** `kdf_scka_rk`: refuses the all-zero secret. */
  function RootStep(k: Kdfs, rk: Key, ss: Key): Option<(Key, Key)> {
    if ss == ZeroKey() then None else Some(k.root(rk, ss))
  }

  function PromoteInitiator(k: Kdfs, st: Epochs, ss: Key): Option<Epochs> {
    var (rk, ck) :- RootStep(k, st.rk, ss);
    Some(st.(rk := rk, ckSend := ck, sendingEpoch := st.sendingEpoch + 1, sendCtr := 0))
  }

  function PromoteResponder(k: Kdfs, st: Epochs, ss: Key): Option<Epochs> {
    var (rk, ck) :- RootStep(k, st.rk, ss);
    Some(st.(rk := rk, ckRecv := ck, receivingEpoch := st.receivingEpoch + 1, recvCtr := 0))
  }

  function NextSendMk(k: Kdfs, st: Epochs): (Epochs, Key) {
    var (ck, mk) := k.chain(st.ckSend);
    (st.(ckSend := ck, sendCtr := st.sendCtr + 1), mk)
  }

  function NextRecvMk(k: Kdfs, st: Epochs): (Epochs, Key) {
    var (ck, mk) := k.chain(st.ckRecv);
    (st.(ckRecv := ck, recvCtr := st.recvCtr + 1), mk)
  }

  // ----- two parties in lockstep ------------------------------------------------------

  datatype Party = Alice | Bob
  datatype Step = Promote(who: Party, ss: Key) | Message(who: Party)

  /** Both states, and per message the key the sender used and the key the receiver derived. */
  datatype Pair = Pair(alice: Epochs, bob: Epochs, keys: seq<(Key, Key)>)

  function Start(k: Kdfs, sk: Key): Pair { Pair(FromInit(k, true, sk), FromInit(k, false, sk), []) }

  /** The party `step.who` acts and the other one answers; a refused step changes nothing. */
  function Act(k: Kdfs, mine: Epochs, theirs: Epochs, step: Step): (Epochs, Epochs, seq<(Key, Key)>) {
    match step
    case Promote(_, ss) =>
      var i, r := PromoteInitiator(k, mine, ss), PromoteResponder(k, theirs, ss);
      (if i.Some? then i.value else mine, if r.Some? then r.value else theirs, [])
    case Message(_) =>
      var (s1, sent) := NextSendMk(k, mine);
      var (r1, got) := NextRecvMk(k, theirs);
      (s1, r1, [(sent, got)])
  }

  function Apply(k: Kdfs, p: Pair, step: Step): Pair {
    if step.who == Alice then
      var (a, b, ks) := Act(k, p.alice, p.bob, step);
      Pair(a, b, p.keys + ks)
    else
      var (b, a, ks) := Act(k, p.bob, p.alice, step);
      Pair(a, b, p.keys + ks)
  }

  function Run(k: Kdfs, p: Pair, steps: seq<Step>): Pair {
    if steps == [] then p else Apply(k, Run(k, p, steps[..|steps| - 1]), steps[|steps| - 1])
  }

  function MessagesBy(steps: seq<Step>, who: Party): nat {
    if steps == [] then 0
    else
      MessagesBy(steps[..|steps| - 1], who)
      + if steps[|steps| - 1] == Message(who) then 1 else 0
  }

  predicate Mirrors(a: Epochs, b: Epochs) {
    && a.rk == b.rk
    && a.ckSend == b.ckRecv && a.ckRecv == b.ckSend
    && a.sendingEpoch == b.receivingEpoch && a.receivingEpoch == b.sendingEpoch
    && a.sendCtr == b.recvCtr && a.recvCtr == b.sendCtr
  }

  /** After any lockstep run the parties mirror each other and every message key matched. */
  lemma {:induction false} LockstepAgrees(k: Kdfs, sk: Key, steps: seq<Step>)
    ensures var p := Run(k, Start(k, sk), steps);
            && Mirrors(p.alice, p.bob)
            && |p.keys| == MessagesBy(steps, Alice) + MessagesBy(steps, Bob)
            && (forall i :: 0 <= i < |p.keys| ==> p.keys[i].0 == p.keys[i].1)
  {
    if steps != [] {
      LockstepAgrees(k, sk, steps[..|steps| - 1]);
    }
  }

  predicate Accepted(step: Step, who: Party) { step.Promote? && step.who == who && step.ss != ZeroKey() }

  /** Accepted promotions by a party. */
  function PromotionsBy(steps: seq<Step>, who: Party): nat {
    if steps == [] then 0
    else PromotionsBy(steps[..|steps| - 1], who) + if Accepted(steps[|steps| - 1], who) then 1 else 0
  }

  /** Messages by a party since its last accepted promotion. */
  function SincePromotion(steps: seq<Step>, who: Party): nat {
    if steps == [] || Accepted(steps[|steps| - 1], who) then 0
    else SincePromotion(steps[..|steps| - 1], who) + if steps[|steps| - 1] == Message(who) then 1 else 0
  }

  /** The chain key a party last installed for sending: from the start, or by its last accepted promotion. */
  function Installed(k: Kdfs, sk: Key, steps: seq<Step>, who: Party): Key {
    if steps == [] then (if who == Alice then k.init(sk).1 else k.init(sk).2)
    else
      var front, last := steps[..|steps| - 1], steps[|steps| - 1];
      if Accepted(last, who) then k.root(Root(k, sk, front), last.ss).1 else Installed(k, sk, front, who)
  }

  /** The root after every accepted promotion of either party. */
  function Root(k: Kdfs, sk: Key, steps: seq<Step>): Key {
    if steps == [] then k.init(sk).0
    else
      var front, last := steps[..|steps| - 1], steps[|steps| - 1];
      if Accepted(last, Alice) || Accepted(last, Bob) then k.root(Root(k, sk, front), last.ss).0 else Root(k, sk, front)
  }

  /** Epochs count promotions, counters restart with each, and a chain is its installed key advanced by its counter. */
  ghost predicate StateOf(k: Kdfs, sk: Key, steps: seq<Step>, who: Party, e: Epochs) {
    && e.rk == Root(k, sk, steps)
    && e.sendingEpoch == PromotionsBy(steps, who)
    && e.sendCtr == SincePromotion(steps, who)
    && e.ckSend == Chain(k.chain, Installed(k, sk, steps, who), e.sendCtr)
  }

  /** The acting party's next state. */
  lemma ActorState(k: Kdfs, sk: Key, steps: seq<Step>, mine: Epochs, theirs: Epochs)
    requires steps != [] && var last := steps[|steps| - 1]; StateOf(k, sk, steps[..|steps| - 1], last.who, mine)
    ensures StateOf(k, sk, steps, steps[|steps| - 1].who, Act(k, mine, theirs, steps[|steps| - 1]).0)
  {}

  /** The other party follows the root and keeps its own sending chain. */
  lemma OtherState(k: Kdfs, sk: Key, steps: seq<Step>, who: Party, mine: Epochs, theirs: Epochs)
    requires steps != [] && who != steps[|steps| - 1].who && StateOf(k, sk, steps[..|steps| - 1], who, theirs)
    requires mine.rk == theirs.rk
    ensures StateOf(k, sk, steps, who, Act(k, mine, theirs, steps[|steps| - 1]).1)
  {}

  lemma {:induction false} LockstepState(k: Kdfs, sk: Key, steps: seq<Step>)
    ensures var p := Run(k, Start(k, sk), steps);
            StateOf(k, sk, steps, Alice, p.alice) && StateOf(k, sk, steps, Bob, p.bob)
  {
    hide StateOf, Act;
    if steps == [] {
      StartState(k, sk);
    } else {
      var front, last := steps[..|steps| - 1], steps[|steps| - 1];
      var p := Run(k, Start(k, sk), front);
      LockstepState(k, sk, front);
      LockstepAgrees(k, sk, front);
      if last.who == Alice {
        ActorState(k, sk, steps, p.alice, p.bob);
        OtherState(k, sk, steps, Bob, p.alice, p.bob);
      } else {
        ActorState(k, sk, steps, p.bob, p.alice);
        OtherState(k, sk, steps, Alice, p.bob, p.alice);
      }
    }
  }

  lemma StartState(k: Kdfs, sk: Key)
    ensures StateOf(k, sk, [], Alice, Start(k, sk).alice) && StateOf(k, sk, [], Bob, Start(k, sk).bob)
  {}

  /**
   * A promotion by one side touches neither the other direction's chain nor its counter,
   * so messages of that direction derive the same key whether sent before or after it.
   */
  lemma PromotionCommutesWithReply(k: Kdfs, p: Pair, ss: Key)
    ensures Run(k, p, [Promote(Alice, ss), Message(Bob)]) == Run(k, p, [Message(Bob), Promote(Alice, ss)])
    ensures Run(k, p, [Promote(Bob, ss), Message(Alice)]) == Run(k, p, [Message(Alice), Promote(Bob, ss)])
  {
    hide Run;
    RunTwo(k, p, Promote(Alice, ss), Message(Bob));
    RunTwo(k, p, Message(Bob), Promote(Alice, ss));
    RunTwo(k, p, Promote(Bob, ss), Message(Alice));
    RunTwo(k, p, Message(Alice), Promote(Bob, ss));
  }

  lemma RunTwo(k: Kdfs, p: Pair, x: Step, y: Step)
    ensures Run(k, p, [x, y]) == Apply(k, Apply(k, p, x), y)
  {
    assert [x, y][..1] == [x] && [x][..0] == [];
    assert Run(k, p, [x]) == Apply(k, Run(k, p, []), x);
  }
}
