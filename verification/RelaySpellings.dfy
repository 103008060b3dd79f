/** One signed task under several texts of its signature: how often the brain runs for the signature itself. */
module RelaySpellings {
  import opened Collections
  import opened Base64
  import opened RelayOutcomes
  import opened Relay

  /** Every signature text is the canonical encoding of some bytes. */
  ghost predicate AllCanonical(texts: seq<string>) { forall i :: 0 <= i < |texts| ==> Decode64(texts[i]).Some? && Spare(texts[i]) == 0 }

  lemma {:induction false} TwoPlaces(log: seq<string>, i: nat, j: nat)
    requires i < j < |log| && log[i] == log[j]
    ensures Times(log, log[i]) >= 2
  {
    var x := log[i];
    assert log == log[..j] + [x] + log[j + 1..];
    assert log[..j] == log[..i] + [x] + log[i + 1..j];
  }

  /** With one clock reading per task and canonical texts the brain runs at most once per signature, not merely per text. */
  lemma AtMostOncePerSigned(w: World, clock: int, inbox: map<string, Envelope>, steps: seq<Step>, i: nat, j: nat)
    requires CollisionFree(w.hash, Occurring(inbox, steps)) && OneReading(w, Start(clock, inbox), steps)
    requires AllCanonical(Run(w, Start(clock, inbox), steps).brainLog)
    requires i < j < |Run(w, Start(clock, inbox), steps).brainLog|
    ensures var log := Run(w, Start(clock, inbox), steps).brainLog; Decode64(log[i]) != Decode64(log[j])
  {
    hide Run, CollisionFree, OneReading, Occurring, Decode64, Spare;
    var log := Run(w, Start(clock, inbox), steps).brainLog;
    AtMostOncePerSignature(w, clock, inbox, steps, log[i]);
    if Decode64(log[i]) == Decode64(log[j]) {
      SpellingsIff(log[i], log[j]);
      TwoPlaces(log, i, j);
    }
  }

  /** The same signed fields under another text of the signature. */
  predicate SameSigned(e: Envelope, f: Envelope) { f == e.(signature := f.signature) && Decode64(e.signature) == Decode64(f.signature) }

  /**
   * The condition is exact for two files of one signed task in one poll: the brain runs for both if and only
   * if the spare bits of their texts differ, and otherwise for one of them.
   */
  lemma BothRunIff(w: World, clock: int, pa: string, e: Envelope, pb: string, f: Envelope, x: Reply, y: Reply)
    requires pa != pb && Admissible(w, e, clock) && Admissible(w, f, clock) && SameSigned(e, f) && Decode64(e.signature).Some?
    requires CollisionFree(w.hash, {e.signature, f.signature})
    requires w.size(x) <= MAX_RELAY_ENVELOPE_BYTES && w.size(y) <= MAX_RELAY_ENVELOPE_BYTES
    ensures var steps := [Poll([pa, pb])] + Undisturbed(x) + Undisturbed(y);
            var log := Run(w, Start(clock, map[pa := e, pb := f]), steps).brainLog;
            if Spare(e.signature) != Spare(f.signature) then log == [e.signature, f.signature] else Times(log, e.signature) <= 1
  {
    hide Run, Decode64, Spare, Admissible, OneReading, Occurring;
    SpellingsIff(e.signature, f.signature);
    if e.signature != f.signature {
      PairServed(w, clock, pa, e, pb, f, x, y);
    } else {
      var steps, inbox := [Poll([pa, pb])] + Undisturbed(x) + Undisturbed(y), map[pa := e, pb := f];
      NoTicks(w, clock, inbox, steps);
      OnlyThose(inbox, steps, e.signature);
      AtMostOncePerSignature(w, clock, inbox, steps, e.signature);
    }
  }

  lemma NoTicks(w: World, clock: int, inbox: map<string, Envelope>, steps: seq<Step>)
    requires forall i :: 0 <= i < |steps| ==> !steps[i].Tick?
    ensures OneReading(w, Start(clock, inbox), steps)
  {}

  lemma OnlyThose(inbox: map<string, Envelope>, steps: seq<Step>, sig: string)
    requires (forall p :: p in inbox ==> inbox[p].signature == sig) && (forall i :: 0 <= i < |steps| ==> !steps[i].Arrive?)
    ensures Occurring(inbox, steps) <= {sig}
  {}
}
