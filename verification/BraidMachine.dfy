/** `transition` between byte strings: three wires in, a candidate and its outputs out. */
module BraidMachine {
  import opened Bytes
  import opened BraidState
  import opened BraidChunks
  import opened Bitmap
  import opened BraidTransition
  import opened BraidWire
  import opened BraidConfirm
  import opened BraidCodec
  import opened BraidReader
  import opened BraidWriter
  import opened BraidWireReader
  import opened BraidWireWriter
  import opened BraidSession

  /** The two confirmation steps filled in for one input and environment. */
  function Wired(c: Crypto, q: Primitives, i: Rvbi1, e: Rvbe1): Crypto {
    c.(sendStep := (p: Prefix, tr: Rvft1, f: Frame, key: Key, epoch: int) => ConfirmSend(q, i, e, p, tr, f, key, epoch),
       recvStep := (p: Prefix, tr: Rvft1, f: Frame, key: Key, epoch: int) => ConfirmReceive(q, i, e, p, tr, f, key, epoch))
  }

  /** What the wires and the caller's material amount to. */
  function Given(i: Rvbi1, e: Rvbe1, keygen: Option<KeygenMaterial>, promote: Option<PromoteMaterial>): Input {
    Input(if i.op == 0 then Send else Receive, i.direction, if i.frame.Some? then DecodeFrame(i.frame.value) else None,
          e.keygenSeed, e.encapsCoins, keygen, promote)
  }

  datatype Outcome = Outcome(
    candidate: bytes, frame: Option<bytes>, header: Option<bytes>, ciphertext: Option<bytes>,
    sendingEpoch: int, receivingEpoch: int, outputEpoch: Option<int>)

  /** An epoch's output key is confirmed by CT1 send and CT2 reception. */
  function OutputEpoch(s: State): Option<int> {
    if s.prefix.agent == HEADER_RECEIVED || s.prefix.agent == EK_SENT_CT1_RECEIVED then Some(s.prefix.agentEpoch) else None
  }

  function OptionalFrame(f: Option<Frame>): Option<Option<bytes>> {
    match f
    case None => Some(None)
    case Some(frame) =>
      var b :- EncodeFrame(frame);
      Some(Some(b))
  }

  function Finished(s: State, a: Accepted): Option<Outcome> {
    var frame :- OptionalFrame(a.frame);
    var candidate :- EncodeRvfb1(a.state);
    Some(Outcome(candidate, frame, if a.sealed.Some? then Some(a.sealed.value.header) else None,
                 if a.sealed.Some? then Some(a.sealed.value.ciphertext) else None,
                 a.state.prefix.sendEpoch, a.state.prefix.recvEpoch, OutputEpoch(s)))
  }

  /** `transition`, with its three canonicality tests. */
  function Transition(c: Crypto, q: Primitives, data: bytes, input: bytes, env: bytes,
                      keygen: Option<KeygenMaterial>, promote: Option<PromoteMaterial>): Option<Outcome> {
    hide EncodeRvfb1, DecodeRvfb1, EncodeInput, DecodeInput, EncodeEnv, DecodeEnv, Accept, Finished;
    var s :- DecodeRvfb1(data);
    var i :- DecodeInput(input);
    var e :- DecodeEnv(env);
    if EncodeRvfb1(s) != Some(data) || EncodeInput(i) != Some(input) || EncodeEnv(e) != Some(env) then None
    else
      var a :- Accept(Wired(c, q, i, e), s, Given(i, e, keygen, promote));
      Finished(s, a)
  }

  // ----- exactly when a transition succeeds ---------------------------------------------------------

  lemma WriteAccepted(c: Crypto, s: State, inp: Input)
    requires ValidState(s) && Encodable(s) && Accept(c, s, inp).Some?
    ensures var a := Accept(c, s, inp).value;
            && (a.frame.Some? ==> FrameFits(a.frame.value) && 0 <= a.frame.value.chunkType < 256)
            && (Finished(s, a).Some? <==> EpochRoom(s, a.state))
            && (Finished(s, a).Some? ==>
                  && DecodeRvfb1(Finished(s, a).value.candidate) == Some(a.state)
                  && (if a.frame.Some? then Finished(s, a).value.frame.Some? && DecodeFrame(Finished(s, a).value.frame.value) == a.frame
                      else Finished(s, a).value.frame.None?))
  {
    hide Accept, ValidState, Encodable, DecodeRvfb1, EncodeFrame, DecodeFrame, FrameFits, EpochRoom;
    var a := Accept(c, s, inp).value;
    CandidateValid(c, s, inp);
    EncodesWhen(a.state);
    if a.frame.Some? {
      SentFrameFits(c, s, inp);
      FrameFitsEncodes(a.frame.value);
    }
    if EncodeRvfb1(a.state).Some? {
      Rvfb1Inverse(a.state, EncodeRvfb1(a.state).value);
    }
  }

  lemma EncodesWhen(s: State)
    requires ValidState(s)
    ensures EncodeRvfb1(s).Some? <==> Encodable(s)
  {
    hide ValidState, Encodable, PutRvfb1;
  }

  lemma FrameFitsEncodes(f: Frame)
    requires FrameFits(f) && 0 <= f.chunkType < 256
    ensures EncodeFrame(f).Some? && DecodeFrame(EncodeFrame(f).value) == Some(f)
  {
    hide FrameFits, PutFrame, DecodeFrame;
    FrameInverse(f, PutFrame(f));
  }

  lemma SentFrameFits(c: Crypto, s: State, inp: Input)
    requires ValidState(s) && Encodable(s) && Accept(c, s, inp).Some? && Accept(c, s, inp).value.frame.Some?
    ensures FrameFits(Accept(c, s, inp).value.frame.value) && 0 <= Accept(c, s, inp).value.frame.value.chunkType < 256
  {
    hide ValidState, Confirmed, TlvOfLength, InboundFits, ObjectFits, ReplayFits, TlvFits, ActiveFits, Fits;
    Widths();
    SmallNumbersFit(0);
    assert Fits(s.prefix.agentEpoch, 8);
  }

  /**
   * The tests on the state and on the environment never fire on what decodes, the test on the input fires
   * exactly when a chain header's direction is neither 0 nor 1, and writing the candidate fails exactly
   * when an epoch it mentions does not exist. What is written decodes back to candidate and frame.
   */
  lemma TransitionIff(c: Crypto, q: Primitives, data: bytes, input: bytes, env: bytes,
                      keygen: Option<KeygenMaterial>, promote: Option<PromoteMaterial>)
    requires DecodeRvfb1(data).Some? && DecodeInput(input).Some? && DecodeEnv(env).Some?
    ensures var (s, i, e) := (DecodeRvfb1(data).value, DecodeInput(input).value, DecodeEnv(env).value);
            var a := Accept(Wired(c, q, i, e), s, Given(i, e, keygen, promote));
            var r := Transition(c, q, data, input, env, keygen, promote);
            && (r.Some? <==> DirectionsOk(i) && a.Some? && EpochRoom(s, a.value.state))
            && (r.Some? ==>
                  && DecodeRvfb1(r.value.candidate) == Some(a.value.state)
                  && (if a.value.frame.Some? then r.value.frame.Some? && DecodeFrame(r.value.frame.value) == a.value.frame else r.value.frame.None?))
  {
    hide DecodeInput, EncodeInput, DecodeEnv, EncodeEnv, DecodeFrame, Accept, Finished, EpochRoom, DirectionsOk, ReadRvfb1, PutRvfb1, ValidState, Encodable;
    var s, i, e := DecodeRvfb1(data).value, DecodeInput(input).value, DecodeEnv(env).value;
    Rvfb1Inverse(s, data);
    InputCanonicalIff(input);
    EnvCanonical(env);
    if Accept(Wired(c, q, i, e), s, Given(i, e, keygen, promote)).Some? {
      WriteAccepted(Wired(c, q, i, e), s, Given(i, e, keygen, promote));
    }
  }

  // ----- from one party to the other ------------------------------------------------------------------

  /** A peer waiting for the header of the epoch in which `s` publishes one. */
  predicate AwaitsHeader(s: State, t: State) {
    && t.prefix.agent == NO_HEADER_RECEIVED && t.prefix.pendingPhase == 0
    && t.prefix.sessionId == s.prefix.sessionId && t.prefix.agentEpoch == s.prefix.agentEpoch && t.prefix.role == 1 - s.prefix.role
    && |t.inbound| == 1 && t.inbound[0].sourceKind == KIND_HDR && t.inbound[0].chunks == []
  }

  lemma PublishedFrame(c: Crypto, s: State, inp: Input)
    requires Accept(c, s, inp).Some? && inp.op.Send? && s.prefix.agent == KEYS_UNSAMPLED
    ensures inp.keygen.Some? && KeygenOk(inp.keygen.value) && s.prefix.pendingPhase == 0 && RoleModeOk(s.prefix.role, Send, inp.direction)
    ensures Accept(c, s, inp).value.frame.Some? && Accept(c, s, inp).value.state.prefix.agentEpoch == s.prefix.agentEpoch
    ensures var f := Accept(c, s, inp).value.frame.value;
            && BindingOk(c, f, inp.direction, s.prefix.sessionId) && ChunkContract(f)
            && f.epoch == s.prefix.agentEpoch && f.chunkType == WIRE_HDR && f.index == 0 && f.payload == inp.keygen.value.header[..32]
  {
    var header := inp.keygen.value.header;
    assert (header + c.macHdr(s.prefix.authMacKey, s.prefix.agentEpoch, header))[0 * CW..1 * CW] == header[..32];
  }

  lemma AwaitedFrame(c: Crypto, t: State, inp: Input, f: Frame)
    requires inp.op.Receive? && inp.frame == Some(f) && RoleModeOk(t.prefix.role, Receive, inp.direction)
    requires t.prefix.agent == NO_HEADER_RECEIVED && t.prefix.pendingPhase == 0
    requires |t.inbound| == 1 && t.inbound[0].sourceKind == KIND_HDR && t.inbound[0].chunks == [] && |t.inbound[0].bitmap| == 8
    requires BindingOk(c, f, inp.direction, t.prefix.sessionId) && ChunkContract(f)
    requires f.epoch == t.prefix.agentEpoch && f.chunkType == WIRE_HDR && f.index == 0
    ensures Accept(c, t, inp).Some?
    ensures var t' := Accept(c, t, inp).value.state;
            && t'.prefix.agentEpoch == t.prefix.agentEpoch
            && t'.inbound == [t.inbound[0].(bitmap := SetBit(t.inbound[0].bitmap, 0), chunks := [InboundChunk(0, f.payload)])]
  {
    hide SetBit;
  }

  lemma BitmapLength(t: State)
    requires ValidState(t) && |t.inbound| == 1
    ensures |t.inbound[0].bitmap| == 8
  {
    hide TlvsOk, StrictlySorted;
  }

  /**
   * Whatever header frame one party's transition writes, the other party's transition accepts in any
   * canonical receive input of that direction, and stores the first half of the header as chunk 0.
   */
  lemma HeaderCrosses(c: Crypto, q: Primitives, data: bytes, input: bytes, env: bytes, keygen: Option<KeygenMaterial>, promote: Option<PromoteMaterial>,
                      data': bytes, input': bytes, env': bytes)
    requires Transition(c, q, data, input, env, keygen, promote).Some?
    requires DecodeRvfb1(data').Some? && DecodeInput(input').Some? && DecodeEnv(env').Some?
    requires DecodeRvfb1(data).Some? && DecodeInput(input).Some?
    requires DecodeInput(input).value.op == 0 && DecodeRvfb1(data).value.prefix.agent == KEYS_UNSAMPLED
    requires AwaitsHeader(DecodeRvfb1(data).value, DecodeRvfb1(data').value)
    requires var i' := DecodeInput(input').value;
             && i'.op == OP_RECEIVE && i'.direction == DecodeInput(input).value.direction && DirectionsOk(i')
             && i'.frame.Some? && i'.frame == Transition(c, q, data, input, env, keygen, promote).value.frame
    ensures var r := Transition(c, q, data', input', env', None, None);
            && r.Some? && DecodeRvfb1(r.value.candidate).Some? && keygen.Some? && KeygenOk(keygen.value)
            && |DecodeRvfb1(r.value.candidate).value.inbound| == 1
            && DecodeRvfb1(r.value.candidate).value.inbound[0].chunks == [InboundChunk(0, keygen.value.header[..32])]
  {
    hide DecodeRvfb1, DecodeInput, DecodeEnv, DecodeFrame, Transition, Accept, DirectionsOk, Wired, ChunkContract, BindingOk, SetBit;
    TransitionDecodes(c, q, data, input, env, keygen, promote);
    var s, i, e := DecodeRvfb1(data).value, DecodeInput(input).value, DecodeEnv(env).value;
    TransitionIff(c, q, data, input, env, keygen, promote);
    PublishedFrame(Wired(c, q, i, e), s, Given(i, e, keygen, promote));
    var f := Accept(Wired(c, q, i, e), s, Given(i, e, keygen, promote)).value.frame.value;
    var t, j, e' := DecodeRvfb1(data').value, DecodeInput(input').value, DecodeEnv(env').value;
    DecodedValid(data');
    BitmapLength(t);
    SameBinding(c, q, i, e, j, e', f, i.direction, s.prefix.sessionId);
    AwaitedFrame(Wired(c, q, j, e'), t, Given(j, e', None, None), f);
    TransitionIff(c, q, data', input', env', None, None);
  }

  lemma TransitionDecodes(c: Crypto, q: Primitives, data: bytes, input: bytes, env: bytes, keygen: Option<KeygenMaterial>, promote: Option<PromoteMaterial>)
    requires Transition(c, q, data, input, env, keygen, promote).Some?
    ensures DecodeRvfb1(data).Some? && DecodeInput(input).Some? && DecodeEnv(env).Some?
  {
    hide DecodeRvfb1, DecodeInput, DecodeEnv, EncodeRvfb1, EncodeInput, EncodeEnv, Accept, Finished;
  }

  lemma DecodedValid(data: bytes)
    requires DecodeRvfb1(data).Some?
    ensures ValidState(DecodeRvfb1(data).value)
  {
    hide ReadRvfb1, ValidState;
  }

  lemma SameBinding(c: Crypto, q: Primitives, i: Rvbi1, e: Rvbe1, i': Rvbi1, e': Rvbe1, f: Frame, direction: int, sessionId: bytes)
    ensures BindingOk(Wired(c, q, i, e), f, direction, sessionId) == BindingOk(Wired(c, q, i', e'), f, direction, sessionId)
  {}

  // ----- the transition as the source performs it ----------------------------------------------------------

  /** `transition`: decode, test, copy, change the copy in place, encode. */
  method TransitionBytes(c: Crypto, q: Primitives, data: bytes, input: bytes, env: bytes,
                         keygen: Option<KeygenMaterial>, promote: Option<PromoteMaterial>) returns (r: Option<Outcome>)
    ensures r == Transition(c, q, data, input, env, keygen, promote)
  {
    hide EncodeRvfb1, DecodeRvfb1, EncodeInput, DecodeInput, EncodeEnv, DecodeEnv, DecodeFrame, Wired;
    hide KeySend, Ct1Send, HeaderReceive, Ct2Receive, ChunkContract, BindingOk, RoleModeOk;
    var before :- DecodeRvfb1Bytes(data);
    var again := EncodeRvfb1State(before);
    if again != Some(data) || before.prefix.pendingPhase != 0 {
      RefusedEarly(c, q, data, input, env, keygen, promote);
      return None;
    }
    var i :- DecodeInputBytes(input);
    again := EncodeInputBytes(i);
    if again != Some(input) {
      return None;
    }
    var e :- DecodeEnvBytes(env);
    again := EncodeEnvBytes(e);
    if again != Some(env) {
      return None;
    }
    InputOps(input);
    var op := if i.op == 0 then Send else Receive;
    if !RoleModeOk(before.prefix.role, op, i.direction) {
      return None;
    }
    var wired := Wired(c, q, i, e);
    var session := new Session(before);
    var frame, sealed := None, None;
    if i.op == 0 {
      if session.prefix.agent == KEYS_UNSAMPLED {
        if keygen.None? || |e.keygenSeed| != 64 {
          return None;
        }
        frame := session.ApplyKeysUnsampledSend(wired, keygen.value, i.direction);
        if frame.None? {
          return None;
        }
      } else {
        if promote.None? {
          return None;
        }
        var sent := session.ApplyHeaderReceivedSend(wired, promote.value, e.encapsCoins, i.direction);
        if sent.None? {
          return None;
        }
        frame, sealed := Some(sent.value.0), Some(sent.value.1);
      }
    } else {
      var f := DecodeFrameBytes(i.frame.value);
      if f.None? || !BindingOk(wired, f.value, i.direction, before.prefix.sessionId) || !ChunkContract(f.value) {
        return None;
      }
      if session.prefix.agent == NO_HEADER_RECEIVED {
        var ok := session.ApplyHdrReceive(f.value);
        if !ok {
          return None;
        }
      } else {
        if promote.None? {
          return None;
        }
        var epoch := session.ApplyEkSentCt1ReceivedReceive(wired, f.value, promote.value, i.direction);
        if epoch.None? {
          return None;
        }
      }
    }
    var after := session.View();
    assert Accept(wired, before, Given(i, e, keygen, promote)) == Some(Accepted(after, frame, sealed));
    var frameBytes := None;
    if frame.Some? {
      frameBytes := EncodeFrame(frame.value);
      if frameBytes.None? {
        return None;
      }
    }
    var candidate :- EncodeRvfb1State(after);
    return Some(Outcome(candidate, frameBytes, if sealed.Some? then Some(sealed.value.header) else None,
                        if sealed.Some? then Some(sealed.value.ciphertext) else None,
                        after.prefix.sendEpoch, after.prefix.recvEpoch, OutputEpoch(before)));
  }

  lemma InputOps(input: bytes)
    requires DecodeInput(input).Some?
    ensures var i := DecodeInput(input).value; i.op <= OP_RECEIVE && (i.op == OP_RECEIVE ==> i.frame.Some?)
  {
    hide GetInput, MutationOk;
  }

  lemma RefusedEarly(c: Crypto, q: Primitives, data: bytes, input: bytes, env: bytes,
                     keygen: Option<KeygenMaterial>, promote: Option<PromoteMaterial>)
    requires DecodeRvfb1(data).Some? && (EncodeRvfb1(DecodeRvfb1(data).value) != Some(data) || DecodeRvfb1(data).value.prefix.pendingPhase != 0)
    ensures Transition(c, q, data, input, env, keygen, promote) == None
  {
    hide EncodeRvfb1, DecodeRvfb1, EncodeInput, DecodeInput, EncodeEnv, DecodeEnv, Wired, Given;
  }
}
