/** Preparing, promoting and clearing a candidate: three encodings of one step. */
module BraidPipeline {
  import opened Bytes
  import opened ByteOrder
  import opened Sorting
  import opened BraidState
  import opened BraidCodec

  /** `flags & ~1` and `flags | 1` on a non-negative flag word. */
  function ClearAwaiting(flags: int): int { flags - flags % 2 }
  function SetAwaiting(flags: int): int { flags - flags % 2 + 1 }

  predicate LeReplay(a: ReplayRecord, b: ReplayRecord) { LeBytes(a.transitionId, b.transitionId) }

  /** The digests of one step. */
  datatype Digests = Digests(transitionId: Hash, before: Hash, output: Hash, execution: Hash)

  /** `_prepare_candidate`, up to its encoding. */
  function Prepared(s: State, d: Digests, outputLen: nat, metaFlags: int): State {
    s.(replays := Sort(LeReplay, s.replays + [ReplayRecord(d.transitionId, d.execution, d.output, outputLen, metaFlags)]),
       prefix := s.prefix.(flags := ClearAwaiting(s.prefix.flags), pendingPhase := 1,
                           pendingTransitionId := d.transitionId, pendingBeforeDigest := d.before,
                           pendingOutputDigest := d.output, pendingExecutionDigest := d.execution))
  }

  /** `_promoted_and_cleared` */
  function Promoted(s: State): State {
    s.(prefix := s.prefix.(pendingPhase := 2, flags := SetAwaiting(s.prefix.flags)))
  }

  function Cleared(s: State): State {
    s.(prefix := s.prefix.(pendingPhase := 0, pendingTransitionId := ZeroBytes(32), pendingBeforeDigest := ZeroBytes(32),
                           pendingOutputDigest := ZeroBytes(32), pendingExecutionDigest := ZeroBytes(32),
                           flags := ClearAwaiting(s.prefix.flags), generation := s.prefix.generation + 1))
  }

  // ----- the order of transition identifiers --------------------------------------------------

  lemma LeReplayIs(a: ReplayRecord, b: ReplayRecord)
    ensures LeReplay(a, b) <==> LeBytes(a.transitionId, b.transitionId)
    ensures LtReplay(a, b) <==> !LeReplay(b, a)
  {}

  lemma ReplayOrder()
    ensures TotalOrder(LeReplay)
  {
    hide LeReplay, LeBytes;
    forall a: ReplayRecord, b: ReplayRecord ensures LeReplay(a, b) || LeReplay(b, a) {
      LeReplayIs(a, b);
      LeReplayIs(b, a);
      LeBytesOrder(a.transitionId, b.transitionId, []);
    }
    forall a: ReplayRecord, b: ReplayRecord, c: ReplayRecord | LeReplay(a, b) && LeReplay(b, c) ensures LeReplay(a, c) {
      LeReplayIs(a, b);
      LeReplayIs(b, c);
      LeReplayIs(a, c);
      LeBytesOrder(a.transitionId, b.transitionId, c.transitionId);
    }
  }

  /** Neighbours that increase make the whole list strictly increasing, and conversely. */
  lemma {:induction false} SortedIsStrict(s: seq<ReplayRecord>)
    ensures StrictlySorted(LtReplay, s) <==> Strict(LeReplay, s)
  {
    hide LeReplay, LtReplay;
    if StrictlySorted(LtReplay, s) {
      forall i, j | 0 <= i < j < |s| ensures LeReplay(s[i], s[j]) && !LeReplay(s[j], s[i]) { StrictChain(s, i, j); }
    }
    if Strict(LeReplay, s) {
      forall i | 0 <= i < |s| - 1 ensures LtReplay(s[i], s[i + 1]) { LeReplayIs(s[i], s[i + 1]); }
    }
  }

  lemma {:induction false} StrictChain(s: seq<ReplayRecord>, i: nat, j: nat)
    requires StrictlySorted(LtReplay, s) && i < j < |s|
    ensures LeReplay(s[i], s[j]) && !LeReplay(s[j], s[i])
    decreases j
  {
    hide LeReplay, LtReplay, LeBytes;
    assert LtReplay(s[j - 1], s[j]);
    LeReplayIs(s[j - 1], s[j]);
    LeReplayIs(s[j], s[j - 1]);
    LeBytesOrder(s[j - 1].transitionId, s[j].transitionId, []);
    if i < j - 1 {
      StrictChain(s, i, j - 1);
      LeReplayIs(s[i], s[j - 1]);
      LeReplayIs(s[j - 1], s[i]);
      LeReplayIs(s[i], s[j]);
      LeReplayIs(s[j], s[i]);
      LeBytesOrder(s[i].transitionId, s[j - 1].transitionId, s[j].transitionId);
      LeBytesOrder(s[j].transitionId, s[i].transitionId, s[j - 1].transitionId);
    }
  }

  ghost predicate HasId(s: seq<ReplayRecord>, id: bytes) { exists i :: 0 <= i < |s| && s[i].transitionId == id }

  /** A fresh record sorts in; a known identifier leaves two equal keys. */
  lemma SortedInIff(s: seq<ReplayRecord>, r: ReplayRecord)
    requires StrictlySorted(LtReplay, s)
    ensures StrictlySorted(LtReplay, Sort(LeReplay, s + [r])) <==> !HasId(s, r.transitionId)
  {
    hide StrictlySorted, LeReplay, Sort, TotalOrder, Strict;
    SortedIsStrict(s);
    SortedIsStrict(Sort(LeReplay, s + [r]));
    ReplayOrder();
    if HasId(s, r.transitionId) {
      TwinsNotStrict(s, r);
    } else {
      FreshDistinct(s, r);
      SortStrict(LeReplay, s + [r]);
    }
  }

  lemma FreshDistinct(s: seq<ReplayRecord>, r: ReplayRecord)
    requires Strict(LeReplay, s) && !HasId(s, r.transitionId)
    ensures DistinctKeys(LeReplay, s + [r])
  {
    hide LeReplay, LeBytes;
    var t := s + [r];
    forall i, j | 0 <= i < j < |t| ensures !(LeReplay(t[i], t[j]) && LeReplay(t[j], t[i])) {
      if j == |s| {
        LeReplayIs(t[i], t[j]);
        LeReplayIs(t[j], t[i]);
        LeBytesOrder(t[i].transitionId, t[j].transitionId, []);
        assert s[i].transitionId != r.transitionId;
      } else {
        assert LeReplay(s[i], s[j]) && !LeReplay(s[j], s[i]);
      }
    }
  }

  lemma TwinsNotStrict(s: seq<ReplayRecord>, r: ReplayRecord)
    requires HasId(s, r.transitionId)
    ensures !Strict(LeReplay, Sort(LeReplay, s + [r]))
  {
    hide LeReplay, LeBytes, Sort;
    var t := s + [r];
    var u := Sort(LeReplay, t);
    SortMultiset(LeReplay, t);
    var i :| 0 <= i < |s| && s[i].transitionId == r.transitionId;
    assert t[i] == s[i] && t[|s|] == r;
    var p, q := TwoPositions(u, t, i, |s|);
    LeReplayIs(u[q], u[p]);
    LeBytesOrder(u[q].transitionId, u[q].transitionId, []);
    assert LeReplay(u[q], u[p]);
  }

  // ----- encodability ----------------------------------------------------------------------------

  lemma FlagsFit(flags: int)
    requires Fits(flags, 4)
    ensures Fits(ClearAwaiting(flags), 4) && Fits(SetAwaiting(flags), 4)
    ensures ClearAwaiting(SetAwaiting(flags)) == ClearAwaiting(flags) && ClearAwaiting(ClearAwaiting(flags)) == ClearAwaiting(flags)
  {
    Widths();
  }

  lemma PhaseFits()
    ensures Fits(0, 1) && Fits(1, 1) && Fits(2, 1)
  {
    Widths();
  }

  lemma ReplaysFit(s: seq<ReplayRecord>, r: ReplayRecord)
    requires ReplayFits(r) && forall i :: 0 <= i < |s| ==> ReplayFits(s[i])
    ensures var t := Sort(LeReplay, s + [r]); |t| == |s| + 1 && forall i :: 0 <= i < |t| ==> ReplayFits(t[i])
  {
    hide Sort, ReplayFits, LeReplay;
    SortMultiset(LeReplay, s + [r]);
    var t := Sort(LeReplay, s + [r]);
    forall i | 0 <= i < |t| ensures ReplayFits(t[i]) {
      assert t[i] in multiset(s + [r]);
      assert t[i] in s || t[i] == r;
    }
  }

  lemma ReplayCountFits(n: nat)
    ensures n <= 65 ==> Fits(n, 2)
  {
    Widths();
  }

  /** A valid candidate can be prepared exactly while there is room and its transition is new. */
  lemma PreparedEncodesIff(s: State, d: Digests, outputLen: nat, metaFlags: int)
    requires ValidState(s) && Encodable(s) && Fits(outputLen, 4) && Fits(metaFlags, 2)
    ensures EncodeRvfb1(Prepared(s, d, outputLen, metaFlags)).Some? <==>
              |s.replays| < MAX_REPLAYS && !HasId(s.replays, d.transitionId)
  {
    hide Sort, Fits, StrictlySorted, InboundOk, InboundFits, ObjectFits, ReplayFits, TlvFits, ActiveOk, ActiveFits, TlvsOk, PutRvfb1, ClearAwaiting, HasId, LeReplay;
    var r := ReplayRecord(d.transitionId, d.execution, d.output, outputLen, metaFlags);
    NewReplayFits(d, outputLen, metaFlags);
    ReplaysFit(s.replays, r);
    SortedInIff(s.replays, r);
    FlagsFit(s.prefix.flags);
    PhaseFits();
    ReplayCountFits(|s.replays| + 1);
    FitsMeansLengths(Sort(LeReplay, s.replays + [r]));
  }

  lemma NewReplayFits(d: Digests, outputLen: nat, metaFlags: int)
    requires Fits(outputLen, 4) && Fits(metaFlags, 2)
    ensures ReplayFits(ReplayRecord(d.transitionId, d.execution, d.output, outputLen, metaFlags))
  {}

  lemma FitsMeansLengths(t: seq<ReplayRecord>)
    requires forall i :: 0 <= i < |t| ==> ReplayFits(t[i])
    ensures forall i :: 0 <= i < |t| ==> |t[i].transitionId| == 32 && |t[i].executionDigest| == 32 && |t[i].outputDigest| == 32
  {
    hide Fits;
  }

  /** Once prepared, promotion always encodes, and clearing does unless the generation counter is full. */
  lemma PromotedAndClearedEncode(s: State)
    requires EncodeRvfb1(s).Some?
    ensures EncodeRvfb1(Promoted(s)).Some?
    ensures EncodeRvfb1(Cleared(Promoted(s))).Some? <==> s.prefix.generation + 1 < 0x1_0000_0000_0000_0000
  {
    hide Fits, StrictlySorted, InboundOk, InboundFits, ObjectFits, ReplayFits, TlvFits, ActiveOk, ActiveFits, TlvsOk, PutRvfb1, ClearAwaiting, SetAwaiting;
    FlagsFit(s.prefix.flags);
    FlagsFit(SetAwaiting(s.prefix.flags));
    PhaseFits();
    GenerationFits(s.prefix.generation);
  }

  lemma GenerationFits(g: int)
    requires Fits(g, 8)
    ensures Fits(g + 1, 8) <==> g + 1 < 0x1_0000_0000_0000_0000
  {
    Widths();
  }
}
