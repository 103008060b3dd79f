/** The validation loops of the session state, against the conditions they establish. */
module BraidValidate {
  import opened Bytes
  import opened Collections
  import opened BraidState

  /** `_strictly_sorted` over adjacent pairs. */
  method CheckSorted<T>(lt: (T, T) -> bool, s: seq<T>) returns (ok: bool)
    ensures ok == StrictlySorted(lt, s)
  {
    var i := 0;
    while i + 1 < |s|
      invariant 0 <= i && (i < |s| || s == [])
      invariant forall j :: 0 <= j < i && j < |s| - 1 ==> lt(s[j], s[j + 1])
      decreases |s| - i
    {
      if !lt(s[i], s[i + 1]) {
        return false;
      }
      i := i + 1;
    }
    return true;
  }

  // ----- inbound sets ---------------------------------------------------------------------

  /** `_bitmap_get` on any index: a negative byte position counts from the end, as in Python. */
  function PythonBit(bitmap: bytes, index: int): Option<bool> {
    var k := index / 8;
    if -|bitmap| <= k < 0 then Some(TestBit(bitmap[|bitmap| + k], index % 8))
    else if 0 <= k < |bitmap| then Some(TestBit(bitmap[k], index % 8))
    else None
  }

  function Indices(chunks: seq<InboundChunk>): set<int> { set j | 0 <= j < |chunks| :: chunks[j].index }

  ghost function Bits(bitmap: bytes, n: nat): set<int>
    requires |bitmap| == 8 && n <= 64
  {
    set i: nat | i < n && BitmapGet(bitmap, i) :: i as int
  }

  lemma {:induction false} Increasing(chunks: seq<InboundChunk>, i: nat, j: nat)
    requires StrictlySorted(LtChunk, chunks) && i < j < |chunks|
    ensures chunks[i].index < chunks[j].index
    decreases j
  {
    assert LtChunk(chunks[j - 1], chunks[j]);
    if i < j - 1 {
      Increasing(chunks, i, j - 1);
    }
  }

  lemma {:induction false} DistinctIndices(chunks: seq<InboundChunk>)
    requires StrictlySorted(LtChunk, chunks)
    ensures |Indices(chunks)| == |chunks|
  {
    if chunks != [] {
      var front, last := chunks[..|chunks| - 1], chunks[|chunks| - 1];
      assert StrictlySorted(LtChunk, front);
      DistinctIndices(front);
      forall i | 0 <= i < |front| ensures front[i].index != last.index { Increasing(chunks, i, |front|); }
      AddIndex(front, last);
      assert chunks == front + [last];
    }
  }

  lemma AddIndex(front: seq<InboundChunk>, last: InboundChunk)
    ensures Indices(front + [last]) == Indices(front) + {last.index}
  {
    var all := front + [last];
    forall x ensures x in Indices(all) <==> x in Indices(front) + {last.index} {
      if x in Indices(front) {
        var j :| 0 <= j < |front| && front[j].index == x;
        assert all[j] == front[j];
      }
      assert all[|front|] == last;
    }
  }

  lemma BitsSnoc(bitmap: bytes, n: nat)
    requires |bitmap| == 8 && n < 64
    ensures Bits(bitmap, n + 1) == if BitmapGet(bitmap, n) then Bits(bitmap, n) + {n as int} else Bits(bitmap, n)
    ensures n !in Bits(bitmap, n)
  {
    hide TestBit;
  }

  /** The bitmap agrees with the list exactly when the two index sets are equal. */
  lemma AgreesIffEqual(bitmap: bytes, chunks: seq<InboundChunk>)
    requires |bitmap| == 8
    ensures BitmapAgrees(bitmap, chunks) && (forall i :: 0 <= i < |chunks| ==> 0 <= chunks[i].index <= MAX_CHUNK_INDEX)
            <==> Bits(bitmap, 64) == Indices(chunks)
  {
    hide BitmapGet;
    var b, c := Bits(bitmap, 64), Indices(chunks);
    if b == c {
      forall i | 0 <= i < |chunks| ensures 0 <= chunks[i].index <= MAX_CHUNK_INDEX { assert chunks[i].index in c; }
      forall i: nat | i < 64 ensures BitmapGet(bitmap, i) <==> exists j :: 0 <= j < |chunks| && chunks[j].index == i {
        assert i in b <==> BitmapGet(bitmap, i);
      }
    }
    if BitmapAgrees(bitmap, chunks) && (forall i :: 0 <= i < |chunks| ==> 0 <= chunks[i].index <= MAX_CHUNK_INDEX) {
      forall i ensures i in b <==> i in c { SameIndex(bitmap, chunks, i); }
    }
  }

  lemma SameIndex(bitmap: bytes, chunks: seq<InboundChunk>, i: int)
    requires |bitmap| == 8 && BitmapAgrees(bitmap, chunks)
    requires forall j :: 0 <= j < |chunks| ==> 0 <= chunks[j].index <= MAX_CHUNK_INDEX
    ensures i in Bits(bitmap, 64) <==> i in Indices(chunks)
  {
    hide BitmapGet;
    if i in Indices(chunks) {
      var j :| 0 <= j < |chunks| && chunks[j].index == i;
      assert BitmapGet(bitmap, i);
    }
  }

  lemma PythonBitInRange(bitmap: bytes, index: int)
    requires |bitmap| == 8 && 0 <= index < 64
    ensures PythonBit(bitmap, index) == Some(BitmapGet(bitmap, index))
  {
    hide TestBit;
  }

  /** First loop: index bound, payload length and the chunk's own bit. */
  method CheckChunks(bitmap: bytes, chunks: seq<InboundChunk>) returns (ok: bool)
    requires |bitmap| == 8
    ensures ok ==> forall i :: 0 <= i < |chunks| ==> |chunks[i].payload| == 32
    ensures !ok ==> !ChunksOk(bitmap, chunks)
  {
    hide BitmapGet, PythonBit;
    var i := 0;
    while i < |chunks|
      invariant 0 <= i <= |chunks| && forall j :: 0 <= j < i ==> |chunks[j].payload| == 32
    {
      var chunk := chunks[i];
      if chunk.index > MAX_CHUNK_INDEX || |chunk.payload| != 32 {
        return false;
      }
      var bit := PythonBit(bitmap, chunk.index);
      if bit != Some(true) {
        if 0 <= chunk.index {
          PythonBitInRange(bitmap, chunk.index);
        }
        return false;
      }
      i := i + 1;
    }
    return true;
  }

  /** Second loop: every set bit has a chunk; the bits are counted. */
  method CheckBits(bitmap: bytes, chunks: seq<InboundChunk>) returns (ok: bool, bitCount: nat)
    requires |bitmap| == 8
    ensures ok ==> bitCount == |Bits(bitmap, 64)| && Bits(bitmap, 64) <= Indices(chunks)
    ensures !ok ==> !BitmapAgrees(bitmap, chunks)
  {
    hide BitmapGet;
    bitCount := 0;
    var i := 0;
    while i < MAX_CHUNK_INDEX + 1
      invariant 0 <= i <= 64 && bitCount == |Bits(bitmap, i)| && Bits(bitmap, i) <= Indices(chunks)
    {
      BitsSnoc(bitmap, i);
      if BitmapGet(bitmap, i) {
        bitCount := bitCount + 1;
        if !(exists j :: 0 <= j < |chunks| && chunks[j].index == i) {
          return false, bitCount;
        }
      }
      i := i + 1;
    }
    return true, bitCount;
  }

  /**
   * `_validate_inbound_set`. A negative index passes the first loop when its wrapped bit is set; it
   * is the comparison of the counts that rejects it.
   */
  method ValidateInboundSet(s: InboundSet) returns (ok: bool)
    ensures ok == InboundOk(s)
  {
    hide BitmapGet, StrictlySorted, BitmapAgrees;
    if !IsBit(s.direction) || SourceLength(s.sourceKind) != Some(s.expectedLen) || s.maxIndex != MAX_CHUNK_INDEX {
      return false;
    }
    if |s.bitmap| != 8 || |s.chunks| > MAX_CHUNKS {
      return false;
    }
    var sorted := CheckSorted(LtChunk, s.chunks);
    if !sorted {
      return false;
    }
    var chunksOk := CheckChunks(s.bitmap, s.chunks);
    if !chunksOk {
      return false;
    }
    AgreesIffEqual(s.bitmap, s.chunks);
    var bitsOk, bitCount := CheckBits(s.bitmap, s.chunks);
    if !bitsOk {
      return false;
    }
    DistinctIndices(s.chunks);
    SubsetSize(Bits(s.bitmap, 64), Indices(s.chunks));
    return bitCount == |s.chunks|;
  }

  // ----- TLVs -------------------------------------------------------------------------------

  /** The tags an agent state requires, as the matrix lists them. */
  function RequiredTags(agent: int): seq<int> {
    match agent
    case 1 => [1, 2, 3, 4, 8]
    case 2 => [1, 4]
    case 3 => [1, 4, 6]
    case 4 => [1, 6]
    case 6 => [2, 3]
    case 7 => [2, 3, 5, 6]
    case 8 => [2, 3, 4, 5, 6]
    case 9 => [2, 3, 5, 6]
    case 10 => [7]
    case _ => []
  }

  lemma RequiredIff(agent: int, tag: int)
    ensures RequiresTag(agent, tag) <==> tag in RequiredTags(agent)
    ensures tag in RequiredTags(agent) ==> 1 <= tag <= 8
  {}

  /** `_validate_tlvs_for_agent` */
  method ValidateTlvs(agent: int, tlvs: seq<Tlv>) returns (ok: bool)
    ensures ok == TlvsOk(agent, tlvs)
  {
    hide RequiresTag, RequiredTags, AllowsTag, TlvLength, HasTag;
    if !KnownAgent(agent) {
      return false;
    }
    var i := 0;
    while i < |tlvs|
      invariant 0 <= i <= |tlvs|
      invariant forall j :: 0 <= j < i ==> TlvLength(tlvs[j].tag) == Some(|tlvs[j].value|) && AllowsTag(agent, tlvs[j].tag)
    {
      if TlvLength(tlvs[i].tag) != Some(|tlvs[i].value|) || !AllowsTag(agent, tlvs[i].tag) {
        return false;
      }
      i := i + 1;
    }
    var required := RequiredTags(agent);
    var n := 0;
    while n < |required|
      invariant 0 <= n <= |required| && forall j :: 0 <= j < n ==> HasTag(tlvs, required[j])
    {
      if !HasTag(tlvs, required[n]) {
        RequiredIff(agent, required[n]);
        return false;
      }
      n := n + 1;
    }
    forall tag | 1 <= tag <= 8 && RequiresTag(agent, tag) ensures HasTag(tlvs, tag) {
      RequiredIff(agent, tag);
    }
    return true;
  }

  // ----- the state -----------------------------------------------------------------------------

  method ValidateReplays(replays: seq<ReplayRecord>) returns (ok: bool)
    ensures ok == forall i :: 0 <= i < |replays| ==>
              |replays[i].transitionId| == 32 && |replays[i].executionDigest| == 32 && |replays[i].outputDigest| == 32
  {
    var i := 0;
    while i < |replays|
      invariant 0 <= i <= |replays|
      invariant forall j :: 0 <= j < i ==>
                  |replays[j].transitionId| == 32 && |replays[j].executionDigest| == 32 && |replays[j].outputDigest| == 32
    {
      if |replays[i].transitionId| != 32 || |replays[i].executionDigest| != 32 || |replays[i].outputDigest| != 32 {
        return false;
      }
      i := i + 1;
    }
    return true;
  }

  method ValidateInboundSets(sets: seq<InboundSet>) returns (ok: bool)
    ensures ok == forall i :: 0 <= i < |sets| ==> InboundOk(sets[i])
  {
    hide InboundOk;
    var i := 0;
    while i < |sets|
      invariant 0 <= i <= |sets| && forall j :: 0 <= j < i ==> InboundOk(sets[j])
    {
      var good := ValidateInboundSet(sets[i]);
      if !good {
        return false;
      }
      i := i + 1;
    }
    return true;
  }

  /** `_validate_state` */
  method ValidateState(s: State) returns (ok: bool)
    ensures ok == ValidState(s)
  {
    hide StrictlySorted, InboundOk, TlvsOk, ActiveOk;
    if !IsBit(s.prefix.role) || |s.inbound| > MAX_INBOUND_SETS || |s.objects| > MAX_OBJECTS || |s.replays| > MAX_REPLAYS {
      return false;
    }
    var inboundSorted := CheckSorted(LtInbound, s.inbound);
    var inboundOk := ValidateInboundSets(s.inbound);
    var objectsSorted := CheckSorted(LtObject, s.objects);
    var replaysSorted := CheckSorted(LtReplay, s.replays);
    var tlvsSorted := CheckSorted(LtTlv, s.tlvs);
    var replaysOk := ValidateReplays(s.replays);
    var tlvsOk := ValidateTlvs(s.prefix.agent, s.tlvs);
    return inboundSorted && inboundOk && objectsSorted && replaysSorted && tlvsSorted && replaysOk && tlvsOk
        && (s.active.Some? ==> ActiveOk(s.active.value))
        && |s.tr| >= 8 && s.tr[..8] == RVFT1_MAGIC;
  }
}
