/** Systematic chunks: emission from an active send, and reassembly in an inbound set. */
module BraidChunks {
  import opened Bytes
  import opened BraidState
  import opened Bitmap
  import opened Sorting

  const CW := 32

  /** A decoded data frame; epoch, type and index are unsigned on the wire. */
  datatype Frame = Frame(epoch: int, chunkType: int, index: int, payload: bytes, binding: bytes)

  /** `binding_digest` of direction, epoch, type, index, payload and session, as an arbitrary function. */
  type Binding = (int, int, int, int, bytes, bytes) -> Hash

  // ----- emission -----------------------------------------------------------------------

  function SystematicChunk(source: bytes, index: int): Option<bytes> {
    if |source| % CW != 0 || index < 0 || index >= |source| / CW then None
    else Some(source[index * CW..(index + 1) * CW])
  }

  /** `_emit_active`: the frame of the next index, and the send advanced past it. */
  function EmitActive(bind: Binding, prefix: Prefix, active: Option<ActiveSend>): Option<(ActiveSend, Frame)> {
    var a :- active;
    if a.epoch != prefix.agentEpoch || a.nextIndex > 63 then None
    else
      var payload :- SystematicChunk(a.source, a.nextIndex);
      Some((a.(nextIndex := a.nextIndex + 1),
            Frame(a.epoch, a.wireType, a.nextIndex, payload,
                  bind(a.direction, a.epoch, a.wireType, a.nextIndex, payload, prefix.sessionId))))
  }

  function EmitMany(bind: Binding, prefix: Prefix, active: ActiveSend, count: nat): Option<(ActiveSend, seq<Frame>)> {
    if count == 0 then Some((active, []))
    else
      var (a, frames) :- EmitMany(bind, prefix, active, count - 1);
      var (a', f) :- EmitActive(bind, prefix, Some(a));
      Some((a', frames + [f]))
  }

  /** The chunk a source of whole chunks has at `i`. */
  function ChunkAt(source: bytes, i: nat): bytes
    requires |source| % CW == 0 && i < |source| / CW
  {
    source[i * CW..(i + 1) * CW]
  }

  /** A fresh send emits every chunk of its source once, in order, and then refuses. */
  lemma {:induction false} EmitsEveryChunk(bind: Binding, prefix: Prefix, active: ActiveSend, count: nat)
    requires active.nextIndex == 0 && active.epoch == prefix.agentEpoch
    requires |active.source| % CW == 0 && |active.source| / CW <= 64
    ensures EmitMany(bind, prefix, active, count).Some? <==> count <= |active.source| / CW
    ensures count <= |active.source| / CW ==>
              var (a, frames) := EmitMany(bind, prefix, active, count).value;
              && a == active.(nextIndex := count)
              && |frames| == count
              && forall i :: 0 <= i < count ==>
                   && frames[i].epoch == active.epoch && frames[i].chunkType == active.wireType
                   && frames[i].index == i && frames[i].payload == ChunkAt(active.source, i)
                   && frames[i].binding == bind(active.direction, active.epoch, active.wireType, i, frames[i].payload, prefix.sessionId)
  {
    if count != 0 {
      EmitsEveryChunk(bind, prefix, active, count - 1);
    }
  }

  // ----- reassembly ----------------------------------------------------------------------------

  predicate LeChunk(a: InboundChunk, b: InboundChunk) { a.index <= b.index }
  predicate LeInbound(a: InboundSet, b: InboundSet) { !LtInbound(b, a) }

  predicate HasKey(s: InboundSet, direction: int, epoch: int, kind: int) {
    s.direction == direction && s.epoch == epoch && s.sourceKind == kind
  }

  /** The first set with the given key, or -1. */
  function FindSet(sets: seq<InboundSet>, direction: int, epoch: int, kind: int): (p: int)
    ensures -1 <= p < |sets|
    ensures p >= 0 ==> HasKey(sets[p], direction, epoch, kind)
    ensures forall i :: 0 <= i < (if p < 0 then |sets| else p) ==> !HasKey(sets[i], direction, epoch, kind)
  {
    if sets == [] then -1
    else
      var p := FindSet(sets[..|sets| - 1], direction, epoch, kind);
      if p >= 0 then p
      else if HasKey(sets[|sets| - 1], direction, epoch, kind) then |sets| - 1
      else -1
  }

  /** The payload stored under an index (the last one, as in a dictionary built from the list). */
  function ByIndex(chunks: seq<InboundChunk>, i: int): Option<bytes> {
    if chunks == [] then None
    else if chunks[|chunks| - 1].index == i then Some(chunks[|chunks| - 1].payload)
    else ByIndex(chunks[..|chunks| - 1], i)
  }

  /** The payload of the first chunk with an index. */
  function FirstAt(chunks: seq<InboundChunk>, i: int): Option<bytes> {
    if chunks == [] then None
    else if chunks[0].index == i then Some(chunks[0].payload)
    else FirstAt(chunks[1..], i)
  }

  function EmptySet(direction: int, epoch: int, kind: int): InboundSet
    requires SourceLength(kind).Some?
  {
    InboundSet(direction, epoch, kind, SourceLength(kind).value, 63, ZeroBytes(8), [])
  }

  /** Stores a chunk: a repeat must carry the same payload, a new one is sorted in and marked. */
  function InsertChunk(s: InboundSet, index: int, payload: bytes): Option<InboundSet>
    requires |s.bitmap| == 8
  {
    match FirstAt(s.chunks, index)
    case Some(existing) => if existing != payload then None else Some(s)
    case None =>
      if index < 0 || index > 63 then None
      else Some(s.(chunks := Sort(LeChunk, s.chunks + [InboundChunk(index, payload)]),
                   bitmap := SetBit(s.bitmap, index)))
  }

  /** The chunks 0..n-1 joined, once all of them are there. */
  function Collect(chunks: seq<InboundChunk>, n: nat): Option<bytes> {
    if n == 0 then Some([])
    else
      var front :- Collect(chunks, n - 1);
      var c :- ByIndex(chunks, n - 1);
      Some(front + c)
  }

  /** `_insert_systematic_frame`: the new inbound sets, and the source if it is complete. */
  function InsertFrame(sets: seq<InboundSet>, direction: int, frame: Frame, kind: int): Option<(seq<InboundSet>, Option<bytes>)> {
    if SourceLength(kind).None? then None
    else
      var blank := EmptySet(direction, frame.epoch, kind);
      var sets1 := if FindSet(sets, direction, frame.epoch, kind) >= 0 then sets else Sort(LeInbound, sets + [blank]);
      var p := FindSet(sets1, direction, frame.epoch, kind);
      FreshSetFound(sets, blank);
      var s := sets1[p];
      if s.expectedLen != SourceLength(kind).value || s.maxIndex != 63 || |s.bitmap| != 8 then None
      else
        var s' :- InsertChunk(s, frame.index, frame.payload);
        Some((sets1[p := s'], Collect(s'.chunks, SourceLength(kind).value / CW)))
  }

  lemma FreshSetFound(sets: seq<InboundSet>, blank: InboundSet)
    ensures FindSet(Sort(LeInbound, sets + [blank]), blank.direction, blank.epoch, blank.sourceKind) >= 0
  {
    SortMultiset(LeInbound, sets + [blank]);
    var sorted := Sort(LeInbound, sets + [blank]);
    assert blank in multiset(sets + [blank]);
    assert blank in sorted;
    assert HasKey(blank, blank.direction, blank.epoch, blank.sourceKind);
  }

  // ----- the canonical content for a set of received indices -------------------------------------

  /** The chunks with index in `received` and below `k`, in ascending order. */
  function ChunkList(source: bytes, received: set<nat>, k: nat): seq<InboundChunk>
    requires |source| % CW == 0 && forall i :: i in received ==> i < |source| / CW
  {
    if k == 0 then []
    else
      ChunkList(source, received, k - 1)
      + if k - 1 in received then [InboundChunk(k - 1, ChunkAt(source, k - 1))] else []
  }

  /** The inbound set holds exactly the received chunks of `source`, list and bitmap alike. */
  ghost predicate Holds(s: InboundSet, direction: int, epoch: int, kind: int, source: bytes, received: set<nat>) {
    && HasKey(s, direction, epoch, kind) && SourceLength(kind) == Some(|source|)
    && s.expectedLen == |source| && s.maxIndex == 63 && |s.bitmap| == 8
    && (forall i :: i in received ==> i < |source| / CW)
    && s.chunks == ChunkList(source, received, 64)
    && (forall i: nat :: i < 64 ==> (BitmapGet(s.bitmap, i) <==> i in received))
  }

  lemma SourceWhole(kind: int, source: bytes)
    requires SourceLength(kind) == Some(|source|)
    ensures |source| % CW == 0 && 0 < |source| / CW <= 36
  {}

  lemma HoldsUnique(s: InboundSet, t: InboundSet, direction: int, epoch: int, kind: int, source: bytes, received: set<nat>)
    requires Holds(s, direction, epoch, kind, source, received) && Holds(t, direction, epoch, kind, source, received)
    ensures s == t
  {
    hide BitmapGet, ChunkList;
    BitmapExtensional(s.bitmap, t.bitmap);
  }

  lemma {:induction false} ChunkListStrict(source: bytes, received: set<nat>, k: nat)
    requires |source| % CW == 0 && forall i :: i in received ==> i < |source| / CW
    ensures var list := ChunkList(source, received, k);
            && |list| <= k && StrictlySorted(LtChunk, list)
            && (forall j :: 0 <= j < |list| ==>
                  0 <= list[j].index < k && list[j].index in received && |list[j].payload| == CW)
    decreases k
  {
    hide ChunkList, ChunkAt;
    if k == 0 {
      ChunkListZero(source, received);
    } else {
      ChunkListStrict(source, received, k - 1);
      ChunkListSnoc(source, received, k - 1);
      if k - 1 in received {
        ChunkAtLength(source, k - 1);
        assert ChunkList(source, received, k)
            == ChunkList(source, received, k - 1) + [InboundChunk(k - 1, ChunkAt(source, k - 1))];
      }
    }
  }

  lemma ChunkListZero(source: bytes, received: set<nat>)
    requires |source| % CW == 0 && forall i :: i in received ==> i < |source| / CW
    ensures ChunkList(source, received, 0) == []
  {}

  lemma ChunkAtLength(source: bytes, i: nat)
    requires |source| % CW == 0 && i < |source| / CW
    ensures |ChunkAt(source, i)| == CW
  {}

  lemma {:induction false} ChunkListCovers(source: bytes, received: set<nat>, k: nat, i: nat) returns (j: nat)
    requires |source| % CW == 0 && forall i :: i in received ==> i < |source| / CW
    requires i < k && i in received
    ensures j < |ChunkList(source, received, k)| && ChunkList(source, received, k)[j].index == i
    decreases k
  {
    hide ChunkList, ChunkAt;
    ChunkListSnoc(source, received, k - 1);
    var front := ChunkList(source, received, k - 1);
    if i == k - 1 {
      j := |front|;
    } else {
      j := ChunkListCovers(source, received, k - 1, i);
      if k - 1 in received { assert ChunkList(source, received, k)[..|front|][j] == front[j]; }
    }
  }

  /** Holding exactly the received chunks is a state the validator accepts. */
  lemma HoldsIsValid(s: InboundSet, direction: int, epoch: int, kind: int, source: bytes, received: set<nat>)
    requires Holds(s, direction, epoch, kind, source, received) && IsBit(direction)
    ensures InboundOk(s)
  {
    hide BitmapGet, ChunkList;
    SourceWhole(kind, source);
    ChunkListStrict(source, received, 64);
    forall i: nat | i < 64 ensures BitmapGet(s.bitmap, i) <==> exists j :: 0 <= j < |s.chunks| && s.chunks[j].index == i {
      if i in received {
        var j := ChunkListCovers(source, received, 64, i);
      }
    }
  }

  lemma {:induction false} ChunkListIndices(source: bytes, received: set<nat>, k: nat, j: nat)
    requires |source| % CW == 0 && forall i :: i in received ==> i < |source| / CW
    requires j < |ChunkList(source, received, k)|
    ensures 0 <= ChunkList(source, received, k)[j].index < k
  {
    if k != 0 && j < |ChunkList(source, received, k - 1)| {
      ChunkListIndices(source, received, k - 1, j);
    }
  }

  lemma {:induction false} ByIndexOfChunkList(source: bytes, received: set<nat>, k: nat, i: nat)
    requires |source| % CW == 0 && forall i :: i in received ==> i < |source| / CW
    ensures ByIndex(ChunkList(source, received, k), i)
         == if i in received && i < k then Some(ChunkAt(source, i)) else None
    decreases k
  {
    hide ChunkAt;
    if k != 0 {
      ByIndexOfChunkList(source, received, k - 1, i);
      ChunkListSnoc(source, received, k - 1);
    }
  }

  lemma {:induction false} FirstAtSnoc(front: seq<InboundChunk>, last: InboundChunk, i: int)
    ensures FirstAt(front + [last], i)
         == if FirstAt(front, i).Some? then FirstAt(front, i) else if last.index == i then Some(last.payload) else None
  {
    if front != [] {
      FirstAtSnoc(front[1..], last, i);
      assert (front + [last])[1..] == front[1..] + [last];
    }
  }

  lemma {:induction false} FirstAtOfChunkList(source: bytes, received: set<nat>, k: nat, i: nat)
    requires |source| % CW == 0 && forall i :: i in received ==> i < |source| / CW
    ensures FirstAt(ChunkList(source, received, k), i)
         == if i in received && i < k then Some(ChunkAt(source, i)) else None
    decreases k
  {
    hide ChunkAt, FirstAt;
    if k == 0 {
      assert FirstAt([], i) == None by { FirstAtNothing(i); }
    } else {
      FirstAtOfChunkList(source, received, k - 1, i);
      if k - 1 in received {
        FirstAtSnoc(ChunkList(source, received, k - 1), InboundChunk(k - 1, ChunkAt(source, k - 1)), i);
      } else {
        assert ChunkList(source, received, k) == ChunkList(source, received, k - 1);
      }
    }
  }

  lemma FirstAtNothing(i: int)
    ensures FirstAt([], i) == None
  {}

  lemma ChunkListSnoc(source: bytes, received: set<nat>, k: nat)
    requires |source| % CW == 0 && forall i :: i in received ==> i < |source| / CW
    ensures var front, all := ChunkList(source, received, k), ChunkList(source, received, k + 1);
            && (k !in received ==> all == front)
            && (k in received ==>
                  |all| == |front| + 1 && all[..|front|] == front
                  && all[|front|] == InboundChunk(k, ChunkAt(source, k)))
  {
    hide ChunkAt;
    var front, all := ChunkList(source, received, k), ChunkList(source, received, k + 1);
    if k in received {
      assert all == front + [InboundChunk(k, ChunkAt(source, k))];
    }
  }

  lemma {:induction false} InsertIntoChunkList(source: bytes, received: set<nat>, k: nat, i: nat)
    requires |source| % CW == 0 && forall i :: i in received ==> i < |source| / CW
    requires i < k && i !in received && i < |source| / CW
    ensures Insert(LeChunk, InboundChunk(i, ChunkAt(source, i)), ChunkList(source, received, k))
         == ChunkList(source, received + {i}, k)
    decreases k
  {
    hide ChunkAt, ChunkList;
    var x := InboundChunk(i, ChunkAt(source, i));
    var front, all' := ChunkList(source, received, k - 1), ChunkList(source, received + {i}, k);
    ChunkListSnoc(source, received, k - 1);
    ChunkListSnoc(source, received + {i}, k - 1);
    if i == k - 1 {
      ChunkListIgnores(source, received, i, k - 1);
      if front != [] { ChunkListIndices(source, received, k - 1, |front| - 1); }
      assert all' == front + [x];
    } else {
      InsertIntoChunkList(source, received, k - 1, i);
      if k - 1 in received {
        var y := InboundChunk(k - 1, ChunkAt(source, k - 1));
        assert all' == ChunkList(source, received + {i}, k - 1) + [y];
      }
    }
  }

  lemma {:induction false} ChunkListIgnores(source: bytes, received: set<nat>, i: nat, k: nat)
    requires |source| % CW == 0 && forall i :: i in received ==> i < |source| / CW
    requires k <= i < |source| / CW
    ensures ChunkList(source, received + {i}, k) == ChunkList(source, received, k)
  {
    if k != 0 {
      ChunkListIgnores(source, received, i, k - 1);
    }
  }

  lemma {:induction false} ChunkListSorted(source: bytes, received: set<nat>, k: nat)
    requires |source| % CW == 0 && forall i :: i in received ==> i < |source| / CW
    ensures Sorted(LeChunk, ChunkList(source, received, k))
  {
    if k != 0 {
      ChunkListSorted(source, received, k - 1);
      var front := ChunkList(source, received, k - 1);
      forall j | 0 <= j < |front| ensures front[j].index < k - 1 {
        ChunkListIndices(source, received, k - 1, j);
      }
    }
  }

  lemma {:induction false} CollectChunkList(source: bytes, received: set<nat>, n: nat)
    requires |source| % CW == 0 && n <= |source| / CW <= 64
    requires forall i :: i in received ==> i < |source| / CW
    ensures Collect(ChunkList(source, received, 64), n)
         == if forall i: nat :: i < n ==> i in received then Some(source[..n * CW]) else None
  {
    hide ChunkList, ByIndex;
    if n != 0 {
      CollectChunkList(source, received, n - 1);
      ByIndexOfChunkList(source, received, 64, n - 1);
      assert source[..(n - 1) * CW] + source[(n - 1) * CW..n * CW] == source[..n * CW];
    }
  }

  /** Storing chunk `i` of the source turns "holds S" into "holds S + {i}". */
  lemma InsertChunkHolds(s: InboundSet, direction: int, epoch: int, kind: int, source: bytes, received: set<nat>, i: nat)
    requires Holds(s, direction, epoch, kind, source, received) && |source| % CW == 0 && i < |source| / CW <= 36
    ensures InsertChunk(s, i, ChunkAt(source, i)).Some?
    ensures Holds(InsertChunk(s, i, ChunkAt(source, i)).value, direction, epoch, kind, source, received + {i})
  {
    hide BitmapGet, SetBit, ChunkList, FirstAt;
    FirstAtOfChunkList(source, received, 64, i);
    if i in received {
      assert received + {i} == received;
    } else {
      var x := InboundChunk(i, ChunkAt(source, i));
      ChunkListSorted(source, received, 64);
      SortOfSorted(LeChunk, s.chunks);
      assert (s.chunks + [x])[..|s.chunks|] == s.chunks;
      InsertIntoChunkList(source, received, 64, i);
      forall j: nat | j < 64 ensures BitmapGet(SetBit(s.bitmap, i), j) <==> j in received + {i} {
        GetAfterSet(s.bitmap, i, j);
      }
    }
  }

  // ----- any order of arrival -----------------------------------------------------------------------

  function Deliver(sets: seq<InboundSet>, direction: int, frames: seq<Frame>, kind: int): Option<(seq<InboundSet>, seq<Option<bytes>>)> {
    if frames == [] then Some((sets, []))
    else
      var (sets1, outs) :- Deliver(sets, direction, frames[..|frames| - 1], kind);
      var (sets2, out) :- InsertFrame(sets1, direction, frames[|frames| - 1], kind);
      Some((sets2, outs + [out]))
  }

  ghost function Indices(order: seq<nat>): set<nat> { set j | 0 <= j < |order| :: order[j] }

  ghost predicate Complete(received: set<nat>, n: nat) { forall i: nat :: i < n ==> i in received }

  /** The sets before, with `s` sorted in. */
  function Placed(sets: seq<InboundSet>, s: InboundSet): seq<InboundSet> { Insert(LeInbound, s, Sort(LeInbound, sets)) }

  lemma SortAddsNoKey(sets: seq<InboundSet>, direction: int, epoch: int, kind: int)
    requires FindSet(sets, direction, epoch, kind) == -1
    ensures forall i :: 0 <= i < |Sort(LeInbound, sets)| ==> !HasKey(Sort(LeInbound, sets)[i], direction, epoch, kind)
  {
    hide Sort, HasKey;
    SortMultiset(LeInbound, sets);
    var base := Sort(LeInbound, sets);
    forall i | 0 <= i < |base| ensures !HasKey(base[i], direction, epoch, kind) {
      assert base[i] in multiset(sets);
    }
  }

  lemma FindInSplice(base: seq<InboundSet>, s: InboundSet, k: nat)
    requires k <= |base| && forall i :: 0 <= i < |base| ==> !HasKey(base[i], s.direction, s.epoch, s.sourceKind)
    ensures FindSet(base[..k] + [s] + base[k..], s.direction, s.epoch, s.sourceKind) == k
  {
    hide FindSet;
    var all := base[..k] + [s] + base[k..];
    assert all[k] == s && HasKey(s, s.direction, s.epoch, s.sourceKind);
    forall i | 0 <= i < k ensures !HasKey(all[i], s.direction, s.epoch, s.sourceKind) {
      assert all[i] == base[i];
    }
  }

  lemma FindPlaced(sets: seq<InboundSet>, s: InboundSet, t: InboundSet)
    requires HasKey(t, s.direction, s.epoch, s.sourceKind)
    requires FindSet(sets, s.direction, s.epoch, s.sourceKind) == -1
    ensures var p := FindSet(Placed(sets, s), s.direction, s.epoch, s.sourceKind);
            && p >= 0 && Placed(sets, s)[p] == s
            && Placed(sets, s)[p := t] == Placed(sets, t)
  {
    hide FindSet, Sort, Insert, InsertPosition;
    var base := Sort(LeInbound, sets);
    var k := InsertPosition(LeInbound, s, base);
    SortAddsNoKey(sets, s.direction, s.epoch, s.sourceKind);
    InsertIsSplice(LeInbound, s, base);
    InsertIsSplice(LeInbound, t, base);
    InsertPositionSameKey(LeInbound, s, t, base);
    FindInSplice(base, s, k);
    assert (base[..k] + [s] + base[k..])[k := t] == base[..k] + [t] + base[k..];
  }

  /** The frame of chunk `i`, with whatever type and binding it travelled. */
  predicate CarriesChunk(f: Frame, epoch: int, source: bytes, i: nat) {
    |source| % CW == 0 && i < |source| / CW && f.epoch == epoch && f.index == i && f.payload == ChunkAt(source, i)
  }

  /** The first frame of a source acts like any later one on the sets with a blank set placed. */
  lemma FirstInsert(sets: seq<InboundSet>, direction: int, kind: int, f: Frame)
    requires SourceLength(kind).Some? && FindSet(sets, direction, f.epoch, kind) == -1
    ensures InsertFrame(sets, direction, f, kind)
         == InsertFrame(Placed(sets, EmptySet(direction, f.epoch, kind)), direction, f, kind)
  {
    hide Collect, InsertChunk, Placed, FindSet, SourceLength;
    var e := EmptySet(direction, f.epoch, kind);
    PlacedIsSort(sets, e);
    FindPlaced(sets, e, e);
  }

  lemma PlacedIsSort(sets: seq<InboundSet>, e: InboundSet)
    ensures Sort(LeInbound, sets + [e]) == Placed(sets, e)
  {
    assert (sets + [e])[..|sets|] == sets;
  }

  lemma EmptyHolds(direction: int, epoch: int, kind: int, source: bytes)
    requires SourceLength(kind) == Some(|source|)
    ensures Holds(EmptySet(direction, epoch, kind), direction, epoch, kind, source, {})
  {
    SourceWhole(kind, source);
    EmptyChunkList(source, 64);
  }

  lemma {:induction false} EmptyChunkList(source: bytes, k: nat)
    requires |source| % CW == 0
    ensures ChunkList(source, {}, k) == []
  {
    if k != 0 { EmptyChunkList(source, k - 1); }
  }

  /**
   * Where a delivery may begin: no set with the key yet, or one that holds the chunks `had` received
   * before, none of them when it is blank.
   */
  ghost predicate Begins(sets: seq<InboundSet>, direction: int, epoch: int, kind: int, source: bytes, had: set<nat>) {
    var p := FindSet(sets, direction, epoch, kind);
    if p >= 0 then Holds(sets[p], direction, epoch, kind, source, had) else had == {}
  }

  /** The sets with the key's set present, blank if need be. */
  function WithSet(sets: seq<InboundSet>, direction: int, epoch: int, kind: int): seq<InboundSet>
    requires SourceLength(kind).Some?
  {
    if FindSet(sets, direction, epoch, kind) >= 0 then sets else Placed(sets, EmptySet(direction, epoch, kind))
  }

  lemma WithSetHolds(sets: seq<InboundSet>, direction: int, epoch: int, kind: int, source: bytes, had: set<nat>)
    requires SourceLength(kind) == Some(|source|) && Begins(sets, direction, epoch, kind, source, had)
    ensures var p := FindSet(WithSet(sets, direction, epoch, kind), direction, epoch, kind);
            p >= 0 && Holds(WithSet(sets, direction, epoch, kind)[p], direction, epoch, kind, source, had)
  {
    hide Placed, Holds, FindSet, SourceLength;
    if FindSet(sets, direction, epoch, kind) < 0 {
      var e := EmptySet(direction, epoch, kind);
      EmptyHolds(direction, epoch, kind, source);
      FindPlaced(sets, e, e);
    }
  }

  /** After the first frame it does not matter whether the set was there. */
  lemma {:induction false} DeliverWithSet(sets: seq<InboundSet>, direction: int, epoch: int, kind: int, frames: seq<Frame>)
    requires SourceLength(kind).Some? && |frames| > 0 && frames[0].epoch == epoch
    ensures Deliver(sets, direction, frames, kind) == Deliver(WithSet(sets, direction, epoch, kind), direction, frames, kind)
    decreases |frames|
  {
    hide InsertFrame, Placed, FindSet, SourceLength;
    var front := frames[..|frames| - 1];
    if |frames| == 1 {
      assert front == [];
      if FindSet(sets, direction, epoch, kind) < 0 {
        FirstInsert(sets, direction, kind, frames[0]);
      }
    } else {
      DeliverWithSet(sets, direction, epoch, kind, front);
    }
  }

  lemma FindReplaced(sets: seq<InboundSet>, direction: int, epoch: int, kind: int, s: InboundSet)
    requires FindSet(sets, direction, epoch, kind) >= 0 && HasKey(s, direction, epoch, kind)
    ensures var p := FindSet(sets, direction, epoch, kind); FindSet(sets[p := s], direction, epoch, kind) == p
  {
    hide FindSet, HasKey;
    var p := FindSet(sets, direction, epoch, kind);
    var all := sets[p := s];
    assert HasKey(all[p], direction, epoch, kind);
    forall i | 0 <= i < p ensures !HasKey(all[i], direction, epoch, kind) { assert all[i] == sets[i]; }
  }

  lemma NextInsert(sets: seq<InboundSet>, direction: int, epoch: int, kind: int, source: bytes, received: set<nat>, f: Frame, i: nat)
    returns (s: InboundSet)
    requires SourceLength(kind) == Some(|source|) && FindSet(sets, direction, epoch, kind) >= 0
    requires Holds(sets[FindSet(sets, direction, epoch, kind)], direction, epoch, kind, source, received) && CarriesChunk(f, epoch, source, i)
    ensures Holds(s, direction, epoch, kind, source, received + {i})
    ensures InsertFrame(sets, direction, f, kind)
            == Some((sets[FindSet(sets, direction, epoch, kind) := s], if Complete(received + {i}, |source| / CW) then Some(source) else None))
  {
    hide Collect, InsertChunk, BitmapGet, ChunkList, FindSet;
    SourceWhole(kind, source);
    var s0 := sets[FindSet(sets, direction, epoch, kind)];
    InsertChunkHolds(s0, direction, epoch, kind, source, received, i);
    s := InsertChunk(s0, i, ChunkAt(source, i)).value;
    CollectChunkList(source, received + {i}, |source| / CW);
    assert source[..(|source| / CW) * CW] == source;
  }

  /** The source comes out exactly from the arrival that completes it on. */
  ghost predicate OutputsOk(source: bytes, had: set<nat>, order: seq<nat>, outs: seq<Option<bytes>>) {
    && |outs| == |order|
    && forall j :: 0 <= j < |order| ==>
         outs[j] == if Complete(had + Indices(order[..j + 1]), |source| / CW) then Some(source) else None
  }

  lemma OutputsSnoc(source: bytes, had: set<nat>, order: seq<nat>, outs: seq<Option<bytes>>, i: nat, out: Option<bytes>)
    requires OutputsOk(source, had, order, outs)
    requires out == if Complete(had + Indices(order + [i]), |source| / CW) then Some(source) else None
    ensures OutputsOk(source, had, order + [i], outs + [out])
  {
    hide Complete, Indices;
    forall j | 0 <= j < |order + [i]|
      ensures (outs + [out])[j] == if Complete(had + Indices((order + [i])[..j + 1]), |source| / CW) then Some(source) else None
    {
      if j < |order| {
        assert (order + [i])[..j + 1] == order[..j + 1];
      } else {
        assert (order + [i])[..j + 1] == order + [i];
      }
    }
  }

  /** The delivery, once the set is present. */
  lemma {:induction false} DeliverPresent(sets: seq<InboundSet>, direction: int, epoch: int, kind: int, source: bytes, had: set<nat>,
                                          order: seq<nat>, frames: seq<Frame>) returns (s: InboundSet)
    requires SourceLength(kind) == Some(|source|) && FindSet(sets, direction, epoch, kind) >= 0
    requires Holds(sets[FindSet(sets, direction, epoch, kind)], direction, epoch, kind, source, had)
    requires |frames| == |order| && forall j :: 0 <= j < |order| ==> CarriesChunk(frames[j], epoch, source, order[j])
    ensures Holds(s, direction, epoch, kind, source, had + Indices(order))
    ensures Deliver(sets, direction, frames, kind).Some?
    ensures var (sets', outs) := Deliver(sets, direction, frames, kind).value;
            OutputsOk(source, had, order, outs) && sets' == sets[FindSet(sets, direction, epoch, kind) := s]
    decreases |order|
  {
    hide InsertFrame, Holds, CarriesChunk, FindSet, SourceLength, Indices, Complete, OutputsOk;
    var p := FindSet(sets, direction, epoch, kind);
    if order == [] {
      NoIndices(source, had);
      s := sets[p];
      assert sets[p := s] == sets && had + {} == had;
    } else {
      var front, last := order[..|order| - 1], order[|order| - 1];
      var f := frames[|frames| - 1];
      IndicesSnoc(front, last);
      assert front + [last] == order;
      var s1 := DeliverPresent(sets, direction, epoch, kind, source, had, front, frames[..|frames| - 1]);
      var (sets1, outs) := Deliver(sets, direction, frames[..|frames| - 1], kind).value;
      HoldsKey(s1, direction, epoch, kind, source, had + Indices(front));
      FindReplaced(sets, direction, epoch, kind, s1);
      s := NextInsert(sets1, direction, epoch, kind, source, had + Indices(front), f, last);
      assert had + Indices(front) + {last} == had + Indices(order);
      OutputsSnoc(source, had, front, outs, last, InsertFrame(sets1, direction, f, kind).value.1);
      assert sets[p := s1][p := s] == sets[p := s];
    }
  }

  lemma HoldsKey(s: InboundSet, direction: int, epoch: int, kind: int, source: bytes, received: set<nat>)
    requires Holds(s, direction, epoch, kind, source, received)
    ensures HasKey(s, direction, epoch, kind)
  {}

  /**
   * Frames carrying the chunks of a source, in any order and with any repeats, into sets where the key's
   * set is absent, blank or already holds some chunks: every insertion succeeds, the source comes out
   * exactly from the arrival that completes it on, and afterwards the set holds precisely the chunks
   * had before and the received ones, every other set being as it was.
   */
  lemma AnyOrder(sets: seq<InboundSet>, direction: int, epoch: int, kind: int, source: bytes, had: set<nat>, order: seq<nat>, frames: seq<Frame>)
    returns (s: InboundSet)
    requires SourceLength(kind) == Some(|source|) && Begins(sets, direction, epoch, kind, source, had)
    requires |frames| == |order| > 0
    requires forall j :: 0 <= j < |order| ==> CarriesChunk(frames[j], epoch, source, order[j])
    ensures Deliver(sets, direction, frames, kind).Some?
    ensures Holds(s, direction, epoch, kind, source, had + Indices(order))
    ensures var (sets', outs) := Deliver(sets, direction, frames, kind).value;
            var base := WithSet(sets, direction, epoch, kind);
            && OutputsOk(source, had, order, outs)
            && FindSet(base, direction, epoch, kind) >= 0 && sets' == base[FindSet(base, direction, epoch, kind) := s]
  {
    hide Placed, Holds, CarriesChunk, FindSet, SourceLength, Indices, OutputsOk, Deliver, WithSet, Begins;
    WithSetHolds(sets, direction, epoch, kind, source, had);
    FrameEpoch(frames[0], epoch, source, order[0]);
    DeliverWithSet(sets, direction, epoch, kind, frames);
    s := DeliverPresent(WithSet(sets, direction, epoch, kind), direction, epoch, kind, source, had, order, frames);
  }

  lemma FrameEpoch(f: Frame, epoch: int, source: bytes, i: nat)
    requires CarriesChunk(f, epoch, source, i)
    ensures f.epoch == epoch
  {}

  lemma NoIndices(source: bytes, had: set<nat>)
    ensures Indices([]) == {} && OutputsOk(source, had, [], [])
  {}

  lemma IndicesSnoc(order: seq<nat>, i: nat)
    ensures Indices(order + [i]) == Indices(order) + {i}
  {
    forall x | x in Indices(order) ensures x in Indices(order + [i]) {
      var j :| 0 <= j < |order| && order[j] == x;
      assert (order + [i])[j] == x;
    }
    assert (order + [i])[|order|] == i;
  }

  /** Two deliveries that bring the same chunks leave the same inbound sets. */
  lemma OrderIrrelevant(sets: seq<InboundSet>, direction: int, epoch: int, kind: int, source: bytes, had: set<nat>,
                        order: seq<nat>, frames: seq<Frame>, order': seq<nat>, frames': seq<Frame>)
    requires SourceLength(kind) == Some(|source|) && Begins(sets, direction, epoch, kind, source, had)
    requires |frames| == |order| > 0 && |frames'| == |order'| > 0
    requires forall j :: 0 <= j < |order| ==> CarriesChunk(frames[j], epoch, source, order[j])
    requires forall j :: 0 <= j < |order'| ==> CarriesChunk(frames'[j], epoch, source, order'[j])
    requires Indices(order) == Indices(order')
    ensures Deliver(sets, direction, frames, kind).Some? && Deliver(sets, direction, frames', kind).Some?
    ensures Deliver(sets, direction, frames, kind).value.0 == Deliver(sets, direction, frames', kind).value.0
  {
    hide Begins, WithSet, FindSet, Holds, Deliver, CarriesChunk, Indices;
    var s := AnyOrder(sets, direction, epoch, kind, source, had, order, frames);
    var t := AnyOrder(sets, direction, epoch, kind, source, had, order', frames');
    HoldsUnique(s, t, direction, epoch, kind, source, had + Indices(order));
  }

  /** A blank set, as the start of an epoch leaves it, is one the delivery may begin with. */
  lemma BlankBegins(direction: int, epoch: int, kind: int, source: bytes)
    requires SourceLength(kind) == Some(|source|)
    ensures Begins([EmptySet(direction, epoch, kind)], direction, epoch, kind, source, {})
  {
    hide Holds;
    EmptyHolds(direction, epoch, kind, source);
  }

  /** The frames an active send emits carry the chunks of its source, so the two theorems compose. */
  lemma EmittedFramesCarryChunks(bind: Binding, prefix: Prefix, active: ActiveSend, order: seq<nat>)
    requires active.nextIndex == 0 && active.epoch == prefix.agentEpoch
    requires SourceLength(active.sourceKind) == Some(|active.source|)
    requires forall j :: 0 <= j < |order| ==> order[j] < |active.source| / CW
    ensures var n := |active.source| / CW;
            && EmitMany(bind, prefix, active, n).Some?
            && var frames := EmitMany(bind, prefix, active, n).value.1;
            && |frames| == n
            && forall j :: 0 <= j < |order| ==> CarriesChunk(frames[order[j]], active.epoch, active.source, order[j])
  {
    SourceWhole(active.sourceKind, active.source);
    EmitsEveryChunk(bind, prefix, active, |active.source| / CW);
  }
}
