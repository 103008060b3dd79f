/** Append decisions over protected anchors: every record grows one gap-free, well-ended history. */
module AnchorChain {
  import opened Bytes
  import opened Sorting
  import opened AnchorCodec
  import opened Text

  datatype Keys = Keys(hmac: Hmac, anchor: bytes, index: bytes)

  datatype Decision = Appended | ExactReplay | Corrupt

  /** The domain-separation label of record keys. */
  function RecordDomain(): bytes { Utf8("ATSAM/v2/full-braid/durable/record") }

  /** `record_invariants_ok`; false also where the source raises on a wrong-length key. */
  predicate RecordInvariantsOk(keys: Keys, item: Rvfa1) {
    && |keys.index| == 32 && |item.sessionId| == 32
    && keys.hmac(keys.index, RecordDomain() + item.sessionId) == item.recordKey
    && var initial, zero := item.anchorSeq == 1, item.transitionId == ZeroBytes(32);
    match item.status
    case Head => item.horizonMs == 0 && initial == zero
    case Deleting => !initial && item.horizonMs != 0 && !zero
    case Tombstone => !initial && item.horizonMs != 0 && zero
  }

  /** The anchor a blob stands for, when it authenticates and is consistent in itself. */
  function Admit(keys: Keys, raw: bytes): Option<Rvfa1> {
    var item :- Decode(keys.hmac, keys.anchor, raw);
    if RecordInvariantsOk(keys, item) then Some(item) else None
  }

  predicate StatusTransitionOk(prev: Option<Status>, next: Status) {
    match prev
    case None => next == Head
    case Some(Head) => next == Head || next == Deleting
    case Some(Deleting) => next == Tombstone
    case Some(Tombstone) => false
  }

  predicate BySeq(a: Rvfa1, b: Rvfa1) { a.anchorSeq <= b.anchorSeq }

  function Before(chain: seq<Rvfa1>, i: nat): Option<Status>
    requires i <= |chain|
  {
    if i == 0 then None else Some(chain[i - 1].status)
  }

  // ----- specification of the decision ----------------------------------------------------

  /** The admitted anchors of one record, in order of arrival. */
  function Mine(keys: Keys, existing: seq<bytes>, recordKey: bytes): seq<Rvfa1> {
    if existing == [] then []
    else
      var front := Mine(keys, existing[..|existing| - 1], recordKey);
      match Admit(keys, existing[|existing| - 1])
      case Some(item) => if item.recordKey == recordKey then front + [item] else front
      case None => front
  }

  /** Numbered 1..N along permitted status edges. */
  ghost predicate Linked(chain: seq<Rvfa1>) { Numbered(chain) && Edges(Statuses(chain)) }

  ghost predicate Numbered(chain: seq<Rvfa1>) { forall i :: 0 <= i < |chain| ==> chain[i].anchorSeq == i + 1 }

  function Statuses(chain: seq<Rvfa1>): seq<Status> { seq(|chain|, i requires 0 <= i < |chain| => chain[i].status) }

  ghost predicate Edges(word: seq<Status>) { forall i :: 0 <= i < |word| ==> EdgeAt(word, i) }

  predicate EdgeAt(word: seq<Status>, i: nat)
    requires i < |word|
  {
    StatusTransitionOk(if i == 0 then None else Some(word[i - 1]), word[i])
  }

  predicate SameOwner(a: Rvfa1, b: Rvfa1) { a.sessionId == b.sessionId && a.role == b.role }

  ghost predicate AllAdmitted(keys: Keys, existing: seq<bytes>) {
    forall i :: 0 <= i < |existing| ==> Admit(keys, existing[i]).Some?
  }

  ghost predicate OwnedBy(mine: seq<Rvfa1>, c: Rvfa1) {
    forall i :: 0 <= i < |mine| ==> SameOwner(mine[i], c)
  }

  /** The existing blobs are fit to judge `c` against. */
  ghost predicate Sound(keys: Keys, existing: seq<bytes>, c: Rvfa1) {
    var mine := Mine(keys, existing, c.recordKey);
    AllAdmitted(keys, existing) && DistinctKeys(BySeq, mine) && OwnedBy(mine, c) && Linked(Sort(BySeq, mine))
  }

  /** The decision on `c` against the ordered history of its own record. */
  function Next(chain: seq<Rvfa1>, c: Rvfa1): Decision {
    if 1 <= c.anchorSeq <= |chain| then
      if chain[c.anchorSeq - 1] == c then ExactReplay else Corrupt
    else if c.anchorSeq == |chain| + 1 && StatusTransitionOk(Before(chain, |chain|), c.status) then Appended
    else Corrupt
  }

  ghost function Decide(keys: Keys, existing: seq<bytes>, raw: bytes): Decision {
    match Admit(keys, raw)
    case None => Corrupt
    case Some(c) =>
      if Sound(keys, existing, c) then Next(Sort(BySeq, Mine(keys, existing, c.recordKey)), c) else Corrupt
  }

  // ----- the code ----------------------------------------------------------------------------

  /** `established_chain_ok` */
  method EstablishedChainOk(sameRecord: seq<Rvfa1>) returns (ok: bool)
    ensures ok == Linked(Sort(BySeq, sameRecord))
  {
    hide Sort, StatusTransitionOk;
    SortMultiset(BySeq, sameRecord);
    if sameRecord == [] {
      return true;
    }
    var ordered := Sort(BySeq, sameRecord);
    assert ordered[0].status == Statuses(ordered)[0];
    if ordered[0].anchorSeq != 1 || !StatusTransitionOk(None, ordered[0].status) {
      assert EdgeAt(Statuses(ordered), 0) ==> StatusTransitionOk(None, ordered[0].status);
      return false;
    }
    var idx := 0;
    while idx < |ordered|
      invariant 0 <= idx <= |ordered|
      invariant forall i :: 0 <= i < idx ==> ordered[i].anchorSeq == i + 1 && EdgeAt(Statuses(ordered), i)
    {
      if ordered[idx].anchorSeq != 1 + idx {
        return false;
      }
      if idx > 0 && !StatusTransitionOk(Some(ordered[idx - 1].status), ordered[idx].status) {
        assert !EdgeAt(Statuses(ordered), idx);
        return false;
      }
      idx := idx + 1;
    }
    return true;
  }

  /** `max(..., key=anchor_seq)`: the first of the largest. */
  function Highest(s: seq<Rvfa1>): (h: Rvfa1)
    requires s != []
    ensures h in s && forall i :: 0 <= i < |s| ==> BySeq(s[i], h)
  {
    if |s| == 1 then s[0]
    else
      var h := Highest(s[..|s| - 1]);
      if h.anchorSeq < s[|s| - 1].anchorSeq then s[|s| - 1] else h
  }

  /** What `seen` records: the blob behind every anchor of the record met so far. */
  ghost predicate Indexes(keys: Keys, seen: map<(bytes, int), bytes>, mine: seq<Rvfa1>, recordKey: bytes) {
    && (forall k :: k in seen ==> k.0 == recordKey && Admit(keys, seen[k]).Some?
                                  && Admit(keys, seen[k]).value in mine && Admit(keys, seen[k]).value.anchorSeq == k.1)
    && (forall i :: 0 <= i < |mine| ==> (recordKey, mine[i].anchorSeq) in seen)
  }

  /** `classify_append` */
  method ClassifyAppend(keys: Keys, existing: seq<bytes>, raw: bytes) returns (d: Decision)
    ensures d == Decide(keys, existing, raw)
  {
    hide Admit, Mine, Sort, Linked, DistinctKeys, StatusTransitionOk, OwnedBy, Indexes, AllAdmitted, Next;
    var admitted := Admit(keys, raw);
    if admitted == None {
      return Corrupt;
    }
    var c := admitted.value;
    var sameRecord: seq<Rvfa1> := [];
    var seen: map<(bytes, int), bytes> := map[];
    MineEmpty(keys, c.recordKey);
    NothingSeen(keys, c);
    AdmittedSoFar(keys, existing, 0);
    assert existing[..0] == [];
    var n := 0;
    while n < |existing|
      invariant 0 <= n <= |existing|
      invariant AllAdmitted(keys, existing[..n])
      invariant sameRecord == Mine(keys, existing[..n], c.recordKey)
      invariant DistinctKeys(BySeq, sameRecord) && OwnedBy(sameRecord, c)
      invariant Indexes(keys, seen, sameRecord, c.recordKey)
    {
      MineSnoc(keys, existing, n, c.recordKey);
      AdmittedSoFar(keys, existing, n);
      var entry := Admit(keys, existing[n]);
      if entry == None {
        return Corrupt;
      }
      var item := entry.value;
      var key := (item.recordKey, item.anchorSeq);
      if key in seen {
        Duplicate(keys, existing, n, c, seen);
        return Corrupt;
      }
      if item.recordKey == c.recordKey {
        if !SameOwner(item, c) {
          ForeignOwner(keys, existing, n, c);
          return Corrupt;
        }
        DistinctSnoc(keys, seen, sameRecord, item, c);
        IndexesSnoc(keys, seen, sameRecord, item, existing[n]);
        seen := seen[key := existing[n]];
        sameRecord := sameRecord + [item];
      }
      n := n + 1;
    }
    assert existing[..n] == existing;
    var established := EstablishedChainOk(sameRecord);
    if !established {
      return Corrupt;
    }
    ghost var chain := Sort(BySeq, sameRecord);
    SortMultiset(BySeq, sameRecord);
    var key := (c.recordKey, c.anchorSeq);
    if key in seen {
      SeenDecides(keys, seen, sameRecord, c, raw);
      return if seen[key] == raw then ExactReplay else Corrupt;
    }
    UnseenDecides(keys, seen, sameRecord, c);
    AdmittedRange(keys, raw);
    if sameRecord == [] {
      FirstDecides(c);
      if c.anchorSeq != 1 || !StatusTransitionOk(None, c.status) {
        return Corrupt;
      }
      return Appended;
    }
    var highest := Highest(sameRecord);
    LaterDecides(sameRecord, highest, c);
    if highest.anchorSeq == 0xFFFF_FFFF_FFFF_FFFF || c.anchorSeq != highest.anchorSeq + 1
       || !StatusTransitionOk(Some(highest.status), c.status)
    {
      return Corrupt;
    }
    return Appended;
  }

  // ----- lemmas for the loop ---------------------------------------------------------------------

  lemma MineEmpty(keys: Keys, recordKey: bytes)
    ensures Mine(keys, [], recordKey) == []
  {}

  lemma NothingSeen(keys: Keys, c: Rvfa1)
    ensures DistinctKeys(BySeq, []) && OwnedBy([], c) && Indexes(keys, map[], [], c.recordKey)
  {}

  lemma AdmittedSoFar(keys: Keys, existing: seq<bytes>, n: nat)
    requires n <= |existing|
    ensures n == 0 ==> AllAdmitted(keys, existing[..n])
    ensures n < |existing| && AllAdmitted(keys, existing[..n]) && Admit(keys, existing[n]).Some? ==> AllAdmitted(keys, existing[..n + 1])
    ensures n < |existing| && Admit(keys, existing[n]).None? ==> !AllAdmitted(keys, existing)
  {
    hide Admit;
  }

  lemma MineSnoc(keys: Keys, existing: seq<bytes>, n: nat, recordKey: bytes)
    requires n < |existing|
    ensures existing[..n + 1] == existing[..n] + [existing[n]]
    ensures Mine(keys, existing[..n + 1], recordKey) == Mine(keys, existing[..n], recordKey) + Mine(keys, [existing[n]], recordKey)
    ensures Mine(keys, [existing[n]], recordKey) ==
            match Admit(keys, existing[n])
            case None => []
            case Some(item) => if item.recordKey == recordKey then [item] else []
  {
    hide Admit;
    assert existing[..n + 1][..n] == existing[..n];
    var one: seq<bytes> := [existing[n]];
    assert one[..0] == [];
  }

  lemma {:induction false} MineConcat(keys: Keys, a: seq<bytes>, b: seq<bytes>, recordKey: bytes)
    ensures Mine(keys, a + b, recordKey) == Mine(keys, a, recordKey) + Mine(keys, b, recordKey)
  {
    hide Admit;
    if b == [] {
      assert a + b == a;
    } else {
      MineConcat(keys, a, b[..|b| - 1], recordKey);
      assert (a + b)[..|a + b| - 1] == a + b[..|b| - 1];
    }
  }

  lemma MinePrefix(keys: Keys, existing: seq<bytes>, n: nat, recordKey: bytes)
    requires n <= |existing|
    ensures Mine(keys, existing[..n], recordKey) <= Mine(keys, existing, recordKey)
  {
    MineConcat(keys, existing[..n], existing[n..], recordKey);
    assert existing[..n] + existing[n..] == existing;
  }

  /** A second blob with an identity already seen makes the whole list unfit. */
  lemma Duplicate(keys: Keys, existing: seq<bytes>, n: nat, c: Rvfa1, seen: map<(bytes, int), bytes>)
    requires n < |existing| && Admit(keys, existing[n]).Some?
    requires Indexes(keys, seen, Mine(keys, existing[..n], c.recordKey), c.recordKey)
    requires (Admit(keys, existing[n]).value.recordKey, Admit(keys, existing[n]).value.anchorSeq) in seen
    ensures !Sound(keys, existing, c)
  {
    hide Admit, Mine, Sort, Linked, AllAdmitted, OwnedBy;
    MineSnoc(keys, existing, n, c.recordKey);
    MinePrefix(keys, existing, n + 1, c.recordKey);
    var mine, front := Mine(keys, existing, c.recordKey), Mine(keys, existing[..n], c.recordKey);
    var i :| 0 <= i < |front| && front[i].anchorSeq == Admit(keys, existing[n]).value.anchorSeq;
    assert mine[i] == front[i] && mine[|front|] == Admit(keys, existing[n]).value;
  }

  lemma ForeignOwner(keys: Keys, existing: seq<bytes>, n: nat, c: Rvfa1)
    requires n < |existing| && Admit(keys, existing[n]).Some?
    requires Admit(keys, existing[n]).value.recordKey == c.recordKey
    requires !SameOwner(Admit(keys, existing[n]).value, c)
    ensures !Sound(keys, existing, c)
  {
    hide Admit, Mine, Sort, Linked, AllAdmitted, DistinctKeys;
    MineSnoc(keys, existing, n, c.recordKey);
    MinePrefix(keys, existing, n + 1, c.recordKey);
    var mine, front := Mine(keys, existing, c.recordKey), Mine(keys, existing[..n], c.recordKey);
    assert mine[|front|] == Admit(keys, existing[n]).value;
  }

  lemma DistinctSnoc(keys: Keys, seen: map<(bytes, int), bytes>, mine: seq<Rvfa1>, item: Rvfa1, c: Rvfa1)
    requires OwnedBy(mine, c) && SameOwner(item, c)
    requires DistinctKeys(BySeq, mine) && Indexes(keys, seen, mine, item.recordKey)
    requires (item.recordKey, item.anchorSeq) !in seen
    ensures DistinctKeys(BySeq, mine + [item]) && OwnedBy(mine + [item], c)
  {
    hide Admit;
  }

  lemma IndexesSnoc(keys: Keys, seen: map<(bytes, int), bytes>, mine: seq<Rvfa1>, item: Rvfa1, raw: bytes)
    requires Indexes(keys, seen, mine, item.recordKey) && Admit(keys, raw) == Some(item)
    ensures Indexes(keys, seen[(item.recordKey, item.anchorSeq) := raw], mine + [item], item.recordKey)
  {
    hide Admit;
  }

  /** Admission is injective: a blob is determined by the anchor read from it. */
  lemma AdmitInjective(keys: Keys, a: bytes, b: bytes)
    requires Admit(keys, a).Some? && Admit(keys, a) == Admit(keys, b)
    ensures a == b
  {
    hide Decode, Encode, RecordInvariantsOk;
    EncodeOfDecode(keys.hmac, keys.anchor, a);
    EncodeOfDecode(keys.hmac, keys.anchor, b);
  }

  lemma AdmittedRange(keys: Keys, raw: bytes)
    requires Admit(keys, raw).Some?
    ensures 0 <= Admit(keys, raw).value.anchorSeq <= 0xFFFF_FFFF_FFFF_FFFF
  {
    hide Decode, Encode, RecordInvariantsOk;
    EncodeOfDecode(keys.hmac, keys.anchor, raw);
    Widths();
  }

  lemma InSorted(mine: seq<Rvfa1>, x: Rvfa1)
    ensures x in mine <==> x in Sort(BySeq, mine)
  {
    SortMultiset(BySeq, mine);
    assert x in mine <==> x in multiset(mine);
    assert x in Sort(BySeq, mine) <==> x in multiset(Sort(BySeq, mine));
  }

  lemma SeenDecides(keys: Keys, seen: map<(bytes, int), bytes>, mine: seq<Rvfa1>, c: Rvfa1, raw: bytes)
    requires Indexes(keys, seen, mine, c.recordKey) && Linked(Sort(BySeq, mine)) && Admit(keys, raw) == Some(c)
    requires (c.recordKey, c.anchorSeq) in seen
    ensures Next(Sort(BySeq, mine), c) == if seen[(c.recordKey, c.anchorSeq)] == raw then ExactReplay else Corrupt
  {
    hide Admit, Sort;
    var was := seen[(c.recordKey, c.anchorSeq)];
    var a := Admit(keys, was).value;
    InSorted(mine, a);
    if a == c {
      AdmitInjective(keys, was, raw);
    }
  }

  lemma UnseenDecides(keys: Keys, seen: map<(bytes, int), bytes>, mine: seq<Rvfa1>, c: Rvfa1)
    requires Indexes(keys, seen, mine, c.recordKey) && Linked(Sort(BySeq, mine))
    requires (c.recordKey, c.anchorSeq) !in seen
    ensures !(1 <= c.anchorSeq <= |Sort(BySeq, mine)|)
  {
    hide Admit, Sort;
    var chain := Sort(BySeq, mine);
    if 1 <= c.anchorSeq <= |chain| {
      var a := chain[c.anchorSeq - 1];
      InSorted(mine, a);
    }
  }

  lemma HighestIsLast(mine: seq<Rvfa1>, h: Rvfa1)
    requires mine != [] && h == Highest(mine) && Linked(Sort(BySeq, mine))
    ensures Sort(BySeq, mine) != [] && Sort(BySeq, mine)[|Sort(BySeq, mine)| - 1] == h && h.anchorSeq == |Sort(BySeq, mine)|
  {
    hide Sort;
    var chain := Sort(BySeq, mine);
    InSorted(mine, h);
    SortMultiset(BySeq, mine);
    InSorted(mine, chain[|chain| - 1]);
  }

  /** The first anchor of a record. */
  lemma FirstDecides(c: Rvfa1)
    ensures Next(Sort(BySeq, []), c) == if c.anchorSeq == 1 && StatusTransitionOk(None, c.status) then Appended else Corrupt
  {
    hide StatusTransitionOk;
  }

  /** The next anchor after the highest; the test for the last sequence number is implied. */
  lemma LaterDecides(mine: seq<Rvfa1>, h: Rvfa1, c: Rvfa1)
    requires mine != [] && h == Highest(mine) && Linked(Sort(BySeq, mine)) && !(1 <= c.anchorSeq <= |Sort(BySeq, mine)|)
    ensures Next(Sort(BySeq, mine), c)
            == if c.anchorSeq == h.anchorSeq + 1 && StatusTransitionOk(Some(h.status), c.status) then Appended else Corrupt
  {
    hide Sort, StatusTransitionOk, Linked;
    HighestIsLast(mine, h);
  }

  // ----- the decision forgets the order of the list --------------------------------------------------

  lemma {:induction false} MinePermute(keys: Keys, s: seq<bytes>, t: seq<bytes>, recordKey: bytes)
    requires multiset(s) == multiset(t)
    ensures multiset(Mine(keys, s, recordKey)) == multiset(Mine(keys, t, recordKey))
    decreases |s|
  {
    hide Admit, Mine;
    SameLength(s, t);
    if s != [] {
      var x, front := s[|s| - 1], s[..|s| - 1];
      assert x in multiset(t);
      var p :| 0 <= p < |t| && t[p] == x;
      RemoveAtMultiset(t, p);
      DropLastMultiset(s);
      MinePermute(keys, front, t[..p] + t[p + 1..], recordKey);
      MineConcat(keys, front, [x], recordKey);
      assert s == front + [x];
      MineAt(keys, t, p, recordKey);
    }
  }

  lemma MineAt(keys: Keys, t: seq<bytes>, p: nat, recordKey: bytes)
    requires p < |t|
    ensures multiset(Mine(keys, t, recordKey))
            == multiset(Mine(keys, t[..p] + t[p + 1..], recordKey)) + multiset(Mine(keys, [t[p]], recordKey))
  {
    hide Admit, Mine;
    MineConcat(keys, t[..p], t[p + 1..], recordKey);
    MineConcat(keys, t[..p], [t[p]], recordKey);
    MineConcat(keys, t[..p] + [t[p]], t[p + 1..], recordKey);
    assert t == t[..p] + [t[p]] + t[p + 1..];
  }

  lemma AllAdmittedPermute(keys: Keys, s: seq<bytes>, t: seq<bytes>)
    requires multiset(s) == multiset(t) && AllAdmitted(keys, s)
    ensures AllAdmitted(keys, t)
  {
    hide Admit;
    forall i | 0 <= i < |t| ensures Admit(keys, t[i]).Some? {
      assert t[i] in multiset(s);
    }
  }

  lemma OwnedByPermute(s: seq<Rvfa1>, t: seq<Rvfa1>, c: Rvfa1)
    requires multiset(s) == multiset(t) && OwnedBy(s, c)
    ensures OwnedBy(t, c)
  {
    forall i | 0 <= i < |t| ensures SameOwner(t[i], c) {
      assert t[i] in multiset(s);
    }
  }

  lemma BySeqOrder()
    ensures TotalOrder(BySeq)
  {}

  lemma SoundPermute(keys: Keys, s: seq<bytes>, t: seq<bytes>, c: Rvfa1)
    requires multiset(s) == multiset(t) && Sound(keys, s, c)
    ensures Sound(keys, t, c)
    ensures Sort(BySeq, Mine(keys, s, c.recordKey)) == Sort(BySeq, Mine(keys, t, c.recordKey))
  {
    hide Admit, Mine, Sort, Linked, DistinctKeys, OwnedBy, AllAdmitted, TotalOrder;
    var m, n := Mine(keys, s, c.recordKey), Mine(keys, t, c.recordKey);
    MinePermute(keys, s, t, c.recordKey);
    AllAdmittedPermute(keys, s, t);
    OwnedByPermute(m, n, c);
    DistinctKeysPermute(BySeq, m, n);
    BySeqOrder();
    SortForgetsOrder(BySeq, m, n);
  }

  /** For any two arrangements of the same blobs, sound or not, the decision is the same. */
  lemma OrderIrrelevant(keys: Keys, s: seq<bytes>, t: seq<bytes>, raw: bytes)
    requires multiset(s) == multiset(t)
    ensures Decide(keys, s, raw) == Decide(keys, t, raw)
  {
    hide Admit, Mine, Sort, Sound, Next;
    match Admit(keys, raw)
    case None =>
    case Some(c) =>
      if Sound(keys, s, c) {
        SoundPermute(keys, s, t, c);
      } else if Sound(keys, t, c) {
        SoundPermute(keys, t, s, c);
      }
  }

  // ----- stores grown by appends only -------------------------------------------------------------------

  /** The store after a series of submissions, of which only appended ones are kept. */
  ghost function Grow(keys: Keys, submissions: seq<bytes>): seq<bytes> {
    if submissions == [] then []
    else
      var store := Grow(keys, submissions[..|submissions| - 1]);
      var raw := submissions[|submissions| - 1];
      if Decide(keys, store, raw) == Appended then store + [raw] else store
  }

  ghost predicate Uniform(chain: seq<Rvfa1>) {
    forall i, j :: 0 <= i < |chain| && 0 <= j < |chain| ==> SameOwner(chain[i], chain[j])
  }

  /** HEAD+ (DELETING TOMBSTONE?)? */
  ghost predicate History(word: seq<Status>) {
    exists heads :: 1 <= heads <= |word|
      && (forall i :: 0 <= i < heads ==> word[i] == Head)
      && (word[heads..] == [] || word[heads..] == [Deleting] || word[heads..] == [Deleting, Tombstone])
  }

  /** Each record's anchors, in arrival order, form one complete history of one session and role. */
  ghost predicate ChainOk(chain: seq<Rvfa1>) {
    && Numbered(chain)
    && Uniform(chain)
    && (chain == [] || History(Statuses(chain)))
  }

  ghost predicate StoreOk(keys: Keys, store: seq<bytes>) {
    AllAdmitted(keys, store) && forall recordKey :: ChainOk(Mine(keys, store, recordKey))
  }

  /** The status edges generate exactly the histories. */
  lemma {:induction false} EdgesAreHistories(word: seq<Status>)
    ensures word != [] ==> (Edges(word) <==> History(word))
  {
    hide History, Edges;
    if |word| > 1 {
      var front, last := word[..|word| - 1], word[|word| - 1];
      assert word == front + [last];
      EdgesAreHistories(front);
      HistorySnoc(front, last);
      EdgesSnoc(front, last);
    } else if |word| == 1 {
      HistoryOne(word);
      EdgesOne(word);
    }
  }

  lemma HistoryOne(word: seq<Status>)
    requires |word| == 1
    ensures History(word) <==> word[0] == Head
  {
    assert word[1..] == [];
  }

  lemma EdgesOne(word: seq<Status>)
    requires |word| == 1
    ensures Edges(word) <==> word[0] == Head
  {
    assert EdgeAt(word, 0) <==> word[0] == Head;
  }

  lemma EdgesSnoc(front: seq<Status>, last: Status)
    requires front != []
    ensures Edges(front + [last]) <==> Edges(front) && StatusTransitionOk(Some(front[|front| - 1]), last)
  {
    hide StatusTransitionOk;
    var word := front + [last];
    assert forall i :: 0 <= i < |front| ==> EdgeAt(front, i) == EdgeAt(word, i);
    assert EdgeAt(word, |front|) == StatusTransitionOk(Some(front[|front| - 1]), last);
  }

  lemma HistorySnoc(front: seq<Status>, last: Status)
    requires front != []
    ensures History(front + [last]) <==> History(front) && StatusTransitionOk(Some(front[|front| - 1]), last)
  {
    if History(front) && StatusTransitionOk(Some(front[|front| - 1]), last) {
      HistoryExtends(front, last);
    }
    if History(front + [last]) {
      HistoryShrinks(front, last);
    }
  }

  lemma HistoryExtends(front: seq<Status>, last: Status)
    requires History(front) && StatusTransitionOk(Some(front[|front| - 1]), last)
    ensures History(front + [last])
  {
    var word := front + [last];
    var h :| 1 <= h <= |front| && (forall i :: 0 <= i < h ==> front[i] == Head)
      && (front[h..] == [] || front[h..] == [Deleting] || front[h..] == [Deleting, Tombstone]);
    var heads := if last == Head then h + 1 else h;
    assert word[h..] == front[h..] + [last];
    if front[h..] != [] {
      assert front[|front| - 1] == front[h..][|front| - h - 1];
    }
    assert word[heads..] == if last == Head then [] else front[h..] + [last];
  }

  lemma HistoryShrinks(front: seq<Status>, last: Status)
    requires front != [] && History(front + [last])
    ensures History(front) && StatusTransitionOk(Some(front[|front| - 1]), last)
  {
    var word := front + [last];
    var h :| 1 <= h <= |word| && (forall i :: 0 <= i < h ==> word[i] == Head)
      && (word[h..] == [] || word[h..] == [Deleting] || word[h..] == [Deleting, Tombstone]);
    assert forall i :: 0 <= i < |front| ==> front[i] == word[i];
    if h == |word| {
      AllHeads(front, |front|);
      assert word[|front|] == Head;
    } else {
      assert word[h..] == front[h..] + [last];
      ShorterEnding(front[h..], last);
      HeadsAndEnding(front, h);
    }
  }

  lemma AllHeads(word: seq<Status>, h: nat)
    requires 1 <= h == |word| && forall i :: 0 <= i < h ==> word[i] == Head
    ensures History(word)
  {
    assert word[h..] == [];
  }

  lemma ShorterEnding(tail: seq<Status>, last: Status)
    requires tail + [last] == [Deleting] || tail + [last] == [Deleting, Tombstone]
    ensures (tail == [] && last == Deleting) || (tail == [Deleting] && last == Tombstone)
  {
    assert (tail + [last])[|tail|] == last && (tail + [last])[..|tail|] == tail;
  }

  lemma HeadsAndEnding(word: seq<Status>, h: nat)
    requires 1 <= h <= |word| && forall i :: 0 <= i < h ==> word[i] == Head
    requires word[h..] == [] || word[h..] == [Deleting]
    ensures History(word)
    ensures word[|word| - 1] == if word[h..] == [] then Head else Deleting
  {
    assert word[h..] != [] ==> word[|word| - 1] == word[h..][0];
  }

  lemma LinkedIffChain(chain: seq<Rvfa1>)
    ensures Linked(chain) && Uniform(chain) <==> ChainOk(chain)
  {
    hide Uniform, History, Edges;
    EdgesAreHistories(Statuses(chain));
    assert chain == [] ==> Edges(Statuses(chain)) by { EdgesEmpty(Statuses(chain)); }
  }

  lemma EdgesEmpty(word: seq<Status>)
    ensures word == [] ==> Edges(word)
  {}

  /** In a sound store the ordered history of a record is its list of anchors as they arrived. */
  lemma ChainIsSorted(chain: seq<Rvfa1>)
    requires ChainOk(chain)
    ensures Sort(BySeq, chain) == chain && DistinctKeys(BySeq, chain) && Linked(chain)
  {
    hide Sort;
    LinkedIffChain(chain);
    SortOfSorted(BySeq, chain);
  }

  /** In a sound store the decision depends on the candidate and its own record alone. */
  lemma DecideInStore(keys: Keys, store: seq<bytes>, raw: bytes)
    requires StoreOk(keys, store) && Admit(keys, raw).Some?
    ensures var c := Admit(keys, raw).value;
            var chain := Mine(keys, store, c.recordKey);
            Decide(keys, store, raw) == if OwnedBy(chain, c) then Next(chain, c) else Corrupt
  {
    hide Admit, Mine, Sort, Linked, DistinctKeys, OwnedBy, Next;
    ChainIsSorted(Mine(keys, store, Admit(keys, raw).value.recordKey));
  }

  lemma ChainExtends(chain: seq<Rvfa1>, c: Rvfa1)
    requires ChainOk(chain) && OwnedBy(chain, c) && Next(chain, c) == Appended
    ensures ChainOk(chain + [c])
  {
    hide History, Edges, StatusTransitionOk;
    LinkedIffChain(chain);
    var longer := chain + [c];
    assert Uniform(longer);
    assert Statuses(longer) == Statuses(chain) + [c.status];
    if chain == [] {
      EdgesOne(Statuses(longer));
      assert StatusTransitionOk(None, c.status);
      StartsWithHead(c.status);
    } else {
      EdgesSnoc(Statuses(chain), c.status);
    }
    LinkedIffChain(longer);
  }

  lemma StartsWithHead(s: Status)
    ensures StatusTransitionOk(None, s) <==> s == Head
  {}

  lemma AppendKeepsStore(keys: Keys, store: seq<bytes>, raw: bytes)
    requires StoreOk(keys, store) && Decide(keys, store, raw) == Appended
    ensures StoreOk(keys, store + [raw])
  {
    hide Admit, Mine, Sort, Linked, DistinctKeys, OwnedBy, ChainOk, Next, Sound;
    var c := Admit(keys, raw).value;
    DecideInStore(keys, store, raw);
    forall recordKey ensures ChainOk(Mine(keys, store + [raw], recordKey)) {
      var chain := Mine(keys, store, recordKey);
      MineSnoc(keys, store + [raw], |store|, recordKey);
      assert (store + [raw])[..|store|] == store && (store + [raw])[..|store| + 1] == store + [raw];
      if c.recordKey == recordKey {
        ChainExtends(chain, c);
      } else {
        assert chain + [] == chain;
      }
    }
  }

  /**
   * Whatever is submitted, in whatever order, the kept blobs all authenticate, and each record's
   * anchors arrive numbered 1..N, with one session and role, along HEAD+ (DELETING TOMBSTONE?)?.
   */
  lemma {:induction false} GrowKeepsStore(keys: Keys, submissions: seq<bytes>)
    ensures StoreOk(keys, Grow(keys, submissions))
  {
    hide Decide, StoreOk;
    if submissions == [] {
      EmptyStore(keys);
    } else {
      GrowKeepsStore(keys, submissions[..|submissions| - 1]);
      var store := Grow(keys, submissions[..|submissions| - 1]);
      if Decide(keys, store, submissions[|submissions| - 1]) == Appended {
        AppendKeepsStore(keys, store, submissions[|submissions| - 1]);
      }
    }
  }

  /**
   * What every kept anchor says: its record key belongs to its session, a horizon is set exactly from
   * deletion on, and the transition is blank exactly for the first anchor and the tombstone.
   */
  lemma GrownAnchors(keys: Keys, submissions: seq<bytes>, recordKey: bytes, a: Rvfa1)
    requires a in Mine(keys, Grow(keys, submissions), recordKey)
    ensures a.recordKey == recordKey == keys.hmac(keys.index, RecordDomain() + a.sessionId)
    ensures a.horizonMs == 0 <==> a.status == Head
    ensures a.transitionId == ZeroBytes(32) <==> a.anchorSeq == 1 || a.status == Tombstone
    ensures a.anchorSeq == 1 ==> a.status == Head
  {
    hide Grow, Mine, Decode, RecordDomain;
    MineRecord(keys, Grow(keys, submissions), recordKey, a);
    var raw := MineIsStored(keys, Grow(keys, submissions), recordKey, a);
  }

  lemma {:induction false} MineRecord(keys: Keys, existing: seq<bytes>, recordKey: bytes, a: Rvfa1)
    requires a in Mine(keys, existing, recordKey)
    ensures a.recordKey == recordKey
  {
    hide Admit;
    if a in Mine(keys, existing[..|existing| - 1], recordKey) {
      MineRecord(keys, existing[..|existing| - 1], recordKey, a);
    }
  }

  lemma EmptyStore(keys: Keys)
    ensures StoreOk(keys, [])
  {}

  /** The anchor of every stored blob is in its record's chain. */
  lemma {:induction false} StoredIsMine(keys: Keys, existing: seq<bytes>, raw: bytes)
    requires raw in existing && Admit(keys, raw).Some?
    ensures Admit(keys, raw).value in Mine(keys, existing, Admit(keys, raw).value.recordKey)
  {
    hide Admit;
    if existing[|existing| - 1] != raw {
      StoredIsMine(keys, existing[..|existing| - 1], raw);
    }
  }

  lemma {:induction false} MineIsStored(keys: Keys, existing: seq<bytes>, recordKey: bytes, c: Rvfa1) returns (raw: bytes)
    requires c in Mine(keys, existing, recordKey)
    ensures raw in existing && Admit(keys, raw) == Some(c)
  {
    hide Admit;
    raw := existing[|existing| - 1];
    if Admit(keys, raw) != Some(c) {
      raw := MineIsStored(keys, existing[..|existing| - 1], recordKey, c);
    }
  }

  /** Re-submitting a blob is an exact replay precisely when the store already holds it. */
  lemma ReplayIffStored(keys: Keys, submissions: seq<bytes>, raw: bytes)
    ensures Decide(keys, Grow(keys, submissions), raw) == ExactReplay <==> raw in Grow(keys, submissions)
  {
    hide Admit, Mine, Sort, Linked, DistinctKeys, Sound, History, Grow;
    var store := Grow(keys, submissions);
    GrowKeepsStore(keys, submissions);
    if raw in store {
      StoredReplays(keys, store, raw);
    }
    if Decide(keys, store, raw) == ExactReplay {
      ReplayIsStored(keys, store, raw);
    }
  }

  lemma StoredReplays(keys: Keys, store: seq<bytes>, raw: bytes)
    requires StoreOk(keys, store) && raw in store
    ensures Decide(keys, store, raw) == ExactReplay
  {
    hide Admit, Mine, Sort, Linked, DistinctKeys, Sound, History, Decide;
    assert Admit(keys, raw).Some?;
    var c := Admit(keys, raw).value;
    StoredIsMine(keys, store, raw);
    DecideInStore(keys, store, raw);
    var chain := Mine(keys, store, c.recordKey);
    var p :| 0 <= p < |chain| && chain[p] == c;
  }

  /** For any list at all, an exact replay is a blob of that list. */
  lemma ReplayIsStored(keys: Keys, existing: seq<bytes>, raw: bytes)
    requires Decide(keys, existing, raw) == ExactReplay
    ensures raw in existing
  {
    hide Admit, Mine, Sort, Linked, DistinctKeys, OwnedBy;
    var c := Admit(keys, raw).value;
    var mine := Mine(keys, existing, c.recordKey);
    InSorted(mine, c);
    var stored := MineIsStored(keys, existing, c.recordKey, c);
    AdmitInjective(keys, stored, raw);
  }

  /** Nothing follows a tombstone, whatever is submitted. */
  lemma TombstoneIsFinal(keys: Keys, submissions: seq<bytes>, raw: bytes)
    requires Admit(keys, raw).Some?
    requires exists a :: a in Mine(keys, Grow(keys, submissions), Admit(keys, raw).value.recordKey) && a.status == Tombstone
    ensures Decide(keys, Grow(keys, submissions), raw) != Appended
  {
    hide Admit, Mine, Sort, Linked, DistinctKeys, Sound, Grow, Decide;
    var store, c := Grow(keys, submissions), Admit(keys, raw).value;
    GrowKeepsStore(keys, submissions);
    DecideInStore(keys, store, raw);
    var chain := Mine(keys, store, c.recordKey);
    var a :| a in chain && a.status == Tombstone;
    TombstoneIsLast(chain, a);
  }

  lemma TombstoneIsLast(chain: seq<Rvfa1>, a: Rvfa1)
    requires ChainOk(chain) && a in chain && a.status == Tombstone
    ensures chain[|chain| - 1] == a
  {
    hide History;
    LinkedIffChain(chain);
    var p :| 0 <= p < |chain| && chain[p] == a;
    var word := Statuses(chain);
    assert p + 1 < |chain| ==> EdgeAt(word, p + 1);
    assert word[p] == Tombstone;
  }
}
