/** The bounded task store: byte and count accounting, expiry and oldest-terminal-first eviction. */
module TaskStore {
  import opened Bytes
  import opened Sorting
  import opened Text
  import opened TaskListing

  const MAX_OWNER_KEY_BYTES := 1024
  const MAX_TASK_ID_KEY_BYTES := 4096
  const ENTRY_OVERHEAD_BYTES := 512

  type Key = (string, string)
  datatype Entry = Entry(task: Task, updatedAt: real, size: nat)

  datatype Outcome = Saved | InvalidParams | OverCapacity

  predicate Terminal(t: Task) { t.state == Completed || t.state == Canceled || t.state == Failed || t.state == Rejected }

  function SizeOf(t: Task, owner: string): nat { t.byteSize + |Utf8(owner)| + ENTRY_OVERHEAD_BYTES }

  // ----- sums over a map of entries ---------------------------------------------------------

  ghost function TotalSize(m: map<Key, Entry>): nat {
    if m == map[] then 0
    else
      var k :| k in m;
      m[k].size + TotalSize(m - {k})
  }

  lemma {:induction false} TotalSizeRemove(m: map<Key, Entry>, k: Key)
    requires k in m
    ensures TotalSize(m) == m[k].size + TotalSize(m - {k})
    decreases |m|
  {
    var j :| j in m && TotalSize(m) == m[j].size + TotalSize(m - {j});
    if j != k {
      assert |m - {j}| < |m| by { SmallerMap(m, j); }
      TotalSizeRemove(m - {j}, k);
      assert |m - {k}| < |m| by { SmallerMap(m, k); }
      TotalSizeRemove(m - {k}, j);
      assert m - {j} - {k} == m - {k} - {j};
    }
  }

  lemma SmallerMap(m: map<Key, Entry>, k: Key)
    requires k in m
    ensures |m - {k}| == |m| - 1
  {
    assert (m - {k}).Keys == m.Keys - {k};
  }

  lemma TotalSizeInsert(m: map<Key, Entry>, k: Key, e: Entry)
    requires k !in m
    ensures TotalSize(m[k := e]) == TotalSize(m) + e.size
    ensures |m[k := e]| == |m| + 1
  {
    var m' := m[k := e];
    TotalSizeRemove(m', k);
    SmallerMap(m', k);
    assert m' - {k} == m;
  }

  // ----- the eviction order ----------------------------------------------------------------------

  predicate LeKey(a: Key, b: Key) {
    if a.0 != b.0 then LeString(a.0, b.0) else LeString(a.1, b.1)
  }

  /** Oldest first, ties by key. */
  predicate LeCandidate(a: (real, Key), b: (real, Key)) {
    a.0 < b.0 || (a.0 == b.0 && LeKey(a.1, b.1))
  }

  lemma LeKeyOrder(a: Key, b: Key, c: Key)
    ensures LeKey(a, b) || LeKey(b, a)
    ensures LeKey(a, b) && LeKey(b, c) ==> LeKey(a, c)
    ensures LeKey(a, b) && LeKey(b, a) ==> a == b
  {
    LeStringOrder(a.0, b.0, c.0);
    LeStringOrder(b.0, c.0, a.0);
    LeStringOrder(a.1, b.1, c.1);
  }

  lemma CandidateOrder()
    ensures TotalOrder(LeCandidate)
    ensures forall a, b :: LeCandidate(a, b) && LeCandidate(b, a) ==> a == b
  {
    hide LeKey;
    forall a: (real, Key), b: (real, Key) ensures LeCandidate(a, b) || LeCandidate(b, a) { LeKeyOrder(a.1, b.1, a.1); }
    forall a: (real, Key), b: (real, Key), c: (real, Key) | LeCandidate(a, b) && LeCandidate(b, c) ensures LeCandidate(a, c) {
      LeKeyOrder(a.1, b.1, c.1);
    }
    forall a: (real, Key), b: (real, Key) | LeCandidate(a, b) && LeCandidate(b, a) ensures a == b { LeKeyOrder(a.1, b.1, a.1); }
  }

  // ----- specification of one save ------------------------------------------------------------------

  predicate Expired(e: Entry, now: real, ttl: real) { Terminal(e.task) && now - e.updatedAt >= ttl }

  function Pruned(m: map<Key, Entry>, now: real, ttl: real): map<Key, Entry> {
    map k | k in m && !Expired(m[k], now, ttl) :: m[k]
  }

  predicate IsCandidate(m: map<Key, Entry>, key: Key, c: (real, Key)) {
    c.1 in m && c.1 != key && Terminal(m[c.1].task) && c.0 == m[c.1].updatedAt
  }

  /** The entries that may be evicted to admit `key`: other keys' terminal ones, oldest first. */
  ghost predicate IsCandidates(m: map<Key, Entry>, key: Key, cs: seq<(real, Key)>) {
    Strict(LeCandidate, cs) && forall c :: c in cs <==> IsCandidate(m, key, c)
  }

  lemma CandidatesUnique(m: map<Key, Entry>, key: Key, cs: seq<(real, Key)>, ds: seq<(real, Key)>)
    requires IsCandidates(m, key, cs) && IsCandidates(m, key, ds)
    ensures cs == ds
  {
    hide Strict, IsCandidate;
    forall x ensures multiset(cs)[x] == multiset(ds)[x] {
      StrictCounts(LeCandidate, cs, x);
      StrictCounts(LeCandidate, ds, x);
      assert x in cs <==> IsCandidate(m, key, x);
    }
    assert multiset(cs) == multiset(ds);
    StrictUnique(LeCandidate, cs, ds);
  }

  function KeysOf(cs: seq<(real, Key)>): set<Key> { set i | 0 <= i < |cs| :: cs[i].1 }

  /** What is left beside `key` once the first `k` candidates are gone. */
  ghost function Left(m: map<Key, Entry>, key: Key, cs: seq<(real, Key)>, k: nat): map<Key, Entry>
    requires k <= |cs|
  {
    m - (KeysOf(cs[..k]) + {key})
  }

  /** Room for an entry of `size` beside `rest`. */
  ghost predicate HasRoom(rest: map<Key, Entry>, size: nat, maxCount: nat, maxBytes: nat) {
    |rest| + 1 <= maxCount && TotalSize(rest) + size <= maxBytes
  }

  /** `k` is the least number of oldest candidates whose removal makes room. */
  ghost predicate ShortestPrefix(m: map<Key, Entry>, key: Key, size: nat, cs: seq<(real, Key)>, k: nat, maxCount: nat, maxBytes: nat) {
    && k <= |cs|
    && HasRoom(Left(m, key, cs, k), size, maxCount, maxBytes)
    && (forall j :: 0 <= j < k ==> !HasRoom(Left(m, key, cs, j), size, maxCount, maxBytes))
  }

  ghost predicate EntriesOk(m: map<Key, Entry>) {
    forall k :: k in m ==> m[k].task.state != Rejected && m[k].task.id == k.1 && k.1 != ""
  }

  class BoundedTaskStore {
    const maxCount: nat
    const maxBytes: nat
    const ttl: real
    var entries: map<Key, Entry>
    var totalBytes: int

    constructor (maxCount: nat, maxBytes: nat, ttl: real)
      requires maxCount > 0 && maxBytes > 0 && ttl > 0.0
      ensures Valid() && entries == map[]
      ensures this.maxCount == maxCount && this.maxBytes == maxBytes && this.ttl == ttl
    {
      this.maxCount, this.maxBytes, this.ttl := maxCount, maxBytes, ttl;
      entries, totalBytes := map[], 0;
    }

    /** The counter is the sum of the sizes, both limits hold, no rejected task is kept, and keys carry their task's id. */
    ghost predicate Valid()
      reads this
    {
      && totalBytes == TotalSize(entries)
      && |entries| <= maxCount && totalBytes <= maxBytes
      && EntriesOk(entries)
    }

    method Remove(key: Key)
      requires totalBytes == TotalSize(entries)
      modifies this
      ensures entries == old(entries) - {key} && totalBytes == TotalSize(entries)
    {
      if key in entries {
        TotalSizeRemove(entries, key);
        totalBytes := totalBytes - entries[key].size;
        entries := entries - {key};
      } else {
        assert entries - {key} == entries;
      }
    }

    method RemoveAll(keys: set<Key>)
      requires totalBytes == TotalSize(entries)
      modifies this
      ensures entries == old(entries) - keys && totalBytes == TotalSize(entries)
    {
      var left := keys;
      assert entries - {} == entries;
      while left != {}
        invariant left <= keys && entries == old(entries) - (keys - left)
        invariant totalBytes == TotalSize(entries)
        decreases left
      {
        var k :| k in left;
        Remove(k);
        left := left - {k};
        assert old(entries) - (keys - left) == entries;
      }
      assert keys - {} == keys;
    }

    /** `_prune_expired_locked` */
    method PruneExpired(now: real)
      requires Valid()
      modifies this
      ensures Valid() && entries == Pruned(old(entries), now, ttl)
    {
      var expired := set k | k in entries && Expired(entries[k], now, ttl);
      RemoveAll(expired);
      assert entries == Pruned(old(entries), now, ttl);
      SubmapBounds(old(entries), expired);
    }

    /** The eviction candidates in order: `sorted` over the other keys' terminal entries. */
    method SortCandidates(key: Key) returns (cs: seq<(real, Key)>)
      ensures IsCandidates(entries, key, cs)
    {
      CandidateOrder();
      var left := set k | k in entries && k != key && Terminal(entries[k].task);
      cs := [];
      while left != {}
        invariant forall k :: k in left ==> IsCandidate(entries, key, (entries[k].updatedAt, k))
        invariant Strict(LeCandidate, cs)
        invariant forall c :: c in cs <==> IsCandidate(entries, key, c) && c.1 !in left
        decreases left
      {
        var k :| k in left;
        var x := (entries[k].updatedAt, k);
        AddCandidate(entries, key, cs, left, x);
        cs := Insert(LeCandidate, x, cs);
        left := left - {k};
      }
    }

    /** `_evictions_for_locked`: the running projection over the sorted candidates. */
    method EvictionsFor(key: Key, size: nat) returns (ok: bool, victims: seq<Key>, ghost cs: seq<(real, Key)>)
      requires Valid()
      ensures IsCandidates(entries, key, cs)
      ensures ok ==> |victims| <= |cs| && (forall i :: 0 <= i < |victims| ==> victims[i] == cs[i].1)
                     && ShortestPrefix(entries, key, size, cs, |victims|, maxCount, maxBytes)
      ensures !ok ==> !HasRoom(Left(entries, key, cs, |cs|), size, maxCount, maxBytes)
    {
      hide TotalSize, IsCandidates, Left;
      ok, victims := true, [];
      var count := |entries| + if key in entries then 0 else 1;
      var bytes := totalBytes - (if key in entries then entries[key].size else 0) + size;
      var candidates := SortCandidates(key);
      cs := candidates;
      NothingEvicted(entries, key, cs);
      if count <= maxCount && bytes <= maxBytes {
        return;
      }
      var i := 0;
      while i < |candidates|
        invariant 0 <= i <= |candidates| && |victims| == i
        invariant forall j :: 0 <= j < i ==> victims[j] == cs[j].1
        invariant count == |Left(entries, key, cs, i)| + 1
        invariant bytes == TotalSize(Left(entries, key, cs, i)) + size
        invariant forall j :: 0 <= j <= i ==> !HasRoom(Left(entries, key, cs, j), size, maxCount, maxBytes)
      {
        var victim := candidates[i].1;
        EvictNext(entries, key, cs, i);
        victims := victims + [victim];
        count := count - 1;
        bytes := bytes - entries[victim].size;
        i := i + 1;
        if count <= maxCount && bytes <= maxBytes {
          return;
        }
      }
      ok := false;
    }

    /** The commit part of `save`: the victims go, then the key's own entry is replaced. */
    method Replace(gone: set<Key>, key: Key, e: Entry)
      requires totalBytes == TotalSize(entries)
      modifies this
      ensures entries == (old(entries) - gone)[key := e]
      ensures totalBytes == TotalSize(entries)
      ensures |entries| == |old(entries) - (gone + {key})| + 1
      ensures totalBytes == TotalSize(old(entries) - (gone + {key})) + e.size
    {
      hide TotalSize;
      RemoveAll(gone);
      UpdateAfterRemove(entries, key, e);
      Remove(key);
      MinusMinus(old(entries), gone, {key});
      TotalSizeInsert(entries, key, e);
      entries := entries[key := e];
      totalBytes := totalBytes + e.size;
    }

    /**
     * `save`, at one reading of the clock. A rejected task is not stored and replaces nothing; a
     * task that fits replaces its own key after evicting the shortest oldest-first prefix of other
     * terminal entries that makes room; otherwise only expired entries are gone.
     */
    method Save(task: Task, owner: string, now: real) returns (r: Outcome, ghost cs: seq<(real, Key)>, ghost evicted: nat)
      requires Valid()
      modifies this
      ensures Valid()
      ensures r.InvalidParams? <==>
                |Utf8(owner)| > MAX_OWNER_KEY_BYTES || task.id == "" || |Utf8(task.id)| > MAX_TASK_ID_KEY_BYTES
      ensures r.InvalidParams? ==> entries == old(entries)
      ensures !r.InvalidParams? && task.state == Rejected ==> r.Saved? && entries == Pruned(old(entries), now, ttl)
      ensures !r.InvalidParams? && task.state != Rejected && SizeOf(task, owner) > maxBytes ==>
                r.OverCapacity? && entries == old(entries)
      ensures !r.InvalidParams? && task.state != Rejected && SizeOf(task, owner) <= maxBytes ==>
                var key, size, before := (owner, task.id), SizeOf(task, owner), Pruned(old(entries), now, ttl);
                && IsCandidates(before, key, cs)
                && (r.OverCapacity? <==> !HasRoom(Left(before, key, cs, |cs|), size, maxCount, maxBytes))
                && (r.OverCapacity? ==> entries == before)
                && (r.Saved? ==>
                      && ShortestPrefix(before, key, size, cs, evicted, maxCount, maxBytes)
                      && entries == (before - KeysOf(cs[..evicted]))[key := Entry(task, now, size)])
    {
      hide TotalSize, IsCandidates, Pruned, Utf8, KeysOf, EntriesOk;
      var key := (owner, task.id);
      var size := SizeOf(task, owner);
      cs, evicted := [], 0;
      if |Utf8(owner)| > MAX_OWNER_KEY_BYTES || task.id == "" || |Utf8(task.id)| > MAX_TASK_ID_KEY_BYTES {
        return InvalidParams, cs, 0;
      }
      if task.state == Rejected {
        // an entry that is itself rejected would be dropped here; the invariant says there is none
        PruneExpired(now);
        return Saved, cs, 0;
      }
      if size > maxBytes {
        return OverCapacity, cs, 0;
      }
      PruneExpired(now);
      ghost var before := entries;
      var ok, victims, sorted := EvictionsFor(key, size);
      cs := sorted;
      if !ok {
        return OverCapacity, cs, 0;
      }
      evicted := |victims|;
      RoomGrows(before, key, cs, evicted, size, maxCount, maxBytes);
      VictimKeys(cs, victims);
      var gone := set i | 0 <= i < |victims| :: victims[i];
      EntriesOkReplace(entries, gone, owner, Entry(task, now, size));
      Replace(gone, key, Entry(task, now, size));
      r := Saved;
    }

    /** `get`: expired entries go first, then the caller's own key is looked up. */
    method Get(taskId: string, owner: string, now: real) returns (r: Option<Task>, ok: bool)
      requires Valid()
      modifies this
      ensures Valid()
      ensures ok <==> |Utf8(owner)| <= MAX_OWNER_KEY_BYTES && |Utf8(taskId)| <= MAX_TASK_ID_KEY_BYTES
      ensures ok ==> entries == Pruned(old(entries), now, ttl)
                     && r == if (owner, taskId) in entries then Some(entries[(owner, taskId)].task) else None
      ensures !ok ==> entries == old(entries)
    {
      if |Utf8(owner)| > MAX_OWNER_KEY_BYTES || |Utf8(taskId)| > MAX_TASK_ID_KEY_BYTES {
        return None, false;
      }
      PruneExpired(now);
      r := if (owner, taskId) in entries then Some(entries[(owner, taskId)].task) else None;
      ok := true;
    }

    /** The caller's own tasks, as `list` gathers them once expired entries are gone. */
    method OwnTasks(owner: string, now: real) returns (tasks: seq<Task>)
      requires Valid()
      modifies this
      ensures Valid() && entries == Pruned(old(entries), now, ttl)
      ensures DistinctIds(tasks)
      ensures forall t :: t in tasks <==> (owner, t.id) in entries && entries[(owner, t.id)].task == t
    {
      hide Pruned, TotalSize;
      PruneExpired(now);
      var left := entries.Keys;
      tasks := [];
      while left != {}
        invariant left <= entries.Keys
        invariant DistinctIds(tasks)
        invariant forall t :: t in tasks <==> (owner, t.id) in entries && (owner, t.id) !in left && entries[(owner, t.id)].task == t
        decreases left
      {
        var k :| k in left;
        left := left - {k};
        if k.0 == owner {
          assert k == (owner, entries[k].task.id);
          tasks := tasks + [entries[k].task];
        }
      }
    }

    /** `list`, at one reading of the clock. */
    method List(q: Query, owner: string, now: real, defaultSize: int) returns (r: Option<Page>, ghost own: seq<Task>)
      requires Valid()
      modifies this
      ensures Valid()
      ensures |Utf8(owner)| > MAX_OWNER_KEY_BYTES ==> r.None? && entries == old(entries)
      ensures |Utf8(owner)| <= MAX_OWNER_KEY_BYTES ==>
                && entries == Pruned(old(entries), now, ttl)
                && DistinctIds(own)
                && (forall t :: t in own <==> (owner, t.id) in entries && entries[(owner, t.id)].task == t)
                && r == ListPage(Listing(q, own), q.token, q.pageSize, defaultSize, maxCount)
    {
      hide Pruned, TotalSize, DistinctIds, Sort, Filter, LeListing, ListPage, Utf8, EntriesOk;
      r, own := None, [];
      if |Utf8(owner)| > MAX_OWNER_KEY_BYTES {
        return;
      }
      var tasks := OwnTasks(owner, now);
      own := tasks;
      tasks := Filter((t: Task) => SameContext(q, t), tasks);
      tasks := Filter((t: Task) => SameStatus(q, t), tasks);
      tasks := Filter((t: Task) => NotBefore(q, t), tasks);
      tasks := Sort(LeListing, tasks);
      r := PageOf(tasks, q.token, q.pageSize, defaultSize, maxCount);
    }

    method Delete(taskId: string, owner: string, now: real) returns (ok: bool)
      requires Valid()
      modifies this
      ensures Valid()
      ensures ok <==> |Utf8(owner)| <= MAX_OWNER_KEY_BYTES
      ensures entries == if ok then Pruned(old(entries), now, ttl) - {(owner, taskId)} else old(entries)
    {
      if |Utf8(owner)| > MAX_OWNER_KEY_BYTES {
        return false;
      }
      PruneExpired(now);
      ghost var before := entries;
      Remove((owner, taskId));
      SubmapBounds(before, {(owner, taskId)});
      ok := true;
    }
  }

  // ----- lemmas the methods use ----------------------------------------------------------------------

  lemma EntriesOkReplace(m: map<Key, Entry>, gone: set<Key>, owner: string, e: Entry)
    requires EntriesOk(m) && e.task.state != Rejected && e.task.id != ""
    ensures EntriesOk((m - gone)[(owner, e.task.id) := e])
  {}

  lemma UpdateAfterRemove(m: map<Key, Entry>, k: Key, e: Entry)
    ensures (m - {k})[k := e] == m[k := e]
  {}

  lemma MinusMinus(m: map<Key, Entry>, a: set<Key>, b: set<Key>)
    ensures m - a - b == m - (a + b)
  {}

  lemma MinusNothing(m: map<Key, Entry>)
    ensures m - {} == m
  {}

  lemma OneMoreGone(m: map<Key, Entry>, fewer: set<Key>, k: Key)
    ensures |m - (fewer + {k})| <= |m - fewer| && TotalSize(m - (fewer + {k})) <= TotalSize(m - fewer)
  {
    hide TotalSize;
    MinusMinus(m, fewer, {k});
    WithoutKey(m - fewer, k);
  }

  lemma {:induction false} SubmapBounds(m: map<Key, Entry>, gone: set<Key>)
    ensures |m - gone| <= |m| && TotalSize(m - gone) <= TotalSize(m)
    decreases gone
  {
    hide TotalSize;
    if gone == {} {
      MinusNothing(m);
    } else {
      var k :| k in gone;
      var fewer := gone - {k};
      assert gone == fewer + {k};
      SubmapBounds(m, fewer);
      OneMoreGone(m, fewer, k);
    }
  }

  lemma WithoutKey(m: map<Key, Entry>, key: Key)
    ensures |m - {key}| == |m| - (if key in m then 1 else 0)
    ensures TotalSize(m - {key}) == TotalSize(m) - (if key in m then m[key].size else 0)
  {
    hide TotalSize;
    if key in m {
      TotalSizeRemove(m, key);
      SmallerMap(m, key);
    } else {
      assert m - {key} == m;
    }
  }

  lemma NothingEvicted(m: map<Key, Entry>, key: Key, cs: seq<(real, Key)>)
    ensures |Left(m, key, cs, 0)| == |m| - (if key in m then 1 else 0)
    ensures TotalSize(Left(m, key, cs, 0)) == TotalSize(m) - (if key in m then m[key].size else 0)
  {
    hide TotalSize;
    assert cs[..0] == [] && KeysOf([]) + {key} == {key};
    WithoutKey(m, key);
  }

  lemma CandidateNotBefore(m: map<Key, Entry>, key: Key, cs: seq<(real, Key)>, i: nat)
    requires IsCandidates(m, key, cs) && i < |cs|
    ensures IsCandidate(m, key, cs[i]) && cs[i].1 !in KeysOf(cs[..i])
  {
    assert cs[i] in cs;
    forall j | 0 <= j < i ensures cs[..i][j].1 != cs[i].1 {
      assert cs[j] in cs;
      assert LeCandidate(cs[j], cs[i]) && !LeCandidate(cs[i], cs[j]);
    }
  }

  /** Evicting one more candidate takes exactly that entry out of the projection. */
  lemma EvictNext(m: map<Key, Entry>, key: Key, cs: seq<(real, Key)>, i: nat)
    requires IsCandidates(m, key, cs) && i < |cs|
    ensures cs[i].1 in m
    ensures |Left(m, key, cs, i + 1)| == |Left(m, key, cs, i)| - 1
    ensures TotalSize(Left(m, key, cs, i + 1)) == TotalSize(Left(m, key, cs, i)) - m[cs[i].1].size
  {
    hide TotalSize, IsCandidates, KeysOf;
    KeysOfSnoc(cs, i);
    CandidateNotBefore(m, key, cs, i);
    var v := cs[i].1;
    assert Left(m, key, cs, i + 1) == Left(m, key, cs, i) - {v};
    WithoutKey(Left(m, key, cs, i), v);
  }

  lemma {:induction false} RoomGrows(m: map<Key, Entry>, key: Key, cs: seq<(real, Key)>, k: nat, size: nat, maxCount: nat, maxBytes: nat)
    requires IsCandidates(m, key, cs) && k <= |cs| && HasRoom(Left(m, key, cs, k), size, maxCount, maxBytes)
    ensures HasRoom(Left(m, key, cs, |cs|), size, maxCount, maxBytes)
    decreases |cs| - k
  {
    hide TotalSize, IsCandidates, Left;
    if k < |cs| {
      EvictNext(m, key, cs, k);
      RoomGrows(m, key, cs, k + 1, size, maxCount, maxBytes);
    }
  }

  lemma VictimKeys(cs: seq<(real, Key)>, victims: seq<Key>)
    requires |victims| <= |cs| && forall i :: 0 <= i < |victims| ==> victims[i] == cs[i].1
    ensures KeysOf(cs[..|victims|]) == set i | 0 <= i < |victims| :: victims[i]
  {
    forall i | 0 <= i < |victims| ensures cs[..|victims|][i].1 == victims[i] {}
  }

  lemma AddCandidate(m: map<Key, Entry>, key: Key, cs: seq<(real, Key)>, left: set<Key>, x: (real, Key))
    requires Strict(LeCandidate, cs) && x.1 in left && IsCandidate(m, key, x)
    requires forall c :: c in cs <==> IsCandidate(m, key, c) && c.1 !in left
    ensures Strict(LeCandidate, Insert(LeCandidate, x, cs))
    ensures forall c :: c in Insert(LeCandidate, x, cs) <==> IsCandidate(m, key, c) && c.1 !in left - {x.1}
  {
    hide LeCandidate, Strict, Insert;
    CandidateOrder();
    forall i | 0 <= i < |cs| ensures !(LeCandidate(cs[i], x) && LeCandidate(x, cs[i])) { assert cs[i] in cs; }
    InsertStrict(LeCandidate, x, cs);
    InsertMembers(LeCandidate, x, cs);
    forall c: (real, Key) ensures c in Insert(LeCandidate, x, cs) <==> IsCandidate(m, key, c) && c.1 !in left - {x.1} {
      if c.1 == x.1 && IsCandidate(m, key, c) { assert c == x; }
    }
  }

  lemma KeysOfSnoc(cs: seq<(real, Key)>, i: nat)
    requires i < |cs|
    ensures KeysOf(cs[..i + 1]) == KeysOf(cs[..i]) + {cs[i].1}
  {
    forall k | k in KeysOf(cs[..i]) ensures k in KeysOf(cs[..i + 1]) {
      var j :| 0 <= j < i && cs[..i][j].1 == k;
      assert cs[..i + 1][j].1 == k;
    }
    assert cs[..i + 1][i] == cs[i];
    forall k | k in KeysOf(cs[..i + 1]) ensures k in KeysOf(cs[..i]) + {cs[i].1} {
      var j :| 0 <= j <= i && cs[..i + 1][j].1 == k;
      if j < i { assert cs[..i][j].1 == k; }
    }
  }

  lemma InsertMembers<T>(le: (T, T) -> bool, x: T, s: seq<T>)
    ensures forall y :: y in Insert(le, x, s) <==> y == x || y in s
  {
    InsertMultiset(le, x, s);
    var t := Insert(le, x, s);
    forall y ensures y in t <==> y == x || y in s {
      assert y in t <==> y in multiset(t);
      assert y in s <==> y in multiset(s);
    }
  }

  lemma {:induction false} InsertStrict<T(!new)>(le: (T, T) -> bool, x: T, s: seq<T>)
    requires TotalOrder(le) && Strict(le, s)
    requires forall i :: 0 <= i < |s| ==> !(le(s[i], x) && le(x, s[i]))
    ensures Strict(le, Insert(le, x, s))
  {
    if s != [] && !le(s[|s| - 1], x) {
      var front, last := s[..|s| - 1], s[|s| - 1];
      InsertStrict(le, x, front);
      InsertMembers(le, x, front);
      var t := Insert(le, x, front);
      forall i | 0 <= i < |t| ensures le(t[i], last) && !le(last, t[i]) {
        assert t[i] in t;
      }
    }
  }

  // ----- what a successful save means for the other entries ----------------------------------------------

  /**
   * Beside the saved key: every active task is untouched, and a terminal one is gone exactly if it
   * is among the evicted, all of which are older than every terminal one that stays.
   */
  lemma SaveIsFair(before: map<Key, Entry>, key: Key, e: Entry, cs: seq<(real, Key)>, k: nat, other: Key)
    requires IsCandidates(before, key, cs) && k <= |cs| && other in before && other != key
    ensures var after := (before - KeysOf(cs[..k]))[key := e];
            && (!Terminal(before[other].task) ==> other in after && after[other] == before[other])
            && (other in after ==> after[other] == before[other])
            && (other in after && Terminal(before[other].task) ==>
                  forall i :: 0 <= i < k ==> LeCandidate(cs[i], (before[other].updatedAt, other)))
  {
    hide LeCandidate;
    var after := (before - KeysOf(cs[..k]))[key := e];
    if !Terminal(before[other].task) {
      forall i | 0 <= i < k ensures cs[..k][i].1 != other {
        assert cs[i] in cs;
      }
    } else if other in after {
      var c := (before[other].updatedAt, other);
      assert IsCandidate(before, key, c);
      var j :| 0 <= j < |cs| && cs[j] == c;
      forall i | 0 <= i < k ensures cs[i].1 in KeysOf(cs[..k]) { assert cs[..k][i] == cs[i]; }
      assert j >= k;
    }
  }
}
