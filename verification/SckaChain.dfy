/** The bounded epoch-chain cache of the ratchet state. */
module SckaChain {
  import opened BraidState
  import opened Sorting

  predicate LeChain(a: SckaChainEntry, b: SckaChainEntry) { a.epoch <= b.epoch }

  function Without(chain: seq<SckaChainEntry>, epoch: int): seq<SckaChainEntry> {
    if chain == [] then []
    else
      Without(chain[..|chain| - 1], epoch)
      + if chain[|chain| - 1].epoch != epoch then [chain[|chain| - 1]] else []
  }

  /** `_insert_scka_chain`: replace the epoch's entry, sort, and drop the oldest beyond eight. */
  function InsertChain(chain: seq<SckaChainEntry>, entry: SckaChainEntry): seq<SckaChainEntry> {
    var sorted := Sort(LeChain, Without(chain, entry.epoch) + [entry]);
    if |sorted| > MAX_SCKA_CHAIN then sorted[1..] else sorted
  }

  function InsertAll(chain: seq<SckaChainEntry>, entries: seq<SckaChainEntry>): seq<SckaChainEntry> {
    if entries == [] then chain
    else InsertChain(InsertAll(chain, entries[..|entries| - 1]), entries[|entries| - 1])
  }

  /** The unbounded table: the last entry written for each epoch. */
  function LastWritten(entries: seq<SckaChainEntry>): map<int, SckaChainEntry> {
    if entries == [] then map[]
    else LastWritten(entries[..|entries| - 1])[entries[|entries| - 1].epoch := entries[|entries| - 1]]
  }

  predicate Ascending(chain: seq<SckaChainEntry>) {
    forall i, j :: 0 <= i < j < |chain| ==> chain[i].epoch < chain[j].epoch
  }

  ghost predicate Lists(chain: seq<SckaChainEntry>, epoch: int) {
    exists i :: 0 <= i < |chain| && chain[i].epoch == epoch
  }

  /** The eight largest epochs of the table, ascending, or all of them if there are fewer. */
  ghost predicate TopEight(chain: seq<SckaChainEntry>, table: map<int, SckaChainEntry>) {
    && |chain| <= MAX_SCKA_CHAIN
    && Ascending(chain)
    && (forall i :: 0 <= i < |chain| ==> chain[i].epoch in table && table[chain[i].epoch] == chain[i])
    && (forall e :: e in table && !Lists(chain, e) ==> |chain| == MAX_SCKA_CHAIN && e < chain[0].epoch)
  }

  lemma {:induction false} WithoutAbsent(chain: seq<SckaChainEntry>, epoch: int)
    requires forall i :: 0 <= i < |chain| ==> chain[i].epoch != epoch
    ensures Without(chain, epoch) == chain
  {
    if chain != [] {
      WithoutAbsent(chain[..|chain| - 1], epoch);
      assert chain == chain[..|chain| - 1] + [chain[|chain| - 1]];
    }
  }

  lemma {:induction false} WithoutPresent(chain: seq<SckaChainEntry>, p: nat)
    requires Ascending(chain) && p < |chain|
    ensures Without(chain, chain[p].epoch) == chain[..p] + chain[p + 1..]
  {
    var front := chain[..|chain| - 1];
    if p == |chain| - 1 {
      WithoutAbsent(front, chain[p].epoch);
    } else {
      WithoutPresent(front, p);
      assert front[p + 1..] + [chain[|chain| - 1]] == chain[p + 1..];
    }
  }

  lemma RemoveAtAscending(chain: seq<SckaChainEntry>, p: nat)
    requires Ascending(chain) && p < |chain|
    ensures Ascending(chain[..p] + chain[p + 1..])
  {
    var rest := chain[..p] + chain[p + 1..];
    forall i | 0 <= i < |rest| ensures rest[i] == chain[if i < p then i else i + 1] {}
  }

  lemma RemoveAtMembers(chain: seq<SckaChainEntry>, p: nat, x: SckaChainEntry)
    requires Ascending(chain) && p < |chain|
    ensures x in chain[..p] + chain[p + 1..] <==> x in chain && x.epoch != chain[p].epoch
  {
    var rest := chain[..p] + chain[p + 1..];
    if x in rest {
      var i :| 0 <= i < |rest| && rest[i] == x;
      assert chain[if i < p then i else i + 1] == x;
    }
    if x in chain && x.epoch != chain[p].epoch {
      var i :| 0 <= i < |chain| && chain[i] == x;
      assert rest[if i < p then i else i - 1] == x;
    }
  }

  lemma WithoutAscending(chain: seq<SckaChainEntry>, epoch: int)
    requires Ascending(chain)
    ensures var rest := Without(chain, epoch);
            && Ascending(rest)
            && |rest| == |chain| - (if Lists(chain, epoch) then 1 else 0)
            && (forall x :: x in rest <==> x in chain && x.epoch != epoch)
  {
    hide Without, Ascending;
    if Lists(chain, epoch) {
      var p :| 0 <= p < |chain| && chain[p].epoch == epoch;
      WithoutPresent(chain, p);
      RemoveAtAscending(chain, p);
      forall x ensures x in Without(chain, epoch) <==> x in chain && x.epoch != epoch { RemoveAtMembers(chain, p, x); }
    } else {
      WithoutAbsent(chain, epoch);
    }
  }

  /** Before the cap: the chain with the entry in place, ascending. */
  lemma SortedWithEntry(chain: seq<SckaChainEntry>, entry: SckaChainEntry)
    requires Ascending(chain)
    ensures var sorted := Sort(LeChain, Without(chain, entry.epoch) + [entry]);
            && Ascending(sorted)
            && |sorted| == |chain| + (if Lists(chain, entry.epoch) then 0 else 1)
            && (forall x :: x in sorted <==> x == entry || (x in chain && x.epoch != entry.epoch))
  {
    hide Without, Sort, Lists;
    WithoutAscending(chain, entry.epoch);
    var s := Without(chain, entry.epoch) + [entry];
    forall i | 0 <= i < |s| - 1 ensures s[i].epoch != entry.epoch { assert s[i] in Without(chain, entry.epoch); }
    assert TotalOrder(LeChain);
    assert DistinctKeys(LeChain, s);
    SortStrict(LeChain, s);
    SortMultiset(LeChain, s);
    SameMembers(Sort(LeChain, s), s);
  }

  lemma SameMembers<T>(s: seq<T>, t: seq<T>)
    requires multiset(s) == multiset(t)
    ensures forall x :: x in s <==> x in t
  {
    forall x ensures x in s <==> x in t {
      assert x in s <==> x in multiset(s);
      assert x in t <==> x in multiset(t);
    }
  }

  lemma ListsIn(chain: seq<SckaChainEntry>, x: SckaChainEntry)
    requires x in chain
    ensures Lists(chain, x.epoch)
  {}

  /** One insertion keeps the cache equal to the top of the table. */
  lemma InsertKeepsTop(chain: seq<SckaChainEntry>, entry: SckaChainEntry, table: map<int, SckaChainEntry>)
    requires TopEight(chain, table)
    ensures TopEight(InsertChain(chain, entry), table[entry.epoch := entry])
  {
    hide Without, Sort, Lists;
    SortedWithEntry(chain, entry);
    var sorted := Sort(LeChain, Without(chain, entry.epoch) + [entry]);
    var result, table' := InsertChain(chain, entry), table[entry.epoch := entry];
    forall i | 0 <= i < |result| ensures result[i].epoch in table' && table'[result[i].epoch] == result[i] {
      assert result[i] in sorted;
    }
    forall e | e in table' && !Lists(result, e) ensures |result| == MAX_SCKA_CHAIN && e < result[0].epoch {
      if Lists(sorted, e) {
        DroppedIsFirst(sorted, result, e);
      } else {
        UnlistedIsOlder(chain, sorted, entry, table, e);
      }
    }
  }

  /** An epoch that the cap removed is below everything that stayed. */
  lemma DroppedIsFirst(sorted: seq<SckaChainEntry>, result: seq<SckaChainEntry>, e: int)
    requires Ascending(sorted) && |sorted| <= MAX_SCKA_CHAIN + 1
    requires result == if |sorted| > MAX_SCKA_CHAIN then sorted[1..] else sorted
    requires Lists(sorted, e) && !Lists(result, e)
    ensures |result| == MAX_SCKA_CHAIN && e < result[0].epoch
  {
    var i :| 0 <= i < |sorted| && sorted[i].epoch == e;
    if i > 0 {
      TailLists(sorted, i);
    }
  }

  lemma TailLists(chain: seq<SckaChainEntry>, i: nat)
    requires 0 < i < |chain|
    ensures Lists(chain[1..], chain[i].epoch)
  {
    assert chain[1..][i - 1] == chain[i];
  }

  /** An epoch that was already out of the cache stays below it. */
  lemma UnlistedIsOlder(chain: seq<SckaChainEntry>, sorted: seq<SckaChainEntry>, entry: SckaChainEntry, table: map<int, SckaChainEntry>, e: int)
    requires TopEight(chain, table) && Ascending(sorted)
    requires |sorted| == |chain| + (if Lists(chain, entry.epoch) then 0 else 1)
    requires forall x :: x in sorted <==> x == entry || (x in chain && x.epoch != entry.epoch)
    requires e in table[entry.epoch := entry] && !Lists(sorted, e)
    ensures var result := if |sorted| > MAX_SCKA_CHAIN then sorted[1..] else sorted;
            |result| == MAX_SCKA_CHAIN && e < result[0].epoch
  {
    assert entry in sorted;
    ListsIn(sorted, entry);
    forall i | 0 <= i < |chain| ensures chain[i].epoch == entry.epoch || Lists(sorted, chain[i].epoch) {
      if chain[i].epoch != entry.epoch {
        assert chain[i] in chain;
        ListsIn(sorted, chain[i]);
      }
    }
    assert !Lists(chain, e);
    var result := if |sorted| > MAX_SCKA_CHAIN then sorted[1..] else sorted;
    assert |chain| == MAX_SCKA_CHAIN && e < chain[0].epoch;
    if Lists(chain, entry.epoch) {
      assert sorted[0] in sorted;
      var j :| 0 <= j < |chain| && chain[j].epoch == entry.epoch;
      assert chain[0].epoch <= entry.epoch;
    } else {
      assert sorted[1] in sorted && sorted[0] in sorted;
      assert sorted[1].epoch >= chain[0].epoch;
    }
  }

  /** Any sequence of insertions leaves the eight largest epochs, each with its last entry. */
  lemma {:induction false} CacheIsTopEight(entries: seq<SckaChainEntry>)
    ensures TopEight(InsertAll([], entries), LastWritten(entries))
  {
    if entries != [] {
      CacheIsTopEight(entries[..|entries| - 1]);
      InsertKeepsTop(InsertAll([], entries[..|entries| - 1]), entries[|entries| - 1], LastWritten(entries[..|entries| - 1]));
    }
  }

  /** An insertion of a 32-byte chain key keeps a valid chain valid. */
  lemma InsertKeepsChainOk(chain: seq<SckaChainEntry>, entry: SckaChainEntry)
    requires ChainOk(chain) && |entry.ck| == 32
    ensures ChainOk(InsertChain(chain, entry))
    ensures forall i :: 0 <= i < |InsertChain(chain, entry)| ==>
              InsertChain(chain, entry)[i] == entry || InsertChain(chain, entry)[i] in chain
  {
    hide Without, Sort;
    AdjacentAscending(chain);
    SortedWithEntry(chain, entry);
    var sorted := Sort(LeChain, Without(chain, entry.epoch) + [entry]);
    var result := InsertChain(chain, entry);
    forall i | 0 <= i < |result| ensures |result[i].ck| == 32 && (result[i] == entry || result[i] in chain) {
      assert result[i] in sorted;
    }
  }

  lemma {:induction false} AdjacentAscending(chain: seq<SckaChainEntry>)
    requires StrictlySorted(LtChain, chain)
    ensures Ascending(chain)
  {
    if chain != [] {
      var front := chain[..|chain| - 1];
      AdjacentAscending(front);
      forall i, j | 0 <= i < j < |chain| ensures chain[i].epoch < chain[j].epoch {
        if j == |chain| - 1 {
          assert LtChain(chain[j - 1], chain[j]);
          if i < j - 1 { assert front[i].epoch < front[j - 1].epoch; }
        } else {
          assert front[i].epoch < front[j].epoch;
        }
      }
    }
  }
}
