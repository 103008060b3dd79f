/** Listing a caller's tasks: filters, the newest-first order and pages. */
module TaskListing {
  import opened Bytes
  import opened Sorting

  datatype TaskState = Submitted | Working | InputRequired | AuthRequired | Completed | Canceled | Failed | Rejected

  /** A task as the store sees it: its status timestamp as JSON text, and the length of its serialized form. */
  datatype Task = Task(id: string, contextId: string, state: TaskState, timestamp: Option<string>, byteSize: nat, body: string)

  /** Python's string order: by code point. */
  predicate LeString(a: string, b: string) { Lex((x: char, y: char) => x < y, a, b) }

  lemma LeStringOrder(a: string, b: string, c: string)
    ensures LeString(a, b) || LeString(b, a)
    ensures LeString(a, b) && LeString(b, c) ==> LeString(a, c)
    ensures LeString(a, b) && LeString(b, a) ==> a == b
  {
    LexOrder((x: char, y: char) => x < y, a, b, c);
  }

  // ----- filters and order ---------------------------------------------------------------------

  /** `ListTasksRequest`: an empty field asks for nothing; a page token is the id it encodes. */
  datatype Query = Query(contextId: string, status: Option<TaskState>, after: Option<string>, token: string, pageSize: int)

  predicate SameContext(q: Query, t: Task) { q.contextId == "" || t.contextId == q.contextId }
  predicate SameStatus(q: Query, t: Task) { q.status.None? || t.state == q.status.value }
  predicate NotBefore(q: Query, t: Task) { q.after.None? || (t.timestamp.Some? && LeString(q.after.value, t.timestamp.value)) }

  predicate Matches(q: Query, t: Task) { SameContext(q, t) && SameStatus(q, t) && NotBefore(q, t) }

  function Filter(keep: Task -> bool, tasks: seq<Task>): (r: seq<Task>)
    ensures forall t :: t in r <==> t in tasks && keep(t)
  {
    if tasks == [] then []
    else
      var r := Filter(keep, tasks[..|tasks| - 1]);
      assert tasks == tasks[..|tasks| - 1] + [tasks[|tasks| - 1]];
      if keep(tasks[|tasks| - 1]) then r + [tasks[|tasks| - 1]] else r
  }

  /** The three filters, one after the other. */
  function Selected(q: Query, tasks: seq<Task>): (r: seq<Task>)
    ensures forall t :: t in r <==> t in tasks && Matches(q, t)
  {
    Filter((t: Task) => NotBefore(q, t), Filter((t: Task) => SameStatus(q, t), Filter((t: Task) => SameContext(q, t), tasks)))
  }

  /** Descending by presence of a timestamp, its text, and the id. */
  predicate LeListing(a: Task, b: Task) {
    if a.timestamp.Some? != b.timestamp.Some? then a.timestamp.Some?
    else if a.timestamp != b.timestamp then LeString(b.timestamp.value, a.timestamp.value)
    else LeString(b.id, a.id)
  }

  function Listing(q: Query, tasks: seq<Task>): seq<Task> { Sort(LeListing, Selected(q, tasks)) }

  lemma LeListingOrder(a: Task, b: Task, c: Task)
    ensures LeListing(a, b) || LeListing(b, a)
    ensures LeListing(a, b) && LeListing(b, c) ==> LeListing(a, c)
    ensures LeListing(a, b) && LeListing(b, a) ==> a.id == b.id
  {
    hide LeString;
    LeStringOrder(a.id, b.id, c.id);
    LeStringOrder(b.id, a.id, c.id);
    LeStringOrder(c.id, b.id, a.id);
    if a.timestamp.Some? && b.timestamp.Some? {
      LeStringOrder(a.timestamp.value, b.timestamp.value, "");
      if c.timestamp.Some? {
        LeStringOrder(c.timestamp.value, b.timestamp.value, a.timestamp.value);
        LeStringOrder(a.timestamp.value, b.timestamp.value, c.timestamp.value);
      }
    }
  }

  lemma ListingOrder()
    ensures TotalOrder(LeListing)
  {
    hide LeListing;
    forall a: Task, b: Task ensures LeListing(a, b) || LeListing(b, a) { LeListingOrder(a, b, a); }
    forall a: Task, b: Task, c: Task | LeListing(a, b) && LeListing(b, c) ensures LeListing(a, c) { LeListingOrder(a, b, c); }
  }

  lemma {:induction false} FilterDistinct(keep: Task -> bool, tasks: seq<Task>)
    requires DistinctIds(tasks)
    ensures DistinctIds(Filter(keep, tasks))
  {
    if tasks != [] {
      var front, last := tasks[..|tasks| - 1], tasks[|tasks| - 1];
      FilterDistinct(keep, front);
      forall t | t in Filter(keep, front) ensures t.id != last.id {
        assert t in front;
      }
    }
  }

  lemma SelectedDistinct(q: Query, tasks: seq<Task>)
    requires DistinctIds(tasks)
    ensures DistinctIds(Selected(q, tasks))
  {
    hide DistinctIds;
    var one := Filter((t: Task) => SameContext(q, t), tasks);
    FilterDistinct((t: Task) => SameContext(q, t), tasks);
    FilterDistinct((t: Task) => SameStatus(q, t), one);
    FilterDistinct((t: Task) => NotBefore(q, t), Filter((t: Task) => SameStatus(q, t), one));
  }

  lemma DistinctIdsKeys(tasks: seq<Task>)
    requires DistinctIds(tasks)
    ensures DistinctKeys(LeListing, tasks)
  {
    hide LeListing;
    forall i, j | 0 <= i < j < |tasks| ensures !(LeListing(tasks[i], tasks[j]) && LeListing(tasks[j], tasks[i])) {
      LeListingOrder(tasks[i], tasks[j], tasks[i]);
    }
  }

  /** A listing has exactly the matching tasks, each once, strictly newest first. */
  lemma ListingIs(q: Query, tasks: seq<Task>)
    requires DistinctIds(tasks)
    ensures var s := Listing(q, tasks);
            && Strict(LeListing, s) && DistinctIds(s)
            && forall t :: t in s <==> t in tasks && Matches(q, t)
  {
    hide LeListing, Matches, Sort, Selected;
    var kept, s := Selected(q, tasks), Listing(q, tasks);
    ListingOrder();
    SelectedDistinct(q, tasks);
    DistinctIdsKeys(kept);
    SortStrict(LeListing, kept);
    forall t ensures t in s <==> t in kept {
      assert t in s <==> t in multiset(s);
      assert t in kept <==> t in multiset(kept);
    }
    forall i, j | 0 <= i < j < |s| ensures s[i].id != s[j].id {
      var p, r := TwoPositions(kept, s, i, j);
    }
    forall i | 0 <= i < |s| ensures s[i].id != "" {
      assert s[i] in kept;
    }
  }

  /** What is listed depends on the tasks alone, not on the order in which the dictionary gives them. */
  lemma ListingForgetsOrder(q: Query, tasks: seq<Task>, others: seq<Task>)
    requires DistinctIds(tasks) && DistinctIds(others) && forall t :: t in tasks <==> t in others
    ensures Listing(q, tasks) == Listing(q, others)
  {
    hide LeListing, Matches, Sort, Selected;
    var s, u := Listing(q, tasks), Listing(q, others);
    ListingIs(q, tasks);
    ListingIs(q, others);
    forall x ensures multiset(s)[x] == multiset(u)[x] {
      StrictCounts(LeListing, s, x);
      StrictCounts(LeListing, u, x);
    }
    assert multiset(s) == multiset(u);
    StrictUnique(LeListing, s, u);
  }

  // ----- pagination ------------------------------------------------------------------------------------------

  /** The first task with the given id, or -1. */
  function IndexOfId(tasks: seq<Task>, id: string): (i: int)
    ensures -1 <= i < |tasks|
    ensures i >= 0 ==> tasks[i].id == id
    ensures forall j :: 0 <= j < (if i < 0 then |tasks| else i) ==> tasks[j].id != id
  {
    if tasks == [] then -1
    else if IndexOfId(tasks[..|tasks| - 1], id) >= 0 then IndexOfId(tasks[..|tasks| - 1], id)
    else if tasks[|tasks| - 1].id == id then |tasks| - 1
    else -1
  }

  /** `ListTasksResponse` */
  datatype Page = Page(tasks: seq<Task>, next: Option<string>, total: nat, size: int)

  function Min(a: int, b: int): int { if a < b then a else b }

  /** The paging part of `list`: a token names the entry a page starts with. */
  function ListPage(tasks: seq<Task>, token: string, pageSize: int, defaultSize: int, maxCount: nat): Option<Page> {
    var start := if token == "" then 0 else IndexOfId(tasks, token);
    var size := if pageSize == 0 then defaultSize else pageSize;
    if start < 0 || size <= 0 then None
    else
      var end := start + Min(size, maxCount);
      Some(Page(tasks[start..if end < |tasks| then end else |tasks|],
                if end < |tasks| then Some(tasks[end].id) else None, |tasks|, Min(size, maxCount)))
  }

  /** The same as the source computes it, with its search for the named task. */
  method PageOf(tasks: seq<Task>, token: string, pageSize: int, defaultSize: int, maxCount: nat) returns (r: Option<Page>)
    ensures r == ListPage(tasks, token, pageSize, defaultSize, maxCount)
  {
    var start := 0;
    if token != "" {
      while start < |tasks| && tasks[start].id != token
        invariant 0 <= start <= |tasks| && forall j :: 0 <= j < start ==> tasks[j].id != token
      {
        start := start + 1;
      }
      if start == |tasks| {
        return None;
      }
    }
    var size := if pageSize == 0 then defaultSize else pageSize;
    if size <= 0 {
      return None;
    }
    var end := start + Min(size, maxCount);
    r := Some(Page(tasks[start..if end < |tasks| then end else |tasks|],
                   if end < |tasks| then Some(tasks[end].id) else None, |tasks|, Min(size, maxCount)));
  }

  /** Requesting pages until no token is left; `steps` bounds the number of requests. */
  function Follow(tasks: seq<Task>, token: string, pageSize: int, defaultSize: int, maxCount: nat, steps: nat): Option<seq<Task>>
    decreases steps
  {
    if steps == 0 then None
    else
      var page :- ListPage(tasks, token, pageSize, defaultSize, maxCount);
      if page.next.None? then Some(page.tasks)
      else
        var rest :- Follow(tasks, page.next.value, pageSize, defaultSize, maxCount, steps - 1);
        Some(page.tasks + rest)
  }

  predicate DistinctIds(tasks: seq<Task>) {
    && (forall i :: 0 <= i < |tasks| ==> tasks[i].id != "")
    && (forall i, j :: 0 <= i < j < |tasks| ==> tasks[i].id != tasks[j].id)
  }

  function PageEnd(start: nat, pageSize: int, defaultSize: int, maxCount: nat): int {
    start + Min(if pageSize == 0 then defaultSize else pageSize, maxCount)
  }

  lemma PageAt(tasks: seq<Task>, start: nat, pageSize: int, defaultSize: int, maxCount: nat)
    requires DistinctIds(tasks) && maxCount > 0 && (if pageSize == 0 then defaultSize else pageSize) > 0
    requires start < |tasks|
    ensures var end := PageEnd(start, pageSize, defaultSize, maxCount);
            && start < end
            && ListPage(tasks, tasks[start].id, pageSize, defaultSize, maxCount)
                 == Some(if end < |tasks| then Page(tasks[start..end], Some(tasks[end].id), |tasks|, end - start)
                         else Page(tasks[start..], None, |tasks|, end - start))
  {
    assert IndexOfId(tasks, tasks[start].id) == start;
    assert tasks[start..] == tasks[start..|tasks|];
  }

  lemma {:induction false} FollowFrom(tasks: seq<Task>, start: nat, pageSize: int, defaultSize: int, maxCount: nat, steps: nat)
    requires DistinctIds(tasks) && maxCount > 0 && (if pageSize == 0 then defaultSize else pageSize) > 0
    requires start < |tasks| < start + steps
    ensures Follow(tasks, tasks[start].id, pageSize, defaultSize, maxCount, steps) == Some(tasks[start..])
    decreases steps
  {
    hide ListPage, DistinctIds, PageEnd;
    PageAt(tasks, start, pageSize, defaultSize, maxCount);
    var end := PageEnd(start, pageSize, defaultSize, maxCount);
    if end < |tasks| {
      FollowFrom(tasks, end, pageSize, defaultSize, maxCount, steps - 1);
      assert tasks[start..] == tasks[start..end] + tasks[end..];
    }
  }

  /** Following the tokens from the first page shows every task exactly once, in order. */
  lemma PagesCoverListing(tasks: seq<Task>, pageSize: int, defaultSize: int, maxCount: nat)
    requires DistinctIds(tasks) && maxCount > 0 && (if pageSize == 0 then defaultSize else pageSize) > 0
    ensures Follow(tasks, "", pageSize, defaultSize, maxCount, |tasks| + 1) == Some(tasks)
  {
    hide IndexOfId;
    if tasks != [] {
      assert IndexOfId(tasks, tasks[0].id) == 0;
      assert ListPage(tasks, "", pageSize, defaultSize, maxCount) == ListPage(tasks, tasks[0].id, pageSize, defaultSize, maxCount);
      FollowFrom(tasks, 0, pageSize, defaultSize, maxCount, |tasks| + 1);
      assert tasks[0..] == tasks;
    }
  }

  /**
   * A page token names a task, not a position. Between two requests the listing may have changed from `s`
   * to `t`; of the tasks that did not change, the next page starts from the same ones as long as the
   * named task still compares with them as it did.
   */
  lemma TokenKeepsPlace(s: seq<Task>, t: seq<Task>, id: string, u: Task)
    requires Strict(LeListing, s) && Strict(LeListing, t) && u in s && u in t
    requires IndexOfId(s, id) >= 0 && IndexOfId(t, id) >= 0
    ensures var i, j := IndexOfId(s, id), IndexOfId(t, id);
            (u in s[i..] <==> u in t[j..]) <==> (LeListing(s[i], u) <==> LeListing(t[j], u))
  {
    FromToken(s, IndexOfId(s, id), u);
    FromToken(t, IndexOfId(t, id), u);
  }

  lemma FromToken(s: seq<Task>, i: nat, u: Task)
    requires Strict(LeListing, s) && u in s && i < |s|
    ensures u in s[i..] <==> LeListing(s[i], u)
  {
    hide LeListing;
    var k :| 0 <= k < |s| && s[k] == u;
    if k >= i {
      assert s[i..][k - i] == u;
      LeListingOrder(s[i], s[i], s[i]);
    }
  }

  /** It need not: when the named task is saved again meanwhile, a task of the first page is shown twice. */
  lemma ShownTwice() returns (s: seq<Task>, t: seq<Task>, u: Task)
    ensures DistinctIds(s) && DistinctIds(t) && Listing(Query("", None, None, "", 1), s) == s && Listing(Query("", None, None, "", 1), t) == t
    ensures ListPage(s, "", 1, 50, 10) == Some(Page([u], Some("b"), 2, 1))
    ensures ListPage(t, "b", 2, 50, 10).Some? && u in ListPage(t, "b", 2, 50, 10).value.tasks
  {
    hide LeListing, LeString, Listing, IndexOfId;
    u := Task("a", "", Working, Some("3"), 0, "");
    var b := Task("b", "", Working, Some("2"), 0, "");
    var b' := b.(timestamp := Some("4"));
    s, t := [u, b], [b', u];
    Later(b, u);
    Later(u, b');
    Pair(u, b);
    Pair(b', u);
    assert s[0..1] == [u] && t[0..2] == t;
    assert IndexOfId(t, "b") == 0 by { assert t[0].id == "b"; }
    assert u == t[1];
  }

  lemma Later(a: Task, b: Task)
    requires a.timestamp.Some? && b.timestamp.Some? && |a.timestamp.value| == 1 && |b.timestamp.value| == 1
    requires a.timestamp.value[0] < b.timestamp.value[0]
    ensures LeListing(b, a)
  {}

  lemma {:induction false} FilterAll(keep: Task -> bool, tasks: seq<Task>)
    requires forall t :: t in tasks ==> keep(t)
    ensures Filter(keep, tasks) == tasks
  {
    if tasks != [] {
      FilterAll(keep, tasks[..|tasks| - 1]);
    }
  }

  lemma Pair(a: Task, b: Task)
    requires LeListing(a, b)
    ensures Listing(Query("", None, None, "", 1), [a, b]) == [a, b]
  {
    hide LeListing, Sort, Filter;
    var q := Query("", None, None, "", 1);
    FilterAll((t: Task) => SameContext(q, t), [a, b]);
    FilterAll((t: Task) => SameStatus(q, t), [a, b]);
    FilterAll((t: Task) => NotBefore(q, t), [a, b]);
    SortOfSorted(LeListing, [a, b]);
  }
}
