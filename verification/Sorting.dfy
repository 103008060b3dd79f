/** Python's stable `sorted`, and what a strict key order makes of its result. */
module Sorting {

  ghost predicate TotalOrder<T(!new)>(le: (T, T) -> bool) {
    && (forall a, b :: le(a, b) || le(b, a))
    && (forall a, b, c :: le(a, b) && le(b, c) ==> le(a, c))
  }

  ghost predicate Sorted<T>(le: (T, T) -> bool, s: seq<T>) {
    forall i, j :: 0 <= i < j < |s| ==> le(s[i], s[j])
  }

  /** Distinct positions hold distinct keys. */
  ghost predicate DistinctKeys<T>(le: (T, T) -> bool, s: seq<T>) {
    forall i, j :: 0 <= i < j < |s| ==> !(le(s[i], s[j]) && le(s[j], s[i]))
  }

  /** Strictly increasing. */
  ghost predicate Strict<T>(le: (T, T) -> bool, s: seq<T>) {
    forall i, j :: 0 <= i < j < |s| ==> le(s[i], s[j]) && !le(s[j], s[i])
  }

  /** Places `x` after every element that is not greater: a stable insertion. */
  function Insert<T>(le: (T, T) -> bool, x: T, s: seq<T>): seq<T> {
    if s == [] then [x]
    else if le(s[|s| - 1], x) then s + [x]
    else Insert(le, x, s[..|s| - 1]) + [s[|s| - 1]]
  }

  function Sort<T>(le: (T, T) -> bool, s: seq<T>): seq<T> {
    if s == [] then [] else Insert(le, s[|s| - 1], Sort(le, s[..|s| - 1]))
  }

  function InsertPosition<T>(le: (T, T) -> bool, x: T, s: seq<T>): (p: nat)
    ensures p <= |s|
  {
    if s == [] then 0
    else if le(s[|s| - 1], x) then |s|
    else InsertPosition(le, x, s[..|s| - 1])
  }

  lemma {:induction false} InsertIsSplice<T>(le: (T, T) -> bool, x: T, s: seq<T>)
    ensures var p := InsertPosition(le, x, s); Insert(le, x, s) == s[..p] + [x] + s[p..]
  {
    if s != [] && !le(s[|s| - 1], x) {
      var front, p := s[..|s| - 1], InsertPosition(le, x, s);
      InsertIsSplice(le, x, front);
      assert s[..p] == front[..p] && s[p..] == front[p..] + [s[|s| - 1]];
    }
  }

  /** Elements that compare alike are inserted at the same place. */
  lemma {:induction false} InsertPositionSameKey<T>(le: (T, T) -> bool, x: T, y: T, s: seq<T>)
    requires forall i :: 0 <= i < |s| ==> le(s[i], x) == le(s[i], y)
    ensures InsertPosition(le, x, s) == InsertPosition(le, y, s)
  {
    if s != [] {
      InsertPositionSameKey(le, x, y, s[..|s| - 1]);
    }
  }

  lemma {:induction false} InsertMultiset<T>(le: (T, T) -> bool, x: T, s: seq<T>)
    ensures multiset(Insert(le, x, s)) == multiset(s) + multiset{x}
  {
    if s != [] && !le(s[|s| - 1], x) {
      InsertMultiset(le, x, s[..|s| - 1]);
      assert s == s[..|s| - 1] + [s[|s| - 1]];
    }
  }

  lemma {:induction false} SortMultiset<T>(le: (T, T) -> bool, s: seq<T>)
    ensures multiset(Sort(le, s)) == multiset(s)
    ensures |Sort(le, s)| == |s|
  {
    if s != [] {
      SortMultiset(le, s[..|s| - 1]);
      InsertMultiset(le, s[|s| - 1], Sort(le, s[..|s| - 1]));
      assert s == s[..|s| - 1] + [s[|s| - 1]];
    }
    assert |multiset(Sort(le, s))| == |multiset(s)|;
  }

  lemma {:induction false} InsertSorted<T(!new)>(le: (T, T) -> bool, x: T, s: seq<T>)
    requires TotalOrder(le) && Sorted(le, s)
    ensures Sorted(le, Insert(le, x, s))
  {
    if s != [] && !le(s[|s| - 1], x) {
      var front, last := s[..|s| - 1], s[|s| - 1];
      InsertSorted(le, x, front);
      InsertMultiset(le, x, front);
      var t := Insert(le, x, front);
      forall i | 0 <= i < |t| ensures le(t[i], last) {
        assert t[i] in multiset(t);
        assert t[i] in front || t[i] == x;
      }
    }
  }

  lemma {:induction false} SortSorted<T(!new)>(le: (T, T) -> bool, s: seq<T>)
    requires TotalOrder(le)
    ensures Sorted(le, Sort(le, s))
  {
    if s != [] {
      SortSorted(le, s[..|s| - 1]);
      InsertSorted(le, s[|s| - 1], Sort(le, s[..|s| - 1]));
    }
  }

  lemma {:induction false} SortOfSorted<T>(le: (T, T) -> bool, s: seq<T>)
    requires Sorted(le, s)
    ensures Sort(le, s) == s
  {
    if s != [] {
      SortOfSorted(le, s[..|s| - 1]);
      assert s == s[..|s| - 1] + [s[|s| - 1]];
    }
  }

  lemma StrictLast<T>(le: (T, T) -> bool, s: seq<T>, t: seq<T>)
    requires Strict(le, s) && Strict(le, t) && multiset(s) == multiset(t) && s != [] && t != []
    ensures s[|s| - 1] == t[|t| - 1]
  {
    var a, b := s[|s| - 1], t[|t| - 1];
    assert a in multiset(t) && b in multiset(s);
    var i :| 0 <= i < |t| && t[i] == a;
    var j :| 0 <= j < |s| && s[j] == b;
  }

  lemma DropLastMultiset<T>(s: seq<T>)
    requires s != []
    ensures multiset(s[..|s| - 1]) == multiset(s) - multiset{s[|s| - 1]}
  {
    assert s == s[..|s| - 1] + [s[|s| - 1]];
  }

  lemma SameLength<T>(s: seq<T>, t: seq<T>)
    requires multiset(s) == multiset(t)
    ensures |s| == |t|
  {
    assert |s| == |multiset(s)| && |t| == |multiset(t)|;
  }

  lemma StrictFront<T>(le: (T, T) -> bool, s: seq<T>)
    requires Strict(le, s) && s != []
    ensures Strict(le, s[..|s| - 1])
  {}

  /** At most one strictly increasing arrangement of a multiset exists. */
  lemma {:induction false} StrictUnique<T>(le: (T, T) -> bool, s: seq<T>, t: seq<T>)
    requires Strict(le, s) && Strict(le, t) && multiset(s) == multiset(t)
    ensures s == t
    decreases |s|
  {
    hide Strict;
    SameLength(s, t);
    if s != [] {
      StrictLast(le, s, t);
      DropLastMultiset(s);
      DropLastMultiset(t);
      StrictFront(le, s);
      StrictFront(le, t);
      StrictUnique(le, s[..|s| - 1], t[..|t| - 1]);
      assert s == s[..|s| - 1] + [s[|s| - 1]];
    }
  }

  lemma RemoveAtMultiset<T>(s: seq<T>, p: nat)
    requires p < |s|
    ensures multiset(s[..p] + s[p + 1..]) == multiset(s) - multiset{s[p]}
  {
    assert s == s[..p] + [s[p]] + s[p + 1..];
  }

  /** Two places of a rearrangement come from two places of the original. */
  lemma TwoPositions<T>(s: seq<T>, t: seq<T>, i: nat, j: nat) returns (p: nat, q: nat)
    requires multiset(s) == multiset(t) && i < j < |t|
    ensures p < q < |s| && ((s[p] == t[i] && s[q] == t[j]) || (s[p] == t[j] && s[q] == t[i]))
  {
    assert t[i] in multiset(s);
    p :| 0 <= p < |s| && s[p] == t[i];
    RemoveAtMultiset(s, p);
    RemoveAtMultiset(t, i);
    var s', t' := s[..p] + s[p + 1..], t[..i] + t[i + 1..];
    assert t'[j - 1] == t[j];
    assert t[j] in multiset(s');
    var k :| 0 <= k < |s'| && s'[k] == t[j];
    if k < p {
      p, q := k, p;
    } else {
      q := k + 1;
    }
  }

  /** Key distinctness survives rearrangement. */
  lemma DistinctKeysPermute<T>(le: (T, T) -> bool, s: seq<T>, t: seq<T>)
    requires DistinctKeys(le, s) && multiset(s) == multiset(t)
    ensures DistinctKeys(le, t)
  {
    forall i, j | 0 <= i < j < |t| ensures !(le(t[i], t[j]) && le(t[j], t[i])) {
      var p, q := TwoPositions(s, t, i, j);
    }
  }

  /** With distinct keys, sorting forgets the order of arrival. */
  lemma SortForgetsOrder<T(!new)>(le: (T, T) -> bool, s: seq<T>, t: seq<T>)
    requires TotalOrder(le) && DistinctKeys(le, s) && multiset(s) == multiset(t)
    ensures Sort(le, s) == Sort(le, t) && Strict(le, Sort(le, s))
  {
    SortStrict(le, s);
    DistinctKeysPermute(le, s, t);
    SortStrict(le, t);
    SortMultiset(le, s);
    SortMultiset(le, t);
    StrictUnique(le, Sort(le, s), Sort(le, t));
  }

  lemma SortStrict<T(!new)>(le: (T, T) -> bool, s: seq<T>)
    requires TotalOrder(le) && DistinctKeys(le, s)
    ensures Strict(le, Sort(le, s)) && multiset(Sort(le, s)) == multiset(s)
  {
    SortSorted(le, s);
    SortMultiset(le, s);
    DistinctKeysPermute(le, s, Sort(le, s));
  }

  lemma {:induction false} StrictCounts<T>(le: (T, T) -> bool, s: seq<T>, x: T)
    requires Strict(le, s)
    ensures multiset(s)[x] == if x in s then 1 else 0
  {
    if s != [] {
      var front, last := s[..|s| - 1], s[|s| - 1];
      StrictCounts(le, front, x);
      assert s == front + [last];
      forall i | 0 <= i < |front| ensures front[i] != last {
        assert le(s[i], s[|s| - 1]) && !le(s[|s| - 1], s[i]);
      }
    }
  }

  // ----- equal keys only on equal elements ------------------------------------------------

  /** Elements that compare alike are the same. */
  ghost predicate TiesEqual<T>(le: (T, T) -> bool, s: seq<T>) {
    forall i, j :: 0 <= i < |s| && 0 <= j < |s| && le(s[i], s[j]) && le(s[j], s[i]) ==> s[i] == s[j]
  }

  lemma SortedLast<T(!new)>(le: (T, T) -> bool, s: seq<T>, t: seq<T>)
    requires TotalOrder(le) && Sorted(le, s) && Sorted(le, t) && TiesEqual(le, s)
    requires multiset(s) == multiset(t) && s != [] && t != []
    ensures s[|s| - 1] == t[|t| - 1]
  {
    var a, b := s[|s| - 1], t[|t| - 1];
    assert a in multiset(t) && b in multiset(s);
    var i :| 0 <= i < |t| && t[i] == a;
    var j :| 0 <= j < |s| && s[j] == b;
    assert le(a, b) && le(b, a);
  }

  lemma SortedFront<T>(le: (T, T) -> bool, s: seq<T>)
    requires s != []
    ensures Sorted(le, s) ==> Sorted(le, s[..|s| - 1])
    ensures TiesEqual(le, s) ==> TiesEqual(le, s[..|s| - 1])
  {}

  /** When ties are equal, a multiset has one sorted arrangement. */
  lemma {:induction false} SortedUnique<T(!new)>(le: (T, T) -> bool, s: seq<T>, t: seq<T>)
    requires TotalOrder(le) && Sorted(le, s) && Sorted(le, t) && TiesEqual(le, s)
    requires multiset(s) == multiset(t)
    ensures s == t
    decreases |s|
  {
    hide TotalOrder, Sorted, TiesEqual;
    SameLength(s, t);
    if s != [] {
      SortedLast(le, s, t);
      DropLastMultiset(s);
      DropLastMultiset(t);
      SortedFront(le, s);
      SortedFront(le, t);
      SortedUnique(le, s[..|s| - 1], t[..|t| - 1]);
      assert s == s[..|s| - 1] + [s[|s| - 1]];
    }
  }

  lemma TiesEqualPermute<T>(le: (T, T) -> bool, s: seq<T>, t: seq<T>)
    requires TiesEqual(le, s) && multiset(s) == multiset(t)
    ensures TiesEqual(le, t)
  {
    forall i, j | 0 <= i < |t| && 0 <= j < |t| && le(t[i], t[j]) && le(t[j], t[i]) ensures t[i] == t[j] {
      assert t[i] in multiset(s) && t[j] in multiset(s);
      var p :| 0 <= p < |s| && s[p] == t[i];
      var q :| 0 <= q < |s| && s[q] == t[j];
    }
  }

  /** When ties are equal, sorting forgets the order of arrival. */
  lemma SortForgetsOrderOfTies<T(!new)>(le: (T, T) -> bool, s: seq<T>, t: seq<T>)
    requires TotalOrder(le) && TiesEqual(le, s) && multiset(s) == multiset(t)
    ensures Sort(le, s) == Sort(le, t)
  {
    hide TotalOrder, TiesEqual, Sorted, Sort;
    SortSorted(le, s);
    SortSorted(le, t);
    SortMultiset(le, s);
    SortMultiset(le, t);
    TiesEqualPermute(le, s, Sort(le, s));
    SortedUnique(le, Sort(le, s), Sort(le, t));
  }

  lemma SwapMultiset<T>(s: seq<T>, i: nat, j: nat)
    requires i < |s| && j < |s|
    ensures multiset(s[i := s[j]][j := s[i]]) == multiset(s)
  {}

  /** Exchanging two elements that compare alike leaves a sorted list sorted. */
  lemma SwapTies<T(!new)>(le: (T, T) -> bool, s: seq<T>, i: nat, j: nat)
    requires TotalOrder(le) && Sorted(le, s) && i < |s| && j < |s| && le(s[i], s[j]) && le(s[j], s[i])
    ensures Sorted(le, s[i := s[j]][j := s[i]])
  {
    var t := s[i := s[j]][j := s[i]];
    forall p, q | 0 <= p < q < |t| ensures le(t[p], t[q]) {
      assert le(t[p], s[p]) && le(s[q], t[q]);
      assert le(s[p], s[q]);
    }
  }

  /** Two different elements that compare alike: some arrangement sorts to something else. */
  lemma TiesShow<T(!new)>(le: (T, T) -> bool, s: seq<T>, a: T, b: T) returns (t: seq<T>, i: nat)
    requires TotalOrder(le) && a in s && b in s && a != b && le(a, b) && le(b, a)
    ensures multiset(t) == multiset(s) && |t| == |s| && i < |s|
    ensures Sort(le, t) == t && |Sort(le, s)| == |s| && Sort(le, s)[i] == a && t[i] == b
  {
    hide Sort, TotalOrder;
    var u := Sort(le, s);
    SortMultiset(le, s);
    assert a in multiset(s) && b in multiset(s);
    i :| 0 <= i < |u| && u[i] == a;
    var j :| 0 <= j < |u| && u[j] == b;
    t := u[i := u[j]][j := u[i]];
    SwapMultiset(u, i, j);
    SortSorted(le, s);
    SwapTies(le, u, i, j);
    SortOfSorted(le, t);
  }

  // ----- dictionary order -------------------------------------------------------------------

  ghost predicate StrictOrder<T(!new)>(lt: (T, T) -> bool) {
    && (forall a, b :: lt(a, b) || a == b || lt(b, a))
    && (forall a, b :: lt(a, b) ==> a != b && !lt(b, a))
    && (forall a, b, c :: lt(a, b) && lt(b, c) ==> lt(a, c))
  }

  /** Sequences compared element by element, a prefix before its extensions. */
  predicate Lex<T(==)>(lt: (T, T) -> bool, a: seq<T>, b: seq<T>) {
    a == [] || (b != [] && (lt(a[0], b[0]) || (a[0] == b[0] && Lex(lt, a[1..], b[1..]))))
  }

  lemma {:induction false} LexOrder<T(!new)>(lt: (T, T) -> bool, a: seq<T>, b: seq<T>, c: seq<T>)
    requires StrictOrder(lt)
    ensures Lex(lt, a, b) || Lex(lt, b, a)
    ensures Lex(lt, a, b) && Lex(lt, b, c) ==> Lex(lt, a, c)
    ensures Lex(lt, a, b) && Lex(lt, b, a) ==> a == b
  {
    if a != [] && b != [] {
      LexOrder(lt, a[1..], b[1..], if c == [] then [] else c[1..]);
      if Lex(lt, a, b) && Lex(lt, b, a) {
        assert a == [a[0]] + a[1..] && b == [b[0]] + b[1..];
      }
    }
  }
}
