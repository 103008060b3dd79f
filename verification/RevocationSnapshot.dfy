/** The canonical byte form of a revocation store, and what its hash therefore commits to. */
module RevocationSnapshot {
  import opened Bytes
  import opened Collections
  import opened ByteOrder
  import opened Sorting
  import opened Text

  type Sha256 = bytes -> Hash

  datatype Exhausted = Exhausted(identityAddress: string, claimDigest: bytes, record: bytes)
  datatype Corrupt = Corrupt(scope: string, reasonCode: int)

  function SnapshotDomain(): bytes { Utf8("rvn1/device-revocation/store-v1") }

  // ----- order ----------------------------------------------------------------------------

  function ByDigest(sha256: Sha256): (bytes, bytes) -> bool {
    (a, b) => LeBytes(sha256(a), sha256(b))
  }

  predicate ByAddress(a: Exhausted, b: Exhausted) {
    var x, y := Utf8(a.identityAddress), Utf8(b.identityAddress);
    if x != y then LeBytes(x, y) else LeBytes(a.claimDigest, b.claimDigest)
  }

  predicate ByScope(a: Corrupt, b: Corrupt) { LeBytes(Utf8(a.scope), Utf8(b.scope)) }

  lemma ByDigestOrder(sha256: Sha256)
    ensures TotalOrder(ByDigest(sha256))
  {
    hide LeBytes;
    var le := ByDigest(sha256);
    forall a: bytes, b: bytes ensures le(a, b) || le(b, a) { LeBytesOrder(sha256(a), sha256(b), []); }
    forall a: bytes, b: bytes, c: bytes | le(a, b) && le(b, c) ensures le(a, c) {
      LeBytesOrder(sha256(a), sha256(b), sha256(c));
    }
  }

  lemma ByAddressOrder()
    ensures TotalOrder(ByAddress)
  {
    hide LeBytes, Utf8;
    forall a: Exhausted, b: Exhausted ensures ByAddress(a, b) || ByAddress(b, a) {
      LeBytesOrder(Utf8(a.identityAddress), Utf8(b.identityAddress), []);
      LeBytesOrder(a.claimDigest, b.claimDigest, []);
    }
    forall a: Exhausted, b: Exhausted, c: Exhausted | ByAddress(a, b) && ByAddress(b, c) ensures ByAddress(a, c) {
      LeBytesOrder(Utf8(a.identityAddress), Utf8(b.identityAddress), Utf8(c.identityAddress));
      LeBytesOrder(Utf8(b.identityAddress), Utf8(a.identityAddress), []);
      LeBytesOrder(a.claimDigest, b.claimDigest, c.claimDigest);
    }
  }

  lemma ByScopeOrder()
    ensures TotalOrder(ByScope)
  {
    hide LeBytes, Utf8;
    forall a: Corrupt, b: Corrupt ensures ByScope(a, b) || ByScope(b, a) { LeBytesOrder(Utf8(a.scope), Utf8(b.scope), []); }
    forall a: Corrupt, b: Corrupt, c: Corrupt | ByScope(a, b) && ByScope(b, c) ensures ByScope(a, c) {
      LeBytesOrder(Utf8(a.scope), Utf8(b.scope), Utf8(c.scope));
    }
  }

  // ----- items ------------------------------------------------------------------------------

  predicate ClaimFits(b: bytes) { Fits(|b|, 4) }

  function PutClaim(sha256: Sha256, b: bytes, rest: bytes): bytes { sha256(b) + PutUint(|b|, 4, b + rest) }

  predicate ExhaustedFits(sha256: Sha256, e: Exhausted) {
    && IsAscii(e.identityAddress) && Fits(|Utf8(e.identityAddress)|, 2)
    && |e.claimDigest| == 32 && sha256(e.record) == e.claimDigest && Fits(|e.record|, 4)
  }

  function PutExhausted(e: Exhausted, rest: bytes): bytes {
    PutUint(|Utf8(e.identityAddress)|, 2, Utf8(e.identityAddress) + (e.claimDigest + PutUint(|e.record|, 4, e.record + rest)))
  }

  predicate CorruptFits(c: Corrupt) { Fits(|Utf8(c.scope)|, 2) }

  /** Only the low byte of a reason code is written. */
  function LowByte(c: Corrupt): Corrupt { c.(reasonCode := c.reasonCode % 256) }

  function PutCorrupt(c: Corrupt, rest: bytes): bytes {
    PutUint(|Utf8(c.scope)|, 2, Utf8(c.scope) + ([c.reasonCode % 256] + rest))
  }

  function Section<T>(put: (T, bytes) -> bytes, items: seq<T>, rest: bytes): bytes {
    PutUint(|items|, 4, PutMany(put, items, rest))
  }

  ghost predicate SnapshotFits(sha256: Sha256, generation: int, claims: seq<bytes>, exhausted: seq<Exhausted>, corrupt: seq<Corrupt>) {
    && Fits(generation, 8)
    && Fits(|claims|, 4) && (forall c :: c in claims ==> ClaimFits(c))
    && Fits(|exhausted|, 4) && (forall e :: e in exhausted ==> ExhaustedFits(sha256, e))
    && Fits(|corrupt|, 4) && (forall c :: c in corrupt ==> CorruptFits(c))
  }

  function Layout(sha256: Sha256, generation: int, claims: seq<bytes>, exhausted: seq<Exhausted>, corrupt: seq<Corrupt>): bytes {
    SnapshotDomain() + ([0] + PutUint(generation, 8,
      Section((b: bytes, rest: bytes) => PutClaim(sha256, b, rest), claims,
        Section(PutExhausted, exhausted, Section(PutCorrupt, corrupt, [])))))
  }

  /** `canonical_store_snapshot`; None where the source raises. */
  ghost function Snapshot(sha256: Sha256, generation: int, claims: seq<bytes>, exhausted: seq<Exhausted>, corrupt: seq<Corrupt>): Option<bytes> {
    if SnapshotFits(sha256, generation, claims, exhausted, corrupt) then
      Some(Layout(sha256, generation, Sort(ByDigest(sha256), claims), Sort(ByAddress, exhausted), Sort(ByScope, corrupt)))
    else None
  }

  ghost function StoreHash(sha256: Sha256, generation: int, claims: seq<bytes>, exhausted: seq<Exhausted>, corrupt: seq<Corrupt>): Option<Hash> {
    match Snapshot(sha256, generation, claims, exhausted, corrupt)
    case None => None
    case Some(b) => Some(sha256(b))
  }

  // ----- the code ------------------------------------------------------------------------------------

  /** One section of the snapshot: the count, then the items in order, each checked as it is written. */
  method WriteSection<T>(put: (T, bytes) -> bytes, ok: T -> bool, items: seq<T>, out: bytes) returns (r: Option<bytes>)
    requires forall v: T, rest: bytes :: put(v, rest) == put(v, []) + rest
    ensures r.Some? <==> Fits(|items|, 4) && forall i :: 0 <= i < |items| ==> ok(items[i])
    ensures r.Some? ==> r.value == out + Section(put, items, [])
  {
    if !Fits(|items|, 4) {
      return None;
    }
    var acc := out + BE(|items|, 4);
    var i := 0;
    assert items[0..] == items;
    while i < |items|
      invariant 0 <= i <= |items|
      invariant forall j :: 0 <= j < i ==> ok(items[j])
      invariant acc + PutMany(put, items[i..], []) == out + BE(|items|, 4) + PutMany(put, items, [])
    {
      if !ok(items[i]) {
        return None;
      }
      var rest := PutMany(put, items[i + 1..], []);
      assert items[i..][1..] == items[i + 1..];
      assert PutMany(put, items[i..], []) == put(items[i], []) + rest;
      assert acc + (put(items[i], []) + rest) == acc + put(items[i], []) + rest;
      acc := acc + put(items[i], []);
      i := i + 1;
    }
    assert out + BE(|items|, 4) + PutMany(put, items, []) == out + (BE(|items|, 4) + PutMany(put, items, []));
    assert acc + [] == acc;
    return Some(acc);
  }

  lemma InSort<T>(le: (T, T) -> bool, s: seq<T>, x: T)
    ensures x in Sort(le, s) <==> x in s
  {
    SortMultiset(le, s);
    assert x in s <==> x in multiset(s);
    assert x in Sort(le, s) <==> x in multiset(Sort(le, s));
  }

  lemma SortKeepsAll<T>(le: (T, T) -> bool, ok: T -> bool, s: seq<T>)
    ensures |Sort(le, s)| == |s|
    ensures (forall i :: 0 <= i < |Sort(le, s)| ==> ok(Sort(le, s)[i])) <==> forall x :: x in s ==> ok(x)
  {
    SortMultiset(le, s);
    var t := Sort(le, s);
    if forall i :: 0 <= i < |t| ==> ok(t[i]) {
      forall x | x in s ensures ok(x) { InSort(le, s, x); }
    }
    if forall x :: x in s ==> ok(x) {
      forall i | 0 <= i < |t| ensures ok(t[i]) { InSort(le, s, t[i]); }
    }
  }

  lemma {:induction false} PutManyAppend<T>(put: (T, bytes) -> bytes, vs: seq<T>, rest: bytes)
    requires forall v: T, rest: bytes :: put(v, rest) == put(v, []) + rest
    ensures PutMany(put, vs, rest) == PutMany(put, vs, []) + rest
  {
    if vs != [] {
      PutManyAppend(put, vs[1..], rest);
      assert put(vs[0], PutMany(put, vs[1..], [])) == put(vs[0], []) + PutMany(put, vs[1..], []);
      assert put(vs[0], []) + (PutMany(put, vs[1..], []) + rest) == put(vs[0], []) + PutMany(put, vs[1..], []) + rest;
    } else {
      assert [] + rest == rest;
    }
  }

  lemma SectionAppend<T>(put: (T, bytes) -> bytes, vs: seq<T>, rest: bytes)
    requires forall v: T, rest: bytes :: put(v, rest) == put(v, []) + rest
    ensures Section(put, vs, rest) == Section(put, vs, []) + rest
  {
    PutManyAppend(put, vs, rest);
    assert BE(|vs|, 4) + (PutMany(put, vs, []) + rest) == BE(|vs|, 4) + PutMany(put, vs, []) + rest;
  }

  lemma ItemsAppend(sha256: Sha256)
    ensures forall b: bytes, rest: bytes :: PutClaim(sha256, b, rest) == PutClaim(sha256, b, []) + rest
    ensures forall e: Exhausted, rest: bytes :: PutExhausted(e, rest) == PutExhausted(e, []) + rest
    ensures forall c: Corrupt, rest: bytes :: PutCorrupt(c, rest) == PutCorrupt(c, []) + rest
  {
    hide Utf8, BE;
    forall b: bytes, rest: bytes ensures PutClaim(sha256, b, rest) == PutClaim(sha256, b, []) + rest {
      assert BE(|b|, 4) + (b + rest) == BE(|b|, 4) + (b + []) + rest;
    }
    forall e: Exhausted, rest: bytes ensures PutExhausted(e, rest) == PutExhausted(e, []) + rest {
      var u, n := Utf8(e.identityAddress), BE(|e.record|, 4);
      var w := BE(|u|, 2);
      assert w + (u + (e.claimDigest + (n + (e.record + rest)))) == w + (u + (e.claimDigest + (n + (e.record + [])))) + rest;
    }
    forall c: Corrupt, rest: bytes ensures PutCorrupt(c, rest) == PutCorrupt(c, []) + rest {
      var u := Utf8(c.scope);
      var w := BE(|u|, 2);
      assert w + (u + ([c.reasonCode % 256] + rest)) == w + (u + ([c.reasonCode % 256] + [])) + rest;
    }
  }

  method CanonicalStoreSnapshot(sha256: Sha256, generation: int, claims: seq<bytes>, exhausted: seq<Exhausted>, corrupt: seq<Corrupt>)
    returns (r: Option<bytes>)
    ensures r == Snapshot(sha256, generation, claims, exhausted, corrupt)
  {
    hide Sort, Fits, PutClaim, PutExhausted, PutCorrupt, ClaimFits, ExhaustedFits, CorruptFits, Section, SnapshotDomain, ByDigest;
    if !Fits(generation, 8) {
      return None;
    }
    var claimsSorted := Sort(ByDigest(sha256), claims);
    var exhSorted := Sort(ByAddress, exhausted);
    var corSorted := Sort(ByScope, corrupt);
    ItemsAppend(sha256);
    var putClaim := (b: bytes, rest: bytes) => PutClaim(sha256, b, rest);
    var exhaustedFits := (e: Exhausted) => ExhaustedFits(sha256, e);
    SortKeepsAll(ByDigest(sha256), ClaimFits, claims);
    SortKeepsAll(ByAddress, exhaustedFits, exhausted);
    SortKeepsAll(ByScope, CorruptFits, corrupt);
    var out := SnapshotDomain() + [0] + PutUint(generation, 8, []);
    var s1 := WriteSection(putClaim, ClaimFits, claimsSorted, out);
    if s1 == None {
      return None;
    }
    var s2 := WriteSection(PutExhausted, exhaustedFits, exhSorted, s1.value);
    if s2 == None {
      return None;
    }
    r := WriteSection(PutCorrupt, CorruptFits, corSorted, s2.value);
    if r.Some? {
      Assemble(sha256, generation, claimsSorted, exhSorted, corSorted);
    }
  }

  lemma Assemble(sha256: Sha256, generation: int, claims: seq<bytes>, exhausted: seq<Exhausted>, corrupt: seq<Corrupt>)
    ensures SnapshotDomain() + [0] + PutUint(generation, 8, [])
            + Section((b: bytes, rest: bytes) => PutClaim(sha256, b, rest), claims, [])
            + Section(PutExhausted, exhausted, []) + Section(PutCorrupt, corrupt, [])
            == Layout(sha256, generation, claims, exhausted, corrupt)
  {
    hide Section, PutClaim, PutExhausted, PutCorrupt, SnapshotDomain, BE;
    ItemsAppend(sha256);
    var putClaim := (b: bytes, rest: bytes) => PutClaim(sha256, b, rest);
    var d, g := SnapshotDomain(), BE(if generation < 0 then 0 else generation, 8);
    var s1, s2, s3 := Section(putClaim, claims, []), Section(PutExhausted, exhausted, []), Section(PutCorrupt, corrupt, []);
    SectionAppend(putClaim, claims, s2 + s3);
    SectionAppend(PutExhausted, exhausted, s3);
    assert d + [0] + (g + []) + s1 + s2 + s3 == d + ([0] + (g + (s1 + (s2 + s3))));
  }

  // ----- what the bytes determine ---------------------------------------------------------------------------

  /** Items can be told apart, and told from what follows them. */
  ghost predicate PrefixFree<T(!new)>(put: (T, bytes) -> bytes, ok: T -> bool) {
    forall a: T, b: T, r: bytes, s: bytes :: ok(a) && ok(b) && put(a, r) == put(b, s) ==> a == b && r == s
  }

  lemma {:induction false} PutManyInjective<T(!new)>(put: (T, bytes) -> bytes, ok: T -> bool, xs: seq<T>, ys: seq<T>, r: bytes, s: bytes)
    requires PrefixFree(put, ok) && |xs| == |ys| && PutMany(put, xs, r) == PutMany(put, ys, s)
    requires forall i :: 0 <= i < |xs| ==> ok(xs[i]) && ok(ys[i])
    ensures xs == ys && r == s
  {
    if xs != [] {
      assert put(xs[0], PutMany(put, xs[1..], r)) == put(ys[0], PutMany(put, ys[1..], s));
      PutManyInjective(put, ok, xs[1..], ys[1..], r, s);
      assert xs == [xs[0]] + xs[1..] && ys == [ys[0]] + ys[1..];
    }
  }

  lemma PutUintInjective(n: int, m: int, w: nat, r: bytes, s: bytes)
    requires Fits(n, w) && Fits(m, w) && PutUint(n, w, r) == PutUint(m, w, s)
    ensures n == m && r == s
  {
    hide PutUint, Uint;
    GetOfPutUint(n, w, r);
    GetOfPutUint(m, w, s);
  }

  lemma ConcatInjective(a: bytes, b: bytes, r: bytes, s: bytes)
    requires |a| == |b| && a + r == b + s
    ensures a == b && r == s
  {
    TakeOfConcat(a, r);
    TakeOfConcat(b, s);
  }

  lemma SectionInjective<T(!new)>(put: (T, bytes) -> bytes, ok: T -> bool, xs: seq<T>, ys: seq<T>, r: bytes, s: bytes)
    requires PrefixFree(put, ok) && Fits(|xs|, 4) && Fits(|ys|, 4) && Section(put, xs, r) == Section(put, ys, s)
    requires forall i :: 0 <= i < |xs| ==> ok(xs[i])
    requires forall i :: 0 <= i < |ys| ==> ok(ys[i])
    ensures xs == ys && r == s
  {
    hide PrefixFree, PutMany, PutUint;
    PutUintInjective(|xs|, |ys|, 4, PutMany(put, xs, r), PutMany(put, ys, s));
    PutManyInjective(put, ok, xs, ys, r, s);
  }

  lemma ClaimsPrefixFree(sha256: Sha256)
    ensures PrefixFree((b: bytes, rest: bytes) => PutClaim(sha256, b, rest), ClaimFits)
  {
    hide PutUint, Fits;
    forall a: bytes, b: bytes, r: bytes, s: bytes | ClaimFits(a) && ClaimFits(b) && PutClaim(sha256, a, r) == PutClaim(sha256, b, s)
      ensures a == b && r == s
    {
      ConcatInjective(sha256(a), sha256(b), PutUint(|a|, 4, a + r), PutUint(|b|, 4, b + s));
      PutUintInjective(|a|, |b|, 4, a + r, b + s);
      ConcatInjective(a, b, r, s);
    }
  }

  lemma ExhaustedPrefixFree(sha256: Sha256)
    ensures PrefixFree(PutExhausted, (e: Exhausted) => ExhaustedFits(sha256, e))
  {
    hide PutUint, Fits, Utf8;
    forall a: Exhausted, b: Exhausted, r: bytes, s: bytes
      | ExhaustedFits(sha256, a) && ExhaustedFits(sha256, b) && PutExhausted(a, r) == PutExhausted(b, s)
      ensures a == b && r == s
    {
      var u, v := Utf8(a.identityAddress), Utf8(b.identityAddress);
      var r1, s1 := PutUint(|a.record|, 4, a.record + r), PutUint(|b.record|, 4, b.record + s);
      PutUintInjective(|u|, |v|, 2, u + (a.claimDigest + r1), v + (b.claimDigest + s1));
      ConcatInjective(u, v, a.claimDigest + r1, b.claimDigest + s1);
      ConcatInjective(a.claimDigest, b.claimDigest, r1, s1);
      PutUintInjective(|a.record|, |b.record|, 4, a.record + r, b.record + s);
      ConcatInjective(a.record, b.record, r, s);
      Utf8Injective(a.identityAddress, b.identityAddress);
    }
  }

  predicate MaskedFits(c: Corrupt) { CorruptFits(c) && 0 <= c.reasonCode < 256 }

  lemma CorruptPrefixFree()
    ensures PrefixFree(PutCorrupt, MaskedFits)
  {
    hide PutUint, Fits, Utf8;
    forall a: Corrupt, b: Corrupt, r: bytes, s: bytes | MaskedFits(a) && MaskedFits(b) && PutCorrupt(a, r) == PutCorrupt(b, s)
      ensures a == b && r == s
    {
      var u, v := Utf8(a.scope), Utf8(b.scope);
      PutUintInjective(|u|, |v|, 2, u + ([a.reasonCode % 256] + r), v + ([b.reasonCode % 256] + s));
      ConcatInjective(u, v, [a.reasonCode % 256] + r, [b.reasonCode % 256] + s);
      ConcatInjective([a.reasonCode % 256], [b.reasonCode % 256], r, s);
      Utf8Injective(a.scope, b.scope);
    }
  }

  function Masked(cs: seq<Corrupt>): (r: seq<Corrupt>)
    ensures |r| == |cs| && forall i :: 0 <= i < |cs| ==> r[i] == LowByte(cs[i])
  {
    seq(|cs|, i requires 0 <= i < |cs| => LowByte(cs[i]))
  }

  lemma PutLowByte(c: Corrupt, rest: bytes)
    ensures PutCorrupt(LowByte(c), rest) == PutCorrupt(c, rest)
  {}

  lemma {:induction false} PutMasked(cs: seq<Corrupt>, rest: bytes)
    ensures PutMany(PutCorrupt, Masked(cs), rest) == PutMany(PutCorrupt, cs, rest)
  {
    hide PutCorrupt, LowByte;
    if cs != [] {
      PutMasked(cs[1..], rest);
      assert Masked(cs)[1..] == Masked(cs[1..]);
      PutLowByte(cs[0], PutMany(PutCorrupt, cs[1..], rest));
    }
  }

  lemma {:induction false} MaskedMultiset(s: seq<Corrupt>, t: seq<Corrupt>)
    requires multiset(s) == multiset(t)
    ensures multiset(Masked(s)) == multiset(Masked(t))
    decreases |s|
  {
    hide Masked, LowByte;
    SameLength(s, t);
    if s == [] {
      assert t == [];
    } else {
      var s' := TakeOut(s, s[0]);
      var t' := TakeOut(t, s[0]);
      MaskedMultiset(s', t');
    }
  }

  lemma TakeOut(t: seq<Corrupt>, x: Corrupt) returns (r: seq<Corrupt>)
    requires x in multiset(t)
    ensures |r| < |t| && multiset(r) == multiset(t) - multiset{x}
    ensures multiset(Masked(t)) == multiset(Masked(r)) + multiset{LowByte(x)}
  {
    hide Masked, LowByte;
    var p :| 0 <= p < |t| && t[p] == x;
    r := t[..p] + t[p + 1..];
    RemoveAtMultiset(t, p);
    MaskedAt(t, p);
  }

  lemma MaskedAt(t: seq<Corrupt>, p: nat)
    requires p < |t|
    ensures multiset(Masked(t)) == multiset(Masked(t[..p] + t[p + 1..])) + multiset{LowByte(t[p])}
  {
    hide LowByte;
    var a, b := Masked(t[..p]), Masked(t[p + 1..]);
    assert Masked(t) == a + [LowByte(t[p])] + b;
    assert Masked(t[..p] + t[p + 1..]) == a + b;
  }

  lemma LayoutInjective(sha256: Sha256, g: int, cl: seq<bytes>, ex: seq<Exhausted>, co: seq<Corrupt>,
                        g': int, cl': seq<bytes>, ex': seq<Exhausted>, co': seq<Corrupt>)
    requires SnapshotFits(sha256, g, cl, ex, co) && SnapshotFits(sha256, g', cl', ex', co')
    requires Layout(sha256, g, cl, ex, co) == Layout(sha256, g', cl', ex', co')
    ensures g == g' && cl == cl' && ex == ex' && Masked(co) == Masked(co')
  {
    hide PutUint, Fits, PrefixFree, SnapshotDomain, ExhaustedFits, CorruptFits, PutMany;
    var putClaim := (b: bytes, rest: bytes) => PutClaim(sha256, b, rest);
    var k, k' := Section(PutCorrupt, co, []), Section(PutCorrupt, co', []);
    var e, e' := Section(PutExhausted, ex, k), Section(PutExhausted, ex', k');
    var c, c' := Section(putClaim, cl, e), Section(putClaim, cl', e');
    ConcatInjective(SnapshotDomain(), SnapshotDomain(), [0] + PutUint(g, 8, c), [0] + PutUint(g', 8, c'));
    ConcatInjective([0], [0], PutUint(g, 8, c), PutUint(g', 8, c'));
    PutUintInjective(g, g', 8, c, c');
    ClaimsPrefixFree(sha256);
    SectionInjective(putClaim, ClaimFits, cl, cl', e, e');
    ExhaustedPrefixFree(sha256);
    SectionInjective(PutExhausted, (e: Exhausted) => ExhaustedFits(sha256, e), ex, ex', k, k');
    CorruptPrefixFree();
    PutMasked(co, []);
    PutMasked(co', []);
    MaskedAllFit(co);
    MaskedAllFit(co');
    SectionInjective(PutCorrupt, MaskedFits, Masked(co), Masked(co'), [], []);
  }

  lemma MaskedAllFit(cs: seq<Corrupt>)
    requires forall c :: c in cs ==> CorruptFits(c)
    ensures forall i :: 0 <= i < |cs| ==> MaskedFits(Masked(cs)[i])
  {
    hide Utf8, Fits;
    forall i | 0 <= i < |cs| ensures MaskedFits(Masked(cs)[i]) { assert cs[i] in cs; }
  }

  lemma FitsSorted(sha256: Sha256, g: int, cl: seq<bytes>, ex: seq<Exhausted>, co: seq<Corrupt>)
    requires SnapshotFits(sha256, g, cl, ex, co)
    ensures SnapshotFits(sha256, g, Sort(ByDigest(sha256), cl), Sort(ByAddress, ex), Sort(ByScope, co))
  {
    hide Sort, ByDigest, ClaimFits, ExhaustedFits, CorruptFits, Fits;
    SortMultiset(ByDigest(sha256), cl);
    SortMultiset(ByAddress, ex);
    SortMultiset(ByScope, co);
    forall c | c in Sort(ByDigest(sha256), cl) ensures c in cl { InSort(ByDigest(sha256), cl, c); }
    forall c | c in Sort(ByAddress, ex) ensures c in ex { InSort(ByAddress, ex, c); }
    forall c | c in Sort(ByScope, co) ensures c in co { InSort(ByScope, co, c); }
  }

  /** A snapshot determines the generation and, up to list order, all three collections. */
  lemma SnapshotInjective(sha256: Sha256, g: int, cl: seq<bytes>, ex: seq<Exhausted>, co: seq<Corrupt>,
                          g': int, cl': seq<bytes>, ex': seq<Exhausted>, co': seq<Corrupt>)
    requires Snapshot(sha256, g, cl, ex, co).Some? && Snapshot(sha256, g, cl, ex, co) == Snapshot(sha256, g', cl', ex', co')
    ensures g == g' && multiset(cl) == multiset(cl') && multiset(ex) == multiset(ex') && multiset(Masked(co)) == multiset(Masked(co'))
  {
    hide Sort, SnapshotFits, Layout, ByDigest;
    FitsSorted(sha256, g, cl, ex, co);
    FitsSorted(sha256, g', cl', ex', co');
    LayoutInjective(sha256, g, Sort(ByDigest(sha256), cl), Sort(ByAddress, ex), Sort(ByScope, co),
                    g', Sort(ByDigest(sha256), cl'), Sort(ByAddress, ex'), Sort(ByScope, co'));
    SortMultiset(ByDigest(sha256), cl);
    SortMultiset(ByDigest(sha256), cl');
    SortMultiset(ByAddress, ex);
    SortMultiset(ByAddress, ex');
    SortMultiset(ByScope, co);
    SortMultiset(ByScope, co');
    MaskedMultiset(co, Sort(ByScope, co));
    MaskedMultiset(co', Sort(ByScope, co'));
  }

  // ----- when list order does not show ------------------------------------------------------------------------

  function SetOf(s: seq<bytes>): set<bytes> { set x | x in s }

  /** Markers of one address and digest hold one record. */
  ghost predicate MarkersDistinct(ex: seq<Exhausted>) {
    forall d, e :: d in ex && e in ex && d.identityAddress == e.identityAddress && d.claimDigest == e.claimDigest ==> d.record == e.record
  }

  /** No two items that are sorted alike are written differently. */
  ghost predicate OrderHidden(sha256: Sha256, cl: seq<bytes>, ex: seq<Exhausted>, co: seq<Corrupt>) {
    CollisionFree(sha256, SetOf(cl)) && MarkersDistinct(ex) && OneReasonPerScope(co)
  }

  /** Markers of one scope carry one written reason. */
  ghost predicate OneReasonPerScope(co: seq<Corrupt>) {
    forall c, d :: c in co && d in co && c.scope == d.scope ==> LowByte(c) == LowByte(d)
  }

  lemma {:induction false} SortMasked(cs: seq<Corrupt>)
    ensures Masked(Sort(ByScope, cs)) == Sort(ByScope, Masked(cs))
  {
    hide ByScope;
    if cs != [] {
      var front, x := cs[..|cs| - 1], cs[|cs| - 1];
      SortMasked(front);
      assert Masked(cs)[..|cs| - 1] == Masked(front);
      InsertMasked(x, Sort(ByScope, front));
    }
  }

  lemma MaskKeepsScope(a: Corrupt, b: Corrupt)
    ensures ByScope(LowByte(a), LowByte(b)) == ByScope(a, b)
  {}

  lemma {:induction false} InsertMasked(x: Corrupt, s: seq<Corrupt>)
    ensures Masked(Insert(ByScope, x, s)) == Insert(ByScope, LowByte(x), Masked(s))
  {
    hide ByScope, LowByte;
    if s != [] {
      var front, last := s[..|s| - 1], s[|s| - 1];
      MaskKeepsScope(last, x);
      InsertMasked(x, front);
      assert Masked(s)[..|s| - 1] == Masked(front);
    }
  }

  lemma ClaimTies(sha256: Sha256, cl: seq<bytes>)
    requires CollisionFree(sha256, SetOf(cl))
    ensures TiesEqual(ByDigest(sha256), cl)
  {
    hide LeBytes;
    var le := ByDigest(sha256);
    forall i, j | 0 <= i < |cl| && 0 <= j < |cl| && le(cl[i], cl[j]) && le(cl[j], cl[i]) ensures cl[i] == cl[j] {
      LeBytesOrder(sha256(cl[i]), sha256(cl[j]), []);
      assert cl[i] in SetOf(cl) && cl[j] in SetOf(cl);
    }
  }

  lemma ExhaustedTies(ex: seq<Exhausted>)
    requires MarkersDistinct(ex)
    ensures TiesEqual(ByAddress, ex)
  {
    hide ByAddress;
    forall i, j | 0 <= i < |ex| && 0 <= j < |ex| && ByAddress(ex[i], ex[j]) && ByAddress(ex[j], ex[i]) ensures ex[i] == ex[j] {
      assert ex[i] in ex && ex[j] in ex;
      ExhaustedTie(ex[i], ex[j]);
    }
  }

  /** Markers that sort alike agree in address and digest. */
  lemma ExhaustedTie(a: Exhausted, b: Exhausted)
    requires ByAddress(a, b) && ByAddress(b, a)
    ensures a.identityAddress == b.identityAddress && a.claimDigest == b.claimDigest
  {
    hide LeBytes, Utf8;
    LeBytesOrder(Utf8(a.identityAddress), Utf8(b.identityAddress), []);
    Utf8Injective(a.identityAddress, b.identityAddress);
    LeBytesOrder(a.claimDigest, b.claimDigest, []);
  }

  lemma CorruptTies(co: seq<Corrupt>)
    requires OneReasonPerScope(co)
    ensures TiesEqual(ByScope, Masked(co))
  {
    hide LeBytes, Utf8;
    var m := Masked(co);
    forall i, j | 0 <= i < |m| && 0 <= j < |m| && ByScope(m[i], m[j]) && ByScope(m[j], m[i]) ensures m[i] == m[j] {
      LeBytesOrder(Utf8(m[i].scope), Utf8(m[j].scope), []);
      Utf8Injective(m[i].scope, m[j].scope);
      assert co[i] in co && co[j] in co;
    }
  }

  lemma LayoutOfMasked(sha256: Sha256, g: int, cl: seq<bytes>, ex: seq<Exhausted>, co: seq<Corrupt>)
    ensures Layout(sha256, g, cl, ex, co) == Layout(sha256, g, cl, ex, Masked(co))
  {
    hide PutMany, PutUint, SnapshotDomain;
    PutMasked(co, []);
  }

  lemma FitsPermute(sha256: Sha256, g: int, cl: seq<bytes>, ex: seq<Exhausted>, co: seq<Corrupt>,
                    cl': seq<bytes>, ex': seq<Exhausted>, co': seq<Corrupt>)
    requires multiset(cl) == multiset(cl') && multiset(ex) == multiset(ex') && multiset(co) == multiset(co')
    ensures SnapshotFits(sha256, g, cl, ex, co) == SnapshotFits(sha256, g, cl', ex', co')
  {
    hide Fits, ClaimFits, ExhaustedFits, CorruptFits;
    SameLength(cl, cl');
    SameLength(ex, ex');
    SameLength(co, co');
    assert forall x :: x in cl <==> x in multiset(cl);
    assert forall x :: x in cl' <==> x in multiset(cl');
    assert forall x :: x in ex <==> x in multiset(ex);
    assert forall x :: x in ex' <==> x in multiset(ex');
    assert forall x :: x in co <==> x in multiset(co);
    assert forall x :: x in co' <==> x in multiset(co');
  }

  /**
   * Rearranging any of the lists leaves the snapshot as it was, when the claims have distinct digests,
   * the markers differ in address or digest and no scope carries two reasons.
   */
  lemma SnapshotForgetsOrder(sha256: Sha256, g: int, cl: seq<bytes>, ex: seq<Exhausted>, co: seq<Corrupt>,
                             cl': seq<bytes>, ex': seq<Exhausted>, co': seq<Corrupt>)
    requires OrderHidden(sha256, cl, ex, co)
    requires multiset(cl) == multiset(cl') && multiset(ex) == multiset(ex') && multiset(co) == multiset(co')
    ensures Snapshot(sha256, g, cl, ex, co) == Snapshot(sha256, g, cl', ex', co')
  {
    hide Sort, Layout, ByDigest, CollisionFree, MarkersDistinct, TotalOrder, TiesEqual, OneReasonPerScope, Fits, ExhaustedFits;
    FitsPermute(sha256, g, cl, ex, co, cl', ex', co');
    if SnapshotFits(sha256, g, cl, ex, co) {
      ByDigestOrder(sha256);
      ByAddressOrder();
      ByScopeOrder();
      ClaimTies(sha256, cl);
      SortForgetsOrderOfTies(ByDigest(sha256), cl, cl');
      ExhaustedTies(ex);
      SortForgetsOrderOfTies(ByAddress, ex, ex');
      CorruptTies(co);
      MaskedMultiset(co, co');
      SortForgetsOrderOfTies(ByScope, Masked(co), Masked(co'));
      SortMasked(co);
      SortMasked(co');
      LayoutOfMasked(sha256, g, Sort(ByDigest(sha256), cl), Sort(ByAddress, ex), Sort(ByScope, co));
      LayoutOfMasked(sha256, g, Sort(ByDigest(sha256), cl), Sort(ByAddress, ex), Sort(ByScope, co'));
    }
  }

  /** Different claims with one digest: some rearrangement of the claims changes the snapshot. */
  lemma EqualDigestsShowOrder(sha256: Sha256, g: int, cl: seq<bytes>, ex: seq<Exhausted>, co: seq<Corrupt>) returns (cl': seq<bytes>)
    requires !CollisionFree(sha256, SetOf(cl)) && Snapshot(sha256, g, cl, ex, co).Some?
    ensures multiset(cl') == multiset(cl) && Snapshot(sha256, g, cl', ex, co) != Snapshot(sha256, g, cl, ex, co)
  {
    hide Sort, Layout, ByDigest, SnapshotFits, TotalOrder, LeBytes;
    var a, b :| a in SetOf(cl) && b in SetOf(cl) && sha256(a) == sha256(b) && a != b;
    ByDigestOrder(sha256);
    SameDigest(sha256, a, b);
    var i;
    cl', i := TiesShow(ByDigest(sha256), cl, a, b);
    FitsPermute(sha256, g, cl, ex, co, cl', ex, co);
    FitsSorted(sha256, g, cl, ex, co);
    FitsSorted(sha256, g, cl', ex, co);
    if Snapshot(sha256, g, cl', ex, co) == Snapshot(sha256, g, cl, ex, co) {
      LayoutInjective(sha256, g, Sort(ByDigest(sha256), cl), Sort(ByAddress, ex), Sort(ByScope, co),
                      g, cl', Sort(ByAddress, ex), Sort(ByScope, co));
      assert false;
    }
  }

  lemma SameDigest(sha256: Sha256, a: bytes, b: bytes)
    requires sha256(a) == sha256(b)
    ensures ByDigest(sha256)(a, b) && ByDigest(sha256)(b, a)
  {
    hide LeBytes;
    LeBytesOrder(sha256(a), sha256(a), []);
  }

  lemma SameAddress(a: Exhausted, b: Exhausted)
    requires a.identityAddress == b.identityAddress && a.claimDigest == b.claimDigest
    ensures ByAddress(a, b) && ByAddress(b, a)
  {
    hide LeBytes, Utf8;
    LeBytesOrder(a.claimDigest, a.claimDigest, []);
  }

  lemma SameScope(a: Corrupt, b: Corrupt)
    requires a.scope == b.scope
    ensures ByScope(a, b) && ByScope(b, a)
  {
    hide LeBytes, Utf8;
    LeBytesOrder(Utf8(a.scope), Utf8(a.scope), []);
  }

  /** Different marked records with one digest under one address: the same for the exhausted markers. */
  lemma EqualMarkersShowOrder(sha256: Sha256, g: int, cl: seq<bytes>, ex: seq<Exhausted>, co: seq<Corrupt>) returns (ex': seq<Exhausted>)
    requires !MarkersDistinct(ex) && Snapshot(sha256, g, cl, ex, co).Some?
    ensures multiset(ex') == multiset(ex) && Snapshot(sha256, g, cl, ex', co) != Snapshot(sha256, g, cl, ex, co)
  {
    hide Sort, Layout, ByDigest, SnapshotFits, TotalOrder, LeBytes, ByAddress;
    var a, b :| a in ex && b in ex && a.identityAddress == b.identityAddress && a.claimDigest == b.claimDigest && a.record != b.record;
    ByAddressOrder();
    SameAddress(a, b);
    var i;
    ex', i := TiesShow(ByAddress, ex, a, b);
    FitsPermute(sha256, g, cl, ex, co, cl, ex', co);
    FitsSorted(sha256, g, cl, ex, co);
    FitsSorted(sha256, g, cl, ex', co);
    if Snapshot(sha256, g, cl, ex', co) == Snapshot(sha256, g, cl, ex, co) {
      LayoutInjective(sha256, g, Sort(ByDigest(sha256), cl), Sort(ByAddress, ex), Sort(ByScope, co),
                      g, Sort(ByDigest(sha256), cl), ex', Sort(ByScope, co));
      assert false;
    }
  }

  /** Two reasons in one scope: some rearrangement of the markers changes the snapshot. */
  lemma TwoReasonsShowOrder(sha256: Sha256, g: int, cl: seq<bytes>, ex: seq<Exhausted>, co: seq<Corrupt>) returns (co': seq<Corrupt>)
    requires !OneReasonPerScope(co) && Snapshot(sha256, g, cl, ex, co).Some?
    ensures multiset(co') == multiset(co) && Snapshot(sha256, g, cl, ex, co') != Snapshot(sha256, g, cl, ex, co)
  {
    hide Sort, Layout, ByDigest, SnapshotFits, TotalOrder, ByScope;
    var c, d :| c in co && d in co && c.scope == d.scope && LowByte(c) != LowByte(d);
    ByScopeOrder();
    SameScope(c, d);
    var i;
    co', i := TiesShow(ByScope, co, c, d);
    var u := Sort(ByScope, co);
    FitsPermute(sha256, g, cl, ex, co, cl, ex, co');
    FitsSorted(sha256, g, cl, ex, co);
    FitsSorted(sha256, g, cl, ex, co');
    assert Masked(u)[i] == LowByte(c) && Masked(co')[i] == LowByte(d);
    if Snapshot(sha256, g, cl, ex, co') == Snapshot(sha256, g, cl, ex, co) {
      LayoutInjective(sha256, g, Sort(ByDigest(sha256), cl), Sort(ByAddress, ex), u,
                      g, Sort(ByDigest(sha256), cl), Sort(ByAddress, ex), co');
      assert false;
    }
  }

  ghost predicate Rearranged(cl: seq<bytes>, ex: seq<Exhausted>, co: seq<Corrupt>, cl': seq<bytes>, ex': seq<Exhausted>, co': seq<Corrupt>) {
    multiset(cl) == multiset(cl') && multiset(ex) == multiset(ex') && multiset(co) == multiset(co')
  }

  /**
   * A snapshot that exists is blind to the order of its lists exactly when different claims have
   * different digests, different markers differ in address or digest, and no scope carries two
   * written reasons. Nothing is assumed of the digest function.
   */
  lemma OrderBlindIff(sha256: Sha256, g: int, cl: seq<bytes>, ex: seq<Exhausted>, co: seq<Corrupt>)
    requires Snapshot(sha256, g, cl, ex, co).Some?
    ensures OrderHidden(sha256, cl, ex, co) <==>
              forall cl', ex', co' :: Rearranged(cl, ex, co, cl', ex', co') ==>
                Snapshot(sha256, g, cl', ex', co') == Snapshot(sha256, g, cl, ex, co)
  {
    hide Snapshot, CollisionFree, MarkersDistinct, OneReasonPerScope;
    if OrderHidden(sha256, cl, ex, co) {
      forall cl', ex', co' | Rearranged(cl, ex, co, cl', ex', co')
        ensures Snapshot(sha256, g, cl', ex', co') == Snapshot(sha256, g, cl, ex, co)
      {
        SnapshotForgetsOrder(sha256, g, cl, ex, co, cl', ex', co');
      }
    } else if !CollisionFree(sha256, SetOf(cl)) {
      var cl' := EqualDigestsShowOrder(sha256, g, cl, ex, co);
      assert Rearranged(cl, ex, co, cl', ex, co);
    } else if !MarkersDistinct(ex) {
      var ex' := EqualMarkersShowOrder(sha256, g, cl, ex, co);
      assert Rearranged(cl, ex, co, cl, ex', co);
    } else {
      var co' := TwoReasonsShowOrder(sha256, g, cl, ex, co);
      assert Rearranged(cl, ex, co, cl, ex, co');
    }
  }
}
