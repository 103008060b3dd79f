/** The replay cache behind signature verification: one acceptance per signature. */
module ReplayCache {
  import opened Bytes
  import opened Collections
  import opened Delegation

  /** The stored form: durable rows hold an expiry, the in-memory form the time of acceptance. */
  datatype Cache = Durable(rows: map<Hash, int>) | InMemory(seen: map<Hash, real>)

  datatype Config = Config(ttl: int, maxEntries: int, sha256: string -> Hash)

  // ----- specification of one check-and-insert -------------------------------------------------

  /** Rows still in force at whole second `n`. */
  function Live(rows: map<Hash, int>, n: int): map<Hash, int> { map k | k in rows && rows[k] > n :: rows[k] }

  function Kept(seen: map<Hash, real>, now: real, ttl: int): map<Hash, real> {
    map k | k in seen && now - seen[k] <= ttl as real :: seen[k]
  }

  function DurableFirstTime(maxEntries: int, rows: map<Hash, int>, key: Hash, expiry: int, now: real): (map<Hash, int>, bool) {
    if key in Live(rows, now.Floor) || |Live(rows, now.Floor)| >= maxEntries then (rows, false)
    else (Live(rows, now.Floor)[key := expiry], true)
  }

  function InMemoryFirstTime(ttl: int, maxEntries: int, seen: map<Hash, real>, key: Hash, now: real): (map<Hash, real>, bool) {
    var kept := Kept(seen, now, ttl);
    if key in kept || |kept| >= maxEntries then (kept, false) else (kept[key := now], true)
  }

  function FirstTime(cfg: Config, cache: Cache, signature: string, expiresAt: Option<int>, now: real): (Cache, bool) {
    var key := cfg.sha256(signature);
    match cache
    case Durable(rows) =>
      var expiry := if expiresAt.Some? then expiresAt.value else (now + cfg.ttl as real).Floor;
      var (rows', first) := DurableFirstTime(cfg.maxEntries, rows, key, expiry, now);
      (Durable(rows'), first)
    case InMemory(seen) =>
      var (seen', first) := InMemoryFirstTime(cfg.ttl, cfg.maxEntries, seen, key, now);
      (InMemory(seen'), first)
  }

  /** A live entry for the signature. */
  predicate IsSeen(cfg: Config, cache: Cache, signature: string, now: real) {
    match cache
    case Durable(rows) => cfg.sha256(signature) in Live(rows, now.Floor)
    case InMemory(seen) => cfg.sha256(signature) in Kept(seen, now, cfg.ttl)
  }

  /** Fewer live entries than the bound. */
  predicate HasRoom(cfg: Config, cache: Cache, now: real) {
    match cache
    case Durable(rows) => |Live(rows, now.Floor)| < cfg.maxEntries
    case InMemory(seen) => |Kept(seen, now, cfg.ttl)| < cfg.maxEntries
  }

  /** `DELETE ... WHERE expires_at <= n AND signature_hash != key` */
  function DeleteExpired(rows: map<Hash, int>, n: int, key: Hash): map<Hash, int> {
    map k | k in rows && !(rows[k] <= n && k != key) :: rows[k]
  }

  lemma LiveKey(rows: map<Hash, int>, n: int, key: Hash)
    ensures key in Live(rows, n) <==> key in rows && rows[key] > n
  {}

  /** Replacing one row and sweeping the expired others leaves the live rows and the new one. */
  lemma Swept(before: map<Hash, int>, rows: map<Hash, int>, key: Hash, expiry: int, n: int)
    requires rows == before[key := expiry] || rows == (before - {key})[key := expiry]
    ensures DeleteExpired(rows, n, key) == Live(before, n)[key := expiry]
  {}

  lemma Unstale(seen: map<Hash, real>, now: real, ttl: int, stale: set<Hash>)
    requires stale == set k | k in seen && now - seen[k] > ttl as real
    ensures seen - stale == Kept(seen, now, ttl)
  {}

  // ----- one verification --------------------------------------------------------------------------

  /**
   * A verification in progress. `genuine` collects the checks that do not depend on time: a trusted
   * sender, the expected context, recipient and nonce form, and a valid signature over the fields.
   * The clock is read once for the time bounds and once when the cache is consulted.
   */
  datatype Attempt = Attempt(signature: string, genuine: bool, issuedAt: int, expiresAt: int, verifiedAt: real, consumedAt: real)

  predicate Admissible(a: Attempt) { a.genuine && TimeOk(a.issuedAt, a.expiresAt, a.verifiedAt.Floor) }

  function Verify(cfg: Config, cache: Cache, a: Attempt): (Cache, bool) {
    if Admissible(a) then FirstTime(cfg, cache, a.signature, Some(a.expiresAt), a.consumedAt) else (cache, false)
  }

  // ----- the code ------------------------------------------------------------------------------------

  class ReplayCache {
    const cfg: Config
    const durable: bool
    var rows: map<Hash, int>
    var seen: map<Hash, real>

    constructor (cfg: Config, durable: bool)
      requires cfg.maxEntries > 0
      ensures this.cfg == cfg && View() == if durable then Durable(map[]) else InMemory(map[])
    {
      this.cfg, this.durable, rows, seen := cfg, durable, map[], map[];
    }

    function View(): Cache
      reads this
    {
      if durable then Durable(rows) else InMemory(seen)
    }

    /** `first_time`; a database error leaves the table as it was and refuses. */
    method FirstTimeSeen(signature: string, expiresAt: Option<int>, now: real, databaseOk: bool) returns (ok: bool)
      requires now >= 0.0
      modifies this
      ensures durable && !databaseOk ==> !ok && View() == old(View())
      ensures databaseOk || !durable ==> (View(), ok) == FirstTime(cfg, old(View()), signature, expiresAt, now)
    {
      hide Live, Kept, DeleteExpired;
      var key := cfg.sha256(signature);
      if durable {
        if !databaseOk {
          return false;
        }
        var expiry := if expiresAt.Some? then expiresAt.value else (now + cfg.ttl as real).Floor;
        LiveKey(rows, now.Floor, key);
        if key in rows && rows[key] > now.Floor {
          return false;
        }
        var activeCount := |Live(rows, now.Floor)|;
        if activeCount >= cfg.maxEntries {
          return false;
        }
        if key in rows {
          rows := rows - {key};
        }
        rows := rows[key := expiry];
        Swept(old(rows), rows, key, expiry, now.Floor);
        rows := DeleteExpired(rows, now.Floor, key);
        return true;
      }
      var stale := set k | k in seen && now - seen[k] > cfg.ttl as real;
      Unstale(seen, now, cfg.ttl, stale);
      seen := seen - stale;
      if key in seen {
        return false;
      }
      if |seen| >= cfg.maxEntries {
        return false;
      }
      seen := seen[key := now];
      return true;
    }

    /** `seen`: membership at `now`, changing nothing; None where a database error raises. */
    method Seen(signature: string, now: real, databaseOk: bool) returns (r: Option<bool>)
      requires now >= 0.0
      ensures r == None <==> durable && !databaseOk
      ensures r.Some? ==> r.value == IsSeen(cfg, View(), signature, now)
    {
      var key := cfg.sha256(signature);
      if durable {
        if !databaseOk {
          return None;
        }
        return Some(key in rows && rows[key] > now.Floor);
      }
      return Some(key in seen && now - seen[key] <= cfg.ttl as real);
    }
  }

  // ----- runs ---------------------------------------------------------------------------------------------

  /** The cache after the attempts, and which of them were accepted. */
  function Run(cfg: Config, cache: Cache, attempts: seq<Attempt>): (r: (Cache, seq<bool>))
    ensures |r.1| == |attempts|
  {
    if attempts == [] then (cache, [])
    else
      var (c, accepted) := Run(cfg, cache, attempts[..|attempts| - 1]);
      var (c', ok) := Verify(cfg, c, attempts[|attempts| - 1]);
      (c', accepted + [ok])
  }

  /** The clock does not run backwards, neither within an attempt nor between consultations of the cache. */
  ghost predicate ClockOk(attempts: seq<Attempt>) {
    && (forall i :: 0 <= i < |attempts| ==> 0.0 <= attempts[i].verifiedAt <= attempts[i].consumedAt)
    && (forall i, j :: 0 <= i < j < |attempts| ==> attempts[i].consumedAt <= attempts[j].consumedAt)
  }

  /** A valid signature is a signature of one expiry. */
  ghost predicate FieldsFixed(attempts: seq<Attempt>) {
    forall i, j :: 0 <= i < |attempts| && 0 <= j < |attempts| ==>
      attempts[i].genuine && attempts[j].genuine && attempts[i].signature == attempts[j].signature ==>
        attempts[i].expiresAt == attempts[j].expiresAt
  }

  /** Both clock readings of every attempt fall in one instant. */
  ghost predicate OneReading(attempts: seq<Attempt>) {
    forall i :: 0 <= i < |attempts| ==> attempts[i].consumedAt == attempts[i].verifiedAt
  }

  function Empty(durable: bool): Cache { if durable then Durable(map[]) else InMemory(map[]) }

  /** How an accepted attempt is remembered at time `t`: a matching entry, or it has run out. */
  ghost predicate Remembered(cfg: Config, cache: Cache, a: Attempt, t: real) {
    var key := cfg.sha256(a.signature);
    match cache
    case Durable(rows) => (key in rows && rows[key] == a.expiresAt) || t.Floor >= a.expiresAt
    case InMemory(seen) => (key in seen && seen[key] == a.consumedAt) || t - a.consumedAt > cfg.ttl as real
  }

  lemma FloorMono(s: real, t: real)
    requires s <= t
    ensures s.Floor <= t.Floor
  {}

  lemma StaysRemembered(cfg: Config, cache: Cache, a: Attempt, b: Attempt, t: real)
    requires Remembered(cfg, cache, a, t) && t <= b.consumedAt
    ensures Remembered(cfg, Verify(cfg, cache, b).0, a, b.consumedAt)
  {
    FloorMono(t, b.consumedAt);
  }

  lemma BecomesRemembered(cfg: Config, cache: Cache, b: Attempt)
    requires Verify(cfg, cache, b).1
    ensures Remembered(cfg, Verify(cfg, cache, b).0, b, b.consumedAt)
  {}

  function LastClock(attempts: seq<Attempt>): real {
    if attempts == [] then 0.0 else attempts[|attempts| - 1].consumedAt
  }

  lemma {:induction false} AllRemembered(cfg: Config, c0: Cache, attempts: seq<Attempt>, i: nat)
    requires ClockOk(attempts) && i < |attempts| && Run(cfg, c0, attempts).1[i]
    ensures Remembered(cfg, Run(cfg, c0, attempts).0, attempts[i], LastClock(attempts))
  {
    hide Remembered, Verify;
    var front, last := attempts[..|attempts| - 1], attempts[|attempts| - 1];
    var c := Run(cfg, c0, front).0;
    if i < |front| {
      AllRemembered(cfg, c0, front, i);
      StaysRemembered(cfg, c, attempts[i], last, LastClock(front));
    } else {
      BecomesRemembered(cfg, c, last);
    }
  }

  /** Accepting the signature of a remembered attempt takes a clock reading at or past its expiry. */
  lemma AcceptanceMeansLate(cfg: Config, cache: Cache, a: Attempt, b: Attempt, t: real)
    requires Remembered(cfg, cache, a, t) && 0.0 <= a.verifiedAt <= a.consumedAt && t <= b.consumedAt
    requires Admissible(a) && a.signature == b.signature && a.expiresAt == b.expiresAt
    requires cache.InMemory? ==> cfg.ttl >= MAX_DELEGATION_TTL_SECONDS + MAX_FUTURE_SKEW_SECONDS
    requires Verify(cfg, cache, b).1
    ensures b.consumedAt.Floor >= b.expiresAt
  {
    FloorMono(t, b.consumedAt);
    FloorMono(a.verifiedAt, a.consumedAt);
    if cache.InMemory? {
      assert b.consumedAt - a.consumedAt > cfg.ttl as real;
      PastBound(b.consumedAt, a.consumedAt, cfg.ttl, b.expiresAt);
    }
  }

  lemma PastBound(later: real, earlier: real, ttl: int, expiry: int)
    requires later - earlier > ttl as real && ttl >= 86460 && expiry <= earlier.Floor + 86460
    ensures later.Floor >= expiry
  {
    assert later > earlier.Floor as real + 86460 as real;
    assert later > expiry as real;
  }

  /**
   * Whatever the interleaving: if a signature is accepted twice, the cache was consulted the second
   * time after the signature had expired, although the time check had still passed.
   */
  lemma SecondAcceptanceIsLate(cfg: Config, durable: bool, attempts: seq<Attempt>, i: nat, j: nat)
    requires ClockOk(attempts) && FieldsFixed(attempts) && i < j < |attempts|
    requires !durable ==> cfg.ttl >= MAX_DELEGATION_TTL_SECONDS + MAX_FUTURE_SKEW_SECONDS
    requires Run(cfg, Empty(durable), attempts).1[i] && Run(cfg, Empty(durable), attempts).1[j]
    requires attempts[i].signature == attempts[j].signature
    ensures attempts[j].verifiedAt.Floor < attempts[j].expiresAt <= attempts[j].consumedAt.Floor
  {
    hide Remembered, FirstTime, FieldsFixed;
    var front := attempts[..j];
    RunPrefix(cfg, Empty(durable), attempts, j);
    RunPrefix(cfg, Empty(durable), attempts, i);
    RunPrefixAt(cfg, Empty(durable), attempts, j, i);
    AllRemembered(cfg, Empty(durable), front, i);
    SameExpiry(attempts, i, j);
    KindKept(cfg, durable, front);
    AcceptanceMeansLate(cfg, Run(cfg, Empty(durable), front).0, attempts[i], attempts[j], LastClock(front));
  }

  lemma SameExpiry(attempts: seq<Attempt>, i: nat, j: nat)
    requires FieldsFixed(attempts) && i < j < |attempts| && Admissible(attempts[i]) && Admissible(attempts[j])
    requires attempts[i].signature == attempts[j].signature
    ensures attempts[i].expiresAt == attempts[j].expiresAt
  {}

  lemma {:induction false} KindKept(cfg: Config, durable: bool, attempts: seq<Attempt>)
    ensures Run(cfg, Empty(durable), attempts).0.Durable? == durable
  {
    if attempts != [] {
      KindKept(cfg, durable, attempts[..|attempts| - 1]);
    }
  }

  /** What happens at step `j` of a run depends on the attempts before it. */
  lemma {:induction false} RunPrefix(cfg: Config, c0: Cache, attempts: seq<Attempt>, j: nat)
    requires j < |attempts|
    ensures Run(cfg, c0, attempts).1[j] == Verify(cfg, Run(cfg, c0, attempts[..j]).0, attempts[j]).1
    decreases |attempts|
  {
    hide Verify;
    if j < |attempts| - 1 {
      RunPrefix(cfg, c0, attempts[..|attempts| - 1], j);
      assert attempts[..|attempts| - 1][..j] == attempts[..j];
    }
  }

  lemma RunPrefixAt(cfg: Config, c0: Cache, attempts: seq<Attempt>, j: nat, i: nat)
    requires i < j < |attempts|
    ensures Run(cfg, c0, attempts[..j]).1[i] == Run(cfg, c0, attempts).1[i]
  {
    hide Verify, Run;
    RunPrefix(cfg, c0, attempts, i);
    RunPrefix(cfg, c0, attempts[..j], i);
    assert attempts[..j][..i] == attempts[..i];
  }

  ghost predicate AcceptedOnce(cfg: Config, durable: bool, attempts: seq<Attempt>) {
    forall i, j :: 0 <= i < j < |attempts| && Run(cfg, Empty(durable), attempts).1[i] && Run(cfg, Empty(durable), attempts).1[j]
                   ==> attempts[i].signature != attempts[j].signature
  }

  /** With one clock reading per verification no signature is ever accepted twice. */
  lemma NeverTwice(cfg: Config, durable: bool, attempts: seq<Attempt>)
    requires ClockOk(attempts) && FieldsFixed(attempts) && OneReading(attempts)
    requires !durable ==> cfg.ttl >= MAX_DELEGATION_TTL_SECONDS + MAX_FUTURE_SKEW_SECONDS
    ensures AcceptedOnce(cfg, durable, attempts)
  {
    hide Run;
    var accepted := Run(cfg, Empty(durable), attempts).1;
    forall i, j | 0 <= i < j < |attempts| && accepted[i] && accepted[j] ensures attempts[i].signature != attempts[j].signature {
      if attempts[i].signature == attempts[j].signature {
        SecondAcceptanceIsLate(cfg, durable, attempts, i, j);
      }
    }
  }

  // ----- the retention the in-memory form needs -----------------------------------------------------------

  /** Two presentations of one signature, as far apart as its lifetime allows. */
  function LatePair(ttl: int): seq<Attempt> {
    var t1 := if ttl < 0 then 0.0 else (ttl + 86460) as real / 2.0;
    [Attempt("s", true, 60, 86460, 0.0, 0.0), Attempt("s", true, 60, 86460, t1, t1)]
  }

  lemma LatePairRun(cfg: Config)
    requires cfg.maxEntries > 0 && cfg.ttl < MAX_DELEGATION_TTL_SECONDS + MAX_FUTURE_SKEW_SECONDS
    ensures var p := LatePair(cfg.ttl);
            ClockOk(p) && FieldsFixed(p) && OneReading(p) && !AcceptedOnce(cfg, false, p)
  {
    hide Verify, Run;
    var p := LatePair(cfg.ttl);
    var c := FirstOfPair(cfg);
    RunOfOne(cfg, Empty(false), p[0]);
    RunPrefix(cfg, Empty(false), p, 0);
    RunPrefix(cfg, Empty(false), p, 1);
    assert p[..0] == [] && p[..1] == [p[0]];
    var r := Run(cfg, Empty(false), p).1;
    assert r[0] && r[1] && p[0].signature == p[1].signature;
  }

  lemma RunOfOne(cfg: Config, c0: Cache, a: Attempt)
    ensures Run(cfg, c0, []).0 == c0
    ensures Run(cfg, c0, [a]).0 == Verify(cfg, c0, a).0
  {
    var one := [a];
    assert one[..0] == [];
  }

  lemma FirstOfPair(cfg: Config) returns (c: Cache)
    requires cfg.maxEntries > 0 && cfg.ttl < MAX_DELEGATION_TTL_SECONDS + MAX_FUTURE_SKEW_SECONDS
    ensures Verify(cfg, Empty(false), LatePair(cfg.ttl)[0]) == (c, true)
    ensures Verify(cfg, c, LatePair(cfg.ttl)[1]).1
  {
    var p, key := LatePair(cfg.ttl), cfg.sha256("s");
    assert Kept(map[], 0.0, cfg.ttl) == map[];
    c := InMemory(map[key := 0.0]);
    assert p[1].consumedAt - 0.0 > cfg.ttl as real;
    assert Kept(map[key := 0.0], p[1].consumedAt, cfg.ttl) == map[];
    assert p[1].verifiedAt.Floor < 86460;
  }

  /** The in-memory form keeps its promise exactly when its retention covers lifetime plus skew. */
  lemma RetentionIff(cfg: Config)
    requires cfg.maxEntries > 0
    ensures (forall attempts :: ClockOk(attempts) && FieldsFixed(attempts) && OneReading(attempts) ==> AcceptedOnce(cfg, false, attempts))
            <==> cfg.ttl >= MAX_DELEGATION_TTL_SECONDS + MAX_FUTURE_SKEW_SECONDS
  {
    hide ClockOk, FieldsFixed, OneReading, AcceptedOnce;
    if cfg.ttl >= MAX_DELEGATION_TTL_SECONDS + MAX_FUTURE_SKEW_SECONDS {
      forall attempts | ClockOk(attempts) && FieldsFixed(attempts) && OneReading(attempts) ensures AcceptedOnce(cfg, false, attempts) {
        NeverTwice(cfg, false, attempts);
      }
    } else {
      LatePairRun(cfg);
    }
  }

  // ----- bounds, and what is not refused -----------------------------------------------------------------------

  function Entries(cache: Cache): nat {
    match cache
    case Durable(rows) => |rows|
    case InMemory(seen) => |seen|
  }

  function KeysOf(cache: Cache): set<Hash> {
    match cache
    case Durable(rows) => rows.Keys
    case InMemory(seen) => seen.Keys
  }

  lemma VerifyBounded(cfg: Config, cache: Cache, a: Attempt)
    requires Entries(cache) <= cfg.maxEntries
    ensures Entries(Verify(cfg, cache, a).0) <= cfg.maxEntries
    ensures KeysOf(Verify(cfg, cache, a).0) <= KeysOf(cache) + {cfg.sha256(a.signature)}
    ensures !Verify(cfg, cache, a).1 ==> KeysOf(Verify(cfg, cache, a).0) <= KeysOf(cache)
  {
    match cache
    case Durable(rows) => SubmapSize(rows, Live(rows, a.consumedAt.Floor));
    case InMemory(seen) => SubmapSize(seen, Kept(seen, a.consumedAt, cfg.ttl));
  }

  /** Neither form ever holds more than its bound, live or not. */
  lemma {:induction false} RunBounded(cfg: Config, durable: bool, attempts: seq<Attempt>)
    requires cfg.maxEntries >= 0
    ensures Entries(Run(cfg, Empty(durable), attempts).0) <= cfg.maxEntries
  {
    hide Verify, Entries;
    if attempts == [] {
      EmptyIsBounded(durable);
    } else {
      RunBounded(cfg, durable, attempts[..|attempts| - 1]);
      VerifyBounded(cfg, Run(cfg, Empty(durable), attempts[..|attempts| - 1]).0, attempts[|attempts| - 1]);
    }
  }

  lemma EmptyIsBounded(durable: bool)
    ensures Entries(Empty(durable)) == 0 && KeysOf(Empty(durable)) == {}
  {}

  /** The entry under `key` is the one the attempt left. */
  predicate EntryOf(cache: Cache, key: Hash, a: Attempt) {
    match cache
    case Durable(rows) => key in rows && rows[key] == a.expiresAt
    case InMemory(seen) => key in seen && seen[key] == a.consumedAt
  }

  lemma VerifyEntry(cfg: Config, cache: Cache, a: Attempt, b: Attempt, key: Hash)
    requires key in KeysOf(Verify(cfg, cache, a).0)
    ensures (Verify(cfg, cache, a).1 && key == cfg.sha256(a.signature) && EntryOf(Verify(cfg, cache, a).0, key, a))
            || (key in KeysOf(cache) && (EntryOf(cache, key, b) ==> EntryOf(Verify(cfg, cache, a).0, key, b)))
  {}

  /** Only accepted attempts leave entries. */
  lemma {:induction false} EntriesAreAccepted(cfg: Config, durable: bool, attempts: seq<Attempt>, key: Hash) returns (i: nat)
    requires key in KeysOf(Run(cfg, Empty(durable), attempts).0)
    ensures i < |attempts| && Run(cfg, Empty(durable), attempts).1[i] && cfg.sha256(attempts[i].signature) == key
    ensures EntryOf(Run(cfg, Empty(durable), attempts).0, key, attempts[i])
  {
    hide Verify, Entries, KeysOf, EntryOf;
    EmptyIsBounded(durable);
    var front, last := attempts[..|attempts| - 1], attempts[|attempts| - 1];
    var c := Run(cfg, Empty(durable), front).0;
    VerifyEntry(cfg, c, last, last, key);
    i := |front|;
    if !(Verify(cfg, c, last).1 && key == cfg.sha256(last.signature) && EntryOf(Verify(cfg, c, last).0, key, last)) {
      i := EntriesAreAccepted(cfg, durable, front, key);
      VerifyEntry(cfg, c, last, front[i], key);
    }
  }

  /** A signature never accepted before is refused only for lack of room. */
  lemma FreshIsAccepted(cfg: Config, durable: bool, attempts: seq<Attempt>, a: Attempt)
    requires cfg.maxEntries >= 0 && Admissible(a)
    requires forall i :: 0 <= i < |attempts| && Run(cfg, Empty(durable), attempts).1[i] ==> cfg.sha256(attempts[i].signature) != cfg.sha256(a.signature)
    requires Entries(Run(cfg, Empty(durable), attempts).0) < cfg.maxEntries
    ensures Verify(cfg, Run(cfg, Empty(durable), attempts).0, a).1
  {
    hide Run;
    var c, key := Run(cfg, Empty(durable), attempts).0, cfg.sha256(a.signature);
    if key in KeysOf(c) {
      var i := EntriesAreAccepted(cfg, durable, attempts, key);
    }
    match c
    case Durable(rows) => SubmapSize(rows, Live(rows, a.consumedAt.Floor));
    case InMemory(seen) => SubmapSize(seen, Kept(seen, a.consumedAt, cfg.ttl));
  }

  // ----- exactly when a signature is accepted again ---------------------------------------------------------------

  function Signatures(attempts: seq<Attempt>): set<string> { set i | 0 <= i < |attempts| :: attempts[i].signature }

  /** Attempt `i` was accepted, and no later one with its signature. */
  ghost predicate LastAccepted(cfg: Config, durable: bool, attempts: seq<Attempt>, i: nat) {
    && i < |attempts| && Run(cfg, Empty(durable), attempts).1[i]
    && forall k :: i < k < |attempts| && Run(cfg, Empty(durable), attempts).1[k] ==> attempts[k].signature != attempts[i].signature
  }

  lemma AcceptedIsAdmissible(cfg: Config, c0: Cache, attempts: seq<Attempt>, i: nat)
    requires i < |attempts| && Run(cfg, c0, attempts).1[i]
    ensures Admissible(attempts[i])
  {
    hide Run, FirstTime;
    RunPrefix(cfg, c0, attempts, i);
  }

  /** The entry a key holds belongs to an accepted attempt with the signature in question. */
  lemma EntryBySignature(cfg: Config, durable: bool, attempts: seq<Attempt>, sig: string) returns (k: nat)
    requires CollisionFree(cfg.sha256, Signatures(attempts) + {sig})
    requires cfg.sha256(sig) in KeysOf(Run(cfg, Empty(durable), attempts).0)
    ensures k < |attempts| && Run(cfg, Empty(durable), attempts).1[k] && attempts[k].signature == sig
    ensures EntryOf(Run(cfg, Empty(durable), attempts).0, cfg.sha256(sig), attempts[k])
  {
    hide Run, EntryOf, KeysOf;
    k := EntriesAreAccepted(cfg, durable, attempts, cfg.sha256(sig));
    assert attempts[k].signature in Signatures(attempts);
  }

  lemma DurableAgain(rows: map<Hash, int>, key: Hash, expiry: int, t: int, now: int)
    requires key in rows ==> rows[key] == expiry
    requires key in rows || t >= expiry
    requires t <= now
    ensures key in Live(rows, now) <==> now < expiry
  {}

  lemma InMemoryAgain(seen: map<Hash, real>, key: Hash, ttl: int, accepted: real, t: real, now: real)
    requires (key in seen && seen[key] == accepted) || t - accepted > ttl as real
    requires key in seen ==> seen[key] <= accepted
    requires t <= now
    ensures key in Kept(seen, now, ttl) <==> now - accepted <= ttl as real
  {}

  /** When the next attempt finds its signature in the cache. */
  lemma SeenAgainIff(cfg: Config, durable: bool, attempts: seq<Attempt>, i: nat, b: Attempt)
    requires ClockOk(attempts) && FieldsFixed(attempts + [b]) && CollisionFree(cfg.sha256, Signatures(attempts) + {b.signature})
    requires LastAccepted(cfg, durable, attempts, i) && attempts[i].signature == b.signature
    requires Admissible(b) && LastClock(attempts) <= b.consumedAt
    ensures var c := Run(cfg, Empty(durable), attempts).0;
            IsSeen(cfg, c, b.signature, b.consumedAt) <==>
              if durable then b.consumedAt.Floor < b.expiresAt else b.consumedAt - attempts[i].consumedAt <= cfg.ttl as real
  {
    hide Run, Live, Kept, FirstTime, CollisionFree, TimeOk;
    var c, key, t := Run(cfg, Empty(durable), attempts).0, cfg.sha256(b.signature), LastClock(attempts);
    KindKept(cfg, durable, attempts);
    AllRemembered(cfg, Empty(durable), attempts, i);
    AcceptedIsAdmissible(cfg, Empty(durable), attempts, i);
    SameExpiryAs(attempts, i, b);
    FloorMono(t, b.consumedAt);
    if key in KeysOf(c) {
      var k := EntryBySignature(cfg, durable, attempts, b.signature);
      AcceptedIsAdmissible(cfg, Empty(durable), attempts, k);
      SameExpiryAs(attempts, k, b);
      assert k <= i;
    }
    match c
    case Durable(rows) => DurableAgain(rows, key, b.expiresAt, t.Floor, b.consumedAt.Floor);
    case InMemory(seen) => InMemoryAgain(seen, key, cfg.ttl, attempts[i].consumedAt, t, b.consumedAt);
  }

  lemma SameExpiryAs(attempts: seq<Attempt>, i: nat, b: Attempt)
    requires FieldsFixed(attempts + [b]) && i < |attempts| && attempts[i].genuine && b.genuine && attempts[i].signature == b.signature
    ensures attempts[i].expiresAt == b.expiresAt
  {
    var all := attempts + [b];
    assert all[i] == attempts[i] && all[|attempts|] == b;
  }

  /**
   * After an acceptance, the next admissible attempt with the same signature is accepted if and only if
   * there is room and the cache is consulted at or after the expiry (durable form), or more than the
   * retention after the last acceptance (in-memory form).
   */
  lemma SecondAcceptanceIff(cfg: Config, durable: bool, attempts: seq<Attempt>, i: nat, b: Attempt)
    requires ClockOk(attempts) && FieldsFixed(attempts + [b]) && CollisionFree(cfg.sha256, Signatures(attempts) + {b.signature})
    requires LastAccepted(cfg, durable, attempts, i) && attempts[i].signature == b.signature
    requires Admissible(b) && LastClock(attempts) <= b.consumedAt
    ensures var c := Run(cfg, Empty(durable), attempts).0;
            Verify(cfg, c, b).1 <==>
              && HasRoom(cfg, c, b.consumedAt)
              && (if durable then b.consumedAt.Floor >= b.expiresAt else b.consumedAt - attempts[i].consumedAt > cfg.ttl as real)
  {
    hide Run, Live, Kept, CollisionFree, FieldsFixed, ClockOk, LastAccepted, Admissible;
    SeenAgainIff(cfg, durable, attempts, i, b);
  }

  // ----- the runs that show it -------------------------------------------------------------------------------------

  /** A signature presented in its last second of life, and again with the cache consulted at `later`. */
  function LastSecond(sig: string, issuedAt: int, expiresAt: int, later: real): seq<Attempt> {
    var t := (expiresAt - 1) as real;
    [Attempt(sig, true, issuedAt, expiresAt, t, t), Attempt(sig, true, issuedAt, expiresAt, t, later)]
  }

  /** When the second consultation has to come. */
  function SecondInstant(cfg: Config, durable: bool, expiresAt: int): real {
    if durable then expiresAt as real else (expiresAt + cfg.ttl) as real
  }

  /** For every admissible lifetime there is such a run, in either form, with both attempts accepted. */
  lemma AcceptedTwice(cfg: Config, durable: bool, sig: string, issuedAt: int, expiresAt: int)
    requires cfg.maxEntries > 0 && cfg.ttl >= 0
    requires expiresAt >= 1 && issuedAt < expiresAt <= issuedAt + MAX_DELEGATION_TTL_SECONDS
    ensures var p := LastSecond(sig, issuedAt, expiresAt, SecondInstant(cfg, durable, expiresAt));
            && ClockOk(p) && FieldsFixed(p) && Admissible(p[0]) && Admissible(p[1])
            && Run(cfg, Empty(durable), p).1 == [true, true]
  {
    hide Run, FirstTime;
    var p := LastSecond(sig, issuedAt, expiresAt, SecondInstant(cfg, durable, expiresAt));
    assert ((expiresAt - 1) as real).Floor == expiresAt - 1;
    var c := FirstAccepted(cfg, durable, p[0]);
    EntryRunsOut(cfg, durable, c, p[0], p[1]);
    RunOfOne(cfg, Empty(durable), p[0]);
    RunPrefix(cfg, Empty(durable), p, 0);
    RunPrefix(cfg, Empty(durable), p, 1);
    assert p[..0] == [] && p[..1] == [p[0]];
    var r := Run(cfg, Empty(durable), p).1;
    assert r[0] && r[1];
    assert r == [true, true];
  }

  lemma FirstAccepted(cfg: Config, durable: bool, a: Attempt) returns (c: Cache)
    requires cfg.maxEntries > 0 && Admissible(a)
    ensures Verify(cfg, Empty(durable), a) == (c, true)
    ensures c == if durable then Durable(map[cfg.sha256(a.signature) := a.expiresAt]) else InMemory(map[cfg.sha256(a.signature) := a.consumedAt])
  {
    assert Live(map[], a.consumedAt.Floor) == map[] && Kept(map[], a.consumedAt, cfg.ttl) == map[];
    c := Verify(cfg, Empty(durable), a).0;
  }

  lemma EntryRunsOut(cfg: Config, durable: bool, c: Cache, a: Attempt, b: Attempt)
    requires cfg.maxEntries > 0 && Admissible(b) && a.signature == b.signature
    requires c == if durable then Durable(map[cfg.sha256(a.signature) := a.expiresAt]) else InMemory(map[cfg.sha256(a.signature) := a.consumedAt])
    requires if durable then b.consumedAt.Floor >= a.expiresAt else b.consumedAt - a.consumedAt > cfg.ttl as real
    ensures Verify(cfg, c, b).1
  {
    match c
    case Durable(rows) => assert Live(rows, b.consumedAt.Floor) == map[];
    case InMemory(seen) => assert Kept(seen, b.consumedAt, cfg.ttl) == map[];
  }
}
