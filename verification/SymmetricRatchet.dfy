/** The out-of-order symmetric ratchet: one sending chain, one receiver that stores skipped keys. */
module SymmetricRatchet {
  import opened Bytes

  type Key = k: bytes | |k| == 32 witness ZeroBytes(32)

  /** `kdf_ck`: the next chain key and the message key. */
  type Kdf = Key -> (Key, Key)

  datatype SendState = SendState(ck: Key, n: nat, dhPub: bytes)
  datatype RecvState = RecvState(ck: Key, n: nat, dhPub: bytes, skipped: map<bytes, Key>)

  datatype Outcome = Delivered(mk: Key) | Refused(reason: Refusal)
  datatype Refusal = WrongChain | IndexOverflow | Replay | TooManySkipped

  // ----- sender -----------------------------------------------------------------

  function SendMk(kdf: Kdf, st: SendState): (SendState, Key) {
    var (ck, mk) := kdf(st.ck);
    (SendState(ck, st.n + 1, st.dhPub), mk)
  }

  /** The chain key after `i` sends. */
  function Chain(kdf: Kdf, ck0: Key, i: nat): Key {
    if i == 0 then ck0 else kdf(Chain(kdf, ck0, i - 1)).0
  }

  /** The sender's i-th message key. */
  function MessageKey(kdf: Kdf, ck0: Key, i: nat): Key { kdf(Chain(kdf, ck0, i)).1 }

  function Sends(kdf: Kdf, st: SendState, count: nat): (SendState, seq<Key>) {
    if count == 0 then (st, [])
    else
      var (st1, mks) := Sends(kdf, st, count - 1);
      var (st2, mk) := SendMk(kdf, st1);
      (st2, mks + [mk])
  }

  lemma {:induction false} SenderKeys(kdf: Kdf, ck0: Key, dhPub: bytes, count: nat)
    ensures var (st, mks) := Sends(kdf, SendState(ck0, 0, dhPub), count);
            && st == SendState(Chain(kdf, ck0, count), count, dhPub)
            && |mks| == count
            && forall i :: 0 <= i < count ==> mks[i] == MessageKey(kdf, ck0, i)
  {
    if count != 0 {
      SenderKeys(kdf, ck0, dhPub, count - 1);
    }
  }

  // ----- receiver -----------------------------------------------------------------

  /** `_mk_key`: the chain's public key followed by the index, where the index fits four bytes. */
  function MkKey(dhPub: bytes, n: nat): bytes { dhPub + BE(n, 4) }

  predicate Indexable(n: int) { 0 <= n < 0x1_0000_0000 }

  lemma MkKeyInjective(dhPub: bytes, i: nat, j: nat)
    requires Indexable(i) && Indexable(j) && MkKey(dhPub, i) == MkKey(dhPub, j)
    ensures i == j
  {
    Widths();
    FromBEOfBE(i, 4);
    FromBEOfBE(j, 4);
    assert MkKey(dhPub, i)[|dhPub|..] == BE(i, 4) && MkKey(dhPub, j)[|dhPub|..] == BE(j, 4);
  }

  /** The chain advanced to `until`, every passed key stored. */
  function Skip(kdf: Kdf, st: RecvState, until: nat): RecvState
    requires st.n <= until
    decreases until - st.n
  {
    if st.n == until then st
    else
      var (ck, mk) := kdf(st.ck);
      Skip(kdf, RecvState(ck, st.n + 1, st.dhPub, st.skipped[MkKey(st.dhPub, st.n) := mk]), until)
  }

  /** None behind the chain, too far ahead of it, or where an index to be stored needs a fifth byte. */
  function SkipKeys(kdf: Kdf, st: RecvState, until: int, maxSkip: int): Option<RecvState> {
    if until < st.n || until - st.n > maxSkip then None
    else if st.n < until && !Indexable(until - 1) then None
    else Some(Skip(kdf, st, until))
  }

  /** `ec_skip_keys`: the loop over chain key, index and a copied dictionary. */
  method EcSkipKeys(kdf: Kdf, st: RecvState, until: int, maxSkip: int) returns (r: Option<RecvState>)
    ensures r == SkipKeys(kdf, st, until, maxSkip)
  {
    if until < st.n || until - st.n > maxSkip {
      return None;
    }
    var ck: Key, n: nat, skipped: map<bytes, Key> := st.ck, st.n, st.skipped;
    while n < until
      invariant st.n <= n <= until
      invariant Skip(kdf, RecvState(ck, n, st.dhPub, skipped), until) == Skip(kdf, st, until)
      invariant n == st.n || Indexable(n - 1)
    {
      if !Indexable(n) {
        return None;
      }
      var (ck', mk) := kdf(ck);
      skipped := skipped[MkKey(st.dhPub, n) := mk];
      ck, n := ck', n + 1;
    }
    return Some(RecvState(ck, until, st.dhPub, skipped));
  }

  function RecvInOrder(kdf: Kdf, st: RecvState): (RecvState, Outcome) {
    var (ck, mk) := kdf(st.ck);
    (st.(ck := ck, n := st.n + 1), Delivered(mk))
  }

  /** `ec_recv_message`; a refusal leaves the caller with the state it passed in. */
  function RecvMessage(kdf: Kdf, st: RecvState, dhPub: bytes, n: int, maxSkip: int): (RecvState, Outcome) {
    if dhPub != st.dhPub then (st, Refused(WrongChain))
    else if !Indexable(n) then (st, Refused(IndexOverflow))
    else if MkKey(dhPub, n) in st.skipped then
      (st.(skipped := st.skipped - {MkKey(dhPub, n)}), Delivered(st.skipped[MkKey(dhPub, n)]))
    else if n < st.n then (st, Refused(Replay))
    else
      match SkipKeys(kdf, st, n, if n > st.n then maxSkip else 0)
      case None => (st, Refused(TooManySkipped))
      case Some(st1) => RecvInOrder(kdf, st1)
  }

  // ----- whole runs -----------------------------------------------------------------

  datatype Arrival = Arrival(dhPub: bytes, n: int)

  function Run(kdf: Kdf, st: RecvState, arrivals: seq<Arrival>, maxSkip: int): (RecvState, seq<Outcome>) {
    if arrivals == [] then (st, [])
    else
      var (st1, outs) := Run(kdf, st, arrivals[..|arrivals| - 1], maxSkip);
      var (st2, out) := RecvMessage(kdf, st1, arrivals[|arrivals| - 1].dhPub, arrivals[|arrivals| - 1].n, maxSkip);
      (st2, outs + [out])
  }

  /** The indices handed out so far. */
  ghost function DeliveredIn(arrivals: seq<Arrival>, outs: seq<Outcome>): set<int>
    requires |arrivals| == |outs|
  {
    set j | 0 <= j < |outs| && outs[j].Delivered? :: arrivals[j].n
  }

  /** What the receiver's state says about the sender's chain and the indices delivered. */
  ghost predicate Tracks(kdf: Kdf, ck0: Key, dhPub: bytes, st: RecvState, delivered: set<int>) {
    && st.dhPub == dhPub
    && st.n <= 0x1_0000_0000
    && st.ck == Chain(kdf, ck0, st.n)
    && (forall i :: i in delivered ==> 0 <= i < st.n)
    && (forall i: nat :: i < st.n && i !in delivered ==>
          MkKey(dhPub, i) in st.skipped && st.skipped[MkKey(dhPub, i)] == MessageKey(kdf, ck0, i))
    && (forall k :: k in st.skipped ==>
          exists i: nat :: i < st.n && i !in delivered && k == MkKey(dhPub, i))
  }

  /** The acceptance rule: a stored index, the next one, or one within the skip window. */
  predicate Acceptable(st: RecvState, dhPub: bytes, n: int, maxSkip: int) {
    && dhPub == st.dhPub
    && Indexable(n)
    && (MkKey(dhPub, n) in st.skipped || n == st.n || (st.n < n && n - st.n <= maxSkip))
  }

  lemma {:induction false} SkipTracks(kdf: Kdf, ck0: Key, dhPub: bytes, st: RecvState, until: nat, delivered: set<int>)
    requires Tracks(kdf, ck0, dhPub, st, delivered) && st.n <= until <= 0x1_0000_0000
    ensures Tracks(kdf, ck0, dhPub, Skip(kdf, st, until), delivered)
    ensures Skip(kdf, st, until).n == until
    decreases until - st.n
  {
    hide Tracks, MkKey;
    TracksBasics(kdf, ck0, dhPub, st, delivered);
    if st.n < until {
      SkipOneTracks(kdf, ck0, dhPub, st, delivered);
      var (ck, mk) := kdf(st.ck);
      SkipTracks(kdf, ck0, dhPub, RecvState(ck, st.n + 1, dhPub, st.skipped[MkKey(dhPub, st.n) := mk]), until, delivered);
    }
  }

  lemma SkipOneTracks(kdf: Kdf, ck0: Key, dhPub: bytes, st: RecvState, delivered: set<int>)
    requires Tracks(kdf, ck0, dhPub, st, delivered) && st.n < 0x1_0000_0000
    ensures var (ck, mk) := kdf(st.ck);
            Tracks(kdf, ck0, dhPub, RecvState(ck, st.n + 1, dhPub, st.skipped[MkKey(dhPub, st.n) := mk]), delivered)
  {
    hide MkKey;
    var (ck, mk) := kdf(st.ck);
    var skipped := st.skipped[MkKey(dhPub, st.n) := mk];
    forall i: nat | i < st.n + 1 && i !in delivered
      ensures MkKey(dhPub, i) in skipped && skipped[MkKey(dhPub, i)] == MessageKey(kdf, ck0, i)
    {
      if MkKey(dhPub, i) == MkKey(dhPub, st.n) { MkKeyInjective(dhPub, i, st.n); }
    }
    forall k | k in skipped ensures exists i: nat :: i < st.n + 1 && i !in delivered && k == MkKey(dhPub, i) {
      if k == MkKey(dhPub, st.n) {
      } else {
        var i: nat :| i < st.n && i !in delivered && k == MkKey(dhPub, i);
      }
    }
  }

  lemma TakeSkippedTracks(kdf: Kdf, ck0: Key, dhPub: bytes, st: RecvState, n: int, delivered: set<int>)
    requires Tracks(kdf, ck0, dhPub, st, delivered) && Indexable(n) && MkKey(dhPub, n) in st.skipped
    ensures n !in delivered && n < st.n
    ensures st.skipped[MkKey(dhPub, n)] == MessageKey(kdf, ck0, n)
    ensures Tracks(kdf, ck0, dhPub, st.(skipped := st.skipped - {MkKey(dhPub, n)}), delivered + {n})
  {
    hide MkKey;
    var j: nat :| j < st.n && j !in delivered && MkKey(dhPub, n) == MkKey(dhPub, j);
    MkKeyInjective(dhPub, n, j);
    var st' := st.(skipped := st.skipped - {MkKey(dhPub, n)});
    forall i: nat | i < st.n && i !in delivered + {n}
      ensures MkKey(dhPub, i) in st'.skipped && st'.skipped[MkKey(dhPub, i)] == MessageKey(kdf, ck0, i)
    {
      if MkKey(dhPub, i) == MkKey(dhPub, n) { MkKeyInjective(dhPub, i, n); }
    }
    forall k | k in st'.skipped ensures exists i: nat :: i < st.n && i !in delivered + {n} && k == MkKey(dhPub, i) {
      var i: nat :| i < st.n && i !in delivered && k == MkKey(dhPub, i);
      assert i != n;
    }
  }

  lemma InOrderTracks(kdf: Kdf, ck0: Key, dhPub: bytes, st: RecvState, delivered: set<int>)
    requires Tracks(kdf, ck0, dhPub, st, delivered) && st.n < 0x1_0000_0000
    ensures Tracks(kdf, ck0, dhPub, RecvInOrder(kdf, st).0, delivered + {st.n})
    ensures RecvInOrder(kdf, st).1 == Delivered(MessageKey(kdf, ck0, st.n))
  {
    hide MkKey;
    var st' := RecvInOrder(kdf, st).0;
    forall k | k in st'.skipped ensures exists i: nat :: i < st'.n && i !in delivered + {st.n} && k == MkKey(dhPub, i) {
      var i: nat :| i < st.n && i !in delivered && k == MkKey(dhPub, i);
    }
  }

  /** One message: who is accepted, which key comes out, and what the state says afterwards. */
  lemma RecvMessageTracks(kdf: Kdf, ck0: Key, dhPub: bytes, st: RecvState, a: Arrival, maxSkip: int, delivered: set<int>)
    requires Tracks(kdf, ck0, dhPub, st, delivered)
    ensures var (st', out) := RecvMessage(kdf, st, a.dhPub, a.n, maxSkip);
            && (out.Delivered? <==> Acceptable(st, a.dhPub, a.n, maxSkip))
            && (out.Refused? ==> st' == st)
            && (out.Delivered? ==>
                  && a.n >= 0 && a.n !in delivered
                  && out.mk == MessageKey(kdf, ck0, a.n)
                  && Tracks(kdf, ck0, dhPub, st', delivered + {a.n}))
  {
    hide MkKey, Tracks;
    assert st.dhPub == dhPub && (forall i :: i in delivered ==> 0 <= i < st.n) by { TracksBasics(kdf, ck0, dhPub, st, delivered); }
    if Acceptable(st, a.dhPub, a.n, maxSkip) {
      if MkKey(dhPub, a.n) in st.skipped {
        TakeSkippedTracks(kdf, ck0, dhPub, st, a.n, delivered);
      } else {
        SkipTracks(kdf, ck0, dhPub, st, a.n, delivered);
        InOrderTracks(kdf, ck0, dhPub, Skip(kdf, st, a.n), delivered);
      }
    }
  }

  lemma TracksBasics(kdf: Kdf, ck0: Key, dhPub: bytes, st: RecvState, delivered: set<int>)
    requires Tracks(kdf, ck0, dhPub, st, delivered)
    ensures st.dhPub == dhPub && forall i :: i in delivered ==> 0 <= i < st.n
  {}

  /**
   * Every arrival sequence: each delivered key is the sender's key of that index, no index is
   * delivered twice, and the stored keys are exactly those of the undelivered indices below `n`.
   */
  lemma {:induction false} RunCorrect(kdf: Kdf, ck0: Key, dhPub: bytes, arrivals: seq<Arrival>, maxSkip: int)
    ensures var (st, outs) := Run(kdf, RecvState(ck0, 0, dhPub, map[]), arrivals, maxSkip);
            && |outs| == |arrivals|
            && Tracks(kdf, ck0, dhPub, st, DeliveredIn(arrivals, outs))
            && (forall j :: 0 <= j < |outs| && outs[j].Delivered? ==>
                  arrivals[j].n >= 0 && outs[j].mk == MessageKey(kdf, ck0, arrivals[j].n))
            && (forall j, k :: 0 <= j < k < |outs| && outs[j].Delivered? && outs[k].Delivered? ==>
                  arrivals[j].n != arrivals[k].n)
  {
    hide Tracks, RecvMessage;
    var st0 := RecvState(ck0, 0, dhPub, map[]);
    if arrivals == [] {
      InitialTracks(kdf, ck0, dhPub);
      assert DeliveredIn([], []) == {};
    } else {
      var front, a := arrivals[..|arrivals| - 1], arrivals[|arrivals| - 1];
      RunCorrect(kdf, ck0, dhPub, front, maxSkip);
      var (st, outs) := Run(kdf, st0, front, maxSkip);
      RecvMessageTracks(kdf, ck0, dhPub, st, a, maxSkip, DeliveredIn(front, outs));
      DeliveredSnoc(front, outs, a, RecvMessage(kdf, st, a.dhPub, a.n, maxSkip).1);
      assert front + [a] == arrivals;
      var (st', out) := RecvMessage(kdf, st, a.dhPub, a.n, maxSkip);
      assert Run(kdf, st0, arrivals, maxSkip) == (st', outs + [out]);
      assert Tracks(kdf, ck0, dhPub, st', DeliveredIn(arrivals, outs + [out])) by {
        assert DeliveredIn(front, outs) + {} == DeliveredIn(front, outs);
      }
      forall j | 0 <= j < |outs| && outs[j].Delivered? ensures arrivals[j].n in DeliveredIn(front, outs) {
        assert front[j] == arrivals[j];
      }
    }
  }

  lemma InitialTracks(kdf: Kdf, ck0: Key, dhPub: bytes)
    ensures Tracks(kdf, ck0, dhPub, RecvState(ck0, 0, dhPub, map[]), {})
  {}

  lemma DeliveredSnoc(arrivals: seq<Arrival>, outs: seq<Outcome>, a: Arrival, out: Outcome)
    requires |arrivals| == |outs|
    ensures DeliveredIn(arrivals + [a], outs + [out])
         == DeliveredIn(arrivals, outs) + (if out.Delivered? then {a.n} else {})
  {
    var big := DeliveredIn(arrivals + [a], outs + [out]);
    var small := DeliveredIn(arrivals, outs);
    forall x | x in small ensures x in big {
      var j :| 0 <= j < |outs| && outs[j].Delivered? && arrivals[j].n == x;
      assert (outs + [out])[j] == outs[j] && (arrivals + [a])[j] == arrivals[j];
    }
    assert (outs + [out])[|outs|] == out && (arrivals + [a])[|outs|] == a;
  }

  /** Acceptance in any reachable state, in terms of the indices already delivered. */
  lemma AcceptedIff(kdf: Kdf, ck0: Key, dhPub: bytes, arrivals: seq<Arrival>, a: Arrival, maxSkip: int)
    ensures var (st, outs) := Run(kdf, RecvState(ck0, 0, dhPub, map[]), arrivals, maxSkip);
            && |outs| == |arrivals|
            && (RecvMessage(kdf, st, a.dhPub, a.n, maxSkip).1.Delivered? <==>
                  && a.dhPub == dhPub && Indexable(a.n)
                  && a.n !in DeliveredIn(arrivals, outs)
                  && (a.n <= st.n || a.n - st.n <= maxSkip))
  {
    RunCorrect(kdf, ck0, dhPub, arrivals, maxSkip);
    var (st, outs) := Run(kdf, RecvState(ck0, 0, dhPub, map[]), arrivals, maxSkip);
    var delivered := DeliveredIn(arrivals, outs);
    RecvMessageTracks(kdf, ck0, dhPub, st, a, maxSkip, delivered);
    if Indexable(a.n) && MkKey(dhPub, a.n) in st.skipped {
      TakeSkippedTracks(kdf, ck0, dhPub, st, a.n, delivered);
    }
  }
}
