/** The durable outcome table: one row per claimed task signature. */
module RelayOutcomes {
  import opened Bytes
  import opened Collections

  const MAX_RELAY_OUTCOMES := 384
  const MAX_RELAY_ENVELOPE_BYTES := 256 * 1024

  datatype Reply = Reply(text: string, signature: string)

  /** A row is being processed, holds a reply, or holds text that is no reply document. */
  datatype RowState = Processing | Stored(reply: Reply) | Unreadable
  datatype Row = Row(expiresAt: int, state: RowState)

  type Rows = map<Hash, Row>

  datatype ClaimResult = New | Interrupted | Completed(reply: Reply) | CorruptReply | Full | Unavailable
  datatype CompleteResult = Persisted | TooLarge | ClaimGone | Unpersisted

  function Unexpired(rows: Rows, now: int): Rows { map k | k in rows && rows[k].expiresAt > now :: rows[k] }

  /** Expired rows other than `key` are gone. */
  function UnexpiredOr(rows: Rows, now: int, key: Hash): Rows {
    map k | k in rows && (rows[k].expiresAt > now || k == key) :: rows[k]
  }

  /** What a row found says to the claimant. */
  function Found(state: RowState): ClaimResult {
    match state
    case Processing => Interrupted
    case Stored(reply) => Completed(reply)
    case Unreadable => CorruptReply
  }

  /** The outcome of claiming `key`; a full table rolls the sweep back. */
  function Claim(rows: Rows, key: Hash, expiresAt: int, now: int): (Rows, ClaimResult) {
    var live := Unexpired(rows, now);
    if key in live then (live, Found(live[key].state))
    else if |live| >= MAX_RELAY_OUTCOMES then (rows, Full)
    else (live[key := Row(expiresAt, Processing)], New)
  }

  /** Only a reply within the limit, and only an existing row, can be completed. */
  function Complete(rows: Rows, key: Hash, expiresAt: int, reply: Reply, size: nat, now: int): (Rows, CompleteResult) {
    if size > MAX_RELAY_ENVELOPE_BYTES then (rows, TooLarge)
    else if key in rows then (UnexpiredOr(rows, now, key)[key := Row(expiresAt, Stored(reply))], Persisted)
    else (rows, ClaimGone)
  }

  class RelayOutcomeStore {
    var rows: Rows
    const hash: string -> Hash

    constructor (hash: string -> Hash)
      ensures rows == map[] && this.hash == hash
    {
      rows, this.hash := map[], hash;
    }

    /** `claim`, as one transaction; a database error leaves the table as it was. */
    method ClaimTask(signature: string, expiresAt: int, now: int, databaseOk: bool) returns (r: ClaimResult)
      modifies this
      ensures databaseOk ==> (rows, r) == Claim(old(rows), hash(signature), expiresAt, now)
      ensures !databaseOk ==> r == Unavailable && rows == old(rows)
      ensures |old(rows)| <= MAX_RELAY_OUTCOMES ==> |rows| <= MAX_RELAY_OUTCOMES
    {
      if !databaseOk {
        return Unavailable;
      }
      var key := hash(signature);
      var begun := rows;
      var expired := set k | k in rows && rows[k].expiresAt <= now;
      UnexpiredIs(rows, now, expired);
      SubmapSize(rows, Unexpired(rows, now));
      rows := rows - expired;
      if key in rows {
        return match rows[key].state
          case Processing => Interrupted
          case Stored(reply) => Completed(reply)
          case Unreadable => CorruptReply;
      }
      if |rows| >= MAX_RELAY_OUTCOMES {
        rows := begun;
        return Full;
      }
      rows := rows[key := Row(expiresAt, Processing)];
      return New;
    }

    /** `complete`, as one transaction; `size` is the length of the serialized reply. */
    method CompleteTask(signature: string, expiresAt: int, reply: Reply, size: nat, now: int, databaseOk: bool) returns (r: CompleteResult)
      modifies this
      ensures databaseOk || size > MAX_RELAY_ENVELOPE_BYTES ==>
                (rows, r) == Complete(old(rows), hash(signature), expiresAt, reply, size, now)
      ensures !databaseOk && size <= MAX_RELAY_ENVELOPE_BYTES ==> r == Unpersisted && rows == old(rows)
    {
      if size > MAX_RELAY_ENVELOPE_BYTES {
        return TooLarge;
      }
      if !databaseOk {
        return Unpersisted;
      }
      var key := hash(signature);
      var begun := rows;
      var expired := set k | k in rows && rows[k].expiresAt <= now && k != key;
      UnexpiredOrIs(rows, now, key, expired);
      rows := rows - expired;
      if key !in rows {
        rows := begun;
        return ClaimGone;
      }
      rows := rows[key := Row(expiresAt, Stored(reply))];
      return Persisted;
    }
  }

  lemma UnexpiredIs(rows: Rows, now: int, expired: set<Hash>)
    requires expired == set k | k in rows && rows[k].expiresAt <= now
    ensures rows - expired == Unexpired(rows, now)
  {}

  lemma UnexpiredOrIs(rows: Rows, now: int, key: Hash, expired: set<Hash>)
    requires expired == set k | k in rows && rows[k].expiresAt <= now && k != key
    ensures rows - expired == UnexpiredOr(rows, now, key)
    ensures key in rows - expired <==> key in rows
  {}
}
