/** RVFA1: the 204-byte authenticated anchor blob. */
module AnchorCodec {
  import opened Bytes

  const RVFA1_LEN := 204
  const RVFA1_PREFIX_LEN := 172
  const RVFA1_SCHEMA := 1

  /** "RVFA1" and three zero bytes. */
  function Magic(): bytes { [0x52, 0x56, 0x46, 0x41, 0x31, 0, 0, 0] }

  /** HMAC-SHA256 as a function of key and message. */
  type Hmac = (bytes, bytes) -> Hash

  datatype Status = Head | Deleting | Tombstone

  datatype Rvfa1 = Rvfa1(
    status: Status,
    role: int,
    recordKey: bytes,
    sessionId: bytes,
    anchorSeq: int,
    generation: int,
    clearedStateDigest: bytes,
    clearedStoreRevision: int,
    transitionId: bytes,
    horizonMs: int,
    hmac: bytes)

  function StatusByte(s: Status): byte {
    match s
    case Head => 1
    case Deleting => 2
    case Tombstone => 3
  }

  function StatusOf(b: byte): Option<Status> {
    if b == 1 then Some(Head) else if b == 2 then Some(Deleting) else if b == 3 then Some(Tombstone) else None
  }

  // ----- fixed layouts ----------------------------------------------------------------

  function Join(fs: seq<bytes>): bytes { if fs == [] then [] else fs[0] + Join(fs[1..]) }

  function Sum(widths: seq<nat>): nat { if widths == [] then 0 else widths[0] + Sum(widths[1..]) }

  /** Consecutive slices of the given widths. */
  function Cut(b: bytes, widths: seq<nat>): (fs: seq<bytes>)
    requires |b| == Sum(widths)
    ensures |fs| == |widths| && forall i :: 0 <= i < |fs| ==> |fs[i]| == widths[i]
  {
    if widths == [] then [] else [b[..widths[0]]] + Cut(b[widths[0]..], widths[1..])
  }

  lemma {:induction false} CutOfJoin(fs: seq<bytes>, widths: seq<nat>)
    requires |fs| == |widths| && forall i :: 0 <= i < |fs| ==> |fs[i]| == widths[i]
    ensures |Join(fs)| == Sum(widths) && Cut(Join(fs), widths) == fs
  {
    if fs != [] {
      CutOfJoin(fs[1..], widths[1..]);
      TakeOfConcat(fs[0], Join(fs[1..]));
      assert (fs[0] + Join(fs[1..]))[..widths[0]] == fs[0];
    }
  }

  lemma {:induction false} JoinOfCut(b: bytes, widths: seq<nat>)
    requires |b| == Sum(widths)
    ensures Join(Cut(b, widths)) == b
  {
    if widths != [] {
      JoinOfCut(b[widths[0]..], widths[1..]);
      assert Cut(b, widths)[1..] == Cut(b[widths[0]..], widths[1..]);
    }
  }

  // ----- the anchor blob --------------------------------------------------------------

  predicate FieldsOk(r: Rvfa1) {
    && (r.role == 0 || r.role == 1)
    && Fits(r.anchorSeq, 8) && Fits(r.generation, 8) && Fits(r.clearedStoreRevision, 8) && Fits(r.horizonMs, 8)
    && |r.recordKey| == 32 && |r.sessionId| == 32 && |r.clearedStateDigest| == 32 && |r.transitionId| == 32
  }

  /** Field widths of the authenticated prefix. */
  function PrefixWidths(): seq<nat> { [8, 2, 1, 1, 32, 32, 8, 8, 32, 8, 32, 8] }

  function PrefixFields(r: Rvfa1): seq<bytes>
    requires FieldsOk(r)
  {
    [Magic(), BE(RVFA1_SCHEMA, 2), [StatusByte(r.status)], [r.role], r.recordKey, r.sessionId,
     BE(r.anchorSeq, 8), BE(r.generation, 8), r.clearedStateDigest, BE(r.clearedStoreRevision, 8),
     r.transitionId, BE(r.horizonMs, 8)]
  }

  /** `prefix_bytes`, for acceptable fields. */
  function Prefix(r: Rvfa1): bytes
    requires FieldsOk(r)
  {
    Join(PrefixFields(r))
  }

  /** An empty or all-zero tag asks for the tag to be computed; any other must already be right. */
  function Encode(hmac: Hmac, key: bytes, r: Rvfa1): Option<bytes> {
    if !FieldsOk(r) || |key| != 32 then None
    else
      var tag := hmac(key, Prefix(r));
      if r.hmac != [] && r.hmac != ZeroBytes(32) && r.hmac != tag then None
      else
        var out := Prefix(r) + tag;
        if |out| != RVFA1_LEN then None else Some(out)
  }

  lemma SumFrom(w: seq<nat>, i: nat)
    requires i < |w|
    ensures Sum(w[i..]) == w[i] + Sum(w[i + 1..])
    ensures i + 1 == |w| ==> Sum(w[i + 1..]) == 0
  {
    assert w[i..][1..] == w[i + 1..];
  }

  lemma PrefixSum()
    ensures Sum(PrefixWidths()) == RVFA1_PREFIX_LEN
  {
    hide Sum;
    var w := PrefixWidths();
    SumFrom(w, 0); SumFrom(w, 1); SumFrom(w, 2); SumFrom(w, 3);
    SumFrom(w, 4); SumFrom(w, 5); SumFrom(w, 6); SumFrom(w, 7);
    SumFrom(w, 8); SumFrom(w, 9); SumFrom(w, 10); SumFrom(w, 11);
    assert w[0..] == w;
  }

  function Decode(hmac: Hmac, key: bytes, raw: bytes): Option<Rvfa1> {
    if |raw| != RVFA1_LEN then None
    else
      var prefix, tag := raw[..RVFA1_PREFIX_LEN], raw[RVFA1_PREFIX_LEN..];
      PrefixSum();
      var f := Cut(prefix, PrefixWidths());
      if f[0] != Magic() || FromBE(f[1]) != RVFA1_SCHEMA then None
      else
        var status :- StatusOf(f[2][0]);
        if f[3][0] != 0 && f[3][0] != 1 then None
        else if |key| != 32 || tag != hmac(key, prefix) then None
        else Some(Rvfa1(status, f[3][0], f[4], f[5], FromBE(f[6]), FromBE(f[7]), f[8], FromBE(f[9]), f[10],
                        FromBE(f[11]), tag))
  }

  lemma PrefixRoundTrip(r: Rvfa1)
    requires FieldsOk(r)
    ensures |Prefix(r)| == RVFA1_PREFIX_LEN == Sum(PrefixWidths())
    ensures Cut(Prefix(r), PrefixWidths()) == PrefixFields(r)
  {
    hide Join, Cut, Sum, BE;
    PrefixSum();
    CutOfJoin(PrefixFields(r), PrefixWidths());
  }

  /**
   * Whatever the encoder writes decodes to the same fields with the tag filled in; its final
   * length test never rejects.
   */
  lemma DecodeOfEncode(hmac: Hmac, key: bytes, r: Rvfa1)
    ensures FieldsOk(r) && |key| == 32 && (r.hmac == [] || r.hmac == ZeroBytes(32) || r.hmac == hmac(key, Prefix(r)))
            <==> Encode(hmac, key, r).Some?
    ensures Encode(hmac, key, r).Some? ==>
              && |Encode(hmac, key, r).value| == RVFA1_LEN
              && Decode(hmac, key, Encode(hmac, key, r).value) == Some(r.(hmac := hmac(key, Prefix(r))))
  {
    hide Join, Cut, Sum, BE, FromBE, Fits;
    if FieldsOk(r) {
      PrefixRoundTrip(r);
      var tag := hmac(key, Prefix(r));
      TakeOfConcat(Prefix(r), tag);
      assert (Prefix(r) + tag)[..RVFA1_PREFIX_LEN] == Prefix(r) && (Prefix(r) + tag)[RVFA1_PREFIX_LEN..] == tag;
      ReadUints(r);
    }
  }

  lemma ReadUints(r: Rvfa1)
    requires FieldsOk(r)
    ensures FromBE(BE(RVFA1_SCHEMA, 2)) == RVFA1_SCHEMA
    ensures FromBE(BE(r.anchorSeq, 8)) == r.anchorSeq && FromBE(BE(r.generation, 8)) == r.generation
    ensures FromBE(BE(r.clearedStoreRevision, 8)) == r.clearedStoreRevision && FromBE(BE(r.horizonMs, 8)) == r.horizonMs
  {
    hide BE, FromBE;
    Widths();
    FromBEOfBE(RVFA1_SCHEMA, 2);
    FromBEOfBE(r.anchorSeq, 8);
    FromBEOfBE(r.generation, 8);
    FromBEOfBE(r.clearedStoreRevision, 8);
    FromBEOfBE(r.horizonMs, 8);
  }

  /** Every accepted blob is exactly what the encoder writes for the fields read from it. */
  lemma EncodeOfDecode(hmac: Hmac, key: bytes, raw: bytes)
    requires Decode(hmac, key, raw).Some?
    ensures FieldsOk(Decode(hmac, key, raw).value)
    ensures Encode(hmac, key, Decode(hmac, key, raw).value) == Some(raw)
  {
    hide Join, Cut, Sum, BE, FromBE, Fits;
    PrefixSum();
    var r, prefix := Decode(hmac, key, raw).value, raw[..RVFA1_PREFIX_LEN];
    var f := Cut(prefix, PrefixWidths());
    WriteUints(f);
    assert f[2] == [StatusByte(r.status)] && f[3] == [r.role];
    assert PrefixFields(r) == f;
    JoinOfCut(prefix, PrefixWidths());
    assert raw == prefix + raw[RVFA1_PREFIX_LEN..];
  }

  lemma WriteUints(f: seq<bytes>)
    requires |f| == 12 && |f[1]| == 2 && |f[6]| == 8 && |f[7]| == 8 && |f[9]| == 8 && |f[11]| == 8
    ensures BE(FromBE(f[1]), 2) == f[1]
    ensures Fits(FromBE(f[6]), 8) && BE(FromBE(f[6]), 8) == f[6]
    ensures Fits(FromBE(f[7]), 8) && BE(FromBE(f[7]), 8) == f[7]
    ensures Fits(FromBE(f[9]), 8) && BE(FromBE(f[9]), 8) == f[9]
    ensures Fits(FromBE(f[11]), 8) && BE(FromBE(f[11]), 8) == f[11]
  {
    hide BE, FromBE;
    BEOfFromBE(f[1]);
    BEOfFromBE(f[6]);
    BEOfFromBE(f[7]);
    BEOfFromBE(f[9]);
    BEOfFromBE(f[11]);
  }
}
