/** RavenDeviceRevocationV1: the signed revocation record on the wire. */
module RevocationWire {
  import opened Bytes
  import opened Text
  import Address

  const VERSION := 1
  const SUITE := 1
  const ID_MIN := 1
  const ID_MAX := 64
  const MIN_WIRE_LEN := 54 + 2 + ID_MIN + 32 * 2 + 32 + 2 + ID_MIN + 8 + 16 + 1 + 8 + 64

  /** "RVDR1" and three zero bytes. */
  function Magic(): bytes { [0x52, 0x56, 0x44, 0x52, 0x31, 0, 0, 0] }

  function SigningDomain(): bytes { Utf8("rvn1/device-revocation") }

  datatype Revocation = Revocation(
    identityAddress: string,
    deviceId: bytes,
    deviceEdPub: bytes,
    deviceXPub: bytes,
    deviceCertHash: bytes,
    issuerDeviceId: bytes,
    issuerSeq: int,
    revocationId: bytes,
    reasonCode: int,
    createdAtMs: int,
    signature: bytes)

  // ----- what a record may hold -----------------------------------------------------------

  predicate IdOk(id: bytes) { ID_MIN <= |id| <= ID_MAX }

  /** `_require_address` */
  predicate AddressOk(addr: string) {
    |addr| == 44 && Address.Decode(addr).Some? && Lower(addr) == addr && addr[..4] == "rvn1"
  }

  /** What `signing_bytes` demands. */
  predicate FieldsOk(r: Revocation) {
    && IdOk(r.deviceId) && IdOk(r.issuerDeviceId) && AddressOk(r.identityAddress)
    && |r.deviceEdPub| == 32 && |r.deviceXPub| == 32 && |r.deviceCertHash| == 32
    && |r.revocationId| == 16 && r.revocationId != ZeroBytes(16)
    && Fits(r.reasonCode, 1) && Fits(r.issuerSeq, 8) && Fits(r.createdAtMs, 8)
  }

  /** An accepted address is ASCII, so encoding it cannot fail. */
  lemma AddressIsAscii(addr: string)
    requires AddressOk(addr)
    ensures IsAscii(addr) && |Utf8(addr)| == 44
  {
    hide Address.Decode, Lower;
    Address.Exact(addr);
    Utf8OfAscii(addr);
  }

  // ----- writing ------------------------------------------------------------------------------

  function PutId(id: bytes, rest: bytes): bytes { PutUint(|id|, 2, id + rest) }

  /** The device being revoked. */
  function PutTarget(r: Revocation, rest: bytes): bytes {
    PutId(r.deviceId, r.deviceEdPub + (r.deviceXPub + (r.deviceCertHash + rest)))
  }

  /** Who revokes it, and how the claim is numbered. */
  function PutIssue(r: Revocation, rest: bytes): bytes {
    PutId(r.issuerDeviceId, PutUint(r.issuerSeq, 8, r.revocationId + PutUint(r.reasonCode, 1, PutUint(r.createdAtMs, 8, rest))))
  }

  function PutSigned(r: Revocation, rest: bytes): bytes {
    PutUint(VERSION, 1, PutUint(SUITE, 1, Utf8(r.identityAddress) + PutTarget(r, PutIssue(r, rest))))
  }

  function SigningBytes(r: Revocation): (sb: Option<bytes>)
    ensures sb.Some? ==> SigningDomain() <= sb.value
  {
    if !FieldsOk(r) then None else Some(SigningDomain() + PutSigned(r, []))
  }

  function Encode(r: Revocation): Option<bytes> {
    if |r.signature| != 64 then None
    else
      var sb :- SigningBytes(r);
      Some(Magic() + sb[|SigningDomain()|..] + r.signature)
  }

  // ----- reading: the specification ----------------------------------------------------------------

  function GetId(b: bytes): Parsed<bytes> {
    var (n, b1) :- Uint(2, b);
    if ID_MIN <= n <= ID_MAX then Take(n, b1) else None
  }

  function GetHead(b: bytes): Parsed<string> {
    var (version, b1) :- Uint(1, b);
    var (suite, b2) :- Uint(1, b1);
    var (raw, b3) :- Take(44, b2);
    var addr :- FromAscii(raw);
    if version == VERSION && suite == SUITE && AddressOk(addr) then Some((addr, b3)) else None
  }

  datatype Target = Target(id: bytes, ed: bytes, x: bytes, cert: bytes)

  function GetTarget(b: bytes): Parsed<Target> {
    var (id, b1) :- GetId(b);
    var (ed, b2) :- Take(32, b1);
    var (x, b3) :- Take(32, b2);
    var (cert, b4) :- Take(32, b3);
    Some((Target(id, ed, x, cert), b4))
  }

  datatype Issue = Issue(issuer: bytes, issuerSeq: int, revocationId: bytes, reason: int, createdAt: int)

  function GetIssue(b: bytes): Parsed<Issue> {
    var (issuer, b1) :- GetId(b);
    var (issuerSeq, b2) :- Uint(8, b1);
    var (revocationId, b3) :- Take(16, b2);
    var (reason, b4) :- Uint(1, b3);
    var (createdAt, b5) :- Uint(8, b4);
    Some((Issue(issuer, issuerSeq, revocationId, reason, createdAt), b5))
  }

  /** A wire is the magic, one record and its signature, every field complete and nothing after. */
  function Decode(wire: bytes): Option<Revocation> {
    var (magic, b0) :- Take(8, wire);
    var (addr, b1) :- GetHead(b0);
    var (t, b2) :- GetTarget(b1);
    var (i, b3) :- GetIssue(b2);
    var (signature, b4) :- Take(64, b3);
    if magic != Magic() || b4 != [] || i.revocationId == ZeroBytes(16) then None
    else Some(Revocation(addr, t.id, t.ed, t.x, t.cert, i.issuer, i.issuerSeq, i.revocationId, i.reason, i.createdAt, signature))
  }

  // ----- reading: the code ------------------------------------------------------------------------------

  /** Python's `b[i:j]`, which stops at the end of the data. */
  function Slice(b: bytes, i: nat, j: nat): bytes {
    if i >= |b| || j <= i then [] else b[i..if j < |b| then j else |b|]
  }

  /** `_read_lp`: the identifier and the offset after it. */
  method ReadLp(buf: bytes, off: nat) returns (r: Option<(bytes, nat)>)
    ensures off <= |buf| ==> (r.Some? <==> GetId(buf[off..]).Some?)
    ensures r.Some? ==> off <= r.value.1 <= |buf| && GetId(buf[off..]) == Some((r.value.0, buf[r.value.1..]))
    ensures off > |buf| ==> r == None
  {
    hide FromBE;
    if off + 2 > |buf| {
      return None;
    }
    UintAt(buf, off, 2);
    var n := FromBE(Slice(buf, off, off + 2));
    var start := off + 2;
    if !(ID_MIN <= n <= ID_MAX) {
      return None;
    }
    TakeAt(buf, start, n);
    if start + n > |buf| {
      return None;
    }
    return Some((Slice(buf, start, start + n), start + n));
  }

  /** A clamped slice against the exact reader: the same while in range, a failure beyond. */
  lemma TakeAt(b: bytes, off: nat, n: nat)
    ensures off <= |b| ==>
              Take(n, b[off..]) == if off + n <= |b| then Some((Slice(b, off, off + n), b[off + n..])) else None
  {
    if off + n <= |b| {
      assert b[off..][..n] == Slice(b, off, off + n) && b[off..][n..] == b[off + n..];
    }
  }

  lemma UintAt(b: bytes, off: nat, w: nat)
    ensures off <= |b| ==>
              Uint(w, b[off..]) == if off + w <= |b| then Some((FromBE(Slice(b, off, off + w)), b[off + w..])) else None
  {
    if off + w <= |b| {
      assert b[off..][..w] == b[off..off + w];
    }
  }

  lemma ByteAt(b: bytes, off: nat)
    requires off < |b|
    ensures Uint(1, b[off..]) == Some((b[off] as int, b[off + 1..]))
  {
    var one := b[off..][..1];
    assert one == [b[off]] && one[..0] == [];
    assert FromBE(one) == 256 * FromBE(one[..0]) + one[0];
  }

  /** Where the running offset has reached: the reader's remaining input, or past the end. */
  ghost predicate Reads<T>(p: Parsed<T>, wire: bytes, off: nat, v: T) {
    if off <= |wire| then p == Some((v, wire[off..])) else p == None
  }

  /** Bytes 8..54. */
  method ReadHead(wire: bytes) returns (r: Option<string>)
    requires |wire| >= 54
    ensures r.Some? <==> GetHead(wire[8..]).Some?
    ensures r.Some? ==> GetHead(wire[8..]) == Some((r.value, wire[54..]))
  {
    hide FromBE, FromAscii, AddressOk, Uint;
    ByteAt(wire, 8);
    ByteAt(wire, 9);
    TakeAt(wire, 10, 44);
    if wire[8] != VERSION || wire[9] != SUITE {
      return None;
    }
    var addr := FromAscii(Slice(wire, 10, 54));
    if addr == None {
      return None;
    }
    if !AddressOk(addr.value) {
      return None;
    }
    return addr;
  }

  /** Device identifier, keys and certificate hash; the three slices are not checked. */
  method ReadTarget(wire: bytes, start: nat) returns (r: Option<(Target, nat)>)
    requires start <= |wire|
    ensures r.None? ==> GetTarget(wire[start..]) == None
    ensures r.Some? ==> Reads(GetTarget(wire[start..]), wire, r.value.1, r.value.0)
  {
    hide Slice, GetId, Take;
    var lp := ReadLp(wire, start);
    if lp == None {
      return None;
    }
    var (id, off) := lp.value;
    TakeAt(wire, off, 32);
    TakeAt(wire, off + 32, 32);
    TakeAt(wire, off + 64, 32);
    var ed := Slice(wire, off, off + 32);
    off := off + 32;
    var x := Slice(wire, off, off + 32);
    off := off + 32;
    var cert := Slice(wire, off, off + 32);
    off := off + 32;
    return Some((Target(id, ed, x, cert), off));
  }

  /** Issuer, sequence number, claim identifier, reason and time; only the reason byte is checked. */
  method ReadIssue(wire: bytes, start: nat) returns (r: Option<(Issue, nat)>)
    ensures r.None? && start <= |wire| ==> GetIssue(wire[start..]) == None
    ensures r.Some? ==> start <= |wire| && Reads(GetIssue(wire[start..]), wire, r.value.1, r.value.0)
  {
    hide Slice, GetId, Take, Uint, FromBE;
    var lp := ReadLp(wire, start);
    if lp == None {
      return None;
    }
    var (issuer, off) := lp.value;
    UintAt(wire, off, 8);
    TakeAt(wire, off + 8, 16);
    UintAt(wire, off + 24, 1);
    UintAt(wire, off + 25, 8);
    var issuerSeq := FromBE(Slice(wire, off, off + 8));
    off := off + 8;
    var revocationId := Slice(wire, off, off + 16);
    off := off + 16;
    if off >= |wire| {
      return None;
    }
    ByteAt(wire, off);
    var reason := wire[off];
    off := off + 1;
    var createdAt := FromBE(Slice(wire, off, off + 8));
    off := off + 8;
    return Some((Issue(issuer, issuerSeq, revocationId, reason, createdAt), off));
  }

  /**
   * `decode`: most slices are taken without a length check, yet every accepted record is read from
   * full slices, because the running offset must end exactly at the end of the wire.
   */
  method DecodeWire(wire: bytes) returns (r: Option<Revocation>)
    ensures r == Decode(wire)
  {
    hide Slice, GetId, GetHead, GetTarget, GetIssue;
    if |wire| < MIN_WIRE_LEN {
      DecodeNeeds(wire);
      return None;
    }
    if Slice(wire, 0, 8) != Magic() {
      TakeAt(wire, 0, 8);
      return None;
    }
    TakeAt(wire, 0, 8);
    assert wire[0..] == wire;
    var addr := ReadHead(wire);
    if addr == None {
      return None;
    }
    var target := ReadTarget(wire, 54);
    if target == None {
      return None;
    }
    var issue := ReadIssue(wire, target.value.1);
    if issue == None {
      return None;
    }
    var (t, i, off) := (target.value.0, issue.value.0, issue.value.1);
    TakeAt(wire, off, 64);
    var signature := Slice(wire, off, off + 64);
    off := off + 64;
    if off != |wire| {
      return None;
    }
    if i.revocationId == ZeroBytes(16) {
      return None;
    }
    return Some(Revocation(addr.value, t.id, t.ed, t.x, t.cert, i.issuer, i.issuerSeq, i.revocationId, i.reason, i.createdAt, signature));
  }

  lemma GetIdNeeds(b: bytes)
    requires GetId(b).Some?
    ensures |b| >= 2 + ID_MIN + |GetId(b).value.1|
  {}

  /** No shorter wire holds a record. */
  lemma DecodeNeeds(wire: bytes)
    ensures Decode(wire).Some? ==> |wire| >= MIN_WIRE_LEN
  {
    hide GetId, FromAscii, AddressOk, FromBE;
    if Decode(wire).Some? {
      var b1 := GetHead(Take(8, wire).value.1).value.1;
      GetIdNeeds(b1);
      GetIdNeeds(GetTarget(b1).value.1);
    }
  }

  // ----- the two are inverse --------------------------------------------------------------------------------

  lemma GetOfPutId(id: bytes, rest: bytes)
    requires IdOk(id)
    ensures GetId(PutId(id, rest)) == Some((id, rest))
  {
    Widths();
    GetOfPutUint(|id|, 2, id + rest);
    TakeOfConcat(id, rest);
  }

  lemma PutOfGetId(b: bytes)
    requires GetId(b).Some?
    ensures IdOk(GetId(b).value.0) && b == PutId(GetId(b).value.0, GetId(b).value.1)
  {
    hide PutUint;
    PutOfGetUint(2, b);
    TakeInverse(Uint(2, b).value.0, Uint(2, b).value.1);
  }

  lemma GetOfPutTarget(r: Revocation, rest: bytes)
    requires FieldsOk(r)
    ensures GetTarget(PutTarget(r, rest)) == Some((Target(r.deviceId, r.deviceEdPub, r.deviceXPub, r.deviceCertHash), rest))
  {
    hide GetId, PutId, Take, AddressOk;
    var b3 := r.deviceCertHash + rest;
    GetOfPutId(r.deviceId, r.deviceEdPub + (r.deviceXPub + b3));
    TakeOfConcat(r.deviceEdPub, r.deviceXPub + b3);
    TakeOfConcat(r.deviceXPub, b3);
    TakeOfConcat(r.deviceCertHash, rest);
  }

  lemma GetOfPutIssue(r: Revocation, rest: bytes)
    requires FieldsOk(r)
    ensures GetIssue(PutIssue(r, rest))
            == Some((Issue(r.issuerDeviceId, r.issuerSeq, r.revocationId, r.reasonCode, r.createdAtMs), rest))
  {
    hide GetId, PutId, Take, Uint, PutUint, AddressOk;
    var b4 := PutUint(r.createdAtMs, 8, rest);
    var b3 := PutUint(r.reasonCode, 1, b4);
    GetOfPutId(r.issuerDeviceId, PutUint(r.issuerSeq, 8, r.revocationId + b3));
    GetOfPutUint(r.issuerSeq, 8, r.revocationId + b3);
    TakeOfConcat(r.revocationId, b3);
    GetOfPutUint(r.reasonCode, 1, b4);
    GetOfPutUint(r.createdAtMs, 8, rest);
  }

  lemma GetOfPutHead(addr: string, rest: bytes)
    requires AddressOk(addr)
    ensures GetHead(PutUint(VERSION, 1, PutUint(SUITE, 1, Utf8(addr) + rest))) == Some((addr, rest))
  {
    hide Take, Uint, PutUint, AddressOk, FromAscii;
    Widths();
    AddressIsAscii(addr);
    AsciiInverse(addr);
    GetOfPutUint(VERSION, 1, PutUint(SUITE, 1, Utf8(addr) + rest));
    GetOfPutUint(SUITE, 1, Utf8(addr) + rest);
    TakeOfConcat(Utf8(addr), rest);
  }

  lemma PutOfGetHead(b: bytes)
    requires GetHead(b).Some?
    ensures AddressOk(GetHead(b).value.0)
    ensures b == PutUint(VERSION, 1, PutUint(SUITE, 1, Utf8(GetHead(b).value.0) + GetHead(b).value.1))
  {
    hide Take, Uint, PutUint, AddressOk, FromAscii;
    PutOfGetUint(1, b);
    var b1 := Uint(1, b).value.1;
    PutOfGetUint(1, b1);
    TakeInverse(44, Uint(1, b1).value.1);
    FromAsciiInverse(Take(44, Uint(1, b1).value.1).value.0);
  }

  lemma PutOfGetTarget(b: bytes)
    requires GetTarget(b).Some?
    ensures var (t, rest) := GetTarget(b).value;
            && IdOk(t.id) && |t.ed| == 32 && |t.x| == 32 && |t.cert| == 32
            && b == PutId(t.id, t.ed + (t.x + (t.cert + rest)))
  {
    hide GetId, PutId, Take;
    PutOfGetId(b);
    var b1 := GetId(b).value.1;
    TakeInverse(32, b1);
    var b2 := Take(32, b1).value.1;
    TakeInverse(32, b2);
    TakeInverse(32, Take(32, b2).value.1);
  }

  lemma PutOfGetIssue(b: bytes)
    requires GetIssue(b).Some?
    ensures var (i, rest) := GetIssue(b).value;
            && IdOk(i.issuer) && Fits(i.issuerSeq, 8) && |i.revocationId| == 16 && Fits(i.reason, 1) && Fits(i.createdAt, 8)
            && b == PutId(i.issuer, PutUint(i.issuerSeq, 8, i.revocationId + PutUint(i.reason, 1, PutUint(i.createdAt, 8, rest))))
  {
    hide GetId, PutId, Take, Uint, PutUint;
    PutOfGetId(b);
    var b1 := GetId(b).value.1;
    PutOfGetUint(8, b1);
    var b2 := Uint(8, b1).value.1;
    TakeInverse(16, b2);
    var b3 := Take(16, b2).value.1;
    PutOfGetUint(1, b3);
    PutOfGetUint(8, Uint(1, b3).value.1);
  }

  lemma {:induction false} PutUintAppend(n: int, w: nat, b: bytes, rest: bytes)
    ensures PutUint(n, w, b) + rest == PutUint(n, w, b + rest)
  {}

  lemma PutSignedAppend(r: Revocation, rest: bytes)
    ensures PutSigned(r, []) + rest == PutSigned(r, rest)
  {
    hide PutUint, Utf8;
    var c0, c := PutUint(r.createdAtMs, 8, []), PutUint(r.createdAtMs, 8, rest);
    PutUintAppend(r.createdAtMs, 8, [], rest);
    assert [] + rest == rest;
    var n0, n := PutUint(r.reasonCode, 1, c0), PutUint(r.reasonCode, 1, c);
    PutUintAppend(r.reasonCode, 1, c0, rest);
    assert r.revocationId + n0 + rest == r.revocationId + n;
    PutUintAppend(r.issuerSeq, 8, r.revocationId + n0, rest);
    var s0, s := PutUint(r.issuerSeq, 8, r.revocationId + n0), PutUint(r.issuerSeq, 8, r.revocationId + n);
    assert r.issuerDeviceId + s0 + rest == r.issuerDeviceId + s;
    PutUintAppend(|r.issuerDeviceId|, 2, r.issuerDeviceId + s0, rest);
    TargetAppend(r, PutIssue(r, []), rest);
    var t0, t := PutTarget(r, PutIssue(r, [])), PutTarget(r, PutIssue(r, rest));
    assert Utf8(r.identityAddress) + t0 + rest == Utf8(r.identityAddress) + t;
    PutUintAppend(SUITE, 1, Utf8(r.identityAddress) + t0, rest);
    PutUintAppend(VERSION, 1, PutUint(SUITE, 1, Utf8(r.identityAddress) + t0), rest);
  }

  lemma TargetAppend(r: Revocation, b: bytes, rest: bytes)
    ensures PutTarget(r, b) + rest == PutTarget(r, b + rest)
  {
    hide PutUint;
    var m := r.deviceEdPub + (r.deviceXPub + (r.deviceCertHash + b));
    assert m + rest == r.deviceEdPub + (r.deviceXPub + (r.deviceCertHash + (b + rest)));
    assert r.deviceId + m + rest == r.deviceId + (m + rest);
    PutUintAppend(|r.deviceId|, 2, r.deviceId + m, rest);
  }

  /** A signed record and its wire: the magic, the signed fields, the signature. */
  lemma EncodeForm(r: Revocation)
    ensures Encode(r) == if FieldsOk(r) && |r.signature| == 64 then Some(Magic() + PutSigned(r, r.signature)) else None
  {
    hide FieldsOk, PutSigned, SigningDomain;
    var sb := SigningDomain() + PutSigned(r, []);
    assert sb[|SigningDomain()|..] == PutSigned(r, []);
    PutSignedAppend(r, r.signature);
    assert Magic() + PutSigned(r, []) + r.signature == Magic() + (PutSigned(r, []) + r.signature);
  }

  /** Every encodable record is read back unchanged. */
  lemma DecodeOfEncode(r: Revocation)
    ensures Encode(r).Some? <==> FieldsOk(r) && |r.signature| == 64
    ensures Encode(r).Some? ==> Decode(Encode(r).value) == Some(r)
  {
    hide FieldsOk, PutIssue, PutTarget, GetHead, GetTarget, GetIssue, Take, Encode, PutUint, AddressOk, Utf8;
    EncodeForm(r);
    if Encode(r).Some? {
      var rest := PutTarget(r, PutIssue(r, r.signature));
      TakeOfConcat(Magic(), PutSigned(r, r.signature));
      FieldsAddress(r);
      GetOfPutHead(r.identityAddress, rest);
      GetOfPutTarget(r, PutIssue(r, r.signature));
      GetOfPutIssue(r, r.signature);
      TakeOfConcat(r.signature, []);
      assert r.signature + [] == r.signature;
    }
  }

  lemma FieldsAddress(r: Revocation)
    requires FieldsOk(r)
    ensures AddressOk(r.identityAddress) && r.revocationId != ZeroBytes(16)
  {}

  /** Every accepted wire is the encoding of the record read from it. */
  lemma EncodeOfDecode(wire: bytes)
    requires Decode(wire).Some?
    ensures Encode(Decode(wire).value) == Some(wire)
  {
    hide AddressOk, GetHead, GetTarget, GetIssue, Take, Encode, PutUint, PutId, IdOk, Fits;
    var r := Decode(wire).value;
    TakeInverse(8, wire);
    var b0 := Take(8, wire).value.1;
    PutOfGetHead(b0);
    var b1 := GetHead(b0).value.1;
    PutOfGetTarget(b1);
    var b2 := GetTarget(b1).value.1;
    PutOfGetIssue(b2);
    var b3 := GetIssue(b2).value.1;
    TakeInverse(64, b3);
    assert r.signature + [] == r.signature;
    EncodeForm(r);
  }
}
