/** Signed delegations: their time window and the bytes a signature covers. */
module Delegation {
  import opened Bytes
  import opened Text

  const MAX_FUTURE_SKEW_SECONDS := 60
  const MAX_DELEGATION_TTL_SECONDS := 24 * 60 * 60

  /** The time bounds a verifier checks at second `now`. */
  predicate TimeOk(issuedAt: int, expiresAt: int, now: int) {
    && issuedAt <= now + MAX_FUTURE_SKEW_SECONDS
    && issuedAt < expiresAt <= issuedAt + MAX_DELEGATION_TTL_SECONDS
    && now < expiresAt
  }

  // ----- decimal numerals ---------------------------------------------------------------------

  function Digit(n: int): char
    requires 0 <= n < 10
  {
    (48 + n) as char
  }

  function DecimalNat(n: nat): (s: string)
    ensures s != "" && forall i :: 0 <= i < |s| ==> '0' <= s[i] <= '9'
  {
    if n < 10 then [Digit(n)] else DecimalNat(n / 10) + [Digit(n % 10)]
  }

  /** `str(n)` */
  function Decimal(n: int): string { if n < 0 then "-" + DecimalNat(-n) else DecimalNat(n) }

  function Parse(s: string): int { if s == "" then 0 else 10 * Parse(s[..|s| - 1]) + (s[|s| - 1] as int - 48) }

  lemma {:induction false} ParseOfDecimal(n: nat)
    ensures Parse(DecimalNat(n)) == n
  {
    if n >= 10 {
      ParseOfDecimal(n / 10);
      assert DecimalNat(n)[..|DecimalNat(n)| - 1] == DecimalNat(n / 10);
    } else {
      assert DecimalNat(n)[..0] == "";
    }
  }

  lemma DecimalSign(n: int)
    ensures n < 0 ==> Decimal(n)[0] == '-' && Decimal(n)[1..] == DecimalNat(-n)
    ensures n >= 0 ==> Decimal(n)[0] != '-' && Decimal(n) == DecimalNat(n)
  {
    hide DecimalNat;
  }

  lemma DecimalInjective(n: int, m: int)
    requires Decimal(n) == Decimal(m)
    ensures n == m
  {
    hide Decimal, DecimalNat, Parse;
    DecimalSign(n);
    DecimalSign(m);
    ParseOfDecimal(if n < 0 then -n else n);
    ParseOfDecimal(if m < 0 then -m else m);
  }

  // ----- signing bytes ---------------------------------------------------------------------------

  /** What is signed; the nonce is given by its raw bytes. */
  datatype Delegation = Delegation(
    sender: string,
    recipient: string,
    taskId: string,
    kind: string,
    issuedAt: int,
    expiresAt: int,
    text: string,
    nonce: bytes)

  function SigningContext(): bytes { Utf8("raven.a2a.delegation.v2") }

  function PutLp(b: bytes, rest: bytes): bytes { PutUint(|b|, 2, b + rest) }

  function Fields(sha256: bytes -> Hash, d: Delegation): seq<bytes> {
    [SigningContext(), Utf8(d.sender), Utf8(d.recipient), Utf8(d.taskId), Utf8(d.kind), Utf8(Decimal(d.issuedAt)),
     Utf8(Decimal(d.expiresAt)), sha256(Utf8(d.text)), d.nonce]
  }

  predicate LpFits(b: bytes) { Fits(|b|, 2) }

  /** `delegation_signing_bytes`; None where a field is too long, or the kind is not ASCII. */
  function SigningBytes(sha256: bytes -> Hash, d: Delegation): Option<bytes> {
    var fields := Fields(sha256, d);
    if IsAscii(d.kind) && forall i :: 0 <= i < |fields| ==> LpFits(fields[i]) then Some(PutMany(PutLp, fields, [])) else None
  }

  lemma LpInjective(a: bytes, b: bytes, r: bytes, s: bytes)
    requires LpFits(a) && LpFits(b) && PutLp(a, r) == PutLp(b, s)
    ensures a == b && r == s
  {
    hide PutUint, Uint, Fits;
    GetOfPutUint(|a|, 2, a + r);
    GetOfPutUint(|b|, 2, b + s);
    TakeOfConcat(a, r);
    TakeOfConcat(b, s);
  }

  lemma {:induction false} LpFieldsInjective(xs: seq<bytes>, ys: seq<bytes>)
    requires |xs| == |ys| && PutMany(PutLp, xs, []) == PutMany(PutLp, ys, [])
    requires forall i :: 0 <= i < |xs| ==> LpFits(xs[i]) && LpFits(ys[i])
    ensures xs == ys
  {
    hide PutLp, LpFits;
    if xs != [] {
      LpInjective(xs[0], ys[0], PutMany(PutLp, xs[1..], []), PutMany(PutLp, ys[1..], []));
      LpFieldsInjective(xs[1..], ys[1..]);
      assert xs == [xs[0]] + xs[1..] && ys == [ys[0]] + ys[1..];
    }
  }

  /** The signed bytes fix every field, the text up to its digest: in particular both time bounds. */
  lemma SigningBytesInjective(sha256: bytes -> Hash, a: Delegation, b: Delegation)
    requires SigningBytes(sha256, a).Some? && SigningBytes(sha256, a) == SigningBytes(sha256, b)
    ensures a.sender == b.sender && a.recipient == b.recipient && a.taskId == b.taskId && a.kind == b.kind
    ensures a.issuedAt == b.issuedAt && a.expiresAt == b.expiresAt && a.nonce == b.nonce
    ensures sha256(Utf8(a.text)) == sha256(Utf8(b.text))
  {
    hide Utf8, Decimal, PutMany, LpFits;
    var x, y := Fields(sha256, a), Fields(sha256, b);
    LpFieldsInjective(x, y);
    assert x[1] == y[1] && x[2] == y[2] && x[3] == y[3] && x[4] == y[4];
    assert x[5] == y[5] && x[6] == y[6] && x[7] == y[7] && x[8] == y[8];
    Utf8Injective(a.sender, b.sender);
    Utf8Injective(a.recipient, b.recipient);
    Utf8Injective(a.taskId, b.taskId);
    Utf8Injective(a.kind, b.kind);
    Utf8Injective(Decimal(a.issuedAt), Decimal(b.issuedAt));
    Utf8Injective(Decimal(a.expiresAt), Decimal(b.expiresAt));
    DecimalInjective(a.issuedAt, b.issuedAt);
    DecimalInjective(a.expiresAt, b.expiresAt);
  }

  // ----- HTTP requests ------------------------------------------------------------------------------

  datatype HttpRequest = HttpRequest(
    sender: string,
    recipient: string,
    verb: string,
    target: string,
    issuedAt: int,
    expiresAt: int,
    body: bytes,
    nonce: bytes)

  function HttpContext(): bytes { Utf8("raven.a2a.http-request.v1") }

  function HttpFields(sha256: bytes -> Hash, h: HttpRequest): seq<bytes> {
    [HttpContext(), Utf8(h.sender), Utf8(h.recipient), Utf8(Upper(h.verb)), Utf8(h.target), Utf8(Decimal(h.issuedAt)),
     Utf8(Decimal(h.expiresAt)), sha256(h.body), h.nonce]
  }

  /** `http_request_signing_bytes`; None where a field is too long, or method or target is not ASCII. */
  function HttpSigningBytes(sha256: bytes -> Hash, h: HttpRequest): Option<bytes> {
    var fields := HttpFields(sha256, h);
    if IsAscii(h.verb) && IsAscii(h.target) && forall i :: 0 <= i < |fields| ==> LpFits(fields[i]) then Some(PutMany(PutLp, fields, []))
    else None
  }

  /** The same for HTTP requests, the method up to its case and the body up to its digest. */
  lemma HttpSigningBytesInjective(sha256: bytes -> Hash, a: HttpRequest, b: HttpRequest)
    requires HttpSigningBytes(sha256, a).Some? && HttpSigningBytes(sha256, a) == HttpSigningBytes(sha256, b)
    ensures a.sender == b.sender && a.recipient == b.recipient && Upper(a.verb) == Upper(b.verb) && a.target == b.target
    ensures a.issuedAt == b.issuedAt && a.expiresAt == b.expiresAt && a.nonce == b.nonce && sha256(a.body) == sha256(b.body)
  {
    hide Utf8, Decimal, PutMany, LpFits, Upper;
    var x, y := HttpFields(sha256, a), HttpFields(sha256, b);
    LpFieldsInjective(x, y);
    assert x[1] == y[1] && x[2] == y[2] && x[3] == y[3] && x[4] == y[4];
    assert x[5] == y[5] && x[6] == y[6] && x[7] == y[7] && x[8] == y[8];
    Utf8Injective(a.sender, b.sender);
    Utf8Injective(a.recipient, b.recipient);
    Utf8Injective(Upper(a.verb), Upper(b.verb));
    Utf8Injective(a.target, b.target);
    Utf8Injective(Decimal(a.issuedAt), Decimal(b.issuedAt));
    Utf8Injective(Decimal(a.expiresAt), Decimal(b.expiresAt));
    DecimalInjective(a.issuedAt, b.issuedAt);
    DecimalInjective(a.expiresAt, b.expiresAt);
  }

  /** No delegation and no HTTP request are signed over the same bytes. */
  lemma ContextsApart(sha256: bytes -> Hash, d: Delegation, h: HttpRequest)
    requires SigningBytes(sha256, d).Some? && HttpSigningBytes(sha256, h).Some?
    ensures SigningBytes(sha256, d) != HttpSigningBytes(sha256, h)
  {
    hide Utf8, Decimal, PutMany, LpFits, Upper;
    var x, y := Fields(sha256, d), HttpFields(sha256, h);
    if PutMany(PutLp, x, []) == PutMany(PutLp, y, []) {
      LpFieldsInjective(x, y);
      assert x[0] == y[0];
      Utf8Injective("raven.a2a.delegation.v2", "raven.a2a.http-request.v1");
      DifferentNames();
      assert false;
    }
  }

  lemma DifferentNames()
    ensures "raven.a2a.delegation.v2" != "raven.a2a.http-request.v1"
  {
    assert |"raven.a2a.delegation.v2"| == 23 && |"raven.a2a.http-request.v1"| == 25;
  }
}
