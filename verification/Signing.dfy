/** Signing and verifying action requests (internal/actions/signer.go and types.go). Times are
    integers (nanoseconds) with 0 for Go's zero time; Ed25519 (section 5.1 of RFC 8032) and the
    JSON encoding of the payload are arbitrary functions with their laws as hypotheses. */
module Signing {
  import opened GoStrings

  const FIVE_MINUTES: int := 300_000_000_000
  const DRY_RUN: string := "dry_run"
  const EXECUTE: string := "execute"

  /** signingPayload */
  datatype Payload = Payload(
    requestID: string, proposalID: string, runnerID: string, typ: string, parameters: string,
    issuedAt: int, expiresAt: int, phase: string)

  datatype Request = Request(payload: Payload, signature: string)

  /** json.Marshal of the payload (None when the raw parameters are not JSON); the text of an
      Ed25519 signature; whether a signature text is base64; whether it is valid for the bytes. */
  datatype Scheme = Scheme(
    encode: Payload -> Option<string>, sign: string -> string, decodes: string -> bool, valid: (string, string) -> bool)

  /** The times Sign fills in. */
  function Stamp(p: Payload, clock: int): Payload {
    var issued := if p.issuedAt == 0 then clock else p.issuedAt;
    p.(issuedAt := issued, expiresAt := if p.expiresAt == 0 then issued + FIVE_MINUTES else p.expiresAt)
  }

  /** Times that were given are kept, and nothing but the times changes; a request signed with zero times
      is issued now and expires five minutes later. */
  lemma StampKeepsTimes(p: Payload, clock: int)
    ensures Stamp(p, clock).(issuedAt := p.issuedAt, expiresAt := p.expiresAt) == p
    ensures p.issuedAt != 0 ==> Stamp(p, clock).issuedAt == p.issuedAt
    ensures p.expiresAt != 0 ==> Stamp(p, clock).expiresAt == p.expiresAt
    ensures p.issuedAt == 0 ==> Stamp(p, clock).issuedAt == clock
    ensures p.expiresAt == 0 ==> Stamp(p, clock).expiresAt - Stamp(p, clock).issuedAt == 5 * 60 * 1_000_000_000
  {
  }

  /** Signer.Sign: the request is stamped even when its payload cannot be serialized. */
  method Sign(s: Scheme, r: Request, clock: int) returns (signed: Request, ok: bool)
    ensures ok ==> Issued(s, SignCall(r, clock)) == Some(signed)
    ensures signed.payload == Stamp(r.payload, clock)
    ensures ok <==> s.encode(Stamp(r.payload, clock)).Some?
    ensures signed.signature == if ok then s.sign(s.encode(Stamp(r.payload, clock)).value) else r.signature
  {
    signed := r;
    if signed.payload.issuedAt == 0 {
      signed := signed.(payload := signed.payload.(issuedAt := clock));
    }
    if signed.payload.expiresAt == 0 {
      signed := signed.(payload := signed.payload.(expiresAt := signed.payload.issuedAt + FIVE_MINUTES));
    }
    var bytes := s.encode(signed.payload);
    if bytes.None? { return signed, false; }
    signed := signed.(signature := s.sign(bytes.value));
    return signed, true;
  }

  datatype Problem = MissingSignature | Expired | Undecodable | Unserializable | WrongSignature

  /** Verifier.Verify: None, or the first problem found. */
  function Verify(s: Scheme, r: Request, now: int): (p: Option<Problem>)
  {
    if r.signature == "" then Some(MissingSignature)
    else if r.payload.expiresAt != 0 && now > r.payload.expiresAt then Some(Expired)
    else if !s.decodes(r.signature) then Some(Undecodable)
    else if s.encode(r.payload).None? then Some(Unserializable)
    else if !s.valid(s.encode(r.payload).value, r.signature) then Some(WrongSignature)
    else None
  }

  // ---------------------------------------------------------------- laws of the scheme

  /** A signature is a non-empty base64 text that is valid for what it signs. */
  ghost predicate Correct(s: Scheme) {
    forall b :: s.sign(b) != "" && s.decodes(s.sign(b)) && s.valid(b, s.sign(b))
  }

  /** One call of Sign by the control plane. */
  datatype SignCall = SignCall(request: Request, clock: int)

  /** What Sign hands out for a call. */
  function Issued(s: Scheme, call: SignCall): Option<Request> {
    var p := Stamp(call.request.payload, call.clock);
    var bytes := s.encode(p);
    if bytes.None? then None else Some(Request(p, s.sign(bytes.value)))
  }

  /** The ideal property of signatures, on one request that turned up: if its signature is valid, the
      control plane signed those bytes. */
  ghost predicate Unforged(s: Scheme, journal: seq<SignCall>, r: Request) {
    s.encode(r.payload).Some? && s.valid(s.encode(r.payload).value, r.signature) ==>
      exists k: nat :: k < |journal| &&
        s.encode(Stamp(journal[k].request.payload, journal[k].clock)) == s.encode(r.payload)
  }

  /** The request is one that Sign handed out. */
  ghost predicate SignedBy(s: Scheme, journal: seq<SignCall>, r: Request) {
    exists k: nat :: k < |journal| && Issued(s, journal[k]) == Some(r)
  }

  /** Payloads that encode alike agree on everything but the spelling of their raw parameters, which
      json.Marshal compacts. */
  ghost predicate Faithful(s: Scheme) {
    forall p, q :: s.encode(p).Some? && s.encode(p) == s.encode(q) ==> p == q.(parameters := p.parameters)
  }

  /** What Sign produces verifies exactly until it expires. */
  lemma SignedVerifies(s: Scheme, p: Payload, clock: int, now: int)
    requires Correct(s) && s.encode(Stamp(p, clock)).Some?
    ensures var r := Request(Stamp(p, clock), s.sign(s.encode(Stamp(p, clock)).value));
            Verify(s, r, now).None? <==> r.payload.expiresAt == 0 || now <= r.payload.expiresAt
  {
    var b := s.encode(Stamp(p, clock)).value;
    assert s.sign(b) != "" && s.decodes(s.sign(b)) && s.valid(b, s.sign(b));
  }

  /** Which problem is reported: a request that was signed and not changed is only ever expired; without
      a signature that comes first; and before it expires, a payload that was changed, or a signature
      that is not one, is named as such. */
  lemma ProblemsNamed(s: Scheme, call: SignCall, r: Request, now: int)
    requires Correct(s) && Issued(s, call).Some?
    ensures var signed := Issued(s, call).value;
            && Verify(s, signed.(signature := ""), now) == Some(MissingSignature)
            && Verify(s, signed, now) in {None, Some(Expired)}
            && (r.signature == signed.signature && r.payload.expiresAt != 0 && now > r.payload.expiresAt ==>
                  Verify(s, r, now) == Some(Expired))
            && (r.signature == signed.signature && (r.payload.expiresAt == 0 || now <= r.payload.expiresAt) ==>
                  Verify(s, r, now) == match s.encode(r.payload)
                                       case None => Some(Unserializable)
                                       case Some(b) => if s.valid(b, r.signature) then None else Some(WrongSignature))
            && (r.signature != "" && !s.decodes(r.signature) &&
                (r.payload.expiresAt == 0 || now <= r.payload.expiresAt) ==>
                  Verify(s, r, now) == Some(Undecodable))
  {
    var p := Stamp(call.request.payload, call.clock);
    SignedVerifies(s, call.request.payload, call.clock, now);
    var b := s.encode(p).value;
    assert s.sign(b) != "" && s.decodes(s.sign(b));
  }

  /** A request that verifies is one the control plane signed: same ids, type, times and phase. A
      request signed with zero times verifies at no moment later than five minutes after its issue. */
  lemma VerifiedWasSigned(s: Scheme, journal: seq<SignCall>, r: Request, now: int) returns (k: nat)
    requires Unforged(s, journal, r) && Faithful(s) && Verify(s, r, now).None?
    ensures k < |journal|
    ensures var call := journal[k];
            && r.payload == Stamp(call.request.payload, call.clock).(parameters := r.payload.parameters)
            && r.payload.phase == call.request.payload.phase
            && (call.request.payload.issuedAt == call.request.payload.expiresAt == 0 && call.clock > 0 ==>
                  r.payload.issuedAt == call.clock && now <= call.clock + FIVE_MINUTES)
  {
    k :| k < |journal| && s.encode(Stamp(journal[k].request.payload, journal[k].clock)) == s.encode(r.payload);
  }
}
