/** Accepting signed POP deliveries: verify, check address and sequence, compile. */
module Delivery {
  import opened Text
  import opened Network
  import opened PopProfile
  import opened ServiceChain
  import opened Envelope

  datatype Request = Request(
    envelopeJSON: Bytes, key: Bytes, now: Time, lastAccepted: U64, targets: seq<Target>, options: Options)
  datatype Prepared = Prepared(
    bundleID: string, tenantID: string, targetID: string, keyID: string, sequence: U64, expiresAt: Time, plan: Plan)

  /** The checks before compilation. */
  ghost predicate Admissible(net: Net, c: Crypto, r: Request) {
    && r.now != 0 && c.decode(r.envelopeJSON).Some?
    && var s := c.decode(r.envelopeJSON).value;
       && Verified(net, c, r.key, s, r.now) && s.envelope.kind == KIND_POP
       && s.envelope.targetID == net.trim(r.options.localPOPID) && s.envelope.sequence > r.lastAccepted
       && c.parseProfile(s.envelope.payload).value.pop.Some?
  }

  ghost predicate Accepted(net: Net, c: Crypto, r: Request) {
    && Admissible(net, c, r)
    && Compilable(net, c.parseProfile(c.decode(r.envelopeJSON).value.envelope.payload).value.pop.value, r.targets,
                  r.options)
  }

  /** `PrepareSignedServiceChainDelivery`. */
  method Prepare(net: Net, c: Crypto, r: Request, clock: Time) returns (p: Outcome<Prepared>)
    ensures p.Ok? <==> Accepted(net, c, r)
    ensures p.Ok? ==>
              var e := c.decode(r.envelopeJSON).value.envelope;
              && p.value == Prepared(e.bundleID, e.tenantID, e.targetID, e.keyID, e.sequence, e.expiresAt, p.value.plan)
              && CompiledPlan(net, NormalizeOptions(net, r.options).value, c.parseProfile(e.payload).value.pop.value,
                              r.targets, p.value.plan)
              && ValidPlan(net, p.value.plan)
  {
    hide Authentic, Compilable, CompiledPlan, NormalizeOptions, ValidPlan;
    if r.now == 0 { return Rejected; }
    var decoded := c.decode(r.envelopeJSON);
    if decoded.None? { return Rejected; }
    var s := decoded.value;
    var verified := Verify(net, c, r.key, s, r.now, clock);
    if !verified || s.envelope.kind != KIND_POP || s.envelope.targetID != net.trim(r.options.localPOPID)
       || s.envelope.sequence <= r.lastAccepted { return Rejected; }
    var profile := c.parseProfile(s.envelope.payload);
    if profile.None? || profile.value.kind != KIND_POP || profile.value.pop.None? { return Rejected; }
    var plan := Compile(net, profile.value.pop.value, r.targets, r.options);
    if plan.Rejected? { return Rejected; }
    var e := s.envelope;
    return Ok(Prepared(e.bundleID, e.tenantID, e.targetID, e.keyID, e.sequence, e.expiresAt, plan.value));
  }

  /** The decoded principal of a POP payload is the principal of its profile. */
  ghost predicate PrincipalOfPop(c: Crypto) {
    forall b :: c.parseProfile(b).Some? && c.parseProfile(b).value.pop.Some? ==>
      c.parseProfile(b).value.principalID == c.parseProfile(b).value.pop.value.principalID
  }

  /** The envelope's binding makes the compiler's own principal check redundant. */
  lemma BindingImpliesPrincipal(net: Net, c: Crypto, r: Request)
    requires PrincipalOfPop(c) && Admissible(net, c, r) && NormalizeOptions(net, r.options).Ok?
    ensures NormalizeOptions(net, r.options).value.localPOPID ==
            net.trim(c.parseProfile(c.decode(r.envelopeJSON).value.envelope.payload).value.pop.value.principalID)
  {
    hide Authentic;
    assert net.trim(net.trim(r.options.localPOPID)) == net.trim(r.options.localPOPID);
  }

  // ---- whole runs ----

  /** One delivery attempt; the last accepted sequence is fed back by the run. */
  datatype Attempt = Attempt(envelopeJSON: Bytes, now: Time, targets: seq<Target>, options: Options)

  ghost function RequestOf(a: Attempt, key: Bytes, last: U64): Request {
    Request(a.envelopeJSON, key, a.now, last, a.targets, a.options)
  }

  /** The attempts a POP accepts, in order, when it remembers the last accepted sequence. */
  ghost function AcceptedRun(net: Net, c: Crypto, key: Bytes, run: seq<Attempt>, last: U64): seq<Attempt>
    decreases |run|
  {
    if run == [] then []
    else if Accepted(net, c, RequestOf(run[0], key, last))
    then [run[0]] + AcceptedRun(net, c, key, run[1..], c.decode(run[0].envelopeJSON).value.envelope.sequence)
    else AcceptedRun(net, c, key, run[1..], last)
  }

  /** What a POP may rely on for one accepted attempt. */
  ghost predicate Genuine(net: Net, c: Crypto, signed: set<Unsigned>, localPOPID: string, a: Attempt) {
    && c.decode(a.envelopeJSON).Some?
    && var e := c.decode(a.envelopeJSON).value.envelope;
       && e.kind == KIND_POP && e.targetID == net.trim(localPOPID) && a.now < e.expiresAt
       && exists o :: o in signed && SameMetadata(o, e) && c.sha256(o.payload) == c.sha256(e.payload)
  }

  ghost function SequenceOf(c: Crypto, a: Attempt): U64 {
    if c.decode(a.envelopeJSON).Some? then c.decode(a.envelopeJSON).value.envelope.sequence else 0
  }

  /** Under ideal signatures, every accepted delivery was signed for this POP, is unexpired, and has a
      sequence number above every one accepted before it. */
  lemma {:induction false} RunAcceptsOnlyGenuine(net: Net, c: Crypto, key: Bytes, signed: set<Unsigned>,
                                                 localPOPID: string, run: seq<Attempt>, last: U64)
    requires Lossless(c) && Ideal(net, c, key, signed)
    requires forall i :: 0 <= i < |run| ==> run[i].options.localPOPID == localPOPID
    ensures AllGenuine(net, c, signed, localPOPID, AcceptedRun(net, c, key, run, last))
    ensures Increasing(c, AcceptedRun(net, c, key, run, last), last)
    decreases |run|
  {
    hide Ideal, Lossless, Accepted, Genuine, SequenceOf, AcceptedRun;
    AcceptedRunUnfolds(net, c, key, run, last);
    if run != [] {
      if Accepted(net, c, RequestOf(run[0], key, last)) {
        AcceptedIsGenuine(net, c, key, signed, run[0], last);
        RunAcceptsOnlyGenuine(net, c, key, signed, localPOPID, run[1..], SequenceOf(c, run[0]));
      } else {
        RunAcceptsOnlyGenuine(net, c, key, signed, localPOPID, run[1..], last);
      }
    }
  }

  ghost predicate AllGenuine(net: Net, c: Crypto, signed: set<Unsigned>, localPOPID: string, accepted: seq<Attempt>) {
    forall i :: 0 <= i < |accepted| ==> Genuine(net, c, signed, localPOPID, accepted[i])
  }

  /** Sequence numbers rise strictly, starting above `last`. */
  ghost predicate Increasing(c: Crypto, accepted: seq<Attempt>, last: U64) {
    && (forall i :: 0 <= i < |accepted| ==> last < SequenceOf(c, accepted[i]))
    && (forall i, j :: 0 <= i < j < |accepted| ==> SequenceOf(c, accepted[i]) < SequenceOf(c, accepted[j]))
  }

  lemma AcceptedRunUnfolds(net: Net, c: Crypto, key: Bytes, run: seq<Attempt>, last: U64)
    ensures AcceptedRun(net, c, key, run, last) ==
            if run == [] then []
            else if Accepted(net, c, RequestOf(run[0], key, last))
            then [run[0]] + AcceptedRun(net, c, key, run[1..], SequenceOf(c, run[0]))
            else AcceptedRun(net, c, key, run[1..], last)
  {
    hide Compilable, Verified;
  }

  lemma AcceptedIsGenuine(net: Net, c: Crypto, key: Bytes, signed: set<Unsigned>, a: Attempt, last: U64)
    requires Lossless(c) && Ideal(net, c, key, signed) && Accepted(net, c, RequestOf(a, key, last))
    ensures Genuine(net, c, signed, a.options.localPOPID, a) && last < SequenceOf(c, a)
    ensures c.decode(a.envelopeJSON).Some? && SequenceOf(c, a) == c.decode(a.envelopeJSON).value.envelope.sequence
  {
    hide Authentic, Compilable, Ideal, Lossless;
    AuthenticWasSigned(net, c, key, signed, c.decode(a.envelopeJSON).value);
  }
}
