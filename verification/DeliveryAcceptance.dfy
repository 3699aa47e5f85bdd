/** Which deliveries a POP accepts, said field by field, from the wire to the compiled profile. */
module DeliveryAcceptance {
  import opened Text
  import opened Network
  import opened PopProfile
  import opened ServiceChain
  import opened ServiceChainAcceptance
  import opened Envelope
  import opened Delivery

  /** What is signed, in order. */
  lemma SignedFieldsAre(c: Crypto, e: Unsigned)
    ensures |Fields(c, e)| == 11 && Fields(c, e)[0] == c.utf8("anixops.sdwan.delivery-signature/v1")
    ensures Fields(c, e)[1] == c.utf8(e.schema) && Fields(c, e)[2] == c.utf8(e.kind)
            && Fields(c, e)[3] == c.utf8(e.bundleID)
    ensures Fields(c, e)[4] == c.utf8(e.tenantID) && Fields(c, e)[5] == c.utf8(e.targetID)
    ensures Fields(c, e)[6] == c.utf8(Decimal(e.sequence)) && Fields(c, e)[7] == c.utf8(c.formatTime(e.issuedAt))
    ensures Fields(c, e)[8] == c.utf8(c.formatTime(e.expiresAt)) && Fields(c, e)[9] == c.utf8(e.keyID)
    ensures Fields(c, e)[10] == c.sha256(e.payload)
  {
    hide Decimal;
  }

  /** The prefix of a field is its length in four octets, most significant first. */
  lemma PrefixIs(f: Bytes)
    requires |f| <= MAX_FIELD
    ensures Encode([f]) == [|f| / 0x100_0000, |f| / 0x1_0000 % 0x100, |f| / 0x100 % 0x100, |f| % 0x100] + f
  {
    assert [f][1..] == [];
    assert Encode([f][1..]) == [];
  }

  ghost predicate MetadataFits(net: Net, c: Crypto, e: Unsigned) {
    && e.schema == "anixops.sdwan.delivery/v1" && (e.kind == "client" || e.kind == "pop") && e.sequence >= 1
    && net.trim(e.bundleID) != "" && net.trim(e.tenantID) != "" && net.trim(e.targetID) != "" && net.trim(e.keyID) != ""
    && e.issuedAt != 0 && e.expiresAt != 0 && e.issuedAt < e.expiresAt && c.payloadOk(e.payload)
  }

  /** The key holder's signature on the envelope's fields, with the payload's digest. */
  ghost predicate SignedBy(c: Crypto, key: Bytes, s: Signed) {
    && |key| == 32 && s.algorithm == "ed25519" && s.payloadSHA256 == c.hex(c.sha256(s.envelope.payload))
    && (forall i :: 0 <= i < 11 ==> |Fields(c, s.envelope)[i]| < 0x1_0000_0000)
    && exists signature :: c.unbase64(s.signature) == Some(signature) && |signature| == 64
         && c.verify(key, Encode(Fields(c, s.envelope)), signature)
  }

  /** The payload is a profile of the envelope's schema and kind for the envelope's target. */
  ghost predicate Bound(c: Crypto, e: Unsigned) {
    exists p ::
      c.parseProfile(e.payload) == Some(p) && p.schema == e.schema && p.kind == e.kind && p.principalID == e.targetID
  }

  lemma VerifiedIff(net: Net, c: Crypto, key: Bytes, s: Signed, now: Time)
    ensures Verified(net, c, key, s, now) <==>
            MetadataFits(net, c, s.envelope) && SignedBy(c, key, s) && Bound(c, s.envelope)
            && now < s.envelope.expiresAt
  {
    hide Fields, Encode;
    assert BindsProfile(c, s.envelope) <==> Bound(c, s.envelope);
    assert ValidMetadata(net, c, s.envelope) <==> MetadataFits(net, c, s.envelope);
    hide MetadataFits, ValidMetadata, Bound, BindsProfile;
    assert Encodable(Fields(c, s.envelope)) <==> forall i :: 0 <= i < 11 ==> |Fields(c, s.envelope)[i]| < 0x1_0000_0000;
  }

  /** A POP accepts exactly the deliveries that verify at the time given, are POP bundles for it with a higher
      sequence than the last, and carry a profile the compiler takes. */
  lemma AcceptedIff(net: Net, c: Crypto, r: Request)
    requires ColonMeansV6(net)
    ensures Accepted(net, c, r) <==>
            exists s, p ::
              && r.now != 0 && c.decode(r.envelopeJSON) == Some(s) && Profiled(c, s.envelope, p)
              && MetadataFits(net, c, s.envelope) && SignedBy(c, r.key, s) && Bound(c, s.envelope)
              && r.now < s.envelope.expiresAt && s.envelope.kind == "pop"
              && s.envelope.targetID == net.trim(r.options.localPOPID) && s.envelope.sequence > r.lastAccepted
              && CompilerTakes(net, p, r.targets, r.options)
  {
    hide Verified, MetadataFits, SignedBy, Bound, Compilable, CompilerTakes, ColonMeansV6;
    if r.now != 0 && c.decode(r.envelopeJSON).Some? {
      var s := c.decode(r.envelopeJSON).value;
      VerifiedIff(net, c, r.key, s, r.now);
      var profile := c.parseProfile(s.envelope.payload);
      if profile.Some? && profile.value.pop.Some? {
        CompileSucceedsIff(net, profile.value.pop.value, r.targets, r.options);
        assert Profiled(c, s.envelope, profile.value.pop.value);
      }
      if Verified(net, c, r.key, s, r.now) { BoundHasProfile(c, s.envelope); }
    }
  }

  ghost predicate Profiled(c: Crypto, e: Unsigned, p: Profile) {
    c.parseProfile(e.payload).Some? && c.parseProfile(e.payload).value.pop == Some(p)
  }

  lemma BoundHasProfile(c: Crypto, e: Unsigned)
    requires Bound(c, e)
    ensures c.parseProfile(e.payload).Some?
  {
  }

  /** Over a run: such a delivery is accepted whatever was tried before it, as long as its sequence is higher
      than every one accepted so far. */
  lemma {:induction false} FreshDeliveryIsAccepted(net: Net, c: Crypto, key: Bytes, run: seq<Attempt>, last: U64,
                                                   a: Attempt)
    requires forall l: U64 :: l < SequenceOf(c, a) ==> Accepted(net, c, RequestOf(a, key, l))
    requires last < SequenceOf(c, a)
    requires forall i :: 0 <= i < |run| ==> SequenceOf(c, run[i]) < SequenceOf(c, a)
    ensures AcceptedRun(net, c, key, run + [a], last) == AcceptedRun(net, c, key, run, last) + [a]
    decreases |run|
  {
    hide Accepted, SequenceOf, AcceptedRun;
    var all := run + [a];
    AcceptedRunUnfolds(net, c, key, all, last);
    AcceptedRunUnfolds(net, c, key, run, last);
    if run == [] {
      assert all[1..] == [];
      AcceptedRunUnfolds(net, c, key, [], SequenceOf(c, a));
    } else {
      assert all[0] == run[0] && all[1..] == run[1..] + [a];
      if Accepted(net, c, RequestOf(run[0], key, last)) {
        FreshDeliveryIsAccepted(net, c, key, run[1..], SequenceOf(c, run[0]), a);
      } else {
        FreshDeliveryIsAccepted(net, c, key, run[1..], last, a);
      }
    }
  }
}
