/** The signed delivery envelope: what is signed, and when a signature is accepted. */
module Envelope {
  import opened Text
  import opened Network
  import opened PopProfile

  type U64 = n: int | 0 <= n < 0x1_0000_0000_0000_0000

  const SCHEMA_V1 := "anixops.sdwan.delivery/v1"
  const SIGNING_DOMAIN_V1 := "anixops.sdwan.delivery-signature/v1"
  const ALGORITHM := "ed25519"
  const KIND_CLIENT := "client"
  const KIND_POP := "pop"
  const KEY_SIZE := 32
  const SIGNATURE_SIZE := 64

  datatype Unsigned = Unsigned(
    schema: string, kind: string, bundleID: string, tenantID: string, targetID: string,
    sequence: U64, issuedAt: Time, expiresAt: Time, keyID: string, payload: Bytes)
  datatype Signed = Signed(envelope: Unsigned, algorithm: string, payloadSHA256: string, signature: string)

  /** The payload after strict JSON decoding and `Profile.Validate`. */
  datatype Delivered = Delivered(schema: string, kind: string, principalID: string, pop: Option<Profile>)

  /** Library functions, left uninterpreted. */
  datatype Crypto = Crypto(
    utf8: string -> Bytes,
    formatTime: Time -> string,
    sha256: Bytes -> Bytes,
    hex: Bytes -> string,
    unbase64: string -> Option<Bytes>,
    verify: (Bytes, Bytes, Bytes) -> bool,
    payloadOk: Bytes -> bool,
    parseProfile: Bytes -> Option<Delivered>,
    decode: Bytes -> Option<Signed>)

  /** Text and instants are encoded without loss. */
  ghost predicate Lossless(c: Crypto) {
    && (forall a, b :: c.utf8(a) == c.utf8(b) ==> a == b)
    && (forall a, b :: c.formatTime(a) == c.formatTime(b) ==> a == b)
  }

  predicate ValidMetadata(net: Net, c: Crypto, e: Unsigned) {
    && e.schema == SCHEMA_V1 && (e.kind == KIND_CLIENT || e.kind == KIND_POP)
    && Identifier(net, e.bundleID) && Identifier(net, e.tenantID) && Identifier(net, e.targetID)
    && e.sequence != 0 && e.issuedAt != 0 && e.expiresAt != 0 && e.issuedAt < e.expiresAt
    && Identifier(net, e.keyID) && c.payloadOk(e.payload)
  }

  // ---- the signing input ----

  const MAX_FIELD: int := 0xFFFF_FFFF

  /** `binary.Write` of a `uint32`, big endian. */
  function BigEndian32(n: nat): (b: Bytes)
    requires n <= MAX_FIELD
    ensures |b| == 4 && Number(b) == n
  {
    [n / 0x100_0000, n / 0x1_0000 % 256, n / 256 % 256, n % 256]
  }

  function Number(b: Bytes): nat
    requires |b| == 4
  {
    b[0] as int * 0x100_0000 + b[1] as int * 0x1_0000 + b[2] as int * 256 + b[3] as int
  }

  predicate Encodable(fields: seq<Bytes>) {
    forall i :: 0 <= i < |fields| ==> |fields[i]| <= MAX_FIELD
  }

  function Encode(fields: seq<Bytes>): Bytes
    requires Encodable(fields)
  {
    if fields == [] then [] else BigEndian32(|fields[0]|) + fields[0] + Encode(fields[1..])
  }

  /** Reads length-prefixed fields back. */
  function Decode(b: Bytes): Option<seq<Bytes>>
    decreases |b|
  {
    if b == [] then Some([])
    else if |b| < 4 then None
    else
      var n := Number(b[..4]);
      if |b| < 4 + n then None
      else match Decode(b[4 + n..])
        case None => None
        case Some(rest) => Some([b[4..4 + n]] + rest)
  }

  /** The signing input is uniquely decodable, whatever the number and length of the fields. */
  lemma {:induction false} DecodeEncode(fields: seq<Bytes>)
    requires Encodable(fields)
    ensures Decode(Encode(fields)) == Some(fields)
    decreases |fields|
  {
    if fields != [] {
      var f, rest := fields[0], Encode(fields[1..]);
      var b := Encode(fields);
      assert b == BigEndian32(|f|) + f + rest;
      assert b[..4] == BigEndian32(|f|);
      assert b[4..4 + |f|] == f;
      assert b[4 + |f|..] == rest;
      DecodeEncode(fields[1..]);
      assert fields == [f] + fields[1..];
    }
  }

  function Fields(c: Crypto, e: Unsigned): (fs: seq<Bytes>)
    ensures |fs| == 11
  {
    [c.utf8(SIGNING_DOMAIN_V1), c.utf8(e.schema), c.utf8(e.kind), c.utf8(e.bundleID), c.utf8(e.tenantID),
     c.utf8(e.targetID), c.utf8(Decimal(e.sequence)), c.utf8(c.formatTime(e.issuedAt)),
     c.utf8(c.formatTime(e.expiresAt)), c.utf8(e.keyID), c.sha256(e.payload)]
  }

  predicate Signable(net: Net, c: Crypto, e: Unsigned) {
    ValidMetadata(net, c, e) && Encodable(Fields(c, e))
  }

  /** `SigningInputV1`: the fields, length-prefixed, appended to one buffer. */
  method SigningInputV1(net: Net, c: Crypto, e: Unsigned) returns (r: Outcome<Bytes>)
    ensures r.Ok? <==> Signable(net, c, e)
    ensures r.Ok? ==> r.value == Encode(Fields(c, e)) && Decode(r.value) == Some(Fields(c, e))
  {
    hide Fields, ValidMetadata, Decode;
    if !ValidMetadata(net, c, e) { return Rejected; }
    var fields := Fields(c, e);
    var output: Bytes := [];
    for k := 0 to |fields|
      invariant Encodable(fields[..k]) && output == Encode(fields[..k])
    {
      if |fields[k]| > MAX_FIELD { return Rejected; }
      EncodeAppend(fields[..k], fields[k]);
      assert fields[..k + 1] == fields[..k] + [fields[k]];
      output := output + BigEndian32(|fields[k]|) + fields[k];
    }
    assert fields[..|fields|] == fields;
    DecodeEncode(fields);
    return Ok(output);
  }

  lemma {:induction false} EncodeAppend(fields: seq<Bytes>, f: Bytes)
    requires Encodable(fields) && |f| <= MAX_FIELD
    ensures Encodable(fields + [f]) && Encode(fields + [f]) == Encode(fields) + BigEndian32(|f|) + f
    decreases |fields|
  {
    var all := fields + [f];
    if fields == [] {
      assert all == [f] && all[1..] == [];
      assert Encode([f]) == BigEndian32(|f|) + f + Encode([]);
    } else {
      assert all[0] == fields[0] && all[1..] == fields[1..] + [f];
      EncodeAppend(fields[1..], f);
      assert Encode(all) == BigEndian32(|fields[0]|) + fields[0] + (Encode(fields[1..]) + BigEndian32(|f|) + f);
    }
  }

  predicate SameMetadata(a: Unsigned, b: Unsigned) { a.(payload := []) == b.(payload := []) }

  /** Equal signing inputs carry the same metadata and the same payload digest. */
  lemma SigningInputInjective(net: Net, c: Crypto, a: Unsigned, b: Unsigned)
    requires Lossless(c) && Signable(net, c, a) && Signable(net, c, b)
    requires Encode(Fields(c, a)) == Encode(Fields(c, b))
    ensures SameMetadata(a, b) && c.sha256(a.payload) == c.sha256(b.payload)
  {
    var fa, fb := Fields(c, a), Fields(c, b);
    DecodeEncode(fa);
    DecodeEncode(fb);
    assert fa == fb;
    assert forall i :: 0 <= i < 11 ==> fa[i] == fb[i];
    assert fa[1] == fb[1] && fa[2] == fb[2] && fa[3] == fb[3] && fa[4] == fb[4] && fa[5] == fb[5] && fa[6] == fb[6]
           && fa[7] == fb[7] && fa[8] == fb[8] && fa[9] == fb[9] && fa[10] == fb[10];
    DecimalRoundTrip(a.sequence);
    DecimalRoundTrip(b.sequence);
  }

  // ---- verification ----

  /** `validateProfileBinding`. */
  predicate BindsProfile(c: Crypto, e: Unsigned) {
    match c.parseProfile(e.payload)
    case None => false
    case Some(p) => p.schema == e.schema && p.kind == e.kind && p.principalID == e.targetID
  }

  /** The integrity checks and the signature check of `Signer.Verify`. */
  predicate Authentic(net: Net, c: Crypto, key: Bytes, s: Signed) {
    && |key| == KEY_SIZE && s.algorithm == ALGORITHM && Signable(net, c, s.envelope)
    && s.payloadSHA256 == c.hex(c.sha256(s.envelope.payload))
    && c.unbase64(s.signature).Some? && |c.unbase64(s.signature).value| == SIGNATURE_SIZE
    && c.verify(key, Encode(Fields(c, s.envelope)), c.unbase64(s.signature).value)
  }

  predicate Verified(net: Net, c: Crypto, key: Bytes, s: Signed, now: Time) {
    Authentic(net, c, key, s) && now < s.envelope.expiresAt && BindsProfile(c, s.envelope)
  }

  /** `Signer.Verify`; `clock` is the current time. */
  method Verify(net: Net, c: Crypto, key: Bytes, s: Signed, now: Time, clock: Time) returns (ok: bool)
    ensures ok <==> Verified(net, c, key, s, At(now, clock))
  {
    hide ValidMetadata, Fields, Encode, Decode;
    if |key| != KEY_SIZE || s.algorithm != ALGORITHM || !ValidMetadata(net, c, s.envelope)
       || s.payloadSHA256 != c.hex(c.sha256(s.envelope.payload)) { return false; }
    var signature := c.unbase64(s.signature);
    if signature.None? || |signature.value| != SIGNATURE_SIZE { return false; }
    var input := SigningInputV1(net, c, s.envelope);
    if input.Rejected? || !c.verify(key, input.value, signature.value) { return false; }
    var t := if now == 0 then clock else now;
    return t < s.envelope.expiresAt && BindsProfile(c, s.envelope);
  }

  /** Ideal signatures: whatever verifies under the key is the input of an envelope its holder signed. */
  ghost predicate Ideal(net: Net, c: Crypto, key: Bytes, signed: set<Unsigned>) {
    && (forall e :: e in signed ==> Signable(net, c, e) && BindsProfile(c, e))
    && (forall input, signature :: c.verify(key, input, signature) ==>
          exists e :: e in signed && Signable(net, c, e) && input == Encode(Fields(c, e)))
  }

  lemma AuthenticWasSigned(net: Net, c: Crypto, key: Bytes, signed: set<Unsigned>, s: Signed)
    requires Lossless(c) && Ideal(net, c, key, signed) && Authentic(net, c, key, s)
    ensures exists e ::
              e in signed && SameMetadata(e, s.envelope) && c.sha256(e.payload) == c.sha256(s.envelope.payload)
  {
    hide Fields, Encode, ValidMetadata;
    var input := Encode(Fields(c, s.envelope));
    var e :| e in signed && Signable(net, c, e) && input == Encode(Fields(c, e));
    SigningInputInjective(net, c, e, s.envelope);
  }
}
