/** DER definite lengths (sections 8.1.3 and 10.1 of ITU-T X.690) and the sequences built with them. */
module Der {
  import opened Text

  function Base256(n: nat): Bytes { if n == 0 then [] else Base256(n / 256) + [n % 256] }

  function Value(b: Bytes): nat { if b == [] then 0 else 256 * Value(b[..|b| - 1]) + b[|b| - 1] as int }

  /** The definite form with the fewest octets: short below 128, else a count and the octets of `n`. */
  function LengthForm(n: nat): (b: Bytes)
    requires n <= MAX_INT
    ensures |b| >= 1
  {
    if n < 128 then [n]
    else
      assert |Base256(n)| <= 8 by { FitsIn(n, 8); assert Octets(8) > MAX_INT; }
      [128 + |Base256(n)|] + Base256(n)
  }

  function Octets(k: nat): (p: nat)
    ensures p > 0
  {
    if k == 0 then 1 else 256 * Octets(k - 1)
  }

  lemma {:induction false} FitsIn(n: nat, k: nat)
    requires n < Octets(k)
    ensures |Base256(n)| <= k
  {
    if n != 0 { FitsIn(n / 256, k - 1); }
  }

  lemma {:induction false} ValueBound(b: Bytes)
    ensures Value(b) < Octets(|b|)
  {
    if b != [] { ValueBound(b[..|b| - 1]); }
  }

  lemma {:induction false} ValueBase256(n: nat)
    ensures Value(Base256(n)) == n
  {
    if n != 0 {
      ValueBase256(n / 256);
      assert Base256(n)[..|Base256(n)| - 1] == Base256(n / 256);
    }
  }

  /** `derLength`: the octets are written backwards into an eight-byte buffer. */
  method DerLength(n: nat) returns (out: Bytes)
    requires n <= MAX_INT
    ensures out == LengthForm(n)
  {
    if n < 128 { return [n]; }
    var buf := new Byte[8](_ => 0);
    var i, left := 8, n;
    FitsIn(n, 8);
    while left > 0
      invariant 0 <= i <= 8 && 0 <= left <= n
      invariant Base256(n) == Base256(left) + buf[i..]
      invariant |Base256(left)| <= i
      decreases left
    {
      ghost var tail := buf[i..];
      i := i - 1;
      buf[i] := left % 256;
      assert buf[i..] == [left % 256] + tail;
      left := left / 256;
    }
    assert Base256(n) == buf[i..];
    return [128 + (8 - i)] + buf[i..];
  }

  /** Reads a definite length: its value and how many octets encode it. Leading zero octets, which BER
      allows and DER does not, are accepted; the indefinite form and the reserved octet are not. */
  function DecodeLength(b: Bytes): Option<(nat, nat)> {
    if b == [] then None
    else if b[0] < 128 then Some((b[0], 1))
    else
      var k := b[0] - 128;
      if k == 0 || k == 127 || |b| < 1 + k then None else Some((Value(b[1..1 + k]), 1 + k))
  }

  /** The form itself: one octet below 128, else the number of octets with the top bit set, and no leading zero. */
  lemma LengthFormIs(n: nat)
    requires n <= MAX_INT
    ensures n < 128 ==> LengthForm(n) == [n]
    ensures n >= 128 ==>
              129 <= LengthForm(n)[0] <= 136 && |LengthForm(n)| == LengthForm(n)[0] - 127 && LengthForm(n)[1] != 0
  {
    if n >= 128 {
      FitsIn(n, 8);
      FirstOctet(n);
    }
  }

  lemma {:induction false} FirstOctet(n: nat)
    requires n > 0
    ensures |Base256(n)| > 0 && Base256(n)[0] != 0
  {
    if n >= 256 { FirstOctet(n / 256); }
  }

  lemma LengthRoundTrip(n: nat, rest: Bytes)
    requires n <= MAX_INT
    ensures DecodeLength(LengthForm(n) + rest) == Some((n, |LengthForm(n)|))
  {
    if n >= 128 {
      var octets := Base256(n);
      FitsIn(n, 8);
      var b := LengthForm(n) + rest;
      assert b[1..1 + |octets|] == octets;
      ValueBase256(n);
    }
  }

  /** No definite form of the same length is shorter. */
  lemma LengthIsMinimal(n: nat, b: Bytes, used: nat)
    requires n <= MAX_INT && DecodeLength(b) == Some((n, used))
    ensures |LengthForm(n)| <= used
  {
    if n >= 128 {
      ValueBound(b[1..used]);
      FitsIn(n, used - 1);
    }
  }

  // ---- sequences ----

  const SEQUENCE_TAG: Byte := 0x30

  function Sequence(content: Bytes): Bytes
    requires |content| <= MAX_INT
  {
    [SEQUENCE_TAG] + LengthForm(|content|) + content
  }

  /** `wrapASN1Sequence`. */
  method WrapASN1Sequence(content: Bytes) returns (der: Bytes)
    requires |content| <= MAX_INT
    ensures der == Sequence(content) && StripSequence(der) == Some(content)
  {
    var length := DerLength(|content|);
    StripUndoesWrap(content);
    der := [SEQUENCE_TAG] + length + content;
  }

  /** `asn1Content` of a sequence: the content, when nothing trails it. */
  function StripSequence(der: Bytes): Option<Bytes> {
    if der == [] || der[0] != SEQUENCE_TAG then None
    else match DecodeLength(der[1..])
      case None => None
      case Some((n, used)) => if |der| == 1 + used + n then Some(der[1 + used..]) else None
  }

  lemma StripUndoesWrap(content: Bytes)
    requires |content| <= MAX_INT
    ensures StripSequence(Sequence(content)) == Some(content) && Sequence(content)[0] == 0x30
  {
    var der := Sequence(content);
    assert der[1..] == LengthForm(|content|) + content;
    LengthRoundTrip(|content|, content);
    assert der[1 + |LengthForm(|content|)|..] == content;
  }
}
