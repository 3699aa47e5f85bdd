/** The certificate authority: issue, revoke, rotate, and three views of revocation. */
module Authority {
  import opened Text
  import opened Sorting
  import opened Der

  datatype Identity = Identity(tenantID: string, deviceID: string, role: string)
  datatype Record = Record(
    serial: string, tenantID: string, deviceID: string, role: string,
    notBefore: Time, notAfter: Time, revoked: bool, revokedAt: Time)

  type Issued = map<string, Record>

  /** One second of an instant, which counts nanoseconds. */
  const SECOND: int := 1_000_000_000

  /** An instant as ASN.1 times carry it: to the second, the fraction dropped. */
  function Truncated(t: Time): Time { t - t % SECOND }

  predicate IssueAccepted(id: Identity, ttl: int) { id.tenantID != "" && id.deviceID != "" && id.role != "" && ttl > 0 }

  function NewRecord(id: Identity, ttl: int, now: Time, number: nat): Record {
    Record(Decimal(number), id.tenantID, id.deviceID, id.role, now, now + ttl, false, 0)
  }

  function Revoked(r: Record, now: Time): Record { r.(revoked := true, revokedAt := now) }

  predicate RotateAccepted(issued: Issued, serial: string, ttl: int) {
    serial != "" && ttl > 0 && serial in issued && !issued[serial].revoked
  }

  function IdentityOf(r: Record): Identity { Identity(r.tenantID, r.deviceID, r.role) }

  /** Operations; `number` is the random serial drawn and `cryptoOk` whether key and certificate were made. */
  datatype Op =
    | Issue(id: Identity, ttl: int, now: Time, clock: Time, number: nat, cryptoOk: bool)
    | Revoke(serial: string, now: Time, clock: Time)
    | Rotate(serial: string, ttl: int, now: Time, clock: Time, number: nat, cryptoOk: bool)

  function IssueStep(issued: Issued, id: Identity, ttl: int, now: Time, number: nat, cryptoOk: bool): Issued {
    if IssueAccepted(id, ttl) && cryptoOk then issued[Decimal(number) := NewRecord(id, ttl, now, number)] else issued
  }

  function Step(issued: Issued, op: Op): Issued {
    match op
    case Issue(id, ttl, now, clock, number, cryptoOk) => IssueStep(issued, id, ttl, At(now, clock), number, cryptoOk)
    case Revoke(serial, now, clock) =>
      if serial != "" && serial in issued then issued[serial := Revoked(issued[serial], At(now, clock))] else issued
    case Rotate(serial, ttl, now, clock, number, cryptoOk) =>
      if !RotateAccepted(issued, serial, ttl) then issued
      else IssueStep(issued[serial := Revoked(issued[serial], At(now, clock))], IdentityOf(issued[serial]), ttl,
                     At(now, clock), number, cryptoOk)
  }

  /** Every certificate is filed under its own serial, a decimal number. */
  ghost predicate Filed(issued: Issued) {
    forall s :: s in issued ==> issued[s].serial == s && IsSerial(s)
  }

  class Authority {
    var issued: Issued

    constructor ()
      ensures issued == map[] && Filed(issued)
    {
      issued := map[];
    }

    method Issue(id: Identity, ttl: int, now: Time, clock: Time, number: nat, cryptoOk: bool)
      returns (r: Outcome<Record>)
      modifies this
      ensures issued == Step(old(issued), Op.Issue(id, ttl, now, clock, number, cryptoOk))
      ensures r ==
                if IssueAccepted(id, ttl) && cryptoOk then Ok(NewRecord(id, ttl, At(now, clock), number)) else Rejected
    {
      if id.tenantID == "" || id.deviceID == "" || id.role == "" || ttl <= 0 { return Rejected; }
      var t := if now == 0 then clock else now;
      if !cryptoOk { return Rejected; }
      var record := Record(Decimal(number), id.tenantID, id.deviceID, id.role, t, t + ttl, false, 0);
      issued := issued[record.serial := record];
      return Ok(record);
    }

    method Revoke(serial: string, now: Time, clock: Time) returns (r: Outcome<Record>)
      modifies this
      ensures issued == Step(old(issued), Op.Revoke(serial, now, clock))
      ensures r.Ok? <==> serial != "" && serial in old(issued)
      ensures r.Ok? ==> r.value == issued[serial]
    {
      if serial == "" { return Rejected; }
      var t := if now == 0 then clock else now;
      if serial !in issued { return Rejected; }
      var record := issued[serial].(revoked := true, revokedAt := t);
      issued := issued[serial := record];
      return Ok(record);
    }

    /** Revokes first and issues second, so a failed issue leaves the old certificate revoked. */
    method Rotate(serial: string, ttl: int, now: Time, clock: Time, number: nat, cryptoOk: bool)
      returns (r: Outcome<Record>)
      modifies this
      ensures issued == Step(old(issued), Op.Rotate(serial, ttl, now, clock, number, cryptoOk))
      ensures r ==
                if RotateAccepted(old(issued), serial, ttl) && IssueAccepted(IdentityOf(old(issued)[serial]), ttl)
                   && cryptoOk
                   then Ok(NewRecord(IdentityOf(old(issued)[serial]), ttl, At(now, clock), number)) else Rejected
    {
      if serial == "" || ttl <= 0 { return Rejected; }
      var t := if now == 0 then clock else now;
      if serial !in issued { return Rejected; }
      var record := issued[serial];
      if record.revoked { return Rejected; }
      issued := issued[serial := record.(revoked := true, revokedAt := t)];
      r := Issue(Identity(record.tenantID, record.deviceID, record.role), ttl, t, clock, number, cryptoOk);
    }

    /** The tenant's revoked records by serial text, and the entries of its signed CRL by serial number;
        `signed` says whether the CRL could be encoded and signed. */
    method RevocationListByTenant(tenantID: string, ttl: int, signed: bool) returns (r: Outcome<RevocationList>)
      requires Filed(issued)
      ensures r.Ok? <==> tenantID != "" && ttl > 0 && signed
      ensures r.Ok? ==>
                RecordsListed(issued, tenantID, r.value.records) && EntriesListed(issued, tenantID, r.value.entries)
      ensures r.Ok? ==> Sorted(r.value.records, SerialBefore) && Sorted(r.value.entries, NumberBefore)
      ensures r.Ok? ==> DistinctBy(r.value.records, SerialOf) && DistinctBy(r.value.entries, NumberOf)
    {
      hide RecordsListed, EntriesListed, Sorted, DistinctBy, EntryOf, Published, Listed, SerialBefore, NumberBefore;
      if tenantID == "" || ttl <= 0 { return Rejected; }
      var collected := CollectRevoked(tenantID);
      if collected.Rejected? { return Rejected; }
      var RevocationList(records, entries) := collected.value;
      SerialOrder();
      SortedList(records, SerialBefore);
      SortedList(entries, NumberBefore);
      if !signed { return Rejected; }
      var sorted, listed := StableSort(records, SerialBefore), StableSort(entries, NumberBefore);
      EntriesOfRecords(issued, tenantID, records, entries);
      PublishedEntries(entries, listed);
      EachOnce(issued, tenantID, records, entries, listed);
      SameRecords(issued, tenantID, records, sorted);
      SameEntries(issued, tenantID, Published(entries), Published(listed));
      r := Ok(RevocationList(sorted, Published(listed)));
    }

    /** The collecting loop. */
    method CollectRevoked(tenantID: string) returns (r: Outcome<RevocationList>)
      requires Filed(issued)
      ensures r.Ok? && RecordsListed(issued, tenantID, r.value.records) && DistinctBy(r.value.records, SerialOf)
      ensures |r.value.entries| == |r.value.records|
      ensures forall i :: 0 <= i < |r.value.records| ==> r.value.entries[i] == EntryOf(r.value.records[i])
    {
      hide Decimal, DecimalValue;
      var records: seq<Record>, entries: seq<Entry> := [], [];
      var left := issued.Keys;
      while left != {}
        invariant left <= issued.Keys
        invariant forall r :: r in records <==>
                    r.serial !in left && Listed(issued, tenantID, r.serial) && issued[r.serial] == r
        invariant DistinctBy(records, SerialOf)
        invariant |entries| == |records| && forall i :: 0 <= i < |records| ==> entries[i] == EntryOf(records[i])
      {
        var s :| s in left;
        left := left - {s};
        var record := issued[s];
        if record.tenantID == tenantID && record.revoked {
          assert forall i :: 0 <= i < |records| ==> records[i] in records;
          var number := ParseSerial(record.serial);
          if number.None? { return Rejected; }
          records, entries := records + [record], entries + [Entry(number.value, record.revokedAt)];
        }
      }
      return Ok(RevocationList(records, entries));
    }
  }

  lemma SameRecords(issued: Issued, tenantID: string, a: seq<Record>, b: seq<Record>)
    requires RecordsListed(issued, tenantID, a) && forall r :: r in b <==> r in a
    ensures RecordsListed(issued, tenantID, b)
  {
    hide Listed;
  }

  lemma SameEntries(issued: Issued, tenantID: string, a: seq<Entry>, b: seq<Entry>)
    requires EntriesListed(issued, tenantID, a) && forall e :: e in b <==> e in a
    ensures EntriesListed(issued, tenantID, b)
  {
    hide IsEntry;
  }

  // ---- the three views ----

  datatype State = Good | IsRevoked | Expired | NotYetValid | Unknown
  datatype Status = Status(state: State, revokedAt: Time)

  /** `CertificateStatus`. */
  function CertificateStatus(issued: Issued, tenantID: string, serial: string, now: Time,
                             clock: Time): Outcome<Status> {
    StatusOf(issued, tenantID, serial, At(now, clock))
  }

  /** The status at an instant. */
  function StatusOf(issued: Issued, tenantID: string, serial: string, now: Time): Outcome<Status> {
    if tenantID == "" || serial == "" then Rejected
    else if serial !in issued || issued[serial].tenantID != tenantID then Ok(Status(Unknown, 0))
    else
      var r := issued[serial];
      Ok(Status(if r.revoked then IsRevoked
                else if now < r.notBefore then NotYetValid
                else if now > r.notAfter then Expired
                else Good, r.revokedAt))
  }

  datatype Entry = Entry(number: nat, revokedAt: Time)
  datatype RevocationList = RevocationList(records: seq<Record>, entries: seq<Entry>)

  predicate Digits(s: string) { forall i :: 0 <= i < |s| ==> '0' <= s[i] <= '9' }

  /** `big.Int.SetString(s, 10)` on unsigned text. */
  function ParseSerial(s: string): Option<nat> { if s != "" && Digits(s) then Some(DecimalValue(s)) else None }

  predicate IsSerial(s: string) { ParseSerial(s).Some? && Decimal(ParseSerial(s).value) == s }

  lemma DecimalIsSerial(number: nat)
    ensures IsSerial(Decimal(number)) && ParseSerial(Decimal(number)) == Some(number)
  {
    DecimalRoundTrip(number);
  }

  function EntryOf(r: Record): Entry {
    Entry(if ParseSerial(r.serial).Some? then ParseSerial(r.serial).value else 0, r.revokedAt)
  }

  /** The entries as the encoded CRL carries them. */
  function Published(entries: seq<Entry>): (r: seq<Entry>)
    ensures |r| == |entries|
  {
    seq(|entries|, i requires 0 <= i < |entries| => entries[i].(revokedAt := Truncated(entries[i].revokedAt)))
  }

  predicate SerialBefore(a: Record, b: Record) { StrLess(a.serial, b.serial) }
  predicate NumberBefore(a: Entry, b: Entry) { a.number < b.number }

  predicate Listed(issued: Issued, tenantID: string, serial: string) {
    serial in issued && issued[serial].tenantID == tenantID && issued[serial].revoked
  }

  ghost predicate RecordsListed(issued: Issued, tenantID: string, records: seq<Record>) {
    forall r :: r in records <==> Listed(issued, tenantID, r.serial) && issued[r.serial] == r
  }

  ghost predicate EntriesListed(issued: Issued, tenantID: string, entries: seq<Entry>) {
    forall e :: e in entries <==> IsEntry(issued, tenantID, e)
  }

  /** The CRL entry of a listed certificate. */
  predicate IsEntry(issued: Issued, tenantID: string, e: Entry) {
    var serial := Decimal(e.number);
    Listed(issued, tenantID, serial) && Truncated(issued[serial].revokedAt) == e.revokedAt
  }

  lemma EntriesOfRecords(issued: Issued, tenantID: string, records: seq<Record>, entries: seq<Entry>)
    requires Filed(issued) && RecordsListed(issued, tenantID, records)
    requires |entries| == |records| && forall i :: 0 <= i < |records| ==> entries[i] == EntryOf(records[i])
    ensures EntriesListed(issued, tenantID, Published(entries))
  {
    hide Decimal, DecimalValue, Truncated;
    var published := Published(entries);
    forall e ensures e in published <==> IsEntry(issued, tenantID, e) {
      var serial := Decimal(e.number);
      if e in published {
        var i :| 0 <= i < |published| && published[i] == e;
        assert records[i] in records;
      }
      if IsEntry(issued, tenantID, e) {
        DecimalIsSerial(e.number);
        assert issued[serial] in records;
        var i :| 0 <= i < |records| && records[i] == issued[serial];
        assert published[i] == e;
      }
    }
  }

  function SerialOf(r: Record): string { r.serial }
  function NumberOf(e: Entry): nat { e.number }

  /** Every listed certificate appears once, in both lists. */
  lemma EachOnce(issued: Issued, tenantID: string, records: seq<Record>, entries: seq<Entry>, listed: seq<Entry>)
    requires Filed(issued) && RecordsListed(issued, tenantID, records) && DistinctBy(records, SerialOf)
    requires |entries| == |records| && forall i :: 0 <= i < |records| ==> entries[i] == EntryOf(records[i])
    requires multiset(listed) == multiset(entries)
    ensures DistinctBy(StableSort(records, SerialBefore), SerialOf) && DistinctBy(Published(listed), NumberOf)
  {
    hide Decimal, DecimalValue, Truncated, SerialBefore;
    PermutationKeepsDistinct(records, StableSort(records, SerialBefore), SerialOf);
    forall i, j | 0 <= i < j < |entries| ensures NumberOf(entries[i]) != NumberOf(entries[j]) {
      assert records[i] in records && records[j] in records;
      assert SerialOf(records[i]) != SerialOf(records[j]);
    }
    PermutationKeepsDistinct(entries, listed, NumberOf);
    forall i, j | 0 <= i < j < |listed| ensures NumberOf(Published(listed)[i]) != NumberOf(Published(listed)[j]) {
      assert NumberOf(listed[i]) != NumberOf(listed[j]);
    }
  }

  lemma PublishedEntries(entries: seq<Entry>, listed: seq<Entry>)
    requires (forall e :: e in listed <==> e in entries) && Sorted(listed, NumberBefore)
    ensures Sorted(Published(listed), NumberBefore)
    ensures forall e :: e in Published(listed) <==> e in Published(entries)
  {
    hide Truncated;
    PublishedIn(entries, listed);
    PublishedIn(listed, entries);
  }

  lemma PublishedIn(a: seq<Entry>, b: seq<Entry>)
    requires forall e :: e in a ==> e in b
    ensures forall e :: e in Published(a) ==> e in Published(b)
  {
    hide Truncated;
    forall e | e in Published(a) ensures e in Published(b) {
      var i :| 0 <= i < |a| && Published(a)[i] == e;
      assert a[i] in b;
      var j :| 0 <= j < |b| && b[j] == a[i];
      assert Published(b)[j] == e;
    }
  }

  lemma SortedList<T(!new)>(s: seq<T>, less: (T, T) -> bool)
    requires StrictWeakOrder(less)
    ensures Sorted(StableSort(s, less), less) && forall x :: x in StableSort(s, less) <==> x in s
  {
    StableSortSorts(s, less);
    SameMembers(StableSort(s, less), s);
  }

  lemma SerialOrder()
    ensures StrictWeakOrder(SerialBefore) && StrictWeakOrder(NumberBefore)
  {
    hide StrLess;
    StrOrder();
  }

  /** The ASN.1 value of an OCSP certificate status. */
  datatype RawStatus = RawStatus(contextSpecific: bool, tag: nat, content: Bytes)

  /** GeneralizedTime, left uninterpreted; instants outside its years cannot be encoded. */
  datatype TimeCodec = TimeCodec(encode: Time -> Option<Bytes>, decode: Bytes -> Option<Time>)

  /** What is encoded decodes to the same second. */
  ghost predicate ToTheSecond(c: TimeCodec) {
    forall t :: c.encode(t).Some? ==>
      c.decode(c.encode(t).value) == Some(Truncated(t)) && |c.encode(t).value| <= MAX_INT
  }

  /** `newOCSPCertStatus`: the revocation info is encoded as a sequence and its header stripped. */
  function NewOCSPStatus(c: TimeCodec, s: Status): Outcome<RawStatus> {
    match s.state
    case IsRevoked =>
      if s.revokedAt == 0 || c.encode(s.revokedAt).None? || |c.encode(s.revokedAt).value| > MAX_INT then Rejected
      else (match StripSequence(Sequence(c.encode(s.revokedAt).value))
            case None => Rejected
            case Some(content) => Ok(RawStatus(true, 1, content)))
    case Unknown => Ok(RawStatus(true, 2, []))
    case _ => Ok(RawStatus(true, 0, []))
  }

  /** `parseOCSPCertStatus`: the header is put back before the revocation info is decoded. */
  function ParseOCSPStatus(c: TimeCodec, raw: RawStatus): Outcome<Status> {
    if !raw.contextSpecific then Rejected
    else if raw.tag == 0 then Ok(Status(Good, 0))
    else if raw.tag == 1 then
      if |raw.content| > MAX_INT then Rejected
      else (match StripSequence(Sequence(raw.content))
            case None => Rejected
            case Some(content) =>
              (match c.decode(content) case None => Rejected case Some(t) => Ok(Status(IsRevoked, t))))
    else if raw.tag == 2 then Ok(Status(Unknown, 0))
    else Rejected
  }

  /** What an OCSP client is told: the unrevoked states collapse to good and the time loses its fraction. */
  function Told(s: Status): Status {
    match s.state
    case IsRevoked => Status(IsRevoked, Truncated(s.revokedAt))
    case Unknown => Status(Unknown, 0)
    case _ => Status(Good, 0)
  }

  predicate Tellable(c: TimeCodec, s: Status) {
    s.state.IsRevoked? ==> s.revokedAt != 0 && c.encode(s.revokedAt).Some?
  }

  /** Parsing inverts encoding up to what `Told` drops. */
  lemma OCSPRoundTrip(c: TimeCodec, s: Status)
    requires ToTheSecond(c)
    ensures NewOCSPStatus(c, s).Ok? <==> Tellable(c, s)
    ensures NewOCSPStatus(c, s).Ok? ==> ParseOCSPStatus(c, NewOCSPStatus(c, s).value) == Ok(Told(s))
  {
    hide Sequence, StripSequence, Truncated;
    if s.state.IsRevoked? && c.encode(s.revokedAt).Some? {
      StripUndoesWrap(c.encode(s.revokedAt).value);
    }
  }

  /** A decoded OCSP request: whether it names this issuer, and the serial it asks about. */
  datatype OCSPRequest = OCSPRequest(issuerMatches: bool, number: nat)
  datatype OCSPAnswer = Malformed | Unauthorized | Failed | Answer(status: RawStatus)

  /** The decision part of `RespondOCSPDER`; an undecodable request is None. The tenant is trimmed first. */
  function RespondOCSP(
    c: TimeCodec, trim: Trimmer, issued: Issued, tenantID: string, request: Option<OCSPRequest>, now: Time, clock: Time
  ): OCSPAnswer {
    if trim(tenantID) == "" then Failed
    else
      match request
      case None => Malformed
      case Some(r) =>
        if !r.issuerMatches then Unauthorized
        else
          match CertificateStatus(issued, trim(tenantID), Decimal(r.number), At(now, clock), clock)
          case Rejected => Failed
          case Ok(status) => (match NewOCSPStatus(c, status) case Rejected => Failed case Ok(raw) => Answer(raw))
  }

  // ---- every reachable state ----

  /** Issued certificates and, as history, which serial replaced which. */
  datatype Ca = Ca(issued: Issued, successor: map<string, string>)

  predicate Rotates(issued: Issued, op: Op) {
    op.Rotate? && RotateAccepted(issued, op.serial, op.ttl) && op.cryptoOk
    && IssueAccepted(IdentityOf(issued[op.serial]), op.ttl)
  }

  function CaStep(ca: Ca, op: Op): Ca {
    Ca(Step(ca.issued, op),
       if Rotates(ca.issued, op) then ca.successor[op.serial := Decimal(op.number)] else ca.successor)
  }

  /** The drawn serial is new, and the machine's clock is set. */
  predicate FreshOp(issued: Issued, op: Op) {
    op.clock != 0 && (op.Revoke? || Decimal(op.number) !in issued)
  }

  function CaRun(ca: Ca, ops: seq<Op>): Ca
    decreases |ops|
  {
    if ops == [] then ca else CaStep(CaRun(ca, ops[..|ops| - 1]), ops[|ops| - 1])
  }

  ghost predicate FreshRun(ca: Ca, ops: seq<Op>)
    decreases |ops|
  {
    ops == [] || (FreshRun(ca, ops[..|ops| - 1]) && FreshOp(CaRun(ca, ops[..|ops| - 1]).issued, ops[|ops| - 1]))
  }

  ghost predicate Records(ca: Ca) {
    Filed(ca.issued) && forall s :: s in ca.issued && ca.issued[s].revoked ==> ca.issued[s].revokedAt != 0
  }

  /** Replaced certificates are revoked, and their replacement carries the same identity. */
  ghost predicate Replacements(ca: Ca) {
    forall s :: s in ca.successor ==>
      && s in ca.issued && ca.issued[s].revoked && ca.successor[s] in ca.issued
      && IdentityOf(ca.issued[ca.successor[s]]) == IdentityOf(ca.issued[s])
  }

  ghost predicate Injective(ca: Ca) {
    forall s, t :: s in ca.successor && t in ca.successor && ca.successor[s] == ca.successor[t] ==> s == t
  }

  ghost predicate Sound(ca: Ca) { Records(ca) && Replacements(ca) && Injective(ca) }

  lemma StepKeepsSound(ca: Ca, op: Op)
    requires Sound(ca) && FreshOp(ca.issued, op)
    ensures Sound(CaStep(ca, op))
  {
    hide Decimal, IsSerial, Records, Injective, Replacements;
    StepKeepsRecords(ca, op);
    StepKeepsReplacements(ca, op);
    StepKeepsInjective(ca, op);
  }

  lemma StepKeepsRecords(ca: Ca, op: Op)
    requires Records(ca) && FreshOp(ca.issued, op)
    ensures Records(CaStep(ca, op))
  {
    hide Decimal, IsSerial;
    if !op.Revoke? { DecimalIsSerial(op.number); }
  }

  lemma StepKeepsReplacements(ca: Ca, op: Op)
    requires Replacements(ca) && FreshOp(ca.issued, op)
    ensures Replacements(CaStep(ca, op))
  {
    hide Decimal;
    StepKeepsIdentity(ca, op);
  }

  lemma StepKeepsInjective(ca: Ca, op: Op)
    requires Replacements(ca) && Injective(ca) && FreshOp(ca.issued, op)
    ensures Injective(CaStep(ca, op))
  {
    hide Decimal, Step;
  }

  /** What a later state keeps of a certificate: its holder, and its revocation. */
  predicate Kept(before: Record, after: Record) {
    IdentityOf(before) == IdentityOf(after) && (before.revoked ==> after.revoked)
  }

  lemma StepKeepsIdentity(ca: Ca, op: Op)
    requires FreshOp(ca.issued, op)
    ensures forall s :: s in ca.issued ==> s in Step(ca.issued, op) && Kept(ca.issued[s], Step(ca.issued, op)[s])
  {
    hide Decimal;
  }

  lemma {:induction false} RunIsSound(ops: seq<Op>)
    requires FreshRun(Ca(map[], map[]), ops)
    ensures Sound(CaRun(Ca(map[], map[]), ops))
  {
    hide CaStep, FreshOp;
    if ops != [] {
      RunIsSound(ops[..|ops| - 1]);
      StepKeepsSound(CaRun(Ca(map[], map[]), ops[..|ops| - 1]), ops[|ops| - 1]);
    }
  }

  /** Revocation is permanent, and no certificate disappears or changes hands. */
  lemma {:induction false} RevocationIsPermanent(ca: Ca, ops: seq<Op>, serial: string)
    requires FreshRun(ca, ops) && serial in ca.issued
    ensures serial in CaRun(ca, ops).issued
            && IdentityOf(CaRun(ca, ops).issued[serial]) == IdentityOf(ca.issued[serial])
    ensures ca.issued[serial].revoked ==> CaRun(ca, ops).issued[serial].revoked
    decreases |ops|
  {
    hide Step, Rotates, FreshOp;
    if ops != [] {
      RevocationIsPermanent(ca, ops[..|ops| - 1], serial);
      StepKeepsIdentity(CaRun(ca, ops[..|ops| - 1]), ops[|ops| - 1]);
    }
  }

  /** What an OCSP client reads from an answer. */
  function Decoded(c: TimeCodec, answer: OCSPAnswer): Option<Status> {
    if !answer.Answer? then None
    else match ParseOCSPStatus(c, answer.status) case Rejected => None case Ok(s) => Some(s)
  }

  /** The certificates after a run from an empty authority. */
  function Reached(ops: seq<Op>): Issued { CaRun(Ca(map[], map[]), ops).issued }

  /** What an OCSP client reads about a serial. */
  function Asked(c: TimeCodec, trim: Trimmer, issued: Issued, tenantID: string, number: nat, now: Time,
                 clock: Time): Option<Status> {
    Decoded(c, RespondOCSP(c, trim, issued, tenantID, Some(OCSPRequest(true, number)), now, clock))
  }

  /** OCSP tells exactly the status of the trimmed tenant, or fails because the time cannot be encoded. */
  lemma OCSPTellsStatus(ops: seq<Op>, c: TimeCodec, trim: Trimmer, tenantID: string, number: nat, now: Time,
                        clock: Time)
    requires FreshRun(Ca(map[], map[]), ops) && ToTheSecond(c) && trim(tenantID) != ""
    ensures var status := CertificateStatus(Reached(ops), trim(tenantID), Decimal(number), now, clock);
            status.Ok? && Asked(c, trim, Reached(ops), tenantID, number, now, clock) ==
              if status.value.state == IsRevoked && c.encode(status.value.revokedAt).None? then None
              else Some(Told(status.value))
  {
    hide NewOCSPStatus, ParseOCSPStatus, CaRun, FreshRun, ToTheSecond, Replacements, Injective, Decimal, Filed, Told;
    RunIsSound(ops);
    var status := CertificateStatus(Reached(ops), trim(tenantID), Decimal(number), now, clock);
    assert status.Ok?;
    OCSPRoundTrip(c, status.value);
  }

  /** The three views of revocation agree in every reachable state, for every tenant, serial and time. They
      always agree on whether a certificate is revoked; the CRL and OCSP carry the time to the second. The
      CRL and the status speak of the tenant given, OCSP of the tenant trimmed. */
  lemma ViewsAgree(
    ops: seq<Op>, c: TimeCodec, trim: Trimmer, tenantID: string, number: nat, now: Time, clock: Time, crl: seq<Entry>)
    requires FreshRun(Ca(map[], map[]), ops) && ToTheSecond(c) && trim(tenantID) != ""
    requires EntriesListed(Reached(ops), trim(tenantID), crl)
    ensures var status := CertificateStatus(Reached(ops), trim(tenantID), Decimal(number), now, clock);
            var ocsp := Asked(c, trim, Reached(ops), tenantID, number, now, clock);
            && status.Ok?
            && (forall t :: Entry(number, t) in crl <==>
                 status.value.state == IsRevoked && t == Truncated(status.value.revokedAt))
            && (ocsp.None? <==> status.value.state == IsRevoked && c.encode(status.value.revokedAt).None?)
            && (ocsp.Some? ==> (ocsp.value.state == IsRevoked <==> status.value.state == IsRevoked))
            && (ocsp.Some? ==> (ocsp.value.state == Unknown <==> status.value.state == Unknown))
            && (forall t :: ocsp == Some(Status(IsRevoked, t)) ==> Entry(number, t) in crl)
            && (ocsp.Some? && ocsp.value.state == IsRevoked ==>
                  (ocsp.value.revokedAt == status.value.revokedAt <==> status.value.revokedAt % SECOND == 0))
  {
    hide CaRun, FreshRun, ToTheSecond, RespondOCSP, ParseOCSPStatus, Decimal;
    OCSPTellsStatus(ops, c, trim, tenantID, number, now, clock);
    forall t ensures Entry(number, t) in crl <==> IsEntry(Reached(ops), trim(tenantID), Entry(number, t)) {
    }
  }

  /** Revoking at a fraction of a second: OCSP and the CRL name an earlier instant than the status does. */
  lemma FractionIsDropped(c: TimeCodec, trim: Trimmer, id: Identity, number: nat)
    requires ToTheSecond(c) && IssueAccepted(id, 1) && trim(id.tenantID) == id.tenantID && c.encode(SECOND + 1).Some?
    ensures var ops := [Issue(id, 1, SECOND, SECOND, number, true), Revoke(Decimal(number), SECOND + 1, SECOND)];
            && FreshRun(Ca(map[], map[]), ops)
            && CertificateStatus(Reached(ops), id.tenantID, Decimal(number), SECOND, SECOND) ==
                 Ok(Status(IsRevoked, SECOND + 1))
            && Asked(c, trim, Reached(ops), id.tenantID, number, SECOND, SECOND) == Some(Status(IsRevoked, SECOND))
  {
    hide Decimal, RespondOCSP, ParseOCSPStatus, ToTheSecond;
    var none := Ca(map[], map[]);
    var issue, revoke := Issue(id, 1, SECOND, SECOND, number, true), Revoke(Decimal(number), SECOND + 1, SECOND);
    var one, two := [issue], [issue, revoke];
    assert two[..1] == one && one[..0] == [];
    assert CaRun(none, one[..0]) == none && CaRun(none, one) == CaStep(none, issue);
    assert FreshRun(none, one[..0]) && FreshRun(none, one) && FreshRun(none, two);
    assert |Decimal(number)| > 0;
    OCSPTellsStatus(two, c, trim, id.tenantID, number, SECOND, SECOND);
  }

  /** `Issue` does not trim: OCSP reports a listed certificate as revoked exactly when its tenant has
      no blank edges, and calls it unknown or fails otherwise. */
  lemma BlankTenantIsHiddenFromOCSP(
    ops: seq<Op>, c: TimeCodec, trim: Trimmer, tenantID: string, number: nat, now: Time, clock: Time)
    requires FreshRun(Ca(map[], map[]), ops) && ToTheSecond(c)
    requires Listed(Reached(ops), tenantID, Decimal(number)) && c.encode(Reached(ops)[Decimal(number)].revokedAt).Some?
    ensures var ocsp := Asked(c, trim, Reached(ops), tenantID, number, now, clock);
            && ((ocsp.Some? && ocsp.value.state == IsRevoked) <==> (trim(tenantID) == tenantID && tenantID != ""))
            && (ocsp.None? || ocsp.value.state == IsRevoked || ocsp.value.state == Unknown)
  {
    hide NewOCSPStatus, ParseOCSPStatus, CaRun, FreshRun, ToTheSecond, Replacements, Injective, Decimal, Filed;
    if trim(tenantID) != "" { OCSPTellsStatus(ops, c, trim, tenantID, number, now, clock); }
  }

  // ---- one certificate over time ----

  /** The only way to file a certificate: an accepted issue. */
  lemma IssuedRecord(issued: Issued, id: Identity, ttl: int, now: Time, clock: Time, number: nat)
    ensures IssueAccepted(id, ttl) <==> id.tenantID != "" && id.deviceID != "" && id.role != "" && ttl >= 1
    ensures IssueAccepted(id, ttl) ==>
              Step(issued, Issue(id, ttl, now, clock, number, true)) ==
              issued[Decimal(number) := Record(Decimal(number), id.tenantID, id.deviceID, id.role,
                                               At(now, clock), At(now, clock) + ttl, false, 0)]
    ensures Step(issued, Issue(id, ttl, now, clock, number, false)) == issued
  {
    hide Decimal;
  }

  /** The status of an issued certificate, until something is done to it: at every instant `t` it is not yet
      valid before its issue, expired after its lifetime, and good from one to the other. Another tenant is
      told that it is unknown. */
  lemma IssuedStatus(issued: Issued, id: Identity, ttl: int, now: Time, clock: Time, number: nat, t: Time)
    requires IssueAccepted(id, ttl)
    ensures var after := Step(issued, Issue(id, ttl, now, clock, number, true));
            var status := StatusOf(after, id.tenantID, Decimal(number), t);
            && status.Ok?
            && (status.value.state == Good <==> At(now, clock) <= t <= At(now, clock) + ttl)
            && (status.value.state == NotYetValid <==> t < At(now, clock))
            && (status.value.state == Expired <==> t > At(now, clock) + ttl)
            && forall other :: other != id.tenantID && other != "" ==>
                 StatusOf(after, other, Decimal(number), t) == Ok(Status(Unknown, 0))
  {
    hide Decimal;
    assert |Decimal(number)| > 0;
  }

  /** A revoked certificate is revoked at every instant, since the time of its revocation. */
  lemma RevokedStatus(issued: Issued, serial: string, now: Time, clock: Time, t: Time)
    requires serial != "" && serial in issued && issued[serial].tenantID != ""
    ensures StatusOf(Step(issued, Revoke(serial, now, clock)), issued[serial].tenantID, serial, t)
            == Ok(Status(IsRevoked, At(now, clock)))
    ensures forall other :: other in issued && other != serial ==>
              Step(issued, Revoke(serial, now, clock))[other] == issued[other]
  {
  }

  /** A rotation revokes the old certificate now and issues one for the same holder from now on; it is taken
      exactly when the old one exists unrevoked. */
  lemma RotatedStatus(issued: Issued, serial: string, ttl: int, now: Time, clock: Time, number: nat, t: Time)
    requires serial != "" && serial in issued && !issued[serial].revoked && ttl >= 1 && Decimal(number) !in issued
    requires issued[serial].tenantID != "" && issued[serial].deviceID != "" && issued[serial].role != ""
    ensures RotateAccepted(issued, serial, ttl)
    ensures var after, previous := Step(issued, Rotate(serial, ttl, now, clock, number, true)), issued[serial];
            && StatusOf(after, previous.tenantID, serial, t) == Ok(Status(IsRevoked, At(now, clock)))
            && after[Decimal(number)] == Record(Decimal(number), previous.tenantID, previous.deviceID, previous.role,
                                                At(now, clock), At(now, clock) + ttl, false, 0)
  {
    hide Decimal;
  }

  /** OCSP's tags (section 4.2.1 of RFC 6960): good 0, revoked 1, unknown 2; expired and not yet valid count as good. */
  lemma OCSPTags(c: TimeCodec, s: Status)
    requires NewOCSPStatus(c, s).Ok?
    ensures var raw := NewOCSPStatus(c, s).value;
            && raw.contextSpecific
            && raw.tag ==
                 (match s.state
                  case IsRevoked => 1
                  case Unknown => 2
                  case Good => 0
                  case Expired => 0
                  case NotYetValid => 0)
            && (s.state != IsRevoked ==> raw.content == [])
  {
    hide Sequence, StripSequence;
  }

  /** Requests that are no question about this authority get no status. */
  lemma OCSPRefusals(c: TimeCodec, trim: Trimmer, issued: Issued, tenantID: string, number: nat, now: Time, clock: Time)
    ensures trim(tenantID) == "" ==> forall r :: RespondOCSP(c, trim, issued, tenantID, r, now, clock) == Failed
    ensures trim(tenantID) != "" ==> RespondOCSP(c, trim, issued, tenantID, None, now, clock) == Malformed
    ensures trim(tenantID) != "" ==>
              RespondOCSP(c, trim, issued, tenantID, Some(OCSPRequest(false, number)), now, clock) == Unauthorized
  {
    hide Decimal, NewOCSPStatus;
  }

  /** A certificate that was replaced can never be rotated again. */
  lemma RotatedAtMostOnce(ops: seq<Op>, later: seq<Op>, op: Op)
    requires FreshRun(Ca(map[], map[]), ops) && FreshRun(CaRun(Ca(map[], map[]), ops), later)
    requires op.Rotate? && op.serial in CaRun(Ca(map[], map[]), ops).successor
    ensures !RotateAccepted(CaRun(CaRun(Ca(map[], map[]), ops), later).issued, op.serial, op.ttl)
  {
    hide CaRun, FreshRun, Records, Injective;
    var ca := CaRun(Ca(map[], map[]), ops);
    RunIsSound(ops);
    RevocationIsPermanent(ca, later, op.serial);
  }

  predicate Replaced(ca: Ca, serial: string, next: string) { serial in ca.successor && ca.successor[serial] == next }

  /** A rotation chain: each member was replaced by the next. */
  ghost predicate Chain(ca: Ca, chain: seq<string>) {
    && (forall i :: 0 <= i < |chain| ==> chain[i] in ca.issued)
    && (forall i :: 0 <= i < |chain| - 1 ==> Replaced(ca, chain[i], chain[i + 1]))
  }

  /** Every rotation chain belongs to one identity and has at most one unrevoked member, its last. */
  lemma ChainHasOneLiveMember(ops: seq<Op>, chain: seq<string>)
    requires FreshRun(Ca(map[], map[]), ops) && Chain(CaRun(Ca(map[], map[]), ops), chain)
    ensures var issued := CaRun(Ca(map[], map[]), ops).issued;
            && (forall i :: 0 <= i < |chain| - 1 ==> issued[chain[i]].revoked)
            && (forall i :: 0 <= i < |chain| ==> IdentityOf(issued[chain[i]]) == IdentityOf(issued[chain[0]]))
  {
    hide CaRun, FreshRun, Records, Injective;
    var ca := CaRun(Ca(map[], map[]), ops);
    RunIsSound(ops);
    forall i | 0 <= i < |chain| - 1 ensures ca.issued[chain[i]].revoked {
      assert Replaced(ca, chain[i], chain[i + 1]);
    }
    forall i | 0 <= i < |chain| ensures IdentityOf(ca.issued[chain[i]]) == IdentityOf(ca.issued[chain[0]]) {
      ChainKeepsIdentity(ca, chain, i);
    }
  }

  lemma {:induction false} ChainKeepsIdentity(ca: Ca, chain: seq<string>, i: nat)
    requires Replacements(ca) && Chain(ca, chain) && i < |chain|
    ensures IdentityOf(ca.issued[chain[i]]) == IdentityOf(ca.issued[chain[0]])
  {
    if i > 0 {
      ChainKeepsIdentity(ca, chain, i - 1);
      var k := i - 1;
      assert Replaced(ca, chain[k], chain[k + 1]);
    }
  }

  /** Fresh serials are needed: a repeated serial overwrites a revoked record with a good one. */
  lemma RepeatedSerialUnrevokes(id: Identity, ttl: int, now: Time, number: nat)
    requires IssueAccepted(id, ttl) && now != 0
    ensures var issue := Issue(id, ttl, now, now, number, true);
            var ca := CaRun(Ca(map[], map[]), [issue, Revoke(Decimal(number), now, now)]);
            var again := CaStep(ca, issue);
            Decimal(number) in ca.issued && ca.issued[Decimal(number)].revoked && !again.issued[Decimal(number)].revoked
  {
    hide Decimal;
    var issue, revoke := Issue(id, ttl, now, now, number, true), Revoke(Decimal(number), now, now);
    var none := Ca(map[], map[]);
    var one, two := [issue], [issue, revoke];
    assert two[..1] == one && one[..0] == [];
    assert CaRun(none, one[..0]) == none;
    assert CaRun(none, one) == CaStep(CaRun(none, one[..0]), issue);
    assert |Decimal(number)| > 0;
  }
}
