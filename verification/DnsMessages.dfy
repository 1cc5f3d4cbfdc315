/**
 * Queries, answer records and scripted responses (sections 4.1.1 to 4.1.4 of RFC 1035,
 * section 2.2 of RFC 3596 for AAAA).
 */
module DnsMessages {
  import opened Common
  import opened DnsNames

  const TYPE_A := 1
  const TYPE_CNAME := 5
  const TYPE_AAAA := 28
  const CLASS_IN := 1
  const FLAG_QR := 0x8000
  const FLAG_AA := 0x0400
  const FLAG_TC := 0x0200
  const FLAG_RD := 0x0100
  const FLAG_AD := 0x0020
  const TTL := 1
  const MAX_PACKET_BYTES := 512

  /** The one compression reference the grammar admits: to the question name at offset 12. */
  const QUESTION_REFERENCE: Bytes := [0xC0, 0x0C]

  const ALLOWED_IPV4: Bytes := [127, 0, 0, 1]
  const DENIED_IPV4: Bytes := [127, 0, 0, 2]
  const ALLOWED_IPV6: Bytes := [0xFD, 0, 0, 0, 0, 0, 0, 0, 0, 0, 0, 0, 0, 0, 0, 1]
  const DENIED_IPV6: Bytes := [0xFD, 0, 0, 0, 0, 0, 0, 0, 0, 0, 0, 0, 0, 0, 0, 2]

  datatype Query = Query(
    identifier: int,
    name: Text,
    questionType: int,
    recursionDesired: bool,
    questionBytes: Bytes)

  predicate U16Value(n: int) {
    0 <= n < 0x1_0000
  }

  /** `struct.pack("!HHHHHH", ...)`. */
  function Header(identifier: int, flags: int, questions: int, answers: int, authorities: int,
      additionals: int): (r: Bytes)
    requires U16Value(identifier) && U16Value(flags) && U16Value(questions)
    requires U16Value(answers) && U16Value(authorities) && U16Value(additionals)
    ensures |r| == 12
    ensures U16(r, 0) == identifier && U16(r, 2) == flags && U16(r, 4) == questions
    ensures U16(r, 6) == answers && U16(r, 8) == authorities && U16(r, 10) == additionals
  {
    PackU16(identifier) + PackU16(flags) + PackU16(questions)
    + PackU16(answers) + PackU16(authorities) + PackU16(additionals)
  }

  /** The first twelve octets are the header of their six fields. */
  lemma {:induction false} HeaderInverse(data: Bytes)
    requires |data| >= 12
    ensures data[..12] == Header(U16(data, 0), U16(data, 2), U16(data, 4), U16(data, 6), U16(data, 8), U16(data, 10))
  {
    U16Inverse(data, 0);
    U16Inverse(data, 2);
    U16Inverse(data, 4);
    U16Inverse(data, 6);
    U16Inverse(data, 8);
    U16Inverse(data, 10);
    assert data[..12] == data[0..2] + data[2..4] + data[4..6] + data[6..8] + data[8..10] + data[10..12];
  }

  predicate AddressType(questionType: int) {
    questionType == TYPE_A || questionType == TYPE_AAAA
  }

  function QuestionBytes(name: Text, questionType: int): (r: Bytes)
    requires Canonical(name) && U16Value(questionType)
  {
    Wire(name) + (PackU16(questionType) + PackU16(CLASS_IN))
  }

  function QueryFlags(recursionDesired: bool): int {
    if recursionDesired then FLAG_RD else 0
  }

  /** `flags & ~FLAG_RD` is zero exactly for the two values tested here. */
  function ParseQuery(data: Bytes): (r: Result<Query, DnsError>) {
    if |data| < 12 || |data| > MAX_PACKET_BYTES then Err(QuerySize)
    else
      var identifier, flags := U16(data, 0), U16(data, 2);
      if || identifier == 0
         || (flags != 0 && flags != FLAG_RD)
         || U16(data, 4) != 1
         || U16(data, 6) != 0
         || U16(data, 8) != 0
         || U16(data, 10) != 0
      then Err(QueryHeader)
      else
        var decoded := NameDecoding(data, 12);
        if decoded.Err? then Err(decoded.error)
        else
          var (name, offset) := decoded.value;
          if offset + 4 != |data| then Err(QuestionFields)
          else
            var questionType, questionClass := U16(data, offset), U16(data, offset + 2);
            if !AddressType(questionType) || questionClass != CLASS_IN then Err(QuestionTypeOrClass)
            else Ok(Query(identifier, name, questionType, flags == FLAG_RD, data[12..]))
  }

  /** A query value that some packet carries. */
  predicate WellFormed(q: Query) {
    && 1 <= q.identifier < 0x1_0000
    && Canonical(q.name)
    && AddressType(q.questionType)
    && q.questionBytes == QuestionBytes(q.name, q.questionType)
  }

  /** The one packet that carries a well-formed query. */
  function QueryPacket(q: Query): (r: Bytes)
    requires WellFormed(q)
  {
    Header(q.identifier, QueryFlags(q.recursionDesired), 1, 0, 0, 0) + q.questionBytes
  }

  lemma {:induction false} ParsedQueryPacket(data: Bytes)
    requires ParseQuery(data).Ok?
    ensures WellFormed(ParseQuery(data).value) && data == QueryPacket(ParseQuery(data).value)
  {
    var q := ParseQuery(data).value;
    var (name, offset) := NameDecoding(data, 12).value;
    DecodedIsWire(data, 12);
    HeaderInverse(data);
    U16Inverse(data, offset);
    U16Inverse(data, offset + 2);
    assert data[12..] == data[12..offset] + (data[offset..offset + 2] + data[offset + 2..offset + 4]);
    assert data == data[..12] + data[12..];
  }

  /** The question section, wherever it lies. */
  lemma {:induction false} QuestionAt(data: Bytes, at: nat, name: Text, questionType: int)
    requires Canonical(name) && U16Value(questionType)
    requires at <= |data| && data[at..] == QuestionBytes(name, questionType)
    ensures NameDecoding(data, at).Ok? && NameDecoding(data, at).value.0 == name
    ensures var offset := NameDecoding(data, at).value.1;
            && offset + 4 == |data|
            && U16(data, offset) == questionType
            && U16(data, offset + 2) == CLASS_IN
  {
    var wire, kind, class_ := Wire(name), PackU16(questionType), PackU16(CLASS_IN);
    var offset := at + |wire|;
    assert data[at..|data|] == data[at..];
    SliceSplit(data, at, wire, kind + class_);
    SliceSplit(data, offset, kind, class_);
    DecodeWire(data, at, name, offset);
    U16At(data, offset, kind);
    U16At(data, offset + 2, class_);
  }

  lemma {:induction false} QueryPacketParses(q: Query)
    requires WellFormed(q)
    ensures ParseQuery(QueryPacket(q)) == Ok(q)
  {
    hide NameDecoding, Wire, Canonical, Header, PackU16, U16;
    var data := QueryPacket(q);
    WireShape(q.name);
    assert data[..12] == Header(q.identifier, QueryFlags(q.recursionDesired), 1, 0, 0, 0);
    assert data[12..] == q.questionBytes;
    HeaderAt(data, data[..12]);
    QuestionAt(data, 12, q.name, q.questionType);
  }

  lemma {:induction false} U16At(data: Bytes, at: nat, field: Bytes)
    requires |field| == 2 && at + 2 <= |data| && data[at..at + 2] == field
    ensures U16(data, at) == U16(field, 0)
  {
    assert data[at] == data[at..at + 2][0] && data[at + 1] == data[at..at + 2][1];
  }

  /** The header fields of a packet are those of its first twelve octets. */
  lemma {:induction false} HeaderAt(data: Bytes, header: Bytes)
    requires |header| == 12 && |data| >= 12 && data[..12] == header
    ensures U16(data, 0) == U16(header, 0) && U16(data, 2) == U16(header, 2) && U16(data, 4) == U16(header, 4)
    ensures U16(data, 6) == U16(header, 6) && U16(data, 8) == U16(header, 8) && U16(data, 10) == U16(header, 10)
  {
    assert forall i :: 0 <= i < 12 ==> data[i] == data[..12][i];
  }

  /** `parse_query` accepts exactly the packets of well-formed queries, one packet each. */
  lemma {:induction false} ParseQueryExact(data: Bytes, q: Query)
    ensures ParseQuery(data) == Ok(q) <==> WellFormed(q) && data == QueryPacket(q)
  {
    if ParseQuery(data) == Ok(q) {
      ParsedQueryPacket(data);
    }
    if WellFormed(q) && data == QueryPacket(q) {
      QueryPacketParses(q);
    }
  }

  function BuildQuery(identifier: int, name: Text, questionType: int): (r: Result<Bytes, DnsError>) {
    if !(1 <= identifier <= 65535) || !AddressType(questionType) then Err(QueryInput)
    else
      var encoded := NameEncoding(name);
      if encoded.Err? then encoded
      else Ok(Header(identifier, FLAG_RD, 1, 0, 0, 0) + encoded.value + (PackU16(questionType) + PackU16(CLASS_IN)))
  }

  lemma {:induction false} BuildQueryPacket(identifier: int, name: Text, questionType: int)
    ensures BuildQuery(identifier, name, questionType).Ok?
       <==> 1 <= identifier <= 65535 && AddressType(questionType) && Canonical(name)
    ensures BuildQuery(identifier, name, questionType).Ok? ==>
              var q := Query(identifier, name, questionType, true, QuestionBytes(name, questionType));
              WellFormed(q) && BuildQuery(identifier, name, questionType) == Ok(QueryPacket(q))
  {
    NameEncodingExact(name);
    if BuildQuery(identifier, name, questionType).Ok? {
      var header := Header(identifier, FLAG_RD, 1, 0, 0, 0);
      var fields := PackU16(questionType) + PackU16(CLASS_IN);
      assert header + Wire(name) + fields == header + (Wire(name) + fields);
    }
  }

  /** `parse_query` undoes `build_query`. */
  lemma {:induction false} ParseBuiltQuery(identifier: int, name: Text, questionType: int)
    requires 1 <= identifier <= 65535 && AddressType(questionType) && Canonical(name)
    ensures BuildQuery(identifier, name, questionType).Ok?
    ensures ParseQuery(BuildQuery(identifier, name, questionType).value)
         == Ok(Query(identifier, name, questionType, true, QuestionBytes(name, questionType)))
  {
    BuildQueryPacket(identifier, name, questionType);
    QueryPacketParses(Query(identifier, name, questionType, true, QuestionBytes(name, questionType)));
  }

  /** An accepted query is the built one, except for the recursion-desired bit in octet 2. */
  lemma {:induction false} AcceptedQueryIsBuilt(data: Bytes)
    requires ParseQuery(data).Ok?
    ensures var q := ParseQuery(data).value;
            var built := BuildQuery(q.identifier, q.name, q.questionType);
            && built.Ok?
            && |built.value| >= 12
            && data == built.value[2 := if q.recursionDesired then 1 else 0]
  {
    var q := ParseQuery(data).value;
    ParsedQueryPacket(data);
    BuildQueryPacket(q.identifier, q.name, q.questionType);
    RecursionBit(q.identifier, q.recursionDesired);
    var header, built := Header(q.identifier, QueryFlags(q.recursionDesired), 1, 0, 0, 0), Header(q.identifier, FLAG_RD, 1, 0, 0, 0);
    UpdateHead(built, q.questionBytes, 2, if q.recursionDesired then 1 else 0);
  }

  lemma {:induction false} UpdateHead(head: Bytes, tail: Bytes, at: nat, b: Byte)
    requires at < |head|
    ensures head[at := b] + tail == (head + tail)[at := b]
  {
  }

  lemma {:induction false} RecursionBit(identifier: int, recursionDesired: bool)
    requires U16Value(identifier)
    ensures Header(identifier, QueryFlags(recursionDesired), 1, 0, 0, 0)
         == Header(identifier, FLAG_RD, 1, 0, 0, 0)[2 := if recursionDesired then 1 else 0]
  {
    assert PackU16(FLAG_RD) == [1, 0] && PackU16(0) == [0, 0];
  }

  // ---- answer records ----

  /** One answer: an alias, or an address of four (A) or sixteen (AAAA) octets. */
  datatype Answer =
    | Cname(owner: Text, target: Text)
    | Address(owner: Text, address: Bytes)

  predicate AnswerWellFormed(a: Answer) {
    && Canonical(a.owner)
    && match a
       case Cname(_, target) => Canonical(target)
       case Address(_, address) => |address| == 4 || |address| == 16
  }

  function RecordType(a: Answer): int {
    match a
    case Cname(_, _) => TYPE_CNAME
    case Address(_, address) => if |address| == 4 then TYPE_A else TYPE_AAAA
  }

  function Payload(a: Answer): (r: Bytes)
    requires AnswerWellFormed(a)
    ensures |r| <= 255
  {
    match a
    case Cname(_, target) => WireShape(target); Wire(target)
    case Address(_, address) => address
  }

  function OwnerBytes(a: Answer, byReference: bool): (r: Bytes)
    requires AnswerWellFormed(a)
  {
    if byReference then QUESTION_REFERENCE else Wire(a.owner)
  }

  /** Type, class, time to live and payload size. */
  function RecordFields(recordType: int, size: int): (r: Bytes)
    requires U16Value(recordType) && U16Value(size)
    ensures |r| == 10
  {
    PackU16(recordType) + PackU16(CLASS_IN) + PackU32(TTL) + PackU16(size)
  }

  /** The wire form of an answer whose owner is the question reference or the full name. */
  function RecordWire(a: Answer, byReference: bool): (r: Bytes)
    requires AnswerWellFormed(a)
  {
    OwnerBytes(a, byReference) + (RecordFields(RecordType(a), |Payload(a)|) + Payload(a))
  }

  /** `resource_record` and `address_record`: names are encoded on the way, payload first. */
  function ResourceRecord(a: Answer, byReference: bool): (r: Result<Bytes, DnsError>) {
    var payload := match a case Cname(_, target) => NameEncoding(target) case Address(_, address) => Ok(address);
    if payload.Err? then payload
    else
      var owner := if byReference then Ok(QUESTION_REFERENCE) else NameEncoding(a.owner);
      if owner.Err? then owner
      else if |payload.value| >= 0x1_0000 then Err(NameTooLong)
      else Ok(owner.value + (RecordFields(RecordType(a), |payload.value|) + payload.value))
  }

  lemma {:induction false} ResourceRecordWire(a: Answer, byReference: bool)
    requires AnswerWellFormed(a)
    ensures ResourceRecord(a, byReference) == Ok(RecordWire(a, byReference))
  {
    NameEncodingExact(a.owner);
    if a.Cname? {
      NameEncodingExact(a.target);
      WireShape(a.target);
    }
  }

  /** A record octet by octet: owner, type 5, 1 or 28, class 1, time to live 1, size, payload. */
  lemma {:induction false} RecordOctets(a: Answer, byReference: bool)
    requires AnswerWellFormed(a)
    ensures var recordType := if a.Cname? then 5 else if |a.address| == 4 then 1 else 28;
            RecordWire(a, byReference)
            == (if byReference then [0xC0, 0x0C] else Wire(a.owner))
               + ([0, recordType, 0, 1, 0, 0, 0, 1, 0, |Payload(a)|] + Payload(a))
  {
    hide Wire, Payload;
    BigEndian(1);
    assert RecordFields(RecordType(a), |Payload(a)|)
        == [0, if a.Cname? then 5 else if |a.address| == 4 then 1 else 28, 0, 1, 0, 0, 0, 1, 0, |Payload(a)|];
  }

  /** A built query octet by octet: identifier, recursion desired, one question, its name, type and class 1. */
  lemma {:induction false} QueryOctets(identifier: int, name: Text, questionType: int)
    requires BuildQuery(identifier, name, questionType).Ok?
    ensures 1 <= identifier <= 65535 && (questionType == 1 || questionType == 28) && Canonical(name)
    ensures BuildQuery(identifier, name, questionType).value
         == [identifier / 256, identifier % 256, 1, 0, 0, 1, 0, 0, 0, 0, 0, 0] + (Wire(name) + [0, questionType, 0, 1])
  {
    BuildQueryPacket(identifier, name, questionType);
    hide Wire, Canonical, BuildQuery, WellFormed;
    var header := Header(identifier, FLAG_RD, 1, 0, 0, 0);
    assert header == [identifier / 256, identifier % 256, 1, 0, 0, 1, 0, 0, 0, 0, 0, 0];
    assert QuestionBytes(name, questionType) == Wire(name) + [0, questionType, 0, 1];
  }

  // ---- response_for ----

  datatype Script =
    | Stable
    | Rebind
    | CnameAllowed
    | CnameDenied
    | CnameDepth
    | CnameLoop
    | Denied
    | TruncatedFallback
    | Malformed
    | DnssecConfusion
    | Timeout

  datatype Transport = Udp | Tcp

  function TestName(lbl: string): Text {
    Ascii(lbl) + ([DOT] + Ascii("test"))
  }

  function AllowedAddress(questionType: int): Bytes {
    if questionType == TYPE_A then ALLOWED_IPV4 else ALLOWED_IPV6
  }

  function DeniedAddress(questionType: int): Bytes {
    if questionType == TYPE_A then DENIED_IPV4 else DENIED_IPV6
  }

  function AddressAnswer(q: Query, allowed: bool, owner: Text): Answer {
    Address(owner, if allowed then AllowedAddress(q.questionType) else DeniedAddress(q.questionType))
  }

  /** One planned record: its meaning, and whether its owner is written as the question reference. */
  datatype Planned = Planned(answer: Answer, byReference: bool)

  /** The answer section each script builds. */
  function AnswerPlan(q: Query, script: Script, ordinal: int, transport: Transport): (plan: seq<Planned>) {
    match script
    case TruncatedFallback =>
      if transport == Udp then [] else [Planned(AddressAnswer(q, true, q.name), true)]
    case DnssecConfusion => [Planned(AddressAnswer(q, true, q.name), true)]
    case Stable => [Planned(AddressAnswer(q, true, q.name), true)]
    case Denied => [Planned(AddressAnswer(q, false, q.name), true)]
    case Rebind => [Planned(AddressAnswer(q, ordinal == 0, q.name), true)]
    case CnameAllowed =>
      [ Planned(Cname(q.name, TestName("allowed")), true),
        Planned(AddressAnswer(q, true, TestName("allowed")), false) ]
    case CnameDenied =>
      [ Planned(Cname(q.name, TestName("denied")), true),
        Planned(AddressAnswer(q, false, TestName("denied")), false) ]
    case CnameLoop =>
      [ Planned(Cname(q.name, TestName("loop")), true),
        Planned(Cname(TestName("loop"), q.name), false) ]
    case CnameDepth =>
      [ Planned(Cname(q.name, TestName("depth-1")), true),
        Planned(Cname(TestName("depth-1"), TestName("depth-2")), false),
        Planned(Cname(TestName("depth-2"), TestName("depth-3")), false),
        Planned(Cname(TestName("depth-3"), TestName("allowed")), false),
        Planned(AddressAnswer(q, true, TestName("allowed")), false) ]
    case Malformed => []
    case Timeout => []
  }

  /** Each planned record encoded in turn; the first failure is the result. */
  function PlanRecords(plan: seq<Planned>): (r: Result<seq<Bytes>, DnsError>)
    ensures r.Ok? ==> |r.value| == |plan|
  {
    if plan == [] then Ok([])
    else
      var first := ResourceRecord(plan[0].answer, plan[0].byReference);
      if first.Err? then Err(first.error)
      else
        var rest := PlanRecords(plan[1..]);
        if rest.Err? then rest else Ok([first.value] + rest.value)
  }

  function ResponseFlags(q: Query, script: Script, transport: Transport): int {
    FLAG_QR + FLAG_AA
    + (if q.recursionDesired then FLAG_RD else 0)
    + (if script == TruncatedFallback && transport == Udp then FLAG_TC
       else if script == DnssecConfusion then FLAG_AD else 0)
  }

  /** `response_for`: `Ok(None)` is the scripted timeout. */
  function ResponseFor(queryData: Bytes, script: Script, ordinal: int,
      transport: Transport): (r: Result<Option<Bytes>, DnsError>) {
    var parsed := ParseQuery(queryData);
    if parsed.Err? then Err(parsed.error)
    else
      var q := parsed.value;
      if ordinal < 0 then Err(ScriptInvocation)
      else if script == Timeout then Ok(None)
      else if script == Malformed then Ok(Some(PackU16(q.identifier) + Ascii("malformed")))
      else
        var plan := AnswerPlan(q, script, ordinal, transport);
        var records := PlanRecords(plan);
        if records.Err? then Err(records.error)
        else
          var response :=
            Header(q.identifier, ResponseFlags(q, script, transport), 1, |plan|, 0, 0)
            + q.questionBytes
            + Concat(records.value);
          if |response| > MAX_PACKET_BYTES then Err(ResponsePacketBound) else Ok(Some(response))
  }
}
