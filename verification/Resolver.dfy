/** The resolver client: one UDP query, at most one TCP fallback, and the closed fact vocabulary. */
module Resolver {
  import opened Common
  import opened DnsNames
  import opened DnsMessages
  import opened DnsValidation
  import opened DnsAmbiguity
  import opened DnsScripts
  import opened DnsVerdicts

  // ---- what the network does ----

  /** The UDP exchange: nothing in time, or one datagram (at most `MAX_PACKET_BYTES + 1` octets are read). */
  datatype UdpOutcome = UdpTimeout | Datagram(data: Bytes, fromServer: bool)

  /** The TCP exchange: nothing in time, or the octets the server sends before it closes. */
  datatype TcpOutcome = TcpTimeout | Stream(data: Bytes)

  // ---- what the client reports ----

  /** Every rejection code. */
  datatype Reason =
    | ResponseSizeCode
    | ResponseHeaderCode
    | DnssecFlagsCode
    | QuestionIdentityCode
    | TcpFallbackRequiredCode
    | TruncatedAmbiguousCode
    | AnswerTruncatedCode
    | AnswerMetadataCode
    | CnameAmbiguousCode
    | AddressAmbiguousCode
    | AnswerTypeCode
    | TrailingBytesCode
    | CnameDisallowedCode
    | CnameLoopOrDepthCode
    | TerminalServiceCode
    | AnswerInventoryCode
    | TerminalAddressCode
    | MalformedCode
    | TimeoutCode
    | TcpFallbackTimeoutCode

  datatype Event =
    | Resolved(address: Bytes, cnameChain: seq<Text>, terminalName: Text, ttl: int)
    | Rejected(reason: Reason)

  datatype Received = Received(data: Bytes, transport: Transport)

  datatype Observation = Observation(name: Text, query: Bytes, questionType: int, event: Event, responses: seq<Received>)

  /** What the client raises: an unregistered situation, or a DNS error of its own reading. */
  datatype Failure = ClientFailure | DnsFailure(error: DnsError) | TcpTruncated

  /** The code map: seventeen diagnostics are registered, the others have no code. */
  function RejectionCode(e: DnsError): Option<Reason> {
    match e
    case ResponseSize => Some(ResponseSizeCode)
    case ResponseHeader => Some(ResponseHeaderCode)
    case DnssecAssertion => Some(DnssecFlagsCode)
    case QuestionIdentity => Some(QuestionIdentityCode)
    case TcpFallbackRequired => Some(TcpFallbackRequiredCode)
    case TruncatedAmbiguous => Some(TruncatedAmbiguousCode)
    case AnswerTruncated => Some(AnswerTruncatedCode)
    case AnswerMetadata => Some(AnswerMetadataCode)
    case CnameAmbiguous => Some(CnameAmbiguousCode)
    case AddressAmbiguous => Some(AddressAmbiguousCode)
    case AnswerType => Some(AnswerTypeCode)
    case TrailingBytes => Some(TrailingBytesCode)
    case CnameDisallowed => Some(CnameDisallowedCode)
    case CnameLoopOrDepth => Some(CnameLoopOrDepthCode)
    case TerminalService => Some(TerminalServiceCode)
    case AnswerInventory => Some(AnswerInventoryCode)
    case TerminalAddress => Some(TerminalAddressCode)
    case _ => None
  }

  /** One length-prefixed message and nothing after it (section 4.2.2 of RFC 1035). */
  function TcpMessage(stream: Bytes): (r: Result<Bytes, Failure>) {
    if |stream| < 2 then Err(TcpTruncated)
    else
      var size := U16(stream, 0);
      if !(1 <= size <= MAX_PACKET_BYTES) then Err(ClientFailure)
      else if |stream| < 2 + size then Err(TcpTruncated)
      else if |stream| > 2 + size then Err(ClientFailure)
      else Ok(stream[2..])
  }

  predicate Truncated(response: Bytes) {
    |response| >= 4 && Bit(U16(response, 2), FLAG_TC)
  }

  function MalformedResponse(identifier: int): Bytes
    requires U16Value(identifier)
  {
    PackU16(identifier) + Ascii("malformed")
  }

  /** The verdict on the last response received. */
  function Judge(name: Text, query: Bytes, questionType: int, identifier: int, response: Bytes,
      responses: seq<Received>, allowCname: bool, requireDeclared: bool): (r: Result<Observation, Failure>)
    requires U16Value(identifier)
  {
    var validated := Validation(query, response, allowCname, requireDeclared);
    match validated
    case Ok(v) =>
      Ok(Observation(name, query, questionType, Resolved(v.address, v.cnameChain, v.terminalName, v.ttl), responses))
    case Err(e) =>
      if response == MalformedResponse(identifier) then
        Ok(Observation(name, query, questionType, Rejected(MalformedCode), responses))
      else
        var code := RejectionCode(e);
        if code.None? then Err(ClientFailure)
        else Ok(Observation(name, query, questionType, Rejected(code.value), responses))
  }

  /** `resolve_once`, for a registered endpoint and deadline. */
  function ResolveOnce(name: Text, questionType: int, identifier: int, allowCname: bool, requireDeclared: bool,
      allowTcpFallback: bool, udp: UdpOutcome, tcp: TcpOutcome): (r: Result<Observation, Failure>) {
    var built := BuildQuery(identifier, name, questionType);
    if built.Err? then Err(DnsFailure(built.error))
    else
      var query := built.value;
      match udp
      case UdpTimeout => Ok(Observation(name, query, questionType, Rejected(TimeoutCode), []))
      case Datagram(response, fromServer) =>
        if !fromServer || |response| > MAX_PACKET_BYTES then Err(ClientFailure)
        else
          var first := [Received(response, Udp)];
          if Truncated(response) && allowTcpFallback then
            match tcp
            case TcpTimeout => Ok(Observation(name, query, questionType, Rejected(TcpFallbackTimeoutCode), first))
            case Stream(stream) =>
              var message := TcpMessage(stream);
              if message.Err? then Err(message.error)
              else Judge(name, query, questionType, identifier, message.value, first + [Received(message.value, Tcp)], allowCname, requireDeclared)
          else Judge(name, query, questionType, identifier, response, first, allowCname, requireDeclared)
  }

  // ---- facts ----

  datatype FactEvent = FactResolved | FactRejected

  datatype Fact = Fact(
    address: Option<Bytes>,
    event: FactEvent,
    reason: Option<Reason>,
    terminalName: Option<Text>,
    transports: seq<Transport>)

  function Transports(responses: seq<Received>): (r: seq<Transport>) {
    seq(|responses|, i requires 0 <= i < |responses| => responses[i].transport)
  }

  /** `resolution_fact`: a plain timeout has no response, and counts as one UDP query. */
  function ResolutionFact(o: Observation): Fact {
    var seen := Transports(o.responses);
    var transports := if seen == [] && o.event == Rejected(TimeoutCode) then [Udp] else seen;
    match o.event
    case Resolved(address, _, terminalName, _) => Fact(Some(address), FactResolved, None, Some(terminalName), transports)
    case Rejected(reason) => Fact(None, FactRejected, Some(reason), None, transports)
  }

  /** The nineteen codes the raw-cell classifier knows. */
  const RESOLVER_REASONS: set<Reason> := {
    AnswerInventoryCode, AnswerMetadataCode, AnswerTruncatedCode, AnswerTypeCode,
    CnameAmbiguousCode, CnameDisallowedCode, CnameLoopOrDepthCode, DnssecFlagsCode,
    MalformedCode, QuestionIdentityCode, ResponseHeaderCode, ResponseSizeCode,
    TcpFallbackRequiredCode, TcpFallbackTimeoutCode, TerminalAddressCode, TerminalServiceCode,
    TimeoutCode, TrailingBytesCode, TruncatedAmbiguousCode
  }

  /** `_resolver_fact` accepts. */
  predicate FactAccepted(f: Fact) {
    && (f.transports == [Udp] || f.transports == [Udp, Tcp])
    && match f.event
       case FactResolved =>
         && f.reason == None
         && (f.address == Some(ALLOWED_IPV4) || f.address == Some(DENIED_IPV4)
             || f.address == Some(ALLOWED_IPV6) || f.address == Some(DENIED_IPV6))
         && (f.terminalName == Some(TestName("allowed")) || f.terminalName == Some(TestName("denied")))
       case FactRejected =>
         && f.reason.Some? && f.reason.value in RESOLVER_REASONS
         && f.address == None
         && f.terminalName == None
  }

  lemma {:induction false} DeclaredResolution(query: Bytes, response: Bytes, allowCname: bool)
    requires Validation(query, response, allowCname, true).Ok?
    ensures var v := Validation(query, response, allowCname, true).value;
            v.terminalName == TestName("allowed") && (v.address == ALLOWED_IPV4 || v.address == ALLOWED_IPV6)
  {
    hide ParseQuery, HeaderCheck, AnswerScan, ChainWalk, TestName;
  }

  lemma {:induction false} JudgedFact(name: Text, query: Bytes, questionType: int, identifier: int, response: Bytes,
      responses: seq<Received>, allowCname: bool)
    requires U16Value(identifier) && ParseQuery(query).Ok?
    requires Transports(responses) == [Udp] || Transports(responses) == [Udp, Tcp]
    requires Judge(name, query, questionType, identifier, response, responses, allowCname, true).Ok?
    ensures var o := Judge(name, query, questionType, identifier, response, responses, allowCname, true).value;
            && (FactAccepted(ResolutionFact(o)) <==> o.event != Rejected(AddressAmbiguousCode))
            && (o.event == Rejected(AddressAmbiguousCode) <==> AmbiguousResponse(ParseQuery(query).value, response))
  {
    hide Validation, TestName, MalformedResponse, ParseQuery, AmbiguousResponse;
    if Validation(query, response, allowCname, true).Ok? {
      DeclaredResolution(query, response, allowCname);
    }
    AddressAmbiguousExact(query, response, allowCname, true);
    if response == MalformedResponse(identifier) {
      MalformedIsShort(query, identifier, allowCname);
    }
  }

  lemma {:induction false} MalformedIsShort(query: Bytes, identifier: int, allowCname: bool)
    requires U16Value(identifier) && ParseQuery(query).Ok?
    ensures Validation(query, MalformedResponse(identifier), allowCname, true) == Err(ResponseSize)
  {
    hide ParseQuery, AnswerScan, Conclusion;
    assert |MalformedResponse(identifier)| == 11;
  }

  /** The octets `resolve_once` judges: the datagram, or the TCP message that replaces a truncated one. */
  function JudgedMessage(allowTcpFallback: bool, udp: UdpOutcome, tcp: TcpOutcome): (r: Option<Bytes>) {
    match udp
    case UdpTimeout => None
    case Datagram(response, _) =>
      if !(Truncated(response) && allowTcpFallback) then Some(response)
      else if tcp.TcpTimeout? || |tcp.data| < 2 then None
      else Some(tcp.data[2..])
  }

  /**
   * Under the declared-service requirement, whatever the network does: if `resolve_once` returns, its fact is in
   * the closed vocabulary if and only if the octets it judged are not an ambiguous response to its query.
   */
  lemma {:induction false} FactVocabulary(name: Text, questionType: int, identifier: int, allowCname: bool,
      allowTcpFallback: bool, udp: UdpOutcome, tcp: TcpOutcome)
    requires ResolveOnce(name, questionType, identifier, allowCname, true, allowTcpFallback, udp, tcp).Ok?
    ensures BuildQuery(identifier, name, questionType).Ok? && ParseQuery(BuildQuery(identifier, name, questionType).value).Ok?
    ensures var o := ResolveOnce(name, questionType, identifier, allowCname, true, allowTcpFallback, udp, tcp).value;
            var q := ParseQuery(BuildQuery(identifier, name, questionType).value).value;
            var judged := JudgedMessage(allowTcpFallback, udp, tcp);
            && (FactAccepted(ResolutionFact(o)) <==> !(judged.Some? && AmbiguousResponse(q, judged.value)))
            && (FactAccepted(ResolutionFact(o)) <==> o.event != Rejected(AddressAmbiguousCode))
  {
    hide Judge, Truncated, BuildQuery, ParseQuery, AmbiguousResponse, U16;
    BuildQueryPacket(identifier, name, questionType);
    ParseBuiltQuery(identifier, name, questionType);
    if udp.Datagram? {
      var query := BuildQuery(identifier, name, questionType).value;
      var first := [Received(udp.data, Udp)];
      if Truncated(udp.data) && allowTcpFallback {
        if tcp.Stream? {
          var message := TcpMessage(tcp.data).value;
          var both := first + [Received(message, Tcp)];
          assert Transports(both) == [Udp, Tcp];
          JudgedFact(name, query, questionType, identifier, message, both, allowCname);
        } else {
          assert Transports(first) == [Udp];
        }
      } else {
        assert Transports(first) == [Udp];
        JudgedFact(name, query, questionType, identifier, udp.data, first, allowCname);
      }
    }
  }

  // ---- which diagnostics have no code ----

  predicate Judgeable(e: DnsError) {
    RejectionCode(e).Some? || NameDiagnostic(e)
  }

  lemma {:induction false} RecordDiagnostic(data: Bytes, offset: nat, q: Query)
    ensures RecordAt(data, offset, q).Err? ==> Judgeable(RecordAt(data, offset, q).error)
  {
    hide NameDecoding, U16, U32, NameDiagnostic;
    NameDecodingDiagnostic(data, offset);
    var owner := OwnerDecoding(data, offset, q.name);
    if owner.Ok? {
      var start := owner.value.1 + 10;
      if start <= |data| {
        var size := U16(data, start - 2);
        if start + size <= |data| {
          NameDecodingDiagnostic(data[start..start + size], 0);
        }
      }
    }
  }

  lemma {:induction false} ScanAnswersDiagnostic(data: Bytes, offset: nat, count: nat, q: Query, inventory: Inventory)
    ensures AnswerScan(data, offset, count, q, inventory).Err? ==> Judgeable(AnswerScan(data, offset, count, q, inventory).error)
    decreases count
  {
    hide RecordAt;
    if count > 0 {
      RecordDiagnostic(data, offset, q);
      var record := RecordAt(data, offset, q);
      if record.Ok? {
        var grown := Insert(inventory, record.value.0);
        if grown.Ok? {
          ScanAnswersDiagnostic(data, record.value.1, count - 1, q, grown.value);
        }
      }
    }
  }

  lemma {:induction false} WalkDiagnostic(cnames: map<Text, Text>, chain: seq<Text>, allowCname: bool)
    requires 1 <= |chain| <= MAX_CHAIN
    ensures ChainWalk(cnames, chain, allowCname).Err? ==> Judgeable(ChainWalk(cnames, chain, allowCname).error)
    decreases MAX_CHAIN - |chain|
  {
    var current := chain[|chain| - 1];
    if current in cnames && allowCname && cnames[current] !in chain && |chain| < MAX_CHAIN {
      WalkDiagnostic(cnames, chain + [cnames[current]], allowCname);
    }
  }

  lemma {:induction false} ConclusionDiagnostic(q: Query, inventory: Inventory, allowCname: bool, requireDeclared: bool)
    ensures Conclusion(q, inventory, allowCname, requireDeclared).Err? ==>
              Judgeable(Conclusion(q, inventory, allowCname, requireDeclared).error)
  {
    hide TestName;
    WalkDiagnostic(inventory.cnames, [q.name], allowCname);
  }

  lemma {:induction false} HeaderDiagnostic(q: Query, response: Bytes)
    ensures HeaderCheck(q, response).Err? ==> Judgeable(HeaderCheck(q, response).error)
  {
  }

  /** For an accepted query, every validation error has a code or comes from the name codec. */
  lemma {:induction false} ValidationDiagnostic(query: Bytes, response: Bytes, allowCname: bool, requireDeclared: bool)
    requires ParseQuery(query).Ok?
    ensures Validation(query, response, allowCname, requireDeclared).Err? ==>
              Judgeable(Validation(query, response, allowCname, requireDeclared).error)
  {
    hide ParseQuery, HeaderCheck, AnswerScan, Conclusion, Judgeable;
    var q := ParseQuery(query).value;
    HeaderDiagnostic(q, response);
    assert Judgeable(TrailingBytes) by { TrailingIsRegistered(); }
    var count := HeaderCheck(q, response);
    if count.Ok? {
      var end := 12 + |q.questionBytes|;
      ScanAnswersDiagnostic(response, end, count.value, q, EMPTY);
      var scan := AnswerScan(response, end, count.value, q, EMPTY);
      if scan.Ok? {
        ConclusionDiagnostic(q, scan.value.0, allowCname, requireDeclared);
      }
    }
  }

  lemma {:induction false} TrailingIsRegistered()
    ensures Judgeable(TrailingBytes)
  {
  }

  /** A message over TCP is exactly its length and its octets. */
  lemma {:induction false} TcpMessageExact(stream: Bytes, message: Bytes)
    ensures TcpMessage(stream) == Ok(message) <==> 1 <= |message| <= MAX_PACKET_BYTES && stream == PackU16(|message|) + message
  {
    if TcpMessage(stream) == Ok(message) {
      U16Inverse(stream, 0);
      assert stream == stream[0..2] + stream[2..];
    }
    if 1 <= |message| <= MAX_PACKET_BYTES && stream == PackU16(|message|) + message {
      var size := PackU16(|message|);
      assert U16(stream, 0) == U16(size, 0);
      ConcatParts(size, message);
    }
  }

  /** A response that yields an observation: it validates, is the registered malformed one, or fails with a code. */
  predicate Observable(query: Bytes, identifier: int, response: Bytes, allowCname: bool, requireDeclared: bool)
    requires U16Value(identifier)
  {
    var validated := Validation(query, response, allowCname, requireDeclared);
    validated.Ok? || response == MalformedResponse(identifier) || !NameDiagnostic(validated.error)
  }

  lemma {:induction false} JudgeExact(name: Text, query: Bytes, questionType: int, identifier: int, response: Bytes,
      responses: seq<Received>, allowCname: bool, requireDeclared: bool)
    requires U16Value(identifier) && ParseQuery(query).Ok?
    ensures Judge(name, query, questionType, identifier, response, responses, allowCname, requireDeclared).Ok?
       <==> Observable(query, identifier, response, allowCname, requireDeclared)
  {
    hide Validation, ParseQuery, MalformedResponse;
    ValidationDiagnostic(query, response, allowCname, requireDeclared);
  }

  /** What the sockets must have delivered for `resolve_once` to return. */
  ghost predicate Delivered(query: Bytes, identifier: int, allowCname: bool, requireDeclared: bool,
      allowTcpFallback: bool, udp: UdpOutcome, tcp: TcpOutcome)
    requires U16Value(identifier)
  {
    match udp
    case UdpTimeout => true
    case Datagram(response, fromServer) =>
      fromServer && |response| <= MAX_PACKET_BYTES
      && if !(Truncated(response) && allowTcpFallback) then Observable(query, identifier, response, allowCname, requireDeclared)
         else tcp.TcpTimeout? || Framed(query, identifier, allowCname, requireDeclared, tcp.data)
  }

  /** The stream is one length-prefixed observable message. */
  ghost predicate Framed(query: Bytes, identifier: int, allowCname: bool, requireDeclared: bool, stream: Bytes)
    requires U16Value(identifier)
  {
    exists message: Bytes ::
      1 <= |message| <= MAX_PACKET_BYTES && stream == PackU16(|message|) + message
      && Observable(query, identifier, message, allowCname, requireDeclared)
  }

  lemma {:induction false} FramedExact(query: Bytes, identifier: int, allowCname: bool, requireDeclared: bool,
      stream: Bytes)
    requires U16Value(identifier)
    ensures Framed(query, identifier, allowCname, requireDeclared, stream)
       <==> TcpMessage(stream).Ok? && Observable(query, identifier, TcpMessage(stream).value, allowCname, requireDeclared)
  {
    hide TcpMessage, Observable;
    forall message: Bytes
      ensures TcpMessage(stream) == Ok(message) <==> 1 <= |message| <= MAX_PACKET_BYTES && stream == PackU16(|message|) + message
    {
      TcpMessageExact(stream, message);
    }
  }

  /** `resolve_once` returns if and only if the query can be built and the sockets delivered something observable. */
  lemma {:induction false} ReturnsExactly(name: Text, questionType: int, identifier: int, allowCname: bool,
      requireDeclared: bool, allowTcpFallback: bool, udp: UdpOutcome, tcp: TcpOutcome)
    ensures ResolveOnce(name, questionType, identifier, allowCname, requireDeclared, allowTcpFallback, udp, tcp).Ok?
       <==> && 1 <= identifier <= 65535 && AddressType(questionType) && Canonical(name)
            && BuildQuery(identifier, name, questionType).Ok?
            && Delivered(BuildQuery(identifier, name, questionType).value, identifier,
                         allowCname, requireDeclared, allowTcpFallback, udp, tcp)
  {
    hide BuildQuery, ParseQuery, Canonical, Truncated, TcpMessage, Judge, Observable, Framed, AddressType;
    BuildQueryPacket(identifier, name, questionType);
    if BuildQuery(identifier, name, questionType).Ok? && udp.Datagram? {
      var query := BuildQuery(identifier, name, questionType).value;
      ParseBuiltQuery(identifier, name, questionType);
      var first := [Received(udp.data, Udp)];
      JudgeExact(name, query, questionType, identifier, udp.data, first, allowCname, requireDeclared);
      if tcp.Stream? {
        FramedExact(query, identifier, allowCname, requireDeclared, tcp.data);
        if TcpMessage(tcp.data).Ok? {
          var message := TcpMessage(tcp.data).value;
          JudgeExact(name, query, questionType, identifier, message, first + [Received(message, Tcp)], allowCname, requireDeclared);
        }
      }
    }
  }

  // ---- against the scripted server ----

  /** What a client reports for a verdict. */
  function VerdictEvent(v: Result<Resolution, DnsError>): Option<Event> {
    match v
    case Ok(r) => Some(Resolved(r.address, r.cnameChain, r.terminalName, r.ttl))
    case Err(e) =>
      var code := RejectionCode(e);
      if code.None? then None else Some(Rejected(code.value))
  }

  lemma {:induction false} VerdictHasEvent(q: Query, script: Script, ordinal: int, transport: Transport,
      allowCname: bool, requireDeclared: bool)
    requires script != Timeout
    ensures VerdictEvent(Verdict(q, script, ordinal, transport, allowCname, requireDeclared)).Some?
  {
    hide TestName;
  }

  /** What the client reports of each script: its silence, its malformed reply, or its verdict. */
  function ScriptEvent(q: Query, script: Script, ordinal: int, transport: Transport, allowCname: bool,
      requireDeclared: bool): Option<Event> {
    if script == Timeout then Some(Rejected(TimeoutCode))
    else if script == Malformed then Some(Rejected(MalformedCode))
    else VerdictEvent(Verdict(q, script, ordinal, transport, allowCname, requireDeclared))
  }

  /** A scripted answer on its way: nothing, one datagram, or one length-prefixed message. */
  function OverUdp(response: Option<Bytes>): UdpOutcome {
    if response.None? then UdpTimeout else Datagram(response.value, true)
  }

  function OverTcp(response: Option<Bytes>): TcpOutcome {
    if response.None? || |response.value| >= 0x1_0000 then TcpTimeout
    else Stream(PackU16(|response.value|) + response.value)
  }

  /** The client falls back on exactly the truncated script. */
  predicate FallsBack(script: Script, allowTcpFallback: bool) {
    script == TruncatedFallback && allowTcpFallback
  }

  lemma {:induction false} TcBit(q: Query, script: Script, transport: Transport)
    ensures U16Value(ResponseFlags(q, script, transport))
    ensures Bit(ResponseFlags(q, script, transport), FLAG_TC) <==> script == TruncatedFallback && transport == Udp
  {
  }

  /** Of all scripted responses only the truncated one over UDP has the truncation bit. */
  lemma {:induction false} TruncatedExactly(query: Bytes, script: Script, ordinal: nat, transport: Transport)
    requires ParseQuery(query).Ok? && Emits(script)
    requires ResponseFor(query, script, ordinal, transport).Ok? && ResponseFor(query, script, ordinal, transport).value.Some?
    ensures Truncated(ResponseFor(query, script, ordinal, transport).value.value) <==> script == TruncatedFallback && transport == Udp
  {
    hide ParseQuery, ResponseFor, Bit, U16, Concat, WellFormed, PlanSlices, AnswerPlan, ResponseFlags;
    ResponseForPlanned(query, script, ordinal, transport);
    var q := ParseQuery(query).value;
    var response := PlannedResponse(q, script, ordinal, transport);
    AnswerPlanFits(q, script, ordinal, transport);
    TcBit(q, script, transport);
    var header := Header(q.identifier, ResponseFlags(q, script, transport), 1, |AnswerPlan(q, script, ordinal, transport)|, 0, 0);
    assert response[..12] == header;
    HeaderAt(response, header);
  }

  lemma {:induction false} MalformedNotTruncated(identifier: int)
    requires U16Value(identifier)
    ensures !Truncated(MalformedResponse(identifier)) && |MalformedResponse(identifier)| == 11
  {
    var response := MalformedResponse(identifier);
    assert response[2] == 0x6D && response[3] == 0x61;
    assert U16(response, 2) == 0x6D61;
  }

  /** Judging what an emitting script sent. */
  lemma {:induction false} JudgedScript(name: Text, query: Bytes, questionType: int, identifier: int, script: Script,
      ordinal: nat, transport: Transport, responses: seq<Received>, allowCname: bool, requireDeclared: bool)
    requires U16Value(identifier) && ParseQuery(query).Ok? && Emits(script)
    requires ResponseFor(query, script, ordinal, transport).Ok? && ResponseFor(query, script, ordinal, transport).value.Some?
    ensures var response := ResponseFor(query, script, ordinal, transport).value.value;
            var judged := Judge(name, query, questionType, identifier, response, responses, allowCname, requireDeclared);
            && 1 <= |response| <= MAX_PACKET_BYTES
            && judged.Ok? && judged.value.responses == responses
            && Some(judged.value.event) == VerdictEvent(Verdict(ParseQuery(query).value, script, ordinal, transport, allowCname, requireDeclared))
  {
    hide ParseQuery, ResponseFor, Validation, Verdict, Canonical, Wire, RejectionCode, MalformedResponse;
    var q := ParseQuery(query).value;
    ScriptVerdict(query, script, ordinal, transport, allowCname, requireDeclared);
    VerdictHasEvent(q, script, ordinal, transport, allowCname, requireDeclared);
    ResponseForTotal(query, script, ordinal, transport);
    WireShape(q.name);
    MalformedNotTruncated(identifier);
    ResponseWithinBound(query, script, ordinal, transport);
  }

  /** What the scripts without records make of the client. */
  lemma {:induction false} SilentScripts(query: Bytes, identifier: int, script: Script, ordinal: nat,
      transport: Transport)
    requires ParseQuery(query).Ok? && ParseQuery(query).value.identifier == identifier && U16Value(identifier)
    ensures script == Timeout ==> ResponseFor(query, script, ordinal, transport) == Ok(None)
    ensures script == Malformed ==> ResponseFor(query, script, ordinal, transport) == Ok(Some(MalformedResponse(identifier)))
  {
    hide ParseQuery;
  }

  /**
   * Client against scripted server: for every name, type, identifier, script, ordinal and flag the client reports
   * the script's event; when it falls back, that of the script's answer over TCP, at whatever later ordinal.
   */
  lemma {:induction false} ScriptedOutcome(name: Text, questionType: int, identifier: int, script: Script,
      ordinal: nat, later: nat, allowCname: bool, requireDeclared: bool, allowTcpFallback: bool, query: Bytes, tcp: TcpOutcome)
    requires BuildQuery(identifier, name, questionType) == Ok(query)
    requires ResponseFor(query, script, ordinal, Udp).Ok?
    requires FallsBack(script, allowTcpFallback) ==>
               ResponseFor(query, script, later, Tcp).Ok? && tcp == OverTcp(ResponseFor(query, script, later, Tcp).value)
    ensures ParseQuery(query).Ok?
    ensures var udp := OverUdp(ResponseFor(query, script, ordinal, Udp).value);
            var outcome := ResolveOnce(name, questionType, identifier, allowCname, requireDeclared, allowTcpFallback, udp, tcp);
            var q, back := ParseQuery(query).value, FallsBack(script, allowTcpFallback);
            && outcome.Ok?
            && Some(outcome.value.event)
               == (if back then ScriptEvent(q, script, later, Tcp, allowCname, requireDeclared)
                   else ScriptEvent(q, script, ordinal, Udp, allowCname, requireDeclared))
            && Transports(outcome.value.responses) == (if script == Timeout then [] else if back then [Udp, Tcp] else [Udp])
  {
    hide BuildQuery, ParseQuery, ResponseFor, Verdict, VerdictEvent, Canonical, Truncated, TcpMessage, Judge,
        MalformedResponse;
    BuildQueryPacket(identifier, name, questionType);
    ParseBuiltQuery(identifier, name, questionType);
    SilentScripts(query, identifier, script, ordinal, Udp);
    if script == Timeout {
    } else if script == Malformed {
      MalformedNotTruncated(identifier);
      MalformedOutcome(name, query, questionType, identifier, allowCname, requireDeclared);
    } else {
      EmittedOutcome(name, questionType, identifier, script, ordinal, later, allowCname, requireDeclared, allowTcpFallback, query, tcp);
    }
  }

  lemma {:induction false} MalformedOutcome(name: Text, query: Bytes, questionType: int, identifier: int,
      allowCname: bool, requireDeclared: bool)
    requires U16Value(identifier) && ParseQuery(query).Ok?
    ensures var first := [Received(MalformedResponse(identifier), Udp)];
            Judge(name, query, questionType, identifier, MalformedResponse(identifier), first, allowCname, requireDeclared)
            == Ok(Observation(name, query, questionType, Rejected(MalformedCode), first))
  {
    hide ParseQuery, AnswerScan, Conclusion;
    assert |MalformedResponse(identifier)| == 11;
  }

  lemma {:induction false} EmittedOutcome(name: Text, questionType: int, identifier: int, script: Script,
      ordinal: nat, later: nat, allowCname: bool, requireDeclared: bool, allowTcpFallback: bool, query: Bytes, tcp: TcpOutcome)
    requires Emits(script) && BuildQuery(identifier, name, questionType) == Ok(query)
    requires U16Value(identifier) && ParseQuery(query).Ok?
    requires ResponseFor(query, script, ordinal, Udp).Ok?
    requires FallsBack(script, allowTcpFallback) ==>
               ResponseFor(query, script, later, Tcp).Ok? && tcp == OverTcp(ResponseFor(query, script, later, Tcp).value)
    ensures var udp := OverUdp(ResponseFor(query, script, ordinal, Udp).value);
            var outcome := ResolveOnce(name, questionType, identifier, allowCname, requireDeclared, allowTcpFallback, udp, tcp);
            var q, back := ParseQuery(query).value, FallsBack(script, allowTcpFallback);
            && outcome.Ok?
            && Some(outcome.value.event)
               == (if back then VerdictEvent(Verdict(q, script, later, Tcp, allowCname, requireDeclared))
                   else VerdictEvent(Verdict(q, script, ordinal, Udp, allowCname, requireDeclared)))
            && Transports(outcome.value.responses) == (if back then [Udp, Tcp] else [Udp])
  {
    hide BuildQuery, ParseQuery, ResponseFor, Verdict, VerdictEvent, Canonical, Wire, Truncated, TcpMessage, Judge;
    ResponseForTotal(query, script, ordinal, Udp);
    TruncatedExactly(query, script, ordinal, Udp);
    var response := ResponseFor(query, script, ordinal, Udp).value.value;
    var first := [Received(response, Udp)];
    JudgedScript(name, query, questionType, identifier, script, ordinal, Udp, first, allowCname, requireDeclared);
    if FallsBack(script, allowTcpFallback) {
      ResponseForTotal(query, script, later, Tcp);
      var message := ResponseFor(query, script, later, Tcp).value.value;
      var both := first + [Received(message, Tcp)];
      JudgedScript(name, query, questionType, identifier, script, later, Tcp, both, allowCname, requireDeclared);
      TcpMessageExact(PackU16(|message|) + message, message);
      assert Transports(both) == [Udp, Tcp];
    } else {
      assert Transports(first) == [Udp];
    }
  }

  lemma {:induction false} ResponseWithinBound(query: Bytes, script: Script, ordinal: nat, transport: Transport)
    requires Emits(script) && ResponseFor(query, script, ordinal, transport).Ok?
    ensures ResponseFor(query, script, ordinal, transport).value.Some?
    ensures |ResponseFor(query, script, ordinal, transport).value.value| <= MAX_PACKET_BYTES
  {
    hide ParseQuery, PlanRecords, AnswerPlan, Concat;
  }

  /** The scripts that name one owner twice with an address: an alias to the asked name itself. */
  predicate AliasesItself(name: Text, script: Script) {
    match script
    case CnameAllowed => name == TestName("allowed")
    case CnameDenied => name == TestName("denied")
    case CnameDepth => name == TestName("allowed")
    case _ => false
  }

  /**
   * The vocabulary gap among the scripts: with the declared service required, the fact of a scripted run is
   * refused exactly when the script aliases the asked name to itself, for every identifier, type and ordinal.
   */
  lemma {:induction false} ScriptedGapExact(name: Text, questionType: int, identifier: int, script: Script,
      ordinal: nat, later: nat, allowCname: bool, allowTcpFallback: bool, query: Bytes, tcp: TcpOutcome)
    requires BuildQuery(identifier, name, questionType) == Ok(query)
    requires ResponseFor(query, script, ordinal, Udp).Ok?
    requires FallsBack(script, allowTcpFallback) ==>
               ResponseFor(query, script, later, Tcp).Ok? && tcp == OverTcp(ResponseFor(query, script, later, Tcp).value)
    ensures var udp := OverUdp(ResponseFor(query, script, ordinal, Udp).value);
            var outcome := ResolveOnce(name, questionType, identifier, allowCname, true, allowTcpFallback, udp, tcp);
            && outcome.Ok?
            && (FactAccepted(ResolutionFact(outcome.value)) <==> !AliasesItself(name, script))
  {
    hide BuildQuery, ParseQuery, ResponseFor, TestName, FactAccepted, ResolutionFact, ResolveOnce, Canonical,
        QueryPacket, ScriptEvent, JudgedMessage, AmbiguousResponse, AliasesItself;
    ScriptedOutcome(name, questionType, identifier, script, ordinal, later, allowCname, true, allowTcpFallback, query, tcp);
    BuildQueryPacket(identifier, name, questionType);
    ParseBuiltQuery(identifier, name, questionType);
    var udp := OverUdp(ResponseFor(query, script, ordinal, Udp).value);
    FactVocabulary(name, questionType, identifier, allowCname, allowTcpFallback, udp, tcp);
    EventGap(ParseQuery(query).value, script, ordinal, Udp, allowCname);
    EventGap(ParseQuery(query).value, script, later, Tcp, allowCname);
  }

  /** The gap is reachable: the alias script asked for its own target, for every identifier, type and ordinal. */
  lemma {:induction false} AliasOfItselfIsUnclassified(questionType: int, identifier: int, ordinal: nat,
      allowCname: bool, allowTcpFallback: bool, tcp: TcpOutcome)
    requires 1 <= identifier <= 65535 && AddressType(questionType)
    ensures var built := BuildQuery(identifier, TestName("allowed"), questionType);
            && built.Ok?
            && var response := ResponseFor(built.value, CnameAllowed, ordinal, Udp);
            && response.Ok? && response.value.Some?
            && var outcome := ResolveOnce(TestName("allowed"), questionType, identifier, allowCname, true,
                                          allowTcpFallback, Datagram(response.value.value, true), tcp);
            && outcome.Ok?
            && outcome.value.event == Rejected(AddressAmbiguousCode)
            && !FactAccepted(ResolutionFact(outcome.value))
  {
    hide BuildQuery, ParseQuery, ResponseFor, TestName, FactAccepted, ResolutionFact, ResolveOnce, Canonical,
        QueryPacket, JudgedMessage, AmbiguousResponse;
    var name := TestName("allowed");
    RegisteredNames();
    BuildQueryPacket(identifier, name, questionType);
    ParseBuiltQuery(identifier, name, questionType);
    var query := BuildQuery(identifier, name, questionType).value;
    ResponseForTotal(query, CnameAllowed, ordinal, Udp);
    var udp := OverUdp(ResponseFor(query, CnameAllowed, ordinal, Udp).value);
    ScriptedGapExact(name, questionType, identifier, CnameAllowed, ordinal, 0, allowCname, allowTcpFallback, query, tcp);
    FactVocabulary(name, questionType, identifier, allowCname, allowTcpFallback, udp, tcp);
  }

  lemma {:induction false} EventGap(q: Query, script: Script, ordinal: int, transport: Transport, allowCname: bool)
    ensures ScriptEvent(q, script, ordinal, transport, allowCname, true) == Some(Rejected(AddressAmbiguousCode))
       <==> AliasesItself(q.name, script)
  {
    hide TestName;
    RegisteredNamesDiffer();
  }

  /** The registered fallback: a truncated UDP answer, then the same question over TCP. */
  lemma {:induction false} FallbackResolves(name: Text, questionType: int, identifier: int, ordinal: nat, later: nat,
      allowCname: bool)
    requires 1 <= identifier <= 65535 && AddressType(questionType) && Canonical(name)
    ensures var built := BuildQuery(identifier, name, questionType);
            && built.Ok?
            && var udp := ResponseFor(built.value, TruncatedFallback, ordinal, Udp);
            && var tcp := ResponseFor(built.value, TruncatedFallback, later, Tcp);
            && udp.Ok? && tcp.Ok?
            && var outcome := ResolveOnce(name, questionType, identifier, allowCname, true, true, OverUdp(udp.value), OverTcp(tcp.value));
            && outcome.Ok?
            && Transports(outcome.value.responses) == [Udp, Tcp]
            && (outcome.value.event.Resolved? <==> name == TestName("allowed"))
  {
    hide BuildQuery, ParseQuery, ResponseFor, Canonical, Wire, TestName, ResolveOnce, OverUdp, OverTcp;
    BuildQueryPacket(identifier, name, questionType);
    ParseBuiltQuery(identifier, name, questionType);
    var query := BuildQuery(identifier, name, questionType).value;
    ResponseForTotal(query, TruncatedFallback, ordinal, Udp);
    ResponseForTotal(query, TruncatedFallback, later, Tcp);
    ScriptedOutcome(name, questionType, identifier, TruncatedFallback, ordinal, later, allowCname, true, true, query,
                    OverTcp(ResponseFor(query, TruncatedFallback, later, Tcp).value));
  }

  // ---- what an observation and its fact contain ----

  /** The responses received: the datagram, and the TCP message if a truncated datagram led to one. */
  function Heard(allowTcpFallback: bool, udp: UdpOutcome, tcp: TcpOutcome): (r: seq<Received>) {
    match udp
    case UdpTimeout => []
    case Datagram(response, _) =>
      [Received(response, Udp)]
      + if Truncated(response) && allowTcpFallback && tcp.Stream? && |tcp.data| >= 2 then [Received(tcp.data[2..], Tcp)] else []
  }

  /** The octets of the registered malformed reply. */
  predicate IsMalformedReply(identifier: int, message: Bytes) {
    && |message| == 11
    && message[0] == identifier / 256 && message[1] == identifier % 256
    && message[2..] == [0x6D, 0x61, 0x6C, 0x66, 0x6F, 0x72, 0x6D, 0x65, 0x64]
  }

  lemma {:induction false} MalformedReplyExact(identifier: int, message: Bytes)
    requires U16Value(identifier)
    ensures message == MalformedResponse(identifier) <==> IsMalformedReply(identifier, message)
  {
    var reply := MalformedResponse(identifier);
    var text := Ascii("malformed");
    assert text == [0x6D, 0x61, 0x6C, 0x66, 0x6F, 0x72, 0x6D, 0x65, 0x64];
    ConcatParts(PackU16(identifier), text);
    if IsMalformedReply(identifier, message) {
      assert message == message[..2] + message[2..];
      assert message[..2] == PackU16(identifier);
    }
  }

  /** What the judged octets amount to: the resolution they validate to, or the reason they are refused for. */
  predicate EventOf(query: Bytes, identifier: int, message: Bytes, allowCname: bool, requireDeclared: bool,
      event: Event) {
    match Validation(query, message, allowCname, requireDeclared)
    case Ok(v) => event == Resolved(v.address, v.cnameChain, v.terminalName, v.ttl)
    case Err(e) =>
      if IsMalformedReply(identifier, message) then event == Rejected(MalformedCode)
      else RejectionCode(e).Some? && event == Rejected(RejectionCode(e).value)
  }

  lemma {:induction false} JudgeReports(name: Text, query: Bytes, questionType: int, identifier: int, response: Bytes,
      responses: seq<Received>, allowCname: bool, requireDeclared: bool)
    requires U16Value(identifier)
    requires Judge(name, query, questionType, identifier, response, responses, allowCname, requireDeclared).Ok?
    ensures var o := Judge(name, query, questionType, identifier, response, responses, allowCname, requireDeclared).value;
            && o.name == name && o.query == query && o.questionType == questionType && o.responses == responses
            && EventOf(query, identifier, response, allowCname, requireDeclared, o.event)
  {
    hide Validation, MalformedResponse, IsMalformedReply, RejectionCode;
    MalformedReplyExact(identifier, response);
  }

  /** Whenever `resolve_once` returns: its question, everything it heard, and the event its octets amount to. */
  lemma {:induction false} ObservationExact(name: Text, questionType: int, identifier: int, allowCname: bool,
      requireDeclared: bool, allowTcpFallback: bool, udp: UdpOutcome, tcp: TcpOutcome)
    requires ResolveOnce(name, questionType, identifier, allowCname, requireDeclared, allowTcpFallback, udp, tcp).Ok?
    ensures BuildQuery(identifier, name, questionType).Ok?
    ensures var o := ResolveOnce(name, questionType, identifier, allowCname, requireDeclared, allowTcpFallback, udp, tcp).value;
            var query := BuildQuery(identifier, name, questionType).value;
            var judged := JudgedMessage(allowTcpFallback, udp, tcp);
            && o.name == name && o.query == query && o.questionType == questionType
            && o.responses == Heard(allowTcpFallback, udp, tcp)
            && (udp.UdpTimeout? ==> o.event == Rejected(TimeoutCode))
            && (udp.Datagram? && judged.None? ==> o.event == Rejected(TcpFallbackTimeoutCode))
            && (judged.Some? ==> EventOf(query, identifier, judged.value, allowCname, requireDeclared, o.event))
  {
    hide Judge, Truncated, BuildQuery, EventOf, U16;
    BuildQueryPacket(identifier, name, questionType);
    if udp.Datagram? {
      var query := BuildQuery(identifier, name, questionType).value;
      var first := [Received(udp.data, Udp)];
      if Truncated(udp.data) && allowTcpFallback {
        if tcp.Stream? {
          var message := TcpMessage(tcp.data).value;
          JudgeReports(name, query, questionType, identifier, message, first + [Received(message, Tcp)], allowCname, requireDeclared);
        }
      } else {
        JudgeReports(name, query, questionType, identifier, udp.data, first, allowCname, requireDeclared);
      }
    }
  }

  /**
   * The fact of a returned observation: resolved if and only if the judged octets validate, then with the address
   * and terminal name they validate to; otherwise the reported reason; and the transports that were heard.
   */
  lemma {:induction false} FactExact(name: Text, questionType: int, identifier: int, allowCname: bool,
      requireDeclared: bool, allowTcpFallback: bool, udp: UdpOutcome, tcp: TcpOutcome)
    requires ResolveOnce(name, questionType, identifier, allowCname, requireDeclared, allowTcpFallback, udp, tcp).Ok?
    ensures BuildQuery(identifier, name, questionType).Ok?
    ensures var o := ResolveOnce(name, questionType, identifier, allowCname, requireDeclared, allowTcpFallback, udp, tcp).value;
            var fact, query := ResolutionFact(o), BuildQuery(identifier, name, questionType).value;
            var judged := JudgedMessage(allowTcpFallback, udp, tcp);
            && (fact.event == FactResolved <==>
                  judged.Some? && Validation(query, judged.value, allowCname, requireDeclared).Ok?)
            && (fact.event == FactResolved ==>
                  var v := Validation(query, judged.value, allowCname, requireDeclared).value;
                  fact.address == Some(v.address) && fact.terminalName == Some(v.terminalName) && fact.reason == None)
            && (fact.event == FactRejected ==>
                  o.event.Rejected? && fact.reason == Some(o.event.reason) && fact.address == None && fact.terminalName == None)
            && fact.transports == if |Heard(allowTcpFallback, udp, tcp)| == 2 then [Udp, Tcp] else [Udp]
  {
    hide ResolveOnce, BuildQuery, Validation, RejectionCode, IsMalformedReply, Truncated;
    ObservationExact(name, questionType, identifier, allowCname, requireDeclared, allowTcpFallback, udp, tcp);
    var o := ResolveOnce(name, questionType, identifier, allowCname, requireDeclared, allowTcpFallback, udp, tcp).value;
    var heard := Heard(allowTcpFallback, udp, tcp);
    if |heard| == 2 {
      assert Transports(heard) == [Udp, Tcp];
    } else if |heard| == 1 {
      assert Transports(heard) == [Udp];
    }
  }

  /** Every diagnostic of the header with its code. */
  lemma {:induction false} HeaderCodes()
    ensures RejectionCode(ResponseSize) == Some(ResponseSizeCode)
    ensures RejectionCode(ResponseHeader) == Some(ResponseHeaderCode)
    ensures RejectionCode(DnssecAssertion) == Some(DnssecFlagsCode)
    ensures RejectionCode(QuestionIdentity) == Some(QuestionIdentityCode)
    ensures RejectionCode(TcpFallbackRequired) == Some(TcpFallbackRequiredCode)
    ensures RejectionCode(TruncatedAmbiguous) == Some(TruncatedAmbiguousCode)
  {
  }

  /** Every diagnostic of the records with its code. */
  lemma {:induction false} RecordCodes()
    ensures RejectionCode(AnswerTruncated) == Some(AnswerTruncatedCode)
    ensures RejectionCode(AnswerMetadata) == Some(AnswerMetadataCode)
    ensures RejectionCode(CnameAmbiguous) == Some(CnameAmbiguousCode)
    ensures RejectionCode(AddressAmbiguous) == Some(AddressAmbiguousCode)
    ensures RejectionCode(AnswerType) == Some(AnswerTypeCode)
    ensures RejectionCode(TrailingBytes) == Some(TrailingBytesCode)
  {
  }

  /** Every diagnostic of the chain with its code. */
  lemma {:induction false} ChainCodes()
    ensures RejectionCode(CnameDisallowed) == Some(CnameDisallowedCode)
    ensures RejectionCode(CnameLoopOrDepth) == Some(CnameLoopOrDepthCode)
    ensures RejectionCode(TerminalService) == Some(TerminalServiceCode)
    ensures RejectionCode(AnswerInventory) == Some(AnswerInventoryCode)
    ensures RejectionCode(TerminalAddress) == Some(TerminalAddressCode)
  {
  }

  // ---- the whole fact of every scripted run ----

  /** Why a scripted answer is refused when the declared service is required; none when it resolves. */
  function ScriptReason(name: Text, script: Script, ordinal: int, transport: Transport,
      allowCname: bool): Option<Reason> {
    var allowed := name == TestName("allowed");
    match script
    case Timeout => Some(TimeoutCode)
    case Malformed => Some(MalformedCode)
    case DnssecConfusion => Some(DnssecFlagsCode)
    case TruncatedFallback =>
      if transport == Udp then Some(TcpFallbackRequiredCode) else if allowed then None else Some(TerminalServiceCode)
    case Stable => if allowed then None else Some(TerminalServiceCode)
    case Denied => Some(if allowed then TerminalAddressCode else TerminalServiceCode)
    case Rebind =>
      if !allowed then Some(TerminalServiceCode) else if ordinal == 0 then None else Some(TerminalAddressCode)
    case CnameAllowed =>
      if allowed then Some(AddressAmbiguousCode) else if allowCname then None else Some(CnameDisallowedCode)
    case CnameDenied =>
      Some(if name == TestName("denied") then AddressAmbiguousCode else if allowCname then TerminalServiceCode else CnameDisallowedCode)
    case CnameLoop =>
      Some(if name == TestName("loop") then CnameAmbiguousCode else if allowCname then CnameLoopOrDepthCode else CnameDisallowedCode)
    case CnameDepth =>
      Some(if name == TestName("depth-1") || name == TestName("depth-2") || name == TestName("depth-3") then CnameAmbiguousCode
           else if allowed then AddressAmbiguousCode
           else if allowCname then CnameLoopOrDepthCode else CnameDisallowedCode)
  }

  /** 127.0.0.1 for type 1, fd00::1 otherwise. */
  function DeclaredAddress(questionType: int): Bytes {
    if questionType == 1 then [127, 0, 0, 1] else [0xFD, 0, 0, 0, 0, 0, 0, 0, 0, 0, 0, 0, 0, 0, 0, 1]
  }

  /** An event as its reason tells it, for the declared service. */
  predicate DeclaredAs(event: Option<Event>, reason: Option<Reason>, questionType: int) {
    && event.Some?
    && (reason.Some? ==> event.value == Rejected(reason.value))
    && (reason.None? ==>
          && event.value.Resolved? && event.value.address == DeclaredAddress(questionType)
          && event.value.terminalName == TestName("allowed"))
  }

  lemma {:induction false} ChainEvent(q: Query, chain: seq<Text>, address: Bytes, allowCname: bool)
    requires chain != [] && (address == AllowedAddress(q.questionType) || address == DeniedAddress(q.questionType))
    ensures var last := chain[|chain| - 1];
            var reason := if |chain| > 1 && !allowCname then Some(CnameDisallowedCode)
                          else if last != TestName("allowed") then Some(TerminalServiceCode)
                          else if address == DeniedAddress(q.questionType) then Some(TerminalAddressCode) else None;
            DeclaredAs(VerdictEvent(ChainVerdict(q, chain, address, allowCname, true)), reason, q.questionType)
  {
    hide TestName;
    ChainEvents(q, allowCname);
    hide RejectionCode;
    ChainCodes();
  }

  lemma {:induction false} AddressEvent(q: Query, script: Script, ordinal: int, transport: Transport, allowCname: bool)
    requires script in {Stable, Denied, Rebind, TruncatedFallback}
    ensures var event := ScriptEvent(q, script, ordinal, transport, allowCname, true);
            var reason := ScriptReason(q.name, script, ordinal, transport, allowCname);
            DeclaredAs(event, reason, q.questionType)
  {
    hide TestName, RejectionCode, DeclaredAs, ChainVerdict, VerdictEvent;
    ChainEvents(q, allowCname);
    ChainEvent(q, [q.name], AllowedAddress(q.questionType), allowCname);
    ChainEvent(q, [q.name], DeniedAddress(q.questionType), allowCname);
    HeaderCodes();
    RefusedEvent(TcpFallbackRequired, q.questionType);
  }

  lemma {:induction false} AliasEvent(q: Query, script: Script, ordinal: int, transport: Transport, allowCname: bool)
    requires script in {CnameAllowed, CnameDenied}
    ensures var event := ScriptEvent(q, script, ordinal, transport, allowCname, true);
            var reason := ScriptReason(q.name, script, ordinal, transport, allowCname);
            DeclaredAs(event, reason, q.questionType)
  {
    hide TestName, RejectionCode, DeclaredAs, ChainVerdict, VerdictEvent;
    RegisteredNamesDiffer();
    ChainEvents(q, allowCname);
    ChainEvent(q, [q.name, TestName("allowed")], AllowedAddress(q.questionType), allowCname);
    ChainEvent(q, [q.name, TestName("denied")], DeniedAddress(q.questionType), allowCname);
    RecordCodes();
    RefusedEvent(AddressAmbiguous, q.questionType);
  }

  lemma {:induction false} LongEvent(q: Query, script: Script, ordinal: int, transport: Transport, allowCname: bool)
    requires script in {CnameLoop, CnameDepth, DnssecConfusion}
    ensures var event := ScriptEvent(q, script, ordinal, transport, allowCname, true);
            var reason := ScriptReason(q.name, script, ordinal, transport, allowCname);
            DeclaredAs(event, reason, q.questionType)
  {
    hide TestName, RejectionCode, DeclaredAs, ChainVerdict, VerdictEvent;
    RecordCodes();
    ChainCodes();
    HeaderCodes();
    RefusedEvent(AddressAmbiguous, q.questionType);
    RefusedEvent(CnameAmbiguous, q.questionType);
    RefusedEvent(CnameDisallowed, q.questionType);
    RefusedEvent(CnameLoopOrDepth, q.questionType);
    RefusedEvent(DnssecAssertion, q.questionType);
  }

  lemma {:induction false} RefusedEvent(e: DnsError, questionType: int)
    requires RejectionCode(e).Some?
    ensures DeclaredAs(VerdictEvent(Err(e)), RejectionCode(e), questionType)
  {
    hide RejectionCode;
  }

  lemma {:induction false} DeclaredEvent(q: Query, script: Script, ordinal: int, transport: Transport, allowCname: bool)
    ensures var event := ScriptEvent(q, script, ordinal, transport, allowCname, true);
            var reason := ScriptReason(q.name, script, ordinal, transport, allowCname);
            DeclaredAs(event, reason, q.questionType)
  {
    hide TestName, ScriptReason;
    match script {
      case Timeout => TimeoutReasons(q.name, ordinal, transport, allowCname);
      case Malformed => TimeoutReasons(q.name, ordinal, transport, allowCname);
      case Stable => AddressEvent(q, script, ordinal, transport, allowCname);
      case Denied => AddressEvent(q, script, ordinal, transport, allowCname);
      case Rebind => AddressEvent(q, script, ordinal, transport, allowCname);
      case TruncatedFallback => AddressEvent(q, script, ordinal, transport, allowCname);
      case CnameAllowed => AliasEvent(q, script, ordinal, transport, allowCname);
      case CnameDenied => AliasEvent(q, script, ordinal, transport, allowCname);
      case _ => LongEvent(q, script, ordinal, transport, allowCname);
    }
  }

  lemma {:induction false} ChainEvents(q: Query, allowCname: bool)
    ensures DENIED_IPV4 != ALLOWED_IPV4 && DENIED_IPV6 != ALLOWED_IPV6
    ensures AllowedAddress(q.questionType) == DeclaredAddress(q.questionType)
    ensures DeniedAddress(q.questionType) != AllowedAddress(q.questionType)
  {
    assert DENIED_IPV4[3] != ALLOWED_IPV4[3] && DENIED_IPV6[15] != ALLOWED_IPV6[15];
  }

  /** The whole fact of every scripted run with the declared service required. */
  lemma {:induction false} ScriptedFact(name: Text, questionType: int, identifier: int, script: Script,
      ordinal: nat, later: nat, allowCname: bool, allowTcpFallback: bool, query: Bytes, tcp: TcpOutcome)
    requires BuildQuery(identifier, name, questionType) == Ok(query)
    requires ResponseFor(query, script, ordinal, Udp).Ok?
    requires FallsBack(script, allowTcpFallback) ==>
               ResponseFor(query, script, later, Tcp).Ok? && tcp == OverTcp(ResponseFor(query, script, later, Tcp).value)
    ensures var udp := OverUdp(ResponseFor(query, script, ordinal, Udp).value);
            var outcome := ResolveOnce(name, questionType, identifier, allowCname, true, allowTcpFallback, udp, tcp);
            var back := FallsBack(script, allowTcpFallback);
            var transports := if back then [Udp, Tcp] else [Udp];
            var reason := if back then ScriptReason(name, script, later, Tcp, allowCname) else ScriptReason(name, script, ordinal, Udp, allowCname);
            && outcome.Ok?
            && ResolutionFact(outcome.value)
               == if reason.Some? then Fact(None, FactRejected, reason, None, transports)
                  else Fact(Some(DeclaredAddress(questionType)), FactResolved, None, Some(TestName("allowed")), transports)
  {
    hide BuildQuery, ParseQuery, ResponseFor, TestName, ResolveOnce, Canonical, QueryPacket, ScriptEvent, ScriptReason,
        DeclaredAddress, OverUdp, OverTcp;
    ScriptedOutcome(name, questionType, identifier, script, ordinal, later, allowCname, true, allowTcpFallback, query, tcp);
    BuildQueryPacket(identifier, name, questionType);
    ParseBuiltQuery(identifier, name, questionType);
    var q := ParseQuery(query).value;
    DeclaredEvent(q, script, ordinal, Udp, allowCname);
    DeclaredEvent(q, script, later, Tcp, allowCname);
    TimeoutReasons(name, ordinal, Udp, allowCname);
    OnlyTimeouts(name, script, ordinal, allowCname);
  }

  lemma {:induction false} TimeoutReasons(name: Text, ordinal: int, transport: Transport, allowCname: bool)
    ensures ScriptReason(name, Timeout, ordinal, transport, allowCname) == Some(TimeoutCode)
    ensures ScriptReason(name, Malformed, ordinal, transport, allowCname) == Some(MalformedCode)
  {
  }

  lemma {:induction false} OnlyTimeouts(name: Text, script: Script, ordinal: int, allowCname: bool)
    ensures ScriptReason(name, script, ordinal, Udp, allowCname) == Some(TimeoutCode) ==> script == Timeout
  {
    hide TestName;
  }
}
