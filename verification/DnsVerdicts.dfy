/** Producer against validator: one verdict per script, for every query. */
module DnsVerdicts {
  import opened Common
  import opened DnsNames
  import opened DnsMessages
  import opened DnsValidation
  import opened DnsExactness
  import opened DnsAcceptance
  import opened DnsScripts

  /** The verdict on the records of one chain. */
  function ChainVerdict(q: Query, chain: seq<Text>, address: Bytes, allowCname: bool,
      requireDeclared: bool): (r: Result<Resolution, DnsError>)
    requires chain != []
  {
    var last := chain[|chain| - 1];
    if |chain| > 1 && !allowCname then Err(CnameDisallowed)
    else if requireDeclared && last != TestName("allowed") then Err(TerminalService)
    else if requireDeclared && address != AllowedAddress(q.questionType) then Err(TerminalAddress)
    else Ok(Resolution(address, chain, q.questionType, last, TTL))
  }

  /** How a scripted response is judged; only the question name decides between the cases of a script. */
  function Verdict(q: Query, script: Script, ordinal: int, transport: Transport, allowCname: bool,
      requireDeclared: bool): (r: Result<Resolution, DnsError>)
    requires script != Timeout
  {
    var allowed, denied := AllowedAddress(q.questionType), DeniedAddress(q.questionType);
    match script
    case Malformed => Err(ResponseSize)
    case DnssecConfusion => Err(DnssecAssertion)
    case TruncatedFallback =>
      if transport == Udp then Err(TcpFallbackRequired)
      else ChainVerdict(q, [q.name], allowed, allowCname, requireDeclared)
    case Stable => ChainVerdict(q, [q.name], allowed, allowCname, requireDeclared)
    case Denied => ChainVerdict(q, [q.name], denied, allowCname, requireDeclared)
    case Rebind =>
      ChainVerdict(q, [q.name], if ordinal == 0 then allowed else denied, allowCname, requireDeclared)
    case CnameAllowed =>
      if q.name == TestName("allowed") then Err(AddressAmbiguous)
      else ChainVerdict(q, [q.name, TestName("allowed")], allowed, allowCname, requireDeclared)
    case CnameDenied =>
      if q.name == TestName("denied") then Err(AddressAmbiguous)
      else ChainVerdict(q, [q.name, TestName("denied")], denied, allowCname, requireDeclared)
    case CnameLoop =>
      if q.name == TestName("loop") then Err(CnameAmbiguous)
      else if !allowCname then Err(CnameDisallowed)
      else Err(CnameLoopOrDepth)
    case CnameDepth =>
      if q.name in [TestName("depth-1"), TestName("depth-2"), TestName("depth-3")] then Err(CnameAmbiguous)
      else if q.name == TestName("allowed") then Err(AddressAmbiguous)
      else if !allowCname then Err(CnameDisallowed)
      else Err(CnameLoopOrDepth)
  }

  // ---- judging a list of answers ----

  /** The verdict on an answer section that holds these answers. */
  function SectionVerdict(q: Query, answers: seq<Answer>, allowCname: bool,
      requireDeclared: bool): (r: Result<Resolution, DnsError>) {
    var entered := InsertAll(EMPTY, answers);
    if entered.Err? then Err(entered.error) else Conclusion(q, entered.value, allowCname, requireDeclared)
  }

  /** A response of registered head and encoded records is judged by its answers alone. */
  lemma {:induction false} HeadAndRecords(queryData: Bytes, q: Query, slices: seq<Bytes>, answers: seq<Answer>,
      allowCname: bool, requireDeclared: bool)
    requires ParseQuery(queryData) == Ok(q) && WellFormed(q)
    requires EncodesAll(slices, answers, q) && U16Value(|slices|)
    requires |ResponseHead(q, |slices|) + Concat(slices)| <= MAX_PACKET_BYTES
    ensures Validation(queryData, ResponseHead(q, |slices|) + Concat(slices), allowCname, requireDeclared)
         == SectionVerdict(q, answers, allowCname, requireDeclared)
  {
    hide ParseQuery, HeaderCheck, AnswerScan, Conclusion, WellFormed, Encodes, InsertAll, Concat;
    var head := ResponseHead(q, |slices|);
    var response := head + Concat(slices);
    assert response[..|head|] == head && response[|head|..] == Concat(slices);
    HeaderCheckExact(q, response, |slices|);
    ScanConcat(response, |head|, slices, answers, q, EMPTY);
  }

  /** The records of a distinct chain, in chain order. */
  lemma {:induction false} ChainSection(q: Query, chain: seq<Text>, address: Bytes, allowCname: bool,
      requireDeclared: bool)
    requires 1 <= |chain| <= MAX_CHAIN && chain[0] == q.name && DistinctNames(chain)
    ensures SectionVerdict(q, ChainAnswers(chain, address), allowCname, requireDeclared)
         == ChainVerdict(q, chain, address, allowCname, requireDeclared)
  {
    hide Stored, TestName;
    var answers := ChainAnswers(chain, address);
    ChainAnswersDistinct(chain, address);
    NothingOwned(answers);
    InsertAllExact(EMPTY, answers);
    var inventory := InsertAll(EMPTY, answers).value;
    forall a ensures !Stored(EMPTY, a) {
      NothingStored(a);
    }
    ChainInventory(inventory, chain, address);
    if |chain| == 1 || allowCname {
      WalkComplete(inventory.cnames, chain, 0, allowCname);
      assert chain[..1] == [q.name];
    } else {
      assert chain[0] in inventory.cnames;
    }
  }

  lemma {:induction false} NothingStored(a: Answer)
    ensures !Stored(EMPTY, a)
  {
  }

  lemma {:induction false} NothingOwned(answers: seq<Answer>)
    ensures forall i :: 0 <= i < |answers| ==> !Owned(EMPTY, answers[i].owner)
  {
  }

  /** The first answer whose owner repeats decides the error. */
  lemma {:induction false} InsertAllFails(inventory: Inventory, answers: seq<Answer>, k: nat)
    requires k < |answers| && DistinctOwners(answers[..k])
    requires forall i :: 0 <= i < k ==> !Owned(inventory, answers[i].owner)
    requires Owned(inventory, answers[k].owner) || exists i :: 0 <= i < k && answers[i].owner == answers[k].owner
    ensures InsertAll(inventory, answers) == Err(if answers[k].Cname? then CnameAmbiguous else AddressAmbiguous)
    decreases k
  {
    if k > 0 {
      var grown := Insert(inventory, answers[0]);
      var rest := answers[1..];
      assert !Owned(inventory, answers[0].owner);
      assert forall o :: Owned(grown.value, o) <==> Owned(inventory, o) || o == answers[0].owner;
      assert forall i :: 0 <= i < k - 1 ==> rest[i] == answers[..k][i + 1];
      assert rest[k - 1] == answers[k];
      assert answers[..k][0] == answers[0];
      if exists i :: 0 <= i < k && answers[i].owner == answers[k].owner {
        var i :| 0 <= i < k && answers[i].owner == answers[k].owner;
        if i > 0 {
          assert rest[i - 1].owner == rest[k - 1].owner;
        }
      }
      InsertAllFails(grown.value, rest, k - 1);
    }
  }

  /** A section whose answer `k` repeats an owner is ambiguous. */
  lemma {:induction false} RepeatedOwner(q: Query, answers: seq<Answer>, i: nat, k: nat, allowCname: bool,
      requireDeclared: bool)
    requires i < k < |answers| && DistinctOwners(answers[..k]) && answers[i].owner == answers[k].owner
    ensures SectionVerdict(q, answers, allowCname, requireDeclared)
         == Err(if answers[k].Cname? then CnameAmbiguous else AddressAmbiguous)
  {
    hide Conclusion, Insert;
    NothingOwned(answers);
    InsertAllFails(EMPTY, answers, k);
  }

  /** A walk that the loop or depth bound stops: `path` is followed, then its last name leads on. */
  lemma {:induction false} WalkStops(cnames: map<Text, Text>, path: seq<Text>, at: nat)
    requires at < |path| <= MAX_CHAIN && DistinctNames(path)
    requires forall i :: at <= i < |path| - 1 ==> path[i] in cnames && cnames[path[i]] == path[i + 1]
    requires var last := path[|path| - 1]; last in cnames && (cnames[last] in path || |path| == MAX_CHAIN)
    ensures ChainWalk(cnames, path[..at + 1], true) == Err(CnameLoopOrDepth)
    decreases |path| - at
  {
    var chain := path[..at + 1];
    if at + 1 == |path| {
      assert chain == path;
    } else {
      var next := path[at + 1];
      assert next !in chain;
      assert chain + [next] == path[..at + 2];
      WalkStops(cnames, path, at + 1);
    }
  }

  /** A section whose aliases loop or run too deep. */
  lemma {:induction false} EndlessSection(q: Query, answers: seq<Answer>, path: seq<Text>, next: Text,
      allowCname: bool, requireDeclared: bool)
    requires DistinctOwners(answers)
    requires 1 <= |path| <= MAX_CHAIN && path[0] == q.name && DistinctNames(path)
    requires forall i :: 0 <= i < |path| - 1 ==> Cname(path[i], path[i + 1]) in answers
    requires Cname(path[|path| - 1], next) in answers
    requires next in path || |path| == MAX_CHAIN
    ensures SectionVerdict(q, answers, allowCname, requireDeclared)
         == Err(if allowCname then CnameLoopOrDepth else CnameDisallowed)
  {
    NothingOwned(answers);
    InsertAllExact(EMPTY, answers);
    var inventory := InsertAll(EMPTY, answers).value;
    forall i | 0 <= i < |path| - 1
      ensures path[i] in inventory.cnames && inventory.cnames[path[i]] == path[i + 1]
    {
      assert Stored(inventory, Cname(path[i], path[i + 1]));
    }
    assert Stored(inventory, Cname(path[|path| - 1], next));
    assert path[..1] == [q.name];
    assert q.name in inventory.cnames;
    if allowCname {
      WalkStops(inventory.cnames, path, 0);
    }
  }

  // ---- the scripts ----

  predicate FlagScript(script: Script, transport: Transport) {
    script == DnssecConfusion || (script == TruncatedFallback && transport == Udp)
  }

  /** One address record, owned by the question name. */
  lemma {:induction false} AddressScripts(q: Query, script: Script, ordinal: int, transport: Transport,
      allowCname: bool, requireDeclared: bool)
    requires script in {Stable, Denied, Rebind} || (script == TruncatedFallback && transport == Tcp)
    ensures SectionVerdict(q, PlanAnswers(AnswerPlan(q, script, ordinal, transport)), allowCname, requireDeclared)
         == Verdict(q, script, ordinal, transport, allowCname, requireDeclared)
  {
    hide SectionVerdict, ChainVerdict;
    var plan := AnswerPlan(q, script, ordinal, transport);
    var address := plan[0].answer.address;
    assert PlanAnswers(plan) == ChainAnswers([q.name], address);
    ChainSection(q, [q.name], address, allowCname, requireDeclared);
  }

  /** An alias to one target, and the target's address. */
  lemma {:induction false} AliasScripts(q: Query, script: Script, ordinal: int, transport: Transport,
      allowCname: bool, requireDeclared: bool)
    requires script == CnameAllowed || script == CnameDenied
    ensures SectionVerdict(q, PlanAnswers(AnswerPlan(q, script, ordinal, transport)), allowCname, requireDeclared)
         == Verdict(q, script, ordinal, transport, allowCname, requireDeclared)
  {
    hide SectionVerdict, ChainVerdict, TestName;
    var plan := AnswerPlan(q, script, ordinal, transport);
    var answers := PlanAnswers(plan);
    var target := if script == CnameAllowed then TestName("allowed") else TestName("denied");
    var address := if script == CnameAllowed then AllowedAddress(q.questionType) else DeniedAddress(q.questionType);
    assert answers == [Cname(q.name, target), Address(target, address)];
    if q.name == target {
      RepeatedOwner(q, answers, 0, 1, allowCname, requireDeclared);
    } else {
      assert answers == ChainAnswers([q.name, target], address);
      ChainSection(q, [q.name, target], address, allowCname, requireDeclared);
    }
  }

  lemma {:induction false} LoopScript(q: Query, ordinal: int, transport: Transport, allowCname: bool,
      requireDeclared: bool)
    ensures SectionVerdict(q, PlanAnswers(AnswerPlan(q, CnameLoop, ordinal, transport)), allowCname, requireDeclared)
         == Verdict(q, CnameLoop, ordinal, transport, allowCname, requireDeclared)
  {
    hide SectionVerdict, TestName;
    var answers := PlanAnswers(AnswerPlan(q, CnameLoop, ordinal, transport));
    var loop := TestName("loop");
    assert answers == [Cname(q.name, loop), Cname(loop, q.name)];
    if q.name == loop {
      RepeatedOwner(q, answers, 0, 1, allowCname, requireDeclared);
    } else {
      assert answers[0] in answers && answers[1] in answers;
      EndlessSection(q, answers, [q.name, loop], q.name, allowCname, requireDeclared);
    }
  }

  lemma {:induction false} DepthScript(q: Query, ordinal: int, transport: Transport, allowCname: bool,
      requireDeclared: bool)
    ensures SectionVerdict(q, PlanAnswers(AnswerPlan(q, CnameDepth, ordinal, transport)), allowCname, requireDeclared)
         == Verdict(q, CnameDepth, ordinal, transport, allowCname, requireDeclared)
  {
    hide SectionVerdict, TestName, AllowedAddress, ChainVerdict;
    RegisteredNamesDiffer();
    var answers := PlanAnswers(AnswerPlan(q, CnameDepth, ordinal, transport));
    var d1, d2, d3, allowed := TestName("depth-1"), TestName("depth-2"), TestName("depth-3"), TestName("allowed");
    var address := AllowedAddress(q.questionType);
    assert answers == [Cname(q.name, d1), Cname(d1, d2), Cname(d2, d3), Cname(d3, allowed), Address(allowed, address)];
    if q.name in [d1, d2, d3, allowed] {
      var k := if q.name == d1 then 1 else if q.name == d2 then 2 else if q.name == d3 then 3 else 4;
      assert DistinctOwners(answers[..k]);
      RepeatedOwner(q, answers, 0, k, allowCname, requireDeclared);
    } else {
      assert answers[0] in answers && answers[1] in answers && answers[2] in answers && answers[3] in answers;
      EndlessSection(q, answers, [q.name, d1, d2, d3], allowed, allowCname, requireDeclared);
    }
  }

  lemma {:induction false} PlanVerdict(q: Query, script: Script, ordinal: int, transport: Transport,
      allowCname: bool, requireDeclared: bool)
    requires Emits(script) && !FlagScript(script, transport)
    ensures SectionVerdict(q, PlanAnswers(AnswerPlan(q, script, ordinal, transport)), allowCname, requireDeclared)
         == Verdict(q, script, ordinal, transport, allowCname, requireDeclared)
  {
    hide SectionVerdict, Verdict, AnswerPlan;
    match script {
      case CnameAllowed => AliasScripts(q, script, ordinal, transport, allowCname, requireDeclared);
      case CnameDenied => AliasScripts(q, script, ordinal, transport, allowCname, requireDeclared);
      case CnameLoop => LoopScript(q, ordinal, transport, allowCname, requireDeclared);
      case CnameDepth => DepthScript(q, ordinal, transport, allowCname, requireDeclared);
      case _ => AddressScripts(q, script, ordinal, transport, allowCname, requireDeclared);
    }
  }

  lemma {:induction false} RecordScripts(queryData: Bytes, q: Query, script: Script, ordinal: int,
      transport: Transport, allowCname: bool, requireDeclared: bool)
    requires ParseQuery(queryData) == Ok(q) && WellFormed(q) && Emits(script) && !FlagScript(script, transport)
    requires |PlannedResponse(q, script, ordinal, transport)| <= MAX_PACKET_BYTES
    ensures Validation(queryData, PlannedResponse(q, script, ordinal, transport), allowCname, requireDeclared)
         == Verdict(q, script, ordinal, transport, allowCname, requireDeclared)
  {
    hide ParseQuery, Validation, Verdict, AnswerPlan, SectionVerdict, WellFormed, PlanFits, Concat;
    var plan := AnswerPlan(q, script, ordinal, transport);
    AnswerPlanFits(q, script, ordinal, transport);
    PlanEncodes(plan, q);
    var slices := PlanSlices(plan, q);
    PlanSize(q, script, ordinal, transport);
    assert PlannedResponse(q, script, ordinal, transport) == ResponseHead(q, |slices|) + Concat(slices);
    HeadAndRecords(queryData, q, slices, PlanAnswers(plan), allowCname, requireDeclared);
    PlanVerdict(q, script, ordinal, transport, allowCname, requireDeclared);
  }

  lemma {:induction false} PlanSize(q: Query, script: Script, ordinal: int, transport: Transport)
    ensures |AnswerPlan(q, script, ordinal, transport)| <= 5
    ensures script == TruncatedFallback && transport == Udp ==> AnswerPlan(q, script, ordinal, transport) == []
  {
  }

  /** Scripts the header alone rejects. */
  lemma {:induction false} FlagScripts(q: Query, script: Script, ordinal: int, transport: Transport)
    requires WellFormed(q) && FlagScript(script, transport)
    requires |PlannedResponse(q, script, ordinal, transport)| <= MAX_PACKET_BYTES
    ensures HeaderCheck(q, PlannedResponse(q, script, ordinal, transport))
         == Err(if script == DnssecConfusion then DnssecAssertion else TcpFallbackRequired)
  {
    hide WellFormed, AnswerPlan, PlanSlices, PlanFits, U16, Concat, Header, Bit, RegisteredBits;
    var response := PlannedResponse(q, script, ordinal, transport);
    var plan := AnswerPlan(q, script, ordinal, transport);
    AnswerPlanFits(q, script, ordinal, transport);
    PlanSize(q, script, ordinal, transport);
    var flags := ResponseFlags(q, script, transport);
    FlagBits(q, script, transport);
    var header := Header(q.identifier, flags, 1, |plan|, 0, 0);
    assert response[..12] == header;
    HeaderAt(response, header);
    var end := 12 + |q.questionBytes|;
    assert response[12..end] == q.questionBytes;
    NoSlices(q);
  }

  lemma {:induction false} NoSlices(q: Query)
    ensures Concat(PlanSlices([], q)) == []
  {
  }

  lemma {:induction false} FlagBits(q: Query, script: Script, transport: Transport)
    requires FlagScript(script, transport)
    ensures var flags := ResponseFlags(q, script, transport);
            && U16Value(flags)
            && flags == RegisteredBits(flags)
            && Bit(flags, FLAG_QR)
            && Bit(flags, FLAG_AA)
            && Bit(flags, FLAG_RD) == q.recursionDesired
            && Bit(flags, FLAG_AD) == (script == DnssecConfusion)
            && Bit(flags, FLAG_TC) == (script == TruncatedFallback)
  {
  }

  /**
   * Whatever `response_for` emits for an accepted query, `validate_resolution` answers with the
   * script's one verdict: same chain, same address, or same error.
   */
  lemma {:induction false} ScriptVerdict(queryData: Bytes, script: Script, ordinal: nat, transport: Transport,
      allowCname: bool, requireDeclared: bool)
    requires ParseQuery(queryData).Ok? && script != Timeout
    requires ResponseFor(queryData, script, ordinal, transport).Ok?
    ensures ResponseFor(queryData, script, ordinal, transport).value.Some?
    ensures Validation(queryData, ResponseFor(queryData, script, ordinal, transport).value.value, allowCname, requireDeclared)
         == Verdict(ParseQuery(queryData).value, script, ordinal, transport, allowCname, requireDeclared)
  {
    hide ParseQuery, HeaderCheck, WellFormed, PlannedResponse, AnswerScan, Conclusion, ChainVerdict, AnswerPlan,
        PlanRecords;
    ParsedQueryPacket(queryData);
    var q := ParseQuery(queryData).value;
    if script == Malformed {
      ShortResponse(q, PackU16(q.identifier) + Ascii("malformed"));
    } else {
      ResponseForPlanned(queryData, script, ordinal, transport);
      if FlagScript(script, transport) {
        FlagScripts(q, script, ordinal, transport);
      } else {
        RecordScripts(queryData, q, script, ordinal, transport, allowCname, requireDeclared);
      }
    }
  }

  lemma {:induction false} ShortResponse(q: Query, response: Bytes)
    requires |response| < 12
    ensures HeaderCheck(q, response) == Err(ResponseSize)
  {
  }

  /** Under the declared-service requirement, exactly these scripted responses resolve. */
  predicate Resolves(name: Text, script: Script, ordinal: int, transport: Transport, allowCname: bool) {
    match script
    case Stable => name == TestName("allowed")
    case Rebind => name == TestName("allowed") && ordinal == 0
    case TruncatedFallback => name == TestName("allowed") && transport == Tcp
    case CnameAllowed => name != TestName("allowed") && allowCname
    case _ => false
  }

  /** Every query and script at once: a scripted answer resolves exactly as listed. */
  lemma {:induction false} ScriptResolves(queryData: Bytes, script: Script, ordinal: nat, transport: Transport,
      allowCname: bool)
    requires ParseQuery(queryData).Ok? && script != Timeout
    requires ResponseFor(queryData, script, ordinal, transport).Ok?
    ensures ResponseFor(queryData, script, ordinal, transport).value.Some?
    ensures Validation(queryData, ResponseFor(queryData, script, ordinal, transport).value.value, allowCname, true).Ok?
       <==> Resolves(ParseQuery(queryData).value.name, script, ordinal, transport, allowCname)
  {
    hide ParseQuery, ResponseFor, Validation, Verdict, Resolves;
    ScriptVerdict(queryData, script, ordinal, transport, allowCname, true);
    DeclaredVerdict(ParseQuery(queryData).value, script, ordinal, transport, allowCname);
  }

  lemma {:induction false} DeclaredVerdict(q: Query, script: Script, ordinal: int, transport: Transport,
      allowCname: bool)
    requires script != Timeout
    ensures Verdict(q, script, ordinal, transport, allowCname, true).Ok? <==> Resolves(q.name, script, ordinal, transport, allowCname)
    ensures Resolves(q.name, script, ordinal, transport, allowCname) ==>
              Verdict(q, script, ordinal, transport, allowCname, true).value.cnameChain
              == if script == CnameAllowed then [q.name, TestName("allowed")] else [TestName("allowed")]
  {
    hide TestName;
    RegisteredNamesDiffer();
    assert ALLOWED_IPV4[3] != DENIED_IPV4[3] && ALLOWED_IPV6[15] != DENIED_IPV6[15];
  }
}
