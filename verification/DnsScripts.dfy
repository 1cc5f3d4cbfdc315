/** The scripted producer: what `response_for` emits, how long it is, and how the validator judges it. */
module DnsScripts {
  import opened Common
  import opened DnsNames
  import opened DnsMessages
  import opened DnsValidation
  import opened DnsExactness
  import opened DnsAcceptance

  // ---- the registered names ----

  lemma {:induction false} TestNameCanonical(lbl: string)
    requires ValidLabel(Ascii(lbl))
    ensures Canonical(TestName(lbl)) && |Wire(TestName(lbl))| == |lbl| + 7
  {
    var labels := [Ascii(lbl), Ascii("test")];
    assert ValidLabel(Ascii("test"));
    assert labels[1..] == [Ascii("test")];
    assert Join(labels) == Ascii(lbl) + [DOT] + Ascii("test") == TestName(lbl);
    assert DOT !in labels[0] && DOT !in labels[1];
    SplitJoin(labels);
    WireShape(TestName(lbl));
  }

  lemma {:induction false} RegisteredNames()
    ensures Canonical(TestName("allowed")) && |Wire(TestName("allowed"))| == 14
    ensures Canonical(TestName("denied")) && |Wire(TestName("denied"))| == 13
    ensures Canonical(TestName("loop")) && |Wire(TestName("loop"))| == 11
    ensures Canonical(TestName("depth-1")) && |Wire(TestName("depth-1"))| == 14
    ensures Canonical(TestName("depth-2")) && |Wire(TestName("depth-2"))| == 14
    ensures Canonical(TestName("depth-3")) && |Wire(TestName("depth-3"))| == 14
  {
    hide Canonical, Wire, TestName;
    TestNameCanonical("allowed");
    TestNameCanonical("denied");
    TestNameCanonical("loop");
    TestNameCanonical("depth-1");
    TestNameCanonical("depth-2");
    TestNameCanonical("depth-3");
  }

  /** The registered names in full. */
  lemma {:induction false} NamesInFull()
    ensures TestName("allowed") == Ascii("allowed.test") && TestName("denied") == Ascii("denied.test")
    ensures TestName("loop") == Ascii("loop.test") && TestName("depth-1") == Ascii("depth-1.test")
    ensures TestName("depth-2") == Ascii("depth-2.test") && TestName("depth-3") == Ascii("depth-3.test")
  {
    FullName("allowed");
    FullName("denied");
    FullName("loop");
    FullName("depth-1");
    FullName("depth-2");
    FullName("depth-3");
    assert "allowed" + ".test" == "allowed.test" && "denied" + ".test" == "denied.test" && "loop" + ".test" == "loop.test";
    assert "depth-1" + ".test" == "depth-1.test" && "depth-2" + ".test" == "depth-2.test" && "depth-3" + ".test" == "depth-3.test";
  }

  lemma {:induction false} FullName(lbl: string)
    ensures TestName(lbl) == Ascii(lbl + ".test")
  {
  }

  lemma {:induction false} RegisteredNamesDiffer()
    ensures TestName("allowed") != TestName("denied")
    ensures TestName("depth-1") != TestName("depth-2") && TestName("depth-1") != TestName("depth-3")
    ensures TestName("depth-2") != TestName("depth-3")
    ensures TestName("allowed") != TestName("depth-1") && TestName("allowed") != TestName("depth-2") && TestName("allowed") != TestName("depth-3")
  {
    assert TestName("allowed")[0] == 'a' as int && TestName("denied")[0] == 'd' as int;
    assert TestName("depth-1")[6] == '1' as int && TestName("depth-2")[6] == '2' as int && TestName("depth-3")[6] == '3' as int;
    assert TestName("depth-1")[0] == 'd' as int && TestName("depth-2")[0] == 'd' as int && TestName("depth-3")[0] == 'd' as int;
  }

  // ---- the emitted bytes ----

  predicate PlanFits(plan: seq<Planned>, q: Query) {
    forall i :: 0 <= i < |plan| ==>
      AnswerFits(plan[i].answer, q) && (plan[i].byReference ==> plan[i].answer.owner == q.name)
  }

  lemma {:induction false} AnswerPlanFits(q: Query, script: Script, ordinal: int, transport: Transport)
    requires WellFormed(q)
    ensures PlanFits(AnswerPlan(q, script, ordinal, transport), q)
  {
    hide Canonical, Wire, TestName, QuestionBytes, PackU16;
    RegisteredNames();
    assert |AllowedAddress(q.questionType)| == |DeniedAddress(q.questionType)| == AddressSize(q.questionType);
  }

  function PlanSlices(plan: seq<Planned>, q: Query): (slices: seq<Bytes>)
    requires PlanFits(plan, q)
    ensures |slices| == |plan|
  {
    if plan == [] then []
    else
      assert AnswerFits(plan[0].answer, q);
      [RecordWire(plan[0].answer, plan[0].byReference)] + PlanSlices(plan[1..], q)
  }

  function PlanAnswers(plan: seq<Planned>): (answers: seq<Answer>)
    ensures |answers| == |plan| && forall i :: 0 <= i < |plan| ==> answers[i] == plan[i].answer
  {
    seq(|plan|, i requires 0 <= i < |plan| => plan[i].answer)
  }

  lemma {:induction false} PlanEncodes(plan: seq<Planned>, q: Query)
    requires PlanFits(plan, q)
    ensures EncodesAll(PlanSlices(plan, q), PlanAnswers(plan), q)
    ensures PlanRecords(plan) == Ok(PlanSlices(plan, q))
  {
    hide RecordWire, AnswerWellFormed, ResourceRecord;
    if plan != [] {
      PlanEncodes(plan[1..], q);
      assert AnswerFits(plan[0].answer, q);
      ResourceRecordWire(plan[0].answer, plan[0].byReference);
      var slices, answers := PlanSlices(plan, q), PlanAnswers(plan);
      forall i | 0 <= i < |slices| ensures Encodes(slices[i], answers[i], q) {
        if i > 0 {
          assert slices[i] == PlanSlices(plan[1..], q)[i - 1] && answers[i] == PlanAnswers(plan[1..])[i - 1];
        }
      }
    }
  }

  /** Header, question and planned records. */
  function PlannedResponse(q: Query, script: Script, ordinal: int, transport: Transport): (r: Bytes)
    requires WellFormed(q)
  {
    var plan := AnswerPlan(q, script, ordinal, transport);
    AnswerPlanFits(q, script, ordinal, transport);
    Header(q.identifier, ResponseFlags(q, script, transport), 1, |plan|, 0, 0)
    + q.questionBytes
    + Concat(PlanSlices(plan, q))
  }

  predicate Emits(script: Script) {
    script != Timeout && script != Malformed
  }

  lemma {:induction false} ResponseForPlanned(queryData: Bytes, script: Script, ordinal: nat, transport: Transport)
    requires ParseQuery(queryData).Ok? && Emits(script)
    ensures WellFormed(ParseQuery(queryData).value)
    ensures var response := PlannedResponse(ParseQuery(queryData).value, script, ordinal, transport);
            ResponseFor(queryData, script, ordinal, transport)
            == if |response| > MAX_PACKET_BYTES then Err(ResponsePacketBound) else Ok(Some(response))
  {
    hide ParseQuery, WellFormed, PlanRecords, PlanSlices, AnswerPlan, PlanFits;
    ParsedQueryPacket(queryData);
    var q := ParseQuery(queryData).value;
    AnswerPlanFits(q, script, ordinal, transport);
    PlanEncodes(AnswerPlan(q, script, ordinal, transport), q);
  }

  // ---- sizes ----

  /** The size of each scripted response, for a question name of `wire` octets. */
  function ResponseLength(script: Script, transport: Transport, questionType: int, wire: int): int {
    var address := AddressSize(questionType);
    16 + wire + match script
      case TruncatedFallback => if transport == Udp then 0 else 12 + address
      case CnameAllowed => 26 + 24 + address
      case CnameDenied => 25 + 23 + address
      case CnameLoop => 23 + 21 + wire
      case CnameDepth => 26 + 3 * 38 + 24 + address
      case _ => 12 + address
  }

  function RecordLength(p: Planned): int
    requires AnswerWellFormed(p.answer)
  {
    |OwnerBytes(p.answer, p.byReference)| + 10 + |Payload(p.answer)|
  }

  function PlanLength(plan: seq<Planned>, q: Query): int
    requires PlanFits(plan, q)
  {
    if plan == [] then 0
    else
      assert AnswerFits(plan[0].answer, q);
      RecordLength(plan[0]) + PlanLength(plan[1..], q)
  }

  lemma {:induction false} PlanSlicesLength(plan: seq<Planned>, q: Query)
    requires PlanFits(plan, q)
    ensures |Concat(PlanSlices(plan, q))| == PlanLength(plan, q)
  {
    hide OwnerBytes, Payload, AnswerWellFormed;
    if plan != [] {
      assert AnswerFits(plan[0].answer, q);
      PlanSlicesLength(plan[1..], q);
      var slices := PlanSlices(plan, q);
      assert slices[1..] == PlanSlices(plan[1..], q);
    }
  }

  lemma {:induction false} PlanLengthCons(p: Planned, rest: seq<Planned>, q: Query)
    requires PlanFits([p] + rest, q)
    ensures PlanFits(rest, q) && AnswerWellFormed(p.answer)
    ensures PlanLength([p] + rest, q) == RecordLength(p) + PlanLength(rest, q)
  {
    var plan := [p] + rest;
    assert plan[1..] == rest;
    assert AnswerFits(plan[0].answer, q);
    forall i | 0 <= i < |rest| ensures AnswerFits(rest[i].answer, q) && (rest[i].byReference ==> rest[i].answer.owner == q.name) {
      assert rest[i] == plan[i + 1];
    }
  }

  /** Length of a plan of one, two or five records. */
  lemma {:induction false} PlanLengths(plan: seq<Planned>, q: Query)
    requires PlanFits(plan, q) && |plan| <= 5
    ensures forall i :: 0 <= i < |plan| ==> AnswerWellFormed(plan[i].answer)
    ensures PlanLength(plan, q) ==
              (if |plan| > 0 then RecordLength(plan[0]) else 0)
              + (if |plan| > 1 then RecordLength(plan[1]) else 0)
              + (if |plan| > 2 then RecordLength(plan[2]) else 0)
              + (if |plan| > 3 then RecordLength(plan[3]) else 0)
              + (if |plan| > 4 then RecordLength(plan[4]) else 0)
    decreases |plan|
  {
    hide AnswerFits, AnswerWellFormed, RecordLength;
    if plan != [] {
      var rest := plan[1..];
      assert plan == [plan[0]] + rest;
      PlanLengthCons(plan[0], rest, q);
      PlanLengths(rest, q);
      forall i | 0 <= i < |plan| ensures AnswerWellFormed(plan[i].answer) {
        if i > 0 {
          assert plan[i] == rest[i - 1];
        }
      }
    }
  }

  lemma {:induction false} PlannedLength(q: Query, script: Script, ordinal: int, transport: Transport)
    requires WellFormed(q) && Emits(script)
    ensures |PlannedResponse(q, script, ordinal, transport)|
         == ResponseLength(script, transport, q.questionType, |Wire(q.name)|)
  {
    hide Canonical, Wire, TestName, PlanLength, PlanFits, PlanSlices, AnswerFits;
    var plan := AnswerPlan(q, script, ordinal, transport);
    AnswerPlanFits(q, script, ordinal, transport);
    PlanSlicesLength(plan, q);
    PlanLengths(plan, q);
    RegisteredNames();
    assert |q.questionBytes| == |Wire(q.name)| + 4;
  }

  /**
   * `response_for` never fails on an accepted query, except on the 512-octet bound, and that
   * only for the loop script when the encoded name exceeds 226 octets.
   */
  lemma {:induction false} ResponseForTotal(queryData: Bytes, script: Script, ordinal: nat, transport: Transport)
    requires ParseQuery(queryData).Ok?
    ensures Canonical(ParseQuery(queryData).value.name)
    ensures var wire := |Wire(ParseQuery(queryData).value.name)|;
            && wire <= 255
            && (ResponseFor(queryData, script, ordinal, transport).Err? <==> script == CnameLoop && wire > 226)
            && (ResponseFor(queryData, script, ordinal, transport).Err? ==>
                  ResponseFor(queryData, script, ordinal, transport) == Err(ResponsePacketBound))
            && (Emits(script) && ResponseFor(queryData, script, ordinal, transport).Ok? ==>
                  var response := ResponseFor(queryData, script, ordinal, transport).value;
                  response.Some? && |response.value| == ResponseLength(script, transport, ParseQuery(queryData).value.questionType, wire))
  {
    hide ParseQuery, PlannedResponse, Wire, Canonical;
    ParsedQueryPacket(queryData);
    var q := ParseQuery(queryData).value;
    WireShape(q.name);
    if Emits(script) {
      ResponseForPlanned(queryData, script, ordinal, transport);
      PlannedLength(q, script, ordinal, transport);
    }
  }
}
