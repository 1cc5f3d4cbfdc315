/** Which responses the validator refuses as an ambiguous address, in terms of their octets. */
module DnsAmbiguity {
  import opened Common
  import opened DnsNames
  import opened DnsMessages
  import opened DnsValidation
  import opened DnsExactness
  import opened DnsAcceptance

  // ---- diagnostics of the name codec ----

  predicate NameDiagnostic(e: DnsError) {
    || e == NameNotCanonical || e == LabelNotAscii || e == LabelOutsideGrammar || e == NameTooLong
    || e == NameTruncated || e == QuestionNameEncoding || e == QuestionLabelNotAscii || e == QuestionNameNotCanonical
  }

  lemma {:induction false} LabelsEncodingDiagnostic(labels: seq<Text>)
    ensures LabelsEncoding(labels).Err? ==> NameDiagnostic(LabelsEncoding(labels).error)
  {
    if labels != [] {
      LabelsEncodingDiagnostic(labels[1..]);
    }
  }

  lemma {:induction false} ScanDiagnostic(data: Bytes, offset: nat)
    ensures LabelScan(data, offset).Err? ==> NameDiagnostic(LabelScan(data, offset).error)
    decreases |data| - offset
  {
    if offset < |data| {
      var next := offset + 1 + data[offset];
      if data[offset] != 0 && next <= |data| {
        ScanDiagnostic(data, next);
      }
    }
  }

  lemma {:induction false} NameDecodingDiagnostic(data: Bytes, offset: nat)
    ensures NameDecoding(data, offset).Err? ==> NameDiagnostic(NameDecoding(data, offset).error)
  {
    hide LabelScan, LabelsEncoding, Split, Join;
    ScanDiagnostic(data, offset);
    var scan := LabelScan(data, offset);
    if scan.Ok? {
      LabelsEncodingDiagnostic(Split(Join(scan.value.0)));
    }
  }

  // ---- one record ----

  /** The octets of an owner field: the reference to the question, or a name in full. */
  ghost predicate IsOwner(field: Bytes) {
    field == QUESTION_REFERENCE || exists owner :: Canonical(owner) && field == Wire(owner)
  }

  /** A record of the question's type whose payload has not the size of an address. */
  ghost predicate Missized(slice: Bytes, field: Bytes, payload: Bytes, q: Query)
    requires U16Value(q.questionType)
  {
    && IsOwner(field)
    && U16Value(|payload|) && |payload| != AddressSize(q.questionType)
    && slice == field + (RecordFields(q.questionType, |payload|) + payload)
  }

  ghost predicate MissizedRecord(slice: Bytes, q: Query)
    requires U16Value(q.questionType)
  {
    exists field, payload :: Missized(slice, field, payload, q)
  }

  lemma {:induction false} OwnerFieldDecodes(data: Bytes, offset: nat, field: Bytes, q: Query)
    requires Canonical(q.name) && IsOwner(field)
    requires offset + |field| <= |data| && data[offset..offset + |field|] == field
    ensures OwnerDecoding(data, offset, q.name).Ok? && OwnerDecoding(data, offset, q.name).value.1 == offset + |field|
  {
    hide OwnerDecoding, Canonical, Wire;
    if field == QUESTION_REFERENCE {
      OwnerWireDecodes(data, offset, Cname(q.name, q.name), true, q.name);
    } else {
      var owner :| Canonical(owner) && field == Wire(owner);
      OwnerWireDecodes(data, offset, Cname(owner, owner), false, q.name);
    }
  }

  lemma {:induction false} MissizedRefused(data: Bytes, offset: nat, end: nat, field: Bytes, payload: Bytes, q: Query)
    requires WellFormed(q) && offset <= end <= |data| && Missized(data[offset..end], field, payload, q)
    ensures RecordAt(data, offset, q) == Err(AddressAmbiguous)
  {
    hide OwnerDecoding, NameDecoding, RecordFields, U16, U32, IsOwner, WellFormed;
    QuestionTypes(q);
    var fields := RecordFields(q.questionType, |payload|);
    var at := offset + |field|;
    SliceSplit(data, offset, field, fields + payload);
    SliceSplit(data, at, fields, payload);
    OwnerFieldDecodes(data, offset, field, q);
    FieldsAt(data, at, q.questionType, |payload|);
  }

  lemma {:induction false} QuestionTypes(q: Query)
    requires WellFormed(q)
    ensures Canonical(q.name) && q.questionType in {TYPE_A, TYPE_AAAA}
  {
  }

  lemma {:induction false} RefusedIsMissized(data: Bytes, offset: nat, q: Query) returns (end: nat)
    requires WellFormed(q) && RecordAt(data, offset, q) == Err(AddressAmbiguous)
    ensures offset <= end <= |data| && MissizedRecord(data[offset..end], q)
  {
    hide OwnerDecoding, NameDecoding, RecordFields, U16, U32, WellFormed, Canonical, Wire;
    QuestionTypes(q);
    OwnerDiagnostic(data, offset, q.name);
    var (owner, at) := OwnerDecoding(data, offset, q.name).value;
    DecodedOwner(data, offset, q.name);
    var start := at + 10;
    end := start + U16(data, at + 8);
    var payload := data[start..end];
    NameDecodingDiagnostic(payload, 0);
    FieldsInverse(data, at);
    assert data[offset..end] == data[offset..at] + (data[at..start] + payload);
    assert Missized(data[offset..end], data[offset..at], payload, q);
  }

  lemma {:induction false} OwnerDiagnostic(data: Bytes, offset: nat, questionName: Text)
    ensures OwnerDecoding(data, offset, questionName).Err? ==> NameDiagnostic(OwnerDecoding(data, offset, questionName).error)
  {
    hide NameDecoding;
    NameDecodingDiagnostic(data, offset);
  }

  // ---- the answer section ----

  /** An address record whose owner is already there, or a record of the question's type with a wrong size. */
  ghost predicate Clashes(slice: Bytes, inventory: Inventory, q: Query)
    requires U16Value(q.questionType)
  {
    || MissizedRecord(slice, q)
    || exists a: Answer :: a.Address? && Encodes(slice, a, q) && Owned(inventory, a.owner)
  }

  /** Scanning in two stretches. */
  lemma {:induction false} ScanSplit(data: Bytes, offset: nat, first: nat, second: nat, q: Query, inventory: Inventory)
    requires AnswerScan(data, offset, first, q, inventory).Ok?
    ensures var (grown, next) := AnswerScan(data, offset, first, q, inventory).value;
            AnswerScan(data, offset, first + second, q, inventory) == AnswerScan(data, next, second, q, grown)
    decreases first
  {
    hide RecordAt, Insert;
    if first > 0 {
      AnswerScanStep(data, offset, first, q, inventory);
      AnswerScanStep(data, offset, first + second, q, inventory);
      var record := RecordAt(data, offset, q).value;
      ScanSplit(data, record.1, first - 1, second, q, Insert(inventory, record.0).value);
    }
  }

  lemma {:induction false} ClashRefused(data: Bytes, offset: nat, end: nat, count: nat, q: Query, inventory: Inventory)
    requires WellFormed(q) && U16Value(q.questionType) && offset <= end <= |data| && count > 0
    requires Clashes(data[offset..end], inventory, q)
    ensures AnswerScan(data, offset, count, q, inventory) == Err(AddressAmbiguous)
  {
    hide RecordAt, WellFormed, Encodes, Missized, AnswerScan;
    AnswerScanStep(data, offset, count, q, inventory);
    if MissizedRecord(data[offset..end], q) {
      var field, payload :| Missized(data[offset..end], field, payload, q);
      MissizedRefused(data, offset, end, field, payload, q);
    } else {
      var a: Answer :| a.Address? && Encodes(data[offset..end], a, q) && Owned(inventory, a.owner);
      RecordAtExact(data, offset, q, a, end);
    }
  }

  /** A scan that ends in an ambiguous address has read some records and stands before the clashing one. */
  lemma {:induction false} RefusedScan(data: Bytes, offset: nat, count: nat, q: Query, inventory: Inventory)
    returns (slices: seq<Bytes>, answers: seq<Answer>, at: nat, end: nat)
    requires WellFormed(q) && U16Value(q.questionType) && offset <= |data|
    requires AnswerScan(data, offset, count, q, inventory) == Err(AddressAmbiguous)
    ensures EncodesAll(slices, answers, q) && |slices| < count
    ensures offset <= at <= end <= |data| && data[offset..at] == Concat(slices)
    ensures InsertAll(inventory, answers).Ok? && Clashes(data[at..end], InsertAll(inventory, answers).value, q)
    decreases count
  {
    hide RecordAt, WellFormed, Encodes, MissizedRecord, AnswerScan;
    assert count > 0 by { NoRecords(data, offset, q, inventory); }
    AnswerScanStep(data, offset, count, q, inventory);
    if RecordAt(data, offset, q).Err? {
      slices, answers, at := [], [], offset;
      end := RefusedIsMissized(data, offset, q);
    } else {
      var (a, next) := RecordAt(data, offset, q).value;
      RecordAtExact(data, offset, q, a, next);
      if Insert(inventory, a).Err? {
        slices, answers, at, end := [], [], offset, next;
      } else {
        var restSlices, restAnswers;
        restSlices, restAnswers, at, end := RefusedScan(data, next, count - 1, q, Insert(inventory, a).value);
        slices, answers := [data[offset..next]] + restSlices, [a] + restAnswers;
        assert slices[1..] == restSlices && answers[1..] == restAnswers;
        assert data[offset..at] == data[offset..next] + data[next..at];
      }
    }
  }

  lemma {:induction false} NoRecords(data: Bytes, offset: nat, q: Query, inventory: Inventory)
    ensures AnswerScan(data, offset, 0, q, inventory).Ok?
  {
  }

  // ---- whole responses ----

  /**
   * The head announces `count` answers; `slices` are records of distinct owners, fewer than announced; the next
   * record, `last`, is of the question's type with a wrong size, or is an address of an owner already named.
   */
  ghost predicate AmbiguousParts(q: Query, response: Bytes, count: nat, slices: seq<Bytes>, answers: seq<Answer>,
      last: Bytes, more: Bytes)
  {
    && WellFormed(q) && U16Value(q.questionType) && U16Value(count)
    && |response| <= MAX_PACKET_BYTES
    && |slices| < count && EncodesAll(slices, answers, q) && DistinctOwners(answers)
    && response == ResponseHead(q, count) + (Concat(slices) + (last + more))
    && (MissizedRecord(last, q)
        || exists a: Answer :: a.Address? && Encodes(last, a, q) && exists i :: 0 <= i < |answers| && answers[i].owner == a.owner)
  }

  ghost predicate AmbiguousResponse(q: Query, response: Bytes) {
    exists count: nat, slices, answers, last, more :: AmbiguousParts(q, response, count, slices, answers, last, more)
  }

  /** After entering answers into an empty inventory, exactly their owners are there. */
  lemma {:induction false} OwnedAnswers(answers: seq<Answer>, owner: Text)
    requires InsertAll(EMPTY, answers).Ok?
    ensures Owned(InsertAll(EMPTY, answers).value, owner) <==> exists i :: 0 <= i < |answers| && answers[i].owner == owner
  {
    InsertAllExact(EMPTY, answers);
    var inventory := InsertAll(EMPTY, answers).value;
    if owner in inventory.cnames {
      assert Stored(inventory, Cname(owner, inventory.cnames[owner]));
    }
    if owner in inventory.addresses {
      assert Stored(inventory, Address(owner, inventory.addresses[owner]));
    }
    forall i | 0 <= i < |answers| ensures Stored(inventory, answers[i]) {
      assert answers[i] in answers;
    }
  }

  lemma {:induction false} EmptyOwnsNothing(answers: seq<Answer>)
    ensures InsertAll(EMPTY, answers).Ok? <==> DistinctOwners(answers)
  {
    InsertAllExact(EMPTY, answers);
  }

  lemma {:induction false} AmbiguousRefused(queryData: Bytes, q: Query, response: Bytes, allowCname: bool,
      requireDeclared: bool, count: nat, slices: seq<Bytes>, answers: seq<Answer>, last: Bytes, more: Bytes)
    requires ParseQuery(queryData) == Ok(q) && AmbiguousParts(q, response, count, slices, answers, last, more)
    ensures Validation(queryData, response, allowCname, requireDeclared) == Err(AddressAmbiguous)
  {
    hide ParseQuery, HeaderCheck, AnswerScan, Conclusion, WellFormed, Encodes, MissizedRecord, DistinctOwners,
        InsertAll;
    var head, records := ResponseHead(q, count), Concat(slices);
    var start, at := |head|, |head| + |records|;
    var end := at + |last|;
    assert response[..start] == head;
    assert response[start..at] == records;
    assert response[at..end] == last;
    HeaderCheckExact(q, response, count);
    ScanConcat(response, start, slices, answers, q, EMPTY);
    EmptyOwnsNothing(answers);
    var inventory := InsertAll(EMPTY, answers).value;
    ScanSplit(response, start, |slices|, count - |slices|, q, EMPTY);
    if !MissizedRecord(last, q) {
      var a: Answer :| a.Address? && Encodes(last, a, q) && exists i :: 0 <= i < |answers| && answers[i].owner == a.owner;
      OwnedAnswers(answers, a.owner);
    }
    ClashRefused(response, at, end, count - |slices|, q, inventory);
  }

  lemma {:induction false} RefusedIsAmbiguous(queryData: Bytes, q: Query, response: Bytes, allowCname: bool,
      requireDeclared: bool)
    requires ParseQuery(queryData) == Ok(q)
    requires Validation(queryData, response, allowCname, requireDeclared) == Err(AddressAmbiguous)
    ensures AmbiguousResponse(q, response)
  {
    hide ParseQuery, HeaderCheck, AnswerScan, Conclusion, WellFormed, Encodes, MissizedRecord, DistinctOwners,
        InsertAll, ResponseHead;
    ParsedQueryPacket(queryData);
    QuestionTypes(q);
    HeaderNeverAmbiguous(q, response);
    var count := HeaderCheck(q, response).value;
    HeaderCheckExact(q, response, count);
    var start := 12 + |q.questionBytes|;
    var scan := AnswerScan(response, start, count, q, EMPTY);
    if scan.Ok? {
      ConclusionNeverAmbiguous(q, scan.value.0, allowCname, requireDeclared);
    }
    var slices, answers, at, end := RefusedScan(response, start, count, q, EMPTY);
    EmptyOwnsNothing(answers);
    var last, more := response[at..end], response[end..];
    assert response == response[..start] + (response[start..at] + (last + more));
    if !MissizedRecord(last, q) {
      var a: Answer :| a.Address? && Encodes(last, a, q) && Owned(InsertAll(EMPTY, answers).value, a.owner);
      OwnedAnswers(answers, a.owner);
    }
    assert AmbiguousParts(q, response, count, slices, answers, last, more);
  }

  lemma {:induction false} HeaderNeverAmbiguous(q: Query, response: Bytes)
    ensures HeaderCheck(q, response) != Err(AddressAmbiguous)
  {
  }

  lemma {:induction false} WalkNeverAmbiguous(cnames: map<Text, Text>, chain: seq<Text>, allowCname: bool)
    requires 1 <= |chain| <= MAX_CHAIN
    ensures ChainWalk(cnames, chain, allowCname) != Err(AddressAmbiguous)
    decreases MAX_CHAIN - |chain|
  {
    var current := chain[|chain| - 1];
    if current in cnames && allowCname && cnames[current] !in chain && |chain| < MAX_CHAIN {
      WalkNeverAmbiguous(cnames, chain + [cnames[current]], allowCname);
    }
  }

  lemma {:induction false} ConclusionNeverAmbiguous(q: Query, inventory: Inventory, allowCname: bool,
      requireDeclared: bool)
    ensures Conclusion(q, inventory, allowCname, requireDeclared) != Err(AddressAmbiguous)
  {
    hide TestName, ChainWalk;
    WalkNeverAmbiguous(inventory.cnames, [q.name], allowCname);
  }

  /** A response to an accepted query is refused as an ambiguous address if and only if it has that shape. */
  lemma {:induction false} AddressAmbiguousExact(queryData: Bytes, response: Bytes, allowCname: bool,
      requireDeclared: bool)
    requires ParseQuery(queryData).Ok?
    ensures Validation(queryData, response, allowCname, requireDeclared) == Err(AddressAmbiguous)
       <==> AmbiguousResponse(ParseQuery(queryData).value, response)
  {
    hide ParseQuery, Validation, AmbiguousParts;
    var q := ParseQuery(queryData).value;
    if Validation(queryData, response, allowCname, requireDeclared) == Err(AddressAmbiguous) {
      RefusedIsAmbiguous(queryData, q, response, allowCname, requireDeclared);
    }
    if AmbiguousResponse(q, response) {
      var count: nat, slices, answers, last, more :| AmbiguousParts(q, response, count, slices, answers, last, more);
      AmbiguousRefused(queryData, q, response, allowCname, requireDeclared, count, slices, answers, last, more);
    }
  }
}
