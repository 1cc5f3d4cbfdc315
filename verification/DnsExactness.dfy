/**
 * What the validator accepts, stated without its loops: a response is accepted exactly when
 * it is the registered header, the question, and the records of one alias chain in any order.
 */
module DnsExactness {
  import opened Common
  import opened DnsNames
  import opened DnsMessages
  import opened DnsValidation

  // ---- one record ----

  /** An answer this query can receive. */
  predicate AnswerFits(a: Answer, q: Query) {
    AnswerWellFormed(a) && (a.Address? ==> |a.address| == AddressSize(q.questionType))
  }

  /** A slice is one of the (at most two) wire forms of an answer. */
  predicate Encodes(slice: Bytes, a: Answer, q: Query) {
    && AnswerFits(a, q)
    && (slice == RecordWire(a, false) || (a.owner == q.name && slice == RecordWire(a, true)))
  }

  /** Reading the fixed fields back. */
  lemma {:induction false} FieldsAt(data: Bytes, at: nat, recordType: int, size: int)
    requires U16Value(recordType) && U16Value(size)
    requires at + 10 <= |data| && data[at..at + 10] == RecordFields(recordType, size)
    ensures U16(data, at) == recordType && U16(data, at + 2) == CLASS_IN
    ensures U32(data, at + 4) == TTL && U16(data, at + 8) == size
  {
    var slice := data[at..at + 10];
    assert data[at] == slice[0] && data[at + 1] == slice[1] && data[at + 2] == slice[2] && data[at + 3] == slice[3];
    assert data[at + 4] == slice[4] && data[at + 5] == slice[5] && data[at + 6] == slice[6] && data[at + 7] == slice[7];
    assert data[at + 8] == slice[8] && data[at + 9] == slice[9];
    assert slice[..2] == PackU16(recordType) && slice[2..4] == PackU16(CLASS_IN);
    assert slice[4..8] == PackU32(TTL) && slice[8..10] == PackU16(size);
  }

  lemma {:induction false} FieldsInverse(data: Bytes, at: nat)
    requires at + 10 <= |data|
    requires U16(data, at + 2) == CLASS_IN && U32(data, at + 4) == TTL
    ensures data[at..at + 10] == RecordFields(U16(data, at), U16(data, at + 8))
  {
    U16Inverse(data, at);
    U16Inverse(data, at + 2);
    U32Inverse(data, at + 4);
    U16Inverse(data, at + 8);
    assert data[at..at + 10] == data[at..at + 2] + data[at + 2..at + 4] + data[at + 4..at + 8] + data[at + 8..at + 10];
  }

  lemma {:induction false} OwnerWireDecodes(data: Bytes, offset: nat, a: Answer, byReference: bool, questionName: Text)
    requires AnswerWellFormed(a) && (byReference ==> a.owner == questionName)
    requires offset + |OwnerBytes(a, byReference)| <= |data|
    requires data[offset..offset + |OwnerBytes(a, byReference)|] == OwnerBytes(a, byReference)
    ensures OwnerDecoding(data, offset, questionName) == Ok((a.owner, offset + |OwnerBytes(a, byReference)|))
  {
    if !byReference {
      WireShape(a.owner);
      DecodeWire(data, offset, a.owner, offset + |Wire(a.owner)|);
      assert data[offset] == data[offset..offset + |Wire(a.owner)|][0];
      assert data[offset] == data[offset..offset + 2][0];
      if data[offset..offset + 2] == QUESTION_REFERENCE {
        assert false;
      }
    }
  }

  lemma {:induction false} PayloadDecodes(a: Answer, q: Query)
    requires WellFormed(q) && AnswerFits(a, q)
    ensures PayloadAnswer(a.owner, RecordType(a), Payload(a), q) == Ok(a)
  {
    if a.Cname? {
      DecodeWire(Wire(a.target), 0, a.target, |Wire(a.target)|);
    }
  }

  /** A record laid out anywhere in a packet reads back as itself, whatever surrounds it. */
  lemma {:induction false} RecordWireDecodes(data: Bytes, offset: nat, a: Answer, byReference: bool, q: Query)
    requires WellFormed(q) && AnswerFits(a, q) && (byReference ==> a.owner == q.name)
    requires offset + |RecordWire(a, byReference)| <= |data|
    requires data[offset..offset + |RecordWire(a, byReference)|] == RecordWire(a, byReference)
    ensures RecordAt(data, offset, q) == Ok((a, offset + |RecordWire(a, byReference)|))
  {
    hide OwnerDecoding, PayloadAnswer, RecordFields, U16, U32, OwnerBytes, Payload, Canonical, WellFormed;
    var owner, payload := OwnerBytes(a, byReference), Payload(a);
    var fields := RecordFields(RecordType(a), |payload|);
    var at := offset + |owner|;
    SliceSplit(data, offset, owner, fields + payload);
    SliceSplit(data, at, fields, payload);
    OwnerWireDecodes(data, offset, a, byReference, q.name);
    FieldsAt(data, at, RecordType(a), |payload|);
    PayloadDecodes(a, q);
  }

  /** What the owner field of an accepted record is. */
  lemma {:induction false} DecodedOwner(data: Bytes, offset: nat, questionName: Text)
    requires Canonical(questionName) && OwnerDecoding(data, offset, questionName).Ok?
    ensures var (owner, end) := OwnerDecoding(data, offset, questionName).value;
            && Canonical(owner)
            && (data[offset..end] == Wire(owner) || (owner == questionName && data[offset..end] == QUESTION_REFERENCE))
  {
    if !(offset + 2 <= |data| && data[offset..offset + 2] == QUESTION_REFERENCE) {
      DecodedIsWire(data, offset);
    }
  }

  /** An owner is read up to an end exactly when its name stands there in full, or the reference to that name. */
  lemma {:induction false} OwnerDecodingExact(data: Bytes, offset: nat, questionName: Text, owner: Text, end: nat)
    requires Canonical(questionName)
    ensures OwnerDecoding(data, offset, questionName) == Ok((owner, end))
       <==> && offset <= end <= |data|
            && Canonical(owner)
            && (data[offset..end] == Wire(owner) || (owner == questionName && data[offset..end] == QUESTION_REFERENCE))
  {
    hide OwnerDecoding, Canonical, Wire;
    if OwnerDecoding(data, offset, questionName) == Ok((owner, end)) {
      DecodedOwner(data, offset, questionName);
    }
    if offset <= end <= |data| && Canonical(owner) {
      var a := Cname(owner, owner);
      if data[offset..end] == Wire(owner) {
        OwnerWireDecodes(data, offset, a, false, questionName);
      } else if owner == questionName && data[offset..end] == QUESTION_REFERENCE {
        OwnerWireDecodes(data, offset, a, true, questionName);
      }
    }
  }

  lemma {:induction false} DecodedPayload(owner: Text, recordType: int, payload: Bytes, q: Query)
    requires WellFormed(q) && Canonical(owner)
    requires PayloadAnswer(owner, recordType, payload, q).Ok?
    ensures var a := PayloadAnswer(owner, recordType, payload, q).value;
            AnswerFits(a, q) && a.owner == owner && RecordType(a) == recordType && Payload(a) == payload
  {
    if recordType == TYPE_CNAME {
      DecodedIsWire(payload, 0);
      assert payload[0..|payload|] == payload;
    }
  }

  lemma {:induction false} WellFormedName(q: Query)
    requires WellFormed(q)
    ensures Canonical(q.name)
  {
  }

  /** Every accepted record slice is a wire form of the answer it yields. */
  lemma {:induction false} DecodedRecordIsWire(data: Bytes, offset: nat, q: Query)
    requires WellFormed(q) && RecordAt(data, offset, q).Ok?
    ensures var (a, end) := RecordAt(data, offset, q).value;
            Encodes(data[offset..end], a, q)
  {
    hide OwnerDecoding, PayloadAnswer, RecordFields, U16, U32, Payload, Canonical, Wire, WellFormed;
    WellFormedName(q);
    var (a, end) := RecordAt(data, offset, q).value;
    var (owner, at) := OwnerDecoding(data, offset, q.name).value;
    var start := at + 10;
    DecodedOwner(data, offset, q.name);
    FieldsInverse(data, at);
    DecodedPayload(owner, U16(data, at), data[start..end], q);
    assert data[offset..end] == data[offset..at] + (data[at..start] + data[start..end]);
  }

  /** A record is accepted at an offset exactly when the slice there is a wire form of it. */
  lemma {:induction false} RecordAtExact(data: Bytes, offset: nat, q: Query, a: Answer, end: nat)
    requires WellFormed(q)
    ensures RecordAt(data, offset, q) == Ok((a, end))
       <==> offset <= end <= |data| && Encodes(data[offset..end], a, q)
  {
    hide RecordAt, RecordWire;
    if RecordAt(data, offset, q) == Ok((a, end)) {
      DecodedRecordIsWire(data, offset, q);
    }
    if offset <= end <= |data| && Encodes(data[offset..end], a, q) {
      var byReference := data[offset..end] != RecordWire(a, false);
      RecordWireDecodes(data, offset, a, byReference, q);
    }
  }
}
