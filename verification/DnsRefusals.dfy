/** Which refusal a response to an accepted query gets, from its octets and from the answers it carries. */
module DnsRefusals {
  import opened Common
  import opened DnsNames
  import opened DnsMessages
  import opened DnsValidation
  import opened DnsExactness
  import opened DnsAcceptance
  import opened DnsAmbiguity

  // ---- queries ----

  predicate QueryHeaderInGrammar(data: Bytes)
    requires |data| >= 12
  {
    && U16(data, 0) != 0 && U16(data, 2) in {0, 0x100}
    && U16(data, 4) == 1 && U16(data, 6) == 0 && U16(data, 8) == 0 && U16(data, 10) == 0
  }

  /** A canonical name stands behind the header and ends at `end`. */
  ghost predicate NamedUpTo(data: Bytes, end: nat) {
    12 <= end <= |data| && exists name :: Canonical(name) && data[12..end] == Wire(name)
  }

  /** The refusals of a query, each exactly when. */
  lemma {:induction false} QueryRefusals(data: Bytes)
    ensures ParseQuery(data) == Err(QuerySize) <==> !RightSize(data)
    ensures ParseQuery(data) == Err(QueryHeader) <==> RightSize(data) && !QueryHeaderInGrammar(data)
    ensures ParseQuery(data) == Err(QuestionFields)
       <==> RightSize(data) && QueryHeaderInGrammar(data) && exists end: nat :: NamedUpTo(data, end) && end + 4 != |data|
    ensures ParseQuery(data) == Err(QuestionTypeOrClass)
       <==> RightSize(data) && QueryHeaderInGrammar(data)
            && exists end: nat :: NamedUpTo(data, end) && end + 4 == |data| && !(U16(data, end) in {1, 28} && U16(data, end + 2) == 1)
  {
    hide NameDecoding, U16, Wire, Canonical;
    if RightSize(data) && QueryHeaderInGrammar(data) {
      NameDecodingDiagnostic(data, 12);
      var decoded := NameDecoding(data, 12);
      forall end: nat ensures NamedUpTo(data, end) <==> decoded.Ok? && decoded.value.1 == end {
        NamedExact(data, end);
      }
      if decoded.Ok? {
        assert NamedUpTo(data, decoded.value.1);
      }
    }
  }

  lemma {:induction false} NamedExact(data: Bytes, end: nat)
    ensures NamedUpTo(data, end) <==> NameDecoding(data, 12).Ok? && NameDecoding(data, 12).value.1 == end
  {
    hide NameDecoding, Wire, Canonical;
    if NameDecoding(data, 12).Ok? {
      NameDecodingExact(data, 12, NameDecoding(data, 12).value.0, NameDecoding(data, 12).value.1);
    }
    if NamedUpTo(data, end) {
      var name :| Canonical(name) && data[12..end] == Wire(name);
      NameDecodingExact(data, 12, name, end);
    }
  }

  // ---- the header ----

  predicate RightSize(response: Bytes) {
    12 <= |response| <= 512
  }

  /** The flag words in the grammar: response, authoritative, recursion as asked; truncation and AD free. */
  predicate FlagsInGrammar(flags: int, recursionDesired: bool, truncated: bool, authenticated: bool) {
    flags == 0x8400 + (if recursionDesired then 0x100 else 0) + (if truncated then 0x200 else 0) + (if authenticated then 0x20 else 0)
  }

  predicate HeaderInGrammar(q: Query, response: Bytes, truncated: bool, authenticated: bool)
    requires |response| >= 12
  {
    && U16(response, 0) == q.identifier
    && FlagsInGrammar(U16(response, 2), q.recursionDesired, truncated, authenticated)
    && U16(response, 4) == 1 && U16(response, 8) == 0 && U16(response, 10) == 0
  }

  predicate QuestionRepeated(q: Query, response: Bytes) {
    12 + |q.questionBytes| <= |response| && response[12..12 + |q.questionBytes|] == q.questionBytes
  }

  lemma {:induction false} FlagsExact(flags: int, recursionDesired: bool)
    requires U16Value(flags)
    ensures var inside := flags == RegisteredBits(flags) && Bit(flags, FLAG_QR) && Bit(flags, FLAG_AA) && Bit(flags, FLAG_RD) == recursionDesired;
            forall truncated, authenticated ::
              FlagsInGrammar(flags, recursionDesired, truncated, authenticated)
              <==> inside && Bit(flags, FLAG_TC) == truncated && Bit(flags, FLAG_AD) == authenticated
  {
    forall truncated, authenticated
      ensures FlagsInGrammar(flags, recursionDesired, truncated, authenticated)
         <==> flags == RegisteredBits(flags) && Bit(flags, FLAG_QR) && Bit(flags, FLAG_AA) && Bit(flags, FLAG_RD) == recursionDesired
              && Bit(flags, FLAG_TC) == truncated && Bit(flags, FLAG_AD) == authenticated
    {
      FlagWord(flags, recursionDesired, truncated, authenticated);
    }
  }

  lemma {:induction false} FlagWord(flags: int, recursionDesired: bool, truncated: bool, authenticated: bool)
    requires U16Value(flags)
    ensures FlagsInGrammar(flags, recursionDesired, truncated, authenticated)
       <==> flags == RegisteredBits(flags) && Bit(flags, FLAG_QR) && Bit(flags, FLAG_AA) && Bit(flags, FLAG_RD) == recursionDesired
            && Bit(flags, FLAG_TC) == truncated && Bit(flags, FLAG_AD) == authenticated
  {
  }

  /** The six refusals of the header, each exactly when; otherwise the count is read. */
  lemma {:induction false} HeaderRefusals(q: Query, response: Bytes)
    ensures HeaderCheck(q, response) == Err(ResponseSize) <==> !RightSize(response)
    ensures HeaderCheck(q, response) == Err(ResponseHeader)
       <==> RightSize(response) && forall t, a :: !HeaderInGrammar(q, response, t, a)
    ensures HeaderCheck(q, response) == Err(DnssecAssertion)
       <==> RightSize(response) && exists t :: HeaderInGrammar(q, response, t, true)
    ensures HeaderCheck(q, response) == Err(QuestionIdentity)
       <==> RightSize(response) && (exists t :: HeaderInGrammar(q, response, t, false)) && !QuestionRepeated(q, response)
    ensures HeaderCheck(q, response) == Err(TcpFallbackRequired)
       <==> RightSize(response) && HeaderInGrammar(q, response, true, false) && QuestionRepeated(q, response)
            && U16(response, 6) == 0 && |response| == 12 + |q.questionBytes|
    ensures HeaderCheck(q, response) == Err(TruncatedAmbiguous)
       <==> RightSize(response) && HeaderInGrammar(q, response, true, false) && QuestionRepeated(q, response)
            && !(U16(response, 6) == 0 && |response| == 12 + |q.questionBytes|)
    ensures HeaderCheck(q, response).Ok?
       <==> RightSize(response) && HeaderInGrammar(q, response, false, false) && QuestionRepeated(q, response)
  {
    hide RegisteredBits, Bit, U16, FlagsInGrammar;
    if RightSize(response) {
      var flags := U16(response, 2);
      FlagsExact(flags, q.recursionDesired);
      var t, a := Bit(flags, FLAG_TC), Bit(flags, FLAG_AD);
      if exists t, a :: HeaderInGrammar(q, response, t, a) {
        assert HeaderInGrammar(q, response, t, a);
      }
      assert HeaderInGrammar(q, response, t, true) <==> HeaderInGrammar(q, response, t, a) && a;
      assert HeaderInGrammar(q, response, t, false) <==> HeaderInGrammar(q, response, t, a) && !a;
    }
  }

  // ---- one record ----

  /** Class 1, time to live 1, and the announced payload within the packet. */
  predicate MetadataInGrammar(data: Bytes, at: nat) {
    at + 10 <= |data| && U16(data, at + 2) == 1 && U32(data, at + 4) == 1 && at + 10 + U16(data, at + 8) <= |data|
  }

  /** A canonical name stands at the start of the payload, and octets follow it. */
  ghost predicate NameAndMore(payload: Bytes) {
    exists name :: Canonical(name) && |Wire(name)| < |payload| && payload[..|Wire(name)|] == Wire(name)
  }

  /** The refusals of a record behind a readable owner, each exactly when. */
  lemma {:induction false} RecordRefusals(data: Bytes, offset: nat, field: Bytes, q: Query)
    requires WellFormed(q) && IsOwner(field) && offset + |field| <= |data| && data[offset..offset + |field|] == field
    ensures var at, record := offset + |field|, RecordAt(data, offset, q);
            && (record == Err(AnswerTruncated) <==> |data| < at + 10)
            && (record == Err(AnswerMetadata) <==> at + 10 <= |data| && !MetadataInGrammar(data, at))
            && (record == Err(AnswerType) <==> MetadataInGrammar(data, at) && U16(data, at) != 5 && U16(data, at) != q.questionType)
            && (record == Err(CnameAmbiguous) <==>
                  MetadataInGrammar(data, at) && U16(data, at) == 5 && NameAndMore(data[at + 10..at + 10 + U16(data, at + 8)]))
  {
    hide OwnerDecoding, NameDecoding, U16, U32, WellFormed, NameAndMore;
    QuestionTypes(q);
    OwnerFieldDecodes(data, offset, field, q);
    var at := offset + |field|;
    if MetadataInGrammar(data, at) {
      var payload := data[at + 10..at + 10 + U16(data, at + 8)];
      NameDecodingDiagnostic(payload, 0);
      NameAndMoreExact(payload);
    }
  }

  lemma {:induction false} NameAndMoreExact(payload: Bytes)
    ensures NameAndMore(payload) <==> NameDecoding(payload, 0).Ok? && NameDecoding(payload, 0).value.1 != |payload|
  {
    hide NameDecoding, Canonical, Wire;
    if NameDecoding(payload, 0).Ok? {
      var (name, end) := NameDecoding(payload, 0).value;
      NameDecodingExact(payload, 0, name, end);
      assert payload[0..end] == payload[..end];
    }
    if NameAndMore(payload) {
      var name :| Canonical(name) && |Wire(name)| < |payload| && payload[..|Wire(name)|] == Wire(name);
      assert payload[0..|Wire(name)|] == payload[..|Wire(name)|];
      NameDecodingExact(payload, 0, name, |Wire(name)|);
    }
  }

  // ---- after the header ----

  predicate HeaderError(e: DnsError) {
    e in {ResponseSize, ResponseHeader, DnssecAssertion, QuestionIdentity, TcpFallbackRequired, TruncatedAmbiguous}
  }

  predicate ChainError(e: DnsError) {
    e in {CnameDisallowed, CnameLoopOrDepth, AnswerInventory, TerminalService, TerminalAddress}
  }

  /** An error of reading the records: neither of the header, nor of the chain, nor the trailing octets. */
  lemma {:induction false} RecordErrors(data: Bytes, offset: nat, count: nat, q: Query, inventory: Inventory)
    ensures var scan := AnswerScan(data, offset, count, q, inventory);
            scan.Err? ==> !HeaderError(scan.error) && !ChainError(scan.error) && scan.error != TrailingBytes
    decreases count
  {
    hide RecordAt;
    if count > 0 {
      OneRecordError(data, offset, q);
      var record := RecordAt(data, offset, q);
      if record.Ok? {
        var grown := Insert(inventory, record.value.0);
        if grown.Ok? {
          RecordErrors(data, record.value.1, count - 1, q, grown.value);
        }
      }
    }
  }

  lemma {:induction false} OneRecordError(data: Bytes, offset: nat, q: Query)
    ensures var record := RecordAt(data, offset, q);
            record.Err? ==> !HeaderError(record.error) && !ChainError(record.error) && record.error != TrailingBytes
  {
    hide OwnerDecoding, NameDecoding, U16, U32;
    OwnerDiagnostic(data, offset, q.name);
    var owner := OwnerDecoding(data, offset, q.name);
    if owner.Ok? {
      var start := owner.value.1 + 10;
      if start <= |data| {
        var size := U16(data, start - 2);
        if start + size <= |data| {
          NameDecodingDiagnostic(data[start..start + size], 0);
        }
      }
    }
  }

  lemma {:induction false} HeaderErrors(q: Query, response: Bytes)
    ensures HeaderCheck(q, response).Err? ==> HeaderError(HeaderCheck(q, response).error)
  {
    hide RegisteredBits, Bit, U16;
  }

  lemma {:induction false} WalkErrors(cnames: map<Text, Text>, chain: seq<Text>, allowCname: bool)
    requires 1 <= |chain| <= MAX_CHAIN
    ensures var walk := ChainWalk(cnames, chain, allowCname); walk.Err? ==> walk.error in {CnameDisallowed, CnameLoopOrDepth}
    decreases MAX_CHAIN - |chain|
  {
    var current := chain[|chain| - 1];
    if current in cnames && allowCname && cnames[current] !in chain && |chain| < MAX_CHAIN {
      WalkErrors(cnames, chain + [cnames[current]], allowCname);
    }
  }

  lemma {:induction false} ConclusionErrors(q: Query, inventory: Inventory, allowCname: bool, requireDeclared: bool)
    ensures var c := Conclusion(q, inventory, allowCname, requireDeclared); c.Err? ==> ChainError(c.error)
  {
    hide TestName, ChainWalk;
    WalkErrors(inventory.cnames, [q.name], allowCname);
  }

  /** A header refusal of the whole response is a refusal of its header, whatever the flags of the caller. */
  lemma {:induction false} HeaderRefusalExact(queryData: Bytes, response: Bytes, allowCname: bool,
      requireDeclared: bool, e: DnsError)
    requires ParseQuery(queryData).Ok? && HeaderError(e)
    ensures Validation(queryData, response, allowCname, requireDeclared) == Err(e)
       <==> HeaderCheck(ParseQuery(queryData).value, response) == Err(e)
  {
    hide ParseQuery, HeaderCheck, AnswerScan, Conclusion;
    var q := ParseQuery(queryData).value;
    var count := HeaderCheck(q, response);
    if count.Ok? {
      var end := 12 + |q.questionBytes|;
      RecordErrors(response, end, count.value, q, EMPTY);
      var scan := AnswerScan(response, end, count.value, q, EMPTY);
      if scan.Ok? {
        ConclusionErrors(q, scan.value.0, allowCname, requireDeclared);
      }
    }
  }

  /** The registered head, then as many records as announced, of distinct owners, then `more`. */
  ghost predicate Section(q: Query, response: Bytes, slices: seq<Bytes>, answers: seq<Answer>, more: Bytes) {
    && WellFormed(q) && U16Value(|slices|) && |response| <= 512
    && EncodesAll(slices, answers, q) && DistinctOwners(answers)
    && response == ResponseHead(q, |slices|) + (Concat(slices) + more)
  }

  lemma {:induction false} SectionScans(queryData: Bytes, q: Query, response: Bytes, slices: seq<Bytes>,
      answers: seq<Answer>, more: Bytes, allowCname: bool, requireDeclared: bool)
    requires ParseQuery(queryData) == Ok(q) && Section(q, response, slices, answers, more)
    ensures InsertAll(EMPTY, answers).Ok?
    ensures Validation(queryData, response, allowCname, requireDeclared)
         == if more != [] then Err(TrailingBytes) else Conclusion(q, InsertAll(EMPTY, answers).value, allowCname, requireDeclared)
  {
    hide ParseQuery, HeaderCheck, AnswerScan, Conclusion, WellFormed, Encodes, DistinctOwners, InsertAll;
    var head, records := ResponseHead(q, |slices|), Concat(slices);
    var start := |head|;
    assert response[..start] == head;
    assert response[start..start + |records|] == records;
    HeaderCheckExact(q, response, |slices|);
    ScanConcat(response, start, slices, answers, q, EMPTY);
    EmptyOwnsNothing(answers);
  }

  lemma {:induction false} ScannedIsSection(queryData: Bytes, q: Query, response: Bytes, allowCname: bool,
      requireDeclared: bool)
    returns (slices: seq<Bytes>, answers: seq<Answer>, more: Bytes)
    requires ParseQuery(queryData) == Ok(q)
    requires var v := Validation(queryData, response, allowCname, requireDeclared);
             v.Err? && (v.error == TrailingBytes || ChainError(v.error))
    ensures Section(q, response, slices, answers, more)
  {
    hide ParseQuery, HeaderCheck, AnswerScan, Conclusion, WellFormed, Encodes, DistinctOwners, InsertAll, ResponseHead;
    ParsedQueryPacket(queryData);
    HeaderErrors(q, response);
    var count := HeaderCheck(q, response).value;
    HeaderCheckExact(q, response, count);
    var start := 12 + |q.questionBytes|;
    RecordErrors(response, start, count, q, EMPTY);
    slices, answers := ScanDecomposes(response, start, count, q, EMPTY);
    var end := AnswerScan(response, start, count, q, EMPTY).value.1;
    more := response[end..];
    EmptyOwnsNothing(answers);
    assert response == response[..start] + (response[start..end] + more);
  }

  /** Octets are left over if and only if the announced records are all there and something follows them. */
  lemma {:induction false} TrailingBytesExact(queryData: Bytes, response: Bytes, allowCname: bool,
      requireDeclared: bool)
    requires ParseQuery(queryData).Ok?
    ensures Validation(queryData, response, allowCname, requireDeclared) == Err(TrailingBytes)
       <==> exists slices, answers, more :: Section(ParseQuery(queryData).value, response, slices, answers, more) && more != []
  {
    hide ParseQuery, Validation, Section, InsertAll;
    var q := ParseQuery(queryData).value;
    if Validation(queryData, response, allowCname, requireDeclared) == Err(TrailingBytes) {
      var slices, answers, more := ScannedIsSection(queryData, q, response, allowCname, requireDeclared);
      SectionScans(queryData, q, response, slices, answers, more, allowCname, requireDeclared);
      ConclusionErrors(q, InsertAll(EMPTY, answers).value, allowCname, requireDeclared);
      assert more != [];
    }
    forall slices, answers, more | Section(q, response, slices, answers, more) && more != []
      ensures Validation(queryData, response, allowCname, requireDeclared) == Err(TrailingBytes)
    {
      SectionScans(queryData, q, response, slices, answers, more, allowCname, requireDeclared);
    }
  }

  // ---- the chain ----

  /** The aliases lead from the question's name along the chain, without repeats and at most four names, and stop there. */
  ghost predicate Leads(q: Query, answers: seq<Answer>, chain: seq<Text>) {
    && 1 <= |chain| <= 4 && chain[0] == q.name && DistinctNames(chain)
    && (forall i :: 0 <= i < |chain| - 1 ==> Cname(chain[i], chain[i + 1]) in answers)
    && (forall a :: a in answers && a.Cname? ==> a.owner != chain[|chain| - 1])
  }

  /** The answers are the chain's aliases and one address of its last name, and nothing else. */
  ghost predicate Exactly(answers: seq<Answer>, chain: seq<Text>, address: Bytes) {
    multiset(answers) == multiset(ChainAnswers(chain, address))
  }

  lemma {:induction false} AliasesStored(inventory: Inventory, answers: seq<Answer>)
    requires InsertAll(EMPTY, answers) == Ok(inventory)
    ensures forall a :: Stored(inventory, a) <==> a in answers
    ensures forall owner :: owner in inventory.cnames <==> exists a :: a in answers && a.Cname? && a.owner == owner
    ensures DistinctOwners(answers)
  {
    InsertAllExact(EMPTY, answers);
    forall a ensures Stored(inventory, a) <==> a in answers {
      assert !Stored(EMPTY, a);
    }
    forall owner ensures owner in inventory.cnames <==> exists a :: a in answers && a.Cname? && a.owner == owner {
      if owner in inventory.cnames {
        assert Stored(inventory, Cname(owner, inventory.cnames[owner]));
      }
      if exists a :: a in answers && a.Cname? && a.owner == owner {
        var a :| a in answers && a.Cname? && a.owner == owner;
        assert Stored(inventory, a);
      }
    }
  }

  lemma {:induction false} LeadsIsPath(q: Query, inventory: Inventory, answers: seq<Answer>, chain: seq<Text>)
    requires InsertAll(EMPTY, answers) == Ok(inventory) && 1 <= |chain| <= 4 && chain[0] == q.name && DistinctNames(chain)
    ensures Leads(q, answers, chain) <==> Path(inventory.cnames, chain, 0)
  {
    hide InsertAll;
    AliasesStored(inventory, answers);
    forall i | 0 <= i < |chain| - 1
      ensures Cname(chain[i], chain[i + 1]) in answers <==> chain[i] in inventory.cnames && inventory.cnames[chain[i]] == chain[i + 1]
    {
      assert Stored(inventory, Cname(chain[i], chain[i + 1])) <==> Cname(chain[i], chain[i + 1]) in answers;
    }
    var last := chain[|chain| - 1];
    assert last in inventory.cnames <==> exists a :: a in answers && a.Cname? && a.owner == last;
    if Leads(q, answers, chain) {
      forall i | 0 <= i < |chain| - 1 ensures chain[i] in inventory.cnames && inventory.cnames[chain[i]] == chain[i + 1] {
        assert Cname(chain[i], chain[i + 1]) in answers;
      }
    }
    if Path(inventory.cnames, chain, 0) {
      forall i | 0 <= i < |chain| - 1 ensures Cname(chain[i], chain[i + 1]) in answers {
        assert chain[i] in inventory.cnames && inventory.cnames[chain[i]] == chain[i + 1];
      }
    }
  }

  /** The walk returns a chain if and only if the aliases lead along it, and it is alone or aliases are allowed. */
  lemma {:induction false} WalkExact(q: Query, inventory: Inventory, answers: seq<Answer>, allowCname: bool,
      chain: seq<Text>)
    requires InsertAll(EMPTY, answers) == Ok(inventory)
    ensures ChainWalk(inventory.cnames, [q.name], allowCname) == Ok(chain)
       <==> Leads(q, answers, chain) && (|chain| > 1 ==> allowCname)
  {
    hide InsertAll;
    if ChainWalk(inventory.cnames, [q.name], allowCname) == Ok(chain) {
      WalkSound(inventory.cnames, [q.name], allowCname);
      LeadsIsPath(q, inventory, answers, chain);
    }
    if Leads(q, answers, chain) && (|chain| > 1 ==> allowCname) {
      LeadsIsPath(q, inventory, answers, chain);
      WalkComplete(inventory.cnames, chain, 0, allowCname);
      assert chain[..1] == [q.name];
    }
  }

  lemma {:induction false} WalkDisallowed(q: Query, inventory: Inventory, allowCname: bool)
    ensures ChainWalk(inventory.cnames, [q.name], allowCname) == Err(CnameDisallowed) <==> !allowCname && q.name in inventory.cnames
  {
    if allowCname {
      WalkNeverDisallowed(inventory.cnames, [q.name]);
    }
  }

  lemma {:induction false} WalkNeverDisallowed(cnames: map<Text, Text>, chain: seq<Text>)
    requires 1 <= |chain| <= MAX_CHAIN
    ensures ChainWalk(cnames, chain, true) != Err(CnameDisallowed)
    decreases MAX_CHAIN - |chain|
  {
    var current := chain[|chain| - 1];
    if current in cnames && cnames[current] !in chain && |chain| < MAX_CHAIN {
      WalkNeverDisallowed(cnames, chain + [cnames[current]]);
    }
  }

  /** The two refusals of the walk: an alias where none is allowed, and aliases that lead to no end within four names. */
  lemma {:induction false} AliasRefusals(q: Query, answers: seq<Answer>, allowCname: bool, requireDeclared: bool)
    requires InsertAll(EMPTY, answers).Ok?
    ensures var c := Conclusion(q, InsertAll(EMPTY, answers).value, allowCname, requireDeclared);
            && (c == Err(CnameDisallowed) <==> !allowCname && exists a :: a in answers && a.Cname? && a.owner == q.name)
            && (c == Err(CnameLoopOrDepth) <==> allowCname && forall chain :: !Leads(q, answers, chain))
  {
    hide InsertAll, ChainWalk, TestName, Leads;
    var inventory := InsertAll(EMPTY, answers).value;
    AliasesStored(inventory, answers);
    WalkDisallowed(q, inventory, allowCname);
    var walk := ChainWalk(inventory.cnames, [q.name], allowCname);
    WalkErrors(inventory.cnames, [q.name], allowCname);
    forall chain ensures walk == Ok(chain) <==> Leads(q, answers, chain) && (|chain| > 1 ==> allowCname) {
      WalkExact(q, inventory, answers, allowCname, chain);
    }
    if walk.Ok? {
      assert Leads(q, answers, walk.value);
    } else if !allowCname && q.name !in inventory.cnames {
      WalkStays(q, inventory, allowCname);
    }
  }

  lemma {:induction false} WalkStays(q: Query, inventory: Inventory, allowCname: bool)
    requires q.name !in inventory.cnames
    ensures ChainWalk(inventory.cnames, [q.name], allowCname) == Ok([q.name])
  {
  }

  /** A walked chain is the whole inventory if and only if the answers are exactly its records for some address. */
  lemma {:induction false} InventoryExact(q: Query, inventory: Inventory, answers: seq<Answer>, chain: seq<Text>)
    requires InsertAll(EMPTY, answers) == Ok(inventory) && Leads(q, answers, chain)
    ensures var last := chain[|chain| - 1];
            var whole := inventory.cnames.Keys == Names(chain[..|chain| - 1]) && inventory.addresses.Keys == {last};
            && (whole ==> Exactly(answers, chain, inventory.addresses[last]))
            && (forall address :: Exactly(answers, chain, address) ==> whole && address == inventory.addresses[last])
  {
    hide InsertAll;
    AliasesStored(inventory, answers);
    LeadsIsPath(q, inventory, answers, chain);
    var last := chain[|chain| - 1];
    if inventory.cnames.Keys == Names(chain[..|chain| - 1]) && inventory.addresses.Keys == {last} {
      var address := inventory.addresses[last];
      InventoryChain(inventory, chain);
      ChainAnswersDistinct(chain, address);
      SameSetSameMultiset(answers, ChainAnswers(chain, address));
    }
    forall address | Exactly(answers, chain, address)
      ensures inventory.cnames.Keys == Names(chain[..|chain| - 1]) && inventory.addresses.Keys == {last} && address == inventory.addresses[last]
    {
      ExactInventory(inventory, answers, chain, address);
    }
  }

  lemma {:induction false} ExactInventory(inventory: Inventory, answers: seq<Answer>, chain: seq<Text>, address: Bytes)
    requires 1 <= |chain| && DistinctNames(chain) && Exactly(answers, chain, address)
    requires forall a :: Stored(inventory, a) <==> a in answers
    ensures inventory.cnames.Keys == Names(chain[..|chain| - 1]) && inventory.addresses.Keys == {chain[|chain| - 1]}
    ensures inventory.addresses[chain[|chain| - 1]] == address
  {
    hide Stored;
    forall a ensures Stored(inventory, a) <==> a in ChainAnswers(chain, address) {
      assert a in answers <==> a in multiset(answers);
      assert a in ChainAnswers(chain, address) <==> a in multiset(ChainAnswers(chain, address));
    }
    ChainInventory(inventory, chain, address);
  }

  /** A permitted chain that the aliases lead along. */
  ghost predicate Permitted(q: Query, answers: seq<Answer>, allowCname: bool, chain: seq<Text>) {
    Leads(q, answers, chain) && (|chain| > 1 ==> allowCname)
  }

  /** The three refusals after the walk: stray answers, an undeclared service, a changed address. */
  lemma {:induction false} TerminalRefusals(q: Query, answers: seq<Answer>, allowCname: bool, requireDeclared: bool)
    requires InsertAll(EMPTY, answers).Ok?
    ensures var c := Conclusion(q, InsertAll(EMPTY, answers).value, allowCname, requireDeclared);
            && (c == Err(AnswerInventory) <==>
                  exists chain :: Permitted(q, answers, allowCname, chain) && forall address :: !Exactly(answers, chain, address))
            && (c == Err(TerminalService) <==>
                  requireDeclared && exists chain, address ::
                    Permitted(q, answers, allowCname, chain) && Exactly(answers, chain, address)
                    && chain[|chain| - 1] != TestName("allowed"))
            && (c == Err(TerminalAddress) <==>
                  requireDeclared && exists chain, address ::
                    Permitted(q, answers, allowCname, chain) && Exactly(answers, chain, address)
                    && chain[|chain| - 1] == TestName("allowed") && address != AllowedAddress(q.questionType))
  {
    hide InsertAll, ChainWalk, TestName, Exactly, AllowedAddress, Leads;
    var inventory := InsertAll(EMPTY, answers).value;
    var walk := ChainWalk(inventory.cnames, [q.name], allowCname);
    WalkErrors(inventory.cnames, [q.name], allowCname);
    forall chain ensures walk == Ok(chain) <==> Permitted(q, answers, allowCname, chain) {
      WalkExact(q, inventory, answers, allowCname, chain);
    }
    if walk.Ok? {
      var chain := walk.value;
      LeadsSize(q, answers, chain);
      InventoryExact(q, inventory, answers, chain);
      var last := chain[|chain| - 1];
      if inventory.cnames.Keys == Names(chain[..|chain| - 1]) && inventory.addresses.Keys == {last} {
        assert Exactly(answers, chain, inventory.addresses[last]);
      }
    }
  }

  lemma {:induction false} LeadsSize(q: Query, answers: seq<Answer>, chain: seq<Text>)
    requires Leads(q, answers, chain)
    ensures 1 <= |chain| <= 4
  {
  }

  /** A whole response is refused by one of the five chain checks if and only if its answers are, and nothing trails them. */
  lemma {:induction false} ChainRefusalExact(queryData: Bytes, response: Bytes, allowCname: bool,
      requireDeclared: bool, e: DnsError)
    requires ParseQuery(queryData).Ok? && ChainError(e)
    ensures Validation(queryData, response, allowCname, requireDeclared) == Err(e)
       <==> exists slices, answers ::
              && Section(ParseQuery(queryData).value, response, slices, answers, [])
              && InsertAll(EMPTY, answers).Ok?
              && Conclusion(ParseQuery(queryData).value, InsertAll(EMPTY, answers).value, allowCname, requireDeclared) == Err(e)
  {
    hide ParseQuery, Validation, Section, InsertAll, Conclusion;
    var q := ParseQuery(queryData).value;
    if Validation(queryData, response, allowCname, requireDeclared) == Err(e) {
      var slices, answers, more := ScannedIsSection(queryData, q, response, allowCname, requireDeclared);
      SectionScans(queryData, q, response, slices, answers, more, allowCname, requireDeclared);
      assert more == [];
    }
    forall slices, answers | Section(q, response, slices, answers, []) && InsertAll(EMPTY, answers).Ok?
      ensures Validation(queryData, response, allowCname, requireDeclared)
           == Conclusion(q, InsertAll(EMPTY, answers).value, allowCname, requireDeclared)
    {
      SectionScans(queryData, q, response, slices, answers, [], allowCname, requireDeclared);
    }
  }
}
