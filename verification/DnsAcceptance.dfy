/** Acceptance of whole responses, its exact condition, and independence of answer order. */
module DnsAcceptance {
  import opened Common
  import opened DnsNames
  import opened DnsMessages
  import opened DnsValidation
  import opened DnsExactness

  // ---- the answer section as a list of answers ----

  predicate EncodesAll(slices: seq<Bytes>, answers: seq<Answer>, q: Query) {
    |slices| == |answers| && forall i :: 0 <= i < |slices| ==> Encodes(slices[i], answers[i], q)
  }

  /** Enter answers in order; the first repeated owner is the error. */
  function InsertAll(inventory: Inventory, answers: seq<Answer>): (r: Result<Inventory, DnsError>)
    decreases |answers|
  {
    if answers == [] then Ok(inventory)
    else
      var grown := Insert(inventory, answers[0]);
      if grown.Err? then grown else InsertAll(grown.value, answers[1..])
  }

  /** Scanning concatenated records is entering their answers. */
  lemma {:induction false} ScanConcat(data: Bytes, offset: nat, slices: seq<Bytes>, answers: seq<Answer>, q: Query,
      inventory: Inventory)
    requires WellFormed(q) && EncodesAll(slices, answers, q)
    requires offset + |Concat(slices)| <= |data|
    requires data[offset..offset + |Concat(slices)|] == Concat(slices)
    ensures var all := InsertAll(inventory, answers);
            AnswerScan(data, offset, |slices|, q, inventory)
            == if all.Err? then Err(all.error) else Ok((all.value, offset + |Concat(slices)|))
    decreases |slices|
  {
    hide RecordAt, Encodes, WellFormed, Insert;
    if slices != [] {
      var next := offset + |slices[0]|;
      SliceSplit(data, offset, slices[0], Concat(slices[1..]));
      RecordAtExact(data, offset, q, answers[0], next);
      var grown := Insert(inventory, answers[0]);
      if grown.Ok? {
        ScanConcat(data, next, slices[1..], answers[1..], q, grown.value);
      }
    }
  }

  /** A scanned answer section is a concatenation of records. */
  lemma {:induction false} ScanDecomposes(data: Bytes, offset: nat, count: nat, q: Query, inventory: Inventory)
    returns (slices: seq<Bytes>, answers: seq<Answer>)
    requires WellFormed(q) && offset <= |data|
    requires AnswerScan(data, offset, count, q, inventory).Ok?
    ensures EncodesAll(slices, answers, q) && |slices| == count
    ensures var (grown, end) := AnswerScan(data, offset, count, q, inventory).value;
            && InsertAll(inventory, answers) == Ok(grown)
            && offset <= end <= |data|
            && data[offset..end] == Concat(slices)
    decreases count
  {
    hide RecordAt, Encodes, WellFormed, Insert;
    if count == 0 {
      slices, answers := [], [];
    } else {
      var (a, next) := RecordAt(data, offset, q).value;
      RecordAtExact(data, offset, q, a, next);
      var grown := Insert(inventory, a).value;
      var restSlices, restAnswers := ScanDecomposes(data, next, count - 1, q, grown);
      var end := AnswerScan(data, offset, count, q, inventory).value.1;
      slices, answers := [data[offset..next]] + restSlices, [a] + restAnswers;
      assert slices[1..] == restSlices && answers[1..] == restAnswers;
      assert data[offset..end] == data[offset..next] + data[next..end];
    }
  }

  // ---- dictionaries as sets of answers ----

  predicate Stored(inventory: Inventory, a: Answer) {
    match a
    case Cname(owner, target) => owner in inventory.cnames && inventory.cnames[owner] == target
    case Address(owner, address) => owner in inventory.addresses && inventory.addresses[owner] == address
  }

  predicate Owned(inventory: Inventory, owner: Text) {
    owner in inventory.cnames || owner in inventory.addresses
  }

  predicate DistinctOwners(answers: seq<Answer>) {
    forall i, j :: 0 <= i < j < |answers| ==> answers[i].owner != answers[j].owner
  }

  /** Entering succeeds exactly when no owner repeats, and then stores exactly the answers. */
  lemma {:induction false} InsertAllExact(inventory: Inventory, answers: seq<Answer>)
    ensures InsertAll(inventory, answers).Ok?
       <==> DistinctOwners(answers) && forall i :: 0 <= i < |answers| ==> !Owned(inventory, answers[i].owner)
    ensures InsertAll(inventory, answers).Ok? ==>
              forall a :: Stored(InsertAll(inventory, answers).value, a) <==> Stored(inventory, a) || a in answers
    decreases |answers|
  {
    if answers != [] {
      var first, rest := answers[0], answers[1..];
      var grown := Insert(inventory, first);
      if grown.Ok? {
        InsertAllExact(grown.value, rest);
        assert forall i :: 0 <= i < |rest| ==> rest[i] == answers[i + 1];
        assert forall o :: Owned(grown.value, o) <==> Owned(inventory, o) || o == first.owner;
        assert forall a :: Stored(grown.value, a) <==> Stored(inventory, a) || a == first;
        DistinctOwnersCons(answers);
        assert forall a :: a in answers <==> a == first || a in rest;
      }
    }
  }

  lemma {:induction false} DistinctOwnersCons(answers: seq<Answer>)
    requires answers != []
    ensures DistinctOwners(answers)
       <==> DistinctOwners(answers[1..]) && forall i :: 0 <= i < |answers[1..]| ==> answers[1..][i].owner != answers[0].owner
  {
    var rest := answers[1..];
    assert forall i :: 0 <= i < |rest| ==> rest[i] == answers[i + 1];
    if DistinctOwners(rest) && forall i :: 0 <= i < |rest| ==> rest[i].owner != answers[0].owner {
      forall i, j | 0 <= i < j < |answers| ensures answers[i].owner != answers[j].owner {
        assert answers[j] == rest[j - 1];
        if i > 0 {
          assert answers[i] == rest[i - 1];
        }
      }
    }
  }

  // ---- multisets of answers ----

  lemma {:induction false} CountDistinct(answers: seq<Answer>, a: Answer)
    requires DistinctOwners(answers)
    ensures multiset(answers)[a] == if a in answers then 1 else 0
    decreases |answers|
  {
    if answers != [] {
      var rest := answers[1..];
      DistinctOwnersCons(answers);
      CountDistinct(rest, a);
      assert answers == [answers[0]] + rest;
      assert a in rest ==> exists i :: 0 <= i < |rest| && rest[i] == a;
    }
  }

  /** Answers without repeated owners form the same multiset as soon as they form the same set. */
  lemma {:induction false} SameSetSameMultiset(first: seq<Answer>, second: seq<Answer>)
    requires DistinctOwners(first) && DistinctOwners(second)
    requires forall a :: a in first <==> a in second
    ensures multiset(first) == multiset(second)
  {
    forall a ensures multiset(first)[a] == multiset(second)[a] {
      CountDistinct(first, a);
      CountDistinct(second, a);
    }
  }

  lemma {:induction false} RepeatCount(answers: seq<Answer>, i: nat, j: nat)
    requires i < j < |answers| && answers[i] == answers[j]
    ensures multiset(answers)[answers[i]] >= 2
  {
    assert answers == answers[..j] + [answers[j]] + answers[j + 1..];
    assert answers[..j][i] == answers[i];
    assert answers[i] in multiset(answers[..j]);
  }

  lemma {:induction false} DistinctOwnersPermuted(first: seq<Answer>, second: seq<Answer>)
    requires multiset(first) == multiset(second) && DistinctOwners(first)
    ensures DistinctOwners(second)
  {
    forall i, j | 0 <= i < j < |second| ensures second[i].owner != second[j].owner {
      assert second[i] in multiset(second) && second[j] in multiset(second);
      assert second[i] in first && second[j] in first;
      CountDistinct(first, second[i]);
      if second[i] == second[j] {
        RepeatCount(second, i, j);
        assert false;
      }
    }
  }

  // ---- the alias walk ----

  predicate DistinctNames(chain: seq<Text>) {
    forall i, j :: 0 <= i < j < |chain| ==> chain[i] != chain[j]
  }

  /** The dictionary leads along the chain from position `from` and stops at its end. */
  predicate Path(cnames: map<Text, Text>, chain: seq<Text>, from: nat) {
    && from < |chain|
    && (forall i :: from <= i < |chain| - 1 ==> chain[i] in cnames && cnames[chain[i]] == chain[i + 1])
    && chain[|chain| - 1] !in cnames
  }

  lemma {:induction false} WalkSound(cnames: map<Text, Text>, chain: seq<Text>, allowCname: bool)
    requires 1 <= |chain| <= MAX_CHAIN && DistinctNames(chain)
    requires ChainWalk(cnames, chain, allowCname).Ok?
    ensures var full := ChainWalk(cnames, chain, allowCname).value;
            && chain <= full
            && |full| <= MAX_CHAIN
            && DistinctNames(full)
            && Path(cnames, full, |chain| - 1)
            && (|full| > |chain| ==> allowCname)
    decreases MAX_CHAIN - |chain|
  {
    var current := chain[|chain| - 1];
    if current in cnames {
      var next := cnames[current];
      WalkSound(cnames, chain + [next], allowCname);
    }
  }

  lemma {:induction false} WalkComplete(cnames: map<Text, Text>, full: seq<Text>, at: nat, allowCname: bool)
    requires at < |full| <= MAX_CHAIN && DistinctNames(full)
    requires Path(cnames, full, at) && (|full| > at + 1 ==> allowCname)
    ensures ChainWalk(cnames, full[..at + 1], allowCname) == Ok(full)
    decreases |full| - at
  {
    var chain := full[..at + 1];
    if at + 1 == |full| {
      assert chain == full;
    } else {
      var next := full[at + 1];
      assert cnames[full[at]] == next;
      assert next !in chain;
      assert chain + [next] == full[..at + 2];
      WalkComplete(cnames, full, at + 1, allowCname);
    }
  }

  // ---- the conclusion ----

  /** The records of one chain: an alias for each step, and the address of its last name. */
  function ChainAnswers(chain: seq<Text>, address: Bytes): (r: seq<Answer>)
    ensures |r| == |chain|
  {
    seq(|chain|, i requires 0 <= i < |chain| =>
      if i + 1 < |chain| then Cname(chain[i], chain[i + 1]) else Address(chain[i], address))
  }

  /** The chain a resolution reports is allowed, bounded, free of repeats and starts at the question. */
  predicate ExactChain(q: Query, r: Resolution, allowCname: bool, requireDeclared: bool) {
    && 1 <= |r.cnameChain| <= 4
    && r.cnameChain[0] == q.name
    && DistinctNames(r.cnameChain)
    && (|r.cnameChain| > 1 ==> allowCname)
    && r.terminalName == r.cnameChain[|r.cnameChain| - 1]
    && r.questionType == q.questionType
    && r.ttl == 1
    && (requireDeclared ==> r.terminalName == TestName("allowed") && r.address == AllowedAddress(q.questionType))
  }

  lemma {:induction false} ChainAnswersDistinct(chain: seq<Text>, address: Bytes)
    requires DistinctNames(chain)
    ensures DistinctOwners(ChainAnswers(chain, address))
  {
  }

  /** The dictionaries that hold exactly the chain's records. */
  lemma {:induction false} ChainInventory(inventory: Inventory, chain: seq<Text>, address: Bytes)
    requires 1 <= |chain| && DistinctNames(chain)
    requires forall a :: Stored(inventory, a) <==> a in ChainAnswers(chain, address)
    ensures inventory.cnames.Keys == Names(chain[..|chain| - 1])
    ensures inventory.addresses == map[chain[|chain| - 1] := address]
    ensures Path(inventory.cnames, chain, 0)
  {
    var answers := ChainAnswers(chain, address);
    var last := chain[|chain| - 1];
    forall i | 0 <= i < |chain| - 1
      ensures chain[i] in inventory.cnames && inventory.cnames[chain[i]] == chain[i + 1]
    {
      assert answers[i] == Cname(chain[i], chain[i + 1]);
      assert Stored(inventory, answers[i]);
    }
    assert answers[|chain| - 1] == Address(last, address);
    assert Stored(inventory, Address(last, address));
    forall owner | owner in inventory.cnames ensures owner in Names(chain[..|chain| - 1]) {
      assert Stored(inventory, Cname(owner, inventory.cnames[owner]));
      var i :| 0 <= i < |answers| && answers[i] == Cname(owner, inventory.cnames[owner]);
      assert owner == chain[..|chain| - 1][i];
    }
    forall owner | owner in Names(chain[..|chain| - 1]) ensures owner in inventory.cnames {
      var i :| 0 <= i < |chain| - 1 && chain[..|chain| - 1][i] == owner;
      assert owner == chain[i];
    }
    forall owner | owner in inventory.addresses ensures owner == last {
      assert Stored(inventory, Address(owner, inventory.addresses[owner]));
      var i :| 0 <= i < |answers| && answers[i] == Address(owner, inventory.addresses[owner]);
    }
    assert last !in inventory.cnames;
  }

  /** Conversely, dictionaries with those keys hold exactly the chain's records. */
  lemma {:induction false} InventoryChain(inventory: Inventory, chain: seq<Text>)
    requires 1 <= |chain| && DistinctNames(chain)
    requires Path(inventory.cnames, chain, 0)
    requires inventory.cnames.Keys == Names(chain[..|chain| - 1])
    requires inventory.addresses.Keys == {chain[|chain| - 1]}
    ensures var address := inventory.addresses[chain[|chain| - 1]];
            forall a :: Stored(inventory, a) <==> a in ChainAnswers(chain, address)
  {
    var answers := ChainAnswers(chain, inventory.addresses[chain[|chain| - 1]]);
    forall a ensures Stored(inventory, a) <==> a in answers {
      if Stored(inventory, a) {
        StoredOnChain(inventory, chain, a);
      }
      if a in answers {
        ChainStored(inventory, chain, a);
      }
    }
  }

  lemma {:induction false} StoredOnChain(inventory: Inventory, chain: seq<Text>, a: Answer)
    requires 1 <= |chain| && Path(inventory.cnames, chain, 0) && Stored(inventory, a)
    requires inventory.cnames.Keys == Names(chain[..|chain| - 1])
    requires inventory.addresses.Keys == {chain[|chain| - 1]}
    ensures a in ChainAnswers(chain, inventory.addresses[chain[|chain| - 1]])
  {
    var answers := ChainAnswers(chain, inventory.addresses[chain[|chain| - 1]]);
    if a.Cname? {
      assert a.owner in Names(chain[..|chain| - 1]);
      var i :| 0 <= i < |chain| - 1 && chain[..|chain| - 1][i] == a.owner;
      assert chain[i] == a.owner;
      assert answers[i] == a;
    } else {
      assert answers[|chain| - 1] == a;
    }
  }

  lemma {:induction false} ChainStored(inventory: Inventory, chain: seq<Text>, a: Answer)
    requires 1 <= |chain| && Path(inventory.cnames, chain, 0)
    requires inventory.cnames.Keys == Names(chain[..|chain| - 1])
    requires inventory.addresses.Keys == {chain[|chain| - 1]}
    requires a in ChainAnswers(chain, inventory.addresses[chain[|chain| - 1]])
    ensures Stored(inventory, a)
  {
    var answers := ChainAnswers(chain, inventory.addresses[chain[|chain| - 1]]);
    var i :| 0 <= i < |answers| && answers[i] == a;
    if i < |chain| - 1 {
      assert a == Cname(chain[i], chain[i + 1]);
    }
  }

  /** The final checks pass exactly on the records of one permitted chain. */
  lemma {:induction false} ConclusionExact(q: Query, inventory: Inventory, answers: seq<Answer>, allowCname: bool,
      requireDeclared: bool, r: Resolution)
    requires InsertAll(EMPTY, answers) == Ok(inventory)
    ensures Conclusion(q, inventory, allowCname, requireDeclared) == Ok(r)
       <==> ExactChain(q, r, allowCname, requireDeclared)
            && multiset(answers) == multiset(ChainAnswers(r.cnameChain, r.address))
  {
    InsertAllExact(EMPTY, answers);
    assert forall a :: !Stored(EMPTY, a);
    if Conclusion(q, inventory, allowCname, requireDeclared) == Ok(r) {
      ConclusionSound(q, inventory, answers, allowCname, requireDeclared, r);
    }
    if ExactChain(q, r, allowCname, requireDeclared) && multiset(answers) == multiset(ChainAnswers(r.cnameChain, r.address)) {
      ConclusionComplete(q, inventory, answers, allowCname, requireDeclared, r);
    }
  }

  lemma {:induction false} ConclusionSound(q: Query, inventory: Inventory, answers: seq<Answer>, allowCname: bool,
      requireDeclared: bool, r: Resolution)
    requires DistinctOwners(answers) && forall a :: Stored(inventory, a) <==> a in answers
    requires Conclusion(q, inventory, allowCname, requireDeclared) == Ok(r)
    ensures ExactChain(q, r, allowCname, requireDeclared)
    ensures multiset(answers) == multiset(ChainAnswers(r.cnameChain, r.address))
  {
    hide Stored;
    WalkSound(inventory.cnames, [q.name], allowCname);
    InventoryChain(inventory, r.cnameChain);
    ChainAnswersDistinct(r.cnameChain, r.address);
    SameSetSameMultiset(answers, ChainAnswers(r.cnameChain, r.address));
  }

  lemma {:induction false} ConclusionComplete(q: Query, inventory: Inventory, answers: seq<Answer>,
      allowCname: bool, requireDeclared: bool, r: Resolution)
    requires DistinctOwners(answers) && forall a :: Stored(inventory, a) <==> a in answers
    requires ExactChain(q, r, allowCname, requireDeclared)
    requires multiset(answers) == multiset(ChainAnswers(r.cnameChain, r.address))
    ensures Conclusion(q, inventory, allowCname, requireDeclared) == Ok(r)
  {
    hide Stored;
    var chain := r.cnameChain;
    forall a ensures Stored(inventory, a) <==> a in ChainAnswers(chain, r.address) {
      assert a in answers <==> a in multiset(answers);
      assert a in ChainAnswers(chain, r.address) <==> a in multiset(ChainAnswers(chain, r.address));
    }
    ChainInventory(inventory, chain, r.address);
    WalkComplete(inventory.cnames, chain, 0, allowCname);
    assert chain[..1] == [q.name];
  }

  // ---- the header ----

  /** Header and question of an accepted response: they are fixed by the query and the answer count. */
  function ResponseHead(q: Query, answers: int): (r: Bytes)
    requires WellFormed(q) && U16Value(answers)
  {
    Header(q.identifier, FLAG_QR + FLAG_AA + QueryFlags(q.recursionDesired), 1, answers, 0, 0) + q.questionBytes
  }

  lemma {:induction false} RegisteredFlags(flags: int, recursionDesired: bool)
    requires U16Value(flags)
    ensures flags == FLAG_QR + FLAG_AA + QueryFlags(recursionDesired)
       <==> && flags == RegisteredBits(flags)
            && Bit(flags, FLAG_QR)
            && Bit(flags, FLAG_AA)
            && Bit(flags, FLAG_RD) == recursionDesired
            && !Bit(flags, FLAG_AD)
            && !Bit(flags, FLAG_TC)
  {
  }

  lemma {:induction false} HeaderCheckExact(q: Query, response: Bytes, answers: nat)
    requires WellFormed(q)
    ensures HeaderCheck(q, response) == Ok(answers)
       <==> && |response| <= MAX_PACKET_BYTES
            && U16Value(answers)
            && |response| >= 12 + |q.questionBytes|
            && response[..12 + |q.questionBytes|] == ResponseHead(q, answers)
  {
    hide RegisteredBits, Bit, WellFormed, U16;
    var end := 12 + |q.questionBytes|;
    if end <= |response| <= MAX_PACKET_BYTES {
      var flags := U16(response, 2);
      RegisteredFlags(flags, q.recursionDesired);
      assert response[..end] == response[..12] + response[12..end];
      HeaderInverse(response);
      if U16Value(answers) && response[..end] == ResponseHead(q, answers) {
        var header := Header(q.identifier, FLAG_QR + FLAG_AA + QueryFlags(q.recursionDesired), 1, answers, 0, 0);
        assert response[..12] == response[..end][..12] == header;
        assert response[12..end] == response[..end][12..] == q.questionBytes;
        HeaderAt(response, header);
      }
    }
  }

  // ---- the main theorem ----

  /** `response` is the registered head followed by wire forms of the records of chain `r`, in some order. */
  ghost predicate ExactResponse(q: Query, response: Bytes, r: Resolution, allowCname: bool, requireDeclared: bool,
      slices: seq<Bytes>, answers: seq<Answer>) {
    && WellFormed(q)
    && EncodesAll(slices, answers, q)
    && |response| <= MAX_PACKET_BYTES
    && U16Value(|slices|)
    && response == ResponseHead(q, |slices|) + Concat(slices)
    && ExactChain(q, r, allowCname, requireDeclared)
    && multiset(answers) == multiset(ChainAnswers(r.cnameChain, r.address))
  }

  lemma {:induction false} ExactResponseAccepted(queryData: Bytes, q: Query, response: Bytes, r: Resolution,
      allowCname: bool, requireDeclared: bool, slices: seq<Bytes>, answers: seq<Answer>)
    requires ParseQuery(queryData) == Ok(q)
    requires ExactResponse(q, response, r, allowCname, requireDeclared, slices, answers)
    ensures Validation(queryData, response, allowCname, requireDeclared) == Ok(r)
  {
    hide ParseQuery, HeaderCheck, AnswerScan, Conclusion, WellFormed, Encodes, ExactChain;
    var head := ResponseHead(q, |slices|);
    assert response[..|head|] == head && response[|head|..] == Concat(slices);
    HeaderCheckExact(q, response, |slices|);
    ScanConcat(response, |head|, slices, answers, q, EMPTY);
    ChainNames(q, r, allowCname, requireDeclared);
    ChainAnswersDistinct(r.cnameChain, r.address);
    DistinctOwnersPermuted(ChainAnswers(r.cnameChain, r.address), answers);
    InsertAllExact(EMPTY, answers);
    ConclusionExact(q, InsertAll(EMPTY, answers).value, answers, allowCname, requireDeclared, r);
  }

  lemma {:induction false} ChainNames(q: Query, r: Resolution, allowCname: bool, requireDeclared: bool)
    requires ExactChain(q, r, allowCname, requireDeclared)
    ensures DistinctNames(r.cnameChain)
  {
  }

  lemma {:induction false} AcceptedIsExact(queryData: Bytes, response: Bytes, allowCname: bool, requireDeclared: bool)
    returns (slices: seq<Bytes>, answers: seq<Answer>)
    requires Validation(queryData, response, allowCname, requireDeclared).Ok?
    ensures ParseQuery(queryData).Ok?
    ensures ExactResponse(ParseQuery(queryData).value, response,
                          Validation(queryData, response, allowCname, requireDeclared).value,
                          allowCname, requireDeclared, slices, answers)
  {
    hide ParseQuery, HeaderCheck, AnswerScan, Conclusion, WellFormed, Encodes, ExactChain;
    var q := ParseQuery(queryData).value;
    ParsedQueryPacket(queryData);
    var count := HeaderCheck(q, response).value;
    HeaderCheckExact(q, response, count);
    var end := 12 + |q.questionBytes|;
    slices, answers := ScanDecomposes(response, end, count, q, EMPTY);
    var inventory := AnswerScan(response, end, count, q, EMPTY).value.0;
    var r := Validation(queryData, response, allowCname, requireDeclared).value;
    ConclusionExact(q, inventory, answers, allowCname, requireDeclared, r);
    assert response == response[..end] + response[end..|response|];
  }

  /**
   * `validate_resolution` accepts a response with resolution `r` exactly when the response is
   * the registered head followed by the records of the chain of `r`, each once, in some order.
   */
  lemma {:induction false} ValidationExact(queryData: Bytes, response: Bytes, allowCname: bool,
      requireDeclared: bool, r: Resolution)
    ensures Validation(queryData, response, allowCname, requireDeclared) == Ok(r)
       <==> ParseQuery(queryData).Ok?
            && exists slices, answers ::
                 ExactResponse(ParseQuery(queryData).value, response, r, allowCname, requireDeclared, slices, answers)
  {
    hide Validation, ParseQuery, ExactResponse;
    if Validation(queryData, response, allowCname, requireDeclared) == Ok(r) {
      var slices, answers := AcceptedIsExact(queryData, response, allowCname, requireDeclared);
    }
    if ParseQuery(queryData).Ok? {
      forall slices, answers | ExactResponse(ParseQuery(queryData).value, response, r, allowCname, requireDeclared, slices, answers)
        ensures Validation(queryData, response, allowCname, requireDeclared) == Ok(r)
      {
        ExactResponseAccepted(queryData, ParseQuery(queryData).value, response, r, allowCname, requireDeclared, slices, answers);
      }
    }
  }

  /** The consequences a caller relies on. */
  lemma {:induction false} AcceptedResponse(queryData: Bytes, response: Bytes, allowCname: bool,
      requireDeclared: bool, r: Resolution)
    requires Validation(queryData, response, allowCname, requireDeclared) == Ok(r)
    ensures ParseQuery(queryData).Ok? && |response| >= 12
    ensures r.cnameChain != [] && r.cnameChain[0] == ParseQuery(queryData).value.name
    ensures |r.cnameChain| <= 4 && DistinctNames(r.cnameChain)
    ensures U16(response, 6) == |r.cnameChain|
    ensures r.terminalName == r.cnameChain[|r.cnameChain| - 1]
    ensures requireDeclared ==> r.terminalName == TestName("allowed")
  {
    hide Validation, ParseQuery, WellFormed, Concat, Encodes, ChainAnswers;
    var slices, answers := AcceptedIsExact(queryData, response, allowCname, requireDeclared);
    var q := ParseQuery(queryData).value;
    var head := ResponseHead(q, |slices|);
    assert response[..12] == head[..12] == Header(q.identifier, FLAG_QR + FLAG_AA + QueryFlags(q.recursionDesired), 1, |slices|, 0, 0);
    HeaderAt(response, head[..12]);
    ChainLength(q, r, allowCname, requireDeclared, answers);
    assert U16(response, 6) == |slices|;
  }

  // ---- answer order ----

  /** A slice that is one complete record. */
  predicate IsRecord(slice: Bytes, q: Query) {
    var record := RecordAt(slice, 0, q);
    record.Ok? && record.value.1 == |slice|
  }

  function AnswerOf(slice: Bytes, q: Query): (a: Answer)
    requires IsRecord(slice, q)
  {
    RecordAt(slice, 0, q).value.0
  }

  function AnswersOf(slices: seq<Bytes>, q: Query): (answers: seq<Answer>)
    requires forall i :: 0 <= i < |slices| ==> IsRecord(slices[i], q)
    ensures |answers| == |slices|
  {
    if slices == [] then [] else [AnswerOf(slices[0], q)] + AnswersOf(slices[1..], q)
  }

  lemma {:induction false} AnswersOfEncode(slices: seq<Bytes>, q: Query)
    requires WellFormed(q) && forall i :: 0 <= i < |slices| ==> IsRecord(slices[i], q)
    ensures EncodesAll(slices, AnswersOf(slices, q), q)
  {
    hide RecordAt, Encodes, WellFormed;
    if slices != [] {
      AnswersOfEncode(slices[1..], q);
      var a := RecordAt(slices[0], 0, q).value.0;
      RecordAtExact(slices[0], 0, q, a, |slices[0]|);
      assert slices[0][0..|slices[0]|] == slices[0];
    }
  }

  lemma {:induction false} EncodedAreRecords(slices: seq<Bytes>, answers: seq<Answer>, q: Query)
    requires WellFormed(q) && EncodesAll(slices, answers, q)
    ensures forall i :: 0 <= i < |slices| ==> IsRecord(slices[i], q)
    ensures AnswersOf(slices, q) == answers
  {
    hide RecordAt, Encodes, WellFormed;
    forall i | 0 <= i < |slices|
      ensures RecordAt(slices[i], 0, q) == Ok((answers[i], |slices[i]|))
    {
      RecordAtExact(slices[i], 0, q, answers[i], |slices[i]|);
      assert slices[i][0..|slices[i]|] == slices[i];
    }
    if slices != [] {
      EncodedAreRecords(slices[1..], answers[1..], q);
    }
  }

  /** Moving one record out of the middle changes neither the answers nor the bytes it carries. */
  lemma {:induction false} ExtractRecord(slices: seq<Bytes>, k: nat, q: Query)
    requires k < |slices| && forall i :: 0 <= i < |slices| ==> IsRecord(slices[i], q)
    ensures var rest := slices[..k] + slices[k + 1..];
            && multiset(AnswersOf(slices, q)) == multiset{AnswerOf(slices[k], q)} + multiset(AnswersOf(rest, q))
            && |Concat(slices)| == |slices[k]| + |Concat(rest)|
    decreases k
  {
    hide IsRecord, AnswerOf;
    var rest := slices[..k] + slices[k + 1..];
    if k == 0 {
      assert rest == slices[1..];
    } else {
      var tail := slices[1..];
      ExtractRecord(tail, k - 1, q);
      assert rest[0] == slices[0] && rest[1..] == tail[..k - 1] + tail[k..];
    }
  }

  lemma {:induction false} AnswersPermuted(slices: seq<Bytes>, shuffled: seq<Bytes>, q: Query)
    requires forall i :: 0 <= i < |slices| ==> IsRecord(slices[i], q)
    requires multiset(slices) == multiset(shuffled)
    ensures forall i :: 0 <= i < |shuffled| ==> IsRecord(shuffled[i], q)
    ensures multiset(AnswersOf(slices, q)) == multiset(AnswersOf(shuffled, q))
    ensures |Concat(slices)| == |Concat(shuffled)|
    decreases |slices|
  {
    hide IsRecord, AnswerOf;
    forall i | 0 <= i < |shuffled| ensures IsRecord(shuffled[i], q) {
      assert shuffled[i] in multiset(shuffled);
      assert shuffled[i] in slices;
    }
    assert |multiset(shuffled)| == |shuffled| && |multiset(slices)| == |slices|;
    if slices != [] {
      var first, tail := slices[0], slices[1..];
      assert first in multiset(slices);
      var k :| 0 <= k < |shuffled| && shuffled[k] == first;
      var rest := shuffled[..k] + shuffled[k + 1..];
      MultisetMatch(slices, shuffled, k);
      AnswersPermuted(tail, rest, q);
      ExtractRecord(shuffled, k, q);
    }
  }

  /**
   * Permuting the answer records of an accepted response gives an accepted response with the
   * same resolution. Every accepted response splits into records, and any permutation of them counts.
   */
  lemma {:induction false} OrderIndependent(queryData: Bytes, response: Bytes, allowCname: bool,
      requireDeclared: bool, r: Resolution)
    requires Validation(queryData, response, allowCname, requireDeclared) == Ok(r)
    ensures ParseQuery(queryData).Ok? && WellFormed(ParseQuery(queryData).value)
    ensures var q := ParseQuery(queryData).value;
            exists slices: seq<Bytes> ::
              && |slices| == |r.cnameChain| <= MAX_CHAIN
              && (forall i :: 0 <= i < |slices| ==> IsRecord(slices[i], q))
              && response == ResponseHead(q, |slices|) + Concat(slices)
              && forall shuffled: seq<Bytes> :: multiset(shuffled) == multiset(slices) ==>
                   Validation(queryData, ResponseHead(q, |slices|) + Concat(shuffled), allowCname, requireDeclared) == Ok(r)
  {
    hide Validation, ParseQuery, IsRecord, WellFormed, Encodes, Concat, ExactChain;
    var slices, answers := AcceptedIsExact(queryData, response, allowCname, requireDeclared);
    var q := ParseQuery(queryData).value;
    ChainLength(q, r, allowCname, requireDeclared, answers);
    EncodedAreRecords(slices, answers, q);
    forall shuffled: seq<Bytes> | multiset(shuffled) == multiset(slices)
      ensures Validation(queryData, ResponseHead(q, |slices|) + Concat(shuffled), allowCname, requireDeclared) == Ok(r)
    {
      AnswersPermuted(slices, shuffled, q);
      AnswersOfEncode(shuffled, q);
      assert |multiset(shuffled)| == |shuffled| && |multiset(slices)| == |slices|;
      ExactResponseAccepted(queryData, q, ResponseHead(q, |slices|) + Concat(shuffled), r, allowCname, requireDeclared, shuffled, AnswersOf(shuffled, q));
    }
  }

  lemma {:induction false} ChainLength(q: Query, r: Resolution, allowCname: bool, requireDeclared: bool,
      answers: seq<Answer>)
    requires ExactChain(q, r, allowCname, requireDeclared)
    requires multiset(answers) == multiset(ChainAnswers(r.cnameChain, r.address))
    ensures |answers| == |r.cnameChain| <= MAX_CHAIN
  {
    assert |multiset(answers)| == |answers|;
    assert |multiset(ChainAnswers(r.cnameChain, r.address))| == |r.cnameChain|;
  }
}
