/** The response validator: the loops of `validate_resolution` and the function they compute. */
module DnsValidation {
  import opened Common
  import opened DnsNames
  import opened DnsMessages

  datatype Resolution = Resolution(
    address: Bytes,
    cnameChain: seq<Text>,
    questionType: int,
    terminalName: Text,
    ttl: int)

  /** A single-bit mask test: `flags & mask`. */
  predicate Bit(flags: int, mask: int)
    requires mask > 0
  {
    flags / mask % 2 == 1
  }

  /** `flags & (FLAG_QR | FLAG_AA | FLAG_RD | FLAG_TC | FLAG_AD)`. */
  function RegisteredBits(flags: int): int {
    (if Bit(flags, FLAG_QR) then FLAG_QR else 0)
    + (if Bit(flags, FLAG_AA) then FLAG_AA else 0)
    + (if Bit(flags, FLAG_RD) then FLAG_RD else 0)
    + (if Bit(flags, FLAG_TC) then FLAG_TC else 0)
    + (if Bit(flags, FLAG_AD) then FLAG_AD else 0)
  }

  // ---- one answer record ----

  function OwnerDecoding(data: Bytes, offset: nat, questionName: Text): (r: Result<(Text, nat), DnsError>)
    ensures r.Ok? ==> offset < r.value.1 <= |data|
  {
    if offset + 2 <= |data| && data[offset..offset + 2] == QUESTION_REFERENCE then Ok((questionName, offset + 2))
    else NameDecoding(data, offset)
  }

  function AddressSize(questionType: int): int {
    if questionType == TYPE_A then 4 else 16
  }

  /** What one record says, from its type and payload. */
  function PayloadAnswer(owner: Text, recordType: int, payload: Bytes, q: Query): (r: Result<Answer, DnsError>) {
    if recordType == TYPE_CNAME then
      var decoded := NameDecoding(payload, 0);
      if decoded.Err? then Err(decoded.error)
      else if decoded.value.1 != |payload| then Err(CnameAmbiguous)
      else Ok(Cname(owner, decoded.value.0))
    else if recordType == q.questionType then
      if |payload| != AddressSize(recordType) then Err(AddressAmbiguous) else Ok(Address(owner, payload))
    else Err(AnswerType)
  }

  /** One answer record at an offset, and where it ends. */
  function RecordAt(data: Bytes, offset: nat, q: Query): (r: Result<(Answer, nat), DnsError>)
    ensures r.Ok? ==> offset < r.value.1 <= |data|
  {
    var owner := OwnerDecoding(data, offset, q.name);
    if owner.Err? then Err(owner.error)
    else
      var fields := owner.value.1;
      if fields + 10 > |data| then Err(AnswerTruncated)
      else
        var recordType, recordClass := U16(data, fields), U16(data, fields + 2);
        var ttl, size := U32(data, fields + 4), U16(data, fields + 8);
        var start := fields + 10;
        if recordClass != CLASS_IN || ttl != TTL || start + size > |data| then Err(AnswerMetadata)
        else
          var answer := PayloadAnswer(owner.value.0, recordType, data[start..start + size], q);
          if answer.Err? then Err(answer.error) else Ok((answer.value, start + size))
  }

  // ---- the answer section ----

  /** The two dictionaries the answer loop fills. */
  datatype Inventory = Inventory(cnames: map<Text, Text>, addresses: map<Text, Bytes>)

  const EMPTY := Inventory(map[], map[])

  /** An owner may appear once. */
  function Insert(inventory: Inventory, a: Answer): (r: Result<Inventory, DnsError>) {
    if a.owner in inventory.cnames || a.owner in inventory.addresses then
      Err(if a.Cname? then CnameAmbiguous else AddressAmbiguous)
    else
      match a
      case Cname(owner, target) => Ok(inventory.(cnames := inventory.cnames[owner := target]))
      case Address(owner, address) => Ok(inventory.(addresses := inventory.addresses[owner := address]))
  }

  /** The answer loop: `count` records from an offset into the dictionaries. */
  function AnswerScan(data: Bytes, offset: nat, count: nat, q: Query, inventory: Inventory): (r: Result<(Inventory,
      nat), DnsError>)
    decreases count
  {
    if count == 0 then Ok((inventory, offset))
    else
      var record := RecordAt(data, offset, q);
      if record.Err? then Err(record.error)
      else
        var grown := Insert(inventory, record.value.0);
        if grown.Err? then Err(grown.error)
        else AnswerScan(data, record.value.1, count - 1, q, grown.value)
  }

  lemma {:induction false} AnswerScanStep(data: Bytes, offset: nat, count: nat, q: Query, inventory: Inventory)
    requires count > 0
    ensures var record := RecordAt(data, offset, q);
            AnswerScan(data, offset, count, q, inventory) ==
              if record.Err? then Err(record.error)
              else
                var grown := Insert(inventory, record.value.0);
                if grown.Err? then Err(grown.error)
                else AnswerScan(data, record.value.1, count - 1, q, grown.value)
  {
  }

  // ---- the alias walk ----

  const MAX_CHAIN := 4

  /** Follow aliases from the last name of the chain. */
  function ChainWalk(cnames: map<Text, Text>, chain: seq<Text>, allowCname: bool): (r: Result<seq<Text>, DnsError>)
    requires 1 <= |chain| <= MAX_CHAIN
    decreases MAX_CHAIN - |chain|
  {
    var current := chain[|chain| - 1];
    if current !in cnames then Ok(chain)
    else if !allowCname then Err(CnameDisallowed)
    else
      var next := cnames[current];
      if next in chain || |chain| >= MAX_CHAIN then Err(CnameLoopOrDepth)
      else ChainWalk(cnames, chain + [next], allowCname)
  }

  lemma {:induction false} ChainWalkNonEmpty(cnames: map<Text, Text>, chain: seq<Text>, allowCname: bool)
    requires 1 <= |chain| <= MAX_CHAIN
    ensures ChainWalk(cnames, chain, allowCname).Ok? ==> chain <= ChainWalk(cnames, chain, allowCname).value
    decreases MAX_CHAIN - |chain|
  {
    var current := chain[|chain| - 1];
    if current in cnames && allowCname && cnames[current] !in chain && |chain| < MAX_CHAIN {
      ChainWalkNonEmpty(cnames, chain + [cnames[current]], allowCname);
    }
  }

  /** The set of names in a chain. */
  function Names(chain: seq<Text>): set<Text> {
    set i | 0 <= i < |chain| :: chain[i]
  }

  /** The checks that follow the answer loop. */
  function Conclusion(q: Query, inventory: Inventory, allowCname: bool,
      requireDeclared: bool): (r: Result<Resolution, DnsError>) {
    var walk := ChainWalk(inventory.cnames, [q.name], allowCname);
    if walk.Err? then Err(walk.error)
    else
      var chain := walk.value;
      ChainWalkNonEmpty(inventory.cnames, [q.name], allowCname);
      var current := chain[|chain| - 1];
      if inventory.cnames.Keys != Names(chain[..|chain| - 1]) || inventory.addresses.Keys != {current} then
        Err(AnswerInventory)
      else if requireDeclared && current != TestName("allowed") then Err(TerminalService)
      else if requireDeclared && inventory.addresses[current] != AllowedAddress(q.questionType) then
        Err(TerminalAddress)
      else Ok(Resolution(inventory.addresses[current], chain, q.questionType, current, TTL))
  }

  /** Header checks; `Ok` carries the answer count. */
  function HeaderCheck(q: Query, response: Bytes): (r: Result<nat, DnsError>)
    ensures r.Ok? ==> |response| >= 12 + |q.questionBytes|
  {
    if |response| < 12 || |response| > MAX_PACKET_BYTES then Err(ResponseSize)
    else
      var flags := U16(response, 2);
      if || U16(response, 0) != q.identifier
         || flags != RegisteredBits(flags)
         || !Bit(flags, FLAG_QR)
         || !Bit(flags, FLAG_AA)
         || Bit(flags, FLAG_RD) != q.recursionDesired
         || U16(response, 4) != 1
         || U16(response, 8) != 0
         || U16(response, 10) != 0
      then Err(ResponseHeader)
      else if Bit(flags, FLAG_AD) then Err(DnssecAssertion)
      else
        var questionEnd := 12 + |q.questionBytes|;
        if questionEnd > |response| || response[12..questionEnd] != q.questionBytes then Err(QuestionIdentity)
        else if Bit(flags, FLAG_TC) then
          if U16(response, 6) != 0 || questionEnd != |response| then Err(TruncatedAmbiguous)
          else Err(TcpFallbackRequired)
        else Ok(U16(response, 6))
  }

  /** What `validate_resolution` computes. */
  function Validation(queryData: Bytes, response: Bytes, allowCname: bool,
      requireDeclared: bool): (r: Result<Resolution, DnsError>) {
    var parsed := ParseQuery(queryData);
    if parsed.Err? then Err(parsed.error)
    else
      var q := parsed.value;
      var count := HeaderCheck(q, response);
      if count.Err? then Err(count.error)
      else
        var scan := AnswerScan(response, 12 + |q.questionBytes|, count.value, q, EMPTY);
        if scan.Err? then Err(scan.error)
        else if scan.value.1 != |response| then Err(TrailingBytes)
        else Conclusion(q, scan.value.0, allowCname, requireDeclared)
  }

  method DecodeOwner(data: Bytes, offset: nat, questionName: Text) returns (r: Result<(Text, nat), DnsError>)
    ensures r == OwnerDecoding(data, offset, questionName)
  {
    if offset + 2 <= |data| && data[offset..offset + 2] == QUESTION_REFERENCE {
      return Ok((questionName, offset + 2));
    }
    r := DecodeName(data, offset);
  }

  /** The body of the answer loop up to the dictionary updates. */
  method ReadRecord(data: Bytes, offset: nat, q: Query) returns (r: Result<(Answer, nat), DnsError>)
    ensures r == RecordAt(data, offset, q)
  {
    hide OwnerDecoding, NameDecoding, U16, U32;
    var decoded := DecodeOwner(data, offset, q.name);
    if decoded.Err? {
      return Err(decoded.error);
    }
    var owner, fields := decoded.value.0, decoded.value.1;
    if fields + 10 > |data| {
      return Err(AnswerTruncated);
    }
    var recordType, recordClass := U16(data, fields), U16(data, fields + 2);
    var ttl, size := U32(data, fields + 4), U16(data, fields + 8);
    var start := fields + 10;
    if recordClass != CLASS_IN || ttl != TTL || start + size > |data| {
      return Err(AnswerMetadata);
    }
    var payload := data[start..start + size];
    if recordType == TYPE_CNAME {
      var target := DecodeName(payload, 0);
      if target.Err? {
        return Err(target.error);
      }
      if target.value.1 != |payload| {
        return Err(CnameAmbiguous);
      }
      return Ok((Cname(owner, target.value.0), start + size));
    }
    if recordType == q.questionType {
      if |payload| != AddressSize(recordType) {
        return Err(AddressAmbiguous);
      }
      return Ok((Address(owner, payload), start + size));
    }
    return Err(AnswerType);
  }

  /** The answer loop of `validate_resolution`, dictionaries and offset updated record by record. */
  method ReadAnswers(data: Bytes, questionEnd: nat, answers: nat, q: Query) returns (r: Result<(Inventory, nat),
      DnsError>)
    ensures r == AnswerScan(data, questionEnd, answers, q, EMPTY)
  {
    hide RecordAt;
    var offset: nat := questionEnd;
    var cnames: map<Text, Text> := map[];
    var addresses: map<Text, Bytes> := map[];
    var recordCount := 0;
    ghost var expected := AnswerScan(data, questionEnd, answers, q, EMPTY);
    while recordCount < answers
      invariant 0 <= recordCount <= answers
      invariant expected == AnswerScan(data, offset, answers - recordCount, q, Inventory(cnames, addresses))
    {
      AnswerScanStep(data, offset, answers - recordCount, q, Inventory(cnames, addresses));
      var record := ReadRecord(data, offset, q);
      if record.Err? {
        return Err(record.error);
      }
      var owner := record.value.0.owner;
      match record.value.0 {
        case Cname(_, target) =>
          if owner in cnames || owner in addresses {
            return Err(CnameAmbiguous);
          }
          cnames := cnames[owner := target];
        case Address(_, address) =>
          if owner in addresses || owner in cnames {
            return Err(AddressAmbiguous);
          }
          addresses := addresses[owner := address];
      }
      offset := record.value.1;
      recordCount := recordCount + 1;
    }
    return Ok((Inventory(cnames, addresses), offset));
  }

  /** The alias loop of `validate_resolution`; it stops on every dictionary, loops included. */
  method FollowChain(cnames: map<Text, Text>, name: Text, allowCname: bool) returns (r: Result<seq<Text>, DnsError>)
    ensures r == ChainWalk(cnames, [name], allowCname)
  {
    var chain := [name];
    var current := name;
    while current in cnames
      invariant 1 <= |chain| <= MAX_CHAIN && current == chain[|chain| - 1]
      invariant ChainWalk(cnames, [name], allowCname) == ChainWalk(cnames, chain, allowCname)
      decreases MAX_CHAIN - |chain|
    {
      if !allowCname {
        return Err(CnameDisallowed);
      }
      current := cnames[current];
      if current in chain || |chain| >= MAX_CHAIN {
        return Err(CnameLoopOrDepth);
      }
      chain := chain + [current];
    }
    return Ok(chain);
  }

  method ValidateResolution(queryData: Bytes, response: Bytes, allowCname: bool, requireDeclared: bool)
    returns (r: Result<Resolution, DnsError>)
    ensures r == Validation(queryData, response, allowCname, requireDeclared)
  {
    var parsed := ParseQuery(queryData);
    if parsed.Err? {
      return Err(parsed.error);
    }
    var q := parsed.value;
    var count := HeaderCheck(q, response);
    if count.Err? {
      return Err(count.error);
    }
    var scan := ReadAnswers(response, 12 + |q.questionBytes|, count.value, q);
    if scan.Err? {
      return Err(scan.error);
    }
    var inventory, offset := scan.value.0, scan.value.1;
    if offset != |response| {
      return Err(TrailingBytes);
    }
    var walk := FollowChain(inventory.cnames, q.name, allowCname);
    if walk.Err? {
      return Err(walk.error);
    }
    var chain := walk.value;
    ChainWalkNonEmpty(inventory.cnames, [q.name], allowCname);
    var current := chain[|chain| - 1];
    if inventory.cnames.Keys != Names(chain[..|chain| - 1]) || inventory.addresses.Keys != {current} {
      return Err(AnswerInventory);
    }
    if requireDeclared {
      if current != TestName("allowed") {
        return Err(TerminalService);
      }
      if inventory.addresses[current] != AllowedAddress(q.questionType) {
        return Err(TerminalAddress);
      }
    }
    return Ok(Resolution(inventory.addresses[current], chain, q.questionType, current, TTL));
  }
}
