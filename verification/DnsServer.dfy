/** The ordinal bookkeeping of the scripted server, over a whole run. */
module DnsServer {
  import opened Common
  import opened DnsNames
  import opened DnsMessages
  import opened DnsValidation
  import opened DnsScripts
  import opened DnsVerdicts

  /** One received packet, in order of arrival. */
  datatype Arrival = Arrival(data: Bytes, transport: Transport)

  datatype ServerError =
    | Configuration
    | DeadlineExpired
    | PacketBound
    | Refused(error: DnsError)

  /** One transcript entry. */
  datatype Entry = Entry(
    name: Text,
    ordinal: nat,
    query: Bytes,
    questionType: int,
    response: Option<Bytes>,
    transport: Transport)

  predicate SameKey(e: Entry, name: Text, questionType: int) {
    e.name == name && e.questionType == questionType
  }

  /** How many entries asked this question. */
  function Asked(entries: seq<Entry>, name: Text, questionType: int): nat {
    if entries == [] then 0
    else
      var rest := entries[..|entries| - 1];
      Asked(rest, name, questionType) + if SameKey(entries[|entries| - 1], name, questionType) then 1 else 0
  }

  /** A packet the server answers (or times out on) under this script. */
  predicate Answerable(arrival: Arrival, script: Script) {
    && |arrival.data| <= MAX_PACKET_BYTES
    && (arrival.transport == Tcp ==> |arrival.data| > 0)
    && ParseQuery(arrival.data).Ok?
    && ResponseFor(arrival.data, script, 0, arrival.transport).Ok?
  }

  /** Entry `i` is the scripted answer to arrival `i`, numbered among the earlier askings of its question. */
  predicate EntryExact(transcript: seq<Entry>, i: nat, arrival: Arrival, script: Script)
    requires i < |transcript|
  {
    var e := transcript[i];
    var parsed := ParseQuery(arrival.data);
    && parsed.Ok?
    && e.query == arrival.data
    && e.transport == arrival.transport
    && e.name == parsed.value.name
    && e.questionType == parsed.value.questionType
    && e.ordinal == Asked(transcript[..i], e.name, e.questionType)
    && ResponseFor(arrival.data, script, e.ordinal, arrival.transport) == Ok(e.response)
  }

  /** Whether a query is answerable does not depend on its ordinal. */
  lemma {:induction false} OrdinalIrrelevant(data: Bytes, script: Script, ordinal: nat, transport: Transport)
    requires ParseQuery(data).Ok?
    ensures ResponseFor(data, script, ordinal, transport).Ok? <==> ResponseFor(data, script, 0, transport).Ok?
  {
    hide ParseQuery, ResponseFor;
    ResponseForTotal(data, script, ordinal, transport);
    ResponseForTotal(data, script, 0, transport);
  }

  /** A later entry changes nothing about an earlier one. */
  lemma {:induction false} EntryStays(transcript: seq<Entry>, next: Entry, i: nat, arrival: Arrival, script: Script)
    requires i < |transcript| && EntryExact(transcript, i, arrival, script)
    ensures EntryExact(transcript + [next], i, arrival, script)
  {
    hide ParseQuery, ResponseFor;
    assert (transcript + [next])[..i] == transcript[..i];
  }

  /** The serving loop: `arrivals` is everything that reaches the socket before the deadline. */
  method Serve(arrivals: seq<Arrival>, script: Script, maximumQueries: int) returns (r: Result<seq<Entry>, ServerError>)
    ensures r.Ok?
       <==> 1 <= maximumQueries <= 64 && maximumQueries <= |arrivals|
            && forall i :: 0 <= i < maximumQueries ==> Answerable(arrivals[i], script)
    ensures r.Ok? ==> |r.value| == maximumQueries
    ensures r.Ok? ==> forall i :: 0 <= i < |r.value| ==> EntryExact(r.value, i, arrivals[i], script)
  {
    hide ParseQuery, ResponseFor;
    if !(1 <= maximumQueries <= 64) {
      return Err(Configuration);
    }
    var transcript: seq<Entry> := [];
    var ordinals: map<(Text, int), nat> := map[];
    while |transcript| < maximumQueries
      invariant |transcript| <= maximumQueries && |transcript| <= |arrivals|
      invariant forall i :: 0 <= i < |transcript| ==> Answerable(arrivals[i], script)
      invariant forall i :: 0 <= i < |transcript| ==> EntryExact(transcript, i, arrivals[i], script)
      invariant forall name, questionType ::
                  Asked(transcript, name, questionType)
                  == if (name, questionType) in ordinals then ordinals[(name, questionType)] else 0
      decreases maximumQueries - |transcript|
    {
      if |transcript| == |arrivals| {
        return Err(DeadlineExpired);
      }
      ghost var at := |transcript|;
      var arrival := arrivals[|transcript|];
      var data, transport := arrival.data, arrival.transport;
      if |data| > MAX_PACKET_BYTES || (transport == Tcp && |data| == 0) {
        assert !Answerable(arrivals[at], script);
        return Err(PacketBound);
      }
      var parsed := ParseQuery(data);
      if parsed.Err? {
        assert !Answerable(arrivals[at], script);
        return Err(Refused(parsed.error));
      }
      var q := parsed.value;
      var key := (q.name, q.questionType);
      var ordinal := if key in ordinals then ordinals[key] else 0;
      ordinals := ordinals[key := ordinal + 1];
      var response := ResponseFor(data, script, ordinal, transport);
      OrdinalIrrelevant(data, script, ordinal, transport);
      if response.Err? {
        assert !Answerable(arrivals[at], script);
        return Err(Refused(response.error));
      }
      var entry := Entry(q.name, ordinal, data, q.questionType, response.value, transport);
      ghost var before := transcript;
      transcript := transcript + [entry];
      assert transcript[..at] == before;
      forall i | 0 <= i < |transcript| ensures EntryExact(transcript, i, arrivals[i], script) {
        if i < at {
          EntryStays(before, entry, i, arrivals[i], script);
        }
      }
    }
    return Ok(transcript);
  }

  /**
   * Over a whole rebinding run, a client that requires the declared service resolves exactly the
   * first asking of `allowed.test` for each address type; every later asking is refused.
   */
  lemma {:induction false} RebindResolvesOnce(transcript: seq<Entry>, i: nat, arrival: Arrival, allowCname: bool)
    requires i < |transcript| && EntryExact(transcript, i, arrival, Rebind)
    ensures transcript[i].response.Some?
    ensures Validation(transcript[i].query, transcript[i].response.value, allowCname, true).Ok?
       <==> transcript[i].name == TestName("allowed")
            && Asked(transcript[..i], transcript[i].name, transcript[i].questionType) == 0
  {
    hide ParseQuery, ResponseFor, Validation, Verdict, TestName;
    var e := transcript[i];
    ScriptVerdict(arrival.data, Rebind, e.ordinal, arrival.transport, allowCname, true);
    DeclaredVerdict(ParseQuery(arrival.data).value, Rebind, e.ordinal, arrival.transport, allowCname);
  }
}
