/** The explicit broker: one framed canonical request in, one framed answer out. */
module Broker {
  import opened Common
  import opened BrokerJson
  import opened Utf8

  // ---- the objects ----

  const OPERATION: Text := Ascii("operation")
  const PAYLOAD: Text := Ascii("payload")
  const STATUS: Text := Ascii("status")
  const CODE: Text := Ascii("code")
  const ECHO: Text := Ascii("echo")

  lemma {:induction false} AsciiEncodable(s: string)
    ensures Encodable(Ascii(s))
  {
  }

  function WireRequest(payload: Text): (r: Bytes)
    requires Encodable(payload)
  {
    AsciiEncodable("operation");
    AsciiEncodable("echo");
    AsciiEncodable("payload");
    WireObject([Member(OPERATION, ECHO), Member(PAYLOAD, payload)])
  }

  function WireSuccess(payload: Text): (r: Bytes)
    requires Encodable(payload)
  {
    AsciiEncodable("payload");
    AsciiEncodable("status");
    AsciiEncodable("ok");
    WireObject([Member(PAYLOAD, payload), Member(STATUS, Ascii("ok"))])
  }

  function WireFailure(): (r: Bytes) {
    AsciiEncodable("code");
    AsciiEncodable("request-failed");
    AsciiEncodable("status");
    AsciiEncodable("error");
    WireObject([Member(CODE, Ascii("request-failed")), Member(STATUS, Ascii("error"))])
  }

  // ---- unique names ----

  predicate DistinctKeys(ms: seq<Member>) {
    forall i, j :: 0 <= i < j < |ms| ==> ms[i].key != ms[j].key
  }

  /** The dictionary of the members, unless a name repeats. */
  function Dictionary(ms: seq<Member>): (r: Option<map<Text, Text>>) {
    if ms == [] then Some(map[])
    else
      var front, last := Dictionary(ms[..|ms| - 1]), ms[|ms| - 1];
      if front.None? || last.key in front.value then None else Some(front.value[last.key := last.value])
  }

  /** `unique_object`. */
  method UniqueObject(ms: seq<Member>) returns (r: Option<map<Text, Text>>)
    ensures r == Dictionary(ms)
  {
    var result: map<Text, Text> := map[];
    for n := 0 to |ms|
      invariant Dictionary(ms[..n]) == Some(result)
    {
      assert ms[..n + 1][..n] == ms[..n];
      if ms[n].key in result {
        RepeatStays(ms, n + 1);
        return None;
      }
      result := result[ms[n].key := ms[n].value];
    }
    assert ms[..|ms|] == ms;
    r := Some(result);
  }

  lemma {:induction false} RepeatStays(ms: seq<Member>, n: nat)
    requires n <= |ms| && Dictionary(ms[..n]).None?
    ensures Dictionary(ms).None?
    decreases |ms| - n
  {
    if n < |ms| {
      assert ms[..n + 1][..n] == ms[..n];
      RepeatStays(ms, n + 1);
    } else {
      assert ms[..n] == ms;
    }
  }

  /** A dictionary comes of exactly the lists without repeated names, and holds every member. */
  lemma {:induction false} DictionaryExact(ms: seq<Member>)
    ensures Dictionary(ms).Some? <==> DistinctKeys(ms)
    ensures Dictionary(ms).Some? ==> forall i :: 0 <= i < |ms| ==> ms[i].key in Dictionary(ms).value && Dictionary(ms).value[ms[i].key] == ms[i].value
    ensures Dictionary(ms).Some? ==> forall key :: key in Dictionary(ms).value ==> exists i :: 0 <= i < |ms| && ms[i].key == key
  {
    if ms != [] {
      var front, last := ms[..|ms| - 1], ms[|ms| - 1];
      DictionaryExact(front);
      assert forall i :: 0 <= i < |front| ==> front[i] == ms[i];
      if Dictionary(front).Some? && last.key in Dictionary(front).value {
        var i :| 0 <= i < |front| && front[i].key == last.key;
        assert ms[i].key == ms[|ms| - 1].key;
      }
      if Dictionary(ms).Some? {
        var d := Dictionary(ms).value;
        forall key | key in d ensures exists i :: 0 <= i < |ms| && ms[i].key == key {
          if key != last.key {
            var i :| 0 <= i < |front| && front[i].key == key;
            assert ms[i].key == key;
          } else {
            assert ms[|ms| - 1].key == key;
          }
        }
      }
    }
  }

  // ---- requests ----

  /** `decode_request`: the payload, or nothing where the source raises. */
  function DecodeRequest(data: Bytes): (r: Option<Text>)
    ensures r.Some? ==> Encodable(r.value)
  {
    if data == [] || |data| > MAX_FRAME_BYTES then None
    else if Decode(data).None? then None
    else
      var members := ParseObject(Decode(data).value);
      if members.None? then None
      else
        var fields := Dictionary(members.value);
        if fields.None? || fields.value.Keys != {OPERATION, PAYLOAD} then None
        else if fields.value[OPERATION] != ECHO then None
        else
          var payload := fields.value[PAYLOAD];
          if !Encodable(payload) then None
          else if |Encode(payload)| == 0 || |Encode(payload)| > MAX_PAYLOAD_BYTES then None
          else if WireRequest(payload) != data then None
          else Some(payload)
  }

  /** A payload the broker may be asked to echo: its size in UTF-8, and in the frame once escaped. */
  predicate Requestable(payload: Text) {
    && Encodable(payload)
    && 1 <= |Encode(payload)| <= 1024
    && |WireRequest(payload)| <= 4096
  }

  lemma {:induction false} EscapeIsAscii(t: Text)
    requires Encodable(t)
    ensures forall i :: 0 <= i < |Escape(t)| ==> Escape(t)[i] < 0x80
  {
    if t != [] {
      EscapeIsAscii(t[1..]);
      CharIsAscii(t[0]);
    }
  }

  lemma {:induction false} CharIsAscii(c: int)
    requires Scalar(c)
    ensures forall i :: 0 <= i < |EscapeChar(c)| ==> EscapeChar(c)[i] < 0x80
  {
    if ShortEscape(c).None? && !(0x20 <= c <= 0x7E) && c >= 0x1_0000 {
      var v := c - 0x1_0000;
      UnitIsAscii(0xD800 + v / 0x400);
      UnitIsAscii(0xDC00 + v % 0x400);
    }
  }

  lemma {:induction false} UnitIsAscii(u: int)
    requires 0 <= u < 0x1_0000
    ensures forall i :: 0 <= i < 6 ==> UnicodeEscape(u)[i] < 0x80
  {
  }

  lemma {:induction false} MembersAreAscii(ms: seq<Member>)
    requires EncodableMembers(ms) && ms != []
    ensures forall i :: 0 <= i < |WireMembers(ms)| ==> WireMembers(ms)[i] < 0x80
  {
    hide Escape;
    EscapeIsAscii(ms[0].key);
    EscapeIsAscii(ms[0].value);
    if |ms| > 1 {
      MembersAreAscii(ms[1..]);
    }
  }

  lemma {:induction false} RequestMembers(payload: Text)
    requires Encodable(payload)
    ensures var ms := [Member(OPERATION, ECHO), Member(PAYLOAD, payload)];
            && EncodableMembers(ms) && WireRequest(payload) == WireObject(ms)
            && Dictionary(ms) == Some(map[OPERATION := ECHO, PAYLOAD := payload])
  {
    hide WireObject;
    AsciiEncodable("operation");
    AsciiEncodable("echo");
    AsciiEncodable("payload");
    var ms := [Member(OPERATION, ECHO), Member(PAYLOAD, payload)];
    assert |OPERATION| == 9 && |PAYLOAD| == 7;
    assert ms[..1] == [ms[0]] && ms[..1][..0] == [];
    assert Dictionary([]) == Some(map[]);
    assert Dictionary(ms[..1]) == Some(map[OPERATION := ECHO]);
  }

  /** Every requestable payload comes back from its canonical request. */
  lemma {:induction false} RequestDecodes(payload: Text)
    requires Requestable(payload)
    ensures DecodeRequest(WireRequest(payload)) == Some(payload)
  {
    hide WireMembers, ParseObject, Dictionary, Encode, Decode, Escape;
    var ms := [Member(OPERATION, ECHO), Member(PAYLOAD, payload)];
    var data := WireRequest(payload);
    RequestMembers(payload);
    ObjectReads(ms);
    MembersAreAscii(ms);
    AsciiDecodes(data);
    assert data == [OPEN] + (WireMembers(ms) + [CLOSE]);
    assert |OPERATION| == 9 && |PAYLOAD| == 7;
  }

  /** The broker accepts exactly the canonical requests of requestable payloads, each under one payload. */
  lemma {:induction false} DecodeExact(data: Bytes, payload: Text)
    ensures DecodeRequest(data) == Some(payload) <==> Requestable(payload) && data == WireRequest(payload)
  {
    hide ParseObject, Dictionary, Encode, Decode, WireObject;
    if Requestable(payload) && data == WireRequest(payload) {
      RequestDecodes(payload);
    }
  }

  /** Two requests with one payload are one request, and two payloads never share a request. */
  lemma {:induction false} RequestsInjective(a: Text, b: Text)
    requires Requestable(a) && Requestable(b) && WireRequest(a) == WireRequest(b)
    ensures a == b
  {
    hide DecodeRequest, Requestable, WireRequest;
    RequestDecodes(a);
    RequestDecodes(b);
  }

  // ---- sizes ----

  lemma {:induction false} PlainSize(t: Text)
    requires Plain(t)
    ensures Encodable(t) && |Escape(t)| == |t| && Escape(t) == t
  {
    if t != [] {
      PlainSize(t[1..]);
    }
  }

  lemma {:induction false} PairSize(a: Member, b: Member)
    requires Encodable(a.key) && Encodable(a.value) && Encodable(b.key) && Encodable(b.value)
    ensures |WireObject([a, b])| == 13 + |Escape(a.key)| + |Escape(a.value)| + |Escape(b.key)| + |Escape(b.value)|
  {
    hide Escape;
    var ms := [a, b];
    assert ms[1..] == [b];
    assert WireMembers([b]) == WireMember(b);
    assert WireMembers(ms) == WireMember(a) + ([COMMA] + WireMember(b));
  }

  /** The answer is five octets shorter than the request it answers. */
  lemma {:induction false} SizesOf(payload: Text)
    requires Encodable(payload)
    ensures |WireRequest(payload)| == 33 + |Escape(payload)|
    ensures |WireSuccess(payload)| == 28 + |Escape(payload)|
    ensures |WireFailure()| == 42
  {
    hide WireObject, Escape;
    PlainSize(OPERATION);
    PlainSize(PAYLOAD);
    PlainSize(STATUS);
    PlainSize(CODE);
    PlainSize(ECHO);
    PlainSize(Ascii("ok"));
    PlainSize(Ascii("error"));
    PlainSize(Ascii("request-failed"));
    PairSize(Member(OPERATION, ECHO), Member(PAYLOAD, payload));
    PairSize(Member(PAYLOAD, payload), Member(STATUS, Ascii("ok")));
    PairSize(Member(CODE, Ascii("request-failed")), Member(STATUS, Ascii("error")));
  }

  lemma {:induction false} SuccessFits(data: Bytes)
    requires DecodeRequest(data).Some?
    ensures |WireSuccess(DecodeRequest(data).value)| == |data| - 5
    ensures 1 <= |WireSuccess(DecodeRequest(data).value)| <= MAX_FRAME_BYTES
  {
    hide DecodeRequest, WireSuccess, WireRequest;
    var payload := DecodeRequest(data).value;
    DecodeExact(data, payload);
    SizesOf(payload);
  }

  // ---- what the objects say ----

  predicate Plain(t: Text) {
    forall i :: 0 <= i < |t| ==> 0x20 <= t[i] <= 0x7E && t[i] != 0x22 && t[i] != 0x5C
  }

  /** A member of plain name and value is both in quotes with a colon between. */
  lemma {:induction false} PlainMember(m: Member)
    requires Plain(m.key) && Plain(m.value)
    ensures CodePoints(m.key) && CodePoints(m.value)
    ensures WireMember(m) == [0x22] + m.key + [0x22, 0x3A, 0x22] + m.value + [0x22]
  {
    hide Escape;
    PlainSize(m.key);
    PlainSize(m.value);
  }

  /** Quoting a plain name and value, as literals spell it. */
  lemma {:induction false} MemberLiteral(key: string, value: string)
    requires Plain(Ascii(key)) && Plain(Ascii(value))
    ensures Literal("\"" + key + "\":\"" + value + "\"") == [0x22] + Ascii(key) + [0x22, 0x3A, 0x22] + Ascii(value) + [0x22]
  {
    var whole := "\"" + key + "\":\"" + value + "\"";
    forall i | 0 <= i < |whole| ensures whole[i] as int < 256 {
      assert i == 0 || i > |key| || whole[i] == key[i - 1];
      if 0 < i <= |key| {
        assert Ascii(key)[i - 1] == whole[i] as int;
      } else if |key| + 4 <= i < |key| + 4 + |value| {
        assert Ascii(value)[i - |key| - 4] == whole[i] as int;
      }
    }
  }

  lemma {:induction false} RegisteredMembers()
    ensures Plain(OPERATION) && Plain(ECHO) && Plain(PAYLOAD) && Plain(STATUS) && Plain(CODE)
    ensures Plain(Ascii("ok")) && Plain(Ascii("error")) && Plain(Ascii("request-failed"))
  {
  }

  /** The canonical request around the escaped payload. */
  lemma {:induction false} RequestOctets(payload: Text)
    requires Encodable(payload)
    ensures WireRequest(payload)
         == Literal("{") + Literal("\"" + "operation" + "\":\"" + "echo" + "\"") + Literal(",")
            + [0x22] + Ascii("payload") + [0x22, 0x3A, 0x22] + Escape(payload) + Literal("\"}")
  {
    hide Escape;
    RegisteredMembers();
    MemberLiteral("operation", "echo");
    PlainMember(Member(OPERATION, ECHO));
    PlainSize(PAYLOAD);
    var ms := [Member(OPERATION, ECHO), Member(PAYLOAD, payload)];
    TwoMembers(ms[0], ms[1]);
    hide WireObject, Literal, Ascii, Plain;
    assert Literal("{") == [OPEN] && Literal(",") == [COMMA] && Literal("\"}") == [QUOTE, CLOSE] by { MarkLiterals(); }
    var first := WireMember(ms[0]);
    assert WireMember(ms[1]) == [QUOTE] + PAYLOAD + [QUOTE, COLON, QUOTE] + Escape(payload) + [QUOTE];
    assert WireRequest(payload) == [OPEN] + first + [COMMA] + WireMember(ms[1]) + [CLOSE];
  }

  lemma {:induction false} TwoMembers(a: Member, b: Member)
    requires CodePoints(a.key) && CodePoints(a.value) && CodePoints(b.key) && CodePoints(b.value)
    ensures WireObject([a, b]) == [OPEN] + WireMember(a) + [COMMA] + WireMember(b) + [CLOSE]
  {
    hide WireMember;
    var ms := [a, b];
    assert ms[1..] == [b];
    assert WireMembers([b]) == WireMember(b);
    assert WireMembers(ms) == WireMember(a) + ([COMMA] + WireMember(b));
  }

  lemma {:induction false} MarkLiterals()
    ensures Literal("{") == [OPEN] && Literal(",") == [COMMA] && Literal("}") == [CLOSE] && Literal("\"}") == [QUOTE, CLOSE]
  {
  }

  /** The answer that echoes a payload. */
  lemma {:induction false} SuccessOctets(payload: Text)
    requires Encodable(payload)
    ensures WireSuccess(payload)
         == Literal("{") + ([0x22] + Ascii("payload") + [0x22, 0x3A, 0x22] + Escape(payload) + [0x22]) + Literal(",")
            + Literal("\"" + "status" + "\":\"" + "ok" + "\"") + Literal("}")
  {
    hide Escape;
    RegisteredMembers();
    MemberLiteral("status", "ok");
    PlainMember(Member(STATUS, Ascii("ok")));
    PlainSize(PAYLOAD);
    var ms := [Member(PAYLOAD, payload), Member(STATUS, Ascii("ok"))];
    TwoMembers(ms[0], ms[1]);
    hide WireObject, Literal, Ascii, Plain;
    MarkLiterals();
    assert WireMember(ms[0]) == [QUOTE] + PAYLOAD + [QUOTE, COLON, QUOTE] + Escape(payload) + [QUOTE];
  }

  lemma {:induction false} FailureOctets()
    ensures WireFailure()
         == Literal("{") + Literal("\"" + "code" + "\":\"" + "request-failed" + "\"") + Literal(",")
            + Literal("\"" + "status" + "\":\"" + "error" + "\"") + Literal("}")
  {
    hide Escape;
    RegisteredMembers();
    MemberLiteral("code", "request-failed");
    MemberLiteral("status", "error");
    PlainMember(Member(CODE, Ascii("request-failed")));
    PlainMember(Member(STATUS, Ascii("error")));
    TwoMembers(Member(CODE, Ascii("request-failed")), Member(STATUS, Ascii("error")));
    hide WireObject, Literal, Ascii, Plain, WireMember;
    MarkLiterals();
  }

  /** An object that parses to exactly these two entries, in this order. */
  predicate SaysTwo(wire: Bytes, firstKey: string, first: Text, secondKey: string, second: Text) {
    && ParseObject(wire) == Some([Member(Ascii(firstKey), first), Member(Ascii(secondKey), second)])
    && Dictionary([Member(Ascii(firstKey), first), Member(Ascii(secondKey), second)])
       == Some(map[Ascii(firstKey) := first, Ascii(secondKey) := second])
  }

  lemma {:induction false} TwoEntries(firstKey: string, first: Text, secondKey: string, second: Text)
    requires Encodable(first) && Encodable(second) && |firstKey| != |secondKey|
    ensures var ms := [Member(Ascii(firstKey), first), Member(Ascii(secondKey), second)];
            EncodableMembers(ms) && SaysTwo(WireObject(ms), firstKey, first, secondKey, second)
  {
    hide WireObject, ParseObject;
    AsciiEncodable(firstKey);
    AsciiEncodable(secondKey);
    var ms := [Member(Ascii(firstKey), first), Member(Ascii(secondKey), second)];
    ObjectReads(ms);
    assert ms[..1] == [ms[0]] && ms[..1][..0] == [];
    assert Dictionary([]) == Some(map[]);
    assert Dictionary(ms[..1]) == Some(map[Ascii(firstKey) := first]);
    assert |Ascii(firstKey)| != |Ascii(secondKey)|;
  }

  /** Read back, a request asks to echo its payload, an answer is ok with that payload, a refusal is an error. */
  lemma {:induction false} ObjectsSay(payload: Text)
    requires Encodable(payload)
    ensures SaysTwo(WireRequest(payload), "operation", Ascii("echo"), "payload", payload)
    ensures SaysTwo(WireSuccess(payload), "payload", payload, "status", Ascii("ok"))
    ensures SaysTwo(WireFailure(), "code", Ascii("request-failed"), "status", Ascii("error"))
  {
    hide WireObject, ParseObject, SaysTwo;
    AsciiEncodable("echo");
    AsciiEncodable("ok");
    AsciiEncodable("request-failed");
    AsciiEncodable("error");
    TwoEntries("operation", Ascii("echo"), "payload", payload);
    TwoEntries("payload", payload, "status", Ascii("ok"));
    TwoEntries("code", Ascii("request-failed"), "status", Ascii("error"));
  }

  // ---- frames ----

  datatype FrameError = Truncated | LengthInvalid | TrailingBytes

  /** `struct.pack(">I", len(payload)) + payload`. */
  function FrameWire(payload: Bytes): (r: Bytes)
    requires |payload| <= MAX_FRAME_BYTES
  {
    PackU32(|payload|) + payload
  }

  /** What a whole stream, followed by its end, means as one frame. */
  function FrameDecoding(stream: Bytes): (r: Result<Bytes, FrameError>) {
    if |stream| < 4 then Err(Truncated)
    else
      var size := U32(stream, 0);
      if size == 0 || size > MAX_FRAME_BYTES then Err(LengthInvalid)
      else if |stream| < 4 + size then Err(Truncated)
      else if |stream| > 4 + size then Err(TrailingBytes)
      else Ok(stream[4..])
  }

  /** A stream is a frame exactly when it is what `write_frame` emits. */
  lemma {:induction false} FrameExact(stream: Bytes, payload: Bytes)
    ensures FrameDecoding(stream) == Ok(payload) <==> 1 <= |payload| <= 4096 && stream == FrameWire(payload)
  {
    if FrameDecoding(stream) == Ok(payload) {
      U32Inverse(stream, 0);
      assert stream == stream[0..4] + stream[4..];
    }
    if 1 <= |payload| <= MAX_FRAME_BYTES && stream == FrameWire(payload) {
      var size := PackU32(|payload|);
      assert U32(stream, 0) == U32(size, 0);
      assert stream[4..] == payload;
    }
  }

  /** A connected socket: what the peer will still deliver before its end of stream, and what was sent to it. */
  class Channel {
    var input: Bytes
    var output: Bytes
    var shut: bool

    constructor (incoming: Bytes)
      ensures input == incoming && output == [] && !shut
    {
      input, output, shut := incoming, [], false;
    }

    /** `recv`: some octets, as many as the system likes up to the limit; none only at the end of the stream. */
    method Recv(limit: nat) returns (chunk: Bytes)
      requires limit > 0
      modifies `input
      ensures old(input) == chunk + input && |chunk| <= limit
      ensures chunk == [] <==> old(input) == []
    {
      if input == [] {
        return [];
      }
      var n: nat :| 1 <= n <= limit && n <= |input|;
      chunk := input[..n];
      input := input[n..];
    }

    /** `read_exact`. */
    method ReadExact(size: nat) returns (r: Result<Bytes, FrameError>)
      modifies `input
      ensures |old(input)| >= size ==> r == Ok(old(input)[..size]) && input == old(input)[size..]
      ensures |old(input)| < size ==> r == Err(Truncated)
    {
      var result: Bytes := [];
      while |result| < size
        invariant |result| <= size && result + input == old(input)
      {
        var chunk := Recv(size - |result|);
        if chunk == [] {
          assert result + [] == old(input);
          return Err(Truncated);
        }
        ConcatAssociates(result, chunk, input);
        result := result + chunk;
      }
      r := Ok(result);
    }

    /** `read_frame`: whatever the chunks, the frame that the whole stream is. */
    method ReadFrame() returns (r: Result<Bytes, FrameError>)
      modifies `input
      ensures r == FrameDecoding(old(input))
    {
      var header := ReadExact(4);
      if header.Err? {
        return header;
      }
      var size := U32(header.value, 0);
      assert size == U32(old(input), 0);
      if size == 0 || size > MAX_FRAME_BYTES {
        return Err(LengthInvalid);
      }
      var payload := ReadExact(size);
      if payload.Err? {
        return payload;
      }
      var trailing := Recv(1);
      if trailing != [] {
        return Err(TrailingBytes);
      }
      assert old(input)[4..][..size] == old(input)[4..];
      r := payload;
    }

    /** `write_frame`: nothing for an empty or oversized payload, else the frame and the end of the stream. */
    method WriteFrame(payload: Bytes) returns (ok: bool)
      modifies `output, `shut
      ensures ok <==> 1 <= |payload| <= 4096
      ensures ok ==> output == old(output) + FrameWire(payload) && shut
      ensures !ok ==> output == old(output) && shut == old(shut)
    {
      if payload == [] || |payload| > MAX_FRAME_BYTES {
        return false;
      }
      output := output + FrameWire(payload);
      shut := true;
      ok := true;
    }

    /** `serve_broker`, told whether fetching the service succeeds. */
    method ServeBroker(fetched: bool) returns (status: int)
      requires output == []
      modifies this
      ensures output == Served(old(input), fetched) && shut
      ensures status == if Answered(old(input), fetched).Some? then 0 else 7
    {
      hide DecodeRequest, WireSuccess, WireFailure, WireRequest, FrameDecoding, FrameWire;
      SizesOf([]);
      var frame := ReadFrame();
      if frame.Ok? {
        var payload := DecodeRequest(frame.value);
        if payload.Some? && fetched {
          SuccessFits(frame.value);
          var written := WriteFrame(WireSuccess(payload.value));
          return 0;
        }
      }
      var written := WriteFrame(WireFailure());
      status := 7;
    }
  }

  /** The payload that a served stream gets echoed, if any. */
  function Answered(stream: Bytes, fetched: bool): (r: Option<Text>)
    ensures r.Some? ==> Encodable(r.value)
  {
    var frame := FrameDecoding(stream);
    if frame.Err? || !fetched then None else DecodeRequest(frame.value)
  }

  /** Everything the broker sends back for a whole incoming stream. */
  function Served(stream: Bytes, fetched: bool): (r: Bytes) {
    var payload := Answered(stream, fetched);
    if payload.Some? then
      SuccessFits(FrameDecoding(stream).value);
      FrameWire(WireSuccess(payload.value))
    else
      SizesOf([]);
      FrameWire(WireFailure())
  }

  lemma {:induction false} SuccessesDiffer(a: Text, b: Text)
    requires Encodable(a) && Encodable(b)
    ensures WireSuccess(a) == WireSuccess(b) ==> a == b
    ensures WireSuccess(a) != WireFailure()
  {
    hide WireMembers, ParseObject;
    AsciiEncodable("payload");
    AsciiEncodable("status");
    AsciiEncodable("ok");
    AsciiEncodable("code");
    AsciiEncodable("request-failed");
    AsciiEncodable("error");
    var success := [Member(PAYLOAD, a), Member(STATUS, Ascii("ok"))];
    var other := [Member(PAYLOAD, b), Member(STATUS, Ascii("ok"))];
    var failure := [Member(CODE, Ascii("request-failed")), Member(STATUS, Ascii("error"))];
    ObjectReads(success);
    ObjectReads(other);
    ObjectReads(failure);
    assert |PAYLOAD| == 7 && |CODE| == 4;
    assert success[0] != failure[0];
    if WireSuccess(a) == WireSuccess(b) {
      assert success[0] == other[0];
    }
  }

  /**
   * End to end: the broker's answer is the frame echoing `payload` exactly when the service was reached and the
   * stream was the one frame of the one canonical request for that payload.
   */
  lemma {:induction false} ServedExact(stream: Bytes, fetched: bool, payload: Text)
    requires Encodable(payload)
    ensures FrameDecoding(Served(stream, fetched)) == Ok(WireSuccess(payload))
       <==> fetched && Requestable(payload) && stream == FrameWire(WireRequest(payload))
  {
    hide DecodeRequest, WireSuccess, WireFailure, WireRequest, FrameDecoding, FrameWire, Requestable;
    SizesOf([]);
    FrameExact(stream, WireRequest(payload));
    if Requestable(payload) {
      RequestableSize(payload);
      RequestDecodes(payload);
    }
    SuccessesDiffer(payload, payload);
    var answer := Answered(stream, fetched);
    if answer.Some? {
      var data := FrameDecoding(stream).value;
      SuccessFits(data);
      FrameExact(FrameWire(WireSuccess(answer.value)), WireSuccess(answer.value));
      SuccessesDiffer(answer.value, payload);
      DecodeExact(data, answer.value);
    } else {
      FrameExact(FrameWire(WireFailure()), WireFailure());
    }
  }

  /**
   * Every stream is answered with one frame: its object says ok and repeats the payload if the stream was answered,
   * and otherwise says that the request failed.
   */
  lemma {:induction false} AnswerSays(stream: Bytes, fetched: bool)
    ensures FrameDecoding(Served(stream, fetched)).Ok?
    ensures var answer, data := Answered(stream, fetched), FrameDecoding(Served(stream, fetched)).value;
            if answer.Some? then SaysTwo(data, "payload", answer.value, "status", Ascii("ok"))
            else SaysTwo(data, "code", Ascii("request-failed"), "status", Ascii("error"))
  {
    hide DecodeRequest, WireSuccess, WireFailure, WireRequest, FrameDecoding, FrameWire, SaysTwo;
    SizesOf([]);
    var answer := Answered(stream, fetched);
    if answer.Some? {
      SuccessFits(FrameDecoding(stream).value);
      FrameExact(FrameWire(WireSuccess(answer.value)), WireSuccess(answer.value));
      ObjectsSay(answer.value);
    } else {
      FrameExact(FrameWire(WireFailure()), WireFailure());
      ObjectsSay([]);
    }
  }

  lemma {:induction false} RequestableSize(payload: Text)
    requires Requestable(payload)
    ensures Encodable(payload) && 1 <= |WireRequest(payload)| <= MAX_FRAME_BYTES
  {
  }
}
