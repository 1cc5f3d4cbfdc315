/** Canonical DNS names and their wire form (sections 2.3.4 and 3.1 of RFC 1035). */
module DnsNames {
  import opened Common

  /** Every diagnostic of the DNS codec and validator, one constructor each. */
  datatype DnsError =
    // raised while a name is encoded or decoded
    | NameNotCanonical
    | LabelNotAscii
    | LabelOutsideGrammar
    | NameTooLong
    | NameTruncated
    | QuestionNameEncoding
    | QuestionLabelNotAscii
    | QuestionNameNotCanonical
    // raised while a query is parsed, built or answered
    | QuerySize
    | QueryHeader
    | QuestionFields
    | QuestionTypeOrClass
    | QueryInput
    | ScriptInvocation
    | ResponsePacketBound
    // raised while a response is validated
    | ResponseSize
    | ResponseHeader
    | DnssecAssertion
    | QuestionIdentity
    | TcpFallbackRequired
    | TruncatedAmbiguous
    | AnswerTruncated
    | AnswerMetadata
    | CnameAmbiguous
    | AddressAmbiguous
    | AnswerType
    | TrailingBytes
    | CnameDisallowed
    | CnameLoopOrDepth
    | TerminalService
    | AnswerInventory
    | TerminalAddress

  const DOT: Byte := 46
  const HYPHEN: Byte := 45

  /** `name.split(".")`. */
  function Split(name: Text): (labels: seq<Text>)
    ensures |labels| >= 1
  {
    if name == [] then [[]]
    else
      var rest := Split(name[1..]);
      if name[0] == DOT then [[]] + rest else [[name[0]] + rest[0]] + rest[1..]
  }

  /** `".".join(labels)`. */
  function Join(labels: seq<Text>): (name: Text) {
    if labels == [] then []
    else if |labels| == 1 then labels[0]
    else labels[0] + [DOT] + Join(labels[1..])
  }

  /** Extending the first label extends the joined text. */
  lemma {:induction false} JoinHead(c: int, rest: seq<Text>)
    requires rest != []
    ensures Join([[c] + rest[0]] + rest[1..]) == [c] + Join(rest)
  {
    var labels := [[c] + rest[0]] + rest[1..];
    assert labels[1..] == rest[1..];
    if |rest| > 1 {
      var tail := [DOT] + Join(rest[1..]);
      assert Join(labels) == ([c] + rest[0]) + tail;
      assert Join(rest) == rest[0] + tail;
    }
  }

  lemma {:induction false} JoinSplit(name: Text)
    ensures Join(Split(name)) == name
  {
    if name != [] {
      JoinSplit(name[1..]);
      var rest := Split(name[1..]);
      assert name == [name[0]] + name[1..];
      if name[0] == DOT {
        assert ([[]] + rest)[1..] == rest;
      } else {
        JoinHead(name[0], rest);
      }
    }
  }

  /** Prefixing text without a dot extends the first label. */
  lemma {:induction false} SplitPrefix(prefix: Text, name: Text)
    requires DOT !in prefix
    ensures Split(prefix + name) == [prefix + Split(name)[0]] + Split(name)[1..]
  {
    if prefix == [] {
      assert prefix + name == name;
      assert prefix + Split(name)[0] == Split(name)[0];
    } else {
      var whole, tail := prefix + name, prefix[1..];
      SplitPrefix(tail, name);
      assert whole[0] == prefix[0] && whole[1..] == tail + name;
      var rest := Split(whole[1..]);
      var head := Split(name)[0];
      assert rest[0] == tail + head && rest[1..] == Split(name)[1..];
      assert [prefix[0]] + (tail + head) == prefix + head;
    }
  }

  lemma {:induction false} SplitJoin(labels: seq<Text>)
    requires labels != [] && forall i :: 0 <= i < |labels| ==> DOT !in labels[i]
    ensures Split(Join(labels)) == labels
  {
    var head := labels[0];
    if |labels| == 1 {
      SplitPrefix(head, []);
      assert head + [] == head;
    } else {
      var tail := Join(labels[1..]);
      SplitJoin(labels[1..]);
      SplitPrefix(head, [DOT] + tail);
      assert ([DOT] + tail)[1..] == tail;
      assert Split([DOT] + tail) == [[]] + labels[1..];
      assert head + ([DOT] + tail) == Join(labels);
      assert head + [] == head;
    }
  }

  predicate LabelByte(c: int) {
    'a' as int <= c <= 'z' as int || '0' as int <= c <= '9' as int || c == HYPHEN
  }

  /** The label grammar of the experiment. */
  predicate ValidLabel(lbl: Text) {
    && 1 <= |lbl| <= 63
    && lbl[0] != HYPHEN
    && lbl[|lbl| - 1] != HYPHEN
    && forall i :: 0 <= i < |lbl| ==> LabelByte(lbl[i])
  }

  predicate ValidLabels(labels: seq<Text>) {
    forall i :: 0 <= i < |labels| ==> ValidLabel(labels[i])
  }

  /** A canonical name: valid labels only, and at most 255 octets on the wire. */
  predicate Canonical(name: Text) {
    ValidLabels(Split(name)) && |name| + 2 <= 255
  }

  /** Length-prefixed labels, without the terminating zero. */
  function WireLabels(labels: seq<Text>): (r: Bytes)
    requires ValidLabels(labels)
  {
    if labels == [] then []
    else
      var lbl := labels[0];
      [|lbl|] + lbl + WireLabels(labels[1..])
  }

  /** The one wire form of a canonical name. */
  function Wire(name: Text): (r: Bytes)
    requires Canonical(name)
  {
    WireLabels(Split(name)) + [0]
  }

  lemma {:induction false} WireLabelsLength(labels: seq<Text>)
    requires ValidLabels(labels) && labels != []
    ensures |WireLabels(labels)| == |Join(labels)| + 1
  {
    if |labels| > 1 {
      WireLabelsLength(labels[1..]);
    }
  }

  /** A wire name is two octets longer than its text and never starts like a pointer. */
  lemma {:induction false} WireShape(name: Text)
    requires Canonical(name)
    ensures |Wire(name)| == |name| + 2 && 3 <= |Wire(name)| <= 255
    ensures 1 <= Wire(name)[0] <= 63
  {
    WireLabelsLength(Split(name));
    JoinSplit(name);
    assert ValidLabel(Split(name)[0]);
    assert Wire(name)[0] == |Split(name)[0]|;
  }

  // ---- encode_name ----

  function Lower(name: Text): (r: Text)
    ensures |r| == |name|
  {
    seq(|name|, i requires 0 <= i < |name| =>
      if 'A' as int <= name[i] <= 'Z' as int then name[i] + 32 else name[i])
  }

  predicate IsAscii(lbl: Text) {
    forall i :: 0 <= i < |lbl| ==> 0 <= lbl[i] < 128
  }

  /** The loop of `encode_name`: the first bad label decides the error. */
  function LabelsEncoding(labels: seq<Text>): (r: Result<Bytes, DnsError>) {
    if labels == [] then Ok([])
    else if !IsAscii(labels[0]) then Err(LabelNotAscii)
    else if !ValidLabel(labels[0]) then Err(LabelOutsideGrammar)
    else
      var rest := LabelsEncoding(labels[1..]);
      if rest.Err? then rest else Ok([|labels[0]|] + labels[0] + rest.value)
  }

  function NameEncoding(name: Text): (r: Result<Bytes, DnsError>) {
    if name == [] || name[|name| - 1] == DOT || Lower(name) != name then Err(NameNotCanonical)
    else
      var body := LabelsEncoding(Split(name));
      if body.Err? then body
      else if |body.value| + 1 > 255 then Err(NameTooLong)
      else Ok(body.value + [0])
  }

  lemma {:induction false} LabelsEncodingExact(labels: seq<Text>)
    ensures LabelsEncoding(labels).Ok? <==> ValidLabels(labels)
    ensures ValidLabels(labels) ==> LabelsEncoding(labels) == Ok(WireLabels(labels))
  {
    if labels != [] {
      LabelsEncodingExact(labels[1..]);
      assert labels == [labels[0]] + labels[1..];
      if ValidLabel(labels[0]) && ValidLabels(labels[1..]) {
        assert ValidLabels(labels);
      }
      if ValidLabels(labels) {
        assert ValidLabel(labels[0]);
        forall i | 0 <= i < |labels[1..]| ensures ValidLabel(labels[1..][i]) {
          assert labels[1..][i] == labels[i + 1];
        }
      }
    }
  }

  lemma {:induction false} JoinLabelBytes(labels: seq<Text>, i: int)
    requires ValidLabels(labels) && 0 <= i < |Join(labels)|
    ensures Join(labels)[i] == DOT || LabelByte(Join(labels)[i])
  {
    if |labels| > 0 {
      assert ValidLabel(labels[0]);
      if |labels| > 1 && i > |labels[0]| {
        JoinLabelBytes(labels[1..], i - |labels[0]| - 1);
      }
    }
  }

  lemma {:induction false} JoinLastByte(labels: seq<Text>)
    requires ValidLabels(labels) && labels != []
    ensures |Join(labels)| > 0 && Join(labels)[|Join(labels)| - 1] != DOT
  {
    assert ValidLabel(labels[0]);
    if |labels| > 1 {
      JoinLastByte(labels[1..]);
    }
  }

  /** `encode_name` accepts exactly the canonical names, and yields their wire form. */
  lemma {:induction false} NameEncodingExact(name: Text)
    ensures NameEncoding(name).Ok? <==> Canonical(name)
    ensures Canonical(name) ==> NameEncoding(name) == Ok(Wire(name))
  {
    var labels := Split(name);
    JoinSplit(name);
    LabelsEncodingExact(labels);
    if ValidLabels(labels) {
      WireLabelsLength(labels);
      JoinLastByte(labels);
      forall i | 0 <= i < |name| ensures Lower(name)[i] == name[i] {
        JoinLabelBytes(labels, i);
      }
      assert Lower(name) == name;
    }
  }

  method EncodeName(name: Text) returns (r: Result<Bytes, DnsError>)
    ensures r == NameEncoding(name)
    ensures r.Ok? <==> Canonical(name)
    ensures r.Ok? ==> r.value == Wire(name)
  {
    NameEncodingExact(name);
    if name == [] || name[|name| - 1] == DOT || Lower(name) != name {
      return Err(NameNotCanonical);
    }
    var labels := Split(name);
    var result: Bytes := [];
    var i := 0;
    assert labels[0..] == labels;
    assert LabelsEncoding(labels).Ok? ==> [] + LabelsEncoding(labels).value == LabelsEncoding(labels).value;
    while i < |labels|
      invariant 0 <= i <= |labels|
      invariant var rest := LabelsEncoding(labels[i..]);
                LabelsEncoding(labels) == if rest.Err? then rest else Ok(result + rest.value)
    {
      var encoded := labels[i];
      assert labels[i..][0] == encoded && labels[i..][1..] == labels[i + 1..];
      if !IsAscii(encoded) {
        return Err(LabelNotAscii);
      }
      if || encoded == []
         || |encoded| > 63
         || encoded[0] == '-' as int
         || encoded[|encoded| - 1] == '-' as int
         || exists k :: 0 <= k < |encoded| && !(0x61 <= encoded[k] <= 0x7A || 0x30 <= encoded[k] <= 0x39 || encoded[k] == 0x2D)
      {
        return Err(LabelOutsideGrammar);
      }
      ghost var rest := LabelsEncoding(labels[i + 1..]);
      if rest.Ok? {
        assert result + ([|encoded|] + encoded + rest.value) == result + [|encoded|] + encoded + rest.value;
      }
      result := result + [|encoded|];
      result := result + encoded;
      i := i + 1;
    }
    assert LabelsEncoding(labels[i..]) == Ok([]) && result + [] == result;
    result := result + [0];
    if |result| > 255 {
      return Err(NameTooLong);
    }
    return Ok(result);
  }

  // ---- decode_name ----

  /** The label loop of `decode_name`: labels up to and past the zero octet. */
  function LabelScan(data: Bytes, offset: nat): (r: Result<(seq<Text>, nat), DnsError>)
    ensures r.Ok? ==> offset < r.value.1 <= |data|
    decreases |data| - offset
  {
    if offset >= |data| then Err(NameTruncated)
    else
      var length := data[offset];
      var start := offset + 1;
      if length == 0 then Ok(([], start))
      else if length / 64 != 0 || length > 63 || start + length > |data| then Err(QuestionNameEncoding)
      else
        var lbl := data[start..start + length];
        if !IsAscii(lbl) then Err(QuestionLabelNotAscii)
        else
          var rest := LabelScan(data, start + length);
          if rest.Err? then rest else Ok(([lbl] + rest.value.0, rest.value.1))
  }

  function NameDecoding(data: Bytes, offset: nat): (r: Result<(Text, nat), DnsError>)
    ensures r.Ok? ==> offset < r.value.1 <= |data|
  {
    var scan := LabelScan(data, offset);
    if scan.Err? then Err(scan.error)
    else
      var name := Join(scan.value.0);
      var encoded := NameEncoding(name);
      if encoded.Err? then Err(encoded.error)
      else if encoded.value != data[offset..scan.value.1] then Err(QuestionNameNotCanonical)
      else Ok((name, scan.value.1))
  }

  /** One turn of the label loop. */
  lemma {:induction false} ScanStep(data: Bytes, offset: nat, lbl: Text)
    requires ValidLabel(lbl)
    requires offset + 1 + |lbl| <= |data|
    requires data[offset] == |lbl| && data[offset + 1..offset + 1 + |lbl|] == lbl
    ensures var rest := LabelScan(data, offset + 1 + |lbl|);
            LabelScan(data, offset) == if rest.Err? then rest else Ok(([lbl] + rest.value.0, rest.value.1))
  {
    assert |lbl| / 64 == 0;
    assert IsAscii(lbl);
  }

  /** Where the first label and the rest lie in a slice that holds wire labels. */
  lemma {:induction false} WireLabelsSlice(data: Bytes, offset: nat, labels: seq<Text>)
    requires ValidLabels(labels) && labels != []
    requires offset + |WireLabels(labels)| < |data|
    requires data[offset..offset + |WireLabels(labels)| + 1] == WireLabels(labels) + [0]
    ensures ValidLabels(labels[1..])
    ensures var lbl, rest := labels[0], WireLabels(labels[1..]);
            var next := offset + 1 + |lbl|;
            && |WireLabels(labels)| == 1 + |lbl| + |rest|
            && data[offset] == |lbl|
            && data[offset + 1..next] == lbl
            && data[next..next + |rest| + 1] == rest + [0]
  {
    assert ValidLabel(labels[0]);
    var lbl: Bytes := labels[0];
    var size: Bytes := [|lbl|];
    var wire := WireLabels(labels[1..]);
    Reassociate(size, lbl, wire, [0]);
    SliceSplit(data, offset, size, lbl + (wire + [0]));
    SliceSplit(data, offset + 1, lbl, wire + [0]);
    assert data[offset] == data[offset..offset + 1][0];
  }

  /** Scanning labels laid out on the wire gives those labels back. */
  lemma {:induction false} ScanWireLabels(data: Bytes, offset: nat, labels: seq<Text>)
    requires ValidLabels(labels)
    requires offset + |WireLabels(labels)| < |data|
    requires data[offset..offset + |WireLabels(labels)| + 1] == WireLabels(labels) + [0]
    ensures LabelScan(data, offset) == Ok((labels, offset + |WireLabels(labels)| + 1))
    decreases |labels|
  {
    if labels == [] {
      assert data[offset] == data[offset..offset + 1][0];
    } else {
      assert ValidLabel(labels[0]);
      WireLabelsSlice(data, offset, labels);
      ScanWireLabels(data, offset + 1 + |labels[0]|, labels[1..]);
      ScanStep(data, offset, labels[0]);
      assert [labels[0]] + labels[1..] == labels;
    }
  }

  lemma {:induction false} DecodeWire(data: Bytes, offset: nat, name: Text, end: nat)
    requires Canonical(name) && offset <= end <= |data| && data[offset..end] == Wire(name)
    ensures NameDecoding(data, offset) == Ok((name, end))
  {
    ScanWireLabels(data, offset, Split(name));
    JoinSplit(name);
    NameEncodingExact(name);
  }

  lemma {:induction false} DecodedIsWire(data: Bytes, offset: nat)
    requires NameDecoding(data, offset).Ok?
    ensures var (name, end) := NameDecoding(data, offset).value;
            Canonical(name) && data[offset..end] == Wire(name)
  {
    NameEncodingExact(NameDecoding(data, offset).value.0);
  }

  /**
   * `decode_name` accepts a slice exactly when it is the wire form of a canonical name,
   * at any offset and whatever follows it.
   */
  lemma {:induction false} NameDecodingExact(data: Bytes, offset: nat, name: Text, end: nat)
    ensures NameDecoding(data, offset) == Ok((name, end))
       <==> Canonical(name) && offset <= end <= |data| && data[offset..end] == Wire(name)
  {
    if NameDecoding(data, offset) == Ok((name, end)) {
      DecodedIsWire(data, offset);
    }
    if Canonical(name) && offset <= end <= |data| && data[offset..end] == Wire(name) {
      DecodeWire(data, offset, name, end);
    }
  }

  /** Two canonical names that start the same bytes are the same name: wire names are prefix free. */
  lemma {:induction false} WirePrefixFree(data: Bytes, offset: nat, first: Text, second: Text)
    requires Canonical(first) && Canonical(second)
    requires offset + |Wire(first)| <= |data| && offset + |Wire(second)| <= |data|
    requires data[offset..offset + |Wire(first)|] == Wire(first)
    requires data[offset..offset + |Wire(second)|] == Wire(second)
    ensures first == second
  {
    NameDecodingExact(data, offset, first, offset + |Wire(first)|);
    NameDecodingExact(data, offset, second, offset + |Wire(second)|);
  }

  method DecodeName(data: Bytes, offset: nat) returns (r: Result<(Text, nat), DnsError>)
    ensures r == NameDecoding(data, offset)
  {
    var labels: seq<Text> := [];
    var at := offset;
    ghost var scan := LabelScan(data, offset);
    assert scan.Ok? ==> labels + scan.value.0 == scan.value.0;
    while true
      invariant offset <= at
      invariant var rest := LabelScan(data, at);
                scan == if rest.Err? then rest else Ok((labels + rest.value.0, rest.value.1))
      invariant at > offset ==> at <= |data|
      decreases |data| - at
    {
      if at >= |data| {
        return Err(NameTruncated);
      }
      var length := data[at];
      if length == 0 {
        assert labels + [] == labels;
        at := at + 1;
        break;
      }
      if length / 64 != 0 || length > 63 || at + 1 + length > |data| {
        return Err(QuestionNameEncoding);
      }
      var lbl := data[at + 1..at + 1 + length];
      if !IsAscii(lbl) {
        return Err(QuestionLabelNotAscii);
      }
      ghost var rest := LabelScan(data, at + 1 + length);
      if rest.Ok? {
        assert labels + ([lbl] + rest.value.0) == labels + [lbl] + rest.value.0;
      }
      labels := labels + [lbl];
      at := at + 1 + length;
    }
    var name := Join(labels);
    var encoded := EncodeName(name);
    if encoded.Err? {
      return Err(encoded.error);
    }
    if encoded.value != data[offset..at] {
      return Err(QuestionNameNotCanonical);
    }
    return Ok((name, at));
  }
}
