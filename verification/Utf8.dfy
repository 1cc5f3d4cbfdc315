/** UTF-8 as section 3 of RFC 3629 defines it: one encoding per scalar value, and a decoder that takes no other. */
module Utf8 {
  import opened Common

  predicate Scalar(c: int) {
    0 <= c < 0xD800 || 0xE000 <= c < 0x11_0000
  }

  /** Text that UTF-8 can encode. */
  predicate Encodable(t: Text) {
    forall i :: 0 <= i < |t| ==> Scalar(t[i])
  }

  function EncodeChar(c: int): (r: Bytes)
    requires Scalar(c)
    ensures 1 <= |r| <= 4
  {
    if c < 0x80 then [c]
    else if c < 0x800 then [0xC0 + c / 0x40, 0x80 + c % 0x40]
    else if c < 0x1_0000 then [0xE0 + c / 0x1000, 0x80 + c / 0x40 % 0x40, 0x80 + c % 0x40]
    else [0xF0 + c / 0x4_0000, 0x80 + c / 0x1000 % 0x40, 0x80 + c / 0x40 % 0x40, 0x80 + c % 0x40]
  }

  /** `text.encode("utf-8")`. */
  function Encode(t: Text): (r: Bytes)
    requires Encodable(t)
  {
    if t == [] then [] else EncodeChar(t[0]) + Encode(t[1..])
  }

  predicate Continues(b: Byte) {
    0x80 <= b < 0xC0
  }

  /** The first character and its width; none for a wrong lead, a missing continuation, a longer form or a surrogate. */
  function DecodeChar(data: Bytes): (r: Option<(int, nat)>)
    ensures r.Some? ==> Scalar(r.value.0) && 1 <= r.value.1 <= |data|
  {
    if data == [] then None
    else
      var lead: int := data[0];
      if lead < 0x80 then Some((lead, 1))
      else if 0xC0 <= lead < 0xE0 && |data| >= 2 && Continues(data[1]) then
        var c := (lead - 0xC0) * 0x40 + (data[1] - 0x80);
        if c >= 0x80 then Some((c, 2)) else None
      else if 0xE0 <= lead < 0xF0 && |data| >= 3 && Continues(data[1]) && Continues(data[2]) then
        var c := ((lead - 0xE0) * 0x40 + (data[1] - 0x80)) * 0x40 + (data[2] - 0x80);
        if c >= 0x800 && Scalar(c) then Some((c, 3)) else None
      else if 0xF0 <= lead < 0xF8 && |data| >= 4 && Continues(data[1]) && Continues(data[2]) && Continues(data[3]) then
        var c := (((lead - 0xF0) * 0x40 + (data[1] - 0x80)) * 0x40 + (data[2] - 0x80)) * 0x40 + (data[3] - 0x80);
        if 0x1_0000 <= c < 0x11_0000 then Some((c, 4)) else None
      else None
  }

  /** `data.decode("utf-8")`. */
  function Decode(data: Bytes): (r: Option<Text>) {
    if data == [] then Some([])
    else
      var head := DecodeChar(data);
      if head.None? then None
      else
        var rest := Decode(data[head.value.1..]);
        if rest.None? then None else Some([head.value.0] + rest.value)
  }

  /** An encoded character is decoded whatever follows it. */
  lemma {:induction false} CharDecodes(c: int, rest: Bytes)
    requires Scalar(c)
    ensures DecodeChar(EncodeChar(c) + rest) == Some((c, |EncodeChar(c)|))
  {
    var data := EncodeChar(c) + rest;
    assert data[..|EncodeChar(c)|] == EncodeChar(c);
    var a := c / 0x40;
    assert c / 0x1000 == a / 0x40;
    assert c / 0x4_0000 == a / 0x40 / 0x40;
  }

  /** A decoded character stands there in its one encoding. */
  lemma {:induction false} DecodedChar(data: Bytes)
    requires DecodeChar(data).Some?
    ensures EncodeChar(DecodeChar(data).value.0) == data[..DecodeChar(data).value.1]
  {
    var c: int, n := DecodeChar(data).value.0, DecodeChar(data).value.1;
    var lead: int := data[0];
    if n == 2 {
      var low: int := data[1];
      assert c / 0x40 == lead - 0xC0 && c % 0x40 == low - 0x80;
    } else if n == 3 {
      var mid: int, low: int := data[1], data[2];
      var a := (lead - 0xE0) * 0x40 + (mid - 0x80);
      assert c / 0x40 == a && c % 0x40 == low - 0x80;
      assert c / 0x1000 == a / 0x40;
      assert a / 0x40 == lead - 0xE0 && a % 0x40 == mid - 0x80;
    } else if n == 4 {
      var high: int, mid: int, low: int := data[1], data[2], data[3];
      var b := (lead - 0xF0) * 0x40 + (high - 0x80);
      var a := b * 0x40 + (mid - 0x80);
      assert c / 0x40 == a && c % 0x40 == low - 0x80;
      assert a / 0x40 == b && a % 0x40 == mid - 0x80;
      assert c / 0x1000 == a / 0x40;
      assert c / 0x4_0000 == b / 0x40;
      assert b / 0x40 == lead - 0xF0 && b % 0x40 == high - 0x80;
    }
  }

  lemma {:induction false} EncodingDecodes(t: Text)
    requires Encodable(t)
    ensures Decode(Encode(t)) == Some(t)
  {
    if t != [] {
      hide EncodeChar, DecodeChar;
      var head, rest := EncodeChar(t[0]), Encode(t[1..]);
      assert Encode(t) == head + rest;
      EncodingDecodes(t[1..]);
      CharDecodes(t[0], rest);
      ConcatParts(head, rest);
      hide Encode, Encodable;
      assert Decode(head + rest) == Some([t[0]] + t[1..]);
      assert t == [t[0]] + t[1..];
    }
  }

  lemma {:induction false} DecodedIsEncoding(data: Bytes)
    requires Decode(data).Some?
    ensures Encodable(Decode(data).value) && Encode(Decode(data).value) == data
  {
    if data != [] {
      hide EncodeChar, DecodeChar;
      var head := DecodeChar(data).value;
      var rest := data[head.1..];
      DecodedIsEncoding(rest);
      DecodedChar(data);
      var t := Decode(data).value;
      assert t[1..] == Decode(rest).value;
      assert data == data[..head.1] + rest;
    }
  }

  /** Octets decode to a text if and only if they are its encoding. */
  lemma {:induction false} DecodeExact(data: Bytes, t: Text)
    ensures Decode(data) == Some(t) <==> Encodable(t) && data == Encode(t)
  {
    hide Decode, Encode, Encodable;
    if Decode(data) == Some(t) {
      DecodedIsEncoding(data);
    }
    if Encodable(t) && data == Encode(t) {
      EncodingDecodes(t);
    }
  }

  /** ASCII octets are their own text. */
  lemma {:induction false} AsciiDecodes(data: Bytes)
    requires forall i :: 0 <= i < |data| ==> data[i] < 0x80
    ensures Decode(data) == Some(data)
  {
    if data != [] {
      AsciiDecodes(data[1..]);
      assert data == [data[0]] + data[1..];
    }
  }
}
