/**
 * The broker's wire objects: canonical JSON objects of string members, written with every character outside
 * printable ASCII escaped (section 7 of RFC 8259), and the reader that accepts exactly one spelling of a request.
 */
module BrokerJson {
  import opened Common
  import opened Utf8

  const QUOTE: Byte := 0x22
  const BACKSLASH: Byte := 0x5C
  const OPEN: Byte := 0x7B
  const CLOSE: Byte := 0x7D
  const COLON: Byte := 0x3A
  const COMMA: Byte := 0x2C
  const UNICODE: Byte := 0x75

  const MAX_FRAME_BYTES := 4096
  const MAX_PAYLOAD_BYTES := 1024

  // ---- writing strings ----

  function HexDigit(v: int): (r: Byte)
    requires 0 <= v < 16
  {
    if v < 10 then 0x30 + v else 0x57 + v
  }

  function UnicodeEscape(u: int): (r: Bytes)
    requires 0 <= u < 0x1_0000
    ensures |r| == 6
  {
    [BACKSLASH, UNICODE, HexDigit(u / 0x1000), HexDigit(u / 0x100 % 16), HexDigit(u / 0x10 % 16), HexDigit(u % 16)]
  }

  /** The two-character escapes, by the character they stand for. */
  function ShortEscape(c: int): (r: Option<Byte>) {
    if c == 0x22 then Some(0x22)
    else if c == 0x5C then Some(0x5C)
    else if c == 0x0A then Some(0x6E)
    else if c == 0x0D then Some(0x72)
    else if c == 0x09 then Some(0x74)
    else if c == 0x0C then Some(0x66)
    else if c == 0x08 then Some(0x62)
    else None
  }

  /** A code point of a Python string, surrogates included. */
  predicate CodePoint(c: int) {
    0 <= c < 0x11_0000
  }

  predicate CodePoints(t: Text) {
    forall i :: 0 <= i < |t| ==> CodePoint(t[i])
  }

  function EscapeChar(c: int): (r: Bytes)
    requires CodePoint(c)
    ensures 1 <= |r|
  {
    if ShortEscape(c).Some? then [BACKSLASH, ShortEscape(c).value]
    else if 0x20 <= c <= 0x7E then [c]
    else if c < 0x1_0000 then UnicodeEscape(c)
    else
      var v := c - 0x1_0000;
      UnicodeEscape(0xD800 + v / 0x400) + UnicodeEscape(0xDC00 + v % 0x400)
  }

  function Escape(t: Text): (r: Bytes)
    requires CodePoints(t)
  {
    if t == [] then [] else EscapeChar(t[0]) + Escape(t[1..])
  }

  /** Exactly seven characters have a two-octet escape, by letter; the printable rest stands for itself. */
  lemma {:induction false} ShortForms(c: int)
    requires CodePoint(c)
    ensures |EscapeChar(c)| == 2 <==> c in {8, 9, 10, 12, 13, 0x22, 0x5C}
    ensures EscapeChar(8) == Literal("\\b") && EscapeChar(9) == Literal("\\t") && EscapeChar(10) == Literal("\\n")
    ensures EscapeChar(12) == Literal("\\f") && EscapeChar(13) == Literal("\\r")
    ensures EscapeChar(0x22) == Literal("\\\"") && EscapeChar(0x5C) == Literal("\\\\")
    ensures EscapeChar(c) == [c] <==> 0x20 <= c <= 0x7E && c != 0x22 && c != 0x5C
  {
  }

  /** Every other character takes one or two escapes of four lower-case hexadecimal digits. */
  lemma {:induction false} LongForms(c: int)
    requires CodePoint(c) && ShortEscape(c).None? && !(0x20 <= c <= 0x7E)
    ensures |EscapeChar(c)| == if c < 0x1_0000 then 6 else 12
    ensures forall i :: 0 <= i < |EscapeChar(c)| && i % 6 >= 2 ==> LowerHex(EscapeChar(c)[i])
  {
    if c >= 0x1_0000 {
      var v := c - 0x1_0000;
      DigitsLower(0xD800 + v / 0x400);
      DigitsLower(0xDC00 + v % 0x400);
    } else {
      DigitsLower(c);
    }
  }

  predicate LowerHex(b: Byte) {
    0x30 <= b <= 0x39 || 0x61 <= b <= 0x66
  }

  lemma {:induction false} DigitsLower(u: int)
    requires 0 <= u < 0x1_0000
    ensures forall i :: 2 <= i < 6 ==> LowerHex(UnicodeEscape(u)[i])
  {
  }

  // ---- reading strings ----

  function HexValue(b: int): (r: Option<int>)
    ensures r.Some? ==> 0 <= r.value < 16
  {
    if 0x30 <= b <= 0x39 then Some(b - 0x30)
    else if 0x61 <= b <= 0x66 then Some(b - 0x57)
    else if 0x41 <= b <= 0x46 then Some(b - 0x37)
    else None
  }

  function HexUnit(t: Text): (r: Option<int>)
    ensures r.Some? ==> 0 <= r.value < 0x1_0000
  {
    if |t| < 4 then None
    else
      var a, b, c, d := HexValue(t[0]), HexValue(t[1]), HexValue(t[2]), HexValue(t[3]);
      if a.None? || b.None? || c.None? || d.None? then None
      else Some(a.value * 0x1000 + b.value * 0x100 + c.value * 0x10 + d.value)
  }

  function ShortMeaning(b: int): (r: Option<int>) {
    if b == 0x22 || b == 0x5C || b == 0x2F then Some(b)
    else if b == 0x6E then Some(0x0A)
    else if b == 0x72 then Some(0x0D)
    else if b == 0x74 then Some(0x09)
    else if b == 0x66 then Some(0x0C)
    else if b == 0x62 then Some(0x08)
    else None
  }

  /** A string's text and what follows its closing quote. */
  datatype Scanned = Scanned(text: Text, rest: Text)

  function Prepend(c: int, s: Option<Scanned>): (r: Option<Scanned>) {
    if s.None? then None else Some(s.value.(text := [c] + s.value.text))
  }

  /** The characters up to the closing quote; escapes resolved, surrogate pairs joined, control characters refused. */
  function ScanString(t: Text): (r: Option<Scanned>)
    ensures r.Some? ==> |r.value.rest| < |t|
    decreases |t|
  {
    if t == [] then None
    else if t[0] == QUOTE then Some(Scanned([], t[1..]))
    else if t[0] != BACKSLASH then
      if t[0] < 0x20 then None else Prepend(t[0], ScanString(t[1..]))
    else if |t| < 2 then None
    else if t[1] != UNICODE then
      if ShortMeaning(t[1]).None? then None else Prepend(ShortMeaning(t[1]).value, ScanString(t[2..]))
    else if HexUnit(t[2..]).None? then None
    else ScanUnit(t, HexUnit(t[2..]).value)
  }

  /** After one `\uXXXX`: a high surrogate takes a low one with it. */
  function ScanUnit(t: Text, unit: int): (r: Option<Scanned>)
    requires |t| >= 6
    ensures r.Some? ==> |r.value.rest| < |t|
    decreases |t|, 0
  {
    if 0xD800 <= unit < 0xDC00 && |t| >= 8 && t[6] == BACKSLASH && t[7] == UNICODE then
      var low := HexUnit(t[8..]);
      if low.None? then None
      else if 0xDC00 <= low.value < 0xE000 then
        Prepend(0x1_0000 + (unit - 0xD800) * 0x400 + (low.value - 0xDC00), ScanString(t[12..]))
      else Prepend(unit, ScanString(t[6..]))
    else Prepend(unit, ScanString(t[6..]))
  }

  // ---- strings round trip ----

  lemma {:induction false} HexDigitValue(v: int)
    requires 0 <= v < 16
    ensures HexValue(HexDigit(v)) == Some(v)
  {
  }

  lemma {:induction false} Nibbles(u: int)
    requires 0 <= u < 0x1_0000
    ensures u == (u / 0x1000) * 0x1000 + (u / 0x100 % 16) * 0x100 + (u / 0x10 % 16) * 0x10 + u % 16
  {
    var a := u / 0x10;
    assert u / 0x100 == a / 0x10;
    var b := a / 0x10;
    assert u / 0x1000 == b / 0x10;
  }

  lemma {:induction false} UnicodeEscapeReads(u: int, rest: Bytes)
    requires 0 <= u < 0x1_0000
    ensures HexUnit((UnicodeEscape(u) + rest)[2..]) == Some(u)
  {
    var t := (UnicodeEscape(u) + rest)[2..];
    HexDigitValue(u / 0x1000);
    HexDigitValue(u / 0x100 % 16);
    HexDigitValue(u / 0x10 % 16);
    HexDigitValue(u % 16);
    assert t[0] == HexDigit(u / 0x1000) && t[1] == HexDigit(u / 0x100 % 16) && t[2] == HexDigit(u / 0x10 % 16) && t[3] == HexDigit(u % 16);
    hide HexValue, HexDigit;
    Nibbles(u);
  }

  /** An escaped character outside the basic plane reads back as one character. */
  lemma {:induction false} PairReads(c: int, rest: Bytes)
    requires 0x1_0000 <= c < 0x11_0000
    ensures ScanString(EscapeChar(c) + rest) == Prepend(c, ScanString(rest))
  {
    hide HexUnit;
    var v := c - 0x1_0000;
    var high, low := 0xD800 + v / 0x400, 0xDC00 + v % 0x400;
    var t := EscapeChar(c) + rest;
    assert t == UnicodeEscape(high) + (UnicodeEscape(low) + rest);
    UnicodeEscapeReads(high, UnicodeEscape(low) + rest);
    UnicodeEscapeReads(low, rest);
    assert t[6..] == UnicodeEscape(low) + rest;
    assert t[8..] == t[6..][2..];
    assert t[12..] == rest;
    assert c == 0x1_0000 + (high - 0xD800) * 0x400 + (low - 0xDC00);
  }

  /** A unit that is no high surrogate stands for itself. */
  lemma {:induction false} UnitReads(c: int, rest: Bytes)
    requires CodePoint(c) && c < 0x1_0000 && !HighSurrogate(c)
    ensures ScanString(UnicodeEscape(c) + rest) == Prepend(c, ScanString(rest))
  {
    hide HexUnit;
    var t := UnicodeEscape(c) + rest;
    UnicodeEscapeReads(c, rest);
    assert t[6..] == rest;
  }

  lemma {:induction false} CharReads(c: int, rest: Bytes)
    requires CodePoint(c) && !HighSurrogate(c)
    ensures ScanString(EscapeChar(c) + rest) == Prepend(c, ScanString(rest))
  {
    if ShortEscape(c).Some? {
      var t := EscapeChar(c) + rest;
      assert t[2..] == rest;
    } else if 0x20 <= c <= 0x7E {
      var t := EscapeChar(c) + rest;
      assert t[1..] == rest;
    } else if c < 0x1_0000 {
      UnitReads(c, rest);
    } else {
      PairReads(c, rest);
    }
  }

  // ---- surrogates ----

  predicate HighSurrogate(c: int) {
    0xD800 <= c < 0xDC00
  }

  predicate LowSurrogate(c: int) {
    0xDC00 <= c < 0xE000
  }

  /** The character that a high and a low surrogate form. */
  function Pair(high: int, low: int): (r: int)
    requires HighSurrogate(high) && LowSurrogate(low)
    ensures 0x1_0000 <= r < 0x11_0000
  {
    0x1_0000 + (high - 0xD800) * 0x400 + (low - 0xDC00)
  }

  predicate PairAt(t: Text, i: nat) {
    i + 1 < |t| && HighSurrogate(t[i]) && LowSurrogate(t[i + 1])
  }

  /** The text with every high surrogate that a low one follows joined to it. */
  function Joined(t: Text): (r: Text)
    requires CodePoints(t)
    ensures CodePoints(r) && |r| <= |t|
  {
    if t == [] then []
    else if PairAt(t, 0) then [Pair(t[0], t[1])] + Joined(t[2..])
    else [t[0]] + Joined(t[1..])
  }

  /** The tail does not begin with the escape of a low surrogate, or with a broken one. */
  predicate NoLowNext(tail: Text) {
    |tail| >= 2 && tail[0] == BACKSLASH && tail[1] == UNICODE ==>
      HexUnit(tail[2..]).Some? && !LowSurrogate(HexUnit(tail[2..]).value)
  }

  /** A high surrogate with no low one after it stands for itself. */
  lemma {:induction false} HighAlone(c: int, tail: Bytes)
    requires HighSurrogate(c) && NoLowNext(tail)
    ensures ScanString(EscapeChar(c) + tail) == Prepend(c, ScanString(tail))
  {
    hide HexUnit;
    var t := EscapeChar(c) + tail;
    UnicodeEscapeReads(c, tail);
    assert t[6..] == tail;
    if |tail| >= 2 {
      assert t[8..] == tail[2..];
    }
  }

  lemma {:induction false} PairEscape(high: int, low: int)
    requires HighSurrogate(high) && LowSurrogate(low)
    ensures EscapeChar(Pair(high, low)) == EscapeChar(high) + EscapeChar(low)
  {
    var v := Pair(high, low) - 0x1_0000;
    assert v / 0x400 == high - 0xD800 && v % 0x400 == low - 0xDC00;
  }

  /** Escaped text that does not start with a low surrogate does not look like one. */
  lemma {:induction false} NextUnit(c: int, rest: Bytes)
    requires CodePoint(c) && !LowSurrogate(c)
    ensures NoLowNext(EscapeChar(c) + rest)
  {
    hide HexUnit;
    var tail := EscapeChar(c) + rest;
    if ShortEscape(c).None? && !(0x20 <= c <= 0x7E) {
      if c < 0x1_0000 {
        UnicodeEscapeReads(c, rest);
      } else {
        var v := c - 0x1_0000;
        var low := UnicodeEscape(0xDC00 + v % 0x400);
        UnicodeEscapeReads(0xD800 + v / 0x400, low + rest);
        ConcatAssociates(UnicodeEscape(0xD800 + v / 0x400), low, rest);
      }
    }
  }

  lemma {:induction false} EscapeFront(t: Text, rest: Bytes)
    requires CodePoints(t) && t != []
    ensures Escape(t) + rest == EscapeChar(t[0]) + (Escape(t[1..]) + rest)
  {
    hide EscapeChar;
    ConcatAssociates(EscapeChar(t[0]), Escape(t[1..]), rest);
  }

  lemma {:induction false} NoLowFollows(t: Text, rest: Bytes)
    requires CodePoints(t) && (t != [] ==> !LowSurrogate(t[0]))
    ensures NoLowNext(Escape(t) + ([QUOTE] + rest))
  {
    hide EscapeChar, NoLowNext;
    if t == [] {
      assert Escape(t) + ([QUOTE] + rest) == [QUOTE] + rest;
      QuoteNext(rest);
    } else {
      EscapeFront(t, [QUOTE] + rest);
      NextUnit(t[0], Escape(t[1..]) + ([QUOTE] + rest));
    }
  }

  lemma {:induction false} QuoteNext(rest: Bytes)
    ensures NoLowNext([QUOTE] + rest)
  {
  }

  /** Reading escaped text gives it back with its surrogate pairs joined, whatever follows the closing quote. */
  lemma {:induction false} EscapeReads(t: Text, rest: Bytes)
    requires CodePoints(t)
    ensures ScanString(Escape(t) + ([QUOTE] + rest)) == Some(Scanned(Joined(t), rest))
    decreases |t|
  {
    hide EscapeChar, NoLowNext;
    var end := [QUOTE] + rest;
    if t == [] {
      assert Escape(t) + end == end;
      assert end[1..] == rest;
    } else {
      EscapeFront(t, end);
      if PairAt(t, 0) {
        var more := t[1..];
        EscapeFront(more, end);
        assert more[1..] == t[2..];
        EscapeReads(t[2..], rest);
        PairEscape(t[0], t[1]);
        ConcatAssociates(EscapeChar(t[0]), EscapeChar(t[1]), Escape(t[2..]) + end);
        hide ScanString, Escape;
        CharReads(Pair(t[0], t[1]), Escape(t[2..]) + end);
      } else {
        EscapeReads(t[1..], rest);
        if HighSurrogate(t[0]) {
          NoLowFollows(t[1..], rest);
          hide ScanString;
          HighAlone(t[0], Escape(t[1..]) + end);
        } else {
          hide ScanString;
          CharReads(t[0], Escape(t[1..]) + end);
        }
      }
    }
  }

  /** Joining changes nothing if and only if no high surrogate is directly followed by a low one. */
  lemma {:induction false} JoinedExact(t: Text)
    requires CodePoints(t)
    ensures Joined(t) == t <==> forall i :: 0 <= i < |t| ==> !PairAt(t, i)
    decreases |t|
  {
    if t != [] {
      if PairAt(t, 0) {
        assert |Joined(t)| < |t|;
      } else {
        var rest := t[1..];
        JoinedExact(rest);
        assert t == [t[0]] + rest;
        assert Joined(t) == t <==> Joined(rest) == rest by {
          assert Joined(t)[1..] == Joined(rest);
        }
        forall i | 0 <= i < |rest| ensures PairAt(rest, i) <==> PairAt(t, i + 1) {
        }
        if forall i :: 0 <= i < |rest| ==> !PairAt(rest, i) {
          forall i | 0 <= i < |t| ensures !PairAt(t, i) {
            if i > 0 {
              assert !PairAt(rest, i - 1);
            }
          }
        }
      }
    }
  }

  /** Joined text is written like the text it came from. */
  lemma {:induction false} JoinedEscape(t: Text)
    requires CodePoints(t)
    ensures Escape(Joined(t)) == Escape(t)
    decreases |t|
  {
    hide EscapeChar;
    if t != [] {
      if PairAt(t, 0) {
        JoinedEscape(t[2..]);
        PairEscape(t[0], t[1]);
        assert Joined(t)[1..] == Joined(t[2..]);
        assert t[1..][1..] == t[2..];
        ConcatAssociates(EscapeChar(t[0]), EscapeChar(t[1]), Escape(t[2..]));
      } else {
        JoinedEscape(t[1..]);
        assert Joined(t)[1..] == Joined(t[1..]);
      }
    }
  }

  /** Two texts are written alike if and only if they are the same once their surrogate pairs are joined. */
  lemma {:induction false} EscapeInjectiveExactly(a: Text, b: Text)
    requires CodePoints(a) && CodePoints(b)
    ensures Escape(a) == Escape(b) <==> Joined(a) == Joined(b)
  {
    hide ScanString, Escape, Joined;
    EscapeReads(a, []);
    EscapeReads(b, []);
    JoinedEscape(a);
    JoinedEscape(b);
  }

  /** A text is read back from its own escaped form if and only if it holds no surrogate pair. */
  lemma {:induction false} RoundTripExact(t: Text, rest: Bytes)
    requires CodePoints(t)
    ensures ScanString(Escape(t) + ([QUOTE] + rest)) == Some(Scanned(t, rest)) <==> forall i :: 0 <= i < |t| ==> !PairAt(t, i)
  {
    hide ScanString, Escape, Joined, PairAt;
    EscapeReads(t, rest);
    JoinedExact(t);
  }

  /** Text that UTF-8 can encode has no surrogates, so none to join. */
  lemma {:induction false} EncodableStays(t: Text)
    requires Encodable(t)
    ensures CodePoints(t) && Joined(t) == t
  {
    JoinedExact(t);
  }

  /** The failing input: a high and a low surrogate, read back as the one character they are written like. */
  lemma {:induction false} SurrogatesCollide(high: int, low: int, rest: Bytes)
    requires HighSurrogate(high) && LowSurrogate(low)
    ensures Escape([high, low]) == Escape([Pair(high, low)])
    ensures ScanString(Escape([high, low]) + ([QUOTE] + rest)) == Some(Scanned([Pair(high, low)], rest))
  {
    hide ScanString, Escape, EscapeChar;
    var t := [high, low];
    assert PairAt(t, 0) && t[2..] == [];
    assert Joined([]) == [];
    assert Joined(t) == [Pair(high, low)];
    JoinedEscape(t);
    EscapeReads(t, rest);
  }

  // ---- objects ----

  /** One member of an object of strings. */
  datatype Member = Member(key: Text, value: Text)

  predicate EncodableMembers(ms: seq<Member>) {
    forall i :: 0 <= i < |ms| ==> Encodable(ms[i].key) && Encodable(ms[i].value)
  }

  predicate StringMembers(ms: seq<Member>) {
    forall i :: 0 <= i < |ms| ==> CodePoints(ms[i].key) && CodePoints(ms[i].value)
  }

  function JoinedMember(m: Member): Member
    requires CodePoints(m.key) && CodePoints(m.value)
  {
    Member(Joined(m.key), Joined(m.value))
  }

  function JoinedMembers(ms: seq<Member>): (r: seq<Member>)
    requires StringMembers(ms)
  {
    if ms == [] then [] else [JoinedMember(ms[0])] + JoinedMembers(ms[1..])
  }

  function WireMember(m: Member): (r: Bytes)
    requires CodePoints(m.key) && CodePoints(m.value)
  {
    [QUOTE] + (Escape(m.key) + ([QUOTE] + ([COLON] + ([QUOTE] + (Escape(m.value) + [QUOTE])))))
  }

  function WireMembers(ms: seq<Member>): (r: Bytes)
    requires StringMembers(ms) && ms != []
  {
    if |ms| == 1 then WireMember(ms[0]) else WireMember(ms[0]) + ([COMMA] + WireMembers(ms[1..]))
  }

  /** `wire_json` of an object whose keys are given in sorted order. */
  function WireObject(ms: seq<Member>): (r: Bytes)
    requires StringMembers(ms)
  {
    [OPEN] + (if ms == [] then [CLOSE] else WireMembers(ms) + [CLOSE])
  }

  function SkipSpace(t: Text): (r: Text)
    ensures |r| <= |t|
  {
    if t != [] && (t[0] == 0x20 || t[0] == 0x09 || t[0] == 0x0A || t[0] == 0x0D) then SkipSpace(t[1..]) else t
  }

  /** A quoted string after optional space. */
  function TakeString(t: Text): (r: Option<Scanned>)
    ensures r.Some? ==> |r.value.rest| < |t|
  {
    var u := SkipSpace(t);
    if u == [] || u[0] != QUOTE then None else ScanString(u[1..])
  }

  function TakeMark(t: Text, mark: int): (r: Option<Text>)
    ensures r.Some? ==> |r.value| < |t|
  {
    var u := SkipSpace(t);
    if u == [] || u[0] != mark then None else Some(u[1..])
  }

  /** The members up to the closing brace, and what follows it. */
  datatype Parsed = Parsed(members: seq<Member>, rest: Text)

  /** Members whose values are strings; an object with any other value is refused later by its fields or types. */
  function ParseMembers(t: Text): (r: Option<Parsed>)
    decreases |t|
  {
    var key := TakeString(t);
    if key.None? then None
    else
      var colon := TakeMark(key.value.rest, COLON);
      if colon.None? then None
      else
        var value := TakeString(colon.value);
        if value.None? then None
        else
          var member := Member(key.value.text, value.value.text);
          var close := TakeMark(value.value.rest, CLOSE);
          if close.Some? then Some(Parsed([member], close.value))
          else
            var comma := TakeMark(value.value.rest, COMMA);
            if comma.None? then None
            else
              var more := ParseMembers(comma.value);
              if more.None? then None else Some(Parsed([member] + more.value.members, more.value.rest))
  }

  function ParseObject(t: Text): (r: Option<seq<Member>>) {
    var open := TakeMark(t, OPEN);
    if open.None? then None
    else
      var close := TakeMark(open.value, CLOSE);
      if close.Some? then
        if SkipSpace(close.value) == [] then Some([]) else None
      else
        var parsed := ParseMembers(open.value);
        if parsed.None? || SkipSpace(parsed.value.rest) != [] then None else Some(parsed.value.members)
  }

  lemma {:induction false} TakeFront(mark: Byte, rest: Bytes, other: Byte)
    requires mark in {OPEN, CLOSE, COLON, COMMA, QUOTE}
    ensures SkipSpace([mark] + rest) == [mark] + rest && ([mark] + rest)[1..] == rest
    ensures TakeMark([mark] + rest, other) == if mark == other then Some(rest) else None
  {
  }

  lemma {:induction false} TakeStringReads(t: Text, rest: Bytes)
    requires CodePoints(t)
    ensures TakeString([QUOTE] + (Escape(t) + ([QUOTE] + rest))) == Some(Scanned(Joined(t), rest))
  {
    hide ScanString, Escape;
    TakeFront(QUOTE, Escape(t) + ([QUOTE] + rest), QUOTE);
    EscapeReads(t, rest);
  }

  lemma {:induction false} WireMemberShape(m: Member, rest: Bytes)
    requires CodePoints(m.key) && CodePoints(m.value)
    ensures WireMember(m) + rest
         == [QUOTE] + (Escape(m.key) + ([QUOTE] + ([COLON] + ([QUOTE] + (Escape(m.value) + ([QUOTE] + rest))))))
  {
    hide Escape;
  }

  /** Parsing a written member and then the rest. */
  lemma {:induction false} MemberReads(m: Member, rest: Bytes)
    requires CodePoints(m.key) && CodePoints(m.value)
    ensures ParseMembers(WireMember(m) + ([CLOSE] + rest)) == Some(Parsed([JoinedMember(m)], rest))
    ensures ParseMembers(WireMember(m) + ([COMMA] + rest))
         == if ParseMembers(rest).None? then None else Some(Parsed([JoinedMember(m)] + ParseMembers(rest).value.members, ParseMembers(rest).value.rest))
  {
    hide Escape, TakeString, TakeMark, WireMember;
    MemberFront(m, [CLOSE] + rest);
    MemberFront(m, [COMMA] + rest);
    TakeFront(CLOSE, rest, CLOSE);
    TakeFront(COMMA, rest, CLOSE);
    TakeFront(COMMA, rest, COMMA);
  }

  lemma {:induction false} MemberFront(m: Member, rest: Bytes)
    requires CodePoints(m.key) && CodePoints(m.value)
    ensures var t := WireMember(m) + rest;
            && TakeString(t).Some? && TakeString(t).value.text == Joined(m.key)
            && TakeMark(TakeString(t).value.rest, COLON).Some?
            && TakeString(TakeMark(TakeString(t).value.rest, COLON).value) == Some(Scanned(Joined(m.value), rest))
  {
    hide Escape, TakeString, TakeMark, WireMember;
    WireMemberShape(m, rest);
    var value := [QUOTE] + (Escape(m.value) + ([QUOTE] + rest));
    TakeStringReads(m.key, [COLON] + value);
    TakeFront(COLON, value, COLON);
    TakeStringReads(m.value, rest);
  }

  lemma {:induction false} MembersRead(ms: seq<Member>, rest: Bytes)
    requires StringMembers(ms) && ms != []
    ensures ParseMembers(WireMembers(ms) + ([CLOSE] + rest)) == Some(Parsed(JoinedMembers(ms), rest))
  {
    hide ParseMembers, WireMember;
    if |ms| == 1 {
      MemberReads(ms[0], rest);
      assert JoinedMembers(ms) == [JoinedMember(ms[0])];
    } else {
      MembersRead(ms[1..], rest);
      var tail := WireMembers(ms[1..]) + ([CLOSE] + rest);
      MemberReads(ms[0], tail);
      assert WireMembers(ms) + ([CLOSE] + rest) == WireMember(ms[0]) + ([COMMA] + tail);
    }
  }

  /** Every object of strings is parsed back from its canonical form, with surrogate pairs joined. */
  lemma {:induction false} ObjectJoins(ms: seq<Member>)
    requires StringMembers(ms)
    ensures ParseObject(WireObject(ms)) == Some(JoinedMembers(ms))
  {
    hide ParseMembers, WireMembers, TakeMark;
    if ms == [] {
      TakeFront(OPEN, [CLOSE], OPEN);
      TakeFront(CLOSE, [], CLOSE);
      assert [CLOSE] + [] == [CLOSE];
    } else {
      var inner := WireMembers(ms) + [CLOSE];
      TakeFront(OPEN, inner, OPEN);
      assert [CLOSE] + [] == [CLOSE];
      MembersRead(ms, []);
      MembersStart(ms, [CLOSE]);
    }
  }

  lemma {:induction false} EncodableMembersStay(ms: seq<Member>)
    requires EncodableMembers(ms)
    ensures StringMembers(ms) && JoinedMembers(ms) == ms
  {
    hide Joined;
    if ms != [] {
      EncodableStays(ms[0].key);
      EncodableStays(ms[0].value);
      EncodableMembersStay(ms[1..]);
      assert ms == [ms[0]] + ms[1..];
    }
  }

  /** Every object of encodable strings is parsed back, member by member, from its canonical form. */
  lemma {:induction false} ObjectReads(ms: seq<Member>)
    requires EncodableMembers(ms)
    ensures StringMembers(ms) && ParseObject(WireObject(ms)) == Some(ms)
  {
    hide ParseObject, WireObject, JoinedMembers;
    EncodableMembersStay(ms);
    ObjectJoins(ms);
  }

  /** Written members begin with a quote, so never with a closing brace. */
  lemma {:induction false} MembersStart(ms: seq<Member>, rest: Bytes)
    requires StringMembers(ms) && ms != []
    ensures TakeMark(WireMembers(ms) + rest, CLOSE).None?
  {
    hide Escape;
    var t := WireMembers(ms) + rest;
    assert t[0] == QUOTE;
  }
}
