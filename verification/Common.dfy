/** Values shared by every component: results, bytes and network byte order. */
module Common {

  /** A value, or the error the source raises instead. */
  datatype Result<+T, +E> = Ok(value: T) | Err(error: E)

  datatype Option<+T> = None | Some(value: T)

  /** One octet. */
  type Byte = b: int | 0 <= b < 256

  type Bytes = seq<Byte>

  /** A Python string: a sequence of code points. */
  type Text = seq<int>

  /** The code points of an ASCII literal. */
  function Ascii(s: string): (t: Text)
    ensures |t| == |s|
    ensures forall i :: 0 <= i < |s| ==> t[i] == s[i] as int
  {
    seq(|s|, i requires 0 <= i < |s| => s[i] as int)
  }

  /** The octets of an ASCII literal. */
  function Literal(s: string): (r: Bytes)
    ensures |r| == |s|
    ensures forall i :: 0 <= i < |s| && s[i] as int < 256 ==> r[i] == s[i] as int
  {
    seq(|s|, i requires 0 <= i < |s| => s[i] as int % 256)
  }

  /** `struct.pack("!H", n)`. */
  function PackU16(n: int): (r: Bytes)
    requires 0 <= n < 0x1_0000
    ensures |r| == 2 && U16(r, 0) == n
  {
    [n / 256, n % 256]
  }

  /** `struct.unpack("!H", data[at : at + 2])`. */
  function U16(data: Bytes, at: int): (n: int)
    requires 0 <= at && at + 2 <= |data|
    ensures 0 <= n < 0x1_0000
  {
    var hi: int := data[at];
    hi * 256 + data[at + 1]
  }

  /** `struct.pack("!I", n)`. */
  function PackU32(n: int): (r: Bytes)
    requires 0 <= n < 0x1_0000_0000
    ensures |r| == 4 && U32(r, 0) == n
  {
    PackU16(n / 0x1_0000) + PackU16(n % 0x1_0000)
  }

  /** `struct.unpack("!I", data[at : at + 4])`. */
  function U32(data: Bytes, at: int): (n: int)
    requires 0 <= at && at + 4 <= |data|
    ensures 0 <= n < 0x1_0000_0000
  {
    var high: int, low: int := U16(data, at), U16(data, at + 2);
    high * 0x1_0000 + low
  }

  /** Network byte order: the most significant octet first. */
  lemma {:induction false} BigEndian(n: int)
    requires 0 <= n < 0x1_0000_0000
    ensures n < 0x1_0000 ==> PackU16(n) == [n / 0x100, n % 0x100]
    ensures PackU32(n) == [n / 0x100_0000, n / 0x1_0000 % 0x100, n / 0x100 % 0x100, n % 0x100]
  {
    var high, low := n / 0x1_0000, n % 0x1_0000;
    assert high / 0x100 == n / 0x100_0000 && low / 0x100 == n / 0x100 % 0x100 && low % 0x100 == n % 0x100;
  }

  /** Big-endian fields determine their bytes. */
  lemma {:induction false} U16Inverse(data: Bytes, at: int)
    requires 0 <= at && at + 2 <= |data|
    ensures PackU16(U16(data, at)) == data[at..at + 2]
  {
  }

  lemma {:induction false} U32Inverse(data: Bytes, at: int)
    requires 0 <= at && at + 4 <= |data|
    ensures PackU32(U32(data, at)) == data[at..at + 4]
  {
    var n := U32(data, at);
    assert n / 0x1_0000 == U16(data, at) && n % 0x1_0000 == U16(data, at + 2);
  }

  lemma {:induction false} Reassociate(a: Bytes, b: Bytes, c: Bytes, d: Bytes)
    ensures a + b + c + d == a + (b + (c + d))
  {
  }

  lemma {:induction false} ConcatAssociates<T>(a: seq<T>, b: seq<T>, c: seq<T>)
    ensures a + (b + c) == (a + b) + c
  {
  }

  lemma {:induction false} ConcatParts<T>(a: seq<T>, b: seq<T>)
    ensures (a + b)[..|a|] == a && (a + b)[|a|..] == b
  {
  }

  /** A slice equal to a concatenation splits where the first part ends. */
  lemma {:induction false} SliceSplit(data: Bytes, at: nat, first: Bytes, second: Bytes)
    requires at + |first| + |second| <= |data|
    ensures data[at..at + |first| + |second|] == first + second
       <==> data[at..at + |first|] == first && data[at + |first|..at + |first| + |second|] == second
  {
    var whole := data[at..at + |first| + |second|];
    assert whole == data[at..at + |first|] + data[at + |first|..at + |first| + |second|];
    if whole == first + second {
      assert data[at..at + |first|] == whole[..|first|];
      assert data[at + |first|..at + |first| + |second|] == whole[|first|..];
    }
  }

  /** Taking one element out of a sequence takes one occurrence out of its multiset. */
  lemma {:induction false} MultisetWithout<T>(s: seq<T>, k: nat)
    requires k < |s|
    ensures multiset(s) == multiset{s[k]} + multiset(s[..k] + s[k + 1..])
  {
    assert s == s[..k] + [s[k]] + s[k + 1..];
  }

  /** Permutations stay permutations when the same element leaves both. */
  lemma {:induction false} MultisetMatch<T>(s: seq<T>, t: seq<T>, k: nat)
    requires multiset(s) == multiset(t) && s != [] && k < |t| && t[k] == s[0]
    ensures multiset(s[1..]) == multiset(t[..k] + t[k + 1..])
  {
    MultisetWithout(s, 0);
    MultisetWithout(t, k);
    assert s[..0] + s[1..] == s[1..];
    assert multiset(s) - multiset{s[0]} == multiset(s[1..]);
    assert multiset(t) - multiset{s[0]} == multiset(t[..k] + t[k + 1..]);
  }

  /** `b"".join(parts)`. */
  function Concat(parts: seq<Bytes>): (r: Bytes) {
    if parts == [] then [] else parts[0] + Concat(parts[1..])
  }
}
