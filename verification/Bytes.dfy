/** Bytes and the big-endian words used by every packet format. */
module Bytes {

  type byte = bv8

  datatype Option<+T> = None | Some(value: T)

  function Zeros(n: nat): (s: seq<byte>)
    ensures |s| == n && forall i :: 0 <= i < n ==> s[i] == 0
  {
    if n == 0 then [] else Zeros(n - 1) + [0]
  }

  /** The byte with a given value, by counting up to it. */
  function Byte(x: int): byte
    requires 0 <= x < 256
  {
    if x == 0 then 0 else Byte(x - 1) + 1
  }

  lemma Successor(b: byte)
    requires b as int < 255
    ensures (b + 1) as int == b as int + 1
  {
  }

  lemma {:induction false} ByteRoundTrip(x: int)
    requires 0 <= x < 256
    ensures Byte(x) as int == x
  {
    if x > 0 {
      ByteRoundTrip(x - 1);
      Successor(Byte(x - 1));
    }
  }

  /** htobe16 and be16toh. */
  function ToBE16(x: int): (s: seq<byte>)
    requires 0 <= x < 0x1_0000
    ensures |s| == 2
  {
    [Byte(x / 256), Byte(x % 256)]
  }

  function FromBE16(s: seq<byte>): (x: int)
    requires |s| == 2
    ensures 0 <= x < 0x1_0000
  {
    (s[0] as int) * 256 + (s[1] as int)
  }

  lemma BE16RoundTrip(x: int)
    requires 0 <= x < 0x1_0000
    ensures FromBE16(ToBE16(x)) == x
  {
    ByteRoundTrip(x / 256);
    ByteRoundTrip(x % 256);
  }

  /** htobe32 and be32toh. */
  function ToBE32(x: int): (s: seq<byte>)
    requires 0 <= x < 0x1_0000_0000
    ensures |s| == 4
  {
    ToBE16(x / 0x1_0000) + ToBE16(x % 0x1_0000)
  }

  function FromBE32(s: seq<byte>): (x: int)
    requires |s| == 4
    ensures 0 <= x < 0x1_0000_0000
  {
    FromBE16(s[..2]) * 0x1_0000 + FromBE16(s[2..])
  }

  lemma BE32RoundTrip(x: int)
    requires 0 <= x < 0x1_0000_0000
    ensures FromBE32(ToBE32(x)) == x
  {
    BE16RoundTrip(x / 0x1_0000);
    BE16RoundTrip(x % 0x1_0000);
    var s := ToBE32(x);
    assert s[..2] == ToBE16(x / 0x1_0000);
    assert s[2..] == ToBE16(x % 0x1_0000);
  }

  /** memcpy into a buffer. */
  method Copy(data: array<byte>, at: nat, payload: seq<byte>)
    requires at + |payload| <= data.Length
    modifies data
    ensures data[..at] == old(data[..at])
    ensures data[at..at + |payload|] == payload
  {
    for i := 0 to |payload|
      invariant data[..at] == old(data[..at])
      invariant forall j :: 0 <= j < i ==> data[at + j] == payload[j]
    {
      data[at + i] := payload[i];
    }
  }

  function Min(a: int, b: int): int {
    if a <= b then a else b
  }
}
