/** HMAC over SHA-1 (src/crypto/csp_hmac.c), against the definition in section 2 of RFC 2104, and the
    truncated code appended to packets. */
module Hmac {
  import opened Bytes
  import opened Sha1

  function Xor8(a: byte, b: byte): byte {
    a ^ b
  }

  function XorAll(s: seq<byte>, b: byte): (t: seq<byte>)
    ensures |t| == |s|
  {
    if s == [] then [] else [Xor8(s[0], b)] + XorAll(s[1..], b)
  }

  lemma {:induction false} XorAllAt(s: seq<byte>, b: byte, i: nat)
    requires i < |s|
    ensures XorAll(s, b)[i] == Xor8(s[i], b)
  {
    hide Xor8;
    if i > 0 { XorAllAt(s[1..], b, i - 1); }
  }

  /** RFC 2104: a key longer than a block is hashed first; any key is filled with zeros to a block. */
  function BlockKey(key: seq<byte>): (k: seq<byte>)
    ensures |k| == 64
  {
    var short := if |key| > 64 then Digest(key) else key;
    short + Zeros(64 - |short|)
  }

  /** RFC 2104: H(K xor opad, H(K xor ipad, text)). */
  function Code(key: seq<byte>, text: seq<byte>): (c: seq<byte>)
    ensures |c| == 20
  {
    var k := BlockKey(key);
    Digest(XorAll(k, 0x5C) + Digest(XorAll(k, 0x36) + text))
  }

  /** hmac_state. */
  class Hmac {
    const md: State
    const key: array<byte>

    /** After csp_hmac_init with k and csp_hmac_process of text. */
    ghost predicate Ready(k: seq<byte>, text: seq<byte>)
      reads this, md, md.buf, key
    {
      && key.Length == 64 && key != md.buf
      && key[..] == BlockKey(k)
      && md.Valid() && md.msg == XorAll(BlockKey(k), 0x36) + text
    }

    constructor Init(k: seq<byte>)
      requires |k| >= 1
      ensures Ready(k, []) && fresh(md) && fresh(md.buf) && fresh(key)
    {
      hide Digest, Absorbed, XorAll, BlockKey;
      var full := FullKey(k);
      var pad := Pad(full[..], 0x36);
      var state := new State();
      state.Process(pad);
      md := state;
      key := full;
      new;
      assert [] + pad == pad && pad + [] == pad;
    }

    method Process(ghost k: seq<byte>, ghost text: seq<byte>, data: seq<byte>)
      requires Ready(k, text)
      modifies md, md.buf
      ensures Ready(k, text + data)
    {
      hide Digest, Absorbed, XorAll, BlockKey;
      md.Process(data);
      assert XorAll(BlockKey(k), 0x36) + text + data == XorAll(BlockKey(k), 0x36) + (text + data);
    }

    method Done(ghost k: seq<byte>, ghost text: seq<byte>) returns (out: seq<byte>)
      requires Ready(k, text)
      modifies md, md.buf
      ensures out == Code(k, text)
    {
      hide Digest, Absorbed, XorAll, BlockKey;
      var inner := md.Done();
      var pad := Pad(key[..], 0x5C);
      md.Init();
      md.Process(pad);
      md.Process(inner);
      assert [] + pad == pad;
      out := md.Done();
    }
  }

  /** The key made as long as a block. */
  method FullKey(k: seq<byte>) returns (full: array<byte>)
    ensures fresh(full) && full.Length == 64 && full[..] == BlockKey(k)
  {
    hide Digest;
    full := new byte[64];
    var used := |k|;
    if |k| > 64 {
      var hash := Sha1.Memory(k);
      Copy(full, 0, hash);
      used := 20;
    } else {
      Copy(full, 0, k);
    }
    ghost var short := full[..used];
    FillZero(full, used, 64);
    assert full[..] == short + full[used..64];
  }

  /** The loops that combine the key with a constant. */
  method Pad(key: seq<byte>, b: byte) returns (pad: seq<byte>)
    ensures pad == XorAll(key, b)
  {
    hide Xor8, XorAll;
    var buf := new byte[|key|];
    for i := 0 to |key|
      invariant forall j :: 0 <= j < i ==> buf[j] == Xor8(key[j], b)
    {
      buf[i] := Xor8(key[i], b);
    }
    pad := buf[..];
    forall i | 0 <= i < |key| ensures pad[i] == XorAll(key, b)[i] {
      XorAllAt(key, b, i);
    }
  }

  /** csp_hmac_memory: an empty key is rejected. */
  method Memory(key: seq<byte>, data: seq<byte>) returns (r: Option<seq<byte>>)
    ensures r == if key == [] then None else Some(Code(key, data))
  {
    hide Code;
    if |key| < 1 { return None; }
    var h := new Hmac.Init(key);
    h.Process(key, [], data);
    assert [] + data == data;
    var c := h.Done(key, data);
    r := Some(c);
  }

  // ---- the code on a packet, four bytes long ----

  const LENGTH := 4

  /** csp_hmac_append without the header, on a data area that holds `room` bytes. */
  function Append(room: nat, key: seq<byte>, data: seq<byte>): Option<seq<byte>> {
    if |data| + LENGTH > room then None else Some(data + Code(key, data)[..LENGTH])
  }

  /** csp_hmac_verify without the header. */
  function Verify(key: seq<byte>, data: seq<byte>): Option<seq<byte>> {
    if |data| < LENGTH then None
    else
      var n := |data| - LENGTH;
      if data[n..] == Code(key, data[..n])[..LENGTH] then Some(data[..n]) else None
  }

  /** Exactly the packets that the holder of the key would have produced are accepted, and stripping
      gives their data back. */
  lemma VerifyExactly(room: nat, key: seq<byte>, data: seq<byte>, body: seq<byte>)
    requires |data| <= room
    ensures Verify(key, data) == Some(body) <==> Append(room, key, body) == Some(data)
  {
    hide Code;
    if Append(room, key, body) == Some(data) {
      assert data[..|data| - LENGTH] == body && data[|data| - LENGTH..] == Code(key, body)[..LENGTH];
    }
    if Verify(key, data) == Some(body) {
      assert data == data[..|data| - LENGTH] + data[|data| - LENGTH..];
    }
  }

  /** The code is cut to its first four bytes. */
  lemma FourBytes(room: nat, key: seq<byte>, data: seq<byte>)
    ensures Append(room, key, data).Some? <==> |data| + 4 <= room
    ensures Append(room, key, data).Some? ==> Append(room, key, data).value == data + Code(key, data)[..4]
  {
    hide Code;
  }
}
