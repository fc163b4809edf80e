/** SHA-1 as computed by src/crypto/csp_sha1.c, against the definition in RFC 3174. */
module Sha1 {
  import opened Bytes

  datatype Regs = Regs(a: bv32, b: bv32, c: bv32, d: bv32, e: bv32)

  // ---- RFC 3174, sections 3 to 6.1 ----

  function Rol1(x: bv32): bv32 {
    (x << 1) | (x >> 31)
  }

  function Rol5(x: bv32): bv32 {
    (x << 5) | (x >> 27)
  }

  function Rol30(x: bv32): bv32 {
    (x << 30) | (x >> 2)
  }

  function Sum(x: bv32, y: bv32): bv32 {
    x + y
  }

  function Xor(x: bv32, y: bv32): bv32 {
    x ^ y
  }

  /** Which of the four groups of twenty rounds. */
  datatype Group = G0 | G1 | G2 | G3

  function GroupOf(t: nat): Group
    requires t < 80
  {
    if t < 20 then G0 else if t < 40 then G1 else if t < 60 then G2 else G3
  }

  /** Section 5: the logical functions and constants. */
  function Logic(g: Group, b: bv32, c: bv32, d: bv32): bv32 {
    match g
    case G0 => Choose(b, c, d)
    case G1 => Parity(b, c, d)
    case G2 => Majority(b, c, d)
    case G3 => Parity(b, c, d)
  }

  function Choose(b: bv32, c: bv32, d: bv32): bv32 {
    (b & c) | (!b & d)
  }

  function Parity(b: bv32, c: bv32, d: bv32): bv32 {
    b ^ c ^ d
  }

  function Majority(b: bv32, c: bv32, d: bv32): bv32 {
    (b & c) | (b & d) | (c & d)
  }

  function Constant(g: Group): bv32 {
    match g
    case G0 => 0x5A82_7999
    case G1 => 0x6ED9_EBA1
    case G2 => 0x8F1B_BCDC
    case G3 => 0xCA62_C1D6
  }

  function Word(s: seq<byte>): bv32
    requires |s| == 4
  {
    (s[0] as bv32 << 24) | (s[1] as bv32 << 16) | (s[2] as bv32 << 8) | s[3] as bv32
  }

  function Spread(w: bv32): (s: seq<byte>)
    ensures |s| == 4
  {
    [((w >> 24) & 0xFF) as bv8, ((w >> 16) & 0xFF) as bv8, ((w >> 8) & 0xFF) as bv8, (w & 0xFF) as bv8]
  }

  /** Section 6.1 (a) and (b): the first n words W(t). */
  function Schedule(block: seq<byte>, n: nat): (w: seq<bv32>)
    requires |block| == 64 && n <= 80
    ensures |w| == n
  {
    if n == 0 then []
    else
      var w := Schedule(block, n - 1);
      var t := n - 1;
      w + [if t < 16 then Word(block[4 * t..4 * t + 4])
           else Rol1(Xor(Xor(Xor(w[t - 3], w[t - 8]), w[t - 14]), w[t - 16]))]
  }

  /** Section 6.1 (d): one round. */
  function Round(t: nat, r: Regs, w: bv32): Regs
    requires t < 80
  {
    var g := GroupOf(t);
    Regs(Sum(Sum(Sum(Sum(Rol5(r.a), Logic(g, r.b, r.c, r.d)), r.e), w), Constant(g)), r.a, Rol30(r.b), r.c, r.d)
  }

  function Rounds(w: seq<bv32>, t: nat, h: Regs): Regs
    requires t <= |w| <= 80
  {
    if t == 0 then h else Round(t - 1, Rounds(w, t - 1, h), w[t - 1])
  }

  /** Section 6.1 (a) to (e) for one block. */
  function Block(h: Regs, block: seq<byte>): Regs
    requires |block| == 64
  {
    Add(h, Rounds(Schedule(block, 80), 80, h))
  }

  function Add(h: Regs, r: Regs): Regs {
    Regs(Sum(h.a, r.a), Sum(h.b, r.b), Sum(h.c, r.c), Sum(h.d, r.d), Sum(h.e, r.e))
  }

  const INITIAL := Regs(0x6745_2301, 0xEFCD_AB89, 0x98BA_DCFE, 0x1032_5476, 0xC3D2_E1F0)

  /** All blocks in turn. */
  function Blocks(h: Regs, s: seq<byte>): Regs
    requires |s| % 64 == 0
    decreases |s|
  {
    if s == [] then h else Blocks(Block(h, s[..64]), s[64..])
  }

  const DWORD: int := 0x1_0000_0000_0000_0000

  function ToBE64(x: int): (s: seq<byte>)
    requires 0 <= x < DWORD
    ensures |s| == 8
  {
    ToBE32(x / 0x1_0000_0000) + ToBE32(x % 0x1_0000_0000)
  }

  /** Section 4: one bit, then as few zeros as make the length a multiple of a block, then the number of
      message bits. */
  function Padding(n: nat): (s: seq<byte>)
    ensures (n + |s|) % 64 == 0 && |s| == 9 + Fill(n)
  {
    FillAligns(n);
    [0x80] + Zeros(Fill(n)) + ToBE64(Bits(n))
  }

  /** The number of zero bytes between the one bit and the length. */
  function Fill(n: nat): (k: nat)
    ensures k < 64
  {
    (55 - n) % 64
  }

  lemma FillAligns(n: nat)
    ensures (n + 9 + Fill(n)) % 64 == 0
  {
  }

  function Output(h: Regs): (s: seq<byte>)
    ensures |s| == 20
  {
    Spread(h.a) + Spread(h.b) + Spread(h.c) + Spread(h.d) + Spread(h.e)
  }

  function Digest(msg: seq<byte>): (s: seq<byte>)
    ensures |s| == 20
  {
    Output(Blocks(INITIAL, msg + Padding(|msg|)))
  }

  lemma {:induction false} BlocksAppend(h: Regs, s: seq<byte>, t: seq<byte>)
    requires |s| % 64 == 0 && |t| % 64 == 0
    ensures (|s| + |t|) % 64 == 0 && Blocks(h, s + t) == Blocks(Blocks(h, s), t)
    decreases |s|
  {
    hide Block;
    Aligned(|s|, |t|);
    if s == [] {
      assert s + t == t;
    } else {
      var u := s + t;
      assert |s| >= 64;
      assert u[..64] == s[..64] && u[64..] == s[64..] + t;
      BlocksAppend(Block(h, s[..64]), s[64..], t);
      assert Blocks(h, u) == Blocks(Block(h, u[..64]), u[64..]);
    }
  }

  lemma Aligned(n: nat, m: nat)
    requires n % 64 == 0 && m % 64 == 0
    ensures (n + m) % 64 == 0 && (n > 0 ==> n >= 64 && (n - 64) % 64 == 0)
  {
  }

  lemma BlocksOne(h: Regs, s: seq<byte>, block: seq<byte>)
    requires |s| % 64 == 0 && |block| == 64
    ensures Blocks(h, s + block) == Block(Blocks(h, s), block)
  {
    hide Block;
    BlocksAppend(h, s, block);
    assert block[..64] == block && block[64..] == [];
  }

  // ---- csp_sha1_compress ----

  /** The macros F0 to F3. */
  function Macro(g: Group, x: bv32, y: bv32, z: bv32): bv32 {
    match g
    case G0 => F0(x, y, z)
    case G1 => Parity(x, y, z)
    case G2 => F2(x, y, z)
    case G3 => Parity(x, y, z)
  }

  function F0(x: bv32, y: bv32, z: bv32): bv32 {
    z ^ (x & (y ^ z))
  }

  function F2(x: bv32, y: bv32, z: bv32): bv32 {
    (x & y) | (z & (x | y))
  }

  lemma F0Chooses(x: bv32, y: bv32, z: bv32)
    ensures F0(x, y, z) == Choose(x, y, z)
  {
    ChooseBits(x, y, z);
  }

  lemma ChooseBits(x: bv32, y: bv32, z: bv32)
    ensures z ^ (x & (y ^ z)) == (x & y) | (!x & z)
  {
  }

  lemma F2IsMajority(x: bv32, y: bv32, z: bv32)
    ensures F2(x, y, z) == Majority(x, y, z)
  {
    MajorityBits(x, y, z);
  }

  lemma MajorityBits(x: bv32, y: bv32, z: bv32)
    ensures (x & y) | (z & (x | y)) == (x & y) | (x & z) | (y & z)
  {
  }

  lemma MacroIsLogic(g: Group, x: bv32, y: bv32, z: bv32)
    ensures Macro(g, x, y, z) == Logic(g, x, y, z)
  {
    hide F0, F2, Choose, Majority, Parity;
    F0Chooses(x, y, z);
    F2IsMajority(x, y, z);
  }

  /** The value FF_0 to FF_3 store in their last register. */
  function Mixed(g: Group, a: bv32, b: bv32, c: bv32, d: bv32, e: bv32, w: bv32): bv32 {
    Sum(Sum(Sum(Sum(Rol5(a), Macro(g, b, c, d)), e), w), Constant(g))
  }

  /** One macro call is one round with the registers renamed instead of moved. */
  lemma OneRound(w: seq<bv32>, t: nat, h: Regs, g: Group, a: bv32, b: bv32, c: bv32, d: bv32, e: bv32)
    requires t < |w| <= 80 && GroupOf(t) == g && Rounds(w, t, h) == Regs(a, b, c, d, e)
    ensures Rounds(w, t + 1, h) == Regs(Mixed(g, a, b, c, d, e, w[t]), a, Rol30(b), c, d)
  {
    hide Sum, Rol5, Rol30, Macro, Logic, Constant;
    MacroIsLogic(g, b, c, d);
  }

  /** The five macro calls in the body of each round loop. */
  method FiveRounds(g: Group, w: array<bv32>, i: nat, ghost h: Regs,
                    a0: bv32, b0: bv32, c0: bv32, d0: bv32, e0: bv32)
    returns (a: bv32, b: bv32, c: bv32, d: bv32, e: bv32)
    requires w.Length == 80 && i + 5 <= 80 && GroupOf(i) == g && GroupOf(i + 4) == g
    requires Rounds(w[..], i, h) == Regs(a0, b0, c0, d0, e0)
    ensures Rounds(w[..], i + 5, h) == Regs(a, b, c, d, e)
  {
    hide Rounds, Mixed, Rol30;
    a, b, c, d, e := a0, b0, c0, d0, e0;
    OneRound(w[..], i, h, g, a, b, c, d, e);
    e, b := Mixed(g, a, b, c, d, e, w[i]), Rol30(b);
    OneRound(w[..], i + 1, h, g, e, a, b, c, d);
    d, a := Mixed(g, e, a, b, c, d, w[i + 1]), Rol30(a);
    OneRound(w[..], i + 2, h, g, d, e, a, b, c);
    c, e := Mixed(g, d, e, a, b, c, w[i + 2]), Rol30(e);
    OneRound(w[..], i + 3, h, g, c, d, e, a, b);
    b, d := Mixed(g, c, d, e, a, b, w[i + 3]), Rol30(d);
    OneRound(w[..], i + 4, h, g, b, c, d, e, a);
    a, c := Mixed(g, b, c, d, e, a, w[i + 4]), Rol30(c);
  }

  /** The message schedule. */
  method Expand(block: seq<byte>) returns (w: array<bv32>)
    requires |block| == 64
    ensures fresh(w) && w.Length == 80 && w[..] == Schedule(block, 80)
  {
    hide Word, Rol1, Xor;
    w := new bv32[80];
    for i := 0 to 16
      invariant w[..i] == Schedule(block, i)
    {
      w[i] := Word(block[4 * i..4 * i + 4]);
      assert w[..i + 1] == Schedule(block, i) + [w[i]];
    }
    for i := 16 to 80
      invariant w[..i] == Schedule(block, i)
    {
      ghost var s := Schedule(block, i);
      assert w[i - 3] == s[i - 3] && w[i - 8] == s[i - 8] && w[i - 14] == s[i - 14] && w[i - 16] == s[i - 16];
      w[i] := Rol1(Xor(Xor(Xor(w[i - 3], w[i - 8]), w[i - 14]), w[i - 16]));
      assert w[..i + 1] == s + [w[i]];
    }
    assert w[..80] == w[..];
  }

  method Compress(h: Regs, block: seq<byte>) returns (r: Regs)
    requires |block| == 64
    ensures r == Block(h, block)
  {
    hide Rounds, Schedule, Sum;
    var w := Expand(block);
    ghost var all := w[..];
    var a, b, c, d, e := h.a, h.b, h.c, h.d, h.e;
    RoundsStart(all, h);
    var i := 0;
    while i < 20
      invariant i % 5 == 0 && i <= 20 && w[..] == all && Rounds(all, i, h) == Regs(a, b, c, d, e)
    {
      a, b, c, d, e := FiveRounds(G0, w, i, h, a, b, c, d, e);
      i := i + 5;
    }
    while i < 40
      invariant i % 5 == 0 && 20 <= i <= 40 && w[..] == all && Rounds(all, i, h) == Regs(a, b, c, d, e)
    {
      a, b, c, d, e := FiveRounds(G1, w, i, h, a, b, c, d, e);
      i := i + 5;
    }
    while i < 60
      invariant i % 5 == 0 && 40 <= i <= 60 && w[..] == all && Rounds(all, i, h) == Regs(a, b, c, d, e)
    {
      a, b, c, d, e := FiveRounds(G2, w, i, h, a, b, c, d, e);
      i := i + 5;
    }
    while i < 80
      invariant i % 5 == 0 && 60 <= i <= 80 && w[..] == all && Rounds(all, i, h) == Regs(a, b, c, d, e)
    {
      a, b, c, d, e := FiveRounds(G3, w, i, h, a, b, c, d, e);
      i := i + 5;
    }
    r := Regs(Sum(h.a, a), Sum(h.b, b), Sum(h.c, c), Sum(h.d, d), Sum(h.e, e));
  }

  lemma RoundsStart(w: seq<bv32>, h: Regs)
    requires |w| <= 80
    ensures Rounds(w, 0, h) == h
  {
  }

  // ---- csp_sha1_init, csp_sha1_process, csp_sha1_done ----

  /** The 64-bit count of message bits. */
  function Bits(n: nat): (b: int)
    ensures 0 <= b < DWORD
  {
    8 * n % DWORD
  }

  /** csp_sha1_state_t after absorbing msg. */
  predicate Absorbed(msg: seq<byte>, regs: Regs, pending: seq<byte>, bits: int) {
    var n := |msg| - |pending|;
    && |pending| < 64 && 0 <= n && n % 64 == 0
    && msg[n..] == pending
    && regs == Blocks(INITIAL, msg[..n])
    && bits == Bits(n)
  }

  lemma AbsorbPart(msg: seq<byte>, regs: Regs, pending: seq<byte>, bits: int, data: seq<byte>)
    requires Absorbed(msg, regs, pending, bits) && |pending| + |data| < 64
    ensures Absorbed(msg + data, regs, pending + data, bits)
  {
    hide Blocks;
    var n := |msg| - |pending|;
    assert (msg + data)[n..] == pending + data && (msg + data)[..n] == msg[..n];
  }

  lemma AbsorbBlock(msg: seq<byte>, regs: Regs, pending: seq<byte>, bits: int, data: seq<byte>)
    requires Absorbed(msg, regs, pending, bits) && |pending| + |data| == 64
    ensures Absorbed(msg + data, Block(regs, pending + data), [], (bits + 512) % DWORD)
  {
    hide Blocks, Block, Bits;
    var n := |msg| - |pending|;
    var all := msg + data;
    assert |all| == n + 64;
    assert msg == msg[..n] + pending;
    assert all == msg[..n] + (pending + data);
    BlocksOne(INITIAL, msg[..n], pending + data);
    assert all[..|all|] == all && all[|all|..] == [];
    BitsAdd(n, 64);
  }

  lemma BitsAdd(n: nat, k: nat)
    ensures (Bits(n) + 8 * k) % DWORD == Bits(n + k)
  {
  }

  class State {
    var regs: Regs
    var bits: int
    var curlen: nat
    const buf: array<byte>
    /** Everything processed since csp_sha1_init. */
    ghost var msg: seq<byte>

    ghost predicate Valid()
      reads this, buf
    {
      buf.Length == 64 && curlen < 64 && Absorbed(msg, regs, buf[..curlen], bits)
    }

    constructor ()
      ensures Valid() && msg == [] && fresh(buf)
    {
      buf := new byte[64];
      regs, bits, curlen, msg := INITIAL, 0, 0, [];
    }

    /** csp_sha1_init on a state already in use. */
    method Init()
      requires buf.Length == 64
      modifies this
      ensures Valid() && msg == []
    {
      regs, bits, curlen, msg := INITIAL, 0, 0, [];
      assert buf[..0] == [];
    }

    method Process(data: seq<byte>)
      requires Valid()
      modifies this, buf
      ensures Valid() && msg == old(msg) + data
    {
      hide Absorbed, Block;
      var rest := 0;
      assert old(msg) + data[..0] == old(msg);
      while rest < |data|
        invariant rest <= |data| && Valid() && msg == old(msg) + data[..rest]
      {
        var next := Portion(data, rest);
        assert data[..next] == data[..rest] + data[rest..next];
        rest := next;
      }
      assert data[..|data|] == data;
    }

    /** One iteration: a whole block straight from the input, or bytes into the buffer. */
    method Portion(data: seq<byte>, from: nat) returns (to: nat)
      requires Valid() && from < |data|
      modifies this, buf
      ensures Valid() && from < to <= |data| && msg == old(msg) + data[from..to]
    {
      hide Absorbed;
      var left := |data| - from;
      if curlen == 0 && left >= 64 {
        to := from + 64;
        Direct(data[from..to]);
      } else {
        to := from + if left <= 64 - curlen then left else 64 - curlen;
        Buffer(data[from..to]);
      }
    }

    method Direct(piece: seq<byte>)
      requires Valid() && curlen == 0 && |piece| == 64
      modifies this
      ensures Valid() && msg == old(msg) + piece
    {
      hide Absorbed, Block;
      assert buf[..0] == [] && [] + piece == piece;
      AbsorbBlock(msg, regs, buf[..0], bits, piece);
      regs := Compress(regs, piece);
      bits := (bits + 512) % DWORD;
      msg := msg + piece;
    }

    method Buffer(piece: seq<byte>)
      requires Valid() && 0 < |piece| <= 64 - curlen
      modifies this, buf
      ensures Valid() && msg == old(msg) + piece
    {
      hide Absorbed, Block;
      ghost var pending := buf[..curlen];
      if curlen + |piece| == 64 {
        AbsorbBlock(msg, regs, pending, bits, piece);
      } else {
        AbsorbPart(msg, regs, pending, bits, piece);
      }
      Copy(buf, curlen, piece);
      assert buf[..curlen + |piece|] == pending + piece;
      curlen := curlen + |piece|;
      msg := msg + piece;
      if curlen == 64 {
        assert buf[..64] == buf[..];
        regs := Compress(regs, buf[..]);
        bits := (bits + 512) % DWORD;
        curlen := 0;
        assert buf[..0] == [];
      }
    }

    /** The state is left for csp_sha1_init to reset. */
    method Done() returns (out: seq<byte>)
      requires Valid()
      modifies this, buf
      ensures out == Digest(old(msg))
    {
      hide Absorbed, Block, Bits, Blocks, ToBE64, Output;
      ghost var pending := buf[..curlen];
      ghost var p := curlen;
      AbsorbedBits(msg, regs, pending, bits);
      DigestFrom(msg, regs, pending, bits);
      bits := (bits + 8 * curlen) % DWORD;
      buf[curlen] := 0x80;
      curlen := curlen + 1;
      assert buf[..curlen] == pending + [0x80];
      if curlen > 56 {
        FillZero(buf, curlen, 64);
        assert buf[..] == buf[..curlen] + buf[curlen..64];
        regs := Compress(regs, buf[..]);
        curlen := 0;
      }
      ghost var front := buf[..curlen];
      FillZero(buf, curlen, 56);
      Copy(buf, 56, ToBE64(bits));
      assert buf[..] == buf[..56] + buf[56..64];
      assert buf[..56] == front + Zeros(56 - curlen);
      regs := Compress(regs, buf[..]);
      if p < 56 {
        assert buf[..] == pending + [0x80] + Zeros(55 - p) + ToBE64(bits);
      } else {
        assert front == [] && [] + Zeros(56) == Zeros(56);
      }
      out := Output(regs);
    }
  }

  method FillZero(buf: array<byte>, from: nat, to: nat)
    requires from <= to <= buf.Length
    modifies buf
    ensures buf[..from] == old(buf[..from]) && buf[from..to] == Zeros(to - from)
  {
    for i := from to to
      invariant buf[..from] == old(buf[..from])
      invariant forall j :: from <= j < i ==> buf[j] == 0
    {
      buf[i] := 0;
    }
  }

  lemma AbsorbedBits(msg: seq<byte>, regs: Regs, pending: seq<byte>, bits: int)
    requires Absorbed(msg, regs, pending, bits)
    ensures |pending| < 64 && (bits + 8 * |pending|) % DWORD == Bits(|msg|)
  {
    hide Blocks;
    BitsAdd(|msg| - |pending|, |pending|);
  }

  lemma ZerosAppend(a: nat, b: nat)
    ensures Zeros(a + b) == Zeros(a) + Zeros(b)
  {
    hide Zeros;
  }

  /** The one or two final blocks. */
  lemma DigestFrom(msg: seq<byte>, regs: Regs, pending: seq<byte>, bits: int)
    requires Absorbed(msg, regs, pending, bits)
    ensures var p, size := |pending|, ToBE64(Bits(|msg|));
            && (p < 56 ==> Digest(msg) == Output(Block(regs, pending + [0x80] + Zeros(55 - p) + size)))
            && (p >= 56 ==>
                Digest(msg) == Output(Block(Block(regs, pending + [0x80] + Zeros(63 - p)), Zeros(56) + size)))
  {
    hide Blocks, Block, Bits, ToBE64, Output, Zeros, Fill;
    var p, n, size := |pending|, |msg| - |pending|, ToBE64(Bits(|msg|));
    var whole := msg + Padding(|msg|);
    assert msg == msg[..n] + pending;
    PadLength(n, p);
    if p < 56 {
      var last := pending + [0x80] + Zeros(55 - p) + size;
      assert whole == msg[..n] + last;
      BlocksOne(INITIAL, msg[..n], last);
    } else {
      var first, last := pending + [0x80] + Zeros(63 - p), Zeros(56) + size;
      ZerosAppend(63 - p, 56);
      assert whole == msg[..n] + first + last;
      BlocksOne(INITIAL, msg[..n], first);
      BlocksOne(INITIAL, msg[..n] + first, last);
    }
  }

  lemma PadLength(n: nat, p: nat)
    requires n % 64 == 0 && p < 64
    ensures Fill(n + p) == if p < 56 then 55 - p else 119 - p
  {
  }

  /** csp_sha1_memory. */
  method Memory(msg: seq<byte>) returns (hash: seq<byte>)
    ensures hash == Digest(msg)
  {
    hide Digest, Absorbed;
    var md := new State();
    md.Process(msg);
    assert [] + msg == msg;
    hash := md.Done();
  }
}
