/** The CSP header in its two wire formats (src/csp_id.c), and the checksum trailer of a packet
    (src/csp_crc32.c:92-147). */
module CspId {
  import opened Bytes
  import opened Crc32c

  /** CSP_NO_VIA_ADDRESS: the destination itself is the next hop. */
  const NO_VIA: bv16 := 0xFFFF

  /** csp_id_t. */
  datatype Id = Id(pri: bv8, flags: bv8, src: bv16, dst: bv16, dport: bv8, sport: bv8)

  /** A packet as an interface sends it or hands it to csp_qfifo_write. */
  datatype Packet = Packet(id: Id, data: seq<byte>)

  datatype Version = V1 | V2 {
    /** CSP_ID1_HEADER_SIZE and CSP_ID2_HEADER_SIZE. */
    function HeaderSize(): nat {
      if V1? then 4 else 6
    }
  }

  // ---- 32 bits in network order ----

  function Split(w: bv32): (s: seq<byte>)
    ensures |s| == 4
  {
    [((w >> 24) & 0xFF) as bv8, ((w >> 16) & 0xFF) as bv8, ((w >> 8) & 0xFF) as bv8, (w & 0xFF) as bv8]
  }

  function Join(s: seq<byte>): bv32
    requires |s| == 4
  {
    (s[0] as bv32 << 24) | (s[1] as bv32 << 16) | (s[2] as bv32 << 8) | s[3] as bv32
  }

  lemma JoinSplit(w: bv32)
    ensures Join(Split(w)) == w
  {
  }

  lemma SplitJoin(s: seq<byte>)
    requires |s| == 4
    ensures Split(Join(s)) == s
  {
    SplitJoinBits(s[0], s[1], s[2], s[3]);
  }

  lemma SplitJoinBits(a: byte, b: byte, c: byte, d: byte)
    ensures var w := (a as bv32 << 24) | (b as bv32 << 16) | (c as bv32 << 8) | d as bv32;
            && ((w >> 24) & 0xFF) as bv8 == a && ((w >> 16) & 0xFF) as bv8 == b
            && ((w >> 8) & 0xFF) as bv8 == c && (w & 0xFF) as bv8 == d
  {
  }

  // ---- version 1: 2 priority, 5 source, 5 destination, 6 + 6 port, 8 flag bits ----

  function Pack1(id: Id): bv32 {
    (id.pri as bv32 << 30) | (id.dst as bv32 << 20) | (id.src as bv32 << 25)
    | (id.dport as bv32 << 14) | (id.sport as bv32 << 8) | id.flags as bv32
  }

  function Unpack1(w: bv32): Id {
    Id(((w >> 30) & 0x3) as bv8, (w & 0xFF) as bv8, ((w >> 25) & 0x1F) as bv16, ((w >> 20) & 0x1F) as bv16,
       ((w >> 14) & 0x3F) as bv8, ((w >> 8) & 0x3F) as bv8)
  }

  predicate InRange1(id: Id) {
    id.pri < 4 && id.src < 32 && id.dst < 32 && id.dport < 64 && id.sport < 64
  }

  lemma Unpack1Pack1(id: Id)
    requires InRange1(id)
    ensures Unpack1(Pack1(id)) == id
  {
  }

  lemma Unpack1InRange(w: bv32)
    ensures InRange1(Unpack1(w))
  {
  }

  lemma Pack1Unpack1(w: bv32)
    ensures Pack1(Unpack1(w)) == w
  {
  }

  // ---- version 2: 2 priority, 14 destination, 14 source, 6 + 6 port, 6 flag bits ----

  function Pack2(id: Id): bv48 {
    (id.pri as bv48 << 46) | (id.dst as bv48 << 32) | (id.src as bv48 << 18)
    | (id.dport as bv48 << 12) | (id.sport as bv48 << 6) | id.flags as bv48
  }

  function Unpack2(w: bv48): Id {
    Id(((w >> 46) & 0x3) as bv8, (w & 0x3F) as bv8, ((w >> 18) & 0x3FFF) as bv16, ((w >> 32) & 0x3FFF) as bv16,
       ((w >> 12) & 0x3F) as bv8, ((w >> 6) & 0x3F) as bv8)
  }

  predicate InRange2(id: Id) {
    id.pri < 4 && id.flags < 64 && id.src < 0x4000 && id.dst < 0x4000 && id.dport < 64 && id.sport < 64
  }

  lemma Unpack2Pack2(id: Id)
    requires InRange2(id)
    ensures Unpack2(Pack2(id)) == id
  {
  }

  lemma Unpack2InRange(w: bv48)
    ensures InRange2(Unpack2(w))
  {
  }

  lemma Pack2Unpack2(w: bv48)
    ensures Pack2(Unpack2(w)) == w
  {
  }

  function Split48(w: bv48): (s: seq<byte>)
    ensures |s| == 6
  {
    [((w >> 40) & 0xFF) as bv8, ((w >> 32) & 0xFF) as bv8, ((w >> 24) & 0xFF) as bv8,
     ((w >> 16) & 0xFF) as bv8, ((w >> 8) & 0xFF) as bv8, (w & 0xFF) as bv8]
  }

  function Join48(s: seq<byte>): bv48
    requires |s| == 6
  {
    JoinBits48(s[0], s[1], s[2], s[3], s[4], s[5])
  }

  function JoinBits48(a: byte, b: byte, c: byte, d: byte, e: byte, f: byte): bv48 {
    (a as bv48 << 40) | (b as bv48 << 32) | (c as bv48 << 24)
    | (d as bv48 << 16) | (e as bv48 << 8) | f as bv48
  }

  lemma Join48Split48(w: bv48)
    ensures Join48(Split48(w)) == w
  {
  }

  lemma Split48Bits(a: byte, b: byte, c: byte, d: byte, e: byte, f: byte)
    ensures var w := JoinBits48(a, b, c, d, e, f);
            && ((w >> 40) & 0xFF) as bv8 == a && ((w >> 32) & 0xFF) as bv8 == b
            && ((w >> 24) & 0xFF) as bv8 == c && ((w >> 16) & 0xFF) as bv8 == d
            && ((w >> 8) & 0xFF) as bv8 == e && (w & 0xFF) as bv8 == f
  {
  }

  lemma Split48Join48(s: seq<byte>)
    requires |s| == 6
    ensures Split48(Join48(s)) == s
  {
    Split48Bits(s[0], s[1], s[2], s[3], s[4], s[5]);
  }

  // ---- csp_id_prepend and csp_id_strip ----

  predicate InRange(v: Version, id: Id) {
    if v.V1? then InRange1(id) else InRange2(id)
  }

  /** The header bytes written in front of the data. */
  function Header(v: Version, id: Id): (h: seq<byte>)
    ensures |h| == v.HeaderSize()
  {
    if v.V1? then Split(Pack1(id)) else Split48(Pack2(id))
  }

  /** The id and the data of a received frame; None for a frame shorter than its header. */
  function Strip(v: Version, frame: seq<byte>): Option<(Id, seq<byte>)> {
    var n := v.HeaderSize();
    if |frame| < n then None
    else if v.V1? then Some((Unpack1(Join(frame[..n])), frame[n..]))
    else Some((Unpack2(Join48(frame[..n])), frame[n..]))
  }

  /** A frame gives its id and its data back exactly when every field of the id fits its bits. */
  lemma StripExactly(v: Version, id: Id, data: seq<byte>)
    ensures Strip(v, Header(v, id) + data).Some?
    ensures Strip(v, Header(v, id) + data).value.1 == data
    ensures Strip(v, Header(v, id) + data) == Some((id, data)) <==> InRange(v, id)
  {
    hide Pack1, Pack2, Unpack1, Unpack2, Split, Join, Split48, Join48, InRange1, InRange2;
    var h := Header(v, id);
    var frame := h + data;
    assert frame[..v.HeaderSize()] == h && frame[v.HeaderSize()..] == data;
    if v.V1? {
      JoinSplit(Pack1(id));
      Unpack1InRange(Pack1(id));
      if InRange1(id) { Unpack1Pack1(id); }
    } else {
      Join48Split48(Pack2(id));
      Unpack2InRange(Pack2(id));
      if InRange2(id) { Unpack2Pack2(id); }
    }
  }

  /** Rewriting the header from the parsed id reproduces the received bytes: no header bit is lost. */
  lemma HeaderOfStripped(v: Version, frame: seq<byte>)
    requires |frame| >= v.HeaderSize()
    ensures Strip(v, frame).Some?
    ensures InRange(v, Strip(v, frame).value.0)
    ensures Header(v, Strip(v, frame).value.0) == frame[..v.HeaderSize()]
  {
    hide Pack1, Pack2, Unpack1, Unpack2, Split, Join, Split48, Join48, InRange1, InRange2;
    var h := frame[..v.HeaderSize()];
    if v.V1? {
      Unpack1InRange(Join(h));
      Pack1Unpack1(Join(h));
      SplitJoin(h);
    } else {
      Unpack2InRange(Join48(h));
      Pack2Unpack2(Join48(h));
      Split48Join48(h);
    }
  }

  // ---- the checksum trailer ----

  /** csp_crc32_append on a packet whose data area holds `room` bytes; None leaves the packet alone. */
  function AppendCrc(room: nat, data: seq<byte>): Option<seq<byte>> {
    if |data| + 4 > room then None else Some(data + Split(Checksum(data)))
  }

  /** csp_crc32_verify: the trailer may cover the header and the data or the data alone. */
  function VerifyCrc(v: Version, id: Id, data: seq<byte>): Option<seq<byte>> {
    if |data| < 4 then None
    else
      var body, trailer := data[..|data| - 4], data[|data| - 4..];
      if trailer == Split(Checksum(Header(v, id) + body)) || trailer == Split(Checksum(body)) then Some(body)
      else None
  }

  lemma VerifyAppended(v: Version, id: Id, room: nat, data: seq<byte>)
    requires |data| + 4 <= room
    ensures VerifyCrc(v, id, AppendCrc(room, data).value) == Some(data)
  {
    hide Split, Checksum, Header;
    var sent := AppendCrc(room, data).value;
    assert sent[..|sent| - 4] == data && sent[|sent| - 4..] == Split(Checksum(data));
  }

  lemma SplitInjective(a: bv32, b: bv32)
    requires Split(a) == Split(b)
    ensures a == b
  {
    hide Split, Join;
    JoinSplit(a);
    JoinSplit(b);
  }

  /** Damage confined to four adjacent data bytes under an intact trailer gets past csp_crc32_verify
      exactly when the damaged data, read together with the header, has the checksum of the original
      data: the attempt without the header never accepts it. */
  lemma BurstCaught(v: Version, id: Id, p: seq<byte>, x: seq<byte>, y: seq<byte>, s: seq<byte>)
    requires |x| == |y| <= 4 && x != y
    ensures VerifyCrc(v, id, p + y + s + Split(Checksum(p + x + s))) == None
            <==> Checksum(Header(v, id) + (p + y + s)) != Checksum(p + x + s)
  {
    hide Split, Checksum, Header;
    var body, trailer := p + y + s, Split(Checksum(p + x + s));
    var data := body + trailer;
    assert data[..|data| - 4] == body && data[|data| - 4..] == trailer;
    BurstDetected(p, x, y, s);
    if trailer == Split(Checksum(body)) {
      SplitInjective(Checksum(p + x + s), Checksum(body));
    }
    if trailer == Split(Checksum(Header(v, id) + body)) {
      SplitInjective(Checksum(p + x + s), Checksum(Header(v, id) + body));
    }
  }

  /** Any four data bytes and their checksum: four other bytes in their place that verify against it. */
  lemma BurstSlips(v: Version, id: Id, p: seq<byte>, x: seq<byte>, s: seq<byte>) returns (y: seq<byte>)
    requires |x| == 4 && Spec(0xFFFF_FFFF, Header(v, id)) != 0xFFFF_FFFF
    ensures |y| == 4 && y != x && VerifyCrc(v, id, p + y + s + Split(Checksum(p + x + s))) == Some(p + y + s)
  {
    hide Split, Header, Spec, Xor;
    var h, i: bv32 := Header(v, id), 0xFFFF_FFFF;
    y := FourBytesReach(Spec(i, h + p), Spec(i, p + x));
    SplitUpdates(i, h + p, y);
    SplitUpdates(i, h + p + y, s);
    SplitUpdates(i, p + x, s);
    assert h + (p + y + s) == h + p + y + s;
    if y == x {
      SplitUpdates(i, p, x);
      SuffixKeepsDifference(Spec(i, h + p), Spec(i, p), x);
      SplitUpdates(i, h, p);
      SuffixKeepsDifference(Spec(i, h), i, p);
    }
    var data := p + y + s + Split(Checksum(p + x + s));
    assert data[..|data| - 4] == p + y + s && data[|data| - 4..] == Split(Checksum(p + x + s));
  }

  /** Four damaged bytes somewhere in the data can get past csp_crc32_verify exactly when the header
      moves the checksum register. */
  lemma BurstSlipsExactly(v: Version, id: Id, p: seq<byte>, x: seq<byte>, s: seq<byte>)
    requires |x| == 4
    ensures (exists y :: |y| == 4 && y != x && VerifyCrc(v, id, p + y + s + Split(Checksum(p + x + s))).Some?)
            <==> Spec(0xFFFF_FFFF, Header(v, id)) != 0xFFFF_FFFF
  {
    hide Split, Header, Spec, Xor, VerifyCrc;
    var h, i: bv32 := Header(v, id), 0xFFFF_FFFF;
    if Spec(i, h) != i {
      var y := BurstSlips(v, id, p, x, s);
    } else {
      forall y | |y| == 4 && y != x
        ensures VerifyCrc(v, id, p + y + s + Split(Checksum(p + x + s))).None?
      {
        BurstCaught(v, id, p, x, y, s);
        SplitUpdates(i, h, p + y + s);
        BurstDetected(p, x, y, s);
      }
    }
  }
}
