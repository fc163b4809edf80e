/** Fragmentation of CSP 1 packets over CAN (src/interfaces/csp_if_can.c:48-263). */
module Can1 {
  import opened Bytes
  import opened CspId
  import opened CanPbuf

  /** CSP_BUFFER_SIZE and the interface address. */
  datatype Setup = Setup(bufferSize: nat, addr: bv16)

  // ---- the CAN id: 5 source, 5 destination, 1 type, 8 remain, 10 identification bits ----

  const CONN_MASK: bv32 := 0x1FF8_03FF

  /** The bits of a CAN id that are the same in all frames of a packet. */
  function Base(src: bv16, dest: bv8, ident: bv32): bv32 {
    ((src as bv32 & 0x1F) << 24) | ((dest as bv32 & 0x1F) << 19) | (ident & 0x3FF)
  }

  function CanId(base: bv32, more: bool, remain: byte): bv32 {
    base | (if more then 0x4_0000 else 0) | (remain as bv32 << 10)
  }

  predicate More(id: bv32) {
    (id >> 18) & 1 == 1
  }

  function Remain(id: bv32): byte {
    ((id >> 10) & 0xFF) as bv8
  }

  /** The bits a receiver sorts frames by. */
  function Stem(id: bv32): bv32 {
    id & CONN_MASK
  }

  predicate IsBase(b: bv32) {
    b & CONN_MASK == b
  }

  lemma CanIdFields(b: bv32, more: bool, remain: byte)
    requires IsBase(b)
    ensures CanId(b, more, remain) & CONN_MASK == b
    ensures More(CanId(b, more, remain)) == more
    ensures Remain(CanId(b, more, remain)) == remain
  {
    CanIdKey(b, more, remain);
    CanIdMore(b, more, remain);
    CanIdRemain(b, more, remain);
  }

  lemma CanIdKey(b: bv32, more: bool, remain: byte)
    requires IsBase(b)
    ensures CanId(b, more, remain) & CONN_MASK == b
  {
  }

  lemma CanIdMore(b: bv32, more: bool, remain: byte)
    requires IsBase(b)
    ensures More(CanId(b, more, remain)) == more
  {
  }

  lemma CanIdRemain(b: bv32, more: bool, remain: byte)
    requires IsBase(b)
    ensures Remain(CanId(b, more, remain)) == remain
  {
  }

  // ---- csp_can1_tx ----

  /** Data bytes sent before fragment i of a packet with n data bytes. */
  function Offset(n: nat, i: nat): nat {
    if i == 0 then 0 else Min(2 + 8 * (i - 1), n)
  }

  /** The index of the last fragment. */
  function Last(n: nat): nat {
    (n + 5) / 8
  }

  /** The remain field of fragment i before it is cut to eight bits. */
  function Field(n: nat, i: nat): nat
    requires i <= Last(n)
  {
    if i == 0 then (n + 5) / 8 else (n - Offset(n, i + 1) + 7) / 8
  }

  function Fragment(base: bv32, p: Packet, i: nat): CanFrame
    requires |p.data| <= 0xFFFF && i <= Last(|p.data|)
  {
    var n := |p.data|;
    var chunk := p.data[Offset(n, i)..Offset(n, i + 1)];
    var id := CanId(base, i != 0, Byte(Field(n, i) % 256));
    CanFrame(id, if i == 0 then Header(V1, p.id) + ToBE16(n) + chunk else chunk)
  }

  /** Fragments i and later. */
  function Fragments(base: bv32, p: Packet, i: nat): seq<CanFrame>
    requires |p.data| <= 0xFFFF
    decreases Last(|p.data|) + 1 - i
  {
    if i > Last(|p.data|) then [] else [Fragment(base, p, i)] + Fragments(base, p, i + 1)
  }

  lemma FieldCounts(n: nat, i: nat)
    requires i <= Last(n)
    ensures Field(n, i) == Last(n) - i
    ensures Offset(n, i) <= Offset(n, i + 1) <= n
    ensures i > 0 ==> Offset(n, i) == 2 + 8 * (i - 1) < n
    ensures Offset(n, i + 1) == n <==> i == Last(n)
  {
  }

  function Dest(via: bv16, p: Packet): bv8 {
    ((if via != NO_VIA then via else p.id.dst) & 0xFF) as bv8
  }

  method Transmit(c: Setup, via: bv16, ident: bv32, p: Packet) returns (sent: Transmission)
    requires |p.data| <= 0xFFFF
    ensures sent == if p.id.dst == c.addr then Loopback(p)
                    else OnBus(Fragments(Base(p.id.src, Dest(via, p), ident), p, 0))
  {
    hide Base, CanId, Header, Fragments, ToBE16, Byte;
    if p.id.dst == c.addr { return Loopback(p); }
    var n := |p.data|;
    var base := Base(p.id.src, Dest(via, p), ident);
    var bytes := Min(n, 2);
    FieldCounts(n, 0);
    var frames :=
      [CanFrame(CanId(base, false, Byte((n + 5) / 8 % 256)), Header(V1, p.id) + ToBE16(n) + p.data[..bytes])];
    var count := bytes;
    ghost var i := 0;
    assert p.data[..bytes] == p.data[Offset(n, 0)..Offset(n, 1)];
    ghost var all := Fragments(base, p, 0);
    FragmentsFront(base, p, 0);
    while count < n
      invariant i <= Last(n) && count == Offset(n, i + 1)
      invariant all == frames + Fragments(base, p, i + 1)
      decreases n - count
    {
      i := i + 1;
      FieldCounts(n, i - 1);
      FieldCounts(n, i);
      FragmentsFront(base, p, i);
      bytes := if n - count >= 8 then 8 else n - count;
      var id := CanId(base, true, Byte((n - count - bytes + 7) / 8 % 256));
      assert count + bytes == Offset(n, i + 1);
      var f := CanFrame(id, p.data[count..count + bytes]);
      assert f == Fragment(base, p, i);
      assert frames + ([f] + Fragments(base, p, i + 1)) == frames + [f] + Fragments(base, p, i + 1);
      frames := frames + [f];
      count := count + bytes;
    }
    FieldCounts(n, i);
    FragmentsEnd(base, p, i + 1);
    assert frames + [] == frames;
    sent := OnBus(frames);
  }

  lemma FragmentsFront(base: bv32, p: Packet, i: nat)
    requires |p.data| <= 0xFFFF && i <= Last(|p.data|)
    ensures Fragments(base, p, i) == [Fragment(base, p, i)] + Fragments(base, p, i + 1)
  {
    hide Fragment;
  }

  lemma FragmentsEnd(base: bv32, p: Packet, i: nat)
    requires |p.data| <= 0xFFFF && i > Last(|p.data|)
    ensures Fragments(base, p, i) == []
  {
  }

  // ---- csp_can1_rx ----

  /** The fields of a packet being received; rx_count is the number of data bytes. */
  datatype Part = Part(id: Id, length: int, data: seq<byte>, remain: int)

  /** An incoming broadcast is given to the local node. */
  function Localise(c: Setup, id: Id): Id {
    if id.dst == 0x1F then id.(dst := c.addr) else id
  }

  function Continue(c: Setup, q: Part, id: bv32, bytes: seq<byte>): (Option<Part>, Option<Packet>) {
    if Remain(id) as int != q.remain - 1 then (None, None)
    else if |q.data| + |bytes| > q.length then (None, None)
    else
      var data := q.data + bytes;
      if |data| != q.length then (Some(q.(remain := q.remain - 1, data := data)), None)
      else (None, Some(Packet(Localise(c, q.id), data)))
  }

  function Begin(c: Setup, f: CanFrame): Option<Part> {
    if |f.data| < 6 then None
    else
      var n := FromBE16(f.data[4..6]);
      if n > c.bufferSize then None
      else Some(Part(Unpack1(Join(f.data[..4])), n, [], Remain(f.id) as int + 1))
  }

  function Step(c: Setup, o: Option<Part>, f: CanFrame): (Option<Part>, Option<Packet>) {
    if !More(f.id) then
      var q := Begin(c, f);
      if q.None? then (None, None) else Continue(c, q.value, f.id, f.data[6..])
    else if o.None? then (None, None)
    else Continue(c, o.value, f.id, f.data)
  }

  function Cfp(c: Setup): Protocol<Part> {
    Protocol(CONN_MASK, id => !More(id), (o, f) => Step(c, o, f))
  }

  const BLANK := Part(Id(0, 0, 0, 0, 0, 0), 0, [], 0)

  /** The part of csp_can1_rx after a packet buffer has been bound to the frame. */
  method Assemble(c: Setup, list: PbufList<Part>, at: nat, f: CanFrame) returns (out: Option<Packet>)
    requires at < |list.pbufs|
    modifies list
    ensures var r := Step(c, Some(old(list.pbufs)[at].part), f);
            list.pbufs == Settled(old(list.pbufs), at, r.0) && out == r.1
  {
    hide More, Remain, Unpack1, Join, FromBE16, Continue;
    out := None;
    var q := list.pbufs[at].part;
    var bytes := f.data;
    if !More(f.id) {
      if |f.data| < 6 {
        list.Free(at);
        return;
      }
      var length := FromBE16(f.data[4..6]);
      q := q.(id := Unpack1(Join(f.data[..4])), length := length);
      if length > c.bufferSize {
        list.Free(at);
        return;
      }
      q := q.(data := [], remain := Remain(f.id) as int + 1);
      bytes := f.data[6..];
    }
    out := Extend(c, list, at, q, f.id, bytes);
  }

  /** The bytes of a frame added to the packet they continue. */
  method Extend(c: Setup, list: PbufList<Part>, at: nat, part: Part, id: bv32, bytes: seq<byte>)
    returns (out: Option<Packet>)
    requires at < |list.pbufs|
    modifies list
    ensures var r := Continue(c, part, id, bytes);
            list.pbufs == Settled(old(list.pbufs), at, r.0) && out == r.1
  {
    hide Remain, Localise;
    out := None;
    var q := part;
    if Remain(id) as int != q.remain - 1 {
      list.Free(at);
      return;
    }
    q := q.(remain := q.remain - 1);
    if |q.data| + |bytes| > q.length {
      list.Free(at);
      return;
    }
    q := q.(data := q.data + bytes);
    if |q.data| != q.length {
      list.Fill(at, q);
      return;
    }
    q := q.(id := Localise(c, q.id));
    list.Free(at);
    out := Some(Packet(q.id, q.data));
  }

  /** csp_can1_rx on the interface's list. */
  method Rx(c: Setup, list: PbufList<Part>, now: int, f: CanFrame) returns (out: Option<Packet>)
    modifies list
    ensures (list.pbufs, out) == Receive(Cfp(c), old(list.pbufs), now, f)
  {
    hide Find, Cleanup, More, Step, Receive, Cfp, Stem;
    CfpMeans(c, None, f);
    ghost var t := list.pbufs;
    var bound, at := list.Bind(Stem(f.id), !More(f.id), now, BLANK);
    if !bound {
      ReceiveIgnored(Cfp(c), t, now, f);
      return None;
    }
    if Find(t, Stem(f.id)).Some? {
      ReceiveFound(Cfp(c), t, now, f, at);
      CfpMeans(c, Some(t[at].part), f);
    } else {
      StepBegins(c, f);
      ReceiveNew(Cfp(c), t, now, f, BLANK);
    }
    out := Assemble(c, list, at, f);
  }

  lemma CfpMeans(c: Setup, o: Option<Part>, f: CanFrame)
    ensures Cfp(c).Key(f) == Stem(f.id)
    ensures Cfp(c).begins(f.id) == !More(f.id)
    ensures Cfp(c).step(o, f) == Step(c, o, f)
  {
  }

  lemma StepBegins(c: Setup, f: CanFrame)
    requires !More(f.id)
    ensures Step(c, None, f) == Step(c, Some(BLANK), f)
  {
  }

  // ---- one stream ----

  /** The packet as the receiver hands it on. */
  function Arrived(c: Setup, p: Packet): Packet {
    Packet(Localise(c, p.id), p.data)
  }

  /** It is the packet sent, except that a broadcast arrives under the receiver's own address. */
  lemma ArrivesAs(c: Setup, p: Packet)
    ensures Arrived(c, p).data == p.data
    ensures Arrived(c, p).id == if p.id.dst == 0x1F then p.id.(dst := c.addr) else p.id
  {
  }

  predicate Sendable(c: Setup, base: bv32, p: Packet) {
    IsBase(base) && InRange1(p.id) && |p.data| <= c.bufferSize <= 0xFFFF
  }

  /** The receiver after fragments 0 to j of a packet of at most 2042 bytes, or after any accepted
      fragments of a longer one. */
  predicate Midway(p: Packet, q: Part, j: nat) {
    var n := |p.data|;
    && q.length == n && q.id == p.id && j <= Last(n)
    && q.remain == Last(n) % 256 - j >= 0
    && |q.data| < n && |q.data| <= 2 + 8 * j
    && (Last(n) < 256 ==> q.data == p.data[..Offset(n, j + 1)])
  }

  lemma FragmentFields(base: bv32, p: Packet, i: nat)
    requires IsBase(base) && |p.data| <= 0xFFFF && i <= Last(|p.data|)
    ensures var f := Fragment(base, p, i);
            && f.id & CONN_MASK == base
            && More(f.id) == (i != 0)
            && Remain(f.id) as int == (Last(|p.data|) - i) % 256
  {
    hide CanId, More, Remain, Last, IsBase, Offset, Header, ToBE16;
    FieldCounts(|p.data|, i);
    var r := Field(|p.data|, i) % 256;
    CanIdFields(base, i != 0, Byte(r));
    ByteRoundTrip(r);
  }

  lemma BeginsWith(c: Setup, base: bv32, p: Packet)
    requires Sendable(c, base, p)
    ensures var f := Fragment(base, p, 0);
            && Begin(c, f) == Some(Part(p.id, |p.data|, [], Last(|p.data|) % 256 + 1))
            && f.data[6..] == p.data[..Offset(|p.data|, 1)]
            && |f.data| >= 6
  {
    hide CanId, More, Remain, Last, IsBase, Split, Join, Pack1, Unpack1, InRange1, Offset;
    FragmentFields(base, p, 0);
    FieldCounts(|p.data|, 0);
    var f := Fragment(base, p, 0);
    var w, l := Header(V1, p.id), ToBE16(|p.data|);
    assert Offset(|p.data|, 0) == 0 by { ZeroOffset(|p.data|); }
    var chunk := p.data[..Offset(|p.data|, 1)];
    assert f.data == w + l + chunk;
    assert f.data[..4] == w && f.data[4..6] == l && f.data[6..] == chunk;
    JoinSplit(Pack1(p.id));
    Unpack1Pack1(p.id);
    BE16RoundTrip(|p.data|);
  }

  lemma ZeroOffset(n: nat)
    ensures Offset(n, 0) == 0
  {
  }

  /** The first fragment forgets whatever was there before it. */
  lemma StepFirst(c: Setup, base: bv32, p: Packet, o: Option<Part>)
    requires Sendable(c, base, p)
    ensures var s := Step(c, o, Fragment(base, p, 0));
            if |p.data| <= 2 then s == (None, Some(Arrived(c, p)))
            else s.1 == None && s.0.Some? && Midway(p, s.0.value, 0)
  {
    hide More, Remain, Begin, Fragment, Localise;
    var n := |p.data|;
    var f := Fragment(base, p, 0);
    FragmentFields(base, p, 0);
    BeginsWith(c, base, p);
    assert [] + p.data[..Offset(n, 1)] == p.data[..Offset(n, 1)];
    if n <= 2 { assert p.data[..n] == p.data; }
  }

  /** A later fragment is taken only where it belongs, and completes nothing but the packet itself. */
  lemma StepLater(c: Setup, base: bv32, p: Packet, q: Part, j: nat, i: nat)
    requires Sendable(c, base, p) && Midway(p, q, j) && 0 < i <= Last(|p.data|)
    ensures var s := Step(c, Some(q), Fragment(base, p, i));
            && (s.1.Some? ==> s.1.value == Arrived(c, p) && Last(|p.data|) < 256)
            && (s.0.Some? ==> Midway(p, s.0.value, j + 1))
            && (i == j + 1 && Last(|p.data|) < 256 ==>
                if i == Last(|p.data|) then s == (None, Some(Arrived(c, p))) else s.0.Some? && s.1.None?)
  {
    hide Step, Fragment, Localise, IsBase, InRange1, Offset, Last, Midway;
    var n := |p.data|;
    LaterStep(c, base, p, q, i);
    if (Last(n) - i) % 256 == q.remain - 1 {
      if Last(n) < 256 {
        TakenShort(p, q, j, i);
      } else {
        TakenLong(p, q, j, i);
      }
    } else if i == j + 1 && Last(n) < 256 {
      MidwayRemain(p, q, j, i);
    }
    assert Midway(p, q, j) ==> q.id == p.id by { MidwayId(p, q, j); }
  }

  lemma MidwayId(p: Packet, q: Part, j: nat)
    requires Midway(p, q, j)
    ensures q.id == p.id && q.length == |p.data|
  {
  }

  lemma MidwayRemain(p: Packet, q: Part, j: nat, i: nat)
    requires Midway(p, q, j) && 0 < i <= Last(|p.data|) < 256
    ensures (Last(|p.data|) - i) % 256 == q.remain - 1 <==> i == j + 1
  {
  }

  function Chunk(p: Packet, i: nat): seq<byte>
    requires i <= Last(|p.data|)
  {
    FieldCounts(|p.data|, i);
    p.data[Offset(|p.data|, i)..Offset(|p.data|, i + 1)]
  }

  lemma TakenShort(p: Packet, q: Part, j: nat, i: nat)
    requires Midway(p, q, j) && 0 < i <= Last(|p.data|) < 256 && (Last(|p.data|) - i) % 256 == q.remain - 1
    ensures i == j + 1
    ensures var data := q.data + Chunk(p, i);
            && |data| <= q.length
            && (|data| == q.length <==> i == Last(|p.data|))
            && (|data| == q.length ==> data == p.data)
            && (|data| != q.length ==> Midway(p, q.(remain := q.remain - 1, data := data), j + 1))
  {
    var n := |p.data|;
    MidwayRemain(p, q, j, i);
    FieldCounts(n, i);
    assert q.data + Chunk(p, i) == p.data[..Offset(n, i + 1)];
    if i == Last(n) { assert p.data[..n] == p.data; }
  }

  lemma TakenLong(p: Packet, q: Part, j: nat, i: nat)
    requires Midway(p, q, j) && 0 < i <= Last(|p.data|) && Last(|p.data|) >= 256
    requires (Last(|p.data|) - i) % 256 == q.remain - 1
    ensures var data := q.data + Chunk(p, i);
            |data| < q.length && Midway(p, q.(remain := q.remain - 1, data := data), j + 1)
  {
    FieldCounts(|p.data|, i);
    assert |Chunk(p, i)| <= 8;
  }

  lemma LaterStep(c: Setup, base: bv32, p: Packet, q: Part, i: nat)
    requires IsBase(base) && |p.data| <= 0xFFFF && 0 < i <= Last(|p.data|)
    ensures var data := q.data + Chunk(p, i);
            Step(c, Some(q), Fragment(base, p, i)) ==
            if (Last(|p.data|) - i) % 256 != q.remain - 1 || |data| > q.length then (None, None)
            else if |data| != q.length then (Some(q.(remain := q.remain - 1, data := data)), None)
            else (None, Some(Packet(Localise(c, q.id), data)))
  {
    hide More, Remain, Localise, CanId, Begin, Offset, Last, IsBase;
    FragmentFields(base, p, i);
    FieldCounts(|p.data|, i);
  }

  ghost predicate Consistent(p: Packet, o: Option<Part>) {
    o.Some? ==> exists j :: Midway(p, o.value, j)
  }

  predicate Drawn(base: bv32, p: Packet, fs: seq<CanFrame>)
    requires |p.data| <= 0xFFFF
  {
    forall f :: f in fs ==> exists i :: 0 <= i <= Last(|p.data|) && f == Fragment(base, p, i)
  }

  lemma StepDrawn(c: Setup, base: bv32, p: Packet, o: Option<Part>, i: nat)
    requires Sendable(c, base, p) && Consistent(p, o) && i <= Last(|p.data|)
    ensures var s := StreamStep(Cfp(c), o, Fragment(base, p, i));
            && Consistent(p, s.0)
            && (s.1.Some? ==> s.1.value == Arrived(c, p) && |p.data| <= 2042)
  {
    hide Step, Fragment, IsBase, InRange1, Midway, Arrived, More;
    FragmentFields(base, p, i);
    if i == 0 {
      StepFirst(c, base, p, o);
    } else if o.Some? {
      var j :| Midway(p, o.value, j);
      StepLater(c, base, p, o.value, j, i);
    }
  }

  /** Frames of a packet lost, repeated and reordered in any way, delivered to a receiver that holds
      nothing of another packet in the same stream, produce copies of that packet or nothing; a packet of
      more than 2042 bytes produces nothing. */
  lemma {:induction false} OnlyThatPacket(c: Setup, base: bv32, p: Packet, o: Option<Part>, fs: seq<CanFrame>)
    requires Sendable(c, base, p) && Consistent(p, o) && Drawn(base, p, fs)
    ensures var r := Stream(Cfp(c), o, fs);
            && Consistent(p, r.0)
            && (forall q :: q in r.1 ==> q == Arrived(c, p))
            && (|p.data| > 2042 ==> r.1 == [])
    decreases |fs|
  {
    hide StreamStep, Fragment, IsBase, InRange1, Consistent, Arrived;
    if fs != [] {
      assert fs[0] in fs;
      var i :| 0 <= i <= Last(|p.data|) && fs[0] == Fragment(base, p, i);
      StepDrawn(c, base, p, o, i);
      assert forall f :: f in fs[1..] ==> f in fs;
      OnlyThatPacket(c, base, p, StreamStep(Cfp(c), o, fs[0]).0, fs[1..]);
    }
  }

  lemma {:induction false} Resumes(c: Setup, base: bv32, p: Packet, q: Part, j: nat)
    requires Sendable(c, base, p) && Midway(p, q, j) && |p.data| <= 2042
    ensures Stream(Cfp(c), Some(q), Fragments(base, p, j + 1)) == (None, [Arrived(c, p)])
    decreases Last(|p.data|) - j
  {
    hide Step, Fragment, IsBase, InRange1, Midway, Arrived, Fragments, Stream, Offset, More;
    var i := j + 1;
    MidwayBound(p, q, j);
    StepLater(c, base, p, q, j, i);
    FragmentsFront(base, p, i);
    var f := Fragment(base, p, i);
    StreamCons(Cfp(c), Some(q), f, Fragments(base, p, i + 1));
    var s := Step(c, Some(q), f);
    if i == Last(|p.data|) {
      FragmentsEnd(base, p, i + 1);
      StreamNothing(Cfp(c), None);
      assert [Arrived(c, p)] + [] == [Arrived(c, p)];
    } else {
      Resumes(c, base, p, s.0.value, i);
      assert [] + [Arrived(c, p)] == [Arrived(c, p)];
    }
  }

  lemma MidwayBound(p: Packet, q: Part, j: nat)
    requires Midway(p, q, j) && |p.data| <= 2042
    ensures j < Last(|p.data|) < 256
  {
    FieldCounts(|p.data|, j);
  }

  lemma {:induction false} FragmentsDrawn(base: bv32, p: Packet, i: nat)
    requires |p.data| <= 0xFFFF
    ensures Drawn(base, p, Fragments(base, p, i))
    decreases Last(|p.data|) + 1 - i
  {
    hide Fragment;
    if i <= Last(|p.data|) {
      FragmentsDrawn(base, p, i + 1);
    }
  }

  /** Whatever the stream held before, the frames of a packet deliver it exactly when it has at most
      2042 bytes; a longer packet is lost. */
  lemma RoundTripExactly(c: Setup, base: bv32, p: Packet, o: Option<Part>)
    requires Sendable(c, base, p)
    ensures var r := Stream(Cfp(c), o, Fragments(base, p, 0));
            if |p.data| <= 2042 then r == (None, [Arrived(c, p)]) else r.1 == []
  {
    hide Step, Fragment, IsBase, InRange1, Midway, Arrived, Fragments, Stream, Drawn, More;
    var f := Fragment(base, p, 0);
    var s := Step(c, o, f);
    FragmentFields(base, p, 0);
    StepFirst(c, base, p, o);
    FragmentsFront(base, p, 0);
    var rest := Fragments(base, p, 1);
    StreamCons(Cfp(c), o, f, rest);
    if |p.data| <= 2 {
      FragmentsEnd(base, p, 1);
      StreamNothing(Cfp(c), None);
      assert [Arrived(c, p)] + [] == [Arrived(c, p)];
    } else if |p.data| <= 2042 {
      Resumes(c, base, p, s.0.value, 0);
      assert [] + [Arrived(c, p)] == [Arrived(c, p)];
    } else {
      FragmentsDrawn(base, p, 1);
      OnlyThatPacket(c, base, p, s.0, rest);
    }
  }

  // ---- losses ----

  predicate Within(n: nat, ks: seq<nat>) {
    forall m :: 0 <= m < |ks| ==> ks[m] <= Last(n)
  }

  /** The fragments with the given indices. */
  function Pick(base: bv32, p: Packet, ks: seq<nat>): seq<CanFrame>
    requires |p.data| <= 0xFFFF && Within(|p.data|, ks)
  {
    if ks == [] then [] else [Fragment(base, p, ks[0])] + Pick(base, p, ks[1..])
  }

  /** Every index from i to the last one is there. */
  predicate Whole(n: nat, i: nat, ks: seq<nat>) {
    forall k :: i <= k <= Last(n) ==> k in ks
  }

  lemma {:induction false} Orphans(c: Setup, base: bv32, p: Packet, ks: seq<nat>)
    requires Sendable(c, base, p) && Within(|p.data|, ks) && forall m :: 0 <= m < |ks| ==> ks[m] > 0
    ensures Stream(Cfp(c), None, Pick(base, p, ks)) == (None, [])
  {
    hide Fragment, IsBase, InRange1, Step, More, Stream, Last;
    if ks == [] {
      StreamNothing(Cfp(c), None);
    } else {
      var f := Fragment(base, p, ks[0]);
      FragmentFields(base, p, ks[0]);
      Orphans(c, base, p, ks[1..]);
      StreamCons(Cfp(c), None, f, Pick(base, p, ks[1..]));
      CfpMeans(c, None, f);
      NoPackets();
    }
  }

  /** A later fragment out of turn ends the reception. */
  lemma OutOfTurn(c: Setup, base: bv32, p: Packet, q: Part, j: nat, i: nat)
    requires Sendable(c, base, p) && Midway(p, q, j) && 0 < i <= Last(|p.data|) < 256 && i != j + 1
    ensures Step(c, Some(q), Fragment(base, p, i)) == (None, None)
  {
    hide Step, Fragment, Midway, Last, IsBase, InRange1;
    LaterStep(c, base, p, q, i);
    MidwayRemain(p, q, j, i);
  }

  lemma WholeTail(n: nat, j: nat, ks: seq<nat>)
    requires Increasing(ks) && ks != [] && ks[0] > j
    ensures Whole(n, j + 1, ks) ==> ks[0] == j + 1 || j >= Last(n)
    ensures ks[0] == j + 1 ==> (Whole(n, j + 1, ks) <==> Whole(n, j + 2, ks[1..]))
    ensures Increasing(ks[1..]) && forall m :: 0 <= m < |ks[1..]| ==> ks[1..][m] > ks[0]
  {
    hide Last;
    assert forall m :: 0 <= m < |ks[1..]| ==> ks[1..][m] == ks[m + 1] > ks[0];
    if Whole(n, j + 1, ks) && j < Last(n) {
      assert j + 1 in ks;
    }
    if ks[0] == j + 1 {
      forall k | j + 2 <= k ensures k in ks <==> k in ks[1..] {
        if k in ks { var m :| 0 <= m < |ks| && ks[m] == k; assert ks[1..][m - 1] == k; }
      }
    }
  }

  lemma {:induction false} Continues(c: Setup, base: bv32, p: Packet, q: Part, j: nat, ks: seq<nat>)
    requires Sendable(c, base, p) && Midway(p, q, j) && |p.data| <= 2042
    requires Within(|p.data|, ks) && Increasing(ks) && forall m :: 0 <= m < |ks| ==> ks[m] > j
    ensures Stream(Cfp(c), Some(q), Pick(base, p, ks)).1 ==
            if Whole(|p.data|, j + 1, ks) then [Arrived(c, p)] else []
    decreases |ks|
  {
    hide Step, Fragment, IsBase, InRange1, Midway, Arrived, Stream, Offset, More, Last;
    var n := |p.data|;
    MidwayBound(p, q, j);
    if ks == [] {
      assert j + 1 !in ks;
      StreamNothing(Cfp(c), Some(q));
    } else {
      var i, rest := ks[0], ks[1..];
      var f := Fragment(base, p, i);
      WholeTail(n, j, ks);
      StreamCons(Cfp(c), Some(q), f, Pick(base, p, rest));
      CfpMeans(c, Some(q), f);
      if i != j + 1 {
        OutOfTurn(c, base, p, q, j, i);
        Orphans(c, base, p, rest);
        NoPackets();
      } else {
        StepLater(c, base, p, q, j, i);
        if i == Last(n) {
          assert rest == [];
          StreamNothing(Cfp(c), None);
          assert [Arrived(c, p)] + [] == [Arrived(c, p)];
        } else {
          var s := Step(c, Some(q), f);
          Continues(c, base, p, s.0.value, i, rest);
          assert [] + Stream(Cfp(c), s.0, Pick(base, p, rest)).1 == Stream(Cfp(c), s.0, Pick(base, p, rest)).1;
        }
      }
    }
  }

  lemma {:induction false} PickDrawn(base: bv32, p: Packet, ks: seq<nat>)
    requires |p.data| <= 0xFFFF && Within(|p.data|, ks)
    ensures Drawn(base, p, Pick(base, p, ks))
    decreases |ks|
  {
    hide Fragment, Last;
    if ks != [] { PickDrawn(base, p, ks[1..]); }
  }

  /** Of a packet's frames only those with the indices ks arrive, in order, at a receiver that holds
      nothing of the stream: the packet is delivered, once, exactly when every frame is there and it has at
      most 2042 bytes; any loss whatever is noticed. */
  lemma LossExactly(c: Setup, base: bv32, p: Packet, ks: seq<nat>)
    requires Sendable(c, base, p) && Within(|p.data|, ks) && Increasing(ks)
    ensures Stream(Cfp(c), None, Pick(base, p, ks)).1 ==
            if |p.data| <= 2042 && Whole(|p.data|, 0, ks) then [Arrived(c, p)] else []
  {
    hide Step, Fragment, IsBase, InRange1, Midway, Arrived, Stream, Offset, More, Last;
    var n := |p.data|;
    if n > 2042 {
      PickDrawn(base, p, ks);
      OnlyThatPacket(c, base, p, None, Pick(base, p, ks));
    } else if ks == [] || ks[0] != 0 {
      assert ks != [] ==> forall m :: 0 <= m < |ks| ==> ks[0] <= ks[m];
      Orphans(c, base, p, ks);
      assert 0 !in ks;
    } else {
      LossAfterFirst(c, base, p, ks);
    }
  }

  lemma LossAfterFirst(c: Setup, base: bv32, p: Packet, ks: seq<nat>)
    requires Sendable(c, base, p) && |p.data| <= 2042 && Within(|p.data|, ks) && Increasing(ks)
    requires ks != [] && ks[0] == 0
    ensures Stream(Cfp(c), None, Pick(base, p, ks)).1 == if Whole(|p.data|, 0, ks) then [Arrived(c, p)] else []
  {
    hide Step, Fragment, IsBase, InRange1, Midway, Arrived, Stream, Offset, More;
    var n, f, rest := |p.data|, Fragment(base, p, 0), ks[1..];
    assert forall m :: 0 <= m < |rest| ==> rest[m] == ks[m + 1] > 0;
    assert Whole(n, 0, ks) <==> Whole(n, 1, rest) by {
      forall k | 1 <= k ensures k in ks <==> k in rest {
        if k in ks { var m :| 0 <= m < |ks| && ks[m] == k; assert rest[m - 1] == k; }
      }
    }
    FragmentFields(base, p, 0);
    StepFirst(c, base, p, None);
    StreamCons(Cfp(c), None, f, Pick(base, p, rest));
    CfpMeans(c, None, f);
    if n <= 2 {
      assert rest == [];
      StreamNothing(Cfp(c), None);
      assert [Arrived(c, p)] + [] == [Arrived(c, p)];
    } else {
      var s := Step(c, None, f);
      hide Last;
      Continues(c, base, p, s.0.value, 0, rest);
      assert [] + Stream(Cfp(c), s.0, Pick(base, p, rest)).1 == Stream(Cfp(c), s.0, Pick(base, p, rest)).1;
    }
  }

  // ---- interleaved streams ----

  function AllFragments(base: bv32, ps: seq<Packet>): seq<CanFrame>
    requires forall p :: p in ps ==> |p.data| <= 0xFFFF
  {
    if ps == [] then [] else Fragments(base, ps[0], 0) + AllFragments(base, ps[1..])
  }

  function AllArrived(c: Setup, ps: seq<Packet>): seq<Packet> {
    if ps == [] then [] else [Arrived(c, ps[0])] + AllArrived(c, ps[1..])
  }

  predicate AllSendable(c: Setup, base: bv32, ps: seq<Packet>) {
    forall p :: p in ps ==> Sendable(c, base, p) && |p.data| <= 2042
  }

  lemma {:induction false} StreamDelivers(c: Setup, base: bv32, ps: seq<Packet>, o: Option<Part>)
    requires AllSendable(c, base, ps)
    ensures Stream(Cfp(c), o, AllFragments(base, ps)).1 == AllArrived(c, ps)
    decreases |ps|
  {
    hide Fragments, Stream, Arrived;
    if ps == [] {
      StreamNothing(Cfp(c), o);
    } else {
      assert ps[0] in ps;
      RoundTripExactly(c, base, ps[0], o);
      StreamAppend(Cfp(c), o, Fragments(base, ps[0], 0), AllFragments(base, ps[1..]));
      StreamDelivers(c, base, ps[1..], None);
    }
  }

  /** Frames of any number of senders arrive interleaved in any way, over any stale partly received
      packets. Every stream whose frames all arrive delivers its packets once each, in order, with the
      header and the data that were sent. */
  lemma InterleavedDelivery(c: Setup, t: seq<Entry<Part>>, run: seq<Arrival>, base: bv32, ps: seq<Packet>)
    requires Unique(t) && Undisturbed(Cfp(c), t, run, base)
    requires AllSendable(c, base, ps)
    requires FramesOf(Cfp(c), base, run) == AllFragments(base, ps)
    ensures Unique(Arrivals(Cfp(c), t, run).0)
    ensures PacketsOf(base, Arrivals(Cfp(c), t, run).1) == AllArrived(c, ps)
  {
    hide Arrivals, PacketsOf, AllArrived, AllFragments, Undisturbed, FramesOf, Stream;
    Projection(Cfp(c), t, run, base);
    StreamDelivers(c, base, ps, Find(t, base));
  }

  // ---- any frames whatever ----

  /** What is being received never exceeds what was announced, nor the packet buffer. */
  predicate Bounded(c: Setup, o: Option<Part>) {
    o.Some? ==> |o.value.data| <= o.value.length <= c.bufferSize
  }

  lemma StepBounded(c: Setup, o: Option<Part>, f: CanFrame)
    requires Bounded(c, o)
    ensures var s := StreamStep(Cfp(c), o, f);
            Bounded(c, s.0) && (s.1.Some? ==> |s.1.value.data| <= c.bufferSize)
  {
    hide More, Remain, Unpack1, Join, FromBE16, Localise;
    CfpMeans(c, o, f);
  }

  /** Whatever frames arrive, no packet grows beyond its buffer. */
  lemma {:induction false} NeverOverrun(c: Setup, o: Option<Part>, fs: seq<CanFrame>)
    requires Bounded(c, o)
    ensures var r := Stream(Cfp(c), o, fs);
            Bounded(c, r.0) && forall p :: p in r.1 ==> |p.data| <= c.bufferSize
    decreases |fs|
  {
    hide StreamStep, Bounded;
    if fs != [] {
      StepBounded(c, o, fs[0]);
      NeverOverrun(c, StreamStep(Cfp(c), o, fs[0]).0, fs[1..]);
    }
  }
}
