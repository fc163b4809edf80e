/** Fragmentation of CSP 2 packets over CAN (src/interfaces/csp_if_can.c:265-461). */
module Can2 {
  import opened Bytes
  import opened CspId
  import opened CanPbuf

  /** CSP_BUFFER_SIZE and the interface address. */
  datatype Setup = Setup(bufferSize: nat, addr: bv16)

  // ---- the CAN id: 2 priority, 14 destination, 6 sender, 2 sender count, 3 fragment count bits,
  // ---- begin and end ----

  const CONN_MASK: bv32 := 0x1FFF_FFE0

  /** The bits of a CAN id that are the same in all frames of a packet. */
  function Base(id: Id, sender: bv16, count: bv32): bv32 {
    ((id.pri as bv32 & 0x3) << 27) | ((id.dst as bv32 & 0x3FFF) << 13)
    | ((sender as bv32 & 0x3F) << 7) | ((count & 0x3) << 5)
  }

  function CanId(base: bv32, fragment: byte, begin: bool, end: bool): bv32 {
    base | ((fragment as bv32 & 0x7) << 2) | (if begin then 2 else 0) | (if end then 1 else 0)
  }

  predicate Begins(id: bv32) {
    id & 2 != 0
  }

  predicate Ends(id: bv32) {
    id & 1 != 0
  }

  function Count(id: bv32): byte {
    ((id >> 2) & 0x7) as bv8
  }

  /** The two header bytes that travel in the CAN id. */
  function HighBytes(id: bv32): seq<byte> {
    [((id >> 21) & 0xFF) as bv8, ((id >> 13) & 0xFF) as bv8]
  }

  /** The other four, sent as the first data bytes. */
  function Extension(id: Id): bv32 {
    ((id.src as bv32 & 0x3FFF) << 18) | ((id.dport as bv32 & 0x3F) << 12)
    | ((id.sport as bv32 & 0x3F) << 6) | (id.flags as bv32 & 0x3F)
  }

  /** The bits a receiver sorts frames by. */
  function Stem(id: bv32): bv32 {
    id & CONN_MASK
  }

  predicate IsBase(b: bv32) {
    b & CONN_MASK == b
  }

  /** b is a base for packets with this id. */
  predicate Names(b: bv32, id: Id) {
    IsBase(b) && HighBytes(b) == Header(V2, id)[..2]
  }

  lemma BaseNames(id: Id, sender: bv16, count: bv32)
    requires InRange2(id)
    ensures Names(Base(id, sender, count), id)
  {
    BaseBits(id, sender, count);
  }

  lemma BaseBits(id: Id, sender: bv16, count: bv32)
    requires InRange2(id)
    ensures var b, w := Base(id, sender, count), Pack2(id);
            && b & CONN_MASK == b
            && ((b >> 21) & 0xFF) as bv8 == ((w >> 40) & 0xFF) as bv8
            && ((b >> 13) & 0xFF) as bv8 == ((w >> 32) & 0xFF) as bv8
  {
  }

  lemma ExtensionBytes(id: Id)
    requires InRange2(id)
    ensures Split(Extension(id)) == Header(V2, id)[2..]
  {
    ExtensionBits(id);
  }

  lemma ExtensionBits(id: Id)
    requires InRange2(id)
    ensures var e, w := Extension(id), Pack2(id);
            && ((e >> 24) & 0xFF) as bv8 == ((w >> 24) & 0xFF) as bv8
            && ((e >> 16) & 0xFF) as bv8 == ((w >> 16) & 0xFF) as bv8
            && ((e >> 8) & 0xFF) as bv8 == ((w >> 8) & 0xFF) as bv8
            && (e & 0xFF) as bv8 == (w & 0xFF) as bv8
  {
  }

  lemma CanIdFields(b: bv32, fragment: byte, begin: bool, end: bool)
    requires IsBase(b) && fragment < 8
    ensures Stem(CanId(b, fragment, begin, end)) == b
    ensures HighBytes(CanId(b, fragment, begin, end)) == HighBytes(b)
    ensures Begins(CanId(b, fragment, begin, end)) == begin
    ensures Ends(CanId(b, fragment, begin, end)) == end
    ensures Count(CanId(b, fragment, begin, end)) == fragment
  {
    CanIdStem(b, fragment, begin, end);
    CanIdFlags(b, fragment, begin, end);
    CanIdCount(b, fragment, begin, end);
  }

  lemma CanIdStem(b: bv32, fragment: byte, begin: bool, end: bool)
    requires IsBase(b) && fragment < 8
    ensures Stem(CanId(b, fragment, begin, end)) == b
    ensures HighBytes(CanId(b, fragment, begin, end)) == HighBytes(b)
  {
  }

  lemma CanIdFlags(b: bv32, fragment: byte, begin: bool, end: bool)
    requires IsBase(b) && fragment < 8
    ensures Begins(CanId(b, fragment, begin, end)) == begin
    ensures Ends(CanId(b, fragment, begin, end)) == end
  {
  }

  lemma CanIdCount(b: bv32, fragment: byte, begin: bool, end: bool)
    requires IsBase(b) && fragment < 8
    ensures Count(CanId(b, fragment, begin, end)) == fragment
  {
  }

  // ---- csp_can2_tx ----

  /** Data bytes sent before fragment i of a packet with n data bytes. */
  function Offset(n: nat, i: nat): nat {
    if i == 0 then 0 else Min(4 + 8 * (i - 1), n)
  }

  /** The index of the last fragment. */
  function Last(n: nat): nat {
    (n + 3) / 8
  }

  function Chunk(p: Packet, i: nat): seq<byte>
    requires i <= Last(|p.data|)
  {
    Offsets(|p.data|, i);
    p.data[Offset(|p.data|, i)..Offset(|p.data|, i + 1)]
  }

  function Fragment(base: bv32, p: Packet, i: nat): CanFrame
    requires i <= Last(|p.data|)
  {
    var id := CanId(base, Byte(i % 8), i == 0, i == Last(|p.data|));
    CanFrame(id, if i == 0 then Split(Extension(p.id)) + Chunk(p, i) else Chunk(p, i))
  }

  predicate Within(n: nat, ks: seq<nat>) {
    forall m :: 0 <= m < |ks| ==> ks[m] <= Last(n)
  }

  /** The fragments with the given indices. */
  function Pick(base: bv32, p: Packet, ks: seq<nat>): seq<CanFrame>
    requires Within(|p.data|, ks)
  {
    if ks == [] then [] else [Fragment(base, p, ks[0])] + Pick(base, p, ks[1..])
  }

  /** The data bytes they carry. */
  function Kept(p: Packet, ks: seq<nat>): seq<byte>
    requires Within(|p.data|, ks)
  {
    if ks == [] then [] else Chunk(p, ks[0]) + Kept(p, ks[1..])
  }

  function UpTo(a: nat, b: nat): seq<nat>
    decreases b - a
  {
    if a >= b then [] else [a] + UpTo(a + 1, b)
  }

  lemma {:induction false} UpToBounds(a: nat, b: nat)
    ensures |UpTo(a, b)| == (if a < b then b - a else 0)
    ensures forall m :: 0 <= m < |UpTo(a, b)| ==> UpTo(a, b)[m] == a + m
    decreases b - a
  {
    if a < b { UpToBounds(a + 1, b); }
  }

  /** Fragments i and later. */
  function Fragments(base: bv32, p: Packet, i: nat): seq<CanFrame> {
    UpToBounds(i, Last(|p.data|) + 1);
    Pick(base, p, UpTo(i, Last(|p.data|) + 1))
  }

  lemma Offsets(n: nat, i: nat)
    requires i <= Last(n)
    ensures Offset(n, i) <= Offset(n, i + 1) <= n
    ensures i > 0 ==> Offset(n, i) == 4 + 8 * (i - 1) < n
    ensures Offset(n, i + 1) == n <==> i == Last(n)
    ensures i < Last(n) ==> Offset(n, i + 1) == 4 + 8 * i
  {
  }

  lemma FragmentsFront(base: bv32, p: Packet, i: nat)
    requires i <= Last(|p.data|)
    ensures Fragments(base, p, i) == [Fragment(base, p, i)] + Fragments(base, p, i + 1)
  {
    hide Fragment;
    UpToBounds(i, Last(|p.data|) + 1);
    UpToBounds(i + 1, Last(|p.data|) + 1);
    assert UpTo(i, Last(|p.data|) + 1)[1..] == UpTo(i + 1, Last(|p.data|) + 1);
  }

  lemma FragmentsEnd(base: bv32, p: Packet, i: nat)
    requires i > Last(|p.data|)
    ensures Fragments(base, p, i) == []
  {
  }

  method Transmit(c: Setup, count: bv32, p: Packet) returns (sent: Transmission)
    ensures sent == if p.id.dst == c.addr then Loopback(p)
                    else OnBus(Fragments(Base(p.id, c.addr, count), p, 0))
  {
    hide Base, CanId, Split, Extension, Fragments, Byte;
    assert Byte(0) == 0 by { ByteZero(); }
    if p.id.dst == c.addr { return Loopback(p); }
    var n := |p.data|;
    var base := Base(p.id, c.addr, count);
    var bytes := if n >= 4 then 4 else n;
    Offsets(n, 0);
    var first := CanFrame(CanId(base, 0, true, bytes == n), Split(Extension(p.id)) + p.data[..bytes]);
    assert p.data[..bytes] == Chunk(p, 0);
    assert first == Fragment(base, p, 0);
    var frames := [first];
    var tx, i := bytes, 1;
    ghost var all := Fragments(base, p, 0);
    FragmentsFront(base, p, 0);
    while tx < n
      invariant 1 <= i <= Last(n) + 1 && tx == Offset(n, i)
      invariant all == frames + Fragments(base, p, i)
      decreases n - tx
    {
      Offsets(n, i - 1);
      Offsets(n, i);
      FragmentsFront(base, p, i);
      bytes := if n - tx >= 8 then 8 else n - tx;
      assert tx + bytes == Offset(n, i + 1);
      var f := CanFrame(CanId(base, Byte(i % 8), false, tx + bytes == n), p.data[tx..tx + bytes]);
      assert f == Fragment(base, p, i);
      assert frames + ([f] + Fragments(base, p, i + 1)) == frames + [f] + Fragments(base, p, i + 1);
      frames := frames + [f];
      i := i + 1;
      tx := tx + bytes;
    }
    Offsets(n, i - 1);
    FragmentsEnd(base, p, i);
    assert frames + [] == frames;
    sent := OnBus(frames);
  }

  // ---- csp_can2_rx ----

  /** The frame bytes received and the fragment number expected next. */
  datatype Part = Part(frame: seq<byte>, next: int)

  /** An incoming broadcast is given to the local node. */
  function Localise(c: Setup, id: Id): Id {
    if id.dst == 0x3FFF then id.(dst := c.addr) else id
  }

  function Finish(c: Setup, frame: seq<byte>): Option<Packet> {
    match Strip(V2, frame)
    case None => None
    case Some(p) => Some(Packet(Localise(c, p.0), p.1))
  }

  function Extend(c: Setup, q: Part, id: bv32, bytes: seq<byte>): (Option<Part>, Option<Packet>) {
    if |q.frame| + |bytes| > 6 + c.bufferSize then (None, None)
    else
      var frame := q.frame + bytes;
      if Ends(id) then (None, Finish(c, frame)) else (Some(q.(frame := frame)), None)
  }

  function Step(c: Setup, o: Option<Part>, f: CanFrame): (Option<Part>, Option<Packet>) {
    if Begins(f.id) then
      if |f.data| < 4 then (None, None)
      else Extend(c, Part(HighBytes(f.id) + f.data[..4], 1), f.id, f.data[4..])
    else if o.None? then (None, None)
    else if Count(f.id) as int != o.value.next then (None, None)
    else Extend(c, o.value.(next := (o.value.next + 1) % 8), f.id, f.data)
  }

  function Cfp(c: Setup): Protocol<Part> {
    Protocol(CONN_MASK, id => Begins(id), (o, f) => Step(c, o, f))
  }

  const BLANK := Part([], 0)

  /** The part of csp_can2_rx after a packet buffer has been bound to the frame. */
  method Assemble(c: Setup, list: PbufList<Part>, at: nat, f: CanFrame) returns (out: Option<Packet>)
    requires at < |list.pbufs|
    requires |list.pbufs[at].part.frame| >= 6 || Begins(f.id)
    modifies list
    ensures var r := Step(c, Some(old(list.pbufs)[at].part), f);
            list.pbufs == Settled(old(list.pbufs), at, r.0) && out == r.1
  {
    hide Begins, Ends, Count, HighBytes, Localise, Unpack2, Join48;
    out := None;
    var q := list.pbufs[at].part;
    var bytes := f.data;
    if Begins(f.id) {
      if |f.data| < 4 {
        list.Free(at);
        return;
      }
      q := q.(frame := HighBytes(f.id) + f.data[..4]);
      bytes := f.data[4..];
      q := q.(next := 1);
      assert |q.frame| >= 6 by { HighLength(f.id); }
    } else {
      if q.next != Count(f.id) as int {
        list.Free(at);
        return;
      }
      q := q.(next := (q.next + 1) % 8);
    }
    if |q.frame| + |bytes| > 6 + c.bufferSize {
      list.Free(at);
      return;
    }
    q := q.(frame := q.frame + bytes);
    if Ends(f.id) {
      var s := Strip(V2, q.frame);
      list.Free(at);
      out := Some(Packet(Localise(c, s.value.0), s.value.1));
    } else {
      list.Fill(at, q);
    }
  }

  lemma HighLength(id: bv32)
    ensures |HighBytes(id)| == 2
  {
  }

  /** Every partly received packet starts with a whole header. */
  predicate Headed(t: seq<Entry<Part>>) {
    forall i :: 0 <= i < |t| ==> |t[i].part.frame| >= 6
  }

  /** csp_can2_rx on the interface's list. */
  method Rx(c: Setup, list: PbufList<Part>, now: int, f: CanFrame) returns (out: Option<Packet>)
    requires Headed(list.pbufs)
    modifies list
    ensures (list.pbufs, out) == Receive(Cfp(c), old(list.pbufs), now, f)
    ensures Headed(list.pbufs)
  {
    hide Find, Cleanup, Begins, Step, Receive, Cfp, Stem;
    CfpMeans(c, None, f);
    ghost var t := list.pbufs;
    var bound, at := list.Bind(Stem(f.id), Begins(f.id), now, BLANK);
    if !bound {
      ReceiveIgnored(Cfp(c), t, now, f);
      return None;
    }
    if Find(t, Stem(f.id)).Some? {
      ReceiveFound(Cfp(c), t, now, f, at);
      CfpMeans(c, Some(t[at].part), f);
    } else {
      CleanupHeaded(t, now, false);
      StepBegins(c, f);
      ReceiveNew(Cfp(c), t, now, f, BLANK);
    }
    StepHeaded(c, list.pbufs[at].part, f);
    out := Assemble(c, list, at, f);
  }

  lemma StepHeaded(c: Setup, q: Part, f: CanFrame)
    requires |q.frame| >= 6 || Begins(f.id)
    ensures var r := Step(c, Some(q), f); r.0.Some? ==> |r.0.value.frame| >= 6
  {
    hide Finish, Begins, Ends;
  }

  lemma {:induction false} CleanupHeaded(t: seq<Entry<Part>>, now: int, unlinked: bool)
    requires Headed(t)
    ensures Headed(Cleanup(t, now, unlinked))
  {
    if t != [] {
      CleanupHeaded(t[1..], now, true);
      CleanupHeaded(t[1..], now, false);
    }
  }

  lemma CfpMeans(c: Setup, o: Option<Part>, f: CanFrame)
    ensures Cfp(c).Key(f) == Stem(f.id)
    ensures Cfp(c).begins(f.id) == Begins(f.id)
    ensures Cfp(c).step(o, f) == Step(c, o, f)
  {
  }

  lemma StepBegins(c: Setup, f: CanFrame)
    requires Begins(f.id)
    ensures Step(c, None, f) == Step(c, Some(BLANK), f)
  {
  }

  // ---- one stream ----

  /** The packet as the receiver hands it on. */
  function Arrived(c: Setup, p: Packet): Packet {
    Packet(Localise(c, p.id), p.data)
  }

  /** It is the packet sent, except that a broadcast arrives under the receiver's own address. */
  lemma ArrivesAs(c: Setup, p: Packet)
    ensures Arrived(c, p).data == p.data
    ensures Arrived(c, p).id == if p.id.dst == 0x3FFF then p.id.(dst := c.addr) else p.id
  {
  }

  predicate Sendable(c: Setup, base: bv32, p: Packet) {
    InRange2(p.id) && Names(base, p.id) && |p.data| <= c.bufferSize
  }

  lemma FragmentFields(base: bv32, p: Packet, i: nat)
    requires IsBase(base) && i <= Last(|p.data|)
    ensures var f := Fragment(base, p, i);
            && Stem(f.id) == base && HighBytes(f.id) == HighBytes(base)
            && Begins(f.id) == (i == 0) && Ends(f.id) == (i == Last(|p.data|))
            && Count(f.id) as int == i % 8
  {
    hide CanId, Begins, Ends, Count, HighBytes, Stem, IsBase, Split, Extension, Last;
    var k := Byte(i % 8);
    SmallByte(i % 8);
    CanIdFields(base, k, i == 0, i == Last(|p.data|));
  }

  lemma ByteZero()
    ensures Byte(0) == 0
  {
  }

  lemma SmallByte(x: int)
    requires 0 <= x < 8
    ensures Byte(x) < 8 && Byte(x) as int == x
  {
    ByteRoundTrip(x);
    Ordered(Byte(x));
  }

  lemma Ordered(b: byte)
    ensures b < 8 <==> b as int < 8
  {
  }

  lemma FinishWhole(c: Setup, p: Packet, data: seq<byte>)
    requires InRange2(p.id)
    ensures Finish(c, Header(V2, p.id) + data) == Some(Packet(Localise(c, p.id), data))
  {
    hide Header, Strip, Localise, InRange2;
    StripExactly(V2, p.id, data);
  }

  /** The first fragment forgets whatever was there before it. */
  lemma StepFirst(c: Setup, base: bv32, p: Packet, o: Option<Part>)
    requires Sendable(c, base, p)
    ensures Step(c, o, Fragment(base, p, 0)) ==
            if Last(|p.data|) == 0 then (None, Some(Packet(Localise(c, p.id), Chunk(p, 0))))
            else (Some(Part(Header(V2, p.id) + Chunk(p, 0), 1)), None)
  {
    hide CanId, Begins, Ends, Count, HighBytes, IsBase, Split, Extension, Header, InRange2, Finish, Last;
    var f := Fragment(base, p, 0);
    var h := Header(V2, p.id);
    FragmentFields(base, p, 0);
    ExtensionBytes(p.id);
    FinishWhole(c, p, Chunk(p, 0));
    var e := Split(Extension(p.id));
    assert f.data[..4] == e && f.data[4..] == Chunk(p, 0);
    assert HighBytes(f.id) + e == h;
    Offsets(|p.data|, 0);
  }

  /** A later fragment is taken exactly when its number is the expected one modulo eight. */
  lemma StepLater(c: Setup, base: bv32, p: Packet, got: seq<byte>, k: nat, i: nat)
    requires Sendable(c, base, p) && k < i <= Last(|p.data|) && |got| <= Offset(|p.data|, k + 1)
    ensures Step(c, Some(Part(Header(V2, p.id) + got, (k + 1) % 8)), Fragment(base, p, i)) ==
            if (i - k) % 8 != 1 then (None, None)
            else if i == Last(|p.data|) then (None, Some(Packet(Localise(c, p.id), got + Chunk(p, i))))
            else (Some(Part(Header(V2, p.id) + (got + Chunk(p, i)), (i + 1) % 8)), None)
    ensures |got + Chunk(p, i)| <= Offset(|p.data|, i + 1)
  {
    hide CanId, Begins, Ends, Count, HighBytes, IsBase, Split, Extension, Header, InRange2, Finish, Localise;
    var f := Fragment(base, p, i);
    FragmentFields(base, p, i);
    Offsets(|p.data|, i);
    Offsets(|p.data|, k);
    FinishWhole(c, p, got + Chunk(p, i));
    var h := Header(V2, p.id);
    assert h + got + Chunk(p, i) == h + (got + Chunk(p, i));
    CountsApart(k, i);
  }

  lemma CountsApart(k: nat, i: nat)
    requires k < i
    ensures i % 8 == (k + 1) % 8 <==> (i - k) % 8 == 1
    ensures (i - k) % 8 == 1 ==> ((k + 1) % 8 + 1) % 8 == (i + 1) % 8
  {
  }

  /** Starting after fragment k, every further fragment follows its predecessor modulo eight and the
      last one is the end of the packet. */
  predicate Reaches(n: nat, k: nat, ks: seq<nat>)
    decreases |ks|
  {
    if ks == [] then k == Last(n) else (ks[0] - k) % 8 == 1 && Reaches(n, ks[0], ks[1..])
  }

  lemma {:induction false} Orphans(c: Setup, base: bv32, p: Packet, ks: seq<nat>)
    requires Sendable(c, base, p) && Within(|p.data|, ks) && forall m :: 0 <= m < |ks| ==> ks[m] > 0
    ensures Stream(Cfp(c), None, Pick(base, p, ks)) == (None, [])
  {
    hide Fragment, IsBase, InRange2, Step, Begins, Stream, Last;
    if ks == [] {
      StreamNothing(Cfp(c), None);
    } else {
      var f := Fragment(base, p, ks[0]);
      FragmentFields(base, p, ks[0]);
      Orphans(c, base, p, ks[1..]);
      StreamCons(Cfp(c), None, f, Pick(base, p, ks[1..]));
      StepIgnores(c, f);
      NoPackets();
    }
  }

  lemma StepIgnores(c: Setup, f: CanFrame)
    requires !Begins(f.id)
    ensures StreamStep(Cfp(c), None, f) == (None, None)
  {
  }

  lemma StepsAs(c: Setup, o: Option<Part>, f: CanFrame)
    requires o.Some? || Begins(f.id)
    ensures StreamStep(Cfp(c), o, f) == Step(c, o, f)
  {
  }

  /** The fragments ks after fragment k, with `got` received so far. */
  lemma {:induction false} Continues(c: Setup, base: bv32, p: Packet, got: seq<byte>, k: nat, ks: seq<nat>)
    requires Sendable(c, base, p) && Within(|p.data|, ks) && k < Last(|p.data|)
    requires Increasing([k] + ks) && |got| <= Offset(|p.data|, k + 1)
    ensures Stream(Cfp(c), Some(Part(Header(V2, p.id) + got, (k + 1) % 8)), Pick(base, p, ks)).1 ==
            if Reaches(|p.data|, k, ks) then [Packet(Localise(c, p.id), got + Kept(p, ks))] else []
    decreases |ks|
  {
    hide Fragment, IsBase, InRange2, Step, Begins, Stream, Last, Header, Localise, Chunk, Offset, Increasing, Names;
    var o := Some(Part(Header(V2, p.id) + got, (k + 1) % 8));
    if ks == [] {
      StreamNothing(Cfp(c), o);
    } else {
      var i, rest := ks[0], ks[1..];
      IncreasingTail(k, ks);
      var f := Fragment(base, p, i);
      StepLater(c, base, p, got, k, i);
      StepsAs(c, o, f);
      StreamCons(Cfp(c), o, f, Pick(base, p, rest));
      var s := Step(c, o, f);
      var more := got + Chunk(p, i);
      assert more + Kept(p, rest) == got + Kept(p, ks);
      if (i - k) % 8 != 1 {
        AfterFirst(i, rest);
        Orphans(c, base, p, rest);
        NoPackets();
      } else if i == Last(|p.data|) {
        NothingAfter(|p.data|, i, rest);
        StreamNothing(Cfp(c), None);
        assert Kept(p, rest) == [];
        assert more + [] == more;
      } else {
        Continues(c, base, p, more, i, rest);
        var d := Stream(Cfp(c), s.0, Pick(base, p, rest)).1;
        assert Delivered(None) + d == d;
      }
    }
  }

  lemma IncreasingTail(k: nat, ks: seq<nat>)
    requires Increasing([k] + ks) && ks != []
    ensures k < ks[0] && Increasing([ks[0]] + ks[1..])
  {
    assert ([k] + ks)[0] == k && ([k] + ks)[1] == ks[0];
    assert [ks[0]] + ks[1..] == ([k] + ks)[1..];
  }

  lemma AfterFirst(i: nat, rest: seq<nat>)
    requires Increasing([i] + rest)
    ensures forall m :: 0 <= m < |rest| ==> rest[m] > i
  {
    forall m | 0 <= m < |rest| ensures rest[m] > i {
      assert ([i] + rest)[0] == i && ([i] + rest)[m + 1] == rest[m];
    }
  }

  lemma NothingAfter(n: nat, i: nat, rest: seq<nat>)
    requires Increasing([i] + rest) && Within(n, rest) && i == Last(n)
    ensures rest == []
  {
    if rest != [] {
      FirstAfter(i, rest);
      assert false;
    }
  }

  lemma FirstAfter(i: nat, rest: seq<nat>)
    requires Increasing([i] + rest) && rest != []
    ensures rest[0] > i
  {
    AfterFirst(i, rest);
  }

  /** Which losses go unnoticed. Of a packet's frames only those with the indices ks arrive, in order,
      at a receiver that holds nothing of the stream. A packet is delivered exactly when the first
      and the last frame are there and each index exceeds the one before it by one modulo eight; its data is
      then what the frames that arrived carry. */
  lemma LossExactly(c: Setup, base: bv32, p: Packet, ks: seq<nat>)
    requires Sendable(c, base, p) && Within(|p.data|, ks) && Increasing(ks)
    ensures Stream(Cfp(c), None, Pick(base, p, ks)).1 ==
            if ks != [] && ks[0] == 0 && Reaches(|p.data|, 0, ks[1..])
            then [Packet(Localise(c, p.id), Kept(p, ks))] else []
  {
    if ks == [] {
    } else if ks[0] != 0 {
      AfterFront(ks);
      Orphans(c, base, p, ks);
    } else {
      LossAfterBegin(c, base, p, None, ks);
    }
  }

  lemma AfterFront(ks: seq<nat>)
    requires Increasing(ks) && ks != [] && ks[0] > 0
    ensures forall m :: 0 <= m < |ks| ==> ks[m] > 0
  {
    forall m | 0 < m < |ks| ensures ks[m] > 0 { assert ks[0] < ks[m]; }
  }

  lemma LossAfterBegin(c: Setup, base: bv32, p: Packet, o: Option<Part>, ks: seq<nat>)
    requires Sendable(c, base, p) && Within(|p.data|, ks) && Increasing(ks) && ks != [] && ks[0] == 0
    ensures Stream(Cfp(c), o, Pick(base, p, ks)).1 ==
            if Reaches(|p.data|, 0, ks[1..]) then [Packet(Localise(c, p.id), Kept(p, ks))] else []
  {
    hide Fragment, IsBase, InRange2, Step, Begins, Stream, Last, Header, Localise, Chunk, Offset;
    var f, rest := Fragment(base, p, 0), ks[1..];
    assert [0] + rest == ks;
    FragmentFields(base, p, 0);
    StepFirst(c, base, p, o);
    StepsAs(c, o, f);
    StreamCons(Cfp(c), o, f, Pick(base, p, rest));
    if Last(|p.data|) == 0 {
      NothingAfter(|p.data|, 0, rest);
      StreamNothing(Cfp(c), None);
      assert Kept(p, rest) == [];
      assert Chunk(p, 0) + [] == Chunk(p, 0);
      assert Kept(p, ks) == Chunk(p, 0);
    } else {
      ChunkSize(p, 0);
      Continues(c, base, p, Chunk(p, 0), 0, rest);
      var d := Stream(Cfp(c), Step(c, o, f).0, Pick(base, p, rest)).1;
      assert Delivered(None) + d == d;
    }
  }

  lemma ChunkSize(p: Packet, i: nat)
    requires i <= Last(|p.data|)
    ensures |Chunk(p, i)| == Offset(|p.data|, i + 1) - Offset(|p.data|, i) <= Offset(|p.data|, i + 1)
  {
    Offsets(|p.data|, i);
  }

  // ---- complete packets and contiguous losses ----

  lemma {:induction false} ReachesRun(n: nat, k: nat, m: nat, rest: seq<nat>)
    requires k < m
    ensures Reaches(n, k, UpTo(k + 1, m) + rest) == Reaches(n, m - 1, rest)
    decreases m - k
  {
    hide Last;
    if k + 1 < m {
      ReachesRun(n, k + 1, m, rest);
      var all := UpTo(k + 1, m) + rest;
      assert all[0] == k + 1 && all[1..] == UpTo(k + 2, m) + rest;
    } else {
      assert UpTo(k + 1, m) + rest == rest;
    }
  }

  lemma {:induction false} KeptRun(p: Packet, a: nat, b: nat)
    requires a <= b <= Last(|p.data|) + 1
    ensures Within(|p.data|, UpTo(a, b)) && Offset(|p.data|, a) <= Offset(|p.data|, b) <= |p.data|
    ensures Kept(p, UpTo(a, b)) == p.data[Offset(|p.data|, a)..Offset(|p.data|, b)]
    decreases b - a
  {
    hide Last, Offset;
    UpToBounds(a, b);
    if a < b {
      KeptRun(p, a + 1, b);
      Offsets(|p.data|, a);
      assert UpTo(a, b)[1..] == UpTo(a + 1, b);
    } else {
      OffsetBound(|p.data|, a);
    }
  }

  lemma OffsetBound(n: nat, a: nat)
    ensures Offset(n, a) <= n
    ensures a == 0 ==> Offset(n, a) == 0
    ensures a == Last(n) + 1 ==> Offset(n, a) == n
  {
  }

  lemma {:induction false} KeptAppend(p: Packet, a: seq<nat>, b: seq<nat>)
    requires Within(|p.data|, a) && Within(|p.data|, b)
    ensures Within(|p.data|, a + b)
    ensures Kept(p, a + b) == Kept(p, a) + Kept(p, b)
  {
    hide Chunk, Last;
    if a == [] {
      assert a + b == b;
    } else {
      KeptAppend(p, a[1..], b);
      assert (a + b)[1..] == a[1..] + b;
      assert Chunk(p, a[0]) + (Kept(p, a[1..]) + Kept(p, b)) == Chunk(p, a[0]) + Kept(p, a[1..]) + Kept(p, b);
    }
  }

  /** Whatever the stream held before, the frames of a packet that fits the buffer deliver it. */
  lemma RoundTrip(c: Setup, base: bv32, p: Packet, o: Option<Part>)
    requires Sendable(c, base, p)
    ensures Stream(Cfp(c), o, Fragments(base, p, 0)).1 == [Arrived(c, p)]
  {
    hide Last, Offset, IsBase, InRange2, Stream, Pick, Reaches, Kept, Localise;
    var n := |p.data|;
    var end := Last(n) + 1;
    var ks := UpTo(0, end);
    UpToBounds(0, end);
    LossAfterBegin(c, base, p, o, ks);
    assert ks[1..] == UpTo(1, end) + [];
    ReachesRun(n, 0, end, []);
    AtEnd(n);
    KeptRun(p, 0, end);
    OffsetBound(n, 0);
    OffsetBound(n, end);
    assert p.data[0..n] == p.data;
  }

  lemma AtEnd(n: nat)
    ensures Reaches(n, Last(n), [])
  {
  }

  /** The indices left when the d frames from a on are lost. */
  function Without(n: nat, a: nat, d: nat): seq<nat> {
    UpTo(0, a) + UpTo(a + d, Last(n) + 1)
  }

  lemma WithoutWithin(n: nat, a: nat, d: nat)
    requires 0 < a && 0 < d && a + d <= Last(n)
    ensures Within(n, Without(n, a, d)) && Increasing(Without(n, a, d))
    ensures |Without(n, a, d)| > 0 && Without(n, a, d)[0] == 0
    ensures Without(n, a, d)[1..] == UpTo(1, a) + UpTo(a + d, Last(n) + 1)
  {
    hide Last, UpTo;
    UpToBounds(0, a);
    UpToBounds(1, a);
    UpToBounds(a + d, Last(n) + 1);
    var x, y := UpTo(0, a), UpTo(a + d, Last(n) + 1);
    assert x[1..] == UpTo(1, a);
    assert (x + y)[1..] == x[1..] + y;
    var ks := x + y;
    forall m | 0 <= m < |ks| ensures ks[m] == if m < a then m else m + d {
    }
    forall m | 0 <= m < |ks| ensures ks[m] <= Last(n) {
    }
    forall m, l | 0 <= m < l < |ks| ensures ks[m] < ks[l] {
    }
  }

  /** Losing d frames in a row from the middle of a packet is noticed exactly when d is not a multiple
      of eight. Otherwise a packet with those 8 d bytes missing is delivered. */
  lemma RunDropped(c: Setup, base: bv32, p: Packet, a: nat, d: nat)
    requires Sendable(c, base, p) && 0 < a && 0 < d && a + d <= Last(|p.data|)
    ensures Within(|p.data|, Without(|p.data|, a, d))
    ensures var out := Stream(Cfp(c), None, Pick(base, p, Without(|p.data|, a, d))).1;
            var cut := 4 + 8 * (a - 1);
            && (out == [] <==> d % 8 != 0)
            && cut + 8 * d < |p.data|
            && (out != [] ==> out == [Packet(Localise(c, p.id), p.data[..cut] + p.data[cut + 8 * d..])])
  {
    hide IsBase, InRange2, Stream, Pick, Kept, Localise, Last, Offset, Reaches, UpTo, Without, Names;
    var n := |p.data|;
    WithoutWithin(n, a, d);
    LossExactly(c, base, p, Without(n, a, d));
    GapReaches(n, a, d);
    WithoutKept(p, a, d);
  }

  lemma GapReaches(n: nat, a: nat, d: nat)
    requires 0 < a && 0 < d && a + d <= Last(n)
    ensures Reaches(n, 0, UpTo(1, a) + UpTo(a + d, Last(n) + 1)) <==> d % 8 == 0
  {
    hide Last, UpTo, Reaches;
    var y := UpTo(a + d, Last(n) + 1);
    ReachesRun(n, 0, a, y);
    UpToBounds(a + d, Last(n) + 1);
    UpToBounds(a + d + 1, Last(n) + 1);
    assert y[1..] == UpTo(a + d + 1, Last(n) + 1) + [];
    ReachesRun(n, a + d, Last(n) + 1, []);
    AtEnd(n);
    ReachesFront(n, a - 1, y);
    Gap(a, d);
  }

  lemma ReachesFront(n: nat, k: nat, ks: seq<nat>)
    requires ks != []
    ensures Reaches(n, k, ks) == ((ks[0] - k) % 8 == 1 && Reaches(n, ks[0], ks[1..]))
  {
  }

  lemma Gap(a: nat, d: nat)
    ensures (a + d - (a - 1)) % 8 == 1 <==> d % 8 == 0
  {
  }

  lemma WithoutKept(p: Packet, a: nat, d: nat)
    requires 0 < a && 0 < d && a + d <= Last(|p.data|) && Within(|p.data|, Without(|p.data|, a, d))
    ensures var cut := 4 + 8 * (a - 1);
            && cut + 8 * d < |p.data|
            && Kept(p, Without(|p.data|, a, d)) == p.data[..cut] + p.data[cut + 8 * d..]
  {
    hide Kept, Last, Offset, UpTo;
    var n := |p.data|;
    var x, y := UpTo(0, a), UpTo(a + d, Last(n) + 1);
    KeptRun(p, 0, a);
    KeptRun(p, a + d, Last(n) + 1);
    KeptAppend(p, x, y);
    Offsets(n, a);
    Offsets(n, a + d);
    OffsetBound(n, 0);
    OffsetBound(n, Last(n) + 1);
    var cut := 4 + 8 * (a - 1);
    assert p.data[0..cut] == p.data[..cut] && p.data[cut + 8 * d..n] == p.data[cut + 8 * d..];
  }

  // ---- interleaved streams ----

  function AllFragments(base: bv32, ps: seq<Packet>): seq<CanFrame> {
    if ps == [] then [] else Fragments(base, ps[0], 0) + AllFragments(base, ps[1..])
  }

  function AllArrived(c: Setup, ps: seq<Packet>): seq<Packet> {
    if ps == [] then [] else [Arrived(c, ps[0])] + AllArrived(c, ps[1..])
  }

  lemma {:induction false} StreamDelivers(c: Setup, base: bv32, ps: seq<Packet>, o: Option<Part>)
    requires forall p :: p in ps ==> Sendable(c, base, p)
    ensures Stream(Cfp(c), o, AllFragments(base, ps)).1 == AllArrived(c, ps)
    decreases |ps|
  {
    hide Fragments, Stream, Arrived, Sendable;
    if ps == [] {
      StreamNothing(Cfp(c), o);
    } else {
      var fs := Fragments(base, ps[0], 0);
      RoundTrip(c, base, ps[0], o);
      StreamAppend(Cfp(c), o, fs, AllFragments(base, ps[1..]));
      StreamDelivers(c, base, ps[1..], Stream(Cfp(c), o, fs).0);
    }
  }

  /** Frames of any number of senders arrive interleaved in any way, over any stale partly received
      packets. Every stream whose frames all arrive delivers its packets once each, in order, with the
      header and the data that were sent. */
  lemma InterleavedDelivery(c: Setup, t: seq<Entry<Part>>, run: seq<Arrival>, base: bv32, ps: seq<Packet>)
    requires Unique(t) && Undisturbed(Cfp(c), t, run, base)
    requires forall p :: p in ps ==> Sendable(c, base, p)
    requires FramesOf(Cfp(c), base, run) == AllFragments(base, ps)
    ensures Unique(Arrivals(Cfp(c), t, run).0)
    ensures PacketsOf(base, Arrivals(Cfp(c), t, run).1) == AllArrived(c, ps)
  {
    hide Arrivals, PacketsOf, AllArrived, AllFragments, Undisturbed, FramesOf, Stream, Sendable;
    Projection(Cfp(c), t, run, base);
    StreamDelivers(c, base, ps, Find(t, base));
  }

  // ---- any frames whatever ----

  /** What is being received fits the header and the packet buffer. */
  predicate Bounded(c: Setup, o: Option<Part>) {
    o.Some? ==> |o.value.frame| <= 6 + c.bufferSize
  }

  lemma StepBounded(c: Setup, o: Option<Part>, f: CanFrame)
    requires Bounded(c, o)
    ensures var s := StreamStep(Cfp(c), o, f);
            Bounded(c, s.0) && (s.1.Some? ==> |s.1.value.data| <= c.bufferSize)
  {
    hide Begins, Ends, Count, HighBytes, Unpack2, Join48, Localise;
    CfpMeans(c, o, f);
  }

  /** Whatever frames arrive, no packet grows beyond its buffer. */
  lemma {:induction false} NeverOverrun(c: Setup, o: Option<Part>, fs: seq<CanFrame>)
    requires Bounded(c, o)
    ensures var r := Stream(Cfp(c), o, fs);
            Bounded(c, r.0) && forall p :: p in r.1 ==> |p.data| <= c.bufferSize
    decreases |fs|
  {
    hide StreamStep, Bounded;
    if fs != [] {
      StepBounded(c, o, fs[0]);
      NeverOverrun(c, StreamStep(Cfp(c), o, fs[0]).0, fs[1..]);
    }
  }
}
