/** The simple fragmentation protocol (src/csp_sfp.c): a blob sent over a connection in packets that each
    end with their offset and the total size. */
module Sfp {
  import opened Bytes

  /** A packet read from the connection: whether CSP_FFRAG is set, and its data. */
  datatype Fragment = Fragment(flagged: bool, bytes: seq<byte>)

  datatype Error = Invalid | Malformed | TimedOut

  const WORD: int := 0x1_0000_0000

  // ---- csp_sfp_send_own_memcpy ----

  function Piece(blob: seq<byte>, from: nat, to: nat): Fragment
    requires from <= to <= |blob| < WORD
  {
    Fragment(true, blob[from..to] + ToBE32(from) + ToBE32(|blob|))
  }

  function Next(blob: seq<byte>, mtu: nat, from: nat): nat {
    if |blob| - from > mtu then from + mtu else |blob|
  }

  /** The packets from the given offset on. */
  function Pieces(blob: seq<byte>, mtu: nat, from: nat): seq<Fragment>
    requires from <= |blob| < WORD && mtu > 0
    decreases |blob| - from
  {
    if from == |blob| then []
    else [Piece(blob, from, Next(blob, mtu, from))] + Pieces(blob, mtu, Next(blob, mtu, from))
  }

  predicate Legal(bufferSize: nat, mtu: nat) {
    mtu > 0 && mtu + 8 <= bufferSize
  }

  datatype Sent = Rejected(error: Error) | Accepted(packets: seq<Fragment>)

  /** The send loop on a connection that stays active and a pool that never runs empty. */
  method Send(bufferSize: nat, blob: seq<byte>, mtu: nat) returns (r: Sent)
    requires |blob| < WORD
    ensures !Legal(bufferSize, mtu) ==> r == Rejected(Invalid)
    ensures Legal(bufferSize, mtu) ==> r == Accepted(Pieces(blob, mtu, 0))
    ensures r.Accepted? ==> forall f :: f in r.packets ==> |f.bytes| <= bufferSize
  {
    hide ToBE32;
    if mtu == 0 || mtu + 8 > bufferSize {
      return Rejected(Invalid);
    }
    var count := 0;
    var sent: seq<Fragment> := [];
    ghost var all := Pieces(blob, mtu, 0);
    while count < |blob|
      invariant count <= |blob|
      invariant all == sent + Pieces(blob, mtu, count)
      invariant forall f :: f in sent ==> |f.bytes| <= bufferSize
    {
      var size := |blob| - count;
      if size > mtu { size := mtu; }
      var f := Fragment(true, blob[count..count + size] + ToBE32(count) + ToBE32(|blob|));
      assert f == Piece(blob, count, Next(blob, mtu, count));
      assert sent + ([f] + Pieces(blob, mtu, count + size)) == sent + [f] + Pieces(blob, mtu, count + size);
      sent := sent + [f];
      count := count + size;
    }
    assert sent + [] == sent;
    r := Accepted(sent);
  }

  // ---- csp_sfp_recv_fp ----

  datatype Trailer = Trailer(offset: int, total: int, payload: seq<byte>)

  /** csp_sfp_header_remove. */
  function Remove(f: Fragment): Option<Trailer> {
    if !f.flagged || |f.bytes| < 8 then None
    else
      var n := |f.bytes| - 8;
      var offset, total := FromBE32(f.bytes[n..n + 4]), FromBE32(f.bytes[n + 4..]);
      if offset > total then None else Some(Trailer(offset, total, f.bytes[..n]))
  }

  /** Nothing yet; data_offset bytes of total; or the outcome. */
  datatype Progress = Empty | Filling(total: int, data: seq<byte>) | Complete(blob: seq<byte>) | Failed(error: Error)

  function Take(s: Progress, f: Fragment): Progress
    requires s.Empty? || s.Filling?
  {
    var got := if s.Empty? then [] else s.data;
    var h := Remove(f);
    if h.None? || h.value.offset != |got| then Failed(Malformed)
    else
      var total := if s.Empty? then h.value.total else s.total;
      var data := got + h.value.payload;
      if |data| > total || total != h.value.total then Failed(Malformed)
      else if |data| >= total then Complete(data)
      else if h.value.payload == [] then Failed(Malformed)
      else Filling(total, data)
  }

  /** Reading until an outcome; a connection with nothing more to read times out. */
  function Read(s: Progress, fs: seq<Fragment>): Progress
    decreases |fs|
  {
    if s.Complete? || s.Failed? then s
    else if fs == [] then Failed(TimedOut)
    else Read(Take(s, fs[0]), fs[1..])
  }

  /** The receive loop, filling a buffer allocated from the first total. */
  method Receive(fs: seq<Fragment>) returns (r: Progress)
    ensures r == Read(Empty, fs)
  {
    hide FromBE32;
    if fs == [] {
      return Failed(TimedOut);
    }
    var data := new byte[0];
    var started := false;
    var datasize, offset := 0, 0;
    ghost var s: Progress := Empty;
    var i := 0;
    while i < |fs|
      invariant 0 <= i <= |fs| && 0 <= offset <= data.Length == datasize
      invariant fresh(data)
      invariant s == if started then Filling(datasize, data[..offset]) else Empty
      invariant !started ==> offset == 0
      invariant started ==> 0 < offset < datasize
      invariant Read(Empty, fs) == Read(s, fs[i..])
    {
      assert fs[i..][1..] == fs[i + 1..];
      ghost var next := Take(s, fs[i]);
      assert Read(s, fs[i..]) == Read(next, fs[i + 1..]);
      var h := Remove(fs[i]);
      if h.None? || h.value.offset != offset {
        return Failed(Malformed);
      }
      ghost var got := data[..offset];
      if !started {
        datasize := h.value.total;
        data := new byte[datasize];
        started := true;
      }
      var n := |h.value.payload|;
      if offset + n > datasize || datasize != h.value.total {
        return Failed(Malformed);
      }
      Copy(data, offset, h.value.payload);
      assert data[..offset + n] == got + h.value.payload;
      offset := offset + n;
      if offset >= datasize {
        assert data[..offset] == data[..];
        return Complete(data[..]);
      }
      if n == 0 {
        return Failed(Malformed);
      }
      s := next;
      i := i + 1;
    }
    r := Failed(TimedOut);
  }

  // ---- what receiving makes of the pieces of one blob ----

  lemma RemovePiece(blob: seq<byte>, from: nat, to: nat)
    requires from <= to <= |blob| < WORD
    ensures Remove(Piece(blob, from, to)) == Some(Trailer(from, |blob|, blob[from..to]))
  {
    hide ToBE32, FromBE32;
    var bytes := Piece(blob, from, to).bytes;
    var n := |bytes| - 8;
    assert bytes[n..n + 4] == ToBE32(from) && bytes[n + 4..] == ToBE32(|blob|) && bytes[..n] == blob[from..to];
    BE32RoundTrip(from);
    BE32RoundTrip(|blob|);
  }

  /** Having received the blob up to an offset. */
  function Reached(blob: seq<byte>, at: nat): Progress
    requires at <= |blob|
  {
    if at == |blob| then Complete(blob) else if at == 0 then Empty else Filling(|blob|, blob[..at])
  }

  lemma TakePiece(blob: seq<byte>, at: nat, from: nat, to: nat)
    requires at < |blob| < WORD && from < to <= |blob|
    ensures Take(Reached(blob, at), Piece(blob, from, to)) ==
            if from == at then Reached(blob, to) else Failed(Malformed)
  {
    hide Remove, Piece;
    RemovePiece(blob, from, to);
    if from == at {
      assert blob[..at] + blob[at..to] == blob[..to];
      assert blob[..|blob|] == blob;
      assert at == 0 ==> blob[..at] == [];
    }
  }

  predicate Drawn(blob: seq<byte>, mtu: nat, fs: seq<Fragment>)
    requires |blob| < WORD && mtu > 0
  {
    forall i :: 0 <= i < |fs| ==> fs[i] in Pieces(blob, mtu, 0)
  }

  lemma {:induction false} PieceOf(blob: seq<byte>, mtu: nat, from: nat, f: Fragment) returns (k: nat)
    requires from <= |blob| < WORD && mtu > 0 && f in Pieces(blob, mtu, from)
    ensures k < |blob| && f == Piece(blob, k, Next(blob, mtu, k))
    decreases |blob| - from
  {
    hide Piece;
    var next := Next(blob, mtu, from);
    if f == Piece(blob, from, next) {
      k := from;
    } else {
      k := PieceOf(blob, mtu, next, f);
    }
  }

  lemma PieceInjective(blob: seq<byte>, mtu: nat, a: nat, b: nat)
    requires a < |blob| < WORD && b < |blob| && mtu > 0
    requires Piece(blob, a, Next(blob, mtu, a)) == Piece(blob, b, Next(blob, mtu, b))
    ensures a == b
  {
    hide Piece, Remove;
    RemovePiece(blob, a, Next(blob, mtu, a));
    RemovePiece(blob, b, Next(blob, mtu, b));
  }

  lemma {:induction false} ReadFrom(blob: seq<byte>, mtu: nat, at: nat, fs: seq<Fragment>)
    requires at < |blob| < WORD && mtu > 0 && Drawn(blob, mtu, fs)
    ensures var r := Read(Reached(blob, at), fs);
            && (r == Complete(blob) <==> Pieces(blob, mtu, at) <= fs)
            && (r.Complete? ==> r.blob == blob)
    decreases |fs|
  {
    hide Take, Piece;
    var s, next := Reached(blob, at), Next(blob, mtu, at);
    var here := Piece(blob, at, next);
    var ps := Pieces(blob, mtu, at);
    assert ps == [here] + Pieces(blob, mtu, next);
    if fs == [] {
    } else {
      var k := PieceOf(blob, mtu, 0, fs[0]);
      TakePiece(blob, at, k, Next(blob, mtu, k));
      if k == at {
        FrontPrefix(here, Pieces(blob, mtu, next), fs);
        assert Drawn(blob, mtu, fs[1..]);
        if next < |blob| {
          ReadFrom(blob, mtu, next, fs[1..]);
        }
      } else if ps <= fs {
        assert fs[0] == ps[0];
        PieceInjective(blob, mtu, k, at);
        assert false;
      }
    }
  }

  lemma FrontPrefix<T>(x: T, rest: seq<T>, s: seq<T>)
    requires s != [] && s[0] == x
    ensures [x] + rest <= s <==> rest <= s[1..]
  {
    assert ([x] + rest)[1..] == rest;
    if rest <= s[1..] {
      assert s == [x] + s[1..];
    }
    if [x] + rest <= s {
      assert rest == s[1..|rest| + 1];
    }
  }

  /** Fragments of one transfer, lost, repeated or reordered in any way. Reception succeeds exactly when
      the stream begins with all of them in order, and then returns the blob; it never returns anything
      else. */
  lemma SucceedsExactly(blob: seq<byte>, mtu: nat, fs: seq<Fragment>)
    requires 0 < |blob| < WORD && mtu > 0 && Drawn(blob, mtu, fs)
    ensures Read(Empty, fs).Complete? <==> Pieces(blob, mtu, 0) <= fs
    ensures Read(Empty, fs).Complete? ==> Read(Empty, fs) == Complete(blob)
  {
    hide Take, Pieces;
    ReadFrom(blob, mtu, 0, fs);
  }

  /** Receiving undoes sending. */
  lemma RoundTrip(blob: seq<byte>, mtu: nat)
    requires 0 < |blob| < WORD && mtu > 0
    ensures Read(Empty, Pieces(blob, mtu, 0)) == Complete(blob)
  {
    hide Take, Pieces;
    SucceedsExactly(blob, mtu, Pieces(blob, mtu, 0));
  }

  /** An empty blob is never received: nothing is sent for it. */
  lemma EmptyTimesOut(mtu: nat)
    requires mtu > 0
    ensures Read(Empty, Pieces([], mtu, 0)) == Failed(TimedOut)
  {
  }

  // ---- any stream whatever ----

  /** The fragments carry the bytes from offset `at` to total, each its own offset and the same total, none of them
      empty before the end. */
  predicate Tiles(fs: seq<Fragment>, at: nat, total: int)
    decreases |fs|
  {
    && fs != [] && Remove(fs[0]).Some?
    && var h := Remove(fs[0]).value;
       && h.offset == at && h.total == total && at + |h.payload| <= total
       && if at + |h.payload| == total then |fs| == 1
          else h.payload != [] && Tiles(fs[1..], at + |h.payload|, total)
  }

  /** The bytes they carry. */
  function Contents(fs: seq<Fragment>): seq<byte> {
    if fs == [] then []
    else (if Remove(fs[0]).Some? then Remove(fs[0]).value.payload else []) + Contents(fs[1..])
  }

  predicate Whole(fs: seq<Fragment>) {
    fs != [] && Remove(fs[0]).Some? && Tiles(fs, 0, Remove(fs[0]).value.total)
  }

  /** What has arrived so far. */
  predicate Holding(s: Progress, got: seq<byte>, total: int) {
    (s == Filling(total, got) && |got| < total) || (s == Empty && got == [])
  }

  lemma {:induction false} ReadTiles(s: Progress, got: seq<byte>, total: int, fs: seq<Fragment>, n: nat)
    requires Holding(s, got, total) && n <= |fs| && Tiles(fs[..n], |got|, total)
    ensures Read(s, fs) == Complete(got + Contents(fs[..n]))
    decreases n
  {
    hide Remove;
    var gs := fs[..n];
    assert gs[0] == fs[0];
    var p := Remove(fs[0]).value.payload;
    assert Contents(gs) == p + Contents(gs[1..]);
    if |got| + |p| == total {
      assert gs[1..] == [] && p + [] == p;
    } else {
      assert gs[1..] == fs[1..][..n - 1];
      ReadTiles(Filling(total, got + p), got + p, total, fs[1..], n - 1);
      assert got + p + Contents(gs[1..]) == got + (p + Contents(gs[1..]));
    }
  }

  lemma {:induction false} TilesRead(s: Progress, got: seq<byte>, total: int, fs: seq<Fragment>) returns (n: nat)
    requires Holding(s, got, total) && Read(s, fs).Complete?
    requires s == Empty && fs != [] && Remove(fs[0]).Some? ==> total == Remove(fs[0]).value.total
    ensures n <= |fs| && Tiles(fs[..n], |got|, total) && Read(s, fs) == Complete(got + Contents(fs[..n]))
    decreases |fs|
  {
    hide Remove;
    var p := Remove(fs[0]).value.payload;
    if |got| + |p| == total {
      n := 1;
      assert fs[..1] == [fs[0]] && [fs[0]][1..] == [];
      assert Contents(fs[..1]) == p + [] == p;
    } else {
      var m := TilesRead(Filling(total, got + p), got + p, total, fs[1..]);
      n := m + 1;
      assert fs[..n][1..] == fs[1..][..m] && fs[..n][0] == fs[0];
      assert Contents(fs[..n]) == p + Contents(fs[1..][..m]);
      assert got + p + Contents(fs[1..][..m]) == got + Contents(fs[..n]);
    }
  }

  /** On any stream whatever, reception succeeds exactly when the stream begins with fragments that tile one blob
      without gap or overlap under a single total, and returns that blob. */
  lemma CompletesExactly(fs: seq<Fragment>, blob: seq<byte>)
    ensures Read(Empty, fs) == Complete(blob) <==>
            exists n :: 0 < n <= |fs| && Whole(fs[..n]) && Contents(fs[..n]) == blob
  {
    hide Remove, Tiles, Take;
    if n :| 0 < n <= |fs| && Whole(fs[..n]) && Contents(fs[..n]) == blob {
      ReadTiles(Empty, [], Remove(fs[0]).value.total, fs, n);
      assert [] + blob == blob;
    } else if Read(Empty, fs) == Complete(blob) {
      var total := if Remove(fs[0]).Some? then Remove(fs[0]).value.total else 0;
      var n := TilesRead(Empty, [], total, fs);
      assert n > 0 by { TilesNotEmpty(fs[..n], 0, total); }
      assert fs[..n][0] == fs[0];
      assert [] + Contents(fs[..n]) == Contents(fs[..n]);
      FirstRemoved(fs[..n], 0, total);
    }
  }

  lemma TilesNotEmpty(fs: seq<Fragment>, at: nat, total: int)
    requires Tiles(fs, at, total)
    ensures fs != []
  {
  }

  lemma FirstRemoved(fs: seq<Fragment>, at: nat, total: int)
    requires Tiles(fs, at, total)
    ensures fs != [] && Remove(fs[0]).Some? && Remove(fs[0]).value.total == total
  {
  }
}
