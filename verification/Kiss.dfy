/** The KISS serial interface (src/interfaces/csp_if_kiss.c): a byte stuffing encoder and a byte
    driven decoder that must find frame boundaries in an arbitrary byte stream. */
module Kiss {
  import opened Bytes
  import opened Crc32c
  import opened CspId

  const FEND: byte := 0xC0
  const FESC: byte := 0xDB
  const TFEND: byte := 0xDC
  const TFESC: byte := 0xDD
  const TNC_DATA: byte := 0x00

  /** The protocol version and CSP_BUFFER_SIZE. */
  datatype Setup = Setup(version: Version, bufferSize: nat) {
    predicate Valid() {
      bufferSize >= 5
    }

    /** Bytes between frame_begin and the end of the data area. */
    function Limit(): nat {
      version.HeaderSize() + bufferSize
    }
  }

  // ---- csp_kiss_tx ----

  /** csp_crc32_append with its result ignored: a checksum that does not fit is left out. */
  function Trailed(c: Setup, data: seq<byte>): seq<byte> {
    match AppendCrc(c.bufferSize, data)
    case Some(d) => d
    case None => data
  }

  /** The frame handed to the escaping loop. */
  function Framed(c: Setup, p: Packet): seq<byte> {
    Header(c.version, p.id) + Trailed(c, p.data)
  }

  function EscapeByte(b: byte): seq<byte> {
    if b == FEND then [FESC, TFEND] else if b == FESC then [FESC, TFESC] else [b]
  }

  function Escape(s: seq<byte>): seq<byte> {
    if s == [] then [] else EscapeByte(s[0]) + Escape(s[1..])
  }

  function Encode(c: Setup, p: Packet): seq<byte> {
    [FEND, TNC_DATA] + Escape(Framed(c, p)) + [FEND]
  }

  function EncodeAll(c: Setup, ps: seq<Packet>): seq<byte> {
    if ps == [] then [] else Encode(c, ps[0]) + EncodeAll(c, ps[1..])
  }

  lemma {:induction false} EscapeAppend(s: seq<byte>, t: seq<byte>)
    ensures Escape(s + t) == Escape(s) + Escape(t)
  {
    if s == [] {
      assert s + t == t;
    } else {
      assert (s + t)[1..] == s[1..] + t;
      EscapeAppend(s[1..], t);
    }
  }

  lemma EscapeNothing(s: seq<byte>)
    ensures Escape(s[..0]) == []
  {
  }

  lemma EscapeNext(s: seq<byte>, i: nat)
    requires i < |s|
    ensures Escape(s[..i + 1]) == Escape(s[..i]) + EscapeByte(s[i])
  {
    hide EscapeByte;
    assert s[..i + 1] == s[..i] + [s[i]];
    EscapeAppend(s[..i], [s[i]]);
    assert Escape([s[i]][1..]) == [];
    assert EscapeByte(s[i]) + [] == EscapeByte(s[i]);
    assert Escape([s[i]]) == EscapeByte(s[i]);
  }

  /** The transmit loop. */
  method Transmit(c: Setup, p: Packet) returns (wire: seq<byte>)
    ensures wire == Encode(c, p)
  {
    hide Escape, Framed;
    var frame := Framed(c, p);
    assert Escape(frame[..0]) == [] by { EscapeNothing(frame); }
    wire := [FEND, TNC_DATA];
    for i := 0 to |frame|
      invariant wire == [FEND, TNC_DATA] + Escape(frame[..i])
    {
      EscapeNext(frame, i);
      if frame[i] == FEND {
        wire := wire + [FESC, TFEND];
      } else if frame[i] == FESC {
        wire := wire + [FESC, TFESC];
      } else {
        wire := wire + [frame[i]];
      }
    }
    assert frame[..|frame|] == frame;
    wire := wire + [FEND];
  }

  // ---- csp_kiss_rx ----

  datatype Mode = NotStarted | Started | Escaped | SkipFrame

  /** csp_kiss_interface_data_t: the mode, the rx_length bytes collected at frame_begin, whether
      rx_packet is set, and rx_first. */
  datatype Rx = Rx(mode: Mode, frame: seq<byte>, held: bool, first: bool)

  /** csp_kiss_add_interface. */
  const IDLE := Rx(NotStarted, [], false, false)

  predicate Valid(c: Setup, r: Rx) {
    && c.Valid()
    && |r.frame| <= c.Limit()
    && (r.mode.Started? || r.mode.Escaped? ==> r.held)
  }

  /** The end of a frame: strip, verify, and pass on or reject. */
  function Accept(c: Setup, frame: seq<byte>): Option<Packet> {
    match Strip(c.version, frame)
    case None => None
    case Some(p) =>
      match VerifyCrc(c.version, p.0, p.1)
      case None => None
      case Some(data) => Some(Packet(p.0, data))
  }

  /** A frame that ran past the buffer is dropped before the next byte is looked at. */
  function Truncate(c: Setup, r: Rx): Rx {
    if r.held && |r.frame| >= c.Limit() then r.(mode := NotStarted, frame := []) else r
  }

  function Ended(c: Setup, r: Rx): (Rx, seq<Packet>) {
    if |r.frame| == 0 then (r, [])
    else
      match Accept(c, r.frame)
      case None => (r.(mode := NotStarted), [])
      case Some(p) => (r.(mode := NotStarted, held := false), [p])
  }

  function Consume(c: Setup, r0: Rx, b: byte): (Rx, seq<Packet>) {
    var r := Truncate(c, r0);
    match r.mode
    case NotStarted => if b == FEND then (Rx(Started, [], true, true), []) else (r, [])
    case Started =>
      if b == FESC then (r.(mode := Escaped), [])
      else if b == FEND then Ended(c, r)
      else if r.first then (r.(first := false), [])
      else (r.(frame := r.frame + [b]), [])
    case Escaped =>
      if b == TFESC then (r.(mode := Started, frame := r.frame + [FESC]), [])
      else if b == TFEND then (r.(mode := Started, frame := r.frame + [FEND]), [])
      else (r.(mode := Started), [])
    case SkipFrame => if b == FEND then (r.(mode := NotStarted), []) else (r, [])
  }

  /** Every byte of a stream in turn. */
  function Feed(c: Setup, r: Rx, s: seq<byte>): (Rx, seq<Packet>)
    decreases |s|
  {
    if s == [] then (r, [])
    else
      var one := Consume(c, r, s[0]);
      var rest := Feed(c, one.0, s[1..]);
      (rest.0, one.1 + rest.1)
  }

  lemma ByteValid(c: Setup, r: Rx, b: byte)
    requires Valid(c, r)
    ensures Valid(c, Consume(c, r, b).0)
  {
    hide Accept;
  }

  lemma {:induction false} FeedValid(c: Setup, r: Rx, s: seq<byte>)
    requires Valid(c, r)
    ensures Valid(c, Feed(c, r, s).0)
    decreases |s|
  {
    hide Consume;
    if s != [] {
      ByteValid(c, r, s[0]);
      FeedValid(c, Consume(c, r, s[0]).0, s[1..]);
    }
  }

  /** How the driver cuts the stream into chunks does not matter. */
  lemma {:induction false} FeedChunks(c: Setup, r: Rx, s: seq<byte>, t: seq<byte>)
    ensures Feed(c, r, s + t) == var a := Feed(c, r, s); var b := Feed(c, a.0, t); (b.0, a.1 + b.1)
    decreases |s|
  {
    hide Consume;
    if s == [] {
      assert s + t == t;
      assert [] + Feed(c, r, t).1 == Feed(c, r, t).1;
    } else {
      assert (s + t)[1..] == s[1..] + t;
      var one := Consume(c, r, s[0]);
      FeedChunks(c, one.0, s[1..], t);
      var a := Feed(c, one.0, s[1..]);
      assert Feed(c, r, s) == (a.0, one.1 + a.1);
      var b := Feed(c, a.0, t);
      assert one.1 + (a.1 + b.1) == one.1 + a.1 + b.1;
    }
  }

  /** The interface data updated in place by the receive loop. */
  class Receiver {
    const c: Setup
    var mode: Mode
    var frame: seq<byte>
    var held: bool
    var first: bool

    ghost predicate Ok()
      reads this
    {
      Valid(c, State())
    }

    function State(): Rx
      reads this
    {
      Rx(mode, frame, held, first)
    }

    constructor (c: Setup)
      requires c.Valid()
      ensures this.c == c && Ok() && State() == IDLE
    {
      this.c := c;
      mode, frame, held, first := NotStarted, [], false, false;
    }

    method Receive(buf: seq<byte>) returns (delivered: seq<Packet>)
      requires Ok()
      modifies this
      ensures Ok()
      ensures (State(), delivered) == Feed(c, old(State()), buf)
    {
      hide Accept;
      ghost var start := State();
      delivered := [];
      for i := 0 to |buf|
        invariant Ok()
        invariant (State(), delivered) == Feed(c, start, buf[..i])
      {
        assert buf[..i + 1] == buf[..i] + [buf[i]];
        FeedChunks(c, start, buf[..i], [buf[i]]);
        FeedOne(c, State(), buf[i]);
        var p := Step(buf[i]);
        delivered := delivered + p;
      }
      assert buf[..|buf|] == buf;
    }

    /** The body of the loop. */
    method Step(b: byte) returns (out: seq<Packet>)
      requires Ok()
      modifies this
      ensures Ok()
      ensures (State(), out) == Consume(c, old(State()), b)
    {
      hide Accept;
      ByteValid(c, State(), b);
      out := [];
      if held && |frame| >= c.Limit() {
        mode, frame := NotStarted, [];
      }
      match mode {
        case NotStarted =>
          if b == FEND {
            held, frame, mode, first := true, [], Started, true;
          }
        case Started =>
          if b == FESC {
            mode := Escaped;
          } else if b == FEND {
            if |frame| > 0 {
              var p := Accept(c, frame);
              mode := NotStarted;
              if p.Some? {
                held := false;
                out := [p.value];
              }
            }
          } else if first {
            first := false;
          } else {
            frame := frame + [b];
          }
        case Escaped =>
          if b == TFESC { frame := frame + [FESC]; }
          if b == TFEND { frame := frame + [FEND]; }
          mode := Started;
        case SkipFrame =>
          if b == FEND { mode := NotStarted; }
      }
    }
  }

  lemma FeedOne(c: Setup, r: Rx, b: byte)
    ensures Feed(c, r, [b]) == Consume(c, r, b)
  {
    hide Consume;
    assert [b][1..] == [];
    var one := Consume(c, r, b);
    assert Feed(c, one.0, []) == (one.0, []);
    assert one.1 + [] == one.1;
  }

  // ---- one frame into a receiver that waits for one ----

  /** Between frames, or just after a start byte with nothing collected. */
  predicate Synced(r: Rx) {
    r.mode.NotStarted? || (r.mode.Started? && r.frame == [] && r.first)
  }

  lemma FeedTwo(c: Setup, r: Rx, a: byte, b: byte)
    ensures Feed(c, r, [a, b]) == var x := Consume(c, r, a); var y := Consume(c, x.0, b); (y.0, x.1 + y.1)
  {
    hide Consume;
    assert [a, b] == [a] + [b];
    FeedChunks(c, r, [a], [b]);
    FeedOne(c, r, a);
    FeedOne(c, Consume(c, r, a).0, b);
  }

  lemma Silence(s: seq<Packet>, t: seq<Packet>)
    requires s == [] && t == []
    ensures s + t == []
  {
  }

  lemma Opens(c: Setup, r: Rx)
    requires Valid(c, r) && Synced(r)
    ensures Feed(c, r, [FEND, TNC_DATA]) == (Rx(Started, [], true, false), [])
  {
    hide Accept, Feed;
    FeedTwo(c, r, FEND, TNC_DATA);
    assert Consume(c, r, FEND) == (Rx(Started, [], true, true), []);
    assert Consume(c, Rx(Started, [], true, true), TNC_DATA) == (Rx(Started, [], true, false), []);
    Silence([], []);
  }

  lemma CollectsOne(c: Setup, t: seq<byte>, b: byte)
    requires |t| < c.Limit()
    ensures Feed(c, Rx(Started, t, true, false), EscapeByte(b)) == (Rx(Started, t + [b], true, false), [])
  {
    hide Accept, Feed;
    var r := Rx(Started, t, true, false);
    assert Consume(c, r, FESC) == (Rx(Escaped, t, true, false), []);
    Silence([], []);
    if b == FEND {
      FeedTwo(c, r, FESC, TFEND);
      assert Consume(c, Rx(Escaped, t, true, false), TFEND) == (Rx(Started, t + [b], true, false), []);
    } else if b == FESC {
      FeedTwo(c, r, FESC, TFESC);
      assert Consume(c, Rx(Escaped, t, true, false), TFESC) == (Rx(Started, t + [b], true, false), []);
    } else {
      FeedOne(c, r, b);
    }
  }

  lemma {:induction false} Collects(c: Setup, t: seq<byte>, s: seq<byte>)
    requires |t| + |s| <= c.Limit()
    ensures Feed(c, Rx(Started, t, true, false), Escape(s)) == (Rx(Started, t + s, true, false), [])
    decreases |s|
  {
    hide Consume, EscapeByte, Feed;
    var r := Rx(Started, t, true, false);
    if s == [] {
      assert t + s == t;
      FeedNothing(c, r);
    } else {
      CollectsOne(c, t, s[0]);
      Collects(c, t + [s[0]], s[1..]);
      assert t + [s[0]] + s[1..] == t + s;
      FeedChunks(c, r, EscapeByte(s[0]), Escape(s[1..]));
      assert Escape(s) == EscapeByte(s[0]) + Escape(s[1..]);
      Silence([], []);
    }
  }

  lemma FeedNothing(c: Setup, r: Rx)
    ensures Feed(c, r, []) == (r, [])
  {
  }

  /** The whole encoding, cut where the decoder changes its behaviour. */
  lemma FeedEncoded(c: Setup, r: Rx, p: Packet)
    ensures var a := Feed(c, r, [FEND, TNC_DATA]);
            var b := Feed(c, a.0, Escape(Framed(c, p)));
            var z := Consume(c, b.0, FEND);
            Feed(c, r, Encode(c, p)) == (z.0, a.1 + b.1 + z.1)
  {
    hide Consume, Escape, Framed, Feed;
    var a := Feed(c, r, [FEND, TNC_DATA]);
    var b := Feed(c, a.0, Escape(Framed(c, p)));
    FeedChunks(c, r, [FEND, TNC_DATA] + Escape(Framed(c, p)), [FEND]);
    FeedChunks(c, r, [FEND, TNC_DATA], Escape(Framed(c, p)));
    FeedOne(c, b.0, FEND);
  }

  /** What a synchronised receiver does with one encoded packet. */
  lemma OneFrame(c: Setup, r: Rx, p: Packet)
    requires Valid(c, r) && Synced(r) && |p.data| <= c.bufferSize
    ensures var f := Framed(c, p);
            Feed(c, r, Encode(c, p)) == Consume(c, Rx(Started, f, true, false), FEND)
  {
    hide Consume, Escape, Feed, Checksum, Header;
    var f := Framed(c, p);
    FeedEncoded(c, r, p);
    Opens(c, r);
    Collects(c, [], f);
    assert [] + f == f;
    var z := Consume(c, Rx(Started, f, true, false), FEND);
    assert [] + [] + z.1 == z.1;
  }

  /** A frame with its checksum in place is accepted as sent, its id cut to the header's fields. */
  lemma AcceptFramed(c: Setup, p: Packet)
    requires |p.data| + 4 <= c.bufferSize
    ensures Accept(c, Framed(c, p)).Some?
    ensures Accept(c, Framed(c, p)).value.data == p.data
    ensures Accept(c, Framed(c, p)) == Some(p) <==> InRange(c.version, p.id)
  {
    hide Header, Checksum, Strip, VerifyCrc, InRange;
    var sent := AppendCrc(c.bufferSize, p.data).value;
    StripExactly(c.version, p.id, sent);
    var got := Strip(c.version, Header(c.version, p.id) + sent).value;
    VerifyAppended(c.version, got.0, c.bufferSize, p.data);
  }

  lemma AcceptLength(c: Setup, frame: seq<byte>)
    requires Accept(c, frame).Some?
    ensures |Accept(c, frame).value.data| == |frame| - c.version.HeaderSize() - 4
  {
    hide Header, Checksum;
  }

  /** From a synchronised receiver a packet is delivered, once and unchanged, exactly when its id fits
      the header and its data leaves five bytes of the buffer free. */
  lemma DeliveredExactly(c: Setup, r: Rx, p: Packet)
    requires Valid(c, r) && Synced(r) && |p.data| <= c.bufferSize
    ensures Feed(c, r, Encode(c, p)).1 == [p] <==> InRange(c.version, p.id) && |p.data| <= c.bufferSize - 5
    ensures |p.data| <= c.bufferSize - 5 ==> Feed(c, r, Encode(c, p)).0.mode.NotStarted?
  {
    hide Header, Checksum, Accept, Feed, Encode, InRange;
    OneFrame(c, r, p);
    var f := Framed(c, p);
    if |p.data| + 4 <= c.bufferSize {
      AcceptFramed(c, p);
    } else if |f| < c.Limit() && Accept(c, f).Some? {
      AcceptLength(c, f);
    }
  }

  // ---- synchronisation from any state ----

  /** Inside a frame or skipping one: what every state becomes after a start byte and a type byte. */
  predicate Inside(r: Rx) {
    r.mode.NotStarted? || (r.mode.Started? && !r.first)
  }

  lemma EntersFrame(c: Setup, r: Rx)
    requires Valid(c, r)
    ensures Inside(Feed(c, r, [FEND, TNC_DATA]).0)
  {
    hide Accept;
    FeedTwo(c, r, FEND, TNC_DATA);
  }

  lemma StaysInside(c: Setup, r: Rx, b: byte)
    requires Valid(c, r) && Inside(r)
    ensures var q := Feed(c, r, EscapeByte(b)).0; Inside(q) && (q.mode.Started? ==> |q.frame| > 0)
  {
    hide Accept;
    if b == FEND {
      FeedTwo(c, r, FESC, TFEND);
    } else if b == FESC {
      FeedTwo(c, r, FESC, TFESC);
    } else {
      FeedOne(c, r, b);
    }
  }

  lemma {:induction false} StaysInsideAll(c: Setup, r: Rx, s: seq<byte>)
    requires Valid(c, r) && Inside(r) && s != []
    ensures var q := Feed(c, r, Escape(s)).0; Inside(q) && (q.mode.Started? ==> |q.frame| > 0)
    decreases |s|
  {
    hide Consume, EscapeByte, Feed;
    StaysInside(c, r, s[0]);
    FeedValid(c, r, EscapeByte(s[0]));
    if |s| == 1 {
      assert Escape(s[1..]) == [];
      assert EscapeByte(s[0]) + [] == EscapeByte(s[0]);
    } else {
      FeedChunks(c, r, EscapeByte(s[0]), Escape(s[1..]));
      StaysInsideAll(c, Feed(c, r, EscapeByte(s[0])).0, s[1..]);
    }
  }

  /** Whatever bytes came before, one complete frame of any content leaves the receiver synchronised. */
  lemma Resynchronises(c: Setup, r: Rx, p: Packet)
    requires Valid(c, r)
    ensures Synced(Feed(c, r, Encode(c, p)).0)
  {
    hide Accept, Feed, Header, Checksum, Escape, Encode, Trailed;
    FeedEncoded(c, r, p);
    EntersFrame(c, r);
    FeedValid(c, r, [FEND, TNC_DATA]);
    StaysInsideAll(c, Feed(c, r, [FEND, TNC_DATA]).0, Framed(c, p));
  }

  predicate Deliverable(c: Setup, p: Packet) {
    InRange(c.version, p.id) && |p.data| <= c.bufferSize - 5
  }

  lemma {:induction false} DeliversAll(c: Setup, r: Rx, ps: seq<Packet>)
    requires Valid(c, r) && Synced(r)
    requires forall p :: p in ps ==> Deliverable(c, p)
    ensures Feed(c, r, EncodeAll(c, ps)).1 == ps
    decreases |ps|
  {
    hide Accept, Feed, Encode, InRange;
    if ps == [] {
      FeedNothing(c, r);
    } else {
      assert Deliverable(c, ps[0]);
      DeliveredExactly(c, r, ps[0]);
      FeedValid(c, r, Encode(c, ps[0]));
      FeedChunks(c, r, Encode(c, ps[0]), EncodeAll(c, ps[1..]));
      DeliversAll(c, Feed(c, r, Encode(c, ps[0])).0, ps[1..]);
      assert [ps[0]] + ps[1..] == ps;
    }
  }

  /** After any line noise and one sacrificed frame, every following packet that fits is delivered
      exactly once, unchanged and in order, however the driver cuts the stream into chunks. */
  lemma SelfSynchronising(c: Setup, noise: seq<byte>, lost: Packet, ps: seq<Packet>)
    requires c.Valid()
    requires forall p :: p in ps ==> Deliverable(c, p)
    ensures var before := Feed(c, IDLE, noise + Encode(c, lost));
            Feed(c, IDLE, noise + Encode(c, lost) + EncodeAll(c, ps)).1 == before.1 + ps
  {
    hide Feed, Encode, EncodeAll, Deliverable;
    var r := Feed(c, IDLE, noise).0;
    FeedValid(c, IDLE, noise);
    Resynchronises(c, r, lost);
    FeedChunks(c, IDLE, noise, Encode(c, lost));
    FeedValid(c, r, Encode(c, lost));
    DeliversAll(c, Feed(c, r, Encode(c, lost)).0, ps);
    FeedChunks(c, IDLE, noise + Encode(c, lost), EncodeAll(c, ps));
  }

  // ---- any bytes whatever ----

  /** Whatever a frame holds, it is accepted only as a header and data in front of a checksum of the data, with or
      without the header. */
  lemma AcceptSound(c: Setup, frame: seq<byte>)
    requires Accept(c, frame).Some?
    ensures var p, h := Accept(c, frame).value, c.version.HeaderSize();
            && |frame| == h + |p.data| + 4 && frame[h..h + |p.data|] == p.data && frame[..h] == Header(c.version, p.id)
            && (frame[h + |p.data|..] == Split(Checksum(p.data))
                || frame[h + |p.data|..] == Split(Checksum(Header(c.version, p.id) + p.data)))
  {
    hide Header, Checksum, Split;
    HeaderOfStripped(c.version, frame);
    var h, p := c.version.HeaderSize(), Accept(c, frame).value;
    var rest := frame[h..];
    assert rest[..|rest| - 4] == frame[h..|frame| - 4] && rest[|rest| - 4..] == frame[|frame| - 4..];
  }
}
