/** The RDP connection of src/csp_rdp.c as a state machine on values: one function per
    entry point, with the branches, constants and error exits of the C code.

    Inputs the code takes from its surroundings are in Env: the clock, whether a buffer
    can be leased, the random initial sequence number, and room on the socket.

    Three kinds of history are carried along so that runs can be reasoned about; no
    branch reads them: the tags seqIx/ackIx of a segment (the unbounded numbers behind
    its 16-bit fields), the payloads accepted from the user and delivered to the user,
    and the flags below "history" in Conn. */
module Rdp {
  import opened SeqNumbers
  import opened Bytes

  const HEADER_SIZE := 5
  const NR_OPTIONS := 24

  /** Build-time limits CSP_RDP_MAX_WINDOW, CSP_CONN_RXQUEUE_LEN and CSP_BUFFER_SIZE, and the bytes that
      csp_send_direct_iface appends to every packet of the connection: four for an HMAC, four for a
      CRC-32 (src/csp_io.c:240-263). */
  datatype Config = Config(maxWindow: nat, rxQueueLen: nat, bufferSize: nat, trailer: nat)

  /** A segment with this payload leaves the node: its header and trailer fit the packet.  Otherwise
      csp_send_direct_iface frees it on every attempt (src/csp_io.c:245, 258, 283). */
  predicate Fits(cfg: Config, data: Data) {
    |data| + HEADER_SIZE + cfg.trailer <= cfg.bufferSize
  }

  datatype State = Closed | SynSent | SynRcvd | Open | CloseWait

  /** The CSP_RDP_CLOSED_BY_* bits. */
  datatype Closers = Closers(user: bool, protocol: bool, timeout: bool) {
    function Or(o: Closers): Closers {
      Closers(user || o.user, protocol || o.protocol, timeout || o.timeout)
    }

    predicate Within(o: Closers) {
      (user ==> o.user) && (protocol ==> o.protocol) && (timeout ==> o.timeout)
    }
  }
  const NOBODY := Closers(false, false, false)
  const EVERYBODY := Closers(true, true, true)
  const USER := Closers(true, false, false)
  const PROTOCOL := Closers(false, true, false)
  const TIMEOUT := Closers(false, false, true)

  datatype Options = Options(windowSize: u32, connTimeout: u32, packetTimeout: u32,
                             delayedAcks: u32, ackTimeout: u32, ackDelayCount: u32)

  type Data = seq<byte>

  datatype Segment = Segment(syn: bool, ack: bool, eak: bool, rst: bool,
                             seqNr: u16, ackNr: u16, data: Data,
                             seqIx: int, ackIx: int)

  /** An element of the retransmission queue. */
  datatype Timed = Timed(seg: Segment, timestamp: u32)

  /** An element of conn->rx_queue: a packet, or the NULL that wakes a reader up. */
  datatype Item = Packet(data: Data) | WakeUp

  /** Sending half: RFC 908 send variables and the retransmission queue. */
  datatype Snd = Snd(
    nxt: u16, una: u16, iss: u16, txq: seq<Timed>,
    // history
    accepted: seq<Data>,          // payloads csp_rdp_send took
    unaIx: int,                   // unbounded una - iss
    hiIx: int,                    // the highest unaIx so far
    started: bool)                // iss was chosen

  /** Receiving half: RFC 908 receive variables, reorder queue and connection queue. */
  datatype Rcv = Rcv(
    cur: u16, irs: u16, rxq: seq<Segment>, rxQueue: seq<Item>,
    // history
    delivered: seq<Data>,         // payloads taken in sequence
    read: seq<Data>,              // payloads csp_read returned
    established: bool)            // irs was taken from the peer

  /** Life cycle of the connection structure. */
  datatype Life = Life(
    server: bool,                 // conn->type == CONN_SERVER
    inUse: bool,                  // conn->state == CONN_OPEN
    hasSocket: bool,              // conn->dest_socket != NULL
    state: State, closedBy: Closers,
    // history
    leased: bool,                 // left the pool
    ticked: bool,                 // timeouts checked since the last segment
    handed: bool,                 // user space holds the handle
    userClosed: bool,             // user space called csp_close
    requested: Closers)           // every closer ever passed to csp_conn_close

  datatype Clocks = Clocks(timestamp: u32, ackTimestamp: u32, rcvLsa: u16)

  datatype Conn = Conn(cfg: Config, opts: Options, life: Life, clocks: Clocks, snd: Snd, rcv: Rcv)

  datatype Env = Env(now: u32, mem: bool, cloneMem: bool, iss: u16, backlog: bool,
                     retransmitMem: seq<bool>)

  /** The connection after a call and the segments it handed to csp_send_direct. */
  datatype Effect = Effect(conn: Conn, out: seq<Segment>)

  // ---- connection options carried by SYN (src/csp_rdp.c:188-195, 528-534) ----

  function EncodeOptions(o: Options): (d: Data)
    ensures |d| == NR_OPTIONS
  {
    ToBE32(o.windowSize) + ToBE32(o.connTimeout) + ToBE32(o.packetTimeout)
    + ToBE32(o.delayedAcks) + ToBE32(o.ackTimeout) + ToBE32(o.ackDelayCount)
  }

  /** Bytes past the end of a short SYN read as zero. */
  function Word(d: Data, i: nat): u32 {
    FromBE32((d + Zeros(4 * i + 4))[4 * i..4 * i + 4])
  }

  function DecodeOptions(d: Data): Options {
    Options(Word(d, 0), Word(d, 1), Word(d, 2), Word(d, 3), Word(d, 4), Word(d, 5))
  }

  lemma WordAt(d: Data, i: nat, w: u32)
    requires |d| >= 4 * i + 4 && d[4 * i..4 * i + 4] == ToBE32(w)
    ensures Word(d, i) == w
  {
    var p := d + Zeros(4 * i + 4);
    assert p[4 * i..4 * i + 4] == d[4 * i..4 * i + 4];
    BE32RoundTrip(w);
  }

  /** The passive side reads exactly the options the active side put into its SYN. */
  lemma OptionsRoundTrip(o: Options)
    ensures DecodeOptions(EncodeOptions(o)) == o
  {
    var d := EncodeOptions(o);
    assert d[0..4] == ToBE32(o.windowSize);
    assert d[4..8] == ToBE32(o.connTimeout);
    assert d[8..12] == ToBE32(o.packetTimeout);
    assert d[12..16] == ToBE32(o.delayedAcks);
    assert d[16..20] == ToBE32(o.ackTimeout);
    assert d[20..24] == ToBE32(o.ackDelayCount);
    WordAt(d, 0, o.windowSize);
    WordAt(d, 1, o.connTimeout);
    WordAt(d, 2, o.packetTimeout);
    WordAt(d, 3, o.delayedAcks);
    WordAt(d, 4, o.ackTimeout);
    WordAt(d, 5, o.ackDelayCount);
  }

  // ---- queues (src/csp_rdp_queue.c:35-40): a full queue drops the packet ----

  function TxAdd(cfg: Config, q: seq<Timed>, t: Timed): seq<Timed> {
    if |q| < 2 * cfg.maxWindow then q + [t] else q
  }

  function RxAdd(cfg: Config, q: seq<Segment>, s: Segment): seq<Segment> {
    if |q| < 2 * cfg.maxWindow then q + [s] else q
  }

  /** Position of the first queued segment with a given number. */
  function FindSeq(q: seq<Segment>, nr: u16): (r: Option<nat>)
    ensures r.Some? ==> r.value < |q| && q[r.value].seqNr == nr
    ensures r.Some? ==> forall j :: 0 <= j < r.value ==> q[j].seqNr != nr
    ensures r.None? ==> forall j :: 0 <= j < |q| ==> q[j].seqNr != nr
  {
    if q == [] then None
    else if q[0].seqNr == nr then Some(0)
    else
      match FindSeq(q[1..], nr)
      case None => None
      case Some(i) => Some(i + 1)
  }

  // ---- control messages (src/csp_rdp.c:119-176) ----

  /** A control segment of this connection; its tags are read off the history. */
  function Control(c: Conn, syn: bool, ack: bool, rst: bool, ackNr: u16, data: Data): Segment {
    Segment(syn, ack, false, rst, if syn then c.snd.iss else c.snd.nxt, ackNr, data,
            if syn then 0 else |c.snd.accepted| + 1, |c.rcv.delivered|)
  }

  function SendCmp(c: Conn, s: Segment, env: Env): Effect {
    if !env.mem then Effect(c, [])
    else
      var c1 := c.(clocks := Clocks(c.clocks.timestamp, env.now, if s.ack then s.ackNr else c.clocks.rcvLsa));
      if |s.data| + HEADER_SIZE > c.cfg.bufferSize then Effect(c1, [])
      else if !s.syn then Effect(c1, [s])
      else if !env.cloneMem then Effect(c1, [])
      else Effect(c1.(snd := c.snd.(txq := TxAdd(c.cfg, c.snd.txq, Timed(s, env.now)))), [s])
  }

  // ---- acknowledgements (src/csp_rdp.c:293-333) ----

  function Signed32(x: u32): int {
    if x < 0x8000_0000 then x else x - 0x1_0000_0000
  }

  predicate ShouldAck(c: Conn, now: u32) {
    || c.opts.delayedAcks == 0
    || TimeAfter(now, c.clocks.ackTimestamp + c.opts.ackTimeout)
    || SeqAfter(c.rcv.cur, c.clocks.rcvLsa + c.opts.ackDelayCount)
  }

  function CheckAck(c: Conn, env: Env): Effect {
    if c.cfg.rxQueueLen - |c.rcv.rxQueue| <= 2 * Signed32(c.opts.windowSize) then Effect(c, [])
    else if ShouldAck(c, env.now) then SendCmp(c, Control(c, false, true, false, c.rcv.cur, []), env)
    else Effect(c, [])
  }

  predicate ReadyForTx(c: Conn) {
    !SeqAfter(c.snd.nxt, c.snd.una + c.opts.windowSize - 1)
  }

  // ---- delivery to the user (src/csp_rdp.c:200-255) ----

  function DeliverNext(r: Rcv, d: Data): Rcv {
    r.(rxQueue := r.rxQueue + [Packet(d)], delivered := r.delivered + [d], cur := Wrap(r.cur + 1))
  }

  /** csp_rdp_rx_queue_flush: while more than two slots are free, deliver the queued
      successor of cur and start over.  A hit at position i leaves the queue rotated. */
  function Flush(cfg: Config, r: Rcv): Rcv
    decreases |r.rxq|
  {
    if cfg.rxQueueLen - |r.rxQueue| <= 2 then r
    else
      match FindSeq(r.rxq, Wrap(r.cur + 1))
      case None => r
      case Some(i) => Flush(cfg, DeliverNext(r, r.rxq[i].data).(rxq := r.rxq[i + 1..] + r.rxq[..i]))
  }

  // ---- closing (src/csp_rdp.c:890-922, src/csp_conn.c:215-249) ----

  /** Leave the open states, telling the peer if asked to. */
  function ToCloseWait(c: Conn, sendRst: bool, env: Env): Effect {
    if c.life.state == CloseWait then Effect(c, [])
    else
      var c1 := c.(life := c.life.(state := CloseWait), clocks := c.clocks.(timestamp := env.now));
      if sendRst then SendCmp(c1, Control(c1, false, true, true, c1.rcv.cur, []), env) else Effect(c1, [])
  }

  /** csp_rdp_close_internal; the second component is true for CSP_ERR_AGAIN. */
  function RdpClose(c: Conn, who: Closers, sendRst: bool, env: Env): (Effect, bool) {
    if c.life.state == Closed then (Effect(c, []), false)
    else
      var closedBy := c.life.closedBy.Or(who);
      var e := ToCloseWait(c.(life := c.life.(closedBy := closedBy)), sendRst, env);
      if closedBy != EVERYBODY then (e, true)
      else (Effect(e.conn.(life := e.conn.life.(state := Closed, closedBy := NOBODY)), e.out), false)
  }

  /** csp_conn_close: back to the pool unless RDP still waits for somebody. */
  function ConnClose(c: Conn, who: Closers, env: Env): Effect {
    if !c.life.inUse then Effect(c, [])
    else
      var (e, again) := RdpClose(c.(life := c.life.(requested := c.life.requested.Or(who))), who, true, env);
      if again then e
      else Effect(e.conn.(life := e.conn.life.(inUse := false), snd := e.conn.snd.(txq := []),
                          rcv := e.conn.rcv.(rxQueue := [], rxq := [])), e.out)
  }

  /** The discard_close exit: a reader that holds the handle is woken by a NULL packet. */
  function DiscardClose(c: Conn, who: Closers, env: Env): Effect {
    if c.life.hasSocket then ConnClose(c, who.Or(USER), env)
    else
      var e := ConnClose(c, who, env);
      if |e.conn.rcv.rxQueue| < c.cfg.rxQueueLen
      then Effect(e.conn.(rcv := e.conn.rcv.(rxQueue := e.conn.rcv.rxQueue + [WakeUp])), e.out) else e
  }

  // ---- timeouts (src/csp_rdp.c:341-435) ----

  /** One pass over the retransmission queue: acknowledged elements are dropped, expired
      ones are sent again with a fresh acknowledgement, order is kept.  mem says for each
      element whether a buffer for the copy is available. */
  function Retransmit(q: seq<Timed>, c: Conn, now: u32, mem: seq<bool>): (seq<Timed>, seq<Segment>)
    decreases |q|
  {
    if q == [] then ([], [])
    else
      var rest := Retransmit(q[1..], c, now, if mem == [] then [] else mem[1..]);
      if SeqBefore(q[0].seg.seqNr, c.snd.una) then rest
      else if TimeAfter(now, q[0].timestamp + c.opts.packetTimeout) && mem != [] && mem[0] then
        var s := q[0].seg.(ackNr := c.rcv.cur, ackIx := |c.rcv.delivered|);
        ([Timed(s, now)] + rest.0, [s] + rest.1)
      else ([q[0]] + rest.0, rest.1)
  }

  /** The part of csp_rdp_check_timeouts after the two closing timeouts. */
  function Service(c: Conn, env: Env): Effect {
    var (q, out) := Retransmit(c.snd.txq, c, env.now, env.retransmitMem);
    var c1 := c.(snd := c.snd.(txq := q),
                 clocks := if out == [] then c.clocks else c.clocks.(ackTimestamp := env.now));
    var e := if c.life.state == Open && c.opts.delayedAcks != 0 then CheckAck(c1, env) else Effect(c1, []);
    Effect(e.conn.(rcv := Flush(c.cfg, c.rcv)), out + e.out)
  }

  function CheckTimeouts(c: Conn, env: Env): Effect {
    if c.life.hasSocket && TimeAfter(env.now, c.clocks.timestamp + c.opts.connTimeout) then
      ConnClose(c, EVERYBODY, env)
    else if c.life.state == CloseWait && TimeAfter(env.now, c.clocks.timestamp + c.opts.connTimeout) then
      ConnClose(c, PROTOCOL.Or(TIMEOUT), env)
    else Service(c, env)
  }

  // ---- received segments (src/csp_rdp.c:437-751) ----

  function Acknowledged(snd: Snd, s: Segment): Snd {
    snd.(una := Wrap(s.ackNr + 1), unaIx := s.ackIx + 1,
         hiIx := if s.ackIx + 1 > snd.hiIx then s.ackIx + 1 else snd.hiIx)
  }

  function ReceiveRst(c0: Conn, s: Segment, env: Env): Effect {
    var c := if s.ack then c0.(snd := Acknowledged(c0.snd, s)) else c0;
    if c.life.state == Closed then
      if c.life.hasSocket then ConnClose(c, USER, env) else Effect(c, [])
    else if c.life.state == CloseWait then
      DiscardClose(c, if s.ack then PROTOCOL.Or(TIMEOUT) else PROTOCOL, env)
    else if s.seqNr == Wrap(c.rcv.cur + 1) then
      var c1 := c.(life := c.life.(state := CloseWait), clocks := c.clocks.(timestamp := env.now));
      var e := SendCmp(c1, Control(c1, false, true, true, c1.rcv.cur, []), env);
      var f := DiscardClose(e.conn, PROTOCOL.Or(TIMEOUT), env);
      Effect(f.conn, e.out + f.out)
    else Effect(c, [])
  }

  /** The variables a passive open sets up from the peer's SYN. */
  function SynReceived(c: Conn, s: Segment, env: Env): Conn {
    c.(opts := DecodeOptions(s.data),
       life := c.life.(state := SynRcvd),
       clocks := c.clocks.(rcvLsa := s.seqNr),
       snd := c.snd.(iss := env.iss, nxt := Wrap(env.iss + 1), una := env.iss, unaIx := 0, hiIx := 0,
                     started := true),
       rcv := c.rcv.(cur := s.seqNr, irs := s.seqNr, established := true))
  }

  function ReceiveClosed(c: Conn, s: Segment, env: Env): Effect {
    if !s.syn || s.ack || s.eak then
      var e := SendCmp(c, Control(c, false, false, true, c.rcv.cur, []), env);
      var f := DiscardClose(e.conn, PROTOCOL, env);
      Effect(f.conn, e.out + f.out)
    else
      var c1 := SynReceived(c, s, env);
      SendCmp(c1, Control(c1, true, true, false, c1.rcv.irs, []), env)
  }

  /** The variables an active open sets up from the peer's SYN/ACK. */
  function SynAnswered(c: Conn, s: Segment, env: Env): Conn {
    c.(life := c.life.(state := Open),
       clocks := c.clocks.(rcvLsa := Wrap(s.seqNr - 1), ackTimestamp := env.now),
       snd := Acknowledged(c.snd, s),
       rcv := c.rcv.(cur := s.seqNr, irs := s.seqNr, established := true))
  }

  function ReceiveSynSent(c: Conn, s: Segment, env: Env): Effect {
    if s.syn && s.ack then
      var c1 := SynAnswered(c, s, env);
      SendCmp(c1, Control(c1, false, true, false, c1.rcv.cur, []), env)
    else if s.ack then
      SendCmp(c, Control(c, false, false, true, c.rcv.cur, []), env)
    else DiscardClose(c, PROTOCOL, env)
  }

  /** The data part of an accepted segment in OPEN. */
  function ReceiveData(c: Conn, s: Segment, env: Env): Effect {
    var r := c.rcv;
    if s.eak || s.data == [] then Effect(c, [])
    else if s.seqNr != Wrap(r.cur + 1) then
      match FindSeq(r.rxq, s.seqNr)
      case Some(i) => CheckAck(c.(rcv := r.(rxq := r.rxq[i + 1..] + r.rxq[..i + 1])), env)
      case None => Effect(c.(rcv := r.(rxq := RxAdd(c.cfg, r.rxq, s))), [])
    else if |r.rxQueue| >= c.cfg.rxQueueLen then Effect(c, [])
    else
      var e := CheckAck(c.(rcv := DeliverNext(r, s.data)), env);
      Effect(e.conn.(rcv := Flush(c.cfg, e.conn.rcv)), e.out)
  }

  /** SYN_RCVD becomes OPEN and, if it still belongs to a socket, is queued there. */
  function Promote(l: Life, env: Env): Life {
    if l.state != SynRcvd then l
    else if l.hasSocket && env.backlog then l.(state := Open, hasSocket := false, handed := true)
    else l.(state := Open)
  }

  /** A segment that passed every check: its acknowledgement is stored. */
  function Accepted(c: Conn, s: Segment, env: Env): Conn {
    var life := Promote(c.life, env);
    c.(life := life, clocks := if life.hasSocket then c.clocks else c.clocks.(timestamp := env.now),
       snd := Acknowledged(c.snd, s))
  }

  predicate InReceiveWindow(c: Conn, s: Segment) {
    SeqBetween(s.seqNr, c.rcv.cur + 1, c.rcv.cur + c.opts.windowSize * 2)
  }

  predicate AckPlausible(c: Conn, s: Segment) {
    SeqBetween(s.ackNr, c.snd.una - 1 - c.opts.windowSize * 2, c.snd.nxt - 1)
  }

  function ReceiveOpen(c: Conn, s: Segment, env: Env): Effect {
    if s.syn || !s.ack then
      if s.seqNr != c.rcv.irs then DiscardClose(c, PROTOCOL, env) else Effect(c, [])
    else if !InReceiveWindow(c, s) then
      if c.life.state == SynRcvd then SendCmp(c, Control(c, true, true, false, c.rcv.irs, []), env)
      else Effect(c, [])
    else if !AckPlausible(c, s) then Effect(c, [])
    else if c.life.state == SynRcvd && s.ackNr != c.snd.iss then DiscardClose(c, PROTOCOL, env)
    else if c.life.state == SynRcvd && c.life.hasSocket && !env.backlog then
      DiscardClose(c.(life := Promote(c.life, env)), PROTOCOL, env)
    else ReceiveData(Accepted(c, s, env), s, env)
  }

  function ReceiveCloseWait(c: Conn, s: Segment, env: Env): Effect {
    if s.syn || !s.ack || !AckPlausible(c, s) then Effect(c, [])
    else
      var c1 := c.(snd := Acknowledged(c.snd, s));
      SendCmp(c1, Control(c1, false, true, true, c1.rcv.cur, []), env)
  }

  /** csp_rdp_new_packet, followed by the router's csp_close when it asks for one
      (src/csp_route.c:269-272). */
  function NewPacket(c: Conn, s: Segment, env: Env): Effect {
    if s.rst then ReceiveRst(c, s, env)
    else
      match c.life.state
      case Closed => ReceiveClosed(c, s, env)
      case SynSent => ReceiveSynSent(c, s, env)
      case SynRcvd => ReceiveOpen(c, s, env)
      case Open => ReceiveOpen(c, s, env)
      case CloseWait => ReceiveCloseWait(c, s, env)
  }

  // ---- user calls ----

  /** csp_conn_new on the passive side (src/csp_conn.c:191-209, src/csp_route.c:244-254). */
  function Allocate(c: Conn, env: Env): Conn {
    c.(life := c.life.(inUse := true, leased := true, hasSocket := true),
       clocks := c.clocks.(timestamp := env.now), rcv := c.rcv.(rxQueue := []))
  }

  function Connecting(c: Conn, opts: Options, env: Env): Conn {
    c.(opts := opts,
       life := c.life.(inUse := true, leased := true, hasSocket := false, state := SynSent),
       clocks := c.clocks.(timestamp := env.now, ackTimestamp := env.now),
       snd := c.snd.(iss := env.iss, nxt := Wrap(env.iss + 1), una := env.iss, unaIx := 0, hiIx := 0,
                     started := true),
       rcv := c.rcv.(rxQueue := []))
  }

  /** csp_connect up to sending SYN (src/csp_conn.c:307-325, src/csp_rdp.c:753-787). */
  function Connect(c: Conn, opts: Options, env: Env): Effect {
    var c1 := Connecting(c, opts, env);
    var e := SendCmp(c1, Control(c1, true, false, false, 0, EncodeOptions(opts)), env);
    if e.out == [] then ConnectFail(e.conn, env) else e
  }

  /** The error exit of csp_rdp_connect and csp_connect (src/csp_rdp.c:810-813,
      src/csp_conn.c:325-327). */
  function ConnectFail(c: Conn, env: Env): Effect {
    var (e, _) := RdpClose(c.(life := c.life.(requested := c.life.requested.Or(PROTOCOL))), PROTOCOL, false, env);
    var f := ConnClose(e.conn, USER, env);
    Effect(f.conn, e.out + f.out)
  }

  predicate CanSend(c: Conn, data: Data, env: Env) {
    && c.life.inUse && c.life.state == Open && ReadyForTx(c)
    && |data| + HEADER_SIZE <= c.cfg.bufferSize && env.cloneMem
  }

  /** csp_send on an RDP connection (src/csp_rdp.c:816-867, src/csp_io.c:289-311).  A call
      that would wait for the window changes nothing; it is retried when woken. */
  function Send(c: Conn, data: Data, env: Env): Effect {
    if !CanSend(c, data, env) then Effect(c, [])
    else
      var s := Segment(false, true, false, false, c.snd.nxt, c.rcv.cur, data,
                       |c.snd.accepted| + 1, |c.rcv.delivered|);
      Effect(c.(snd := c.snd.(txq := TxAdd(c.cfg, c.snd.txq, Timed(s, env.now)), nxt := Wrap(c.snd.nxt + 1),
                              accepted := c.snd.accepted + [data]),
                clocks := c.clocks.(ackTimestamp := env.now)), [s])
  }

  /** The first item leaves the connection queue. */
  function Unqueued(r: Rcv): Rcv
    requires r.rxQueue != []
  {
    r.(rxQueue := r.rxQueue[1..],
       read := if r.rxQueue[0].Packet? then r.read + [r.rxQueue[0].data] else r.read)
  }

  /** csp_read (src/csp_io.c:43-70) and what it returns; WakeUp stands for NULL. */
  function Read(c: Conn, env: Env): (Effect, Item) {
    if !c.life.inUse || c.rcv.rxQueue == [] then (Effect(c, []), WakeUp)
    else
      var c1 := c.(rcv := Unqueued(c.rcv));
      (if c1.opts.delayedAcks != 0 then CheckAck(c1, env) else Effect(c1, []), c.rcv.rxQueue[0])
  }

  /** csp_close. */
  function UserClose(c: Conn, env: Env): Effect {
    ConnClose(c.(life := c.life.(userClosed := true)), USER, env)
  }
}
