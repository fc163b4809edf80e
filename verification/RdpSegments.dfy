/** What every kind of segment does in every state, in unbounded numbers (src/csp_rdp.c:437-751), and what a
    retransmission pass sends (src/csp_rdp.c:373-417). */
module RdpSegments {
  import opened SeqNumbers
  import opened Rdp
  import opened RdpFrames
  import opened RdpNet
  import opened RdpLocal
  import opened RdpEndToEnd
  import opened RdpWindow

  // ---- accepted or ignored ----

  /** Segment number j is within two windows after what was delivered, and it acknowledges number k: something
      sent, and not older than two windows before the oldest unacknowledged. */
  predicate Acceptable(c: Conn, j: int, k: int) {
    var w, d := c.opts.windowSize, |c.rcv.delivered|;
    d < j <= d + 2 * w && c.snd.unaIx - 1 - 2 * w <= k <= |c.snd.accepted|
  }

  /** Numbers the 16-bit tests can tell apart. */
  predicate Distinguishable(c: Conn, j: int, k: int) {
    && 0 < c.opts.windowSize < 0x4000 && |c.snd.accepted| + 1 <= c.snd.unaIx + 0x7FFF
    && |c.rcv.delivered| - 0x7FFF <= j <= |c.rcv.delivered| + 0xFFFF
    && c.snd.unaIx - 0x4000 <= k < c.snd.unaIx + 0x8000
  }

  lemma BetweenFrom(n: int, lo: int, hi: int)
    requires lo <= hi < lo + 0x1_0000
    requires hi - 0x1_0000 < n < lo + 0x1_0000
    ensures Wrap(hi - lo) >= Wrap(n - lo) <==> lo <= n <= hi
  {
  }

  lemma SeqExactly(c: Conn, s: Segment, j: int)
    requires RcvOk(c.rcv) && c.rcv.established && s.seqNr == Wrap(c.rcv.irs + j)
    requires 0 < c.opts.windowSize < 0x4000 && |c.rcv.delivered| - 0x7FFF <= j <= |c.rcv.delivered| + 0xFFFF
    ensures InReceiveWindow(c, s) <==> |c.rcv.delivered| < j <= |c.rcv.delivered| + 2 * c.opts.windowSize
  {
    var d, w, i := |c.rcv.delivered|, c.opts.windowSize, c.rcv.irs;
    WrapSum(i + j, -1, i + d);
    assert s.seqNr - (c.rcv.cur + 1) == Wrap(i + j) + -1 - Wrap(i + d);
    assert Wrap(s.seqNr - (c.rcv.cur + 1)) == Wrap(j - (d + 1));
    assert c.rcv.cur + w * 2 - (c.rcv.cur + 1) == (d + 2 * w) - (d + 1);
    hide Wrap, RcvOk;
    BetweenFrom(j, d + 1, d + 2 * w);
  }

  lemma AckExactly(c: Conn, s: Segment, k: int)
    requires SndOk(c.snd) && c.snd.started && c.snd.una == Wrap(c.snd.iss + c.snd.unaIx)
    requires s.ackNr == Wrap(c.snd.iss + k) && c.opts.windowSize < 0x4000
    requires c.snd.unaIx - 1 <= |c.snd.accepted| && |c.snd.accepted| + 1 <= c.snd.unaIx + 0x7FFF
    requires c.snd.unaIx - 0x4000 <= k < c.snd.unaIx + 0x8000
    ensures AckPlausible(c, s) <==> c.snd.unaIx - 1 - 2 * c.opts.windowSize <= k <= |c.snd.accepted|
  {
    var u, a, w, i := c.snd.unaIx, |c.snd.accepted|, c.opts.windowSize, c.snd.iss;
    WrapSum(i + k, 1 + w * 2, i + u);
    WrapSum(i + a + 1, w * 2, i + u);
    var lo := c.snd.una - 1 - w * 2;
    assert s.ackNr - lo == Wrap(i + k) + (1 + w * 2) - Wrap(i + u);
    assert c.snd.nxt - 1 - lo == Wrap(i + a + 1) + w * 2 - Wrap(i + u);
    hide Wrap, SndOk;
    BetweenFrom(k, u - 1 - 2 * w, a);
  }

  /** A segment with an acknowledgement, in OPEN: if it is acceptable its acknowledgement is stored, its data taken and
      the connection known to be alive; otherwise it changes nothing and is not answered. */
  lemma OpenExactly(c: Conn, s: Segment, j: int, k: int, env: Env)
    requires Local(c) && c.life.state == Open && !s.rst && !s.syn && s.ack
    requires c.snd.una == Wrap(c.snd.iss + c.snd.unaIx) && c.snd.unaIx - 1 <= |c.snd.accepted|
    requires s.seqNr == Wrap(c.rcv.irs + j) && s.ackNr == Wrap(c.snd.iss + k) && Distinguishable(c, j, k)
    ensures var e := NewPacket(c, s, env);
            if Acceptable(c, j, k) then
              && e.conn.snd == Acknowledged(c.snd, s) && e.conn.rcv == TakeData(c.cfg, c.rcv, s)
              && e.conn.life == c.life && (!c.life.hasSocket ==> e.conn.clocks.timestamp == env.now)
            else e == Effect(c, [])
  {
    assert c.snd.started && c.rcv.established;
    SeqExactly(c, s, j);
    AckExactly(c, s, k);
    hide InReceiveWindow, AckPlausible, ReceiveData, TakeData, Local, Wrap;
    ReceiveDataFrame(Accepted(c, s, env), s, env);
    DataStamp(Accepted(c, s, env), s, env);
  }

  lemma DataStamp(c: Conn, s: Segment, env: Env)
    ensures ReceiveData(c, s, env).conn.clocks.timestamp == c.clocks.timestamp
  {
    hide Flush, FindSeq, Wrap, ShouldAck, Signed32, Control;
  }

  // ---- what ends an open connection ----

  lemma DiscardWaits(c: Conn, env: Env)
    requires Local(c) && c.life.state == Open && !c.life.hasSocket
    ensures var d := DiscardClose(c, PROTOCOL, env).conn;
            && d.life.state == CloseWait && d.life.inUse && d.life.closedBy == PROTOCOL
            && d.clocks.timestamp == env.now
            && d.rcv.rxQueue == c.rcv.rxQueue + (if |c.rcv.rxQueue| < c.cfg.rxQueueLen then [WakeUp] else [])
  {
    assert c.life.inUse && c.life.closedBy == NOBODY;
    hide Local, SndOk, RcvOk;
  }

  /** Two things end an open connection: a reset in sequence, and a segment of another incarnation, that is a SYN or
      one without acknowledgement whose number is not the one the connection started with. */
  lemma StaysOpenExactly(c: Conn, s: Segment, env: Env)
    requires Local(c) && c.life.state == Open && !c.life.hasSocket
    ensures var d := NewPacket(c, s, env).conn;
            && (d.life.state == Open <==> if s.rst then s.seqNr != Wrap(c.rcv.cur + 1)
                                          else (s.ack && !s.syn) || s.seqNr == c.rcv.irs)
            && (d.life.state != Open ==> d.life.state == CloseWait && d.clocks.timestamp == env.now)
            && (!s.rst && (s.syn || !s.ack) && s.seqNr == c.rcv.irs ==> NewPacket(c, s, env) == Effect(c, []))
            && (s.rst && s.seqNr != Wrap(c.rcv.cur + 1) ==>
                  NewPacket(c, s, env) == Effect(if s.ack then c.(snd := Acknowledged(c.snd, s)) else c, []))
  {
    if s.rst {
      if s.seqNr == Wrap(c.rcv.cur + 1) { ResetCloses(c, s, env); }
    } else if s.syn || !s.ack {
      DiscardWaits(c, env);
      hide DiscardClose, Wrap, Local;
    } else {
      hide InReceiveWindow, AckPlausible, ReceiveData, Wrap, Local, TakeData;
      ReceiveDataFrame(Accepted(c, s, env), s, env);
    }
  }

  lemma DiscardInWait(c: Conn, env: Env)
    requires c.life.state == CloseWait && c.life.inUse && c.life.closedBy == NOBODY && !c.life.hasSocket
    ensures var d := DiscardClose(c, PROTOCOL.Or(TIMEOUT), env).conn;
            d.life.state == CloseWait && d.clocks == c.clocks
  {
  }

  lemma ResetCloses(c: Conn, s: Segment, env: Env)
    requires Local(c) && c.life.state == Open && !c.life.hasSocket && s.rst && s.seqNr == Wrap(c.rcv.cur + 1)
    ensures var d := NewPacket(c, s, env).conn; d.life.state == CloseWait && d.clocks.timestamp == env.now
  {
    assert c.life.inUse && c.life.closedBy == NOBODY;
    hide Local, Wrap, SendCmp, DiscardClose, Control;
    var c0 := if s.ack then c.(snd := Acknowledged(c.snd, s)) else c;
    var c1 := c0.(life := c0.life.(state := CloseWait), clocks := c0.clocks.(timestamp := env.now));
    var rst := Control(c1, false, true, true, c1.rcv.cur, []);
    SendCmpFrame(c1, rst, env);
    DiscardInWait(SendCmp(c1, rst, env).conn, env);
  }

  /** On a link between the two ends of one connection nothing but a reset ends it: in every run in which nothing
      outlives its number, no other segment in flight closes an open connection. */
  lemma OnlyResetsClose(n: Net, evs: seq<Event>, s: Segment, env: Env)
    requires Init(n) && (forall i :: 0 <= i < |evs| ==> Young(Run(n, evs[..i]))) && !s.rst
    ensures var m := Run(n, evs);
            && (s in m.toServer && m.server.life.state == Open && !m.server.life.hasSocket ==>
                  NewPacket(m.server, s, env).conn.life.state == Open)
            && (s in m.toClient && m.client.life.state == Open && !m.client.life.hasSocket ==>
                  NewPacket(m.client, s, env).conn.life.state == Open)
  {
    RunWindow(n, evs);
    var m := Run(n, evs);
    hide Run, NewPacket, SendWindow, Young;
    if s in m.toServer && m.server.life.state == Open && !m.server.life.hasSocket {
      SynIsOld(m.client, m.server, m.toServer, s);
      StaysOpenExactly(m.server, s, env);
    }
    if s in m.toClient && m.client.life.state == Open && !m.client.life.hasSocket {
      SynIsOld(m.server, m.client, m.toClient, s);
      StaysOpenExactly(m.client, s, env);
    }
  }

  lemma SynIsOld(x: Conn, y: Conn, ch: set<Segment>, s: Segment)
    requires Link(x, y, ch) && Back(x, ch) && Local(y) && y.life.state == Open && s in ch && !s.rst
    ensures (s.ack && !s.syn) || s.seqNr == y.rcv.irs
  {
    assert s.syn ==> s.seqNr == Wrap(x.snd.iss);
    assert y.rcv.established && y.rcv.irs == x.snd.iss;
    assert Announces(s, x.opts);
  }

  // ---- opening ----

  /** Only a SYN without other flags opens a listening connection, with the peer's number and options; it is
      answered by a SYN that acknowledges it. A reset is ignored and anything else refused with a reset, and the
      connection goes back to the pool. */
  lemma ListensExactly(c: Conn, s: Segment, env: Env)
    requires Local(c) && c.life.inUse && c.life.state == Closed && c.life.hasSocket
    requires env.cloneMem && HEADER_SIZE <= c.cfg.bufferSize
    ensures var e := NewPacket(c, s, env);
            if s.syn && !s.ack && !s.eak && !s.rst then
              && e.conn.life.state == SynRcvd && e.conn.opts == DecodeOptions(s.data)
              && e.conn.rcv.irs == s.seqNr && e.conn.rcv.cur == s.seqNr && e.conn.clocks.rcvLsa == s.seqNr
              && (if env.mem then
                    && |e.out| == 1 && e.out[0].syn && e.out[0].ack && !e.out[0].rst
                    && e.out[0].seqNr == env.iss && e.out[0].ackNr == s.seqNr
                  else e.out == [])
            else
              && !e.conn.life.inUse
              && (if env.mem && !s.rst then |e.out| == 1 && e.out[0].rst && !e.out[0].syn else e.out == [])
  {
    hide DecodeOptions, Wrap, TxAdd;
  }

  /** The handshake is completed by a segment that passes both window tests and acknowledges the SYN, if the socket
      has room for the connection; a segment outside the window is answered by another SYN with ACK, one that
      acknowledges something else or finds the socket full ends the attempt. */
  lemma AnswersExactly(c: Conn, s: Segment, env: Env)
    requires Local(c) && c.life.state == SynRcvd && c.life.hasSocket && !s.rst && !s.syn && s.ack
    requires env.mem && env.cloneMem && HEADER_SIZE <= c.cfg.bufferSize
    ensures var e := NewPacket(c, s, env);
            if !InReceiveWindow(c, s) then
              && e.conn.life == c.life && |e.out| == 1 && e.out[0].syn && e.out[0].ack && e.out[0].ackNr == c.rcv.irs
            else if !AckPlausible(c, s) then e == Effect(c, [])
            else if s.ackNr == c.snd.iss && env.backlog then
              && e.conn.life == c.life.(state := Open, hasSocket := false, handed := true)
              && e.conn.snd == Acknowledged(c.snd, s) && e.conn.clocks.timestamp == env.now
            else e.conn.life.state == CloseWait && e.conn.life.closedBy == PROTOCOL.Or(USER)
  {
    assert c.life.inUse && c.life.closedBy == NOBODY;
    hide InReceiveWindow, AckPlausible, ReceiveData, DiscardClose, TakeData, Wrap, Local, TxAdd;
    ReceiveDataFrame(Accepted(c, s, env), s, env);
    DataStamp(Accepted(c, s, env), s, env);
    UnseenEnds(c, env);
    if !env.backlog { UnseenEnds(c.(life := Promote(c.life, env)), env); }
  }

  /** A connection that no user has seen is closed on behalf of the user too, and waits for its timeout only. */
  lemma UnseenEnds(c: Conn, env: Env)
    requires c.life.inUse && c.life.hasSocket && c.life.closedBy == NOBODY && c.life.state != Closed
    ensures var d := DiscardClose(c, PROTOCOL, env).conn;
            d.life.state == CloseWait && d.life.closedBy == PROTOCOL.Or(USER)
  {
    DiscardCloseFrame(c, PROTOCOL, env);
    hide DiscardClose, IsReset;
  }

  /** A calling connection: SYN with ACK opens it and is acknowledged; an acknowledgement alone, left over from an
      earlier incarnation, is answered by a reset; anything else ends the attempt. */
  lemma CallsExactly(c: Conn, s: Segment, env: Env)
    requires Local(c) && c.life.state == SynSent && !s.rst && env.mem && HEADER_SIZE <= c.cfg.bufferSize
    ensures var e := NewPacket(c, s, env);
            if s.syn && s.ack then
              && e.conn.life.state == Open && e.conn.rcv.irs == s.seqNr && e.conn.rcv.cur == s.seqNr
              && e.conn.snd == Acknowledged(c.snd, s) && e.conn.clocks.rcvLsa == s.seqNr
              && |e.out| == 1 && e.out[0].ack && !e.out[0].syn && !e.out[0].rst && e.out[0].ackNr == s.seqNr
            else if s.ack then
              && e.conn == c.(clocks := e.conn.clocks) && |e.out| == 1 && e.out[0].rst && !e.out[0].syn
            else e.conn.life.state == CloseWait && e.conn.life.closedBy == PROTOCOL
  {
    assert c.life.inUse && c.life.closedBy == NOBODY && !c.life.hasSocket;
    hide Wrap, Local;
  }

  /** Without memory for the acknowledgement the connection opens all the same, and what it has not acknowledged counts
      as one. */
  lemma CallsUnanswered(c: Conn, s: Segment, env: Env)
    requires c.life.state == SynSent && s.syn && s.ack && !s.rst && !env.mem
    ensures var e := NewPacket(c, s, env);
            && e.out == [] && e.conn.life.state == Open && e.conn.rcv.cur == s.seqNr
            && e.conn.clocks.rcvLsa == Wrap(s.seqNr - 1) && e.conn.clocks.ackTimestamp == env.now
  {
    hide Wrap;
  }

  /** A call that cannot send its SYN is over: the protocol and the user have closed it, and it waits for the
      timeout. */
  lemma DialExactly(c: Conn, opts: Options, env: Env)
    requires Local(c) && !c.life.leased && !c.life.server && c.life.requested == NOBODY
    ensures var e := Apply(c, Dial(opts), env);
            if env.mem && env.cloneMem && NR_OPTIONS + HEADER_SIZE <= c.cfg.bufferSize then
              && e.conn.life.state == SynSent && |e.out| == 1 && e.out[0].syn && !e.out[0].ack
              && e.out[0].seqNr == env.iss && DecodeOptions(e.out[0].data) == opts
              && e.conn.clocks.timestamp == env.now
            else e.out == [] && e.conn.life.state == CloseWait && e.conn.life.requested == PROTOCOL.Or(USER)
  {
    OptionsRoundTrip(opts);
    hide DecodeOptions, EncodeOptions, Wrap, TxAdd;
    var c1 := Connecting(c, opts, env);
    var syn := Control(c1, true, false, false, 0, EncodeOptions(opts));
    var e := SendCmp(c1, syn, env);
    assert c1.life.closedBy == NOBODY;
    if e.out == [] { FailWaits(e.conn, env); }
  }

  lemma FailWaits(c: Conn, env: Env)
    requires c.life.inUse && c.life.state == SynSent && c.life.closedBy == NOBODY && c.life.requested == NOBODY
    ensures var e := ConnectFail(c, env);
            e.out == [] && e.conn.life.state == CloseWait && e.conn.life.requested == PROTOCOL.Or(USER)
  {
  }

  // ---- sending ----

  /** csp_send takes a payload exactly when the connection is open, fewer than a window of payloads are ahead of the
      oldest unacknowledged one, the segment fits a packet and a copy can be kept. It leaves at once under the next
      number with the present acknowledgement, and is kept for retransmission; otherwise nothing happens. */
  lemma SendExactly(c: Conn, data: Data, env: Env)
    requires Local(c) && c.life.handed && c.snd.una == Wrap(c.snd.iss + c.snd.unaIx)
    requires c.snd.unaIx - 1 <= |c.snd.accepted| <= c.snd.unaIx + 0x7FFE && c.opts.windowSize <= 0x7FFF
    ensures var e := Apply(c, Write(data), env);
            if c.life.state == Open && |c.snd.accepted| + 1 < c.snd.unaIx + c.opts.windowSize
               && |data| + HEADER_SIZE <= c.cfg.bufferSize && env.cloneMem then
              && e.conn.snd.accepted == c.snd.accepted + [data] && e.conn.clocks.ackTimestamp == env.now
              && |e.out| == 1 && e.out[0].data == data && e.out[0].seqNr == c.snd.nxt
              && e.out[0].ack && e.out[0].ackNr == c.rcv.cur && !e.out[0].syn && !e.out[0].rst
              && (|c.snd.txq| < 2 * c.cfg.maxWindow ==> e.conn.snd.txq == c.snd.txq + [Timed(e.out[0], env.now)])
            else e == Effect(c, [])
  {
    assert c.life.inUse || c.life.state == Closed;
    if c.life.state == Open { ReadyExactly(c); }
    hide ReadyForTx, Wrap, Local;
  }

  lemma ReadyExactly(c: Conn)
    requires SndOk(c.snd) && c.snd.started && c.snd.una == Wrap(c.snd.iss + c.snd.unaIx)
    requires c.snd.unaIx - 1 <= |c.snd.accepted| <= c.snd.unaIx + 0x7FFE && c.opts.windowSize <= 0x7FFF
    ensures ReadyForTx(c) <==> |c.snd.accepted| + 1 < c.snd.unaIx + c.opts.windowSize
  {
    var u, a, w, i := c.snd.unaIx, |c.snd.accepted|, c.opts.windowSize, c.snd.iss;
    WrapSum(i + u, w - 1, i + a + 1);
    assert c.snd.una + w - 1 - c.snd.nxt == Wrap(i + u) + (w - 1) - Wrap(i + a + 1);
    assert Wrap(c.snd.una + w - 1 - c.snd.nxt) == Wrap(u + w - 1 - (a + 1));
  }

  /** A payload ahead of its turn is kept, once, while there is room; so when the gap is filled it follows at once
      (FlushMaximal). */
  lemma AheadIsKept(c: Conn, s: Segment, env: Env)
    requires c.life.state == Open && !s.rst && !s.syn && s.ack && !s.eak && s.data != []
    requires InReceiveWindow(c, s) && AckPlausible(c, s) && s.seqNr != Wrap(c.rcv.cur + 1)
    ensures var d := NewPacket(c, s, env).conn.rcv;
            && d == c.rcv.(rxq := d.rxq) && multiset(d.rxq) ==
                 if FindSeq(c.rcv.rxq, s.seqNr).Some? || |c.rcv.rxq| >= 2 * c.cfg.maxWindow then multiset(c.rcv.rxq)
                 else multiset(c.rcv.rxq) + multiset{s}
  {
    hide InReceiveWindow, AckPlausible, FindSeq, Wrap, ReceiveData, Flush;
    ReceiveDataFrame(Accepted(c, s, env), s, env);
    var q := c.rcv.rxq;
    var f := FindSeq(q, s.seqNr);
    if f.Some? { assert q == q[..f.value + 1] + q[f.value + 1..]; }
  }

  // ---- closing ----

  /** While it waits to be closed a connection answers every acceptable segment with another reset, so that a peer that
      missed the first one hears it again. */
  lemma CloseWaitExactly(c: Conn, s: Segment, env: Env)
    requires c.life.state == CloseWait && !s.rst && env.mem && HEADER_SIZE <= c.cfg.bufferSize
    ensures var e := NewPacket(c, s, env);
            if s.ack && !s.syn && AckPlausible(c, s) then
              && e.conn == c.(snd := Acknowledged(c.snd, s), clocks := e.conn.clocks)
              && e.conn.clocks.timestamp == c.clocks.timestamp
              && |e.out| == 1 && e.out[0].rst && e.out[0].ack
              && e.out[0].seqNr == c.snd.nxt && e.out[0].ackNr == c.rcv.cur
            else e == Effect(c, [])
  {
    hide AckPlausible, Wrap;
  }

  /** The peer's own reset in CLOSE_WAIT stands for the protocol and, with an acknowledgement, for the timeout too: a
      connection that its user has closed is then back in the pool at once. */
  lemma ResetInWait(c: Conn, s: Segment, env: Env)
    requires Local(c) && c.life.state == CloseWait && !c.life.hasSocket && s.rst
    ensures var d := NewPacket(c, s, env).conn.life;
            if s.ack && c.life.closedBy.user then !d.inUse
            else d.closedBy == c.life.closedBy.Or(if s.ack then PROTOCOL.Or(TIMEOUT) else PROTOCOL) || !d.inUse
  {
    assert c.life.inUse;
    var c0 := if s.ack then c.(snd := Acknowledged(c.snd, s)) else c;
    DiscardCloseFrame(c0, if s.ack then PROTOCOL.Or(TIMEOUT) else PROTOCOL, env);
    hide DiscardClose, IsReset, Local, Wrap;
  }

  // ---- retransmission ----

  predicate Fires(t: Timed, c: Conn, now: u32) {
    TimeAfter(now, t.timestamp + c.opts.packetTimeout)
  }

  function Refreshed(t: Timed, c: Conn, now: u32): Timed {
    Timed(t.seg.(ackNr := c.rcv.cur, ackIx := |c.rcv.delivered|), now)
  }

  predicate Unacknowledged(t: Timed, c: Conn) {
    !SeqBefore(t.seg.seqNr, c.snd.una)
  }

  /** A pass keeps an unacknowledged element as it is, or sends it again with the present acknowledgement and a new
      time if it has expired. */
  lemma {:induction false} KeptFrom(q: seq<Timed>, c: Conn, now: u32, mem: seq<bool>, t: Timed) returns (u: Timed)
    requires t in Retransmit(q, c, now, mem).0
    ensures u in q && Unacknowledged(u, c) && (t == u || (Fires(u, c, now) && t == Refreshed(u, c, now)))
    decreases |q|
  {
    hide TimeAfter, SeqBefore;
    var m := if mem == [] then [] else mem[1..];
    if t in Retransmit(q[1..], c, now, m).0 {
      u := KeptFrom(q[1..], c, now, m, t);
    } else {
      u := q[0];
    }
  }

  /** It sends nothing else. */
  lemma {:induction false} SentFrom(q: seq<Timed>, c: Conn, now: u32, mem: seq<bool>, s: Segment) returns (u: Timed)
    requires s in Retransmit(q, c, now, mem).1
    ensures u in q && Unacknowledged(u, c) && Fires(u, c, now) && s == Refreshed(u, c, now).seg
    decreases |q|
  {
    hide TimeAfter, SeqBefore;
    var m := if mem == [] then [] else mem[1..];
    if s in Retransmit(q[1..], c, now, m).1 {
      u := SentFrom(q[1..], c, now, m, s);
    } else {
      u := q[0];
    }
  }

  predicate Plenty(mem: seq<bool>, n: nat) {
    |mem| >= n && forall i :: 0 <= i < n ==> mem[i]
  }

  /** With buffers for all of them it sends every one. */
  lemma {:induction false} RetransmitsAll(q: seq<Timed>, c: Conn, now: u32, mem: seq<bool>, u: Timed)
    requires Plenty(mem, |q|) && u in q && Unacknowledged(u, c)
    ensures var r := Retransmit(q, c, now, mem);
            if Fires(u, c, now) then Refreshed(u, c, now) in r.0 && Refreshed(u, c, now).seg in r.1 else u in r.0
    decreases |q|
  {
    hide TimeAfter, SeqBefore;
    if u != q[0] {
      RetransmitsAll(q[1..], c, now, mem[1..], u);
    }
  }

  /** What has just been sent again does not fire before the packet timeout has passed. */
  lemma Rearmed(t: Timed, c: Conn, now: u32, later: nat)
    requires later <= c.opts.packetTimeout < 0x8000_0000
    ensures !Fires(Refreshed(t, c, now), c, (now + later) % 0x1_0000_0000)
  {
  }
}
