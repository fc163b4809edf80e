/** When acknowledgements leave (src/csp_rdp.c:293-325, 418-434, 667-706). */
module RdpAcks {
  import opened SeqNumbers
  import opened Rdp
  import opened RdpFrames
  import opened RdpNet
  import opened RdpLocal

  /** Room on the connection queue for two windows more. */
  predicate Roomy(c: Conn, waiting: nat) {
    c.cfg.rxQueueLen - waiting > 2 * Signed32(c.opts.windowSize)
  }

  /** A bare acknowledgement of everything up to cur. */
  predicate Acknowledges(s: Segment, c: Conn, cur: u16) {
    s.ack && !s.syn && !s.rst && !s.eak && s.data == [] && s.ackNr == cur && s.seqNr == c.snd.nxt
  }

  /** The time and the number of the last acknowledgement are remembered. */
  predicate Marked(d: Conn, cur: u16, now: u32) {
    d.clocks.ackTimestamp == now && d.clocks.rcvLsa == cur
  }

  /** The acknowledgement is due: at once without delay, otherwise after the timeout or when more than
      ackDelayCount payloads have not been acknowledged. */
  predicate Due(c: Conn, cur: u16, now: u32) {
    || c.opts.delayedAcks == 0
    || TimeAfter(now, c.clocks.ackTimestamp + c.opts.ackTimeout)
    || SeqAfter(cur, c.clocks.rcvLsa + c.opts.ackDelayCount)
  }

  /** For k payloads taken since the last acknowledgement, the 16-bit test counts them. */
  lemma DueByCount(lsa: u16, k: nat, limit: nat)
    requires k < 0x8000 && limit < 0x8000
    ensures SeqAfter(Wrap(lsa + k), lsa + limit) <==> k > limit
  {
    WrapShift(lsa + k, -(lsa + limit));
    assert Wrap(lsa + limit - Wrap(lsa + k)) == Wrap(limit - k) by { Opposite(lsa + k, lsa + limit); }
  }

  lemma Opposite(a: int, b: int)
    ensures Wrap(b - Wrap(a)) == Wrap(b - a)
  {
  }

  lemma CheckAckExactly(c: Conn, env: Env)
    requires HEADER_SIZE <= c.cfg.bufferSize
    ensures var e := CheckAck(c, env);
            if Roomy(c, |c.rcv.rxQueue|) && Due(c, c.rcv.cur, env.now) && env.mem
            then |e.out| == 1 && Acknowledges(e.out[0], c, c.rcv.cur) && Marked(e.conn, c.rcv.cur, env.now)
            else e == Effect(c, [])
  {
    hide TimeAfter, SeqBefore, Signed32;
  }

  /** An in-sequence payload that is accepted in OPEN and finds a free slot is acknowledged by its own number,
      exactly when two more windows fit on the queue behind it and the acknowledgement is due. */
  lemma PayloadAnswered(c: Conn, s: Segment, env: Env)
    requires c.life.state == Open && !s.rst && !s.syn && s.ack && !s.eak && s.data != []
    requires InReceiveWindow(c, s) && AckPlausible(c, s) && s.seqNr == Wrap(c.rcv.cur + 1)
    requires |c.rcv.rxQueue| < c.cfg.rxQueueLen && HEADER_SIZE <= c.cfg.bufferSize
    ensures var e := NewPacket(c, s, env);
            if Roomy(c, |c.rcv.rxQueue| + 1) && Due(c, s.seqNr, env.now) && env.mem
            then |e.out| == 1 && Acknowledges(e.out[0], c, s.seqNr) && Marked(e.conn, s.seqNr, env.now)
            else e.out == [] && e.conn.clocks == c.clocks.(timestamp := e.conn.clocks.timestamp)
  {
    hide InReceiveWindow, AckPlausible, CheckAck, Flush, Wrap, TimeAfter, SeqBefore, Signed32, FindSeq;
    var c1 := Accepted(c, s, env).(rcv := DeliverNext(c.rcv, s.data));
    CheckAckExactly(c1, env);
  }

  /** With undelayed acknowledgements every such payload is answered. */
  lemma UndelayedAnswers(c: Conn, s: Segment, env: Env)
    requires c.life.state == Open && !s.rst && !s.syn && s.ack && !s.eak && s.data != []
    requires InReceiveWindow(c, s) && AckPlausible(c, s) && s.seqNr == Wrap(c.rcv.cur + 1)
    requires |c.rcv.rxQueue| < c.cfg.rxQueueLen && Roomy(c, |c.rcv.rxQueue| + 1)
    requires c.opts.delayedAcks == 0 && env.mem && HEADER_SIZE <= c.cfg.bufferSize
    ensures exists a :: NewPacket(c, s, env).out == [a] && Acknowledges(a, c, s.seqNr)
  {
    hide NewPacket, InReceiveWindow, AckPlausible, Wrap, TimeAfter, SeqBefore;
    PayloadAnswered(c, s, env);
    var out := NewPacket(c, s, env).out;
    assert out == [out[0]];
  }

  /** A delayed acknowledgement leaves with the first timeout check at which it is due, and with none before. */
  lemma TickAnswers(c: Conn, env: Env)
    requires Local(c) && c.life.state == Open && !c.life.hasSocket && c.opts.delayedAcks != 0
    requires env.retransmitMem == [] && HEADER_SIZE <= c.cfg.bufferSize
    ensures var e := Apply(c, Tick, env);
            if Roomy(c, |c.rcv.rxQueue|) && Due(c, c.rcv.cur, env.now) && env.mem
            then |e.out| == 1 && Acknowledges(e.out[0], c, c.rcv.cur) && Marked(e.conn, c.rcv.cur, env.now)
            else e.out == [] && e.conn.clocks == c.clocks
  {
    NoCopies(c.snd.txq, c, env.now);
    var q := Retransmit(c.snd.txq, c, env.now, []).0;
    var c1 := c.(snd := c.snd.(txq := q));
    hide Retransmit, CheckAck, Flush, ConnClose, TimeAfter, SeqBefore, Signed32, Local;
    CheckAckExactly(c1, env);
  }

  /** A payload that waits in the reorder queue already is answered like a new one, by what was delivered before it. */
  lemma RepeatAnswered(c: Conn, s: Segment, env: Env)
    requires c.life.state == Open && !s.rst && !s.syn && s.ack && !s.eak && s.data != []
    requires InReceiveWindow(c, s) && AckPlausible(c, s) && s.seqNr != Wrap(c.rcv.cur + 1)
    requires FindSeq(c.rcv.rxq, s.seqNr).Some? && HEADER_SIZE <= c.cfg.bufferSize
    ensures var e := NewPacket(c, s, env);
            if Roomy(c, |c.rcv.rxQueue|) && Due(c, c.rcv.cur, env.now) && env.mem
            then |e.out| == 1 && Acknowledges(e.out[0], c, c.rcv.cur) && Marked(e.conn, c.rcv.cur, env.now)
            else e.out == []
  {
    hide InReceiveWindow, AckPlausible, CheckAck, Flush, Wrap, TimeAfter, SeqBefore, Signed32, FindSeq;
    var r, i := c.rcv, FindSeq(c.rcv.rxq, s.seqNr).value;
    var c1 := Accepted(c, s, env).(rcv := r.(rxq := r.rxq[i + 1..] + r.rxq[..i + 1]));
    CheckAckExactly(c1, env);
  }

  /** Reading makes room, so csp_read too sends a delayed acknowledgement that is due. */
  lemma ReadAnswers(c: Conn, env: Env)
    requires c.life.inUse && c.rcv.rxQueue != [] && c.opts.delayedAcks != 0 && HEADER_SIZE <= c.cfg.bufferSize
    ensures var e := Apply(c, Fetch, env);
            if Roomy(c, |c.rcv.rxQueue| - 1) && Due(c, c.rcv.cur, env.now) && env.mem
            then |e.out| == 1 && Acknowledges(e.out[0], c, c.rcv.cur) && Marked(e.conn, c.rcv.cur, env.now)
            else e.out == []
  {
    hide CheckAck, TimeAfter, SeqBefore, Signed32;
    CheckAckExactly(c.(rcv := Unqueued(c.rcv)), env);
  }
}
