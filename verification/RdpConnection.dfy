/** The RDP connection as the C code runs it: an object whose methods update its fields.
    Each method is proved against the function of module Rdp that the run theorems are
    about: the new fields and the segments sent are exactly what that function says. */
module RdpConnection {
  import opened SeqNumbers
  import opened Bytes
  import opened Rdp
  import opened RdpFrames
  import opened Rotation

  class Connection {
    const cfg: Config
    var opts: Options
    var life: Life
    var clocks: Clocks
    var snd: Snd
    var rcv: Rcv
    var sent: seq<Segment>        // everything handed to csp_send_direct

    ghost function Model(): Conn
      reads this
    {
      Conn(cfg, opts, life, clocks, snd, rcv)
    }

    /** The queues never hold more than their slots. */
    ghost predicate Valid()
      reads this
    {
      |snd.txq| <= 2 * cfg.maxWindow && |rcv.rxq| <= 2 * cfg.maxWindow
    }

    /** The object is what e says, having sent what e says on top of before. */
    ghost predicate Became(e: Effect, before: seq<Segment>)
      reads this
    {
      Model() == e.conn && sent == before + e.out
    }

    constructor (c: Conn)
      ensures Model() == c && sent == []
    {
      cfg, opts, life, clocks, snd, rcv, sent := c.cfg, c.opts, c.life, c.clocks, c.snd, c.rcv, [];
    }

    /** csp_rdp_send_cmp. */
    method SendControl(s: Segment, env: Env)
      requires Valid()
      modifies this
      ensures Valid() && Became(SendCmp(old(Model()), s, env), old(sent))
    {
      if !env.mem {
        return;
      }
      if s.ack {
        clocks := clocks.(rcvLsa := s.ackNr);
      }
      clocks := clocks.(ackTimestamp := env.now);
      if |s.data| + HEADER_SIZE > cfg.bufferSize {
        return;
      }
      if s.syn {
        if !env.cloneMem {
          return;
        }
        if |snd.txq| < 2 * cfg.maxWindow {
          snd := snd.(txq := snd.txq + [Timed(s, env.now)]);
        }
      }
      sent := sent + [s];
    }

    /** csp_rdp_check_ack. */
    method Acknowledge(env: Env)
      requires Valid()
      modifies this
      ensures Valid() && Became(CheckAck(old(Model()), env), old(sent))
      ensures opts == old(opts) && life == old(life) && snd == old(snd) && rcv == old(rcv)
    {
      CheckAckFrame(Model(), env);
      if cfg.rxQueueLen - |rcv.rxQueue| <= 2 * Signed32(opts.windowSize) {
        return;
      }
      if opts.delayedAcks == 0
         || TimeAfter(env.now, clocks.ackTimestamp + opts.ackTimeout)
         || SeqAfter(rcv.cur, clocks.rcvLsa + opts.ackDelayCount) {
        var ack := Segment(false, true, false, false, snd.nxt, rcv.cur, [], |snd.accepted| + 1, |rcv.delivered|);
        SendControl(ack, env);
      }
    }

    /** csp_read: the packet, or WakeUp for NULL. */
    method Fetch(env: Env) returns (item: Item)
      requires Valid()
      modifies this
      ensures Valid() && Became(Read(old(Model()), env).0, old(sent)) && item == Read(old(Model()), env).1
    {
      if !life.inUse || rcv.rxQueue == [] {
        return WakeUp;
      }
      item := rcv.rxQueue[0];
      rcv := rcv.(rxQueue := rcv.rxQueue[1..], read := if item.Packet? then rcv.read + [item.data] else rcv.read);
      if opts.delayedAcks != 0 {
        Acknowledge(env);
      }
    }

    /** One pass of csp_rdp_rx_queue_flush: rotate the reorder queue until the next payload
        comes up, deliver it and report a hit.  The enqueue never fails. */
    method FlushPass() returns (hit: bool)
      requires Valid()
      modifies this`rcv
      ensures Valid()
      ensures var f := FindSeq(old(rcv).rxq, Wrap(old(rcv).cur + 1));
              && (hit <==> cfg.rxQueueLen - |old(rcv).rxQueue| > 2 && f.Some?)
              && rcv == if hit then FlushOne(old(rcv), f.value) else old(rcv)
    {
      hide FindSeq, Wrap, Turned;
      ghost var r0, q := rcv, rcv.rxq;
      Start(q);
      var count := |rcv.rxq|;
      var i := 0;
      while i < count
        invariant 0 <= i <= count == |q|
        invariant rcv == r0.(rxq := Turned(q, i, q[..i]))
        invariant forall j :: 0 <= j < i ==> q[j].seqNr != Wrap(r0.cur + 1)
        invariant i > 0 ==> cfg.rxQueueLen - |r0.rxQueue| > 2
      {
        if cfg.rxQueueLen - |rcv.rxQueue| <= 2 {
          return false;
        }
        Front(q, i, q[..i]);
        var packet := rcv.rxq[0];
        rcv := rcv.(rxq := rcv.rxq[1..]);
        if packet.seqNr == Wrap(rcv.cur + 1) {
          assert |rcv.rxQueue| < cfg.rxQueueLen;
          rcv := DeliverNext(rcv, packet.data);
          FirstHit(q, Wrap(r0.cur + 1), i);
          TurnedIs(q, i + 1, q[..i]);
          return true;
        }
        PutBack(q, i + 1, q[..i], packet);
        Next(q, i);
        rcv := rcv.(rxq := rcv.rxq + [packet]);
        i := i + 1;
      }
      End(q, q);
      NoHit(q, Wrap(r0.cur + 1));
      return false;
    }

    /** csp_rdp_rx_queue_flush: start over after every hit.  It ends because every restart
        has one packet fewer. */
    method RxQueueFlush()
      requires Valid()
      modifies this`rcv
      ensures Valid()
      ensures rcv == Flush(cfg, old(rcv))
    {
      hide Flush, FindSeq, Wrap;
      var hit := true;
      while hit
        invariant Valid()
        invariant Flush(cfg, rcv) == Flush(cfg, old(rcv))
        invariant !hit ==> Flush(cfg, rcv) == rcv
        decreases |rcv.rxq|, hit
      {
        FlushUnfold(cfg, rcv);
        hit := FlushPass();
      }
    }

    /** csp_rdp_seq_in_rx_queue: one rotation at most, stopping after a hit. */
    method SeqInRxQueue(nr: u16) returns (found: bool)
      requires Valid()
      modifies this`rcv
      ensures Valid()
      ensures match FindSeq(old(rcv).rxq, nr)
              case Some(i) => found && rcv == old(rcv).(rxq := old(rcv).rxq[i + 1..] + old(rcv).rxq[..i + 1])
              case None => !found && rcv == old(rcv)
    {
      hide FindSeq, Turned;
      ghost var q := rcv.rxq;
      Start(q);
      var count := |rcv.rxq|;
      var i := 0;
      while i < count
        invariant 0 <= i <= count == |q|
        invariant rcv == old(rcv).(rxq := Turned(q, i, q[..i]))
        invariant forall j :: 0 <= j < i ==> q[j].seqNr != nr
      {
        Front(q, i, q[..i]);
        var packet := rcv.rxq[0];
        PutBack(q, i + 1, q[..i], packet);
        Next(q, i);
        rcv := rcv.(rxq := rcv.rxq[1..] + [packet]);
        if packet.seqNr == nr {
          FirstHit(q, nr, i);
          TurnedIs(q, i + 1, q[..i + 1]);
          return true;
        }
        i := i + 1;
      }
      End(q, q);
      NoHit(q, nr);
      return false;
    }

    /** Leave the open states, telling the peer if asked to. */
    method EnterCloseWait(sendRst: bool, env: Env)
      requires Valid()
      modifies this
      ensures Valid() && Became(ToCloseWait(old(Model()), sendRst, env), old(sent))
    {
      if life.state != CloseWait {
        life := life.(state := CloseWait);
        clocks := clocks.(timestamp := env.now);
        if sendRst {
          var rst := Segment(false, true, false, true, snd.nxt, rcv.cur, [], |snd.accepted| + 1, |rcv.delivered|);
          SendControl(rst, env);
        }
      }
    }

    /** csp_rdp_close_internal; true for CSP_ERR_AGAIN. */
    method CloseInternal(who: Closers, sendRst: bool, env: Env) returns (again: bool)
      requires Valid()
      modifies this
      ensures Valid()
      ensures var r := RdpClose(old(Model()), who, sendRst, env); Became(r.0, old(sent)) && again == r.1
    {
      if life.state == Closed {
        return false;
      }
      life := life.(closedBy := life.closedBy.Or(who));
      ToCloseWaitFrame(Model(), sendRst, env);
      hide ToCloseWait;
      EnterCloseWait(sendRst, env);
      if life.closedBy != EVERYBODY {
        return true;
      }
      life := life.(state := Closed, closedBy := NOBODY);
      return false;
    }

    /** csp_conn_close. */
    method Close(who: Closers, env: Env)
      requires Valid()
      modifies this
      ensures Valid() && Became(ConnClose(old(Model()), who, env), old(sent))
    {
      if !life.inUse {
        return;
      }
      life := life.(requested := life.requested.Or(who));
      ghost var c0 := Model();
      var again := CloseInternal(who, true, env);
      RdpCloseFrame(c0, who, true, env);
      if again {
        return;
      }
      rcv := rcv.(rxQueue := [], rxq := []);
      snd := snd.(txq := []);
      life := life.(inUse := false);
    }

    /** The discard_close exit of csp_rdp_new_packet. */
    method CloseAndWake(who: Closers, env: Env)
      requires Valid()
      modifies this
      ensures Valid() && Became(DiscardClose(old(Model()), who, env), old(sent))
    {
      if life.hasSocket {
        Close(who.Or(USER), env);
      } else {
        Close(who, env);
        if |rcv.rxQueue| < cfg.rxQueueLen {
          rcv := rcv.(rxQueue := rcv.rxQueue + [WakeUp]);
        }
      }
    }

    /** What csp_rdp_check_timeouts does with the element at the front of the queue: drop it
        if acknowledged, else send it again if expired, and put it back. */
    method VisitFront(now: u32, mem: bool)
      requires Valid() && snd.txq != []
      modifies this`snd, this`clocks, this`sent
      ensures Valid()
      ensures var v := Visit(old(snd).txq[0], old(Model()), now, mem);
              && snd == old(snd).(txq := old(snd).txq[1..] + v.0) && sent == old(sent) + v.1
              && clocks == if v.1 == [] then old(clocks) else old(clocks).(ackTimestamp := now)
    {
      var t := snd.txq[0];
      snd := snd.(txq := snd.txq[1..]);
      if SeqBefore(t.seg.seqNr, snd.una) {
        return;
      }
      if TimeAfter(now, t.timestamp + opts.packetTimeout) && mem {
        t := Timed(t.seg.(ackNr := rcv.cur, ackIx := |rcv.delivered|), now);
        clocks := clocks.(ackTimestamp := now);
        sent := sent + [t.seg];
      }
      snd := snd.(txq := snd.txq + [t]);
    }

    /** The message-timeout loop of csp_rdp_check_timeouts: every element is visited once. */
    method RetransmitExpired(now: u32, mem: seq<bool>)
      requires Valid()
      modifies this`snd, this`clocks, this`sent
      ensures Valid()
      ensures var r := Retransmit(old(snd).txq, old(Model()), now, mem);
              && snd == old(snd).(txq := r.0) && sent == old(sent) + r.1
              && clocks == if r.1 == [] then old(clocks) else old(clocks).(ackTimestamp := now)
    {
      ghost var c0, q, all := Model(), snd.txq, Retransmit(snd.txq, Model(), now, mem);
      ghost var kept: seq<Timed>, again: seq<Segment> := [], [];
      hide Retransmit, Visit, Turned, From;
      var count := |snd.txq|;
      var i := 0;
      Start(q);
      assert From(mem, 0) == mem && q[0..] == q by { FromStart(mem); }
      while i < count
        invariant 0 <= i <= count == |q|
        invariant Valid()
        invariant snd == old(snd).(txq := Turned(q, i, kept)) && sent == old(sent) + again
        invariant var r := Retransmit(q[i..], c0, now, From(mem, i)); all.0 == kept + r.0 && all.1 == again + r.1
        invariant clocks == if again == [] then old(clocks) else old(clocks).(ackTimestamp := now)
      {
        RetransmitOne(q, i, c0, now, mem);
        ghost var v := Visit(q[i], c0, now, i < |mem| && mem[i]);
        VisitSame(q[i], c0, Model(), now, i < |mem| && mem[i]);
        VisitFront(now, i < |mem| && mem[i]);
        Front(q, i, kept);
        PutAllBack(q, i + 1, kept, v.0);
        Joins(kept, v.0, Retransmit(q[i + 1..], c0, now, From(mem, i + 1)).0);
        Joins(again, v.1, Retransmit(q[i + 1..], c0, now, From(mem, i + 1)).1);
        kept, again := kept + v.0, again + v.1;
        i := i + 1;
      }
      RetransmitNone(q[count..], c0, now, From(mem, count));
      End(q, kept);
    }

    /** csp_rdp_check_timeouts. */
    method CheckTimers(env: Env)
      requires Valid()
      modifies this
      ensures Valid() && Became(CheckTimeouts(old(Model()), env), old(sent))
    {
      hide ConnClose, Retransmit, CheckAck, Flush, TimeAfter;
      if life.hasSocket && TimeAfter(env.now, clocks.timestamp + opts.connTimeout) {
        Close(EVERYBODY, env);
        return;
      }
      if life.state == CloseWait && TimeAfter(env.now, clocks.timestamp + opts.connTimeout) {
        Close(PROTOCOL.Or(TIMEOUT), env);
        return;
      }
      RetransmitExpired(env.now, env.retransmitMem);
      if life.state == Open && opts.delayedAcks != 0 {
        Acknowledge(env);
      }
      RxQueueFlush();
    }

    /** csp_rdp_new_packet for a segment with RST (src/csp_rdp.c:457-494). */
    method OnReset(s: Segment, env: Env)
      requires Valid()
      modifies this
      ensures Valid() && Became(ReceiveRst(old(Model()), s, env), old(sent))
    {
      hide ConnClose, DiscardClose, SendCmp, Wrap;
      if s.ack {
        snd := Acknowledged(snd, s);
      }
      if life.state == Closed {
        if life.hasSocket {
          Close(USER, env);
        }
        return;
      }
      if life.state == CloseWait {
        CloseAndWake(if s.ack then PROTOCOL.Or(TIMEOUT) else PROTOCOL, env);
        return;
      }
      if s.seqNr == Wrap(rcv.cur + 1) {
        life := life.(state := CloseWait);
        clocks := clocks.(timestamp := env.now);
        var rst := Segment(false, true, false, true, snd.nxt, rcv.cur, [], |snd.accepted| + 1, |rcv.delivered|);
        SendControl(rst, env);
        CloseAndWake(PROTOCOL.Or(TIMEOUT), env);
      }
    }

    /** State CLOSED (src/csp_rdp.c:502-547). */
    method OnClosed(s: Segment, env: Env)
      requires Valid()
      modifies this
      ensures Valid() && Became(ReceiveClosed(old(Model()), s, env), old(sent))
    {
      hide DiscardClose, SendCmp, Wrap, DecodeOptions;
      if !s.syn || s.ack || s.eak {
        var rst := Segment(false, false, false, true, snd.nxt, rcv.cur, [], |snd.accepted| + 1, |rcv.delivered|);
        SendControl(rst, env);
        CloseAndWake(PROTOCOL, env);
        return;
      }
      snd := snd.(iss := env.iss, nxt := Wrap(env.iss + 1), una := env.iss, unaIx := 0, hiIx := 0, started := true);
      rcv := rcv.(cur := s.seqNr, irs := s.seqNr, established := true);
      clocks := clocks.(rcvLsa := s.seqNr);
      opts := DecodeOptions(s.data);
      life := life.(state := SynRcvd);
      var answer := Segment(true, true, false, false, snd.iss, rcv.irs, [], 0, |rcv.delivered|);
      SendControl(answer, env);
    }

    /** State SYN-SENT (src/csp_rdp.c:552-596). */
    method OnSynSent(s: Segment, env: Env)
      requires Valid()
      modifies this
      ensures Valid() && Became(ReceiveSynSent(old(Model()), s, env), old(sent))
    {
      hide DiscardClose, SendCmp, Wrap;
      if s.syn && s.ack {
        rcv := rcv.(cur := s.seqNr, irs := s.seqNr, established := true);
        clocks := clocks.(rcvLsa := Wrap(s.seqNr - 1), ackTimestamp := env.now);
        snd := Acknowledged(snd, s);
        life := life.(state := Open);
        var ack := Segment(false, true, false, false, snd.nxt, rcv.cur, [], |snd.accepted| + 1, |rcv.delivered|);
        SendControl(ack, env);
      } else if s.ack {
        var rst := Segment(false, false, false, true, snd.nxt, rcv.cur, [], |snd.accepted| + 1, |rcv.delivered|);
        SendControl(rst, env);
      } else {
        CloseAndWake(PROTOCOL, env);
      }
    }

    /** The data of a segment accepted in OPEN (src/csp_rdp.c:667-704). */
    method OnData(s: Segment, env: Env)
      requires Valid()
      modifies this
      ensures Valid() && Became(ReceiveData(old(Model()), s, env), old(sent))
    {
      hide CheckAck, Flush, FindSeq, Wrap;
      if s.eak || s.data == [] {
        return;
      }
      if s.seqNr != Wrap(rcv.cur + 1) {
        var found := SeqInRxQueue(s.seqNr);
        if found {
          Acknowledge(env);
        } else if |rcv.rxq| < 2 * cfg.maxWindow {
          rcv := rcv.(rxq := rcv.rxq + [s]);
        }
        return;
      }
      if |rcv.rxQueue| >= cfg.rxQueueLen {
        return;
      }
      rcv := DeliverNext(rcv, s.data);
      Acknowledge(env);
      RxQueueFlush();
    }

    /** States SYN-RCVD and OPEN (src/csp_rdp.c:601-706). */
    method OnOpen(s: Segment, env: Env)
      requires Valid()
      modifies this
      ensures Valid() && Became(ReceiveOpen(old(Model()), s, env), old(sent))
    {
      hide DiscardClose, SendCmp, Wrap, ReceiveData;
      if s.syn || !s.ack {
        if s.seqNr != rcv.irs {
          CloseAndWake(PROTOCOL, env);
        }
        return;
      }
      if !SeqBetween(s.seqNr, rcv.cur + 1, rcv.cur + opts.windowSize * 2) {
        if life.state == SynRcvd {
          var answer := Segment(true, true, false, false, snd.iss, rcv.irs, [], 0, |rcv.delivered|);
          SendControl(answer, env);
        }
        return;
      }
      if !SeqBetween(s.ackNr, snd.una - 1 - opts.windowSize * 2, snd.nxt - 1) {
        return;
      }
      if life.state == SynRcvd {
        if s.ackNr != snd.iss {
          CloseAndWake(PROTOCOL, env);
          return;
        }
        life := life.(state := Open);
        if life.hasSocket {
          if !env.backlog {
            CloseAndWake(PROTOCOL, env);
            return;
          }
          life := life.(hasSocket := false, handed := true);
        }
      }
      if !life.hasSocket {
        clocks := clocks.(timestamp := env.now);
      }
      snd := Acknowledged(snd, s);
      OnData(s, env);
    }

    /** State CLOSE-WAIT (src/csp_rdp.c:708-729). */
    method OnCloseWait(s: Segment, env: Env)
      requires Valid()
      modifies this
      ensures Valid() && Became(ReceiveCloseWait(old(Model()), s, env), old(sent))
    {
      hide SendCmp, Wrap;
      if s.syn || !s.ack {
        return;
      }
      if !SeqBetween(s.ackNr, snd.una - 1 - opts.windowSize * 2, snd.nxt - 1) {
        return;
      }
      snd := Acknowledged(snd, s);
      var rst := Segment(false, true, false, true, snd.nxt, rcv.cur, [], |snd.accepted| + 1, |rcv.delivered|);
      SendControl(rst, env);
    }

    /** csp_rdp_new_packet. */
    method Receive(s: Segment, env: Env)
      requires Valid()
      modifies this
      ensures Valid() && Became(NewPacket(old(Model()), s, env), old(sent))
    {
      hide ReceiveRst, ReceiveClosed, ReceiveSynSent, ReceiveOpen, ReceiveCloseWait;
      if s.rst {
        OnReset(s, env);
      } else if life.state == Closed {
        OnClosed(s, env);
      } else if life.state == SynSent {
        OnSynSent(s, env);
      } else if life.state == CloseWait {
        OnCloseWait(s, env);
      } else {
        OnOpen(s, env);
      }
    }

    /** csp_send: a payload is numbered, queued for retransmission and sent, or refused. */
    method Transmit(data: Data, env: Env) returns (accepted: bool)
      requires Valid()
      modifies this
      ensures Valid() && Became(Send(old(Model()), data, env), old(sent))
      ensures accepted <==> CanSend(old(Model()), data, env)
    {
      if !life.inUse || life.state != Open || SeqAfter(snd.nxt, snd.una + opts.windowSize - 1) {
        return false;
      }
      if |data| + HEADER_SIZE > cfg.bufferSize || !env.cloneMem {
        return false;
      }
      var s := Segment(false, true, false, false, snd.nxt, rcv.cur, data, |snd.accepted| + 1, |rcv.delivered|);
      if |snd.txq| < 2 * cfg.maxWindow {
        snd := snd.(txq := snd.txq + [Timed(s, env.now)]);
      }
      snd := snd.(nxt := Wrap(snd.nxt + 1), accepted := snd.accepted + [data]);
      clocks := clocks.(ackTimestamp := env.now);
      sent := sent + [s];
      return true;
    }
  }

  function From(mem: seq<bool>, i: nat): seq<bool> {
    if i <= |mem| then mem[i..] else []
  }

  lemma FromStart(mem: seq<bool>)
    ensures From(mem, 0) == mem
  {
  }

  lemma RetransmitNone(q: seq<Timed>, c: Conn, now: u32, mem: seq<bool>)
    requires q == []
    ensures Retransmit(q, c, now, mem) == ([], [])
  {
  }

  /** What is put back and what is sent for one element. */
  function Visit(t: Timed, c: Conn, now: u32, mem: bool): (seq<Timed>, seq<Segment>) {
    if SeqBefore(t.seg.seqNr, c.snd.una) then ([], [])
    else if TimeAfter(now, t.timestamp + c.opts.packetTimeout) && mem then
      var s := t.seg.(ackNr := c.rcv.cur, ackIx := |c.rcv.delivered|);
      ([Timed(s, now)], [s])
    else ([t], [])
  }

  lemma VisitSame(t: Timed, c: Conn, d: Conn, now: u32, mem: bool)
    requires c.snd.una == d.snd.una && c.opts == d.opts && c.rcv == d.rcv
    ensures Visit(t, c, now, mem) == Visit(t, d, now, mem)
  {
  }

  /** What the pass does with element i. */
  lemma RetransmitOne(q: seq<Timed>, i: nat, c: Conn, now: u32, mem: seq<bool>)
    requires i < |q|
    ensures var r := Retransmit(q[i..], c, now, From(mem, i));
            var rest := Retransmit(q[i + 1..], c, now, From(mem, i + 1));
            var v := Visit(q[i], c, now, i < |mem| && mem[i]);
            r.0 == v.0 + rest.0 && r.1 == v.1 + rest.1
  {
    FromNext(mem, i);
    assert q[i..][1..] == q[i + 1..] && q[i..][0] == q[i];
    hide SeqBefore, TimeAfter;
  }

  lemma FromNext(mem: seq<bool>, i: nat)
    ensures From(mem, i + 1) == if From(mem, i) == [] then [] else From(mem, i)[1..]
    ensures From(mem, i) != [] <==> i < |mem|
    ensures i < |mem| ==> From(mem, i)[0] == mem[i]
  {
  }

  lemma FirstHit(q: seq<Segment>, nr: u16, i: nat)
    requires i < |q| && q[i].seqNr == nr && forall j :: 0 <= j < i ==> q[j].seqNr != nr
    ensures FindSeq(q, nr) == Some(i)
  {
  }

  lemma NoHit(q: seq<Segment>, nr: u16)
    requires forall j :: 0 <= j < |q| ==> q[j].seqNr != nr
    ensures FindSeq(q, nr) == None
  {
  }
}
