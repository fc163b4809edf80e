/** What each part of the RDP state machine may change: one lemma per function, so that
    proofs about whole runs need not look inside it. */
module RdpFrames {
  import opened SeqNumbers
  import opened Rdp

  predicate OnlyClocks(c: Conn, d: Conn) {
    d == c.(clocks := d.clocks)
  }

  lemma SendCmpFrame(c: Conn, s: Segment, env: Env)
    ensures var e := SendCmp(c, s, env);
            && e.conn == c.(clocks := e.conn.clocks, snd := e.conn.snd)
            && e.conn.snd == c.snd.(txq := e.conn.snd.txq)
            && e.conn.clocks.timestamp == c.clocks.timestamp
            && (e.out == [] || e.out == [s])
            && (e.conn.snd.txq == c.snd.txq
                || (s.syn && e.out == [s] && e.conn.snd.txq == c.snd.txq + [Timed(s, env.now)]))
  {
  }

  lemma CheckAckFrame(c: Conn, env: Env)
    ensures var e := CheckAck(c, env);
            && OnlyClocks(c, e.conn)
            && (e.out == [] || e.out == [Control(c, false, true, false, c.rcv.cur, [])])
  {
    SendCmpFrame(c, Control(c, false, true, false, c.rcv.cur, []), env);
  }

  predicate IsReset(c: Conn, s: Segment) {
    s == Control(c, false, true, true, c.rcv.cur, [])
  }

  lemma ToCloseWaitFrame(c: Conn, sendRst: bool, env: Env)
    ensures var e := ToCloseWait(c, sendRst, env);
            && e.conn == c.(life := c.life.(state := CloseWait), clocks := e.conn.clocks)
            && (e.out == [] || (|e.out| == 1 && IsReset(c, e.out[0]) && c.life.state != CloseWait && sendRst))
  {
    var c1 := c.(life := c.life.(state := CloseWait), clocks := c.clocks.(timestamp := env.now));
    SendCmpFrame(c1, Control(c1, false, true, true, c1.rcv.cur, []), env);
    hide SendCmp;
  }

  lemma RdpCloseFrame(c: Conn, who: Closers, sendRst: bool, env: Env)
    ensures var (e, again) := RdpClose(c, who, sendRst, env);
            && e.conn == c.(life := e.conn.life, clocks := e.conn.clocks)
            && (again <==> c.life.state != Closed && c.life.closedBy.Or(who) != EVERYBODY)
            && e.conn.life == (if c.life.state == Closed then c.life
                               else if again then c.life.(state := CloseWait, closedBy := c.life.closedBy.Or(who))
                               else c.life.(state := Closed, closedBy := NOBODY))
            && (e.out == [] || (|e.out| == 1 && IsReset(c, e.out[0]) && c.life.state != Closed
                                && c.life.state != CloseWait && sendRst))
  {
    hide ToCloseWait, Control, IsReset, Closers.Or;
    if c.life.state != Closed {
      var c1 := c.(life := c.life.(closedBy := c.life.closedBy.Or(who)));
      ToCloseWaitFrame(c1, sendRst, env);
      var e := ToCloseWait(c1, sendRst, env);
      if e.out != [] { ResetSame(c1, c, e.out[0]); }
    }
  }

  lemma ResetSame(c: Conn, d: Conn, s: Segment)
    requires IsReset(c, s) && c.snd == d.snd && c.rcv == d.rcv
    ensures IsReset(d, s)
  {
  }

  /** The life cycle after csp_conn_close(conn, who). */
  function ClosedLife(l: Life, who: Closers): Life {
    if !l.inUse then l
    else
      var r := l.(requested := l.requested.Or(who));
      if l.state == Closed then r.(inUse := false)
      else if l.closedBy.Or(who) == EVERYBODY then r.(inUse := false, state := Closed, closedBy := NOBODY)
      else r.(state := CloseWait, closedBy := l.closedBy.Or(who))
  }

  lemma ConnCloseFrame(c: Conn, who: Closers, env: Env)
    ensures var e := ConnClose(c, who, env);
            && e.conn.cfg == c.cfg && e.conn.opts == c.opts
            && e.conn.life == ClosedLife(c.life, who)
            && (c.life.inUse && !e.conn.life.inUse ==>
                  && e.conn.snd == c.snd.(txq := [])
                  && e.conn.rcv == c.rcv.(rxq := [], rxQueue := []))
            && (!c.life.inUse || e.conn.life.inUse ==> e.conn.snd == c.snd && e.conn.rcv == c.rcv)
            && (e.out == [] || (|e.out| == 1 && IsReset(c, e.out[0]) && c.life.inUse && c.life.state != Closed
                                && c.life.state != CloseWait))
  {
    hide RdpClose, Control, IsReset, Closers.Or;
    if c.life.inUse {
      var c1 := c.(life := c.life.(requested := c.life.requested.Or(who)));
      RdpCloseFrame(c1, who, true, env);
      var (e, again) := RdpClose(c1, who, true, env);
      if e.out != [] { ResetSame(c1, c, e.out[0]); }
    }
  }

  lemma DiscardCloseFrame(c: Conn, who: Closers, env: Env)
    ensures var e := DiscardClose(c, who, env);
            && e.conn.cfg == c.cfg && e.conn.opts == c.opts
            && e.conn.life == ClosedLife(c.life, if c.life.hasSocket then who.Or(USER) else who)
            && (c.life.inUse && !e.conn.life.inUse ==>
                  && e.conn.snd == c.snd.(txq := [])
                  && e.conn.rcv == c.rcv.(rxq := [], rxQueue := e.conn.rcv.rxQueue))
            && (!c.life.inUse || e.conn.life.inUse ==>
                  e.conn.snd == c.snd && e.conn.rcv == c.rcv.(rxQueue := e.conn.rcv.rxQueue))
            && (e.out == [] || (|e.out| == 1 && IsReset(c, e.out[0]) && c.life.inUse && c.life.state != Closed
                                && c.life.state != CloseWait))
  {
    hide ConnClose;
    if c.life.hasSocket {
      ConnCloseFrame(c, who.Or(USER), env);
    } else {
      ConnCloseFrame(c, who, env);
    }
  }

  /** Every queued element after a pass was queued before it, except for its
      acknowledgement and time stamp, and is what was sent when it was sent again. */
  lemma {:induction false} RetransmitFrame(q: seq<Timed>, c: Conn, now: u32, mem: seq<bool>)
    ensures var r := Retransmit(q, c, now, mem);
            && |r.0| <= |q|
            && (forall t :: t in r.0 ==>
                  exists u :: u in q && t.seg == u.seg.(ackNr := t.seg.ackNr, ackIx := t.seg.ackIx))
            && (forall s :: s in r.1 ==>
                  exists u :: u in q && s == u.seg.(ackNr := c.rcv.cur, ackIx := |c.rcv.delivered|))
    decreases |q|
  {
    if q != [] {
      RetransmitFrame(q[1..], c, now, if mem == [] then [] else mem[1..]);
    }
  }

  /** Without buffers for copies nothing is sent again. */
  lemma {:induction false} NoCopies(q: seq<Timed>, c: Conn, now: u32)
    ensures Retransmit(q, c, now, []).1 == []
    decreases |q|
  {
    if q != [] { NoCopies(q[1..], c, now); }
  }

  /** One round of the flush loop: the hit at position i goes to the user. */
  function FlushOne(r: Rcv, i: nat): Rcv
    requires i < |r.rxq|
  {
    DeliverNext(r, r.rxq[i].data).(rxq := r.rxq[i + 1..] + r.rxq[..i])
  }

  /** What Flush does is a number of rounds, each on the then first successor of cur. */
  lemma FlushUnfold(cfg: Config, r: Rcv)
    ensures var f := FindSeq(r.rxq, Wrap(r.cur + 1));
            Flush(cfg, r) == if cfg.rxQueueLen - |r.rxQueue| <= 2 || f.None? then r
                             else Flush(cfg, FlushOne(r, f.value))
  {
    hide FindSeq, Wrap, DeliverNext;
  }

  lemma FlushOneFrame(r: Rcv, i: nat)
    requires i < |r.rxq|
    ensures var d := FlushOne(r, i);
            && |d.rxq| < |r.rxq| && (forall s :: s in d.rxq ==> s in r.rxq)
            && d.delivered == r.delivered + [r.rxq[i].data]
            && d == r.(rxQueue := d.rxQueue, delivered := d.delivered, cur := Wrap(r.cur + 1), rxq := d.rxq)
  {
  }

  lemma {:induction false} FlushFrame(cfg: Config, r: Rcv)
    ensures var d := Flush(cfg, r);
            && d == r.(rxQueue := d.rxQueue, delivered := d.delivered, cur := d.cur, rxq := d.rxq)
            && r.delivered <= d.delivered
            && d.cur == Wrap(r.cur + |d.delivered| - |r.delivered|)
            && (forall s :: s in d.rxq ==> s in r.rxq)
    decreases |r.rxq|
  {
    FlushUnfold(cfg, r);
    hide Flush, FindSeq, FlushOne;
    var f := FindSeq(r.rxq, Wrap(r.cur + 1));
    if cfg.rxQueueLen - |r.rxQueue| > 2 && f.Some? {
      FlushOneFrame(r, f.value);
      FlushFrame(cfg, FlushOne(r, f.value));
      WrapShift(r.cur + 1, |Flush(cfg, r).delivered| - |FlushOne(r, f.value).delivered|);
    }
  }

  /** A queued packet with number nr and payload d. */
  ghost predicate Supplies(q: seq<Segment>, nr: u16, d: Data) {
    exists s :: s in q && s.seqNr == nr && s.data == d
  }

  lemma {:induction false} FlushCounts(cfg: Config, r: Rcv)
    ensures var d := Flush(cfg, r);
            && r.delivered <= d.delivered && |d.rxq| == |r.rxq| - (|d.delivered| - |r.delivered|)
            && d.rxQueue == r.rxQueue + Items(d.delivered[|r.delivered|..])
            && (cfg.rxQueueLen - |d.rxQueue| <= 2 || FindSeq(d.rxq, Wrap(d.cur + 1)).None?)
    decreases |r.rxq|
  {
    FlushUnfold(cfg, r);
    hide Flush, FindSeq, Wrap;
    var f := FindSeq(r.rxq, Wrap(r.cur + 1));
    var d := Flush(cfg, r);
    if cfg.rxQueueLen - |r.rxQueue| > 2 && f.Some? {
      var r1 := FlushOne(r, f.value);
      FlushCounts(cfg, r1);
      assert d.delivered[|r.delivered|..] == [r.rxq[f.value].data] + d.delivered[|r1.delivered|..];
    } else {
      assert d.delivered[|r.delivered|..] == [];
    }
  }

  lemma SuppliesLater(r: Rcv, i: nat, k: nat, d: Data)
    requires i < |r.rxq| && k > |r.delivered|
    requires var r1 := FlushOne(r, i); Supplies(r1.rxq, Wrap(r1.cur + 1 + k - |r1.delivered|), d)
    ensures Supplies(r.rxq, Wrap(r.cur + 1 + k - |r.delivered|), d)
  {
    WrapShift(r.cur + 1, k - |r.delivered|);
    FlushOneFrame(r, i);
    hide Wrap;
  }

  lemma {:induction false} FlushSupplies(cfg: Config, r: Rcv, k: nat)
    requires |r.delivered| <= k < |Flush(cfg, r).delivered|
    ensures Supplies(r.rxq, Wrap(r.cur + 1 + k - |r.delivered|), Flush(cfg, r).delivered[k])
    decreases |r.rxq|
  {
    FlushUnfold(cfg, r);
    hide Flush, FindSeq;
    var f := FindSeq(r.rxq, Wrap(r.cur + 1));
    var d := Flush(cfg, r);
    if cfg.rxQueueLen - |r.rxQueue| > 2 && f.Some? {
      var r1 := FlushOne(r, f.value);
      FlushFrame(cfg, r1);
      if k == |r.delivered| {
        assert r.rxq[f.value] in r.rxq;
      } else {
        hide Wrap, Supplies;
        FlushSupplies(cfg, r1, k);
        SuppliesLater(r, f.value, k, d.delivered[k]);
      }
    }
  }

  /** A flush delivers a run of queued packets numbered cur + 1, cur + 2, ..., each taken out
      of the queue, and it does not stop early: afterwards at most two slots are free or the
      next number is not in the queue. */
  lemma FlushMaximal(cfg: Config, r: Rcv)
    ensures var d := Flush(cfg, r);
            && r.delivered <= d.delivered && |d.rxq| == |r.rxq| - (|d.delivered| - |r.delivered|)
            && d.rxQueue == r.rxQueue + Items(d.delivered[|r.delivered|..])
            && (forall k :: |r.delivered| <= k < |d.delivered| ==>
                  Supplies(r.rxq, Wrap(r.cur + 1 + k - |r.delivered|), d.delivered[k]))
            && (cfg.rxQueueLen - |d.rxQueue| <= 2 || FindSeq(d.rxq, Wrap(d.cur + 1)).None?)
  {
    FlushCounts(cfg, r);
    forall k: nat | |r.delivered| <= k < |Flush(cfg, r).delivered|
      ensures Supplies(r.rxq, Wrap(r.cur + 1 + k - |r.delivered|), Flush(cfg, r).delivered[k])
    {
      FlushSupplies(cfg, r, k);
    }
    hide Flush, FindSeq, Wrap, Supplies;
  }

  function Items(ds: seq<Data>): seq<Item> {
    if ds == [] then [] else [Packet(ds[0])] + Items(ds[1..])
  }

  /** The receiving half after the data part of an accepted segment. */
  function TakeData(cfg: Config, r: Rcv, s: Segment): Rcv {
    if s.eak || s.data == [] then r
    else if s.seqNr != Wrap(r.cur + 1) then
      match FindSeq(r.rxq, s.seqNr)
      case Some(i) => r.(rxq := r.rxq[i + 1..] + r.rxq[..i + 1])
      case None => r.(rxq := RxAdd(cfg, r.rxq, s))
    else if |r.rxQueue| >= cfg.rxQueueLen then r
    else Flush(cfg, DeliverNext(r, s.data))
  }

  /** An acknowledgement sent while the receiving half is r. */
  function AckOf(c: Conn, r: Rcv): Segment {
    Control(c.(rcv := r), false, true, false, r.cur, [])
  }

  lemma ReceiveDataFrame(c: Conn, s: Segment, env: Env)
    ensures var e := ReceiveData(c, s, env);
            && e.conn == c.(clocks := e.conn.clocks, rcv := TakeData(c.cfg, c.rcv, s))
            && (e.out == [] || e.out == [AckOf(c, c.rcv)] || e.out == [AckOf(c, DeliverNext(c.rcv, s.data))])
            && (e.out != [] && e.out != [AckOf(c, c.rcv)] ==>
                  DeliverNext(c.rcv, s.data).delivered <= TakeData(c.cfg, c.rcv, s).delivered)
  {
    hide CheckAck, Flush, FindSeq, DeliverNext, Control;
    var r := c.rcv;
    if !s.eak && s.data != [] {
      if s.seqNr == Wrap(r.cur + 1) {
        CheckAckFrame(c.(rcv := DeliverNext(r, s.data)), env);
        FlushFrame(c.cfg, DeliverNext(r, s.data));
      } else {
        var f := FindSeq(r.rxq, s.seqNr);
        if f.Some? {
          var r1 := r.(rxq := r.rxq[f.value + 1..] + r.rxq[..f.value + 1]);
          CheckAckFrame(c.(rcv := r1), env);
          AckSame(c, r, r1);
        }
      }
    }
  }

  lemma AckSame(c: Conn, r: Rcv, r': Rcv)
    requires r.cur == r'.cur && r.delivered == r'.delivered
    ensures AckOf(c, r) == AckOf(c, r')
  {
  }
}
