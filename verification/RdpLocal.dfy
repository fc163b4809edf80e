/** What one RDP endpoint keeps on its own, whatever segments arrive. */
module RdpLocal {
  import opened SeqNumbers
  import opened Rdp
  import opened RdpFrames
  import opened RdpNet

  /** s was sent with number iss + seqIx and, if it carries data, carries payload seqIx. */
  predicate Genuine(s: Segment, iss: u16, acc: seq<Data>) {
    && 0 <= s.seqIx <= |acc| + 1 && s.seqNr == Wrap(iss + s.seqIx)
    && (s.syn <==> s.seqIx == 0)
    && (!s.syn && s.data != [] ==> 1 <= s.seqIx <= |acc| && acc[s.seqIx - 1] == s.data)
  }

  predicate Synchronizing(st: State) {
    st == SynSent || st == SynRcvd || st == Open
  }

  predicate LifeOk(l: Life, started: bool, established: bool) {
    && (l.inUse ==> l.leased)
    && (!l.inUse ==> l.state == Closed)
    && (l.inUse && l.state != Closed ==> started)
    && (l.inUse && l.state == Closed ==> !started && l.server)
    && (!l.leased ==> !started)
    && (!started ==> !established)
    && (l.state == SynSent ==> !established && !l.server)
    && (l.state == SynRcvd ==> l.server)
    && (l.state == SynRcvd || l.state == Open ==> established)
    && (l.server && started ==> established)
    // closing
    && (l.state == Closed ==> l.closedBy == NOBODY)
    && l.closedBy.Within(l.requested)
    && (l.state == CloseWait ==> l.closedBy == l.requested && l.closedBy != EVERYBODY)
    && (Synchronizing(l.state) || !l.leased || (l.inUse && l.state == Closed) ==> l.requested == NOBODY)
    && (l.handed ==> started && established)
    && ((l.handed || !l.server) && l.inUse ==> !l.hasSocket)
    && (l.handed && l.requested.user ==> l.userClosed)
    && (l.handed && !l.inUse ==> l.requested == EVERYBODY)
  }

  /** A queued segment is a SYN or carries the payload of its number. */
  predicate Resendable(s: Segment, iss: u16, acc: seq<Data>) {
    && !s.rst && Genuine(s, iss, acc)
    && (s.syn || (1 <= s.seqIx <= |acc| && acc[s.seqIx - 1] == s.data))
  }

  predicate SndOk(snd: Snd) {
    && (!snd.started ==> snd.accepted == [] && snd.txq == [])
    && (snd.started ==> snd.nxt == Wrap(snd.iss + |snd.accepted| + 1))
    && (forall t :: t in snd.txq ==> Resendable(t.seg, snd.iss, snd.accepted))
  }

  predicate RcvOk(rcv: Rcv) {
    && (!rcv.established ==> rcv.delivered == [] && rcv.rxq == [])
    && (rcv.established ==> rcv.cur == Wrap(rcv.irs + |rcv.delivered|))
  }

  predicate Local(c: Conn) {
    LifeOk(c.life, c.snd.started, c.rcv.established) && SndOk(c.snd) && RcvOk(c.rcv)
  }

  predicate Sends(snd: Snd, out: seq<Segment>) {
    forall s :: s in out ==> s.rst || (snd.started && Genuine(s, snd.iss, snd.accepted))
  }

  predicate Grows(c: Conn, d: Conn) {
    && (c.snd.started ==> d.snd.started && d.snd.iss == c.snd.iss)
    && c.snd.accepted <= d.snd.accepted && c.life.server == d.life.server
    && (c.life.leased ==> d.life.leased)
    && (c.rcv.established ==> d.rcv.established && d.rcv.irs == c.rcv.irs)
  }

  predicate LocalStep(c: Conn, e: Effect) {
    Local(e.conn) && Grows(c, e.conn) && Sends(e.conn.snd, e.out)
  }

  // ---- one lemma per entry point ----

  lemma ControlGenuine(c: Conn, syn: bool, ack: bool, rst: bool, ackNr: u16)
    requires SndOk(c.snd) && c.snd.started
    ensures Genuine(Control(c, syn, ack, rst, ackNr, []), c.snd.iss, c.snd.accepted)
  {
  }

  /** Only user space may close a handed-over connection on its own behalf. */
  predicate Entitled(l: Life, who: Closers) {
    who.user && l.handed && !l.hasSocket ==> l.userClosed
  }

  lemma ClosedLifeOk(l: Life, who: Closers, started: bool, established: bool)
    requires LifeOk(l, started, established) && Entitled(l, who)
    ensures LifeOk(ClosedLife(l, who), started, established)
    ensures ClosedLife(l, who).server == l.server && ClosedLife(l, who).leased == l.leased
  {
  }

  lemma EmptiedOk(snd: Snd, rcv: Rcv, rxQueue: seq<Item>)
    requires SndOk(snd) && RcvOk(rcv)
    ensures SndOk(snd.(txq := []))
    ensures RcvOk(rcv.(rxq := [], rxQueue := rxQueue)) && RcvOk(rcv.(rxQueue := rxQueue))
  {
  }

  lemma ConnCloseLocal(c: Conn, who: Closers, env: Env)
    requires Local(c) && Entitled(c.life, who)
    ensures LocalStep(c, ConnClose(c, who, env))
  {
    ConnCloseFrame(c, who, env);
    ClosedLifeOk(c.life, who, c.snd.started, c.rcv.established);
    EmptiedOk(c.snd, c.rcv, []);
    hide ConnClose, ClosedLife, LifeOk, SndOk, RcvOk;
  }

  lemma DiscardCloseLocal(c: Conn, who: Closers, env: Env)
    requires Local(c) && !who.user
    ensures LocalStep(c, DiscardClose(c, who, env))
  {
    DiscardCloseFrame(c, who, env);
    ClosedLifeOk(c.life, if c.life.hasSocket then who.Or(USER) else who, c.snd.started, c.rcv.established);
    EmptiedOk(c.snd, c.rcv, DiscardClose(c, who, env).conn.rcv.rxQueue);
    hide DiscardClose, ClosedLife, LifeOk, SndOk, RcvOk;
  }

  lemma SendCmpLocal(c: Conn, s: Segment, env: Env)
    requires Local(c) && (s.rst || (c.snd.started && Genuine(s, c.snd.iss, c.snd.accepted)))
    requires s.syn ==> !s.rst
    ensures LocalStep(c, SendCmp(c, s, env))
  {
    SendCmpFrame(c, s, env);
    hide SendCmp;
  }

  lemma CheckAckLocal(c: Conn, env: Env)
    requires Local(c) && c.snd.started
    ensures LocalStep(c, CheckAck(c, env))
  {
    CheckAckFrame(c, env);
    ControlGenuine(c, false, true, false, c.rcv.cur);
    hide CheckAck;
  }

  lemma FlushLocal(cfg: Config, r: Rcv)
    requires RcvOk(r)
    ensures RcvOk(Flush(cfg, r))
    ensures Flush(cfg, r).established == r.established && Flush(cfg, r).irs == r.irs
  {
    FlushFrame(cfg, r);
    var d := Flush(cfg, r);
    WrapShift(r.irs + |r.delivered|, |d.delivered| - |r.delivered|);
    FlushUnfold(cfg, r);
    hide Flush;
  }

  lemma RetransmitLocal(c: Conn, now: u32, mem: seq<bool>)
    requires SndOk(c.snd)
    ensures var r := Retransmit(c.snd.txq, c, now, mem);
            SndOk(c.snd.(txq := r.0)) && Sends(c.snd, r.1)
  {
    RetransmitFrame(c.snd.txq, c, now, mem);
    hide Retransmit;
  }

  lemma SendsConcat(snd: Snd, a: seq<Segment>, b: seq<Segment>)
    requires Sends(snd, a) && Sends(snd, b)
    ensures Sends(snd, a + b)
  {
  }

  lemma ServiceFrame(c: Conn, env: Env)
    ensures var e := Service(c, env);
            var (q, out) := Retransmit(c.snd.txq, c, env.now, env.retransmitMem);
            var c1 := c.(snd := c.snd.(txq := q));
            && e.conn.snd == c1.snd && e.conn.rcv == Flush(c.cfg, c.rcv) && e.conn.life == c.life
            && e.conn.cfg == c.cfg && e.conn.opts == c.opts
            && (e.out == out + []
                || (c.life.state == Open && e.out == out + [Control(c1, false, true, false, c.rcv.cur, [])]))
  {
    var (q, out) := Retransmit(c.snd.txq, c, env.now, env.retransmitMem);
    var c1 := c.(snd := c.snd.(txq := q),
                 clocks := if out == [] then c.clocks else c.clocks.(ackTimestamp := env.now));
    CheckAckFrame(c1, env);
    hide CheckAck, Retransmit, Flush;
  }

  lemma ServiceLocal(c: Conn, env: Env)
    requires Local(c)
    ensures LocalStep(c, Service(c, env))
  {
    assert c.life.state == Open ==> c.snd.started;
    hide Service, Retransmit, Flush, SndOk, RcvOk, LifeOk, Genuine, Control, Wrap;
    RetransmitLocal(c, env.now, env.retransmitMem);
    FlushLocal(c.cfg, c.rcv);
    ServiceFrame(c, env);
    var (q, out) := Retransmit(c.snd.txq, c, env.now, env.retransmitMem);
    var c1 := c.(snd := c.snd.(txq := q));
    SendsConcat(c.snd, out, []);
    if c.life.state == Open {
      ControlGenuine(c1, false, true, false, c.rcv.cur);
      SendsConcat(c1.snd, out, [Control(c1, false, true, false, c.rcv.cur, [])]);
    }
  }

  lemma TimeoutsLocal(c: Conn, env: Env)
    requires Local(c)
    ensures LocalStep(c, CheckTimeouts(c, env))
  {
    if c.life.hasSocket { ConnCloseLocal(c, EVERYBODY, env); }
    ConnCloseLocal(c, PROTOCOL.Or(TIMEOUT), env);
    ServiceLocal(c, env);
    hide ConnClose, Service, LocalStep;
  }

  lemma GenuineGrows(s: Segment, iss: u16, acc: seq<Data>, acc': seq<Data>)
    requires Genuine(s, iss, acc) && acc <= acc'
    ensures Genuine(s, iss, acc')
  {
  }

  lemma SendsGrows(c: Conn, d: Conn, out: seq<Segment>)
    requires Sends(c.snd, out) && Grows(c, d)
    ensures Sends(d.snd, out)
  {
    forall s | s in out && !s.rst
      ensures d.snd.started && Genuine(s, d.snd.iss, d.snd.accepted)
    {
      GenuineGrows(s, c.snd.iss, c.snd.accepted, d.snd.accepted);
    }
  }

  /** Two steps in a row. */
  lemma Chain(c: Conn, e: Effect, f: Effect)
    requires LocalStep(c, e) && LocalStep(e.conn, f)
    ensures LocalStep(c, Effect(f.conn, e.out + f.out))
  {
    hide Local, Genuine;
    SendsGrows(e.conn, f.conn, e.out);
    SendsConcat(f.conn.snd, e.out, f.out);
  }

  lemma AcknowledgedLocal(c: Conn, s: Segment)
    requires Local(c)
    ensures LocalStep(c, Effect(c.(snd := Acknowledged(c.snd, s)), []))
  {
  }

  lemma ToCloseWaitLocal(c: Conn, now: u32)
    requires Local(c) && c.life.inUse && c.life.state != Closed
    ensures LocalStep(c, Effect(c.(life := c.life.(state := CloseWait), clocks := c.clocks.(timestamp := now)), []))
  {
  }

  /** A reset, then closing: two exits of csp_rdp_new_packet. */
  lemma ResetThenDiscard(c: Conn, s: Segment, who: Closers, env: Env)
    requires Local(c) && s.rst && !s.syn && !who.user
    ensures var e := SendCmp(c, s, env);
            var f := DiscardClose(e.conn, who, env);
            LocalStep(c, Effect(f.conn, e.out + f.out))
  {
    SendCmpLocal(c, s, env);
    hide SendCmp, DiscardClose;
    var e := SendCmp(c, s, env);
    assert Local(e.conn);
    DiscardCloseLocal(e.conn, who, env);
    hide LocalStep;
    Chain(c, e, DiscardClose(e.conn, who, env));
  }

  lemma RstLocal(c0: Conn, s: Segment, env: Env)
    requires Local(c0) && c0.life.inUse
    ensures LocalStep(c0, ReceiveRst(c0, s, env))
  {
    var c := if s.ack then c0.(snd := Acknowledged(c0.snd, s)) else c0;
    AcknowledgedLocal(c0, s);
    assert Local(c);
    if c.life.hasSocket { ConnCloseLocal(c, USER, env); }
    DiscardCloseLocal(c, if s.ack then PROTOCOL.Or(TIMEOUT) else PROTOCOL, env);
    var c1 := c.(life := c.life.(state := CloseWait), clocks := c.clocks.(timestamp := env.now));
    if c.life.state != Closed {
      ToCloseWaitLocal(c, env.now);
      ResetThenDiscard(c1, Control(c1, false, true, true, c1.rcv.cur, []), PROTOCOL.Or(TIMEOUT), env);
    }
    hide SendCmp, DiscardClose, ConnClose, Local, Sends;
  }

  lemma SynReceivedLocal(c: Conn, s: Segment, env: Env)
    requires Local(c) && c.life.inUse && c.life.state == Closed
    ensures LocalStep(c, Effect(SynReceived(c, s, env), []))
  {
    hide DecodeOptions;
  }

  lemma ClosedLocal(c: Conn, s: Segment, env: Env)
    requires Local(c) && c.life.inUse && c.life.state == Closed
    ensures LocalStep(c, ReceiveClosed(c, s, env))
  {
    ResetThenDiscard(c, Control(c, false, false, true, c.rcv.cur, []), PROTOCOL, env);
    SynReceivedLocal(c, s, env);
    var c1 := SynReceived(c, s, env);
    assert c1.snd.started;
    hide SendCmp, DiscardClose, SynReceived, Sends, Genuine;
    ControlGenuine(c1, true, true, false, c1.rcv.irs);
    SendCmpLocal(c1, Control(c1, true, true, false, c1.rcv.irs, []), env);
  }

  lemma SynSentLocal(c: Conn, s: Segment, env: Env)
    requires Local(c) && c.life.state == SynSent
    ensures LocalStep(c, ReceiveSynSent(c, s, env))
  {
    var c1 := SynAnswered(c, s, env);
    assert LocalStep(c, Effect(c1, []));
    assert c1.snd.started;
    hide SendCmp, DiscardClose, SynAnswered, Sends, Genuine;
    ControlGenuine(c1, false, true, false, c1.rcv.cur);
    SendCmpLocal(c1, Control(c1, false, true, false, c1.rcv.cur, []), env);
    SendCmpLocal(c, Control(c, false, false, true, c.rcv.cur, []), env);
    DiscardCloseLocal(c, PROTOCOL, env);
  }

  lemma DeliverNextLocal(r: Rcv, d: Data)
    requires RcvOk(r) && r.established
    ensures RcvOk(DeliverNext(r, d))
  {
    WrapShift(r.irs + |r.delivered|, 1);
  }

  lemma TakeDataLocal(cfg: Config, r: Rcv, s: Segment)
    requires RcvOk(r) && r.established
    ensures RcvOk(TakeData(cfg, r, s))
    ensures TakeData(cfg, r, s).established && TakeData(cfg, r, s).irs == r.irs
  {
    DeliverNextLocal(r, s.data);
    FlushLocal(cfg, DeliverNext(r, s.data));
    hide Flush, FindSeq, Wrap;
  }

  lemma AckGenuine(c: Conn, r: Rcv)
    requires SndOk(c.snd) && c.snd.started
    ensures Genuine(AckOf(c, r), c.snd.iss, c.snd.accepted)
  {
  }

  lemma DataLocal(c: Conn, s: Segment, env: Env)
    requires Local(c) && c.life.state == Open
    ensures LocalStep(c, ReceiveData(c, s, env))
  {
    assert c.snd.started && c.rcv.established;
    hide ReceiveData, TakeData, SndOk, RcvOk, LifeOk, Genuine, AckOf, DeliverNext;
    ReceiveDataFrame(c, s, env);
    TakeDataLocal(c.cfg, c.rcv, s);
    AckGenuine(c, c.rcv);
    AckGenuine(c, DeliverNext(c.rcv, s.data));
  }

  lemma AcceptedLocal(c: Conn, s: Segment, env: Env)
    requires Local(c) && (c.life.state == SynRcvd || c.life.state == Open)
    ensures LocalStep(c, Effect(Accepted(c, s, env), [])) && Accepted(c, s, env).life.state == Open
    ensures LocalStep(c, Effect(c.(life := Promote(c.life, env)), []))
  {
  }

  lemma OpenLocal(c: Conn, s: Segment, env: Env)
    requires Local(c) && (c.life.state == SynRcvd || c.life.state == Open)
    ensures LocalStep(c, ReceiveOpen(c, s, env))
  {
    assert c.snd.started && LocalStep(c, Effect(c, []));
    AcceptedLocal(c, s, env);
    ControlGenuine(c, true, true, false, c.rcv.irs);
    hide SendCmp, DiscardClose, Accepted, Promote, ReceiveData, InReceiveWindow, AckPlausible, Genuine, Local, Sends;
    var c1 := c.(life := Promote(c.life, env));
    if s.syn || !s.ack {
      DiscardCloseLocal(c, PROTOCOL, env);
    } else if !InReceiveWindow(c, s) {
      SendCmpLocal(c, Control(c, true, true, false, c.rcv.irs, []), env);
    } else if !AckPlausible(c, s) {
    } else if c.life.state == SynRcvd && s.ackNr != c.snd.iss {
      DiscardCloseLocal(c, PROTOCOL, env);
    } else if c.life.state == SynRcvd && c.life.hasSocket && !env.backlog {
      DiscardCloseLocal(c1, PROTOCOL, env);
    } else {
      DataLocal(Accepted(c, s, env), s, env);
    }
  }

  lemma CloseWaitLocal(c: Conn, s: Segment, env: Env)
    requires Local(c) && c.life.state == CloseWait
    ensures LocalStep(c, ReceiveCloseWait(c, s, env))
  {
    AcknowledgedLocal(c, s);
    var c1 := c.(snd := Acknowledged(c.snd, s));
    SendCmpLocal(c1, Control(c1, false, true, true, c1.rcv.cur, []), env);
    hide SendCmp, Genuine, AckPlausible;
  }

  lemma NewPacketLocal(c: Conn, s: Segment, env: Env)
    requires Local(c) && c.life.inUse
    ensures LocalStep(c, NewPacket(c, s, env))
  {
    hide ReceiveRst, ReceiveClosed, ReceiveSynSent, ReceiveOpen, ReceiveCloseWait, LocalStep, Local;
    if s.rst {
      RstLocal(c, s, env);
    } else {
      match c.life.state
      case Closed => ClosedLocal(c, s, env);
      case SynSent => SynSentLocal(c, s, env);
      case SynRcvd => OpenLocal(c, s, env);
      case Open => OpenLocal(c, s, env);
      case CloseWait => CloseWaitLocal(c, s, env);
    }
  }

  lemma RdpCloseLocal(c: Conn, env: Env)
    requires Local(c) && c.life.inUse && c.life.state != Closed && !c.life.handed && !c.life.requested.user
    ensures var c0 := c.(life := c.life.(requested := c.life.requested.Or(PROTOCOL)));
            var r := RdpClose(c0, PROTOCOL, false, env);
            r.0.out == [] && LocalStep(c, r.0) && !r.0.conn.life.handed
  {
    var c0 := c.(life := c.life.(requested := c.life.requested.Or(PROTOCOL)));
    RdpCloseFrame(c0, PROTOCOL, false, env);
    hide RdpClose, SndOk, RcvOk, Genuine;
  }

  lemma ConnectFailLocal(c: Conn, env: Env)
    requires Local(c) && c.life.inUse && c.life.state != Closed && !c.life.handed && !c.life.requested.user
    ensures LocalStep(c, ConnectFail(c, env))
  {
    RdpCloseLocal(c, env);
    hide RdpClose, ConnClose, Local, Sends;
    var c0 := c.(life := c.life.(requested := c.life.requested.Or(PROTOCOL)));
    var (e, _) := RdpClose(c0, PROTOCOL, false, env);
    ConnCloseLocal(e.conn, USER, env);
    Chain(c, e, ConnClose(e.conn, USER, env));
  }

  lemma SynGenuine(c: Conn, d: Data)
    requires SndOk(c.snd) && c.snd.started
    ensures Genuine(Control(c, true, false, false, 0, d), c.snd.iss, c.snd.accepted)
  {
  }

  lemma ConnectLocal(c: Conn, opts: Options, env: Env)
    requires Local(c) && !c.life.leased && !c.life.server
    ensures LocalStep(c, Connect(c, opts, env))
  {
    var c1 := Connecting(c, opts, env);
    assert LocalStep(c, Effect(c1, []));
    var syn := Control(c1, true, false, false, 0, EncodeOptions(opts));
    SynGenuine(c1, EncodeOptions(opts));
    SendCmpLocal(c1, syn, env);
    SendCmpFrame(c1, syn, env);
    hide SendCmp, Connecting, Genuine, Sends, SndOk, RcvOk;
    var e := SendCmp(c1, syn, env);
    if e.out == [] {
      ConnectFailLocal(e.conn, env);
      hide Local, ConnectFail, Control;
    }
  }

  lemma SendLocal(c: Conn, data: Data, env: Env)
    requires Local(c)
    ensures LocalStep(c, Send(c, data, env))
  {
    if CanSend(c, data, env) {
      hide CanSend;
      WrapShift(c.snd.iss + |c.snd.accepted| + 1, 1);
      var d := Send(c, data, env).conn.snd;
      forall t | t in d.txq
        ensures Resendable(t.seg, d.iss, d.accepted)
      {
        if t in c.snd.txq {
          GenuineGrows(t.seg, d.iss, c.snd.accepted, d.accepted);
        }
      }
    }
  }

  lemma ReadLocal(c: Conn, env: Env)
    requires Local(c) && c.life.handed
    ensures LocalStep(c, Read(c, env).0)
  {
    var c1 := c.(rcv := if c.rcv.rxQueue == [] then c.rcv else Unqueued(c.rcv));
    assert Local(c1) && c1.snd.started;
    hide CheckAck, Genuine, SndOk, RcvOk;
    CheckAckLocal(c1, env);
  }

  lemma UserCloseLocal(c: Conn, env: Env)
    requires Local(c)
    ensures LocalStep(c, UserClose(c, env))
  {
    var c1 := c.(life := c.life.(userClosed := true));
    assert Local(c1);
    ConnCloseLocal(c1, USER, env);
    hide ConnClose;
  }

  lemma TickedLocal(c: Conn, e: Effect, yes: bool)
    requires LocalStep(c, e)
    ensures LocalStep(c, Ticked(e, yes))
  {
  }

  lemma AllocateLocal(c: Conn, env: Env)
    requires Local(c) && !c.life.leased && c.life.server
    ensures LocalStep(c, Effect(Allocate(c, env), [])) && Allocate(c, env).life.inUse
  {
  }

  /** Whatever an endpoint does or receives, it keeps its own invariant, never forgets
      what it accepted, and sends only what the invariant calls genuine. */
  lemma ApplyLocal(c: Conn, op: Op, env: Env, inbox: set<Segment>)
    requires Local(c) && Enabled(c, inbox, op)
    ensures LocalStep(c, Apply(c, op, env))
  {
    match op
    case Dial(opts) => hide *; ConnectLocal(c, opts, env);
    case Dialled =>
    case DialFailed => ConnectFailLocal(c, env);
    case Write(data) => SendLocal(c, data, env);
    case Fetch => ReadLocal(c, env);
    case HangUp => UserCloseLocal(c, env);
    case Tick => TimeoutsLocal(c, env); TickedLocal(c, CheckTimeouts(c, env), true);
    case Receive(s) =>
      var c1 := if c.life.leased then c else Allocate(c, env);
      if !c.life.leased { AllocateLocal(c, env); }
      NewPacketLocal(c1, s, env);
      TickedLocal(c, NewPacket(c1, s, env), false);
  }
}
