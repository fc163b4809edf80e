/** Acknowledgements tell the truth, so the sender never runs more than a window ahead. */
module RdpWindow {
  import opened SeqNumbers
  import opened Rdp
  import opened RdpFrames
  import opened RdpNet
  import opened RdpLocal
  import opened RdpEndToEnd

  // ---- what an endpoint says about its receiving half ----

  /** A segment that acknowledges does so for something really delivered. */
  predicate Truthful(s: Segment, r: Rcv) {
    s.ack ==>
      && 0 <= s.ackIx <= |r.delivered|
      && (!s.rst ==> r.established)
      && (r.established ==> s.ackNr == Wrap(r.irs + s.ackIx))
  }

  /** Before the handshake has told an endpoint its peer's numbers it acknowledges nothing. */
  predicate Silent(c: Conn) {
    !c.rcv.established && (c.life.server || c.life.state == SynSent || !c.life.leased)
  }

  /** An opening SYN announces the options the connection runs with; everything but a SYN or a reset carries an
      acknowledgement. */
  predicate Announces(s: Segment, opts: Options) {
    (s.syn && !s.ack && !s.rst ==> s.data == EncodeOptions(opts)) && (s.ack || s.syn || s.rst)
  }

  predicate Says(c: Conn, out: seq<Segment>) {
    forall s :: s in out ==> Truthful(s, c.rcv) && (Silent(c) ==> !s.ack) && Announces(s, c.opts)
  }

  predicate TxSays(c: Conn) {
    forall t :: t in c.snd.txq ==> (t.seg.ack ==> c.rcv.established) && Announces(t.seg, c.opts)
  }

  predicate Speaks(e: Effect) {
    Says(e.conn, e.out) && TxSays(e.conn)
  }

  lemma ControlTruthful(c: Conn, syn: bool, ack: bool, rst: bool)
    requires RcvOk(c.rcv) && (ack && !rst ==> c.rcv.established)
    ensures Truthful(Control(c, syn, ack, rst, c.rcv.cur, []), c.rcv)
  {
  }

  lemma SaysConcat(c: Conn, a: seq<Segment>, b: seq<Segment>)
    requires Says(c, a) && Says(c, b)
    ensures Says(c, a + b)
  {
  }

  lemma SendCmpSpeaks(c: Conn, s: Segment, env: Env)
    requires TxSays(c) && Truthful(s, c.rcv) && (Silent(c) ==> !s.ack) && (s.syn ==> !s.rst) && Announces(s, c.opts)
    ensures Speaks(SendCmp(c, s, env))
  {
    SendCmpFrame(c, s, env);
    hide SendCmp, Wrap;
  }

  lemma ConnCloseSpeaks(c: Conn, who: Closers, env: Env)
    requires Local(c) && TxSays(c)
    ensures Speaks(ConnClose(c, who, env))
  {
    ConnCloseFrame(c, who, env);
    ControlTruthful(c, false, true, true);
    var e := ConnClose(c, who, env);
    hide ConnClose, Wrap, SndOk, RcvOk, EncodeOptions;
    if e.out != [] {
      assert e.out == [Control(c, false, true, true, c.rcv.cur, [])];
      assert e.conn.rcv.established == c.rcv.established;
    }
  }

  lemma DiscardCloseSpeaks(c: Conn, who: Closers, env: Env)
    requires Local(c) && TxSays(c)
    ensures Speaks(DiscardClose(c, who, env))
  {
    var closers := if c.life.hasSocket then who.Or(USER) else who;
    ConnCloseSpeaks(c, closers, env);
    var e, d := ConnClose(c, closers, env), DiscardClose(c, who, env);
    assert d == Effect(e.conn.(rcv := e.conn.rcv.(rxQueue := d.conn.rcv.rxQueue)), e.out) by {
      hide ConnClose, Local, Speaks;
    }
    hide ConnClose, DiscardClose, Local, EncodeOptions;
  }

  lemma RetransmitSpeaks(c: Conn, now: u32, mem: seq<bool>)
    requires Local(c) && TxSays(c)
    ensures var r := Retransmit(c.snd.txq, c, now, mem);
            TxSays(c.(snd := c.snd.(txq := r.0))) && Says(c, r.1)
  {
    RetransmitFrame(c.snd.txq, c, now, mem);
    hide Retransmit;
  }

  /** Delivering more keeps what was said true. */
  lemma SaysGrows(c: Conn, d: Conn, out: seq<Segment>)
    requires Says(c, out)
    requires d.rcv.established == c.rcv.established && d.rcv.irs == c.rcv.irs
    requires c.rcv.delivered <= d.rcv.delivered && (Silent(d) ==> Silent(c)) && d.opts == c.opts
    ensures Says(d, out)
  {
  }

  lemma ServiceSpeaks(c: Conn, env: Env)
    requires Local(c) && TxSays(c)
    ensures Speaks(Service(c, env))
  {
    RetransmitSpeaks(c, env.now, env.retransmitMem);
    ServiceFrame(c, env);
    FlushFrame(c.cfg, c.rcv);
    var (q, out) := Retransmit(c.snd.txq, c, env.now, env.retransmitMem);
    var c1 := c.(snd := c.snd.(txq := q));
    var e := Service(c, env);
    assert c.life.state == Open ==> c.rcv.established;
    hide Service, Retransmit, Flush, Wrap, Genuine, SndOk, LifeOk;
    SaysConcat(c, out, []);
    if c.life.state == Open {
      ControlTruthful(c1, false, true, false);
      var ack := Control(c1, false, true, false, c.rcv.cur, []);
      assert Says(c, [ack]);
      SaysConcat(c, out, [ack]);
    }
    SaysGrows(c, e.conn, e.out);
  }

  lemma TimeoutsSpeak(c: Conn, env: Env)
    requires Local(c) && TxSays(c)
    ensures Speaks(CheckTimeouts(c, env))
  {
    ConnCloseSpeaks(c, EVERYBODY, env);
    ConnCloseSpeaks(c, PROTOCOL.Or(TIMEOUT), env);
    ServiceSpeaks(c, env);
    hide ConnClose, Service, Speaks;
  }

  /** A reset, then closing. */
  lemma ResetThenDiscardSpeaks(c: Conn, s: Segment, who: Closers, env: Env)
    requires Local(c) && TxSays(c) && s.rst && !s.syn && !who.user && Truthful(s, c.rcv) && (Silent(c) ==> !s.ack)
    ensures var e := SendCmp(c, s, env);
            var f := DiscardClose(e.conn, who, env);
            Speaks(Effect(f.conn, e.out + f.out))
  {
    SendCmpSpeaks(c, s, env);
    SendCmpLocal(c, s, env);
    SendCmpFrame(c, s, env);
    hide SendCmp, DiscardClose, Wrap;
    var e := SendCmp(c, s, env);
    DiscardCloseSpeaks(e.conn, who, env);
    DiscardCloseFrame(e.conn, who, env);
    var f := DiscardClose(e.conn, who, env);
    SaysGrows(e.conn, f.conn, e.out);
    SaysConcat(f.conn, e.out, f.out);
  }

  lemma RstSpeaks(c0: Conn, s: Segment, env: Env)
    requires Local(c0) && TxSays(c0) && c0.life.inUse
    ensures Speaks(ReceiveRst(c0, s, env))
  {
    var c := if s.ack then c0.(snd := Acknowledged(c0.snd, s)) else c0;
    AcknowledgedLocal(c0, s);
    assert Local(c) && TxSays(c);
    hide SendCmp, DiscardClose, ConnClose, Wrap, Control;
    ConnCloseSpeaks(c, USER, env);
    DiscardCloseSpeaks(c, if s.ack then PROTOCOL.Or(TIMEOUT) else PROTOCOL, env);
    if c.life.state != Closed {
      var c1 := c.(life := c.life.(state := CloseWait), clocks := c.clocks.(timestamp := env.now));
      ToCloseWaitLocal(c, env.now);
      ControlTruthful(c1, false, true, true);
      var rst := Control(c1, false, true, true, c1.rcv.cur, []);
      assert !Silent(c1) && rst.rst && !rst.syn by { ControlFlags(c1, false, true, true); }
      ResetThenDiscardSpeaks(c1, rst, PROTOCOL.Or(TIMEOUT), env);
    }
    hide Says, TxSays, SndOk, RcvOk;
  }

  lemma ControlFlags(c: Conn, syn: bool, ack: bool, rst: bool)
    ensures var s := Control(c, syn, ack, rst, c.rcv.cur, []);
            s.syn == syn && s.ack == ack && s.rst == rst
  {
  }

  lemma ClosedSpeaks(c: Conn, s: Segment, env: Env)
    requires Local(c) && TxSays(c) && c.life.inUse && c.life.state == Closed
    ensures Speaks(ReceiveClosed(c, s, env))
  {
    SynReceivedLocal(c, s, env);
    var c1 := SynReceived(c, s, env);
    assert c1.rcv.irs == c1.rcv.cur && c1.rcv.established && TxSays(c1) && !Silent(c1);
    hide SendCmp, DiscardClose, SynReceived, Control, Wrap, SndOk, LifeOk;
    ControlFlags(c, false, false, true);
    ControlTruthful(c, false, false, true);
    ResetThenDiscardSpeaks(c, Control(c, false, false, true, c.rcv.cur, []), PROTOCOL, env);
    ControlFlags(c1, true, true, false);
    ControlTruthful(c1, true, true, false);
    SendCmpSpeaks(c1, Control(c1, true, true, false, c1.rcv.cur, []), env);
    hide Says, TxSays, RcvOk;
  }

  lemma SynSentSpeaks(c: Conn, s: Segment, env: Env)
    requires Local(c) && TxSays(c) && c.life.state == SynSent
    ensures Speaks(ReceiveSynSent(c, s, env))
  {
    var c1 := SynAnswered(c, s, env);
    assert RcvOk(c1.rcv) && c1.rcv.established && TxSays(c1) && !Silent(c1);
    hide SendCmp, DiscardClose, SynAnswered, Control, Wrap, SndOk;
    ControlFlags(c1, false, true, false);
    ControlTruthful(c1, false, true, false);
    SendCmpSpeaks(c1, Control(c1, false, true, false, c1.rcv.cur, []), env);
    ControlFlags(c, false, false, true);
    SendCmpSpeaks(c, Control(c, false, false, true, c.rcv.cur, []), env);
    DiscardCloseSpeaks(c, PROTOCOL, env);
    hide Says, TxSays, RcvOk;
  }

  lemma TakeDataGrows(cfg: Config, r: Rcv, s: Segment)
    ensures var d := TakeData(cfg, r, s);
            && d.established == r.established && d.irs == r.irs && r.delivered <= d.delivered
            && (d == r || |d.delivered| > |r.delivered| || d == r.(rxq := d.rxq))
  {
    FlushFrame(cfg, DeliverNext(r, s.data));
    hide Flush, FindSeq;
  }

  lemma AckTruthful(c: Conn, r: Rcv, r': Rcv)
    requires RcvOk(r) && r.established && r'.established && r'.irs == r.irs && r.delivered <= r'.delivered
    ensures Truthful(AckOf(c, r), r')
  {
  }

  lemma DataSpeaks(c: Conn, s: Segment, env: Env)
    requires Local(c) && TxSays(c) && c.life.state == Open
    ensures Speaks(ReceiveData(c, s, env))
  {
    ReceiveDataFrame(c, s, env);
    TakeDataGrows(c.cfg, c.rcv, s);
    var e := ReceiveData(c, s, env);
    assert c.rcv.established;
    DeliverNextLocal(c.rcv, s.data);
    var r1 := DeliverNext(c.rcv, s.data);
    assert r1.established && r1.irs == c.rcv.irs;
    hide ReceiveData, TakeData, DeliverNext, AckOf, Wrap, LifeOk, SndOk, RcvOk;
    AckTruthful(c, c.rcv, e.conn.rcv);
    if e.out != [] && e.out != [AckOf(c, c.rcv)] {
      AckTruthful(c, r1, e.conn.rcv);
    }
  }

  lemma OpenSpeaks(c: Conn, s: Segment, env: Env)
    requires Local(c) && TxSays(c) && (c.life.state == SynRcvd || c.life.state == Open)
    requires c.life.state == SynRcvd ==> c.rcv.irs == c.rcv.cur
    ensures Speaks(ReceiveOpen(c, s, env))
  {
    AcceptedLocal(c, s, env);
    var c1 := c.(life := Promote(c.life, env));
    var c2 := Accepted(c, s, env);
    assert c.rcv.established && TxSays(c1) && TxSays(c2) && !Silent(c);
    hide SendCmp, DiscardClose, Accepted, Promote, ReceiveData, InReceiveWindow, AckPlausible, Control, Wrap, SndOk;
    ControlFlags(c, true, true, false);
    ControlTruthful(c, true, true, false);
    SendCmpSpeaks(c, Control(c, true, true, false, c.rcv.cur, []), env);
    DiscardCloseSpeaks(c, PROTOCOL, env);
    DiscardCloseSpeaks(c1, PROTOCOL, env);
    DataSpeaks(c2, s, env);
    assert Speaks(Effect(c, []));
    hide Speaks;
  }

  lemma CloseWaitSpeaks(c: Conn, s: Segment, env: Env)
    requires Local(c) && TxSays(c) && c.life.state == CloseWait
    ensures Speaks(ReceiveCloseWait(c, s, env))
  {
    AcknowledgedLocal(c, s);
    var c1 := c.(snd := Acknowledged(c.snd, s));
    assert Local(c1) && TxSays(c1) && !Silent(c1);
    hide SendCmp, AckPlausible, Control, Wrap, SndOk;
    ControlFlags(c1, false, true, true);
    ControlTruthful(c1, false, true, true);
    SendCmpSpeaks(c1, Control(c1, false, true, true, c1.rcv.cur, []), env);
  }

  /** In SYN_RCVD nothing has been received yet. */
  predicate Untouched(c: Conn) {
    c.life.state == SynRcvd ==> c.rcv.delivered == [] && c.rcv.rxq == []
  }

  lemma NewPacketSpeaks(c: Conn, s: Segment, env: Env)
    requires Local(c) && TxSays(c) && Untouched(c) && c.life.inUse
    ensures Speaks(NewPacket(c, s, env))
  {
    assert c.life.state == SynRcvd ==> c.rcv.irs == c.rcv.cur;
    hide ReceiveRst, ReceiveClosed, ReceiveSynSent, ReceiveOpen, ReceiveCloseWait, Speaks, Local, TxSays;
    if s.rst {
      RstSpeaks(c, s, env);
    } else {
      match c.life.state
      case Closed => ClosedSpeaks(c, s, env);
      case SynSent => SynSentSpeaks(c, s, env);
      case SynRcvd => OpenSpeaks(c, s, env);
      case Open => OpenSpeaks(c, s, env);
      case CloseWait => CloseWaitSpeaks(c, s, env);
    }
  }

  lemma ConnectFailSpeaks(c: Conn, env: Env)
    requires Local(c) && TxSays(c) && c.life.inUse && c.life.state != Closed && !c.life.handed && !c.life.requested.user
    ensures Speaks(ConnectFail(c, env))
  {
    RdpCloseLocal(c, env);
    var c0 := c.(life := c.life.(requested := c.life.requested.Or(PROTOCOL)));
    RdpCloseFrame(c0, PROTOCOL, false, env);
    hide RdpClose, ConnClose, SndOk, RcvOk, LifeOk;
    var (e, _) := RdpClose(c0, PROTOCOL, false, env);
    ConnCloseSpeaks(e.conn, USER, env);
    assert [] + ConnClose(e.conn, USER, env).out == ConnClose(e.conn, USER, env).out;
    hide Says;
  }

  lemma ConnectSpeaks(c: Conn, opts: Options, env: Env)
    requires Local(c) && TxSays(c) && !c.life.leased && !c.life.server
    ensures Speaks(Connect(c, opts, env))
  {
    var c1 := Connecting(c, opts, env);
    assert LocalStep(c, Effect(c1, [])) && TxSays(c1);
    var syn := Control(c1, true, false, false, 0, EncodeOptions(opts));
    assert !syn.ack && syn.syn && !syn.rst;
    SynGenuine(c1, EncodeOptions(opts));
    assert c1.life.inUse && c1.life.state != Closed && !c1.life.requested.user && !c1.life.handed;
    hide SendCmp, ConnectFail, EncodeOptions, Connecting, Control, Genuine, Wrap;
    SendCmpSpeaks(c1, syn, env);
    SendCmpLocal(c1, syn, env);
    SendCmpFrame(c1, syn, env);
    var e := SendCmp(c1, syn, env);
    if e.out == [] { ConnectFailSpeaks(e.conn, env); }
  }

  lemma SendSpeaks(c: Conn, data: Data, env: Env)
    requires Local(c) && TxSays(c)
    ensures Speaks(Send(c, data, env))
  {
  }

  lemma ReadSpeaks(c: Conn, env: Env)
    requires Local(c) && TxSays(c) && c.life.handed
    ensures Speaks(Read(c, env).0)
  {
    if c.rcv.rxQueue != [] {
      var c1 := c.(rcv := Unqueued(c.rcv));
      CheckAckFrame(c1, env);
      ControlTruthful(c1, false, true, false);
      assert c1.rcv.established;
      hide CheckAck, Control, Wrap, SndOk;
    }
  }

  lemma AllocateSpeaks(c: Conn, env: Env)
    requires Local(c) && TxSays(c) && !c.life.leased
    ensures TxSays(Allocate(c, env)) && Untouched(Allocate(c, env))
  {
  }

  lemma TickedSpeaks(e: Effect, yes: bool)
    requires Speaks(e)
    ensures Speaks(Ticked(e, yes))
  {
    hide Truthful;
  }

  lemma DialledSpeaks(c: Conn)
    requires TxSays(c)
    ensures Speaks(Effect(c.(life := c.life.(handed := true)), []))
  {
  }

  lemma UserCloseSpeaks(c: Conn, env: Env)
    requires Local(c) && TxSays(c)
    ensures Speaks(UserClose(c, env))
  {
    var c1 := c.(life := c.life.(userClosed := true));
    assert Local(c1) && TxSays(c1);
    hide ConnClose;
    ConnCloseSpeaks(c1, USER, env);
  }

  lemma ApplySpeaks(c: Conn, op: Op, env: Env, inbox: set<Segment>)
    requires Local(c) && TxSays(c) && Untouched(c) && Enabled(c, inbox, op)
    ensures Speaks(Apply(c, op, env))
  {
    hide Speaks, TxSays, Connect, ConnectFail, Send, Read, UserClose, CheckTimeouts, NewPacket;
    match op
    case Dial(opts) => ConnectSpeaks(c, opts, env);
    case Dialled => DialledSpeaks(c);
    case DialFailed => ConnectFailSpeaks(c, env);
    case Write(data) => SendSpeaks(c, data, env);
    case Fetch => ReadSpeaks(c, env);
    case HangUp => UserCloseSpeaks(c, env);
    case Tick => TimeoutsSpeak(c, env); TickedSpeaks(CheckTimeouts(c, env), true);
    case Receive(s) =>
      var c1 := if c.life.leased then c else Allocate(c, env);
      if !c.life.leased { AllocateLocal(c, env); AllocateSpeaks(c, env); }
      NewPacketSpeaks(c1, s, env);
      TickedSpeaks(NewPacket(c1, s, env), false);
  }

  // ---- how the sending half can move while the connection lives ----

  predicate StaysPut(c: Conn, d: Conn) {
    c.life.state == d.life.state && d.snd == c.snd
  }

  predicate Swept(c: Conn, d: Conn, env: Env) {
    && c.life.state == d.life.state
    && d.snd == c.snd.(txq := Retransmit(c.snd.txq, c, env.now, env.retransmitMem).0)
  }

  predicate Wrote(c: Conn, d: Conn, data: Data, env: Env) {
    && c.life.state == Open && CanSend(c, data, env) && d.snd == Send(c, data, env).conn.snd
  }

  predicate GotAck(c: Conn, d: Conn, s: Segment) {
    && s.ack && d.snd == Acknowledged(c.snd, s) && Synchronizing(c.life.state)
    && (c.life.state == SynSent ==> s.syn)
    && (c.life.state != Open ==> !s.rst)
  }

  /** Another SYN/ACK, for a segment the passive side finds outside its window. */
  predicate Reanswered(c: Conn, d: Conn, s: Segment) {
    && c.life.state == SynRcvd && d.life.state == SynRcvd && !s.syn && !s.rst && s.ack && !InReceiveWindow(c, s)
    && d.snd == c.snd.(txq := d.snd.txq)
  }

  predicate Listened(c: Conn, d: Conn, s: Segment) {
    && c.life.state == Closed && d.life.state == SynRcvd && s.syn && !s.ack && !s.rst
    && d.opts == DecodeOptions(s.data)
    && d.snd.accepted == [] && d.snd.una == d.snd.iss && d.snd.unaIx == 0 && d.snd.hiIx == 0
    && (forall t :: t in d.snd.txq ==> t.seg.syn) && |d.snd.txq| <= 1
  }

  predicate Called(c: Conn, d: Conn, opts: Options) {
    && d.life.state == SynSent && d.opts == opts
    && d.snd.accepted == [] && d.snd.una == d.snd.iss && d.snd.unaIx == 0 && d.snd.hiIx == 0
    && (forall t :: t in d.snd.txq ==> t.seg.syn && t.seg.data == EncodeOptions(opts)) && |d.snd.txq| <= 1
  }

  /** An out-of-sequence reset during the handshake still moves una (src/csp_rdp.c:460-463). */
  predicate Misled(c: Conn, d: Conn, s: Segment) {
    && s.rst && s.ack && d.snd == Acknowledged(c.snd, s)
    && d.life.state == c.life.state && c.life.state != Open
  }

  predicate SndMoves(c: Conn, d: Conn, op: Op, env: Env) {
    if !Synchronizing(d.life.state) then
      d.snd.accepted == c.snd.accepted && (d.opts == c.opts || op.Dial?)
    else
      || (d.opts == c.opts && op != Tick && StaysPut(c, d))
      || (d.opts == c.opts && op == Tick && Swept(c, d, env))
      || (d.opts == c.opts && op.Write? && d.life.state == Open && Wrote(c, d, op.data, env))
      || (d.opts == c.opts && op.Receive? && d.life.state == Open && GotAck(c, d, op.seg))
      || (d.opts == c.opts && op.Receive? && Misled(c, d, op.seg))
      || (d.opts == c.opts && op.Receive? && Reanswered(c, d, op.seg))
      || (op.Receive? && Listened(c, d, op.seg))
      || (op.Dial? && Called(c, d, op.opts))
  }

  predicate Ends(c: Conn, d: Conn) {
    !Synchronizing(d.life.state) && d.snd.accepted == c.snd.accepted && d.opts == c.opts
  }

  lemma ConnCloseEnds(c: Conn, who: Closers, env: Env)
    requires c.life.inUse || c.life.state == Closed
    ensures Ends(c, ConnClose(c, who, env).conn) && Ends(c, DiscardClose(c, who, env).conn)
  {
    ConnCloseFrame(c, who, env);
    DiscardCloseFrame(c, who, env);
    hide ConnClose, DiscardClose;
  }

  lemma SendCmpSnd(c: Conn, s: Segment, env: Env)
    ensures var d := SendCmp(c, s, env).conn;
            && d.snd == c.snd.(txq := d.snd.txq) && d.life == c.life && d.opts == c.opts
            && (!s.syn ==> d.snd == c.snd)
            && (d.snd.txq == c.snd.txq || d.snd.txq == c.snd.txq + [Timed(s, env.now)])
  {
    SendCmpFrame(c, s, env);
    hide SendCmp;
  }

  lemma RstSnd(c: Conn, s: Segment, env: Env)
    requires Local(c) && c.life.inUse && s.rst
    ensures SndMoves(c, ReceiveRst(c, s, env).conn, Receive(s), env)
  {
    var c0 := if s.ack then c.(snd := Acknowledged(c.snd, s)) else c;
    hide ConnClose, DiscardClose, SendCmp, Wrap, Control, Swept, Wrote, Reanswered, Listened, Called;
    if c.life.state != Closed {
      ConnCloseEnds(c0, if s.ack then PROTOCOL.Or(TIMEOUT) else PROTOCOL, env);
      var c1 := c0.(life := c0.life.(state := CloseWait), clocks := c0.clocks.(timestamp := env.now));
      var rst := Control(c1, false, true, true, c1.rcv.cur, []);
      SendCmpSnd(c1, rst, env);
      ConnCloseEnds(SendCmp(c1, rst, env).conn, PROTOCOL.Or(TIMEOUT), env);
    } else {
      ConnCloseEnds(c0, USER, env);
    }
  }

  lemma AcceptedSnd(c: Conn, s: Segment, env: Env)
    requires c.life.state == SynRcvd || c.life.state == Open
    ensures var d := Accepted(c, s, env);
            d.snd == Acknowledged(c.snd, s) && d.opts == c.opts && d.life.state == Open
    ensures Promote(c.life, env).state == Open && Promote(c.life, env).inUse == c.life.inUse
  {
  }

  lemma OpenSnd(c: Conn, s: Segment, env: Env)
    requires Local(c) && (c.life.state == SynRcvd || c.life.state == Open) && !s.rst
    ensures SndMoves(c, ReceiveOpen(c, s, env).conn, Receive(s), env)
  {
    AcceptedSnd(c, s, env);
    hide DiscardClose, SendCmp, Control, ReceiveData, InReceiveWindow, AckPlausible, Accepted, Promote, Acknowledged,
         Swept, Wrote, Called, Listened, Misled, Wrap, SndOk, RcvOk;
    var d := ReceiveOpen(c, s, env).conn;
    if s.syn || !s.ack {
      ConnCloseEnds(c, PROTOCOL, env);
    } else if !InReceiveWindow(c, s) {
      SendCmpSnd(c, Control(c, true, true, false, c.rcv.irs, []), env);
    } else if !AckPlausible(c, s) {
    } else if c.life.state == SynRcvd && s.ackNr != c.snd.iss {
      ConnCloseEnds(c, PROTOCOL, env);
    } else if c.life.state == SynRcvd && c.life.hasSocket && !env.backlog {
      ConnCloseEnds(c.(life := Promote(c.life, env)), PROTOCOL, env);
    } else {
      ReceiveDataFrame(Accepted(c, s, env), s, env);
    }
  }

  lemma NewPacketSnd(c: Conn, s: Segment, env: Env)
    requires Local(c) && c.life.inUse
    ensures SndMoves(c, NewPacket(c, s, env).conn, Receive(s), env)
  {
    hide ConnClose, DiscardClose, SendCmp, Control, ReceiveRst, ReceiveOpen, AckPlausible,
         Swept, Wrote, Called, Wrap, Genuine, DecodeOptions;
    if s.rst {
      RstSnd(c, s, env);
    } else if c.life.state == SynRcvd || c.life.state == Open {
      OpenSnd(c, s, env);
    } else {
      ConnCloseEnds(c, PROTOCOL, env);
      if c.life.state == Closed {
        var rst := Control(c, false, false, true, c.rcv.cur, []);
        ControlFlags(c, false, false, true);
        SendCmpSnd(c, rst, env);
        ConnCloseEnds(SendCmp(c, rst, env).conn, PROTOCOL, env);
        var c1 := SynReceived(c, s, env);
        var syn := Control(c1, true, true, false, c1.rcv.irs, []);
        ControlFlags(c1, true, true, false);
        SendCmpSnd(c1, syn, env);
      } else if c.life.state == SynSent {
        var c1 := SynAnswered(c, s, env);
        ControlFlags(c1, false, true, false);
        ControlFlags(c, false, false, true);
        SendCmpSnd(c1, Control(c1, false, true, false, c1.rcv.cur, []), env);
        SendCmpSnd(c, Control(c, false, false, true, c.rcv.cur, []), env);
      } else {
        var c1 := c.(snd := Acknowledged(c.snd, s));
        SendCmpSnd(c1, Control(c1, false, true, true, c1.rcv.cur, []), env);
      }
    }
  }

  lemma TimeoutsSnd(c: Conn, env: Env)
    requires c.life.inUse
    ensures SndMoves(c, CheckTimeouts(c, env).conn, Tick, env)
  {
    hide ConnClose, Service, Retransmit;
    ConnCloseEnds(c, EVERYBODY, env);
    ConnCloseEnds(c, PROTOCOL.Or(TIMEOUT), env);
    ServiceFrame(c, env);
  }

  lemma ConnectFailEnds(c: Conn, env: Env)
    requires c.life.inUse
    ensures Ends(c, ConnectFail(c, env).conn)
  {
    var c0 := c.(life := c.life.(requested := c.life.requested.Or(PROTOCOL)));
    RdpCloseFrame(c0, PROTOCOL, false, env);
    hide RdpClose, ConnClose;
    var (e, _) := RdpClose(c0, PROTOCOL, false, env);
    ConnCloseEnds(e.conn, USER, env);
  }

  lemma ConnectSnd(c: Conn, opts: Options, env: Env)
    requires Local(c) && !c.life.leased
    ensures SndMoves(c, Connect(c, opts, env).conn, Dial(opts), env)
  {
    var c1 := Connecting(c, opts, env);
    var syn := Control(c1, true, false, false, 0, EncodeOptions(opts));
    hide SendCmp, ConnectFail, EncodeOptions, Wrap;
    SendCmpSnd(c1, syn, env);
    ConnectFailEnds(SendCmp(c1, syn, env).conn, env);
  }

  lemma SendSnd(c: Conn, data: Data, env: Env)
    ensures SndMoves(c, Send(c, data, env).conn, Write(data), env)
  {
    assert CanSend(c, data, env) ==> c.life.state == Open;
    hide CanSend, Wrap, Listened, Called, Swept, GotAck, Misled, Reanswered;
  }

  lemma ApplySnd(c: Conn, op: Op, env: Env, inbox: set<Segment>)
    requires Local(c) && Enabled(c, inbox, op)
    ensures SndMoves(c, Apply(c, op, env).conn, op, env)
  {
    hide Connect, ConnectFail, CheckTimeouts, NewPacket, ConnClose, CheckAck, CanSend,
         Wrap, Genuine, InReceiveWindow;
    match op
    case Dial(opts) => ConnectSnd(c, opts, env);
    case Dialled =>
    case DialFailed => ConnectFailEnds(c, env);
    case Write(data) => SendSnd(c, data, env);
    case Fetch =>
      if c.rcv.rxQueue != [] {
        CheckAckFrame(c.(rcv := Unqueued(c.rcv)), env);
      }
    case HangUp =>
      ConnCloseEnds(c.(life := c.life.(userClosed := true)), USER, env);
    case Tick => TimeoutsSnd(c, env);
    case Receive(s) => ReceiveSnd(c, s, env, inbox);
  }

  lemma TickedSnd(c: Conn, e: Effect, yes: bool, op: Op, env: Env)
    requires SndMoves(c, e.conn, op, env)
    ensures SndMoves(c, Ticked(e, yes).conn, op, env)
  {
    hide InReceiveWindow, Retransmit, CanSend, Send, Acknowledged, DecodeOptions, EncodeOptions;
  }

  lemma AllocateSnd(c: Conn, d: Conn, s: Segment, env: Env)
    requires c.life.state == Closed && SndMoves(Allocate(c, env), d, Receive(s), env)
    ensures SndMoves(c, d, Receive(s), env)
  {
    hide InReceiveWindow, Retransmit, CanSend, Send, Acknowledged, DecodeOptions, EncodeOptions;
  }

  lemma ReceiveSnd(c: Conn, s: Segment, env: Env, inbox: set<Segment>)
    requires Local(c) && Enabled(c, inbox, Receive(s))
    ensures SndMoves(c, Apply(c, Receive(s), env).conn, Receive(s), env)
  {
    var c1 := if c.life.leased then c else Allocate(c, env);
    if !c.life.leased { AllocateLocal(c, env); }
    assert !c.life.leased ==> c.life.state == Closed;
    hide NewPacket, LocalStep, SndMoves, Allocate, SndOk, RcvOk;
    NewPacketSnd(c1, s, env);
    if !c.life.leased { AllocateSnd(c, NewPacket(c1, s, env).conn, s, env); }
    TickedSnd(c, NewPacket(c1, s, env), false, Receive(s), env);
  }

  // ---- the acknowledgement path from y back to x ----

  /** x may be at most this far ahead of its oldest unacknowledged segment before the
      signed 16-bit comparison of the send window flips. */
  function MaxLead(opts: Options): int {
    0x7FFE + opts.windowSize
  }

  predicate SendWindow(x: Conn, y: Conn) {
    && (x.life.state == Open ==>
          && y.rcv.established && x.snd.una == Wrap(x.snd.iss + x.snd.unaIx)
          && 1 <= x.snd.unaIx <= |y.rcv.delivered| + 1
          && |x.snd.accepted| <= x.snd.unaIx + MaxLead(x.opts))
    && (Synchronizing(x.life.state) && x.life.state != Open ==> x.snd.accepted == [])
    && (x.snd.accepted != [] ==> y.rcv.established)
    && |x.snd.accepted| <= |y.rcv.delivered| + x.opts.windowSize
  }

  predicate Back(y: Conn, back: set<Segment>) {
    && TxSays(y) && Untouched(y)
    && (forall s :: s in back ==> Truthful(s, y.rcv) && (Silent(y) ==> !s.ack) && Announces(s, y.opts))
  }

  /** Acknowledgements still in flight are not too old for the 16-bit send window. */
  predicate FreshAcks(x: Conn, back: set<Segment>) {
    forall s :: s in back && s.ack ==> |x.snd.accepted| <= s.ackIx + 1 + MaxLead(x.opts)
  }

  /** The 16-bit test of csp_rdp_is_conn_ready_for_tx lets a send through only when the
      real window has room, even though una may be stale. */
  lemma ReadyMeansRoom(c: Conn)
    requires SndOk(c.snd) && c.snd.started && c.snd.una == Wrap(c.snd.iss + c.snd.unaIx)
    requires |c.snd.accepted| <= c.snd.unaIx + MaxLead(c.opts)
    requires ReadyForTx(c)
    ensures |c.snd.accepted| + 1 <= c.snd.unaIx + c.opts.windowSize - 1
  {
    assert ReadyForTx(c) ==> !SeqAfter(Wrap(c.snd.iss + |c.snd.accepted| + 1),
                                       Wrap(c.snd.iss + c.snd.unaIx) + (c.opts.windowSize - 1));
    hide *;
    NotAfter(c.snd.iss + |c.snd.accepted| + 1, c.snd.iss + c.snd.unaIx, c.opts.windowSize - 1);
  }

  /** y's half of the acknowledgement path. */
  lemma BackSender(y: Conn, y': Conn, back: set<Segment>, out: seq<Segment>)
    requires Back(y, back) && Grows(y, y') && y.rcv.delivered <= y'.rcv.delivered
    requires Speaks(Effect(y', out)) && Untouched(y')
    requires y'.opts == y.opts || (forall s :: s in back ==> s.rst)
    requires y'.rcv.established && !y.rcv.established ==> Silent(y)
    requires Silent(y') ==> Silent(y)
    ensures Back(y', back + Leaving(y.cfg, out))
  {
    hide Wrap, EncodeOptions;
  }

  lemma StillSilent(y: Conn, y': Conn, op: Op, env: Env, inbox: set<Segment>)
    requires Local(y) && Local(y') && Enabled(y, inbox, op) && Grows(y, y') && SndMoves(y, y', op, env)
    ensures Silent(y') ==> Silent(y)
    ensures y'.opts == y.opts || !y.snd.started
  {
    hide Wrap, Genuine, Retransmit, CanSend, Send, DecodeOptions, EncodeOptions, SndOk, RcvOk,
         InReceiveWindow, Acknowledged;
  }

  lemma StillUntouched(y: Conn, y': Conn, op: Op, env: Env, inbox: set<Segment>)
    requires Untouched(y) && Local(y) && Enabled(y, inbox, op) && RcvMoves(y, y', op) && SndMoves(y, y', op, env)
    ensures Untouched(y')
  {
    FlushUnfold(y.cfg, y.rcv);
    hide Wrap, Genuine, Retransmit, CanSend, Send, DecodeOptions, EncodeOptions, InReceiveWindow, Acknowledged,
         Flush, TakeData;
    if y'.rcv.rxq != [] { assert y'.rcv.rxq[0] in y'.rcv.rxq; }
  }

  lemma DeliveredGrows(y: Conn, y': Conn, op: Op)
    requires RcvMoves(y, y', op)
    ensures y.rcv.delivered <= y'.rcv.delivered
    ensures y'.rcv.established && !y.rcv.established ==> y.life.server || y.life.state == SynSent
  {
    FlushFrame(y.cfg, y.rcv);
    if op.Receive? { TakeDataGrows(y.cfg, y.rcv, op.seg); }
    hide Flush, TakeData;
  }

  lemma BackStep(y: Conn, op: Op, env: Env, x: Conn, inbox: set<Segment>, back: set<Segment>)
    requires Local(y) && Enabled(y, inbox, op) && Back(y, back) && Link(y, x, back)
    ensures var e := Apply(y, op, env);
            Back(e.conn, back + Leaving(y.cfg, e.out)) && y.rcv.delivered <= e.conn.rcv.delivered
  {
    hide Apply, LifeOk, SndOk, RcvOk, Genuine, Silent, Truthful, Announces, TxSays, Untouched, RcvMoves, SndMoves, Says;
    ApplyRcv(y, op, env, inbox);
    ApplySnd(y, op, env, inbox);
    ApplyLocal(y, op, env, inbox);
    ApplySpeaks(y, op, env, inbox);
    var e := Apply(y, op, env);
    StillSilent(y, e.conn, op, env, inbox);
    StillUntouched(y, e.conn, op, env, inbox);
    DeliveredGrows(y, e.conn, op);
    assert e.conn.rcv.established && !y.rcv.established ==> Silent(y) by { SilentIf(y); }
    BackSender(y, e.conn, back, e.out);
  }

  lemma SilentIf(y: Conn)
    ensures !y.rcv.established && (y.life.server || y.life.state == SynSent) ==> Silent(y)
  {
  }

  // ---- the sender's half ----

  lemma AckMoves(x: Conn, x': Conn, y: Conn, s: Segment)
    requires SendWindow(x, y) && GotAck(x, x', s) && x'.opts == x.opts && x'.life.state == Open
    requires Truthful(s, y.rcv) && (y.rcv.established ==> x.snd.started && y.rcv.irs == x.snd.iss)
    requires |x.snd.accepted| <= s.ackIx + 1 + MaxLead(x.opts)
    ensures SendWindow(x', y)
  {
    assert y.rcv.established;
    WrapShift(x.snd.iss + s.ackIx, 1);
    hide Wrap;
  }

  lemma WriteMoves(x: Conn, x': Conn, y: Conn, data: Data, env: Env)
    requires SendWindow(x, y) && Wrote(x, x', data, env) && x'.opts == x.opts && x'.life.state == Open
    requires SndOk(x.snd) && x.snd.started
    ensures SendWindow(x', y)
  {
    ReadyMeansRoom(x);
    hide Wrap, ReadyForTx;
  }

  predicate Routine(x: Conn, x': Conn, op: Op, env: Env) {
    || (x'.opts == x.opts && StaysPut(x, x'))
    || (x'.opts == x.opts && op == Tick && Swept(x, x', env))
    || (x'.opts == x.opts && op.Receive? && Misled(x, x', op.seg))
    || (x'.opts == x.opts && op.Receive? && Reanswered(x, x', op.seg))
    || (op.Receive? && Listened(x, x', op.seg))
    || (op.Dial? && Called(x, x', op.opts))
  }

  lemma RoutineMoves(x: Conn, x': Conn, y: Conn, op: Op, env: Env)
    requires SendWindow(x, y) && Synchronizing(x'.life.state) && Routine(x, x', op, env)
    ensures SendWindow(x', y)
  {
    hide Retransmit, Wrap, DecodeOptions, EncodeOptions, InReceiveWindow;
  }

  lemma WroteOpen(x: Conn, x': Conn, data: Data, env: Env)
    requires Wrote(x, x', data, env)
    ensures x.life.state == Open
  {
  }

  lemma LocalFacts(x: Conn)
    requires Local(x)
    ensures x.life.state == Open ==> x.snd.started
    ensures !x.life.leased ==> x.snd.accepted == []
  {
  }

  lemma WindowStep(x: Conn, op: Op, env: Env, y: Conn, back: set<Segment>)
    requires Local(x) && Enabled(x, back, op) && SendWindow(x, y) && FreshAcks(x, back)
    requires Link(x, y, {}) && Back(y, back)
    ensures SendWindow(Apply(x, op, env).conn, y)
  {
    ApplySnd(x, op, env, back);
    var x' := Apply(x, op, env).conn;
    LocalFacts(x);
    hide Apply, Wrote, Swept, StaysPut, Misled, Reanswered, Listened, Called, Silent, TxSays, Truthful, RcvOk, Stocked,
         LifeOk, SndOk;
    if !Synchronizing(x'.life.state) {
      hide GotAck;
    } else if op.Write? && Wrote(x, x', op.data, env) && x'.opts == x.opts && x'.life.state == Open {
      hide GotAck;
      assert x.life.state == Open by { WroteOpen(x, x', op.data, env); }
      WriteMoves(x, x', y, op.data, env);
    } else if op.Receive? && GotAck(x, x', op.seg) && x'.opts == x.opts && x'.life.state == Open {
      AckMoves(x, x', y, op.seg);
    } else {
      hide SendWindow, GotAck;
      assert Routine(x, x', op, env);
      RoutineMoves(x, x', y, op, env);
    }
  }

  // ---- both directions ----

  /** The passive side runs with the options of the active side. */
  predicate Agreed(n: Net) {
    n.server.rcv.established ==> n.server.opts == n.client.opts
  }

  predicate WindowInv(n: Net) {
    && Inv(n) && Agreed(n)
    && SendWindow(n.client, n.server) && SendWindow(n.server, n.client)
    && Back(n.client, n.toServer) && Back(n.server, n.toClient)
  }

  /** Nothing that is still around is so old that a 16-bit number can be mistaken: data is
      less than 65535 payloads behind its sender, acknowledgements less than half the number
      space plus the window, and the window itself fits the number space. */
  predicate Young(n: Net) {
    && NothingStale(n.client, n.server, n.toServer) && NothingStale(n.server, n.client, n.toClient)
    && FreshAcks(n.client, n.toClient) && FreshAcks(n.server, n.toServer)
    && n.client.opts.windowSize <= 0xFFFF && n.server.opts.windowSize <= 0xFFFF
  }

  lemma YoungIsClear(n: Net)
    requires WindowInv(n) && Young(n)
    ensures Clear(n)
  {
    hide Inv, Back, NothingStale, FreshAcks;
  }

  lemma SendWindowReceiver(x: Conn, y: Conn, y': Conn)
    requires SendWindow(x, y) && Grows(y, y') && y.rcv.delivered <= y'.rcv.delivered
    ensures SendWindow(x, y')
  {
    hide Wrap;
  }

  lemma AgreedClient(c: Conn, op: Op, env: Env, sv: Conn, inbox: set<Segment>)
    requires Local(c) && Enabled(c, inbox, op) && (sv.rcv.established ==> sv.opts == c.opts && c.snd.started)
    ensures sv.rcv.established ==> sv.opts == Apply(c, op, env).conn.opts
  {
    ApplySnd(c, op, env, inbox);
    ApplyLocal(c, op, env, inbox);
    hide Apply, SndMoves, Local, Sends;
    StillSilent(c, Apply(c, op, env).conn, op, env, inbox);
  }

  lemma AgreedServer(sv: Conn, op: Op, env: Env, c: Conn, inbox: set<Segment>)
    requires Local(sv) && sv.life.server && Enabled(sv, inbox, op) && Back(c, inbox)
    requires sv.rcv.established ==> sv.opts == c.opts
    ensures Apply(sv, op, env).conn.rcv.established ==> Apply(sv, op, env).conn.opts == c.opts
  {
    ApplySnd(sv, op, env, inbox);
    ApplyRcv(sv, op, env, inbox);
    ApplyLocal(sv, op, env, inbox);
    var d := Apply(sv, op, env).conn;
    hide Apply, SndMoves, Sends, Flush, TakeData, Wrap, Genuine, SndOk, RcvOk, DecodeOptions, EncodeOptions,
         Truthful, TxSays;
    if sv.rcv.established {
      StillSilent(sv, d, op, env, inbox);
    } else if d.rcv.established {
      FlushFrame(sv.cfg, sv.rcv);
      assert op.Receive? && Opened(sv, d, op.seg);
      OptionsRoundTrip(c.opts);
    }
  }

  lemma WindowNext(n: Net, ev: Event)
    requires WindowInv(n) && Young(n) && n.server.life.server
    ensures WindowInv(Next(n, ev))
  {
    YoungIsClear(n);
    InvNext(n, ev);
    hide Apply, Unambiguous, Local, Clear, NothingStale, FreshAcks, Back, SendWindow, Silent;
    match ev
    case Lose(_, _) => LoseKeeps(n, ev);
    case Do(Client, op, env) =>
      if Enabled(n.client, n.toClient, op) { ClientKeeps(n, op, env); }
    case Do(Server, op, env) =>
      if Enabled(n.server, n.toServer, op) { ServerKeeps(n, op, env); }
  }

  lemma LoseKeeps(n: Net, ev: Event)
    requires WindowInv(n) && ev.Lose?
    ensures Inv(Next(n, ev)) ==> WindowInv(Next(n, ev))
  {
    hide Inv, SendWindow, Truthful, Silent, Announces, TxSays;
  }

  lemma EmptyLink(x: Conn, y: Conn, ch: set<Segment>)
    requires Link(x, y, ch)
    ensures Link(x, y, {})
  {
  }

  lemma ClientKeeps(n: Net, op: Op, env: Env)
    requires WindowInv(n) && Young(n) && Enabled(n.client, n.toClient, op)
    ensures var m := Next(n, Do(Client, op, env)); Inv(m) ==> WindowInv(m)
  {
    hide Apply, Unambiguous, Local, NothingStale, FreshAcks, Back, SendWindow, Silent, Enabled, Grows, Sends;
    var c, sv := n.client, n.server;
    ApplyLocal(c, op, env, n.toClient);
    EmptyLink(c, sv, n.toServer);
    WindowStep(c, op, env, sv, n.toClient);
    BackStep(c, op, env, sv, n.toClient, n.toServer);
    SendWindowReceiver(sv, c, Apply(c, op, env).conn);
    AgreedClient(c, op, env, sv, n.toClient);
    hide Link;
  }

  lemma ServerKeeps(n: Net, op: Op, env: Env)
    requires WindowInv(n) && Young(n) && n.server.life.server && Enabled(n.server, n.toServer, op)
    ensures var m := Next(n, Do(Server, op, env)); Inv(m) ==> WindowInv(m)
  {
    hide Apply, Unambiguous, Local, NothingStale, FreshAcks, Back, SendWindow, Silent, Enabled, Grows, Sends;
    var c, sv := n.client, n.server;
    ApplyLocal(sv, op, env, n.toServer);
    EmptyLink(sv, c, n.toClient);
    WindowStep(sv, op, env, c, n.toServer);
    BackStep(sv, op, env, c, n.toServer, n.toClient);
    SendWindowReceiver(c, sv, Apply(sv, op, env).conn);
    AgreedServer(sv, op, env, c, n.toServer);
    hide Link;
  }

  predicate Passive(n: Net) {
    n.server.life.server && !n.client.life.server
  }

  lemma {:induction false} RunWindow(n: Net, evs: seq<Event>)
    requires Init(n) && forall i :: 0 <= i < |evs| ==> Young(Run(n, evs[..i]))
    ensures WindowInv(Run(n, evs)) && Passive(Run(n, evs))
    decreases |evs|
  {
    if evs == [] {
      InitInv(n);
    } else {
      var p := evs[..|evs| - 1];
      var m := Run(n, p);
      assert Young(m);
      forall i | 0 <= i < |p| ensures Young(Run(n, p[..i])) {
        assert p[..i] == evs[..i];
      }
      hide Young, Next, WindowInv, Inv;
      RunWindow(n, p);
      assert WindowInv(m) ==> Inv(m) && BothLocal(m) by { InvIsLocal(m); }
      WindowNext(m, evs[|evs| - 1]);
      LocalNext(m, evs[|evs| - 1]);
    }
  }

  lemma InvIsLocal(n: Net)
    ensures WindowInv(n) ==> Inv(n) && BothLocal(n)
  {
    hide Local, Link, SendWindow, Back;
  }

  /** The unbounded form of end-to-end safety: no limit on the number of payloads, provided
      nothing outlives its 16-bit number. */
  lemma EndToEndUnbounded(n: Net, evs: seq<Event>)
    requires Init(n) && forall i :: 0 <= i < |evs| ==> Young(Run(n, evs[..i]))
    ensures PrefixDelivered(Run(n, evs))
  {
    RunWindow(n, evs);
    hide Run, Local, Back, SendWindow, Young;
  }

  /** x is never more than its window ahead of y, and every payload of x that is in flight
      and not yet delivered passes y's receive-window test. */
  predicate WithinWindow(x: Conn, y: Conn, ch: set<Segment>) {
    && |x.snd.accepted| <= |y.rcv.delivered| + x.opts.windowSize
    && forall s :: s in ch && !s.rst && !s.syn && s.data != [] ==>
         && s.seqIx <= |y.rcv.delivered| + x.opts.windowSize
         && (s.seqIx > |y.rcv.delivered| && x.opts.windowSize <= 0x8000 ==> InReceiveWindow(y, s))
  }

  lemma PassesWindow(x: Conn, y: Conn, s: Segment)
    requires y.rcv.established && RcvOk(y.rcv) && y.rcv.irs == x.snd.iss && y.opts == x.opts
    requires Genuine(s, x.snd.iss, x.snd.accepted)
    requires |y.rcv.delivered| < s.seqIx <= |y.rcv.delivered| + x.opts.windowSize && x.opts.windowSize <= 0x8000
    ensures InReceiveWindow(y, s)
  {
    var d := x.snd.iss + |y.rcv.delivered|;
    WrapSum(x.snd.iss + s.seqIx, -1, d);
    assert s.seqNr - (y.rcv.cur + 1) == Wrap(x.snd.iss + s.seqIx) + -1 - Wrap(d);
    assert Wrap(s.seqNr - (y.rcv.cur + 1)) == Wrap(s.seqIx - 1 - |y.rcv.delivered|);
    hide Wrap, Genuine, RcvOk, SeqBetween;
    WindowWidth(y.rcv.cur, x.opts.windowSize, s.seqNr, s.seqIx - 1 - |y.rcv.delivered|);
  }

  lemma WindowWidth(cur: u16, w: u32, nr: u16, off: int)
    requires w <= 0x8000 && 0 <= off <= w && Wrap(nr - (cur + 1)) == Wrap(off)
    ensures SeqBetween(nr, cur + 1, cur + w * 2)
  {
    assert cur + w * 2 - (cur + 1) == 2 * w - 1;
  }

  lemma WindowFromInv(x: Conn, y: Conn, ch: set<Segment>)
    requires Link(x, y, ch) && Local(y) && SendWindow(x, y)
    requires y.rcv.established && x.snd.accepted != [] ==> y.opts == x.opts
    ensures WithinWindow(x, y, ch)
  {
    forall s | s in ch && !s.rst && !s.syn && s.data != []
      ensures s.seqIx <= |y.rcv.delivered| + x.opts.windowSize
      ensures s.seqIx > |y.rcv.delivered| && x.opts.windowSize <= 0x8000 ==> InReceiveWindow(y, s)
    {
      if s.seqIx > |y.rcv.delivered| && x.opts.windowSize <= 0x8000 {
        PassesWindow(x, y, s);
      }
    }
  }

  /** In every run in which nothing outlives its 16-bit number, despite stale
      acknowledgements that move una back, neither side runs more than a window ahead of what
      the other delivered, so no payload is refused as lying beyond the receive window. */
  lemma NeverBeyondWindow(n: Net, evs: seq<Event>)
    requires Init(n) && forall i :: 0 <= i < |evs| ==> Young(Run(n, evs[..i]))
    ensures var m := Run(n, evs);
            WithinWindow(m.client, m.server, m.toServer) && WithinWindow(m.server, m.client, m.toClient)
  {
    RunWindow(n, evs);
    var m := Run(n, evs);
    assert m.client.rcv.established ==> m.server.rcv.established by {
      assert Passive(m);
      hide Run, Back, SendWindow, Young, SndOk, RcvOk, Genuine, Stocked;
    }
    hide Run, Local, Back, SendWindow, Young;
    WindowFromInv(m.client, m.server, m.toServer);
    WindowFromInv(m.server, m.client, m.toClient);
  }
}
