/** What an open connection keeps so that its next payload can still get through, and the fact that
    nothing but payloads that are not empty and fit a packet is ever delivered. */
module RdpProgress {
  import opened SeqNumbers
  import opened Rdp
  import opened RdpFrames
  import opened RdpNet
  import opened RdpLocal
  import opened RdpEndToEnd
  import opened RdpWindow
  import opened RdpRetention

  /** A payload that leaves the sender and is not mistaken for a bare acknowledgement. */
  predicate Deliverable(cfg: Config, d: Data) {
    d != [] && Fits(cfg, d)
  }

  predicate AllDeliverable(cfg: Config, ds: seq<Data>) {
    forall i :: 0 <= i < |ds| ==> Deliverable(cfg, ds[i])
  }

  // ---- nothing else is ever delivered, in any run ----

  /** On the way from a sender with this configuration to r. */
  predicate Carried(cfg: Config, r: Rcv, ch: set<Segment>) {
    && (forall s :: s in ch ==> Fits(cfg, s.data))
    && (forall s :: s in r.rxq ==> Deliverable(cfg, s.data))
    && AllDeliverable(cfg, r.delivered)
  }

  lemma {:induction false} FlushCarried(own: Config, cfg: Config, r: Rcv, ch: set<Segment>)
    requires Carried(cfg, r, ch)
    ensures Carried(cfg, Flush(own, r), ch)
    decreases |r.rxq|
  {
    FlushUnfold(own, r);
    hide Flush, FindSeq, Fits;
    var f := FindSeq(r.rxq, Wrap(r.cur + 1));
    if own.rxQueueLen - |r.rxQueue| > 2 && f.Some? {
      FlushOneFrame(r, f.value);
      assert r.rxq[f.value] in r.rxq;
      FlushCarried(own, cfg, FlushOne(r, f.value), ch);
    }
  }

  lemma TakeDataCarried(own: Config, cfg: Config, r: Rcv, ch: set<Segment>, s: Segment)
    requires Carried(cfg, r, ch) && s in ch
    ensures Carried(cfg, TakeData(own, r, s), ch)
  {
    hide Flush, Fits, FindSeq, Wrap;
    if !s.eak && s.data != [] && s.seqNr == Wrap(r.cur + 1) {
      FlushCarried(own, cfg, DeliverNext(r, s.data), ch);
    }
  }

  lemma CarriedReceiver(cfg: Config, y: Conn, op: Op, env: Env, ch: set<Segment>)
    requires Local(y) && Enabled(y, ch, op) && Carried(cfg, y.rcv, ch)
    ensures Carried(cfg, Apply(y, op, env).conn.rcv, ch)
  {
    ApplyRcv(y, op, env, ch);
    hide Apply, Flush, TakeData, Fits, LifeOk, SndOk, RcvOk, DecodeOptions;
    var y' := Apply(y, op, env).conn;
    if op == Tick && y'.rcv == Flush(y.cfg, y.rcv) {
      FlushCarried(y.cfg, cfg, y.rcv, ch);
    } else if op.Receive? && Took(y, y', op.seg) {
      TakeDataCarried(y.cfg, cfg, y.rcv, ch, op.seg);
    }
  }

  // ---- the configuration never changes ----

  lemma SendCmpCfg(c: Conn, s: Segment, env: Env)
    ensures SendCmp(c, s, env).conn.cfg == c.cfg
  {
  }

  lemma CloseCfg(c: Conn, who: Closers, env: Env)
    ensures ConnClose(c, who, env).conn.cfg == c.cfg && DiscardClose(c, who, env).conn.cfg == c.cfg
  {
    ConnCloseFrame(c, who, env);
    DiscardCloseFrame(c, who, env);
    hide ConnClose, DiscardClose;
  }

  lemma ConnectFailCfg(c: Conn, env: Env)
    ensures ConnectFail(c, env).conn.cfg == c.cfg
  {
    var c0 := c.(life := c.life.(requested := c.life.requested.Or(PROTOCOL)));
    RdpCloseFrame(c0, PROTOCOL, false, env);
    hide RdpClose, ConnClose;
    CloseCfg(RdpClose(c0, PROTOCOL, false, env).0.conn, USER, env);
  }

  lemma ConnectCfg(c: Conn, opts: Options, env: Env)
    ensures Connect(c, opts, env).conn.cfg == c.cfg
  {
    hide SendCmp, ConnectFail, Control, EncodeOptions;
    var c1 := Connecting(c, opts, env);
    var syn := Control(c1, true, false, false, 0, EncodeOptions(opts));
    SendCmpCfg(c1, syn, env);
    ConnectFailCfg(SendCmp(c1, syn, env).conn, env);
  }

  lemma RstCfg(c0: Conn, s: Segment, env: Env)
    ensures ReceiveRst(c0, s, env).conn.cfg == c0.cfg
  {
    hide ConnClose, DiscardClose, SendCmp, Control;
    var c := if s.ack then c0.(snd := Acknowledged(c0.snd, s)) else c0;
    CloseCfg(c, USER, env);
    CloseCfg(c, if s.ack then PROTOCOL.Or(TIMEOUT) else PROTOCOL, env);
    var c1 := c.(life := c.life.(state := CloseWait), clocks := c.clocks.(timestamp := env.now));
    var rst := Control(c1, false, true, true, c1.rcv.cur, []);
    SendCmpCfg(c1, rst, env);
    CloseCfg(SendCmp(c1, rst, env).conn, PROTOCOL.Or(TIMEOUT), env);
  }

  lemma NewPacketCfg(c: Conn, s: Segment, env: Env)
    ensures NewPacket(c, s, env).conn.cfg == c.cfg
  {
    hide ConnClose, DiscardClose, SendCmp, Control, ReceiveRst, ReceiveData, InReceiveWindow, AckPlausible,
         DecodeOptions;
    RstCfg(c, s, env);
    CloseCfg(c, PROTOCOL, env);
    var rst := Control(c, false, false, true, c.rcv.cur, []);
    SendCmpCfg(c, rst, env);
    CloseCfg(SendCmp(c, rst, env).conn, PROTOCOL, env);
    var c1 := SynReceived(c, s, env);
    SendCmpCfg(c1, Control(c1, true, true, false, c1.rcv.irs, []), env);
    var c2 := SynAnswered(c, s, env);
    SendCmpCfg(c2, Control(c2, false, true, false, c2.rcv.cur, []), env);
    var c3 := c.(snd := Acknowledged(c.snd, s));
    SendCmpCfg(c3, Control(c3, false, true, true, c3.rcv.cur, []), env);
    SendCmpCfg(c, Control(c, true, true, false, c.rcv.irs, []), env);
    CloseCfg(c.(life := Promote(c.life, env)), PROTOCOL, env);
    ReceiveDataFrame(Accepted(c, s, env), s, env);
  }

  lemma ApplyCfg(c: Conn, op: Op, env: Env)
    ensures Apply(c, op, env).conn.cfg == c.cfg
  {
    hide Connect, ConnectFail, Service, NewPacket, ConnClose, CheckAck, CanSend, Wrap;
    match op
    case Dial(opts) => ConnectCfg(c, opts, env);
    case Dialled =>
    case DialFailed => ConnectFailCfg(c, env);
    case Write(data) =>
    case Fetch =>
      if c.rcv.rxQueue != [] {
        CheckAckFrame(c.(rcv := Unqueued(c.rcv)), env);
      }
    case HangUp => CloseCfg(c.(life := c.life.(userClosed := true)), USER, env);
    case Tick =>
      CloseCfg(c, EVERYBODY, env);
      CloseCfg(c, PROTOCOL.Or(TIMEOUT), env);
      ServiceFrame(c, env);
    case Receive(s) => NewPacketCfg(if c.life.leased then c else Allocate(c, env), s, env);
  }

  // ---- every run ----

  predicate CarriedBoth(n: Net) {
    Carried(n.client.cfg, n.server.rcv, n.toServer) && Carried(n.server.cfg, n.client.rcv, n.toClient)
  }

  lemma CarriedNext(n: Net, ev: Event)
    requires BothLocal(n) && CarriedBoth(n)
    ensures CarriedBoth(Next(n, ev))
    ensures Next(n, ev).client.cfg == n.client.cfg && Next(n, ev).server.cfg == n.server.cfg
  {
    hide Apply, Local, Deliverable, Enabled;
    match ev
    case Lose(_, _) =>
    case Do(Client, op, env) =>
      if Enabled(n.client, n.toClient, op) {
        ApplyCfg(n.client, op, env);
        CarriedReceiver(n.server.cfg, n.client, op, env, n.toClient);
      }
    case Do(Server, op, env) =>
      if Enabled(n.server, n.toServer, op) {
        ApplyCfg(n.server, op, env);
        CarriedReceiver(n.client.cfg, n.server, op, env, n.toServer);
      }
  }

  /** In every run without exception, whatever is delivered is not empty and fits. */
  lemma {:induction false} RunCarried(n: Net, evs: seq<Event>)
    requires Init(n)
    ensures var m := Run(n, evs);
            CarriedBoth(m) && m.client.cfg == n.client.cfg && m.server.cfg == n.server.cfg
    decreases |evs|
  {
    if evs != [] {
      var p := evs[..|evs| - 1];
      RunCarried(n, p);
      RunLocal(n, p);
      hide Next, CarriedBoth, BothLocal;
      CarriedNext(Run(n, p), evs[|evs| - 1]);
    }
  }

  // ---- three more things an open connection keeps ----

  /** A connection that is open belongs to user space. */
  predicate Unbound(l: Life) {
    l.state == Open ==> !l.hasSocket
  }

  /** Queued data segments carry an acknowledgement. */
  predicate PlainSnd(snd: Snd) {
    forall t :: t in snd.txq && !t.seg.syn ==> t.seg.ack && !t.seg.eak
  }

  predicate Plain(x: Conn) {
    x.life.state == Open ==> PlainSnd(x.snd)
  }

  /** No acknowledgement that x ever took claimed more than y had delivered. */
  predicate Honest(x: Conn, y: Conn) {
    Synchronizing(x.life.state) ==> x.snd.hiIx <= |y.rcv.delivered| + 1
  }

  lemma OpenUnbound(c: Conn, s: Segment, env: Env)
    requires Local(c) && (c.life.state == SynRcvd || c.life.state == Open) && !s.rst && Unbound(c.life)
    ensures Unbound(ReceiveOpen(c, s, env).conn.life)
  {
    AcceptedSnd(c, s, env);
    hide DiscardClose, SendCmp, Control, ReceiveData, InReceiveWindow, AckPlausible, SndOk, RcvOk;
    ConnCloseEnds(c, PROTOCOL, env);
    ConnCloseEnds(c.(life := Promote(c.life, env)), PROTOCOL, env);
    SendCmpSnd(c, Control(c, true, true, false, c.rcv.irs, []), env);
    ReceiveDataFrame(Accepted(c, s, env), s, env);
  }

  lemma RstUnbound(c: Conn, s: Segment, env: Env)
    requires c.life.state == Open && c.life.inUse && s.rst && Unbound(c.life)
    ensures Unbound(ReceiveRst(c, s, env).conn.life)
  {
    hide ConnClose, DiscardClose, SendCmp, Control;
    var c0 := if s.ack then c.(snd := Acknowledged(c.snd, s)) else c;
    var c1 := c0.(life := c0.life.(state := CloseWait), clocks := c0.clocks.(timestamp := env.now));
    var rst := Control(c1, false, true, true, c1.rcv.cur, []);
    SendCmpSnd(c1, rst, env);
    ConnCloseEnds(SendCmp(c1, rst, env).conn, PROTOCOL.Or(TIMEOUT), env);
  }

  /** Otherwise only a client, which never had a socket, can become open. */
  lemma ElseUnbound(c: Conn, d: Conn, s: Segment, env: Env)
    requires Local(c) && Local(d) && d.life.server == c.life.server && SndMoves(c, d, Receive(s), env)
    requires s.rst || (c.life.state != SynRcvd && c.life.state != Open)
    requires !s.rst || c.life.state != Open
    ensures Unbound(d.life)
  {
    hide SndOk, RcvOk, Retransmit, CanSend, InReceiveWindow, Acknowledged, Send, DecodeOptions, EncodeOptions;
  }

  lemma NewPacketUnbound(c: Conn, s: Segment, env: Env)
    requires Local(c) && c.life.inUse && Unbound(c.life)
    ensures Unbound(NewPacket(c, s, env).conn.life)
  {
    NewPacketSnd(c, s, env);
    NewPacketLocal(c, s, env);
    hide ReceiveOpen, ReceiveRst, SndMoves, Local, Unbound;
    if !s.rst && (c.life.state == SynRcvd || c.life.state == Open) {
      OpenUnbound(c, s, env);
    } else if s.rst && c.life.state == Open {
      RstUnbound(c, s, env);
    } else {
      hide NewPacket;
      ElseUnbound(c, NewPacket(c, s, env).conn, s, env);
    }
  }

  lemma ApplyUnbound(c: Conn, op: Op, env: Env, inbox: set<Segment>)
    requires Local(c) && Enabled(c, inbox, op) && Unbound(c.life)
    ensures Unbound(Apply(c, op, env).conn.life)
  {
    ApplySnd(c, op, env, inbox);
    ApplyLocal(c, op, env, inbox);
    if op.Receive? {
      var c1 := if c.life.leased then c else Allocate(c, env);
      if !c.life.leased { AllocateLocal(c, env); }
      assert Unbound(c1.life);
      hide NewPacket, Local;
      NewPacketUnbound(c1, op.seg, env);
    } else if op == Tick {
      hide ConnClose, Service, SndOk, RcvOk;
      ServiceFrame(c, env);
      ConnCloseEnds(c, EVERYBODY, env);
      ConnCloseEnds(c, PROTOCOL.Or(TIMEOUT), env);
    } else {
      OpenOtherwise(c, op, env, inbox);
    }
  }

  lemma OpenOtherwise(c: Conn, op: Op, env: Env, inbox: set<Segment>)
    requires Local(c) && Enabled(c, inbox, op) && Unbound(c.life) && !op.Receive? && op != Tick
    ensures Unbound(Apply(c, op, env).conn.life)
  {
    if Apply(c, op, env).conn.life.state == Open {
      OnlyThese(c, op, env, inbox);
      if op.Fetch? && c.rcv.rxQueue != [] {
        CheckAckFrame(c.(rcv := Unqueued(c.rcv)), env);
      }
      hide CheckAck, CanSend, Local, Wrap;
    }
  }

  lemma PlainSweep(x: Conn, x': Conn, env: Env)
    requires Swept(x, x', env) && Plain(x)
    ensures Plain(x')
  {
    RetransmitFrame(x.snd.txq, x, env.now, env.retransmitMem);
    hide Retransmit;
  }

  lemma PlainWrite(x: Conn, x': Conn, data: Data, env: Env)
    requires Wrote(x, x', data, env) && Plain(x)
    ensures Plain(x')
  {
    hide Wrap, CanSend;
  }

  /** Only a SYN is queued before the handshake is over. */
  lemma PlainOpens(x: Conn, x': Conn, s: Segment)
    requires GotAck(x, x', s) && Kept(x) && SndOk(x.snd) && Plain(x)
    ensures Plain(x')
  {
    hide KeptOpen;
  }

  lemma PlainStep(x: Conn, op: Op, env: Env, inbox: set<Segment>)
    requires Local(x) && Enabled(x, inbox, op) && Kept(x) && Plain(x)
    ensures Plain(Apply(x, op, env).conn)
  {
    var x' := Apply(x, op, env).conn;
    if x'.life.state == Open {
      ApplySnd(x, op, env, inbox);
      hide Apply, Enabled, LifeOk, RcvOk, SndOk, Kept, Swept, Wrote, GotAck, PlainSnd;
      if op == Tick {
        PlainSweep(x, x', env);
      } else if op.Write? && Wrote(x, x', op.data, env) {
        PlainWrite(x, x', op.data, env);
      } else if op.Receive? && GotAck(x, x', op.seg) {
        PlainOpens(x, x', op.seg);
      }
    }
  }

  lemma HonestMove(x: Conn, x': Conn, op: Op, env: Env, y: Conn)
    requires SndMoves(x, x', op, env) && Honest(x, y)
    requires op.Receive? && op.seg.ack ==> op.seg.ackIx <= |y.rcv.delivered|
    ensures Honest(x', y)
  {
    hide Retransmit, Wrap, DecodeOptions, EncodeOptions, InReceiveWindow, CanSend;
  }

  lemma HonestSender(x: Conn, op: Op, env: Env, y: Conn, back: set<Segment>)
    requires Local(x) && Enabled(x, back, op) && Honest(x, y) && Back(y, back)
    ensures Honest(Apply(x, op, env).conn, y)
  {
    assert op.Receive? ==> op.seg in back && Truthful(op.seg, y.rcv);
    hide Apply, SndMoves, Local, Enabled, Back;
    ApplySnd(x, op, env, back);
    HonestMove(x, Apply(x, op, env).conn, op, env, y);
  }

  lemma HonestReceiver(x: Conn, y: Conn, op: Op, env: Env, inbox: set<Segment>)
    requires Local(y) && Enabled(y, inbox, op) && Honest(x, y)
    ensures Honest(x, Apply(y, op, env).conn)
  {
    ApplyRcv(y, op, env, inbox);
    hide Apply, RcvMoves, Local, Enabled;
    DeliveredGrows(y, Apply(y, op, env).conn, op);
  }

  // ---- every run ----

  /** What the progress argument knows about a direction. */
  predicate Ready(x: Conn, y: Conn) {
    Unbound(x.life) && Plain(x) && Honest(x, y)
  }

  predicate ProgressInv(n: Net) {
    RetentionInv(n) && Ready(n.client, n.server) && Ready(n.server, n.client)
  }

  lemma ReadyStep(x: Conn, op: Op, env: Env, y: Conn, back: set<Segment>)
    requires Local(x) && Enabled(x, back, op) && Kept(x) && Back(y, back) && Ready(x, y) && Ready(y, x)
    ensures Ready(Apply(x, op, env).conn, y) && Ready(y, Apply(x, op, env).conn)
  {
    hide Apply, Local, Enabled, Kept, Back, Unbound, Plain, Honest;
    ApplyUnbound(x, op, env, back);
    PlainStep(x, op, env, back);
    HonestSender(x, op, env, y, back);
    HonestReceiver(y, x, op, env, back);
  }

  lemma ReadyNext(n: Net, ev: Event)
    requires ProgressInv(n)
    ensures var m := Next(n, ev); Ready(m.client, m.server) && Ready(m.server, m.client)
  {
    hide Apply, Local, Kept, Back, SendWindow, Link, Enabled, Agreed, Ready;
    match ev
    case Lose(_, _) =>
    case Do(Client, op, env) =>
      if Enabled(n.client, n.toClient, op) { ReadyStep(n.client, op, env, n.server, n.toClient); }
    case Do(Server, op, env) =>
      if Enabled(n.server, n.toServer, op) { ReadyStep(n.server, op, env, n.client, n.toServer); }
  }

  lemma ProgressNext(n: Net, ev: Event)
    requires ProgressInv(n) && Settled(n)
    ensures ProgressInv(Next(n, ev))
  {
    hide WindowInv, Kept, Ready, Young, TightNet, Next;
    ReadyNext(n, ev);
    RetentionNext(n, ev);
    WindowNext(n, ev);
    InvIsLocal(n);
    hide BothLocal;
    LocalNext(n, ev);
  }

  lemma {:induction false} RunProgress(n: Net, evs: seq<Event>)
    requires Init(n) && forall i :: 0 <= i < |evs| ==> Settled(Run(n, evs[..i]))
    ensures ProgressInv(Run(n, evs))
    decreases |evs|
  {
    RunRetention(n, evs);
    if evs != [] {
      var p := evs[..|evs| - 1];
      assert Settled(Run(n, p));
      forall i | 0 <= i < |p| ensures Settled(Run(n, p[..i])) {
        assert p[..i] == evs[..i];
      }
      hide Settled, Next, RetentionInv, Ready;
      RunProgress(n, p);
      ReadyNext(Run(n, p), evs[|evs| - 1]);
    }
  }
}
