/** End-to-end safety of RDP: what the receiver is given is what the sender's user sent. */
module RdpEndToEnd {
  import opened SeqNumbers
  import opened Rdp
  import opened RdpFrames
  import opened RdpNet
  import opened RdpLocal

  // ---- how the receiving half can move ----

  predicate Inert(r: Rcv, r': Rcv) {
    && r'.delivered == r.delivered && r'.established == r.established && r'.irs == r.irs
    && (forall s :: s in r'.rxq ==> s in r.rxq)
  }

  predicate Opened(c: Conn, d: Conn, s: Segment) {
    && !s.rst && s.syn && (c.life.server || c.life.state == SynSent)
    && (c.life.server ==> !s.ack && d.opts == DecodeOptions(s.data))
    && !c.rcv.established && d.rcv.established && d.rcv.irs == s.seqNr
    && d.rcv.delivered == c.rcv.delivered && d.rcv.rxq == c.rcv.rxq
  }

  predicate Took(c: Conn, d: Conn, s: Segment) {
    && !s.rst && !s.syn && c.rcv.established && d.life.state == Open
    && d.rcv == TakeData(c.cfg, c.rcv, s)
  }

  predicate RcvMoves(c: Conn, d: Conn, op: Op) {
    || Inert(c.rcv, d.rcv)
    || (op == Tick && d.rcv == Flush(c.cfg, c.rcv))
    || (op.Receive? && (Opened(c, d, op.seg) || Took(c, d, op.seg)))
  }

  lemma ConnCloseInert(c: Conn, who: Closers, env: Env)
    ensures Inert(c.rcv, ConnClose(c, who, env).conn.rcv)
  {
    ConnCloseFrame(c, who, env);
    hide ConnClose;
  }

  lemma DiscardCloseInert(c: Conn, who: Closers, env: Env)
    ensures Inert(c.rcv, DiscardClose(c, who, env).conn.rcv)
  {
    DiscardCloseFrame(c, who, env);
    hide DiscardClose;
  }

  lemma SendCmpInert(c: Conn, s: Segment, env: Env)
    ensures SendCmp(c, s, env).conn.rcv == c.rcv && SendCmp(c, s, env).conn.opts == c.opts
  {
  }

  lemma RstInert(c0: Conn, s: Segment, env: Env)
    ensures Inert(c0.rcv, ReceiveRst(c0, s, env).conn.rcv)
  {
    hide ConnClose, DiscardClose, SendCmp, Control;
    var c := if s.ack then c0.(snd := Acknowledged(c0.snd, s)) else c0;
    ConnCloseInert(c, USER, env);
    DiscardCloseInert(c, if s.ack then PROTOCOL.Or(TIMEOUT) else PROTOCOL, env);
    var c1 := c.(life := c.life.(state := CloseWait), clocks := c.clocks.(timestamp := env.now));
    var e := SendCmp(c1, Control(c1, false, true, true, c1.rcv.cur, []), env);
    SendCmpInert(c1, Control(c1, false, true, true, c1.rcv.cur, []), env);
    DiscardCloseInert(e.conn, PROTOCOL.Or(TIMEOUT), env);
  }

  lemma NewPacketRcv(c: Conn, s: Segment, env: Env)
    requires Local(c) && c.life.inUse
    ensures RcvMoves(c, NewPacket(c, s, env).conn, Receive(s))
  {
    hide ConnClose, DiscardClose, SendCmp, Control, ReceiveRst, ReceiveData, TakeData, InReceiveWindow, AckPlausible,
         DecodeOptions;
    DiscardCloseInert(c, PROTOCOL, env);
    if s.rst {
      RstInert(c, s, env);
    } else if c.life.state == Closed {
      SendCmpInert(c, Control(c, false, false, true, c.rcv.cur, []), env);
      var e := SendCmp(c, Control(c, false, false, true, c.rcv.cur, []), env);
      DiscardCloseInert(e.conn, PROTOCOL, env);
      var c1 := SynReceived(c, s, env);
      SendCmpInert(c1, Control(c1, true, true, false, c1.rcv.irs, []), env);
    } else if c.life.state == SynSent {
      var c1 := SynAnswered(c, s, env);
      SendCmpInert(c1, Control(c1, false, true, false, c1.rcv.cur, []), env);
      SendCmpInert(c, Control(c, false, false, true, c.rcv.cur, []), env);
    } else if c.life.state == CloseWait {
      var c1 := c.(snd := Acknowledged(c.snd, s));
      SendCmpInert(c1, Control(c1, false, true, true, c1.rcv.cur, []), env);
    } else {
      SendCmpInert(c, Control(c, true, true, false, c.rcv.irs, []), env);
      DiscardCloseInert(c.(life := Promote(c.life, env)), PROTOCOL, env);
      ReceiveDataFrame(Accepted(c, s, env), s, env);
    }
  }

  lemma TickRcv(c: Conn, env: Env)
    ensures RcvMoves(c, CheckTimeouts(c, env).conn, Tick)
  {
    hide ConnClose, Service, Flush;
    ConnCloseInert(c, EVERYBODY, env);
    ConnCloseInert(c, PROTOCOL.Or(TIMEOUT), env);
    ServiceFrame(c, env);
  }

  lemma ConnectFailRcv(c: Conn, env: Env)
    ensures Inert(c.rcv, ConnectFail(c, env).conn.rcv)
  {
    var c0 := c.(life := c.life.(requested := c.life.requested.Or(PROTOCOL)));
    RdpCloseFrame(c0, PROTOCOL, false, env);
    hide RdpClose, ConnClose;
    var (e, _) := RdpClose(c0, PROTOCOL, false, env);
    ConnCloseInert(e.conn, USER, env);
  }

  lemma ConnectRcv(c: Conn, opts: Options, env: Env)
    ensures Inert(c.rcv, Connect(c, opts, env).conn.rcv)
  {
    hide SendCmp, ConnectFail, Control, EncodeOptions;
    var c1 := Connecting(c, opts, env);
    var syn := Control(c1, true, false, false, 0, EncodeOptions(opts));
    SendCmpInert(c1, syn, env);
    ConnectFailRcv(SendCmp(c1, syn, env).conn, env);
  }

  lemma ApplyRcv(c: Conn, op: Op, env: Env, inbox: set<Segment>)
    requires Local(c) && Enabled(c, inbox, op)
    ensures RcvMoves(c, Apply(c, op, env).conn, op)
  {
    hide Connect, ConnectFail, CheckTimeouts, NewPacket, ConnClose, CheckAck, TakeData, Flush, Genuine, CanSend;
    match op
    case Dial(opts) => ConnectRcv(c, opts, env);
    case Dialled =>
    case DialFailed => ConnectFailRcv(c, env);
    case Write(data) =>
    case Fetch =>
      if c.rcv.rxQueue != [] {
        CheckAckFrame(c.(rcv := Unqueued(c.rcv)), env);
      }
    case HangUp => ConnCloseInert(c.(life := c.life.(userClosed := true)), USER, env);
    case Tick => TickRcv(c, env);
    case Receive(s) =>
      var c1 := if c.life.leased then c else Allocate(c, env);
      if !c.life.leased { AllocateLocal(c, env); }
      NewPacketRcv(c1, s, env);
  }

  // ---- the link from x to y ----

  predicate Stocked(s: Segment, snd: Snd) {
    !s.syn && s.data != [] && Genuine(s, snd.iss, snd.accepted)
  }

  predicate NoneEmpty(ds: seq<Data>) {
    forall i :: 0 <= i < |ds| ==> ds[i] != []
  }

  /** Everything that travels from x to y, waits in y's reorder queue or was delivered by
      y comes from x's user. */
  predicate Link(x: Conn, y: Conn, ch: set<Segment>) {
    && (forall s :: s in ch ==> s.rst || (x.snd.started && Genuine(s, x.snd.iss, x.snd.accepted)))
    && (y.rcv.established ==> x.snd.started && y.rcv.irs == x.snd.iss)
    && y.rcv.delivered <= x.snd.accepted && NoneEmpty(y.rcv.delivered)
    && (forall s :: s in y.rcv.rxq ==> Stocked(s, x.snd))
  }

  /** No two payloads that can still meet at y share a 16-bit number: y is less than 2^16
      behind x, and nothing from x that is still around is 65535 or more behind x. */
  predicate Unambiguous(x: Conn, y: Conn, ch: set<Segment>) {
    |x.snd.accepted| <= |y.rcv.delivered| + 0xFFFF && NothingStale(x, y, ch)
  }

  predicate NothingStale(x: Conn, y: Conn, ch: set<Segment>) {
    && (forall s :: s in ch && !s.rst && !s.syn && s.data != [] ==> Recent(s, x.snd))
    && (forall s :: s in y.rcv.rxq ==> Recent(s, x.snd))
  }

  predicate Recent(s: Segment, snd: Snd) {
    |snd.accepted| < s.seqIx + 0xFFFF
  }

  lemma LinkSender(x: Conn, x': Conn, y: Conn, ch: set<Segment>, out: seq<Segment>)
    requires Link(x, y, ch) && RcvOk(y.rcv) && Grows(x, x') && Sends(x'.snd, out)
    ensures Link(x', y, ch + Leaving(x.cfg, out))
  {
    forall s | s in ch && !s.rst
      ensures Genuine(s, x'.snd.iss, x'.snd.accepted)
    {
      GenuineGrows(s, x.snd.iss, x.snd.accepted, x'.snd.accepted);
    }
    forall s | s in y.rcv.rxq
      ensures Stocked(s, x'.snd)
    {
      GenuineGrows(s, x.snd.iss, x.snd.accepted, x'.snd.accepted);
    }
    hide Genuine;
  }

  /** The receiving half is in step with the sender x. */
  predicate InStep(snd: Snd, r: Rcv) {
    && r.established && r.irs == snd.iss && r.cur == Wrap(r.irs + |r.delivered|)
    && r.delivered <= snd.accepted && |snd.accepted| <= |r.delivered| + 0xFFFF
    && NoneEmpty(r.delivered)
  }

  /** A recent genuine segment numbered cur + 1 carries exactly the next payload. */
  lemma NextPayload(snd: Snd, r: Rcv, s: Segment)
    requires InStep(snd, r) && Stocked(s, snd) && Recent(s, snd)
    requires s.seqNr == Wrap(r.cur + 1)
    ensures s.seqIx == |r.delivered| + 1
    ensures InStep(snd, DeliverNext(r, s.data))
  {
    WrapShift(r.irs + |r.delivered|, 1);
    assert Wrap(snd.iss + s.seqIx) == Wrap(snd.iss + |r.delivered| + 1);
    WrapInjective(snd.iss + s.seqIx, snd.iss + |r.delivered| + 1);
    assert snd.accepted[|r.delivered|] == s.data;
    DeliverNextLocal(r, s.data);
  }

  lemma {:induction false} FlushInStep(cfg: Config, snd: Snd, r: Rcv)
    requires InStep(snd, r)
    requires forall s :: s in r.rxq ==> Stocked(s, snd) && Recent(s, snd)
    ensures InStep(snd, Flush(cfg, r))
    ensures forall s :: s in Flush(cfg, r).rxq ==> s in r.rxq
    decreases |r.rxq|
  {
    FlushUnfold(cfg, r);
    FlushFrame(cfg, r);
    hide Flush, FindSeq, Stocked, Recent;
    var f := FindSeq(r.rxq, Wrap(r.cur + 1));
    if cfg.rxQueueLen - |r.rxQueue| > 2 && f.Some? {
      FlushOneFrame(r, f.value);
      NextPayload(snd, r, r.rxq[f.value]);
      FlushInStep(cfg, snd, FlushOne(r, f.value));
    }
  }

  lemma TakeDataInStep(cfg: Config, snd: Snd, r: Rcv, s: Segment)
    requires InStep(snd, r)
    requires forall q :: q in r.rxq ==> Stocked(q, snd) && Recent(q, snd)
    requires !s.syn && Genuine(s, snd.iss, snd.accepted)
    requires s.data != [] ==> Recent(s, snd)
    ensures InStep(snd, TakeData(cfg, r, s))
    ensures forall q :: q in TakeData(cfg, r, s).rxq ==> Stocked(q, snd) && Recent(q, snd)
  {
    if !s.eak && s.data != [] && s.seqNr == Wrap(r.cur + 1) {
      NextPayload(snd, r, s);
      hide Flush, Genuine;
      FlushInStep(cfg, snd, DeliverNext(r, s.data));
    } else {
      hide Flush, DeliverNext, Genuine, Recent;
    }
  }

  lemma LinkOpened(x: Conn, y: Conn, y': Conn, ch: set<Segment>, s: Segment)
    requires Link(x, y, ch) && s in ch && Opened(y, y', s)
    ensures Link(x, y', ch)
  {
    hide Stocked;
  }

  lemma LinkInStep(x: Conn, y: Conn, y': Conn, ch: set<Segment>)
    requires Link(x, y, ch) && InStep(x.snd, y'.rcv) && x.snd.started
    requires forall q :: q in y'.rcv.rxq ==> Stocked(q, x.snd)
    ensures Link(x, y', ch)
  {
    hide Genuine, Stocked;
  }

  /** The heart of the matter: receiving, in whatever order and however often, keeps what
      was delivered a prefix of what was accepted. */
  lemma LinkReceiver(x: Conn, y: Conn, ch: set<Segment>, op: Op, env: Env)
    requires Local(y) && Enabled(y, ch, op) && Link(x, y, ch) && Unambiguous(x, y, ch)
    ensures Link(x, Apply(y, op, env).conn, ch)
  {
    ApplyRcv(y, op, env, ch);
    var y' := Apply(y, op, env).conn;
    hide Apply, Flush, TakeData, Genuine, LifeOk, SndOk;
    if Inert(y.rcv, y'.rcv) {
    } else if op.Receive? && Opened(y, y', op.seg) {
      LinkOpened(x, y, y', ch, op.seg);
    } else if y.rcv.established {
      if op == Tick {
        FlushInStep(y.cfg, x.snd, y.rcv);
      } else {
        TakeDataInStep(y.cfg, x.snd, y.rcv, op.seg);
      }
      LinkInStep(x, y, y', ch);
    } else {
      FlushUnfold(y.cfg, y.rcv);
    }
  }

  // ---- both directions ----

  predicate Inv(n: Net) {
    && Local(n.client) && Local(n.server)
    && Link(n.client, n.server, n.toServer) && Link(n.server, n.client, n.toClient)
  }

  predicate Clear(n: Net) {
    Unambiguous(n.client, n.server, n.toServer) && Unambiguous(n.server, n.client, n.toClient)
  }

  predicate NetGrows(n: Net, m: Net) {
    Grows(n.client, m.client) && Grows(n.server, m.server)
  }

  lemma InvNext(n: Net, ev: Event)
    requires Inv(n) && Clear(n)
    ensures Inv(Next(n, ev)) && NetGrows(n, Next(n, ev))
  {
    hide Apply, Unambiguous;
    match ev
    case Lose(_, _) => hide Genuine, Stocked, Local;
    case Do(side, op, env) =>
      match side {
        case Client =>
          if Enabled(n.client, n.toClient, op) {
            ApplyLocal(n.client, op, env, n.toClient);
            LinkReceiver(n.server, n.client, n.toClient, op, env);
            var e := Apply(n.client, op, env);
            LinkSender(n.client, e.conn, n.server, n.toServer, e.out);
          }
        case Server =>
          if Enabled(n.server, n.toServer, op) {
            ApplyLocal(n.server, op, env, n.toServer);
            LinkReceiver(n.client, n.server, n.toServer, op, env);
            var e := Apply(n.server, op, env);
            LinkSender(n.server, e.conn, n.client, n.toClient, e.out);
          }
      }
      hide Link, Local, Enabled;
  }

  lemma InitInv(n: Net)
    requires Init(n)
    ensures Inv(n)
  {
  }

  /** What has been delivered on either side is a prefix of what the other side's user
      handed to csp_send: no gap, no repeat, no swap, no foreign payload. */
  predicate PrefixDelivered(n: Net) {
    && n.server.rcv.delivered <= n.client.snd.accepted
    && n.client.rcv.delivered <= n.server.snd.accepted
  }

  predicate FewSent(n: Net) {
    |n.client.snd.accepted| <= 0xFFFF && |n.server.snd.accepted| <= 0xFFFF
  }

  lemma FewIsClear(n: Net)
    requires Inv(n) && FewSent(n)
    ensures Clear(n)
  {
  }

  predicate BothLocal(n: Net) {
    Local(n.client) && Local(n.server)
  }

  lemma LocalNext(n: Net, ev: Event)
    requires BothLocal(n)
    ensures BothLocal(Next(n, ev)) && NetGrows(n, Next(n, ev))
  {
    hide Apply, Local, Sends;
    match ev
    case Lose(_, _) =>
    case Do(Client, op, env) =>
      if Enabled(n.client, n.toClient, op) { ApplyLocal(n.client, op, env, n.toClient); }
    case Do(Server, op, env) =>
      if Enabled(n.server, n.toServer, op) { ApplyLocal(n.server, op, env, n.toServer); }
  }

  /** The per-endpoint invariant holds in every run, whatever the channel does. */
  lemma {:induction false} RunLocal(n: Net, evs: seq<Event>)
    requires Init(n)
    ensures BothLocal(Run(n, evs))
    decreases |evs|
  {
    if evs == [] {
      InitInv(n);
    } else {
      RunLocal(n, evs[..|evs| - 1]);
      LocalNext(Run(n, evs[..|evs| - 1]), evs[|evs| - 1]);
      hide BothLocal, Next;
    }
  }

  lemma {:induction false} RunInv(n: Net, evs: seq<Event>)
    requires Init(n) && FewSent(Run(n, evs))
    ensures Inv(Run(n, evs))
    decreases |evs|
  {
    if evs == [] {
      InitInv(n);
    } else {
      var m := Run(n, evs[..|evs| - 1]);
      var ev := evs[|evs| - 1];
      RunLocal(n, evs[..|evs| - 1]);
      LocalNext(m, ev);
      hide Inv, Clear, Next, BothLocal;
      RunInv(n, evs[..|evs| - 1]);
      FewIsClear(m);
      InvNext(m, ev);
    }
  }

  /** In every run of two endpoints over a channel that loses, duplicates and reorders, for
      every window size, configuration, timing and allocation failure: as long as neither
      user had more than 65535 payloads accepted, each side has been given a prefix of what
      the other side's user sent. */
  lemma EndToEnd(n: Net, evs: seq<Event>)
    requires Init(n) && FewSent(Run(n, evs))
    ensures PrefixDelivered(Run(n, evs))
  {
    RunInv(n, evs);
    hide Run, Local;
  }

  /** A connection in the pool is really closed. */
  predicate CleanWhenPooled(l: Life) {
    !l.inUse ==> l.state == Closed && l.closedBy == NOBODY
  }

  /** A connection whose handle went to user space is still in use, and not half closed, until
      user space has called csp_close and the protocol and the timeout have agreed: it is back
      in the pool exactly when all three have closed it. */
  predicate PooledWhenAllAgree(l: Life) {
    l.handed ==>
      && (!l.inUse <==> l.requested == EVERYBODY)
      && (!l.inUse ==> l.userClosed)
      && (l.inUse ==> l.state != Closed)
  }

  /** Over all interleavings of user calls, received segments and timeouts. */
  lemma CloseIsAgreed(n: Net, evs: seq<Event>)
    requires Init(n)
    ensures var m := Run(n, evs);
            && CleanWhenPooled(m.client.life) && PooledWhenAllAgree(m.client.life)
            && CleanWhenPooled(m.server.life) && PooledWhenAllAgree(m.server.life)
  {
    RunLocal(n, evs);
    hide Run;
  }
}
