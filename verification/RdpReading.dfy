/** What csp_read returns: in every run the user reads exactly what was delivered, in order. */
module RdpReading {
  import opened SeqNumbers
  import opened Rdp
  import opened RdpFrames
  import opened RdpNet
  import opened RdpLocal
  import opened RdpEndToEnd

  /** The payloads that wait on a connection queue. */
  function Unread(q: seq<Item>): seq<Data> {
    if q == [] then []
    else
      var n := |q| - 1;
      Unread(q[..n]) + if q[n].Packet? then [q[n].data] else []
  }

  /** While the connection is in use, what was read followed by what waits is what was delivered. */
  predicate InOrder(c: Conn) {
    && (c.life.inUse ==> c.rcv.read + Unread(c.rcv.rxQueue) == c.rcv.delivered)
    && c.rcv.read <= c.rcv.delivered
    && (!c.life.leased ==> c.rcv.read == [] && c.rcv.delivered == [])
  }

  // ---- the queue ----

  lemma {:induction false} UnreadAppend(a: seq<Item>, b: seq<Item>)
    ensures Unread(a + b) == Unread(a) + Unread(b)
    decreases |b|
  {
    if b == [] {
      assert a + b == a;
    } else {
      var n := |b| - 1;
      assert (a + b)[..|a + b| - 1] == a + b[..n];
      UnreadAppend(a, b[..n]);
    }
  }

  lemma UnreadOne(x: Item)
    ensures Unread([x]) == if x.Packet? then [x.data] else []
  {
    assert [x][..0] == [];
  }

  lemma {:induction false} UnreadItems(ds: seq<Data>)
    ensures Unread(Items(ds)) == ds
  {
    if ds != [] {
      UnreadItems(ds[1..]);
      UnreadAppend([Packet(ds[0])], Items(ds[1..]));
      UnreadOne(Packet(ds[0]));
    }
  }

  /** One receiving half after another: the same is read, and what is delivered more waits behind the rest. */
  predicate Queues(r: Rcv, r': Rcv) {
    && r'.read == r.read && r.delivered <= r'.delivered
    && Unread(r'.rxQueue) == Unread(r.rxQueue) + r'.delivered[|r.delivered|..]
  }

  lemma QueuesItself(r: Rcv, r': Rcv)
    requires r'.read == r.read && r'.delivered == r.delivered
    requires r'.rxQueue == r.rxQueue || r'.rxQueue == r.rxQueue + [WakeUp]
    ensures Queues(r, r')
  {
    UnreadAppend(r.rxQueue, [WakeUp]);
    UnreadOne(WakeUp);
  }

  lemma QueuesTwice(r: Rcv, s: Rcv, t: Rcv)
    requires Queues(r, s) && Queues(s, t)
    ensures Queues(r, t)
  {
    assert t.delivered[|r.delivered|..] == s.delivered[|r.delivered|..] + t.delivered[|s.delivered|..];
  }

  lemma DeliverNextQueues(r: Rcv, d: Data)
    ensures Queues(r, DeliverNext(r, d))
  {
    UnreadAppend(r.rxQueue, [Packet(d)]);
    UnreadOne(Packet(d));
  }

  lemma FlushQueues(cfg: Config, r: Rcv)
    ensures Queues(r, Flush(cfg, r))
  {
    FlushCounts(cfg, r);
    FlushFrame(cfg, r);
    hide Flush, FindSeq, Wrap;
    var more := Flush(cfg, r).delivered[|r.delivered|..];
    UnreadAppend(r.rxQueue, Items(more));
    UnreadItems(more);
  }

  lemma TakeDataQueues(cfg: Config, r: Rcv, s: Segment)
    ensures Queues(r, TakeData(cfg, r, s))
  {
    hide Flush, FindSeq, Queues, DeliverNext, Wrap;
    var r1 := DeliverNext(r, s.data);
    DeliverNextQueues(r, s.data);
    FlushQueues(cfg, r1);
    QueuesTwice(r, r1, Flush(cfg, r1));
    QueuesItself(r, r);
    if !(s.eak || s.data == []) && s.seqNr != Wrap(r.cur + 1) { QueuesItself(r, TakeData(cfg, r, s)); }
  }

  // ---- each part of the state machine ----

  /** Nobody's wish to close is forgotten or made up. */
  predicate Persists(l: Life, l': Life) {
    && l'.leased == l.leased && (l'.inUse ==> l.inUse) && l'.userClosed == l.userClosed && l'.server == l.server
    && l.requested.Within(l'.requested)
  }

  /** What every part of the state machine keeps. */
  predicate Carries(c: Conn, d: Conn) {
    && Persists(c.life, d.life) && (d.life.inUse ==> Queues(c.rcv, d.rcv))
    && d.rcv.read == c.rcv.read && c.rcv.delivered <= d.rcv.delivered
  }

  lemma CarriesOrder(c: Conn, d: Conn)
    requires Carries(c, d) && InOrder(c) && (!c.life.leased ==> !c.life.inUse && d.rcv.delivered == [])
    ensures InOrder(d)
  {
    if d.life.inUse {
      assert d.rcv.delivered == c.rcv.delivered + d.rcv.delivered[|c.rcv.delivered|..];
    }
  }

  lemma CarriesTwice(c: Conn, d: Conn, e: Conn)
    requires Carries(c, d) && Carries(d, e)
    ensures Carries(c, e)
  {
    hide Queues;
    if e.life.inUse { QueuesTwice(c.rcv, d.rcv, e.rcv); }
  }

  lemma SameRcv(c: Conn, d: Conn)
    requires d.rcv == c.rcv && Persists(c.life, d.life)
    ensures Carries(c, d)
  {
    QueuesItself(c.rcv, d.rcv);
  }

  lemma SendCmpCarries(c: Conn, s: Segment, env: Env)
    ensures Carries(c, SendCmp(c, s, env).conn)
  {
    SendCmpFrame(c, s, env);
    hide SendCmp;
    SameRcv(c, SendCmp(c, s, env).conn);
  }

  lemma ClosedPersists(l: Life, who: Closers)
    ensures Persists(l, ClosedLife(l, who))
  {
    OrWithin(l.requested, who);
    hide Closers.Or, Closers.Within;
  }

  lemma OrWithin(a: Closers, b: Closers)
    ensures a.Within(a) && a.Within(a.Or(b))
  {
  }

  lemma ConnCloseCarries(c: Conn, who: Closers, env: Env)
    ensures Carries(c, ConnClose(c, who, env).conn)
  {
    ConnCloseFrame(c, who, env);
    ClosedPersists(c.life, who);
    QueuesItself(c.rcv, c.rcv);
    assert ClosedLife(c.life, who).inUse ==> c.life.inUse;
    hide ConnClose, Persists, ClosedLife, Queues, IsReset;
  }

  lemma DiscardCloseCarries(c: Conn, who: Closers, env: Env)
    ensures Carries(c, DiscardClose(c, who, env).conn)
  {
    hide ConnClose, Queues;
    var closers := if c.life.hasSocket then who.Or(USER) else who;
    ConnCloseCarries(c, closers, env);
    var e, d := ConnClose(c, closers, env).conn, DiscardClose(c, who, env).conn;
    QueuesItself(e.rcv, d.rcv);
    CarriesTwice(c, e, d);
  }

  lemma RstCarries(c0: Conn, s: Segment, env: Env)
    ensures Carries(c0, ReceiveRst(c0, s, env).conn)
  {
    hide ConnClose, DiscardClose, SendCmp, Control, Carries;
    var c := if s.ack then c0.(snd := Acknowledged(c0.snd, s)) else c0;
    SameRcv(c0, c);
    ConnCloseCarries(c, USER, env);
    CarriesTwice(c0, c, ConnClose(c, USER, env).conn);
    var who := if s.ack then PROTOCOL.Or(TIMEOUT) else PROTOCOL;
    DiscardCloseCarries(c, who, env);
    CarriesTwice(c0, c, DiscardClose(c, who, env).conn);
    var c1 := c.(life := c.life.(state := CloseWait), clocks := c.clocks.(timestamp := env.now));
    SameRcv(c0, c1);
    CmpThenDiscard(c1, Control(c1, false, true, true, c1.rcv.cur, []), PROTOCOL.Or(TIMEOUT), env);
    CarriesTwice(c0, c1, DiscardClose(SendCmp(c1, Control(c1, false, true, true, c1.rcv.cur, []), env).conn,
                                      PROTOCOL.Or(TIMEOUT), env).conn);
  }

  lemma CmpThenDiscard(c: Conn, s: Segment, who: Closers, env: Env)
    ensures Carries(c, DiscardClose(SendCmp(c, s, env).conn, who, env).conn)
  {
    hide DiscardClose, SendCmp, Carries;
    SendCmpCarries(c, s, env);
    var e := SendCmp(c, s, env).conn;
    DiscardCloseCarries(e, who, env);
    CarriesTwice(c, e, DiscardClose(e, who, env).conn);
  }

  lemma OpenCarries(c: Conn, s: Segment, env: Env)
    ensures Carries(c, ReceiveOpen(c, s, env).conn)
  {
    hide DiscardClose, SendCmp, Control, ReceiveData, InReceiveWindow, AckPlausible, Carries, TakeData;
    SameRcv(c, c);
    DiscardCloseCarries(c, PROTOCOL, env);
    SendCmpCarries(c, Control(c, true, true, false, c.rcv.irs, []), env);
    var c1 := c.(life := Promote(c.life, env));
    SameRcv(c, c1);
    DiscardCloseCarries(c1, PROTOCOL, env);
    CarriesTwice(c, c1, DiscardClose(c1, PROTOCOL, env).conn);
    var c2 := Accepted(c, s, env);
    ReceiveDataFrame(c2, s, env);
    TakeDataQueues(c2.cfg, c2.rcv, s);
    DataCarries(c, c2, ReceiveData(c2, s, env).conn);
  }

  lemma DataCarries(c: Conn, c2: Conn, d: Conn)
    requires c2.rcv == c.rcv && d.life == c2.life && Queues(c2.rcv, d.rcv) && Persists(c.life, c2.life)
    ensures Carries(c, d)
  {
    hide Unread;
  }

  lemma NewPacketCarries(c: Conn, s: Segment, env: Env)
    ensures Carries(c, NewPacket(c, s, env).conn)
  {
    hide DiscardClose, SendCmp, Control, ReceiveRst, ReceiveOpen, Carries, AckPlausible, DecodeOptions;
    RstCarries(c, s, env);
    OpenCarries(c, s, env);
    SameRcv(c, c);
    DiscardCloseCarries(c, PROTOCOL, env);
    if c.life.state == Closed {
      CmpThenDiscard(c, Control(c, false, false, true, c.rcv.cur, []), PROTOCOL, env);
      var c1 := SynReceived(c, s, env);
      OpensCarries(c, c1);
      var syn := Control(c1, true, true, false, c1.rcv.irs, []);
      SendCmpCarries(c1, syn, env);
      CarriesTwice(c, c1, SendCmp(c1, syn, env).conn);
    } else if c.life.state == SynSent {
      var c1 := SynAnswered(c, s, env);
      OpensCarries(c, c1);
      var ack := Control(c1, false, true, false, c1.rcv.cur, []);
      SendCmpCarries(c1, ack, env);
      CarriesTwice(c, c1, SendCmp(c1, ack, env).conn);
      SendCmpCarries(c, Control(c, false, false, true, c.rcv.cur, []), env);
    } else {
      var c1 := c.(snd := Acknowledged(c.snd, s));
      SameRcv(c, c1);
      var rst := Control(c1, false, true, true, c1.rcv.cur, []);
      SendCmpCarries(c1, rst, env);
      CarriesTwice(c, c1, SendCmp(c1, rst, env).conn);
    }
  }

  lemma OpensCarries(c: Conn, d: Conn)
    requires d.rcv == c.rcv.(cur := d.rcv.cur, irs := d.rcv.irs, established := true)
    requires Persists(c.life, d.life)
    ensures Carries(c, d)
  {
    QueuesItself(c.rcv, d.rcv);
  }

  lemma TickCarries(c: Conn, env: Env)
    ensures Carries(c, CheckTimeouts(c, env).conn)
  {
    hide ConnClose, Service, Flush, Queues;
    ConnCloseCarries(c, EVERYBODY, env);
    ConnCloseCarries(c, PROTOCOL.Or(TIMEOUT), env);
    ServiceFrame(c, env);
    FlushQueues(c.cfg, c.rcv);
    FlushFrame(c.cfg, c.rcv);
  }

  lemma RdpCloseSame(c: Conn, who: Closers, env: Env)
    ensures var d := RdpClose(c, who, false, env).0.conn;
            d.rcv == c.rcv && d.life == c.life.(state := d.life.state, closedBy := d.life.closedBy)
  {
    var c1 := c.(life := c.life.(closedBy := c.life.closedBy.Or(who)));
    ToCloseWaitFrame(c1, false, env);
    hide ToCloseWait, IsReset, Closers.Or;
  }

  lemma RdpCloseCarries(c: Conn, who: Closers, env: Env)
    ensures Carries(c, RdpClose(c, who, false, env).0.conn)
  {
    RdpCloseSame(c, who, env);
    hide RdpClose, Carries;
    SameRcv(c, RdpClose(c, who, false, env).0.conn);
  }

  lemma ConnectFailCarries(c: Conn, env: Env)
    ensures Carries(c, ConnectFail(c, env).conn)
  {
    hide RdpClose, ConnClose, Carries;
    var c0 := c.(life := c.life.(requested := c.life.requested.Or(PROTOCOL)));
    var e := RdpClose(c0, PROTOCOL, false, env).0.conn;
    SameRcv(c, c0);
    RdpCloseCarries(c0, PROTOCOL, env);
    CarriesTwice(c, c0, e);
    ConnCloseCarries(e, USER, env);
    CarriesTwice(c, e, ConnClose(e, USER, env).conn);
  }

  /** An empty queue at the start of a connection. */
  lemma StartsInOrder(c: Conn, d: Conn)
    requires InOrder(c) && !c.life.leased && d.life.leased && d.rcv == c.rcv.(rxQueue := [])
    ensures InOrder(d)
  {
  }

  lemma DialInOrder(c: Conn, opts: Options, env: Env)
    requires InOrder(c) && !c.life.leased
    ensures InOrder(Connect(c, opts, env).conn)
  {
    var c1 := Connecting(c, opts, env);
    StartsInOrder(c, c1);
    var syn := Control(c1, true, false, false, 0, EncodeOptions(opts));
    hide SendCmp, ConnectFail, Control, EncodeOptions, Connecting, Carries;
    SendCmpCarries(c1, syn, env);
    var e := SendCmp(c1, syn, env).conn;
    ConnectFailCarries(e, env);
    CarriesTwice(c1, e, ConnectFail(e, env).conn);
    assert c1.life.leased by { DialLeases(c, opts, env); }
    CarriesOrder(c1, e);
    CarriesOrder(c1, ConnectFail(e, env).conn);
  }

  lemma DialLeases(c: Conn, opts: Options, env: Env)
    ensures Connecting(c, opts, env).life.leased
  {
  }

  lemma UnreadFront(q: seq<Item>)
    requires q != []
    ensures Unread(q) == (if q[0].Packet? then [q[0].data] else []) + Unread(q[1..])
  {
    assert q == [q[0]] + q[1..];
    UnreadAppend([q[0]], q[1..]);
    UnreadOne(q[0]);
  }

  lemma UnqueuedInOrder(r: Rcv)
    requires r.rxQueue != [] && r.read + Unread(r.rxQueue) == r.delivered
    ensures var d, x := Unqueued(r), r.rxQueue[0];
            && d.read + Unread(d.rxQueue) == r.delivered && d.read <= r.delivered
            && (x.Packet? ==> |r.read| < |r.delivered| && x.data == r.delivered[|r.read|])
  {
    UnreadFront(r.rxQueue);
    hide Unread;
    var x, rest := r.rxQueue[0], Unread(r.rxQueue[1..]);
    if x.Packet? {
      assert r.read + ([x.data] + rest) == (r.read + [x.data]) + rest;
    } else {
      assert [] + rest == rest;
    }
  }

  /** csp_read returns the oldest payload that has not been read. */
  lemma ReadReturns(c: Conn, env: Env)
    requires InOrder(c)
    ensures var (e, item) := Read(c, env);
            && InOrder(e.conn) && e.conn.rcv.delivered == c.rcv.delivered
            && (item.Packet? ==> |c.rcv.read| < |c.rcv.delivered| && item.data == c.rcv.delivered[|c.rcv.read|]
                                 && e.conn.rcv.read == c.rcv.read + [item.data])
            && (item.WakeUp? ==> e.conn.rcv.read == c.rcv.read)
  {
    if c.life.inUse && c.rcv.rxQueue != [] {
      UnqueuedInOrder(c.rcv);
      CheckAckFrame(c.(rcv := Unqueued(c.rcv)), env);
      hide CheckAck, Unread, Control;
    }
  }

  lemma ApplyInOrder(c: Conn, op: Op, env: Env, inbox: set<Segment>)
    requires Local(c) && Enabled(c, inbox, op) && InOrder(c)
    ensures InOrder(Apply(c, op, env).conn)
  {
    assert c.life.inUse ==> c.life.leased;
    hide Connect, ConnectFail, Read, CheckTimeouts, NewPacket, ConnClose, CanSend, Carries, SndOk, RcvOk, Wrap;
    match op
    case Dial(opts) => DialInOrder(c, opts, env);
    case Dialled =>
    case DialFailed => ConnectFailCarries(c, env); CarriesOrder(c, ConnectFail(c, env).conn);
    case Write(data) =>
    case Fetch => ReadReturns(c, env);
    case HangUp =>
      var c1 := c.(life := c.life.(userClosed := true));
      ConnCloseCarries(c1, USER, env);
      assert InOrder(c1);
      HangUpInOrder(c1, env);
    case Tick =>
      TickCarries(c, env);
      CarriesOrder(c, CheckTimeouts(c, env).conn);
    case Receive(s) =>
      var c1 := if c.life.leased then c else Allocate(c, env);
      assert InOrder(c1) && c1.life.leased;
      NewPacketCarries(c1, s, env);
      CarriesOrder(c1, NewPacket(c1, s, env).conn);
  }

  lemma HangUpInOrder(c: Conn, env: Env)
    requires InOrder(c)
    ensures InOrder(ConnClose(c, USER, env).conn)
  {
    ConnCloseFrame(c, USER, env);
    hide ConnClose;
  }

  // ---- every run ----

  predicate BothInOrder(n: Net) {
    InOrder(n.client) && InOrder(n.server)
  }

  lemma InOrderNext(n: Net, ev: Event)
    requires BothLocal(n) && BothInOrder(n)
    ensures BothInOrder(Next(n, ev))
  {
    hide Apply, Local, InOrder, Enabled;
    match ev
    case Lose(_, _) =>
    case Do(Client, op, env) =>
      if Enabled(n.client, n.toClient, op) { ApplyInOrder(n.client, op, env, n.toClient); }
    case Do(Server, op, env) =>
      if Enabled(n.server, n.toServer, op) { ApplyInOrder(n.server, op, env, n.toServer); }
  }

  /** In every run without exception: what a user has read, followed by what waits on the queue, is what was
      delivered. */
  lemma {:induction false} RunInOrder(n: Net, evs: seq<Event>)
    requires Init(n)
    ensures BothInOrder(Run(n, evs))
    decreases |evs|
  {
    if evs != [] {
      var p := evs[..|evs| - 1];
      RunInOrder(n, p);
      RunLocal(n, p);
      hide Next, BothInOrder, BothLocal;
      InOrderNext(Run(n, p), evs[|evs| - 1]);
    }
  }

  predicate PrefixRead(n: Net) {
    && n.server.rcv.read <= n.client.snd.accepted
    && n.client.rcv.read <= n.server.snd.accepted
  }

  /** End to end, from csp_send to csp_read. */
  lemma ReadEndToEnd(n: Net, evs: seq<Event>)
    requires Init(n) && FewSent(Run(n, evs))
    ensures PrefixRead(Run(n, evs))
  {
    EndToEnd(n, evs);
    RunInOrder(n, evs);
    hide Run;
  }
}
