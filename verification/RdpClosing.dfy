/** Every connection can be got rid of: when a timeout check returns one to the pool, and how both ends of a
    connection find out that it is over. */
module RdpClosing {
  import opened SeqNumbers
  import opened Rdp
  import opened RdpFrames
  import opened RdpNet
  import opened RdpLocal
  import opened RdpEndToEnd
  import opened RdpReading
  import W = RdpWindow

  // ---- csp_close is not forgotten ----

  /** A user who has called csp_close counts among the closers. */
  predicate Asked(l: Life) {
    (l.userClosed && l.inUse ==> l.requested.user) && (!l.leased ==> !l.userClosed)
  }

  lemma PersistsAsked(l: Life, l': Life)
    requires Asked(l) && Persists(l, l')
    ensures Asked(l')
  {
  }

  lemma HangUpAsked(c: Conn, env: Env)
    requires c.life.leased
    ensures Asked(UserClose(c, env).conn.life)
  {
    ConnCloseFrame(c.(life := c.life.(userClosed := true)), USER, env);
    hide ConnClose, IsReset;
  }

  lemma DialAsked(c: Conn, opts: Options, env: Env)
    requires Asked(c.life) && !c.life.leased
    ensures Asked(Connect(c, opts, env).conn.life)
  {
    var c1 := Connecting(c, opts, env);
    assert Asked(c1.life);
    var syn := Control(c1, true, false, false, 0, EncodeOptions(opts));
    hide SendCmp, ConnectFail, Control, EncodeOptions, Connecting, Queues;
    SendCmpCarries(c1, syn, env);
    ConnectFailCarries(SendCmp(c1, syn, env).conn, env);
  }

  lemma ApplyAsked(c: Conn, op: Op, env: Env, inbox: set<Segment>)
    requires Local(c) && Enabled(c, inbox, op) && Asked(c.life)
    ensures Asked(Apply(c, op, env).conn.life)
  {
    assert (c.life.inUse ==> c.life.leased) && (c.life.handed ==> c.life.leased);
    hide Connect, ConnectFail, UserClose, CheckTimeouts, NewPacket, CheckAck, CanSend, Queues, Persists, Wrap,
         SndOk, RcvOk;
    match op
    case Dial(opts) => DialAsked(c, opts, env);
    case Dialled =>
    case DialFailed =>
      ConnectFailCarries(c, env);
      PersistsAsked(c.life, ConnectFail(c, env).conn.life);
    case Write(data) =>
    case Fetch =>
      if c.rcv.rxQueue != [] { CheckAckFrame(c.(rcv := Unqueued(c.rcv)), env); }
    case HangUp => HangUpAsked(c, env);
    case Tick =>
      TickCarries(c, env);
      PersistsAsked(c.life, CheckTimeouts(c, env).conn.life);
    case Receive(s) =>
      var c1 := if c.life.leased then c else Allocate(c, env);
      assert Asked(c1.life);
      NewPacketCarries(c1, s, env);
      PersistsAsked(c1.life, NewPacket(c1, s, env).conn.life);
  }

  predicate BothAsked(n: Net) {
    Asked(n.client.life) && Asked(n.server.life)
  }

  lemma AskedNext(n: Net, ev: Event)
    requires BothLocal(n) && BothAsked(n)
    ensures BothAsked(Next(n, ev))
  {
    hide Apply, Local, Asked, Enabled;
    match ev
    case Lose(_, _) =>
    case Do(Client, op, env) =>
      if Enabled(n.client, n.toClient, op) { ApplyAsked(n.client, op, env, n.toClient); }
    case Do(Server, op, env) =>
      if Enabled(n.server, n.toServer, op) { ApplyAsked(n.server, op, env, n.toServer); }
  }

  lemma {:induction false} RunAsked(n: Net, evs: seq<Event>)
    requires Init(n)
    ensures BothAsked(Run(n, evs)) && BothLocal(Run(n, evs))
    decreases |evs|
  {
    RunLocal(n, evs);
    if evs != [] {
      var p := evs[..|evs| - 1];
      RunAsked(n, p);
      hide Next, BothAsked, BothLocal;
      AskedNext(Run(n, p), evs[|evs| - 1]);
    }
  }

  // ---- timeouts ----

  /** Later than the connection timeout. */
  predicate Overdue(c: Conn, now: u32) {
    TimeAfter(now, c.clocks.timestamp + c.opts.connTimeout)
  }

  /** Back in the pool, with nothing left behind. */
  predicate Gone(c: Conn) {
    !c.life.inUse && c.life.state == Closed && c.life.closedBy == NOBODY
    && c.snd.txq == [] && c.rcv.rxq == [] && c.rcv.rxQueue == []
  }

  lemma CloseEnds(c: Conn, who: Closers, env: Env)
    requires Local(c) && c.life.inUse && (c.life.state == Closed || c.life.closedBy.Or(who) == EVERYBODY)
    ensures Gone(ConnClose(c, who, env).conn)
  {
    ConnCloseFrame(c, who, env);
    hide ConnClose, IsReset, SndOk, RcvOk;
  }

  lemma CloseWaits(c: Conn, who: Closers, env: Env)
    requires c.life.inUse && c.life.state != Closed && c.life.closedBy.Or(who) != EVERYBODY
    ensures ConnClose(c, who, env).conn.life.inUse && ConnClose(c, who, env).conn.life.state == CloseWait
  {
    ConnCloseFrame(c, who, env);
    hide ConnClose, IsReset;
  }

  lemma KeptInUse(c: Conn, env: Env)
    ensures Service(c, env).conn.life == c.life
  {
    ServiceFrame(c, env);
    hide Service, Retransmit, Flush;
  }

  lemma UserWaits(c: Conn)
    requires Local(c) && c.life.inUse && c.life.requested.user
    ensures c.life.state == CloseWait && c.life.closedBy == c.life.requested
  {
  }

  lemma WaitsForUser(c: Conn)
    requires Local(c) && c.life.state == CloseWait
    ensures c.life.requested.user <==> c.life.closedBy.Or(PROTOCOL.Or(TIMEOUT)) == EVERYBODY
  {
  }

  /** A timeout check returns a connection to the pool exactly when it is overdue and either no user has seen it
      yet or user space has closed it; otherwise it keeps it. */
  lemma TickPoolsExactly(c: Conn, env: Env)
    requires Local(c) && c.life.inUse
    ensures var d := Apply(c, Tick, env).conn;
            && (d.life.inUse <==> !(Overdue(c, env.now) && (c.life.hasSocket || c.life.requested.user)))
            && (!d.life.inUse ==> Gone(d))
  {
    hide ConnClose, Service, TimeAfter, Local, Closers.Or;
    KeptInUse(c, env);
    if c.life.requested.user { UserWaits(c); }
    if c.life.hasSocket && Overdue(c, env.now) {
      EverybodyEnds(c, env);
    } else if c.life.state == CloseWait && Overdue(c, env.now) {
      WaitsForUser(c);
      if c.life.requested.user {
        CloseEnds(c, PROTOCOL.Or(TIMEOUT), env);
      } else {
        CloseWaits(c, PROTOCOL.Or(TIMEOUT), env);
      }
    }
  }

  lemma EverybodyEnds(c: Conn, env: Env)
    requires Local(c) && c.life.inUse
    ensures Gone(ConnClose(c, EVERYBODY, env).conn)
  {
    CloseEnds(c, EVERYBODY, env);
  }

  /** In every reachable state: one timeout check after the connection timeout pools a connection that its user
      has closed, and one that no user has ever seen. */
  lemma OverduePooled(n: Net, evs: seq<Event>, env: Env)
    requires Init(n)
    ensures var m := Run(n, evs);
            && (OneOver(m.client) && Overdue(m.client, env.now) ==> Gone(Apply(m.client, Tick, env).conn))
            && (OneOver(m.server) && Overdue(m.server, env.now) ==> Gone(Apply(m.server, Tick, env).conn))
  {
    RunAsked(n, evs);
    var m := Run(n, evs);
    hide Run, Apply, Overdue, Gone, Local;
    if OneOver(m.client) { TickPoolsExactly(m.client, env); }
    if OneOver(m.server) { TickPoolsExactly(m.server, env); }
  }

  /** A connection opened by a peer's SYN is unclaimed at first, and overdue once the timeout that the peer asked
      for has passed since then. */
  lemma UnclaimedAtFirst(c: Conn, s: Segment, env: Env, now: u32)
    requires Local(c) && !c.life.leased && c.life.server && s.syn && !s.ack && !s.eak && !s.rst
    ensures var d := Apply(c, Receive(s), env).conn;
            && d.life.inUse && d.life.hasSocket && d.life.state == SynRcvd
            && (Overdue(d, now) <==> TimeAfter(now, env.now + DecodeOptions(s.data).connTimeout))
  {
    assert c.life.state == Closed;
    var c1 := Allocate(c, env);
    var c2 := SynReceived(c1, s, env);
    hide DecodeOptions, TimeAfter, Wrap, Local, NewPacket;
    FirstSyn(c1, s, env);
  }

  lemma FirstSyn(c: Conn, s: Segment, env: Env)
    requires c.life.state == Closed && s.syn && !s.ack && !s.eak && !s.rst
    ensures var d := NewPacket(c, s, env).conn;
            && d.life == c.life.(state := SynRcvd) && d.opts == DecodeOptions(s.data)
            && d.clocks.timestamp == c.clocks.timestamp
  {
    var c2 := SynReceived(c, s, env);
    hide DecodeOptions, Wrap, SendCmp, Control;
    SendCmpFrame(c2, Control(c2, true, true, false, c2.rcv.irs, []), env);
  }

  /** In use, but closed by its user or never handed to one. */
  predicate OneOver(c: Conn) {
    c.life.inUse && ((c.life.handed && c.life.userClosed) || c.life.hasSocket)
  }

  /** There is always a time at which a connection is overdue. */
  function Deadline(c: Conn): u32 {
    (c.clocks.timestamp + c.opts.connTimeout + 1) % 0x1_0000_0000
  }

  lemma DeadlineIsOverdue(c: Conn)
    ensures Overdue(c, Deadline(c))
  {
  }

  lemma HangUpCloses(c: Conn, env: Env)
    requires Local(c) && c.life.handed && c.life.inUse
    ensures var d := Apply(c, HangUp, env).conn;
            Local(d) && (!d.life.inUse || (d.life.state == CloseWait && d.life.requested.user))
  {
    ApplyLocal(c, HangUp, env, {});
    ConnCloseFrame(c.(life := c.life.(userClosed := true)), USER, env);
    hide ConnClose, IsReset, SndOk, RcvOk;
  }

  /** csp_close and one timeout check after the connection timeout return every connection that a user holds to
      the pool, whatever the peer does or does not do. */
  lemma CloseEndsIt(n: Net, evs: seq<Event>, env: Env, later: Env)
    requires Init(n)
    ensures var c := Run(n, evs).client;
            c.life.handed && c.life.inUse ==>
              var d := Apply(c, HangUp, env).conn;
              !d.life.inUse || (Overdue(d, later.now) ==> Gone(Apply(d, Tick, later).conn))
    ensures var c := Run(n, evs).server;
            c.life.handed && c.life.inUse ==>
              var d := Apply(c, HangUp, env).conn;
              !d.life.inUse || (Overdue(d, later.now) ==> Gone(Apply(d, Tick, later).conn))
  {
    RunAsked(n, evs);
    var m := Run(n, evs);
    hide Run, Apply, Overdue, Gone, Local;
    if m.client.life.handed && m.client.life.inUse {
      HangUpCloses(m.client, env);
      var d := Apply(m.client, HangUp, env).conn;
      if d.life.inUse { TickPoolsExactly(d, later); }
    }
    if m.server.life.handed && m.server.life.inUse {
      HangUpCloses(m.server, env);
      var d := Apply(m.server, HangUp, env).conn;
      if d.life.inUse { TickPoolsExactly(d, later); }
    }
  }

  // ---- the other side finds out ----

  /** The reset that csp_close sends from OPEN. */
  function Goodbye(c: Conn): Segment {
    Control(c, false, true, true, c.rcv.cur, [])
  }

  lemma HangUpTells(c: Conn, env: Env)
    requires Local(c) && c.life.state == Open && c.life.handed && env.mem && HEADER_SIZE <= c.cfg.bufferSize
    ensures Apply(c, HangUp, env).out == [Goodbye(c)]
    ensures Apply(c, HangUp, env).conn.life.state == CloseWait
    ensures Apply(c, HangUp, env).conn.clocks.timestamp == env.now
  {
    assert c.life.inUse && c.life.closedBy == NOBODY;
    hide SndOk, RcvOk, Closers.Within;
  }

  /** A reset in sequence closes an open connection for the protocol and the timeout, and wakes a reader; its
      user's csp_close then returns it to the pool at once. */
  lemma ResetHeard(c: Conn, s: Segment, env: Env, later: Env)
    requires Local(c) && c.life.state == Open && c.life.handed && s.rst && s.seqNr == Wrap(c.rcv.cur + 1)
    ensures var d := NewPacket(c, s, env).conn;
            && d.life.state == CloseWait && d.life.inUse && d.life.closedBy == PROTOCOL.Or(TIMEOUT)
            && d.rcv.delivered == c.rcv.delivered
            && d.rcv.rxQueue == c.rcv.rxQueue + (if |c.rcv.rxQueue| < c.cfg.rxQueueLen then [WakeUp] else [])
            && Gone(ConnClose(d, USER, later).conn)
  {
    var c0 := if s.ack then c.(snd := Acknowledged(c.snd, s)) else c;
    var c1 := c0.(life := c0.life.(state := CloseWait), clocks := c0.clocks.(timestamp := env.now));
    var rst := Control(c1, false, true, true, c1.rcv.cur, []);
    assert c1.life.inUse && !c1.life.hasSocket && c1.life.closedBy == NOBODY;
    NewPacketLocal(c, s, env);
    SendCmpFrame(c1, rst, env);
    var e := SendCmp(c1, rst, env).conn;
    ConnCloseFrame(e, PROTOCOL.Or(TIMEOUT), env);
    hide SendCmp, Control, ConnClose, IsReset, Wrap, Local;
    var d := NewPacket(c, s, env).conn;
    assert d.life.closedBy == PROTOCOL.Or(TIMEOUT);
    CloseEnds(d, USER, later);
  }

  /** csp_close on x sends a reset that y takes as the end of the connection: its reader is woken, and its user's
      csp_close returns it to the pool at once. */
  predicate Learns(x: Conn, y: Conn, env: Env, env': Env, later: Env) {
    && Goodbye(x) in Apply(x, HangUp, env).out
    && var d := NewPacket(y, Goodbye(x), env').conn;
       && d.life.state == CloseWait && d.rcv.delivered == y.rcv.delivered
       && d.rcv.rxQueue == y.rcv.rxQueue + (if |y.rcv.rxQueue| < y.cfg.rxQueueLen then [WakeUp] else [])
       && Gone(ConnClose(d, USER, later).conn)
  }

  /** Both ends open and in user space, and everything x has sent delivered. */
  predicate AtTheEnd(x: Conn, y: Conn) {
    && x.life.state == Open && y.life.state == Open && x.life.handed && y.life.handed
    && y.rcv.delivered == x.snd.accepted && HEADER_SIZE <= x.cfg.bufferSize
  }

  lemma PeerLearns(x: Conn, y: Conn, env: Env, env': Env, later: Env)
    requires Local(x) && Local(y) && Link(x, y, {}) && AtTheEnd(x, y) && env.mem
    ensures Learns(x, y, env, env', later)
  {
    HangUpTells(x, env);
    var s := Goodbye(x);
    WrapShift(y.rcv.irs + |y.rcv.delivered|, 1);
    assert s.seqNr == Wrap(y.rcv.cur + 1) && s.rst;
    hide Apply, NewPacket, ConnClose, Local, Link, Wrap, Goodbye, Gone;
    ResetHeard(y, s, env', later);
  }

  /** In every reachable state in which everything sent has been delivered, for either direction. */
  lemma EndIsHeard(n: Net, evs: seq<Event>, env: Env, env': Env, later: Env)
    requires Init(n) && FewSent(Run(n, evs)) && env.mem
    ensures var m := Run(n, evs);
            && (AtTheEnd(m.client, m.server) ==> Learns(m.client, m.server, env, env', later))
            && (AtTheEnd(m.server, m.client) ==> Learns(m.server, m.client, env, env', later))
  {
    RunInv(n, evs);
    var m := Run(n, evs);
    W.EmptyLink(m.client, m.server, m.toServer);
    W.EmptyLink(m.server, m.client, m.toClient);
    hide Run, Local, Link, AtTheEnd, Learns;
    if AtTheEnd(m.client, m.server) { PeerLearns(m.client, m.server, env, env', later); }
    if AtTheEnd(m.server, m.client) { PeerLearns(m.server, m.client, env, env', later); }
  }
}
