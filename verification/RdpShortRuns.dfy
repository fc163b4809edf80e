/** Runs in which nothing can outlive its 16-bit number: no side sends more than 32767 payloads and
    no connection asks for a window larger than the queues. */
module RdpShortRuns {
  import opened SeqNumbers
  import opened Rdp
  import opened RdpFrames
  import opened RdpNet
  import opened RdpLocal
  import opened RdpEndToEnd
  import opened RdpWindow
  import opened RdpRetention
  import opened RdpProgress
  import opened RdpLiveness

  /** A window that fits the queues of both nodes and the signed comparison. */
  predicate Roomy(opts: Options, a: Config, b: Config) {
    Span(opts) <= a.maxWindow && Span(opts) <= b.maxWindow && opts.windowSize <= 0x8000
  }

  /** Every connection attempt of the run, and whatever options the pool holds, ask for such a window. */
  predicate Modest(n: Net, evs: seq<Event>) {
    && Roomy(n.client.opts, n.client.cfg, n.server.cfg) && Roomy(n.server.opts, n.client.cfg, n.server.cfg)
    && forall k :: 0 <= k < |evs| && evs[k].Do? && evs[k].op.Dial? ==>
         Roomy(evs[k].op.opts, n.client.cfg, n.server.cfg)
  }

  predicate FewPayloads(n: Net) {
    |n.client.snd.accepted| <= 0x7FFF && |n.server.snd.accepted| <= 0x7FFF
  }

  predicate BothRoomy(n: Net, a: Config, b: Config) {
    Roomy(n.client.opts, a, b) && Roomy(n.server.opts, a, b)
  }

  lemma OptsMove(c: Conn, d: Conn, op: Op, env: Env)
    requires SndMoves(c, d, op, env) && Local(d)
    ensures d.opts == c.opts || (op.Dial? && (d.opts == op.opts || !Synchronizing(d.life.state)))
            || (op.Receive? && d.life.server && d.rcv.established)
  {
    hide Retransmit, CanSend, Send, InReceiveWindow, DecodeOptions, EncodeOptions, SndOk, RcvOk, Acknowledged;
  }

  lemma DialOpts(c: Conn, opts: Options, env: Env)
    ensures Connect(c, opts, env).conn.opts == opts
  {
    hide SendCmp, ConnectFail, Control, EncodeOptions;
    var c1 := Connecting(c, opts, env);
    var syn := Control(c1, true, false, false, 0, EncodeOptions(opts));
    SendCmpFrame(c1, syn, env);
    FailOpts(SendCmp(c1, syn, env).conn, env);
  }

  lemma FailOpts(c: Conn, env: Env)
    ensures ConnectFail(c, env).conn.opts == c.opts
  {
    var c0 := c.(life := c.life.(requested := c.life.requested.Or(PROTOCOL)));
    RdpCloseFrame(c0, PROTOCOL, false, env);
    hide RdpClose, ConnClose;
    ConnCloseFrame(RdpClose(c0, PROTOCOL, false, env).0.conn, USER, env);
  }

  lemma ClientOpts(c: Conn, op: Op, env: Env, inbox: set<Segment>)
    requires Local(c) && !c.life.server && Enabled(c, inbox, op)
    ensures var d := Apply(c, op, env).conn; d.opts == c.opts || (op.Dial? && d.opts == op.opts)
  {
    if op.Dial? {
      DialOpts(c, op.opts, env);
    } else {
      hide Apply, SndMoves, Enabled;
      ApplySnd(c, op, env, inbox);
      ApplyLocal(c, op, env, inbox);
      OptsMove(c, Apply(c, op, env).conn, op, env);
    }
  }

  lemma ServerOpts(c: Conn, op: Op, env: Env, inbox: set<Segment>)
    requires Local(c) && c.life.server && Enabled(c, inbox, op)
    ensures var d := Apply(c, op, env).conn; d.opts == c.opts || d.rcv.established
  {
    assert !op.Dial?;
    hide Apply, SndMoves, Enabled;
    ApplySnd(c, op, env, inbox);
    ApplyLocal(c, op, env, inbox);
    OptsMove(c, Apply(c, op, env).conn, op, env);
  }

  lemma RoomyNext(n: Net, ev: Event, a: Config, b: Config)
    requires BothLocal(n) && Passive(n) && BothRoomy(n, a, b) && Agreed(Next(n, ev))
    requires ev.Do? && ev.op.Dial? ==> Roomy(ev.op.opts, a, b)
    ensures BothRoomy(Next(n, ev), a, b)
  {
    hide Apply, Local, Enabled, Roomy;
    match ev
    case Lose(_, _) =>
    case Do(Client, op, env) =>
      if Enabled(n.client, n.toClient, op) { ClientOpts(n.client, op, env, n.toClient); }
    case Do(Server, op, env) =>
      if Enabled(n.server, n.toServer, op) { ServerOpts(n.server, op, env, n.toServer); }
  }

  lemma SettledNow(n: Net)
    requires WindowInv(n) && FewPayloads(n) && BothRoomy(n, n.client.cfg, n.server.cfg)
    ensures Settled(n)
  {
    hide Local, SendWindow, Wrap;
  }

  /** Whatever the channel does, in a run with at most 32767 payloads from each side and no window
      larger than the queues nothing ever outlives its number. */
  lemma {:induction false} ShortRunsSettle(n: Net, evs: seq<Event>)
    requires Init(n) && Modest(n, evs) && FewPayloads(Run(n, evs))
    ensures SettledAlong(n, evs) && BothRoomy(Run(n, evs), n.client.cfg, n.server.cfg)
    decreases |evs|
  {
    if evs == [] {
      InitSettled(n);
    } else {
      var p, ev := evs[..|evs| - 1], evs[|evs| - 1];
      assert p + [ev] == evs;
      RunNext(n, p, ev);
      hide Settled, Next, Run, BothRoomy, Roomy, SettledAlong;
      FewBefore(n, p, ev);
      ShortRunsSettle(n, p);
      Extend(n, p, ev);
    }
  }

  lemma FewBefore(n: Net, p: seq<Event>, ev: Event)
    requires Init(n) && FewPayloads(Next(Run(n, p), ev))
    ensures FewPayloads(Run(n, p))
  {
    RunLocal(n, p);
    hide Next, Run, BothLocal;
    LocalNext(Run(n, p), ev);
  }

  lemma InitSettled(n: Net)
    requires Init(n) && Modest(n, [])
    ensures SettledAlong(n, [])
  {
  }

  lemma Extend(n: Net, p: seq<Event>, ev: Event)
    requires Init(n) && SettledAlong(n, p) && BothRoomy(Run(n, p), n.client.cfg, n.server.cfg)
    requires ev.Do? && ev.op.Dial? ==> Roomy(ev.op.opts, n.client.cfg, n.server.cfg)
    requires FewPayloads(Next(Run(n, p), ev))
    ensures SettledAlong(n, p + [ev]) && BothRoomy(Run(n, p + [ev]), n.client.cfg, n.server.cfg)
  {
    var m := Run(n, p);
    RunNext(n, p, ev);
    RunCarried(n, p + [ev]);
    RunLocal(n, p);
    forall i | 0 <= i <= |p| ensures Young(Run(n, p[..i])) {
      assert Settled(Run(n, p[..i]));
    }
    assert p[..|p|] == p;
    hide Settled, Next, Run, Inv, SendWindow, Back, BothLocal, Young, Roomy, Carried;
    RunWindow(n, p);
    WindowNext(m, ev);
    RoomyNext(m, ev, n.client.cfg, n.server.cfg);
    SettledNow(Next(m, ev));
    AlongNext(n, p, ev);
  }

  /** So in every such run neither side runs more than its window ahead of the other and nothing
      that may still have to be sent again is lost. */
  lemma ShortRunsKeepWindow(n: Net, evs: seq<Event>)
    requires Init(n) && Modest(n, evs) && FewPayloads(Run(n, evs))
    ensures var m := Run(n, evs);
            && PrefixDelivered(m)
            && WithinWindow(m.client, m.server, m.toServer) && WithinWindow(m.server, m.client, m.toClient)
            && Retains(m.client) && Retains(m.server)
  {
    ShortRunsSettle(n, evs);
    forall i | 0 <= i < |evs| ensures Young(Run(n, evs[..i])) {
      assert Settled(Run(n, evs[..i]));
    }
    hide Settled, Run, Young, PrefixDelivered, WithinWindow, Retains;
    EndToEndUnbounded(n, evs);
    NeverBeyondWindow(n, evs);
    Retention(n, evs);
  }
}
