/** From every reachable state with both sides open, exactly the payloads that are not empty and
    fit a packet with their trailer can still get through. */
module RdpLiveness {
  import opened SeqNumbers
  import opened Rdp
  import opened RdpFrames
  import opened RdpNet
  import opened RdpLocal
  import opened RdpEndToEnd
  import opened RdpWindow
  import opened RdpRetention
  import opened RdpProgress
  import opened RdpReading

  // ---- either side as the sender ----

  function Across(side: Side): Side {
    if side == Client then Server else Client
  }

  function Here(n: Net, side: Side): Conn {
    if side == Client then n.client else n.server
  }

  function There(n: Net, side: Side): Conn {
    Here(n, Across(side))
  }

  /** What is on its way from side to the other. */
  function Outbound(n: Net, side: Side): set<Segment> {
    if side == Client then n.toServer else n.toClient
  }

  function Inbound(n: Net, side: Side): set<Segment> {
    Outbound(n, Across(side))
  }

  lemma NextAt(n: Net, side: Side, op: Op, env: Env)
    requires Enabled(Here(n, side), Inbound(n, side), op)
    ensures var m, e := Next(n, Do(side, op, env)), Apply(Here(n, side), op, env);
            && Here(m, side) == e.conn && There(m, side) == There(n, side)
            && Outbound(m, side) == Outbound(n, side) + Leaving(Here(n, side).cfg, e.out)
            && Inbound(m, side) == Inbound(n, side)
  {
  }

  /** A connection that only moves on: nothing accepted, closed or renegotiated. */
  predicate Calm(c: Conn, d: Conn) {
    && d.cfg == c.cfg && d.opts == c.opts && d.life == c.life.(ticked := d.life.ticked)
    && d.snd.accepted == c.snd.accepted && c.rcv.delivered <= d.rcv.delivered
    && forall s :: s in d.rcv.rxq ==> s in c.rcv.rxq
  }

  predicate CalmNet(n: Net, m: Net) {
    Calm(n.client, m.client) && Calm(n.server, m.server)
  }

  /** A new segment that will not outlive its number. */
  predicate Fresh(s: Segment, own: Snd, peer: Snd) {
    |own.accepted| < s.seqIx + 0xFFFF && |peer.accepted| <= s.ackIx + 0x7FFF
  }

  lemma StaysSettled(n: Net, m: Net)
    requires Settled(n) && CalmNet(n, m)
    requires forall s :: s in m.toServer && s !in n.toServer ==> Fresh(s, n.client.snd, n.server.snd)
    requires forall s :: s in m.toClient && s !in n.toClient ==> Fresh(s, n.server.snd, n.client.snd)
    ensures Settled(m)
  {
  }

  // ---- a timeout check without buffers to spare ----

  /** The surroundings at time now: buffers only for the copies that mem allows. */
  function Short(now: u32, mem: seq<bool>): Env {
    Env(now, false, false, 0, false, mem)
  }

  lemma ShortAck(c: Conn, now: u32, mem: seq<bool>)
    ensures CheckAck(c, Short(now, mem)) == Effect(c, [])
  {
    hide ShouldAck, Control, Signed32;
  }

  lemma ShortService(c: Conn, now: u32, mem: seq<bool>)
    ensures var e := Service(c, Short(now, mem));
            var r := Retransmit(c.snd.txq, c, now, mem);
            && e.out == r.1
            && e.conn == c.(clocks := e.conn.clocks, snd := c.snd.(txq := r.0), rcv := Flush(c.cfg, c.rcv))
  {
    hide Retransmit, Flush, CheckAck;
    var (q, out) := Retransmit(c.snd.txq, c, now, mem);
    ShortAck(c.(snd := c.snd.(txq := q),
                clocks := if out == [] then c.clocks else c.clocks.(ackTimestamp := now)), now, mem);
  }

  lemma ShortTick(c: Conn, now: u32, mem: seq<bool>)
    requires c.life.state == Open && !c.life.hasSocket
    ensures var e := Apply(c, Tick, Short(now, mem));
            var r := Retransmit(c.snd.txq, c, now, mem);
            && e.out == r.1
            && e.conn == c.(life := c.life.(ticked := true), clocks := e.conn.clocks,
                            snd := c.snd.(txq := r.0), rcv := Flush(c.cfg, c.rcv))
  {
    hide Service, Retransmit, Flush, ConnClose;
    ShortService(c, now, mem);
  }

  lemma ShortTickCalm(c: Conn, now: u32, mem: seq<bool>)
    requires c.life.state == Open && !c.life.hasSocket
    ensures Calm(c, Apply(c, Tick, Short(now, mem)).conn)
  {
    ShortTick(c, now, mem);
    FlushFrame(c.cfg, c.rcv);
    hide Apply, Retransmit, Flush;
  }

  /** A buffer for the k-th element only. */
  function Only(k: nat): seq<bool> {
    if k == 0 then [true] else [false] + Only(k - 1)
  }

  lemma {:induction false} OneCopy(q: seq<Timed>, c: Conn, now: u32, k: nat)
    requires k < |q| && !SeqBefore(q[k].seg.seqNr, c.snd.una)
    requires TimeAfter(now, q[k].timestamp + c.opts.packetTimeout)
    ensures Retransmit(q, c, now, Only(k)).1 == [q[k].seg.(ackNr := c.rcv.cur, ackIx := |c.rcv.delivered|)]
    decreases |q|
  {
    hide SeqBefore, TimeAfter;
    if k == 0 {
      NoCopies(q[1..], c, now);
    } else {
      assert Only(k)[1..] == Only(k - 1);
      OneCopy(q[1..], c, now, k - 1);
    }
  }

  /** The moment an element expires. */
  function Expiry(t: Timed, opts: Options): u32 {
    (t.timestamp + opts.packetTimeout + 1) % 0x1_0000_0000
  }

  lemma Expires(t: Timed, opts: Options)
    ensures TimeAfter(Expiry(t, opts), t.timestamp + opts.packetTimeout)
  {
  }

  // ---- the next payload is still queued ----

  /** Two open ends of a direction and everything known about them. */
  predicate Facing(x: Conn, y: Conn) {
    && x.life.state == Open && y.life.state == Open && Local(x) && Local(y)
    && Ready(x, y) && Ready(y, x) && KeptOpen(x) && KeptOpen(y)
    && Link(x, y, {}) && Link(y, x, {}) && SendWindow(x, y) && SendWindow(y, x)
    && x.opts == y.opts
  }

  lemma InvFaces(n: Net, side: Side)
    requires ProgressInv(n) && n.client.life.state == Open && n.server.life.state == Open
    ensures Facing(Here(n, side), There(n, side))
  {
    assert n.server.rcv.established;
    EmptyLink(n.client, n.server, n.toServer);
    EmptyLink(n.server, n.client, n.toClient);
    hide Local, Link, SendWindow, Back, KeptOpen, KeptOpening, Ready;
  }

  /** Position of the first undelivered payload in the retransmission queue. */
  function Place(x: Conn, y: Conn): int {
    |y.rcv.delivered| + 1 - Oldest(x.snd)
  }

  lemma StillQueued(x: Conn, y: Conn)
    requires Facing(x, y) && |y.rcv.delivered| < |x.snd.accepted|
    ensures var k, i := Place(x, y), |y.rcv.delivered|;
            && 0 <= k < |x.snd.txq| && x.snd.txq[k].seg.seqIx == i + 1 && x.snd.txq[k].seg.data == x.snd.accepted[i]
            && Genuine(x.snd.txq[k].seg, x.snd.iss, x.snd.accepted)
            && !x.snd.txq[k].seg.syn && !x.snd.txq[k].seg.rst && x.snd.txq[k].seg.ack && !x.snd.txq[k].seg.eak
  {
    var k := Place(x, y);
    var t := x.snd.txq[k];
    assert t in x.snd.txq;
    hide Wrap, LifeOk, RcvOk;
  }

  lemma NotSwept(x: Conn, y: Conn)
    requires Facing(x, y) && |y.rcv.delivered| < |x.snd.accepted| && x.opts.windowSize < 0x4000
    ensures var k := Place(x, y);
            0 <= k < |x.snd.txq| && !SeqBefore(x.snd.txq[k].seg.seqNr, x.snd.una)
  {
    StillQueued(x, y);
    hide Wrap, LifeOk, RcvOk, SndOk, SeqBefore, Genuine, Ready, Link;
    BeforeUna(x.snd.txq[Place(x, y)], x.snd);
  }

  /** The copy that goes out when the first undelivered payload expires. */
  function Resent(x: Conn, y: Conn): Segment
    requires 0 <= Place(x, y) < |x.snd.txq|
  {
    x.snd.txq[Place(x, y)].seg.(ackNr := x.rcv.cur, ackIx := |x.rcv.delivered|)
  }

  lemma Resends(x: Conn, y: Conn)
    requires Facing(x, y) && |y.rcv.delivered| < |x.snd.accepted| && x.opts.windowSize < 0x4000
    ensures var k := Place(x, y);
            && 0 <= k < |x.snd.txq|
            && Apply(x, Tick, Short(Expiry(x.snd.txq[k], x.opts), Only(k))).out == [Resent(x, y)]
  {
    StillQueued(x, y);
    NotSwept(x, y);
    var k := Place(x, y);
    var t := x.snd.txq[k];
    Expires(t, x.opts);
    assert x.life.state == Open && !x.life.hasSocket;
    hide Apply, Retransmit, SeqBefore, TimeAfter, Facing, Expiry, Place;
    OneCopy(x.snd.txq, x, Expiry(t, x.opts), k);
    ShortTick(x, Expiry(t, x.opts), Only(k));
  }

  // ---- and is taken when it arrives ----

  lemma PlausibleAck(y: Conn, x: Conn, s: Segment)
    requires Facing(x, y) && x.opts.windowSize < 0x4000
    requires s.ackNr == x.rcv.cur
    ensures AckPlausible(y, s)
  {
    var w, base := y.opts.windowSize, y.snd.iss;
    var u, d, a := y.snd.unaIx, |x.rcv.delivered|, |y.snd.accepted|;
    assert x.rcv.cur == Wrap(base + d) && y.snd.una == Wrap(base + u) && y.snd.nxt == Wrap(base + a + 1);
    assert u <= d + 1 && d <= a && a + 1 <= u + 0x8000;
    hide *;
    BetweenOnWire(base + d, base + u, base + a + 1, w);
  }

  lemma BetweenOnWire(ack: int, una: int, nxt: int, w: int)
    requires 0 <= w < 0x4000 && una - 1 <= ack <= nxt - 1 && nxt <= una + 0x8000
    ensures SeqBetween(Wrap(ack), Wrap(una) - 1 - w * 2, Wrap(nxt) - 1)
  {
    WrapSum(nxt, w * 2, una);
    WrapSum(ack, 1 + w * 2, una);
    assert Wrap(nxt) - 1 - (Wrap(una) - 1 - w * 2) == Wrap(nxt) + w * 2 - Wrap(una);
    assert Wrap(ack) - (Wrap(una) - 1 - w * 2) == Wrap(ack) + (1 + w * 2) - Wrap(una);
  }

  lemma TakesNext(y: Conn, s: Segment, now: u32)
    requires y.life.state == Open && y.life.leased && !y.life.hasSocket && |y.rcv.rxQueue| < y.cfg.rxQueueLen
    requires !s.rst && !s.syn && s.ack && !s.eak && s.data != [] && s.seqNr == Wrap(y.rcv.cur + 1)
    requires InReceiveWindow(y, s) && AckPlausible(y, s)
    ensures var e := Apply(y, Receive(s), Short(now, []));
            && e.out == [] && Calm(y, e.conn) && y.rcv.delivered + [s.data] <= e.conn.rcv.delivered
  {
    var env := Short(now, []);
    hide InReceiveWindow, AckPlausible, Wrap, Flush, FindSeq;
    var c := Accepted(y, s, env);
    var r := DeliverNext(y.rcv, s.data);
    FlushFrame(y.cfg, r);
    assert CheckAck(c.(rcv := r), env) == Effect(c.(rcv := r), []);
    assert ReceiveData(c, s, env) == Effect(c.(rcv := Flush(y.cfg, r)), []);
  }

  // ---- one more payload ----

  predicate Live(n: Net, side: Side) {
    && ProgressInv(n) && Settled(n) && n.client.life.state == Open && n.server.life.state == Open
    && n.client.opts.windowSize < 0x4000
    && |There(n, side).rcv.delivered| < |Here(n, side).snd.accepted|
  }

  lemma CalmItself(c: Conn)
    ensures Calm(c, c)
  {
  }

  lemma FlushIdle(cfg: Config, r: Rcv)
    ensures |Flush(cfg, r).delivered| == |r.delivered| ==> Flush(cfg, r) == r
  {
    FlushUnfold(cfg, r);
    hide Flush, FindSeq, Wrap;
    var f := FindSeq(r.rxq, Wrap(r.cur + 1));
    if f.Some? { FlushFrame(cfg, FlushOne(r, f.value)); }
  }

  /** A step after which everything that is new is fresh. */
  lemma StepSettles(n: Net, side: Side, op: Op, env: Env)
    requires ProgressInv(n) && Settled(n) && Enabled(Here(n, side), Inbound(n, side), op)
    requires Calm(Here(n, side), Apply(Here(n, side), op, env).conn)
    requires forall s :: s in Apply(Here(n, side), op, env).out ==> Fresh(s, Here(n, side).snd, There(n, side).snd)
    ensures var m := Next(n, Do(side, op, env)); ProgressInv(m) && Settled(m) && CalmNet(n, m)
  {
    hide ProgressInv, Settled, Apply, Calm, Next, Fresh, Fits, Enabled;
    ProgressNext(n, Do(side, op, env));
    NextAt(n, side, op, env);
    CalmItself(There(n, side));
    StaysSettled(n, Next(n, Do(side, op, env)));
  }

  /** The receiver checks its timeouts. */
  lemma ReceiverTicks(n: Net, side: Side) returns (m: Net)
    requires Live(n, side)
    ensures m == Next(n, Do(Across(side), Tick, Short(0, []))) && ProgressInv(m) && Settled(m) && CalmNet(n, m)
    ensures There(m, side).life.ticked
    ensures |There(m, side).rcv.delivered| == |There(n, side).rcv.delivered| ==>
              There(m, side).rcv == There(n, side).rcv
  {
    InvFaces(n, side);
    var y := There(n, side);
    m := Next(n, Do(Across(side), Tick, Short(0, [])));
    assert y.life.inUse && !y.life.hasSocket && y.life.state == Open;
    hide ProgressInv, Settled, Facing, Apply, Retransmit, Flush, Calm, Next;
    ShortTick(y, 0, []);
    ShortTickCalm(y, 0, []);
    NoCopies(y.snd.txq, y, 0);
    FlushIdle(y.cfg, y.rcv);
    StepSettles(n, Across(side), Tick, Short(0, []));
    NextAt(n, Across(side), Tick, Short(0, []));
  }

  lemma ResentFresh(x: Conn, y: Conn)
    requires Facing(x, y) && |y.rcv.delivered| < |x.snd.accepted| && x.opts.windowSize < 0x4000
    requires 0 <= Place(x, y) < |x.snd.txq|
    ensures Fresh(Resent(x, y), x.snd, y.snd)
  {
    StillQueued(x, y);
    hide Wrap, LifeOk, RcvOk, SndOk, Genuine, Ready, Link, Place, KeptOpen;
  }

  /** The sender sends the first undelivered payload again. */
  lemma SenderTicks(n: Net, side: Side, env: Env) returns (m: Net)
    requires Live(n, side) && Fits(Here(n, side).cfg, Here(n, side).snd.accepted[|There(n, side).rcv.delivered|])
    requires var x, k := Here(n, side), Place(Here(n, side), There(n, side));
             0 <= k < |x.snd.txq| && env == Short(Expiry(x.snd.txq[k], x.opts), Only(k))
    ensures m == Next(n, Do(side, Tick, env)) && ProgressInv(m) && Settled(m) && CalmNet(n, m)
    ensures There(m, side) == There(n, side) && Resent(Here(n, side), There(n, side)) in Outbound(m, side)
  {
    InvFaces(n, side);
    var x, y := Here(n, side), There(n, side);
    m := Next(n, Do(side, Tick, env));
    assert x.life.inUse && !x.life.hasSocket && x.life.state == Open;
    assert Fits(x.cfg, Resent(x, y).data) by { StillQueued(x, y); hide Facing; }
    hide ProgressInv, Settled, Facing, Apply, Calm, Next, Place, Resent, Fresh, Expiry, Fits;
    ResentFresh(x, y);
    Resends(x, y);
    ShortTickCalm(x, env.now, env.retransmitMem);
    StepSettles(n, side, Tick, env);
    NextAt(n, side, Tick, env);
  }

  /** The copy passes both window tests and carries the number the receiver waits for. */
  lemma Arrives(x: Conn, y: Conn)
    requires Facing(x, y) && |y.rcv.delivered| < |x.snd.accepted| && x.opts.windowSize < 0x4000
    requires 0 <= Place(x, y) < |x.snd.txq|
    ensures var s := Resent(x, y);
            && InReceiveWindow(y, s) && AckPlausible(y, s) && s.seqNr == Wrap(y.rcv.cur + 1)
            && !s.rst && !s.syn && s.ack && !s.eak && s.data == x.snd.accepted[|y.rcv.delivered|]
  {
    var s := Resent(x, y);
    StillQueued(x, y);
    PlausibleAck(y, x, s);
    WrapShift(y.rcv.irs + |y.rcv.delivered|, 1);
    assert y.rcv.established && RcvOk(y.rcv) && y.rcv.irs == x.snd.iss;
    assert |x.snd.accepted| <= |y.rcv.delivered| + x.opts.windowSize;
    hide AckPlausible, InReceiveWindow, Facing, Place, Wrap;
    PassesWindow(x, y, s);
  }

  lemma CalmTrans(n: Net, m: Net, k: Net)
    requires CalmNet(n, m) && CalmNet(m, k)
    ensures CalmNet(n, k)
  {
  }

  lemma LiveStill(n: Net, m: Net, side: Side)
    requires Live(n, side) && ProgressInv(m) && Settled(m) && CalmNet(n, m)
    requires |There(m, side).rcv.delivered| < |Here(m, side).snd.accepted|
    ensures Live(m, side)
  {
    hide ProgressInv, Settled;
  }

  lemma Delivers(x: Conn, y: Conn)
    requires Facing(x, y) && |y.rcv.delivered| < |x.snd.accepted| && x.opts.windowSize < 0x4000
    requires 0 <= Place(x, y) < |x.snd.txq| && x.snd.accepted[|y.rcv.delivered|] != []
    requires |y.rcv.rxQueue| < y.cfg.rxQueueLen
    ensures var e := Apply(y, Receive(Resent(x, y)), Short(0, []));
            && e.out == [] && Calm(y, e.conn) && |y.rcv.delivered| < |e.conn.rcv.delivered|
  {
    Arrives(x, y);
    assert y.life.leased && !y.life.hasSocket;
    hide Apply, Calm, Place, Resent, InReceiveWindow, AckPlausible, Wrap, Local, Ready, KeptOpen, Link, SendWindow;
    TakesNext(y, Resent(x, y), 0);
  }

  /** The receiver takes what moves it on. */
  lemma ReceiverTakes(n: Net, side: Side, s: Segment) returns (m: Net)
    requires ProgressInv(n) && Settled(n) && There(n, side).life.inUse && There(n, side).life.leased
    requires There(n, side).life.ticked && s in Outbound(n, side)
    requires var y := There(n, side);
             var e := Apply(y, Receive(s), Short(0, []));
             e.out == [] && Calm(y, e.conn) && |y.rcv.delivered| < |e.conn.rcv.delivered|
    ensures m == Next(n, Do(Across(side), Receive(s), Short(0, []))) && ProgressInv(m) && Settled(m) && CalmNet(n, m)
    ensures |There(n, side).rcv.delivered| < |There(m, side).rcv.delivered|
  {
    hide ProgressInv, Settled, Apply, Calm, Next, Fresh;
    m := Next(n, Do(Across(side), Receive(s), Short(0, [])));
    StepSettles(n, Across(side), Receive(s), Short(0, []));
    NextAt(n, Across(side), Receive(s), Short(0, []));
  }

  /** The sender's copy goes out and the receiver takes it. */
  lemma Exchange(n: Net, side: Side) returns (e: Event, m: Net, e': Event, m': Net)
    requires Live(n, side) && There(n, side).life.ticked
    requires |There(n, side).rcv.rxQueue| < There(n, side).cfg.rxQueueLen
    requires Deliverable(Here(n, side).cfg, Here(n, side).snd.accepted[|There(n, side).rcv.delivered|])
    ensures m == Next(n, e) && m' == Next(m, e') && Settled(m) && Settled(m') && ProgressInv(m') && CalmNet(n, m')
    ensures |There(n, side).rcv.delivered| < |There(m', side).rcv.delivered|
  {
    var x, y := Here(n, side), There(n, side);
    InvFaces(n, side);
    StillQueued(x, y);
    var k := Place(x, y);
    var env := Short(Expiry(x.snd.txq[k], x.opts), Only(k));
    assert y.life.inUse && y.life.leased;
    e, e' := Do(side, Tick, env), Do(Across(side), Receive(Resent(x, y)), Short(0, []));
    hide ProgressInv, Settled, Facing, Apply, Calm, Next, Place, Resent, Expiry, Fits, Short;
    m := SenderTicks(n, side, env);
    Delivers(x, y);
    m' := ReceiverTakes(m, side, Resent(x, y));
    CalmTrans(n, m, m');
  }

  /** The run from n never leaves Settled. */
  predicate SettledAlong(n: Net, evs: seq<Event>) {
    forall i :: 0 <= i <= |evs| ==> Settled(Run(n, evs[..i]))
  }

  lemma RunNext(n: Net, evs: seq<Event>, ev: Event)
    ensures Run(n, evs + [ev]) == Next(Run(n, evs), ev)
  {
    hide Next;
    assert (evs + [ev])[..|evs|] == evs;
  }

  lemma AlongNext(n: Net, evs: seq<Event>, ev: Event)
    requires SettledAlong(n, evs) && Settled(Next(Run(n, evs), ev))
    ensures SettledAlong(n, evs + [ev]) && Run(n, evs + [ev]) == Next(Run(n, evs), ev)
  {
    RunNext(n, evs, ev);
    hide Settled, Next, Run;
    var all := evs + [ev];
    forall i | 0 <= i <= |all| ensures Settled(Run(n, all[..i])) {
      if i <= |evs| { assert all[..i] == evs[..i]; } else { assert all[..i] == all; }
    }
  }

  /** At most three steps deliver at least one more payload. */
  lemma Advance(n: Net, side: Side) returns (more: seq<Event>)
    requires Live(n, side) && |There(n, side).rcv.rxQueue| < There(n, side).cfg.rxQueueLen
    requires Deliverable(Here(n, side).cfg, Here(n, side).snd.accepted[|There(n, side).rcv.delivered|])
    ensures SettledAlong(n, more)
    ensures var m := Run(n, more);
            ProgressInv(m) && CalmNet(n, m) && |There(n, side).rcv.delivered| < |There(m, side).rcv.delivered|
  {
    var e1 := Do(Across(side), Tick, Short(0, []));
    var m1 := ReceiverTicks(n, side);
    assert SettledAlong(n, []);
    hide ProgressInv, Settled, Next, Deliverable, Apply, Short;
    AlongNext(n, [], e1);
    more := [] + [e1];
    if |There(m1, side).rcv.delivered| == |There(n, side).rcv.delivered| {
      assert There(m1, side).cfg == There(n, side).cfg && Here(m1, side).cfg == Here(n, side).cfg
             && Here(m1, side).snd.accepted == Here(n, side).snd.accepted;
      LiveStill(n, m1, side);
      hide Live, Calm;
      var e2, m2, e3, m3 := Exchange(m1, side);
      AlongNext(n, more, e2);
      more := more + [e2];
      AlongNext(n, more, e3);
      more := more + [e3];
      CalmTrans(n, m1, m3);
    }
  }

  // ---- exactly which payloads can still be delivered ----

  lemma {:induction false} RunAppend(n: Net, a: seq<Event>, b: seq<Event>)
    ensures Run(n, a + b) == Run(Run(n, a), b)
    decreases |b|
  {
    if b == [] {
      assert a + b == a;
    } else {
      assert (a + b)[..|a + b| - 1] == a + b[..|b| - 1];
      hide Next;
      RunAppend(n, a, b[..|b| - 1]);
    }
  }

  lemma AlongAppend(n: Net, a: seq<Event>, b: seq<Event>)
    requires SettledAlong(n, a) && SettledAlong(Run(n, a), b)
    ensures SettledAlong(n, a + b)
  {
    hide Settled, Run;
    forall i | 0 <= i <= |a + b| ensures Settled(Run(n, (a + b)[..i])) {
      if i <= |a| {
        assert (a + b)[..i] == a[..i];
      } else {
        assert (a + b)[..i] == a + b[..i - |a|];
        RunAppend(n, a, b[..i - |a|]);
      }
    }
  }

  lemma {:induction false} RunGrows(n: Net, evs: seq<Event>)
    requires BothLocal(n)
    ensures BothLocal(Run(n, evs)) && NetGrows(n, Run(n, evs))
    decreases |evs|
  {
    if evs != [] {
      hide BothLocal, Next;
      RunGrows(n, evs[..|evs| - 1]);
      LocalNext(Run(n, evs[..|evs| - 1]), evs[|evs| - 1]);
    }
  }

  /** Some continuation in which nothing outlives its number delivers more to side's peer. */
  ghost predicate CanDeliver(n: Net, side: Side) {
    exists more :: SettledAlong(n, more) && |There(n, side).rcv.delivered| < |There(Run(n, more), side).rcv.delivered|
  }

  /** Some continuation delivers everything that side's user has sent so far. */
  ghost predicate CanDrain(n: Net, side: Side) {
    exists more :: SettledAlong(n, more) && Here(n, side).snd.accepted <= There(Run(n, more), side).rcv.delivered
  }

  /** A reachable state with both sides open and a window below a quarter of the number space. */
  predicate OpenBoth(n: Net, evs: seq<Event>) {
    var m := Run(n, evs);
    && Init(n) && SettledAlong(n, evs) && m.client.life.state == Open && m.server.life.state == Open
    && m.client.opts.windowSize < 0x4000
  }

  lemma IsLive(n: Net, evs: seq<Event>, side: Side)
    requires OpenBoth(n, evs)
    requires var m := Run(n, evs); |There(m, side).rcv.delivered| < |Here(m, side).snd.accepted|
    ensures Live(Run(n, evs), side)
  {
    assert evs[..|evs|] == evs;
    hide Settled, Run;
    RunProgress(n, evs);
    hide ProgressInv;
  }

  /** What is delivered in a continuation was deliverable. */
  lemma WasDeliverable(n: Net, evs: seq<Event>, more: seq<Event>, side: Side, i: nat)
    requires Init(n) && SettledAlong(n, evs) && SettledAlong(Run(n, evs), more)
    requires i < |Here(Run(n, evs), side).snd.accepted| && i < |There(Run(n, evs + more), side).rcv.delivered|
    ensures Deliverable(Here(Run(n, evs), side).cfg, Here(Run(n, evs), side).snd.accepted[i])
  {
    var all := evs + more;
    AlongAppend(n, evs, more);
    forall j | 0 <= j < |all| ensures Young(Run(n, all[..j])) {
      assert Settled(Run(n, all[..j]));
    }
    RunLocal(n, evs);
    hide Settled, Run, Young, Deliverable;
    RunWindow(n, all);
    RunCarried(n, evs);
    RunCarried(n, all);
    RunAppend(n, evs, more);
    RunGrows(Run(n, evs), more);
    hide Local, SendWindow, Back;
  }

  /** In every reachable state with both sides open and room on the receiver's queue: the next
      payload can still be delivered exactly when it is not empty and fits a packet together with
      header and trailer. */
  lemma ProgressExactly(n: Net, evs: seq<Event>, side: Side)
    requires OpenBoth(n, evs)
    requires var m := Run(n, evs);
             && |There(m, side).rcv.delivered| < |Here(m, side).snd.accepted|
             && |There(m, side).rcv.rxQueue| < There(m, side).cfg.rxQueueLen
    ensures var m := Run(n, evs);
            CanDeliver(m, side) <==>
              Deliverable(Here(m, side).cfg, Here(m, side).snd.accepted[|There(m, side).rcv.delivered|])
  {
    var m := Run(n, evs);
    var i := |There(m, side).rcv.delivered|;
    if Deliverable(Here(m, side).cfg, Here(m, side).snd.accepted[i]) {
      IsLive(n, evs, side);
      var more := Advance(m, side);
    } else if CanDeliver(m, side) {
      hide Run, SettledAlong;
      var more :| SettledAlong(m, more) && i < |There(Run(m, more), side).rcv.delivered|;
      RunAppend(n, evs, more);
      WasDeliverable(n, evs, more, side, i);
    }
  }

  // ---- and everything can be, once the receiver reads ----

  predicate Rest(cfg: Config, ds: seq<Data>, i: nat) {
    forall j :: i <= j < |ds| ==> Deliverable(cfg, ds[j])
  }

  lemma ReadMakesRoom(y: Conn)
    requires y.life.inUse && y.rcv.rxQueue != []
    ensures var e := Apply(y, Fetch, Short(0, []));
            e.out == [] && Calm(y, e.conn) && |e.conn.rcv.rxQueue| < |y.rcv.rxQueue|
            && e.conn.rcv.delivered == y.rcv.delivered
  {
  }

  /** The receiver reads once. */
  lemma ReadStep(n: Net, side: Side) returns (m: Net)
    requires Live(n, side) && There(n, side).life.handed && There(n, side).rcv.rxQueue != []
    ensures m == Next(n, Do(Across(side), Fetch, Short(0, []))) && Live(m, side) && CalmNet(n, m)
    ensures There(m, side).rcv.delivered == There(n, side).rcv.delivered
    ensures |There(m, side).rcv.rxQueue| < |There(n, side).rcv.rxQueue|
  {
    var y := There(n, side);
    m := Next(n, Do(Across(side), Fetch, Short(0, [])));
    InvFaces(n, side);
    assert y.life.inUse;
    hide ProgressInv, Settled, Facing, Apply, Next;
    ReadMakesRoom(y);
    StepSettles(n, Across(side), Fetch, Short(0, []));
    NextAt(n, Across(side), Fetch, Short(0, []));
    LiveStill(n, m, side);
  }

  /** The receiver reads until its queue has room. */
  lemma {:induction false} Room(n: Net, side: Side) returns (more: seq<Event>)
    requires Live(n, side) && There(n, side).life.handed && There(n, side).cfg.rxQueueLen > 0
    ensures SettledAlong(n, more)
    ensures var m := Run(n, more);
            && Live(m, side) && CalmNet(n, m) && There(m, side).rcv.delivered == There(n, side).rcv.delivered
            && |There(m, side).rcv.rxQueue| < There(m, side).cfg.rxQueueLen
    decreases |There(n, side).rcv.rxQueue|
  {
    var y := There(n, side);
    assert SettledAlong(n, []);
    more := [];
    if |y.rcv.rxQueue| >= y.cfg.rxQueueLen {
      var e := Do(Across(side), Fetch, Short(0, []));
      var m := ReadStep(n, side);
      assert Settled(m);
      hide Live, Settled, Next;
      AlongNext(n, [], e);
      var rest := Room(m, side);
      more := ([] + [e]) + rest;
      AlongAppend(n, [] + [e], rest);
      RunAppend(n, [] + [e], rest);
      CalmTrans(n, m, Run(m, rest));
    } else {
      CalmItself(n.client);
      CalmItself(n.server);
    }
  }

  lemma InvPrefix(n: Net, side: Side)
    requires ProgressInv(n)
    ensures There(n, side).rcv.delivered <= Here(n, side).snd.accepted
  {
    hide Local, SendWindow, Back, Kept, Ready;
  }

  /** Room, then at least one more payload. */
  lemma Round(n: Net, side: Side) returns (m: Net, made: seq<Event>)
    requires Live(n, side) && There(n, side).life.handed && There(n, side).cfg.rxQueueLen > 0
    requires Deliverable(Here(n, side).cfg, Here(n, side).snd.accepted[|There(n, side).rcv.delivered|])
    ensures SettledAlong(n, made) && m == Run(n, made) && ProgressInv(m) && CalmNet(n, m)
    ensures |There(n, side).rcv.delivered| < |There(m, side).rcv.delivered|
  {
    var first := Room(n, side);
    var m1 := Run(n, first);
    assert Here(m1, side).cfg == Here(n, side).cfg && Here(m1, side).snd.accepted == Here(n, side).snd.accepted;
    hide Live, Run, SettledAlong, ProgressInv, Deliverable, Calm;
    var second := Advance(m1, side);
    made := first + second;
    AlongAppend(n, first, second);
    RunAppend(n, first, second);
    m := Run(n, made);
    CalmTrans(n, m1, m);
  }

  /** Both sides open, a reader, and nothing left that cannot be delivered. */
  predicate Draining(n: Net, side: Side) {
    && ProgressInv(n) && Settled(n) && n.client.life.state == Open && n.server.life.state == Open
    && n.client.opts.windowSize < 0x4000
    && There(n, side).life.handed && There(n, side).cfg.rxQueueLen > 0
    && There(n, side).rcv.delivered <= Here(n, side).snd.accepted
    && Rest(Here(n, side).cfg, Here(n, side).snd.accepted, |There(n, side).rcv.delivered|)
  }

  lemma StillDraining(n: Net, m: Net, side: Side)
    requires Draining(n, side) && ProgressInv(m) && Settled(m) && CalmNet(n, m)
    ensures Draining(m, side)
  {
    InvPrefix(m, side);
    hide ProgressInv, Settled, Deliverable;
  }

  lemma LastSettled(n: Net, evs: seq<Event>)
    requires SettledAlong(n, evs)
    ensures Settled(Run(n, evs))
  {
    assert evs[..|evs|] == evs;
    hide Settled, Run;
  }

  lemma {:induction false} Drain(n: Net, side: Side) returns (more: seq<Event>)
    requires Draining(n, side)
    ensures SettledAlong(n, more) && Here(n, side).snd.accepted <= There(Run(n, more), side).rcv.delivered
    ensures Draining(Run(n, more), side)
    decreases |Here(n, side).snd.accepted| - |There(n, side).rcv.delivered|
  {
    assert SettledAlong(n, []);
    more := [];
    if |There(n, side).rcv.delivered| < |Here(n, side).snd.accepted| {
      assert Live(n, side);
      var m, made := Round(n, side);
      LastSettled(n, made);
      StillDraining(n, m, side);
      hide Draining, Live, Settled, Run, SettledAlong;
      var rest := Drain(m, side);
      more := made + rest;
      AlongAppend(n, made, rest);
      RunAppend(n, made, rest);
    }
  }

  /** In every reachable state with both sides open, the receiver's handle in user space and at
      least one slot on its queue: everything sent so far can still be delivered exactly when every
      payload not yet delivered is not empty and fits. */
  lemma DrainsExactly(n: Net, evs: seq<Event>, side: Side)
    requires OpenBoth(n, evs)
    requires var m := Run(n, evs); There(m, side).life.handed && There(m, side).cfg.rxQueueLen > 0
    ensures var m := Run(n, evs);
            CanDrain(m, side) <==>
              Rest(Here(m, side).cfg, Here(m, side).snd.accepted, |There(m, side).rcv.delivered|)
  {
    var m := Run(n, evs);
    LastSettled(n, evs);
    RunProgress(n, evs);
    InvPrefix(m, side);
    hide Run, SettledAlong, ProgressInv, Settled, Deliverable;
    if Rest(Here(m, side).cfg, Here(m, side).snd.accepted, |There(m, side).rcv.delivered|) {
      var more := Drain(m, side);
    } else if CanDrain(m, side) {
      var more :| SettledAlong(m, more) && Here(m, side).snd.accepted <= There(Run(m, more), side).rcv.delivered;
      RunAppend(n, evs, more);
      forall j | |There(m, side).rcv.delivered| <= j < |Here(m, side).snd.accepted|
        ensures Deliverable(Here(m, side).cfg, Here(m, side).snd.accepted[j])
      {
        WasDeliverable(n, evs, more, side, j);
      }
    }
  }

  // ---- up to the user ----

  /** Some continuation gives the peer's user everything that side's user has sent so far. */
  ghost predicate CanRead(n: Net, side: Side) {
    exists more :: SettledAlong(n, more) && Here(n, side).snd.accepted <= There(Run(n, more), side).rcv.read
  }

  lemma FetchOne(n: Net, side: Side) returns (m: Net)
    requires Draining(n, side) && There(n, side).rcv.rxQueue != []
    ensures m == Next(n, Do(Across(side), Fetch, Short(0, []))) && Draining(m, side)
    ensures There(m, side).rcv.delivered == There(n, side).rcv.delivered
    ensures |There(m, side).rcv.rxQueue| < |There(n, side).rcv.rxQueue|
  {
    var y := There(n, side);
    m := Next(n, Do(Across(side), Fetch, Short(0, [])));
    InvFaces(n, side);
    assert y.life.inUse && y.life.handed;
    hide ProgressInv, Settled, Facing, Apply, Next, Draining;
    ReadMakesRoom(y);
    StepSettles(n, Across(side), Fetch, Short(0, []));
    NextAt(n, Across(side), Fetch, Short(0, []));
    StillDraining(n, m, side);
  }

  lemma {:induction false} FetchAll(n: Net, side: Side) returns (more: seq<Event>)
    requires Draining(n, side)
    ensures SettledAlong(n, more)
    ensures There(Run(n, more), side).rcv.delivered == There(n, side).rcv.delivered
    ensures There(Run(n, more), side).rcv.rxQueue == [] && Draining(Run(n, more), side)
    decreases |There(n, side).rcv.rxQueue|
  {
    assert SettledAlong(n, []);
    more := [];
    if There(n, side).rcv.rxQueue != [] {
      var e := Do(Across(side), Fetch, Short(0, []));
      var m := FetchOne(n, side);
      assert Settled(m);
      hide Draining, Settled, Next;
      AlongNext(n, [], e);
      var rest := FetchAll(m, side);
      more := ([] + [e]) + rest;
      AlongAppend(n, [] + [e], rest);
      RunAppend(n, [] + [e], rest);
    }
  }

  lemma DrainingInUse(n: Net, side: Side)
    requires Draining(n, side)
    ensures There(n, side).life.inUse
  {
    InvFaces(n, side);
    hide ProgressInv, Settled, Ready, KeptOpen, Link, SendWindow;
  }

  lemma NothingWaits(y: Conn)
    requires InOrder(y) && y.life.inUse && y.rcv.rxQueue == []
    ensures y.rcv.read == y.rcv.delivered
  {
    assert y.rcv.read + [] == y.rcv.read;
  }

  lemma ReadsDrained(n: Net, evs: seq<Event>, more: seq<Event>, side: Side)
    requires Init(n) && There(Run(Run(n, evs), more), side).life.inUse
    requires There(Run(Run(n, evs), more), side).rcv.rxQueue == []
    ensures var y := There(Run(Run(n, evs), more), side); y.rcv.read == y.rcv.delivered
  {
    hide Run;
    RunAppend(n, evs, more);
    RunInOrder(n, evs + more);
    hide InOrder;
    NothingWaits(There(Run(n, evs + more), side));
  }

  lemma CanReadIf(n: Net, evs: seq<Event>, side: Side)
    requires Init(n) && Draining(Run(n, evs), side)
    ensures CanRead(Run(n, evs), side)
  {
    var m := Run(n, evs);
    hide Run, SettledAlong, Draining;
    var a := Drain(m, side);
    var b := FetchAll(Run(m, a), side);
    AlongAppend(m, a, b);
    RunAppend(m, a, b);
    DrainingInUse(Run(m, a + b), side);
    ReadsDrained(n, evs, a + b, side);
  }

  lemma CanReadDrains(n: Net, evs: seq<Event>, side: Side)
    requires Init(n) && CanRead(Run(n, evs), side)
    ensures CanDrain(Run(n, evs), side)
  {
    var m := Run(n, evs);
    hide Run, SettledAlong;
    var more :| SettledAlong(m, more) && Here(m, side).snd.accepted <= There(Run(m, more), side).rcv.read;
    RunAppend(n, evs, more);
    RunInOrder(n, evs + more);
  }

  /** From csp_send to csp_read: in every reachable state with both sides open, the receiver's handle in user
      space and at least one slot on its queue, the user can still be given everything sent so far exactly
      when every payload not yet delivered is not empty and fits. */
  lemma ReadsExactly(n: Net, evs: seq<Event>, side: Side)
    requires OpenBoth(n, evs)
    requires var m := Run(n, evs); There(m, side).life.handed && There(m, side).cfg.rxQueueLen > 0
    ensures var m := Run(n, evs);
            CanRead(m, side) <==>
              Rest(Here(m, side).cfg, Here(m, side).snd.accepted, |There(m, side).rcv.delivered|)
  {
    var m := Run(n, evs);
    LastSettled(n, evs);
    RunProgress(n, evs);
    InvPrefix(m, side);
    if Rest(Here(m, side).cfg, Here(m, side).snd.accepted, |There(m, side).rcv.delivered|) {
      CanReadIf(n, evs, side);
    } else {
      hide Run, SettledAlong, ProgressInv, Settled, Rest, CanRead, CanDrain;
      if CanRead(m, side) { CanReadDrains(n, evs, side); }
      DrainsExactly(n, evs, side);
    }
  }
}
