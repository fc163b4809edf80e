/** The bound of 65535 payloads in EndToEnd cannot be raised: with one more payload the
    number of the first one comes round again, and a late duplicate of it is delivered. */
module RdpWrapAround {
  import opened SeqNumbers
  import opened Rdp
  import opened RdpNet
  import opened RdpEndToEnd
  import opened RdpReading

  /** A connection with CRC-32. */
  const CFG := Config(5, 16, 256, 4)
  const OPTS := Options(4, 10000, 1000, 0, 250, 2)
  const ENV := Env(0, true, true, 0, true, [])
  const PAYLOAD: Data := [0]

  function Payloads(k: nat): (p: seq<Data>)
    ensures |p| == k
  {
    if k == 0 then [] else Payloads(k - 1) + [PAYLOAD]
  }

  // ---- the two endpoints after k payloads were sent, delivered, acknowledged and read ----

  function ClientAt(k: nat): Conn {
    Conn(CFG, OPTS,
         Life(false, true, false, Open, NOBODY, true, true, true, false, NOBODY),
         Clocks(0, 0, 0),
         Snd(Wrap(k + 1), Wrap(k + 1), 0, [], Payloads(k), k + 1, k + 1, true),
         Rcv(0, 0, [], [], [], [], true))
  }

  function ServerAt(k: nat): Conn {
    Conn(CFG, OPTS,
         Life(true, true, false, Open, NOBODY, true, true, true, false, NOBODY),
         Clocks(0, 0, Wrap(k)),
         Snd(1, 1, 0, [], [], 1, 1, true),
         Rcv(Wrap(k), 0, [], [], Payloads(k), Payloads(k), true))
  }

  /** The k-th payload on the wire and its acknowledgement. */
  function DataSegment(k: nat): Segment {
    Segment(false, true, false, false, Wrap(k), 0, PAYLOAD, k, 0)
  }

  function AckSegment(k: nat): Segment {
    Segment(false, true, false, false, 1, Wrap(k), [], 1, k)
  }

  lemma WriteNext(k: nat)
    ensures var e := Apply(ClientAt(k), Write(PAYLOAD), ENV);
            && e.out == [DataSegment(k + 1)]
            && e.conn == ClientAt(k).(snd := ClientAt(k).snd.(nxt := Wrap(k + 2), txq := [Timed(DataSegment(k + 1), 0)],
                                                              accepted := Payloads(k + 1)))
  {
    WrapShift(k + 1, 1);
    WrapSum(k + 1, 3, k + 1);
    assert Wrap(3) == 3;
    assert ReadyForTx(ClientAt(k));
  }

  function ClientSent(k: nat): Conn {
    ClientAt(k).(snd := ClientAt(k).snd.(nxt := Wrap(k + 2), txq := [Timed(DataSegment(k + 1), 0)],
                                         accepted := Payloads(k + 1)))
  }

  function ServerGot(k: nat): Conn {
    ServerAt(k + 1).(life := ServerAt(k).life.(ticked := false),
                     rcv := ServerAt(k + 1).rcv.(rxQueue := [Packet(PAYLOAD)], read := Payloads(k)))
  }

  lemma ReceiveNext(k: nat)
    ensures Apply(ServerAt(k), Receive(DataSegment(k + 1)), ENV) == Effect(ServerGot(k), [AckSegment(k + 1)])
  {
    var c, s := ServerAt(k), DataSegment(k + 1);
    WrapShift(k, 1);
    WrapDiff(k + 1, k + 1);
    assert Wrap(0) == 0 && Wrap(7) == 7 && Wrap(8) == 8;
    assert InReceiveWindow(c, s) by {
      WrapSum(k + 1, -1, k);
      assert s.seqNr - (c.rcv.cur + 1) == Wrap(k + 1) + -1 - Wrap(k);
    }
    assert AckPlausible(c, s);
    var c2 := Accepted(c, s, ENV);
    assert c2 == c;
    hide InReceiveWindow, AckPlausible;
    assert NewPacket(c, s, ENV) == ReceiveData(c, s, ENV);
    var c3 := c.(rcv := DeliverNext(c.rcv, PAYLOAD));
    assert CheckAck(c3, ENV) == Effect(c3.(clocks := Clocks(0, 0, Wrap(k + 1))), [AckSegment(k + 1)]);
    assert Flush(CFG, c3.rcv) == c3.rcv;
  }

  lemma FetchNext(k: nat)
    ensures Apply(ServerGot(k), Fetch, ENV) == Effect(ServerGot(k).(rcv := ServerAt(k + 1).rcv), [])
  {
  }

  lemma ServerTick(k: nat)
    ensures Apply(ServerGot(k).(rcv := ServerAt(k + 1).rcv), Tick, ENV) == Effect(ServerAt(k + 1), [])
  {
  }

  lemma AckNext(k: nat)
    ensures Apply(ClientSent(k), Receive(AckSegment(k + 1)), ENV)
         == Effect(ClientAt(k + 1).(life := ClientAt(k).life.(ticked := false),
                                    snd := ClientAt(k + 1).snd.(txq := [Timed(DataSegment(k + 1), 0)])), [])
  {
    var c, s := ClientSent(k), AckSegment(k + 1);
    WrapShift(k + 1, 1);
    assert InReceiveWindow(c, s);
    assert AckPlausible(c, s) by {
      var lo := c.snd.una - 1 - 8;
      WrapSum(k + 2, 8, k + 1);
      WrapSum(k + 1, 9, k + 1);
      assert c.snd.nxt - 1 - lo == Wrap(k + 2) + 8 - Wrap(k + 1);
      assert s.ackNr - lo == Wrap(k + 1) + 9 - Wrap(k + 1);
    }
  }

  lemma ClientTick(k: nat)
    ensures var c := ClientAt(k + 1).(life := ClientAt(k).life.(ticked := false),
                                      snd := ClientAt(k + 1).snd.(txq := [Timed(DataSegment(k + 1), 0)]));
            Apply(c, Tick, ENV) == Effect(ClientAt(k + 1), [])
  {
    var c := ClientAt(k + 1).(life := ClientAt(k).life.(ticked := false),
                              snd := ClientAt(k + 1).snd.(txq := [Timed(DataSegment(k + 1), 0)]));
    WrapDiff(k + 1, k + 2);
    assert SeqBefore(Wrap(k + 1), Wrap(k + 2));
    assert c.snd.txq[1..] == [];
    assert Retransmit(c.snd.txq, c, 0, []) == ([], []);
    assert Service(c, ENV) == Effect(c.(snd := c.snd.(txq := [])), []);
  }

  // ---- the handshake ----

  const START: Net := Net(Fresh(false), Fresh(true), {}, {})

  function Fresh(server: bool): Conn {
    Conn(CFG, OPTS, Life(server, false, false, Closed, NOBODY, false, false, false, false, NOBODY),
         Clocks(0, 0, 0), Snd(0, 0, 0, [], [], 0, 0, false), Rcv(0, 0, [], [], [], [], false))
  }

  const SYN: Segment := Segment(true, false, false, false, 0, 0, EncodeOptions(OPTS), 0, 0)
  const SYNACK: Segment := Segment(true, true, false, false, 0, 0, [], 0, 0)

  function Dialling(): Conn {
    Conn(CFG, OPTS, Life(false, true, false, SynSent, NOBODY, true, false, false, false, NOBODY),
         Clocks(0, 0, 0), Snd(1, 0, 0, [Timed(SYN, 0)], [], 0, 0, true), Rcv(0, 0, [], [], [], [], false))
  }

  function Answering(): Conn {
    Conn(CFG, OPTS, Life(true, true, true, SynRcvd, NOBODY, true, false, false, false, NOBODY),
         Clocks(0, 0, 0), Snd(1, 0, 0, [Timed(SYNACK, 0)], [], 0, 0, true), Rcv(0, 0, [], [], [], [], true))
  }

  function Connected(): Conn {
    ClientAt(0).(life := ClientAt(0).life.(ticked := false, handed := false),
                 snd := ClientAt(0).snd.(txq := [Timed(SYN, 0)]))
  }

  function Joined(): Conn {
    ServerAt(0).(life := ServerAt(0).life.(ticked := false), snd := ServerAt(0).snd.(txq := [Timed(SYNACK, 0)]))
  }

  lemma DialStep()
    ensures Apply(Fresh(false), Dial(OPTS), ENV) == Effect(Dialling(), [SYN])
  {
    hide EncodeOptions;
  }

  lemma AnswerStep()
    ensures Apply(Fresh(true), Receive(SYN), ENV) == Effect(Answering(), [SYNACK])
  {
    OptionsRoundTrip(OPTS);
    hide EncodeOptions, DecodeOptions;
  }

  lemma SingleSweep(c: Conn, t: Timed)
    requires c.snd.txq == [t] && c.cfg == CFG && c.opts == OPTS && c.rcv.rxq == []
    requires c.clocks.timestamp == 0 && c.life.state != CloseWait
    requires t.timestamp == 0
    ensures CheckTimeouts(c, ENV)
         == Effect(c.(snd := c.snd.(txq := if SeqBefore(t.seg.seqNr, c.snd.una) then [] else [t])), [])
  {
    hide SeqBefore;
    assert c.snd.txq[1..] == [] && c.snd.txq[0] == t;
    assert Retransmit([], c, 0, []) == ([], []);
    assert !TimeAfter(0, t.timestamp + c.opts.packetTimeout);
    assert [t] + [] == [t];
    assert Retransmit(c.snd.txq, c, 0, []) == (if SeqBefore(t.seg.seqNr, c.snd.una) then [] else [t], []);
    assert Flush(c.cfg, c.rcv) == c.rcv;
  }

  function Ready(c: Conn): Conn {
    c.(life := c.life.(ticked := true))
  }

  lemma HandshakeTicks()
    ensures Apply(Dialling(), Tick, ENV) == Effect(Ready(Dialling()), [])
    ensures Apply(Answering(), Tick, ENV) == Effect(Ready(Answering()), [])
  {
    hide EncodeOptions;
    SingleSweep(Dialling(), Timed(SYN, 0));
    SingleSweep(Answering(), Timed(SYNACK, 0));
    hide CheckTimeouts;
  }

  lemma ConnectStep()
    ensures Apply(Ready(Dialling()), Receive(SYNACK), ENV) == Effect(Connected(), [AckSegment(0)])
  {
    hide EncodeOptions;
  }

  lemma JoinStep()
    ensures Apply(Ready(Answering()), Receive(AckSegment(0)), ENV) == Effect(Joined(), [])
  {
    var d := Ready(Answering());
    assert InReceiveWindow(d, AckSegment(0));
    assert AckPlausible(d, AckSegment(0));
  }

  lemma SettleStep()
    ensures var c := Connected().(life := Connected().life.(handed := true));
            && Apply(Connected(), Dialled, ENV) == Effect(c, [])
            && Apply(c, Tick, ENV) == Effect(ClientAt(0), [])
            && Apply(Joined(), Tick, ENV) == Effect(ServerAt(0), [])
  {
    hide EncodeOptions;
    SingleSweep(Connected().(life := Connected().life.(handed := true)), Timed(SYN, 0));
    SingleSweep(Joined(), Timed(SYNACK, 0));
  }

  // ---- putting the run together ----

  /** Whoever connects asks for OPTS. */
  predicate Asks(evs: seq<Event>) {
    forall k :: 0 <= k < |evs| && evs[k].Do? && evs[k].op.Dial? ==> evs[k].op.opts == OPTS
  }

  ghost predicate Reaches(n: Net, m: Net) {
    exists evs :: Run(n, evs) == m && Asks(evs)
  }

  lemma ReachesItself(n: Net)
    ensures Reaches(n, n)
  {
    assert Run(n, []) == n && Asks([]);
  }

  lemma ReachesNext(n: Net, m: Net, ev: Event)
    requires Reaches(n, m) && (ev.Do? && ev.op.Dial? ==> ev.op.opts == OPTS)
    ensures Reaches(n, Next(m, ev))
  {
    var evs :| Run(n, evs) == m && Asks(evs);
    assert (evs + [ev])[..|evs|] == evs;
    assert Run(n, evs + [ev]) == Next(m, ev);
    assert Asks(evs + [ev]);
  }

  /** One step of an endpoint whose effect is known, at the end of a run. */
  lemma ClientDoes(from: Net, n: Net, op: Op, e: Effect) returns (m: Net)
    requires Reaches(from, n) && Enabled(n.client, n.toClient, op) && Apply(n.client, op, ENV) == e
    requires op.Dial? ==> op.opts == OPTS
    ensures Reaches(from, m) && m == Net(e.conn, n.server, n.toClient, n.toServer + Leaving(n.client.cfg, e.out))
  {
    m := Next(n, Do(Client, op, ENV));
    ReachesNext(from, n, Do(Client, op, ENV));
  }

  lemma ServerDoes(from: Net, n: Net, op: Op, e: Effect) returns (m: Net)
    requires Reaches(from, n) && Enabled(n.server, n.toServer, op) && Apply(n.server, op, ENV) == e
    requires !op.Dial?
    ensures Reaches(from, m) && m == Net(n.client, e.conn, n.toClient + Leaving(n.server.cfg, e.out), n.toServer)
  {
    m := Next(n, Do(Server, op, ENV));
    ReachesNext(from, n, Do(Server, op, ENV));
  }

  /** Both endpoints at rest after k payloads. */
  predicate AtRest(n: Net, k: nat) {
    n.client == ClientAt(k) && n.server == ServerAt(k)
  }

  /** From rest to rest with one more payload, keeping everything in flight. */
  lemma OneRound(from: Net, n: Net, k: nat) returns (m: Net)
    requires Reaches(from, n) && AtRest(n, k)
    ensures Reaches(from, m) && AtRest(m, k + 1)
    ensures n.toServer <= m.toServer && DataSegment(k + 1) in m.toServer
  {
    WriteNext(k); ReceiveNext(k); FetchNext(k); ServerTick(k); AckNext(k); ClientTick(k);
    var d, a := DataSegment(k + 1), AckSegment(k + 1);
    var sv2 := ServerGot(k).(rcv := ServerAt(k + 1).rcv);
    var c2 := ClientAt(k + 1).(life := ClientAt(k).life.(ticked := false),
                               snd := ClientAt(k + 1).snd.(txq := [Timed(d, 0)]));
    hide Apply, Payloads, DataSegment, AckSegment, Reaches, Wrap;
    m := ClientDoes(from, n, Write(PAYLOAD), Effect(ClientSent(k), [d]));
    m := ServerDoes(from, m, Receive(d), Effect(ServerGot(k), [a]));
    m := ServerDoes(from, m, Fetch, Effect(sv2, []));
    m := ServerDoes(from, m, Tick, Effect(ServerAt(k + 1), []));
    m := ClientDoes(from, m, Receive(a), Effect(c2, []));
    m := ClientDoes(from, m, Tick, Effect(ClientAt(k + 1), []));
  }

  lemma HandshakeFits()
    ensures Fits(CFG, SYN.data) && Fits(CFG, SYNACK.data) && Fits(CFG, AckSegment(0).data)
  {
    hide EncodeOptions;
  }

  lemma Calls() returns (m: Net)
    ensures Reaches(START, m) && m.client == Connected() && m.server == Answering() && AckSegment(0) in m.toServer
  {
    DialStep(); AnswerStep(); HandshakeTicks(); ConnectStep();
    HandshakeFits();
    hide Apply, EncodeOptions, Reaches, AckSegment, Connected, Fits;
    ReachesItself(START);
    m := ClientDoes(START, START, Dial(OPTS), Effect(Dialling(), [SYN]));
    m := ServerDoes(START, m, Receive(SYN), Effect(Answering(), [SYNACK]));
    m := ClientDoes(START, m, Tick, Effect(Ready(Dialling()), []));
    m := ClientDoes(START, m, Receive(SYNACK), Effect(Connected(), [AckSegment(0)]));
  }

  lemma Handshake() returns (m: Net)
    ensures Reaches(START, m) && AtRest(m, 0)
  {
    m := Calls();
    HandshakeTicks(); JoinStep(); SettleStep();
    var held := Connected().(life := Connected().life.(handed := true));
    hide Apply, EncodeOptions, Reaches, AckSegment;
    m := ServerDoes(START, m, Tick, Effect(Ready(Answering()), []));
    m := ServerDoes(START, m, Receive(AckSegment(0)), Effect(Joined(), []));
    m := ClientDoes(START, m, Dialled, Effect(held, []));
    m := ClientDoes(START, m, Tick, Effect(ClientAt(0), []));
    m := ServerDoes(START, m, Tick, Effect(ServerAt(0), []));
  }

  lemma {:induction false} Rounds(k: nat) returns (m: Net)
    ensures Reaches(START, m) && AtRest(m, k)
    ensures k > 0 ==> DataSegment(1) in m.toServer
  {
    if k == 0 {
      m := Handshake();
    } else {
      var n := Rounds(k - 1);
      m := OneRound(START, n, k - 1);
      hide *;
    }
  }

  /** A segment's history tag has no influence on what is delivered. */
  lemma LateDuplicate()
    ensures |Apply(ServerAt(0x1_0000), Receive(DataSegment(1)), ENV).conn.rcv.delivered| == 0x1_0001
  {
    var c, s := ServerAt(0x1_0000), DataSegment(1);
    hide Payloads;
    assert Wrap(0x1_0000) == 0;
    assert InReceiveWindow(c, s) && AckPlausible(c, s);
    assert Accepted(c, s, ENV) == c;
    hide InReceiveWindow, AckPlausible;
    assert NewPacket(c, s, ENV) == ReceiveData(c, s, ENV);
    var c3 := c.(rcv := DeliverNext(c.rcv, PAYLOAD));
    assert CheckAck(c3, ENV).conn.rcv == c3.rcv;
    assert Flush(CFG, c3.rcv) == c3.rcv;
  }

  /** With 65536 payloads accepted, the receiver can be given 65537. */
  lemma OneTooMany() returns (m: Net)
    ensures Reaches(START, m) && Init(START)
    ensures |m.client.snd.accepted| == 0x1_0000 && m.server.snd.accepted == [] && !PrefixDelivered(m)
  {
    var n := Rounds(0x1_0000);
    LateDuplicate();
    assert ServerAt(0x1_0000).life.ticked && ServerAt(0x1_0000).life.leased && ServerAt(0x1_0000).life.inUse;
    var e := Apply(ServerAt(0x1_0000), Receive(DataSegment(1)), ENV);
    assert e.conn.snd.accepted == [];
    hide Apply, Reaches, DataSegment;
    m := ServerDoes(START, n, Receive(DataSegment(1)), e);
  }

  /** The number of payloads accepted on the busier side of a run. */
  predicate AtMost(n: Net, limit: nat) {
    |n.client.snd.accepted| <= limit && |n.server.snd.accepted| <= limit
  }

  /** End-to-end safety holds for every run of at most limit payloads per side exactly when
      the limit is at most 65535. */
  lemma EndToEndExactly(limit: nat)
    ensures (forall n, evs :: Init(n) && AtMost(Run(n, evs), limit) ==> PrefixDelivered(Run(n, evs)))
            <==> limit <= 0xFFFF
  {
    if limit <= 0xFFFF {
      forall n, evs | Init(n) && AtMost(Run(n, evs), limit)
        ensures PrefixDelivered(Run(n, evs))
      {
        EndToEnd(n, evs);
      }
    } else {
      var m := OneTooMany();
      var evs :| Run(START, evs) == m && Asks(evs);
      hide PrefixDelivered, Init;
      assert AtMost(Run(START, evs), limit);
    }
  }

  lemma ReadsLate(c: Conn)
    requires c.life.inUse && c.life.handed && c.opts.delayedAcks == 0 && c.rcv.rxQueue == [Packet(PAYLOAD)]
    ensures Apply(c, Fetch, ENV).conn.rcv.read == c.rcv.read + [PAYLOAD]
  {
  }

  lemma LateState()
    ensures var c := Apply(ServerAt(0x1_0000), Receive(DataSegment(1)), ENV).conn;
            && c.life.inUse && c.life.handed && c.opts.delayedAcks == 0 && c.rcv.rxQueue == [Packet(PAYLOAD)]
            && c.rcv.read == Payloads(0x1_0000) && c.snd.accepted == []
  {
    var c, s := ServerAt(0x1_0000), DataSegment(1);
    hide Payloads;
    assert Wrap(0x1_0000) == 0;
    assert InReceiveWindow(c, s) && AckPlausible(c, s);
    assert Accepted(c, s, ENV) == c;
    hide InReceiveWindow, AckPlausible;
    assert NewPacket(c, s, ENV) == ReceiveData(c, s, ENV);
    var c3 := c.(rcv := DeliverNext(c.rcv, PAYLOAD));
    assert CheckAck(c3, ENV).conn.rcv == c3.rcv;
    assert Flush(CFG, c3.rcv) == c3.rcv;
  }

  /** With 65536 payloads accepted, the user can read 65537. */
  lemma OneTooManyRead() returns (m: Net)
    ensures Reaches(START, m) && Init(START)
    ensures |m.client.snd.accepted| == 0x1_0000 && m.server.snd.accepted == [] && !PrefixRead(m)
  {
    var n := Rounds(0x1_0000);
    LateState();
    assert ServerAt(0x1_0000).life.ticked && ServerAt(0x1_0000).life.leased && ServerAt(0x1_0000).life.inUse;
    var e := Apply(ServerAt(0x1_0000), Receive(DataSegment(1)), ENV);
    ReadsLate(e.conn);
    ReadKeepsSnd(e.conn);
    assert n.client.snd.accepted == Payloads(0x1_0000);
    hide Apply, Reaches, DataSegment, ServerAt, Payloads;
    m := ServerDoes(START, n, Receive(DataSegment(1)), e);
    m := ServerDoes(START, m, Fetch, Apply(e.conn, Fetch, ENV));
  }

  lemma ReadKeepsSnd(c: Conn)
    ensures Apply(c, Fetch, ENV).conn.snd == c.snd
  {
  }

  /** From csp_send to csp_read the exact limit is the same. */
  lemma ReadExactly(limit: nat)
    ensures (forall n, evs :: Init(n) && AtMost(Run(n, evs), limit) ==> PrefixRead(Run(n, evs)))
            <==> limit <= 0xFFFF
  {
    if limit <= 0xFFFF {
      forall n, evs | Init(n) && AtMost(Run(n, evs), limit)
        ensures PrefixRead(Run(n, evs))
      {
        ReadEndToEnd(n, evs);
      }
    } else {
      var m := OneTooManyRead();
      var evs :| Run(START, evs) == m && Asks(evs);
      hide PrefixRead, Init;
      assert AtMost(Run(START, evs), limit);
    }
  }
}
