/** Nothing that may still have to be sent again is ever lost from the retransmission queue. */
module RdpRetention {
  import opened SeqNumbers
  import opened Rdp
  import opened RdpFrames
  import opened RdpNet
  import opened RdpLocal
  import opened RdpEndToEnd
  import opened RdpWindow

  /** The queue holds consecutive payloads, starting with number lo. */
  predicate Consecutive(q: seq<Timed>, lo: int) {
    forall k :: 0 <= k < |q| ==> q[k].seg.seqIx == lo + k
  }

  function Span(opts: Options): int {
    if opts.windowSize == 0 then 1 else opts.windowSize
  }

  /** The oldest number still queued, or the next to be sent if none is. */
  function Oldest(snd: Snd): int {
    |snd.accepted| + 1 - |snd.txq|
  }

  predicate KeptOpen(x: Conn) {
    var lo, hi, nx := Oldest(x.snd), x.snd.hiIx, |x.snd.accepted| + 1;
    && Consecutive(x.snd.txq, lo)
    && 0 <= lo <= hi <= lo + Span(x.opts)
    && hi <= nx <= hi + Span(x.opts)
    && x.snd.unaIx <= hi && (x.snd.unaIx == hi || lo == hi)
    && (x.life.ticked ==> lo == hi)
    && nx <= x.snd.unaIx + 0x8000
  }

  predicate KeptOpening(x: Conn) {
    && |x.snd.txq| <= 1 && (forall t :: t in x.snd.txq ==> t.seg.seqIx == 0)
    && 0 <= x.snd.hiIx <= 1
  }

  predicate Kept(x: Conn) {
    && (x.life.state == Open ==> KeptOpen(x))
    && (x.life.state == SynSent || x.life.state == SynRcvd ==> KeptOpening(x))
  }

  /** The window fits the queues and the signed comparison, and no acknowledgement in
      flight is half the number space behind. */
  predicate Tight(x: Conn, back: set<Segment>) {
    && Span(x.opts) <= x.cfg.maxWindow && x.opts.windowSize <= 0x8000
    && forall s :: s in back && s.ack ==> |x.snd.accepted| <= s.ackIx + 0x7FFF
  }

  // ---- the pass over the queue ----

  /** Dropping what is before una from consecutive elements leaves consecutive elements:
      exactly those from una on. */
  lemma {:induction false} SweepConsecutive(q: seq<Timed>, lo: int, c: Conn, now: u32, mem: seq<bool>)
    requires Consecutive(q, lo)
    requires forall k :: 0 <= k < |q| ==> (SeqBefore(q[k].seg.seqNr, c.snd.una) <==> q[k].seg.seqIx < c.snd.unaIx)
    ensures var r := Retransmit(q, c, now, mem).0;
            var cut := if c.snd.unaIx <= lo then 0 else if c.snd.unaIx - lo >= |q| then |q| else c.snd.unaIx - lo;
            |r| == |q| - cut && Consecutive(r, lo + cut)
    decreases |q|
  {
    if q != [] {
      assert q[0].seg.seqIx == lo;
      var rest := q[1..];
      forall k | 0 <= k < |rest|
        ensures rest[k].seg.seqIx == lo + 1 + k
        ensures SeqBefore(rest[k].seg.seqNr, c.snd.una) <==> rest[k].seg.seqIx < c.snd.unaIx
      {
        assert rest[k] == q[k + 1];
      }
      hide SeqBefore;
      SweepConsecutive(rest, lo + 1, c, now, if mem == [] then [] else mem[1..]);
    }
  }

  lemma BeforeUna(t: Timed, snd: Snd)
    requires Genuine(t.seg, snd.iss, snd.accepted) && snd.una == Wrap(snd.iss + snd.unaIx)
    requires -0x8000 <= t.seg.seqIx - snd.unaIx < 0x8000
    ensures SeqBefore(t.seg.seqNr, snd.una) <==> t.seg.seqIx < snd.unaIx
  {
    BeforeExact(snd.iss + t.seg.seqIx, snd.iss + snd.unaIx);
  }

  lemma SweepKeeps(x: Conn, x': Conn, y: Conn, back: set<Segment>, env: Env)
    requires SndOk(x.snd) && KeptOpen(x) && SendWindow(x, y) && Tight(x, back) && x.life.state == Open
    requires Swept(x, x', env) && x'.opts == x.opts
    ensures KeptOpen(x')
  {
    var q := x.snd.txq;
    forall k | 0 <= k < |q|
      ensures SeqBefore(q[k].seg.seqNr, x.snd.una) <==> q[k].seg.seqIx < x.snd.unaIx
    {
      assert q[k] in q;
      hide Wrap, SeqBefore;
      BeforeUna(q[k], x.snd);
    }
    hide SeqBefore, Wrap, Genuine, Retransmit, SndOk;
    SweepConsecutive(q, Oldest(x.snd), x, env.now, env.retransmitMem);
  }

  lemma WriteKeeps(x: Conn, x': Conn, y: Conn, data: Data, env: Env, back: set<Segment>)
    requires SndOk(x.snd) && x.snd.started && KeptOpen(x) && SendWindow(x, y) && Tight(x, back) && x.life.state == Open
    requires Wrote(x, x', data, env) && x'.opts == x.opts && x'.life.ticked == x.life.ticked
    ensures KeptOpen(x')
  {
    ReadyMeansRoom(x);
    hide Wrap, ReadyForTx, SndOk;
  }

  lemma AckKeeps(x: Conn, x': Conn, y: Conn, s: Segment, back: set<Segment>)
    requires KeptOpen(x) && SendWindow(x, y) && Tight(x, back) && x.life.state == Open && x.life.ticked
    requires Truthful(s, y.rcv) && s in back && y.rcv.delivered <= x.snd.accepted
    requires GotAck(x, x', s) && x'.opts == x.opts && !x'.life.ticked
    ensures KeptOpen(x')
  {
    hide Wrap;
  }

  lemma OpensKept(x: Conn, x': Conn, y: Conn, s: Segment, back: set<Segment>)
    requires KeptOpening(x) && SendWindow(x, y) && Tight(x, back) && Synchronizing(x.life.state) && x.life.state != Open
    requires Truthful(s, y.rcv) && s in back && y.rcv.delivered <= x.snd.accepted
    requires GotAck(x, x', s) && x'.opts == x.opts && !x'.life.ticked
    ensures KeptOpen(x')
  {
    hide Wrap;
  }

  lemma SweepOpening(x: Conn, x': Conn, env: Env)
    requires KeptOpening(x) && Swept(x, x', env)
    ensures KeptOpening(x')
  {
    RetransmitFrame(x.snd.txq, x, env.now, env.retransmitMem);
    hide Retransmit;
  }

  lemma MisledOpening(x: Conn, x': Conn, y: Conn, s: Segment)
    requires KeptOpening(x) && Misled(x, x', s) && Truthful(s, y.rcv) && y.rcv.delivered == []
    ensures KeptOpening(x')
  {
    hide Wrap;
  }

  lemma StartsOpening(x: Conn, x': Conn, op: Op)
    requires (op.Receive? && Listened(x, x', op.seg)) || (op.Dial? && Called(x, x', op.opts))
    requires SndOk(x'.snd)
    ensures KeptOpening(x')
  {
    hide Wrap, DecodeOptions, EncodeOptions;
  }

  lemma TickedFrame(x: Conn, op: Op, env: Env)
    ensures var x' := Apply(x, op, env).conn;
            && (op == Tick ==> x'.life.ticked)
            && (op.Receive? ==> !x'.life.ticked)
            && (op.Write? || op.Fetch? || op.Dialled? ==> x'.life.ticked == x.life.ticked)
  {
    if op.Fetch? && x.rcv.rxQueue != [] {
      CheckAckFrame(x.(rcv := Unqueued(x.rcv)), env);
    }
    hide Connect, ConnectFail, CheckTimeouts, NewPacket, ConnClose, CheckAck, CanSend, Wrap;
  }

  lemma OnlyThese(x: Conn, op: Op, env: Env, back: set<Segment>)
    requires Local(x) && Enabled(x, back, op) && Apply(x, op, env).conn.life.state == Open
    ensures op == Tick || op.Receive? || op.Write? || op.Fetch? || op.Dialled?
  {
    hide Connect, ConnectFail, ConnClose;
    match op
    case Dial(opts) => ConnectSnd(x, opts, env);
    case DialFailed => ConnectFailEnds(x, env);
    case HangUp => ConnCloseEnds(x.(life := x.life.(userClosed := true)), USER, env);
    case _ =>
  }

  lemma KeptStep(x: Conn, op: Op, env: Env, y: Conn, back: set<Segment>)
    requires Local(x) && Enabled(x, back, op) && Kept(x) && SendWindow(x, y) && Tight(x, back)
    requires Link(x, y, {}) && Back(y, back)
    requires op.Receive? && x.life.state == SynRcvd ==>
               op.seg.syn || op.seg.rst || !op.seg.ack || InReceiveWindow(x, op.seg)
    ensures Kept(Apply(x, op, env).conn)
  {
    ApplySnd(x, op, env, back);
    ApplyLocal(x, op, env, back);
    TickedFrame(x, op, env);
    var x' := Apply(x, op, env).conn;
    if x'.life.state == Open { OnlyThese(x, op, env, back); }
    assert x'.life.state == Open && op.Write? ==> x.snd.started by {
      assert Wrote(x, x', if op.Write? then op.data else [], env) ==> x.snd.started;
    }
    assert x.life.state != Open && Synchronizing(x.life.state) ==> y.rcv.delivered == [];
    hide Apply, Wrote, Swept, Silent, TxSays, Truthful, Announces, Listened, Called, KeptOpen, KeptOpening,
         SendWindow, Tight, LifeOk, SndOk, RcvOk, Stocked, Genuine, Grows, Sends, Acknowledged, Retransmit;
    if Synchronizing(x'.life.state) {
      if op == Tick {
        if x.life.state == Open { SweepKeeps(x, x', y, back, env); } else { SweepOpening(x, x', env); }
      } else if op.Write? && Wrote(x, x', op.data, env) && x'.opts == x.opts && x'.life.state == Open {
        WriteKeeps(x, x', y, op.data, env, back);
      } else if op.Receive? && GotAck(x, x', op.seg) && x'.opts == x.opts && x'.life.state == Open {
        if x.life.state == Open {
          AckKeeps(x, x', y, op.seg, back);
        } else {
          OpensKept(x, x', y, op.seg, back);
        }
      } else if op.Receive? && Misled(x, x', op.seg) {
        MisledOpening(x, x', y, op.seg);
      } else if (op.Receive? && Listened(x, x', op.seg)) || (op.Dial? && Called(x, x', op.opts)) {
        StartsOpening(x, x', op);
      } else {
        StaysKept(x, x', op);
      }
    }
  }

  lemma StaysKept(x: Conn, x': Conn, op: Op)
    requires StaysPut(x, x') && x'.opts == x.opts && Kept(x)
    requires x'.life.ticked ==> x.life.ticked
    ensures Kept(x')
  {
  }

  // ---- both directions, every run ----

  predicate TightNet(n: Net) {
    Tight(n.client, n.toClient) && Tight(n.server, n.toServer)
  }

  lemma AnswersOnce(n: Net, s: Segment)
    requires WindowInv(n) && n.server.life.state == SynRcvd && n.server.opts.windowSize <= 0x8000
    requires s in n.toServer && !s.syn && !s.rst && s.ack
    ensures InReceiveWindow(n.server, s)
  {
    var sv, c := n.server, n.client;
    assert Genuine(s, c.snd.iss, c.snd.accepted) && sv.rcv.irs == c.snd.iss && sv.opts == c.opts
           && sv.rcv.delivered == [] && RcvOk(sv.rcv) && |c.snd.accepted| <= c.opts.windowSize;
    hide Inv, Agreed, SendWindow, Back;
    var w := c.opts.windowSize;
    var d := c.snd.iss;
    WrapSum(d + s.seqIx, -1, d);
    assert s.seqNr - (sv.rcv.cur + 1) == Wrap(d + s.seqIx) + -1 - Wrap(d);
    assert Wrap(s.seqNr - (sv.rcv.cur + 1)) == Wrap(s.seqIx - 1);
    assert 1 <= s.seqIx <= w + 1;
    WindowWidth(sv.rcv.cur, w, s.seqNr, s.seqIx - 1);
  }

  predicate RetentionInv(n: Net) {
    WindowInv(n) && Passive(n) && Kept(n.client) && Kept(n.server)
  }

  lemma RetentionNext(n: Net, ev: Event)
    requires RetentionInv(n) && TightNet(n)
    ensures var m := Next(n, ev); Kept(m.client) && Kept(m.server)
  {
    hide Apply, Local, Kept, Back, SendWindow, Tight, Link, InReceiveWindow, Enabled, Agreed;
    match ev
    case Lose(_, _) =>
    case Do(Client, op, env) =>
      if Enabled(n.client, n.toClient, op) {
        EmptyLink(n.client, n.server, n.toServer);
        assert n.client.life.state != SynRcvd by { ClientDials(n); }
        KeptStep(n.client, op, env, n.server, n.toClient);
      }
    case Do(Server, op, env) =>
      if Enabled(n.server, n.toServer, op) {
        EmptyLink(n.server, n.client, n.toClient);
        if op.Receive? && n.server.life.state == SynRcvd && !op.seg.syn && !op.seg.rst && op.seg.ack {
          assert op.seg in n.toServer && n.server.opts.windowSize <= 0x8000 by { ReceiveIsEnabled(n, op); }
          AnswersOnce(n, op.seg);
        }
        KeptStep(n.server, op, env, n.client, n.toServer);
      }
  }

  lemma ReceiveIsEnabled(n: Net, op: Op)
    requires TightNet(n) && Enabled(n.server, n.toServer, op) && op.Receive?
    ensures op.seg in n.toServer && n.server.opts.windowSize <= 0x8000
  {
  }

  lemma ClientDials(n: Net)
    requires RetentionInv(n)
    ensures n.client.life.state != SynRcvd
  {
    hide Link, SendWindow, Back, Kept;
  }

  predicate Settled(n: Net) {
    Young(n) && TightNet(n)
  }

  lemma {:induction false} RunRetention(n: Net, evs: seq<Event>)
    requires Init(n) && forall i :: 0 <= i < |evs| ==> Settled(Run(n, evs[..i]))
    ensures RetentionInv(Run(n, evs))
    decreases |evs|
  {
    forall i | 0 <= i < |evs| ensures Young(Run(n, evs[..i])) {
      assert Settled(Run(n, evs[..i]));
    }
    RunWindow(n, evs);
    if evs != [] {
      var p := evs[..|evs| - 1];
      assert Settled(Run(n, p));
      forall i | 0 <= i < |p| ensures Settled(Run(n, p[..i])) {
        assert p[..i] == evs[..i];
      }
      hide Young, Next, WindowInv, Kept, Passive, Tight;
      RunRetention(n, p);
      RetentionNext(Run(n, p), evs[|evs| - 1]);
    }
  }

  /** While a connection is open its retransmission queue has never overflowed, and it still
      holds every payload from the highest acknowledgement received onward. */
  ghost predicate Retains(x: Conn) {
    x.life.state == Open ==>
      && |x.snd.txq| <= 2 * Span(x.opts)
      && forall i :: 0 <= i < |x.snd.accepted| && x.snd.hiIx <= i + 1 ==>
           Holds(x.snd.txq, i + 1, x.snd.accepted[i])
  }

  ghost predicate Holds(q: seq<Timed>, ix: int, data: Data) {
    exists t :: t in q && !t.seg.syn && t.seg.seqIx == ix && t.seg.data == data
  }

  lemma KeptRetains(x: Conn)
    requires Kept(x) && SndOk(x.snd)
    ensures Retains(x)
  {
    if x.life.state == Open {
      var lo := Oldest(x.snd);
      forall i | 0 <= i < |x.snd.accepted| && x.snd.hiIx <= i + 1
        ensures Holds(x.snd.txq, i + 1, x.snd.accepted[i])
      {
        var t := x.snd.txq[i + 1 - lo];
        assert t in x.snd.txq && t.seg.seqIx == i + 1;
        hide Wrap;
      }
    }
  }

  /** With a window no larger than CSP_RDP_MAX_WINDOW, in every run in which nothing outlives
      its 16-bit number: the queues of 2 * CSP_RDP_MAX_WINDOW slots never drop a segment for
      lack of room and nothing unacknowledged is ever forgotten. */
  lemma Retention(n: Net, evs: seq<Event>)
    requires Init(n) && forall i :: 0 <= i < |evs| ==> Settled(Run(n, evs[..i]))
    ensures Retains(Run(n, evs).client) && Retains(Run(n, evs).server)
  {
    RunRetention(n, evs);
    var m := Run(n, evs);
    hide Run, Link, SendWindow, Back, Kept, Retains, LifeOk, SndOk, RcvOk;
    KeptRetains(m.client);
    KeptRetains(m.server);
  }
}
