/** Payloads that csp_send accepts and numbers but that can never be delivered. */
module RdpWedge {
  import opened Rdp
  import opened RdpNet
  import opened RdpEndToEnd
  import opened RdpProgress
  import opened RdpLiveness
  import opened RdpShortRuns
  import opened RdpWrapAround

  /** The receiver takes a segment without data for a bare acknowledgement (src/csp_rdp.c:673-675),
      and one whose trailer does not fit never leaves the sender (src/csp_io.c:245, 258): the stream
      is stuck at that payload for good. */
  predicate StuckAt(x: Conn, y: Conn, i: nat) {
    i < |x.snd.accepted| && !Deliverable(x.cfg, x.snd.accepted[i]) ==> |y.rcv.delivered| <= i
  }

  lemma UndeliverableWedges(n: Net, evs: seq<Event>, i: nat)
    requires Init(n) && FewSent(Run(n, evs))
    ensures StuckAt(Run(n, evs).client, Run(n, evs).server, i) && StuckAt(Run(n, evs).server, Run(n, evs).client, i)
  {
    hide Run, Deliverable;
    EndToEnd(n, evs);
    RunCarried(n, evs);
  }

  /** The client, connected and at rest, sends d. */
  lemma WriteAtRest(d: Data)
    requires |d| + HEADER_SIZE <= CFG.bufferSize
    ensures Apply(ClientAt(0), Write(d), ENV).conn.snd.accepted == [d]
    ensures Apply(ClientAt(0), Write(d), ENV).conn.life == ClientAt(0).life
    ensures Apply(ClientAt(0), Write(d), ENV).conn.opts == OPTS
    ensures Apply(ClientAt(0), Write(d), ENV).conn.cfg == CFG
  {
    assert ReadyForTx(ClientAt(0));
  }

  lemma ReachesWritten(d: Data) returns (evs: seq<Event>)
    requires |d| + HEADER_SIZE <= CFG.bufferSize
    ensures Asks(evs) && Run(START, evs).server == ServerAt(0)
    ensures Run(START, evs).client == Apply(ClientAt(0), Write(d), ENV).conn
  {
    var m := Handshake();
    assert ClientAt(0).life.handed;
    hide Run, Asks, Apply, ClientAt, ServerAt;
    var e := Apply(ClientAt(0), Write(d), ENV);
    var k := ClientDoes(START, m, Write(d), e);
    evs :| Run(START, evs) == k && Asks(evs);
  }

  lemma StartIsModest(evs: seq<Event>)
    requires Asks(evs)
    ensures Init(START) && Modest(START, evs)
  {
  }

  /** From the very first payload on: after connecting over a link with CRC-32, csp_send takes every
      payload of up to 251 bytes, and of those exactly the ones of 1 to 247 bytes can ever be
      delivered. */
  lemma FirstPayload(d: Data) returns (evs: seq<Event>)
    requires |d| + HEADER_SIZE <= CFG.bufferSize
    ensures var m := Run(START, evs);
            && OpenBoth(START, evs) && m.client.snd.accepted == [d] && m.server.rcv.delivered == []
            && (CanDeliver(m, Client) <==> 1 <= |d| <= 247)
  {
    evs := ReachesWritten(d);
    WriteAtRest(d);
    StartIsModest(evs);
    assert ServerAt(0).rcv.delivered == [] && ServerAt(0).snd.accepted == [] && ServerAt(0).rcv.rxQueue == []
           && ServerAt(0).life.state == Open && ServerAt(0).cfg == CFG && ClientAt(0).life.state == Open;
    hide Run, Asks, Apply, ClientAt, ServerAt, Init, Modest, SettledAlong;
    ShortRunsSettle(START, evs);
    ProgressExactly(START, evs, Client);
  }
}
