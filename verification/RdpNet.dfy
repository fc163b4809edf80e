/** Two RDP endpoints and a channel that loses, duplicates and reorders. */
module RdpNet {
  import opened Rdp

  datatype Side = Client | Server

  /** What can happen to one endpoint.  Receive is csp_route_work handing over a packet;
      the router has run csp_conn_check_timeouts (Tick) since the previous one. */
  datatype Op =
    | Dial(opts: Options)         // csp_connect up to SYN
    | Dialled                     // csp_connect returns the handle
    | DialFailed                  // csp_connect gives up waiting
    | Write(data: Data)           // csp_send
    | Fetch                       // csp_read
    | HangUp                      // csp_close
    | Tick                        // csp_conn_check_timeouts
    | Receive(seg: Segment)

  datatype Event = Do(side: Side, op: Op, env: Env) | Lose(side: Side, seg: Segment)

  /** toClient and toServer hold what may still arrive; receiving does not remove. */
  datatype Net = Net(client: Conn, server: Conn, toClient: set<Segment>, toServer: set<Segment>)

  predicate Enabled(c: Conn, inbox: set<Segment>, op: Op) {
    var l := c.life;
    match op
    case Dial(_) => !l.server && !l.leased
    case Dialled => !l.server && l.inUse && l.state == Open && !l.handed && !l.requested.user
    case DialFailed => !l.server && l.inUse && !l.handed && !l.requested.user
    case Write(_) => l.handed
    case Fetch => l.handed
    case HangUp => l.handed
    case Tick => l.inUse
    case Receive(s) => s in inbox && (if l.leased then l.inUse && l.ticked else l.server)
  }

  function Ticked(e: Effect, yes: bool): Effect {
    Effect(e.conn.(life := e.conn.life.(ticked := yes)), e.out)
  }

  function Apply(c: Conn, op: Op, env: Env): Effect {
    match op
    case Dial(opts) => Connect(c, opts, env)
    case Dialled => Effect(c.(life := c.life.(handed := true)), [])
    case DialFailed => ConnectFail(c, env)
    case Write(data) => Send(c, data, env)
    case Fetch => Read(c, env).0
    case HangUp => UserClose(c, env)
    case Tick => Ticked(CheckTimeouts(c, env), true)
    case Receive(s) => Ticked(NewPacket(if c.life.leased then c else Allocate(c, env), s, env), false)
  }

  /** What reaches the channel of the segments handed to csp_send_direct. */
  function Leaving(cfg: Config, out: seq<Segment>): set<Segment> {
    set s | s in out && Fits(cfg, s.data)
  }

  function Next(n: Net, ev: Event): Net {
    match ev
    case Lose(Client, s) => n.(toClient := n.toClient - {s})
    case Lose(Server, s) => n.(toServer := n.toServer - {s})
    case Do(Client, op, env) =>
      if !Enabled(n.client, n.toClient, op) then n
      else
        var e := Apply(n.client, op, env);
        n.(client := e.conn, toServer := n.toServer + Leaving(n.client.cfg, e.out))
    case Do(Server, op, env) =>
      if !Enabled(n.server, n.toServer, op) then n
      else
        var e := Apply(n.server, op, env);
        n.(server := e.conn, toClient := n.toClient + Leaving(n.server.cfg, e.out))
  }

  function Run(n: Net, evs: seq<Event>): Net
    decreases |evs|
  {
    if evs == [] then n else Next(Run(n, evs[..|evs| - 1]), evs[|evs| - 1])
  }

  predicate Pooled(c: Conn) {
    && !c.life.inUse && c.life.state == Closed && c.life.closedBy == NOBODY && c.life.requested == NOBODY
    && !c.life.leased && !c.life.handed && !c.life.userClosed
    && c.snd.txq == [] && c.snd.accepted == [] && !c.snd.started
    && c.rcv.rxq == [] && c.rcv.delivered == [] && c.rcv.read == [] && !c.rcv.established
  }

  /** Both connections in the pool (every other field arbitrary), nothing in flight. */
  predicate Init(n: Net) {
    && Pooled(n.client) && Pooled(n.server) && !n.client.life.server && n.server.life.server
    && n.toClient == {} && n.toServer == {}
  }
}
