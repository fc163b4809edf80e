/** The connection pool and the port table (src/csp_conn.c, src/csp_port.c), and how the router finds the
    connection of an incoming packet (src/csp_route.c:171-254). */
module ConnTable {
  import opened Bytes

  /** The fields of an id that select a connection. */
  datatype Peer = Peer(src: int, sport: int, dport: int)

  /** A pool slot. The id is the one expected on incoming packets. */
  datatype Slot = Slot(open: bool, client: bool, idin: Peer)

  datatype Port = Closed | Socket | Callback

  /** CSP_PORT_MAX_BIND, the pool, the allocation cursor and the ports; the last port stands for any. */
  datatype Pool = Pool(maxBind: nat, slots: seq<Slot>, last: nat, ports: seq<Port>)

  predicate Shaped(p: Pool) {
    |p.slots| > 0 && p.last < |p.slots| && |p.ports| == p.maxBind + 2
  }

  /** The outgoing port of slot i: an eight-bit field set once by csp_conn_init. */
  function Outgoing(maxBind: nat, i: nat): nat {
    (maxBind + 1 + i) % 256
  }

  // ---- lookups ----

  /** The conditions csp_conn_find_existing checks on one slot. */
  predicate Matches(s: Slot, id: Peer) {
    s.open && s.idin.dport == id.dport && (s.client || (s.idin.sport == id.sport && s.idin.src == id.src))
  }

  function FirstMatch(slots: seq<Slot>, id: Peer, i: nat): (r: Option<nat>)
    requires i <= |slots|
    ensures r.Some? ==> i <= r.value < |slots| && Matches(slots[r.value], id)
    ensures r.Some? ==> forall j :: i <= j < r.value ==> !Matches(slots[j], id)
    ensures r.None? ==> forall j :: i <= j < |slots| ==> !Matches(slots[j], id)
    decreases |slots| - i
  {
    if i == |slots| then None else if Matches(slots[i], id) then Some(i) else FirstMatch(slots, id, i + 1)
  }

  /** csp_port_get_socket. */
  predicate HasSocket(p: Pool, port: int)
    requires Shaped(p)
  {
    0 <= port <= p.maxBind
    && (p.ports[port].Socket? || (p.ports[port].Closed? && p.ports[p.maxBind + 1].Socket?))
  }

  /** csp_port_get_callback. */
  predicate HasCallback(p: Pool, port: int)
    requires Shaped(p)
  {
    0 <= port <= p.maxBind
    && (p.ports[port].Callback? || (p.ports[port].Closed? && p.ports[p.maxBind + 1].Callback?))
  }

  /** The first closed slot after slot i, looking at the given number of slots and going round at the end. */
  function NextFree(slots: seq<Slot>, i: nat, count: nat): (r: Option<nat>)
    requires |slots| > 0
    ensures r.Some? ==> r.value < |slots| && !slots[r.value].open
    decreases count
  {
    if count == 0 then None
    else
      var next := (i + 1) % |slots|;
      if !slots[next].open then Some(next) else NextFree(slots, next, count - 1)
  }

  function Free(p: Pool): (r: Option<nat>)
    requires Shaped(p)
    ensures r.Some? ==> r.value < |p.slots| && !p.slots[r.value].open
  {
    NextFree(p.slots, p.last, |p.slots|)
  }

  function Steps(n: nat, i: nat, k: nat): int {
    if k > i then k - i else k + n - i
  }

  lemma {:induction false} LooksAt(slots: seq<Slot>, i: nat, count: nat, k: nat)
    requires i < |slots| && k < |slots| && Steps(|slots|, i, k) <= count
    requires NextFree(slots, i, count).None?
    ensures slots[k].open
    decreases count
  {
    var next := if i + 1 < |slots| then i + 1 else 0;
    assert (i + 1) % |slots| == next by { Around(i, |slots|); }
    if next != k { LooksAt(slots, next, count - 1, k); }
  }

  lemma Around(i: nat, n: nat)
    requires i < n
    ensures (i + 1) % n == if i + 1 < n then i + 1 else 0
  {
  }

  /** Allocation fails only when every slot is taken. */
  lemma FreeExactly(p: Pool)
    requires Shaped(p)
    ensures Free(p).None? <==> forall i :: 0 <= i < |p.slots| ==> p.slots[i].open
  {
    hide NextFree;
    if Free(p).None? {
      forall i | 0 <= i < |p.slots| ensures p.slots[i].open {
        LooksAt(p.slots, p.last, |p.slots|, i);
      }
    }
  }

  // ---- operations ----

  /** csp_conn_new, with the id and, for a client, the port of csp_connect already in place. */
  function Opened(p: Pool, i: nat, client: bool, id: Peer): Pool
    requires Shaped(p) && i < |p.slots|
  {
    p.(slots := p.slots[i := Slot(true, client, id)], last := i)
  }

  /** What an application or the router can do to the tables. */
  datatype Op =
    | Bind(port: int, kind: Port)
    | Unbind(port: int)
    | Connect(dest: int, dport: int)
    | Incoming(id: Peer, secure: bool, connectionless: bool)
    | Close(slot: int)

  const ANY := 255

  function BindIndex(p: Pool, port: int): int {
    if port == ANY then p.maxBind + 1 else port
  }

  function Apply(p: Pool, op: Op): Pool
    requires Shaped(p)
  {
    match op
    case Bind(port, kind) =>
      var k := BindIndex(p, port);
      if 0 <= k <= p.maxBind + 1 && (port == ANY || port <= p.maxBind) && p.ports[k].Closed?
      then p.(ports := p.ports[k := kind]) else p
    case Unbind(k) =>
      if 0 <= k < |p.ports| && p.ports[k].Socket? then p.(ports := p.ports[k := Closed]) else p
    case Connect(dest, dport) =>
      var i := Free(p);
      if i.None? then p else Opened(p, i.value, true, Peer(dest, dport, Outgoing(p.maxBind, i.value)))
    case Incoming(id, secure, connectionless) =>
      if HasCallback(p, id.dport) || (HasSocket(p, id.dport) && connectionless) then p
      else if FirstMatch(p.slots, id, 0).Some? || !HasSocket(p, id.dport) || !secure then p
      else
        var i := Free(p);
        if i.None? then p else Opened(p, i.value, false, id)
    case Close(i) =>
      if 0 <= i < |p.slots| then p.(slots := p.slots[i := p.slots[i].(open := false)]) else p
  }

  /** The slot the router gives a packet to, existing or new. */
  function Answer(p: Pool, id: Peer, secure: bool, connectionless: bool): (r: Option<nat>)
    requires Shaped(p)
    ensures r.Some? ==> r.value < |p.slots|
  {
    if HasCallback(p, id.dport) || (HasSocket(p, id.dport) && connectionless) || !secure then None
    else if FirstMatch(p.slots, id, 0).Some? then FirstMatch(p.slots, id, 0)
    else if !HasSocket(p, id.dport) then None
    else Free(p)
  }

  function Run(p: Pool, ops: seq<Op>): (r: Pool)
    requires Shaped(p)
    ensures Shaped(r) && r.maxBind == p.maxBind && |r.slots| == |p.slots|
    decreases |ops|
  {
    if ops == [] then p
    else
      ApplyShaped(p, ops[0]);
      Run(Apply(p, ops[0]), ops[1..])
  }

  lemma ApplyShaped(p: Pool, op: Op)
    requires Shaped(p)
    ensures Shaped(Apply(p, op)) && Apply(p, op).maxBind == p.maxBind && |Apply(p, op).slots| == |p.slots|
  {
  }

  /** After csp_conn_init: every slot closed, every port closed. */
  predicate Initial(p: Pool) {
    && Shaped(p)
    && (forall i :: 0 <= i < |p.slots| ==> !p.slots[i].open)
    && (forall i :: 0 <= i < |p.ports| ==> p.ports[i].Closed?)
  }

  // ---- demultiplexing ----

  /** A client slot listens on its own port, a server slot on a bindable one. */
  predicate PortsApart(p: Pool) {
    forall i :: 0 <= i < |p.slots| && p.slots[i].open ==>
      if p.slots[i].client then p.slots[i].idin.dport == Outgoing(p.maxBind, i)
      else 0 <= p.slots[i].idin.dport <= p.maxBind
  }

  predicate Serves(s: Slot) {
    s.open && !s.client
  }

  /** No two open server slots expect the same id. */
  predicate ServersApart(p: Pool) {
    forall i, j :: 0 <= i < j < |p.slots| && Serves(p.slots[i]) && Serves(p.slots[j]) ==>
      p.slots[i].idin != p.slots[j].idin
  }

  lemma ApplyKeeps(p: Pool, op: Op)
    requires Shaped(p) && PortsApart(p) && ServersApart(p)
    ensures PortsApart(Apply(p, op)) && ServersApart(Apply(p, op))
  {
    if op.Incoming? && Apply(p, op) != p {
      var i := Free(p).value;
      assert Apply(p, op).slots == p.slots[i := Slot(true, false, op.id)];
      forall j | 0 <= j < |p.slots| && Serves(p.slots[j]) ensures p.slots[j].idin != op.id {
        assert !Matches(p.slots[j], op.id);
      }
    }
  }

  lemma {:induction false} RunKeeps(p: Pool, ops: seq<Op>)
    requires Shaped(p) && PortsApart(p) && ServersApart(p)
    ensures PortsApart(Run(p, ops)) && ServersApart(Run(p, ops))
    ensures Run(p, ops).maxBind == p.maxBind && |Run(p, ops).slots| == |p.slots|
    decreases |ops|
  {
    hide Apply, PortsApart, ServersApart;
    if ops != [] {
      ApplyShaped(p, ops[0]);
      ApplyKeeps(p, ops[0]);
      RunKeeps(Apply(p, ops[0]), ops[1..]);
    }
  }

  lemma OutgoingApart(maxBind: nat, n: nat, i: nat, j: nat)
    requires maxBind + n <= 255 && i < n && j < n
    ensures maxBind < Outgoing(maxBind, i)
    ensures i != j ==> Outgoing(maxBind, i) != Outgoing(maxBind, j)
  {
  }

  predicate Ambiguous(p: Pool, id: Peer) {
    exists i, j :: 0 <= i < j < |p.slots| && Matches(p.slots[i], id) && Matches(p.slots[j], id)
  }

  /** In every state reached by binding, connecting, routing, accepting and closing, an incoming id belongs to
      at most one open connection: the one the router finds. The outgoing ports must not wrap. */
  lemma OneConnection(p: Pool, ops: seq<Op>, id: Peer)
    requires Initial(p) && p.maxBind + |p.slots| <= 255
    ensures !Ambiguous(Run(p, ops), id)
    ensures forall i :: 0 <= i < |Run(p, ops).slots| && Matches(Run(p, ops).slots[i], id) ==>
              FirstMatch(Run(p, ops).slots, id, 0) == Some(i)
  {
    hide Run, FirstMatch, Outgoing;
    RunKeeps(p, ops);
    var q := Run(p, ops);
    forall i, j | 0 <= i < j < |q.slots| ensures !(Matches(q.slots[i], id) && Matches(q.slots[j], id)) {
      OutgoingApart(q.maxBind, |q.slots|, i, j);
      OutgoingApart(q.maxBind, |q.slots|, j, i);
    }
    forall i | 0 <= i < |q.slots| && Matches(q.slots[i], id) ensures FirstMatch(q.slots, id, 0) == Some(i) {
      assert FirstMatch(q.slots, id, 0).Some?;
    }
  }

  lemma RunNothing(p: Pool)
    requires Shaped(p)
    ensures Run(p, []) == p
  {
  }

  lemma RunStep(p: Pool, op: Op, ops: seq<Op>)
    requires Shaped(p)
    ensures Shaped(Apply(p, op)) && Run(p, [op] + ops) == Run(Apply(p, op), ops)
  {
    hide Apply;
    ApplyShaped(p, op);
    assert ([op] + ops)[1..] == ops;
  }

  // ---- whose connection it is ----

  /** Who opened a slot last: this node by connecting, or a peer with its first packet. */
  datatype Origin = Nobody | Dialled | Called(id: Peer)

  /** The history kept by an observer who sees only which slot each call answers and whether it was open. */
  function Track(p: Pool, o: seq<Origin>, op: Op): (r: seq<Origin>)
    requires Shaped(p) && |o| == |p.slots|
    ensures |r| == |o|
  {
    match op
    case Connect(_, _) => if Free(p).Some? then o[Free(p).value := Dialled] else o
    case Incoming(id, secure, connectionless) =>
      var i := Answer(p, id, secure, connectionless);
      if i.Some? && !p.slots[i.value].open then o[i.value := Called(id)] else o
    case _ => o
  }

  function TrackRun(p: Pool, o: seq<Origin>, ops: seq<Op>): (r: seq<Origin>)
    requires Shaped(p) && |o| == |p.slots|
    ensures |r| == |o|
    decreases |ops|
  {
    if ops == [] then o
    else
      ApplyShaped(p, ops[0]);
      TrackRun(Apply(p, ops[0]), Track(p, o, ops[0]), ops[1..])
  }

  predicate Tracked(p: Pool, o: seq<Origin>) {
    && |o| == |p.slots|
    && forall i :: 0 <= i < |p.slots| && p.slots[i].open ==>
         if p.slots[i].client then o[i] == Dialled && p.slots[i].idin.dport == Outgoing(p.maxBind, i)
         else o[i] == Called(p.slots[i].idin)
  }

  lemma TrackedSize(p: Pool, o: seq<Origin>)
    requires Tracked(p, o)
    ensures |o| == |p.slots|
  {
  }

  lemma TrackStep(p: Pool, o: seq<Origin>, op: Op)
    requires Shaped(p) && Tracked(p, o)
    ensures Shaped(Apply(p, op)) && Tracked(Apply(p, op), Track(p, o, op))
  {
    hide Outgoing, FirstMatch, Free, HasSocket, HasCallback;
    ApplyShaped(p, op);
  }

  lemma {:induction false} TrackedRun(p: Pool, o: seq<Origin>, ops: seq<Op>)
    requires Shaped(p) && Tracked(p, o)
    ensures |o| == |p.slots| && Tracked(Run(p, ops), TrackRun(p, o, ops))
    decreases |ops|
  {
    hide Apply, Track, Tracked;
    TrackedSize(p, o);
    if ops != [] {
      ApplyShaped(p, ops[0]);
      TrackStep(p, o, ops[0]);
      TrackedRun(Apply(p, ops[0]), Track(p, o, ops[0]), ops[1..]);
    }
  }

  /** An open slot that a packet belongs to: its peer opened it with the same source, source port and
      destination port, or this node opened it and the packet comes to its own port. */
  predicate Belongs(p: Pool, o: seq<Origin>, id: Peer, i: nat)
    requires |o| == |p.slots| && i < |o|
  {
    p.slots[i].open && (o[i] == Called(id) || (o[i] == Dialled && id.dport == Outgoing(p.maxBind, i)))
  }

  lemma MatchesExactly(p: Pool, o: seq<Origin>, id: Peer, i: nat)
    requires Tracked(p, o) && i < |p.slots|
    ensures Matches(p.slots[i], id) <==> Belongs(p, o, id, i)
  {
    hide Outgoing;
  }

  /** In every run, a packet that passes the checks is given to an open slot it belongs to. If it belongs to
      none, and a socket waits, it gets a closed slot as its own, unless there is none. */
  lemma RightPeer(p: Pool, o: seq<Origin>, ops: seq<Op>, id: Peer)
    requires Initial(p) && |o| == |p.slots|
    ensures var q, h := Run(p, ops), TrackRun(p, o, ops);
            && |h| == |q.slots|
            && (!HasCallback(q, id.dport) ==>
                  var r := Answer(q, id, true, false);
                  var mine := exists i :: 0 <= i < |h| && Belongs(q, h, id, i);
                  && (mine ==> r.Some? && Belongs(q, h, id, r.value))
                  && (r.Some? && !mine ==> !q.slots[r.value].open && HasSocket(q, id.dport))
                  && (r.None? ==> !mine && (HasSocket(q, id.dport) ==>
                                              forall i :: 0 <= i < |q.slots| ==> q.slots[i].open)))
  {
    TrackedRun(p, o, ops);
    var q, h := Run(p, ops), TrackRun(p, o, ops);
    FreeExactly(q);
    hide Run, TrackRun, FirstMatch, Belongs, Matches, HasSocket, HasCallback, Free;
    forall i: nat | i < |h| ensures Matches(q.slots[i], id) <==> Belongs(q, h, id, i) {
      MatchesExactly(q, h, id, i);
    }
  }

  /** Two peers never share a connection: what one opened is not given to the other, and with a socket on the
      port and a slot to spare the other gets one of its own. */
  lemma SecondPeer(p: Pool, o: seq<Origin>, ops: seq<Op>, first: Peer, second: Peer, i: nat)
    requires Initial(p) && |o| == |p.slots| && p.maxBind + |p.slots| <= 255 && first != second
    requires var q, h := Run(p, ops), TrackRun(p, o, ops);
             && i < |q.slots| && q.slots[i].open && h[i] == Called(first)
             && !HasCallback(q, second.dport) && HasSocket(q, second.dport)
             && (exists k :: 0 <= k < |q.slots| && !q.slots[k].open)
    ensures var q, h := Run(p, ops), TrackRun(p, o, ops);
            var r, op := Answer(q, second, true, false), Incoming(second, true, false);
            && r.Some? && r.value != i
            && Belongs(Apply(q, op), Track(q, h, op), second, r.value)
  {
    TrackedRun(p, o, ops);
    RunKeeps(p, ops);
    var q, h := Run(p, ops), TrackRun(p, o, ops);
    FreeExactly(q);
    hide Run, TrackRun, FirstMatch, NextFree;
    forall k: nat | k < |h| ensures Matches(q.slots[k], second) <==> Belongs(q, h, second, k) {
      MatchesExactly(q, h, second, k);
      OutgoingApart(q.maxBind, |q.slots|, k, k);
    }
    hide Outgoing;
  }

  // ---- what a port is bound to ----

  /** Nobody unbinds the port. */
  predicate KeepsBinding(ops: seq<Op>, k: int) {
    forall i :: 0 <= i < |ops| ==> ops[i] != Unbind(k)
  }

  lemma {:induction false} StaysBound(p: Pool, ops: seq<Op>, k: nat)
    requires Shaped(p) && k < |p.ports| && !p.ports[k].Closed? && KeepsBinding(ops, k)
    ensures Run(p, ops).ports[k] == p.ports[k] && Run(p, ops).maxBind == p.maxBind
    decreases |ops|
  {
    if ops != [] {
      var q := Apply(p, ops[0]);
      ApplyShaped(p, ops[0]);
      assert ops[0] != Unbind(k);
      assert q.ports[k] == p.ports[k] by { hide Free, FirstMatch, HasSocket, HasCallback, Opened; }
      assert KeepsBinding(ops[1..], k);
      hide Apply;
      StaysBound(q, ops[1..], k);
    }
  }

  /** A port bound while it was closed serves what it was bound to, and nothing else, until it is unbound,
      whatever is bound to other ports or to all of them. */
  lemma BindLasts(p: Pool, port: nat, kind: Port, ops: seq<Op>)
    requires Shaped(p) && port <= p.maxBind && port != ANY && p.ports[port].Closed? && !kind.Closed?
    requires KeepsBinding(ops, port)
    ensures var q := Run(p, [Bind(port, kind)] + ops);
            (HasSocket(q, port) <==> kind == Socket) && (HasCallback(q, port) <==> kind == Callback)
  {
    var a := Apply(p, Bind(port, kind));
    ApplyShaped(p, Bind(port, kind));
    RunStep(p, Bind(port, kind), ops);
    StaysBound(a, ops, port);
    hide Run;
  }

  /** What is bound to all ports serves every port that is not bound itself. */
  lemma AnyLasts(p: Pool, port: nat, kind: Port, ops: seq<Op>)
    requires Shaped(p) && port <= p.maxBind && p.ports[p.maxBind + 1].Closed? && !kind.Closed?
    requires KeepsBinding(ops, p.maxBind + 1)
    ensures var q := Run(p, [Bind(ANY, kind)] + ops);
            q.ports[port].Closed? ==>
              (HasSocket(q, port) <==> kind == Socket) && (HasCallback(q, port) <==> kind == Callback)
  {
    var a := Apply(p, Bind(ANY, kind));
    ApplyShaped(p, Bind(ANY, kind));
    RunStep(p, Bind(ANY, kind), ops);
    StaysBound(a, ops, p.maxBind + 1);
    hide Run;
  }

  // ---- ports that wrap ----

  function ClosedSlots(p: Pool): set<int> {
    set i | 0 <= i < |p.slots| && !p.slots[i].open
  }

  const CALL := Connect(3, 4)

  /** Connecting until no slot is left turns every closed slot into a client and touches no other. */
  lemma {:induction false} FillUp(p: Pool) returns (ops: seq<Op>)
    requires Shaped(p)
    ensures var q := Run(p, ops);
            && |q.slots| == |p.slots|
            && forall i :: 0 <= i < |p.slots| ==>
                 q.slots[i] == if p.slots[i].open then p.slots[i]
                               else Slot(true, true, Peer(3, 4, Outgoing(p.maxBind, i)))
    decreases ClosedSlots(p)
  {
    hide Run, NextFree, Outgoing;
    FreeExactly(p);
    if Free(p).None? {
      ops := [];
      RunNothing(p);
    } else {
      var k := Free(p).value;
      var a := Apply(p, CALL);
      ApplyShaped(p, CALL);
      assert k in ClosedSlots(p) && k !in ClosedSlots(a);
      var rest := FillUp(a);
      ops := [CALL] + rest;
      RunStep(p, CALL, rest);
    }
  }

  /** A slot whose outgoing port has wrapped into the ports that can be bound. */
  function WrappedSlot(p: Pool): nat {
    if p.maxBind <= 255 then 255 - p.maxBind else 0
  }

  lemma WrappedPort(p: Pool)
    requires Shaped(p) && p.maxBind + |p.slots| >= 256
    ensures WrappedSlot(p) < |p.slots| && Outgoing(p.maxBind, WrappedSlot(p)) <= p.maxBind
  {
  }

  predicate AllClosed(p: Pool) {
    forall i :: 0 <= i < |p.slots| ==> !p.slots[i].open
  }

  /** With nothing open the next connection goes into the slot after the cursor. */
  lemma FirstFree(p: Pool)
    requires Shaped(p) && AllClosed(p)
    ensures Free(p) == Some((p.last + 1) % |p.slots|)
  {
  }

  /** With nothing open, a socket on every port and the wrapped slot not next in turn: a server connection on
      the wrapped port, then clients everywhere else. */
  lemma Clash(p: Pool) returns (ops: seq<Op>, id: Peer)
    requires Shaped(p) && AllClosed(p) && |p.slots| >= 2 && p.maxBind + |p.slots| >= 256
    requires (p.last + 1) % |p.slots| != WrappedSlot(p)
    requires p.ports[p.maxBind + 1].Socket? && forall i :: 0 <= i <= p.maxBind ==> p.ports[i].Closed?
    ensures Ambiguous(Run(p, ops), id)
  {
    WrappedPort(p);
    FirstFree(p);
    hide Run, NextFree, Outgoing, FirstMatch, WrappedSlot;
    var w, k := WrappedSlot(p), (p.last + 1) % |p.slots|;
    id := Peer(5, 9, Outgoing(p.maxBind, w));
    var op := Incoming(id, true, false);
    assert FirstMatch(p.slots, id, 0).None?;
    var d := Apply(p, op);
    assert d == Opened(p, k, false, id);
    var rest := FillUp(d);
    ops := [op] + rest;
    RunStep(p, op, rest);
    var q := Run(p, ops);
    assert Matches(q.slots[k], id) && Matches(q.slots[w], id);
    if k < w { assert Ambiguous(q, id); }
  }

  /** As soon as the ports wrap, every pool with two slots can get two connections that an incoming id
      belongs to. */
  lemma WrappedPortsClash(p: Pool) returns (ops: seq<Op>, id: Peer)
    requires Initial(p) && |p.slots| >= 2 && p.maxBind + |p.slots| >= 256
    ensures Ambiguous(Run(p, ops), id)
  {
    WrappedPort(p);
    var bind := Bind(ANY, Socket);
    var a := Apply(p, bind);
    assert a == p.(ports := p.ports[p.maxBind + 1 := Socket]);
    FirstFree(a);
    hide Run, NextFree, Outgoing, Ambiguous;
    var w, rest := WrappedSlot(p), [];
    if (p.last + 1) % |p.slots| != w {
      rest, id := Clash(a);
    } else {
      var b := Apply(a, CALL);
      var close := Close(w);
      var c := Apply(b, close);
      assert c.slots == a.slots[w := c.slots[w]] && !c.slots[w].open && c.last == w;
      OtherNext(w, |p.slots|);
      rest, id := Clash(c);
      RunStep(b, close, rest);
      RunStep(a, CALL, [close] + rest);
      rest := [CALL] + ([close] + rest);
    }
    RunStep(p, bind, rest);
    ops := [bind] + rest;
  }

  lemma OtherNext(w: nat, n: nat)
    requires w < n && n >= 2
    ensures (w + 1) % n != w
  {
    Around(w, n);
  }

  /** An incoming id can come to belong to two connections exactly when there are two slots and the
      outgoing ports wrap. */
  lemma AmbiguousExactly(p: Pool)
    requires Initial(p)
    ensures (exists ops, id :: Ambiguous(Run(p, ops), id)) <==> |p.slots| >= 2 && p.maxBind + |p.slots| >= 256
  {
    if |p.slots| >= 2 && p.maxBind + |p.slots| >= 256 {
      var ops, id := WrappedPortsClash(p);
    } else {
      forall ops, id ensures !Ambiguous(Run(p, ops), id) {
        if p.maxBind + |p.slots| <= 255 {
          OneConnection(p, ops, id);
        } else {
          RunKeeps(p, ops);
        }
      }
    }
  }

  // ---- the tables, changed in place ----

  class Tables {
    const maxBind: nat
    const slots: array<Slot>
    const ports: array<Port>
    var last: nat

    ghost function View(): Pool
      reads this, slots, ports
    {
      Pool(maxBind, slots[..], last, ports[..])
    }

    ghost predicate Valid()
      reads this, slots, ports
    {
      Shaped(View()) && slots != ports as object
    }

    /** csp_conn_init; the port table starts cleared. */
    constructor (maxBind: nat, connMax: nat)
      requires connMax > 0
      ensures Valid() && Initial(View()) && this.maxBind == maxBind && slots.Length == connMax
      ensures fresh(slots) && fresh(ports)
    {
      this.maxBind := maxBind;
      slots := new Slot[connMax](i => Slot(false, false, Peer(0, 0, 0)));
      ports := new Port[maxBind + 2](i => Closed);
      last := 0;
    }

    /** csp_conn_find_existing. */
    method FindExisting(id: Peer) returns (r: Option<nat>)
      requires Valid()
      ensures r == FirstMatch(slots[..], id, 0)
    {
      for i := 0 to slots.Length
        invariant FirstMatch(slots[..], id, 0) == FirstMatch(slots[..], id, i)
      {
        if Matches(slots[i], id) { return Some(i); }
      }
      r := None;
    }

    /** csp_conn_allocate: the slot is taken as soon as it is found. */
    method Allocate(client: bool) returns (r: Option<nat>)
      requires Valid()
      modifies this, slots
      ensures Valid() && ports[..] == old(ports[..])
      ensures r == Free(old(View()))
      ensures r.None? ==> slots[..] == old(slots[..]) && last == old(last)
      ensures r.Some? ==> last == r.value < slots.Length
                          && slots[..] == old(slots[..])[r.value := old(slots[r.value])
                                                                      .(open := true, client := client)]
    {
      var i: nat := last;
      for j := 0 to slots.Length
        invariant i < slots.Length
        invariant slots[..] == old(slots[..]) && last == old(last) && ports[..] == old(ports[..])
        invariant NextFree(slots[..], last, slots.Length) == NextFree(slots[..], i, slots.Length - j)
      {
        i := (i + 1) % slots.Length;
        if !slots[i].open {
          slots[i] := slots[i].(open := true, client := client);
          last := i;
          return Some(i);
        }
      }
      r := None;
    }

    /** csp_connect up to the transport layer. */
    method Connect(dest: int, dport: int) returns (r: Option<nat>)
      requires Valid()
      modifies this, slots
      ensures Valid() && View() == Apply(old(View()), Op.Connect(dest, dport))
      ensures r == Free(old(View()))
    {
      hide Free, Outgoing;
      r := Allocate(true);
      if r.Some? {
        var i := r.value;
        slots[i] := slots[i].(idin := Peer(dest, dport, Outgoing(maxBind, i)));
      }
    }

    /** The router's search for the connection of a packet to this node, opening one if a socket waits. */
    method Incoming(id: Peer, secure: bool, connectionless: bool) returns (r: Option<nat>)
      requires Valid()
      modifies this, slots
      ensures Valid() && View() == Apply(old(View()), Op.Incoming(id, secure, connectionless))
      ensures r == Answer(old(View()), id, secure, connectionless)
    {
      hide Free, FirstMatch;
      if HasCallback(Now(), id.dport) { return None; }
      var socket := HasSocket(Now(), id.dport);
      if socket && connectionless { return None; }
      r := FindExisting(id);
      if r.Some? { return if secure then r else None; }
      if !socket || !secure { return None; }
      r := Allocate(false);
      if r.Some? {
        slots[r.value] := slots[r.value].(idin := id);
      }
    }

    function Now(): Pool
      requires Valid()
      reads this, slots, ports
      ensures Now() == View()
    {
      Pool(maxBind, slots[..], last, ports[..])
    }

    /** csp_conn_close once the transport layer has let go. */
    method Close(i: nat)
      requires Valid() && i < slots.Length
      modifies slots
      ensures Valid() && View() == Apply(old(View()), Op.Close(i))
    {
      if slots[i].open {
        slots[i] := slots[i].(open := false);
      }
    }

    /** csp_bind and csp_bind_callback. */
    method Bind(port: nat, kind: Port) returns (ok: bool)
      requires Valid() && port <= 255 && !kind.Closed?
      modifies ports
      ensures Valid() && View() == Apply(old(View()), Op.Bind(port, kind))
      ensures ok <==> View() != old(View())
    {
      var k := port;
      if port == ANY {
        k := maxBind + 1;
      } else if port > maxBind {
        return false;
      }
      if !ports[k].Closed? { return false; }
      ports[k] := kind;
      assert ports[..][k] != old(ports[..])[k];
      ok := true;
    }
  }
}
