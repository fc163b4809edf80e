/** Who holds each packet buffer while the router works (src/csp_buffer.c, src/csp_route.c:113-297,
    src/csp_rdp.c:437-751, src/csp_io.c:91-287). Decisions that depend on packet contents are parameters, so
    the contracts speak of every path. */
module Ownership {
  import opened Bytes

  /** The packets of a queue that may also hold NULL. */
  function Packets(q: seq<Option<nat>>): multiset<nat> {
    if q == [] then multiset{}
    else Packets(q[1..]) + (if q[0].Some? then multiset{q[0].value} else multiset{})
  }

  lemma {:induction false} PacketsAppend(a: seq<Option<nat>>, b: seq<Option<nat>>)
    ensures Packets(a + b) == Packets(a) + Packets(b)
  {
    if a == [] {
      assert a + b == b;
    } else {
      assert (a + b)[1..] == a[1..] + b;
      PacketsAppend(a[1..], b);
    }
  }

  lemma PacketsFront(q: seq<Option<nat>>)
    requires q != []
    ensures Packets(q) == Packets(q[1..]) + (if q[0].Some? then multiset{q[0].value} else multiset{})
  {
  }

  lemma NoPackets()
    ensures Packets([]) == multiset{}
  {
  }

  lemma PacketsOne(x: Option<nat>)
    ensures Packets([x]) == if x.Some? then multiset{x.value} else multiset{}
  {
    assert [x][1..] == [];
  }

  function Everything(count: nat): (m: multiset<nat>)
    ensures forall b: nat :: m[b] == if b < count then 1 else 0
  {
    if count == 0 then multiset{} else Everything(count - 1) + multiset{count - 1}
  }

  function Sum(a: multiset<nat>, b: multiset<nat>, c: multiset<nat>, d: multiset<nat>, e: multiset<nat>,
               f: multiset<nat>, g: multiset<nat>): multiset<nat> {
    a + b + c + d + e + f + g
  }

  /** Where a buffer is once the router has finished with it. */
  datatype Place = Free | OnConnection | OnSocket | Reordered | Away

  /** What csp_rdp_new_packet does with a segment; RdpConnection says which it is. */
  datatype Fate =
    | InSequence(answered: bool)                      // the next payload
    | Ahead(repeated: bool, answered: bool)           // a later payload, perhaps queued already
    | Discarded(closing: bool, reset: bool, finished: bool, wake: bool)

  /** What the router finds out about a packet, in the order it asks. */
  datatype Decisions = Decisions(
    duplicate: bool,        // csp_dedup_is_duplicate, where that is asked
    toMe: bool,
    supported: bool,        // csp_route_check_options
    callback: bool,         // csp_port_get_callback
    secure: bool,           // csp_route_security_check, wherever it is made
    socket: bool,           // csp_port_get_socket
    connectionless: bool,
    existing: bool,         // csp_conn_find_existing
    slot: bool,             // csp_conn_new
    rdp: bool,              // the packet's RDP flag
    pending: bool,          // the connection still has to be queued on its socket
    backlog: bool,          // the socket has room for it
    fate: Fate)

  /** Free buffers, and whether the queues have room. */
  datatype Room = Room(free: nat, onConnection: bool, onNew: bool, onSocket: bool, inWindow: bool)

  /** Where the packet has to be. */
  function Outcome(d: Decisions, room: Room): Place {
    if d.duplicate || !d.toMe || !d.supported || !d.secure then Free
    else if d.callback then Away
    else if d.socket && d.connectionless then (if room.onSocket then OnSocket else Free)
    else if !d.existing && !(d.socket && d.slot) then Free
    else
      var space := if d.existing then room.onConnection else room.onNew;
      if d.rdp then RdpOutcome(d.fate, space, room.inWindow)
      else if !space || (d.pending && !d.backlog) then Free
      else OnConnection
  }

  function RdpOutcome(fate: Fate, space: bool, inWindow: bool): Place {
    match fate
    case InSequence(_) => if space then OnConnection else Free
    case Ahead(repeated, _) => if !repeated && inWindow then Reordered else Free
    case Discarded(_, _, _, _) => Free
  }

  /** A packet for this node that passes its checks is freed exactly for one of these reasons: no socket or slot, no
      room, a refused connection, or RDP has no use for it. */
  lemma FreedExactly(d: Decisions, room: Room)
    requires !d.duplicate && d.toMe && d.supported && d.secure && !d.callback
    ensures Outcome(d, room) == Free <==>
            if d.socket && d.connectionless then !room.onSocket
            else if !d.existing && (!d.socket || !d.slot) then true
            else
              var full := if d.existing then !room.onConnection else !room.onNew;
              if !d.rdp then full || (d.pending && !d.backlog)
              else d.fate.Discarded? || (d.fate.InSequence? && full)
                   || (d.fate.Ahead? && (d.fate.repeated || !room.inWindow))
  {
  }

  /** How many copies of a packet leave when this many buffers are free and these interfaces take theirs: the last
      free buffer is never used for one. */
  function Copies(free: nat, accepts: seq<bool>): nat {
    var n := Count(accepts);
    if n < free then n else if free == 0 then 0 else free - 1
  }

  function Count(accepts: seq<bool>): (n: nat)
    ensures n <= |accepts|
  {
    if accepts == [] then 0
    else
      var n := |accepts| - 1;
      Count(accepts[..n]) + if accepts[n] then 1 else 0
  }

  /** The retransmission queue as a timeout check finds it, element by element. */
  datatype Visit = Visit(acknowledged: bool, expired: bool)

  /** What a check of the timeouts of one connection comes to. */
  datatype Timers =
    | Expired(reset: bool, finished: bool)            // the connection is closed
    | Served(visits: seq<Visit>, answered: bool)      // its queues are gone through

  /** A check that sends nothing. */
  predicate Silent(t: Timers) {
    match t
    case Expired(reset, _) => !reset
    case Served(visits, answered) => Unsent(visits) && !answered
  }

  predicate Unsent(visits: seq<Visit>) {
    forall v :: v in visits ==> v.acknowledged || !v.expired
  }

  /** The elements that stay, in order. */
  function Survivors(q: seq<nat>, visits: seq<Visit>): seq<nat> {
    if q == [] then []
    else
      var n := |q| - 1;
      Survivors(q[..n], visits) + if n < |visits| && visits[n].acknowledged then [] else [q[n]]
  }

  /** What the checks leave of the room: they never fill a queue, and make room on a full one only by closing. */
  predicate Kept(ts: seq<Timers>, before: Room, after: Room) {
    && after.onSocket == before.onSocket && after.onNew == before.onNew
    && (before.inWindow ==> after.inWindow) && (before.onConnection ==> after.onConnection)
    && (after.onConnection && !before.onConnection ==> exists t :: t in ts && t.Expired? && t.finished)
  }

  class Node {
    const count: nat
    const connLength: nat
    const socketLength: nat
    const windowLength: nat

    /** The queue of free buffers and the reference counts. */
    var free: seq<nat>
    var refs: seq<nat>
    /** Input of the router. */
    var fifo: seq<nat>
    /** Receive queue of the connection a packet belongs to, of a connection-less socket, and the two
        RDP queues. */
    var connQueue: seq<Option<nat>>
    var socketQueue: seq<nat>
    var reorder: seq<nat>
    var retransmit: seq<nat>
    /** Taken by an interface or a callback; dropped without being freed. */
    var away: multiset<nat>
    var lost: multiset<nat>

    ghost function Placed(): multiset<nat>
      reads this
    {
      multiset(free) + Elsewhere()
    }

    /** Everything that is not free. */
    ghost function Elsewhere(): multiset<nat>
      reads this`fifo, this`connQueue, this`socketQueue, this`reorder, this`retransmit, this`away, this`lost
    {
      Sum(multiset(fifo), Packets(connQueue), multiset(socketQueue), multiset(reorder), multiset(retransmit),
          away, lost)
    }

    /** One buffer more in any of these places. */
    lemma OneMore(b: nat)
      ensures var x := multiset{b};
              var i, c, s, r, t := multiset(fifo), Packets(connQueue), multiset(socketQueue), multiset(reorder),
                                   multiset(retransmit);
              && Sum(i + x, c, s, r, t, away, lost) == Elsewhere() + x
              && Sum(i, c + x, s, r, t, away, lost) == Elsewhere() + x
              && Sum(i, c, s + x, r, t, away, lost) == Elsewhere() + x
              && Sum(i, c, s, r + x, t, away, lost) == Elsewhere() + x
              && Sum(i, c, s, r, t + x, away, lost) == Elsewhere() + x
              && Sum(i, c, s, r, t, away + x, lost) == Elsewhere() + x
              && Sum(i, c, s, r, t, away, lost + x) == Elsewhere() + x
    {
      hide Packets;
    }

    /** Every buffer is in exactly one place or in the hands of a running function, and whatever is not
        free is counted as referenced once. */
    ghost predicate Owns(held: multiset<nat>)
      reads this
    {
      && Placed() + held == Everything(count)
      && |refs| == count && |reorder| <= windowLength && |retransmit| <= windowLength
      && (forall b :: 0 <= b < count && b !in multiset(free) ==> refs[b] == 1)
    }

    ghost function Rooms(): Room
      reads this
    {
      Room(|free|, |connQueue| < connLength, 0 < connLength, |socketQueue| < socketLength, |reorder| < windowLength)
    }

    lemma InRange(held: multiset<nat>, b: nat)
      requires Owns(held)
      ensures (Placed() + held)[b] == if b < count then 1 else 0
    {
    }

    // ---- csp_buffer.c ----

    /** csp_buffer_init; the reference counts start with whatever the memory holds. */
    constructor (count: nat, connLength: nat, socketLength: nat, windowLength: nat, garbage: seq<nat>)
      requires |garbage| == count
      ensures Owns(multiset{}) && |free| == this.count == count
    {
      hide Everything, UpTo, Packets;
      EverythingIs(count);
      NoPackets();
      this.count, this.connLength, this.socketLength, this.windowLength :=
        count, connLength, socketLength, windowLength;
      free, refs := UpTo(count), garbage;
      fifo, connQueue, socketQueue, reorder, retransmit := [], [], [], [], [];
      away, lost := multiset{}, multiset{};
      new;
      assert Elsewhere() == multiset{};
      assert Placed() + multiset{} == Everything(count);
    }

    /** csp_buffer_get_actual: the first free buffer, unless fewer than reserve are left. */
    method Get(reserve: nat, ghost held: multiset<nat>) returns (b: Option<nat>)
      requires Owns(held)
      modifies this`free, this`refs
      ensures b.None? <==> old(|free|) < reserve || old(free) == []
      ensures b.None? ==> free == old(free) && refs == old(refs)
      ensures b.Some? ==> b.value == old(free)[0] && free == old(free)[1..]
      ensures b.None? ==> Owns(held)
      ensures b.Some? ==> Owns(held + multiset{b.value}) && b.value !in held
    {
      hide Packets, Everything, Elsewhere;
      if |free| < reserve || |free| == 0 { return None; }
      var x := free[0];
      assert free == [x] + free[1..];
      assert (Placed() + held)[x] == 1 by { InRange(held, x); }
      ghost var was := multiset(free);
      free := free[1..];
      assert was == multiset(free) + multiset{x};
      refs := refs[x := 1];
      b := Some(x);
    }

    /** csp_buffer_free, with its checks for a second free and for further references. */
    method Release(b: nat, ghost held: multiset<nat>)
      requires Owns(held) && b in held
      modifies this`free, this`refs
      ensures Owns(held - multiset{b}) && b in multiset(free)
      ensures multiset(free) == old(multiset(free)) + multiset{b} && |free| == old(|free|) + 1
    {
      hide Packets, Everything, Elsewhere;
      assert (Placed() + held)[b] == 1 && b < count by { InRange(held, b); }
      assert b !in multiset(free);
      if refs[b] == 0 { return; }
      refs := refs[b := refs[b] - 1];
      if refs[b] > 0 { return; }
      ghost var was := multiset(free);
      free := free + [b];
      assert multiset(free) == was + multiset{b};
    }

    // ---- sending ----

    /** csp_send_direct_iface: the interface takes the packet, or an error frees it. */
    method ToInterface(b: nat, ok: bool, ghost held: multiset<nat>)
      requires Owns(held) && b in held
      modifies this`free, this`refs, this`away
      ensures Owns(held - multiset{b})
      ensures ok ==> away == old(away) + multiset{b} && free == old(free)
      ensures !ok ==> away == old(away) && b in multiset(free) && |free| == old(|free|) + 1
    {
      hide Packets, Everything, Sum;
      if ok {
        OneMore(b);
        away := away + multiset{b};
      } else {
        Release(b, held);
      }
    }

    /** csp_send_direct: the packet itself to loopback, or a copy to each interface as long as there are buffers. */
    method SendDirect(b: nat, loopback: bool, accepts: seq<bool>, ghost held: multiset<nat>)
      requires Owns(held) && b in held
      modifies this`free, this`refs, this`away
      ensures Owns(held - multiset{b}) && old(away) <= away
      ensures loopback && accepts != [] && accepts[0] ==> away == old(away) + multiset{b}
      ensures !loopback || accepts == [] || !accepts[0] ==> b in multiset(free)
      ensures !loopback ==> |away| == old(|away|) + Copies(old(|free|), accepts)
      ensures !loopback ==> |free| == old(|free|) + 1 - Copies(old(|free|), accepts)
    {
      hide Packets, Everything, Owns;
      if loopback {
        ToInterface(b, accepts != [] && accepts[0], held);
        return;
      }
      for i := 0 to |accepts|
        invariant Owns(held) && old(away) <= away
        invariant |away| == old(|away|) + Copies(old(|free|), accepts[..i])
        invariant |free| == old(|free|) - Copies(old(|free|), accepts[..i])
      {
        assert accepts[..i + 1][..i] == accepts[..i];
        var copy := Get(2, held);
        if copy.Some? {
          assert held + multiset{copy.value} - multiset{copy.value} == held;
          ToInterface(copy.value, accepts[i], held + multiset{copy.value});
        }
      }
      assert accepts[..|accepts|] == accepts;
      Release(b, held);
    }

    /** csp_rdp_send_cmp for a new packet. With exactly two buffers left the second of which the clone of a
        SYN may not have, the SYN itself is dropped unfreed; otherwise nothing is. */
    method SendControl(syn: bool, accepts: seq<bool>, ghost held: multiset<nat>)
      requires Owns(held)
      modifies this`free, this`refs, this`away, this`retransmit, this`lost
      ensures Owns(held) && old(away) <= away
      ensures lost == if syn && old(|free|) == 2 then old(lost) + multiset{old(free)[0]} else old(lost)
      ensures !syn || old(|free|) < 3 ==> retransmit == old(retransmit)
      ensures syn && old(|free|) >= 3 && old(|retransmit|) < windowLength ==>
                retransmit == old(retransmit) + [old(free)[1]]
      ensures !syn && old(|free|) >= 2 ==> |away| == old(|away|) + Copies(old(|free|) - 1, accepts)
    {
      hide Owns;
      var got := Get(2, held);
      if got.None? { return; }
      var b := got.value;
      ghost var mine := held + multiset{b};
      assert mine - multiset{b} == held;
      if syn {
        var clone := Get(2, mine);
        if clone.None? {
          Drop(b, mine);
          return;
        }
        assert mine + multiset{clone.value} - multiset{clone.value} == mine;
        Retain(clone.value, mine + multiset{clone.value});
      }
      SendDirect(b, false, accepts, mine);
    }

    /** A packet nobody refers to any more. */
    method Drop(b: nat, ghost held: multiset<nat>)
      requires Owns(held) && b in held
      modifies this`lost
      ensures Owns(held - multiset{b}) && lost == old(lost) + multiset{b}
    {
      hide Packets, Everything, Sum;
      OneMore(b);
      lost := lost + multiset{b};
    }

    /** csp_rdp_queue_tx_add: a full queue frees the packet. */
    method Retain(b: nat, ghost held: multiset<nat>)
      requires Owns(held) && b in held
      modifies this`free, this`refs, this`retransmit
      ensures Owns(held - multiset{b})
      ensures old(|retransmit|) < windowLength ==> retransmit == old(retransmit) + [b] && free == old(free)
      ensures old(|retransmit|) >= windowLength ==> retransmit == old(retransmit) && b in multiset(free)
    {
      hide Packets, Everything, Sum;
      if |retransmit| < windowLength {
        ghost var was := multiset(retransmit);
        OneMore(b);
        retransmit := retransmit + [b];
        assert multiset(retransmit) == was + multiset{b};
      } else {
        Release(b, held);
      }
    }

    // ---- queues ----

    /** csp_conn_enqueue_packet. */
    method Deliver(x: Option<nat>, ghost held: multiset<nat>) returns (ok: bool)
      requires Owns(held) && (x.Some? ==> x.value in held)
      modifies this`connQueue
      ensures ok <==> old(|connQueue|) < connLength
      ensures ok ==> connQueue == old(connQueue) + [x]
      ensures ok ==> Owns(if x.Some? then held - multiset{x.value} else held)
      ensures !ok ==> connQueue == old(connQueue)
    {
      hide Everything, Packets, Sum;
      ok := |connQueue| < connLength;
      if ok {
        PacketsAppend(connQueue, [x]);
        PacketsOne(x);
        if x.Some? { OneMore(x.value); }
        connQueue := connQueue + [x];
        assert x.None? ==> Packets(connQueue) == old(Packets(connQueue));
      }
    }

    /** Taking the first packet out of a queue. */
    method TakeReorder(ghost held: multiset<nat>) returns (b: nat)
      requires Owns(held) && reorder != []
      modifies this`reorder
      ensures Owns(held + multiset{b}) && |reorder| == old(|reorder|) - 1 < windowLength
      ensures old(multiset(reorder)) == multiset(reorder) + multiset{b}
      ensures b == old(reorder)[0] && reorder == old(reorder)[1..]
    {
      hide Packets, Everything, Sum;
      b := reorder[0];
      ghost var was := multiset(reorder);
      assert reorder == [b] + reorder[1..];
      reorder := reorder[1..];
      assert was == multiset(reorder) + multiset{b};
      OneMore(b);
    }

    method TakeRetransmit(ghost held: multiset<nat>) returns (b: nat)
      requires Owns(held) && retransmit != []
      modifies this`retransmit
      ensures Owns(held + multiset{b}) && |retransmit| < windowLength
      ensures b == old(retransmit)[0] && retransmit == old(retransmit)[1..]
    {
      hide Packets, Everything, Sum;
      b := retransmit[0];
      ghost var was := multiset(retransmit);
      assert retransmit == [b] + retransmit[1..];
      retransmit := retransmit[1..];
      assert was == multiset(retransmit) + multiset{b};
      OneMore(b);
    }

    method TakeDelivered(ghost held: multiset<nat>) returns (x: Option<nat>)
      requires Owns(held) && connQueue != []
      modifies this`connQueue
      ensures Owns(if x.Some? then held + multiset{x.value} else held)
      ensures x == old(connQueue)[0] && connQueue == old(connQueue)[1..]
      ensures old(Packets(connQueue)) == Packets(connQueue) + (if x.Some? then multiset{x.value} else multiset{})
    {
      hide Everything, Packets, Sum;
      x := connQueue[0];
      PacketsFront(connQueue);
      connQueue := connQueue[1..];
      if x.Some? { OneMore(x.value); }
      assert x.None? ==> Packets(connQueue) == old(Packets(connQueue));
    }

    /** csp_rdp_queue_rx_add: a full queue frees the packet. */
    method Reorder(b: nat, ghost held: multiset<nat>)
      requires Owns(held) && b in held
      modifies this`free, this`refs, this`reorder
      ensures Owns(held - multiset{b})
      ensures old(|reorder|) < windowLength ==>
                reorder == old(reorder) + [b] && b in multiset(reorder) && free == old(free)
      ensures old(|reorder|) >= windowLength ==> b in multiset(free) && reorder == old(reorder)
    {
      hide Packets, Everything, Sum;
      if |reorder| < windowLength {
        ghost var was := multiset(reorder);
        OneMore(b);
        reorder := reorder + [b];
        assert multiset(reorder) == was + multiset{b};
      } else {
        Release(b, held);
      }
    }

    /** csp_rdp_rx_queue_flush: any packet that turns out to be next moves to the connection; the queue is
        only touched while more than two slots are free. */
    method FlushReorder(ghost held: multiset<nat>, ghost w: nat)
      requires Owns(held)
      modifies this`connQueue, this`reorder, this`free, this`refs
      ensures Owns(held)
      ensures w in old(Packets(connQueue)) ==> w in Packets(connQueue)
      ensures free == old(free) && |reorder| <= old(|reorder|)
      ensures if old(|connQueue|) < connLength then |connQueue| < connLength else connQueue == old(connQueue)
      decreases |reorder|
    {
      hide Everything, Owns, Packets;
      var i := 0;
      var size := |reorder|;
      while i < size
        invariant Owns(held) && |reorder| == size && connQueue == old(connQueue)
        invariant size == old(|reorder|) && free == old(free)
      {
        if |connQueue| + 2 >= connLength { return; }
        var b := TakeReorder(held);
        ghost var mine := held + multiset{b};
        assert mine - multiset{b} == held;
        if * {
          var ok := Deliver(Some(b), mine);
          PacketsAppend(old(connQueue), [Some(b)]);
          FlushReorder(held, w);
          return;
        }
        Reorder(b, mine);
        i := i + 1;
      }
    }

    // ---- closing ----

    /** csp_conn_flush_rx_queue. */
    method FlushConnection(ghost held: multiset<nat>, ghost w: nat)
      requires Owns(held)
      modifies this`connQueue, this`free, this`refs
      ensures Owns(held) && connQueue == [] && |free| >= old(|free|)
      ensures w in old(Packets(connQueue)) || w in old(multiset(free)) ==> w in multiset(free)
    {
      hide Owns;
      while connQueue != []
        invariant Owns(held) && |free| >= old(|free|)
        invariant w in old(Packets(connQueue)) || w in old(multiset(free)) ==>
                    w in Packets(connQueue) || w in multiset(free)
        decreases |connQueue|
      {
        var x := TakeDelivered(held);
        if x.Some? {
          ghost var mine := held + multiset{x.value};
          assert mine - multiset{x.value} == held;
          Release(x.value, mine);
        }
      }
    }

    /** csp_rdp_queue_flush, when the queues hold packets of this connection only. */
    method FlushWindows(ghost held: multiset<nat>, ghost w: nat)
      requires Owns(held)
      modifies this`reorder, this`retransmit, this`free, this`refs
      ensures Owns(held) && reorder == [] && retransmit == [] && |free| >= old(|free|)
      ensures w in old(multiset(free)) ==> w in multiset(free)
    {
      hide Owns;
      EmptyReorder(held, w);
      EmptyRetransmit(held, w);
    }

    method EmptyReorder(ghost held: multiset<nat>, ghost w: nat)
      requires Owns(held)
      modifies this`reorder, this`free, this`refs
      ensures Owns(held) && reorder == [] && |free| >= old(|free|)
      ensures w in old(multiset(free)) ==> w in multiset(free)
    {
      hide Owns;
      while reorder != []
        invariant Owns(held) && |free| >= old(|free|)
        invariant w in old(multiset(free)) ==> w in multiset(free)
        decreases |reorder|
      {
        var b := TakeReorder(held);
        ghost var mine := held + multiset{b};
        assert mine - multiset{b} == held;
        Release(b, mine);
      }
    }

    method EmptyRetransmit(ghost held: multiset<nat>, ghost w: nat)
      requires Owns(held)
      modifies this`retransmit, this`free, this`refs
      ensures Owns(held) && retransmit == [] && |free| >= old(|free|)
      ensures w in old(multiset(free)) ==> w in multiset(free)
    {
      hide Owns;
      while retransmit != []
        invariant Owns(held) && |free| >= old(|free|)
        invariant w in old(multiset(free)) ==> w in multiset(free)
        decreases |retransmit|
      {
        var b := TakeRetransmit(held);
        ghost var mine := held + multiset{b};
        assert mine - multiset{b} == held;
        Release(b, mine);
      }
    }

    /** csp_conn_close: RDP may send a reset and may keep the connection. */
    method Close(reset: bool, finished: bool, ghost held: multiset<nat>, ghost w: nat)
      requires Owns(held)
      modifies this
      ensures Owns(held) && lost == old(lost) && fifo == old(fifo) && socketQueue == old(socketQueue)
      ensures finished && w in old(Packets(connQueue)) ==> w in multiset(free)
      ensures finished ==> connQueue == [] && reorder == [] && retransmit == []
      ensures !finished ==> connQueue == old(connQueue) && reorder == old(reorder) && retransmit == old(retransmit)
      ensures old(away) <= away && (!reset ==> away == old(away) && |free| >= old(|free|))
    {
      hide Owns, Packets;
      if reset {
        var accepts: seq<bool> := *;
        SendControl(false, accepts, held);
      }
      if finished {
        FlushConnection(held, w);
        FlushWindows(held, w);
      }
    }

    // ---- csp_rdp_check_timeouts ----

    /** One element of the retransmission queue: freed if acknowledged, otherwise sent again from a buffer of
        its own if it has expired and there is one, and put back. */
    method Revisit(v: Visit, accepts: seq<bool>, ghost held: multiset<nat>)
      requires Owns(held) && retransmit != []
      modifies this`free, this`refs, this`away, this`retransmit
      ensures Owns(held)
      ensures retransmit == old(retransmit)[1..] + if v.acknowledged then [] else [old(retransmit)[0]]
      ensures v.acknowledged ==> old(retransmit)[0] in multiset(free) && away == old(away)
      ensures !v.acknowledged && v.expired && old(|free|) >= 2 ==>
                |away| == old(|away|) + Copies(old(|free|) - 1, accepts)
      ensures !v.acknowledged && (!v.expired || old(|free|) < 2) ==> away == old(away) && free == old(free)
      ensures old(away) <= away && (v.acknowledged ==> |free| == old(|free|) + 1)
    {
      hide Owns;
      var b := TakeRetransmit(held);
      ghost var mine := held + multiset{b};
      assert mine - multiset{b} == held;
      if v.acknowledged {
        Release(b, mine);
        return;
      }
      if v.expired {
        SendCopy(accepts, mine);
      }
      Retain(b, mine);
    }

    /** A copy in a buffer of its own, if there is one. */
    method SendCopy(accepts: seq<bool>, ghost held: multiset<nat>)
      requires Owns(held)
      modifies this`free, this`refs, this`away
      ensures Owns(held)
      ensures old(|free|) >= 2 ==> |away| == old(|away|) + Copies(old(|free|) - 1, accepts)
      ensures old(|free|) < 2 ==> away == old(away) && free == old(free)
      ensures old(away) <= away
    {
      hide Owns;
      var copy := Get(2, held);
      if copy.Some? {
        assert held + multiset{copy.value} - multiset{copy.value} == held;
        SendDirect(copy.value, false, accepts, held + multiset{copy.value});
      }
    }

    /** The whole queue, each element once. */
    method RevisitAll(visits: seq<Visit>, ghost held: multiset<nat>)
      requires Owns(held)
      modifies this`free, this`refs, this`away, this`retransmit
      ensures Owns(held) && retransmit == Survivors(old(retransmit), visits)
      ensures old(away) <= away && (Unsent(visits) ==> away == old(away) && |free| >= old(|free|))
    {
      hide Owns;
      ghost var all := retransmit;
      var size := |retransmit|;
      assert all[0..] + Survivors(all[..0], visits) == all;
      for i := 0 to size
        invariant Owns(held) && retransmit == all[i..] + Survivors(all[..i], visits)
        invariant old(away) <= away && (Unsent(visits) ==> away == old(away) && |free| >= old(|free|))
      {
        var accepts: seq<bool> := *;
        var v := if i < |visits| then visits[i] else Visit(false, false);
        assert all[..i + 1][..i] == all[..i];
        assert (all[i..] + Survivors(all[..i], visits))[1..] == all[i + 1..] + Survivors(all[..i], visits);
        Revisit(v, accepts, held);
        ghost var last := if v.acknowledged then [] else [all[i]];
        assert all[i + 1..] + Survivors(all[..i], visits) + last == all[i + 1..] + (Survivors(all[..i], visits) + last);
      }
      assert all[..size] == all && all[size..] == [];
    }

    /** The timeouts of one connection: it is closed, or its retransmission queue is gone through once, an
        acknowledgement may be sent and reordered packets may be delivered. No buffer is dropped. */
    method CheckConnection(t: Timers, ghost held: multiset<nat>)
      requires Owns(held)
      modifies this
      ensures Owns(held) && fifo == old(fifo) && lost == old(lost) && socketQueue == old(socketQueue)
      ensures t.Expired? && t.finished ==> connQueue == [] && reorder == [] && retransmit == []
      ensures t.Served? ==> retransmit == Survivors(old(retransmit), t.visits)
      ensures |reorder| <= old(|reorder|) && (old(|connQueue|) < connLength ==> |connQueue| < connLength)
      ensures !(t.Expired? && t.finished) && old(|connQueue|) >= connLength ==> connQueue == old(connQueue)
      ensures old(away) <= away && (Silent(t) ==> away == old(away) && |free| >= old(|free|))
    {
      hide Owns, Packets;
      match t
      case Expired(reset, finished) =>
        Close(reset, finished, held, 0);
      case Served(visits, answered) =>
        RevisitAll(visits, held);
        if answered {
          var accepts: seq<bool> := *;
          SendControl(false, accepts, held);
        }
        FlushReorder(held, 0);
    }

    /** csp_conn_check_timeouts: every connection that is open and uses RDP in turn. */
    method CheckTimeouts(ts: seq<Timers>, ghost held: multiset<nat>)
      requires Owns(held)
      modifies this
      ensures Owns(held) && fifo == old(fifo) && lost == old(lost) && socketQueue == old(socketQueue)
      ensures ts == [] ==> Rooms() == old(Rooms()) && away == old(away)
      ensures Kept(ts, old(Rooms()), Rooms())
      ensures old(away) <= away
      ensures (forall t :: t in ts ==> Silent(t)) ==> away == old(away) && |free| >= old(|free|)
    {
      hide Owns;
      for k := 0 to |ts|
        invariant Owns(held) && fifo == old(fifo) && lost == old(lost) && socketQueue == old(socketQueue)
        invariant ts == [] ==> Rooms() == old(Rooms()) && away == old(away)
        invariant Kept(ts, old(Rooms()), Rooms())
        invariant old(away) <= away
        invariant (forall t :: t in ts ==> Silent(t)) ==> away == old(away) && |free| >= old(|free|)
      {
        CheckConnection(ts[k], held);
      }
    }

    // ---- csp_send on a connection ----

    /** User space sends a packet it holds: over RDP, if the connection is ready and a clone can be had, the clone is
        kept for retransmission; otherwise the packet is freed. */
    method Send(b: nat, rdp: bool, ready: bool, loopback: bool, accepts: seq<bool>, ghost held: multiset<nat>)
      requires Owns(held) && b in held
      modifies this`free, this`refs, this`away, this`retransmit
      ensures Owns(held - multiset{b})
      ensures !loopback || (rdp && (!ready || old(|free|) < 2)) ==> b in multiset(free)
      ensures !rdp && loopback && accepts != [] && accepts[0] ==> b in away
      ensures !rdp && !loopback ==> |away| == old(|away|) + Copies(old(|free|), accepts)
      ensures rdp && ready && old(|free|) >= 2 && old(|retransmit|) < windowLength ==>
                retransmit == old(retransmit) + [old(free)[0]]
      ensures rdp && ready && old(|free|) >= 2 && old(|retransmit|) < windowLength && !loopback ==>
                |away| == old(|away|) + Copies(old(|free|) - 1, accepts)
      ensures !rdp || !ready || old(|free|) < 2 ==> retransmit == old(retransmit)
    {
      hide Owns;
      if rdp {
        if !ready {
          Release(b, held);
          return;
        }
        var clone := Get(2, held);
        if clone.None? {
          Release(b, held);
          return;
        }
        assert held + multiset{clone.value} - multiset{clone.value} == held;
        Retain(clone.value, held + multiset{clone.value});
      }
      SendDirect(b, loopback, accepts, held);
    }

    // ---- csp_rdp_new_packet ----

    /** A reply may be sent first; then the segment goes where its fate says. */
    method RdpReceive(b: nat, fate: Fate, ghost held: multiset<nat>) returns (p: Place)
      requires Owns(held) && b in held
      modifies this
      ensures Owns(held - multiset{b}) && fifo == old(fifo) && At(b, p)
      ensures p == RdpOutcome(fate, old(|connQueue|) < connLength, old(|reorder|) < windowLength)
      ensures |lost| <= old(|lost|) + 1
    {
      hide Owns, Packets;
      var reply, syn: bool := *, *;
      if reply {
        var accepts: seq<bool> := *;
        SendControl(syn, accepts, held);
      }
      match fate
      case InSequence(answered) =>
        p := InOrder(b, answered, held);
      case Ahead(repeated, answered) =>
        p := OutOfOrder(b, repeated, answered, held);
      case Discarded(closing, reset, finished, wake) =>
        if closing {
          DiscardClose(reset, finished, wake, held);
        }
        Release(b, held);
        p := Free;
    }

    ghost predicate At(b: nat, p: Place)
      reads this
    {
      match p
      case Free => b in multiset(free)
      case OnConnection => b in Packets(connQueue)
      case OnSocket => b in multiset(socketQueue)
      case Reordered => b in multiset(reorder)
      case Away => b in away
    }

    method OutOfOrder(b: nat, repeated: bool, answered: bool, ghost held: multiset<nat>) returns (p: Place)
      requires Owns(held) && b in held
      modifies this
      ensures Owns(held - multiset{b}) && fifo == old(fifo) && At(b, p)
      ensures p == if !repeated && old(|reorder|) < windowLength then Reordered else Free
      ensures lost == old(lost)
    {
      hide Owns, Packets;
      if repeated {
        if answered {
          var accepts: seq<bool> := *;
          SendControl(false, accepts, held);
        }
        Release(b, held);
        p := Free;
      } else {
        p := if |reorder| < windowLength then Reordered else Free;
        Reorder(b, held);
      }
    }

    method InOrder(b: nat, answered: bool, ghost held: multiset<nat>) returns (p: Place)
      requires Owns(held) && b in held
      modifies this
      ensures Owns(held - multiset{b}) && fifo == old(fifo) && At(b, p)
      ensures p == if old(|connQueue|) < connLength then OnConnection else Free
      ensures lost == old(lost)
    {
      hide Owns, Packets;
      var ok := Deliver(Some(b), held);
      if !ok {
        Release(b, held);
        return Free;
      }
      PacketsAppend(old(connQueue), [Some(b)]);
      PacketsOne(Some(b));
      ghost var rest := held - multiset{b};
      if answered {
        var accepts: seq<bool> := *;
        SendControl(false, accepts, rest);
      }
      FlushReorder(rest, b);
      p := OnConnection;
    }

    /** The discard_close exit: a reader that holds the connection is woken by a NULL. */
    method DiscardClose(reset: bool, finished: bool, wake: bool, ghost held: multiset<nat>)
      requires Owns(held)
      modifies this
      ensures Owns(held) && fifo == old(fifo) && lost == old(lost)
      ensures finished ==> reorder == [] && retransmit == []
      ensures wake && (if finished then 0 else old(|connQueue|)) < connLength ==>
                connQueue == (if finished then [] else old(connQueue)) + [None]
    {
      hide Owns, Packets;
      Close(reset, finished, held, 0);
      if wake {
        var ok := Deliver(None, held);
      }
    }

    // ---- around the router ----

    /** An interface allocates a packet and writes it to the input queue; a full queue frees it. */
    method Arrive(room: bool)
      requires Owns(multiset{})
      modifies this`free, this`refs, this`fifo
      ensures Owns(multiset{})
    {
      hide Owns;
      var b := Get(0, multiset{});
      if b.None? { return; }
      ghost var mine := multiset{} + multiset{b.value};
      assert mine - multiset{b.value} == multiset{};
      if room {
        WriteFifo(b.value, mine);
      } else {
        Release(b.value, mine);
      }
    }

    method WriteFifo(b: nat, ghost held: multiset<nat>)
      requires Owns(held) && b in held
      modifies this`fifo
      ensures Owns(held - multiset{b}) && fifo == old(fifo) + [b]
    {
      hide Packets, Everything, Sum;
      ghost var was := multiset(fifo);
      OneMore(b);
      fifo := fifo + [b];
      assert multiset(fifo) == was + multiset{b};
    }

    /** An interface or a callback is done with a packet. */
    method Finish(b: nat)
      requires Owns(multiset{}) && b in away
      modifies this`free, this`refs, this`away
      ensures Owns(multiset{}) && b in multiset(free)
    {
      hide Packets, Everything, Sum;
      ghost var was := away;
      away := away - multiset{b};
      assert was == away + multiset{b};
      OneMore(b);
      assert multiset{b} - multiset{b} == multiset{};
      Release(b, multiset{b});
    }

    // ---- csp_route_work ----

    method ReadFifo() returns (b: nat)
      requires Owns(multiset{}) && fifo != []
      modifies this`fifo
      ensures Owns(multiset{b}) && fifo == old(fifo)[1..] && b == old(fifo)[0]
    {
      hide Packets, Everything, Sum;
      b := fifo[0];
      ghost var was := multiset(fifo);
      assert fifo == [b] + fifo[1..];
      fifo := fifo[1..];
      assert was == multiset(fifo) + multiset{b};
      OneMore(b);
    }

    /** A callback takes the packet. */
    method HandOver(b: nat)
      requires Owns(multiset{b})
      modifies this`away
      ensures Owns(multiset{}) && b in away
    {
      hide Packets, Everything, Sum;
      OneMore(b);
      away := away + multiset{b};
    }

    /** Delivery to a connection-less socket. */
    method ToSocket(b: nat) returns (p: Place)
      requires Owns(multiset{b})
      modifies this`free, this`refs, this`socketQueue
      ensures Owns(multiset{}) && At(b, p)
      ensures old(|socketQueue|) < socketLength ==> p == OnSocket && socketQueue == old(socketQueue) + [b]
      ensures old(|socketQueue|) >= socketLength ==> p == Free && socketQueue == old(socketQueue)
    {
      hide Packets, Everything, Sum;
      if |socketQueue| >= socketLength {
        assert multiset{b} - multiset{b} == multiset{};
        Release(b, multiset{b});
        return Free;
      }
      ghost var was := multiset(socketQueue);
      OneMore(b);
      socketQueue := socketQueue + [b];
      assert multiset(socketQueue) == was + multiset{b};
      p := OnSocket;
    }

    /** Delivery to a connection without RDP. A new connection its socket cannot queue is closed again. */
    method ToConnection(b: nat, refused: bool) returns (p: Place)
      requires Owns(multiset{b})
      modifies this`free, this`refs, this`connQueue
      ensures Owns(multiset{}) && At(b, p)
      ensures p == if old(|connQueue|) < connLength && !refused then OnConnection else Free
      ensures p == OnConnection ==> connQueue == old(connQueue) + [Some(b)]
      ensures old(|connQueue|) < connLength && refused ==> connQueue == []
    {
      hide Owns, Packets;
      assert multiset{b} - multiset{b} == multiset{};
      var ok := Deliver(Some(b), multiset{b});
      if !ok {
        Release(b, multiset{b});
        return Free;
      }
      PacketsAppend(old(connQueue), [Some(b)]);
      PacketsOne(Some(b));
      p := OnConnection;
      if refused {
        FlushConnection(multiset{}, b);
        p := Free;
      }
    }

    /** The router checks the timeouts, takes one packet from its input, and on every path leaves it where it has
        to be, given the room there is after the timeouts. A packet for another node leaves in as many copies
        as there are buffers and interfaces that take one. All other buffers are accounted for too. */
    method RouteWork(d: Decisions, ts: seq<Timers>, accepts: seq<bool>)
      returns (p: Option<Place>, ghost room: Room, ghost left: nat)
      requires Owns(multiset{})
      modifies this
      ensures Owns(multiset{})
      ensures p.None? <==> old(fifo) == []
      ensures p.Some? ==> fifo == old(fifo)[1..] && At(old(fifo)[0], p.value) && p.value == Outcome(d, room)
      ensures ts == [] ==> room == old(Rooms()) && left == old(|away|)
      ensures Kept(ts, old(Rooms()), room) && left >= old(|away|)
      ensures (forall t :: t in ts ==> Silent(t)) ==> left == old(|away|) && room.free >= old(|free|)
      ensures p.Some? && !d.duplicate && !d.toMe ==> |away| == left + Copies(room.free, accepts)
      ensures |lost| <= old(|lost|) + 1 && (lost != old(lost) ==> d.rdp)
    {
      hide Owns, Packets;
      CheckTimeouts(ts, multiset{});
      assert away == old(away) + (away - old(away));
      room, left := Rooms(), |away|;
      if fifo == [] { p := None; return; }
      var b := ReadFifo();
      var place := Dispose(b, d, accepts);
      p := Some(place);
    }

    /** A packet taken from the input. */
    method Dispose(b: nat, d: Decisions, accepts: seq<bool>) returns (p: Place)
      requires Owns(multiset{b})
      modifies this
      ensures Owns(multiset{}) && fifo == old(fifo) && At(b, p) && p == Outcome(d, old(Rooms()))
      ensures !d.duplicate && !d.toMe ==> |away| == old(|away|) + Copies(old(|free|), accepts)
      ensures |lost| <= old(|lost|) + 1 && (lost != old(lost) ==> d.rdp)
    {
      hide Owns, Packets, Copies;
      assert multiset{b} - multiset{b} == multiset{};
      p := Free;
      if d.duplicate {
        Release(b, multiset{b});
      } else if !d.toMe {
        SendDirect(b, false, accepts, multiset{b});
      } else if !d.supported {
        Release(b, multiset{b});
      } else if d.callback {
        if !d.secure {
          Release(b, multiset{b});
        } else {
          HandOver(b);
          p := Away;
        }
      } else if d.socket && d.connectionless {
        if !d.secure {
          Release(b, multiset{b});
        } else {
          p := ToSocket(b);
        }
      } else {
        p := Connect(b, d);
      }
    }

    /** A packet of a connection, found or made. */
    method Connect(b: nat, d: Decisions) returns (p: Place)
      requires Owns(multiset{b})
      modifies this
      ensures Owns(multiset{}) && fifo == old(fifo) && At(b, p)
      ensures var space := if d.existing then old(|connQueue|) < connLength else 0 < connLength;
              p == if !d.secure || (!d.existing && !(d.socket && d.slot)) then Free
                   else if d.rdp then RdpOutcome(d.fate, space, old(|reorder|) < windowLength)
                   else if space && !(d.pending && !d.backlog) then OnConnection else Free
      ensures |lost| <= old(|lost|) + 1 && (lost != old(lost) ==> d.rdp)
    {
      hide Owns, Packets;
      assert multiset{b} - multiset{b} == multiset{};
      if !d.existing {
        if !d.socket || !d.secure || !d.slot {
          Release(b, multiset{b});
          return Free;
        }
        FlushConnection(multiset{b}, b);
      } else if !d.secure {
        Release(b, multiset{b});
        return Free;
      }
      p := ToPeer(b, d);
    }

    method ToPeer(b: nat, d: Decisions) returns (p: Place)
      requires Owns(multiset{b})
      modifies this
      ensures Owns(multiset{}) && fifo == old(fifo) && At(b, p)
      ensures var space := old(|connQueue|) < connLength;
              p == if d.rdp then RdpOutcome(d.fate, space, old(|reorder|) < windowLength)
                   else if space && !(d.pending && !d.backlog) then OnConnection else Free
      ensures |lost| <= old(|lost|) + 1 && (lost != old(lost) ==> d.rdp)
    {
      hide Owns, Packets;
      assert multiset{b} - multiset{b} == multiset{};
      if !d.rdp {
        p := ToConnection(b, d.pending && !d.backlog);
      } else {
        p := RdpReceive(b, d.fate, multiset{b});
        var close: bool := *;
        if d.fate.Discarded? && close {
          CloseFree(b);
        }
      }
    }

    /** csp_close after a reset, once the packet has been freed. */
    method CloseFree(ghost b: nat)
      requires Owns(multiset{}) && b in multiset(free)
      modifies this
      ensures Owns(multiset{}) && fifo == old(fifo) && lost == old(lost) && b in multiset(free)
      ensures connQueue == [] && reorder == [] && retransmit == []
    {
      hide Owns, Packets;
      FlushConnection(multiset{}, b);
      FlushWindows(multiset{}, b);
    }

    // ---- what owning means ----

    lemma OnePlace(b: nat)
      requires Owns(multiset{}) && b < count
      ensures multiset(free)[b] + multiset(fifo)[b] + Packets(connQueue)[b] + multiset(socketQueue)[b]
              + multiset(reorder)[b] + multiset(retransmit)[b] + away[b] + lost[b] == 1
    {
      hide Packets, Everything;
      InRange(multiset{}, b);
    }

    /** The free list never holds a buffer twice. */
    lemma FreeListDistinct(held: multiset<nat>, i: nat, j: nat)
      requires Owns(held) && i < j < |free|
      ensures free[i] != free[j]
    {
      hide Packets, Everything, Sum;
      if free[i] == free[j] {
        Twice(free, i, j);
        InRange(held, free[i]);
      }
    }
  }

  lemma Twice(s: seq<nat>, i: nat, j: nat)
    requires i < j < |s| && s[i] == s[j]
    ensures multiset(s)[s[i]] >= 2
  {
    assert s == s[..i] + [s[i]] + s[i + 1..j] + [s[j]] + s[j + 1..];
  }

  lemma {:induction false} EverythingIs(count: nat)
    ensures multiset(UpTo(count)) == Everything(count)
  {
    if count > 0 { EverythingIs(count - 1); }
  }

  function UpTo(n: nat): (s: seq<nat>)
    ensures |s| == n
  {
    if n == 0 then [] else UpTo(n - 1) + [n - 1]
  }
}
