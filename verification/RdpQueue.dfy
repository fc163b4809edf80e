/** The packet queues shared by all RDP connections (src/csp_rdp_queue.c).  A packet carries
    the connection it belongs to; every operation works by rotating the one queue. */
module RdpQueue {
  import opened Bytes
  import opened Rotation

  datatype Slot<T> = Slot(owner: nat, packet: T)

  // ---- what the operations mean ----

  /** The packets of one connection, in queue order. */
  function Of<T>(q: seq<Slot<T>>, conn: nat): seq<Slot<T>> {
    if q == [] then []
    else if q[0].owner == conn then [q[0]] + Of(q[1..], conn) else Of(q[1..], conn)
  }

  /** Everything except the packets of one connection, in queue order. */
  function Without<T>(q: seq<Slot<T>>, conn: nat): seq<Slot<T>> {
    if q == [] then []
    else if q[0].owner == conn then Without(q[1..], conn) else [q[0]] + Without(q[1..], conn)
  }

  function Relabelled<T>(q: seq<Slot<T>>, conn: nat): (r: seq<Slot<T>>)
    ensures |r| == |q| && forall i :: 0 <= i < |q| ==> r[i] == Slot(conn, q[i].packet)
  {
    if q == [] then [] else [Slot(conn, q[0].packet)] + Relabelled(q[1..], conn)
  }

  /** Position of the first packet of a connection. */
  function First<T>(q: seq<Slot<T>>, conn: nat): (k: nat)
    ensures k <= |q| && (k < |q| ==> q[k].owner == conn)
    ensures forall j :: 0 <= j < k ==> q[j].owner != conn
  {
    if q == [] || q[0].owner == conn then 0 else 1 + First(q[1..], conn)
  }

  lemma {:induction false} OfAppend<T>(a: seq<Slot<T>>, b: seq<Slot<T>>, conn: nat)
    ensures Of(a + b, conn) == Of(a, conn) + Of(b, conn)
    decreases |a|
  {
    if a == [] {
      assert a + b == b;
    } else {
      OfAppend(a[1..], b, conn);
      assert (a + b)[1..] == a[1..] + b;
    }
  }

  lemma {:induction false} WithoutAppend<T>(a: seq<Slot<T>>, b: seq<Slot<T>>, conn: nat)
    ensures Without(a + b, conn) == Without(a, conn) + Without(b, conn)
    decreases |a|
  {
    if a == [] {
      assert a + b == b;
    } else {
      WithoutAppend(a[1..], b, conn);
      assert (a + b)[1..] == a[1..] + b;
    }
  }

  lemma {:induction false} OfForeign<T>(q: seq<Slot<T>>, conn: nat)
    requires forall i :: 0 <= i < |q| ==> q[i].owner != conn
    ensures Of(q, conn) == [] && Without(q, conn) == q
    decreases |q|
  {
    if q != [] {
      OfForeign(q[1..], conn);
    }
  }

  lemma TakeOne<T>(q: seq<Slot<T>>, i: nat, conn: nat)
    requires i < |q|
    ensures Without(q[..i + 1], conn) ==
            if q[i].owner == conn then Without(q[..i], conn) else Without(q[..i], conn) + [q[i]]
    ensures Packets(Of(q[..i + 1], conn))
         == if q[i].owner == conn then Packets(Of(q[..i], conn)) + [q[i].packet] else Packets(Of(q[..i], conn))
  {
    assert q[..i + 1] == q[..i] + [q[i]];
    OfAppend(q[..i], [q[i]], conn);
    WithoutAppend(q[..i], [q[i]], conn);
    PacketsAppend(Of(q[..i], conn), Of([q[i]], conn));
  }

  /** csp_queue with a fixed number of slots; freed collects what csp_buffer_free received. */
  class Queue<T> {
    const capacity: nat
    var slots: seq<Slot<T>>
    var freed: seq<T>

    ghost predicate Valid()
      reads this
    {
      |slots| <= capacity
    }

    constructor (n: nat)
      ensures Valid() && capacity == n && slots == [] && freed == []
    {
      capacity := n;
      slots := [];
      freed := [];
    }

    /** csp_rdp_queue_add. */
    method Add(conn: nat, packet: T)
      requires Valid()
      modifies this
      ensures Valid()
      ensures old(|slots|) < capacity ==> slots == old(slots) + [Slot(conn, packet)] && freed == old(freed)
      ensures old(|slots|) == capacity ==> slots == old(slots) && freed == old(freed) + [packet]
    {
      if |slots| < capacity {
        slots := slots + [Slot(conn, packet)];
      } else {
        freed := freed + [packet];
      }
    }

    /** csp_rdp_queue_get: rotate until a packet of the connection comes up.  What is rotated
        past is put back under the caller's connection. */
    method Get(conn: nat) returns (r: Option<T>)
      requires Valid()
      modifies this
      ensures Valid() && freed == old(freed)
      ensures var k := First(old(slots), conn);
              if k < |old(slots)| then
                r == Some(old(slots)[k].packet) && slots == old(slots)[k + 1..] + Relabelled(old(slots)[..k], conn)
              else r == None && slots == Relabelled(old(slots), conn)
    {
      hide Turned, First, Relabelled;
      var size := |slots|;
      var i := 0;
      ghost var q := slots;
      ghost var k := First(q, conn);
      Start(q);
      RelabelledNothing(q, conn);
      while size > 0
        invariant Valid() && freed == old(freed)
        invariant 0 <= i <= k && i + size == |q|
        invariant slots == Turned(q, i, Relabelled(q[..i], conn))
      {
        size := size - 1;
        Front(q, i, Relabelled(q[..i], conn));
        var s := slots[0];
        slots := slots[1..];
        if s.owner == conn {
          TurnedIs(q, i + 1, Relabelled(q[..i], conn));
          return Some(s.packet);
        }
        Add(conn, s.packet);
        PutBack(q, i + 1, Relabelled(q[..i], conn), Slot(conn, s.packet));
        RelabelledNext(q, i, conn);
        i := i + 1;
      }
      End(q, Relabelled(q, conn));
      r := None;
    }

    /** __csp_rdp_queue_flush: free the packets of one connection, keep the others and their
        order. */
    method Flush(conn: nat)
      requires Valid()
      modifies this
      ensures Valid()
      ensures slots == Without(old(slots), conn)
      ensures freed == old(freed) + Packets(Of(old(slots), conn))
    {
      hide Turned, Without, Of, Packets;
      var size := |slots|;
      ghost var q := slots;
      var i := 0;
      Start(q);
      FilterNothing(q, conn);
      while size > 0
        invariant Valid()
        invariant 0 <= i <= |q| && i + size == |q|
        invariant slots == Turned(q, i, Without(q[..i], conn))
        invariant freed == old(freed) + Packets(Of(q[..i], conn))
      {
        size := size - 1;
        Front(q, i, Without(q[..i], conn));
        var s := slots[0];
        slots := slots[1..];
        TakeOne(q, i, conn);
        if s.owner == conn {
          freed := freed + [s.packet];
        } else {
          PutBack(q, i + 1, Without(q[..i], conn), s);
          slots := slots + [s];
        }
        i := i + 1;
      }
      End(q, Without(q, conn));
    }
  }

  lemma RelabelledNothing<T>(q: seq<Slot<T>>, conn: nat)
    ensures Relabelled(q[..0], conn) == []
  {
  }

  lemma RelabelledNext<T>(q: seq<Slot<T>>, i: nat, conn: nat)
    requires i < |q|
    ensures Relabelled(q[..i + 1], conn) == Relabelled(q[..i], conn) + [Slot(conn, q[i].packet)]
  {
    hide Relabelled;
    var a, b := Relabelled(q[..i + 1], conn), Relabelled(q[..i], conn) + [Slot(conn, q[i].packet)];
    assert |a| == |b| && forall j :: 0 <= j < |a| ==> a[j] == b[j];
  }

  lemma FilterNothing<T>(q: seq<Slot<T>>, conn: nat)
    ensures Without(q[..0], conn) == [] && Packets(Of(q[..0], conn)) == []
  {
  }

  function Packets<T>(q: seq<Slot<T>>): seq<T> {
    if q == [] then [] else [q[0].packet] + Packets(q[1..])
  }

  lemma {:induction false} PacketsAppend<T>(a: seq<Slot<T>>, b: seq<Slot<T>>)
    ensures Packets(a + b) == Packets(a) + Packets(b)
    decreases |a|
  {
    if a == [] {
      assert a + b == b;
    } else {
      PacketsAppend(a[1..], b);
      assert (a + b)[1..] == a[1..] + b;
    }
  }

  // ---- consequences ----

  /** A flush takes nothing from any other connection and leaves nothing of its own. */
  lemma {:induction false} FlushIsolates<T>(q: seq<Slot<T>>, conn: nat, other: nat)
    ensures Of(Without(q, conn), other) == if other == conn then [] else Of(q, other)
    decreases |q|
  {
    if q != [] {
      FlushIsolates(q[1..], conn, other);
      if q[0].owner != conn {
        assert ([q[0]] + Without(q[1..], conn))[1..] == Without(q[1..], conn);
      }
    }
  }

  /** The queue Get leaves behind. */
  function AfterGet<T>(q: seq<Slot<T>>, conn: nat): seq<Slot<T>> {
    var k := First(q, conn);
    if k < |q| then q[k + 1..] + Relabelled(q[..k], conn) else Relabelled(q, conn)
  }

  lemma {:induction false} OfRelabelled<T>(q: seq<Slot<T>>, conn: nat, other: nat)
    requires other != conn
    ensures Of(Relabelled(q, conn), other) == []
    decreases |q|
  {
    if q != [] {
      OfRelabelled(q[1..], conn, other);
      assert Relabelled(q, conn)[1..] == Relabelled(q[1..], conn);
    }
  }

  lemma GetSteals<T>(q: seq<Slot<T>>, conn: nat)
    requires q != [] && q[0].owner != conn
    ensures |Of(AfterGet(q, conn), q[0].owner)| < |Of(q, q[0].owner)|
  {
    hide Of, First, Relabelled;
    var k, other := First(q, conn), q[0].owner;
    if k < |q| {
      var head, tail := q[..k], q[k + 1..];
      OfAppend(tail, Relabelled(head, conn), other);
      OfRelabelled(head, conn, other);
      assert q == head + ([q[k]] + tail);
      OfAppend(head, [q[k]] + tail, other);
      OfAppend([q[k]], tail, other);
      assert k > 0;
      OfFront(head, other);
    } else {
      OfRelabelled(q, conn, other);
      OfFront(q, other);
    }
  }

  lemma OfFront<T>(q: seq<Slot<T>>, conn: nat)
    requires q != [] && q[0].owner == conn
    ensures |Of(q, conn)| > 0
  {
  }

  lemma GetHead<T>(q: seq<Slot<T>>, conn: nat, other: nat)
    requires q != [] && q[0].owner == conn && other != conn
    ensures Of(AfterGet(q, conn), other) == Of(q, other)
  {
    assert First(q, conn) == 0;
    assert AfterGet(q, conn) == q[1..];
  }

  /** Looking for a packet of one connection leaves the packets of every other connection
      alone exactly when the queue is empty or starts with a packet of that connection:
      whatever is rotated past changes hands. */
  lemma GetIsolatesExactly<T>(q: seq<Slot<T>>, conn: nat)
    ensures (forall other :: other != conn ==> Of(AfterGet(q, conn), other) == Of(q, other))
            <==> q == [] || q[0].owner == conn
  {
    if q != [] {
      hide AfterGet;
      if q[0].owner == conn {
        forall other | other != conn
          ensures Of(AfterGet(q, conn), other) == Of(q, other)
        {
          GetHead(q, conn, other);
        }
      } else {
        GetSteals(q, conn);
      }
    }
  }
}
