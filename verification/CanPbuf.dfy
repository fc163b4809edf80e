/** Partly received packets of a CAN interface (src/interfaces/csp_if_can_pbuf.c): a list searched by
    masked CAN id, and what the list makes of interleaved fragment streams. */
module CanPbuf {
  import opened Bytes
  import opened CspId

  /** PBUF_TIMEOUT_MS. */
  const TIMEOUT := 1000

  datatype CanFrame = CanFrame(id: bv32, data: seq<byte>)

  /** A packet for the interface's own address loops back; any other is cut into frames. */
  datatype Transmission = Loopback(packet: Packet) | OnBus(frames: seq<CanFrame>)

  /** A list element: its masked CAN id, the time of its last use and what has arrived. */
  datatype Entry<P> = Entry(key: bv32, used: int, part: P)

  function Find<P>(t: seq<Entry<P>>, k: bv32): Option<P> {
    if t == [] then None else if t[0].key == k then Some(t[0].part) else Find(t[1..], k)
  }

  /** The element for k refreshed, as csp_can_pbuf_find does. */
  function Touch<P>(t: seq<Entry<P>>, k: bv32, now: int): seq<Entry<P>> {
    if t == [] then []
    else if t[0].key == k then [t[0].(used := now)] + t[1..]
    else [t[0]] + Touch(t[1..], k, now)
  }

  /** The element for k with new contents. */
  function Write<P>(t: seq<Entry<P>>, k: bv32, p: P): seq<Entry<P>> {
    if t == [] then []
    else if t[0].key == k then [t[0].(part := p)] + t[1..]
    else [t[0]] + Write(t[1..], k, p)
  }

  /** The list without the element for k, as csp_can_pbuf_free leaves it. */
  function Drop<P>(t: seq<Entry<P>>, k: bv32): seq<Entry<P>> {
    if t == [] then [] else if t[0].key == k then t[1..] else [t[0]] + Drop(t[1..], k)
  }

  predicate Expired<P>(e: Entry<P>, now: int) {
    now - e.used > TIMEOUT
  }

  /** csp_can_pbuf_cleanup. The walk unlinks an expired element through the element before it, even
      when that one has just been unlinked itself; then the element stays in the list, freed. */
  function Cleanup<P>(t: seq<Entry<P>>, now: int, unlinked: bool): seq<Entry<P>> {
    if t == [] then []
    else if Expired(t[0], now) && !unlinked then Cleanup(t[1..], now, true)
    else [t[0]] + Cleanup(t[1..], now, false)
  }

  function Unexpired<P>(t: seq<Entry<P>>, now: int): seq<Entry<P>> {
    if t == [] then []
    else if Expired(t[0], now) then Unexpired(t[1..], now)
    else [t[0]] + Unexpired(t[1..], now)
  }

  predicate Adjacent<P>(t: seq<Entry<P>>, now: int) {
    exists i :: 0 <= i < |t| - 1 && Expired(t[i], now) && Expired(t[i + 1], now)
  }

  lemma {:induction false} CleanupLength<P>(t: seq<Entry<P>>, now: int, unlinked: bool)
    ensures |Unexpired(t, now)| <= |Cleanup(t, now, unlinked)|
    ensures t != [] && unlinked && Expired(t[0], now) ==> |Unexpired(t, now)| < |Cleanup(t, now, true)|
  {
    if t != [] {
      CleanupLength(t[1..], now, true);
      CleanupLength(t[1..], now, false);
    }
  }

  lemma {:induction false} CleanupWalk<P>(t: seq<Entry<P>>, now: int, unlinked: bool)
    requires unlinked && t != [] ==> !Expired(t[0], now)
    ensures Cleanup(t, now, unlinked) == Unexpired(t, now) <==> !Adjacent(t, now)
  {
    hide Adjacent;
    if t == [] {
      assert !Adjacent(t, now) by { NothingAdjacent(t, now); }
    } else {
      var rest := t[1..];
      if Expired(t[0], now) && rest != [] && Expired(rest[0], now) {
        FrontAdjacent(t, now);
        CleanupLength(rest, now, true);
      } else {
        CleanupWalk(rest, now, Expired(t[0], now));
        AdjacentTail(t, now);
        if !Expired(t[0], now) {
          FrontCancels(t[0], Cleanup(rest, now, false), Unexpired(rest, now));
        }
      }
    }
  }

  lemma NothingAdjacent<P>(t: seq<Entry<P>>, now: int)
    requires |t| < 2
    ensures !Adjacent(t, now)
  {
  }

  lemma FrontAdjacent<P>(t: seq<Entry<P>>, now: int)
    requires |t| > 1 && Expired(t[0], now) && Expired(t[1], now)
    ensures Adjacent(t, now)
  {
    assert Expired(t[0], now) && Expired(t[0 + 1], now);
  }

  lemma FrontCancels<T>(e: T, a: seq<T>, b: seq<T>)
    ensures [e] + a == [e] + b <==> a == b
  {
    assert ([e] + a)[1..] == a && ([e] + b)[1..] == b;
  }

  lemma AdjacentTail<P>(t: seq<Entry<P>>, now: int)
    requires t != []
    requires !(Expired(t[0], now) && |t| > 1 && Expired(t[1], now))
    ensures Adjacent(t, now) <==> Adjacent(t[1..], now)
  {
    var rest := t[1..];
    if Adjacent(t, now) {
      var i :| 0 <= i < |t| - 1 && Expired(t[i], now) && Expired(t[i + 1], now);
      assert Expired(rest[i - 1], now) && Expired(rest[i - 1 + 1], now);
    }
    if Adjacent(rest, now) {
      var i :| 0 <= i < |rest| - 1 && Expired(rest[i], now) && Expired(rest[i + 1], now);
      assert Expired(t[i + 1], now) && Expired(t[i + 1 + 1], now);
    }
  }

  /** Cleaning up leaves exactly the unexpired elements if and only if no two neighbours of the list
      have expired. */
  lemma CleanupExactly<P>(t: seq<Entry<P>>, now: int)
    ensures Cleanup(t, now, false) == Unexpired(t, now) <==> !Adjacent(t, now)
  {
    CleanupWalk(t, now, false);
  }

  /** It does happen: of two expired neighbours the second stays. */
  lemma CleanupMisses<P>(a: Entry<P>, b: Entry<P>, now: int)
    requires now - a.used > 1000 && now - b.used > 1000
    ensures Cleanup([a, b], now, false) == [b]
  {
    assert [a, b][1..] == [b] && [b][1..] == [];
    assert Cleanup([b][1..], now, false) == [];
    assert Cleanup([b], now, true) == [b] + [] == [b];
  }

  /** What was used within the last second stays. */
  lemma {:induction false} RecentStays<P>(t: seq<Entry<P>>, now: int, unlinked: bool)
    requires forall i :: 0 <= i < |t| ==> now - t[i].used <= 1000
    ensures Cleanup(t, now, unlinked) == t
  {
    if t != [] { RecentStays(t[1..], now, false); }
  }

  /** What the walk frees: every expired element, unlinked or not. */
  function Freed<P>(t: seq<Entry<P>>, now: int): seq<Entry<P>> {
    if t == [] then [] else (if Expired(t[0], now) then [t[0]] else []) + Freed(t[1..], now)
  }

  /** A freed element is still in the list. */
  predicate FreedListed<P(==)>(t: seq<Entry<P>>, now: int) {
    exists e :: e in Freed(t, now) && e in Cleanup(t, now, false)
  }

  lemma {:induction false} FreedIn<P>(t: seq<Entry<P>>, now: int)
    ensures forall e :: e in Freed(t, now) <==> e in t && Expired(e, now)
  {
    if t != [] {
      FreedIn(t[1..], now);
      assert t == [t[0]] + t[1..];
    }
  }

  lemma {:induction false} CleanupIn<P>(t: seq<Entry<P>>, now: int, unlinked: bool)
    ensures Unexpired(Cleanup(t, now, unlinked), now) == Unexpired(t, now)
    ensures forall e :: e in Cleanup(t, now, unlinked) ==> e in t
  {
    if t != [] {
      CleanupIn(t[1..], now, true);
      CleanupIn(t[1..], now, false);
      var rest := Cleanup(t[1..], now, false);
      assert ([t[0]] + rest)[1..] == rest;
    }
  }

  lemma {:induction false} NoneExpired<P>(t: seq<Entry<P>>, now: int)
    ensures Unexpired(t, now) == t <==> forall e :: e in t ==> !Expired(e, now)
    ensures forall e :: e in Unexpired(t, now) ==> !Expired(e, now)
  {
    if t != [] {
      NoneExpired(t[1..], now);
      assert t == [t[0]] + t[1..];
    }
  }

  /** Cleaning up leaves a freed element in the list exactly when two neighbours have expired. */
  lemma FreedListedExactly<P>(t: seq<Entry<P>>, now: int)
    ensures FreedListed(t, now) <==> Adjacent(t, now)
  {
    hide Cleanup, Unexpired, Adjacent, Freed, Expired;
    var c := Cleanup(t, now, false);
    CleanupExactly(t, now);
    CleanupIn(t, now, false);
    NoneExpired(c, now);
    FreedIn(t, now);
    if Adjacent(t, now) {
      var e :| e in c && Expired(e, now);
      assert e in Freed(t, now);
    }
  }

  /** Each masked id occurs once. */
  predicate Unique<P>(t: seq<Entry<P>>) {
    forall i, j :: 0 <= i < j < |t| ==> t[i].key != t[j].key
  }

  /** What reception leaves for k: its element updated or, if there was none, put in front; or none. */
  function Put<P>(t: seq<Entry<P>>, k: bv32, now: int, o: Option<P>): seq<Entry<P>> {
    if o.None? then Drop(t, k)
    else if Find(t, k).None? then [Entry(k, now, o.value)] + t
    else Write(Touch(t, k, now), k, o.value)
  }

  lemma {:induction false} FindIn<P>(t: seq<Entry<P>>, k: bv32)
    ensures Find(t, k).Some? <==> exists i :: 0 <= i < |t| && t[i].key == k
  {
    if t != [] {
      FindIn(t[1..], k);
      if Find(t[1..], k).Some? {
        var i :| 0 <= i < |t[1..]| && t[1..][i].key == k;
        assert t[i + 1].key == k;
      } else if exists i :: 0 <= i < |t| && t[i].key == k {
        var i :| 0 <= i < |t| && t[i].key == k;
        if i > 0 { assert t[1..][i - 1].key == k; }
      }
    }
  }

  lemma {:induction false} DropFind<P>(t: seq<Entry<P>>, k: bv32, j: bv32)
    requires Unique(t)
    ensures Find(Drop(t, k), j) == if j == k then None else Find(t, j)
  {
    if t != [] {
      if t[0].key == k {
        FindIn(t[1..], k);
      } else {
        DropFind(t[1..], k, j);
      }
    }
  }

  lemma {:induction false} DropUnique<P>(t: seq<Entry<P>>, k: bv32)
    requires Unique(t)
    ensures Unique(Drop(t, k))
    ensures forall e :: e in Drop(t, k) ==> e in t
  {
    if t != [] && t[0].key != k {
      DropUnique(t[1..], k);
      forall e | e in Drop(t[1..], k) ensures e.key != t[0].key {
        assert e in t[1..];
      }
    }
  }

  lemma {:induction false} WriteShape<P>(t: seq<Entry<P>>, k: bv32, now: int, p: P, j: bv32)
    ensures var w := Write(Touch(t, k, now), k, p);
            && |w| == |t| && (forall i :: 0 <= i < |t| ==> w[i].key == t[i].key)
            && Find(w, j) == (if j == k && Find(t, k).Some? then Some(p) else Find(t, j))
  {
    if t != [] && t[0].key != k {
      WriteShape(t[1..], k, now, p, j);
      var w, v := Write(Touch(t, k, now), k, p), Write(Touch(t[1..], k, now), k, p);
      assert Touch(t, k, now)[1..] == Touch(t[1..], k, now);
      assert w == [t[0]] + v;
      assert w[1..] == v;
    } else if t != [] {
      var w := Write(Touch(t, k, now), k, p);
      assert Touch(t, k, now)[1..] == t[1..];
      assert w == [Entry(k, now, p)] + t[1..];
      assert w[1..] == t[1..];
    }
  }

  /** The list behaves as a map from masked ids to partly received packets. */
  lemma PutFind<P>(t: seq<Entry<P>>, k: bv32, now: int, o: Option<P>, j: bv32)
    requires Unique(t)
    ensures Unique(Put(t, k, now, o))
    ensures Find(Put(t, k, now, o), j) == if j == k then o else Find(t, j)
  {
    hide Find, Drop, Write, Touch;
    if o.None? {
      DropFind(t, k, j);
      DropUnique(t, k);
    } else if Find(t, k).None? {
      FindIn(t, k);
      FindFront(Entry(k, now, o.value), t, j);
    } else {
      WriteShape(t, k, now, o.value, j);
      WriteShape(t, k, now, o.value, k);
    }
  }

  lemma FindFront<P>(e: Entry<P>, t: seq<Entry<P>>, j: bv32)
    ensures Find([e] + t, j) == if e.key == j then Some(e.part) else Find(t, j)
  {
    assert ([e] + t)[1..] == t;
  }

  // ---- the list, changed in place ----

  predicate First<P>(t: seq<Entry<P>>, k: bv32, i: nat) {
    i < |t| && t[i].key == k && forall j :: 0 <= j < i ==> t[j].key != k
  }

  lemma {:induction false} FindFirst<P>(t: seq<Entry<P>>, k: bv32, i: nat)
    requires First(t, k, i)
    ensures Find(t, k) == Some(t[i].part)
  {
    if i > 0 {
      FirstTail(t, k, i);
      FindFirst(t[1..], k, i - 1);
    }
  }

  lemma FirstTail<P>(t: seq<Entry<P>>, k: bv32, i: nat)
    requires First(t, k, i) && i > 0
    ensures t[0].key != k && First(t[1..], k, i - 1) && t[1..][i - 1] == t[i]
  {
    assert forall j :: 0 <= j < i - 1 ==> t[1..][j] == t[j + 1];
  }

  lemma {:induction false} TouchFirst<P>(t: seq<Entry<P>>, k: bv32, i: nat, now: int)
    requires First(t, k, i)
    ensures Touch(t, k, now) == t[i := t[i].(used := now)]
  {
    if i > 0 {
      FirstTail(t, k, i);
      TouchFirst(t[1..], k, i - 1, now);
    }
  }

  lemma {:induction false} WriteFirst<P>(t: seq<Entry<P>>, k: bv32, i: nat, p: P)
    requires First(t, k, i)
    ensures Write(t, k, p) == t[i := t[i].(part := p)]
  {
    if i > 0 {
      FirstTail(t, k, i);
      WriteFirst(t[1..], k, i - 1, p);
    }
  }

  lemma {:induction false} DropFirst<P>(t: seq<Entry<P>>, k: bv32, i: nat)
    requires First(t, k, i)
    ensures Drop(t, k) == t[..i] + t[i + 1..]
  {
    if i > 0 {
      FirstTail(t, k, i);
      DropFirst(t[1..], k, i - 1);
      assert t[..i] == [t[0]] + t[1..][..i - 1] && t[i + 1..] == t[1..][i..];
    }
  }

  lemma AtFirst<P>(t: seq<Entry<P>>, k: bv32, i: nat, now: int, p: P)
    requires First(t, k, i)
    ensures Find(t, k) == Some(t[i].part)
    ensures Touch(t, k, now) == t[i := t[i].(used := now)]
    ensures Write(t, k, p) == t[i := t[i].(part := p)]
    ensures Drop(t, k) == t[..i] + t[i + 1..]
  {
    hide Find, Touch, Write, Drop;
    FindFirst(t, k, i);
    TouchFirst(t, k, i, now);
    WriteFirst(t, k, i, p);
    DropFirst(t, k, i);
  }

  lemma {:induction false} NotFound<P>(t: seq<Entry<P>>, k: bv32)
    requires forall i :: 0 <= i < |t| ==> t[i].key != k
    ensures Find(t, k) == None
  {
    FindIn(t, k);
  }

  lemma {:induction false} CleanupSplit<P>(a: seq<Entry<P>>, b: seq<Entry<P>>, now: int, unlinked: bool)
    ensures Cleanup(a + b, now, unlinked) == Cleanup(a, now, unlinked) + Cleanup(b, now, Gone(a, now, unlinked))
  {
    if a == [] {
      assert a + b == b;
    } else {
      assert (a + b)[1..] == a[1..] + b;
      var gone := Expired(a[0], now) && !unlinked;
      CleanupSplit(a[1..], b, now, gone);
      if !gone {
        assert [a[0]] + (Cleanup(a[1..], now, gone) + Cleanup(b, now, Gone(a[1..], now, gone)))
            == [a[0]] + Cleanup(a[1..], now, gone) + Cleanup(b, now, Gone(a[1..], now, gone));
      }
    }
  }

  /** Whether the walk has just unlinked the last element of t. */
  predicate Gone<P>(t: seq<Entry<P>>, now: int, unlinked: bool) {
    if t == [] then unlinked else Gone(t[1..], now, Expired(t[0], now) && !unlinked)
  }

  lemma CleanupOne<P>(e: Entry<P>, now: int, unlinked: bool)
    ensures Cleanup([e], now, unlinked) == if Expired(e, now) && !unlinked then [] else [e]
    ensures Gone([e], now, unlinked) == (Expired(e, now) && !unlinked)
  {
    assert [e][1..] == [];
  }

  lemma {:induction false} GoneSplit<P>(a: seq<Entry<P>>, b: seq<Entry<P>>, now: int, unlinked: bool)
    ensures Gone(a + b, now, unlinked) == Gone(b, now, Gone(a, now, unlinked))
  {
    if a == [] {
      assert a + b == b;
    } else {
      assert (a + b)[1..] == a[1..] + b;
      GoneSplit(a[1..], b, now, Expired(a[0], now) && !unlinked);
    }
  }

  lemma {:induction false} FreedNext<P>(a: seq<Entry<P>>, e: Entry<P>, now: int)
    ensures Freed(a + [e], now) == Freed(a, now) + if Expired(e, now) then [e] else []
  {
    hide Expired;
    var last := if Expired(e, now) then [e] else [];
    if a == [] {
      assert a + [e] == [e] && [e][1..] == [];
      assert last + [] == last && [] + last == last;
    } else {
      assert (a + [e])[1..] == a[1..] + [e];
      FreedNext(a[1..], e, now);
      var first := if Expired(a[0], now) then [a[0]] else [];
      assert first + (Freed(a[1..], now) + last) == first + Freed(a[1..], now) + last;
    }
  }

  class PbufList<P> {
    var pbufs: seq<Entry<P>>

    constructor ()
      ensures pbufs == []
    {
      pbufs := [];
    }

    /** csp_can_pbuf_find: the position stands for the pointer. */
    method Lookup(k: bv32, now: int) returns (found: bool, at: nat)
      modifies this
      ensures found <==> Find(old(pbufs), k).Some?
      ensures found ==> First(old(pbufs), k, at)
      ensures pbufs == if found then old(pbufs)[at := old(pbufs)[at].(used := now)] else old(pbufs)
    {
      at := 0;
      while at < |pbufs|
        invariant at <= |pbufs| && pbufs == old(pbufs)
        invariant forall j :: 0 <= j < at ==> pbufs[j].key != k
      {
        if pbufs[at].key == k {
          AtFirst(pbufs, k, at, now, pbufs[at].part);
          pbufs := pbufs[at := pbufs[at].(used := now)];
          return true, at;
        }
        at := at + 1;
      }
      NotFound(pbufs, k);
      found := false;
    }

    /** csp_can_pbuf_cleanup: what is left in the list, and the elements given to csp_buffer_free. */
    method CleanUp(now: int) returns (freed: seq<Entry<P>>)
      modifies this
      ensures pbufs == Cleanup(old(pbufs), now, false)
      ensures freed == Freed(old(pbufs), now)
    {
      hide Cleanup, Gone, Freed;
      ghost var all := pbufs;
      var kept: seq<Entry<P>> := [];
      var unlinked := false;
      freed := [];
      CleanupNothing(all, now);
      for i := 0 to |pbufs|
        invariant pbufs == all
        invariant kept == Cleanup(all[..i], now, false)
        invariant unlinked == Gone(all[..i], now, false)
        invariant freed == Freed(all[..i], now)
      {
        assert all[..i + 1] == all[..i] + [all[i]];
        CleanupSplit(all[..i], [all[i]], now, false);
        GoneSplit(all[..i], [all[i]], now, false);
        CleanupOne(all[i], now, unlinked);
        FreedNext(all[..i], all[i], now);
        if Expired(pbufs[i], now) {
          freed := freed + [pbufs[i]];
        }
        if Expired(pbufs[i], now) && !unlinked {
          unlinked := true;
          assert kept + [] == kept;
        } else {
          unlinked := false;
          kept := kept + [pbufs[i]];
        }
      }
      assert all[..|all|] == all;
      pbufs := kept;
    }

    /** csp_can_pbuf_new: clean up, then insert in front. */
    method New(k: bv32, now: int, blank: P) returns (freed: seq<Entry<P>>)
      modifies this
      ensures pbufs == [Entry(k, now, blank)] + Cleanup(old(pbufs), now, false)
      ensures freed == Freed(old(pbufs), now)
    {
      freed := CleanUp(now);
      pbufs := [Entry(k, now, blank)] + pbufs;
    }

    /** Binding a frame to a packet buffer: the one of its stream or, for a frame that begins a packet,
        a new one. */
    method Bind(k: bv32, begins: bool, now: int, blank: P) returns (bound: bool, at: nat)
      modifies this
      ensures bound <==> Find(old(pbufs), k).Some? || begins
      ensures Find(old(pbufs), k).Some? ==>
                First(old(pbufs), k, at) && pbufs == old(pbufs)[at := old(pbufs)[at].(used := now)]
      ensures Find(old(pbufs), k).None? ==>
                at == 0 && pbufs == if begins then [Entry(k, now, blank)] + Cleanup(old(pbufs), now, false)
                                    else old(pbufs)
    {
      hide Find, Cleanup;
      bound, at := Lookup(k, now);
      if !bound {
        at := 0;
        if begins {
          var freed := New(k, now, blank);
          bound := true;
        }
      }
    }

    /** Writing through the pointer. */
    method Fill(at: nat, p: P)
      requires at < |pbufs|
      modifies this
      ensures pbufs == old(pbufs)[at := old(pbufs)[at].(part := p)]
    {
      pbufs := pbufs[at := pbufs[at].(part := p)];
    }

    /** csp_can_pbuf_free. */
    method Free(at: nat)
      requires at < |pbufs|
      modifies this
      ensures pbufs == old(pbufs)[..at] + old(pbufs)[at + 1..]
    {
      pbufs := pbufs[..at] + pbufs[at + 1..];
    }
  }

  lemma CleanupNothing<P>(t: seq<Entry<P>>, now: int)
    ensures Cleanup(t[..0], now, false) == [] && !Gone(t[..0], now, false) && Freed(t[..0], now) == []
  {
  }

  /** The position found, then filled or freed, gives what reception is meant to leave. */
  lemma PutAt<P>(t: seq<Entry<P>>, k: bv32, i: nat, now: int, p: P)
    requires First(t, k, i)
    ensures var u := t[i := t[i].(used := now)];
            && Put(t, k, now, None) == u[..i] + u[i + 1..]
            && Put(t, k, now, Some(p)) == u[i := u[i].(part := p)]
  {
    hide Find, Touch, Write, Drop;
    var u := t[i := t[i].(used := now)];
    AtFirst(t, k, i, now, p);
    assert First(u, k, i);
    AtFirst(u, k, i, now, p);
  }

  /** The same for an element just inserted in front of a list without k. */
  lemma PutFront<P>(t: seq<Entry<P>>, k: bv32, now: int, blank: P, p: P)
    requires Find(t, k).None?
    ensures var u := [Entry(k, now, blank)] + t;
            && Put(t, k, now, None) == u[..0] + u[0 + 1..]
            && Put(t, k, now, Some(p)) == u[0 := u[0].(part := p)]
  {
    hide Find, Touch, Write;
    DropAbsent(t, k);
    var u := [Entry(k, now, blank)] + t;
    assert u[..0] + u[0 + 1..] == t;
  }

  lemma {:induction false} DropAbsent<P>(t: seq<Entry<P>>, k: bv32)
    requires Find(t, k).None?
    ensures Drop(t, k) == t
  {
    if t != [] { DropAbsent(t[1..], k); }
  }

  /** Cleaning up never brings an element back. */
  lemma {:induction false} CleanupAbsent<P>(t: seq<Entry<P>>, now: int, unlinked: bool, k: bv32)
    requires Find(t, k).None?
    ensures Find(Cleanup(t, now, unlinked), k).None?
  {
    if t != [] {
      CleanupAbsent(t[1..], now, true, k);
      CleanupAbsent(t[1..], now, false, k);
      FindFront(t[0], Cleanup(t[1..], now, false), k);
    }
  }

  // ---- receiving frames ----

  /** What distinguishes the two fragmentation protocols: the bits that name a stream, which ids begin
      a packet, and what one frame does to the stream it belongs to. */
  datatype Protocol<!P> = Protocol(
    mask: bv32,
    begins: bv32 -> bool,
    step: (Option<P>, CanFrame) -> (Option<P>, Option<Packet>))
  {
    function Key(f: CanFrame): bv32 {
      f.id & mask
    }
  }

  /** A frame that begins nothing and continues nothing is ignored. */
  function StreamStep<P>(pr: Protocol<P>, o: Option<P>, f: CanFrame): (Option<P>, Option<Packet>) {
    if o.None? && !pr.begins(f.id) then (None, None) else pr.step(o, f)
  }

  function Receive<P>(pr: Protocol<P>, t: seq<Entry<P>>, now: int, f: CanFrame): (seq<Entry<P>>, Option<Packet>) {
    var k := pr.Key(f);
    var found := Find(t, k);
    if found.None? && !pr.begins(f.id) then (t, None)
    else
      var u := if found.None? then Cleanup(t, now, false) else t;
      var r := pr.step(found, f);
      (Put(u, k, now, r.0), r.1)
  }

  /** The list with element `at` removed or holding new contents. */
  ghost function Settled<P>(t: seq<Entry<P>>, at: nat, o: Option<P>): seq<Entry<P>>
    requires at < |t|
  {
    if o.None? then t[..at] + t[at + 1..] else t[at := t[at].(part := o.value)]
  }

  lemma ReceiveIgnored<P>(pr: Protocol<P>, t: seq<Entry<P>>, now: int, f: CanFrame)
    requires Find(t, pr.Key(f)).None? && !pr.begins(f.id)
    ensures Receive(pr, t, now, f) == (t, None)
  {
  }

  lemma ReceiveFound<P>(pr: Protocol<P>, t: seq<Entry<P>>, now: int, f: CanFrame, at: nat)
    requires First(t, pr.Key(f), at)
    ensures var r := pr.step(Some(t[at].part), f);
            Receive(pr, t, now, f) == (Settled(t[at := t[at].(used := now)], at, r.0), r.1)
  {
    hide Find, Put;
    var r := pr.step(Some(t[at].part), f);
    AtFirst(t, pr.Key(f), at, now, t[at].part);
    PutAt(t, pr.Key(f), at, now, if r.0.Some? then r.0.value else t[at].part);
  }

  lemma ReceiveNew<P>(pr: Protocol<P>, t: seq<Entry<P>>, now: int, f: CanFrame, blank: P)
    requires Find(t, pr.Key(f)).None? && pr.begins(f.id)
    ensures var r := pr.step(None, f);
            var u := [Entry(pr.Key(f), now, blank)] + Cleanup(t, now, false);
            Receive(pr, t, now, f) == (Settled(u, 0, r.0), r.1)
  {
    hide Find, Put, Cleanup;
    var r := pr.step(None, f);
    CleanupAbsent(t, now, false, pr.Key(f));
    PutFront(Cleanup(t, now, false), pr.Key(f), now, blank, if r.0.Some? then r.0.value else blank);
  }

  /** One frame after another on a single stream, with the packets delivered. */
  function Stream<P>(pr: Protocol<P>, o: Option<P>, fs: seq<CanFrame>): (Option<P>, seq<Packet>)
    decreases |fs|
  {
    if fs == [] then (o, [])
    else
      var one := StreamStep(pr, o, fs[0]);
      var rest := Stream(pr, one.0, fs[1..]);
      (rest.0, Delivered(one.1) + rest.1)
  }

  function Delivered(o: Option<Packet>): seq<Packet> {
    if o.None? then [] else [o.value]
  }

  datatype Arrival = Arrival(now: int, frame: CanFrame)

  /** Arrivals of any streams in any order; each delivered packet is labelled with its stream. */
  function Arrivals<P>(pr: Protocol<P>, t: seq<Entry<P>>, run: seq<Arrival>): (seq<Entry<P>>, seq<(bv32, Packet)>)
    decreases |run|
  {
    if run == [] then (t, [])
    else
      var one := Receive(pr, t, run[0].now, run[0].frame);
      var rest := Arrivals(pr, one.0, run[1..]);
      (rest.0, Labelled(pr.Key(run[0].frame), one.1) + rest.1)
  }

  function Labelled(k: bv32, o: Option<Packet>): seq<(bv32, Packet)> {
    if o.None? then [] else [(k, o.value)]
  }

  function FramesOf<P>(pr: Protocol<P>, k: bv32, run: seq<Arrival>): seq<CanFrame> {
    if run == [] then []
    else (if pr.Key(run[0].frame) == k then [run[0].frame] else []) + FramesOf(pr, k, run[1..])
  }

  function PacketsOf(k: bv32, out: seq<(bv32, Packet)>): seq<Packet> {
    if out == [] then []
    else (if out[0].0 == k then [out[0].1] else []) + PacketsOf(k, out[1..])
  }

  /** Allocating at time now leaves the stream of k alone: its partly received packet has not expired, and no
      two neighbours of the list have, so nothing freed stays listed. Other streams may expire. */
  predicate Spares<P>(t: seq<Entry<P>>, now: int, k: bv32) {
    !Adjacent(t, now) && forall i :: 0 <= i < |t| && t[i].key == k ==> !Expired(t[i], now)
  }

  /** Every allocation of the run spares k. */
  predicate Undisturbed<P>(pr: Protocol<P>, t: seq<Entry<P>>, run: seq<Arrival>, k: bv32)
    decreases |run|
  {
    run != [] ==>
      && (Find(t, pr.Key(run[0].frame)).None? && pr.begins(run[0].frame.id) ==> Spares(t, run[0].now, k))
      && Undisturbed(pr, Receive(pr, t, run[0].now, run[0].frame).0, run[1..], k)
  }

  lemma {:induction false} UnexpiredFind<P>(t: seq<Entry<P>>, now: int, k: bv32)
    requires forall i :: 0 <= i < |t| && t[i].key == k ==> !Expired(t[i], now)
    ensures Find(Unexpired(t, now), k) == Find(t, k)
  {
    hide Expired;
    if t != [] {
      assert forall i :: 0 <= i < |t[1..]| ==> t[1..][i] == t[i + 1];
      UnexpiredFind(t[1..], now, k);
      FindFront(t[0], Unexpired(t[1..], now), k);
    }
  }

  lemma {:induction false} UnexpiredUnique<P>(t: seq<Entry<P>>, now: int)
    requires Unique(t)
    ensures Unique(Unexpired(t, now)) && forall e :: e in Unexpired(t, now) ==> e in t
  {
    hide Expired;
    if t != [] {
      UnexpiredUnique(t[1..], now);
      forall e | e in Unexpired(t[1..], now) ensures e.key != t[0].key {
        assert e in t[1..];
      }
    }
  }

  /** What an allocation that spares k leaves of the list. */
  lemma CleanupSpares<P>(t: seq<Entry<P>>, now: int, k: bv32)
    requires Unique(t) && Spares(t, now, k)
    ensures Unique(Cleanup(t, now, false)) && Find(Cleanup(t, now, false), k) == Find(t, k)
  {
    hide Find, Cleanup, Unexpired, Adjacent, Expired, Unique;
    CleanupExactly(t, now);
    UnexpiredFind(t, now, k);
    UnexpiredUnique(t, now);
  }

  lemma ReceiveOne<P>(pr: Protocol<P>, t: seq<Entry<P>>, now: int, f: CanFrame, k: bv32)
    requires Unique(t)
    requires Find(t, pr.Key(f)).None? && pr.begins(f.id) ==> Spares(t, now, k)
    ensures var r := Receive(pr, t, now, f);
            var s := StreamStep(pr, Find(t, k), f);
            && Unique(r.0)
            && (pr.Key(f) == k ==> Find(r.0, k) == s.0 && r.1 == s.1)
            && (pr.Key(f) != k ==> Find(r.0, k) == Find(t, k))
  {
    hide Find, Put, Unique, Cleanup, Spares;
    var j := pr.Key(f);
    var found := Find(t, j);
    var u := t;
    if found.None? && pr.begins(f.id) {
      CleanupSpares(t, now, k);
      u := Cleanup(t, now, false);
    }
    var r := pr.step(found, f);
    PutFind(u, j, now, r.0, k);
  }

  lemma {:induction false} PacketsOfAppend(k: bv32, a: seq<(bv32, Packet)>, b: seq<(bv32, Packet)>)
    ensures PacketsOf(k, a + b) == PacketsOf(k, a) + PacketsOf(k, b)
  {
    if a == [] {
      assert a + b == b;
    } else {
      assert (a + b)[1..] == a[1..] + b;
      PacketsOfAppend(k, a[1..], b);
      var first := if a[0].0 == k then [a[0].1] else [];
      assert first + (PacketsOf(k, a[1..]) + PacketsOf(k, b)) == first + PacketsOf(k, a[1..]) + PacketsOf(k, b);
    }
  }

  lemma PacketsOfLabelled(k: bv32, j: bv32, o: Option<Packet>)
    ensures PacketsOf(k, Labelled(j, o)) == if j == k then Delivered(o) else []
  {
    if o.Some? {
      assert [(j, o.value)][1..] == [];
    }
  }

  /** Reassembly of interleaved streams is, stream by stream, reassembly of each stream alone: what is
      delivered for a masked id depends only on the frames that carry it, and the list never holds
      two elements for one masked id. Partly received packets of other streams may expire meanwhile. */
  lemma {:induction false} Projection<P>(pr: Protocol<P>, t: seq<Entry<P>>, run: seq<Arrival>, k: bv32)
    requires Unique(t) && Undisturbed(pr, t, run, k)
    ensures var r := Arrivals(pr, t, run);
            var s := Stream(pr, Find(t, k), FramesOf(pr, k, run));
            Unique(r.0) && Find(r.0, k) == s.0 && PacketsOf(k, r.1) == s.1
    decreases |run|
  {
    hide Find, Receive, StreamStep, Unique, Spares;
    if run != [] {
      var f := run[0].frame;
      var one := Receive(pr, t, run[0].now, f);
      ReceiveOne(pr, t, run[0].now, f, k);
      Projection(pr, one.0, run[1..], k);
      var rest := Arrivals(pr, one.0, run[1..]);
      PacketsOfAppend(k, Labelled(pr.Key(f), one.1), rest.1);
      PacketsOfLabelled(k, pr.Key(f), one.1);
      var tail := FramesOf(pr, k, run[1..]);
      if pr.Key(f) == k {
        StreamCons(pr, Find(t, k), f, tail);
      } else {
        assert [] + tail == tail;
        assert [] + PacketsOf(k, rest.1) == PacketsOf(k, rest.1);
      }
    }
  }

  lemma StreamCons<P>(pr: Protocol<P>, o: Option<P>, f: CanFrame, fs: seq<CanFrame>)
    ensures Stream(pr, o, [f] + fs) ==
            var one := StreamStep(pr, o, f); var rest := Stream(pr, one.0, fs); (rest.0, Delivered(one.1) + rest.1)
  {
    hide StreamStep;
    assert ([f] + fs)[1..] == fs;
  }

  lemma {:induction false} StreamAppend<P>(pr: Protocol<P>, o: Option<P>, a: seq<CanFrame>, b: seq<CanFrame>)
    ensures Stream(pr, o, a + b) == var x := Stream(pr, o, a); var y := Stream(pr, x.0, b); (y.0, x.1 + y.1)
    decreases |a|
  {
    hide StreamStep;
    if a == [] {
      assert a + b == b;
      assert [] + Stream(pr, o, b).1 == Stream(pr, o, b).1;
    } else {
      assert (a + b)[1..] == a[1..] + b;
      var one := StreamStep(pr, o, a[0]);
      StreamAppend(pr, one.0, a[1..], b);
      var x := Stream(pr, one.0, a[1..]);
      var y := Stream(pr, x.0, b);
      assert Delivered(one.1) + (x.1 + y.1) == Delivered(one.1) + x.1 + y.1;
    }
  }

  lemma StreamNothing<P>(pr: Protocol<P>, o: Option<P>)
    ensures Stream(pr, o, []) == (o, [])
  {
  }

  lemma NoPackets()
    ensures Delivered(None) + [] == []
  {
  }

  /** Indices of frames in the order they were sent. */
  predicate Increasing(ks: seq<nat>) {
    forall m, l :: 0 <= m < l < |ks| ==> ks[m] < ks[l]
  }
}
