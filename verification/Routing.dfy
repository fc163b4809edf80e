/** The routing table (src/csp_rtable_cidr.c) and the interface list lookups (src/csp_iflist.c). */
module Routing {
  import opened Bytes
  import A = Addresses

  /** An interface; the name identifies it (csp_iflist_add refuses a second one of the same name). */
  datatype Iface = Iface(name: string, addr: bv16, netmask: nat, isDefault: bool)

  datatype Route = Route(address: bv16, netmask: nat, iface: Iface, via: bv16)

  /** The number of host bits of an address: 5 for CSP 1, 14 for CSP 2. */
  predicate HostBits(h: nat) {
    h == 5 || h == 14
  }

  // ---- csp_rtable_find_route ----

  /** The address lies in the block of 2^(h - netmask) consecutive addresses that the entry names. */
  predicate Covers(h: nat, r: Route, addr: bv16)
    requires r.netmask <= h <= 14
  {
    A.SameBlock(r.address, addr, h - r.netmask)
  }

  /** The block written out: a host route covers its own address only, a mask of zero every address. */
  lemma CoversExactly(h: nat, r: Route, addr: bv16)
    requires r.netmask <= h <= 14
    ensures var first := A.First(r.address, h - r.netmask);
            Covers(h, r, addr) <==> first <= A.Number(addr) < first + A.Pow2(h - r.netmask)
    ensures r.netmask == h ==> (Covers(h, r, addr) <==> addr == r.address)
    ensures r.netmask == 0 && A.Number(r.address) < A.Pow2(h) && A.Number(addr) < A.Pow2(h) ==> Covers(h, r, addr)
  {
    hide A.Number, A.Pow2, A.First;
    A.BlockExactly(r.address, addr, h - r.netmask);
    if r.netmask == 0 && A.Number(r.address) < A.Pow2(h) && A.Number(addr) < A.Pow2(h) {
      A.WholeBlock(r.address, addr, h);
    }
  }

  predicate Masked(h: nat, t: seq<Route>) {
    h <= 14 && forall i :: 0 <= i < |t| ==> t[i].netmask <= h
  }

  /** Entry i has the longest prefix covering addr, and is the last one of that length that does. */
  predicate Best(h: nat, t: seq<Route>, addr: bv16, i: int)
    requires Masked(h, t)
  {
    && 0 <= i < |t| && Covers(h, t[i], addr)
    && (forall j :: 0 <= j < |t| && Covers(h, t[j], addr) ==>
          t[j].netmask < t[i].netmask || (t[j].netmask == t[i].netmask && j <= i))
  }

  predicate SameNet(a: Route, b: Route) {
    a.address == b.address && a.netmask == b.netmask
  }

  predicate SameKey(a: Route, b: Route) {
    SameNet(a, b) && a.iface == b.iface
  }

  /** No two entries agree in address, mask and interface. */
  predicate Unique(t: seq<Route>) {
    forall i, j :: 0 <= i < j < |t| ==> !SameKey(t[i], t[j])
  }

  datatype Status = Ok | Inval | NoMem

  class Table {
    const h: nat
    const size: nat
    var routes: seq<Route>

    ghost predicate Valid()
      reads this
    {
      HostBits(h) && Masked(h, routes) && Unique(routes) && |routes| <= size
    }

    constructor (h: nat, size: nat)
      requires HostBits(h)
      ensures Valid() && routes == [] && this.h == h && this.size == size
    {
      this.h := h;
      this.size := size;
      routes := [];
    }

    method FindRoute(addr: bv16) returns (r: Option<nat>)
      requires Valid()
      ensures r.None? <==> forall i :: 0 <= i < |routes| ==> !Covers(h, routes[i], addr)
      ensures r.Some? ==> Best(h, routes, addr, r.value)
    {
      hide A.AgreeAbove, A.Number, A.Pow2;
      r := None;
      var bestMask := 0;
      for i := 0 to |routes|
        invariant r.None? ==> bestMask == 0 && forall j :: 0 <= j < i ==> !Covers(h, routes[j], addr)
        invariant r.Some? ==> r.value < i && Covers(h, routes[r.value], addr) && bestMask == routes[r.value].netmask
        invariant r.Some? ==> forall j :: 0 <= j < i && Covers(h, routes[j], addr) ==>
                    routes[j].netmask < bestMask || (routes[j].netmask == bestMask && j <= r.value)
      {
        var hostBits := h - routes[i].netmask;
        A.AgreeAboveExactly(routes[i].address, addr, hostBits);
        if A.AgreeAbove(routes[i].address, addr, hostBits) && routes[i].netmask >= bestMask {
          r := Some(i);
          bestMask := routes[i].netmask;
        }
      }
    }

    /** The next earlier entry for the same network. */
    method SearchBackward(start: nat) returns (r: Option<nat>)
      requires start < |routes|
      ensures r.None? ==> forall j :: 0 <= j < start ==> !SameNet(routes[j], routes[start])
      ensures r.Some? ==> r.value < start && SameNet(routes[r.value], routes[start])
                          && forall j :: r.value < j < start ==> !SameNet(routes[j], routes[start])
    {
      var j := start;
      while j > 0
        invariant 0 <= j <= start && forall k :: j <= k < start ==> !SameNet(routes[k], routes[start])
      {
        j := j - 1;
        if SameNet(routes[j], routes[start]) { return Some(j); }
      }
      r := None;
    }

    method FindExact(key: Route) returns (r: Option<nat>)
      ensures r.None? ==> forall j :: 0 <= j < |routes| ==> !SameKey(routes[j], key)
      ensures r.Some? ==> r.value < |routes| && SameKey(routes[r.value], key)
    {
      for i := 0 to |routes|
        invariant forall j :: 0 <= j < i ==> !SameKey(routes[j], key)
      {
        if SameKey(routes[i], key) { return Some(i); }
      }
      r := None;
    }

    /** csp_rtable_set: a mask out of range means a host route. */
    method Set(address: bv16, netmask: int, iface: Option<Iface>, via: bv16) returns (s: Status)
      requires Valid()
      modifies this
      ensures Valid()
      ensures s == SetStatus(h, size, old(routes), address, netmask, iface)
      ensures routes == if s == Ok then Updated(old(routes), Entry(h, address, netmask, iface.value, via))
                        else old(routes)
    {
      hide Covers;
      if iface.None? { return Inval; }
      var e := Entry(h, address, netmask, iface.value, via);
      UpdatedKeeps(h, routes, e);
      var found := FindExact(e);
      IndexOfFirst(routes, e, found);
      if found.None? {
        if |routes| >= size { return NoMem; }
        routes := routes + [e];
      } else {
        routes := routes[found.value := e];
      }
      s := Ok;
    }

    /** csp_rtable_clear. */
    method Clear()
      requires Valid()
      modifies this
      ensures Valid() && routes == []
    {
      routes := [];
    }
  }

  // ---- the effect of csp_rtable_set ----

  function Entry(h: nat, address: bv16, netmask: int, iface: Iface, via: bv16): Route {
    Route(address, if netmask < 0 || netmask > h then h else netmask, iface, via)
  }

  predicate Contains(t: seq<Route>, e: Route) {
    exists i :: 0 <= i < |t| && SameKey(t[i], e)
  }

  function SetStatus(h: nat, size: nat, t: seq<Route>, address: bv16, netmask: int, iface: Option<Iface>): Status {
    if iface.None? then Inval
    else if Contains(t, Entry(h, address, netmask, iface.value, 0)) || |t| < size then Ok
    else NoMem
  }

  /** The entry of that key replaced where it stands, or the new entry added at the end. */
  function Updated(t: seq<Route>, e: Route): seq<Route> {
    if t == [] then [e]
    else if SameKey(t[0], e) then [e] + t[1..]
    else [t[0]] + Updated(t[1..], e)
  }

  lemma {:induction false} IndexOfFirst(t: seq<Route>, e: Route, found: Option<nat>)
    requires Unique(t)
    requires found.None? ==> forall j :: 0 <= j < |t| ==> !SameKey(t[j], e)
    requires found.Some? ==> found.value < |t| && SameKey(t[found.value], e)
    ensures found.Some? <==> Contains(t, e)
    ensures Updated(t, e) == if found.None? then t + [e] else t[found.value := e]
    decreases |t|
  {
    if t != [] {
      var rest := t[1..];
      if SameKey(t[0], e) {
        if found.Some? && found.value != 0 {
          assert SameKey(t[0], t[found.value]);
        }
      } else {
        var f := if found.None? then None else Some(found.value - 1);
        assert forall j :: 0 <= j < |rest| ==> rest[j] == t[j + 1];
        IndexOfFirst(rest, e, f);
        if f.Some? { assert t[f.value + 1 := e] == [t[0]] + rest[f.value := e]; }
      }
    }
  }

  /** The table as a map from network and interface to the next hop. */
  function Hops(t: seq<Route>): map<(bv16, nat, Iface), bv16> {
    if t == [] then map[] else Hops(t[1..])[Key(t[0]) := t[0].via]
  }

  function Key(r: Route): (bv16, nat, Iface) {
    (r.address, r.netmask, r.iface)
  }

  /** Setting a route changes the next hop of its network and interface and no other. */
  lemma {:induction false} SetMeans(t: seq<Route>, e: Route)
    ensures Hops(Updated(t, e)) == Hops(t)[Key(e) := e.via]
  {
    if t == [] {
      assert [e][1..] == [];
    } else if SameKey(t[0], e) {
      assert ([e] + t[1..])[1..] == t[1..];
    } else {
      SetMeans(t[1..], e);
      assert Updated(t, e)[1..] == Updated(t[1..], e);
    }
  }

  lemma {:induction false} UpdatedKeeps(h: nat, t: seq<Route>, e: Route)
    requires Masked(h, t) && Unique(t) && e.netmask <= h
    ensures Masked(h, Updated(t, e)) && Unique(Updated(t, e))
    ensures forall i :: 0 <= i < |Updated(t, e)| ==>
              SameKey(Updated(t, e)[i], e) || exists j :: 0 <= j < |t| && t[j] == Updated(t, e)[i]
    decreases |t|
  {
    if t != [] {
      var rest, u := t[1..], Updated(t[1..], e);
      UpdatedKeeps(h, rest, e);
      if !SameKey(t[0], e) {
        forall i | 0 <= i < |u| ensures !SameKey(t[0], u[i]) {
          if !SameKey(u[i], e) {
            var j :| 0 <= j < |rest| && rest[j] == u[i];
            assert t[j + 1] == u[i];
          }
        }
      }
      forall i | 0 <= i < |Updated(t, e)|
        ensures SameKey(Updated(t, e)[i], e) || exists j :: 0 <= j < |t| && t[j] == Updated(t, e)[i]
      {
        if SameKey(t[0], e) {
          if i > 0 { assert t[i] == Updated(t, e)[i]; }
        } else if i == 0 {
          assert t[0] == Updated(t, e)[0];
        } else if !SameKey(u[i - 1], e) {
          var j :| 0 <= j < |rest| && rest[j] == u[i - 1];
          assert t[j + 1] == Updated(t, e)[i];
        }
      }
    }
  }

  /** A mask out of range makes a route for one address. */
  lemma HostRoute(h: nat, address: bv16, netmask: int, iface: Iface, via: bv16, addr: bv16)
    requires h <= 14 && (netmask < 0 || netmask > h)
    ensures Covers(h, Entry(h, address, netmask, iface, via), addr) <==> addr == address
  {
    hide Covers;
    CoversExactly(h, Entry(h, address, netmask, iface, via), addr);
  }
}
