/** Choosing the interfaces a packet leaves on (src/csp_io.c:91-221). */
module Forwarding {
  import opened Bytes
  import opened CspId
  import opened Routing

  /** The loopback interface, the interface list and the routing table. */
  datatype Net = Net(h: nat, lo: Iface, ifaces: seq<Iface>, routes: seq<Route>) {
    ghost predicate Valid() {
      && HostBits(h) && Masked(h, routes) && Unique(routes)
      && (forall i :: 0 <= i < |ifaces| ==> ifaces[i].netmask <= h)
      && (forall i, j :: 0 <= i < j < |ifaces| ==> ifaces[i] != ifaces[j])
    }
  }

  /** csp_id_get_max_nodeid. */
  function MaxNode(h: nat): bv16
    requires h <= 14
  {
    A.HostMask(h)
  }

  /** csp_iflist_is_within_subnet. */
  predicate Within(h: nat, addr: bv16, ifc: Iface)
    requires ifc.netmask <= h <= 14
  {
    A.AgreeUnder(ifc.addr, addr, A.SubnetMask(ifc.netmask, h - ifc.netmask))
  }

  /** csp_id_is_broadcast. */
  predicate Broadcast(h: nat, addr: bv16, ifc: Iface)
    requires ifc.netmask <= h <= 14
  {
    var hostmask: bv16 := A.HostMask(h - ifc.netmask);
    var netmask: bv16 := A.Minus(MaxNode(h), hostmask);
    (A.And(addr, hostmask) == hostmask && A.AgreeUnder(ifc.addr, addr, netmask)) || addr == MaxNode(h)
  }

  /** Addresses of h bits. */
  predicate Short(h: nat, addr: bv16) {
    A.Number(addr) < A.Pow2(h)
  }

  /** The addresses within a subnet are the block of 2^(h - netmask) consecutive ones around the interface's
      own. */
  lemma WithinExactly(h: nat, addr: bv16, ifc: Iface)
    requires ifc.netmask <= h <= 14 && Short(h, addr) && Short(h, ifc.addr)
    ensures var first := A.First(ifc.addr, h - ifc.netmask);
            Within(h, addr, ifc) <==> first <= A.Number(addr) < first + A.Pow2(h - ifc.netmask)
  {
    hide A.AgreeUnder, A.SubnetMask, A.Number, A.Pow2, A.First, A.SameSubnet, A.SameBlock;
    var k := h - ifc.netmask;
    A.AgreeUnderExactly(ifc.addr, addr, ifc.netmask, k);
    A.SubnetIsBlock(ifc.addr, addr, ifc.netmask, k);
    A.BlockExactly(ifc.addr, addr, k);
  }

  lemma NetworkMask(h: nat, k: nat)
    requires HostBits(h) && k <= h
    ensures A.Minus(MaxNode(h), A.HostMask(k)) == A.SubnetMask(h - k, k)
  {
    hide A.Minus, A.HostMask, A.SubnetMask;
    if h == 5 { A.ShortDifference(k); } else { A.LongDifference(k); }
  }

  lemma LastOfAll(h: nat, addr: bv16)
    requires h <= 14
    ensures addr == MaxNode(h) <==> A.Number(addr) == A.Pow2(h) - 1
  {
    hide A.HostMask, A.Number, A.Pow2, A.Low;
    A.LowIs(h);
    A.LowIsLast(h);
    if A.Number(addr) == A.Pow2(h) - 1 { A.NumberInjective(addr, MaxNode(h)); }
  }

  lemma BroadcastMeans(h: nat, addr: bv16, ifc: Iface)
    requires HostBits(h) && ifc.netmask <= h
    ensures var hostmask := A.HostMask(h - ifc.netmask);
            Broadcast(h, addr, ifc) <==>
              (A.And(addr, hostmask) == hostmask && Within(h, addr, ifc)) || addr == MaxNode(h)
  {
    hide A.AgreeUnder, A.SubnetMask, A.HostMask, A.Minus, A.And, MaxNode;
    NetworkMask(h, h - ifc.netmask);
  }

  /** A broadcast is the last address of the subnet, or the last of all. */
  lemma BroadcastExactly(h: nat, addr: bv16, ifc: Iface)
    requires HostBits(h) && ifc.netmask <= h && Short(h, addr) && Short(h, ifc.addr)
    ensures var k := h - ifc.netmask;
            Broadcast(h, addr, ifc) <==>
              A.Number(addr) == A.First(ifc.addr, k) + A.Pow2(k) - 1 || A.Number(addr) == A.Pow2(h) - 1
  {
    hide Broadcast, Within, A.HostMask, A.And, A.Number, A.Pow2, A.First, MaxNode, Short;
    var k := h - ifc.netmask;
    BroadcastMeans(h, addr, ifc);
    WithinExactly(h, addr, ifc);
    A.LastExactly(addr, k);
    A.LastInBlock(ifc.addr, addr, k);
    LastOfAll(h, addr);
  }

  /** A copy handed to an interface. */
  datatype Tx = Tx(iface: Iface, via: bv16, id: Id)

  datatype Hop = Hop(iface: Iface, via: bv16)

  function HopsOf(tx: seq<Tx>): (hops: seq<Hop>)
    ensures |hops| == |tx| && forall i :: 0 <= i < |tx| ==> hops[i] == Hop(tx[i].iface, tx[i].via)
  {
    if tx == [] then [] else HopsOf(tx[..|tx| - 1]) + [Hop(tx[|tx| - 1].iface, tx[|tx| - 1].via)]
  }

  /** Split horizon: not back to the interface a packet came from, nor into its subnet. */
  predicate Allowed(h: nat, ifc: Iface, from: Option<Iface>)
    requires h <= 14 && (from.Some? ==> from.value.netmask <= h)
  {
    from.None? || (ifc != from.value && !Within(h, ifc.addr, from.value))
  }

  /** Forwarded packets never return into the subnet they came from. */
  lemma SplitHorizonExactly(h: nat, ifc: Iface, from: Iface)
    requires from.netmask <= h <= 14 && Short(h, ifc.addr) && Short(h, from.addr)
    ensures var first := A.First(from.addr, h - from.netmask);
            Allowed(h, ifc, Some(from)) <==>
              A.Number(ifc.addr) < first || A.Number(ifc.addr) >= first + A.Pow2(h - from.netmask)
  {
    WithinExactly(h, ifc.addr, from);
    WithinExactly(h, from.addr, from);
    WithinItself(h, from);
    hide Within, A.Number, A.Pow2, A.First;
  }

  lemma WithinItself(h: nat, ifc: Iface)
    requires ifc.netmask <= h <= 14
    ensures Within(h, ifc.addr, ifc)
  {
  }

  // ---- what should happen ----

  /** The two ways the interface list is searched. */
  datatype Search = Subnet(dst: bv16) | Default

  predicate Picks(h: nat, s: Search, ifc: Iface)
    requires ifc.netmask <= h <= 14
  {
    match s
    case Subnet(dst) => ifc.netmask != 0 && Within(h, dst, ifc)
    case Default => ifc.isDefault
  }

  predicate Masks(h: nat, ifs: seq<Iface>) {
    h <= 14 && forall i :: 0 <= i < |ifs| ==> ifs[i].netmask <= h
  }

  /** The interfaces a search yields, in list order. */
  function Listed(h: nat, s: Search, ifs: seq<Iface>): seq<Hop>
    requires Masks(h, ifs)
  {
    if ifs == [] then []
    else
      var n := |ifs| - 1;
      Listed(h, s, ifs[..n]) + if Picks(h, s, ifs[n]) then [Hop(ifs[n], NO_VIA)] else []
  }

  /** The local search yields exactly the interfaces that have a mask and whose block holds the destination. */
  lemma {:induction false} LocalExactly(h: nat, dst: bv16, ifs: seq<Iface>, ifc: Iface)
    requires Masks(h, ifs) && Short(h, dst) && forall i :: 0 <= i < |ifs| ==> Short(h, ifs[i].addr)
    ensures Hop(ifc, NO_VIA) in Listed(h, Subnet(dst), ifs) <==>
            && ifc in ifs && ifc.netmask != 0
            && var first := A.First(ifc.addr, h - ifc.netmask);
               first <= A.Number(dst) < first + A.Pow2(h - ifc.netmask)
    decreases |ifs|
  {
    hide Within, Short, A.Number, A.Pow2, A.First;
    if ifs != [] {
      var n := |ifs| - 1;
      assert ifs == ifs[..n] + [ifs[n]];
      LocalExactly(h, dst, ifs[..n], ifc);
      WithinExactly(h, dst, ifs[n]);
    }
  }

  /** The entries for the network of entry b, from b backwards to entry j. */
  function Backward(t: seq<Route>, b: nat, j: nat): seq<Hop>
    requires b < |t|
    decreases b + 1 - j
  {
    if j > b then []
    else Backward(t, b, j + 1) + if SameNet(t[j], t[b]) then [Hop(t[j].iface, t[j].via)] else []
  }

  function Permitted(h: nat, hops: seq<Hop>, from: Option<Iface>): seq<Hop>
    requires h <= 14 && (from.Some? ==> from.value.netmask <= h)
  {
    if hops == [] then []
    else
      var n := |hops| - 1;
      Permitted(h, hops[..n], from) + if Allowed(h, hops[n].iface, from) then [hops[n]] else []
  }

  /** The first class that is not empty: local subnets, the routes of the longest covering prefix, the
      default interfaces. */
  ghost predicate FirstClass(net: Net, dst: bv16, hops: seq<Hop>)
    requires net.Valid()
  {
    var local := Listed(net.h, Subnet(dst), net.ifaces);
    if local != [] then hops == local
    else if exists b :: Best(net.h, net.routes, dst, b) then
      exists b: nat :: Best(net.h, net.routes, dst, b) && hops == Backward(net.routes, b, 0)
    else hops == Listed(net.h, Default, net.ifaces)
  }

  // ---- the id of each copy ----

  /** The id after it has been prepared for one more interface found in the list. */
  function Prepared(h: nat, s: Search, mine: bool, first: Id, cur: Id, ifc: Iface): Id
    requires ifc.netmask <= h <= 14
  {
    match s
    case Subnet(_) =>
      var a := if mine && first.src == 0 then cur.(src := ifc.addr) else cur;
      if Broadcast(h, first.dst, ifc) then a.(dst := MaxNode(h)) else a
    case Default => Claimed(mine, cur, ifc)
  }

  function Claimed(mine: bool, cur: Id, ifc: Iface): Id {
    if mine && cur.src == 0 then cur.(src := ifc.addr) else cur
  }

  /** The copies made while the interfaces ifs are gone through, and the id they leave. */
  function ListRun(h: nat, s: Search, first: Id, from: Option<Iface>, ifs: seq<Iface>): (Id, seq<Tx>)
    requires Masks(h, ifs) && (from.Some? ==> from.value.netmask <= h)
  {
    if ifs == [] then (first, [])
    else
      var n := |ifs| - 1;
      var prev := ListRun(h, s, first, from, ifs[..n]);
      if !Picks(h, s, ifs[n]) || !Allowed(h, ifs[n], from) then prev
      else
        var id := Prepared(h, s, from.None?, first, prev.0, ifs[n]);
        (id, prev.1 + [Tx(ifs[n], NO_VIA, id)])
  }

  function RouteRun(h: nat, first: Id, from: Option<Iface>, hops: seq<Hop>): (Id, seq<Tx>)
    requires h <= 14 && (from.Some? ==> from.value.netmask <= h)
  {
    if hops == [] then (first, [])
    else
      var n := |hops| - 1;
      var prev := RouteRun(h, first, from, hops[..n]);
      if !Allowed(h, hops[n].iface, from) then prev
      else
        var id := Claimed(from.None?, prev.0, hops[n].iface);
        (id, prev.1 + [Tx(hops[n].iface, hops[n].via, id)])
  }

  /** The first address other than zero among the interfaces of copies 0 to k. */
  function FirstAddr(tx: seq<Tx>, k: nat): bv16
    requires k < |tx|
  {
    if k > 0 && FirstAddr(tx, k - 1) != 0 then FirstAddr(tx, k - 1) else tx[k].iface.addr
  }

  lemma {:induction false} FirstAddrStable(a: seq<Tx>, b: seq<Tx>, k: nat)
    requires k < |a|
    ensures FirstAddr(a + b, k) == FirstAddr(a, k)
  {
    if k > 0 { FirstAddrStable(a, b, k - 1); }
  }

  /** Copies sent by route: a packet of this node without a source takes the first interface's address and
      keeps it on all the others. */
  lemma {:induction false} RoutedCopies(h: nat, first: Id, from: Option<Iface>, hops: seq<Hop>, k: nat)
    requires h <= 14 && (from.Some? ==> from.value.netmask <= h)
    requires k < |RouteRun(h, first, from, hops).1|
    ensures var tx := RouteRun(h, first, from, hops).1;
            tx[k].id == first.(src := if from.None? && first.src == 0 then FirstAddr(tx, k) else first.src)
    decreases |hops|
  {
    hide Allowed;
    var n := |hops| - 1;
    var prev, tx := RouteRun(h, first, from, hops[..n]), RouteRun(h, first, from, hops).1;
    LastRouted(h, first, from, hops[..n]);
    if k < |prev.1| {
      RoutedCopies(h, first, from, hops[..n], k);
      if |tx| > |prev.1| { FirstAddrStable(prev.1, [tx[|prev.1|]], k); }
    } else if k > 0 {
      RoutedCopies(h, first, from, hops[..n], k - 1);
      FirstAddrStable(prev.1, [tx[k]], k - 1);
    }
  }

  lemma {:induction false} LastRouted(h: nat, first: Id, from: Option<Iface>, hops: seq<Hop>)
    requires h <= 14 && (from.Some? ==> from.value.netmask <= h)
    ensures var r := RouteRun(h, first, from, hops);
            r.0 == if r.1 == [] then first else r.1[|r.1| - 1].id
    decreases |hops|
  {
    hide Allowed, Claimed;
    if hops != [] { LastRouted(h, first, from, hops[..|hops| - 1]); }
  }

  /** Every copy carries the id with the packet's own source, or the first address claimed for it. */
  predicate OneSource(first: Id, from: Option<Iface>, tx: seq<Tx>) {
    forall k :: 0 <= k < |tx| ==>
      tx[k].id == first.(src := if from.None? && first.src == 0 then FirstAddr(tx, k) else first.src)
  }

  lemma RoutedSource(h: nat, first: Id, from: Option<Iface>, hops: seq<Hop>)
    requires h <= 14 && (from.Some? ==> from.value.netmask <= h)
    ensures OneSource(first, from, RouteRun(h, first, from, hops).1)
  {
    hide RouteRun, FirstAddr;
    forall k: nat | k < |RouteRun(h, first, from, hops).1| {
      RoutedCopies(h, first, from, hops, k);
    }
  }

  /** Default interfaces are gone through like routes. */
  lemma {:induction false} DefaultRun(h: nat, first: Id, from: Option<Iface>, ifs: seq<Iface>)
    requires Masks(h, ifs) && (from.Some? ==> from.value.netmask <= h)
    ensures ListRun(h, Default, first, from, ifs) == RouteRun(h, first, from, Listed(h, Default, ifs))
    decreases |ifs|
  {
    hide Allowed, Claimed;
    if ifs != [] {
      var n := |ifs| - 1;
      DefaultRun(h, first, from, ifs[..n]);
      var l := Listed(h, Default, ifs[..n]);
      if ifs[n].isDefault {
        RouteRunSnoc(h, first, from, l, Hop(ifs[n], NO_VIA));
      } else {
        assert l + [] == l;
      }
    }
  }

  // ---- csp_send_direct ----

  predicate Source(net: Net, from: Option<Iface>) {
    from.Some? ==> from.value.netmask <= net.h
  }

  /** csp_iflist_get_by_subnet and csp_iflist_get_by_isdfl, continuing at a position of the list. */
  method NextIface(net: Net, s: Search, at: nat) returns (i: nat)
    requires net.Valid() && at <= |net.ifaces|
    ensures at <= i <= |net.ifaces|
    ensures forall j :: at <= j < i ==> !Picks(net.h, s, net.ifaces[j])
    ensures i < |net.ifaces| ==> Picks(net.h, s, net.ifaces[i])
  {
    hide Picks;
    i := at;
    while i < |net.ifaces| && !Picks(net.h, s, net.ifaces[i])
      invariant at <= i <= |net.ifaces|
      invariant forall j :: at <= j < i ==> !Picks(net.h, s, net.ifaces[j])
    {
      i := i + 1;
    }
  }

  /** The loop over local subnets, and the one over default interfaces. */
  method SendListed(net: Net, s: Search, first: Id, from: Option<Iface>) returns (found: bool, tx: seq<Tx>)
    requires net.Valid() && Source(net, from)
    ensures found <==> Listed(net.h, s, net.ifaces) != []
    ensures tx == ListRun(net.h, s, first, from, net.ifaces).1
  {
    hide Picks, Allowed, Prepared, Listed, ListRun;
    var id := first;
    found, tx := false, [];
    var i := NextIface(net, s, 0);
    NoneListed(net, s, first, from);
    SkipListed(net, s, first, from, 0, i);
    while i < |net.ifaces|
      invariant i <= |net.ifaces| && (i < |net.ifaces| ==> Picks(net.h, s, net.ifaces[i]))
      invariant found <==> Listed(net.h, s, net.ifaces[..i]) != []
      invariant (id, tx) == ListRun(net.h, s, first, from, net.ifaces[..i])
      decreases |net.ifaces| - i
    {
      var ifc := net.ifaces[i];
      OneListed(net, s, first, from, i);
      found := true;
      if Allowed(net.h, ifc, from) {
        id := Prepared(net.h, s, from.None?, first, id, ifc);
        tx := tx + [Tx(ifc, NO_VIA, id)];
      }
      var next := NextIface(net, s, i + 1);
      SkipListed(net, s, first, from, i + 1, next);
      i := next;
    }
    assert net.ifaces[..|net.ifaces|] == net.ifaces;
  }

  lemma NoneListed(net: Net, s: Search, first: Id, from: Option<Iface>)
    requires net.Valid() && Source(net, from)
    ensures Listed(net.h, s, net.ifaces[..0]) == []
    ensures ListRun(net.h, s, first, from, net.ifaces[..0]) == (first, [])
  {
  }

  lemma OneListed(net: Net, s: Search, first: Id, from: Option<Iface>, i: nat)
    requires net.Valid() && Source(net, from) && i < |net.ifaces| && Picks(net.h, s, net.ifaces[i])
    ensures Listed(net.h, s, net.ifaces[..i + 1]) != []
    ensures var prev := ListRun(net.h, s, first, from, net.ifaces[..i]);
            var ifc := net.ifaces[i];
            ListRun(net.h, s, first, from, net.ifaces[..i + 1]) ==
            if !Allowed(net.h, ifc, from) then prev
            else var id := Prepared(net.h, s, from.None?, first, prev.0, ifc); (id, prev.1 + [Tx(ifc, NO_VIA, id)])
  {
    hide Picks, Allowed, Prepared;
    assert net.ifaces[..i + 1][..i] == net.ifaces[..i];
  }

  lemma {:induction false} SkipListed(net: Net, s: Search, first: Id, from: Option<Iface>, a: nat, b: nat)
    requires net.Valid() && Source(net, from) && a <= b <= |net.ifaces|
    requires forall j :: a <= j < b ==> !Picks(net.h, s, net.ifaces[j])
    ensures Listed(net.h, s, net.ifaces[..b]) == Listed(net.h, s, net.ifaces[..a])
    ensures ListRun(net.h, s, first, from, net.ifaces[..b]) == ListRun(net.h, s, first, from, net.ifaces[..a])
    decreases b - a
  {
    hide Picks, Allowed, Prepared;
    if a < b {
      SkipListed(net, s, first, from, a, b - 1);
      assert net.ifaces[..b][..b - 1] == net.ifaces[..b - 1];
      var l := Listed(net.h, s, net.ifaces[..b - 1]);
      assert l + [] == l;
    }
  }

  /** The loop over the routes of one network. */
  method SendRouted(net: Net, table: Table, best: nat, first: Id, from: Option<Iface>) returns (tx: seq<Tx>)
    requires net.Valid() && Source(net, from) && table.routes == net.routes && best < |net.routes|
    ensures tx == RouteRun(net.h, first, from, Backward(net.routes, best, 0)).1
  {
    hide Allowed, Claimed, Covers;
    var t := net.routes;
    var id := first;
    var j: nat := best;
    tx := [];
    var more := true;
    assert Backward(t, best, best + 1) == [];
    while more
      invariant more ==> j <= best && SameNet(t[j], t[best])
      invariant (id, tx) == RouteRun(net.h, first, from, Backward(t, best, if more then j + 1 else 0))
      decreases if more then j + 1 else 0
    {
      var r := t[j];
      RouteRunSnoc(net.h, first, from, Backward(t, best, j + 1), Hop(r.iface, r.via));
      if Allowed(net.h, r.iface, from) {
        id := Claimed(from.None?, id, r.iface);
        tx := tx + [Tx(r.iface, r.via, id)];
      }
      var next := table.SearchBackward(j);
      SkipBackward(t, best, j, if next.Some? then next.value + 1 else 0);
      if next.None? {
        more := false;
      } else {
        j := next.value;
      }
    }
  }

  lemma RouteRunSnoc(h: nat, first: Id, from: Option<Iface>, hops: seq<Hop>, hop: Hop)
    requires h <= 14 && (from.Some? ==> from.value.netmask <= h)
    ensures RouteRun(h, first, from, hops + [hop]) ==
            var prev := RouteRun(h, first, from, hops);
            if !Allowed(h, hop.iface, from) then prev
            else var id := Claimed(from.None?, prev.0, hop.iface); (id, prev.1 + [Tx(hop.iface, hop.via, id)])
  {
    hide Allowed, Claimed;
    assert (hops + [hop])[..|hops|] == hops;
  }

  lemma {:induction false} SkipBackward(t: seq<Route>, b: nat, hi: nat, lo: nat)
    requires lo <= hi <= b < |t| && SameNet(t[hi], t[b])
    requires forall j :: lo <= j < hi ==> !SameNet(t[j], t[hi])
    ensures Backward(t, b, lo) == Backward(t, b, hi)
    decreases hi - lo
  {
    if lo < hi {
      SkipBackward(t, b, hi, lo + 1);
      assert Backward(t, b, lo + 1) + [] == Backward(t, b, lo + 1);
    }
  }

  /** csp_send_direct when every clone succeeds. A packet for the loopback address goes there alone. Any
      other goes to every permitted interface of the first class that is not empty, in order, and
      nowhere else. */
  method SendDirect(net: Net, table: Table, id: Id, from: Option<Iface>) returns (tx: seq<Tx>, ghost hops: seq<Hop>)
    requires net.Valid() && Source(net, from)
    requires table.Valid() && table.h == net.h && table.routes == net.routes
    ensures id.dst == net.lo.addr ==> tx == [Tx(net.lo, NO_VIA, id)]
    ensures id.dst != net.lo.addr ==> FirstClass(net, id.dst, hops) && HopsOf(tx) == Permitted(net.h, hops, from)
    ensures id.dst != net.lo.addr && Listed(net.h, Subnet(id.dst), net.ifaces) != [] ==>
              tx == ListRun(net.h, Subnet(id.dst), id, from, net.ifaces).1
    ensures id.dst != net.lo.addr && Listed(net.h, Subnet(id.dst), net.ifaces) == [] ==> OneSource(id, from, tx)
  {
    hide Listed, ListRun, RouteRun, Covers, Best, Backward, OneSource;
    if id.dst == net.lo.addr {
      return [Tx(net.lo, NO_VIA, id)], [];
    }
    var found;
    found, tx := SendListed(net, Subnet(id.dst), id, from);
    hops := Listed(net.h, Subnet(id.dst), net.ifaces);
    if found {
      ListRunHops(net.h, Subnet(id.dst), id, from, net.ifaces);
      return;
    }
    var best := table.FindRoute(id.dst);
    if best.Some? {
      BestBound(net.h, net.routes, id.dst, best.value);
      tx := SendRouted(net, table, best.value, id, from);
      hops := Backward(net.routes, best.value, 0);
      RouteRunHops(net.h, id, from, hops);
      RoutedSource(net.h, id, from, hops);
      return;
    }
    NoBest(net.h, net.routes, id.dst);
    found, tx := SendListed(net, Default, id, from);
    hops := Listed(net.h, Default, net.ifaces);
    ListRunHops(net.h, Default, id, from, net.ifaces);
    DefaultRun(net.h, id, from, net.ifaces);
    RoutedSource(net.h, id, from, hops);
  }

  lemma NoBest(h: nat, t: seq<Route>, addr: bv16)
    requires Masked(h, t) && forall i :: 0 <= i < |t| ==> !Covers(h, t[i], addr)
    ensures !exists b :: Best(h, t, addr, b)
  {
    hide Covers;
  }

  lemma {:induction false} ListRunHops(h: nat, s: Search, first: Id, from: Option<Iface>, ifs: seq<Iface>)
    requires Masks(h, ifs) && (from.Some? ==> from.value.netmask <= h)
    ensures HopsOf(ListRun(h, s, first, from, ifs).1) == Permitted(h, Listed(h, s, ifs), from)
    decreases |ifs|
  {
    hide Picks, Allowed, Prepared;
    if ifs != [] {
      var n := |ifs| - 1;
      ListRunHops(h, s, first, from, ifs[..n]);
      var l := Listed(h, s, ifs[..n]);
      if Picks(h, s, ifs[n]) {
        var hop := Hop(ifs[n], NO_VIA);
        PermittedSnoc(h, l, hop, from);
        if Allowed(h, ifs[n], from) {
          var prev := ListRun(h, s, first, from, ifs[..n]);
          HopsSnoc(prev.1, Tx(ifs[n], NO_VIA, Prepared(h, s, from.None?, first, prev.0, ifs[n])));
        }
      } else {
        assert l + [] == l;
      }
    }
  }

  lemma HopsSnoc(tx: seq<Tx>, t: Tx)
    ensures HopsOf(tx + [t]) == HopsOf(tx) + [Hop(t.iface, t.via)]
  {
    assert (tx + [t])[..|tx|] == tx;
  }

  lemma PermittedSnoc(h: nat, hops: seq<Hop>, hop: Hop, from: Option<Iface>)
    requires h <= 14 && (from.Some? ==> from.value.netmask <= h)
    ensures Permitted(h, hops + [hop], from) ==
            if Allowed(h, hop.iface, from) then Permitted(h, hops, from) + [hop] else Permitted(h, hops, from)
  {
    hide Allowed;
    assert (hops + [hop])[..|hops|] == hops;
    assert Permitted(h, hops, from) + [] == Permitted(h, hops, from);
  }

  lemma {:induction false} RouteRunHops(h: nat, first: Id, from: Option<Iface>, hops: seq<Hop>)
    requires h <= 14 && (from.Some? ==> from.value.netmask <= h)
    ensures HopsOf(RouteRun(h, first, from, hops).1) == Permitted(h, hops, from)
    decreases |hops|
  {
    hide Allowed, Claimed;
    if hops != [] {
      var n := |hops| - 1;
      var prev := RouteRun(h, first, from, hops[..n]);
      RouteRunHops(h, first, from, hops[..n]);
      assert hops == hops[..n] + [hops[n]];
      PermittedSnoc(h, hops[..n], hops[n], from);
      if Allowed(h, hops[n].iface, from) {
        HopsSnoc(prev.1, Tx(hops[n].iface, hops[n].via, Claimed(from.None?, prev.0, hops[n].iface)));
      }
    }
  }

  // ---- never twice on one interface ----

  predicate Distinct(hops: seq<Hop>) {
    forall i, j :: 0 <= i < j < |hops| ==> hops[i].iface != hops[j].iface
  }

  lemma {:induction false} ListedDistinct(h: nat, s: Search, ifs: seq<Iface>)
    requires Masks(h, ifs) && forall i, j :: 0 <= i < j < |ifs| ==> ifs[i] != ifs[j]
    ensures Distinct(Listed(h, s, ifs))
    ensures forall i :: 0 <= i < |Listed(h, s, ifs)| ==> Listed(h, s, ifs)[i].iface in ifs
    decreases |ifs|
  {
    hide Picks;
    if ifs != [] {
      ListedDistinct(h, s, ifs[..|ifs| - 1]);
      assert forall x :: x in ifs[..|ifs| - 1] ==> x in ifs;
    }
  }

  lemma {:induction false} BackwardFrom(t: seq<Route>, b: nat, j: nat, i: nat) returns (k: nat)
    requires b < |t| && i < |Backward(t, b, j)|
    ensures j <= k <= b && SameNet(t[k], t[b]) && Backward(t, b, j)[i] == Hop(t[k].iface, t[k].via)
    decreases b + 1 - j
  {
    var rest := Backward(t, b, j + 1);
    if i < |rest| {
      k := BackwardFrom(t, b, j + 1, i);
    } else {
      k := j;
    }
  }

  lemma {:induction false} BackwardDistinct(t: seq<Route>, b: nat, j: nat)
    requires Unique(t) && b < |t|
    ensures Distinct(Backward(t, b, j))
    decreases b + 1 - j
  {
    if j <= b {
      BackwardDistinct(t, b, j + 1);
      var rest := Backward(t, b, j + 1);
      if SameNet(t[j], t[b]) {
        forall i | 0 <= i < |rest| ensures rest[i].iface != t[j].iface {
          var k := BackwardFrom(t, b, j + 1, i);
          assert !SameKey(t[j], t[k]);
        }
      }
    }
  }

  lemma {:induction false} PermittedDistinct(h: nat, hops: seq<Hop>, from: Option<Iface>)
    requires h <= 14 && (from.Some? ==> from.value.netmask <= h) && Distinct(hops)
    ensures Distinct(Permitted(h, hops, from))
    ensures forall x :: x in Permitted(h, hops, from) <==> x in hops && Allowed(h, x.iface, from)
    decreases |hops|
  {
    hide Allowed;
    if hops != [] {
      var n := |hops| - 1;
      PermittedDistinct(h, hops[..n], from);
      assert hops == hops[..n] + [hops[n]];
      var p := Permitted(h, hops[..n], from);
      forall i | 0 <= i < |p| ensures p[i].iface != hops[n].iface {
        assert p[i] in p && p[i] in hops[..n];
      }
    }
  }

  /** Every interface that should carry the packet carries exactly one copy, and no other carries any. */
  lemma OnceEach(net: Net, dst: bv16, hops: seq<Hop>, from: Option<Iface>)
    requires net.Valid() && Source(net, from) && FirstClass(net, dst, hops)
    ensures Distinct(Permitted(net.h, hops, from))
    ensures forall x :: x in Permitted(net.h, hops, from) <==> x in hops && Allowed(net.h, x.iface, from)
  {
    hide Listed, Backward, Permitted, Covers, Allowed, Distinct;
    if Listed(net.h, Subnet(dst), net.ifaces) != [] {
      ListedDistinct(net.h, Subnet(dst), net.ifaces);
    } else if exists b :: Best(net.h, net.routes, dst, b) {
      var b: nat :| Best(net.h, net.routes, dst, b) && hops == Backward(net.routes, b, 0);
      BestBound(net.h, net.routes, dst, b);
      BackwardDistinct(net.routes, b, 0);
    } else {
      ListedDistinct(net.h, Default, net.ifaces);
    }
    PermittedDistinct(net.h, hops, from);
  }

  lemma BestBound(h: nat, t: seq<Route>, addr: bv16, b: int)
    requires Masked(h, t) && Best(h, t, addr, b)
    ensures 0 <= b < |t|
  {
  }

  // ---- what each copy carries ----

  predicate SomeBroadcast(h: nat, dst: bv16, tx: seq<Tx>, k: nat)
    requires h <= 14 && k < |tx| && forall i :: 0 <= i < |tx| ==> tx[i].iface.netmask <= h
  {
    exists j :: 0 <= j <= k && Broadcast(h, dst, tx[j].iface)
  }

  /** Copies for local subnets: a packet of this node without a source takes the address of each interface;
      the destination becomes the broadcast address from the first interface on which it is a
      broadcast, and stays so for all that follow. */
  lemma {:induction false} LocalCopies(h: nat, first: Id, from: Option<Iface>, ifs: seq<Iface>, k: nat)
    requires Masks(h, ifs) && (from.Some? ==> from.value.netmask <= h)
    requires k < |ListRun(h, Subnet(first.dst), first, from, ifs).1|
    ensures var tx := ListRun(h, Subnet(first.dst), first, from, ifs).1;
            && (forall i :: 0 <= i < |tx| ==> tx[i].iface.netmask <= h)
            && tx[k].id == first.(
                 src := if from.None? && first.src == 0 then tx[k].iface.addr else first.src,
                 dst := if SomeBroadcast(h, first.dst, tx, k) then MaxNode(h) else first.dst)
    decreases |ifs|
  {
    hide Picks, Allowed, Broadcast, MaxNode;
    var s := Subnet(first.dst);
    var n := |ifs| - 1;
    var prev, tx := ListRun(h, s, first, from, ifs[..n]), ListRun(h, s, first, from, ifs).1;
    if k < |prev.1| {
      LocalCopies(h, first, from, ifs[..n], k);
      assert forall j :: 0 <= j <= k ==> tx[j] == prev.1[j];
    } else if k > 0 {
      LocalCopies(h, first, from, ifs[..n], k - 1);
      LastId(h, s, first, from, ifs[..n]);
      assert forall j :: 0 <= j < k ==> tx[j] == prev.1[j];
    } else {
      LastId(h, s, first, from, ifs[..n]);
    }
  }

  lemma {:induction false} LastId(h: nat, s: Search, first: Id, from: Option<Iface>, ifs: seq<Iface>)
    requires Masks(h, ifs) && (from.Some? ==> from.value.netmask <= h)
    ensures var r := ListRun(h, s, first, from, ifs);
            r.0 == if r.1 == [] then first else r.1[|r.1| - 1].id
    ensures forall i :: 0 <= i < |ListRun(h, s, first, from, ifs).1| ==>
              ListRun(h, s, first, from, ifs).1[i].iface.netmask <= h
    decreases |ifs|
  {
    hide Picks, Allowed, Prepared;
    if ifs != [] { LastId(h, s, first, from, ifs[..|ifs| - 1]); }
  }

  predicate Small(h: nat, tx: seq<Tx>) {
    h <= 14 && forall i :: 0 <= i < |tx| ==> tx[i].iface.netmask <= h
  }

  /** Each copy's destination is rewritten according to its own interface. */
  predicate RewrittenAlone(h: nat, dst: bv16, tx: seq<Tx>)
    requires Small(h, tx)
  {
    forall k :: 0 <= k < |tx| ==> tx[k].id.dst == if Broadcast(h, dst, tx[k].iface) then MaxNode(h) else dst
  }

  predicate SmallHops(h: nat, hops: seq<Hop>) {
    h <= 14 && forall i :: 0 <= i < |hops| ==> hops[i].iface.netmask <= h
  }

  /** An interface on which dst is an ordinary address follows one on which it is a broadcast. */
  predicate OrdinaryAfterBroadcast(h: nat, dst: bv16, hops: seq<Hop>)
    requires SmallHops(h, hops)
  {
    exists j, k :: 0 <= j < k < |hops| && Broadcast(h, dst, hops[j].iface) && !Broadcast(h, dst, hops[k].iface)
  }

  lemma {:induction false} HopsAt(tx: seq<Tx>)
    ensures |HopsOf(tx)| == |tx| && forall k :: 0 <= k < |tx| ==> HopsOf(tx)[k] == Hop(tx[k].iface, tx[k].via)
    decreases |tx|
  {
    if tx != [] { HopsAt(tx[..|tx| - 1]); }
  }

  /** The same for the copies made. */
  predicate OrdinaryCopy(h: nat, dst: bv16, tx: seq<Tx>)
    requires Small(h, tx)
  {
    exists k :: 0 <= k < |tx| && SomeBroadcast(h, dst, tx, k) && !Broadcast(h, dst, tx[k].iface)
  }

  lemma CopyOfHop(h: nat, dst: bv16, tx: seq<Tx>, hops: seq<Hop>)
    requires Small(h, tx) && hops == HopsOf(tx) && SmallHops(h, hops) && OrdinaryAfterBroadcast(h, dst, hops)
    ensures OrdinaryCopy(h, dst, tx)
  {
    hide Broadcast, HopsOf;
    HopsAt(tx);
    var j, k :| 0 <= j < k < |hops| && Broadcast(h, dst, hops[j].iface) && !Broadcast(h, dst, hops[k].iface);
    assert Broadcast(h, dst, tx[j].iface);
    assert SomeBroadcast(h, dst, tx, k);
  }

  lemma HopOfCopy(h: nat, dst: bv16, tx: seq<Tx>, hops: seq<Hop>)
    requires Small(h, tx) && hops == HopsOf(tx) && SmallHops(h, hops) && OrdinaryCopy(h, dst, tx)
    ensures OrdinaryAfterBroadcast(h, dst, hops)
  {
    hide Broadcast, HopsOf;
    HopsAt(tx);
    var k :| 0 <= k < |tx| && SomeBroadcast(h, dst, tx, k) && !Broadcast(h, dst, tx[k].iface);
    var j :| 0 <= j <= k && Broadcast(h, dst, tx[j].iface);
    assert Broadcast(h, dst, hops[j].iface);
  }

  lemma LaterOrdinary(h: nat, dst: bv16, tx: seq<Tx>, hops: seq<Hop>)
    requires Small(h, tx) && hops == HopsOf(tx)
    ensures SmallHops(h, hops) && (OrdinaryAfterBroadcast(h, dst, hops) <==> OrdinaryCopy(h, dst, tx))
  {
    HopsAt(tx);
    hide OrdinaryAfterBroadcast, OrdinaryCopy, HopsOf;
    if OrdinaryAfterBroadcast(h, dst, hops) { CopyOfHop(h, dst, tx, hops); }
    if OrdinaryCopy(h, dst, tx) { HopOfCopy(h, dst, tx, hops); }
  }

  /** The one holds exactly when, among the interfaces the packet is going to leave on, the other does
      not occur. */
  lemma RewrittenExactly(h: nat, first: Id, from: Option<Iface>, ifs: seq<Iface>)
    requires Masks(h, ifs) && (from.Some? ==> from.value.netmask <= h)
    ensures var tx := ListRun(h, Subnet(first.dst), first, from, ifs).1;
            var hops := Permitted(h, Listed(h, Subnet(first.dst), ifs), from);
            && Small(h, tx) && SmallHops(h, hops)
            && (RewrittenAlone(h, first.dst, tx) <==> !OrdinaryAfterBroadcast(h, first.dst, hops))
  {
    hide ListRun, MaxNode, Broadcast, SomeBroadcast, Permitted, Listed, OrdinaryAfterBroadcast, HopsOf;
    var s, dst := Subnet(first.dst), first.dst;
    var tx := ListRun(h, s, first, from, ifs).1;
    LastId(h, s, first, from, ifs);
    ListRunHops(h, s, first, from, ifs);
    LaterOrdinary(h, dst, tx, HopsOf(tx));
    forall k | 0 <= k < |tx|
      ensures tx[k].id.dst == if SomeBroadcast(h, dst, tx, k) then MaxNode(h) else dst
      ensures Broadcast(h, dst, tx[k].iface) ==> SomeBroadcast(h, dst, tx, k)
      ensures !Broadcast(h, dst, tx[k].iface) ==> dst != MaxNode(h)
    {
      LocalCopies(h, first, from, ifs, k);
      OwnBroadcast(h, dst, tx, k);
    }
  }

  lemma OwnBroadcast(h: nat, dst: bv16, tx: seq<Tx>, k: nat)
    requires Small(h, tx) && k < |tx|
    ensures Broadcast(h, dst, tx[k].iface) ==> SomeBroadcast(h, dst, tx, k)
    ensures !Broadcast(h, dst, tx[k].iface) ==> dst != MaxNode(h)
  {
    hide Broadcast;
    if !Broadcast(h, dst, tx[k].iface) { OrdinaryIsNotMax(h, dst, tx[k].iface); }
  }

  lemma OrdinaryIsNotMax(h: nat, dst: bv16, ifc: Iface)
    requires ifc.netmask <= h <= 14 && !Broadcast(h, dst, ifc)
    ensures dst != MaxNode(h)
  {
  }

  /** It does happen: 7 is the broadcast address of the subnet 4 to 7, and an ordinary address of 0 to 15. */
  lemma RewriteSpills()
    ensures var a, b := Iface("A", 4, 3, false), Iface("B", 1, 1, false);
            var id := Id(2, 0, 9, 7, 10, 20);
            var tx := ListRun(5, Subnet(7), id, None, [a, b]).1;
            && |tx| == 2 && tx[1].iface == b && !Broadcast(5, 7, b) && tx[1].id.dst == 31
  {
    var a, b := Iface("A", 4, 3, false), Iface("B", 1, 1, false);
    var id := Id(2, 0, 9, 7, 10, 20);
    var s := Subnet(7);
    assert Picks(5, s, a) && Picks(5, s, b) && Broadcast(5, 7, a) && !Broadcast(5, 7, b);
    assert [a][..0] == [] && [a, b][..1] == [a];
    var one := id.(dst := MaxNode(5));
    assert Prepared(5, s, true, id, id, a) == one;
    assert ListRun(5, s, id, None, [a][..0]) == (id, []);
    assert Allowed(5, a, None);
    assert [] + [Tx(a, NO_VIA, one)] == [Tx(a, NO_VIA, one)];
    assert ListRun(5, s, id, None, [a]) == (one, [Tx(a, NO_VIA, one)]);
    assert Prepared(5, s, true, id, one, b) == one;
  }
}
