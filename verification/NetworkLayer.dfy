/**
 The layer-2 and layer-3 configuration of master/topology.cc, updating device lists, interfaces
 and routing tables in place, loop by loop.  The result is Fabric.FinalStack at every node.
 */
module NetworkLayer {
  import opened Ipv4
  import opened Fabric
  import opened AddressBook

  // ---------- what single updates do to a node ----------

  /** A new interface with its address and, since it is up, the connected route. */
  function Attached(st: Stack, l: Link, a: Address, len: PrefixLength): Stack {
    Stack(st.ifaces + [Iface(l, a, len, BroadcastOf(a, len))],
          WithRoute(st.routes, Route(NetworkOf(a, len), len, ANY, |st.ifaces|)))
  }

  /** The first a interfaces and b routes of a stack. */
  function Cut(st: Stack, a: nat, b: nat): Stack
    requires a <= |st.ifaces| && b <= |st.routes|
  {
    Stack(st.ifaces[..a], st.routes[..b])
  }

  /** Before anything is configured a node has its loopback and the route to it. */
  lemma FreshCut(p: Plan, n: Node)
    requires p.Valid() && p.HasNode(n)
    ensures |FinalStack(p, n).ifaces| >= 1 && |FinalStack(p, n).routes| >= 1 && Cut(FinalStack(p, n), 1, 1) == FRESH
  {}

  lemma CutWhole(st: Stack)
    ensures Cut(st, |st.ifaces|, |st.routes|) == st
  {}

  lemma CerRoutesDistinct(p: Plan, k: nat, q: nat)
    requires p.Valid() && k < 2 * p.N() + 8 && q < 2 * p.N() + 8 && CerRouteAt(p, k) == CerRouteAt(p, q)
    ensures k == q
  {
    var l, m := CerLink(p, k), CerLink(p, q);
    SubnetsDisjoint(p, l, m, SubnetBase(p, l));
  }

  lemma SmallTableDistinct(p: Plan, n: Node, k: nat, q: nat)
    requires p.Valid() && p.HasNode(n) && n != Cer
    requires k < |FinalStack(p, n).routes| && q < |FinalStack(p, n).routes|
    requires FinalStack(p, n).routes[k] == FinalStack(p, n).routes[q]
    ensures k == q
  {
    hide CerStack, CerRouteAt, CerLink;
  }

  /** Tables have no two equal routes, so adding the next route of a table extends it. */
  lemma RoutesDistinct(p: Plan, n: Node, k: nat, q: nat)
    requires p.Valid() && p.HasNode(n)
    requires k < |FinalStack(p, n).routes| && q < |FinalStack(p, n).routes|
    requires FinalStack(p, n).routes[k] == FinalStack(p, n).routes[q]
    ensures k == q
  {
    hide FinalStack;
    if n == Cer {
      CerRoutesAre(p, k);
      CerRoutesAre(p, q);
      CerRoutesDistinct(p, k, q);
    } else {
      SmallTableDistinct(p, n, k, q);
    }
  }

  lemma RouteExtends(p: Plan, n: Node, a: nat, b: nat)
    requires p.Valid() && p.HasNode(n)
    requires a <= |FinalStack(p, n).ifaces| && b < |FinalStack(p, n).routes|
    ensures var st := FinalStack(p, n);
            WithRoute(Cut(st, a, b).routes, st.routes[b]) == Cut(st, a, b + 1).routes
  {
    var routes := FinalStack(p, n).routes;
    if routes[b] in routes[..b] {
      var k :| 0 <= k < b && routes[k] == routes[b];
      RoutesDistinct(p, n, k, b);
    }
    assert routes[..b + 1] == routes[..b] + [routes[b]];
  }

  lemma AttachExtends(p: Plan, n: Node, a: nat, b: nat, l: Link, j: nat)
    requires p.Valid() && p.HasNode(n) && p.HasLink(l) && j < |Devices(p, l)|
    requires a < |FinalStack(p, n).ifaces| && b < |FinalStack(p, n).routes|
    requires FinalStack(p, n).ifaces[a] == IfaceOn(p, l, j) && FinalStack(p, n).routes[b] == Connected(p, l, a)
    ensures var st := FinalStack(p, n);
            Attached(Cut(st, a, b), l, AddressOn(p, l, j), SubnetLength(l)) == Cut(st, a + 1, b + 1)
  {
    hide FinalStack, Quad, Size, Pow2, SubnetBase, SubnetSize, Devices, AddressOn;
    var st := FinalStack(p, n);
    BroadcastIsAllOnes(p, l, j);
    SubnetSizes(p, l);
    AlignedInterval(SubnetBase(p, l), AddressOn(p, l, j), SubnetSize(l));
    assert st.ifaces[..a + 1] == st.ifaces[..a] + [st.ifaces[a]];
    RouteExtends(p, n, a, b);
  }

  // ---------- progress ----------

  /** How far the configuration has come: links of the core network, router links, server links, the
      packet gateway's link, access points, user equipments, and routes of the edge router. */
  datatype Progress = Progress(core: nat, routers: nat, servers: nat, pgw: bool, aps: nat, ues: bool, cerRoutes: nat)

  const START := Progress(0, 0, 0, false, 0, false, 0)
  const CORE_BUILT := Progress(4, 0, 0, false, 0, false, 0)

  /** How many interfaces and routes a node has by then. */
  function Done(p: Plan, g: Progress, n: Node): (nat, nat)
    requires p.Valid() && p.HasNode(n)
  {
    match n
    case Cer => (1 + if g.cerRoutes <= p.N() + 7 then g.cerRoutes else p.N() + 7, 1 + g.cerRoutes)
    case Pgw => if g.pgw then (4, 6) else if g.core >= 2 then (3, 3) else if g.core == 1 then (2, 2) else (1, 1)
    case Sgw => if g.core >= 4 then (4, 4) else if g.core == 3 then (3, 3) else if g.core == 2 then (2, 2) else (1, 1)
    case Mme => if g.core >= 3 then (2, 2) else (1, 1)
    case Ap(i) =>
      if i < g.aps then (3, if i == 0 then 3 else 4) else if i == 0 && g.core >= 4 then (2, 2) else (1, 1)
    case Router(i) =>
      if i < g.aps then (3, if i == 0 then 4 else 5) else if i < g.routers then (2, 3) else (1, 1)
    case Server(s) => if ServerIndex(s) < g.servers then (2, 3) else (1, 1)
    case Station(i, _) => if (if i == 0 then g.ues else i < g.aps) then (2, 3) else (1, 1)
  }

  function StackAt(p: Plan, g: Progress, n: Node): Stack
    requires p.Valid() && p.HasNode(n) && g.cerRoutes <= 2 * p.N() + 7
  {
    var (a, b) := Done(p, g, n);
    Cut(FinalStack(p, n), a, b)
  }

  // ---------- the stacks of all nodes ----------

  type Stacks = map<Node, Stack>

  /** A node starts with the loopback interface only. */
  function StackIn(s: Stacks, n: Node): Stack {
    if n in s then s[n] else FRESH
  }

  ghost predicate At(p: Plan, s: Stacks, g: Progress): (at: bool)
    ensures at ==> p.Valid()
  {
    && p.Valid() && g.cerRoutes <= 2 * p.N() + 7
    && forall n | p.HasNode(n) :: StackIn(s, n) == StackAt(p, g, n)
  }

  /** Node n has come as far as its first a interfaces and b routes. */
  ghost predicate Has(p: Plan, s: Stacks, n: Node, a: nat, b: nat) {
    && p.Valid() && p.HasNode(n)
    && a <= |FinalStack(p, n).ifaces| && b <= |FinalStack(p, n).routes|
    && StackIn(s, n) == Cut(FinalStack(p, n), a, b)
  }

  /** At most nodes a and b changed. */
  ghost predicate OnlyChanged(s: Stacks, t: Stacks, a: Node, b: Node) {
    forall n | n != a && n != b :: StackIn(t, n) == StackIn(s, n)
  }

  /** Consecutive addresses from a on go to the devices in order. */
  function Assigned(s: Stacks, l: Link, a: Address, len: PrefixLength, devs: seq<Node>): Stacks
    requires a + |devs| < 0x1_0000_0000
  {
    if devs == [] then s else
      var last := |devs| - 1;
      var t := Assigned(s, l, a, len, devs[..last]);
      t[devs[last] := Attached(StackIn(t, devs[last]), l, a + last, len)]
  }

  /** Distinct nodes get one interface each, and nobody else changes. */
  lemma {:induction false} AssignedOnce(s: Stacks, l: Link, a: Address, len: PrefixLength, devs: seq<Node>)
    requires a + |devs| < 0x1_0000_0000 && forall i, j | 0 <= i < j < |devs| :: devs[i] != devs[j]
    ensures forall k | 0 <= k < |devs| ::
              StackIn(Assigned(s, l, a, len, devs), devs[k]) == Attached(StackIn(s, devs[k]), l, a + k, len)
    ensures forall n | n !in devs :: StackIn(Assigned(s, l, a, len, devs), n) == StackIn(s, n)
  {
    hide Attached;
    if devs != [] {
      AssignedOnce(s, l, a, len, devs[..|devs| - 1]);
    }
  }

  lemma {:induction false} AssignedEnds(p: Plan, s: Stacks, l: Link, x: Node, xIfaces: nat, xRoutes: nat,
                     y: Node, yIfaces: nat, yRoutes: nat)
    requires p.Valid() && p.HasLink(l) && Devices(p, l) == [x, y] && x != y
    requires Ready(p, s, x, xIfaces, xRoutes, l, 0) && Ready(p, s, y, yIfaces, yRoutes, l, 1)
    ensures SubnetBase(p, l) + 3 < 0x1_0000_0000
    ensures var t := Assigned(s, l, SubnetBase(p, l) + 1, SubnetLength(l), [x, y]);
            Has(p, t, x, xIfaces + 1, xRoutes + 1) && Has(p, t, y, yIfaces + 1, yRoutes + 1) && OnlyChanged(s, t, x, y)
  {
    hide FinalStack, Attached, Assigned, AddressOn, SubnetBase, SubnetLength, StackIn, Has, Ready, Devices;
    AddressesFollow(p, l);
    var t := Assigned(s, l, SubnetBase(p, l) + 1, SubnetLength(l), [x, y]);
    AssignedOnce(s, l, SubnetBase(p, l) + 1, SubnetLength(l), [x, y]);
    assert [x, y][0] == x && [x, y][1] == y;
    HasNext(p, s, t, x, xIfaces, xRoutes, l, 0);
    HasNext(p, s, t, y, yIfaces, yRoutes, l, 1);
  }

  /** Node n has come as far as a interfaces and b routes, and the next interface is device j of l. */
  ghost predicate Ready(p: Plan, s: Stacks, n: Node, a: nat, b: nat, l: Link, j: nat) {
    Has(p, s, n, a, b) && p.HasLink(l) && j < |Devices(p, l)| && NextIs(p, n, a, b, l, j)
  }

  lemma HasNext(p: Plan, s: Stacks, t: Stacks, n: Node, a: nat, b: nat, l: Link, j: nat)
    requires Ready(p, s, n, a, b, l, j)
    requires StackIn(t, n) == Attached(StackIn(s, n), l, AddressOn(p, l, j), SubnetLength(l))
    ensures Has(p, t, n, a + 1, b + 1)
  {
    hide FinalStack, Attached, Cut, AddressOn;
    AttachExtends(p, n, a, b, l, j);
  }

  lemma DoneFits(p: Plan, g: Progress, n: Node)
    requires p.Valid() && p.HasNode(n) && g.cerRoutes <= 2 * p.N() + 7
    ensures Done(p, g, n).0 <= |FinalStack(p, n).ifaces| && Done(p, g, n).1 <= |FinalStack(p, n).routes|
  {}

  lemma Reached(p: Plan, s: Stacks, g: Progress, n: Node)
    requires At(p, s, g) && p.HasNode(n)
    ensures Has(p, s, n, Done(p, g, n).0, Done(p, g, n).1)
  {
    hide FinalStack, Done;
    DoneFits(p, g, n);
    assert StackIn(s, n) == StackAt(p, g, n);
  }

  /** If two nodes have moved on to where g1 wants them and the others stayed where both g0 and
      g1 want them, the whole fabric has moved from g0 to g1. */
  lemma Advanced(p: Plan, s: Stacks, t: Stacks, g0: Progress, g1: Progress, a: Node, b: Node)
    requires At(p, s, g0) && p.HasNode(a) && p.HasNode(b) && g1.cerRoutes <= 2 * p.N() + 7
    requires OnlyChanged(s, t, a, b)
    requires forall n | p.HasNode(n) && n != a && n != b :: Done(p, g0, n) == Done(p, g1, n)
    requires Has(p, t, a, Done(p, g1, a).0, Done(p, g1, a).1)
    requires Has(p, t, b, Done(p, g1, b).0, Done(p, g1, b).1)
    ensures At(p, t, g1)
  {
    hide FinalStack, Done;
  }

  /** The round of access point i has linked it to its router; everybody else is as after the
      rounds before. */
  ghost predicate Linked(p: Plan, s: Stacks, i: nat): (linked: bool)
    ensures linked ==> p.Valid() && i < p.N()
  {
    && p.Valid() && i < p.N()
    && (forall n | p.HasNode(n) && n != Ap(i) && n != Router(i) :: StackIn(s, n) == StackAt(p, Rounds(p, i), n))
    && Has(p, s, Ap(i), LinkedUpTo(i), LinkedUpTo(i)) && Has(p, s, Router(i), 3, 4)
  }

  /** Access point 0 already has its link to the core network. */
  function LinkedUpTo(i: nat): nat { if i == 0 then 3 else 2 }

  function Rounds(p: Plan, i: nat): Progress {
    Progress(4, p.N(), 6, true, i, false, p.N() + 7)
  }

  lemma LinkedNow(p: Plan, s: Stacks, t: Stacks, i: nat)
    requires At(p, s, Rounds(p, i)) && i < p.N() && OnlyChanged(s, t, Ap(i), Router(i))
    requires Has(p, t, Ap(i), LinkedUpTo(i), LinkedUpTo(i)) && Has(p, t, Router(i), 3, 4)
    ensures Linked(p, t, i)
  {
    hide FinalStack, StackAt, Has;
  }

  /** Access point 0 and its router only get their link. */
  lemma FirstRound(p: Plan, s: Stacks)
    requires Linked(p, s, 0)
    ensures At(p, s, Rounds(p, 1))
  {
    hide FinalStack, Cut;
    assert forall n | p.HasNode(n) && n != Ap(0) && n != Router(0) ::
             Done(p, Rounds(p, 0), n) == Done(p, Rounds(p, 1), n);
  }

  /** The stations of access point i from slot j on have their interface but no default route yet;
      everybody else has come as far as g. */
  ghost predicate Pending(p: Plan, s: Stacks, g: Progress, i: nat, j: nat) {
    && p.Valid() && i < p.N() && g.cerRoutes <= 2 * p.N() + 7
    && (forall n | p.HasNode(n) && !(n.Station? && n.ap == i && n.slot >= j) :: StackIn(s, n) == StackAt(p, g, n))
    && (forall q | 1 <= q && j <= q < p.sizes[i] :: Has(p, s, Station(i, q), 2, 2))
  }

  lemma PendingStep(p: Plan, s: Stacks, t: Stacks, g: Progress, i: nat, j: nat)
    requires Pending(p, s, g, i, j) && p.HasNode(Station(i, j)) && Done(p, g, Station(i, j)) == (2, 3)
    requires OnlyChanged(s, t, Station(i, j), Station(i, j)) && Has(p, t, Station(i, j), 2, 3)
    ensures Pending(p, t, g, i, j + 1)
  {
    hide FinalStack, Done;
    DoneFits(p, g, Station(i, j));
    forall q | 1 <= q && j + 1 <= q < p.sizes[i]
      ensures Has(p, t, Station(i, q), 2, 2)
    {
      assert Has(p, s, Station(i, q), 2, 2);
    }
  }

  lemma PendingDone(p: Plan, s: Stacks, g: Progress, i: nat, j: nat)
    requires Pending(p, s, g, i, j) && j >= p.sizes[i]
    ensures At(p, s, g)
  {
    hide FinalStack, StackAt, Has;
  }

  // ---------- addressing the stations of an access point ----------

  /** The UEs' link starts with the packet gateway, which has its address already. */
  function AccessLink(i: nat): Link { if i == 0 then Epc else Wifi(i) }
  function FirstDevice(i: nat): nat { if i == 0 then 1 else 0 }

  lemma AccessRoom(p: Plan, i: nat)
    requires p.Valid() && i < p.N()
    ensures |Devices(p, AccessLink(i))| == p.sizes[i] >= FirstDevice(i)
    ensures SubnetBase(p, AccessLink(i)) + 1 + p.sizes[i] < 0x1_0000_0000
  {}

  function AccessAssigned(p: Plan, s: Stacks, i: nat): Stacks
    requires p.Valid() && i < p.N()
  {
    AccessRoom(p, i);
    var l, f := AccessLink(i), FirstDevice(i);
    Assigned(s, l, SubnetBase(p, l) + 1 + f, SubnetLength(l), Devices(p, l)[f..])
  }

  lemma AccessDiffer(p: Plan, i: nat, j: nat, k: nat)
    requires p.Valid() && i < p.N()
    requires FirstDevice(i) <= j < k < |Devices(p, AccessLink(i))|
    ensures Devices(p, AccessLink(i))[j] != Devices(p, AccessLink(i))[k]
  {}

  lemma AccessAssignedOnce(p: Plan, s: Stacks, i: nat, n: Node)
    requires p.Valid() && i < p.N()
    ensures var l, f := AccessLink(i), FirstDevice(i);
            && |Devices(p, l)| == p.sizes[i] >= f
            && SubnetBase(p, l) + 1 + p.sizes[i] < 0x1_0000_0000
            && (n !in Devices(p, l)[f..] ==> StackIn(AccessAssigned(p, s, i), n) == StackIn(s, n))
            && forall k | f <= k < |Devices(p, l)| && Devices(p, l)[k] == n ::
                 StackIn(AccessAssigned(p, s, i), n) ==
                 Attached(StackIn(s, n), l, SubnetBase(p, l) + 1 + k, SubnetLength(l))
  {
    hide Attached, Assigned, SubnetBase, SubnetLength, StackIn, Devices;
    AccessRoom(p, i);
    var l, f := AccessLink(i), FirstDevice(i);
    var devs := Devices(p, l)[f..];
    forall j, k | 0 <= j < k < |devs|
      ensures devs[j] != devs[k]
    {
      AccessDiffer(p, i, f + j, f + k);
    }
    AssignedOnce(s, l, SubnetBase(p, l) + 1 + f, SubnetLength(l), devs);
    forall k | f <= k < |Devices(p, l)| && Devices(p, l)[k] == n
      ensures StackIn(AccessAssigned(p, s, i), n) ==
              Attached(StackIn(s, n), l, SubnetBase(p, l) + 1 + k, SubnetLength(l))
    {
      assert devs[k - f] == n;
    }
  }

  /** A device of the link gets its interface. */
  lemma AccessDevice(p: Plan, s: Stacks, i: nat, k: nat, a: nat, b: nat)
    requires p.Valid() && i < p.N() && FirstDevice(i) <= k < |Devices(p, AccessLink(i))|
    requires Ready(p, s, Devices(p, AccessLink(i))[k], a, b, AccessLink(i), k)
    ensures Has(p, AccessAssigned(p, s, i), Devices(p, AccessLink(i))[k], a + 1, b + 1)
  {
    hide FinalStack, Attached, Assigned, AddressOn, SubnetBase, SubnetLength, StackIn, Has, Ready, Devices,
         AccessAssigned;
    var n, l := Devices(p, AccessLink(i))[k], AccessLink(i);
    AddressesFollow(p, l);
    AccessAssignedOnce(p, s, i, n);
    HasNext(p, s, AccessAssigned(p, s, i), n, a, b, l, k);
  }

  lemma AccessMembers(p: Plan, i: nat, n: Node)
    requires p.Valid() && i < p.N()
    ensures var l, f := AccessLink(i), FirstDevice(i);
            && |Devices(p, l)| == p.sizes[i] >= f
            && (i > 0 ==> Devices(p, l)[0] == Ap(i))
            && (forall q | 1 <= q < p.sizes[i] :: Devices(p, l)[q] == Station(i, q))
            && (n in Devices(p, l)[f..] ==> (n.Station? && n.ap == i && n.slot >= 1) || (i > 0 && n == Ap(i)))
  {}

  lemma StationAddressed(p: Plan, s: Stacks, i: nat, q: nat)
    requires p.Valid() && i < p.N() && 1 <= q < p.sizes[i] && Has(p, s, Station(i, q), 1, 1)
    ensures Has(p, AccessAssigned(p, s, i), Station(i, q), 2, 2)
  {
    hide FinalStack, Devices, Has, AccessAssigned, NextIs;
    AccessMembers(p, i, Cer);
    StationPlan(p, i, q);
    AccessDevice(p, s, i, q, 1, 1);
  }

  lemma StationsPending(p: Plan, s: Stacks, t: Stacks, g0: Progress, g1: Progress, i: nat)
    requires p.Valid() && i < p.N() && g0.cerRoutes <= 2 * p.N() + 7 && g1.cerRoutes <= 2 * p.N() + 7
    requires OnlyChanged(AccessAssigned(p, s, i), t, Ap(i), Router(i))
    requires StackIn(t, Ap(i)) == StackAt(p, g1, Ap(i)) && StackIn(t, Router(i)) == StackAt(p, g1, Router(i))
    requires forall n | p.HasNode(n) && n != Ap(i) && n != Router(i) :: StackIn(s, n) == StackAt(p, g0, n)
    requires forall n | p.HasNode(n) && !(n.Station? && n.ap == i) && n != Ap(i) && n != Router(i) ::
               Done(p, g0, n) == Done(p, g1, n)
    requires forall q | 1 <= q < p.sizes[i] :: Done(p, g0, Station(i, q)) == (1, 1)
    ensures Pending(p, t, g1, i, 1)
  {
    hide FinalStack, Devices, AccessAssigned, StackIn, Done;
    var u := AccessAssigned(p, s, i);
    forall n | p.HasNode(n) && !(n.Station? && n.ap == i && n.slot >= 1)
      ensures StackIn(t, n) == StackAt(p, g1, n)
    {
      AccessMembers(p, i, n);
      AccessAssignedOnce(p, s, i, n);
    }
    forall q | 1 <= q < p.sizes[i]
      ensures Has(p, t, Station(i, q), 2, 2)
    {
      assert p.HasNode(Station(i, q));
      DoneFits(p, g0, Station(i, q));
      StationAddressed(p, s, i, q);
    }
  }

  /** The links of the servers, in the order in which CreateServerNodes lists them. */
  const SERVER_CER_NODES: seq<seq<Node>> :=
    [[Server(Rtt), Cer], [Server(UdpVideo), Cer], [Server(UdpVoice), Cer],
     [Server(Streaming), Cer], [Server(Browser), Cer], [Server(RemoteHost), Cer]]

  // ---------- the devices of all links ----------

  type DeviceLists = map<Link, seq<Node>>

  function DevicesIn(d: DeviceLists, l: Link): seq<Node> {
    if l in d then d[l] else []
  }

  ghost predicate Installed(p: Plan, d: DeviceLists, l: Link) {
    p.Valid() && p.HasLink(l) && DevicesIn(d, l) == Devices(p, l)
  }

  lemma NothingInstalled(l: Link)
    ensures DevicesIn(map[], l) == []
  {}

  lemma AllInstalled(p: Plan, d: DeviceLists)
    requires Installed(p, d, PgwCer) && Installed(p, d, S5) && Installed(p, d, S11) && Installed(p, d, S1u)
    requires forall i | 0 <= i < p.N() :: Installed(p, d, RouterCer(i)) && Installed(p, d, P2p(i))
    requires forall i | 1 <= i < p.N() :: Installed(p, d, Wifi(i))
    requires forall k | 0 <= k < |SERVERS| :: Installed(p, d, ServerCer(k))
    ensures forall l | p.HasLink(l) && l != Epc :: Installed(p, d, l)
  {
    hide Installed;
  }

  class Ipv4Layer {
    const plan: Plan
    var devices: map<Link, seq<Node>>
    var nrUeDevices: seq<Node>
    var stacks: map<Node, Stack>

    // results of the address assignment that later loops use
    var routerCerIps: seq<Address>
    var cerRouterIfIndex: seq<nat>
    var pgwAddr: Address
    var cerPgwIfIndex: nat
    var wifiNetworkBases: seq<Address>
    var remoteHostAddress: Address

    constructor (plan: Plan)
      requires plan.Valid()
      ensures this.plan == plan
      ensures At(plan, stacks, START)
    {
      this.plan := plan;
      devices, nrUeDevices, stacks := map[], [], map[];
      routerCerIps, cerRouterIfIndex, wifiNetworkBases := [], [], [];
      pgwAddr, cerPgwIfIndex, remoteHostAddress := ANY, 0, ANY;
      new;
      forall n | plan.HasNode(n)
        ensures StackIn(stacks, n) == StackAt(plan, START, n)
      {
        FreshCut(plan, n);
      }
    }

    // ---------- devices ----------

    method ConfigureDataLinkLayer()
      requires At(plan, stacks, START)
      modifies this`devices, this`nrUeDevices, this`stacks
      ensures forall l | plan.HasLink(l) && l != Epc :: Installed(plan, devices, l)
      ensures DevicesIn(devices, Wifi(0)) == []
      ensures nrUeDevices == Devices(plan, Epc)[1..]
      ensures At(plan, stacks, CORE_BUILT)
    {
      hide At, FinalStack, Devices, DevicesIn;
      devices := map[];
      NothingInstalled(Wifi(0));
      ConfigureWifiDevices();
      ConfigureNrForAp0();
      ConfigureP2PDevices();
      ConfigureRouterCerLinks();
      ConfigureServerCerLinks();
      ConfigurePgwCerLink();
      AllInstalled(plan, devices);
    }

    method ConfigureWifiDevices()
      requires plan.Valid()
      modifies this`devices
      ensures forall i | 1 <= i < plan.N() :: Installed(plan, devices, Wifi(i))
      ensures forall l: Link | !l.Wifi? || l.i == 0 :: DevicesIn(devices, l) == DevicesIn(old(devices), l)
    {
      for i := 0 to plan.N()
        invariant forall k | 1 <= k < i :: Installed(plan, devices, Wifi(k))
        invariant forall l: Link | !l.Wifi? || l.i == 0 :: DevicesIn(devices, l) == DevicesIn(old(devices), l)
      {
        if i == 0 {
          continue;
        }
        ConfigureLTE(i);
      }
    }

    /** The access point's device first, then one per station in container order. */
    method ConfigureLTE(count: nat)
      requires plan.Valid() && 1 <= count < plan.N()
      modifies this`devices
      ensures devices == old(devices)[Wifi(count) := Devices(plan, Wifi(count))]
    {
      var installed := [Ap(count)];
      for j := 1 to plan.sizes[count]
        invariant installed == Devices(plan, Wifi(count))[..j]
      {
        installed := installed + [Station(count, j)];
      }
      assert installed == Devices(plan, Wifi(count));
      devices := devices[Wifi(count) := installed];
    }

    /** The core network, then the base station, then the user equipments. */
    method ConfigureNrForAp0()
      requires At(plan, stacks, START)
      modifies this`devices, this`nrUeDevices, this`stacks
      ensures nrUeDevices == Devices(plan, Epc)[1..]
      ensures Installed(plan, devices, S5) && Installed(plan, devices, S11) && Installed(plan, devices, S1u)
      ensures forall l | !InCore(l) :: DevicesIn(devices, l) == DevicesIn(old(devices), l)
      ensures At(plan, stacks, CORE_BUILT)
    {
      hide At, FinalStack, Devices;
      CreateEpc();
      AddGnb();
      InstallUeDevice();
    }

    method InstallUeDevice()
      requires plan.Valid()
      modifies this`nrUeDevices
      ensures nrUeDevices == Devices(plan, Epc)[1..]
    {
      nrUeDevices := [];
      for j := 1 to plan.sizes[0]
        invariant nrUeDevices == Devices(plan, Epc)[1..j]
      {
        nrUeDevices := nrUeDevices + [Station(0, j)];
      }
      assert Devices(plan, Epc)[1..plan.sizes[0]] == Devices(plan, Epc)[1..];
    }

    /** The packet gateway gets its tunnel with the first address of 7.0.0.0/8, then the links
        between the gateways and to the mobility manager. */
    method CreateEpc()
      requires At(plan, stacks, START)
      modifies this`devices, this`stacks
      ensures devices == old(devices)[S5 := Devices(plan, S5)][S11 := Devices(plan, S11)]
      ensures At(plan, stacks, START.(core := 3))
    {
      hide FinalStack, AddressOn, IfaceOn, Connected, Cut, StackAt, At, Has, NextIs, StackIn, Assigned;
      CoreEnds(plan);
      AddTunnel();
      devices := devices[S5 := [Pgw, Sgw]];
      AddCoreLink(S5, Quad(14, 0, 0, 0), 1, Pgw, 2);
      devices := devices[S11 := [Mme, Sgw]];
      AddCoreLink(S11, Quad(13, 0, 0, 0), 2, Mme, 1);
    }

    method AddTunnel()
      requires At(plan, stacks, START)
      modifies this`stacks
      ensures At(plan, stacks, START.(core := 1))
    {
      hide FinalStack, AddressOn, IfaceOn, Connected, Cut, StackAt, At, Has, NextIs, StackIn, Assigned;
      Reached(plan, stacks, START, Pgw);
      TunnelAssigned(plan, stacks);
      var _ := Assign(Epc, Quad(7, 0, 0, 0), 8, [Pgw], 1);
      Advanced(plan, old(stacks), stacks, START, START.(core := 1), Pgw, Pgw);
    }

    /** A link of the core network is on the second network of its address helper; its far end is
        the serving gateway, the near end n gets its interface at. */
    method AddCoreLink(l: Link, base: Address, ghost step: nat, ghost n: Node, ghost at: nat)
      requires 1 <= step <= 3 && At(plan, stacks, START.(core := step)) && Installed(plan, devices, l)
      requires (l, base, n, at) == CoreLinkAt(step)
      modifies this`stacks
      ensures At(plan, stacks, START.(core := step + 1))
    {
      hide FinalStack, AddressOn, IfaceOn, Connected, Cut, StackAt, At, Has, NextIs, StackIn, Devices;
      ghost var g0, g1 := START.(core := step), START.(core := step + 1);
      Reached(plan, stacks, g0, n);
      Reached(plan, stacks, g0, Sgw);
      CorePlan(plan, step);
      CoreEnds(plan);
      var _ := AssignEnds(l, base + 4, 30, n, at, at, Sgw, step, step);
      Advanced(plan, old(stacks), stacks, g0, g1, n, Sgw);
    }

    /** Access point 0 becomes the base station. */
    method AddGnb()
      requires At(plan, stacks, START.(core := 3))
      modifies this`devices, this`stacks
      ensures devices == old(devices)[S1u := Devices(plan, S1u)]
      ensures At(plan, stacks, CORE_BUILT)
    {
      hide At;
      CoreEnds(plan);
      devices := devices[S1u := [Ap(0), Sgw]];
      AddCoreLink(S1u, Quad(10, 0, 0, 0), 3, Ap(0), 1);
    }

    method ConfigureP2PDevices()
      requires plan.Valid()
      modifies this`devices
      ensures forall i | 0 <= i < plan.N() :: Installed(plan, devices, P2p(i))
      ensures forall l: Link | !l.P2p? :: DevicesIn(devices, l) == DevicesIn(old(devices), l)
    {
      for i := 0 to plan.N()
        invariant forall k | 0 <= k < i :: Installed(plan, devices, P2p(k))
        invariant forall l: Link | !l.P2p? :: DevicesIn(devices, l) == DevicesIn(old(devices), l)
      {
        devices := devices[P2p(i) := [Ap(i), Router(i)]];
      }
    }

    method ConfigureRouterCerLinks()
      requires plan.Valid()
      modifies this`devices
      ensures forall i | 0 <= i < plan.N() :: Installed(plan, devices, RouterCer(i))
      ensures forall l: Link | !l.RouterCer? :: DevicesIn(devices, l) == DevicesIn(old(devices), l)
    {
      for i := 0 to plan.N()
        invariant forall k | 0 <= k < i :: Installed(plan, devices, RouterCer(k))
        invariant forall l: Link | !l.RouterCer? :: DevicesIn(devices, l) == DevicesIn(old(devices), l)
      {
        devices := devices[RouterCer(i) := [Router(i), Cer]];
      }
    }

    method ConfigureServerCerLinks()
      requires plan.Valid()
      modifies this`devices
      ensures forall k | 0 <= k < |SERVERS| :: Installed(plan, devices, ServerCer(k))
      ensures forall l: Link | !l.ServerCer? :: DevicesIn(devices, l) == DevicesIn(old(devices), l)
    {
      for k := 0 to |SERVER_CER_NODES|
        invariant forall i | 0 <= i < k :: Installed(plan, devices, ServerCer(i))
        invariant forall l: Link | !l.ServerCer? :: DevicesIn(devices, l) == DevicesIn(old(devices), l)
      {
        devices := devices[ServerCer(k) := SERVER_CER_NODES[k]];
      }
    }

    method ConfigurePgwCerLink()
      requires plan.Valid()
      modifies this`devices
      ensures Installed(plan, devices, PgwCer)
      ensures forall l: Link | l != PgwCer :: DevicesIn(devices, l) == DevicesIn(old(devices), l)
    {
      devices := devices[PgwCer := [Pgw, Cer]];
    }

    // ---------- stacks ----------

    /** Addresses first, first + 1, ... of a subnet go to the devices in order; each node gets the
        interface and the connected route. */
    method Assign(l: Link, base: Address, len: PrefixLength, devs: seq<Node>, first: nat) returns (addrs: seq<Address>)
      requires base + first + |devs| < 0x1_0000_0000
      modifies this`stacks
      ensures |addrs| == |devs| && forall k | 0 <= k < |devs| :: addrs[k] == base + first + k
      ensures stacks == Assigned(old(stacks), l, base + first, len, devs)
    {
      addrs := [];
      for k := 0 to |devs|
        invariant |addrs| == k && forall i | 0 <= i < k :: addrs[i] == base + first + i
        invariant stacks == Assigned(old(stacks), l, base + first, len, devs[..k])
      {
        var a: Address := base + first + k;
        stacks := stacks[devs[k] := Attached(StackIn(stacks, devs[k]), l, a, len)];
        addrs := addrs + [a];
        assert devs[..k + 1][..k] == devs[..k];
      }
      assert devs[..|devs|] == devs;
    }

    /** Addressing a link with two devices takes each end, x and y, one interface and one route
        further. */
    method AssignEnds(l: Link, base: Address, len: PrefixLength, ghost x: Node, ghost xIfaces: nat, ghost xRoutes: nat,
                      ghost y: Node, ghost yIfaces: nat, ghost yRoutes: nat)
      returns (ips: seq<Address>)
      requires plan.Valid() && plan.HasLink(l) && DevicesIn(devices, l) == Devices(plan, l) == [x, y] && x != y
      requires base == SubnetBase(plan, l) && len == SubnetLength(l)
      requires Ready(plan, stacks, x, xIfaces, xRoutes, l, 0) && Ready(plan, stacks, y, yIfaces, yRoutes, l, 1)
      modifies this`stacks
      ensures ips == [AddressOn(plan, l, 0), AddressOn(plan, l, 1)]
      ensures Has(plan, stacks, x, xIfaces + 1, xRoutes + 1) && Has(plan, stacks, y, yIfaces + 1, yRoutes + 1)
      ensures OnlyChanged(old(stacks), stacks, x, y)
    {
      hide FinalStack, AddressOn, SubnetBase, SubnetLength, Has, Ready, OnlyChanged;
      AddressesFollow(plan, l);
      AssignedEnds(plan, stacks, l, x, xIfaces, xRoutes, y, yIfaces, yRoutes);
      ips := Assign(l, base, len, DevicesIn(devices, l), 1);
    }

    /** Adding the next route of a node's table takes it one route further. */
    method AddNextRoute(n: Node, r: Route, ghost a: nat, ghost b: nat)
      requires Has(plan, stacks, n, a, b) && b < |FinalStack(plan, n).routes| && r == FinalStack(plan, n).routes[b]
      modifies this`stacks
      ensures Has(plan, stacks, n, a, b + 1)
      ensures OnlyChanged(old(stacks), stacks, n, n)
    {
      hide FinalStack;
      RouteExtends(plan, n, a, b);
      AddNetworkRouteTo(n, r);
    }

    /** The search finds the one interface a node has on a link. */
    method InterfaceOn(n: Node, l: Link, ghost a: nat, ghost b: nat, ghost k: nat) returns (index: int)
      requires Has(plan, stacks, n, a, b) && k < a && FinalStack(plan, n).ifaces[k].link == l
      ensures index == k
    {
      hide FinalStack;
      index := GetInterfaceForDevice(n, l);
      FoundInterface(plan, n, a, b, l, k, index);
    }

    method AddNetworkRouteTo(n: Node, r: Route)
      modifies this`stacks
      ensures StackIn(stacks, n) == StackIn(old(stacks), n).(routes := WithRoute(StackIn(old(stacks), n).routes, r))
      ensures StackIn(stacks, n).ifaces == StackIn(old(stacks), n).ifaces
      ensures StackIn(stacks, n).routes ==
              StackIn(old(stacks), n).routes + if r in StackIn(old(stacks), n).routes then [] else [r]
      ensures forall m | m != n :: StackIn(stacks, m) == StackIn(old(stacks), m)
    {
      var st := StackIn(stacks, n);
      if r !in st.routes {
        st := st.(routes := st.routes + [r]);
      }
      stacks := stacks[n := st];
    }

    /** The index of the first interface on a link, or -1. */
    method GetInterfaceForDevice(n: Node, l: Link) returns (index: int)
      ensures -1 <= index < |StackIn(stacks, n).ifaces|
      ensures index == -1 ==> forall k | 0 <= k < |StackIn(stacks, n).ifaces| :: StackIn(stacks, n).ifaces[k].link != l
      ensures index >= 0 ==> StackIn(stacks, n).ifaces[index].link == l
      ensures index >= 0 ==> forall k | 0 <= k < index :: StackIn(stacks, n).ifaces[k].link != l
    {
      var st := StackIn(stacks, n);
      for k := 0 to |st.ifaces|
        invariant forall q | 0 <= q < k :: st.ifaces[q].link != l
      {
        if st.ifaces[k].link == l {
          return k;
        }
      }
      return -1;
    }

    // ---------- the loops of ConfigureNetworkLayer ----------

    method ConfigureNetworkLayer()
      requires At(plan, stacks, CORE_BUILT)
      requires forall l | plan.HasLink(l) && l != Epc :: Installed(plan, devices, l)
      requires DevicesIn(devices, Wifi(0)) == [] && nrUeDevices == Devices(plan, Epc)[1..]
      modifies this
      ensures forall n | plan.HasNode(n) :: StackIn(stacks, n) == FinalStack(plan, n)
      ensures remoteHostAddress == Quad(10, 201, 6, 1)
    {
      hide FinalStack, Devices, AddressOn, At, Installed, DevicesIn;
      ConnectRouters();
      ConnectServers();
      ConnectPgw();
      ConnectAccessPoints();
      ConfigureNrIpAfterNetwork();
      AddCerRoutes();
      Finished(plan, stacks);
    }

    predicate RouterResults(k: nat)
      requires plan.Valid() && k <= plan.N()
      reads this`routerCerIps, this`cerRouterIfIndex
    {
      && |routerCerIps| == |cerRouterIfIndex| == plan.N()
      && forall i | 0 <= i < k :: routerCerIps[i] == AddressOn(plan, RouterCer(i), 0) && cerRouterIfIndex[i] == i + 1
    }

    method ConnectRouters()
      requires At(plan, stacks, CORE_BUILT)
      requires forall i | 0 <= i < plan.N() :: Installed(plan, devices, RouterCer(i))
      modifies this`stacks, this`routerCerIps, this`cerRouterIfIndex
      ensures At(plan, stacks, Progress(4, plan.N(), 0, false, 0, false, plan.N()))
      ensures RouterResults(plan.N())
    {
      hide FinalStack, At, AddressOn, Devices;
      routerCerIps := seq(plan.N(), _ => ANY);
      cerRouterIfIndex := seq(plan.N(), _ => 0);
      for i := 0 to plan.N()
        invariant At(plan, stacks, Progress(4, i, 0, false, 0, false, i))
        invariant RouterResults(i)
      {
        ConnectRouter(i);
      }
    }

    method ConnectRouter(i: nat)
      requires plan.Valid() && i < plan.N() && At(plan, stacks, Progress(4, i, 0, false, 0, false, i))
      requires Installed(plan, devices, RouterCer(i)) && RouterResults(i)
      modifies this`stacks, this`routerCerIps, this`cerRouterIfIndex
      ensures At(plan, stacks, Progress(4, i + 1, 0, false, 0, false, i + 1))
      ensures RouterResults(i + 1)
    {
      hide FinalStack, AddressOn, IfaceOn, Connected, Cut, StackAt, At, NextIs, Quad, StackIn, Devices;
      ghost var g0, g1 := Progress(4, i, 0, false, 0, false, i), Progress(4, i + 1, 0, false, 0, false, i + 1);
      Reached(plan, stacks, g0, Router(i));
      Reached(plan, stacks, g0, Cer);
      RouterPlan(plan, i);
      CerPlan(plan, RouterCer(i), i + 1);
      EndsOf(plan, RouterCer(i));
      var ips := AssignEnds(RouterCer(i), Quad(10, 200, i + 1, 0), 30, Router(i), 1, 1, Cer, i + 1, i + 1);
      routerCerIps := routerCerIps[i := ips[0]];
      var routerIf := InterfaceOn(Router(i), RouterCer(i), 2, 2, 1);
      if routerIf >= 0 {
        AddNextRoute(Router(i), Default(ips[1], routerIf), 2, 2);
      }
      var cerIf := InterfaceOn(Cer, RouterCer(i), i + 2, i + 2, i + 1);
      if cerIf >= 0 {
        cerRouterIfIndex := cerRouterIfIndex[i := cerIf];
      }
      Advanced(plan, old(stacks), stacks, g0, g1, Router(i), Cer);
    }

    method ConnectServers()
      requires At(plan, stacks, Progress(4, plan.N(), 0, false, 0, false, plan.N()))
      requires forall k | 0 <= k < |SERVERS| :: Installed(plan, devices, ServerCer(k))
      modifies this`stacks, this`remoteHostAddress
      ensures At(plan, stacks, Progress(4, plan.N(), 6, false, 0, false, plan.N() + 6))
      ensures remoteHostAddress == Quad(10, 201, 6, 1)
    {
      hide FinalStack, At, AddressOn, Quad;
      var serverNodes := [Server(Rtt), Server(UdpVideo), Server(UdpVoice),
                          Server(Streaming), Server(Browser), Server(RemoteHost)];
      remoteHostAddress := ANY;
      for k := 0 to |serverNodes|
        invariant At(plan, stacks, Progress(4, plan.N(), k, false, 0, false, plan.N() + k))
        invariant k == 6 ==> remoteHostAddress == Quad(10, 201, 6, 1)
      {
        ConnectServer(k, serverNodes[k]);
      }
    }

    method ConnectServer(k: nat, serverNode: Node)
      requires k < |SERVERS| && serverNode == Server(SERVERS[k])
      requires At(plan, stacks, Progress(4, plan.N(), k, false, 0, false, plan.N() + k))
      requires Installed(plan, devices, ServerCer(k))
      modifies this`stacks, this`remoteHostAddress
      ensures At(plan, stacks, Progress(4, plan.N(), k + 1, false, 0, false, plan.N() + k + 1))
      ensures var st := StackIn(stacks, serverNode);
              && |st.ifaces| == 2 && |st.routes| == 3
              && st.ifaces[1] == Iface(ServerCer(k), Quad(10, 201, k + 1, 1), 30, Quad(10, 201, k + 1, 3))
              && st.routes[2] == Route(ANY, 0, Quad(10, 201, k + 1, 2), 1)
      ensures remoteHostAddress ==
                if serverNode == Server(RemoteHost) then Quad(10, 201, k + 1, 1) else old(remoteHostAddress)
    {
      hide FinalStack, AddressOn, IfaceOn, Connected, Cut, StackAt, At, NextIs, Quad, StackIn, Devices;
      ghost var n := plan.N();
      ghost var g0, g1 := Progress(4, n, k, false, 0, false, n + k), Progress(4, n, k + 1, false, 0, false, n + k + 1);
      ServerIndexUnique(k);
      Reached(plan, stacks, g0, serverNode);
      Reached(plan, stacks, g0, Cer);
      ServerPlan(plan, SERVERS[k]);
      CerPlan(plan, ServerCer(k), n + k + 1);
      EndsOf(plan, ServerCer(k));
      var ips := AssignEnds(ServerCer(k), Quad(10, 201, k + 1, 0), 30, serverNode, 1, 1, Cer, n + k + 1, n + k + 1);
      var srvIf := InterfaceOn(serverNode, ServerCer(k), 2, 2, 1);
      if srvIf >= 0 {
        AddNextRoute(serverNode, Default(ips[1], srvIf), 2, 2);
      }
      ServerFinished(plan, stacks, k);
      if serverNode == Server(RemoteHost) {
        remoteHostAddress := ips[0];
      }
      Advanced(plan, old(stacks), stacks, g0, g1, serverNode, Cer);
    }

    predicate PgwResults()
      requires plan.Valid()
      reads this`pgwAddr, this`cerPgwIfIndex
    {
      pgwAddr == AddressOn(plan, PgwCer, 0) && cerPgwIfIndex == plan.N() + 7
    }

    method ConnectPgw()
      requires At(plan, stacks, Progress(4, plan.N(), 6, false, 0, false, plan.N() + 6))
      requires Installed(plan, devices, PgwCer)
      modifies this`stacks, this`pgwAddr, this`cerPgwIfIndex
      ensures At(plan, stacks, Rounds(plan, 0)) && PgwResults()
    {
      hide FinalStack, AddressOn, IfaceOn, Connected, Cut, StackAt, At, NextIs, Quad, StackIn, Devices;
      ghost var n := plan.N();
      ghost var g0, g1 := Progress(4, n, 6, false, 0, false, n + 6), Progress(4, n, 6, true, 0, false, n + 7);
      Reached(plan, stacks, g0, Pgw);
      Reached(plan, stacks, g0, Cer);
      PgwPlan(plan);
      CerPlan(plan, PgwCer, n + 7);
      EndsOf(plan, PgwCer);
      var ips := AssignEnds(PgwCer, Quad(10, 202, 0, 0), 30, Pgw, 3, 3, Cer, n + 7, n + 7);
      pgwAddr := ips[0];
      var pgwIf := InterfaceOn(Pgw, PgwCer, 4, 4, 3);
      if pgwIf >= 0 {
        AddNextRoute(Pgw, Default(ips[1], pgwIf), 4, 4);
        AddNextRoute(Pgw, Route(Quad(10, 201, 0, 0), 20, ips[1], pgwIf), 4, 5);
      }
      var cerIf := InterfaceOn(Cer, PgwCer, n + 8, n + 8, n + 7);
      if cerIf >= 0 {
        cerPgwIfIndex := cerIf;
      }
      Advanced(plan, old(stacks), stacks, g0, g1, Pgw, Cer);
    }

    predicate WifiResults(k: nat)
      requires plan.Valid() && k <= plan.N()
      reads this`wifiNetworkBases
    {
      && |wifiNetworkBases| == plan.N()
      && forall i | 0 <= i < k :: wifiNetworkBases[i] == if i == 0 then ANY else SubnetBase(plan, Wifi(i))
    }

    method ConnectAccessPoints()
      requires At(plan, stacks, Rounds(plan, 0))
      requires forall i | 0 <= i < plan.N() :: Installed(plan, devices, P2p(i))
      requires forall i | 1 <= i < plan.N() :: Installed(plan, devices, Wifi(i))
      requires DevicesIn(devices, Wifi(0)) == []
      modifies this`stacks, this`wifiNetworkBases
      ensures At(plan, stacks, Rounds(plan, plan.N()))
      ensures WifiResults(plan.N())
    {
      hide FinalStack, At, Linked, AddressOn;
      wifiNetworkBases := seq(plan.N(), _ => ANY);
      for i := 0 to plan.N()
        invariant At(plan, stacks, Rounds(plan, i))
        invariant WifiResults(i)
        invariant forall k | i <= k < plan.N() :: wifiNetworkBases[k] == ANY
      {
        var apIp, routerIp, routerIf := LinkAccessPoint(i);
        if |DevicesIn(devices, Wifi(i))| == 0 {
          FirstRound(plan, stacks);
          continue;
        }
        wifiNetworkBases := wifiNetworkBases[i := Quad(10, 1, i, 0)];
        ConnectWifi(i, apIp, routerIp, routerIf);
      }
    }

    method LinkAccessPoint(i: nat) returns (apIp: Address, routerIp: Address, routerIf: nat)
      requires plan.Valid() && i < plan.N() && Installed(plan, devices, P2p(i)) && At(plan, stacks, Rounds(plan, i))
      modifies this`stacks
      ensures Linked(plan, stacks, i)
      ensures apIp == AddressOn(plan, P2p(i), 0) && routerIp == AddressOn(plan, P2p(i), 1) && routerIf == 2
    {
      hide FinalStack, AddressOn, IfaceOn, Connected, Cut, StackAt, At, NextIs, Quad, StackIn, Devices, Linked;
      Reached(plan, stacks, Rounds(plan, i), Ap(i));
      Reached(plan, stacks, Rounds(plan, i), Router(i));
      RouterPlan(plan, i);
      ApPlan(plan, i);
      EndsOf(plan, P2p(i));
      var ips := AssignEnds(P2p(i), Quad(10, 0, i + 1, 0), 24, Ap(i), LinkedUpTo(i) - 1, LinkedUpTo(i) - 1,
                            Router(i), 2, 3);
      apIp, routerIp, routerIf := ips[0], ips[1], 0;
      var outIf := InterfaceOn(Router(i), P2p(i), 3, 4, 2);
      if outIf >= 0 {
        routerIf := outIf;
      }
      LinkedNow(plan, old(stacks), stacks, i);
    }

    method ConnectWifi(i: nat, apIp: Address, routerIp: Address, routerIf: nat)
      requires 1 <= i && Linked(plan, stacks, i) && Installed(plan, devices, Wifi(i))
      requires apIp == AddressOn(plan, P2p(i), 0) && routerIp == AddressOn(plan, P2p(i), 1) && routerIf == 2
      modifies this`stacks
      ensures At(plan, stacks, Rounds(plan, i + 1))
    {
      hide FinalStack, AddressOn, IfaceOn, Connected, Cut, At, NextIs, StackIn, Devices, Assigned, Pending;
      var baseip: Address := Quad(10, 1, i, 0);
      ApPlan(plan, i);
      RouterPlan(plan, i);
      AccessRoom(plan, i);
      WifiAddressed(plan, stacks, i);
      var _ := Assign(Wifi(i), baseip, 24, DevicesIn(devices, Wifi(i)), 1);
      var apIf := InterfaceOn(Ap(i), P2p(i), 3, 3, 1);
      if apIf >= 0 {
        AddNextRoute(Ap(i), Default(routerIp, apIf), 3, 3);
      }
      if apIp != ANY {
        AddNextRoute(Router(i), Route(baseip, 24, apIp, routerIf), 3, 4);
      }
      StationsPending(plan, old(stacks), stacks, Rounds(plan, i), Rounds(plan, i + 1), i);
      ConnectStations(i, baseip);
    }

    method ConnectStations(i: nat, baseip: Address)
      requires 1 <= i && Pending(plan, stacks, Rounds(plan, i + 1), i, 1) && baseip == SubnetBase(plan, Wifi(i))
      modifies this`stacks
      ensures At(plan, stacks, Rounds(plan, i + 1))
    {
      hide FinalStack, At, StackIn, Devices, SubnetBase, Cut;
      for j := 1 to plan.sizes[i]
        invariant Pending(plan, stacks, Rounds(plan, i + 1), i, j)
      {
        ghost var before := stacks;
        assert Has(plan, stacks, Station(i, j), 2, 2);
        ConnectStation(i, j, baseip);
        PendingStep(plan, before, stacks, Rounds(plan, i + 1), i, j);
      }
      PendingDone(plan, stacks, Rounds(plan, i + 1), i, plan.sizes[i]);
    }

    /** The last interface whose address is in the subnet decides; 1 is the fallback. */
    method ConnectStation(i: nat, j: nat, baseip: Address)
      requires plan.Valid() && 1 <= i && plan.HasNode(Station(i, j)) && baseip == SubnetBase(plan, Wifi(i))
      requires Has(plan, stacks, Station(i, j), 2, 2)
      modifies this`stacks
      ensures Has(plan, stacks, Station(i, j), 2, 3)
      ensures OnlyChanged(old(stacks), stacks, Station(i, j), Station(i, j))
    {
      var st := StackIn(stacks, Station(i, j));
      var wifiIf := -1;
      for k := 0 to |st.ifaces|
        invariant -1 <= wifiIf < k
        invariant wifiIf == -1 ==> forall q | 0 <= q < k :: NetworkOf(st.ifaces[q].addr, 24) != baseip
        invariant wifiIf >= 0 ==> forall q | wifiIf < q < k :: NetworkOf(st.ifaces[q].addr, 24) != baseip
      {
        if NetworkOf(st.ifaces[k].addr, 24) == baseip {
          wifiIf := k;
        }
      }
      StationOnWifi(plan, i, j);
      StationPlan(plan, i, j);
      var outIf := if wifiIf >= 0 then wifiIf else 1;
      AddNextRoute(Station(i, j), Default(baseip + 1, outIf), 2, 2);
    }

    /** The user equipments continue the numbering behind the packet gateway's tunnel, and the
        helper gives each its default route. */
    method AssignUeIpv4Address()
      requires At(plan, stacks, Rounds(plan, plan.N())) && nrUeDevices == Devices(plan, Epc)[1..]
      modifies this`stacks
      ensures At(plan, stacks, Rounds(plan, plan.N()).(ues := true))
    {
      hide FinalStack, At, StackIn, Devices, AddressOn, Assigned, Cut;
      ghost var g := Rounds(plan, plan.N()).(ues := true);
      AccessRoom(plan, 0);
      UesAddressed(plan, stacks);
      var _ := Assign(Epc, Quad(7, 0, 0, 0), 8, nrUeDevices, 2);
      for k := 0 to |nrUeDevices|
        invariant Pending(plan, stacks, g, 0, k + 1)
      {
        ghost var before := stacks;
        AccessMembers(plan, 0, Cer);
        assert nrUeDevices[k] == Station(0, k + 1);
        assert Has(plan, stacks, Station(0, k + 1), 2, 2);
        StationPlan(plan, 0, k + 1);
        AddNextRoute(nrUeDevices[k], Default(Quad(7, 0, 0, 1), 1), 2, 2);
        PendingStep(plan, before, stacks, g, 0, k + 1);
      }
      PendingDone(plan, stacks, g, 0, |nrUeDevices| + 1);
    }

    /** The default routes are then set once more, which changes nothing. */
    method ConfigureNrIpAfterNetwork()
      requires At(plan, stacks, Rounds(plan, plan.N())) && nrUeDevices == Devices(plan, Epc)[1..]
      modifies this`stacks
      ensures At(plan, stacks, Rounds(plan, plan.N()).(ues := true))
    {
      hide FinalStack, At, StackIn, Devices, AddressOn, Cut;
      AssignUeIpv4Address();
      ghost var g := Rounds(plan, plan.N()).(ues := true);
      for k := 0 to |nrUeDevices|
        invariant At(plan, stacks, g)
      {
        ghost var before := stacks;
        AccessRoom(plan, 0);
        AccessMembers(plan, 0, Cer);
        assert nrUeDevices[k] == Station(0, k + 1);
        UeHasDefault(plan, stacks, g, k + 1);
        AddNetworkRouteTo(nrUeDevices[k], Default(Quad(7, 0, 0, 1), 1));
        StillAt(plan, before, stacks, g);
      }
    }

    method AddCerRoutes()
      requires At(plan, stacks, Progress(4, plan.N(), 6, true, plan.N(), true, plan.N() + 7))
      requires plan.Valid() && RouterResults(plan.N()) && PgwResults() && WifiResults(plan.N())
      modifies this`stacks
      ensures At(plan, stacks, Progress(4, plan.N(), 6, true, plan.N(), true, 2 * plan.N() + 7))
    {
      hide FinalStack, AddressOn, At, Has;
      var n := plan.N();
      for i := 0 to n
        invariant At(plan, stacks, Progress(4, n, 6, true, n, true, n + 7 + if i == 0 then 0 else i - 1))
      {
        if wifiNetworkBases[i] == ANY {
          continue;
        }
        if routerCerIps[i] == ANY {
          continue;
        }
        CerStaticRoutes(plan, i);
        AddCerRoute(Route(wifiNetworkBases[i], 24, routerCerIps[i], cerRouterIfIndex[i]), n + 6 + i);
      }
      CerStaticRoutes(plan, 0);
      AddCerRoute(Route(Quad(7, 0, 0, 0), 8, pgwAddr, cerPgwIfIndex), 2 * n + 6);
    }

    method AddCerRoute(r: Route, ghost k: nat)
      requires plan.Valid() && plan.N() + 7 <= k < 2 * plan.N() + 7
      requires At(plan, stacks, Progress(4, plan.N(), 6, true, plan.N(), true, k)) && r == CerRouteAt(plan, k + 1)
      modifies this`stacks
      ensures At(plan, stacks, Progress(4, plan.N(), 6, true, plan.N(), true, k + 1))
    {
      hide FinalStack, At, Has, CerIfaceAt, CerRouteAt;
      ghost var n := plan.N();
      ghost var g0, g1 := Progress(4, n, 6, true, n, true, k), Progress(4, n, 6, true, n, true, k + 1);
      Reached(plan, stacks, g0, Cer);
      CerStaticRoutes(plan, 0);
      CerRoutesAre(plan, k + 1);
      AddNextRoute(Cer, r, n + 8, k + 1);
      Advanced(plan, old(stacks), stacks, g0, g1, Cer, Cer);
    }
  }

  // ---------- what the next interface and route of each node are ----------

  /** The next interface of n is device j of l, and the next route its connected route. */
  ghost predicate NextIs(p: Plan, n: Node, a: nat, b: nat, l: Link, j: nat)
    requires p.Valid() && p.HasNode(n) && p.HasLink(l) && j < |Devices(p, l)|
  {
    && a < |FinalStack(p, n).ifaces| && b < |FinalStack(p, n).routes|
    && FinalStack(p, n).ifaces[a] == IfaceOn(p, l, j) && FinalStack(p, n).routes[b] == Connected(p, l, a)
  }

  lemma EndsOf(p: Plan, l: Link)
    requires p.Valid() && p.HasLink(l) && PointToPoint(l)
    ensures |Devices(p, l)| == 2
    ensures l.RouterCer? ==> Devices(p, l) == [Router(l.i), Cer]
    ensures l.ServerCer? ==> Devices(p, l) == [Server(SERVERS[l.k]), Cer]
    ensures l.PgwCer? ==> Devices(p, l) == [Pgw, Cer]
    ensures l.P2p? ==> Devices(p, l) == [Ap(l.i), Router(l.i)]
  {}

  lemma AddressesFollow(p: Plan, l: Link)
    requires p.Valid() && p.HasLink(l)
    ensures forall j | 0 <= j < |Devices(p, l)| :: AddressOn(p, l, j) == SubnetBase(p, l) + 1 + j
    ensures SubnetBase(p, l) + 1 + |Devices(p, l)| < 0x1_0000_0000
  {}

  lemma CerPlan(p: Plan, l: Link, k: nat)
    requires p.Valid() && 1 <= k < p.N() + 8 && l == CerLink(p, k)
    ensures NextIs(p, Cer, k, k, l, 1)
    ensures |FinalStack(p, Cer).ifaces| == p.N() + 8 && |FinalStack(p, Cer).routes| == 2 * p.N() + 8
    ensures FinalStack(p, Cer).ifaces[k].link == l
  {}

  lemma CerStaticRoutes(p: Plan, i: nat)
    requires p.Valid() && i < p.N()
    ensures 1 <= i ==>
              (CerRouteAt(p, p.N() + 7 + i) ==
               Route(SubnetBase(p, Wifi(i)), 24, AddressOn(p, RouterCer(i), 0), i + 1))
    ensures |FinalStack(p, Cer).routes| == 2 * p.N() + 8
    ensures CerRouteAt(p, 2 * p.N() + 7) == Route(Quad(7, 0, 0, 0), 8, AddressOn(p, PgwCer, 0), p.N() + 7)
  {}

  lemma CerRoutesAre(p: Plan, k: nat)
    requires p.Valid() && k < |FinalStack(p, Cer).routes|
    ensures |FinalStack(p, Cer).routes| == 2 * p.N() + 8 && FinalStack(p, Cer).routes[k] == CerRouteAt(p, k)
  {}

  lemma RouterPlan(p: Plan, i: nat)
    requires p.Valid() && i < p.N()
    ensures NextIs(p, Router(i), 1, 1, RouterCer(i), 0) && NextIs(p, Router(i), 2, 3, P2p(i), 1)
    ensures var st := FinalStack(p, Router(i));
            && |st.ifaces| == 3 && st.ifaces[1].link == RouterCer(i) && st.ifaces[2].link == P2p(i)
            && |st.routes| == (if i == 0 then 4 else 5) && st.routes[2] == Default(AddressOn(p, RouterCer(i), 1), 1)
            && (i > 0 ==> st.routes[4] == Route(Quad(10, 1, i, 0), 24, AddressOn(p, P2p(i), 0), 2))
  {}

  lemma ServerPlan(p: Plan, s: ServerName)
    requires p.Valid()
    ensures NextIs(p, Server(s), 1, 1, ServerCer(ServerIndex(s)), 0)
    ensures var st := FinalStack(p, Server(s));
            && |st.ifaces| == 2 && |st.routes| == 3 && st.ifaces[1].link == ServerCer(ServerIndex(s))
            && st.routes[2] == Default(AddressOn(p, ServerCer(ServerIndex(s)), 1), 1)
  {}

  /** A server that has its interface and its three routes is finished. */
  lemma ServerFinished(p: Plan, s: Stacks, k: nat)
    requires k < |SERVERS| && Has(p, s, Server(SERVERS[k]), 2, 3)
    ensures var st := StackIn(s, Server(SERVERS[k]));
            && |st.ifaces| == 2 && |st.routes| == 3
            && st.ifaces[1] == Iface(ServerCer(k), Quad(10, 201, k + 1, 1), 30, Quad(10, 201, k + 1, 3))
            && st.routes[2] == Route(ANY, 0, Quad(10, 201, k + 1, 2), 1)
    ensures AddressOn(p, ServerCer(k), 0) == Quad(10, 201, k + 1, 1)
  {
    hide StackIn;
    ServerInDotted(p, k);
    ServerPlan(p, SERVERS[k]);
    CutWhole(FinalStack(p, Server(SERVERS[k])));
  }

  lemma PgwPlan(p: Plan)
    requires p.Valid()
    ensures NextIs(p, Pgw, 3, 3, PgwCer, 0)
    ensures var st := FinalStack(p, Pgw);
            && |st.ifaces| == 4 && |st.routes| == 6 && st.ifaces[3].link == PgwCer
            && st.routes[4] == Default(AddressOn(p, PgwCer, 1), 3)
            && st.routes[5] == Route(Quad(10, 201, 0, 0), 20, AddressOn(p, PgwCer, 1), 3)
  {}

  /** The link of the core network that is added as number step: its helper's base address, its near
      end, and the index its interface gets there. */
  function CoreLinkAt(step: nat): (Link, Address, Node, nat)
    requires 1 <= step <= 3
  {
    if step == 1 then (S5, Quad(14, 0, 0, 0), Pgw, 2)
    else if step == 2 then (S11, Quad(13, 0, 0, 0), Mme, 1)
    else (S1u, Quad(10, 0, 0, 0), Ap(0), 1)
  }

  lemma CorePlan(p: Plan, step: nat)
    requires p.Valid() && 1 <= step <= 3
    ensures var (l, base, n, at) := CoreLinkAt(step);
            && NextIs(p, n, at, at, l, 0) && NextIs(p, Sgw, step, step, l, 1)
            && base + 4 == SubnetBase(p, l) && SubnetLength(l) == 30
  {}

  lemma CoreEnds(p: Plan)
    requires p.Valid()
    ensures p.HasLink(S5) && p.HasLink(S11) && p.HasLink(S1u)
    ensures Devices(p, S5) == [Pgw, Sgw] && Devices(p, S11) == [Mme, Sgw] && Devices(p, S1u) == [Ap(0), Sgw]
  {}

  /** What addressing the tunnel does. */
  lemma {:induction false} TunnelAssigned(p: Plan, s: Stacks)
    requires Has(p, s, Pgw, 1, 1)
    ensures var t := Assigned(s, Epc, Quad(7, 0, 0, 1), 8, [Pgw]);
            Has(p, t, Pgw, 2, 2) && OnlyChanged(s, t, Pgw, Pgw)
  {
    hide Cut;
    AssignedOnce(s, Epc, Quad(7, 0, 0, 1), 8, [Pgw]);
    assert [Pgw][0] == Pgw;
    AttachExtends(p, Pgw, 1, 1, Epc, 0);
  }

  lemma UeHasDefault(p: Plan, s: Stacks, g: Progress, q: nat)
    requires At(p, s, g) && g.ues && 1 <= q < p.sizes[0]
    ensures Default(Quad(7, 0, 0, 1), 1) in StackIn(s, Station(0, q)).routes
  {
    hide FinalStack, StackIn;
    Reached(p, s, g, Station(0, q));
    StationPlan(p, 0, q);
    assert StackIn(s, Station(0, q)).routes[2] == Default(Quad(7, 0, 0, 1), 1);
  }

  lemma StillAt(p: Plan, s: Stacks, t: Stacks, g: Progress)
    requires At(p, s, g) && forall n :: StackIn(t, n) == StackIn(s, n)
    ensures At(p, t, g)
  {
    hide StackIn, StackAt;
  }

  lemma ApPlan(p: Plan, i: nat)
    requires p.Valid() && i < p.N()
    ensures NextIs(p, Ap(i), LinkedUpTo(i) - 1, LinkedUpTo(i) - 1, P2p(i), 0)
    ensures i > 0 ==> NextIs(p, Ap(i), 2, 2, Wifi(i), 0)
    ensures var st := FinalStack(p, Ap(i));
            && |st.ifaces| == 3 && st.ifaces[LinkedUpTo(i) - 1].link == P2p(i)
            && |st.routes| == (if i == 0 then 3 else 4)
            && (i > 0 ==> st.routes[3] == Default(AddressOn(p, P2p(i), 1), 1))
  {}

  lemma StationPlan(p: Plan, i: nat, q: nat)
    requires p.Valid() && i < p.N() && 1 <= q < p.sizes[i]
    ensures NextIs(p, Station(i, q), 1, 1, AccessLink(i), q)
    ensures var st := FinalStack(p, Station(i, q));
            |st.ifaces| == 2 && |st.routes| == 3 && st.routes[2] == Default(SubnetBase(p, AccessLink(i)) + 1, 1)
  {}

  lemma WifiAddressed(p: Plan, s: Stacks, i: nat)
    requires Linked(p, s, i) && 1 <= i
    ensures Has(p, AccessAssigned(p, s, i), Ap(i), 3, 3) && Has(p, AccessAssigned(p, s, i), Router(i), 3, 4)
  {
    hide FinalStack, Devices, AccessAssigned, StackIn;
    ApPlan(p, i);
    AccessMembers(p, i, Router(i));
    AccessDevice(p, s, i, 0, 2, 2);
    AccessAssignedOnce(p, s, i, Router(i));
  }

  lemma UesAddressed(p: Plan, s: Stacks)
    requires At(p, s, Rounds(p, p.N()))
    ensures Pending(p, AccessAssigned(p, s, 0), Rounds(p, p.N()).(ues := true), 0, 1)
  {
    hide FinalStack, Devices, AccessAssigned, StackIn;
    var g := Rounds(p, p.N());
    Reached(p, s, g, Ap(0));
    Reached(p, s, g, Router(0));
    AccessMembers(p, 0, Ap(0));
    AccessMembers(p, 0, Router(0));
    AccessAssignedOnce(p, s, 0, Ap(0));
    AccessAssignedOnce(p, s, 0, Router(0));
    StationsPending(p, s, AccessAssigned(p, s, 0), g, g.(ues := true), 0);
  }

  lemma StationOnWifi(p: Plan, i: nat, j: nat)
    requires p.Valid() && 1 <= i && p.HasNode(Station(i, j))
    ensures var st := FinalStack(p, Station(i, j));
            |st.ifaces| == 2 && NetworkOf(st.ifaces[1].addr, 24) == SubnetBase(p, Wifi(i))
  {
    SizeValues();
    AlignedInterval(SubnetBase(p, Wifi(i)), AddressOn(p, Wifi(i), j), 0x100);
  }

  /** The search for the interface of a link returns the one that is there. */
  lemma FoundInterface(p: Plan, n: Node, a: nat, b: nat, l: Link, k: nat, found: int)
    requires p.Valid() && p.HasNode(n)
    requires k < a <= |FinalStack(p, n).ifaces| && b <= |FinalStack(p, n).routes|
    requires FinalStack(p, n).ifaces[k].link == l
    requires var ifaces := Cut(FinalStack(p, n), a, b).ifaces;
             && -1 <= found < |ifaces|
             && (found == -1 ==> forall q | 0 <= q < |ifaces| :: ifaces[q].link != l)
             && (found >= 0 ==> ifaces[found].link == l)
    ensures found == k
  {
    var ifaces := Cut(FinalStack(p, n), a, b).ifaces;
    assert ifaces[k].link == l;
    OneIfacePerLink(p, n, k, found);
  }

  lemma Finished(p: Plan, s: Stacks)
    requires At(p, s, Progress(4, p.N(), 6, true, p.N(), true, 2 * p.N() + 7))
    ensures forall n | p.HasNode(n) :: StackIn(s, n) == FinalStack(p, n)
  {
    forall n | p.HasNode(n)
      ensures StackIn(s, n) == FinalStack(p, n)
    {
      CutWhole(FinalStack(p, n));
    }
  }
}
