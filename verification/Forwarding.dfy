/**
 Forwarding over the finished fabric: one hop at a node, the trace of hops, and where traces end.
 */
module Forwarding {
  import opened Wrappers
  import opened Ipv4
  import opened Fabric

  // ---------- lookups in the finished tables ----------

  /** A route to the subnet of a link matches the addresses of that subnet. */
  lemma LinkRouteMatches(p: Plan, l: Link, r: Route, d: Address)
    requires p.Valid() && p.HasSubnet(l) && r.dest == SubnetBase(p, l) && r.len == SubnetLength(l)
    ensures Matches(r, d) <==> InSubnet(p, l, d)
  {
    SubnetSizes(p, l);
    MatchesInterval(r, d);
  }

  lemma DefaultMatches(gateway: Address, iface: nat, d: Address)
    ensures Matches(Default(gateway, iface), d)
  {
    SizeValues();
    MatchesInterval(Default(gateway, iface), d);
  }

  lemma ToServersMatches(gateway: Address, iface: nat, d: Address)
    ensures Matches(ToServers(gateway, iface), d) <==> Quad(10, 201, 0, 0) <= d < Quad(10, 201, 16, 0)
  {
    SizeValues();
    MatchesInterval(ToServers(gateway, iface), d);
  }

  lemma {:induction false} CerBest(p: Plan, d: Address, k: nat)
    requires p.Valid() && k < 2 * p.N() + 8 && InSubnet(p, CerLink(p, k), d)
    ensures Best(CerStack(p).routes, d) == Some(CerRouteAt(p, k))
  {
    hide Best, Matches;
    var routes := CerStack(p).routes;
    LinkRouteMatches(p, CerLink(p, k), routes[k], d);
    forall q | q in routes && q != routes[k]
      ensures !Matches(q, d)
    {
      var m :| 0 <= m < |routes| && routes[m] == q;
      LinkRouteMatches(p, CerLink(p, m), q, d);
      if InSubnet(p, CerLink(p, m), d) {
        SubnetsDisjoint(p, CerLink(p, k), CerLink(p, m), d);
        assert false;
      }
    }
    BestIs(routes, d, routes[k]);
  }

  lemma {:induction false} CerNone(p: Plan, d: Address)
    requires p.Valid()
    requires forall k | 0 <= k < 2 * p.N() + 8 :: !InSubnet(p, CerLink(p, k), d)
    ensures Best(CerStack(p).routes, d) == None
  {
    hide Best, Matches;
    var routes := CerStack(p).routes;
    forall q | q in routes
      ensures !Matches(q, d)
    {
      var m :| 0 <= m < |routes| && routes[m] == q;
      LinkRouteMatches(p, CerLink(p, m), q, d);
    }
    BestIsLongest(routes, d);
  }

  /** In a table of link routes and one default route the route to the link wins. */
  lemma {:induction false} RouterBest(p: Plan, i: nat, d: Address)
    requires p.Valid() && i < p.N()
    ensures var rs := RouterStack(p, i).routes;
            Best(rs, d) == Some(if InSubnet(p, Loopback, d) then rs[0]
                                else if InSubnet(p, RouterCer(i), d) then rs[1]
                                else if InSubnet(p, P2p(i), d) then rs[3]
                                else if i > 0 && InSubnet(p, Wifi(i), d) then rs[4]
                                else rs[2])
  {
    hide Best, Matches;
    var rs := RouterStack(p, i).routes;
    LinkRouteMatches(p, Loopback, rs[0], d);
    LinkRouteMatches(p, RouterCer(i), rs[1], d);
    DefaultMatches(rs[2].gateway, 1, d);
    LinkRouteMatches(p, P2p(i), rs[3], d);
    if i > 0 {
      LinkRouteMatches(p, Wifi(i), rs[4], d);
    }
    BestIs(rs, d, if InSubnet(p, Loopback, d) then rs[0]
                  else if InSubnet(p, RouterCer(i), d) then rs[1]
                  else if InSubnet(p, P2p(i), d) then rs[3]
                  else if i > 0 && InSubnet(p, Wifi(i), d) then rs[4]
                  else rs[2]);
  }

  lemma {:induction false} ApBest(p: Plan, i: nat, d: Address)
    requires p.Valid() && 0 < i < p.N()
    ensures var rs := ApStack(p, i).routes;
            Best(rs, d) == Some(if InSubnet(p, Loopback, d) then rs[0]
                                else if InSubnet(p, P2p(i), d) then rs[1]
                                else if InSubnet(p, Wifi(i), d) then rs[2]
                                else rs[3])
  {
    hide Best, Matches;
    var rs := ApStack(p, i).routes;
    LinkRouteMatches(p, Loopback, rs[0], d);
    LinkRouteMatches(p, P2p(i), rs[1], d);
    LinkRouteMatches(p, Wifi(i), rs[2], d);
    DefaultMatches(rs[3].gateway, 1, d);
    BestIs(rs, d, if InSubnet(p, Loopback, d) then rs[0]
                  else if InSubnet(p, P2p(i), d) then rs[1]
                  else if InSubnet(p, Wifi(i), d) then rs[2]
                  else rs[3]);
  }

  /** In a table of connected routes only, the route to the link of d wins, if there is one. */
  lemma {:induction false} ConnectedBest(p: Plan, links: seq<Link>, rs: seq<Route>, d: Address)
    requires p.Valid() && |rs| == |links| && forall m, q | 0 <= m < q < |links| :: links[m] != links[q]
    requires forall m | 0 <= m < |links| :: p.HasSubnet(links[m]) && rs[m] == Connected(p, links[m], m)
    ensures forall k | 0 <= k < |links| && InSubnet(p, links[k], d) :: Best(rs, d) == Some(rs[k])
    ensures (forall m | 0 <= m < |links| :: !InSubnet(p, links[m], d)) ==> Best(rs, d) == None
  {
    hide Best, Matches, InSubnet;
    forall m | 0 <= m < |rs|
      ensures Matches(rs[m], d) <==> InSubnet(p, links[m], d)
    {
      LinkRouteMatches(p, links[m], rs[m], d);
    }
    BestIsLongest(rs, d);
    forall k | 0 <= k < |links| && InSubnet(p, links[k], d)
      ensures Best(rs, d) == Some(rs[k])
    {
      assert Matches(rs[k], d);
      var m :| 0 <= m < |rs| && rs[m] == Best(rs, d).value;
      SubnetsDisjoint(p, links[k], links[m], d);
    }
  }

  /** Servers and stations have one link and a default route. */
  lemma {:induction false} EdgeBest(p: Plan, l: Link, j: nat, gateway: Address, d: Address)
    requires p.Valid() && p.HasLink(l) && j < |Devices(p, l)|
    ensures var rs := EdgeStack(p, l, j, gateway).routes;
            Best(rs, d) == Some(if InSubnet(p, Loopback, d) then rs[0]
                                else if InSubnet(p, l, d) then rs[1]
                                else rs[2])
  {
    hide Best, Matches;
    var rs := EdgeStack(p, l, j, gateway).routes;
    LinkRouteMatches(p, Loopback, rs[0], d);
    LinkRouteMatches(p, l, rs[1], d);
    DefaultMatches(gateway, 1, d);
    if InSubnet(p, Loopback, d) && InSubnet(p, l, d) {
      SubnetsDisjoint(p, Loopback, l, d);
    }
    hide SubnetBase;
    BestIs(rs, d, if InSubnet(p, Loopback, d) then rs[0] else if InSubnet(p, l, d) then rs[1] else rs[2]);
  }

  lemma {:induction false} PgwBest(p: Plan, d: Address)
    requires p.Valid()
    ensures var rs := PgwStack(p).routes;
            Best(rs, d) == Some(if InSubnet(p, Loopback, d) then rs[0]
                                else if InSubnet(p, Epc, d) then rs[1]
                                else if InSubnet(p, S5, d) then rs[2]
                                else if InSubnet(p, PgwCer, d) then rs[3]
                                else if Quad(10, 201, 0, 0) <= d < Quad(10, 201, 16, 0) then rs[5]
                                else rs[4])
  {
    hide Best, Matches;
    var rs := PgwStack(p).routes;
    LinkRouteMatches(p, Loopback, rs[0], d);
    LinkRouteMatches(p, Epc, rs[1], d);
    LinkRouteMatches(p, S5, rs[2], d);
    LinkRouteMatches(p, PgwCer, rs[3], d);
    DefaultMatches(rs[4].gateway, 3, d);
    ToServersMatches(rs[5].gateway, 3, d);
    BestIs(rs, d, if InSubnet(p, Loopback, d) then rs[0]
                  else if InSubnet(p, Epc, d) then rs[1]
                  else if InSubnet(p, S5, d) then rs[2]
                  else if InSubnet(p, PgwCer, d) then rs[3]
                  else if Quad(10, 201, 0, 0) <= d < Quad(10, 201, 16, 0) then rs[5]
                  else rs[4]);
  }

  // ---------- one hop ----------

  datatype Hop = Delivered | Dropped | Forward(next: Node)

  /** IsDestinationAddress: the address or the subnet broadcast of any interface, a multicast
      address or 255.255.255.255. */
  predicate IsLocal(ifaces: seq<Iface>, d: Address) {
    d == LIMITED_BROADCAST || IsMulticast(d) ||
    exists k | 0 <= k < |ifaces| :: d == ifaces[k].addr || d == ifaces[k].broadcast
  }

  /** The device of a link that answers for an address. */
  function Resolve(p: Plan, l: Link, a: Address): Option<Node>
    requires p.Valid() && p.HasLink(l)
  {
    var j := a - SubnetBase(p, l) - 1;
    if 0 <= j < |Devices(p, l)| then Some(Devices(p, l)[j]) else None
  }

  function Arrive(r: Option<Node>): Hop {
    if r.Some? then Forward(r.value) else Dropped
  }

  /** Sending on a link.  The loopback hands the packet back to its node.  Point-to-point devices do
      not resolve addresses: the other end receives whatever is sent.  Wi-Fi resolves the next hop.
      A user equipment's tunnel ends at the packet gateway, and the gateway's tunnel resolves the
      final destination. */
  function Transmit(p: Plan, n: Node, l: Link, hop: Address, d: Address): Hop
    requires p.Valid() && p.HasSubnet(l)
  {
    if l.Loopback? then Forward(n)
    else if l.Wifi? then Arrive(Resolve(p, l, hop))
    else if l.Epc? then (if n == Pgw then Arrive(Resolve(p, Epc, d)) else Forward(Pgw))
    else
      var ends := Devices(p, l);
      if n == ends[0] then Forward(ends[1]) else Forward(ends[0])
  }

  /** What node n does with a packet for d: local delivery, a lookup, a transmission. */
  function Step(p: Plan, n: Node, d: Address): Hop
    requires p.Valid() && p.HasNode(n)
  {
    var st := FinalStack(p, n);
    if IsLocal(st.ifaces, d) then Delivered
    else match Best(st.routes, d)
      case None => Dropped
      case Some(r) =>
        if r.iface < |st.ifaces| && p.HasSubnet(st.ifaces[r.iface].link) then
          Transmit(p, n, st.ifaces[r.iface].link, if r.gateway == ANY then d else r.gateway, d)
        else Dropped
  }

  datatype Outcome = DeliveredAt(node: Node) | DroppedAt(node: Node) | InFlight(node: Node)

  /** The trace from n, allowed to use this many links. */
  function Trace(p: Plan, n: Node, d: Address, links: nat): Outcome
    requires p.Valid() && p.HasNode(n)
    decreases links
  {
    match Step(p, n, d)
    case Delivered => DeliveredAt(n)
    case Dropped => DroppedAt(n)
    case Forward(m) =>
      if links == 0 then InFlight(n)
      else if p.HasNode(m) then Trace(p, m, d, links - 1)
      else DroppedAt(m)
  }

  // ---------- what each kind of node does ----------

  predicate Local(p: Plan, n: Node, d: Address)
    requires p.Valid() && p.HasNode(n)
  {
    IsLocal(FinalStack(p, n).ifaces, d)
  }

  /** Interface k makes its address and its broadcast address local. */
  lemma LocalBy(p: Plan, n: Node, k: nat, d: Address)
    requires p.Valid() && p.HasNode(n) && k < |FinalStack(p, n).ifaces|
    requires d == FinalStack(p, n).ifaces[k].addr || d == FinalStack(p, n).ifaces[k].broadcast
    ensures Local(p, n, d)
  {}

  /** Where the edge router sends packets for a subnet it knows. */
  function CerNext(p: Plan, l: Link): Node
    requires p.Valid() && p.HasSubnet(l)
  {
    match l
    case RouterCer(i) => Router(i)
    case ServerCer(k) => Server(SERVERS[k])
    case Wifi(i) => Router(i)
    case PgwCer => Pgw
    case Epc => Pgw
    case _ => Cer
  }

  /** A packet that is not local leaves by the route the lookup finds. */
  lemma {:induction false} StepVia(p: Plan, n: Node, d: Address, r: Route, l: Link)
    requires p.Valid() && p.HasNode(n) && !Local(p, n, d)
    requires Best(FinalStack(p, n).routes, d) == Some(r)
    requires r.iface < |FinalStack(p, n).ifaces| && FinalStack(p, n).ifaces[r.iface].link == l && p.HasSubnet(l)
    ensures Step(p, n, d) == Transmit(p, n, l, if r.gateway == ANY then d else r.gateway, d)
  {
    hide Best, FinalStack, IsLocal, Transmit;
  }

  /** Without a route the packet is dropped. */
  lemma {:induction false} StepDrops(p: Plan, n: Node, d: Address)
    requires p.Valid() && p.HasNode(n) && !Local(p, n, d) && Best(FinalStack(p, n).routes, d) == None
    ensures Step(p, n, d) == Dropped
  {
    hide Best, FinalStack, IsLocal;
  }

  /** The interface of the edge router's route k is on the link the route leaves by. */
  lemma CerExits(p: Plan, k: nat)
    requires p.Valid() && k < 2 * p.N() + 8
    ensures var r, st := CerRouteAt(p, k), FinalStack(p, Cer);
            r.iface < |st.ifaces| && st.ifaces[r.iface].link == CerLink(p, CerExit(p, k))
  {}

  /** On that link the packet gets to the node it is meant for. */
  lemma CerTransmits(p: Plan, k: nat, hop: Address, d: Address)
    requires p.Valid() && k < 2 * p.N() + 8
    ensures Transmit(p, Cer, CerLink(p, CerExit(p, k)), hop, d) == Forward(CerNext(p, CerLink(p, k)))
  {
    hide Resolve;
  }

  lemma StepCer(p: Plan, d: Address, k: nat)
    requires p.Valid() && k < 2 * p.N() + 8 && InSubnet(p, CerLink(p, k), d) && !Local(p, Cer, d)
    ensures Step(p, Cer, d) == Forward(CerNext(p, CerLink(p, k)))
  {
    hide Best, Step, Local, InSubnet, Transmit, FinalStack, CerRouteAt, CerLink, CerExit;
    CerBest(p, d, k);
    var r := CerRouteAt(p, k);
    assert FinalStack(p, Cer) == CerStack(p) by { CerStackIsFinal(p); }
    CerExits(p, k);
    CerTransmits(p, k, if r.gateway == ANY then d else r.gateway, d);
    StepVia(p, Cer, d, r, CerLink(p, CerExit(p, k)));
  }

  lemma CerStackIsFinal(p: Plan)
    requires p.Valid()
    ensures FinalStack(p, Cer) == CerStack(p)
  {}

  lemma StepCerDrops(p: Plan, d: Address)
    requires p.Valid() && !Local(p, Cer, d)
    requires forall k | 0 <= k < 2 * p.N() + 8 :: !InSubnet(p, CerLink(p, k), d)
    ensures Step(p, Cer, d) == Dropped
  {
    hide Best, Step, Local;
    CerNone(p, d);
    StepDrops(p, Cer, d);
  }

  lemma StepRouter(p: Plan, i: nat, d: Address)
    requires p.Valid() && i < p.N() && !Local(p, Router(i), d)
    ensures Step(p, Router(i), d) ==
              Forward(if InSubnet(p, Loopback, d) then Router(i)
                      else if InSubnet(p, RouterCer(i), d) then Cer
                      else if InSubnet(p, P2p(i), d) || (i > 0 && InSubnet(p, Wifi(i), d)) then Ap(i)
                      else Cer)
  {
    hide Best, Step, Local, InSubnet;
    RouterBest(p, i, d);
    var r := Best(RouterStack(p, i).routes, d).value;
    StepVia(p, Router(i), d, r, if r.iface == 0 then Loopback else if r.iface == 1 then RouterCer(i) else P2p(i));
  }

  lemma StepAp(p: Plan, i: nat, d: Address)
    requires p.Valid() && 0 < i < p.N() && !Local(p, Ap(i), d)
    ensures Step(p, Ap(i), d) ==
              if InSubnet(p, Loopback, d) then Forward(Ap(i))
              else if InSubnet(p, P2p(i), d) then Forward(Router(i))
              else if InSubnet(p, Wifi(i), d) then Arrive(Resolve(p, Wifi(i), d))
              else Forward(Router(i))
  {
    hide Best, Step, Local, InSubnet, Resolve;
    ApBest(p, i, d);
    var r := Best(ApStack(p, i).routes, d).value;
    StepVia(p, Ap(i), d, r, if r.iface == 0 then Loopback else if r.iface == 1 then P2p(i) else Wifi(i));
  }

  /** A node with connected routes only hands the packet to a link of its own or drops it. */
  lemma {:induction false} StepConnected(p: Plan, n: Node, links: seq<Link>, d: Address)
    requires p.Valid() && p.HasNode(n) && !Local(p, n, d)
    requires |FinalStack(p, n).routes| == |FinalStack(p, n).ifaces| == |links|
    requires forall m, q | 0 <= m < q < |links| :: links[m] != links[q]
    requires forall m | 0 <= m < |links| ::
               && p.HasSubnet(links[m]) && FinalStack(p, n).ifaces[m].link == links[m]
               && FinalStack(p, n).routes[m] == Connected(p, links[m], m)
    ensures forall k | 0 <= k < |links| && InSubnet(p, links[k], d) :: Step(p, n, d) == Transmit(p, n, links[k], d, d)
    ensures (forall m | 0 <= m < |links| :: !InSubnet(p, links[m], d)) ==> Step(p, n, d) == Dropped
  {
    hide Best, Step, Local, InSubnet, Transmit, FinalStack;
    ConnectedBest(p, links, FinalStack(p, n).routes, d);
    forall k | 0 <= k < |links| && InSubnet(p, links[k], d)
      ensures Step(p, n, d) == Transmit(p, n, links[k], d, d)
    {
      StepVia(p, n, d, FinalStack(p, n).routes[k], links[k]);
    }
    if forall m | 0 <= m < |links| :: !InSubnet(p, links[m], d) {
      StepDrops(p, n, d);
    }
  }

  lemma StepAp0(p: Plan, d: Address)
    requires p.Valid() && !Local(p, Ap(0), d)
    ensures Step(p, Ap(0), d) ==
              if InSubnet(p, Loopback, d) then Forward(Ap(0))
              else if InSubnet(p, S1u, d) then Forward(Sgw)
              else if InSubnet(p, P2p(0), d) then Forward(Router(0))
              else Dropped
  {
    hide Step, Local, InSubnet;
    var links := [Loopback, S1u, P2p(0)];
    StepConnected(p, Ap(0), links, d);
    assert links[0] == Loopback && links[1] == S1u && links[2] == P2p(0);
  }

  lemma StepSgw(p: Plan, d: Address)
    requires p.Valid() && !Local(p, Sgw, d)
    ensures Step(p, Sgw, d) ==
              if InSubnet(p, Loopback, d) then Forward(Sgw)
              else if InSubnet(p, S5, d) then Forward(Pgw)
              else if InSubnet(p, S11, d) then Forward(Mme)
              else if InSubnet(p, S1u, d) then Forward(Ap(0))
              else Dropped
  {
    hide Step, Local, InSubnet;
    var links := [Loopback, S5, S11, S1u];
    StepConnected(p, Sgw, links, d);
    assert links[0] == Loopback && links[1] == S5 && links[2] == S11 && links[3] == S1u;
  }

  lemma StepMme(p: Plan, d: Address)
    requires p.Valid() && !Local(p, Mme, d)
    ensures Step(p, Mme, d) ==
              if InSubnet(p, Loopback, d) then Forward(Mme)
              else if InSubnet(p, S11, d) then Forward(Sgw)
              else Dropped
  {
    hide Step, Local, InSubnet;
    var links := [Loopback, S11];
    StepConnected(p, Mme, links, d);
    assert links[0] == Loopback && links[1] == S11;
  }

  lemma StepServer(p: Plan, s: ServerName, d: Address)
    requires p.Valid() && !Local(p, Server(s), d)
    ensures Step(p, Server(s), d) == Forward(if InSubnet(p, Loopback, d) then Server(s) else Cer)
  {
    hide Best, Step, Local, InSubnet;
    var l := ServerCer(ServerIndex(s));
    EdgeBest(p, l, 0, AddressOn(p, l, 1), d);
    var r := Best(ServerStack(p, s).routes, d).value;
    StepVia(p, Server(s), d, r, if r.iface == 0 then Loopback else l);
  }

  lemma StepStation(p: Plan, i: nat, j: nat, d: Address)
    requires p.Valid() && p.HasNode(Station(i, j)) && !Local(p, Station(i, j), d)
    ensures Step(p, Station(i, j), d) ==
              if InSubnet(p, Loopback, d) then Forward(Station(i, j))
              else if i == 0 then Forward(Pgw)
              else if InSubnet(p, Wifi(i), d) then Arrive(Resolve(p, Wifi(i), d))
              else Forward(Ap(i))
  {
    hide Best, Step, Local, InSubnet;
    var l := if i == 0 then Epc else Wifi(i);
    EdgeBest(p, l, j, AddressOn(p, l, 0), d);
    var r := Best(StationStack(p, i, j).routes, d).value;
    StepVia(p, Station(i, j), d, r, if r.iface == 0 then Loopback else l);
  }

  lemma StepPgw(p: Plan, d: Address)
    requires p.Valid() && !Local(p, Pgw, d)
    ensures Step(p, Pgw, d) ==
              if InSubnet(p, Loopback, d) then Forward(Pgw)
              else if InSubnet(p, Epc, d) then Arrive(Resolve(p, Epc, d))
              else if InSubnet(p, S5, d) then Forward(Sgw)
              else Forward(Cer)
  {
    hide Best, Step, Local, InSubnet, Resolve;
    PgwBest(p, d);
    var r := Best(PgwStack(p).routes, d).value;
    var links := [Loopback, Epc, S5, PgwCer];
    StepVia(p, Pgw, d, r, links[r.iface]);
  }

  /** The device that answers for an address takes it as its own. */
  lemma ResolvedIsLocal(p: Plan, l: Link, d: Address)
    requires p.Valid() && (l == Epc || l.Wifi?) && p.HasLink(l) && Resolve(p, l, d).Some?
    ensures var m := Resolve(p, l, d).value;
            p.HasNode(m) && Local(p, m, d)
  {
    var m := Resolve(p, l, d).value;
    var j := d - SubnetBase(p, l) - 1;
    DevicesBelong(p, l, j);
    LocalBy(p, m, if m.Ap? then 2 else 1, d);
  }
}
