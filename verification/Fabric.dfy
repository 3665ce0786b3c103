/**
 The routed fabric that master/topology.cc builds: nodes, links, the address plan derived from
 loop indices, and the interfaces and routing table every node ends up with.

 wifiNodes[i].Get(j) is Ap(i) for j == 0 and Station(i, j) otherwise; the stations of access
 point 0 are user equipments of the NR cell and live behind the packet gateway (Pgw), which the
 core network links to the serving gateway (Sgw) and that to the mobility manager (Mme) and to
 access point 0, its base station.
 */
module Fabric {
  import opened Ipv4

  datatype ServerName = Rtt | UdpVideo | UdpVoice | Streaming | Browser | RemoteHost

  datatype Node =
    | Cer
    | Pgw
    | Sgw
    | Mme
    | Ap(i: nat)
    | Router(i: nat)
    | Server(name: ServerName)
    | Station(ap: nat, slot: nat)

  datatype Link =
    | Loopback
    | RouterCer(i: nat)
    | ServerCer(k: nat)
    | PgwCer
    | P2p(i: nat)
    | Wifi(i: nat)
    | Epc
    | S5
    | S11
    | S1u

  /** The order of the server links. */
  const SERVERS: seq<ServerName> := [Rtt, UdpVideo, UdpVoice, Streaming, Browser, RemoteHost]

  function ServerIndex(s: ServerName): (k: nat)
    ensures k < |SERVERS| && SERVERS[k] == s
  {
    match s
    case Rtt => 0
    case UdpVideo => 1
    case UdpVoice => 2
    case Streaming => 3
    case Browser => 4
    case RemoteHost => 5
  }

  lemma ServerIndexUnique(k: nat)
    requires k < |SERVERS|
    ensures ServerIndex(SERVERS[k]) == k
  {}

  /** The sizes of the access containers, access point included. */
  datatype Plan = Plan(sizes: seq<nat>) {
    function N(): nat { |sizes| }

    /** Octets derived from indices fit, container 0 has the monitor, and every access container
        fits the subnet its addresses are drawn from. */
    predicate Valid() {
      && 1 <= |sizes| <= 255
      && 2 <= sizes[0] <= 0xFF_FFFE
      && forall i | 1 <= i < |sizes| :: 1 <= sizes[i] <= 0xFE
    }

    predicate HasNode(n: Node) {
      match n
      case Cer => true
      case Pgw => true
      case Sgw => true
      case Mme => true
      case Ap(i) => i < N()
      case Router(i) => i < N()
      case Server(_) => true
      case Station(i, j) => i < N() && 1 <= j < sizes[i]
    }

    predicate HasLink(l: Link) {
      match l
      case Loopback => false
      case RouterCer(i) => i < N()
      case ServerCer(k) => k < |SERVERS|
      case PgwCer => true
      case P2p(i) => i < N()
      case Wifi(i) => 1 <= i < N()
      case Epc => true
      case S5 => true
      case S11 => true
      case S1u => true
    }

    /** Every node has the loopback; it counts as a subnet but not as a link between nodes. */
    predicate HasSubnet(l: Link) { HasLink(l) || l.Loopback? }
  }

  predicate InCore(l: Link) { l.S5? || l.S11? || l.S1u? }

  predicate PointToPoint(l: Link) { l.RouterCer? || l.ServerCer? || l.PgwCer? || l.P2p? || InCore(l) }

  // ---------- the address plan ----------

  function SubnetBase(p: Plan, l: Link): Address
    requires p.Valid() && p.HasSubnet(l)
  {
    match l
    case Loopback => Quad(127, 0, 0, 0)
    case RouterCer(i) => Quad(10, 200, i + 1, 0)
    case ServerCer(k) => Quad(10, 201, k + 1, 0)
    case PgwCer => Quad(10, 202, 0, 0)
    case P2p(i) => Quad(10, 0, i + 1, 0)
    case Wifi(i) => Quad(10, 1, i, 0)
    case Epc => Quad(7, 0, 0, 0)
    case S5 => Quad(14, 0, 0, 4)
    case S11 => Quad(13, 0, 0, 4)
    case S1u => Quad(10, 0, 0, 4)
  }

  function SubnetLength(l: Link): PrefixLength {
    match l
    case Loopback => 8
    case RouterCer(_) => 30
    case ServerCer(_) => 30
    case PgwCer => 30
    case P2p(_) => 24
    case Wifi(_) => 24
    case Epc => 8
    case _ => 30
  }

  function SubnetSize(l: Link): nat {
    match l
    case Loopback => 0x100_0000
    case RouterCer(_) => 4
    case ServerCer(_) => 4
    case PgwCer => 4
    case P2p(_) => 0x100
    case Wifi(_) => 0x100
    case Epc => 0x100_0000
    case _ => 4
  }

  predicate InSubnet(p: Plan, l: Link, d: Address)
    requires p.Valid() && p.HasSubnet(l)
  {
    SubnetBase(p, l) <= d < SubnetBase(p, l) + SubnetSize(l)
  }

  lemma QuadAligned(a: Octet, b: Octet, c: Octet, d: Octet)
    ensures Quad(a, b, c, d) % 4 == d % 4 && Quad(a, b, c, 0) % 0x100 == 0 && Quad(a, 0, 0, 0) % 0x100_0000 == 0
  {
    var n := a * 0x1_0000 + b * 0x100 + c;
    assert Quad(a, b, c, d) == 4 * (n * 0x40) + d;
    assert Quad(a, b, c, 0) == 0x100 * n;
  }

  lemma SubnetAligned(p: Plan, l: Link)
    requires p.Valid() && p.HasSubnet(l)
    ensures SubnetBase(p, l) % SubnetSize(l) == 0
    ensures SubnetBase(p, l) + SubnetSize(l) <= Quad(224, 0, 0, 0)
  {
    hide Quad;
    SubnetBelowMulticast(p, l);
    match l
    case Loopback => QuadAligned(127, 0, 0, 0);
    case RouterCer(i) => QuadAligned(10, 200, i + 1, 0);
    case ServerCer(k) => QuadAligned(10, 201, k + 1, 0);
    case PgwCer => QuadAligned(10, 202, 0, 0);
    case P2p(i) => QuadAligned(10, 0, i + 1, 0);
    case Wifi(i) => QuadAligned(10, 1, i, 0);
    case Epc => QuadAligned(7, 0, 0, 0);
    case S5 => QuadAligned(14, 0, 0, 4);
    case S11 => QuadAligned(13, 0, 0, 4);
    case S1u => QuadAligned(10, 0, 0, 4);
  }

  lemma SubnetBelowMulticast(p: Plan, l: Link)
    requires p.Valid() && p.HasSubnet(l)
    ensures SubnetBase(p, l) + SubnetSize(l) <= Quad(224, 0, 0, 0)
  {}

  lemma SubnetSizes(p: Plan, l: Link)
    requires p.Valid() && p.HasSubnet(l)
    ensures SubnetSize(l) == Size(SubnetLength(l))
    ensures SubnetBase(p, l) % SubnetSize(l) == 0
    ensures SubnetBase(p, l) + SubnetSize(l) <= Quad(224, 0, 0, 0)
  {
    hide Size, Pow2, Quad, SubnetBase;
    SizeValues();
    SubnetAligned(p, l);
  }

  /** No two subnets share an address. */
  lemma SubnetsDisjoint(p: Plan, l: Link, m: Link, d: Address)
    requires p.Valid() && p.HasSubnet(l) && p.HasSubnet(m)
    requires InSubnet(p, l, d) && InSubnet(p, m, d)
    ensures l == m
  {}

  // ---------- devices and addresses ----------

  /** The nodes with a device on a link, in the order of the device container. */
  function Devices(p: Plan, l: Link): seq<Node>
    requires p.Valid() && p.HasLink(l)
  {
    match l
    case RouterCer(i) => [Router(i), Cer]
    case ServerCer(k) => [Server(SERVERS[k]), Cer]
    case PgwCer => [Pgw, Cer]
    case P2p(i) => [Ap(i), Router(i)]
    case S5 => [Pgw, Sgw]
    case S11 => [Mme, Sgw]
    case S1u => [Ap(0), Sgw]
    case Wifi(i) => seq(p.sizes[i], j requires 0 <= j < p.sizes[i] => if j == 0 then Ap(i) else Station(i, j))
    case Epc => seq(p.sizes[0], j requires 0 <= j < p.sizes[0] => if j == 0 then Pgw else Station(0, j))
  }

  /** Addresses are handed out consecutively, starting with host number 1. */
  function AddressOn(p: Plan, l: Link, j: nat): Address
    requires p.Valid() && p.HasLink(l) && j < |Devices(p, l)|
    ensures InSubnet(p, l, AddressOn(p, l, j))
    ensures AddressOn(p, l, j) < SubnetBase(p, l) + SubnetSize(l) - 1
  {
    SubnetBase(p, l) + 1 + j
  }

  /** The stored broadcast address is the address with its host bits set. */
  lemma BroadcastIsAllOnes(p: Plan, l: Link, j: nat)
    requires p.Valid() && p.HasLink(l) && j < |Devices(p, l)|
    ensures IfaceOn(p, l, j).broadcast == BroadcastOf(AddressOn(p, l, j), SubnetLength(l))
  {
    SubnetSizes(p, l);
    AlignedInterval(SubnetBase(p, l), AddressOn(p, l, j), SubnetSize(l));
  }

  lemma DevicesBelong(p: Plan, l: Link, j: nat)
    requires p.Valid() && p.HasLink(l) && j < |Devices(p, l)|
    ensures p.HasNode(Devices(p, l)[j])
  {}

  // ---------- interfaces and tables ----------

  datatype Iface = Iface(link: Link, addr: Address, len: PrefixLength, broadcast: int)

  datatype Stack = Stack(ifaces: seq<Iface>, routes: seq<Route>)

  const LOOPBACK := Iface(Loopback, Quad(127, 0, 0, 1), 8, Quad(127, 255, 255, 255))

  /** A node starts with the loopback interface and the connected route of its network. */
  const FRESH := Stack([LOOPBACK], [Route(Quad(127, 0, 0, 0), 8, ANY, 0)])

  function IfaceOn(p: Plan, l: Link, j: nat): Iface
    requires p.Valid() && p.HasLink(l) && j < |Devices(p, l)|
  {
    Iface(l, AddressOn(p, l, j), SubnetLength(l), SubnetBase(p, l) + SubnetSize(l) - 1)
  }

  function Connected(p: Plan, l: Link, iface: nat): Route
    requires p.Valid() && p.HasSubnet(l)
  {
    Route(SubnetBase(p, l), SubnetLength(l), ANY, iface)
  }

  function Default(gateway: Address, iface: nat): Route {
    Route(ANY, 0, gateway, iface)
  }

  /** A route to the subnet of link l. */
  function ToLink(p: Plan, l: Link, gateway: Address, iface: nat): Route
    requires p.Valid() && p.HasLink(l)
  {
    Route(SubnetBase(p, l), SubnetLength(l), gateway, iface)
  }

  /** The route the packet gateway has to the servers. */
  function ToServers(gateway: Address, iface: nat): Route {
    Route(Quad(10, 201, 0, 0), 20, gateway, iface)
  }

  /** The subnets of the edge router in the order of its routes: the loopback and one per router,
      server and packet gateway, where it has an interface, then one per Wi-Fi subnet and the UE
      network. */
  function CerLink(p: Plan, k: nat): Link
    requires p.Valid() && k < 2 * p.N() + 8
    ensures if k == 0 then CerLink(p, k) == Loopback else p.HasLink(CerLink(p, k))
  {
    var n := p.N();
    if k == 0 then Loopback
    else if k <= n then RouterCer(k - 1)
    else if k <= n + 6 then ServerCer(k - n - 1)
    else if k == n + 7 then PgwCer
    else if k < 2 * n + 7 then Wifi(k - n - 7)
    else Epc
  }

  function CerIfaceAt(p: Plan, k: nat): Iface
    requires p.Valid() && k < p.N() + 8
  {
    if k == 0 then LOOPBACK else IfaceOn(p, CerLink(p, k), 1)
  }

  /** The interface the edge router's route k names. */
  function CerExit(p: Plan, k: nat): (iface: nat)
    requires p.Valid() && k < 2 * p.N() + 8
    ensures iface < p.N() + 8
  {
    var n := p.N();
    if k < n + 8 then k else if k < 2 * n + 7 then k - n - 6 else n + 7
  }

  /** A route beyond the connected ones goes through the first device of the link it names. */
  function CerRouteAt(p: Plan, k: nat): Route
    requires p.Valid() && k < 2 * p.N() + 8
  {
    if k < p.N() + 8 then Connected(p, CerLink(p, k), k)
    else ToLink(p, CerLink(p, k), AddressOn(p, CerLink(p, CerExit(p, k)), 0), CerExit(p, k))
  }

  function CerStack(p: Plan): Stack
    requires p.Valid()
  {
    Stack(seq(p.N() + 8, k requires 0 <= k < p.N() + 8 => CerIfaceAt(p, k)),
          seq(2 * p.N() + 8, k requires 0 <= k < 2 * p.N() + 8 => CerRouteAt(p, k)))
  }

  function PgwStack(p: Plan): Stack
    requires p.Valid()
  {
    var cer := AddressOn(p, PgwCer, 1);
    Stack([LOOPBACK, IfaceOn(p, Epc, 0), IfaceOn(p, S5, 0), IfaceOn(p, PgwCer, 0)],
          [Connected(p, Loopback, 0), Connected(p, Epc, 1), Connected(p, S5, 2), Connected(p, PgwCer, 3),
           Default(cer, 3), ToServers(cer, 3)])
  }

  /** The serving gateway and the mobility manager know only the links they are on. */
  function SgwStack(p: Plan): Stack
    requires p.Valid()
  {
    Stack([LOOPBACK, IfaceOn(p, S5, 1), IfaceOn(p, S11, 1), IfaceOn(p, S1u, 1)],
          [Connected(p, Loopback, 0), Connected(p, S5, 1), Connected(p, S11, 2), Connected(p, S1u, 3)])
  }

  function MmeStack(p: Plan): Stack
    requires p.Valid()
  {
    Stack([LOOPBACK, IfaceOn(p, S11, 0)], [Connected(p, Loopback, 0), Connected(p, S11, 1)])
  }

  function RouterStack(p: Plan, i: nat): Stack
    requires p.Valid() && i < p.N()
  {
    Stack([LOOPBACK, IfaceOn(p, RouterCer(i), 0), IfaceOn(p, P2p(i), 1)],
          [Connected(p, Loopback, 0), Connected(p, RouterCer(i), 1), Default(AddressOn(p, RouterCer(i), 1), 1),
           Connected(p, P2p(i), 2)]
          + if i == 0 then [] else [ToLink(p, Wifi(i), AddressOn(p, P2p(i), 0), 2)])
  }

  /** Access point 0 is the base station: it has no Wi-Fi devices and no default route. */
  function ApStack(p: Plan, i: nat): Stack
    requires p.Valid() && i < p.N()
  {
    if i == 0 then
      Stack([LOOPBACK, IfaceOn(p, S1u, 0), IfaceOn(p, P2p(0), 0)],
            [Connected(p, Loopback, 0), Connected(p, S1u, 1), Connected(p, P2p(0), 2)])
    else
      Stack([LOOPBACK, IfaceOn(p, P2p(i), 0), IfaceOn(p, Wifi(i), 0)],
            [Connected(p, Loopback, 0), Connected(p, P2p(i), 1), Connected(p, Wifi(i), 2),
             Default(AddressOn(p, P2p(i), 1), 1)])
  }

  /** Servers and stations have one link and a default route. */
  function EdgeStack(p: Plan, l: Link, j: nat, gateway: Address): Stack
    requires p.Valid() && p.HasLink(l) && j < |Devices(p, l)|
  {
    Stack([LOOPBACK, IfaceOn(p, l, j)], [Connected(p, Loopback, 0), Connected(p, l, 1), Default(gateway, 1)])
  }

  function ServerStack(p: Plan, s: ServerName): Stack
    requires p.Valid()
  {
    var l := ServerCer(ServerIndex(s));
    EdgeStack(p, l, 0, AddressOn(p, l, 1))
  }

  function StationStack(p: Plan, i: nat, j: nat): Stack
    requires p.Valid() && p.HasNode(Station(i, j))
  {
    var l := if i == 0 then Epc else Wifi(i);
    EdgeStack(p, l, j, AddressOn(p, l, 0))
  }

  /** What every node ends up with. */
  function FinalStack(p: Plan, n: Node): Stack
    requires p.Valid() && p.HasNode(n)
  {
    match n
    case Cer => CerStack(p)
    case Pgw => PgwStack(p)
    case Sgw => SgwStack(p)
    case Mme => MmeStack(p)
    case Ap(i) => ApStack(p, i)
    case Router(i) => RouterStack(p, i)
    case Server(s) => ServerStack(p, s)
    case Station(i, j) => StationStack(p, i, j)
  }

  // ---------- properties of the plan ----------

  /** Interface k of node n, other than the loopback, is device j of its link. */
  ghost predicate IsDevice(p: Plan, n: Node, f: Iface, j: nat)
    requires p.Valid()
  {
    && p.HasLink(f.link) && j < |Devices(p, f.link)| && Devices(p, f.link)[j] == n && f == IfaceOn(p, f.link, j)
  }

  /** Every interface is the loopback or one device of one link, with that device's address. */
  lemma IfacesAreDevices(p: Plan, n: Node, k: nat) returns (j: nat)
    requires p.Valid() && p.HasNode(n) && 1 <= k < |FinalStack(p, n).ifaces|
    ensures IsDevice(p, n, FinalStack(p, n).ifaces[k], j)
  {
    var f := FinalStack(p, n).ifaces[k];
    match n {
      case Cer => j := 1;
      case Sgw => j := 1;
      case Router(_) => j := k - 1;
      case Station(_, s) => j := s;
      case _ => j := 0;
    }
  }

  /** No two interfaces in the whole fabric, loopbacks aside, have the same address. */
  lemma AddressesUnique(p: Plan, n: Node, k: nat, m: Node, q: nat)
    requires p.Valid() && p.HasNode(n) && p.HasNode(m)
    requires 1 <= k < |FinalStack(p, n).ifaces| && 1 <= q < |FinalStack(p, m).ifaces|
    requires FinalStack(p, n).ifaces[k].addr == FinalStack(p, m).ifaces[q].addr
    ensures n == m && k == q
  {
    var i := IfacesAreDevices(p, n, k);
    var j := IfacesAreDevices(p, m, q);
    var f, g := FinalStack(p, n).ifaces[k], FinalStack(p, m).ifaces[q];
    SubnetsDisjoint(p, f.link, g.link, f.addr);
    assert i == j && n == m;
    OneIfacePerLink(p, n, k, q);
  }

  lemma OneIfacePerLink(p: Plan, n: Node, k: nat, q: nat)
    requires p.Valid() && p.HasNode(n)
    requires k < |FinalStack(p, n).ifaces| && q < |FinalStack(p, n).ifaces|
    requires FinalStack(p, n).ifaces[k].link == FinalStack(p, n).ifaces[q].link
    ensures k == q
  {}
}
