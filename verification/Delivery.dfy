/**
 Global laws of the fabric: which traces end and after how many links, which loop for ever, and
 who receives a packet for every address that was handed out.
 */
module Delivery {
  import opened Wrappers
  import opened Ipv4
  import opened Fabric
  import opened Forwarding

  // ---------- forwarding loops ----------

  /** An address of a point-to-point subnet that neither end owns and that is not its broadcast
      address: each end holds it for on-link and hands it to the other. */
  predicate IsHole(p: Plan, l: Link, d: Address)
    requires p.Valid() && p.HasLink(l)
  {
    && PointToPoint(l) && InSubnet(p, l, d)
    && d != AddressOn(p, l, 0) && d != AddressOn(p, l, 1)
    && d != SubnetBase(p, l) + SubnetSize(l) - 1
  }

  /** An address of the loopback's subnet that no node takes for its own: every node hands it to
      itself. */
  predicate IsLoopbackHole(p: Plan, d: Address)
    requires p.Valid()
  {
    InSubnet(p, Loopback, d) && d != LOOPBACK.addr && d != LOOPBACK.broadcast
  }

  /** Packets for the subnet of l get from n to that link.  Access point 0 and the core network
      behind it know only the links they are on, and the link between an access point and its
      router is known only to its ends and the stations of the access point. */
  predicate Reaches(p: Plan, n: Node, l: Link)
    requires p.Valid() && p.HasNode(n) && p.HasLink(l)
  {
    match l
    case P2p(i) => n == Ap(i) || n == Router(i) || (i > 0 && n.Station? && n.ap == i)
    case S5 => n == Pgw || n == Sgw || (n.Station? && n.ap == 0)
    case S11 => n == Sgw || n == Mme
    case S1u => n == Sgw || n == Ap(0)
    case _ => n != Ap(0) && n != Sgw && n != Mme
  }

  /** Exactly then a packet for d that has got to n never comes to rest. */
  ghost predicate Loops(p: Plan, n: Node, d: Address)
    requires p.Valid() && p.HasNode(n)
  {
    IsLoopbackHole(p, d) || exists l | p.HasLink(l) :: Reaches(p, n, l) && IsHole(p, l, d)
  }

  /** A node without an interface on the link of d's subnet that owns d does not take d. */
  lemma NotLocal(p: Plan, n: Node, l: Link, d: Address)
    requires p.Valid() && p.HasNode(n) && p.HasLink(l) && InSubnet(p, l, d)
    requires forall j | 0 <= j < |Devices(p, l)| && Devices(p, l)[j] == n :: d != AddressOn(p, l, j)
    requires d != SubnetBase(p, l) + SubnetSize(l) - 1
    ensures !Local(p, n, d)
  {
    hide FinalStack, Devices;
    SubnetAligned(p, l);
    var ifaces := FinalStack(p, n).ifaces;
    forall k | 0 <= k < |ifaces|
      ensures d != ifaces[k].addr && d != ifaces[k].broadcast
    {
      NotAtInterface(p, n, l, d, k);
    }
  }

  lemma NotAtInterface(p: Plan, n: Node, l: Link, d: Address, k: nat)
    requires p.Valid() && p.HasNode(n) && p.HasLink(l) && InSubnet(p, l, d) && k < |FinalStack(p, n).ifaces|
    requires forall j | 0 <= j < |Devices(p, l)| && Devices(p, l)[j] == n :: d != AddressOn(p, l, j)
    requires d != SubnetBase(p, l) + SubnetSize(l) - 1
    ensures d != FinalStack(p, n).ifaces[k].addr && d != FinalStack(p, n).ifaces[k].broadcast
  {
    hide FinalStack, Devices;
    var m := if k == 0 then Loopback else FinalStack(p, n).ifaces[k].link;
    if k == 0 {
      FirstIfaceIsLoopback(p, n);
    } else {
      var j := IfacesAreDevices(p, n, k);
    }
    if InSubnet(p, m, d) {
      SubnetsDisjoint(p, l, m, d);
    }
  }

  lemma FirstIfaceIsLoopback(p: Plan, n: Node)
    requires p.Valid() && p.HasNode(n)
    ensures |FinalStack(p, n).ifaces| >= 1 && FinalStack(p, n).ifaces[0] == LOOPBACK
  {}

  lemma HoleIsNotLocal(p: Plan, n: Node, l: Link, d: Address)
    requires p.Valid() && p.HasNode(n) && p.HasLink(l) && IsHole(p, l, d)
    ensures !Local(p, n, d)
  {
    NotLocal(p, n, l, d);
  }

  /** A loopback hole is nobody's address. */
  lemma LoopbackHoleIsNotLocal(p: Plan, n: Node, d: Address)
    requires p.Valid() && p.HasNode(n) && IsLoopbackHole(p, d)
    ensures !Local(p, n, d)
  {
    var ifaces := FinalStack(p, n).ifaces;
    hide FinalStack, Devices;
    forall k | 0 <= k < |ifaces|
      ensures d != ifaces[k].addr && d != ifaces[k].broadcast
    {
      if k == 0 {
        FirstIfaceIsLoopback(p, n);
      } else {
        var j := IfacesAreDevices(p, n, k);
        if InSubnet(p, ifaces[k].link, d) {
          SubnetsDisjoint(p, Loopback, ifaces[k].link, d);
        }
      }
    }
  }

  /** Of the loopback's subnet, every address that is no hole is local everywhere. */
  lemma OffLoopback(p: Plan, n: Node, d: Address)
    requires p.Valid() && p.HasNode(n) && !IsLoopbackHole(p, d)
    ensures InSubnet(p, Loopback, d) ==> Local(p, n, d)
  {
    hide FinalStack, InSubnet;
    FirstIfaceIsLoopback(p, n);
    if InSubnet(p, Loopback, d) {
      LocalBy(p, n, 0, d);
    }
  }

  lemma OnlySubnet(p: Plan, l: Link, d: Address)
    requires p.Valid() && p.HasLink(l) && InSubnet(p, l, d)
    ensures forall m | p.HasSubnet(m) && InSubnet(p, m, d) :: m == l
    ensures !InSubnet(p, Loopback, d)
  {
    forall m | p.HasSubnet(m) && InSubnet(p, m, d) ensures m == l {
      SubnetsDisjoint(p, l, m, d);
    }
  }

  /** The links the edge router has no route to. */
  predicate OutOfSight(l: Link) { l.P2p? || InCore(l) }

  /** The position of a link among the edge router's routes. */
  function CerIndex(p: Plan, l: Link): (k: nat)
    requires p.Valid() && p.HasLink(l) && !OutOfSight(l)
    ensures k < 2 * p.N() + 8 && CerLink(p, k) == l
  {
    match l
    case RouterCer(i) => i + 1
    case ServerCer(k) => p.N() + 1 + k
    case PgwCer => p.N() + 7
    case Wifi(i) => p.N() + 7 + i
    case Epc => 2 * p.N() + 7
  }

  lemma StepCerTo(p: Plan, l: Link, d: Address)
    requires p.Valid() && p.HasLink(l) && InSubnet(p, l, d) && !Local(p, Cer, d)
    ensures Step(p, Cer, d) == if OutOfSight(l) then Dropped else Forward(CerNext(p, l))
  {
    hide Step, Local, InSubnet;
    OnlySubnet(p, l, d);
    if OutOfSight(l) {
      StepCerDrops(p, d);
    } else {
      StepCer(p, d, CerIndex(p, l));
    }
  }

  /** d is in the subnet of l, and if that link resolves addresses, a device there answers for d. */
  predicate Answered(p: Plan, l: Link, d: Address)
    requires p.Valid() && p.HasLink(l)
  {
    InSubnet(p, l, d) && (l == Epc || l.Wifi? ==> Resolve(p, l, d).Some?)
  }

  lemma ResolvedReaches(p: Plan, l: Link, d: Address)
    requires p.Valid() && p.HasLink(l) && Resolve(p, l, d).Some? && (l == Epc || l.Wifi?)
    ensures var m := Resolve(p, l, d).value; p.HasNode(m) && Reaches(p, m, l)
  {
    DevicesBelong(p, l, d - SubnetBase(p, l) - 1);
  }

  ghost predicate MovesOn(p: Plan, n: Node, l: Link, d: Address)
    requires p.Valid() && p.HasNode(n) && p.HasLink(l)
  {
    var h := Step(p, n, d);
    h.Forward? && p.HasNode(h.next) && Reaches(p, h.next, l)
  }

  lemma OnwardFromCore(p: Plan, n: Node, l: Link, d: Address)
    requires p.Valid() && (n == Cer || n == Pgw || n == Sgw || n == Mme || n.Server?)
    requires p.HasLink(l) && Answered(p, l, d)
    requires Reaches(p, n, l) && !Local(p, n, d)
    ensures MovesOn(p, n, l, d)
  {
    hide Step, Local, Resolve;
    OnlySubnet(p, l, d);
    if l == Epc || l.Wifi? {
      ResolvedReaches(p, l, d);
    }
    match n
    case Cer => StepCerTo(p, l, d);
    case Pgw => StepPgw(p, d);
    case Sgw => StepSgw(p, d);
    case Mme => StepMme(p, d);
    case Server(s) => StepServer(p, s, d);
  }

  lemma OnwardFromRouter(p: Plan, i: nat, l: Link, d: Address)
    requires p.Valid() && i < p.N() && p.HasLink(l) && Answered(p, l, d)
    requires Reaches(p, Router(i), l) && !Local(p, Router(i), d)
    ensures MovesOn(p, Router(i), l, d)
  {
    hide Step, Local, Resolve;
    OnlySubnet(p, l, d);
    StepRouter(p, i, d);
  }

  lemma OnwardFromAp(p: Plan, i: nat, l: Link, d: Address)
    requires p.Valid() && i < p.N() && p.HasLink(l) && Answered(p, l, d)
    requires Reaches(p, Ap(i), l) && !Local(p, Ap(i), d)
    ensures MovesOn(p, Ap(i), l, d)
  {
    hide Step, Local, Resolve;
    OnlySubnet(p, l, d);
    if i == 0 {
      StepAp0(p, d);
    } else {
      if l == Wifi(i) {
        ResolvedReaches(p, l, d);
      }
      StepAp(p, i, d);
    }
  }

  lemma OnwardFromStation(p: Plan, i: nat, j: nat, l: Link, d: Address)
    requires p.Valid() && p.HasNode(Station(i, j)) && p.HasLink(l) && Answered(p, l, d)
    requires Reaches(p, Station(i, j), l) && !Local(p, Station(i, j), d)
    ensures MovesOn(p, Station(i, j), l, d)
  {
    hide Step, Local, Resolve;
    OnlySubnet(p, l, d);
    if l == Wifi(i) {
      ResolvedReaches(p, l, d);
    }
    StepStation(p, i, j, d);
  }

  /** A node that reaches a subnet and does not take the packet itself hands it to a node that
      reaches it too. */
  lemma Onward(p: Plan, n: Node, l: Link, d: Address)
    requires p.Valid() && p.HasNode(n) && p.HasLink(l) && Answered(p, l, d)
    requires Reaches(p, n, l) && !Local(p, n, d)
    ensures MovesOn(p, n, l, d)
  {
    hide Step, Local, Answered, MovesOn, Reaches;
    match n
    case Ap(i) => OnwardFromAp(p, i, l, d);
    case Router(i) => OnwardFromRouter(p, i, l, d);
    case Station(i, j) => OnwardFromStation(p, i, j, l, d);
    case _ => OnwardFromCore(p, n, l, d);
  }

  lemma HoleStep(p: Plan, n: Node, l: Link, d: Address)
    requires p.Valid() && p.HasNode(n) && p.HasLink(l) && IsHole(p, l, d) && Reaches(p, n, l)
    ensures MovesOn(p, n, l, d)
  {
    HoleIsNotLocal(p, n, l, d);
    assert Answered(p, l, d);
    hide Step, Local, Answered, IsHole, Reaches, MovesOn;
    Onward(p, n, l, d);
  }

  /** A packet for a hole never leaves the nodes that reach the hole. */
  lemma {:induction false} HoleTrace(p: Plan, n: Node, l: Link, d: Address, links: nat)
    requires p.Valid() && p.HasNode(n) && p.HasLink(l) && IsHole(p, l, d) && Reaches(p, n, l)
    ensures Trace(p, n, d, links).InFlight?
    decreases links
  {
    hide Step, Reaches, IsHole;
    HoleStep(p, n, l, d);
    if links > 0 {
      HoleTrace(p, Step(p, n, d).next, l, d, links - 1);
    }
  }

  /** Every node hands a loopback hole to itself ... */
  lemma LoopbackHoleStep(p: Plan, n: Node, d: Address)
    requires p.Valid() && p.HasNode(n) && IsLoopbackHole(p, d)
    ensures Step(p, n, d) == Forward(n)
  {
    hide Step, Local;
    LoopbackHoleIsNotLocal(p, n, d);
    match n
    case Cer => StepCer(p, d, 0);
    case Pgw => StepPgw(p, d);
    case Sgw => StepSgw(p, d);
    case Mme => StepMme(p, d);
    case Ap(i) => if i == 0 { StepAp0(p, d); } else { StepAp(p, i, d); }
    case Router(i) => StepRouter(p, i, d);
    case Server(s) => StepServer(p, s, d);
    case Station(i, j) => StepStation(p, i, j, d);
  }

  /** ... for ever. */
  lemma {:induction false} LoopbackHoleTrace(p: Plan, n: Node, d: Address, links: nat)
    requires p.Valid() && p.HasNode(n) && IsLoopbackHole(p, d)
    ensures Trace(p, n, d, links) == InFlight(n)
    decreases links
  {
    hide Step, IsLoopbackHole;
    LoopbackHoleStep(p, n, d);
    if links > 0 {
      LoopbackHoleTrace(p, n, d, links - 1);
    }
  }

  // ---------- every other packet comes to rest ----------

  /** The subnets of the access points that have Wi-Fi. */
  predicate InSomeWifi(p: Plan, d: Address)
    requires p.Valid()
  {
    Quad(10, 1, 1, 0) <= d < Quad(10, 1, 0, 0) + p.N() * 0x100
  }

  /** A bound on the links a packet for d still crosses from n. */
  function Rank(p: Plan, n: Node, d: Address): (r: nat)
    requires p.Valid() && p.HasNode(n)
    ensures r <= 6
  {
    var fromCer := if InSomeWifi(p, d) then 3 else if InSubnet(p, Epc, d) then 2 else 1;
    if Local(p, n, d) then 0 else
      match n
      case Cer => fromCer
      case Pgw => if InSubnet(p, Epc, d) || InSubnet(p, S5, d) || InSubnet(p, PgwCer, d) then 1 else 1 + fromCer
      case Sgw => 1
      case Mme => 1
      case Server(_) => 1 + fromCer
      case Router(i) =>
        if InSubnet(p, P2p(i), d) then 1
        else if i > 0 && InSubnet(p, Wifi(i), d) then 2
        else 1 + fromCer
      case Ap(i) =>
        if i == 0 || InSubnet(p, P2p(i), d) || (i > 0 && InSubnet(p, Wifi(i), d)) then 1 else 2 + fromCer
      case Station(i, _) =>
        if i == 0 then 2 + fromCer
        else if InSubnet(p, Wifi(i), d) then 1
        else if InSubnet(p, P2p(i), d) then 2
        else 3 + fromCer
  }

  /** On a point-to-point link, an address that is no hole and not the node's own is the peer's. */
  lemma PeerIsLocal(p: Plan, n: Node, k: nat, m: Node, q: nat, d: Address)
    requires p.Valid() && p.HasNode(n) && p.HasNode(m)
    requires 1 <= k < |FinalStack(p, n).ifaces| && 1 <= q < |FinalStack(p, m).ifaces|
    requires var l := FinalStack(p, n).ifaces[k].link;
             && FinalStack(p, m).ifaces[q].link == l && n != m
             && p.HasLink(l) && InSubnet(p, l, d) && PointToPoint(l) && !IsHole(p, l, d)
    requires !Local(p, n, d)
    ensures Local(p, m, d)
  {
    var i := IfacesAreDevices(p, n, k);
    var j := IfacesAreDevices(p, m, q);
    if d == FinalStack(p, n).ifaces[k].addr || d == FinalStack(p, n).ifaces[k].broadcast {
      LocalBy(p, n, k, d);
    }
    LocalBy(p, m, q, FinalStack(p, m).ifaces[q].addr);
  }

  lemma ForwardedIsNotLocal(p: Plan, n: Node, d: Address)
    requires p.Valid() && p.HasNode(n) && Step(p, n, d).Forward?
    ensures !Local(p, n, d)
  {
    hide Best, IsLocal, FinalStack;
  }

  lemma DescendCerTo(p: Plan, l: Link, d: Address)
    requires p.Valid() && p.HasLink(l) && !OutOfSight(l) && InSubnet(p, l, d)
    requires !IsHole(p, l, d) && !Local(p, Cer, d)
    ensures var m := CerNext(p, l); p.HasNode(m) && Rank(p, m, d) < Rank(p, Cer, d)
  {
    hide Local, InSubnet, InSomeWifi, IsHole;
    OnlySubnet(p, l, d);
    match l {
      case RouterCer(i) => CerPeerIsLocal(p, l, i + 1, Router(i), 1, d);
      case ServerCer(q) => ServerIndexUnique(q); CerPeerIsLocal(p, l, p.N() + 1 + q, Server(SERVERS[q]), 1, d);
      case PgwCer => CerPeerIsLocal(p, l, p.N() + 7, Pgw, 3, d);
      case Wifi(i) => WifiIsSomeWifi(p, i, d); assert !InSubnet(p, P2p(i), d);
      case Epc => EpcIsNotWifi(p, d);
    }
  }

  lemma CerPeerIsLocal(p: Plan, l: Link, k: nat, m: Node, q: nat, d: Address)
    requires p.Valid() && p.HasNode(m) && m != Cer && p.HasLink(l) && PointToPoint(l)
    requires 1 <= k < |FinalStack(p, Cer).ifaces| && 1 <= q < |FinalStack(p, m).ifaces|
    requires FinalStack(p, Cer).ifaces[k].link == FinalStack(p, m).ifaces[q].link == l
    requires InSubnet(p, l, d) && !IsHole(p, l, d) && !Local(p, Cer, d)
    ensures Local(p, m, d)
  {
    hide FinalStack;
    PeerIsLocal(p, Cer, k, m, q, d);
  }

  lemma WifiIsSomeWifi(p: Plan, i: nat, d: Address)
    requires p.Valid() && p.HasLink(Wifi(i)) && InSubnet(p, Wifi(i), d)
    ensures InSomeWifi(p, d)
  {}

  lemma EpcIsNotWifi(p: Plan, d: Address)
    requires p.Valid() && InSubnet(p, Epc, d)
    ensures !InSomeWifi(p, d)
  {}

  lemma DescendCer(p: Plan, d: Address)
    requires p.Valid() && !Loops(p, Cer, d) && Step(p, Cer, d).Forward?
    ensures var m := Step(p, Cer, d).next; p.HasNode(m) && Rank(p, m, d) < Rank(p, Cer, d)
  {
    hide Step, Local, Rank, InSubnet;
    ForwardedIsNotLocal(p, Cer, d);
    OffLoopback(p, Cer, d);
    if k: nat :| k < 2 * p.N() + 8 && InSubnet(p, CerLink(p, k), d) {
      var l := CerLink(p, k);
      StepCer(p, d, k);
      assert Reaches(p, Cer, l);
      DescendCerTo(p, l, d);
    } else {
      StepCerDrops(p, d);
      assert false;
    }
  }

  lemma DescendPgw(p: Plan, d: Address)
    requires p.Valid() && !Loops(p, Pgw, d) && Step(p, Pgw, d).Forward?
    ensures var m := Step(p, Pgw, d).next; p.HasNode(m) && Rank(p, m, d) < Rank(p, Pgw, d)
  {
    hide Step, Local, InSomeWifi, Resolve;
    ForwardedIsNotLocal(p, Pgw, d);
    OffLoopback(p, Pgw, d);
    StepPgw(p, d);
    if InSubnet(p, Epc, d) {
      ResolvedIsLocal(p, Epc, d);
    } else if InSubnet(p, S5, d) {
      assert Reaches(p, Pgw, S5);
      PeerIsLocal(p, Pgw, 2, Sgw, 1, d);
    } else if InSubnet(p, PgwCer, d) {
      assert Reaches(p, Pgw, PgwCer);
      PeerIsLocal(p, Pgw, 3, Cer, p.N() + 7, d);
    }
  }

  lemma DescendSgw(p: Plan, d: Address)
    requires p.Valid() && !Loops(p, Sgw, d) && Step(p, Sgw, d).Forward?
    ensures var m := Step(p, Sgw, d).next; p.HasNode(m) && Rank(p, m, d) < Rank(p, Sgw, d)
  {
    hide Step, Local, InSomeWifi;
    ForwardedIsNotLocal(p, Sgw, d);
    OffLoopback(p, Sgw, d);
    StepSgw(p, d);
    assert Reaches(p, Sgw, S5) && Reaches(p, Sgw, S11) && Reaches(p, Sgw, S1u);
    if InSubnet(p, S5, d) {
      PeerIsLocal(p, Sgw, 1, Pgw, 2, d);
    } else if InSubnet(p, S11, d) {
      PeerIsLocal(p, Sgw, 2, Mme, 1, d);
    } else if InSubnet(p, S1u, d) {
      PeerIsLocal(p, Sgw, 3, Ap(0), 1, d);
    }
  }

  lemma DescendMme(p: Plan, d: Address)
    requires p.Valid() && !Loops(p, Mme, d) && Step(p, Mme, d).Forward?
    ensures var m := Step(p, Mme, d).next; p.HasNode(m) && Rank(p, m, d) < Rank(p, Mme, d)
  {
    hide Step, Local, InSomeWifi;
    ForwardedIsNotLocal(p, Mme, d);
    OffLoopback(p, Mme, d);
    StepMme(p, d);
    assert Reaches(p, Mme, S11);
    PeerIsLocal(p, Mme, 1, Sgw, 2, d);
  }

  lemma DescendServer(p: Plan, s: ServerName, d: Address)
    requires p.Valid() && !Loops(p, Server(s), d) && Step(p, Server(s), d).Forward?
    ensures var m := Step(p, Server(s), d).next; p.HasNode(m) && Rank(p, m, d) < Rank(p, Server(s), d)
  {
    hide Step, Local;
    ForwardedIsNotLocal(p, Server(s), d);
    OffLoopback(p, Server(s), d);
    StepServer(p, s, d);
  }

  lemma DescendRouter(p: Plan, i: nat, d: Address)
    requires p.Valid() && i < p.N() && !Loops(p, Router(i), d) && Step(p, Router(i), d).Forward?
    ensures var m := Step(p, Router(i), d).next; p.HasNode(m) && Rank(p, m, d) < Rank(p, Router(i), d)
  {
    hide Step, Local;
    ForwardedIsNotLocal(p, Router(i), d);
    OffLoopback(p, Router(i), d);
    StepRouter(p, i, d);
    if InSubnet(p, RouterCer(i), d) {
      assert Reaches(p, Router(i), RouterCer(i));
      OnlySubnet(p, RouterCer(i), d);
      PeerIsLocal(p, Router(i), 1, Cer, i + 1, d);
    } else if InSubnet(p, P2p(i), d) {
      assert Reaches(p, Router(i), P2p(i));
      PeerIsLocal(p, Router(i), 2, Ap(i), if i == 0 then 2 else 1, d);
    }
  }

  lemma DescendAp0(p: Plan, d: Address)
    requires p.Valid() && !Loops(p, Ap(0), d) && Step(p, Ap(0), d).Forward?
    ensures var m := Step(p, Ap(0), d).next; p.HasNode(m) && Rank(p, m, d) < Rank(p, Ap(0), d)
  {
    hide Step, Local, InSomeWifi;
    ForwardedIsNotLocal(p, Ap(0), d);
    OffLoopback(p, Ap(0), d);
    StepAp0(p, d);
    if InSubnet(p, S1u, d) {
      assert Reaches(p, Ap(0), S1u);
      PeerIsLocal(p, Ap(0), 1, Sgw, 3, d);
    } else {
      assert Reaches(p, Ap(0), P2p(0));
      PeerIsLocal(p, Ap(0), 2, Router(0), 2, d);
    }
  }

  lemma DescendAp(p: Plan, i: nat, d: Address)
    requires p.Valid() && 0 < i < p.N() && !Loops(p, Ap(i), d) && Step(p, Ap(i), d).Forward?
    ensures var m := Step(p, Ap(i), d).next; p.HasNode(m) && Rank(p, m, d) < Rank(p, Ap(i), d)
  {
    hide Step, Local, Resolve;
    ForwardedIsNotLocal(p, Ap(i), d);
    OffLoopback(p, Ap(i), d);
    StepAp(p, i, d);
    if InSubnet(p, P2p(i), d) {
      assert Reaches(p, Ap(i), P2p(i));
      PeerIsLocal(p, Ap(i), 1, Router(i), 2, d);
    } else if InSubnet(p, Wifi(i), d) {
      ResolvedIsLocal(p, Wifi(i), d);
    }
  }

  lemma DescendStation(p: Plan, i: nat, j: nat, d: Address)
    requires p.Valid() && p.HasNode(Station(i, j)) && !Loops(p, Station(i, j), d) && Step(p, Station(i, j), d).Forward?
    ensures var m := Step(p, Station(i, j), d).next; p.HasNode(m) && Rank(p, m, d) < Rank(p, Station(i, j), d)
  {
    hide Step, Local, Resolve;
    ForwardedIsNotLocal(p, Station(i, j), d);
    OffLoopback(p, Station(i, j), d);
    StepStation(p, i, j, d);
    if i > 0 && InSubnet(p, Wifi(i), d) {
      ResolvedIsLocal(p, Wifi(i), d);
    }
  }

  lemma CoreUpstream(p: Plan, n: Node, d: Address, l: Link)
    requires p.Valid() && (n == Cer || n == Pgw || n == Sgw || n == Mme) && p.HasLink(l) && InSubnet(p, l, d)
    requires Step(p, n, d).Forward? && p.HasNode(Step(p, n, d).next) && Reaches(p, Step(p, n, d).next, l)
    ensures Reaches(p, n, l)
  {
    hide Local, Step, Resolve;
    OnlySubnet(p, l, d);
    ForwardedIsNotLocal(p, n, d);
    match n
    case Cer => StepCerTo(p, l, d);
    case Pgw => StepPgw(p, d);
    case Sgw => StepSgw(p, d);
    case Mme => StepMme(p, d);
  }

  /** A node that forwards a packet for a subnet to a node which reaches that subnet reaches it too. */
  lemma ReachesUpstream(p: Plan, n: Node, d: Address, l: Link)
    requires p.Valid() && p.HasNode(n) && p.HasLink(l) && InSubnet(p, l, d)
    requires Step(p, n, d).Forward? && p.HasNode(Step(p, n, d).next) && Reaches(p, Step(p, n, d).next, l)
    ensures Reaches(p, n, l)
  {
    hide Local, Step, Resolve;
    OnlySubnet(p, l, d);
    ForwardedIsNotLocal(p, n, d);
    match n
    case Ap(i) => if i == 0 { StepAp0(p, d); } else { StepAp(p, i, d); }
    case Router(i) => StepRouter(p, i, d);
    case Server(s) => StepServer(p, s, d);
    case Station(i, j) => StepStation(p, i, j, d);
    case _ => CoreUpstream(p, n, d, l);
  }

  /** Outside the loops every hop strictly lowers the rank, also on paths that climb to the edge
      router and come down again. */
  lemma HopsDescend(p: Plan, n: Node, d: Address)
    requires p.Valid() && p.HasNode(n) && !Loops(p, n, d) && Step(p, n, d).Forward?
    ensures var m := Step(p, n, d).next;
            p.HasNode(m) && !Loops(p, m, d) && Rank(p, m, d) < Rank(p, n, d)
  {
    hide Step, Rank, Local;
    match n {
      case Cer => DescendCer(p, d);
      case Pgw => DescendPgw(p, d);
      case Sgw => DescendSgw(p, d);
      case Mme => DescendMme(p, d);
      case Ap(i) => if i == 0 { DescendAp0(p, d); } else { DescendAp(p, i, d); }
      case Router(i) => DescendRouter(p, i, d);
      case Server(s) => DescendServer(p, s, d);
      case Station(i, j) => DescendStation(p, i, j, d);
    }
    var m := Step(p, n, d).next;
    if Loops(p, m, d) {
      var l :| p.HasLink(l) && Reaches(p, m, l) && IsHole(p, l, d);
      ReachesUpstream(p, n, d, l);
      assert false;
    }
  }

  lemma {:induction false} TraceSettles(p: Plan, n: Node, d: Address, links: nat)
    requires p.Valid() && p.HasNode(n) && !Loops(p, n, d) && Rank(p, n, d) <= links
    ensures !Trace(p, n, d, links).InFlight?
    decreases links
  {
    hide Step, Rank, Loops;
    if Step(p, n, d).Forward? {
      HopsDescend(p, n, d);
      TraceSettles(p, Step(p, n, d).next, d, links - 1);
    }
  }

  /** The exact law: from every node and for every 32-bit destination a packet has come to rest
      after at most six links, unless it loops, and then it never does. */
  lemma {:induction false} SettlesWithinSixLinks(p: Plan, n: Node, d: Address)
    requires p.Valid() && p.HasNode(n)
    ensures !Loops(p, n, d) <==> !Trace(p, n, d, 6).InFlight?
    ensures Loops(p, n, d) ==> forall links: nat :: Trace(p, n, d, links).InFlight?
  {
    hide Step, Trace;
    if IsLoopbackHole(p, d) {
      forall links: nat ensures Trace(p, n, d, links).InFlight? {
        LoopbackHoleTrace(p, n, d, links);
      }
    } else if Loops(p, n, d) {
      var l :| p.HasLink(l) && Reaches(p, n, l) && IsHole(p, l, d);
      forall links: nat ensures Trace(p, n, d, links).InFlight? {
        HoleTrace(p, n, l, d, links);
      }
    } else {
      TraceSettles(p, n, d, 6);
    }
  }

  /** Both kinds of loops exist in every fabric: a server's packet for the network address of the
      first router link, and anybody's packet for 127.0.0.2, are in flight for ever. */
  lemma {:induction false} LoopsExist(p: Plan, n: Node, links: nat)
    requires p.Valid() && p.HasNode(n)
    ensures Trace(p, Server(Rtt), Quad(10, 200, 1, 0), links).InFlight?
    ensures Trace(p, n, Quad(127, 0, 0, 2), links).InFlight?
  {
    hide Trace;
    HoleTrace(p, Server(Rtt), RouterCer(0), Quad(10, 200, 1, 0), links);
    LoopbackHoleTrace(p, n, Quad(127, 0, 0, 2), links);
  }

  /** Every node takes 255.255.255.255, multicast packets, its own addresses and the broadcast
      addresses of its subnets, and no node takes anything else: wherever a packet is delivered, it
      is one of these there. */
  lemma {:induction false} DeliveredOnlyWhereTaken(p: Plan, n: Node, d: Address, links: nat)
    requires p.Valid() && p.HasNode(n)
    ensures Takes(FinalStack(p, n).ifaces, d) ==> Trace(p, n, d, links) == DeliveredAt(n)
    ensures var o := Trace(p, n, d, links);
            o.DeliveredAt? ==> p.HasNode(o.node) && Takes(FinalStack(p, o.node).ifaces, d)
    decreases links
  {
    hide FinalStack, Step, IsLocal, Takes;
    DeliveredIsLocal(p, n, d);
    TakesIsLocal(FinalStack(p, n).ifaces, d);
    if links > 0 && Step(p, n, d).Forward? && p.HasNode(Step(p, n, d).next) {
      DeliveredOnlyWhereTaken(p, Step(p, n, d).next, d, links - 1);
    }
  }

  /** What a node with these interfaces takes, in dotted form. */
  predicate Takes(ifaces: seq<Iface>, d: Address) {
    || d == Quad(255, 255, 255, 255)
    || Quad(224, 0, 0, 0) <= d <= Quad(239, 255, 255, 255)
    || exists f | f in ifaces :: d == f.addr || d == f.broadcast
  }

  lemma TakesIsLocal(ifaces: seq<Iface>, d: Address)
    ensures Takes(ifaces, d) <==> IsLocal(ifaces, d)
  {
    if f: Iface :| f in ifaces && (d == f.addr || d == f.broadcast) {
      var k :| 0 <= k < |ifaces| && ifaces[k] == f;
      assert d == ifaces[k].addr || d == ifaces[k].broadcast;
    }
  }

  /** So a packet for an address that nobody takes and that does not loop is dropped. */
  lemma {:induction false} NobodysIsDropped(p: Plan, n: Node, d: Address)
    requires p.Valid() && p.HasNode(n) && !Loops(p, n, d)
    requires forall m | p.HasNode(m) :: !Takes(FinalStack(p, m).ifaces, d)
    ensures Trace(p, n, d, 6).DroppedAt?
  {
    hide Trace, Loops, FinalStack, Takes;
    SettlesWithinSixLinks(p, n, d);
    DeliveredOnlyWhereTaken(p, n, d, 6);
  }

  // ---------- delivery ----------

  lemma AssignedDoesNotLoop(p: Plan, n: Node, l: Link, j: nat)
    requires p.Valid() && p.HasNode(n) && p.HasLink(l) && j < |Devices(p, l)|
    ensures !Loops(p, n, AddressOn(p, l, j))
  {
    var d := AddressOn(p, l, j);
    OnlySubnet(p, l, d);
  }

  /** An address that was handed out is local at the node it was handed to, and nowhere else. */
  lemma LocalIsOwner(p: Plan, n: Node, l: Link, j: nat)
    requires p.Valid() && p.HasNode(n) && p.HasLink(l) && j < |Devices(p, l)|
    ensures Local(p, n, AddressOn(p, l, j)) <==> n == Devices(p, l)[j]
  {
    hide FinalStack, Devices, IfaceIndex, Local;
    var d := AddressOn(p, l, j);
    if n == Devices(p, l)[j] {
      IfaceIndexIs(p, l, j);
      LocalBy(p, n, IfaceIndex(p, l, j), d);
    } else {
      NotLocal(p, n, l, d);
    }
  }

  /** Where a device's interface is at its node. */
  function IfaceIndex(p: Plan, l: Link, j: nat): (k: nat)
    requires p.Valid() && p.HasLink(l) && j < |Devices(p, l)|
    ensures k >= 1
  {
    if Devices(p, l)[j] == Cer then CerIndex(p, l) else
      match l
      case RouterCer(_) => 1
      case ServerCer(_) => 1
      case PgwCer => 3
      case P2p(i) => if j == 0 && i > 0 then 1 else 2
      case Wifi(_) => if j == 0 then 2 else 1
      case S5 => if j == 0 then 2 else 1
      case S11 => if j == 0 then 1 else 2
      case S1u => if j == 0 then 1 else 3
      case Epc => 1
  }

  lemma IfaceIndexIs(p: Plan, l: Link, j: nat)
    requires p.Valid() && p.HasLink(l) && j < |Devices(p, l)|
    ensures var n, k := Devices(p, l)[j], IfaceIndex(p, l, j);
            p.HasNode(n) && k < |FinalStack(p, n).ifaces| && FinalStack(p, n).ifaces[k] == IfaceOn(p, l, j)
  {
    hide FinalStack, IfaceOn;
    DevicesBelong(p, l, j);
    if Devices(p, l)[j] == Cer {
      CerIfaceIs(p, CerIndex(p, l));
    } else if InCore(l) || l == PgwCer || l == P2p(0) {
      CoreIfaceIs(p, l, j);
    } else {
      EdgeIfaceIs(p, l, j);
    }
  }

  lemma CerIfaceIs(p: Plan, k: nat)
    requires p.Valid() && 1 <= k < p.N() + 8
    ensures |FinalStack(p, Cer).ifaces| == p.N() + 8 && |Devices(p, CerLink(p, k))| == 2
    ensures FinalStack(p, Cer).ifaces[k] == IfaceOn(p, CerLink(p, k), 1)
  {}

  lemma CoreIfaceIs(p: Plan, l: Link, j: nat)
    requires p.Valid() && (InCore(l) || l == PgwCer || l == P2p(0)) && j < |Devices(p, l)| && Devices(p, l)[j] != Cer
    ensures var n, k := Devices(p, l)[j], IfaceIndex(p, l, j);
            p.HasNode(n) && k < |FinalStack(p, n).ifaces| && FinalStack(p, n).ifaces[k] == IfaceOn(p, l, j)
  {
    hide CerStack, CerIndex, Connected, Default, ToLink;
  }

  lemma EdgeIfaceIs(p: Plan, l: Link, j: nat)
    requires p.Valid() && p.HasLink(l) && !InCore(l) && l != PgwCer && l != P2p(0)
    requires j < |Devices(p, l)| && Devices(p, l)[j] != Cer
    ensures var n, k := Devices(p, l)[j], IfaceIndex(p, l, j);
            p.HasNode(n) && k < |FinalStack(p, n).ifaces| && FinalStack(p, n).ifaces[k] == IfaceOn(p, l, j)
  {
    hide CerStack, CerIndex, Connected, Default, ToLink;
  }

  lemma OwnerReaches(p: Plan, l: Link, j: nat)
    requires p.Valid() && p.HasLink(l) && j < |Devices(p, l)|
    ensures p.HasNode(Devices(p, l)[j]) && Reaches(p, Devices(p, l)[j], l)
  {
    DevicesBelong(p, l, j);
  }

  /** On the way to an assigned address no node but the owner keeps or drops the packet. */
  lemma DeliveryStep(p: Plan, n: Node, l: Link, j: nat)
    requires p.Valid() && p.HasNode(n) && p.HasLink(l) && j < |Devices(p, l)|
    requires Reaches(p, n, l)
    ensures var d := AddressOn(p, l, j);
            var h := Step(p, n, d);
            if n == Devices(p, l)[j] then h.Delivered?
            else h.Forward? && p.HasNode(h.next) && Reaches(p, h.next, l) && Rank(p, h.next, d) < Rank(p, n, d)
  {
    var d := AddressOn(p, l, j);
    LocalIsOwner(p, n, l, j);
    OnlySubnet(p, l, d);
    if n != Devices(p, l)[j] {
      assert Answered(p, l, d);
      hide Step, Rank, Local, Reaches, Loops, Answered, AddressOn, InSubnet, Devices, IsMulticast;
      Onward(p, n, l, d);
      AssignedDoesNotLoop(p, n, l, j);
      HopsDescend(p, n, d);
    }
  }

  lemma {:induction false} DeliveryTrace(p: Plan, n: Node, l: Link, j: nat, links: nat)
    requires p.Valid() && p.HasNode(n) && p.HasLink(l) && j < |Devices(p, l)|
    requires Reaches(p, n, l) && Rank(p, n, AddressOn(p, l, j)) <= links
    ensures Trace(p, n, AddressOn(p, l, j), links) == DeliveredAt(Devices(p, l)[j])
    decreases links
  {
    hide Step, Rank, Reaches, AddressOn;
    var d := AddressOn(p, l, j);
    DeliveryStep(p, n, l, j);
    if n != Devices(p, l)[j] {
      DeliveryTrace(p, Step(p, n, d).next, l, j, links - 1);
    }
  }

  lemma DeliveredIsLocal(p: Plan, n: Node, d: Address)
    requires p.Valid() && p.HasNode(n)
    ensures Step(p, n, d) == Delivered <==> Local(p, n, d)
  {
    hide FinalStack, Best, IsLocal, Resolve;
  }

  lemma NoDeliveryStep(p: Plan, n: Node, l: Link, j: nat)
    requires p.Valid() && p.HasNode(n) && p.HasLink(l) && j < |Devices(p, l)|
    requires !Reaches(p, n, l)
    ensures var h := Step(p, n, AddressOn(p, l, j));
            h.Dropped? || (h.Forward? && p.HasNode(h.next) && !Reaches(p, h.next, l)
                           && Rank(p, h.next, AddressOn(p, l, j)) < Rank(p, n, AddressOn(p, l, j)))
  {
    hide Step, Rank, Local, Reaches, Loops, AddressOn;
    var d := AddressOn(p, l, j);
    LocalIsOwner(p, n, l, j);
    OwnerReaches(p, l, j);
    AssignedDoesNotLoop(p, n, l, j);
    DeliveredIsLocal(p, n, d);
    if Step(p, n, d).Forward? {
      HopsDescend(p, n, d);
      if Reaches(p, Step(p, n, d).next, l) {
        ReachesUpstream(p, n, d, l);
      }
    }
  }

  lemma {:induction false} NoDeliveryTrace(p: Plan, n: Node, l: Link, j: nat, links: nat)
    requires p.Valid() && p.HasNode(n) && p.HasLink(l) && j < |Devices(p, l)|
    requires !Reaches(p, n, l) && Rank(p, n, AddressOn(p, l, j)) <= links
    ensures Trace(p, n, AddressOn(p, l, j), links).DroppedAt?
    decreases links
  {
    hide Step, Rank, Reaches, AddressOn;
    var d := AddressOn(p, l, j);
    NoDeliveryStep(p, n, l, j);
    if Step(p, n, d).Forward? {
      NoDeliveryTrace(p, Step(p, n, d).next, l, j, links - 1);
    }
  }

  /** For every address that was handed out and every starting node: the packet is delivered to the
      node it was handed to, within six links, exactly if the start reaches that subnet; from
      everywhere else it is dropped. */
  lemma {:induction false} DeliveredIffReaches(p: Plan, n: Node, l: Link, j: nat)
    requires p.Valid() && p.HasNode(n) && p.HasLink(l) && j < |Devices(p, l)|
    ensures Reaches(p, n, l) ==> Trace(p, n, AddressOn(p, l, j), 6) == DeliveredAt(Devices(p, l)[j])
    ensures !Reaches(p, n, l) ==> Trace(p, n, AddressOn(p, l, j), 6).DroppedAt?
  {
    hide Trace;
    if Reaches(p, n, l) {
      DeliveryTrace(p, n, l, j, 6);
    } else {
      NoDeliveryTrace(p, n, l, j, 6);
    }
  }

  /** Not everybody reaches everybody: a packet at access point 0 for the first server is dropped,
      and so is a server's packet for the serving gateway. */
  lemma {:induction false} SomeAreCutOff(p: Plan)
    requires p.Valid()
    ensures Trace(p, Ap(0), Quad(10, 201, 1, 1), 6).DroppedAt?
    ensures Trace(p, Server(Rtt), Quad(14, 0, 0, 6), 6).DroppedAt?
  {
    hide Trace;
    DeliveredIffReaches(p, Ap(0), ServerCer(0), 0);
    DeliveredIffReaches(p, Server(Rtt), S5, 1);
  }

  /** Stations, user equipments included, and servers. */
  predicate IsHost(p: Plan, n: Node) { p.HasNode(n) && (n.Station? || n.Server?) }

  function HostLink(n: Node): Link
    requires n.Station? || n.Server?
  {
    if n.Server? then ServerCer(ServerIndex(n.name)) else if n.ap == 0 then Epc else Wifi(n.ap)
  }

  function HostAddress(p: Plan, n: Node): Address
    requires p.Valid() && IsHost(p, n)
  {
    AddressOn(p, HostLink(n), if n.Server? then 0 else n.slot)
  }

  /** The address by which a host is reached is the one of its interface. */
  lemma HostAddressIs(p: Plan, n: Node)
    requires p.Valid() && IsHost(p, n)
    ensures FinalStack(p, n).ifaces[1].addr == HostAddress(p, n)
    ensures match n
            case Server(s) =>
              HostAddress(p, n) == Quad(10, 201, match s case Rtt => 1 case UdpVideo => 2 case UdpVoice => 3
                                                 case Streaming => 4 case Browser => 5 case RemoteHost => 6, 1)
            case Station(i, j) => HostAddress(p, n) == if i == 0 then Quad(7, 0, 0, 1) + j else Quad(10, 1, i, j + 1)
            case _ => false
  {}

  /** Any two hosts reach each other in both directions, each within six links. */
  lemma {:induction false} AllPairsDelivery(p: Plan, a: Node, b: Node)
    requires p.Valid() && IsHost(p, a) && IsHost(p, b)
    ensures Trace(p, a, HostAddress(p, b), 6) == DeliveredAt(b)
    ensures Trace(p, b, HostAddress(p, a), 6) == DeliveredAt(a)
  {
    hide Trace, AddressOn;
    DeliveredIffReaches(p, a, HostLink(b), if b.Server? then 0 else b.slot);
    DeliveredIffReaches(p, b, HostLink(a), if a.Server? then 0 else a.slot);
  }

  // ---------- routes ----------

  /** The neighbour a route with a gateway is meant to hand packets to. */
  function Neighbour(p: Plan, n: Node, k: nat): (m: Node)
    requires p.Valid() && p.HasNode(n) && k < |FinalStack(p, n).routes|
    ensures p.HasNode(m)
  {
    match n
    case Cer => CerNext(p, CerLink(p, k))
    case Ap(i) => Router(i)
    case Router(i) => if k == 4 then Ap(i) else Cer
    case Station(i, _) => if i == 0 then Pgw else Ap(i)
    case _ => Cer
  }

  lemma RouteHasInterface(p: Plan, n: Node, k: nat)
    requires p.Valid() && p.HasNode(n) && k < |FinalStack(p, n).routes|
    ensures var st := FinalStack(p, n);
            st.routes[k].iface < |st.ifaces| && p.HasSubnet(st.ifaces[st.routes[k].iface].link)
  {
    if n == Cer {
      CerExits(p, k);
    }
  }

  /** The link of the interface a route names. */
  function ExitLink(p: Plan, n: Node, k: nat): (l: Link)
    requires p.Valid() && p.HasNode(n) && k < |FinalStack(p, n).routes|
    ensures p.HasSubnet(l)
  {
    RouteHasInterface(p, n, k);
    FinalStack(p, n).ifaces[FinalStack(p, n).routes[k].iface].link
  }

  lemma CerGatewayOnLink(p: Plan, k: nat)
    requires p.Valid() && k < 2 * p.N() + 8 && CerRouteAt(p, k).gateway != ANY
    ensures var l, g, m := ExitLink(p, Cer, k), CerRouteAt(p, k).gateway, CerNext(p, CerLink(p, k));
            p.HasNode(m) && m != Cer && InSubnet(p, l, g) && Local(p, m, g)
  {
    hide Local;
    LocalIsOwner(p, CerNext(p, CerLink(p, k)), ExitLink(p, Cer, k), 0);
  }

  /** These nodes have connected routes only, but for the packet gateway. */
  predicate OnCoreLinks(n: Node) { n == Pgw || n == Sgw || n == Mme || n == Ap(0) }

  /** A route without a gateway leads to the subnet of its interface; otherwise the gateway is an
      address on that interface's link, handed to the intended neighbour, which is another node. */
  ghost predicate GatewayOnLink(p: Plan, n: Node, k: nat)
    requires p.Valid() && p.HasNode(n) && k < |FinalStack(p, n).routes|
  {
    var r := FinalStack(p, n).routes[k];
    var l := ExitLink(p, n, k);
    if r.gateway == ANY then r.dest == SubnetBase(p, l) && r.len == SubnetLength(l)
    else InSubnet(p, l, r.gateway) && Neighbour(p, n, k) != n && Local(p, Neighbour(p, n, k), r.gateway)
  }

  lemma CoreGateways(p: Plan, n: Node, k: nat)
    requires p.Valid() && (n == Cer || OnCoreLinks(n)) && k < |FinalStack(p, n).routes|
    ensures GatewayOnLink(p, n, k)
  {
    hide Local;
    match n
    case Cer => if CerRouteAt(p, k).gateway != ANY { CerGatewayOnLink(p, k); }
    case Pgw => LocalIsOwner(p, Cer, PgwCer, 1);
    case _ =>
  }

  /** Every installed route is of this kind. */
  lemma GatewaysOnLink(p: Plan, n: Node, k: nat)
    requires p.Valid() && p.HasNode(n) && k < |FinalStack(p, n).routes|
    ensures GatewayOnLink(p, n, k)
  {
    hide Local, CerStack;
    if n == Cer || OnCoreLinks(n) {
      CoreGateways(p, n, k);
    } else {
      match n
      case Ap(i) => LocalIsOwner(p, Router(i), P2p(i), 1);
      case Router(i) =>
        LocalIsOwner(p, Cer, RouterCer(i), 1);
        LocalIsOwner(p, Ap(i), P2p(i), 0);
      case Server(s) => LocalIsOwner(p, Cer, ServerCer(ServerIndex(s)), 1);
      case Station(i, _) => LocalIsOwner(p, Neighbour(p, n, k), if i == 0 then Epc else Wifi(i), 0);
    }
  }

  /** The link a subnet route leads to. */
  function RouteLink(p: Plan, n: Node, k: nat): (l: Link)
    requires p.Valid() && p.HasNode(n) && k < |FinalStack(p, n).routes|
    ensures p.HasSubnet(l)
  {
    match n
    case Cer => CerLink(p, k)
    case Router(i) => if k == 4 then Wifi(i) else ExitLink(p, n, k)
    case _ => ExitLink(p, n, k)
  }

  /** Every route but a default or aggregate route leads to a subnet. */
  ghost predicate SubnetRoute(p: Plan, n: Node, k: nat)
    requires p.Valid() && p.HasNode(n) && k < |FinalStack(p, n).routes|
  {
    var r, l := FinalStack(p, n).routes[k], RouteLink(p, n, k);
    r.dest == SubnetBase(p, l) && r.len == SubnetLength(l)
  }

  ghost predicate LoneRoute(p: Plan, n: Node, k: nat)
    requires p.Valid() && p.HasNode(n) && k < |FinalStack(p, n).routes|
  {
    var rs := FinalStack(p, n).routes;
    forall q | 0 <= q < |rs| && q != k :: rs[q].len != rs[k].len
  }

  lemma CerRouteKinds(p: Plan, k: nat, q: nat)
    requires p.Valid() && k < |FinalStack(p, Cer).routes| && q < |FinalStack(p, Cer).routes|
    ensures SubnetRoute(p, Cer, k) && (RouteLink(p, Cer, k) == RouteLink(p, Cer, q) ==> k == q)
  {
    hide ExitLink;
  }

  lemma SmallRouteKinds(p: Plan, n: Node, k: nat)
    requires p.Valid() && p.HasNode(n) && n != Cer && k < |FinalStack(p, n).routes|
    ensures LoneRoute(p, n, k) || SubnetRoute(p, n, k)
  {
    hide CerStack, Devices, Quad, CerLink, CerRouteAt, CerIfaceAt, AddressOn;
  }

  lemma CoreRouteLinks(p: Plan, n: Node, k: nat, q: nat)
    requires p.Valid() && OnCoreLinks(n) && k < |FinalStack(p, n).routes| && q < |FinalStack(p, n).routes|
    requires !LoneRoute(p, n, k) && !LoneRoute(p, n, q) && RouteLink(p, n, k) == RouteLink(p, n, q)
    ensures k == q
  {
    hide CerStack, RouterStack, ServerStack, StationStack, EdgeStack, SubnetBase, AddressOn, Devices, Quad;
  }

  lemma EdgeRouteLinks(p: Plan, n: Node, k: nat, q: nat)
    requires p.Valid() && p.HasNode(n) && n != Cer && !OnCoreLinks(n)
    requires k < |FinalStack(p, n).routes| && q < |FinalStack(p, n).routes|
    requires !LoneRoute(p, n, k) && !LoneRoute(p, n, q) && RouteLink(p, n, k) == RouteLink(p, n, q)
    ensures k == q
  {
    hide CerStack, PgwStack, SgwStack, MmeStack, SubnetBase, AddressOn, Devices, Quad;
  }

  /** No two matching routes of a table are equally long, so the order of the table never decides. */
  lemma UniqueWinner(p: Plan, n: Node, d: Address, k: nat, q: nat)
    requires p.Valid() && p.HasNode(n)
    requires k < |FinalStack(p, n).routes| && q < |FinalStack(p, n).routes| && k != q
    requires Matches(FinalStack(p, n).routes[k], d) && Matches(FinalStack(p, n).routes[q], d)
    ensures FinalStack(p, n).routes[k].len != FinalStack(p, n).routes[q].len
  {
    hide Matches, FinalStack, RouteLink;
    var a, b := FinalStack(p, n).routes[k], FinalStack(p, n).routes[q];
    if a.len == b.len {
      assert !LoneRoute(p, n, k) && !LoneRoute(p, n, q);
      if n == Cer {
        CerRouteKinds(p, k, q);
        CerRouteKinds(p, q, k);
      } else {
        SmallRouteKinds(p, n, k);
        SmallRouteKinds(p, n, q);
      }
      var l, m := RouteLink(p, n, k), RouteLink(p, n, q);
      LinkRouteMatches(p, l, a, d);
      LinkRouteMatches(p, m, b, d);
      SubnetsDisjoint(p, l, m, d);
      if OnCoreLinks(n) {
        CoreRouteLinks(p, n, k, q);
      } else if n != Cer {
        EdgeRouteLinks(p, n, k, q);
      }
    }
  }
}
