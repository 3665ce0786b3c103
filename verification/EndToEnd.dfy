/**
 From the input to delivered packets: the containers, the link layer and the network layer built
 one after the other, and what that means for any two attached elements.
 */
module EndToEnd {
  import opened Ipv4
  import opened Fabric
  import opened Forwarding
  import opened Delivery
  import opened Access
  import opened NetworkLayer
  import opened AddressBook

  /** The inputs for which the subnets have room. */
  ghost predicate Fits(data: seq<TermData>, k: nat, n: nat) {
    && k <= |data| && 1 <= n <= 255
    && |Container(data, k, n, 0)| <= 0xFF_FFFE
    && forall i | 1 <= i < n :: |Container(data, k, n, i)| <= 0xFE
  }

  function PlanFor(data: seq<TermData>, k: nat, n: nat): Plan
    requires k <= |data|
  {
    PlanOf(Containers(data, k, n))
  }

  /** Terminals, and the monitors that have an access point. */
  predicate IsAttached(k: nat, n: nat, e: Element) {
    match e
    case ApNode(_) => false
    case Monitor(m) => m < Min(MONITORS, n)
    case Terminal(t) => t < k
  }

  /** The access point an element is attached to. */
  function AttachedTo(data: seq<TermData>, n: nat, e: Element): nat
    requires e.Terminal? ==> e.t < |data|
  {
    match e
    case ApNode(i) => i
    case Monitor(m) => m
    case Terminal(t) => ApIndex(data[t].apNo, n)
  }

  function ElementNode(data: seq<TermData>, n: nat, e: Element): Node
    requires e.Terminal? ==> e.t < |data|
  {
    match e
    case ApNode(i) => Ap(i)
    case Monitor(m) => NodeAt(m, 1)
    case Terminal(t) => TerminalNode(data, n, t)
  }

  /** Different elements are different hosts, each behind its access point. */
  lemma ElementsAreHosts(data: seq<TermData>, k: nat, n: nat, e: Element)
    requires Fits(data, k, n) && IsAttached(k, n, e)
    ensures var p := PlanFor(data, k, n);
            && p.Valid() && IsHost(p, ElementNode(data, n, e))
            && ElementNode(data, n, e).Station? && ElementNode(data, n, e).ap == AttachedTo(data, n, e)
  {
    PlanIsValid(data, k, n);
    if e.Terminal? {
      TerminalIsSeated(data, k, n, e.t);
    }
  }

  lemma ElementsDistinct(data: seq<TermData>, k: nat, n: nat, e: Element, f: Element)
    requires Fits(data, k, n) && IsAttached(k, n, e) && IsAttached(k, n, f) && e != f
    ensures ElementNode(data, n, e) != ElementNode(data, n, f)
  {
    if e.Terminal? {
      TerminalIsSeated(data, k, n, e.t);
    }
    if f.Terminal? {
      TerminalIsSeated(data, k, n, f.t);
    }
  }

  /** The address an element gets: user equipments of access point 0 in 7.0.0.0/8, stations of
      access point i in 10.1.i.0/24, numbered by their seat. */
  function ElementAddress(data: seq<TermData>, k: nat, n: nat, e: Element): Address
    requires Fits(data, k, n) && IsAttached(k, n, e)
  {
    ElementsAreHosts(data, k, n, e);
    HostAddress(PlanFor(data, k, n), ElementNode(data, n, e))
  }

  lemma ElementAddressIs(data: seq<TermData>, k: nat, n: nat, e: Element)
    requires Fits(data, k, n) && IsAttached(k, n, e)
    ensures var i, j := AttachedTo(data, n, e), ElementNode(data, n, e).slot;
            && i < n && 1 <= j < |Container(data, k, n, i)| && Container(data, k, n, i)[j] == e
            && ElementAddress(data, k, n, e) == if i == 0 then Quad(7, 0, 0, 0) + 1 + j else Quad(10, 1, i, 1 + j)
  {
    ElementsAreHosts(data, k, n, e);
    if e.Terminal? {
      TerminalIsSeated(data, k, n, e.t);
    }
  }

  /** Element e sits in container i, and its node has this address and this default gateway. */
  ghost predicate HasAddress(nodes: seq<seq<Element>>, stacks: map<Node, Stack>, e: Element, i: nat) {
    i < |nodes| && exists j | 1 <= j < |nodes[i]| && nodes[i][j] == e :: IsAddressedAt(stacks, i, j)
  }

  ghost predicate IsAddressedAt(stacks: map<Node, Stack>, i: nat, j: nat) {
    var st := StackIn(stacks, Station(i, j));
    && |st.ifaces| == 2 && |st.routes| == 3 && i < 256
    && st.ifaces[1].addr == (if i == 0 then Quad(7, 0, 0, 1) + j else Quad(10, 1, i, 0) + 1 + j)
    && st.routes[2] == Route(ANY, 0, if i == 0 then Quad(7, 0, 0, 1) else Quad(10, 1, i, 1), 1)
  }

  /** Server k of this list has its address and its default gateway. */
  ghost predicate ServerHasAddress(stacks: map<Node, Stack>, k: nat)
    requires k < 6
  {
    var st := StackIn(stacks, Server([Rtt, UdpVideo, UdpVoice, Streaming, Browser, RemoteHost][k]));
    && |st.ifaces| == 2 && |st.routes| == 3
    && st.ifaces[1].addr == Quad(10, 201, k + 1, 1) && st.routes[2] == Route(ANY, 0, Quad(10, 201, k + 1, 2), 1)
  }

  lemma TerminalIsAddressed(data: seq<TermData>, k: nat, n: nat, t: nat, stacks: map<Node, Stack>)
    requires Fits(data, k, n) && t < k
    requires forall m | PlanFor(data, k, n).HasNode(m) ::
               PlanFor(data, k, n).Valid() && StackIn(stacks, m) == FinalStack(PlanFor(data, k, n), m)
    ensures HasAddress(Containers(data, k, n), stacks, Terminal(t),
                       if 2 <= data[t].apNo <= n then data[t].apNo - 1 else 0)
  {
    hide FinalStack, StackIn;
    PlanIsValid(data, k, n);
    TerminalIsSeated(data, k, n, t);
    var p := PlanFor(data, k, n);
    var (i, j) := TerminalSeat(data, n, t);
    assert p.HasNode(Station(i, j));
    if i == 0 {
      UserEquipmentInDotted(p, j);
    } else {
      StationInDotted(p, i, j);
    }
    assert IsAddressedAt(stacks, i, j);
  }

  /** Any two attached elements, wherever the input put them, have different addresses and reach
      each other in both directions. */
  lemma ElementsReachEachOther(data: seq<TermData>, k: nat, n: nat, e: Element, f: Element)
    requires Fits(data, k, n) && IsAttached(k, n, e) && IsAttached(k, n, f) && e != f
    ensures var p, x, y := PlanFor(data, k, n), ElementNode(data, n, e), ElementNode(data, n, f);
            && p.Valid() && IsHost(p, x) && IsHost(p, y)
            && ElementAddress(data, k, n, e) != ElementAddress(data, k, n, f)
            && Trace(p, x, ElementAddress(data, k, n, f), 6) == DeliveredAt(y)
            && Trace(p, y, ElementAddress(data, k, n, e), 6) == DeliveredAt(x)
  {
    hide Trace, HostAddress, TerminalNode, NodeAt;
    ElementsAreHosts(data, k, n, e);
    ElementsAreHosts(data, k, n, f);
    ElementsDistinct(data, k, n, e, f);
    AllPairsDelivery(PlanFor(data, k, n), ElementNode(data, n, e), ElementNode(data, n, f));
    AllPairsDelivery(PlanFor(data, k, n), ElementNode(data, n, e), ElementNode(data, n, e));
  }

  /** Likewise for every attached element and every server. */
  lemma {:induction false} ServersReachElements(data: seq<TermData>, k: nat, n: nat, e: Element, s: ServerName)
    requires Fits(data, k, n) && IsAttached(k, n, e)
    ensures var p, x := PlanFor(data, k, n), ElementNode(data, n, e);
            && p.Valid() && IsHost(p, x)
            && Trace(p, x, HostAddress(p, Server(s)), 6) == DeliveredAt(Server(s))
            && Trace(p, Server(s), ElementAddress(data, k, n, e), 6) == DeliveredAt(x)
  {
    hide Trace, HostAddress;
    ElementsAreHosts(data, k, n, e);
    AllPairsDelivery(PlanFor(data, k, n), ElementNode(data, n, e), Server(s));
  }

  /** The configuration in its order: topology, link layer, network layer.  Every node ends up with
      the stack on which the statements about forwarding rest. */
  method BuildNetwork(apNum: nat, termNum: nat, termData: seq<TermData>) returns (sim: NetSim, net: Ipv4Layer)
    requires Fits(termData, termNum, apNum)
    ensures sim.wifiNodes == Containers(termData, termNum, apNum) && sim.nrUes == sim.wifiNodes[0][1..]
    ensures net.plan == PlanFor(termData, termNum, apNum) && net.plan.Valid()
    ensures forall n | net.plan.HasNode(n) :: StackIn(net.stacks, n) == FinalStack(net.plan, n)
    ensures net.remoteHostAddress == Quad(10, 201, 6, 1)
    ensures forall k: nat | k < 6 :: ServerHasAddress(net.stacks, k)
    ensures forall t: nat | t < termNum ::
              HasAddress(sim.wifiNodes, net.stacks, Terminal(t),
                         if 2 <= termData[t].apNo <= apNum then termData[t].apNo - 1 else 0)
  {
    hide Trace, FinalStack, At, Container, HasAddress, StackIn;
    PlanIsValid(termData, termNum, apNum);
    sim := new NetSim(apNum, termNum, termData);
    sim.CreateNetworkTopology();
    sim.ConfigureNrForAp0();
    net := new Ipv4Layer(PlanOf(sim.wifiNodes));
    net.ConfigureDataLinkLayer();
    net.ConfigureNetworkLayer();
    forall k: nat | k < 6
      ensures ServerHasAddress(net.stacks, k)
    {
      ServerInDotted(net.plan, k);
    }
    forall t: nat | t < termNum
      ensures HasAddress(sim.wifiNodes, net.stacks, Terminal(t),
                         if 2 <= termData[t].apNo <= apNum then termData[t].apNo - 1 else 0)
    {
      TerminalIsAddressed(termData, termNum, apNum, t, net.stacks);
    }
  }
}
