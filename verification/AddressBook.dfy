/**
 The finished fabric in dotted form: every interface and every route of every node, with the octets
 that the loop indices of master/topology.cc put into addresses.  Nothing here is stated through the
 address plan of Fabric.
 */
module AddressBook {
  import opened Ipv4
  import opened Fabric

  /** The four numbers of a dotted address are its octets, the first being the highest. */
  lemma QuadOctets(a: Octet, b: Octet, c: Octet, d: Octet)
    ensures var q := Quad(a, b, c, d);
            && q % 0x100 == d && q / 0x100 % 0x100 == c
            && q / 0x100 / 0x100 % 0x100 == b && q / 0x100 / 0x100 / 0x100 == a
  {
    var x := 0x100 * a + b;
    var y := 0x100 * x + c;
    assert Quad(a, b, c, d) == 0x100 * y + d;
    LastOctet(y, d);
    LastOctet(x, c);
    LastOctet(a, b);
  }

  lemma LastOctet(front: nat, last: Octet)
    ensures (0x100 * front + last) / 0x100 == front && (0x100 * front + last) % 0x100 == last
  {}

  lemma RouterInDotted(p: Plan, i: nat)
    requires p.Valid() && i < p.N()
    ensures FinalStack(p, Router(i)) ==
            Stack([Iface(Loopback, Quad(127, 0, 0, 1), 8, Quad(127, 255, 255, 255)),
                   Iface(RouterCer(i), Quad(10, 200, i + 1, 1), 30, Quad(10, 200, i + 1, 3)),
                   Iface(P2p(i), Quad(10, 0, i + 1, 2), 24, Quad(10, 0, i + 1, 255))],
                  [Route(Quad(127, 0, 0, 0), 8, ANY, 0),
                   Route(Quad(10, 200, i + 1, 0), 30, ANY, 1),
                   Route(ANY, 0, Quad(10, 200, i + 1, 2), 1),
                   Route(Quad(10, 0, i + 1, 0), 24, ANY, 2)]
                  + if i == 0 then [] else [Route(Quad(10, 1, i, 0), 24, Quad(10, 0, i + 1, 1), 2)])
  {}

  /** Server k of the list has 10.201.(k + 1).1 and the edge router at 10.201.(k + 1).2. */
  lemma ServerInDotted(p: Plan, k: nat)
    requires p.Valid() && k < 6
    ensures var name := [Rtt, UdpVideo, UdpVoice, Streaming, Browser, RemoteHost][k];
            FinalStack(p, Server(name)) ==
            Stack([Iface(Loopback, Quad(127, 0, 0, 1), 8, Quad(127, 255, 255, 255)),
                   Iface(ServerCer(k), Quad(10, 201, k + 1, 1), 30, Quad(10, 201, k + 1, 3))],
                  [Route(Quad(127, 0, 0, 0), 8, ANY, 0),
                   Route(Quad(10, 201, k + 1, 0), 30, ANY, 1),
                   Route(ANY, 0, Quad(10, 201, k + 1, 2), 1)])
  {}

  lemma ApInDotted(p: Plan, i: nat)
    requires p.Valid() && 0 < i < p.N()
    ensures FinalStack(p, Ap(i)) ==
            Stack([Iface(Loopback, Quad(127, 0, 0, 1), 8, Quad(127, 255, 255, 255)),
                   Iface(P2p(i), Quad(10, 0, i + 1, 1), 24, Quad(10, 0, i + 1, 255)),
                   Iface(Wifi(i), Quad(10, 1, i, 1), 24, Quad(10, 1, i, 255))],
                  [Route(Quad(127, 0, 0, 0), 8, ANY, 0),
                   Route(Quad(10, 0, i + 1, 0), 24, ANY, 1),
                   Route(Quad(10, 1, i, 0), 24, ANY, 2),
                   Route(ANY, 0, Quad(10, 0, i + 1, 2), 1)])
  {}

  /** The base station has connected routes only. */
  lemma BaseStationInDotted(p: Plan)
    requires p.Valid()
    ensures FinalStack(p, Ap(0)) ==
            Stack([Iface(Loopback, Quad(127, 0, 0, 1), 8, Quad(127, 255, 255, 255)),
                   Iface(S1u, Quad(10, 0, 0, 5), 30, Quad(10, 0, 0, 7)),
                   Iface(P2p(0), Quad(10, 0, 1, 1), 24, Quad(10, 0, 1, 255))],
                  [Route(Quad(127, 0, 0, 0), 8, ANY, 0),
                   Route(Quad(10, 0, 0, 4), 30, ANY, 1),
                   Route(Quad(10, 0, 1, 0), 24, ANY, 2)])
  {}

  lemma StationInDotted(p: Plan, i: nat, j: nat)
    requires p.Valid() && 0 < i < p.N() && 1 <= j < p.sizes[i]
    ensures FinalStack(p, Station(i, j)) ==
            Stack([Iface(Loopback, Quad(127, 0, 0, 1), 8, Quad(127, 255, 255, 255)),
                   Iface(Wifi(i), Quad(10, 1, i, j + 1), 24, Quad(10, 1, i, 255))],
                  [Route(Quad(127, 0, 0, 0), 8, ANY, 0),
                   Route(Quad(10, 1, i, 0), 24, ANY, 1),
                   Route(ANY, 0, Quad(10, 1, i, 1), 1)])
  {}

  lemma UserEquipmentInDotted(p: Plan, j: nat)
    requires p.Valid() && 1 <= j < p.sizes[0]
    ensures FinalStack(p, Station(0, j)) ==
            Stack([Iface(Loopback, Quad(127, 0, 0, 1), 8, Quad(127, 255, 255, 255)),
                   Iface(Epc, Quad(7, 0, 0, 1) + j, 8, Quad(7, 255, 255, 255))],
                  [Route(Quad(127, 0, 0, 0), 8, ANY, 0),
                   Route(Quad(7, 0, 0, 0), 8, ANY, 1),
                   Route(ANY, 0, Quad(7, 0, 0, 1), 1)])
  {}

  lemma PgwInDotted(p: Plan)
    requires p.Valid()
    ensures FinalStack(p, Pgw) ==
            Stack([Iface(Loopback, Quad(127, 0, 0, 1), 8, Quad(127, 255, 255, 255)),
                   Iface(Epc, Quad(7, 0, 0, 1), 8, Quad(7, 255, 255, 255)),
                   Iface(S5, Quad(14, 0, 0, 5), 30, Quad(14, 0, 0, 7)),
                   Iface(PgwCer, Quad(10, 202, 0, 1), 30, Quad(10, 202, 0, 3))],
                  [Route(Quad(127, 0, 0, 0), 8, ANY, 0),
                   Route(Quad(7, 0, 0, 0), 8, ANY, 1),
                   Route(Quad(14, 0, 0, 4), 30, ANY, 2),
                   Route(Quad(10, 202, 0, 0), 30, ANY, 3),
                   Route(ANY, 0, Quad(10, 202, 0, 2), 3),
                   Route(Quad(10, 201, 0, 0), 20, Quad(10, 202, 0, 2), 3)])
  {}

  lemma CoreInDotted(p: Plan)
    requires p.Valid()
    ensures FinalStack(p, Sgw) ==
            Stack([Iface(Loopback, Quad(127, 0, 0, 1), 8, Quad(127, 255, 255, 255)),
                   Iface(S5, Quad(14, 0, 0, 6), 30, Quad(14, 0, 0, 7)),
                   Iface(S11, Quad(13, 0, 0, 6), 30, Quad(13, 0, 0, 7)),
                   Iface(S1u, Quad(10, 0, 0, 6), 30, Quad(10, 0, 0, 7))],
                  [Route(Quad(127, 0, 0, 0), 8, ANY, 0),
                   Route(Quad(14, 0, 0, 4), 30, ANY, 1),
                   Route(Quad(13, 0, 0, 4), 30, ANY, 2),
                   Route(Quad(10, 0, 0, 4), 30, ANY, 3)])
    ensures FinalStack(p, Mme) ==
            Stack([Iface(Loopback, Quad(127, 0, 0, 1), 8, Quad(127, 255, 255, 255)),
                   Iface(S11, Quad(13, 0, 0, 5), 30, Quad(13, 0, 0, 7))],
                  [Route(Quad(127, 0, 0, 0), 8, ANY, 0),
                   Route(Quad(13, 0, 0, 4), 30, ANY, 1)])
  {}

  /** The edge router: an interface per router, server and packet gateway, and behind their connected
      routes one per Wi-Fi subnet and one for the user equipments. */
  lemma CerInDotted(p: Plan)
    requires p.Valid()
    ensures var st, n := FinalStack(p, Cer), p.N();
            && |st.ifaces| == n + 8 && |st.routes| == 2 * n + 8
            && st.ifaces[0] == Iface(Loopback, Quad(127, 0, 0, 1), 8, Quad(127, 255, 255, 255))
            && st.ifaces[n + 7] == Iface(PgwCer, Quad(10, 202, 0, 2), 30, Quad(10, 202, 0, 3))
            && st.routes[0] == Route(Quad(127, 0, 0, 0), 8, ANY, 0)
            && st.routes[n + 7] == Route(Quad(10, 202, 0, 0), 30, ANY, n + 7)
            && st.routes[2 * n + 7] == Route(Quad(7, 0, 0, 0), 8, Quad(10, 202, 0, 1), n + 7)
  {}

  lemma CerRouterInDotted(p: Plan, i: nat)
    requires p.Valid() && i < p.N()
    ensures var st := FinalStack(p, Cer);
            && |st.ifaces| == p.N() + 8 && |st.routes| == 2 * p.N() + 8
            && st.ifaces[i + 1] == Iface(RouterCer(i), Quad(10, 200, i + 1, 2), 30, Quad(10, 200, i + 1, 3))
            && st.routes[i + 1] == Route(Quad(10, 200, i + 1, 0), 30, ANY, i + 1)
            && (i > 0 ==>
                  st.routes[p.N() + 7 + i] == Route(Quad(10, 1, i, 0), 24, Quad(10, 200, i + 1, 1), i + 1))
  {}

  lemma CerServerInDotted(p: Plan, k: nat)
    requires p.Valid() && k < 6
    ensures var st, n := FinalStack(p, Cer), p.N();
            && |st.ifaces| == n + 8 && |st.routes| == 2 * n + 8
            && st.ifaces[n + 1 + k] == Iface(ServerCer(k), Quad(10, 201, k + 1, 2), 30, Quad(10, 201, k + 1, 3))
            && st.routes[n + 1 + k] == Route(Quad(10, 201, k + 1, 0), 30, ANY, n + 1 + k)
  {}
}
