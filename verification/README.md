# A verified model of the access-point scenario and its 5G-LENA companions

This project models, in Dafny, the algorithmic parts of an ns-3 simulation code base and proves
properties of them.

* **The routed fabric of `master/topology.cc`.** Access points, their monitors and terminals, one
  router per access point, a common edge router (`Cer`), six servers, and the core network of an NR
  cell: packet gateway (`Pgw`), serving gateway (`Sgw`) and mobility manager (`Mme`), with access
  point 0 as its base station. Addresses and routes are derived from loop indices. `Access.NetSim` and
  `NetworkLayer.Ipv4Layer` are classes that run these loops and update containers, interfaces and
  routing tables in place; they are proved to end in `Fabric.FinalStack`, a closed form of every
  interface list and routing table, and `AddressBook` spells that out in dotted form, octet by octet,
  for every kind of node. `Forwarding` defines one forwarding hop over these tables and
  the trace of a packet, and `Delivery` proves the global laws: which packets come to rest and after
  how many links, which never do, and who receives what.
* **The RTT store-and-forward agent of `master/RttForwarderApp.cc`.** `RttMachine` is the agent with
  the part of the simulator it talks to, as a state machine; the environment chooses every callback
  (also those of sockets closed long ago) and every result of `Send`. `RttForwarder.RttForwarderApp`
  is the class with the original's fields, each method proved to perform one step of the machine.
  Closing a socket can call back into the agent, so methods that close one are followed to a given
  depth of such calls. `RttRuns` proves what holds over whole runs of events that return, `RttSends`
  on which sockets messages go out, `RttStuck` which events never return.
* **Sectors, quotas and per-cell settings** of `contrib/nr/examples/cttc-nr-traffic-ngmn-mixed.cc`
  and `cttc-fh-compression.cc` (`Sectors`, `Quota`, `CellConfig`).
* **Text input**: the splitter, trimming, integer lists, terminal records and the table of
  modulation and coding schemes (`Text`, `Input`, `Mcs`), each against a printer.
* **`SelectWellPlacedUes`** of `contrib/nr/examples/cttc-3gpp-indoor-calibration.cc` (`Selection`).

`dafny verify dfyconfig.toml` checks everything.

## What turned out false of the code

Seven statements one would like to make about the code do not hold. For each there is an input for
which it fails, and the exact condition under which it holds.

* *Forwarding never loops.* Point-to-point devices do not resolve addresses, so a packet for an
  address of a point-to-point subnet that neither end owns and that is not the subnet's broadcast
  address (10.200.x.0 and the like, or 10.0.x.77) is handed back and forth between the two ends
  until its time to live runs out. And every node has a connected route to the loopback's network,
  so a packet for 127.0.0.2 goes round inside whatever node it is at. `Delivery.LoopsExist` gives
  both; `Delivery.SettlesWithinSixLinks` is the exact law: a packet comes to rest within six links
  if and only if its destination is neither a loopback address that no node takes, nor such a hole
  of a point-to-point subnet its start reaches.
* *Everybody reaches every address.* Access point 0 has no default route, and neither have the
  serving gateway and the mobility manager; the subnets between access points and routers and those
  of the core network are known only next to them, the one between the gateways also to the user
  equipments (`Delivery.SomeAreCutOff`).
  `Delivery.DeliveredIffReaches` says exactly who reaches whom. All hosts (terminals, attached
  monitors and servers) do reach each other.
* *A started agent with a remote has a socket or a pending reconnect.* Not if the remote is set
  after the start (`RttRuns.RemoteSetTooLate`). `RttRuns.RetryingUnlessIdle` gives the exact
  condition, read off the events alone.
* *A failed connection attempt is retried within a second.* The error handler closes its socket
  before it forgets it. Closing a socket that is still dialling calls the error handler first
  (`tcp-socket-base.cc`, lines 1145 to 1150 and 2934 to 2940), which closes the same socket again, and
  so on: the very first failed attempt never returns, nor does a stop while dialling or a reconnect that
  replaces a socket that was dialled early (`RttStuck.FirstDialNeverReturns`,
  `RttStuck.ReplacedDialNeverReturns`). Closing a socket with unread data does the same
  (`RttStuck.UnreadDataNeverReturns`). `RttStuck.NeverReturnsExactly` is the exact law: an event does
  not return, however deep the calls are followed, if and only if it closes a current socket that has
  unread data or dials with nothing to send. So a failed attempt is retried exactly if a message was
  handed to the dialling socket (`RttStuck.FailedDialReturnsExactly`), and never in a run that sends on
  established connections only (`RttStuck.FailedDialNeverReturns`). Other losses are retried within a
  second (`RttRuns.LossSchedulesReconnect`, `RttRuns.RetryWithinOneSecond`).
* *Messages are sent on established connections.* The connected flag is one for all sockets. If a
  socket is lost between its handshake and its connect callback, the callback sets the flag, the agent
  dials a new socket, and the next message goes out on that one while it is still dialling
  (`RttSends.LateCallbackSends`). `RttSends.SentOnConfirmedExactly` has the exact condition; without
  late callbacks it cannot happen (`RttSends.TimelyNetworkIsSafe`).
* *The traffic quotas cover the sector exactly when all percentages are multiples of ten.* They are
  sufficient, but with 100 terminals any percentages do, 5, 5, 30, 30, 30 for instance
  (`Quota.FivesCover`). `Quota.CoversExactlyWhenUnrounded` has the exact condition, including the
  16-bit width of the quotas.
* *A base station's scheme and its packet rate come from the same slot.* Schemes are numbered sector
  by sector and rates site by site. With two sites base station 1 has its rate in slot 1 and its scheme
  in slot 2 (`CellConfig.TwoSitesDisagree`); if no two schemes are the same, all slots agree exactly on
  a single site (`CellConfig.SchemeOfRateSlotExactly`).

Three quirks are kept as they are: with non-uniform patterns, rates and schemes no branch sets a
scheme and it stays 0 (`CellConfig.EverythingNonUniformMeansZero`), `SelectWellPlacedUes` looks at
one terminal even when asked for none (`Selection.AskingForNobody`), and a doubled blank in a
terminal's record leaves a number of it indeterminate (`Input.DoubledBlankLeavesIndeterminate`).

The help texts of the traffic example ask for percentages that are multiples of ten
(`cttc-nr-traffic-ngmn-mixed.cc`, lines 704 to 727), but the code does not check it; the model
follows the code.

## Model

| member | source | states |
|---|---|---|
| `Ipv4.LookupStatic` | src/internet/model/ipv4-static-routing.cc:231-312 | The scan over a table ends with the entry `Best` defines; a host route ends it early without changing the outcome. |
| `Ipv4.BestIsLongest` | src/internet/model/ipv4-static-routing.cc:231-312 | The lookup fails exactly when nothing matches; otherwise its result matches and no match is longer (section 5.2.4.3 of RFC 1812). |
| `Ipv4.MatchesInterval` | src/internet/model/ipv4-static-routing.cc:255-263 | Comparing masked addresses is membership in one interval of addresses. |
| `Ipv4.TieBreak` | src/internet/model/ipv4-static-routing.cc:264-300 | Of equally long matches the last one in the table is found; of host routes the first. |
| `Access.NetSim.CreateNetworkTopology` | master/topology.cc:57-83 | Every container has its access point at slot 0, the first three their monitor at slot 1, then terminals in input order; numbers 2 to APnum put a terminal into the container one below, everything else into container 0. |
| `Access.NetSim.CreateWifiApNodes` | master/topology.cc:85-94 | Every container starts with its access point. |
| `Access.NetSim.CreateMonitorNodes` | master/topology.cc:96-112 | Three monitors always exist; the first min(3, APnum) sit in slot 1 of their containers, which hold nothing else yet but the access point. |
| `Access.NetSim.CreateTerminalNodes` | master/topology.cc:114-127 | A terminal is in container i >= 1 exactly if its number is i + 1, in container 0 exactly if it is none of 2 to APnum; terminals keep their input order. |
| `Access.NetSim.ConfigureNrForAp0` | master/topology.cc:807-815 | The user equipments of the NR cell are container 0 without its access point. |
| `Access.TerminalIsSeated` | master/topology.cc:114-127 | Every terminal is found at its seat: behind the access point, its monitor and the earlier terminals there. |
| `Access.SeatsAreUnique` | master/topology.cc:85-127 | Whatever sits at slot 1 or later is a terminal at its own seat or the access point's monitor at slot 1, so nobody sits twice. |
| `Access.AccessPartition` | master/topology.cc:85-127 | Container i >= 1 has exactly the terminals with number i + 1 and, for i < 3, monitor i; container 0 has everybody else: user equipments and Wi-Fi stations partition the terminals. |
| `Access.NumbersDecide` | master/topology.cc:114-127 | The same for all containers at once. |
| `Access.InputOrder` | master/topology.cc:96-127 | Behind the access point and its monitor come terminals only, and they keep their input order. |
| `Access.SizesSum` | master/topology.cc:85-127 | Container sizes sum to APnum + min(3, APnum) + termNum. |
| `Access.PlanIsValid` | master/topology.cc:96-127 | With at most 255 access points and containers that fit their subnets, the address plan is well formed, container 0 having at least one user equipment. |
| `Fabric.SubnetsDisjoint` | master/topology.cc:517-680 | The subnets generated from loop indices, 7.0.0.0/8, the core network's and the loopback's are pairwise disjoint. |
| `Fabric.IfacesAreDevices` | master/topology.cc:517-689 | Every interface but the loopback is one device of one link with that device's address. |
| `Fabric.AddressesUnique` | master/topology.cc:517-689 | No two interfaces in the whole fabric, loopbacks aside, have the same address. |
| `AddressBook.QuadOctets` | master/topology.cc:524-526 | The four numbers of a dotted address are its octets, the first the highest. |
| `AddressBook.RouterInDotted` | master/topology.cc:517-701 | Router i in dotted form: 10.200.(i+1).1/30 towards the edge router at .2, 10.0.(i+1).2/24 towards access point i, a route to 10.1.i.0/24 for i >= 1. |
| `AddressBook.ServerInDotted` | master/topology.cc:561-591 | Server k of the list in dotted form: 10.201.(k+1).1/30 and the default route to 10.201.(k+1).2. |
| `AddressBook.ApInDotted` | master/topology.cc:646-694 | Access point i >= 1: 10.0.(i+1).1/24, 10.1.i.1/24 and the default route to 10.0.(i+1).2. |
| `AddressBook.BaseStationInDotted` | master/topology.cc:646-672 | Access point 0: 10.0.0.5/30 and 10.0.1.1/24, connected routes only. |
| `AddressBook.StationInDotted` | master/topology.cc:678-733 | Station j of access point i: 10.1.i.(j+1)/24 and the default route to 10.1.i.1. |
| `AddressBook.UserEquipmentInDotted` | contrib/nr/helper/nr-no-backhaul-epc-helper.cc:521-538 | User equipment j: 7.0.0.1 plus j in 7.0.0.0/8 and the default route to 7.0.0.1. |
| `AddressBook.PgwInDotted` | master/topology.cc:598-627 | The packet gateway: 7.0.0.1, 14.0.0.5, 10.202.0.1, a default route to 10.202.0.2 and the route to 10.201.0.0/20. |
| `AddressBook.CoreInDotted` | contrib/nr/helper/nr-no-backhaul-epc-helper.cc:35-214 | The serving gateway and the mobility manager with their links in 14.0.0.4/30, 13.0.0.4/30 and 10.0.0.4/30. |
| `AddressBook.CerInDotted` | master/topology.cc:598-757 | The edge router's loopback, its link to the packet gateway and its route to 7.0.0.0/8 by 10.202.0.1. |
| `AddressBook.CerRouterInDotted` | master/topology.cc:517-749 | The edge router's 10.200.(i+1).2/30 towards router i and its route to 10.1.i.0/24 by 10.200.(i+1).1. |
| `AddressBook.CerServerInDotted` | master/topology.cc:563-572 | The edge router's 10.201.(k+1).2/30 towards server k. |
| `NetworkLayer.Ipv4Layer.constructor` | src/internet/model/ipv4-l3-protocol.cc:338-371 | Every node starts with the loopback interface and the connected route of its network. |
| `NetworkLayer.Ipv4Layer.ConfigureDataLinkLayer` | master/topology.cc:183-195 | Every link has its devices in node order, access point 0 has no Wi-Fi devices, and the core network with its links is set up. |
| `NetworkLayer.Ipv4Layer.ConfigureWifiDevices` | master/topology.cc:197-208 | Access points 1 and up get Wi-Fi links, access point 0 none. |
| `NetworkLayer.Ipv4Layer.ConfigureLTE` | master/topology.cc:333-382 | The access point's device comes first, then one per station in container order. |
| `NetworkLayer.Ipv4Layer.ConfigureNrForAp0` | master/topology.cc:777-828 | The core network and the base station have come as far as the closed form says, and the user equipments get their devices in container order. |
| `NetworkLayer.Ipv4Layer.InstallUeDevice` | master/topology.cc:807-820 | One device per user equipment, in container order. |
| `NetworkLayer.Ipv4Layer.CreateEpc` | contrib/nr/helper/nr-no-backhaul-epc-helper.cc:35-214 | The gateways and the mobility manager get the tunnel and the links 14.0.0.4/30 and 13.0.0.4/30, nobody else changes. |
| `NetworkLayer.Ipv4Layer.AddTunnel` | contrib/nr/helper/nr-no-backhaul-epc-helper.cc:82-97 | The packet gateway's tunnel gets the first address of 7.0.0.0/8. |
| `NetworkLayer.Ipv4Layer.AddCoreLink` | contrib/nr/helper/nr-no-backhaul-epc-helper.cc:110-121 | A core link takes the second network of its address helper and gives each end its next interface and route. |
| `NetworkLayer.Ipv4Layer.AddGnb` | contrib/nr/helper/nr-point-to-point-epc-helper.cc:90-125 | Access point 0 and the serving gateway get the link 10.0.0.4/30. |
| `NetworkLayer.Ipv4Layer.ConfigureP2PDevices` | master/topology.cc:228-235 | Access point and router, in this order, on every link between them. |
| `NetworkLayer.Ipv4Layer.ConfigureRouterCerLinks` | master/topology.cc:237-253 | Router and edge router, in this order. |
| `NetworkLayer.Ipv4Layer.ConfigureServerCerLinks` | master/topology.cc:255-272 | The server links in the order in which the server nodes are listed. |
| `NetworkLayer.Ipv4Layer.ConfigurePgwCerLink` | master/topology.cc:274-285 | Packet gateway and edge router, in this order. |
| `NetworkLayer.Ipv4Layer.Assign` | src/internet/helper/ipv4-address-helper.cc:119-177 | Consecutive addresses go to the devices in order, each with its interface and connected route. |
| `NetworkLayer.AssignedOnce` | src/internet/helper/ipv4-address-helper.cc:119-177 | Addressing distinct nodes gives each exactly one interface and changes nobody else. |
| `NetworkLayer.Ipv4Layer.AddNetworkRouteTo` | src/internet/model/ipv4-static-routing.cc:55-115 | A route is appended unless the table has it already. |
| `NetworkLayer.Ipv4Layer.GetInterfaceForDevice` | src/internet/model/ipv4-l3-protocol.cc:476-486 | The index of the first interface on the link, or -1 exactly when there is none. |
| `NetworkLayer.RouteExtends` | master/topology.cc:517-757 | No table has a route twice, so adding the next route of the closed form always extends the table by it. |
| `NetworkLayer.Ipv4Layer.ConnectRouters` | master/topology.cc:517-559 | All routers and the edge router have come as far as the closed form says; addresses and interface indices recorded for later loops are right. |
| `NetworkLayer.Ipv4Layer.ConnectRouter` | master/topology.cc:517-559 | One round: addresses on 10.200.(i+1).0/30, the router's default route to the edge router, nothing else changed. |
| `NetworkLayer.Ipv4Layer.ConnectServers` | master/topology.cc:561-596 | All server links are addressed and 10.201.6.1 is recorded as the remote host's address. |
| `NetworkLayer.Ipv4Layer.ConnectServer` | master/topology.cc:563-596 | One round: the server has 10.201.(k+1).1/30 and its default route to 10.201.(k+1).2, nothing else changed. |
| `NetworkLayer.Ipv4Layer.ConnectPgw` | master/topology.cc:598-639 | The packet gateway's link, its default route and its route to the servers. |
| `NetworkLayer.Ipv4Layer.ConnectAccessPoints` | master/topology.cc:646-734 | All access points, their routers' routes to them, and all stations are as in the closed form; 0.0.0.0 is recorded for access point 0 only. |
| `NetworkLayer.Ipv4Layer.LinkAccessPoint` | master/topology.cc:646-667 | One access point and its router get their link; nobody else changes. |
| `NetworkLayer.Ipv4Layer.ConnectWifi` | master/topology.cc:674-733 | One access point with Wi-Fi: its default route, its router's route to the Wi-Fi subnet, and all its stations. |
| `NetworkLayer.Ipv4Layer.ConnectStation` | master/topology.cc:710-733 | The search over interfaces finds the Wi-Fi interface and the default route names it and the access point. |
| `NetworkLayer.Ipv4Layer.AssignUeIpv4Address` | contrib/nr/helper/nr-no-backhaul-epc-helper.cc:521-538 | User equipments continue the numbering behind the tunnel and get their default route. |
| `NetworkLayer.Ipv4Layer.ConfigureNrIpAfterNetwork` | master/topology.cc:830-869 | After the helper has addressed the user equipments, setting their default routes again changes no table. |
| `NetworkLayer.Ipv4Layer.AddCerRoutes` | master/topology.cc:738-757 | The edge router's routes to the Wi-Fi subnets, skipping access point 0, and to the UE network. |
| `NetworkLayer.Ipv4Layer.ConfigureNetworkLayer` | master/topology.cc:494-757 | After all loops every node has exactly the interfaces and the table of the closed form. |
| `Forwarding.CerBest` | master/topology.cc:738-757 | For an address of a subnet the edge router knows, the loopback's included, the lookup finds the one route to it. |
| `Forwarding.CerNone` | master/topology.cc:738-757 | For any other address the edge router has no route. |
| `Forwarding.RouterBest` | master/topology.cc:536-549 | What a router's lookup gives for every destination, loopback addresses included. |
| `Forwarding.ApBest` | master/topology.cc:684-697 | What the lookup of an access point with Wi-Fi gives for every destination. |
| `Forwarding.ConnectedBest` | src/internet/model/ipv4-static-routing.cc:593-612 | In a table of connected routes (access point 0, serving gateway, mobility manager) the lookup finds the route to the link of the destination, or none. |
| `Forwarding.PgwBest` | master/topology.cc:608-623 | What the packet gateway's lookup gives for every destination. |
| `Forwarding.EdgeBest` | master/topology.cc:578-591 | What the lookup of a server or station gives for every destination. |
| `Forwarding.StepCer` | master/topology.cc:738-757 | The edge router hands a packet for a subnet it knows to the node behind which that subnet is. |
| `Forwarding.StepConnected` | src/internet/model/ipv4-static-routing.cc:498-562 | A node with connected routes only hands a packet to one of its own links or drops it. |
| `Delivery.HoleTrace` | src/point-to-point/model/point-to-point-net-device.cc:575-579 | A packet for a hole of a point-to-point subnet its start reaches is still in flight after any number of links. |
| `Delivery.LoopbackHoleTrace` | src/internet/model/loopback-net-device.cc:168-183 | A packet for an address of 127.0.0.0/8 other than 127.0.0.1 and 127.255.255.255 stays in flight at its node for ever. |
| `Delivery.HopsDescend` | master/topology.cc:517-757 | Unless the packet loops, every hop leads to a node of smaller rank from which it does not loop either, also on paths that climb to the edge router and descend again. |
| `Delivery.SettlesWithinSixLinks` | master/topology.cc:517-757 | For every number of access points, node and 32-bit destination: at rest within six links if and only if it is no loop; and a loop never ends. |
| `Delivery.LoopsExist` | master/topology.cc:517-559 | Both kinds of loop occur: a server's packet for 10.200.1.0 and anybody's packet for 127.0.0.2 are in flight after any number of links. |
| `Delivery.DeliveredOnlyWhereTaken` | src/internet/model/ipv4-l3-protocol.cc:488-549 | Every node takes 255.255.255.255, 224.0.0.0 to 239.255.255.255 and the addresses and broadcast addresses of its interfaces; wherever a packet is delivered, it is one of these there. |
| `Delivery.NobodysIsDropped` | master/topology.cc:517-757 | A packet that does not loop and that no node takes is dropped. |
| `Delivery.LocalIsOwner` | src/internet/model/ipv4-l3-protocol.cc:488-549 | A node takes an assigned address for its own exactly if the address was handed to it. |
| `Delivery.DeliveredIffReaches` | master/topology.cc:517-757 | For every assigned address: delivered to its owner from every node that reaches the subnet, dropped from every other. |
| `Delivery.SomeAreCutOff` | master/topology.cc:669-672 | A packet at access point 0 for the first server is dropped, and so is a server's packet for the serving gateway. |
| `Delivery.HostAddressIs` | master/topology.cc:561-733 | The address by which a host is reached is the one of its interface: 10.201.1.1 to 10.201.6.1 for the servers by name, 10.1.i.(j+1) or 7.0.0.1 plus j for stations. |
| `Delivery.AllPairsDelivery` | master/topology.cc:517-757 | Any two stations, user equipments or servers reach each other in both directions, each within six links. |
| `Delivery.GatewaysOnLink` | master/topology.cc:543-755 | Every route names an interface whose connected subnet contains the gateway, and the gateway address belongs to the intended neighbour; a route without gateway leads to its interface's own subnet. |
| `Delivery.UniqueWinner` | master/topology.cc:517-757 | No two matching routes of one table are equally long, so the order of a table never decides. |
| `EndToEnd.ElementsAreHosts` | master/topology.cc:96-127 | Every attached terminal or monitor is a host of the fabric behind the access point its number names. |
| `EndToEnd.ElementsDistinct` | master/topology.cc:96-127 | Different terminals and monitors are different hosts. |
| `EndToEnd.ElementAddressIs` | master/topology.cc:114-127 | The address of a terminal or monitor follows from its seat: 10.1.i.(1+j), or 7.0.0.0 + 1 + j behind access point 0. |
| `EndToEnd.TerminalIsAddressed` | master/topology.cc:114-733 | In the finished network every terminal has the address and the gateway that its number and its seat give it. |
| `EndToEnd.ElementsReachEachOther` | master/topology.cc:85-757 | Any two attached terminals or monitors, wherever the input puts them, have different addresses and reach each other both ways. |
| `EndToEnd.ServersReachElements` | master/topology.cc:85-757 | Likewise every attached terminal or monitor and every server. |
| `EndToEnd.BuildNetwork` | master/config.cc:248-256 | After the configuration steps in their order, server k of the list has 10.201.(k+1).1 and its gateway, the terminal with number i + 1 sits at a seat j of container i and has 10.1.i.(1+j) with gateway 10.1.i.1, or 7.0.0.(1+j) with 7.0.0.1 behind access point 0; the remote host is 10.201.6.1. |
| `RttMachine.PayloadEnds` | master/RttForwarderApp.cc:116-123 | The text of a datagram is its longest prefix without a NUL byte. |
| `RttMachine.TextsOfOne` | master/RttForwarderApp.cc:109-132 | A datagram contributes its text, or nothing if that is empty. |
| `RttMachine.TextsInOrder` | master/RttForwarderApp.cc:109-132 | The texts of earlier datagrams of one receive come before those of later ones. |
| `RttForwarder.RttForwarderApp.constructor` | master/RttForwarderApp.cc:16-24 | The agent starts with remote 0.0.0.0:8080, listening port 9000, no sockets, no messages and no reconnect. |
| `RttForwarder.RttForwarderApp.SetRemote` | master/RttForwarderApp.cc:33-37 | Changes the remote and nothing else, so no socket is created. |
| `RttForwarder.RttForwarderApp.SetListeningPort` | master/RttForwarderApp.cc:39-42 | Changes the port and nothing else. |
| `RttForwarder.RttForwarderApp.StartApplication` | master/RttForwarderApp.cc:44-48 | One start step: inlet if the bind works, socket if there is a remote. |
| `RttForwarder.RttForwarderApp.StopApplication` | master/RttForwarderApp.cc:50-69 | One stop step: reconnect cancelled, inlet and socket closed, flag cleared, queue emptied; says for every depth of calls whether it has returned. |
| `RttForwarder.RttForwarderApp.SetupUdpSocket` | master/RttForwarderApp.cc:71-87 | The inlet is open afterwards if it was, or if there is a port and the bind works. |
| `RttForwarder.RttForwarderApp.SetupTcpSocket` | master/RttForwarderApp.cc:89-104 | A fresh socket dials the remote unless there is a socket or no remote. |
| `RttForwarder.RttForwarderApp.HandleUdpReceive` | master/RttForwarderApp.cc:106-135 | One receive step: the non-empty texts are queued in order, then the queue is drained as far as `Send` allows. |
| `RttForwarder.RttForwarderApp.HandleTcpConnect` | master/RttForwarderApp.cc:137-142 | One connect step, also for a socket that was closed since its handshake. |
| `RttForwarder.RttForwarderApp.HandleTcpError` | master/RttForwarderApp.cc:144-157 | One loss step: socket forgotten, flag cleared, a reconnect after 1000000000 ns unless one is waiting; for every depth of the calls that closing the socket makes it says whether the handler has returned. |
| `RttForwarder.RttForwarderApp.HandleTcpClose` | master/RttForwarderApp.cc:159-172 | The same step for a close. |
| `RttForwarder.RttForwarderApp.TrySendPending` | master/RttForwarderApp.cc:174-195 | The drain: message by message from the front, each with the next result of `Send`, stopping at the first that is not positive; exactly the messages that made progress leave the queue. |
| `RttForwarder.RttForwarderApp.FireReconnect` | master/RttForwarderApp.cc:153-156 | A due reconnect leaves the event queue and replaces the socket, if closing the old one returns. |
| `RttForwarder.RttForwarderApp.ReconnectTcp` | master/RttForwarderApp.cc:197-206 | The socket is closed, if there is one and closing it returns, and a fresh one dials the remote, if there is one. |
| `RttForwarder.RttForwarderApp.CancelReconnectEvent` | master/RttForwarderApp.cc:208-215 | A waiting reconnect is removed from the event queue and forgotten. |
| `RttForwarder.RttForwarderApp.CloseTcp` | src/internet/model/tcp-socket-base.cc:807-829 | Closing and forgetting the socket: it resets the connection and calls the error handler first if there is unread data, or if it dials with nothing to send. |
| `RttForwarder.RttForwarderApp.CompleteHandshake` | src/internet/model/tcp-socket-base.cc:2360-2390 | The connect callback is scheduled for the same instant, whatever happens to the socket until then. |
| `RttRuns.ReturnsUnlessStuck` | src/internet/model/tcp-socket-base.cc:1126-1165 | At every depth of calls: an event that closes a loud socket is not back, every other one is, in the state the machine gives. |
| `RttRuns.DrainFrame` | master/RttForwarderApp.cc:185-194 | A drain changes only the queue and the log of `Send` calls. |
| `RttRuns.DrainDelivers` | master/RttForwarderApp.cc:185-194 | What a drain delivers followed by what it leaves is the queue it started with. |
| `RttRuns.DrainInOrder` | master/RttForwarderApp.cc:185-194 | Call j of a drain sends message j of the queue on the current socket with result j; all but the last made progress, and what made progress is off the queue. |
| `RttRuns.DrainStopsOnRefusal` | master/RttForwarderApp.cc:189-192 | A drain that leaves something stopped at a `Send` without progress. |
| `RttRuns.SafeOverEveryRun` | master/RttForwarderApp.cc:50-215 | Over every run: the open sockets are the current one or none, one that is not connected is dialling or about to call back, at most one reconnect is scheduled and due within a second, every `Send` went to the only open socket, which had dialled, while the flag was set. |
| `RttRuns.FifoConservation` | master/RttForwarderApp.cc:50-195 | Over every run: messages that left the queue (sent or discarded) followed by those still queued are exactly those that came in, in order. |
| `RttRuns.SentIsDelivered` | master/RttForwarderApp.cc:174-195 | The messages with the fate sent are exactly those for which `Send` made progress, in call order. |
| `RttRuns.LogGrowsByCalls` | master/RttForwarderApp.cc:174-195 | No call is ever removed from the log. |
| `RttRuns.SessionConservation` | master/RttForwarderApp.cc:106-206 | Between stops: accepted is sent followed by queued, across any number of errors, closes and reconnects. |
| `RttRuns.StopDiscardsPending` | master/RttForwarderApp.cc:50-69 | A stop discards exactly the queued messages and sends none. |
| `RttRuns.StopLeavesNothing` | master/RttForwarderApp.cc:50-69 | After a stop that returns there is no inlet, no socket, no flag, no queue and no scheduled reconnect; remote and port stay. |
| `RttRuns.StoppedReceivesNothing` | master/RttForwarderApp.cc:50-87 | Until the next start no datagram can come in. |
| `RttRuns.NeverPushedBack` | master/RttForwarderApp.cc:144-172 | A scheduled reconnect keeps its due time, alone in the queue, until it runs. |
| `RttRuns.LossSchedulesReconnect` | master/RttForwarderApp.cc:144-172 | An error or close returns, at whatever depth of calls, if and only if there is no current socket or closing it does not call back; then there is no socket and one reconnect: the one that was waiting, unchanged, or one exactly a second later. |
| `RttRuns.RetryWithinOneSecond` | master/RttForwarderApp.cc:144-206 | If more than a second has passed since a loss that returned, without a stop, a new socket has been created in between. |
| `RttRuns.RetryingUnlessIdle` | master/RttForwarderApp.cc:33-206 | After any run whose events all return the agent has neither a socket nor a waiting reconnect if and only if the events say so. |
| `RttRuns.RetryingWhileRunning` | master/RttForwarderApp.cc:44-206 | With the remote set before the start and as long as events return, every later state until a stop has a socket or a reconnect due within a second. |
| `RttRuns.RemoteSetTooLate` | master/RttForwarderApp.cc:33-48 | A run with the remote set after the start that has neither. |
| `RttRuns.RecoveryEmptiesQueue` | master/RttForwarderApp.cc:106-206 | From every safe state with a remote a continuation without new data, whose events all return, empties the queue. |
| `RttRuns.SessionRecoverable` | master/RttForwarderApp.cc:106-206 | Every session that started empty and whose events all returned can be continued so that what was sent is exactly what came in. |
| `RttSends.FlagLiesExactly` | master/RttForwarderApp.cc:137-172 | The connected flag is set without the current socket's own callback if and only if the events say so. |
| `RttSends.StepCallsGoTo` | master/RttForwarderApp.cc:174-195 | Every `Send` of an event goes to the socket that is current afterwards, with the flag set. |
| `RttSends.SentOnConfirmedExactly` | master/RttForwarderApp.cc:137-195 | Over every run: all `Send` calls went to sockets whose own connect callback had arrived, if and only if no event met the guard of the send loop while the run was stale. |
| `RttSends.TimelyNetworkIsSafe` | master/RttForwarderApp.cc:137-195 | If every connect callback is the current socket's own, every `Send` goes to a confirmed socket. |
| `RttSends.LateCallbackSends` | master/RttForwarderApp.cc:137-195 | A possible run in which the callback of a socket lost after its handshake makes the agent send on one that is still dialling. |
| `RttSends.HarmlessLateCallback` | master/RttForwarderApp.cc:137-195 | A possible run with such a late callback in which nothing goes out on a wrong socket, so the absence of late callbacks is not necessary. |
| `RttSends.SendsGoToRemotes` | master/RttForwarderApp.cc:89-104 | Over every run: every `Send` goes to a socket that dialled a real address which was the remote at some time. |
| `RttSends.SendsExactly` | master/RttForwarderApp.cc:174-195 | An event calls `Send` if and only if it meets the guard of the send loop before it. |
| `RttStuck.NeverReturnsExactly` | src/internet/model/tcp-socket-base.cc:807-829 | An event returns at no depth of calls if and only if it closes a current socket that has unread data or dials with nothing to send. |
| `RttStuck.FailedDialReturnsExactly` | master/RttForwarderApp.cc:144-172 | A failed connection attempt returns, and a reconnect then waits, if and only if a message was handed to the dialling socket. |
| `RttStuck.ConfirmedDialsNoMore` | src/internet/model/tcp-socket-base.cc:2312-2406 | Over every run: a socket whose connect callback has come is not dialling any more. |
| `RttStuck.FailedDialNeverReturns` | master/RttForwarderApp.cc:144-172 | After every run that sent on confirmed sockets only, the failure of a connection attempt never returns. |
| `RttStuck.MisledDialIsRetried` | master/RttForwarderApp.cc:144-195 | A possible run after which a failed connection attempt does return and is retried: a message was sent on the dialling socket. |
| `RttStuck.FirstDialNeverReturns` | master/RttForwarderApp.cc:44-69 | The first attempt: an error, a close or a stop while it lasts never returns. |
| `RttStuck.ReplacedDialNeverReturns` | master/RttForwarderApp.cc:197-206 | A run in which a waiting reconnect replaces a socket dialled early for a datagram, and never returns. |
| `RttStuck.UnreadDataNeverReturns` | src/internet/model/tcp-socket-base.cc:811-820 | A run after which the close of an established connection, by either side, never returns because the peer has sent data. |
| `Sectors.SplitIntoSectors` | contrib/nr/examples/cttc-nr-traffic-ngmn-mixed.cc:842-887 | The loop by index modulo 3 deals elements r, r + 3, r + 6, ... to sector r. |
| `Sectors.SectorsPartition` | contrib/nr/examples/cttc-nr-traffic-ngmn-mixed.cc:842-887 | No element is lost or dealt twice. |
| `Sectors.ServingCellIsRoundRobin` | contrib/nr/examples/cttc-nr-traffic-ngmn-mixed.cc:1005-1011 | The closed form over sector, index and site is attachment round robin over all cells. |
| `Sectors.AttachAll` | contrib/nr/examples/cttc-fh-compression.cc:1173-1253 | Through the loop-built containers, each terminal is attached exactly once, to the base station that is its number modulo the number of cells. |
| `Sectors.LoadOfCell` | contrib/nr/examples/cttc-nr-traffic-ngmn-mixed.cc:1005-1039 | How many terminals a cell serves, for any number of terminals and sites. |
| `Sectors.EveryCellServesItsShare` | contrib/nr/examples/cttc-nr-traffic-ngmn-mixed.cc:826-830 | With uesPerGnb terminals per cell, every cell serves exactly uesPerGnb. |
| `Sectors.LambdaPerCell` | contrib/nr/examples/cttc-nr-traffic-ngmn-mixed.cc:1109-1131 | One rate for all cells, or 1000 + 2000 times the cell number. |
| `Sectors.RatesOfSector` | contrib/nr/examples/cttc-nr-traffic-ngmn-mixed.cc:1732-1846 | The slot (i % sites) * 3 + s used for terminal i of sector s is the rate of the cell that serves it. |
| `Sectors.InstallTraffic` | contrib/nr/examples/cttc-fh-compression.cc:1384-1529 | Over all three sector loops, sector by sector, every terminal gets exactly one client, at the rate in slot u modulo the number of cells, that of its serving cell. |
| `Quota.AssignIds` | contrib/nr/examples/cttc-nr-traffic-ngmn-mixed.cc:945-995 | Accepts exactly the inputs the checks allow; kind k gets as many ids as its own percentage asks for, computed in 32 and 16 bits; below 16 bits the kinds follow one another in order, together the first ids. |
| `Quota.BlocksHaveSizes` | contrib/nr/examples/cttc-nr-traffic-ngmn-mixed.cc:957-961 | Kind k gets n / 10 * p[k] / 10 ids, in 32 bits and cut to 16. |
| `Quota.BlocksInOrder` | contrib/nr/examples/cttc-nr-traffic-ngmn-mixed.cc:957-995 | Below 16 bits every id of a kind is below every id of the next one, and together they are the first ids; those of FTP are the ids below n / 10 * p[0] / 10. |
| `Quota.QuotaBound` | contrib/nr/examples/cttc-nr-traffic-ngmn-mixed.cc:957-995 | Accepted sizes up to 16 bits: blocks disjoint, together the first ids of the sector, at most four terminals left over. |
| `Quota.CoversExactlyWhenUnrounded` | contrib/nr/examples/cttc-nr-traffic-ngmn-mixed.cc:957-995 | Everybody gets traffic if and only if the size fits 16 bits and no quota is rounded. |
| `Quota.MultiplesOfTenCover` | contrib/nr/examples/cttc-nr-traffic-ngmn-mixed.cc:957-995 | Percentages that are multiples of ten suffice. |
| `Quota.OtherPercentagesCoverToo` | contrib/nr/examples/cttc-nr-traffic-ngmn-mixed.cc:957-995 | They are not necessary: with 100 terminals any accepted percentages cover the sector. |
| `Quota.FivesCover` | contrib/nr/examples/cttc-nr-traffic-ngmn-mixed.cc:957-995 | The accepted percentages 5, 5, 30, 30, 30 cover a sector of 100. |
| `Quota.DisjointExactlyWhenTheyFit` | contrib/nr/examples/cttc-nr-traffic-ngmn-mixed.cc:957-995 | No terminal gets two kinds of traffic if and only if the quotas together fit the 16-bit index. |
| `Quota.QuotaVanishes` | contrib/nr/examples/cttc-nr-traffic-ngmn-mixed.cc:957-961 | 655360 terminals, all meant for FTP, get nothing. |
| `CellConfig.MaxMcsPerCell` | contrib/nr/examples/cttc-fh-compression.cc:551-597 | The table per branch: the first scheme everywhere, first and second for odd and even cells, the given vector, or zero where no branch applies. |
| `CellConfig.GridConfig.ConfigureSector` | contrib/nr/examples/cttc-fh-compression.cc:601-677 | One sector loop sets its base stations in order with consecutive cell numbers, and aborts exactly on a number of bandwidth parts other than 1 or 2. |
| `CellConfig.GridConfig.ConfigureCells` | contrib/nr/examples/cttc-fh-compression.cc:599-835 | The setting made as number id is for base station b with id == b % 3 * sites + b / 3, with the pattern and the scheme its branch asks for. |
| `CellConfig.SettingsInWords` | contrib/nr/examples/cttc-fh-compression.cc:551-835 | Which base station each setting is for, and its pattern and scheme in every branch: the first scheme for all when schemes, or patterns and rates, are uniform. |
| `CellConfig.EveryCellOnce` | contrib/nr/examples/cttc-fh-compression.cc:599-835 | Every base station is set exactly once, at the position that is its cell number. |
| `CellConfig.PatternAndSchemeAgree` | contrib/nr/examples/cttc-fh-compression.cc:572-586 | Uniform rates, different patterns and schemes, TDD: first scheme exactly with first pattern, second with second. |
| `CellConfig.EverythingNonUniformMeansZero` | contrib/nr/examples/cttc-fh-compression.cc:552-597 | Given non-zero schemes, a cell gets 0 if and only if nothing is uniform. |
| `CellConfig.SchemeAndRateIndex` | contrib/nr/examples/cttc-fh-compression.cc:599-835 | When the number of a base station in the scheme table is its number in the rate table. |
| `CellConfig.IndicesAgreeOnSingleSite` | contrib/nr/examples/cttc-fh-compression.cc:588-597 | The two numberings agree for all base stations if and only if there is one site. |
| `CellConfig.SchemeOfBaseStation` | contrib/nr/examples/cttc-fh-compression.cc:588-596 | With uniform patterns, different rates and different schemes, base station b gets the scheme in the slot of its cell number, once. |
| `CellConfig.SchemeOfRateSlotExactly` | contrib/nr/examples/cttc-fh-compression.cc:601-834 | If no two schemes are the same, all base stations get the scheme of their rate's slot if and only if there is one site. |
| `CellConfig.TwoSitesDisagree` | contrib/nr/examples/cttc-fh-compression.cc:601-834 | On two sites base station 1 gets the scheme in slot 2 and not the one in slot 1, that of its rate. |
| `Text.GetLine` | master/NetSim.h:150-152 | Reads the next field, up to a delimiter or the end; fails exactly at the end. |
| `Text.Split` | master/NetSim.h:144-154 | The loop collects the fields of the text. |
| `Text.JoinOfFields` | master/NetSim.h:144-154 | Fields contain no delimiter, and joining them restores the text up to a delimiter at its end. |
| `Text.FieldsOfJoin` | master/config.cc:128-138 | A non-empty list of delimiter-free fields is read back, but for an empty last field. |
| `Text.SplitRoundTrip` | master/config.cc:128-138 | The round trip succeeds if and only if the last field is not empty. |
| `Text.TrimTakesBlanks` | master/config.cc:15-24 | Trimming takes away blanks only, at both ends, and all of them. |
| `Text.TrimUndoesPadding` | master/config.cc:15-24 | It undoes any padding with blanks. |
| `Text.TrimmedCharacters` | master/config.cc:15-24 | Blank, tab, line feed and carriage return are trimmed, and no other character. |
| `Text.StoiOfDecimal` | master/config.cc:53 | A printed 32-bit number is read back, whatever follows it. |
| `Text.StoiReads` | master/config.cc:53 | Every text falls into white space, sign, digits and rest; without a digit it is an invalid argument, otherwise the signed value, or out of range beyond 32 bits. |
| `Text.ValueOf` | master/config.cc:53 | The value of digits is decimal, the highest digit first. |
| `Text.ExtractJsonArrayInt` | master/config.cc:46-57 | From the captured text on: the numbers of the trimmed, non-empty items, or the first error; found exactly if there is a number. |
| `Text.NumbersReadable` | master/config.cc:46-57 | No exception if and only if every item that is not blank starts with a number in range. |
| `Text.ListRoundTrip` | master/config.cc:46-57 | Any non-empty list of 32-bit numbers, printed with any white space around the commas, is read back. |
| `Input.LoadCapacities` | master/config.cc:101-112 | Without a list every base station gets 100; a list as read keeps its entries and is padded with 100. |
| `Input.CapacitiesAreAsPrinted` | master/config.cc:101-112 | Every base station has the capacity printed for it or 100, and none is missing. |
| `Input.ReadRecords` | master/config.cc:199-222 | One record per line, in order; an exception if and only if some line has too few fields; a blank field leaves its number indeterminate. |
| `Input.ReadIntStores` | master/config.cc:199-222 | A field stores its number, 0 if it is none, the nearest 32-bit limit if it is too large, and nothing if it is white space. |
| `Input.DoubledBlankLeavesIndeterminate` | master/config.cc:199-222 | A line with an empty second field has a record whose application was never set. |
| `Input.RecordRoundTrip` | master/config.cc:199-222 | A printed record has its fields, and its numbers are read back. |
| `Mcs.GetMcsVectorFromInput` | contrib/nr/examples/cttc-fh-compression.cc:132-162 | Every token is looked up in the table; one token that is not there is fatal. |
| `Mcs.LookupInvertsPrinting` | contrib/nr/examples/cttc-fh-compression.cc:135-140 | Looking up succeeds exactly on the decimal forms of schemes 1 to 28, and gives them back. |
| `Mcs.McsRoundTrip` | contrib/nr/examples/cttc-fh-compression.cc:132-162 | Any list of schemes, printed with bars, is read back. |
| `Mcs.AcceptedIsPrinted` | contrib/nr/examples/cttc-fh-compression.cc:132-162 | Whatever is accepted is a printed list, with or without a bar at its end. |
| `Selection.PositionsAre` | contrib/nr/examples/cttc-3gpp-indoor-calibration.cc:326-349 | The positions of well placed terminals increase and include every well placed one and no other. |
| `Selection.TooCloseIsDistance` | contrib/nr/examples/cttc-3gpp-indoor-calibration.cc:326-349 | Too close means that the planar distance, the root of the sum of squares, is below the bound. |
| `Selection.AllWellPlacedAre` | contrib/nr/examples/cttc-3gpp-indoor-calibration.cc:326-355 | The reference list has the terminals at these positions, in order. |
| `Selection.SelectWellPlacedUes` | contrib/nr/examples/cttc-3gpp-indoor-calibration.cc:317-363 | Despite both early exits: all well placed terminals, cut to the first n, for n >= 1; for n == 0 the first terminal if it is well placed. |
| `Selection.AskingForNobody` | contrib/nr/examples/cttc-3gpp-indoor-calibration.cc:356-361 | Asking for none gives none if and only if there is no first terminal or it is badly placed. |

## Left out

- The simulator core, sockets and helpers of ns-3 are replaced by the contracts stated in the model: consecutive address assignment, the lookup scan, delivery to every address of an interface and its subnet broadcast, event times, results of `Send` and `Bind`.
- What the tunnel between the packet gateway and a user equipment is made of (GTP over the core network's links, bearers, the radio): it is one link, and every user equipment is attached to its base station.
- Packets a node sends to itself; traces are those of packets that have arrived at a node or start there for another one.
- Subnet broadcasts and multicast as origins: the model forwards received packets; broadcast and multicast addresses count as delivered where a node takes them for its own.
- The time to live: a packet the model says is in flight for ever is dropped by ns-3 after its time to live.
- More than 255 access points or containers too large for their subnet: the address helper asserts, so these are preconditions. Positions, which index a table with four rows, are not part of the routing model.
- Branches that cannot be taken after the topology is built (missing nodes, empty device containers, an interface found by address instead of by device) and the debug output `DumpIpv4Info`.
- A `Connect` that fails at once or meets a simultaneous open, and the destructor of the agent: the agent runs on a server, whose default route matches every destination. Errors and closes of sockets may come at any time, also where TCP would not send them.
- What a program that calls itself without end does in the end. Nothing is claimed about quiet after a stop: a late close callback schedules a reconnect again, as in the code.
- Monitors without an access point: with fewer than three access points one or two of the three stay unattached (master/topology.cc:108-111) and are no node of the fabric.
- The receiver of the RTT messages: no framing is added, so message boundaries are not claimed to survive the byte stream.
- Quota.AssignIds: 16-bit wrap-around is modelled, but the count of terminals per sector is taken as a 32-bit input, not derived from the scenario.
- CellConfig.MaxMcsPerCell: an index beyond the given vector of schemes is undefined behaviour in C++; the vector's length is a precondition.
- Antenna angles, power, numerology and bandwidth parts other than their number: attribute settings, not modelled.
- Regular expressions and files: list parsing starts from the captured text, records from the lines. The list of initial round-trip times and the coordinates are floating-point numbers read the same way; only their presence is modelled.
- Input.ReadRecords: the coordinates of the first two runs are checked for presence only, and an indeterminate number is not followed further.
- Floating-point rounding in `SelectWellPlacedUes`: distances are real numbers; the file of distances it writes is not modelled.
- Applications, flow statistics, mobility, wireless channels, command lines and the other example programs.
