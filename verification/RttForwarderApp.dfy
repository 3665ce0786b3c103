/**
 The agent itself: the methods of master/RttForwarderApp.cc, updating its fields in place.
 Each method is proved to take the machine from its old state to the one RttMachine.Apply gives.
 Methods that close a socket take the number of calls of the error handler that may be inside each
 other and say whether they have returned by then, as RttMachine.ApplyAt does.
 */
module RttForwarder {
  import opened Wrappers
  import opened RttMachine
  import opened RttRuns

  class RttForwarderApp {
    var remote: Endpoint
    var listenPort: nat
    var udpOpen: bool
    var tcpSocket: Option<SocketId>
    var connected: bool
    var pending: seq<Message>
    var reconnectEvent: Option<EventId>

    // the simulator the agent runs in
    var now: Time
    var queue: map<EventId, Time>
    var nextEvent: EventId
    var nextSocket: SocketId
    var open: set<SocketId>
    ghost var dialled: map<SocketId, Endpoint>
    var wire: seq<Call>
    var synSent: set<SocketId>
    var queued: set<SocketId>
    var unread: set<SocketId>

    ghost function View(): State
      reads this
    {
      State(remote, listenPort, udpOpen, tcpSocket, connected, pending, reconnectEvent,
            now, queue, nextEvent, nextSocket, open, dialled, wire, synSent, queued, unread)
    }

    constructor ()
      ensures View() == INITIAL
      ensures remote == Endpoint(0, 8080) && listenPort == 9000 && !udpOpen && tcpSocket == None && !connected
      ensures pending == [] && reconnectEvent == None && queue == map[]
    {
      remote, listenPort := Endpoint(0, 8080), 9000;
      udpOpen, tcpSocket, connected := false, None, false;
      pending, reconnectEvent := [], None;
      now, queue, nextEvent, nextSocket := 0, map[], 0, 0;
      open, dialled, wire := {}, map[], [];
      synSent, queued, unread := {}, {}, {};
    }

    method SetRemote(address: nat, port: nat)
      modifies this`remote
      ensures View() == Apply(old(View()), Event.SetRemote(Endpoint(address, port)))
      ensures remote == Endpoint(address, port)
    {
      remote := Endpoint(address, port);
    }

    method SetListeningPort(port: nat)
      modifies this`listenPort
      ensures View() == Apply(old(View()), Event.SetListeningPort(port))
      ensures listenPort == port
    {
      listenPort := port;
    }

    method StartApplication(bindOk: bool)
      modifies this
      ensures View() == Apply(old(View()), Start(bindOk))
      ensures remote == old(remote) && listenPort == old(listenPort) && pending == old(pending)
      ensures udpOpen == (old(udpOpen) || (listenPort != 0 && bindOk))
      ensures tcpSocket ==
                if old(tcpSocket).None? && remote.address != 0 then Some(old(nextSocket)) else old(tcpSocket)
      ensures old(tcpSocket).None? && remote.address != 0 ==> dialled == old(dialled)[old(nextSocket) := remote]
    {
      SetupUdpSocket(bindOk);
      SetupTcpSocket();
    }

    method StopApplication(depth: nat) returns (returned: bool)
      modifies this
      ensures returned <==> ApplyAt(old(View()), Stop, depth).Some?
      ensures returned ==> View() == ApplyAt(old(View()), Stop, depth).value
      ensures returned ==> !udpOpen && tcpSocket.None? && !connected && pending == [] && reconnectEvent.None?
    {
      CancelReconnectEvent();
      if udpOpen {
        udpOpen := false;
      }
      if tcpSocket.Some? {
        returned := CloseTcp(depth);
        if !returned {
          return;
        }
      }
      connected := false;
      pending := [];
      returned := true;
    }

    /** bindOk is the outcome of Bind; a failed bind leaves the agent without an inlet. */
    method SetupUdpSocket(bindOk: bool)
      modifies this`udpOpen
      ensures udpOpen == (old(udpOpen) || (listenPort != 0 && bindOk))
    {
      if udpOpen || listenPort == 0 {
        return;
      }
      udpOpen := true;
      if !bindOk {
        udpOpen := false;
      }
    }

    method SetupTcpSocket()
      modifies this
      ensures View() == SetupTcp(old(View()))
      ensures remote == old(remote)
      ensures tcpSocket ==
                if old(tcpSocket).None? && remote.address != 0 then Some(old(nextSocket)) else old(tcpSocket)
      ensures old(tcpSocket).None? && remote.address != 0 ==> dialled == old(dialled)[old(nextSocket) := remote]
    {
      if tcpSocket.Some? || remote.address == 0 {
        return;
      }
      tcpSocket := Some(nextSocket);
      open := open + {nextSocket};
      dialled := dialled[nextSocket := remote];
      synSent := synSent + {nextSocket};
      nextSocket := nextSocket + 1;
    }

    /** Closes the current socket and forgets it. */
    method CloseTcp(depth: nat) returns (returned: bool)
      requires tcpSocket.Some?
      modifies this
      ensures returned <==> CloseTcpAt(old(View()), depth).Some?
      ensures returned ==> View() == CloseTcpAt(old(View()), depth).value
      ensures returned ==> View() == old(View()).(tcp := None, open := old(open) - {old(tcpSocket).value})
      decreases depth, 0
    {
      CloseLaw(View(), depth);
      var socket := tcpSocket.value;
      if IsLoud(socket) {
        if depth == 0 {
          return false;
        }
        returned := HandleTcpError(socket, depth - 1);
        if !returned {
          return;
        }
      }
      open := open - {socket};
      tcpSocket := None;
      returned := true;
    }

    /** What the socket itself finds when it is closed. */
    predicate IsLoud(socket: SocketId)
      reads this
      ensures IsLoud(socket) <==> Loud(View(), socket)
    {
      || socket in unread
      || (socket in synSent && !exists c | c in wire :: c.socket == socket && c.result > 0)
    }

    method HandleUdpReceive(datagrams: seq<Datagram>, results: seq<int>)
      modifies this
      ensures View() == Apply(old(View()), Udp(datagrams, results))
    {
      var k := 0;
      while k < |datagrams|
        invariant 0 <= k <= |datagrams|
        invariant View() == old(View()).(pending := old(pending) + Texts(datagrams[..k]))
      {
        assert datagrams[..k + 1][..k] == datagrams[..k];
        if |datagrams[k]| != 0 {
          var message := UpToNul(datagrams[k]);
          if |message| != 0 {
            pending := pending + [message];
          }
        }
        k := k + 1;
      }
      assert datagrams[..k] == datagrams;
      TrySendPending(results);
    }

    method UpToNul(d: Datagram) returns (message: Message)
      ensures message == Payload(d)
    {
      var zeroPos := 0;
      while zeroPos < |d| && d[zeroPos] != 0
        invariant 0 <= zeroPos <= |d|
        invariant 0 !in d[..zeroPos]
      {
        zeroPos := zeroPos + 1;
      }
      message := d[..zeroPos];
      PayloadEnds(d, zeroPos);
    }

    /** The simulator runs the connect callback that a completed handshake has scheduled. */
    method HandleTcpConnect(socket: SocketId, results: seq<int>)
      modifies this
      ensures View() == Apply(old(View()), Connected(socket, results))
    {
      queued := queued - {socket};
      connected := true;
      TrySendPending(results);
    }

    method HandleTcpError(socket: SocketId, depth: nat) returns (returned: bool)
      modifies this
      ensures returned <==> ApplyAt(old(View()), Failed(socket), depth).Some?
      ensures returned ==> View() == ApplyAt(old(View()), Failed(socket), depth).value
      ensures returned ==> !connected && tcpSocket.None? && pending == old(pending) && udpOpen == old(udpOpen)
      ensures returned && old(reconnectEvent.Some? && reconnectEvent.value in queue) ==>
                reconnectEvent == old(reconnectEvent) && queue == old(queue)
      ensures returned && !old(reconnectEvent.Some? && reconnectEvent.value in queue) ==>
                && reconnectEvent == Some(old(nextEvent))
                && queue == old(queue)[old(nextEvent) := old(now) + 1_000_000_000]
      decreases depth, 1
    {
      connected := false;
      assert HandleTcpErrorAt(old(View()), depth).Some? <==> CloseTcpAt(View(), depth).Some?;
      if tcpSocket.Some? {
        returned := CloseTcp(depth);
        if !returned {
          return;
        }
      }
      if !(reconnectEvent.Some? && reconnectEvent.value in queue) {
        ScheduleReconnect();
      }
      returned := true;
    }

    method HandleTcpClose(socket: SocketId, depth: nat) returns (returned: bool)
      modifies this
      ensures returned <==> ApplyAt(old(View()), Closed(socket), depth).Some?
      ensures returned ==> View() == ApplyAt(old(View()), Closed(socket), depth).value
      ensures returned ==> !connected && tcpSocket.None? && pending == old(pending) && udpOpen == old(udpOpen)
      ensures returned && old(reconnectEvent.Some? && reconnectEvent.value in queue) ==>
                reconnectEvent == old(reconnectEvent) && queue == old(queue)
      ensures returned && !old(reconnectEvent.Some? && reconnectEvent.value in queue) ==>
                && reconnectEvent == Some(old(nextEvent))
                && queue == old(queue)[old(nextEvent) := old(now) + 1_000_000_000]
    {
      connected := false;
      assert HandleTcpErrorAt(old(View()), depth).Some? <==> CloseTcpAt(View(), depth).Some?;
      if tcpSocket.Some? {
        returned := CloseTcp(depth);
        if !returned {
          return;
        }
      }
      if !(reconnectEvent.Some? && reconnectEvent.value in queue) {
        ScheduleReconnect();
      }
      returned := true;
    }

    method ScheduleReconnect()
      modifies this`reconnectEvent, this`queue, this`nextEvent
      ensures View() == old(View()).(reconnect := Some(old(nextEvent)), nextEvent := old(nextEvent) + 1,
                                     queue := old(queue)[old(nextEvent) := now + SECOND])
    {
      queue := queue[nextEvent := now + SECOND];
      reconnectEvent := Some(nextEvent);
      nextEvent := nextEvent + 1;
    }

    method TrySendPending(results: seq<int>)
      modifies this
      ensures View() == TrySend(old(View()), results)
      ensures old(connected && tcpSocket.Some?) ==>
                && tcpSocket == old(tcpSocket) && |wire| >= |old(wire)| && wire[..|old(wire)|] == old(wire)
                && InOrder(old(pending), results, 0, tcpSocket.value, wire[|old(wire)|..], pending)
      ensures !old(connected && tcpSocket.Some?) ==> wire == old(wire) && pending == old(pending)
    {
      if connected && tcpSocket.Some? {
        DrainFrame(View(), results, 0);
        DrainInOrder(View(), results, 0);
        assert Drain(View(), results, 0).wire[|wire|..] == DrainCalls(View(), results, 0);
      }
      if !connected || tcpSocket.None? {
        if tcpSocket.None? {
          SetupTcpSocket();
        }
        return;
      }
      var k := 0;
      while |pending| != 0
        invariant tcpSocket == old(tcpSocket)
        invariant Drain(View(), results, k) == Drain(old(View()), results, 0)
        decreases |pending|
      {
        var msg := pending[0];
        var sent := ResultAt(results, k);
        wire := wire + [Call(tcpSocket.value, msg, sent, open, connected)];
        if sent <= 0 {
          return;
        }
        pending := pending[1..];
        k := k + 1;
      }
    }

    /** The simulator reaches the due time of a reconnect event and runs ReconnectTcp. */
    method FireReconnect(event: EventId, depth: nat) returns (returned: bool)
      requires event in queue
      modifies this
      ensures returned <==> ApplyAt(old(View()), ReconnectDue(event), depth).Some?
      ensures returned ==> View() == ApplyAt(old(View()), ReconnectDue(event), depth).value
      ensures returned ==> !connected && now == old(queue)[event] && pending == old(pending)
      ensures returned ==> tcpSocket.Some? == (old(remote).address != 0)
    {
      now := queue[event];
      queue := queue - {event};
      returned := ReconnectTcp(depth);
    }

    method ReconnectTcp(depth: nat) returns (returned: bool)
      modifies this
      ensures returned <==> ReconnectTcpAt(old(View()), depth).Some?
      ensures returned ==> View() == ReconnectTcpAt(old(View()), depth).value
      ensures returned ==> !connected && pending == old(pending) && now == old(now)
      ensures returned ==> tcpSocket.Some? == (old(remote).address != 0)
    {
      connected := false;
      if tcpSocket.Some? {
        returned := CloseTcp(depth);
        if !returned {
          return;
        }
      }
      SetupTcpSocket();
      returned := true;
    }

    method CancelReconnectEvent()
      modifies this`reconnectEvent, this`queue
      ensures View() == CancelReconnect(old(View()))
      ensures reconnectEvent.None?
      ensures queue == if old(reconnectEvent).Some? then old(queue) - {old(reconnectEvent).value} else old(queue)
    {
      if reconnectEvent.Some? && reconnectEvent.value in queue {
        queue := queue - {reconnectEvent.value};
      }
      reconnectEvent := None;
    }

    /** A socket's handshake is complete; its connect callback is scheduled for this instant. */
    method CompleteHandshake(socket: SocketId)
      modifies this`synSent, this`queued
      ensures View() == Apply(old(View()), Established(socket))
    {
      synSent := synSent - {socket};
      queued := queued + {socket};
    }

    /** Data arrives on a socket, and stays there. */
    method ReceiveData(socket: SocketId)
      modifies this`unread
      ensures View() == Apply(old(View()), PeerData(socket))
    {
      unread := unread + {socket};
    }

    /** Time passes without a callback. */
    method Advance(to: Time)
      modifies this`now
      ensures View() == Apply(old(View()), Tick(to))
    {
      now := to;
    }
  }
}
