/**
 The RTT store-and-forward agent of master/RttForwarderApp.cc as a state machine.

 A state holds the agent's own fields and the part of the simulator it talks to: the
 clock, the queue of scheduled reconnect events, the TCP sockets that were created and
 not yet closed, how far each socket has come, and the log of every Send call.  An event is
 one callback, one command or one thing that happens to a socket; the environment chooses the
 events, including callbacks of sockets that were closed long ago, and the result of every
 Send call.

 Closing a socket can call back into the agent before the agent has forgotten the socket.  So
 there are two forms of a step: ApplyAt follows the calls to a given depth and may not be back
 by then; Apply is the state after an event that does come back.
 */
module RttMachine {
  import opened Wrappers

  type Byte = b: int | 0 <= b < 256
  type Datagram = seq<Byte>
  type Message = seq<Byte>
  type SocketId = nat
  type EventId = nat
  type Time = nat // nanoseconds, the resolution of the simulator

  const SECOND: Time := 1_000_000_000

  datatype Endpoint = Endpoint(address: nat, port: nat)

  /** One call of Send, with the sockets that were open and the flag at that moment. */
  datatype Call = Call(socket: SocketId, message: Message, result: int, open: set<SocketId>, connected: bool)

  datatype State = State(
    remote: Endpoint, listenPort: nat,
    udpOpen: bool, tcp: Option<SocketId>, connected: bool,
    pending: seq<Message>, reconnect: Option<EventId>,
    now: Time, queue: map<EventId, Time>, nextEvent: EventId,
    nextSocket: SocketId, open: set<SocketId>, dialled: map<SocketId, Endpoint>, wire: seq<Call>,
    synSent: set<SocketId>, // the handshake is not complete
    queued: set<SocketId>,  // the handshake is complete, the connect callback is scheduled for this instant
    unread: set<SocketId>)  // data has arrived; the agent never reads any

  datatype Event =
    | SetRemote(remote: Endpoint)
    | SetListeningPort(port: nat)
    | Start(bindOk: bool)
    | Stop
    | Udp(datagrams: seq<Datagram>, results: seq<int>)
    | Connected(socket: SocketId, results: seq<int>)
    | Failed(socket: SocketId)
    | Closed(socket: SocketId)
    | ReconnectDue(event: EventId)
    | Tick(to: Time)
    | Established(socket: SocketId)
    | PeerData(socket: SocketId)

  const INITIAL := State(Endpoint(0, 8080), 9000, false, None, false, [], None,
                         0, map[], 0, 0, {}, map[], [], {}, {}, {})

  /** What the network and the simulator may do next.  Errors and closes may come from any socket
      that was ever created, a connect callback once after each completed handshake, closed or not;
      time never passes a scheduled event. */
  ghost predicate Enabled(s: State, e: Event) {
    match e
    case Udp(_, _) => s.udpOpen
    case Connected(k, _) => k in s.queued
    case Failed(k) => k < s.nextSocket
    case Closed(k) => k < s.nextSocket
    case ReconnectDue(v) =>
      && v in s.queue && (forall w | w in s.queue :: s.queue[v] <= s.queue[w])
      && (s.queued == {} || s.queue[v] <= s.now)
    case Tick(t) =>
      s.now <= t && (forall w | w in s.queue :: t <= s.queue[w]) && (s.queued == {} || t == s.now)
    case Established(k) => k in s.synSent
    case PeerData(k) => k < s.nextSocket && k !in s.synSent
    case _ => true
  }

  /** The text a datagram carries: everything before its first NUL byte. */
  function Payload(d: Datagram): (m: Message)
    ensures |m| <= |d| && m == d[..|m|]
    ensures 0 !in m
    ensures |m| == |d| || d[|m|] == 0
  {
    if d == [] || d[0] == 0 then [] else
      var m := Payload(d[1..]);
      assert d[..|m| + 1] == [d[0]] + d[1..][..|m|];
      [d[0]] + m
  }

  /** Payload is the only prefix that is free of NUL and stops at a NUL or at the end. */
  lemma {:induction false} PayloadEnds(d: Datagram, n: nat)
    requires n <= |d| && 0 !in d[..n]
    requires n == |d| || d[n] == 0
    ensures Payload(d) == d[..n]
  {
    if n > 0 {
      assert d[0] in d[..n];
      assert d[1..][..n - 1] == d[1..n];
      PayloadEnds(d[1..], n - 1);
      assert d[..n] == [d[0]] + d[1..][..n - 1];
    }
  }

  /** The messages a batch of datagrams contributes: empty texts are skipped. */
  function Texts(ds: seq<Datagram>): (ms: seq<Message>)
    ensures forall m | m in ms :: m != [] && 0 !in m
  {
    if ds == [] then [] else
      var rest := Texts(ds[..|ds| - 1]);
      var m := Payload(ds[|ds| - 1]);
      if m == [] then rest else rest + [m]
  }

  /** One datagram contributes its text, or nothing if that is empty ... */
  lemma {:induction false} TextsOfOne(d: Datagram)
    ensures Texts([]) == []
    ensures Texts([d]) == if d == [] || d[0] == 0 then [] else [Payload(d)]
  {
    assert [d][..0] == [];
  }

  /** ... and those of earlier datagrams come before those of later ones. */
  lemma {:induction false} TextsInOrder(a: seq<Datagram>, b: seq<Datagram>)
    ensures Texts(a + b) == Texts(a) + Texts(b)
  {
    hide Payload;
    if b == [] {
      assert a + b == a;
    } else {
      TextsInOrder(a, b[..|b| - 1]);
      assert (a + b)[..|a + b| - 1] == a + b[..|b| - 1];
    }
  }

  function ResultAt(results: seq<int>, k: nat): int {
    if k < |results| then results[k] else -1
  }

  /** SetupTcpSocket: a new socket dials the remote unless there is one already or no remote. */
  function SetupTcp(s: State): State {
    if s.tcp.Some? || s.remote.address == 0 then s else
      s.(tcp := Some(s.nextSocket), open := s.open + {s.nextSocket},
         dialled := s.dialled[s.nextSocket := s.remote], nextSocket := s.nextSocket + 1,
         synSent := s.synSent + {s.nextSocket})
  }

  /** Call k of a drain: Send with the message at the front of the queue. */
  function NextCall(s: State, results: seq<int>, k: nat): Call
    requires s.tcp.Some? && s.pending != []
  {
    Call(s.tcp.value, s.pending[0], ResultAt(results, k), s.open, s.connected)
  }

  /** A positive result takes the whole message off the queue. */
  function AfterCall(s: State, c: Call): State
    requires s.pending != []
  {
    s.(wire := s.wire + [c], pending := if c.result > 0 then s.pending[1..] else s.pending)
  }

  /** The send loop of TrySendPending: k calls have been made in this drain. */
  function Drain(s: State, results: seq<int>, k: nat): State
    requires s.tcp.Some?
    decreases |s.pending|
  {
    if s.pending == [] then s else
      var c := NextCall(s, results, k);
      if c.result <= 0 then AfterCall(s, c) else Drain(AfterCall(s, c), results, k + 1)
  }

  function TrySend(s: State, results: seq<int>): State {
    if s.connected && s.tcp.Some? then Drain(s, results, 0) else SetupTcp(s)
  }

  /** The agent gives up socket k. */
  function Forget(s: State, k: SocketId): State {
    s.(tcp := None, open := s.open - {k})
  }

  function DropSocket(s: State): State {
    var t := s.(connected := false);
    if s.tcp.None? then t else Forget(t, s.tcp.value)
  }

  predicate Waiting(s: State) {
    s.reconnect.Some? && s.reconnect.value in s.queue
  }

  /** A reconnect in one second, unless one is waiting. */
  function Schedule(s: State): State {
    if Waiting(s) then s else
      s.(reconnect := Some(s.nextEvent), queue := s.queue[s.nextEvent := s.now + SECOND],
         nextEvent := s.nextEvent + 1)
  }

  /** HandleTcpError and HandleTcpClose, if they return. */
  function Lose(s: State): State {
    Schedule(DropSocket(s))
  }

  function CancelReconnect(s: State): State {
    s.(reconnect := None, queue := if Waiting(s) then s.queue - {s.reconnect.value} else s.queue)
  }

  /** The simulator takes a reconnect event off its queue and runs it. */
  function TakeDue(s: State, v: EventId): State {
    s.(now := if v in s.queue then s.queue[v] else s.now, queue := s.queue - {v})
  }

  function Apply(s: State, e: Event): State {
    match e
    case SetRemote(r) => s.(remote := r)
    case SetListeningPort(p) => s.(listenPort := p)
    case Start(bindOk) => SetupTcp(s.(udpOpen := s.udpOpen || (s.listenPort != 0 && bindOk)))
    case Stop => DropSocket(CancelReconnect(s)).(udpOpen := false, pending := [])
    case Udp(ds, results) => TrySend(s.(pending := s.pending + Texts(ds)), results)
    case Connected(k, results) => TrySend(s.(connected := true, queued := s.queued - {k}), results)
    case Failed(_) => Lose(s)
    case Closed(_) => Lose(s)
    case ReconnectDue(v) => SetupTcp(DropSocket(TakeDue(s, v)))
    case Tick(t) => s.(now := t)
    case Established(k) => s.(synSent := s.synSent - {k}, queued := s.queued + {k})
    case PeerData(k) => s.(unread := s.unread + {k})
  }

  // ---------- closing a socket ----------

  /** Data was handed to the socket.  On a socket that is still dialling it waits there. */
  predicate Buffered(s: State, k: SocketId) {
    exists c | c in s.wire :: c.socket == k && c.result > 0
  }

  /** Closing socket k calls the error callback first: it resets the connection because of unread
      data, or because it is still dialling and has nothing left to send. */
  predicate Loud(s: State, k: SocketId) {
    k in s.unread || (k in s.synSent && !Buffered(s, k))
  }

  /** Closing and forgetting the current socket, if there is one, with at most depth calls of the error
      handler inside each other; None if that is not enough. */
  function CloseTcpAt(s: State, depth: nat): Option<State>
    decreases depth, 0
  {
    if s.tcp.None? then Some(s)
    else if !Loud(s, s.tcp.value) then Some(Forget(s, s.tcp.value))
    else if depth == 0 then None
    else
      match HandleTcpErrorAt(s, depth - 1)
      case None => None
      case Some(t) => Some(Forget(t, s.tcp.value))
  }

  /** HandleTcpError, and HandleTcpClose likewise. */
  function HandleTcpErrorAt(s: State, depth: nat): Option<State>
    decreases depth, 1
  {
    match CloseTcpAt(s.(connected := false), depth)
    case None => None
    case Some(t) => Some(Schedule(t))
  }

  function ReconnectTcpAt(s: State, depth: nat): Option<State> {
    match CloseTcpAt(s.(connected := false), depth)
    case None => None
    case Some(t) => Some(SetupTcp(t))
  }

  function StopApplicationAt(s: State, depth: nat): Option<State> {
    match CloseTcpAt(CancelReconnect(s).(udpOpen := false), depth)
    case None => None
    case Some(t) => Some(t.(connected := false, pending := []))
  }

  /** One event, with at most depth calls of the error handler inside each other. */
  function ApplyAt(s: State, e: Event, depth: nat): Option<State> {
    match e
    case Stop => StopApplicationAt(s, depth)
    case Failed(_) => HandleTcpErrorAt(s, depth)
    case Closed(_) => HandleTcpErrorAt(s, depth)
    case ReconnectDue(v) => ReconnectTcpAt(TakeDue(s, v), depth)
    case _ => Some(Apply(s, e))
  }

  /** The event closes a current socket that calls back. */
  predicate Stuck(s: State, e: Event) {
    (e.Stop? || e.Failed? || e.Closed? || e.ReconnectDue?) && s.tcp.Some? && Loud(s, s.tcp.value)
  }

  // ---------- runs ----------

  type Run = seq<Event>

  function Exec(s: State, run: Run): State {
    if run == [] then s else Apply(Exec(s, run[..|run| - 1]), run[|run| - 1])
  }

  /** Every event of the run may happen, and none is stuck. */
  ghost predicate Possible(s: State, run: Run) {
    run == [] ||
    var front, e := run[..|run| - 1], run[|run| - 1];
    Possible(s, front) && Enabled(Exec(s, front), e) && !Stuck(Exec(s, front), e)
  }

  predicate NoStop(run: Run) { forall e | e in run :: !e.Stop? }
}
