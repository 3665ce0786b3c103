/**
 Where the agent's messages go.  The connected flag is one for all sockets: the connect callback of
 a socket that was closed after its handshake sets it as well.  So a message can be sent on a socket
 that is still dialling; this module says exactly when, and to which remote every socket that is used
 has dialled.
 */
module RttSends {
  import opened Wrappers
  import opened RttMachine
  import opened RttRuns

  // ---------- confirmed sockets ----------

  /** The connect callback of socket k has arrived. */
  predicate Confirmed(run: Run, k: SocketId) {
    exists i | 0 <= i < |run| :: run[i].Connected? && run[i].socket == k
  }

  /** The flag is set although the connect callback of the current socket has not arrived. */
  predicate FlagLies(run: Run) {
    var s := Exec(INITIAL, run);
    s.connected && !(s.tcp.Some? && Confirmed(run, s.tcp.value))
  }

  /** Read off the events, and the current socket before the last connect callback: since the last loss,
      reconnect or stop a connect callback has come while the current socket, if any, was another one
      and had not been confirmed itself; and the current one's callback has not come since. */
  predicate Stale(run: Run) {
    run != [] &&
    var front, e := run[..|run| - 1], run[|run| - 1];
    match e
    case Connected(k, _) =>
      var tcp := Exec(INITIAL, front).tcp;
      tcp.None? || (tcp.value != k && !Confirmed(front, tcp.value))
    case Stop => false
    case Failed(_) => false
    case Closed(_) => false
    case ReconnectDue(_) => false
    case _ => Stale(front)
  }

  lemma ConfirmedBy(front: Run, e: Event, k: SocketId)
    ensures Confirmed(front + [e], k) <==> Confirmed(front, k) || (e.Connected? && e.socket == k)
  {
    var run := front + [e];
    if Confirmed(front, k) {
      var i :| 0 <= i < |front| && front[i].Connected? && front[i].socket == k;
      assert run[i] == front[i];
    }
    assert run[|front|] == e;
  }

  lemma TrySendSocket(s: State, results: seq<int>)
    ensures var t := TrySend(s, results);
            && t.connected == s.connected && s.nextSocket <= t.nextSocket
            && t.tcp == if s.tcp.None? && s.remote.address != 0 then Some(s.nextSocket) else s.tcp
  {
    if s.connected && s.tcp.Some? {
      DrainFrame(s, results, 0);
    }
  }

  /** What one event does to the flag and the current socket. */
  lemma StepSocket(s: State, e: Event)
    ensures var t := Apply(s, e);
            && s.nextSocket <= t.nextSocket
            && match e
               case Connected(_, _) =>
                 t.connected && t.tcp == if s.tcp.None? && s.remote.address != 0 then Some(s.nextSocket) else s.tcp
               case Stop => !t.connected
               case Failed(_) => !t.connected
               case Closed(_) => !t.connected
               case ReconnectDue(_) => !t.connected
               case _ => t.connected == s.connected && (t.tcp == s.tcp || (s.tcp.None? && t.tcp == Some(s.nextSocket)))
  {
    match e
    case Udp(ds, results) => TrySendSocket(s.(pending := s.pending + Texts(ds)), results);
    case Connected(k, results) => TrySendSocket(s.(connected := true, queued := s.queued - {k}), results);
    case _ =>
  }

  /** Only sockets that exist have called back. */
  lemma {:induction false} ConfirmedExist(run: Run, k: SocketId)
    requires Possible(INITIAL, run) && Confirmed(run, k)
    ensures k < Exec(INITIAL, run).nextSocket
  {
    var front, e := run[..|run| - 1], run[|run| - 1];
    assert run == front + [e];
    ConfirmedBy(front, e, k);
    StepSocket(Exec(INITIAL, front), e);
    InitialInv();
    SafeOverEveryRun(INITIAL, front);
    if Confirmed(front, k) {
      ConfirmedExist(front, k);
    }
  }

  /** The flag lies exactly after stale events. */
  lemma {:induction false} FlagLiesExactly(run: Run)
    requires Possible(INITIAL, run)
    ensures FlagLies(run) <==> Stale(run)
  {
    hide Apply, Confirmed, Enabled, Inv, Stuck;
    if run != [] {
      var front, e := run[..|run| - 1], run[|run| - 1];
      var s, t := Exec(INITIAL, front), Exec(INITIAL, run);
      assert run == front + [e];
      FlagLiesExactly(front);
      StepSocket(s, e);
      if t.tcp.Some? {
        ConfirmedBy(front, e, t.tcp.value);
        if Confirmed(front, t.tcp.value) {
          ConfirmedExist(front, t.tcp.value);
        }
        InitialInv();
        SafeOverEveryRun(INITIAL, front);
        NotYetCreated(s, e);
      }
    }
  }

  lemma NotYetCreated(s: State, e: Event)
    requires Inv(s) && Enabled(s, e)
    ensures e.Connected? ==> e.socket != s.nextSocket
  {}

  // ---------- sends ----------

  /** Every call of an event goes to the socket that is current afterwards, with the flag set. */
  lemma StepCallsGoTo(s: State, e: Event)
    ensures forall c | c in StepCalls(s, e) :: Apply(s, e).tcp == Some(c.socket) && Apply(s, e).connected
  {
    match e
    case Udp(ds, results) => TrySendGoesTo(s.(pending := s.pending + Texts(ds)), results);
    case Connected(k, results) => TrySendGoesTo(s.(connected := true, queued := s.queued - {k}), results);
    case _ =>
  }

  lemma TrySendGoesTo(s: State, results: seq<int>)
    ensures var t := TrySend(s, results);
            && s.wire <= t.wire
            && forall c | c in t.wire[|s.wire|..] :: t.tcp == Some(c.socket) && t.connected
  {
    if s.connected && s.tcp.Some? {
      DrainFrame(s, results, 0);
      DrainCallsLive(s, results, 0);
      assert TrySend(s, results).wire[|s.wire|..] == DrainCalls(s, results, 0);
    }
  }

  /** The calls event i of a run makes. */
  function CallsAt(run: Run, i: nat): seq<Call>
    requires i < |run|
  {
    StepCalls(Exec(INITIAL, run[..i]), run[i])
  }

  /** Every Send of the run went to a socket whose own connect callback had arrived. */
  ghost predicate SentOnConfirmed(run: Run) {
    forall i, c | 0 <= i < |run| && c in CallsAt(run, i) :: Confirmed(run[..i + 1], c.socket)
  }

  lemma {:induction false} PossiblePrefix(run: Run, i: nat)
    requires Possible(INITIAL, run) && i <= |run|
    ensures Possible(INITIAL, run[..i])
  {
    if i < |run| {
      PossiblePrefix(run[..|run| - 1], i);
      assert run[..|run| - 1][..i] == run[..i];
    } else {
      assert run[..i] == run;
    }
  }

  lemma ExecPrefix(run: Run, i: nat)
    requires i < |run|
    ensures Exec(INITIAL, run[..i + 1]) == Apply(Exec(INITIAL, run[..i]), run[i])
  {
    assert run[..i + 1][..i] == run[..i];
  }

  /** A call that an event makes goes to a confirmed socket exactly if the run is not stale then. */
  lemma {:induction false} CallIsConfirmed(run: Run, i: nat, c: Call)
    requires Possible(INITIAL, run) && i < |run| && c in CallsAt(run, i)
    ensures Confirmed(run[..i + 1], c.socket) <==> !Stale(run[..i + 1])
  {
    hide Apply, StepCalls, Stale, Confirmed, Possible;
    PossiblePrefix(run, i + 1);
    FlagLiesExactly(run[..i + 1]);
    ExecPrefix(run, i);
    StepCallsGoTo(Exec(INITIAL, run[..i]), run[i]);
  }

  /** The guard of the send loop, before the event: there is a socket, the flag is set or the event sets
      it, and there will be something in the queue. */
  predicate Sends(s: State, e: Event) {
    match e
    case Udp(ds, _) => s.connected && s.tcp.Some? && s.pending + Texts(ds) != []
    case Connected(_, _) => s.tcp.Some? && s.pending != []
    case _ => false
  }

  lemma SendsExactly(s: State, e: Event)
    ensures StepCalls(s, e) != [] <==> Sends(s, e)
  {
    match e
    case Udp(ds, results) => TrySendExactly(s.(pending := s.pending + Texts(ds)), results);
    case Connected(k, results) => TrySendExactly(s.(connected := true, queued := s.queued - {k}), results);
    case _ =>
  }

  lemma TrySendExactly(s: State, results: seq<int>)
    ensures s.wire <= TrySend(s, results).wire
    ensures TrySend(s, results).wire[|s.wire|..] != [] <==> s.connected && s.tcp.Some? && s.pending != []
  {
    if s.connected && s.tcp.Some? {
      DrainFrame(s, results, 0);
      assert TrySend(s, results).wire[|s.wire|..] == DrainCalls(s, results, 0);
    }
  }

  /** Event i meets the guard of the send loop in a stale run; Stale looks at the state before it only. */
  ghost predicate SendsBlindly(run: Run, i: nat)
    requires i < |run|
  {
    Sends(Exec(INITIAL, run[..i]), run[i]) && Stale(run[..i + 1])
  }

  /** So over every run: all sends went to confirmed sockets if and only if no event sent blindly. */
  lemma {:induction false} SentOnConfirmedExactly(run: Run)
    requires Possible(INITIAL, run)
    ensures SentOnConfirmed(run) <==> forall i | 0 <= i < |run| :: !SendsBlindly(run, i)
  {
    hide StepCalls, Sends, Stale, Confirmed, Possible;
    forall i, c | 0 <= i < |run| && c in CallsAt(run, i)
      ensures Confirmed(run[..i + 1], c.socket) <==> !Stale(run[..i + 1])
    {
      CallIsConfirmed(run, i, c);
    }
    forall i | 0 <= i < |run|
      ensures CallsAt(run, i) != [] <==> Sends(Exec(INITIAL, run[..i]), run[i])
    {
      SendsExactly(Exec(INITIAL, run[..i]), run[i]);
    }
    if SentOnConfirmed(run) {
      forall i | 0 <= i < |run|
        ensures !SendsBlindly(run, i)
      {
        if CallsAt(run, i) != [] {
          var c := CallsAt(run, i)[0];
          assert c in CallsAt(run, i) && Confirmed(run[..i + 1], c.socket);
        }
      }
    } else {
      var i, c :| 0 <= i < |run| && c in CallsAt(run, i) && !Confirmed(run[..i + 1], c.socket);
      assert SendsBlindly(run, i);
    }
  }

  /** Every connect callback is the current socket's own. */
  predicate Timely(run: Run) {
    forall i | 0 <= i < |run| && run[i].Connected? :: Exec(INITIAL, run[..i]).tcp == Some(run[i].socket)
  }

  lemma {:induction false} TimelyIsNotStale(run: Run, i: nat)
    requires Timely(run) && i <= |run|
    ensures !Stale(run[..i])
  {
    if i > 0 {
      TimelyIsNotStale(run, i - 1);
      assert run[..i][..i - 1] == run[..i - 1];
    }
  }

  /** In a network without late connect callbacks every send goes to a confirmed socket. */
  lemma {:induction false} TimelyNetworkIsSafe(run: Run)
    requires Possible(INITIAL, run) && Timely(run)
    ensures SentOnConfirmed(run)
  {
    hide Stale, Timely, Possible, Confirmed;
    forall i | 0 <= i < |run|
      ensures !SendsBlindly(run, i)
    {
      TimelyIsNotStale(run, i + 1);
    }
    SentOnConfirmedExactly(run);
  }

  /** A run that has got to s can go on with e. */
  lemma {:induction false} GoesOn(run: Run, s: State, e: Event)
    requires Possible(INITIAL, run) && Exec(INITIAL, run) == s && Enabled(s, e) && !Stuck(s, e)
    ensures Possible(INITIAL, run + [e]) && Exec(INITIAL, run + [e]) == Apply(s, e)
  {
    assert (run + [e])[..|run|] == run;
  }

  // ---------- concrete runs ----------

  const REMOTE := Endpoint(1, 8080)
  const RECEIVED: Datagram := [1]

  /** How far an agent without data has come. */
  datatype Stage = Stage(tcp: Option<SocketId>, connected: bool, nextSocket: SocketId,
                         synSent: set<SocketId>, queued: set<SocketId>, due: map<EventId, Time>)

  ghost predicate IsAt(s: State, g: Stage) {
    && s.remote == REMOTE && s.udpOpen && s.pending == [] && s.wire == [] && s.unread == {} && s.now == 0
    && s.tcp == g.tcp && s.connected == g.connected && s.nextSocket == g.nextSocket
    && s.synSent == g.synSent && s.queued == g.queued
    && s.queue == g.due && s.queue.Keys == (if s.reconnect.Some? then {s.reconnect.value} else {})
    && s.nextEvent == |g.due|
  }

  ghost predicate Reaches(run: Run, g: Stage) {
    Possible(INITIAL, run) && NoStop(run) && IsAt(Exec(INITIAL, run), g)
  }

  ghost predicate Leads(g: Stage, e: Event, h: Stage) {
    !e.Stop? && forall s | IsAt(s, g) :: Enabled(s, e) && !Stuck(s, e) && IsAt(Apply(s, e), h)
  }

  lemma {:induction false} ReachesNext(run: Run, g: Stage, e: Event, h: Stage)
    requires Reaches(run, g) && Leads(g, e, h)
    ensures Reaches(run + [e], h)
  {
    hide Apply, Enabled, Stuck, IsAt;
    GoesOn(run, Exec(INITIAL, run), e);
  }

  const DIALLING := Stage(Some(0), false, 1, {0}, {}, map[])
  const SHAKEN := Stage(Some(0), false, 1, {}, {0}, map[])
  const CONNECTED := Stage(Some(0), true, 1, {}, {}, map[])
  const LOST := Stage(None, false, 1, {}, {}, map[0 := SECOND])
  const REDIALLING := Stage(Some(1), false, 2, {1}, {}, map[0 := SECOND])
  const RESHAKEN := Stage(Some(1), false, 2, {}, {1}, map[0 := SECOND])
  const LOST_AGAIN := Stage(None, false, 2, {}, {1}, map[0 := SECOND])
  const MISLED := Stage(Some(2), true, 3, {2}, {}, map[0 := SECOND])

  lemma Dials() returns (run: Run)
    ensures run == [Event.SetRemote(REMOTE), Start(true)] && Reaches(run, DIALLING)
  {
    var e1, e2 := Event.SetRemote(REMOTE), Start(true);
    var s1 := Apply(INITIAL, e1);
    var s2 := Apply(s1, e2);
    assert Possible(INITIAL, []) && Exec(INITIAL, []) == INITIAL;
    GoesOn([], INITIAL, e1);
    GoesOn([] + [e1], s1, e2);
    run := [e1, e2];
    assert run == [] + [e1] + [e2];
    assert s2.queue.Keys == {};
  }
  lemma ShakenLeads()
    ensures Leads(DIALLING, Established(0), SHAKEN)
  {
    hide TrySend, SetupTcp, Lose, DropSocket, CancelReconnect, Payload, Texts;
  }

  lemma ConnectedLeads()
    ensures Leads(SHAKEN, Connected(0, []), CONNECTED)
  {
    hide SetupTcp, Lose, DropSocket, CancelReconnect, Payload, Texts;
  }

  lemma LossLeads()
    ensures Leads(SHAKEN, Closed(0), LOST.(queued := {0}))
    ensures Leads(CONNECTED, Closed(0), LOST)
  {
    forall s | IsAt(s, SHAKEN)
      ensures IsAt(Apply(s, Closed(0)), LOST.(queued := {0}))
    {
      assert Apply(s, Closed(0)).queue == map[0 := SECOND];
    }
    forall s | IsAt(s, CONNECTED)
      ensures IsAt(Apply(s, Closed(0)), LOST)
    {
      assert Apply(s, Closed(0)).queue == map[0 := SECOND];
    }
  }

  lemma EarlyRedialLeads()
    ensures Leads(LOST, Udp([], []), REDIALLING)
  {
    forall s | IsAt(s, LOST)
      ensures Enabled(s, Udp([], [])) && !Stuck(s, Udp([], [])) && IsAt(Apply(s, Udp([], [])), REDIALLING)
    {
      EarlyRedial(s);
    }
  }

  lemma EarlyRedial(s: State)
    requires IsAt(s, LOST)
    ensures Enabled(s, Udp([], [])) && !Stuck(s, Udp([], [])) && IsAt(Apply(s, Udp([], [])), REDIALLING)
  {
    hide Apply, Drain, Payload, Texts;
    EmptyReceive(s, []);
    assert SetupTcp(s).synSent == {1};
  }

  lemma ReshakenLeads()
    ensures Leads(REDIALLING, Established(1), RESHAKEN)
  {
    hide TrySend, SetupTcp, Lose, DropSocket, CancelReconnect, Payload, Texts;
    forall s | IsAt(s, REDIALLING)
      ensures IsAt(Apply(s, Established(1)), RESHAKEN)
    {
      assert Apply(s, Established(1)).synSent == {};
    }
  }

  lemma LateErrorLeads()
    ensures Leads(RESHAKEN, Failed(0), LOST_AGAIN)
  {
    forall s | IsAt(s, RESHAKEN)
      ensures Enabled(s, Failed(0)) && !Stuck(s, Failed(0)) && IsAt(Apply(s, Failed(0)), LOST_AGAIN)
    {
      assert Waiting(DropSocket(s)) by { assert 0 in s.queue.Keys; }
    }
  }

  lemma LateCallbackLeads()
    ensures Leads(LOST_AGAIN, Connected(1, []), MISLED)
  {
    forall s | IsAt(s, LOST_AGAIN)
      ensures Enabled(s, Connected(1, [])) && !Stuck(s, Connected(1, [])) && IsAt(Apply(s, Connected(1, [])), MISLED)
    {
      LateCallbackDials(s);
    }
  }

  lemma LateCallbackDials(s: State)
    requires IsAt(s, LOST_AGAIN)
    ensures Enabled(s, Connected(1, [])) && !Stuck(s, Connected(1, [])) && IsAt(Apply(s, Connected(1, [])), MISLED)
  {
    hide Drain, Payload, Texts, Lose, TakeDue, StopApplicationAt;
    var t := s.(connected := true, queued := s.queued - {1});
    assert Apply(s, Connected(1, [])) == SetupTcp(t);
    assert t.queued == {};
  }

  /** The agent connects, loses its socket and dials again early when a datagram arrives. */
  lemma Redials() returns (run: Run)
    ensures Reaches(run, REDIALLING)
  {
    hide Reaches, Leads;
    run := Dials();
    ShakenLeads();
    ReachesNext(run, DIALLING, Established(0), SHAKEN);
    run := run + [Established(0)];
    ConnectedLeads();
    ReachesNext(run, SHAKEN, Connected(0, []), CONNECTED);
    run := run + [Connected(0, [])];
    LossLeads();
    ReachesNext(run, CONNECTED, Closed(0), LOST);
    run := run + [Closed(0)];
    EarlyRedialLeads();
    ReachesNext(run, LOST, Udp([], []), REDIALLING);
    run := run + [Udp([], [])];
  }

  /** The new socket is lost to a late error of the old one between its handshake and its connect
      callback, which then sets the flag for a third socket that is still dialling. */
  lemma Misleads() returns (run: Run)
    ensures Reaches(run, MISLED) && !Confirmed(run, 2)
  {
    hide Reaches, Leads, Confirmed;
    run := Redials();
    ReshakenLeads();
    ReachesNext(run, REDIALLING, Established(1), RESHAKEN);
    run := run + [Established(1)];
    LateErrorLeads();
    ReachesNext(run, RESHAKEN, Failed(0), LOST_AGAIN);
    run := run + [Failed(0)];
    LateCallbackLeads();
    ReachesNext(run, LOST_AGAIN, Connected(1, []), MISLED);
    NotConfirmedYet(run, LOST_AGAIN, 2);
    ConfirmedBy(run, Connected(1, []), 2);
    run := run + [Connected(1, [])];
  }

  lemma NotConfirmedYet(run: Run, g: Stage, k: SocketId)
    requires Reaches(run, g) && k >= g.nextSocket
    ensures !Confirmed(run, k)
  {
    if Confirmed(run, k) {
      ConfirmedExist(run, k);
      assert false;
    }
  }

  /** So a message goes out on a socket that is still dialling. */
  lemma LateCallbackSends()
    ensures exists run, k :: Possible(INITIAL, run) && NoStop(run) && !SentOnConfirmed(run) &&
                        Exec(INITIAL, run).tcp == Some(k) && k in Exec(INITIAL, run).synSent
  {
    hide Exec, Possible, StepCalls;
    var front := Misleads();
    var s, data := Exec(INITIAL, front), Udp([RECEIVED], [1]);
    GoesOn(front, s, data);
    var run, i := front + [data], |front|;
    DataCall(s);
    assert run[..i] == front && run[i] == data && run[..i + 1] == run;
    ConfirmedBy(front, data, 2);
    assert CallsAt(run, i)[0] in CallsAt(run, i);
  }

  lemma DataCall(s: State)
    requires IsAt(s, MISLED)
    ensures var calls := StepCalls(s, Udp([RECEIVED], [1])); calls != [] && calls[0].socket == 2 && calls[0].result > 0
    ensures var t := Apply(s, Udp([RECEIVED], [1])); t.tcp == Some(2) && 2 in t.synSent
  {
    PayloadEnds(RECEIVED, 1);
    assert [RECEIVED][..0] == [] && RECEIVED[..1] == RECEIVED;
    assert Texts([]) == [] && Texts([RECEIVED]) == [RECEIVED];
    var u := s.(pending := s.pending + Texts([RECEIVED]));
    DrainFrame(u, [1], 0);
    assert TrySend(u, [1]).wire == s.wire + DrainCalls(u, [1], 0);
  }

  lemma {:induction false} SilentRun(run: Run, i: nat)
    requires Exec(INITIAL, run).wire == [] && i < |run|
    ensures CallsAt(run, i) == []
  {
    hide Apply, StepCalls;
    var front, e := run[..|run| - 1], run[|run| - 1];
    StepConserves(Exec(INITIAL, front), e);
    if i < |front| {
      SilentRun(front, i);
      assert run[..i] == front[..i];
    } else {
      assert run[..i] == front;
    }
  }

  /** Not every late callback does harm: with nothing to send, nothing is sent on the wrong socket. */
  lemma HarmlessLateCallback()
    ensures exists run :: Possible(INITIAL, run) && !Timely(run) && SentOnConfirmed(run)
  {
    hide Apply, Possible, Enabled, CallsAt, Leads, Exec;
    var run := Dials();
    ShakenLeads();
    ReachesNext(run, DIALLING, Established(0), SHAKEN);
    run := run + [Established(0)];
    LossLeads();
    ReachesNext(run, SHAKEN, Closed(0), LOST.(queued := {0}));
    run := run + [Closed(0)];
    var s, late := Exec(INITIAL, run), Connected(0, []);
    LateWithEmptyQueue(s);
    GoesOn(run, s, late);
    var longer := run + [late];
    assert longer[..|run|] == run && longer[|run|] == late;
    forall i | 0 <= i < |longer|
      ensures CallsAt(longer, i) == []
    {
      SilentRun(longer, i);
    }
  }

  lemma LateWithEmptyQueue(s: State)
    requires IsAt(s, LOST.(queued := {0}))
    ensures var e := Connected(0, []); Enabled(s, e) && !Stuck(s, e) && Apply(s, e).wire == []
  {}

  // ---------- remotes ----------

  /** The remote some prefix of the run had in force. */
  ghost predicate WasRemote(run: Run, r: Endpoint) {
    exists i | 0 <= i <= |run| :: RemoteAfter(run[..i]) == r
  }

  lemma TrySendDials(s: State, results: seq<int>)
    ensures var t := TrySend(s, results);
            t.dialled == s.dialled || (s.remote.address != 0 && t.dialled == s.dialled[s.nextSocket := s.remote])
  {
    if s.connected && s.tcp.Some? {
      DrainFrame(s, results, 0);
    }
  }

  lemma StepDials(s: State, e: Event)
    ensures var t := Apply(s, e);
            t.dialled == s.dialled || (s.remote.address != 0 && t.dialled == s.dialled[s.nextSocket := s.remote])
  {
    match e
    case Udp(ds, results) => TrySendDials(s.(pending := s.pending + Texts(ds)), results);
    case Connected(k, results) => TrySendDials(s.(connected := true, queued := s.queued - {k}), results);
    case _ =>
  }

  lemma {:induction false} DialledWasRemote(run: Run, k: SocketId)
    requires Possible(INITIAL, run) && k in Exec(INITIAL, run).dialled
    ensures var r := Exec(INITIAL, run).dialled[k]; r.address != 0 && WasRemote(run, r)
  {
    var front, e := run[..|run| - 1], run[|run| - 1];
    var s := Exec(INITIAL, front);
    RetryingUnlessIdle(front);
    StepDials(s, e);
    if k in s.dialled && s.dialled[k] == Exec(INITIAL, run).dialled[k] {
      DialledWasRemote(front, k);
      var i :| 0 <= i <= |front| && RemoteAfter(front[..i]) == s.dialled[k];
      assert run[..i] == front[..i];
    } else {
      assert run[..|front|] == front;
    }
  }

  /** Every Send goes to a socket that dialled a remote which was in force at some time, and that is
      a real address. */
  lemma {:induction false} SendsGoToRemotes(run: Run, c: Call)
    requires Possible(INITIAL, run) && c in Exec(INITIAL, run).wire
    ensures var s := Exec(INITIAL, run);
            c.socket in s.dialled && s.dialled[c.socket].address != 0 && WasRemote(run, s.dialled[c.socket])
  {
    InitialInv();
    SafeOverEveryRun(INITIAL, run);
    DialledWasRemote(run, c.socket);
  }
}
