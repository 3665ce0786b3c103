/**
 What every run of the agent keeps, whatever the network does: one live socket, at most one
 reconnect which is never put off, first-in first-out delivery, and a way to get the queue out.
 A run consists of events that return; the first lemmas say which do.
 */
module RttRuns {
  import opened Wrappers
  import opened RttMachine

  // ---------- runs ----------

  lemma {:induction false} ExecConcat(s: State, a: Run, b: Run)
    ensures Exec(s, a + b) == Exec(Exec(s, a), b)
  {
    if b == [] {
      assert a + b == a;
    } else {
      var c := b[..|b| - 1];
      ExecConcat(s, a, c);
      assert (a + b)[..|a + b| - 1] == a + c;
    }
  }

  lemma {:induction false} PossibleConcat(s: State, a: Run, b: Run)
    ensures Possible(s, a + b) <==> Possible(s, a) && Possible(Exec(s, a), b)
  {
    if b == [] {
      assert a + b == a;
    } else {
      var c := b[..|b| - 1];
      PossibleConcat(s, a, c);
      ExecConcat(s, a, c);
      assert (a + b)[..|a + b| - 1] == a + c;
    }
  }

  // ---------- events that do not return ----------

  /** Closing returns at every depth, or at none. */
  lemma {:induction false} CloseLaw(s: State, depth: nat)
    ensures CloseTcpAt(s, depth) ==
            if s.tcp.None? then Some(s)
            else if Loud(s, s.tcp.value) then None
            else Some(Forget(s, s.tcp.value))
    decreases depth
  {
    if s.tcp.Some? && Loud(s, s.tcp.value) && depth > 0 {
      CloseLaw(s.(connected := false), depth - 1);
    }
  }

  /** The error handler closes the socket it has not forgotten yet, which calls the error handler: a
      stuck event is not back at any depth.  Every other event returns at once, and as Apply says. */
  lemma ReturnsUnlessStuck(s: State, e: Event, depth: nat)
    ensures ApplyAt(s, e, depth) == if Stuck(s, e) then None else Some(Apply(s, e))
  {
    match e
    case Stop => CloseLaw(CancelReconnect(s).(udpOpen := false), depth);
    case Failed(_) => CloseLaw(s.(connected := false), depth);
    case Closed(_) => CloseLaw(s.(connected := false), depth);
    case ReconnectDue(v) => CloseLaw(TakeDue(s, v).(connected := false), depth);
    case _ =>
  }

  // ---------- the drain loop ----------

  /** The messages for which Send reported progress, in call order. */
  function Delivered(wire: seq<Call>): seq<Message> {
    if wire == [] then [] else
      var c := wire[|wire| - 1];
      Delivered(wire[..|wire| - 1]) + if c.result > 0 then [c.message] else []
  }

  lemma {:induction false} DeliveredConcat(a: seq<Call>, b: seq<Call>)
    ensures Delivered(a + b) == Delivered(a) + Delivered(b)
  {
    if b == [] {
      assert a + b == a;
    } else {
      DeliveredConcat(a, b[..|b| - 1]);
      assert (a + b)[..|a + b| - 1] == a + b[..|b| - 1];
    }
  }

  /** The calls a drain makes. */
  function DrainCalls(s: State, results: seq<int>, k: nat): seq<Call>
    requires s.tcp.Some?
    decreases |s.pending|
  {
    if s.pending == [] then [] else
      var c := NextCall(s, results, k);
      [c] + if c.result <= 0 then [] else DrainCalls(AfterCall(s, c), results, k + 1)
  }

  /** t differs from s only in the queue and in having logged these calls. */
  ghost predicate Logged(s: State, t: State, calls: seq<Call>) {
    t == s.(pending := t.pending, wire := s.wire + calls)
  }

  lemma LoggedThen(s: State, c: Call, t: State, calls: seq<Call>)
    requires s.pending != [] && Logged(AfterCall(s, c), t, calls)
    ensures Logged(s, t, [c] + calls)
  {
    assert (s.wire + [c]) + calls == s.wire + ([c] + calls);
  }

  /** A drain touches only the queue and the log. */
  lemma {:induction false} DrainFrame(s: State, results: seq<int>, k: nat)
    requires s.tcp.Some?
    ensures Logged(s, Drain(s, results, k), DrainCalls(s, results, k))
    decreases |s.pending|
  {
    if s.pending == [] {
      assert s.wire + [] == s.wire;
    } else {
      var c := NextCall(s, results, k);
      if c.result > 0 {
        DrainFrame(AfterCall(s, c), results, k + 1);
        hide AfterCall, Logged;
        LoggedThen(s, c, Drain(s, results, k), DrainCalls(AfterCall(s, c), results, k + 1));
      } else {
        assert [c] + [] == [c];
      }
    }
  }

  /** What a drain delivers is a prefix of the queue. */
  lemma {:induction false} DrainDelivers(s: State, results: seq<int>, k: nat)
    requires s.tcp.Some?
    ensures Delivered(DrainCalls(s, results, k)) + Drain(s, results, k).pending == s.pending
    decreases |s.pending|
  {
    if s.pending != [] {
      var c := NextCall(s, results, k);
      DeliveredOne(c);
      if c.result > 0 {
        var more := DrainCalls(AfterCall(s, c), results, k + 1);
        DrainDelivers(AfterCall(s, c), results, k + 1);
        DeliveredConcat([c], more);
        FrontMoved(s.pending, Delivered(more), Drain(AfterCall(s, c), results, k + 1).pending);
      }
    }
  }

  lemma FrontMoved(queue: seq<Message>, sent: seq<Message>, left: seq<Message>)
    requires queue != [] && sent + left == queue[1..]
    ensures ([queue[0]] + sent) + left == queue
  {
    assert ([queue[0]] + sent) + left == [queue[0]] + (sent + left);
  }

  lemma {:induction false} DrainCallsLive(s: State, results: seq<int>, k: nat)
    requires s.tcp.Some?
    ensures forall c | c in DrainCalls(s, results, k) ::
              c.socket == s.tcp.value && c.open == s.open && c.connected == s.connected && c.message in s.pending
    decreases |s.pending|
  {
    if s.pending != [] {
      var c := NextCall(s, results, k);
      if c.result > 0 {
        DrainCallsLive(AfterCall(s, c), results, k + 1);
      }
    }
  }

  /** A drain gives up only after a Send without progress. */
  lemma {:induction false} DrainStopsOnRefusal(s: State, results: seq<int>, k: nat)
    requires s.tcp.Some? && Drain(s, results, k).pending != []
    ensures var calls := DrainCalls(s, results, k);
            calls != [] && calls[|calls| - 1].result <= 0
    decreases |s.pending|
  {
    var c := NextCall(s, results, k);
    if c.result > 0 {
      DrainStopsOnRefusal(AfterCall(s, c), results, k + 1);
    }
  }

  /** The calls of a drain in plain terms: message by message from the front of the queue on one socket,
      each with the next result, until one makes no progress; what made progress is off the queue. */
  ghost predicate InOrder(queue: seq<Message>, results: seq<int>, k: nat, socket: SocketId,
                          calls: seq<Call>, left: seq<Message>)
  {
    && |calls| <= |queue|
    && (forall j | 0 <= j < |calls| ::
          && calls[j].message == queue[j] && calls[j].socket == socket
          && calls[j].result == (if k + j < |results| then results[k + j] else -1)
          && (j < |calls| - 1 ==> calls[j].result > 0))
    && if calls != [] && calls[|calls| - 1].result <= 0 then left == queue[|calls| - 1..]
       else |calls| == |queue| && left == []
  }

  lemma {:induction false} InOrderThen(queue: seq<Message>, results: seq<int>, k: nat, c: Call,
                                       more: seq<Call>, left: seq<Message>)
    requires queue != [] && c.message == queue[0]
    requires c.result == (if k < |results| then results[k] else -1) && c.result > 0
    requires InOrder(queue[1..], results, k + 1, c.socket, more, left)
    ensures InOrder(queue, results, k, c.socket, [c] + more, left)
  {
    var calls := [c] + more;
    forall j | 0 <= j < |calls|
      ensures calls[j].message == queue[j] && calls[j].socket == c.socket
      ensures calls[j].result == (if k + j < |results| then results[k + j] else -1)
      ensures j < |calls| - 1 ==> calls[j].result > 0
    {
      if j > 0 {
        assert calls[j] == more[j - 1];
      }
    }
  }

  lemma {:induction false} DrainInOrder(s: State, results: seq<int>, k: nat)
    requires s.tcp.Some?
    ensures InOrder(s.pending, results, k, s.tcp.value, DrainCalls(s, results, k), Drain(s, results, k).pending)
    decreases |s.pending|
  {
    if s.pending != [] {
      var c := NextCall(s, results, k);
      if c.result > 0 {
        hide InOrder;
        DrainInOrder(AfterCall(s, c), results, k + 1);
        InOrderThen(s.pending, results, k, c, DrainCalls(AfterCall(s, c), results, k + 1),
                    Drain(s, results, k).pending);
      }
    }
  }

  lemma DeliveredOne(c: Call)
    ensures Delivered([c]) == if c.result > 0 then [c.message] else []
  {
    assert [c][..0] == [];
  }

  /** If every Send of the drain makes progress the queue is emptied. */
  lemma {:induction false} DrainAll(s: State, results: seq<int>, k: nat)
    requires s.tcp.Some?
    requires k + |s.pending| <= |results|
    requires forall i | 0 <= i < |results| :: results[i] > 0
    ensures Drain(s, results, k).pending == []
    decreases |s.pending|
  {
    if s.pending != [] {
      DrainAll(AfterCall(s, NextCall(s, results, k)), results, k + 1);
    }
  }

  // ---------- safety over every run ----------

  ghost predicate SingleSocket(s: State) {
    && s.open == (if s.tcp.Some? then {s.tcp.value} else {})
    && (s.tcp.Some? ==> s.tcp.value in s.dialled)
    && (forall k | k in s.dialled :: k < s.nextSocket)
  }

  ghost predicate SingleReconnect(s: State) {
    forall v | v in s.queue :: s.reconnect == Some(v) && v < s.nextEvent && s.now <= s.queue[v] <= s.now + SECOND
  }

  ghost predicate SendsAreLive(s: State) {
    forall c | c in s.wire ::
      c.connected && c.open == {c.socket} && c.socket in s.dialled && c.message != [] && 0 !in c.message
  }

  /** A socket has been created before anything happens to it, and dials before it receives. */
  ghost predicate PhasesInOrder(s: State) {
    && (forall k | k in s.synSent :: k < s.nextSocket && k !in s.queued && k !in s.unread)
    && (forall k | k in s.queued :: k < s.nextSocket)
    && (forall k | k in s.unread :: k < s.nextSocket)
    && (s.tcp.Some? && !s.connected ==> s.tcp.value in s.synSent || s.tcp.value in s.queued)
  }

  ghost predicate Inv(s: State) {
    && SingleSocket(s)
    && PhasesInOrder(s)
    && SingleReconnect(s)
    && SendsAreLive(s)
    && (s.pending != [] ==> s.udpOpen)
    && (forall m | m in s.pending :: m != [] && 0 !in m)
  }

  lemma TrySendKeepsInv(s: State, results: seq<int>)
    requires Inv(s)
    ensures Inv(TrySend(s, results))
  {
    if s.connected && s.tcp.Some? {
      var t := Drain(s, results, 0);
      DrainFrame(s, results, 0);
      DrainCallsLive(s, results, 0);
      DrainDelivers(s, results, 0);
      forall m | m in t.pending ensures m in s.pending {
        assert m in Delivered(DrainCalls(s, results, 0)) + t.pending;
      }
    }
  }

  lemma DropKeepsInv(s: State)
    requires Inv(s)
    ensures Inv(DropSocket(s)) && DropSocket(s).queue == s.queue
  {}

  lemma LoseKeepsInv(s: State)
    requires Inv(s)
    ensures Inv(Lose(s))
  {
    DropKeepsInv(s);
  }

  lemma SetupKeepsInv(s: State)
    requires Inv(s)
    ensures Inv(SetupTcp(s))
  {}

  lemma CancelKeepsInv(s: State)
    requires Inv(s)
    ensures Inv(CancelReconnect(s)) && CancelReconnect(s).queue == map[]
  {
    assert forall v | v in s.queue :: s.reconnect == Some(v);
  }

  lemma StepKeepsInv(s: State, e: Event)
    requires Inv(s) && Enabled(s, e)
    ensures Inv(Apply(s, e))
  {
    hide TrySend, SetupTcp, CancelReconnect, DropSocket, Lose, Payload;
    match e {
      case Start(bindOk) => SetupKeepsInv(s.(udpOpen := s.udpOpen || (s.listenPort != 0 && bindOk)));
      case Stop =>
        CancelKeepsInv(s);
        DropKeepsInv(CancelReconnect(s));
        StoppedKeepsInv(DropSocket(CancelReconnect(s)));
      case Udp(ds, results) => TrySendKeepsInv(s.(pending := s.pending + Texts(ds)), results);
      case Connected(k, results) => TrySendKeepsInv(s.(connected := true, queued := s.queued - {k}), results);
      case Failed(_) => LoseKeepsInv(s);
      case Closed(_) => LoseKeepsInv(s);
      case ReconnectDue(v) =>
        DueKeepsInv(s, v);
        DropKeepsInv(TakeDue(s, v));
        SetupKeepsInv(DropSocket(TakeDue(s, v)));
      case _ =>
    }
  }

  lemma StoppedKeepsInv(s: State)
    requires Inv(s)
    ensures Inv(s.(udpOpen := false, pending := []))
  {}

  lemma DueKeepsInv(s: State, v: EventId)
    requires Inv(s) && Enabled(s, ReconnectDue(v))
    ensures Inv(TakeDue(s, v))
  {}

  /** From the freshly built agent, every possible run ends in a state with one live socket at
      most, one reconnect at most, and only live sends behind it. */
  lemma {:induction false} SafeOverEveryRun(s: State, run: Run)
    requires Inv(s) && Possible(s, run)
    ensures Inv(Exec(s, run))
  {
    if run != [] {
      SafeOverEveryRun(s, run[..|run| - 1]);
      StepKeepsInv(Exec(s, run[..|run| - 1]), run[|run| - 1]);
    }
  }

  lemma InitialInv()
    ensures Inv(INITIAL)
  {}

  // ---------- first in, first out ----------

  /** What the datagrams of a run put into the agent, in arrival order. */
  function Inbound(run: Run): seq<Message> {
    if run == [] then [] else
      var e := run[|run| - 1];
      Inbound(run[..|run| - 1]) + if e.Udp? then Texts(e.datagrams) else []
  }

  datatype Fate = Sent(message: Message) | Discarded(message: Message)

  /** The fate of the messages one event takes out of the queue. */
  function StepFates(s: State, e: Event): seq<Fate> {
    if e.Stop? then seq(|s.pending|, i requires 0 <= i < |s.pending| => Discarded(s.pending[i]))
    else
      var sent := Delivered(StepCalls(s, e));
      seq(|sent|, i requires 0 <= i < |sent| => Sent(sent[i]))
  }

  function Fates(s: State, run: Run): seq<Fate> {
    if run == [] then [] else
      Fates(s, run[..|run| - 1]) + StepFates(Exec(s, run[..|run| - 1]), run[|run| - 1])
  }

  function MessagesOf(fates: seq<Fate>): seq<Message> {
    seq(|fates|, i requires 0 <= i < |fates| => fates[i].message)
  }

  function SentOf(fates: seq<Fate>): seq<Message> {
    if fates == [] then [] else
      var f := fates[|fates| - 1];
      SentOf(fates[..|fates| - 1]) + if f.Sent? then [f.message] else []
  }

  lemma {:induction false} SentOfConcat(a: seq<Fate>, b: seq<Fate>)
    ensures SentOf(a + b) == SentOf(a) + SentOf(b)
  {
    if b == [] {
      assert a + b == a;
    } else {
      SentOfConcat(a, b[..|b| - 1]);
      assert (a + b)[..|a + b| - 1] == a + b[..|b| - 1];
    }
  }

  lemma {:induction false} SentOfUniform(fates: seq<Fate>, sent: bool)
    requires forall f | f in fates :: f.Sent? == sent
    ensures SentOf(fates) == if sent then MessagesOf(fates) else []
  {
    if fates != [] {
      SentOfUniform(fates[..|fates| - 1], sent);
      assert sent ==> MessagesOf(fates) == MessagesOf(fates[..|fates| - 1]) + [fates[|fates| - 1].message];
    }
  }

  /** The Send calls one event makes, and those of a run. */
  function StepCalls(s: State, e: Event): seq<Call> {
    var wire := Apply(s, e).wire;
    if |s.wire| <= |wire| then wire[|s.wire|..] else []
  }

  function Calls(s: State, run: Run): seq<Call> {
    if run == [] then [] else
      Calls(s, run[..|run| - 1]) + StepCalls(Exec(s, run[..|run| - 1]), run[|run| - 1])
  }

  /** TrySend only moves messages from the front of the queue into the log. */
  lemma TrySendConserves(s: State, results: seq<int>)
    ensures s.wire <= TrySend(s, results).wire
    ensures Delivered(TrySend(s, results).wire[|s.wire|..]) + TrySend(s, results).pending == s.pending
  {
    if s.connected && s.tcp.Some? {
      DrainFrame(s, results, 0);
      DrainDelivers(s, results, 0);
      assert TrySend(s, results).wire[|s.wire|..] == DrainCalls(s, results, 0);
    } else {
      assert TrySend(s, results).wire[|s.wire|..] == [];
    }
  }

  /** One event moves messages only from the front of the queue, into the log or, at a stop, away. */
  lemma StepConserves(s: State, e: Event)
    ensures Apply(s, e).wire == s.wire + StepCalls(s, e)
    ensures e.Stop? ==> Apply(s, e).pending == [] && Delivered(StepCalls(s, e)) == []
    ensures !e.Stop? ==>
              Delivered(StepCalls(s, e)) + Apply(s, e).pending == s.pending + if e.Udp? then Texts(e.datagrams) else []
  {
    hide Drain, Texts, Payload;
    match e
    case Udp(ds, results) => TrySendConserves(s.(pending := s.pending + Texts(ds)), results);
    case Connected(k, results) => TrySendConserves(s.(connected := true, queued := s.queued - {k}), results);
    case _ =>
  }

  /** The log only grows, by the calls of the run. */
  lemma {:induction false} LogGrowsByCalls(s: State, run: Run)
    ensures Exec(s, run).wire == s.wire + Calls(s, run)
  {
    hide Apply, StepCalls;
    if run != [] {
      LogGrowsByCalls(s, run[..|run| - 1]);
      StepConserves(Exec(s, run[..|run| - 1]), run[|run| - 1]);
    }
  }

  lemma StepFate(s: State, e: Event)
    ensures MessagesOf(StepFates(s, e)) + Apply(s, e).pending == s.pending + if e.Udp? then Texts(e.datagrams) else []
    ensures SentOf(StepFates(s, e)) == Delivered(StepCalls(s, e))
  {
    hide Apply, StepCalls, Texts, Delivered;
    StepConserves(s, e);
    var fates := StepFates(s, e);
    SentOfUniform(fates, !e.Stop?);
    assert MessagesOf(fates) == if e.Stop? then s.pending else Delivered(StepCalls(s, e));
  }

  lemma {:induction false} MessagesOfConcat(a: seq<Fate>, b: seq<Fate>)
    ensures MessagesOf(a + b) == MessagesOf(a) + MessagesOf(b)
  {}

  /** Over every run: the messages that left the queue, sent or discarded, followed by the messages
      still queued, are exactly those that were queued or came in, in that order. */
  lemma {:induction false} FifoConservation(s: State, run: Run)
    ensures MessagesOf(Fates(s, run)) + Exec(s, run).pending == s.pending + Inbound(run)
  {
    hide Apply, StepFates;
    if run != [] {
      var front, e := run[..|run| - 1], run[|run| - 1];
      var t := Exec(s, front);
      FifoConservation(s, front);
      StepFate(t, e);
      MessagesOfConcat(Fates(s, front), StepFates(t, e));
      Chain(MessagesOf(Fates(s, front)), t.pending, s.pending, Inbound(front),
            MessagesOf(StepFates(t, e)), Apply(t, e).pending, if e.Udp? then Texts(e.datagrams) else []);
    }
  }

  /** The messages with the fate sent are exactly those for which Send made progress. */
  lemma {:induction false} SentIsDelivered(s: State, run: Run)
    ensures SentOf(Fates(s, run)) == Delivered(Calls(s, run))
  {
    hide Apply, StepFates, StepCalls;
    if run != [] {
      var front, e := run[..|run| - 1], run[|run| - 1];
      SentIsDelivered(s, front);
      StepFate(Exec(s, front), e);
      DeliveredConcat(Calls(s, front), StepCalls(Exec(s, front), e));
      SentOfConcat(Fates(s, front), StepFates(Exec(s, front), e));
    }
  }

  lemma Chain(m1: seq<Message>, p1: seq<Message>, p0: seq<Message>, i1: seq<Message>,
              m2: seq<Message>, p2: seq<Message>, i2: seq<Message>)
    requires m1 + p1 == p0 + i1 && m2 + p2 == p1 + i2
    ensures (m1 + m2) + p2 == p0 + (i1 + i2)
  {
    assert (m1 + m2) + p2 == m1 + (m2 + p2) == (m1 + p1) + i2;
  }

  /** Between stops nothing is lost: what was accepted is what was sent, then what is queued. */
  lemma {:induction false} SessionConservation(s: State, run: Run)
    requires NoStop(run)
    ensures Delivered(Calls(s, run)) + Exec(s, run).pending == s.pending + Inbound(run)
  {
    hide Apply, StepFates, StepCalls, Exec, Calls;
    FifoConservation(s, run);
    SentIsDelivered(s, run);
    OnlyStopDiscards(s, run);
    SentOfUniform(Fates(s, run), true);
  }

  /** A stop discards exactly what is queued at that moment and sends nothing. */
  lemma {:induction false} StopDiscardsPending(s: State)
    ensures Fates(s, [Stop]) == seq(|s.pending|, i requires 0 <= i < |s.pending| => Discarded(s.pending[i]))
    ensures Exec(s, [Stop]).pending == [] && Exec(s, [Stop]).wire == s.wire
  {
    assert [Stop][..0] == [];
    assert Exec(s, []) == s && Fates(s, []) == [];
  }

  /** After a stop that returns nothing is left: no inlet, no socket, no flag, no queue, no reconnect. */
  lemma StopLeavesNothing(s: State, depth: nat)
    requires Inv(s) && ApplyAt(s, Stop, depth).Some?
    ensures var t := ApplyAt(s, Stop, depth).value;
            && !t.udpOpen && t.tcp.None? && !t.connected && t.pending == []
            && t.reconnect.None? && t.queue == map[] && t.open == {}
            && t.remote == s.remote && t.listenPort == s.listenPort && t.wire == s.wire
  {
    ReturnsUnlessStuck(s, Stop, depth);
    CancelKeepsInv(s);
  }

  predicate NoStart(run: Run) { forall e | e in run :: !e.Start? }

  /** And the inlet stays shut until the next start: nothing can come in. */
  lemma {:induction false} StoppedReceivesNothing(s: State, run: Run, ds: seq<Datagram>, results: seq<int>)
    requires NoStart(run)
    ensures !Enabled(Exec(Apply(s, Stop), run), Udp(ds, results))
  {
    if run != [] {
      var front, e := run[..|run| - 1], run[|run| - 1];
      StoppedReceivesNothing(s, front, ds, results);
      StaysShut(Exec(Apply(s, Stop), front), e);
    }
  }

  lemma StaysShut(s: State, e: Event)
    requires !s.udpOpen && !e.Start?
    ensures !Apply(s, e).udpOpen
  {
    match e
    case Udp(ds, results) => TrySendInlet(s.(pending := s.pending + Texts(ds)), results);
    case Connected(k, results) => TrySendInlet(s.(connected := true, queued := s.queued - {k}), results);
    case _ =>
  }

  lemma TrySendInlet(s: State, results: seq<int>)
    ensures TrySend(s, results).udpOpen == s.udpOpen
  {
    if s.connected && s.tcp.Some? {
      DrainFrame(s, results, 0);
    }
  }

  lemma {:induction false} OnlyStopDiscards(s: State, run: Run)
    requires NoStop(run)
    ensures forall f | f in Fates(s, run) :: f.Sent?
  {
    if run != [] {
      OnlyStopDiscards(s, run[..|run| - 1]);
    }
  }

  // ---------- reconnects ----------

  /** A scheduled reconnect keeps its due time until it runs: errors never push it back, time
      never passes it, and no second one is scheduled beside it. */
  lemma {:induction false} NeverPushedBack(s: State, v: EventId, run: Run)
    requires Inv(s) && Possible(s, run) && NoStop(run)
    requires v in s.queue
    ensures var t := Exec(s, run);
            if v in t.queue then t.queue == map[v := s.queue[v]] && t.now <= s.queue[v]
            else ReconnectDue(v) in run
  {
    if run == [] {
      assert s.queue.Keys == {v};
    } else {
      var front, e := run[..|run| - 1], run[|run| - 1];
      NeverPushedBack(s, v, front);
      SafeOverEveryRun(s, front);
      SafeOverEveryRun(s, run);
      var t := Exec(s, front);
      if v in t.queue {
        StepKeepsQueue(t, e, v);
      } else {
        NeverRescheduled(s, v, front);
        StepKeepsQueueOut(t, e, v);
      }
    }
  }

  lemma StepKeepsQueue(s: State, e: Event, v: EventId)
    requires Inv(s) && Enabled(s, e) && !e.Stop?
    requires v in s.queue
    ensures var t := Apply(s, e);
            if e == ReconnectDue(v) then v !in t.queue else t.queue == s.queue && v in t.queue
  {
    match e
    case Udp(ds, results) => TrySendFrame(s.(pending := s.pending + Texts(ds)), results);
    case Connected(k, results) => TrySendFrame(s.(connected := true, queued := s.queued - {k}), results);
    case _ =>
  }

  lemma StepKeepsQueueOut(s: State, e: Event, v: EventId)
    requires v !in s.queue && v < s.nextEvent
    ensures v !in Apply(s, e).queue && v < Apply(s, e).nextEvent
  {
    match e
    case Udp(ds, results) => TrySendFrame(s.(pending := s.pending + Texts(ds)), results);
    case Connected(k, results) => TrySendFrame(s.(connected := true, queued := s.queued - {k}), results);
    case _ =>
  }

  lemma {:induction false} NeverRescheduled(s: State, v: EventId, run: Run)
    requires v < s.nextEvent
    ensures v < Exec(s, run).nextEvent
  {
    if run != [] {
      NeverRescheduled(s, v, run[..|run| - 1]);
      var t, e := Exec(s, run[..|run| - 1]), run[|run| - 1];
      match e
      case Udp(ds, results) => TrySendFrame(t.(pending := t.pending + Texts(ds)), results);
      case Connected(k, results) => TrySendFrame(t.(connected := true, queued := t.queued - {k}), results);
      case _ =>
    }
  }

  lemma TrySendFrame(s: State, results: seq<int>)
    ensures var t := TrySend(s, results);
            && t.queue == s.queue && t.nextEvent == s.nextEvent && t.remote == s.remote && t.now == s.now
            && (t.tcp.Some? <==> s.tcp.Some? || s.remote.address != 0)
  {
    if s.connected && s.tcp.Some? {
      DrainFrame(s, results, 0);
    }
  }

  predicate KeepsRemote(run: Run) { forall e | e in run :: !e.SetRemote? }

  lemma {:induction false} RemoteKept(s: State, run: Run)
    requires KeepsRemote(run)
    ensures Exec(s, run).remote == s.remote
  {
    if run != [] {
      RemoteKept(s, run[..|run| - 1]);
      var t, e := Exec(s, run[..|run| - 1]), run[|run| - 1];
      match e
      case Udp(ds, results) => TrySendFrame(t.(pending := t.pending + Texts(ds)), results);
      case Connected(k, results) => TrySendFrame(t.(connected := true, queued := t.queued - {k}), results);
      case _ =>
    }
  }

  /** An error or a close that returns leaves no socket and one reconnect, due within a second.  It
      returns, at whatever depth, if and only if it is not stuck. */
  lemma LossSchedulesReconnect(s: State, loss: Event, depth: nat)
    requires Inv(s) && Enabled(s, loss) && (loss.Failed? || loss.Closed?)
    ensures ApplyAt(s, loss, depth).Some? <==> s.tcp.None? || !Loud(s, s.tcp.value)
    ensures ApplyAt(s, loss, depth).Some? ==>
              var t := ApplyAt(s, loss, depth).value;
              && t.tcp.None? && Waiting(t)
              && t.queue == map[t.reconnect.value := t.queue[t.reconnect.value]]
              && s.now <= t.queue[t.reconnect.value] <= s.now + 1_000_000_000
              && (if Waiting(s) then t.queue == s.queue
                  else t.queue[t.reconnect.value] == s.now + 1_000_000_000)
  {
    hide Inv, ApplyAt, CloseTcpAt, HandleTcpErrorAt;
    ReturnsUnlessStuck(s, loss, depth);
    StepKeepsInv(s, loss);
    OneReconnect(Apply(s, loss));
    LossWaits(s, loss);
  }

  lemma OneReconnect(s: State)
    requires Inv(s)
    ensures Waiting(s) ==> s.queue == map[s.reconnect.value := s.queue[s.reconnect.value]] &&
                           s.now <= s.queue[s.reconnect.value] <= s.now + SECOND
  {
    assert Waiting(s) ==> s.queue.Keys == {s.reconnect.value};
  }

  /** Once more than a second has passed after a loss that returned, without a stop, a new socket was
      created. */
  lemma {:induction false} RetryWithinOneSecond(s: State, loss: Event, run: Run)
    requires Inv(s) && (loss.Failed? || loss.Closed?)
    requires Possible(s, [loss] + run) && NoStop(run) && KeepsRemote(run)
    requires s.remote.address != 0
    requires Exec(s, [loss] + run).now > s.now + 1_000_000_000
    ensures exists k | 1 < k <= 1 + |run| :: Exec(s, ([loss] + run)[..k]).tcp.Some?
  {
    hide Inv, Apply, Exec, Possible, Enabled, Stuck;
    RunOfOne(s, loss);
    PossibleConcat(s, [loss], run);
    ExecConcat(s, [loss], run);
    StepKeepsInv(s, loss);
    LossWaits(s, loss);
    var t := Apply(s, loss);
    OneReconnect(t);
    var v := t.reconnect.value;
    NeverPushedBack(t, v, run);
    var i :| 0 <= i < |run| && run[i] == ReconnectDue(v);
    FiredReconnectDials(t, run, i);
    ExecConcat(s, [loss], run[..i + 1]);
    assert ([loss] + run)[..i + 2] == [loss] + run[..i + 1];
  }

  lemma LossWaits(s: State, loss: Event)
    requires loss.Failed? || loss.Closed?
    ensures Waiting(Apply(s, loss)) && Apply(s, loss).now == s.now && Apply(s, loss).remote == s.remote
    ensures if Waiting(s) then Apply(s, loss).queue == s.queue
            else Apply(s, loss).queue[Apply(s, loss).reconnect.value] == s.now + 1_000_000_000
  {}

  lemma {:induction false} FiredReconnectDials(s: State, run: Run, i: nat)
    requires i < |run| && run[i].ReconnectDue? && KeepsRemote(run) && s.remote.address != 0
    ensures Exec(s, run[..i + 1]).tcp.Some?
  {
    hide Apply;
    RemoteKept(s, run[..i]);
    assert run[..i + 1][..i] == run[..i];
    ReconnectDials(Exec(s, run[..i]), run[i]);
  }

  lemma ReconnectDials(s: State, e: Event)
    requires e.ReconnectDue? && s.remote.address != 0
    ensures Apply(s, e).tcp.Some?
  {}

  /** The remote in force after a run, read off its commands. */
  function RemoteAfter(run: Run): Endpoint {
    if run == [] then INITIAL.remote
    else if run[|run| - 1].SetRemote? then run[|run| - 1].remote
    else RemoteAfter(run[..|run| - 1])
  }

  /** Read off the events alone: no socket and no reconnect is to be expected. */
  predicate Idle(run: Run) {
    run == [] ||
    var front := run[..|run| - 1];
    match run[|run| - 1]
    case Start(_) => Idle(front) && RemoteAfter(front).address == 0
    case Stop => true
    case Udp(_, _) => Idle(front) && RemoteAfter(front).address == 0
    case Connected(_, _) => Idle(front) && RemoteAfter(front).address == 0
    case Failed(_) => false
    case Closed(_) => false
    case ReconnectDue(_) => RemoteAfter(front).address == 0
    case _ => Idle(front)
  }

  lemma StepIdle(s: State, e: Event)
    requires Inv(s) && Enabled(s, e)
    ensures var t := Apply(s, e);
            t.tcp.None? && !Waiting(t) <==>
              match e
              case Start(_) => s.tcp.None? && !Waiting(s) && s.remote.address == 0
              case Stop => true
              case Udp(_, _) => s.tcp.None? && !Waiting(s) && s.remote.address == 0
              case Connected(_, _) => s.tcp.None? && !Waiting(s) && s.remote.address == 0
              case Failed(_) => false
              case Closed(_) => false
              case ReconnectDue(_) => s.remote.address == 0
              case _ => s.tcp.None? && !Waiting(s)
    ensures Apply(s, e).remote == if e.SetRemote? then e.remote else s.remote
  {
    match e
    case Udp(ds, results) => TrySendIdle(s.(pending := s.pending + Texts(ds)), results);
    case Connected(k, results) => TrySendIdle(s.(connected := true, queued := s.queued - {k}), results);
    case _ =>
  }

  lemma TrySendIdle(s: State, results: seq<int>)
    ensures var t := TrySend(s, results);
            t.remote == s.remote && (Waiting(t) <==> Waiting(s)) &&
            (t.tcp.Some? <==> s.tcp.Some? || s.remote.address != 0)
  {
    if s.connected && s.tcp.Some? {
      DrainFrame(s, results, 0);
    }
  }

  /** The agent has neither a socket nor a scheduled reconnect exactly when the run is idle. */
  lemma {:induction false} RetryingUnlessIdle(run: Run)
    requires Possible(INITIAL, run)
    ensures Exec(INITIAL, run).remote == RemoteAfter(run)
    ensures Exec(INITIAL, run).tcp.None? && !Waiting(Exec(INITIAL, run)) <==> Idle(run)
  {
    if run != [] {
      var front := run[..|run| - 1];
      RetryingUnlessIdle(front);
      InitialInv();
      SafeOverEveryRun(INITIAL, front);
      StepIdle(Exec(INITIAL, front), run[|run| - 1]);
    }
  }

  /** With the remote set before the start and left alone, every later state until a stop has a
      socket or a reconnect due within a second. */
  lemma {:induction false} RetryingWhileRunning(setup: Run, bindOk: bool, run: Run)
    requires RemoteAfter(setup).address != 0
    requires NoStop(run) && KeepsRemote(run)
    requires Possible(INITIAL, setup + [Start(bindOk)] + run)
    ensures var t := Exec(INITIAL, setup + [Start(bindOk)] + run);
            t.tcp.Some? || (Waiting(t) && t.now <= t.queue[t.reconnect.value] <= t.now + 1_000_000_000)
  {
    var all := setup + [Start(bindOk)] + run;
    NotIdle(setup, bindOk, run);
    RetryingUnlessIdle(all);
    InitialInv();
    SafeOverEveryRun(INITIAL, all);
  }

  lemma {:induction false} NotIdle(setup: Run, bindOk: bool, run: Run)
    requires RemoteAfter(setup).address != 0
    requires NoStop(run) && KeepsRemote(run)
    ensures !Idle(setup + [Start(bindOk)] + run)
    ensures RemoteAfter(setup + [Start(bindOk)] + run) == RemoteAfter(setup)
  {
    var all := setup + [Start(bindOk)] + run;
    if run == [] {
      assert all[..|all| - 1] == setup;
    } else {
      NotIdle(setup, bindOk, run[..|run| - 1]);
      assert all[..|all| - 1] == setup + [Start(bindOk)] + run[..|run| - 1];
    }
  }

  /** The order matters: a remote that is set only after the start leaves the agent without a
      socket and without a reconnect. */
  lemma RemoteSetTooLate()
    ensures exists run :: Possible(INITIAL, run) && NoStop(run) && Start(true) in run &&
                     var t := Exec(INITIAL, run);
                     t.remote.address != 0 && t.tcp.None? && !Waiting(t)
  {
    var start, remote := Start(true), Event.SetRemote(Endpoint(1, 8080));
    var run := [start, remote];
    assert run[..1] == [start];
    assert [start][..0] == [];
    assert Exec(INITIAL, [start]) == INITIAL.(udpOpen := true);
    assert Exec(INITIAL, run) == INITIAL.(udpOpen := true, remote := Endpoint(1, 8080));
    assert run[0] == start;
  }

  // ---------- recovery ----------

  function AllAccepted(n: nat): (results: seq<int>) {
    seq(n, _ => 1)
  }

  /** A continuation that gets the queue out: dial, complete the handshake and call back as far as
      that has not happened yet, or else wake the agent with an empty receive; accept every Send. */
  function Recovery(s: State): Run {
    var ok := AllAccepted(|s.pending|);
    if s.pending == [] then []
    else if s.tcp.None? then
      [Udp([], [])] + ([Established(s.nextSocket)] + [Connected(s.nextSocket, ok)])
    else if s.connected then [Udp([], ok)]
    else if s.tcp.value in s.queued then [Connected(s.tcp.value, ok)]
    else [Established(s.tcp.value)] + [Connected(s.tcp.value, ok)]
  }

  /** The run is possible without a stop or new data and empties the queue. */
  ghost predicate Empties(s: State, run: Run) {
    Possible(s, run) && NoStop(run) && Inbound(run) == [] && Exec(s, run).pending == []
  }

  lemma {:induction false} RunOfOne(s: State, a: Event)
    ensures Exec(s, [a]) == Apply(s, a)
    ensures Possible(s, [a]) <==> Enabled(s, a) && !Stuck(s, a)
    ensures Inbound([a]) == if a.Udp? then Texts(a.datagrams) else []
  {
    assert [a][..0] == [];
    assert Exec(s, []) == s;
    assert Possible(s, []);
    assert Inbound([]) == [];
  }

  lemma {:induction false} EmptiesAfter(s: State, a: Event, run: Run)
    requires Enabled(s, a) && !Stuck(s, a) && !a.Stop? && (a.Udp? ==> a.datagrams == [])
    requires Empties(Apply(s, a), run)
    ensures Empties(s, [a] + run)
  {
    hide Apply, Enabled, Stuck, Possible, Exec;
    RunOfOne(s, a);
    PossibleConcat(s, [a], run);
    ExecConcat(s, [a], run);
    InboundConcat([a], run);
  }

  /** The connect callback of a socket whose handshake is complete. */
  lemma {:induction false} CallbackEmpties(s: State)
    requires s.tcp.Some? && s.tcp.value in s.queued
    ensures Empties(s, [Connected(s.tcp.value, AllAccepted(|s.pending|))])
  {
    var k, ok := s.tcp.value, AllAccepted(|s.pending|);
    DrainAll(s.(connected := true, queued := s.queued - {k}), ok, 0);
    RunOfOne(s, Connected(k, ok));
  }

  lemma {:induction false} HandshakeEmpties(s: State)
    requires s.tcp.Some? && s.tcp.value in s.synSent
    ensures Empties(s, [Established(s.tcp.value)] + [Connected(s.tcp.value, AllAccepted(|s.pending|))])
  {
    hide Empties;
    CallbackEmpties(Apply(s, Established(s.tcp.value)));
    EmptiesAfter(s, Established(s.tcp.value), [Connected(s.tcp.value, AllAccepted(|s.pending|))]);
  }

  lemma EmptyReceive(s: State, results: seq<int>)
    ensures Apply(s, Udp([], results)) == TrySend(s, results)
  {
    assert s.pending + Texts([]) == s.pending;
    assert s.(pending := s.pending + Texts([])) == s;
  }

  /** From every reachable state with a remote the recovery is possible, contains no stop, and
      empties the queue. */
  lemma {:induction false} RecoveryEmptiesQueue(s: State)
    requires Inv(s) && s.remote.address != 0
    ensures Empties(s, Recovery(s))
  {
    var ok := AllAccepted(|s.pending|);
    if s.pending == [] {
    } else if s.tcp.None? {
      EmptyReceive(s, []);
      HandshakeEmpties(SetupTcp(s));
      EmptiesAfter(s, Udp([], []), [Established(s.nextSocket)] + [Connected(s.nextSocket, ok)]);
    } else if s.connected {
      EmptyReceive(s, ok);
      DrainAll(s, ok, 0);
      RunOfOne(s, Udp([], ok));
    } else if s.tcp.value in s.queued {
      CallbackEmpties(s);
    } else {
      HandshakeEmpties(s);
    }
  }

  /** more continues the run without a stop or new data and leaves everything that came in sent. */
  ghost predicate Settles(s: State, run: Run, more: Run) {
    && Possible(s, run + more) && NoStop(run + more)
    && Inbound(run + more) == Inbound(run)
    && Exec(s, run + more).pending == []
    && Delivered(Calls(s, run + more)) == Inbound(run)
  }

  /** So after any session that began with an empty queue and whose events all returned, the agent can
      still deliver the whole of it: what Send accepted is then exactly what came in, in order. */
  lemma {:induction false} SessionRecoverable(s: State, run: Run)
    requires Inv(s) && s.pending == [] && Possible(s, run) && NoStop(run)
    requires Exec(s, run).remote.address != 0
    ensures exists more: Run :: Settles(s, run, more)
  {
    hide Apply, Exec, Calls, Inbound, Recovery, Possible, Delivered, Inv;
    SafeOverEveryRun(s, run);
    var more := Recovery(Exec(s, run));
    RecoveryEmptiesQueue(Exec(s, run));
    PossibleConcat(s, run, more);
    ExecConcat(s, run, more);
    InboundConcat(run, more);
    SessionConservation(s, run + more);
    assert Inbound(run) + [] == Inbound(run);
    var sent, accepted := Delivered(Calls(s, run + more)), Inbound(run + more);
    assert sent == sent + [] == [] + accepted == accepted;
    assert Settles(s, run, more);
  }

  lemma {:induction false} InboundConcat(a: Run, b: Run)
    ensures Inbound(a + b) == Inbound(a) + Inbound(b)
  {
    hide Texts;
    if b == [] {
      assert a + b == a;
      assert Inbound(a) + [] == Inbound(a);
    } else {
      var front, e := b[..|b| - 1], b[|b| - 1];
      InboundConcat(a, front);
      assert (a + b)[..|a + b| - 1] == a + front;
      var more := if e.Udp? then Texts(e.datagrams) else [];
      assert (Inbound(a) + Inbound(front)) + more == Inbound(a) + (Inbound(front) + more);
    }
  }
}
