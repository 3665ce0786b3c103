/**
 Events from which the agent does not come back.  The error handler closes the current socket before
 it forgets it, and closing a socket that is still dialling calls the error handler.  So a failed
 connection attempt is, as a rule, not retried after a second: nothing happens any more.
 */
module RttStuck {
  import opened Wrappers
  import opened RttMachine
  import opened RttRuns
  import opened RttSends

  /** At no depth of calls has the event returned. */
  ghost predicate NeverReturns(s: State, e: Event) {
    forall depth: nat :: ApplyAt(s, e, depth).None?
  }

  /** The exact law: an event never returns if and only if it closes a current socket that has unread
      data or that dials with nothing to send. */
  lemma NeverReturnsExactly(s: State, e: Event)
    ensures NeverReturns(s, e) <==>
            && (e.Stop? || e.Failed? || e.Closed? || e.ReconnectDue?) && s.tcp.Some?
            && (s.tcp.value in s.unread ||
                (s.tcp.value in s.synSent && forall c | c in s.wire && c.socket == s.tcp.value :: c.result <= 0))
  {
    NeverReturnsIfStuck(s, e);
  }

  lemma NeverReturnsIfStuck(s: State, e: Event)
    ensures NeverReturns(s, e) <==> Stuck(s, e)
  {
    hide ApplyAt, Stuck;
    forall depth: nat
      ensures ApplyAt(s, e, depth).None? <==> Stuck(s, e)
    {
      ReturnsUnlessStuck(s, e, depth);
    }
    assert ApplyAt(s, e, 0).None? <==> Stuck(s, e);
  }

  predicate IsLoss(e: Event) { e.Failed? || e.Closed? }

  /** A failed connection attempt returns, and is then retried, exactly if a message was handed to the
      socket that dials. */
  lemma FailedDialReturnsExactly(s: State, loss: Event)
    requires Inv(s) && IsLoss(loss) && s.tcp.Some? && s.tcp.value in s.synSent
    ensures !NeverReturns(s, loss) <==> exists c | c in s.wire :: c.socket == s.tcp.value && c.result > 0
    ensures !NeverReturns(s, loss) ==> Waiting(Apply(s, loss))
  {
    NeverReturnsExactly(s, loss);
    LossWaits(s, loss);
  }

  // ---------- over runs ----------

  lemma StepSynSent(s: State, e: Event)
    ensures Apply(s, e).synSent <= s.synSent + {s.nextSocket}
  {
    match e
    case Udp(ds, results) => TrySendSynSent(s.(pending := s.pending + Texts(ds)), results);
    case Connected(k, results) => TrySendSynSent(s.(connected := true, queued := s.queued - {k}), results);
    case _ =>
  }

  lemma TrySendSynSent(s: State, results: seq<int>)
    ensures TrySend(s, results).synSent <= s.synSent + {s.nextSocket}
  {
    if s.connected && s.tcp.Some? {
      DrainFrame(s, results, 0);
    }
  }

  /** A socket whose connect callback has come does not dial any more. */
  lemma {:induction false} ConfirmedDialsNoMore(run: Run, k: SocketId)
    requires Possible(INITIAL, run) && Confirmed(run, k)
    ensures k !in Exec(INITIAL, run).synSent
  {
    hide Apply;
    var front, e := run[..|run| - 1], run[|run| - 1];
    assert run == front + [e];
    ConfirmedBy(front, e, k);
    StepSynSent(Exec(INITIAL, front), e);
    InitialInv();
    SafeOverEveryRun(INITIAL, front);
    if Confirmed(front, k) {
      ConfirmedDialsNoMore(front, k);
      ConfirmedExist(front, k);
    }
  }

  /** Every logged call was made by some event of the run. */
  lemma {:induction false} CallHasEvent(run: Run, c: Call)
    requires c in Exec(INITIAL, run).wire
    ensures exists i | 0 <= i < |run| :: c in CallsAt(run, i)
  {
    hide Apply, StepCalls;
    if run != [] {
      var front, e := run[..|run| - 1], run[|run| - 1];
      StepConserves(Exec(INITIAL, front), e);
      if c in Exec(INITIAL, front).wire {
        CallHasEvent(front, c);
        var i :| 0 <= i < |front| && c in CallsAt(front, i);
        assert run[..i] == front[..i];
        assert c in CallsAt(run, i);
      } else {
        assert c in CallsAt(run, |front|);
      }
    }
  }

  lemma ConfirmedPrefix(run: Run, i: nat, k: SocketId)
    requires i <= |run| && Confirmed(run[..i], k)
    ensures Confirmed(run, k)
  {
    var j :| 0 <= j < i && run[..i][j].Connected? && run[..i][j].socket == k;
    assert run[j] == run[..i][j];
  }

  /** Over every run that sent on confirmed sockets only: if a connection attempt fails, the agent never
      comes back from it. */
  lemma {:induction false} FailedDialNeverReturns(run: Run, loss: Event)
    requires Possible(INITIAL, run) && SentOnConfirmed(run) && IsLoss(loss)
    requires var s := Exec(INITIAL, run); s.tcp.Some? && s.tcp.value in s.synSent
    ensures NeverReturns(Exec(INITIAL, run), loss)
  {
    hide Confirmed, CallsAt, Possible, NeverReturns, Inv;
    var s := Exec(INITIAL, run);
    InitialInv();
    SafeOverEveryRun(INITIAL, run);
    forall c | c in s.wire
      ensures c.socket != s.tcp.value
    {
      CallHasEvent(run, c);
      var i :| 0 <= i < |run| && c in CallsAt(run, i);
      ConfirmedPrefix(run, i + 1, c.socket);
      ConfirmedDialsNoMore(run, c.socket);
    }
    FailedDialReturnsExactly(s, loss);
  }

  /** The other way round: a dialling socket on which a message was sent blindly can fail, and the agent
      comes back and waits for the next attempt. */
  lemma MisledDialIsRetried()
    ensures exists run, loss :: Possible(INITIAL, run) && IsRetried(Exec(INITIAL, run), loss)
  {
    hide Possible, Exec, Apply, IsRetried, Enabled, IsAt;
    var data := Udp([RECEIVED], [1]);
    var front := Misleads();
    BuffersData(Exec(INITIAL, front));
    GoesOn(front, Exec(INITIAL, front), data);
    InitialInv();
    SafeOverEveryRun(INITIAL, front + [data]);
    BufferedIsRetried(Apply(Exec(INITIAL, front), data));
  }

  ghost predicate IsRetried(s: State, loss: Event) {
    && IsLoss(loss) && Enabled(s, loss) && s.tcp.Some? && s.tcp.value in s.synSent
    && !NeverReturns(s, loss) && Waiting(Apply(s, loss))
  }

  lemma BuffersData(s: State)
    requires IsAt(s, MISLED)
    ensures var e := Udp([RECEIVED], [1]);
            && Enabled(s, e) && !Stuck(s, e)
            && Apply(s, e).tcp == Some(2) && 2 in Apply(s, e).synSent && Buffered(Apply(s, e), 2)
  {
    hide Apply, StepCalls;
    var e := Udp([RECEIVED], [1]);
    DataCall(s);
    StepConserves(s, e);
    assert StepCalls(s, e)[0] in Apply(s, e).wire;
  }

  lemma BufferedIsRetried(s: State)
    requires Inv(s) && s.tcp.Some? && s.tcp.value in s.synSent && Buffered(s, s.tcp.value)
    ensures IsRetried(s, Failed(s.tcp.value))
  {
    hide Apply, NeverReturns;
    FailedDialReturnsExactly(s, Failed(s.tcp.value));
  }

  // ---------- concrete runs ----------

  /** The very first connection attempt: given up by TCP, reset by the peer, or stopped while it lasts. */
  lemma FirstDialNeverReturns(e: Event)
    requires e == Failed(0) || e == Closed(0) || e == Stop
    ensures var run := [Event.SetRemote(REMOTE), Start(true)];
            Possible(INITIAL, run) && Enabled(Exec(INITIAL, run), e) && NeverReturns(Exec(INITIAL, run), e)
  {
    hide Possible, Exec, NeverReturns;
    var run := Dials();
    NeverReturnsExactly(Exec(INITIAL, run), e);
  }

  /** A socket that was dialled early, for a datagram, and is replaced by the waiting reconnect. */
  lemma ReplacedDialNeverReturns()
    ensures exists run :: Possible(INITIAL, run) && NoStop(run) &&
                     var s, e := Exec(INITIAL, run), ReconnectDue(0);
                     Enabled(s, e) && NeverReturns(s, e)
  {
    hide Possible, Exec, NeverReturns;
    var run := Redials();
    NeverReturnsExactly(Exec(INITIAL, run), ReconnectDue(0));
  }

  /** A connection on which the peer has answered, closed by either side. */
  lemma UnreadDataNeverReturns(e: Event)
    requires e == Closed(0) || e == Stop
    ensures exists run :: Possible(INITIAL, run) && NoStop(run) &&
                     var s := Exec(INITIAL, run);
                     s.connected && Enabled(s, e) && NeverReturns(s, e)
  {
    hide Possible, Exec, NeverReturns, Leads;
    var run := Dials();
    ShakenLeads();
    ConnectedLeads();
    ReachesNext(run, DIALLING, Established(0), SHAKEN);
    run := run + [Established(0)];
    ReachesNext(run, SHAKEN, Connected(0, []), CONNECTED);
    run := run + [Connected(0, [])];
    var s, answer := Exec(INITIAL, run), PeerData(0);
    GoesOn(run, s, answer);
    NeverReturnsExactly(Apply(s, answer), e);
    assert Possible(INITIAL, run + [answer]) && NoStop(run + [answer]);
  }
}
