/**
 A run on which the counters drift: a session is disconnected between its insert and the
 count of its establish, so its close is counted first and saturates at zero.
 */
module CounterDrift {
  import opened Addresses
  import opened Sessions
  import Stats
  import opened Lifecycle
  import opened LifecycleInvariant
  import opened LifecycleResults
  import opened ShutdownSignal

  const LATE := Conn(7, 1, SocketAddr(V4(192, 0, 2, 1), 6885), Inbound)

  /** Up to the insert: the session is registered, and its establish is still to be counted. */
  lemma InsertedNotCounted() returns (s: State)
    ensures Reachable(s) && s.log == [] && s.tables.byId == map[LATE.id := LATE]
    ensures Activating(s, LATE, Recording) && Caller(0) !in s.threads
  {
    var s0 := HandshakeReached();
    hide Reachable;
    Next(s0, HandshakeDone(0, LATE));
    var s1 := Perform(s0, HandshakeDone(0, LATE));
    Next(s1, Step(Activation(7), ANY));
    var s2 := Perform(s1, Step(Activation(7), ANY));
    Next(s2, Step(Activation(7), ANY));
    s := Perform(s2, Step(Activation(7), ANY));
  }

  /** A caller of `disconnect` takes the session out and counts its close. */
  lemma ClosedFirst() returns (s: State)
    ensures Reachable(s) && s.log == [Stats.Closed(LATE.id)] && s.tables.byId == map[]
    ensures Activating(s, LATE, Recording)
  {
    var s0 := InsertedNotCounted();
    hide Reachable;
    Next(s0, CallDisconnect(0, LATE.id));
    var s1 := Perform(s0, CallDisconnect(0, LATE.id));
    var step := Step(Caller(0), ANY);
    Next(s1, step);
    var s2 := Perform(s1, step);
    Next(s2, step);
    var s3 := Perform(s2, step);
    Next(s3, step);
    var s4 := Perform(s3, step);
    Next(s4, step);
    var s5 := Perform(s4, step);
    Next(s5, step);
    s := Perform(s5, step);
  }

  /**
   The documented `established - closed == active` is not an invariant of the session layer:
   in some reachable state no session is live, the two totals agree, and `active` says one,
   and whatever is counted afterwards, `active` stays too large.
   */
  lemma CountersCanDrift() returns (s: State)
    ensures Reachable(s) && s.tables.byId == map[]
    ensures Stats.Establishes(s.log) == Stats.Closes(s.log) && Stats.Active(s.log) == 1
    ensures forall more :: Stats.Active(s.log + more) > Stats.Establishes(s.log + more) - Stats.Closes(s.log + more)
  {
    var s0 := ClosedFirst();
    hide Reachable;
    Next(s0, Step(Activation(7), ANY));
    s := Perform(s0, Step(Activation(7), ANY));
    assert s.log == [Stats.Closed(7), Stats.Established(7)];
    Stats.LateEstablishDrifts(7);
    forall more
      ensures Stats.Active(s.log + more) > Stats.Establishes(s.log + more) - Stats.Closes(s.log + more)
    {
      Stats.DriftIsForGood(s.log, more);
    }
  }
}
