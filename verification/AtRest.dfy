/**
 What the tasks leave when they come to rest. A session that has left the registry is closed by
 whoever took it out, and that is what wakes a receive loop that no signal reaches: at rest a
 session is closed if and only if it is not registered, and its loop is gone with it.
 */
module AtRest {
  import opened Sessions
  import opened Registry
  import Arbitration
  import opened Totals
  import opened Lifecycle
  import opened LifecycleInvariant
  import opened LifecycleResults
  import opened Rest
  import opened Traces
  import opened ShutdownSignal

  /** Wherever the task is past marking a session closed, that session is closed. */
  predicate HasClosed(closed: set<SessionId>, th: Thread) {
    && (th.call.RecordClosed? || th.call.Announce? ==> th.call.gone.id in closed)
    && (th.pc.ActivateAt? && th.pc.stage == Rejected ==> th.pc.c.id in closed)
    && (th.pc.DownAt? && (th.pc.down == RecordDrained || th.pc.down == AnnounceDrained) && th.pc.rest != [] ==> th.pc.rest[0].id in closed)
  }

  /** And so is every session announced as disconnected. */
  ghost predicate EndedAreClosed(s: State) {
    && (forall t :: t in s.threads ==> HasClosed(s.closed, s.threads[t]))
    && (forall id :: s.disconnected[id] > 0 ==> id in s.closed)
  }

  lemma MoveKeepsClosed(s: State, t: Tid, th: Thread, s': State)
    requires EndedAreClosed(s) && s'.threads == s.threads[t := th] && s.closed <= s'.closed && HasClosed(s'.closed, th)
    requires forall id :: s'.disconnected[id] > 0 ==> s.disconnected[id] > 0 || id in s'.closed
    ensures EndedAreClosed(s')
  {
  }

  lemma TaskHasClosed(s: State, t: Tid)
    requires EndedAreClosed(s) && t in s.threads
    ensures HasClosed(s.closed, s.threads[t])
  {
  }

  lemma CallCloses(s: State, t: Tid)
    requires t in s.threads && HasClosed(s.closed, s.threads[t])
    ensures var s' := StepCall(s, t);
            t in s'.threads && s.closed <= s'.closed && HasClosed(s'.closed, s'.threads[t])
  {
    hide Remove, GetByPeer;
    var th := s.threads[t];
    match th.call
    case NoCall =>
    case Lookup(_) =>
    case Check(_) =>
    case Take(held) =>
      assert StepCall(s, t).threads[t].pc == th.pc && StepCall(s, t).closed == s.closed;
    case MarkClosed(gone) =>
      assert StepCall(s, t).threads[t] == Thread(th.pc, RecordClosed(gone));
    case RecordClosed(gone) =>
      assert StepCall(s, t).threads[t] == Thread(th.pc, Announce(gone));
    case Announce(_) =>
      assert StepCall(s, t).threads[t] == Thread(th.pc, NoCall);
  }

  lemma CallAnnounces(s: State, t: Tid)
    requires t in s.threads && HasClosed(s.closed, s.threads[t])
    ensures forall id :: StepCall(s, t).disconnected[id] > 0 ==> s.disconnected[id] > 0 || id in s.closed
  {
    hide Remove;
  }

  lemma CallKeepsClosed(s: State, t: Tid)
    requires EndedAreClosed(s) && t in s.threads
    ensures EndedAreClosed(StepCall(s, t))
  {
    hide StepCall, EndedAreClosed;
    TaskHasClosed(s, t);
    CallCloses(s, t);
    CallAnnounces(s, t);
    CallStaysInPlace(s, t);
    var s' := StepCall(s, t);
    MoveKeepsClosed(s, t, s'.threads[t], s');
  }

  lemma ActivationKeepsClosed(s: State, c: Conn, stage: Stage)
    requires EndedAreClosed(s) && Activating(s, c, stage)
    ensures EndedAreClosed(StepActivation(s, Activation(c.id), c, stage))
  {
    hide Insert, GetByPeer, EndedAreClosed, Arbitration.Wins;
    var t, s' := Activation(c.id), StepActivation(s, Activation(c.id), c, stage);
    TaskHasClosed(s, t);
    if stage == Spawning {
      var mid := Put(s, t, s'.threads[t]);
      MoveKeepsClosed(s, t, s'.threads[t], mid);
      MoveKeepsClosed(mid, Loop(c.id), s'.threads[Loop(c.id)], s');
    } else {
      MoveKeepsClosed(s, t, s'.threads[t], s');
    }
  }

  lemma DownKeepsClosed(s: State, t: Tid, down: DownStage, rest: seq<Conn>, ch: Choice)
    requires EndedAreClosed(s) && t in s.threads && s.threads[t] == Thread(DownAt(down, rest), NoCall)
    ensures EndedAreClosed(StepDown(s, t, down, rest, ch))
  {
    hide EndedAreClosed, Receivers;
    TaskHasClosed(s, t);
    var s' := StepDown(s, t, down, rest, ch);
    MoveKeepsClosed(s, t, s'.threads[t], s');
  }

  lemma StepKeepsClosed(s: State, t: Tid, ch: Choice)
    requires Inv(s) && CanStep(s, t, ch) && EndedAreClosed(s)
    ensures EndedAreClosed(StepOf(s, t, ch))
  {
    hide Core, Lists, EndedAreClosed;
    TaskFacts(s, t);
    var th := s.threads[t];
    if th.call != NoCall {
      CallKeepsClosed(s, t);
    } else {
      match t
      case Activation(_) => ActivationKeepsClosed(s, th.pc.c, th.pc.stage);
      case Shutdown(_) => DownKeepsClosed(s, t, th.pc.down, th.pc.rest, ch);
      case Attempt(_) => MoveKeepsClosed(s, t, StepOf(s, t, ch).threads[t], StepOf(s, t, ch));
      case Loop(_) => MoveKeepsClosed(s, t, StepOf(s, t, ch).threads[t], StepOf(s, t, ch));
      case Caller(_) =>
      case Acceptor => MoveKeepsClosed(s, t, StepOf(s, t, ch).threads[t], StepOf(s, t, ch));
    }
  }

  lemma ActionKeepsClosed(s: State, a: Action)
    requires Inv(s) && Enabled(s, a) && EndedAreClosed(s)
    ensures EndedAreClosed(Perform(s, a))
  {
    hide Core, CanStep, EndedAreClosed;
    var s' := Perform(s, a);
    match a
    case Step(t, ch) => StepKeepsClosed(s, t, ch);
    case Dial(n) => MoveKeepsClosed(s, Attempt(n), s'.threads[Attempt(n)], s');
    case HandshakeFails(n) => MoveKeepsClosed(s, Attempt(n), s'.threads[Attempt(n)], s');
    case HandshakeDone(n, c) =>
      var mid := Put(s, Attempt(n), Thread(AttemptAt(Ended), NoCall));
      MoveKeepsClosed(s, Attempt(n), Thread(AttemptAt(Ended), NoCall), mid);
      MoveKeepsClosed(mid, Activation(c.id), Thread(ActivateAt(c, Arbitrating), NoCall), s');
    case CallDisconnect(n, _) => MoveKeepsClosed(s, Caller(n), s'.threads[Caller(n)], s');
    case ReadFrame(id) => MoveKeepsClosed(s, Loop(id), s'.threads[Loop(id)], s');
    case ReadError(id) => MoveKeepsClosed(s, Loop(id), s'.threads[Loop(id)], s');
    case AcceptOne => MoveKeepsClosed(s, Acceptor, s'.threads[Acceptor], s');
    case CallShutdown(n) => MoveKeepsClosed(s, Shutdown(n), s'.threads[Shutdown(n)], s');
  }

  lemma {:induction false} RunKeepsClosed(s: State, run: seq<Action>)
    requires Inv(s) && Legal(s, run) && EndedAreClosed(s)
    ensures EndedAreClosed(After(s, run))
    decreases |run|
  {
    hide Inv, Enabled, Perform, EndedAreClosed;
    if run != [] {
      ActionKeepsInv(s, run[0]);
      ActionKeepsClosed(s, run[0]);
      RunKeepsClosed(Perform(s, run[0]), run[1..]);
    }
  }

  lemma DisconnectedAreClosed(s: State)
    requires Reachable(s)
    ensures EndedAreClosed(s)
  {
    var local: NodeId, max: nat, listening: bool, run: seq<Action> :|
      Legal(Start(local, max, listening), run) && After(Start(local, max, listening), run) == s;
    hide Inv;
    StartInv(local, max, listening);
    RunKeepsClosed(Start(local, max, listening), run);
  }

  /** An admitted session that is not registered has been announced as disconnected once nothing is in flight. */
  lemma GoneIsAnnounced(s: State, id: SessionId)
    requires Reachable(s) && Quiescent(s) && AdmittedId(s, id)
    ensures StageIs(s, id, Accepted) && s.disconnected[id] == if id in s.tables.byId then 0 else 1
  {
    EverySessionIsInOnePlace(s, id);
    QuiescentTasksCarryNothing(s);
    QuiescentActivations(s, id);
    hide Quiescent;
  }

  lemma LoopIsThere(s: State, id: SessionId)
    requires Inv(s) && StageIs(s, id, Accepted)
    ensures Loop(id) in s.threads
  {
  }

  lemma ParkedLoopGoesOn(s: State, id: SessionId)
    requires ParkedLoop(s, id) && s.threads[Loop(id)].pc.c.id == id && id in s.closed
    ensures CanStep(s, Loop(id), Choice([], false))
  {
  }

  lemma LoopAtRest(s: State, id: SessionId)
    requires Inv(s) && NoStep(s) && Loop(id) in s.threads
    ensures ParkedLoop(s, id) || (s.threads[Loop(id)].pc.LoopAt? && s.threads[Loop(id)].pc.loop == Exited && id !in s.tables.byId)
    ensures ParkedLoop(s, id) ==> id !in s.closed
  {
    TaskFacts(s, Loop(id));
    hide Inv;
    StuckMeansSettled(s, Loop(id));
    if ParkedLoop(s, id) && id in s.closed {
      ParkedLoopGoesOn(s, id);
    }
    hide CanStep;
  }

  /**
   In every state of rest: of the sessions ever taken in, exactly those that are not registered
   are closed; the receive loop of a registered one waits, and that of any other has returned. A
   session that was turned away is closed too.
   */
  lemma ClosedExactlyIfGone(s: State, id: SessionId)
    requires Reachable(s) && NoStep(s)
    ensures AdmittedId(s, id) ==>
              && (id in s.closed <==> id !in s.tables.byId)
              && Loop(id) in s.threads && s.threads[Loop(id)].pc.LoopAt?
              && s.threads[Loop(id)].pc.loop == (if id in s.tables.byId then Parked else Exited)
    ensures StageIs(s, id, Rejected) ==> id in s.closed
  {
    ReachableInv(s);
    DisconnectedAreClosed(s);
    if StageIs(s, id, Rejected) {
      TaskFacts(s, Activation(id));
      assert HasClosed(s.closed, s.threads[Activation(id)]);
    }
    if AdmittedId(s, id) {
      SettledIsQuiescent(s);
      GoneIsAnnounced(s, id);
      ClosedSessionsAreOver(s);
      LoopIsThere(s, id);
      LoopAtRest(s, id);
    }
    hide Inv, NoStep;
  }
}
