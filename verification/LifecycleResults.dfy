/**
 What holds in every reachable state of the session layer, whatever the interleaving.
 */
module LifecycleResults {
  import opened Sessions
  import opened Registry
  import Stats
  import opened Totals
  import opened Lifecycle
  import opened LifecycleInvariant

  /** A state some run from a fresh manager leads to. */
  ghost predicate Reachable(s: State) {
    exists local: NodeId, max: nat, listening: bool, run: seq<Action> ::
      Legal(Start(local, max, listening), run) && After(Start(local, max, listening), run) == s
  }

  lemma ReachableInv(s: State)
    requires Reachable(s)
    ensures Inv(s)
  {
    var local: NodeId, max: nat, listening: bool, run: seq<Action> :|
      Legal(Start(local, max, listening), run) && After(Start(local, max, listening), run) == s;
    hide Inv, Start;
    StartInv(local, max, listening);
    RunKeepsInv(Start(local, max, listening), run);
  }

  // ------------------------------------------------------------------
  // Conservation
  // ------------------------------------------------------------------

  /** No task is in the middle of anything: loops may wait for input, everything else is done. */
  ghost predicate Quiescent(s: State) {
    forall t :: t in s.threads ==>
      var th := s.threads[t];
      th.call == NoCall &&
      match th.pc
      case AttemptAt(at) => at == Ended || at == Handshaking
      case ActivateAt(_, stage) => stage == Accepted || stage == Rejected
      case LoopAt(_, loop) => loop == Parked || loop == Exited
      case CallerAt => true
      case DownAt(down, rest) => down == Over && rest == []
      case AcceptAt(_) => true
  }

  /**
   The books balance with any number of tasks in the middle of something: establishes
   counted, and inserts still to be counted, equal closes counted, removals still to be
   counted, and the sessions registered.
   */
  lemma BooksBalance(s: State)
    requires Reachable(s)
    ensures Stats.Establishes(s.log) + Total(s.threads, Unestablished)
            == Stats.Closes(s.log) + Total(s.threads, Uncounted) + |s.tables.byId|
  {
    ReachableInv(s);
  }

  /** An admitted session is in exactly one place: the registry, one task that winds it up, or the announced ones. */
  lemma EverySessionIsInOnePlace(s: State, id: SessionId)
    requires Reachable(s)
    ensures AdmittedId(s, id) ==> (if id in s.tables.byId then 1 else 0) + Total(s.threads, Carries(id)) + s.disconnected[id] == 1
    ensures s.connected[id] <= 1 && s.disconnected[id] <= 1
    ensures s.disconnected[id] == 1 || id in s.tables.byId ==> AdmittedId(s, id)
  {
    ReachableInv(s);
    assert SessionLaw(s, id) && ConnectedLaw(s, id);
  }

  lemma QuiescentTasksCarryNothing(s: State)
    requires Quiescent(s)
    ensures Total(s.threads, Uncounted) == 0 && Total(s.threads, Unestablished) == 0
    ensures forall id :: Total(s.threads, Carries(id)) == 0
  {
    TotalZero(s.threads, Uncounted);
    TotalZero(s.threads, Unestablished);
    forall id
      ensures Total(s.threads, Carries(id)) == 0
    {
      TotalZero(s.threads, Carries(id));
    }
  }

  lemma QuiescentActivations(s: State, id: SessionId)
    requires Quiescent(s)
    ensures AdmittedId(s, id) == StageIs(s, id, Accepted) && !StageIs(s, id, Spawning)
  {
  }

  /** With nothing in flight, the counters differ by the registry's size, and the sessions announced and not ended are those registered. */
  lemma QuiescentBooks(s: State)
    requires Reachable(s) && Quiescent(s)
    ensures Stats.Establishes(s.log) - Stats.Closes(s.log) == |s.tables.byId|
    ensures forall id :: s.connected[id] == s.disconnected[id] + One(id in s.tables.byId)
  {
    ReachableInv(s);
    assert Laws(s);
    hide Core, Quiescent;
    QuiescentTasksCarryNothing(s);
    forall id
      ensures s.connected[id] == s.disconnected[id] + One(id in s.tables.byId)
    {
      assert SessionLaw(s, id) && ConnectedLaw(s, id);
      QuiescentActivations(s, id);
    }
  }

  /** A task that removes a session removes the one it holds. */
  lemma RemovalIsOfTheHeldSession(s: State, t: Tid)
    requires Reachable(s) && t in s.threads && s.threads[t].call.Take? && s.threads[t].call.held.id in s.tables.byId
    ensures s.tables.byId[s.threads[t].call.held.id] == s.threads[t].call.held
    ensures StepCall(s, t).threads[t].call == MarkClosed(s.threads[t].call.held)
  {
    ReachableInv(s);
    hide Core;
    TaskFacts(s, t);
    HeldIsRegistered(s, s.threads[t].call.held);
  }

  /** The session was in the registry once and is not any more. */
  ghost predicate Gone(s: State, id: SessionId) {
    AdmittedId(s, id) && id !in s.tables.byId
  }

  lemma ActivationKeepsGone(s: State, c: Conn, stage: Stage, id: SessionId)
    requires Activating(s, c, stage) && Gone(s, id)
    ensures Gone(StepActivation(s, Activation(c.id), c, stage), id)
  {
  }

  lemma CallKeepsGone(s: State, t: Tid, id: SessionId)
    requires t in s.threads && Gone(s, id)
    ensures Gone(StepCall(s, t), id)
  {
  }

  lemma PutKeepsGone(s: State, t: Tid, s': State, id: SessionId)
    requires !t.Activation? && t in s'.threads && s'.threads == s.threads[t := s'.threads[t]] && Gone(s, id)
    requires s'.tables == s.tables || s'.tables == EMPTY
    ensures Gone(s', id)
  {
  }

  lemma StepKeepsGone(s: State, t: Tid, ch: Choice, id: SessionId)
    requires Inv(s) && CanStep(s, t, ch) && Gone(s, id)
    ensures Gone(StepOf(s, t, ch), id)
  {
    hide Core, Lists, Gone;
    TaskFacts(s, t);
    if s.threads[t].call != NoCall {
      CallKeepsGone(s, t, id);
    } else if t.Activation? {
      ActivationKeepsGone(s, s.threads[t].pc.c, s.threads[t].pc.stage, id);
    } else {
      PutKeepsGone(s, t, StepOf(s, t, ch), id);
    }
  }

  lemma ActionKeepsGone(s: State, a: Action, id: SessionId)
    requires Inv(s) && Enabled(s, a) && Gone(s, id)
    ensures Gone(Perform(s, a), id)
  {
    hide Core, CanStep;
    if a.Step? {
      StepKeepsGone(s, a.t, a.ch, id);
    }
  }

  /** A removal is for good: each inserted session is removed at most once. */
  lemma {:induction false} GoneForever(s: State, run: seq<Action>, id: SessionId)
    requires Inv(s) && Legal(s, run) && Gone(s, id)
    ensures Gone(After(s, run), id)
    decreases |run|
  {
    hide Inv, Enabled, Perform, Gone;
    if run != [] {
      ActionKeepsInv(s, run[0]);
      ActionKeepsGone(s, run[0], id);
      GoneForever(Perform(s, run[0]), run[1..], id);
    }
  }

  // ------------------------------------------------------------------
  // No orphan
  // ------------------------------------------------------------------

  /** A registered session has an `activate` that is about to spawn its loop, or a loop that is still to disconnect it. */
  lemma NoOrphan(s: State, id: SessionId)
    requires Reachable(s) && id in s.tables.byId
    ensures StageIs(s, id, Recording) || StageIs(s, id, Announcing) || StageIs(s, id, Spawning)
            || (Loop(id) in s.threads && s.threads[Loop(id)].pc.LoopAt?
                && (s.threads[Loop(id)].pc.loop == Exited ==> BeforeRemoval(s.threads[Loop(id)].call, id)))
  {
    ReachableInv(s);
    hide Core;
    RegisteredFacts(s, id);
    if StageIs(s, id, Accepted) {
      TaskFacts(s, Loop(id));
    }
  }

  /** Once the receive loop has returned its session is out of the registry for good. */
  lemma ExitedLoopLeavesNothing(s: State, id: SessionId, run: seq<Action>)
    requires Reachable(s) && Legal(s, run)
    requires Loop(id) in s.threads && s.threads[Loop(id)].call == NoCall
    requires s.threads[Loop(id)].pc.LoopAt? && s.threads[Loop(id)].pc.loop == Exited
    ensures id !in After(s, run).tables.byId
  {
    ReachableInv(s);
    TaskFacts(s, Loop(id));
    hide Core, Inv;
    assert Gone(s, id);
    GoneForever(s, run, id);
  }
}
