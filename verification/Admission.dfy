/**
 The session limit under concurrency. The check of the limit and the insert are separate
 steps with a handshake between them, so the limit holds up to the number of attempts that
 are past the check together.
 */
module Admission {
  import opened Sessions
  import opened Registry
  import opened Totals
  import opened Lifecycle
  import opened LifecycleInvariant

  /** An attempt, outbound or inbound, past the limit check and not yet inserted, rejected or failed. */
  function InFlight(th: Thread): nat {
    match th.pc
    case AttemptAt(at) => if at == Handshaking then 1 else 0
    case ActivateAt(_, stage) => if stage == Arbitrating || stage == Inserting then 1 else 0
    case LoopAt(_, _) => 0
    case CallerAt => 0
    case DownAt(_, _) => 0
    case AcceptAt(_) => 0
  }

  ghost function Attempts(s: State): nat {
    Total(s.threads, InFlight)
  }

  /** In every state of the run at most `n` attempts are past the check. */
  ghost predicate AtMostInFlight(s: State, run: seq<Action>, n: nat)
    requires Legal(s, run)
    decreases |run|
  {
    Attempts(s) <= n && (run == [] || AtMostInFlight(Perform(s, run[0]), run[1..], n))
  }

  lemma PutMovesAttempts(s: State, t: Tid, th: Thread)
    ensures Total(s.threads[t := th], InFlight) == Attempts(s) + InFlight(th) - if t in s.threads then InFlight(s.threads[t]) else 0
  {
    TotalUpdate(s.threads, InFlight, t, th);
  }

  /** The room a state uses: live sessions and attempts that may still become one. */
  ghost function Used(s: State): nat {
    |s.tables.byId| + Attempts(s)
  }

  lemma RemoveNeverGrows(t: Tables, id: SessionId)
    ensures |Remove(t, id).byId| <= |t.byId|
  {
    if id in t.byId {
      RemoveShrinks(t, id);
    }
  }

  lemma MoveUse(s: State, t: Tid, th: Thread, s': State)
    requires s'.threads == s.threads[t := th]
    requires |s'.tables.byId| + InFlight(th) <= |s.tables.byId| + if t in s.threads then InFlight(s.threads[t]) else 0
    ensures Used(s') <= Used(s)
  {
    PutMovesAttempts(s, t, th);
  }

  lemma CallUsesNoMore(s: State, t: Tid)
    requires t in s.threads
    ensures Used(StepCall(s, t)) <= Used(s)
  {
    hide StepCall, Remove, Used;
    CallStaysInPlace(s, t);
    var s' := StepCall(s, t);
    if s.threads[t].call.Take? {
      RemoveNeverGrows(s.tables, s.threads[t].call.held.id);
    }
    MoveUse(s, t, s'.threads[t], s');
  }

  lemma InsertUsesNoMore(s: State, c: Conn)
    requires Activating(s, c, Inserting)
    ensures Used(StepActivation(s, Activation(c.id), c, Inserting)) <= Used(s)
  {
    hide Used;
    var s' := StepActivation(s, Activation(c.id), c, Inserting);
    if GetByPeer(s.tables, c.peer).None? {
      assert s'.tables.byId.Keys == s.tables.byId.Keys + {c.id};
      hide GetByPeer;
      MoveUse(s, Activation(c.id), Thread(ActivateAt(c, Recording), NoCall), s');
    } else {
      MoveUse(s, Activation(c.id), Thread(ActivateAt(c, Discarding), NoCall), s');
    }
  }

  lemma SpawnUsesNoMore(s: State, c: Conn)
    requires Activating(s, c, Spawning) && Loop(c.id) !in s.threads
    ensures Used(StepActivation(s, Activation(c.id), c, Spawning)) <= Used(s)
  {
    hide Used;
    var mid := Put(s, Activation(c.id), Thread(ActivateAt(c, Accepted), NoCall));
    MoveUse(s, Activation(c.id), Thread(ActivateAt(c, Accepted), NoCall), mid);
    MoveUse(mid, Loop(c.id), Thread(LoopAt(c, Top), NoCall), Put(mid, Loop(c.id), Thread(LoopAt(c, Top), NoCall)));
  }

  lemma ActivationUsesNoMore(s: State, c: Conn, stage: Stage)
    requires Activating(s, c, stage) && (stage == Spawning ==> Loop(c.id) !in s.threads)
    ensures Used(StepActivation(s, Activation(c.id), c, stage)) <= Used(s)
  {
    hide Used, GetByPeer;
    var s' := StepActivation(s, Activation(c.id), c, stage);
    if stage == Inserting {
      InsertUsesNoMore(s, c);
    } else if stage == Spawning {
      SpawnUsesNoMore(s, c);
    } else {
      MoveUse(s, Activation(c.id), s'.threads[Activation(c.id)], s');
    }
  }

  /** Only an attempt that passes the check adds to what is used, and it passes only below the limit. */
  lemma AttemptUsesMoreOnlyBelowLimit(s: State, n: nat, at: AttemptStage)
    requires Attempt(n) in s.threads && s.threads[Attempt(n)].pc == AttemptAt(at)
    ensures var s' := StepAttempt(s, Attempt(n), at);
            Used(s') <= Used(s) || |s'.tables.byId| < s'.max
  {
    var s' := StepAttempt(s, Attempt(n), at);
    PutMovesAttempts(s, Attempt(n), s'.threads[Attempt(n)]);
    assert s'.threads == s.threads[Attempt(n) := s'.threads[Attempt(n)]];
  }

  lemma LoopComesWithAcceptance(s: State, id: SessionId)
    requires Core(s)
    ensures Loop(id) in s.threads ==> StageIs(s, id, Accepted)
  {
    if Loop(id) in s.threads {
      TaskFacts(s, Loop(id));
    }
  }

  lemma DownUsesNoMore(s: State, t: Tid, down: DownStage, rest: seq<Conn>, ch: Choice)
    requires t in s.threads && s.threads[t] == Thread(DownAt(down, rest), NoCall)
    ensures Used(StepDown(s, t, down, rest, ch)) <= Used(s)
  {
    hide Used, Receivers;
    var s' := StepDown(s, t, down, rest, ch);
    assert s'.threads == s.threads[t := s'.threads[t]] && (s'.tables == s.tables || s'.tables == EMPTY);
    assert InFlight(s'.threads[t]) == 0;
    hide StepDown, InFlight;
    MoveUse(s, t, s'.threads[t], s');
  }

  lemma LoopOrAcceptorUsesNoMore(s: State, t: Tid, ch: Choice)
    requires CanStep(s, t, ch) && s.threads[t].call == NoCall && (t.Loop? || t.Acceptor?)
    requires t.Loop? ==> s.threads[t].pc.LoopAt?
    requires t.Acceptor? ==> s.threads[t].pc.AcceptAt?
    ensures Used(StepOf(s, t, ch)) <= Used(s)
  {
    hide Used;
    var s' := StepOf(s, t, ch);
    MoveUse(s, t, s'.threads[t], s');
  }

  lemma StepKeepsMax(s: State, t: Tid, ch: Choice)
    requires Inv(s) && CanStep(s, t, ch)
    ensures StepOf(s, t, ch).max == s.max
  {
    hide Core, Lists;
    TaskFacts(s, t);
  }

  lemma StepUse(s: State, t: Tid, ch: Choice)
    requires Inv(s) && CanStep(s, t, ch)
    ensures var s' := StepOf(s, t, ch); Used(s') <= Used(s) || |s'.tables.byId| < s'.max
  {
    hide Core, Lists, Used;
    TaskFacts(s, t);
    hide StepCall, StepActivation, StepAttempt, StepDown, StepLoop, StepAcceptor;
    var th := s.threads[t];
    if th.call != NoCall {
      CallUsesNoMore(s, t);
    } else {
      match t
      case Attempt(n) => AttemptUsesMoreOnlyBelowLimit(s, n, th.pc.attempt);
      case Activation(id) =>
        LoopComesWithAcceptance(s, id);
        ActivationUsesNoMore(s, th.pc.c, th.pc.stage);
      case Caller(_) =>
      case Shutdown(_) => DownUsesNoMore(s, t, th.pc.down, th.pc.rest, ch);
      case Loop(_) => LoopOrAcceptorUsesNoMore(s, t, ch);
      case Acceptor => LoopOrAcceptorUsesNoMore(s, t, ch);
    }
  }

  lemma ActionUse(s: State, a: Action)
    requires Inv(s) && Enabled(s, a)
    ensures var s' := Perform(s, a); Used(s') <= Used(s) || |s'.tables.byId| < s'.max
    ensures Perform(s, a).max == s.max
  {
    hide Core, CanStep;
    if a.Step? {
      StepUse(s, a.t, a.ch);
      StepKeepsMax(s, a.t, a.ch);
    } else if a.HandshakeDone? {
      var mid := Put(s, Attempt(a.n), Thread(AttemptAt(Ended), NoCall));
      PutMovesAttempts(s, Attempt(a.n), Thread(AttemptAt(Ended), NoCall));
      PutMovesAttempts(mid, Activation(a.c.id), Thread(ActivateAt(a.c, Arbitrating), NoCall));
    } else {
      var t := match a case Dial(n) => Attempt(n) case HandshakeFails(n) => Attempt(n)
                       case CallDisconnect(n, _) => Caller(n) case ReadFrame(id) => Loop(id)
                       case ReadError(id) => Loop(id) case AcceptOne => Acceptor case CallShutdown(n) => Shutdown(n)
                       case Step(t, _) => t case HandshakeDone(n, _) => Attempt(n);
      PutMovesAttempts(s, t, Perform(s, a).threads[t]);
    }
  }

  /**
   If at most `n` attempts are ever past the check together, live sessions and attempts
   past the check never exceed the limit by more than n - 1. For one attempt at a time the
   limit itself holds.
   */
  lemma {:induction false} LimitHoldsUpToConcurrency(s: State, run: seq<Action>, n: nat)
    requires n >= 1 && Inv(s) && Legal(s, run) && AtMostInFlight(s, run, n)
    requires Used(s) <= s.max + n - 1
    ensures Used(After(s, run)) <= After(s, run).max + n - 1
    ensures After(s, run).max == s.max
    decreases |run|
  {
    hide Inv, Enabled, Perform;
    if run != [] {
      ActionKeepsInv(s, run[0]);
      ActionUse(s, run[0]);
      LimitHoldsUpToConcurrency(Perform(s, run[0]), run[1..], n);
    }
  }

  lemma SessionsStayWithinLimit(local: NodeId, max: nat, listening: bool, run: seq<Action>, n: nat)
    requires n >= 1
    requires Legal(Start(local, max, listening), run) && AtMostInFlight(Start(local, max, listening), run, n)
    ensures var s := After(Start(local, max, listening), run);
            |s.tables.byId| + Attempts(s) <= max + n - 1 && (n == 1 ==> |s.tables.byId| <= max)
  {
    var s := Start(local, max, listening);
    StartInv(local, max, listening);
    TotalZero(s.threads, InFlight);
    LimitHoldsUpToConcurrency(s, run, n);
  }
}
