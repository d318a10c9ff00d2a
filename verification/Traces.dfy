/**
 What sessions leave behind in the set of closed sessions and in the log: both name only
 sessions that are over. A run in which no close is counted before the establish of the same
 session therefore keeps the documented counter invariant.
 */
module Traces {
  import opened Sessions
  import opened Registry
  import Stats
  import opened Totals
  import opened Lifecycle
  import opened LifecycleInvariant
  import opened LifecycleResults

  /** The task carries a removed session whose close it has not counted yet. */
  ghost predicate Unrecorded(th: Thread, id: SessionId) {
    || ((th.call.MarkClosed? || th.call.RecordClosed?) && th.call.gone.id == id)
    || (th.pc.DownAt? && exists i :: (if th.pc.down == AnnounceDrained then 1 else 0) <= i < |th.pc.rest| && th.pc.rest[i].id == id)
  }

  /** A closed session is not registered, and it was admitted or rejected. */
  ghost predicate ClosedIsOver(s: State, id: SessionId) {
    id !in s.tables.byId && (AdmittedId(s, id) || StageIs(s, id, Rejected))
  }

  /** A session whose close is counted is not registered, was admitted, and no task is about to count it again. */
  ghost predicate LoggedIsOver(s: State, id: SessionId) {
    id !in s.tables.byId && AdmittedId(s, id) && forall t :: t in s.threads ==> !Unrecorded(s.threads[t], id)
  }

  ghost predicate Traced(s: State) {
    && (forall id :: id in s.closed ==> ClosedIsOver(s, id))
    && (forall id :: Stats.Closed(id) in s.log ==> LoggedIsOver(s, id))
  }

  // ------------------------------------------------------------------
  // A removed session has one carrier
  // ------------------------------------------------------------------

  lemma {:induction false} OccursWhere(rest: seq<Conn>, i: nat)
    requires i < |rest|
    ensures Occurs(rest, rest[i].id) >= 1
  {
    if i > 0 {
      OccursWhere(rest[1..], i - 1);
    }
  }

  lemma UnrecordedIsCarried(th: Thread, id: SessionId)
    requires Unrecorded(th, id)
    ensures Carrying(th, id) >= 1
  {
    if !((th.call.MarkClosed? || th.call.RecordClosed?) && th.call.gone.id == id) {
      var i :| 0 <= i < |th.pc.rest| && th.pc.rest[i].id == id;
      OccursWhere(th.pc.rest, i);
    }
  }

  lemma OnlyCarrier(s: State, t: Tid, id: SessionId)
    requires Core(s) && t in s.threads && Carrying(s.threads[t], id) >= 1
    ensures id !in s.tables.byId && AdmittedId(s, id) && Carrying(s.threads[t], id) == 1
    ensures forall u :: u in s.threads && u != t ==> Carrying(s.threads[u], id) == 0
  {
    assert SessionLaw(s, id);
    hide Core;
    TotalSplit(s.threads, Carries(id), t);
    forall u | u in s.threads && u != t
      ensures Carrying(s.threads[u], id) == 0
    {
      TotalSplit(s.threads - {t}, Carries(id), u);
    }
  }

  /** When the only carrier moves on and carries the session uncounted no more, nobody does. */
  lemma NobodyElse(s: State, t: Tid, th: Thread, s': State, id: SessionId)
    requires Core(s) && t in s.threads && Carrying(s.threads[t], id) >= 1
    requires s'.threads == s.threads[t := th] && !Unrecorded(th, id)
    ensures forall u :: u in s'.threads ==> !Unrecorded(s'.threads[u], id)
  {
    OnlyCarrier(s, t, id);
    hide Core;
    forall u | u in s'.threads && u != t
      ensures !Unrecorded(s'.threads[u], id)
    {
      if Unrecorded(s'.threads[u], id) {
        UnrecordedIsCarried(s'.threads[u], id);
      }
    }
  }

  // ------------------------------------------------------------------
  // Steps keep it
  // ------------------------------------------------------------------

  /** What is admitted or rejected stays so. */
  ghost predicate Remembers(s: State, s': State) {
    && (forall id :: AdmittedId(s, id) ==> AdmittedId(s', id))
    && (forall id :: StageIs(s, id, Rejected) ==> StageIs(s', id, Rejected))
  }

  /** One task moves on, closing the sessions of `shut` and counting the closes of `ended`. */
  lemma MoveKeepsTraced(s: State, t: Tid, th: Thread, s': State, shut: set<SessionId>, ended: set<SessionId>)
    requires Traced(s) && s'.threads == s.threads[t := th] && Remembers(s, s')
    requires forall id :: id in s'.tables.byId ==> id in s.tables.byId || (id !in s.closed && Stats.Closed(id) !in s.log)
    requires forall id :: id in s'.closed ==> id in s.closed || id in shut
    requires forall id :: id in shut ==> ClosedIsOver(s', id)
    requires forall id :: Stats.Closed(id) in s'.log ==> Stats.Closed(id) in s.log || id in ended
    requires forall id :: id in ended ==> LoggedIsOver(s', id)
    requires forall id :: Unrecorded(th, id) ==> (t in s.threads && Unrecorded(s.threads[t], id)) || id in s.tables.byId
    ensures Traced(s')
  {
    hide Unrecorded, AdmittedId, StageIs;
    forall id | id in s'.closed
      ensures ClosedIsOver(s', id)
    {
      if id in s.closed && id !in shut {
        assert ClosedIsOver(s, id);
      }
    }
    forall id | Stats.Closed(id) in s'.log
      ensures LoggedIsOver(s', id)
    {
      if Stats.Closed(id) in s.log && id !in ended {
        assert LoggedIsOver(s, id);
      }
    }
  }

  lemma SamePlaceRemembers(s: State, t: Tid, th: Thread, s': State)
    requires s'.threads == s.threads[t := th] && (!t.Activation? || (t in s.threads && th.pc == s.threads[t].pc))
    ensures Remembers(s, s') && forall id :: AdmittedId(s, id) == AdmittedId(s', id)
  {
  }

  /** A step that registers, closes and counts nothing. */
  lemma QuietMoveKeepsTraced(s: State, t: Tid, th: Thread, s': State)
    requires Traced(s) && s'.threads == s.threads[t := th] && Remembers(s, s')
    requires (forall id :: id in s'.tables.byId ==> id in s.tables.byId) && s'.closed == s.closed
    requires s'.log == s.log || exists id :: s'.log == s.log + [Stats.Established(id)]
    requires forall id :: Unrecorded(th, id) ==> (t in s.threads && Unrecorded(s.threads[t], id)) || id in s.tables.byId
    ensures Traced(s')
  {
    hide Traced, Remembers, Unrecorded;
    MoveKeepsTraced(s, t, th, s', {}, {});
  }

  /** Where a call is in a task that has no drained sessions. */
  ghost predicate InCall(s: State, t: Tid, call: Call) {
    t in s.threads && s.threads[t].call == call && !s.threads[t].pc.DownAt?
  }

  lemma TakeKeepsTraced(s: State, t: Tid, held: Conn)
    requires Core(s) && Traced(s) && InCall(s, t, Take(held)) && held.id in s.tables.byId
    ensures Traced(StepCall(s, t))
  {
    RegisteredFacts(s, held.id);
    hide Core, Traced, AdmittedId, StageIs;
    var s' := StepCall(s, t);
    SamePlaceRemembers(s, t, s'.threads[t], s');
    hide Remembers;
    QuietMoveKeepsTraced(s, t, s'.threads[t], s');
  }

  lemma MarkKeepsTraced(s: State, t: Tid, gone: Conn)
    requires Core(s) && Traced(s) && InCall(s, t, MarkClosed(gone))
    ensures Traced(StepCall(s, t))
  {
    OnlyCarrier(s, t, gone.id);
    hide Core, Traced, AdmittedId, StageIs;
    var s' := StepCall(s, t);
    SamePlaceRemembers(s, t, s'.threads[t], s');
    hide Remembers;
    MoveKeepsTraced(s, t, s'.threads[t], s', {gone.id}, {});
  }

  lemma RecordKeepsTraced(s: State, t: Tid, gone: Conn)
    requires Core(s) && Traced(s) && InCall(s, t, RecordClosed(gone))
    ensures Traced(StepCall(s, t))
  {
    OnlyCarrier(s, t, gone.id);
    var s' := StepCall(s, t);
    var th := s.threads[t].(call := Announce(gone));
    NobodyElse(s, t, th, s', gone.id);
    SamePlaceRemembers(s, t, th, s');
    assert forall id :: !Unrecorded(th, id);
    hide Core, Traced, AdmittedId, StageIs, Remembers, Unrecorded;
    MoveKeepsTraced(s, t, th, s', {}, {gone.id});
  }

  lemma LookingKeepsTraced(s: State, t: Tid)
    requires Traced(s) && t in s.threads && InCall(s, t, s.threads[t].call)
    requires s.threads[t].call.Lookup? || s.threads[t].call.Check? || s.threads[t].call.Announce?
             || (s.threads[t].call.Take? && s.threads[t].call.held.id !in s.tables.byId)
    ensures Traced(StepCall(s, t))
  {
    hide Traced, AdmittedId, StageIs;
    var s' := StepCall(s, t);
    SamePlaceRemembers(s, t, s'.threads[t], s');
    hide Remembers;
    QuietMoveKeepsTraced(s, t, s'.threads[t], s');
  }

  lemma CallKeepsTraced(s: State, t: Tid)
    requires Core(s) && Traced(s) && t in s.threads && s.threads[t].call != NoCall
    ensures Traced(StepCall(s, t))
  {
    TaskFacts(s, t);
    hide Core, Traced, StepCall;
    match s.threads[t].call
    case Take(held) => if held.id in s.tables.byId { TakeKeepsTraced(s, t, held); } else { LookingKeepsTraced(s, t); }
    case MarkClosed(gone) => MarkKeepsTraced(s, t, gone);
    case RecordClosed(gone) => RecordKeepsTraced(s, t, gone);
    case Lookup(_) => LookingKeepsTraced(s, t);
    case Check(_) => LookingKeepsTraced(s, t);
    case Announce(_) => LookingKeepsTraced(s, t);
  }

  /** A step of an activation keeps what it has admitted or rejected. */
  lemma StageRemembers(s: State, c: Conn, stage: Stage, th: Thread, s': State)
    requires Activating(s, c, stage) && s'.threads == s.threads[Activation(c.id) := th]
    requires th.pc.ActivateAt? && (Taken(stage) ==> Taken(th.pc.stage)) && stage != Rejected
    ensures Remembers(s, s')
  {
  }

  lemma NotYetTraced(s: State, c: Conn, stage: Stage)
    requires Traced(s) && Activating(s, c, stage) && !Taken(stage) && stage != Rejected
    ensures c.id !in s.closed && Stats.Closed(c.id) !in s.log
  {
  }

  /** Only an insert registers, and what it registers was never closed or counted out. */
  lemma InsertKeepsTraced(s: State, c: Conn)
    requires Traced(s) && Activating(s, c, Inserting)
    ensures Traced(StepActivation(s, Activation(c.id), c, Inserting))
  {
    NotYetTraced(s, c, Inserting);
    var t, s' := Activation(c.id), StepActivation(s, Activation(c.id), c, Inserting);
    StageRemembers(s, c, Inserting, s'.threads[t], s');
    assert forall id :: id in s'.tables.byId ==> id in s.tables.byId || id == c.id;
    hide Traced, Remembers, Insert, GetByPeer;
    MoveKeepsTraced(s, t, s'.threads[t], s', {}, {});
  }

  lemma RejectKeepsTraced(s: State, c: Conn)
    requires Core(s) && Traced(s) && Activating(s, c, Rejecting)
    ensures Traced(StepActivation(s, Activation(c.id), c, Rejecting))
  {
    NotYetTaken(s, c, Rejecting);
    hide Core;
    var t, s' := Activation(c.id), StepActivation(s, Activation(c.id), c, Rejecting);
    StageRemembers(s, c, Rejecting, s'.threads[t], s');
    assert ClosedIsOver(s', c.id);
    hide Traced, Remembers, ClosedIsOver;
    MoveKeepsTraced(s, t, s'.threads[t], s', {c.id}, {});
  }

  lemma QuietStageKeepsTraced(s: State, c: Conn, stage: Stage)
    requires Traced(s) && Activating(s, c, stage)
    requires stage == Arbitrating || stage == Recording || stage == Announcing || stage == Discarding
    ensures Traced(StepActivation(s, Activation(c.id), c, stage))
  {
    hide Traced, GetByPeer;
    var t, s' := Activation(c.id), StepActivation(s, Activation(c.id), c, stage);
    StageRemembers(s, c, stage, s'.threads[t], s');
    hide Remembers;
    QuietMoveKeepsTraced(s, t, s'.threads[t], s');
  }

  lemma SpawnKeepsTraced(s: State, c: Conn)
    requires Traced(s) && Activating(s, c, Spawning) && Loop(c.id) !in s.threads
    ensures Traced(StepActivation(s, Activation(c.id), c, Spawning))
  {
    var t, th, spawned := Activation(c.id), Thread(ActivateAt(c, Accepted), NoCall), Thread(LoopAt(c, Top), NoCall);
    var mid := Put(s, t, th);
    StageRemembers(s, c, Spawning, th, mid);
    SamePlaceRemembers(mid, Loop(c.id), spawned, Put(mid, Loop(c.id), spawned));
    hide Traced, Remembers;
    MoveKeepsTraced(s, t, th, mid, {}, {});
    MoveKeepsTraced(mid, Loop(c.id), spawned, Put(mid, Loop(c.id), spawned), {}, {});
  }

  lemma ActivationKeepsTraced(s: State, c: Conn, stage: Stage)
    requires Core(s) && Traced(s) && Activating(s, c, stage)
    ensures Traced(StepActivation(s, Activation(c.id), c, stage))
  {
    hide Core, Traced, GetByPeer, Insert;
    match stage
    case Inserting => InsertKeepsTraced(s, c);
    case Rejecting => RejectKeepsTraced(s, c);
    case Spawning => NoLoopBeforeSpawn(s, c); SpawnKeepsTraced(s, c);
    case Accepted =>
    case Rejected =>
    case Arbitrating => QuietStageKeepsTraced(s, c, stage);
    case Recording => QuietStageKeepsTraced(s, c, stage);
    case Announcing => QuietStageKeepsTraced(s, c, stage);
    case Discarding => QuietStageKeepsTraced(s, c, stage);
  }

  /** A drained session that comes up once does not come up again behind itself. */
  lemma RecordedIsNotCarried(rest: seq<Conn>, id: SessionId)
    requires rest != [] && rest[0].id == id && Occurs(rest, id) == 1
    ensures !Unrecorded(Thread(DownAt(AnnounceDrained, rest), NoCall), id)
  {
    forall i | 1 <= i < |rest|
      ensures rest[i].id != id
    {
      if rest[i].id == id {
        OccursWhere(rest[1..], i - 1);
      }
    }
  }

  /** Call `n` of `shutdown` is here. */
  ghost predicate InShutdown(s: State, n: nat, down: DownStage, rest: seq<Conn>) {
    Shutdown(n) in s.threads && s.threads[Shutdown(n)] == Thread(DownAt(down, rest), NoCall)
  }

  lemma HeadIsCarried(s: State, n: nat, down: DownStage, rest: seq<Conn>)
    requires InShutdown(s, n, down, rest) && rest != []
    ensures Carrying(s.threads[Shutdown(n)], rest[0].id) == Occurs(rest, rest[0].id) >= 1
  {
    OccursWhere(rest, 0);
  }

  lemma DrainedMarkKeepsTraced(s: State, n: nat, rest: seq<Conn>, ch: Choice)
    requires Core(s) && Traced(s) && InShutdown(s, n, MarkDrained, rest) && rest != []
    ensures Traced(StepDown(s, Shutdown(n), MarkDrained, rest, ch))
  {
    HeadIsCarried(s, n, MarkDrained, rest);
    hide Core, Traced, AdmittedId, StageIs, Carrying;
    OnlyCarrier(s, Shutdown(n), rest[0].id);
    var t, s' := Shutdown(n), StepDown(s, Shutdown(n), MarkDrained, rest, ch);
    SamePlaceRemembers(s, t, s'.threads[t], s');
    hide Remembers;
    MoveKeepsTraced(s, t, s'.threads[t], s', {rest[0].id}, {});
  }

  lemma DrainedRecordKeepsTraced(s: State, n: nat, rest: seq<Conn>, ch: Choice)
    requires Core(s) && Traced(s) && InShutdown(s, n, RecordDrained, rest) && rest != []
    ensures Traced(StepDown(s, Shutdown(n), RecordDrained, rest, ch))
  {
    var t, s' := Shutdown(n), StepDown(s, Shutdown(n), RecordDrained, rest, ch);
    var th := Thread(DownAt(AnnounceDrained, rest), NoCall);
    HeadIsCarried(s, n, RecordDrained, rest);
    assert forall id :: Unrecorded(th, id) ==> Unrecorded(s.threads[t], id);
    hide Core, Traced, AdmittedId, StageIs, Remembers, Unrecorded, Carrying;
    OnlyCarrier(s, t, rest[0].id);
    RecordedIsNotCarried(rest, rest[0].id);
    NobodyElse(s, t, th, s', rest[0].id);
    SamePlaceRemembers(s, t, th, s');
    MoveKeepsTraced(s, t, th, s', {}, {rest[0].id});
  }

  /** A list of drained sessions is handed on without its head. */
  lemma NextIsUnrecordedToo(rest: seq<Conn>, id: SessionId)
    requires rest != [] && Unrecorded(Thread(NextDrained(rest[1..]), NoCall), id)
    ensures Unrecorded(Thread(DownAt(AnnounceDrained, rest), NoCall), id)
  {
    var i :| 0 <= i < |rest[1..]| && rest[1..][i].id == id;
    assert rest[i + 1].id == id;
  }

  lemma DrainedAnnounceKeepsTraced(s: State, n: nat, rest: seq<Conn>, ch: Choice)
    requires Traced(s) && InShutdown(s, n, AnnounceDrained, rest) && rest != []
    ensures Traced(StepDown(s, Shutdown(n), AnnounceDrained, rest, ch))
  {
    var t, s' := Shutdown(n), StepDown(s, Shutdown(n), AnnounceDrained, rest, ch);
    var th := Thread(NextDrained(rest[1..]), NoCall);
    SamePlaceRemembers(s, t, th, s');
    forall id | Unrecorded(th, id)
      ensures Unrecorded(s.threads[t], id)
    {
      NextIsUnrecordedToo(rest, id);
    }
    hide Traced, AdmittedId, StageIs, Remembers, Unrecorded;
    QuietMoveKeepsTraced(s, t, th, s');
  }

  lemma DrainKeepsTraced(s: State, n: nat, rest: seq<Conn>, ch: Choice)
    requires Traced(s) && InShutdown(s, n, Draining, rest) && Lists(ch.order, s.tables.byId)
    ensures Traced(StepDown(s, Shutdown(n), Draining, rest, ch))
  {
    var t, s' := Shutdown(n), StepDown(s, Shutdown(n), Draining, rest, ch);
    var th := Thread(NextDrained(ch.order), NoCall);
    SamePlaceRemembers(s, t, th, s');
    assert forall id :: Unrecorded(th, id) ==> id in s.tables.byId;
    hide Traced, AdmittedId, StageIs, Remembers, Unrecorded, Lists;
    QuietMoveKeepsTraced(s, t, th, s');
  }

  lemma EarlyDownKeepsTraced(s: State, n: nat, down: DownStage, rest: seq<Conn>, ch: Choice)
    requires Traced(s) && InShutdown(s, n, down, rest) && (down == SwapFlag || down == SendSignal)
    ensures Traced(StepDown(s, Shutdown(n), down, rest, ch))
  {
    hide Traced, AdmittedId, StageIs, Receivers;
    var t, s' := Shutdown(n), StepDown(s, Shutdown(n), down, rest, ch);
    SamePlaceRemembers(s, t, s'.threads[t], s');
    hide Remembers;
    QuietMoveKeepsTraced(s, t, s'.threads[t], s');
  }

  lemma DownKeepsTraced(s: State, n: nat, down: DownStage, rest: seq<Conn>, ch: Choice)
    requires Core(s) && Traced(s) && InShutdown(s, n, down, rest)
    requires down == Draining ==> Lists(ch.order, s.tables.byId)
    ensures Traced(StepDown(s, Shutdown(n), down, rest, ch))
  {
    TaskFacts(s, Shutdown(n));
    hide Core, Traced, Lists, Receivers;
    match down
    case SwapFlag => EarlyDownKeepsTraced(s, n, down, rest, ch);
    case SendSignal => EarlyDownKeepsTraced(s, n, down, rest, ch);
    case Draining => DrainKeepsTraced(s, n, rest, ch);
    case MarkDrained => DrainedMarkKeepsTraced(s, n, rest, ch);
    case RecordDrained => DrainedRecordKeepsTraced(s, n, rest, ch);
    case AnnounceDrained => DrainedAnnounceKeepsTraced(s, n, rest, ch);
    case Over =>
  }

  lemma OtherStepKeepsTraced(s: State, t: Tid, ch: Choice)
    requires Traced(s) && CanStep(s, t, ch) && s.threads[t].call == NoCall && Shape(s, t)
    requires t.Attempt? || t.Loop? || t.Acceptor?
    ensures Traced(StepOf(s, t, ch))
  {
    hide Traced, AdmittedId;
    var s' := StepOf(s, t, ch);
    SamePlaceRemembers(s, t, s'.threads[t], s');
    hide Remembers;
    QuietMoveKeepsTraced(s, t, s'.threads[t], s');
  }

  lemma StepKeepsTraced(s: State, t: Tid, ch: Choice)
    requires Inv(s) && CanStep(s, t, ch) && Traced(s)
    ensures Traced(StepOf(s, t, ch))
  {
    TaskFacts(s, t);
    hide Core, Lists, Traced, StepCall, StepActivation, StepDown;
    var th := s.threads[t];
    if th.call != NoCall {
      CallKeepsTraced(s, t);
    } else {
      match t
      case Activation(_) => ActivationKeepsTraced(s, th.pc.c, th.pc.stage);
      case Shutdown(n) => DownKeepsTraced(s, n, th.pc.down, th.pc.rest, ch);
      case Attempt(_) => OtherStepKeepsTraced(s, t, ch);
      case Loop(_) => OtherStepKeepsTraced(s, t, ch);
      case Caller(_) =>
      case Acceptor => OtherStepKeepsTraced(s, t, ch);
    }
  }

  /** A request, a message or a failure from outside changes tasks that carry nothing. */
  lemma InputKeepsTraced(s: State, a: Action)
    requires Enabled(s, a) && !a.Step? && !a.HandshakeDone? && Traced(s)
    ensures Traced(Perform(s, a))
  {
    hide Traced, AdmittedId, StageIs;
    var s' := Perform(s, a);
    var t := match a case Dial(n) => Attempt(n) case HandshakeFails(n) => Attempt(n)
                     case CallDisconnect(n, _) => Caller(n) case ReadFrame(id) => Loop(id)
                     case ReadError(id) => Loop(id) case AcceptOne => Acceptor case CallShutdown(n) => Shutdown(n)
                     case Step(t, _) => t case HandshakeDone(n, _) => Attempt(n);
    SamePlaceRemembers(s, t, s'.threads[t], s');
    hide Remembers;
    QuietMoveKeepsTraced(s, t, s'.threads[t], s');
  }

  lemma ArrivalKeepsTraced(s: State, n: nat, c: Conn)
    requires Enabled(s, HandshakeDone(n, c)) && Traced(s)
    ensures Traced(Perform(s, HandshakeDone(n, c)))
  {
    var ended, start := Thread(AttemptAt(Ended), NoCall), Thread(ActivateAt(c, Arbitrating), NoCall);
    var mid := Put(s, Attempt(n), ended);
    SamePlaceRemembers(s, Attempt(n), ended, mid);
    assert Remembers(mid, Put(mid, Activation(c.id), start));
    hide Traced, Remembers;
    QuietMoveKeepsTraced(s, Attempt(n), ended, mid);
    QuietMoveKeepsTraced(mid, Activation(c.id), start, Put(mid, Activation(c.id), start));
  }

  lemma ActionKeepsTraced(s: State, a: Action)
    requires Inv(s) && Enabled(s, a) && Traced(s)
    ensures Traced(Perform(s, a))
  {
    hide Inv, CanStep, Traced;
    if a.Step? {
      StepKeepsTraced(s, a.t, a.ch);
    } else if a.HandshakeDone? {
      ArrivalKeepsTraced(s, a.n, a.c);
    } else {
      InputKeepsTraced(s, a);
    }
  }

  lemma {:induction false} RunKeepsTraced(s: State, run: seq<Action>)
    requires Inv(s) && Legal(s, run) && Traced(s)
    ensures Traced(After(s, run))
    decreases |run|
  {
    hide Inv, Enabled, Perform, Traced;
    if run != [] {
      ActionKeepsInv(s, run[0]);
      ActionKeepsTraced(s, run[0]);
      RunKeepsTraced(Perform(s, run[0]), run[1..]);
    }
  }

  /** In every reachable state closed and counted-out sessions are over: a registered session is open, and no close is counted twice. */
  lemma ClosedSessionsAreOver(s: State)
    requires Reachable(s)
    ensures Traced(s)
  {
    var local: NodeId, max: nat, listening: bool, run: seq<Action> :|
      Legal(Start(local, max, listening), run) && After(Start(local, max, listening), run) == s;
    hide Inv;
    StartInv(local, max, listening);
    RunKeepsTraced(Start(local, max, listening), run);
  }

  // ------------------------------------------------------------------
  // Runs that count in order
  // ------------------------------------------------------------------

  /** The action is the `record_closed` call for this session. */
  ghost predicate CountsCloseOf(s: State, a: Action, id: SessionId) {
    && a.Step? && a.t in s.threads
    && var th := s.threads[a.t];
       || (th.call.RecordClosed? && th.call.gone.id == id)
       || (th.call == NoCall && th.pc.DownAt? && th.pc.down == RecordDrained && th.pc.rest != [] && th.pc.rest[0].id == id)
  }

  /** No session's close is counted before its establish. */
  ghost predicate CountsInOrder(s: State, run: seq<Action>)
    requires Legal(s, run)
    decreases |run|
  {
    run == [] ||
    ((forall id :: CountsCloseOf(s, run[0], id) ==> Stats.Established(id) in s.log) && CountsInOrder(Perform(s, run[0]), run[1..]))
  }

  /** The log after an action: the same, or longer by an establish, or by the close the action counts. */
  ghost predicate LogGrown(s: State, a: Action, log: seq<Stats.Entry>) {
    || log == s.log
    || (exists id :: log == s.log + [Stats.Established(id)])
    || (exists id :: CountsCloseOf(s, a, id) && log == s.log + [Stats.Closed(id)])
  }

  lemma CallGrowsLog(s: State, t: Tid, ch: Choice)
    requires t in s.threads && s.threads[t].call != NoCall
    ensures LogGrown(s, Step(t, ch), StepCall(s, t).log)
  {
    hide Remove;
    if s.threads[t].call.RecordClosed? {
      assert CountsCloseOf(s, Step(t, ch), s.threads[t].call.gone.id);
    }
  }

  lemma DownGrowsLog(s: State, t: Tid, down: DownStage, rest: seq<Conn>, ch: Choice)
    requires t in s.threads && s.threads[t] == Thread(DownAt(down, rest), NoCall)
    ensures LogGrown(s, Step(t, ch), StepDown(s, t, down, rest, ch).log)
  {
    hide Receivers;
    if down == RecordDrained && rest != [] {
      assert CountsCloseOf(s, Step(t, ch), rest[0].id);
    }
  }

  lemma ActivationGrowsLog(s: State, a: Action, t: Tid, c: Conn, stage: Stage)
    ensures LogGrown(s, a, StepActivation(s, t, c, stage).log)
  {
    hide GetByPeer, Insert, CountsCloseOf;
  }

  lemma SameLog(s: State, a: Action)
    ensures LogGrown(s, a, s.log)
  {
  }

  lemma StepGrowsLog(s: State, t: Tid, ch: Choice)
    requires t in s.threads
    ensures LogGrown(s, Step(t, ch), StepOf(s, t, ch).log)
  {
    hide LogGrown, StepCall, StepActivation, StepDown;
    var th := s.threads[t];
    if th.call != NoCall {
      CallGrowsLog(s, t, ch);
    } else if th.pc.ActivateAt? {
      ActivationGrowsLog(s, Step(t, ch), t, th.pc.c, th.pc.stage);
    } else if th.pc.DownAt? {
      DownGrowsLog(s, t, th.pc.down, th.pc.rest, ch);
    } else {
      assert StepOf(s, t, ch).log == s.log;
      SameLog(s, Step(t, ch));
    }
  }

  lemma EnabledTaskExists(s: State, a: Action)
    requires a.Step? && Enabled(s, a)
    ensures a.t in s.threads
  {
  }

  lemma LogGrows(s: State, a: Action)
    requires Enabled(s, a)
    ensures LogGrown(s, a, Perform(s, a).log)
  {
    hide LogGrown, StepOf, CanStep;
    if a.Step? {
      assert a.t in s.threads by {
        EnabledTaskExists(s, a);
      }
      StepGrowsLog(s, a.t, a.ch);
    } else {
      SameLog(s, a);
    }
  }

  lemma CountedOnce(s: State, a: Action, id: SessionId)
    requires Traced(s) && CountsCloseOf(s, a, id)
    ensures Stats.Closed(id) !in s.log
  {
    var th := s.threads[a.t];
    assert th.pc.DownAt? && th.pc.down == RecordDrained && th.pc.rest != [] && th.pc.rest[0].id == id ==> Unrecorded(th, id);
    assert Unrecorded(th, id);
  }

  lemma OrderedSnoc(log: seq<Stats.Entry>, e: Stats.Entry)
    requires Stats.OrderedPerSession(log)
    requires e.Closed? ==> Stats.Established(e.id) in log && Stats.Closed(e.id) !in log
    ensures Stats.OrderedPerSession(log + [e])
  {
    var log' := log + [e];
    forall j | 0 <= j < |log'| && log'[j].Closed?
      ensures exists i :: 0 <= i < j && log'[i] == Stats.Established(log'[j].id)
    {
      if j < |log| {
        var i :| 0 <= i < j && log[i] == Stats.Established(log[j].id);
        assert log'[i] == log[i];
      } else {
        var i :| 0 <= i < |log| && log[i] == Stats.Established(e.id);
        assert log'[i] == log[i];
      }
    }
  }

  lemma {:induction false} OrderedRunsLogInOrder(s: State, run: seq<Action>)
    requires Inv(s) && Traced(s) && Legal(s, run) && CountsInOrder(s, run) && Stats.OrderedPerSession(s.log)
    ensures Stats.OrderedPerSession(After(s, run).log)
    decreases |run|
  {
    hide Inv, Enabled, Perform, Traced, CountsCloseOf, Stats.OrderedPerSession;
    if run != [] {
      var a := run[0];
      ActionKeepsInv(s, a);
      ActionKeepsTraced(s, a);
      LogGrows(s, a);
      if id :| CountsCloseOf(s, a, id) && Perform(s, a).log == s.log + [Stats.Closed(id)] {
        CountedOnce(s, a, id);
        OrderedSnoc(s.log, Stats.Closed(id));
      } else if id :| Perform(s, a).log == s.log + [Stats.Established(id)] {
        OrderedSnoc(s.log, Stats.Established(id));
      }
      OrderedRunsLogInOrder(Perform(s, a), run[1..]);
    }
  }

  /**
   In every run in which no session's close is counted before its establish, the documented
   counter invariant holds at the end, and so in every state on the way.
   */
  lemma OrderedRunsKeepTheCounters(local: NodeId, max: nat, listening: bool, run: seq<Action>)
    requires Legal(Start(local, max, listening), run) && CountsInOrder(Start(local, max, listening), run)
    ensures var log := After(Start(local, max, listening), run).log;
            Stats.Establishes(log) - Stats.Closes(log) == Stats.Active(log)
  {
    var s := Start(local, max, listening);
    StartInv(local, max, listening);
    hide Inv;
    OrderedRunsLogInOrder(s, run);
    Stats.OrderedLogsAreNeverBehind(After(s, run).log);
  }
}
