/**
 Shutdown and the sessions that are admitted while it runs.

 A session inserted after the drain is ended by its own receive loop, which hears the
 shutdown signal. The signal is a watch channel whose only receivers are parked loops; a
 send that finds none is lost. The main result says exactly when a session can outlive the
 shutdown: when the send finds no receiver and some session is still on its way in.
 */
module ShutdownSignal {
  import Addresses
  import opened Sessions
  import opened Registry
  import Stats
  import opened Lifecycle
  import opened LifecycleInvariant
  import opened LifecycleResults
  import opened Rest
  import opened Traces

  // ------------------------------------------------------------------
  // A signal that is heard
  // ------------------------------------------------------------------

  lemma SettledIsQuiescent(s: State)
    requires Inv(s) && NoStep(s)
    ensures Quiescent(s)
  {
    hide Inv;
    forall t | t in s.threads
      ensures Settled(s, t)
    {
      StuckMeansSettled(s, t);
    }
    hide NoStep;
  }

  /** Once the signal is out and every task has come to rest, no session is left and every establish has its close. */
  lemma HeardShutdownLeavesNothing(s: State)
    requires Reachable(s) && s.signal && NoStep(s)
    ensures s.tables.byId == map[]
    ensures Stats.Establishes(s.log) == Stats.Closes(s.log)
  {
    ReachableInv(s);
    hide Inv;
    forall id | id in s.tables.byId
      ensures false
    {
      NoOrphan(s, id);
      StuckMeansSettled(s, if Loop(id) in s.threads then Loop(id) else Activation(id));
    }
    SettledIsQuiescent(s);
    hide NoStep;
    QuiescentBooks(s);
  }

  lemma ActionKeepsSignal(s: State, a: Action)
    requires Enabled(s, a) && s.signal
    ensures Perform(s, a).signal
  {
  }

  lemma {:induction false} SignalStays(s: State, run: seq<Action>)
    requires Legal(s, run) && s.signal
    ensures After(s, run).signal
    decreases |run|
  {
    hide Enabled, Perform;
    if run != [] {
      ActionKeepsSignal(s, run[0]);
      SignalStays(Perform(s, run[0]), run[1..]);
    }
  }

  // ------------------------------------------------------------------
  // Only the first call of `shutdown` gets past the flag
  // ------------------------------------------------------------------

  predicate PastFlag(th: Thread) {
    th.pc.DownAt? && th.pc.down != SwapFlag && th.pc.down != Over
  }

  predicate BeforeSend(th: Thread) {
    th.pc.DownAt? && (th.pc.down == SwapFlag || th.pc.down == SendSignal)
  }

  ghost predicate OneShutdown(s: State) {
    && (forall t, u :: t in s.threads && u in s.threads && PastFlag(s.threads[t]) && PastFlag(s.threads[u]) ==> t == u)
    && (forall t :: t in s.threads && PastFlag(s.threads[t]) ==> s.shuttingDown)
    && (forall t :: t in s.threads && PastFlag(s.threads[t]) && BeforeSend(s.threads[t]) ==> !s.signal)
    && (!s.shuttingDown ==> !s.signal)
  }

  lemma PutKeepsOneShutdown(s: State, t: Tid, th: Thread, s': State)
    requires OneShutdown(s) && s'.threads == s.threads[t := th]
    requires s'.shuttingDown == s.shuttingDown && s'.signal == s.signal
    requires PastFlag(th) ==> t in s.threads && PastFlag(s.threads[t]) && (BeforeSend(th) ==> BeforeSend(s.threads[t]))
    ensures OneShutdown(s')
  {
  }

  lemma DownKeepsOneShutdown(s: State, t: Tid, down: DownStage, rest: seq<Conn>, ch: Choice)
    requires OneShutdown(s) && t in s.threads && s.threads[t] == Thread(DownAt(down, rest), NoCall)
    ensures OneShutdown(StepDown(s, t, down, rest, ch))
  {
    var s' := StepDown(s, t, down, rest, ch);
    if down == SwapFlag || down == SendSignal {
      assert s'.threads == s.threads[t := s'.threads[t]];
    } else {
      PutKeepsOneShutdown(s, t, s'.threads[t], s');
    }
  }

  lemma CallKeepsOneShutdown(s: State, t: Tid)
    requires OneShutdown(s) && t in s.threads
    ensures OneShutdown(StepCall(s, t))
  {
    CallStaysInPlace(s, t);
    var s' := StepCall(s, t);
    assert PastFlag(s'.threads[t]) == PastFlag(s.threads[t]) && BeforeSend(s'.threads[t]) == BeforeSend(s.threads[t]);
    hide OneShutdown, StepCall, PastFlag, BeforeSend;
    PutKeepsOneShutdown(s, t, s'.threads[t], s');
  }

  lemma ActivationKeepsOneShutdown(s: State, c: Conn, stage: Stage)
    requires OneShutdown(s) && Activating(s, c, stage)
    ensures OneShutdown(StepActivation(s, Activation(c.id), c, stage))
  {
    hide OneShutdown, GetByPeer, Insert;
    var t, s' := Activation(c.id), StepActivation(s, Activation(c.id), c, stage);
    if stage == Spawning {
      var mid := Put(s, t, s'.threads[t]);
      PutKeepsOneShutdown(s, t, s'.threads[t], mid);
      PutKeepsOneShutdown(mid, Loop(c.id), s'.threads[Loop(c.id)], s');
    } else {
      PutKeepsOneShutdown(s, t, s'.threads[t], s');
    }
  }

  lemma StepKeepsOneShutdown(s: State, t: Tid, ch: Choice)
    requires Inv(s) && CanStep(s, t, ch) && OneShutdown(s)
    ensures OneShutdown(StepOf(s, t, ch))
  {
    hide Core, Lists, OneShutdown;
    TaskFacts(s, t);
    var th := s.threads[t];
    if th.call != NoCall {
      CallKeepsOneShutdown(s, t);
    } else {
      match t
      case Activation(_) => ActivationKeepsOneShutdown(s, th.pc.c, th.pc.stage);
      case Shutdown(_) => DownKeepsOneShutdown(s, t, th.pc.down, th.pc.rest, ch);
      case Attempt(_) => PutKeepsOneShutdown(s, t, StepOf(s, t, ch).threads[t], StepOf(s, t, ch));
      case Loop(_) => PutKeepsOneShutdown(s, t, StepOf(s, t, ch).threads[t], StepOf(s, t, ch));
      case Caller(_) =>
      case Acceptor => PutKeepsOneShutdown(s, t, StepOf(s, t, ch).threads[t], StepOf(s, t, ch));
    }
  }

  lemma ActionKeepsOneShutdown(s: State, a: Action)
    requires Inv(s) && Enabled(s, a) && OneShutdown(s)
    ensures OneShutdown(Perform(s, a))
  {
    hide Core, CanStep, OneShutdown;
    var s' := Perform(s, a);
    match a
    case Step(t, ch) => StepKeepsOneShutdown(s, t, ch);
    case Dial(n) => PutKeepsOneShutdown(s, Attempt(n), s'.threads[Attempt(n)], s');
    case HandshakeFails(n) => PutKeepsOneShutdown(s, Attempt(n), s'.threads[Attempt(n)], s');
    case HandshakeDone(n, c) =>
      var mid := Put(s, Attempt(n), Thread(AttemptAt(Ended), NoCall));
      PutKeepsOneShutdown(s, Attempt(n), Thread(AttemptAt(Ended), NoCall), mid);
      PutKeepsOneShutdown(mid, Activation(c.id), Thread(ActivateAt(c, Arbitrating), NoCall), s');
    case CallDisconnect(n, _) => PutKeepsOneShutdown(s, Caller(n), s'.threads[Caller(n)], s');
    case ReadFrame(id) => PutKeepsOneShutdown(s, Loop(id), s'.threads[Loop(id)], s');
    case ReadError(id) => PutKeepsOneShutdown(s, Loop(id), s'.threads[Loop(id)], s');
    case AcceptOne => PutKeepsOneShutdown(s, Acceptor, s'.threads[Acceptor], s');
    case CallShutdown(n) => PutKeepsOneShutdown(s, Shutdown(n), s'.threads[Shutdown(n)], s');
  }

  lemma {:induction false} RunKeepsOneShutdown(s: State, run: seq<Action>)
    requires Inv(s) && Legal(s, run) && OneShutdown(s)
    ensures OneShutdown(After(s, run))
    decreases |run|
  {
    hide Inv, Enabled, Perform, OneShutdown;
    if run != [] {
      ActionKeepsInv(s, run[0]);
      ActionKeepsOneShutdown(s, run[0]);
      RunKeepsOneShutdown(Perform(s, run[0]), run[1..]);
    }
  }

  /** However often `shutdown` is called, one call at most gets past the flag, and the signal is out only after its send. */
  lemma ShutdownRunsOnce(s: State)
    requires Reachable(s)
    ensures OneShutdown(s)
  {
    var local: NodeId, max: nat, listening: bool, run: seq<Action> :|
      Legal(Start(local, max, listening), run) && After(Start(local, max, listening), run) == s;
    hide Inv;
    StartInv(local, max, listening);
    RunKeepsOneShutdown(Start(local, max, listening), run);
  }

  // ------------------------------------------------------------------
  // Nothing on its way in
  // ------------------------------------------------------------------

  /** A task that can still put a session into the registry once the shutdown flag is set. */
  predicate MayInsert(max: nat, th: Thread) {
    match th.pc
    case AttemptAt(at) => at == Handshaking || (at == CheckLimit && max > 0)
    case ActivateAt(_, stage) => stage == Arbitrating || stage == Inserting
    case LoopAt(_, _) => false
    case CallerAt => false
    case DownAt(_, _) => false
    case AcceptAt(_) => false
  }

  ghost predicate Incoming(s: State) {
    exists t :: t in s.threads && MayInsert(s.max, s.threads[t])
  }

  /** The flag is set, nothing is on its way in, and call `n` of `shutdown` has yet to drain the registry or it is empty. */
  ghost predicate RunsDry(s: State, n: nat) {
    && s.shuttingDown && !Incoming(s)
    && Shutdown(n) in s.threads && s.threads[Shutdown(n)].pc.DownAt?
    && (s.threads[Shutdown(n)].pc.down == SendSignal || s.threads[Shutdown(n)].pc.down == Draining || s.tables.byId == map[])
  }

  lemma PutRunsDry(s: State, t: Tid, th: Thread, s': State, n: nat)
    requires RunsDry(s, n) && s'.threads == s.threads[t := th] && !MayInsert(s.max, th)
    requires s'.shuttingDown && s'.max == s.max
    requires s'.tables.byId == map[] || s'.tables.byId.Keys <= s.tables.byId.Keys
    requires t == Shutdown(n) ==> th.pc.DownAt? && (th.pc == s.threads[t].pc || th.pc.down == Draining || s'.tables.byId == map[])
    ensures RunsDry(s', n)
  {
    hide MayInsert;
  }

  lemma InsertersAreIncoming(s: State, t: Tid)
    requires t in s.threads && !Incoming(s)
    ensures !MayInsert(s.max, s.threads[t])
  {
  }

  lemma CallRunsDry(s: State, t: Tid, n: nat)
    requires RunsDry(s, n) && t in s.threads
    ensures RunsDry(StepCall(s, t), n)
  {
    hide StepCall, Incoming;
    CallStaysInPlace(s, t);
    assert !MayInsert(s.max, s.threads[t]) by {
      InsertersAreIncoming(s, t);
    }
    hide RunsDry;
    PutRunsDry(s, t, StepCall(s, t).threads[t], StepCall(s, t), n);
  }

  lemma ActivationRunsDry(s: State, c: Conn, stage: Stage, n: nat)
    requires RunsDry(s, n) && Activating(s, c, stage)
    ensures RunsDry(StepActivation(s, Activation(c.id), c, stage), n)
  {
    InsertersAreIncoming(s, Activation(c.id));
    hide Incoming;
    var t, s' := Activation(c.id), StepActivation(s, Activation(c.id), c, stage);
    if stage == Spawning {
      var mid := Put(s, t, s'.threads[t]);
      PutRunsDry(s, t, s'.threads[t], mid, n);
      PutRunsDry(mid, Loop(c.id), s'.threads[Loop(c.id)], s', n);
    } else {
      PutRunsDry(s, t, s'.threads[t], s', n);
    }
  }

  lemma DownRunsDry(s: State, t: Tid, down: DownStage, rest: seq<Conn>, ch: Choice, n: nat)
    requires RunsDry(s, n) && t in s.threads && s.threads[t] == Thread(DownAt(down, rest), NoCall)
    ensures RunsDry(StepDown(s, t, down, rest, ch), n)
  {
    hide Incoming, Receivers;
    var s' := StepDown(s, t, down, rest, ch);
    PutRunsDry(s, t, s'.threads[t], s', n);
  }

  lemma OtherRunsDry(s: State, t: Tid, ch: Choice, n: nat)
    requires RunsDry(s, n) && CanStep(s, t, ch) && s.threads[t].call == NoCall && Shape(s, t)
    requires t.Attempt? || t.Loop? || t.Acceptor?
    ensures RunsDry(StepOf(s, t, ch), n)
  {
    InsertersAreIncoming(s, t);
    hide Incoming;
    var s' := StepOf(s, t, ch);
    assert !MayInsert(s.max, s'.threads[t]);
    PutRunsDry(s, t, s'.threads[t], s', n);
  }

  lemma StepRunsDry(s: State, t: Tid, ch: Choice, n: nat)
    requires Inv(s) && CanStep(s, t, ch) && RunsDry(s, n)
    ensures RunsDry(StepOf(s, t, ch), n)
  {
    TaskFacts(s, t);
    hide Core, Lists, RunsDry, StepCall, StepActivation, StepDown;
    var th := s.threads[t];
    if th.call != NoCall {
      CallRunsDry(s, t, n);
    } else {
      match t
      case Activation(_) => ActivationRunsDry(s, th.pc.c, th.pc.stage, n);
      case Shutdown(_) => DownRunsDry(s, t, th.pc.down, th.pc.rest, ch, n);
      case Attempt(_) => OtherRunsDry(s, t, ch, n);
      case Loop(_) => OtherRunsDry(s, t, ch, n);
      case Caller(_) =>
      case Acceptor => OtherRunsDry(s, t, ch, n);
    }
  }

  /** No input puts a session on its way in: a new attempt finds the flag, and no attempt is in its handshake. */
  lemma InputRunsDry(s: State, a: Action, n: nat)
    requires Enabled(s, a) && !a.Step? && RunsDry(s, n)
    ensures RunsDry(Perform(s, a), n)
  {
    var t := match a case Dial(m) => Attempt(m) case HandshakeFails(m) => Attempt(m)
                     case CallDisconnect(m, _) => Caller(m) case ReadFrame(id) => Loop(id)
                     case ReadError(id) => Loop(id) case AcceptOne => Acceptor case CallShutdown(m) => Shutdown(m)
                     case Step(t, _) => t case HandshakeDone(m, _) => Attempt(m);
    if t in s.threads {
      InsertersAreIncoming(s, t);
    }
    hide Incoming;
    PutRunsDry(s, t, Perform(s, a).threads[t], Perform(s, a), n);
  }

  lemma ActionRunsDry(s: State, a: Action, n: nat)
    requires Inv(s) && Enabled(s, a) && RunsDry(s, n)
    ensures RunsDry(Perform(s, a), n)
  {
    hide Inv, CanStep, RunsDry;
    if a.Step? {
      StepRunsDry(s, a.t, a.ch, n);
    } else {
      InputRunsDry(s, a, n);
    }
  }

  lemma {:induction false} RunStaysDry(s: State, run: seq<Action>, n: nat)
    requires Inv(s) && Legal(s, run) && RunsDry(s, n)
    ensures Inv(After(s, run)) && RunsDry(After(s, run), n)
    decreases |run|
  {
    hide Inv, Enabled, Perform, RunsDry;
    if run != [] {
      var a := run[0];
      ActionKeepsInv(s, a);
      ActionRunsDry(s, a, n);
      RunStaysDry(Perform(s, a), run[1..], n);
    }
  }

  /** With nothing on its way in, nothing is left at rest, heard or not. */
  lemma DryShutdownLeavesNothing(s: State, n: nat)
    requires Inv(s) && RunsDry(s, n) && NoStep(s)
    ensures s.tables.byId == map[]
    ensures Reachable(s) ==> Stats.Establishes(s.log) == Stats.Closes(s.log)
  {
    hide Inv, Incoming, Reachable;
    StuckMeansSettled(s, Shutdown(n));
    if Reachable(s) {
      SettledIsQuiescent(s);
      hide NoStep;
      QuiescentBooks(s);
    }
  }

  // ------------------------------------------------------------------
  // A session that nothing will end
  // ------------------------------------------------------------------

  /** A position inside `disconnect` that is about some session other than this one. */
  predicate NotAbout(call: Call, id: SessionId) {
    match call
    case NoCall => true
    case Lookup(x) => x != id
    case Check(held) => held.id != id
    case Take(held) => held.id != id
    case MarkClosed(gone) => gone.id != id
    case RecordClosed(gone) => gone.id != id
    case Announce(gone) => gone.id != id
  }

  /** A task that will not remove session `y`: it is not about `y`, not about to drain, and not about to replace `y`. */
  ghost predicate Spares(th: Thread, y: Conn) {
    && NotAbout(th.call, y.id)
    && match th.pc
       case AttemptAt(_) => true
       case ActivateAt(x, stage) => (stage == Arbitrating || stage == Inserting) ==> x.peer != y.peer
       case LoopAt(x, loop) => x.id == y.id ==> loop == Top || loop == Parked
       case CallerAt => true
       case DownAt(down, rest) =>
         down != SendSignal && down != Draining && forall i :: 0 <= i < |rest| ==> rest[i].id != y.id
       case AcceptAt(_) => true
  }

  /** After a lost signal: `y` is registered and open, and every task spares it. */
  ghost predicate Kept(s: State, y: Conn) {
    && s.shuttingDown && !s.signal && y.id !in s.closed
    && y.id in s.tables.byId && s.tables.byId[y.id] == y
    && forall t :: t in s.threads ==> Spares(s.threads[t], y)
  }

  lemma MoveKeeps(s: State, t: Tid, th: Thread, s': State, y: Conn)
    requires Kept(s, y) && s'.threads == s.threads[t := th] && Spares(th, y)
    requires s'.shuttingDown && !s'.signal && y.id !in s'.closed
    requires y.id in s'.tables.byId && s'.tables.byId[y.id] == y
    ensures Kept(s', y)
  {
    hide Spares;
  }

  lemma KeptFacts(s: State, t: Tid, y: Conn)
    requires Kept(s, y) && t in s.threads
    ensures s.shuttingDown && !s.signal && y.id !in s.closed && y.id in s.tables.byId && s.tables.byId[y.id] == y
    ensures Spares(s.threads[t], y)
  {
  }

  lemma CallKeeps(s: State, t: Tid, y: Conn)
    requires Core(s) && Kept(s, y) && t in s.threads && s.threads[t].call != NoCall
    ensures Kept(StepCall(s, t), y)
  {
    KeptFacts(s, t, y);
    hide Core, Kept;
    var call := s.threads[t].call;
    if call.Lookup? && call.id in s.tables.byId {
      RegisteredFacts(s, call.id);
    } else if call.Take? && call.held.id in s.tables.byId {
      RegisteredFacts(s, call.held.id);
    }
    var s' := StepCall(s, t);
    MoveKeeps(s, t, s'.threads[t], s', y);
  }

  /** Whom an arbitration looks up is of the newcomer's peer. */
  lemma LookupByPeerFacts(s: State, peer: NodeId)
    requires Core(s) && GetByPeer(s.tables, peer).Some?
    ensures var e := GetByPeer(s.tables, peer).value; e.peer == peer && e.id in s.tables.byId && s.tables.byId[e.id] == e
    ensures GetByPeer(s.tables, peer).value.id in s.tables.byId && s.tables.byId[GetByPeer(s.tables, peer).value.id].id == GetByPeer(s.tables, peer).value.id
  {
    TablesWellFormed(s);
  }

  lemma ArbitrationKeeps(s: State, x: Conn, y: Conn)
    requires Core(s) && Kept(s, y) && Activating(s, x, Arbitrating)
    ensures Kept(StepActivation(s, Activation(x.id), x, Arbitrating), y)
  {
    KeptFacts(s, Activation(x.id), y);
    hide Core, Kept;
    if GetByPeer(s.tables, x.peer).Some? {
      LookupByPeerFacts(s, x.peer);
    }
    hide GetByPeer;
    var s' := StepActivation(s, Activation(x.id), x, Arbitrating);
    MoveKeeps(s, Activation(x.id), s'.threads[Activation(x.id)], s', y);
  }

  lemma NotYetTakenOrRejected(s: State, x: Conn, stage: Stage, y: Conn)
    requires Core(s) && Kept(s, y) && Activating(s, x, stage) && !Taken(stage)
    ensures x.id != y.id
  {
    NotYetTaken(s, x, stage);
  }

  lemma StageKeeps(s: State, x: Conn, stage: Stage, y: Conn)
    requires Core(s) && Kept(s, y) && Activating(s, x, stage) && stage != Arbitrating && stage != Spawning
    ensures Kept(StepActivation(s, Activation(x.id), x, stage), y)
  {
    KeptFacts(s, Activation(x.id), y);
    if !Taken(stage) {
      NotYetTakenOrRejected(s, x, stage, y);
    }
    hide Core, Kept, GetByPeer;
    var s' := StepActivation(s, Activation(x.id), x, stage);
    MoveKeeps(s, Activation(x.id), s'.threads[Activation(x.id)], s', y);
  }

  lemma SpawnKeeps(s: State, x: Conn, y: Conn)
    requires Kept(s, y) && Activating(s, x, Spawning)
    ensures Kept(StepActivation(s, Activation(x.id), x, Spawning), y)
  {
    KeptFacts(s, Activation(x.id), y);
    hide Kept;
    var th, spawned := Thread(ActivateAt(x, Accepted), NoCall), Thread(LoopAt(x, Top), NoCall);
    var mid := Put(s, Activation(x.id), th);
    MoveKeeps(s, Activation(x.id), th, mid, y);
    MoveKeeps(mid, Loop(x.id), spawned, Put(mid, Loop(x.id), spawned), y);
  }

  lemma ActivationKeeps(s: State, x: Conn, stage: Stage, y: Conn)
    requires Core(s) && Kept(s, y) && Activating(s, x, stage)
    ensures Kept(StepActivation(s, Activation(x.id), x, stage), y)
  {
    hide Core, Kept, StepActivation;
    if stage == Arbitrating {
      ArbitrationKeeps(s, x, y);
    } else if stage == Spawning {
      SpawnKeeps(s, x, y);
    } else {
      StageKeeps(s, x, stage, y);
    }
  }

  lemma DownKeeps(s: State, t: Tid, down: DownStage, rest: seq<Conn>, ch: Choice, y: Conn)
    requires Kept(s, y) && t in s.threads && s.threads[t] == Thread(DownAt(down, rest), NoCall)
    ensures Kept(StepDown(s, t, down, rest, ch), y)
  {
    KeptFacts(s, t, y);
    hide Kept, Receivers;
    var s' := StepDown(s, t, down, rest, ch);
    MoveKeeps(s, t, s'.threads[t], s', y);
  }

  lemma OtherKeeps(s: State, t: Tid, ch: Choice, y: Conn)
    requires Kept(s, y) && CanStep(s, t, ch) && s.threads[t].call == NoCall && Shape(s, t)
    requires t.Attempt? || t.Loop? || t.Acceptor?
    ensures Kept(StepOf(s, t, ch), y)
  {
    KeptFacts(s, t, y);
    hide Kept, StageIs;
    var s' := StepOf(s, t, ch);
    MoveKeeps(s, t, s'.threads[t], s', y);
  }

  lemma StepKeeps(s: State, t: Tid, ch: Choice, y: Conn)
    requires Inv(s) && CanStep(s, t, ch) && Kept(s, y)
    ensures Kept(StepOf(s, t, ch), y)
  {
    TaskFacts(s, t);
    hide Core, Lists, Kept, StepCall, StepActivation, StepDown;
    var th := s.threads[t];
    if th.call != NoCall {
      CallKeeps(s, t, y);
    } else {
      match t
      case Activation(_) => ActivationKeeps(s, th.pc.c, th.pc.stage, y);
      case Shutdown(_) => DownKeeps(s, t, th.pc.down, th.pc.rest, ch, y);
      case Attempt(_) => OtherKeeps(s, t, ch, y);
      case Loop(_) => OtherKeeps(s, t, ch, y);
      case Caller(_) =>
      case Acceptor => OtherKeeps(s, t, ch, y);
    }
  }

  /** Whatever the tasks do by themselves, the session stays. */
  lemma {:induction false} StepsKeep(s: State, run: seq<Action>, y: Conn)
    requires Inv(s) && Legal(s, run) && StepsBut(run, {}) && Kept(s, y)
    ensures Kept(After(s, run), y)
    decreases |run|
  {
    hide Inv, Kept, CanStep, StepOf;
    if run != [] {
      ActionKeepsInv(s, run[0]);
      StepKeeps(s, run[0].t, run[0].ch, y);
      StepsKeep(Perform(s, run[0]), run[1..], y);
    }
  }

  // ------------------------------------------------------------------
  // A session on its way in, with every other task at rest
  // ------------------------------------------------------------------

  /** The signal was lost, and every call of `shutdown` is past its drain or will do nothing. */
  ghost predicate Silent(s: State) {
    && s.shuttingDown && !s.signal
    && forall t :: t in s.threads && s.threads[t].pc.DownAt? ==>
         s.threads[t].pc.down != SendSignal && s.threads[t].pc.down != Draining
  }

  /** The activation of `c` has not come to its insert yet. */
  ghost predicate OnItsWay(s: State, c: Conn) {
    && Activation(c.id) in s.threads
    && s.threads[Activation(c.id)].pc.ActivateAt? && s.threads[Activation(c.id)].pc.c == c
    && (s.threads[Activation(c.id)].pc.stage == Arbitrating || s.threads[Activation(c.id)].pc.stage == Inserting)
  }

  lemma PutKeepsSilent(s: State, t: Tid, th: Thread, s': State)
    requires Silent(s) && s'.threads == s.threads[t := th] && s'.shuttingDown && !s'.signal
    requires th.pc.DownAt? ==> th.pc.down != SendSignal && th.pc.down != Draining
    ensures Silent(s')
  {
  }

  lemma CallKeepsSilent(s: State, t: Tid)
    requires Silent(s) && t in s.threads
    ensures Silent(StepCall(s, t))
    ensures forall u :: u in s.threads && u != t ==> u in StepCall(s, t).threads && StepCall(s, t).threads[u] == s.threads[u]
  {
    CallStaysInPlace(s, t);
    assert s.threads[t].pc.DownAt? ==> s.threads[t].pc.down != SendSignal && s.threads[t].pc.down != Draining;
    hide StepCall, Remove, Silent;
    PutKeepsSilent(s, t, StepCall(s, t).threads[t], StepCall(s, t));
  }

  lemma ActivationKeepsSilent(s: State, c: Conn, stage: Stage)
    requires Silent(s) && Activating(s, c, stage)
    ensures var s' := StepActivation(s, Activation(c.id), c, stage);
            Silent(s') && forall u :: u in s.threads && u != Activation(c.id) && !u.Loop? ==> u in s'.threads && s'.threads[u] == s.threads[u]
  {
    hide GetByPeer, Insert;
  }

  lemma DownKeepsSilent(s: State, t: Tid, down: DownStage, rest: seq<Conn>, ch: Choice)
    requires Silent(s) && t in s.threads && s.threads[t] == Thread(DownAt(down, rest), NoCall)
    ensures var s' := StepDown(s, t, down, rest, ch);
            Silent(s') && forall u :: u in s.threads && u != t ==> u in s'.threads && s'.threads[u] == s.threads[u]
  {
    hide Receivers;
  }

  lemma OtherKeepsSilent(s: State, t: Tid, ch: Choice)
    requires Silent(s) && CanStep(s, t, ch) && s.threads[t].call == NoCall && Shape(s, t)
    requires t.Attempt? || t.Loop? || t.Acceptor?
    ensures var s' := StepOf(s, t, ch);
            Silent(s') && forall u :: u in s.threads && u != t ==> u in s'.threads && s'.threads[u] == s.threads[u]
  {
    hide StageIs;
  }

  lemma StepKeepsSilent(s: State, t: Tid, ch: Choice, u: Tid)
    requires Inv(s) && CanStep(s, t, ch) && Silent(s) && u in s.threads && u.Activation? && u != t
    ensures var s' := StepOf(s, t, ch); Silent(s') && u in s'.threads && s'.threads[u] == s.threads[u]
  {
    TaskFacts(s, t);
    hide Core, Lists, Silent, StepCall, StepActivation, StepDown;
    var th := s.threads[t];
    if th.call != NoCall {
      CallKeepsSilent(s, t);
    } else {
      match t
      case Activation(_) => ActivationKeepsSilent(s, th.pc.c, th.pc.stage);
      case Shutdown(_) => DownKeepsSilent(s, t, th.pc.down, th.pc.rest, ch);
      case Attempt(_) => OtherKeepsSilent(s, t, ch);
      case Loop(_) => OtherKeepsSilent(s, t, ch);
      case Caller(_) =>
      case Acceptor => OtherKeepsSilent(s, t, ch);
    }
  }

  /** While one activation is held back the other tasks leave it where it is. */
  lemma {:induction false} StepsKeepSilent(s: State, run: seq<Action>, u: Tid)
    requires Inv(s) && Legal(s, run) && StepsBut(run, {u}) && Silent(s) && Traced(s) && u in s.threads && u.Activation?
    ensures var s' := After(s, run); Silent(s') && Traced(s') && u in s'.threads && s'.threads[u] == s.threads[u]
    decreases |run|
  {
    hide Inv, Silent, Traced, CanStep, StepOf;
    if run != [] {
      ActionKeepsInv(s, run[0]);
      ActionKeepsTraced(s, run[0]);
      StepKeepsSilent(s, run[0].t, run[0].ch, u);
      StepsKeepSilent(Perform(s, run[0]), run[1..], u);
    }
  }

  /** A task that has nothing to do. */
  predicate Idle(th: Thread) {
    && th.call == NoCall
    && match th.pc
       case AttemptAt(_) => true
       case ActivateAt(_, stage) => stage == Accepted || stage == Rejected
       case LoopAt(_, loop) => loop == Exited || loop == Parked
       case CallerAt => true
       case DownAt(down, rest) => down == Over && rest == []
       case AcceptAt(_) => true
  }

  /** Every other task is idle, and the activation of `c` has its insert before it. */
  ghost predicate Calm(s: State, c: Conn) {
    Silent(s) && Traced(s) && OnItsWay(s, c) && forall t :: t in s.threads && t != Activation(c.id) ==> Idle(s.threads[t])
  }

  lemma OthersComeToRest(s: State, c: Conn) returns (run: seq<Action>)
    requires Inv(s) && Silent(s) && Traced(s) && OnItsWay(s, c)
    ensures Legal(s, run) && Inv(After(s, run)) && Calm(After(s, run), c)
  {
    hide Inv, Silent, Traced;
    run := ComeToRestBut(s, {Activation(c.id)});
    StepsKeepSilent(s, run, Activation(c.id));
    var s' := After(s, run);
    forall t | t in s'.threads && t != Activation(c.id)
      ensures Idle(s'.threads[t])
    {
      StuckMeansSettled(s', t);
    }
  }

  /** An idle task spares a session that is registered, or that has no receive loop. */
  lemma IdleSpares(s: State, t: Tid, y: Conn)
    requires Core(s) && t in s.threads && Idle(s.threads[t])
    requires y.id in s.tables.byId || !StageIs(s, y.id, Accepted)
    ensures Spares(s.threads[t], y)
  {
    TaskFacts(s, t);
    hide Core;
  }

  /** After a step of the one activation that spares it, a registered and open session stays. */
  lemma CalmIsKept(s: State, c: Conn, th: Thread, s': State, y: Conn)
    requires Core(s) && Calm(s, c) && s'.threads == s.threads[Activation(c.id) := th] && Spares(th, y)
    requires s'.shuttingDown && !s'.signal && y.id !in s'.closed && y.id in s'.tables.byId && s'.tables.byId[y.id] == y
    requires y.id in s.tables.byId || !StageIs(s, y.id, Accepted)
    ensures Kept(s', y)
  {
    assert forall t :: t in s.threads && t != Activation(c.id) ==> Idle(s.threads[t]);
    hide Core, Calm, Idle, StageIs;
    forall t | t in s'.threads
      ensures Spares(s'.threads[t], y)
    {
      if t != Activation(c.id) {
        IdleSpares(s, t, y);
      }
    }
    hide Spares;
  }

  lemma RegisteredIsOpen(s: State, id: SessionId)
    requires Traced(s) && id in s.tables.byId
    ensures id !in s.closed
  {
  }

  lemma CalmFacts(s: State, c: Conn)
    requires Calm(s, c)
    ensures Silent(s) && Traced(s) && OnItsWay(s, c) && s.shuttingDown && !s.signal
  {
    hide Traced, Idle;
  }

  /** The registered session a newcomer is discarded for stays. */
  lemma IncumbentIsKept(s: State, c: Conn, s': State)
    requires Inv(s) && Calm(s, c) && GetByPeer(s.tables, c.peer).Some?
    requires s'.threads == s.threads[Activation(c.id) := Thread(ActivateAt(c, Discarding), NoCall)]
    requires s'.tables == s.tables && s'.closed == s.closed && s'.shuttingDown && !s'.signal
    ensures Kept(s', GetByPeer(s.tables, c.peer).value)
  {
    hide Core, Calm, Kept, Traced, Silent;
    var e := GetByPeer(s.tables, c.peer).value;
    LookupByPeerFacts(s, c.peer);
    CalmFacts(s, c);
    RegisteredIsOpen(s, e.id);
    hide GetByPeer;
    CalmIsKept(s, c, Thread(ActivateAt(c, Discarding), NoCall), s', e);
  }

  lemma OnItsWayIsOpen(s: State, c: Conn)
    requires Traced(s) && OnItsWay(s, c)
    ensures c.id !in s.closed && !StageIs(s, c.id, Accepted)
  {
    assert !AdmittedId(s, c.id) && !StageIs(s, c.id, Rejected);
  }

  /** And so does a newcomer that goes in. */
  lemma NewcomerIsKept(s: State, c: Conn, s': State)
    requires Inv(s) && Calm(s, c)
    requires s'.threads == s.threads[Activation(c.id) := Thread(ActivateAt(c, Recording), NoCall)]
    requires c.id in s'.tables.byId && s'.tables.byId[c.id] == c && s'.closed == s.closed && s'.shuttingDown && !s'.signal
    ensures Kept(s', c)
  {
    hide Core, Calm, Kept, Traced, Silent;
    CalmFacts(s, c);
    OnItsWayIsOpen(s, c);
    CalmIsKept(s, c, Thread(ActivateAt(c, Recording), NoCall), s', c);
  }

  const ANY := Choice([], false)

  /** Steps the activation has before its insert. */
  ghost function BeforeInsert(s: State, c: Conn): nat
    requires OnItsWay(s, c)
  {
    var th := s.threads[Activation(c.id)];
    CallLeft(th.call) + if th.pc.stage == Arbitrating then 7 else 0
  }

  /** What the last step before the insert decides: the state has a session that nothing will end, or goes on calmly. */
  ghost predicate Decides(s: State, c: Conn, s': State)
    requires OnItsWay(s, c)
  {
    || (Calm(s', c) && BeforeInsert(s', c) < BeforeInsert(s, c))
    || exists y :: Kept(s', y)
  }

  lemma CalmMoveGoesOn(s: State, c: Conn, th: Thread, s': State)
    requires Calm(s, c) && Silent(s') && Traced(s') && s'.threads == s.threads[Activation(c.id) := th]
    requires th.pc == ActivateAt(c, Inserting) && CallLeft(th.call) < BeforeInsert(s, c)
    ensures Decides(s, c, s')
  {
    hide Silent, Traced, CallLeft, Idle;
    assert Calm(s', c);
  }

  lemma CallGetsOn(s: State, t: Tid)
    requires t in s.threads && s.threads[t].call != NoCall
    ensures t in StepCall(s, t).threads && CallLeft(StepCall(s, t).threads[t].call) < CallLeft(s.threads[t].call)
  {
    hide Remove;
  }

  lemma CalmCallGoesOn(s: State, c: Conn)
    requires Inv(s) && Calm(s, c) && s.threads[Activation(c.id)].call != NoCall
    ensures Decides(s, c, StepCall(s, Activation(c.id)))
  {
    hide Core, Calm, Silent, Traced, Decides;
    CalmFacts(s, c);
    var u, s' := Activation(c.id), StepCall(s, Activation(c.id));
    TaskFacts(s, u);
    CallStaysInPlace(s, u);
    CallKeepsSilent(s, u);
    CallKeepsTraced(s, u);
    CallGetsOn(s, u);
    hide StepCall, CallLeft;
    CalmMoveGoesOn(s, c, s'.threads[u], s');
  }

  lemma KeptDecides(s: State, c: Conn, s': State, y: Conn)
    requires OnItsWay(s, c) && Kept(s', y)
    ensures Decides(s, c, s')
  {
  }

  lemma CalmArbitrationGoesOn(s: State, c: Conn)
    requires Inv(s) && Calm(s, c) && Activating(s, c, Arbitrating)
    ensures Decides(s, c, StepActivation(s, Activation(c.id), c, Arbitrating))
  {
    hide Inv, Calm, Silent, Traced, Kept, Decides;
    CalmFacts(s, c);
    ActivationKeepsSilent(s, c, Arbitrating);
    QuietStageKeepsTraced(s, c, Arbitrating);
    var u, s' := Activation(c.id), StepActivation(s, Activation(c.id), c, Arbitrating);
    hide GetByPeer;
    if s'.threads[u].pc.stage == Discarding {
      IncumbentIsKept(s, c, s');
      KeptDecides(s, c, s', GetByPeer(s.tables, c.peer).value);
    } else {
      CalmMoveGoesOn(s, c, s'.threads[u], s');
    }
  }

  lemma CalmInsertDecides(s: State, c: Conn)
    requires Inv(s) && Calm(s, c) && Activating(s, c, Inserting)
    ensures Decides(s, c, StepActivation(s, Activation(c.id), c, Inserting))
  {
    assert s.shuttingDown && !s.signal;
    hide Calm, Kept, Inv;
    var s' := StepActivation(s, Activation(c.id), c, Inserting);
    if GetByPeer(s.tables, c.peer).Some? {
      IncumbentIsKept(s, c, s');
      assert Kept(s', GetByPeer(s.tables, c.peer).value);
    } else {
      NewcomerIsKept(s, c, s');
      assert Kept(s', c);
    }
  }

  lemma CalmStepDecides(s: State, c: Conn)
    requires Inv(s) && Calm(s, c)
    ensures CanStep(s, Activation(c.id), ANY) && Decides(s, c, StepOf(s, Activation(c.id), ANY))
  {
    hide Core, Calm, Decides, StepCall, StepActivation;
    CalmFacts(s, c);
    TaskFacts(s, Activation(c.id));
    var th := s.threads[Activation(c.id)];
    if th.call != NoCall {
      CalmCallGoesOn(s, c);
    } else if th.pc.stage == Arbitrating {
      CalmArbitrationGoesOn(s, c);
    } else {
      CalmInsertDecides(s, c);
    }
  }

  /** Left alone, the activation comes to a state with a session that nothing will end: its own, or the one it is discarded for. */
  lemma {:induction false} ActivationDecides(s: State, c: Conn) returns (run: seq<Action>, y: Conn)
    requires Inv(s) && Calm(s, c)
    ensures Legal(s, run) && Inv(After(s, run)) && Kept(After(s, run), y)
    decreases BeforeInsert(s, c)
  {
    CalmStepDecides(s, c);
    var a := Step(Activation(c.id), ANY);
    ActionKeepsInv(s, a);
    var s' := StepOf(s, Activation(c.id), ANY);
    assert Enabled(s, a) && Perform(s, a) == s';
    assert !(exists z :: Kept(s', z)) ==> Calm(s', c) && BeforeInsert(s', c) < BeforeInsert(s, c);
    hide Inv, Calm, Kept, BeforeInsert, CanStep, StepOf, Enabled, Perform, Legal, After, Decides;
    if z :| Kept(s', z) {
      OneAction(s, a);
      return [a], z;
    }
    var rest;
    rest, y := ActivationDecides(s', c);
    OneActionMore(s, a, rest);
    run := [a] + rest;
  }

  lemma KeptIsRegistered(s: State, y: Conn)
    requires Kept(s, y)
    ensures s.tables.byId != map[]
  {
  }

  /** A session on its way in when the signal has been lost ends in a state at rest with some session registered. */
  lemma OnItsWayStrands(s: State, c: Conn) returns (run: seq<Action>)
    requires Inv(s) && Silent(s) && Traced(s) && OnItsWay(s, c)
    ensures Legal(s, run) && NoStep(After(s, run)) && After(s, run).tables.byId != map[]
  {
    hide Inv, Silent, Traced, OnItsWay, Calm, Kept, NoStep;
    var calm := OthersComeToRest(s, c);
    var s1 := After(s, calm);
    var decide, y := ActivationDecides(s1, c);
    var s2 := After(s1, decide);
    var rest := ComeToRest(s2);
    StepsKeep(s2, rest, y);
    KeptIsRegistered(After(s2, rest), y);
    RunsJoin(s1, decide, rest);
    RunsJoin(s, calm, decide + rest);
    run := calm + (decide + rest);
  }

  // ------------------------------------------------------------------
  // A lost signal
  // ------------------------------------------------------------------

  ghost predicate AtSend(s: State, n: nat) {
    Shutdown(n) in s.threads && s.threads[Shutdown(n)].pc.DownAt? && s.threads[Shutdown(n)].pc.down == SendSignal
    && s.threads[Shutdown(n)].call == NoCall
  }

  /** Right after an unheard send: call `n` of `shutdown` is about to drain, no other one is past the flag. */
  ghost predicate AtSilentDrain(s: State, n: nat) {
    && s.shuttingDown && !s.signal
    && Shutdown(n) in s.threads && s.threads[Shutdown(n)].pc.DownAt? && s.threads[Shutdown(n)].pc.down == Draining
    && s.threads[Shutdown(n)].call == NoCall
    && forall t :: t in s.threads && PastFlag(s.threads[t]) ==> t == Shutdown(n)
  }

  lemma SameIncoming(s: State, t: Tid, th: Thread, s': State)
    requires s'.threads == s.threads[t := th] && s'.max == s.max && t in s.threads
    requires !MayInsert(s.max, th) && !MayInsert(s.max, s.threads[t])
    ensures Incoming(s') <==> Incoming(s)
  {
    hide MayInsert;
    if Incoming(s) {
      var u :| u in s.threads && MayInsert(s.max, s.threads[u]);
      assert u in s'.threads && s'.threads[u] == s.threads[u];
    }
  }

  lemma LostSend(s: State, n: nat, ch: Choice)
    requires OneShutdown(s) && AtSend(s, n) && !Receivers(s)
    ensures var s1 := StepOf(s, Shutdown(n), ch);
            AtSilentDrain(s1, n) && (Incoming(s1) <==> Incoming(s)) && s1.max == s.max
  {
    hide Receivers;
    assert PastFlag(s.threads[Shutdown(n)]);
    var s1 := StepOf(s, Shutdown(n), ch);
    assert s1.threads == s.threads[Shutdown(n) := Thread(DownAt(Draining, []), NoCall)];
    SameIncoming(s, Shutdown(n), Thread(DownAt(Draining, []), NoCall), s1);
  }

  lemma PastTheFlag(th: Thread)
    requires th.pc.DownAt? && (th.pc.down == SendSignal || th.pc.down == Draining)
    ensures PastFlag(th)
  {
  }

  /** The drain that follows empties the registry and leaves what is on its way in where it is. */
  lemma SilentDrain(s: State, n: nat, order: seq<Conn>)
    requires AtSilentDrain(s, n) && Lists(order, s.tables.byId)
    ensures var a := Step(Shutdown(n), Choice(order, true));
            && Enabled(s, a)
            && Silent(Perform(s, a)) && Perform(s, a).tables == EMPTY
            && (Incoming(Perform(s, a)) <==> Incoming(s))
  {
    hide Lists, Incoming, PastFlag;
    var s' := Perform(s, Step(Shutdown(n), Choice(order, true)));
    var th := Thread(NextDrained(order), NoCall);
    assert s'.threads == s.threads[Shutdown(n) := th];
    SameIncoming(s, Shutdown(n), th, s');
    forall t | t in s'.threads && s'.threads[t].pc.DownAt?
      ensures s'.threads[t].pc.down != SendSignal && s'.threads[t].pc.down != Draining
    {
      if t != Shutdown(n) && (s.threads[t].pc.down == SendSignal || s.threads[t].pc.down == Draining) {
        PastTheFlag(s.threads[t]);
        assert false;
      }
    }
  }

  lemma {:induction false} FreshNat(used: set<nat>) returns (n: nat)
    ensures forall m :: m in used ==> m < n
    ensures n !in used
  {
    if used == {} {
      n := 0;
    } else {
      var m :| m in used;
      var bound := FreshNat(used - {m});
      n := if bound <= m then m + 1 else bound;
      assert forall k :: k in used ==> k == m || k in used - {m};
    }
  }

  function ArbitraryConn(id: SessionId): Conn {
    Conn(id, 0, Addresses.SocketAddr(Addresses.V4(127, 0, 0, 1), 0), Inbound)
  }

  lemma ArrivalIsOnItsWay(s: State, m: nat, c: Conn)
    requires Silent(s) && Activation(c.id) !in s.threads
    requires Attempt(m) in s.threads && s.threads[Attempt(m)].pc == AttemptAt(Handshaking)
    ensures var a := HandshakeDone(m, c); Enabled(s, a) && Silent(Perform(s, a)) && OnItsWay(Perform(s, a), c)
  {
  }

  /** An attempt in its handshake may yet bring a new session. */
  lemma HandshakeArrives(s: State, m: nat) returns (run: seq<Action>, c: Conn)
    requires Inv(s) && Silent(s) && Traced(s)
    requires Attempt(m) in s.threads && s.threads[Attempt(m)].pc == AttemptAt(Handshaking)
    ensures Legal(s, run) && Inv(After(s, run)) && Silent(After(s, run)) && Traced(After(s, run)) && OnItsWay(After(s, run), c)
  {
    var id := FreshNat(set t | t in s.threads && t.Activation? :: t.id);
    assert Activation(id) !in s.threads;
    c := ArbitraryConn(id);
    var a := HandshakeDone(m, c);
    ArrivalIsOnItsWay(s, m, c);
    hide Inv, Traced, Silent, OnItsWay, Enabled, Perform;
    ActionKeepsInv(s, a);
    ActionKeepsTraced(s, a);
    OneAction(s, a);
    run := [a];
  }

  /** With the registry empty an attempt at the limit check passes it, unless the limit is zero. */
  lemma CheckPasses(s: State, m: nat)
    requires Inv(s) && Silent(s) && Traced(s) && s.tables == EMPTY && s.max > 0
    requires Attempt(m) in s.threads && s.threads[Attempt(m)].pc == AttemptAt(CheckLimit)
    ensures var a := Step(Attempt(m), ANY);
            && Enabled(s, a) && Inv(Perform(s, a)) && Silent(Perform(s, a)) && Traced(Perform(s, a))
            && Attempt(m) in Perform(s, a).threads && Perform(s, a).threads[Attempt(m)].pc == AttemptAt(Handshaking)
  {
    var a := Step(Attempt(m), ANY);
    TaskFacts(s, Attempt(m));
    ActionKeepsInv(s, a);
    hide Inv, Traced;
    ActionKeepsTraced(s, a);
  }

  /** Whatever is on its way in, some run brings an activation up to its insert. */
  lemma IncomingArrives(s: State) returns (run: seq<Action>, c: Conn)
    requires Inv(s) && Silent(s) && Traced(s) && Incoming(s) && s.tables == EMPTY
    ensures Legal(s, run) && Inv(After(s, run)) && Silent(After(s, run)) && Traced(After(s, run)) && OnItsWay(After(s, run), c)
  {
    var t :| t in s.threads && MayInsert(s.max, s.threads[t]);
    TaskFacts(s, t);
    hide Inv, Silent, Traced, Incoming;
    match t
    case Activation(_) =>
      run, c := [], s.threads[t].pc.c;
    case Attempt(m) =>
      if s.threads[t].pc == AttemptAt(Handshaking) {
        run, c := HandshakeArrives(s, m);
      } else {
        var a := Step(t, ANY);
        CheckPasses(s, m);
        var rest;
        rest, c := HandshakeArrives(Perform(s, a), m);
        hide Perform, Enabled;
        run := [a] + rest;
      }
  }

  lemma SendIsEnabled(s: State, n: nat, ch: Choice)
    requires AtSend(s, n)
    ensures Shutdown(n) in s.threads && Enabled(s, Step(Shutdown(n), ch))
    ensures Perform(s, Step(Shutdown(n), ch)) == StepOf(s, Shutdown(n), ch)
  {
  }

  /** If no receiver is parked when the signal is sent, and a session is on its way in, some run comes to rest with a session registered. */
  lemma LostSignalStrandsASession(s: State, n: nat, ch: Choice) returns (run: seq<Action>)
    requires Reachable(s) && AtSend(s, n) && !Receivers(s) && Incoming(s)
    ensures var s1 := StepOf(s, Shutdown(n), ch);
            Legal(s1, run) && NoStep(After(s1, run)) && After(s1, run).tables.byId != map[]
  {
    ReachableInv(s);
    ShutdownRunsOnce(s);
    ClosedSessionsAreOver(s);
    SendIsEnabled(s, n, ch);
    hide Inv, OneShutdown, Traced, AtSend, Receivers, Incoming, NoStep, StepOf, Lists, AtSilentDrain, Silent, OnItsWay, Reachable, Enabled;
    var send := Step(Shutdown(n), ch);
    LostSend(s, n, ch);
    ActionKeepsInv(s, send);
    ActionKeepsTraced(s, send);
    var s1 := StepOf(s, Shutdown(n), ch);
    var order := OrderOf(s1);
    var drain := Step(Shutdown(n), Choice(order, true));
    SilentDrain(s1, n, order);
    ActionKeepsInv(s1, drain);
    ActionKeepsTraced(s1, drain);
    OneAction(s1, drain);
    var s2 := Perform(s1, drain);
    hide Perform;
    var arrive, c := IncomingArrives(s2);
    var strand := OnItsWayStrands(After(s2, arrive), c);
    RunsJoin(s2, arrive, strand);
    RunsJoin(s1, [drain], arrive + strand);
    run := [drain] + (arrive + strand);
  }

  /** Call `n` of `shutdown` is about to send, and nothing is on its way in. */
  lemma DrySend(s: State, n: nat, ch: Choice)
    requires Reachable(s) && AtSend(s, n) && !Incoming(s)
    ensures Inv(s) && RunsDry(s, n)
  {
    ReachableInv(s);
    ShutdownRunsOnce(s);
    hide Inv, Incoming;
    assert PastFlag(s.threads[Shutdown(n)]);
  }

  lemma ReachableGoesOn(s: State, a: Action, run: seq<Action>)
    requires Reachable(s) && Enabled(s, a) && Legal(Perform(s, a), run)
    ensures Reachable(After(Perform(s, a), run))
  {
    var local: NodeId, max: nat, listening: bool, first: seq<Action> :|
      Legal(Start(local, max, listening), first) && After(Start(local, max, listening), first) == s;
    var start := Start(local, max, listening);
    hide Start, Enabled, Perform;
    assert [a] + run == [a] + run && ([a] + run)[0] == a && ([a] + run)[1..] == run;
    RunsJoin(start, first, [a] + run);
    assert Legal(Start(local, max, listening), first + ([a] + run));
  }

  /**
   Take any reachable state in which `shutdown` is about to send its signal. No session is left
   in any state the manager can come to rest in from there if and only if the signal finds a
   receiver or no session is on its way in; and then every establish has its close.
   */
  lemma ShutdownLeavesNothingExactlyIfHeard(s: State, n: nat, ch: Choice)
    requires Reachable(s) && AtSend(s, n)
    ensures var s1 := StepOf(s, Shutdown(n), ch);
            (forall run :: Legal(s1, run) && NoStep(After(s1, run)) ==> After(s1, run).tables.byId == map[])
            <==> Receivers(s) || !Incoming(s)
    ensures var s1 := StepOf(s, Shutdown(n), ch);
            Receivers(s) || !Incoming(s) ==>
              forall run :: Legal(s1, run) && NoStep(After(s1, run)) ==>
                Stats.Establishes(After(s1, run).log) == Stats.Closes(After(s1, run).log)
  {
    SendIsEnabled(s, n, ch);
    var send, s1 := Step(Shutdown(n), ch), StepOf(s, Shutdown(n), ch);
    if Receivers(s) {
      assert s1.signal;
      hide NoStep, StepOf, Receivers, Incoming, Perform;
      forall run | Legal(s1, run) && NoStep(After(s1, run))
        ensures After(s1, run).tables.byId == map[] && Stats.Establishes(After(s1, run).log) == Stats.Closes(After(s1, run).log)
      {
        SignalStays(s1, run);
        ReachableGoesOn(s, send, run);
        HeardShutdownLeavesNothing(After(s1, run));
      }
    } else if !Incoming(s) {
      DrySend(s, n, ch);
      hide NoStep, StepOf, Receivers, Incoming, RunsDry, Inv, Perform, Reachable;
      ActionKeepsInv(s, send);
      ActionRunsDry(s, send, n);
      forall run | Legal(s1, run) && NoStep(After(s1, run))
        ensures After(s1, run).tables.byId == map[] && Stats.Establishes(After(s1, run).log) == Stats.Closes(After(s1, run).log)
      {
        RunStaysDry(s1, run, n);
        ReachableGoesOn(s, send, run);
        DryShutdownLeavesNothing(After(s1, run), n);
      }
    } else {
      hide NoStep, StepOf, Receivers, Incoming, Perform;
      var run := LostSignalStrandsASession(s, n, ch);
    }
  }

  /** From every reachable state the manager comes to rest by steps of its own, so what holds at rest is not said of nothing. */
  lemma RestIsReached(s: State) returns (run: seq<Action>)
    requires Reachable(s)
    ensures Legal(s, run) && StepsBut(run, {}) && NoStep(After(s, run))
  {
    ReachableInv(s);
    hide Inv, NoStep;
    run := ComeToRest(s);
  }

  // ------------------------------------------------------------------
  // A manager that misses its shutdown
  // ------------------------------------------------------------------

  lemma Next(s: State, a: Action)
    requires Reachable(s) && Enabled(s, a)
    ensures Reachable(Perform(s, a))
  {
    hide Reachable, Enabled, Perform;
    assert Legal(Perform(s, a), []) && After(Perform(s, a), []) == Perform(s, a);
    ReachableGoesOn(s, a, []);
  }

  lemma StartIsReachable(s: State)
    requires s == Start(0, 1, false)
    ensures Reachable(s)
  {
    assert Legal(Start(0, 1, false), []) && After(Start(0, 1, false), []) == s;
  }

  lemma HandshakeReached() returns (s: State)
    ensures Reachable(s)
    ensures s == Start(0, 1, false).(threads := map[Attempt(0) := Thread(AttemptAt(Handshaking), NoCall)])
  {
    var s0 := Start(0, 1, false);
    StartIsReachable(s0);
    hide Reachable;
    Next(s0, Dial(0));
    var s1 := Perform(s0, Dial(0));
    Next(s1, Step(Attempt(0), ANY));
    var s2 := Perform(s1, Step(Attempt(0), ANY));
    Next(s2, Step(Attempt(0), ANY));
    s := Perform(s2, Step(Attempt(0), ANY));
  }

  /**
   A fresh manager that accepts no connections, with one attempt in its handshake, shuts down:
   nobody is parked to hear the signal, and the session of that attempt outlives the shutdown.
   */
  lemma ShutdownIsMissed() returns (s: State, run: seq<Action>)
    ensures Reachable(s) && AtSend(s, 0) && !Receivers(s) && Incoming(s)
    ensures var s1 := StepOf(s, Shutdown(0), ANY);
            Legal(s1, run) && NoStep(After(s1, run)) && After(s1, run).tables.byId != map[]
  {
    var s0 := HandshakeReached();
    hide Reachable;
    Next(s0, CallShutdown(0));
    var s1 := Perform(s0, CallShutdown(0));
    Next(s1, Step(Shutdown(0), ANY));
    s := Perform(s1, Step(Shutdown(0), ANY));
    assert MayInsert(s.max, s.threads[Attempt(0)]);
    hide NoStep, StepOf, Incoming, Receivers, Legal, After;
    run := LostSignalStrandsASession(s, 0, ANY);
  }
}
