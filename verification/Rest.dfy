/**
 Every task comes to rest: from any state some run of the manager's own steps, without any
 input, leads to a state where no task can go on. The same holds with some tasks held back.
 */
module Rest {
  import opened Sessions
  import opened Registry
  import opened Totals
  import opened Lifecycle
  import opened LifecycleInvariant

  /** No task can go on without input from outside. */
  ghost predicate NoStep(s: State) {
    forall t, ch :: !CanStep(s, t, ch)
  }

  /** None of the other tasks can. */
  ghost predicate NoStepBut(s: State, held: set<Tid>) {
    forall t, ch :: t !in held ==> !CanStep(s, t, ch)
  }

  /** The run consists of steps of tasks that are not held back. */
  ghost predicate StepsBut(run: seq<Action>, held: set<Tid>) {
    forall i :: 0 <= i < |run| ==> run[i].Step? && run[i].t !in held
  }

  // ------------------------------------------------------------------
  // What a task at rest looks like
  // ------------------------------------------------------------------

  lemma {:induction false} ListingExists(byId: map<SessionId, Conn>) returns (order: seq<Conn>)
    requires forall id :: id in byId ==> byId[id].id == id
    ensures Lists(order, byId)
    decreases |byId|
  {
    if byId == map[] {
      order := [];
    } else {
      var id :| id in byId;
      var rest := byId - {id};
      assert rest.Keys == byId.Keys - {id};
      var front := ListingExists(rest);
      order := front + [byId[id]];
    }
  }

  lemma OrderOf(s: State) returns (order: seq<Conn>)
    requires Inv(s)
    ensures Lists(order, s.tables.byId)
  {
    forall id | id in s.tables.byId
      ensures s.tables.byId[id].id == id
    {
      RegisteredFacts(s, id);
    }
    hide Inv;
    order := ListingExists(s.tables.byId);
  }

  /** A task that cannot go on has no call pending and is at one of these places. */
  ghost predicate Settled(s: State, t: Tid)
    requires t in s.threads
  {
    && s.threads[t].call == NoCall
    && match s.threads[t].pc
       case AttemptAt(at) => at == Ended || at == Handshaking
       case ActivateAt(_, stage) => stage == Accepted || stage == Rejected
       case LoopAt(_, loop) => loop == Exited || (loop == Parked && !s.signal)
       case CallerAt => true
       case DownAt(down, rest) => down == Over && rest == []
       case AcceptAt(_) => true
  }

  lemma StuckMeansSettled(s: State, t: Tid)
    requires Inv(s) && t in s.threads && forall ch :: !CanStep(s, t, ch)
    ensures Settled(s, t)
  {
    TaskFacts(s, t);
    hide Core;
    var order := OrderOf(s);
    assert !CanStep(s, t, Choice(order, true));
  }

  // ------------------------------------------------------------------
  // What is left to do
  // ------------------------------------------------------------------

  /** What a call of `shutdown` has to do before it has a list of sessions to go through. */
  function ShutdownLeft(th: Thread): nat {
    if !th.pc.DownAt? then 0
    else match th.pc.down
      case SwapFlag => 3
      case SendSignal => 2
      case Draining => 1
      case MarkDrained => 0
      case RecordDrained => 0
      case AnnounceDrained => 0
      case Over => 0
  }

  function CallLeft(call: Call): nat {
    match call
    case NoCall => 0
    case Lookup(_) => 6
    case Check(_) => 5
    case Take(_) => 4
    case MarkClosed(_) => 3
    case RecordClosed(_) => 2
    case Announce(_) => 1
  }

  function PcLeft(pc: Pc): nat {
    match pc
    case AttemptAt(at) => if at == CheckFlag then 2 else if at == CheckLimit then 1 else 0
    case ActivateAt(_, stage) => (
      match stage
      case Arbitrating => 30
      case Inserting => 20
      case Recording => 19
      case Announcing => 18
      case Spawning => 17
      case Accepted => 0
      case Discarding => 2
      case Rejecting => 1
      case Rejected => 0)
    case LoopAt(_, loop) => (
      match loop
      case Top => 15
      case Parked => 14
      case Finishing => 7
      case Exited => 0)
    case CallerAt => 0
    case DownAt(down, rest) => (
      match down
      case SwapFlag => 0
      case SendSignal => 0
      case Draining => 0
      case MarkDrained => 3 * |rest|
      case RecordDrained => if rest == [] then 0 else 3 * |rest| - 1
      case AnnounceDrained => if rest == [] then 0 else 3 * |rest| - 2
      case Over => 0)
    case AcceptAt(at) => if at == Serving then 2 else if at == Listening then 1 else 0
  }

  /** A bound on the steps a task still takes by itself, once it is past a drain of its own. */
  function Left(th: Thread): nat {
    CallLeft(th.call) + PcLeft(th.pc)
  }

  lemma SpawnLeavesLess(s: State, c: Conn)
    requires Activating(s, c, Spawning) && Loop(c.id) !in s.threads
    ensures Total(StepActivation(s, Activation(c.id), c, Spawning).threads, Left) < Total(s.threads, Left)
    ensures Total(StepActivation(s, Activation(c.id), c, Spawning).threads, ShutdownLeft) == Total(s.threads, ShutdownLeft)
  {
    var t, th := Activation(c.id), Thread(ActivateAt(c, Accepted), NoCall);
    TotalUpdate(s.threads, Left, t, th);
    TotalUpdate(s.threads[t := th], Left, Loop(c.id), Thread(LoopAt(c, Top), NoCall));
    TotalUpdate(s.threads, ShutdownLeft, t, th);
    TotalUpdate(s.threads[t := th], ShutdownLeft, Loop(c.id), Thread(LoopAt(c, Top), NoCall));
  }

  /** One task changes, and it has less left to do. */
  ghost predicate LeavesLess(s: State, t: Tid, s': State)
    requires t in s.threads
  {
    && t in s'.threads && s'.threads == s.threads[t := s'.threads[t]]
    && Left(s'.threads[t]) < Left(s.threads[t])
    && (ShutdownLeft(s.threads[t]) == 0 ==> ShutdownLeft(s'.threads[t]) == 0)
  }

  lemma CallLeavesLess(s: State, t: Tid)
    requires t in s.threads && s.threads[t].call != NoCall
    ensures LeavesLess(s, t, StepCall(s, t))
  {
    hide Remove, PcLeft;
    assert StepCall(s, t).threads == s.threads[t := StepCall(s, t).threads[t]];
  }

  lemma ActivationLeavesLess(s: State, c: Conn, stage: Stage)
    requires Activating(s, c, stage) && stage != Spawning && stage != Accepted && stage != Rejected
    ensures LeavesLess(s, Activation(c.id), StepActivation(s, Activation(c.id), c, stage))
  {
    hide GetByPeer, Insert;
  }

  lemma DownLeavesLess(s: State, t: Tid, down: DownStage, rest: seq<Conn>, ch: Choice)
    requires t in s.threads && s.threads[t] == Thread(DownAt(down, rest), NoCall)
    requires down == MarkDrained || down == RecordDrained || down == AnnounceDrained
    requires rest != []
    ensures LeavesLess(s, t, StepDown(s, t, down, rest, ch))
  {
  }

  lemma OtherLeavesLess(s: State, t: Tid, ch: Choice)
    requires Core(s) && CanStep(s, t, ch) && s.threads[t].call == NoCall && Shape(s, t)
    requires t.Attempt? || t.Loop? || t.Acceptor?
    ensures LeavesLess(s, t, StepOf(s, t, ch))
  {
    hide Core;
  }

  lemma LessIsLess(s: State, t: Tid, s': State)
    requires t in s.threads && LeavesLess(s, t, s') && ShutdownLeft(s.threads[t]) == 0
    ensures Total(s'.threads, Left) < Total(s.threads, Left)
    ensures Total(s'.threads, ShutdownLeft) == Total(s.threads, ShutdownLeft)
  {
    TotalUpdate(s.threads, Left, t, s'.threads[t]);
    TotalUpdate(s.threads, ShutdownLeft, t, s'.threads[t]);
  }

  lemma TaskLeavesLess(s: State, t: Tid, ch: Choice)
    requires Core(s) && CanStep(s, t, ch) && ShutdownLeft(s.threads[t]) == 0
    requires !(t.Activation? && s.threads[t].call == NoCall && s.threads[t].pc.ActivateAt? && s.threads[t].pc.stage == Spawning)
    ensures LeavesLess(s, t, StepOf(s, t, ch))
  {
    hide Core, Lists, LeavesLess;
    TaskFacts(s, t);
    var th := s.threads[t];
    if th.call != NoCall {
      CallLeavesLess(s, t);
    } else {
      match t
      case Activation(_) => ActivationLeavesLess(s, th.pc.c, th.pc.stage);
      case Shutdown(_) => DownLeavesLess(s, t, th.pc.down, th.pc.rest, ch);
      case Attempt(_) => OtherLeavesLess(s, t, ch);
      case Loop(_) => OtherLeavesLess(s, t, ch);
      case Caller(_) =>
      case Acceptor => OtherLeavesLess(s, t, ch);
    }
  }

  lemma StepLeavesLess(s: State, t: Tid, ch: Choice)
    requires Inv(s) && CanStep(s, t, ch) && ShutdownLeft(s.threads[t]) == 0
    ensures Total(StepOf(s, t, ch).threads, Left) < Total(s.threads, Left)
    ensures Total(StepOf(s, t, ch).threads, ShutdownLeft) == Total(s.threads, ShutdownLeft)
  {
    hide Core, Lists, LeavesLess;
    TaskFacts(s, t);
    var th, s' := s.threads[t], StepOf(s, t, ch);
    if t.Activation? && th.call == NoCall && th.pc.stage == Spawning {
      NoLoopBeforeSpawn(s, th.pc.c);
      SpawnLeavesLess(s, th.pc.c);
    } else {
      TaskLeavesLess(s, t, ch);
      LessIsLess(s, t, s');
    }
  }

  /** The flag, the signal and the drain of a call of `shutdown` come one after the other. */
  lemma ShutdownGoesOn(s: State, t: Tid, down: DownStage, rest: seq<Conn>, ch: Choice)
    requires t in s.threads && s.threads[t] == Thread(DownAt(down, rest), NoCall) && ShutdownLeft(s.threads[t]) > 0
    ensures Total(StepDown(s, t, down, rest, ch).threads, ShutdownLeft) < Total(s.threads, ShutdownLeft)
  {
    hide Receivers;
    var s' := StepDown(s, t, down, rest, ch);
    assert s'.threads == s.threads[t := s'.threads[t]] && ShutdownLeft(s'.threads[t]) < ShutdownLeft(s.threads[t]);
    hide StepDown, ShutdownLeft;
    TotalUpdate(s.threads, ShutdownLeft, t, s'.threads[t]);
  }

  lemma ShutdownStepLeavesLess(s: State, t: Tid, ch: Choice)
    requires Inv(s) && CanStep(s, t, ch) && ShutdownLeft(s.threads[t]) > 0
    ensures Total(StepOf(s, t, ch).threads, ShutdownLeft) < Total(s.threads, ShutdownLeft)
  {
    TaskFacts(s, t);
    hide Inv, Lists, StepDown;
    ShutdownGoesOn(s, t, s.threads[t].pc.down, s.threads[t].pc.rest, ch);
  }

  lemma OneActionMore(s: State, a: Action, rest: seq<Action>)
    requires Enabled(s, a) && Legal(Perform(s, a), rest)
    ensures Legal(s, [a] + rest) && After(s, [a] + rest) == After(Perform(s, a), rest)
  {
    var run := [a] + rest;
    assert run[0] == a && run[1..] == rest;
    hide Enabled, Perform;
  }

  lemma OneStepMore(s: State, t: Tid, ch: Choice, rest: seq<Action>, held: set<Tid>)
    requires CanStep(s, t, ch) && t !in held && Legal(StepOf(s, t, ch), rest) && StepsBut(rest, held)
    ensures var run := [Step(t, ch)] + rest;
            Legal(s, run) && StepsBut(run, held) && After(s, run) == After(StepOf(s, t, ch), rest)
  {
    OneActionMore(s, Step(t, ch), rest);
    hide CanStep, StepOf, Legal, After;
  }

  /** Some run of the tasks that are not held back brings all of them to rest. */
  lemma {:induction false} ComeToRestBut(s: State, held: set<Tid>) returns (run: seq<Action>)
    requires Inv(s)
    ensures Legal(s, run) && StepsBut(run, held)
    ensures Inv(After(s, run)) && NoStepBut(After(s, run), held)
    decreases Total(s.threads, ShutdownLeft), Total(s.threads, Left)
  {
    if NoStepBut(s, held) {
      run := [];
    } else {
      var t, ch :| t !in held && CanStep(s, t, ch);
      assert Enabled(s, Step(t, ch)) && Perform(s, Step(t, ch)) == StepOf(s, t, ch);
      hide Inv, NoStepBut, CanStep, StepOf, ShutdownLeft, Left, Total, Legal, After, StepsBut, Enabled, Perform;
      if ShutdownLeft(s.threads[t]) > 0 {
        ShutdownStepLeavesLess(s, t, ch);
      } else {
        StepLeavesLess(s, t, ch);
      }
      ActionKeepsInv(s, Step(t, ch));
      var rest := ComeToRestBut(StepOf(s, t, ch), held);
      OneStepMore(s, t, ch, rest, held);
      run := [Step(t, ch)] + rest;
    }
  }

  /** From every state the manager can come to rest by itself. */
  lemma ComeToRest(s: State) returns (run: seq<Action>)
    requires Inv(s)
    ensures Legal(s, run) && StepsBut(run, {})
    ensures Inv(After(s, run)) && NoStep(After(s, run))
  {
    hide Inv;
    run := ComeToRestBut(s, {});
  }

  // ------------------------------------------------------------------
  // Runs in parts
  // ------------------------------------------------------------------

  /** A run of two parts. */
  lemma {:induction false} RunsJoin(s: State, run: seq<Action>, next: seq<Action>)
    requires Legal(s, run) && Legal(After(s, run), next)
    ensures Legal(s, run + next) && After(s, run + next) == After(After(s, run), next)
    decreases |run|
  {
    hide Enabled, Perform;
    if run == [] {
      assert run + next == next;
    } else {
      RunsJoin(Perform(s, run[0]), run[1..], next);
      assert (run + next)[0] == run[0] && (run + next)[1..] == run[1..] + next;
    }
  }

  lemma OneAction(s: State, a: Action)
    requires Enabled(s, a)
    ensures Legal(s, [a]) && After(s, [a]) == Perform(s, a)
  {
    hide Enabled, Perform;
    assert Legal(Perform(s, a), [a][1..]);
  }
}
