/**
 What every step of the session layer keeps.

 The two laws are conservation laws. Per session: an admitted session is registered, or
 carried by exactly one task that winds it up, or announced as disconnected, and exactly one
 of these. In total: establishes counted or still to be counted equal closes counted or
 still to be counted plus the sessions registered.
 */
module LifecycleInvariant {
  import opened Sessions
  import opened Registry
  import Stats
  import opened Totals
  import opened Lifecycle

  predicate Taken(stage: Stage) {
    stage == Recording || stage == Announcing || stage == Spawning || stage == Accepted
  }

  /** The session's `activate` has put it into the registry. */
  predicate Admitted(s: State, c: Conn) {
    Activation(c.id) in s.threads
    && var pc := s.threads[Activation(c.id)].pc;
    pc.ActivateAt? && pc.c == c && Taken(pc.stage)
  }

  predicate AdmittedId(s: State, id: SessionId) {
    Activation(id) in s.threads
    && var pc := s.threads[Activation(id)].pc;
    pc.ActivateAt? && Taken(pc.stage)
  }

  predicate StageIs(s: State, id: SessionId, stage: Stage) {
    Activation(id) in s.threads && s.threads[Activation(id)].pc.ActivateAt? && s.threads[Activation(id)].pc.stage == stage
  }

  // ------------------------------------------------------------------
  // Weights
  // ------------------------------------------------------------------

  function Occurs(rest: seq<Conn>, id: SessionId): nat {
    if rest == [] then 0 else (if rest[0].id == id then 1 else 0) + Occurs(rest[1..], id)
  }

  /** Sessions a position inside `disconnect` has removed and not announced yet. */
  function CallCarries(call: Call, id: SessionId): nat {
    if (call.MarkClosed? || call.RecordClosed? || call.Announce?) && call.gone.id == id then 1 else 0
  }

  function PcCarries(pc: Pc, id: SessionId): nat {
    if pc.DownAt? then Occurs(pc.rest, id) else 0
  }

  /** How often a task carries a removed session that it has not announced yet. */
  function Carrying(th: Thread, id: SessionId): nat {
    CallCarries(th.call, id) + PcCarries(th.pc, id)
  }

  ghost function Carries(id: SessionId): Thread -> nat {
    th => Carrying(th, id)
  }

  function CallUncounted(call: Call): nat {
    if call.MarkClosed? || call.RecordClosed? then 1 else 0
  }

  function PcUncounted(pc: Pc): nat {
    if pc.DownAt? && pc.rest != [] then |pc.rest| - if pc.down == AnnounceDrained then 1 else 0 else 0
  }

  /** Removals of a task that `record_closed` has not counted yet. */
  function Uncounted(th: Thread): nat {
    CallUncounted(th.call) + PcUncounted(th.pc)
  }

  /** An insert that `record_established` has not counted yet. */
  function Unestablished(th: Thread): nat {
    if th.pc.ActivateAt? && th.pc.stage == Recording then 1 else 0
  }

  // ------------------------------------------------------------------
  // Invariant
  // ------------------------------------------------------------------

  predicate BeforeRemoval(call: Call, id: SessionId) {
    call == Lookup(id) || ((call.Check? || call.Take?) && call.held.id == id)
  }

  ghost predicate Shape(s: State, t: Tid)
    requires t in s.threads
  {
    var th := s.threads[t];
    match t
    case Attempt(_) => th.pc.AttemptAt? && th.call == NoCall
    case Activation(id) => th.pc.ActivateAt? && th.pc.c.id == id && (th.call != NoCall ==> th.pc.stage == Inserting)
    case Loop(id) =>
      && th.pc.LoopAt? && th.pc.c.id == id
      && (th.call != NoCall ==> th.pc.loop == Finishing || th.pc.loop == Exited)
      && StageIs(s, id, Accepted)
      && (th.pc.loop == Exited && id in s.tables.byId ==> BeforeRemoval(th.call, id))
    case Caller(_) => th.pc.CallerAt?
    case Shutdown(_) =>
      && th.pc.DownAt? && th.call == NoCall
      && (th.pc.rest != [] <==> th.pc.down == MarkDrained || th.pc.down == RecordDrained || th.pc.down == AnnounceDrained)
    case Acceptor => th.pc.AcceptAt? && th.call == NoCall
  }

  /** Whatever session a task holds was admitted. */
  ghost predicate Holds(s: State, th: Thread) {
    && (th.call.Check? || th.call.Take? ==> Admitted(s, th.call.held))
    && (th.call.MarkClosed? || th.call.RecordClosed? || th.call.Announce? ==> Admitted(s, th.call.gone))
    && (th.pc.DownAt? ==> forall i :: 0 <= i < |th.pc.rest| ==> Admitted(s, th.pc.rest[i]))
  }

  ghost predicate Threads(s: State) {
    forall t :: t in s.threads ==> Shape(s, t) && Holds(s, s.threads[t])
  }

  ghost predicate Registered(s: State) {
    WellFormed(s.tables) && forall id :: id in s.tables.byId ==> Admitted(s, s.tables.byId[id])
  }

  ghost predicate LoopsSpawned(s: State) {
    forall id :: StageIs(s, id, Accepted) ==> Loop(id) in s.threads
  }

  /** Registered, carried by one task, or announced: exactly one of the three, for every admitted session. */
  ghost predicate SessionLaw(s: State, id: SessionId) {
    (if id in s.tables.byId then 1 else 0) + Total(s.threads, Carries(id)) + s.disconnected[id]
    == if AdmittedId(s, id) then 1 else 0
  }

  ghost predicate ConnectedLaw(s: State, id: SessionId) {
    s.connected[id] == if StageIs(s, id, Spawning) || StageIs(s, id, Accepted) then 1 else 0
  }

  /** The documented counter invariant, with the calls still to come written out. */
  ghost predicate Conservation(s: State) {
    Stats.Establishes(s.log) + Total(s.threads, Unestablished)
    == Stats.Closes(s.log) + Total(s.threads, Uncounted) + |s.tables.byId|
  }

  ghost predicate Laws(s: State) {
    && (forall id :: SessionLaw(s, id))
    && (forall id :: ConnectedLaw(s, id))
    && Conservation(s)
  }

  ghost predicate Core(s: State) {
    Threads(s) && Registered(s) && Laws(s)
  }

  ghost predicate Inv(s: State) {
    Core(s) && LoopsSpawned(s)
  }

  // ------------------------------------------------------------------
  // Updates of one task
  // ------------------------------------------------------------------

  ghost function Was(s: State, t: Tid, w: Thread -> nat): nat {
    if t in s.threads then w(s.threads[t]) else 0
  }

  /** The three sums after one task changed. */
  ghost predicate SumsMove(s: State, t: Tid, th: Thread, s': State) {
    && (forall id :: Total(s'.threads, Carries(id)) == Total(s.threads, Carries(id)) + Carrying(th, id) - Was(s, t, Carries(id)))
    && Total(s'.threads, Uncounted) == Total(s.threads, Uncounted) + Uncounted(th) - Was(s, t, Uncounted)
    && Total(s'.threads, Unestablished) == Total(s.threads, Unestablished) + Unestablished(th) - Was(s, t, Unestablished)
  }

  lemma PutMovesSums(s: State, t: Tid, th: Thread, s': State)
    requires s'.threads == s.threads[t := th]
    ensures SumsMove(s, t, th, s')
  {
    forall id
      ensures Total(s'.threads, Carries(id)) == Total(s.threads, Carries(id)) + Carrying(th, id) - Was(s, t, Carries(id))
    {
      TotalUpdate(s.threads, Carries(id), t, th);
    }
    TotalUpdate(s.threads, Uncounted, t, th);
    TotalUpdate(s.threads, Unestablished, t, th);
  }

  /** One for a session the condition holds of. */
  function One(b: bool): int {
    if b then 1 else 0
  }

  /** What the step does to a session's place it does to its account. */
  ghost predicate SessionMoves(s: State, t: Tid, th: Thread, s': State, id: SessionId) {
    One(id in s'.tables.byId) + Carrying(th, id) + s'.disconnected[id] - One(AdmittedId(s', id))
    == One(id in s.tables.byId) + Was(s, t, Carries(id)) + s.disconnected[id] - One(AdmittedId(s, id))
  }

  ghost predicate ConnectedMoves(s: State, s': State, id: SessionId) {
    s'.connected[id] - One(StageIs(s', id, Spawning)) - One(StageIs(s', id, Accepted))
    == s.connected[id] - One(StageIs(s, id, Spawning)) - One(StageIs(s, id, Accepted))
  }

  /** What the step changes on one side of each law it changes as much on the other. */
  ghost predicate Balanced(s: State, t: Tid, th: Thread, s': State) {
    && (forall id :: SessionMoves(s, t, th, s', id))
    && (forall id :: ConnectedMoves(s, s', id))
    && Stats.Establishes(s'.log) + Unestablished(th) - Stats.Closes(s'.log) - Uncounted(th) - |s'.tables.byId|
       == Stats.Establishes(s.log) + Was(s, t, Unestablished) - Stats.Closes(s.log) - Was(s, t, Uncounted) - |s.tables.byId|
  }

  lemma BalancedKeepsLaws(s: State, t: Tid, th: Thread, s': State)
    requires Laws(s) && s'.threads == s.threads[t := th] && Balanced(s, t, th, s')
    ensures Laws(s')
  {
    PutMovesSums(s, t, th, s');
    forall id
      ensures SessionLaw(s', id) && ConnectedLaw(s', id)
    {
      assert SessionLaw(s, id) && ConnectedLaw(s, id);
      assert SessionMoves(s, t, th, s', id) && ConnectedMoves(s, s', id);
    }
  }

  /** What was admitted stays admitted, what was accepted stays accepted, and nothing with a loop is registered anew. */
  ghost predicate Grows(s: State, s': State) {
    && (forall c :: Admitted(s, c) ==> Admitted(s', c))
    && (forall id :: StageIs(s, id, Accepted) ==> StageIs(s', id, Accepted))
    && (forall id :: id in s'.tables.byId && id !in s.tables.byId ==> Loop(id) !in s.threads)
  }

  /** The obligations of a step that changes one task. */
  ghost predicate GoodMove(s: State, t: Tid, th: Thread, s': State) {
    && s'.threads == s.threads[t := th]
    && Grows(s, s')
    && Shape(s', t) && Holds(s', th)
    && Registered(s')
  }

  lemma MoveKeepsThreads(s: State, t: Tid, th: Thread, s': State)
    requires Threads(s) && GoodMove(s, t, th, s')
    ensures Threads(s')
  {
    forall u | u in s'.threads
      ensures Shape(s', u) && Holds(s', s'.threads[u])
    {
      if u != t {
        assert Shape(s, u) && Holds(s, s.threads[u]);
      }
    }
  }

  lemma MoveKeepsCore(s: State, t: Tid, th: Thread, s': State)
    requires Core(s) && GoodMove(s, t, th, s') && Balanced(s, t, th, s')
    ensures Core(s')
  {
    MoveKeepsThreads(s, t, th, s');
    BalancedKeepsLaws(s, t, th, s');
  }

  /** A task that is no activation admits nothing and accepts nothing. */
  lemma OtherTasksGrow(s: State, t: Tid, th: Thread, s': State)
    requires s'.threads == s.threads[t := th]
    requires !t.Activation? || (t in s.threads && th.pc == s.threads[t].pc)
    requires forall id :: id in s'.tables.byId ==> id in s.tables.byId
    ensures Grows(s, s')
    ensures forall id, stage :: StageIs(s', id, stage) == StageIs(s, id, stage)
    ensures forall id :: AdmittedId(s', id) == AdmittedId(s, id)
  {
  }

  lemma ActivationGrows(s: State, id: SessionId, th: Thread, s': State)
    requires Activation(id) in s.threads && s'.threads == s.threads[Activation(id) := th]
    requires s.threads[Activation(id)].pc.ActivateAt? && th.pc.ActivateAt? && s.threads[Activation(id)].pc.c == th.pc.c
    requires Taken(s.threads[Activation(id)].pc.stage) ==> Taken(th.pc.stage)
    requires s.threads[Activation(id)].pc.stage == Accepted ==> th.pc.stage == Accepted
    requires forall x :: x in s'.tables.byId && x !in s.tables.byId ==> Loop(x) !in s.threads
    ensures Grows(s, s')
    ensures forall x, stage :: x != id ==> StageIs(s', x, stage) == StageIs(s, x, stage)
    ensures forall x :: x != id ==> AdmittedId(s', x) == AdmittedId(s, x)
  {
  }

  // ------------------------------------------------------------------
  // Steps inside `disconnect`
  // ------------------------------------------------------------------

  /** A step that leaves the books as they are, carries what was carried, and admits nothing. */
  lemma QuietMove(s: State, t: Tid, th: Thread, s': State)
    requires Core(s) && s'.threads == s.threads[t := th]
    requires !t.Activation? || (t in s.threads && th.pc == s.threads[t].pc)
    requires s'.tables == s.tables && s'.log == s.log && s'.connected == s.connected && s'.disconnected == s.disconnected
    requires forall id :: Carrying(th, id) == Was(s, t, Carries(id))
    requires Uncounted(th) == Was(s, t, Uncounted) && Unestablished(th) == Was(s, t, Unestablished)
    requires Shape(s', t) && Holds(s, th)
    ensures Core(s')
  {
    OtherTasksGrow(s, t, th, s');
    assert Holds(s', th);
    assert Registered(s');
    MoveKeepsCore(s, t, th, s');
  }

  lemma TaskFacts(s: State, t: Tid)
    requires Core(s) && t in s.threads
    ensures Shape(s, t) && Holds(s, s.threads[t])
  {
  }

  lemma RegisteredFacts(s: State, id: SessionId)
    requires Core(s) && id in s.tables.byId
    ensures s.tables.byId[id].id == id && Admitted(s, s.tables.byId[id])
  {
  }

  lemma TablesWellFormed(s: State)
    requires Core(s)
    ensures WellFormed(s.tables)
  {
  }

  /** A session is held by the identifier it was admitted under, so what is registered under it is that very session. */
  lemma HeldIsRegistered(s: State, held: Conn)
    requires Core(s) && Admitted(s, held) && held.id in s.tables.byId
    ensures s.tables.byId[held.id] == held
  {
    assert Admitted(s, s.tables.byId[held.id]);
  }

  lemma RemoveShrinks(t: Tables, id: SessionId)
    requires id in t.byId
    ensures Remove(t, id).byId.Keys == t.byId.Keys - {id} && |Remove(t, id).byId| == |t.byId| - 1
    ensures forall x :: x in Remove(t, id).byId ==> x in t.byId && Remove(t, id).byId[x] == t.byId[x]
  {
    assert (t.byId - {id}).Keys == t.byId.Keys - {id};
  }

  /** Inside `disconnect` the books move between the registry, the task's position, and the events and counters. */
  ghost predicate CallBalanced(s: State, call: Call, call': Call, s': State) {
    && (forall id :: One(id in s'.tables.byId) + CallCarries(call', id) + s'.disconnected[id]
                  == One(id in s.tables.byId) + CallCarries(call, id) + s.disconnected[id])
    && s'.connected == s.connected
    && Stats.Establishes(s'.log) == Stats.Establishes(s.log)
    && Stats.Closes(s'.log) + CallUncounted(call') + |s'.tables.byId| == Stats.Closes(s.log) + CallUncounted(call) + |s.tables.byId|
  }

  lemma CallWeights(s: State, t: Tid, call': Call)
    requires t in s.threads
    ensures var th, th' := s.threads[t], s.threads[t].(call := call');
            && (forall id :: Was(s, t, Carries(id)) - Carrying(th', id) == CallCarries(th.call, id) - CallCarries(call', id))
            && Was(s, t, Uncounted) - Uncounted(th') == CallUncounted(th.call) - CallUncounted(call')
            && Was(s, t, Unestablished) == Unestablished(th')
  {
  }

  lemma CallBalances(s: State, t: Tid, call': Call, s': State)
    requires t in s.threads && s'.threads == s.threads[t := s.threads[t].(call := call')]
    requires forall id :: id in s'.tables.byId ==> id in s.tables.byId
    requires CallBalanced(s, s.threads[t].call, call', s')
    ensures Balanced(s, t, s.threads[t].(call := call'), s')
  {
    var th' := s.threads[t].(call := call');
    OtherTasksGrow(s, t, th', s');
    CallWeights(s, t, call');
    hide StageIs, AdmittedId, Grows, Carrying, Uncounted, Unestablished, Was, Stats.Establishes, Stats.Closes, Carries;
    hide CallCarries, CallUncounted;
    forall id
      ensures SessionMoves(s, t, th', s', id) && ConnectedMoves(s, s', id)
    {
    }
  }

  lemma CallGoesOn(s: State, t: Tid, call': Call, s': State)
    requires Core(s) && t in s.threads && s'.threads == s.threads[t := s.threads[t].(call := call')]
    requires WellFormed(s'.tables)
    requires forall id :: id in s'.tables.byId ==> id in s.tables.byId && s'.tables.byId[id] == s.tables.byId[id]
    requires CallBalanced(s, s.threads[t].call, call', s')
    requires Shape(s', t) && Holds(s, s.threads[t].(call := call'))
    ensures Core(s')
  {
    var th := s.threads[t].(call := call');
    OtherTasksGrow(s, t, th, s');
    CallBalances(s, t, call', s');
    assert Holds(s', th);
    assert Registered(s');
    MoveKeepsCore(s, t, th, s');
  }

  lemma QuietCall(s: State, t: Tid, call': Call, s': State)
    requires Core(s) && t in s.threads && s'.threads == s.threads[t := s.threads[t].(call := call')]
    requires s'.tables == s.tables && s'.log == s.log && s'.connected == s.connected && s'.disconnected == s.disconnected
    requires forall id :: CallCarries(call', id) == CallCarries(s.threads[t].call, id)
    requires CallUncounted(call') == CallUncounted(s.threads[t].call)
    requires Shape(s', t) && Holds(s, s.threads[t].(call := call'))
    ensures Core(s')
  {
    assert WellFormed(s'.tables);
    hide Core, WellFormed, Shape, Holds;
    CallGoesOn(s, t, call', s');
  }

  lemma LookupKeepsCore(s: State, t: Tid, id: SessionId)
    requires Core(s) && t in s.threads && s.threads[t].call == Lookup(id)
    ensures Core(StepCall(s, t))
  {
    hide Core;
    TaskFacts(s, t);
    if id in s.tables.byId {
      RegisteredFacts(s, id);
    }
    QuietCall(s, t, if id in s.tables.byId then Check(s.tables.byId[id]) else NoCall, StepCall(s, t));
  }

  lemma CheckKeepsCore(s: State, t: Tid, held: Conn)
    requires Core(s) && t in s.threads && s.threads[t].call == Check(held)
    ensures Core(StepCall(s, t))
  {
    hide Core;
    TaskFacts(s, t);
    if held.id in s.tables.byId {
      HeldIsRegistered(s, held);
    }
    QuietCall(s, t, if held.id in s.tables.byId then Take(held) else NoCall, StepCall(s, t));
  }

  /** A removal takes one session from the registry and gives it to the task. */
  lemma TakeBalances(s: State, t: Tid, held: Conn)
    requires t in s.threads && s.threads[t].call == Take(held)
    requires held.id in s.tables.byId && s.tables.byId[held.id] == held
    ensures CallBalanced(s, Take(held), MarkClosed(held), StepCall(s, t))
  {
    RemoveShrinks(s.tables, held.id);
  }

  lemma TakeKeepsCore(s: State, t: Tid, held: Conn)
    requires Core(s) && t in s.threads && s.threads[t].call == Take(held) && held.id in s.tables.byId
    ensures Core(StepCall(s, t))
  {
    hide Core, WellFormed, CallBalanced;
    var s' := StepCall(s, t);
    TaskFacts(s, t);
    HeldIsRegistered(s, held);
    RemoveShrinks(s.tables, held.id);
    TablesWellFormed(s);
    RemoveKeepsWellFormed(s.tables, held.id);
    TakeBalances(s, t, held);
    CallGoesOn(s, t, MarkClosed(held), s');
  }

  lemma MissKeepsCore(s: State, t: Tid, held: Conn)
    requires Core(s) && t in s.threads && s.threads[t].call == Take(held) && held.id !in s.tables.byId
    ensures Core(StepCall(s, t))
  {
    hide Core;
    TaskFacts(s, t);
    QuietCall(s, t, NoCall, StepCall(s, t));
  }

  lemma MarkClosedKeepsCore(s: State, t: Tid, gone: Conn)
    requires Core(s) && t in s.threads && s.threads[t].call == MarkClosed(gone)
    ensures Core(StepCall(s, t))
  {
    hide Core;
    TaskFacts(s, t);
    QuietCall(s, t, RecordClosed(gone), StepCall(s, t));
  }

  lemma RecordClosedKeepsCore(s: State, t: Tid, gone: Conn)
    requires Core(s) && t in s.threads && s.threads[t].call == RecordClosed(gone)
    ensures Core(StepCall(s, t))
  {
    hide Core, WellFormed;
    TaskFacts(s, t);
    TablesWellFormed(s);
    CallGoesOn(s, t, Announce(gone), StepCall(s, t));
  }

  lemma AnnounceKeepsCore(s: State, t: Tid, gone: Conn)
    requires Core(s) && t in s.threads && s.threads[t].call == Announce(gone)
    ensures Core(StepCall(s, t))
  {
    hide Core, WellFormed;
    TaskFacts(s, t);
    TablesWellFormed(s);
    CallGoesOn(s, t, NoCall, StepCall(s, t));
  }

  lemma CallKeepsCore(s: State, t: Tid)
    requires Core(s) && t in s.threads && s.threads[t].call != NoCall
    ensures Core(StepCall(s, t))
  {
    hide Core;
    match s.threads[t].call
    case Lookup(id) => LookupKeepsCore(s, t, id);
    case Check(held) => CheckKeepsCore(s, t, held);
    case Take(held) =>
      if held.id in s.tables.byId { TakeKeepsCore(s, t, held); } else { MissKeepsCore(s, t, held); }
    case MarkClosed(gone) => MarkClosedKeepsCore(s, t, gone);
    case RecordClosed(gone) => RecordClosedKeepsCore(s, t, gone);
    case Announce(gone) => AnnounceKeepsCore(s, t, gone);
  }

  // ------------------------------------------------------------------
  // Steps of `activate`
  // ------------------------------------------------------------------

  /** A step of `activate` moves the books of its own session only. */
  ghost predicate StageBalanced(s: State, c: Conn, stage: Stage, stage': Stage, s': State) {
    && One(c.id in s'.tables.byId) - One(Taken(stage')) == One(c.id in s.tables.byId) - One(Taken(stage))
    && (forall x :: x != c.id ==> (x in s'.tables.byId <==> x in s.tables.byId))
    && s'.disconnected == s.disconnected
    && s'.connected[c.id] - One(stage' == Spawning || stage' == Accepted)
       == s.connected[c.id] - One(stage == Spawning || stage == Accepted)
    && (forall x :: x != c.id ==> s'.connected[x] == s.connected[x])
    && Stats.Establishes(s'.log) + One(stage' == Recording) - Stats.Closes(s'.log) - |s'.tables.byId|
       == Stats.Establishes(s.log) + One(stage == Recording) - Stats.Closes(s.log) - |s.tables.byId|
  }

  ghost predicate Activating(s: State, c: Conn, stage: Stage) {
    Activation(c.id) in s.threads && s.threads[Activation(c.id)] == Thread(ActivateAt(c, stage), NoCall)
  }

  lemma StagesAround(s: State, c: Conn, stage: Stage, th: Thread, s': State)
    requires Activating(s, c, stage) && s'.threads == s.threads[Activation(c.id) := th]
    requires th.pc.ActivateAt? && th.pc.c == c
    ensures forall x, st :: x != c.id ==> StageIs(s', x, st) == StageIs(s, x, st)
    ensures forall x :: x != c.id ==> AdmittedId(s', x) == AdmittedId(s, x)
    ensures forall st :: (StageIs(s, c.id, st) <==> st == stage) && (StageIs(s', c.id, st) <==> st == th.pc.stage)
    ensures AdmittedId(s, c.id) == Taken(stage) && AdmittedId(s', c.id) == Taken(th.pc.stage)
  {
  }

  lemma StageWeights(s: State, c: Conn, stage: Stage, th: Thread)
    requires Activating(s, c, stage)
    requires th.pc.ActivateAt? && th.pc.c == c && (th.call.NoCall? || th.call.Lookup?)
    ensures forall x :: Carrying(th, x) == 0 && Was(s, Activation(c.id), Carries(x)) == 0
    ensures Uncounted(th) == 0 && Was(s, Activation(c.id), Uncounted) == 0
    ensures Unestablished(th) == One(th.pc.stage == Recording) && Was(s, Activation(c.id), Unestablished) == One(stage == Recording)
  {
  }

  lemma StageBalances(s: State, c: Conn, stage: Stage, th: Thread, s': State)
    requires Activating(s, c, stage) && s'.threads == s.threads[Activation(c.id) := th]
    requires th.pc.ActivateAt? && th.pc.c == c && (th.call.NoCall? || th.call.Lookup?)
    requires StageBalanced(s, c, stage, th.pc.stage, s')
    ensures Balanced(s, Activation(c.id), th, s')
  {
    StagesAround(s, c, stage, th, s');
    StageWeights(s, c, stage, th);
    hide Activating, StageIs, AdmittedId, Carrying, Uncounted, Unestablished, Was, Stats.Establishes, Stats.Closes, Carries;
    forall x
      ensures SessionMoves(s, Activation(c.id), th, s', x) && ConnectedMoves(s, s', x)
    {
      if x == c.id {
      }
    }
  }

  ghost predicate RegistersOnly(s: State, c: Conn, s': State) {
    forall x :: x in s'.tables.byId ==> (x in s.tables.byId && s'.tables.byId[x] == s.tables.byId[x]) || (x == c.id && s'.tables.byId[x] == c)
  }

  lemma StageMoves(s: State, c: Conn, stage: Stage, th: Thread, s': State)
    requires Threads(s) && Registered(s) && Activating(s, c, stage) && s'.threads == s.threads[Activation(c.id) := th]
    requires th.pc.ActivateAt? && th.pc.c == c && (th.call.NoCall? || (th.call.Lookup? && th.pc.stage == Inserting))
    requires (Taken(stage) ==> Taken(th.pc.stage)) && stage != Accepted
    requires WellFormed(s'.tables) && RegistersOnly(s, c, s') && (c.id in s'.tables.byId ==> Taken(th.pc.stage))
    ensures GoodMove(s, Activation(c.id), th, s')
  {
    hide WellFormed;
    assert Loop(c.id) in s.threads ==> Shape(s, Loop(c.id));
    ActivationGrows(s, c.id, th, s');
  }

  lemma StageGoesOn(s: State, c: Conn, stage: Stage, th: Thread, s': State)
    requires Core(s) && Activating(s, c, stage) && s'.threads == s.threads[Activation(c.id) := th]
    requires th.pc.ActivateAt? && th.pc.c == c && (th.call.NoCall? || (th.call.Lookup? && th.pc.stage == Inserting))
    requires StageBalanced(s, c, stage, th.pc.stage, s')
    requires (Taken(stage) ==> Taken(th.pc.stage)) && stage != Accepted
    requires WellFormed(s'.tables) && RegistersOnly(s, c, s') && (c.id in s'.tables.byId ==> Taken(th.pc.stage))
    ensures Core(s')
  {
    assert Threads(s) && Registered(s);
    hide Core, Threads, Registered, WellFormed, StageBalanced, Balanced, GoodMove, RegistersOnly;
    StageBalances(s, c, stage, th, s');
    StageMoves(s, c, stage, th, s');
    MoveKeepsCore(s, Activation(c.id), th, s');
  }

  lemma NotYetTaken(s: State, c: Conn, stage: Stage)
    requires Core(s) && Activating(s, c, stage) && !Taken(stage)
    ensures c.id !in s.tables.byId
  {
    hide Core;
    if c.id in s.tables.byId {
      RegisteredFacts(s, c.id);
      assert false;
    }
  }

  /** A step of `activate` that leaves registry, counters and events alone. */
  lemma QuietStage(s: State, c: Conn, stage: Stage, th: Thread, s': State)
    requires Core(s) && Activating(s, c, stage) && s'.threads == s.threads[Activation(c.id) := th]
    requires s'.tables == s.tables && s'.log == s.log && s'.connected == s.connected && s'.disconnected == s.disconnected
    requires th.pc.ActivateAt? && th.pc.c == c && (th.call.NoCall? || (th.call.Lookup? && th.pc.stage == Inserting))
    requires !Taken(stage) && !Taken(th.pc.stage)
    ensures Core(s')
  {
    hide Core, WellFormed;
    TablesWellFormed(s);
    NotYetTaken(s, c, stage);
    StageGoesOn(s, c, stage, th, s');
  }

  lemma ArbitrateKeepsCore(s: State, c: Conn)
    requires Core(s) && Activating(s, c, Arbitrating)
    ensures Core(StepActivation(s, Activation(c.id), c, Arbitrating))
  {
    hide Core;
    var s' := StepActivation(s, Activation(c.id), c, Arbitrating);
    QuietStage(s, c, Arbitrating, s'.threads[Activation(c.id)], s');
  }

  /** An insert adds the session to the registry and leaves one establish to be counted. */
  lemma InsertKeepsCore(s: State, c: Conn)
    requires Core(s) && Activating(s, c, Inserting)
    ensures Core(StepActivation(s, Activation(c.id), c, Inserting))
  {
    hide Core;
    var s' := StepActivation(s, Activation(c.id), c, Inserting);
    NotYetTaken(s, c, Inserting);
    if GetByPeer(s.tables, c.peer).Some? {
      QuietStage(s, c, Inserting, Thread(ActivateAt(c, Discarding), NoCall), s');
    } else {
      TablesWellFormed(s);
      InsertKeepsWellFormed(s.tables, c);
      hide WellFormed;
      assert s'.tables.byId.Keys == s.tables.byId.Keys + {c.id};
      assert |s'.tables.byId| == |s.tables.byId| + 1;
      StageGoesOn(s, c, Inserting, Thread(ActivateAt(c, Recording), NoCall), s');
    }
  }

  lemma CountOrAnnounceKeepsCore(s: State, c: Conn, stage: Stage)
    requires Core(s) && Activating(s, c, stage) && (stage == Recording || stage == Announcing)
    ensures Core(StepActivation(s, Activation(c.id), c, stage))
  {
    hide Core, WellFormed;
    TablesWellFormed(s);
    var s' := StepActivation(s, Activation(c.id), c, stage);
    StageGoesOn(s, c, stage, Thread(ActivateAt(c, if stage == Recording then Announcing else Spawning), NoCall), s');
  }

  /** Spawning accepts the session and adds its receive loop, which carries nothing. */
  lemma SpawnKeepsCore(s: State, c: Conn)
    requires Inv(s) && Activating(s, c, Spawning)
    ensures Core(StepActivation(s, Activation(c.id), c, Spawning))
  {
    hide Core, WellFormed;
    TablesWellFormed(s);
    var mid := Put(s, Activation(c.id), Thread(ActivateAt(c, Accepted), NoCall));
    StageGoesOn(s, c, Spawning, Thread(ActivateAt(c, Accepted), NoCall), mid);
    var t, th := Loop(c.id), Thread(LoopAt(c, Top), NoCall);
    if t in s.threads {
      TaskFacts(s, t);
      assert false;
    }
    QuietMove(mid, t, th, Put(mid, t, th));
  }

  lemma RejectKeepsCore(s: State, c: Conn, stage: Stage)
    requires Core(s) && Activating(s, c, stage) && (stage == Discarding || stage == Rejecting)
    ensures Core(StepActivation(s, Activation(c.id), c, stage))
  {
    hide Core;
    QuietStage(s, c, stage, Thread(ActivateAt(c, if stage == Discarding then Rejecting else Rejected), NoCall),
               StepActivation(s, Activation(c.id), c, stage));
  }

  lemma ActivationKeepsCore(s: State, c: Conn, stage: Stage)
    requires Inv(s) && Activating(s, c, stage)
    ensures Core(StepActivation(s, Activation(c.id), c, stage))
  {
    hide Core;
    match stage
    case Arbitrating => ArbitrateKeepsCore(s, c);
    case Inserting => InsertKeepsCore(s, c);
    case Recording => CountOrAnnounceKeepsCore(s, c, stage);
    case Announcing => CountOrAnnounceKeepsCore(s, c, stage);
    case Spawning => SpawnKeepsCore(s, c);
    case Accepted =>
    case Discarding => RejectKeepsCore(s, c, stage);
    case Rejecting => RejectKeepsCore(s, c, stage);
    case Rejected =>
  }

  // ------------------------------------------------------------------
  // Steps of `shutdown`
  // ------------------------------------------------------------------

  ghost function ListedIds(order: seq<Conn>): set<SessionId> {
    set i | 0 <= i < |order| :: order[i].id
  }

  lemma {:induction false} DistinctIdsCount(order: seq<Conn>)
    requires forall i, j :: 0 <= i < j < |order| ==> order[i].id != order[j].id
    ensures |ListedIds(order)| == |order|
    ensures forall id :: Occurs(order, id) == One(id in ListedIds(order))
  {
    if order != [] {
      var rest := order[1..];
      DistinctIdsCount(rest);
      assert order[0].id !in ListedIds(rest);
      assert ListedIds(order) == ListedIds(rest) + {order[0].id} by {
        assert forall i :: 0 < i < |order| ==> order[i] == rest[i - 1];
      }
    }
  }

  lemma SubsetOfSameSize(a: set<SessionId>, b: set<SessionId>)
    requires a <= b && |a| == |b|
    ensures a == b
  {
    assert b == a + (b - a);
  }

  /** A drained list holds every session that was registered, once. */
  lemma DrainedListHoldsAll(order: seq<Conn>, byId: map<SessionId, Conn>)
    requires Lists(order, byId)
    ensures forall id :: Occurs(order, id) == One(id in byId)
  {
    DistinctIdsCount(order);
    SubsetOfSameSize(ListedIds(order), byId.Keys);
  }

  ghost predicate DownBalanced(s: State, pc: Pc, pc': Pc, s': State) {
    && (forall id :: One(id in s'.tables.byId) + PcCarries(pc', id) + s'.disconnected[id]
                  == One(id in s.tables.byId) + PcCarries(pc, id) + s.disconnected[id])
    && s'.connected == s.connected
    && Stats.Establishes(s'.log) == Stats.Establishes(s.log)
    && Stats.Closes(s'.log) + PcUncounted(pc') + |s'.tables.byId| == Stats.Closes(s.log) + PcUncounted(pc) + |s.tables.byId|
  }

  lemma DownWeights(s: State, t: Tid, pc: Pc, pc': Pc)
    requires t in s.threads && s.threads[t] == Thread(pc, NoCall) && pc.DownAt? && pc'.DownAt?
    ensures forall id :: Carrying(Thread(pc', NoCall), id) == PcCarries(pc', id) && Was(s, t, Carries(id)) == PcCarries(pc, id)
    ensures Uncounted(Thread(pc', NoCall)) == PcUncounted(pc') && Was(s, t, Uncounted) == PcUncounted(pc)
    ensures Unestablished(Thread(pc', NoCall)) == 0 && Was(s, t, Unestablished) == 0
  {
  }

  lemma DownBalances(s: State, t: Tid, pc: Pc, pc': Pc, s': State)
    requires t.Shutdown? && t in s.threads && s.threads[t] == Thread(pc, NoCall)
    requires s'.threads == s.threads[t := Thread(pc', NoCall)]
    requires forall id :: id in s'.tables.byId ==> id in s.tables.byId
    requires pc.DownAt? && pc'.DownAt? && DownBalanced(s, pc, pc', s')
    ensures Balanced(s, t, Thread(pc', NoCall), s')
  {
    OtherTasksGrow(s, t, Thread(pc', NoCall), s');
    DownWeights(s, t, pc, pc');
    hide StageIs, AdmittedId, Grows, Carrying, Uncounted, Unestablished, Was, Stats.Establishes, Stats.Closes, Carries;
    hide PcCarries, PcUncounted;
  }

  lemma DownMoves(s: State, t: Tid, th: Thread, s': State)
    requires Core(s) && t.Shutdown? && s'.threads == s.threads[t := th]
    requires s'.tables == s.tables || s'.tables == EMPTY
    requires Shape(s', t) && Holds(s, th)
    ensures GoodMove(s, t, th, s')
  {
    hide Laws;
    OtherTasksGrow(s, t, th, s');
  }

  lemma DownGoesOn(s: State, n: nat, pc: Pc, pc': Pc, s': State)
    requires Core(s) && Shutdown(n) in s.threads && s.threads[Shutdown(n)] == Thread(pc, NoCall)
    requires s'.threads == s.threads[Shutdown(n) := Thread(pc', NoCall)]
    requires s'.tables == s.tables || s'.tables == EMPTY
    requires pc.DownAt? && pc'.DownAt?
    requires DownBalanced(s, pc, pc', s') && Shape(s', Shutdown(n)) && Holds(s, Thread(pc', NoCall))
    ensures Core(s')
  {
    hide Core, DownBalanced, Balanced, GoodMove;
    DownBalances(s, Shutdown(n), pc, pc', s');
    DownMoves(s, Shutdown(n), Thread(pc', NoCall), s');
    MoveKeepsCore(s, Shutdown(n), Thread(pc', NoCall), s');
  }

  /** Draining hands every registered session to the task. */
  lemma DrainKeepsCore(s: State, n: nat, rest: seq<Conn>, ch: Choice)
    requires Core(s) && Shutdown(n) in s.threads && s.threads[Shutdown(n)] == Thread(DownAt(Draining, rest), NoCall)
    requires Lists(ch.order, s.tables.byId)
    ensures Core(StepDown(s, Shutdown(n), Draining, rest, ch))
  {
    hide Core, WellFormed;
    TaskFacts(s, Shutdown(n));
    DrainedListHoldsAll(ch.order, s.tables.byId);
    forall i | 0 <= i < |ch.order|
      ensures Admitted(s, ch.order[i])
    {
      RegisteredFacts(s, ch.order[i].id);
    }
    DownGoesOn(s, n, DownAt(Draining, rest), NextDrained(ch.order), StepDown(s, Shutdown(n), Draining, rest, ch));
  }

  lemma RecordDrainedKeepsCore(s: State, n: nat, rest: seq<Conn>, ch: Choice)
    requires Core(s) && Shutdown(n) in s.threads && s.threads[Shutdown(n)] == Thread(DownAt(RecordDrained, rest), NoCall)
    ensures Core(StepDown(s, Shutdown(n), RecordDrained, rest, ch))
  {
    hide Core, WellFormed;
    TaskFacts(s, Shutdown(n));
    DownGoesOn(s, n, DownAt(RecordDrained, rest), DownAt(AnnounceDrained, rest), StepDown(s, Shutdown(n), RecordDrained, rest, ch));
  }

  lemma AnnounceDrainedKeepsCore(s: State, n: nat, rest: seq<Conn>, ch: Choice)
    requires Core(s) && Shutdown(n) in s.threads && s.threads[Shutdown(n)] == Thread(DownAt(AnnounceDrained, rest), NoCall)
    ensures Core(StepDown(s, Shutdown(n), AnnounceDrained, rest, ch))
  {
    hide Core, WellFormed;
    TaskFacts(s, Shutdown(n));
    DownGoesOn(s, n, DownAt(AnnounceDrained, rest), NextDrained(rest[1..]), StepDown(s, Shutdown(n), AnnounceDrained, rest, ch));
  }

  lemma DownKeepsCore(s: State, n: nat, down: DownStage, rest: seq<Conn>, ch: Choice)
    requires Core(s) && Shutdown(n) in s.threads && s.threads[Shutdown(n)] == Thread(DownAt(down, rest), NoCall)
    requires down == Draining ==> Lists(ch.order, s.tables.byId)
    ensures Core(StepDown(s, Shutdown(n), down, rest, ch))
  {
    hide Core, WellFormed, Lists;
    TaskFacts(s, Shutdown(n));
    var s' := StepDown(s, Shutdown(n), down, rest, ch);
    match down
    case SwapFlag => QuietMove(s, Shutdown(n), s'.threads[Shutdown(n)], s');
    case SendSignal => QuietMove(s, Shutdown(n), s'.threads[Shutdown(n)], s');
    case Draining => DrainKeepsCore(s, n, rest, ch);
    case MarkDrained => QuietMove(s, Shutdown(n), s'.threads[Shutdown(n)], s');
    case RecordDrained => RecordDrainedKeepsCore(s, n, rest, ch);
    case AnnounceDrained => AnnounceDrainedKeepsCore(s, n, rest, ch);
    case Over =>
  }

  // ------------------------------------------------------------------
  // Every action
  // ------------------------------------------------------------------

  /** A task other than an activation that carries nothing before and after. */
  lemma IdleMove(s: State, t: Tid, th: Thread)
    requires Core(s) && !t.Activation?
    requires t in s.threads ==> !s.threads[t].pc.DownAt? && (s.threads[t].call.NoCall? || s.threads[t].call.Lookup?)
    requires t in s.threads ==> Unestablished(s.threads[t]) == 0
    requires !th.pc.ActivateAt? && (th.pc.DownAt? ==> th.pc.rest == []) && (th.call.NoCall? || th.call.Lookup?)
    requires Shape(Put(s, t, th), t)
    ensures Core(Put(s, t, th))
  {
    hide Core;
    QuietMove(s, t, th, Put(s, t, th));
  }

  lemma LoopKeepsCore(s: State, id: SessionId, th: Thread)
    requires Core(s) && Loop(id) in s.threads && s.threads[Loop(id)].call == NoCall
    requires th.pc.LoopAt? && th.pc.c == s.threads[Loop(id)].pc.c
    requires if th.call == NoCall then th.pc.loop != Exited
             else th.call == Lookup(th.pc.c.id) && (th.pc.loop == Finishing || th.pc.loop == Exited)
    ensures Core(Put(s, Loop(id), th))
  {
    hide Core;
    TaskFacts(s, Loop(id));
    IdleMove(s, Loop(id), th);
  }

  lemma StepKeepsCore(s: State, t: Tid, ch: Choice)
    requires Inv(s) && CanStep(s, t, ch)
    ensures Core(StepOf(s, t, ch))
  {
    hide Core, Lists;
    TaskFacts(s, t);
    var th := s.threads[t];
    if th.call != NoCall {
      CallKeepsCore(s, t);
    } else {
      match t
      case Attempt(_) => IdleMove(s, t, StepOf(s, t, ch).threads[t]);
      case Activation(id) => ActivationKeepsCore(s, th.pc.c, th.pc.stage);
      case Loop(id) => LoopKeepsCore(s, id, StepOf(s, t, ch).threads[t]);
      case Caller(_) =>
      case Shutdown(n) => DownKeepsCore(s, n, th.pc.down, th.pc.rest, ch);
      case Acceptor => IdleMove(s, t, StepOf(s, t, ch).threads[t]);
    }
  }

  lemma FreshActivationBalances(s: State, c: Conn, th: Thread)
    requires Activation(c.id) !in s.threads && th == Thread(ActivateAt(c, Arbitrating), NoCall)
    ensures Balanced(s, Activation(c.id), th, Put(s, Activation(c.id), th))
  {
    var s' := Put(s, Activation(c.id), th);
    assert forall x :: AdmittedId(s', x) == AdmittedId(s, x);
    assert forall x, stage :: stage != Arbitrating ==> StageIs(s', x, stage) == StageIs(s, x, stage);
  }

  lemma FreshActivationMoves(s: State, c: Conn, th: Thread)
    requires Threads(s) && Registered(s)
    requires Activation(c.id) !in s.threads && th == Thread(ActivateAt(c, Arbitrating), NoCall)
    ensures GoodMove(s, Activation(c.id), th, Put(s, Activation(c.id), th))
  {
    hide WellFormed;
    assert Loop(c.id) in s.threads ==> Shape(s, Loop(c.id));
  }

  lemma FreshActivationKeepsCore(s: State, c: Conn, th: Thread)
    requires Core(s) && Activation(c.id) !in s.threads && th == Thread(ActivateAt(c, Arbitrating), NoCall)
    ensures Core(Put(s, Activation(c.id), th))
  {
    var t, s' := Activation(c.id), Put(s, Activation(c.id), th);
    assert Threads(s) && Registered(s);
    hide Core, Threads, Registered, GoodMove;
    FreshActivationMoves(s, c, th);
    hide Balanced;
    FreshActivationBalances(s, c, th);
    MoveKeepsCore(s, t, th, s');
  }

  /** A new session starts as an activation that has taken nothing. */
  lemma NewSessionKeepsCore(s: State, n: nat, c: Conn)
    requires Core(s) && Enabled(s, HandshakeDone(n, c))
    ensures Core(Perform(s, HandshakeDone(n, c)))
  {
    hide Core;
    TaskFacts(s, Attempt(n));
    var mid := Put(s, Attempt(n), Thread(AttemptAt(Ended), NoCall));
    IdleMove(s, Attempt(n), Thread(AttemptAt(Ended), NoCall));
    var th := Thread(ActivateAt(c, Arbitrating), NoCall);
    FreshActivationKeepsCore(mid, c, th);
  }

  lemma ActionKeepsCore(s: State, a: Action)
    requires Inv(s) && Enabled(s, a)
    ensures Core(Perform(s, a))
  {
    hide Core, CanStep;
    match a
    case Step(t, ch) => StepKeepsCore(s, t, ch);
    case Dial(n) => IdleMove(s, Attempt(n), Thread(AttemptAt(CheckFlag), NoCall));
    case HandshakeFails(n) =>
      TaskFacts(s, Attempt(n));
      IdleMove(s, Attempt(n), Thread(AttemptAt(Ended), NoCall));
    case HandshakeDone(n, c) => NewSessionKeepsCore(s, n, c);
    case CallDisconnect(n, id) => IdleMove(s, Caller(n), Thread(CallerAt, Lookup(id)));
    case ReadFrame(id) => LoopKeepsCore(s, id, Perform(s, a).threads[Loop(id)]);
    case ReadError(id) =>
      TaskFacts(s, Loop(id));
      LoopKeepsCore(s, id, Perform(s, a).threads[Loop(id)]);
    case AcceptOne =>
      TaskFacts(s, Acceptor);
      IdleMove(s, Acceptor, Thread(AcceptAt(Serving), NoCall));
    case CallShutdown(n) => IdleMove(s, Shutdown(n), Thread(DownAt(SwapFlag, []), NoCall));
  }

  lemma PutKeepsLoops(s: State, t: Tid, s': State)
    requires LoopsSpawned(s) && t in s'.threads && s'.threads == s.threads[t := s'.threads[t]]
    requires !t.Activation? || (t in s.threads && s'.threads[t].pc == s.threads[t].pc)
    ensures LoopsSpawned(s')
  {
    assert forall id :: StageIs(s', id, Accepted) == StageIs(s, id, Accepted);
  }

  lemma CallKeepsLoops(s: State, t: Tid)
    requires LoopsSpawned(s) && t in s.threads
    ensures LoopsSpawned(StepCall(s, t))
  {
    hide StepCall, LoopsSpawned, Remove;
    CallStaysInPlace(s, t);
    PutKeepsLoops(s, t, StepCall(s, t));
  }

  lemma NoLoopBeforeSpawn(s: State, c: Conn)
    requires Core(s) && Activating(s, c, Spawning)
    ensures Loop(c.id) !in s.threads
  {
    hide Core;
    if Loop(c.id) in s.threads {
      TaskFacts(s, Loop(c.id));
      assert false;
    }
  }

  /** Acceptance and the loop come in one step. */
  lemma ActivationKeepsLoops(s: State, c: Conn, stage: Stage)
    requires LoopsSpawned(s) && Activating(s, c, stage)
    ensures LoopsSpawned(StepActivation(s, Activation(c.id), c, stage))
  {
    var s' := StepActivation(s, Activation(c.id), c, stage);
    assert forall id :: StageIs(s', id, Accepted) ==> StageIs(s, id, Accepted) || (id == c.id && stage == Spawning);
  }

  lemma StepKeepsLoops(s: State, t: Tid, ch: Choice)
    requires Inv(s) && CanStep(s, t, ch)
    ensures LoopsSpawned(StepOf(s, t, ch))
  {
    hide Core, Lists, LoopsSpawned;
    TaskFacts(s, t);
    if s.threads[t].call != NoCall {
      CallKeepsLoops(s, t);
    } else if t.Activation? {
      ActivationKeepsLoops(s, s.threads[t].pc.c, s.threads[t].pc.stage);
    } else {
      PutKeepsLoops(s, t, StepOf(s, t, ch));
    }
  }

  lemma ActionKeepsLoops(s: State, a: Action)
    requires Inv(s) && Enabled(s, a)
    ensures LoopsSpawned(Perform(s, a))
  {
    hide Core, CanStep;
    if a.Step? {
      StepKeepsLoops(s, a.t, a.ch);
    } else {
      assert forall id :: StageIs(Perform(s, a), id, Accepted) ==> StageIs(s, id, Accepted);
    }
  }

  lemma ActionKeepsInv(s: State, a: Action)
    requires Inv(s) && Enabled(s, a)
    ensures Inv(Perform(s, a))
  {
    hide Core, LoopsSpawned;
    ActionKeepsCore(s, a);
    ActionKeepsLoops(s, a);
  }

  lemma StartInv(local: NodeId, max: nat, listening: bool)
    ensures Inv(Start(local, max, listening))
  {
    var s := Start(local, max, listening);
    forall id
      ensures SessionLaw(s, id) && ConnectedLaw(s, id)
    {
      TotalZero(s.threads, Carries(id));
    }
    TotalZero(s.threads, Uncounted);
    TotalZero(s.threads, Unestablished);
  }

  lemma {:induction false} RunKeepsInv(s: State, run: seq<Action>)
    requires Inv(s) && Legal(s, run)
    ensures Inv(After(s, run))
    decreases |run|
  {
    hide Inv, Enabled, Perform;
    if run != [] {
      ActionKeepsInv(s, run[0]);
      RunKeepsInv(Perform(s, run[0]), run[1..]);
    }
  }
}
