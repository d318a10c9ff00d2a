/**
 The session layer as a step system: any number of tasks, interleaved at every
 lock-protected registry operation, every counter update and every event.

 A task is known by what it works for: one activation and one receive loop per session,
 any number of connection attempts, of callers of `disconnect`, and of calls of `shutdown`,
 and the accept loop. A task inside `disconnect` carries its position there as well.
 */
module Lifecycle {
  import opened Sessions
  import opened Registry
  import Arbitration
  import Stats

  datatype Tid =
    | Attempt(n: nat)
    | Activation(id: SessionId)
    | Loop(id: SessionId)
    | Caller(n: nat)
    | Shutdown(n: nat)
    | Acceptor

  /** Position inside `disconnect`: look up, check the identity, remove, then wind up what was removed. */
  datatype Call =
    | NoCall
    | Lookup(id: SessionId)
    | Check(held: Conn)
    | Take(held: Conn)
    | MarkClosed(gone: Conn)
    | RecordClosed(gone: Conn)
    | Announce(gone: Conn)

  /** `connect` and `spawn_inbound` up to the handshake. */
  datatype AttemptStage = CheckFlag | CheckLimit | Handshaking | Ended

  /** `activate` */
  datatype Stage =
    | Arbitrating | Inserting
    | Recording | Announcing | Spawning | Accepted
    | Discarding | Rejecting | Rejected

  /** The receive loop: at its top, parked in its `select!` and subscribed to the shutdown signal, winding up, gone. */
  datatype LoopStage = Top | Parked | Finishing | Exited

  /** `shutdown` */
  datatype DownStage = SwapFlag | SendSignal | Draining | MarkDrained | RecordDrained | AnnounceDrained | Over

  datatype AcceptStage = Serving | Listening | Stopped

  datatype Pc =
    | AttemptAt(attempt: AttemptStage)
    | ActivateAt(c: Conn, stage: Stage)
    | LoopAt(c: Conn, loop: LoopStage)
    | CallerAt
    | DownAt(down: DownStage, rest: seq<Conn>)
    | AcceptAt(accept: AcceptStage)

  datatype Thread = Thread(pc: Pc, call: Call)

  datatype State = State(
    local: NodeId,
    max: nat,
    tables: Tables,
    threads: map<Tid, Thread>,
    log: seq<Stats.Entry>,
    duplicates: nat,
    closed: set<SessionId>,
    shuttingDown: bool,
    signal: bool,
    connected: multiset<SessionId>,
    disconnected: multiset<SessionId>)

  function Start(local: NodeId, max: nat, listening: bool): State {
    State(local, max, EMPTY, if listening then map[Acceptor := Thread(AcceptAt(Serving), NoCall)] else map[],
          [], 0, {}, false, false, multiset{}, multiset{})
  }

  // ------------------------------------------------------------------
  // Steps of a task
  // ------------------------------------------------------------------

  /** What the scheduler decides inside a step: the order `drain` lists sessions in, and which ready branch wakes a loop. */
  datatype Choice = Choice(order: seq<Conn>, viaSignal: bool)

  function Put(s: State, t: Tid, th: Thread): State {
    s.(threads := s.threads[t := th])
  }

  /** `order` lists every registered session once. */
  ghost predicate Lists(order: seq<Conn>, byId: map<SessionId, Conn>) {
    && |order| == |byId|
    && (forall i :: 0 <= i < |order| ==> order[i].id in byId && byId[order[i].id] == order[i])
    && (forall i, j :: 0 <= i < j < |order| ==> order[i].id != order[j].id)
  }

  function StepCall(s: State, t: Tid): State
    requires t in s.threads
  {
    var th := s.threads[t];
    match th.call
    case NoCall => s
    case Lookup(id) =>
      Put(s, t, th.(call := if id in s.tables.byId then Check(s.tables.byId[id]) else NoCall))
    case Check(held) =>
      Put(s, t, th.(call := if held.id in s.tables.byId && s.tables.byId[held.id] == held then Take(held) else NoCall))
    case Take(held) =>
      if held.id in s.tables.byId then
        Put(s, t, th.(call := MarkClosed(s.tables.byId[held.id]))).(tables := Remove(s.tables, held.id))
      else Put(s, t, th.(call := NoCall))
    case MarkClosed(gone) => Put(s, t, th.(call := RecordClosed(gone))).(closed := s.closed + {gone.id})
    case RecordClosed(gone) => Put(s, t, th.(call := Announce(gone))).(log := s.log + [Stats.Closed(gone.id)])
    case Announce(gone) => Put(s, t, th.(call := NoCall)).(disconnected := s.disconnected + multiset{gone.id})
  }

  function StepAttempt(s: State, t: Tid, at: AttemptStage): State {
    match at
    case CheckFlag => Put(s, t, Thread(AttemptAt(if s.shuttingDown then Ended else CheckLimit), NoCall))
    case CheckLimit => Put(s, t, Thread(AttemptAt(if |s.tables.byId| < s.max then Handshaking else Ended), NoCall))
    case Handshaking => s
    case Ended => s
  }

  function StepActivation(s: State, t: Tid, c: Conn, stage: Stage): State {
    match stage
    case Arbitrating => (
      match GetByPeer(s.tables, c.peer)
      case None => Put(s, t, Thread(ActivateAt(c, Inserting), NoCall))
      case Some(e) =>
        if Arbitration.Wins(s.local, c, e) then Put(s, t, Thread(ActivateAt(c, Inserting), Lookup(e.id)))
        else Put(s, t, Thread(ActivateAt(c, Discarding), NoCall)))
    case Inserting =>
      if GetByPeer(s.tables, c.peer).Some? then Put(s, t, Thread(ActivateAt(c, Discarding), NoCall))
      else Put(s, t, Thread(ActivateAt(c, Recording), NoCall)).(tables := Insert(s.tables, c))
    case Recording => Put(s, t, Thread(ActivateAt(c, Announcing), NoCall)).(log := s.log + [Stats.Established(c.id)])
    case Announcing => Put(s, t, Thread(ActivateAt(c, Spawning), NoCall)).(connected := s.connected + multiset{c.id})
    case Spawning => Put(Put(s, t, Thread(ActivateAt(c, Accepted), NoCall)), Loop(c.id), Thread(LoopAt(c, Top), NoCall))
    case Accepted => s
    case Discarding => Put(s, t, Thread(ActivateAt(c, Rejecting), NoCall)).(duplicates := s.duplicates + 1)
    case Rejecting => Put(s, t, Thread(ActivateAt(c, Rejected), NoCall)).(closed := s.closed + {c.id})
    case Rejected => s
  }

  function StepLoop(s: State, t: Tid, c: Conn, loop: LoopStage, ch: Choice): State {
    match loop
    case Top => Put(s, t, Thread(LoopAt(c, Parked), NoCall))
    case Parked => Put(s, t, Thread(LoopAt(c, Finishing), if ch.viaSignal then Lookup(c.id) else NoCall))
    case Finishing => Put(s, t, Thread(LoopAt(c, Exited), Lookup(c.id)))
    case Exited => s
  }

  predicate Subscribed(th: Thread) {
    th.pc == AcceptAt(Listening) || (th.pc.LoopAt? && th.pc.loop == Parked)
  }

  /** Some task is subscribed to the shutdown signal at this moment. */
  ghost predicate Receivers(s: State) {
    exists t :: t in s.threads && Subscribed(s.threads[t])
  }

  function NextDrained(rest: seq<Conn>): Pc {
    if rest == [] then DownAt(Over, []) else DownAt(MarkDrained, rest)
  }

  /**
   `shutdown`. Sending on a watch channel that has no receiver fails and leaves the channel's
   value as it was, so receivers that subscribe later never see the signal.
   */
  ghost function StepDown(s: State, t: Tid, down: DownStage, rest: seq<Conn>, ch: Choice): State {
    match down
    case SwapFlag =>
      Put(s, t, Thread(DownAt(if s.shuttingDown then Over else SendSignal, []), NoCall)).(shuttingDown := true)
    case SendSignal => Put(s, t, Thread(DownAt(Draining, []), NoCall)).(signal := s.signal || Receivers(s))
    case Draining => Put(s, t, Thread(NextDrained(ch.order), NoCall)).(tables := EMPTY)
    case MarkDrained =>
      if rest == [] then s
      else Put(s, t, Thread(DownAt(RecordDrained, rest), NoCall)).(closed := s.closed + {rest[0].id})
    case RecordDrained =>
      if rest == [] then s
      else Put(s, t, Thread(DownAt(AnnounceDrained, rest), NoCall)).(log := s.log + [Stats.Closed(rest[0].id)])
    case AnnounceDrained =>
      if rest == [] then s
      else Put(s, t, Thread(NextDrained(rest[1..]), NoCall)).(disconnected := s.disconnected + multiset{rest[0].id})
    case Over => s
  }

  function StepAcceptor(s: State, t: Tid, at: AcceptStage): State {
    match at
    case Serving => Put(s, t, Thread(AcceptAt(if s.shuttingDown then Stopped else Listening), NoCall))
    case Listening => Put(s, t, Thread(AcceptAt(Stopped), NoCall))
    case Stopped => s
  }

  /** Whether a task can go on by itself, without any message, new request or failure from outside. */
  ghost predicate CanStep(s: State, t: Tid, ch: Choice) {
    t in s.threads &&
    var th := s.threads[t];
    th.call != NoCall ||
    match th.pc
    case AttemptAt(at) => at == CheckFlag || at == CheckLimit
    case ActivateAt(_, stage) => stage != Accepted && stage != Rejected
    case LoopAt(c, loop) =>
      loop == Top || loop == Finishing || (loop == Parked && if ch.viaSignal then s.signal else c.id in s.closed)
    case CallerAt => false
    case DownAt(down, _) => down != Over && (down == Draining ==> Lists(ch.order, s.tables.byId))
    case AcceptAt(at) => at == Serving || (at == Listening && s.signal)
  }

  ghost function StepOf(s: State, t: Tid, ch: Choice): State
    requires t in s.threads
  {
    var th := s.threads[t];
    if th.call != NoCall then StepCall(s, t)
    else
      match th.pc
      case AttemptAt(at) => StepAttempt(s, t, at)
      case ActivateAt(c, stage) => StepActivation(s, t, c, stage)
      case LoopAt(c, loop) => StepLoop(s, t, c, loop, ch)
      case CallerAt => s
      case DownAt(down, rest) => StepDown(s, t, down, rest, ch)
      case AcceptAt(at) => StepAcceptor(s, t, at)
  }

  /** A step inside `disconnect` leaves the task where it is, and every other task and the shutdown alone. */
  lemma CallStaysInPlace(s: State, t: Tid)
    requires t in s.threads
    ensures var s' := StepCall(s, t);
            && t in s'.threads && s'.threads == s.threads[t := s'.threads[t]] && s'.threads[t].pc == s.threads[t].pc
            && s'.shuttingDown == s.shuttingDown && s'.signal == s.signal && s'.max == s.max
            && (s'.tables == s.tables || (s.threads[t].call.Take? && s'.tables == Remove(s.tables, s.threads[t].call.held.id)))
  {
    hide Remove;
    match s.threads[t].call
    case NoCall =>
    case Lookup(_) =>
    case Check(_) =>
    case Take(_) =>
    case MarkClosed(_) =>
    case RecordClosed(_) =>
    case Announce(_) =>
  }

  // ------------------------------------------------------------------
  // Runs
  // ------------------------------------------------------------------

  datatype Action =
    | Step(t: Tid, ch: Choice)
    | Dial(n: nat)                       // a new attempt, outbound or inbound
    | HandshakeFails(n: nat)             // dial error, handshake error or unverified identity
    | HandshakeDone(n: nat, c: Conn)     // verified: a session with a new identifier is activated
    | CallDisconnect(n: nat, id: SessionId)
    | ReadFrame(id: SessionId)
    | ReadError(id: SessionId)
    | AcceptOne
    | CallShutdown(n: nat)

  ghost predicate ParkedLoop(s: State, id: SessionId) {
    Loop(id) in s.threads && s.threads[Loop(id)].call == NoCall
    && s.threads[Loop(id)].pc.LoopAt? && s.threads[Loop(id)].pc.loop == Parked
  }

  ghost predicate Enabled(s: State, a: Action) {
    match a
    case Step(t, ch) => CanStep(s, t, ch)
    case Dial(n) => Attempt(n) !in s.threads
    case HandshakeFails(n) => Attempt(n) in s.threads && s.threads[Attempt(n)].pc == AttemptAt(Handshaking)
    case HandshakeDone(n, c) =>
      Attempt(n) in s.threads && s.threads[Attempt(n)].pc == AttemptAt(Handshaking) && Activation(c.id) !in s.threads
    case CallDisconnect(n, _) => Caller(n) !in s.threads
    case ReadFrame(id) => ParkedLoop(s, id)
    case ReadError(id) => ParkedLoop(s, id)
    case AcceptOne => Acceptor in s.threads && s.threads[Acceptor].pc == AcceptAt(Listening)
    case CallShutdown(n) => Shutdown(n) !in s.threads
  }

  ghost function Perform(s: State, a: Action): State
    requires Enabled(s, a)
  {
    match a
    case Step(t, ch) => StepOf(s, t, ch)
    case Dial(n) => Put(s, Attempt(n), Thread(AttemptAt(CheckFlag), NoCall))
    case HandshakeFails(n) => Put(s, Attempt(n), Thread(AttemptAt(Ended), NoCall))
    case HandshakeDone(n, c) =>
      Put(Put(s, Attempt(n), Thread(AttemptAt(Ended), NoCall)), Activation(c.id), Thread(ActivateAt(c, Arbitrating), NoCall))
    case CallDisconnect(n, id) => Put(s, Caller(n), Thread(CallerAt, Lookup(id)))
    case ReadFrame(id) => Put(s, Loop(id), Thread(LoopAt(s.threads[Loop(id)].pc.c, Top), NoCall))
    case ReadError(id) => Put(s, Loop(id), Thread(LoopAt(s.threads[Loop(id)].pc.c, Finishing), Lookup(id)))
    case AcceptOne => Put(s, Acceptor, Thread(AcceptAt(Serving), NoCall))
    case CallShutdown(n) => Put(s, Shutdown(n), Thread(DownAt(SwapFlag, []), NoCall))
  }

  /** Every action of the run is enabled when its turn comes. */
  ghost predicate Legal(s: State, run: seq<Action>)
    decreases |run|
  {
    run == [] || (Enabled(s, run[0]) && Legal(Perform(s, run[0]), run[1..]))
  }

  ghost function After(s: State, run: seq<Action>): State
    requires Legal(s, run)
    decreases |run|
  {
    if run == [] then s else After(Perform(s, run[0]), run[1..])
  }
}
