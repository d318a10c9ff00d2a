/**
 The atomic calls and the step system agree: an activation that no other task interrupts
 does, step by step, what `Arbitration` says it does at once.
 */
module Uninterrupted {
  import opened Sessions
  import opened Registry
  import opened Lifecycle
  import LifecycleInvariant
  import Arbitration
  import Stats

  /** The steps of an activation leave the scheduler nothing to decide. */
  const NO_CHOICE := Choice([], false)

  /** `n` steps of one task, and of no other. */
  ghost function Alone(s: State, t: Tid, n: nat): State
    decreases n
  {
    if n == 0 || t !in s.threads then s else Alone(StepOf(s, t, NO_CHOICE), t, n - 1)
  }

  /** What `Arbitration` knows of a state, with no duplicate discarded yet. */
  ghost function NodeOf(s: State): Arbitration.Node {
    Arbitration.Node(s.tables, s.log, [], s.closed)
  }

  /** What is left to do in a call of `disconnect`. */
  function OwedByCall(call: Call, n: Arbitration.Node): Arbitration.Node {
    match call
    case NoCall => n
    case Lookup(id) => Arbitration.Disconnect(n, id)
    case Check(held) => Arbitration.Disconnect(n, held.id)
    case Take(held) => Arbitration.Disconnect(n, held.id)
    case MarkClosed(gone) => n.(log := n.log + [Stats.Closed(gone.id)], shut := n.shut + {gone.id})
    case RecordClosed(gone) => n.(log := n.log + [Stats.Closed(gone.id)])
    case Announce(_) => n
  }

  /** What is left to do in an activation. */
  function OwedByStage(local: NodeId, c: Conn, stage: Stage, n: Arbitration.Node): Arbitration.Node {
    match stage
    case Arbitrating => Arbitration.Activate(local, n, c)
    case Inserting => Arbitration.Admit(n, c)
    case Recording => n.(log := n.log + [Stats.Established(c.id)])
    case Discarding => Arbitration.Discard(n, c)
    case Rejecting => n.(shut := n.shut + {c.id})
    case Announcing => n
    case Spawning => n
    case Accepted => n
    case Rejected => n
  }

  /** The activation of a session is under way, and what it has found so far still holds. */
  ghost predicate UnderWay(s: State, c: Conn) {
    && Activation(c.id) in s.threads
    && var th := s.threads[Activation(c.id)];
       && th.pc.ActivateAt? && th.pc.c == c && (th.call != NoCall ==> th.pc.stage == Inserting)
       && WellFormed(s.tables)
       && (c.id in s.tables.byId <==> LifecycleInvariant.Taken(th.pc.stage))
       && (th.call.Check? || th.call.Take? ==> th.call.held.id in s.tables.byId && s.tables.byId[th.call.held.id] == th.call.held)
  }

  /** Where the books will stand when the activation is done. */
  ghost function Outcome(s: State, c: Conn): Arbitration.Node
    requires UnderWay(s, c)
  {
    var th := s.threads[Activation(c.id)];
    OwedByStage(s.local, c, th.pc.stage, OwedByCall(th.call, NodeOf(s)))
  }

  function CallRank(call: Call): nat {
    match call
    case NoCall => 0
    case Announce(_) => 1
    case RecordClosed(_) => 2
    case MarkClosed(_) => 3
    case Take(_) => 4
    case Check(_) => 5
    case Lookup(_) => 6
  }

  function StageRank(stage: Stage): nat {
    match stage
    case Arbitrating => 12
    case Inserting => 5
    case Recording => 4
    case Announcing => 3
    case Spawning => 2
    case Discarding => 2
    case Rejecting => 1
    case Accepted => 0
    case Rejected => 0
  }

  /** Steps left, at most. */
  ghost function Rank(s: State, c: Conn): nat
    requires UnderWay(s, c)
  {
    var th := s.threads[Activation(c.id)];
    StageRank(th.pc.stage) + CallRank(th.call)
  }

  /** A step that brings the activation on and leaves its outcome as it was. */
  ghost predicate Pays(s: State, c: Conn, s': State)
    requires UnderWay(s, c)
  {
    && UnderWay(s', c) && s'.local == s.local && Rank(s', c) < Rank(s, c)
    && var n, n' := Outcome(s, c), Outcome(s', c);
       && n'.tables == n.tables && n'.log == n.log && n'.shut == n.shut
       && s'.duplicates + |n'.discarded| == s.duplicates + |n.discarded|
  }

  lemma CallStepPays(s: State, c: Conn)
    requires UnderWay(s, c) && s.threads[Activation(c.id)].call != NoCall
    ensures Pays(s, c, StepCall(s, Activation(c.id)))
  {
    var t := Activation(c.id);
    var th := s.threads[t];
    var s' := StepCall(s, t);
    if th.call.Take? {
      RemoveKeepsWellFormed(s.tables, th.call.held.id);
    }
    assert OwedByCall(s'.threads[t].call, NodeOf(s')) == OwedByCall(th.call, NodeOf(s));
    hide WellFormed, OwedByCall, Arbitration.Admit, Remove;
  }

  lemma ArbitrationPays(s: State, c: Conn)
    requires UnderWay(s, c) && s.threads[Activation(c.id)] == Thread(ActivateAt(c, Arbitrating), NoCall)
    ensures Pays(s, c, StepActivation(s, Activation(c.id), c, Arbitrating))
  {
    hide Arbitration.Admit, Arbitration.Discard, Arbitration.Disconnect;
    assert WellFormed(s.tables);
    hide WellFormed;
  }

  lemma InsertPays(s: State, c: Conn)
    requires UnderWay(s, c) && s.threads[Activation(c.id)] == Thread(ActivateAt(c, Inserting), NoCall)
    ensures Pays(s, c, StepActivation(s, Activation(c.id), c, Inserting))
  {
    InsertKeepsWellFormed(s.tables, c);
    hide WellFormed;
  }

  lemma StageStepPays(s: State, c: Conn)
    requires UnderWay(s, c) && s.threads[Activation(c.id)].call == NoCall
    requires StageRank(s.threads[Activation(c.id)].pc.stage) > 0
    ensures Pays(s, c, StepActivation(s, Activation(c.id), c, s.threads[Activation(c.id)].pc.stage))
  {
    var stage := s.threads[Activation(c.id)].pc.stage;
    if stage == Arbitrating {
      ArbitrationPays(s, c);
    } else if stage == Inserting {
      InsertPays(s, c);
    } else {
      hide WellFormed;
    }
  }

  /** The activation is done, the books stand like this, and every discarded duplicate has been counted. */
  ghost predicate DoneWith(s: State, c: Conn, n: Arbitration.Node, duplicates: nat) {
    && UnderWay(s, c)
    && s.threads[Activation(c.id)] == Thread(ActivateAt(c, if c.id in n.tables.byId then Accepted else Rejected), NoCall)
    && s.tables == n.tables && s.log == n.log && s.closed == n.shut
    && s.duplicates == duplicates + |n.discarded|
  }

  lemma StepPays(s: State, c: Conn)
    requires UnderWay(s, c) && Rank(s, c) > 0
    ensures Pays(s, c, StepOf(s, Activation(c.id), NO_CHOICE))
  {
    hide Pays, StepCall, StepActivation, WellFormed;
    if s.threads[Activation(c.id)].call != NoCall {
      CallStepPays(s, c);
    } else {
      StageStepPays(s, c);
    }
  }

  lemma NothingOwedIsDone(s: State, c: Conn)
    requires UnderWay(s, c) && Rank(s, c) == 0
    ensures DoneWith(s, c, Outcome(s, c), s.duplicates)
  {
    hide WellFormed;
  }

  lemma DoneWithTheSame(s: State, c: Conn, n: Arbitration.Node, duplicates: nat, n': Arbitration.Node, duplicates': nat)
    requires DoneWith(s, c, n, duplicates)
    requires n'.tables == n.tables && n'.log == n.log && n'.shut == n.shut
    requires duplicates' + |n'.discarded| == duplicates + |n.discarded|
    ensures DoneWith(s, c, n', duplicates')
  {
    hide UnderWay;
  }

  /** An activation left alone comes to its outcome. */
  lemma {:induction false} OutcomeIsReached(s: State, c: Conn) returns (n: nat)
    requires UnderWay(s, c)
    ensures DoneWith(Alone(s, Activation(c.id), n), c, Outcome(s, c), s.duplicates)
    decreases Rank(s, c)
  {
    var t := Activation(c.id);
    if Rank(s, c) == 0 {
      NothingOwedIsDone(s, c);
      return 0;
    }
    StepPays(s, c);
    assert t in s.threads;
    hide UnderWay, Outcome, Rank, StepOf, DoneWith;
    var s' := StepOf(s, t, NO_CHOICE);
    var rest := OutcomeIsReached(s', c);
    assert Alone(s, t, rest + 1) == Alone(s', t, rest);
    n := rest + 1;
    DoneWithTheSame(Alone(s', t, rest), c, Outcome(s', c), s'.duplicates, Outcome(s, c), s.duplicates);
  }

  /** The activation of a new session that no other task interrupts ends in what the atomic one leads to. */
  lemma UninterruptedActivationIsAtomic(s: State, c: Conn)
    requires Activation(c.id) in s.threads && s.threads[Activation(c.id)] == Thread(ActivateAt(c, Arbitrating), NoCall)
    requires WellFormed(s.tables) && c.id !in s.tables.byId
    ensures exists n: nat ::
              DoneWith(Alone(s, Activation(c.id), n), c, Arbitration.Activate(s.local, NodeOf(s), c), s.duplicates)
  {
    hide WellFormed;
    var n := OutcomeIsReached(s, c);
  }
}
