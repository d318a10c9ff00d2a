/**
 What can overtake an activation between its lookup and its insert, which are two locks
 (mod.rs:386-431). A newcomer that won its arbitration, or met no session, is still discarded
 by the insert in some runs. It is then for a session that was put in since the lookup, never
 for one that the lookup met.
 */
module Overtaking {
  import opened Addresses
  import Arbitration
  import opened Sessions
  import opened Registry
  import opened Lifecycle
  import opened LifecycleInvariant
  import opened LifecycleResults
  import opened ShutdownSignal

  // ------------------------------------------------------------------
  // A session once admitted is the same for good
  // ------------------------------------------------------------------

  lemma CallKeepsAdmitted(s: State, t: Tid, d: Conn)
    requires t in s.threads && Admitted(s, d)
    ensures Admitted(StepCall(s, t), d)
  {
    CallStaysInPlace(s, t);
    hide StepCall;
  }

  lemma ActivationKeepsAdmitted(s: State, c: Conn, stage: Stage, d: Conn)
    requires Activating(s, c, stage) && Admitted(s, d)
    ensures Admitted(StepActivation(s, Activation(c.id), c, stage), d)
  {
  }

  lemma OtherKeepsAdmitted(s: State, t: Tid, s': State, d: Conn)
    requires !t.Activation? && t in s'.threads && s'.threads == s.threads[t := s'.threads[t]] && Admitted(s, d)
    ensures Admitted(s', d)
  {
  }

  lemma StepKeepsAdmitted(s: State, t: Tid, ch: Choice, d: Conn)
    requires Inv(s) && CanStep(s, t, ch) && Admitted(s, d)
    ensures Admitted(StepOf(s, t, ch), d)
  {
    hide Core, Lists, Admitted, StepCall, StepActivation;
    TaskFacts(s, t);
    if s.threads[t].call != NoCall {
      CallKeepsAdmitted(s, t, d);
    } else if t.Activation? {
      ActivationKeepsAdmitted(s, s.threads[t].pc.c, s.threads[t].pc.stage, d);
    } else {
      OtherKeepsAdmitted(s, t, StepOf(s, t, ch), d);
    }
  }

  lemma ActionKeepsAdmitted(s: State, a: Action, d: Conn)
    requires Inv(s) && Enabled(s, a) && Admitted(s, d)
    ensures Admitted(Perform(s, a), d)
  {
    hide Core, CanStep;
    if a.Step? {
      StepKeepsAdmitted(s, a.t, a.ch, d);
    }
  }

  lemma {:induction false} AdmittedForGood(s: State, run: seq<Action>, d: Conn)
    requires Inv(s) && Legal(s, run) && Admitted(s, d)
    ensures Admitted(After(s, run), d)
    decreases |run|
  {
    hide Inv, Enabled, Perform, Admitted;
    if run != [] {
      ActionKeepsInv(s, run[0]);
      ActionKeepsAdmitted(s, run[0], d);
      AdmittedForGood(Perform(s, run[0]), run[1..], d);
    }
  }

  // ------------------------------------------------------------------
  // Between lookup and insert
  // ------------------------------------------------------------------

  /**
   Past its lookup, the activation of c either is still to take out the session d, which it has
   met there, or finds it gone by the time of its insert.
   */
  ghost predicate Clears(s: State, c: Conn, d: Conn) {
    && Admitted(s, d) && d.id != c.id && Activation(c.id) in s.threads
    && var th := s.threads[Activation(c.id)];
       && th.pc.ActivateAt? && th.pc.c == c && th.pc.stage != Arbitrating
       && (th.pc.stage == Inserting && d.id in s.tables.byId ==> BeforeRemoval(th.call, d.id))
  }

  /** A step inside the activation's own call of `disconnect`. */
  lemma OwnCallClears(s: State, c: Conn, d: Conn)
    requires Core(s) && Clears(s, c, d) && s.threads[Activation(c.id)].call != NoCall
    ensures Clears(StepCall(s, Activation(c.id)), c, d)
  {
    hide Core;
    TaskFacts(s, Activation(c.id));
    if d.id in s.tables.byId {
      HeldIsRegistered(s, d);
    }
  }

  lemma OwnStageClears(s: State, c: Conn, d: Conn, stage: Stage)
    requires Clears(s, c, d) && Activating(s, c, stage)
    ensures Clears(StepActivation(s, Activation(c.id), c, stage), c, d)
  {
  }

  /** A step of any other task. */
  lemma OtherTaskClears(s: State, s': State, c: Conn, d: Conn)
    requires Clears(s, c, d) && Admitted(s', d)
    requires Activation(c.id) in s'.threads && s'.threads[Activation(c.id)] == s.threads[Activation(c.id)]
    requires Gone(s, d.id) ==> Gone(s', d.id)
    ensures Clears(s', c, d)
  {
  }

  lemma OtherActivation(s: State, x: Conn, stage: Stage, c: Conn)
    requires Activating(s, x, stage) && Activation(c.id) in s.threads && x.id != c.id
    ensures var s' := StepActivation(s, Activation(x.id), x, stage);
            Activation(c.id) in s'.threads && s'.threads[Activation(c.id)] == s.threads[Activation(c.id)]
  {
  }

  /** No task but the activation itself moves it. */
  lemma OthersLeaveItAlone(s: State, t: Tid, ch: Choice, c: Conn)
    requires Inv(s) && CanStep(s, t, ch) && Activation(c.id) in s.threads && t != Activation(c.id)
    ensures var s' := StepOf(s, t, ch);
            Activation(c.id) in s'.threads && s'.threads[Activation(c.id)] == s.threads[Activation(c.id)]
  {
    hide Core, Lists, StepCall, StepActivation;
    TaskFacts(s, t);
    if s.threads[t].call != NoCall {
      CallStaysInPlace(s, t);
    } else if t.Activation? {
      OtherActivation(s, s.threads[t].pc.c, s.threads[t].pc.stage, c);
    }
  }

  lemma ClearsFacts(s: State, c: Conn, d: Conn)
    requires Clears(s, c, d)
    ensures Admitted(s, d) && d.id != c.id && Activation(c.id) in s.threads
    ensures s.threads[Activation(c.id)].pc.ActivateAt? && s.threads[Activation(c.id)].pc.c == c
  {
  }

  lemma StepClears(s: State, t: Tid, ch: Choice, c: Conn, d: Conn)
    requires Inv(s) && CanStep(s, t, ch) && Clears(s, c, d)
    ensures Clears(StepOf(s, t, ch), c, d)
  {
    hide Core, Lists, Clears, Gone, Admitted, StepCall, StepActivation, StepAttempt, StepDown, StepLoop, StepAcceptor;
    ClearsFacts(s, c, d);
    TaskFacts(s, t);
    var th := s.threads[t];
    if t == Activation(c.id) {
      if th.call != NoCall {
        OwnCallClears(s, c, d);
      } else {
        OwnStageClears(s, c, d, th.pc.stage);
      }
    } else {
      OthersLeaveItAlone(s, t, ch, c);
      StepKeepsAdmitted(s, t, ch, d);
      if Gone(s, d.id) {
        StepKeepsGone(s, t, ch, d.id);
      }
      OtherTaskClears(s, StepOf(s, t, ch), c, d);
    }
  }

  lemma ActionClears(s: State, a: Action, c: Conn, d: Conn)
    requires Inv(s) && Enabled(s, a) && Clears(s, c, d)
    ensures Clears(Perform(s, a), c, d)
  {
    hide Core, CanStep, StepOf;
    if a.Step? {
      hide Clears;
      StepClears(s, a.t, a.ch, c, d);
    }
  }

  lemma {:induction false} RunClears(s: State, run: seq<Action>, c: Conn, d: Conn)
    requires Inv(s) && Legal(s, run) && Clears(s, c, d)
    ensures Inv(After(s, run)) && Clears(After(s, run), c, d)
    decreases |run|
  {
    hide Inv, Enabled, Perform, Clears;
    if run != [] {
      ActionKeepsInv(s, run[0]);
      ActionClears(s, run[0], c, d);
      RunClears(Perform(s, run[0]), run[1..], c, d);
    }
  }

  /** The lookup of an activation that goes on to its insert: what it has met it is about to take out. */
  lemma LookupClears(s: State, c: Conn, ch: Choice, d: Conn)
    requires Inv(s) && Activating(s, c, Arbitrating) && StageIs(StepOf(s, Activation(c.id), ch), c.id, Inserting)
    requires d.id in s.tables.byId && s.tables.byId[d.id] == d && d.peer == c.peer
    ensures Clears(StepOf(s, Activation(c.id), ch), c, d)
  {
    RegisteredFacts(s, d.id);
    TablesWellFormed(s);
    hide Core;
    OneSessionPerPeer(s.tables, d.id, d.id);
  }

  lemma NotClearedAtInsert(s: State, c: Conn, d: Conn)
    requires Clears(s, c, d) && Activating(s, c, Inserting)
    ensures d.id !in s.tables.byId
  {
  }

  /** What the lookup has met is not what the insert finds. */
  lemma MetIsCleared(s: State, c: Conn, ch: Choice, run: seq<Action>, id: SessionId)
    requires Inv(s) && Activating(s, c, Arbitrating) && CanStep(s, Activation(c.id), ch)
    requires StageIs(StepOf(s, Activation(c.id), ch), c.id, Inserting)
    requires Legal(StepOf(s, Activation(c.id), ch), run) && Activating(After(StepOf(s, Activation(c.id), ch), run), c, Inserting)
    requires id in s.tables.byId && id in After(StepOf(s, Activation(c.id), ch), run).tables.byId
    ensures After(StepOf(s, Activation(c.id), ch), run).tables.byId[id].peer != c.peer
  {
    var d := s.tables.byId[id];
    var s1 := StepOf(s, Activation(c.id), ch);
    var s2 := After(s1, run);
    RegisteredFacts(s, id);
    ActionKeepsInv(s, Step(Activation(c.id), ch));
    ActionKeepsAdmitted(s, Step(Activation(c.id), ch), d);
    if s2.tables.byId[id].peer == c.peer {
      hide Core, StepOf, Legal, After, Clears;
      RunKeepsInv(s1, run);
      AdmittedForGood(s1, run, d);
      HeldIsRegistered(s2, d);
      LookupClears(s, c, ch, d);
      RunClears(s1, run, c, d);
      NotClearedAtInsert(s2, c, d);
    }
  }

  lemma InsertDiscardsExactly(s: State, c: Conn, ch: Choice)
    requires Inv(s) && Activating(s, c, Inserting)
    ensures StageIs(StepOf(s, Activation(c.id), ch), c.id, Discarding)
            <==> exists id :: id in s.tables.byId && s.tables.byId[id].peer == c.peer
  {
    TablesWellFormed(s);
    hide Core;
  }

  /**
   Take an activation whose lookup lets it go on to its insert, because it met no session of
   its peer or won against the one it met, and any run of all tasks until it is about to make
   that insert. It is discarded there exactly if a session of its peer is registered by then,
   and any such session was put in since the lookup.
   */
  lemma DiscardedOnlyForALaterSession(s: State, c: Conn, ch: Choice, run: seq<Action>, ch': Choice)
    requires Reachable(s) && Activating(s, c, Arbitrating) && StageIs(StepOf(s, Activation(c.id), ch), c.id, Inserting)
    requires Legal(StepOf(s, Activation(c.id), ch), run) && Activating(After(StepOf(s, Activation(c.id), ch), run), c, Inserting)
    ensures var s2 := After(StepOf(s, Activation(c.id), ch), run);
            && (StageIs(StepOf(s2, Activation(c.id), ch'), c.id, Discarding)
                <==> exists id :: id in s2.tables.byId && s2.tables.byId[id].peer == c.peer)
            && forall id :: id in s2.tables.byId && s2.tables.byId[id].peer == c.peer ==> id !in s.tables.byId
  {
    ReachableInv(s);
    var t := Activation(c.id);
    var s1 := StepOf(s, t, ch);
    ActionKeepsInv(s, Step(t, ch));
    RunKeepsInv(s1, run);
    var s2 := After(s1, run);
    InsertDiscardsExactly(s2, c, ch');
    hide Reachable, StepOf, Legal, After;
    forall id | id in s2.tables.byId && s2.tables.byId[id].peer == c.peer
      ensures id !in s.tables.byId
    {
      if id in s.tables.byId {
        MetIsCleared(s, c, ch, run, id);
      }
    }
  }

  const FIRST := Conn(7, 1, SocketAddr(V4(192, 0, 2, 1), 6885), Inbound)
  const SECOND := Conn(8, 1, SocketAddr(V4(192, 0, 2, 1), 6886), Outbound)

  /** Two attempts pass the limit check before either is in. */
  lemma TwoHandshakes() returns (s: State)
    ensures Reachable(s)
    ensures s == Start(0, 1, false).(threads := map[Attempt(0) := Thread(AttemptAt(Handshaking), NoCall),
                                                    Attempt(1) := Thread(AttemptAt(Handshaking), NoCall)])
  {
    var s0 := HandshakeReached();
    hide Reachable;
    Next(s0, Dial(1));
    var s1 := Perform(s0, Dial(1));
    Next(s1, Step(Attempt(1), ANY));
    var s2 := Perform(s1, Step(Attempt(1), ANY));
    Next(s2, Step(Attempt(1), ANY));
    s := Perform(s2, Step(Attempt(1), ANY));
  }

  /** Both are activated, and both lookups meet no session of the peer. */
  lemma TwoLookups() returns (s: State)
    ensures Reachable(s) && s.tables == EMPTY
    ensures Activating(s, FIRST, Inserting) && Activating(s, SECOND, Inserting) && s.local == 0
  {
    var s0 := TwoHandshakes();
    hide Reachable;
    Next(s0, HandshakeDone(0, FIRST));
    var s1 := Perform(s0, HandshakeDone(0, FIRST));
    Next(s1, HandshakeDone(1, SECOND));
    var s2 := Perform(s1, HandshakeDone(1, SECOND));
    Next(s2, Step(Activation(7), ANY));
    var s3 := Perform(s2, Step(Activation(7), ANY));
    Next(s3, Step(Activation(8), ANY));
    s := Perform(s3, Step(Activation(8), ANY));
  }

  /** The one that inserts second is discarded, though it is the one of the expected direction. */
  lemma NewcomerIsOvertaken() returns (s: State)
    ensures Reachable(s) && StageIs(s, SECOND.id, Discarding) && s.tables.byId == map[FIRST.id := FIRST]
    ensures Arbitration.Wins(s.local, SECOND, FIRST)
  {
    var s0 := TwoLookups();
    hide Reachable;
    Next(s0, Step(Activation(7), ANY));
    var s1 := Perform(s0, Step(Activation(7), ANY));
    Next(s1, Step(Activation(8), ANY));
    s := Perform(s1, Step(Activation(8), ANY));
  }
}
