/**
 The session manager object (mod.rs; `spawn_inbound` of acceptor.rs; the per-session round of
 `tick` in heartbeat.rs), with each call run to its end before the next one starts.

 Its registry, counters and closed sessions together form an `Arbitration.Node`, and each
 method moves that value as the functions there say. What threads do to each other between
 the steps of these calls is the subject of `Lifecycle`.
 */
module Manager {
  import opened Wrappers
  import opened Addresses
  import opened Sessions
  import opened Cooldown
  import opened Keepalive
  import opened Expiry
  import opened Filters
  import Frames
  import Transport
  import Streams
  import Registry
  import RegistryStore
  import Stats
  import Arbitration

  datatype DisconnectReason = Local | Remote | IdleTimeout | Replaced | Shutdown | IoFailed

  datatype RejectReason = MaxSessions | Unauthenticated | Duplicate(kept: SessionId) | HandshakeFailed

  datatype Event =
    | Connected(id: SessionId, peer: NodeId, addr: SocketAddr, direction: Direction)
    | Disconnected(id: SessionId, peer: NodeId, reason: DisconnectReason)
    | Rejected(addr: SocketAddr, why: RejectReason)

  /** How a handshake ends: with an identity, verified or not, or not at all. */
  datatype Handshake = Identified(peer: NodeId, verified: bool) | NotIdentified

  datatype SendError = NoSession | Failed(why: Transport.SendError)

  datatype ConnectError = ShuttingDown | LimitReached | AllCooling | DialFailed | NoHandshake | NotVerified

  /** What the clock and the network do during one call of `connect`. */
  datatype Outside = Outside(
    t0: nat, t1: nat, t2: nat, t3: nat,
    firstDial: bool, secondDial: bool,
    remote: Option<SocketAddr>,
    handshake: Handshake)
  {
    predicate Ordered() {
      t0 <= t1 <= t2 <= t3
    }

    /** The address a connection is filed under: the one the stream reports, or else the first candidate. */
    function Remote(usable: seq<SocketAddr>): SocketAddr
      requires usable != []
    {
      if remote.Some? then remote.value else usable[0]
    }

    /** Whom a failed handshake is held against. */
    function Greeted(peer: NodeId): NodeId {
      if handshake.Identified? then handshake.peer else peer
    }

    /** Neither of the dials there are to make goes through. */
    predicate DialsFail(usable: seq<SocketAddr>) {
      !firstDial && (Fallback(usable) == [] || !secondDial)
    }
  }

  /** What `connect` decides before it dials. */
  datatype Plan = Refuse(error: ConnectError) | Reuse(id: SessionId) | Dial(usable: seq<SocketAddr>)

  /** The session of the first listed address that has one. */
  function FirstConnected(t: Registry.Tables, addrs: seq<SocketAddr>): (r: Option<SessionId>)
    ensures r.None? <==> forall a :: a in addrs ==> !(a in t.byAddr && t.byAddr[a] in t.byId)
    ensures r.Some? ==> r.value in t.byId
  {
    if addrs == [] then None
    else
      var last := addrs[|addrs| - 1];
      var front := FirstConnected(t, addrs[..|addrs| - 1]);
      assert addrs == addrs[..|addrs| - 1] + [last];
      if front.Some? then front
      else if last in t.byAddr && t.byAddr[last] in t.byId then Some(t.byAddr[last])
      else None
  }

  /** What the dialler is handed, in order. */
  function DialledLists(usable: seq<SocketAddr>, outside: Outside): seq<seq<SocketAddr>> {
    [Preferred(usable)] + if outside.firstDial || Fallback(usable) == [] then [] else [Fallback(usable)]
  }

  /** What a call of `connect` does with its plan: the dials, the answer, the session put up for arbitration if any, the marks. */
  ghost predicate Answers(plan: Plan, peer: NodeId, outside: Outside, r: Result<SessionId, ConnectError>,
                          dialled: seq<seq<SocketAddr>>, newcomer: Option<Conn>,
                          marks: seq<Entry<Key>>, marks': seq<Entry<Key>>)
  {
    match plan
    case Refuse(error) => r == Err(error) && dialled == [] && newcomer.None? && marks' == marks
    case Reuse(id) => r == Ok(id) && dialled == [] && newcomer.None? && marks' == marks
    case Dial(usable) =>
      && usable != []
      && dialled == DialledLists(usable, outside)
      && (r.Ok? <==> newcomer.Some?)
      && if outside.DialsFail(usable) then
           r == Err(DialFailed) && marks' == AfterFailedDials(marks, peer, usable, outside.t1, outside.t2)
         else
           var tried := if outside.firstDial then marks else marks + MarksFor(peer, Preferred(usable), outside.t1);
           if outside.handshake.Identified? && outside.handshake.verified then
             && newcomer.Some? && marks' == tried
             && newcomer.value == Conn(newcomer.value.id, outside.handshake.peer, outside.Remote(usable), Outbound)
           else
             && r == Err(if outside.handshake.Identified? then NotVerified else NoHandshake)
             && marks' == tried + [Entry((outside.Greeted(peer), outside.Remote(usable)), outside.t3)]
  }

  lemma AnsweredAtOnce(plan: Plan, peer: NodeId, outside: Outside, marks: seq<Entry<Key>>)
    ensures plan.Refuse? ==> Answers(plan, peer, outside, Err(plan.error), [], None, marks, marks)
    ensures plan.Reuse? ==> Answers(plan, peer, outside, Ok(plan.id), [], None, marks, marks)
  {
  }

  lemma FallbackHasTheRest(usable: seq<SocketAddr>)
    ensures Fallback(usable) == [] <==> forall a :: a in usable ==> a in Preferred(usable)
    ensures forall a :: a in Fallback(usable) <==> a in usable && a !in Preferred(usable)
  {
    LevelIsEmpty(usable, 0);
    LevelIsEmpty(usable, 1);
    LevelIsEmpty(usable, 2);
    hide AtLevel;
    forall a | a in usable
      ensures a in AtLevel(usable, Level(a)) && Level(a) <= 2
    {
      LevelsAre(a);
    }
    if Fallback(usable) != [] {
      assert Fallback(usable)[0] in Fallback(usable);
    }
  }

  /**
   The lists a call of `connect` dials: first the usable addresses of the best level there is,
   and only if that fails and there are others, all the others.
   */
  lemma DialledAre(usable: seq<SocketAddr>, peer: NodeId, outside: Outside, r: Result<SessionId, ConnectError>,
                   dialled: seq<seq<SocketAddr>>, newcomer: Option<Conn>, marks: seq<Entry<Key>>, marks': seq<Entry<Key>>)
    requires Answers(Dial(usable), peer, outside, r, dialled, newcomer, marks, marks')
    ensures 1 <= |dialled| <= 2 && dialled[0] != []
    ensures forall a :: a in dialled[0] <==> a in usable && forall b :: b in usable ==> Level(a) <= Level(b)
    ensures |dialled| == 2 <==> !outside.firstDial && exists a :: a in usable && a !in dialled[0]
    ensures |dialled| == 2 ==> forall a :: a in dialled[1] <==> a in usable && a !in dialled[0]
    ensures r == Err(DialFailed) <==> !outside.firstDial && (|dialled| == 2 ==> !outside.secondDial)
  {
    hide Preferred, Fallback, Level;
    BestLevelFirst(usable);
    FallbackHasTheRest(usable);
    DialPlan(usable);
    hide AtLevel;
  }

  /**
   What the call leaves. Both dials failed: each list dialled is marked for the peer asked for,
   at the time its dial ended. Otherwise only the first list may be, and the session, or the
   mark of a handshake that failed, is for the address the stream reports, or else the first
   usable one; that mark is against the peer that the handshake named without proof, or the
   peer asked for if it named none.
   */
  lemma AnswerIs(usable: seq<SocketAddr>, peer: NodeId, outside: Outside, r: Result<SessionId, ConnectError>,
                 dialled: seq<seq<SocketAddr>>, newcomer: Option<Conn>, marks: seq<Entry<Key>>, marks': seq<Entry<Key>>)
    requires Answers(Dial(usable), peer, outside, r, dialled, newcomer, marks, marks')
    ensures usable != [] && 1 <= |dialled| <= 2
    ensures var first := seq(|dialled[0]|, i requires 0 <= i < |dialled[0]| => Entry((peer, dialled[0][i]), outside.t1));
            if r == Err(DialFailed) then
              && newcomer.None?
              && marks' == marks + first
                           + if |dialled| == 1 then []
                             else seq(|dialled[1]|, i requires 0 <= i < |dialled[1]| => Entry((peer, dialled[1][i]), outside.t2))
            else
              var addr := if outside.remote.Some? then outside.remote.value else usable[0];
              var tried := if outside.firstDial then marks else marks + first;
              match outside.handshake
              case NotIdentified => r == Err(NoHandshake) && newcomer.None? && marks' == tried + [Entry((peer, addr), outside.t3)]
              case Identified(found, verified) =>
                if verified then r.Ok? && newcomer.Some? && newcomer.value == Conn(newcomer.value.id, found, addr, Outbound) && marks' == tried
                else r == Err(NotVerified) && newcomer.None? && marks' == tried + [Entry((found, addr), outside.t3)]
  {
    hide Preferred, Fallback;
    DialPlan(usable);
    hide AtLevel, Level;
    assert MarksFor(peer, [], outside.t2) == [];
  }

  lemma {:induction false} FirstConnectedStays(t: Registry.Tables, addrs: seq<SocketAddr>, i: nat)
    requires i < |addrs| && FirstConnected(t, addrs[..i + 1]).Some? && FirstConnected(t, addrs[..i]).None?
    ensures FirstConnected(t, addrs) == FirstConnected(t, addrs[..i + 1]) == Some(t.byAddr[addrs[i]])
    decreases |addrs|
  {
    assert addrs[..i + 1][..i] == addrs[..i];
    if i + 1 == |addrs| {
      assert addrs[..i + 1] == addrs;
    } else {
      var front := addrs[..|addrs| - 1];
      assert front[..i + 1] == addrs[..i + 1] && front[..i] == addrs[..i];
      FirstConnectedStays(t, front, i);
    }
  }

  /** The life of one session as the event stream tells it. */
  function Told(e: Event): seq<Stats.Entry> {
    match e
    case Connected(id, _, _, _) => [Stats.Established(id)]
    case Disconnected(id, _, _) => [Stats.Closed(id)]
    case Rejected(_, _) => []
  }

  function Story(events: seq<Event>): seq<Stats.Entry> {
    if events == [] then [] else Story(events[..|events| - 1]) + Told(events[|events| - 1])
  }

  predicate IsRefusal(e: Event) {
    e.Rejected? && !e.why.Duplicate?
  }

  /** How many incoming connections the events report as turned away before arbitration. */
  function Refusals(events: seq<Event>): nat {
    if events == [] then 0
    else Refusals(events[..|events| - 1]) + if IsRefusal(events[|events| - 1]) then 1 else 0
  }

  lemma StorySnoc(events: seq<Event>, e: Event)
    ensures Story(events + [e]) == Story(events) + Told(e)
    ensures Refusals(events + [e]) == Refusals(events) + if IsRefusal(e) then 1 else 0
  {
    assert (events + [e])[..|events|] == events;
  }

  /** What `shutdown` announces. */
  ghost function Farewells(all: seq<Session>): seq<Event> {
    seq(|all|, i requires 0 <= i < |all| => Disconnected(all[i].conn.id, all[i].conn.peer, Shutdown))
  }

  lemma OneMoreAtMost(after: set<SessionId>, before: set<SessionId>, id: SessionId)
    requires after <= before + {id}
    ensures |after| <= |before| + 1
  {
    var less := after - {id};
    assert before == less + (before - less);
    assert |after| <= |less| + 1 by {
      assert id in after ==> after == less + {id};
    }
  }

  class SessionManager {
    const localId: NodeId
    const maxSessions: nat
    const idleTimeout: nat
    const heartbeatInterval: nat
    const heartbeatKind: Option<nat>
    const heartbeatReplyKind: Option<nat>
    const registry: RegistryStore.SessionRegistry
    const stats: Stats.SessionStats
    const cooldown: CooldownTable
    var shuttingDown: bool
    var events: seq<Event>
    /** Every session ever activated here. */
    ghost var known: map<SessionId, Session>
    ghost var discarded: seq<SessionId>
    /** Sessions taken out of the registry in the call under way, and not closed yet. */
    ghost var retiring: set<SessionId>
    /** How often `connect` found a session to reuse, which is counted as a discarded duplicate too. */
    ghost var reused: nat

    ghost function View(): Arbitration.Node
      reads this`known, this`discarded, registry, stats`log
    {
      Arbitration.Node(registry.View(), stats.log, discarded, known.Keys - registry.byId.Keys)
    }

    /** What an event says of a session is true of the session of that identifier. */
    ghost predicate TellsTrue(e: Event)
      reads this`known
    {
      match e
      case Connected(id, peer, addr, direction) => id in known && known[id].conn == Conn(id, peer, addr, direction)
      case Disconnected(id, peer, _) => id in known && known[id].conn.peer == peer
      case Rejected(_, why) => why.Duplicate? ==> why.kept in known
    }

    ghost predicate EventsTellTrue()
      reads this`events, this`known
    {
      forall i :: 0 <= i < |events| ==> TellsTrue(events[i])
    }

    /**
     The counters, the events and the registry tell the same story, but for sessions taken out
     and not yet counted, and so many that are registered and not yet counted.
     */
    ghost predicate BooksAgreeBut(uncounted: nat)
      reads this`events, this`known, this`discarded, this`reused, this`retiring, registry`byId, stats
    {
      && stats.Valid() && EventsTellTrue()
      && stats.log == Story(events)
      && stats.active + uncounted == |registry.byId| + |retiring| && stats.established == stats.closed + stats.active
      && stats.duplicateDiscarded == |discarded| + reused
      && stats.inboundRejected == Refusals(events)
    }

    ghost predicate BooksAgree()
      reads this`events, this`known, this`discarded, this`reused, this`retiring, registry`byId, stats
    {
      BooksAgreeBut(0)
    }

    /** A session is open exactly as long as it is registered or about to be closed. */
    ghost predicate SessionsAgree()
      reads this`known, this`retiring, registry`byId, known.Values`closed
    {
      && (forall id :: id in registry.byId ==> id in known && known[id] == registry.byId[id] && id !in retiring)
      && (forall id :: id in known ==> known[id].conn.id == id)
      && (forall id :: id in known ==> (known[id].closed <==> id !in registry.byId && id !in retiring))
      && retiring <= known.Keys
    }

    ghost predicate Valid()
      reads this, registry, stats, known.Values`closed
    {
      registry.Valid() && BooksAgree() && SessionsAgree() && retiring == {}
    }

    ghost function Transports(): set<Transport.FrameTransport>
      reads this`known
    {
      set id | id in known :: known[id].transport
    }

    /** Every session, past ones included, has a stream to itself, which holds what was written to it. */
    ghost predicate StreamsValid()
      reads this`known, Transports()`wire, Transports()`writes
    {
      && (forall i, j :: i in known && j in known && i != j ==> known[i].transport != known[j].transport)
      && (forall id :: id in known ==> known[id].transport.WireValid())
    }

    /** Every write ever made on the stream of each session, past ones included. */
    ghost function Writes(): map<SessionId, seq<Transport.Write>>
      reads this`known, Transports()`writes
    {
      map id | id in known :: known[id].transport.writes
    }

    /** The sessions and their streams as a value: each method is a call, or several, of `Streams`. */
    ghost function Lines(): Streams.Lines
      reads this`known, registry`byId, Transports()`writes
    {
      Streams.Lines(registry.byId.Keys, Writes())
    }

    /** The registered sessions that have part of a frame on their stream. */
    ghost function Torn(): set<SessionId>
      reads this`known, registry`byId, Transports()`writes
    {
      Streams.Torn(Lines())
    }

    /** On no stream, of past sessions neither, does anything follow part of a frame. */
    ghost predicate NothingFollowsACut()
      reads this`known, registry`byId, Transports()`writes
    {
      Streams.NothingFollowsACut(Lines())
    }

    lemma FreshIsValid()
      requires registry.Valid() && registry.View() == Registry.EMPTY && registry.byId == map[]
      requires stats.Valid() && stats.log == [] && stats.duplicateDiscarded == 0 && stats.inboundRejected == 0
      requires known == map[] && events == [] && discarded == [] && retiring == {} && reused == 0
      ensures Valid() && View() == Arbitration.FRESH && Lines() == Streams.NO_LINES
    {
      hide RegistryStore.SessionRegistry.Valid;
      assert Writes() == map[];
    }

    constructor (localId: NodeId, maxSessions: nat, addrCooldown: nat, idleTimeout: nat, heartbeatInterval: nat,
                 heartbeatKind: Option<nat>, heartbeatReplyKind: Option<nat>)
      ensures Valid() && cooldown.Valid() && View() == Arbitration.FRESH
      ensures this.localId == localId && this.maxSessions == maxSessions && cooldown.span == addrCooldown
      ensures known == map[] && events == [] && !shuttingDown && Lines() == Streams.NO_LINES
      ensures fresh(registry) && fresh(stats) && fresh(cooldown)
      ensures this.heartbeatKind == heartbeatKind && this.heartbeatReplyKind == heartbeatReplyKind
    {
      hide *;
      this.localId, this.maxSessions, this.idleTimeout := localId, maxSessions, idleTimeout;
      this.heartbeatInterval, this.heartbeatKind, this.heartbeatReplyKind := heartbeatInterval, heartbeatKind, heartbeatReplyKind;
      registry := new RegistryStore.SessionRegistry();
      stats := new Stats.SessionStats();
      cooldown := new CooldownTable(addrCooldown);
      shuttingDown, events := false, [];
      known, discarded, retiring, reused := map[], [], {}, 0;
      new;
      FreshIsValid();
    }

    /** The session was activated here, and may be registered still or not. */
    ghost predicate Holds(s: Session)
      reads this`known
    {
      s.conn.id in known && known[s.conn.id] == s
    }

    lemma LinesValid()
      requires SessionsAgree() && StreamsValid()
      ensures Streams.Valid(Lines()) && Lines().open == registry.byId.Keys && Lines().writes == Writes()
    {
    }

    twostate lemma TornKept()
      requires Lines() == old(Lines())
      ensures Torn() == old(Torn()) && NothingFollowsACut() == old(NothingFollowsACut())
    {
    }

    twostate lemma WritesKept()
      requires known == old(known)
      requires forall id :: id in known ==> unchanged(known[id].transport`writes)
      ensures Writes() == old(Writes())
    {
    }

    /** The sessions known before are known still. */
    twostate lemma StillTrue()
      requires old(EventsTellTrue()) && events == old(events)
      requires forall id :: id in old(known) ==> id in known && known[id] == old(known[id])
      ensures EventsTellTrue()
    {
      forall i | 0 <= i < |events|
        ensures TellsTrue(events[i])
      {
        assert old(TellsTrue(events[i]));
      }
    }

    twostate lemma OneMoreIsTrue(e: Event)
      requires old(EventsTellTrue()) && events == old(events) + [e] && TellsTrue(e)
      requires forall id :: id in old(known) ==> id in known && known[id] == old(known[id])
      ensures EventsTellTrue()
    {
      forall i | 0 <= i < |events|
        ensures TellsTrue(events[i])
      {
        if i < |old(events)| {
          assert old(TellsTrue(events[i]));
        }
      }
    }

    twostate lemma ClosingAgrees(id: SessionId)
      requires old(SessionsAgree()) && known == old(known) && registry.byId == old(registry.byId)
      requires forall i :: i in known && i != id ==> known[i].closed == old(known[i].closed)
      requires id in old(retiring) && known[id].closed && retiring == old(retiring) - {id}
      ensures SessionsAgree()
    {
    }

    twostate lemma CountingAgrees(e: Event)
      requires old(BooksAgree()) && stats.Valid() && |Told(e)| == 1 && Told(e)[0].Closed?
      requires stats.log == old(stats.log) + Told(e) && stats.duplicateDiscarded == old(stats.duplicateDiscarded)
      requires stats.inboundRejected == old(stats.inboundRejected)
      requires events == old(events) + [e] && discarded == old(discarded) && reused == old(reused)
      requires registry.byId == old(registry.byId) && |retiring| + 1 == |old(retiring)|
      requires known == old(known) && TellsTrue(e)
      ensures BooksAgree()
    {
      OneMoreIsTrue(e);
      hide TellsTrue, EventsTellTrue;
      StorySnoc(old(events), e);
      assert stats.log[..|old(stats.log)|] == old(stats.log);
    }

    twostate lemma TakingOutAgrees(id: SessionId)
      requires old(SessionsAgree()) && old(retiring) == {} && id in old(registry.byId)
      requires registry.byId == old(registry.byId) - {id} && retiring == {id}
      requires known == old(known) && forall i :: i in known ==> known[i].closed == old(known[i].closed)
      ensures SessionsAgree()
    {
    }

    twostate lemma TakingOutIsNotYetCounted(id: SessionId)
      requires old(BooksAgree()) && old(retiring) == {} && id in old(registry.byId)
      requires registry.byId == old(registry.byId) - {id} && retiring == {id}
      requires events == old(events) && known == old(known)
      requires discarded == old(discarded) && reused == old(reused) && unchanged(stats)
      ensures BooksAgree()
    {
      StillTrue();
      assert registry.byId.Keys == old(registry.byId).Keys - {id};
    }

    lemma RegisteredAreKnown()
      requires SessionsAgree()
      ensures registry.byId.Keys <= known.Keys
    {
    }

    lemma StatsAreValid()
      requires BooksAgree()
      ensures stats.Valid()
    {
    }

    lemma OthersAreOthers(id: SessionId)
      requires SessionsAgree() && id in known
      ensures forall i :: i in known && i != id ==> known[i] != known[id]
    {
    }

    /** The rest of `disconnect`: a session just taken out of the registry is closed, counted and announced. */
    method Retire(gone: Session, reason: DisconnectReason)
      requires BooksAgree() && SessionsAgree()
      requires gone.conn.id in retiring && known[gone.conn.id] == gone
      modifies this`events, this`retiring, stats, gone`closed
      ensures BooksAgree() && SessionsAgree()
      ensures gone.closed && retiring == old(retiring) - {gone.conn.id}
      ensures stats.log == old(stats.log) + [Stats.Closed(gone.conn.id)]
      ensures stats.inboundRejected == old(stats.inboundRejected)
      ensures events == old(events) + [Disconnected(gone.conn.id, gone.conn.peer, reason)]
    {
      assert stats.Valid();
      OthersAreOthers(gone.conn.id);
      assert Told(Disconnected(gone.conn.id, gone.conn.peer, reason)) == [Stats.Closed(gone.conn.id)];
      assert gone.conn.id in known && TellsTrue(Disconnected(gone.conn.id, gone.conn.peer, reason));
      hide *;
      gone.MarkClosed();
      retiring := retiring - {gone.conn.id};
      ClosingAgrees(gone.conn.id);
      stats.RecordClosed(gone.conn.id);
      events := events + [Disconnected(gone.conn.id, gone.conn.peer, reason)];
      CountingAgrees(Disconnected(gone.conn.id, gone.conn.peer, reason));
    }

    twostate lemma ViewAfterDisconnect(id: SessionId)
      requires id in old(registry.byId) && id in known && registry.byId == old(registry.byId) - {id}
      requires registry.View() == Registry.Remove(old(registry.View()), id)
      requires stats.log == old(stats.log) + [Stats.Closed(id)] && known == old(known) && discarded == old(discarded)
      ensures View() == Arbitration.Disconnect(old(View()), id)
    {
      assert registry.byId.Keys == old(registry.byId).Keys - {id};
    }

    /** The first half of `disconnect`: the lookup, and the removal of the very session found. */
    method TakeOut(id: SessionId) returns (taken: Option<Session>)
      requires Valid()
      modifies this`retiring, registry
      ensures registry.Valid() && BooksAgree() && SessionsAgree()
      ensures taken == if id in old(registry.byId) then Some(old(registry.byId)[id]) else None
      ensures retiring == if taken.Some? then {id} else {}
      ensures taken.Some? ==> taken.value.conn.id == id && id in known && known[id] == taken.value
      ensures registry.View() == Registry.Remove(old(registry.View()), id) && registry.byId == old(registry.byId) - {id}
      ensures taken.None? ==> registry.View() == old(registry.View()) && registry.byId == old(registry.byId)
    {
      assert id in registry.byId ==> id in known && known[id] == registry.byId[id] && known[id].conn.id == id;
      hide SessionsAgree, BooksAgree, RegistryStore.SessionRegistry.Valid;
      var found := registry.GetById(id);
      if found.None? {
        return None;
      }
      taken := registry.RemoveIf(id, found.value);
      if taken.None? {
        assert false;
        return;
      }
      retiring := {id};
      TakingOutAgrees(id);
      TakingOutIsNotYetCounted(id);
    }

    /** `disconnect`: idempotent; a session leaves the registry, is closed, counted and announced in one go. */
    method Disconnect(id: SessionId, reason: DisconnectReason)
      requires Valid()
      modifies this`events, this`retiring, registry, stats, known.Values`closed
      ensures Valid()
      ensures View() == Arbitration.Disconnect(old(View()), id)
      ensures registry.byId == old(registry.byId) - {id} && Writes() == old(Writes())
      ensures Lines() == Streams.Take(old(Lines()), Streams.Gone({id}))
      ensures events == old(events) + if id in old(registry.byId)
                                      then [Disconnected(id, old(registry.byId)[id].conn.peer, reason)] else []
      ensures stats.inboundRejected == old(stats.inboundRejected)
    {
      hide SessionsAgree, BooksAgree, RegistryStore.SessionRegistry.Valid, Registry.Remove;
      var taken := TakeOut(id);
      if taken.Some? {
        Retire(taken.value, reason);
        ViewAfterDisconnect(id);
        hide View, Arbitration.Disconnect;
      }
      WritesKept();
      hide Writes;
    }

    twostate lemma NewcomerAgrees(id: SessionId)
      requires old(SessionsAgree()) && id !in old(known) && retiring == old(retiring) == {}
      requires id in known && known == old(known)[id := known[id]] && known[id].conn.id == id
      requires forall i :: i in old(known) ==> known[i].closed == old(known[i].closed)
      requires known[id].closed ==> registry.byId == old(registry.byId)
      requires !known[id].closed ==> registry.byId == old(registry.byId)[id := known[id]]
      ensures SessionsAgree()
    {
    }

    twostate lemma DuplicateIsCounted(e: Event)
      requires old(BooksAgree()) && stats.Valid() && stats.log == old(stats.log) && Told(e) == [] && !IsRefusal(e)
      requires stats.inboundRejected == old(stats.inboundRejected)
      requires stats.duplicateDiscarded == old(stats.duplicateDiscarded) + 1 && |discarded| == |old(discarded)| + 1
      requires events == old(events) + [e] && reused == old(reused) && retiring == old(retiring)
      requires registry.byId == old(registry.byId)
      requires (forall id :: id in old(known) ==> id in known && known[id] == old(known[id])) && TellsTrue(e)
      ensures BooksAgree()
    {
      OneMoreIsTrue(e);
      hide TellsTrue, EventsTellTrue;
      StorySnoc(old(events), e);
    }

    twostate lemma InsertedIsNotYetCounted(id: SessionId)
      requires old(BooksAgree()) && id !in old(registry.byId) && id in registry.byId
      requires registry.byId == old(registry.byId)[id := registry.byId[id]]
      requires forall i :: i in old(known) ==> i in known && known[i] == old(known[i])
      requires events == old(events) && discarded == old(discarded) && reused == old(reused) && retiring == old(retiring) && unchanged(stats)
      ensures BooksAgreeBut(1)
    {
      StillTrue();
      assert registry.byId.Keys == old(registry.byId).Keys + {id};
    }

    twostate lemma EstablishedIsCounted(e: Event)
      requires old(BooksAgreeBut(1)) && stats.Valid() && e.Connected?
      requires stats.log == old(stats.log) + Told(e) && stats.duplicateDiscarded == old(stats.duplicateDiscarded)
      requires stats.inboundRejected == old(stats.inboundRejected)
      requires discarded == old(discarded) && events == old(events) + [e] && reused == old(reused) && retiring == old(retiring)
      requires registry.byId == old(registry.byId) && known == old(known) && TellsTrue(e)
      ensures BooksAgree()
    {
      OneMoreIsTrue(e);
      hide TellsTrue, EventsTellTrue;
      StorySnoc(old(events), e);
      assert stats.log[..|old(stats.log)|] == old(stats.log);
    }

    /** A newcomer that is not kept: closed, counted as a duplicate, and reported with the session that stays. */
    method DiscardDuplicate(session: Session, kept: SessionId)
      requires Valid() && session.conn.id !in known && session !in known.Values && kept in known
      modifies this`events, this`known, this`discarded, stats, session`closed
      ensures Valid() && session.closed
      ensures View() == Arbitration.Discard(old(View()), session.conn)
      ensures known == old(known)[session.conn.id := session]
      ensures events == old(events) + [Rejected(session.conn.addr, Duplicate(kept))]
      ensures stats.inboundRejected == old(stats.inboundRejected)
    {
      ghost var id := session.conn.id;
      hide SessionsAgree, BooksAgree, RegistryStore.SessionRegistry.Valid, EventsTellTrue, Stats.SessionStats.Valid;
      StatsAreValid();
      RegisteredAreKnown();
      stats.RecordDuplicateDiscarded();
      session.MarkClosed();
      events := events + [Rejected(session.conn.addr, Duplicate(kept))];
      known, discarded := known[id := session], discarded + [id];
      DuplicateIsCounted(Rejected(session.conn.addr, Duplicate(kept)));
      NewcomerAgrees(id);
    }

    twostate lemma ViewAfterAdmit(c: Conn)
      requires Registry.GetByPeer(old(registry.View()), c.peer).None?
      requires registry.View() == Registry.Insert(old(registry.View()), c)
      requires c.id in registry.byId && registry.byId == old(registry.byId)[c.id := registry.byId[c.id]]
      requires c.id !in old(known) && c.id in known && known == old(known)[c.id := known[c.id]]
      requires stats.log == old(stats.log) + [Stats.Established(c.id)] && discarded == old(discarded)
      ensures View() == Arbitration.Admit(old(View()), c)
    {
      assert known.Keys - registry.byId.Keys == old(known).Keys - old(registry.byId).Keys;
    }

    /** A session just registered is counted and announced. */
    method Announce(session: Session)
      requires registry.Valid() && SessionsAgree() && BooksAgreeBut(1) && retiring == {}
      requires session.conn.id in known && known[session.conn.id] == session
      modifies this`events, stats
      ensures Valid()
      ensures events == old(events) + [Connected(session.conn.id, session.conn.peer, session.conn.addr, session.conn.direction)]
      ensures stats.log == old(stats.log) + [Stats.Established(session.conn.id)]
      ensures stats.inboundRejected == old(stats.inboundRejected)
    {
      ghost var e := Connected(session.conn.id, session.conn.peer, session.conn.addr, session.conn.direction);
      assert stats.Valid() && Told(e) == [Stats.Established(session.conn.id)] && TellsTrue(e);
      hide SessionsAgree, BooksAgreeBut, RegistryStore.SessionRegistry.Valid;
      stats.RecordEstablished(session.conn.id);
      events := events + [Connected(session.conn.id, session.conn.peer, session.conn.addr, session.conn.direction)];
      EstablishedIsCounted(e);
    }

    /** The registration itself: done, and not yet counted, or refused with the session that is there. */
    method Enlist(session: Session) returns (r: Result<(), Session>)
      requires Valid() && session.conn.id !in known && session !in known.Values && !session.closed
      modifies this`known, registry
      ensures r.Ok? <==> Registry.GetByPeer(old(registry.View()), session.conn.peer).None?
      ensures r.Ok? ==> registry.Valid() && SessionsAgree() && BooksAgreeBut(1) && retiring == {}
      ensures r.Ok? ==> registry.View() == Registry.Insert(old(registry.View()), session.conn)
      ensures r.Ok? ==> registry.byId == old(registry.byId)[session.conn.id := session]
      ensures r.Ok? ==> known == old(known)[session.conn.id := session]
      ensures r.Err? ==> Valid() && View() == old(View()) && known == old(known) && registry.byId == old(registry.byId)
      ensures r.Err? ==> r.error.conn.id in registry.byId && registry.byId[r.error.conn.id] == r.error
      ensures r.Err? ==> r.error.conn.peer == session.conn.peer
      ensures r.Err? ==> Registry.GetByPeer(old(registry.View()), session.conn.peer) == Some(r.error.conn)
    {
      ghost var id := session.conn.id;
      assert id !in registry.byId;
      hide SessionsAgree, BooksAgree, BooksAgreeBut, RegistryStore.SessionRegistry.Valid;
      r := registry.Insert(session);
      if r.Ok? {
        known := known[id := session];
        NewcomerAgrees(id);
        InsertedIsNotYetCounted(id);
      }
    }

    /** The second half of `activate`: the session is registered, counted and announced, unless its peer has one already. */
    method Admit(session: Session) returns (id: SessionId)
      requires Valid() && session.conn.id !in known && session !in known.Values && !session.closed
      modifies this`events, this`known, this`discarded, registry, stats, session`closed
      ensures Valid()
      ensures View() == Arbitration.Admit(old(View()), session.conn)
      ensures stats.inboundRejected == old(stats.inboundRejected)
      ensures known == old(known)[session.conn.id := session]
      ensures registry.byId.Keys <= old(registry.byId).Keys + {session.conn.id}
      ensures id in registry.byId && registry.byId[id].conn.peer == session.conn.peer
      ensures var there, c := Registry.GetByPeer(old(registry.View()), session.conn.peer), session.conn;
              && id == (if there.Some? then there.value.id else c.id)
              && events == old(events) + [if there.Some? then Rejected(c.addr, Duplicate(there.value.id))
                                          else Connected(c.id, c.peer, c.addr, c.direction)]
    {
      RegisteredAreKnown();
      hide Valid, SessionsAgree, BooksAgreeBut, RegistryStore.SessionRegistry.Valid, Registry.Insert;
      id := session.conn.id;
      var r := Enlist(session);
      if r.Err? {
        DiscardDuplicate(session, r.error.conn.id);
        return r.error.conn.id;
      }
      Announce(session);
      ViewAfterAdmit(session.conn);
      hide View, Arbitration.Admit;
    }

    /** What the arbitration of a newcomer comes to. */
    lemma ArbitrationIs(c: Conn)
      requires Valid()
      ensures registry.Valid() && registry.byId.Keys <= known.Keys
      ensures var there, n := registry.GetByPeer(c.peer), View();
              Arbitration.Activate(localId, n, c)
              == if there.None? then Arbitration.Admit(n, c)
                 else if c.direction == (if localId < c.peer then Outbound else Inbound) && there.value.conn.direction != c.direction then
                   Arbitration.Admit(Arbitration.Disconnect(n, there.value.conn.id), c)
                 else Arbitration.Discard(n, c)
    {
      RegisteredAreKnown();
      hide Arbitration.Admit, Arbitration.Disconnect, Arbitration.Discard, SessionsAgree, BooksAgree;
    }

    lemma PeerHasOneSession(peer: NodeId)
      requires registry.Valid()
      ensures registry.GetByPeer(peer).None? <==> Registry.GetByPeer(registry.View(), peer).None?
      ensures registry.GetByPeer(peer).Some? ==>
                var s := registry.GetByPeer(peer).value;
                && s.conn.peer == peer && s.conn.id in registry.byId && registry.byId[s.conn.id] == s
                && Registry.GetByPeer(registry.View(), peer) == Some(s.conn)
                && forall id :: id in registry.byId && id != s.conn.id ==> registry.byId[id].conn.peer != peer
    {
      forall i, j | i in registry.byId && j in registry.byId && registry.byId[i].conn.peer == registry.byId[j].conn.peer
        ensures i == j
      {
        Registry.OneSessionPerPeer(registry.View(), i, j);
      }
    }

    /** The session that stays when a newcomer is put up against these tables. */
    ghost function Staying(t: Registry.Tables, c: Conn): SessionId {
      match Registry.GetByPeer(t, c.peer)
      case None => c.id
      case Some(there) => if Arbitration.Wins(localId, c, there) then c.id else there.id
    }

    /** And what is announced then. */
    ghost function Announced(t: Registry.Tables, c: Conn): seq<Event> {
      match Registry.GetByPeer(t, c.peer)
      case None => [Connected(c.id, c.peer, c.addr, c.direction)]
      case Some(there) =>
        if Arbitration.Wins(localId, c, there) then
          [Disconnected(there.id, c.peer, Replaced), Connected(c.id, c.peer, c.addr, c.direction)]
        else
          [Rejected(c.addr, Duplicate(there.id))]
    }

    /** Both in terms of the session of the newcomer's peer, if there is one, and of the two directions. */
    lemma AnnouncedIs(c: Conn)
      requires registry.Valid()
      ensures var there, t := registry.GetByPeer(c.peer), registry.View();
              if there.None? then
                Staying(t, c) == c.id && Announced(t, c) == [Connected(c.id, c.peer, c.addr, c.direction)]
              else if c.direction == (if localId < c.peer then Outbound else Inbound) && there.value.conn.direction != c.direction then
                && Staying(t, c) == c.id
                && Announced(t, c) == [Disconnected(there.value.conn.id, c.peer, Replaced), Connected(c.id, c.peer, c.addr, c.direction)]
              else
                && Staying(t, c) == there.value.conn.id
                && Announced(t, c) == [Rejected(c.addr, Duplicate(there.value.conn.id))]
    {
      PeerHasOneSession(c.peer);
    }

    lemma NobodyOf(peer: NodeId)
      requires Valid() && forall id :: id in registry.byId ==> registry.byId[id].conn.peer != peer
      ensures Registry.GetByPeer(registry.View(), peer).None?
    {
      var _ := registry.GetByPeer(peer);
    }

    /** `activate`: arbitration, then registration. The answer is the session that stays. */
    method Activate(session: Session) returns (id: SessionId)
      requires Valid() && session.conn.id !in known && session !in known.Values && !session.closed
      modifies this`events, this`known, this`discarded, this`retiring, registry, stats, session`closed, known.Values`closed
      ensures Valid()
      ensures View() == Arbitration.Activate(localId, old(View()), session.conn)
      ensures stats.inboundRejected == old(stats.inboundRejected)
      ensures known == old(known)[session.conn.id := session]
      ensures registry.byId.Keys <= old(registry.byId).Keys + {session.conn.id}
      ensures id in registry.byId && registry.byId[id].conn.peer == session.conn.peer
      ensures var there, c := old(registry.GetByPeer(session.conn.peer)), session.conn;
              if there.None? then
                id == c.id && events == old(events) + [Connected(c.id, c.peer, c.addr, c.direction)]
              else if c.direction == (if localId < c.peer then Outbound else Inbound) && there.value.conn.direction != c.direction then
                id == c.id && events == old(events) + [Disconnected(there.value.conn.id, c.peer, Replaced),
                                                       Connected(c.id, c.peer, c.addr, c.direction)]
              else
                id == there.value.conn.id && events == old(events) + [Rejected(c.addr, Duplicate(there.value.conn.id))]
      ensures id == Staying(old(registry.View()), session.conn) && events == old(events) + Announced(old(registry.View()), session.conn)
      ensures |registry.byId| <= |old(registry.byId)| + 1
    {
      hide *;
      ArbitrationIs(session.conn);
      AnnouncedIs(session.conn);
      PeerHasOneSession(session.conn.peer);
      var existing := registry.GetByPeer(session.conn.peer);
      if existing.Some? {
        var expected := if localId < session.conn.peer then Outbound else Inbound;
        var newWins := session.conn.direction == expected && existing.value.conn.direction != expected;
        if !newWins {
          DiscardDuplicate(session, existing.value.conn.id);
          return existing.value.conn.id;
        }
        Disconnect(existing.value.conn.id, Replaced);
        NobodyOf(session.conn.peer);
      }
      id := Admit(session);
      OneMoreAtMost(registry.byId.Keys, old(registry.byId).Keys, session.conn.id);
    }

    twostate lemma DrainingAgrees()
      requires old(SessionsAgree()) && old(BooksAgree()) && old(retiring) == {}
      requires registry.byId == map[] && retiring == old(registry.byId).Keys && known == old(known)
      requires forall i :: i in known ==> known[i].closed == old(known[i].closed)
      requires events == old(events) && discarded == old(discarded) && reused == old(reused) && unchanged(stats)
      ensures SessionsAgree() && BooksAgree()
    {
      StillTrue();
    }

    /** The loop of `shutdown` over the drained sessions. */
    method RetireAll(all: seq<Session>)
      requires BooksAgree() && SessionsAgree()
      requires |all| == |retiring|
      requires forall i :: 0 <= i < |all| ==> all[i].conn.id in retiring && all[i].conn.id in known && known[all[i].conn.id] == all[i]
      requires forall i, j :: 0 <= i < j < |all| ==> all[i].conn.id != all[j].conn.id
      modifies this`events, this`retiring, stats, known.Values`closed
      ensures BooksAgree() && SessionsAgree() && retiring == {}
      ensures events == old(events) + Farewells(all)
    {
      hide SessionsAgree, BooksAgree;
      for i := 0 to |all|
        invariant SessionsAgree() && BooksAgree()
        invariant |retiring| == |all| - i && forall j :: i <= j < |all| ==> all[j].conn.id in retiring
        invariant events == old(events) + Farewells(all[..i])
      {
        Retire(all[i], Shutdown);
        assert Farewells(all[..i + 1]) == Farewells(all[..i]) + [Disconnected(all[i].conn.id, all[i].conn.peer, Shutdown)];
      }
      assert all[..|all|] == all;
    }

    /** The drain of `shutdown`: every registered session is taken out at once. */
    method TakeOutAll() returns (all: seq<Session>)
      requires Valid()
      modifies this`retiring, registry
      ensures registry.Valid() && BooksAgree() && SessionsAgree()
      ensures registry.byId == map[] && RegistryStore.HoldsOnce(all, old(registry.byId)) && |retiring| == |all|
      ensures forall i :: 0 <= i < |all| ==> all[i].conn.id in retiring && all[i].conn.id in known && known[all[i].conn.id] == all[i]
    {
      assert forall id :: id in registry.byId ==> id in known && known[id] == registry.byId[id];
      hide SessionsAgree, BooksAgree, RegistryStore.SessionRegistry.Valid;
      all := registry.Drain();
      retiring := old(registry.byId).Keys;
      DrainingAgrees();
    }

    lemma NothingIsLeft()
      requires Valid() && registry.byId == map[]
      ensures stats.active == 0 && stats.established == stats.closed && forall id :: id in known ==> known[id].closed
    {
    }

    /** `shutdown`: the first call empties the registry and closes, counts and announces each session once; later calls do nothing. */
    method Stop()
      requires Valid()
      modifies this`shuttingDown, this`events, this`retiring, registry, stats, known.Values`closed
      ensures Valid() && shuttingDown
      ensures old(shuttingDown) ==> View() == old(View()) && events == old(events)
      ensures !old(shuttingDown) ==> registry.byId == map[]
      ensures Lines() == Streams.Take(old(Lines()), Streams.Gone(if old(shuttingDown) then {} else old(registry.byId).Keys))
      ensures !old(shuttingDown) ==>
                exists all: seq<Session> ::
                  && RegistryStore.HoldsOnce(all, old(registry.byId))
                  && old(events) <= events && |events| == |old(events)| + |all|
                  && forall i :: 0 <= i < |all| ==> events[|old(events)| + i] == Disconnected(all[i].conn.id, all[i].conn.peer, Shutdown)
      ensures !old(shuttingDown) ==>
                stats.active == 0 && stats.established == stats.closed && forall id :: id in known ==> known[id].closed
    {
      hide SessionsAgree, BooksAgree, RegistryStore.SessionRegistry.Valid, View;
      if shuttingDown {
        return;
      }
      shuttingDown := true;
      var all := TakeOutAll();
      RetireAll(all);
      NothingIsLeft();
      WritesKept();
      hide Writes;
    }

    // ------------------------------------------------------------------
    // Sending
    // ------------------------------------------------------------------

    lemma TornIsRegistered()
      ensures Torn() <= registry.byId.Keys && Torn() == Torn() * registry.byId.Keys
    {
    }

    lemma LinesAre()
      ensures Lines() == Streams.Lines(registry.byId.Keys, Writes())
      ensures Torn() == Streams.Torn(Lines()) && NothingFollowsACut() == Streams.NothingFollowsACut(Lines())
    {
    }

    /** Whatever leaves the streams alone. */
    twostate lemma StreamsKept()
      requires old(StreamsValid()) && known == old(known)
      requires forall id :: id in known ==> unchanged(known[id].transport`wire) && unchanged(known[id].transport`writes)
      ensures StreamsValid() && Writes() == old(Writes())
      ensures registry.byId == old(registry.byId) ==> Lines() == old(Lines())
    {
    }

    /** One write on the stream of a session. */
    twostate lemma StreamsAfterWrite(id: SessionId)
      requires old(StreamsValid()) && known == old(known) && id in known
      requires forall i :: i in known && i != id ==> unchanged(known[i].transport`wire) && unchanged(known[i].transport`writes)
      requires known[id].transport.WireValid()
      ensures StreamsValid() && Writes() == old(Writes())[id := known[id].transport.writes]
    {
    }

    /** A session held here has a stream to itself. */
    lemma StreamOf(s: Session)
      requires StreamsValid() && Holds(s)
      ensures s.transport.WireValid() && s.conn.id in Writes() && Writes()[s.conn.id] == s.transport.writes
      ensures Transport.AllValid(s.transport.writes) && (s.transport.Intact() <==> Transport.Clean(s.transport.writes))
      ensures forall i :: i in known && i != s.conn.id ==> known[i].transport != s.transport
    {
    }

    lemma RegisteredIsHeld(id: SessionId)
      requires SessionsAgree() && id in registry.byId
      ensures registry.byId[id].conn.id == id && Holds(registry.byId[id])
    {
    }

    lemma LinesOpen()
      ensures Lines().open == registry.byId.Keys
    {
    }

    lemma RegisteredFacts(s: Session)
      requires Valid() && StreamsValid() && s.conn.id in registry.byId && (Holds(s) || registry.byId[s.conn.id] == s)
      ensures s.conn.id in registry.byId && registry.byId[s.conn.id] == s && Holds(s)
      ensures Transport.AllValid(s.transport.writes) && (s.transport.Intact() <==> Transport.Clean(s.transport.writes))
    {
    }

    /** `send_frame` on the stream of a session. */
    method WriteOn(s: Session, kind: nat, payload: seq<Byte>, outcome: Transport.WriteOutcome)
      returns (r: Result<(), Transport.SendError>)
      requires Valid() && StreamsValid() && Holds(s)
      modifies s.transport`wire, s.transport`writes
      ensures Valid() && View() == old(View()) && StreamsValid()
      ensures r.Ok? <==> Frames.Encodable(Frames.Frame(kind, payload)) && outcome.Written?
      ensures r == Err(Transport.Io) <==> Frames.Encodable(Frames.Frame(kind, payload)) && !outcome.Written?
      ensures s.transport.writes == old(s.transport.writes) + Transport.WritesOf(Frames.Frame(kind, payload), outcome)
      ensures old(s.transport.Intact()) ==> (Frames.Residue(s.transport.wire) == [] <==> !Transport.Tears(Frames.Frame(kind, payload), outcome))
      ensures Lines() == Streams.Take(old(Lines()), Streams.WroteOn(s.conn.id, Frames.Frame(kind, payload), outcome, {}))
    {
      hide SessionsAgree, BooksAgree, RegistryStore.SessionRegistry.Valid, View, StreamsValid, Writes;
      hide Transport.FrameTransport.Intact, Transport.FrameTransport.WireValid, Transport.Tears, Transport.WritesOf;
      StreamOf(s);
      Streams.SpreadOnOne(Writes(), s.conn.id, Frames.Frame(kind, payload), outcome);
      hide Streams.Spread;
      r := s.transport.SendFrame(kind, payload, outcome);
      StreamsAfterWrite(s.conn.id);
    }
    /** `teardown_on_fatal_send_error`: part of a frame may be on the stream, and nothing may follow it. */
    method Teardown(id: SessionId)
      requires Valid() && StreamsValid()
      modifies this`events, this`retiring, registry, stats, known.Values`closed
      ensures Valid() && View() == Arbitration.Disconnect(old(View()), id)
      ensures events == old(events) + if id in old(registry.byId)
                                      then [Disconnected(id, old(registry.byId)[id].conn.peer, IoFailed)] else []
      ensures registry.byId == old(registry.byId) - {id}
      ensures StreamsValid() && Lines() == Streams.Take(old(Lines()), Streams.Gone({id}))
      ensures Torn() == old(Torn()) - {id} && (NothingFollowsACut() <==> old(NothingFollowsACut()))
    {
      hide SessionsAgree, BooksAgree, RegistryStore.SessionRegistry.Valid, View, StreamsValid, Writes, Lines, Arbitration.Disconnect;
      Disconnect(id, IoFailed);
      StreamsKept();
    }

    /** A send: what follows a write that went well, and one that did not. */
    method SendOn(s: Session, kind: nat, payload: seq<Byte>, outcome: Transport.WriteOutcome, now: nat)
      returns (r: Result<(), Transport.SendError>)
      requires Valid() && StreamsValid() && Holds(s)
      modifies this`events, this`retiring, registry, stats, known.Values`closed, s`lastSendMs, s.transport`wire, s.transport`writes
      ensures Valid() && View() == if r == Err(Transport.Io) then Arbitration.Disconnect(old(View()), s.conn.id) else old(View())
      ensures r.Ok? <==> Frames.Encodable(Frames.Frame(kind, payload)) && outcome.Written?
      ensures r == Err(Transport.Io) <==> Frames.Encodable(Frames.Frame(kind, payload)) && !outcome.Written?
      ensures s.transport.writes == old(s.transport.writes) + Transport.WritesOf(Frames.Frame(kind, payload), outcome)
      ensures s.lastSendMs == if r.Ok? then now else old(s.lastSendMs)
      ensures events == old(events) + if r == Err(Transport.Io) && s.conn.id in old(registry.byId)
                                      then [Disconnected(s.conn.id, old(registry.byId)[s.conn.id].conn.peer, IoFailed)] else []
      ensures StreamsValid()
      ensures Lines() == Streams.Take(old(Lines()), Streams.WroteOn(s.conn.id, Frames.Frame(kind, payload), outcome,
                                                                    if r == Err(Transport.Io) then {s.conn.id} else {}))
    {
      hide SessionsAgree, BooksAgree, RegistryStore.SessionRegistry.Valid, View, StreamsValid, Writes, Lines, Arbitration.Disconnect;
      hide Frames.Encodable, Transport.WritesOf, Streams.Take;
      Streams.EndedAfterwards(Lines(), Frames.Frame(kind, payload), map[s.conn.id := outcome], {s.conn.id});
      r := WriteOn(s, kind, payload, outcome);
      if r.Ok? {
        label Written:
        s.TouchSend(now);
        StreamsKept@Written();
      } else if r.error == Transport.Io {
        Teardown(s.conn.id);
      }
    }

    /** What a send makes of the torn streams, and of those with something behind a cut. */
    lemma AfterSend(l: Streams.Lines, id: SessionId, f: Frames.Frame, outcome: Transport.WriteOutcome)
      requires Streams.Valid(l) && id in l.open
      ensures var failed := Frames.Encodable(f) && !outcome.Written?;
              var l' := Streams.Take(l, Streams.WroteOn(id, f, outcome, if failed then {id} else {}));
              && Streams.Torn(l') == (if failed then Streams.Torn(l) - {id} else Streams.Torn(l))
              && (Streams.NothingFollowsACut(l') <==> Streams.NothingFollowsACut(l) && !(id in Streams.Torn(l) && Transport.Lands(f, outcome)))
    {
      var failed := Frames.Encodable(f) && !outcome.Written?;
      Streams.OneWrite(l, id, f, outcome, if failed then {id} else {});
      assert id in Streams.Torn(l) <==> !Transport.Clean(l.writes[id]);
      assert !failed ==> !Transport.Tears(f, outcome);
      hide Streams.Torn, Streams.Take, Streams.NothingFollowsACut, Transport.Tears;
    }

    /** What a send to a session may change besides the books: that session and its stream. */
    ghost function Target(id: SessionId): set<object>
      reads registry`byId
    {
      if id in registry.byId then {registry.byId[id], registry.byId[id].transport} else {}
    }

    /** `send` */
    method Send(id: SessionId, kind: nat, payload: seq<Byte>, outcome: Transport.WriteOutcome, now: nat) returns (r: Result<(), SendError>)
      requires Valid() && StreamsValid()
      modifies this`events, this`retiring, registry, stats, known.Values`closed, Target(id)
      ensures Valid()
      ensures r == Err(NoSession) <==> id !in old(registry.byId)
      ensures r.Ok? <==> id in old(registry.byId) && Frames.Encodable(Frames.Frame(kind, payload)) && outcome.Written?
      ensures r == Err(Failed(Transport.Io)) <==>
              id in old(registry.byId) && Frames.Encodable(Frames.Frame(kind, payload)) && !outcome.Written?
      ensures View() == if r == Err(Failed(Transport.Io)) then Arbitration.Disconnect(old(View()), id) else old(View())
      ensures events == old(events) + if r == Err(Failed(Transport.Io))
                                      then [Disconnected(id, old(registry.byId)[id].conn.peer, IoFailed)] else []
      ensures id in old(registry.byId) ==>
                var s := old(registry.byId)[id];
                && s.transport.writes == old(s.transport.writes) + Transport.WritesOf(Frames.Frame(kind, payload), outcome)
                && s.lastSendMs == if r.Ok? then now else old(s.lastSendMs)
      ensures StreamsValid() && Torn() == if r == Err(Failed(Transport.Io)) then old(Torn()) - {id} else old(Torn())
      ensures NothingFollowsACut() <==>
              old(NothingFollowsACut()) && !(id in old(Torn()) && Transport.Lands(Frames.Frame(kind, payload), outcome))
      ensures Lines() == if r == Err(NoSession) then old(Lines())
                         else Streams.Take(old(Lines()), Streams.WroteOn(id, Frames.Frame(kind, payload), outcome,
                                                                         if r == Err(Failed(Transport.Io)) then {id} else {}))
    {
      hide SessionsAgree, BooksAgree, RegistryStore.SessionRegistry.Valid, View, StreamsValid, Writes, Lines, Arbitration.Disconnect;
      hide Frames.Encodable, Transport.WritesOf, Transport.Lands, Streams.Take, Streams.Torn, Streams.NothingFollowsACut;
      var found := registry.GetById(id);
      if found.None? {
        TornIsRegistered();
        return Err(NoSession);
      }
      RegisteredIsHeld(id);
      LinesValid();
      AfterSend(Lines(), id, Frames.Frame(kind, payload), outcome);
      var sent := SendOn(found.value, kind, payload, outcome, now);
      r := if sent.Ok? then Ok(()) else Err(Failed(sent.error));
    }

    /** `send_to` */
    method SendTo(peer: NodeId, kind: nat, payload: seq<Byte>, outcome: Transport.WriteOutcome, now: nat) returns (r: Result<(), SendError>)
      requires Valid() && StreamsValid()
      modifies this`events, this`retiring, registry, stats, known.Values`closed
      modifies if registry.GetByPeer(peer).Some? then Target(registry.GetByPeer(peer).value.conn.id) else {}
      ensures Valid()
      ensures r == Err(NoSession) <==> old(registry.GetByPeer(peer)).None?
      ensures r.Ok? <==> old(registry.GetByPeer(peer)).Some? && Frames.Encodable(Frames.Frame(kind, payload)) && outcome.Written?
      ensures r == Err(Failed(Transport.Io)) <==>
              old(registry.GetByPeer(peer)).Some? && Frames.Encodable(Frames.Frame(kind, payload)) && !outcome.Written?
      ensures View() == if r == Err(Failed(Transport.Io)) then Arbitration.Disconnect(old(View()), old(registry.GetByPeer(peer)).value.conn.id)
                        else old(View())
      ensures events == old(events) + if r == Err(Failed(Transport.Io))
                                      then [Disconnected(old(registry.GetByPeer(peer)).value.conn.id, peer, IoFailed)] else []
      ensures old(registry.GetByPeer(peer)).Some? ==>
                var s := old(registry.GetByPeer(peer)).value;
                && s.transport.writes == old(s.transport.writes) + Transport.WritesOf(Frames.Frame(kind, payload), outcome)
                && s.lastSendMs == if r.Ok? then now else old(s.lastSendMs)
      ensures StreamsValid()
      ensures Torn() == if r == Err(Failed(Transport.Io)) then old(Torn()) - {old(registry.GetByPeer(peer)).value.conn.id} else old(Torn())
      ensures old(registry.GetByPeer(peer)).None? ==> Lines() == old(Lines())
      ensures old(registry.GetByPeer(peer)).Some? ==>
                var id := old(registry.GetByPeer(peer)).value.conn.id;
                && (NothingFollowsACut() <==>
                    old(NothingFollowsACut()) && !(id in old(Torn()) && Transport.Lands(Frames.Frame(kind, payload), outcome)))
                && Lines() == Streams.Take(old(Lines()), Streams.WroteOn(id, Frames.Frame(kind, payload), outcome,
                                                                         if r == Err(Failed(Transport.Io)) then {id} else {}))
    {
      hide SessionsAgree, BooksAgree, RegistryStore.SessionRegistry.Valid, View, StreamsValid, Writes, Lines, Arbitration.Disconnect;
      hide Frames.Encodable, Transport.WritesOf, Transport.Lands, Streams.Take, Streams.Torn, Streams.NothingFollowsACut;
      var found := registry.GetByPeer(peer);
      if found.None? {
        return Err(NoSession);
      }
      RegisteredIsHeld(found.value.conn.id);
      LinesValid();
      AfterSend(Lines(), found.value.conn.id, Frames.Frame(kind, payload), outcome);
      var sent := SendOn(found.value, kind, payload, outcome, now);
      r := if sent.Ok? then Ok(()) else Err(Failed(sent.error));
    }

    /** The sessions a broadcast goes to, and how the write to each of them fares. */
    ghost function Recipients(exclude: Option<SessionId>, outcome: SessionId -> Transport.WriteOutcome): map<SessionId, Transport.WriteOutcome>
      reads registry`byId
    {
      map id | id in registry.byId && Some(id) != exclude :: outcome(id)
    }

    /** Those of them that the frame was written to. */
    ghost function Went(f: Frames.Frame, outcomes: map<SessionId, Transport.WriteOutcome>): set<SessionId> {
      set id | id in outcomes && Frames.Encodable(f) && outcomes[id].Written?
    }

    /** Those of them whose write broke off inside the frame. */
    ghost function TornBy(f: Frames.Frame, outcomes: map<SessionId, Transport.WriteOutcome>): set<SessionId> {
      set id | id in outcomes && Transport.Tears(f, outcomes[id])
    }

    /** None of the writes gets a byte on one of these streams. */
    ghost predicate SparesCuts(f: Frames.Frame, outcomes: map<SessionId, Transport.WriteOutcome>, torn: set<SessionId>) {
      forall id :: id in outcomes && id in torn ==> !Transport.Lands(f, outcomes[id])
    }

    ghost function Sockets(): set<Transport.FrameTransport>
      reads registry`byId
    {
      set id | id in registry.byId :: registry.byId[id].transport
    }

    /** One write of a broadcast; its failure is only logged. */
    method BroadcastTo(s: Session, kind: nat, payload: seq<Byte>, outcome: Transport.WriteOutcome, now: nat) returns (ok: bool)
      requires Valid() && StreamsValid() && Holds(s)
      modifies s`lastSendMs, s.transport`wire, s.transport`writes
      ensures Valid() && View() == old(View()) && StreamsValid()
      ensures ok <==> Frames.Encodable(Frames.Frame(kind, payload)) && outcome.Written?
      ensures s.lastSendMs == if ok then now else old(s.lastSendMs)
      ensures Lines() == Streams.Take(old(Lines()), Streams.WroteOn(s.conn.id, Frames.Frame(kind, payload), outcome, {}))
    {
      hide SessionsAgree, BooksAgree, RegistryStore.SessionRegistry.Valid, View, StreamsValid, Writes, Lines;
      hide Frames.Encodable, Transport.WritesOf, Streams.Take;
      var r := WriteOn(s, kind, payload, outcome);
      ok := r.Ok?;
      if ok {
        label Written:
        s.TouchSend(now);
        StreamsKept@Written();
      }
    }

    /** How far a broadcast over these sessions has got. */
    ghost predicate Reached(all: seq<Session>, i: nat, exclude: Option<SessionId>, outcome: SessionId -> Transport.WriteOutcome,
                            done: map<SessionId, Transport.WriteOutcome>)
      requires i <= |all|
    {
      && (forall j :: 0 <= j < i && Some(all[j].conn.id) != exclude ==> all[j].conn.id in done)
      && (forall j :: i <= j < |all| ==> all[j].conn.id !in done)
      && (forall id :: id in done ==> Some(id) != exclude && done[id] == outcome(id) && exists j :: 0 <= j < i && all[j].conn.id == id)
    }

    lemma ReachedAll(all: seq<Session>, exclude: Option<SessionId>, outcome: SessionId -> Transport.WriteOutcome,
                     done: map<SessionId, Transport.WriteOutcome>)
      requires RegistryStore.HoldsOnce(all, registry.byId) && Reached(all, |all|, exclude, outcome, done)
      ensures done == Recipients(exclude, outcome)
    {
      RegistryStore.HoldsAll(all, registry.byId);
    }

    lemma NobodyReached(all: seq<Session>, exclude: Option<SessionId>, outcome: SessionId -> Transport.WriteOutcome)
      ensures Reached(all, 0, exclude, outcome, map[])
    {
    }

    lemma ReachedExcluded(all: seq<Session>, i: nat, exclude: Option<SessionId>, outcome: SessionId -> Transport.WriteOutcome,
                          done: map<SessionId, Transport.WriteOutcome>)
      requires i < |all| && Reached(all, i, exclude, outcome, done) && Some(all[i].conn.id) == exclude
      ensures Reached(all, i + 1, exclude, outcome, done)
    {
      forall id | id in done
        ensures exists j :: 0 <= j < i + 1 && all[j].conn.id == id
      {
        var j :| 0 <= j < i && all[j].conn.id == id;
      }
    }

    lemma ReachedOneMore(all: seq<Session>, i: nat, exclude: Option<SessionId>, outcome: SessionId -> Transport.WriteOutcome,
                         done: map<SessionId, Transport.WriteOutcome>)
      requires i < |all| && Reached(all, i, exclude, outcome, done) && Some(all[i].conn.id) != exclude
      requires forall j, k :: 0 <= j < k < |all| ==> all[j].conn.id != all[k].conn.id
      ensures all[i].conn.id !in done && Reached(all, i + 1, exclude, outcome, done[all[i].conn.id := outcome(all[i].conn.id)])
    {
      forall id | id in done
        ensures exists j :: 0 <= j < i + 1 && all[j].conn.id == id
      {
        var j :| 0 <= j < i && all[j].conn.id == id;
      }
    }

    lemma NobodyWent(f: Frames.Frame)
      ensures Went(f, map[]) == {}
    {
    }

    lemma RecipientsAreRegistered(exclude: Option<SessionId>, outcome: SessionId -> Transport.WriteOutcome)
      ensures Recipients(exclude, outcome).Keys <= registry.byId.Keys
    {
    }

    lemma AllHeld()
      requires SessionsAgree()
      ensures forall id :: id in registry.byId ==> registry.byId[id].conn.id == id && Holds(registry.byId[id])
    {
    }

    lemma WentOneMore(f: Frames.Frame, done: map<SessionId, Transport.WriteOutcome>, id: SessionId, outcome: Transport.WriteOutcome)
      requires id !in done
      ensures |Went(f, done[id := outcome])| == |Went(f, done)| + if Frames.Encodable(f) && outcome.Written? then 1 else 0
      ensures forall i :: i in Went(f, done[id := outcome]) <==> i in Went(f, done) || (i == id && Frames.Encodable(f) && outcome.Written?)
    {
      assert Went(f, done[id := outcome]) == Went(f, done) + if Frames.Encodable(f) && outcome.Written? then {id} else {};
    }

    /** What a broadcast makes of the torn streams, and of those with something behind a cut. */
    lemma AfterBroadcast(l: Streams.Lines, f: Frames.Frame, outcomes: map<SessionId, Transport.WriteOutcome>)
      requires Streams.Valid(l) && outcomes.Keys <= l.open
      ensures var l' := Streams.Take(l, Streams.Wrote(f, outcomes, {}));
              && Streams.Torn(l') == Streams.Torn(l) + TornBy(f, outcomes)
              && (Streams.NothingFollowsACut(l') <==> Streams.NothingFollowsACut(l) && SparesCuts(f, outcomes, Streams.Torn(l)))
    {
      Streams.TornAfterWrites(l, f, outcomes, {});
      Streams.NothingFollowsACutExactly(l, Streams.Wrote(f, outcomes, {}));
      hide Streams.Take, Streams.NothingFollowsACut, Transport.Tears, Transport.Lands, Transport.Clean, Transport.AllValid;
      assert (set id | id in outcomes && id in l.open && Transport.Tears(f, outcomes[id])) == TornBy(f, outcomes);
    }

    lemma RegisteredWrites()
      requires Valid()
      ensures forall id :: id in registry.byId ==> id in Lines().writes && Lines().writes[id] == registry.byId[id].transport.writes
    {
    }

    lemma WentAre(f: Frames.Frame, exclude: Option<SessionId>, outcome: SessionId -> Transport.WriteOutcome)
      ensures Went(f, Recipients(exclude, outcome))
              == set id | id in registry.byId && Some(id) != exclude && Frames.Encodable(f) && outcome(id).Written?
    {
    }

    lemma WrittenTo(l: Streams.Lines, f: Frames.Frame, exclude: Option<SessionId>, outcome: SessionId -> Transport.WriteOutcome)
      ensures var l' := Streams.Take(l, Streams.Wrote(f, Recipients(exclude, outcome), {}));
              forall id :: id in registry.byId && id in l.writes ==>
                id in l'.writes && l'.writes[id] == l.writes[id] + if Some(id) == exclude then [] else Transport.WritesOf(f, outcome(id))
    {
      hide Transport.WritesOf;
    }

    /** The loop of `broadcast` over the sessions it has listed. */
    method BroadcastAll(all: seq<Session>, kind: nat, payload: seq<Byte>, exclude: Option<SessionId>,
                        outcome: SessionId -> Transport.WriteOutcome, now: nat)
      returns (count: nat, ghost done: map<SessionId, Transport.WriteOutcome>)
      requires Valid() && StreamsValid() && RegistryStore.HoldsOnce(all, registry.byId)
      modifies registry.byId.Values`lastSendMs, Sockets()`wire, Sockets()`writes
      ensures Valid() && View() == old(View()) && StreamsValid()
      ensures Reached(all, |all|, exclude, outcome, done)
      ensures count == |Went(Frames.Frame(kind, payload), done)|
      ensures forall j :: 0 <= j < |all| ==>
                all[j].lastSendMs == if all[j].conn.id in Went(Frames.Frame(kind, payload), done) then now else old(all[j].lastSendMs)
      ensures Lines() == Streams.Take(old(Lines()), Streams.Wrote(Frames.Frame(kind, payload), done, {}))
    {
      hide SessionsAgree, BooksAgree, RegistryStore.SessionRegistry.Valid, View, StreamsValid, Writes, Lines;
      hide Frames.Encodable, Streams.Take, Went, Reached;
      ghost var f, l := Frames.Frame(kind, payload), Lines();
      AllHeld();
      count, done := 0, map[];
      NobodyReached(all, exclude, outcome);
      NobodyWent(f);
      Streams.NothingWritten(l, f);
      for i := 0 to |all|
        invariant Valid() && StreamsValid() && View() == old(View())
        invariant Lines() == Streams.Take(l, Streams.Wrote(f, done, {}))
        invariant Reached(all, i, exclude, outcome, done)
        invariant count == |Went(f, done)| && Went(f, done) <= done.Keys
        invariant forall j :: 0 <= j < |all| ==> all[j].lastSendMs == if all[j].conn.id in Went(f, done) then now else old(all[j].lastSendMs)
      {
        var s := all[i];
        if Some(s.conn.id) == exclude {
          ReachedExcluded(all, i, exclude, outcome, done);
        } else {
          ReachedOneMore(all, i, exclude, outcome, done);
          WentOneMore(f, done, s.conn.id, outcome(s.conn.id));
          Streams.OneMoreWrite(l, f, done, s.conn.id, outcome(s.conn.id));
          var ok := BroadcastTo(s, kind, payload, outcome(s.conn.id), now);
          count := count + if ok then 1 else 0;
          done := done[s.conn.id := outcome(s.conn.id)];
        }
      }
    }

    /**
     `broadcast`: one write on the stream of every registered session but the excluded one. A
     write that fails does not end its session here.
     */
    method Broadcast(kind: nat, payload: seq<Byte>, exclude: Option<SessionId>, outcome: SessionId -> Transport.WriteOutcome, now: nat)
      returns (count: nat)
      requires Valid() && StreamsValid()
      modifies registry.byId.Values`lastSendMs, Sockets()`wire, Sockets()`writes
      ensures Valid() && View() == old(View()) && StreamsValid()
      ensures forall id :: id in registry.byId ==>
                registry.byId[id].transport.writes
                == old(registry.byId[id].transport.writes)
                   + if Some(id) == exclude then [] else Transport.WritesOf(Frames.Frame(kind, payload), outcome(id))
      ensures count == |set id | id in registry.byId && Some(id) != exclude
                                 && Frames.Encodable(Frames.Frame(kind, payload)) && outcome(id).Written?|
      ensures forall id :: id in registry.byId ==>
                registry.byId[id].lastSendMs == if id in Went(Frames.Frame(kind, payload), Recipients(exclude, outcome)) then now
                                                else old(registry.byId[id].lastSendMs)
      ensures Torn() == old(Torn()) + TornBy(Frames.Frame(kind, payload), Recipients(exclude, outcome))
      ensures NothingFollowsACut() <==>
              old(NothingFollowsACut()) && SparesCuts(Frames.Frame(kind, payload), Recipients(exclude, outcome), old(Torn()))
      ensures Lines() == Streams.Take(old(Lines()), Streams.Wrote(Frames.Frame(kind, payload), Recipients(exclude, outcome), {}))
    {
      hide SessionsAgree, BooksAgree, RegistryStore.SessionRegistry.Valid, View, StreamsValid, Writes, Lines;
      hide Streams.Take, Streams.Torn, Streams.NothingFollowsACut, Went, Reached, TornBy, SparesCuts, Recipients;
      LinesValid();
      RegisteredWrites();
      WentAre(Frames.Frame(kind, payload), exclude, outcome);
      WrittenTo(Lines(), Frames.Frame(kind, payload), exclude, outcome);
      RecipientsAreRegistered(exclude, outcome);
      AfterBroadcast(Lines(), Frames.Frame(kind, payload), Recipients(exclude, outcome));
      AllHeld();
      var all := RegistryStore.ListSessions(registry.byId);
      StreamsKept();
      ghost var done;
      count, done := BroadcastAll(all, kind, payload, exclude, outcome, now);
      ReachedAll(all, exclude, outcome, done);
      RegistryStore.HoldsAll(all, registry.byId);
      RegisteredWrites();
    }

    /** What a probe makes of them. */
    lemma AfterProbe(l: Streams.Lines, id: SessionId, f: Frames.Frame, outcome: Transport.WriteOutcome)
      requires Streams.Valid(l) && id in l.writes
      ensures var failed := !(Frames.Encodable(f) && outcome.Written?);
              var l' := Streams.Take(l, Streams.WroteOn(id, f, outcome, if failed then {id} else {}));
              && Streams.Torn(l') == (if failed then Streams.Torn(l) - {id} else Streams.Torn(l))
              && (Streams.NothingFollowsACut(l')
                  <==> Streams.NothingFollowsACut(l) && !(!Transport.Clean(l.writes[id]) && Transport.Lands(f, outcome)))
    {
      var failed := !(Frames.Encodable(f) && outcome.Written?);
      Streams.OneWrite(l, id, f, outcome, if failed then {id} else {});
      assert !failed ==> !Transport.Tears(f, outcome);
      hide Streams.Torn, Streams.Take, Streams.NothingFollowsACut, Transport.Tears;
    }

    /** What one round of `tick` has to do with a session: reap it, probe it, or leave it. */
    ghost function TickWork(s: Session, now: nat): Decision
      reads s`lastRecvMs, s`lastSendMs
    {
      var due := TickDecision(now, s.lastRecvMs, s.lastSendMs, idleTimeout, heartbeatInterval);
      if due == Probe && heartbeatKind.None? then Rest else due
    }

    /**
     The task `tick` starts for one session of its snapshot, which may have left the registry
     since. A probe that fails for any reason, running out of time included, ends the session.
     */
    method TickSession(s: Session, now: nat, outcome: Transport.WriteOutcome) returns (work: Decision, failed: bool)
      requires Valid() && StreamsValid() && Holds(s)
      modifies this`events, this`retiring, registry, stats, known.Values`closed, s`lastSendMs, s.transport`wire, s.transport`writes
      ensures Valid()
      ensures work == old(TickWork(s, now)) && (work.Probe? ==> heartbeatKind.Some?)
      ensures work.Reap? <==> now > old(s.lastRecvMs) + idleTimeout
      ensures work.Probe? <==> && now <= old(s.lastRecvMs) + idleTimeout && heartbeatKind.Some?
                               && (now >= old(s.lastSendMs) + heartbeatInterval || heartbeatInterval == 0)
      ensures events == old(events) + if s.conn.id in old(registry.byId) && (work.Reap? || failed)
                                      then [Disconnected(s.conn.id, old(registry.byId)[s.conn.id].conn.peer, if work.Reap? then IdleTimeout else IoFailed)]
                                      else []
      ensures failed <==> work.Probe? && !(Frames.Encodable(Frames.Frame(heartbeatKind.value, [])) && outcome.Written?)
      ensures s.transport.writes == old(s.transport.writes)
                                    + if work.Probe? then Transport.WritesOf(Frames.Frame(heartbeatKind.value, []), outcome) else []
      ensures s.lastSendMs == if work.Probe? && !failed then now else old(s.lastSendMs)
      ensures View() == if work.Reap? || failed then Arbitration.Disconnect(old(View()), s.conn.id) else old(View())
      ensures StreamsValid() && Torn() == if work.Reap? || failed then old(Torn()) - {s.conn.id} else old(Torn())
      ensures NothingFollowsACut() <==>
              old(NothingFollowsACut())
              && !(work.Probe? && !old(s.transport.Intact()) && Transport.Lands(Frames.Frame(heartbeatKind.value, []), outcome))
      ensures Lines() == Streams.Take(old(Lines()),
                                      if work.Probe? then Streams.WroteOn(s.conn.id, Frames.Frame(heartbeatKind.value, []), outcome,
                                                                          if failed then {s.conn.id} else {})
                                      else Streams.Gone(if work.Reap? then {s.conn.id} else {}))
    {
      hide SessionsAgree, BooksAgree, RegistryStore.SessionRegistry.Valid, View, StreamsValid, Writes, Lines, Arbitration.Disconnect;
      hide Frames.Encodable, Transport.WritesOf, Transport.Lands, Streams.Take, Streams.Torn, Streams.NothingFollowsACut;
      hide Transport.FrameTransport.Intact, Transport.Clean;
      LinesValid();
      StreamOf(s);
      Streams.NobodyEnded(Lines());
      failed := false;
      if s.IdleMs(now) > idleTimeout {
        Streams.TornAfterEnding(Lines(), {s.conn.id});
        Disconnect(s.conn.id, IdleTimeout);
        StreamsKept();
        return Reap, false;
      }
      if heartbeatKind.None? || s.SinceSendMs(now) < heartbeatInterval {
        return Rest, false;
      }
      work := Probe;
      AfterProbe(Lines(), s.conn.id, Frames.Frame(heartbeatKind.value, []), outcome);
      Streams.EndedAfterwards(Lines(), Frames.Frame(heartbeatKind.value, []), map[s.conn.id := outcome], {s.conn.id});
      var r := WriteOn(s, heartbeatKind.value, [], outcome);
      if r.Ok? {
        label Written:
        s.TouchSend(now);
        StreamsKept@Written();
      } else {
        failed := true;
        Teardown(s.conn.id);
      }
    }

    // ------------------------------------------------------------------
    // Receiving
    // ------------------------------------------------------------------

    predicate IsKeepalive(kind: nat) {
      Some(kind) == heartbeatKind || Some(kind) == heartbeatReplyKind
    }

    /** Whether a received frame is answered with a keepalive reply. */
    predicate Replies(kind: nat) {
      Some(kind) == heartbeatKind && heartbeatReplyKind.Some? && heartbeatReplyKind.value != kind
    }

    /** What answering a received frame writes. */
    ghost function ReplyWrites(kind: nat, outcome: Transport.WriteOutcome): seq<Transport.Write> {
      if Replies(kind) then Transport.WritesOf(Frames.Frame(heartbeatReplyKind.value, []), outcome) else []
    }

    lemma CutReply(kind: nat, n: nat)
      requires Replies(kind) && heartbeatReplyKind.value <= 255 && 0 < n < Frames.FRAME_HEADER_SIZE
      ensures ReplyWrites(kind, Transport.FailedAfter(n)) == [Transport.Write(Frames.Frame(heartbeatReplyKind.value, []), n, false)]
    {
    }

    /** A reply is due that can be encoded, and its write breaks off inside the frame. */
    predicate TearsReply(kind: nat, outcome: Transport.WriteOutcome) {
      && Replies(kind) && heartbeatReplyKind.value <= 255
      && outcome.FailedAfter? && 0 < outcome.bytes < Frames.FRAME_HEADER_SIZE
    }

    /** A reply is due that can be encoded, and a byte of it gets on the stream. */
    predicate LandsReply(kind: nat, outcome: Transport.WriteOutcome) {
      && Replies(kind) && heartbeatReplyKind.value <= 255
      && (outcome.Written? || outcome.bytes > 0)
    }

    /** What answering a received frame is to the streams: one write, for which no session is ended, or nothing. */
    ghost function ReplyCalls(id: SessionId, kind: nat, outcome: Transport.WriteOutcome): seq<Streams.Call> {
      if Replies(kind) then [Streams.WroteOn(id, Frames.Frame(heartbeatReplyKind.value, []), outcome, {})] else []
    }

    lemma AfterReply(l: Streams.Lines, id: SessionId, kind: nat, outcome: Transport.WriteOutcome)
      requires Streams.Valid(l) && id in l.writes
      ensures var l' := Streams.After(l, ReplyCalls(id, kind, outcome));
              && Streams.Valid(l') && l'.open == l.open && id in l'.writes
              && Streams.Torn(l') == Streams.Torn(l) + (if id in l.open && TearsReply(kind, outcome) then {id} else {})
              && (Transport.Clean(l'.writes[id]) <==> Transport.Clean(l.writes[id]) && !TearsReply(kind, outcome))
              && (Streams.NothingFollowsACut(l')
                  <==> Streams.NothingFollowsACut(l) && !(!Transport.Clean(l.writes[id]) && LandsReply(kind, outcome)))
    {
      if Replies(kind) {
        var f := Frames.Frame(heartbeatReplyKind.value, []);
        var call := Streams.WroteOn(id, f, outcome, {});
        Transport.EmptyFrameTears(heartbeatReplyKind.value, outcome);
        assert Transport.Lands(f, outcome) <==> LandsReply(kind, outcome);
        Streams.OneWrite(l, id, f, outcome, {});
        assert Streams.After(l, [call]) == Streams.Take(l, call);
        assert Streams.Take(l, call).open == l.open;
        hide Streams.After, Streams.Take, Streams.Torn, Streams.NothingFollowsACut, Streams.Valid, Transport.Clean;
      }
    }

    lemma IntactStreamHasNoResidue(t: Transport.FrameTransport)
      requires t.WireValid()
      ensures t.Intact() ==> Frames.Residue(t.wire) == []
    {
      if t.Intact() {
        Transport.IntactExactlyIfNothingIsLeft(t.writes);
      }
    }

    /**
     `handle_keepalive`. A reply whose write fails is only logged: the stream is left with part
     of a frame exactly if the write broke off inside the reply, and the session stays.
     */
    method HandleKeepalive(s: Session, kind: nat, outcome: Transport.WriteOutcome, now: nat) returns (consumed: bool)
      requires Valid() && StreamsValid() && Holds(s)
      modifies s`lastSendMs, s.transport`wire, s.transport`writes
      ensures Valid() && View() == old(View())
      ensures consumed <==> Some(kind) == heartbeatKind || Some(kind) == heartbeatReplyKind
      ensures var due := Some(kind) == heartbeatKind && heartbeatReplyKind.Some? && heartbeatReplyKind.value != kind;
              && s.transport.writes == old(s.transport.writes)
                                       + (if due then Transport.WritesOf(Frames.Frame(heartbeatReplyKind.value, []), outcome) else [])
              && s.lastSendMs == (if due && heartbeatReplyKind.value <= 255 && outcome.Written? then now else old(s.lastSendMs))
              && (old(s.transport.Intact()) ==>
                    (Frames.Residue(s.transport.wire) == [] <==>
                     !(due && heartbeatReplyKind.value <= 255 && outcome.FailedAfter? && 1 <= outcome.bytes <= 4)))
      ensures s.transport.writes == old(s.transport.writes) + ReplyWrites(kind, outcome)
      ensures StreamsValid()
      ensures Torn() == old(Torn()) + if s.conn.id in registry.byId && TearsReply(kind, outcome) then {s.conn.id} else {}
      ensures NothingFollowsACut() <==> old(NothingFollowsACut()) && !(!old(s.transport.Intact()) && LandsReply(kind, outcome))
      ensures Lines() == Streams.After(old(Lines()), ReplyCalls(s.conn.id, kind, outcome))
    {
      hide SessionsAgree, BooksAgree, RegistryStore.SessionRegistry.Valid, View, StreamsValid, Writes, Lines, Transport.FrameTransport.WireValid;
      hide Transport.WritesOf, Transport.FrameTransport.Intact, Transport.Clean, Transport.Tears, Transport.Lands;
      hide Streams.Take, Streams.Torn, Streams.NothingFollowsACut;
      StreamOf(s);
      IntactStreamHasNoResidue(s.transport);
      LinesValid();
      AfterReply(Lines(), s.conn.id, kind, outcome);
      var isProbe := Some(kind) == heartbeatKind;
      var isReply := Some(kind) == heartbeatReplyKind;
      if !isProbe && !isReply {
        return false;
      }
      if isProbe && heartbeatReplyKind.Some? && heartbeatReplyKind.value != kind {
        Transport.EmptyFrameTears(heartbeatReplyKind.value, outcome);
        var r := WriteOn(s, heartbeatReplyKind.value, [], outcome);
        if r.Ok? {
          label Written:
          s.TouchSend(now);
          StreamsKept@Written();
        }
      }
      return true;
    }

    /** What the receive loop hands on of the frames it gets: all but keepalives. */
    ghost function PassedOn(frames: seq<Frames.Frame>): seq<Frames.Frame> {
      if frames == [] then []
      else
        var last := frames[|frames| - 1];
        PassedOn(frames[..|frames| - 1]) + if IsKeepalive(last.kind) then [] else [last]
    }

    /** Exactly the frames of neither keepalive kind, in order. */
    lemma {:induction false} PassedOnKeeps(frames: seq<Frames.Frame>)
      ensures KeepsExactly(frames, PassedOn(frames), (f: Frames.Frame) => Some(f.kind) != heartbeatKind && Some(f.kind) != heartbeatReplyKind)
      decreases |frames|
    {
      var keep := (f: Frames.Frame) => Some(f.kind) != heartbeatKind && Some(f.kind) != heartbeatReplyKind;
      if frames == [] {
        NothingToKeep(keep);
      } else {
        var front, last := frames[..|frames| - 1], frames[|frames| - 1];
        PassedOnKeeps(front);
        OneMore(front, PassedOn(front), keep, last);
        assert frames == front + [last];
      }
    }

    /** What it writes while it gets them. */
    ghost function AllReplyWrites(frames: seq<Frames.Frame>, outcome: nat -> Transport.WriteOutcome): seq<Transport.Write> {
      if frames == [] then []
      else
        var n := |frames| - 1;
        AllReplyWrites(frames[..n], outcome) + ReplyWrites(frames[n].kind, outcome(n))
    }

    /**
     The writes are one reply to each of the frames at these places, in order; the write of the
     reply to the i-th of the n frames fares as outcome(i) says.
     */
    ghost predicate RepliesTo(n: nat, outcome: nat -> Transport.WriteOutcome, at: seq<nat>, writes: seq<Transport.Write>)
      requires heartbeatReplyKind.Some? && heartbeatReplyKind.value <= 255
    {
      |writes| == |at| && forall j :: 0 <= j < |at| ==>
        at[j] < n && writes[j] == Transport.Attempt(Frames.Frame(heartbeatReplyKind.value, []), outcome(at[j]))
    }

    lemma Reply(kind: nat, outcome: Transport.WriteOutcome)
      requires heartbeatReplyKind.Some? && heartbeatReplyKind != heartbeatKind && heartbeatReplyKind.value <= 255
      ensures ReplyWrites(kind, outcome)
              == if Some(kind) == heartbeatKind then [Transport.Attempt(Frames.Frame(heartbeatReplyKind.value, []), outcome)] else []
    {
    }

    lemma LastReply(frames: seq<Frames.Frame>, outcome: nat -> Transport.WriteOutcome)
      requires heartbeatReplyKind.Some? && heartbeatReplyKind != heartbeatKind && heartbeatReplyKind.value <= 255 && frames != []
      ensures Frames.Encodable(Frames.Frame(heartbeatReplyKind.value, []))
      ensures var n := |frames| - 1;
              AllReplyWrites(frames, outcome)
              == AllReplyWrites(frames[..n], outcome)
                 + if Some(frames[n].kind) == heartbeatKind then [Transport.Attempt(Frames.Frame(heartbeatReplyKind.value, []), outcome(n))]
                   else []
    {
      hide Transport.Attempt;
      Reply(frames[|frames| - 1].kind, outcome(|frames| - 1));
      hide ReplyWrites;
    }

    lemma OneMoreProbe(n: nat, outcome: nat -> Transport.WriteOutcome, at: seq<nat>, writes: seq<Transport.Write>, w: Transport.Write)
      requires heartbeatReplyKind.Some? && heartbeatReplyKind.value <= 255 && Ascending(at) && RepliesTo(n, outcome, at, writes)
      ensures RepliesTo(n + 1, outcome, at, writes)
      ensures w == Transport.Attempt(Frames.Frame(heartbeatReplyKind.value, []), outcome(n)) ==>
                Ascending(at + [n]) && RepliesTo(n + 1, outcome, at + [n], writes + [w])
    {
      hide Transport.Attempt;
    }

    lemma RepliesInside(n: nat, outcome: nat -> Transport.WriteOutcome, at: seq<nat>, writes: seq<Transport.Write>, i: nat)
      requires heartbeatReplyKind.Some? && heartbeatReplyKind.value <= 255 && RepliesTo(n, outcome, at, writes) && i < |at|
      ensures at[i] < n
    {
    }

    lemma NoProbes(outcome: nat -> Transport.WriteOutcome)
      requires heartbeatReplyKind.Some? && heartbeatReplyKind.value <= 255
      ensures AllReplyWrites([], outcome) == [] && Ascending([]) && RepliesTo(0, outcome, [], [])
      ensures PlacesOf([], [], (f: Frames.Frame) => Some(f.kind) == heartbeatKind)
    {
    }

    /** Every probe is answered, once and in its turn, and nothing else is, if there is a reply kind other than that of probes. */
    lemma {:induction false} ProbesAreAnswered(frames: seq<Frames.Frame>, outcome: nat -> Transport.WriteOutcome)
      requires heartbeatReplyKind.Some? && heartbeatReplyKind != heartbeatKind && heartbeatReplyKind.value <= 255
      ensures exists at: seq<nat> ::
                && Ascending(at) && RepliesTo(|frames|, outcome, at, AllReplyWrites(frames, outcome))
                && PlacesOf(frames, at, (f: Frames.Frame) => Some(f.kind) == heartbeatKind)
      decreases |frames|
    {
      hide *;
      var isProbe := (f: Frames.Frame) => Some(f.kind) == heartbeatKind;
      if frames == [] {
        NoProbes(outcome);
      } else {
        var n := |frames| - 1;
        var front, last := frames[..n], frames[n];
        ProbesAreAnswered(front, outcome);
        var at: seq<nat> :| && Ascending(at) && RepliesTo(n, outcome, at, AllReplyWrites(front, outcome))
                            && PlacesOf(front, at, isProbe);
        assert frames == front + [last];
        forall i | 0 <= i < |at|
          ensures at[i] < |front|
        {
          RepliesInside(n, outcome, at, AllReplyWrites(front, outcome), i);
        }
        OneMorePlace(front, at, isProbe, last);
        LastReply(frames, outcome);
        OneMoreProbe(n, outcome, at, AllReplyWrites(front, outcome), Transport.Attempt(Frames.Frame(heartbeatReplyKind.value, []), outcome(n)));
        if isProbe(last) {
          assert PlacesOf(frames, at + [n], isProbe);
        } else {
          assert at + [] == at && AllReplyWrites(front, outcome) + [] == AllReplyWrites(front, outcome);
          assert PlacesOf(frames, at, isProbe);
        }
      }
    }

    /** The next frame of the session's stream, if there is one. */
    method TakeFrame(s: Session) returns (frame: Option<Frames.Frame>)
      requires Valid() && StreamsValid() && Holds(s) && s.transport.ReadValid()
      modifies s.transport`readBuf, s.transport`incoming
      ensures Valid() && View() == old(View()) && StreamsValid() && Lines() == old(Lines()) && s.transport.ReadValid()
      ensures Frames.FramesIn(old(s.transport.Pending()))
              == if frame.Some? then [frame.value] + Frames.FramesIn(s.transport.Pending()) else []
      ensures frame.Some? ==> |s.transport.Pending()| < |old(s.transport.Pending())|
      ensures frame.None? ==> Frames.FramesIn(s.transport.Pending()) == []
    {
      hide SessionsAgree, BooksAgree, RegistryStore.SessionRegistry.Valid, View, StreamsValid, Writes, Lines;
      hide Transport.FrameTransport.ReadValid, Transport.FrameTransport.Pending, Transport.FrameTransport.WireValid;
      var r := s.transport.RecvFrame();
      StreamsKept();
      frame := if r.Ok? then Some(r.value) else None;
    }

    /** What the receive loop does with a frame: the session has been heard from, a keepalive is answered, another frame handed on. */
    method TakeIn(s: Session, frame: Frames.Frame, outcome: Transport.WriteOutcome, now: nat) returns (passed: seq<Frames.Frame>)
      requires Valid() && StreamsValid() && Holds(s)
      modifies s`lastRecvMs, s`lastSendMs, s.transport`wire, s.transport`writes
      ensures Valid() && View() == old(View()) && StreamsValid()
      ensures passed == if IsKeepalive(frame.kind) then [] else [frame]
      ensures s.lastRecvMs == now
      ensures s.transport.writes == old(s.transport.writes) + ReplyWrites(frame.kind, outcome)
      ensures Lines() == Streams.After(old(Lines()), ReplyCalls(s.conn.id, frame.kind, outcome))
    {
      hide SessionsAgree, BooksAgree, RegistryStore.SessionRegistry.Valid, View, StreamsValid, Writes, Lines, Transport.FrameTransport.Intact;
      hide ReplyWrites, ReplyCalls, TearsReply, LandsReply, Replies, Torn, NothingFollowsACut;
      s.TouchRecv(now);
      StreamsKept();
      var consumed := HandleKeepalive(s, frame.kind, outcome, now);
      passed := if consumed then [] else [frame];
    }

    /** One round of the receive loop. */
    method Receive(s: Session, outcome: Transport.WriteOutcome, now: nat) returns (frame: Option<Frames.Frame>, passed: seq<Frames.Frame>)
      requires Valid() && StreamsValid() && Holds(s) && s.transport.ReadValid()
      modifies s`lastRecvMs, s`lastSendMs, s.transport
      ensures Valid() && View() == old(View()) && StreamsValid() && s.transport.ReadValid()
      ensures Lines() == if frame.Some? then Streams.After(old(Lines()), ReplyCalls(s.conn.id, frame.value.kind, outcome)) else old(Lines())
      ensures Frames.FramesIn(old(s.transport.Pending()))
              == if frame.Some? then [frame.value] + Frames.FramesIn(s.transport.Pending()) else []
      ensures frame.Some? ==> |s.transport.Pending()| < |old(s.transport.Pending())| && s.lastRecvMs == now
      ensures frame.None? ==> Frames.FramesIn(s.transport.Pending()) == [] && s.lastRecvMs == old(s.lastRecvMs)
      ensures passed == if frame.Some? && !IsKeepalive(frame.value.kind) then [frame.value] else []
      ensures s.transport.writes
              == if frame.Some? then old(s.transport.writes) + ReplyWrites(frame.value.kind, outcome) else old(s.transport.writes)
    {
      hide *;
      frame := TakeFrame(s);
      passed := [];
      if frame.Some? {
        passed := TakeIn(s, frame.value, outcome, now);
      }
    }

    /** The end of the receive loop: a session whose stream has ended is disconnected, and again to be sure, which does nothing more. */
    method EndLoop(s: Session)
      requires Valid() && StreamsValid()
      modifies this`events, this`retiring, registry, stats, known.Values`closed
      ensures Valid() && StreamsValid() && Lines() == Streams.Take(old(Lines()), Streams.Gone({s.conn.id}))
      ensures View() == Arbitration.Disconnect(old(View()), s.conn.id) && s.conn.id !in registry.byId
      ensures events == old(events) + if s.conn.id in old(registry.byId)
                                      then [Disconnected(s.conn.id, old(registry.byId)[s.conn.id].conn.peer, IoFailed)] else []
    {
      hide SessionsAgree, BooksAgree, RegistryStore.SessionRegistry.Valid, StreamsValid, Writes, Lines, Streams.Take;
      Streams.GoneTwice(Lines(), {s.conn.id});
      Disconnect(s.conn.id, IoFailed);
      assert s.conn.id !in View().tables.byId;
      Disconnect(s.conn.id, Remote);
      StreamsKept();
    }

    /** What answering all of these frames is to the streams. */
    ghost function AllReplyCalls(id: SessionId, frames: seq<Frames.Frame>, outcome: nat -> Transport.WriteOutcome): seq<Streams.Call> {
      if frames == [] then []
      else
        var n := |frames| - 1;
        AllReplyCalls(id, frames[..n], outcome) + ReplyCalls(id, frames[n].kind, outcome(n))
    }

    /** No reply gets a byte on the stream when it, or a reply before, has left part of a frame there. */
    ghost predicate RepliesSpareCuts(intact: bool, frames: seq<Frames.Frame>, outcome: nat -> Transport.WriteOutcome) {
      forall j :: 0 <= j < |frames| && LandsReply(frames[j].kind, outcome(j)) ==>
        intact && forall i :: 0 <= i < j ==> !TearsReply(frames[i].kind, outcome(i))
    }

    ghost predicate NoReplyTears(frames: seq<Frames.Frame>, outcome: nat -> Transport.WriteOutcome) {
      forall i :: 0 <= i < |frames| ==> !TearsReply(frames[i].kind, outcome(i))
    }

    lemma OneMoreReply(intact: bool, frames: seq<Frames.Frame>, outcome: nat -> Transport.WriteOutcome)
      requires frames != []
      ensures var n := |frames| - 1;
              && (NoReplyTears(frames, outcome) <==> NoReplyTears(frames[..n], outcome) && !TearsReply(frames[n].kind, outcome(n)))
              && (RepliesSpareCuts(intact, frames, outcome)
                  <==> && RepliesSpareCuts(intact, frames[..n], outcome)
                       && (LandsReply(frames[n].kind, outcome(n)) ==> intact && NoReplyTears(frames[..n], outcome)))
    {
      var n := |frames| - 1;
      hide LandsReply, TearsReply;
      assert forall i :: 0 <= i < n ==> frames[..n][i] == frames[i];
    }

    lemma {:induction false} AfterReplies(l: Streams.Lines, id: SessionId, frames: seq<Frames.Frame>, outcome: nat -> Transport.WriteOutcome)
      requires Streams.Valid(l) && id in l.writes
      ensures var l' := Streams.After(l, AllReplyCalls(id, frames, outcome));
              && Streams.Valid(l') && l'.open == l.open && id in l'.writes
              && Streams.Torn(l') - {id} == Streams.Torn(l) - {id}
              && (Transport.Clean(l'.writes[id]) <==> Transport.Clean(l.writes[id]) && NoReplyTears(frames, outcome))
              && (Streams.NothingFollowsACut(l')
                  <==> Streams.NothingFollowsACut(l) && RepliesSpareCuts(Transport.Clean(l.writes[id]), frames, outcome))
      decreases |frames|
    {
      if frames != [] {
        var n := |frames| - 1;
        var mid := Streams.After(l, AllReplyCalls(id, frames[..n], outcome));
        AfterReplies(l, id, frames[..n], outcome);
        AfterReply(mid, id, frames[n].kind, outcome(n));
        Streams.AfterJoined(l, AllReplyCalls(id, frames[..n], outcome), ReplyCalls(id, frames[n].kind, outcome(n)));
        OneMoreReply(Transport.Clean(l.writes[id]), frames, outcome);
        hide ReplyCalls, LandsReply, TearsReply, NoReplyTears, RepliesSpareCuts;
        hide Streams.After, Streams.Torn, Streams.NothingFollowsACut, Streams.Valid, Transport.Clean;
      }
    }

    /** How far the receive loop has got with these frames: those taken in, those left, and what came of the former. */
    ghost predicate Handled(frames: seq<Frames.Frame>, done: seq<Frames.Frame>, left: seq<Frames.Frame>, passed: seq<Frames.Frame>,
                            before: seq<Transport.Write>, writes: seq<Transport.Write>, outcome: nat -> Transport.WriteOutcome)
    {
      && frames == done + left
      && passed == PassedOn(done)
      && writes == before + AllReplyWrites(done, outcome)
    }

    lemma HandledNone(frames: seq<Frames.Frame>, before: seq<Transport.Write>, outcome: nat -> Transport.WriteOutcome)
      ensures Handled(frames, [], frames, [], before, before, outcome)
    {
    }

    lemma HandledOneMore(frames: seq<Frames.Frame>, done: seq<Frames.Frame>, frame: Frames.Frame, left: seq<Frames.Frame>, passed: seq<Frames.Frame>,
                         before: seq<Transport.Write>, writes: seq<Transport.Write>, outcome: nat -> Transport.WriteOutcome)
      requires Handled(frames, done, [frame] + left, passed, before, writes, outcome)
      ensures Handled(frames, done + [frame], left, passed + (if IsKeepalive(frame.kind) then [] else [frame]),
                      before, writes + ReplyWrites(frame.kind, outcome(|done|)), outcome)
    {
      assert (done + [frame])[..|done|] == done;
      hide ReplyWrites;
      assert before + AllReplyWrites(done, outcome) + ReplyWrites(frame.kind, outcome(|done|))
          == before + (AllReplyWrites(done, outcome) + ReplyWrites(frame.kind, outcome(|done|)));
    }

    lemma CalledNone(l: Streams.Lines, id: SessionId, outcome: nat -> Transport.WriteOutcome)
      ensures Streams.After(l, AllReplyCalls(id, [], outcome)) == l
    {
    }

    lemma CalledOneMore(l: Streams.Lines, id: SessionId, done: seq<Frames.Frame>, frame: Frames.Frame, outcome: nat -> Transport.WriteOutcome)
      ensures Streams.After(l, AllReplyCalls(id, done + [frame], outcome))
           == Streams.After(Streams.After(l, AllReplyCalls(id, done, outcome)), ReplyCalls(id, frame.kind, outcome(|done|)))
    {
      assert (done + [frame])[..|done|] == done;
      Streams.AfterJoined(l, AllReplyCalls(id, done, outcome), ReplyCalls(id, frame.kind, outcome(|done|)));
      hide Streams.After, ReplyCalls;
    }

    lemma HandledAll(frames: seq<Frames.Frame>, done: seq<Frames.Frame>, passed: seq<Frames.Frame>,
                     before: seq<Transport.Write>, writes: seq<Transport.Write>, outcome: nat -> Transport.WriteOutcome)
      requires Handled(frames, done, [], passed, before, writes, outcome)
      ensures frames == done && passed == PassedOn(frames) && writes == before + AllReplyWrites(frames, outcome)
    {
      assert done + [] == done;
    }

    /** What the whole receive loop is to the streams. */
    lemma AfterLoop(l: Streams.Lines, id: SessionId, frames: seq<Frames.Frame>, outcome: nat -> Transport.WriteOutcome)
      requires Streams.Valid(l) && id in l.writes
      ensures var calls := AllReplyCalls(id, frames, outcome);
              var l' := Streams.After(l, calls + [Streams.Gone({id})]);
              && l' == Streams.Take(Streams.After(l, calls), Streams.Gone({id}))
              && Streams.Torn(l') == Streams.Torn(l) - {id}
              && (Streams.NothingFollowsACut(l')
                  <==> Streams.NothingFollowsACut(l) && RepliesSpareCuts(Transport.Clean(l.writes[id]), frames, outcome))
    {
      var calls := AllReplyCalls(id, frames, outcome);
      var mid := Streams.After(l, calls);
      AfterReplies(l, id, frames, outcome);
      Streams.AfterJoined(l, calls, [Streams.Gone({id})]);
      assert Streams.After(mid, [Streams.Gone({id})]) == Streams.Take(mid, Streams.Gone({id}));
      Streams.TornAfterEnding(mid, {id});
      hide Streams.After, Streams.Take, Streams.Torn, Streams.NothingFollowsACut, AllReplyCalls, RepliesSpareCuts;
    }

    lemma LoopFacts(s: Session, outcome: nat -> Transport.WriteOutcome)
      requires Valid() && StreamsValid() && Holds(s)
      ensures var frames := Frames.FramesIn(s.transport.Pending());
              var calls := AllReplyCalls(s.conn.id, frames, outcome);
              var l' := Streams.After(Lines(), calls + [Streams.Gone({s.conn.id})]);
              && l' == Streams.Take(Streams.After(Lines(), calls), Streams.Gone({s.conn.id}))
              && Streams.Torn(l') == Torn() - {s.conn.id}
              && (Streams.NothingFollowsACut(l') <==> NothingFollowsACut() && RepliesSpareCuts(s.transport.Intact(), frames, outcome))
    {
      hide SessionsAgree, StreamsValid, Writes, Lines, Streams.After, Streams.Take, Streams.Torn, Streams.NothingFollowsACut;
      hide Transport.FrameTransport.Intact, Transport.Clean, RepliesSpareCuts, AllReplyCalls;
      LinesValid();
      StreamOf(s);
      AfterLoop(Lines(), s.conn.id, Frames.FramesIn(s.transport.Pending()), outcome);
    }

    /**
     The receive loop of a session (acceptor.rs), to the first error: every frame the stream
     holds is taken in order, keepalives are answered, the others handed on, and at the end the
     session is gone. The i-th frame comes in at time clock(i), and a reply to it fares as
     outcome(i) says.
     */
    method ReceiveLoop(s: Session, outcome: nat -> Transport.WriteOutcome, clock: nat -> nat) returns (passed: seq<Frames.Frame>)
      requires Valid() && StreamsValid() && Holds(s) && s.transport.ReadValid()
      modifies this`events, this`retiring, registry, stats, known.Values`closed, s`lastRecvMs, s`lastSendMs, s.transport
      ensures Valid() && StreamsValid()
      ensures passed == PassedOn(Frames.FramesIn(old(s.transport.Pending())))
      ensures KeepsExactly(Frames.FramesIn(old(s.transport.Pending())), passed,
                           (f: Frames.Frame) => Some(f.kind) != heartbeatKind && Some(f.kind) != heartbeatReplyKind)
      ensures s.transport.writes == old(s.transport.writes) + AllReplyWrites(Frames.FramesIn(old(s.transport.Pending())), outcome)
      ensures var n := |Frames.FramesIn(old(s.transport.Pending()))|;
              s.lastRecvMs == if n == 0 then old(s.lastRecvMs) else clock(n - 1)
      ensures View() == Arbitration.Disconnect(old(View()), s.conn.id) && s.conn.id !in registry.byId
      ensures events == old(events) + if s.conn.id in old(registry.byId)
                                      then [Disconnected(s.conn.id, old(registry.byId)[s.conn.id].conn.peer, IoFailed)] else []
      ensures Torn() == old(Torn()) - {s.conn.id}
      ensures NothingFollowsACut() <==>
              old(NothingFollowsACut()) && RepliesSpareCuts(old(s.transport.Intact()), Frames.FramesIn(old(s.transport.Pending())), outcome)
      ensures Lines() == Streams.After(old(Lines()), AllReplyCalls(s.conn.id, Frames.FramesIn(old(s.transport.Pending())), outcome)
                                                     + [Streams.Gone({s.conn.id})])
    {
      hide *;
      ghost var frames, before, l := Frames.FramesIn(s.transport.Pending()), s.transport.writes, Lines();
      PassedOnKeeps(frames);
      LoopFacts(s, outcome);
      passed := [];
      ghost var done: seq<Frames.Frame> := [];
      var n := 0;
      HandledNone(frames, before, outcome);
      CalledNone(l, s.conn.id, outcome);
      while true
        invariant Valid() && StreamsValid() && s.transport.ReadValid() && View() == old(View())
        invariant Lines() == Streams.After(l, AllReplyCalls(s.conn.id, done, outcome))
        invariant Handled(frames, done, Frames.FramesIn(s.transport.Pending()), passed, before, s.transport.writes, outcome)
        invariant n == |done| && s.lastRecvMs == if n == 0 then old(s.lastRecvMs) else clock(n - 1)
        modifies s`lastRecvMs, s`lastSendMs, s.transport
        decreases |s.transport.Pending()|
      {
        ghost var writes := s.transport.writes;
        var frame, more := Receive(s, outcome(n), clock(n));
        if frame.None? {
          break;
        }
        HandledOneMore(frames, done, frame.value, Frames.FramesIn(s.transport.Pending()), passed, before, writes, outcome);
        CalledOneMore(l, s.conn.id, done, frame.value, outcome);
        passed := passed + more;
        done := done + [frame.value];
        n := n + 1;
      }
      HandledAll(frames, done, passed, before, s.transport.writes, outcome);
      EndLoop(s);
      LinesAre();
    }

    // ------------------------------------------------------------------
    // Connecting and accepting
    // ------------------------------------------------------------------

    /** What `connect` has to do for a peer and its addresses, before any dial. */
    ghost function PlanFor(peer: NodeId, addrs: seq<SocketAddr>, now: nat): Plan
      reads this`shuttingDown, registry, cooldown
    {
      if shuttingDown then Refuse(ShuttingDown)
      else if Registry.GetByPeer(registry.View(), peer).Some? then Reuse(Registry.GetByPeer(registry.View(), peer).value.id)
      else if FirstConnected(registry.View(), addrs).Some? then Reuse(FirstConnected(registry.View(), addrs).value)
      else if |registry.byId| >= maxSessions then Refuse(LimitReached)
      else if NotCooling(cooldown.marks, cooldown.span, peer, addrs, now) == [] then Refuse(AllCooling)
      else Dial(NotCooling(cooldown.marks, cooldown.span, peer, addrs, now))
    }

    ghost predicate NoSessionOf(peer: NodeId)
      reads registry`byId
    {
      forall id :: id in registry.byId ==> registry.byId[id].conn.peer != peer
    }

    ghost predicate NoSessionAt(addrs: seq<SocketAddr>)
      requires registry.Valid()
      reads registry
    {
      forall a :: a in addrs ==> registry.SessionOfAddr(a).None?
    }

    /** Some mark of the address has not run out. */
    ghost predicate Cooling(peer: NodeId, a: SocketAddr, now: nat)
      reads cooldown`marks
    {
      exists i :: 0 <= i < |cooldown.marks| && cooldown.marks[i].key == (peer, a) && now < cooldown.marks[i].at + cooldown.span
    }

    /** The addresses the plan dials are usable ones, all of them. */
    lemma UsableAre(peer: NodeId, addrs: seq<SocketAddr>, now: nat)
      ensures forall a :: a in NotCooling(cooldown.marks, cooldown.span, peer, addrs, now) <==> a in addrs && !Cooling(peer, a, now)
      ensures NotCooling(cooldown.marks, cooldown.span, peer, addrs, now) == [] <==> forall a :: a in addrs ==> Cooling(peer, a, now)
    {
      var usable := NotCooling(cooldown.marks, cooldown.span, peer, addrs, now);
      forall a
        ensures Within(cooldown.marks, (peer, a), cooldown.span, now) <==> Cooling(peer, a, now)
      {
      }
      hide NotCooling, Within, Cooling;
      if usable != [] {
        assert usable[0] in usable;
      }
    }

    lemma NoneConnected(addrs: seq<SocketAddr>)
      requires registry.Valid()
      ensures FirstConnected(registry.View(), addrs).None? <==> NoSessionAt(addrs)
    {
      forall a
        ensures registry.SessionOfAddr(a).None? <==> !(a in registry.View().byAddr && registry.View().byAddr[a] in registry.View().byId)
      {
      }
      hide FirstConnected;
    }

    lemma ConnectedFirst(addrs: seq<SocketAddr>, i: nat)
      requires registry.Valid() && i < |addrs| && registry.SessionOfAddr(addrs[i]).Some? && NoSessionAt(addrs[..i])
      ensures FirstConnected(registry.View(), addrs) == Some(registry.SessionOfAddr(addrs[i]).value.conn.id)
    {
      NoneConnected(addrs[..i]);
      NoneConnected(addrs[..i + 1]);
      assert addrs[i] in addrs[..i + 1];
      FirstConnectedStays(registry.View(), addrs, i);
      assert registry.byId[registry.byAddr[addrs[i]]].conn.id == registry.byAddr[addrs[i]];
    }

    /**
     The plan, case by case and in this order: no connecting while shutting down; a session of the
     peer is reused, and one of the first listed address that has one; the limit; and then the
     addresses that no mark keeps from being dialled, if there are any.
     */
    lemma PlanInOrder(peer: NodeId, addrs: seq<SocketAddr>, now: nat)
      requires registry.Valid()
      ensures var plan := PlanFor(peer, addrs, now);
              && (shuttingDown ==> plan == Refuse(ShuttingDown))
              && (!shuttingDown ==> forall id :: id in registry.byId && registry.byId[id].conn.peer == peer ==> plan == Reuse(id))
              && (!shuttingDown && NoSessionOf(peer) ==>
                    forall i :: 0 <= i < |addrs| && registry.SessionOfAddr(addrs[i]).Some? && NoSessionAt(addrs[..i]) ==>
                      plan == Reuse(registry.SessionOfAddr(addrs[i]).value.conn.id))
              && (!shuttingDown && NoSessionOf(peer) && NoSessionAt(addrs) ==>
                    && (|registry.byId| >= maxSessions ==> plan == Refuse(LimitReached))
                    && (|registry.byId| < maxSessions && (forall a :: a in addrs ==> Cooling(peer, a, now)) ==> plan == Refuse(AllCooling)))
              && (plan.Dial? <==> && !shuttingDown && NoSessionOf(peer) && NoSessionAt(addrs)
                                  && |registry.byId| < maxSessions && exists a :: a in addrs && !Cooling(peer, a, now))
              && (plan.Dial? ==> plan.usable == NotCooling(cooldown.marks, cooldown.span, peer, addrs, now))
    {
      PeerHasOneSession(peer);
      UsableAre(peer, addrs, now);
      NoneConnected(addrs);
      forall i | 0 <= i < |addrs| && registry.SessionOfAddr(addrs[i]).Some? && NoSessionAt(addrs[..i])
        ensures FirstConnected(registry.View(), addrs) == Some(registry.SessionOfAddr(addrs[i]).value.conn.id)
      {
        ConnectedFirst(addrs, i);
      }
      hide NotCooling, Cooling, FirstConnected, NoSessionAt, Registry.GetByPeer, RegistryStore.SessionRegistry.Valid;
    }

    lemma SessionsAre(peer: NodeId)
      requires Valid()
      ensures registry.Valid() && (registry.GetByPeer(peer).None? <==> NoSessionOf(peer)) && NoSessionAt([])
      ensures registry.GetByPeer(peer).Some? ==>
                var s := registry.GetByPeer(peer).value;
                s.conn.peer == peer && s.conn.id in registry.byId && registry.byId[s.conn.id] == s
    {
      hide SessionsAgree, BooksAgree;
      PeerHasOneSession(peer);
    }

    lemma NobodyThereYet(addrs: seq<SocketAddr>, i: nat)
      requires registry.Valid() && i < |addrs| && NoSessionAt(addrs[..i])
      ensures registry.SessionOfAddr(addrs[i]).None? ==> NoSessionAt(addrs[..i + 1])
    {
      assert addrs[..i + 1] == addrs[..i] + [addrs[i]];
    }

    twostate lemma ReuseIsCounted()
      requires old(BooksAgree()) && stats.Valid() && stats.log == old(stats.log) && events == old(events)
      requires stats.duplicateDiscarded == old(stats.duplicateDiscarded) + 1 && reused == old(reused) + 1
      requires discarded == old(discarded) && retiring == old(retiring) && registry.byId == old(registry.byId)
      requires stats.inboundRejected == old(stats.inboundRejected) && known == old(known)
      ensures BooksAgree()
    {
      StillTrue();
    }

    /** A session found to be reused is counted as a discarded duplicate. */
    method CountReuse()
      requires Valid()
      modifies this`reused, stats`duplicateDiscarded
      ensures Valid() && View() == old(View())
      ensures reused == old(reused) + 1 && stats.duplicateDiscarded == old(stats.duplicateDiscarded) + 1
    {
      assert stats.Valid();
      hide SessionsAgree, BooksAgree, RegistryStore.SessionRegistry.Valid;
      stats.RecordDuplicateDiscarded();
      reused := reused + 1;
      ReuseIsCounted();
    }

    /** The first part of `connect`: reuse by peer, reuse by address, the limit, the cooldown filter. */
    method Precheck(peer: NodeId, addrs: seq<SocketAddr>, now: nat) returns (plan: Plan)
      requires Valid() && cooldown.Valid() && cooldown.clock <= now
      modifies this`reused, stats`duplicateDiscarded, cooldown`until, cooldown`clock
      ensures plan == old(PlanFor(peer, addrs, now))
      ensures shuttingDown ==> plan == Refuse(ShuttingDown)
      ensures !shuttingDown ==> forall id :: id in old(registry.byId) && old(registry.byId)[id].conn.peer == peer ==> plan == Reuse(id)
      ensures !shuttingDown && old(NoSessionOf(peer)) ==>
                forall i :: 0 <= i < |addrs| && old(registry.SessionOfAddr(addrs[i])).Some? && old(NoSessionAt(addrs[..i])) ==>
                  plan == Reuse(old(registry.SessionOfAddr(addrs[i])).value.conn.id)
      ensures !shuttingDown && old(NoSessionOf(peer) && NoSessionAt(addrs)) && |old(registry.byId)| >= maxSessions ==>
                plan == Refuse(LimitReached)
      ensures !shuttingDown && old(NoSessionOf(peer) && NoSessionAt(addrs)) && |old(registry.byId)| < maxSessions
              && (forall a :: a in addrs ==> old(Cooling(peer, a, now))) ==>
                plan == Refuse(AllCooling)
      ensures plan.Dial? <==> && !shuttingDown && old(NoSessionOf(peer) && NoSessionAt(addrs))
                              && |old(registry.byId)| < maxSessions && exists a :: a in addrs && !old(Cooling(peer, a, now))
      ensures plan.Dial? ==>
                var marks, span := old(cooldown.marks), cooldown.span;
                KeepsExactly(addrs, plan.usable, a => forall i :: 0 <= i < |marks| && marks[i].key == (peer, a) ==> marks[i].at + span <= now)
      ensures reused == old(reused) + if plan.Reuse? then 1 else 0
      ensures stats.duplicateDiscarded == old(stats.duplicateDiscarded) + if plan.Reuse? then 1 else 0
      ensures Valid() && View() == old(View())
      ensures cooldown.Valid() && cooldown.clock <= now
    {
      hide *;
      SessionsAre(peer);
      PlanInOrder(peer, addrs, now);
      NotCoolingKeeps(cooldown.marks, cooldown.span, peer, addrs, now);
      UsableAre(peer, addrs, now);
      if shuttingDown {
        return Refuse(ShuttingDown);
      }
      var existing := registry.GetByPeer(peer);
      if existing.Some? {
        CountReuse();
        return Reuse(existing.value.conn.id);
      }
      for i := 0 to |addrs|
        invariant Valid() && View() == old(View()) && unchanged(registry) && unchanged(cooldown)
        invariant reused == old(reused) && stats.duplicateDiscarded == old(stats.duplicateDiscarded)
        invariant NoSessionAt(addrs[..i])
      {
        NobodyThereYet(addrs, i);
        var there := registry.SessionOfAddr(addrs[i]);
        if there.Some? {
          CountReuse();
          return Reuse(there.value.conn.id);
        }
      }
      assert addrs[..|addrs|] == addrs;
      if |registry.byId| >= maxSessions {
        return Refuse(LimitReached);
      }
      var usable := cooldown.Usable(peer, addrs, now);
      plan := if usable == [] then Refuse(AllCooling) else Dial(usable);
    }

    /**
     The two dials. The second filter of the fallback list finds nothing to drop; a dial that
     fails leaves its whole list marked.
     */
    method DialBoth(peer: NodeId, usable: seq<SocketAddr>, outside: Outside) returns (connected: bool, dialled: seq<seq<SocketAddr>>)
      requires cooldown.Valid() && outside.Ordered() && cooldown.clock <= outside.t0
      requires forall a :: a in usable ==> !Within(cooldown.marks, (peer, a), cooldown.span, outside.t0)
      modifies cooldown
      ensures cooldown.Valid() && cooldown.clock <= outside.t2
      ensures dialled == DialledLists(usable, outside)
      ensures connected <==> !outside.DialsFail(usable)
      ensures cooldown.marks == if outside.firstDial then old(cooldown.marks)
                                else if connected then old(cooldown.marks) + MarksFor(peer, Preferred(usable), outside.t1)
                                else AfterFailedDials(old(cooldown.marks), peer, usable, outside.t1, outside.t2)
    {
      hide KeepsExactly, AtLevel, Classify, Preferred, Fallback, NotCooling, CooldownTable.Valid;
      var preferred := SelectPreferredAddrs(usable);
      var fallback := FallbackAddrs(usable);
      FallbackHasTheRest(usable);
      NotCoolingLater(cooldown.marks, cooldown.span, peer, fallback, outside.t0, outside.t0);
      fallback := cooldown.Usable(peer, fallback, outside.t0);
      dialled := [preferred];
      if outside.firstDial {
        return true, dialled;
      }
      cooldown.MarkAll(peer, preferred, outside.t1);
      if fallback == [] {
        return false, dialled;
      }
      dialled := dialled + [fallback];
      if outside.secondDial {
        return true, dialled;
      }
      cooldown.MarkAll(peer, fallback, outside.t2);
      return false, dialled;
    }

    twostate lemma WritesWithNewcomer(id: SessionId)
      requires id !in old(known) && id in known && known == old(known)[id := known[id]]
      requires forall i :: i in old(known) ==> unchanged(known[i].transport`writes)
      ensures Writes() == old(Writes())[id := known[id].transport.writes]
    {
    }

    twostate lemma StreamsWithNewcomer(id: SessionId)
      requires old(StreamsValid()) && id !in old(known) && id in known && known == old(known)[id := known[id]]
      requires forall i :: i in old(known) ==> unchanged(known[i].transport`wire) && unchanged(known[i].transport`writes)
      requires known[id].transport !in old(Transports())
      requires known[id].transport.WireValid()
      ensures StreamsValid()
    {
    }

    /** A stream that no session uses yet and that handshakes have left whole. */
    ghost predicate FreshStream(transport: Transport.FrameTransport)
      reads this`known, transport
    {
      transport !in Transports() && transport.WireValid() && transport.Intact()
    }

    lemma StreamIsFresh(session: Session)
      requires Valid() && StreamsValid() && FreshStream(session.transport) && session.conn.id !in known
      ensures session.transport !in Transports() && session.transport.WireValid() && session.transport.Intact()
      ensures forall i :: i in known ==> known[i].transport in Transports()
      ensures Streams.Valid(Lines()) && Lines().open == registry.byId.Keys && Lines().writes == Writes()
      ensures Streams.Possible(Lines(), Streams.Joined(session.conn.id, session.transport.writes, {}))
    {
    }

    /** `activate` for a session whose stream is as the handshake has left it. */
    method Enter(session: Session) returns (id: SessionId)
      requires Valid() && StreamsValid() && FreshStream(session.transport)
      requires session.conn.id !in known && session !in known.Values && !session.closed
      modifies this`events, this`known, this`discarded, this`retiring, registry, stats, session`closed, known.Values`closed
      ensures Valid()
      ensures StreamsValid() && Torn() == old(Torn()) * registry.byId.Keys
      ensures NothingFollowsACut() <==> old(NothingFollowsACut())
      ensures Lines() == Streams.Take(old(Lines()), Streams.Joined(session.conn.id, session.transport.writes, registry.byId.Keys))
      ensures known == old(known)[session.conn.id := session]
      ensures View() == Arbitration.Activate(localId, old(View()), session.conn)
      ensures id == Staying(old(registry.View()), session.conn) && events == old(events) + Announced(old(registry.View()), session.conn)
      ensures stats.inboundRejected == old(stats.inboundRejected) && |registry.byId| <= |old(registry.byId)| + 1
      ensures id in registry.byId && registry.byId[id].conn.peer == session.conn.peer
    {
      hide Valid, View, StreamsValid, Writes, Lines, Arbitration.Activate, Transport.FrameTransport.Intact, Transport.FrameTransport.WireValid;
      hide Streams.Take, Streams.Torn, Streams.NothingFollowsACut, FreshStream;
      StreamIsFresh(session);
      id := Activate(session);
      StreamsWithNewcomer(session.conn.id);
      WritesWithNewcomer(session.conn.id);
      LinesAre();
      Streams.TornAfterJoining(old(Lines()), session.conn.id, session.transport.writes, registry.byId.Keys);
    }

    /** `Session::new` and `activate`: a session with a new identifier is put up for arbitration. */
    method Establish(peer: NodeId, addr: SocketAddr, direction: Direction, transport: Transport.FrameTransport, now: nat, ids: SessionIds)
      returns (id: SessionId, ghost newcomer: Conn)
      requires Valid() && StreamsValid() && FreshStream(transport)
      requires ids.Valid() && known.Keys <= ids.issued
      modifies this`events, this`known, this`discarded, this`retiring, registry, stats, ids, known.Values`closed
      ensures Valid()
      ensures StreamsValid() && Torn() == old(Torn()) * registry.byId.Keys
      ensures NothingFollowsACut() <==> old(NothingFollowsACut())
      ensures Lines() == Streams.Take(old(Lines()), Streams.Joined(newcomer.id, transport.writes, registry.byId.Keys))
      ensures ids.Valid() && known.Keys <= ids.issued
      ensures newcomer.id !in old(known) && newcomer == Conn(newcomer.id, peer, addr, direction)
      ensures newcomer.id in known && known == old(known)[newcomer.id := known[newcomer.id]] && known[newcomer.id].conn == newcomer
      ensures fresh(known[newcomer.id]) && known[newcomer.id].transport == transport
      ensures View() == Arbitration.Activate(localId, old(View()), newcomer)
      ensures id == Staying(old(registry.View()), newcomer) && events == old(events) + Announced(old(registry.View()), newcomer)
      ensures stats.inboundRejected == old(stats.inboundRejected) && |registry.byId| <= |old(registry.byId)| + 1
      ensures id in registry.byId && registry.byId[id].conn.peer == peer
    {
      hide *;
      var number := ids.Next();
      newcomer := Conn(number, peer, addr, direction);
      var session := new Session(Conn(number, peer, addr, direction), transport, now);
      StreamsKept();
      TornKept();
      id := Enter(session);
    }

    /** The last part of `connect`: the handshake, and the session of a peer that has proved who it is. */
    method Greet(peer: NodeId, addr: SocketAddr, outside: Outside, transport: Transport.FrameTransport, ids: SessionIds)
      returns (r: Result<SessionId, ConnectError>, ghost newcomer: Option<Conn>)
      requires Valid() && StreamsValid() && FreshStream(transport)
      requires ids.Valid() && known.Keys <= ids.issued
      requires cooldown.Valid() && cooldown.clock <= outside.t3
      modifies this`events, this`known, this`discarded, this`retiring, registry, stats, cooldown, ids, known.Values`closed
      ensures r.Ok? <==> outside.handshake.Identified? && outside.handshake.verified
      ensures r.Err? ==> newcomer.None? && View() == old(View())
      ensures r.Err? ==> r.error == if outside.handshake.Identified? then NotVerified else NoHandshake
      ensures r.Err? ==>
                var whom := if outside.handshake.Identified? then outside.handshake.peer else peer;
                cooldown.marks == old(cooldown.marks) + [Entry((whom, addr), outside.t3)]
      ensures r.Ok? ==> newcomer.Some? && newcomer.value.id !in old(known)
      ensures r.Ok? ==> newcomer.value == Conn(newcomer.value.id, outside.handshake.peer, addr, Outbound)
      ensures r.Ok? ==> View() == Arbitration.Activate(localId, old(View()), newcomer.value)
      ensures r.Ok? ==> r.value == Staying(old(registry.View()), newcomer.value)
      ensures events == old(events) + if r.Ok? then Announced(old(registry.View()), newcomer.value) else []
      ensures |registry.byId| <= |old(registry.byId)| + 1
      ensures r.Ok? ==> r.value in registry.byId && registry.byId[r.value].conn.peer == outside.handshake.peer
      ensures r.Ok? ==> cooldown.marks == old(cooldown.marks)
      ensures Valid() && cooldown.Valid()
      ensures StreamsValid() && Torn() == old(Torn()) * registry.byId.Keys
      ensures NothingFollowsACut() <==> old(NothingFollowsACut())
      ensures Lines() == if newcomer.None? then old(Lines())
                         else Streams.Take(old(Lines()), Streams.Joined(newcomer.value.id, transport.writes, registry.byId.Keys))
      ensures ids.Valid() && known.Keys <= ids.issued
    {
      hide SessionsAgree, BooksAgree, RegistryStore.SessionRegistry.Valid, View, StreamsValid, Writes, Lines, CooldownTable.Valid;
      TornIsRegistered();
      match outside.handshake {
        case NotIdentified =>
          cooldown.Mark(peer, addr, outside.t3);
          r, newcomer := Err(NoHandshake), None;
          StreamsKept();
        case Identified(found, verified) =>
          if !verified {
            cooldown.Mark(found, addr, outside.t3);
            r, newcomer := Err(NotVerified), None;
            StreamsKept();
          } else {
            var id, conn := Establish(found, addr, Outbound, transport, outside.t3, ids);
            r, newcomer := Ok(id), Some(conn);
          }
      }
    }

    /** The part of `connect` that touches the network. */
    method DialAndGreet(peer: NodeId, usable: seq<SocketAddr>, outside: Outside, transport: Transport.FrameTransport, ids: SessionIds)
      returns (r: Result<SessionId, ConnectError>, dialled: seq<seq<SocketAddr>>, ghost newcomer: Option<Conn>)
      requires Valid() && StreamsValid() && FreshStream(transport)
      requires ids.Valid() && known.Keys <= ids.issued
      requires cooldown.Valid() && outside.Ordered() && cooldown.clock <= outside.t0
      requires usable != [] && forall a :: a in usable ==> !Within(cooldown.marks, (peer, a), cooldown.span, outside.t0)
      modifies this`events, this`known, this`discarded, this`retiring, registry, stats, cooldown, ids, known.Values`closed
      ensures newcomer.None? ==> View() == old(View())
      ensures newcomer.Some? ==> newcomer.value.id !in old(known) && View() == Arbitration.Activate(localId, old(View()), newcomer.value)
      ensures newcomer.Some? ==> r.Ok? && r.value in registry.byId && registry.byId[r.value].conn.peer == newcomer.value.peer
      ensures newcomer.Some? ==> r == Ok(Staying(old(registry.View()), newcomer.value))
      ensures events == old(events) + if newcomer.Some? then Announced(old(registry.View()), newcomer.value) else []
      ensures |registry.byId| <= |old(registry.byId)| + 1
      ensures Answers(Dial(usable), peer, outside, r, dialled, newcomer, old(cooldown.marks), cooldown.marks)
      ensures Valid() && cooldown.Valid()
      ensures StreamsValid() && Torn() == old(Torn()) * registry.byId.Keys
      ensures NothingFollowsACut() <==> old(NothingFollowsACut())
      ensures Lines() == if newcomer.None? then old(Lines())
                         else Streams.Take(old(Lines()), Streams.Joined(newcomer.value.id, transport.writes, registry.byId.Keys))
      ensures ids.Valid() && known.Keys <= ids.issued
    {
      hide SessionsAgree, BooksAgree, RegistryStore.SessionRegistry.Valid, View, StreamsValid, Writes, Lines, CooldownTable.Valid, DialledLists;
      TornIsRegistered();
      var connected;
      connected, dialled := DialBoth(peer, usable, outside);
      StreamsKept();
      if !connected {
        return Err(DialFailed), dialled, None;
      }
      r, newcomer := Greet(peer, outside.Remote(usable), outside, transport, ids);
    }

    lemma PlannedAreFree(peer: NodeId, addrs: seq<SocketAddr>, now: nat)
      ensures var plan := PlanFor(peer, addrs, now);
              plan.Dial? ==> plan.usable != [] && forall a :: a in plan.usable ==> !Within(cooldown.marks, (peer, a), cooldown.span, now)
    {
    }

    /** `connect` */
    method Connect(peer: NodeId, addrs: seq<SocketAddr>, outside: Outside, transport: Transport.FrameTransport, ids: SessionIds)
      returns (r: Result<SessionId, ConnectError>, dialled: seq<seq<SocketAddr>>, ghost newcomer: Option<Conn>)
      requires Valid() && StreamsValid() && FreshStream(transport)
      requires ids.Valid() && known.Keys <= ids.issued
      requires cooldown.Valid() && outside.Ordered() && cooldown.clock <= outside.t0
      modifies this`events, this`known, this`discarded, this`retiring, this`reused, registry, stats, cooldown, ids, known.Values`closed
      ensures newcomer.None? ==> View() == old(View())
      ensures newcomer.Some? ==> newcomer.value.id !in old(known) && View() == Arbitration.Activate(localId, old(View()), newcomer.value)
      ensures newcomer.Some? ==> r.Ok? && r.value in registry.byId && registry.byId[r.value].conn.peer == newcomer.value.peer
      ensures newcomer.Some? ==> r == Ok(Staying(old(registry.View()), newcomer.value))
      ensures events == old(events) + if newcomer.Some? then Announced(old(registry.View()), newcomer.value) else []
      ensures reused == old(reused) + if old(PlanFor(peer, addrs, outside.t0)).Reuse? then 1 else 0
      ensures old(PlanFor(peer, addrs, outside.t0)).Reuse? ==> stats.duplicateDiscarded == old(stats.duplicateDiscarded) + 1
      ensures Answers(old(PlanFor(peer, addrs, outside.t0)), peer, outside, r, dialled, newcomer, old(cooldown.marks), cooldown.marks)
      ensures shuttingDown ==> r == Err(ShuttingDown) && dialled == []
      ensures !shuttingDown ==>
                forall id :: id in old(registry.byId) && old(registry.byId)[id].conn.peer == peer ==> r == Ok(id) && dialled == []
      ensures !shuttingDown && old(NoSessionOf(peer)) ==>
                forall i :: 0 <= i < |addrs| && old(registry.SessionOfAddr(addrs[i])).Some? && old(NoSessionAt(addrs[..i])) ==>
                  r == Ok(old(registry.SessionOfAddr(addrs[i])).value.conn.id) && dialled == []
      ensures !shuttingDown && old(NoSessionOf(peer) && NoSessionAt(addrs)) && |old(registry.byId)| >= maxSessions ==>
                r == Err(LimitReached) && dialled == []
      ensures !shuttingDown && old(NoSessionOf(peer) && NoSessionAt(addrs)) && |old(registry.byId)| < maxSessions
              && (forall a :: a in addrs ==> old(Cooling(peer, a, outside.t0))) ==>
                r == Err(AllCooling) && dialled == []
      ensures dialled != [] <==> && !shuttingDown && old(NoSessionOf(peer) && NoSessionAt(addrs))
                                 && |old(registry.byId)| < maxSessions && exists a :: a in addrs && !old(Cooling(peer, a, outside.t0))
      ensures dialled == [] ==> newcomer.None? && cooldown.marks == old(cooldown.marks)
      ensures dialled != [] ==>
                forall a :: a in dialled[0] <==>
                              && a in addrs && !old(Cooling(peer, a, outside.t0))
                              && forall b :: b in addrs && !old(Cooling(peer, b, outside.t0)) ==> Level(a) <= Level(b)
      ensures |dialled| > 1 ==>
                && |dialled| == 2 && !outside.firstDial
                && forall a :: a in dialled[1] <==> a in addrs && !old(Cooling(peer, a, outside.t0)) && a !in dialled[0]
      ensures |old(registry.byId)| <= maxSessions ==> |registry.byId| <= maxSessions
      ensures Valid() && cooldown.Valid()
      ensures StreamsValid() && Torn() == old(Torn()) * registry.byId.Keys
      ensures NothingFollowsACut() <==> old(NothingFollowsACut())
      ensures Lines() == if newcomer.None? then old(Lines())
                         else Streams.Take(old(Lines()), Streams.Joined(newcomer.value.id, transport.writes, registry.byId.Keys))
      ensures ids.Valid() && known.Keys <= ids.issued
    {
      hide *;
      TornIsRegistered();
      newcomer := None;
      SessionsAre(peer);
      PlanInOrder(peer, addrs, outside.t0);
      UsableAre(peer, addrs, outside.t0);
      PlannedAreFree(peer, addrs, outside.t0);
      var plan := Precheck(peer, addrs, outside.t0);
      StreamsKept();
      TornKept();
      AnsweredAtOnce(plan, peer, outside, cooldown.marks);
      if plan.Refuse? {
        return Err(plan.error), [], None;
      }
      if plan.Reuse? {
        return Ok(plan.id), [], None;
      }
      r, dialled, newcomer := DialAndGreet(peer, plan.usable, outside, transport, ids);
      DialledAre(plan.usable, peer, outside, r, dialled, newcomer, old(cooldown.marks), cooldown.marks);
    }

    twostate lemma RefusalIsCounted(e: Event)
      requires old(BooksAgree()) && stats.Valid() && IsRefusal(e) && events == old(events) + [e]
      requires stats.inboundRejected == old(stats.inboundRejected) + 1 && stats.log == old(stats.log)
      requires stats.duplicateDiscarded == old(stats.duplicateDiscarded)
      requires discarded == old(discarded) && reused == old(reused) && retiring == old(retiring) && registry.byId == old(registry.byId)
      requires known == old(known)
      ensures BooksAgree()
    {
      OneMoreIsTrue(e);
      hide TellsTrue, EventsTellTrue;
      StorySnoc(old(events), e);
      assert Story(old(events)) + [] == Story(old(events));
    }

    /** Turns an incoming connection away: counted and announced. */
    method Reject(addr: SocketAddr, why: RejectReason)
      requires Valid() && StreamsValid() && !why.Duplicate?
      modifies this`events, stats`inboundRejected
      ensures Valid() && View() == old(View()) && events == old(events) + [Rejected(addr, why)]
      ensures stats.inboundRejected == old(stats.inboundRejected) + 1
      ensures StreamsValid() && Lines() == old(Lines())
    {
      hide SessionsAgree, BooksAgree, RegistryStore.SessionRegistry.Valid, StreamsValid, Writes, Lines, EventsTellTrue, Stats.SessionStats.Valid;
      StatsAreValid();
      stats.RecordInboundRejected();
      events := events + [Rejected(addr, why)];
      RefusalIsCounted(Rejected(addr, why));
      StreamsKept();
    }

    /** `spawn_inbound`: the limit, the handshake, and then the same arbitration as for a dialled connection. */
    method AcceptInbound(transport: Transport.FrameTransport, addr: SocketAddr, handshake: Handshake, now: nat, ids: SessionIds)
      returns (ghost newcomer: Option<Conn>)
      requires Valid() && StreamsValid() && FreshStream(transport)
      requires ids.Valid() && known.Keys <= ids.issued
      modifies this`events, this`known, this`discarded, this`retiring, registry, stats, ids, known.Values`closed
      ensures newcomer.Some? <==> !shuttingDown && |old(registry.byId)| < maxSessions && handshake.Identified? && handshake.verified
      ensures newcomer.None? ==> View() == old(View())
      ensures shuttingDown ==> events == old(events)
      ensures !shuttingDown && |old(registry.byId)| >= maxSessions ==> events == old(events) + [Rejected(addr, MaxSessions)]
      ensures !shuttingDown && |old(registry.byId)| < maxSessions && handshake.NotIdentified? ==>
                events == old(events) + [Rejected(addr, HandshakeFailed)]
      ensures !shuttingDown && |old(registry.byId)| < maxSessions && handshake.Identified? && !handshake.verified ==>
                events == old(events) + [Rejected(addr, Unauthenticated)]
      ensures newcomer.Some? ==> events == old(events) + Announced(old(registry.View()), newcomer.value)
      ensures |old(registry.byId)| <= maxSessions ==> |registry.byId| <= maxSessions
      ensures stats.inboundRejected == old(stats.inboundRejected) + if shuttingDown || newcomer.Some? then 0 else 1
      ensures newcomer.Some? ==> newcomer.value.id !in old(known) && newcomer.value == Conn(newcomer.value.id, handshake.peer, addr, Inbound)
      ensures newcomer.Some? ==> newcomer.value.id in known && known == old(known)[newcomer.value.id := known[newcomer.value.id]]
      ensures newcomer.Some? ==> fresh(known[newcomer.value.id]) && known[newcomer.value.id].transport == transport
      ensures newcomer.Some? ==> View() == Arbitration.Activate(localId, old(View()), newcomer.value)
      ensures Valid()
      ensures StreamsValid() && Torn() == old(Torn()) * registry.byId.Keys
      ensures NothingFollowsACut() <==> old(NothingFollowsACut())
      ensures Lines() == if newcomer.None? then old(Lines())
                         else Streams.Take(old(Lines()), Streams.Joined(newcomer.value.id, transport.writes, registry.byId.Keys))
      ensures ids.Valid() && known.Keys <= ids.issued
    {
      hide SessionsAgree, BooksAgree, RegistryStore.SessionRegistry.Valid, View, StreamsValid, Writes, Lines;
      newcomer := None;
      TornIsRegistered();
      if shuttingDown {
        return;
      }
      if |registry.byId| >= maxSessions {
        Reject(addr, MaxSessions);
        return;
      }
      match handshake {
        case NotIdentified =>
          Reject(addr, HandshakeFailed);
        case Identified(peer, verified) =>
          if !verified {
            Reject(addr, Unauthenticated);
            return;
          }
          var _, conn := Establish(peer, addr, Inbound, transport, now, ids);
          newcomer := Some(conn);
      }
    }
  }

  // ------------------------------------------------------------------
  // What callers can rely on
  // ------------------------------------------------------------------

  lemma DialledIsUsable(usable: seq<SocketAddr>, a: SocketAddr)
    requires a in Preferred(usable) || a in Fallback(usable)
    ensures a in usable
  {
  }

  lemma OnlyUsableAreDialled(usable: seq<SocketAddr>, outside: Outside)
    ensures forall list, a :: list in DialledLists(usable, outside) && a in list ==> a in usable
  {
    forall list, a | list in DialledLists(usable, outside) && a in list
      ensures a in usable
    {
      DialledIsUsable(usable, a);
    }
  }

  lemma AllUsableAreDialled(usable: seq<SocketAddr>, outside: Outside)
    requires outside.DialsFail(usable)
    ensures forall a :: a in usable ==> exists list :: list in DialledLists(usable, outside) && a in list
  {
    var p, f := Preferred(usable), Fallback(usable);
    DialPlan(usable);
    hide Preferred, Fallback;
    assert p in DialledLists(usable, outside) && (f == [] || f in DialledLists(usable, outside));
    forall a | a in usable
      ensures exists list :: list in DialledLists(usable, outside) && a in list
    {
      assert a in multiset(p) + multiset(f);
      assert a in p || a in f;
    }
  }

  /**
   A call of `connect` that dials hands the dialler usable addresses only. When it gives up on
   dialling it has tried every one of them, and it leaves them all in cooldown if and only if
   the cooldown that the first dial started has not run out by the end of the second.
   */
  lemma FailedConnect(peer: NodeId, usable: seq<SocketAddr>, outside: Outside, r: Result<SessionId, ConnectError>,
                      dialled: seq<seq<SocketAddr>>, newcomer: Option<Conn>,
                      marks: seq<Entry<Key>>, marks': seq<Entry<Key>>, span: nat)
    requires Answers(Dial(usable), peer, outside, r, dialled, newcomer, marks, marks') && outside.Ordered()
    requires forall a :: a in usable ==> !Within(marks, (peer, a), span, outside.t0)
    ensures forall list, a :: list in dialled && a in list ==> a in usable
    ensures r == Err(DialFailed) ==> forall a :: a in usable ==> exists list :: list in dialled && a in list
    ensures r == Err(DialFailed) ==>
              var end := if |dialled| == 1 then outside.t1 else outside.t2;
              (forall a :: a in usable ==> Within(marks', (peer, a), span, end)) <==> end < outside.t1 + span
  {
    OnlyUsableAreDialled(usable, outside);
    if r == Err(DialFailed) {
      AllUsableAreDialled(usable, outside);
      var end := if |dialled| == 1 then outside.t1 else outside.t2;
      assert marks' == AfterFailedDials(marks, peer, usable, outside.t1, end);
      hide *;
      FailedDialsLeaveAllCooling(marks, span, peer, usable, outside.t0, outside.t1, end);
    }
  }
}
