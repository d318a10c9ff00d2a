/**
 Arbitration between connections to the same peer (mod.rs, `activate` and `disconnect`),
 with each call taken as one atomic step of a node.
 */
module Arbitration {
  import opened Wrappers
  import opened Sessions
  import opened Registry
  import Stats

  /** What a node keeps: its tables, its lifecycle log, the sessions discarded as duplicates, and the ids it closed. */
  datatype Node = Node(
    tables: Tables,
    log: seq<Stats.Entry>,
    discarded: seq<SessionId>,
    shut: set<SessionId>)

  const FRESH := Node(EMPTY, [], [], {})

  /** The direction both ends agree to keep: the connection dialled by the smaller identifier. */
  function Expected(local: NodeId, peer: NodeId): Direction {
    if local < peer then Outbound else Inbound
  }

  predicate Wins(local: NodeId, c: Conn, existing: Conn) {
    c.direction == Expected(local, c.peer) && existing.direction != Expected(local, c.peer)
  }

  function Discard(n: Node, c: Conn): Node {
    n.(discarded := n.discarded + [c.id], shut := n.shut + {c.id})
  }

  function Disconnect(n: Node, id: SessionId): Node {
    if id !in n.tables.byId then n
    else n.(tables := Remove(n.tables, id), log := n.log + [Stats.Closed(id)], shut := n.shut + {id})
  }

  function Admit(n: Node, c: Conn): Node {
    if GetByPeer(n.tables, c.peer).Some? then Discard(n, c)
    else n.(tables := Insert(n.tables, c), log := n.log + [Stats.Established(c.id)])
  }

  function Activate(local: NodeId, n: Node, c: Conn): Node {
    match GetByPeer(n.tables, c.peer)
    case None => Admit(n, c)
    case Some(existing) =>
      if Wins(local, c, existing) then Admit(Disconnect(n, existing.id), c) else Discard(n, c)
  }

  /** An activation with a new identifier keeps the tables well formed. */
  lemma ActivateKeepsWellFormed(local: NodeId, n: Node, c: Conn)
    requires WellFormed(n.tables) && c.id !in n.tables.byId
    ensures WellFormed(Activate(local, n, c).tables)
  {
    match GetByPeer(n.tables, c.peer)
    case None => InsertKeepsWellFormed(n.tables, c);
    case Some(existing) =>
      RemoveKeepsWellFormed(n.tables, existing.id);
      InsertKeepsWellFormed(Remove(n.tables, existing.id), c);
  }

  // ------------------------------------------------------------------
  // The survivor of a sequence of activations
  // ------------------------------------------------------------------

  function ActivateAll(local: NodeId, n: Node, cs: seq<Conn>): Node {
    if cs == [] then n
    else Activate(local, ActivateAll(local, n, cs[..|cs| - 1]), cs[|cs| - 1])
  }

  /** The first of the given direction. */
  function FirstIn(cs: seq<Conn>, d: Direction): (r: Option<Conn>)
    ensures r.None? <==> forall i :: 0 <= i < |cs| ==> cs[i].direction != d
    ensures r.Some? ==> exists i :: 0 <= i < |cs| && cs[i] == r.value && cs[i].direction == d
                                    && forall j :: 0 <= j < i ==> cs[j].direction != d
  {
    if cs == [] then None
    else if cs[0].direction == d then Some(cs[0])
    else
      var rest := FirstIn(cs[1..], d);
      assert rest.Some? ==> exists i :: 0 <= i < |cs| && cs[i] == rest.value && cs[i].direction == d
                                        && forall j :: 0 <= j < i ==> cs[j].direction != d by {
        if rest.Some? {
          var i :| 0 <= i < |cs[1..]| && cs[1..][i] == rest.value && cs[1..][i].direction == d
                   && forall j :: 0 <= j < i ==> cs[1..][j].direction != d;
          assert cs[i + 1] == rest.value;
          assert forall j :: 0 <= j < i + 1 ==> j == 0 || cs[j] == cs[1..][j - 1];
        }
      }
      rest
  }

  /** The first in the expected direction if there is one, and otherwise the first of all. */
  function Survivor(local: NodeId, cs: seq<Conn>): Conn
    requires cs != []
  {
    match FirstIn(cs, Expected(local, cs[0].peer))
    case Some(c) => c
    case None => cs[0]
  }

  /** How often a session has been counted out, as closed or as a discarded duplicate. */
  ghost function CountedOut(n: Node, id: SessionId): nat {
    multiset(n.log)[Stats.Closed(id)] + multiset(n.discarded)[id]
  }

  lemma {:induction false} FirstInSnoc(cs: seq<Conn>, c: Conn, d: Direction)
    ensures FirstIn(cs + [c], d) == if FirstIn(cs, d).Some? then FirstIn(cs, d)
                                    else if c.direction == d then Some(c) else None
  {
    if cs != [] {
      FirstInSnoc(cs[1..], c, d);
      assert (cs + [c])[1..] == cs[1..] + [c];
    }
  }

  /** A batch of activations: one peer, new and distinct identifiers, and nothing registered for the peer yet. */
  ghost predicate Batch(n: Node, peer: NodeId, cs: seq<Conn>) {
    && WellFormed(n.tables) && GetByPeer(n.tables, peer).None?
    && (forall i :: 0 <= i < |cs| ==> cs[i].peer == peer && cs[i].id !in n.tables.byId && cs[i].id !in n.shut)
    && (forall i, j :: 0 <= i < j < |cs| ==> cs[i].id != cs[j].id)
  }

  ghost function Ids(cs: seq<Conn>): set<SessionId> {
    set i | 0 <= i < |cs| :: cs[i].id
  }

  /** The survivor is what a batch adds to the registry; every other session of it is closed and counted out once. */
  ghost predicate Arbitrated(n: Node, ids: set<SessionId>, survivor: Conn, n': Node) {
    && WellFormed(n'.tables)
    && n'.tables.byId == n.tables.byId[survivor.id := survivor]
    && n'.shut == n.shut + (ids - {survivor.id})
    && forall id :: CountedOut(n', id) == CountedOut(n, id) + if id in ids && id != survivor.id then 1 else 0
  }

  ghost predicate Admitted(n: Node, c: Conn, n': Node) {
    && WellFormed(n'.tables)
    && n'.tables.byId == n.tables.byId[c.id := c]
    && n'.shut == n.shut
  }

  lemma NewPeerIsAdmitted(local: NodeId, n: Node, c: Conn)
    requires WellFormed(n.tables) && GetByPeer(n.tables, c.peer).None? && c.id !in n.tables.byId
    ensures Admitted(n, c, Activate(local, n, c))
  {
    ActivateKeepsWellFormed(local, n, c);
  }

  lemma FirstOfBatch(local: NodeId, n: Node, c: Conn)
    requires WellFormed(n.tables) && GetByPeer(n.tables, c.peer).None? && c.id !in n.tables.byId
    ensures Arbitrated(n, {c.id}, c, Activate(local, n, c))
  {
    ActivateKeepsWellFormed(local, n, c);
  }

  ghost predicate Discarded(n: Node, c: Conn, n': Node) {
    && n'.tables == n.tables
    && n'.shut == n.shut + {c.id}
    && forall id :: CountedOut(n', id) == CountedOut(n, id) + if id == c.id then 1 else 0
  }

  ghost predicate Replaced(n: Node, s: Conn, c: Conn, n': Node) {
    && WellFormed(n'.tables)
    && n'.tables.byId == (n.tables.byId - {s.id})[c.id := c]
    && n'.shut == n.shut + {s.id}
    && forall id :: CountedOut(n', id) == CountedOut(n, id) + if id == s.id then 1 else 0
  }

  /** A newcomer that loses to the registered session is discarded, and nothing else changes. */
  lemma LoserIsDiscarded(local: NodeId, n: Node, s: Conn, c: Conn)
    requires GetByPeer(n.tables, c.peer) == Some(s) && !Wins(local, c, s)
    ensures Discarded(n, c, Activate(local, n, c))
  {
  }

  /** A newcomer that wins takes the place of the registered session, which is closed and counted. */
  lemma WinnerReplaces(local: NodeId, n: Node, s: Conn, c: Conn)
    requires WellFormed(n.tables) && c.id !in n.tables.byId
    requires GetByPeer(n.tables, c.peer) == Some(s) && Wins(local, c, s)
    ensures Replaced(n, s, c, Activate(local, n, c))
  {
    RemoveKeepsWellFormed(n.tables, s.id);
    InsertKeepsWellFormed(Remove(n.tables, s.id), c);
    assert Activate(local, n, c).log == n.log + [Stats.Closed(s.id), Stats.Established(c.id)];
  }

  lemma NextLoses(n: Node, ids: set<SessionId>, s: Conn, mid: Node, c: Conn, next: Node)
    requires Arbitrated(n, ids, s, mid) && Discarded(mid, c, next)
    requires s.id in ids && c.id !in ids
    ensures Arbitrated(n, ids + {c.id}, s, next)
  {
    assert ids + {c.id} - {s.id} == ids - {s.id} + {c.id};
  }

  lemma NextWins(n: Node, ids: set<SessionId>, s: Conn, mid: Node, c: Conn, next: Node)
    requires Arbitrated(n, ids, s, mid) && Replaced(mid, s, c, next)
    requires s.id in ids && s.id !in n.tables.byId && c.id !in ids
    ensures Arbitrated(n, ids + {c.id}, c, next)
  {
    assert (mid.tables.byId - {s.id})[c.id := c] == n.tables.byId[c.id := c];
    assert mid.shut + {s.id} == n.shut + ids;
    assert ids + {c.id} - {c.id} == ids;
  }

  lemma NextOfBatch(local: NodeId, n: Node, ids: set<SessionId>, s: Conn, mid: Node, c: Conn)
    requires Arbitrated(n, ids, s, mid) && s.peer == c.peer
    requires s.id in ids && s.id !in n.tables.byId && c.id !in ids && c.id !in n.tables.byId
    ensures Arbitrated(n, ids + {c.id}, if Wins(local, c, s) then c else s, Activate(local, mid, c))
  {
    OneSessionPerPeer(mid.tables, s.id, s.id);
    if Wins(local, c, s) {
      WinnerReplaces(local, mid, s, c);
      NextWins(n, ids, s, mid, c, Activate(local, mid, c));
    } else {
      LoserIsDiscarded(local, mid, s, c);
      NextLoses(n, ids, s, mid, c, Activate(local, mid, c));
    }
  }

  /**
   After any non-empty batch of activations the registered session of the peer is the
   survivor; every other session of the batch is closed, and each of them is counted out
   exactly once. No other session is touched.
   */
  lemma {:induction false} SurvivorIsRegistered(local: NodeId, n: Node, peer: NodeId, cs: seq<Conn>)
    requires Batch(n, peer, cs) && cs != []
    ensures Arbitrated(n, Ids(cs), Survivor(local, cs), ActivateAll(local, n, cs))
  {
    var k := |cs| - 1;
    var front, c := cs[..k], cs[k];
    assert cs == front + [c];
    FirstInSnoc(front, c, Expected(local, peer));
    assert Ids(cs) == Ids(front) + {c.id};
    if front == [] {
      assert ActivateAll(local, n, front) == n;
      FirstOfBatch(local, n, c);
    } else {
      SurvivorIsRegistered(local, n, peer, front);
      assert Survivor(local, front) in front;
      NextOfBatch(local, n, Ids(front), Survivor(local, front), ActivateAll(local, n, front), c);
    }
  }

  /** The survivor is what a lookup by peer then finds. */
  lemma SurvivorIsFound(local: NodeId, n: Node, peer: NodeId, cs: seq<Conn>)
    requires Batch(n, peer, cs) && cs != []
    ensures GetByPeer(ActivateAll(local, n, cs).tables, peer) == Some(Survivor(local, cs))
  {
    SurvivorIsRegistered(local, n, peer, cs);
    var s := Survivor(local, cs);
    assert s in cs;
    OneSessionPerPeer(ActivateAll(local, n, cs).tables, s.id, s.id);
  }
}
