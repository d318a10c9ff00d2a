/**
 The session registry (registry.rs): sessions by identifier, by peer, and by address.

 `Tables` is the value of the three maps and the functions on it are the lock-protected
 operations. They are compared with a registry kept as a plain list of live sessions.
 */
module Registry {
  import opened Wrappers
  import opened Addresses
  import opened Sessions

  datatype Tables = Tables(
    byPeer: map<NodeId, SessionId>,
    byAddr: map<SocketAddr, SessionId>,
    byId: map<SessionId, Conn>)

  const EMPTY := Tables(map[], map[], map[])

  function GetByPeer(t: Tables, peer: NodeId): Option<Conn> {
    if peer in t.byPeer && t.byPeer[peer] in t.byId then Some(t.byId[t.byPeer[peer]]) else None
  }

  function SessionOfAddr(t: Tables, addr: SocketAddr): Option<Conn> {
    if addr in t.byAddr && t.byAddr[addr] in t.byId then Some(t.byId[t.byAddr[addr]]) else None
  }

  function Insert(t: Tables, c: Conn): Tables {
    if GetByPeer(t, c.peer).Some? then t
    else Tables(t.byPeer[c.peer := c.id], t.byAddr[c.addr := c.id], t.byId[c.id := c])
  }

  function Remove(t: Tables, id: SessionId): Tables {
    if id !in t.byId then t
    else
      var gone := t.byId[id];
      Tables(
        if gone.peer in t.byPeer && t.byPeer[gone.peer] == id then t.byPeer - {gone.peer} else t.byPeer,
        if gone.addr in t.byAddr && t.byAddr[gone.addr] == id then t.byAddr - {gone.addr} else t.byAddr,
        t.byId - {id})
  }

  /** The identity check and the removal, taken as one operation. */
  function RemoveIf(t: Tables, id: SessionId, held: Conn): Tables {
    if id in t.byId && t.byId[id] == held then Remove(t, id) else t
  }

  /** `by_peer` and `by_id` are inverse to each other, and `by_addr` only points at live sessions of that address. */
  ghost predicate WellFormed(t: Tables) {
    && (forall id :: id in t.byId ==>
          && t.byId[id].id == id
          && t.byId[id].peer in t.byPeer && t.byPeer[t.byId[id].peer] == id)
    && (forall p :: p in t.byPeer ==> t.byPeer[p] in t.byId && t.byId[t.byPeer[p]].peer == p)
    && (forall a :: a in t.byAddr ==> t.byAddr[a] in t.byId && t.byId[t.byAddr[a]].addr == a)
  }

  lemma InsertKeepsWellFormed(t: Tables, c: Conn)
    requires WellFormed(t) && c.id !in t.byId
    ensures WellFormed(Insert(t, c))
  {
  }

  lemma RemoveKeepsWellFormed(t: Tables, id: SessionId)
    requires WellFormed(t)
    ensures WellFormed(Remove(t, id))
  {
  }

  /** At most one session per peer, and it is the one the peer's entry names. */
  lemma OneSessionPerPeer(t: Tables, i: SessionId, j: SessionId)
    requires WellFormed(t) && i in t.byId && j in t.byId && t.byId[i].peer == t.byId[j].peer
    ensures i == j && GetByPeer(t, t.byId[i].peer) == Some(t.byId[i])
  {
  }

  /** Removing a session, however late, leaves every other session and what points at it alone. */
  lemma RemovalDisturbsNoOther(t: Tables, id: SessionId, p: NodeId, a: SocketAddr, other: SessionId)
    requires WellFormed(t) && other != id
    ensures other in Remove(t, id).byId <==> other in t.byId
    ensures other in t.byId ==> Remove(t, id).byId[other] == t.byId[other]
    ensures (p in t.byPeer && t.byPeer[p] == other) <==> (p in Remove(t, id).byPeer && Remove(t, id).byPeer[p] == other)
    ensures (a in t.byAddr && t.byAddr[a] == other) <==> (a in Remove(t, id).byAddr && Remove(t, id).byAddr[a] == other)
    ensures id !in Remove(t, id).byId
    ensures !(a in Remove(t, id).byAddr && Remove(t, id).byAddr[a] == id)
    ensures !(p in Remove(t, id).byPeer && Remove(t, id).byPeer[p] == id)
  {
  }

  // ------------------------------------------------------------------
  // The registry as a list of live sessions
  // ------------------------------------------------------------------

  datatype Op =
    | InsertOp(c: Conn)
    | RemoveOp(id: SessionId)
    | RemoveIfOp(id: SessionId, held: Conn)
    | DrainOp

  function Apply(t: Tables, op: Op): Tables {
    match op
    case InsertOp(c) => Insert(t, c)
    case RemoveOp(id) => Remove(t, id)
    case RemoveIfOp(id, held) => RemoveIf(t, id, held)
    case DrainOp => EMPTY
  }

  function Run(log: seq<Op>): Tables {
    if log == [] then EMPTY else Apply(Run(log[..|log| - 1]), log[|log| - 1])
  }

  /** Every inserted session carries an identifier no other inserted session has. */
  ghost predicate FreshIds(log: seq<Op>) {
    forall i, j :: 0 <= i < j < |log| && log[i].InsertOp? && log[j].InsertOp? ==> log[i].c.id != log[j].c.id
  }

  /** Reference state: the live sessions, oldest first, and the session taken in last at each address, live or not. */
  datatype Ref = Ref(live: seq<Conn>, last: map<SocketAddr, SessionId>)

  predicate PeerTaken(live: seq<Conn>, peer: NodeId) {
    exists i :: 0 <= i < |live| && live[i].peer == peer
  }

  function Without(live: seq<Conn>, id: SessionId): (r: seq<Conn>)
    ensures forall c :: c in r <==> c in live && c.id != id
  {
    if live == [] then []
    else if live[0].id == id then Without(live[1..], id)
    else [live[0]] + Without(live[1..], id)
  }

  /** A session of a peer that is already live is not taken in. */
  function RefApply(r: Ref, op: Op): Ref {
    match op
    case InsertOp(c) => if PeerTaken(r.live, c.peer) then r else Ref(r.live + [c], r.last[c.addr := c.id])
    case RemoveOp(id) => r.(live := Without(r.live, id))
    case RemoveIfOp(id, held) => if held in r.live && held.id == id then r.(live := Without(r.live, id)) else r
    case DrainOp => r.(live := [])
  }

  function RefRun(log: seq<Op>): Ref {
    if log == [] then Ref([], map[]) else RefApply(RefRun(log[..|log| - 1]), log[|log| - 1])
  }

  ghost predicate SameSessions(t: Tables, live: seq<Conn>) {
    && (forall id :: id in t.byId ==> t.byId[id] in live)
    && (forall c :: c in live ==> c.id in t.byId && t.byId[c.id] == c)
  }

  /** An address has an entry exactly when the session taken in last there is live, and it names that session. */
  ghost predicate SameAddresses(t: Tables, last: map<SocketAddr, SessionId>) {
    forall a :: if a in last && last[a] in t.byId then a in t.byAddr && t.byAddr[a] == last[a] else a !in t.byAddr
  }

  ghost predicate Represents(t: Tables, r: Ref) {
    WellFormed(t) && SameSessions(t, r.live) && SameAddresses(t, r.last)
  }

  ghost predicate Unseen(r: Ref, id: SessionId) {
    (forall c :: c in r.live ==> c.id != id) && (forall a :: a in r.last ==> r.last[a] != id)
  }

  lemma {:induction false} UninsertedIsUnseen(log: seq<Op>, id: SessionId)
    requires forall i :: 0 <= i < |log| && log[i].InsertOp? ==> log[i].c.id != id
    ensures Unseen(RefRun(log), id)
  {
    if log != [] {
      UninsertedIsUnseen(log[..|log| - 1], id);
    }
  }

  lemma PeerLookupAgrees(t: Tables, r: Ref, peer: NodeId)
    requires Represents(t, r)
    ensures GetByPeer(t, peer).Some? <==> PeerTaken(r.live, peer)
  {
    if peer in t.byPeer {
      assert t.byId[t.byPeer[peer]] in r.live;
    }
    if PeerTaken(r.live, peer) {
      var i :| 0 <= i < |r.live| && r.live[i].peer == peer;
      assert r.live[i] in r.live;
    }
  }

  lemma InsertRepresents(t: Tables, r: Ref, c: Conn)
    requires Represents(t, r) && Unseen(r, c.id)
    ensures Represents(Insert(t, c), RefApply(r, InsertOp(c)))
  {
    PeerLookupAgrees(t, r, c.peer);
    if !PeerTaken(r.live, c.peer) {
      assert c.id !in t.byId;
      InsertKeepsWellFormed(t, c);
      assert SameSessions(Insert(t, c), r.live + [c]);
    }
  }

  lemma RemoveRepresents(t: Tables, r: Ref, id: SessionId)
    requires Represents(t, r)
    ensures Represents(Remove(t, id), r.(live := Without(r.live, id)))
  {
    RemoveKeepsWellFormed(t, id);
  }

  lemma RemoveIfRepresents(t: Tables, r: Ref, id: SessionId, held: Conn)
    requires Represents(t, r)
    ensures Represents(RemoveIf(t, id, held), RefApply(r, RemoveIfOp(id, held)))
  {
    RemoveRepresents(t, r, id);
    assert (id in t.byId && t.byId[id] == held) <==> (held in r.live && held.id == id);
  }

  /**
   After any log of operations with fresh identifiers the tables represent the reference: at
   most one session per peer, and an address leads to the session taken in last at that
   address as long as that one is live, whatever older sessions of the address do.
   */
  lemma {:induction false} TablesRepresentLog(log: seq<Op>)
    requires FreshIds(log)
    ensures Represents(Run(log), RefRun(log))
  {
    if log != [] {
      var front := log[..|log| - 1];
      TablesRepresentLog(front);
      match log[|log| - 1]
      case InsertOp(c) =>
        UninsertedIsUnseen(front, c.id);
        InsertRepresents(Run(front), RefRun(front), c);
      case RemoveOp(id) => RemoveRepresents(Run(front), RefRun(front), id);
      case RemoveIfOp(id, held) => RemoveIfRepresents(Run(front), RefRun(front), id, held);
      case DrainOp =>
    }
  }

  /** The lookup by address finds the session taken in last there as long as that one is live, and after that none. */
  lemma AddressLookupFindsTheLatest(log: seq<Op>, addr: SocketAddr, c: Conn)
    requires FreshIds(log)
    ensures SessionOfAddr(Run(log), addr) == Some(c) <==>
            c in RefRun(log).live && addr in RefRun(log).last && RefRun(log).last[addr] == c.id
  {
    TablesRepresentLog(log);
  }
}
