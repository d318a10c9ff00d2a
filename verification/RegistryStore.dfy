/** The registry object: three maps updated in place, each operation against its value in `Registry`. */
module RegistryStore {
  import opened Wrappers
  import opened Addresses
  import opened Sessions
  import R = Registry

  /** The list holds every session of the map, once. */
  ghost predicate HoldsOnce(all: seq<Session>, m: map<SessionId, Session>) {
    && |all| == |m|
    && (forall i :: 0 <= i < |all| ==> all[i].conn.id in m && m[all[i].conn.id] == all[i])
    && (forall i, j :: 0 <= i < j < |all| ==> all[i].conn.id != all[j].conn.id)
  }

  lemma {:induction false} IdsAreCounted(all: seq<Session>, n: nat)
    requires n <= |all| && forall i, j :: 0 <= i < j < |all| ==> all[i].conn.id != all[j].conn.id
    ensures |set i | 0 <= i < n :: all[i].conn.id| == n
  {
    if n > 0 {
      IdsAreCounted(all, n - 1);
      assert (set i | 0 <= i < n :: all[i].conn.id) == (set i | 0 <= i < n - 1 :: all[i].conn.id) + {all[n - 1].conn.id};
    }
  }

  lemma SameSizeIsSame(a: set<SessionId>, b: set<SessionId>)
    requires a <= b && |a| == |b|
    ensures a == b
  {
    assert b == a + (b - a) && |b| == |a| + |b - a|;
  }

  lemma HoldsAll(all: seq<Session>, m: map<SessionId, Session>)
    requires HoldsOnce(all, m)
    ensures forall id :: id in m ==> exists i :: 0 <= i < |all| && all[i].conn.id == id && all[i] == m[id]
  {
    var ids := set i | 0 <= i < |all| :: all[i].conn.id;
    IdsAreCounted(all, |all|);
    assert ids <= m.Keys && |ids| == |m.Keys|;
    SameSizeIsSame(ids, m.Keys);
  }

  method ListSessions(m: map<SessionId, Session>) returns (all: seq<Session>)
    requires forall id :: id in m ==> m[id].conn.id == id
    ensures HoldsOnce(all, m)
  {
    all := [];
    var rest := m;
    while rest != map[]
      invariant forall id :: id in rest ==> id in m && rest[id] == m[id]
      invariant |all| + |rest| == |m|
      invariant forall i :: 0 <= i < |all| ==> all[i].conn.id in m && m[all[i].conn.id] == all[i] && all[i].conn.id !in rest
      invariant forall i, j :: 0 <= i < j < |all| ==> all[i].conn.id != all[j].conn.id
      decreases |rest|
    {
      var id :| id in rest;
      all := all + [rest[id]];
      assert (rest - {id}).Keys == rest.Keys - {id};
      rest := rest - {id};
    }
  }

  class SessionRegistry {
    var byPeer: map<NodeId, SessionId>
    var byAddr: map<SocketAddr, SessionId>
    var byId: map<SessionId, Session>

    /** The three maps as values. */
    ghost function View(): R.Tables
      reads this
    {
      R.Tables(byPeer, byAddr, map id | id in byId :: byId[id].conn)
    }

    ghost predicate Valid()
      reads this
    {
      R.WellFormed(View())
    }

    constructor ()
      ensures Valid() && View() == R.EMPTY && byId == map[]
    {
      byPeer, byAddr, byId := map[], map[], map[];
    }

    /** Refuses the session, with the one that is there, when its peer has one already. */
    method Insert(session: Session) returns (r: Result<(), Session>)
      requires Valid() && session.conn.id !in byId
      modifies this
      ensures Valid() && View() == R.Insert(old(View()), session.conn)
      ensures r.Ok? <==> R.GetByPeer(old(View()), session.conn.peer).None?
      ensures r.Ok? ==> byId == old(byId)[session.conn.id := session]
      ensures r.Err? ==> byId == old(byId) && r.error.conn.id in byId && byId[r.error.conn.id] == r.error
      ensures r.Err? ==> r.error.conn.peer == session.conn.peer
      ensures r.Err? ==> R.GetByPeer(old(View()), session.conn.peer) == Some(r.error.conn)
    {
      R.InsertKeepsWellFormed(View(), session.conn);
      if session.conn.peer in byPeer {
        var existingId := byPeer[session.conn.peer];
        if existingId in byId {
          assert View().byId[existingId] == byId[existingId].conn;
          return Err(byId[existingId]);
        }
      }
      byPeer := byPeer[session.conn.peer := session.conn.id];
      byAddr := byAddr[session.conn.addr := session.conn.id];
      byId := byId[session.conn.id := session];
      assert View().byId == old(View()).byId[session.conn.id := session.conn];
      return Ok(());
    }

    /** Removes by identifier, and clears an index entry only if it still points at the removed session. */
    method Remove(id: SessionId) returns (removed: Option<Session>)
      requires Valid()
      modifies this
      ensures Valid() && View() == R.Remove(old(View()), id)
      ensures byId == old(byId) - {id}
      ensures removed == if id in old(byId) then Some(old(byId)[id]) else None
    {
      R.RemoveKeepsWellFormed(View(), id);
      if id !in byId {
        return None;
      }
      var gone := byId[id];
      byId := byId - {id};
      if gone.conn.peer in byPeer && byPeer[gone.conn.peer] == id {
        byPeer := byPeer - {gone.conn.peer};
      }
      if gone.conn.addr in byAddr && byAddr[gone.conn.addr] == id {
        byAddr := byAddr - {gone.conn.addr};
      }
      assert View().byId == old(View()).byId - {id};
      return Some(gone);
    }

    /** Removes only the very session the caller holds. */
    method RemoveIf(id: SessionId, held: Session) returns (removed: Option<Session>)
      requires Valid()
      modifies this
      ensures Valid()
      ensures removed == if id in old(byId) && old(byId)[id] == held then Some(held) else None
      ensures removed.Some? ==> byId == old(byId) - {id} && View() == R.Remove(old(View()), id)
      ensures removed.None? ==> byId == old(byId) && View() == old(View())
    {
      if id !in byId || byId[id] != held {
        return None;
      }
      removed := Remove(id);
    }

    function GetById(id: SessionId): Option<Session>
      reads this`byId
    {
      if id in byId then Some(byId[id]) else None
    }

    /** The lookup by peer finds a session of that peer, and misses none. */
    function GetByPeer(peer: NodeId): (r: Option<Session>)
      requires Valid()
      reads this
      ensures r.None? <==> forall id :: id in byId ==> byId[id].conn.peer != peer
      ensures r.Some? ==> r.value.conn.peer == peer && GetById(r.value.conn.id) == r
      ensures R.GetByPeer(View(), peer) == if r.Some? then Some(r.value.conn) else None
    {
      assert forall id :: id in byId ==> View().byId[id] == byId[id].conn;
      if peer in byPeer && byPeer[peer] in byId then Some(byId[byPeer[peer]]) else None
    }

    /** The lookup by address finds a session of that address; it may miss one whose entry a later session took. */
    function SessionOfAddr(addr: SocketAddr): (r: Option<Session>)
      requires Valid()
      reads this
      ensures r.Some? ==> r.value.conn.addr == addr && GetById(r.value.conn.id) == r
      ensures R.SessionOfAddr(View(), addr) == if r.Some? then Some(r.value.conn) else None
    {
      assert forall id :: id in byId ==> View().byId[id] == byId[id].conn;
      if addr in byAddr && byAddr[addr] in byId then Some(byId[byAddr[addr]]) else None
    }

    /** Empties the registry and returns every session of it once. */
    method Drain() returns (all: seq<Session>)
      requires Valid()
      modifies this
      ensures Valid() && View() == R.EMPTY && byId == map[]
      ensures HoldsOnce(all, old(byId))
    {
      assert forall id :: id in byId ==> View().byId[id] == byId[id].conn;
      all := ListSessions(byId);
      byId, byPeer, byAddr := map[], map[], map[];
      assert View() == R.EMPTY;
    }
  }
}
