/** Choosing which candidates to connect to (heartbeat.rs, `replenish`). */
module Replenish {
  import opened Addresses
  import opened Sessions
  import opened Sorting
  import RegistryStore

  datatype PeerCandidate = PeerCandidate(peerId: NodeId, addrs: seq<SocketAddr>, weight: int)

  datatype Scored = Scored(score: int, c: PeerCandidate)

  /** The order candidates are taken in: better score first, then smaller node identifier. */
  predicate Before(a: Scored, b: Scored) {
    a.score > b.score || (a.score == b.score && a.c.peerId <= b.c.peerId)
  }

  const BEFORE: (Scored, Scored) -> bool := (a, b) => Before(a, b)

  predicate Eligible(c: PeerCandidate, connected: set<NodeId>) {
    c.addrs != [] && c.peerId !in connected
  }

  function ScoredPool(pool: seq<PeerCandidate>, connected: set<NodeId>, score: PeerCandidate -> int): (r: seq<Scored>)
    ensures forall x :: x in r <==> x.c in pool && Eligible(x.c, connected) && x.score == score(x.c)
  {
    if pool == [] then []
    else
      var front, last := pool[..|pool| - 1], pool[|pool| - 1];
      assert pool == front + [last];
      ScoredPool(front, connected, score) + if Eligible(last, connected) then [Scored(score(last), last)] else []
  }

  function Min(a: int, b: int): int {
    if a <= b then a else b
  }

  /** How many sessions a round may try to add. */
  function Need(current: nat, target: nat, maxSessions: nat, maxPerTick: nat): nat {
    var goal := Min(target, maxSessions);
    if current >= goal then 0 else Min(goal - current, maxPerTick)
  }

  function Chosen(pool: seq<PeerCandidate>, connected: set<NodeId>, score: PeerCandidate -> int, need: nat): seq<Scored> {
    var sorted := Sort(ScoredPool(pool, connected, score), BEFORE);
    if need <= |sorted| then sorted[..need] else sorted
  }

  // ------------------------------------------------------------------
  // What the choice is
  // ------------------------------------------------------------------

  ghost predicate DistinctPeers(pool: seq<PeerCandidate>) {
    forall i, j :: 0 <= i < j < |pool| ==> pool[i].peerId != pool[j].peerId
  }

  lemma BeforeIsTotal()
    ensures TotalPreorder(BEFORE)
  {
  }

  lemma PeersTellCandidatesApart(pool: seq<PeerCandidate>, connected: set<NodeId>, score: PeerCandidate -> int)
    requires DistinctPeers(pool)
    ensures NoTies(ScoredPool(pool, connected, score), BEFORE)
  {
  }

  /** Candidates of distinct peers are listed once each. */
  lemma {:induction false} PoolIsListedOnce(pool: seq<PeerCandidate>, connected: set<NodeId>, score: PeerCandidate -> int)
    requires DistinctPeers(pool)
    ensures forall x :: multiset(ScoredPool(pool, connected, score))[x] <= 1
  {
    if pool != [] {
      var front, last := pool[..|pool| - 1], pool[|pool| - 1];
      assert pool == front + [last];
      PoolIsListedOnce(front, connected, score);
      assert forall c :: c in front ==> c.peerId != last.peerId;
      assert Scored(score(last), last) !in ScoredPool(front, connected, score);
    }
  }

  lemma SamePoolSameScores(pool: seq<PeerCandidate>, pool': seq<PeerCandidate>, connected: set<NodeId>, score: PeerCandidate -> int)
    requires multiset(pool) == multiset(pool') && DistinctPeers(pool) && DistinctPeers(pool')
    ensures multiset(ScoredPool(pool, connected, score)) == multiset(ScoredPool(pool', connected, score))
  {
    var xs, ys := ScoredPool(pool, connected, score), ScoredPool(pool', connected, score);
    PoolIsListedOnce(pool, connected, score);
    PoolIsListedOnce(pool', connected, score);
    forall x: Scored
      ensures multiset(xs)[x] == multiset(ys)[x]
    {
      assert x.c in pool <==> x.c in multiset(pool');
      assert x in xs <==> x in ys;
      assert x in multiset(xs) <==> x in multiset(ys);
    }
  }

  lemma SameElementsNoTies(xs: seq<Scored>, ys: seq<Scored>)
    requires NoTies(xs, BEFORE) && multiset(xs) == multiset(ys)
    ensures NoTies(ys, BEFORE)
    ensures forall x :: x in xs <==> x in ys
  {
    assert forall x :: x in ys ==> x in multiset(xs);
    assert forall x :: x in xs ==> x in multiset(ys);
  }

  /** The choice is the same whatever order the policy lists its candidates in. */
  lemma ChoiceIgnoresPoolOrder(pool: seq<PeerCandidate>, pool': seq<PeerCandidate>, connected: set<NodeId>,
                               score: PeerCandidate -> int, need: nat)
    requires multiset(pool) == multiset(pool') && DistinctPeers(pool) && DistinctPeers(pool')
    ensures Chosen(pool, connected, score, need) == Chosen(pool', connected, score, need)
  {
    var xs, ys := ScoredPool(pool, connected, score), ScoredPool(pool', connected, score);
    hide ScoredPool;
    BeforeIsTotal();
    SamePoolSameScores(pool, pool', connected, score);
    SortHolds(xs, BEFORE);
    SortHolds(ys, BEFORE);
    SortOrders(xs, BEFORE);
    SortOrders(ys, BEFORE);
    PeersTellCandidatesApart(pool, connected, score);
    SameElementsNoTies(xs, Sort(xs, BEFORE));
    OrderedIsUnique(Sort(xs, BEFORE), Sort(ys, BEFORE), BEFORE);
  }

  /** A candidate is scored as often as it is listed. */
  lemma {:induction false} ScoredAsOftenAsListed(pool: seq<PeerCandidate>, connected: set<NodeId>, score: PeerCandidate -> int, x: Scored)
    ensures multiset(ScoredPool(pool, connected, score))[x] <= multiset(pool)[x.c]
  {
    if pool != [] {
      var front, last := pool[..|pool| - 1], pool[|pool| - 1];
      ScoredAsOftenAsListed(front, connected, score, x);
      assert pool == front + [last];
    }
  }

  lemma ChosenAsOftenAsListed(pool: seq<PeerCandidate>, connected: set<NodeId>, score: PeerCandidate -> int, need: nat, x: Scored)
    ensures multiset(Chosen(pool, connected, score, need))[x] <= multiset(pool)[x.c]
  {
    var scored := ScoredPool(pool, connected, score);
    var sorted, chosen := Sort(scored, BEFORE), Chosen(pool, connected, score, need);
    SortHolds(scored, BEFORE);
    ScoredAsOftenAsListed(pool, connected, score, x);
    assert sorted == chosen + sorted[|chosen|..];
  }

  lemma ChosenAreScored(pool: seq<PeerCandidate>, connected: set<NodeId>, score: PeerCandidate -> int, need: nat)
    ensures var chosen := Chosen(pool, connected, score, need);
            && |chosen| <= need
            && (forall x :: x in chosen ==> x in ScoredPool(pool, connected, score))
            && (forall i, j :: 0 <= i < j < |chosen| ==> Before(chosen[i], chosen[j]))
  {
    var scored := ScoredPool(pool, connected, score);
    var sorted, chosen := Sort(scored, BEFORE), Chosen(pool, connected, score, need);
    BeforeIsTotal();
    SortKeepsElements(scored, BEFORE);
    SortOrders(scored, BEFORE);
    hide TotalPreorder, Sort;
    assert forall x :: x in chosen ==> x in sorted;
    forall i, j | 0 <= i < j < |chosen|
      ensures Before(chosen[i], chosen[j])
    {
      assert BEFORE(sorted[i], sorted[j]);
    }
  }

  lemma LeftOutForWantOfNeed(pool: seq<PeerCandidate>, connected: set<NodeId>, score: PeerCandidate -> int, need: nat, c: PeerCandidate)
    requires c in pool && Eligible(c, connected) && Scored(score(c), c) !in Chosen(pool, connected, score, need)
    ensures |Chosen(pool, connected, score, need)| == need
  {
    var scored := ScoredPool(pool, connected, score);
    SortKeepsElements(scored, BEFORE);
    assert Scored(score(c), c) in scored;
  }

  lemma LeftOutRanksBehind(pool: seq<PeerCandidate>, connected: set<NodeId>, score: PeerCandidate -> int, need: nat, c: PeerCandidate, x: Scored)
    requires c in pool && Eligible(c, connected) && Scored(score(c), c) !in Chosen(pool, connected, score, need)
    requires x in Chosen(pool, connected, score, need)
    ensures Before(x, Scored(score(c), c))
  {
    var scored := ScoredPool(pool, connected, score);
    var sorted := Sort(scored, BEFORE);
    BeforeIsTotal();
    SortKeepsElements(scored, BEFORE);
    SortOrders(scored, BEFORE);
    hide TotalPreorder, Sort;
    var y := Scored(score(c), c);
    assert y in scored;
    CutRanksBehind(sorted, |Chosen(pool, connected, score, need)|, BEFORE, x, y);
    assert BEFORE(x, y);
  }

  /**
   The choice is exactly the top of the candidates: each chosen one has addresses and no
   session, and is chosen no more often than it is listed; they come in order of falling
   score, those of equal score in order of rising identifier; whoever else could be chosen
   scores no better than any chosen one, and as well only with an identifier that is not
   smaller; and nobody is left out as long as there is need.
   */
  lemma ChoiceIsTheTop(pool: seq<PeerCandidate>, connected: set<NodeId>, score: PeerCandidate -> int, need: nat)
    ensures var chosen := Chosen(pool, connected, score, need);
            && |chosen| <= need
            && (forall x :: x in chosen ==> x.c in pool && x.c.addrs != [] && x.c.peerId !in connected && x.score == score(x.c))
            && (forall x :: x in chosen ==> multiset(chosen)[x] <= multiset(pool)[x.c])
            && (forall i, j :: 0 <= i < j < |chosen| ==>
                  chosen[i].score > chosen[j].score || (chosen[i].score == chosen[j].score && chosen[i].c.peerId <= chosen[j].c.peerId))
            && (forall c :: c in pool && c.addrs != [] && c.peerId !in connected && Scored(score(c), c) !in chosen ==>
                  && |chosen| == need
                  && forall x :: x in chosen ==> x.score > score(c) || (x.score == score(c) && x.c.peerId <= c.peerId))
  {
    hide Chosen, ScoredPool;
    var chosen := Chosen(pool, connected, score, need);
    ChosenAreScored(pool, connected, score, need);
    forall c, x | c in pool && Eligible(c, connected) && Scored(score(c), c) !in chosen && x in chosen
      ensures Before(x, Scored(score(c), c))
    {
      LeftOutRanksBehind(pool, connected, score, need, c, x);
    }
    forall c | c in pool && Eligible(c, connected) && Scored(score(c), c) !in chosen
      ensures |chosen| == need
    {
      LeftOutForWantOfNeed(pool, connected, score, need, c);
    }
    forall x | x in chosen
      ensures multiset(chosen)[x] <= multiset(pool)[x.c]
    {
      ChosenAsOftenAsListed(pool, connected, score, need, x);
    }
  }

  /**
   If every connection of a round succeeds the sessions reach at most the target and the
   limit, and a round starts at most its share; and it leaves a candidate out only when it
   has reached one of the three.
   */
  lemma RoundStaysWithinTarget(pool: seq<PeerCandidate>, connected: set<NodeId>, score: PeerCandidate -> int,
                               current: nat, target: nat, maxSessions: nat, maxPerTick: nat)
    ensures var chosen := Chosen(pool, connected, score, Need(current, target, maxSessions, maxPerTick));
            && |chosen| <= maxPerTick
            && (chosen != [] ==> current + |chosen| <= target && current + |chosen| <= maxSessions)
            && (current >= target || current >= maxSessions ==> chosen == [])
            && (forall c :: c in pool && c.addrs != [] && c.peerId !in connected && Scored(score(c), c) !in chosen ==>
                  |chosen| == maxPerTick || current + |chosen| >= target || current + |chosen| >= maxSessions)
  {
    ChoiceIsTheTop(pool, connected, score, Need(current, target, maxSessions, maxPerTick));
    hide Chosen;
  }

  lemma ConnectedPeersAreIndexed(registry: RegistryStore.SessionRegistry, peer: NodeId)
    requires registry.Valid()
    ensures registry.GetByPeer(peer).Some? <==> peer in registry.byPeer
  {
    assert peer in registry.byPeer ==> registry.View().byPeer[peer] in registry.View().byId;
  }

  /** What the choice is for a registry, in terms of its sessions. */
  lemma ChoiceForRegistry(registry: RegistryStore.SessionRegistry, target: nat, maxSessions: nat, maxPerTick: nat,
                          pool: seq<PeerCandidate>, score: PeerCandidate -> int)
    requires registry.Valid()
    ensures var chosen := Chosen(pool, registry.byPeer.Keys, score, Need(|registry.byId|, target, maxSessions, maxPerTick));
            && (forall x :: x in chosen ==>
                  && x.c in pool && x.c.addrs != [] && x.score == score(x.c)
                  && forall id :: id in registry.byId ==> registry.byId[id].conn.peer != x.c.peerId)
            && (forall i, j :: 0 <= i < j < |chosen| ==>
                  chosen[i].score > chosen[j].score || (chosen[i].score == chosen[j].score && chosen[i].c.peerId <= chosen[j].c.peerId))
            && (forall x :: x in chosen ==> multiset(chosen)[x] <= multiset(pool)[x.c])
            && |chosen| <= maxPerTick
            && (chosen != [] ==> |registry.byId| + |chosen| <= target && |registry.byId| + |chosen| <= maxSessions)
            && (forall c :: c in pool && c.addrs != [] && Scored(score(c), c) !in chosen
                            && (forall id :: id in registry.byId ==> registry.byId[id].conn.peer != c.peerId) ==>
                  && (|chosen| == maxPerTick || |registry.byId| + |chosen| >= target || |registry.byId| + |chosen| >= maxSessions)
                  && forall x :: x in chosen ==> x.score > score(c) || (x.score == score(c) && x.c.peerId <= c.peerId))
  {
    hide Chosen, RegistryStore.SessionRegistry.Valid;
    var connected := registry.byPeer.Keys;
    ChoiceIsTheTop(pool, connected, score, Need(|registry.byId|, target, maxSessions, maxPerTick));
    RoundStaysWithinTarget(pool, connected, score, |registry.byId|, target, maxSessions, maxPerTick);
    forall peer
      ensures peer in registry.byPeer <==> exists id :: id in registry.byId && registry.byId[id].conn.peer == peer
    {
      ConnectedPeersAreIndexed(registry, peer);
    }
  }

  lemma NoneNeeded(pool: seq<PeerCandidate>, connected: set<NodeId>, score: PeerCandidate -> int)
    ensures Chosen(pool, connected, score, 0) == []
  {
  }

  /** The candidates with addresses and without a session, scored. */
  method Candidates(registry: RegistryStore.SessionRegistry, pool: seq<PeerCandidate>, score: PeerCandidate -> int) returns (scored: seq<Scored>)
    requires registry.Valid()
    ensures scored == ScoredPool(pool, registry.byPeer.Keys, score)
  {
    scored := [];
    for i := 0 to |pool|
      invariant scored == ScoredPool(pool[..i], registry.byPeer.Keys, score)
    {
      assert pool[..i + 1][..i] == pool[..i];
      var c := pool[i];
      ConnectedPeersAreIndexed(registry, c.peerId);
      if c.addrs != [] && registry.GetByPeer(c.peerId).None? {
        scored := scored + [Scored(score(c), c)];
      }
    }
    assert pool[..|pool|] == pool;
  }

  /** `replenish`, up to the point where it starts the chosen connections. */
  method Choose(registry: RegistryStore.SessionRegistry, shuttingDown: bool, maxSessions: nat, target: nat, maxPerTick: nat,
                pool: seq<PeerCandidate>, score: PeerCandidate -> int) returns (chosen: seq<Scored>)
    requires registry.Valid()
    ensures chosen == if shuttingDown then []
                      else Chosen(pool, registry.byPeer.Keys, score, Need(|registry.byId|, target, maxSessions, maxPerTick))
    ensures forall x :: x in chosen ==>
              x.c in pool && x.c.addrs != [] && x.score == score(x.c) && forall id :: id in registry.byId ==> registry.byId[id].conn.peer != x.c.peerId
    ensures forall i, j :: 0 <= i < j < |chosen| ==>
              chosen[i].score > chosen[j].score || (chosen[i].score == chosen[j].score && chosen[i].c.peerId <= chosen[j].c.peerId)
    ensures forall x :: x in chosen ==> multiset(chosen)[x] <= multiset(pool)[x.c]
    ensures |chosen| <= maxPerTick && (chosen != [] ==> |registry.byId| + |chosen| <= target && |registry.byId| + |chosen| <= maxSessions)
    ensures forall c :: !shuttingDown && c in pool && c.addrs != [] && Scored(score(c), c) !in chosen
                        && (forall id :: id in registry.byId ==> registry.byId[id].conn.peer != c.peerId) ==>
              && (|chosen| == maxPerTick || |registry.byId| + |chosen| >= target || |registry.byId| + |chosen| >= maxSessions)
              && forall x :: x in chosen ==> x.score > score(c) || (x.score == score(c) && x.c.peerId <= c.peerId)
  {
    hide RegistryStore.SessionRegistry.Valid, ScoredPool, Sort;
    if shuttingDown {
      return [];
    }
    ChoiceForRegistry(registry, target, maxSessions, maxPerTick, pool, score);
    NoneNeeded(pool, registry.byPeer.Keys, score);
    var goal := Min(target, maxSessions);
    if goal == 0 || |registry.byId| >= goal {
      return [];
    }
    var need := Min(goal - |registry.byId|, maxPerTick);
    var scored := Candidates(registry, pool, score);
    scored := Sort(scored, BEFORE);
    chosen := if need <= |scored| then scored[..need] else scored;
  }
}
