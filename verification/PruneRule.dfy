/**
 What `prune` keeps against what it is documented to keep: "the nodes with a success in the
 last seven days". The code asks for a success ever, on an address that has not failed twenty
 times in a row since, and for an attempt, of whatever outcome, in the last seven days.
 */
module PruneRule {
  import opened Wrappers
  import opened Sessions
  import opened Sorting
  import opened PeerCache

  /** Seven days are 604800 seconds; a time that seems yet to come is recent. */
  predicate InTheLastSevenDays(at: nat, now: nat) {
    now < at + 604_800
  }

  /** The documented condition. */
  ghost predicate SucceededLately(history: seq<Attempt>, id: NodeId, now: nat) {
    exists i :: 0 <= i < |history| && history[i].node == id && history[i].success && InTheLastSevenDays(history[i].at, now)
  }

  /** Every attempt on the node in the last seven days failed. */
  ghost predicate FailedLately(history: seq<Attempt>, id: NodeId, now: nat) {
    forall i :: 0 <= i < |history| && history[i].node == id && InTheLastSevenDays(history[i].at, now) ==> !history[i].success
  }

  /** The cache remembers a success of the address. */
  ghost predicate OnceWorked(nodes: seq<CachedNode>, log: seq<Attempt>, id: NodeId, addr: string) {
    Lookup(nodes, id, addr).Some? && Successes(Outcomes(log, id, addr)) > 0
  }

  /** The latest attempts on the address, twenty or more of them, all failed. */
  ghost predicate GivenUp(history: seq<Attempt>, id: NodeId, addr: string) {
    TrailingFailures(Outcomes(history, id, addr)) >= 20
  }

  lemma {:induction false} TrailingFailuresOfEnd(whole: seq<bool>, end: seq<bool>)
    requires EndsWith(whole, end) && Successes(end) > 0
    ensures TrailingFailures(whole) == TrailingFailures(end)
    decreases |end|
  {
    assert whole[|whole| - 1] == end[|end| - 1];
    if !end[|end| - 1] {
      var front, tail := whole[..|whole| - 1], end[..|end| - 1];
      assert front[|front| - |tail|..] == tail;
      TrailingFailuresOfEnd(front, tail);
    }
  }

  /** An address that once worked counts as working unless it has been given up since. */
  lemma WorksExactly(nodes: seq<CachedNode>, log: seq<Attempt>, history: seq<Attempt>, k: nat, j: nat)
    requires Refines(nodes, log) && Remembers(nodes, log, history) && k < |nodes| && j < |nodes[k].endpoints|
    ensures var id, ep := nodes[k].nodeId, nodes[k].endpoints[j];
            && Lookup(nodes, id, ep.addr) == Some(ep)
            && (ep.successCount > 0 && ep.failCount < 20
                <==> OnceWorked(nodes, log, id, ep.addr) && !GivenUp(history, id, ep.addr))
  {
    var id, ep := nodes[k].nodeId, nodes[k].endpoints[j];
    FindNodeAt(nodes, k);
    FindEndpointAt(nodes[k].endpoints, j);
    assert Lookup(nodes, id, ep.addr) == Some(ep);
    assert Tells(ep, Outcomes(log, id, ep.addr), LastAt(log, id, ep.addr));
    if Successes(Outcomes(log, id, ep.addr)) > 0 {
      TrailingFailuresOfEnd(Outcomes(history, id, ep.addr), Outcomes(log, id, ep.addr));
    }
  }

  lemma HeldAddressIsListed(nodes: seq<CachedNode>, k: nat, addr: string) returns (j: nat)
    requires UniqueIds(nodes) && k < |nodes| && Lookup(nodes, nodes[k].nodeId, addr).Some?
    ensures j < |nodes[k].endpoints| && nodes[k].endpoints[j].addr == addr
  {
    FindNodeAt(nodes, k);
    FindEndpointFails(nodes[k].endpoints, addr);
    var ep := FindEndpoint(nodes[k].endpoints, addr).value;
    j :| 0 <= j < |nodes[k].endpoints| && nodes[k].endpoints[j] == ep;
  }

  lemma OnceWorkedIsHeld(nodes: seq<CachedNode>, log: seq<Attempt>, id: NodeId, addr: string)
    requires OnceWorked(nodes, log, id, addr)
    ensures Lookup(nodes, id, addr).Some?
  {
  }

  lemma FilterPasses(nodes: seq<CachedNode>, k: nat, now: nat)
    requires k < |nodes|
    ensures var node := nodes[k];
            WithRetained(node) in Kept(nodes, now)
            <==> && InTheLastSevenDays(node.lastSeen, now)
                 && exists j :: 0 <= j < |node.endpoints| && node.endpoints[j].successCount > 0 && node.endpoints[j].failCount < 20
  {
    QualifiesExactly(nodes[k], now);
    assert nodes[k] in nodes;
    hide WithRetained, Qualifies;
  }

  /**
   The filter, in terms of what happened: a node passes if and only if the last attempt on it
   was in the last seven days and an address of it that once worked has not been given up.
   */
  lemma PassesExactly(nodes: seq<CachedNode>, log: seq<Attempt>, history: seq<Attempt>, k: nat, now: nat)
    requires Refines(nodes, log) && Remembers(nodes, log, history) && k < |nodes|
    ensures var id := nodes[k].nodeId;
            WithRetained(nodes[k]) in Kept(nodes, now)
            <==> && InTheLastSevenDays(LastSeen(history, id), now)
                 && exists addr :: OnceWorked(nodes, log, id, addr) && !GivenUp(history, id, addr)
  {
    var id, node := nodes[k].nodeId, nodes[k];
    FindNodeAt(nodes, k);
    RefinesIsUnique(nodes, log);
    assert node.lastSeen == LastSeen(history, id);
    hide Refines, Remembers, OnceWorked, GivenUp, LastSeen, InTheLastSevenDays, FindNode, Kept, Retained, WithRetained;
    FilterPasses(nodes, k, now);
    if j :| 0 <= j < |node.endpoints| && node.endpoints[j].successCount > 0 && node.endpoints[j].failCount < 20 {
      WorksExactly(nodes, log, history, k, j);
    }
    if addr :| OnceWorked(nodes, log, id, addr) && !GivenUp(history, id, addr) {
      OnceWorkedIsHeld(nodes, log, id, addr);
      var j := HeldAddressIsListed(nodes, k, addr);
      WorksExactly(nodes, log, history, k, j);
    }
  }

  /** With room for all of them, what passes the filter is what stays. */
  lemma WhatPassesStays(nodes: seq<CachedNode>, now: nat, maxNodes: nat, n: CachedNode)
    requires |nodes| <= maxNodes
    ensures n in Pruned(nodes, now, maxNodes) <==> n in Kept(nodes, now)
  {
    SortHolds(Kept(nodes, now), MORE_SUCCESSFUL);
    SortKeepsElements(Kept(nodes, now), MORE_SUCCESSFUL);
  }

  /**
   Exactly when a node is kept, by the filters and, where there is room for all, by `prune`,
   that has had no success in the last seven days: the last attempt on it was within them,
   every attempt within them failed, and an address of it that once worked, however long ago,
   has not been given up.
   */
  lemma KeptWithoutRecentSuccess(nodes: seq<CachedNode>, log: seq<Attempt>, history: seq<Attempt>, k: nat, now: nat, maxNodes: nat)
    requires Refines(nodes, log) && Remembers(nodes, log, history) && k < |nodes|
    ensures var id := nodes[k].nodeId;
            WithRetained(nodes[k]) in Kept(nodes, now) && !SucceededLately(history, id, now)
            <==> && InTheLastSevenDays(LastSeen(history, id), now) && FailedLately(history, id, now)
                 && exists addr :: OnceWorked(nodes, log, id, addr) && !GivenUp(history, id, addr)
    ensures |nodes| <= maxNodes ==> (WithRetained(nodes[k]) in Pruned(nodes, now, maxNodes) <==> WithRetained(nodes[k]) in Kept(nodes, now))
  {
    PassesExactly(nodes, log, history, k, now);
    hide Refines, Remembers, Kept, OnceWorked, GivenUp, LastSeen, InTheLastSevenDays;
    if |nodes| <= maxNodes {
      WhatPassesStays(nodes, now, maxNodes, WithRetained(nodes[k]));
    }
  }

  /** The clock did not go back between attempts. */
  ghost predicate InOrder(history: seq<Attempt>) {
    forall i, j :: 0 <= i < j < |history| ==> history[i].at <= history[j].at
  }

  lemma {:induction false} LastSeenIsLatest(history: seq<Attempt>, id: NodeId, i: nat)
    requires InOrder(history) && i < |history| && history[i].node == id
    ensures history[i].at <= LastSeen(history, id)
    decreases |history|
  {
    var n := |history| - 1;
    if history[n].node != id {
      assert history[..n][i] == history[i];
      LastSeenIsLatest(history[..n], id, i);
    }
  }

  /**
   Exactly when a node is dropped, by the filters and, where there is room for all, by `prune`,
   that has had a success in the last seven days: every address of it that worked, as far as
   the cache remembers, has been given up since. That, or the clock went back and the last
   attempt seems too old.
   */
  lemma DroppedDespiteRecentSuccess(nodes: seq<CachedNode>, log: seq<Attempt>, history: seq<Attempt>, k: nat, now: nat, maxNodes: nat)
    requires Refines(nodes, log) && Remembers(nodes, log, history) && k < |nodes| && SucceededLately(history, nodes[k].nodeId, now)
    ensures var id := nodes[k].nodeId;
            WithRetained(nodes[k]) !in Kept(nodes, now)
            <==> !InTheLastSevenDays(LastSeen(history, id), now) || forall addr :: OnceWorked(nodes, log, id, addr) ==> GivenUp(history, id, addr)
    ensures InOrder(history) ==> InTheLastSevenDays(LastSeen(history, nodes[k].nodeId), now)
    ensures |nodes| <= maxNodes ==> (WithRetained(nodes[k]) in Pruned(nodes, now, maxNodes) <==> WithRetained(nodes[k]) in Kept(nodes, now))
  {
    var id := nodes[k].nodeId;
    PassesExactly(nodes, log, history, k, now);
    hide Refines, Remembers, Kept, OnceWorked, GivenUp, LastSeen, Pruned;
    if |nodes| <= maxNodes {
      WhatPassesStays(nodes, now, maxNodes, WithRetained(nodes[k]));
    }
    var i :| 0 <= i < |history| && history[i].node == id && history[i].success && InTheLastSevenDays(history[i].at, now);
    if InOrder(history) {
      LastSeenIsLatest(history, id, i);
    }
  }

  /** Before the first prune the cache remembers every success, so that the condition is one on the history alone. */
  lemma EverySuccessIsRemembered(nodes: seq<CachedNode>, history: seq<Attempt>, id: NodeId, addr: string)
    requires Refines(nodes, history)
    ensures OnceWorked(nodes, history, id, addr) <==> Successes(Outcomes(history, id, addr)) > 0
  {
  }

  /** Some address of the node has worked and has not been given up since. */
  ghost predicate StillWorks(history: seq<Attempt>, id: NodeId) {
    exists addr :: Successes(Outcomes(history, id, addr)) > 0 && !GivenUp(history, id, addr)
  }

  /**
   The first prune of a cache, where there is room for all and the clock has not gone back, in
   terms of the attempts alone: of the nodes with a success in the last seven days it drops
   exactly those of which every address that ever worked has been given up, and of those
   without one it keeps exactly those that were tried in these days and still work.
   */
  lemma FirstPrune(nodes: seq<CachedNode>, history: seq<Attempt>, k: nat, now: nat, maxNodes: nat)
    requires Refines(nodes, history) && Remembers(nodes, history, history) && k < |nodes| <= maxNodes && InOrder(history)
    ensures var id, stays := nodes[k].nodeId, WithRetained(nodes[k]) in Pruned(nodes, now, maxNodes);
            && (SucceededLately(history, id, now) ==> (stays <==> StillWorks(history, id)))
            && (!SucceededLately(history, id, now) ==> (stays <==> InTheLastSevenDays(LastSeen(history, id), now) && StillWorks(history, id)))
  {
    var id := nodes[k].nodeId;
    assert StillWorks(history, id) <==> exists addr :: OnceWorked(nodes, history, id, addr) && !GivenUp(history, id, addr) by {
      forall addr
        ensures OnceWorked(nodes, history, id, addr) <==> Successes(Outcomes(history, id, addr)) > 0
      {
        EverySuccessIsRemembered(nodes, history, id, addr);
      }
      hide Refines, Remembers, OnceWorked, GivenUp, Successes, Outcomes;
    }
    PassesExactly(nodes, history, history, k, now);
    WhatPassesStays(nodes, now, maxNodes, WithRetained(nodes[k]));
    hide Refines, Remembers, Kept, OnceWorked, GivenUp, LastSeen, Pruned, StillWorks, InOrder;
    if SucceededLately(history, id, now) {
      DroppedDespiteRecentSuccess(nodes, history, history, k, now, maxNodes);
    }
  }

  // ------------------------------------------------------------------
  // Two nodes
  // ------------------------------------------------------------------

  /** A node with one success at first, and with n failures in a row after it, one every so many seconds. */
  function Fallen(n: nat, step: nat): CachedNode {
    CachedNode(1, [CachedEndpoint("a", "Public", n * step, 1, n, None)], "a", n * step, 1)
  }

  function FallenLog(n: nat, step: nat): seq<Attempt> {
    if n == 0 then [Attempt(1, "a", true, 0)] else FallenLog(n - 1, step) + [Attempt(1, "a", false, n * step)]
  }

  lemma NothingIsRemembered()
    ensures Refines([], []) && Remembers([], [], [])
  {
  }

  lemma OnlyEndpoint(n: nat, step: nat, addr: string)
    ensures FindEndpoint(Fallen(n, step).endpoints, addr) == if addr == "a" then Some(Fallen(n, step).endpoints[0]) else None
    ensures MostSuccesses(Fallen(n, step).endpoints) == 1
  {
  }

  lemma {:induction false} FallenIsReached(n: nat, step: nat)
    requires n < U32_MAX
    ensures Refines([Fallen(n, step)], FallenLog(n, step))
    ensures Remembers([Fallen(n, step)], FallenLog(n, step), FallenLog(n, step))
    decreases n
  {
    hide Refines, Remembers, Upserted;
    if n == 0 {
      NothingIsRemembered();
      var node := Fallen(0, step);
      OnlyEndpoint(0, step, "a");
      PushedIsUpserted([], node, node.endpoints[0], "Public", true);
      assert [] + [node] == [node] && [] + FallenLog(0, step) == FallenLog(0, step);
      UpsertKeepsRefines([], [], Attempt(1, "a", true, 0), "Public", [node]);
      UpsertKeepsRemembers([], [], [], Attempt(1, "a", true, 0), "Public", [node]);
    } else {
      var before, node := Fallen(n - 1, step), Fallen(n, step);
      FallenIsReached(n - 1, step);
      forall addr
        ensures FindEndpoint(before.endpoints, addr) == if addr == "a" then Some(before.endpoints[0]) else None
        ensures FindEndpoint(node.endpoints, addr) == if addr == "a" then Some(node.endpoints[0]) else None
      {
        OnlyEndpoint(n - 1, step, addr);
        OnlyEndpoint(n, step, addr);
      }
      OnlyEndpoint(n, step, "a");
      ReplacedIsUpserted([before], 0, node, "Public", false);
      assert [before][0 := node] == [node];
      UpsertKeepsRefines([before], FallenLog(n - 1, step), Attempt(1, "a", false, n * step), "Public", [node]);
      UpsertKeepsRemembers([before], FallenLog(n - 1, step), FallenLog(n - 1, step), Attempt(1, "a", false, n * step), "Public", [node]);
    }
  }

  /** One failure just now keeps a node whose only success is eight days old. */
  lemma OldSuccessIsKept()
    ensures Fallen(1, 700_000) in Kept([Fallen(1, 700_000)], 700_000)
    ensures !SucceededLately(FallenLog(1, 700_000), 1, 700_000)
  {
    var node := Fallen(1, 700_000);
    assert FallenLog(1, 700_000) == [Attempt(1, "a", true, 0), Attempt(1, "a", false, 700_000)];
    assert node.endpoints[0] in node.endpoints && WithRetained(node) == node;
    assert node in [node];
  }

  lemma {:induction false} FirstOfFallenLog(n: nat, step: nat)
    ensures |FallenLog(n, step)| == n + 1 && FallenLog(n, step)[0] == Attempt(1, "a", true, 0)
  {
    if n > 0 {
      FirstOfFallenLog(n - 1, step);
    }
  }

  /** Twenty failures, one a second, drop a node that worked twenty seconds ago. */
  lemma RecentSuccessIsDropped()
    ensures Kept([Fallen(20, 1)], 20) == [] && SucceededLately(FallenLog(20, 1), 1, 20)
  {
    FirstOfFallenLog(20, 1);
  }
}
