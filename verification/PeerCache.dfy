/** The cache of known nodes and how well their addresses worked (peer_cache.rs). */
module PeerCache {
  import opened Wrappers
  import opened Addresses
  import opened Filters
  import opened Sessions
  import opened Sorting

  const U32_MAX := 0xFFFF_FFFF
  const MAX_FAILURES := 20
  const SEVEN_DAYS := 7 * 24 * 3600

  datatype CachedEndpoint = CachedEndpoint(
    addr: string,
    kind: string,
    lastSuccess: nat,
    successCount: nat,
    failCount: nat,
    latencyMs: Option<nat>)

  datatype CachedNode = CachedNode(
    nodeId: NodeId,
    endpoints: seq<CachedEndpoint>,
    addr: string,
    lastSeen: nat,
    successCount: nat)

  function SaturatingInc(n: nat): nat {
    if n >= U32_MAX then U32_MAX else n + 1
  }

  function KindName(kind: EndpointKind): string {
    match kind
    case Lan => "Lan"
    case Public => "Public"
    case Ipv6 => "Ipv6"
    case Loopback => "Loopback"
  }

  /** `kind_weight`: local addresses come before loopback ones here, unlike in the path choice. */
  function KindWeight(kind: string): nat {
    if kind == "Lan" then 0
    else if kind == "Loopback" then 1
    else if kind == "Public" then 2
    else if kind == "Ipv6" then 3
    else 4
  }

  // ------------------------------------------------------------------
  // Lookups
  // ------------------------------------------------------------------

  function FindNode(nodes: seq<CachedNode>, id: NodeId): Option<CachedNode> {
    if nodes == [] then None
    else if nodes[0].nodeId == id then Some(nodes[0])
    else FindNode(nodes[1..], id)
  }

  function FindEndpoint(endpoints: seq<CachedEndpoint>, addr: string): Option<CachedEndpoint> {
    if endpoints == [] then None
    else if endpoints[0].addr == addr then Some(endpoints[0])
    else FindEndpoint(endpoints[1..], addr)
  }

  /** What the cache holds on one address of one node. */
  function Lookup(nodes: seq<CachedNode>, id: NodeId, addr: string): Option<CachedEndpoint> {
    match FindNode(nodes, id)
    case None => None
    case Some(node) => FindEndpoint(node.endpoints, addr)
  }

  ghost predicate UniqueIds(nodes: seq<CachedNode>) {
    forall i, j :: 0 <= i < j < |nodes| ==> nodes[i].nodeId != nodes[j].nodeId
  }

  ghost predicate UniqueAddrs(endpoints: seq<CachedEndpoint>) {
    forall i, j :: 0 <= i < j < |endpoints| ==> endpoints[i].addr != endpoints[j].addr
  }

  ghost predicate Unique(nodes: seq<CachedNode>) {
    UniqueIds(nodes) && forall i :: 0 <= i < |nodes| ==> UniqueAddrs(nodes[i].endpoints)
  }

  lemma {:induction false} FindNodeAt(nodes: seq<CachedNode>, i: nat)
    requires UniqueIds(nodes) && i < |nodes|
    ensures FindNode(nodes, nodes[i].nodeId) == Some(nodes[i])
  {
    if i > 0 {
      FindNodeAt(nodes[1..], i - 1);
    }
  }

  lemma {:induction false} FindNodeFails(nodes: seq<CachedNode>, id: NodeId)
    ensures FindNode(nodes, id).None? <==> forall i :: 0 <= i < |nodes| ==> nodes[i].nodeId != id
    ensures FindNode(nodes, id).Some? ==> FindNode(nodes, id).value in nodes && FindNode(nodes, id).value.nodeId == id
  {
    if nodes != [] {
      FindNodeFails(nodes[1..], id);
      assert forall i :: 1 <= i < |nodes| ==> nodes[i] == nodes[1..][i - 1];
    }
  }

  lemma {:induction false} FindNodeInUpdate(nodes: seq<CachedNode>, i: nat, node: CachedNode, id: NodeId)
    requires UniqueIds(nodes) && i < |nodes| && nodes[i].nodeId == node.nodeId
    ensures UniqueIds(nodes[i := node])
    ensures FindNode(nodes[i := node], id) == if id == node.nodeId then Some(node) else FindNode(nodes, id)
  {
    if i == 0 {
      assert nodes[i := node][1..] == nodes[1..];
    } else {
      assert nodes[i := node][1..] == nodes[1..][i - 1 := node];
      FindNodeInUpdate(nodes[1..], i - 1, node, id);
    }
  }

  lemma {:induction false} FindNodeInPush(nodes: seq<CachedNode>, node: CachedNode, id: NodeId)
    requires UniqueIds(nodes) && FindNode(nodes, node.nodeId).None?
    ensures UniqueIds(nodes + [node])
    ensures FindNode(nodes + [node], id) == if id == node.nodeId then Some(node) else FindNode(nodes, id)
  {
    FindNodeFails(nodes, node.nodeId);
    if nodes != [] {
      assert (nodes + [node])[1..] == nodes[1..] + [node];
      FindNodeInPush(nodes[1..], node, id);
    }
  }

  lemma {:induction false} FindEndpointFails(endpoints: seq<CachedEndpoint>, addr: string)
    ensures FindEndpoint(endpoints, addr).None? <==> forall i :: 0 <= i < |endpoints| ==> endpoints[i].addr != addr
    ensures FindEndpoint(endpoints, addr).Some? ==>
              FindEndpoint(endpoints, addr).value in endpoints && FindEndpoint(endpoints, addr).value.addr == addr
  {
    if endpoints != [] {
      FindEndpointFails(endpoints[1..], addr);
      assert forall i :: 1 <= i < |endpoints| ==> endpoints[i] == endpoints[1..][i - 1];
    }
  }

  lemma {:induction false} FindEndpointAt(endpoints: seq<CachedEndpoint>, i: nat)
    requires UniqueAddrs(endpoints) && i < |endpoints|
    ensures FindEndpoint(endpoints, endpoints[i].addr) == Some(endpoints[i])
  {
    if i > 0 {
      FindEndpointAt(endpoints[1..], i - 1);
    }
  }

  lemma {:induction false} FindEndpointInUpdate(endpoints: seq<CachedEndpoint>, i: nat, ep: CachedEndpoint, addr: string)
    requires UniqueAddrs(endpoints) && i < |endpoints| && endpoints[i].addr == ep.addr
    ensures UniqueAddrs(endpoints[i := ep])
    ensures FindEndpoint(endpoints[i := ep], addr) == if addr == ep.addr then Some(ep) else FindEndpoint(endpoints, addr)
  {
    if i == 0 {
      assert endpoints[i := ep][1..] == endpoints[1..];
    } else {
      assert endpoints[i := ep][1..] == endpoints[1..][i - 1 := ep];
      FindEndpointInUpdate(endpoints[1..], i - 1, ep, addr);
    }
  }

  lemma {:induction false} FindEndpointInPush(endpoints: seq<CachedEndpoint>, ep: CachedEndpoint, addr: string)
    requires UniqueAddrs(endpoints) && FindEndpoint(endpoints, ep.addr).None?
    ensures UniqueAddrs(endpoints + [ep])
    ensures FindEndpoint(endpoints + [ep], addr) == if addr == ep.addr then Some(ep) else FindEndpoint(endpoints, addr)
  {
    FindEndpointFails(endpoints, ep.addr);
    if endpoints != [] {
      assert (endpoints + [ep])[1..] == endpoints[1..] + [ep];
      FindEndpointInPush(endpoints[1..], ep, addr);
    }
  }

  // ------------------------------------------------------------------
  // The log of attempts
  // ------------------------------------------------------------------

  datatype Attempt = Attempt(node: NodeId, addr: string, success: bool, at: nat)

  /** How the attempts on one address of one node went, in order. */
  function Outcomes(log: seq<Attempt>, id: NodeId, addr: string): seq<bool> {
    if log == [] then []
    else
      var last := log[|log| - 1];
      Outcomes(log[..|log| - 1], id, addr) + if last.node == id && last.addr == addr then [last.success] else []
  }

  function Successes(outcomes: seq<bool>): nat {
    if outcomes == [] then 0
    else Successes(outcomes[..|outcomes| - 1]) + if outcomes[|outcomes| - 1] then 1 else 0
  }

  /** The run of failures at the end. */
  function TrailingFailures(outcomes: seq<bool>): nat {
    if outcomes == [] || outcomes[|outcomes| - 1] then 0 else 1 + TrailingFailures(outcomes[..|outcomes| - 1])
  }

  /** When the last attempt on an address was made. */
  function LastAt(log: seq<Attempt>, id: NodeId, addr: string): nat {
    if log == [] then 0
    else
      var last := log[|log| - 1];
      if last.node == id && last.addr == addr then last.at else LastAt(log[..|log| - 1], id, addr)
  }

  /** A count as 32 bits hold it that do not wrap. */
  function Saturated(n: nat): nat {
    if n > 0xFFFF_FFFF then 0xFFFF_FFFF else n
  }

  /**
   The counters of an endpoint tell its log: all its successes, and its latest run of
   failures. What is kept as the time of its last success is the time of its last attempt,
   whatever came of it, unless all there was is one failure.
   */
  ghost predicate Tells(ep: CachedEndpoint, outcomes: seq<bool>, lastAt: nat) {
    && outcomes != []
    && ep.lastSuccess == (if outcomes == [false] then 0 else lastAt)
    && ep.successCount == Saturated(Successes(outcomes))
    && ep.failCount == Saturated(TrailingFailures(outcomes))
  }

  /** The cache holds what was attempted, once, and its counters tell the log. */
  ghost predicate Refines(nodes: seq<CachedNode>, log: seq<Attempt>) {
    && Unique(nodes)
    && forall id, addr ::
         match Lookup(nodes, id, addr)
         case None => Outcomes(log, id, addr) == []
         case Some(ep) => Tells(ep, Outcomes(log, id, addr), LastAt(log, id, addr))
  }

  lemma OutcomesSnoc(log: seq<Attempt>, a: Attempt, id: NodeId, addr: string)
    ensures Outcomes(log + [a], id, addr)
            == Outcomes(log, id, addr) + if a.node == id && a.addr == addr then [a.success] else []
    ensures LastAt(log + [a], id, addr) == if a.node == id && a.addr == addr then a.at else LastAt(log, id, addr)
  {
    assert (log + [a])[..|log|] == log;
  }

  // ------------------------------------------------------------------
  // `upsert`
  // ------------------------------------------------------------------

  /** An endpoint after one more attempt on it. */
  function Updated(ep: CachedEndpoint, success: bool, now: nat): CachedEndpoint {
    if success then ep.(lastSuccess := now, successCount := SaturatingInc(ep.successCount), failCount := 0)
    else ep.(lastSuccess := now, failCount := SaturatingInc(ep.failCount))
  }

  function NewEndpoint(addr: string, kind: string, success: bool, now: nat): CachedEndpoint {
    if success then CachedEndpoint(addr, kind, now, 1, 0, None) else CachedEndpoint(addr, kind, 0, 0, 1, None)
  }

  lemma OneMoreAttempt(ep: CachedEndpoint, outcomes: seq<bool>, lastAt: nat, success: bool, now: nat)
    requires Tells(ep, outcomes, lastAt)
    ensures Tells(Updated(ep, success, now), outcomes + [success], now)
  {
    assert (outcomes + [success])[..|outcomes|] == outcomes;
  }

  lemma FirstAttempt(addr: string, kind: string, success: bool, now: nat)
    ensures Tells(NewEndpoint(addr, kind, success, now), [success], now)
  {
    assert [success][..0] == [];
  }

  /** What an attempt leaves in the cache on its address. */
  function After(before: Option<CachedEndpoint>, addr: string, kind: string, success: bool, now: nat): CachedEndpoint {
    match before
    case None => NewEndpoint(addr, kind, success, now)
    case Some(ep) => Updated(ep, success, now)
  }

  function MostSuccesses(endpoints: seq<CachedEndpoint>): (r: nat)
    ensures forall i :: 0 <= i < |endpoints| ==> endpoints[i].successCount <= r
    ensures endpoints != [] ==> exists i :: 0 <= i < |endpoints| && endpoints[i].successCount == r
  {
    if endpoints == [] then 0
    else
      var front, last := endpoints[..|endpoints| - 1], endpoints[|endpoints| - 1].successCount;
      var most := MostSuccesses(front);
      assert front != [] ==> exists i :: 0 <= i < |front| && front[i].successCount == most && endpoints[i] == front[i];
      if most < last || front == [] then last else most
  }

  /** The kind of an address, by its class; a text that is no address counts as a public one. */
  ghost predicate IsKind(parse: string -> Option<SocketAddr>, addr: string, kind: string) {
    match parse(addr)
    case None => kind == "Public"
    case Some(sa) =>
      && (Classify(sa) == Lan ==> kind == "Lan")
      && (Classify(sa) == Public ==> kind == "Public")
      && (Classify(sa) == Ipv6 ==> kind == "Ipv6")
      && (Classify(sa) == Loopback ==> kind == "Loopback")
  }

  /** Each endpoint has the kind of its address, and no latency, which nothing here measures. */
  ghost predicate KindsAgree(nodes: seq<CachedNode>, parse: string -> Option<SocketAddr>) {
    forall id, addr :: Lookup(nodes, id, addr).Some? ==>
      && Lookup(nodes, id, addr).value.addr == addr
      && IsKind(parse, addr, Lookup(nodes, id, addr).value.kind)
      && Lookup(nodes, id, addr).value.latencyMs.None?
  }

  /** The cache of one more attempt: its own entry moves on, and nothing else changes. */
  ghost predicate Upserted(nodes: seq<CachedNode>, id: NodeId, addr: string, kind: string, success: bool, now: nat, nodes': seq<CachedNode>) {
    && Unique(nodes')
    && Lookup(nodes', id, addr) == Some(After(Lookup(nodes, id, addr), addr, kind, success, now))
    && (forall i, a :: i != id || a != addr ==> Lookup(nodes', i, a) == Lookup(nodes, i, a))
    && (forall i :: i != id ==> FindNode(nodes', i) == FindNode(nodes, i))
    && FindNode(nodes', id).Some?
    && var node := FindNode(nodes', id).value;
       node.addr == addr && node.lastSeen == now && node.successCount == MostSuccesses(node.endpoints)
  }

  /** One more attempt keeps the cache telling its log. */
  lemma UpsertKeepsRefines(nodes: seq<CachedNode>, log: seq<Attempt>, a: Attempt, kind: string, nodes': seq<CachedNode>)
    requires Refines(nodes, log) && Upserted(nodes, a.node, a.addr, kind, a.success, a.at, nodes')
    ensures Refines(nodes', log + [a])
  {
    forall id, addr
      ensures match Lookup(nodes', id, addr)
              case None => Outcomes(log + [a], id, addr) == []
              case Some(ep) => Tells(ep, Outcomes(log + [a], id, addr), LastAt(log + [a], id, addr))
    {
      OutcomesSnoc(log, a, id, addr);
      var before := Outcomes(log, id, addr);
      assert [] + [a.success] == [a.success] && before + [] == before;
      if id == a.node && addr == a.addr {
        match Lookup(nodes, id, addr)
        case None => FirstAttempt(addr, kind, a.success, a.at);
        case Some(ep) => OneMoreAttempt(ep, Outcomes(log, id, addr), LastAt(log, id, addr), a.success, a.at);
      }
    }
  }

  lemma UpsertKeepsKinds(nodes: seq<CachedNode>, parse: string -> Option<SocketAddr>, id: NodeId, addr: string, kind: string,
                         success: bool, now: nat, nodes': seq<CachedNode>)
    requires KindsAgree(nodes, parse) && IsKind(parse, addr, kind) && Upserted(nodes, id, addr, kind, success, now, nodes')
    ensures KindsAgree(nodes', parse)
  {
  }

  // ------------------------------------------------------------------
  // `prune` and `best_addr`
  // ------------------------------------------------------------------

  /** The endpoints that have not failed twenty times in a row. */
  function Retained(endpoints: seq<CachedEndpoint>): (r: seq<CachedEndpoint>)
    ensures forall e :: e in r <==> e in endpoints && e.failCount < MAX_FAILURES
  {
    if endpoints == [] then []
    else (if endpoints[0].failCount < MAX_FAILURES then [endpoints[0]] else []) + Retained(endpoints[1..])
  }

  lemma RetainedCons(first: CachedEndpoint, rest: seq<CachedEndpoint>)
    ensures Retained([first] + rest) == (if first.failCount < MAX_FAILURES then [first] else []) + Retained(rest)
  {
    assert ([first] + rest)[1..] == rest;
  }

  lemma RetainedNone()
    ensures Retained([]) == []
  {
  }

  lemma {:induction false} RetainedSnoc(endpoints: seq<CachedEndpoint>, e: CachedEndpoint)
    ensures Retained(endpoints + [e]) == Retained(endpoints) + if e.failCount < MAX_FAILURES then [e] else []
  {
    hide Retained;
    if endpoints == [] {
      RetainedCons(e, []);
      assert endpoints + [e] == [e] + [];
      RetainedNone();
    } else {
      var first, rest := endpoints[0], endpoints[1..];
      RetainedSnoc(rest, e);
      RetainedCons(first, rest);
      RetainedCons(first, rest + [e]);
      assert endpoints == [first] + rest && endpoints + [e] == [first] + (rest + [e]);
    }
  }

  lemma {:induction false} RetainedKeeps(endpoints: seq<CachedEndpoint>)
    ensures KeepsExactly(endpoints, Retained(endpoints), (e: CachedEndpoint) => e.failCount < 20)
  {
    if endpoints == [] {
      NothingToKeep((e: CachedEndpoint) => e.failCount < 20);
    } else {
      var front, last := endpoints[..|endpoints| - 1], endpoints[|endpoints| - 1];
      RetainedKeeps(front);
      RetainedSnoc(front, last);
      OneMore(front, Retained(front), (e: CachedEndpoint) => e.failCount < 20, last);
      assert endpoints == front + [last];
    }
  }

  function WithRetained(node: CachedNode): CachedNode {
    node.(endpoints := Retained(node.endpoints))
  }

  predicate Recent(at: nat, now: nat) {
    (if now >= at then now - at else 0) < SEVEN_DAYS
  }

  predicate Qualifies(node: CachedNode, now: nat) {
    (exists e :: e in node.endpoints && e.successCount > 0) && Recent(node.lastSeen, now)
  }

  /** The nodes worth keeping, with the endpoints worth keeping, in their order. */
  function Kept(nodes: seq<CachedNode>, now: nat): (r: seq<CachedNode>)
    ensures forall n :: n in r <==> Qualifies(n, now) && exists m :: m in nodes && n == WithRetained(m)
    ensures |r| <= |nodes|
  {
    if nodes == [] then []
    else
      var rest := Kept(nodes[1..], now);
      var first := WithRetained(nodes[0]);
      assert forall m :: m in nodes <==> m == nodes[0] || m in nodes[1..];
      if Qualifies(first, now) then [first] + rest else rest
  }

  /** The sum of the success counts, as 32 bits hold it. */
  function Total(endpoints: seq<CachedEndpoint>): nat {
    if endpoints == [] then 0
    else (Total(endpoints[..|endpoints| - 1]) + endpoints[|endpoints| - 1].successCount) % 0x1_0000_0000
  }

  lemma SumOfRemainders(a: nat, b: nat, c: nat)
    ensures ((a + b) % 0x1_0000_0000 + c) % 0x1_0000_0000 == (a + (b + c) % 0x1_0000_0000) % 0x1_0000_0000
  {
  }

  /** The total is the sum of all counts modulo 2^32. */
  lemma {:induction false} TotalIsTheSum(xs: seq<CachedEndpoint>, ys: seq<CachedEndpoint>, ep: CachedEndpoint)
    ensures Total([]) == 0 && Total([ep]) == ep.successCount % 0x1_0000_0000
    ensures Total(xs + ys) == (Total(xs) + Total(ys)) % 0x1_0000_0000
  {
    assert [ep][..0] == [];
    if ys == [] {
      assert xs + ys == xs;
    } else {
      var front := ys[..|ys| - 1];
      assert (xs + ys)[..|xs + ys| - 1] == xs + front;
      TotalIsTheSum(xs, front, ep);
      SumOfRemainders(Total(xs), Total(front), ys[|ys| - 1].successCount);
    }
  }

  const MORE_SUCCESSFUL: (CachedNode, CachedNode) -> bool := (a: CachedNode, b: CachedNode) => Total(a.endpoints) >= Total(b.endpoints)

  function Pruned(nodes: seq<CachedNode>, now: nat, maxNodes: nat): seq<CachedNode> {
    var sorted := Sort(Kept(nodes, now), MORE_SUCCESSFUL);
    if maxNodes <= |sorted| then sorted[..maxNodes] else sorted
  }

  lemma MoreSuccessfulIsTotal()
    ensures TotalPreorder(MORE_SUCCESSFUL)
  {
  }

  /** Every node that stays qualifies. */
  lemma PrunedQualifies(nodes: seq<CachedNode>, now: nat, maxNodes: nat, n: CachedNode)
    requires n in Pruned(nodes, now, maxNodes)
    ensures Qualifies(n, now) && exists m :: m in nodes && n == WithRetained(m)
  {
    var kept := Kept(nodes, now);
    SortKeepsElements(kept, MORE_SUCCESSFUL);
    assert n in Sort(kept, MORE_SUCCESSFUL);
  }

  /** A node that is left out ranks behind every one that stays, and there was no room for it. */
  lemma LeftOutRanksBehind(nodes: seq<CachedNode>, now: nat, maxNodes: nat, n: CachedNode)
    requires n in Kept(nodes, now) && n !in Pruned(nodes, now, maxNodes)
    ensures |Pruned(nodes, now, maxNodes)| == maxNodes
    ensures forall r :: r in Pruned(nodes, now, maxNodes) ==> Total(r.endpoints) >= Total(n.endpoints)
  {
    var kept := Kept(nodes, now);
    var sorted := Sort(kept, MORE_SUCCESSFUL);
    MoreSuccessfulIsTotal();
    SortKeepsElements(kept, MORE_SUCCESSFUL);
    SortOrders(kept, MORE_SUCCESSFUL);
    hide TotalPreorder, Sort, Kept, Ordered;
    assert n in sorted && maxNodes < |sorted|;
    forall r | r in sorted[..maxNodes]
      ensures Total(r.endpoints) >= Total(n.endpoints)
    {
      CutRanksBehind(sorted, maxNodes, MORE_SUCCESSFUL, r, n);
      assert MORE_SUCCESSFUL(r, n);
    }
  }

  lemma PrunedIsOrdered(nodes: seq<CachedNode>, now: nat, maxNodes: nat)
    ensures var r := Pruned(nodes, now, maxNodes);
            && |r| <= maxNodes
            && Ordered(r, MORE_SUCCESSFUL)
            && (forall n :: n in r ==> Qualifies(n, now) && exists m :: m in nodes && n == WithRetained(m))
            && (forall m :: m in nodes && Qualifies(WithRetained(m), now) && WithRetained(m) !in r ==>
                  |r| == maxNodes && forall n :: n in r ==> Total(n.endpoints) >= Total(WithRetained(m).endpoints))
  {
    var r := Pruned(nodes, now, maxNodes);
    MoreSuccessfulIsTotal();
    SortOrders(Kept(nodes, now), MORE_SUCCESSFUL);
    hide TotalPreorder, Sort, Qualifies, WithRetained;
    forall n | n in r
      ensures Qualifies(n, now) && exists m :: m in nodes && n == WithRetained(m)
    {
      PrunedQualifies(nodes, now, maxNodes, n);
    }
    forall m | m in nodes && Qualifies(WithRetained(m), now) && WithRetained(m) !in r
      ensures |r| == maxNodes && forall n :: n in r ==> Total(n.endpoints) >= Total(WithRetained(m).endpoints)
    {
      assert WithRetained(m) in Kept(nodes, now);
      LeftOutRanksBehind(nodes, now, maxNodes, WithRetained(m));
    }
  }

  lemma QualifiesExactly(m: CachedNode, now: nat)
    ensures Qualifies(WithRetained(m), now) <==>
            now < m.lastSeen + 604_800 && exists e :: e in m.endpoints && e.successCount > 0 && e.failCount < 20
  {
    if e :| e in m.endpoints && e.successCount > 0 && e.failCount < 20 {
      assert e in WithRetained(m).endpoints;
    }
  }

  /**
   Pruning leaves the top of what qualifies. Each node that stays is one of the cache's without
   the endpoints that failed twenty times in a row, was tried in the last seven days, and has
   an endpoint that ever worked; they come with falling sums of successes; whoever qualifies and
   is left out has no larger sum than any that stays, and nobody is left out while there is room.
   */
  lemma PrunedIsTheTop(nodes: seq<CachedNode>, now: nat, maxNodes: nat)
    ensures var r := Pruned(nodes, now, maxNodes);
            && |r| <= maxNodes
            && (forall i, j :: 0 <= i < j < |r| ==> Total(r[i].endpoints) >= Total(r[j].endpoints))
            && (forall n :: n in r ==>
                  && now < n.lastSeen + 604_800 && (exists e :: e in n.endpoints && e.successCount > 0)
                  && exists m :: m in nodes && n == m.(endpoints := n.endpoints)
                                 && KeepsExactly(m.endpoints, n.endpoints, (e: CachedEndpoint) => e.failCount < 20))
            && (forall m :: m in nodes && now < m.lastSeen + 604_800
                            && (exists e :: e in m.endpoints && e.successCount > 0 && e.failCount < 20) && WithRetained(m) !in r ==>
                  |r| == maxNodes && forall n :: n in r ==> Total(n.endpoints) >= Total(WithRetained(m).endpoints))
  {
    var r := Pruned(nodes, now, maxNodes);
    PrunedIsOrdered(nodes, now, maxNodes);
    hide Pruned, Total, Retained;
    assert forall i, j :: 0 <= i < j < |r| ==> MORE_SUCCESSFUL(r[i], r[j]);
    forall n | n in r
      ensures now < n.lastSeen + 604_800 && (exists e :: e in n.endpoints && e.successCount > 0)
      ensures exists m :: m in nodes && n == m.(endpoints := n.endpoints)
                          && KeepsExactly(m.endpoints, n.endpoints, (e: CachedEndpoint) => e.failCount < 20)
    {
      var m :| m in nodes && n == WithRetained(m);
      RetainedKeeps(m.endpoints);
      assert n == m.(endpoints := n.endpoints);
    }
    forall m | m in nodes && now < m.lastSeen + 604_800
               && (exists e :: e in m.endpoints && e.successCount > 0 && e.failCount < 20) && WithRetained(m) !in r
      ensures |r| == maxNodes && forall n :: n in r ==> Total(n.endpoints) >= Total(WithRetained(m).endpoints)
    {
      QualifiesExactly(m, now);
    }
  }

  /** Among equally successful nodes the older entry of the cache comes first. */
  lemma PruningIsStable(nodes: seq<CachedNode>, now: nat, maxNodes: nat, node: CachedNode)
    ensures OfRank(Pruned(nodes, now, maxNodes), node, MORE_SUCCESSFUL) <= OfRank(Kept(nodes, now), node, MORE_SUCCESSFUL)
  {
    var sorted := Sort(Kept(nodes, now), MORE_SUCCESSFUL);
    MoreSuccessfulIsTotal();
    SortIsStable(Kept(nodes, now), node, MORE_SUCCESSFUL);
    if maxNodes <= |sorted| {
      OfRankOfPrefix(sorted, maxNodes, node, MORE_SUCCESSFUL);
    }
  }

  lemma {:induction false} RetainedTwice(endpoints: seq<CachedEndpoint>)
    requires forall e :: e in endpoints ==> e.failCount < MAX_FAILURES
    ensures Retained(endpoints) == endpoints
  {
    if endpoints != [] {
      RetainedTwice(endpoints[1..]);
      assert endpoints == [endpoints[0]] + endpoints[1..];
    }
  }

  lemma KeptCons(first: CachedNode, rest: seq<CachedNode>, now: nat)
    ensures Kept([first] + rest, now) == (if Qualifies(WithRetained(first), now) then [WithRetained(first)] else []) + Kept(rest, now)
  {
    assert ([first] + rest)[1..] == rest;
    hide Qualifies, WithRetained;
  }

  lemma {:induction false} KeptTwice(nodes: seq<CachedNode>, now: nat)
    requires forall n :: n in nodes ==> Qualifies(n, now) && WithRetained(n) == n
    ensures Kept(nodes, now) == nodes
  {
    if nodes != [] {
      hide *;
      KeptTwice(nodes[1..], now);
      KeptCons(nodes[0], nodes[1..], now);
      assert nodes == [nodes[0]] + nodes[1..];
    }
  }

  /** At one and the same time pruning twice prunes no more than pruning once. */
  lemma PruningIsIdempotent(nodes: seq<CachedNode>, now: nat, maxNodes: nat)
    ensures Pruned(Pruned(nodes, now, maxNodes), now, maxNodes) == Pruned(nodes, now, maxNodes)
  {
    var once := Pruned(nodes, now, maxNodes);
    PrunedIsOrdered(nodes, now, maxNodes);
    forall n | n in once
      ensures Qualifies(n, now) && WithRetained(n) == n
    {
      RetainedTwice(n.endpoints);
    }
    hide Qualifies, WithRetained;
    KeptTwice(once, now);
    SortOfOrdered(once, MORE_SUCCESSFUL);
  }

  // ------------------------------------------------------------------
  // Pruning and the log
  // ------------------------------------------------------------------

  /** The attempts on what the cache still holds. */
  function Held(log: seq<Attempt>, nodes: seq<CachedNode>): seq<Attempt> {
    if log == [] then []
    else
      var last := log[|log| - 1];
      Held(log[..|log| - 1], nodes) + if Lookup(nodes, last.node, last.addr).Some? then [last] else []
  }

  lemma {:induction false} OutcomesOfHeld(log: seq<Attempt>, nodes: seq<CachedNode>, id: NodeId, addr: string)
    ensures Outcomes(Held(log, nodes), id, addr) == if Lookup(nodes, id, addr).Some? then Outcomes(log, id, addr) else []
    ensures Lookup(nodes, id, addr).Some? ==> LastAt(Held(log, nodes), id, addr) == LastAt(log, id, addr)
  {
    if log != [] {
      var front, last := log[..|log| - 1], log[|log| - 1];
      OutcomesOfHeld(front, nodes, id, addr);
      if Lookup(nodes, last.node, last.addr).Some? {
        OutcomesSnoc(Held(front, nodes), last, id, addr);
      } else {
        assert Held(front, nodes) + [] == Held(front, nodes);
        assert Outcomes(front, id, addr) + [] == Outcomes(front, id, addr);
      }
    }
  }

  lemma {:induction false} IdsAreListedOnce(nodes: seq<CachedNode>, n: CachedNode)
    requires UniqueIds(nodes)
    ensures multiset(nodes)[n] <= 1
  {
    if nodes != [] {
      IdsAreListedOnce(nodes[1..], n);
      assert nodes == [nodes[0]] + nodes[1..];
      assert n == nodes[0] ==> n !in nodes[1..];
    }
  }

  lemma TwicePresent(nodes: seq<CachedNode>, i: nat, j: nat)
    requires i < j < |nodes| && nodes[i] == nodes[j]
    ensures multiset(nodes)[nodes[i]] >= 2
  {
    assert nodes == nodes[..j] + [nodes[j]] + nodes[j + 1..];
    assert nodes[i] in nodes[..j];
  }

  lemma ReorderingKeepsUniqueIds(xs: seq<CachedNode>, ys: seq<CachedNode>)
    requires UniqueIds(xs) && multiset(xs) == multiset(ys)
    ensures UniqueIds(ys)
  {
    forall i, j | 0 <= i < j < |ys|
      ensures ys[i].nodeId != ys[j].nodeId
    {
      assert ys[i] in multiset(xs) && ys[j] in multiset(xs);
      if ys[i] == ys[j] {
        TwicePresent(ys, i, j);
        IdsAreListedOnce(xs, ys[i]);
      }
    }
  }

  lemma {:induction false} RetainedIsUnique(endpoints: seq<CachedEndpoint>)
    requires UniqueAddrs(endpoints)
    ensures UniqueAddrs(Retained(endpoints))
  {
    if endpoints != [] {
      RetainedIsUnique(endpoints[1..]);
      assert forall e :: e in Retained(endpoints[1..]) ==> e in endpoints[1..];
      assert forall e :: e in endpoints[1..] ==> e.addr != endpoints[0].addr;
    }
  }

  lemma {:induction false} RetainedFinds(endpoints: seq<CachedEndpoint>, addr: string)
    requires UniqueAddrs(endpoints)
    ensures FindEndpoint(Retained(endpoints), addr).Some? ==>
              FindEndpoint(Retained(endpoints), addr) == FindEndpoint(endpoints, addr)
              && FindEndpoint(endpoints, addr).value.failCount < MAX_FAILURES
  {
    if endpoints != [] {
      var e, rest := endpoints[0], endpoints[1..];
      RetainedFinds(rest, addr);
      if e.failCount < MAX_FAILURES {
        assert Retained(endpoints) == [e] + Retained(rest);
        assert ([e] + Retained(rest))[1..] == Retained(rest);
      } else {
        assert Retained(endpoints) == Retained(rest);
        if e.addr == addr {
          FindEndpointFails(rest, addr);
        }
      }
    }
  }

  lemma {:induction false} KeptIsUnique(nodes: seq<CachedNode>, now: nat)
    requires UniqueIds(nodes)
    ensures UniqueIds(Kept(nodes, now))
  {
    if nodes != [] {
      var rest := Kept(nodes[1..], now);
      KeptIsUnique(nodes[1..], now);
      forall n | n in rest
        ensures n.nodeId != nodes[0].nodeId
      {
        var m :| m in nodes[1..] && n == WithRetained(m);
      }
      var first := WithRetained(nodes[0]);
      assert Kept(nodes, now) == if Qualifies(first, now) then [first] + rest else rest;
      hide Kept, Qualifies;
    }
  }

  lemma PrunedIsUnique(nodes: seq<CachedNode>, now: nat, maxNodes: nat)
    requires Unique(nodes)
    ensures Unique(Pruned(nodes, now, maxNodes))
  {
    var kept, r := Kept(nodes, now), Pruned(nodes, now, maxNodes);
    KeptIsUnique(nodes, now);
    SortHolds(kept, MORE_SUCCESSFUL);
    ReorderingKeepsUniqueIds(kept, Sort(kept, MORE_SUCCESSFUL));
    PrunedIsOrdered(nodes, now, maxNodes);
    forall i | 0 <= i < |r|
      ensures UniqueAddrs(r[i].endpoints)
    {
      assert r[i] in r;
      var m :| m in nodes && r[i] == WithRetained(m);
      RetainedIsUnique(m.endpoints);
    }
  }

  /** A node that stays is one of the cache's, without its failing endpoints. */
  lemma PrunedNodeIs(nodes: seq<CachedNode>, now: nat, maxNodes: nat, id: NodeId)
    requires Unique(nodes) && FindNode(Pruned(nodes, now, maxNodes), id).Some?
    ensures FindNode(nodes, id).Some? && FindNode(Pruned(nodes, now, maxNodes), id).value == WithRetained(FindNode(nodes, id).value)
  {
    var r := Pruned(nodes, now, maxNodes);
    FindNodeFails(r, id);
    var n := FindNode(r, id).value;
    PrunedQualifies(nodes, now, maxNodes, n);
    var m :| m in nodes && n == WithRetained(m);
    var i :| 0 <= i < |nodes| && nodes[i] == m;
    FindNodeAt(nodes, i);
  }

  /** What a pruned cache still holds is as it was, and had not failed too often. */
  lemma PrunedFinds(nodes: seq<CachedNode>, now: nat, maxNodes: nat, id: NodeId, addr: string)
    requires Unique(nodes)
    ensures var r := Lookup(Pruned(nodes, now, maxNodes), id, addr);
            r.Some? ==> r == Lookup(nodes, id, addr) && r.value.failCount < MAX_FAILURES
  {
    if FindNode(Pruned(nodes, now, maxNodes), id).Some? {
      PrunedNodeIs(nodes, now, maxNodes, id);
      FindNodeFails(nodes, id);
      RetainedFinds(FindNode(nodes, id).value.endpoints, addr);
    }
  }

  /** Pruning forgets whole endpoints: of what is left the counters tell every attempt ever made. */
  lemma PruneKeepsRefines(nodes: seq<CachedNode>, log: seq<Attempt>, now: nat, maxNodes: nat)
    requires Refines(nodes, log)
    ensures var r := Pruned(nodes, now, maxNodes); Refines(r, Held(log, r))
    ensures var r := Pruned(nodes, now, maxNodes);
            forall id, addr :: Lookup(r, id, addr).Some? ==> TrailingFailures(Outcomes(log, id, addr)) < 20
  {
    var r := Pruned(nodes, now, maxNodes);
    PrunedIsUnique(nodes, now, maxNodes);
    hide Pruned;
    forall id, addr
      ensures match Lookup(r, id, addr)
              case None => Outcomes(Held(log, r), id, addr) == []
              case Some(ep) => Tells(ep, Outcomes(Held(log, r), id, addr), LastAt(Held(log, r), id, addr))
                               && TrailingFailures(Outcomes(log, id, addr)) < 20
    {
      OutcomesOfHeld(log, r, id, addr);
      PrunedFinds(nodes, now, maxNodes, id, addr);
    }
  }

  lemma PruneKeepsKinds(nodes: seq<CachedNode>, parse: string -> Option<SocketAddr>, now: nat, maxNodes: nat)
    requires Unique(nodes) && KindsAgree(nodes, parse)
    ensures KindsAgree(Pruned(nodes, now, maxNodes), parse)
  {
    hide Pruned;
    forall id, addr {
      PrunedFinds(nodes, now, maxNodes, id, addr);
    }
  }

  // ------------------------------------------------------------------
  // Everything ever attempted
  // ------------------------------------------------------------------

  ghost predicate Attempted(history: seq<Attempt>, id: NodeId) {
    exists i :: 0 <= i < |history| && history[i].node == id
  }

  /** When the last attempt on a node was made, on whatever address. */
  function LastSeen(history: seq<Attempt>, id: NodeId): nat {
    if history == [] then 0
    else
      var last := history[|history| - 1];
      if last.node == id then last.at else LastSeen(history[..|history| - 1], id)
  }

  /** The address of the last attempt on a node. */
  function LastTried(history: seq<Attempt>, id: NodeId): string {
    if history == [] then ""
    else
      var last := history[|history| - 1];
      if last.node == id then last.addr else LastTried(history[..|history| - 1], id)
  }

  lemma LastSeenSnoc(history: seq<Attempt>, a: Attempt, id: NodeId)
    ensures LastSeen(history + [a], id) == if a.node == id then a.at else LastSeen(history, id)
    ensures LastTried(history + [a], id) == if a.node == id then a.addr else LastTried(history, id)
    ensures Attempted(history + [a], id) <==> a.node == id || Attempted(history, id)
  {
    assert (history + [a])[..|history|] == history;
    assert forall i :: 0 <= i < |history| ==> (history + [a])[i] == history[i];
    assert (history + [a])[|history|] == a;
  }

  ghost predicate EndsWith<T(!new)>(whole: seq<T>, end: seq<T>) {
    |end| <= |whole| && whole[|whole| - |end|..] == end
  }

  /**
   The cache against everything ever attempted: `last_seen` is the time of the last attempt on
   the node, its own address is the one tried then, and what the counters of an address tell is the end of what was ever tried on it.
   */
  ghost predicate Remembers(nodes: seq<CachedNode>, log: seq<Attempt>, history: seq<Attempt>) {
    && (forall id :: FindNode(nodes, id).Some? ==>
          && Attempted(history, id)
          && FindNode(nodes, id).value.lastSeen == LastSeen(history, id) && FindNode(nodes, id).value.addr == LastTried(history, id))
    && (forall id, addr :: EndsWith(Outcomes(history, id, addr), Outcomes(log, id, addr)))
  }

  lemma EndsWithSnoc<T(!new)>(whole: seq<T>, end: seq<T>, more: seq<T>)
    requires EndsWith(whole, end)
    ensures EndsWith(whole + more, end + more)
  {
  }

  lemma UpsertKeepsRemembers(nodes: seq<CachedNode>, log: seq<Attempt>, history: seq<Attempt>, a: Attempt, kind: string, nodes': seq<CachedNode>)
    requires Remembers(nodes, log, history) && Upserted(nodes, a.node, a.addr, kind, a.success, a.at, nodes')
    ensures Remembers(nodes', log + [a], history + [a])
  {
    forall id | FindNode(nodes', id).Some?
      ensures Attempted(history + [a], id) && FindNode(nodes', id).value.lastSeen == LastSeen(history + [a], id)
      ensures FindNode(nodes', id).value.addr == LastTried(history + [a], id)
    {
      LastSeenSnoc(history, a, id);
    }
    hide Upserted, FindNode, LastSeen, LastTried, EndsWith;
    forall id, addr
      ensures EndsWith(Outcomes(history + [a], id, addr), Outcomes(log + [a], id, addr))
    {
      OutcomesSnoc(log, a, id, addr);
      OutcomesSnoc(history, a, id, addr);
      EndsWithSnoc(Outcomes(history, id, addr), Outcomes(log, id, addr), if a.node == id && a.addr == addr then [a.success] else []);
    }
  }

  lemma PruneKeepsRemembers(nodes: seq<CachedNode>, log: seq<Attempt>, history: seq<Attempt>, now: nat, maxNodes: nat)
    requires Unique(nodes) && Remembers(nodes, log, history)
    ensures var r := Pruned(nodes, now, maxNodes); Remembers(r, Held(log, r), history)
  {
    var r := Pruned(nodes, now, maxNodes);
    forall id | FindNode(r, id).Some?
      ensures Attempted(history, id) && FindNode(r, id).value.lastSeen == LastSeen(history, id)
      ensures FindNode(r, id).value.addr == LastTried(history, id)
    {
      PrunedNodeIs(nodes, now, maxNodes, id);
    }
    hide Pruned, FindNode, LastSeen, LastTried, Lookup;
    forall id, addr
      ensures EndsWith(Outcomes(history, id, addr), Outcomes(Held(log, r), id, addr))
    {
      OutcomesOfHeld(log, r, id, addr);
    }
  }

  // ------------------------------------------------------------------
  // The best address, and the counters kept for old files
  // ------------------------------------------------------------------

  function LatencyRank(latency: Option<nat>): nat {
    if latency.Some? then latency.value + 1 else 0
  }

  /** Kind first, then latency with unknown before known, then successes. */
  predicate NotWorse(a: CachedEndpoint, b: CachedEndpoint) {
    if KindWeight(a.kind) != KindWeight(b.kind) then KindWeight(a.kind) < KindWeight(b.kind)
    else if a.latencyMs != b.latencyMs then LatencyRank(a.latencyMs) < LatencyRank(b.latencyMs)
    else a.successCount >= b.successCount
  }

  /** The place of the first of the best endpoints that are not failing. */
  ghost predicate IsBest(endpoints: seq<CachedEndpoint>, i: nat) {
    && i < |endpoints| && endpoints[i].failCount < MAX_FAILURES
    && (forall j :: 0 <= j < |endpoints| && endpoints[j].failCount < MAX_FAILURES ==> NotWorse(endpoints[i], endpoints[j]))
    && (forall j :: 0 <= j < i && endpoints[j].failCount < MAX_FAILURES ==> !NotWorse(endpoints[j], endpoints[i]))
  }

  /** Local, loopback, public, IPv6, and then anything else, which ranks alike. */
  lemma KindsInOrder(other: string)
    requires other != "Lan" && other != "Loopback" && other != "Public" && other != "Ipv6"
    ensures KindWeight("Lan") < KindWeight("Loopback") < KindWeight("Public") < KindWeight("Ipv6") < KindWeight(other)
    ensures KindWeight(other) == KindWeight("")
  {
  }

  /**
   What the best endpoint is: of those that have not failed twenty times in a row none is of a
   better kind; of the same kind none has a smaller latency, and none an unknown one unless
   its own is unknown; of those like it in both none has more successes; and of those like it
   in all three it is the first.
   */
  lemma BestExactly(endpoints: seq<CachedEndpoint>, i: nat)
    requires i < |endpoints| && endpoints[i].failCount < 20
    ensures IsBest(endpoints, i) <==>
            forall j :: 0 <= j < |endpoints| && endpoints[j].failCount < 20 ==>
              var best, e := endpoints[i], endpoints[j];
              && KindWeight(best.kind) <= KindWeight(e.kind)
              && (KindWeight(best.kind) == KindWeight(e.kind) ==>
                    && (best.latencyMs.None? || (e.latencyMs.Some? && best.latencyMs.value <= e.latencyMs.value))
                    && (best.latencyMs == e.latencyMs ==>
                          best.successCount > e.successCount || (best.successCount == e.successCount && i <= j)))
  {
    hide KindWeight;
  }

  /** `best_addr` */
  method BestAddr(node: CachedNode) returns (r: Option<string>)
    ensures r.None? <==> forall i :: 0 <= i < |node.endpoints| ==> node.endpoints[i].failCount >= 20
    ensures r.Some? ==> exists i: nat :: IsBest(node.endpoints, i) && node.endpoints[i].addr == r.value
  {
    var best: Option<nat> := None;
    for i := 0 to |node.endpoints|
      invariant best.None? <==> forall j :: 0 <= j < i ==> node.endpoints[j].failCount >= MAX_FAILURES
      invariant best.Some? ==> best.value < i && IsBest(node.endpoints[..i], best.value)
    {
      var e := node.endpoints[i];
      if e.failCount < MAX_FAILURES && (best.None? || !NotWorse(node.endpoints[best.value], e)) {
        best := Some(i);
      }
    }
    assert node.endpoints[..|node.endpoints|] == node.endpoints;
    r := if best.Some? then Some(node.endpoints[best.value].addr) else None;
  }

  /** An address that has just failed twenty times in a row, or more, is never the best one. */
  lemma BestHasNotFailedTooOften(nodes: seq<CachedNode>, log: seq<Attempt>, k: nat, i: nat)
    requires Refines(nodes, log) && k < |nodes| && IsBest(nodes[k].endpoints, i)
    ensures TrailingFailures(Outcomes(log, nodes[k].nodeId, nodes[k].endpoints[i].addr)) < 20
  {
    var id, ep := nodes[k].nodeId, nodes[k].endpoints[i];
    FindNodeAt(nodes, k);
    FindEndpointAt(nodes[k].endpoints, i);
    assert Lookup(nodes, id, ep.addr) == Some(ep);
  }

  /** The path choice dials loopback addresses before local ones; this ranking has it the other way round, and agrees on the rest. */
  lemma RanksAgreeExceptOnLocalAddresses(a: SocketAddr, b: SocketAddr)
    requires Level(a) < Level(b)
    ensures KindWeight(KindName(Classify(a))) < KindWeight(KindName(Classify(b)))
            <==> !(Classify(a) == Loopback && Classify(b) == Lan)
  {
  }

  /** A node's own count, kept for old files, is that of its most successful endpoint. */
  ghost predicate CountsAgree(nodes: seq<CachedNode>) {
    forall i :: 0 <= i < |nodes| ==> nodes[i].successCount == MostSuccesses(nodes[i].endpoints)
  }

  lemma UpsertKeepsCounts(nodes: seq<CachedNode>, id: NodeId, addr: string, kind: string, success: bool, now: nat, nodes': seq<CachedNode>)
    requires Upserted(nodes, id, addr, kind, success, now, nodes') && CountsAgree(nodes)
    ensures CountsAgree(nodes')
  {
    forall i | 0 <= i < |nodes'|
      ensures nodes'[i].successCount == MostSuccesses(nodes'[i].endpoints)
    {
      FindNodeAt(nodes', i);
      FindNodeFails(nodes, nodes'[i].nodeId);
    }
  }

  /** Pruning keeps that count where an endpoint that stays attains it, and only there. */
  lemma PruneKeepsCountsExactlyIfAttained(node: CachedNode)
    requires node.successCount == MostSuccesses(node.endpoints) && node.endpoints != [] && Retained(node.endpoints) != []
    ensures WithRetained(node).successCount == MostSuccesses(WithRetained(node).endpoints)
            <==> exists e :: e in node.endpoints && e.failCount < 20 && e.successCount == node.successCount
  {
    hide Retained;
    var kept := Retained(node.endpoints);
    var i :| 0 <= i < |kept| && kept[i].successCount == MostSuccesses(kept);
    assert kept[i] in kept;
    if e :| e in node.endpoints && e.failCount < 20 && e.successCount == node.successCount {
      assert e in kept;
      var j :| 0 <= j < |kept| && kept[j] == e;
      var m :| 0 <= m < |node.endpoints| && node.endpoints[m] == kept[i];
    }
  }

  // ------------------------------------------------------------------
  // The cache
  // ------------------------------------------------------------------

  /** `classify_addr_string`; how an address is read from a string is left to `parse`. */
  function ClassifyAddrString(parse: string -> Option<SocketAddr>, addr: string): string {
    match parse(addr)
    case Some(sa) => KindName(Classify(sa))
    case None => "Public"
  }

  method IndexOfNode(nodes: seq<CachedNode>, id: NodeId) returns (i: nat)
    ensures i <= |nodes| && (i < |nodes| ==> nodes[i].nodeId == id)
    ensures forall j :: 0 <= j < i ==> nodes[j].nodeId != id
  {
    i := 0;
    while i < |nodes| && nodes[i].nodeId != id
      invariant i <= |nodes| && forall j :: 0 <= j < i ==> nodes[j].nodeId != id
    {
      i := i + 1;
    }
  }

  method IndexOfEndpoint(endpoints: seq<CachedEndpoint>, addr: string) returns (i: nat)
    ensures i <= |endpoints| && (i < |endpoints| ==> endpoints[i].addr == addr)
    ensures forall j :: 0 <= j < i ==> endpoints[j].addr != addr
  {
    i := 0;
    while i < |endpoints| && endpoints[i].addr != addr
      invariant i <= |endpoints| && forall j :: 0 <= j < i ==> endpoints[j].addr != addr
    {
      i := i + 1;
    }
  }

  /** The endpoint list of a known node after an attempt on one of its addresses. */
  method UpsertEndpoint(endpoints: seq<CachedEndpoint>, addr: string, kind: string, success: bool, now: nat)
    returns (r: seq<CachedEndpoint>)
    requires UniqueAddrs(endpoints)
    ensures UniqueAddrs(r)
    ensures forall a :: FindEndpoint(r, a) ==
                        if a == addr then Some(After(FindEndpoint(endpoints, addr), addr, kind, success, now))
                        else FindEndpoint(endpoints, a)
  {
    var k := IndexOfEndpoint(endpoints, addr);
    FindEndpointFails(endpoints, addr);
    if k < |endpoints| {
      var ep := endpoints[k].(lastSuccess := now);
      if success {
        ep := ep.(successCount := SaturatingInc(ep.successCount), failCount := 0);
      } else {
        ep := ep.(failCount := SaturatingInc(ep.failCount));
      }
      assert FindEndpoint(endpoints, addr) == Some(endpoints[k]) by {
        var found := FindEndpoint(endpoints, addr).value;
        var j :| 0 <= j < |endpoints| && endpoints[j] == found;
      }
      r := endpoints[k := ep];
      forall a {
        FindEndpointInUpdate(endpoints, k, ep, a);
      }
    } else {
      var ep := CachedEndpoint(addr, kind, if success then now else 0, if success then 1 else 0, if success then 0 else 1, None);
      r := endpoints + [ep];
      forall a {
        FindEndpointInPush(endpoints, ep, a);
      }
    }
  }

  lemma ReplacedIsUpserted(nodes: seq<CachedNode>, i: nat, node: CachedNode, kind: string, success: bool)
    requires Unique(nodes) && i < |nodes| && nodes[i].nodeId == node.nodeId && UniqueAddrs(node.endpoints)
    requires node.successCount == MostSuccesses(node.endpoints)
    requires forall a :: FindEndpoint(node.endpoints, a) ==
                         if a == node.addr then Some(After(FindEndpoint(nodes[i].endpoints, a), a, kind, success, node.lastSeen))
                         else FindEndpoint(nodes[i].endpoints, a)
    ensures Upserted(nodes, node.nodeId, node.addr, kind, success, node.lastSeen, nodes[i := node])
  {
    FindNodeAt(nodes, i);
    forall id {
      FindNodeInUpdate(nodes, i, node, id);
    }
    hide UniqueIds, UniqueAddrs, FindNode, FindEndpoint, MostSuccesses, After;
  }

  lemma PushedIsUpserted(nodes: seq<CachedNode>, node: CachedNode, ep: CachedEndpoint, kind: string, success: bool)
    requires Unique(nodes) && FindNode(nodes, node.nodeId).None? && node.endpoints == [ep]
    requires ep == NewEndpoint(node.addr, kind, success, node.lastSeen) && node.successCount == ep.successCount
    ensures Upserted(nodes, node.nodeId, node.addr, kind, success, node.lastSeen, nodes + [node])
  {
    assert MostSuccesses([ep]) == ep.successCount;
    assert forall a :: FindEndpoint([ep], a) == if a == ep.addr then Some(ep) else None;
    forall id {
      FindNodeInPush(nodes, node, id);
    }
    hide UniqueIds, FindNode, FindEndpoint, MostSuccesses;
  }

  lemma RetainedFrom(endpoints: seq<CachedEndpoint>, i: nat, done: seq<CachedEndpoint>)
    requires i < |endpoints|
    ensures done + Retained(endpoints[i..])
         == done + (if endpoints[i].failCount < MAX_FAILURES then [endpoints[i]] else []) + Retained(endpoints[i + 1..])
  {
    assert endpoints[i..][1..] == endpoints[i + 1..];
  }

  /** `endpoints.retain` */
  method RetainEndpoints(endpoints: seq<CachedEndpoint>) returns (r: seq<CachedEndpoint>)
    ensures r == Retained(endpoints)
  {
    r := [];
    assert endpoints[0..] == endpoints && Retained(endpoints[|endpoints|..]) == [];
    hide Retained;
    for i := 0 to |endpoints|
      invariant r + Retained(endpoints[i..]) == Retained(endpoints)
    {
      RetainedFrom(endpoints, i, r);
      r := r + if endpoints[i].failCount < MAX_FAILURES then [endpoints[i]] else [];
    }
  }

  /** Drops what failed too often from every node. */
  method TrimEndpoints(nodes: seq<CachedNode>) returns (r: seq<CachedNode>)
    ensures |r| == |nodes| && forall i :: 0 <= i < |nodes| ==> r[i] == WithRetained(nodes[i])
  {
    r := [];
    for i := 0 to |nodes|
      invariant |r| == i && forall j :: 0 <= j < i ==> r[j] == WithRetained(nodes[j])
    {
      var endpoints := RetainEndpoints(nodes[i].endpoints);
      r := r + [nodes[i].(endpoints := endpoints)];
    }
  }

  lemma KeptFrom(nodes: seq<CachedNode>, now: nat, i: nat, done: seq<CachedNode>)
    requires i < |nodes|
    ensures var n := WithRetained(nodes[i]);
            done + Kept(nodes[i..], now) == done + (if Qualifies(n, now) then [n] else []) + Kept(nodes[i + 1..], now)
  {
    hide *;
    KeptCons(nodes[i], nodes[i + 1..], now);
    assert nodes[i..] == [nodes[i]] + nodes[i + 1..];
  }

  /** `nodes.retain` */
  method RetainQualified(trimmed: seq<CachedNode>, now: nat, ghost nodes: seq<CachedNode>) returns (r: seq<CachedNode>)
    requires |trimmed| == |nodes| && forall i :: 0 <= i < |nodes| ==> trimmed[i] == WithRetained(nodes[i])
    ensures r == Kept(nodes, now)
  {
    r := [];
    assert nodes[0..] == nodes && Kept(nodes[|nodes|..], now) == [];
    hide Kept, WithRetained;
    for i := 0 to |trimmed|
      invariant r + Kept(nodes[i..], now) == Kept(nodes, now)
    {
      KeptFrom(nodes, now, i, r);
      var hasSuccess := exists e :: e in trimmed[i].endpoints && e.successCount > 0;
      r := r + if hasSuccess && Recent(trimmed[i].lastSeen, now) then [trimmed[i]] else [];
    }
  }

  /** The body of `upsert`: the known node is brought up to date where it stands, an unknown one appended. */
  method UpsertNode(nodes: seq<CachedNode>, id: NodeId, addr: string, kind: string, success: bool, now: nat) returns (r: seq<CachedNode>)
    requires Unique(nodes)
    ensures Upserted(nodes, id, addr, kind, success, now, r)
  {
    var i := IndexOfNode(nodes, id);
    if i < |nodes| {
      FindNodeAt(nodes, i);
      var endpoints := UpsertEndpoint(nodes[i].endpoints, addr, kind, success, now);
      var node := CachedNode(id, endpoints, addr, now, MostSuccesses(endpoints));
      ReplacedIsUpserted(nodes, i, node, kind, success);
      r := nodes[i := node];
    } else {
      FindNodeFails(nodes, id);
      var ep := CachedEndpoint(addr, kind, if success then now else 0, if success then 1 else 0, if success then 0 else 1, None);
      var node := CachedNode(id, [ep], addr, now, if success then 1 else 0);
      PushedIsUpserted(nodes, node, ep, kind, success);
      r := nodes + [node];
    }
  }

  lemma RefinesIsUnique(nodes: seq<CachedNode>, log: seq<Attempt>)
    requires Refines(nodes, log)
    ensures Unique(nodes)
  {
  }

  /** The body of `prune`: two filters, the library's sort, and the cut. */
  method PruneNodes(nodes: seq<CachedNode>, now: nat, maxNodes: nat) returns (r: seq<CachedNode>)
    ensures r == Pruned(nodes, now, maxNodes)
  {
    hide Sort, Kept, Qualifies, WithRetained;
    r := TrimEndpoints(nodes);
    r := RetainQualified(r, now, nodes);
    r := Sort(r, MORE_SUCCESSFUL);
    if maxNodes < |r| {
      r := r[..maxNodes];
    }
  }

  class PeerCache {
    const parse: string -> Option<SocketAddr>
    var lastUpdated: nat
    var nodes: seq<CachedNode>
    /** The attempts on everything the cache holds. */
    ghost var log: seq<Attempt>
    /** Every attempt there ever was. */
    ghost var history: seq<Attempt>
    ghost var pruned: bool

    /** As long as nothing was pruned, nothing is forgotten and every node's own count is right. */
    ghost predicate Valid()
      reads this
    {
      && Refines(nodes, log) && Remembers(nodes, log, history) && KindsAgree(nodes, parse)
      && (!pruned ==> log == history && CountsAgree(nodes))
    }

    constructor (parse: string -> Option<SocketAddr>)
      ensures Valid() && nodes == [] && history == [] && !pruned && this.parse == parse
    {
      this.parse, lastUpdated, nodes, log, history, pruned := parse, 0, [], [], [], false;
    }

    /** `upsert` */
    method Upsert(id: NodeId, addr: string, success: bool, now: nat)
      requires Valid()
      modifies this`nodes, this`log, this`history, this`lastUpdated
      ensures Valid() && log == old(log) + [Attempt(id, addr, success, now)] && history == old(history) + [Attempt(id, addr, success, now)]
      ensures Upserted(old(nodes), id, addr, ClassifyAddrString(parse, addr), success, now, nodes)
      ensures old(CountsAgree(nodes)) ==> CountsAgree(nodes)
      ensures lastUpdated == now
    {
      ghost var a := Attempt(id, addr, success, now);
      var kind := ClassifyAddrString(parse, addr);
      hide Upserted, Refines, Remembers, CountsAgree, KindsAgree;
      assert Unique(nodes) by {
        RefinesIsUnique(nodes, log);
      }
      nodes := UpsertNode(nodes, id, addr, kind, success, now);
      UpsertKeepsRefines(old(nodes), log, a, kind, nodes);
      UpsertKeepsRemembers(old(nodes), log, history, a, kind, nodes);
      UpsertKeepsKinds(old(nodes), parse, id, addr, kind, success, now, nodes);
      if old(CountsAgree(nodes)) {
        UpsertKeepsCounts(old(nodes), id, addr, kind, success, now, nodes);
      }
      log, history := log + [a], history + [a];
      lastUpdated := now;
    }

    /** `prune` */
    method Prune(maxNodes: nat, now: nat)
      requires Valid()
      modifies this`nodes, this`log, this`pruned
      ensures Valid() && nodes == Pruned(old(nodes), now, maxNodes) && log == Held(old(log), nodes)
    {
      RefinesIsUnique(nodes, log);
      PruneKeepsRefines(nodes, log, now, maxNodes);
      PruneKeepsRemembers(nodes, log, history, now, maxNodes);
      PruneKeepsKinds(nodes, parse, now, maxNodes);
      hide *;
      nodes := PruneNodes(nodes, now, maxNodes);
      log, pruned := Held(log, nodes), true;
    }
  }
}
