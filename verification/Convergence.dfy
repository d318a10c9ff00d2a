/**
 Two nodes that dial each other converge on one connection.

 Connection 0 is dialled by the node with the smaller identifier, all others by the node
 with the larger one. Activations happen at each end in any order, each as one atomic step;
 a connection closed at one end reaches the other end as end-of-file.
 */
module Convergence {
  import opened Wrappers
  import opened Addresses
  import opened Sessions
  import opened Registry
  import opened Arbitration
  import Stats

  datatype Side = Small | Large

  /** The two identifiers, and the remote address each end sees for every connection. */
  datatype Net = Net(small: NodeId, large: NodeId, atSmall: seq<SocketAddr>, atLarge: seq<SocketAddr>)

  ghost predicate ValidNet(net: Net) {
    net.small < net.large && |net.atSmall| == |net.atLarge| && |net.atSmall| > 0
  }

  function Local(net: Net, side: Side): NodeId {
    if side.Small? then net.small else net.large
  }

  function Remote(net: Net, side: Side): NodeId {
    if side.Small? then net.large else net.small
  }

  /** The session one end makes of a connection. */
  function End(net: Net, side: Side, k: nat): Conn
    requires ValidNet(net) && k < |net.atSmall|
  {
    Conn(k, Remote(net, side),
         if side.Small? then net.atSmall[k] else net.atLarge[k],
         if (k == 0) == side.Small? then Outbound else Inbound)
  }

  /** One end: connections it has not activated yet, and the node. */
  datatype Half = Half(pending: set<nat>, node: Node)

  datatype Pair = Pair(small: Half, large: Half)

  function At(p: Pair, side: Side): Half {
    if side.Small? then p.small else p.large
  }

  function Across(side: Side): Side {
    if side.Small? then Large else Small
  }

  function With(p: Pair, side: Side, h: Half): Pair {
    if side.Small? then p.(small := h) else p.(large := h)
  }

  ghost function All(n: nat): (r: set<nat>)
    ensures forall k: nat :: k in r <==> k < n
    ensures |r| == n
  {
    if n == 0 then {} else All(n - 1) + {n - 1}
  }

  ghost function Start(net: Net): Pair {
    var all := All(|net.atSmall|);
    Pair(Half(all, FRESH), Half(all, FRESH))
  }

  datatype Step =
    | ActivateAt(side: Side, k: nat)   // the end's handshake is done and `activate` runs
    | EofAt(side: Side, k: nat)        // the receive loop reads end-of-file and disconnects
    | AbandonAt(side: Side, k: nat)    // the other end closed before this end's handshake was done

  ghost predicate Enabled(p: Pair, s: Step) {
    match s
    case ActivateAt(side, k) => k in At(p, side).pending
    case EofAt(side, k) => k in At(p, side).node.tables.byId && k in At(p, Across(side)).node.shut
    case AbandonAt(side, k) => k in At(p, side).pending && k in At(p, Across(side)).node.shut
  }

  ghost function Take(net: Net, p: Pair, s: Step): Pair
    requires ValidNet(net)
  {
    var h := At(p, s.side);
    match s
    case ActivateAt(side, k) =>
      if k < |net.atSmall| then
        With(p, side, Half(h.pending - {k}, Activate(Local(net, side), h.node, End(net, side, k))))
      else p
    case EofAt(side, k) => With(p, side, h.(node := Disconnect(h.node, k)))
    case AbandonAt(side, k) => With(p, side, Half(h.pending - {k}, h.node.(shut := h.node.shut + {k})))
  }

  ghost function After(net: Net, run: seq<Step>): Pair
    requires ValidNet(net)
  {
    if run == [] then Start(net) else Take(net, After(net, run[..|run| - 1]), run[|run| - 1])
  }

  ghost predicate Legal(net: Net, run: seq<Step>)
    requires ValidNet(net)
  {
    run == [] || (Legal(net, run[..|run| - 1]) && Enabled(After(net, run[..|run| - 1]), run[|run| - 1]))
  }

  ghost predicate Quiescent(p: Pair) {
    forall s: Step :: !Enabled(p, s)
  }

  // ------------------------------------------------------------------
  // What every step keeps at one end
  // ------------------------------------------------------------------

  /** The three fates of a connection at one end. */
  ghost predicate Sorted(net: Net, side: Side, h: Half)
    requires ValidNet(net)
  {
    && (forall k :: k in h.pending ==> k < |net.atSmall| && k !in h.node.tables.byId && k !in h.node.shut)
    && (forall k :: k in h.node.tables.byId ==>
          k < |net.atSmall| && h.node.tables.byId[k] == End(net, side, k) && k !in h.node.shut)
    && (forall k: nat :: k < |net.atSmall| ==> k in h.pending || k in h.node.tables.byId || k in h.node.shut)
    && 0 !in h.node.shut
  }

  /** Each connection is pending, registered or closed at this end, and never two of these; connection 0 is not closed. */
  ghost predicate HalfInv(net: Net, side: Side, h: Half)
    requires ValidNet(net)
  {
    && WellFormed(h.node.tables)
    && Sorted(net, side, h)
  }

  /** Every registered session is of the other node, so a lookup by peer finds it; only connection 0 wins over another. */
  lemma OnlyZeroWins(net: Net, side: Side, h: Half, k: nat)
    requires ValidNet(net) && HalfInv(net, side, h) && k in h.pending
    requires GetByPeer(h.node.tables, Remote(net, side)).Some?
    ensures var e := GetByPeer(h.node.tables, Remote(net, side)).value;
            && e.id in h.node.tables.byId && e == End(net, side, e.id)
            && (Wins(Local(net, side), End(net, side, k), e) ==> k == 0)
            && (k == 0 ==> Wins(Local(net, side), End(net, side, k), e))
  {
    var id := h.node.tables.byPeer[Remote(net, side)];
    assert h.node.tables.byId[id] == End(net, side, id);
  }

  lemma AdmittedKeepsHalf(net: Net, side: Side, h: Half, k: nat, n': Node)
    requires ValidNet(net) && HalfInv(net, side, h) && k in h.pending
    requires Admitted(h.node, End(net, side, k), n')
    ensures HalfInv(net, side, Half(h.pending - {k}, n')) && |n'.tables.byId| <= |h.node.tables.byId| + 1
  {
    assert End(net, side, k).id == k;
    hide WellFormed, End, CountedOut;
    assert n'.tables.byId.Keys == h.node.tables.byId.Keys + {k};
  }

  lemma ReplacedKeepsHalf(net: Net, side: Side, h: Half, gone: nat, n': Node)
    requires ValidNet(net) && HalfInv(net, side, h) && 0 in h.pending && gone in h.node.tables.byId
    requires Replaced(h.node, End(net, side, gone), End(net, side, 0), n')
    ensures HalfInv(net, side, Half(h.pending - {0}, n')) && |n'.tables.byId| <= |h.node.tables.byId| + 1
  {
    assert n'.tables.byId.Keys == h.node.tables.byId.Keys - {gone} + {0};
  }

  lemma ActivateKeepsHalf(net: Net, side: Side, h: Half, k: nat)
    requires ValidNet(net) && HalfInv(net, side, h) && k in h.pending
    ensures HalfInv(net, side, Half(h.pending - {k}, Activate(Local(net, side), h.node, End(net, side, k))))
    ensures |Activate(Local(net, side), h.node, End(net, side, k)).tables.byId| <= |h.node.tables.byId| + 1
  {
    var local, c := Local(net, side), End(net, side, k);
    match GetByPeer(h.node.tables, c.peer)
    case None =>
      NewPeerIsAdmitted(local, h.node, c);
      AdmittedKeepsHalf(net, side, h, k, Activate(local, h.node, c));
    case Some(e) =>
      OnlyZeroWins(net, side, h, k);
      if Wins(local, c, e) {
        WinnerReplaces(local, h.node, e, c);
        ReplacedKeepsHalf(net, side, h, e.id, Activate(local, h.node, c));
      } else {
        LoserIsDiscarded(local, h.node, e, c);
      }
  }

  lemma DisconnectKeepsHalf(net: Net, side: Side, h: Half, k: nat)
    requires ValidNet(net) && HalfInv(net, side, h) && k in h.node.tables.byId && k != 0
    ensures HalfInv(net, side, h.(node := Disconnect(h.node, k)))
    ensures |Disconnect(h.node, k).tables.byId| == |h.node.tables.byId| - 1
  {
    RemoveKeepsWellFormed(h.node.tables, k);
    assert Disconnect(h.node, k).tables.byId.Keys == h.node.tables.byId.Keys - {k};
  }

  lemma AbandonKeepsHalf(net: Net, side: Side, h: Half, k: nat)
    requires ValidNet(net) && HalfInv(net, side, h) && k in h.pending && k != 0
    ensures HalfInv(net, side, Half(h.pending - {k}, h.node.(shut := h.node.shut + {k})))
  {
  }

  ghost predicate Inv(net: Net, p: Pair)
    requires ValidNet(net)
  {
    HalfInv(net, Small, p.small) && HalfInv(net, Large, p.large)
  }

  /** Work left: every activation, and every registered session that may still be cut. */
  ghost function WorkAt(h: Half): nat {
    2 * |h.pending| + |h.node.tables.byId|
  }

  ghost function Work(p: Pair): nat {
    WorkAt(p.small) + WorkAt(p.large)
  }

  lemma ActivationKeepsHalf(net: Net, p: Pair, side: Side, k: nat)
    requires ValidNet(net) && Inv(net, p) && k in At(p, side).pending
    ensures HalfInv(net, side, At(Take(net, p, ActivateAt(side, k)), side))
    ensures WorkAt(At(Take(net, p, ActivateAt(side, k)), side)) < WorkAt(At(p, side))
  {
    assert k < |net.atSmall|;
    hide HalfInv, Activate;
    ActivateKeepsHalf(net, side, At(p, side), k);
  }

  /** What the other end closed cannot be connection 0. */
  lemma ClosedAcrossIsNotZero(net: Net, p: Pair, side: Side, k: nat)
    requires ValidNet(net) && Inv(net, p) && k in At(p, Across(side)).node.shut
    ensures k != 0
  {
  }

  lemma StepKeepsHalf(net: Net, p: Pair, s: Step)
    requires ValidNet(net) && Inv(net, p) && Enabled(p, s)
    ensures HalfInv(net, s.side, At(Take(net, p, s), s.side))
    ensures WorkAt(At(Take(net, p, s), s.side)) < WorkAt(At(p, s.side))
  {
    hide HalfInv, Activate, Disconnect;
    match s
    case ActivateAt(side, k) => ActivationKeepsHalf(net, p, side, k);
    case EofAt(side, k) =>
      ClosedAcrossIsNotZero(net, p, side, k);
      DisconnectKeepsHalf(net, side, At(p, side), k);
    case AbandonAt(side, k) =>
      ClosedAcrossIsNotZero(net, p, side, k);
      AbandonKeepsHalf(net, side, At(p, side), k);
  }

  lemma StepKeepsInv(net: Net, p: Pair, s: Step)
    requires ValidNet(net) && Inv(net, p) && Enabled(p, s)
    ensures Inv(net, Take(net, p, s)) && Work(Take(net, p, s)) < Work(p)
  {
    hide HalfInv, WorkAt, Activate, Disconnect, Enabled;
    StepKeepsHalf(net, p, s);
    assert At(Take(net, p, s), Across(s.side)) == At(p, Across(s.side));
  }

  lemma {:induction false} RunKeepsInv(net: Net, run: seq<Step>)
    requires ValidNet(net) && Legal(net, run)
    ensures Inv(net, After(net, run)) && Work(After(net, run)) + |run| <= Work(Start(net))
  {
    if run != [] {
      RunKeepsInv(net, run[..|run| - 1]);
      StepKeepsInv(net, After(net, run[..|run| - 1]), run[|run| - 1]);
    }
  }

  // ------------------------------------------------------------------
  // Results
  // ------------------------------------------------------------------

  lemma StepKeepsLoggedClosesShut(net: Net, p: Pair, s: Step, side: Side, k: nat)
    requires ValidNet(net)
    requires Stats.Closed(k) in At(p, side).node.log ==> k in At(p, side).node.shut
    ensures Stats.Closed(k) in At(Take(net, p, s), side).node.log ==> k in At(Take(net, p, s), side).node.shut
  {
  }

  lemma {:induction false} LoggedClosesAreShut(net: Net, run: seq<Step>, side: Side, k: nat)
    requires ValidNet(net) && Legal(net, run)
    ensures var n := At(After(net, run), side).node; Stats.Closed(k) in n.log ==> k in n.shut
  {
    if run != [] {
      LoggedClosesAreShut(net, run[..|run| - 1], side, k);
      StepKeepsLoggedClosesShut(net, After(net, run[..|run| - 1]), run[|run| - 1], side, k);
    }
  }

  /** In every reachable state the smaller identifier's connection is, at each end, still to come or registered, never closed. */
  lemma SmallerConnectionIsNeverLost(net: Net, run: seq<Step>, side: Side)
    requires ValidNet(net) && Legal(net, run)
    ensures var h := At(After(net, run), side);
            0 !in h.node.shut && Stats.Closed(0) !in h.node.log
            && (0 in h.pending || GetByPeer(h.node.tables, Remote(net, side)) == Some(End(net, side, 0)))
  {
    RunKeepsInv(net, run);
    LoggedClosesAreShut(net, run, side, 0);
    var t := At(After(net, run), side).node.tables;
    if 0 in t.byId {
      OneSessionPerPeer(t, 0, 0);
    }
  }

  /** No run goes on for more than four steps a connection, so some quiescent state is always reached. */
  lemma RunsAreFinite(net: Net, run: seq<Step>)
    requires ValidNet(net) && Legal(net, run)
    ensures |run| <= 4 * |net.atSmall|
  {
    RunKeepsInv(net, run);
  }

  lemma QuiescentHalf(net: Net, p: Pair, side: Side)
    requires ValidNet(net) && Inv(net, p) && Quiescent(p)
    ensures At(p, side).node.tables.byId == map[0 := End(net, side, 0)]
    ensures forall k: nat :: 0 < k < |net.atSmall| ==> k in At(p, side).node.shut
  {
    var h := At(p, side);
    assert HalfInv(net, side, h);
    assert forall k :: k in h.pending <==> Enabled(p, ActivateAt(side, k));
    assert h.pending == {};
    forall k | k in h.node.tables.byId
      ensures k == 0
    {
      OneSessionPerPeer(h.node.tables, k, 0);
    }
  }

  /** When nothing is left to happen, each registry holds the smaller identifier's connection and nothing else. */
  lemma BothEndsConverge(net: Net, run: seq<Step>, side: Side)
    requires ValidNet(net) && Legal(net, run) && Quiescent(After(net, run))
    ensures At(After(net, run), side).node.tables.byId == map[0 := End(net, side, 0)]
    ensures forall k: nat :: 0 < k < |net.atSmall| ==> k in At(After(net, run), side).node.shut
  {
    RunKeepsInv(net, run);
    var p := After(net, run);
    QuiescentHalf(net, p, side);
  }
}
