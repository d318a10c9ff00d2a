/**
 What the peers of a manager read. Where every failed write ends its session they read what was
 sent and nothing else. A keepalive reply or a broadcast whose write breaks off does not end
 the session, and what is sent after it can be read as a frame nobody sent.
 */
module Framing {
  import opened Wrappers
  import opened Addresses
  import opened Sessions
  import opened Manager
  import Arbitration
  import Frames
  import Registry
  import RegistryStore
  import Streams
  import Transport

  /**
   Framing. Take a manager that any run of calls has brought where it is, in which every failed
   write ended its session, as sends, sends to a peer and probes of registered sessions do. The
   stream of each session ever held is the frames reported as sent, and then at most part of
   one that was reported as failed, or that frame; of a registered session it is the frames
   given to it. A receiver at the other end, however much has reached it, has got the first of
   the frames given to the session, in order, and no others.
   */
  lemma PeersGetOnlySentFrames(m: SessionManager, run: seq<Streams.Call>, id: SessionId, received: seq<Byte>)
    requires m.StreamsValid() && id in m.known && received <= m.known[id].transport.wire
    requires m.Lines() == Streams.After(Streams.NO_LINES, run)
    requires Streams.Legal(Streams.NO_LINES, run) && Streams.StrictRun(Streams.NO_LINES, run)
    ensures var t, given := m.known[id].transport, Streams.Given(run, id);
            var sent := Streams.Reported(t.writes);
            && Transport.AllValid(t.writes) && Frames.AllEncodable(sent)
            && t.wire == Frames.EncodeAll(sent) + Streams.Leftover(t.writes)
            && sent <= given && |given| <= |sent| + 1 && (id in m.registry.byId ==> sent == given)
            && Frames.FramesIn(received) <= given
  {
    assert m.Lines().writes[id] == m.known[id].transport.writes && m.known[id].transport.WireValid();
    hide Streams.After, Streams.Legal, Streams.StrictRun;
    Streams.StreamsOfStrictRuns(run, id, received);
  }

  /**
   And after any run at all, keepalive replies and broadcasts included: if nothing was written
   behind part of a frame on the way, a receiver has got frames that reached the stream whole,
   in order, and no others.
   */
  lemma PeersGetOnlyWholeFrames(m: SessionManager, run: seq<Streams.Call>, id: SessionId, received: seq<Byte>)
    requires m.StreamsValid() && id in m.known && received <= m.known[id].transport.wire
    requires m.Lines() == Streams.After(Streams.NO_LINES, run)
    requires Streams.Legal(Streams.NO_LINES, run) && Streams.SparesCuts(Streams.NO_LINES, run)
    ensures Transport.AllValid(m.known[id].transport.writes)
    ensures Frames.FramesIn(received) <= Transport.Delivered(m.known[id].transport.writes)
  {
    var t := m.known[id].transport;
    assert m.Lines().writes[id] == t.writes && t.WireValid();
    Streams.NothingFollowsACutInRuns(Streams.NO_LINES, run);
    assert Transport.NothingAfterACut(t.writes);
    assert t.writes[..|t.writes|] == t.writes;
    Transport.ReceiverGetsOnlySentFrames(t, |t.writes|, received);
  }

  /**
   A session whose reply was cut after n bytes and that has sent one frame more: what its peer
   reads behind the frames that came before the cut.
   */
  lemma PeersMisreadAfterACutReply(m: SessionManager, id: SessionId, before: seq<Transport.Write>, kind: nat, n: nat, next: Transport.Write)
    requires m.StreamsValid() && id in m.known && m.heartbeatReplyKind == Some(kind) && kind <= 255 && 0 < n < Frames.FRAME_HEADER_SIZE
    requires m.known[id].transport.writes == before + [Transport.Write(Frames.Frame(kind, []), n, false), next]
    requires Transport.AllValid(before) && Transport.Clean(before) && next.Valid() && next.Whole()
    ensures var fs, wire := Transport.Delivered(before), m.known[id].transport.wire;
            var length := 1 + |next.frame.payload|;
            && (Transport.ReadsOn(fs, wire) <==> length >= Transport.FirstReadLength(n))
            && (length < Transport.FirstReadLength(n) ==> Transport.IsDeafened(fs, wire))
            && (Transport.Misreads(fs, Frames.Frame(kind, []), next.frame, wire) <==>
                && length >= Transport.FirstReadLength(n)
                && !(Transport.GluedLength(1, length, n) == 1 && Transport.GluedKind(length, n) == kind)
                && !(n == 4 && next.frame == Frames.Frame(0, [])))
  {
    var cut := Transport.Write(Frames.Frame(kind, []), n, false);
    assert cut.Valid() && cut.Torn();
    hide *;
    Transport.WireAfterACut(before, cut, next);
    Transport.FrameAfterACutReply(Transport.Delivered(before), kind, n, next.frame);
  }

  lemma OpenAfterWrite(l: Streams.Lines, id: SessionId, f: Frames.Frame)
    ensures Streams.Take(l, Streams.WroteOn(id, f, Transport.Written, {})).open == l.open
  {
  }

  lemma WholeWrite(f: Frames.Frame)
    requires Frames.Encodable(f)
    ensures var w := Transport.Attempt(f, Transport.Written); Transport.WritesOf(f, Transport.Written) == [w] && w.Whole() && w.frame == f
  {
  }

  /** A reply cut after n bytes, and a frame sent after it: how a manager gets where its peer misreads. */
  method ReplyCutThenSend(m: SessionManager, s: Session, n: nat, kind: nat, payload: seq<Byte>, t1: nat, t2: nat)
    requires m.Valid() && m.StreamsValid() && s.conn.id in m.registry.byId && m.registry.byId[s.conn.id] == s && s.transport.Intact()
    requires m.heartbeatKind.Some? && m.Replies(m.heartbeatKind.value) && m.heartbeatReplyKind.value <= 255
    requires 0 < n < Frames.FRAME_HEADER_SIZE && Frames.Encodable(Frames.Frame(kind, payload))
    modifies m`events, m`retiring, m.registry, m.stats, m.known.Values`closed, s, s.transport
    ensures m.Valid() && m.StreamsValid() && s.conn.id in m.registry.byId && m.known == old(m.known) && m.Holds(s)
    ensures Transport.AllValid(old(s.transport.writes))
    ensures var fs, wire := Transport.Delivered(old(s.transport.writes)), s.transport.wire;
            var length, reply := 1 + |payload|, m.heartbeatReplyKind.value;
            && (Transport.ReadsOn(fs, wire) <==> length >= Transport.FirstReadLength(n))
            && (length < Transport.FirstReadLength(n) ==> Transport.IsDeafened(fs, wire))
            && (Transport.Misreads(fs, Frames.Frame(reply, []), Frames.Frame(kind, payload), wire) <==>
                && length >= Transport.FirstReadLength(n)
                && !(Transport.GluedLength(1, length, n) == 1 && Transport.GluedKind(length, n) == reply)
                && !(n == 4 && Frames.Frame(kind, payload) == Frames.Frame(0, [])))
  {
    hide SessionManager.SessionsAgree, SessionManager.BooksAgree, SessionManager.StreamsValid, SessionManager.View, SessionManager.Writes;
    hide SessionManager.Valid, SessionManager.ReplyWrites, SessionManager.Lines, Streams.Take, Transport.WritesOf, Transport.Attempt;
    hide SessionManager.Torn, SessionManager.NothingFollowsACut, Streams.Torn, Streams.NothingFollowsACut, Transport.FrameTransport.Intact;
    hide Transport.ReadsOn, Transport.IsDeafened, Transport.Misreads, Transport.FirstReadLength, Transport.GluedLength, Transport.GluedKind;
    hide Transport.Delivered, Transport.AllValid, Transport.Clean;
    ghost var before, reply := s.transport.writes, m.heartbeatReplyKind.value;
    ghost var cut, next := Transport.Write(Frames.Frame(reply, []), n, false), Transport.Attempt(Frames.Frame(kind, payload), Transport.Written);
    m.RegisteredFacts(s);
    m.CutReply(m.heartbeatKind.value, n);
    WholeWrite(Frames.Frame(kind, payload));
    var _ := m.HandleKeepalive(s, m.heartbeatKind.value, Transport.FailedAfter(n), t1);
    ghost var l := m.Lines();
    m.LinesOpen();
    OpenAfterWrite(l, s.conn.id, Frames.Frame(kind, payload));
    var _ := m.Send(s.conn.id, kind, payload, Transport.Written, t2);
    m.LinesOpen();
    m.RegisteredFacts(s);
    assert s.transport.writes == before + [cut, next];
    PeersMisreadAfterACutReply(m, s.conn.id, before, reply, n, next);
  }

  lemma FreshTakesIn(local: NodeId, c: Conn)
    ensures Arbitration.Activate(local, Arbitration.FRESH, c).tables == Registry.Insert(Registry.EMPTY, c)
  {
  }

  lemma FreshIsEmpty(m: SessionManager)
    requires m.Valid() && m.View() == Arbitration.FRESH
    ensures m.registry.Valid() && |m.registry.byId| == 0
  {
    assert m.registry.View().byId.Keys == m.registry.byId.Keys;
  }

  lemma TakenIn(m: SessionManager, c: Conn)
    requires m.Valid() && m.View() == Arbitration.Activate(m.localId, Arbitration.FRESH, c) && c.id in m.known
    ensures m.registry.Valid() && m.registry.GetByPeer(c.peer).Some? && m.registry.GetByPeer(c.peer).value == m.known[c.id]
    ensures m.Holds(m.known[c.id]) && m.known[c.id].conn.id == c.id
    ensures c.id in m.registry.byId && m.registry.byId[c.id] == m.known[c.id]
  {
    hide SessionManager.BooksAgree, RegistryStore.SessionRegistry.Valid;
    FreshTakesIn(m.localId, c);
    assert m.registry.View().byId.Keys == m.registry.byId.Keys;
    hide Arbitration.Activate;
  }

  /** The first session of a fresh manager, taken in from outside. */
  method FirstSession(m: SessionManager, t: Transport.FrameTransport, peer: NodeId, addr: SocketAddr, now: nat, ids: SessionIds) returns (s: Session)
    requires m.Valid() && m.StreamsValid() && m.View() == Arbitration.FRESH && m.known == map[] && !m.shuttingDown && m.maxSessions > 0
    requires m.FreshStream(t) && ids.Valid()
    modifies m`events, m`known, m`discarded, m`retiring, m.registry, m.stats, ids
    ensures m.Valid() && m.StreamsValid() && s.conn.id in m.registry.byId && m.registry.byId[s.conn.id] == s && m.Holds(s)
    ensures fresh(s) && s.transport == t && m.known == map[s.conn.id := s]
  {
    hide *;
    FreshIsEmpty(m);
    ghost var newcomer := m.AcceptInbound(t, addr, Identified(peer, true), now, ids);
    TakenIn(m, newcomer.value);
    var found := m.registry.GetByPeer(peer);
    s := found.value;
  }

  lemma NewStream(m: SessionManager, t: Transport.FrameTransport)
    requires m.known == map[] && t.WireValid() && t.writes == []
    ensures m.StreamsValid() && m.FreshStream(t) && t.Intact() && Transport.Delivered([]) == []
  {
  }

  /** Four bytes of the reply and an empty frame of kind 9 are read as a frame of kind 0. */
  lemma CutAtFour()
    ensures Transport.FirstReadLength(4) == 0 && Transport.GluedKind(1, 4) == 0
  {
  }

  /** A manager that sends probes of kind 1 and replies of kind 2, with one session that has sent nothing yet. */
  method OneSession() returns (m: SessionManager, s: Session)
    ensures fresh(m) && fresh(m.registry) && fresh(m.stats) && fresh(s) && fresh(s.transport)
    ensures m.Valid() && m.StreamsValid() && s.conn.id in m.registry.byId && m.registry.byId[s.conn.id] == s && m.known == map[s.conn.id := s]
    ensures m.heartbeatKind == Some(1) && m.heartbeatReplyKind == Some(2) && s.transport.writes == []
  {
    hide SessionManager.Valid, SessionManager.View, SessionManager.FreshStream, SessionManager.Lines;
    hide Transport.FrameTransport.ReadValid, Transport.FrameTransport.WireValid, Transport.FrameTransport.Pending, Transport.FrameTransport.Intact;
    m := new SessionManager(0, 8, 30, 60, 20, Some(1), Some(2));
    var ids := new SessionIds();
    var t := new Transport.FrameTransport([], Transport.Eof);
    NewStream(m, t);
    s := FirstSession(m, t, 9, SocketAddr(V4(192, 0, 2, 1), 6885), 0, ids);
  }

  /** A manager whose peer is read a frame that nobody sent. */
  method MisframingIsReached() returns (m: SessionManager, s: Session)
    ensures m.Valid() && m.StreamsValid() && s.conn.id in m.registry.byId && m.Holds(s)
    ensures Transport.Misreads([], Frames.Frame(2, []), Frames.Frame(9, []), s.transport.wire)
  {
    hide SessionManager.Valid, SessionManager.StreamsValid, Transport.Misreads, Transport.ReadsOn, Transport.IsDeafened;
    hide Transport.FirstReadLength, Transport.GluedLength, Transport.GluedKind;
    m, s := OneSession();
    CutAtFour();
    ReplyCutThenSend(m, s, 4, 9, [], 1, 2);
  }
}
