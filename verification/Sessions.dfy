/** What a session is: the facts fixed when its handshake ends, and the state it updates (session.rs). */
module Sessions {
  import opened Addresses
  import Transport

  /** A 20-byte node identifier, read as a big-endian number: arrays of bytes compare as these do. */
  type NodeId = nat
  type SessionId = nat

  datatype Direction = Outbound | Inbound

  /** The fields of a session that never change. */
  datatype Conn = Conn(id: SessionId, peer: NodeId, addr: SocketAddr, direction: Direction)

  /** `SessionId::next`: a process-wide counter. */
  class SessionIds {
    var next: nat
    ghost var issued: set<SessionId>

    ghost predicate Valid()
      reads this
    {
      forall id :: id in issued ==> id < next
    }

    constructor ()
      ensures Valid() && issued == {}
    {
      next, issued := 1, {};
    }

    /** No identifier is ever handed out twice. */
    method Next() returns (id: SessionId)
      requires Valid()
      modifies this
      ensures Valid()
      ensures id !in old(issued) && issued == old(issued) + {id}
    {
      id := next;
      next := next + 1;
      issued := issued + {id};
    }
  }

  /** A session that has done its handshake. */
  class Session {
    const conn: Conn
    const transport: Transport.FrameTransport
    var lastRecvMs: nat
    var lastSendMs: nat
    var closed: bool

    constructor (conn: Conn, transport: Transport.FrameTransport, now: nat)
      ensures this.conn == conn && this.transport == transport && !closed
      ensures lastRecvMs == now && lastSendMs == now
    {
      this.conn, this.transport := conn, transport;
      lastRecvMs, lastSendMs, closed := now, now, false;
    }

    method TouchRecv(now: nat)
      modifies this`lastRecvMs
      ensures lastRecvMs == now
    {
      lastRecvMs := now;
    }

    method TouchSend(now: nat)
      modifies this`lastSendMs
      ensures lastSendMs == now
    {
      lastSendMs := now;
    }

    /** Idempotent: a session once closed stays closed. */
    method MarkClosed()
      modifies this`closed
      ensures closed
    {
      if !closed {
        closed := true;
      }
    }

    /** `idle_ms` */
    function IdleMs(now: nat): nat
      reads this`lastRecvMs
    {
      if now >= lastRecvMs then now - lastRecvMs else 0
    }

    /** `since_send_ms` */
    function SinceSendMs(now: nat): nat
      reads this`lastSendMs
    {
      if now >= lastSendMs then now - lastSendMs else 0
    }
  }
}
