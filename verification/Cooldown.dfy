/**
 Addresses left alone for a while after a failed dial or handshake (mod.rs, the cooldown
 functions). The table keeps expiry times and forgets them lazily; it is compared with the
 list of all marks.
 */
module Cooldown {
  import opened Addresses
  import opened Sessions
  import opened Expiry
  import opened Filters

  type Key = (NodeId, SocketAddr)

  /** The addresses of the list that no mark of the peer still covers, in order. */
  ghost function NotCooling(marks: seq<Entry<Key>>, span: nat, peer: NodeId, addrs: seq<SocketAddr>, now: nat): (r: seq<SocketAddr>)
    ensures forall a :: a in r <==> a in addrs && !Within(marks, (peer, a), span, now)
  {
    if addrs == [] then []
    else
      var front, last := addrs[..|addrs| - 1], addrs[|addrs| - 1];
      assert addrs == front + [last];
      NotCooling(marks, span, peer, front, now) + if Within(marks, (peer, last), span, now) then [] else [last]
  }

  /** The filter keeps, in order, exactly the addresses of which every mark has run out. */
  lemma {:induction false} NotCoolingKeeps(marks: seq<Entry<Key>>, span: nat, peer: NodeId, addrs: seq<SocketAddr>, now: nat)
    ensures KeepsExactly(addrs, NotCooling(marks, span, peer, addrs, now),
                         a => forall i :: 0 <= i < |marks| && marks[i].key == (peer, a) ==> marks[i].at + span <= now)
  {
    var keep := (a: SocketAddr) => forall i :: 0 <= i < |marks| && marks[i].key == (peer, a) ==> marks[i].at + span <= now;
    if addrs == [] {
      NothingToKeep(keep);
    } else {
      var front, last := addrs[..|addrs| - 1], addrs[|addrs| - 1];
      NotCoolingKeeps(marks, span, peer, front, now);
      OneMore(front, NotCooling(marks, span, peer, front, now), keep, last);
      assert addrs == front + [last];
    }
  }

  /** One mark per address of the list. */
  function MarksFor(peer: NodeId, addrs: seq<SocketAddr>, now: nat): seq<Entry<Key>> {
    seq(|addrs|, i requires 0 <= i < |addrs| => Entry((peer, addrs[i]), now))
  }

  class CooldownTable {
    const span: nat
    var until: map<Key, nat>
    ghost var marks: seq<Entry<Key>>
    ghost var clock: nat

    /** When each entry of the table was made. */
    ghost function MarkedAt(): map<Key, nat>
      requires forall k :: k in until ==> until[k] >= span
      reads this
    {
      map k | k in until :: until[k] - span
    }

    ghost predicate Valid()
      reads this
    {
      (forall k :: k in until ==> until[k] >= span) && Faithful(MarkedAt(), marks, span, clock)
    }

    constructor (span: nat)
      ensures Valid() && this.span == span && marks == [] && clock == 0
    {
      this.span, until, marks, clock := span, map[], [], 0;
    }

    /** An address is in cooldown exactly as long as some mark of it, ever made, has not run out. */
    method InCooldown(peer: NodeId, addr: SocketAddr, now: nat) returns (cooling: bool)
      requires Valid() && clock <= now
      modifies this`until, this`clock
      ensures Valid() && clock == now
      ensures cooling <==> Within(marks, (peer, addr), span, now)
      ensures cooling <==> exists i :: 0 <= i < |marks| && marks[i].key == (peer, addr) && now < marks[i].at + span
    {
      var key := (peer, addr);
      LookupIsExact(MarkedAt(), marks, span, clock, key, now);
      ghost var before := MarkedAt();
      cooling := false;
      if key in until {
        if until[key] <= now {
          until := until - {key};
        } else {
          cooling := true;
        }
      }
      DroppingStaleKeepsFaithful(before, MarkedAt(), marks, span, clock, now);
      clock := now;
    }

    /** Drops what has run out: no later answer changes. */
    method Prune(now: nat)
      requires Valid() && clock <= now
      modifies this`until, this`clock
      ensures Valid() && clock == now
      ensures forall k :: k in until <==> k in old(until) && old(until)[k] > now
    {
      ghost var before := MarkedAt();
      until := map k | k in until && until[k] > now :: until[k];
      DroppingStaleKeepsFaithful(before, MarkedAt(), marks, span, clock, now);
      clock := now;
    }

    method Mark(peer: NodeId, addr: SocketAddr, now: nat)
      requires Valid() && clock <= now
      modifies this`until, this`marks, this`clock
      ensures Valid() && clock == now
      ensures marks == old(marks) + [Entry((peer, addr), now)]
    {
      EnteringKeepsFaithful(MarkedAt(), marks, span, clock, (peer, addr), now);
      ghost var entered := MarkedAt()[(peer, addr) := now];
      until := until[(peer, addr) := now + span];
      assert MarkedAt() == entered;
      marks, clock := marks + [Entry((peer, addr), now)], now;
    }

    method MarkAll(peer: NodeId, addrs: seq<SocketAddr>, now: nat)
      requires Valid() && clock <= now
      modifies this`until, this`marks, this`clock
      ensures Valid() && clock <= now
      ensures addrs != [] ==> clock == now
      ensures marks == old(marks) + MarksFor(peer, addrs, now)
    {
      for i := 0 to |addrs|
        invariant Valid() && clock <= now && (i > 0 ==> clock == now)
        invariant marks == old(marks) + MarksFor(peer, addrs, now)[..i]
      {
        Mark(peer, addrs[i], now);
      }
    }

    /** The filter `connect` puts its candidates through. */
    method Usable(peer: NodeId, addrs: seq<SocketAddr>, now: nat) returns (usable: seq<SocketAddr>)
      requires Valid() && clock <= now
      modifies this`until, this`clock
      ensures Valid() && clock <= now
      ensures usable == NotCooling(marks, span, peer, addrs, now)
    {
      usable := [];
      for i := 0 to |addrs|
        invariant Valid() && clock <= now
        invariant usable == NotCooling(marks, span, peer, addrs[..i], now)
      {
        var cooling := InCooldown(peer, addrs[i], now);
        assert addrs[..i + 1][..i] == addrs[..i];
        if !cooling {
          usable := usable + [addrs[i]];
        }
      }
      assert addrs[..|addrs|] == addrs;
    }
  }

  /** An address that has run out of cooldown does not come back into it without a new mark. */
  lemma {:induction false} NotCoolingLater(marks: seq<Entry<Key>>, span: nat, peer: NodeId, addrs: seq<SocketAddr>, t0: nat, t1: nat)
    requires t0 <= t1 && forall a :: a in addrs ==> !Within(marks, (peer, a), span, t0)
    ensures NotCooling(marks, span, peer, addrs, t1) == addrs
  {
    if addrs != [] {
      var front, last := addrs[..|addrs| - 1], addrs[|addrs| - 1];
      assert addrs == front + [last];
      NotCoolingLater(marks, span, peer, front, t0, t1);
      assert last in addrs;
      forall i | 0 <= i < |marks| && marks[i].key == (peer, last)
        ensures marks[i].at + span <= t1
      {
        assert !Within(marks, (peer, last), span, t0);
      }
    }
  }

  /** The marks a call of `connect` leaves when both of its dials fail, at t1 and at t2. */
  ghost function AfterFailedDials(marks: seq<Entry<Key>>, peer: NodeId, usable: seq<SocketAddr>, t1: nat, t2: nat): seq<Entry<Key>> {
    marks + MarksFor(peer, Preferred(usable), t1) + MarksFor(peer, Fallback(usable), t2)
  }

  /** What a batch of marks at one time adds. */
  lemma WithinAfterMarks(marks: seq<Entry<Key>>, span: nat, peer: NodeId, addrs: seq<SocketAddr>, at: nat, now: nat, a: SocketAddr)
    ensures Within(marks + MarksFor(peer, addrs, at), (peer, a), span, now)
            <==> Within(marks, (peer, a), span, now) || (a in addrs && now < at + span)
  {
    var after := marks + MarksFor(peer, addrs, at);
    if Within(marks, (peer, a), span, now) {
      var i :| 0 <= i < |marks| && marks[i].key == (peer, a) && marks[i].at + span > now;
      assert after[i] == marks[i];
    }
    if a in addrs {
      var i :| 0 <= i < |addrs| && addrs[i] == a;
      assert after[|marks| + i] == Entry((peer, a), at);
    }
  }

  /** Of a usable address the marks in force after failed dials are its new one. */
  lemma CoolingAfterFailedDials(marks: seq<Entry<Key>>, span: nat, peer: NodeId, usable: seq<SocketAddr>,
                                t0: nat, t1: nat, t2: nat, now: nat, a: SocketAddr)
    requires a in usable && !Within(marks, (peer, a), span, t0) && t0 <= t1 <= t2 <= now
    ensures a in Preferred(usable) ==>
              (Within(AfterFailedDials(marks, peer, usable, t1, t2), (peer, a), span, now) <==> now < t1 + span)
    ensures a in Fallback(usable) ==>
              (Within(AfterFailedDials(marks, peer, usable, t1, t2), (peer, a), span, now) <==> now < t2 + span)
    ensures a in Preferred(usable) || a in Fallback(usable)
  {
    NotCoolingLater(marks, span, peer, [a], t0, now);
    assert a in multiset(usable) by {
      assert a in usable;
    }
    DialPlan(usable);
    WithinAfterMarks(marks, span, peer, Preferred(usable), t1, now, a);
    WithinAfterMarks(marks + MarksFor(peer, Preferred(usable), t1), span, peer, Fallback(usable), t2, now, a);
    hide *;
    assert a in multiset(Preferred(usable)) + multiset(Fallback(usable));
  }

  /**
   When `connect` gives up on dialling, every usable address is in cooldown if and only if
   the cooldown of the first dial outlasts the second: a second dial that takes as long as
   the cooldown leaves the preferred addresses free again.
   */
  lemma FailedDialsLeaveAllCooling(marks: seq<Entry<Key>>, span: nat, peer: NodeId, usable: seq<SocketAddr>,
                                   t0: nat, t1: nat, t2: nat)
    requires usable != [] && t0 <= t1 <= t2
    requires forall a :: a in usable ==> !Within(marks, (peer, a), span, t0)
    ensures (forall a :: a in usable ==> Within(AfterFailedDials(marks, peer, usable, t1, t2), (peer, a), span, t2))
            <==> t2 < t1 + span
  {
    var after := AfterFailedDials(marks, peer, usable, t1, t2);
    forall a | a in usable && t2 < t1 + span
      ensures Within(after, (peer, a), span, t2)
    {
      CoolingAfterFailedDials(marks, span, peer, usable, t0, t1, t2, t2, a);
    }
    DialPlan(usable);
    var a := Preferred(usable)[0];
    assert a in multiset(Preferred(usable)) && a in multiset(usable);
    CoolingAfterFailedDials(marks, span, peer, usable, t0, t1, t2, t2, a);
  }

  const LAN := SocketAddr(V4(10, 0, 0, 1), 1)
  const PUBLIC := SocketAddr(V4(1, 1, 1, 1), 1)

  lemma LevelsOfLanAndPublic()
    ensures AtLevel([LAN, PUBLIC], 0) == [] && AtLevel([LAN, PUBLIC], 1) == [LAN]
  {
    AtLevelAppend([LAN], [PUBLIC], 0);
    AtLevelAppend([LAN], [PUBLIC], 1);
    assert [LAN] + [PUBLIC] == [LAN, PUBLIC];
    AtLevelOfUniform([LAN], 1, 0);
    AtLevelOfUniform([LAN], 1, 1);
    AtLevelOfUniform([PUBLIC], 2, 0);
    AtLevelOfUniform([PUBLIC], 2, 1);
  }

  /** With the default cooldown of 30 s, a second dial of 30 s ends with the local address free again. */
  lemma SlowSecondDialFreesTheFirst()
    ensures !Within(AfterFailedDials([], 7, [LAN, PUBLIC], 0, 30), (7, LAN), 30, 30)
  {
    LevelsOfLanAndPublic();
    assert LAN in Preferred([LAN, PUBLIC]);
    CoolingAfterFailedDials([], 30, 7, [LAN, PUBLIC], 0, 0, 30, 30, LAN);
  }
}
