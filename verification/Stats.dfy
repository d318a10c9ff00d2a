/**
 Lifecycle counters (stats.rs).

 The counters are compared with the log of the calls that updated them. `active` is
 decremented with saturation, so it follows `established - closed` only as long as closes
 never outnumber establishes; the lemmas say exactly what it is otherwise.
 */
module Stats {
  import opened Sessions

  /** One call of `record_established` or `record_closed`, made on behalf of a session. */
  datatype Entry = Established(id: SessionId) | Closed(id: SessionId)

  function Establishes(log: seq<Entry>): nat {
    if log == [] then 0
    else Establishes(log[..|log| - 1]) + if log[|log| - 1].Established? then 1 else 0
  }

  function Closes(log: seq<Entry>): nat {
    if log == [] then 0
    else Closes(log[..|log| - 1]) + if log[|log| - 1].Closed? then 1 else 0
  }

  /** The `active` counter after the calls of `log`. */
  function Active(log: seq<Entry>): nat {
    if log == [] then 0
    else
      var before := Active(log[..|log| - 1]);
      if log[|log| - 1].Established? then before + 1
      else if before == 0 then 0 else before - 1
  }

  /** The largest excess of closes over establishes in any prefix; the empty prefix makes it at least 0. */
  function Deficit(log: seq<Entry>): nat {
    if log == [] then 0
    else
      var before := Deficit(log[..|log| - 1]);
      if Closes(log) - Establishes(log) > before then Closes(log) - Establishes(log) else before
  }

  lemma {:induction false} DeficitIsLargest(log: seq<Entry>)
    ensures forall k :: 0 <= k <= |log| ==> Closes(log[..k]) - Establishes(log[..k]) <= Deficit(log)
    ensures exists k :: 0 <= k <= |log| && Closes(log[..k]) - Establishes(log[..k]) == Deficit(log)
  {
    if log == [] {
      assert Closes(log[..0]) - Establishes(log[..0]) == 0;
    } else {
      var n := |log| - 1;
      var front := log[..n];
      DeficitIsLargest(front);
      assert forall k :: 0 <= k <= n ==> front[..k] == log[..k];
      assert log[..n + 1] == log;
      var j :| 0 <= j <= n && Closes(front[..j]) - Establishes(front[..j]) == Deficit(front);
      var top := if Deficit(log) == Deficit(front) then j else n + 1;
      assert Closes(log[..top]) - Establishes(log[..top]) == Deficit(log);
    }
  }

  /** What saturation costs: `active` exceeds `established - closed` by the largest deficit so far. */
  lemma {:induction false} ActiveIdentity(log: seq<Entry>)
    ensures Active(log) == Establishes(log) - Closes(log) + Deficit(log)
  {
    if log != [] {
      ActiveIdentity(log[..|log| - 1]);
    }
  }

  /** `is_consistent`: the difference is taken with saturation too. */
  predicate IsConsistent(log: seq<Entry>) {
    (if Establishes(log) >= Closes(log) then Establishes(log) - Closes(log) else 0) == Active(log)
  }

  /** In no prefix of the log do closes outnumber establishes. */
  ghost predicate NeverBehind(log: seq<Entry>) {
    forall k :: 0 <= k <= |log| ==> Closes(log[..k]) <= Establishes(log[..k])
  }

  /**
   The documented invariant `established - closed == active`, as an equation between
   integers, holds after a log exactly when closes never outnumbered establishes in it.
   */
  lemma InvariantHoldsExactlyWhenNeverBehind(log: seq<Entry>)
    ensures Establishes(log) - Closes(log) == Active(log) <==> NeverBehind(log)
  {
    ActiveIdentity(log);
    DeficitIsLargest(log);
    if Deficit(log) > 0 {
      var k :| 0 <= k <= |log| && Closes(log[..k]) - Establishes(log[..k]) == Deficit(log);
      assert !NeverBehind(log);
    }
  }

  /**
   The code's own check sees less: it also passes while closes outnumber establishes by as
   much as they ever did, and reports the drift only once an establish follows.
   */
  lemma CheckPassesExactly(log: seq<Entry>)
    ensures IsConsistent(log) <==> NeverBehind(log) || Closes(log) - Establishes(log) == Deficit(log)
  {
    ActiveIdentity(log);
    InvariantHoldsExactlyWhenNeverBehind(log);
  }

  /** A close recorded first passes the check; the establish that follows leaves `active` at 1 for good. */
  lemma LateEstablishDrifts(id: SessionId)
    ensures IsConsistent([Closed(id)])
    ensures var log := [Closed(id), Established(id)];
            Establishes(log) == Closes(log) && Active(log) == 1 && !IsConsistent(log)
  {
    assert [Closed(id), Established(id)][..1] == [Closed(id)];
  }

  lemma {:induction false} DeficitNeverFalls(log: seq<Entry>, more: seq<Entry>)
    ensures Deficit(log + more) >= Deficit(log)
  {
    if more == [] {
      assert log + more == log;
    } else {
      var k := |more| - 1;
      DeficitNeverFalls(log, more[..k]);
      assert (log + more)[..|log| + k] == log + more[..k];
    }
  }

  /** No later call makes a drift smaller. */
  lemma DriftIsForGood(log: seq<Entry>, more: seq<Entry>)
    ensures Active(log + more) - (Establishes(log + more) - Closes(log + more)) >= Active(log) - (Establishes(log) - Closes(log))
  {
    ActiveIdentity(log);
    ActiveIdentity(log + more);
    DeficitNeverFalls(log, more);
  }

  /** Each session's establish is in the log before its close, and it is closed at most once. */
  ghost predicate OrderedPerSession(log: seq<Entry>) {
    && (forall j :: 0 <= j < |log| && log[j].Closed? ==> exists i :: 0 <= i < j && log[i] == Established(log[j].id))
    && (forall i, j :: 0 <= i < j < |log| && log[i].Closed? && log[j].Closed? ==> log[i].id != log[j].id)
  }

  ghost function ClosedIds(log: seq<Entry>): set<SessionId> {
    set i | 0 <= i < |log| && log[i].Closed? :: log[i].id
  }

  ghost function EstablishedIds(log: seq<Entry>): set<SessionId> {
    set i | 0 <= i < |log| && log[i].Established? :: log[i].id
  }

  lemma {:induction false} EstablishedIdsBounded(log: seq<Entry>)
    ensures |EstablishedIds(log)| <= Establishes(log)
  {
    if log != [] {
      var n := |log| - 1;
      EstablishedIdsBounded(log[..n]);
      assert EstablishedIds(log) == EstablishedIds(log[..n]) + if log[n].Established? then {log[n].id} else {};
    }
  }

  lemma {:induction false} ClosedIdsCounted(log: seq<Entry>)
    requires forall i, j :: 0 <= i < j < |log| && log[i].Closed? && log[j].Closed? ==> log[i].id != log[j].id
    ensures |ClosedIds(log)| == Closes(log)
  {
    if log != [] {
      var n := |log| - 1;
      ClosedIdsCounted(log[..n]);
      if log[n].Closed? {
        assert log[n].id !in ClosedIds(log[..n]);
        assert ClosedIds(log) == ClosedIds(log[..n]) + {log[n].id};
      } else {
        assert ClosedIds(log) == ClosedIds(log[..n]);
      }
    }
  }

  lemma SubsetIsNoLarger(a: set<SessionId>, b: set<SessionId>)
    requires a <= b
    ensures |a| <= |b|
  {
    assert b == a + (b - a);
  }

  /** Recording every establish before the close of the same session is enough for the invariant. */
  lemma OrderedLogsAreNeverBehind(log: seq<Entry>)
    requires OrderedPerSession(log)
    ensures NeverBehind(log)
    ensures Establishes(log) - Closes(log) == Active(log)
  {
    forall k | 0 <= k <= |log|
      ensures Closes(log[..k]) <= Establishes(log[..k])
    {
      var prefix := log[..k];
      forall id | id in ClosedIds(prefix)
        ensures id in EstablishedIds(prefix)
      {
        var j :| 0 <= j < k && log[j] == Closed(id);
        var i :| 0 <= i < j && log[i] == Established(id);
        assert prefix[i] == Established(id);
      }
      SubsetIsNoLarger(ClosedIds(prefix), EstablishedIds(prefix));
      EstablishedIdsBounded(prefix);
      ClosedIdsCounted(prefix);
    }
    InvariantHoldsExactlyWhenNeverBehind(log);
  }

  /** The counters, with the log they summarise. */
  class SessionStats {
    var established: nat
    var closed: nat
    var active: nat
    var duplicateDiscarded: nat
    var inboundRejected: nat
    ghost var log: seq<Entry>

    ghost predicate Valid()
      reads this
    {
      established == Establishes(log) && closed == Closes(log) && active == Active(log)
    }

    constructor ()
      ensures Valid() && log == [] && duplicateDiscarded == 0 && inboundRejected == 0
    {
      established, closed, active, duplicateDiscarded, inboundRejected := 0, 0, 0, 0, 0;
      log := [];
    }

    method RecordEstablished(ghost id: SessionId)
      requires Valid()
      modifies this`established, this`active, this`log
      ensures Valid()
      ensures log == old(log) + [Established(id)]
    {
      established := established + 1;
      active := active + 1;
      log := log + [Established(id)];
    }

    method RecordClosed(ghost id: SessionId)
      requires Valid()
      modifies this`closed, this`active, this`log
      ensures Valid()
      ensures log == old(log) + [Closed(id)]
    {
      closed := closed + 1;
      active := if active == 0 then 0 else active - 1;
      log := log + [Closed(id)];
    }

    method RecordDuplicateDiscarded()
      requires Valid()
      modifies this`duplicateDiscarded
      ensures Valid()
      ensures duplicateDiscarded == old(duplicateDiscarded) + 1
    {
      duplicateDiscarded := duplicateDiscarded + 1;
    }

    method RecordInboundRejected()
      requires Valid()
      modifies this`inboundRejected
      ensures Valid()
      ensures inboundRejected == old(inboundRejected) + 1
    {
      inboundRejected := inboundRejected + 1;
    }

    /** The self-check agrees with the one on the log. */
    method CheckConsistent() returns (ok: bool)
      requires Valid()
      ensures ok <==> IsConsistent(log)
      ensures NeverBehind(log) ==> ok && established - closed == active
    {
      InvariantHoldsExactlyWhenNeverBehind(log);
      ok := (if established >= closed then established - closed else 0) == active;
    }
  }
}
