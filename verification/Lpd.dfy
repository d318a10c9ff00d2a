/** Duplicate suppression of local discovery (lpd.rs, `should_emit`). */
module Lpd {
  import opened Addresses
  import opened Sessions
  import opened Expiry

  const DEDUP_WINDOW_SECS := 15
  const CLEANUP_ABOVE := 4096

  type Key = (NodeId, SocketAddr)

  class LpdDiscoveryService {
    var recentAnnounces: map<Key, nat>
    ghost var emitted: seq<Entry<Key>>
    ghost var clock: nat

    ghost predicate Valid()
      reads this
    {
      Faithful(recentAnnounces, emitted, DEDUP_WINDOW_SECS, clock)
    }

    constructor ()
      ensures Valid() && emitted == [] && clock == 0
    {
      recentAnnounces, emitted, clock := map[], [], 0;
    }

    /** An announcement is passed on exactly when its key was not passed on in the last 15 seconds, whatever was cleaned up. */
    method ShouldEmit(key: Key, now: nat) returns (emit: bool)
      requires Valid() && clock <= now
      modifies this
      ensures Valid() && clock == now
      ensures emit <==> forall i :: 0 <= i < |old(emitted)| && old(emitted)[i].key == key ==> old(emitted)[i].at + 15 <= now
      ensures emitted == old(emitted) + if emit then [Entry(key, now)] else []
    {
      hide Faithful;
      if |recentAnnounces| > CLEANUP_ABOVE {
        var kept := map k | k in recentAnnounces && recentAnnounces[k] + DEDUP_WINDOW_SECS > now :: recentAnnounces[k];
        DroppingStaleKeepsFaithful(recentAnnounces, kept, emitted, DEDUP_WINDOW_SECS, clock, now);
        recentAnnounces, clock := kept, now;
      }
      LookupIsExact(recentAnnounces, emitted, DEDUP_WINDOW_SECS, clock, key, now);
      DroppingStaleKeepsFaithful(recentAnnounces, recentAnnounces, emitted, DEDUP_WINDOW_SECS, clock, now);
      if key in recentAnnounces && recentAnnounces[key] + DEDUP_WINDOW_SECS > now {
        clock := now;
        return false;
      }
      EnteringKeepsFaithful(recentAnnounces, emitted, DEDUP_WINDOW_SECS, clock, key, now);
      recentAnnounces := recentAnnounces[key := now];
      emitted, clock := emitted + [Entry(key, now)], now;
      return true;
    }
  }
}
