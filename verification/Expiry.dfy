/**
 Tables that forget (mod.rs, the cooldown functions; lpd.rs, `should_emit`).

 Both keep a time per key and drop entries that no longer matter, when asked about them or
 in passing. Each is compared with the list of everything that was ever entered.
 */
module Expiry {

  /** Everything entered so far, with its time. */
  datatype Entry<K> = Entry(key: K, at: nat)

  /** Some entry of the key is still within the span at `now`. */
  ghost predicate Within<K(!new)>(history: seq<Entry<K>>, key: K, span: nat, now: nat) {
    exists i :: 0 <= i < |history| && history[i].key == key && history[i].at + span > now
  }

  /**
   The table knows of every key all that can still matter: an entry is covered by the
   table's time for its key, or its span has run out; and the table's time is an entry's.
   */
  ghost predicate Faithful<K(!new)>(table: map<K, nat>, history: seq<Entry<K>>, span: nat, clock: nat) {
    && (forall i :: 0 <= i < |history| ==> history[i].at <= clock)
    && (forall i :: 0 <= i < |history| ==>
          history[i].at + span <= clock || (history[i].key in table && history[i].at <= table[history[i].key]))
    && (forall k :: k in table ==> exists i :: 0 <= i < |history| && history[i] == Entry(k, table[k]))
  }

  /** A faithful table answers as the whole history does. */
  lemma LookupIsExact<K(!new)>(table: map<K, nat>, history: seq<Entry<K>>, span: nat, clock: nat, key: K, now: nat)
    requires Faithful(table, history, span, clock) && clock <= now
    ensures (key in table && table[key] + span > now) <==> Within(history, key, span, now)
  {
    if key in table && table[key] + span > now {
      var i :| 0 <= i < |history| && history[i] == Entry(key, table[key]);
      assert history[i].key == key && history[i].at + span > now;
    }
  }

  /** Time passing, and dropping entries whose span has run out, keep a table faithful. */
  lemma DroppingStaleKeepsFaithful<K(!new)>(table: map<K, nat>, smaller: map<K, nat>, history: seq<Entry<K>>, span: nat, clock: nat, now: nat)
    requires Faithful(table, history, span, clock) && clock <= now
    requires forall k :: k in smaller ==> k in table && smaller[k] == table[k]
    requires forall k :: k in table && k !in smaller ==> table[k] + span <= now
    ensures Faithful(smaller, history, span, now)
  {
  }

  lemma EnteringKeepsFaithful<K(!new)>(table: map<K, nat>, history: seq<Entry<K>>, span: nat, clock: nat, key: K, now: nat)
    requires Faithful(table, history, span, clock) && clock <= now
    ensures Faithful(table[key := now], history + [Entry(key, now)], span, now)
  {
    var table', history' := table[key := now], history + [Entry(key, now)];
    forall k | k in table'
      ensures exists i :: 0 <= i < |history'| && history'[i] == Entry(k, table'[k])
    {
      if k == key {
        assert history'[|history|] == Entry(k, table'[k]);
      } else {
        var i :| 0 <= i < |history| && history[i] == Entry(k, table[k]);
        assert history'[i] == Entry(k, table'[k]);
      }
    }
  }
}
