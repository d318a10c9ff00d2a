/** What it means to filter a list: exactly the elements to keep stay, each as often and in the order they are listed. */
module Filters {

  ghost predicate Ascending(at: seq<nat>) {
    forall i, j :: 0 <= i < j < |at| ==> at[i] < at[j]
  }

  /** `r` is what the list has at the places `at`, one after the other. */
  ghost predicate ReadsAt<T(!new)>(xs: seq<T>, at: seq<nat>, r: seq<T>) {
    |at| == |r| && forall i :: 0 <= i < |at| ==> at[i] < |xs| && r[i] == xs[at[i]]
  }

  /** The places are those of all elements to keep, and of no others. */
  ghost predicate PlacesOf<T(!new)>(xs: seq<T>, at: seq<nat>, keep: T -> bool) {
    forall k :: 0 <= k < |xs| ==> (k in at <==> keep(xs[k]))
  }

  ghost predicate KeepsExactly<T(!new)>(xs: seq<T>, r: seq<T>, keep: T -> bool) {
    exists at :: Ascending(at) && ReadsAt(xs, at, r) && PlacesOf(xs, at, keep)
  }

  lemma NothingToKeep<T(!new)>(keep: T -> bool)
    ensures KeepsExactly([], [], keep)
  {
    assert Ascending([]) && ReadsAt<T>([], [], []) && PlacesOf([], [], keep);
  }

  lemma OneMorePlace<T(!new)>(xs: seq<T>, at: seq<nat>, keep: T -> bool, x: T)
    requires PlacesOf(xs, at, keep) && forall i :: 0 <= i < |at| ==> at[i] < |xs|
    ensures PlacesOf(xs + [x], at + if keep(x) then [|xs|] else [], keep)
  {
    var at' := at + if keep(x) then [|xs|] else [];
    forall k | 0 <= k < |xs + [x]|
      ensures k in at' <==> keep((xs + [x])[k])
    {
      if k < |xs| {
        assert k in at' <==> k in at;
      } else {
        assert k !in at;
      }
    }
  }

  lemma OneMoreRead<T(!new)>(xs: seq<T>, at: seq<nat>, r: seq<T>, kept: bool, x: T)
    requires Ascending(at) && ReadsAt(xs, at, r)
    ensures Ascending(at + if kept then [|xs|] else [])
    ensures ReadsAt(xs + [x], at + (if kept then [|xs|] else []), r + if kept then [x] else [])
  {
  }

  lemma OneMore<T(!new)>(xs: seq<T>, r: seq<T>, keep: T -> bool, x: T)
    requires KeepsExactly(xs, r, keep)
    ensures KeepsExactly(xs + [x], r + if keep(x) then [x] else [], keep)
  {
    var at: seq<nat> :| Ascending(at) && ReadsAt(xs, at, r) && PlacesOf(xs, at, keep);
    var at' := at + if keep(x) then [|xs|] else [];
    OneMorePlace(xs, at, keep, x);
    OneMoreRead(xs, at, r, keep(x), x);
    hide *;
    assert Ascending(at') && ReadsAt(xs + [x], at', r + if keep(x) then [x] else []) && PlacesOf(xs + [x], at', keep);
  }

  lemma SameKeep<T(!new)>(xs: seq<T>, r: seq<T>, keep: T -> bool, keep': T -> bool)
    requires KeepsExactly(xs, r, keep) && forall x :: keep(x) <==> keep'(x)
    ensures KeepsExactly(xs, r, keep')
  {
    var at: seq<nat> :| Ascending(at) && ReadsAt(xs, at, r) && PlacesOf(xs, at, keep);
    assert PlacesOf(xs, at, keep');
  }

  /** The kept elements are those of the list that are to be kept. */
  lemma KeptAre<T(!new)>(xs: seq<T>, r: seq<T>, keep: T -> bool)
    requires KeepsExactly(xs, r, keep)
    ensures forall x :: x in r <==> x in xs && keep(x)
  {
    var at: seq<nat> :| Ascending(at) && ReadsAt(xs, at, r) && PlacesOf(xs, at, keep);
    forall x | x in xs && keep(x)
      ensures x in r
    {
      var k :| 0 <= k < |xs| && xs[k] == x;
      var i :| 0 <= i < |at| && at[i] == k;
      assert r[i] == x;
    }
    forall x | x in r
      ensures x in xs && keep(x)
    {
      var i :| 0 <= i < |r| && r[i] == x;
      assert at[i] in at;
    }
  }

  lemma SomeElement(b: seq<nat>)
    ensures b != [] ==> exists k :: k in b
  {
    if b != [] {
      assert b[0] in b;
    }
  }

  lemma {:induction false} AscendingIsUnique(a: seq<nat>, b: seq<nat>)
    requires Ascending(a) && Ascending(b) && forall k :: k in a <==> k in b
    ensures a == b
  {
    SomeElement(b);
    if a != [] {
      var n := |a| - 1;
      assert a[n] in b;
      var m := |b| - 1;
      assert b[m] in a;
      forall k | k in a[..n]
        ensures k in b[..m]
      {
        assert k in b && k != a[n];
      }
      forall k | k in b[..m]
        ensures k in a[..n]
      {
        assert k in a && k != b[m];
      }
      AscendingIsUnique(a[..n], b[..m]);
      assert a == a[..n] + [a[n]] && b == b[..m] + [b[m]];
    }
  }

  /** There is only one such list. */
  lemma KeptAreDetermined<T(!new)>(xs: seq<T>, r: seq<T>, r': seq<T>, keep: T -> bool)
    requires KeepsExactly(xs, r, keep) && KeepsExactly(xs, r', keep)
    ensures r == r'
  {
    var at: seq<nat> :| Ascending(at) && ReadsAt(xs, at, r) && PlacesOf(xs, at, keep);
    var at': seq<nat> :| Ascending(at') && ReadsAt(xs, at', r') && PlacesOf(xs, at', keep);
    forall k: nat
      ensures k in at <==> k in at'
    {
      assert k in at || k in at' ==> k < |xs|;
    }
    AscendingIsUnique(at, at');
  }
}
