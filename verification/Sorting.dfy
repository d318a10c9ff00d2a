/**
 The stable sort of the standard library, as an insertion sort, and what it promises: the
 result is ordered, holds the same elements, and keeps the order of equals. Where no two
 elements are equal in rank the result does not depend on the order they came in.
 */
module Sorting {

  ghost predicate TotalPreorder<T(!new)>(le: (T, T) -> bool) {
    && (forall x, y :: le(x, y) || le(y, x))
    && (forall x, y, z :: le(x, y) && le(y, z) ==> le(x, z))
  }

  ghost predicate Ordered<T(!new)>(xs: seq<T>, le: (T, T) -> bool) {
    forall i, j :: 0 <= i < j < |xs| ==> le(xs[i], xs[j])
  }

  /** Puts an element before the first one it may precede. */
  function Insert<T>(x: T, xs: seq<T>, le: (T, T) -> bool): seq<T> {
    if xs == [] || le(x, xs[0]) then [x] + xs else [xs[0]] + Insert(x, xs[1..], le)
  }

  function Sort<T>(xs: seq<T>, le: (T, T) -> bool): seq<T> {
    if xs == [] then [] else Insert(xs[0], Sort(xs[1..], le), le)
  }

  lemma {:induction false} InsertHolds<T>(x: T, xs: seq<T>, le: (T, T) -> bool)
    ensures multiset(Insert(x, xs, le)) == multiset(xs) + multiset{x}
    ensures |Insert(x, xs, le)| == |xs| + 1
  {
    if !(xs == [] || le(x, xs[0])) {
      InsertHolds(x, xs[1..], le);
      assert xs == [xs[0]] + xs[1..];
    }
  }

  lemma {:induction false} SortHolds<T>(xs: seq<T>, le: (T, T) -> bool)
    ensures multiset(Sort(xs, le)) == multiset(xs) && |Sort(xs, le)| == |xs|
  {
    if xs != [] {
      SortHolds(xs[1..], le);
      InsertHolds(xs[0], Sort(xs[1..], le), le);
      assert xs == [xs[0]] + xs[1..];
    }
  }

  lemma {:induction false} InsertOrders<T(!new)>(x: T, xs: seq<T>, le: (T, T) -> bool)
    requires TotalPreorder(le) && Ordered(xs, le)
    ensures Ordered(Insert(x, xs, le), le)
  {
    if xs == [] || le(x, xs[0]) {
    } else {
      InsertOrders(x, xs[1..], le);
      var rest := Insert(x, xs[1..], le);
      InsertHolds(x, xs[1..], le);
      forall j | 0 <= j < |rest|
        ensures le(xs[0], rest[j])
      {
        assert rest[j] in multiset(xs[1..]) + multiset{x};
        if rest[j] != x {
          assert rest[j] in xs[1..];
        }
      }
    }
  }

  lemma {:induction false} SortOrders<T(!new)>(xs: seq<T>, le: (T, T) -> bool)
    requires TotalPreorder(le)
    ensures Ordered(Sort(xs, le), le)
  {
    if xs != [] {
      SortOrders(xs[1..], le);
      InsertOrders(xs[0], Sort(xs[1..], le), le);
    }
  }

  /** Sorting what is in order already changes nothing. */
  lemma {:induction false} SortOfOrdered<T(!new)>(xs: seq<T>, le: (T, T) -> bool)
    requires Ordered(xs, le)
    ensures Sort(xs, le) == xs
  {
    if xs != [] {
      SortOfOrdered(xs[1..], le);
      assert xs == [xs[0]] + xs[1..];
      if |xs| > 1 {
        assert le(xs[0], xs[1]);
      }
    }
  }

  // ------------------------------------------------------------------
  // Elements of equal rank
  // ------------------------------------------------------------------

  predicate SameRank<T>(x: T, y: T, le: (T, T) -> bool) {
    le(x, y) && le(y, x)
  }

  /** The elements of the rank of `e`, in order. */
  function OfRank<T>(xs: seq<T>, e: T, le: (T, T) -> bool): seq<T> {
    if xs == [] then []
    else (if SameRank(e, xs[0], le) then [xs[0]] else []) + OfRank(xs[1..], e, le)
  }

  lemma RanksChain<T(!new)>(x: T, y: T, z: T, le: (T, T) -> bool)
    requires TotalPreorder(le) && le(x, y) && le(y, z)
    ensures le(x, z)
  {
  }

  lemma OfRankCons<T>(x: T, xs: seq<T>, e: T, le: (T, T) -> bool)
    ensures OfRank([x] + xs, e, le) == (if SameRank(e, x, le) then [x] else []) + OfRank(xs, e, le)
  {
    assert ([x] + xs)[1..] == xs;
  }

  lemma {:induction false} InsertIsStable<T(!new)>(x: T, xs: seq<T>, e: T, le: (T, T) -> bool)
    requires TotalPreorder(le)
    ensures OfRank(Insert(x, xs, le), e, le) == (if SameRank(e, x, le) then [x] else []) + OfRank(xs, e, le)
  {
    hide TotalPreorder, OfRank;
    if xs == [] || le(x, xs[0]) {
      OfRankCons(x, xs, e, le);
    } else {
      var y, rest := xs[0], xs[1..];
      InsertIsStable(x, rest, e, le);
      OfRankCons(y, Insert(x, rest, le), e, le);
      assert xs == [y] + rest;
      OfRankCons(y, rest, e, le);
      if SameRank(e, x, le) && SameRank(e, y, le) {
        RanksChain(x, e, y, le);
      }
    }
  }

  /** Elements of equal rank stay in the order they came in. */
  lemma {:induction false} SortIsStable<T(!new)>(xs: seq<T>, e: T, le: (T, T) -> bool)
    requires TotalPreorder(le)
    ensures OfRank(Sort(xs, le), e, le) == OfRank(xs, e, le)
  {
    if xs != [] {
      SortIsStable(xs[1..], e, le);
      InsertIsStable(xs[0], Sort(xs[1..], le), e, le);
    }
  }

  lemma FirstsAreOfOneRank<T(!new)>(xs: seq<T>, ys: seq<T>, le: (T, T) -> bool)
    requires Ordered(xs, le) && Ordered(ys, le) && xs != [] && ys != [] && ys[0] in xs && xs[0] in ys
    ensures xs[0] == ys[0] || SameRank(xs[0], ys[0], le)
  {
    var i :| 0 <= i < |ys| && ys[i] == xs[0];
    var j :| 0 <= j < |xs| && xs[j] == ys[0];
    assert i > 0 ==> le(ys[0], ys[i]);
    assert j > 0 ==> le(xs[0], xs[j]);
  }

  /** No two different elements are of equal rank. */
  ghost predicate NoTies<T(!new)>(xs: seq<T>, le: (T, T) -> bool) {
    forall x, y :: x in xs && y in xs && SameRank(x, y, le) ==> x == y
  }

  lemma TailsHoldTheSame<T>(xs: seq<T>, ys: seq<T>)
    requires xs != [] && ys != [] && xs[0] == ys[0] && multiset(xs) == multiset(ys)
    ensures multiset(xs[1..]) == multiset(ys[1..])
  {
    assert xs == [xs[0]] + xs[1..] && ys == [ys[0]] + ys[1..];
    assert multiset(xs[1..]) == multiset(xs) - multiset{xs[0]};
    assert multiset(ys[1..]) == multiset(ys) - multiset{ys[0]};
  }

  lemma FirstsAgree<T(!new)>(xs: seq<T>, ys: seq<T>, le: (T, T) -> bool)
    requires Ordered(xs, le) && Ordered(ys, le) && multiset(xs) == multiset(ys) && NoTies(xs, le) && xs != []
    ensures ys != [] && xs[0] == ys[0] && |xs| == |ys|
  {
    assert |xs| == |multiset(xs)| == |multiset(ys)| == |ys|;
    assert xs[0] in multiset(ys) && ys[0] in multiset(xs);
    FirstsAreOfOneRank(xs, ys, le);
  }

  lemma TailsAreOrdered<T(!new)>(xs: seq<T>, le: (T, T) -> bool)
    requires Ordered(xs, le) && xs != []
    ensures Ordered(xs[1..], le)
    ensures NoTies(xs, le) ==> NoTies(xs[1..], le)
  {
  }

  /** Two orderings of the same elements agree when no two different ones are of equal rank. */
  lemma {:induction false} OrderedIsUnique<T(!new)>(xs: seq<T>, ys: seq<T>, le: (T, T) -> bool)
    requires Ordered(xs, le) && Ordered(ys, le) && multiset(xs) == multiset(ys) && NoTies(xs, le)
    ensures xs == ys
  {
    hide Ordered, NoTies, SameRank;
    if xs == [] {
      assert |multiset(ys)| == |ys|;
    } else {
      FirstsAgree(xs, ys, le);
      TailsHoldTheSame(xs, ys);
      TailsAreOrdered(xs, le);
      TailsAreOrdered(ys, le);
      OrderedIsUnique(xs[1..], ys[1..], le);
      assert xs == [xs[0]] + xs[1..] && ys == [ys[0]] + ys[1..];
    }
  }

  /** What is cut off an ordering ranks behind all that stays. */
  lemma CutRanksBehind<T(!new)>(xs: seq<T>, n: nat, le: (T, T) -> bool, x: T, y: T)
    requires Ordered(xs, le) && n <= |xs| && x in xs[..n] && y in xs && y !in xs[..n]
    ensures le(x, y)
  {
    var i :| 0 <= i < n && xs[..n][i] == x;
    var j :| 0 <= j < |xs| && xs[j] == y;
    assert le(xs[i], xs[j]);
  }

  lemma SortKeepsElements<T>(xs: seq<T>, le: (T, T) -> bool)
    ensures forall x :: x in Sort(xs, le) <==> x in xs
  {
    SortHolds(xs, le);
    assert forall x :: x in Sort(xs, le) ==> x in multiset(xs);
    assert forall x :: x in xs ==> x in multiset(Sort(xs, le));
  }

  lemma {:induction false} OfRankOfPrefix<T>(xs: seq<T>, n: nat, e: T, le: (T, T) -> bool)
    requires n <= |xs|
    ensures OfRank(xs[..n], e, le) <= OfRank(xs, e, le)
  {
    if n > 0 {
      OfRankOfPrefix(xs[1..], n - 1, e, le);
      assert xs[..n][1..] == xs[1..][..n - 1];
    }
  }
}
