/**
 Socket addresses, their classes, and the three-level path choice (types.rs).

 Dialling prefers loopback addresses to local-network ones and local-network ones to
 public ones; whatever the choice leaves out is kept, in order, as the fallback list.
 */
module Addresses {
  import opened Filters

  type Byte = b: int | 0 <= b < 256

  datatype Ip =
    | V4(a: Byte, b: Byte, c: Byte, d: Byte)
    | V6(s0: bv16, s1: bv16, s2: bv16, s3: bv16, s4: bv16, s5: bv16, s6: bv16, s7: bv16)

  datatype SocketAddr = SocketAddr(ip: Ip, port: nat)

  datatype EndpointKind = Lan | Public | Ipv6 | Loopback

  /** `NodeEndpoint::classify`, with the mask 0xffc0 the code applies to the first segment. */
  function Classify(addr: SocketAddr): EndpointKind {
    match addr.ip
    case V4(a, b, c, d) =>
      if a == 127 then Loopback
      else if a == 10 || (a == 172 && 16 <= b <= 31) || (a == 192 && b == 168) then Lan
      else Public
    case V6(s0, s1, s2, s3, s4, s5, s6, s7) =>
      if s0 == 0 && s1 == 0 && s2 == 0 && s3 == 0 && s4 == 0 && s5 == 0 && s6 == 0 && s7 == 1 then Loopback
      else if s0 & 0xffc0 == 0xfe80 || s0 & 0xffc0 == 0xfc00 then Lan
      else Ipv6
  }

  /** The blocks of IPv4, with an address read as one number of 32 bits. */
  lemma V4Classes(addr: SocketAddr, a: Byte, b: Byte, c: Byte, d: Byte)
    requires addr.ip == V4(a, b, c, d)
    ensures var n := 0x100_0000 * a + 0x1_0000 * b + 0x100 * c + d;
            && (Classify(addr) == Loopback <==> 0x7F00_0000 <= n <= 0x7FFF_FFFF)
            && (Classify(addr) == Lan <==>
                0x0A00_0000 <= n <= 0x0AFF_FFFF || 0xAC10_0000 <= n <= 0xAC1F_FFFF || 0xC0A8_0000 <= n <= 0xC0A8_FFFF)
            && Classify(addr) != Ipv6
  {
  }

  /** The blocks of IPv6: ::1, fe80::/10 and fc00::/10. */
  lemma V6Classes(addr: SocketAddr)
    requires addr.ip.V6?
    ensures Classify(addr) == Loopback <==> addr.ip == V6(0, 0, 0, 0, 0, 0, 0, 1)
    ensures Classify(addr) == Lan <==> 0xfe80 <= addr.ip.s0 <= 0xfebf || 0xfc00 <= addr.ip.s0 <= 0xfc3f
    ensures Classify(addr) != Public
  {
    var s := addr.ip.s0;
    assert s & 0xffc0 == 0xfe80 <==> 0xfe80 <= s <= 0xfebf;
    assert s & 0xffc0 == 0xfc00 <==> 0xfc00 <= s <= 0xfc3f;
  }

  /** The unique-local block of section 3.1 of RFC 4193: fc00::/7. */
  predicate UniqueLocal(ip: Ip) {
    ip.V6? && ip.s0 & 0xfe00 == 0xfc00
  }

  /**
   The code and its own comment disagree on unique-local addresses. Of fc00::/7 the code
   takes exactly fc00::/10 for local; every other one, fd00::/8 included, is public IPv6.
   */
  lemma UniqueLocalIsLanExactlyBelowFc40(addr: SocketAddr)
    requires UniqueLocal(addr.ip)
    ensures Classify(addr) == Lan <==> addr.ip.s0 < 0xfc40
    ensures addr.ip.s0 >= 0xfc40 ==> Classify(addr) == Ipv6
  {
    var s := addr.ip.s0;
    assert s & 0xfe00 == 0xfc00 ==> s != 0 && s & 0xffc0 != 0xfe80;
    assert s & 0xfe00 == 0xfc00 ==> (s & 0xffc0 == 0xfc00 <==> s < 0xfc40);
  }

  lemma Fd00IsTakenForPublicIpv6(port: nat)
    ensures var addr := SocketAddr(V6(0xfd00, 0, 0, 0, 0, 0, 0, 1), port);
            UniqueLocal(addr.ip) && Classify(addr) == Ipv6
  {
  }

  // ------------------------------------------------------------------
  // Path choice
  // ------------------------------------------------------------------

  /** The level an address is dialled at; a smaller level is better. */
  function Level(addr: SocketAddr): nat {
    match Classify(addr)
    case Loopback => 0
    case Lan => 1
    case Public => 2
    case Ipv6 => 2
  }

  /** Loopback, local and all other addresses are the three levels. */
  lemma LevelsAre(addr: SocketAddr)
    ensures Level(addr) <= 2
    ensures Level(addr) == 0 <==> Classify(addr) == Loopback
    ensures Level(addr) == 1 <==> Classify(addr) == Lan
  {
  }

  /** The addresses of one level, in the order they are listed. */
  function AtLevel(addrs: seq<SocketAddr>, level: nat): (r: seq<SocketAddr>)
    ensures forall a :: a in r <==> a in addrs && Level(a) == level
  {
    if addrs == [] then []
    else
      var rest := AtLevel(addrs[..|addrs| - 1], level);
      var last := addrs[|addrs| - 1];
      if Level(last) == level then rest + [last] else rest
  }

  lemma {:induction false} AtLevelKeeps(addrs: seq<SocketAddr>, level: nat)
    ensures KeepsExactly(addrs, AtLevel(addrs, level), a => Level(a) == level)
  {
    if addrs == [] {
      NothingToKeep<SocketAddr>(a => Level(a) == level);
    } else {
      var front, last := addrs[..|addrs| - 1], addrs[|addrs| - 1];
      AtLevelKeeps(front, level);
      OneMore(front, AtLevel(front, level), a => Level(a) == level, last);
      assert addrs == front + [last];
    }
  }

  /** The levels in terms of the classes. */
  lemma LevelsKeep(addrs: seq<SocketAddr>)
    ensures KeepsExactly(addrs, AtLevel(addrs, 0), a => Classify(a) == Loopback)
    ensures KeepsExactly(addrs, AtLevel(addrs, 1), a => Classify(a) == Lan)
    ensures KeepsExactly(addrs, AtLevel(addrs, 2), a => Classify(a) == Public || Classify(a) == Ipv6)
  {
    AtLevelKeeps(addrs, 0);
    AtLevelKeeps(addrs, 1);
    AtLevelKeeps(addrs, 2);
    SameKeep(addrs, AtLevel(addrs, 0), a => Level(a) == 0, a => Classify(a) == Loopback);
    SameKeep(addrs, AtLevel(addrs, 1), a => Level(a) == 1, a => Classify(a) == Lan);
    SameKeep(addrs, AtLevel(addrs, 2), a => Level(a) == 2, a => Classify(a) == Public || Classify(a) == Ipv6);
  }

  lemma LevelIsEmpty(addrs: seq<SocketAddr>, level: nat)
    ensures AtLevel(addrs, level) == [] <==> forall a :: a in addrs ==> Level(a) != level
  {
    if AtLevel(addrs, level) != [] {
      assert AtLevel(addrs, level)[0] in AtLevel(addrs, level);
    }
  }

  /** `group_endpoints`: one pass that pushes every address onto the list of its level. */
  method GroupEndpoints(addrs: seq<SocketAddr>)
    returns (loopback: seq<SocketAddr>, lan: seq<SocketAddr>, public: seq<SocketAddr>)
    ensures loopback == AtLevel(addrs, 0)
    ensures lan == AtLevel(addrs, 1)
    ensures public == AtLevel(addrs, 2)
    ensures KeepsExactly(addrs, loopback, a => Classify(a) == Loopback)
    ensures KeepsExactly(addrs, lan, a => Classify(a) == Lan)
    ensures KeepsExactly(addrs, public, a => Classify(a) == Public || Classify(a) == Ipv6)
  {
    loopback, lan, public := [], [], [];
    for i := 0 to |addrs|
      invariant loopback == AtLevel(addrs[..i], 0)
      invariant lan == AtLevel(addrs[..i], 1)
      invariant public == AtLevel(addrs[..i], 2)
    {
      var a := addrs[i];
      assert addrs[..i + 1][..i] == addrs[..i];
      match Classify(a)
      case Loopback => loopback := loopback + [a];
      case Lan => lan := lan + [a];
      case Public => public := public + [a];
      case Ipv6 => public := public + [a];
    }
    assert addrs[..|addrs|] == addrs;
    LevelsKeep(addrs);
  }

  function Preferred(addrs: seq<SocketAddr>): seq<SocketAddr> {
    if AtLevel(addrs, 0) != [] then AtLevel(addrs, 0)
    else if AtLevel(addrs, 1) != [] then AtLevel(addrs, 1)
    else addrs
  }

  /** `select_preferred_addrs`: the loopback addresses if there are any, else the local ones if there are any, else all. */
  method SelectPreferredAddrs(addrs: seq<SocketAddr>) returns (r: seq<SocketAddr>)
    ensures r == Preferred(addrs)
    ensures (exists a :: a in addrs && Classify(a) == Loopback) ==> KeepsExactly(addrs, r, a => Classify(a) == Loopback)
    ensures (exists a :: a in addrs && Classify(a) == Lan) && !(exists a :: a in addrs && Classify(a) == Loopback) ==>
              KeepsExactly(addrs, r, a => Classify(a) == Lan)
    ensures (forall a :: a in addrs ==> Classify(a) == Public || Classify(a) == Ipv6) ==> r == addrs
  {
    var loopback, lan, public := GroupEndpoints(addrs);
    if loopback != [] {
      r := loopback;
    } else if lan != [] {
      r := lan;
    } else {
      r := addrs;
    }
  }

  function Fallback(addrs: seq<SocketAddr>): seq<SocketAddr> {
    if AtLevel(addrs, 0) != [] then AtLevel(addrs, 1) + AtLevel(addrs, 2)
    else if AtLevel(addrs, 1) != [] then AtLevel(addrs, 2)
    else []
  }

  /** `fallback_addrs`: what that choice leaves out, local addresses before public ones. */
  method FallbackAddrs(addrs: seq<SocketAddr>) returns (r: seq<SocketAddr>)
    ensures r == Fallback(addrs)
    ensures (exists a :: a in addrs && Classify(a) == Loopback) ==>
              exists lan, public :: r == lan + public
                && KeepsExactly(addrs, lan, a => Classify(a) == Lan)
                && KeepsExactly(addrs, public, a => Classify(a) == Public || Classify(a) == Ipv6)
    ensures (exists a :: a in addrs && Classify(a) == Lan) && !(exists a :: a in addrs && Classify(a) == Loopback) ==>
              KeepsExactly(addrs, r, a => Classify(a) == Public || Classify(a) == Ipv6)
    ensures (forall a :: a in addrs ==> Classify(a) == Public || Classify(a) == Ipv6) ==> r == []
  {
    hide KeepsExactly, AtLevel;
    LevelIsEmpty(addrs, 0);
    LevelIsEmpty(addrs, 1);
    var loopback, lan, public := GroupEndpoints(addrs);
    if loopback != [] {
      r := lan;
      r := r + public;
    } else if lan != [] {
      r := public;
    } else {
      r := [];
    }
  }

  lemma {:induction false} AtLevelAppend(xs: seq<SocketAddr>, ys: seq<SocketAddr>, level: nat)
    ensures AtLevel(xs + ys, level) == AtLevel(xs, level) + AtLevel(ys, level)
  {
    if ys == [] {
      assert xs + ys == xs;
    } else {
      var front := ys[..|ys| - 1];
      assert (xs + ys)[..|xs + ys| - 1] == xs + front;
      AtLevelAppend(xs, front, level);
    }
  }

  lemma {:induction false} AtLevelOfUniform(xs: seq<SocketAddr>, own: nat, level: nat)
    requires forall a :: a in xs ==> Level(a) == own
    ensures AtLevel(xs, level) == if level == own then xs else []
  {
    if xs != [] {
      AtLevelOfUniform(xs[..|xs| - 1], own, level);
      assert xs == xs[..|xs| - 1] + [xs[|xs| - 1]];
      assert xs[|xs| - 1] in xs;
    }
  }

  lemma {:induction false} LevelsMakeUpTheMultiset(xs: seq<SocketAddr>)
    ensures multiset(xs) == multiset(AtLevel(xs, 0)) + multiset(AtLevel(xs, 1)) + multiset(AtLevel(xs, 2))
  {
    if xs != [] {
      LevelsMakeUpTheMultiset(xs[..|xs| - 1]);
      assert xs == xs[..|xs| - 1] + [xs[|xs| - 1]];
    }
  }

  /**
   The dial plan loses nothing and reorders nothing inside a level: at every level the
   preferred list followed by the fallback list reads as the given list does, so together
   they are the given addresses as a multiset, and every preferred address is of a
   strictly better level than every fallback one.
   */
  lemma DialPlan(addrs: seq<SocketAddr>)
    ensures forall level: nat :: level <= 2 ==>
              AtLevel(Preferred(addrs) + Fallback(addrs), level) == AtLevel(addrs, level)
    ensures multiset(Preferred(addrs)) + multiset(Fallback(addrs)) == multiset(addrs)
    ensures forall p, f :: p in Preferred(addrs) && f in Fallback(addrs) ==> Level(p) < Level(f)
    ensures addrs != [] ==> Preferred(addrs) != []
  {
    var l0, l1, l2 := AtLevel(addrs, 0), AtLevel(addrs, 1), AtLevel(addrs, 2);
    forall level: nat | level <= 2
      ensures AtLevel(Preferred(addrs) + Fallback(addrs), level) == AtLevel(addrs, level)
    {
      AtLevelOfUniform(l0, 0, level);
      AtLevelOfUniform(l1, 1, level);
      AtLevelOfUniform(l2, 2, level);
      if l0 != [] {
        AtLevelAppend(l1, l2, level);
        AtLevelAppend(l0, l1 + l2, level);
      } else if l1 != [] {
        AtLevelAppend(l1, l2, level);
      } else {
        assert addrs + [] == addrs;
      }
    }
    LevelsMakeUpTheMultiset(addrs);
  }

  /** What is preferred are the addresses of the best level there is, and the fallback list goes from better levels to worse. */
  lemma BestLevelFirst(addrs: seq<SocketAddr>)
    ensures forall a :: a in Preferred(addrs) <==> a in addrs && forall b :: b in addrs ==> Level(a) <= Level(b)
    ensures forall i, j :: 0 <= i < j < |Fallback(addrs)| ==> Level(Fallback(addrs)[i]) <= Level(Fallback(addrs)[j])
  {
    hide AtLevel;
    LevelIsEmpty(addrs, 0);
    LevelIsEmpty(addrs, 1);
    var l1, l2 := AtLevel(addrs, 1), AtLevel(addrs, 2);
    forall i, j | 0 <= i < j < |Fallback(addrs)|
      ensures Level(Fallback(addrs)[i]) <= Level(Fallback(addrs)[j])
    {
      assert i < |l1| ==> l1[i] in l1;
      assert forall k :: 0 <= k < |l2| ==> l2[k] in l2;
    }
  }
}
