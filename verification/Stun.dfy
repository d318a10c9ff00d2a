/** Reading the mapped address out of a STUN Binding response (stun.rs; sections 6 and 15 of RFC 5389). */
module Stun {
  import opened Wrappers
  import opened Addresses

  const HEADER := 20
  const MAPPED_ADDRESS := 0x0001
  const XOR_MAPPED_ADDRESS := 0x0020

  /** The upper half of the magic cookie 0x2112A442. */
  const COOKIE_HIGH := 0x2112

  datatype Attribute = Attribute(kind: nat, value: seq<Byte>)

  function U16(hi: Byte, lo: Byte): (n: nat)
    ensures n < 0x1_0000
  {
    hi * 256 + lo
  }

  function U16Bytes(n: nat): (r: seq<Byte>)
    requires n < 0x1_0000
    ensures |r| == 2 && U16(r[0], r[1]) == n
  {
    [n / 256, n % 256]
  }

  /** Attributes are aligned to 4 bytes. */
  function Padded(n: nat): (r: nat)
    ensures n <= r < n + 4 && r % 4 == 0
  {
    (n + 3) / 4 * 4
  }

  function Pow2(bits: nat): nat {
    if bits == 0 then 1 else 2 * Pow2(bits - 1)
  }

  /** Exclusive or of the lowest bits of two numbers. */
  function Xor(a: nat, b: nat, bits: nat): (r: nat)
    ensures r < Pow2(bits)
  {
    if bits == 0 then 0 else 2 * Xor(a / 2, b / 2, bits - 1) + (a + b) % 2
  }

  lemma BitTwice(a: nat, b: nat, upper: nat)
    ensures var once := 2 * upper + (a + b) % 2;
            once / 2 == upper && (once + b) % 2 == a % 2
  {
  }

  /** Exclusive or with the same number twice changes nothing. */
  lemma {:induction false} XorTwice(a: nat, b: nat, bits: nat)
    requires a < Pow2(bits)
    ensures Xor(Xor(a, b, bits), b, bits) == a
  {
    if bits > 0 {
      XorTwice(a / 2, b / 2, bits - 1);
      BitTwice(a, b, Xor(a / 2, b / 2, bits - 1));
    }
  }

  /** The k-th binary digit of a number. */
  function Bit(n: nat, k: nat): nat {
    if k == 0 then n % 2 else Bit(n / 2, k - 1)
  }

  /** Each digit of an exclusive or says whether those of the two numbers differ. */
  lemma {:induction false} XorDigits(a: nat, b: nat, bits: nat, k: nat)
    requires k < bits
    ensures Bit(Xor(a, b, bits), k) == 1 <==> Bit(a, k) != Bit(b, k)
  {
    BitTwice(a, b, Xor(a / 2, b / 2, bits - 1));
    if k > 0 {
      XorDigits(a / 2, b / 2, bits - 1, k - 1);
    }
  }

  lemma WordSizes()
    ensures Pow2(8) == 0x100 && Pow2(16) == 0x1_0000
  {
    assert Pow2(4) == 16 && Pow2(12) == 16 * Pow2(8);
  }

  function XorByte(a: Byte, b: Byte): Byte {
    WordSizes();
    Xor(a, b, 8)
  }

  /** The port against the upper half of the cookie. */
  function XorPort(port: nat): (r: nat)
    ensures r < 0x1_0000
  {
    WordSizes();
    Xor(port, COOKIE_HIGH, 16)
  }

  // ------------------------------------------------------------------
  // Decoding one attribute
  // ------------------------------------------------------------------

  function Segment(value: seq<Byte>, at: nat): bv16
    requires at + 1 < |value|
  {
    U16(value[at], value[at + 1]) as bv16
  }

  function Segments(value: seq<Byte>): (r: seq<bv16>)
    requires |value| >= 20
    ensures |r| == 8
  {
    seq(8, k requires 0 <= k < 8 => Segment(value, 4 + 2 * k))
  }

  function FromSegments(s: seq<bv16>): Ip
    requires |s| == 8
  {
    V6(s[0], s[1], s[2], s[3], s[4], s[5], s[6], s[7])
  }

  function ToSegments(ip: Ip): (r: seq<bv16>)
    requires ip.V6?
    ensures |r| == 8 && FromSegments(r) == ip
  {
    [ip.s0, ip.s1, ip.s2, ip.s3, ip.s4, ip.s5, ip.s6, ip.s7]
  }

  /** `decode_mapped_address` */
  function DecodeMapped(value: seq<Byte>): Option<SocketAddr> {
    if |value| < 8 then None
    else
      var port := U16(value[2], value[3]);
      if value[1] == 1 then Some(SocketAddr(V4(value[4], value[5], value[6], value[7]), port))
      else if value[1] == 2 then
        if |value| < 20 then None
        else Some(SocketAddr(FromSegments(Segments(value)), port))
      else None
  }

  /** `decode_xor_mapped_address`: the address against the cookie of the message, the port against the constant one; IPv6 is not decoded. */
  function DecodeXor(value: seq<Byte>, cookie: seq<Byte>): Option<SocketAddr>
    requires |cookie| == 4
  {
    if |value| < 8 || value[1] != 1 then None
    else
      var ip := V4(XorByte(value[4], cookie[0]), XorByte(value[5], cookie[1]), XorByte(value[6], cookie[2]), XorByte(value[7], cookie[3]));
      Some(SocketAddr(ip, XorPort(U16(value[2], value[3]))))
  }

  // ------------------------------------------------------------------
  // Walking the attributes
  // ------------------------------------------------------------------

  function From(body: seq<Byte>, at: nat): seq<Byte> {
    if at <= |body| then body[at..] else []
  }

  /** The attributes in the body of a message, up to the first that does not fit. */
  function Seen(body: seq<Byte>): seq<Attribute>
    decreases |body|
  {
    if |body| < 4 then []
    else
      var len := U16(body[2], body[3]);
      if 4 + len > |body| then []
      else [Attribute(U16(body[0], body[1]), body[4..4 + len])] + Seen(From(body, 4 + Padded(len)))
  }

  /** The value of the last attribute of a kind. */
  function Last(attrs: seq<Attribute>, kind: nat): Option<seq<Byte>> {
    if attrs == [] then None
    else if attrs[|attrs| - 1].kind == kind then Some(attrs[|attrs| - 1].value)
    else Last(attrs[..|attrs| - 1], kind)
  }

  function LastXor(attrs: seq<Attribute>, cookie: seq<Byte>): Option<SocketAddr>
    requires |cookie| == 4
  {
    match Last(attrs, XOR_MAPPED_ADDRESS)
    case None => None
    case Some(value) => DecodeXor(value, cookie)
  }

  function LastMapped(attrs: seq<Attribute>): Option<SocketAddr> {
    match Last(attrs, MAPPED_ADDRESS)
    case None => None
    case Some(value) => DecodeMapped(value)
  }

  predicate IsResponse(buf: seq<Byte>, transactionId: seq<Byte>) {
    |buf| >= HEADER && buf[8..HEADER] == transactionId && U16(buf[0], buf[1]) == 0x0101
  }

  function Body(buf: seq<Byte>): seq<Byte>
    requires |buf| >= HEADER
  {
    var length := U16(buf[2], buf[3]);
    if HEADER + length <= |buf| then buf[HEADER..HEADER + length] else buf[HEADER..]
  }

  /** What a message says: the last XOR-MAPPED-ADDRESS if it can be decoded, else the last MAPPED-ADDRESS if that can. */
  function Says(buf: seq<Byte>, transactionId: seq<Byte>): Option<SocketAddr> {
    if !IsResponse(buf, transactionId) then None
    else
      var attrs := Seen(Body(buf));
      if LastXor(attrs, buf[4..8]).Some? then LastXor(attrs, buf[4..8]) else LastMapped(attrs)
  }

  lemma LastSnoc(attrs: seq<Attribute>, a: Attribute, kind: nat)
    ensures Last(attrs + [a], kind) == if a.kind == kind then Some(a.value) else Last(attrs, kind)
  {
    assert (attrs + [a])[..|attrs|] == attrs;
  }

  function Rest(buf: seq<Byte>, at: nat, end: nat): seq<Byte>
    requires end <= |buf|
  {
    if at <= end then buf[at..end] else []
  }

  lemma SliceOfSlice(s: seq<Byte>, lo: nat, hi: nat, i: nat, j: nat)
    requires i <= j && lo + j <= hi <= |s|
    ensures s[lo..hi][i..j] == s[lo + i..lo + j]
  {
    var t := s[lo..hi];
    assert forall k :: 0 <= k < j - i ==> t[i..j][k] == t[i + k] == s[lo + i + k] == s[lo + i..lo + j][k];
  }

  lemma Regroup(a: seq<Attribute>, b: seq<Attribute>, c: seq<Attribute>)
    ensures a + (b + c) == (a + b) + c
  {
  }

  lemma SeenUnfolds(body: seq<Byte>)
    requires |body| >= 4
    ensures var len := U16(body[2], body[3]);
            Seen(body) == if 4 + len > |body| then []
                          else [Attribute(U16(body[0], body[1]), body[4..4 + len])] + Seen(From(body, 4 + Padded(len)))
  {
    hide U16, Padded;
  }

  lemma RestIsSlice(buf: seq<Byte>, at: nat, end: nat)
    requires at <= end <= |buf|
    ensures Rest(buf, at, end) == buf[at..end]
  {
  }

  lemma RestOfRest(buf: seq<Byte>, at: nat, n: nat, end: nat)
    requires at <= end <= |buf|
    ensures From(buf[at..end], n) == Rest(buf, at + n, end)
  {
    if at + n <= end {
      SliceOfSlice(buf, at, end, n, end - at);
    }
  }

  /** One attribute further: what is seen, and where the walk goes on. */
  lemma SeenStep(buf: seq<Byte>, at: nat, end: nat)
    requires at + 4 <= end <= |buf|
    ensures var len := U16(buf[at + 2], buf[at + 3]);
            Seen(Rest(buf, at, end)) ==
            if at + 4 + len > end then []
            else [Attribute(U16(buf[at], buf[at + 1]), buf[at + 4..at + 4 + len])] + Seen(Rest(buf, at + 4 + Padded(len), end))
  {
    hide Padded, U16, Seen, Rest, From;
    var rest := buf[at..end];
    var len := U16(buf[at + 2], buf[at + 3]);
    SeenUnfolds(rest);
    RestIsSlice(buf, at, end);
    if at + 4 + len <= end {
      SliceOfSlice(buf, at, end, 4, 4 + len);
      RestOfRest(buf, at, 4 + Padded(len), end);
    }
  }

  lemma LastSeen(seen: seq<Attribute>, a: Attribute, cookie: seq<Byte>)
    requires |cookie| == 4
    ensures LastXor(seen + [a], cookie) == if a.kind == XOR_MAPPED_ADDRESS then DecodeXor(a.value, cookie) else LastXor(seen, cookie)
    ensures LastMapped(seen + [a]) == if a.kind == MAPPED_ADDRESS then DecodeMapped(a.value) else LastMapped(seen)
  {
    LastSnoc(seen, a, XOR_MAPPED_ADDRESS);
    LastSnoc(seen, a, MAPPED_ADDRESS);
  }

  /** What has been seen, and what the walk has yet to see, are all there is. */
  ghost predicate Splits(all: seq<Attribute>, seen: seq<Attribute>, buf: seq<Byte>, at: nat, end: nat)
    requires end <= |buf|
  {
    all == seen + Seen(Rest(buf, at, end))
  }

  /** The attribute that starts at this offset, if all of it is there. */
  function AttributeAt(buf: seq<Byte>, at: nat, end: nat): Option<Attribute>
    requires at + 4 <= end <= |buf|
  {
    var len := U16(buf[at + 2], buf[at + 3]);
    if at + 4 + len > end then None else Some(Attribute(U16(buf[at], buf[at + 1]), buf[at + 4..at + 4 + len]))
  }

  /** Where the next attribute starts. */
  function Behind(at: nat, a: Attribute): (next: nat)
    ensures next >= at + 4
  {
    at + 4 + Padded(|a.value|)
  }

  /** The walk goes on behind the next attribute that fits. */
  lemma WalkStep(buf: seq<Byte>, all: seq<Attribute>, seen: seq<Attribute>, at: nat, end: nat, a: Attribute)
    requires at + 4 <= end <= |buf| && Splits(all, seen, buf, at, end) && AttributeAt(buf, at, end) == Some(a)
    ensures Splits(all, seen + [a], buf, Behind(at, a), end)
  {
    hide Seen, Rest, Padded, U16;
    SeenStep(buf, at, end);
    Regroup(seen, [a], Seen(Rest(buf, Behind(at, a), end)));
  }

  lemma WalkEnds(buf: seq<Byte>, all: seq<Attribute>, seen: seq<Attribute>, at: nat, end: nat)
    requires end <= |buf| && Splits(all, seen, buf, at, end)
    requires at + 4 <= end ==> AttributeAt(buf, at, end).None?
    ensures all == seen
  {
    if at + 4 <= end {
      SeenStep(buf, at, end);
    }
    assert seen + [] == seen;
  }

  /** The two result variables hold what the attributes seen so far say. */
  ghost predicate Tracks(xorAddr: Option<SocketAddr>, mappedAddr: Option<SocketAddr>, seen: seq<Attribute>, cookie: seq<Byte>)
    requires |cookie| == 4
  {
    xorAddr == LastXor(seen, cookie) && mappedAddr == LastMapped(seen)
  }

  lemma TrackNext(xorAddr: Option<SocketAddr>, mappedAddr: Option<SocketAddr>, seen: seq<Attribute>, cookie: seq<Byte>, a: Attribute)
    requires |cookie| == 4 && Tracks(xorAddr, mappedAddr, seen, cookie)
    ensures a.kind == XOR_MAPPED_ADDRESS ==> Tracks(DecodeXor(a.value, cookie), mappedAddr, seen + [a], cookie)
    ensures a.kind == MAPPED_ADDRESS ==> Tracks(xorAddr, DecodeMapped(a.value), seen + [a], cookie)
    ensures a.kind != XOR_MAPPED_ADDRESS && a.kind != MAPPED_ADDRESS ==> Tracks(xorAddr, mappedAddr, seen + [a], cookie)
  {
    hide DecodeXor, DecodeMapped, LastXor, LastMapped;
    LastSeen(seen, a, cookie);
  }

  lemma WalkStarts(buf: seq<Byte>, end: nat, cookie: seq<Byte>)
    requires HEADER <= end <= |buf| && |cookie| == 4
    ensures Splits(Seen(buf[HEADER..end]), [], buf, HEADER, end) && Tracks(None, None, [], cookie)
  {
    RestIsSlice(buf, HEADER, end);
    assert [] + Seen(buf[HEADER..end]) == Seen(buf[HEADER..end]);
  }

  /** The loop of `parse_mapped_address`: one pass over the attributes of any bytes whatever, every index in bounds. */
  method Walk(buf: seq<Byte>, end: nat) returns (xorAddr: Option<SocketAddr>, mappedAddr: Option<SocketAddr>)
    requires HEADER <= end <= |buf|
    ensures Tracks(xorAddr, mappedAddr, Seen(buf[HEADER..end]), buf[4..8])
  {
    ghost var all := Seen(buf[HEADER..end]);
    ghost var seen: seq<Attribute> := [];
    var cookie := buf[4..8];
    var offset := HEADER;
    xorAddr, mappedAddr := None, None;
    WalkStarts(buf, end, cookie);
    hide Seen, Splits, Tracks, AttributeAt, Behind, DecodeXor, DecodeMapped;
    while offset + 4 <= end
      invariant HEADER <= offset
      invariant Splits(all, seen, buf, offset, end) && Tracks(xorAddr, mappedAddr, seen, cookie)
      decreases end - offset
    {
      var attr := AttributeAt(buf, offset, end);
      if attr.None? {
        WalkEnds(buf, all, seen, offset, end);
        return;
      }
      var a := attr.value;
      WalkStep(buf, all, seen, offset, end, a);
      TrackNext(xorAddr, mappedAddr, seen, cookie, a);
      if a.kind == XOR_MAPPED_ADDRESS {
        xorAddr := DecodeXor(a.value, cookie);
      } else if a.kind == MAPPED_ADDRESS {
        mappedAddr := DecodeMapped(a.value);
      }
      offset := Behind(offset, a);
      seen := seen + [a];
    }
    WalkEnds(buf, all, seen, offset, end);
  }

  /** `parse_mapped_address`: only a success response to the request is read at all. */
  method ParseMappedAddress(buf: seq<Byte>, transactionId: seq<Byte>) returns (r: Option<SocketAddr>)
    ensures r == Says(buf, transactionId)
    ensures r.Some? ==> |buf| >= 20 && buf[0] == 1 && buf[1] == 1 && buf[8..20] == transactionId
  {
    if |buf| < HEADER {
      return None;
    }
    if buf[8..HEADER] != transactionId {
      return None;
    }
    if U16(buf[0], buf[1]) != 0x0101 {
      return None;
    }
    var length := U16(buf[2], buf[3]);
    var end := if HEADER + length <= |buf| then HEADER + length else |buf|;
    var xorAddr, mappedAddr := Walk(buf, end);
    assert Body(buf) == buf[HEADER..end];
    r := if xorAddr.Some? then xorAddr else mappedAddr;
  }

  // ------------------------------------------------------------------
  // Responses as section 15 of RFC 5389 lays them out
  // ------------------------------------------------------------------

  /** An attribute and the bytes that fill it up to a multiple of 4, which may be anything. */
  datatype Field = Field(a: Attribute, filling: seq<Byte>) {
    predicate Valid() {
      a.kind < 0x1_0000 && |a.value| < 0x1_0000 && |filling| == Padded(|a.value|) - |a.value|
    }

    function Bytes(): (r: seq<Byte>)
      requires Valid()
      ensures |r| == 4 + Padded(|a.value|)
    {
      U16Bytes(a.kind) + U16Bytes(|a.value|) + a.value + filling
    }
  }

  ghost predicate AllValid(fields: seq<Field>) {
    forall i :: 0 <= i < |fields| ==> fields[i].Valid()
  }

  function BodyOf(fields: seq<Field>): seq<Byte>
    requires AllValid(fields)
  {
    if fields == [] then [] else fields[0].Bytes() + BodyOf(fields[1..])
  }

  function Attributes(fields: seq<Field>): seq<Attribute> {
    if fields == [] then [] else [fields[0].a] + Attributes(fields[1..])
  }

  lemma FieldParts(kind: seq<Byte>, length: seq<Byte>, value: seq<Byte>, filling: seq<Byte>, rest: seq<Byte>)
    requires |kind| == 2 && |length| == 2
    ensures var body := kind + length + value + filling + rest;
            && body[0] == kind[0] && body[1] == kind[1] && body[2] == length[0] && body[3] == length[1]
            && body[4..4 + |value|] == value && body[4 + |value| + |filling|..] == rest
  {
  }

  /** One field in front of anything is seen, and what follows it is seen next. */
  lemma FieldIsSeen(f: Field, rest: seq<Byte>)
    requires f.Valid()
    ensures Seen(f.Bytes() + rest) == [f.a] + Seen(rest)
  {
    var body := f.Bytes() + rest;
    var len := |f.a.value|;
    FieldParts(U16Bytes(f.a.kind), U16Bytes(len), f.a.value, f.filling, rest);
    SeenUnfolds(body);
    hide Seen, U16Bytes, Padded;
  }

  lemma BodyUnfolds(fields: seq<Field>, rest: seq<Byte>)
    requires AllValid(fields) && fields != []
    ensures BodyOf(fields) + rest == fields[0].Bytes() + (BodyOf(fields[1..]) + rest)
  {
  }

  lemma {:induction false} FieldsAreSeenFirst(fields: seq<Field>, rest: seq<Byte>)
    requires AllValid(fields)
    ensures Seen(BodyOf(fields) + rest) == Attributes(fields) + Seen(rest)
  {
    hide Seen;
    if fields == [] {
      assert BodyOf(fields) + rest == rest && Attributes(fields) + Seen(rest) == Seen(rest);
    } else {
      FieldsAreSeenFirst(fields[1..], rest);
      BodyUnfolds(fields, rest);
      FieldIsSeen(fields[0], BodyOf(fields[1..]) + rest);
      Regroup([fields[0].a], Attributes(fields[1..]), Seen(rest));
    }
  }

  lemma FieldsAreSeen(fields: seq<Field>)
    requires AllValid(fields)
    ensures Seen(BodyOf(fields)) == Attributes(fields)
  {
    FieldsAreSeenFirst(fields, []);
    assert BodyOf(fields) + [] == BodyOf(fields) && Attributes(fields) + [] == Attributes(fields);
  }

  /** An attribute that declares more bytes than there are is passed over, and those before it are seen. */
  lemma CutAttributeIsPassedOver(fields: seq<Field>, part: seq<Byte>)
    requires AllValid(fields) && (|part| < 4 || |part| < 4 + 256 * (part[2] as int) + part[3])
    ensures Seen(BodyOf(fields) + part) == Attributes(fields)
  {
    FieldsAreSeenFirst(fields, part);
    assert Seen(part) == [];
    assert Attributes(fields) + [] == Attributes(fields);
  }

  function Response(cookie: seq<Byte>, transactionId: seq<Byte>, body: seq<Byte>): seq<Byte>
    requires |body| < 0x1_0000
  {
    [1, 1] + U16Bytes(|body|) + cookie + transactionId + body
  }

  lemma ResponseParts(cookie: seq<Byte>, transactionId: seq<Byte>, body: seq<Byte>, after: seq<Byte>)
    requires |cookie| == 4 && |transactionId| == 12 && |body| < 0x1_0000
    ensures var buf := Response(cookie, transactionId, body) + after;
            |buf| >= HEADER && IsResponse(buf, transactionId) && buf[4..8] == cookie && Body(buf) == body
  {
    var buf := Response(cookie, transactionId, body) + after;
    var length := U16Bytes(|body|);
    assert buf == [1, 1] + length + cookie + transactionId + body + after;
    assert buf[0] == 1 && buf[1] == 1 && buf[2] == length[0] && buf[3] == length[1];
    assert buf[4..8] == cookie;
    assert buf[8..HEADER] == transactionId;
    assert buf[HEADER..HEADER + |body|] == body;
  }

  /** A response is understood as its fields say, whatever bytes follow it. */
  lemma ResponseIsUnderstood(cookie: seq<Byte>, transactionId: seq<Byte>, fields: seq<Field>, after: seq<Byte>)
    requires |cookie| == 4 && |transactionId| == 12 && AllValid(fields) && |BodyOf(fields)| < 0x1_0000
    ensures var attrs := Attributes(fields);
            Says(Response(cookie, transactionId, BodyOf(fields)) + after, transactionId)
            == if LastXor(attrs, cookie).Some? then LastXor(attrs, cookie) else LastMapped(attrs)
  {
    var body := BodyOf(fields);
    var buf := Response(cookie, transactionId, body) + after;
    ResponseParts(cookie, transactionId, body, after);
    FieldsAreSeen(fields);
    hide Seen, LastXor, LastMapped, Response;
  }

  // ------------------------------------------------------------------
  // Addresses
  // ------------------------------------------------------------------

  function SegmentBytes(segments: seq<bv16>): (r: seq<Byte>)
    ensures |r| == 2 * |segments|
  {
    if segments == [] then [] else SegmentBytes(segments[..|segments| - 1]) + U16Bytes(segments[|segments| - 1] as nat)
  }

  /** The value of a MAPPED-ADDRESS attribute. */
  function MappedValue(addr: SocketAddr): seq<Byte>
    requires addr.port < 0x1_0000
  {
    match addr.ip
    case V4(a, b, c, d) => [0, 1] + U16Bytes(addr.port) + [a, b, c, d]
    case V6(_, _, _, _, _, _, _, _) => [0, 2] + U16Bytes(addr.port) + SegmentBytes(ToSegments(addr.ip))
  }

  /** The value of an XOR-MAPPED-ADDRESS attribute for an IPv4 address. */
  function XorValue(a: Byte, b: Byte, c: Byte, d: Byte, port: nat, cookie: seq<Byte>): seq<Byte>
    requires port < 0x1_0000 && |cookie| == 4
  {
    [0, 1] + U16Bytes(XorPort(port)) + [XorByte(a, cookie[0]), XorByte(b, cookie[1]), XorByte(c, cookie[2]), XorByte(d, cookie[3])]
  }

  lemma {:induction false} SegmentAt(segments: seq<bv16>, k: nat)
    requires k < |segments|
    ensures U16(SegmentBytes(segments)[2 * k], SegmentBytes(segments)[2 * k + 1]) as bv16 == segments[k]
  {
    if k < |segments| - 1 {
      SegmentAt(segments[..|segments| - 1], k);
    }
  }

  lemma SegmentOfValue(head: seq<Byte>, segments: seq<bv16>, k: nat)
    requires |head| == 4 && k < |segments|
    ensures Segment(head + SegmentBytes(segments), 4 + 2 * k) == segments[k]
  {
    hide SegmentBytes;
    var v, bytes := head + SegmentBytes(segments), SegmentBytes(segments);
    assert v[4 + 2 * k] == bytes[2 * k] && v[4 + 2 * k + 1] == bytes[2 * k + 1];
    SegmentAt(segments, k);
  }

  lemma SegmentsOfValue(head: seq<Byte>, segments: seq<bv16>)
    requires |head| == 4 && |segments| == 8
    ensures Segments(head + SegmentBytes(segments)) == segments
  {
    hide Segment, SegmentBytes;
    forall k | 0 <= k < 8
      ensures Segments(head + SegmentBytes(segments))[k] == segments[k]
    {
      SegmentOfValue(head, segments, k);
    }
  }

  lemma V6RoundTrip(addr: SocketAddr)
    requires addr.port < 0x1_0000 && addr.ip.V6?
    ensures DecodeMapped(MappedValue(addr)) == Some(addr)
  {
    hide FromSegments, ToSegments, Segments, SegmentBytes;
    var head := [0, 2] + U16Bytes(addr.port);
    var v := MappedValue(addr);
    assert v == head + SegmentBytes(ToSegments(addr.ip));
    assert v[1] == 2 && v[2] == U16Bytes(addr.port)[0] && v[3] == U16Bytes(addr.port)[1];
    SegmentsOfValue(head, ToSegments(addr.ip));
  }

  lemma MappedRoundTrip(addr: SocketAddr)
    requires addr.port < 0x1_0000
    ensures DecodeMapped(MappedValue(addr)) == Some(addr)
  {
    match addr.ip
    case V4(_, _, _, _) =>
    case V6(_, _, _, _, _, _, _, _) => V6RoundTrip(addr);
  }

  lemma XorRoundTrip(a: Byte, b: Byte, c: Byte, d: Byte, port: nat, cookie: seq<Byte>)
    requires port < 0x1_0000 && |cookie| == 4
    ensures DecodeXor(XorValue(a, b, c, d, port, cookie), cookie) == Some(SocketAddr(V4(a, b, c, d), port))
  {
    WordSizes();
    XorTwice(a, cookie[0], 8);
    XorTwice(b, cookie[1], 8);
    XorTwice(c, cookie[2], 8);
    XorTwice(d, cookie[3], 8);
    XorTwice(port, COOKIE_HIGH, 16);
    hide Xor, U16Bytes;
  }

  /** The value of an XOR-MAPPED-ADDRESS attribute for any address: of an IPv6 one only its family matters here. */
  ghost predicate IsXorValue(value: seq<Byte>, addr: SocketAddr, cookie: seq<Byte>)
    requires |cookie| == 4 && addr.port < 0x1_0000
  {
    match addr.ip
    case V4(a, b, c, d) => value == XorValue(a, b, c, d, addr.port, cookie)
    case V6(_, _, _, _, _, _, _, _) => |value| == 20 && value[1] == 2
  }

  /** At most one attribute of a kind, and if there is one this is its value. */
  ghost predicate Only(fields: seq<Field>, kind: nat, value: Option<seq<Byte>>) {
    && (value.None? ==> forall i :: 0 <= i < |fields| ==> fields[i].a.kind != kind)
    && (value.Some? ==> exists i :: 0 <= i < |fields| && fields[i].a == Attribute(kind, value.value)
                                    && forall j :: 0 <= j < |fields| && j != i ==> fields[j].a.kind != kind)
  }

  lemma {:induction false} AttributesSnoc(fields: seq<Field>)
    requires fields != []
    ensures Attributes(fields) == Attributes(fields[..|fields| - 1]) + [fields[|fields| - 1].a]
  {
    if |fields| > 1 {
      AttributesSnoc(fields[1..]);
      assert fields[1..][..|fields[1..]| - 1] == fields[..|fields| - 1][1..];
    }
  }

  lemma {:induction false} OnlyIsLast(fields: seq<Field>, kind: nat, value: Option<seq<Byte>>)
    requires Only(fields, kind, value)
    ensures Last(Attributes(fields), kind) == value
  {
    if fields != [] {
      var front, f := fields[..|fields| - 1], fields[|fields| - 1];
      AttributesSnoc(fields);
      LastSnoc(Attributes(front), f.a, kind);
      if f.a.kind == kind {
        assert value.Some?;
      } else {
        if value.Some? {
          var i :| 0 <= i < |fields| && fields[i].a == Attribute(kind, value.value)
                   && forall j :: 0 <= j < |fields| && j != i ==> fields[j].a.kind != kind;
          assert front[i] == fields[i];
        }
        OnlyIsLast(front, kind, value);
      }
    }
  }

  /**
   Round trip: of a response with at most one address of each kind among any other
   attributes, the XOR-mapped IPv4 address is found, and else the mapped address if there is
   one. An XOR-mapped IPv6 address is passed over.
   */
  lemma MappedAddressIsFound(cookie: seq<Byte>, transactionId: seq<Byte>, fields: seq<Field>, after: seq<Byte>,
                             xor: Option<SocketAddr>, xorValue: Option<seq<Byte>>, mapped: Option<SocketAddr>)
    requires |cookie| == 4 && |transactionId| == 12 && AllValid(fields) && |BodyOf(fields)| < 0x1_0000
    requires (xor.Some? ==> xor.value.port < 0x1_0000) && (mapped.Some? ==> mapped.value.port < 0x1_0000)
    requires xor.Some? <==> xorValue.Some?
    requires xor.Some? ==> IsXorValue(xorValue.value, xor.value, cookie)
    requires Only(fields, XOR_MAPPED_ADDRESS, xorValue)
    requires Only(fields, MAPPED_ADDRESS, if mapped.Some? then Some(MappedValue(mapped.value)) else None)
    ensures Says(Response(cookie, transactionId, BodyOf(fields)) + after, transactionId)
            == if xor.Some? && xor.value.ip.V4? then xor else mapped
  {
    hide Only, Response, Says, MappedValue, XorValue, DecodeMapped;
    ResponseIsUnderstood(cookie, transactionId, fields, after);
    OnlyIsLast(fields, XOR_MAPPED_ADDRESS, xorValue);
    OnlyIsLast(fields, MAPPED_ADDRESS, if mapped.Some? then Some(MappedValue(mapped.value)) else None);
    if mapped.Some? {
      MappedRoundTrip(mapped.value);
    }
    if xor.Some? && xor.value.ip.V4? {
      var ip := xor.value.ip;
      XorRoundTrip(ip.a, ip.b, ip.c, ip.d, xor.value.port, cookie);
    }
  }

  // ------------------------------------------------------------------
  // The layout, byte by byte
  // ------------------------------------------------------------------

  /** A message of type 0x0101 with the magic cookie of RFC 5389 and fewer than 256 bytes of attributes. */
  function Message(length: Byte, transactionId: seq<Byte>, body: seq<Byte>): seq<Byte> {
    [0x01, 0x01, 0x00, length, 0x21, 0x12, 0xA4, 0x42] + transactionId + body
  }

  lemma MessageParts(transactionId: seq<Byte>, body: seq<Byte>)
    requires |transactionId| == 12 && |body| < 256
    ensures var buf := Message(|body|, transactionId, body);
            |buf| >= HEADER && IsResponse(buf, transactionId) && buf[4..8] == [0x21, 0x12, 0xA4, 0x42] && Body(buf) == body
  {
    ResponseParts([0x21, 0x12, 0xA4, 0x42], transactionId, body, []);
    assert U16Bytes(|body|) == [0, |body|];
    assert Message(|body|, transactionId, body) == Response([0x21, 0x12, 0xA4, 0x42], transactionId, body) + [];
  }

  lemma AlignedIsPadded(n: nat)
    requires n % 4 == 0
    ensures Padded(n) == n
  {
  }

  lemma NothingIsSeen()
    ensures Seen([]) == []
  {
  }

  lemma OneAttributeUnfolds(kind: Byte, value: seq<Byte>)
    requires |value| < 256 && |value| % 4 == 0
    ensures var body := [0, kind, 0, |value|] + value;
            && U16(body[2], body[3]) == |value| && U16(body[0], body[1]) == kind && body[4..4 + |value|] == value
            && [Attribute(kind, value)] + Seen(From(body, 4 + Padded(|value|))) == [Attribute(kind, value)]
  {
    hide Seen, Padded;
    var body := [0, kind, 0, |value|] + value;
    AlignedIsPadded(|value|);
    NothingIsSeen();
    assert From(body, 4 + |value|) == [];
  }

  lemma OneAttribute(kind: Byte, value: seq<Byte>)
    requires |value| < 256 && |value| % 4 == 0
    ensures Seen([0, kind, 0, |value|] + value) == [Attribute(kind, value)]
  {
    hide *;
    var body := [0, kind, 0, |value|] + value;
    OneAttributeUnfolds(kind, value);
    SeenUnfolds(body);
  }

  lemma OnlyAttribute(a: Attribute, cookie: seq<Byte>)
    requires |cookie| == 4
    ensures LastXor([a], cookie) == if a.kind == 0x20 then DecodeXor(a.value, cookie) else None
    ensures LastMapped([a]) == if a.kind == 1 then DecodeMapped(a.value) else None
  {
    LastSeen([], a, cookie);
    assert [] + [a] == [a];
    hide DecodeXor, DecodeMapped;
  }

  lemma OneAttributeIsRead(transactionId: seq<Byte>, kind: Byte, value: seq<Byte>)
    requires |transactionId| == 12 && |value| < 252 && |value| % 4 == 0
    ensures Says(Message(4 + |value|, transactionId, [0, kind, 0, |value|] + value), transactionId)
            == if kind == 0x20 then DecodeXor(value, [0x21, 0x12, 0xA4, 0x42]) else if kind == 1 then DecodeMapped(value) else None
  {
    MessageParts(transactionId, [0, kind, 0, |value|] + value);
    OneAttribute(kind, value);
    OnlyAttribute(Attribute(kind, value), [0x21, 0x12, 0xA4, 0x42]);
    hide Seen, LastXor, LastMapped, Message, IsResponse, Body, DecodeXor, DecodeMapped;
  }

  /** An attribute of type 0x0001 that holds an IPv4 address. */
  lemma MappedBytesAreRead(transactionId: seq<Byte>, hi: Byte, lo: Byte, a: Byte, b: Byte, c: Byte, d: Byte)
    requires |transactionId| == 12
    ensures Says(Message(12, transactionId, [0x00, 0x01, 0x00, 0x08] + [0x00, 0x01, hi, lo, a, b, c, d]), transactionId)
            == Some(SocketAddr(V4(a, b, c, d), 256 * (hi as int) + lo))
  {
    hide Says, Message;
    OneAttributeIsRead(transactionId, 1, [0, 1, hi, lo, a, b, c, d]);
  }

  /** One of type 0x0020: the port against 0x2112 and the address against 0x2112A442. */
  lemma XorBytesAreRead(transactionId: seq<Byte>, hi: Byte, lo: Byte, a: Byte, b: Byte, c: Byte, d: Byte)
    requires |transactionId| == 12
    ensures Says(Message(12, transactionId, [0x00, 0x20, 0x00, 0x08] + [0x00, 0x01, hi, lo, a, b, c, d]), transactionId)
            == Some(SocketAddr(V4(XorByte(a, 0x21), XorByte(b, 0x12), XorByte(c, 0xA4), XorByte(d, 0x42)), Xor(256 * (hi as int) + lo, 0x2112, 16)))
  {
    hide Says, Message, Xor, XorByte, Pow2;
    OneAttributeIsRead(transactionId, 0x20, [0, 1, hi, lo, a, b, c, d]);
  }

  lemma V6SegmentAt(value: seq<Byte>, ip: seq<Byte>, k: nat)
    requires |ip| == 16 && |value| == 20 && value[4..] == ip && k < 8
    ensures Segments(value)[k] == (256 * (ip[2 * k] as int) + ip[2 * k + 1]) as bv16
  {
    assert value[4..][2 * k] == value[4 + 2 * k] && value[4..][2 * k + 1] == value[4 + 2 * k + 1];
  }

  lemma V6Bytes(value: seq<Byte>, ip: seq<Byte>)
    requires |ip| == 16 && |value| == 20 && value[4..] == ip && value[1] == 2
    ensures var segment := (k: int) requires 0 <= k < 8 => (256 * (ip[2 * k] as int) + ip[2 * k + 1]) as bv16;
            DecodeMapped(value)
            == Some(SocketAddr(V6(segment(0), segment(1), segment(2), segment(3), segment(4), segment(5), segment(6), segment(7)),
                               256 * (value[2] as int) + value[3]))
  {
    hide Segments;
    var segment := (k: int) requires 0 <= k < 8 => (256 * (ip[2 * k] as int) + ip[2 * k + 1]) as bv16;
    forall k | 0 <= k < 8
      ensures Segments(value)[k] == segment(k)
    {
      V6SegmentAt(value, ip, k);
    }
  }

  /** One of type 0x0001 that holds an IPv6 address: two bytes a segment, the upper one first. */
  lemma MappedV6BytesAreRead(transactionId: seq<Byte>, hi: Byte, lo: Byte, ip: seq<Byte>)
    requires |transactionId| == 12 && |ip| == 16
    ensures var segment := (k: int) requires 0 <= k < 8 => (256 * (ip[2 * k] as int) + ip[2 * k + 1]) as bv16;
            Says(Message(24, transactionId, [0x00, 0x01, 0x00, 0x14] + ([0x00, 0x02, hi, lo] + ip)), transactionId)
            == Some(SocketAddr(V6(segment(0), segment(1), segment(2), segment(3), segment(4), segment(5), segment(6), segment(7)), 256 * (hi as int) + lo))
  {
    hide Says, Message;
    var value := [0, 2, hi, lo] + ip;
    OneAttributeIsRead(transactionId, 1, value);
    assert value[1] == 2 && value[2] == hi && value[3] == lo;
    V6Bytes(value, ip);
    hide DecodeMapped;
  }

  lemma SampleAddress()
    ensures XorByte(0xE1, 0x21) == 192 && XorByte(0x12, 0x12) == 0 && XorByte(0xA6, 0xA4) == 2 && XorByte(0x43, 0x42) == 1
  {
    hide Pow2;
    assert Xor(0xE, 0x2, 4) == 0xC && Xor(0x1, 0x1, 4) == 0 && Xor(0xA, 0xA, 4) == 0 && Xor(0x4, 0x4, 4) == 0;
  }

  lemma SamplePort()
    ensures Xor(0xA147, 0x2112, 16) == 32853
  {
    hide Pow2;
    assert Xor(0xA, 0x2, 4) == 0x8;
    assert Xor(0xA1, 0x21, 8) == 0x80;
    assert Xor(0xA14, 0x211, 12) == 0x805;
  }

  /** The sample response of section 2.2 of RFC 5769, as far as its address goes: 192.0.2.1 and port 32853. */
  lemma SampleResponseIsRead(transactionId: seq<Byte>)
    requires |transactionId| == 12
    ensures Says(Message(12, transactionId, [0x00, 0x20, 0x00, 0x08] + [0x00, 0x01, 0xA1, 0x47, 0xE1, 0x12, 0xA6, 0x43]), transactionId)
            == Some(SocketAddr(V4(192, 0, 2, 1), 32853))
  {
    hide *;
    SampleAddress();
    SamplePort();
    XorBytesAreRead(transactionId, 0xA1, 0x47, 0xE1, 0x12, 0xA6, 0x43);
  }
}
