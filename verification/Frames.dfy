/**
 The frame codec (frame.rs): four length bytes, most significant first, one kind byte, the
 payload. The length counts the kind byte and the payload.
 */
module Frames {
  import opened Wrappers
  import opened Addresses

  const FRAME_HEADER_SIZE := 5
  const MAX_FRAME_SIZE := 16 * 1024 * 1024

  datatype Frame = Frame(kind: nat, payload: seq<Byte>)

  datatype CodecError =
    | KindTooLarge
    | FrameTooLarge
    | Truncated
    | BadLength

  /** `u32::to_be_bytes` */
  function BigEndian(n: nat): (r: seq<Byte>)
    requires n < 0x1_0000_0000
    ensures |r| == 4
  {
    [n / 0x100_0000, n / 0x1_0000 % 0x100, n / 0x100 % 0x100, n % 0x100]
  }

  /** `u32::from_be_bytes` */
  function FromBigEndian(b0: Byte, b1: Byte, b2: Byte, b3: Byte): nat {
    b0 * 0x100_0000 + b1 * 0x1_0000 + b2 * 0x100 + b3
  }

  /** The length field at the front of a buffer. */
  function Length(data: seq<Byte>): nat
    requires |data| >= 4
  {
    FromBigEndian(data[0], data[1], data[2], data[3])
  }

  function EncodeFrame(kind: nat, payload: seq<Byte>): Result<seq<Byte>, CodecError> {
    if kind > 255 then Err(KindTooLarge)
    else if 1 + |payload| > MAX_FRAME_SIZE then Err(FrameTooLarge)
    else Ok(BigEndian(1 + |payload|) + [kind] + payload)
  }

  function DecodeFrame(data: seq<Byte>): Result<Frame, CodecError> {
    if |data| < FRAME_HEADER_SIZE then Err(Truncated)
    else
      var length := Length(data);
      if length == 0 || length > MAX_FRAME_SIZE then Err(BadLength)
      else if |data| < FRAME_HEADER_SIZE + length - 1 then Err(Truncated)
      else Ok(Frame(data[4], data[FRAME_HEADER_SIZE..FRAME_HEADER_SIZE + length - 1]))
  }

  /** From a buffer cut to one frame. */
  function ParseFrame(buf: seq<Byte>): Result<Frame, CodecError> {
    if |buf| < FRAME_HEADER_SIZE then Err(Truncated)
    else Ok(Frame(buf[4], buf[FRAME_HEADER_SIZE..]))
  }

  /** The size of the first frame of the buffer when all of it is there. */
  function FrameSizeInBuffer(data: seq<Byte>): Result<Option<nat>, CodecError> {
    if |data| < 4 then Ok(None)
    else
      var length := Length(data);
      if length == 0 || length > MAX_FRAME_SIZE then Err(BadLength)
      else if |data| >= FRAME_HEADER_SIZE + length - 1 then Ok(Some(FRAME_HEADER_SIZE + length - 1))
      else Ok(None)
  }

  // ------------------------------------------------------------------
  // Exactness
  // ------------------------------------------------------------------

  /** Frames `encode_frame` accepts. */
  predicate Encodable(f: Frame) {
    f.kind <= 255 && 1 + |f.payload| <= MAX_FRAME_SIZE
  }

  function Encoding(f: Frame): seq<Byte>
    requires Encodable(f)
  {
    BigEndian(1 + |f.payload|) + [f.kind] + f.payload
  }

  lemma BigEndianRoundTrip(n: nat)
    requires n < 0x1_0000_0000
    ensures var b := BigEndian(n); FromBigEndian(b[0], b[1], b[2], b[3]) == n
  {
    assert n / 0x100 == n / 0x1_0000 * 0x100 + n / 0x100 % 0x100;
    assert n / 0x1_0000 == n / 0x100_0000 * 0x100 + n / 0x1_0000 % 0x100;
  }

  lemma LastDigit(high: nat, low: Byte)
    ensures (high * 0x100 + low) / 0x100 == high && (high * 0x100 + low) % 0x100 == low
  {
  }

  lemma BytesRoundTrip(b0: Byte, b1: Byte, b2: Byte, b3: Byte)
    ensures FromBigEndian(b0, b1, b2, b3) < 0x1_0000_0000
    ensures BigEndian(FromBigEndian(b0, b1, b2, b3)) == [b0, b1, b2, b3]
  {
    var n1 := b0 * 0x100 + b1;
    var n2 := n1 * 0x100 + b2;
    var n3 := n2 * 0x100 + b3;
    LastDigit(b0, b1);
    LastDigit(n1, b2);
    LastDigit(n2, b3);
    assert n3 == FromBigEndian(b0, b1, b2, b3);
    assert n3 / 0x1_0000 == n3 / 0x100 / 0x100;
    assert n3 / 0x100_0000 == n3 / 0x1_0000 / 0x100;
  }

  /**
   The layout: what can be encoded are kinds of one byte and payloads of less than 2^24 bytes.
   The first four bytes, most significant first, are one more than the length of the payload;
   the kind and the payload follow.
   */
  lemma EncodingLayout(f: Frame)
    ensures Encodable(f) <==> f.kind < 256 && |f.payload| < 16_777_216
    ensures Encodable(f) ==>
              var e := Encoding(f);
              && |e| == 5 + |f.payload|
              && 0x100_0000 * (e[0] as int) + 0x1_0000 * (e[1] as int) + 0x100 * (e[2] as int) + e[3] == |f.payload| + 1
              && e[4] == f.kind && e[5..] == f.payload
  {
    if Encodable(f) {
      BigEndianRoundTrip(1 + |f.payload|);
    }
  }

  /** The front of an encoding, followed by anything, reads back. */
  lemma EncodingReadsBack(f: Frame, rest: seq<Byte>)
    requires Encodable(f)
    ensures |Encoding(f)| == FRAME_HEADER_SIZE + |f.payload|
    ensures Length(Encoding(f) + rest) == 1 + |f.payload|
    ensures DecodeFrame(Encoding(f) + rest) == Ok(f)
    ensures FrameSizeInBuffer(Encoding(f) + rest) == Ok(Some(|Encoding(f)|))
    ensures ParseFrame(Encoding(f)) == Ok(f)
  {
    BigEndianRoundTrip(1 + |f.payload|);
    var data := Encoding(f) + rest;
    assert data[FRAME_HEADER_SIZE..FRAME_HEADER_SIZE + |f.payload|] == f.payload;
    assert Encoding(f)[FRAME_HEADER_SIZE..] == f.payload;
  }

  /** A buffer that decodes begins with the encoding of what it decodes to. */
  lemma DecodedIsEncoded(data: seq<Byte>)
    requires DecodeFrame(data).Ok?
    ensures var f := DecodeFrame(data).value;
            Encodable(f) && |Encoding(f)| <= |data| && data[..|Encoding(f)|] == Encoding(f)
  {
    var f := DecodeFrame(data).value;
    BytesRoundTrip(data[0], data[1], data[2], data[3]);
    assert |f.payload| == Length(data) - 1;
    assert data[..4] == BigEndian(Length(data));
    assert data[..5 + |f.payload|] == data[..4] + [data[4]] + data[5..5 + |f.payload|];
  }

  /** `decode_frame` succeeds exactly on buffers that begin with an encoding, and returns that frame, which is unique. */
  lemma DecodeIsExact(data: seq<Byte>, f: Frame)
    ensures DecodeFrame(data) == Ok(f) <==> Encodable(f) && Encoding(f) <= data
  {
    if Encodable(f) && Encoding(f) <= data {
      EncodingReadsBack(f, data[|Encoding(f)|..]);
      assert data == Encoding(f) + data[|Encoding(f)|..];
    }
    if DecodeFrame(data) == Ok(f) {
      DecodedIsEncoded(data);
    }
  }

  /** `encode_frame` refuses exactly the frames that no bytes decode to, and what it gives decodes to the frame. */
  lemma EncodesExactlyWhatDecodes(f: Frame)
    ensures EncodeFrame(f.kind, f.payload).Ok? <==> exists data :: DecodeFrame(data) == Ok(f)
    ensures EncodeFrame(f.kind, f.payload).Ok? ==> DecodeFrame(EncodeFrame(f.kind, f.payload).value) == Ok(f)
    ensures EncodeFrame(f.kind, f.payload) == Err(KindTooLarge) <==> f.kind >= 256
    ensures EncodeFrame(f.kind, f.payload) == Err(FrameTooLarge) <==> f.kind < 256 && |f.payload| >= 16_777_216
  {
    if EncodeFrame(f.kind, f.payload).Ok? {
      EncodingReadsBack(f, []);
      assert EncodeFrame(f.kind, f.payload).value == Encoding(f) + [];
    }
    if data :| DecodeFrame(data) == Ok(f) {
      DecodeIsExact(data, f);
    }
  }

  /**
   `frame_size_in_buffer` finds a frame exactly when `decode_frame` does; its size is the
   encoded length, and parsing that many bytes gives the same frame.
   */
  lemma SizeAgreesWithDecode(data: seq<Byte>, n: nat)
    ensures FrameSizeInBuffer(data) == Ok(Some(n)) <==>
            DecodeFrame(data).Ok? && n == |Encoding(DecodeFrame(data).value)|
    ensures FrameSizeInBuffer(data) == Ok(Some(n)) ==>
              FRAME_HEADER_SIZE <= n <= |data| && ParseFrame(data[..n]) == DecodeFrame(data)
    ensures FrameSizeInBuffer(data) == Err(BadLength) <==>
            |data| >= 4 && (Length(data) == 0 || Length(data) > MAX_FRAME_SIZE)
  {
    if DecodeFrame(data).Ok? {
      var f := DecodeFrame(data).value;
      DecodedIsEncoded(data);
      EncodingReadsBack(f, data[|Encoding(f)|..]);
      assert data == Encoding(f) + data[|Encoding(f)|..];
    }
  }

  // ------------------------------------------------------------------
  // Streams of frames
  // ------------------------------------------------------------------

  ghost predicate AllEncodable(fs: seq<Frame>) {
    forall i :: 0 <= i < |fs| ==> Encodable(fs[i])
  }

  function EncodeAll(fs: seq<Frame>): seq<Byte>
    requires AllEncodable(fs)
  {
    if fs == [] then [] else Encoding(fs[0]) + EncodeAll(fs[1..])
  }

  /** What a stream of bytes starts with. */
  datatype Front = First(frame: Frame, rest: seq<Byte>) | NeedMore | Malformed

  function FrontOf(data: seq<Byte>): (r: Front)
    ensures r.First? ==> |r.rest| < |data|
  {
    match FrameSizeInBuffer(data)
    case Err(_) => Malformed
    case Ok(None) => NeedMore
    case Ok(Some(n)) => First(Frame(data[4], data[FRAME_HEADER_SIZE..n]), data[n..])
  }

  /** Bytes that arrive later never change what the bytes before them decided. */
  lemma FrontIsStable(data: seq<Byte>, more: seq<Byte>)
    ensures FrontOf(data).Malformed? ==> FrontOf(data + more) == Malformed
    ensures FrontOf(data).First? ==> FrontOf(data + more) == First(FrontOf(data).frame, FrontOf(data).rest + more)
  {
    if |data| >= 4 {
      assert Length(data + more) == Length(data);
      if FrontOf(data).First? {
        var n := FRAME_HEADER_SIZE + Length(data) - 1;
        assert (data + more)[FRAME_HEADER_SIZE..n] == data[FRAME_HEADER_SIZE..n];
        assert (data + more)[n..] == data[n..] + more;
      }
    }
  }

  lemma FrontOfEncoding(f: Frame, rest: seq<Byte>)
    requires Encodable(f)
    ensures FrontOf(Encoding(f) + rest) == First(f, rest)
  {
    EncodingReadsBack(f, rest);
    var data := Encoding(f) + rest;
    assert data[FRAME_HEADER_SIZE..FRAME_HEADER_SIZE + |f.payload|] == f.payload;
    assert data[|Encoding(f)|..] == rest;
  }

  /**
   What a stream starts with: the frame whose encoding it begins with, if there is one;
   otherwise it is malformed if its first four bytes, read as a number, are 0 or more than
   2^24, and else it takes more bytes to tell.
   */
  lemma FrontExactly(data: seq<Byte>, f: Frame, rest: seq<Byte>)
    ensures FrontOf(data) == First(f, rest) <==> Encodable(f) && data == Encoding(f) + rest
    ensures FrontOf(data) == Malformed <==>
            && |data| >= 4
            && var n := 0x100_0000 * (data[0] as int) + 0x1_0000 * (data[1] as int) + 0x100 * (data[2] as int) + data[3];
               n == 0 || n > 16_777_216
  {
    if Encodable(f) && data == Encoding(f) + rest {
      FrontOfEncoding(f, rest);
    }
    if FrontOf(data) == First(f, rest) {
      DecodedIsEncoded(data);
      assert data == Encoding(f) + data[|Encoding(f)|..];
    }
  }

  /** A strict prefix of an encoding is not a frame yet. */
  lemma PrefixNeedsMore(f: Frame, part: seq<Byte>)
    requires Encodable(f) && part < Encoding(f)
    ensures FrontOf(part) == NeedMore
  {
    EncodingReadsBack(f, []);
    assert Encoding(f) + [] == Encoding(f);
    if |part| >= 4 {
      assert Length(part) == Length(Encoding(f));
    }
  }

  /** All frames a stream of bytes holds, in order. */
  function FramesIn(data: seq<Byte>): seq<Frame>
    decreases |data|
  {
    match FrontOf(data)
    case First(f, rest) => [f] + FramesIn(rest)
    case NeedMore => []
    case Malformed => []
  }

  /** What is left behind the last of them. */
  function Residue(data: seq<Byte>): seq<Byte>
    decreases |data|
  {
    match FrontOf(data)
    case First(_, rest) => Residue(rest)
    case NeedMore => data
    case Malformed => data
  }

  lemma OneFrameIn(f: Frame, tail: seq<Byte>)
    requires Encodable(f)
    ensures FramesIn(Encoding(f) + tail) == [f] + FramesIn(tail)
    ensures Residue(Encoding(f) + tail) == Residue(tail)
  {
    FrontOfEncoding(f, tail);
  }

  /** A run of encodings gives its frames back, in order, and goes on with what follows it. */
  lemma {:induction false} FramesInEncodings(fs: seq<Frame>, rest: seq<Byte>)
    requires AllEncodable(fs)
    ensures FramesIn(EncodeAll(fs) + rest) == fs + FramesIn(rest)
    ensures Residue(EncodeAll(fs) + rest) == Residue(rest)
    decreases |fs|
  {
    hide FramesIn, Residue, Encoding;
    if fs == [] {
      assert EncodeAll(fs) + rest == rest;
      assert fs + FramesIn(rest) == FramesIn(rest);
    } else {
      var tail := EncodeAll(fs[1..]) + rest;
      FramesInEncodings(fs[1..], rest);
      OneFrameIn(fs[0], tail);
      assert EncodeAll(fs) + rest == Encoding(fs[0]) + tail;
      assert [fs[0]] + (fs[1..] + FramesIn(rest)) == fs + FramesIn(rest);
    }
  }

  /** Concatenated encodings are uniquely decodable. */
  lemma UniquelyDecodable(fs: seq<Frame>, gs: seq<Frame>)
    requires AllEncodable(fs) && AllEncodable(gs) && EncodeAll(fs) == EncodeAll(gs)
    ensures fs == gs
  {
    FramesInEncodings(fs, []);
    FramesInEncodings(gs, []);
    assert FramesIn([]) == [];
    assert fs + [] == fs && gs + [] == gs;
    assert EncodeAll(fs) + [] == EncodeAll(gs) + [];
  }

  /**
   A stream of whole encodings that breaks off inside one more frame holds those frames,
   and the broken one only if all of it arrived.
   */
  lemma BrokenStream(fs: seq<Frame>, f: Frame, part: seq<Byte>)
    requires AllEncodable(fs) && Encodable(f) && part <= Encoding(f)
    ensures FramesIn(EncodeAll(fs) + part) == if part == Encoding(f) then fs + [f] else fs
    ensures Residue(EncodeAll(fs) + part) == if part == Encoding(f) then [] else part
  {
    FramesInEncodings(fs, part);
    if part == Encoding(f) {
      OneFrameIn(f, []);
      assert Encoding(f) + [] == part;
      assert FramesIn([]) == [] && Residue([]) == [];
    } else {
      PrefixNeedsMore(f, part);
    }
  }

  /** Fewer bytes never hold other frames: what a shorter stream holds is where the longer one starts. */
  lemma {:induction false} FramesInPrefix(data: seq<Byte>, more: seq<Byte>)
    ensures FramesIn(data) <= FramesIn(data + more)
    decreases |data|
  {
    FrontIsStable(data, more);
    if FrontOf(data).First? {
      FramesInPrefix(FrontOf(data).rest, more);
    }
  }

  lemma {:induction false} EncodeAllSnoc(fs: seq<Frame>, f: Frame)
    requires AllEncodable(fs) && Encodable(f)
    ensures AllEncodable(fs + [f]) && EncodeAll(fs + [f]) == EncodeAll(fs) + Encoding(f)
    decreases |fs|
  {
    hide Encoding;
    if fs == [] {
      assert EncodeAll([f]) == Encoding(f) + EncodeAll([]);
    } else {
      EncodeAllSnoc(fs[1..], f);
      assert (fs + [f])[1..] == fs[1..] + [f];
    }
  }

  /**
   A receiver that has got any part of such a stream, cut at any byte, has frames that were
   sent, in the order they were sent, and no others.
   */
  lemma NothingButSentFrames(fs: seq<Frame>, f: Frame, part: seq<Byte>, received: seq<Byte>)
    requires AllEncodable(fs) && Encodable(f) && part <= Encoding(f)
    requires received <= EncodeAll(fs) + part
    ensures FramesIn(received) <= fs + [f]
    ensures part != Encoding(f) ==> FramesIn(received) <= fs
  {
    var wire := EncodeAll(fs) + part;
    assert wire == received + wire[|received|..];
    FramesInPrefix(received, wire[|received|..]);
    BrokenStream(fs, f, part);
  }
}
