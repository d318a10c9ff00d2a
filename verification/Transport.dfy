/**
 Reading frames from a byte stream and writing them to one (frame.rs, `FrameTransport`).

 A read hands over between 1 and 8192 bytes, as the network has them; the reads still to
 come are listed in advance, in any split. A write either completes or fails after any part
 of the frame has reached the stream.
 */
module Transport {
  import opened Wrappers
  import opened Addresses
  import opened Frames

  const READ_CHUNK := 8192
  const MAX_READ_BUF := MAX_FRAME_SIZE + 1024 * 1024

  datatype StreamEnd = Eof | ReadFailed

  datatype RecvError = Codec(codec: CodecError) | BufferOverLimit | Ended(end: StreamEnd)

  datatype SendError = NotEncodable(codec: CodecError) | Io

  datatype WriteOutcome = Written | FailedAfter(bytes: nat)

  function Flatten(chunks: seq<seq<Byte>>): seq<Byte> {
    if chunks == [] then [] else chunks[0] + Flatten(chunks[1..])
  }

  function Parsed(r: Result<Frame, CodecError>): Result<Frame, RecvError> {
    match r
    case Ok(f) => Ok(f)
    case Err(e) => Err(Codec(e))
  }

  /** One write of a frame: how many bytes of its encoding reached the stream, and whether it was reported as sent. */
  datatype Write = Write(frame: Frame, bytes: nat, ok: bool)
  {
    ghost predicate Valid() {
      Encodable(frame) && bytes <= |Encoding(frame)| && (ok ==> bytes == |Encoding(frame)|)
    }

    ghost function OnStream(): seq<Byte>
      requires Valid()
    {
      Encoding(frame)[..bytes]
    }

    ghost predicate Whole()
      requires Valid()
    {
      bytes == |Encoding(frame)|
    }

    /** Part of the frame is on the stream, but not all of it. */
    ghost predicate Torn()
      requires Valid()
    {
      0 < bytes < |Encoding(frame)|
    }
  }

  /** The write that a frame and an outcome make. */
  ghost function Attempt(f: Frame, outcome: WriteOutcome): (w: Write)
    requires Encodable(f)
    ensures w.Valid()
  {
    if outcome.Written? then Write(f, |Encoding(f)|, true)
    else Write(f, if outcome.bytes < |Encoding(f)| then outcome.bytes else |Encoding(f)|, false)
  }

  /** What sending a frame adds to the writes: nothing if it has no encoding. */
  ghost function WritesOf(f: Frame, outcome: WriteOutcome): seq<Write> {
    if Encodable(f) then [Attempt(f, outcome)] else []
  }

  /** Sending the frame puts a byte on the stream. */
  ghost predicate Lands(f: Frame, outcome: WriteOutcome) {
    Encodable(f) && Attempt(f, outcome).bytes > 0
  }

  /** Sending the frame leaves part of it on the stream. */
  ghost predicate Tears(f: Frame, outcome: WriteOutcome) {
    Encodable(f) && Attempt(f, outcome).Torn()
  }

  lemma EmptyFrameTears(kind: nat, outcome: WriteOutcome)
    ensures Tears(Frame(kind, []), outcome) <==> kind <= 255 && outcome.FailedAfter? && 0 < outcome.bytes < FRAME_HEADER_SIZE
  {
  }

  ghost predicate AllValid(ws: seq<Write>) {
    forall i :: 0 <= i < |ws| ==> ws[i].Valid()
  }

  ghost predicate Clean(ws: seq<Write>)
    requires AllValid(ws)
  {
    forall i :: 0 <= i < |ws| ==> !ws[i].Torn()
  }

  /** What a stream holds after these writes. */
  ghost function Wire(ws: seq<Write>): seq<Byte>
    requires AllValid(ws)
  {
    if ws == [] then [] else Wire(ws[..|ws| - 1]) + ws[|ws| - 1].OnStream()
  }

  /** The frames all of which reached the stream, those reported as sent among them. */
  ghost function Delivered(ws: seq<Write>): seq<Frame>
    requires AllValid(ws)
  {
    if ws == [] then [] else Delivered(ws[..|ws| - 1]) + if ws[|ws| - 1].Whole() then [ws[|ws| - 1].frame] else []
  }

  lemma WireSnoc(ws: seq<Write>, w: Write)
    requires AllValid(ws) && w.Valid()
    ensures AllValid(ws + [w])
    ensures Wire(ws + [w]) == Wire(ws) + w.OnStream()
    ensures Delivered(ws + [w]) == Delivered(ws) + if w.Whole() then [w.frame] else []
    ensures Clean(ws + [w]) <==> Clean(ws) && !w.Torn()
  {
    assert (ws + [w])[..|ws|] == ws && (ws + [w])[|ws|] == w;
    assert forall i :: 0 <= i < |ws| ==> (ws + [w])[i] == ws[i];
  }

  lemma {:induction false} WireGrows(ws: seq<Write>, n: nat)
    requires AllValid(ws) && n <= |ws|
    ensures Wire(ws[..n]) <= Wire(ws)
    decreases |ws|
  {
    if n < |ws| {
      WireGrows(ws[..|ws| - 1], n);
      assert ws[..|ws| - 1][..n] == ws[..n];
    } else {
      assert ws[..n] == ws;
    }
  }

  /** As long as no write is torn, the stream is the frames delivered, one after the other. */
  lemma {:induction false} CleanWire(ws: seq<Write>)
    requires AllValid(ws) && Clean(ws)
    ensures AllEncodable(Delivered(ws)) && Wire(ws) == EncodeAll(Delivered(ws))
    decreases |ws|
  {
    hide Encoding;
    if ws != [] {
      var front, w := ws[..|ws| - 1], ws[|ws| - 1];
      CleanWire(front);
      if w.Whole() {
        EncodeAllSnoc(Delivered(front), w.frame);
        assert w.OnStream() == Encoding(w.frame);
      } else {
        assert w.OnStream() == [];
        assert Delivered(ws) == Delivered(front);
      }
    }
  }

  /** Once a write is torn no byte of another follows on the stream. */
  ghost predicate NothingAfterACut(ws: seq<Write>)
    requires AllValid(ws)
  {
    forall i, j :: 0 <= i < j < |ws| && ws[i].Torn() ==> ws[j].bytes == 0
  }

  lemma NothingAfterACutSnoc(ws: seq<Write>, w: Write)
    requires AllValid(ws) && w.Valid()
    ensures AllValid(ws + [w])
    ensures NothingAfterACut(ws + [w]) <==> NothingAfterACut(ws) && (Clean(ws) || w.bytes == 0)
  {
    var more := ws + [w];
    assert more[|ws|] == w && forall i :: 0 <= i < |ws| ==> more[i] == ws[i];
    if !NothingAfterACut(ws) {
      var i, j :| 0 <= i < j < |ws| && ws[i].Torn() && ws[j].bytes != 0;
      assert more[i].Torn() && more[j].bytes != 0;
    } else if !Clean(ws) {
      var i :| 0 <= i < |ws| && ws[i].Torn();
      assert more[i].Torn();
    }
  }

  /** What a torn write leaves behind it is seen at the end of the stream, and nothing else is. */
  lemma {:induction false} IntactExactlyIfNothingIsLeft(ws: seq<Write>)
    requires AllValid(ws) && NothingAfterACut(ws)
    ensures FramesIn(Wire(ws)) == Delivered(ws)
    ensures Residue(Wire(ws)) == [] <==> Clean(ws)
    decreases |ws|
  {
    if ws == [] {
      assert FramesIn([]) == [] && Residue([]) == [];
    } else {
      var front, w := ws[..|ws| - 1], ws[|ws| - 1];
      assert ws == front + [w];
      WireSnoc(front, w);
      NothingAfterACutSnoc(front, w);
      if Clean(front) {
        CleanWire(front);
        BrokenStream(Delivered(front), w.frame, w.OnStream());
      } else {
        IntactExactlyIfNothingIsLeft(front);
        assert Wire(ws) == Wire(front) && Delivered(ws) == Delivered(front);
      }
    }
  }

  lemma CleanHasNoResidue(ws: seq<Write>)
    requires AllValid(ws) && Clean(ws)
    ensures Residue(Wire(ws)) == []
  {
    IntactExactlyIfNothingIsLeft(ws);
  }

  /** One more write, as sending a frame makes it: what is on the stream then, and whether it is still whole. */
  lemma AfterSending(ws: seq<Write>, f: Frame, outcome: WriteOutcome)
    requires AllValid(ws) && Encodable(f)
    ensures var w, bytes := Attempt(f, outcome), Encoding(f);
            && AllValid(ws + [w]) && WritesOf(f, outcome) == [w]
            && Wire(ws + [w]) == Wire(ws) + (if outcome.Written? || outcome.bytes >= |bytes| then bytes else bytes[..outcome.bytes])
            && (Clean(ws + [w]) <==> Clean(ws) && !Tears(f, outcome))
            && (Clean(ws) ==> (Residue(Wire(ws + [w])) == [] <==> Clean(ws + [w])))
  {
    var w := Attempt(f, outcome);
    WireSnoc(ws, w);
    if Clean(ws) {
      NothingAfterACutSnoc(ws, w);
      IntactExactlyIfNothingIsLeft(ws + [w]);
    }
    hide Wire, Residue, NothingAfterACut, Encodable, Delivered;
  }

  lemma EncodesEncodable(f: Frame)
    ensures EncodeFrame(f.kind, f.payload).Ok? <==> Encodable(f)
    ensures Encodable(f) ==> EncodeFrame(f.kind, f.payload).value == Encoding(f)
  {
  }

  lemma NotSent(f: Frame, outcome: WriteOutcome)
    requires !Encodable(f)
    ensures WritesOf(f, outcome) == [] && !Tears(f, outcome)
  {
  }

  /** What `recv_frame` answers when the whole of a stream is this. */
  function Answer(front: Front, end: StreamEnd): Result<Frame, RecvError> {
    match front
    case First(f, _) => Ok(f)
    case Malformed => Err(Codec(BadLength))
    case NeedMore => Err(Ended(end))
  }

  /** A buffer that holds no whole frame is shorter than the largest frame. */
  lemma WaitingBufferIsBounded(data: seq<Byte>)
    requires FrontOf(data).NeedMore?
    ensures |data| <= MAX_FRAME_SIZE + 3
  {
  }

  /** Any limit of at least MAX_FRAME_SIZE + 3 bytes is never exceeded while waiting, and no smaller one will do. */
  lemma LimitIsSafeExactlyFrom(limit: nat)
    ensures (forall data :: FrontOf(data).NeedMore? ==> |data| <= limit) <==> limit >= 16_777_219
  {
    if limit >= MAX_FRAME_SIZE + 3 {
      forall data | FrontOf(data).NeedMore?
        ensures |data| <= limit
      {
        WaitingBufferIsBounded(data);
      }
    } else {
      var zeros: seq<Byte> := seq(MAX_FRAME_SIZE - 1, i => 0);
      var data := BigEndian(MAX_FRAME_SIZE) + zeros;
      BigEndianRoundTrip(MAX_FRAME_SIZE);
      assert FrontOf(data).NeedMore? && |data| == MAX_FRAME_SIZE + 3;
    }
  }

  /** The frames of a stream are the one that comes out first and those of the rest. */
  lemma OneFrameOut(data: seq<Byte>, end: StreamEnd)
    ensures match Answer(FrontOf(data), end)
            case Ok(f) =>
              && FrontOf(data).First? && FramesIn(data) == [f] + FramesIn(FrontOf(data).rest)
              && Residue(data) == Residue(FrontOf(data).rest) && |FrontOf(data).rest| < |data|
            case Err(_) => FramesIn(data) == [] && Residue(data) == data
  {
  }

  lemma FrontIsEncoded(data: seq<Byte>)
    ensures FrontOf(data).First? ==> Encodable(FrontOf(data).frame) && data == Encoding(FrontOf(data).frame) + FrontOf(data).rest
  {
    if FrontOf(data).First? {
      FrontExactly(data, FrontOf(data).frame, FrontOf(data).rest);
    }
  }

  class FrameTransport {
    var readBuf: seq<Byte>
    var incoming: seq<seq<Byte>>
    const end: StreamEnd

    var wire: seq<Byte>
    /** Every write ever made on the stream. */
    ghost var writes: seq<Write>

    /** The reads are of the sizes the stream hands over, and the buffer is never longer than one frame and one read. */
    ghost predicate ReadValid()
      reads this`readBuf, this`incoming
    {
      && (forall i :: 0 <= i < |incoming| ==> 0 < |incoming[i]| <= READ_CHUNK)
      && |readBuf| <= MAX_FRAME_SIZE + 3 + READ_CHUNK
    }

    /** Everything that has been read and not returned, and everything still to be read. */
    ghost function Pending(): seq<Byte>
      reads this`readBuf, this`incoming
    {
      readBuf + Flatten(incoming)
    }

    /** The stream holds what the writes put on it. */
    ghost predicate WireValid()
      reads this`wire, this`writes
    {
      AllValid(writes) && wire == Wire(writes)
    }

    /** No write has left part of a frame. */
    ghost predicate Intact()
      reads this`writes
    {
      AllValid(writes) && Clean(writes)
    }

    constructor (incoming: seq<seq<Byte>>, end: StreamEnd)
      requires forall i :: 0 <= i < |incoming| ==> 0 < |incoming[i]| <= READ_CHUNK
      ensures ReadValid() && WireValid()
      ensures this.incoming == incoming && this.end == end && Pending() == Flatten(incoming)
      ensures writes == [] && wire == []
    {
      this.readBuf, this.incoming, this.end := [], incoming, end;
      this.wire, this.writes := [], [];
    }

    /**
     The loop of `recv_frame` for a given buffer limit. With a limit of MAX_FRAME_SIZE + 3 or
     more, the answer depends on the bytes of the stream only, not on how reads split them,
     and the limit is never hit.
     */
    method RecvWithin(limit: nat) returns (r: Result<Frame, RecvError>)
      requires ReadValid()
      modifies this`readBuf, this`incoming
      ensures ReadValid()
      ensures limit >= MAX_FRAME_SIZE + 3 ==> r == Answer(FrontOf(old(Pending())), end)
      ensures r.Ok? ==> FrontOf(old(Pending())) == First(r.value, Pending())
      ensures r.Err? ==> Pending() == old(Pending())
      ensures r.Err? && r.error.Ended? ==> incoming == []
    {
      while true
        invariant ReadValid() && Pending() == old(Pending())
        decreases |incoming|
      {
        FrontIsStable(readBuf, Flatten(incoming));
        match FrameSizeInBuffer(readBuf) {
          case Err(e) =>
            return Err(Codec(e));
          case Ok(Some(n)) =>
            var frameBuf := readBuf[..n];
            readBuf := readBuf[n..];
            r := Parsed(ParseFrame(frameBuf));
            return;
          case Ok(None) =>
        }
        WaitingBufferIsBounded(readBuf);
        if |readBuf| > limit {
          return Err(BufferOverLimit);
        }
        if incoming == [] {
          assert Pending() == readBuf;
          return Err(Ended(end));
        }
        var chunk := incoming[0];
        assert readBuf + Flatten(incoming) == (readBuf + chunk) + Flatten(incoming[1..]);
        readBuf := readBuf + chunk;
        incoming := incoming[1..];
      }
    }

    /** `recv_frame`: the next frame of the stream, whatever the split into reads. */
    method RecvFrame() returns (r: Result<Frame, RecvError>)
      requires ReadValid()
      modifies this`readBuf, this`incoming
      ensures ReadValid()
      ensures r == Answer(FrontOf(old(Pending())), end)
      ensures Pending() == if r.Ok? then FrontOf(old(Pending())).rest else old(Pending())
      ensures r.Ok? ==> Encodable(r.value) && old(Pending()) == Encoding(r.value) + Pending()
      ensures r.Err? ==> r.error == if FrontOf(old(Pending())).Malformed? then Codec(BadLength) else Ended(end)
    {
      FrontIsEncoded(Pending());
      r := RecvWithin(MAX_READ_BUF);
    }

    /** The receive loop: frames are handed on until the first error. */
    method ReceiveAll() returns (frames: seq<Frame>, error: RecvError)
      requires ReadValid()
      modifies this`readBuf, this`incoming
      ensures ReadValid()
      ensures frames == FramesIn(old(Pending()))
      ensures Pending() == Residue(old(Pending()))
      ensures Err(error) == Answer(FrontOf(Pending()), end)
    {
      hide *;
      frames := [];
      ghost var before := Pending();
      while true
        invariant ReadValid()
        invariant FramesIn(before) == frames + FramesIn(Pending())
        invariant Residue(before) == Residue(Pending())
        decreases |Pending()|
      {
        ghost var pending := Pending();
        OneFrameOut(pending, end);
        var r := RecvFrame();
        match r {
          case Ok(frame) =>
            assert frames + ([frame] + FramesIn(Pending())) == frames + [frame] + FramesIn(Pending());
            frames := frames + [frame];
          case Err(e) =>
            assert frames + [] == frames;
            error := e;
            return;
        }
      }
    }

    /** One write of a whole buffer, never tried again. */
    method WriteAll(bytes: seq<Byte>, outcome: WriteOutcome) returns (ok: bool)
      modifies this`wire
      ensures ok <==> outcome.Written?
      ensures wire == old(wire) + if outcome.Written? || outcome.bytes >= |bytes| then bytes else bytes[..outcome.bytes]
    {
      match outcome
      case Written =>
        wire := wire + bytes;
        ok := true;
      case FailedAfter(n) =>
        wire := wire + if n >= |bytes| then bytes else bytes[..n];
        ok := false;
    }

    lemma StreamIs()
      ensures WireValid() <==> AllValid(writes) && wire == Wire(writes)
      ensures Intact() <==> AllValid(writes) && Clean(writes)
      ensures WireValid() && Intact() ==> Residue(wire) == []
    {
      if WireValid() && Intact() {
        CleanHasNoResidue(writes);
      }
    }

    /** `send_frame`: one write of the encoding, or none if the frame has no encoding. */
    method SendFrame(kind: nat, payload: seq<Byte>, outcome: WriteOutcome) returns (r: Result<(), SendError>)
      requires WireValid()
      modifies this`wire, this`writes
      ensures WireValid()
      ensures r.Ok? <==> Encodable(Frame(kind, payload)) && outcome.Written?
      ensures r == Err(Io) <==> Encodable(Frame(kind, payload)) && !outcome.Written?
      ensures writes == old(writes) + WritesOf(Frame(kind, payload), outcome)
      ensures Intact() <==> old(Intact()) && !Tears(Frame(kind, payload), outcome)
      ensures old(Intact()) ==> (Residue(wire) == [] <==> Intact())
    {
      hide *;
      ghost var frame := Frame(kind, payload);
      EncodesEncodable(frame);
      StreamIs();
      match EncodeFrame(kind, payload)
      case Err(e) =>
        NotSent(frame, outcome);
        return Err(NotEncodable(e));
      case Ok(bytes) =>
        AfterSending(writes, frame, outcome);
        var ok := WriteAll(bytes, outcome);
        writes := writes + [Attempt(frame, outcome)];
        StreamIs();
        return if ok then Ok(()) else Err(Io);
    }
  }

  /**
   Reassembly: a stream made of encoded frames and then part of one more, split into reads in
   any way, is handed on as exactly those frames, in order, and the part stays buffered.
   */
  lemma StreamIsReassembled(fs: seq<Frame>, f: Frame, part: seq<Byte>, chunks: seq<seq<Byte>>)
    requires AllEncodable(fs) && Encodable(f) && part < Encoding(f)
    requires Flatten(chunks) == EncodeAll(fs) + part
    ensures FramesIn(Flatten(chunks)) == fs && Residue(Flatten(chunks)) == part
  {
    BrokenStream(fs, f, part);
  }

  /**
   What a receiver gets from any part of what the first n writes put on a stream, if nothing
   followed a cut among them: delivered frames, in order, no others.
   */
  lemma ReceiverGetsOnlySentFrames(t: FrameTransport, n: nat, received: seq<Byte>)
    requires t.WireValid() && n <= |t.writes| && NothingAfterACut(t.writes[..n]) && received <= Wire(t.writes[..n])
    ensures received <= t.wire && FramesIn(received) <= Delivered(t.writes[..n])
  {
    var wire := Wire(t.writes[..n]);
    WireGrows(t.writes, n);
    assert wire == received + wire[|received|..];
    FramesInPrefix(received, wire[|received|..]);
    IntactExactlyIfNothingIsLeft(t.writes[..n]);
  }

  // ------------------------------------------------------------------
  // Why nothing may follow part of a frame
  // ------------------------------------------------------------------

  /** The length a receiver reads off n bytes of one encoding and then another: their lengths are lf and lg. */
  function GluedLength(lf: nat, lg: nat, n: nat): nat
    requires 0 < n
  {
    if n == 1 then lf / 0x100_0000 * 0x100_0000 + lg / 0x100
    else if n == 2 then lf / 0x1_0000 * 0x1_0000 + lg / 0x1_0000
    else if n == 3 then lf / 0x100 * 0x100 + lg / 0x100_0000
    else lf
  }

  /** The leading digits of a length. */
  lemma LeadingDigits(n: nat)
    requires n < 0x1_0000_0000
    ensures var b0: nat, b1: nat, b2: nat, b3: nat := BigEndian(n)[0], BigEndian(n)[1], BigEndian(n)[2], BigEndian(n)[3];
            && n / 0x100_0000 == b0
            && n / 0x1_0000 == b0 * 0x100 + b1
            && n / 0x100 == b0 * 0x1_0000 + b1 * 0x100 + b2
            && n == b0 * 0x100_0000 + b1 * 0x1_0000 + b2 * 0x100 + b3
  {
    BigEndianRoundTrip(n);
    assert n / 0x100 == n / 0x1_0000 * 0x100 + n / 0x100 % 0x100;
    assert n / 0x1_0000 == n / 0x100_0000 * 0x100 + n / 0x1_0000 % 0x100;
  }

  lemma GluedLengthIsRead(f: Frame, n: nat, g: Frame)
    requires Encodable(f) && Encodable(g) && 0 < n < |Encoding(f)|
    ensures Length(Encoding(f)[..n] + Encoding(g)) == GluedLength(1 + |f.payload|, 1 + |g.payload|, n)
  {
    var lf, lg := 1 + |f.payload|, 1 + |g.payload|;
    LeadingDigits(lf);
    LeadingDigits(lg);
    var b, c := BigEndian(lf), BigEndian(lg);
    var data := Encoding(f)[..n] + Encoding(g);
    assert forall i :: 0 <= i < 4 ==> data[i] == if i < n then b[i] else c[i - n];
    hide BigEndian;
  }

  /** What stands on a stream after whole frames, n bytes of one more, and one written behind that. */
  ghost function CutStream(fs: seq<Frame>, f: Frame, n: nat, g: Frame): seq<Byte>
    requires AllEncodable(fs) && Encodable(f) && Encodable(g) && n < |Encoding(f)|
  {
    EncodeAll(fs) + (Encoding(f)[..n] + Encoding(g))
  }

  /** The receiver finds a frame behind the whole ones, whatever it is. */
  ghost predicate ReadsOn(fs: seq<Frame>, data: seq<Byte>) {
    fs < FramesIn(data)
  }

  /** It finds one there that is neither the one that was cut nor the one that follows it. */
  ghost predicate Misreads(fs: seq<Frame>, f: Frame, g: Frame, data: seq<Byte>) {
    ReadsOn(fs, data) && FramesIn(data)[|fs|] != f && FramesIn(data)[|fs|] != g
  }

  /** No further bytes will ever give it another frame. */
  ghost predicate IsDeafened(fs: seq<Frame>, data: seq<Byte>) {
    forall more :: FramesIn(data + more) == fs
  }

  /** The first frame behind whole ones is the first of what stands there. */
  lemma FirstBehind(fs: seq<Frame>, data: seq<Byte>)
    requires AllEncodable(fs)
    ensures ReadsOn(fs, EncodeAll(fs) + data) <==> FrontOf(data).First?
    ensures FrontOf(data).First? ==> FramesIn(EncodeAll(fs) + data)[|fs|] == FrontOf(data).frame
  {
    FramesInEncodings(fs, data);
    assert FramesIn(data) != [] <==> FrontOf(data).First?;
    hide EncodeAll, FrontOf, FramesIn;
  }

  lemma MalformedStays(data: seq<Byte>, more: seq<Byte>)
    requires FrontOf(data).Malformed?
    ensures FramesIn(data + more) == []
  {
    FrontIsStable(data, more);
  }

  lemma DeafenedBehind(fs: seq<Frame>, data: seq<Byte>)
    requires AllEncodable(fs) && FrontOf(data).Malformed?
    ensures IsDeafened(fs, EncodeAll(fs) + data)
  {
    hide FramesIn, EncodeAll, FrontOf, Encodable;
    var whole := EncodeAll(fs);
    forall more
      ensures FramesIn(whole + data + more) == fs
    {
      MalformedStays(data, more);
      FramesInEncodings(fs, data + more);
      assert whole + data + more == whole + (data + more);
      assert fs + [] == fs;
    }
  }

  lemma MissingPart(whole: seq<Byte>, n: nat, behind: seq<Byte>)
    requires n <= |whole|
    ensures whole <= whole[..n] + behind <==> whole[n..] <= behind
  {
    var data := whole[..n] + behind;
    assert whole == whole[..n] + whole[n..] && data[n..] == behind;
    if whole <= data {
      assert whole[n..] == data[n..][..|whole| - n];
    }
  }

  /** What comes first in a buffer is this frame if and only if the buffer begins with its encoding. */
  lemma FrontIs(data: seq<Byte>, f: Frame)
    requires Encodable(f)
    ensures FrontOf(data).First? && FrontOf(data).frame == f <==> Encoding(f) <= data
  {
    DecodeIsExact(data, f);
    SizeAgreesWithDecode(data, |Encoding(f)|);
    if FrontOf(data).First? {
      var n := FrameSizeInBuffer(data).value.value;
      SizeAgreesWithDecode(data, n);
      assert data[..n][FRAME_HEADER_SIZE..] == data[FRAME_HEADER_SIZE..n];
    }
    if Encoding(f) <= data {
      FrontOfEncoding(f, data[|Encoding(f)|..]);
      assert data == Encoding(f) + data[|Encoding(f)|..];
    }
  }

  /**
   A frame written behind any cut. A receiver reads on exactly if the length it takes off the
   two is one a frame can have and the bytes are there. What it reads is the cut frame exactly
   if the one behind happens to begin with the bytes that are missing, and the one behind
   exactly if the stream happens to begin with that one at the cut frame's place. With a
   length no frame can have, it never reads anything again.
   */
  lemma FrameAfterACut(fs: seq<Frame>, f: Frame, n: nat, g: Frame)
    requires AllEncodable(fs) && Encodable(f) && Encodable(g) && 0 < n < |Encoding(f)|
    ensures var lg := 1 + |g.payload|; var length := GluedLength(1 + |f.payload|, lg, n);
            var data := CutStream(fs, f, n, g);
            && (ReadsOn(fs, data) <==> 1 <= length <= MAX_FRAME_SIZE && length <= n + lg)
            && (Misreads(fs, f, g, data) <==>
                && 1 <= length <= MAX_FRAME_SIZE && length <= n + lg
                && !(Encoding(f)[n..] <= Encoding(g)) && !(Encoding(g) <= Encoding(f)[..n] + Encoding(g)))
            && (length == 0 || length > MAX_FRAME_SIZE ==> IsDeafened(fs, data))
  {
    var data := Encoding(f)[..n] + Encoding(g);
    var length := GluedLength(1 + |f.payload|, 1 + |g.payload|, n);
    GluedLengthIsRead(f, n, g);
    EncodingReadsBack(f, []);
    EncodingReadsBack(g, []);
    assert |data| == n + 4 + 1 + |g.payload|;
    assert FrontOf(data).First? <==> 1 <= length <= MAX_FRAME_SIZE && length <= n + 1 + |g.payload|;
    assert FrontOf(data).Malformed? <==> length == 0 || length > MAX_FRAME_SIZE;
    hide FrontOf, FramesIn, EncodeAll, Encoding, Length, GluedLength;
    FirstBehind(fs, data);
    FrontIs(data, f);
    FrontIs(data, g);
    MissingPart(Encoding(f), n, Encoding(g));
    if FrontOf(data).Malformed? {
      DeafenedBehind(fs, data);
    }
  }

  /** The kind byte a receiver takes from n bytes of an empty frame's encoding and then another of this length. */
  function GluedKind(lg: nat, n: nat): nat
    requires 0 < n
  {
    if n == 1 then lg % 0x100
    else if n == 2 then lg / 0x100 % 0x100
    else if n == 3 then lg / 0x1_0000 % 0x100
    else lg / 0x100_0000
  }

  /** From this length on, a frame behind n bytes of an empty frame's encoding is read as something. */
  function FirstReadLength(n: nat): nat {
    if n == 1 then 0x100 else if n == 2 then 0x1_0000 else if n == 3 then 0x100_0000 else 0
  }

  lemma GluedFrontOfEmpty(kind: nat, n: nat, g: Frame)
    requires kind <= 255 && Encodable(g) && 0 < n < FRAME_HEADER_SIZE
    ensures var lg := 1 + |g.payload|; var data := Encoding(Frame(kind, []))[..n] + Encoding(g);
            var length := GluedLength(1, lg, n);
            && length == (if n < 4 then lg / FirstReadLength(n) else 1)
            && data[4] == GluedKind(lg, n)
            && (FrontOf(data).First? <==> lg >= FirstReadLength(n))
            && (FrontOf(data).Malformed? <==> lg < FirstReadLength(n))
            && (FrontOf(data).First? ==> FrontOf(data).frame.kind == GluedKind(lg, n) && |FrontOf(data).frame.payload| == length - 1)
  {
    var f := Frame(kind, []);
    var lg := 1 + |g.payload|;
    var data := Encoding(f)[..n] + Encoding(g);
    GluedLengthIsRead(f, n, g);
    LeadingDigits(lg);
    assert |data| == n + 4 + lg;
    assert data[4] == Encoding(g)[4 - n] == BigEndian(lg)[4 - n];
  }

  /**
   A frame written behind a cut keepalive reply, which is an empty frame. The receiver reads on
   exactly if four bytes of the reply got through or the frame is long enough, and otherwise
   never reads anything again. What it reads was sent by nobody unless it happens to look like
   the reply, or like an empty frame of kind 0 that was the one behind.
   */
  lemma FrameAfterACutReply(fs: seq<Frame>, kind: nat, n: nat, g: Frame)
    requires AllEncodable(fs) && kind <= 255 && Encodable(g) && 0 < n < FRAME_HEADER_SIZE
    ensures var lg := 1 + |g.payload|; var data := CutStream(fs, Frame(kind, []), n, g);
            && (ReadsOn(fs, data) <==> lg >= FirstReadLength(n))
            && (lg < FirstReadLength(n) ==> IsDeafened(fs, data))
            && (Misreads(fs, Frame(kind, []), g, data) <==>
                && lg >= FirstReadLength(n)
                && !(GluedLength(1, lg, n) == 1 && GluedKind(lg, n) == kind)
                && !(n == 4 && g == Frame(0, [])))
  {
    var f := Frame(kind, []);
    var data := Encoding(f)[..n] + Encoding(g);
    GluedFrontOfEmpty(kind, n, g);
    FirstBehind(fs, data);
    if FrontOf(data).Malformed? {
      DeafenedBehind(fs, data);
    }
  }

  /** The smallest case: a reply cut after its length field makes the frame behind it read as one of kind 0 that nobody sent. */
  lemma WritingAfterACutMisframes()
    ensures Misreads([], Frame(2, []), Frame(9, []), CutStream([], Frame(2, []), 4, Frame(9, [])))
  {
    FrameAfterACutReply([], 2, 4, Frame(9, []));
  }

  lemma Associative(a: seq<Byte>, b: seq<Byte>, c: seq<Byte>)
    ensures a + b + c == a + (b + c)
  {
  }

  /** What a torn write and a whole one make of a stream that was intact before. */
  lemma WireAfterACut(ws: seq<Write>, w: Write, behind: Write)
    requires AllValid(ws) && Clean(ws) && w.Valid() && w.Torn() && behind.Valid() && behind.Whole()
    ensures AllValid(ws + [w, behind]) && AllEncodable(Delivered(ws))
    ensures Wire(ws + [w, behind]) == CutStream(Delivered(ws), w.frame, w.bytes, behind.frame)
  {
    hide Encoding, EncodeAll, Wire, Delivered, AllValid, Clean, AllEncodable;
    CleanWire(ws);
    WireSnoc(ws, w);
    WireSnoc(ws + [w], behind);
    assert ws + [w] + [behind] == ws + [w, behind];
    assert behind.OnStream() == Encoding(behind.frame);
    Associative(EncodeAll(Delivered(ws)), w.OnStream(), behind.OnStream());
  }
}
