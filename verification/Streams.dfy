/**
 What runs of calls do to the streams of all sessions: a session joins with the stream its
 handshake left, calls write on streams and end sessions. Every method of the manager is one
 such call, or several. The result the code is built for: where every failed write ends its
 session, a stream is whole frames and then at most part of one, whatever happens.
 */
module Streams {
  import opened Addresses
  import opened Frames
  import opened Sessions
  import opened Transport

  /** The sessions that are registered, and every write ever made on the stream of each session, past ones included. */
  datatype Lines = Lines(open: set<SessionId>, writes: map<SessionId, seq<Write>>)

  const NO_LINES := Lines({}, map[])

  datatype Call =
    | Joined(id: SessionId, before: seq<Write>, left: set<SessionId>)  // a newcomer; `left` are registered afterwards
    | Wrote(frame: Frame, outcomes: map<SessionId, WriteOutcome>, ended: set<SessionId>)  // one write a session; `ended` are not registered afterwards
    | Gone(ids: set<SessionId>)

  function WroteOn(id: SessionId, f: Frame, outcome: WriteOutcome, ended: set<SessionId>): Call {
    Wrote(f, map[id := outcome], ended)
  }

  /** One write of a frame on each of these streams. */
  ghost function Spread(writes: map<SessionId, seq<Write>>, f: Frame, outcomes: map<SessionId, WriteOutcome>): map<SessionId, seq<Write>> {
    map id | id in writes :: if id in outcomes then writes[id] + WritesOf(f, outcomes[id]) else writes[id]
  }

  ghost function Take(l: Lines, c: Call): Lines {
    match c
    case Joined(id, before, left) => Lines((l.open + {id}) * left, l.writes[id := before])
    case Wrote(f, outcomes, ended) => Lines(l.open - ended, Spread(l.writes, f, outcomes))
    case Gone(ids) => l.(open := l.open - ids)
  }

  /** A newcomer is new and its stream is intact; writes are on streams there are. */
  ghost predicate Possible(l: Lines, c: Call) {
    match c
    case Joined(id, before, _) => id !in l.writes && AllValid(before) && Clean(before)
    case Wrote(_, outcomes, _) => outcomes.Keys <= l.writes.Keys
    case Gone(_) => true
  }

  ghost function After(l: Lines, run: seq<Call>): Lines
    decreases |run|
  {
    if run == [] then l else After(Take(l, run[0]), run[1..])
  }

  ghost predicate Legal(l: Lines, run: seq<Call>)
    decreases |run|
  {
    run == [] || (Possible(l, run[0]) && Legal(Take(l, run[0]), run[1..]))
  }

  ghost predicate Valid(l: Lines) {
    l.open <= l.writes.Keys && forall id :: id in l.writes ==> AllValid(l.writes[id])
  }

  lemma TakeKeepsValid(l: Lines, c: Call)
    requires Valid(l) && Possible(l, c)
    ensures Valid(Take(l, c))
  {
    if c.Wrote? {
      forall id | id in l.writes && id in c.outcomes && Encodable(c.frame)
        ensures AllValid(Take(l, c).writes[id])
      {
        WireSnoc(l.writes[id], Attempt(c.frame, c.outcomes[id]));
      }
    }
  }

  lemma EndedAfterwards(l: Lines, f: Frame, outcomes: map<SessionId, WriteOutcome>, ids: set<SessionId>)
    ensures Take(Take(l, Wrote(f, outcomes, {})), Gone(ids)) == Take(l, Wrote(f, outcomes, ids))
  {
  }

  /** One write after another, on different streams, is one call. */
  lemma OneMoreWrite(l: Lines, f: Frame, outcomes: map<SessionId, WriteOutcome>, id: SessionId, outcome: WriteOutcome)
    requires id !in outcomes
    ensures Take(Take(l, Wrote(f, outcomes, {})), WroteOn(id, f, outcome, {})) == Take(l, Wrote(f, outcomes[id := outcome], {}))
  {
    assert Spread(Spread(l.writes, f, outcomes), f, map[id := outcome]) == Spread(l.writes, f, outcomes[id := outcome]);
  }

  lemma NothingWritten(l: Lines, f: Frame)
    ensures Take(l, Wrote(f, map[], {})) == l
  {
    assert Spread(l.writes, f, map[]) == l.writes;
  }

  lemma {:induction false} AfterJoined(l: Lines, run: seq<Call>, more: seq<Call>)
    ensures After(l, run + more) == After(After(l, run), more)
    decreases |run|
  {
    hide Take;
    if run == [] {
      assert run + more == more;
    } else {
      assert (run + more)[1..] == run[1..] + more;
      AfterJoined(Take(l, run[0]), run[1..], more);
    }
  }

  // ------------------------------------------------------------------
  // Nothing follows a cut
  // ------------------------------------------------------------------

  /** The registered sessions that have part of a frame on their stream. */
  ghost function Torn(l: Lines): set<SessionId> {
    set id | id in l.open && id in l.writes && !(AllValid(l.writes[id]) && Clean(l.writes[id]))
  }

  /** On no stream does anything follow part of a frame. */
  ghost predicate NothingFollowsACut(l: Lines) {
    forall id :: id in l.writes ==> AllValid(l.writes[id]) && NothingAfterACut(l.writes[id])
  }

  /** The call puts a byte on a stream that ends in part of a frame already. */
  ghost predicate LandsOnACut(l: Lines, c: Call)
    requires Valid(l)
  {
    c.Wrote? && exists id :: id in c.outcomes && id in l.writes && !Clean(l.writes[id]) && Lands(c.frame, c.outcomes[id])
  }

  lemma WriteAfterACut(ws: seq<Write>, f: Frame, outcome: WriteOutcome)
    requires AllValid(ws)
    ensures AllValid(ws + WritesOf(f, outcome))
    ensures NothingAfterACut(ws + WritesOf(f, outcome)) <==> NothingAfterACut(ws) && (Clean(ws) || !Lands(f, outcome))
    ensures Clean(ws + WritesOf(f, outcome)) <==> Clean(ws) && !Tears(f, outcome)
  {
    if Encodable(f) {
      WireSnoc(ws, Attempt(f, outcome));
      NothingAfterACutSnoc(ws, Attempt(f, outcome));
    } else {
      assert ws + [] == ws;
    }
  }

  lemma CleanHasNoCut(ws: seq<Write>)
    requires AllValid(ws) && Clean(ws)
    ensures NothingAfterACut(ws)
  {
  }

  /** A call keeps anything from following a cut exactly if it does not write behind one itself. */
  lemma NothingFollowsACutExactly(l: Lines, c: Call)
    requires Valid(l) && Possible(l, c)
    ensures Valid(Take(l, c))
    ensures NothingFollowsACut(Take(l, c)) <==> NothingFollowsACut(l) && !LandsOnACut(l, c)
  {
    TakeKeepsValid(l, c);
    var l' := Take(l, c);
    hide NothingAfterACut, Clean, AllValid, Lands;
    match c
    case Joined(id, before, _) =>
      CleanHasNoCut(before);
      assert forall i :: i in l.writes ==> i in l'.writes && l'.writes[i] == l.writes[i];
    case Gone(_) =>
    case Wrote(f, outcomes, _) =>
      forall id | id in l.writes
        ensures NothingAfterACut(l'.writes[id]) <==>
                NothingAfterACut(l.writes[id]) && !(id in outcomes && !Clean(l.writes[id]) && Lands(f, outcomes[id]))
      {
        if id in outcomes {
          WriteAfterACut(l.writes[id], f, outcomes[id]);
        }
      }
  }

  /** After writes, the torn ones are those before and those whose write broke off, as far as they are registered still. */
  lemma TornAfterWrites(l: Lines, f: Frame, outcomes: map<SessionId, WriteOutcome>, ended: set<SessionId>)
    requires Valid(l) && outcomes.Keys <= l.writes.Keys
    ensures Torn(Take(l, Wrote(f, outcomes, ended)))
         == (Torn(l) + set id | id in outcomes && id in l.open && Tears(f, outcomes[id])) - ended
  {
    var l' := Take(l, Wrote(f, outcomes, ended));
    hide AllValid, Clean, Tears;
    forall id | id in l.writes
      ensures AllValid(l.writes[id]) && AllValid(l'.writes[id])
      ensures Clean(l'.writes[id]) <==> Clean(l.writes[id]) && !(id in outcomes && Tears(f, outcomes[id]))
    {
      if id in outcomes {
        WriteAfterACut(l.writes[id], f, outcomes[id]);
      }
    }
  }

  lemma SpreadOnOne(writes: map<SessionId, seq<Write>>, id: SessionId, f: Frame, outcome: WriteOutcome)
    requires id in writes
    ensures Spread(writes, f, map[id := outcome]) == writes[id := writes[id] + WritesOf(f, outcome)]
  {
  }

  lemma NobodyEnded(l: Lines)
    ensures Take(l, Gone({})) == l
  {
  }

  lemma GoneTwice(l: Lines, ids: set<SessionId>)
    ensures Take(Take(l, Gone(ids)), Gone(ids)) == Take(l, Gone(ids))
  {
  }

  lemma TornAfterJoining(l: Lines, id: SessionId, before: seq<Write>, left: set<SessionId>)
    requires Valid(l) && Possible(l, Joined(id, before, left)) && left <= l.open + {id}
    ensures Take(l, Joined(id, before, left)) == Lines(left, l.writes[id := before])
    ensures Torn(Take(l, Joined(id, before, left))) == Torn(l) * left
    ensures NothingFollowsACut(Take(l, Joined(id, before, left))) <==> NothingFollowsACut(l)
  {
    NothingFollowsACutExactly(l, Joined(id, before, left));
    hide NothingFollowsACut;
  }

  lemma TornAfterEnding(l: Lines, ids: set<SessionId>)
    ensures Torn(Take(l, Gone(ids))) == Torn(l) - ids
    ensures NothingFollowsACut(Take(l, Gone(ids))) <==> NothingFollowsACut(l)
  {
  }

  lemma TornAfterOneWrite(l: Lines, id: SessionId, f: Frame, outcome: WriteOutcome, ended: set<SessionId>)
    requires Valid(l) && id in l.writes
    ensures Torn(Take(l, Wrote(f, map[id := outcome], ended)))
         == (Torn(l) + if id in l.open && Tears(f, outcome) then {id} else {}) - ended
  {
    var outcomes := map[id := outcome];
    TornAfterWrites(l, f, outcomes, ended);
    hide *;
    assert (set i | i in outcomes && i in l.open && Tears(f, outcomes[i])) == if id in l.open && Tears(f, outcome) then {id} else {};
  }

  lemma CutsAfterOneWrite(l: Lines, id: SessionId, f: Frame, outcome: WriteOutcome, ended: set<SessionId>)
    requires Valid(l) && id in l.writes
    ensures var l' := Take(l, Wrote(f, map[id := outcome], ended));
            Valid(l') && (NothingFollowsACut(l') <==> NothingFollowsACut(l) && (Clean(l.writes[id]) || !Lands(f, outcome)))
  {
    var c := Wrote(f, map[id := outcome], ended);
    NothingFollowsACutExactly(l, c);
    hide NothingFollowsACut, Take, AllValid, Clean, Lands;
    assert LandsOnACut(l, c) <==> !Clean(l.writes[id]) && Lands(f, outcome);
  }

  /** One write on one stream. */
  lemma OneWrite(l: Lines, id: SessionId, f: Frame, outcome: WriteOutcome, ended: set<SessionId>)
    requires Valid(l) && id in l.writes
    ensures var l' := Take(l, Wrote(f, map[id := outcome], ended));
            && Valid(l')
            && l'.writes == l.writes[id := l.writes[id] + WritesOf(f, outcome)]
            && Torn(l') == (Torn(l) + if id in l.open && Tears(f, outcome) then {id} else {}) - ended
            && (Clean(l'.writes[id]) <==> Clean(l.writes[id]) && !Tears(f, outcome))
            && (NothingFollowsACut(l') <==> NothingFollowsACut(l) && (Clean(l.writes[id]) || !Lands(f, outcome)))
  {
    SpreadOnOne(l.writes, id, f, outcome);
    TornAfterOneWrite(l, id, f, outcome, ended);
    CutsAfterOneWrite(l, id, f, outcome, ended);
    WriteAfterACut(l.writes[id], f, outcome);
    hide Torn, NothingFollowsACut, Spread, AllValid, Clean, Tears, Lands;
  }

  /** No call of the run puts a byte behind part of a frame. */
  ghost predicate SparesCuts(l: Lines, run: seq<Call>)
    requires Valid(l) && Legal(l, run)
    decreases |run|
  {
    run == [] || (TakeKeepsValid(l, run[0]); !LandsOnACut(l, run[0]) && SparesCuts(Take(l, run[0]), run[1..]))
  }

  /** Over whole runs: nothing follows a cut at the end if and only if nothing was written behind one on the way. */
  lemma {:induction false} NothingFollowsACutInRuns(l: Lines, run: seq<Call>)
    requires Valid(l) && Legal(l, run)
    ensures Valid(After(l, run))
    ensures NothingFollowsACut(After(l, run)) <==> NothingFollowsACut(l) && SparesCuts(l, run)
    decreases |run|
  {
    hide Valid, Possible, Take, LandsOnACut, NothingFollowsACut;
    if run != [] {
      TakeKeepsValid(l, run[0]);
      NothingFollowsACutExactly(l, run[0]);
      NothingFollowsACutInRuns(Take(l, run[0]), run[1..]);
    }
  }

  // ------------------------------------------------------------------
  // Where every failed write ends its session
  // ------------------------------------------------------------------

  ghost predicate AllOk(ws: seq<Write>) {
    forall i :: 0 <= i < |ws| ==> ws[i].ok
  }

  /** At most the last write failed. */
  ghost predicate FailsLast(ws: seq<Write>) {
    ws == [] || AllOk(ws[..|ws| - 1])
  }

  /** Writes are on streams of registered sessions, and one that fails ends its session; a newcomer comes without failures. */
  ghost predicate Strict(l: Lines, c: Call) {
    match c
    case Joined(_, before, _) => AllOk(before)
    case Wrote(f, outcomes, ended) =>
      forall id :: id in outcomes ==> id in l.open && (Encodable(f) && !outcomes[id].Written? ==> id in ended)
    case Gone(_) => true
  }

  ghost predicate StrictRun(l: Lines, run: seq<Call>)
    decreases |run|
  {
    run == [] || (Strict(l, run[0]) && StrictRun(Take(l, run[0]), run[1..]))
  }

  /** No write failed on the stream of a registered session, and at most the last one on that of a past session. */
  ghost predicate Reliable(l: Lines) {
    forall id :: id in l.writes ==> FailsLast(l.writes[id]) && (id in l.open ==> AllOk(l.writes[id]))
  }

  lemma OkWrites(ws: seq<Write>, f: Frame, outcome: WriteOutcome)
    requires AllOk(ws)
    ensures FailsLast(ws + WritesOf(f, outcome)) && FailsLast(ws)
    ensures !Encodable(f) || outcome.Written? ==> AllOk(ws + WritesOf(f, outcome))
  {
    var more := ws + WritesOf(f, outcome);
    assert forall i :: 0 <= i < |ws| ==> more[i] == ws[i];
  }

  lemma StrictCallsKeepReliable(l: Lines, c: Call)
    requires Valid(l) && Possible(l, c) && Reliable(l) && Strict(l, c)
    ensures Reliable(Take(l, c))
  {
    hide FailsLast, AllOk, AllValid;
    match c
    case Joined(_, before, _) => OkWrites(before, Frame(0, []), Written);
    case Gone(_) =>
    case Wrote(f, outcomes, _) =>
      forall id | id in l.writes && id in outcomes
        ensures FailsLast(l.writes[id] + WritesOf(f, outcomes[id]))
        ensures !Encodable(f) || outcomes[id].Written? ==> AllOk(l.writes[id] + WritesOf(f, outcomes[id]))
      {
        OkWrites(l.writes[id], f, outcomes[id]);
      }
  }

  lemma {:induction false} StrictRunsKeepReliable(l: Lines, run: seq<Call>)
    requires Valid(l) && Legal(l, run) && Reliable(l) && StrictRun(l, run)
    ensures Valid(After(l, run)) && Reliable(After(l, run))
    decreases |run|
  {
    hide Valid, Possible, Take, Reliable, Strict;
    if run != [] {
      TakeKeepsValid(l, run[0]);
      StrictCallsKeepReliable(l, run[0]);
      StrictRunsKeepReliable(Take(l, run[0]), run[1..]);
    }
  }

  /** The frames of the writes, whatever came of them. */
  function FramesOf(ws: seq<Write>): seq<Frame> {
    if ws == [] then [] else FramesOf(ws[..|ws| - 1]) + [ws[|ws| - 1].frame]
  }

  /** The frames reported as sent. */
  function Reported(ws: seq<Write>): seq<Frame> {
    if ws == [] then [] else Reported(ws[..|ws| - 1]) + if ws[|ws| - 1].ok then [ws[|ws| - 1].frame] else []
  }

  lemma {:induction false} ReportedIsAll(ws: seq<Write>)
    requires AllValid(ws) && AllOk(ws)
    ensures Reported(ws) == Delivered(ws) == FramesOf(ws) && Clean(ws)
    decreases |ws|
  {
    if ws != [] {
      var front, w := ws[..|ws| - 1], ws[|ws| - 1];
      ReportedIsAll(front);
      assert ws == front + [w];
      WireSnoc(front, w);
    }
  }

  /** What the failed write at the end, if there is one, left on the stream. */
  ghost function Leftover(ws: seq<Write>): seq<Byte>
    requires AllValid(ws)
  {
    if ws == [] || ws[|ws| - 1].ok then [] else ws[|ws| - 1].OnStream()
  }

  lemma WholeStream(fs: seq<Frame>, received: seq<Byte>)
    requires AllEncodable(fs) && received <= EncodeAll(fs)
    ensures FramesIn(received) <= fs
  {
    var rest := EncodeAll(fs)[|received|..];
    assert EncodeAll(fs) == received + rest && EncodeAll(fs) + [] == EncodeAll(fs);
    FramesInPrefix(received, rest);
    FramesInEncodings(fs, []);
    assert FramesIn([]) == [] && fs + [] == fs;
  }

  lemma LastHasFailed(ws: seq<Write>)
    requires AllValid(ws) && FailsLast(ws) && !AllOk(ws)
    ensures var front, w := ws[..|ws| - 1], ws[|ws| - 1];
            && !w.ok && Wire(ws) == Wire(front) + w.OnStream() && Leftover(ws) == w.OnStream()
            && Reported(ws) == Reported(front) && FramesOf(ws) == FramesOf(front) + [w.frame]
  {
    assert Reported(ws[..|ws| - 1]) + [] == Reported(ws[..|ws| - 1]);
  }

  /**
   The stream is the frames reported as sent, one after the other, and then at most part of
   one that was reported as failed, or that whole frame: any part of it that a receiver gets
   holds the first of the frames, in order, and no others.
   */
  lemma StreamOfWrites(ws: seq<Write>, received: seq<Byte>)
    requires AllValid(ws) && FailsLast(ws) && received <= Wire(ws)
    ensures AllEncodable(Reported(ws)) && Wire(ws) == EncodeAll(Reported(ws)) + Leftover(ws)
    ensures FramesIn(received) <= FramesOf(ws) && Reported(ws) <= FramesOf(ws) && |FramesOf(ws)| <= |Reported(ws)| + 1
  {
    if AllOk(ws) {
      ReportedIsAll(ws);
      CleanWire(ws);
      hide Encoding, EncodeAll, Wire, FramesIn;
      assert EncodeAll(Reported(ws)) + [] == EncodeAll(Reported(ws));
      WholeStream(Reported(ws), received);
    } else {
      var front, w := ws[..|ws| - 1], ws[|ws| - 1];
      ReportedIsAll(front);
      CleanWire(front);
      LastHasFailed(ws);
      assert w.OnStream() <= Encoding(w.frame);
      hide Encoding, EncodeAll, Wire, FramesIn, Reported, FramesOf, Leftover;
      NothingButSentFrames(Reported(front), w.frame, w.OnStream(), received);
    }
  }

  // ------------------------------------------------------------------
  // Which frames a session was given
  // ------------------------------------------------------------------

  /** The frames that a call gives to the session to send, those of its handshake included. */
  ghost function GivenBy(c: Call, id: SessionId): seq<Frame> {
    match c
    case Joined(newcomer, before, _) => if newcomer == id then FramesOf(before) else []
    case Wrote(f, outcomes, _) => if id in outcomes && Encodable(f) then [f] else []
    case Gone(_) => []
  }

  ghost function Given(run: seq<Call>, id: SessionId): seq<Frame> {
    if run == [] then [] else GivenBy(run[0], id) + Given(run[1..], id)
  }

  ghost function FramesOn(l: Lines, id: SessionId): seq<Frame> {
    if id in l.writes then FramesOf(l.writes[id]) else []
  }

  lemma FramesOfSnoc(ws: seq<Write>, w: Write)
    ensures FramesOf(ws + [w]) == FramesOf(ws) + [w.frame]
  {
    assert (ws + [w])[..|ws|] == ws;
  }

  lemma CallGives(l: Lines, c: Call, id: SessionId)
    requires Possible(l, c)
    ensures FramesOn(Take(l, c), id) == FramesOn(l, id) + GivenBy(c, id)
  {
    if c.Wrote? && id in c.outcomes && Encodable(c.frame) {
      FramesOfSnoc(l.writes[id], Attempt(c.frame, c.outcomes[id]));
    } else if c.Wrote? && id in c.outcomes {
      assert l.writes[id] + [] == l.writes[id];
    }
  }

  /** The frames on a session's stream are those the calls gave it, in their order. */
  lemma {:induction false} RunGives(l: Lines, run: seq<Call>, id: SessionId)
    requires Legal(l, run)
    ensures FramesOn(After(l, run), id) == FramesOn(l, id) + Given(run, id)
    decreases |run|
  {
    hide Possible, Take, FramesOn, GivenBy;
    if run != [] {
      CallGives(l, run[0], id);
      RunGives(Take(l, run[0]), run[1..], id);
    }
  }

  lemma FailsLastHasNoCut(ws: seq<Write>)
    requires AllValid(ws) && FailsLast(ws)
    ensures NothingAfterACut(ws)
  {
    forall i | 0 <= i < |ws| - 1
      ensures !ws[i].Torn()
    {
      assert ws[..|ws| - 1][i] == ws[i];
    }
  }

  /**
   Framing, over whole runs. Where every failed write ended its session, each stream is the
   frames reported as sent and then at most part of one that was not, or that frame; a
   receiver that has got any part of it has the first of the frames given to the session, in
   order, and no others; nothing ever followed a cut; and no registered session's stream is cut.
   */
  lemma StreamsOfStrictRuns(run: seq<Call>, id: SessionId, received: seq<Byte>)
    requires Legal(NO_LINES, run) && StrictRun(NO_LINES, run) && id in After(NO_LINES, run).writes
    requires AllValid(After(NO_LINES, run).writes[id]) && received <= Wire(After(NO_LINES, run).writes[id])
    ensures var l := After(NO_LINES, run); var ws := l.writes[id];
            && AllEncodable(Reported(ws)) && Wire(ws) == EncodeAll(Reported(ws)) + Leftover(ws)
            && FramesOf(ws) == Given(run, id) && Reported(ws) <= Given(run, id) && |Given(run, id)| <= |Reported(ws)| + 1
            && FramesIn(received) <= Given(run, id)
            && NothingAfterACut(ws)
            && (id in l.open ==> Clean(ws) && Reported(ws) == Given(run, id))
  {
    var l := After(NO_LINES, run);
    StrictRunsKeepReliable(NO_LINES, run);
    RunGives(NO_LINES, run, id);
    assert [] + Given(run, id) == Given(run, id);
    var ws := l.writes[id];
    assert FailsLast(ws) && (id in l.open ==> AllOk(ws));
    hide After, Legal, StrictRun, Given;
    StreamOfWrites(ws, received);
    FailsLastHasNoCut(ws);
    if AllOk(ws) {
      ReportedIsAll(ws);
    }
  }
}
