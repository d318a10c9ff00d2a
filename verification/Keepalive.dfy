/**
 Keepalive in time (heartbeat.rs, `tick`; session.rs, the two timestamps).

 Two ends of one connection run on one clock in milliseconds. Frames are sent at once and
 arrive in order. A run is timed: each end ticks at most `period` apart, a frame waits for
 delivery at most `delay` once the receiver exists, and the two sessions are created at most
 `skew` apart.
 */
module Keepalive {

  function SaturatingSub(a: nat, b: nat): nat {
    if a >= b then a - b else 0
  }

  datatype Decision = Reap | Rest | Probe

  /** One round of `tick` for one session with probing configured: idle first, then the probe. */
  function TickDecision(now: nat, lastRecv: nat, lastSend: nat, idleTimeout: nat, interval: nat): Decision {
    if SaturatingSub(now, lastRecv) > idleTimeout then Reap
    else if SaturatingSub(now, lastSend) < interval then Rest
    else Probe
  }

  datatype Side = Left | Right

  function Other(x: Side): Side {
    if x.Left? then Right else Left
  }

  /** Each end's heartbeat interval and idle timeout, and the timing of the run. */
  datatype Timing = Timing(
    leftInterval: nat, rightInterval: nat,
    leftIdle: nat, rightIdle: nat,
    period: nat, delay: nat, skew: nat)

  function Interval(p: Timing, x: Side): nat {
    if x.Left? then p.leftInterval else p.rightInterval
  }

  function IdleTimeout(p: Timing, x: Side): nat {
    if x.Left? then p.leftIdle else p.rightIdle
  }

  /** One end, and the send times of the frames it has on the way. */
  datatype End =
    | Absent
    | End(created: nat, lastSend: nat, lastRecv: nat, lastTick: nat, open: bool, onTheWay: seq<nat>)

  datatype World = World(now: nat, left: End, right: End)

  function At(w: World, x: Side): End {
    if x.Left? then w.left else w.right
  }

  function With(w: World, x: Side, e: End): World {
    if x.Left? then w.(left := e) else w.(right := e)
  }

  datatype Event =
    | Create(x: Side)
    | Tick(x: Side)
    | SendFrame(x: Side)      // any other frame, a keepalive reply included
    | Arrive(x: Side)         // the oldest frame sent by `x` is read at the other end
    | Pass(until: nat)

  function Max(a: nat, b: nat): nat {
    if a >= b then a else b
  }

  /** Time passes only as far as the timing of the run lets it. */
  ghost predicate MayPass(p: Timing, w: World, x: Side, until: nat) {
    var e, o := At(w, x), At(w, Other(x));
    && (e.End? && e.open ==> until <= e.lastTick + p.period)
    && (e.End? && o.End? && e.onTheWay != [] ==> until <= Max(e.onTheWay[0], o.created) + p.delay)
    && (e.End? && o.Absent? ==> until <= e.created + p.skew)
  }

  ghost predicate Enabled(p: Timing, w: World, ev: Event) {
    match ev
    case Create(x) => At(w, x).Absent?
    case Tick(x) => At(w, x).End? && At(w, x).open
    case SendFrame(x) => At(w, x).End? && At(w, x).open
    case Arrive(x) => At(w, x).End? && At(w, x).onTheWay != [] && At(w, Other(x)).End? && At(w, Other(x)).open
    case Pass(until) => until >= w.now && MayPass(p, w, Left, until) && MayPass(p, w, Right, until)
  }

  function Sent(e: End, now: nat): End
    requires e.End?
  {
    e.(lastSend := now, onTheWay := e.onTheWay + [now])
  }

  ghost function Happen(p: Timing, w: World, ev: Event): World
    requires Enabled(p, w, ev)
  {
    match ev
    case Create(x) => With(w, x, End(w.now, w.now, w.now, w.now, true, []))
    case Tick(x) => (
      var e := At(w, x).(lastTick := w.now);
      match TickDecision(w.now, e.lastRecv, e.lastSend, IdleTimeout(p, x), Interval(p, x))
      case Reap => With(w, x, e.(open := false))
      case Rest => With(w, x, e)
      case Probe => With(w, x, Sent(e, w.now)))
    case SendFrame(x) => With(w, x, Sent(At(w, x), w.now))
    case Arrive(x) =>
      var w' := With(w, x, At(w, x).(onTheWay := At(w, x).onTheWay[1..]));
      With(w', Other(x), At(w', Other(x)).(lastRecv := w.now))
    case Pass(until) => w.(now := until)
  }

  const DAWN := World(0, Absent, Absent)

  ghost predicate Legal(p: Timing, w: World, run: seq<Event>)
    decreases |run|
  {
    run == [] || (Enabled(p, w, run[0]) && Legal(p, Happen(p, w, run[0]), run[1..]))
  }

  ghost function After(p: Timing, w: World, run: seq<Event>): World
    requires Legal(p, w, run)
    decreases |run|
  {
    if run == [] then w else After(p, Happen(p, w, run[0]), run[1..])
  }

  // ------------------------------------------------------------------
  // What holds while both ends are open
  // ------------------------------------------------------------------

  /** How long after a send a tick can still find nothing to do. */
  function Quiet(p: Timing, x: Side): nat {
    if Interval(p, x) == 0 then 0 else Interval(p, x) - 1
  }

  /** The longest silence of an end that ticks on time: a tick just short of the interval, and then a whole period. */
  function Gap(p: Timing, x: Side): nat {
    Quiet(p, x) + p.period
  }

  /** An end ticks on time and has sent something less than a gap ago; what is on the way was sent in order, gap by gap. */
  ghost predicate Punctual(p: Timing, now: nat, x: Side, e: End) {
    e.End? ==>
      && e.created <= e.lastSend <= now && e.created <= e.lastRecv <= now && e.created <= e.lastTick <= now
      && now <= e.lastTick + p.period
      && e.lastTick <= e.lastSend + Quiet(p, x)
      && (forall i :: 0 <= i < |e.onTheWay| ==> e.onTheWay[i] <= now)
      && (forall i :: 0 <= i < |e.onTheWay| - 1 ==> e.onTheWay[i] <= e.onTheWay[i + 1] <= e.onTheWay[i] + Gap(p, x))
      && (e.onTheWay != [] ==> e.onTheWay[|e.onTheWay| - 1] == e.lastSend)
  }

  /** What an end sent last has been read at the other, or the oldest frame on the way is not late. */
  ghost predicate InTouch(p: Timing, now: nat, x: Side, e: End, o: End) {
    && (e.End? && o.End? && e.onTheWay == [] ==> e.lastSend <= o.lastRecv + p.skew)
    && (e.End? && o.End? && e.onTheWay != [] ==>
          e.onTheWay[0] <= o.lastRecv + p.skew + Gap(p, x) && now <= Max(e.onTheWay[0], o.created) + p.delay)
    && (e.End? && o.Absent? ==> now <= e.created + p.skew)
  }

  ghost predicate BothOpen(w: World) {
    (w.left.End? ==> w.left.open) && (w.right.End? ==> w.right.open)
  }

  ghost predicate Direction(p: Timing, w: World, x: Side) {
    Punctual(p, w.now, x, At(w, x)) && InTouch(p, w.now, x, At(w, x), At(w, Other(x)))
  }

  ghost predicate Inv(p: Timing, w: World) {
    BothOpen(w) ==> Direction(p, w, Left) && Direction(p, w, Right)
  }

  /** The silence an end can see. */
  function Bound(p: Timing, x: Side): nat {
    Gap(p, Other(x)) + p.delay + p.skew
  }

  lemma IdleIsBounded(p: Timing, w: World, x: Side)
    requires Inv(p, w) && BothOpen(w) && At(w, x).End?
    ensures SaturatingSub(w.now, At(w, x).lastRecv) <= Bound(p, x)
  {
  }

  lemma SendKeepsPunctual(p: Timing, now: nat, x: Side, e: End, o: End)
    requires Punctual(p, now, x, e) && InTouch(p, now, x, e, o) && e.End?
    requires now <= e.lastSend + Gap(p, x)
    ensures Punctual(p, now, x, Sent(e, now)) && InTouch(p, now, x, Sent(e, now), o)
  {
  }

  lemma ArriveKeepsTouch(p: Timing, now: nat, x: Side, e: End, o: End)
    requires Punctual(p, now, x, e) && InTouch(p, now, x, e, o) && e.End? && o.End? && e.onTheWay != []
    requires o.created <= now
    ensures Punctual(p, now, x, e.(onTheWay := e.onTheWay[1..]))
    ensures InTouch(p, now, x, e.(onTheWay := e.onTheWay[1..]), o.(lastRecv := now))
  {
    var rest := e.onTheWay[1..];
    assert forall i :: 0 <= i < |rest| ==> rest[i] == e.onTheWay[i + 1];
  }

  /** A direction does not depend on what its receiver sends or when it ticks. */
  lemma ReceiverMaySend(p: Timing, w: World, x: Side, o: End)
    requires Direction(p, w, x) && At(w, Other(x)).End? && o.End?
    requires o.lastRecv == At(w, Other(x)).lastRecv && o.created == At(w, Other(x)).created
    ensures Direction(p, With(w, Other(x), o), x)
  {
  }

  lemma CreateKeepsDirections(p: Timing, w: World, x: Side)
    requires Direction(p, w, x) && Direction(p, w, Other(x)) && Enabled(p, w, Create(x))
    ensures Direction(p, Happen(p, w, Create(x)), x) && Direction(p, Happen(p, w, Create(x)), Other(x))
  {
  }

  lemma SendKeepsDirections(p: Timing, w: World, x: Side)
    requires Direction(p, w, x) && Direction(p, w, Other(x)) && Enabled(p, w, SendFrame(x))
    ensures Direction(p, Happen(p, w, SendFrame(x)), x) && Direction(p, Happen(p, w, SendFrame(x)), Other(x))
  {
    ReceiverMaySend(p, w, Other(x), Sent(At(w, x), w.now));
    SendKeepsPunctual(p, w.now, x, At(w, x), At(w, Other(x)));
  }

  lemma ArriveKeepsDirections(p: Timing, w: World, x: Side)
    requires Direction(p, w, x) && Direction(p, w, Other(x)) && Enabled(p, w, Arrive(x))
    ensures Direction(p, Happen(p, w, Arrive(x)), x) && Direction(p, Happen(p, w, Arrive(x)), Other(x))
  {
    ArriveKeepsTouch(p, w.now, x, At(w, x), At(w, Other(x)));
  }

  lemma TickOnTime(p: Timing, now: nat, x: Side, e: End, o: End)
    requires Punctual(p, now, x, e) && InTouch(p, now, x, e, o) && e.End? && now <= e.lastSend + Quiet(p, x)
    ensures Punctual(p, now, x, e.(lastTick := now)) && InTouch(p, now, x, e.(lastTick := now), o)
  {
  }

  lemma TickKeepsOwn(p: Timing, w: World, x: Side)
    requires Direction(p, w, x) && Enabled(p, w, Tick(x)) && At(Happen(p, w, Tick(x)), x).open
    ensures Direction(p, Happen(p, w, Tick(x)), x)
  {
    var e, o, now := At(w, x), At(w, Other(x)), w.now;
    if TickDecision(now, e.lastRecv, e.lastSend, IdleTimeout(p, x), Interval(p, x)) == Probe {
      assert now <= e.lastSend + Gap(p, x);
      SendKeepsPunctual(p, now, x, e, o);
      hide Punctual, InTouch;
      TickOnTime(p, now, x, Sent(e, now), o);
    } else {
      hide Punctual, InTouch;
      TickOnTime(p, now, x, e, o);
    }
  }

  /** A tick that does not reap leaves less than an interval since the last send. */
  lemma TickKeepsDirections(p: Timing, w: World, x: Side)
    requires Direction(p, w, x) && Direction(p, w, Other(x)) && Enabled(p, w, Tick(x))
    requires At(Happen(p, w, Tick(x)), x).open
    ensures Direction(p, Happen(p, w, Tick(x)), x) && Direction(p, Happen(p, w, Tick(x)), Other(x))
  {
    hide Direction;
    TickKeepsOwn(p, w, x);
    ReceiverMaySend(p, w, Other(x), At(Happen(p, w, Tick(x)), x));
  }

  lemma PassOnTime(p: Timing, w: World, until: nat, x: Side)
    requires Punctual(p, w.now, x, At(w, x)) && InTouch(p, w.now, x, At(w, x), At(w, Other(x)))
    requires w.now <= until && MayPass(p, w, x, until) && (At(w, x).End? ==> At(w, x).open)
    ensures Punctual(p, until, x, At(w, x)) && InTouch(p, until, x, At(w, x), At(w, Other(x)))
  {
  }

  lemma PassKeepsDirection(p: Timing, w: World, until: nat, x: Side)
    requires Direction(p, w, x) && Enabled(p, w, Pass(until)) && BothOpen(w)
    ensures Direction(p, Happen(p, w, Pass(until)), x)
  {
    hide Punctual, InTouch;
    assert MayPass(p, w, x, until);
    PassOnTime(p, w, until, x);
  }

  lemma EventKeepsInv(p: Timing, w: World, ev: Event)
    requires Inv(p, w) && Enabled(p, w, ev)
    ensures Inv(p, Happen(p, w, ev))
  {
    hide Direction, MayPass;
    if BothOpen(Happen(p, w, ev)) {
      match ev
      case Create(x) => CreateKeepsDirections(p, w, x);
      case Tick(x) => TickKeepsDirections(p, w, x);
      case SendFrame(x) => SendKeepsDirections(p, w, x);
      case Arrive(x) => ArriveKeepsDirections(p, w, x);
      case Pass(until) =>
        PassKeepsDirection(p, w, until, Left);
        PassKeepsDirection(p, w, until, Right);
    }
  }

  lemma {:induction false} RunKeepsInv(p: Timing, w: World, run: seq<Event>)
    requires Inv(p, w) && Legal(p, w, run)
    ensures Inv(p, After(p, w, run))
    decreases |run|
  {
    if run != [] {
      EventKeepsInv(p, w, run[0]);
      RunKeepsInv(p, Happen(p, w, run[0]), run[1..]);
    }
  }

  /** In every timed run, as long as neither end has reaped, an end has heard from the other within the bound. */
  lemma IdleNeverExceedsBound(p: Timing, run: seq<Event>, x: Side)
    requires Legal(p, DAWN, run) && BothOpen(After(p, DAWN, run)) && At(After(p, DAWN, run), x).End?
    ensures SaturatingSub(After(p, DAWN, run).now, At(After(p, DAWN, run), x).lastRecv) <= Bound(p, x)
  {
    RunKeepsInv(p, DAWN, run);
    IdleIsBounded(p, After(p, DAWN, run), x);
  }

  lemma {:induction false} OpenStaysOpen(p: Timing, w: World, run: seq<Event>)
    requires Inv(p, w) && BothOpen(w) && Legal(p, w, run)
    requires p.leftIdle >= Bound(p, Left) && p.rightIdle >= Bound(p, Right)
    ensures BothOpen(After(p, w, run))
    decreases |run|
  {
    if run != [] {
      EventKeepsInv(p, w, run[0]);
      if run[0].Tick? {
        IdleIsBounded(p, w, run[0].x);
      }
      OpenStaysOpen(p, Happen(p, w, run[0]), run[1..]);
    }
  }

  // ------------------------------------------------------------------
  // The bound is attained
  // ------------------------------------------------------------------

  lemma {:induction false} RunsJoin(p: Timing, w: World, run: seq<Event>, next: seq<Event>)
    requires Legal(p, w, run) && Legal(p, After(p, w, run), next)
    ensures Legal(p, w, run + next) && After(p, w, run + next) == After(p, After(p, w, run), next)
    decreases |run|
  {
    hide Enabled, Happen;
    if run == [] {
      assert run + next == next;
    } else {
      RunsJoin(p, Happen(p, w, run[0]), run[1..], next);
      assert (run + next)[0] == run[0] && (run + next)[1..] == run[1..] + next;
    }
  }

  lemma OneEvent(p: Timing, w: World, ev: Event)
    requires Enabled(p, w, ev)
    ensures Legal(p, w, [ev]) && After(p, w, [ev]) == Happen(p, w, ev)
  {
    hide Enabled, Happen;
    assert Legal(p, Happen(p, w, ev), [ev][1..]);
  }

  /** Some timed run leads from one world to the other. */
  ghost predicate Leads(p: Timing, w: World, w': World) {
    exists run :: Legal(p, w, run) && After(p, w, run) == w'
  }

  lemma LeadsOn(p: Timing, w: World, mid: World, ev: Event)
    requires Leads(p, w, mid) && Enabled(p, mid, ev)
    ensures Leads(p, w, Happen(p, mid, ev))
  {
    hide Enabled, Happen;
    var run :| Legal(p, w, run) && After(p, w, run) == mid;
    OneEvent(p, mid, ev);
    RunsJoin(p, w, run, [ev]);
  }

  ghost predicate Reaped(w: World, y: Side) {
    At(w, y).End? && !At(w, y).open
  }

  /** End `y`, created at time 0, has heard nothing and ticks every millisecond. */
  ghost predicate Waiting(w: World, y: Side) {
    var e := At(w, y);
    e.End? && e.open && e.created == 0 && e.lastRecv == 0 && e.lastTick == w.now
  }

  lemma WaitAlone(p: Timing, y: Side, w: World) returns (w': World)
    requires p.period >= 1 && Leads(p, DAWN, w) && Waiting(w, y) && At(w, Other(y)).Absent? && w.now <= p.skew
    ensures Leads(p, DAWN, w') && (Reaped(w', y) || (Waiting(w', y) && At(w', Other(y)).Absent? && w'.now == p.skew))
    decreases p.skew - w.now
  {
    w' := w;
    if w.now < p.skew {
      hide Leads;
      LeadsOn(p, DAWN, w, Pass(w.now + 1));
      var w1 := Happen(p, w, Pass(w.now + 1));
      LeadsOn(p, DAWN, w1, Tick(y));
      w' := Happen(p, w1, Tick(y));
      if !Reaped(w', y) {
        w' := WaitAlone(p, y, w');
      }
    }
  }

  /** Everything `y` has on the way is read at the other end at once. */
  lemma ReadAll(p: Timing, y: Side, w: World) returns (w': World)
    requires Leads(p, DAWN, w) && At(w, y).End? && At(w, Other(y)).End? && At(w, Other(y)).open
    ensures Leads(p, DAWN, w')
    ensures At(w', y) == At(w, y).(onTheWay := []) && w'.now == w.now
    ensures At(w', Other(y)) == if At(w, y).onTheWay == [] then At(w, Other(y)) else At(w, Other(y)).(lastRecv := w.now)
    decreases |At(w, y).onTheWay|
  {
    w' := w;
    if At(w, y).onTheWay != [] {
      hide Leads;
      LeadsOn(p, DAWN, w, Arrive(y));
      w' := ReadAll(p, y, Happen(p, w, Arrive(y)));
    }
  }

  /** The other end, as late and as silent as the timing allows, with its first frame held back. */
  ghost predicate Silent(p: Timing, now: nat, x: Side, e: End) {
    && e.End? && e.open && e.created == p.skew <= now && e.lastRecv == now
    && var quietTill := p.skew + Quiet(p, x);
    if now < quietTill + p.period then
      e.lastSend == p.skew && e.onTheWay == [] && e.lastTick == if now <= quietTill then now else quietTill
    else
      e.lastTick == now && e.lastSend <= now && e.onTheWay != [] && e.onTheWay[0] == quietTill + p.period
  }

  /** `y` ticks, and everything it says is read at once. */
  lemma TickAndBeRead(p: Timing, y: Side, w: World) returns (w': World)
    requires Leads(p, DAWN, w) && At(w, y).End? && At(w, y).open && At(w, y).onTheWay == []
    requires At(w, Other(y)).End? && At(w, Other(y)).open
    ensures Leads(p, DAWN, w') && w'.now == w.now
    ensures Reaped(w', y) <==> SaturatingSub(w.now, At(w, y).lastRecv) > IdleTimeout(p, y)
    ensures !Reaped(w', y) ==>
              && At(w', y).End? && At(w', y).open && At(w', y).onTheWay == [] && At(w', y).lastTick == w.now
              && At(w', y).lastRecv == At(w, y).lastRecv && At(w', y).created == At(w, y).created
              && At(w', Other(y)) == At(w, Other(y)).(lastRecv := w.now)
  {
    hide Leads;
    LeadsOn(p, DAWN, w, Tick(y));
    var w1 := Happen(p, w, Tick(y));
    w' := w1;
    if !Reaped(w1, y) {
      LeadsOn(p, DAWN, w1, SendFrame(y));
      w' := ReadAll(p, y, Happen(p, w1, SendFrame(y)));
    }
  }

  /** One more millisecond of silence. */
  lemma WaitOn(p: Timing, y: Side, w: World) returns (w': World)
    requires p.period >= 1 && Leads(p, DAWN, w)
    requires Waiting(w, y) && At(w, y).onTheWay == [] && Silent(p, w.now, Other(y), At(w, Other(y)))
    requires w.now < Bound(p, y)
    ensures Leads(p, DAWN, w')
    ensures Reaped(w', y) || (w'.now == w.now + 1 && w'.now <= IdleTimeout(p, y)
                              && Waiting(w', y) && At(w', y).onTheWay == [] && Silent(p, w'.now, Other(y), At(w', Other(y))))
  {
    var x, t := Other(y), w.now + 1;
    assert Enabled(p, w, Pass(t));
    var w1 := Happen(p, w, Pass(t));
    LeadsOn(p, DAWN, w, Pass(t));
    var w2 := TickAndBeRead(p, y, w1);
    w' := w2;
    if !Reaped(w2, y) && (t <= p.skew + Quiet(p, x) || t >= p.skew + Quiet(p, x) + p.period) {
      LeadsOn(p, DAWN, w2, Tick(x));
      w' := Happen(p, w2, Tick(x));
    }
  }

  lemma WaitUntilReaped(p: Timing, y: Side, w: World) returns (w': World)
    requires p.period >= 1 && Leads(p, DAWN, w) && IdleTimeout(p, y) < Bound(p, y)
    requires Waiting(w, y) && At(w, y).onTheWay == [] && Silent(p, w.now, Other(y), At(w, Other(y)))
    requires w.now < Bound(p, y)
    ensures Leads(p, DAWN, w') && Reaped(w', y)
    decreases Bound(p, y) - w.now
  {
    hide Leads, Silent;
    w' := WaitOn(p, y, w);
    if !Reaped(w', y) {
      w' := WaitUntilReaped(p, y, w');
    }
  }

  /** With a smaller idle timeout a live and punctual peer is reaped in some timed run. */
  lemma SmallerTimeoutReapsALivePeer(p: Timing, y: Side)
    requires p.period >= 1 && IdleTimeout(p, y) < Bound(p, y)
    ensures exists run :: Legal(p, DAWN, run) && Reaped(After(p, DAWN, run), y)
  {
    assert Legal(p, DAWN, []) && After(p, DAWN, []) == DAWN;
    LeadsOn(p, DAWN, DAWN, Create(y));
    var w := WaitAlone(p, y, Happen(p, DAWN, Create(y)));
    if !Reaped(w, y) {
      LeadsOn(p, DAWN, w, Create(Other(y)));
      w := ReadAll(p, y, Happen(p, w, Create(Other(y))));
      w := WaitUntilReaped(p, y, w);
    }
  }

  /** With idle timeouts of at least the bound, `tick` never reaps a live session, at either end, in any timed run. */
  lemma LiveSessionsAreNeverReaped(p: Timing, run: seq<Event>)
    requires p.leftIdle >= Bound(p, Left) && p.rightIdle >= Bound(p, Right)
    requires Legal(p, DAWN, run)
    ensures BothOpen(After(p, DAWN, run))
  {
    OpenStaysOpen(p, DAWN, run);
  }

  /** Exactly those timeouts are safe: no timed run reaps an end if and only if each timeout reaches the bound. */
  lemma TimeoutsAreSafeExactlyFromTheBound(p: Timing)
    requires p.period >= 1
    ensures (forall run :: Legal(p, DAWN, run) ==> BothOpen(After(p, DAWN, run)))
            <==> p.leftIdle >= Bound(p, Left) && p.rightIdle >= Bound(p, Right)
  {
    if p.leftIdle >= Bound(p, Left) && p.rightIdle >= Bound(p, Right) {
      forall run | Legal(p, DAWN, run)
        ensures BothOpen(After(p, DAWN, run))
      {
        LiveSessionsAreNeverReaped(p, run);
      }
    } else {
      SmallerTimeoutReapsALivePeer(p, if p.leftIdle < Bound(p, Left) then Left else Right);
    }
  }
}
