/** The WebSocket keepalive as a timed state machine: a ticker whose channel holds one tick, a ping bounded by a
    timeout, and a context that may be cancelled. Computation takes no time; only waiting does. */
module Keepalive {
  import opened Prelude

  const INTERVAL: real := 25.0
  const TIMEOUT: real := 10.0

  /** Where the loop is: in select, in Ping, or returned. Both ends handle control frames on their read path. The
      ping reaches the remote end at `arrives` and is answered only if that end reads then; the answer reaches the
      local end at `pong`, and is taken in only if this end reads. */
  datatype Phase = Selecting | Pinging(start: real, arrives: real, pong: Option<real>) | Returned

  datatype Clock = Clock(
    interval: real,
    timeout: real,
    now: real,
    nextTick: real,
    buffered: bool,
    phase: Phase,
    lastStart: real,
    localReads: bool,
    remoteReads: bool,
    cancelledAt: Option<real>,
    pingsAfterCancel: nat,
    closed: bool)

  predicate Positive(interval: real, timeout: real) {
    interval > 0.0 && timeout > 0.0
  }

  function NewClock(interval: real, timeout: real): Clock {
    Clock(interval, timeout, 0.0, interval, false, Selecting, 0.0, true, true, None, 0, false)
  }

  datatype Act =
    | Delay(d: real)
    | Tick
    | StartPing(leg: real)
    | Answer(leg: real)
    | Pong
    | TimeOut
    | Cancel
    | SeeCancel            // select picks ctx.Done
    | PingCancelled        // Ping returns because its context was cancelled
    | StopReading(local: bool)

  predicate BothRead(c: Clock) {
    c.localReads && c.remoteReads
  }

  /** Time may pass up to the next thing that is due, and not while the loop has something to do. */
  predicate MayWait(c: Clock, until: real) {
    match c.phase
    case Selecting => until <= c.nextTick && !c.buffered && c.cancelledAt.None?
    case Pinging(start, arrives, pong) =>
      && until <= c.nextTick && until <= start + c.timeout && c.cancelledAt.None?
      && (pong.None? && c.remoteReads ==> until <= arrives)
      && (pong.Some? && c.localReads ==> until <= pong.value)
    case Returned => true
  }

  predicate Enabled(c: Clock, a: Act) {
    match a
    case Delay(d) => d > 0.0 && MayWait(c, c.now + d)
    case Tick => !c.phase.Returned? && c.now == c.nextTick
    case StartPing(leg) => c.phase.Selecting? && c.buffered && leg >= 0.0
    case Answer(leg) =>
      c.phase.Pinging? && c.phase.pong.None? && c.remoteReads && c.now >= c.phase.arrives && leg >= 0.0
    // a ping begun under a cancelled context takes no answer in
    case Pong =>
      && c.phase.Pinging? && c.phase.pong.Some? && c.localReads && c.now >= c.phase.pong.value
      && c.pingsAfterCancel == 0
    case TimeOut => c.phase.Pinging? && c.now == c.phase.start + c.timeout
    case Cancel => c.cancelledAt.None?
    case SeeCancel => c.phase.Selecting? && c.cancelledAt.Some?
    case PingCancelled => c.phase.Pinging? && c.cancelledAt.Some?
    case StopReading(_) => true
  }

  function Next(c: Clock, a: Act): Clock
    requires Enabled(c, a)
  {
    match a
    case Delay(d) => c.(now := c.now + d)
    case Tick => c.(buffered := true, nextTick := c.nextTick + c.interval)
    case StartPing(leg) =>
      c.(buffered := false, phase := Pinging(c.now, c.now + leg, None), lastStart := c.now,
         pingsAfterCancel := c.pingsAfterCancel + if c.cancelledAt.Some? then 1 else 0)
    case Answer(leg) => c.(phase := c.phase.(pong := Some(c.now + leg)))
    case Pong => c.(phase := Selecting)
    case TimeOut => c.(phase := Returned, closed := true)
    case Cancel => c.(cancelledAt := Some(c.now))
    case SeeCancel => c.(phase := Returned)
    case PingCancelled => c.(phase := Returned, closed := true)
    case StopReading(local) => if local then c.(localReads := false) else c.(remoteReads := false)
  }

  ghost predicate ValidRun(c: Clock, acts: seq<Act>)
    decreases |acts|
  {
    acts == [] || (Enabled(c, acts[0]) && ValidRun(Next(c, acts[0]), acts[1..]))
  }

  function Run(c: Clock, acts: seq<Act>): Clock
    requires ValidRun(c, acts)
    decreases |acts|
  {
    if acts == [] then c else Run(Next(c, acts[0]), acts[1..])
  }

  /** What the ticker and the loop keep. */
  predicate Inv(c: Clock) {
    && Positive(c.interval, c.timeout)
    && 0.0 <= c.lastStart <= c.now
    && (!c.phase.Returned? ==> c.now <= c.nextTick <= c.now + c.interval)
    && (c.phase.Pinging? ==>
      && c.phase.start == c.lastStart <= c.phase.arrives && c.now <= c.phase.start + c.timeout
      && (!c.buffered ==> c.nextTick <= c.phase.start + c.interval)
      && (c.phase.pong.None? && c.remoteReads ==> c.now <= c.phase.arrives)
      && (c.phase.pong.Some? && c.localReads ==> c.now <= c.phase.pong.value))
    && (c.cancelledAt.Some? && !c.phase.Returned? ==> c.now == c.cancelledAt.value)
    && c.pingsAfterCancel <= (if c.phase.Selecting? then 0 else 1)
    && (c.pingsAfterCancel > 0 ==> c.cancelledAt.Some?)
    && (c.closed ==> c.phase.Returned?)
    && (c.phase.Returned? && c.cancelledAt.None? ==> c.closed)
  }

  // ---------------------------------------------------------------- detection

  /** No pong is taken in later than tau. */
  ghost predicate SilentAfter(c: Clock, acts: seq<Act>, tau: real)
    requires ValidRun(c, acts)
    decreases |acts|
  {
    acts == [] || ((acts[0].Pong? ==> c.now <= tau) && SilentAfter(Next(c, acts[0]), acts[1..], tau))
  }

  /** With the peer silent since tau, the ping that will go unanswered starts by tau + interval. */
  predicate OnTrack(c: Clock, tau: real) {
    && (c.phase.Selecting? && !c.buffered && c.now > tau ==> c.nextTick <= tau + c.interval)
    && (c.phase.Selecting? && c.buffered ==> c.now <= tau + c.interval)
    && (c.phase.Pinging? ==> c.phase.start <= tau + c.interval)
  }

  lemma StepKept(c: Clock, a: Act)
    requires Inv(c) && Enabled(c, a)
    ensures Inv(Next(c, a))
    ensures Next(c, a).interval == c.interval && Next(c, a).timeout == c.timeout
  {
    hide MayWait;
    if a.Delay? {
      DelayKept(c, a.d);
    }
  }

  lemma DelayKept(c: Clock, d: real)
    requires Inv(c) && Enabled(c, Delay(d))
    ensures Inv(Next(c, Delay(d)))
  {
  }

  lemma TrackStep(c: Clock, a: Act, tau: real)
    requires Inv(c) && Enabled(c, a) && (a.Pong? ==> c.now <= tau) && OnTrack(c, tau)
    ensures OnTrack(Next(c, a), tau)
  {
  }

  lemma {:induction false} RunKept(c: Clock, acts: seq<Act>, tau: real)
    requires Inv(c) && OnTrack(c, tau) && ValidRun(c, acts) && SilentAfter(c, acts, tau)
    ensures Inv(Run(c, acts)) && OnTrack(Run(c, acts), tau)
    ensures Run(c, acts).interval == c.interval && Run(c, acts).timeout == c.timeout
    decreases |acts|
  {
    if acts != [] {
      StepKept(c, acts[0]);
      TrackStep(c, acts[0], tau);
      hide Inv, OnTrack, Next, Enabled;
      RunKept(Next(c, acts[0]), acts[1..], tau);
    }
  }

  /** The detection bound: for every interval and timeout, a peer silent since tau has its connection closed by
      tau + interval + timeout, unless the tunnel was cancelled first. */
  lemma DetectionBound(interval: real, timeout: real, acts: seq<Act>, tau: real)
    requires Positive(interval, timeout) && tau >= 0.0
    requires ValidRun(NewClock(interval, timeout), acts) && SilentAfter(NewClock(interval, timeout), acts, tau)
    ensures var c := Run(NewClock(interval, timeout), acts);
      c.now > tau + interval + timeout ==> c.closed || c.cancelledAt.Some?
  {
    RunKept(NewClock(interval, timeout), acts, tau);
  }

  /** From c, with no pong taken in later than tau, the loop can still be pinging at the given time, its timeout due
      only then. */
  ghost predicate DueOnlyAt(c: Clock, tau: real, at: real) {
    exists acts ::
      && ValidRun(c, acts) && SilentAfter(c, acts, tau)
      && Run(c, acts).now == at && !Run(c, acts).closed && Enabled(Run(c, acts), TimeOut)
  }

  lemma DueBy(c: Clock, a: Act, tau: real, at: real)
    requires Enabled(c, a) && (a.Pong? ==> c.now <= tau) && DueOnlyAt(Next(c, a), tau, at)
    ensures DueOnlyAt(c, tau, at)
  {
    var acts :| ValidRun(Next(c, a), acts) && SilentAfter(Next(c, a), acts, tau)
      && Run(Next(c, a), acts).now == at && !Run(Next(c, a), acts).closed && Enabled(Run(Next(c, a), acts), TimeOut);
    hide Enabled, Next;
    assert ([a] + acts)[1..] == acts;
    assert ValidRun(c, [a] + acts) && SilentAfter(c, [a] + acts, tau) && Run(c, [a] + acts) == Run(Next(c, a), acts);
  }

  /** The constants: 35 seconds, and no less. A peer that answers the first ping and then falls silent can still be
      connected 35 seconds later, with the close due at that moment. */
  lemma ThirtyFiveSecondsIsTight()
    ensures INTERVAL + TIMEOUT == 35.0
    ensures DueOnlyAt(NewClock(INTERVAL, TIMEOUT), INTERVAL, INTERVAL + 35.0)
  {
    hide DueOnlyAt, ValidRun, SilentAfter, Run;
    var c0 := NewClock(INTERVAL, TIMEOUT);
    var c1 := Next(c0, Delay(INTERVAL));
    var c2 := Next(c1, Tick);
    FirstRound(c2);
    DueBy(c1, Tick, INTERVAL, INTERVAL + 35.0);
    DueBy(c0, Delay(INTERVAL), INTERVAL, INTERVAL + 35.0);
  }

  lemma FirstRound(c: Clock)
    requires c == NewClock(INTERVAL, TIMEOUT).(now := INTERVAL, nextTick := 50.0, buffered := true)
    ensures DueOnlyAt(c, INTERVAL, INTERVAL + 35.0)
  {
    hide DueOnlyAt, ValidRun, SilentAfter, Run;
    var c1 := Next(c, StartPing(0.0));
    var c2 := Next(c1, Answer(0.0));
    var c3 := Next(c2, Pong);
    SecondRound(c3);
    DueBy(c2, Pong, INTERVAL, INTERVAL + 35.0);
    DueBy(c1, Answer(0.0), INTERVAL, INTERVAL + 35.0);
    DueBy(c, StartPing(0.0), INTERVAL, INTERVAL + 35.0);
  }

  lemma SecondRound(c: Clock)
    requires c == NewClock(INTERVAL, TIMEOUT).(now := INTERVAL, nextTick := 50.0, lastStart := INTERVAL)
    ensures DueOnlyAt(c, INTERVAL, INTERVAL + 35.0)
  {
    hide DueOnlyAt, ValidRun, SilentAfter, Run;
    var c1 := Next(c, Delay(INTERVAL));
    var c2 := Next(c1, Tick);
    var c3 := Next(c2, StartPing(0.0));
    var c4 := Next(c3, StopReading(false));
    var c5 := Next(c4, Delay(TIMEOUT));
    assert c5.now == INTERVAL + 35.0 && !c5.closed && Enabled(c5, TimeOut);
    var at := INTERVAL + 35.0;
    AtEnd(c5, at);
    hide Next, Enabled;
    DueBy(c4, Delay(TIMEOUT), INTERVAL, at);
    DueBy(c3, StopReading(false), INTERVAL, at);
    DueBy(c2, StartPing(0.0), INTERVAL, at);
    DueBy(c1, Tick, INTERVAL, at);
    DueBy(c, Delay(INTERVAL), INTERVAL, at);
  }

  lemma AtEnd(c: Clock, at: real)
    requires c.now == at && !c.closed && Enabled(c, TimeOut)
    ensures DueOnlyAt(c, INTERVAL, at)
  {
    assert ValidRun(c, []) && SilentAfter(c, [], INTERVAL) && Run(c, []) == c;
  }

  // ---------------------------------------------------------------- time goes on

  /** Nothing but the loop, the ticker and the peer's control frames. */
  ghost predicate Unprompted(acts: seq<Act>) {
    forall a :: a in acts ==> !a.StopReading? && !a.Cancel?
  }

  ghost predicate Reaches(c: Clock, until: real) {
    exists acts :: ValidRun(c, acts) && Unprompted(acts) && Run(c, acts).now >= until
  }

  /** What comes next, at the latest. */
  function Limit(c: Clock): real
    requires !c.phase.Returned?
  {
    if c.phase.Selecting? then c.nextTick
    else
      var l0 := MinOf(c.nextTick, c.phase.start + c.timeout);
      if c.phase.pong.None? then (if c.remoteReads then MinOf(l0, c.phase.arrives) else l0)
      else (if c.localReads then MinOf(l0, c.phase.pong.value) else l0)
  }

  function MinOf(a: real, b: real): real {
    if a <= b then a else b
  }

  /** How far the loop is from its next tick. */
  function Rank(c: Clock): nat {
    match c.phase
    case Returned => 0
    case Selecting => if c.buffered then 4 else 1
    case Pinging(_, _, pong) => (if c.buffered then 5 else 2) + if pong.None? then 1 else 0
  }

  /** n more ticks cover the time up to until. */
  predicate Covered(c: Clock, until: real, n: nat) {
    c.phase.Returned? || until <= c.nextTick + n as real * c.interval
  }

  predicate AtLimit(c: Clock) {
    c.phase.Returned? || c.now == Limit(c)
  }

  /** One step on: time has come, or a tick is done, or the loop is nearer its next tick, or nearer its next step.
      */
  predicate Nearer(c: Clock, n: nat, c': Clock, m: nat, until: real) {
    || c'.now >= until
    || (Covered(c', until, m)
        && (m < n || (m == n && (Rank(c') < Rank(c) || (Rank(c') == Rank(c) && AtLimit(c') && !AtLimit(c))))))
  }

  lemma NextStep(c: Clock, until: real, n: nat) returns (a: Act, m: nat)
    requires Inv(c) && c.now < until && Covered(c, until, n)
    ensures Enabled(c, a) && !a.StopReading? && !a.Cancel? && Nearer(c, n, Next(c, a), m, until)
  {
    m := n;
    if c.phase.Returned? {
      a := Delay(until - c.now);
    } else if c.cancelledAt.Some? {
      a := if c.phase.Selecting? then SeeCancel else PingCancelled;
    } else if c.phase.Selecting? && c.buffered {
      a := StartPing(0.0);
    } else if c.now < Limit(c) {
      a := Delay(Limit(c) - c.now);
    } else if c.phase.Selecting? {
      a, m := TickStep(c, until, n);
    } else {
      a, m := PingStep(c, until, n);
    }
  }

  lemma TickStep(c: Clock, until: real, n: nat) returns (a: Act, m: nat)
    requires Inv(c) && c.now < until && Covered(c, until, n) && !c.phase.Returned? && c.now == c.nextTick
    ensures Enabled(c, a) && a.Tick? && Nearer(c, n, Next(c, a), m, until)
  {
    assert n > 0;
    a, m := Tick, n - 1;
    assert n as real * c.interval == m as real * c.interval + c.interval;
  }

  lemma PingStep(c: Clock, until: real, n: nat) returns (a: Act, m: nat)
    requires Inv(c) && c.now < until && Covered(c, until, n)
    requires c.phase.Pinging? && c.cancelledAt.None? && c.now >= Limit(c)
    ensures Enabled(c, a) && !a.StopReading? && !a.Cancel? && Nearer(c, n, Next(c, a), m, until)
  {
    m := n;
    if c.phase.pong.Some? && c.localReads && c.now >= c.phase.pong.value {
      a := Pong;
    } else if c.phase.pong.None? && c.remoteReads && c.now >= c.phase.arrives {
      a := Answer(0.0);
    } else if c.now == c.phase.start + c.timeout {
      a := TimeOut;
    } else {
      a, m := TickStep(c, until, n);
    }
  }

  lemma {:induction false} GoesOn(c: Clock, until: real, n: nat)
    requires Inv(c) && Covered(c, until, n)
    ensures Reaches(c, until)
    decreases n, Rank(c), if AtLimit(c) then 0 else 1
  {
    if c.now >= until {
      assert ValidRun(c, []) && Unprompted([]) && Run(c, []) == c;
    } else {
      var a, m := NextStep(c, until, n);
      StepKept(c, a);
      var c' := Next(c, a);
      hide Enabled, Next, Inv;
      if c'.now >= until {
        assert ValidRun(c', []) && Unprompted([]) && Run(c', []) == c';
      } else {
        GoesOn(c', until, m);
      }
      ReachesBy(c, a, until);
    }
  }

  lemma ReachesBy(c: Clock, a: Act, until: real)
    requires Enabled(c, a) && !a.StopReading? && !a.Cancel? && Reaches(Next(c, a), until)
    ensures Reaches(c, until)
  {
    var acts :| ValidRun(Next(c, a), acts) && Unprompted(acts) && Run(Next(c, a), acts).now >= until;
    hide Enabled, Next;
    assert ([a] + acts)[1..] == acts;
    assert ValidRun(c, [a] + acts) && Unprompted([a] + acts) && Run(c, [a] + acts).now >= until;
  }

  /** Time is never stuck: from every state of every run, and for every moment, the loop, the ticker and the peer
      alone can come to it. So what is said of the time after a bound is said of something. */
  lemma NoTimeLock(c: Clock, until: real)
    requires Inv(c)
    ensures exists acts :: ValidRun(c, acts) && Unprompted(acts) && Run(c, acts).now >= until
  {
    var missing := (until - c.nextTick) / c.interval;
    var n: nat := if missing <= 0.0 then 0 else missing.Floor + 1;
    assert missing <= n as real;
    assert missing * c.interval == until - c.nextTick;
    Scale(missing, n as real, c.interval);
    GoesOn(c, until, n);
  }

  lemma Scale(a: real, b: real, k: real)
    requires a <= b && k > 0.0
    ensures a * k <= b * k
  {
  }

  // ---------------------------------------------------------------- a half-closed tunnel

  function Max(a: real, b: real): real {
    if a >= b then a else b
  }

  /** An end has stopped reading at tau. A pong that was on its way then may still be taken in, but no later ping is
      answered, and the next one starts within the longer of interval and timeout. */
  predicate Unheard(c: Clock, tau: real) {
    var latest := tau + Max(c.interval, c.timeout);
    && !BothRead(c)
    && (c.phase.Selecting? ==> if c.buffered then c.now <= latest else c.nextTick <= latest)
    && (c.phase.Pinging? ==> c.phase.start <= latest)
    && (c.phase.Pinging? && c.phase.pong.Some? && c.localReads ==> c.phase.start <= tau)
  }

  lemma UnheardStep(c: Clock, a: Act, tau: real)
    requires Inv(c) && Enabled(c, a) && Unheard(c, tau)
    ensures Unheard(Next(c, a), tau)
  {
  }

  lemma {:induction false} UnheardKept(c: Clock, acts: seq<Act>, tau: real)
    requires Inv(c) && Unheard(c, tau) && ValidRun(c, acts)
    ensures Inv(Run(c, acts)) && Unheard(Run(c, acts), tau)
    ensures Run(c, acts).interval == c.interval && Run(c, acts).timeout == c.timeout
    decreases |acts|
  {
    if acts != [] {
      StepKept(c, acts[0]);
      UnheardStep(c, acts[0], tau);
      hide Inv, Unheard, Next, Enabled;
      UnheardKept(Next(c, acts[0]), acts[1..], tau);
    }
  }

  /** When an end stops reading at tau, the connection is closed by tau + max(interval, timeout) + timeout, unless
      the tunnel was cancelled first: with the constants, within 35 seconds. */
  lemma HalfCloseStarvesKeepalive(c: Clock, acts: seq<Act>)
    requires Inv(c) && !BothRead(c) && ValidRun(c, acts)
    ensures Run(c, acts).now > c.now + Max(c.interval, c.timeout) + c.timeout ==>
      Run(c, acts).closed || Run(c, acts).cancelledAt.Some?
  {
    UnheardKept(c, acts, c.now);
  }

  /** Closed within interval + timeout of the end of reading, in every run from the start. */
  ghost predicate ShortBound(interval: real, timeout: real) {
    forall before, after ::
      ValidRun(NewClock(interval, timeout), before) && ValidRun(Run(NewClock(interval, timeout), before), after) ==>
        var c := Run(NewClock(interval, timeout), before);
        var c' := Run(c, after);
        !BothRead(c) && c'.now > c.now + interval + timeout ==> c'.closed || c'.cancelledAt.Some?
  }

  /** The loop is still at it later than that. */
  ghost predicate StillPingingAfter(c: Clock, at: real) {
    exists acts ::
      ValidRun(c, acts) && !Run(c, acts).phase.Returned? && Run(c, acts).cancelledAt.None? && Run(c, acts).now > at
  }

  /** That shorter bound holds if and only if the timeout is no longer than the interval: otherwise a pong on its
      way when the remote end stops reading can put the next ping off. */
  lemma ShortBoundExactly(interval: real, timeout: real)
    requires Positive(interval, timeout)
    ensures ShortBound(interval, timeout) <==> timeout <= interval
  {
    var start := NewClock(interval, timeout);
    if timeout <= interval {
      forall before, after | ValidRun(start, before) && ValidRun(Run(start, before), after)
        && !BothRead(Run(start, before))
        && Run(Run(start, before), after).now > Run(start, before).now + interval + timeout
        ensures Run(Run(start, before), after).closed || Run(Run(start, before), after).cancelledAt.Some?
      {
        StaysInv(start, before);
        HalfCloseStarvesKeepalive(Run(start, before), after);
      }
    } else {
      var before, c := PongOnItsWay(interval, timeout);
      var after :| ValidRun(c, after) && !Run(c, after).phase.Returned? && Run(c, after).cancelledAt.None?
        && Run(c, after).now > c.now + interval + timeout;
      StaysInv(c, after);
      assert ValidRun(start, before) && ValidRun(Run(start, before), after);
    }
  }

  lemma {:induction false} StaysInv(c: Clock, acts: seq<Act>)
    requires Inv(c) && ValidRun(c, acts)
    ensures Inv(Run(c, acts)) && Run(c, acts).interval == c.interval && Run(c, acts).timeout == c.timeout
    decreases |acts|
  {
    if acts != [] {
      StepKept(c, acts[0]);
      hide Next, Enabled, Inv;
      StaysInv(Next(c, acts[0]), acts[1..]);
    }
  }

  /** The loop is still at it at the given time. */
  ghost predicate StillPinging(c: Clock, at: real) {
    exists acts ::
      ValidRun(c, acts) && !Run(c, acts).phase.Returned? && Run(c, acts).cancelledAt.None? && Run(c, acts).now == at
  }

  lemma StillBy(c: Clock, a: Act, at: real)
    requires Enabled(c, a) && StillPinging(Next(c, a), at)
    ensures StillPinging(c, at)
  {
    var acts :| ValidRun(Next(c, a), acts) && !Run(Next(c, a), acts).phase.Returned?
      && Run(Next(c, a), acts).cancelledAt.None? && Run(Next(c, a), acts).now == at;
    hide Enabled, Next;
    assert ([a] + acts)[1..] == acts;
    assert ValidRun(c, [a] + acts) && !Run(c, [a] + acts).phase.Returned?
      && Run(c, [a] + acts).cancelledAt.None? && Run(c, [a] + acts).now == at;
  }

  /** The first ping is answered, slowly, and then the remote end stops reading. */
  lemma FirstAnswer(interval: real, timeout: real, leg: real) returns (acts: seq<Act>, c: Clock)
    requires Positive(interval, timeout) && leg >= 0.0
    ensures c == NewClock(interval, timeout).(
      now := interval, nextTick := 2.0 * interval, lastStart := interval, remoteReads := false,
      phase := Pinging(interval, interval, Some(interval + leg)))
    ensures ValidRun(NewClock(interval, timeout), acts) && Run(NewClock(interval, timeout), acts) == c
  {
    var c0 := NewClock(interval, timeout);
    var c1 := Next(c0, Delay(interval));
    var c2 := Next(c1, Tick);
    var c3 := Next(c2, StartPing(0.0));
    var c4 := Next(c3, Answer(leg));
    c := Next(c4, StopReading(false));
    hide Next, Enabled;
    RunBack(c4, StopReading(false), []);
    RunBack(c3, Answer(leg), [StopReading(false)] + []);
    RunBack(c2, StartPing(0.0), [Answer(leg)] + ([StopReading(false)] + []));
    RunBack(c1, Tick, [StartPing(0.0)] + ([Answer(leg)] + ([StopReading(false)] + [])));
    acts := [Delay(interval)] + ([Tick] + ([StartPing(0.0)] + ([Answer(leg)] + ([StopReading(false)] + []))));
    RunBack(c0, Delay(interval), acts[1..]);
    assert acts == [Delay(interval)] + acts[1..];
  }

  lemma RunBack(c: Clock, a: Act, later: seq<Act>)
    requires Enabled(c, a) && ValidRun(Next(c, a), later)
    ensures ValidRun(c, [a] + later) && Run(c, [a] + later) == Run(Next(c, a), later)
  {
    hide Enabled, Next;
    assert ([a] + later)[1..] == later;
  }

  lemma PongOnItsWay(interval: real, timeout: real) returns (before: seq<Act>, c: Clock)
    requires Positive(interval, timeout) && timeout > interval
    ensures Inv(c) && c.interval == interval && c.timeout == timeout && !BothRead(c)
    ensures ValidRun(NewClock(interval, timeout), before) && Run(NewClock(interval, timeout), before) == c
    ensures StillPingingAfter(c, c.now + interval + timeout)
  {
    var leg := MinOf(timeout, 1.5 * interval);
    before, c := FirstAnswer(interval, timeout, leg);
    var c1 := Next(c, Delay(interval));
    var c2 := Next(c1, Tick);
    var c3 := Next(c2, Delay(leg - interval));
    var c4 := Next(c3, Pong);
    var c5 := Next(c4, StartPing(0.0));
    var end := interval + leg + timeout;
    WaitsOut(c5, end, TicksUpTo(c5, end));
    hide Next, Enabled;
    StillBy(c4, StartPing(0.0), end);
    StillBy(c3, Pong, end);
    StillBy(c2, Delay(leg - interval), end);
    StillBy(c1, Tick, end);
    StillBy(c, Delay(interval), end);
    var acts :| ValidRun(c, acts) && !Run(c, acts).phase.Returned? && Run(c, acts).cancelledAt.None?
        && Run(c, acts).now == end;
    assert Run(c, acts).now > c.now + interval + timeout;
  }

  function TicksUpTo(c: Clock, until: real): (n: nat)
    requires c.interval > 0.0
    ensures until <= c.nextTick + n as real * c.interval
  {
    var missing := (until - c.nextTick) / c.interval;
    var n: nat := if missing <= 0.0 then 0 else missing.Floor + 1;
    assert missing <= n as real;
    assert missing * c.interval == until - c.nextTick;
    Scale(missing, n as real, c.interval);
    n
  }

  /** An unanswered ping is waited for to the end, the ticker ticking on. */
  lemma {:induction false} WaitsOut(c: Clock, at: real, n: nat)
    requires Inv(c) && c.phase.Pinging? && c.phase.pong.None? && !c.remoteReads && c.cancelledAt.None?
    requires c.now <= at <= c.phase.start + c.timeout && at <= c.nextTick + n as real * c.interval
    ensures StillPinging(c, at)
    decreases n, if c.now < c.nextTick && c.now < at then 1 else 0
  {
    if c.now == at {
      assert ValidRun(c, []) && Run(c, []) == c;
    } else if c.now == c.nextTick {
      StepKept(c, Tick);
      assert n as real * c.interval == (n - 1) as real * c.interval + c.interval;
      WaitsOut(Next(c, Tick), at, n - 1);
      StillBy(c, Tick, at);
    } else {
      var d := MinOf(at, c.nextTick) - c.now;
      StepKept(c, Delay(d));
      WaitsOut(Next(c, Delay(d)), at, n);
      StillBy(c, Delay(d), at);
    }
  }

  // ---------------------------------------------------------------- a healthy tunnel

  /** Both ends keep reading, every pong is back within the timeout, and nobody cancels. */
  ghost predicate Healthy(c: Clock, acts: seq<Act>)
    requires ValidRun(c, acts)
    decreases |acts|
  {
    acts == [] ||
    (!acts[0].StopReading? && !acts[0].Cancel? && InTime(c, acts[0]) && Healthy(Next(c, acts[0]), acts[1..]))
  }

  /** The ping arrives, and its pong is back, within the timeout. */
  predicate InTime(c: Clock, a: Act) {
    && (a.StartPing? ==> a.leg < c.timeout)
    && (a.Answer? && c.phase.Pinging? ==> c.now + a.leg < c.phase.start + c.timeout)
  }

  predicate Thriving(c: Clock) {
    && Inv(c) && BothRead(c) && c.cancelledAt.None? && !c.phase.Returned?
    && c.now - c.lastStart <= Max(c.interval, c.timeout)
    && (!c.buffered ==> c.nextTick <= c.lastStart + c.interval)
    && (c.phase.Selecting? && c.buffered ==> c.now - c.lastStart <= Max(c.interval, c.timeout))
    && (c.phase.Pinging? ==>
      var due := if c.phase.pong.None? then c.phase.arrives else c.phase.pong.value;
      c.now <= due < c.phase.start + c.timeout)
  }

  lemma ThrivingStep(c: Clock, a: Act)
    requires Thriving(c) && Enabled(c, a)
    requires !a.StopReading? && !a.Cancel? && InTime(c, a)
    ensures Thriving(Next(c, a))
  {
    StepKept(c, a);
    hide MayWait;
    if a.Delay? {
      ThrivingDelay(c, a.d);
    }
  }

  lemma ThrivingDelay(c: Clock, d: real)
    requires Thriving(c) && Enabled(c, Delay(d))
    ensures Thriving(Next(c, Delay(d)))
  {
    StepKept(c, Delay(d));
  }

  /** The keepalive never kills a healthy tunnel: it is not closed, and at no moment is the last ping's start more
      than max(interval, timeout) ago, so the path is never left idle for longer. */
  lemma {:induction false} HealthyTunnelSurvives(c: Clock, acts: seq<Act>)
    requires Thriving(c) && ValidRun(c, acts) && Healthy(c, acts)
    ensures Thriving(Run(c, acts)) && !Run(c, acts).closed
    decreases |acts|
  {
    if acts != [] {
      ThrivingStep(c, acts[0]);
      HealthyTunnelSurvives(Next(c, acts[0]), acts[1..]);
    }
  }

  lemma NewClockThrives(interval: real, timeout: real)
    requires Positive(interval, timeout)
    ensures Thriving(NewClock(interval, timeout))
  {
  }

  // ---------------------------------------------------------------- cancellation

  /** After cancellation at most one more ping is attempted, and the loop has returned before any more time passes.
      */
  lemma {:induction false} CancelEndsTheLoop(c: Clock, acts: seq<Act>)
    requires Inv(c) && ValidRun(c, acts)
    ensures var c' := Run(c, acts);
      && c'.pingsAfterCancel <= 1
      && (c'.cancelledAt.Some? && c'.now > c'.cancelledAt.value ==> c'.phase.Returned?)
      && Inv(c')
    decreases |acts|
  {
    if acts != [] {
      StepKept(c, acts[0]);
      CancelEndsTheLoop(Next(c, acts[0]), acts[1..]);
    }
  }

  /** One more ping there can be: select may pick a tick that is waiting although the context is cancelled. */
  lemma OneMorePingIsPossible(interval: real, timeout: real)
    requires Positive(interval, timeout)
    ensures exists acts ::
      ValidRun(NewClock(interval, timeout), acts) && Run(NewClock(interval, timeout), acts).pingsAfterCancel == 1
  {
    var c0 := NewClock(interval, timeout);
    var c1 := Next(c0, Delay(interval));
    var c2 := Next(c1, Tick);
    var c3 := Next(c2, Cancel);
    hide Next, Enabled;
    RunBack(c3, StartPing(0.0), []);
    RunBack(c2, Cancel, [StartPing(0.0)] + []);
    RunBack(c1, Tick, [Cancel] + ([StartPing(0.0)] + []));
    var acts := [Tick] + ([Cancel] + ([StartPing(0.0)] + []));
    RunBack(c0, Delay(interval), acts);
    assert Run(c0, [Delay(interval)] + acts) == Next(c3, StartPing(0.0));
  }

  /** How the loop ends, exactly: the connection is closed if a ping failed, by its timeout or because it was
      cancelled under it, and left alone if the loop saw the cancellation itself. */
  lemma {:induction false} ClosedExactly(c: Clock, acts: seq<Act>)
    requires Inv(c) && ValidRun(c, acts)
    ensures Run(c, acts).closed <==> c.closed || TimeOut in acts || PingCancelled in acts
    ensures Run(c, acts).phase.Returned? <==>
      c.phase.Returned? || TimeOut in acts || PingCancelled in acts || SeeCancel in acts
    decreases |acts|
  {
    if acts != [] {
      StepKept(c, acts[0]);
      var c1 := Next(c, acts[0]);
      assert c1.closed <==> c.closed || acts[0].TimeOut? || acts[0].PingCancelled?;
      assert c1.phase.Returned? <==>
          c.phase.Returned? || acts[0].TimeOut? || acts[0].PingCancelled? || acts[0].SeeCancel?;
      hide Next, Enabled, Inv;
      ClosedExactly(c1, acts[1..]);
      assert forall a :: a in acts <==> a == acts[0] || a in acts[1..];
    }
  }
}
