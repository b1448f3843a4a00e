/** The keepalive at either end of a tunnel in use: the clock beside the two directions of a WebSocket tunnel, whose
    conns are the readers that it needs. */
module Tending {
  import opened Prelude
  import opened StreamConn
  import opened Wire
  import T = Tunnel
  import opened Keepalive

  /** The keepalive of one end (local) beside the tunnel it tends. The conns are the readers: an end reads until
      its conn has latched an error, EOF included. */
  datatype Tended = Tended(clock: Clock, tunnel: T.Duplex)

  /** Ping is a step of the loop; when it closes the connection, the first `keep` frames on their way to the other
      end still arrive. Use is anything the users and the transport do. */
  datatype TendedAct = Ping(tick: Act, keep: nat) | Use(call: T.DuplexAct)

  /** The direction the local end reads, and the one it writes. */
  function Incoming(local: Side, t: T.Duplex): T.Link {
    if local.Client? then t.down else t.up
  }

  function Outgoing(local: Side, t: T.Duplex): T.Link {
    if local.Client? then t.up else t.down
  }

  function SeeReaders(local: Side, c: Clock, t: T.Duplex): Clock {
    c.(localReads := Incoming(local, t).readErr.None?, remoteReads := Outgoing(local, t).readErr.None?)
  }

  /** The local conn's Close cancels the keepalive's context. */
  predicate Cancels(local: Side, t: T.Duplex, a: T.DuplexAct) {
    if local.Client? then a.Up? && a.act.Close? && !t.up.closed else a.Down? && a.act.Close? && !t.down.closed
  }

  predicate TendedEnabled(s: Tended, a: TendedAct) {
    a.Ping? ==> Enabled(s.clock, a.tick) && !a.tick.StopReading?
  }

  /** CloseNow. */
  function CutBoth(local: Side, t: T.Duplex, keep: nat): T.Duplex {
    if local.Client? then T.Duplex(T.Apply(t.up, T.Break(keep)).0, T.Apply(t.down, T.Break(0)).0)
    else T.Duplex(T.Apply(t.up, T.Break(0)).0, T.Apply(t.down, T.Break(keep)).0)
  }

  function TendedNext(local: Side, s: Tended, a: TendedAct): Tended
    requires TendedEnabled(s, a)
  {
    match a
    case Ping(tick, keep) =>
      var c := Next(s.clock, tick);
      Tended(c, if c.closed && !s.clock.closed then CutBoth(local, s.tunnel, keep) else s.tunnel)
    case Use(call) =>
      var t := T.DuplexApply(s.tunnel, call).0;
      var c := if Cancels(local, s.tunnel, call) && s.clock.cancelledAt.None? then Next(s.clock, Cancel) else s.clock;
      Tended(SeeReaders(local, c, t), t)
  }

  ghost predicate ValidTending(local: Side, s: Tended, acts: seq<TendedAct>)
    decreases |acts|
  {
    acts == [] || (TendedEnabled(s, acts[0]) && ValidTending(local, TendedNext(local, s, acts[0]), acts[1..]))
  }

  function Tending(local: Side, s: Tended, acts: seq<TendedAct>): Tended
    requires ValidTending(local, s, acts)
    decreases |acts|
  {
    if acts == [] then s else Tending(local, TendedNext(local, s, acts[0]), acts[1..])
  }

  function NewTended(interval: real, timeout: real): Tended {
    Tended(NewClock(interval, timeout), T.NewDuplex(WebSocket))
  }

  /** No pong is taken in later than tau. */
  ghost predicate TendedSilent(local: Side, s: Tended, acts: seq<TendedAct>, tau: real)
    requires ValidTending(local, s, acts)
    decreases |acts|
  {
    acts == [] ||
    ((acts[0].Ping? && acts[0].tick.Pong? ==> s.clock.now <= tau)
     && TendedSilent(local, TendedNext(local, s, acts[0]), acts[1..], tau))
  }

  /** Nothing more can arrive: all a Read can still return is in the chunk buffer, and an error follows it. */
  ghost predicate Severed(link: T.Link) {
    T.LinkInv(link) && Pending(T.AsReader(link)) == link.rest && Ending(T.AsReader(link)).Some?
  }

  /** What tending keeps. */
  ghost predicate TendedInv(local: Side, s: Tended) {
    && Inv(s.clock) && s.clock == SeeReaders(local, s.clock, s.tunnel)
    && T.LinkInv(s.tunnel.up) && T.LinkInv(s.tunnel.down)
    && s.tunnel.up.door == s.tunnel.down.door && T.NoStrayClose(s.tunnel)
    && (s.clock.closed ==> Severed(Incoming(local, s.tunnel)) && Ending(T.AsReader(Outgoing(local, s.tunnel))).Some?)
  }

  lemma NewTendedInv(local: Side, interval: real, timeout: real)
    requires Positive(interval, timeout)
    ensures TendedInv(local, NewTended(interval, timeout))
  {
    assert Inbox(Agent, []) == [] && Inbox(Client, []) == [];
  }

  lemma StaysSevered(link: T.Link, a: T.Act)
    requires Severed(link)
    ensures Severed(T.Apply(link, a).0)
  {
    T.StepRefines(link, a);
    var p, p' := T.Abs(link), T.Abs(T.Apply(link, a).0);
    if a.Read? {
      SeveredRead(link, a.size);
    } else if a.Close? {
      T.PipeCloseShape(p, a, p', T.Apply(link, a).1);
      SameRest(link, a);
    } else {
      SameRest(link, a);
      if a.Break? {
        assert |p'.pending| <= |p.pending|;
        BreakKeepsRest(link, a.keep);
      }
    }
    hide T.Apply, T.AsReader, T.LinkInv;
  }

  lemma SameRest(link: T.Link, a: T.Act)
    requires !a.Read?
    ensures T.Apply(link, a).0.rest == link.rest && T.Apply(link, a).0.readErr == link.readErr
  {
  }

  lemma BreakKeepsRest(link: T.Link, keep: nat)
    ensures link.rest <= Pending(T.AsReader(T.Apply(link, T.Break(keep)).0))
  {
    assert link.rest + [] == link.rest;
  }

  lemma SeveredRead(link: T.Link, size: nat)
    requires Severed(link)
    ensures Severed(T.Apply(link, T.Read(size)).0)
  {
    T.StepRefines(link, T.Read(size));
    T.ReadIsReadStep(link, size);
    var r := T.AsReader(link);
    ReadStepMeaning(r, size);
    assert r.rest + [] == r.rest;
    if r.err.None? {
      assert Payload(r.inbox) == [] by { assert |Pending(r)| == |r.rest| + |Payload(r.inbox)|; }
    }
    if r.rest != [] {
      var n := Min(size, |r.rest|);
      assert ReadStep(r, size).0 == r.(rest := r.rest[n..]);
    }
  }

  lemma BreakSevers(link: T.Link)
    requires T.LinkInv(link)
    ensures Severed(T.Apply(link, T.Break(0)).0)
  {
    T.StepRefines(link, T.Break(0));
    var l' := T.Apply(link, T.Break(0)).0;
    assert l'.wire == [Reset];
    assert T.AsReader(l').inbox == [Stop(Other(RESET))];
    assert l'.rest + [] == l'.rest;
  }

  /** An ended direction stays ended, a reader that has latched an error keeps it. */
  lemma StaysEnded(link: T.Link, a: T.Act)
    requires T.LinkInv(link)
    ensures var l' := T.Apply(link, a).0;
      && T.LinkInv(l') && (Ending(T.AsReader(link)).Some? ==> Ending(T.AsReader(l')).Some?)
      && (link.readErr.Some? ==> l'.readErr.Some?)
      && (a.Break? ==> Ending(T.AsReader(l')).Some?)
  {
    T.StepRefines(link, a);
    var p, p' := T.Abs(link), T.Abs(T.Apply(link, a).0);
    if a.Close? {
      T.PipeCloseShape(p, a, p', T.Apply(link, a).1);
    }
    hide T.Apply, T.AsReader, T.LinkInv;
  }

  /** All of that for the acts one duplex step comes to in a direction: none or one. */
  lemma LinkSteps(link: T.Link, acts: seq<T.Act>)
    requires T.LinkInv(link) && |acts| <= 1
    ensures var l' := T.Run(link, acts).0;
      && T.LinkInv(l') && (Ending(T.AsReader(link)).Some? ==> Ending(T.AsReader(l')).Some?)
      && (link.readErr.Some? ==> l'.readErr.Some?)
      && (Severed(link) ==> Severed(l'))
  {
    if acts != [] {
      assert acts == [acts[0]];
      T.RunOne(link, acts[0]);
      StaysEnded(link, acts[0]);
      if Severed(link) {
        StaysSevered(link, acts[0]);
      }
    }
    hide T.Apply, Severed;
  }

  lemma UseKept(local: Side, s: Tended, call: T.DuplexAct, tau: real)
    requires TendedInv(local, s)
    ensures var s' := TendedNext(local, s, Use(call));
      && TendedInv(local, s')
      && (OnTrack(s.clock, tau) ==> OnTrack(s'.clock, tau)) && (Unheard(s.clock, tau) ==> Unheard(s'.clock, tau))
      && (s.tunnel.up.readErr.Some? ==> s'.tunnel.up.readErr.Some?)
      && (s.tunnel.down.readErr.Some? ==> s'.tunnel.down.readErr.Some?)
      && s'.clock.now == s.clock.now && s'.clock.interval == s.clock.interval && s'.clock.timeout == s.clock.timeout
      && (s.clock.cancelledAt.Some? ==> s'.clock.cancelledAt.Some?)
  {
    TunnelUse(s.tunnel, call);
    var t := T.DuplexApply(s.tunnel, call).0;
    var c := if Cancels(local, s.tunnel, call) && s.clock.cancelledAt.None? then Next(s.clock, Cancel) else s.clock;
    assert TendedNext(local, s, Use(call)) == Tended(SeeReaders(local, c, t), t);
    ClockUse(s.clock, c, tau);
    hide T.DuplexApply, Severed, T.LinkInv, Next, OnTrack, Unheard, Inv;
    assert c.closed == s.clock.closed;
    SeenReaders(local, c, t, tau);
  }

  lemma TunnelUse(t: T.Duplex, call: T.DuplexAct)
    requires T.LinkInv(t.up) && T.LinkInv(t.down) && t.up.door == t.down.door && T.NoStrayClose(t)
    ensures var t' := T.DuplexApply(t, call).0;
      && T.NoStrayClose(t')
      && T.LinkInv(t'.up) && T.LinkInv(t'.down) && t'.up.door == t'.down.door
      && (Ending(T.AsReader(t.up)).Some? ==> Ending(T.AsReader(t'.up)).Some?)
      && (Ending(T.AsReader(t.down)).Some? ==> Ending(T.AsReader(t'.down)).Some?)
      && (t.up.readErr.Some? ==> t'.up.readErr.Some?) && (t.down.readErr.Some? ==> t'.down.readErr.Some?)
      && (Severed(t.up) ==> Severed(t'.up)) && (Severed(t.down) ==> Severed(t'.down))
  {
    T.DuplexStep(t, call);
    LinkSteps(t.up, T.UpStep(t.up.door, t.down.closed, call));
    LinkSteps(t.down, T.DownStep(t.up.door, t.up.closed, call));
    hide T.DuplexApply, T.Run, Severed, T.LinkInv;
  }

  /** Using the tunnel leaves the clock as it is, or cancels it. */
  lemma ClockUse(c: Clock, c': Clock, tau: real)
    requires Inv(c) && (c' == c || (c.cancelledAt.None? && c' == Next(c, Cancel)))
    ensures Inv(c') && c'.closed == c.closed && c'.localReads == c.localReads && c'.remoteReads == c.remoteReads
    ensures (OnTrack(c, tau) ==> OnTrack(c', tau)) && (Unheard(c, tau) ==> Unheard(c', tau))
    ensures c'.now == c.now && c'.interval == c.interval && c'.timeout == c.timeout
    ensures c.cancelledAt.Some? ==> c'.cancelledAt.Some?
  {
  }

  /** Readers only ever stop. */
  lemma SeenReaders(local: Side, c: Clock, t: T.Duplex, tau: real)
    requires Incoming(local, t).readErr.None? ==> c.localReads
    requires Outgoing(local, t).readErr.None? ==> c.remoteReads
    ensures var c' := SeeReaders(local, c, t);
      && (Inv(c) ==> Inv(c')) && c' == SeeReaders(local, c', t)
      && (OnTrack(c, tau) ==> OnTrack(c', tau)) && (Unheard(c, tau) ==> Unheard(c', tau))
  {
  }

  lemma PingKept(local: Side, s: Tended, tick: Act, keep: nat, tau: real)
    requires TendedInv(local, s) && TendedEnabled(s, Ping(tick, keep))
    ensures var s' := TendedNext(local, s, Ping(tick, keep));
      && TendedInv(local, s')
      && (OnTrack(s.clock, tau) && (tick.Pong? ==> s.clock.now <= tau) ==> OnTrack(s'.clock, tau))
      && (Unheard(s.clock, tau) ==> Unheard(s'.clock, tau))
      && s'.tunnel.up.readErr == s.tunnel.up.readErr && s'.tunnel.down.readErr == s.tunnel.down.readErr
      && s'.clock.now >= s.clock.now && s'.clock.interval == s.clock.interval && s'.clock.timeout == s.clock.timeout
      && (s.clock.cancelledAt.Some? ==> s'.clock.cancelledAt.Some?)
  {
    hide CutBoth, Severed, T.LinkInv, T.NoStrayClose, T.AsReader, Next, OnTrack, Unheard, Inv, Enabled;
    StepKept(s.clock, tick);
    if OnTrack(s.clock, tau) && (tick.Pong? ==> s.clock.now <= tau) {
      TrackStep(s.clock, tick, tau);
    }
    if Unheard(s.clock, tau) {
      UnheardStep(s.clock, tick, tau);
    }
    PingClock(s.clock, tick);
    var c := Next(s.clock, tick);
    var t := if c.closed && !s.clock.closed then CutBoth(local, s.tunnel, keep) else s.tunnel;
    CutKept(local, s.tunnel, keep);
    assert TendedNext(local, s, Ping(tick, keep)) == Tended(c, t);
  }

  lemma PingClock(c: Clock, tick: Act)
    requires Inv(c) && Enabled(c, tick) && !tick.StopReading?
    ensures var c' := Next(c, tick);
      && c'.localReads == c.localReads && c'.remoteReads == c.remoteReads && (c.closed ==> c'.closed)
      && c'.now >= c.now && (c.cancelledAt.Some? ==> c'.cancelledAt.Some?)
  {
  }

  lemma CutKept(local: Side, t: T.Duplex, keep: nat)
    requires T.LinkInv(t.up) && T.LinkInv(t.down) && t.up.door == t.down.door
    ensures var t' := CutBoth(local, t, keep);
      && T.NoStrayClose(t')
      && T.LinkInv(t'.up) && T.LinkInv(t'.down) && t'.up.door == t'.down.door
      && t'.up.readErr == t.up.readErr && t'.down.readErr == t.down.readErr
      && Severed(Incoming(local, t')) && Ending(T.AsReader(Outgoing(local, t'))).Some?
  {
    var (i, o) := (Incoming(local, t), Outgoing(local, t));
    BreakSevers(i);
    StaysEnded(o, T.Break(keep));
    T.SameEnds(i, T.Break(0));
    T.SameEnds(o, T.Break(keep));
    SameRest(i, T.Break(0));
    SameRest(o, T.Break(keep));
    hide T.Apply, T.LinkInv, T.AsReader;
  }

  lemma {:induction false} TendedKept(local: Side, s: Tended, acts: seq<TendedAct>, tau: real)
    requires TendedInv(local, s) && OnTrack(s.clock, tau) && ValidTending(local, s, acts)
    requires TendedSilent(local, s, acts, tau)
    ensures var s' := Tending(local, s, acts);
      && TendedInv(local, s') && OnTrack(s'.clock, tau)
      && s'.clock.interval == s.clock.interval && s'.clock.timeout == s.clock.timeout
    decreases |acts|
  {
    if acts != [] {
      if acts[0].Use? {
        UseKept(local, s, acts[0].call, tau);
      } else {
        PingKept(local, s, acts[0].tick, acts[0].keep, tau);
      }
      hide TendedNext, TendedInv, OnTrack;
      TendedKept(local, TendedNext(local, s, acts[0]), acts[1..], tau);
    }
  }

  /** The point of it all: in every run of the keepalive beside an arbitrarily used tunnel, at either end, once a
      peer has been silent for interval plus timeout, every Read that has drained its chunk returns an error, so the
      copy loop above it ends. */
  lemma SilentPeerUnblocksReader(local: Side, interval: real, timeout: real, acts: seq<TendedAct>, tau: real, size: nat)
    requires Positive(interval, timeout) && tau >= 0.0
    requires ValidTending(local, NewTended(interval, timeout), acts)
    requires TendedSilent(local, NewTended(interval, timeout), acts, tau)
    requires var s := Tending(local, NewTended(interval, timeout), acts);
      s.clock.now > tau + interval + timeout && s.clock.cancelledAt.None?
    ensures var link := Incoming(local, Tending(local, NewTended(interval, timeout), acts).tunnel);
      link.rest == [] ==> T.Apply(link, T.Read(size)).1.read.Failed?
  {
    NewTendedInv(local, interval, timeout);
    TendedKept(local, NewTended(interval, timeout), acts, tau);
    var s := Tending(local, NewTended(interval, timeout), acts);
    var link := Incoming(local, s.tunnel);
    ReadStepMeaning(T.AsReader(link), size);
    T.ReadIsReadStep(link, size);
  }

  lemma {:induction false} TendedUnheard(local: Side, s: Tended, acts: seq<TendedAct>, tau: real)
    requires TendedInv(local, s) && Unheard(s.clock, tau) && ValidTending(local, s, acts)
    ensures var s' := Tending(local, s, acts);
      && TendedInv(local, s') && Unheard(s'.clock, tau)
      && s'.clock.interval == s.clock.interval && s'.clock.timeout == s.clock.timeout
    decreases |acts|
  {
    if acts != [] {
      if acts[0].Use? {
        UseKept(local, s, acts[0].call, tau);
      } else {
        PingKept(local, s, acts[0].tick, acts[0].keep, tau);
      }
      hide TendedNext, TendedInv, Unheard;
      TendedUnheard(local, TendedNext(local, s, acts[0]), acts[1..], tau);
    }
  }

  /** Both ways out: nothing more can arrive at this end, and the other end's stream is over too. */
  ghost predicate Killed(local: Side, s: Tended) {
    s.clock.closed && Severed(Incoming(local, s.tunnel)) && Ending(T.AsReader(Outgoing(local, s.tunnel))).Some?
  }

  /** A half-closed WebSocket does not survive its keepalive. Once a Read in either direction has reported EOF (or
      any error), and unless the conn is closed first, max(interval, timeout) plus timeout later the connection has
      been closed, the other direction included. */
  lemma HalfClosedTunnelIsKilled(local: Side, s: Tended, acts: seq<TendedAct>)
    requires TendedInv(local, s) && ValidTending(local, s, acts)
    requires s.tunnel.up.readErr.Some? || s.tunnel.down.readErr.Some?
    ensures var s' := Tending(local, s, acts);
      s'.clock.now > s.clock.now + Max(s.clock.interval, s.clock.timeout) + s.clock.timeout
          && s'.clock.cancelledAt.None?
      ==> Killed(local, s')
  {
    assert Unheard(s.clock, s.clock.now);
    TendedUnheard(local, s, acts, s.clock.now);
  }

  /** Steps of the loop alone. */
  function Pings(acts: seq<Act>): (r: seq<TendedAct>)
    ensures |r| == |acts|
  {
    if acts == [] then [] else [Ping(acts[0], 0)] + Pings(acts[1..])
  }

  lemma {:induction false} LoopAlone(local: Side, s: Tended, acts: seq<Act>)
    requires ValidRun(s.clock, acts) && Unprompted(acts)
    ensures ValidTending(local, s, Pings(acts)) && Tending(local, s, Pings(acts)).clock == Run(s.clock, acts)
    ensures Run(s.clock, acts).cancelledAt == s.clock.cancelledAt
    decreases |acts|
  {
    if acts != [] {
      assert acts[0] in acts && forall a :: a in acts[1..] ==> a in acts;
      var s1 := TendedNext(local, s, Ping(acts[0], 0));
      assert s1.clock.cancelledAt == s.clock.cancelledAt;
      hide Next, Enabled;
      LoopAlone(local, s1, acts[1..]);
      assert Pings(acts)[1..] == Pings(acts[1..]);
    }
  }

  /** And that time does come: while nobody touches the tunnel any more, a half-closed one is closed. */
  lemma HalfClosedTunnelDies(local: Side, s: Tended)
    requires TendedInv(local, s) && s.clock.cancelledAt.None?
    requires s.tunnel.up.readErr.Some? || s.tunnel.down.readErr.Some?
    ensures exists acts :: ValidTending(local, s, acts) && Killed(local, Tending(local, s, acts))
  {
    var until := s.clock.now + Max(s.clock.interval, s.clock.timeout) + s.clock.timeout + 1.0;
    NoTimeLock(s.clock, until);
    var acts :| ValidRun(s.clock, acts) && Unprompted(acts) && Run(s.clock, acts).now >= until;
    LoopAlone(local, s, acts);
    HalfClosedTunnelIsKilled(local, s, Pings(acts));
    hide Killed;
    assert Killed(local, Tending(local, s, Pings(acts)));
  }

  /** From every state of a tended tunnel, time goes on. */
  lemma TendingGoesOn(local: Side, s: Tended, until: real)
    requires TendedInv(local, s)
    ensures exists acts ::
      && ValidTending(local, s, Pings(acts)) && Tending(local, s, Pings(acts)).clock.now >= until
      && Tending(local, s, Pings(acts)).clock.cancelledAt == s.clock.cancelledAt
  {
    NoTimeLock(s.clock, until);
    var acts :| ValidRun(s.clock, acts) && Unprompted(acts) && Run(s.clock, acts).now >= until;
    LoopAlone(local, s, acts);
  }

  /** Every pong is back within the timeout, and nobody cancels. */
  ghost predicate Timely(local: Side, s: Tended, acts: seq<TendedAct>)
    requires ValidTending(local, s, acts)
    decreases |acts|
  {
    acts == [] ||
    (TimelyAct(local, s, acts[0]) && Timely(local, TendedNext(local, s, acts[0]), acts[1..]))
  }

  predicate TimelyAct(local: Side, s: Tended, a: TendedAct) {
    match a
    case Ping(tick, _) => !tick.Cancel? && InTime(s.clock, tick)
    case Use(call) => !Cancels(local, s.tunnel, call)
  }

  lemma {:induction false} OpenTunnelThrives(local: Side, s: Tended, acts: seq<TendedAct>)
    requires TendedInv(local, s) && Thriving(s.clock) && ValidTending(local, s, acts) && Timely(local, s, acts)
    ensures var s' := Tending(local, s, acts);
      s'.tunnel.up.readErr.None? && s'.tunnel.down.readErr.None? ==> Thriving(s'.clock) && !s'.clock.closed
    decreases |acts|
  {
    if acts != [] {
      var s1 := TendedNext(local, s, acts[0]);
      if acts[0].Use? {
        UseKept(local, s, acts[0].call, s.clock.now);
      } else {
        PingKept(local, s, acts[0].tick, acts[0].keep, s.clock.now);
        ThrivingStep(s.clock, acts[0].tick);
      }
      if s1.tunnel.up.readErr.None? && s1.tunnel.down.readErr.None? {
        assert Thriving(s1.clock);
        hide TendedNext, TendedInv, Thriving;
        OpenTunnelThrives(local, s1, acts[1..]);
      } else {
        hide TendedNext, Thriving;
        LatchedStays(local, s1, acts[1..]);
      }
    }
  }

  lemma {:induction false} LatchedStays(local: Side, s: Tended, acts: seq<TendedAct>)
    requires TendedInv(local, s) && ValidTending(local, s, acts)
    requires s.tunnel.up.readErr.Some? || s.tunnel.down.readErr.Some?
    ensures var s' := Tending(local, s, acts); s'.tunnel.up.readErr.Some? || s'.tunnel.down.readErr.Some?
    decreases |acts|
  {
    if acts != [] {
      if acts[0].Use? {
        UseKept(local, s, acts[0].call, s.clock.now);
      } else {
        PingKept(local, s, acts[0].tick, acts[0].keep, s.clock.now);
      }
      hide TendedNext, TendedInv;
      LatchedStays(local, TendedNext(local, s, acts[0]), acts[1..]);
    }
  }

  /** And nothing else kills it: with pongs in time and no cancellation, a keepalive that has closed the
      connection tends a tunnel in which some Read has reported an end. */
  lemma OnlyEndedTunnelsAreKilled(local: Side, interval: real, timeout: real, acts: seq<TendedAct>)
    requires Positive(interval, timeout)
    requires ValidTending(local, NewTended(interval, timeout), acts)
    requires Timely(local, NewTended(interval, timeout), acts)
    ensures var s := Tending(local, NewTended(interval, timeout), acts);
      s.clock.closed ==> s.tunnel.up.readErr.Some? || s.tunnel.down.readErr.Some?
  {
    NewTendedInv(local, interval, timeout);
    NewClockThrives(interval, timeout);
    OpenTunnelThrives(local, NewTended(interval, timeout), acts);
  }

  /** A local conn that was closed has cancelled its keepalive, and a clock cancelled in the past has stopped. */
  ghost predicate StopsWhenClosed(local: Side, s: Tended) {
    && (Outgoing(local, s.tunnel).closed ==> s.clock.cancelledAt.Some?)
    && (s.clock.cancelledAt.Some? && s.clock.now > s.clock.cancelledAt.value ==> s.clock.phase.Returned?)
    && s.clock.pingsAfterCancel <= 1
  }

  lemma UseStops(local: Side, s: Tended, call: T.DuplexAct)
    requires TendedInv(local, s) && StopsWhenClosed(local, s)
    ensures StopsWhenClosed(local, TendedNext(local, s, Use(call)))
  {
    T.DuplexStep(s.tunnel, call);
    var t := T.DuplexApply(s.tunnel, call).0;
    assert TendedNext(local, s, Use(call)).tunnel == t;
    hide T.DuplexApply, T.Run, T.LinkInv, Severed, T.NoStrayClose;
  }

  lemma PingStops(local: Side, s: Tended, tick: Act, keep: nat)
    requires TendedInv(local, s) && StopsWhenClosed(local, s) && TendedEnabled(s, Ping(tick, keep))
    ensures StopsWhenClosed(local, TendedNext(local, s, Ping(tick, keep)))
  {
    var c := Next(s.clock, tick);
    StepKept(s.clock, tick);
    PingClock(s.clock, tick);
    T.ClosesOnly(s.tunnel.up, T.Break(keep));
    T.ClosesOnly(s.tunnel.up, T.Break(0));
    T.ClosesOnly(s.tunnel.down, T.Break(keep));
    T.ClosesOnly(s.tunnel.down, T.Break(0));
    hide T.Apply, T.LinkInv, Severed, T.NoStrayClose, Next, Enabled;
    assert Outgoing(local, TendedNext(local, s, Ping(tick, keep)).tunnel).closed == Outgoing(local, s.tunnel).closed;
  }

  lemma {:induction false} StaysStopped(local: Side, s: Tended, acts: seq<TendedAct>)
    requires TendedInv(local, s) && StopsWhenClosed(local, s) && ValidTending(local, s, acts)
    ensures StopsWhenClosed(local, Tending(local, s, acts))
    decreases |acts|
  {
    if acts != [] {
      if acts[0].Use? {
        UseKept(local, s, acts[0].call, s.clock.now);
        UseStops(local, s, acts[0].call);
      } else {
        PingKept(local, s, acts[0].tick, acts[0].keep, s.clock.now);
        PingStops(local, s, acts[0].tick, acts[0].keep);
      }
      hide TendedNext, TendedInv, StopsWhenClosed;
      StaysStopped(local, TendedNext(local, s, acts[0]), acts[1..]);
    }
  }

  /** The keepalive does not outlive its conn: in every run, once the local end is closed its context is cancelled, at
      most one more ping is begun, and the loop has returned before any time passes. */
  lemma ClosedConnStopsPinging(local: Side, interval: real, timeout: real, acts: seq<TendedAct>)
    requires Positive(interval, timeout) && ValidTending(local, NewTended(interval, timeout), acts)
    ensures var s := Tending(local, NewTended(interval, timeout), acts);
      Outgoing(local, s.tunnel).closed ==>
        && s.clock.cancelledAt.Some? && s.clock.pingsAfterCancel <= 1
        && (s.clock.now > s.clock.cancelledAt.value ==> s.clock.phase.Returned?)
  {
    NewTendedInv(local, interval, timeout);
    StaysStopped(local, NewTended(interval, timeout), acts);
  }
}
