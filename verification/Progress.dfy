/** Where a run of the splice can come to rest. Every state in which nothing but a fresh fault can happen is
    either final or one of three hangs, each described outright; with no fault and no mutual waiting, only the
    final state is left. */
module Progress {
  import opened Prelude
  import opened StreamConn
  import opened Wire
  import T = Tunnel
  import opened Splice
  import opened Completion

  predicate CanMove(s: Sys, a: Act) {
    Enabled(s, a) && !Fault(s, a)
  }

  /** Nothing can happen any more, short of a new failure. */
  ghost predicate AtRest(s: Sys) {
    forall a :: !CanMove(s, a)
  }

  /** splice has returned, handleTCP has returned, and so has the goroutine it left behind. */
  predicate Final(s: Sys) {
    s.spliced && s.down.near.phase.Gone? && s.up.far.phase.Gone?
  }

  /** The near loop is reading a socket whose application is waiting for end of input first. */
  predicate HeldAtGate(s: Sys, d: Dir) {
    LaneOf(s, d).near == Pump([], Copying) && !GateOpen(s, d)
  }

  /** The near loop has something to send, the transport is up, and its buffers are full. */
  predicate Backlogged(s: Sys, d: Dir) {
    var l := LaneOf(s, d);
    && !l.cut && |l.link.wire| >= s.cap
    && ((l.near.phase.Copying? && l.near.buf != []) || (d.UpDir? && l.near.phase.Ended?))
  }

  /** The far loop is in a Read that has nothing to return, or is finished. */
  predicate FarQuiet(l: Lane) {
    || l.far.phase.Gone?
    || (l.far == Pump([], Copying) && ReadResultOf(l).Waiting?)
  }

  /** Both applications wait for the other's end of input. */
  predicate BothWait(s: Sys) {
    HeldAtGate(s, UpDir) && HeldAtGate(s, DownDir) && FarQuiet(s.up) && FarQuiet(s.down)
  }

  /** The tunnel ended with an error: splice has stopped copying to the local connection but neither shut nor
      closed it, and waits for the local application, which waits for an answer. */
  predicate LocalHangs(s: Sys) {
    && HeldAtGate(s, UpDir) && s.down.far.phase.Gone?
    && s.down.near.phase.Gone? && s.up.far.phase.Gone?
  }

  /** Nobody reads the response direction any more, but its transport is up: handleTCP stays in Write for good. */
  predicate AgentHangs(s: Sys) {
    && Backlogged(s, DownDir) && s.down.far.phase.Gone?
    && FarQuiet(s.up)
    && (s.spliced || HeldAtGate(s, UpDir) || (Backlogged(s, UpDir) && s.up.far.phase.Gone?))
  }

  /** The states of rest, exactly. */
  lemma RestExactly(s: Sys, client: bytes, endpoint: bytes)
    requires Inv(s, client, endpoint)
    ensures AtRest(s) <==> Final(s) || BothWait(s) || LocalHangs(s) || AgentHangs(s)
  {
    if AtRest(s) {
      RestIsNamed(s, client, endpoint);
    } else if Final(s) || BothWait(s) || LocalHangs(s) || AgentHangs(s) {
      forall a ensures !CanMove(s, a) {
        NamedIsRest(s, a, client, endpoint);
      }
    }
  }

  /** At rest, a near loop is finished, held at the gate, or backlogged; a far loop quiet. */
  lemma LoopsAtRest(s: Sys, d: Dir)
    requires AtRest(s) && s.cap > 0
    ensures var l := LaneOf(s, d);
      && (l.near.phase.Gone? || HeldAtGate(s, d) || Backlogged(s, d))
      && (l.far.phase.Copying? ==> l.far.buf == [] && ReadResultOf(l).Waiting?)
      && !l.far.phase.Ended?
  {
    assert !CanMove(s, Take(d, 1)) && !CanMove(s, SourceEnd(d)) && !CanMove(s, Send(d))
        && !CanMove(s, SendFail(d, false)) && !CanMove(s, Fin(d));
    NearAtRest(s, d);
    assert !CanMove(s, Receive(d)) && !CanMove(s, Deliver(d)) && !CanMove(s, DeliverFail(d, 0)) && !CanMove(s, Shut(d));
    FarAtRest(s, d);
    hide CanMove, HeldAtGate, Backlogged, ReadResultOf;
  }

  lemma NearAtRest(s: Sys, d: Dir)
    requires !CanMove(s, Take(d, 1)) && !CanMove(s, SourceEnd(d)) && !CanMove(s, Send(d))
    requires !CanMove(s, SendFail(d, false)) && !CanMove(s, Fin(d))
    ensures LaneOf(s, d).near.phase.Gone? || HeldAtGate(s, d) || Backlogged(s, d)
  {
    hide ReadResultOf, GateOpen;
  }

  lemma FarAtRest(s: Sys, d: Dir)
    requires !CanMove(s, Receive(d)) && !CanMove(s, Deliver(d)) && !CanMove(s, DeliverFail(d, 0))
    requires !CanMove(s, Shut(d))
    ensures var l := LaneOf(s, d);
      (l.far.phase.Copying? ==> l.far.buf == [] && ReadResultOf(l).Waiting?) && !l.far.phase.Ended?
  {
    hide ReadResultOf, GateOpen;
  }

  /** A far loop waits only on a direction that is open and empty. */
  lemma WaitingMeansEmpty(l: Lane, total: bytes)
    requires LaneInv(l, total)
    ensures ReadResultOf(l).Waiting? ==> l.link.wire == [] && !l.link.finPut && !l.cut && !l.near.phase.Gone?
  {
    T.ReadIsReadStep(l.link, BUF);
    var r := T.AsReader(l.link);
    ReadStepMeaning(r, BUF);
    if l.link.wire != [] {
      var f := l.link.wire[0];
      assert f in l.link.wire && r.inbox[0] == Decode(T.Receiver(l.link), f);
      assert !ReadResultOf(l).Waiting?;
    }
  }

  lemma RestIsNamed(s: Sys, client: bytes, endpoint: bytes)
    requires Inv(s, client, endpoint) && AtRest(s)
    ensures Final(s) || BothWait(s) || LocalHangs(s) || AgentHangs(s)
  {
    LoopsAtRest(s, UpDir);
    LoopsAtRest(s, DownDir);
    WaitingMeansEmpty(s.up, client);
    WaitingMeansEmpty(s.down, endpoint);
    assert !CanMove(s, Return);
    hide ReadResultOf, T.LinkInv, T.PipeInv;
  }

  lemma NamedIsRest(s: Sys, a: Act, client: bytes, endpoint: bytes)
    requires Inv(s, client, endpoint)
    requires Final(s) || BothWait(s) || LocalHangs(s) || AgentHangs(s)
    ensures !CanMove(s, a)
  {
  }

  // ---------------------------------------------------------------- without faults

  ghost predicate FaultFree(s: Sys, acts: seq<Act>)
    requires ValidRun(s, acts)
    decreases |acts|
  {
    acts == [] || (!Fault(s, acts[0]) && FaultFree(Next(s, acts[0]), acts[1..]))
  }

  /** What faults would break. The endpoint hanging up first is not a fault; it ends the request direction early. */
  ghost predicate Sound(s: Sys) {
    var up, down := T.Abs(s.up.link), T.Abs(s.down.link);
    && Unbroken(down)
    && (s.down.cut ==> s.spliced)
    && Clean(s.down.near) && Clean(s.down.far)
    && (s.spliced ==> s.down.near.phase.Gone?)
    && (s.up.cut ==> s.down.near.phase.Gone?)
    && (!Unbroken(up) ==> s.up.cut)
    && (!Clean(s.up.near) ==> s.up.cut)
    && (!Clean(s.up.far) ==> s.up.cut)
    && (up.fin == Some(Eof) ==> s.up.near.phase == Gone(true))
    && (s.up.shut ==> s.up.far.phase == Gone(true))
    && (s.endpointGated && !s.down.near.phase.Copying? ==> s.up.shut)
  }

  lemma {:induction false} RunStaysSound(s: Sys, acts: seq<Act>, client: bytes, endpoint: bytes)
    requires Inv(s, client, endpoint) && Sound(s) && ValidRun(s, acts) && FaultFree(s, acts)
    ensures Inv(Run(s, acts), client, endpoint) && Sound(Run(s, acts))
    decreases |acts|
  {
    if acts != [] {
      StepKeepsInv(s, acts[0], client, endpoint);
      StepStaysSound(s, acts[0], client, endpoint);
      RunStaysSound(Next(s, acts[0]), acts[1..], client, endpoint);
    }
  }

  /** How a link step changes the way its direction ended. */
  lemma FinAfter(l: T.Link, a: T.Act)
    requires T.LinkInv(l) && T.PipeInv(T.Abs(l))
    ensures var p, p' := T.Abs(l), T.Abs(T.Apply(l, a).0);
      && (a.Write? || a.Read? ==> p'.fin == p.fin)
      && (a.Finish? ==> p'.fin == if p.fin.Some? then p.fin else Some(if a.ok then Eof else Other(HANDLER_FAILED)))
      && (a.CloseWrite? ==> p'.fin == p.fin || (p.fin.None? && p'.fin == Some(Eof) && a.answer.None?))
      && (a.Break? ==> p'.fin == p.fin || (!p.reported && p'.fin == Some(Other(RESET))))
      && (a.Read? && T.Apply(l, a).1.read.Failed? ==> Some(T.Apply(l, a).1.read.err) == p.fin)
  {
    LinkStep(l, a);
  }

  lemma SendStaysSound(s: Sys, a: Act, client: bytes, endpoint: bytes)
    requires a.Send? || a.SendFail?
    requires Inv(s, client, endpoint) && Sound(s) && CanMove(s, a)
    ensures Sound(Next(s, a))
  {
    var l := LaneOf(s, a.d);
    var write := if a.Send? then T.Write(l.near.buf, None, false) else T.Write(l.near.buf, Some(Other(RESET)), a.put);
    FinAfter(l.link, write);
    assert LaneOf(Next(s, a), a.d).link == T.Apply(l.link, write).0;
  }

  lemma ReceiveStaysSound(s: Sys, d: Dir, client: bytes, endpoint: bytes)
    requires Inv(s, client, endpoint) && Sound(s) && CanMove(s, Receive(d))
    ensures Sound(Next(s, Receive(d)))
  {
    var l := LaneOf(s, d);
    FinAfter(l.link, T.Read(BUF));
    assert LaneOf(Next(s, Receive(d)), d).link == T.Apply(l.link, T.Read(BUF)).0;
  }

  lemma FinStaysSound(s: Sys, d: Dir, client: bytes, endpoint: bytes)
    requires Inv(s, client, endpoint) && Sound(s) && CanMove(s, Fin(d))
    ensures Sound(Next(s, Fin(d)))
  {
    if d.UpDir? {
      FinAfter(s.up.link, T.CloseWrite(if s.up.cut then Some(Other(RESET)) else None));
    } else {
      FinAfter(s.down.link, T.Finish(true));
      FinAfter(s.up.link, T.Break(0));
    }
  }

  lemma ReturnStaysSound(s: Sys, client: bytes, endpoint: bytes)
    requires Inv(s, client, endpoint) && Sound(s) && CanMove(s, Return)
    ensures Sound(Next(s, Return))
  {
    ClosedUpKept(s.up.link, ClosingOf(s));
    UpAfterReturn(s);
    DownAfterReturn(s);
    FinAfter(s.down.link, T.Break(0));
    assert Next(s, Return) == s.(spliced := true, up := Next(s, Return).up, down := Next(s, Return).down);
    hide Next, ClosedUp, T.Apply;
  }

  lemma StepStaysSound(s: Sys, a: Act, client: bytes, endpoint: bytes)
    requires Inv(s, client, endpoint) && Sound(s) && CanMove(s, a)
    ensures Sound(Next(s, a))
  {
    match a
    case Send(_) => SendStaysSound(s, a, client, endpoint);
    case SendFail(_, _) => SendStaysSound(s, a, client, endpoint);
    case Fin(d) => FinStaysSound(s, d, client, endpoint);
    case Receive(d) => ReceiveStaysSound(s, d, client, endpoint);
    case Return => ReturnStaysSound(s, client, endpoint);
    case _ => LoopStaysSound(s, a, client, endpoint);
  }

  lemma LoopStaysSound(s: Sys, a: Act, client: bytes, endpoint: bytes)
    requires a.Take? || a.SourceEnd? || a.SourceFail? || a.Deliver? || a.DeliverFail? || a.Shut? || a.Cut?
    requires Inv(s, client, endpoint) && Sound(s) && CanMove(s, a)
    ensures Sound(Next(s, a))
  {
    if a.Take? || a.SourceEnd? {
      NearStaysSound(s, a, client, endpoint);
    } else {
      FarStaysSound(s, a, client, endpoint);
    }
  }

  lemma NearStaysSound(s: Sys, a: Act, client: bytes, endpoint: bytes)
    requires a.Take? || a.SourceEnd?
    requires Inv(s, client, endpoint) && Sound(s) && CanMove(s, a)
    ensures Sound(Next(s, a))
  {
    var s' := Next(s, a);
    assert s'.up.link == s.up.link && s'.down.link == s.down.link;
  }

  lemma FarStaysSound(s: Sys, a: Act, client: bytes, endpoint: bytes)
    requires a.Deliver? || a.DeliverFail? || a.Shut?
    requires Inv(s, client, endpoint) && Sound(s) && CanMove(s, a)
    ensures Sound(Next(s, a))
  {
    var s' := Next(s, a);
    assert s'.up.link == s.up.link && s'.down.link == s.down.link;
    hide T.AsReader, T.LinkInv, T.PipeInv;
  }

  lemma InitSound(door: Door, cap: nat, clientGated: bool, endpointGated: bool, client: bytes, endpoint: bytes)
    requires cap > 0
    ensures Sound(Init(door, cap, clientGated, endpointGated, client, endpoint))
  {
    assert Inbox(Agent, []) == [] && Inbox(Client, []) == [];
  }

  /** The splice completes. Through either door, with any bounds on the buffers: unless both applications wait for
      each other, a fault-free run can only come to rest with splice and handleTCP returned; the local side then
      has the endpoint's whole answer and its end of input. An endpoint that reads to the end before answering has
      had the client's whole request: the half-close crossed the tunnel. */
  lemma SpliceCompletes(start: Sys, acts: seq<Act>, client: bytes, endpoint: bytes)
    requires start.cap > 0
    requires start == Init(start.up.link.door, start.cap, start.clientGated, start.endpointGated, client, endpoint)
    requires ValidRun(start, acts) && FaultFree(start, acts)
    requires !(start.clientGated && start.endpointGated)
    ensures var s := Run(start, acts);
      && (AtRest(s) <==> Final(s))
      && (Final(s) ==> s.down.sink == endpoint && s.down.shut)
      && (Final(s) && start.endpointGated ==> s.up.sink == client && s.up.shut)
  {
    InitInv(start.up.link.door, start.cap, start.clientGated, start.endpointGated, client, endpoint);
    InitSound(start.up.link.door, start.cap, start.clientGated, start.endpointGated, client, endpoint);
    RunStaysSound(start, acts, client, endpoint);
    GatesKept(start, acts);
    var s := Run(start, acts);
    RestExactly(s, client, endpoint);
    EndOfInputIsExact(start, acts, client, endpoint, DownDir);
    EndOfInputIsExact(start, acts, client, endpoint, UpDir);
  }

  lemma GatesKeptStep(s: Sys, a: Act)
    requires Enabled(s, a)
    ensures var s' := Next(s, a);
        s'.cap == s.cap && s'.clientGated == s.clientGated && s'.endpointGated == s.endpointGated
  {
    hide T.Apply, ReadResultOf;
    match a
    case Fin(d) =>
    case Return =>
    case _ =>
      OtherLaneUntouched(s, a);
      hide Next, LaneOf, Enabled;
  }

  lemma {:induction false} GatesKept(s: Sys, acts: seq<Act>)
    requires ValidRun(s, acts)
    ensures var s' := Run(s, acts);
        s'.cap == s.cap && s'.clientGated == s.clientGated && s'.endpointGated == s.endpointGated
    decreases |acts|
  {
    if acts != [] {
      GatesKeptStep(s, acts[0]);
      hide Next, Enabled;
      GatesKept(Next(s, acts[0]), acts[1..]);
    }
  }

  ghost predicate NeverHangs(start: Sys) {
    forall acts :: ValidRun(start, acts) && FaultFree(start, acts) && AtRest(Run(start, acts)) ==>
        Final(Run(start, acts))
  }

  /** The condition is exact: fault-free runs never hang if and only if the applications do not both wait. */
  lemma DeadlockFreeExactly(door: Door, cap: nat, clientGated: bool, endpointGated: bool, client: bytes,
        endpoint: bytes)
    requires cap > 0
    ensures NeverHangs(Init(door, cap, clientGated, endpointGated, client, endpoint)) <==>
        !(clientGated && endpointGated)
  {
    var start := Init(door, cap, clientGated, endpointGated, client, endpoint);
    if clientGated && endpointGated {
      assert Inbox(Agent, []) == [] && Inbox(Client, []) == [];
      assert BothWait(start);
      InitInv(door, cap, clientGated, endpointGated, client, endpoint);
      RestExactly(start, client, endpoint);
      var none: seq<Act> := [];
      assert ValidRun(start, none) && FaultFree(start, none) && Run(start, none) == start;
    } else {
      forall acts | ValidRun(start, acts) && FaultFree(start, acts) && AtRest(Run(start, acts))
        ensures Final(Run(start, acts))
      {
        SpliceCompletes(start, acts, client, endpoint);
      }
    }
  }
}
