/** The whole data plane: local application, client splice, the tunnel's two conns and wire, the agent's handleTCP
    and the endpoint. Each direction is a `Lane`: a copy loop reading a socket into the tunnel (near), the link,
    and a copy loop writing the tunnel into a socket (far). An arbitrary scheduler picks the next step. */
module Splice {
  import opened Prelude
  import opened StreamConn
  import opened Wire
  import T = Tunnel

  /** io.Copy's buffer. */
  const BUF: nat := 32768

  datatype Dir = UpDir | DownDir

  /** A copy loop: running, returned (eof: by end of input, with no error), or done with what follows it. */
  datatype Phase = Copying | Ended(eof: bool) | Gone(eof: bool)

  datatype Pump = Pump(buf: bytes, phase: Phase)

  /** src is what the sending application has yet to produce before it shuts its side; taken what the near loop has
      read; sink what the far socket was given; lost what it was not given when a write to it failed; sinkUp whether
      that socket is still open; shut whether its receiving application has been shown end of input; cut whether the
      transport under the link is gone. */
  datatype Lane = Lane(
    src: bytes,
    taken: bytes,
    near: Pump,
    link: T.Link,
    cut: bool,
    far: Pump,
    sink: bytes,
    lost: bytes,
    sinkUp: bool,
    shut: bool)

  /** A gated application produces nothing, not even its end of input, until it has seen the other's. cap bounds the
      frames in flight each way. */
  datatype Sys = Sys(
    cap: nat,
    clientGated: bool,
    endpointGated: bool,
    up: Lane,
    down: Lane,
    spliced: bool)

  function NewLane(door: Door, sender: Side, script: bytes): Lane {
    Lane(script, [], Pump([], Copying), T.NewLink(door, sender), false, Pump([], Copying), [], [], true, false)
  }

  function Init(door: Door, cap: nat, clientGated: bool, endpointGated: bool, client: bytes, endpoint: bytes): Sys {
    Sys(cap, clientGated, endpointGated, NewLane(door, Client, client), NewLane(door, Agent, endpoint), false)
  }

  datatype Act =
    // near loop
    | Take(d: Dir, n: nat)
    | SourceEnd(d: Dir)
    | SourceFail(d: Dir)
    | Send(d: Dir)
    | SendFail(d: Dir, put: bool)
    | Fin(d: Dir)
    // far loop
    | Receive(d: Dir)
    | Deliver(d: Dir)
    | DeliverFail(d: Dir, n: nat)
    | Shut(d: Dir)
    // splice returns, and Listen closes the tunnel behind it
    | Return
    // the transport dies
    | Cut(d: Dir, keep: nat)

  function LaneOf(s: Sys, d: Dir): Lane {
    if d.UpDir? then s.up else s.down
  }

  function WithLane(s: Sys, d: Dir, l: Lane): Sys {
    if d.UpDir? then s.(up := l) else s.(down := l)
  }

  predicate GateOpen(s: Sys, d: Dir) {
    if d.UpDir? then s.clientGated ==> s.down.shut else s.endpointGated ==> s.up.shut
  }

  function ReadResultOf(l: Lane): ReadResult {
    T.Apply(l.link, T.Read(BUF)).1.read
  }

  predicate Enabled(s: Sys, a: Act) {
    match a
    case Take(d, n) =>
      var l := LaneOf(s, d);
      l.near == Pump([], Copying) && GateOpen(s, d) && 1 <= n <= BUF && n <= |l.src|
    case SourceEnd(d) =>
      var l := LaneOf(s, d);
      l.near == Pump([], Copying) && GateOpen(s, d) && l.src == []
    case SourceFail(d) => LaneOf(s, d).near == Pump([], Copying)
    case Send(d) =>
      var l := LaneOf(s, d);
      l.near.phase.Copying? && l.near.buf != [] && |l.link.wire| < s.cap
    case SendFail(d, _) =>
      var l := LaneOf(s, d);
      l.near.phase.Copying? && l.near.buf != []
    case Fin(d) =>
      var l := LaneOf(s, d);
      l.near.phase.Ended? && (d.UpDir? ==> |l.link.wire| < s.cap || l.cut)
    case Receive(d) =>
      var l := LaneOf(s, d);
      l.far == Pump([], Copying) && !ReadResultOf(l).Waiting?
    case Deliver(d) =>
      var l := LaneOf(s, d);
      l.far.phase.Copying? && l.far.buf != [] && l.sinkUp
    case DeliverFail(d, n) =>
      var l := LaneOf(s, d);
      l.far.phase.Copying? && n < |l.far.buf| && (l.sinkUp || n == 0)
    case Shut(d) => LaneOf(s, d).far.phase.Ended?
    case Return => !s.spliced && s.up.near.phase.Gone? && s.down.far.phase.Gone?
    case Cut(d, _) => !LaneOf(s, d).cut
  }

  /** Steps the environment inflicts: a socket or the transport failing. A Send failing because the transport is
      already gone, or a Deliver because the agent closed its socket, is a consequence and not a fault. */
  predicate Fault(s: Sys, a: Act) {
    match a
    case SourceFail(_) => true
    case SendFail(d, _) => !LaneOf(s, d).cut
    case DeliverFail(d, _) => LaneOf(s, d).sinkUp
    case Cut(_, _) => true
    case _ => false
  }

  /** Listen closing the tunnel: a half-close that already failed fails again. */
  function ClosingOf(s: Sys): T.Act {
    T.Close(if s.up.cut then Some(Other(RESET)) else None, None)
  }

  function Next(s: Sys, a: Act): Sys
    requires Enabled(s, a)
  {
    match a
    case Take(d, n) =>
      var l := LaneOf(s, d);
      WithLane(s, d, l.(near := Pump(l.src[..n], Copying), taken := l.taken + l.src[..n], src := l.src[n..]))
    case SourceEnd(d) => WithLane(s, d, LaneOf(s, d).(near := Pump([], Ended(true))))
    case SourceFail(d) => WithLane(s, d, LaneOf(s, d).(near := Pump([], Ended(false))))
    case Send(d) =>
      var l := LaneOf(s, d);
      WithLane(s, d, l.(near := Pump([], Copying), link := T.Apply(l.link, T.Write(l.near.buf, None, false)).0))
    case SendFail(d, put) =>
      var l := LaneOf(s, d);
      WithLane(s, d, l.(near := Pump([], Ended(false)),
                        link := T.Apply(l.link, T.Write(l.near.buf, Some(Other(RESET)), put)).0))
    case Fin(d) =>
      var l := LaneOf(s, d);
      if d.UpDir? then
        // tunnel.CloseWrite, after any end of the copy
        s.(up := l.(near := Pump([], Gone(l.near.phase.eof)),
                    link := T.Apply(l.link, T.CloseWrite(if l.cut then Some(Other(RESET)) else None)).0))
      else
        // handleTCP returns: the response direction ends, nobody reads the request direction, tcp is closed
        var t := T.DuplexApply(T.Duplex(s.up.link, l.link), T.AgentReturn(true)).0;
        s.(down := l.(near := Pump([], Gone(l.near.phase.eof)), link := t.down),
           up := s.up.(link := t.up, cut := true, sinkUp := false))
    case Receive(d) =>
      var l := LaneOf(s, d);
      var (link, o) := T.Apply(l.link, T.Read(BUF));
      WithLane(s, d, l.(link := link,
                        far := if o.read.Got? then Pump(o.read.data, Copying)
                               else if o.read.Failed? then Pump([], Ended(o.read.err == Eof))
                               else l.far))
    case Deliver(d) =>
      var l := LaneOf(s, d);
      WithLane(s, d, l.(far := Pump([], Copying), sink := l.sink + l.far.buf))
    case DeliverFail(d, n) =>
      var l := LaneOf(s, d);
      WithLane(s, d, l.(far := Pump([], Ended(false)), sink := l.sink + l.far.buf[..n], lost := l.far.buf[n..]))
    case Shut(d) =>
      // handleTCP shuts the endpoint's input after any end of the copy; splice the local one only after a clean end
      var l := LaneOf(s, d);
      var eof := l.far.phase.eof;
      WithLane(s, d, l.(far := Pump([], Gone(eof)), shut := if d.UpDir? then l.sinkUp else eof))
    case Return =>
      var door := s.up.link.door;
      var t := T.DuplexApply(T.Duplex(s.up.link, s.down.link), T.Up(ClosingOf(s))).0;
      s.(spliced := true,
         up := s.up.(link := T.Apply(t.up, T.Refuse).0),
         down := s.down.(link := t.down, cut := s.down.cut || door.WebSocket?))
    case Cut(d, keep) =>
      var l := LaneOf(s, d);
      WithLane(s, d, l.(cut := true, link := T.Apply(l.link, T.Break(keep)).0))
  }

  ghost predicate ValidRun(s: Sys, acts: seq<Act>)
    decreases |acts|
  {
    acts == [] || (Enabled(s, acts[0]) && ValidRun(Next(s, acts[0]), acts[1..]))
  }

  function Run(s: Sys, acts: seq<Act>): Sys
    requires ValidRun(s, acts)
    decreases |acts|
  {
    if acts == [] then s else Run(Next(s, acts[0]), acts[1..])
  }

  /** One act more in front, for runs that are built up. */
  lemma RunCons(s: Sys, a: Act, later: seq<Act>)
    requires Enabled(s, a) && ValidRun(Next(s, a), later)
    ensures ValidRun(s, [a] + later) && Run(s, [a] + later) == Run(Next(s, a), later)
  {
    hide Enabled, Next;
    assert ([a] + later)[1..] == later;
  }

  // ---------------------------------------------------------------- the invariant

  predicate Unbroken(p: T.Pipe) {
    p.fin.None? || p.fin == Some(Eof)
  }

  /** The copy loop has not failed: it is running, or returned by end of input. */
  predicate Clean(p: Pump) {
    p.phase.Copying? || p.phase.eof
  }

  /** A lane's loops and its link, seen as the pipe it refines. */
  ghost predicate LaneOk(l: Lane, p: T.Pipe, total: bytes) {
    && (!l.near.phase.Copying? ==> l.near.buf == [])
    && (!l.far.phase.Copying? ==> l.far.buf == [])
    // accounting, near side
    && l.taken + l.src == total
    && p.accepted <= l.taken
    && (Clean(l.near) && Unbroken(p) ==> p.accepted + l.near.buf == l.taken)
    && (!l.near.phase.Copying? && l.near.phase.eof ==> l.src == [])
    // accounting, far side
    && l.sink + l.far.buf + l.lost == p.delivered
    && (Clean(l.far) ==> l.lost == [])
    // control
    && (l.near.phase.Copying? ==> p.sendErr.None?)
    && (!l.near.phase.Gone? ==> !p.finFired && p.fin != Some(Eof))
    && (p.fin.Some? <==> l.cut || l.near.phase.Gone?)
    && (p.reported ==> !l.far.phase.Copying?)
    && (!l.far.phase.Copying? && l.far.phase.eof ==> p.reported && p.fin == Some(Eof))
  }

  ghost predicate LaneInv(l: Lane, total: bytes) {
    T.LinkInv(l.link) && T.PipeInv(T.Abs(l.link)) && LaneOk(l, T.Abs(l.link), total)
  }

  /** How the two lanes and the two returns hang together. */
  ghost predicate Coupled(s: Sys) {
    && s.cap > 0
    && s.up.link.sender == Client && s.down.link.sender == Agent && s.up.link.door == s.down.link.door
    && s.down.sinkUp
    && (s.up.sinkUp <==> !s.down.near.phase.Gone?)
    && (s.down.near.phase.Gone? ==> s.up.cut)
    && (s.up.far.phase.Gone? && s.up.sinkUp ==> s.up.shut)
    && (s.down.shut <==> s.down.far.phase == Gone(true))
    && (s.spliced ==> s.up.near.phase.Gone? && s.down.far.phase.Gone?)
    && (s.up.link.closed <==> s.spliced)
    && (s.spliced && s.up.link.door.WebSocket? ==> s.down.cut)
  }

  ghost predicate Inv(s: Sys, client: bytes, endpoint: bytes) {
    LaneInv(s.up, client) && LaneInv(s.down, endpoint) && Coupled(s)
  }

  lemma InitInv(door: Door, cap: nat, clientGated: bool, endpointGated: bool, client: bytes, endpoint: bytes)
    requires cap > 0
    ensures Inv(Init(door, cap, clientGated, endpointGated, client, endpoint), client, endpoint)
  {
    assert Inbox(Agent, []) == [] && Inbox(Client, []) == [];
  }

  // Each step of a loop, with the link's part known only as a step of the pipe.

  lemma TakeOk(l: Lane, p: T.Pipe, n: nat, total: bytes)
    requires LaneOk(l, p, total) && l.near == Pump([], Copying) && n <= |l.src|
    ensures LaneOk(l.(near := Pump(l.src[..n], Copying), taken := l.taken + l.src[..n], src := l.src[n..]), p, total)
  {
    assert l.src == l.src[..n] + l.src[n..];
    assert l.taken + l.src[..n] + l.src[n..] == l.taken + (l.src[..n] + l.src[n..]);
  }

  lemma SendOk(l: Lane, p: T.Pipe, link: T.Link, p': T.Pipe, answer: Option<Error>, put: bool, o: T.Obs, total: bytes)
    requires LaneOk(l, p, total) && l.near.phase.Copying? && l.near.buf != []
    requires T.PipeNext(p, T.Write(l.near.buf, answer, put), p', o)
    ensures LaneOk(l.(near := Pump([], if answer.None? then Copying else Ended(false)), link := link), p', total)
  {
  }

  lemma ReceiveOk(l: Lane, p: T.Pipe, link: T.Link, p': T.Pipe, o: T.Obs, total: bytes)
    requires LaneOk(l, p, total) && l.far == Pump([], Copying)
    requires T.PipeNext(p, T.Read(BUF), p', o)
    ensures o.read.Got? ==> LaneOk(l.(far := Pump(o.read.data, Copying), link := link), p', total)
    ensures o.read.Failed? ==> LaneOk(l.(far := Pump([], Ended(o.read.err == Eof)), link := link), p', total)
  {
  }

  lemma DeliverOk(l: Lane, p: T.Pipe, n: nat, total: bytes)
    requires LaneOk(l, p, total) && l.far.phase.Copying? && n <= |l.far.buf|
    ensures LaneOk(l.(far := Pump([], Ended(false)), sink := l.sink + l.far.buf[..n], lost := l.far.buf[n..]), p, total)
    ensures LaneOk(l.(far := Pump([], Copying), sink := l.sink + l.far.buf), p, total)
  {
    assert l.far.buf == l.far.buf[..n] + l.far.buf[n..];
    assert l.sink + l.far.buf[..n] + l.far.buf[n..] == l.sink + l.far.buf;
    assert forall b: bytes :: b + [] == b;
  }

  lemma BreakOk(l: Lane, p: T.Pipe, link: T.Link, p': T.Pipe, keep: nat, o: T.Obs, total: bytes)
    requires LaneOk(l, p, total) && T.PipeNext(p, T.Break(keep), p', o) && (p.reported ==> p.fin.Some?)
    ensures LaneOk(l.(cut := true, link := link), p', total)
  {
  }

  lemma FinOk(l: Lane, p: T.Pipe, link: T.Link, p': T.Pipe, a: T.Act, o: T.Obs, total: bytes)
    requires LaneOk(l, p, total) && l.near.phase.Ended?
    requires a == T.Finish(true) || a == T.CloseWrite(if l.cut then Some(Other(RESET)) else None)
    requires p.sender.Client? <==> a.CloseWrite?
    requires T.PipeNext(p, a, p', o)
    ensures LaneOk(l.(near := Pump([], Gone(l.near.phase.eof)), link := link), p', total)
  {
  }

  lemma LinkStep(l: T.Link, a: T.Act)
    requires T.LinkInv(l) && T.PipeInv(T.Abs(l))
    ensures var (l', o) := T.Apply(l, a);
      T.LinkInv(l') && T.PipeInv(T.Abs(l')) && T.PipeNext(T.Abs(l), a, T.Abs(l'), o)
  {
    T.StepRefines(l, a);
    T.PipeStep(T.Abs(l), a, T.Abs(T.Apply(l, a).0), T.Apply(l, a).1);
  }

  lemma SendKept(s: Sys, a: Act, total: bytes)
    requires (a.Send? || a.SendFail?) && Enabled(s, a) && LaneInv(LaneOf(s, a.d), total)
    ensures LaneInv(LaneOf(Next(s, a), a.d), total)
  {
    var l := LaneOf(s, a.d);
    var answer := if a.Send? then None else Some(Other(RESET));
    var put := a.SendFail? && a.put;
    var (link, o) := T.Apply(l.link, T.Write(l.near.buf, answer, put));
    LinkStep(l.link, T.Write(l.near.buf, answer, put));
    SendOk(l, T.Abs(l.link), link, T.Abs(link), answer, put, o, total);
    assert LaneOf(Next(s, a), a.d)
        == l.(near := Pump([], if answer.None? then Copying else Ended(false)), link := link);
  }

  lemma ReceiveKept(s: Sys, d: Dir, total: bytes)
    requires Enabled(s, Receive(d)) && LaneInv(LaneOf(s, d), total)
    ensures LaneInv(LaneOf(Next(s, Receive(d)), d), total)
  {
    var l := LaneOf(s, d);
    var (link, o) := T.Apply(l.link, T.Read(BUF));
    LinkStep(l.link, T.Read(BUF));
    ReceiveOk(l, T.Abs(l.link), link, T.Abs(link), o, total);
    assert LaneOf(Next(s, Receive(d)), d).link == link;
  }

  lemma CutKept(s: Sys, d: Dir, keep: nat, total: bytes)
    requires Enabled(s, Cut(d, keep)) && LaneInv(LaneOf(s, d), total)
    ensures LaneInv(LaneOf(Next(s, Cut(d, keep)), d), total)
  {
    var l := LaneOf(s, d);
    var (link, o) := T.Apply(l.link, T.Break(keep));
    LinkStep(l.link, T.Break(keep));
    BreakOk(l, T.Abs(l.link), link, T.Abs(link), keep, o, total);
    assert LaneOf(Next(s, Cut(d, keep)), d) == l.(cut := true, link := link);
  }

  lemma UpFinKept(s: Sys, total: bytes)
    requires Enabled(s, Fin(UpDir)) && LaneInv(s.up, total) && s.up.link.sender.Client?
    ensures LaneInv(Next(s, Fin(UpDir)).up, total)
  {
    var l := s.up;
    var a := T.CloseWrite(if l.cut then Some(Other(RESET)) else None);
    var (link, o) := T.Apply(l.link, a);
    LinkStep(l.link, a);
    FinOk(l, T.Abs(l.link), link, T.Abs(link), a, o, total);
    assert Next(s, Fin(UpDir)).up == l.(near := Pump([], Gone(l.near.phase.eof)), link := link);
  }

  /** handleTCP returning: the response direction is ended, the request direction broken. */
  lemma DownFinKept(s: Sys, client: bytes, endpoint: bytes)
    requires Enabled(s, Fin(DownDir)) && LaneInv(s.up, client) && LaneInv(s.down, endpoint) && s.down.link.sender.Agent?
    ensures LaneInv(Next(s, Fin(DownDir)).up, client) && LaneInv(Next(s, Fin(DownDir)).down, endpoint)
  {
    var (down, o) := T.Apply(s.down.link, T.Finish(true));
    var (up, o') := T.Apply(s.up.link, T.Break(0));
    LinkStep(s.down.link, T.Finish(true));
    LinkStep(s.up.link, T.Break(0));
    FinOk(s.down, T.Abs(s.down.link), down, T.Abs(down), T.Finish(true), o, endpoint);
    BreakOk(s.up, T.Abs(s.up.link), up, T.Abs(up), 0, o', client);
    var s' := Next(s, Fin(DownDir));
    assert s'.down == s.down.(near := Pump([], Gone(s.down.near.phase.eof)), link := down);
    assert s'.up == s.up.(cut := true, link := up).(sinkUp := false);
  }

  /** Conn.Close on the client, as it acts on the request direction. */
  function ClosedUp(link: T.Link, closing: T.Act): T.Link {
    T.Apply(T.Apply(link, closing).0, T.Refuse).0
  }

  /** A direction already ended stays as it is when the client closes. */
  lemma ClosedUpKept(link: T.Link, closing: T.Act)
    requires T.LinkInv(link) && link.finPut && closing.Close?
    ensures T.LinkInv(ClosedUp(link, closing))
    ensures var p, p' := T.Abs(link), T.Abs(ClosedUp(link, closing));
      p' == p.(sendErr := p'.sendErr, finFired := p'.finFired, closed := true)
  {
    var half := T.Apply(link, closing).0;
    T.StepRefines(link, closing);
    T.PipeCloseShape(T.Abs(link), closing, T.Abs(half), T.Apply(link, closing).1);
    T.StepRefines(half, T.Refuse);
    hide T.Apply, T.AsReader;
  }

  lemma ReturnUpKept(s: Sys, client: bytes)
    requires Enabled(s, Return) && LaneInv(s.up, client)
    ensures LaneInv(Next(s, Return).up, client)
  {
    UpAfterReturn(s);
    ClosedUpKept(s.up.link, ClosingOf(s));
    hide Next, ClosedUp;
  }

  lemma UpAfterReturn(s: Sys)
    requires Enabled(s, Return)
    ensures Next(s, Return).up == s.up.(link := ClosedUp(s.up.link, ClosingOf(s))) && Next(s, Return).spliced
  {
    hide T.HalfClose;
  }

  lemma ReturnDownKept(s: Sys, endpoint: bytes)
    requires Enabled(s, Return) && LaneInv(s.down, endpoint) && s.up.link.door == s.down.link.door && !s.up.link.closed
    ensures LaneInv(Next(s, Return).down, endpoint)
  {
    DownAfterReturn(s);
    hide Next;
    LaneBroken(s.down, endpoint);
  }

  /** Over Connect nothing happens to the response direction; a closed WebSocket breaks it. */
  lemma DownAfterReturn(s: Sys)
    requires Enabled(s, Return) && s.up.link.door == s.down.link.door && !s.up.link.closed
    ensures Next(s, Return).down == if s.up.link.door.Connect? then s.down else Broken(s.down)
  {
    T.RunOne(s.down.link, T.Break(0));
    hide T.Apply, T.Run;
  }

  function Broken(l: Lane): Lane {
    l.(cut := true, link := T.Apply(l.link, T.Break(0)).0)
  }

  lemma LaneBroken(l: Lane, total: bytes)
    requires LaneInv(l, total)
    ensures LaneInv(Broken(l), total)
  {
    var (link, o) := T.Apply(l.link, T.Break(0));
    LinkStep(l.link, T.Break(0));
    BreakOk(l, T.Abs(l.link), link, T.Abs(link), 0, o, total);
  }

  lemma TakeKept(s: Sys, d: Dir, n: nat, total: bytes)
    requires Enabled(s, Take(d, n)) && LaneInv(LaneOf(s, d), total)
    ensures LaneInv(LaneOf(Next(s, Take(d, n)), d), total)
  {
    TakeOk(LaneOf(s, d), T.Abs(LaneOf(s, d).link), n, total);
  }

  lemma DeliverKept(s: Sys, a: Act, total: bytes)
    requires (a.Deliver? || a.DeliverFail?) && Enabled(s, a) && LaneInv(LaneOf(s, a.d), total)
    ensures LaneInv(LaneOf(Next(s, a), a.d), total)
  {
    DeliverOk(LaneOf(s, a.d), T.Abs(LaneOf(s, a.d).link), if a.Deliver? then 0 else a.n, total);
  }

  lemma LaneKept(s: Sys, a: Act, total: bytes)
    requires Enabled(s, a) && !a.Return? && a != Fin(DownDir)
    requires LaneInv(LaneOf(s, a.d), total) && s.up.link.sender.Client?
    ensures LaneInv(LaneOf(Next(s, a), a.d), total)
  {
    if a.Fin? {
      assert a.d == UpDir && LaneOf(s, a.d) == s.up && LaneOf(Next(s, a), a.d) == Next(s, a).up;
    }
    hide LaneInv, LaneOf, Next, Enabled;
    match a
    case Take(d, n) => TakeKept(s, d, n, total);
    case Send(_) => SendKept(s, a, total);
    case SendFail(_, _) => SendKept(s, a, total);
    case Fin(_) => UpFinKept(s, total);
    case Receive(d) => ReceiveKept(s, d, total);
    case Deliver(_) => DeliverKept(s, a, total);
    case DeliverFail(_, _) => DeliverKept(s, a, total);
    case Cut(d, keep) => CutKept(s, d, keep, total);
    case _ => LoopEndKept(s, a, total);
  }

  lemma LoopEndKept(s: Sys, a: Act, total: bytes)
    requires (a.SourceEnd? || a.SourceFail? || a.Shut?) && Enabled(s, a) && LaneInv(LaneOf(s, a.d), total)
    ensures LaneInv(LaneOf(Next(s, a), a.d), total)
  {
    assert LaneOf(Next(s, a), a.d).link == LaneOf(s, a.d).link;
  }

  lemma OtherLaneUntouched(s: Sys, a: Act)
    requires Enabled(s, a) && !a.Return? && a != Fin(DownDir)
    ensures Next(s, a) == WithLane(s, a.d, LaneOf(Next(s, a), a.d))
  {
  }

  lemma LanesKept(s: Sys, a: Act, client: bytes, endpoint: bytes)
    requires Inv(s, client, endpoint) && Enabled(s, a)
    ensures LaneInv(Next(s, a).up, client) && LaneInv(Next(s, a).down, endpoint)
  {
    if a == Fin(DownDir) {
      DownFinKept(s, client, endpoint);
    } else if a.Return? {
      ReturnUpKept(s, client);
      ReturnDownKept(s, endpoint);
    } else {
      LaneKept(s, a, if a.d.UpDir? then client else endpoint);
      OtherLaneUntouched(s, a);
    }
  }

  /** The parts of a lane the coupling speaks of, before and after a step of that lane's loops. */
  lemma LaneStepShape(s: Sys, a: Act)
    requires Enabled(s, a) && !a.Return? && a != Fin(DownDir)
    ensures var l, l' := LaneOf(s, a.d), LaneOf(Next(s, a), a.d);
      && l'.link.sender == l.link.sender && l'.link.door == l.link.door && l'.link.closed == l.link.closed
          && l'.sinkUp == l.sinkUp
      && (l.near.phase.Gone? ==> l'.near.phase.Gone?)
      && (l'.near.phase.Gone? && a.d.DownDir? ==> l.near.phase.Gone?)
      && (l.far.phase.Gone? ==> l'.far == l.far && l'.shut == l.shut)
      && (l'.far.phase.Gone? && !l.far.phase.Gone? ==> l'.shut == if a.d.UpDir? then l.sinkUp else l'.far.phase.eof)
      && (!l'.far.phase.Gone? ==> l'.shut == l.shut)
      && (l.cut ==> l'.cut)
  {
    match a
    case Send(_) => LinkStepShape(s, a);
    case SendFail(_, _) => LinkStepShape(s, a);
    case Fin(_) => LinkStepShape(s, a);
    case Receive(_) => LinkStepShape(s, a);
    case Cut(_, _) => LinkStepShape(s, a);
    case _ =>
  }

  lemma LinkStepShape(s: Sys, a: Act)
    requires Enabled(s, a) && (a.Send? || a.SendFail? || a == Fin(UpDir) || a.Receive? || a.Cut?)
    ensures var l, l' := LaneOf(s, a.d), LaneOf(Next(s, a), a.d);
      && l'.link.sender == l.link.sender && l'.link.door == l.link.door && l'.link.closed == l.link.closed
      && l'.sinkUp == l.sinkUp && l'.shut == l.shut
      && (l'.near.phase.Gone? <==> l.near.phase.Gone? || a.Fin?) && (l'.far.phase.Gone? <==> l.far.phase.Gone?)
      && (l.far.phase.Gone? ==> l'.far == l.far)
      && (l.cut ==> l'.cut)
  {
    var l := LaneOf(s, a.d).link;
    var step := LinkActOf(s, a);
    assert LaneOf(Next(s, a), a.d).link == T.Apply(l, step).0;
    T.SameEnds(l, step);
    T.ClosesOnly(l, step);
    hide T.Apply;
  }

  /** What a loop's step does to the link. */
  function LinkActOf(s: Sys, a: Act): T.Act
    requires a.Send? || a.SendFail? || a == Fin(UpDir) || a.Receive? || a.Cut?
  {
    var l := LaneOf(s, a.d);
    match a
    case Send(_) => T.Write(l.near.buf, None, false)
    case SendFail(_, put) => T.Write(l.near.buf, Some(Other(RESET)), put)
    case Fin(_) => T.CloseWrite(if l.cut then Some(Other(RESET)) else None)
    case Receive(_) => T.Read(BUF)
    case Cut(_, keep) => T.Break(keep)
  }

  /** The coupling survives a step of one lane's loops. */
  lemma LaneCoupled(s: Sys, d: Dir, l': Lane)
    requires Coupled(s)
    requires var l := LaneOf(s, d);
      && l'.link.sender == l.link.sender && l'.link.door == l.link.door && l'.link.closed == l.link.closed
          && l'.sinkUp == l.sinkUp
      && (l.near.phase.Gone? ==> l'.near.phase.Gone?)
      && (l'.near.phase.Gone? && d.DownDir? ==> l.near.phase.Gone?)
      && (l.far.phase.Gone? ==> l'.far == l.far && l'.shut == l.shut)
      && (l'.far.phase.Gone? && !l.far.phase.Gone? ==> l'.shut == if d.UpDir? then l.sinkUp else l'.far.phase.eof)
      && (!l'.far.phase.Gone? ==> l'.shut == l.shut)
      && (l.cut ==> l'.cut)
    ensures Coupled(WithLane(s, d, l'))
  {
  }

  lemma CouplingKept(s: Sys, a: Act)
    requires Coupled(s) && Enabled(s, a)
    ensures Coupled(Next(s, a))
  {
    hide Next, Enabled, Coupled, LaneOf, WithLane;
    if a != Fin(DownDir) && !a.Return? {
      LaneStepShape(s, a);
      OtherLaneUntouched(s, a);
      LaneCoupled(s, a.d, LaneOf(Next(s, a), a.d));
    } else {
      ReturnsCoupled(s, a);
    }
  }

  lemma ReturnsCoupled(s: Sys, a: Act)
    requires Coupled(s) && Enabled(s, a) && (a == Fin(DownDir) || a.Return?)
    ensures Coupled(Next(s, a))
  {
    if a.Return? {
      ReturnCoupled(s);
    } else {
      DownFinCoupled(s);
    }
    hide Next, Enabled, Coupled;
  }

  lemma ReturnCoupled(s: Sys)
    requires Coupled(s) && Enabled(s, Return)
    ensures Coupled(Next(s, Return))
  {
    var s' := Next(s, Return);
    UpAfterReturn(s);
    DownAfterReturn(s);
    assert s' == s.(spliced := true, up := s'.up, down := s'.down);
    hide Next;
    var closing := ClosingOf(s);
    var half := T.Apply(s.up.link, closing).0;
    T.SameEnds(s.up.link, closing);
    T.SameEnds(half, T.Refuse);
    T.ClosesOnly(s.up.link, closing);
    T.ClosesOnly(half, T.Refuse);
    T.SameEnds(s.down.link, T.Break(0));
    T.ClosesOnly(s.down.link, T.Break(0));
    hide T.Apply;
  }

  lemma DownFinCoupled(s: Sys)
    requires Coupled(s) && Enabled(s, Fin(DownDir))
    ensures Coupled(Next(s, Fin(DownDir)))
  {
    T.SameEnds(s.up.link, T.Break(0));
    T.SameEnds(s.down.link, T.Finish(true));
    T.ClosesOnly(s.up.link, T.Break(0));
    hide T.Apply, T.Run;
  }

  lemma StepKeepsInv(s: Sys, a: Act, client: bytes, endpoint: bytes)
    requires Inv(s, client, endpoint) && Enabled(s, a)
    ensures Inv(Next(s, a), client, endpoint)
  {
    LanesKept(s, a, client, endpoint);
    CouplingKept(s, a);
  }

  lemma {:induction false} RunKeepsInv(s: Sys, acts: seq<Act>, client: bytes, endpoint: bytes)
    requires Inv(s, client, endpoint) && ValidRun(s, acts)
    ensures Inv(Run(s, acts), client, endpoint)
    decreases |acts|
  {
    if acts != [] {
      StepKeepsInv(s, acts[0], client, endpoint);
      hide Inv, Next, Enabled;
      RunKeepsInv(Next(s, acts[0]), acts[1..], client, endpoint);
    }
  }
}
