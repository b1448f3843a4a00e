/** What faults do to the splice, exactly: which of them can make a cut-off transfer look whole, when a broken
    tunnel lets the local session end, and when an agent whose client is gone can still finish. */
module Faults {
  import opened Prelude
  import opened StreamConn
  import opened Wire
  import T = Tunnel
  import opened Splice
  import opened Completion
  import opened Progress

  // ---------------------------------------------------------------- runs with faults of given kinds

  /** Reading the source socket fails; writing the tunnel; writing the far socket; the transport. */
  datatype FaultKind = SourceFails | SendFails | DeliverFails | TransportFails

  /** The kinds a run may show, in each direction. */
  datatype Allow = Allow(up: set<FaultKind>, down: set<FaultKind>)

  const ALL: set<FaultKind> := {SourceFails, SendFails, DeliverFails, TransportFails}
  const NONE := Allow({}, {})

  function KindOf(a: Act): FaultKind {
    if a.SourceFail? then SourceFails else if a.SendFail? then SendFails else if a.DeliverFail? then DeliverFails
    else TransportFails
  }

  predicate Allowed(allow: Allow, s: Sys, a: Act) {
    Fault(s, a) ==> KindOf(a) in if a.d.UpDir? then allow.up else allow.down
  }

  ghost predicate Goes(allow: Allow, s: Sys, acts: seq<Act>)
    decreases |acts|
  {
    acts == [] || (Enabled(s, acts[0]) && Allowed(allow, s, acts[0]) && Goes(allow, Next(s, acts[0]), acts[1..]))
  }

  lemma {:induction false} GoesIsValid(allow: Allow, s: Sys, acts: seq<Act>)
    requires Goes(allow, s, acts)
    ensures ValidRun(s, acts)
    decreases |acts|
  {
    if acts != [] {
      hide Enabled, Next, Allowed;
      GoesIsValid(allow, Next(s, acts[0]), acts[1..]);
    }
  }

  lemma GoesCons(allow: Allow, s: Sys, a: Act, later: seq<Act>)
    requires Enabled(s, a) && Allowed(allow, s, a) && Goes(allow, Next(s, a), later)
    ensures Goes(allow, s, [a] + later) && ValidRun(Next(s, a), later)
    ensures ValidRun(s, [a] + later) && Run(s, [a] + later) == Run(Next(s, a), later)
  {
    hide Enabled, Next, Allowed;
    GoesIsValid(allow, Next(s, a), later);
    RunCons(s, a, later);
    assert ([a] + later)[1..] == later;
  }

  // ---------------------------------------------------------------- uploads

  /** Without faults on the way up: end of input at the agent comes from the client's own, and only the agent's
      closing of its socket breaks the direction or fails a delivery. */
  ghost predicate UploadSound(s: Sys) {
    var p := T.Abs(s.up.link);
    && (s.up.cut ==> !s.up.sinkUp)
    && (!Unbroken(p) ==> s.up.cut)
    && (!Clean(s.up.near) ==> s.up.cut)
    && (!Clean(s.up.far) ==> !s.up.sinkUp)
    && (p.fin == Some(Eof) ==> s.up.near.phase == Gone(true))
    && (s.up.shut ==> s.up.far.phase == Gone(true))
  }

  lemma UploadLinkStep(s: Sys, a: Act, client: bytes, endpoint: bytes)
    requires a.Send? || a.SendFail? || a.Receive?
    requires a.d.UpDir? && Inv(s, client, endpoint) && UploadSound(s) && Enabled(s, a) && Allowed(Allow({}, ALL), s, a)
    ensures UploadSound(Next(s, a))
  {
    var l := s.up;
    var step := LinkActOf(s, a);
    FinAfter(l.link, step);
    assert Next(s, a).up.link == T.Apply(l.link, step).0;
    hide T.Apply, T.Abs, T.LinkInv, T.PipeInv;
  }

  lemma UploadFinStep(s: Sys, client: bytes, endpoint: bytes)
    requires Inv(s, client, endpoint) && UploadSound(s) && Enabled(s, Fin(UpDir))
    ensures UploadSound(Next(s, Fin(UpDir)))
  {
    var step := T.CloseWrite(if s.up.cut then Some(Other(RESET)) else None);
    FinAfter(s.up.link, step);
    assert Next(s, Fin(UpDir)).up
        == s.up.(near := Pump([], Gone(s.up.near.phase.eof)), link := T.Apply(s.up.link, step).0);
    hide T.Apply, T.Abs, Next;
  }

  lemma UploadEndStep(s: Sys, a: Act, client: bytes, endpoint: bytes)
    requires a == Fin(DownDir) || a.Return?
    requires Inv(s, client, endpoint) && UploadSound(s) && Enabled(s, a)
    ensures UploadSound(Next(s, a))
  {
    if a.Return? {
      UpAfterReturn(s);
      ClosedUpKept(s.up.link, ClosingOf(s));
      hide Next, ClosedUp;
    } else {
      FinAfter(s.up.link, T.Break(0));
      assert Next(s, a).up == s.up.(link := T.Apply(s.up.link, T.Break(0)).0, cut := true, sinkUp := false);
      hide Next, T.Apply, T.Abs;
    }
  }

  lemma UploadLoopStep(s: Sys, a: Act, client: bytes, endpoint: bytes)
    requires a.Take? || a.SourceEnd? || a.SourceFail? || a.Deliver? || a.DeliverFail? || a.Shut? || a.Cut?
    requires a.d.UpDir? && Inv(s, client, endpoint) && UploadSound(s) && Enabled(s, a) && Allowed(Allow({}, ALL), s, a)
    ensures UploadSound(Next(s, a))
  {
    assert Next(s, a).up.link == s.up.link;
    hide T.Abs, T.LinkInv, T.PipeInv;
  }

  lemma UploadStep(s: Sys, a: Act, client: bytes, endpoint: bytes)
    requires Inv(s, client, endpoint) && UploadSound(s) && Enabled(s, a) && Allowed(Allow({}, ALL), s, a)
    ensures UploadSound(Next(s, a))
  {
    if a == Fin(DownDir) || a.Return? {
      UploadEndStep(s, a, client, endpoint);
    } else if a.d.DownDir? {
      OtherLaneUntouched(s, a);
    } else if a.Fin? {
      UploadFinStep(s, client, endpoint);
    } else if a.Send? || a.SendFail? || a.Receive? {
      UploadLinkStep(s, a, client, endpoint);
    } else {
      UploadLoopStep(s, a, client, endpoint);
    }
    hide Next, UploadSound, Inv, Enabled;
  }

  lemma {:induction false} UploadStaysSound(s: Sys, acts: seq<Act>, client: bytes, endpoint: bytes)
    requires Inv(s, client, endpoint) && UploadSound(s) && Goes(Allow({}, ALL), s, acts)
    ensures ValidRun(s, acts) && UploadSound(Run(s, acts))
    decreases |acts|
  {
    if acts != [] {
      StepKeepsInv(s, acts[0], client, endpoint);
      UploadStep(s, acts[0], client, endpoint);
      hide Next, UploadSound, Inv, Enabled, Allowed;
      UploadStaysSound(Next(s, acts[0]), acts[1..], client, endpoint);
    }
  }

  /** A clean end of input at the endpoint means the whole request, in every state of every run with no fault on
      the way up, whatever fails on the way down. */
  lemma CleanEndMeansWholeUpload(start: Sys, acts: seq<Act>, client: bytes, endpoint: bytes)
    requires start.cap > 0
    requires start == Init(start.up.link.door, start.cap, start.clientGated, start.endpointGated, client, endpoint)
    requires Goes(Allow({}, ALL), start, acts)
    ensures ValidRun(start, acts)
    ensures var s := Run(start, acts); s.up.shut ==> s.up.sink == client
  {
    InitInv(start.up.link.door, start.cap, start.clientGated, start.endpointGated, client, endpoint);
    assert Inbox(Agent, []) == [];
    UploadStaysSound(start, acts, client, endpoint);
    EndOfInputIsExact(start, acts, client, endpoint, UpDir);
    RunKeepsInv(start, acts, client, endpoint);
  }

  /** Some run within these kinds takes s to t. */
  ghost predicate Reaches(allow: Allow, s: Sys, t: Sys) {
    exists acts :: Goes(allow, s, acts) && ValidRun(s, acts) && Run(s, acts) == t
  }

  lemma ReachesSelf(allow: Allow, s: Sys)
    ensures Reaches(allow, s, s)
  {
    var none: seq<Act> := [];
    assert Goes(allow, s, none) && ValidRun(s, none) && Run(s, none) == s;
  }

  lemma ReachesBy(allow: Allow, s: Sys, a: Act, t: Sys)
    requires Enabled(s, a) && Allowed(allow, s, a) && Reaches(allow, Next(s, a), t)
    ensures Reaches(allow, s, t)
  {
    var acts :| Goes(allow, Next(s, a), acts) && ValidRun(Next(s, a), acts) && Run(Next(s, a), acts) == t;
    GoesCons(allow, s, a, acts);
    hide Enabled, Next, Allowed;
    assert Goes(allow, s, [a] + acts) && ValidRun(s, [a] + acts) && Run(s, [a] + acts) == t;
  }

  /** handleTCP shows the endpoint an end of input after any end of the copy. */
  lemma AnyEndIsShown(allow: Allow, s: Sys) returns (t: Sys)
    requires s.up.far.phase.Ended? && s.up.sinkUp
    ensures Reaches(allow, s, t) && t == s.(up := t.up) && t.up.shut && t.up.sink == s.up.sink
  {
    t := Next(s, Shut(UpDir));
    ReachesSelf(allow, t);
    ReachesBy(allow, s, Shut(UpDir), t);
  }

  lemma EndIsRead(allow: Allow, s: Sys) returns (t: Sys)
    requires s.up.far == Pump([], Copying) && s.up.sinkUp && ReadResultOf(s.up).Failed?
    ensures Reaches(allow, s, t) && t == s.(up := t.up) && t.up.shut && t.up.sink == s.up.sink
  {
    var s1 := Next(s, Receive(UpDir));
    hide ReadResultOf;
    t := AnyEndIsShown(allow, s1);
    ReachesBy(allow, s, Receive(UpDir), t);
  }

  /** The near copy has ended, no matter how, with nothing in flight: splice half-closes. */
  lemma EndIsSent(allow: Allow, s: Sys) returns (t: Sys)
    requires s.up.near.phase.Ended? && s.up.far == Pump([], Copying) && s.up.sinkUp && !s.up.cut && s.cap > 0
    requires s.up.link == T.NewLink(s.up.link.door, Client).(writeErr := s.up.link.writeErr)
    ensures Reaches(allow, s, t) && t == s.(up := t.up) && t.up.shut && t.up.sink == s.up.sink
  {
    var s1 := Next(s, Fin(UpDir));
    assert s1.up.link.wire == [FinFrame(s.up.link.door)];
    assert T.AsReader(s1.up.link).inbox == [Decode(Agent, FinFrame(s.up.link.door))];
    assert ReadResultOf(s1.up).Failed?;
    t := EndIsRead(allow, s1);
    ReachesBy(allow, s, Fin(UpDir), t);
  }

  /** One fault on the way up, of whatever kind, is enough to make an upload of which nothing arrived look
      complete. (A client that waits for its answer first sends nothing that could fail.) */
  lemma BrokenUploadLooksComplete(allow: Allow, start: Sys, client: bytes, endpoint: bytes, k: FaultKind)
        returns (t: Sys)
    requires start.cap > 0
    requires start == Init(start.up.link.door, start.cap, start.clientGated, start.endpointGated, client, endpoint)
    requires client != [] && k in allow.up && (start.clientGated ==> k == SourceFails || k == TransportFails)
    ensures Reaches(allow, start, t) && t.up.shut && t.up.sink == []
  {
    match k
    case SourceFails =>
      t := EndIsSent(allow, Next(start, SourceFail(UpDir)));
      ReachesBy(allow, start, SourceFail(UpDir), t);
    case SendFails =>
      var s1 := Next(start, Take(UpDir, 1));
      t := EndIsSent(allow, Next(s1, SendFail(UpDir, false)));
      ReachesBy(allow, s1, SendFail(UpDir, false), t);
      ReachesBy(allow, start, Take(UpDir, 1), t);
    case TransportFails =>
      var s1 := Next(start, Cut(UpDir, 0));
      assert T.AsReader(s1.up.link).inbox == [Stop(Other(RESET))];
      t := EndIsRead(allow, s1);
      ReachesBy(allow, start, Cut(UpDir, 0), t);
    case DeliverFails =>
      t := UndeliveredUpload(allow, start, client, endpoint);
  }

  lemma UndeliveredUpload(allow: Allow, start: Sys, client: bytes, endpoint: bytes) returns (t: Sys)
    requires start.cap > 0 && start == Init(start.up.link.door, start.cap, false, start.endpointGated, client, endpoint)
    requires client != [] && DeliverFails in allow.up
    ensures Reaches(allow, start, t) && t.up.shut && t.up.sink == []
  {
    var s1 := Next(start, Take(UpDir, 1));
    var s2 := Next(s1, Send(UpDir));
    OneByteArrives(s2.up, client[..1]);
    var s3 := Next(s2, Receive(UpDir));
    var s4 := Next(s3, DeliverFail(UpDir, 0));
    t := AnyEndIsShown(allow, s4);
    ReachesBy(allow, s3, DeliverFail(UpDir, 0), t);
    ReachesBy(allow, s2, Receive(UpDir), t);
    ReachesBy(allow, s1, Send(UpDir), t);
    ReachesBy(allow, start, Take(UpDir, 1), t);
  }

  lemma OneByteArrives(l: Lane, b: bytes)
    requires |b| == 1 && l.link.rest == [] && l.link.readErr.None? && l.link.wire == [DataFrame(l.link.door, b)]
    ensures ReadResultOf(l) == Got(b)
    ensures T.Apply(l.link, T.Read(BUF)).0.wire == [] && T.Apply(l.link, T.Read(BUF)).0.rest == []
  {
    var r := T.AsReader(l.link);
    assert r.inbox == [Chunk(b)] && r.inbox[1..] == [];
    var chunk := Reader(b, None, [], 1);
    assert chunk.rest[..1] == b && chunk.rest[1..] == [];
    assert ReadStep(chunk, BUF) == (chunk.(rest := []), Got(b));
    assert ReadStep(r, BUF) == ReadStep(chunk, BUF);
  }

  /** A clean end of input always means the whole request. */
  ghost predicate UploadsAreWhole(start: Sys, client: bytes, allow: Allow) {
    forall t :: Reaches(allow, start, t) && t.up.shut ==> t.up.sink == client
  }

  /** A client that waits for its answer first: until handleTCP returns nothing has happened on the way up, and
      after that no end of input is shown any more. */
  ghost predicate NothingUpYet(s: Sys) {
    && s.clientGated && !s.up.shut
    && (s.up.sinkUp ==>
      && s.up.near == Pump([], Copying) && s.up.far == Pump([], Copying) && !s.up.cut
      && s.up.link == T.NewLink(s.up.link.door, Client))
  }

  const UNREACHED := Allow({SendFails, DeliverFails}, ALL)

  lemma GateStaysShut(s: Sys, client: bytes, endpoint: bytes)
    requires Inv(s, client, endpoint) && NothingUpYet(s) && s.up.sinkUp
    ensures !GateOpen(s, UpDir) && ReadResultOf(s.up).Waiting?
  {
    assert !s.down.near.phase.Gone? && !s.down.shut;
    assert T.AsReader(s.up.link).inbox == [];
  }

  lemma NothingUpStep(s: Sys, a: Act, client: bytes, endpoint: bytes)
    requires Inv(s, client, endpoint) && NothingUpYet(s) && Enabled(s, a) && Allowed(UNREACHED, s, a)
    ensures NothingUpYet(Next(s, a))
  {
    if s.up.sinkUp {
      GateStaysShut(s, client, endpoint);
    }
    if a == Fin(DownDir) {
      assert !Next(s, a).up.sinkUp && Next(s, a).up.shut == s.up.shut && Next(s, a).clientGated;
    } else if a.Return? {
      assert s.up.near.phase.Gone?;
      UpAfterReturn(s);
      GatesKeptStep(s, a);
    } else if a.d.DownDir? {
      OtherLaneUntouched(s, a);
    } else {
      assert !s.up.sinkUp;
      GatesKeptStep(s, a);
      LaneStepShape(s, a);
    }
  }

  lemma {:induction false} NothingUpKept(s: Sys, acts: seq<Act>, client: bytes, endpoint: bytes)
    requires Inv(s, client, endpoint) && NothingUpYet(s) && Goes(UNREACHED, s, acts)
    ensures ValidRun(s, acts) && NothingUpYet(Run(s, acts))
    decreases |acts|
  {
    if acts != [] {
      StepKeepsInv(s, acts[0], client, endpoint);
      NothingUpStep(s, acts[0], client, endpoint);
      hide Next, NothingUpYet, Inv, Enabled, Allowed;
      NothingUpKept(Next(s, acts[0]), acts[1..], client, endpoint);
    }
  }

  /** It does if and only if nothing can fail on the way up; for a client that waits for its answer first, if and
      only if neither its socket nor the transport can. What fails on the way down does not matter. */
  lemma UploadsAreWholeExactly(door: Door, cap: nat, clientGated: bool, endpointGated: bool,
                               client: bytes, endpoint: bytes, up: set<FaultKind>)
    requires cap > 0 && client != []
    ensures UploadsAreWhole(Init(door, cap, clientGated, endpointGated, client, endpoint), client, Allow(up, ALL)) <==>
      if clientGated then SourceFails !in up && TransportFails !in up else up == {}
  {
    var start := Init(door, cap, clientGated, endpointGated, client, endpoint);
    var allow := Allow(up, ALL);
    if clientGated && SourceFails !in up && TransportFails !in up {
      GatedUploadsNeverEnd(start, client, endpoint, allow);
    } else if up == {} {
      forall t | Reaches(allow, start, t) && t.up.shut ensures t.up.sink == client {
        var acts :| Goes(allow, start, acts) && ValidRun(start, acts) && Run(start, acts) == t;
        CleanEndMeansWholeUpload(start, acts, client, endpoint);
      }
    } else {
      var k :| k in up && (clientGated ==> k == SourceFails || k == TransportFails);
      var t := BrokenUploadLooksComplete(allow, start, client, endpoint, k);
    }
  }

  /** Such a client's upload is never shown as ended at all. */
  lemma GatedUploadsNeverEnd(start: Sys, client: bytes, endpoint: bytes, allow: Allow)
    requires start.cap > 0 && start == Init(start.up.link.door, start.cap, true, start.endpointGated, client, endpoint)
    requires SourceFails !in allow.up && TransportFails !in allow.up && allow.down == ALL
    ensures forall t :: Reaches(allow, start, t) ==> !t.up.shut
  {
    InitInv(start.up.link.door, start.cap, true, start.endpointGated, client, endpoint);
    assert forall k :: k in allow.up ==> k == SendFails || k == DeliverFails;
    forall t | Reaches(allow, start, t) ensures !t.up.shut {
      var acts :| Goes(allow, start, acts) && ValidRun(start, acts) && Run(start, acts) == t;
      GoesMore(allow, UNREACHED, start, acts);
      NothingUpKept(start, acts, client, endpoint);
    }
  }

  // ---------------------------------------------------------------- downloads

  /** The kinds that do not make a download look whole: splice shows an end of input only after a clean one. */
  const HARMLESS := Allow(ALL, {DeliverFails, TransportFails})

  /** End of input at the client comes from the endpoint's own. */
  ghost predicate DownloadSound(s: Sys) {
    && (T.Abs(s.down.link).fin == Some(Eof) ==> s.down.near.phase == Gone(true))
    && (!Clean(s.down.near) ==> s.down.cut)
  }

  lemma DownloadLinkStep(s: Sys, a: Act, client: bytes, endpoint: bytes)
    requires a.Send? || a.SendFail? || a.Receive? || a.Cut?
    requires a.d.DownDir? && Inv(s, client, endpoint) && DownloadSound(s) && Enabled(s, a) && Allowed(HARMLESS, s, a)
    ensures DownloadSound(Next(s, a))
  {
    var l := s.down;
    var step := LinkActOf(s, a);
    FinAfter(l.link, step);
    assert Next(s, a).down.link == T.Apply(l.link, step).0;
    hide T.Apply, T.Abs, T.LinkInv, T.PipeInv;
  }

  lemma DownloadEndStep(s: Sys, a: Act, client: bytes, endpoint: bytes)
    requires a == Fin(DownDir) || a.Return?
    requires Inv(s, client, endpoint) && DownloadSound(s) && Enabled(s, a)
    ensures DownloadSound(Next(s, a))
  {
    if a.Return? {
      DownAfterReturn(s);
      FinAfter(s.down.link, T.Break(0));
      hide Next, T.Apply, T.Abs;
    } else {
      FinAfter(s.down.link, T.Finish(true));
      assert Next(s, a).down == s.down.(near := Pump([], Gone(s.down.near.phase.eof)),
          link := T.Apply(s.down.link, T.Finish(true)).0);
      hide Next, T.Apply, T.Abs;
    }
  }

  lemma DownloadLoopStep(s: Sys, a: Act, client: bytes, endpoint: bytes)
    requires a.Take? || a.SourceEnd? || a.SourceFail? || a.Deliver? || a.DeliverFail? || a.Shut?
    requires a.d.DownDir? && Inv(s, client, endpoint) && DownloadSound(s) && Enabled(s, a) && Allowed(HARMLESS, s, a)
    ensures DownloadSound(Next(s, a))
  {
    assert Next(s, a).down.link == s.down.link;
    hide T.Abs, T.LinkInv, T.PipeInv;
  }

  lemma DownloadStep(s: Sys, a: Act, client: bytes, endpoint: bytes)
    requires Inv(s, client, endpoint) && DownloadSound(s) && Enabled(s, a) && Allowed(HARMLESS, s, a)
    ensures DownloadSound(Next(s, a))
  {
    if a == Fin(DownDir) || a.Return? {
      DownloadEndStep(s, a, client, endpoint);
    } else if a.d.UpDir? {
      OtherLaneUntouched(s, a);
    } else if a.Send? || a.SendFail? || a.Receive? || a.Cut? {
      DownloadLinkStep(s, a, client, endpoint);
    } else {
      DownloadLoopStep(s, a, client, endpoint);
    }
    hide Next, DownloadSound, Inv, Enabled;
  }

  lemma {:induction false} DownloadStaysSound(s: Sys, acts: seq<Act>, client: bytes, endpoint: bytes)
    requires Inv(s, client, endpoint) && DownloadSound(s) && Goes(HARMLESS, s, acts)
    ensures ValidRun(s, acts) && DownloadSound(Run(s, acts))
    decreases |acts|
  {
    if acts != [] {
      StepKeepsInv(s, acts[0], client, endpoint);
      DownloadStep(s, acts[0], client, endpoint);
      hide Next, DownloadSound, Inv, Enabled, Allowed;
      DownloadStaysSound(Next(s, acts[0]), acts[1..], client, endpoint);
    }
  }

  /** A clean end of input at the local application means the whole answer, in every state of every run in which
      neither the endpoint's socket nor a send failed on the agent. */
  lemma CleanEndMeansWholeDownload(start: Sys, acts: seq<Act>, client: bytes, endpoint: bytes)
    requires start.cap > 0
    requires start == Init(start.up.link.door, start.cap, start.clientGated, start.endpointGated, client, endpoint)
    requires Goes(HARMLESS, start, acts)
    ensures ValidRun(start, acts)
    ensures var s := Run(start, acts); s.down.shut ==> s.down.sink == endpoint
  {
    InitInv(start.up.link.door, start.cap, start.clientGated, start.endpointGated, client, endpoint);
    assert Inbox(Client, []) == [];
    DownloadStaysSound(start, acts, client, endpoint);
    EndOfInputIsExact(start, acts, client, endpoint, DownDir);
    RunKeepsInv(start, acts, client, endpoint);
  }

  /** handleTCP returns without an error after any end of the copy: the client is told a clean end. */
  lemma ReturnIsClean(allow: Allow, s: Sys) returns (t: Sys)
    requires s.down.near.phase.Ended? && s.down.far == Pump([], Copying) && !s.down.cut
    requires s.down.link == T.NewLink(s.down.link.door, Agent).(writeErr := s.down.link.writeErr)
    ensures Reaches(allow, s, t) && t.down.shut && t.down.sink == s.down.sink
  {
    var s1 := Next(s, Fin(DownDir));
    assert s1.down == s.down.(near := Pump([], Gone(s.down.near.phase.eof)),
        link := T.Apply(s.down.link, T.Finish(true)).0);
    ReturnIsRead(s.down.link);
    assert ReadResultOf(s1.down) == Failed(Eof);
    t := CleanEndIsShown(allow, s1);
    ReachesBy(allow, s, Fin(DownDir), t);
  }

  lemma ReturnIsRead(l: T.Link)
    requires l == T.NewLink(l.door, Agent).(writeErr := l.writeErr)
    ensures T.Apply(T.Apply(l, T.Finish(true)).0, T.Read(BUF)).1 == T.Received(Failed(Eof))
  {
    var end := ReturnFrame(l.door, true);
    var l1 := T.Apply(l, T.Finish(true)).0;
    assert l1.wire == [end];
    assert T.AsReader(l1).inbox == [Decode(Client, end)];
  }

  lemma CleanEndIsShown(allow: Allow, s: Sys) returns (t: Sys)
    requires s.down.far == Pump([], Copying) && ReadResultOf(s.down) == Failed(Eof)
    ensures Reaches(allow, s, t) && t.down.shut && t.down.sink == s.down.sink
  {
    var s1 := Next(s, Receive(DownDir));
    t := Next(s1, Shut(DownDir));
    hide ReadResultOf;
    ReachesSelf(allow, t);
    ReachesBy(allow, s1, Shut(DownDir), t);
    ReachesBy(allow, s, Receive(DownDir), t);
  }

  /** A failing read of the endpoint, or a failing send, makes a download of which nothing arrived look complete. */
  lemma BrokenDownloadLooksComplete(allow: Allow, start: Sys, client: bytes, endpoint: bytes) returns (t: Sys)
    requires start.cap > 0
    requires start == Init(start.up.link.door, start.cap, start.clientGated, start.endpointGated, client, endpoint)
    requires endpoint != [] && (SourceFails in allow.down || SendFails in allow.down) && SourceFails in allow.up
    ensures Reaches(allow, start, t) && t.down.shut && t.down.sink == []
  {
    if SourceFails in allow.down {
      t := ReturnIsClean(allow, Next(start, SourceFail(DownDir)));
      ReachesBy(allow, start, SourceFail(DownDir), t);
    } else {
      // the request ends, one way or another, and the endpoint is free to answer
      var open := EndIsSent(allow, Next(start, SourceFail(UpDir)));
      ReachesBy(allow, start, SourceFail(UpDir), open);
      t := UnsentDownload(allow, open);
      ReachesOn(allow, start, open, t);
    }
  }

  lemma UnsentDownload(allow: Allow, s: Sys) returns (t: Sys)
    requires GateOpen(s, DownDir) && SendFails in allow.down && s.down.src != [] && !s.down.cut
    requires s.down.near == Pump([], Copying) && s.down.far == Pump([], Copying)
    requires s.down.link == T.NewLink(s.down.link.door, Agent)
    ensures Reaches(allow, s, t) && t.down.shut && t.down.sink == s.down.sink
  {
    var s1 := Next(s, Take(DownDir, 1));
    t := ReturnIsClean(allow, Next(s1, SendFail(DownDir, false)));
    ReachesBy(allow, s1, SendFail(DownDir, false), t);
    ReachesBy(allow, s, Take(DownDir, 1), t);
  }

  ghost predicate DownloadsAreWhole(start: Sys, endpoint: bytes, allow: Allow) {
    forall t :: Reaches(allow, start, t) && t.down.shut ==> t.down.sink == endpoint
  }

  lemma {:induction false} GoesMore(a: Allow, b: Allow, s: Sys, acts: seq<Act>)
    requires Goes(a, s, acts) && a.up <= b.up && a.down <= b.down
    ensures Goes(b, s, acts)
    decreases |acts|
  {
    if acts != [] {
      hide Next, Enabled;
      GoesMore(a, b, Next(s, acts[0]), acts[1..]);
    }
  }

  /** A clean end of input always means the whole answer if and only if neither reading the endpoint nor sending can
      fail; a broken transport, a failing local socket and whatever fails on the way up do not matter. */
  lemma DownloadsAreWholeExactly(door: Door, cap: nat, clientGated: bool, endpointGated: bool,
                                 client: bytes, endpoint: bytes, down: set<FaultKind>)
    requires cap > 0 && endpoint != []
    ensures DownloadsAreWhole(Init(door, cap, clientGated, endpointGated, client, endpoint), endpoint,
        Allow(ALL, down)) <==>
      SourceFails !in down && SendFails !in down
  {
    var start := Init(door, cap, clientGated, endpointGated, client, endpoint);
    if SourceFails !in down && SendFails !in down {
      forall t | Reaches(Allow(ALL, down), start, t) && t.down.shut ensures t.down.sink == endpoint {
        var acts :| Goes(Allow(ALL, down), start, acts) && ValidRun(start, acts) && Run(start, acts) == t;
        assert forall k :: k in down ==> k == DeliverFails || k == TransportFails;
        GoesMore(Allow(ALL, down), HARMLESS, start, acts);
        CleanEndMeansWholeDownload(start, acts, client, endpoint);
      }
    } else {
      var t := BrokenDownloadLooksComplete(Allow(ALL, down), start, client, endpoint);
    }
  }

  // ---------------------------------------------------------------- a broken tunnel and the local session

  /** The tunnel has ended with an error while the local application waits for an answer. */
  predicate Stranded(s: Sys) {
    && HeldAtGate(s, UpDir) && !s.down.shut && !s.spliced
    && s.down.far.phase in {Ended(false), Gone(false)}
  }

  lemma StrandedStep(s: Sys, a: Act)
    requires Stranded(s) && Enabled(s, a) && a != SourceFail(UpDir)
    ensures Stranded(Next(s, a))
  {
    if !a.Return? && a != Fin(DownDir) {
      OtherLaneUntouched(s, a);
    }
    hide T.Apply;
  }

  /** A tunnel error does not end the session of an application that waits for an answer. splice neither shuts nor
      closes the local connection when the copy from the tunnel fails, and waits for the other copy, which waits for
      the local application: whatever else happens, for as long as the local connection does not fail by itself,
      splice never returns and the application is told nothing. */
  lemma {:induction false} TunnelErrorStrandsSplice(s: Sys, acts: seq<Act>)
    requires Stranded(s) && ValidRun(s, acts) && SourceFail(UpDir) !in acts
    ensures Stranded(Run(s, acts))
    decreases |acts|
  {
    if acts != [] {
      assert acts[0] in acts;
      StrandedStep(s, acts[0]);
      hide Next, Enabled, Stranded;
      TunnelErrorStrandsSplice(Next(s, acts[0]), acts[1..]);
    }
  }

  /** Only the tunnel fails: its transport, or a send into it. */
  const TUNNEL_ONLY := Allow({TransportFails, SendFails}, {TransportFails, SendFails})

  /** It takes one broken transport. */
  lemma StrandedIsReachable(start: Sys, client: bytes, endpoint: bytes) returns (t: Sys)
    requires start.cap > 0 && start == Init(start.up.link.door, start.cap, true, start.endpointGated, client, endpoint)
    ensures Reaches(TUNNEL_ONLY, start, t) && Stranded(t)
  {
    var s1 := Next(start, Cut(DownDir, 0));
    assert T.AsReader(s1.down.link).inbox == [Stop(Other(RESET))];
    assert ReadResultOf(s1.down) == Failed(Other(RESET));
    t := Next(s1, Receive(DownDir));
    hide ReadResultOf;
    ReachesSelf(TUNNEL_ONLY, t);
    ReachesBy(TUNNEL_ONLY, s1, Receive(DownDir), t);
    ReachesBy(TUNNEL_ONLY, start, Cut(DownDir, 0), t);
  }

  /** Every state comes to rest without another fault. */
  lemma {:induction false} ComesToRest(s: Sys, client: bytes, endpoint: bytes) returns (t: Sys)
    requires Inv(s, client, endpoint)
    ensures Reaches(NONE, s, t) && AtRest(t)
    decreases Work(s)
  {
    if AtRest(s) {
      t := s;
      ReachesSelf(NONE, s);
    } else {
      var a :| CanMove(s, a);
      StepKeepsInv(s, a, client, endpoint);
      StepWork(s, a);
      hide Next, Inv, Enabled, Work;
      t := ComesToRest(Next(s, a), client, endpoint);
      ReachesBy(NONE, s, a, t);
    }
  }

  lemma {:induction false} GoesWithout(allow: Allow, s: Sys, acts: seq<Act>)
    requires Goes(allow, s, acts) && SourceFails !in allow.up
    ensures SourceFail(UpDir) !in acts
    decreases |acts|
  {
    if acts != [] {
      GoesWithout(allow, Next(s, acts[0]), acts[1..]);
    }
  }

  lemma {:induction false} GoesOn(allow: Allow, s: Sys, a: seq<Act>, b: seq<Act>)
    requires Goes(allow, s, a) && ValidRun(s, a) && Goes(allow, Run(s, a), b) && ValidRun(Run(s, a), b)
    ensures Goes(allow, s, a + b) && ValidRun(s, a + b) && Run(s, a + b) == Run(Run(s, a), b)
    decreases |a|
  {
    if a == [] {
      assert a + b == b;
    } else {
      hide Next, Enabled, Allowed;
      assert (a + b)[1..] == a[1..] + b && (a + b)[0] == a[0];
      GoesOn(allow, Next(s, a[0]), a[1..], b);
    }
  }

  lemma ReachesOn(allow: Allow, s: Sys, t: Sys, u: Sys)
    requires Reaches(allow, s, t) && Reaches(allow, t, u)
    ensures Reaches(allow, s, u)
  {
    var a :| Goes(allow, s, a) && ValidRun(s, a) && Run(s, a) == t;
    var b :| Goes(allow, t, b) && ValidRun(t, b) && Run(t, b) == u;
    GoesOn(allow, s, a, b);
    assert Goes(allow, s, a + b) && ValidRun(s, a + b) && Run(s, a + b) == u;
  }

  /** With nothing but the tunnel failing, a request direction that is up has a sound far side. */
  ghost predicate UpTold(s: Sys) {
    && (!Clean(s.up.far) ==> s.up.cut)
    && (!Unbroken(T.Abs(s.up.link)) ==> s.up.cut)
  }

  lemma UpToldLink(s: Sys, a: Act, client: bytes, endpoint: bytes)
    requires a.Send? || a.SendFail? || a.Receive? || a == Fin(UpDir)
    requires a.d.UpDir? && Inv(s, client, endpoint) && UpTold(s) && Enabled(s, a)
    ensures UpTold(Next(s, a))
  {
    var l := s.up;
    var step := LinkActOf(s, a);
    FinAfter(l.link, step);
    assert Next(s, a).up.link == T.Apply(l.link, step).0;
    hide T.Apply, T.Abs, T.LinkInv, T.PipeInv;
  }

  lemma UpToldStep(s: Sys, a: Act, client: bytes, endpoint: bytes)
    requires Inv(s, client, endpoint) && UpTold(s) && Enabled(s, a) && Allowed(TUNNEL_ONLY, s, a)
    ensures UpTold(Next(s, a))
  {
    if a.Return? {
      UpAfterReturn(s);
      ClosedUpKept(s.up.link, ClosingOf(s));
      hide Next, ClosedUp;
    } else if a == Fin(DownDir) {
      assert Next(s, a).up.cut;
    } else if a.d.DownDir? {
      OtherLaneUntouched(s, a);
    } else if a.Send? || a.SendFail? || a.Receive? || a.Fin? {
      UpToldLink(s, a, client, endpoint);
    } else {
      assert a.Cut? || Next(s, a).up.link == s.up.link;
      hide T.Abs, T.Apply;
    }
  }

  lemma {:induction false} UpStaysTold(s: Sys, acts: seq<Act>, client: bytes, endpoint: bytes)
    requires Inv(s, client, endpoint) && UpTold(s) && Goes(TUNNEL_ONLY, s, acts)
    ensures ValidRun(s, acts) && UpTold(Run(s, acts)) && Inv(Run(s, acts), client, endpoint)
    decreases |acts|
  {
    if acts != [] {
      StepKeepsInv(s, acts[0], client, endpoint);
      UpToldStep(s, acts[0], client, endpoint);
      hide Next, UpTold, Inv, Enabled, Allowed;
      UpStaysTold(Next(s, acts[0]), acts[1..], client, endpoint);
    }
  }

  /** However the tunnel fails, splice returns. */
  ghost predicate SpliceReturns(start: Sys) {
    forall t :: Reaches(TUNNEL_ONLY, start, t) && AtRest(t) ==> t.spliced
  }

  /** Over runs in which nothing fails but the tunnel, splice has always returned by the time everything rests if
      and only if the local application does not wait for an answer before it ends its request. */
  lemma SpliceReturnsExactly(door: Door, cap: nat, clientGated: bool, endpointGated: bool, client: bytes,
        endpoint: bytes)
    requires cap > 0
    ensures SpliceReturns(Init(door, cap, clientGated, endpointGated, client, endpoint)) <==> !clientGated
  {
    var start := Init(door, cap, clientGated, endpointGated, client, endpoint);
    InitInv(door, cap, clientGated, endpointGated, client, endpoint);
    if clientGated {
      var s := StrandedIsReachable(start, client, endpoint);
      var acts :| Goes(TUNNEL_ONLY, start, acts) && ValidRun(start, acts) && Run(start, acts) == s;
      RunKeepsInv(start, acts, client, endpoint);
      var t := ComesToRest(s, client, endpoint);
      StillStranded(s, t);
      ReachesMore(NONE, TUNNEL_ONLY, s, t);
      ReachesOn(TUNNEL_ONLY, start, s, t);
    } else {
      forall t | Reaches(TUNNEL_ONLY, start, t) && AtRest(t) ensures t.spliced {
        var acts :| Goes(TUNNEL_ONLY, start, acts) && ValidRun(start, acts) && Run(start, acts) == t;
        assert Inbox(Agent, []) == [];
        UpStaysTold(start, acts, client, endpoint);
        GatesKept(start, acts);
        RestExactly(t, client, endpoint);
      }
    }
  }

  lemma StillStranded(s: Sys, t: Sys)
    requires Stranded(s) && Reaches(NONE, s, t)
    ensures Stranded(t)
  {
    var acts :| Goes(NONE, s, acts) && ValidRun(s, acts) && Run(s, acts) == t;
    GoesWithout(NONE, s, acts);
    TunnelErrorStrandsSplice(s, acts);
  }

  lemma ReachesMore(a: Allow, b: Allow, s: Sys, t: Sys)
    requires Reaches(a, s, t) && a.up <= b.up && a.down <= b.down
    ensures Reaches(b, s, t)
  {
    var acts :| Goes(a, s, acts) && ValidRun(s, acts) && Run(s, acts) == t;
    GoesMore(a, b, s, acts);
  }

  // ---------------------------------------------------------------- an agent whose client is gone

  /** Copy buffers it takes to hold n bytes. */
  function Buffers(n: nat): (k: nat)
    ensures n == 0 <==> k == 0
  {
    (n + BUF - 1) / BUF
  }

  /** Frames the response still needs: one for what is in the copy buffer, the rest full ones. */
  function FramesLeft(l: Lane): nat {
    (if l.near.buf != [] then 1 else 0) + Buffers(|l.src|)
  }

  lemma BuffersTake(n: nat, k: nat)
    requires 1 <= k <= n && k <= BUF
    ensures Buffers(n - k) + 1 >= Buffers(n)
    ensures k == Min(n, BUF) ==> Buffers(n - k) + 1 == Buffers(n)
  {
  }

  /** The client is gone, nobody will read the response any more, and the transport is still up. */
  predicate Abandoned(s: Sys) {
    && s.spliced && !s.down.cut && s.down.far.phase.Gone?
    && s.down.near.phase.Copying? && s.down.link.writeErr.None?
  }

  /** What is left of the response fits into the buffers on the way. */
  predicate Fits(s: Sys) {
    FramesLeft(s.down) == 0 || |s.down.link.wire| + FramesLeft(s.down) <= s.cap
  }

  /** The endpoint's socket and the response direction's transport are left alone. */
  predicate SparesDown(a: Act) {
    a.Return? || a.d.UpDir? || !(a.SourceFail? || a.SendFail? || a.Cut?)
  }

  ghost predicate AllSpareDown(acts: seq<Act>) {
    forall a :: a in acts ==> SparesDown(a)
  }

  lemma AbandonedStep(s: Sys, a: Act)
    requires Abandoned(s) && !Fits(s) && Enabled(s, a) && SparesDown(a)
    ensures Abandoned(Next(s, a)) && !Fits(Next(s, a))
  {
    if a.d.UpDir? {
      OtherLaneUntouched(s, a);
    } else if a.Send? {
      var link := T.Apply(s.down.link, T.Write(s.down.near.buf, None, false)).0;
      assert |link.wire| == |s.down.link.wire| + 1 && link.writeErr.None?;
      assert Next(s, a) == s.(down := s.down.(near := Pump([], Copying), link := link));
    } else if a.Take? {
      BuffersTake(|s.down.src|, a.n);
    } else {
      assert false;
    }
  }

  /** Over Connect, closing the client's conn only half-closes. If the local application hung up while the endpoint
      still had more to send than fits in flight, handleTCP does not return, until the transport or the endpoint's
      socket fails. */
  lemma {:induction false} ConnectCloseLeaksAgent(s: Sys, acts: seq<Act>)
    requires Abandoned(s) && !Fits(s) && ValidRun(s, acts) && AllSpareDown(acts)
    ensures Abandoned(Run(s, acts)) && !Fits(Run(s, acts))
    decreases |acts|
  {
    if acts != [] {
      assert acts[0] in acts && forall a :: a in acts[1..] ==> a in acts;
      AbandonedStep(s, acts[0]);
      hide Next, Enabled, Abandoned, Fits;
      ConnectCloseLeaksAgent(Next(s, acts[0]), acts[1..]);
    }
  }

  ghost predicate AgentCanFinish(s: Sys) {
    exists acts :: ValidRun(s, acts) && AllSpareDown(acts) && Run(s, acts).down.near.phase.Gone?
  }

  lemma FinishBy(s: Sys, a: Act)
    requires Enabled(s, a) && SparesDown(a) && AgentCanFinish(Next(s, a))
    ensures AgentCanFinish(s)
  {
    var acts :| ValidRun(Next(s, a), acts) && AllSpareDown(acts) && Run(Next(s, a), acts).down.near.phase.Gone?;
    RunCons(s, a, acts);
    hide Next, Enabled, SparesDown;
    assert forall b :: b in [a] + acts ==> b == a || b in acts;
    assert ValidRun(s, [a] + acts) && AllSpareDown([a] + acts) && Run(s, [a] + acts).down.near.phase.Gone?;
  }

  lemma FinishNow(s: Sys)
    requires s.down.near.phase.Ended?
    ensures AgentCanFinish(s)
  {
    var t := Next(s, Fin(DownDir));
    assert t.down.near.phase.Gone?;
    var none: seq<Act> := [];
    assert ValidRun(t, none) && AllSpareDown(none) && Run(t, none) == t;
    hide Next;
    FinishBy(s, Fin(DownDir));
  }

  /** Sending what is left in full buffers. */
  lemma {:induction false} Drains(s: Sys)
    requires Abandoned(s) && Fits(s) && GateOpen(s, DownDir)
    ensures AgentCanFinish(s)
    decreases |s.down.src|, |s.down.near.buf|
  {
    if s.down.near.buf != [] {
      var a := Send(DownDir);
      var link := T.Apply(s.down.link, T.Write(s.down.near.buf, None, false)).0;
      assert |link.wire| == |s.down.link.wire| + 1 && link.writeErr.None?;
      assert Next(s, a) == s.(down := s.down.(near := Pump([], Copying), link := link));
      hide T.Apply, Next;
      Drains(Next(s, a));
      FinishBy(s, a);
    } else if s.down.src != [] {
      var n := Min(|s.down.src|, BUF);
      var a := Take(DownDir, n);
      BuffersTake(|s.down.src|, n);
      var l := s.down;
      assert Next(s, a) == s.(down := l.(near := Pump(l.src[..n], Copying), taken := l.taken + l.src[..n],
          src := l.src[n..]));
      hide Next;
      Drains(Next(s, a));
      FinishBy(s, a);
    } else {
      var a := SourceEnd(DownDir);
      assert Next(s, a).down.near.phase.Ended?;
      FinishNow(Next(s, a));
      FinishBy(s, a);
    }
  }

  /** Exactly: once its client is gone, an agent whose endpoint is free to send can finish by itself if and only
      if what the endpoint still has to send fits into the buffers on the way. */
  lemma AgentFinishesExactly(s: Sys)
    requires Abandoned(s) && GateOpen(s, DownDir)
    ensures AgentCanFinish(s) <==> Fits(s)
  {
    if Fits(s) {
      Drains(s);
    } else {
      forall acts | ValidRun(s, acts) && AllSpareDown(acts) ensures !Run(s, acts).down.near.phase.Gone? {
        ConnectCloseLeaksAgent(s, acts);
      }
    }
  }

  /** It takes a local application that hangs up: here after one of the endpoint's many bytes. */
  lemma LeakedIsReachable(client: bytes, endpoint: bytes) returns (t: Sys)
    requires |endpoint| > BUF + 1
    ensures Reaches(Allow({SourceFails}, {DeliverFails}), Init(Connect, 1, false, false, client, endpoint), t)
    ensures Abandoned(t) && GateOpen(t, DownDir) && !Fits(t)
  {
    var allow := Allow({SourceFails}, {DeliverFails});
    var start := Init(Connect, 1, false, false, client, endpoint);
    var s1 := Next(start, Take(DownDir, 1));
    var s2 := Next(s1, Send(DownDir));
    OneByteArrives(s2.down, endpoint[..1]);
    var s3 := Next(s2, Receive(DownDir));
    assert s3.down.link.wire == [] && s3.down.link.writeErr.None? && |s3.down.far.buf| == 1;
    t := HangUp(allow, s3);
    ReachesBy(allow, s2, Receive(DownDir), t);
    ReachesBy(allow, s1, Send(DownDir), t);
    ReachesBy(allow, start, Take(DownDir, 1), t);
  }

  lemma HangUp(allow: Allow, s: Sys) returns (t: Sys)
    requires allow == Allow({SourceFails}, {DeliverFails}) && s.cap == 1 && !s.clientGated && !s.endpointGated
    requires !s.spliced
    requires s.up.near == Pump([], Copying) && s.up.link == T.NewLink(Connect, Client)
    requires s.down.far.phase.Copying? && |s.down.far.buf| == 1 && s.down.sinkUp && s.down.near == Pump([], Copying)
    requires !s.down.cut && !s.up.cut && s.down.link.wire == [] && s.down.link.writeErr.None? && |s.down.src| > BUF
    ensures Reaches(allow, s, t) && Abandoned(t) && GateOpen(t, DownDir) && !Fits(t)
  {
    var s1 := Next(s, DeliverFail(DownDir, 0));
    var s2 := Next(s1, Shut(DownDir));
    assert s2 == s.(down := s.down.(far := Pump([], Gone(false)), lost := s2.down.lost, shut := false));
    t := CloseBehind(allow, s2);
    ReachesBy(allow, s1, Shut(DownDir), t);
    ReachesBy(allow, s, DeliverFail(DownDir, 0), t);
  }

  lemma CloseBehind(allow: Allow, s: Sys) returns (t: Sys)
    requires SourceFails in allow.up && s.cap == 1 && !s.endpointGated && !s.spliced
    requires s.up.near == Pump([], Copying) && s.up.link == T.NewLink(Connect, Client) && !s.up.cut
    requires !s.down.cut && s.down.far.phase.Gone? && s.down.near == Pump([], Copying)
    requires s.down.link.wire == [] && s.down.link.writeErr.None? && |s.down.src| > BUF
    ensures Reaches(allow, s, t) && Abandoned(t) && GateOpen(t, DownDir) && !Fits(t)
  {
    var s1 := Next(s, SourceFail(UpDir));
    var s2 := Next(s1, Fin(UpDir));
    assert s2.up.near.phase.Gone? && s2.up.link.door.Connect? && s2.down == s.down && s2.cap == 1
        && !s2.endpointGated && !s2.spliced;
    t := Next(s2, Return);
    assert t.down == s.down && t.spliced && t.cap == 1 && !t.endpointGated;
    assert Buffers(|t.down.src|) >= 2;
    hide Next, T.Apply;
    ReachesSelf(allow, t);
    ReachesBy(allow, s2, Return, t);
    ReachesBy(allow, s1, Fin(UpDir), t);
    ReachesBy(allow, s, SourceFail(UpDir), t);
  }

  /** Over a WebSocket closing releases the socket, so once splice has returned the agent always finishes. */
  lemma WebSocketCloseFreesAgent(s: Sys, client: bytes, endpoint: bytes)
    requires Inv(s, client, endpoint) && s.spliced && s.up.link.door.WebSocket?
    ensures AtRest(s) <==> Final(s)
  {
    RestExactly(s, client, endpoint);
  }
}
