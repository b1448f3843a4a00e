/** Opening a tunnel over Connect: the client's openConnect and the agent's Forward and Handle, with a FIFO of
    messages each way. Either may face a peer that is not this program: a forged message can enter either queue at
    any time. */
module Handshake {
  import opened Prelude
  import opened StreamConn
  import opened Wire
  import Routing

  datatype ClientPc = Idle | AwaitOpened | Connected | Refused

  /** Acking: the name is good and any dial has succeeded. Serving: Opened is out and payload moves. */
  datatype AgentPc = AwaitOpen | Resolving(name: string) | Dialing(name: string) | Acking(name: string)
                   | Serving(name: string) | Done(err: Option<Error>)

  /** sentUp and sentDown are all the client and the agent have ever sent, first the message the agent's handler
      received first, tookUp what its conn has received since, reply the first message the client received, and
      grantedFor the name Opened was sent for. */
  datatype State = State(
    endpoints: map<string, string>,
    wanted: string,
    client: ClientPc,
    agent: AgentPc,
    up: seq<Frame>,
    down: seq<Frame>,
    sentUp: seq<Frame>,
    sentDown: seq<Frame>,
    first: Option<Frame>,
    tookUp: seq<Frame>,
    reply: Option<Frame>,
    dialed: Option<string>,
    grantedFor: Option<string>,
    agentRead: bytes,
    agentReadErr: Option<Error>,
    forgedUp: bool,
    forgedDown: bool)

  function Init(endpoints: map<string, string>, wanted: string): State {
    State(endpoints, wanted, Idle, AwaitOpen, [], [], [], [], None, [], None, None, None, [], None, false, false)
  }

  const BAD_FIRST: nat := 10
  const NOT_FOUND: nat := 11
  const UNAVAILABLE: nat := 12

  datatype Act =
    | SendOpen
    | ReceiveReply
    | ClientSend(b: bytes)
    | ReceiveFirst
    | Resolve
    | Dial(ok: bool)
    | Ack(ok: bool)
    | AgentRecv
    | AgentSend(b: bytes)
    | AgentReturn(err: Option<Error>)
    | ForgeUp(f: Frame)
    | ForgeDown(f: Frame)

  predicate Enabled(s: State, a: Act) {
    match a
    case SendOpen => s.client.Idle?
    case ReceiveReply => s.client.AwaitOpened? && s.down != []
    case ClientSend(b) => s.client.Connected? && b != []
    case ReceiveFirst => s.agent.AwaitOpen? && s.up != []
    case Resolve => s.agent.Resolving?
    case Dial(_) => s.agent.Dialing?
    case Ack(_) => s.agent.Acking?
    case AgentRecv => s.agent.Serving? && s.up != [] && s.agentReadErr.None?
    case AgentSend(b) => s.agent.Serving? && b != []
    case AgentReturn(_) => s.agent.Serving?
    case ForgeUp(_) => true
    case ForgeDown(_) => true
  }

  function ToAgent(s: State, f: Frame): State {
    s.(up := s.up + [f], sentUp := s.sentUp + [f])
  }

  function ToClient(s: State, f: Frame): State {
    s.(down := s.down + [f], sentDown := s.sentDown + [f])
  }

  /** The handler ending: the response stream carries its error, or a clean end. */
  function Finish(s: State, err: Option<Error>): State {
    ToClient(s, if err.None? then EndOk else EndErr).(agent := Done(err))
  }

  /** Forward's first Receive. */
  function First(s: State, f: Frame): State {
    match f
    case Open(name) => s.(agent := Resolving(name))
    case EndOk => Finish(s, None)
    case EndErr => Finish(s, Some(Other(RESET)))
    case Reset => Finish(s, Some(Other(RESET)))
    case _ => Finish(s, Some(Other(BAD_FIRST)))
  }

  function Next(s: State, a: Act): State
    requires Enabled(s, a)
  {
    match a
    case SendOpen => ToAgent(s, Open(s.wanted)).(client := AwaitOpened)
    case ReceiveReply =>
      s.(down := s.down[1..], reply := Some(s.down[0]), client := if s.down[0].Opened? then Connected else Refused)
    case ClientSend(b) => ToAgent(s, Data(b))
    case ReceiveFirst => First(s.(up := s.up[1..], first := Some(s.up[0])), s.up[0])
    case Resolve =>
      var name := s.agent.name;
      var addr := Routing.ResolveIn(s.endpoints, name);
      if addr.Err? then Finish(s, Some(Other(NOT_FOUND)))
      // an empty address reads as the shell's; parseEndpoints admits none
      else if addr.value == "" then s.(agent := Acking(name))
      else s.(agent := Dialing(name))
    case Dial(ok) =>
      var name := s.agent.name;
      if ok then s.(agent := Acking(name), dialed := if name in s.endpoints then Some(s.endpoints[name]) else None)
      else Finish(s, Some(Other(UNAVAILABLE)))
    case Ack(ok) =>
      if ok then ToClient(s, Opened).(agent := Serving(s.agent.name), grantedFor := Some(s.agent.name))
      else Finish(s, Some(Other(RESET)))
    case AgentRecv =>
      var f := s.up[0];
      var r := Decode(Agent, f);
      var s' := s.(up := s.up[1..], tookUp := s.tookUp + [f]);
      if r.Chunk? then s'.(agentRead := s.agentRead + r.data) else s'.(agentReadErr := Some(Normalize(r.cause)))
    case AgentSend(b) => ToClient(s, Data(b))
    case AgentReturn(err) => Finish(s, err)
    case ForgeUp(f) => s.(up := s.up + [f], forgedUp := true)
    case ForgeDown(f) => s.(down := s.down + [f], forgedDown := true)
  }

  ghost predicate ValidRun(s: State, acts: seq<Act>)
    decreases |acts|
  {
    acts == [] || (Enabled(s, acts[0]) && ValidRun(Next(s, acts[0]), acts[1..]))
  }

  function Run(s: State, acts: seq<Act>): State
    requires ValidRun(s, acts)
    decreases |acts|
  {
    if acts == [] then s else Run(Next(s, acts[0]), acts[1..])
  }

  // ---------------------------------------------------------------- what must hold

  predicate AllData(fs: seq<Frame>) {
    forall f :: f in fs ==> f.Data?
  }

  /** The allowlist admits the name, and what it names is at hand: the shell, or a dialled address. */
  predicate Granted(s: State, name: string) {
    name == Routing.SHELL || (name in s.endpoints && (s.endpoints[name] == "" || s.dialed == Some(s.endpoints[name])))
  }

  /** Every response stream is Opened, then data, then the end; or just the end. */
  predicate AgentSpeaksInOrder(s: State) {
    match s.agent
    case Serving(_) => s.sentDown != [] && s.sentDown[0].Opened? && AllData(s.sentDown[1..])
    case Done(_) =>
      && s.sentDown != [] && s.sentDown[|s.sentDown| - 1] == (if s.agent.err.None? then EndOk else EndErr)
      && (|s.sentDown| > 1 ==> s.sentDown[0].Opened? && AllData(s.sentDown[1..|s.sentDown| - 1]))
    case _ => s.sentDown == []
  }

  /** The client sends its Open, then waits; data only once it is connected, which takes an Opened. */
  predicate ClientSpeaksInOrder(s: State) {
    match s.client
    case Idle => s.sentUp == [] && s.reply.None?
    case AwaitOpened => s.sentUp == [Open(s.wanted)] && s.reply.None?
    case Refused => s.sentUp == [Open(s.wanted)] && s.reply.Some? && !s.reply.value.Opened?
    case Connected =>
      s.reply == Some(Opened) && s.sentUp != [] && s.sentUp[0] == Open(s.wanted) && AllData(s.sentUp[1..])
  }

  /** Opened only after the name was granted. */
  predicate OpenedMeansGranted(s: State) {
    && (s.agent.Dialing? ==> s.agent.name in s.endpoints)
    && (s.agent.Acking? || s.agent.Serving? ==> Granted(s, s.agent.name))
    && (s.grantedFor.Some? ==> Granted(s, s.grantedFor.value))
    && (s.grantedFor.Some? <==> s.sentDown != [] && s.sentDown[0].Opened?)
    && (s.grantedFor.Some? ==> s.agent.Serving? || s.agent.Done?)
    && (s.agent.Serving? ==> s.grantedFor == Some(s.agent.name))
    && (s.dialed.Some? ==> s.agent.Acking? || s.agent.Serving? || s.agent.Done?)
  }

  /** With nothing forged, each side hears what the other said, in order. */
  predicate QueuesFaithful(s: State) {
    && (!s.forgedUp ==>
      && (s.agent.AwaitOpen? ==> s.up == s.sentUp)
      && (s.agent.Resolving? || s.agent.Dialing? || s.agent.Acking? || s.agent.Serving? ==> s.agent.name == s.wanted)
      && (s.grantedFor.Some? ==> s.grantedFor.value == s.wanted))
    && (!s.forgedDown ==>
      && (s.client.Idle? || s.client.AwaitOpened? ==> s.down == s.sentDown)
      && (s.client.Connected? ==> s.sentDown != [] && s.sentDown[0].Opened?)
      && (s.client.Refused? ==> s.sentDown != [] && !s.sentDown[0].Opened?))
  }

  /** The agent's conn returns the data it received, up to the first thing that is not data. */
  ghost predicate ReadsInOrder(s: State) {
    && s.agentRead == Payload(Inbox(Agent, s.tookUp))
    && s.agentReadErr == FirstStop(Inbox(Agent, s.tookUp))
    && (forall i :: 0 <= i < |s.tookUp| && Decode(Agent, s.tookUp[i]).Stop? ==> i == |s.tookUp| - 1)
  }

  ghost predicate Inv(s: State) {
    && AgentSpeaksInOrder(s) && ClientSpeaksInOrder(s) && OpenedMeansGranted(s) && QueuesFaithful(s)
    && ReadsInOrder(s) && Answers(s) && StreamsFaithful(s)
  }

  /** The allowlist has the name, or it is the shell's. */
  predicate Listed(endpoints: map<string, string>, name: string) {
    name == Routing.SHELL || name in endpoints
  }

  /** There is something to dial. */
  predicate Dialled(endpoints: map<string, string>, name: string) {
    name != Routing.SHELL && name in endpoints && endpoints[name] != ""
  }

  /** What was dialled is what the first message asked for. */
  predicate DialsFirst(s: State) {
    s.dialed.Some? ==>
      && s.first.Some? && s.first.value.Open?
      && Dialled(s.endpoints, s.first.value.endpoint) && s.dialed.value == s.endpoints[s.first.value.endpoint]
  }

  /** What the first message made of the handler. */
  predicate Answers(s: State) {
    DialsFirst(s) &&
    match s.agent
    case AwaitOpen => s.first.None? && s.tookUp == []
    case Resolving(name) => s.first == Some(Open(name)) && s.tookUp == []
    case Dialing(name) => s.first == Some(Open(name)) && Dialled(s.endpoints, name) && s.tookUp == []
    case Acking(name) => s.first == Some(Open(name)) && Listed(s.endpoints, name) && s.tookUp == []
    case Serving(name) => s.first == Some(Open(name)) && Listed(s.endpoints, name)
    case Done(err) =>
      && s.first.Some?
      && (s.grantedFor.Some? ==> s.first == Some(Open(s.grantedFor.value)) && Listed(s.endpoints, s.grantedFor.value))
      && (s.grantedFor.None? ==> s.tookUp == [] && EndsBare(s.endpoints, s.first.value, err))
  }

  /** Why a stream ends without Opened. */
  predicate EndsBare(endpoints: map<string, string>, first: Frame, err: Option<Error>) {
    match first
    case Open(name) =>
      || (err == Some(Other(NOT_FOUND)) && !Listed(endpoints, name))
      || (err == Some(Other(UNAVAILABLE)) && Dialled(endpoints, name))
      || (err == Some(Other(RESET)) && Listed(endpoints, name))
    case EndOk => err.None?
    case EndErr => err == Some(Other(RESET))
    case Reset => err == Some(Other(RESET))
    case _ => err == Some(Other(BAD_FIRST))
  }

  /** With nothing forged, no message is lost or made up between the two ends. */
  predicate StreamsFaithful(s: State) {
    UpFaithful(s) && (!s.forgedDown && s.client.Connected? ==> s.sentDown == [Opened] + s.down)
  }

  lemma AnswersKept(s: State, a: Act)
    requires AgentSpeaksInOrder(s) && OpenedMeansGranted(s) && Answers(s) && Enabled(s, a)
    ensures Answers(Next(s, a))
  {
    if a.ReceiveFirst? {
      FirstAnswered(s);
    } else if a.Resolve? || a.Dial? || a.Ack? {
      SetUpAnswered(s, a);
    } else {
      ServingAnswered(s, a);
    }
  }

  lemma FirstAnswered(s: State)
    requires AgentSpeaksInOrder(s) && OpenedMeansGranted(s) && Answers(s) && Enabled(s, ReceiveFirst)
    ensures Answers(Next(s, ReceiveFirst))
  {
    assert s.dialed.None? && s.grantedFor.None?;
  }

  lemma SetUpAnswered(s: State, a: Act)
    requires a.Resolve? || a.Dial? || a.Ack?
    requires AgentSpeaksInOrder(s) && OpenedMeansGranted(s) && Answers(s) && Enabled(s, a)
    ensures Answers(Next(s, a))
  {
    hide AllData;
    assert s.grantedFor.None?;
  }

  lemma ServingAnswered(s: State, a: Act)
    requires !a.ReceiveFirst? && !a.Resolve? && !a.Dial? && !a.Ack?
    requires OpenedMeansGranted(s) && Answers(s) && Enabled(s, a)
    ensures Answers(Next(s, a))
  {
    hide AllData, EndsBare;
    match a
    case AgentRecv =>
    case AgentSend(_) =>
    case AgentReturn(_) =>
    case _ => AgentSilent(s, a);
  }

  /** A message put behind a stream is put behind what is left of it. */
  lemma BehindBoth(first: Frame, taken: seq<Frame>, left: seq<Frame>, f: Frame)
    ensures [first] + (taken + left) + [f] == [first] + (taken + (left + [f]))
    ensures [first] + left + [f] == [first] + (left + [f])
  {
  }

  predicate UpFaithful(s: State) {
    !s.forgedUp && !s.agent.AwaitOpen? ==>
      s.first == Some(Open(s.wanted)) && s.sentUp == [Open(s.wanted)] + (s.tookUp + s.up)
  }

  lemma UpKept(s: State, a: Act)
    requires ClientSpeaksInOrder(s) && QueuesFaithful(s) && Answers(s) && UpFaithful(s) && Enabled(s, a)
    ensures UpFaithful(Next(s, a))
  {
    hide AllData, Answers;
    match a
    case SendOpen => BehindBoth(Open(s.wanted), s.tookUp, s.up, Open(s.wanted));
    case ClientSend(b) => BehindBoth(Open(s.wanted), s.tookUp, s.up, Data(b));
    case ReceiveFirst => FirstTaken(s);
    case AgentRecv => assert s.tookUp + s.up == s.tookUp + [s.up[0]] + s.up[1..];
    case Resolve =>
    case _ =>
  }

  lemma FirstTaken(s: State)
    requires ClientSpeaksInOrder(s) && QueuesFaithful(s) && Answers(s) && Enabled(s, ReceiveFirst)
    ensures UpFaithful(Next(s, ReceiveFirst))
  {
    assert s.up == [s.up[0]] + s.up[1..];
    assert [] + s.up[1..] == s.up[1..];
  }

  lemma DownKept(s: State, a: Act)
    requires QueuesFaithful(s) && Enabled(s, a)
    requires !s.forgedDown && s.client.Connected? ==> s.sentDown == [Opened] + s.down
    ensures var s' := Next(s, a); !s'.forgedDown && s'.client.Connected? ==> s'.sentDown == [Opened] + s'.down
  {
    if a.ReceiveReply? {
      assert s.down == [s.down[0]] + s.down[1..];
    } else {
      SameOrBehind(s, a);
    }
  }

  lemma SameOrBehind(s: State, a: Act)
    requires Enabled(s, a) && !a.ReceiveReply?
    ensures var s' := Next(s, a);
      && (s'.client == s.client || !s'.client.Connected?) && (s.forgedDown ==> s'.forgedDown)
      && (s'.forgedDown || (s'.sentDown == s.sentDown && s'.down == s.down)
          || exists f: Frame :: s'.sentDown == s.sentDown + [f] && s'.down == s.down + [f])
  {
    match a
    case ReceiveFirst =>
      var end := Next(s, a).sentDown;
      assert end == s.sentDown || end == s.sentDown + [EndOk] || end == s.sentDown + [EndErr];
    case Resolve =>
    case _ =>
  }

  lemma StreamsKept(s: State, a: Act)
    requires ClientSpeaksInOrder(s) && QueuesFaithful(s) && Answers(s) && StreamsFaithful(s) && Enabled(s, a)
    ensures StreamsFaithful(Next(s, a))
  {
    UpKept(s, a);
    DownKept(s, a);
    hide Next, QueuesFaithful, ClientSpeaksInOrder, Answers;
  }

  lemma AppendShape(fs: seq<Frame>, f: Frame)
    ensures var fs' := fs + [f];
      && fs'[|fs'| - 1] == f
      && (fs != [] ==> fs'[0] == fs[0] && fs'[1..] == fs[1..] + [f] && fs'[1..|fs'| - 1] == fs[1..])
      && (fs != [] && AllData(fs[1..]) && f.Data? ==> AllData(fs'[1..]))
  {
  }

  lemma AgentSpeechKept(s: State, a: Act)
    requires AgentSpeaksInOrder(s) && Enabled(s, a)
    ensures AgentSpeaksInOrder(Next(s, a))
  {
    match a
    case ReceiveFirst => AgentAnswersInOrder(s, a);
    case Resolve => AgentAnswersInOrder(s, a);
    case Dial(_) => AgentAnswersInOrder(s, a);
    case Ack(_) => AppendShape(s.sentDown, Opened);
    case AgentSend(b) => AppendShape(s.sentDown, Data(b));
    case AgentReturn(err) => AppendShape(s.sentDown, if err.None? then EndOk else EndErr);
    case _ => AgentSilent(s, a);
  }

  /** Before Opened: a step on, or a bare end. */
  lemma AgentAnswersInOrder(s: State, a: Act)
    requires AgentSpeaksInOrder(s) && Enabled(s, a) && (a.ReceiveFirst? || a.Resolve? || a.Dial?)
    ensures AgentSpeaksInOrder(Next(s, a))
  {
  }

  lemma AgentSilent(s: State, a: Act)
    requires Enabled(s, a)
    requires (a.SendOpen? || a.ReceiveReply? || a.ClientSend? || a.AgentRecv? || a.ForgeUp? || a.ForgeDown?)
    ensures Next(s, a).sentDown == s.sentDown && Next(s, a).agent == s.agent
  {
  }

  lemma ClientSilent(s: State, a: Act)
    requires Enabled(s, a) && !a.SendOpen? && !a.ReceiveReply? && !a.ClientSend?
    ensures var s' := Next(s, a);
      s'.sentUp == s.sentUp && s'.client == s.client && s'.reply == s.reply && s'.wanted == s.wanted
  {
    match a
    case ReceiveFirst =>
    case Resolve =>
    case _ =>
  }

  lemma ClientSpeechKept(s: State, a: Act)
    requires ClientSpeaksInOrder(s) && Enabled(s, a)
    ensures ClientSpeaksInOrder(Next(s, a))
  {
    match a
    case SendOpen =>
    case ReceiveReply => assert AllData([Open(s.wanted)][1..]);
    case ClientSend(b) => AppendShape(s.sentUp, Data(b));
    case _ => ClientSilent(s, a);
  }

  lemma GrantsKept(s: State, a: Act)
    requires AgentSpeaksInOrder(s) && OpenedMeansGranted(s) && Enabled(s, a)
    ensures OpenedMeansGranted(Next(s, a))
  {
    hide AllData;
    match a
    case ReceiveFirst =>
    case Resolve =>
    case Dial(_) =>
    case Ack(_) =>
    case AgentSend(_) =>
    case AgentReturn(_) =>
    case _ => AgentSilent(s, a);
  }

  lemma QueuesKept(s: State, a: Act)
    requires AgentSpeaksInOrder(s) && ClientSpeaksInOrder(s) && OpenedMeansGranted(s) && QueuesFaithful(s)
    requires Enabled(s, a)
    ensures QueuesFaithful(Next(s, a))
  {
    if a.ReceiveFirst? || a.Resolve? || a.Dial? || a.Ack? || a.AgentSend? || a.AgentReturn? {
      AgentStepFaithful(s, a);
    } else {
      AgentSilent(s, a);
      match a
      case ReceiveReply =>
      case AgentRecv =>
      case _ =>
    }
  }

  lemma AgentStepFaithful(s: State, a: Act)
    requires a.ReceiveFirst? || a.Resolve? || a.Dial? || a.Ack? || a.AgentSend? || a.AgentReturn?
    requires AgentSpeaksInOrder(s) && ClientSpeaksInOrder(s) && OpenedMeansGranted(s) && QueuesFaithful(s)
    requires Enabled(s, a)
    ensures QueuesFaithful(Next(s, a))
  {
    hide AllData;
    match a
    case ReceiveFirst =>
    case Resolve =>
    case Ack(_) =>
    case _ =>
  }

  lemma ReadsKept(s: State, a: Act)
    requires ReadsInOrder(s) && Enabled(s, a)
    ensures ReadsInOrder(Next(s, a))
  {
    if a.AgentRecv? {
      InboxAppend(Agent, s.tookUp, s.up[0]);
      FirstStopFound(s.tookUp);
    } else {
      NothingTaken(s, a);
      hide Next;
    }
  }

  lemma NothingTaken(s: State, a: Act)
    requires Enabled(s, a) && !a.AgentRecv?
    ensures var s' := Next(s, a);
      s'.tookUp == s.tookUp && s'.agentRead == s.agentRead && s'.agentReadErr == s.agentReadErr
  {
    match a
    case ReceiveFirst =>
    case Resolve =>
    case _ =>
  }

  lemma StepKeepsInv(s: State, a: Act)
    requires Inv(s) && Enabled(s, a)
    ensures Inv(Next(s, a)) && Next(s, a).endpoints == s.endpoints && Next(s, a).wanted == s.wanted
  {
    NamesKept(s, a);
    hide AgentSpeaksInOrder, ClientSpeaksInOrder, OpenedMeansGranted, QueuesFaithful, ReadsInOrder, Answers,
      StreamsFaithful, Next;
    AgentSpeechKept(s, a);
    ClientSpeechKept(s, a);
    GrantsKept(s, a);
    QueuesKept(s, a);
    ReadsKept(s, a);
    AnswersKept(s, a);
    StreamsKept(s, a);
  }

  lemma NamesKept(s: State, a: Act)
    requires Enabled(s, a)
    ensures Next(s, a).endpoints == s.endpoints && Next(s, a).wanted == s.wanted
  {
    match a
    case Resolve =>
    case _ =>
  }

  lemma {:induction false} FirstStopFound(fs: seq<Frame>)
    ensures FirstStop(Inbox(Agent, fs)).None? ==> forall i :: 0 <= i < |fs| ==> Decode(Agent, fs[i]).Chunk?
  {
    if fs != [] {
      FirstStopFound(fs[1..]);
      InboxDrop(Agent, fs, 1);
      if FirstStop(Inbox(Agent, fs)).None? {
        forall i | 0 <= i < |fs| ensures Decode(Agent, fs[i]).Chunk? {
          if i > 0 {
            assert fs[1..][i - 1] == fs[i];
          }
        }
      }
    }
  }

  lemma {:induction false} RunKeepsInv(s: State, acts: seq<Act>)
    requires Inv(s) && ValidRun(s, acts)
    ensures Inv(Run(s, acts)) && Run(s, acts).endpoints == s.endpoints && Run(s, acts).wanted == s.wanted
    decreases |acts|
  {
    if acts != [] {
      StepKeepsInv(s, acts[0]);
      hide Inv, Next, Enabled;
      RunKeepsInv(Next(s, acts[0]), acts[1..]);
    }
  }

  /** Whatever is forged on either queue: the agent sends Opened at most once, before any data, and only for a
      name its allowlist grants, any dial having succeeded; the client sends no data until it has been answered,
      and is connected exactly if the answer was Opened. */
  lemma AgentOpensSafely(endpoints: map<string, string>, wanted: string, acts: seq<Act>, i: nat)
    requires ValidRun(Init(endpoints, wanted), acts)
    ensures var s := Run(Init(endpoints, wanted), acts);
      && (i < |s.sentDown| && s.sentDown[i].Opened? ==> i == 0 && s.grantedFor.Some? && Granted(s, s.grantedFor.value))
      && (i < |s.sentDown| && s.sentDown[i].Data? ==> i > 0 && s.sentDown[0].Opened?)
      && (i < |s.sentUp| && s.sentUp[i].Data? ==> s.client.Connected? && i > 0)
      && (i < |s.sentUp| && s.sentUp[i].Open? ==> i == 0 && s.sentUp[0] == Open(wanted))
      && (s.client.Connected? <==> s.reply == Some(Opened))
      && (s.client.Refused? || s.client.Connected? <==> s.reply.Some?)
  {
    RunKeepsInv(Init(endpoints, wanted), acts);
    var s := Run(Init(endpoints, wanted), acts);
    if 0 < i < |s.sentDown| {
      assert s.sentDown[i] in s.sentDown[1..] by { assert s.sentDown[i] == s.sentDown[1..][i - 1]; }
      if i < |s.sentDown| - 1 {
        assert s.sentDown[i] in s.sentDown[1..|s.sentDown| - 1] by {
          assert s.sentDown[i] == s.sentDown[1..|s.sentDown| - 1][i - 1];
        }
      }
    }
    if 0 < i < |s.sentUp| {
      assert s.sentUp[i] in s.sentUp[1..] by { assert s.sentUp[i] == s.sentUp[1..][i - 1]; }
    }
  }

  /** With nothing forged, a client gets a conn only for the very name it asked for, and only once the agent has
      granted it: a refused name or a failed dial never yields one. */
  lemma ConnMeansGranted(endpoints: map<string, string>, wanted: string, acts: seq<Act>)
    requires ValidRun(Init(endpoints, wanted), acts)
    ensures var s := Run(Init(endpoints, wanted), acts);
      !s.forgedUp && !s.forgedDown && s.client.Connected? ==>
        && (wanted == Routing.SHELL || wanted in endpoints)
        && (wanted == Routing.SHELL || endpoints[wanted] == "" || s.dialed == Some(endpoints[wanted]))
        && (s.agent.Serving? || s.agent.Done?)
  {
    RunKeepsInv(Init(endpoints, wanted), acts);
  }

  // ---------------------------------------------------------------- granted names are opened

  /** The steps that open the tunnel; the others move payload, end it, or are a forger's. */
  predicate SetUp(a: Act) {
    a.SendOpen? || a.ReceiveReply? || a.ReceiveFirst? || a.Resolve? || a.Dial? || a.Ack?
  }

  ghost predicate Settled(s: State) {
    forall a :: SetUp(a) ==> !Enabled(s, a)
  }

  predicate DialFailed(s: State) {
    s.grantedFor.None? && s.agent == Done(Some(Other(UNAVAILABLE)))
  }

  predicate AckFailed(s: State) {
    s.grantedFor.None? && s.agent == Done(Some(Other(RESET))) && s.first.Some? && s.first.value.Open?
  }

  lemma OutcomeStep(s: State, a: Act)
    requires Inv(s) && Enabled(s, a)
    ensures var s' := Next(s, a);
      && (DialFailed(s') <==> DialFailed(s) || a == Dial(false))
      && (AckFailed(s') <==> AckFailed(s) || a == Ack(false))
      && (s'.grantedFor.Some? <==> s.grantedFor.Some? || a == Ack(true))
      && (s.agent.Done? ==> s'.agent == s.agent && !a.AgentReturn?) && (a.AgentReturn? ==> s'.agent == Done(a.err))
  {
    hide AllData, AgentSpeaksInOrder, ClientSpeaksInOrder, QueuesFaithful, ReadsInOrder, StreamsFaithful;
    match a
    case ReceiveFirst =>
    case Resolve =>
    case Dial(_) =>
    case Ack(_) =>
    case AgentReturn(_) =>
    case _ => KeepsOutcome(s, a);
  }

  lemma KeepsOutcome(s: State, a: Act)
    requires Enabled(s, a)
    requires !a.ReceiveFirst? && !a.Resolve? && !a.Dial? && !a.Ack? && !a.AgentReturn?
    ensures var s' := Next(s, a); s'.grantedFor == s.grantedFor && s'.agent == s.agent && s'.first == s.first
  {
  }

  /** What came of dial and ack, told from the steps. */
  lemma {:induction false} Outcomes(s: State, acts: seq<Act>)
    requires Inv(s) && ValidRun(s, acts)
    ensures var s' := Run(s, acts);
      && Inv(s')
      && (DialFailed(s') <==> DialFailed(s) || Dial(false) in acts)
      && (AckFailed(s') <==> AckFailed(s) || Ack(false) in acts)
      && (s'.grantedFor.Some? <==> s.grantedFor.Some? || Ack(true) in acts)
      && (s.agent.Done? ==> s'.agent == s.agent && forall err :: AgentReturn(err) !in acts)
      && (forall err :: AgentReturn(err) in acts ==> s'.agent == Done(err))
    decreases |acts|
  {
    if acts != [] {
      StepKeepsInv(s, acts[0]);
      OutcomeStep(s, acts[0]);
      hide Inv, Next, Enabled, DialFailed, AckFailed;
      Outcomes(Next(s, acts[0]), acts[1..]);
      assert forall a :: a in acts <==> a == acts[0] || a in acts[1..];
    }
  }

  /** What a settled state looks like. */
  lemma SettledShape(s: State)
    requires Inv(s) && Settled(s) && !s.forgedUp && !s.forgedDown
    ensures s.client.Connected? || s.client.Refused?
    ensures s.agent.Serving? || s.agent.Done?
    ensures s.client.Connected? <==> s.grantedFor.Some?
  {
    assert !Enabled(s, SendOpen) && !Enabled(s, ReceiveReply) && !Enabled(s, ReceiveFirst) && !Enabled(s, Resolve);
    assert !Enabled(s, Dial(true)) && !Enabled(s, Ack(true));
    hide ReadsInOrder, AllData;
  }

  /** Who gets through, exactly. With nothing forged, in every run that has come to where only payload moves: the
      client has its conn if and only if the name is listed and neither dial nor ack failed, and it was refused
      otherwise. Along the way it is never refused for any other reason. */
  lemma OpensExactly(endpoints: map<string, string>, wanted: string, acts: seq<Act>)
    requires ValidRun(Init(endpoints, wanted), acts)
    ensures var s := Run(Init(endpoints, wanted), acts);
      var through := Listed(endpoints, wanted) && Dial(false) !in acts && Ack(false) !in acts;
      !s.forgedUp && !s.forgedDown ==>
        && (s.client.Refused? ==> !through)
        && (s.client.Connected? ==> through)
        && (Settled(s) ==> s.client.Connected? || s.client.Refused?)
  {
    var s0 := Init(endpoints, wanted);
    var s := Run(s0, acts);
    RunKeepsInv(s0, acts);
    Outcomes(s0, acts);
    if !s.forgedUp && !s.forgedDown {
      if Settled(s) {
        SettledShape(s);
      }
      Refusal(s);
    }
  }

  /** A refusal has a reason, and a conn excludes all of them. */
  lemma Refusal(s: State)
    requires Inv(s) && !s.forgedUp && !s.forgedDown
    ensures s.client.Refused? ==> !Listed(s.endpoints, s.wanted) || DialFailed(s) || AckFailed(s)
    ensures s.client.Connected? ==> Listed(s.endpoints, s.wanted) && !DialFailed(s) && !AckFailed(s)
  {
    hide ReadsInOrder, AllData;
  }

  /** What is left of opening the tunnel. */
  function SetUpWork(s: State): nat {
    (match s.client case Idle => 2 case AwaitOpened => 1 case _ => 0)
    + (match s.agent case AwaitOpen => 4 case Resolving(_) => 3 case Dialing(_) => 2 case Acking(_) => 1 case _ => 0)
  }

  function SetUpSteps(acts: seq<Act>): nat {
    if acts == [] then 0 else (if SetUp(acts[0]) then 1 else 0) + SetUpSteps(acts[1..])
  }

  lemma SetUpStep(s: State, a: Act)
    requires Enabled(s, a)
    ensures SetUpWork(Next(s, a)) <= SetUpWork(s) - if SetUp(a) then 1 else 0
  {
    match a
    case ReceiveFirst =>
    case Resolve =>
    case _ =>
  }

  /** Opening a tunnel takes at most six steps, whatever is forged and whatever else goes on. */
  lemma {:induction false} SetUpEnds(s: State, acts: seq<Act>)
    requires ValidRun(s, acts)
    ensures SetUpSteps(acts) + SetUpWork(Run(s, acts)) <= SetUpWork(s) <= 6
    decreases |acts|
  {
    if acts != [] {
      SetUpStep(s, acts[0]);
      hide Next, Enabled;
      SetUpEnds(Next(s, acts[0]), acts[1..]);
    }
  }

  /** From every state a run with nothing forged can come to, a client that asked for a listed name can still get
      its conn, unless its dial or its ack has failed; and no other client can. */
  lemma CanConnectExactly(endpoints: map<string, string>, wanted: string, acts: seq<Act>)
    requires ValidRun(Init(endpoints, wanted), acts)
    requires !Run(Init(endpoints, wanted), acts).forgedUp && !Run(Init(endpoints, wanted), acts).forgedDown
    ensures (exists more :: ValidRun(Run(Init(endpoints, wanted), acts), more) && Unforged(more)
               && Run(Run(Init(endpoints, wanted), acts), more).client.Connected?) <==>
      Listed(endpoints, wanted) && Dial(false) !in acts && Ack(false) !in acts
  {
    var s := Run(Init(endpoints, wanted), acts);
    RunKeepsInv(Init(endpoints, wanted), acts);
    Outcomes(Init(endpoints, wanted), acts);
    if Listed(s.endpoints, wanted) && !DialFailed(s) && !AckFailed(s) {
      WillConnect(s);
    } else {
      forall more | ValidRun(s, more) && Unforged(more) ensures !Run(s, more).client.Connected? {
        StaysOut(s, more);
      }
    }
  }

  predicate Unforged(acts: seq<Act>) {
    forall a :: a in acts ==> !a.ForgeUp? && !a.ForgeDown?
  }

  lemma {:induction false} StaysOut(s: State, more: seq<Act>)
    requires Inv(s) && ValidRun(s, more) && Unforged(more) && !s.forgedUp && !s.forgedDown
    requires !Listed(s.endpoints, s.wanted) || DialFailed(s) || AckFailed(s)
    ensures !Run(s, more).client.Connected?
  {
    UnforgedRun(s, more);
    Outcomes(s, more);
    RunKeepsInv(s, more);
    Refusal(Run(s, more));
  }

  lemma {:induction false} UnforgedRun(s: State, more: seq<Act>)
    requires ValidRun(s, more) && Unforged(more)
    ensures Run(s, more).forgedUp == s.forgedUp && Run(s, more).forgedDown == s.forgedDown
    decreases |more|
  {
    if more != [] {
      assert more[0] in more;
      UnforgedStep(s, more[0]);
      hide Next, Enabled;
      UnforgedRun(Next(s, more[0]), more[1..]);
    }
  }

  lemma UnforgedStep(s: State, a: Act)
    requires Enabled(s, a) && !a.ForgeUp? && !a.ForgeDown?
    ensures Next(s, a).forgedUp == s.forgedUp && Next(s, a).forgedDown == s.forgedDown
  {
    match a
    case ReceiveFirst =>
    case Resolve =>
    case _ =>
  }

  lemma {:induction false} WillConnect(s: State)
    requires Inv(s) && !s.forgedUp && !s.forgedDown && Listed(s.endpoints, s.wanted) && !DialFailed(s) && !AckFailed(s)
    ensures exists more :: ValidRun(s, more) && Unforged(more) && Run(s, more).client.Connected?
    decreases SetUpWork(s)
  {
    if Settled(s) {
      SettledShape(s);
      Refusal(s);
      assert ValidRun(s, []) && Unforged([]) && Run(s, []) == s;
    } else {
      var a :| SetUp(a) && Enabled(s, a);
      var b := if a.Dial? then Dial(true) else if a.Ack? then Ack(true) else a;
      SetUpStep(s, b);
      StepKeepsInv(s, b);
      OutcomeStep(s, b);
      UnforgedStep(s, b);
      hide Next, Inv, Enabled, DialFailed, AckFailed;
      WillConnect(Next(s, b));
      var later :| ValidRun(Next(s, b), later) && Unforged(later) && Run(Next(s, b), later).client.Connected?;
      var more := [b] + later;
      assert more[1..] == later;
      assert ValidRun(s, more) && Unforged(more) && Run(s, more).client.Connected?;
    }
  }

  /** Whatever is forged, why a stream ended without Opened is told from its first message and from dial and ack
      alone; a name is dialled only if it is listed, is not the shell's and has an address, and then at that. */
  lemma AnswersExactly(endpoints: map<string, string>, wanted: string, acts: seq<Act>)
    requires ValidRun(Init(endpoints, wanted), acts)
    ensures var s := Run(Init(endpoints, wanted), acts);
      && (s.grantedFor.Some? <==> Ack(true) in acts)
      && (s.grantedFor.Some? ==> s.first == Some(Open(s.grantedFor.value)))
      && (s.dialed.Some? || Dial(false) in acts ==>
            s.first.Some? && s.first.value.Open? &&
            Dialled(endpoints, s.first.value.endpoint))
      && (s.dialed.Some? ==> s.dialed == Some(endpoints[s.first.value.endpoint]))
      && (forall err :: AgentReturn(err) in acts ==>
            s.sentDown != [] && s.sentDown[|s.sentDown| - 1] == if err.None? then EndOk else EndErr)
      && (s.agent.Done? && s.grantedFor.None? ==>
            && s.first.Some? && s.sentDown == [if s.agent.err.None? then EndOk else EndErr]
            && (s.agent.err.None? <==> s.first == Some(EndOk))
            && (s.agent.err == Some(Other(BAD_FIRST)) <==>
                !s.first.value.Open? && !s.first.value.EndOk? && !s.first.value.EndErr? && !s.first.value.Reset?)
            && (s.agent.err == Some(Other(NOT_FOUND)) <==>
                s.first.value.Open? && !Listed(endpoints, s.first.value.endpoint))
            && (s.agent.err == Some(Other(UNAVAILABLE)) <==> Dial(false) in acts))
  {
    RunKeepsInv(Init(endpoints, wanted), acts);
    Outcomes(Init(endpoints, wanted), acts);
    hide ReadsInOrder, QueuesFaithful, StreamsFaithful, ClientSpeaksInOrder;
  }

  // ---------------------------------------------------------------- payload behind the handshake

  /** What each side was told to send. */
  function ClientBytes(acts: seq<Act>): bytes {
    if acts == [] then [] else (if acts[0].ClientSend? then acts[0].b else []) + ClientBytes(acts[1..])
  }

  function AgentBytes(acts: seq<Act>): bytes {
    if acts == [] then [] else (if acts[0].AgentSend? then acts[0].b else []) + AgentBytes(acts[1..])
  }

  lemma SendStep(s: State, a: Act)
    requires Enabled(s, a)
    ensures DataIn(Next(s, a).sentUp) == DataIn(s.sentUp) + if a.ClientSend? then a.b else []
    ensures DataIn(Next(s, a).sentDown) == DataIn(s.sentDown) + if a.AgentSend? then a.b else []
  {
    SentBehind(s, a);
    hide Next, DataIn;
    if a.ClientSend? || a.AgentSend? {
      DataBehind(s.sentUp, Data(a.b));
      DataBehind(s.sentDown, Data(a.b));
    }
    DataBehind(s.sentUp, Open(s.wanted));
    DataBehind(s.sentDown, Opened);
    DataBehind(s.sentDown, EndOk);
    DataBehind(s.sentDown, EndErr);
  }

  lemma SentBehind(s: State, a: Act)
    requires Enabled(s, a)
    ensures var s' := Next(s, a);
      && (if a.SendOpen? then s'.sentUp == s.sentUp + [Open(s.wanted)]
          else if a.ClientSend? then s'.sentUp == s.sentUp + [Data(a.b)] else s'.sentUp == s.sentUp)
      && (s'.sentDown == s.sentDown || s'.sentDown == s.sentDown + [Opened] || s'.sentDown == s.sentDown + [EndOk]
          || s'.sentDown == s.sentDown + [EndErr] || (a.AgentSend? && s'.sentDown == s.sentDown + [Data(a.b)]))
      && (a.AgentSend? ==> s'.sentDown == s.sentDown + [Data(a.b)])
  {
    match a
    case ReceiveFirst =>
    case Resolve =>
    case _ =>
  }

  lemma {:induction false} SentBytes(s: State, acts: seq<Act>)
    requires ValidRun(s, acts)
    ensures DataIn(Run(s, acts).sentUp) == DataIn(s.sentUp) + ClientBytes(acts)
    ensures DataIn(Run(s, acts).sentDown) == DataIn(s.sentDown) + AgentBytes(acts)
    decreases |acts|
  {
    if acts != [] {
      SendStep(s, acts[0]);
      hide Next, Enabled, DataIn;
      SentBytes(Next(s, acts[0]), acts[1..]);
    }
  }

  lemma {:induction false} DataIsPayload(fs: seq<Frame>)
    requires AllData(fs)
    ensures Payload(Inbox(Agent, fs)) == DataIn(fs) && FirstStop(Inbox(Agent, fs)).None?
  {
    if fs != [] {
      assert fs[0] in fs && forall f :: f in fs[1..] ==> f in fs;
      DataIsPayload(fs[1..]);
      InboxDrop(Agent, fs, 1);
    }
  }

  /** The handshake is transparent. With nothing forged: what the agent's conn has read is the bytes the client has
      sent, from the first, but for those still on their way; what is on its way to a connected client is the bytes
      the agent has sent. No message of the handshake is taken for payload, and no payload for one. */
  lemma HandshakeIsTransparent(endpoints: map<string, string>, wanted: string, acts: seq<Act>)
    requires ValidRun(Init(endpoints, wanted), acts)
    ensures var s := Run(Init(endpoints, wanted), acts);
      && (!s.forgedUp && !s.agent.AwaitOpen? ==>
            s.agentReadErr.None? && s.agentRead + DataIn(s.up) == ClientBytes(acts))
      && (!s.forgedDown && s.client.Connected? ==> DataIn(s.down) == AgentBytes(acts))
  {
    var s0 := Init(endpoints, wanted);
    var s := Run(s0, acts);
    RunKeepsInv(s0, acts);
    SentBytes(s0, acts);
    assert [] + ClientBytes(acts) == ClientBytes(acts) && [] + AgentBytes(acts) == AgentBytes(acts);
    hide Run, ValidRun;
    if !s.forgedUp && !s.agent.AwaitOpen? {
      UpBytes(s);
    }
    if !s.forgedDown && s.client.Connected? {
      DataInConcat([Opened], s.down);
      assert [Opened][1..] == [];
    }
  }

  lemma UpBytes(s: State)
    requires ReadsInOrder(s) && ClientSpeaksInOrder(s) && UpFaithful(s) && !s.forgedUp && !s.agent.AwaitOpen?
    ensures s.agentReadErr.None? && s.agentRead + DataIn(s.up) == DataIn(s.sentUp)
  {
    var open := [Open(s.wanted)];
    var rest := s.tookUp + s.up;
    assert s.sentUp == open + rest && s.sentUp[1..] == rest && AllData(rest);
    assert forall f :: f in s.tookUp ==> f in rest;
    DataIsPayload(s.tookUp);
    DataInConcat(open, rest);
    DataInConcat(s.tookUp, s.up);
    assert open[1..] == [];
  }

  /** The agent takes what is left on its way. */
  lemma {:induction false} TakesAll(s: State) returns (more: seq<Act>)
    requires Inv(s) && s.agent.Serving? && !s.forgedUp
    ensures ValidRun(s, more) && forall a :: a in more ==> a.AgentRecv?
    ensures var s' := Run(s, more);
      Inv(s') && s'.up == [] && s'.agent == s.agent && !s'.forgedUp && s'.sentUp == s.sentUp
    decreases |s.up|
  {
    UpBytes(s);
    if s.up == [] {
      more := [];
    } else {
      StepKeepsInv(s, AgentRecv);
      var s1 := Next(s, AgentRecv);
      assert s1.agent == s.agent && s1.sentUp == s.sentUp && |s1.up| < |s.up|;
      hide Inv, Next, Enabled;
      var later := TakesAll(s1);
      more := [AgentRecv] + later;
      assert more[1..] == later;
    }
  }

  /** Payload arrives, and the tunnel can end: from every state in which the agent serves and nothing was forged, it
      can come to have read all that the client has sent, and then return whatever it likes. */
  lemma PayloadArrives(endpoints: map<string, string>, wanted: string, acts: seq<Act>, err: Option<Error>)
    requires ValidRun(Init(endpoints, wanted), acts)
    requires var s := Run(Init(endpoints, wanted), acts); s.agent.Serving? && !s.forgedUp
    ensures exists more ::
      && ValidRun(Run(Init(endpoints, wanted), acts), more)
      && Run(Run(Init(endpoints, wanted), acts), more).agentRead == ClientBytes(acts)
      && Run(Run(Init(endpoints, wanted), acts), more).agent == Done(err)
  {
    var s := Run(Init(endpoints, wanted), acts);
    RunKeepsInv(Init(endpoints, wanted), acts);
    SentBytes(Init(endpoints, wanted), acts);
    var more := TakesAll(s);
    var s' := Run(s, more);
    UpBytes(s');
    assert s'.agentRead == ClientBytes(acts) by {
      assert [] + ClientBytes(acts) == ClientBytes(acts) && s'.agentRead + [] == s'.agentRead;
    }
    RunSnoc(s, more, AgentReturn(err));
    assert Next(s', AgentReturn(err)).agentRead == s'.agentRead;
    hide Inv, Next, Enabled;
    assert Run(s, more + [AgentReturn(err)]).agent == Done(err);
  }

  lemma {:induction false} RunSnoc(s: State, acts: seq<Act>, a: Act)
    requires ValidRun(s, acts) && Enabled(Run(s, acts), a)
    ensures ValidRun(s, acts + [a]) && Run(s, acts + [a]) == Next(Run(s, acts), a)
    decreases |acts|
  {
    if acts == [] {
      assert acts + [a] == [a] && [a][1..] == [];
    } else {
      assert (acts + [a])[0] == acts[0] && (acts + [a])[1..] == acts[1..] + [a];
      RunSnoc(Next(s, acts[0]), acts[1..], a);
    }
  }

  /** A second Open is never payload, and nothing after it is read: it ends the agent's read side with an error,
      for good. */
  lemma SecondOpenEndsReading(s: State, acts: seq<Act>, i: nat)
    requires Inv(s) && ValidRun(s, acts) && i < |s.tookUp| && s.tookUp[i].Open?
    ensures var s' := Run(s, acts);
      && s'.agentReadErr == Some(Wrap(Other(SECOND_OPEN)))
      && s'.tookUp == s.tookUp && s'.agentRead == s.agentRead == Payload(Inbox(Agent, s.tookUp[..i]))
  {
    OpenStops(s.tookUp, i);
    ReadingOver(s, acts);
    hide Next, Enabled, Payload, FirstStop, Inbox, ValidRun, Run;
  }

  lemma OpenStops(fs: seq<Frame>, i: nat)
    requires i < |fs| && fs[i].Open?
    requires forall j :: 0 <= j < |fs| && Decode(Agent, fs[j]).Stop? ==> j == |fs| - 1
    ensures FirstStop(Inbox(Agent, fs)) == Some(Wrap(Other(SECOND_OPEN)))
    ensures Payload(Inbox(Agent, fs)) == Payload(Inbox(Agent, fs[..i]))
  {
    assert Decode(Agent, fs[i]).Stop?;
    assert fs == fs[..i] + [fs[i]];
    InboxAppend(Agent, fs[..i], fs[i]);
    AllChunksNoStop(Inbox(Agent, fs[..i]));
  }

  lemma {:induction false} AllChunksNoStop(inbox: seq<RecvResult>)
    requires forall i :: 0 <= i < |inbox| ==> inbox[i].Chunk?
    ensures FirstStop(inbox).None?
  {
    if inbox != [] {
      AllChunksNoStop(inbox[1..]);
    }
  }

  lemma ReadingOverStep(s: State, a: Act)
    requires s.agentReadErr.Some? && Enabled(s, a)
    ensures var s' := Next(s, a);
        s'.agentReadErr == s.agentReadErr && s'.tookUp == s.tookUp && s'.agentRead == s.agentRead
  {
    assert !a.AgentRecv?;
    NothingTaken(s, a);
  }

  lemma {:induction false} ReadingOver(s: State, acts: seq<Act>)
    requires s.agentReadErr.Some? && ValidRun(s, acts)
    ensures var s' := Run(s, acts);
        s'.agentReadErr == s.agentReadErr && s'.tookUp == s.tookUp && s'.agentRead == s.agentRead
    decreases |acts|
  {
    if acts != [] {
      ReadingOverStep(s, acts[0]);
      hide Next, Enabled;
      ReadingOver(Next(s, acts[0]), acts[1..]);
    }
  }
}
