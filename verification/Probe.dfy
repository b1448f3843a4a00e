/** The duplex probe: Check on the client, Ping on the agent, and the path between them, which either forwards the
    request body as it comes or holds it back until the body is closed. */
module Probe {
  import opened Prelude

  const ROUNDS: nat := 2

  datatype Reply = Seq(n: nat) | ReceiveFailed

  /** A round goes through: its send succeeds and its number comes back. */
  predicate Echoed(sends: nat -> bool, replies: nat -> Reply, i: nat) {
    sends(i) && replies(i) == Seq(i)
  }

  /** Check's loop against what the stream does with its sends and gives it for replies: it sends 1, 2, ... and
      goes on only while each is echoed. */
  method Check(rounds: nat, sends: nat -> bool, replies: nat -> Reply) returns (ok: bool, sent: seq<nat>)
    ensures ok <==> forall i :: 1 <= i <= rounds ==> Echoed(sends, replies, i)
    ensures forall k :: 0 <= k < |sent| ==> sent[k] == k + 1
    ensures ok ==> |sent| == rounds
    ensures !ok ==> 1 <= |sent| <= rounds && !Echoed(sends, replies, |sent|)
    ensures forall i :: 1 <= i < |sent| ==> Echoed(sends, replies, i)
  {
    sent := [];
    var i := 1;
    while i <= rounds
      invariant 1 <= i <= rounds + 1 && |sent| == i - 1
      invariant forall k :: 0 <= k < |sent| ==> sent[k] == k + 1
      invariant forall j :: 1 <= j < i ==> Echoed(sends, replies, j)
    {
      sent := sent + [i];
      if !sends(i) {
        assert !Echoed(sends, replies, i);
        return false, sent;
      }
      if replies(i) != Seq(i) {
        assert !Echoed(sends, replies, i);
        return false, sent;
      }
      i := i + 1;
    }
    return true, sent;
  }

  // ---------------------------------------------------------------- over a path

  datatype Path = Forwarding | Buffering

  datatype Pc = Sending(i: nat) | Awaiting(i: nat) | Succeeded | Failed

  datatype Event = Sent(i: nat) | Handled(i: nat) | Got(i: nat)

  /** held is what the middle has of the request body; log the events of the run, in order. */
  datatype State = State(
    path: Path,
    rounds: nat,
    client: Pc,
    held: seq<nat>,
    toAgent: seq<nat>,
    toClient: seq<nat>,
    bodyClosed: bool,
    log: seq<Event>)

  function Init(path: Path, rounds: nat): State {
    State(path, rounds, if rounds == 0 then Succeeded else Sending(1), [], [], [], false, [])
  }

  /** GiveUp is the deadline; CloseBody the CloseRequest deferred to Check's return. */
  datatype Act = Send | Forward | Echo | Receive | GiveUp | CloseBody

  predicate Enabled(s: State, a: Act) {
    match a
    case Send => s.client.Sending?
    case Forward => s.held != [] && (s.path.Forwarding? || s.bodyClosed)
    case Echo => s.toAgent != []
    case Receive => s.client.Awaiting? && s.toClient != []
    case GiveUp => s.client.Sending? || s.client.Awaiting?
    case CloseBody => (s.client.Succeeded? || s.client.Failed?) && !s.bodyClosed
  }

  function Next(s: State, a: Act): State
    requires Enabled(s, a)
  {
    match a
    case Send =>
      var i := s.client.i;
      s.(client := Awaiting(i), held := s.held + [i], log := s.log + [Sent(i)])
    case Forward => s.(held := s.held[1..], toAgent := s.toAgent + [s.held[0]])
    case Echo =>
      s.(toAgent := s.toAgent[1..], toClient := s.toClient + [s.toAgent[0]], log := s.log + [Handled(s.toAgent[0])])
    case Receive =>
      var i := s.client.i;
      var s' := s.(toClient := s.toClient[1..], log := s.log + [Got(s.toClient[0])]);
      if s.toClient[0] != i then s'.(client := Failed)
      else if i == s.rounds then s'.(client := Succeeded)
      else s'.(client := Sending(i + 1))
    case GiveUp => s.(client := Failed)
    case CloseBody => s.(bodyClosed := true)
  }

  ghost predicate ValidRun(s: State, acts: seq<Act>)
    decreases |acts|
  {
    acts == [] || (Enabled(s, acts[0]) && ValidRun(Next(s, acts[0]), acts[1..]))
  }

  function Run(s: State, acts: seq<Act>): State
    requires ValidRun(s, acts)
    decreases |acts|
  {
    if acts == [] then s else Run(Next(s, acts[0]), acts[1..])
  }

  /** The one order in which n rounds can succeed. */
  function Rounds(n: nat): seq<Event> {
    if n == 0 then [] else Rounds(n - 1) + [Sent(n), Handled(n), Got(n)]
  }

  /** While the client waits for reply i, message i is the only one about, at one of three places. */
  predicate OneInFlight(s: State, i: nat)
    requires i >= 1
  {
    || (s.held == [i] && s.toAgent == [] && s.toClient == [] && s.log == Rounds(i - 1) + [Sent(i)])
    || (s.held == [] && s.toAgent == [i] && s.toClient == [] && s.log == Rounds(i - 1) + [Sent(i)])
    || (s.held == [] && s.toAgent == [] && s.toClient == [i] && s.log == Rounds(i - 1) + [Sent(i), Handled(i)])
  }

  predicate Quiet(s: State) {
    s.held == [] && s.toAgent == [] && s.toClient == []
  }

  predicate Inv(s: State) {
    && (s.bodyClosed ==> s.client.Succeeded? || s.client.Failed?)
    && match s.client
       case Sending(i) => 1 <= i <= s.rounds && Quiet(s) && s.log == Rounds(i - 1)
       case Awaiting(i) => 1 <= i <= s.rounds && OneInFlight(s, i)
       case Succeeded => Quiet(s) && s.log == Rounds(s.rounds)
       case Failed => true
  }

  lemma StepKeepsInv(s: State, a: Act)
    requires Inv(s) && Enabled(s, a)
    ensures Inv(Next(s, a))
  {
    if s.client.Awaiting? {
      var before := Rounds(s.client.i - 1);
      assert before + [Sent(s.client.i)] + [Handled(s.client.i)] == before + [Sent(s.client.i), Handled(s.client.i)];
      assert before + [Sent(s.client.i), Handled(s.client.i)] + [Got(s.client.i)] == Rounds(s.client.i);
    }
  }

  lemma {:induction false} RunKeepsInv(s: State, acts: seq<Act>)
    requires Inv(s) && ValidRun(s, acts)
    ensures Inv(Run(s, acts)) && Run(s, acts).rounds == s.rounds && Run(s, acts).path == s.path
    decreases |acts|
  {
    if acts != [] {
      StepKeepsInv(s, acts[0]);
      RunKeepsInv(Next(s, acts[0]), acts[1..]);
    }
  }

  /** A success proves the interleaving: the whole run was send 1, handle 1, get 1, send 2, ..., so the agent
      handled each round before the next was sent. */
  lemma SuccessMeansInterleaved(path: Path, rounds: nat, acts: seq<Act>)
    requires ValidRun(Init(path, rounds), acts)
    ensures Run(Init(path, rounds), acts).client.Succeeded? ==> Run(Init(path, rounds), acts).log == Rounds(rounds)
  {
    RunKeepsInv(Init(path, rounds), acts);
  }

  // ---------------------------------------------------------------- a buffering path

  /** Before the body is closed nothing has left the middle. */
  predicate Stalled(s: State) {
    && s.path.Buffering? && s.rounds > 0
    && (s.client == Sending(1) || s.client == Awaiting(1) || s.client.Failed?)
    && (!s.client.Failed? ==> s.toAgent == [] && s.toClient == [] && !s.bodyClosed)
  }

  lemma {:induction false} StaysStalled(s: State, acts: seq<Act>)
    requires Stalled(s) && ValidRun(s, acts)
    ensures Stalled(Run(s, acts))
    decreases |acts|
  {
    if acts != [] {
      StaysStalled(Next(s, acts[0]), acts[1..]);
    }
  }

  // ---------------------------------------------------------------- a forwarding path

  function Work(s: State): nat
    requires Inv(s)
  {
    match s.client
    case Sending(i) => 4 * (s.rounds - i + 1) + 1
    case Awaiting(i) => 4 * (s.rounds - i + 1) - (if s.held != [] then 0 else if s.toAgent != [] then 1 else 2)
    case _ => 0
  }

  /** Until the deadline strikes, a forwarding path always has a next step, and each brings the end nearer. */
  lemma ForwardingPathProgresses(s: State)
    requires Inv(s) && s.path.Forwarding? && (s.client.Sending? || s.client.Awaiting?)
    ensures exists a :: Enabled(s, a) && !a.GiveUp?
    ensures forall a :: Enabled(s, a) && !a.GiveUp? ==> Inv(Next(s, a)) && Work(Next(s, a)) < Work(s)
  {
    assert Enabled(s, Send) || Enabled(s, Forward) || Enabled(s, Echo) || Enabled(s, Receive);
    forall a | Enabled(s, a) && !a.GiveUp? ensures Inv(Next(s, a)) && Work(Next(s, a)) < Work(s) {
      StepKeepsInv(s, a);
    }
  }

  /** A run with no deadline in it succeeds after at most Work steps: there is no other way to stop. */
  lemma {:induction false} ForwardingRunsSucceed(s: State, acts: seq<Act>)
    requires Inv(s) && s.path.Forwarding? && !s.client.Failed? && ValidRun(s, acts) && GiveUp !in acts
    ensures var s' := Run(s, acts);
      && Inv(s') && !s'.client.Failed?
      && (!s'.client.Succeeded? ==> |acts| + Work(s') <= Work(s))
      && (s'.client.Succeeded? || exists a :: Enabled(s', a) && !a.GiveUp?)
    decreases |acts|
  {
    if acts == [] {
      if !s.client.Succeeded? {
        ForwardingPathProgresses(s);
      }
    } else {
      assert acts[0] in acts;
      StepKeepsInv(s, acts[0]);
      if !s.client.Succeeded? {
        ForwardingPathProgresses(s);
      } else {
        DoneStaysDone(Next(s, acts[0]), acts[1..]);
      }
      ForwardingRunsSucceed(Next(s, acts[0]), acts[1..]);
    }
  }

  lemma {:induction false} DoneStaysDone(s: State, acts: seq<Act>)
    requires s.client.Succeeded? && ValidRun(s, acts)
    ensures Run(s, acts).client.Succeeded?
    decreases |acts|
  {
    if acts != [] {
      DoneStaysDone(Next(s, acts[0]), acts[1..]);
    }
  }

  ghost predicate CanSucceed(path: Path, rounds: nat) {
    exists acts :: ValidRun(Init(path, rounds), acts) && Run(Init(path, rounds), acts).client.Succeeded?
  }

  /** The probe tells the paths apart: over a path that holds the body back, no run with at least one round
      succeeds; over a forwarding one, some run does (and by ForwardingRunsSucceed every run not cut short by the
      deadline). */
  lemma ProbeDiscriminates(path: Path, rounds: nat)
    ensures CanSucceed(path, rounds) <==> path.Forwarding? || rounds == 0
  {
    if path.Buffering? && rounds > 0 {
      forall acts | ValidRun(Init(path, rounds), acts) ensures !Run(Init(path, rounds), acts).client.Succeeded? {
        StaysStalled(Init(path, rounds), acts);
      }
    } else {
      ReachSuccess(Init(path, rounds));
    }
  }

  lemma {:induction false} ReachSuccess(s: State)
    requires Inv(s) && !s.client.Failed? && (s.path.Forwarding? || s.client.Succeeded?)
    ensures exists acts :: ValidRun(s, acts) && Run(s, acts).client.Succeeded?
    decreases Work(s)
  {
    if s.client.Succeeded? {
      assert ValidRun(s, []) && Run(s, []) == s;
    } else {
      ForwardingPathProgresses(s);
      var a :| Enabled(s, a) && !a.GiveUp?;
      StepKeepsInv(s, a);
      ReachSuccess(Next(s, a));
      var later :| ValidRun(Next(s, a), later) && Run(Next(s, a), later).client.Succeeded?;
      var acts := [a] + later;
      assert acts[1..] == later;
      assert ValidRun(s, acts) && Run(s, acts).client.Succeeded?;
    }
  }

  /** Check's two rounds are enough to tell, and what a success then means. */
  lemma CheckDiscriminates(path: Path, acts: seq<Act>)
    requires ValidRun(Init(path, ROUNDS), acts)
    ensures CanSucceed(path, ROUNDS) <==> path.Forwarding?
    ensures var s := Run(Init(path, ROUNDS), acts);
      s.client.Succeeded? ==> s.log == [Sent(1), Handled(1), Got(1), Sent(2), Handled(2), Got(2)]
  {
    ProbeDiscriminates(path, ROUNDS);
    SuccessMeansInterleaved(path, ROUNDS, acts);
    assert Rounds(2) == [] + [Sent(1), Handled(1), Got(1)] + [Sent(2), Handled(2), Got(2)];
  }

  // ---------------------------------------------------------------- the probe always ends

  /** Steps that are left: the client's, and those of the messages about. */
  function StepsLeft(s: State): int {
    (match s.client
     case Sending(i) => 5 * (s.rounds - i) + 5
     case Awaiting(i) => 5 * (s.rounds - i) + 1
     case _ => 0)
    + 3 * |s.held| + 2 * |s.toAgent| + |s.toClient| + if s.bodyClosed then 0 else 1
  }

  lemma StepsGoDown(s: State, a: Act)
    requires Inv(s) && Enabled(s, a)
    ensures StepsLeft(Next(s, a)) < StepsLeft(s)
  {
  }

  /** No run is longer than the steps there were. */
  lemma {:induction false} RunsAreFinite(s: State, acts: seq<Act>)
    requires Inv(s) && ValidRun(s, acts)
    ensures |acts| + StepsLeft(Run(s, acts)) <= StepsLeft(s) && Inv(Run(s, acts))
    decreases |acts|
  {
    if acts != [] {
      StepKeepsInv(s, acts[0]);
      StepsGoDown(s, acts[0]);
      RunsAreFinite(Next(s, acts[0]), acts[1..]);
    }
  }

  /** The probe always ends. Over either path every run is bounded, and one that has come to rest has reported success
      or failure, closed the request body, and left no message behind. */
  lemma ProbeEnds(path: Path, rounds: nat, acts: seq<Act>)
    requires ValidRun(Init(path, rounds), acts)
    ensures var s := Run(Init(path, rounds), acts);
      && |acts| <= 5 * rounds + 1
      && ((forall a :: !Enabled(s, a)) ==>
            (s.client.Succeeded? || s.client.Failed?) && s.bodyClosed && s.held == s.toAgent == [])
  {
    RunsAreFinite(Init(path, rounds), acts);
    var s := Run(Init(path, rounds), acts);
    if forall a :: !Enabled(s, a) {
      assert !Enabled(s, GiveUp) && !Enabled(s, CloseBody) && !Enabled(s, Forward) && !Enabled(s, Echo);
    }
    assert |acts| <= StepsLeft(Init(path, rounds)) - StepsLeft(s);
    StepsNotNegative(s);
  }

  lemma StepsNotNegative(s: State)
    requires Inv(s)
    ensures StepsLeft(s) >= 0
  {
  }
}
