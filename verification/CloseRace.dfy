/** Write, CloseWrite and Close on one conn, called by any number of goroutines, at the grain of its locks:
    writeMu, the conn's closeOnce, and the once that guards a WebSocket's close-write frame. Over Connect
    closeSend is CloseRequest, which nothing guards. */
module CloseRace {
  import opened Prelude
  import opened StreamConn

  datatype Op = WriteOp(empty: bool) | CloseWriteOp | CloseOp

  datatype Pc =
    | WantLock                              // Write, CloseWrite: before writeMu
    | Checking                              // holding writeMu, at the first test
    | Sending                               // Write: in send, holding writeMu
    | EnterFin                              // entering closeSend; CloseWrite holds writeMu here, Close does not
    | InFin                                 // in closeSend proper
    | EnterClose                            // Close: at closeOnce
    | Releasing                             // Close: closeSend has returned, closeAll is next
    | WantErrLock                           // Close: before taking writeMu to refuse later Writes
    | Returned(err: Option<Error>)

  /** finErr and relErr are what closeSend and closeAll returned to this thread; sent whether it reached send;
      answers, a history, what the transport answered during this call, in order. */
  datatype Thread = Thread(
    op: Op, pc: Pc, finErr: Option<Error>, relErr: Option<Error>, sent: bool, answers: seq<Option<Error>>)

  datatype Once = Fresh | Running(runner: nat) | Done

  /** guarded says whether closeSend has a once of its own; finFrames counts the half-closes that went to the
      transport. */
  datatype Conn = Conn(
    guarded: bool,
    hasRelease: bool,
    threads: seq<Thread>,
    lock: Option<nat>,
    writeErr: Option<Error>,
    closeOnce: Once,
    finOnce: Once,
    finFrames: nat,
    releases: nat)

  function NewConn(guarded: bool, hasRelease: bool): Conn {
    Conn(guarded, hasRelease, [], None, None, Fresh, Fresh, 0, 0)
  }

  /** A goroutine begins a call, or one already running takes its next step; answer is what the transport reports
      if that step is the return of a send, a frame write or a release. */
  datatype Act = Begin(op: Op) | Advance(t: nat, answer: Option<Error>)

  predicate Enabled(s: Conn, a: Act) {
    match a
    case Begin(_) => true
    case Advance(t, _) =>
      t < |s.threads| &&
      match s.threads[t].pc
      case WantLock => s.lock.None?
      case WantErrLock => s.lock.None?
      case EnterFin => s.guarded ==> !s.finOnce.Running?
      case EnterClose => !s.closeOnce.Running?
      case Returned(_) => false
      case _ => true
  }

  function At(s: Conn, t: nat, th: Thread): Conn
    requires t < |s.threads|
  {
    s.(threads := s.threads[t := th])
  }

  /** closeSend has returned to thread t: CloseWrite unlocks and returns, Close goes on to release. */
  function FinReturned(s: Conn, t: nat, answer: Option<Error>): Conn
    requires t < |s.threads|
  {
    var th := s.threads[t];
    if th.op.CloseOp? then At(s, t, th.(pc := Releasing, finErr := answer))
    else At(s, t, th.(pc := Returned(answer), finErr := answer)).(lock := None)
  }

  function Next(s: Conn, a: Act): (s': Conn)
    requires Enabled(s, a)
    ensures |s'.threads| == |s.threads| + if a.Begin? then 1 else 0
  {
    match a
    case Begin(op) =>
      s.(threads := s.threads + [Thread(op, if op.CloseOp? then EnterClose else WantLock, None, None, false, [])])
    case Advance(t, answer) =>
      var th := s.threads[t];
      match th.pc
      case WantLock => At(s, t, th.(pc := Checking)).(lock := Some(t))
      case Checking =>
        if th.op.CloseWriteOp? then At(s, t, th.(pc := EnterFin))
        else if s.writeErr.Some? then At(s, t, th.(pc := Returned(s.writeErr))).(lock := None)
        else if th.op.WriteOp? && th.op.empty then At(s, t, th.(pc := Returned(None))).(lock := None)
        else At(s, t, th.(pc := Sending, sent := true))
      case Sending =>
        var err := if answer.Some? then Some(Normalize(answer.value)) else None;
        At(s, t, th.(pc := Returned(err), answers := th.answers + [answer]))
        .(lock := None, writeErr := if err.Some? then err else s.writeErr)
      case EnterFin =>
        if s.guarded && s.finOnce.Done? then FinReturned(s, t, None)
        else At(s, t, th.(pc := InFin)).(finOnce := if s.guarded then Running(t) else s.finOnce)
      case InFin =>
        FinReturned(At(s, t, th.(answers := th.answers + [answer])), t, answer)
        .(finOnce := if s.guarded then Done else s.finOnce, finFrames := s.finFrames + 1)
      case EnterClose =>
        if s.closeOnce.Done? then At(s, t, th.(pc := Returned(None)))
        else At(s, t, th.(pc := EnterFin)).(closeOnce := Running(t))
      case Releasing =>
        var err := if s.hasRelease then answer else None;
        var heard := th.answers + if s.hasRelease then [answer] else [];
        At(s, t, th.(pc := WantErrLock, relErr := err, answers := heard))
        .(releases := s.releases + if s.hasRelease then 1 else 0)
      case WantErrLock =>
        At(s, t, th.(pc := Returned(if th.finErr.Some? then th.finErr else th.relErr)))
        .(closeOnce := Done, writeErr := if s.writeErr.None? then Some(NetClosed) else s.writeErr)
      case Returned(_) => s
  }

  ghost predicate ValidRun(s: Conn, acts: seq<Act>)
    decreases |acts|
  {
    acts == [] || (Enabled(s, acts[0]) && ValidRun(Next(s, acts[0]), acts[1..]))
  }

  function Run(s: Conn, acts: seq<Act>): Conn
    requires ValidRun(s, acts)
    decreases |acts|
  {
    if acts == [] then s else Run(Next(s, acts[0]), acts[1..])
  }

  // ---------------------------------------------------------------- invariant

  predicate HoldsLock(th: Thread) {
    th.pc.Checking? || th.pc.Sending? || (!th.op.CloseOp? && (th.pc.EnterFin? || th.pc.InFin?))
  }

  /** Past closeOnce: this thread runs the body of Close. */
  predicate InClose(th: Thread) {
    th.op.CloseOp? && (th.pc.EnterFin? || th.pc.InFin? || th.pc.Releasing? || th.pc.WantErrLock?)
  }

  predicate ThreadOk(s: Conn, t: nat)
    requires t < |s.threads|
  {
    var th := s.threads[t];
    && (HoldsLock(th) <==> s.lock == Some(t))
    && (s.guarded ==> (th.pc.InFin? <==> s.finOnce == Running(t)))
    && (InClose(th) <==> s.closeOnce == Running(t))
    && (th.op.WriteOp? ==> !th.pc.EnterFin? && !th.pc.InFin?)
    && (th.op.CloseOp? ==> !th.pc.WantLock? && !th.pc.Checking? && !th.pc.Sending?)
    && (!th.op.CloseOp? ==> !th.pc.EnterClose? && !th.pc.Releasing? && !th.pc.WantErrLock?)
    && (th.op.CloseWriteOp? ==> !th.pc.Sending?)
    && (th.op.CloseOp? && th.pc.Returned? ==> s.closeOnce.Done?)
    && (th.pc.WantLock? || th.pc.Checking? || !th.op.WriteOp? ==> !th.sent)
  }

  ghost predicate Inv(s: Conn) {
    && (forall t :: 0 <= t < |s.threads| ==> ThreadOk(s, t))
    && (s.lock.Some? ==> s.lock.value < |s.threads|)
    && (s.finOnce.Running? ==> s.finOnce.runner < |s.threads|)
    && (s.closeOnce.Running? ==> s.closeOnce.runner < |s.threads|)
    && CountsOk(s)
  }

  predicate PastFin(pc: Pc) {
    pc.Releasing? || pc.WantErrLock?
  }

  predicate ReleaseDone(s: Conn)
    requires s.closeOnce.Running? ==> s.closeOnce.runner < |s.threads|
  {
    s.closeOnce.Done? || (s.closeOnce.Running? && s.threads[s.closeOnce.runner].pc.WantErrLock?)
  }

  lemma OwnThreadKept(s: Conn, t: nat, answer: Option<Error>)
    requires Inv(s) && Enabled(s, Advance(t, answer))
    ensures ThreadOk(Next(s, Advance(t, answer)), t)
  {
    var pc := s.threads[t].pc;
    if pc.Checking? {
      OwnCheckStep(s, t, answer);
    } else if pc.WantLock? || pc.Sending? || pc.Returned? {
      OwnLockStep(s, t, answer);
    } else if pc.EnterFin? || pc.InFin? {
      OwnFinStep(s, t, answer);
    } else {
      OwnCloseStep(s, t, answer);
    }
    hide ThreadOk, Inv, Next;
  }

  lemma OwnLockStep(s: Conn, t: nat, answer: Option<Error>)
    requires Inv(s) && Enabled(s, Advance(t, answer))
    requires var pc := s.threads[t].pc; pc.WantLock? || pc.Sending? || pc.Returned?
    ensures ThreadOk(Next(s, Advance(t, answer)), t)
  {
    assert ThreadOk(s, t);
  }

  lemma OwnCheckStep(s: Conn, t: nat, answer: Option<Error>)
    requires Inv(s) && Enabled(s, Advance(t, answer)) && s.threads[t].pc.Checking?
    ensures ThreadOk(Next(s, Advance(t, answer)), t)
  {
    assert ThreadOk(s, t);
  }

  lemma OwnFinStep(s: Conn, t: nat, answer: Option<Error>)
    requires Inv(s) && Enabled(s, Advance(t, answer))
    requires var pc := s.threads[t].pc; pc.EnterFin? || pc.InFin?
    ensures ThreadOk(Next(s, Advance(t, answer)), t)
  {
    assert ThreadOk(s, t);
  }

  lemma OwnCloseStep(s: Conn, t: nat, answer: Option<Error>)
    requires Inv(s) && Enabled(s, Advance(t, answer))
    requires var pc := s.threads[t].pc; pc.EnterClose? || pc.Releasing? || pc.WantErrLock?
    ensures ThreadOk(Next(s, Advance(t, answer)), t)
  {
    assert ThreadOk(s, t);
  }

  /** How a step of thread t moves what the threads share. */
  ghost predicate SharedMoves(s: Conn, t: nat, s': Conn) {
    && s'.guarded == s.guarded && s'.hasRelease == s.hasRelease && |s'.threads| == |s.threads|
    && (forall u :: 0 <= u < |s.threads| && u != t ==> s'.threads[u] == s.threads[u])
    && (s'.lock == s.lock || (s.lock == Some(t) && s'.lock.None?) || (s.lock.None? && s'.lock == Some(t)))
    && (s'.finOnce == s.finOnce || (s.guarded && s.finOnce == Running(t) && s'.finOnce.Done?)
        || (s.guarded && s.finOnce.Fresh? && s'.finOnce == Running(t)))
    && (s'.closeOnce == s.closeOnce || (s.closeOnce == Running(t) && s'.closeOnce.Done?)
        || (s.closeOnce.Fresh? && s'.closeOnce == Running(t)))
  }

  lemma StepMovesShared(s: Conn, t: nat, answer: Option<Error>)
    requires t < |s.threads| && ThreadOk(s, t) && Enabled(s, Advance(t, answer))
    ensures SharedMoves(s, t, Next(s, Advance(t, answer)))
  {
    var pc := s.threads[t].pc;
    if pc.WantLock? || pc.Checking? || pc.Sending? {
      LockStepMoves(s, t, answer);
    } else {
      CloseStepMoves(s, t, answer);
    }
    hide Next, ThreadOk, SharedMoves;
  }

  lemma LockStepMoves(s: Conn, t: nat, answer: Option<Error>)
    requires t < |s.threads| && ThreadOk(s, t) && Enabled(s, Advance(t, answer))
    requires var pc := s.threads[t].pc; pc.WantLock? || pc.Checking? || pc.Sending?
    ensures SharedMoves(s, t, Next(s, Advance(t, answer)))
  {
  }

  lemma CloseStepMoves(s: Conn, t: nat, answer: Option<Error>)
    requires t < |s.threads| && ThreadOk(s, t) && Enabled(s, Advance(t, answer))
    requires var pc := s.threads[t].pc; !pc.WantLock? && !pc.Checking? && !pc.Sending?
    ensures SharedMoves(s, t, Next(s, Advance(t, answer)))
  {
  }

  lemma OtherThreadKept(s: Conn, t: nat, answer: Option<Error>, u: nat)
    requires Inv(s) && Enabled(s, Advance(t, answer)) && u < |s.threads| && u != t
    ensures ThreadOk(Next(s, Advance(t, answer)), u)
  {
    assert ThreadOk(s, t) && ThreadOk(s, u);
    StepMovesShared(s, t, answer);
    hide Next, Enabled;
  }

  /** The counters and the shared error after a step. */
  ghost predicate CountsOk(s: Conn)
    requires s.closeOnce.Running? ==> s.closeOnce.runner < |s.threads|
  {
    && (if s.guarded then s.finFrames == (if s.finOnce.Done? then 1 else 0) else s.finOnce.Fresh?)
    && s.releases == (if s.hasRelease && ReleaseDone(s) then 1 else 0)
    && (s.closeOnce.Done? ==> s.writeErr.Some? && s.finFrames > 0)
    && (s.closeOnce.Running? && PastFin(s.threads[s.closeOnce.runner].pc) ==> s.finFrames > 0)
  }

  lemma FlagsKept(s: Conn, t: nat, answer: Option<Error>)
    requires Inv(s) && Enabled(s, Advance(t, answer))
    ensures var s' := Next(s, Advance(t, answer));
      && |s'.threads| == |s.threads|
      && (s'.lock.Some? ==> s'.lock.value < |s.threads|)
      && (s'.finOnce.Running? ==> s'.finOnce.runner < |s.threads|)
      && (s'.closeOnce.Running? ==> s'.closeOnce.runner < |s.threads|)
      && CountsOk(s')
  {
    assert ThreadOk(s, t);
    StepMovesShared(s, t, answer);
    if s.closeOnce.Running? {
      assert ThreadOk(s, s.closeOnce.runner);
    }
    var pc := s.threads[t].pc;
    if pc.WantLock? || pc.Checking? || pc.Sending? {
      EarlyCounts(s, t, answer);
    } else if pc.EnterClose? {
      EnterCounts(s, t, answer);
    } else {
      LateCounts(s, t, answer);
    }
    hide Next, CountsOk, ThreadOk, Enabled;
  }

  lemma EarlyCounts(s: Conn, t: nat, answer: Option<Error>)
    requires Inv(s) && t < |s.threads| && ThreadOk(s, t) && Enabled(s, Advance(t, answer))
    requires s.closeOnce.Running? ==> ThreadOk(s, s.closeOnce.runner)
    requires var pc := s.threads[t].pc; pc.WantLock? || pc.Checking? || pc.Sending?
    ensures var s' := Next(s, Advance(t, answer));
      (s'.closeOnce.Running? ==> s'.closeOnce.runner < |s'.threads|) && CountsOk(s')
  {
  }

  lemma EnterCounts(s: Conn, t: nat, answer: Option<Error>)
    requires Inv(s) && t < |s.threads| && s.threads[t].pc.EnterClose? && Enabled(s, Advance(t, answer))
    ensures var s' := Next(s, Advance(t, answer));
      (s'.closeOnce.Running? ==> s'.closeOnce.runner < |s'.threads|) && CountsOk(s')
  {
  }

  lemma LateCounts(s: Conn, t: nat, answer: Option<Error>)
    requires Inv(s) && t < |s.threads| && ThreadOk(s, t) && Enabled(s, Advance(t, answer))
    requires s.closeOnce.Running? ==> ThreadOk(s, s.closeOnce.runner)
    requires var pc := s.threads[t].pc; !pc.WantLock? && !pc.Checking? && !pc.Sending? && !pc.EnterClose?
    ensures var s' := Next(s, Advance(t, answer));
      (s'.closeOnce.Running? ==> s'.closeOnce.runner < |s'.threads|) && CountsOk(s')
  {
  }

  lemma StepKeepsInv(s: Conn, a: Act)
    requires Inv(s) && Enabled(s, a)
    ensures Inv(Next(s, a))
  {
    var s' := Next(s, a);
    match a
    case Begin(_) =>
      forall t | 0 <= t < |s'.threads| ensures ThreadOk(s', t) {
        if t < |s.threads| {
          assert ThreadOk(s, t);
        }
      }
    case Advance(t, answer) =>
      FlagsKept(s, t, answer);
      OwnThreadKept(s, t, answer);
      forall u | 0 <= u < |s'.threads| ensures ThreadOk(s', u) {
        if u != t {
          OtherThreadKept(s, t, answer, u);
        }
      }
  }

  lemma SameRelease(s: Conn, a: Act)
    requires Enabled(s, a)
    ensures Next(s, a).hasRelease == s.hasRelease && Next(s, a).guarded == s.guarded
  {
  }

  lemma {:induction false} RunKeepsInv(s: Conn, acts: seq<Act>)
    requires Inv(s) && ValidRun(s, acts)
    ensures Inv(Run(s, acts)) && Run(s, acts).hasRelease == s.hasRelease && Run(s, acts).guarded == s.guarded
    decreases |acts|
  {
    if acts != [] {
      StepKeepsInv(s, acts[0]);
      SameRelease(s, acts[0]);
      hide Inv, Next, Enabled;
      RunKeepsInv(Next(s, acts[0]), acts[1..]);
    }
  }

  // ---------------------------------------------------------------- close discipline

  /** However the calls interleave: the close-write frame of a WebSocket is written at most once; the transport is
      released at most once, and has been half-closed and released by the time any Close returns, whatever the
      half-close answered; writeMu is held by at most one call. */
  lemma CloseDiscipline(guarded: bool, hasRelease: bool, acts: seq<Act>, t: nat, u: nat)
    requires ValidRun(NewConn(guarded, hasRelease), acts)
    ensures var s := Run(NewConn(guarded, hasRelease), acts);
      && (guarded ==> s.finFrames <= 1)
      && s.releases <= 1
      && (t < |s.threads| && s.threads[t].op.CloseOp? && s.threads[t].pc.Returned? ==>
            s.finFrames >= 1 && s.releases == (if hasRelease then 1 else 0) && s.writeErr.Some?)
      && (t < |s.threads| && u < |s.threads| && HoldsLock(s.threads[t]) && HoldsLock(s.threads[u]) ==> t == u)
  {
    RunKeepsInv(NewConn(guarded, hasRelease), acts);
    var s := Run(NewConn(guarded, hasRelease), acts);
    if t < |s.threads| {
      assert ThreadOk(s, t);
    }
    if u < |s.threads| {
      assert ThreadOk(s, u);
    }
  }

  /** The first failure among what the transport answered. */
  function FirstFailure(answers: seq<Option<Error>>): Option<Error> {
    if answers == [] then None else if answers[0].Some? then answers[0] else FirstFailure(answers[1..])
  }

  lemma FirstOfTwo(a: Option<Error>, b: Option<Error>)
    ensures FirstFailure([a]) == a && FirstFailure([a, b]) == if a.Some? then a else b
  {
    assert [a][1..] == [] && [a, b][1..] == [b] && [b][1..] == [];
  }

  /** How a Close keeps what it has been told, on its way to reporting it. */
  predicate CloseReports(th: Thread) {
    match th.pc
    case WantLock => false
    case Checking => false
    case Sending => false
    case Releasing => th.answers == [th.finErr] || (th.answers == [] && th.finErr.None?)
    case WantErrLock => FirstFailure(th.answers) == if th.finErr.Some? then th.finErr else th.relErr
    case Returned(err) => err == FirstFailure(th.answers)
    case _ => th.answers == [] && th.finErr.None? && th.relErr.None?
  }

  /** A Write reports what its send answered, if it sent; a CloseWrite what its half-close answered, if it made one.
      */
  predicate Reports(guarded: bool, th: Thread) {
    match th.op
    case CloseOp => CloseReports(th)
    case WriteOp(empty) =>
      && (th.pc.Sending? ==> th.sent) && (th.sent ==> !empty)
      && if th.pc.Returned? && th.sent then |th.answers| == 1 && th.pc.err == Reported(th.answers[0])
         else th.answers == [] && (th.pc.Returned? ==> empty || th.pc.err.Some?)
    case CloseWriteOp =>
      if th.pc.Returned? then th.answers == [th.pc.err] || (guarded && th.answers == [] && th.pc.err.None?)
      else th.answers == []
  }

  /** An error as Write reports it: io.EOF for whatever wraps it. */
  function Reported(answer: Option<Error>): Option<Error> {
    if answer.None? then None else if IsEof(answer.value) then Some(Eof) else answer
  }

  lemma OwnReportsKept(s: Conn, t: nat, answer: Option<Error>)
    requires Enabled(s, Advance(t, answer)) && Reports(s.guarded, s.threads[t]) && ThreadOk(s, t)
    ensures Reports(s.guarded, Next(s, Advance(t, answer)).threads[t])
  {
    hide Next, Reports;
    var th := s.threads[t];
    if th.op.WriteOp? {
      WriteReports(s, t, answer);
    } else if th.op.CloseWriteOp? {
      CloseWriteReports(s, t, answer);
    } else if th.pc.InFin? {
      FinReports(s, t, answer);
    } else if th.pc.Releasing? {
      ReleaseReports(s, t, answer);
    } else {
      QuietReports(s, t, answer);
    }
  }

  lemma WriteReports(s: Conn, t: nat, answer: Option<Error>)
    requires Enabled(s, Advance(t, answer)) && s.threads[t].op.WriteOp? && ThreadOk(s, t)
    requires Reports(s.guarded, s.threads[t])
    ensures Reports(s.guarded, Next(s, Advance(t, answer)).threads[t])
  {
    var th, th' := s.threads[t], Next(s, Advance(t, answer)).threads[t];
    if th.pc.Sending? {
      assert th'.answers == [answer] && th'.pc.err == Reported(answer) && th'.sent;
    } else {
      assert th'.answers == [];
    }
  }

  lemma CloseWriteReports(s: Conn, t: nat, answer: Option<Error>)
    requires Enabled(s, Advance(t, answer)) && s.threads[t].op.CloseWriteOp? && ThreadOk(s, t)
    requires Reports(s.guarded, s.threads[t])
    ensures Reports(s.guarded, Next(s, Advance(t, answer)).threads[t])
  {
    assert [] + [answer] == [answer];
  }

  lemma FinReports(s: Conn, t: nat, answer: Option<Error>)
    requires t < |s.threads| && s.threads[t].op.CloseOp? && s.threads[t].pc.InFin? && Reports(s.guarded, s.threads[t])
    ensures Reports(s.guarded, Next(s, Advance(t, answer)).threads[t])
  {
    var th := s.threads[t];
    assert th.answers + [answer] == [answer];
  }

  lemma ReleaseReports(s: Conn, t: nat, answer: Option<Error>)
    requires t < |s.threads| && s.threads[t].op.CloseOp? && s.threads[t].pc.Releasing?
    requires Reports(s.guarded, s.threads[t])
    ensures Reports(s.guarded, Next(s, Advance(t, answer)).threads[t])
  {
    var th := s.threads[t];
    FirstOfTwo(th.finErr, answer);
    FirstOfTwo(answer, None);
    assert th.answers + [] == th.answers && [] + [answer] == [answer] && [th.finErr] + [answer] == [th.finErr, answer];
  }

  lemma QuietReports(s: Conn, t: nat, answer: Option<Error>)
    requires Enabled(s, Advance(t, answer)) && Reports(s.guarded, s.threads[t])
    requires var th := s.threads[t]; th.op.CloseOp? && !th.pc.InFin? && !th.pc.Releasing?
    ensures Reports(s.guarded, Next(s, Advance(t, answer)).threads[t])
  {
  }

  ghost predicate AllReport(s: Conn) {
    forall t :: 0 <= t < |s.threads| ==> Reports(s.guarded, s.threads[t])
  }

  lemma OthersStay(s: Conn, a: Act)
    requires Enabled(s, a)
    ensures var s' := Next(s, a);
      && (forall t :: 0 <= t < |s.threads| && !(a.Advance? && a.t == t) ==> s'.threads[t] == s.threads[t])
      && (a.Begin? ==> Reports(s.guarded, s'.threads[|s.threads|]))
  {
  }

  lemma StepKeepsReports(s: Conn, a: Act)
    requires Inv(s) && AllReport(s) && Enabled(s, a)
    ensures AllReport(Next(s, a))
  {
    var s' := Next(s, a);
    SameRelease(s, a);
    OthersStay(s, a);
    hide Next, Reports, Enabled;
    forall t | 0 <= t < |s'.threads| ensures Reports(s.guarded, s'.threads[t]) {
      if a.Advance? && a.t == t {
        assert ThreadOk(s, t);
        OwnReportsKept(s, t, a.answer);
      }
    }
  }

  lemma {:induction false} RunKeepsReports(s: Conn, acts: seq<Act>)
    requires Inv(s) && AllReport(s) && ValidRun(s, acts)
    ensures AllReport(Run(s, acts)) && Run(s, acts).guarded == s.guarded
    decreases |acts|
  {
    if acts != [] {
      StepKeepsInv(s, acts[0]);
      StepKeepsReports(s, acts[0]);
      SameRelease(s, acts[0]);
      hide AllReport, Next, Enabled, Inv;
      RunKeepsReports(Next(s, acts[0]), acts[1..]);
    }
  }

  /** Every Close returns the first failure the transport answered it with: its half-close's, else the release's.
      A Close that comes second hears nothing and returns none. */
  lemma FirstErrorIsReported(guarded: bool, hasRelease: bool, acts: seq<Act>, t: nat)
    requires ValidRun(NewConn(guarded, hasRelease), acts)
    ensures var s := Run(NewConn(guarded, hasRelease), acts);
      t < |s.threads| && s.threads[t].op.CloseOp? && s.threads[t].pc.Returned? ==>
        s.threads[t].pc.err == FirstFailure(s.threads[t].answers)
  {
    RunKeepsReports(NewConn(guarded, hasRelease), acts);
  }

  /** Every Write that reached send returns what send answered; one that did not was empty or refused. Every
      CloseWrite returns what its half-close answered, or none if the one frame had gone before. */
  lemma AnswersAreReturned(guarded: bool, hasRelease: bool, acts: seq<Act>, t: nat)
    requires ValidRun(NewConn(guarded, hasRelease), acts)
    ensures var s := Run(NewConn(guarded, hasRelease), acts);
      t < |s.threads| && s.threads[t].pc.Returned? ==>
        var th := s.threads[t];
        && (th.op.WriteOp? && th.op.empty ==> !th.sent)
        && (th.op.WriteOp? && th.sent ==> |th.answers| == 1 && th.pc.err == Reported(th.answers[0]))
        && (th.op.WriteOp? && !th.sent ==> th.answers == [] && (th.op.empty || th.pc.err.Some?))
        && (th.op.CloseWriteOp? ==>
              th.answers == [th.pc.err] || (guarded && th.answers == [] && th.pc.err.None? && s.finFrames == 1))
  {
    RunKeepsReports(NewConn(guarded, hasRelease), acts);
    FramesRecorded(NewConn(guarded, hasRelease), acts);
  }

  /** A CloseWrite of a guarded conn that returned without writing a frame found it written. */
  predicate FrameWritten(s: Conn, th: Thread) {
    th.op.CloseWriteOp? && th.pc.Returned? && s.guarded ==> s.finOnce.Done?
  }

  ghost predicate AllWritten(s: Conn) {
    forall t :: 0 <= t < |s.threads| ==> FrameWritten(s, s.threads[t])
  }

  lemma WrittenStep(s: Conn, a: Act)
    requires Inv(s) && AllWritten(s) && Enabled(s, a)
    ensures AllWritten(Next(s, a))
  {
    var s' := Next(s, a);
    if a.Advance? {
      assert ThreadOk(s, a.t);
      StepMovesShared(s, a.t, a.answer);
      OwnWritten(s, a.t, a.answer);
    }
    forall t | 0 <= t < |s'.threads| ensures FrameWritten(s', s'.threads[t]) {
      if t < |s.threads| {
        assert FrameWritten(s, s.threads[t]);
      }
    }
  }

  lemma OwnWritten(s: Conn, t: nat, answer: Option<Error>)
    requires Enabled(s, Advance(t, answer)) && ThreadOk(s, t) && FrameWritten(s, s.threads[t])
    ensures FrameWritten(Next(s, Advance(t, answer)), Next(s, Advance(t, answer)).threads[t])
  {
  }

  lemma {:induction false} FramesRecorded(s: Conn, acts: seq<Act>)
    requires Inv(s) && AllWritten(s) && ValidRun(s, acts)
    ensures AllWritten(Run(s, acts)) && Inv(Run(s, acts)) && Run(s, acts).guarded == s.guarded
    decreases |acts|
  {
    if acts != [] {
      StepKeepsInv(s, acts[0]);
      WrittenStep(s, acts[0]);
      SameRelease(s, acts[0]);
      hide AllWritten, Next, Enabled, Inv;
      FramesRecorded(Next(s, acts[0]), acts[1..]);
    }
  }

  /** The latched error: none while a Write is sending, and the one every failed Write has returned. */
  predicate LatchOk(s: Conn, th: Thread) {
    th.op.WriteOp? ==>
      && (th.pc.Sending? ==> s.writeErr.None?)
      && (th.pc.Returned? && th.pc.err.Some? ==> s.writeErr == th.pc.err)
  }

  ghost predicate Latched(s: Conn) {
    forall t :: 0 <= t < |s.threads| ==> LatchOk(s, s.threads[t])
  }

  /** Only a Write that was sending, or a Close, sets the error, and only where there is none. */
  lemma ErrMoves(s: Conn, t: nat, answer: Option<Error>)
    requires Enabled(s, Advance(t, answer)) && ThreadOk(s, t) && LatchOk(s, s.threads[t])
    ensures var s' := Next(s, Advance(t, answer));
      && (s.writeErr.Some? ==> s'.writeErr == s.writeErr)
      && (s'.writeErr != s.writeErr ==> s.lock.None? || s.lock == Some(t))
  {
  }

  lemma OwnLatch(s: Conn, t: nat, answer: Option<Error>)
    requires Enabled(s, Advance(t, answer)) && ThreadOk(s, t) && LatchOk(s, s.threads[t])
    ensures var s' := Next(s, Advance(t, answer)); LatchOk(s', s'.threads[t])
  {
    if !s.threads[t].op.WriteOp? {
      SameOpAfter(s, t, answer);
      hide Next, ThreadOk;
    }
  }

  lemma SameOpAfter(s: Conn, t: nat, answer: Option<Error>)
    requires Enabled(s, Advance(t, answer))
    ensures Next(s, Advance(t, answer)).threads[t].op == s.threads[t].op
  {
  }

  lemma LatchStep(s: Conn, a: Act)
    requires Inv(s) && Latched(s) && Enabled(s, a)
    ensures Latched(Next(s, a))
    ensures s.writeErr.Some? ==> Next(s, a).writeErr == s.writeErr
  {
    var s' := Next(s, a);
    OthersStay(s, a);
    if a.Begin? {
      BeginLatch(s, a);
    } else {
      assert ThreadOk(s, a.t) && LatchOk(s, s.threads[a.t]);
      ErrMoves(s, a.t, a.answer);
      OwnLatch(s, a.t, a.answer);
    }
    hide Next, Enabled, Reports;
    forall t | 0 <= t < |s'.threads| ensures LatchOk(s', s'.threads[t]) {
      if t < |s.threads| {
        assert ThreadOk(s, t) && LatchOk(s, s.threads[t]);
      }
    }
  }

  lemma BeginLatch(s: Conn, a: Act)
    requires Enabled(s, a) && a.Begin?
    ensures var s' := Next(s, a); s'.writeErr == s.writeErr && LatchOk(s', s'.threads[|s.threads|])
  {
  }

  lemma {:induction false} StaysLatched(s: Conn, acts: seq<Act>)
    requires Inv(s) && Latched(s) && ValidRun(s, acts)
    ensures Latched(Run(s, acts)) && (s.writeErr.Some? ==> Run(s, acts).writeErr == s.writeErr)
    decreases |acts|
  {
    if acts != [] {
      StepKeepsInv(s, acts[0]);
      LatchStep(s, acts[0]);
      hide Latched, Next, Enabled, Inv;
      StaysLatched(Next(s, acts[0]), acts[1..]);
    }
  }

  /** However the calls interleave, all Writes that fail, of all goroutines, fail with one and the same error; and
      once one has failed or some Close has returned, that error never changes. */
  lemma OneErrorForAll(guarded: bool, hasRelease: bool, acts: seq<Act>, more: seq<Act>, t: nat, u: nat)
    requires ValidRun(NewConn(guarded, hasRelease), acts)
    requires ValidRun(Run(NewConn(guarded, hasRelease), acts), more)
    ensures var s := Run(NewConn(guarded, hasRelease), acts);
      var s' := Run(s, more);
      t < |s.threads| && u < |s'.threads| && s'.threads[u].op.WriteOp? && s'.threads[u].pc.Returned?
      && s'.threads[u].pc.err.Some? ==>
        && (s.threads[t].op.WriteOp? && s.threads[t].pc.Returned? && s.threads[t].pc.err.Some? ==>
              s'.threads[u].pc.err == s.threads[t].pc.err)
        && (s.threads[t].op.CloseOp? && s.threads[t].pc.Returned? ==> s'.threads[u].pc.err == s.writeErr)
  {
    var s0 := NewConn(guarded, hasRelease);
    RunKeepsInv(s0, acts);
    StaysLatched(s0, acts);
    var s := Run(s0, acts);
    StaysLatched(s, more);
    var s' := Run(s, more);
    if t < |s.threads| && u < |s'.threads| {
      assert ThreadOk(s, t) && LatchOk(s, s.threads[t]) && LatchOk(s', s'.threads[u]);
    }
  }

  /** A Write begun after some Close has returned never reaches send. */
  lemma WriteAfterCloseIsRefused(s: Conn, c: nat, empty: bool, acts: seq<Act>)
    requires Inv(s) && c < |s.threads| && s.threads[c].op.CloseOp? && s.threads[c].pc.Returned?
    requires ValidRun(Next(s, Begin(WriteOp(empty))), acts)
    ensures var t := |s.threads|;
      var s' := Run(Next(s, Begin(WriteOp(empty))), acts);
      t < |s'.threads| && !s'.threads[t].sent && (s'.threads[t].pc.Returned? ==> s'.threads[t].pc.err.Some?)
  {
    assert ThreadOk(s, c);
    var t := |s.threads|;
    RefusedRun(Next(s, Begin(WriteOp(empty))), t, acts);
  }

  predicate Refused(s: Conn, t: nat) {
    && t < |s.threads| && s.threads[t].op.WriteOp? && s.writeErr.Some? && !s.threads[t].sent
    && var pc := s.threads[t].pc;
       pc.WantLock? || pc.Checking? || (pc.Returned? && pc.err.Some?)
  }

  lemma {:induction false} RefusedRun(s: Conn, t: nat, acts: seq<Act>)
    requires Refused(s, t) && ValidRun(s, acts)
    ensures Refused(Run(s, acts), t)
    decreases |acts|
  {
    if acts != [] {
      RefusedRun(Next(s, acts[0]), t, acts[1..]);
    }
  }

  /** The steps that take the goroutine inside Close to the release, from wherever in Close it is. */
  function PathToRelease(s: Conn, c: nat, step: Act): seq<Act>
    requires c < |s.threads|
  {
    match s.threads[c].pc
    case EnterFin => if s.guarded && s.finOnce.Done? then [step, step] else [step, step, step]
    case InFin => [step, step]
    case _ => [step]
  }

  ghost predicate WriteBlocked(s: Conn, w: nat) {
    w < |s.threads| && s.threads[w].pc.Sending? && s.lock == Some(w)
  }

  /** Goroutine c is inside Close and has not released yet. */
  ghost predicate Closing(s: Conn, c: nat) {
    c < |s.threads| && s.closeOnce == Running(c) && !s.threads[c].pc.WantErrLock?
  }

  /** A Write stuck in send for ever, holding writeMu, cannot keep Close from releasing the transport: from any
      reachable state the goroutine inside Close gets there by its own steps alone, the Write never moving. */
  lemma {:induction false} BlockedWriteCannotBlockRelease(s: Conn, w: nat, c: nat, answer: Option<Error>)
    requires Inv(s) && WriteBlocked(s, w) && Closing(s, c)
    ensures var path := PathToRelease(s, c, Advance(c, answer));
      && ValidRun(s, path)
      && WriteBlocked(Run(s, path), w)
      && Run(s, path).releases == if s.hasRelease then 1 else 0
    decreases |PathToRelease(s, c, Advance(c, answer))|
  {
    assert ThreadOk(s, w) && ThreadOk(s, c);
    if s.finOnce.Running? {
      assert ThreadOk(s, s.finOnce.runner);
    }
    var step := Advance(c, answer);
    var path := PathToRelease(s, c, step);
    var s1 := Next(s, step);
    StepKeepsInv(s, step);
    if s.threads[c].pc.Releasing? {
      assert path[1..] == [] && ValidRun(s1, path[1..]) && Run(s1, path[1..]) == s1;
    } else {
      assert path[1..] == PathToRelease(s1, c, step);
      BlockedWriteCannotBlockRelease(s1, w, c, answer);
    }
  }

  /** What a waiting call waits for: the once's runner or the lock's holder. */
  function Holder(s: Conn, t: nat): (u: nat)
    requires Inv(s) && t < |s.threads| && !s.threads[t].pc.Returned? && !Enabled(s, Advance(t, None))
    ensures u < |s.threads|
  {
    var pc := s.threads[t].pc;
    if pc.EnterClose? then s.closeOnce.runner
    else if pc.EnterFin? then s.finOnce.runner
    else if s.lock.Some? then s.lock.value
    else t
  }

  function WaitRank(pc: Pc): nat {
    match pc
    case EnterClose => 3
    case WantLock => 2
    case WantErrLock => 2
    case EnterFin => 1
    case _ => 0
  }

  /** No interleaving deadlocks: while some call is running, some call can take a step. Waiting goes from
      closeOnce to the lock to the frame's once, never round. */
  lemma {:induction false} NoDeadlock(s: Conn, t: nat)
    requires Inv(s) && t < |s.threads| && !s.threads[t].pc.Returned?
    ensures exists u :: 0 <= u < |s.threads| && Enabled(s, Advance(u, None))
    decreases WaitRank(s.threads[t].pc)
  {
    if !Enabled(s, Advance(t, None)) {
      assert ThreadOk(s, t);
      assert ThreadOk(s, Holder(s, t));
      NoDeadlock(s, Holder(s, t));
    }
  }
}
