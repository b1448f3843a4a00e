/** What every run of the splice comes to: bytes are conserved end to end, end of input arrives exactly, and every
    run is finite. */
module Completion {
  import opened Prelude
  import opened StreamConn
  import opened Wire
  import T = Tunnel
  import opened Splice

  // ---------------------------------------------------------------- conservation

  /** Bytes in the tunnel itself: the receiver's chunk buffer, then the frames in flight ahead of any terminator. */
  function InTunnel(l: Lane): bytes {
    Pending(T.AsReader(l.link))
  }

  lemma LaneConserves(l: Lane, p: T.Pipe, total: bytes)
    requires LaneOk(l, p, total) && T.PipeInv(p)
    ensures l.sink <= l.taken <= total && l.sink + l.far.buf + l.lost == p.delivered
    ensures Clean(l.near) && Clean(l.far) && Unbroken(p) ==> l.sink + l.far.buf + p.pending + l.near.buf == l.taken
  {
    assert l.sink <= p.delivered by { assert l.sink + l.far.buf + l.lost == l.sink + (l.far.buf + l.lost); }
    assert p.delivered <= p.accepted by { assert p.delivered <= p.delivered + p.pending; }
    assert l.taken <= l.taken + l.src;
    if Clean(l.far) {
      assert l.sink + l.far.buf + [] == l.sink + l.far.buf;
    }
  }

  /** End-to-end conservation in every reachable state, in each direction: what reached the far socket is a prefix
      of what was read from the near one, whatever failed; with what was lost in a write that failed it is all that
      was read from the tunnel; and until something fails, far socket, far copy buffer, tunnel and near copy buffer
      together hold exactly the bytes taken, in order. */
  lemma Conservation(start: Sys, acts: seq<Act>, client: bytes, endpoint: bytes, d: Dir)
    requires Inv(start, client, endpoint) && ValidRun(start, acts)
    ensures var l := LaneOf(Run(start, acts), d);
      var total := if d.UpDir? then client else endpoint;
      && l.sink <= l.taken <= total
      && l.sink + l.far.buf + l.lost == l.link.returned
      && (Clean(l.near) && Clean(l.far) && Unbroken(T.Abs(l.link)) ==>
          l.sink + l.far.buf + InTunnel(l) + l.near.buf == l.taken)
  {
    RunKeepsInv(start, acts, client, endpoint);
    var l := LaneOf(Run(start, acts), d);
    LaneConserves(l, T.Abs(l.link), if d.UpDir? then client else endpoint);
    hide LaneOk, T.PipeInv, T.AsReader, Run, ValidRun;
  }

  /** End of input is exact: a far loop that ended by EOF has delivered all that was accepted before the near
      side's first half-close, and if the near loop had ended by EOF too, that is the sending application's whole
      script. */
  lemma EndOfInputIsExact(start: Sys, acts: seq<Act>, client: bytes, endpoint: bytes, d: Dir)
    requires Inv(start, client, endpoint) && ValidRun(start, acts)
    ensures var l := LaneOf(Run(start, acts), d);
      var total := if d.UpDir? then client else endpoint;
      !l.far.phase.Copying? && l.far.phase.eof ==>
        l.sink == l.link.accepted && l.near.phase.Gone? && (l.near.phase.eof ==> l.sink == total)
  {
    RunKeepsInv(start, acts, client, endpoint);
    var l := LaneOf(Run(start, acts), d);
    if !l.far.phase.Copying? && l.far.phase.eof {
      assert l.sink + [] == l.sink && l.link.accepted + [] == l.link.accepted && l.taken + [] == l.taken;
    }
  }

  lemma ClosedStep(s: Sys, a: Act)
    requires Enabled(s, a) && !s.up.sinkUp
    ensures var s' := Next(s, a);
      !s'.up.sinkUp && s'.up.sink == s.up.sink && (s'.up.shut ==> s.up.shut)
  {
    if !a.Return? && a != Fin(DownDir) {
      OtherLaneUntouched(s, a);
    }
    hide T.Apply, T.Run, ReadResultOf;
  }

  /** Once handleTCP has closed the endpoint's socket nothing more reaches it: no byte, and no end of input. */
  lemma {:induction false} ClosedSocketIsFinal(s: Sys, acts: seq<Act>)
    requires ValidRun(s, acts) && !s.up.sinkUp
    ensures var s' := Run(s, acts);
      !s'.up.sinkUp && s'.up.sink == s.up.sink && (s'.up.shut ==> s.up.shut)
    decreases |acts|
  {
    if acts != [] {
      ClosedStep(s, acts[0]);
      hide Next, Enabled;
      ClosedSocketIsFinal(Next(s, acts[0]), acts[1..]);
    }
  }

  // ---------------------------------------------------------------- every run is finite

  function InboxBytes(inbox: seq<RecvResult>): nat {
    if inbox == [] then 0
    else InboxBytes(inbox[..|inbox| - 1]) + if inbox[|inbox| - 1].Chunk? then |inbox[|inbox| - 1].data| else 0
  }

  lemma {:induction false} InboxBytesFront(inbox: seq<RecvResult>)
    requires inbox != []
    ensures InboxBytes(inbox) == (if inbox[0].Chunk? then |inbox[0].data| else 0) + InboxBytes(inbox[1..])
  {
    if |inbox| > 1 {
      var front := inbox[..|inbox| - 1];
      InboxBytesFront(front);
      assert front[1..] == inbox[1..][..|inbox[1..]| - 1];
    } else {
      assert inbox[..0] == [];
    }
  }

  lemma {:induction false} InboxBytesTake(inbox: seq<RecvResult>, n: nat)
    requires n <= |inbox|
    ensures InboxBytes(inbox[..n]) <= InboxBytes(inbox)
    decreases |inbox| - n
  {
    if n < |inbox| {
      InboxBytesTake(inbox, n + 1);
      assert inbox[..n + 1][..n] == inbox[..n];
    } else {
      assert inbox[..n] == inbox;
    }
  }

  /** Work left in a reader: bytes still in frames weigh more than bytes in the chunk buffer. */
  function ReaderWork(r: Reader): nat {
    4 * InboxBytes(r.inbox) + |r.inbox| + 3 * |r.rest|
  }

  lemma {:induction false} ReadWork(r: Reader, size: nat)
    requires size > 0
    ensures var (r', o) := ReadStep(r, size);
      && (o.Got? ==> ReaderWork(r') + 2 * |o.data| < ReaderWork(r))
      && ReaderWork(r') <= ReaderWork(r)
    decreases |r.inbox|
  {
    if r.rest == [] && r.err.None? && r.inbox != [] {
      InboxBytesFront(r.inbox);
      if r.inbox[0].Chunk? {
        ReadWork(r.(inbox := r.inbox[1..], calls := r.calls + 1, rest := r.inbox[0].data), size);
      }
    }
  }

  function PhaseWork(p: Phase): nat {
    match p
    case Copying => 8
    case Ended(_) => 4
    case Gone(_) => 0
  }

  function LaneWork(l: Lane): nat {
    10 * |l.src| + 8 * |l.near.buf| + ReaderWork(T.AsReader(l.link)) + 2 * |l.far.buf|
    + PhaseWork(l.near.phase) + PhaseWork(l.far.phase) + if l.cut then 0 else 2
  }

  /** Bytes left per hop, loops still running, and what may yet be done once. */
  function Work(s: Sys): nat {
    LaneWork(s.up) + LaneWork(s.down) + if s.spliced then 0 else 6
  }

  /** What a link step can add to the reader's work. */
  lemma LinkWork(l: T.Link, a: T.Act)
    requires T.LinkInv(l)
    ensures var (w, w') := (ReaderWork(T.AsReader(l)), ReaderWork(T.AsReader(T.Apply(l, a).0)));
      && (a.Write? ==> w' <= w + 4 * |a.b| + 1)
      && (a.CloseWrite? || a.Finish? || a.Break? ==> w' <= w + 1)
  {
    hide T.Apply, T.AsReader, ReaderWork;
    match a
    case Write(b, answer, put) => WriteWork(l, b, answer, put);
    case CloseWrite(answer) => HalfCloseWork(l, answer);
    case Finish(ok) => FinishWork(l, ok);
    case Break(keep) => BreakWork(l, keep);
    case _ =>
  }

  lemma WriteWork(l: T.Link, b: bytes, answer: Option<Error>, put: bool)
    ensures ReaderWork(T.AsReader(T.Apply(l, T.Write(b, answer, put)).0)) <= ReaderWork(T.AsReader(l)) + 4 * |b| + 1
  {
    PutWork(T.Receiver(l), l.wire, DataFrame(l.door, b));
    hide InboxBytes;
  }

  lemma HalfCloseWork(l: T.Link, answer: Option<Error>)
    ensures ReaderWork(T.AsReader(T.Apply(l, T.CloseWrite(answer)).0)) <= ReaderWork(T.AsReader(l)) + 1
  {
    EndWork(l, FinFrame(l.door));
    var ended := T.PutEnd(l, FinFrame(l.door));
    assert T.AsReader(ended.(finFired := true)) == T.AsReader(ended);
    assert T.AsReader(l.(finFired := l.door.WebSocket?)) == T.AsReader(l);
    hide T.AsReader, T.PutEnd, ReaderWork;
  }

  lemma FinishWork(l: T.Link, ok: bool)
    ensures ReaderWork(T.AsReader(T.Apply(l, T.Finish(ok)).0)) <= ReaderWork(T.AsReader(l)) + 1
  {
    EndWork(l, ReturnFrame(l.door, ok));
    hide ReaderWork, T.AsReader, T.PutEnd;
  }

  lemma EndWork(l: T.Link, f: Frame)
    requires Decode(T.Receiver(l), f).Stop?
    ensures ReaderWork(T.AsReader(T.PutEnd(l, f))) <= ReaderWork(T.AsReader(l)) + 1
  {
    PutWork(T.Receiver(l), l.wire, f);
  }

  lemma BreakWork(l: T.Link, keep: nat)
    ensures ReaderWork(T.AsReader(T.Apply(l, T.Break(keep)).0)) <= ReaderWork(T.AsReader(l)) + 1
  {
    var side := T.Receiver(l);
    var n := Min(keep, |l.wire|);
    InboxBytesTake(Inbox(side, l.wire), n);
    assert Inbox(side, l.wire)[..n] == Inbox(side, l.wire[..n]);
    PutWork(side, l.wire[..n], Reset);
  }

  lemma PutWork(side: Side, wire: seq<Frame>, f: Frame)
    ensures InboxBytes(Inbox(side, wire + [f])) == InboxBytes(Inbox(side, wire)) +
            if Decode(side, f).Chunk? then |Decode(side, f).data| else 0
  {
    assert Inbox(side, wire + [f])[..|wire|] == Inbox(side, wire);
  }

  lemma ClosedUpWork(l: T.Link, closing: T.Act)
    requires T.LinkInv(l) && closing.Close?
    ensures ReaderWork(T.AsReader(ClosedUp(l, closing))) <= ReaderWork(T.AsReader(l)) + 2
  {
    var half := T.HalfClose(l, closing.answer).0;
    EndWork(l, FinFrame(l.door));
    assert ReaderWork(T.AsReader(half)) <= ReaderWork(T.AsReader(l)) + 1;
    var done := half.(closed := true);
    assert T.AsReader(done) == T.AsReader(half);
    EndWork(done, CloseFrame(NORMAL_CLOSURE));
    var closed := T.Apply(l, closing).0;
    assert closed == l || closed == done || closed == T.PutEnd(done, CloseFrame(NORMAL_CLOSURE));
    assert T.AsReader(T.Apply(closed, T.Refuse).0) == T.AsReader(closed);
    hide T.AsReader, ReaderWork, T.HalfClose, T.Apply, T.PutEnd;
  }

  lemma SendWork(s: Sys, a: Act)
    requires (a.Send? || a.SendFail?) && Enabled(s, a) && T.LinkInv(LaneOf(s, a.d).link)
    ensures LaneWork(LaneOf(Next(s, a), a.d)) < LaneWork(LaneOf(s, a.d))
  {
    var l := LaneOf(s, a.d);
    var write := if a.Send? then T.Write(l.near.buf, None, false) else T.Write(l.near.buf, Some(Other(RESET)), a.put);
    LinkWork(l.link, write);
    assert LaneOf(Next(s, a), a.d).link == T.Apply(l.link, write).0;
  }

  lemma ReceiveWork(s: Sys, d: Dir)
    requires Enabled(s, Receive(d)) && T.LinkInv(LaneOf(s, d).link)
    ensures LaneWork(LaneOf(Next(s, Receive(d)), d)) < LaneWork(LaneOf(s, d))
  {
    var l := LaneOf(s, d);
    T.ReadIsReadStep(l.link, BUF);
    ReadWork(T.AsReader(l.link), BUF);
    assert LaneOf(Next(s, Receive(d)), d).link == T.Apply(l.link, T.Read(BUF)).0;
  }

  lemma UpFinWork(s: Sys)
    requires Enabled(s, Fin(UpDir)) && T.LinkInv(s.up.link)
    ensures LaneWork(Next(s, Fin(UpDir)).up) < LaneWork(s.up)
  {
    LinkWork(s.up.link, T.CloseWrite(if s.up.cut then Some(Other(RESET)) else None));
  }

  lemma DownFinWork(s: Sys)
    requires Enabled(s, Fin(DownDir)) && T.LinkInv(s.up.link) && T.LinkInv(s.down.link)
    ensures LaneWork(Next(s, Fin(DownDir)).up) <= LaneWork(s.up) + 1
    ensures LaneWork(Next(s, Fin(DownDir)).down) <= LaneWork(s.down) - 3
  {
    LinkWork(s.down.link, T.Finish(true));
    LinkWork(s.up.link, T.Break(0));
  }

  lemma CutWork(s: Sys, d: Dir, keep: nat)
    requires Enabled(s, Cut(d, keep)) && T.LinkInv(LaneOf(s, d).link)
    ensures LaneWork(LaneOf(Next(s, Cut(d, keep)), d)) < LaneWork(LaneOf(s, d))
  {
    LinkWork(LaneOf(s, d).link, T.Break(keep));
  }

  lemma LoopWork(s: Sys, a: Act)
    requires a.Take? || a.SourceEnd? || a.SourceFail? || a.Deliver? || a.DeliverFail? || a.Shut?
    requires Enabled(s, a)
    ensures LaneWork(LaneOf(Next(s, a), a.d)) < LaneWork(LaneOf(s, a.d))
  {
    var l, l' := LaneOf(s, a.d), LaneOf(Next(s, a), a.d);
    assert l'.link == l.link;
  }

  lemma LaneStepWork(s: Sys, a: Act)
    requires Enabled(s, a) && !a.Return? && a != Fin(DownDir) && T.LinkInv(LaneOf(s, a.d).link)
    ensures LaneWork(LaneOf(Next(s, a), a.d)) < LaneWork(LaneOf(s, a.d))
  {
    match a
    case Send(_) => SendWork(s, a);
    case SendFail(_, _) => SendWork(s, a);
    case Fin(_) => UpFinWork(s);
    case Cut(d, keep) => CutWork(s, d, keep);
    case Receive(d) => ReceiveWork(s, d);
    case _ => LoopWork(s, a);
  }

  lemma ReturnWork(s: Sys)
    requires Enabled(s, Return) && T.LinkInv(s.up.link) && T.LinkInv(s.down.link) && Coupled(s)
    ensures Work(Next(s, Return)) < Work(s)
  {
    UpAfterReturn(s);
    DownAfterReturn(s);
    hide Next, ClosedUp, ReaderWork, T.Apply, T.AsReader, T.LinkInv;
    ClosedUpWork(s.up.link, ClosingOf(s));
    BreakWork(s.down.link, 0);
    assert LaneWork(Next(s, Return).up) <= LaneWork(s.up) + 2;
  }

  lemma StepWork(s: Sys, a: Act)
    requires Enabled(s, a) && T.LinkInv(s.up.link) && T.LinkInv(s.down.link) && Coupled(s)
    ensures Work(Next(s, a)) < Work(s)
  {
    if a == Fin(DownDir) {
      DownFinWork(s);
      hide Next, LaneWork;
    } else if a.Return? {
      ReturnWork(s);
      hide Next, Work;
    } else {
      hide Next, LaneWork, Enabled;
      LaneStepWork(s, a);
      OtherLaneUntouched(s, a);
    }
  }

  /** Every run ends: whatever the scheduler, the transport and the sockets do, no run is longer than the work
      there was. */
  lemma {:induction false} RunsAreFinite(s: Sys, acts: seq<Act>, client: bytes, endpoint: bytes)
    requires Inv(s, client, endpoint) && ValidRun(s, acts)
    ensures |acts| + Work(Run(s, acts)) <= Work(s)
    decreases |acts|
  {
    if acts != [] {
      StepKeepsInv(s, acts[0], client, endpoint);
      assert T.LinkInv(s.up.link) && T.LinkInv(s.down.link) && Coupled(s);
      StepWork(s, acts[0]);
      hide Next, Enabled, Work, Inv;
      RunsAreFinite(Next(s, acts[0]), acts[1..], client, endpoint);
    }
  }
}
