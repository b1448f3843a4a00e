/** The two doors compared. Links that went through the same calls and answers behind different doors are twins:
    they differ in their framing only, and everything seen of them is the same, until one of two things happens that
    the doors do differently: a half-close is tried again after it failed, or the conn is closed. */
module Doors {
  import opened Prelude
  import opened StreamConn
  import opened Wire
  import opened Tunnel

  /** The same outcome of recv, however the error is wrapped. */
  predicate SameMeaning(f: RecvResult, g: RecvResult) {
    f == g || (f.Stop? && g.Stop? && Normalize(f.cause) == Normalize(g.cause))
  }

  /** The same up to the first failure; what is behind it is never read. */
  predicate Alike(x: seq<RecvResult>, y: seq<RecvResult>) {
    if x == [] || y == [] then x == y
    else SameMeaning(x[0], y[0]) && (x[0].Stop? || Alike(x[1..], y[1..]))
  }

  lemma {:induction false} AlikeAppend(x: seq<RecvResult>, y: seq<RecvResult>, f: RecvResult, g: RecvResult)
    requires Alike(x, y) && SameMeaning(f, g)
    ensures Alike(x + [f], y + [g])
  {
    if x != [] {
      assert (x + [f])[0] == x[0] && (y + [g])[0] == y[0];
      if x[0].Chunk? {
        AlikeAppend(x[1..], y[1..], f, g);
        assert (x + [f])[1..] == x[1..] + [f] && (y + [g])[1..] == y[1..] + [g];
      }
    }
  }

  /** More on one side, behind its end. */
  lemma {:induction false} AlikeBehind(x: seq<RecvResult>, y: seq<RecvResult>, g: RecvResult)
    requires Alike(x, y) && FirstStop(x).Some?
    ensures Alike(x, y + [g]) && Alike(x + [g], y)
  {
    assert (y + [g])[0] == y[0] && (x + [g])[0] == x[0];
    if x[0].Chunk? {
      AlikeBehind(x[1..], y[1..], g);
      assert (y + [g])[1..] == y[1..] + [g] && (x + [g])[1..] == x[1..] + [g];
    }
  }

  lemma {:induction false} AlikeTake(x: seq<RecvResult>, y: seq<RecvResult>, n: nat, f: RecvResult)
    requires Alike(x, y)
    ensures Alike(x[..Min(n, |x|)] + [f], y[..Min(n, |y|)] + [f])
    decreases n
  {
    var x', y' := x[..Min(n, |x|)] + [f], y[..Min(n, |y|)] + [f];
    if n == 0 || x == [] {
      assert x' == [f] && y' == [f];
      assert [f][1..] == [];
    } else {
      assert x'[0] == x[0] && y'[0] == y[0];
      if x[0].Chunk? {
        AlikeTake(x[1..], y[1..], n - 1, f);
        assert x'[1..] == x[1..][..Min(n - 1, |x[1..]|)] + [f] && y'[1..] == y[1..][..Min(n - 1, |y[1..]|)] + [f];
      }
    }
  }

  lemma {:induction false} AlikeEnds(x: seq<RecvResult>, y: seq<RecvResult>)
    requires Alike(x, y)
    ensures FirstStop(x) == FirstStop(y) && Payload(x) == Payload(y)
  {
    if x != [] && x[0].Chunk? {
      AlikeEnds(x[1..], y[1..]);
    }
  }

  lemma {:induction false} AlikeSelf(x: seq<RecvResult>)
    ensures Alike(x, x)
  {
    if x != [] {
      AlikeSelf(x[1..]);
    }
  }

  /** Readers that cannot be told apart by reading. */
  predicate TwinReaders(a: Reader, b: Reader) {
    b == a.(inbox := b.inbox, calls := b.calls) && (a.err.Some? || Alike(a.inbox, b.inbox))
  }

  lemma {:induction false} TwinReadStep(a: Reader, b: Reader, size: nat)
    requires TwinReaders(a, b)
    ensures var (a', o) := ReadStep(a, size);
      var (b', o') := ReadStep(b, size);
      o' == o && TwinReaders(a', b')
    decreases |a.inbox|
  {
    if a.rest == [] && a.err.None? && a.inbox != [] && a.inbox[0].Chunk? {
      TwinReadStep(a.(inbox := a.inbox[1..], calls := a.calls + 1, rest := a.inbox[0].data),
                   b.(inbox := b.inbox[1..], calls := b.calls + 1, rest := b.inbox[0].data), size);
    }
  }

  lemma {:induction false} TwinReadAll(a: Reader, b: Reader, sizes: seq<nat>)
    requires TwinReaders(a, b)
    ensures ReadAll(a, sizes).1 == ReadAll(b, sizes).1
    decreases |sizes|
  {
    if sizes != [] {
      TwinReadStep(a, b, sizes[0]);
      hide ReadStep, TwinReaders;
      TwinReadAll(ReadStep(a, sizes[0]).0, ReadStep(b, sizes[0]).0, sizes[1..]);
    }
  }

  /** Links that differ in their door and framing only, and in whether a half-close that failed may be tried again.
      */
  predicate Twins(a: Link, b: Link) {
    && b == a.(door := b.door, wire := b.wire, frames := b.frames, finFired := b.finFired)
    && (a.readErr.Some? || Alike(Inbox(Receiver(a), a.wire), Inbox(Receiver(b), b.wire)))
  }

  lemma TwinPut(a: Link, b: Link, f: Frame, g: Frame)
    requires Twins(a, b) && SameMeaning(Decode(Receiver(a), f), Decode(Receiver(b), g))
    ensures Twins(a.(wire := a.wire + [f]), b.(wire := b.wire + [g]))
  {
    InboxAppend(Receiver(a), a.wire, f);
    InboxAppend(Receiver(b), b.wire, g);
    if a.readErr.None? {
      AlikeAppend(Inbox(Receiver(a), a.wire), Inbox(Receiver(b), b.wire), Decode(Receiver(a), f),
          Decode(Receiver(b), g));
    }
  }

  lemma TwinRead(a: Link, b: Link, size: nat)
    requires Twins(a, b)
    ensures Apply(a, Read(size)).1 == Apply(b, Read(size)).1 && Twins(Apply(a, Read(size)).0, Apply(b, Read(size)).0)
  {
    hide ReadStep;
    TwinReadStep(AsReader(a), AsReader(b), size);
    ReadIsReadStep(a, size);
    ReadIsReadStep(b, size);
  }

  lemma TwinBreak(a: Link, b: Link, keep: nat)
    requires Twins(a, b)
    ensures Apply(a, Break(keep)).1 == Apply(b, Break(keep)).1
    ensures Twins(Apply(a, Break(keep)).0, Apply(b, Break(keep)).0)
  {
    var x, y := Inbox(Receiver(a), a.wire), Inbox(Receiver(b), b.wire);
    assert Inbox(Receiver(a), Apply(a, Break(keep)).0.wire) == x[..Min(keep, |x|)] + [Stop(Other(RESET))];
    assert Inbox(Receiver(b), Apply(b, Break(keep)).0.wire) == y[..Min(keep, |y|)] + [Stop(Other(RESET))];
    if a.readErr.None? {
      AlikeTake(x, y, keep, Stop(Other(RESET)));
    }
  }

  lemma TwinHalfClose(a: Link, b: Link, answer: Option<Error>)
    requires Twins(a, b) && a.finFired == b.finFired
    ensures HalfClose(a, answer).1 == HalfClose(b, answer).1 && Twins(HalfClose(a, answer).0, HalfClose(b, answer).0)
    ensures a.finFired || answer.None? ==> HalfClose(a, answer).0.finFired == HalfClose(b, answer).0.finFired
  {
    TwinPut(a, b, FinFrame(a.door), FinFrame(b.door));
  }

  /** A Close whose half-close succeeded, now or before: the close frame of a WebSocket is behind the end. */
  lemma TwinClose(a: Link, b: Link, answer: Option<Error>, release: Option<Error>)
    requires Twins(a, b) && a.finFired == b.finFired && LinkInv(a) && LinkInv(b)
    requires a.sender.Agent? || ((a.finFired || answer.None?) && release.None? && (a.finFired ==> a.finPut))
    ensures var c := Close(answer, release);
      Apply(a, c).1 == Apply(b, c).1 && Twins(Apply(a, c).0, Apply(b, c).0)
          && Apply(a, c).0.finFired == Apply(b, c).0.finFired
  {
    if !a.closed {
      TwinHalfClose(a, b, answer);
      HalfCloseRefines(a, answer);
      HalfCloseRefines(b, answer);
      var a1, b1 := HalfClose(a, answer).0.(closed := true), HalfClose(b, answer).0.(closed := true);
      assert AsReader(a1) == AsReader(HalfClose(a, answer).0) && AsReader(b1) == AsReader(HalfClose(b, answer).0);
      hide HalfClose;
      var x, y := Inbox(Receiver(a1), a1.wire), Inbox(Receiver(b1), b1.wire);
      InboxAppend(Receiver(a1), a1.wire, CloseFrame(NORMAL_CLOSURE));
      InboxAppend(Receiver(b1), b1.wire, CloseFrame(NORMAL_CLOSURE));
      if a.sender.Client? && a.readErr.None? {
        AlikeEnds(x, y);
        var end := Decode(Receiver(a1), CloseFrame(NORMAL_CLOSURE));
        AlikeBehind(x, y, end);
        AlikeAppend(x, y, end, end);
      }
    }
  }

  predicate NoAttempt(acts: seq<Act>) {
    forall a :: a in acts ==> !a.CloseWrite? && !a.Close?
  }

  /** What keeps the doors alike: after a half-close that failed there is no other attempt and no Close; and a Close
      neither fails its half-close nor is answered with an error by the release. (fired: a half-close has succeeded
      already.) What the exceptions do is said exactly in RetryTellsExactly and CloseTellsExactly. */
  predicate Discreet(acts: seq<Act>, fired: bool)
    decreases |acts|
  {
    if acts == [] then true
    else
      match acts[0]
      case CloseWrite(answer) =>
        if fired || answer.None? then Discreet(acts[1..], true) else NoAttempt(acts[1..])
      case Close(answer, release) => (fired || answer.None?) && release.None? && Discreet(acts[1..], true)
      case _ => Discreet(acts[1..], fired)
  }

  /** No half-close failed: one that was made has ended the direction, and a closed conn has made one. */
  predicate EndsKnown(l: Link) {
    (l.finFired ==> l.finPut) && (l.closed ==> l.finFired)
  }

  /** Twins that the given acts will not part. */
  ghost predicate WillAgree(a: Link, b: Link, acts: seq<Act>) {
    && Twins(a, b) && LinkInv(a) && LinkInv(b)
    && ((a.finFired == b.finFired && (a.sender.Agent? || (EndsKnown(a) && Discreet(acts, a.finFired))))
        || NoAttempt(acts))
  }

  lemma TwinStep(a: Link, b: Link, acts: seq<Act>)
    requires acts != [] && WillAgree(a, b, acts)
    ensures Apply(a, acts[0]).1 == Apply(b, acts[0]).1
    ensures WillAgree(Apply(a, acts[0]).0, Apply(b, acts[0]).0, acts[1..])
  {
    var act := acts[0];
    assert act in acts;
    StepRefines(a, act);
    StepRefines(b, act);
    assert NoAttempt(acts) ==> NoAttempt(acts[1..]);
    TwinActs(a, b, act);
    FiredEnded(a, act);
    SameEnds(a, act);
    hide Apply, Twins, LinkInv, PipeNext, Settled, Abs;
  }

  lemma FiredEnded(a: Link, act: Act)
    ensures var a' := Apply(a, act).0;
      && (a.finPut ==> a'.finPut)
      && (!act.CloseWrite? && !act.Close? ==> a'.finFired == a.finFired)
      && (act.CloseWrite? && a.sender.Client? && act.answer.None? && (a.finFired ==> a.finPut) ==>
          a'.finFired && a'.finPut)
      && (act.Close? && !a.closed && a.sender.Client? && (a.finFired || act.answer.None?) ==>
            (a.finFired ==> a.finPut) ==> a'.finFired && a'.finPut)
      && (act.Close? && a.closed ==> a' == a)
      && (a'.closed ==> a.closed || act.Close?)
      && (act.CloseWrite? && a.finFired ==> a' == a)
      && (a.sender.Agent? ==> a'.finFired == a.finFired)
  {
  }

  lemma TwinActs(a: Link, b: Link, act: Act)
    requires Twins(a, b) && LinkInv(a) && LinkInv(b)
    requires act.CloseWrite? || act.Close? ==> a.finFired == b.finFired
    requires act.Close? && a.sender.Client? ==>
      (a.finFired || act.answer.None?) && act.release.None? && (a.finFired ==> a.finPut)
    ensures Apply(a, act).1 == Apply(b, act).1 && Twins(Apply(a, act).0, Apply(b, act).0)
    ensures a.finFired == b.finFired && !(act.CloseWrite? && !a.finFired && a.sender.Client? && act.answer.Some?) ==>
      Apply(a, act).0.finFired == Apply(b, act).0.finFired
  {
    FiredEnded(a, act);
    FiredEnded(b, act);
    hide Twins, AsReader;
    match act
    case Read(size) => TwinRead(a, b, size);
    case Write(w, answer, put) => TwinWrite(a, b, w, answer, put);
    case CloseWrite(answer) => TwinHalfClose(a, b, answer);
    case Close(answer, _) => TwinClose(a, b, answer, act.release);
    case Refuse => TwinRefuse(a, b);
    case Finish(ok) => TwinFinish(a, b, ok);
    case Break(keep) => TwinBreak(a, b, keep);
  }

  lemma TwinWrite(a: Link, b: Link, w: bytes, answer: Option<Error>, put: bool)
    requires Twins(a, b)
    ensures var act := Write(w, answer, put);
      Apply(a, act).1 == Apply(b, act).1 && Twins(Apply(a, act).0, Apply(b, act).0)
  {
    TwinPut(a, b, DataFrame(a.door, w), DataFrame(b.door, w));
    hide AsReader, Inbox, Alike;
  }

  lemma TwinRefuse(a: Link, b: Link)
    requires Twins(a, b)
    ensures Twins(Apply(a, Refuse).0, Apply(b, Refuse).0)
  {
  }

  lemma TwinFinish(a: Link, b: Link, ok: bool)
    requires Twins(a, b)
    ensures Apply(a, Finish(ok)).1 == Apply(b, Finish(ok)).1 && Twins(Apply(a, Finish(ok)).0, Apply(b, Finish(ok)).0)
  {
    TwinPut(a, b, ReturnFrame(a.door, ok), ReturnFrame(b.door, ok));
  }

  lemma {:induction false} TwinRuns(a: Link, b: Link, acts: seq<Act>)
    requires WillAgree(a, b, acts)
    ensures Run(a, acts).1 == Run(b, acts).1 && Twins(Run(a, acts).0, Run(b, acts).0)
    decreases |acts|
  {
    if acts != [] {
      TwinStep(a, b, acts);
      hide Apply, WillAgree;
      TwinRuns(Apply(a, acts[0]).0, Apply(b, acts[0]).0, acts[1..]);
    }
  }

  lemma NewTwins(sender: Side)
    ensures var (a, b) := (NewLink(Connect, sender), NewLink(WebSocket, sender));
        Twins(a, b) && LinkInv(a) && LinkInv(b)
  {
    assert Inbox(Agent, []) == [] && Inbox(Client, []) == [];
  }

  /** Nothing above the conn can tell the doors apart: the same calls, met with the same answers, are observed to do
      the same, whatever the interleaving. A half-close that fails and is retried, and a Close that fails, are the
      exceptions within a direction. */
  lemma DoorsAgree(sender: Side, acts: seq<Act>)
    requires sender.Agent? || Discreet(acts, false)
    ensures Run(NewLink(Connect, sender), acts).1 == Run(NewLink(WebSocket, sender), acts).1
  {
    NewTwins(sender);
    TwinRuns(NewLink(Connect, sender), NewLink(WebSocket, sender), acts);
  }

  /** Reading on, the end of one shows and the other has none. */
  lemma OneEndShows(a: Reader, b: Reader)
    requires Ending(a).Some? && Ending(b).None?
    ensures exists sizes: seq<nat> :: ReadAll(a, sizes).1 != ReadAll(b, sizes).1
  {
    var sizes: seq<nat> := seq(|Pending(a)| + 1, _ => 1);
    ErrorSurfaces(a, sizes);
    ChunkingIndependence(b, sizes);
    var i :| 0 <= i < |sizes| && ReadAll(a, sizes).1[i] == Failed(Ending(a).value);
    assert ReadAll(a, sizes).1 != ReadAll(b, sizes).1;
  }

  /** Both the half-close and whatever Reads follow it are seen to go alike. */
  ghost predicate SeenAlike(a: Link, b: Link, act: Act) {
    && Apply(a, act).1 == Apply(b, act).1
    && forall sizes: seq<nat> ::
      ReadAll(AsReader(Apply(a, act).0), sizes).1 == ReadAll(AsReader(Apply(b, act).0), sizes).1
  }

  /** A half-close tried again after it failed, exactly: CloseRequest runs again, while the WebSocket's control
      frame was spent by the first attempt. The doors are seen to do the same if and only if the second attempt
      succeeds and the direction had ended in some other way already. */
  lemma RetryTellsExactly(a: Link, b: Link, answer: Option<Error>)
    requires a.door.Connect? && b.door.WebSocket? && a.sender.Client? && Twins(a, b) && LinkInv(a) && LinkInv(b)
    requires !a.finFired && b.finFired
    ensures SeenAlike(a, b, CloseWrite(answer)) <==> answer.None? && a.finPut
  {
    if answer.None? {
      PutEndRefines(a, EndOk);
      InboxAppend(Agent, a.wire, EndOk);
      var a', b' := AsReader(Apply(a, CloseWrite(answer)).0), AsReader(b);
      assert Apply(b, CloseWrite(answer)).0 == b;
      if a.finPut {
        if a.readErr.None? {
          AlikeBehind(Inbox(Agent, a.wire), Inbox(Agent, b.wire), Decode(Agent, EndOk));
        }
        forall sizes: seq<nat> ensures ReadAll(a', sizes).1 == ReadAll(b', sizes).1 {
          TwinReadAll(a', b', sizes);
        }
      } else {
        OneEndShows(a', b');
      }
    }
  }

  /** Close, exactly: over Connect it only half-closes, while a WebSocket sends a close frame in any case and has a
      release to report on. In the closed direction the doors are seen to do the same if and only if, where the
      half-close is attempted and fails, the direction had ended already, and elsewhere the release succeeds. */
  lemma CloseTellsExactly(a: Link, b: Link, answer: Option<Error>, release: Option<Error>)
    requires a.door.Connect? && b.door.WebSocket? && a.sender.Client? && Twins(a, b) && LinkInv(a) && LinkInv(b)
    requires !a.closed && a.finFired == b.finFired && (a.finFired ==> a.finPut)
    ensures SeenAlike(a, b, Close(answer, release)) <==>
      if !a.finFired && answer.Some? then a.finPut else release.None?
  {
    if !a.finFired && answer.Some? {
      FailedCloseTells(a, b, answer, release);
    } else if release.None? {
      TwinClose(a, b, answer, release);
      var act := Close(answer, release);
      forall sizes: seq<nat>
        ensures ReadAll(AsReader(Apply(a, act).0), sizes).1 == ReadAll(AsReader(Apply(b, act).0), sizes).1
      {
        TwinReadAll(AsReader(Apply(a, act).0), AsReader(Apply(b, act).0), sizes);
      }
    }
  }

  lemma FailedCloseTells(a: Link, b: Link, answer: Option<Error>, release: Option<Error>)
    requires a.door.Connect? && b.door.WebSocket? && a.sender.Client? && Twins(a, b) && LinkInv(a) && LinkInv(b)
    requires !a.closed && !a.finFired && !b.finFired && answer.Some?
    ensures SeenAlike(a, b, Close(answer, release)) <==> a.finPut
  {
    var act := Close(answer, release);
    var half := b.(finFired := true, closed := true);
    assert AsReader(half) == AsReader(b);
    assert Apply(a, act).0 == a.(closed := true) && Apply(b, act).0 == PutEnd(half, CloseFrame(NORMAL_CLOSURE));
    PutEndRefines(half, CloseFrame(NORMAL_CLOSURE));
    InboxAppend(Agent, b.wire, CloseFrame(NORMAL_CLOSURE));
    var a', b' := AsReader(Apply(a, act).0), AsReader(Apply(b, act).0);
    assert a' == AsReader(a);
    if a.finPut {
      if a.readErr.None? {
        AlikeBehind(Inbox(Agent, a.wire), Inbox(Agent, b.wire), Decode(Agent, CloseFrame(NORMAL_CLOSURE)));
      }
      forall sizes: seq<nat> ensures ReadAll(a', sizes).1 == ReadAll(b', sizes).1 {
        TwinReadAll(a', b', sizes);
      }
    } else {
      OneEndShows(b', a');
    }
  }

  /** A Close that fails, in full: over Connect the agent goes on waiting, over a WebSocket it is told a clean end.
      */
  lemma FailedCloseShows(e: Error)
    ensures var acts := [Close(Some(e), None), Read(1)];
      && Run(NewLink(Connect, Client), acts).1[1] == Received(Waiting)
      && Run(NewLink(WebSocket, Client), acts).1[1] == Received(Failed(Eof))
  {
    ClosedAndRead(Connect, e);
    ClosedAndRead(WebSocket, e);
  }

  lemma ClosedAndRead(door: Door, e: Error)
    ensures Run(NewLink(door, Client), [Close(Some(e), None), Read(1)]).1[1] ==
            Received(if door.Connect? then Waiting else Failed(Eof))
  {
    var l0 := NewLink(door, Client);
    var l1 := Apply(l0, Close(Some(e), None)).0;
    ReadAfterClose(l1, door);
    hide Apply, Run;
    RunCons(l0, Close(Some(e), None), [Read(1)]);
    RunCons(l1, Read(1), []);
    assert [Close(Some(e), None)] + [Read(1)] == [Close(Some(e), None), Read(1)] && [Read(1)] + [] == [Read(1)];
    assert Run(l0, [Close(Some(e), None), Read(1)]).1[1] == Run(l1, [Read(1)]).1[0];
  }

  lemma ReadAfterClose(l: Link, door: Door)
    requires l.sender.Client? && l.rest == [] && l.readErr.None?
    requires l.wire == if door.Connect? then [] else [CloseFrame(NORMAL_CLOSURE)]
    ensures Apply(l, Read(1)).1 == Received(if door.Connect? then Waiting else Failed(Eof))
  {
    assert AsReader(l).inbox == if door.Connect? then [] else [Stop(Eof)];
  }

  /** The retry, in full: over Connect the receiver sees EOF, over a WebSocket it goes on waiting. */
  lemma RetriedHalfClose(e: Error)
    ensures var acts := [CloseWrite(Some(e)), CloseWrite(None), Read(1)];
      && Run(NewLink(Connect, Client), acts).1[2] == Received(Failed(Eof))
      && Run(NewLink(WebSocket, Client), acts).1[2] == Received(Waiting)
  {
    forall door: Door ensures
      Run(NewLink(door, Client), [CloseWrite(Some(e)), CloseWrite(None), Read(1)]).1[2] ==
      Received(if door.Connect? then Failed(Eof) else Waiting)
    {
      var l2 := Retried(door, e, [Read(1)]);
      RunCons(l2, Read(1), []);
      assert [Read(1)] + [] == [Read(1)];
    }
  }

  /** And what is written after a retry that reported success: over a WebSocket it is delivered. */
  lemma WrittenAfterRetryIsDelivered(e: Error)
    ensures var os := Run(NewLink(WebSocket, Client),
        [CloseWrite(Some(e)), CloseWrite(None), Write([7], None, false), Read(1)]).1;
      os[1] == HalfClosed(None) && os[2] == Sent(Wrote(1)) && os[3] == Received(Got([7]))
  {
    var l2 := Retried(WebSocket, e, [Write([7], None, false), Read(1)]);
    var l3 := Apply(l2, Write([7], None, false)).0;
    assert AsReader(l3).inbox == [Chunk([7])] && [Chunk([7])][1..] == [];
    assert ReadStep(AsReader(l3), 1) == ReadStep(Reader([7], None, [], 1), 1);
    RunCons(l2, Write([7], None, false), [Read(1)]);
    RunCons(l3, Read(1), []);
    assert [Write([7], None, false)] + [Read(1)] == [Write([7], None, false), Read(1)] && [Read(1)] + [] == [Read(1)];
  }

  lemma Retried(door: Door, e: Error, later: seq<Act>) returns (l: Link)
    ensures l == if door.Connect? then PutEnd(NewLink(door, Client), EndOk).(finFired := true)
                 else NewLink(door, Client).(finFired := true)
    ensures Run(NewLink(door, Client), [CloseWrite(Some(e)), CloseWrite(None)] + later).1 ==
            [HalfClosed(Some(e)), HalfClosed(None)] + Run(l, later).1
  {
    var l0 := NewLink(door, Client);
    var l1 := Apply(l0, CloseWrite(Some(e))).0;
    l := Apply(l1, CloseWrite(None)).0;
    RunCons(l0, CloseWrite(Some(e)), [CloseWrite(None)] + later);
    RunCons(l1, CloseWrite(None), later);
    assert [CloseWrite(Some(e))] + ([CloseWrite(None)] + later) == [CloseWrite(Some(e)), CloseWrite(None)] + later;
    assert [HalfClosed(Some(e))] + ([HalfClosed(None)] + Run(l, later).1) == [HalfClosed(Some(e)), HalfClosed(None)]
        + Run(l, later).1;
  }

  // ---------------------------------------------------------------- both directions

  ghost predicate DuplexAgrees(a: Duplex, b: Duplex, ups: seq<Act>, downs: seq<Act>) {
    && a.up.door == a.down.door && b.up.door == b.down.door && NoStrayClose(a) && NoStrayClose(b)
    && WillAgree(a.up, b.up, ups) && WillAgree(a.down, b.down, downs)
  }

  predicate NobodyCloses(acts: seq<DuplexAct>) {
    forall a :: a in acts ==> (a.Up? || a.Down? ==> !a.act.Close?)
  }

  /** What one duplex step comes to in a direction: none of its steps, or one. */
  lemma TwinFew(a: Link, b: Link, few: seq<Act>, later: seq<Act>)
    requires |few| <= 1 && WillAgree(a, b, few + later)
    ensures WillAgree(Run(a, few).0, Run(b, few).0, later)
    ensures few != [] ==> Apply(a, few[0]).1 == Apply(b, few[0]).1
  {
    if few == [] {
      assert few + later == later;
    } else {
      assert few == [few[0]] && (few + later)[0] == few[0] && (few + later)[1..] == later;
      TwinStep(a, b, few + later);
      RunOne(a, few[0]);
      RunOne(b, few[0]);
    }
    hide WillAgree, Apply;
  }

  /** With no Close the doors project alike. */
  lemma SameSteps(door: Door, closed: bool, act: DuplexAct)
    requires act.Up? || act.Down? ==> !act.act.Close?
    ensures UpStep(door, closed, act) == UpStep(Connect, false, act)
    ensures DownStep(door, closed, act) == DownStep(Connect, false, act)
    ensures |UpStep(door, closed, act)| <= 1 && |DownStep(door, closed, act)| <= 1
    ensures act.Up? ==> UpStep(Connect, false, act) == [act.act]
    ensures act.Down? ==> DownStep(Connect, false, act) == [act.act]
  {
  }

  lemma Observed(t: Duplex, act: DuplexAct)
    ensures DuplexApply(t, act).1 ==
      match act case Up(a) => Apply(t.up, a).1 case Down(a) => Apply(t.down, a).1 case AgentReturn(_) => Silent
  {
    hide Apply, Hears, Shut;
  }

  lemma DuplexTwinStep(a: Duplex, b: Duplex, act: DuplexAct, ups: seq<Act>, downs: seq<Act>)
    requires act.Up? || act.Down? ==> !act.act.Close?
    requires DuplexAgrees(a, b, UpStep(Connect, false, act) + ups, DownStep(Connect, false, act) + downs)
    ensures DuplexApply(a, act).1 == DuplexApply(b, act).1
    ensures DuplexAgrees(DuplexApply(a, act).0, DuplexApply(b, act).0, ups, downs)
  {
    var (up, down) := (UpStep(Connect, false, act), DownStep(Connect, false, act));
    SameSteps(a.up.door, a.down.closed, act);
    SameSteps(a.up.door, a.up.closed, act);
    SameSteps(b.up.door, b.down.closed, act);
    SameSteps(b.up.door, b.up.closed, act);
    DuplexStep(a, act);
    DuplexStep(b, act);
    TwinFew(a.up, b.up, up, ups);
    TwinFew(a.down, b.down, down, downs);
    Observed(a, act);
    Observed(b, act);
    hide Apply, WillAgree, DuplexApply, UpStep, DownStep, Run, NoStrayClose;
  }

  lemma {:induction false} DuplexTwinRuns(a: Duplex, b: Duplex, acts: seq<DuplexAct>)
    requires NobodyCloses(acts) && DuplexAgrees(a, b, UpActs(Connect, false, acts), DownActs(Connect, false, acts))
    ensures DuplexRun(a, acts).1 == DuplexRun(b, acts).1
    decreases |acts|
  {
    if acts != [] {
      assert acts[0] in acts;
      DuplexTwinStep(a, b, acts[0], UpActs(Connect, false, acts[1..]), DownActs(Connect, false, acts[1..]));
      hide DuplexApply, DuplexAgrees, UpStep, DownStep;
      DuplexTwinRuns(DuplexApply(a, acts[0]).0, DuplexApply(b, acts[0]).0, acts[1..]);
    }
  }

  /** Both doors behave alike, both directions and the handler's return included, as long as neither side closes
      and no failed half-close is retried. */
  lemma DoorsAgreeUntilClose(acts: seq<DuplexAct>)
    requires NobodyCloses(acts) && Discreet(UpActs(Connect, false, acts), false)
    ensures DuplexRun(NewDuplex(Connect), acts).1 == DuplexRun(NewDuplex(WebSocket), acts).1
  {
    NewTwins(Client);
    NewTwins(Agent);
    DuplexTwinRuns(NewDuplex(Connect), NewDuplex(WebSocket), acts);
  }

  /** Close is where the doors part. Over Connect it only half-closes, so the client's Read still waits for the
      agent; over a WebSocket it fails. From like states they agree on the next Read exactly when it is settled
      already: a chunk is buffered, an error was reported, or the transport had died with nothing in flight. */
  lemma CloseTellsTheDoorsApart(a: Duplex, b: Duplex, answer: Option<Error>, release: Option<Error>, size: nat)
    requires a.up.door.Connect? && b.up.door.WebSocket? && Twins(a.down, b.down) && !a.up.closed && !b.up.closed
    requires LinkInv(a.down)
    ensures var close := Up(Close(answer, release));
      var (a1, b1) := (DuplexApply(a, close).0, DuplexApply(b, close).0);
      DuplexApply(a1, Down(Read(size))).1 == DuplexApply(b1, Down(Read(size))).1 <==>
      (a.down.rest != [] || a.down.readErr.Some?
       || (Payload(AsReader(a.down).inbox) == [] && FirstStop(AsReader(a.down).inbox) == Some(Other(RESET))))
  {
    var close := Up(Close(answer, release));
    var (a1, b1) := (DuplexApply(a, close).0, DuplexApply(b, close).0);
    RunOne(b.down, Break(0));
    assert a1.down == a.down;
    assert b1.down == Apply(b.down, Break(0)).0;
    hide ReadStep;
    CutOff(a.down, b.down);
    ReadIsReadStep(a1.down, size);
    ReadIsReadStep(b1.down, size);
    SettledExactly(AsReader(a.down), size);
  }

  lemma CutOff(a: Link, b: Link)
    requires Twins(a, b)
    ensures AsReader(Apply(b, Break(0)).0) == AsReader(a).(inbox := [Stop(Other(RESET))])
  {
    assert Apply(b, Break(0)).0.wire == [Reset];
  }

  /** Losing everything in flight changes the next Read, exactly unless it was settled. */
  lemma SettledExactly(r: Reader, size: nat)
    requires r.err.Some? ==> r.rest == []
    ensures ReadStep(r, size).1 == ReadStep(r.(inbox := [Stop(Other(RESET))]), size).1 <==>
      (r.rest != [] || r.err.Some? || (Payload(r.inbox) == [] && FirstStop(r.inbox) == Some(Other(RESET))))
  {
    ReadStepMeaning(r, size);
  }
}
