/** One direction of a tunnel (`Link`): the sender's Conn, the frames in flight and the receiver's Conn, driven by
    arbitrary users and an arbitrary transport. It refines `Pipe`, a half-closable byte queue with no frames,
    chunks or doors in it. `Tunnel` is the two directions together. */
module Tunnel {
  import opened Prelude
  import opened StreamConn
  import opened Wire

  /** closed says whether Close has run. frames, accepted, late and returned are histories: all that was put on the
      wire, the bytes put there before and after the direction was ended, and the bytes Read has returned. */
  datatype Link = Link(
    door: Door,
    sender: Side,
    wire: seq<Frame>,
    rest: bytes,
    readErr: Option<Error>,
    writeErr: Option<Error>,
    finFired: bool,
    finPut: bool,
    closed: bool,
    frames: seq<Frame>,
    accepted: bytes,
    late: bytes,
    returned: bytes)

  function NewLink(door: Door, sender: Side): Link {
    Link(door, sender, [], [], None, None, false, false, false, [], [], [], [])
  }

  /** What either end or the transport does next. Answers and losses are the transport's choice:
      - Write: `answer` is what send reports; a send that failed may still have gone out (`put`).
      - CloseWrite: `answer` is what closeSend reports when it runs.
      - Close: the same, then `release` is what closeAll reports where there is one. It does both outside the write
        lock, so later Writes are refused only by a step of its own, Refuse: a Write may come between the two.
      - Finish: the agent's handler returned.
      - Break: the transport dies; the first `keep` frames in flight still arrive. */
  datatype Act =
    | Write(b: bytes, answer: Option<Error>, put: bool)
    | CloseWrite(answer: Option<Error>)
    | Close(answer: Option<Error>, release: Option<Error>)
    | Refuse
    | Finish(ok: bool)
    | Read(size: nat)
    | Break(keep: nat)

  datatype Obs = Sent(written: WriteResult) | HalfClosed(err: Option<Error>) | Received(read: ReadResult) | Silent

  function Receiver(l: Link): Side {
    if l.sender.Client? then Agent else Client
  }

  function AsReader(l: Link): Reader {
    Reader(l.rest, l.readErr, Inbox(Receiver(l), l.wire), 0)
  }

  function Put(l: Link, b: bytes): Link {
    var f := DataFrame(l.door, b);
    var l' := l.(wire := l.wire + [f], frames := l.frames + [f]);
    if l.finPut then l'.(late := l.late + b) else l'.(accepted := l.accepted + b)
  }

  function PutEnd(l: Link, f: Frame): Link {
    l.(wire := l.wire + [f], frames := l.frames + [f], finPut := true)
  }

  /** closeSend, and the error it returns. The agent's conn has none. A WebSocket tries its control frame once,
      whatever came of it; CloseRequest can be tried again after failing. */
  function HalfClose(l: Link, answer: Option<Error>): (Link, Option<Error>) {
    if l.sender.Agent? || l.finFired then (l, None)
    else if answer.Some? then (l.(finFired := l.door.WebSocket?), answer)
    else (PutEnd(l, FinFrame(l.door)).(finFired := true), None)
  }

  /** The client's end of a WebSocket has a closeAll that sends a close frame. (The agent's only cancels its reads;
      see DuplexApply. Over Connect there is none.) */
  predicate SendsCloseFrame(l: Link) {
    l.door.WebSocket? && l.sender.Client?
  }

  function Apply(l: Link, a: Act): (Link, Obs) {
    match a
    case Write(b, answer, put) =>
      if l.writeErr.Some? then (l, Sent(WriteFailed(l.writeErr.value)))
      else if b == [] then (l, Sent(Wrote(0)))
      else if answer.Some? then
        ((if put then Put(l, b) else l).(writeErr := Some(Normalize(answer.value))),
         Sent(WriteFailed(Normalize(answer.value))))
      else (Put(l, b), Sent(Wrote(|b|)))
    case CloseWrite(answer) =>
      var (half, err) := HalfClose(l, answer);
      (half, HalfClosed(err))
    case Close(answer, release) =>
      if l.closed then (l, HalfClosed(None))
      else
        var (half, err) := HalfClose(l, answer);
        var done := half.(closed := true);
        if SendsCloseFrame(l) then
          (PutEnd(done, CloseFrame(NORMAL_CLOSURE)), HalfClosed(if err.Some? then err else release))
        else (done, HalfClosed(err))
    case Refuse =>
      (if l.closed && l.writeErr.None? then l.(writeErr := Some(NetClosed)) else l, Silent)
    case Finish(ok) =>
      (PutEnd(l, ReturnFrame(l.door, ok)), Silent)
    case Read(size) =>
      var (r, o) := ReadStep(AsReader(l), size);
      ReadStepMeaning(AsReader(l), size);
      (l.(rest := r.rest,
          readErr := r.err,
          wire := l.wire[|l.wire| - |r.inbox|..],
          returned := l.returned + if o.Got? then o.data else []),
       Received(o))
    case Break(keep) =>
      (PutEnd(l.(wire := l.wire[..Min(keep, |l.wire|)]), Reset), Silent)
  }

  function Run(l: Link, acts: seq<Act>): (r: (Link, seq<Obs>))
    ensures |r.1| == |acts|
    decreases |acts|
  {
    if acts == [] then (l, [])
    else
      var (l1, o) := Apply(l, acts[0]);
      var (l2, os) := Run(l1, acts[1..]);
      (l2, [o] + os)
  }

  /** One act more in front, for runs that are written out. */
  lemma RunCons(l: Link, a: Act, later: seq<Act>)
    ensures var (l1, o) := Apply(l, a);
      var (l2, os) := Run(l1, later);
      Run(l, [a] + later) == (l2, [o] + os)
  {
    assert ([a] + later)[1..] == later;
  }

  /** What holds of a link in every run: the direction is ended exactly when its terminator is in flight or was
      read, the error is latched only once the chunk buffer is empty, and no empty chunk is in flight. */
  ghost predicate LinkInv(l: Link) {
    && (l.finPut <==> Ending(AsReader(l)).Some?)
    && (l.readErr.Some? ==> l.rest == [])
    && (forall f :: f in l.wire ==> Decode(Receiver(l), f) != Chunk([]))
  }

  // ---------------------------------------------------------------- the abstract pipe

  /** A half-closable byte pipe. `fin` is how it was ended, `reported` whether the reader has been told. */
  datatype Pipe = Pipe(
    sender: Side,
    accepted: bytes,
    delivered: bytes,
    pending: bytes,
    fin: Option<Error>,
    reported: bool,
    sendErr: Option<Error>,
    finFired: bool,
    closed: bool)

  function NewPipe(sender: Side): Pipe {
    Pipe(sender, [], [], [], None, false, None, false, false)
  }

  function Enqueue(p: Pipe, b: bytes): Pipe {
    if p.fin.Some? then p else p.(accepted := p.accepted + b, pending := p.pending + b)
  }

  function EndPipe(p: Pipe, e: Error): Pipe {
    if p.fin.Some? then p else p.(fin := Some(e))
  }

  /** A half-close is attempted. */
  predicate Attempts(p: Pipe) {
    p.sender.Client? && !p.finFired
  }

  /** The half-close part of CloseWrite and Close: whether a failed attempt may be repeated is left open. */
  ghost predicate PipeHalfClose(p: Pipe, answer: Option<Error>, p': Pipe, err: Option<Error>) {
    if !Attempts(p) then p' == p && err == None
    else if answer.None? then p' == EndPipe(p, Eof).(finFired := true) && err == None
    else p'.(finFired := false) == p && err == answer
  }

  /** What the pipe may do. Nothing here mentions frames or doors; how many bytes a Read takes, how much a dying
      transport loses, and whether a client's Close ends the direction when its half-close failed, are left open. */
  ghost predicate PipeNext(p: Pipe, a: Act, p': Pipe, o: Obs) {
    match a
    case Write(b, answer, put) =>
      if p.sendErr.Some? then p' == p && o == Sent(WriteFailed(p.sendErr.value))
      else if b == [] then p' == p && o == Sent(Wrote(0))
      else if answer.None? then p' == Enqueue(p, b) && o == Sent(Wrote(|b|))
      else
        && p' == Enqueue(p, if put then b else []).(sendErr := Some(Normalize(answer.value)))
        && o == Sent(WriteFailed(Normalize(answer.value)))
    case CloseWrite(answer) =>
      o.HalfClosed? && PipeHalfClose(p, answer, p', o.err)
    case Close(answer, release) =>
      if p.closed then p' == p && o == HalfClosed(None)
      else
        && o.HalfClosed?
        && p'.closed
        && exists half: Pipe, err: Option<Error> ::
          && PipeHalfClose(p, answer, half, err)
          && (o.err == err || (p.sender.Client? && err.None? && o.err == release))
          && (p' == half.(closed := true) || (p.sender.Client? && p' == EndPipe(half, Eof).(closed := true)))
    case Refuse =>
      p' == (if p.closed && p.sendErr.None? then p.(sendErr := Some(NetClosed)) else p) && o == Silent
    case Finish(ok) =>
      p' == EndPipe(p, if ok then Eof else Other(HANDLER_FAILED)) && o == Silent
    case Read(size) =>
      && o.Received?
      && (o.read.Got? <==> p.pending != [])
      && (o.read.Failed? <==> p.pending == [] && p.fin.Some?)
      && (o.read.Got? ==>
        && |o.read.data| <= size && (size > 0 ==> o.read.data != [])
        && p.pending == o.read.data + p'.pending
        && p' == p.(delivered := p.delivered + o.read.data, pending := p'.pending))
      && (o.read.Failed? ==> Some(o.read.err) == p.fin && p' == p.(reported := true))
      && (o.read.Waiting? ==> p' == p)
    case Break(keep) =>
      && o == Silent
      && if p.reported then p' == p
         else
           || (p.fin.Some? && p' == p)
           || (p'.pending <= p.pending && p' == p.(pending := p'.pending, fin := Some(Other(RESET))))
  }

  /** What is left open about closing, settled: a conn that owns its transport spends its half-close on the first
      attempt and ends the direction when it closes; one that does not may try again, and only half-closes. */
  ghost predicate Settled(owned: bool, p: Pipe, a: Act, p': Pipe) {
    && ((a.CloseWrite? || (a.Close? && !p.closed)) && Attempts(p) && a.answer.Some? ==> p'.finFired == owned)
    && (a.Close? && !p.closed && p.sender.Client? && owned ==> p'.fin.Some?)
    && (a.Close? && !p.closed && !(p.sender.Client? && (owned || (Attempts(p) && a.answer.None?))) ==> p'.fin == p.fin)
  }

  /** A run of the pipe under a conn of the given kind. */
  ghost predicate IsPipeRun(owned: bool, p: Pipe, acts: seq<Act>, os: seq<Obs>, p': Pipe)
    decreases |acts|
  {
    && |os| == |acts|
    && if acts == [] then p' == p
       else exists q ::
         PipeNext(p, acts[0], q, os[0]) && Settled(owned, p, acts[0], q) && IsPipeRun(owned, q, acts[1..], os[1..], p')
  }

  function Abs(l: Link): Pipe {
    Pipe(l.sender, l.accepted, l.returned, Pending(AsReader(l)), Ending(AsReader(l)), l.readErr.Some?, l.writeErr,
         l.finFired, l.closed)
  }

  // ---------------------------------------------------------------- refinement

  lemma PutRefines(l: Link, b: bytes)
    requires LinkInv(l) && b != []
    ensures LinkInv(Put(l, b)) && Abs(Put(l, b)) == Enqueue(Abs(l), b)
  {
    var l' := Put(l, b);
    InboxAppend(Receiver(l), l.wire, DataFrame(l.door, b));
    assert l.rest + (Payload(Inbox(Receiver(l), l.wire)) + b) == l.rest + Payload(Inbox(Receiver(l), l.wire)) + b;
  }

  lemma PutEndRefines(l: Link, f: Frame)
    requires LinkInv(l) && Decode(Receiver(l), f).Stop?
    ensures LinkInv(PutEnd(l, f))
    ensures Abs(PutEnd(l, f)) == EndPipe(Abs(l), Normalize(Decode(Receiver(l), f).cause))
  {
    InboxAppend(Receiver(l), l.wire, f);
  }

  /** A Read on the link is ReadStep on its reader. */
  lemma ReadIsReadStep(l: Link, size: nat)
    ensures AsReader(Apply(l, Read(size)).0) == ReadStep(AsReader(l), size).0.(calls := 0)
    ensures Apply(l, Read(size)).1 == Received(ReadStep(AsReader(l), size).1)
  {
    hide ReadStep, Payload, FirstStop, Decode;
    var r := ReadStep(AsReader(l), size).0;
    ReadStepMeaning(AsReader(l), size);
    InboxDrop(Receiver(l), l.wire, |l.wire| - |r.inbox|);
  }

  lemma ReadKeepsInv(l: Link, size: nat)
    requires LinkInv(l)
    ensures LinkInv(Apply(l, Read(size)).0)
  {
    ReadIsReadStep(l, size);
    ReadStepMeaning(AsReader(l), size);
    ErrorMeansDrained(AsReader(l), size);
    var l' := Apply(l, Read(size)).0;
    assert Ending(AsReader(l')) == Ending(AsReader(l));
    assert forall f :: f in l'.wire ==> f in l.wire;
  }

  lemma ReadRefines(l: Link, size: nat)
    requires LinkInv(l)
    ensures var (l', o) := Apply(l, Read(size)); PipeNext(Abs(l), Read(size), Abs(l'), o)
  {
    ReadIsReadStep(l, size);
    ReadStepMeaning(AsReader(l), size);
    var (l', o) := Apply(l, Read(size));
    var (r, result) := ReadStep(AsReader(l), size);
    var p, p' := Abs(l), Abs(l');
    assert p'.pending == Pending(r) && p'.fin == Ending(r) == p.fin && o.read == result;
    if result.Waiting? {
      assert p'.pending == p.pending && p'.delivered == p.delivered;
    }
  }

  /** Read latches an error only when nothing is buffered. */
  lemma {:induction false} ErrorMeansDrained(r: Reader, size: nat)
    requires r.err.Some? ==> r.rest == []
    ensures var r' := ReadStep(r, size).0; r'.err.Some? ==> r'.rest == []
    decreases |r.inbox|
  {
    if r.rest == [] && r.err.None? && r.inbox != [] && r.inbox[0].Chunk? {
      ErrorMeansDrained(r.(inbox := r.inbox[1..], calls := r.calls + 1, rest := r.inbox[0].data), size);
    }
  }

  lemma BreakRefines(l: Link, keep: nat)
    requires LinkInv(l)
    ensures var (l', o) := Apply(l, Break(keep)); LinkInv(l') && PipeNext(Abs(l), Break(keep), Abs(l'), o)
  {
    var n := Min(keep, |l.wire|);
    InboxTake(Receiver(l), l.wire, n);
    InboxAppend(Receiver(l), l.wire[..n], Reset);
  }

  lemma WriteRefines(l: Link, b: bytes, answer: Option<Error>, put: bool)
    requires LinkInv(l)
    ensures var (l', o) := Apply(l, Write(b, answer, put));
        LinkInv(l') && PipeNext(Abs(l), Write(b, answer, put), Abs(l'), o)
  {
    if b != [] {
      PutRefines(l, b);
    }
  }

  lemma HalfCloseRefines(l: Link, answer: Option<Error>)
    requires LinkInv(l)
    ensures var (half, err) := HalfClose(l, answer);
      && LinkInv(half) && PipeHalfClose(Abs(l), answer, Abs(half), err)
      && half.door == l.door && half.sender == l.sender
      && (Attempts(Abs(l)) && answer.Some? ==> half.finFired == l.door.WebSocket?)
  {
    PutEndRefines(l, FinFrame(l.door));
  }

  /** Conn.Close is a closing step of the pipe. */
  lemma CloseRefines(l: Link, answer: Option<Error>, release: Option<Error>)
    requires LinkInv(l)
    ensures var (l', o) := Apply(l, Close(answer, release));
      && LinkInv(l') && PipeNext(Abs(l), Close(answer, release), Abs(l'), o)
      && Settled(l.door.WebSocket?, Abs(l), Close(answer, release), Abs(l'))
  {
    if !l.closed {
      HalfCloseRefines(l, answer);
      var (half, err) := HalfClose(l, answer);
      var (l', o) := Apply(l, Close(answer, release));
      var done := half.(closed := true);
      assert AsReader(done) == AsReader(half);
      PutEndRefines(done, CloseFrame(NORMAL_CLOSURE));
      hide AsReader, LinkInv, HalfClose;
      assert PipeHalfClose(Abs(l), answer, Abs(half), err);
      var ended := if SendsCloseFrame(l) then EndPipe(Abs(half), Eof) else Abs(half);
      assert Abs(l') == ended.(closed := true);
    }
  }

  /** Each step of a link, through either door, is a step of the pipe with the same observation. */
  lemma StepRefines(l: Link, a: Act)
    requires LinkInv(l)
    ensures var (l', o) := Apply(l, a);
      LinkInv(l') && PipeNext(Abs(l), a, Abs(l'), o) && Settled(l.door.WebSocket?, Abs(l), a, Abs(l'))
  {
    match a
    case Write(b, answer, put) =>
      hide PipeNext, LinkInv;
      WriteRefines(l, b, answer, put);
    case CloseWrite(answer) => HalfCloseRefines(l, answer);
    case Close(answer, release) => CloseRefines(l, answer, release);
    case Refuse => assert AsReader(Apply(l, Refuse).0) == AsReader(l);
    case Finish(ok) => PutEndRefines(l, ReturnFrame(l.door, ok));
    case Read(size) =>
      ReadKeepsInv(l, size);
      ReadRefines(l, size);
    case Break(keep) => BreakRefines(l, keep);
  }

  /** A link keeps its door and its sender. */
  lemma SameEnds(l: Link, a: Act)
    ensures Apply(l, a).0.door == l.door && Apply(l, a).0.sender == l.sender
  {
  }

  lemma {:induction false} RunRefines(l: Link, acts: seq<Act>)
    requires LinkInv(l)
    ensures var (l', os) := Run(l, acts); LinkInv(l') && IsPipeRun(l.door.WebSocket?, Abs(l), acts, os, Abs(l'))
    decreases |acts|
  {
    if acts != [] {
      StepRefines(l, acts[0]);
      SameEnds(l, acts[0]);
      hide Apply, LinkInv, Abs, PipeNext, Settled;
      var (l1, o) := Apply(l, acts[0]);
      RunRefines(l1, acts[1..]);
      var (l2, os) := Run(l1, acts[1..]);
      assert ([o] + os)[1..] == os;
    }
  }

  /** Whichever door is used, whatever both users and the transport do and in whatever order, closing included,
      everything seen above the conns is a run of the one abstract pipe. Of the door it shows only whether the conn
      owns its transport. */
  lemma BothDoorsRefineOnePipe(door: Door, sender: Side, acts: seq<Act>)
    ensures var (l, os) := Run(NewLink(door, sender), acts);
      IsPipeRun(door.WebSocket?, NewPipe(sender), acts, os, Abs(l))
  {
    var l := NewLink(door, sender);
    assert Inbox(Receiver(l), []) == [];
    RunRefines(l, acts);
  }

  // ---------------------------------------------------------------- what the pipe guarantees

  ghost predicate PipeInv(p: Pipe) {
    && p.delivered + p.pending <= p.accepted
    && (p.fin.None? || p.fin == Some(Eof) ==> p.delivered + p.pending == p.accepted)
    && (p.reported ==> p.pending == [] && p.fin.Some?)
  }

  /** What a closing step may change. */
  lemma PipeCloseShape(p: Pipe, a: Act, p': Pipe, o: Obs)
    requires a.Close? && PipeNext(p, a, p', o)
    ensures o.HalfClosed? && p'.closed
    ensures p' == p.(fin := p'.fin, finFired := p'.finFired, closed := true)
    ensures p'.fin == p.fin || (p.fin.None? && p'.fin == Some(Eof) && p.sender.Client?)
    ensures p.closed ==> p' == p
    ensures !p.closed && Attempts(p) && a.answer.None? ==> p'.fin.Some? && p'.finFired
    ensures !p.closed && !Attempts(p) ==> p'.finFired == p.finFired
  {
    if !p.closed {
      var half: Pipe, err: Option<Error> :|
        && PipeHalfClose(p, a.answer, half, err)
        && (p' == half.(closed := true) || (p.sender.Client? && p' == EndPipe(half, Eof).(closed := true)));
      PipeHalfCloseShape(p, a.answer, half, err);
      hide PipeNext, PipeHalfClose;
    }
  }

  lemma PipeHalfCloseShape(p: Pipe, answer: Option<Error>, half: Pipe, err: Option<Error>)
    requires PipeHalfClose(p, answer, half, err)
    ensures half == p.(fin := half.fin, finFired := half.finFired)
    ensures half.fin == p.fin || (p.fin.None? && half.fin == Some(Eof) && p.sender.Client?)
    ensures Attempts(p) && answer.None? ==> half.fin.Some? && half.finFired
    ensures !Attempts(p) ==> half == p
  {
  }

  lemma PipeStep(p: Pipe, a: Act, p': Pipe, o: Obs)
    requires PipeInv(p) && PipeNext(p, a, p', o)
    ensures PipeInv(p')
    ensures p.reported ==> p'.reported && p'.fin == p.fin && p'.delivered == p.delivered
  {
    if a.Close? {
      PipeCloseShape(p, a, p', o);
    } else if a.Write? {
      PipeWriteStep(p, a, p', o);
    } else {
      PipeOtherStep(p, a, p', o);
    }
    hide PipeNext;
  }

  lemma PipeWriteStep(p: Pipe, a: Act, p': Pipe, o: Obs)
    requires a.Write? && PipeInv(p) && PipeNext(p, a, p', o)
    ensures PipeInv(p') && p'.reported == p.reported && p'.fin == p.fin && p'.delivered == p.delivered
  {
    if p.fin.None? {
      assert p.delivered + (p.pending + a.b) == p.delivered + p.pending + a.b;
    }
  }

  lemma PipeOtherStep(p: Pipe, a: Act, p': Pipe, o: Obs)
    requires !a.Write? && !a.Close? && PipeInv(p) && PipeNext(p, a, p', o)
    ensures PipeInv(p')
    ensures p.reported ==> p'.reported && p'.fin == p.fin && p'.delivered == p.delivered
  {
    if a.Read? && o.read.Got? {
      assert p.delivered + p.pending == p'.delivered + p'.pending;
    }
  }

  /** The bytes put on the wire before the direction was ended or broke, told from the actions alone: latched says
      that Writes are refused, fired that no half-close will be attempted, closed that Close has run. */
  function BeforeEnd(owned: bool, sender: Side, acts: seq<Act>, latched: bool, fired: bool, closed: bool): bytes
    decreases |acts|
  {
    if acts == [] then []
    else
      var later := acts[1..];
      match acts[0]
      case Write(b, answer, put) =>
        if latched || b == [] then BeforeEnd(owned, sender, later, latched, fired, closed)
        else (if answer.None? || put then b else []) + BeforeEnd(owned, sender, later, answer.Some?, fired, closed)
      case CloseWrite(answer) =>
        if sender.Agent? || fired then BeforeEnd(owned, sender, later, latched, fired, closed)
        else if answer.None? then []
        else BeforeEnd(owned, sender, later, latched, owned, closed)
      case Close(answer, _) =>
        if closed then BeforeEnd(owned, sender, later, latched, fired, closed)
        else if sender.Client? && (owned || (!fired && answer.None?)) then []
        else BeforeEnd(owned, sender, later, latched, fired, true)
      case Refuse => BeforeEnd(owned, sender, later, latched || closed, fired, closed)
      case Read(_) => BeforeEnd(owned, sender, later, latched, fired, closed)
      case _ => []
  }

  /** What a pipe will still accept. */
  function Remaining(owned: bool, p: Pipe, acts: seq<Act>): bytes {
    if p.fin.Some? then [] else BeforeEnd(owned, p.sender, acts, p.sendErr.Some?, p.finFired, p.closed)
  }

  /** The bytes the reader was given. */
  function BytesRead(os: seq<Obs>): bytes {
    if os == [] then []
    else (if os[0].Received? && os[0].read.Got? then os[0].read.data else []) + BytesRead(os[1..])
  }

  /** One step accounts for the bytes it delivers and accepts. */
  lemma PipeStepBytes(owned: bool, p: Pipe, a: Act, p': Pipe, o: Obs, later: seq<Act>)
    requires PipeInv(p) && PipeNext(p, a, p', o) && Settled(owned, p, a, p')
    ensures p'.delivered == p.delivered + BytesRead([o])
    ensures p'.accepted + Remaining(owned, p', later) == p.accepted + Remaining(owned, p, [a] + later)
    ensures o.Received? && o.read.Failed? ==> p'.reported && p'.fin == Some(o.read.err)
  {
    OneStepRead(o);
    if a.Write? {
      PipeWriteBytes(owned, p, a, p', o, later);
    } else if a.Close? {
      PipeCloseShape(p, a, p', o);
      CloseRemaining(owned, p, a, p', later);
    } else {
      OtherStepBytes(owned, p, a, p', o, later);
    }
    hide PipeNext, Settled, Remaining, BytesRead, PipeInv;
    assert p.delivered + [] == p.delivered;
  }

  lemma OneStepRead(o: Obs)
    ensures BytesRead([o]) == if o.Received? && o.read.Got? then o.read.data else []
  {
    assert [o][1..] == [];
  }

  lemma PipeWriteBytes(owned: bool, p: Pipe, a: Act, p': Pipe, o: Obs, later: seq<Act>)
    requires a.Write? && PipeNext(p, a, p', o)
    ensures p'.delivered == p.delivered && o.Sent?
    ensures p'.accepted + Remaining(owned, p', later) == p.accepted + Remaining(owned, p, [a] + later)
  {
    assert ([a] + later)[1..] == later;
    if p.fin.None? {
      var put := if p.sendErr.None? && (a.answer.None? || a.put) then a.b else [];
      assert p'.accepted == p.accepted + put;
      var more := BeforeEnd(owned, p.sender, later, p'.sendErr.Some?, p.finFired, p.closed);
      assert p.accepted + put + more == p.accepted + (put + more);
    }
  }

  lemma CloseRemaining(owned: bool, p: Pipe, a: Act, p': Pipe, later: seq<Act>)
    requires a.Close? && Settled(owned, p, a, p') && p' == p.(fin := p'.fin, finFired := p'.finFired, closed := true)
    requires p'.fin == p.fin || (p.fin.None? && p'.fin == Some(Eof) && p.sender.Client?)
    requires p.closed ==> p' == p
    requires !p.closed && Attempts(p) && a.answer.None? ==> p'.fin.Some? && p'.finFired
    requires !p.closed && !Attempts(p) ==> p'.finFired == p.finFired
    ensures Remaining(owned, p', later) == Remaining(owned, p, [a] + later)
  {
    assert ([a] + later)[1..] == later;
  }

  lemma OtherStepBytes(owned: bool, p: Pipe, a: Act, p': Pipe, o: Obs, later: seq<Act>)
    requires !a.Write? && !a.Close? && PipeInv(p) && PipeNext(p, a, p', o) && Settled(owned, p, a, p')
    ensures p'.delivered == p.delivered + if o.Received? && o.read.Got? then o.read.data else []
    ensures p'.accepted == p.accepted && Remaining(owned, p', later) == Remaining(owned, p, [a] + later)
    ensures o.Received? && o.read.Failed? ==> p'.reported && p'.fin == Some(o.read.err)
  {
    assert ([a] + later)[1..] == later;
  }

  lemma BytesReadFront(os: seq<Obs>)
    requires os != []
    ensures BytesRead(os) == BytesRead([os[0]]) + BytesRead(os[1..])
  {
    assert [os[0]][1..] == [];
  }

  lemma Assoc(a: bytes, b: bytes, c: bytes)
    ensures a + b + c == a + (b + c)
  {
  }

  /** A run of the pipe told without it: what was read was delivered, and what was accepted is what the calls put
      before the end. */
  lemma {:induction false} PipeRunMeaning(owned: bool, p: Pipe, acts: seq<Act>, os: seq<Obs>, p': Pipe)
    requires PipeInv(p) && IsPipeRun(owned, p, acts, os, p')
    ensures PipeInv(p')
    ensures p'.delivered == p.delivered + BytesRead(os)
    ensures p'.accepted == p.accepted + Remaining(owned, p, acts)
    decreases |acts|
  {
    if acts == [] {
      assert p.accepted + [] == p.accepted && p.delivered + [] == p.delivered;
    } else {
      hide PipeNext, Settled, PipeInv, BeforeEnd, Remaining, BytesRead;
      var q :| PipeNext(p, acts[0], q, os[0]) && Settled(owned, p, acts[0], q)
          && IsPipeRun(owned, q, acts[1..], os[1..], p');
      assert acts == [acts[0]] + acts[1..];
      hide IsPipeRun;
      PipeStep(p, acts[0], q, os[0]);
      PipeStepBytes(owned, p, acts[0], q, os[0], acts[1..]);
      PipeRunMeaning(owned, q, acts[1..], os[1..], p');
      BytesReadFront(os);
      Assoc(p.delivered, BytesRead([os[0]]), BytesRead(os[1..]));
    }
  }

  // ---------------------------------------------------------------- what is on the wire

  /** What the calls so far have come to: Writes are refused, no half-close will be attempted, Close has run. */
  datatype Told = Told(latched: bool, fired: bool, closed: bool)

  function After(door: Door, sender: Side, t: Told, a: Act): Told {
    Told(
      t.latched || (a.Write? && a.b != [] && a.answer.Some?) || (a.Refuse? && t.closed),
      t.fired || ((a.CloseWrite? || (a.Close? && !t.closed)) && sender.Client?
                  && (a.answer.None? || door.WebSocket?)),
      t.closed || a.Close?)
  }

  function EndOfInput(door: Door): Frame {
    if door.Connect? then EndOk else Text("close-write")
  }

  /** The frames that one call puts on the wire, by the conventions of the two doors. */
  function FramesOf(door: Door, sender: Side, t: Told, a: Act): seq<Frame> {
    match a
    case Write(b, answer, put) =>
      if t.latched || b == [] || (answer.Some? && !put) then []
      else [if door.Connect? then Data(b) else Binary(b)]
    case CloseWrite(answer) => if sender.Client? && !t.fired && answer.None? then [EndOfInput(door)] else []
    case Close(answer, _) =>
      if t.closed || sender.Agent? then []
      else (if !t.fired && answer.None? then [EndOfInput(door)] else [])
           + (if door.WebSocket? then [CloseFrame(1000)] else [])
    case Finish(true) => [if door.Connect? then EndOk else CloseFrame(1000)]
    case Finish(false) => [if door.Connect? then EndErr else CloseFrame(1011)]
    case Break(_) => [Reset]
    case _ => []
  }

  function Frames(door: Door, sender: Side, t: Told, acts: seq<Act>): seq<Frame>
    decreases |acts|
  {
    if acts == [] then []
    else FramesOf(door, sender, t, acts[0]) + Frames(door, sender, After(door, sender, t, acts[0]), acts[1..])
  }

  function ToldOf(l: Link): Told {
    Told(l.writeErr.Some?, l.finFired, l.closed)
  }

  lemma FramesStep(l: Link, a: Act)
    ensures var l1 := Apply(l, a).0;
      && ToldOf(l1) == After(l.door, l.sender, ToldOf(l), a)
      && l1.frames == l.frames + FramesOf(l.door, l.sender, ToldOf(l), a)
  {
    if a.Close? {
      assert l.frames + [EndOfInput(l.door)] + [CloseFrame(1000)]
          == l.frames + ([EndOfInput(l.door)] + [CloseFrame(1000)]);
    }
    hide ReadStep;
  }

  /** What goes on the wire, exactly: the frames that the conventions of the door have for the calls made, in their
      order. */
  lemma {:induction false} FramesAreTold(l: Link, acts: seq<Act>)
    ensures Run(l, acts).0.frames == l.frames + Frames(l.door, l.sender, ToldOf(l), acts)
    decreases |acts|
  {
    if acts != [] {
      FramesStep(l, acts[0]);
      SameEnds(l, acts[0]);
      hide Apply, FramesOf, After, ToldOf;
      FramesAreTold(Apply(l, acts[0]).0, acts[1..]);
    }
  }

  /** The first half-close among these calls, by CloseWrite or Close, is answered without an error. */
  predicate FirstWorks(acts: seq<Act>) {
    acts != [] && if acts[0].CloseWrite? || acts[0].Close? then acts[0].answer.None? else FirstWorks(acts[1..])
  }

  predicate Closes(acts: seq<Act>) {
    exists a :: a in acts && a.Close?
  }

  predicate Finishes(acts: seq<Act>) {
    exists a :: a in acts && a.Finish?
  }

  predicate Conventional(door: Door, f: Frame) {
    match door
    case Connect => f.Data? || f.EndOk? || f.EndErr? || f.Reset?
    case WebSocket =>
      f.Binary? || f == Text("close-write") || f == CloseFrame(1000) || f == CloseFrame(1011) || f.Reset?
  }

  predicate HasCloseFrame(fs: seq<Frame>) {
    exists f :: f in fs && f.CloseFrame?
  }

  lemma FramesOfMeans(door: Door, sender: Side, t: Told, a: Act)
    ensures var fs := FramesOf(door, sender, t, a);
      && (forall f :: f in fs ==> Conventional(door, f))
      && multiset(fs)[Text("close-write")] ==
         (if door.WebSocket? && sender.Client? && !t.fired && (a.CloseWrite? || (a.Close? && !t.closed))
             && a.answer.None? then 1 else 0)
      && (HasCloseFrame(fs) <==> door.WebSocket? && ((a.Close? && sender.Client? && !t.closed) || a.Finish?))
  {
    var fs := FramesOf(door, sender, t, a);
    if a.Close? && !t.closed && sender.Client? && door.WebSocket? {
      assert CloseFrame(1000) in fs;
    } else if a.Finish? && door.WebSocket? {
      assert fs[0] in fs && fs[0].CloseFrame?;
    }
  }

  lemma {:induction false} AllConventional(door: Door, sender: Side, t: Told, acts: seq<Act>)
    ensures forall f :: f in Frames(door, sender, t, acts) ==> Conventional(door, f)
    decreases |acts|
  {
    if acts != [] {
      FramesOfMeans(door, sender, t, acts[0]);
      hide FramesOf, After, Conventional;
      AllConventional(door, sender, After(door, sender, t, acts[0]), acts[1..]);
    }
  }

  lemma {:induction false} CloseWritesCounted(door: Door, sender: Side, t: Told, acts: seq<Act>)
    requires door.WebSocket? && sender.Client? && t.closed ==> t.fired
    ensures multiset(Frames(door, sender, t, acts))[Text("close-write")] ==
      if door.WebSocket? && sender.Client? && !t.fired && FirstWorks(acts) then 1 else 0
    decreases |acts|
  {
    if acts != [] {
      FramesOfMeans(door, sender, t, acts[0]);
      hide FramesOf;
      CloseWritesCounted(door, sender, After(door, sender, t, acts[0]), acts[1..]);
    }
  }

  lemma {:induction false} CloseFramesFound(door: Door, sender: Side, t: Told, acts: seq<Act>)
    ensures HasCloseFrame(Frames(door, sender, t, acts)) <==>
      door.WebSocket? && ((sender.Client? && !t.closed && Closes(acts)) || Finishes(acts))
    decreases |acts|
  {
    if acts != [] {
      FramesOfMeans(door, sender, t, acts[0]);
      var t1 := After(door, sender, t, acts[0]);
      assert t1.closed == (t.closed || acts[0].Close?);
      CloseFramesFound(door, sender, t1, acts[1..]);
      hide FramesOf, After;
      assert Closes(acts) <==> acts[0].Close? || Closes(acts[1..]) by { Front(acts); }
      assert Finishes(acts) <==> acts[0].Finish? || Finishes(acts[1..]) by { Front(acts); }
      EitherHas(FramesOf(door, sender, t, acts[0]), Frames(door, sender, t1, acts[1..]));
    }
  }

  lemma Front(acts: seq<Act>)
    requires acts != []
    ensures forall a :: a in acts <==> a == acts[0] || a in acts[1..]
  {
  }

  lemma EitherHas(now: seq<Frame>, later: seq<Frame>)
    ensures HasCloseFrame(now + later) <==> HasCloseFrame(now) || HasCloseFrame(later)
  {
    assert forall f :: f in now + later <==> f in now || f in later;
  }

  /** The conventions are kept in every run. A WebSocket carries binary messages for payload, the text close-write
      at most once and exactly if the client's first half-close went out, and a close frame exactly after the client's
      Close or the handler's return; a Connect stream carries data messages and its own end. */
  lemma ConventionsAreKept(door: Door, sender: Side, acts: seq<Act>)
    ensures var fs := Run(NewLink(door, sender), acts).0.frames;
      && (forall f :: f in fs ==> Conventional(door, f))
      && multiset(fs)[Text("close-write")] ==
         (if door.WebSocket? && sender.Client? && FirstWorks(acts) then 1 else 0)
      && (HasCloseFrame(fs) <==> door.WebSocket? && ((sender.Client? && Closes(acts)) || Finishes(acts)))
  {
    FramesAreTold(NewLink(door, sender), acts);
    AllConventional(door, sender, Told(false, false, false), acts);
    CloseWritesCounted(door, sender, Told(false, false, false), acts);
    CloseFramesFound(door, sender, Told(false, false, false), acts);
    var fs := Frames(door, sender, Told(false, false, false), acts);
    assert [] + fs == fs;
  }

  /** The payload on the wire, in order: what was put there before the end, then what came too late. */
  lemma {:induction false} PayloadOnTheWire(l: Link, acts: seq<Act>)
    requires DataIn(l.frames) == l.accepted + l.late && (l.finPut || l.late == [])
    ensures var l' := Run(l, acts).0; DataIn(l'.frames) == l'.accepted + l'.late
    decreases |acts|
  {
    if acts != [] {
      PayloadStep(l, acts[0]);
      hide Apply, DataIn;
      PayloadOnTheWire(Apply(l, acts[0]).0, acts[1..]);
    }
  }

  lemma PayloadStep(l: Link, a: Act)
    requires DataIn(l.frames) == l.accepted + l.late && (l.finPut || l.late == [])
    ensures var l' := Apply(l, a).0;
      DataIn(l'.frames) == l'.accepted + l'.late && (l'.finPut || l'.late == [])
  {
    var fs := FramesOf(l.door, l.sender, ToldOf(l), a);
    FramesStep(l, a);
    DataInConcat(l.frames, fs);
    NoPayload(fs);
    if a.Write? {
      WritePayload(l, a);
    } else {
      SameBytes(l, a);
    }
  }

  lemma NoPayload(fs: seq<Frame>)
    ensures |fs| <= 2 && (forall f :: f in fs ==> !f.Data? && !f.Binary?) ==> DataIn(fs) == []
    ensures forall b: bytes :: fs == [Data(b)] || fs == [Binary(b)] ==> DataIn(fs) == b
  {
    if |fs| == 2 {
      assert fs[1..][1..] == [] && fs[0] in fs && fs[1] in fs;
    } else if |fs| == 1 {
      assert fs[1..] == [] && fs[0] in fs;
    }
  }

  lemma WritePayload(l: Link, a: Act)
    requires a.Write?
    ensures var (l', fs) := (Apply(l, a).0, FramesOf(l.door, l.sender, ToldOf(l), a));
      && l'.finPut == l.finPut
      && (fs == [] ==> l'.accepted == l.accepted && l'.late == l.late)
      && (fs != [] ==> fs == [Data(a.b)] || fs == [Binary(a.b)])
      && (fs != [] && l.finPut ==> l'.accepted == l.accepted && l'.late == l.late + a.b)
      && (fs != [] && !l.finPut ==> l'.accepted == l.accepted + a.b && l'.late == l.late)
  {
  }

  lemma SameBytes(l: Link, a: Act)
    requires !a.Write?
    ensures var (l', fs) := (Apply(l, a).0, FramesOf(l.door, l.sender, ToldOf(l), a));
      && l'.accepted == l.accepted && l'.late == l.late && (l.finPut ==> l'.finPut)
      && |fs| <= 2 && (forall f :: f in fs ==> !f.Data? && !f.Binary?)
  {
  }

  /** An error once reported is how the direction stays ended. */
  lemma {:induction false} PipeRunReports(owned: bool, p: Pipe, acts: seq<Act>, os: seq<Obs>, p': Pipe)
    requires PipeInv(p) && IsPipeRun(owned, p, acts, os, p')
    ensures p.reported ==> p'.reported && p'.fin == p.fin && p'.delivered == p.delivered
    ensures forall i :: 0 <= i < |os| && os[i].Received? && os[i].read.Failed? ==>
        p'.reported && p'.fin == Some(os[i].read.err)
    decreases |acts|
  {
    if acts != [] {
      var q :| PipeNext(p, acts[0], q, os[0]) && Settled(owned, p, acts[0], q)
          && IsPipeRun(owned, q, acts[1..], os[1..], p');
      PipeStep(p, acts[0], q, os[0]);
      assert os[0].Received? && os[0].read.Failed? ==> q.reported && q.fin == Some(os[0].read.err);
      hide PipeNext, PipeInv, Settled;
      PipeRunReports(owned, q, acts[1..], os[1..], p');
      forall i | 0 <= i < |os| && os[i].Received? && os[i].read.Failed?
        ensures p'.reported && p'.fin == Some(os[i].read.err)
      {
        if i > 0 {
          assert os[i] == os[1..][i - 1];
        }
      }
    }
  }

  /** FIN propagation is exact. Through either door, for every interleaving of writes, half-closes, closes, reads,
      the handler's return and losses: what was read is a prefix of what was written before the direction was first
      ended; when a Read reports EOF it is all of it. So no byte written after the FIN is ever delivered, although
      Write does not refuse it. */
  lemma DeliveryIsExact(door: Door, sender: Side, acts: seq<Act>, i: nat)
    ensures var (l, os) := Run(NewLink(door, sender), acts);
      var sent := BeforeEnd(door.WebSocket?, sender, acts, false, false, false);
      && |os| == |acts|
      && l.returned == BytesRead(os) <= sent
      && (i < |os| && os[i] == Received(Failed(Eof)) ==> l.readErr.Some? && BytesRead(os) == sent)
      && (l.readErr == Some(Eof) ==> BytesRead(os) == sent)
  {
    hide LinkInv, IsPipeRun, BeforeEnd, Run, BytesRead, AsReader, PipeInv;
    var (l, os) := Run(NewLink(door, sender), acts);
    var sent := BeforeEnd(door.WebSocket?, sender, acts, false, false, false);
    var p := Abs(l);
    NewPipeInv(sender);
    BothDoorsRefineOnePipe(door, sender, acts);
    PipeRunMeaning(door.WebSocket?, NewPipe(sender), acts, os, p);
    PipeRunReports(door.WebSocket?, NewPipe(sender), acts, os, p);
    assert [] + BytesRead(os) == BytesRead(os) && [] + sent == sent;
    InvMeansPrefix(p);
    LatchedIsHowItEnded(l);
  }

  lemma LatchedIsHowItEnded(l: Link)
    ensures l.readErr.Some? ==> Abs(l).reported && Abs(l).fin == l.readErr
  {
  }

  lemma NewPipeInv(sender: Side)
    ensures PipeInv(NewPipe(sender))
  {
  }

  lemma InvMeansPrefix(p: Pipe)
    requires PipeInv(p)
    ensures p.delivered <= p.accepted && (p.reported && p.fin == Some(Eof) ==> p.delivered == p.accepted)
  {
  }

  lemma EofIsRead(l: Link)
    requires l.sender.Client? && l.rest == [] && l.readErr.None? && l.wire != [] && l.wire[0] == FinFrame(l.door)
    ensures var (l1, o1) := Apply(l, Read(1));
      o1 == Received(Failed(Eof)) && Apply(l1, Read(1)).1 == Received(Failed(Eof)) && l1.late == l.late
      && Apply(l1, Read(1)).0.late == l.late
  {
    assert AsReader(l).inbox[0] == Decode(Agent, l.wire[0]);
  }

  /** Write really does not refuse after a half-close: the bytes go on the wire, behind the FIN, and are lost. */
  lemma WriteAfterFinIsAcceptedAndLost(door: Door)
    ensures var acts := [CloseWrite(None), Write([7], None, false), Read(1), Read(1)];
      var (l, os) := Run(NewLink(door, Client), acts);
      os[1] == Sent(Wrote(1)) && l.late == [7] && os[2] == os[3] == Received(Failed(Eof))
  {
    var l0 := NewLink(door, Client);
    var l1 := Apply(l0, CloseWrite(None)).0;
    var l2 := Apply(l1, Write([7], None, false)).0;
    assert l2.wire == [FinFrame(door), DataFrame(door, [7])] && l2.late == [7];
    EofIsRead(l2);
    hide Apply;
    RunCons(l0, CloseWrite(None), [Write([7], None, false), Read(1), Read(1)]);
    RunCons(l1, Write([7], None, false), [Read(1), Read(1)]);
    RunCons(l2, Read(1), [Read(1)]);
    RunCons(Apply(l2, Read(1)).0, Read(1), []);
    assert [CloseWrite(None)] + [Write([7], None, false), Read(1), Read(1)]
        == [CloseWrite(None), Write([7], None, false), Read(1), Read(1)];
    assert [Write([7], None, false)] + [Read(1), Read(1)] == [Write([7], None, false), Read(1), Read(1)];
    assert [Read(1)] + [Read(1)] == [Read(1), Read(1)] && [Read(1)] + [] == [Read(1)];
  }

  /** A Write on the link is WriteStep on the sender's half, as Conn.Write is. */
  lemma WriteIsWriteStep(l: Link, w: Writer, b: bytes, answer: Option<Error>, put: bool)
    requires w.err == l.writeErr
    ensures var (w', o) := WriteStep(w, b, answer);
      Apply(l, Write(b, answer, put)).1 == Sent(o) && Apply(l, Write(b, answer, put)).0.writeErr == w'.err
  {
  }

  /** Nothing in these calls ends the direction but a half-close. */
  predicate Unended(acts: seq<Act>) {
    forall a :: a in acts ==> !a.Close? && !a.Finish? && !a.Break?
  }

  /** The first half-close among these calls is answered with an error. */
  predicate FirstFails(acts: seq<Act>) {
    acts != [] && if acts[0].CloseWrite? then acts[0].answer.Some? else FirstFails(acts[1..])
  }

  /** Spent in vain: no half-close will be attempted any more, and the direction is open. A WebSocket client's conn
      comes to that exactly by a first half-close that failed, with nothing else to end the direction. */
  lemma {:induction false} SpentInVainExactly(l: Link, acts: seq<Act>)
    requires l.door.WebSocket? && l.sender.Client? && (l.closed ==> l.finPut)
    ensures var l' := Run(l, acts).0;
      l'.finFired && !l'.finPut <==> !l.finPut && Unended(acts) && (l.finFired || FirstFails(acts))
    decreases |acts|
  {
    if acts != [] {
      var l1 := Apply(l, acts[0]).0;
      assert Unended(acts) <==> Unended([acts[0]]) && Unended(acts[1..]) by { UnendedFront(acts); }
      assert acts[0] in [acts[0]];
      SpendStep(l, acts[0]);
      hide Apply, Unended;
      SpentInVainExactly(l1, acts[1..]);
    }
  }

  lemma UnendedFront(acts: seq<Act>)
    requires acts != []
    ensures Unended(acts) <==> Unended([acts[0]]) && Unended(acts[1..])
  {
    assert acts == [acts[0]] + acts[1..];
    assert forall a :: a in acts <==> a in [acts[0]] || a in acts[1..];
  }

  lemma SpendStep(l: Link, a: Act)
    requires l.door.WebSocket? && l.sender.Client? && (l.closed ==> l.finPut)
    ensures var l1 := Apply(l, a).0;
      && l1.door == l.door && l1.sender == l.sender && (l1.closed ==> l1.finPut) && (l.finPut ==> l1.finPut)
      && (Unended([a]) <==> !a.Close? && !a.Finish? && !a.Break?)
      && (a.Close? || a.Finish? || a.Break? ==> l1.finPut)
      && (a.CloseWrite? && !l.finFired ==> (l1.finPut <==> l.finPut || a.answer.None?) && l1.finFired)
      && (!a.CloseWrite? || l.finFired ==> Unended([a]) ==> l1.finFired == l.finFired && l1.finPut == l.finPut)
  {
    assert a in [a];
  }

  /** Over Connect an attempt that failed can be made again, so none is ever spent in vain. */
  lemma {:induction false} NeverSpentInVain(l: Link, acts: seq<Act>)
    requires l.door.Connect? && (l.finFired ==> l.finPut)
    ensures var l' := Run(l, acts).0; l'.finFired ==> l'.finPut
    decreases |acts|
  {
    if acts != [] {
      ConnectStep(l, acts[0]);
      hide Apply;
      NeverSpentInVain(Apply(l, acts[0]).0, acts[1..]);
    }
  }

  lemma ConnectStep(l: Link, a: Act)
    requires l.door.Connect? && (l.finFired ==> l.finPut)
    ensures var l1 := Apply(l, a).0; l1.door.Connect? && (l1.finFired ==> l1.finPut)
  {
  }

  /** A half-close that reports success has ended the client's direction, exactly unless the conn is a WebSocket's,
      its first half-close failed, and nothing else ended the direction: then nothing is sent, and it stays open. */
  lemma ReportedHalfCloseExactly(door: Door, acts: seq<Act>, answer: Option<Error>)
    ensures var l := Run(NewLink(door, Client), acts).0;
      var (l', o) := Apply(l, CloseWrite(answer));
      o == HalfClosed(None) ==> (l'.finPut <==> !(door.WebSocket? && Unended(acts) && FirstFails(acts)))
  {
    var l0 := NewLink(door, Client);
    var l := Run(l0, acts).0;
    SameRunEnds(l0, acts);
    if door.WebSocket? {
      SpentInVainExactly(l0, acts);
    } else {
      NeverSpentInVain(l0, acts);
    }
    hide Run, Unended, FirstFails;
  }

  lemma {:induction false} SameRunEnds(l: Link, acts: seq<Act>)
    ensures Run(l, acts).0.door == l.door && Run(l, acts).0.sender == l.sender
    decreases |acts|
  {
    if acts != [] {
      SameEnds(l, acts[0]);
      hide Apply;
      SameRunEnds(Apply(l, acts[0]).0, acts[1..]);
    }
  }

  // ---------------------------------------------------------------- both directions

  datatype Duplex = Duplex(up: Link, down: Link)

  /** Up and Down are the two directions' own steps, Close among them; AgentReturn is the agent's handler returning,
      which concerns both. */
  type OwnAct = a: Act | !a.Finish? witness Refuse

  datatype DuplexAct = Up(act: OwnAct) | Down(act: OwnAct) | AgentReturn(ok: bool)

  function NewDuplex(door: Door): Duplex {
    Duplex(NewLink(door, Client), NewLink(door, Agent))
  }

  /** What a step of one direction does to the other: a Close that owns the socket, on either side, cancels the
      reads of the conn it closes. */
  function Across(door: Door, closed: bool, a: Act): seq<Act> {
    if a.Close? && !closed && door.WebSocket? then [Break(0)] else []
  }

  /** The step reads a close frame. */
  predicate Hears(l: Link, a: Act) {
    a.Read? &&
    var r := ReadStep(AsReader(l), a.size).0;
    ReadStepMeaning(AsReader(l), a.size);
    HasCloseFrame(l.wire[..|l.wire| - |r.inbox|])
  }

  /** A close frame is for both directions: whoever reads it has lost the socket for writing too. */
  function Shut(l: Link, heard: bool): Link {
    if heard && !l.finPut then Apply(l, Break(0)).0 else l
  }

  /** The handler returning ends the response direction and leaves nobody on the request direction. */
  function DuplexApply(t: Duplex, a: DuplexAct): (Duplex, Obs) {
    match a
    case Up(act) =>
      var (l, o) := Apply(t.up, act);
      (Duplex(l, Shut(Run(t.down, Across(t.up.door, t.up.closed, act)).0, Hears(t.up, act))), o)
    case Down(act) =>
      var (l, o) := Apply(t.down, act);
      (Duplex(Shut(Run(t.up, Across(t.down.door, t.down.closed, act)).0, Hears(t.down, act)), l), o)
    case AgentReturn(ok) =>
      (Duplex(Apply(t.up, Break(0)).0, Apply(t.down, Finish(ok)).0), Silent)
  }

  function DuplexRun(t: Duplex, acts: seq<DuplexAct>): (r: (Duplex, seq<Obs>))
    ensures |r.1| == |acts|
    decreases |acts|
  {
    if acts == [] then (t, [])
    else
      var (t1, o) := DuplexApply(t, acts[0]);
      var (t2, os) := DuplexRun(t1, acts[1..]);
      (t2, [o] + os)
  }

  /** What one step comes to in each direction, told from the steps alone. */
  function UpStep(door: Door, downClosed: bool, a: DuplexAct): seq<Act> {
    match a
    case Up(act) => [act]
    case Down(act) => Across(door, downClosed, act)
    case AgentReturn(_) => [Break(0)]
  }

  function DownStep(door: Door, upClosed: bool, a: DuplexAct): seq<Act> {
    match a
    case Up(act) => Across(door, upClosed, act)
    case Down(act) => [act]
    case AgentReturn(ok) => [Finish(ok)]
  }

  function UpActs(door: Door, downClosed: bool, acts: seq<DuplexAct>): seq<Act>
    decreases |acts|
  {
    if acts == [] then []
    else
      var closing := acts[0].Down? && acts[0].act.Close?;
      UpStep(door, downClosed, acts[0]) + UpActs(door, downClosed || closing, acts[1..])
  }

  function DownActs(door: Door, upClosed: bool, acts: seq<DuplexAct>): seq<Act>
    decreases |acts|
  {
    if acts == [] then []
    else
      var closing := acts[0].Up? && acts[0].act.Close?;
      DownStep(door, upClosed, acts[0]) + DownActs(door, upClosed || closing, acts[1..])
  }

  lemma {:induction false} RunInParts(l: Link, a: seq<Act>, b: seq<Act>)
    ensures Run(l, a + b).0 == Run(Run(l, a).0, b).0
    decreases |a|
  {
    if a == [] {
      assert a + b == b;
    } else {
      assert (a + b)[1..] == a[1..] + b && (a + b)[0] == a[0];
      hide Apply;
      RunInParts(Apply(l, a[0]).0, a[1..], b);
    }
  }

  lemma RunOne(l: Link, a: Act)
    ensures Run(l, [a]).0 == Apply(l, a).0
  {
    assert [a][1..] == [];
  }

  /** Whatever the state, forged frames included: a close frame that is read ends the reader's own direction too. */
  lemma CloseFrameEndsBoth(t: Duplex, size: nat)
    ensures Hears(t.up, Read(size)) ==> DuplexApply(t, Up(Read(size))).0.down.finPut
    ensures Hears(t.down, Read(size)) ==> DuplexApply(t, Down(Read(size))).0.up.finPut
  {
    hide ReadStep, Hears;
  }

  /** A close frame is under way in one direction only when the other has ended. */
  ghost predicate NoStrayClose(t: Duplex) {
    (HasCloseFrame(t.up.wire) ==> t.down.finPut) && (HasCloseFrame(t.down.wire) ==> t.up.finPut)
  }

  /** Where a close frame comes from. */
  lemma CloseFrameComes(l: Link, a: Act)
    ensures var l' := Apply(l, a).0;
      && (l.finPut ==> l'.finPut) && (a.Break? ==> l'.finPut)
      && (HasCloseFrame(l'.wire) ==>
            || HasCloseFrame(l.wire)
            || (a.Close? && !l.closed && SendsCloseFrame(l)) || (a.Finish? && l.door.WebSocket?))
  {
    hide ReadStep;
  }

  lemma HeardMeansEnded(t: Duplex, a: Act)
    requires NoStrayClose(t)
    ensures (Hears(t.up, a) ==> t.down.finPut) && (Hears(t.down, a) ==> t.up.finPut)
  {
    hide ReadStep;
    if Hears(t.up, a) {
      var r := ReadStep(AsReader(t.up), a.size).0;
      ReadStepMeaning(AsReader(t.up), a.size);
      assert forall f :: f in t.up.wire[..|t.up.wire| - |r.inbox|] ==> f in t.up.wire;
    }
    if Hears(t.down, a) {
      var r := ReadStep(AsReader(t.down), a.size).0;
      ReadStepMeaning(AsReader(t.down), a.size);
      assert forall f :: f in t.down.wire[..|t.down.wire| - |r.inbox|] ==> f in t.down.wire;
    }
  }

  /** Close alone changes whether a link is closed, and nothing changes its ends. No close frame is read that would
      end a direction still open: only Close and the handler's return send one, and they end both. */
  lemma DuplexStep(t: Duplex, a: DuplexAct)
    requires t.up.door == t.down.door && NoStrayClose(t)
    ensures var t1 := DuplexApply(t, a).0;
      && NoStrayClose(t1)
      && t1.up == Run(t.up, UpStep(t.up.door, t.down.closed, a)).0
      && t1.down == Run(t.down, DownStep(t.up.door, t.up.closed, a)).0
      && t1.up.door == t1.down.door == t.up.door
      && t1.up.closed == (t.up.closed || (a.Up? && a.act.Close?))
      && t1.down.closed == (t.down.closed || (a.Down? && a.act.Close?))
  {
    RunOne(t.up, if a.Up? then a.act else Break(0));
    RunOne(t.up, Break(0));
    RunOne(t.down, Break(0));
    CloseFrameComes(t.up, Break(0));
    CloseFrameComes(t.down, Break(0));
    if a.Up? || a.Down? {
      RunOne(t.down, a.act);
      SameEnds(t.up, a.act);
      SameEnds(t.down, a.act);
      ClosesOnly(t.up, a.act);
      ClosesOnly(t.down, a.act);
      HeardMeansEnded(t, a.act);
      CloseFrameComes(t.up, a.act);
      CloseFrameComes(t.down, a.act);
    } else {
      RunOne(t.down, Finish(a.ok));
      CloseFrameComes(t.down, Finish(a.ok));
    }
    hide ReadStep, Hears, HasCloseFrame;
  }

  lemma ClosesOnly(l: Link, a: Act)
    ensures Apply(l, a).0.closed == (l.closed || a.Close?)
  {
  }

  /** Half-close independence. The directions meet in two places only, the handler's return and a Close that owns
      the socket: each goes through exactly the run it would go through alone, with a break where the other closed.
      Writing, half-closing, reading EOF or failing in one changes nothing in the other. */
  lemma {:induction false} DirectionsAreIndependent(t: Duplex, acts: seq<DuplexAct>)
    requires t.up.door == t.down.door && NoStrayClose(t)
    ensures var t' := DuplexRun(t, acts).0;
      && t'.up == Run(t.up, UpActs(t.up.door, t.down.closed, acts)).0
      && t'.down == Run(t.down, DownActs(t.up.door, t.up.closed, acts)).0
    decreases |acts|
  {
    if acts != [] {
      var door := t.up.door;
      var t1 := DuplexApply(t, acts[0]).0;
      DuplexStep(t, acts[0]);
      hide DuplexApply, Apply, UpStep, DownStep;
      DirectionsAreIndependent(t1, acts[1..]);
      RunInParts(t.up, UpStep(door, t.down.closed, acts[0]), UpActs(door, t1.down.closed, acts[1..]));
      RunInParts(t.down, DownStep(door, t.up.closed, acts[0]), DownActs(door, t1.up.closed, acts[1..]));
    }
  }

  /** Both directions of every run, returns and closes included, are runs of the pipe. */
  lemma DuplexRefines(door: Door, acts: seq<DuplexAct>)
    ensures var t := DuplexRun(NewDuplex(door), acts).0;
      var (ups, downs) := (UpActs(door, false, acts), DownActs(door, false, acts));
      && LinkInv(t.up) && LinkInv(t.down)
      && IsPipeRun(door.WebSocket?, NewPipe(Client), ups, Run(NewLink(door, Client), ups).1, Abs(t.up))
      && IsPipeRun(door.WebSocket?, NewPipe(Agent), downs, Run(NewLink(door, Agent), downs).1, Abs(t.down))
  {
    DirectionsAreIndependent(NewDuplex(door), acts);
    BothDoorsRefineOnePipe(door, Client, UpActs(door, false, acts));
    BothDoorsRefineOnePipe(door, Agent, DownActs(door, false, acts));
    assert Inbox(Agent, []) == [] && Inbox(Client, []) == [];
    RunRefines(NewLink(door, Client), UpActs(door, false, acts));
    RunRefines(NewLink(door, Agent), DownActs(door, false, acts));
  }

  /** Delivery is exact in both directions of every run: whoever writes, half-closes, closes, reads or returns, and
      whatever the transport loses, each reader has a prefix of what was sent to it before the end, and all of it
      once told EOF. */
  lemma DuplexDelivery(door: Door, acts: seq<DuplexAct>)
    ensures var t := DuplexRun(NewDuplex(door), acts).0;
      var owned := door.WebSocket?;
      var up := BeforeEnd(owned, Client, UpActs(door, false, acts), false, false, false);
      var down := BeforeEnd(owned, Agent, DownActs(door, false, acts), false, false, false);
      && t.up.returned <= up && (t.up.readErr == Some(Eof) ==> t.up.returned == up)
      && t.down.returned <= down && (t.down.readErr == Some(Eof) ==> t.down.returned == down)
  {
    DirectionsAreIndependent(NewDuplex(door), acts);
    DeliveryIsExact(door, Client, UpActs(door, false, acts), 0);
    DeliveryIsExact(door, Agent, DownActs(door, false, acts), 0);
  }
}
