/** streamconn.Conn: a net.Conn made of stream callbacks.
    `Reader`/`ReadStep` and `Writer`/`WriteStep` specify the two halves on values; class `Conn` is the
    object itself, proved against them. What the callbacks answer comes from the transport, so it is an input:
    `inbox` lists what recv returns, in order, and each send or close call is given its answer. */
module StreamConn {
  import opened Prelude

  datatype RecvResult = Chunk(data: bytes) | Stop(cause: Error)

  /** `Waiting` is a Read that has not returned: recv has nothing to hand over yet. */
  datatype ReadResult = Got(data: bytes) | Failed(err: Error) | Waiting

  function Normalize(e: Error): Error {
    if IsEof(e) then Eof else e
  }

  // ---------------------------------------------------------------- reading

  datatype Reader = Reader(rest: bytes, err: Option<Error>, inbox: seq<RecvResult>, calls: nat)

  function ReadStep(r: Reader, size: nat): (Reader, ReadResult)
    decreases |r.inbox|
  {
    if r.rest != [] then
      var n := Min(size, |r.rest|);
      (r.(rest := r.rest[n..]), Got(r.rest[..n]))
    else if r.err.Some? then
      (r, Failed(r.err.value))
    else if r.inbox == [] then
      (r, Waiting)
    else
      var r' := r.(inbox := r.inbox[1..], calls := r.calls + 1);
      match r.inbox[0]
      case Stop(cause) => (r'.(err := Some(Normalize(cause))), Failed(Normalize(cause)))
      case Chunk(data) => ReadStep(r'.(rest := data), size)
  }

  /** The bytes a list of recv results carries before the first failure. */
  function Payload(inbox: seq<RecvResult>): bytes {
    if inbox == [] || inbox[0].Stop? then [] else inbox[0].data + Payload(inbox[1..])
  }

  /** The first failure in a list of recv results, as Read reports it. */
  function FirstStop(inbox: seq<RecvResult>): Option<Error> {
    if inbox == [] then None
    else if inbox[0].Stop? then Some(Normalize(inbox[0].cause))
    else FirstStop(inbox[1..])
  }

  /** Bytes still to be returned, and the error that follows them (None: not arrived yet). */
  function Pending(r: Reader): bytes {
    r.rest + if r.err.Some? then [] else Payload(r.inbox)
  }

  function Ending(r: Reader): Option<Error> {
    if r.err.Some? then r.err else FirstStop(r.inbox)
  }

  /** One Read, said without its loop: it hands over the next pending bytes if there are any, fails exactly
      when none are left and the stream has ended, and never calls recv past the first failure. */
  lemma {:induction false} ReadStepMeaning(r: Reader, size: nat)
    ensures var (r', o) := ReadStep(r, size);
      && (o.Got? <==> Pending(r) != [])
      && (o.Failed? <==> Pending(r) == [] && Ending(r).Some?)
      && (o.Got? ==> o.data + Pending(r') == Pending(r) && |o.data| <= size && (size > 0 ==> o.data != []))
      && (o.Failed? ==> Some(o.err) == Ending(r) && r'.err == Ending(r) && Pending(r') == [])
      && (o.Waiting? ==> r'.inbox == [] && Pending(r') == [])
      && (!o.Failed? ==> r'.err == r.err)
      && Ending(r') == Ending(r)
      && (r.err.Some? ==> r'.inbox == r.inbox && r'.calls == r.calls)
      && |r'.inbox| <= |r.inbox|
      && r'.inbox == r.inbox[|r.inbox| - |r'.inbox|..]
      && r'.calls == r.calls + |r.inbox| - |r'.inbox|
    decreases |r.inbox|
  {
    ReadStepCalls(r, size);
    if r.rest != [] {
      var n := Min(size, |r.rest|);
      assert r.rest == r.rest[..n] + r.rest[n..];
    } else if r.err.None? && r.inbox != [] && r.inbox[0].Chunk? {
      var r1 := r.(inbox := r.inbox[1..], calls := r.calls + 1, rest := r.inbox[0].data);
      assert Pending(r1) == Pending(r);
      ReadStepMeaning(r1, size);
    }
  }

  /** How much of the inbox one Read takes. */
  lemma {:induction false} ReadStepCalls(r: Reader, size: nat)
    ensures var r' := ReadStep(r, size).0;
      && (r.err.Some? ==> r'.inbox == r.inbox && r'.calls == r.calls)
      && |r'.inbox| <= |r.inbox|
      && r'.inbox == r.inbox[|r.inbox| - |r'.inbox|..]
      && r'.calls == r.calls + |r.inbox| - |r'.inbox|
    decreases |r.inbox|
  {
    if r.rest == [] && r.err.None? && r.inbox != [] && r.inbox[0].Chunk? {
      var r1 := r.(inbox := r.inbox[1..], calls := r.calls + 1, rest := r.inbox[0].data);
      assert ReadStep(r, size) == ReadStep(r1, size);
      hide ReadStep;
      ReadStepCalls(r1, size);
      var r' := ReadStep(r1, size).0;
      assert r1.inbox[|r1.inbox| - |r'.inbox|..] == r.inbox[|r.inbox| - |r'.inbox|..];
    }
  }

  /** Reads with the given buffer sizes, one after the other. */
  function ReadAll(r: Reader, sizes: seq<nat>): (Reader, seq<ReadResult>)
    decreases |sizes|
  {
    if sizes == [] then (r, [])
    else
      var (r1, o) := ReadStep(r, sizes[0]);
      var (r2, os) := ReadAll(r1, sizes[1..]);
      (r2, [o] + os)
  }

  /** The bytes a sequence of Reads returned. */
  function Returned(os: seq<ReadResult>): bytes {
    if os == [] then []
    else (if os[0].Got? then os[0].data else []) + Returned(os[1..])
  }

  /** Chunking independence. However the stream was cut into chunks and whatever buffers the caller brings, the
      bytes returned are a prefix of the stream, nothing is lost between calls, and a failing Read means every
      byte before the failure has been returned. */
  lemma {:induction false} ChunkingIndependence(r: Reader, sizes: seq<nat>)
    ensures var (r', os) := ReadAll(r, sizes);
      && |os| == |sizes|
      && Returned(os) + Pending(r') == Pending(r)
      && Returned(os) <= Pending(r)
      && Ending(r') == Ending(r)
      && (forall i :: 0 <= i < |os| && os[i].Failed? ==> Returned(os) == Pending(r) && Some(os[i].err) == Ending(r))
    decreases |sizes|
  {
    if sizes != [] {
      ReadStepMeaning(r, sizes[0]);
      hide ReadStep, Payload, FirstStop, Pending, Ending;
      var (r1, o) := ReadStep(r, sizes[0]);
      ChunkingIndependence(r1, sizes[1..]);
      var (r2, os) := ReadAll(r1, sizes[1..]);
      OneMoreRead(Pending(r), Pending(r1), Pending(r2), Ending(r), o, os);
      hide Returned;
    }
  }

  /** What a Read in front adds to those behind it. */
  lemma OneMoreRead(before: bytes, between: bytes, after: bytes, end: Option<Error>, o: ReadResult,
                    os: seq<ReadResult>)
    requires Returned(os) + after == between
    requires forall i :: 0 <= i < |os| && os[i].Failed? ==> Returned(os) == between && Some(os[i].err) == end
    requires if o.Got? then o.data + between == before else between == before == []
    requires o.Failed? ==> Some(o.err) == end
    ensures var all := [o] + os;
      && Returned(all) + after == before && Returned(all) <= before
      && (forall i :: 0 <= i < |all| && all[i].Failed? ==> Returned(all) == before && Some(all[i].err) == end)
  {
    var all := [o] + os;
    assert all[0] == o && all[1..] == os;
    Prepend(if o.Got? then o.data else [], Returned(os), after, between, before);
    if o.Failed? {
      assert Returned(os) == [] && between == [];
    }
    forall i | 0 <= i < |all| && all[i].Failed? ensures Returned(all) == before && Some(all[i].err) == end {
      if i > 0 {
        assert all[i] == os[i - 1];
      }
    }
  }

  lemma Prepend(a: bytes, b: bytes, c: bytes, bc: bytes, abc: bytes)
    requires b + c == bc && a + bc == abc
    ensures a + b + c == abc && a + b <= abc
  {
    assert a + b + c == a + (b + c);
  }

  lemma {:induction false} FailedMeansLatched(r: Reader, size: nat)
    ensures var (r', o) := ReadStep(r, size); o.Failed? ==> r'.err == Some(o.err) && r'.rest == []
    decreases |r.inbox|
  {
    if r.rest == [] && r.err.None? && r.inbox != [] && r.inbox[0].Chunk? {
      FailedMeansLatched(r.(inbox := r.inbox[1..], calls := r.calls + 1, rest := r.inbox[0].data), size);
    }
  }

  lemma {:induction false} AfterFailure(r: Reader, sizes: seq<nat>)
    requires r.err.Some? && r.rest == []
    decreases |sizes|
    ensures ReadAll(r, sizes).0 == r
    ensures |ReadAll(r, sizes).1| == |sizes|
    ensures forall j :: 0 <= j < |sizes| ==> ReadAll(r, sizes).1[j] == Failed(r.err.value)
  {
    if sizes != [] {
      AfterFailure(r, sizes[1..]);
    }
  }

  lemma {:induction false} LastFailureLatches(r: Reader, sizes: seq<nat>)
    requires sizes != []
    ensures var (r', os) := ReadAll(r, sizes);
      && |os| == |sizes|
      && (os[|os| - 1].Failed? ==> r'.err == Some(os[|os| - 1].err) && r'.rest == [])
    decreases |sizes|
  {
    if |sizes| == 1 {
      FailedMeansLatched(r, sizes[0]);
      assert sizes[1..] == [];
    } else {
      hide ReadStep;
      LastFailureLatches(ReadStep(r, sizes[0]).0, sizes[1..]);
    }
  }

  lemma {:induction false} ReadAllInParts(r: Reader, a: seq<nat>, b: seq<nat>)
    ensures var (r1, os1) := ReadAll(r, a);
      var (r2, os2) := ReadAll(r1, b);
      ReadAll(r, a + b) == (r2, os1 + os2)
    decreases |a|
  {
    hide ReadStep;
    if a == [] {
      assert a + b == b && [] + ReadAll(r, b).1 == ReadAll(r, b).1;
    } else {
      assert (a + b)[1..] == a[1..] + b && (a + b)[0] == a[0];
      var (r1, o) := ReadStep(r, a[0]);
      ReadAllInParts(r1, a[1..], b);
      var (ra, os1) := ReadAll(r1, a[1..]);
      var os2 := ReadAll(ra, b).1;
      assert [o] + (os1 + os2) == [o] + os1 + os2;
    }
  }

  /** The first error is latched: once a Read failed, every later Read fails with the same error and recv is
      not called again. */
  lemma ErrorIsLatched(r: Reader, sizes: seq<nat>, i: nat)
    requires i < |sizes|
    ensures var (r', os) := ReadAll(r, sizes);
      && |os| == |sizes|
      && (os[i].Failed? ==>
        && (forall j :: i <= j < |os| ==> os[j] == os[i])
        && r'.calls == ReadAll(r, sizes[..i + 1]).0.calls)
  {
    var a, b := sizes[..i + 1], sizes[i + 1..];
    assert sizes == a + b;
    LastFailureLatches(r, a);
    ReadAllInParts(r, a, b);
    ReadAllLength(ReadAll(r, a).0, b);
    if ReadAll(r, a).1[i].Failed? {
      AfterFailure(ReadAll(r, a).0, b);
    }
  }

  lemma {:induction false} ReadAllLength(r: Reader, sizes: seq<nat>)
    ensures |ReadAll(r, sizes).1| == |sizes|
    decreases |sizes|
  {
    if sizes != [] {
      ReadAllLength(ReadStep(r, sizes[0]).0, sizes[1..]);
    }
  }

  /** The error does surface: with non-empty buffers, no more Reads than pending bytes are needed to reach it. */
  lemma {:induction false} ErrorSurfaces(r: Reader, sizes: seq<nat>)
    requires Ending(r).Some? && |sizes| > |Pending(r)|
    requires forall i :: 0 <= i < |sizes| ==> sizes[i] > 0
    ensures |ReadAll(r, sizes).1| == |sizes|
    ensures exists i :: 0 <= i < |sizes| && ReadAll(r, sizes).1[i] == Failed(Ending(r).value)
    decreases |sizes|
  {
    ReadStepMeaning(r, sizes[0]);
    ReadAllLength(r, sizes);
    hide ReadStep, Pending, Ending;
    var (r1, o) := ReadStep(r, sizes[0]);
    var os := ReadAll(r1, sizes[1..]).1;
    if o.Failed? {
      assert ([o] + os)[0] == Failed(Ending(r).value);
    } else {
      assert |Pending(r)| == |o.data| + |Pending(r1)|;
      ErrorSurfaces(r1, sizes[1..]);
      var i :| 0 <= i < |sizes[1..]| && os[i] == Failed(Ending(r).value);
      assert ([o] + os)[i + 1] == os[i];
    }
  }

  /** Two transports that carry the same bytes and the same ending, cut differently and read with different
      buffers, are indistinguishable by the time each has reported its error. */
  lemma SameStreamSameBytes(a: Reader, b: Reader, sizesA: seq<nat>, sizesB: seq<nat>, i: nat, j: nat)
    requires Pending(a) == Pending(b) && Ending(a) == Ending(b)
    requires i < |ReadAll(a, sizesA).1| && ReadAll(a, sizesA).1[i].Failed?
    requires j < |ReadAll(b, sizesB).1| && ReadAll(b, sizesB).1[j].Failed?
    ensures Returned(ReadAll(a, sizesA).1) == Returned(ReadAll(b, sizesB).1)
    ensures ReadAll(a, sizesA).1[i] == ReadAll(b, sizesB).1[j]
  {
    ChunkingIndependence(a, sizesA);
    ChunkingIndependence(b, sizesB);
  }

  // ---------------------------------------------------------------- writing

  datatype WriteResult = Wrote(n: nat) | WriteFailed(err: Error)

  /** The sending half: the latched error, whether Close has run, and the callbacks made so far. */
  datatype Writer = Writer(err: Option<Error>, closed: bool, sent: seq<bytes>, halfCloses: nat, releases: nat)

  function WriteStep(w: Writer, p: bytes, answer: Option<Error>): (Writer, WriteResult) {
    if w.err.Some? then (w, WriteFailed(w.err.value))
    else if p == [] then (w, Wrote(0))
    else if answer.Some? then
      (w.(err := Some(Normalize(answer.value)), sent := w.sent + [p]), WriteFailed(Normalize(answer.value)))
    else (w.(sent := w.sent + [p]), Wrote(|p|))
  }

  /** The calls made on the sending half, each with what the transport answers to it. */
  datatype Call =
    | CallWrite(p: bytes, answer: Option<Error>)
    | CallCloseWrite(answer: Option<Error>)
    | CallClose(sendAnswer: Option<Error>, closeAnswer: Option<Error>)

  datatype CallResult = WriteReturned(result: WriteResult) | CloseReturned(err: Option<Error>)

  /** Which optional callbacks were supplied. */
  datatype Callbacks = Callbacks(closeSend: bool, close: bool)

  function CloseWriteStep(k: Callbacks, w: Writer, answer: Option<Error>): (Writer, Option<Error>) {
    if k.closeSend then (w.(halfCloses := w.halfCloses + 1), answer) else (w, None)
  }

  function CloseStep(k: Callbacks, w: Writer, sendAnswer: Option<Error>, closeAnswer: Option<Error>)
    : (Writer, Option<Error>)
  {
    if w.closed then (w, None)
    else
      var (half, err) := CloseWriteStep(k, w, sendAnswer);
      (half.(releases := w.releases + if k.close then 1 else 0,
             err := if w.err.None? then Some(NetClosed) else w.err,
             closed := true),
       if err.None? && k.close then closeAnswer else err)
  }

  function CallStep(k: Callbacks, w: Writer, c: Call): (Writer, CallResult) {
    match c
    case CallWrite(p, answer) =>
      var (w', r) := WriteStep(w, p, answer);
      (w', WriteReturned(r))
    case CallCloseWrite(answer) =>
      var (w', err) := CloseWriteStep(k, w, answer);
      (w', CloseReturned(err))
    case CallClose(sendAnswer, closeAnswer) =>
      var (w', err) := CloseStep(k, w, sendAnswer, closeAnswer);
      (w', CloseReturned(err))
  }

  function Calls(k: Callbacks, w: Writer, calls: seq<Call>): (r: (Writer, seq<CallResult>))
    ensures |r.1| == |calls|
    decreases |calls|
  {
    if calls == [] then (w, [])
    else
      var (w1, o) := CallStep(k, w, calls[0]);
      var (w2, os) := Calls(k, w1, calls[1..]);
      (w2, [o] + os)
  }

  predicate Fails(o: CallResult) {
    o.WriteReturned? && o.result.WriteFailed?
  }

  /** What the Writes among these calls hand to the transport: each its non-empty bytes, until one has failed or
      Close was called. */
  function Handed(calls: seq<Call>, os: seq<CallResult>, refused: bool): seq<bytes>
    requires |os| == |calls|
    decreases |calls|
  {
    if calls == [] then []
    else
      (if calls[0].CallWrite? && calls[0].p != [] && !refused then [calls[0].p] else [])
      + Handed(calls[1..], os[1..], refused || calls[0].CallClose? || Fails(os[0]))
  }

  lemma CallStepHands(k: Callbacks, w: Writer, c: Call)
    requires w.closed ==> w.err.Some?
    ensures var (w1, o) := CallStep(k, w, c);
      && w1.sent == w.sent + (if c.CallWrite? && c.p != [] && w.err.None? then [c.p] else [])
      && (w1.err.Some? <==> w.err.Some? || c.CallClose? || Fails(o))
      && (w.err.Some? ==> w1.err == w.err) && (w1.closed ==> w1.err.Some?)
      && (Fails(o) ==> w1.err == Some(o.result.err)) && (w.err.Some? && c.CallWrite? ==> Fails(o))
      && (c.CallWrite? && !Fails(o) ==> o.result == Wrote(|c.p|))
  {
  }

  /** Nothing reaches the transport after the first Write that failed or after Close, whatever is called then. Until
      then every non-empty Write hands over its bytes, once and whole. */
  lemma {:induction false} NothingSentOnceRefused(k: Callbacks, w: Writer, calls: seq<Call>)
    requires w.closed ==> w.err.Some?
    ensures var (w', os) := Calls(k, w, calls); w'.sent == w.sent + Handed(calls, os, w.err.Some?)
    decreases |calls|
  {
    if calls != [] {
      CallStepHands(k, w, calls[0]);
      hide CallStep, Fails;
      var (w1, o) := CallStep(k, w, calls[0]);
      NothingSentOnceRefused(k, w1, calls[1..]);
      var os := Calls(k, w1, calls[1..]).1;
      assert ([o] + os)[1..] == os && ([o] + os)[0] == o;
    }
  }

  /** And every Write from there on fails, with the error of the first that did; the others report all their bytes.
      */
  lemma {:induction false} RefusedForGood(k: Callbacks, w: Writer, calls: seq<Call>, i: nat, j: nat)
    requires (w.closed ==> w.err.Some?) && i < j < |calls| && calls[j].CallWrite?
    ensures var os := Calls(k, w, calls).1;
      && (Fails(os[i]) ==> os[j] == os[i])
      && (calls[i].CallClose? ==> Fails(os[j]))
      && (!Fails(os[j]) ==> os[j] == WriteReturned(Wrote(|calls[j].p|)))
    decreases |calls|
  {
    CallStepHands(k, w, calls[0]);
    hide CallStep;
    var (w1, o) := CallStep(k, w, calls[0]);
    if i > 0 {
      RefusedForGood(k, w1, calls[1..], i - 1, j - 1);
    } else {
      LatchedWrite(k, w1, calls[1..], j - 1);
    }
  }

  lemma {:induction false} LatchedWrite(k: Callbacks, w: Writer, calls: seq<Call>, j: nat)
    requires (w.closed ==> w.err.Some?) && j < |calls| && calls[j].CallWrite?
    ensures var os := Calls(k, w, calls).1;
      && (w.err.Some? ==> os[j] == WriteReturned(WriteFailed(w.err.value)))
      && (!Fails(os[j]) ==> os[j] == WriteReturned(Wrote(|calls[j].p|)))
    decreases |calls|
  {
    CallStepHands(k, w, calls[0]);
    if j > 0 {
      hide CallStep;
      LatchedWrite(k, CallStep(k, w, calls[0]).0, calls[1..], j - 1);
    }
  }

  // ---------------------------------------------------------------- the object

  ghost function Contents(bufs: seq<array<byte>>): seq<bytes>
    reads bufs
  {
    seq(|bufs|, i requires 0 <= i < |bufs| reads bufs => bufs[i][..])
  }

  class Conn {
    var rest: bytes
    var readErr: Option<Error>
    var writeErr: Option<Error>
    var closeDone: bool
    /** Which optional callbacks were supplied. */
    const hasCloseSend: bool
    const hasClose: bool
    /** The transport's side: what recv hands over next, how often it was called, the buffers given to send
        (the very slices: nothing says the transport does not keep them), and the close callbacks made. */
    var inbox: seq<RecvResult>
    var recvCalls: nat
    var sent: seq<array<byte>>
    var halfCloses: nat
    var releases: nat

    constructor (hasCloseSend: bool, hasClose: bool, inbox: seq<RecvResult>)
      ensures ReadView() == Reader([], None, inbox, 0)
      ensures WriteView() == Writer(None, false, [], 0, 0)
      ensures this.hasCloseSend == hasCloseSend && this.hasClose == hasClose && sent == []
    {
      this.hasCloseSend, this.hasClose := hasCloseSend, hasClose;
      this.inbox, recvCalls := inbox, 0;
      rest, readErr, writeErr, closeDone := [], None, None, false;
      sent, halfCloses, releases := [], 0, 0;
    }

    ghost function ReadView(): Reader
      reads this
    {
      Reader(rest, readErr, inbox, recvCalls)
    }

    ghost function WriteView(): Writer
      reads this, sent
    {
      Writer(writeErr, closeDone, SentBytes(), halfCloses, releases)
    }

    ghost function Given(): Callbacks {
      Callbacks(hasCloseSend, hasClose)
    }

    ghost function SentBytes(): seq<bytes>
      reads this`sent, sent
    {
      Contents(sent)
    }

    /** Fills p, returning the bytes copied; the tail of p keeps what it held. */
    method Read(p: array<byte>) returns (n: nat, result: ReadResult)
      requires p !in sent
      modifies this`rest, this`readErr, this`inbox, this`recvCalls, p
      ensures (ReadView(), result) == ReadStep(old(ReadView()), p.Length)
      ensures n == if result.Got? then |result.data| else 0
      ensures n <= p.Length
      ensures p[..] == (if result.Got? then result.data else []) + old(p[..])[n..]
    {
      n := 0;
      while rest == []
        invariant p[..] == old(p[..])
        invariant ReadStep(ReadView(), p.Length) == ReadStep(old(ReadView()), p.Length)
        decreases |inbox|, |rest| == 0
      {
        if readErr.Some? {
          return 0, Failed(readErr.value);
        }
        if inbox == [] {
          return 0, Waiting;
        }
        var r := inbox[0];
        inbox, recvCalls := inbox[1..], recvCalls + 1;
        match r
        case Stop(cause) =>
          readErr := Some(Normalize(cause));
          return 0, Failed(readErr.value);
        case Chunk(data) =>
          rest := data;
      }
      n := Min(p.Length, |rest|);
      forall i | 0 <= i < n {
        p[i] := rest[i];
      }
      result := Got(rest[..n]);
      rest := rest[n..];
    }

    /** Sends buf[..n] as one chunk, from a copy: the buffer handed to the transport is a new one, so what the
        caller does with buf afterwards cannot change what was sent. */
    method Write(buf: array<byte>, n: nat, answer: Option<Error>) returns (result: WriteResult)
      requires n <= buf.Length
      modifies this`writeErr, this`sent
      ensures (WriteView(), result) == WriteStep(old(WriteView()), buf[..n], answer)
      ensures old(writeErr).Some? || n == 0 ==> sent == old(sent) && writeErr == old(writeErr)
      ensures old(writeErr).None? && n > 0 ==>
        && |sent| == |old(sent)| + 1 && sent[..|old(sent)|] == old(sent)
        && fresh(sent[|old(sent)|]) && sent[|old(sent)|][..] == buf[..n]
        && writeErr == if answer.Some? then Some(Normalize(answer.value)) else None
      ensures result == if writeErr.Some? then WriteFailed(writeErr.value) else Wrote(n)
      ensures ReadView() == old(ReadView())
    {
      if writeErr.Some? {
        return WriteFailed(writeErr.value);
      }
      if n == 0 {
        return Wrote(0);
      }
      var b := new byte[n](i requires 0 <= i < n <= buf.Length reads buf => buf[i]);
      assert b[..] == buf[..n];
      sent := sent + [b];
      assert Contents(sent) == old(Contents(sent)) + [buf[..n]];
      if answer.Some? {
        writeErr := Some(Normalize(answer.value));
        return WriteFailed(writeErr.value);
      }
      return Wrote(n);
    }

    /** Half-closes the sending direction. The latched write error is not touched: a later Write still sends. */
    method CloseWrite(answer: Option<Error>) returns (err: Option<Error>)
      modifies this`halfCloses
      ensures (WriteView(), err) == CloseWriteStep(Given(), old(WriteView()), answer)
      ensures WriteView() == old(WriteView()).(halfCloses := old(halfCloses) + if hasCloseSend then 1 else 0)
      ensures err == if hasCloseSend then answer else None
      ensures ReadView() == old(ReadView())
    {
      if !hasCloseSend {
        return None;
      }
      halfCloses := halfCloses + 1;
      return answer;
    }

    /** Half-closes, then releases the transport even if that failed, reports the first error, and refuses later
        Writes. Only the first call does anything. */
    method Close(sendAnswer: Option<Error>, closeAnswer: Option<Error>) returns (err: Option<Error>)
      modifies this`closeDone, this`halfCloses, this`releases, this`writeErr
      ensures (WriteView(), err) == CloseStep(Given(), old(WriteView()), sendAnswer, closeAnswer)
      ensures old(closeDone) ==> WriteView() == old(WriteView()) && err == None
      ensures !old(closeDone) ==>
        && halfCloses == old(halfCloses) + (if hasCloseSend then 1 else 0)
        && releases == old(releases) + (if hasClose then 1 else 0)
        && writeErr == (if old(writeErr).Some? then old(writeErr) else Some(NetClosed))
        && err == (if hasCloseSend && sendAnswer.Some? then sendAnswer else if hasClose then closeAnswer else None)
      ensures closeDone && sent == old(sent) && SentBytes() == old(SentBytes())
      ensures ReadView() == old(ReadView())
    {
      err := None;
      if closeDone {
        return;
      }
      if hasCloseSend {
        halfCloses := halfCloses + 1;
        err := sendAnswer;
      }
      if hasClose {
        releases := releases + 1;
        if err == None {
          err := closeAnswer;
        }
      }
      if writeErr.None? {
        writeErr := Some(NetClosed);
      }
      closeDone := true;
    }
  }

  /** The object goes through the calls as specified, whatever buffers their bytes come in. */
  method Drive(c: Conn, calls: seq<Call>)
    modifies c`writeErr, c`sent, c`halfCloses, c`closeDone, c`releases
    ensures c.WriteView() == Calls(c.Given(), old(c.WriteView()), calls).0
    ensures old(c.closeDone ==> c.writeErr.Some?) ==>
      c.SentBytes() == old(c.SentBytes()) + Handed(calls, Calls(c.Given(), old(c.WriteView()), calls).1,
                                                   old(c.writeErr.Some?))
  {
    ghost var start := c.WriteView();
    var i := 0;
    while i < |calls|
      invariant 0 <= i <= |calls|
      invariant Calls(c.Given(), c.WriteView(), calls[i..]).0 == Calls(c.Given(), start, calls).0
    {
      ghost var before := c.WriteView();
      assert calls[i..][0] == calls[i] && calls[i..][1..] == calls[i + 1..];
      match calls[i] {
        case CallWrite(p, answer) =>
          var buf := new byte[|p|](j requires 0 <= j < |p| => p[j]);
          assert buf[..|p|] == p && c.WriteView() == before;
          var r := c.Write(buf, |p|, answer);
        case CallCloseWrite(answer) =>
          var err := c.CloseWrite(answer);
        case CallClose(sendAnswer, closeAnswer) =>
          var err := c.Close(sendAnswer, closeAnswer);
      }
      assert c.WriteView() == CallStep(c.Given(), before, calls[i]).0;
      i := i + 1;
    }
    assert calls[i..] == [];
    if start.closed ==> start.err.Some? {
      NothingSentOnceRefused(c.Given(), start, calls);
    }
  }

  lemma FlattenAppend(chunks: seq<bytes>, b: bytes)
    ensures Flatten(chunks + [b]) == Flatten(chunks) + b
  {
    assert (chunks + [b])[..|chunks|] == chunks;
  }

  /** io.Copy into a Conn: one buffer, refilled for every Write. What the transport was given is exactly the bytes
      that were read, in order, up to the Write that failed. It relies on Write taking a copy: the buffer is
      overwritten while the transport may still hold what it was handed. */
  method CopyInto(c: Conn, src: bytes, size: nat, answer: nat -> Option<Error>)
        returns (copied: nat, err: Option<Error>)
    requires size > 0 && c.writeErr.None?
    modifies c`writeErr, c`sent
    ensures copied <= |src|
    ensures Flatten(c.SentBytes()) == old(Flatten(c.SentBytes())) + src[..copied]
    ensures err.None? ==> copied == |src| && c.writeErr.None?
    ensures err.Some? ==> c.writeErr == err
  {
    hide WriteStep, ReadStep, Flatten, Contents;
    ghost var start := Flatten(c.SentBytes());
    var buf := new byte[size](_ => 0);
    copied, err := 0, None;
    while copied < |src|
      invariant copied <= |src| && buf !in c.sent
      invariant Flatten(c.SentBytes()) == start + src[..copied]
      invariant err.None? && c.writeErr.None?
    {
      var n := Min(size, |src| - copied);
      ghost var before := c.WriteView();
      Refill(buf, src, copied, n);
      assert c.WriteView() == before;
      var result := c.Write(buf, n, answer(copied));
      WriteAdds(before, src[copied..copied + n], answer(copied));
      Extend(start, before.sent, src, copied, n);
      copied := copied + n;
      if result.WriteFailed? {
        err := Some(result.err);
        return;
      }
    }
    assert src[..copied] == src;
  }

  lemma WriteAdds(w: Writer, p: bytes, answer: Option<Error>)
    requires w.err.None? && p != []
    ensures var (w', r) := WriteStep(w, p, answer);
      && w'.sent == w.sent + [p]
      && (r.WriteFailed? <==> w'.err.Some?) && (r.WriteFailed? ==> w'.err == Some(r.err))
  {
  }

  lemma Extend(start: bytes, before: seq<bytes>, src: bytes, from: nat, n: nat)
    requires from + n <= |src| && Flatten(before) == start + src[..from]
    ensures Flatten(before + [src[from..from + n]]) == start + src[..from + n]
  {
    FlattenAppend(before, src[from..from + n]);
    assert start + src[..from] + src[from..from + n] == start + src[..from + n];
  }

  method Refill(buf: array<byte>, src: bytes, from: nat, n: nat)
    requires n <= buf.Length && from + n <= |src|
    modifies buf
    ensures buf[..n] == src[from..from + n]
  {
    forall i | 0 <= i < n {
      buf[i] := src[from + i];
    }
  }
}
