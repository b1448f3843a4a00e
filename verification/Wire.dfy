/** What travels under a streamconn.Conn through either door, and how each side's recv callback reads it.
    Connect carries protobuf messages on a bidirectional stream; the WebSocket carries frames. */
module Wire {
  import opened Prelude
  import opened StreamConn

  datatype Door = Connect | WebSocket

  datatype Side = Client | Agent

  datatype Frame =
    // Connect: the oneof payloads of ForwardRequest and ForwardResponse, and how a stream direction ends.
    | Open(endpoint: string)
    | Opened
    | Data(data: bytes)
    | EndOk
    | EndErr
    // WebSocket: binary and text messages, and the close frame.
    | Binary(data: bytes)
    | Text(text: string)
    | CloseFrame(status: nat)
    // The transport died here. Not a frame anyone sends.
    | Reset

  const CLOSE_WRITE := "close-write"
  const NORMAL_CLOSURE: nat := 1000
  const GOING_AWAY: nat := 1001
  const INTERNAL_ERROR: nat := 1011

  /** Causes carried by Error.Other. A failed handler reads alike through both doors: the wording is not modelled.
      */
  const RESET: nat := 1
  const BAD_TEXT: nat := 2
  const SECOND_OPEN: nat := 3
  const HANDLER_FAILED: nat := INTERNAL_ERROR

  /** normalizeClose: an orderly WebSocket shutdown is the end of the stream, any other status an error. */
  function NormalizeClose(status: nat): Error {
    if status == NORMAL_CLOSURE || status == GOING_AWAY then Eof else Other(status)
  }

  /** The recv callbacks: clientConn and serverConn over Connect, New and NewServer over WebSocket. */
  function Decode(receiver: Side, f: Frame): RecvResult {
    match f
    case Open(_) => if receiver.Agent? then Stop(Wrap(Other(SECOND_OPEN))) else Chunk([])
    case Opened => Chunk([])
    case Data(b) => Chunk(b)
    case EndOk => Stop(Wrap(Eof))
    case EndErr => Stop(Other(HANDLER_FAILED))
    case Binary(b) => Chunk(b)
    case Text(s) => if s == CLOSE_WRITE then Stop(Eof) else Stop(Other(BAD_TEXT))
    case CloseFrame(status) => Stop(NormalizeClose(status))
    case Reset => Stop(Other(RESET))
  }

  /** The send callbacks. */
  function DataFrame(door: Door, b: bytes): Frame {
    if door.Connect? then Data(b) else Binary(b)
  }

  /** The client's half-close: CloseRequest ends the request stream; a WebSocket has no such frame, so a text
      message stands in for it. */
  function FinFrame(door: Door): Frame {
    if door.Connect? then EndOk else Text(CLOSE_WRITE)
  }

  /** The agent's handler returning, with or without an error. */
  function ReturnFrame(door: Door, ok: bool): Frame {
    if door.Connect? then (if ok then EndOk else EndErr)
    else CloseFrame(if ok then NORMAL_CLOSURE else INTERNAL_ERROR)
  }

  /** The payload in a list of frames. */
  function DataIn(fs: seq<Frame>): bytes {
    if fs == [] then [] else (if fs[0].Data? || fs[0].Binary? then fs[0].data else []) + DataIn(fs[1..])
  }

  lemma {:induction false} DataInConcat(a: seq<Frame>, b: seq<Frame>)
    ensures DataIn(a + b) == DataIn(a) + DataIn(b)
  {
    if a == [] {
      assert a + b == b;
    } else {
      assert (a + b)[0] == a[0] && (a + b)[1..] == a[1..] + b;
      DataInConcat(a[1..], b);
    }
  }

  lemma DataBehind(fs: seq<Frame>, f: Frame)
    ensures DataIn(fs + [f]) == DataIn(fs) + if f.Data? || f.Binary? then f.data else []
  {
    DataInConcat(fs, [f]);
    assert [f][1..] == [];
  }

  function Inbox(receiver: Side, wire: seq<Frame>): (inbox: seq<RecvResult>)
    ensures |inbox| == |wire|
  {
    seq(|wire|, i requires 0 <= i < |wire| => Decode(receiver, wire[i]))
  }

  lemma {:induction false} StopAppend(a: seq<RecvResult>, b: seq<RecvResult>)
    ensures FirstStop(a + b) == if FirstStop(a).Some? then FirstStop(a) else FirstStop(b)
  {
    if a == [] {
      assert a + b == b;
    } else {
      assert (a + b)[1..] == a[1..] + b && (a + b)[0] == a[0];
      StopAppend(a[1..], b);
    }
  }

  lemma {:induction false} PayloadAppend(a: seq<RecvResult>, b: seq<RecvResult>)
    ensures Payload(a + b) == Payload(a) + if FirstStop(a).Some? then [] else Payload(b)
    ensures FirstStop(a + b) == if FirstStop(a).Some? then FirstStop(a) else FirstStop(b)
  {
    StopAppend(a, b);
    if a == [] {
      assert a + b == b;
    } else {
      assert (a + b)[1..] == a[1..] + b && (a + b)[0] == a[0];
      if a[0].Chunk? {
        PayloadAppend(a[1..], b);
        assert FirstStop(a) == FirstStop(a[1..]) && Payload(a + b) == a[0].data + Payload(a[1..] + b);
        assert Payload(a) == a[0].data + Payload(a[1..]);
        hide Payload, FirstStop;
        var later := if FirstStop(a).Some? then [] else Payload(b);
        assert a[0].data + (Payload(a[1..]) + later) == a[0].data + Payload(a[1..]) + later;
      }
    }
  }

  lemma InboxDrop(receiver: Side, wire: seq<Frame>, n: nat)
    requires n <= |wire|
    ensures Inbox(receiver, wire[n..]) == Inbox(receiver, wire)[n..]
  {
  }

  /** Putting a frame behind those in flight. */
  lemma InboxAppend(receiver: Side, wire: seq<Frame>, f: Frame)
    ensures Inbox(receiver, wire + [f]) == Inbox(receiver, wire) + [Decode(receiver, f)]
    ensures Payload(Inbox(receiver, wire + [f])) == Payload(Inbox(receiver, wire)) +
            if FirstStop(Inbox(receiver, wire)).Some? || Decode(receiver, f).Stop? then [] else Decode(receiver, f).data
    ensures FirstStop(Inbox(receiver, wire + [f])) ==
            if FirstStop(Inbox(receiver, wire)).Some? then FirstStop(Inbox(receiver, wire))
            else if Decode(receiver, f).Stop? then Some(Normalize(Decode(receiver, f).cause)) else None
  {
    assert Inbox(receiver, wire + [f]) == Inbox(receiver, wire) + [Decode(receiver, f)];
    PayloadAppend(Inbox(receiver, wire), [Decode(receiver, f)]);
    assert [Decode(receiver, f)][1..] == [];
  }

  /** The frames a receiver reads on past; a message other than data carries no bytes. */
  predicate ReadsOn(receiver: Side, f: Frame) {
    f.Data? || f.Binary? || f.Opened? || (f.Open? && receiver.Client?)
  }

  /** An orderly end: of the request or response stream, close-write, or a close frame that says normal closure or
      going away. */
  predicate Orderly(f: Frame) {
    f.EndOk? || f == Text("close-write") || f == CloseFrame(1000) || f == CloseFrame(1001)
  }

  /** What any peer can make a receiver read, whatever frames it sends: the payload of those before the first that is
      no payload, and then io.EOF if and only if that one is an orderly end, an error if it is anything else. */
  lemma {:induction false} AnyPeerReads(receiver: Side, before: seq<Frame>, f: Frame, after: seq<Frame>)
    requires (forall g :: g in before ==> ReadsOn(receiver, g)) && !ReadsOn(receiver, f)
    ensures var inbox := Inbox(receiver, before + [f] + after);
      && Payload(inbox) == DataIn(before)
      && FirstStop(inbox).Some? && (FirstStop(inbox) == Some(Eof) <==> Orderly(f))
  {
    var all := before + [f] + after;
    if before == [] {
      assert all[0] == f;
    } else {
      assert all[0] == before[0] && all[1..] == before[1..] + [f] + after && before[0] in before;
      InboxDrop(receiver, all, 1);
      AnyPeerReads(receiver, before[1..], f, after);
    }
  }

  /** Losing the frames behind the first n. */
  lemma InboxTake(receiver: Side, wire: seq<Frame>, n: nat)
    requires n <= |wire|
    ensures Payload(Inbox(receiver, wire[..n])) <= Payload(Inbox(receiver, wire))
    ensures var (part, all) := (Inbox(receiver, wire[..n]), Inbox(receiver, wire));
      FirstStop(part).Some? ==> FirstStop(part) == FirstStop(all) && Payload(part) == Payload(all)
  {
    assert Inbox(receiver, wire) == Inbox(receiver, wire[..n]) + Inbox(receiver, wire[n..]);
    PayloadAppend(Inbox(receiver, wire[..n]), Inbox(receiver, wire[n..]));
  }
}
