# Verification of san_tunnels

san_tunnels carries TCP connections and SSH sessions to an agent, over a Connect stream (HTTP/2) or over a WebSocket. This
project models its data plane, its connection set-up and its identity files in Dafny, and proves what the repository says of
them: nothing is lost, reordered or invented; half-close crosses the tunnel; the two doors behave alike; sessions end; a dead
peer is noticed in bounded time; only listed endpoints are reached; an invite pins the agent it came from.

Where the code does not do what a comment or a document says, the model follows the code, a lemma exhibits the
difference, and another says exactly when there is none.

## How the model is laid out

| file | models |
|---|---|
| `StreamConn.dfy` | `streamconn.Conn`: specification functions for the reading and writing halves, and the class proved against them |
| `Wire.dfy` | the frames of both doors and the recv and send callbacks that read and write them |
| `Tunnel.dfy` | one direction of a tunnel, closing included, its refinement of an abstract byte pipe, and the two directions together |
| `Doors.dfy` | the two doors compared |
| `Splice.dfy`, `Completion.dfy`, `Progress.dfy` | local application, `splice`, tunnel, `handleTCP` and endpoint as one system: invariant, conservation and termination, states of rest |
| `Faults.dfy` | the same system when something fails: which faults make a cut-off transfer look whole, when splice returns, when an abandoned agent finishes |
| `CloseRace.dfy` | `Write`, `CloseWrite` and `Close` called concurrently, at the grain of the locks |
| `Keepalive.dfy` | the ping loop as a timed machine |
| `Tending.dfy` | the same machine at either end of a tunnel in use |
| `Handshake.dfy` | opening a tunnel over Connect, with arbitrary forged messages |
| `Probe.dfy` | the duplex probe |
| `Routing.dfy` | from `--endpoint` flags to what a name is routed to |
| `Trust.dfy` | trust on first use |
| `ClientConfig.dfy` | the client's config, `client add`, name to target |
| `Identity.dfy` | host key, TLS pair and token on the agent, the commands that create them, invites end to end |
| `Base64Url.dfy`, `Utf8.dfy`, `Json.dfy`, `Invite.dfy` | the invite text, byte by byte |
| `AuthorizedKeys.dfy` | the authorized_keys file and its copy in memory |
| `Prelude.dfy` | bytes, options, errors, white space |

Concurrent code is a state machine: `Enabled(s, a)` says which steps a scheduler may choose, `Next(s, a)` what a step does, and a
theorem about runs holds for every sequence of steps. What the network, the transport libraries and the operating system
decide (which answer a send gets, what a dying transport loses, when a pong arrives) is part of the step, so it is
quantified over too. Objects that the Go code updates in place (`Conn`, `KnownAgents`, `Config`, `AuthorizedKeys`, the agent's
files) are classes whose methods are proved equal to the specification functions the theorems speak of.

## What does not hold, and what does

- **Write after half-close.** `Write` does not refuse after `CloseWrite`; the bytes go out behind the FIN and are lost
  (`Tunnel.WriteAfterFinIsAcceptedAndLost`). Delivery is still exact, in every run (`Tunnel.DeliveryIsExact`).
- **A half-close may report success and do nothing.** Over a WebSocket the first attempt spends the control frame. After one that failed, the
  next reports success, the direction stays open, and what is written then is delivered
  (`Doors.WrittenAfterRetryIsDelivered`); that is so exactly when the first half-close failed and nothing else ended
  the direction (`Tunnel.ReportedHalfCloseExactly`). Over Connect the retry works (`Doors.RetryTellsExactly`, exact).
- **A Close that fails ends the direction over a WebSocket only.** Its close frame reads as a clean end even if the half-close before it
  failed; over Connect the agent goes on waiting (`Doors.FailedCloseShows`; exact in `Doors.CloseTellsExactly`).
- **Doors differ on Close.** internal/streamconn/streamconn.go:57-60 calls ending the stream all there is to do over Connect. Closing the
  client's conn then only half-closes: its Reads go on waiting, where over a WebSocket they fail
  (`Doors.CloseTellsTheDoorsApart`, exact).
- **A local hang-up can leak the agent's handler over Connect**: it finishes by itself if and only if what the endpoint has left
  to send fits into the buffers on the way (`Faults.AgentFinishesExactly`). Over a WebSocket it always does
  (`Faults.WebSocketCloseFreesAgent`).
- **A broken tunnel need not end the local session.** The comment at internal/wsconn/keepalive.go:37-40 says the session ends. `splice`
  leaves the local connection open and waits for it; it returns if and only if the local application does not wait for
  an answer (`Faults.SpliceReturnsExactly`).
- **A broken upload can look complete to the endpoint**, since `handleTCP` half-closes after any end of the copy, and **a broken download to
  the local side**, since it returns without an error after any end of the other. A clean end of input means the whole upload if and only
  if nothing can fail on the way up, or, for a client that waits for its answer first, neither its socket nor the
  transport (`Faults.UploadsAreWholeExactly`), and the whole download if and only if neither
  reading the endpoint nor sending can fail (`Faults.DownloadsAreWholeExactly`).
- **The goroutine of `handleTCP`.** The comment at internal/agent/service.go:142-143 says the deferred Close unblocks it. A
  goroutine waiting in `conn.Read` is unblocked by the stream ending under it; the closed socket only fails its next
  write. Both are steps of the model, and `Progress.RestExactly` shows neither leaves it behind.
- **A half-closed WebSocket is killed by its keepalive.** The comment at internal/wsconn/keepalive.go:33-35 says every tunnel has a
  reader; a conn that has latched EOF reads no more. Once either direction has reported its end both are cut within the longer of
  interval and timeout, plus timeout (`Tending.HalfClosedTunnelIsKilled`, `Tending.HalfClosedTunnelDies`): 35 seconds with
  the constants. With pongs in time nothing else kills a tunnel (`Tending.OnlyEndedTunnelsAreKilled`).
- **Interval plus timeout is not always the bound.** A pong on its way when the remote end stops reading puts the next ping off; interval plus
  timeout suffices if and only if the timeout is no longer than the interval (`Keepalive.ShortBoundExactly`).
- **A first use that cannot be written is trusted until the next restart**: it is refused once, then accepted, never written and forgotten
  (`Trust.UnwrittenTrustIsForgotten`).
- **An interrupted TLS pair is replaced, not reported**, against the comment at internal/agent/tlskey.go:41-43
  (`Identity.InterruptedPairIsReplaced`; exact in `Identity.RegeneratesExactly`).
- **`client add` saves before it checks** transport and port (`ClientConfig.FailedAddExactly`, exact).
- **Memory and authorized_keys part** when an argument of `Append` holds several keys (`AuthorizedKeys.AppendsAgreeExactly`, exact), or when
  the file does not end in a newline and the glued line does not parse to the keys of both
  (`AuthorizedKeys.AppendsToUnendedExactly`, exact).
- **An empty endpoint name** is the shell through the WebSocket door and refused through the other (`Routing.DoorsRouteAlike`, exact).

## Model

| member | source | states |
|---|---|---|
| StreamConn.ReadStepMeaning | internal/streamconn/streamconn.go:78-97 | one Read hands over the next pending bytes if there are any, fails exactly when none are left and the stream has ended, and calls recv no further than the first failure |
| StreamConn.ChunkingIndependence | internal/streamconn/streamconn.go:78-97 | for every chunking of the stream, empty chunks included, and every list of buffer sizes: bytes returned and bytes pending make up the stream, and a failing Read means all of it was returned |
| StreamConn.ErrorIsLatched | internal/streamconn/streamconn.go:83-90 | after the first failing Read every Read fails with the same error and recv is not called again |
| StreamConn.ErrorSurfaces | internal/streamconn/streamconn.go:78-97 | with non-empty buffers the error is reached within one more Read than there are pending bytes |
| StreamConn.SameStreamSameBytes | internal/streamconn/streamconn.go:78-97 | two transports carrying the same stream, cut and read differently, have returned the same bytes and error once each has failed |
| StreamConn.Conn.constructor | internal/streamconn/streamconn.go:66-75 | a new conn has nothing buffered, no error latched and nothing sent |
| StreamConn.Conn.Read | internal/streamconn/streamconn.go:78-97 | the object's Read does what ReadStep says, puts the bytes at the front of p and leaves the rest of p alone |
| StreamConn.Conn.Write | internal/streamconn/streamconn.go:104-122 | a refused or empty Write hands nothing to the transport; any other hands over one new buffer holding exactly p; the result is all of p or the latched error, and the first error is latched |
| StreamConn.Conn.CloseWrite | internal/streamconn/streamconn.go:126-134 | half-closes if it can, and leaves the latched write error as it was |
| StreamConn.Conn.Close | internal/streamconn/streamconn.go:138-158 | only the first call acts: half-close, then release whatever that answered, first error reported, later writes refused |
| StreamConn.NothingSentOnceRefused | internal/streamconn/streamconn.go:104-158 | over any calls, the transport is given the bytes of every non-empty Write, once and whole, until a Write has failed or Close was called, and nothing from then on |
| StreamConn.RefusedForGood | internal/streamconn/streamconn.go:108-121 | over any calls, each Write behind a failed one fails with the same error, each behind a Close fails, and one that does not fail reports all its bytes |
| StreamConn.Drive | internal/streamconn/streamconn.go:104-158 | the object goes through any calls as specified, and what it has handed over is what the two rows above say |
| StreamConn.CopyInto | internal/streamconn/streamconn.go:99-122 | io.Copy with one reused buffer: the transport holds exactly the bytes read, in order, up to the Write that failed, because Write copies |
| Wire.InboxAppend | internal/wsconn/wsconn.go:68-97 | what a frame put behind those in flight adds to the receiver's stream: its payload unless the stream had ended, its ending if it is the first |
| Wire.AnyPeerReads | internal/wsconn/wsconn.go:68-157 | whatever frames a peer sends: the receiver reads the payload before the first that is none, and then io.EOF if and only if that one is an orderly end, an error otherwise |
| Tunnel.StepRefines | internal/wsconn/wsconn.go:67-145 | each step of users and transport, Close included, through either door, is a step of one abstract half-closable byte pipe with the same observation |
| Tunnel.CloseRefines | internal/streamconn/streamconn.go:138-158 | Close is a closing step of the pipe: it ends the direction if its half-close succeeds, and in any case where the conn owns its socket |
| Tunnel.BothDoorsRefineOnePipe | internal/client/client.go:178-198 | every run through either door, seen above the conns, is a run of that pipe |
| Tunnel.PipeRunMeaning | internal/streamconn/streamconn.go:78-158 | in every run of the pipe, delivered bytes are the bytes read and accepted bytes are those written before the end, told from the calls alone |
| Tunnel.DeliveryIsExact | internal/streamconn/streamconn.go:82-158 | in every run, what is read is a prefix of what was written before the direction was first ended, and all of it when a Read reports EOF |
| Tunnel.WriteAfterFinIsAcceptedAndLost | internal/streamconn/streamconn.go:126-134 | a Write after CloseWrite succeeds, goes on the wire and is never delivered |
| Tunnel.WriteIsWriteStep | internal/streamconn/streamconn.go:104-122 | the tunnel's writes are the conn's: same result, same latched error |
| Tunnel.FramesAreTold | internal/wsconn/wsconn.go:85-102 | what is on the wire in any run is, frame for frame and in order, what the convention of the door has for the calls made |
| Tunnel.ConventionsAreKept | internal/wsconn/wsconn.go:13-20 | a WebSocket carries binary messages, close-write at most once and exactly if the first half-close went out, a close frame exactly after the client's Close or the handler's return; a Connect stream its data messages and its end |
| Tunnel.PayloadOnTheWire | internal/streamconn/streamconn.go:104-122 | the payload on the wire is what was accepted before the end, then what came too late |
| Tunnel.CloseFrameEndsBoth | internal/wsconn/wsconn.go:16-20 | from any state, a close frame that is read ends the reader's own direction too |
| Tunnel.SpentInVainExactly | internal/wsconn/wsconn.go:88-97 | over any calls, no half-close will be attempted any more and the direction is open if and only if the first half-close failed and no Close, return or break came |
| Tunnel.ReportedHalfCloseExactly | internal/wsconn/wsconn.go:88-97 | after any calls, a half-close that reports success has ended the direction, unless the conn is a WebSocket's, its first half-close failed, and nothing else ended it: exactly then not |
| Tunnel.DirectionsAreIndependent | internal/streamconn/streamconn.go:78-158 | in every run, close frames ending both directions where they are read, each direction goes through exactly the run it would go through alone, broken only where the handler returned or the other side's Close owned the socket; a half-close breaks nothing |
| Tunnel.DuplexRefines | internal/agent/service.go:142-146 | both directions of every run, returns and closes included, are runs of the pipe |
| Tunnel.DuplexDelivery | internal/client/proxy.go:26-35 | delivery is exact in both directions of every run, whoever closes and when |
| Doors.DoorsAgree | internal/wsconn/wsconn.go:85-97 | the same calls met with the same answers are observed alike through both doors, in any interleaving in which no failed half-close is retried and no Close fails |
| Doors.RetryTellsExactly | internal/wsconn/wsconn.go:88-97 | a half-close retried after failing is seen alike through both doors if and only if the retry succeeds and the direction had already ended otherwise |
| Doors.CloseTellsExactly | internal/wsconn/wsconn.go:98-101 | in the closed direction, Close and the Reads after it are seen alike through both doors if and only if, where the half-close is attempted and fails, the direction had ended already, and elsewhere the release succeeds |
| Doors.FailedCloseShows | internal/streamconn/streamconn.go:140-150 | the witness: over Connect the agent goes on waiting, over a WebSocket it is told a clean end |
| Doors.RetriedHalfClose | internal/client/client.go:192-194 | the witness: over Connect the receiver then sees EOF, over a WebSocket it waits |
| Doors.WrittenAfterRetryIsDelivered | internal/wsconn/wsconn.go:88-97 | and over a WebSocket what is written after the retry reported success is delivered |
| Doors.DoorsAgreeUntilClose | internal/agent/service.go:197-218 | the doors are observed alike with both directions and the handler's return, as long as nobody closes |
| Doors.CloseTellsTheDoorsApart | internal/wsconn/wsconn.go:98-101 | after Close the doors agree on the next Read if and only if it was settled already |
| Splice.StepKeepsInv | internal/client/connect.go:143-159 | every step of either copy loop, either return, the transport or a socket keeps the accounting of bytes and endings across both directions |
| Splice.RunKeepsInv | internal/agent/service.go:116-147 | so does every run, whatever the scheduler |
| Completion.Conservation | internal/client/connect.go:143-159 | in every reachable state and direction: the far socket has a prefix of what was taken from the near one; far socket, far buffer and what a failed write lost are all that was read from the tunnel; until something fails, far socket, far buffer, tunnel and near buffer hold exactly the bytes taken, in order |
| Completion.EndOfInputIsExact | internal/agent/service.go:135-140 | a far copy that ended by EOF delivered all that was accepted before the half-close, and the sender's whole script if its copy ended by EOF |
| Completion.ClosedSocketIsFinal | internal/agent/service.go:125-140 | once handleTCP has closed the endpoint's socket, no byte and no end of input reaches it in any run |
| Completion.RunsAreFinite | internal/agent/service.go:132-146 | no run is longer than the work in its first state, faults or not |
| Progress.RestExactly | internal/client/connect.go:143-159 | nothing but a new fault can happen if and only if the session is over or is one of three described hangs |
| Progress.SpliceCompletes | internal/client/connect.go:138-159 | without faults and without mutual waiting the only rest is both functions returned, the local side having the endpoint's whole answer and end of input; an endpoint that reads to the end first has had the whole request |
| Progress.DeadlockFreeExactly | internal/client/connect.go:140-159 | fault-free runs never hang if and only if the applications do not both wait for the other's end of input |
| Faults.CleanEndMeansWholeUpload | internal/agent/service.go:135-140 | in every state of every run with no fault on the way up, an end of input at the endpoint means the whole request |
| Faults.UploadsAreWholeExactly | internal/agent/service.go:135-140 | it always means that if and only if no kind of fault can happen on the way up; for a client that waits for its answer first, if and only if neither its socket nor the transport can fail |
| Faults.BrokenUploadLooksComplete | internal/agent/service.go:135-140 | any one fault on the way up, of whatever kind that can occur, can show the endpoint a clean end after nothing |
| Faults.CleanEndMeansWholeDownload | internal/client/connect.go:152-157 | in every state of every run in which neither reading the endpoint nor sending failed, an end of input at the local side means the whole answer |
| Faults.DownloadsAreWholeExactly | internal/agent/service.go:144-146 | it always means that if and only if neither can fail, whichever application waits |
| Faults.BrokenDownloadLooksComplete | internal/agent/service.go:144-146 | either of the two can show the local side a clean end after nothing |
| Faults.TunnelErrorStrandsSplice | internal/client/connect.go:152-158 | after the tunnel fails under a waiting local application, splice never returns and shows it nothing, whatever else happens short of the local connection failing |
| Faults.StrandedIsReachable | internal/client/connect.go:152-158 | one broken transport is enough |
| Faults.SpliceReturnsExactly | internal/client/connect.go:143-159 | with nothing failing but the tunnel, splice has returned in every state of rest if and only if the local application does not wait for an answer |
| Faults.ConnectCloseLeaksAgent | internal/agent/service.go:144-146 | an abandoned agent with more to send than fits never returns while transport and endpoint stand |
| Faults.AgentFinishesExactly | internal/agent/service.go:142-146 | once its client is gone, an agent whose endpoint is free to send can finish by itself if and only if what is left fits into the buffers on the way |
| Faults.LeakedIsReachable | internal/client/connect.go:129-132 | a local application that hangs up is enough |
| Faults.WebSocketCloseFreesAgent | internal/wsconn/wsconn.go:98-101 | over a WebSocket, once splice has returned, the only rest is with the agent finished |
| CloseRace.CloseDiscipline | internal/streamconn/streamconn.go:104-158 | in every interleaving, with closeSend guarded by a once or not: at most one close-write frame where it is, at most one release, both done when any Close has returned, writeMu held by at most one call |
| CloseRace.FirstErrorIsReported | internal/streamconn/streamconn.go:140-157 | every Close returns the first failure the transport answered it with |
| CloseRace.AnswersAreReturned | internal/streamconn/streamconn.go:104-134 | in every interleaving, a Write that reached send returns what send answered and an empty one never reaches it; a CloseWrite returns what its half-close answered, or none if the one frame had gone before |
| CloseRace.OneErrorForAll | internal/streamconn/streamconn.go:108-121 | in every interleaving, all Writes that fail fail with one and the same error, and once one has failed or a Close has returned it never changes |
| CloseRace.WriteAfterCloseIsRefused | internal/streamconn/streamconn.go:151-155 | a Write begun after a Close returned never reaches send and returns an error |
| CloseRace.BlockedWriteCannotBlockRelease | internal/streamconn/streamconn.go:138-150 | a Write stuck in send with the lock cannot keep Close from releasing the transport once closeSend returns |
| CloseRace.NoDeadlock | internal/streamconn/streamconn.go:104-158 | while a call is under way, some call can move |
| Keepalive.DetectionBound | internal/wsconn/keepalive.go:41-61 | for every interval and timeout, a peer silent since tau is disconnected by tau + interval + timeout unless the tunnel was cancelled |
| Keepalive.ThirtyFiveSecondsIsTight | internal/wsconn/keepalive.go:18-28 | with the constants the bound is 35 seconds, and some run needs them all |
| Keepalive.NoTimeLock | internal/wsconn/keepalive.go:45-61 | from every state of every run the loop, the ticker and the peer alone can come to any later moment, so what is said of the time after a bound is said of something |
| Keepalive.HalfCloseStarvesKeepalive | internal/wsconn/keepalive.go:33-35 | once either end stops reading, the connection is closed within max(interval, timeout) + timeout, a pong on its way included |
| Keepalive.ShortBoundExactly | internal/wsconn/keepalive.go:41-61 | it is closed within interval + timeout of that in every run from the start if and only if the timeout is no longer than the interval |
| Tending.HalfClosedTunnelIsKilled | internal/wsconn/keepalive.go:33-40 | once a Read in either direction has reported its end, any uncancelled run beyond max(interval, timeout) + timeout has the connection closed: nothing more can arrive at this end, and the other direction is over too |
| Tending.HalfClosedTunnelDies | internal/wsconn/keepalive.go:33-40 | and such a run there is, from every such state |
| Tending.TendingGoesOn | internal/wsconn/keepalive.go:45-61 | from every state of a tended tunnel any later moment can be reached, without cancelling |
| Tending.OnlyEndedTunnelsAreKilled | internal/wsconn/keepalive.go:41-61 | with pongs in time and no cancellation, a keepalive closes only a tunnel in which some Read has reported an end |
| Keepalive.NewClockThrives | internal/wsconn/keepalive.go:41-45 | a new loop is in the state the survival theorem starts from |
| Keepalive.HealthyTunnelSurvives | internal/wsconn/keepalive.go:41-61 | with both ends reading and pongs in time it is never closed, and the last ping is never older than max(interval, timeout) |
| Keepalive.CancelEndsTheLoop | internal/wsconn/keepalive.go:46-59 | after cancellation at most one more ping is attempted, and the loop returns before time passes |
| Keepalive.OneMorePingIsPossible | internal/wsconn/keepalive.go:46-52 | and one more there can be |
| Keepalive.ClosedExactly | internal/wsconn/keepalive.go:45-60 | in every run, the connection is closed if and only if a ping failed, and the loop has returned if and only if one did or it saw the cancellation |
| Tending.ClosedConnStopsPinging | internal/wsconn/wsconn.go:61-63 | the keepalive does not outlive its conn: once the local end is closed its context is cancelled, one more ping is begun at most, and the loop has returned before time passes |
| Tending.SilentPeerUnblocksReader | internal/wsconn/keepalive.go:37-40 | at either end of an arbitrarily used tunnel, a Read that has drained its chunk fails once the bound has passed |
| Handshake.AgentOpensSafely | internal/agent/service.go:89-167 | whatever is forged: Opened at most once, first, and only for a granted name after any dial; the client sends no data before it is answered, and is connected exactly if the answer was Opened |
| Handshake.ConnMeansGranted | internal/client/client.go:146-176 | with nothing forged, a conn is had only for the name asked for and granted; a refused name or failed dial yields none |
| Handshake.OpensExactly | internal/agent/service.go:97-107 | with nothing forged, a client whose run has come to where only payload moves has its conn if and only if the name is the shell's or listed and neither dial nor ack failed, and was refused otherwise |
| Handshake.CanConnectExactly | internal/agent/service.go:89-130 | from every state of such a run it can still come to have its conn, under the same condition and no other |
| Handshake.SetUpEnds | internal/agent/service.go:149-167 | opening a tunnel takes at most six steps, whatever is forged |
| Handshake.AnswersExactly | internal/agent/service.go:149-167 | whatever is forged, why a stream ended without Opened is told by its first message, the allowlist and the dial; a name is dialled only if listed, not the shell's, and at its address; a return ends the stream as the handler said |
| Handshake.HandshakeIsTransparent | internal/client/client.go:146-176 | with nothing forged, what the agent's conn has read and what is on its way to it are the bytes the client has sent, and what is on its way to a connected client the bytes the agent has sent |
| Handshake.PayloadArrives | internal/agent/service.go:194-212 | from every state in which the agent serves it can come to have read all that was sent, and then return whatever it likes |
| Handshake.SecondOpenEndsReading | internal/agent/service.go:199-208 | a second Open is not payload, what was read before it stands, and the agent reads nothing after it |
| Probe.Check | internal/client/proxy.go:64-102 | succeeds exactly when every send succeeds and every round is echoed; it sends 1, 2, ... and stops at the first that is not |
| Probe.SuccessMeansInterleaved | internal/client/proxy.go:44-48 | a success means send, handle, receive in turn for every round |
| Probe.ForwardingRunsSucceed | internal/agent/service.go:172-185 | over a forwarding path every run without the deadline succeeds within a fixed number of steps |
| Probe.ProbeDiscriminates | internal/client/proxy.go:42-48 | some run succeeds if and only if the path forwards (or no round is asked for) |
| Probe.CheckDiscriminates | internal/client/proxy.go:67-68 | with the two rounds of the program some run succeeds if and only if the path forwards, and a success means the six events in their one order |
| Probe.ProbeEnds | internal/client/proxy.go:61-69 | over either path every run is bounded, and at rest Check has returned, the body is closed and nothing is held |
| Routing.CutMeaning | cmd/san_tunnels/main.go:1061-1061 | the flag is split at its first equals sign, and only refused if it has none |
| Routing.RefusedAs | cmd/san_tunnels/main.go:1061-1067 | a bad flag is refused as reserved if it gives the shell an address, and as no pair otherwise |
| Routing.ParseEndpoints | cmd/san_tunnels/main.go:1058-1071 | accepts exactly when every flag is good, keeps for each name what its last flag says, reports the first bad flag |
| Routing.NewService | internal/agent/service.go:34-49 | refuses exactly a missing ssh server and a map that names the shell |
| Routing.Configure | cmd/san_tunnels/main.go:178-213 | as far as its endpoint flags go, the agent starts exactly when every one is good, with the allowlist they fold into |
| Routing.RoutingIsSound | internal/agent/service.go:67-98 | the shell for "shell" and no other name, the last configured address for a listed one, refusal as not listed for the rest |
| Routing.DoorsRouteAlike | internal/agent/ws.go:35-44 | both doors route a name alike if and only if it is not empty; the WebSocket refuses before upgrading |
| Trust.LoadKnownAgents | internal/client/trust.go:45-61 | a missing file is an empty store, an unreadable or malformed one an error |
| Trust.KnownAgents.Add | internal/client/trust.go:71-90 | one entry changes in memory, and the file is the store if it could be written |
| Trust.KnownAgents.Verify | internal/client/trust.go:165-213 | decides as specified, writes the file exactly on a first use, and refuses one it cannot write |
| Trust.AcceptedExactly | internal/client/trust.go:165-213 | a connection is accepted if and only if it is insecure, or shows a leaf with the configured fingerprint or else the recorded one, or with neither leads to a root or can be recorded |
| Trust.RecordsExactly | internal/client/trust.go:198-207 | the store changes exactly where nothing is configured or recorded and no root is reached, in that one entry, and its file if it can be written |
| Trust.WithoutStore | internal/client/trust.go:170-173 | with no store, everything not pinned by configuration is accepted |
| Trust.RecordedOnce | internal/client/trust.go:170-213 | over any connections and restarts, failing writes included, a fingerprint recorded in the file never changes; while writes succeed, memory is what a reload would give |
| Trust.FirstUseDecides | internal/client/trust.go:186-211 | a first use that can be written is accepted; whatever came between, a later certificate is accepted exactly when its fingerprint is the recorded one |
| Trust.UnwrittenTrustIsForgotten | internal/client/trust.go:200-207 | a first use that cannot be written is refused, then accepted from memory, and gone after a restart |
| Trust.ConfiguredPinWins | internal/client/trust.go:170-196 | a configured fingerprint decides alone and the store is neither consulted nor touched |
| Trust.Serve | internal/client/trust.go:63-90 | the object, connection after connection, lives the specified life |
| ClientConfig.Config.Register | cmd/san_tunnels/main.go:690-772 | client add: the new config, the resolved target or the reason against it, and the file written exactly when an entry was set and could be written |
| ClientConfig.AcceptedExactly | cmd/san_tunnels/main.go:690-772 | which registrations succeed, and for which reason one is refused before the save, each by an iff on the flags, the config and the invite |
| ClientConfig.FlagsAreKept | cmd/san_tunnels/main.go:702-758 | what a registration without an invite resolves to: the URL of the flag or of the prompt, the fingerprint of the flag or, unless insecure, the one seen |
| ClientConfig.TargetExactly | cmd/san_tunnels/main.go:941-987 | what a name resolves to: exactly when it does, with flags winning over the config, and why it does not |
| ClientConfig.KeptUnlessForced | cmd/san_tunnels/main.go:698-700 | over any registrations an entry is replaced only by a forced one of its name |
| ClientConfig.FailedAddExactly | cmd/san_tunnels/main.go:763-772 | a failed registration changes the config exactly when it reached the save with a transport or port that does not resolve |
| ClientConfig.InviteIsKept | cmd/san_tunnels/main.go:714-735 | what a registration by invite resolves to: the invite's fields, save those a flag overrides, and the flags' transport |
| Identity.Home.LoadOrCreateHostKey | internal/agent/keys.go:23-59 | returns the key on disk, reports one it cannot use, creates one only if there is none |
| Identity.Home.LoadOrCreateTLSCert | internal/agent/tlskey.go:35-108 | the new files and the pair, on every combination of missing, unreadable and unusable files |
| Identity.Home.EnsureToken | cmd/san_tunnels/main.go:357-379 | keeps a token that is there unless forced, and fails where it can neither look nor write |
| Identity.Home.RunInit | cmd/san_tunnels/main.go:288-337 | host key, then pair, then token, then the authorized keys; a failure stops there |
| Identity.Home.RunInvite | cmd/san_tunnels/main.go:382-438 | no URL, no change; otherwise host key, token, pair and the text in that order, a failure stopping there |
| Identity.InviteSays | cmd/san_tunnels/main.go:402-433 | a printed invite decodes to the flags' URL and user, the token in the file on that disk or else the flag's, the fingerprint of the chain shown and the digest of the host key shown |
| Identity.ShowsExactly | cmd/san_tunnels/main.go:163-438 | when each command goes through, by an iff on the disk it starts on and its flags |
| Identity.IdentityIsWrittenOnce | internal/agent/keys.go:18-31 | over any commands a usable host key and a usable pair are never rewritten, the token only by a forced init |
| Identity.BrokenHostKeyIsReported | internal/agent/keys.go:23-35 | a host key that is there and cannot be used is reported by every command and replaced by none |
| Identity.MadeTokenIsIssued | cmd/san_tunnels/main.go:357-379 | the token init makes is the one later invites carry until another is forced |
| Identity.ShownForever | internal/agent/tlskey.go:27-39 | from any disk: once a command has shown a host key or a certificate, every later command that shows one shows the same |
| Identity.RegeneratesExactly | internal/agent/tlskey.go:36-46 | load-or-create replaces the certificate if and only if there is none, or it is readable and its key file is missing |
| Identity.InterruptedPairIsReplaced | internal/agent/tlskey.go:41-46 | a pair half-written by an interrupted creation is replaced by the next load, not reported |
| Identity.InvitePinsEndToEnd | cmd/san_tunnels/main.go:412-433 | a client registered from an issued invite accepts what the agent serves later, refuses every other fingerprint, whatever its store holds, and leaves the store alone; it sends the token that was on the agent's disk, which the agent serving from that file asks for, and logs in as the invite's user, unless its own flags say otherwise |
| Identity.FirstInviteWorks | cmd/san_tunnels/main.go:382-438 | on a machine with no files init makes them; the first invite then registers under any name in an empty config, pins what the agent then serves, and carries the token it then asks for |
| Invite.RoundTrip | internal/invite/invite.go:45-75 | every invite with a URL decodes to itself from its text, with any white space around it |
| Invite.FieldsRestored | internal/invite/invite.go:28-42 | omitted fields come back empty, the others as they were |
| Invite.WrittenExactly | internal/invite/invite.go:28-42 | the URL is written, and of the others exactly those that are not empty, once each |
| Invite.LastMemberWins | internal/invite/invite.go:66-69 | of members with the same name the last one counts |
| Invite.TextHasNoSpace | internal/invite/invite.go:53-58 | the text holds no white space, so trimming cannot eat it |
| Invite.TextsDiffer | internal/invite/invite.go:45-54 | different invites have different texts |
| Invite.AcceptedExactly | internal/invite/invite.go:57-75 | a text is an invite if and only if, trimmed, it is the prefix and the base64url of an object of strings with a URL; why it is none in two of the cases |
| Base64Url.RoundTrip | internal/invite/invite.go:53-62 | base64url without padding (sections 3.2 and 5 of RFC 4648): decoding inverts encoding |
| Base64Url.DecodesExactly | internal/invite/invite.go:62-65 | line breaks apart, what decodes are characters of the alphabet, not one over a multiple of four, and they come back but perhaps for the last |
| Base64Url.BreaksDoNotMatter | internal/invite/invite.go:62-65 | a line break anywhere makes no difference, and nothing else is skipped |
| Utf8.RoundTrip | internal/invite/invite.go:49-68 | every text survives UTF-8 |
| Utf8.ReplacedExactly | internal/invite/invite.go:66-69 | a byte is read as U+FFFD alone if and only if no character's encoding starts there |
| Json.StringRoundTrip | internal/invite/invite.go:49-68 | a string escaped as json.Marshal does (section 7 of RFC 8259) reads back as itself, whatever follows |
| Json.WrittenIsSafe | internal/invite/invite.go:49-52 | what is written holds no control character and none that is special in HTML or JavaScript |
| Json.SpellingsRead | internal/invite/invite.go:66-69 | every way section 7 of RFC 8259 has to spell a character is read as it |
| Json.ControlIsRefused | internal/invite/invite.go:66-69 | a string that is read holds no raw control character |
| Json.ObjectRoundTrip | internal/invite/invite.go:49-68 | so does an object of strings, with white space behind it and nothing else |
| AuthorizedKeys.AuthorizedKeys.Reload | internal/agent/keys.go:81-114 | terminates with exactly the keys of the parseable lines, in file order, bad lines hiding nothing; an unreadable file leaves the old keys |
| AuthorizedKeys.AuthorizedKeys.Has | internal/agent/keys.go:117-129 | true exactly when some held key marshals alike |
| AuthorizedKeys.AuthorizedKeys.Append | internal/agent/keys.go:140-168 | the new file and keys, or a refusal that changes nothing; no key is taken into memory if the file cannot be written |
| AuthorizedKeys.IndexNewline | internal/agent/keys.go:170-177 | the first newline, or -1 if there is none |
| AuthorizedKeys.AppendExactly | internal/agent/keys.go:140-168 | whatever the file is like: the trimmed line and a newline go behind it and its first key into memory, if it holds a key; otherwise nothing changes |
| AuthorizedKeys.AppendStepKeys | internal/agent/keys.go:140-168 | one append to an ended file keeps it ended, adds the argument's keys to the file and its first key to memory |
| AuthorizedKeys.AppendsAgreeExactly | internal/agent/keys.go:140-168 | after any appends, memory is what a fresh Reload gives if and only if no argument held two keys |
| AuthorizedKeys.UnendedAppendExactly | internal/agent/keys.go:140-168 | after an append to a file whose last line is not ended, memory is what a fresh Reload gives if and only if the glued line parses to the keys of both |
| AuthorizedKeys.UnendedLineExactly | internal/agent/keys.go:140-168 | for an argument of one line: if and only if the unended line held no key and the glued one parses to the key added |
| AuthorizedKeys.AppendsToUnendedExactly | internal/agent/keys.go:140-168 | and so after any further appends of one key each |
| AuthorizedKeys.UnterminatedFileLosesKeys | internal/agent/keys.go:154-161 | an example of a parser and a file where it does not |

## Left out

Weaker than the code or its promise:

- StreamConn.Conn.Read: a Read that blocks returns `Waiting` instead; the lock around it is not modelled, two readers being served one after the other either way.
- Tunnel.DirectionsAreIndependent: the two directions are one transport below; flow control shared between them is left out.
- Doors.DoorsAgree: a failed handler reads alike through both doors by the choice of one constant; in the program the two errors differ in type and wording.
- Completion.Conservation: the equation is for directions in which nothing has failed yet; after a failure only the prefix is claimed, since a failed write loses its buffer.
- CloseRace.CloseDiscipline: what CloseRequest does when it is called twice is connect-go's.
- CloseRace.BlockedWriteCannotBlockRelease: that writing the close-write frame itself returns is assumed; inside the WebSocket library it may queue behind the stuck Write.
- Keepalive.HealthyTunnelSurvives: both ends reading is a hypothesis, not a property of the tunnels; see `Tending.HalfClosedTunnelIsKilled`.
- Tending.OnlyEndedTunnelsAreKilled: an end reads until its conn has latched an error; a copy loop that is held up writing what it read does not read either, and is taken to come back within the timeout.
- Identity.ShownForever: edits by others, writes that fail for other reasons than an unreachable directory, and other paths in later commands are left out; an interrupted creation is treated in `Identity.InterruptedPairIsReplaced`.
- Identity.Home.RunInvite: the directories made for the files are left out.
- Identity.ShowsExactly: of serving, what it does with the host key, the pair, the authorized keys and the token; its endpoint flags are in `Routing.Configure`, and listening is left out.
- Trust.RecordedOnce: building the config and the handshake are one step, so two concurrent first connections are not covered.
- AuthorizedKeys.AuthorizedKeys.Append: a write that fails leaves the file as it was; one that fails half-way is left out.
- AuthorizedKeys.AuthorizedKeys.Reload: how one line is parsed is a parameter; that the library's parser skips to the first line with a key is modelled.
- Invite.RoundTrip: the JSON reader takes objects of strings with keys in their exact case; null, nested values and case-folded keys are refused or ignored rather than read as Go would.
- Probe.Check: over Connect; the WebSocket probe has the same loop and proves less.

Assumptions about what is not in the repository:

- A transport that dies abruptly never reports EOF or a normal closure; frames arrive in order or not at all. A send may fail although its bytes went out.
- Messages stay within the WebSocket read limit; io.Copy uses its 32 KiB buffer and not the sockets' shortcuts.
- Applications at both ends read what they are given; each produces a finite script, freely or only after the other's end of input.
- In the splice, the transport's two directions may fail one by one, and a send may fail on a transport that stays up: what follows it, a half-close or the
  handler's return, is then read as clean. Likewise a socket whose write failed can still be shut down cleanly. Whether the libraries and TCP
  ever do either is not modelled; where they do not, the kinds `SendFails` and `DeliverFails` cannot occur without `TransportFails`.
- Digests, key and certificate parsing, chain verification and the randomness behind new keys are parameters.

Not modelled:

- The SSH server, PTYs and the shell process: an arbitrary user of the conn.
- `Proxy`: its two copies are those of `splice`, with standard input and output for the local connection and a return that does not wait for the upstream copy.
- The accept loop of `Listen`, shutdown timeouts, deadlines on conns (accepted and ignored by the code).
- HTTP serving, ALPN, h2c, bearer tokens on requests, read limits.
- URL mapping, host aliases, subject names in certificates, ssh config blocks, prompts, log lines and error wording.
