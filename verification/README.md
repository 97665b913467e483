# LocalMessenger transport: a verified model

LocalMessenger connects peers on a local network. This project models its
transport stack in Dafny and proves what it guarantees:

- **Frames** (`Protocol.dfy`, `Frames.dfy`): the wire format
  `[magic:4][kind:1][length:4][payload]`, the buffer-filling serializer, the
  header check, and a reference parser that gives every byte string its meaning.
- **Sessions** (`SessionModel.dfy`, `SessionRuns.dfy`, `TcpSession.dfy`): the
  reader and writer of one TCP session as a state machine over its outstanding
  socket operations, what holds over all its runs, and the session object that
  updates its buffers and flags in place.
- **Connections** (`Delivery.dfy`, `FifoLaw.dfy`): two sessions joined by a byte
  stream in each direction; end-to-end delivery.
- **Session table** (`SessionTable.dfy`, `NetworkManager.dfy`): which session is
  mapped under which address, over all runs of registrations, failures,
  evictions, stops and racing connects; the manager object over live sessions.
- **Two nodes** (`ReplyPolicy.dfy`, `ReplyDebt.dfy`, `Quiescence.dfy`,
  `Nodes.dfy`, `NodeTables.dfy`, `Answers.dfy`, `Handshakes.dfy`,
  `Exchange.dfy`, `Races.dfy`): the automatic replies of the manager and of
  `main.cpp`; every run without user input ends, what was sent has arrived,
  every connection begins with the handshakes, every request is answered once,
  the nodes' tables follow the session table, and what is left of racing
  connects.
- **Peer table** (`PeerTable.dfy`, `UdpDiscovery.dfy`): beacons, sweeps and
  stop over an integer clock; staleness, evictions and their history.

Sessions, the manager and discovery are classes, as in the source. `Model()`
gives the value an object stands for, every method equates the new value with a
step function of the old one, and the results are proved about those functions
over all runs.

## Assumptions

- Every completion handler is one atomic step, together with the callbacks it
  calls synchronously. `handle_error` closes the session and the manager's
  close callback erases the table entry in the same step; `register_session`
  is one step. If a registration could run between a session's failure and the
  erase, the table invariant would not hold.
- `send` pushes the buffer and, if the writer is idle, starts the first write
  in the same step. The source takes a non-recursive mutex twice on that path
  (TcpSession.cpp:79-85 and :95); the model has the intended meaning.
- TCP is a reliable FIFO byte stream that may stop anywhere. A read completes
  when the last byte it asked for is in its buffer, a write when its last byte
  has been taken; handlers run later. On a closed session no byte moves, so an
  operation that had not completed by then can only fail.
- A session given to the manager is new: nothing has been sent or read on it,
  and its buffers are its own.
- Closing the socket makes a receive or read that has not completed fail; one
  that has completed is still handled as a success.

## Three results about the code as it is

- A payload of 4 GiB or more gets a truncated length field that the receiver
  may accept. `Frames.ParseOfSent` shows that the valid prefix comes out
  exactly if and only if the first bad packet does not do that,
  `Frames.RoundTrip` that one packet survives if and only if it is valid, and
  `Frames.WrappedLengthIsMisread` gives the failing input. The same condition
  decides the law of the transport (`Delivery.ExactDelivery`). It holds whenever
  all payloads are shorter than 4 GiB (`Frames.ShortPayloadsAreRefused`).
- `closed_` and `running_` are not tested on the success paths. One packet can
  still be delivered after a session is closed, never two
  (`SessionRuns.AfterClose`, `SessionRuns.LateDeliveryRun`), and one beacon
  that had arrived can still be recorded after discovery is stopped, for good
  (`PeerTable.AfterStop`, `PeerTable.LateBeaconRun`).
- Two nodes that dial each other at the same time may end up without any
  connection: each closes the one the other has registered last.
  `Races.UndisturbedRace` shows that, if nothing breaks by itself, they stay
  connected if and only if both registered the same connection last,
  `Races.RacingNodes` what failures and evictions add to that, and
  `Races.CrossedConnectsLoseBoth` gives a run in which both are lost.

## Model

| member | source | states |
|---|---|---|
| Protocol.WriteU32Be | src/core/Network/Protocol.cpp:13-18 | In place, the four bytes at the offset become the big-endian digits of the value; no other byte of the buffer changes. |
| Protocol.ReadOfWrite | src/core/Network/Protocol.cpp:13-25 | Reading undoes writing on every 32-bit value. |
| Protocol.WriteOfRead | src/core/Network/Protocol.cpp:13-25 | Writing undoes reading on every four bytes, at any offset. |
| Protocol.Serialize | src/core/Network/Protocol.cpp:28-48 | Filling the buffer field by field gives the header with a recomputed length followed by the payload. |
| Protocol.DecodeHeaderBytes | src/core/Network/Protocol.cpp:51-72 | A header survives the wire exactly when its magic is right and its length at most MAX_PAYLOAD; otherwise it is refused. |
| Protocol.HeaderBytesOfDecoded | src/core/Network/Protocol.cpp:51-72 | An accepted header determines the nine bytes it was read from: the header code is canonical. |
| Protocol.LargestPayload | src/core/Network/Protocol.cpp:51-72 | On literal bytes, for every kind: a header that announces 16 MiB is accepted, one byte more is refused, and so is another magic. |
| Protocol.FrameBytes | src/core/Network/Protocol.cpp:28-48 | The frame of every short packet of every kind, byte by byte. |
| Protocol.KnownFrames | src/core/Network/Protocol.cpp:76-95 | The literal bytes of a ping, a pong, a text message, a receipt and a handshake. |
| Frames.DecodedFrame | src/core/Network/Protocol.cpp:28-72 | Serializing a decoded packet gives back the identical bytes. |
| Frames.RoundTrip | src/core/Network/Protocol.cpp:28-72 | For every packet: its frame parses to exactly that packet with length normalised if and only if magic is right and the payload at most MAX_PAYLOAD. |
| Frames.ParseOfSent | src/core/Network/Protocol.cpp:28-72 | For every packet list: the stream yields exactly the longest valid prefix if and only if the first bad packet is refused; then parsing stops at that packet's header and nothing behind it is interpreted. |
| Frames.WrappedLengthIsMisread | src/core/Network/Protocol.cpp:37-38 | A 4 GiB payload announces length 0 and the receiver hands out an empty packet that was never sent. |
| Frames.ParseAppend | src/core/Network/TcpSession.cpp:20-73 | Meaning is compositional: once a prefix is parsed only its unfinished tail matters for what follows, and after a refusal nothing does. |
| Frames.ParseIsFaithful | src/core/Network/TcpSession.cpp:20-73 | Parsed packets re-encoded plus the tail are the input bytes: nothing lost, nothing invented. |
| Frames.ParsePrefixMonotone | src/core/Network/TcpSession.cpp:20-73 | A prefix of a stream never yields packets the whole stream does not have. |
| Frames.DecodedAgainstSent | src/core/Network/Protocol.cpp:28-72 | For any sent packets: decoded packets whose bytes begin the stream are the first of the sent ones if and only if they are no more than the valid prefix, which is so whenever the first bad packet is refused. |
| Frames.DecodedArePrefix | src/core/Network/Protocol.cpp:28-72 | For any sent packets: decoded packets whose bytes begin the stream are, one by one, the first of the sent ones if and only if they are no more than the valid prefix, and then the remaining bytes are those of the remaining packets; they are no more when the first bad packet is refused. |
| Frames.UniquelyDecodable | src/core/Network/Protocol.cpp:28-72 | Two lists of valid packets have the same bytes if and only if they are the same up to normalising length. |
| Frames.PrefixFree | src/core/Network/Protocol.cpp:28-72 | No valid frame is a prefix of a different one. |
| SessionModel.StepKeeps | src/core/Network/TcpSession.cpp:20-161 | Every step keeps the session invariant: at most one read and one write outstanding, idle means nothing to write, reading stops only by closing, delivered packets are canonical, one report at most. |
| SessionModel.RunKeeps | src/core/Network/TcpSession.cpp:20-161 | The same over every run. |
| SessionRuns.WriterConserves | src/core/Network/TcpSession.cpp:76-117 | Bytes taken by the socket, untaken bytes of the buffer in flight, abandoned and queued bytes are together the serialization of everything sent. |
| SessionRuns.WireIsWholeFrames | src/core/Network/TcpSession.cpp:89-117 | The socket sees whole frames in send order, then at most a piece of the next one: frames never interleave. |
| SessionRuns.RunSends | src/core/Network/TcpSession.cpp:76-87 | Over every run what was sent is what the run passed to send, in order, and bytes on the wire are never taken back. |
| SessionRuns.BacklogConserved | src/core/Network/TcpSession.cpp:76-117 | Over every run: packets queued or in flight at the end plus writes ended equal those at the start plus packets sent. |
| SessionRuns.NoLostWakeUp | src/core/Network/TcpSession.cpp:82-102 | In every reachable state the writer is idle if and only if nothing is queued, in flight or abandoned; a backlog means exactly one write in flight unless a write failed. |
| SessionRuns.Drains | src/core/Network/TcpSession.cpp:89-117 | Over every run without new packets and write errors: at most as many writes complete as packets were queued or in flight; the writer is idle if and only if that many have, and then every byte is out. |
| SessionRuns.CanDrain | src/core/Network/TcpSession.cpp:89-117 | From every open state there is a run of byte movements and completions alone that empties the queue. |
| SessionRuns.FailedWriterIsStuck | src/core/Network/TcpSession.cpp:110-116 | After a failed write the writer never goes idle and never writes again; later packets only pile up. |
| SessionRuns.RunReceives | src/core/Network/TcpSession.cpp:20-73 | Over every run, delivered packets re-encoded plus the frame being read are exactly the bytes received. |
| SessionRuns.ReaderIsParser | src/core/Network/TcpSession.cpp:20-73 | In every state the reader is where the reference parser is after the bytes so far: delivered packets plus the one whose handler is still to run are the parsed ones, and the tail is the unfinished frame in the buffers, or the refused header. |
| SessionRuns.DeliveredFromReceived | src/core/Network/TcpSession.cpp:20-73 | Over every run from the start: delivered packets plus the one whose handler is still to run are what all received bytes mean, and the reader is where the parser stops: in the same unfinished frame or at the same refused header. |
| SessionRuns.SameBytesSameReader | src/core/Network/TcpSession.cpp:20-73 | The bytes that have arrived determine the whole reader state, up to the handler that is still to run: phase, current header, buffer contents, delivered packets, refusal. |
| SessionRuns.ChunkingIndependent | src/core/Network/TcpSession.cpp:20-73 | Two runs that receive the same bytes in any pieces, whatever else happens in them, find the same packets and are left with the same unfinished frame; unless a read failed they end in the same reader state. |
| SessionRuns.AfterClose | src/core/Network/TcpSession.cpp:25-48 | Once closed, any continuation delivers at most one more packet, only the one already complete in the buffer; nothing is sent or reported any more. |
| SessionRuns.LateDeliveryHappens | src/core/Network/TcpSession.cpp:58-72 | That late delivery does happen whenever a whole frame was in the buffer at close. |
| SessionRuns.LateDeliveryRun | src/core/Network/TcpSession.cpp:120-127 | A run from the start in which it happens: a ping arrives whole, the session is closed, the ping is delivered. |
| SessionRuns.CloseNeverReports | src/core/Network/TcpSession.cpp:120-127 | A session ended by close() never calls on_close_, whatever completes or fails later. |
| SessionRuns.ReportsOnce | src/core/Network/TcpSession.cpp:149-161 | Over every run from the start, on_close_ is called exactly once for every failed operation or refused header that finds the session open, and there is at most one such. |
| TcpSessions.TcpSession.constructor | src/core/Network/TcpSession.cpp:10-11 | A new session object stands for the fresh session. |
| TcpSessions.TcpSession.Start | src/core/Network/TcpSession.cpp:13-17 | Arms one header read and records the address for the callbacks; the first start is the model's step. |
| TcpSessions.TcpSession.DoReadHeader | src/core/Network/TcpSession.cpp:20-24 | Arms one header read with an empty buffer. |
| TcpSessions.TcpSession.DoReadPayload | src/core/Network/TcpSession.cpp:53-57 | Arms one payload read of the announced size. |
| TcpSessions.TcpSession.PlaceBytes | src/core/Network/TcpSession.cpp:22-25 | Arriving bytes are appended in the buffer of the outstanding read and nowhere else. |
| TcpSessions.TcpSession.TakeBytes | src/core/Network/TcpSession.cpp:107-110 | The socket takes the next bytes of the outstanding write, in order. |
| TcpSessions.TcpSession.RefuseHeader | src/core/Network/TcpSession.cpp:32-35 | The bad-header branch fails the session and reports if it was open. |
| TcpSessions.TcpSession.AcceptHeader | src/core/Network/TcpSession.cpp:37-48 | An empty packet is delivered and the next header read armed; otherwise the payload read is armed. |
| TcpSessions.TcpSession.OnHeaderRead | src/core/Network/TcpSession.cpp:25-49 | The header handler is the model's step: refuse and fail, deliver an empty packet, or read the payload; says which packet and whether on_close_ is due. |
| TcpSessions.TcpSession.OnPayloadRead | src/core/Network/TcpSession.cpp:58-72 | The payload handler delivers header and buffer as one packet and reads the next header. |
| TcpSessions.TcpSession.OnReadDone | src/core/Network/TcpSession.cpp:20-73 | Either read handler, with the delivered packet identified from the old state. |
| TcpSessions.TcpSession.OnReadError | src/core/Network/TcpSession.cpp:26-29 | A failed read closes an open session and reports once; a closed one stays silent. |
| TcpSessions.TcpSession.Send | src/core/Network/TcpSession.cpp:76-87 | Queues the frame and starts writing if idle, keeping the session invariant. |
| TcpSessions.TcpSession.DoWrite | src/core/Network/TcpSession.cpp:89-117 | Takes the head buffer into a write, or goes idle on an empty queue. |
| TcpSessions.TcpSession.OnWriteDone | src/core/Network/TcpSession.cpp:110-116 | A completed write goes on with the next buffer, keeping the session invariant. |
| TcpSessions.TcpSession.OnWriteError | src/core/Network/TcpSession.cpp:111-114 | A failed write abandons the untaken bytes and closes and reports as handle_error does. |
| TcpSessions.TcpSession.Close | src/core/Network/TcpSession.cpp:120-127 | Closes without reporting; closing twice changes nothing. |
| TcpSessions.TcpSession.HandleError | src/core/Network/TcpSession.cpp:149-161 | Closes and counts a report exactly when the session was open. |
| Delivery.TraceKeeps | src/core/Network/TcpSession.cpp:20-161 | Over every trace of two joined sessions, what each side has put on the wire is what the other has got plus the stream between them. |
| Delivery.BytesConserved | src/core/Network/TcpSession.cpp:20-117 | Decoded, partly read, in the stream, in flight or abandoned, and queued bytes are together the serialization of all packets sent. |
| Delivery.DeliveredArePrefix | src/core/Network/TcpSession.cpp:20-117 | In every reachable state, any packets: the delivered packets are, in order, without loss or duplication, the first of those sent if and only if they are no more than the valid prefix; they are no more when the first bad packet is refused. |
| Delivery.DeliveredAgainstSent | src/core/Network/TcpSession.cpp:20-117 | For any packets at all: in every reachable state the delivered packets are the first of those sent if and only if they are no more than the valid prefix. |
| Delivery.FifoRefinement | src/core/Network/TcpSession.cpp:20-117 | Over every trace of two fresh sessions, any packets, both directions: in every state the connection refines a FIFO queue of packets if and only if no more have come out than the valid prefix has, which holds whenever the first bad packet is refused. |
| FifoLaw.FifoExactly | src/core/Network/TcpSession.cpp:20-117 | For every packet list and either direction: the connection is a FIFO queue in every trace that sends these packets if and only if the first bad packet, if any, is one the receiver refuses. |
| FifoLaw.CleanRun | src/core/Network/TcpSession.cpp:20-117 | Any packets can be sent in a trace without failures that comes to rest. |
| Delivery.RefusalIsExact | src/core/Network/TcpSession.cpp:31-35 | When a header is refused, whatever bytes remain: exactly the valid packets before the first bad one have been delivered if and only if that one's length field has not wrapped to an acceptable value. |
| Delivery.SilenceIsExact | src/core/Network/TcpSession.cpp:20-117 | When everything is written and read and the reader waits: all packets are delivered if and only if no first bad packet has a wrapped length, and then all were valid. |
| Delivery.ExactDelivery | src/core/Network/TcpSession.cpp:20-117 | Over every trace without failures that has come to rest, either direction, any packets: exactly the longest valid prefix has been delivered, and the connection is a FIFO queue, if and only if the first bad packet is one the receiver refuses; and then the receiver is closed if and only if there was a bad one. |
| SessionTable.StepKeeps | src/core/Network/NetworkManager.cpp:39-203 | Every event keeps the table invariant and the accounts. |
| SessionTable.OpenIffMapped | src/core/Network/NetworkManager.cpp:153-203 | Over every run of the event system a registered session is open if and only if it is the one mapped under its own address; no open session is orphaned. |
| SessionTable.Conservation | src/core/Network/NetworkManager.cpp:39-203 | Over every run, also past a stop: registrations = mapped + replaced + failed + evicted + stopped; lost callbacks = failures + discovery losses; a session has reported once if an error found it open, and not at all otherwise. |
| SessionTable.BlindEraseIsRight | src/core/Network/NetworkManager.cpp:192-203 | The erase by address removes exactly the failed session, as an erase by identity would, for every session and state. |
| SessionTable.OneOpenPerKey | src/core/Network/NetworkManager.cpp:153-165 | At most one registered session per address is open. |
| SessionTable.GuardsAgree | src/core/Network/NetworkManager.cpp:140-144 | is_connected is presence in the table, and connect_to does nothing exactly then. |
| SessionTable.EveryDialIsPending | src/core/Network/NetworkManager.cpp:93-113 | Over every run, for every address: the connects pending at it in the end are those begun at it while it was unmapped, less those that succeeded or failed there. |
| SessionTable.MappedIsLastRegistered | src/core/Network/NetworkManager.cpp:153-203 | Over every run, with any failures, evictions and stops: whatever is mapped at an address is the last session registered there. |
| SessionTable.StaysMapped | src/core/Network/NetworkManager.cpp:153-203 | Over every run that registers nothing else at the address, a mapped session stays mapped if and only if it does not fail, is not evicted and the manager does not stop; failures of replaced sessions do not touch it. |
| SessionTable.LastOneWins | src/core/Network/NetworkManager.cpp:153-203 | Over every run, with any failures, evictions and stops: the last session registered under an address is mapped in the end if and only if it has not failed, been evicted or been stopped since. |
| SessionTable.RacingConnectsConverge | src/core/Network/NetworkManager.cpp:103-108 | ... and of all sessions the run registers there, in any order of connects and accepts and with the aborted reads of replaced ones in between, it is the only one that can be open, and is open exactly then. |
| Races.RacingNodes | src/core/Network/NetworkManager.cpp:93-178 | Two nodes register any number of connections between them, each in its own order; transfers, replies, client packets, failures of any connection and evictions interleave freely: once at rest they are connected if and only if both registered the same connection last and nothing ended it, no failed operation, no refused header and no eviction, and then by that one; otherwise both tables are empty. |
| Races.UndisturbedRace | src/core/Network/NetworkManager.cpp:93-178 | If nothing breaks by itself and all packets are valid, they are connected if and only if both registered the same connection last. |
| Races.RaceOutcome | src/core/Network/NetworkManager.cpp:93-178 | Every such race that has registered all connections can be continued to rest and then ends that way. |
| Races.CrossedConnectsLoseBoth | src/main.cpp:217-220 | A run in which each of two nodes registers two connections, in crossed order, nothing breaks by itself, and at rest no connection is left. |
| Races.RaceToRest | src/core/Network/NetworkManager.cpp:93-178 | From every state of the race the transport alone comes to rest. |
| SessionTable.ClosedForGood | src/core/Network/NetworkManager.cpp:153-203 | A session that was replaced, evicted, stopped or has failed never opens and never reports again, over every run, registrations at its address and after a stop included. |
| SessionTable.StopIsFinal | src/core/Network/NetworkManager.cpp:69-79 | Over every continuation, registrations by late connects included: the sessions there were at the stop stay closed and silent, whatever is mapped later was registered later, and without late registrations the table stays empty. |
| NetworkManagers.NetworkManager.constructor | src/core/Network/NetworkManager.cpp:10-11 | A new manager has an empty table and satisfies the invariant. |
| NetworkManagers.NetworkManager.RegisterSession | src/core/Network/NetworkManager.cpp:153-178 | The previous session at the address is closed; the new one is mapped, started and open and has been given exactly one packet, the client's handshake; the client is called back; every other session is unchanged and the table invariant kept. |
| NetworkManagers.NetworkManager.OnPeerConnected | src/main.cpp:227-238 | The client's handshake, and nothing else, is sent on the session mapped at the address. |
| NetworkManagers.NetworkManager.OnIncomingSession | src/core/Network/NetworkManager.cpp:148-151 | An accepted session is registered under its peer's address and greeted. |
| NetworkManagers.NetworkManager.ConnectTo | src/core/Network/NetworkManager.cpp:93-113 | Exactly when the address is not in the table, one connect to this very address becomes pending. |
| NetworkManagers.NetworkManager.OnConnected | src/core/Network/NetworkManager.cpp:106-108 | A completed connect is no longer pending; its session is registered under the dialled address and greeted, closing whichever one got there first. |
| NetworkManagers.NetworkManager.OnConnectFailed | src/core/Network/NetworkManager.cpp:109-112 | A failed connect is no longer pending and leaves the table as it is. |
| NetworkManagers.NetworkManager.OnSessionClosed | src/core/Network/NetworkManager.cpp:192-203 | Erases whatever is mapped at the address, tells the client the peer is lost and counts it. |
| NetworkManagers.NetworkManager.OnPeerFound | src/main.cpp:217-220 | The client's guard leads to one pending connect to the peer's address exactly when that is not in the table. |
| NetworkManagers.NetworkManager.SendTo | src/core/Network/NetworkManager.cpp:116-124 | The packet goes to the mapped session, which is open, and to no other session. |
| NetworkManagers.NetworkManager.Broadcast | src/core/Network/NetworkManager.cpp:126-133 | The loop gives every mapped session the packet exactly once and changes no other. |
| NetworkManagers.NetworkManager.IsConnected | src/core/Network/NetworkManager.cpp:140-144 | True exactly when the address is in the table. |
| NetworkManagers.NetworkManager.OnPeerLost | src/core/Network/NetworkManager.cpp:39-50 | A lost peer's session is closed silently and unmapped; the client is told in any case. |
| NetworkManagers.NetworkManager.Stop | src/core/Network/NetworkManager.cpp:69-79 | The loop closes every mapped session; the table is empty and nobody is told. |
| NetworkManagers.NetworkManager.OnSessionPacket | src/core/Network/NetworkManager.cpp:180-190 | A ping puts exactly one pong on the mapped session, a text message exactly one receipt, every other kind nothing; all packets but pings reach the client. |
| NetworkManagers.NetworkManager.OnMessage | src/main.cpp:151-197 | A text message puts exactly one "delivered" receipt on the mapped session, every other packet nothing. |
| NetworkManagers.NetworkManager.OnReadDone | src/core/Network/NetworkManager.cpp:169-174 | A read completion with its callbacks: the session steps, the delivered packet puts a pong, a receipt or nothing on the session mapped at its address and is handed to the client unless it is a ping; a bad header takes the session out of the table and is reported as a lost peer. |
| NetworkManagers.NetworkManager.OnReadFailed | src/core/Network/NetworkManager.cpp:172-174 | A failed read takes an open session out of the table and leaves the table alone for a closed one. |
| NetworkManagers.NetworkManager.OnWriteFailed | src/core/Network/NetworkManager.cpp:172-174 | The same for a failed write. |
| NetworkManagers.NetworkManager.OnBytes | src/core/Network/TcpSession.cpp:22-25 | Bytes that arrive for one session change its buffer only: no registered session shares a buffer with another. |
| NetworkManagers.NetworkManager.OnBytesTaken | src/core/Network/TcpSession.cpp:107-110 | Bytes taken from one session leave all others and the table alone. |
| NetworkManagers.NetworkManager.OnWriteDone | src/core/Network/TcpSession.cpp:110-116 | A completed write goes on with the next buffer of its session and leaves all others and the table alone. |
| ReplyPolicy.ReceiptBytes | src/main.cpp:169-171 | The literal bytes of the receipt a text message is answered with. |
| Answers.RepliesAnswerRequests | src/main.cpp:151-197 | For every packet list: the replies are, in order, one pong per ping and one "delivered" receipt per text message, and nothing else. |
| ReplyDebt.RepliesEnd | src/main.cpp:168-172 | The automatic replies are valid packets that call for no reply. |
| ReplyDebt.ReplyAddsNoDebt | src/main.cpp:168-172 | Appending an automatic reply to any stream, even one the receiver misreads, never raises what the stream can still cause: a reply cannot be mistaken for a request. |
| Quiescence.HandlingWorks | src/core/Network/NetworkManager.cpp:180-190 | Handling a packet lowers the connection's work by more than its reply can add. |
| Quiescence.StepWorks | src/core/Network/NetworkManager.cpp:180-190 | Every step of the two-node system strictly lowers an explicit rank. |
| Quiescence.EveryRunEnds | src/core/Network/NetworkManager.cpp:180-190 | From every state that keeps the connection invariant, whatever packets were sent, wrapped lengths included: without user input and new connections every run, of any steps in any order, has at most as many steps as the rank of its first state. |
| Quiescence.RunToRest | src/core/Network/TcpSession.cpp:20-117 | From every state the transport alone reaches a state in which no byte can move and no handler waits. |
| Quiescence.RestIsComplete | src/core/Network/TcpSession.cpp:20-117 | In such a state an open connection has delivered, both ways, what the bytes sent on it mean, and so every packet sent on it unless a length field has wrapped. |
| Quiescence.NewConnectionIsHealthy | src/core/Network/NetworkManager.cpp:153-178 | A connection whose two ends have started satisfies the premise of the next result. |
| Quiescence.SendKeepsHealthy | src/core/Network/TcpSession.cpp:76-87 | ... and keeps satisfying it when valid packets are sent on it. |
| Quiescence.EverythingArrives | src/main.cpp:151-197 | With valid packets, a connection that is up stays up and delivers every packet ever sent on it, both ways, in every run to rest that does not break it or give it up, whatever becomes of other connections. |
| Answers.EveryRequestIsAnswered | src/main.cpp:151-197 | Over every run, with registrations, failures and evictions at either node, any number of connections, registered or not, any packets: on the connection mapped in the end a node has sent, since it registered it, its handshake and then exactly one reply to each packet handed out to it, on whichever connection, that calls for one, in order with what its client said. |
| Answers.SentWhileMapped | src/core/Network/NetworkManager.cpp:116-124 | Over every run, for every connection: what a node has sent on it is, in order, its handshake and what it wanted to send while the connection was the mapped one. |
| Answers.PassedAreReplies | src/main.cpp:151-197 | In a run without registrations in which the client says nothing, what a node wants to send is the replies to everything handed out to it. |
| Answers.RequestsAreAnsweredInOrder | src/main.cpp:151-197 | Over every run without registrations and client packets: what a node has newly sent on its connection is, packet by packet, one pong per ping and one "delivered" receipt per text message handed out to it on any connection, in that order. |
| Answers.HandedOutIsDelivered | src/core/Network/NetworkManager.cpp:180-190 | Over every run, the packets handed out from one connection are those appended to its delivered ones. |
| Handshakes.HandshakeIsSentFirst | src/main.cpp:227-238 | Over every run, failures and replacements included: the first packet a node sends on a connection is the handshake it registered it with, sent as soon as the connection is registered. |
| Handshakes.HandshakeArrivesFirst | src/core/Network/NetworkManager.cpp:176-177 | Over every run from before a connection is registered: the first packet either end delivers on it is the other client's handshake. |
| Nodes.MoveKeeps | src/core/Network/NetworkManager.cpp:39-203 | Every move of the two-node system, registrations, failures and evictions included, any packets: at each node an end is up if and only if it is the mapped one; a move starts at most the end it registers and brings down at most one end per node, and the table follows. |
| Exchange.LatePacket | src/core/Network/TcpSession.cpp:25-72 | In a run to rest a connection that is not up at a node hands out there exactly the packet that was complete in it, if any. |
| Exchange.RepliesFollowDeliveries | src/core/Network/NetworkManager.cpp:180-190 | Over every run, as long as no closed connection holds a packet that calls for a reply: a node has sent on its mapped connection exactly the replies to what was newly delivered on it, in order. |
| Exchange.OutcomeOfTheExchange | src/main.cpp:151-197 | A healthy connection mapped at both nodes, beside any number of others, closed or not registered yet: every schedule of steps that spares it comes to rest in the same place: still mapped, each ping and text message still on the way answered once, in order, each late packet of a closed connection answered once, and everything sent, replies included, delivered. |
| Exchange.LateRequestExists | src/core/Network/NetworkManager.cpp:153-165 | A state with a replaced connection, which still holds a ping whose answer will go out on the new one, and a third one still being set up. |
| NodeTables.FitsIsConsistent | src/core/Network/NetworkManager.cpp:153-203 | The two-node invariant is the invariant of the session table of either node, over the sessions it has registered. |
| NodeTables.RegisterIsRegister | src/core/Network/NetworkManager.cpp:153-165 | A registration of the two-node system changes its node's table as the registration step of the session table does. |
| NodeTables.RespondIsReply | src/core/Network/NetworkManager.cpp:180-190 | The replies of the two-node system go out exactly as the manager object sends them through its table. |
| NodeTables.ActOnIsFail | src/core/Network/NetworkManager.cpp:192-203 | A session of the two-node system that fails changes its node's table as the failure step of the session table does, whichever session is mapped. |
| NodeTables.ActOnLeavesPeer | src/core/Network/NetworkManager.cpp:192-203 | Whatever happens to one end of a connection leaves the other node's table alone. |
| NodeTables.EvictIsEvict | src/core/Network/NetworkManager.cpp:39-50 | Giving up the peer changes the table as the eviction step does. |
| NodeTables.RunKeepsTables | src/core/Network/NetworkManager.cpp:153-203 | Over every run of the two-node system, with registrations at either node, both tables keep the invariant of the session table. |
| PeerTable.AgreesWithHistory | src/core/Network/UdpDiscovery.cpp:129-192 | After any run an address is in the table if and only if its latest accepted beacon, one that parses and does not carry our own non-empty key, has not been outdated by a later sweep, with the content of that beacon. |
| PeerTable.BeaconIsRecorded | src/core/Network/UdpDiscovery.cpp:124-157 | After any run, one more datagram: a beacon with a key other than ours is recorded as it is and announced, as new exactly when its address was not known; our own and unparsable ones change nothing. |
| PeerTable.EveryBeaconIsAnnounced | src/core/Network/UdpDiscovery.cpp:151-157 | Over every run the client is told of every beacon of another node exactly once, in order, with the recorded content, whether the peer is new or not. |
| PeerTable.NeverOneself | src/core/Network/UdpDiscovery.cpp:137-141 | Our own non-empty key is never in the table. |
| PeerTable.NoFalseEviction | src/core/Network/UdpDiscovery.cpp:143-149 | A peer whose beacons are never more than 15 s apart is in the table at every moment up to 15 s after the last one and is never reported lost. |
| PeerTable.LostIffLate | src/core/Network/UdpDiscovery.cpp:169-191 | Over every run: a peer is reported lost if and only if some sweep comes strictly more than 15 s after its latest beacon before that sweep. |
| PeerTable.FifteenSeconds | src/core/Network/UdpDiscovery.cpp:175-192 | At literal times: a sweep 15000 ms after the only beacon keeps the peer, one 15001 ms after it reports it lost. |
| PeerTable.EventsAlternate | src/core/Network/UdpDiscovery.cpp:143-191 | Per address, new-peer and lost events alternate in every run, and the table holds exactly the peers last announced. |
| PeerTable.AlwaysListening | src/core/Network/UdpDiscovery.cpp:110-166 | While running exactly one receive is outstanding in every run: no datagram and no error ever stops reception; after a stop none waits on the socket. |
| PeerTable.AfterStop | src/core/Network/UdpDiscovery.cpp:65-74 | After stop no sweep evicts, exactly the datagrams that had already arrived are handled, and if there are none nothing changes any more. |
| PeerTable.AfterStopFromStart | src/core/Network/UdpDiscovery.cpp:65-74 | Over every run from the start that is stopped: at most one more datagram is handled. |
| PeerTable.LateBeacon | src/core/Network/UdpDiscovery.cpp:115-164 | A datagram that had arrived when discovery was stopped can still add a peer, which then stays for good. |
| PeerTable.LateBeaconRun | src/core/Network/UdpDiscovery.cpp:115-164 | A run from the start in which that happens. |
| PeerTable.StalenessBound | src/core/Network/UdpDiscovery.cpp:169-204 | With sweeps at most `slack` late, no entry is ever older than 30 s + slack while discovery runs, and none older than 15 s right after a sweep. |
| PeerTable.WorstCaseIsReached | src/core/Network/UdpDiscovery.cpp:169-204 | That bound is attained by a concrete run for every slack. |
| UdpDiscoveries.UdpDiscovery.Start | src/core/Network/UdpDiscovery.cpp:30-63 | Opens the socket and starts one receive and one timer wait; a start after a stop keeps the table. |
| UdpDiscoveries.UdpDiscovery.Stop | src/core/Network/UdpDiscovery.cpp:65-74 | The timer waits are cancelled and the receives waiting on the socket fail; what had completed before is still handled. |
| UdpDiscoveries.UdpDiscovery.DoReceive | src/core/Network/UdpDiscovery.cpp:110-115 | Arms a receive only while running. |
| UdpDiscoveries.UdpDiscovery.OnReceive | src/core/Network/UdpDiscovery.cpp:115-165 | A parsed beacon whose key is not our own non-empty one overwrites its entry with its content and is announced, as new exactly when absent; our own and unparsable datagrams change nothing; the receive is re-armed only while running. |
| UdpDiscoveries.UdpDiscovery.OnReceiveError | src/core/Network/UdpDiscovery.cpp:116-122 | An error re-arms the receive only while running. |
| UdpDiscoveries.UdpDiscovery.EraseStale | src/core/Network/UdpDiscovery.cpp:175-191 | Erasing while iterating, in any order, keeps exactly the fresh entries unchanged and lists every stale address once. |
| UdpDiscoveries.UdpDiscovery.CheckTimeouts | src/core/Network/UdpDiscovery.cpp:169-192 | While running, sweeps the table and reports each lost address once; otherwise does nothing. |
| UdpDiscoveries.UdpDiscovery.ScheduleTimeoutCheck | src/core/Network/UdpDiscovery.cpp:194-197 | While running, exactly one wait is armed afterwards and earlier ones are cancelled. |
| UdpDiscoveries.UdpDiscovery.OnTimer | src/core/Network/UdpDiscovery.cpp:197-203 | A wait whose time is up sweeps and arms the next one exactly when running; a cancelled one changes nothing. No wait is lost or doubled. |
| UdpDiscoveries.UdpDiscovery.Peers | src/core/Network/UdpDiscovery.cpp:206-214 | The snapshot has as many elements as the table, contains every entry and nothing else. |

## Left out

- Boost.Asio, name resolution, accepting, socket options and thread start-up: they appear as events that deliver a fresh session or complete an operation.
- Mutexes as objects and the unsynchronised access to `closed_`: handlers are atomic steps.
- JSON encoding of beacons and the lifetime of the broadcast buffer: a decoded beacon, or its absence, is the input of the receive handler.
- The JSON text of the handshake: a parameter of `RegisterSession`.
- Encryption, SQLite repositories, settings, console and logging: their behaviour is that of libraries, or a plain copy of fields.
- Timers in runs beyond the bound on how late a sweep may be, and the broadcast timer: time is an integer number of milliseconds.
- Reads on two outstanding operations at once would share a buffer in the source; the value model keeps a buffer per operation, and `SessionModel.ReaderInv` shows there is never more than one.
- TcpSessions.TcpSession.Start: says of a second start only that it arms a second header read; the session model has no state for two reads into one buffer.
- NetworkManagers.NetworkManager.RegisterSession: requires a session not registered before, as both callers provide.
- Runs over several starts of discovery: the runs of `PeerTable` end with the first stop. A start before the aborted receive has been handled leaves two receives outstanding.
- UdpDiscoveries.UdpDiscovery.Start: requires discovery not to be running, because the socket cannot be opened twice.
