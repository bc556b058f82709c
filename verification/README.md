# Verified model of libsimulator

libsimulator is a deterministic discrete-event network simulator: sockets, timers, queues and a few HTTP
nodes that run against a simulated clock. This project models its state machines in Dafny and proves what
they guarantee over whole runs.

Every component has the same shape.

* A *specification module* holds a snapshot datatype of the object's fields and one function per entry point.
* A *class* has the source's fields and methods, with its loops; each method is proved to compute the function.
* *Run lemmas* say what holds after any sequence of steps. A step that is not possible in a state leaves the
  state unchanged, so "for every list of steps" is every run. Snapshots also carry history (what was sent,
  posted, dropped, fired) that no step reads.

| files | component |
|---|---|
| `TcpSpec`, `TcpFacts`, `TcpSocket` | the TCP socket: segmentation, window, re-sending, reassembly, scattered reads |
| `Transport`, `TransportInv`, `TransportSteps`, `TransportTheorems`, `TransportReactions`, `TransportDelivery`, `TransportRuns` | one direction of a connection: two sockets and a network that delays, reorders and drops; its safety, how the sender reacts to each event, what decides whether everything arrives, and concrete runs |
| `Reassembly` | the receiver alone, for arrivals in any order with duplicates |
| `LinkQueue` | the bandwidth and latency queue and its closed form |
| `TimerSpec`, `Timers`, `EventLoop`, `TimerPosts`, `RunLoop`, `RunReturns` | timers, the sorted timer vector, the clock, what is posted, the run loop |
| `Acceptor`, `UdpPacing`, `Ports` | accept pairing, datagram pacing, port allocation |
| `HttpText`, `HttpParse`, `HttpPaths`, `HttpPrint`, `HttpTarget`, `HttpRoundTrip`, `HttpIntake`, `HttpRequests`, `HttpForward` | request framing, parser, printer, receive buffers and the buffer towards the server |
| `Packets`, `Options`, `Sequences` | the packet record, optional values and list facts |

`dafny verify dfyconfig.toml` checks everything.

## Where the code differs from what one would expect

Each of these is kept as the code has it, with the exact condition proved and a concrete input or run.

* A packet that is dropped a second time is lost, because the hop has moved the drop callback out and nothing
  puts it back (src/queue.cpp:82). `SecondDropLoses` is such a run; `LossIsFinal` says that the reader never gets past it.
* Closing does not clear or send the list of packets to re-send, and acks no longer reach a closed sender
  (src/tcp_socket.cpp:233-243). `CloseStrands` is a run that loses nothing and still delivers nothing.
  `CompleteExactlyWithoutLoss`: once the network is empty the stream is complete if and only if nothing was lost and
  nothing waits to be re-sent.
* Only an ack triggers re-sending (src/tcp_socket.cpp:847). `StalledExactly`: when nothing is in transit and packets wait,
  any byte is ever re-sent if and only if the window has room for a full segment. `OneDropStalls` is an open connection that one
  drop stalls, and `StuckIsFinal` says that neither this nor a close with waiting packets is ever overcome.
* Re-sent bytes are counted in flight twice (src/tcp_socket.cpp:788). `InFlightExact` gives the exact value; it is the
  outstanding sum if and only if nothing was re-sent. `SecondDropLoses` ends with two bytes in flight and one outstanding.
  `IdleAcceptsExactly`: when everything was delivered and acked, another byte is ever accepted if and only if the re-sent
  bytes and one segment fit the window; `IdleAcceptsNothing` is an idle connection that accepts nothing more.
* A halving at sequence number 0 is not remembered, because 0 also stands for "never" (src/tcp_socket.cpp:815). The
  spacing in `WindowSafety` is for later numbers; `HalvedAgainWithinWindow` halves twice within a window.
* A dropped packet that is returned to a socket after `close` follows a null channel (src/tcp_socket.cpp:807).
  `FaultsExactlyOnLateReturn` proves that this is the only failing assertion or null pointer in any run;
  `LateReturnHappens` is such a run.
* Arming a timer while the simulation is stopped, and a second wait on a timer, fail assertions (src/simulation.cpp:139,
  src/high_resolution_timer.cpp:115). `EventLoop.FaultsExactly` says that a run fails an assertion if and only if it does one
  of these; `ArmedWhileStopped` does.
* `ClockGoesBackExactly`: advancing moves the clock back if and only if some queued timer was armed for the past.
  The ordering results take "never armed for the past" as their premise; `ClockGoesBackOnce` is a run without it.
* `ReentryExact`: a forwarded packet that synchronously re-enters the same queue starts the head of the queue twice
  if and only if the queue was empty after the pop and the packet is admitted. `ReentryStartsTwice` is a reachable case.
* `PairsInOrder`: the k-th handler that gets a connection has the k-th SYN, and SYNs are connections taken plus backlog,
  if and only if a closed acceptor refused none. `ClosedRefuses` is a run in which one is refused.
* `RoundTripExact`: the proxy's printed request is read back as the same request if and only if it had a host field
  or the host in its target contains no line break; `BrokenHostExample` is a request that is not.
* `HostBeforePort`: the host and the port of a target are taken apart at the last colon of the authority, so an IPv6
  address in brackets without a port is cut inside the address; `AddressWithoutPort` is one.
* `ParentSurvivesExactlyAtTheEnd`: a normalized path still has a `..` segment if and only if that is its last segment;
  `ParentKept` is one.
* A request longer than the proxy's buffer stops the proxy for good (src/http_proxy.cpp:116-120). `TakesNextExactly`: some
  way of reading what is to come makes progress if and only if the next frame ends within 65536 bytes of where the kept
  bytes start. `FullBufferStalls` says that a full buffer never changes; `BufferFills` fills it with one read.
* `PortReadsBack`: the proxy's assertion on the port (src/http_proxy.cpp:158) fails for port 65535.

## Model

| member | source | states |
|---|---|---|
| TcpSocket.Socket.SendSegment | src/tcp_socket.cpp:509-520 | numbers and hands over one segment; a hop that drops it while it is being sent runs the drop callback before the call returns |
| TcpSocket.Socket.SendPacket | src/tcp_socket.cpp:786-803 | the in-flight counter and the outstanding map after handing over a packet |
| TcpSocket.Socket.PacketDropped | src/tcp_socket.cpp:805-822 | the packet is kept for re-sending and the window is halved, not below one segment, unless it was halved less than a window of packets ago at a number above 0 |
| TransportReactions.DropHalvesExactly | src/tcp_socket.cpp:805-822 | when a hop drops a packet of a live sender, the window becomes half, but at least one MSS, exactly when no number above 0 is remembered or the packet's number is a window of packets beyond it, and is unchanged otherwise; the packet waits, and nothing else changes |
| TransportReactions.WriteHalvesExactly | src/tcp_socket.cpp:500-539 | a write during which hops drop segments leaves the window that reacting to exactly the dropped numbers in order gives |
| TransportReactions.SegmentDropHalves | src/tcp_socket.cpp:805-822 | the same in figures for one segment dropped while it is handed over |
| TcpSocket.Socket.WriteSome | src/tcp_socket.cpp:460-540 | the nested loops compute the recursive specification, with every error case |
| WriteFacts.WriteSomeSegments | src/tcp_socket.cpp:491-539 | segments are non-empty, at most one MSS, consecutively numbered and concatenate to exactly the first `ret` bytes; less than everything is accepted only when the window is full; an error sends nothing, and exactly the source's five guards give one |
| WriteFacts.WriteFillsSegments | src/tcp_socket.cpp:500-531 | every packet of a write carries a full MSS unless its last byte is the last of a buffer |
| WriteFacts.WriteErrorsExactly | src/tcp_socket.cpp:464-498 | which of the errors a write gives, and exactly when |
| TcpSocket.Socket.IncomingAck | src/tcp_socket.cpp:833-869 | the ack is taken out of the accounting, dropped packets are re-sent while they fit, then the window grows |
| TcpSocket.Socket.Resend | src/tcp_socket.cpp:847-854 | the re-send loop |
| TransportReactions.AckGrowsExactly | src/tcp_socket.cpp:833-869 | an ack re-sends from the front until nothing waits or the next packet does not fit, and grows the window by the floor of MSS times acked bytes over the window |
| TcpSocket.Socket.IncomingData | src/tcp_socket.cpp:885-929 | every arrival is acked; it is held back or queued together with everything that became in-order |
| TcpSocket.Socket.ReadSome | src/tcp_socket.cpp:542-648 | the loops over packets and buffers compute the flattened read |
| ReadFacts.ReadSomeFlattens | src/tcp_socket.cpp:542-648 | a read copies exactly the first min(buffer space, available) bytes in order across any buffers, some of size zero, keeps every other byte of the buffers and of the queue, and gives an error only when no byte precedes it |
| TcpSocket.Socket.GetAvailable | src/tcp_socket.cpp:258-290 | the payload before the first error, and that error when there is none |
| ReadFacts.ReadOutcomeExactly | src/tcp_socket.cpp:542-648 | the result of a read and of `available` from the payload before the first error: each check in order, then the bytes, then the error |
| TcpSocket.Socket.Close | src/tcp_socket.cpp:193-248 | the eof is numbered and sent, and the fields are reset except the reorder buffer, the incoming queue and the resend list |
| TransportReactions.CloseStartsOver | src/tcp_socket.cpp:193-248 | an established connection sends one eof, and the socket is like a new one that is not open, but for the reorder buffer, the incoming queue and the resend list |
| Reassembly.DeliversInOrder | src/tcp_socket.cpp:898-925 | for arrivals in any order with duplicates, the expected number is the least that has not arrived and the queue holds exactly the first arrivals of all numbers below it, in order, once each |
| TransportSteps.NextKeeps | src/tcp_socket.cpp:786-929 | every step of a connection keeps the invariant and faults only on a late return |
| TransportTheorems.StreamSafety | src/tcp_socket.cpp:193-216 | in every run the bytes read are a prefix of the bytes accepted, and eof is reported only when they are equal and the sender has closed |
| TransportTheorems.ExactlyOnePlace | src/tcp_socket.cpp:898-907 | every allocated number is in exactly one place (network, resend list, held, handed over, lost), no other number is anywhere, and the "lower than expected" branch is never taken |
| TransportTheorems.NothingAfterEof | src/tcp_socket.cpp:591-602 | once the eof was read, nothing of the sender's is left in the network or in any list |
| TransportTheorems.FaultsExactlyOnLateReturn | src/tcp_socket.cpp:805-854 | the asserts on the ack path, the read path and the channel pointers hold in every run, except exactly when a hop returns a packet after the sender closed |
| TransportTheorems.CloseThenDropFaults | src/tcp_socket.cpp:805-809 | in every state with a fresh payload packet in transit, closing and then dropping it is such a fault |
| TransportRuns.LateReturnHappens | src/tcp_socket.cpp:805-809 | a concrete run: write, close, drop |
| TransportTheorems.InFlightExact | src/tcp_socket.cpp:786-854 | in flight = outstanding sum + bytes re-sent; accepted = acked + outstanding sum; without drops nothing is re-sent |
| TransportTheorems.WindowSafety | src/tcp_socket.cpp:811-859 | the window is at least one MSS; no payload is sent or re-sent beyond the window of that moment, also when hops drop synchronously; after a halving at s > 0 the next is at least a window of packets later |
| TransportReactions.WritesWithinWindow | src/tcp_socket.cpp:491-539 | no packet of a write goes beyond the window of that moment, the drops of earlier packets of the same write included, stated on the packets sent |
| TransportReactions.ResendsWithinWindow | src/tcp_socket.cpp:847-854 | no packet that an ack re-sends goes beyond the window |
| TransportTheorems.AdditiveIncrease | src/tcp_socket.cpp:856-859 | in any stretch of a run without returned packets in which at most one window is acked, the window grows by at most one MSS and never shrinks (section 3.1 of RFC 5681) |
| TransportDelivery.CompleteExactlyWithoutLoss | src/queue.cpp:76-85 | when the network is empty, the receiver has every packet and every accepted byte if and only if nothing was lost and nothing waits to be re-sent |
| TransportDelivery.LossIsFinal | src/queue.cpp:80-84 | after a loss no continuation gives the reader a byte from any lost packet on, or the eof |
| TransportDelivery.StuckIsFinal | src/tcp_socket.cpp:233-243 | once the sender has closed, or nothing is in transit and its window has no room, the list of packets to re-send never changes again, and no continuation gives the reader a byte from any packet in it on, or the eof |
| TransportDelivery.StalledExactly | src/tcp_socket.cpp:833-869 | when nothing is in transit and packets wait, some continuation re-sends a byte if and only if the window has room for a full segment |
| TransportDelivery.IdleAcceptsExactly | src/tcp_socket.cpp:786-854 | when nothing is in transit, waiting or lost, in flight are exactly the bytes ever re-sent, and some continuation has another byte accepted if and only if they and one segment fit the window |
| TransportRuns.SecondDropLoses | src/queue.cpp:80-84 | a concrete run in which a re-sent packet is dropped again and is gone, and more is in flight than outstanding |
| TransportRuns.CloseStrands | src/tcp_socket.cpp:233-243 | a concrete run without loss or fault that closes with a packet waiting: the network drains and the reader has nothing |
| TransportRuns.IdleAcceptsNothing | src/tcp_socket.cpp:786-854 | a concrete run after which an idle connection with everything acked accepts nothing more |
| TransportRuns.HalvedAgainWithinWindow | src/tcp_socket.cpp:811-821 | a concrete run with halvings at the numbers 0 and 1 and a window of two packets |
| TransportRuns.OneDropStalls | src/tcp_socket.cpp:805-822 | a concrete run in which one drop stalls an open connection |
| LinkQueue.Queue.IncomingPacket | src/queue.cpp:71-94 | tail drop or admission, and the start of an idle link |
| LinkRefinement.AdmittedExactly | src/queue.cpp:71-94 | in every run an arriving packet is queued last if and only if it is a handshake reply, an ack or an error, or there is no limit, or it fits the limit with what is queued; otherwise nothing changes |
| LinkRefinement.TransmissionTime | src/queue.cpp:115-122 | the floor of 10^9 times payload and overhead over the bandwidth; none without a bandwidth |
| LinkRefinement.TwoDepartures | src/queue.cpp:71-140 | a concrete run with its departure times in nanoseconds |
| LinkQueue.Queue.BeginSendNextPacket | src/queue.cpp:96-127 | the wait for the latency, the transmission wait, or the posted completion of an unlimited link |
| LinkQueue.Queue.NextPacketSent | src/queue.cpp:129-140 | the head is forwarded and the next packet is started |
| LinkRefinement.RefinesRecurrence | src/queue.cpp:71-140 | for every arrival pattern and bandwidth, packets depart in admission order at exactly d_k = max(d_{k-1}, a_k + latency) + tx(size_k), and the rest is queued |
| LinkRefinement.NeverFasterThanTheLink | src/queue.cpp:115-125 | between any two departures the link has time for every packet after the first; none departs before arrival + latency + transmission time |
| LinkRefinement.OneContinuation | src/queue.cpp:71-140 | exactly one continuation is pending if and only if packets are queued; the counter is the queued size; droppable bytes never exceed a limit; a transmission ends when the link is next free |
| LinkRefinement.ReentryExact | src/queue.cpp:129-140 | when synchronous re-entry keeps the single continuation, exactly |
| LinkRefinement.ReentryStartsTwice | src/queue.cpp:129-140 | a reachable queue and packet for which two completions are posted, the second for an empty queue |
| Timers.Simulation.NewTimer | src/high_resolution_timer.cpp:30-35 | a new timer has expired and has no handler |
| Timers.Simulation.AddTimer | src/simulation.cpp:137-149 | insertion after all timers that expire no later, only while the simulation is not stopped |
| Timers.Simulation.RemoveTimer | src/simulation.cpp:151-162 | the equal-range search and erasure |
| Timers.Simulation.Fire | src/high_resolution_timer.cpp:124-131 | the timer expires and its handler, if any, is posted |
| Timers.Simulation.Cancel | src/high_resolution_timer.cpp:60-68 | nothing for an expired timer; otherwise it leaves the queue and its handler is aborted |
| Timers.Simulation.ExpiresAt | src/high_resolution_timer.cpp:79-86 | cancel first, then queue under the new expiry |
| Timers.Simulation.ExpiresAfter | src/high_resolution_timer.cpp:88-95 | the same relative to now |
| Timers.Simulation.AsyncWait | src/high_resolution_timer.cpp:112-122 | the handler is kept, or posted at once by an expired timer |
| Timers.Simulation.Advance | src/simulation.cpp:74-89 | the clock moves to the first expiry and everything due fires |
| Timers.Simulation.Unwind | src/simulation.cpp:114-130 | cancelling a copy of the queue empties the queue, and the simulation is stopped |
| TimerPosts.AdvancePostsSuccess | src/simulation.cpp:74-89 | an advance posts, in queue order, exactly one success for each timer it fires that has a handler |
| TimerPosts.WaitPostsSuccess | src/high_resolution_timer.cpp:112-122 | a wait posts one success at once if the timer has expired, and otherwise keeps the handler |
| TimerPosts.CancelPostsAbort | src/high_resolution_timer.cpp:60-68 | a cancel posts exactly one abort if the timer is armed and has a handler |
| TimerPosts.RearmPostsAbort | src/high_resolution_timer.cpp:79-95 | re-arming posts the same, and the timer is queued under exactly the expiry asked for |
| TimerPosts.UnwindPostsAborts | src/simulation.cpp:114-130 | the exception path posts, in queue order, exactly one abort for each queued timer that has a handler |
| TimerFacts.RemoveFinds | src/simulation.cpp:157-161 | on a sorted queue the bisection finds exactly the timer and erases it alone |
| TimerFacts.InsertSorted | src/simulation.cpp:147-148 | the bisection keeps the queue sorted by expiry and arming order |
| TimerFacts.CancelKeeps | src/high_resolution_timer.cpp:60-86 | a cancelled timer is out of the queue, so its key changes only while it is not queued; no other timer changes |
| EventLoop.QueueStructure | src/simulation.cpp:137-162 | in every run the vector is sorted, holds a timer once if it has not expired and never otherwise, and cancelling takes out exactly that timer |
| EventLoop.ExceptionEmptiesQueue | src/simulation.cpp:114-119 | in every run the exception path leaves no timer queued |
| EventLoop.FaultsExactly | src/simulation.cpp:139 | a run fails an assertion if and only if some call arms a created timer after a stop without a restart since, or waits on a timer that has a handler |
| EventLoop.ArmedWhileStopped | src/simulation.cpp:139 | a concrete run that does |
| EventLoop.HandlersOnce | src/high_resolution_timer.cpp:60-131 | in every run each handler is posted at most once, with success or abort but not both, and is otherwise held by exactly one timer |
| TimerPosts.AbortedExactly | src/high_resolution_timer.cpp:60-131 | in every run a posted handler was aborted if and only if the arming it waited for was cancelled; success means that arming fired, or the timer had expired; a handler not posted waits for the arming its timer is queued under |
| EventLoop.AdvanceFiresExactlyDue | src/simulation.cpp:74-89 | in every run an advance moves the clock to the first expiry and fires, in queue order, exactly the timers that expire no later |
| EventLoop.ArmingsHaveOneFate | src/high_resolution_timer.cpp:60-95 | in every run each arming of a timer is in exactly one of queued, fired, cancelled |
| EventLoop.TimersFireInOrder | src/simulation.cpp:74-89 | if no timer is armed for the past, the clock never goes back, each timer fires at its expiry, and timers fire in order of expiry and then of arming |
| EventLoop.ClockGoesBackExactly | src/simulation.cpp:75-78 | when an advance moves the clock back, exactly |
| EventLoop.ClockGoesBackOnce | src/simulation.cpp:75-78 | a concrete run that sets the clock to a negative time |
| RunLoop.Run | src/simulation.cpp:49-131 | the loop with its counters computes the specification over the handlers that each round runs, including the exception path, a stop and a failed assertion |
| RunReturns.RunCountsExactly | src/simulation.cpp:64-113 | unless an assertion failed, `run` counts the posted handlers that ran, the handlers of other code in its rounds, and the timers that fired, all read off the history |
| RunReturns.ReturnsOnlyWhenIdle | src/simulation.cpp:64-113 | `run` returns only when stopped, or when nothing is ready and no timer is queued; it goes on for every round otherwise and never after a stop |
| RunReturns.IdleRoundReturns | src/simulation.cpp:64-113 | a round with nothing ready, no timer queued and no handler of other code is the last, and changes and counts nothing; any other round executes something |
| RunReturns.EndedIsEnded | src/simulation.cpp:91-113 | once `run` has ended no further round is looked at |
| RunLoop.RunIsARun | src/simulation.cpp:49-131 | `run` called in any reachable state ends, with any outcome, in a reachable state: the operations of its handlers and its advances are a run, so the results on the queue, handlers, armings and firing order hold for it, and it aborts exactly when an operation fails an assertion |
| RunLoop.ThrowsExactlyWhenStalled | src/simulation.cpp:91-105 | the run ends in the exception if and only if 1001 consecutive rounds executed something without moving the clock, at the first such moment |
| RunLoop.LoopKeeps | src/simulation.cpp:64-119 | every outcome leaves a well-formed timer queue, the exception an empty one, and only a failed assertion aborts |
| Acceptors.Acceptor.AsyncAccept | src/acceptor.cpp:144-228 | all three overloads: a pending accept is aborted, the new one registered, the backlog checked |
| Acceptors.Acceptor.IncomingSyn | src/acceptor.cpp:236-243 | the attempt joins the backlog, which is checked |
| Acceptors.Acceptor.CheckAcceptQueue | src/acceptor.cpp:274-370 | a closed acceptor refuses its backlog and aborts; otherwise the oldest attempt is paired with the pending accept |
| Acceptors.Acceptor.Cancel | src/acceptor.cpp:98-135 | pending handlers are aborted; `close` without an argument (lines 82-96) does the same and leaves the acceptor open |
| Acceptors.Acceptor.Close | src/acceptor.cpp:75-80 | pending handlers are aborted and the acceptor is closed |
| AcceptorRuns.PendingExcludesBacklog | src/acceptor.cpp:274-370 | in every run a pending accept and a waiting attempt never coexist, and the pointer to accept into is never null when used |
| AcceptorRuns.PairsInOrder | src/acceptor.cpp:318-360 | attempts are dealt with in SYN order; the k-th successful handler has the k-th SYN, and SYNs = taken + backlog, if and only if a closed acceptor refused none |
| AcceptorRuns.ClosedRefuses | src/acceptor.cpp:274-316 | a concrete run in which an accept on a closed acceptor refuses a waiting attempt |
| AcceptorRuns.HandlersOnce | src/acceptor.cpp:98-243 | each accept handler is posted at most once, and otherwise is the pending one |
| AcceptorRuns.EndpointFilledExactly | src/acceptor.cpp:144-370 | in every run the peer endpoint of an accept call is filled in if and only if the call gave one and its handler was given a connection |
| UdpPacing.Socket.SendTo | src/udp_socket.cpp:378-453 | every error and silent-drop branch, the bytes forwarded, and the next send time |
| UdpPacing.SendsExactly | src/udp_socket.cpp:378-425 | each error, the returned size, and whether a datagram of which size is forwarded, by equivalences on the arguments |
| UdpPacing.CardIsUsed | src/udp_socket.cpp:427-451 | a forwarded datagram occupies the network card for 10 ns per byte from now or from when it is free; any other call leaves the socket as it is |
| UdpPacing.LeakyBucket | src/udp_socket.cpp:409-451 | for a socket in any state, 10 ns per byte of the datagrams forwarded in any stretch is at most its duration plus the queue time plus the last datagram |
| Ports.Registry.Bind | src/simulation.cpp:172-215 | the branches of binding, with the search loop; binding UDP sockets (lines 232-274) is the same code on its own table |
| Ports.Registry.Unbind | src/simulation.cpp:217-223 | only the owner's entry is removed |
| Ports.UnbindsExactly | src/simulation.cpp:217-223 | the owner's entry leaves the table, every other entry stays |
| Ports.UnboundIsFree | src/simulation.cpp:172-223 | after its owner unbinds, anyone can bind the endpoint |
| Ports.BindsLeastFreePort | src/simulation.cpp:184-203 | port 0 gives the least free port from the counter on and fails exactly when the counter's port and all up to 65530 are taken |
| Ports.BindsGivenPort | src/simulation.cpp:177-214 | a given port is bound exactly when it is not reserved and free |
| Ports.ListenerKeepsEntry | src/simulation.cpp:217-223 | a listener keeps its endpoint in every run in which it does not unbind itself, whatever sockets that share the endpoint do |
| Ports.CounterInRange | src/simulation.cpp:189-190 | the counter stays in 2000 to 65534 and no reserved port is ever bound |
| Ports.CounterCycles | src/simulation.cpp:189-190 | after n uses the counter is 2000 + n mod 63535, in every run |
| HttpText.FindFirst | src/http_server.cpp:36-44 | the first occurrence or none |
| HttpText.TrimText | src/http_server.cpp:47-63 | the two trimming loops |
| HttpText.TrimSlice | src/http_server.cpp:47-63 | trimming removes exactly the white space (and zeros) at both ends |
| HttpText.SpacesExactly | src/http_server.cpp:47-63 | which characters are trimmed |
| HttpText.LowerCase | src/http_server.cpp:65-71 | character-wise lower case |
| HttpRequests.LowerIs | src/http_server.cpp:65-71 | the 26 letters become the lower-case ones, everything else stays |
| HttpParse.NormalizePath | src/http_server.cpp:73-102 | splitting and joining compute the specification |
| HttpPaths.NormalizeIdempotent | src/http_server.cpp:73-102 | normalizing twice is normalizing once |
| HttpPaths.ParentResolved | src/http_server.cpp:79-92 | a directory followed by `..` is as if neither were there, anywhere in a path |
| HttpPaths.ParentOfRoot | src/http_server.cpp:79-92 | a `..` at the top has no effect |
| HttpPaths.PlainStays | src/http_server.cpp:73-102 | a path without `..` before its last segment stays as it is |
| HttpPaths.FrontAndEnd | src/http_server.cpp:76-78 | the slash at the front is optional, and a zero character ends the path |
| HttpPaths.PathWithoutQuery | src/http_server.cpp:251-255 | the path is normalized without the query, except for CONNECT |
| HttpPaths.ParentSurvivesExactlyAtTheEnd | src/http_server.cpp:79-92 | a `..` segment is left exactly when it is the last segment |
| HttpPaths.ParentKept | src/http_server.cpp:79-92 | a concrete path whose last `..` is kept |
| HttpParse.Parse | src/http_server.cpp:228-284 | the parser with its loop over header lines, and every failure |
| HttpRequests.ParsesByLines | src/http_server.cpp:228-284 | for any method, target and header lines the parser accepts exactly when every line has a colon, and gives the names in lower case, names and values trimmed, a later line of the same name winning |
| HttpRequests.BrowserRequest | src/http_server.cpp:228-284 | a concrete request and its header map |
| HttpRequests.FrameEnds | src/http_server.cpp:286-291 | a request ends with the first two line breaks in a row |
| HttpLines.ParsedHeadersGood | src/http_server.cpp:259-282 | accepted keys are trimmed, lower case, without colon or line break; values are trimmed and without line break |
| HttpForward.Upstream.Forward | src/http_proxy.cpp:129-209 | the printed request is queued for the server and a write is started, or the target has no scheme, the port fails its assertion, or the buffer has no room |
| ForwardRuns.QueuedExactly | src/http_proxy.cpp:129-181 | in every run a request is queued behind the others exactly when its target has the scheme, its port is 0 to 65534 and its text fits the 65536 bytes; otherwise nothing changes |
| HttpTarget.TargetIsPath | src/http_proxy.cpp:141-143 | for any authority and path the forwarded target is the path, or a slash without one |
| HttpTarget.HostIsAuthority | src/http_proxy.cpp:146-154 | without a colon the host is the authority |
| HttpTarget.HostBeforePort | src/http_proxy.cpp:146-154 | with one it is what precedes the last colon, if anything does |
| HttpTarget.BracketsExactly | src/http_proxy.cpp:151-154 | one pair of brackets around the host is taken off, nothing else is changed |
| HttpForward.Upstream.OnServerWrite | src/http_proxy.cpp:278-295 | what the server took leaves the buffer, and the rest is written |
| ForwardRuns.ForwardedInOrder | src/http_proxy.cpp:170-209 | in every run what the server took followed by what is queued is the printed requests in order; the buffer is never exceeded; once connected, queued bytes always have a write in flight |
| ForwardRuns.WriteOffersAll | src/http_proxy.cpp:269-295 | a write offers everything queued when it starts: at once on an open connection, when it is made, and when the write before is done |
| ForwardSpec.PortReadsBack | src/http_proxy.cpp:156-158 | a decimal port behind any host is read back, whatever path follows, and passes the assertion if and only if it is below 65535 |
| ForwardSpec.AtoiSigned | src/http_proxy.cpp:156-157 | a sign before the digits counts |
| ForwardSpec.AtoiBlank | src/http_proxy.cpp:156-157 | white space before the number is skipped, and no number is 0 |
| ForwardSpec.DefaultPort | src/http_proxy.cpp:156-157 | without a colon the port is 80 |
| ForwardSpec.AddressWithoutPort | src/http_proxy.cpp:146-157 | a concrete target whose host and port are cut inside the address |
| HttpRoundTrip.RoundTripExact | src/http_proxy.cpp:129-176 | for every framed request with an absolute target and every order of its fields, printing, framing and parsing give back the method, the path of the target as the target, and the header map plus host, exactly when the request has a host field or its host holds no line break (sections 3.2.1 and 3.2.2 of RFC 9112) |
| HttpRoundTrip.ServerReads | src/http_proxy.cpp:129-176 | a clean request for host and port without a host field is read by the server with the path as target and the host, without brackets, as its host field |
| HttpRoundTrip.BrokenHostExample | src/http_proxy.cpp:146-175 | a framed request whose printed form is not read back |
| HttpRoundTrip.CleanTargetReadsBack | src/http_server.cpp:228-291 | in particular when the target has no carriage return or no line feed |
| IntakeSpec.ChunkingIrrelevant | src/http_proxy.cpp:96-120 | what is extracted and kept is a function of the bytes received |
| IntakeSpec.SameBytesSameRequests | src/http_proxy.cpp:96-120 | two ways of cutting the same bytes give the same requests, kept bytes and decision to close |
| IntakeSpec.NothingLostOrInvented | src/http_proxy.cpp:98-114 | extracted requests followed by the kept bytes are the bytes received, no full request is kept, each extracted request is one frame |
| HttpRequests.ProxyTakesExactly | src/http_proxy.cpp:98-127 | a framed request whose lines are fields and whose target has the scheme is taken, whatever follows; any other closes the connection |
| IntakeSpec.FullBufferStalls | src/http_proxy.cpp:116-120 | a full buffer without a full request never changes again |
| IntakeSpec.TakesNextExactly | src/http_proxy.cpp:96-120 | from any open state and for any bytes to come, some way of cutting them makes progress if and only if the next frame fits the buffer |
| IntakeSpec.BufferFills | src/http_proxy.cpp:116-120 | a concrete read that fills the buffer without a frame |
| HttpIntake.ProxyBuffer.OnReadRequest | src/http_proxy.cpp:86-127 | the loop over the fixed buffer with its moves extracts exactly the specified requests |
| HttpIntake.ServerBuffer.Reserve | src/http_server.cpp:216-226 | the server's buffer keeps its bytes and always has room |
| HttpIntake.ServerBuffer.OnRead | src/http_server.cpp:293-315 | at most one request is parsed and taken, the rest is kept, and one that does not parse closes the connection and clears the buffer |
| HttpRequests.ServerTakesExactly | src/http_server.cpp:293-315 | a framed request whose lines are fields is served with its parts, whatever follows; any other closes the connection |
| HttpRequests.ServerWaits | src/http_server.cpp:305-310 | without the end of a frame everything is kept |

## Left out

- LinkSpec.TxTime: the transmission time is the floor of 10^9 * size / bandwidth; the source multiplies and truncates doubles, which can differ by one nanosecond.
- TcpSocket.Socket.ReadSome: buffers are values, so caller's buffers that overlap in memory are not captured; the byte counter of the incoming queue is only ever decremented and is not modelled.
- TcpSocket.Socket.WriteSome: sequence numbers and byte counts are unbounded; the source's 64-bit and int counters are assumed not to wrap.
- TransportSteps.NextKeeps: one connection per socket object and one direction; reuse after close, data in the other direction and routes that deliver to the peer synchronously inside the sending call are not modelled (a route is assumed to hold at least one queue; synchronous drops are modelled).
- HttpIntake.ProxyBuffer.OnReadRequest: a request closes the connection here when it cannot be parsed or has no scheme; the assertion on its port and the exception for a full buffer, which depends on how fast the server reads, are outcomes of HttpForward.Upstream.Forward only.
- HttpForward.Upstream.Forward: resolving the host and failed connections are not modelled, opening and connecting are events; the field order is a parameter, the source's is the order of the map's keys; a port number beyond `int` is out of range here and undefined in C.
- The wake-up of waiting readers and writers: the code does not guarantee it (src/tcp_socket.cpp:753 and 837); a woken reader or writer is a later read or write step.
- RunLoop.Run: what handlers do beyond the timers is a parameter, and an exception thrown by a handler and the cancelling of sockets on the exception path (src/simulation.cpp:121-127) are not modelled.
- Handshake, `async_connect` and the posting of TCP read and write handlers: callback wiring around the modelled calls.
- The receiver's own close: it ends the other direction.
- Boost.Asio, executors and allocators: a handler is a number and posting appends to a list.
- Move construction, destructors, the mutex, the exception-to-error-code wrappers and out-of-memory paths.
- Packet capture, graph dump, labels and printed output: text and file output only.
- The resolver, SOCKS server, NAT, default configuration and sink forwarder: wiring and one-branch code; the resolver can arm its timer in the past, which the ordering results exclude.
- HTTP responses, handlers, redirects, keep-alive and the byte-range handler: string assembly around the modelled parser.
- The receive side of UDP sockets: a size check and a list append.
