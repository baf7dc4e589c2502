# Aether core: a verified model

A Dafny model of the network core of the Aether client, with proofs about every
run, every input and every reachable state.

- **Upload path** (`Liveness`, `FlowState`, `Backlog`, `LocalFlow`, `World`,
  `Upload`, `Gate`, `Lifecycle`, `Isolation`, `Runs`, `Netstack`, `Process`). Many TCP flows
  share one app channel and one backlog.
  `Netstack` holds the objects the run loop updates in place, proved against the
  functions of `Backlog` and `FlowState`. `World` is the whole process as a
  machine under any interleaving of writers (one shared-memory access at a
  time), ingests, drains, service passes, network events and reaps. It projects
  onto `LocalFlow`, one flow on its own, where the invariants are proved;
  `Upload` states what follows for every flow in every reachable state,
  `Gate` exactly when a write is admitted, `Lifecycle` exactly how a flow ends,
  `Isolation` how far other flows can reach it, and `Runs` that every run of one
  flow's machine is real. `Process` joins the objects to the machine: what the
  loop does to them is a run of events.
- **Device and run loop** (`Device`, `Scheduler`). The gated outbound queue and
  the three budgeted queues of one pass.
- **MASQUE** (`Varint`, `Capsule`, `H2Path`, `Checksum`). Variable-length
  integers, capsules, the incremental parser, the HTTP/2 data path end to end,
  HTTP/3 datagrams, and the data-plane probe.
- **Parsers** (`Sniff`, `Fragment`, `ClientHello`, `SplitStream`, `Dns`, `Ech`,
  `Dechunk`, `Json5`). Two ClientHello readers that must agree, the messages they
  read, the stream that splits the server name, DNS queries and replies, chunked
  bodies, and comment stripping.
- **Remembered gateways** (`LastConn`). A capped list against the full history.

Bytes are integers from 0 to 255, times are milliseconds, identifiers are
natural numbers. `dafny verify dfyconfig.toml` checks the project.

## Where the code and its words differ

The model follows the code. Each difference has its exact condition, and an
input or a run at which it shows.

- The half-close test waits for `pending`, but the orphan and close-wait
  branches behind it do not: `FlowState.TruncationIsExact` says exactly when a
  pass shuts the sending side with bytes still waiting, and
  `Runs.TruncationIsReachable` is a run that gets there.
- `outstanding` is described as bytes in flight. `Upload.OutstandingIsExact`
  says what else it counts and when there is nothing else; a write abandoned
  after `fetch_add` is counted for ever (`Upload.AbandonedBytesStayOutstanding`,
  `Runs.OutstandingWithNothingInFlight`).
- Other flows are said not to affect one flow. They cannot, except by filling
  the backlog's memory bound: `Isolation.HeldBackIffFull`,
  `Isolation.OthersMightAsWellBeSilent`, `Runs.AnotherFlowHoldsItBack`. While the
  admission gate is not forced they cannot do that either:
  `Isolation.OrdinaryRunsAreIsolated`.
- `strip_datagram_context` accepts bare packets, but not all that look like IP:
  `H2Path.StripKeepsBarePackets` gives the exact family it misreads, which no
  packet with a legal IPv4 header length belongs to; `H2Path.AMisreadPacket`.
- `drain_capsules` stops at a body that does not parse, so a packet behind it
  waits for the next chunk. Delivery is the same for every cut if and only if
  there is no such packet: `H2Path.EveryCutDeliversIffQuiet`,
  `H2Path.CutMattersBehindABrokenBody`.
- `flush_tx` keeps a packet the channel has no room for, but loses the one it
  has just taken when the channel is closed: `Device.StackDevice.FlushTx`,
  `Device.ClosedFlushLosesOne`.
- `build_query` truncates a label length to eight bits, so a label of 256 bytes
  or more makes a query that its own matcher refuses: `Dns.QueryAnswersItself`,
  `Dns.AQueryThatIsRefused`.
- `sni_host_range` looks at the first entry of the server_name list only, while
  `tls_sni` goes on to the first host_name entry: `Fragment.ParsersAgree`,
  `ClientHello.OnlyTheRouterSeesTheName`.
- The splitting stream cuts inside the server name on its first write only, so a
  first write the inner stream cuts short can leave the name in one piece:
  `SplitStream.NameIsSplitIff`, `SplitStream.AShortFirstWrite`.

## Model

| member | source | states |
|---|---|---|
| `Upload.RunProjects` | native/aether/aether/src/netstack.rs:998-1036 | Isolation over whole runs: after any interleaving of writers, drains, service passes, network events and reaps, one flow's share of the process equals its own private machine run on its own steps |
| `Runs.PrivateRunsAreReal` | native/aether/aether/src/netstack.rs:998-1036 | The converse: every run of the private machine, from the opening of the first flow, is that flow's share of some run of the process |
| `Upload.OtherFlowsCannotReach` | native/aether/aether/src/netstack.rs:1008-1036 | Two runs that give a flow the same birth and the same private steps, a message held back by the memory bound being no step, leave it in the same state |
| `Isolation.OthersMightAsWellBeSilent` | native/aether/aether/src/netstack.rs:961-966 | Deleting every event of every other flow from any run in which the memory bound never holds this flow back leaves its whole state, history and queue entries the same |
| `Isolation.OrdinaryRunsNeedNoBacklog` | native/aether/aether/src/netstack.rs:384-402 | The two halves of the upload path together: in every reachable state in which no write of any flow was forced through the gate and none was as long as `pending` may be, the backlog is empty |
| `Isolation.OrdinaryRunsAreIsolated` | native/aether/aether/src/socks.rs:1005 | So in such runs deleting every event of every other flow leaves this one the same, with no condition on the memory bound; the relay writes 16384 bytes at a time, under the limit on every device |
| `Isolation.HeldBackIffFull` | native/aether/aether/src/netstack.rs:1337-1355 | In every reachable state a flow's message at the head of the channel is held back if and only if the backlog has reached `MAX_BACKLOG_BYTES`; otherwise it is taken |
| `Runs.AnotherFlowHoldsItBack` | native/aether/aether/src/netstack.rs:1734-1736 | A run of two connected flows in which the first one's entries alone fill the bound and hold back the second, which has nothing queued |
| `Upload.StreamIntegrity` | native/aether/aether/src/netstack.rs:998-1036 | In every reachable state of a live flow never reset: bytes offered = acknowledged ++ in the socket ++ pending ++ its backlog entries ++ its channel entries, in order |
| `Upload.HalfCloseIsSafe` | native/aether/aether/src/netstack.rs:2191-2197 | In every reachable state, whenever a pass and not a departed app or a reset takes a flow out of `Established`, the flow has a `TcpClose`, every byte offered before its first one has been accepted by the socket, and what it accepted is a prefix of what was offered |
| `Upload.CreditConservation` | native/aether/aether/src/netstack.rs:351-402 | In every reachable state of a live flow, `sent` = abandoned + in hand + channel + backlog + pending + `accepted_total` until it is reset; and, reset or not, `accepted_total` = delivered + send queue and `acked` <= delivered <= `accepted_total` <= `sent`, so the subtraction in `outstanding` never saturates |
| `Upload.AckedNeverDecreases` | native/aether/aether/src/netstack.rs:364-369 | Across every step of every kind `accepted_total - send_queue` of a live flow never decreases by itself, being exactly the bytes acknowledged, of which none is ever taken back; nor does the published `acked` |
| `Upload.PublishedIsAcknowledged` | native/aether/aether/src/netstack.rs:364-373 | The clamp in `publish` never acts: right after a pass that serves and keeps a flow, in every reachable state, `acked` = `accepted_total - send_queue` = the bytes the peer has acknowledged |
| `Upload.AdmissionBound` | native/aether/aether/src/netstack.rs:384-402 | With the writer and the stack interleaved at every single access, `outstanding` never exceeds max(`tcp_tx_buf`, `MIN_FLOW_QUEUE_BYTES`, longest write) unless a write was let through by `close` or the deadline |
| `Upload.AbandonedBytesStayOutstanding` | native/aether/aether/src/netstack.rs:716-727 | Bytes of writes dropped between the count and the channel stay outstanding through every continuation of the run, so the empty-pipe exception is closed to the flow from then on |
| `Upload.OutstandingIsExact` | native/aether/aether/src/netstack.rs:351-357 | For a live flow never reset `outstanding` = bytes in flight + abandoned + in hand + acknowledged since the last pass; it is the bytes in flight if and only if the other three are zero |
| `Runs.OutstandingWithNothingInFlight` | native/aether/aether/src/netstack.rs:716-727 | A run that reaches a live flow with nothing in flight and `outstanding` at one |
| `Upload.StallDetectionIsExact` | native/aether/aether/src/netstack.rs:1057-1064 | In every reachable state the reap selects a live flow not yet reset as stalled if and only if its last pass left bytes queued and neither its opening nor any pass that found the queue empty or acknowledged bytes at a new maximum is under 8 s old |
| `Upload.FlapDetectionIsExact` | native/aether/aether/src/netstack.rs:2093-2125 | In every reachable state a pass over a flow not yet reset asks for the flap reset if and only if it starts a stall less than 60 s after the previous stall started |
| `Upload.WedgeDetectionIsExact` | native/aether/aether/src/netstack.rs:1094-1104 | In every reachable state a flow is selected as wedged if and only if it has entries queued and neither its opening nor any served pass that found `pending` empty or shrank it is under 30 s old |
| `Upload.ReapIsExact` | native/aether/aether/src/netstack.rs:1041-1124 | In every reachable state a reap leaves each flow it selects with `pending` empty, its credit closed, its socket closed, no backlog entry and every other field as it was, and leaves every other flow and its entries as they were |
| `Gate.AdmissionIsExact` | native/aether/aether/src/netstack.rs:386-400 | From every reachable state with a live flow and its writer at the top of the loop, one uninterrupted round of `reserve` admits the write if and only if the flow was reset, or nothing is outstanding, or outstanding + length fits the budget, or the deadline is over; outstanding = in flight + given up + acknowledged since the last pass. Otherwise the write goes on waiting |
| `Gate.AdmittedAfterAPass` | native/aether/aether/src/netstack.rs:2150-2154 | The first round after a pass admits a waiting write if and only if the flow was reset, nothing is left unacknowledged, what is left and the write fit that pass's clamped budget, or the deadline is over |
| `Gate.AcknowledgementAdmits` | native/aether/aether/src/netstack.rs:379-402 | A waiting write is admitted by the first round after a pass that acknowledges enough, and by none that acknowledges less, reset and deadline aside |
| `Gate.AdmittedWriteIsSent` | native/aether/aether/src/netstack.rs:716-727 | An admitted write is counted once and goes whole to the end of the channel, and the writer is idle again |
| `Gate.DroppedWriteSendsNothing` | native/aether/aether/src/netstack.rs:716-727 | A write dropped while it waits leaves no trace; one dropped between the count and the channel stays counted and sends nothing |
| `Gate.ClosedTestIsExact` | native/aether/aether/src/netstack.rs:387-389 | In every reachable state the `closed` test lets a waiting write through if and only if its flow was reset at some point of the run |
| `Gate.ResetReleasesTheWriter` | native/aether/aether/src/netstack.rs:1066-1123 | Whatever follows a reap that reset a live flow, a write waiting at the gate is admitted by its next step, as long as the flow is there |
| `Lifecycle.SendingEndsExactly` | native/aether/aether/src/netstack.rs:2191-2197 | In every reachable state a pass over a flow that can send, with no reset, leaves it able to send if and only if not both some `TcpClose` of it has left the queues and the pass takes all that is pending, the app is there, and the peer has not closed; a drained half-closed flow has left `Established` |
| `Lifecycle.FlapResetIsFinal` | native/aether/aether/src/netstack.rs:2172-2188 | In every reachable state a flap reset takes the flow away in the same pass, unless that pass aborts it as an orphan, which leaves it with `pending` empty, credit closed and socket closed |
| `Lifecycle.FlowsAreBornEmpty` | native/aether/aether/src/netstack.rs:1827-1869 | A new flow gets an id nobody has, with its socket connecting, nothing sent, counted, queued or recorded, and its connect deadline set |
| `Lifecycle.HistoryIsExact` | native/aether/aether/src/netstack.rs:998-1124 | In every reachable state, what an event adds to the recorded history of a flow (offered, acknowledged, given up, longest write, forced, reset) is exactly what that event does to it |
| `Lifecycle.ConnectTimeoutIsExact` | native/aether/aether/src/netstack.rs:2005-2042 | In every reachable state a pass removes a flow that never connected if and only if its socket is dead, the caller gave up, or `connect` has passed since it was opened; otherwise it leaves it as it was |
| `Lifecycle.ServedOnceConnected` | native/aether/aether/src/netstack.rs:1986-2003 | In every reachable state a pass serves a flow that is not aborted if and only if an earlier pass did or its socket is established or close-wait |
| `Lifecycle.OrphanLingerIsExact` | native/aether/aether/src/netstack.rs:2230-2250 | In every reachable state a serving pass aborts a flow if and only if the app is gone and either unread data is left or the first pass that found it gone lies `orphan_linger` back |
| `Lifecycle.RemovalIsExact` | native/aether/aether/src/netstack.rs:2252-2270 | In every reachable state a serving pass removes a flow if and only if its socket is closed or in time-wait, or shut while still connecting, and the pass does not abort it |
| `Lifecycle.AbortedIsRemoved` | native/aether/aether/src/netstack.rs:1970-1977 | An aborted flow is removed by the next pass |
| `Upload.BacklogIsExactAndBounded` | native/aether/aether/src/netstack.rs:967-1036 | In every reachable state `blocked` is the set of queued ids, `bytes` their exact sum and below `MAX_BACKLOG_BYTES` plus the largest message, each `pending` within its limit; after a drain only live, exactly full flows are blocked and draining again changes nothing |
| `World.StepKeepsSound` | native/aether/aether/src/netstack.rs:967-1036 | Every event keeps the shared bookkeeping exact and bounded, and no queue names a flow that does not exist yet |
| `World.StepProjects` | native/aether/aether/src/netstack.rs:998-1124 | Each event of the process is, seen from one flow, one step of that flow's machine; every event of another flow is a stutter |
| `World.IngestProjects` | native/aether/aether/src/netstack.rs:998-1006 | Ingesting the channel's head is the private ingest for the flow it names and nothing for every other |
| `World.DrainProjects` | native/aether/aether/src/netstack.rs:1010-1036 | A drain of the shared backlog is, for each flow, the drain of its own entries |
| `World.ReapProjects` | native/aether/aether/src/netstack.rs:1041-1124 | Both selections and both resets of a reap, seen from one flow, depend on that flow alone |
| `LocalFlow.StepKeepsInv` | native/aether/aether/src/netstack.rs:1954-2272 | Each step of a flow's machine keeps stream integrity, the order of a close, the half-close mark, the credit accounts, the admission bound at every point of a write, the lifetimes, and the agreement of the clocks with the log |
| `LocalFlow.RunKeepsInv` | native/aether/aether/src/netstack.rs:1954-2272 | The same over every run of the flow's machine |
| `LocalFlow.PlaceKeepsStream` | native/aether/aether/src/netstack.rs:1914-1937 | Entries leaving the queues for `pending`, whole or split, keep the stream whole and a close behind the bytes before it |
| `LocalFlow.HandoverKeepsStream` | native/aether/aether/src/netstack.rs:2045-2063 | Handing any prefix of `pending` to the socket keeps the stream whole; a reset only ever drops bytes |
| `LocalFlow.HalfCloseWaitsForTheStream` | native/aether/aether/src/netstack.rs:2191-2197 | A half-closed flow whose pending bytes a pass has all taken has everything before its first `TcpClose` in the socket or acknowledged |
| `LocalFlow.WriterKeepsCredit` | native/aether/aether/src/netstack.rs:384-402 | Each access of `reserve`, in any state of the stack, keeps the accounts and the admission bound |
| `LocalFlow.RoundIsExact` | native/aether/aether/src/netstack.rs:386-400 | A whole round of the loop admits exactly on the closed flag, an empty pipe, a fitting budget or a passed deadline, and records which writes were forced |
| `LocalFlow.StepKeepsClose` | native/aether/aether/src/netstack.rs:1932-1937 | Each step keeps the half-close mark true of the queues: it is set exactly when some `TcpClose` has left them |
| `LocalFlow.StepKeepsLife` | native/aether/aether/src/netstack.rs:1967-2250 | Each step keeps what the lifetime fields stand for: connect deadline, ever served, first orphaned, ever reset, when the write began |
| `LocalFlow.ServiceKeepsCredit` | native/aether/aether/src/netstack.rs:2079-2154 | A service pass between any two accesses of `reserve` keeps the accounts and the admission bound |
| `LocalFlow.AckedGrows` | native/aether/aether/src/netstack.rs:364-373 | No step of the flow's machine lowers the published `acked` |
| `LocalFlow.LoggedKeepsWatch` | native/aether/aether/src/netstack.rs:2079-2125 | A served pass that keeps the flow leaves its stall, flap and wedge clocks true of the longer log |
| `LocalFlow.LatestMoveBounds` | native/aether/aether/src/netstack.rs:1094-1104 | `last_progress` is old enough exactly when every pass that moved `pending` or found it empty, and the opening, are |
| `Backlog.DrainIsIsolated` | native/aether/aether/src/netstack.rs:1010-1036 | For every shared queue, blocked set and flow: that flow's state and kept entries after `drain_backlog` are those of draining its private queue alone |
| `Backlog.OtherFlowsDoNotMatter` | native/aether/aether/src/netstack.rs:1008-1036 | Two processes that agree on one flow and its entries agree on them after a drain, whatever else they hold |
| `Backlog.TryHandleIsLocal` | native/aether/aether/src/netstack.rs:1914-1952 | A message changes only the flow it names, a `UdpClose` only its association; one for an unknown flow vanishes; what is deferred belongs to that same live flow |
| `Backlog.OfferMovesBytes` | native/aether/aether/src/netstack.rs:1916-1931 | A chunk goes to the end of `pending` as far as it fits and the rest is handed back, nothing lost, repeated or reordered, and only when `pending` is exactly full |
| `Backlog.DrainOneMovesBytes` | native/aether/aether/src/netstack.rs:1019-1031 | `pending` ++ bytes kept = `pending` before ++ bytes queued, `pending` never passes the limit, and the pass stops only on a TCP chunk with `pending` exactly full |
| `Backlog.DrainOneFillsPending` | native/aether/aether/src/netstack.rs:1019-1031 | `pending` ends as the longest prefix of everything offered that fits, and the kept bytes are the rest |
| `Backlog.DrainOneOrdersClose` | native/aether/aether/src/netstack.rs:1932-1937 | `half_closed` appears exactly when the first `TcpClose` has left the queue, and the distance to it is kept otherwise |
| `Backlog.DrainOneCountsCloses` | native/aether/aether/src/netstack.rs:1932-1937 | A pass over a flow's entries marks it half-closed exactly when a `TcpClose` leaves the queue in it |
| `Backlog.TotalIsAllBytes` | native/aether/aether/src/netstack.rs:983-987 | The size of a queue is its TCP bytes and its datagram bytes together |
| `Backlog.DrainLeavesOnlyFullFlows` | native/aether/aether/src/netstack.rs:1010-1036 | After a pass every id still queued is a live flow whose `pending` is exactly full |
| `Backlog.DrainIsIdempotent` | native/aether/aether/src/netstack.rs:1010-1036 | Draining twice in a row is draining once |
| `Backlog.DrainShrinks` | native/aether/aether/src/netstack.rs:1010-1036 | A pass never grows the backlog |
| `FlowState.ServiceMovesBytes` | native/aether/aether/src/netstack.rs:2045-2197 | A pass that keeps a served flow moves exactly the bytes the socket took, from the front of `pending` to the end of its send buffer, and a flap reset empties `pending` |
| `FlowState.ServiceMovesClocks` | native/aether/aether/src/netstack.rs:2079-2154 | A pass updates the watch by exactly what it saw, raises the published `acked` to the acknowledged total, and publishes the budget it was given, cut to the floor and the ceiling |
| `FlowState.PassEndsIn` | native/aether/aether/src/netstack.rs:2191-2270 | Where every served pass without a flap reset ends, for each of the ten socket states: closed to fin-wait when the app is gone or the flow is half-closed and drained, close-wait to last-ack, aborted, removed, or left |
| `FlowState.SendingGoesOnIff` | native/aether/aether/src/netstack.rs:2191-2256 | A pass over a flow that can send leaves it able to send if and only if it is not half-closed and drained by this pass, the app is there, and the peer has not closed |
| `FlowState.FlapResetEnds` | native/aether/aether/src/netstack.rs:2172-2188 | A flap reset, field by field |
| `FlowState.SocketTakesAnyPrefix` | native/aether/aether/src/netstack.rs:2045-2063 | The socket may take any prefix of `pending` it has room for, and nothing else |
| `FlowState.PassSeen` | native/aether/aether/src/netstack.rs:2080-2085 | The liveness block sees the send buffer after this pass's own send and counts as acknowledged exactly what was before it |
| `FlowState.TruncationIsExact` | native/aether/aether/src/netstack.rs:2230-2256 | A pass shuts the sending side of a kept flow with bytes still pending if and only if the socket could not take them all, the pass is no flap reset, and the app is gone or the peer has half-closed |
| `Runs.TruncationIsReachable` | native/aether/aether/src/netstack.rs:2253-2256 | A run in which the socket takes all it has room for and the pass closes the sending side of a live flow, never reset and never asked to close, over the byte that is left |
| `Liveness.StallResetIsExact` | native/aether/aether/src/netstack.rs:1057-1064 | On every log of passes with a clock and an acknowledged total that never go back: stalled at `now` iff bytes were queued last and nothing alive lies within 8 s |
| `Liveness.FlapResetIsExact` | native/aether/aether/src/netstack.rs:2093-2125 | The flap flag is raised iff this pass and the previous stall start are under the window apart |
| `Liveness.ObserveTracks` | native/aether/aether/src/netstack.rs:2079-2125 | After every pass `last_drain` is the time of the latest alive pass, `acked_high` the latest total, `drain_warned` whether the flow is silent, and the stall mark and count date the latest stall |
| `Liveness.WarningStartsAStall` | native/aether/aether/src/netstack.rs:2101-2123 | The warning branch is taken exactly on the pass a silence of 3 s begins |
| `Netstack.BacklogQueue.Push` | native/aether/aether/src/netstack.rs:983-987 | Appends the entry and keeps `blocked` and `bytes` exact |
| `Netstack.BacklogQueue.Purge` | native/aether/aether/src/netstack.rs:989-993 | Leaves exactly the other flows' entries in order, with `blocked` and `bytes` exact |
| `Netstack.NetStack.TryHandleData` | native/aether/aether/src/netstack.rs:1914-1952 | The tables and the deferred part are those of the specification function, for every message and every state |
| `Netstack.NetStack.Ingest` | native/aether/aether/src/netstack.rs:998-1006 | A blocked flow's message goes to the end of the queue; any other is tried and only its deferred part queued |
| `Netstack.NetStack.DrainBacklog` | native/aether/aether/src/netstack.rs:1010-1036 | The in-place loop leaves the tables and the queue of the specification function, with `blocked` and `bytes` exact |
| `Netstack.NetStack.ResetEach` | native/aether/aether/src/netstack.rs:1066-1087 | Visiting the selected flows in any order leaves each with `pending` empty, credit and socket closed, its other fields as they were and no entry queued, and every other flow and entry as it was |
| `Netstack.NetStack.ReapWedged` | native/aether/aether/src/netstack.rs:1041-1124 | Stalled flows are reset first, then those wedged in what is left |
| `Netstack.NetStack.BeginPass` | native/aether/aether/src/netstack.rs:1962-2043 | The entry tests in the source's order drop, keep waiting or serve the record in the table as specified, and a served flow is established with its watch untouched |
| `Netstack.NetStack.SendPending` | native/aether/aether/src/netstack.rs:2045-2063 | The send block, updating the record in the table, moves what the socket takes and stamps `last_progress` as specified |
| `Netstack.NetStack.Watchdog` | native/aether/aether/src/netstack.rs:2079-2154 | The liveness block, assignment by assignment, computes the specified watch, flap flag and published credit |
| `Netstack.NetStack.ResetFlapping` | native/aether/aether/src/netstack.rs:2172-2188 | The flap reset empties `pending`, clears the stall count and the warning, closes the credit and the socket, and touches nothing else |
| `Netstack.NetStack.WindDown` | native/aether/aether/src/netstack.rs:2191-2270 | Half-close, orphan linger, close-wait and removal end in the state the table of `EndsIn` gives for each socket state, or remove the flow |
| `Netstack.NetStack.Conclude` | native/aether/aether/src/netstack.rs:2252-2270 | Close-wait closes, time-wait and closed remove, anything else stays |
| `Netstack.NetStack.ServiceFlow` | native/aether/aether/src/netstack.rs:1961-2271 | One iteration leaves every other flow as it was and this one as specified, or removed |
| `Netstack.NetStack.ServiceTcp` | native/aether/aether/src/netstack.rs:1954-2274 | A pass serves every flow exactly once, from the state it had when the pass began, in whatever order the table yields them |
| `Device.FlushSplits` | native/aether/aether/src/netstack.rs:2343-2392 | One flush splits the queue into sent ++ shed ++ kept; sent fits the channel, kept fits the ceiling, and shedding happens only above it with the channel full |
| `Device.StackDevice.SendQueued` | native/aether/aether/src/netstack.rs:2351-2375 | Sends the longest prefix the channel has room for, puts a refused packet back in front, and on a closed channel loses the one packet it took |
| `Device.StackDevice.ShedExcess` | native/aether/aether/src/netstack.rs:2375-2386 | Drops the oldest packets down to the ceiling and counts each |
| `Device.StackDevice.FlushTx` | native/aether/aether/src/netstack.rs:2343-2392 | The in-place flush is that split, with `dropped`, `retained`, the shed counter and the peak exact; a closed channel loses one packet |
| `Device.StackDevice.Dispatch` | native/aether/aether/src/netstack.rs:604-621 | Sending through `transmit` is the gated event of the line: the token is granted exactly below the gate, the packet joins the queue exactly then, and each refusal is counted |
| `Device.StackDevice.Exchange` | native/aether/aether/src/netstack.rs:599-602 | Inbound packets are taken in the order they arrived, one whenever any is left, and the token that comes with one queues an answer however full the queue is |
| `Device.StackDevice.Pass` | native/aether/aether/src/netstack.rs:2343-2392 | A flush of the device is a flush event of the line: what goes into the channel is what the line puts on the wire, and `dropped` is what it sheds |
| `Device.StackDevice.Conserves` | native/aether/aether/src/netstack.rs:599-621 | Whatever a device has been through, its queue is bounded by its answers, every packet is accounted for, and what was and will be sent is a subsequence of what was queued |
| `Device.LineConserves` | native/aether/aether/src/netstack.rs:599-621 | Over every run each packet queued is on the wire, shed, lost to a closed channel or still queued; wire ++ queue is a subsequence of what was queued; the queue passes the gate by at most the answers sent, and until those fill the gap to the ceiling nothing is shed |
| `Device.GatedRunsNeverShed` | native/aether/aether/src/netstack.rs:604-621 | A run that queues only through `transmit` stays within `MAX_DEVICE_TX` and never sheds, and while the channel is open the wire and the queue are exactly what was queued, in order |
| `Device.ClosedFlushLosesOne` | native/aether/aether/src/netstack.rs:2387 | A packet queued through the gate that the next pass loses to a closed channel |
| `Scheduler.ServedWithin` | native/aether/aether/src/netstack.rs:1358-1375 | For any queue drained with any positive budget once a pass, the element at position k is taken within k / budget + 1 passes, whatever else arrives |
| `Scheduler.RoundsAreFifo` | native/aether/aether/src/netstack.rs:1314-1331 | Budgeted passes take elements in arrival order and lose none |
| `Scheduler.DrainAppUsesItsBudget` | native/aether/aether/src/netstack.rs:1337-1355 | A drain of the app queue moves a prefix in order, and its whole budget unless the backlog reached its memory bound |
| `Scheduler.AppIsNeverStarved` | native/aether/aether/src/netstack.rs:1491-1518 | With the backlog under its cap, app message k is ingested within k / 512 + 1 passes, whatever the rest of the process does to the stack in between |
| `Scheduler.Loop.DrainInbound` | native/aether/aether/src/netstack.rs:1314-1331 | Moves min(budget, available) packets in order and reports a closed channel only when it ran into its end |
| `Scheduler.Loop.DrainAppData` | native/aether/aether/src/netstack.rs:1337-1355 | The in-place drain is the specified one, message by message through `ingest` |
| `Scheduler.Loop.DrainCmds` | native/aether/aether/src/netstack.rs:1358-1375 | Handles min(budget, available) commands in order |
| `Scheduler.Loop.DrainQueues` | native/aether/aether/src/netstack.rs:1491-1518 | One pass drains each of the three queues exactly once with its own budget; which goes first alternates and changes nothing about what any of them does |
| `Process.DrainAppIsIngests` | native/aether/aether/src/netstack.rs:1337-1355 | From every reachable state a drain of the app queue is exactly as many `Ingest` events as it moves messages |
| `Process.PassesServeAll` | native/aether/aether/src/netstack.rs:1954-1961 | Serving distinct flows one after another, in any order, serves each from the state it had at the start of the pass and touches nothing else |
| `Process.Process.Drain` | native/aether/aether/src/netstack.rs:1337-1355 | The in-place drain keeps the objects equal to the state its events lead to |
| `Process.Process.DrainBacklog` | native/aether/aether/src/netstack.rs:1010-1036 | The same for the backlog pass, as one event |
| `Process.Process.Reap` | native/aether/aether/src/netstack.rs:1041-1124 | The same for the reap, as one event |
| `Process.Process.Serve` | native/aether/aether/src/netstack.rs:1954-2274 | The same for the service pass, as one service event for each flow that was in the table |
| `Process.Process.Open` | native/aether/aether/src/netstack.rs:1827-1835 | The same for an opened connection, whose id is new |
| `Process.Process.Holds` | native/aether/aether/src/netstack.rs:967-1036 | So the objects themselves carry the whole-run results: stream integrity across socket, pending, backlog and channel, the admission bound, and the backlog's bound |
| `Varint.VarintRoundTrip` | native/aether/quiche/octets/src/lib.rs:515-553 | Every value up to 2^62 - 1 reads back as written, with anything behind it |
| `Varint.ReadingFollowsTheStandard` | native/aether/quiche/octets/src/lib.rs:187-209 | On every buffer: the two top bits of the first byte give a length of one, two, four or eight, and the rest is the value in network byte order (section 16 of RFC 9000) |
| `Varint.VarintIsStable` | native/aether/quiche/octets/src/lib.rs:187-209 | More bytes behind a readable integer do not change it |
| `Varint.VarintIsMinimal` | native/aether/aether/src/masque.rs:278-288 | What is read is a legal value, and the length written is the shortest that reads as it |
| `Capsule.AppendCapsule` | native/aether/aether/src/masque.rs:103-111 | Appends the capsule behind what the buffer holds, in exactly the length `capsule_len` predicts |
| `Capsule.FeedIsBatch` | native/aether/aether/src/masque.rs:175-217 | For every byte stream and every cut into chunks that never overflow: pushing each chunk and reading until nothing is left yields the items and the remainder of reading the whole stream at once |
| `Capsule.ParserUndoesEncoder` | native/aether/aether/src/masque.rs:184-217 | For every list of capsules (assigned addresses, routes, datagrams, requests, unknown types, and bodies that are none) and every chunking with largest frame + largest chunk <= 256 KiB, the parser yields exactly that list in order and ends empty |
| `Capsule.CarriedIsRead` | native/aether/aether/src/masque.rs:203-214 | A frame is read as the capsule it carries, type by type, and as an error exactly when it carries none |
| `Capsule.BrokenAssign` | native/aether/aether/src/masque.rs:230-240 | Addresses followed by one that is cut short or of an unknown family: the whole body is refused |
| `Capsule.RoutesAreExact` | native/aether/aether/src/masque.rs:252-276 | Only the encoding of a list of valid routes is read as one |
| `Capsule.OverflowForgets` | native/aether/aether/src/masque.rs:175-182 | A push past 256 KiB forgets the buffer and the chunk, and reading goes on as if from the start |
| `Capsule.BufferIsBounded` | native/aether/aether/src/masque.rs:175-182 | However a stream is cut, the buffer never holds more than 256 KiB |
| `Capsule.EncodedStreamFits` | native/aether/aether/src/masque.rs:175-182 | Under that bound the overflow reset cannot happen |
| `Capsule.CutLeavesLessThanOne` | native/aether/aether/src/masque.rs:195-197 | However an encoded stream is cut, no more than the longest capsule is ever left waiting |
| `Capsule.ItemsOfEncoded` | native/aether/aether/src/masque.rs:184-217 | Capsules laid end to end read back as that list, a body that does not parse costing exactly its own bytes |
| `Capsule.ItemsAppend` | native/aether/aether/src/masque.rs:184-217 | Reading a stream in two parts, keeping the remainder, reads the whole |
| `Capsule.FirstIsStable` | native/aether/aether/src/masque.rs:184-201 | A complete capsule stays what it is when more bytes follow |
| `Capsule.PrefixIsIncomplete` | native/aether/aether/src/masque.rs:184-197 | No proper prefix of a capsule is taken for a capsule |
| `Capsule.CapsuleParser.Push` | native/aether/aether/src/masque.rs:175-182 | Appends, or resets the buffer when it would pass 256 KiB |
| `Capsule.CapsuleParser.Next` | native/aether/aether/src/masque.rs:184-217 | From a buffer that starts with the frame of a capsule it returns that capsule, or the error of a body that is none, and leaves exactly what stands behind the frame; leaves an incomplete buffer alone |
| `Capsule.CapsuleParser.Drain` | native/aether/aether/src/masque.rs:184-217 | Calling `next` until it has nothing, past bodies that do not parse, yields the batch reading |
| `Capsule.ReadAssign` | native/aether/aether/src/masque.rs:226-250 | The cursor loop reads the list the recursive reading defines, errors included |
| `Capsule.ReadRoutes` | native/aether/aether/src/masque.rs:252-276 | The same for routes |
| `Capsule.AssignRoundTrip` | native/aether/aether/src/masque.rs:226-250 | Every list of assigned addresses (section 4.7.1 of RFC 9484) reads back as itself |
| `Capsule.RoutesRoundTrip` | native/aether/aether/src/masque.rs:252-276 | Every list of routes reads back as itself |
| `H2Path.StripIsExact` | native/aether/aether/src/masque.rs:133-155 | Exactly: the packet behind a context id of zero, in any of its four lengths, if there is one; else the payload if it looks like a packet; else nothing |
| `H2Path.StripKeepsBarePackets` | native/aether/aether/src/masque.rs:133-162 | The context heuristic returns a bare IP packet unchanged if and only if it does not start 0x40 0x00 followed by something that looks like a packet |
| `H2Path.AMisreadPacket` | native/aether/aether/src/masque.rs:133-162 | A 22-byte bare packet that is cut down to its last 20 bytes |
| `H2Path.IpPacketsPass` | native/aether/aether/src/masque.rs:133-162 | Every IPv6 packet, and every IPv4 packet with a header of at least five words, passes unchanged |
| `H2Path.Batch` | native/aether/aether/src/masque_h2.rs:655-670 | A batch is the capsules of the first packet and a prefix of the queue, stops only at the size limit, and passes it by less than its last capsule |
| `H2Path.WireIsGroupingFree` | native/aether/aether/src/masque_h2.rs:655-675 | However packets are grouped into batches, the stream is their capsules end to end |
| `H2Path.DataPathIsIdentity` | native/aether/aether/src/masque_h2.rs:700-748 | Every sequence of IP packets, batched in any grouping and re-cut in any pieces the parser admits, is delivered as that same sequence |
| `H2Path.ReceiveDelivers` | native/aether/aether/src/masque_h2.rs:700-748 | For every stream whose bodies all parse, address, route and unknown capsules among the datagrams included, the receive loop delivers exactly its packets in order, however it is cut |
| `H2Path.ReceiveLosesNothing` | native/aether/aether/src/masque_h2.rs:700-748 | For every stream, bodies that do not parse included, and every cut that never overflows: what is delivered, followed by what the buffer still holds, is everything in the stream in order |
| `H2Path.EveryCutDeliversIffQuiet` | native/aether/aether/src/masque_h2.rs:700-748 | Every cut of a stream that fits delivers all its packets if and only if no packet stands behind a body that does not parse |
| `H2Path.DrainIsWholeIffQuiet` | native/aether/aether/src/masque_h2.rs:741-744 | One drain delivers everything in its buffer if and only if no packet in it stands behind a body that does not parse |
| `H2Path.CapsulesAreDelivered` | native/aether/aether/src/masque_h2.rs:634-678 | Every list of capsules whose bodies parse, control capsules between batches included, encoded and cut in any way the buffer admits, delivers exactly its packets |
| `H2Path.CutMattersBehindABrokenBody` | native/aether/aether/src/masque_h2.rs:741-744 | A packet behind a body that does not parse waits when it comes in the same chunk and is delivered when it comes in the next |
| `H2Path.OpenDrainFillsTheQueue` | native/aether/aether/src/masque_h2.rs:714-723 | An open inbound queue takes the packets in order until it is full, and the drain goes on to the same end whether or not it is |
| `H2Path.HandOver` | native/aether/aether/src/masque_h2.rs:707-723 | A datagram that strips to a packet is offered once: queued, dropped when full, ending the drain when closed |
| `H2Path.DrainInto` | native/aether/aether/src/masque_h2.rs:700-748 | The in-place drain queues, reports and leaves what the specification says, for every room and whether the queue is open |
| `H2Path.IpDatagramIsExact` | native/aether/aether/src/masque.rs:73-88 | A datagram gives a packet if and only if it is the stream's quarter id, a context id of zero, and that packet |
| `H2Path.CutIdsAreTooShort` | native/aether/aether/src/masque.rs:73-83 | A datagram cut inside its ids is an error, not one for another stream |
| `H2Path.IpDatagramRoundTrip` | native/aether/aether/src/masque.rs:56-88 | A datagram is decoded to its packet by streams with its quarter stream id and refused by all others |
| `Checksum.Ipv4HeaderChecksum` | native/aether/aether/src/masque.rs:342-356 | The word loop and the fold return the one's complement of the 16-bit residue of the sum, with no 32-bit overflow on the way |
| `Checksum.FoldCarries` | native/aether/aether/src/masque.rs:352-354 | The fold loop ends with the residue of the sum |
| `Checksum.FoldKeepsResidue` | native/aether/aether/src/masque.rs:352-354 | One fold shrinks the sum and keeps it modulo 65535 |
| `Checksum.StoredChecksumVerifies` | native/aether/aether/src/masque.rs:294-313 | Computing with the field zeroed, storing, and computing again gives 0, wherever the field lies |
| `Checksum.OnlyTheChecksumVerifies` | native/aether/aether/src/masque.rs:342-356 | No other stored value verifies, up to the two ways of writing zero (section 1 of RFC 1071) |
| `Checksum.WordSumIsWords` | native/aether/aether/src/masque.rs:345-348 | What is summed are the header's words in network byte order, each once |
| `Checksum.OddByteIsPadded` | native/aether/aether/src/masque.rs:349-351 | An odd last byte counts as if a zero stood behind it |
| `Checksum.BuildDnsProbePacket` | native/aether/aether/src/masque.rs:294-340 | The probe is 60 bytes, its header verifies, its id, time to live, protocol, ports, lengths and addresses are where they belong, and its question asks for the address of `cloudflare.com` |
| `Sniff.TlsSni` | native/aether/aether/src/sniff.rs:47-97 | The cursor parser returns what the recursive reading of the first record defines, on every input |
| `Sniff.ReadFirstServerName` | native/aether/aether/src/sniff.rs:99-121 | The list loop returns the name in the first host_name entry (section 3 of RFC 6066), or nothing when that one is implausible or cut off |
| `Sniff.PlausibleIsHostName` | native/aether/aether/src/sniff.rs:23-45 | Every returned name is two to 253 lower-case host bytes with a dot, no dot at the end, and no address |
| `Sniff.HostNamesAreFixed` | native/aether/aether/src/sniff.rs:23-45 | Such names are exactly those that normalise to themselves |
| `Sniff.OnlyTheListIsRead` | native/aether/aether/src/sniff.rs:99-121 | What stands behind the list in the extension is not read |
| `Sniff.HostIsExact` | native/aether/aether/src/sniff.rs:23-45 | For every name of host bytes, with any blanks around it, dots behind it and letters in either case: refused if and only if too long, without a dot, or an address; otherwise returned with its letters in lower case |
| `Sniff.HostsAreSpelled` | native/aether/aether/src/sniff.rs:23-45 | Only such texts are accepted |
| `Sniff.AddressesAreExact` | native/aether/aether/src/sniff.rs:40-42 | The address test refuses exactly four bytes in decimal with dots between them |
| `ClientHello.RouterReadsTheName` | native/aether/aether/src/sniff.rs:47-121 | From every ClientHello that fits one record, with any other extensions around it and any bytes behind it, the router reads the name its first host_name entry stands for |
| `ClientHello.SplitterFindsTheName` | native/aether/aether/src/fragment.rs:115-154 | In every such ClientHello the splitter finds exactly the bytes of the list's first entry when that is a host_name with a name in it, and nothing otherwise |
| `ClientHello.BothReadersFindTheName` | native/aether/aether/src/fragment.rs:115-154 | A plausible name written first is found by both readers, as its normal form and as its bytes |
| `ClientHello.OnlyTheRouterSeesTheName` | native/aether/aether/src/sniff.rs:99-121 | A ClientHello whose first list entry is of another type, where the router reads the name and the splitter finds nothing |
| `Fragment.ReadSniHostRange` | native/aether/aether/src/fragment.rs:115-154 | The cursor parser returns the specified range on every input |
| `Fragment.OnlyClientHellosAreRead` | native/aether/aether/src/fragment.rs:122-124 | Neither reader finds anything outside a handshake record that starts with a ClientHello |
| `Fragment.ParsersAgree` | native/aether/aether/src/fragment.rs:115-154 | Whenever the router reads a name, the splitter finds a range if and only if the list's first entry is a host_name, and then the range is in bounds and its bytes normalise to that name |
| `Fragment.FindsAgree` | native/aether/aether/src/fragment.rs:136-151 | Both parsers stop at the same server_name extension |
| `SplitStream.FirstCutSplitsTheName` | native/aether/aether/src/fragment.rs:213-225 | The first write cuts strictly inside the name the router would read |
| `SplitStream.PickChunkLen` | native/aether/aether/src/fragment.rs:63-71 | A cut is within what remains and the configured sizes, and not empty unless nothing remains |
| `SplitStream.LengthsAreExact` | native/aether/aether/src/fragment.rs:63-71 | Exactly the lengths between the configured bounds, cut to what remains, can be drawn |
| `SplitStream.PiecesAreShort` | native/aether/aether/src/fragment.rs:195-235 | Until the stream is read from, no piece after the first write is longer than the configured size |
| `SplitStream.DelayHolds` | native/aether/aether/src/fragment.rs:206-211 | Polls before the delay is over write nothing and change nothing |
| `SplitStream.DelayIsArmed` | native/aether/aether/src/fragment.rs:222-232 | A write that moves something arms the delay exactly when one is configured and drawn |
| `SplitStream.ReadingEndsTheCutting` | native/aether/aether/src/fragment.rs:180-204 | After any read the rest goes out at once |
| `SplitStream.ChooseLen` | native/aether/aether/src/fragment.rs:213-225 | The cut of a write is the middle of the server name on the first write that shows one, else the drawn length |
| `SplitStream.FragmentingStream.PollWrite` | native/aether/aether/src/fragment.rs:195-235 | State and result are those of the specified poll; what goes out is exactly what is reported, within the data; nothing goes out otherwise |
| `SplitStream.FragmentingStream.WriteAll` | native/aether/aether/src/fragment.rs:180-235 | For every behaviour of the inner stream, with reads in between: what goes out is a prefix of the data, all of it exactly when the write is done, and at least a byte for every poll accepted before the first error |
| `SplitStream.PiecesAreThePrefix` | native/aether/aether/src/fragment.rs:195-235 | The pieces written are, end to end, a prefix of the data, and the data when the write is done; none is empty |
| `SplitStream.WriteCompletes` | native/aether/aether/src/fragment.rs:195-235 | As many accepting polls before the first error as there are bytes complete the write, however little each accepts |
| `SplitStream.NameIsSplitIff` | native/aether/aether/src/fragment.rs:180-235 | Whatever happens after the first write, no piece holds the whole server name, if and only if the first write takes more bytes than stand before the name |
| `SplitStream.AShortFirstWrite` | native/aether/aether/src/fragment.rs:226-228 | A ClientHello whose name crosses in one piece after a first write of one byte |
| `Dechunk.DechunkBody` | native/aether/aether/src/apifront.rs:235-263 | The cursor loop computes the recursive reading of the body |
| `Dechunk.DecodesWhatIsPresent` | native/aether/aether/src/apifront.rs:235-263 | From any truncation of the encoding (section 7.1 of RFC 9112) of any non-empty chunks with any extensions, exactly the chunks whose data is wholly present are returned |
| `Dechunk.DecodesEverything` | native/aether/aether/src/apifront.rs:235-263 | The whole encoding decodes to the concatenation |
| `Dechunk.SizeLineRoundTrip` | native/aether/aether/src/apifront.rs:243-249 | Any 64-bit size in hexadecimal, with any extension, is read as written |
| `Dechunk.SizeLineIsExact` | native/aether/aether/src/apifront.rs:247-252 | A size line, with blanks, a plus sign, leading zeros, digits in either case and extensions, announces the number its digits write, or nothing above 2^64 - 1 |
| `Dechunk.SizeLinesAreSpelled` | native/aether/aether/src/apifront.rs:247-252 | Only such lines announce a size |
| `Dechunk.CrlfIsTheFirst` | native/aether/aether/src/apifront.rs:240-246 | A line ends at the first CR LF, and there is none before it |
| `Dechunk.LastChunkEnds` | native/aether/aether/src/apifront.rs:250-252 | A zero chunk and any trailers end the decoding, wherever they are cut |
| `Json5.Strip` | native/aether/aether/src/psiphon.rs:332-377 | The character loop computes the token reading of the text |
| `Json5.StrippingIsExact` | native/aether/aether/src/psiphon.rs:332-377 | Whatever literals, comments and other characters a text is written from, escapes and unterminated ends included, stripping leaves the literals and characters as they are, one blank for a block comment and one line break for a line comment; and a text is written from tokens in only one way |
| `Json5.TokensReadBack` | native/aether/aether/src/psiphon.rs:332-377 | Every list of tokens, written out, is read as that list |
| `Json5.LexIsReadable` | native/aether/aether/src/psiphon.rs:332-377 | Every text is read as such tokens |
| `Json5.LexIsFaithful` | native/aether/aether/src/psiphon.rs:332-377 | Reading a text as tokens loses nothing |
| `Json5.StrippedTokens` | native/aether/aether/src/psiphon.rs:332-377 | Reading the cleaned text gives the original tokens in order, each string literal verbatim and each comment replaced by one blank or line break |
| `Json5.StrippingIsFinal` | native/aether/aether/src/psiphon.rs:332-377 | No comment is left outside a string, and stripping twice is stripping once |
| `Json5.IdentityIffNoComment` | native/aether/aether/src/psiphon.rs:332-377 | A text is left as it is if and only if it holds no comment outside its strings |
| `LastConn.SaveRecord` | native/aether/aether/src/lastconn.rs:28-48 | The capped push loop computes the specified record for every previous file and save |
| `LastConn.RingAgreesWithHistory` | native/aether/aether/src/lastconn.rs:28-48 | After any run of saves `recent` is the distinct peers of the saves that still count, by latest save, newest first, cut once to the first eight: cutting at every save loses nothing |
| `LastConn.NewestIsByLatestSave` | native/aether/aether/src/lastconn.rs:28-48 | The uncapped list holds each peer of a history once, ordered by its latest save |
| `LastConn.OneCarrierCountsAll` | native/aether/aether/src/lastconn.rs:28-48 | Under one carrier every save counts |
| `LastConn.UsablePeers` | native/aether/aether/src/lastconn.rs:60-79 | The loop with its seen-set returns the distinct parsed addresses in order |
| `LastConn.OffersTheRing` | native/aether/aether/src/lastconn.rs:60-79 | After any run of saves the gateways offered to the same carrier are exactly the parsed entries of the ring, each once and in the ring's order, the latest first when it parses; another named carrier gets none |
| `Dns.BuildQuery` | native/aether/aether/src/dns.rs:115-133 | For every name, however many dots are around and between its labels, the query carries the id, asks for recursion, and its one question reads as exactly those labels, the type and class IN; lengths are truncated to a byte |
| `Dns.ResponseMatches` | native/aether/aether/src/dns.rs:61-113 | For every message and name the cursor walk accepts exactly the replies with this id, one question, and those labels ignoring case, then the type |
| `Dns.MatchingIsExact` | native/aether/aether/src/dns.rs:61-113 | For every list of labels, joined by any dots: accepted if and only if id, QR, one question, and a wire name of exactly those labels but for the case of ASCII letters, then the type and a class |
| `Dns.QueryAnswersItself` | native/aether/aether/src/dns.rs:115-133 | For every list of labels, joined by any dots: the query with QR set and anything appended is accepted for its own id, name and type if and only if every label is under 256 bytes |
| `Dns.LabelsOfJoined` | native/aether/aether/src/dns.rs:122-128 | Splitting undoes joining: a name with leading, trailing or doubled dots is split into exactly the labels it was joined from |
| `Dns.EveryNameSpells` | native/aether/aether/src/dns.rs:122-128 | Every name is some labels joined by dots |
| `Dns.AQueryThatIsRefused` | native/aether/aether/src/dns.rs:115-133 | A name of one 256-byte label whose query is refused by its own matcher |
| `Ech.ParseHttpsEch` | native/aether/aether/src/dns.rs:135-167 | Ends in bounds on every input and returns the bytes at the specified position |
| `Ech.SkipName` | native/aether/aether/src/dns.rs:191-202 | The label loop ends where the recursive reading does; a compressed tail ends a name |
| `Ech.ParseSvcParamsEch` | native/aether/aether/src/dns.rs:169-189 | The parameter loop finds the first `ech` parameter inside the record's data |
| `Ech.FoundInsideOneRecord` | native/aether/aether/src/dns.rs:135-189 | On every input what is found is the value of an `ech` parameter wholly inside the RDATA of an HTTPS record (section 2.2 of RFC 9460) that the walk over the answers reaches, and no record reached before it holds one |
| `Ech.ReplyIsRead` | native/aether/aether/src/dns.rs:135-202 | For every well-formed reply, with any questions, names written out or compressed, other records and bytes behind, what is returned is the `ech` value of the first HTTPS record that has one |

## Left out

- Socket library, QUIC, HTTP/2, TLS and async runtime internals: a socket is a state and a send buffer, `send_slice` takes any prefix up to the free space, and the network may acknowledge any prefix and move the state at any time.
- Clock: one reading per service pass and per reap, where the source reads it several times; the 64-bit and platform-width saturation of counters is not reached and not modelled.
- `FlowCredit` as a shared object: the counters are modelled as values inside the step machine, which keeps their interleaving but not the aliasing of the reference count; a writer that outlives its flow is not followed past the flow's removal.
- Budget estimation: the floating-point smoothing of `drain_rate` is replaced by any value, clamped as in the source.
- Network-to-app delivery: the delivery loop of `service_tcp` enters only through whether the app side is gone and whether unread data is left; UDP sockets enter only through their ids, messages and non-interference.
- Channel capacities of the app channel and the command channel: the channels are unbounded sequences, which allows every interleaving the bounded ones allow.
- The waiting half of the run loop: the `select!` arms ingest, handle and receive one message with the same functions as the drains, and add no other effect on the modelled state.
- Address changes, failed opens, keep-alives, congestion control, telemetry, log lines and high-water marks in `netstack.rs`.
- What is done with assigned addresses once parsed, and the flow control of the HTTP/2 stream.
- Checksum.Ipv4HeaderChecksum: stated for headers up to 131074 bytes, the length up to which the 32-bit sum cannot overflow; the source passes 20.
- Dns: class and answer sections of replies beyond what the matcher reads, and the sockets, timeouts and server choice around it.
- `http_host` in `sniff.rs`: only the TLS reader is modelled.
- `pick_delay`, `from_env` and the other environment parsing in `fragment.rs`: the delay, the draw, the reads and the inner stream's answers are parameters.
- The response head in `apifront.rs` and the JSON parser behind `json5_ish`.
- Reading and writing the file in `lastconn.rs`; address parsing is a parameter.
- Everything else in the repository: prober, accounts, WireGuard, Psiphon control, the Android and desktop front ends.
