# A verified model of statsrelay

statsrelay takes statsd or carbon lines from TCP clients and UDP datagrams, hashes each line's key to a
virtual shard, queues the line for that shard's backend, and drains each queue over a connection that may
fail and be retried. This project models that program in Dafny and proves what holds over every run of it.

## How the model is built

Each part of the program appears twice. The *functions* over immutable datatypes (`Buf`, `Link`, `Client`,
`Backend`, `Server`, `Session`, `System`, `Parser`) say what one atomic step does; the lemmas about runs are
about them. The *classes and methods* (`Buffer`, `TcpClient`, `StatsBackend`, `StatsServer`, `StatsSession`,
`EventLoop`, `List`, `ParseConfig`, the validators, `Murmur3`, `Dealloc`, `Trim`) change fields and arrays in the order the
C code does, and their contracts tie the new abstract state to the step function of the old one.

| file | contents |
|---|---|
| Bytes.dfy | byte strings, `memchr`, C strings |
| Buffer.dfy | the head/tail buffer and the FIFO it implements |
| TcpClient.dfy, ClientRuns.dfy | the backend client; its runs, recovery and the two ways to be lost |
| ClientLaws.dfy | the client's state machine, return codes and retry times, written out from its fields |
| Murmur3.dfy, Murmur3Vectors.dfy | the hash, its inverses, collision-freeness; the expected test values |
| Murmur3Reference.dfy | the published definition of MurmurHash3, which the relay's hash equals |
| Endpoints.dfy, HashRing.dfy | shard-map lines and backend keys; list, choice and release of the ring |
| Validate.dfy | key parsers and validators against a grammar |
| Relay.dfy, Framing.dfy, Sessions.dfy | relaying one line, cutting streams into lines, the whole relay as a step system |
| RelayLaws.dfy, SessionLaws.dfy | for every line of every run: its verdict, backend and fate; the counters; when a session closes |
| SystemClients.dfy | the backends of a whole-relay run are client runs |
| Stats.dfy | stats.c as mutable objects |
| EventLoop.dfy | those objects under any interleaving of callbacks realise the step system |
| Arrays.dfy, Connections.dfy | which streams stay within the fixed arrays; where in a line a connection begins |
| YamlConfig.dfy | the configuration parser, and the recursive walk that needs neither is_key nor map_nesting |
| YamlTrees.dfy | files with mappings as keys: when is_key is right, and when the NULL section is dereferenced |
| YamlReading.dfy | what a file says, read without any flags |
| YamlFlags.dfy | which files the flags accept, and what an accepted file writes |
| YamlLeaks.dfy | exactly when the parser agrees with the reading |
| ConfigLaws.dfy | the file format in its own names, values and defaults, which the reading equals |
| Routing.dfy | stathasher and carbonsink |

The step functions are the vocabulary of the contracts, so they are themselves held to something else: the files
named after laws say what each operation does in terms of the fields, the system's answers and the source's own
constants, without calling those functions.

What lies outside the program is a parameter that every statement quantifies over: the answers of `time`,
`getaddrinfo`, `socket`, `fcntl`, `connect`, `getsockopt`, `recv`, `send` and `malloc` (through `ConnectEnv`,
`SendEnv`, the event arguments and `memLimit`), `strtod` (`Numeric`) and `strtol` (`Strtol`). A libev callback
happens only for an active watcher, the one-shot timer is inactive once it has fired, `send` and `recv` move at
most what they are offered. `World` gives the answers for the n-th `tcpclient_sendall` of a run.

## Assumptions

- Lines have at most 65536 bytes and keys at most 8191, the sizes of the fixed arrays at `src/stats.c:426` and
  `src/stats.c:303`; the model copies into unbounded sequences, so it describes the program for such lines.
  `Arrays.StreamFitsIff` says which streams consist of such lines, and `Arrays.EndToEndFits` that their runs stay so.
- `validate_statsd` scans a copy that ends at the first NUL for as many bytes as the line has. The methods require
  of each line they validate that every scan that is reached ends inside the copy (`Validate.Scannable`, through
  `Sessions.Defined`), as C does; `Framing.NulFreeStream` shows that all NUL-free data qualifies. The lemmas about
  functions and runs have no such condition.
- Words are read little-endian, a ring has fewer than 2^32 shards (its size is passed as a `uint32_t`), and the
  64-bit counters and buffer sizes do not wrap.

## Where the code and its documentation disagree

The model follows the code.

- statsrelay's README says that a failed connection is retried after one second. The program retries only when a further
  line is sent to that backend after the backoff: `ClientRuns.QuietUntilRetry`.
- statsrelay's README says that lines beyond a full queue are dropped. The refusal also ends the TCP session, or the rest
  of the datagram, that the line came from: `Framing.ProcessIsRelayAll`, `Framing.DatagramIsRelayAll`.
- With `always_resolve_dns`, one failed lookup while reconnecting leaves a backend that refuses every later
  line: `ClientRuns.AddressLostIff`, `ClientRuns.AddressLostForever`, with such a run in `ClientRuns.AddressLostExample`.
- A failing `getsockopt` leaves a client in CONNECTING for good: `ClientRuns.WedgedIff`,
  `ClientRuns.WedgedExample`. These two failures are the only ones not recovered from: `ClientRuns.RecoversIff`.
- The flag of `always_resolve_dns` is never cleared. After it, in the same section or a later one, a value the
  parser should ignore is taken for that setting: the file is rejected (`YamlLeaks.LeakExample`), or the setting
  is silently overwritten (`YamlLeaks.OverwriteExample`) or switched on in the other section
  (`YamlLeaks.OtherSectionExample`). `YamlLeaks.ParserAgreesIff` says exactly when this does no harm.
- The flag of `shard_map` is never cleared either, so a mapping under any later option goes on with the shards
  (`YamlLeaks.ShardsUnderUnknown`, `YamlLeaks.ShardsElsewhereExample`); a section whose value is a scalar names a
  second section (`YamlLeaks.ScalarSection`, `YamlLeaks.ScalarSectionExample`); and a mapping given to one of the
  other options leaves that option waiting for a later value (`YamlFlags.ParserReads`).
- A mapping used as a key before any section has been named makes the parser dereference a NULL pointer as soon as
  it assigns something: `YamlTrees.CrashIff`, `YamlTrees.CrashExample`.
- A line cut by a failing connection continues in mid-line on the next one, so a backend may receive the rest of a
  line as if it were one: `Connections.EndToEndConnectionStart`, `Connections.CutLineExample`.
- A line accepted by `validate_carbon` may still be malformed, when it starts with a space:
  `Validate.ValidCarbonKey`, `Validate.ValidCarbonNoKeyExample`.

## Model

| member | source | states |
|---|---|---|
| Buffers.Buffer.constructor | src/buffer.c:18-34 | a new buffer is empty, with head and tail at the start of the allocation |
| Buffers.Buffer.DataCount | src/buffer.c:52-55 | the number of queued bytes |
| Buffers.Buffer.SpaceCount | src/buffer.c:57-60 | the room behind the tail, not counting the gap before the head |
| Buffers.Buffer.NewSize | src/buffer.c:73-94 | a bigger allocation holds the same bytes at the same offset; a refused one changes nothing |
| Buffers.Buffer.Expand | src/buffer.c:96-99 | doubling keeps the contents, or nothing changes |
| Buffers.Buffer.Consume | src/buffer.c:101-108 | removes exactly a prefix, or nothing if more is asked than is there |
| Buffers.Buffer.Fill | src/tcpclient.c:423 | bytes copied to the tail are not yet part of the contents |
| Buffers.Buffer.Produced | src/buffer.c:110-117 | the bytes already at the tail join the contents, or nothing changes if they do not fit |
| Buffers.Buffer.Realign | src/buffer.c:129-138 | the overlapping move keeps the contents and frees the gap before the head |
| Buffers.BufferIsFifo | src/buffer.c:52-138 | under every sequence of operations the contents are all bytes put in, less the number taken out from the front |
| Buffers.BufferIsLedger | src/buffer.c:52-138 | under every sequence of operations contents, offset and size are those of a ledger that keeps only counts: what fits, what can be taken, what a realign and a growth change |
| Buffers.ExpandForBound | src/tcpclient.c:417-422 | the expand loop ends; a realigned buffer grows by doubling, and never to twice what it must hold |
| TcpClients.TcpClient.constructor | src/tcpclient.c:58-137 | a new client: INIT, no socket, no address, nothing started, an empty 65536-byte queue |
| TcpClients.TcpClient.ConnectTimeout | src/tcpclient.c:43-56 | closes the socket, stops the connect watcher, stamps BACKOFF |
| TcpClients.TcpClient.ConnectedEvent | src/tcpclient.c:241-277 | the three outcomes of a finished connect, including the failing getsockopt |
| TcpClients.TcpClient.ReadEvent | src/tcpclient.c:143-189 | error, end of stream and data; end of stream leaves the started flags set and skips the backoff |
| TcpClients.TcpClient.WriteEvent | src/tcpclient.c:192-239 | moves what send took from queue to socket, clears failing, stops waiting when the queue is empty |
| TcpClients.TcpClient.ConnectInInit | src/tcpclient.c:299-382 | resolve, socket, non-blocking, watchers, connect: each failure's state and return code |
| TcpClients.TcpClient.TryConnect | src/tcpclient.c:279-386 | when a connect is attempted at all, and the return codes 1, 2 and 7 |
| TcpClients.TcpClient.ReserveSpace | src/tcpclient.c:411-422 | room is made by realigning, then doubling, without touching the queued bytes |
| TcpClients.TcpClient.Send | src/tcpclient.c:388-431 | refusal without an address, at the limit or without memory; otherwise the bytes are queued and the writer woken |
| ClientRuns.RunPreserves | src/tcpclient.c:143-431 | every reachable state: socket open iff CONNECTING or CONNECTED, read watcher active iff CONNECTED, connect watcher and timer active together and only in CONNECTING, active implies started and current socket, no interface misuse, failing implies a full queue |
| ClientRuns.NoLostWakeup | src/tcpclient.c:221-238 | a connected client with queued bytes is always waiting to write on its current socket, though one function stops the watcher and two others start it |
| ClientRuns.SocketDiscipline | src/tcpclient.c:43-55 | no socket is closed twice, leaked or overwritten, and no active watcher is re-initialised |
| ClientRuns.ClientIsFifo | src/tcpclient.c:192-239 | through failures, reconnects and partial sends, bytes sent followed by bytes queued are the accepted bytes in order |
| ClientRuns.QueueStaysBounded | src/tcpclient.c:400-424 | with sends of at most L bytes: queue at most max_send_queue - 1 + L, allocation 65536 times a power of two and 65536 or below 2(max_send_queue + L) |
| ClientRuns.QuietUntilRetry | src/tcpclient.c:289-297 | a disconnected client's connection and the bytes it has sent do not change, and no socket is created, until a send arrives after the backoff |
| ClientRuns.RetryOutcome | src/tcpclient.c:299-398 | such a send ends in CONNECTING on a new socket iff every system call succeeds, and in freshly stamped BACKOFF otherwise |
| ClientRuns.AddressLostIff | src/tcpclient.c:301-325 | the address is lost iff a re-resolve failed, so never with always_resolve_dns off |
| ClientRuns.AddressLostForever | src/tcpclient.c:391-393 | a client without an address never changes again and every send returns 1 |
| ClientRuns.AddressLostExample | src/tcpclient.c:301-325 | a connect timeout and one due send whose lookup fails lose the address |
| ClientRuns.WedgedIff | src/tcpclient.c:246-253 | CONNECTING without connect watcher and timer is reached iff a getsockopt failed, and never left |
| ClientRuns.WedgedExample | src/tcpclient.c:246-253 | one failing getsockopt wedges a started client |
| ClientRuns.NeverIdleForGood | src/tcpclient.c:241-398 | without those two failures, every reachable state still has a callback to come, or reaches CONNECTING on the next due send that succeeds |
| ClientRuns.RecoveryDelivers | src/tcpclient.c:143-431 | from such a state at most one send, then callbacks only, leads to CONNECTED with an empty queue and everything accepted sent in order |
| ClientRuns.RecoversIff | src/tcpclient.c:143-431 | after any run, such a continuation exists iff no getsockopt and no re-resolve has failed |
| ClientLaws.StartsAs | src/tcpclient.c:58-137 | the client of a new backend: CONNECTING on its first socket, an empty queue in 65536 bytes, nothing else |
| ClientLaws.StateMachine | src/tcpclient.c:43-431 | every enabled event: a timeout, failed connect, failed recv, failed send or failed reconnect enters BACKOFF and records the time it read; end of stream enters INIT; which sends connect, make a socket and keep the address; nothing else moves the state |
| ClientLaws.BackoffLasts | src/tcpclient.c:43-431 | after any run, a connection broken at time t makes no socket until a send with now - t > 1, which makes one iff the address is there and socket() succeeds |
| ClientLaws.EndOfStreamRetries | src/tcpclient.c:170-182 | after an end of stream a send is due at once |
| ClientLaws.ConnectCode | src/tcpclient.c:279-386 | each return code of tcpclient_connect iff its condition |
| ClientLaws.SendCode | src/tcpclient.c:388-431 | 1 iff no address; 2 iff the queue is at its limit, and then failing; 4 iff no doubling malloc allows holds queue and line; otherwise 0, with the line at the end of the queue |
| ClientLaws.WriteLaw | src/tcpclient.c:192-239 | what send took leaves the front of the queue; failing is cleared below the limit; the watcher goes on iff bytes are left |
| ClientLaws.ReadLaw | src/tcpclient.c:143-189 | a read event changes nothing unless it finds an error or the end of the stream |
| ClientLaws.WaitsOnlyToSend | src/tcpclient.c:221-238 | once a write event has been handled, and until the next connection, the client waits to write iff it has bytes |
| Murmur3.Murmur3 | src/hashlib.c:8-56 | the block loop, the fall-through switch and the finaliser compute the hash the lemmas are about |
| Murmur3.FinaliseBijective | src/hashlib.c:48-55 | the finaliser is a bijection on 32-bit words, with its inverse |
| Murmur3.MixBijective | src/hashlib.c:27-28 | a round is a bijection of the hash for a fixed block |
| Murmur3.MixRevealsBlock | src/hashlib.c:22-28 | a round determines its block for a fixed hash |
| Murmur3.NoBlockCollision | src/hashlib.c:21-29 | equal-length keys that differ only inside one aligned 4-byte block have different hashes |
| Murmur3.NoTailCollision | src/hashlib.c:31-46 | equal-length keys that differ only in the last len mod 4 bytes have different hashes |
| Murmur3.BlockReachesEveryHash | src/hashlib.c:21-55 | whatever the rest of the key, some value of one block gives any chosen 32-bit hash |
| Murmur3.StatsHash | src/hashlib.c:59-63 | the shard is below the domain and congruent to the key's hash modulo the domain |
| Murmur3Vectors.KnownHashes | src/tests/test_hashlib.c:8-11 | an anchor for the hash model: the four values the repository's test expects |
| Murmur3Reference.BlockIs | src/hashlib.c:21-22 | block i is its four bytes weighted by powers of 256, for every i |
| Murmur3Reference.HashIsReference | src/hashlib.c:8-56 | the hash is MurmurHash3 as published, for every key and seed |
| Murmur3Reference.ShardIs | src/hashlib.c:5-63 | the shard is that hash with seed 0xaccd3d34, modulo the number of shards |
| Validate.SimpleParse | src/protocol.c:5-14 | the key is everything before the first needle; 0 iff there is none or it comes first |
| Validate.ValidateStatsd | src/validate.c:18-111 | wherever C defines its scans, the pointer walk over the scratch copy accepts exactly the grammar key ':' value '\|' type with optional "\|@" rate |
| Validate.StatsdExact | src/validate.c:18-111 | cutting at the first ':' and the next two '\|' decides the grammar, in both directions |
| Validate.LookUpType | src/validate.c:68-77 | the table loop accepts exactly the six type names |
| Validate.ValidStatsdHasKey | src/protocol.c:20-22 | the parser finds exactly the grammar's key in a valid statsd line |
| Validate.ValidateCarbon | src/validate.c:113-134 | the early-ending loop accepts exactly three space-free fields |
| Validate.CarbonExact | src/validate.c:113-134 | exactly two spaces is the same as three space-free fields |
| Validate.ValidCarbonKey | src/protocol.c:16-18 | a valid carbon line lacks a key iff it starts with a space |
| Validate.ValidCarbonNoKeyExample | src/validate.c:113-134 | " a " is such a line |
| Endpoints.PartsRejoin | src/stats.c:110-142 | host, port and protocol rejoin to the stored key and are parsed from it again |
| Endpoints.LineIs | src/stats.c:110-143 | what a line with no, one or two colons names, and its key; tcp is the default |
| Endpoints.NormaliseIdempotent | src/stats.c:133-143 | normalising a key again gives the same key |
| Endpoints.SameKeyIff | src/stats.c:100-158 | two lines have one key iff they name the same host, port and protocol |
| HashRings.Choose | src/hashring.c:86-101 | no choice iff the ring is empty, otherwise the entry at the shard that stats_hash gives the key |
| HashRings.List.Expand | src/list.c:17-40 | one slot more, the others kept; the allocation is a power of two below twice the size |
| HashRings.List.Append | src/hashring.c:66-73 | the list gains exactly the new entry at its end |
| HashRings.Dealloc | src/hashring.c:103-125 | every distinct backend is released exactly once, for every pattern of aliasing |
| Relay.RelayLinePreserves | src/stats.c:296-334 | one line is recorded once and every backend's bytes and counters stay accounted for |
| Relay.CallbackPreserves | src/stats.c:59-67 | a backend event keeps them accounted for, with stats_sent counting exactly the bytes that left |
| Relay.LinesConserved | src/stats.c:296-334 | relayed and dropped lines over all backends, malformed, rejected and unroutable lines add up to all lines given |
| Relay.LoadIsLoaded | src/hashring.c:35-77 | a loaded ring has one entry per line, whose backend is stored under the line's key; no two backends share a key |
| Relay.LoadFailsIff | src/stats.c:110-178 | loading fails iff a line has no colon or the first connect to a new endpoint fails |
| Relay.SharingExact | src/stats.c:88-158 | two shards are one backend iff their lines name the same endpoint |
| Relay.RoutingStable | src/hashring.c:86-101 | between rings of one size a line's endpoint changes iff the endpoint on its own shard's line changes |
| Framing.SplitJoins | src/stats.c:428-447 | splitting at newlines loses nothing and leaves no newline in a line |
| Framing.SplitUnique | src/stats.c:428-447 | it is the only way to cut the data into newline-free pieces |
| Framing.NulFreeStream | src/validate.c:24-86 | when no byte is NUL, no line of a stream makes validate_statsd scan beyond its copy, whatever is refused on the way |
| Framing.ProcessIsRelayAll | src/stats.c:422-451 | the TCP loop relays the non-status lines up to and including the first refused, and leaves exactly the unterminated rest |
| Framing.ChunkingIndependent | src/stats.c:458-508 | however the stream is chunked, the same lines are relayed with the same effect and the same bytes are held |
| Framing.DatagramIsRelayAll | src/stats.c:540-557 | the UDP loop relays the datagram's lines up to and including the first refused; the last needs no newline |
| Framing.UdpAgreesWithTcp | src/stats.c:513-561 | a datagram without "status" has exactly the effect of a TCP session sent the same bytes, with a final newline if it lacks one |
| Sessions.OfferSpace | src/stats.c:464-478 | recv is always offered positive space, and the held bytes are kept |
| Sessions.OfferJustified | src/stats.c:467-477 | the session buffer changes size only when it is full and newline-free, and then doubles |
| Sessions.RecvPreserves | src/stats.c:458-508 | one stats_recv adds exactly the next lines of its own stream to the record |
| Sessions.RunInv | src/stats.c:422-561 | all of this holds after every interleaving of clients, datagrams and backend events |
| Sessions.EndToEndFifo | src/stats.c:296-334 | per backend, all bytes ever sent followed by the queue are the lines routed to it and accepted, in arrival order, each whole with one newline: cutting those bytes at newlines gives back exactly those lines; bytes_queued is bytes_sent plus the queue |
| Sessions.EndToEndArrival | src/stats.c:422-508 | per session, the lines that arrived are those of its own stream, in order, until it closes or one is refused; an open session holds exactly the rest |
| Sessions.EndToEndDatagram | src/stats.c:540-557 | per datagram, the lines that arrived are its own, in order, up to and including the first refused |
| Sessions.WireSplits | src/stats.c:319 | what a backend is owed is cut at newlines into exactly the lines it accepted |
| Sessions.EndToEndCounts | src/stats.c:296-334 | the line counters account for every line of the run |
| Sessions.EndToEndSessionMemory | src/stats.c:464-480 | a session's buffer is 4096 times a power of two, at most 4096 or twice the longest newline-free stretch received |
| Sessions.EndToEndNoMalformed | src/stats.c:296-309 | with statsd validation malformed_lines stays 0 |
| SystemClients.BackendsAreClientRuns | src/stats.c:319 | in a run of the whole relay every backend's client is in a state that a client run reaches |
| SystemClients.EndToEndMemory | src/tcpclient.c:400-424 | so the queue and allocation bounds hold for every backend of every run |
| RelayLaws.StatsdGrammarIs | src/validate.c:18-111 | the statsd grammar with its bytes and type names written out |
| RelayLaws.EndToEndVerdicts | src/stats.c:296-334 | in every run: Rejected iff validation is on and the line outside its grammar; Malformed iff it has no key; Unroutable iff the ring is empty; otherwise the ring entry at the hash of its key |
| RelayLaws.EndToEndGrammar | src/stats.c:297-301 | with validation on every line on a wire is in the grammar |
| RelayLaws.EndToEndRouting | src/stats.c:312-314 | in every run a routed line goes to the backend of the endpoint on its own shard's line |
| RelayLaws.EveryLineHasItsMoment | src/stats.c:296-334 | for every line of a run, the server state in which it was relayed |
| RelayLaws.EndToEndDrops | src/stats.c:319-328 | at that moment a routed line is dropped iff its backend has no address, its queue is at the limit, or no allocation malloc allows holds it |
| RelayLaws.RelayCode | src/stats.c:296-334 | 0 for an accepted line, 2 for a dropped one, otherwise 1 |
| RelayLaws.BackendEvent | src/stats.c:59-67 | a backend event is a step of that client, counted in bytes_sent, and changes nothing else |
| RelayLaws.EndToEndTraffic | src/stats.c:291-538 | over every run bytes_recv_tcp, bytes_recv_udp and total_connections count what arrived, and a backend is failing iff its last line was dropped |
| RelayLaws.StatusIsSkipped | src/stats.c:443-444 | of a session's lines exactly "status" is not relayed |
| SessionLaws.SpaceIff | src/stats.c:464-478 | space is refused iff the buffer is full of unread data and malloc refuses twice its size |
| SessionLaws.RecvOpenIff | src/stats.c:458-508 | after a receive the session is open iff recv gave bytes, there was space, and no completed line was refused |
| SessionLaws.ClosedIff | src/stats.c:458-508 | over every run a session is closed iff it met an end of stream, an error, a refusal of memory or a refused line |
| Stats.StatsBackend.SendLine | src/stats.c:319-333 | line and newline are queued and counted as relayed, or the line is counted as dropped |
| Stats.StatsBackend.WriteReady | src/stats.c:59-67 | bytes_sent grows by exactly what send took |
| Stats.StatsServer.FindBackend | src/stats.c:88-96 | the linear search finds the backend stored under a key, or that there is none |
| Stats.StatsServer.AddBackend | src/stats.c:70-80 | the list gains the new backend at its end |
| Stats.StatsServer.MakeBackend | src/stats.c:100-201 | the existing object for a known key, a new connecting one for a new key, null without a colon or on a failed connect |
| Stats.StatsServer.LoadRing | src/hashring.c:35-51 | the ring of objects realises the loaded ring of indices; on a refused line every backend made for the lines before it is released exactly once |
| Stats.CreateServer | src/stats.c:214-256 | a server starts with its ring loaded and zero counters, or not at all; two ring entries are the same object iff their lines name the same endpoint |
| Stats.StatsServer.RelayLine | src/stats.c:296-334 | validation, key, choice and send change one backend in place and no other |
| Stats.StatsServer.UdpRecv | src/stats.c:513-561 | an empty or failing read changes nothing and returns 1; otherwise the offset loop has the effect the framing lemmas describe |
| Stats.StatsServer.OnBackendEvent | src/tcpclient.c:43-277 | a libev callback changes one backend in place and no other |
| Stats.StatsSession.constructor | src/stats.c:274-294 | a new session is open and empty and is counted |
| Stats.StatsSession.ProcessLines | src/stats.c:422-451 | the loop over the session's buffer relays and consumes line by line |
| Stats.StatsSession.Recv | src/stats.c:458-508 | one receive on the real buffer is one step of the system, and what it adds to server and buffer is newly allocated |
| EventLoops.EventLoop.ReadClient | src/stats.c:458-508 | a receive on one of many sessions leaves the others as they are |
| EventLoops.EventLoop.Handle | src/server.c:48-52 | accept, receive, datagram and backend callback each take the objects through one step of the system |
| EventLoops.EventLoop.HandleAll | src/server.c:48-52 | any sequence of events leaves the server, its sessions and backends as the run of the system says, so the run invariant holds of them |
| EventLoops.Boot | src/stats.c:214-256 | what is created satisfies the premise of every theorem about runs |
| YamlConfig.ParseConfig | src/yaml_config.c:81-225 | the event loop computes the step system's result, including parse errors |
| YamlConfig.HandleScalar | src/yaml_config.c:119-208 | the nested switch over a scalar, with its errors |
| YamlConfig.ParseIsWalk | src/yaml_config.c:81-216 | for every stream of documents whose mapping keys are scalars, errors included, the event loop computes the recursive walk that needs neither is_key nor map_nesting |
| YamlTrees.KeyFlagIsExact | src/yaml_config.c:108-114 | at every scalar reached in any document, mappings as keys included, map_nesting is the depth; is_key is true exactly at key positions if no mapping used as a key has a scalar value and a scalar root does not find it set |
| YamlTrees.KeyFlagExactIff | src/yaml_config.c:108-114 | that condition is exact: in any other document some scalar finds is_key wrong |
| YamlTrees.CrashIff | src/yaml_config.c:126-207 | for every sequence of events, the NULL section is dereferenced iff a value is stored before the first scalar of an outermost mapping |
| YamlTrees.ParserNeverCrashes | src/yaml_config.c:126-207 | so only a file whose first key is a mapping can do it |
| YamlTrees.LeadingOptionCrashes | src/yaml_config.c:138-180 | and it does, whatever follows, if that mapping begins with an option whose value is stored |
| YamlTrees.CrashExample | src/yaml_config.c:155-158 | the mapping { bind: x } as a key |
| YamlFlags.ParserReads | src/yaml_config.c:119-209 | for every stream of documents with scalar keys: accepted iff acceptable, a condition on section names, booleans, shard numbers and the three kinds of flag that never looks at the configuration; an accepted file writes exactly what each value is taken for |
| YamlLeaks.ParserIsLeaky | src/yaml_config.c:119-209 | for all files whose options have a value of their kind, errors included, the parser computes the reading in which an unknown option counts as always_resolve_dns once that has been seen |
| YamlLeaks.ParserAgreesIff | src/yaml_config.c:119-209 | for files whose options have a value of their kind, the parser agrees with the reading without flags iff the reading rejects the file anyway, or every leaked value is a boolean and the last one written in each section is the last one written without the leak; any other file is malformed for the reading, and they agree iff it is not acceptable to the flags |
| YamlLeaks.ParserAgrees | src/yaml_config.c:119-209 | in particular they agree on every file of the first kind in which no unknown option follows always_resolve_dns |
| YamlLeaks.UnknownAfterFlag | src/yaml_config.c:151-179 | for every unknown option after always_resolve_dns: the file is rejected, or the setting takes its value |
| YamlLeaks.LeakExample | src/yaml_config.c:151-179 | a two-option section that the parser rejects and the reading accepts |
| YamlLeaks.OverwriteExample | src/yaml_config.c:151-179 | always_resolve_dns: true, comment: false is accepted with the setting false |
| YamlLeaks.OtherSectionExample | src/yaml_config.c:151-179 | always_resolve_dns: false under carbon and comment: true under statsd switch the setting on for statsd |
| YamlLeaks.ShardsUnderUnknown | src/yaml_config.c:144-207 | for every file with a mapping under an unknown option, anywhere: the parser agrees with the reading, which rejects it, iff the mapping has entries and precedes every shard_map, or its keys do not go on from the last shard, or the rest is not acceptable |
| YamlLeaks.MappingGoesOn | src/yaml_config.c:144-207 | otherwise its values follow those of the shard_map in the ring |
| YamlLeaks.ShardsElsewhereExample | src/yaml_config.c:144-207 | a file accepted with both shards in the ring |
| YamlLeaks.ScalarSection | src/yaml_config.c:126-136 | for every file with a scalar in the place of a section: agreement iff the scalar names no section, or the rest is not acceptable |
| YamlLeaks.ScalarSectionExample | src/yaml_config.c:126-136 | carbon: statsd initialises both sections |
| YamlLeaks.ShardsInOrder | src/yaml_config.c:186-206 | a shard map is accepted iff its keys are 0, 1, ... in order, and gives its values |
| YamlLeaks.RingsOfDocument | src/yaml_config.c:138-207 | in every accepted file every shard map is numbered 0, 1, ... and each section's ring holds exactly the scalars under its mappings in order, whatever the flags |
| ConfigLaws.ReadingIsFile | src/yaml_config.c:17-209 | the flag-free reading is the file format with its names, booleans, numbers and defaults written out |
| ConfigLaws.ParserReadsFile | src/yaml_config.c:60-209 | so the parser reads every file of the format in which the leak does no harm |
| ConfigLaws.SingleOption | src/yaml_config.c:126-180 | for any section, option name and scalar: which field is set to what, that no other is, and when the file is rejected |
| ConfigLaws.WaitingOption | src/yaml_config.c:138-180 | an option given an empty mapping waits, and the next scalar goes to the one whose flag is looked at first |
| ConfigLaws.Defaults | src/yaml_config.c:33-57 | the settings of an empty file and of an empty section |
| ConfigLaws.SingleShardMap | src/yaml_config.c:144-207 | one shard map is accepted iff its keys are numbered from 0, and its values become the ring |
| ConfigLaws.ParsedEvents | src/yaml_config.c:86-118 | what is parsed ends at STREAM-END, with no sequence, alias or nested document before it |
| Arrays.LinesAre | src/stats.c:429-441 | the lines cut from a stream are exactly its whole lines in place |
| Arrays.KeyFitsIff | src/stats.c:303-311 | a key fits key_buffer iff the character that ends it, if any, is among the first 8192 bytes |
| Arrays.StreamFitsIff | src/stats.c:426-441 | all lines and keys of a stream fit the arrays iff each whole line has at most 65536 bytes and a key that fits |
| Arrays.DatagramLineFits | src/stats.c:519-550 | the lines of a datagram always fit line_buffer |
| Arrays.EndToEndFits | src/stats.c:296-451 | in a run of such streams, and of datagrams with such keys, every line relayed and its key fit |
| Connections.LineStartIff | src/tcpclient.c:192-239 | the next byte to leave begins a line iff nothing has been sent or a newline last |
| Connections.SentSince | src/tcpclient.c:192-239 | what a backend is sent after any moment of a run is the piece of its accepted lines that begins where the bytes sent before end |
| Connections.EndToEndConnectionStart | src/tcpclient.c:241-277 | a new connection begins with a whole line iff nothing was sent before it or the last byte sent was a newline |
| Connections.CutLineExample | src/tcpclient.c:192-277 | a run in which the second connection begins in the middle of a line |
| Routing.Trim | src/stathasher.c:79-85 | the trim loop leaves the input cut at its first whitespace or NUL |
| Routing.TrimKeepsIff | src/stathasher.c:79-85 | a NUL-free key is hashed as typed iff it has no whitespace |
| Routing.TrimmedIs | src/stathasher.c:79-85 | what is hashed is everything before the first whitespace or NUL |
| Routing.StathasherAgrees | src/stathasher.c:78-98 | stathasher and the relay choose the same shard, and the relay's backend is the one on the line it prints |
| Routing.CarbonLineAccepted | py/carbonsink.py:43-54 | a carbonsink line arrives whole, passes validate_carbon iff its value has no space, and parses back to its key |
| Routing.CarbonLineIs | py/carbonsink.py:43-54 | prefix, dot and key with underscores for spaces, the value, and the time in decimal |

## Left out

- Listeners, signals, option parsing and logging (src/tcpserver.c, src/udpserver.c, src/server.c, src/main.c, src/log.c): only the callbacks they invoke are modelled.
- `stats_send_statistics`: "status" is modelled as a line that is consumed and not relayed; its text is not.
- `stats_server_reload`: it frees the ring without rebuilding it, so there are no runs through it.
- `tcpclient_destroy` and session teardown: they close descriptors whatever the state; the socket results are about runs before them.
- `buffer_set`, `buffer_init_contents` and `buffer_wrap`: not used by the relay's data path.
- Allocation failure in the ring list, `add_backend`, `strdup` and session creation: assumed to succeed. It is modelled for the send queue, the session buffer and the client's receive buffer.
- TCP_CORK, address families and the text in client names: no effect on the modelled state.
- YamlLeaks.ParserAgreesIff: files with a mapping as a key are not read; YamlTrees says of them only when is_key is right and when the parser crashes. A sequence or an alias is rejected when it is reached.
- Arrays.EndToEndFits: one direction only, because a line after the first refused one is never copied.
- YamlLeaks.RingsOfDocument: a section with two mappings gets the scalars of both in its ring, as in the source; ring index and shard number coincide when there is one.
- Murmur3.NoBlockCollision: says nothing about shards, since the reduction modulo the ring size may merge different hashes.
- Stats.StatsServer.LoadRing: ring and backend list are sequences of object references; the doubling array under the ring is modelled on its own, as HashRings.List.
- carbonsink's sinks, caches and subprocess handling, and src/stresstest.c: input and output only.
