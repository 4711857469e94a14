# nrpc: a verified model of its core

This project models, in Dafny, the parts of the nrpc framework that carry its guarantees: the service-discovery
replica that follows etcd, the message and packet codecs, the sliding-window rate limiter, the RPC request dispatcher,
the sharded worker pool, the lease watcher, and the printers and parsers of routes and keys. `dafny verify
dfyconfig.toml` checks everything.

How the pieces are modelled:

* Objects that the source updates in place (`RouteDictionary`, `Message`, `MessagesEncoder`, `RateLimiter`, `Channel`,
  `ServiceDiscovery`, `Router`) are classes. Each method is proved equal to a function on values, and the promises are
  proved about those functions, over every input or every run.
* Concurrent code is a step machine (`Handshake`, `Dispatcher`, `WorkerPool`, and the last two together in `Serving`) or a
  machine over coarse steps (`Replication`). A step that is not possible changes nothing, so a run is any sequence of steps and every theorem about
  runs covers every interleaving.
* Map iteration order, the order in which parallel fetches finish, random picks, clocks and the results of calls to etcd,
  NATS, zlib, `strings.TrimSpace` and request handlers are parameters or nondeterministic choices.
* Integers are unbounded; the 64-bit wrap-around of message IDs, the one-byte route length, the three-byte packet length
  and the 32-bit FNV hash are written out. Flag bits are arithmetic on the flag byte.

Where a promise does not hold of the code in general, the model keeps the code, gives a concrete failing case and proves
the exact condition:

* a packet of exactly 2^24 bytes is accepted but read as an empty packet followed by its own data, parsed as further
  packets; if those do not parse, everything is refused (`Packets.PacketRoundTripIff`, `Packets.ZeroesAreRefused`);
* an uncoded route of 256 bytes or more is cut off (`Messages.RoundTripIff`, `Messages.LongRouteIsLost`);
* encoding the same message object twice can send its data deflated but unmarked (`Messages.SecondEncodeIff`,
  `Messages.SecondEncodeLosesData`);
* `Decode` panics on one family of Requests (`Messages.PanicIff`, `Messages.TwoZeroesPanic`);
* two overlapping syncs defeat the handshake: the watcher gets in, and a server can be left findable by type but not by
  ID (`Handshake.NoOverlapIsSafe`, `Handshake.OverlapBreaksApart`, `Handshake.OverlapBreaksIndexes`);
* two overlapping first Submits for a key create two queues, and its tasks run concurrently (`WorkerPool.QueuesPerKey`,
  `WorkerPool.CleanKeyIsOrdered`, `WorkerPool.OverlapBreaksOrder`);
* an ID that appears under two type keys can be dropped while etcd still offers it (`Replication.ReplayAgreesIff`,
  `Replication.ChangedTypeIsLost`);
* a lease attempt that is granted but fails to register, or times out, leaves an extra watcher (`Lease.WatchersIff`,
  `Lease.TwoWatchers`, `Lease.WatcherOfTheDead`);
* a rate limiter whose limit is not positive panics (`RateLimiting.NoCrashIff`, `RateLimiting.CrashesAtOnce`).

Code and comments disagree in two places, and the model follows the code: the table above `Encode` lists a push type
that the code rejects as invalid, and the rate limiter is described as a leaky bucket but is a sliding-window log.

## Model

| member | source | states |
|---|---|---|
| Dictionary.InstallKeepsInverse | conn/message/message.go:109-134 | A SetDictionary call, complete or stopped by a clash part-way, keeps routes and codes each other's inverse and drops or changes no earlier entry |
| Dictionary.InstallMeans | conn/message/message.go:116-131 | A call succeeds exactly when, after trimming, no route and no code of the argument is already taken or used twice in it |
| Dictionary.InstallLeavesPrefix | conn/message/message.go:116-131 | A call leaves, in both maps, exactly the entries before the first one that clashes with the dictionary or an earlier entry; all of them if none does |
| Dictionary.InstallOrderIrrelevant | conn/message/message.go:116-131 | For any two map iteration orders the call succeeds alike, and leaves the same two maps when it succeeds |
| Dictionary.CallsKeepInverse | conn/message/message.go:109-134 | Over every sequence of calls, failing ones included, the maps stay inverse and only grow |
| Dictionary.RouteDictionary.SetDictionary | conn/message/message.go:109-134 | The loop installs entries until the first clash; it reports success exactly when the whole argument is installable; inverse maps stay inverse |
| Messages.FlagFields | conn/message/message.go:40-47 | Type, route, gzip and error fields share the flag byte without touching each other |
| Messages.Uint64FitsTenGroups | conn/message/message_encoder.go:85-98 | Every 64-bit ID takes at most ten bytes |
| Messages.ScanEncodedId | conn/message/message_encoder.go:146-160 | Reading an encoded ID inside any longer input gives exactly that ID and its end, without wrap-around |
| Messages.ExpandCompressed | conn/message/message_encoder.go:110-122 | Whatever payload Encode sends, deflated only when that is shorter, expands to the original data |
| Messages.RoundTripIff | conn/message/message_encoder.go:64-207 | Decode of Encode gives back type, error flag, original data, ID (zero for Notify) and route (empty for Response) if and only if the route is not sent, has a code, or has at most 255 bytes |
| Messages.LongRouteIsLost | conn/message/message_encoder.go:104-107 | A 256-byte uncoded route arrives as an empty route with its bytes moved into the data |
| Messages.ReencodeStable | conn/message/message_encoder.go:133-207 | Every message that Decode accepts from arbitrary bytes can be encoded again exactly if compression is off or zlib takes its data, and then comes back the same, marked as coded exactly if its route has a code |
| Messages.EncodeWrites | conn/message/message_encoder.go:64-124 | On success the bytes are the flag in the protocol's own numbers, the ID in the fewest base-128 groups, the big-endian code or the length and route, and the data, deflated exactly if that is shorter |
| Messages.EncodeFailsIff | conn/message/message_encoder.go:64-68 | Encode fails exactly for a type above 2, or else if the data is to be deflated and cannot be |
| Messages.DecodeOkIff | conn/message/message_encoder.go:133-207 | Decode returns a message exactly if the bytes say it in that format: flag fields, an ID up to the first byte below 128 modulo 2^64, a known code or a length and that many bytes, the rest inflated or plain |
| Messages.DecodeFailsBy | conn/message/message_encoder.go:133-207 | And otherwise which error it is, or the panic: bad type, cut-off code or route, unknown code, payload that does not inflate |
| Messages.SecondEncodeIff | conn/message/message_encoder.go:110-122 | Encoding one message object a second time still delivers the original data exactly when the first call did not replace Data |
| Messages.SecondEncodeLosesData | conn/message/message_encoder.go:115-121 | With a lawful zlib that shortens one input, the second of two Encode calls on one message delivers empty data |
| Messages.GrowthKeepsMeaning | conn/message/message_encoder.go:166-191 | Bytes accepted under one dictionary decode to the same message after any later SetDictionary calls |
| Messages.SentMeaningSurvivesGrowth | conn/message/message_encoder.go:64-207 | Bytes sent now decode to the sent message under every later dictionary |
| Messages.PanicIff | conn/message/message_encoder.go:181-184 | Decode panics exactly on a Request without a route code whose ID ends on the last byte |
| Messages.TwoZeroesPanic | conn/message/message_encoder.go:181-184 | Two zero bytes are such an input |
| Messages.MessagesEncoder.AppendId | conn/message/message_encoder.go:85-98 | The shifting loop appends the base-128 form of the ID |
| Messages.MessagesEncoder.AppendRoute | conn/message/message_encoder.go:100-108 | A routable type gets the big-endian code or the length byte and the route; others nothing |
| Messages.MessagesEncoder.EncodeMessage | conn/message/message_encoder.go:64-124 | Result and error are those of the encoding function; Data becomes the payload sent, and only on success |
| Messages.MessagesEncoder.ReadId | conn/message/message_encoder.go:146-160 | The accumulating loop returns the wrapped ID and the offset after it, or offset 1 if it never ends |
| Messages.MessagesEncoder.DecodeMessage | conn/message/message_encoder.go:133-207 | For any bytes the outcome (message, error or panic) is that of the decoding function, in a fresh message |
| Packets.BytesToInt | conn/codec/utils.go:25-31 | The loop computes the big-endian number |
| Packets.IntToBytes | conn/codec/utils.go:34-40 | The three bytes denote the number modulo 2^24 |
| Packets.Encode | conn/codec/pomelo_packet_encoder.go:42-59 | The filled buffer is what the encoding function gives, or its error |
| Packets.EncodeAcceptsIff | conn/codec/pomelo_packet_encoder.go:43-49 | Accepted are exactly the types 1 to 4 with up to 0x1000000 bytes; the type is looked at first |
| Packets.EncodeWrites | conn/codec/pomelo_packet_encoder.go:51-58 | What is sent is the type, the length in base 256 with the most significant byte first, and the data |
| Packets.ParseHeader | conn/codec/utils.go:6-22 | Exactly the four-byte headers of known type give a size, below 2^24 |
| Packets.Decode | conn/codec/pomelo_packet_decoder.go:43-78 | The stream loop returns what the recursive parser returns, for any bytes |
| Packets.DecodeReads | conn/codec/pomelo_packet_decoder.go:43-78 | A header of type 1 to 4 followed by as many bytes as its three length bytes denote is read as that packet; any other type is an error whatever follows |
| Packets.HeaderDecides | conn/codec/utils.go:6-22 | For every type byte, a header alone with length zero is one empty packet if the type is 1 to 4 and an error otherwise |
| Packets.ParseOkIff | conn/codec/pomelo_packet_decoder.go:43-78 | Decode returns ps exactly when the input is the encoding of ps followed by a rest that is under four bytes or announces more than it holds |
| Packets.ParseErrIff | conn/codec/pomelo_packet_decoder.go:57-75 | Decode fails exactly when complete packets are followed by a header of unknown type, and then returns none of them |
| Packets.StreamRoundTrip | conn/codec/pomelo_packet_decoder.go:43-78 | Any list of encoded packets followed by any strict prefix of another decodes to exactly that list |
| Packets.PacketRoundTripIff | conn/codec/pomelo_packet_encoder.go:47-57 | An accepted packet comes back unchanged if and only if its data is shorter than 2^24 bytes |
| Packets.FullPacketIsReparsed | conn/codec/pomelo_packet_encoder.go:47-57 | A packet of exactly 2^24 bytes is read as an empty packet followed by whatever its own data parses as |
| Packets.ZeroesAreRefused | conn/codec/pomelo_packet_encoder.go:47-57 | 2^24 zero bytes are accepted by Encode and refused as a whole by Decode |
| Wire.MessageStreamRoundTrip | conn/codec/pomelo_packet_decoder.go:43-78 | Any list of messages sent as Data packets, cut inside a further packet and read under any later dictionary, comes back as that list |
| RateLimiting.AdmitRefinesLog | pipeline/plugin/rate_limiter.go:85-99 | One call is limited exactly when at least `limit` accepted times lie within `interval`; the list keeps holding the last `limit` accepted times |
| RateLimiting.RunTracksLog | pipeline/plugin/rate_limiter.go:85-99 | In every run on a clock that never goes back the list is the last min(n, limit) accepted times |
| RateLimiting.RunRefinesLog | pipeline/plugin/rate_limiter.go:85-99 | In every such run every verdict equals the naive count over the whole log |
| RateLimiting.NoCrashIff | pipeline/plugin/rate_limiter.go:86-92 | On any clock readings, a run never panics exactly when the limit is positive or nothing is served |
| RateLimiting.WindowBound | pipeline/plugin/rate_limiter.go:85-99 | No window of length `interval` holds more than `limit` accepted times |
| RateLimiting.BurstThenWait | pipeline/plugin/rate_limiter.go:85-99 | The exact edge: after a burst of `limit` calls at t the next is limited before t + interval and accepted from then on |
| RateLimiting.ExecuteAdmits | pipeline/pipeline.go:80-93 | All a call through the pipeline does to the limiter is to admit, in order, some of the readings its hooks take |
| RateLimiting.PipelineBound | pipeline/pipeline.go:80-93 | With forceDisable and the limiter hooked in anywhere, no window of length `interval` lets more than `limit` calls through, whatever the other hooks do |
| RateLimiting.WithoutForceOnlyObserves | pipeline/plugin/rate_limiter.go:71-81 | Without forceDisable a call is answered as if the limiter hooks were not there |
| RateLimiting.RateLimiter.ShouldRateLimit | pipeline/plugin/rate_limiter.go:85-99 | Overwriting the front and moving it to the back gives the naive verdict and keeps the list tracking the log |
| RateLimiting.RateLimiter.HandleBefore | pipeline/plugin/rate_limiter.go:71-81 | Only a limited call with forceDisable is refused; context and input pass through |
| RateLimiting.Channel.PushFront | pipeline/pipeline.go:107-112 | Allocating a longer slice and copying puts the handler first and keeps all others in their order |
| RateLimiting.ExecuteConcat | pipeline/pipeline.go:80-117 | What pushing means for a call: handlers behind others get what those leave and are not reached after an error, so a handler pushed to the front runs before, and one pushed to the back after, everything registered so far |
| RateLimiting.ExecuteIff | pipeline/pipeline.go:80-93 | What a call returns and does to the limiter is exactly what its trail says: each handler gets the context and data the one before passed on, the caller gets the last ones or the answer of the first handler that failed |
| RateLimiting.Channel.ExecuteBeforePipeline | pipeline/pipeline.go:80-93 | Handlers run in order on each other's results and the first error ends the call |
| Names.JoinSplit | route/route.go:65-65 | Splitting loses nothing and leaves no separator in a part |
| Names.DecodeThenString | route/route.go:51-80 | A route decoded from a string prints as that string |
| Names.StringThenDecodeIff | route/route.go:51-80 | A printed route decodes to itself exactly when service and method are dot-free and not blank and the server type is so or empty |
| Names.DecodeRouteMeans | route/route.go:64-80 | A string with a blank part is refused as such; otherwise it is accepted exactly with one or two dots, and has a server type exactly with two |
| Names.KeyRoundTripIff | cluster/etcd_service_discovery.go:280-282 | The key of a server parses to its type and ID exactly when neither contains a slash, and otherwise does not parse |
| Names.ParsedKeyIsItsKey | cluster/etcd_service_discovery.go:412-420 | A key under "servers/" that parses is the key of the type and ID it names |
| Replicas.ReplayKeepsConsistent | cluster/etcd_service_discovery.go:256-267 | Every sequence of adds and deletes keeps the two indexes in agreement: a server is under its type iff it is under its ID with that type |
| Replicas.ListenerRebuilds | cluster/etcd_service_discovery.go:240-248 | Over every run from any moment, folding what a listener was told since rebuilds the by-ID map without the own server |
| Replicas.NotesAlternate | cluster/etcd_service_discovery.go:622-636 | Over every run from any moment, the adds and removes a listener is told about any other ID alternate, starting with an add if it was not known, and their number says whether it is known now |
| Replicas.ToldExactly | cluster/etcd_service_discovery.go:240-267 | Over every run a listener is told of every departure of every server, the own one included, and of every arrival except the own one's, once each |
| Replicas.AddsById | cluster/etcd_service_discovery.go:622-636 | After a batch of adds each ID has the server it had, or else the first one added for it |
| Replicas.DeletesById | cluster/etcd_service_discovery.go:256-267 | A batch of deletes removes exactly its IDs |
| Discovery.SyncOutcome | cluster/etcd_service_discovery.go:543-582 | For any snapshot, any fetch failures and any order, the IDs after a sync are exactly the eligible ones of the snapshot that were known or fetched |
| Discovery.SyncValue | cluster/etcd_service_discovery.go:564-580 | A known server is left as it was; a new ID gets the first server that arrived for it |
| Discovery.CompleteSync | cluster/etcd_service_discovery.go:543-582 | If all fetches succeed with the IDs of their keys, the IDs are exactly the eligible ones of the snapshot |
| Discovery.EligibleKey | cluster/etcd_service_discovery.go:554-560 | The key of a server counts exactly if its fields have no slash and its type is not blacklisted or the server is the own one |
| Discovery.SyncLeaves | cluster/etcd_service_discovery.go:549-582 | After any sync only servers with a counting key in the snapshot are known; known ones with such a key stay as they were; if all fetches succeed all such servers are known |
| Discovery.WorksIff | cluster/etcd_service_discovery.go:554-571 | A sync fetches exactly the unknown servers with a counting key |
| Discovery.SyncOrderIrrelevantIff | cluster/etcd_service_discovery.go:464-496 | The servers a sync leaves are independent of the order in which workers finish if and only if no two fetches clash on a new, eligible ID |
| Discovery.DistinctIdsNeverClash | cluster/etcd_service_discovery.go:549-572 | With distinct IDs in the snapshot and fetched servers carrying the IDs of their keys there is no clash, whichever fetches fail |
| Discovery.EventsKeepConsistent | cluster/etcd_service_discovery.go:669-695 | Watch events keep the indexes in agreement |
| Discovery.EventMeans | cluster/etcd_service_discovery.go:669-695 | An event on a key with a blacklisted type and another server's ID changes nothing at all; otherwise a put adds its payload if that parses, and a delete removes the ID in the key |
| Discovery.ServiceDiscovery.NotifyListeners | cluster/etcd_service_discovery.go:240-248 | Every listener is told exactly once, nothing else changes |
| Discovery.ServiceDiscovery.AddServer | cluster/etcd_service_discovery.go:622-636 | First write wins; both indexes and all listeners change together; the own server is not announced |
| Discovery.ServiceDiscovery.DeleteServer | cluster/etcd_service_discovery.go:256-267 | A known ID leaves both indexes and all listeners are told; an unknown one changes nothing |
| Discovery.ServiceDiscovery.IsServerTypeBlacklisted | cluster/etcd_service_discovery.go:704-711 | The scan finds the type exactly when it is listed |
| Discovery.ServiceDiscovery.DeleteLocalInvalidServers | cluster/etcd_service_discovery.go:269-278 | Exactly the known IDs that are not actual are deleted, in some order |
| Discovery.ServiceDiscovery.ParallelGet | cluster/etcd_service_discovery.go:464-496 | Whatever order the workers finish in, the result is the successfully fetched servers, each once |
| Discovery.ServiceDiscovery.CollectWork | cluster/etcd_service_discovery.go:549-572 | The loop collects the eligible IDs and the eligible keys whose servers are unknown |
| Discovery.ServiceDiscovery.SyncServers | cluster/etcd_service_discovery.go:516-588 | A failed query changes nothing; otherwise the state is that of one possible course of the sync, consistent, and holds only servers with a counting key in the snapshot |
| Discovery.ServiceDiscovery.HandleWatchResponse | cluster/etcd_service_discovery.go:669-695 | The events are applied in order, ignoring unparsable keys, ignored types and bad payloads |
| Discovery.ServiceDiscovery.GetServersByType | cluster/etcd_service_discovery.go:297-311 | A copy of exactly what is filed under the type, or an error exactly when that is nothing, at any moment; with the indexes in agreement these are exactly the servers of the type known by ID |
| Discovery.ServiceDiscovery.GetServer | cluster/etcd_service_discovery.go:336-341 | With indexes in agreement, a server is found by ID exactly when it is listed under a type, that type is its own, and both lookups give the same server |
| Replication.HandledIds | cluster/etcd_service_discovery.go:669-695 | After a run of events the replica knows an ID iff the last event about it was a put; with no event nothing changes |
| Replication.ReplayAgreesIff | cluster/etcd_service_discovery.go:516-588 | A sync that reads revision r and fetches all it needs, from any earlier replica, and a contiguous run of events from at or before r + 1 up to n leave exactly the IDs etcd offers at n if and only if no ID's last event in the run deletes one of its keys while another is live |
| Replication.SnapshotPlusReplayConverges | cluster/etcd_service_discovery.go:516-588 | With one key per ID such a sync and run always end with exactly the IDs etcd offers at n |
| Replication.ChangedTypeIsLost | cluster/etcd_service_discovery.go:691-693 | A server that moves to another type key is dropped when the old key goes, although etcd still offers it |
| Replication.HandledValue | cluster/etcd_service_discovery.go:622-636 | After a run of events an ID has the payload of its first put since its last delete, or its old value if it was known and never deleted |
| Replication.FirstWriteWins | cluster/etcd_service_discovery.go:622-623 | A known server never changes through puts, whatever their payload, until its ID is deleted |
| Replication.CaughtUpAgrees | cluster/etcd_service_discovery.go:638-702 | In every run of writes, events, complete or failing syncs and re-created watches: once caught up and covered by a complete sync, the replica's IDs are exactly those with a live key that counts |
| Replication.AlwaysRecovers | cluster/etcd_service_discovery.go:516-588 | Whatever has happened, one complete sync and the events still to come lead to exactly those IDs |
| Replication.GapIsMissed | cluster/etcd_service_discovery.go:652-665 | The sync is needed: an event between two watches is missed |
| Handshake.NoOverlapIsSafe | cluster/etcd_service_discovery.go:642-648 | With any number of syncs: in every run in which no sync gets in while the watcher waits for another's false, the watcher handles no event between a sync's two sends, and whenever nobody is mid-operation the cache equals the completed operations done one after the other |
| Handshake.OverlapBreaksApart | cluster/etcd_service_discovery.go:645-648 | Wherever a run has got to, a sync that does get in so can be followed by at most three steps after which the watcher handles events while a sync is inside |
| Handshake.SafeIffOneSync | cluster/etcd_service_discovery.go:516-520 | Over all interleavings each of the two promises holds if and only if at most one sync can be in flight |
| Handshake.QuietAgrees | cluster/etcd_service_discovery.go:642-648 | In every run without such an overlap, whenever nobody is mid-operation the indexes agree and every listener's log rebuilds the by-ID map |
| Handshake.SyncIsOneCourse | cluster/etcd_service_discovery.go:516-582 | In every run without overlap a sync that ends has added exactly what its query brought, in order, and then deleted exactly the known IDs it does not keep, with nothing in between |
| Handshake.ResponseIsHandled | cluster/etcd_service_discovery.go:669-695 | And a watcher that selects again has done exactly the operations of the response it received, in order |
| Handshake.AlwaysFiled | cluster/etcd_service_discovery.go:256-267 | In every state of every run, with any number of syncs and between the halves of operations, whatever is found under a type has that type and its own ID |
| Handshake.OverlapBreaksIndexes | cluster/etcd_service_discovery.go:516-582 | Two overlapping syncs reach a quiet state in which a server is found by type and not by ID |
| Handshake.OverlapLetsWatcherIn | cluster/etcd_service_discovery.go:645-648 | Of two overlapping syncs the first to send false lets the watcher handle events while the other is still inside |
| Handshake.BlockedIsAwaited | cluster/etcd_service_discovery.go:516-520 | In every run, with any number of syncs in flight, the watcher is blocked only while some sync is still going to send false |
| Handshake.NeverDeadlocked | cluster/etcd_service_discovery.go:642-648 | In every run, with any number of syncs in flight, as long as a sync or a response is under way or the watcher is blocked, one of them can take a step that starts nothing new |
| Handshake.EveryDrainFinishes | cluster/etcd_service_discovery.go:516-588 | After every run, going on without new syncs and responses is bounded whatever the order, and can continue until everything that began has ended |
| Routing.Router.DefaultRoute | router/router.go:61-72 | The random index is in range and picks one of the servers; only an empty map would panic |
| Routing.Router.Route | router/router.go:75-95 | At any moment: errors exactly without discovery or with nothing filed under the type; otherwise the registered function gets exactly what is filed there, or one of that is picked, which has the type if servers are filed right |
| Dispatcher.ExactlyOneReply | cluster/nats_rpc_server.go:200-260 | In every interleaving a request gets at most one reply, on its own subject, a notify none, and exactly one once nothing is outstanding |
| Dispatcher.ReplySaysWhatHappened | cluster/nats_rpc_server.go:200-324 | In every interleaving the reply fits the request: Internal exactly for unusable metadata, TooManyRequests only after an acquire refused past the timeout, RequestTimeout only if found late, a result only if the handler returned it; the handler was called once in the last case and never in the others |
| Dispatcher.ServedUnlessWaived | cluster/nats_rpc_server.go:200-324 | Once nothing is outstanding every usable request that was taken has had its handler called once, and its client sent what that returned, unless a step refused it or found it late; then the handler was never called |
| Dispatcher.InTimeIsHandled | cluster/nats_rpc_server.go:287-324 | From every reachable state a request looked at with at most half of its timeout gone is handed to the handler, once, and its client sent the result |
| Dispatcher.LateIsTimedOut | cluster/nats_rpc_server.go:290-306 | One looked at later, or whose timer fires, is answered with a timeout and never handed over |
| Dispatcher.RefusedIsAnswered | cluster/nats_rpc_server.go:240-253 | One that waits for a permit until its timeout can be refused, is told so, and holds none |
| Dispatcher.UsableIsHandedOver | cluster/nats_rpc_server.go:229-258 | A request taken with usable metadata becomes a pool task exactly if there is a pool and it names a share |
| Dispatcher.UnusableIsAnswered | cluster/nats_rpc_server.go:200-227 | One without is answered at once with an internal error |
| Dispatcher.HandlerAtMostOnceInTime | cluster/nats_rpc_server.go:287-313 | The handler runs at most once per request, and only if at most half of the timeout had passed since the request's start time |
| Dispatcher.SemaphoreConserved | cluster/nats_rpc_server.go:240-258 | Free and held permits always add up to the weight, handler calls outside the pool never exceed it, and all permits are free when nothing is outstanding |
| Dispatcher.OneReleasePerAcquire | cluster/nats_rpc_server.go:244-257 | Over every run a request acquires and releases at most one permit each, holds one exactly in between, has released what it acquired once it is finished, and acquires none in the pool or when refused |
| Dispatcher.NeverStuck | cluster/nats_rpc_server.go:200-260 | While anything is outstanding some step other than taking a request makes progress, even if no acquire times out |
| Dispatcher.EveryDrainFinishes | cluster/nats_rpc_server.go:200-260 | Without new requests every run is bounded by the work outstanding and can continue until every request taken is finished |
| Dispatcher.EverythingIsServed | cluster/nats_rpc_server.go:200-260 | Every run is bounded and can continue until all requests in the inbox have been taken and are finished |
| WorkerPool.QueuesPerKey | cluster/worker_pool.go:85-99 | In every run with n Submits at once a key gets at most n queues, and at most one exactly when no Submit stored a queue over another, that is when the first Submits of the key did not overlap |
| WorkerPool.CleanKeyIsOrdered | cluster/worker_pool.go:85-105 | In every run with any number of Submits at once: if the first Submits of a share's key did not overlap, the share's started and finished tasks are prefixes of its submitted ones and never overlap, whatever happens to other keys |
| WorkerPool.OrderedIffOneSubmitter | cluster/worker_pool.go:85-105 | All shares are ordered in every run if and only if at most one Submit is under way at a time |
| WorkerPool.AllCreate | cluster/worker_pool.go:93-98 | The bound of n queues per key is reached |
| WorkerPool.OverlapBreaksOrder | cluster/worker_pool.go:93-98 | Two overlapping first Submits of a share create two queues and run its tasks at the same time |
| WorkerPool.WaitGroupsConserved | cluster/worker_pool.go:29-48 | In every run, with any number of Submits at once, a queue's wait group equals its unfinished tasks |
| WorkerPool.NeverStuck | cluster/worker_pool.go:41-48 | While a Submit is under way or a queue holds a task, some step other than a new Submit is possible, full channels included |
| WorkerPool.EveryDrainFinishes | cluster/worker_pool.go:29-48 | After every run, going on without new Submits is bounded by the work outstanding and can continue until every task has run |
| WorkerPool.AtMostQueueNum | cluster/worker_pool.go:85-99 | In fixed mode with n Submits at once at most n * queueNum queues ever exist, and at most queueNum if no key's first Submits overlapped |
| WorkerPool.PerShareKeys | cluster/worker_pool.go:85-92 | Without a fixed number of queues two shares have the same key exactly if they are the same |
| WorkerPool.FixedKeysByHash | cluster/worker_pool.go:85-92 | With one the key is the decimal numeral, read back by its own parser, of the hash modulo that number; two shares meet exactly if their hashes agree modulo it |
| WorkerPool.QueueIsOfOneKey | cluster/worker_pool.go:85-105 | In every run the tasks of one queue are of one share, or in fixed mode of shares whose hashes agree modulo queueNum |
| WorkerPool.Hash | cluster/worker_pool.go:143-147 | The byte-by-byte loop computes 32-bit FNV-1a |
| WorkerPool.PublishedHashes | cluster/worker_pool.go:143-147 | The hash of "", "a" and "fo" is the published one |
| WorkerPool.CapacityKept | cluster/worker_pool.go:18-48 | In every run no channel holds more than its capacity |
| WorkerPool.SendsIffRoom | cluster/worker_pool.go:41-48 | A Submit that has counted its task can send it exactly if there is room |
| Serving.ShareServedInOrder | cluster/nats_rpc_server.go:229-238 | In every run of server and pool together, if the first Submits of a share's key did not overlap, no two requests of the share are processed at once, and the handler is called for them in the order of submission, leaving out those that came too late |
| Serving.ShareServedExactly | cluster/nats_rpc_server.go:229-238 | Once nothing is outstanding, and if none of the share's requests was late, the handler has been called for exactly the requests of the share that were taken, once each, in the order of submission |
| Serving.NeverStuck | cluster/nats_rpc_server.go:229-260 | In every run of server and pool together, while anything is outstanding in either, a step that takes no new request moves one of them on |
| Serving.AsideOfPoolAsBefore | cluster/nats_rpc_server.go:200-260 | Everything that does not involve the pool goes on as without it |
| Lease.RenewalLoop | cluster/etcd_service_discovery.go:140-163 | Entered with any number of failures on record it calls renewLease at most max(1, retries left) times and ends in success or, on a timeout or used-up retries, by signalling the application once, never both; every granted lease starts a watcher |
| Lease.FirstEventIff | cluster/etcd_service_discovery.go:121-138 | A stop or a loss counts exactly if only keep-alives came before it |
| Lease.WatchLeaseChan | cluster/etcd_service_discovery.go:119-166 | Keep-alives keep watching, a stop ends without a call, the first loss runs the renewal loop with no failures on record and ends the watcher |
| Lease.WatchersIff | cluster/etcd_service_discovery.go:140-210 | A renewal leaves one new watcher if it recovered and none if it gave up, if and only if no attempt was granted a lease and then failed to register or timed out |
| Lease.TwoWatchers | cluster/etcd_service_discovery.go:169-210 | A failed bootstrap followed by a success leaves two watchers |
| Lease.WatcherOfTheDead | cluster/etcd_service_discovery.go:169-210 | A timeout after the grant tells the application to die and leaves a watcher |

## Left out

- NATS, etcd and gRPC clients, connection setup and draining: etcd is a log of key events, a NATS publish is an entry in a trace.
- Protobuf, JSON and zlib internals: a payload either parses or does not, and zlib is a pair of functions with the inverse law of RFC 1950. A payload that is the JSON value null, which gives a nil server, is not part of the model.
- Reflection-based component and method discovery, the context propagation map, and the application, builder and module registration.
- Metrics, tracing, logging, configuration, mocks and generated code.
- Worker queue cleanup and stop, and the last-active time that only cleanup reads.
- Shutdown: the watcher, the threads and the pool never stop.
- `GetServers`, `GetDictionary`, `AfterChannel`, `Clear`, `AddRoute` and the other one-line accessors.
- Dispatcher.ExactlyOneReply: a publish that the connection rejects counts as published, since the source only logs the error; a handler call always returns.
- Dispatcher.NeverStuck: handing a task to the pool never blocks and a pool task may start at any time, since queues, their order and their capacity are the subject of WorkerPool, and Serving puts the two together; the semaphore weight is positive, as without one the source dereferences nil.
- Replication.CaughtUpAgrees: agreement is about IDs, not server values, because entries are first-write-wins; a sync reads a revision no older than the events the watcher has handled, payloads carry the IDs of their keys, and each ID has one key.
- RateLimiting.RunRefinesLog: calls are sequential and the clock never goes back; saturation of time differences is not modelled.
- Handshake.SafeIffOneSync: which servers a sync adds and which IDs it keeps are arbitrary there; Discovery ties them to the snapshot. Ranging over the by-ID map visits every ID that stays in it, and may or may not visit one stored meanwhile.
- Handshake.EveryDrainFinishes: the bound depends on how many servers the queries still to come bring, which is a parameter.
- Lease.WatchersIff: whether a timed-out attempt is granted a lease, then or later, is part of what is given.
