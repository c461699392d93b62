# Proofs about microReticulum

This project models the protocol engines of microReticulum, the C++ port of the
Reticulum mesh stack, and proves what they are for: announces that build loop-free
routes, resources that arrive whole, links whose two ends agree, packets whose identity
survives the way, byte buffers that behave as values, and frames that are put together
again correctly.

`dafny verify dfyconfig.toml` checks everything.

| file | models |
|---|---|
| `ResourceModel` | the steps of a resource transfer as functions on its two ends |
| `ResourceReceiver` | what every step of the receiver keeps, and what it asks for |
| `ResourceSystem` | sender and receiver: requests may be lost and repeated, parts and hashmap also reordered |
| `ResourceLossless` | a whole transfer over lossless channels, with assembly and proof |
| `ResourceRecovery` | completing a transfer after any losses |
| `ResourceWindow` | the window against its limit, and what is asked against what is searched for |
| `ResourceWatchdog` | transfers in which nothing arrives any more |
| `ResourceObjects` | `Resource.cpp` as objects that update their fields |
| `Routing`, `RoutingNetwork`, `RoutingObjects` | acceptance of announces, N nodes that rebroadcast them, the tables updated in place |
| `RateLimiter`, `RatedAnnounces` | the announce rate limiter, alone and at work in a node |
| `AnnounceTable` | rebroadcasts and culling of the announce table |
| `PacketFormat` | flags, layout, packet hash, and every rewrite in transit |
| `Signalling` | the MTU and mode signalled in link requests, and their clamping |
| `Relay`, `RelayChain`, `LinkRelay` | what a transit node does with packets; chains of nodes; packets of a link |
| `Handshake`, `HandshakePath` | the link handshake between two parties, and over a chain of nodes |
| `LinkObjects` | `Link.cpp` and the relaying half of `Transport::inbound` as objects |
| `Registry` | the resources a link keeps track of |
| `MessagePack`, `Advertisement`, `Envelope` | resource advertisements and request envelopes as bytes |
| `CowBytes` | copy-on-write byte buffers |
| `LoRa` | frames over a LoRa radio |
| `Basics` | optional values, bytes, the smaller of two numbers |

Where the original works step by step on objects, the model has classes whose methods are
proved equal to functions of the old state, and the theorems are about those functions.

A chain of transit nodes may have any length that its hop counts, which are bytes, can
express: up to 255 nodes.

## Assumptions

- Hashes, signatures, key exchange, key derivation and encryption are parameters. Exchange
  is commutative (section 6.1 of RFC 7748), encryption is undone by decryption, tokens are
  longer than what they encrypt, own signatures validate. Hashes are injective on the inputs
  compared: map hashes of one resource are distinct and not zero, no packet carries less of
  one part under the map hash of another, and no foreign request hashes to a link id in use.
- Signatures are not forged: a link proof that validates was signed by the destination.
- Time is a real number, and "the timeout has run out" an event that may come at any time.
- The measured rate of a resource is an arbitrary sample at each step.
- MessagePack is modelled after its specification, with encoders that choose the shortest form.

## Where the code differs from what one might expect

- The window of a resource can exceed its `window_max`: exactly when a round ends that is the
  second very slow one, with no fast one before, and the window is over 4 by then
  (`RoundExceedsExactlyWhen`, `PartExceedsExactlyWhen`). Two such rounds at the start of any
  resource of ten parts do it (`WindowExceedsItsLimit`).
- Of the parts a request asks for, the last slot of the window is not searched once anything
  is filled, so that part is dropped unless others come first (`AskedPartFiledExactlyWhen`).
  The transfer of any resource of nine parts or more reaches a state where it can happen
  (`AskedPartCanBeDropped`).
- `cull_announce_table` goes on until the table fits the limit of the *path* table. The
  announce table stays within its own limit all the same, but more entries than needed are
  dropped exactly when the path limit is the smaller one (`InsertStaysWithinLimit`,
  `CullCanDropMore`).
- The packet constructor cuts a payload at 464 bytes, after the map hash was taken over
  all of it. A transfer can be completed if and only if no part is longer
  (`CompletesExactlyWhenPartsFit`, `OversizedNeverCompletes`).
- `pack` encrypts ordinary data, and under a transport header it sends the ciphertext left by
  an earlier `pack` for everything but announces: a new data packet packed with a transport
  header loses its data (`TransportHeaderDropsData`, `DataPacketInTransportLosesData`).
  `PackUnpack` says exactly when data comes back as it was.
- The transport types RELAY, TUNNEL and NONE do not fit their one flag bit
  (`PacketFormat.FlagsRoundTrip`).
- A link request delivered over an interface without hardware MTU loses its signalling in
  the data but not in the bytes that are hashed, so the two ends compute different link ids
  and the link does not come up (`HandshakeSucceedsExactlyWhen`).
- The first proof of the right shape decides a link, valid or not (`FirstProofDecides`).
- A path that has expired or is marked unresponsive may be replaced by an announce that is not
  newer (`OverridesExactlyWhen`), and one such override can make two nodes forward to each
  other (`ExpiredPathCanLoop`, `UnresponsivePathCanLoop`). A destination without overrides is
  free of loops, whatever expires and whatever happens to other destinations.
- An expired path that is offered a longer one by an announce so old that its blob is forgotten
  takes it, and would not if all blobs were kept; no other decision depends on the blobs
  forgotten (`BoundedMemorySuffices`).
- Seven split LoRa packets lost in a row can make two packets mix (`FramingExactlyWhen`).
- `Bytes::compare` tells a null buffer from an empty one (`CowBytes.Bytes.Compare`).

## Model

| member | source | states |
|---|---|---|
| ResourceReceiver.RequestNextMeaning | src/microReticulum/Resource.cpp:984-1036 | the request lists exactly the missing known hashes of the next window slots after the filled prefix, in order, and reports exhaustion exactly when it runs past the known hashmap |
| ResourceReceiver.RequestAsksForLowestMissing | src/microReticulum/Resource.cpp:984-1036 | every request that is not blocked asks first for the lowest missing part, or for hashmap when that part's hash is unknown |
| ResourceReceiver.RequestNextKeeps | src/microReticulum/Resource.cpp:984-1057 | asking keeps the receiver invariant: counts, maximal filled prefix, outstanding within missing, window band, hashmap a prefix of the sender's |
| ResourceReceiver.FileFromHits | src/microReticulum/Resource.cpp:884-932 | with distinct map hashes, the search files a part in its own slot if that is open and in range, and changes nothing otherwise |
| ResourceReceiver.ReceivePartKeeps | src/microReticulum/Resource.cpp:834-980 | receiving any part at all keeps the receiver invariant, and the filled prefix never shrinks |
| ResourceReceiver.WindowStaysInBand | src/microReticulum/Resource.cpp:941-973 | 2 <= window_min <= window <= 75 and window - window_min <= 3 survive narrowing on timeout and widening after a round |
| ResourceReceiver.HashmapUpdateKeeps | src/microReticulum/Resource.cpp:382-414 | applying the next segment of the sender's hashmap keeps the invariant and extends the known prefix by exactly that segment |
| ResourceReceiver.ExpiredKeeps | src/microReticulum/Resource.cpp:597-648 | an expired watchdog tick keeps the receiver invariant |
| ResourceReceiver.AcceptedHolds | src/microReticulum/Resource.cpp:60-135 | an accepted advertisement starts with the invariant |
| ResourceSystem.GuardRangeCoversReceiver | src/microReticulum/Resource.cpp:1069-1195 | in every run, with requests lost and repeated in order and answers lost, repeated and reordered, the receiver's hashmap is a prefix of the sender's, every requested hash lies in the sender's search range, and the answer contains every wanted part and the right hashmap segment |
| ResourceSystem.SenderNeverGivesUp | src/microReticulum/Resource.cpp:1104-1167 | in every run where the sender's watchdog does not fire, the sender is never cancelled; in particular the sequencing error is never reached |
| ResourceSystem.AwaitsProofExactlyWhen | src/microReticulum/Resource.cpp:1112-1195 | after an answer the sender awaits the proof, with three retries, if and only if every part has been sent at least once |
| ResourceSystem.SequencingErrorExactlyWhen | src/microReticulum/Resource.cpp:1139-1160 | a request for hashmap cancels the transfer if and only if the last hash named does not end a segment, or is out of range and the range does not end with one |
| ResourceSystem.SegmentNumberWraps | src/microReticulum/Resource.cpp:350-380 | the segment number of an update has sixteen bits |
| ResourceSystem.RunIntegrity | src/microReticulum/Resource.cpp:834-980 | in every run each filled slot holds a part the sender sent, and a complete receiver misses none |
| ResourceSystem.CompletionIsExact | src/microReticulum/Resource.cpp:834-980 | in every run, a complete receiver holds the sender's parts, each in its own slot |
| ResourceSystem.CutPartNeverCompletes | src/microReticulum/Packet.cpp:47-50 | if a part no longer has the map hash advertised for it, no run completes |
| ResourceLossless.StepProgress | src/microReticulum/Resource.cpp:834-1195 | every delivery in a lossless session keeps its invariant and lowers a measure of missing parts, unknown hashes and messages under way |
| ResourceLossless.TransferCompletes | src/microReticulum/Resource.cpp:258-338 | if packets carry every slice of the stream whole, a lossless run takes at most six steps a part plus one, and where it ends the receiver has the payload and the sender is COMPLETE through the proof |
| ResourceLossless.AssemblesPayload | src/microReticulum/Resource.cpp:669-719 | concatenating all parts, decrypting and stripping the random prefix gives the payload, and its hash is the advertised one |
| ResourceLossless.CompletionNeedsFittingParts | src/microReticulum/Packet.cpp:47-50 | under any losses the receiver completes only if no slice of the stream is longer than a packet carries |
| ResourceLossless.CompletesExactlyWhenPartsFit | src/microReticulum/Packet.cpp:47-50 | some run of sender and receiver completes if and only if no slice is longer than a packet carries |
| ResourceLossless.OversizedNeverCompletes | src/microReticulum/Packet.cpp:47-50 | a resource of one part of 500 bytes that no run completes |
| ResourceLossless.ProofAcceptedExactlyWhen | src/microReticulum/Resource.cpp:791-803 | the proof of a received payload completes the sender if and only if it is the sender's own payload, and any other leaves the sender as it is |
| ResourceLossless.DeliversOnlyVerified | src/microReticulum/Resource.cpp:702-719 | whatever parts a receiver has, it delivers the stripped plaintext if and only if that has the advertised hash, so the payload itself if no other bytes have it |
| ResourceLossless.UnverifiedIsCorrupt | src/microReticulum/Resource.cpp:711-725 | otherwise it ends CORRUPT and sends no proof |
| ResourceLossless.NothingSentAtFirst | src/microReticulum/Resource.cpp:306-333 | a sender starts with no part marked as sent |
| ResourceWindow.RoundExceedsExactlyWhen | src/microReticulum/Resource.cpp:941-973 | the end of a round takes the window over its limit if and only if it is the second very slow one without a fast one and the widened window is over 4 |
| ResourceWindow.PartExceedsExactlyWhen | src/microReticulum/Resource.cpp:834-980 | any part takes the window over its limit if and only if it ends such a round |
| ResourceWindow.TimeoutStaysWithin | src/microReticulum/Resource.cpp:597-648 | a timeout never does |
| ResourceWindow.TimeoutNarrows | src/microReticulum/Resource.cpp:630-641 | a survived timeout takes one slot off a window above its minimum and one or two off the limit |
| ResourceWindow.TimeoutsNarrow | src/microReticulum/Resource.cpp:630-641 | after k survived timeouts in a row the window is k slots smaller, down to its minimum |
| ResourceWindow.FastRoundsCount | src/microReticulum/Resource.cpp:956-963 | the fourth fast round raises the limit to 75, none before does |
| ResourceWindow.SlowRoundsCount | src/microReticulum/Resource.cpp:964-972 | while no round is fast the second very slow one lowers the limit to 4, and no other round moves it |
| ResourceWindow.FastExcludesSlow | src/microReticulum/Resource.cpp:964-972 | once a round has been fast, very slow ones are not counted |
| ResourceWindow.RoundWidens | src/microReticulum/Resource.cpp:941-947 | a round widens the window by one slot below its limit and lifts the minimum to stay within three |
| ResourceWindow.WindowExceedsItsLimit | src/microReticulum/Resource.cpp:967-969 | for every resource of ten parts or more, a lossless run in which the window ends over its limit |
| ResourceWindow.AskedPartFiledExactlyWhen | src/microReticulum/Resource.cpp:884-890 | a part that was asked for is filed if and only if its slot is not the last of the window asked for, or nothing is filled yet |
| ResourceWindow.AskedPartCanBeDropped | src/microReticulum/Resource.cpp:884-890 | for every resource of nine parts or more, a lossless run to a state where a part asked for and sent is not filed if it comes first |
| ResourceRecovery.TransferRecovers | src/microReticulum/Resource.cpp:597-648 | after any losses, repetitions and reorderings, if the sender has not failed and the receiver is transferring with a retry left, some continuation completes the transfer |
| ResourceRecovery.RunIsOpen | src/microReticulum/Resource.cpp:936-939 | in every run a receiver that is not complete lacks a part |
| ResourceRecovery.Cycle | src/microReticulum/Resource.cpp:597-648 | one timeout, one request served and one response complete such a transfer or leave it fit to go on with less missing |
| ResourceWatchdog.StalledSenderFails | src/microReticulum/Resource.cpp:528-596 | with nothing inbound, a sender is FAILED after some expired ticks if and only if these exceed its retries |
| ResourceWatchdog.StalledReceiverFails | src/microReticulum/Resource.cpp:597-648 | with nothing inbound, a receiver is FAILED if and only if the ticks exceed its retries, and asks again on each tick before |
| ResourceWatchdog.FailedIsFinal | src/microReticulum/Resource.cpp:1215-1272 | no later packets, ticks, cancellations or rejections move a resource out of FAILED |
| ResourceWatchdog.FailedIgnoresHashmap | src/microReticulum/Resource.cpp:350-384 | a failed receiver takes no hashmap and asks for nothing |
| ResourceWatchdog.CancelEnds | src/microReticulum/Resource.cpp:1215-1272 | cancel ends an unfinished resource for good, whatever follows, and a finished one keeps its status; so with a rejection, which takes an unfinished sender back to NONE |
| ResourceObjects.IncomingResource.RequestNextParts | src/microReticulum/Resource.cpp:984-1057 | the loop that collects a request computes RequestNext on the fields |
| ResourceObjects.IncomingResource.UpdateHashmap | src/microReticulum/Resource.cpp:382-414 | the loop over a segment computes HashmapUpdate on the fields |
| ResourceObjects.IncomingResource.UpdateHashmapPacket | src/microReticulum/Resource.cpp:350-380 | a hashmap packet ends the waiting, applies its segment and asks on, as HashmapUpdatePacket says |
| ResourceObjects.IncomingResource.Receive | src/microReticulum/Resource.cpp:834-980 | search, filing, prefix, window and next request together compute ReceivePart on the fields |
| ResourceObjects.IncomingResource.Expire | src/microReticulum/Resource.cpp:597-648 | the watchdog tick of a receiver computes ReceiverExpired on the fields |
| ResourceObjects.OutgoingResource.Answer | src/microReticulum/Resource.cpp:1069-1195 | answering a request computes SenderRequest on the fields |
| Routing.TimebaseBounds | src/microReticulum/Transport.cpp:4710-4719 | the timebase is an upper bound of all kept emission times and is attained |
| Routing.ReplacesExactlyWhen | src/microReticulum/Transport.cpp:2265-2359 | an announce replaces a path if and only if it is newer than every kept blob, or the path is unresponsive, or an expired path is offered a longer one by an unheard announce |
| Routing.RememberKeepsNewest | src/microReticulum/Transport.cpp:2461-2467 | after acceptance the last kept blob is the newest and at most 32 are kept |
| Routing.BoundedMemorySuffices | src/microReticulum/Transport.cpp:2265-2358 | deciding by the last 32 blobs is deciding by the whole unbounded history, if and only if the announce is not one that an expired, not unresponsive path has forgotten and that offers a longer path; and the last 32 are kept |
| Routing.QueuedExactlyWhen | src/microReticulum/Transport.cpp:2468-2497 | a rate-blocked announce adds nothing to rebroadcast, and any other accepted one is pending afterwards |
| Routing.BlockingKeepsPaths | src/microReticulum/Transport.cpp:2398-2474 | the limiter's verdict does not touch paths |
| Routing.SettledExactlyWhen | src/microReticulum/Transport.cpp:2198-2222 | which rebroadcasts of neighbours settle a pending one, exactly, and what each leaves of it |
| Routing.TwoNeighboursSettle | src/microReticulum/Transport.cpp:2198-2222 | the second rebroadcast heard at the node's own distance settles a fresh entry, the first does not |
| Routing.OwnAnnouncesAreIgnored | src/microReticulum/Transport.cpp:2196-2201 | announces of a node's own destinations change nothing |
| Routing.HopsAreBytes | src/microReticulum/Transport.cpp:1805 | hops count up on arrival and wrap as a byte |
| Routing.BlobsAfterAccepting | src/microReticulum/Transport.cpp:2461-2467 | the blobs after an acceptance are those before and the new one, once, the last 32 of them |
| RoutingNetwork.KeyRises | src/microReticulum/Transport.cpp:2458-2467 | along a next hop the emission time rises, or stays equal while hops fall |
| RoutingNetwork.RunKeeps | src/microReticulum/Transport.cpp:2196-2366 | every state of every run of N nodes without overrides of a destination keeps the invariant that ties each path to it to an announce its next hop rebroadcast |
| RoutingNetwork.LoopFree | src/microReticulum/Transport.cpp:2196-2366 | for each destination, in every state of every run over lossy, reordering, repeating channels in which no path to it is replaced by an announce that is not newer, no forwarding path to it meets a node twice |
| RoutingNetwork.OverridesExactlyWhen | src/microReticulum/Transport.cpp:2304-2358 | a step replaces a path by an announce that is not newer if and only if the path is unresponsive, or has expired and is offered a longer one by an unheard announce |
| RoutingNetwork.EveryPathArrives | src/microReticulum/Transport.cpp:2626-2676 | in the same runs, from every node with a path to the destination next hops lead to a neighbour of it |
| RoutingNetwork.AcceptedInOrder | src/microReticulum/Transport.cpp:2324-2334 | announces of one destination that a node accepts were emitted in strictly rising order, so none is accepted twice, if this node makes no override of that destination; everything else is arbitrary |
| RoutingNetwork.BlockedAddsNothing | src/microReticulum/Transport.cpp:2472-2474 | a rate-blocked delivery gives no node anything more to rebroadcast |
| RoutingNetwork.ForgettingStops | src/microReticulum/Transport.cpp:588-601 | a pending announce that is dropped is rebroadcast no more, and nothing else changes |
| RoutingNetwork.OverrideCanLoop | src/microReticulum/Transport.cpp:2304-2358 | after a run without overrides, one override of either kind makes two nodes forward to each other |
| RoutingNetwork.ExpiredPathCanLoop | src/microReticulum/Transport.cpp:2304-2319 | the concrete run with an expired path |
| RoutingNetwork.UnresponsivePathCanLoop | src/microReticulum/Transport.cpp:2353-2358 | the concrete run with an unresponsive path |
| RoutingObjects.TimebaseFromRandomBlobs | src/microReticulum/Transport.cpp:4710-4719 | the loop returns the greatest emission time of the blobs |
| RoutingObjects.PathAnnounceEmitted | src/microReticulum/Transport.cpp:2292-2299 | the loop that stops early decides "newer" exactly as the full maximum does |
| RoutingObjects.TransportTables.Inbound | src/microReticulum/Transport.cpp:2196-2497 | the announce branch updates path and announce tables as the function Receive says |
| RateLimiter.RunInvariant | src/microReticulum/Transport.cpp:2398-2437 | over any run violations stay between 0 and grace + 1 and admissions are bounded by violations and paced announces |
| RateLimiter.AdmittedBound | src/microReticulum/Transport.cpp:2398-2437 | over any run spanning time T at most 1 + grace + 2 T / target announces are let through |
| RateLimiter.BlockEnds | src/microReticulum/Transport.cpp:2398-2437 | a blocked destination stays blocked exactly until the block has run out; the first evaluation after that is admitted |
| RateLimiter.AdmittedExactlyWhen | src/microReticulum/Transport.cpp:2412-2436 | an announce is let through if and only if no block is running and it is paced by the target or the violations are below the grace |
| RateLimiter.ViolationsExactly | src/microReticulum/Transport.cpp:2416-2433 | what one announce does to violations, last time and block |
| RateLimiter.PacedAreAdmitted | src/microReticulum/Transport.cpp:2398-2437 | announces paced by the target are all let through |
| RateLimiter.TimestampsAreLatest | src/microReticulum/Transport.cpp:2400-2410 | after any arrivals the entry holds the times of the latest sixteen, blocked or not |
| RateLimiter.FirstAreAdmitted | src/microReticulum/Transport.cpp:2398-2437 | the first ones, one more than the grace, are let through however fast they come |
| RatedAnnounces.QueuedBound | src/microReticulum/Transport.cpp:2398-2497 | over time T a node queues at most 1 + grace + 2 T / target announces of a destination for rebroadcast, however many arrive |
| RateLimiter.RateRecord.Check | src/microReticulum/Transport.cpp:2398-2437 | the limiter's code updates the rate entry as Evaluate says |
| AnnounceTable.RebroadcastBound | src/microReticulum/Transport.cpp:588-638 | over any run an entry is rebroadcast at most PATHFINDER_R + 1 times less the retries it was inserted with, and is then removed |
| AnnounceTable.SentExactlyWhen | src/microReticulum/Transport.cpp:588-612 | a pass rebroadcasts an entry if and only if it has retries left, its time has passed and its identity is known; what the pass leaves of it in each case |
| AnnounceTable.RebroadcastOnTime | src/microReticulum/Transport.cpp:598-612 | over any passes an entry waits for its time, goes out with the first pass after it, and not again within the delay |
| AnnounceTable.CullIsDetermined | src/microReticulum/Transport.cpp:5720-5746 | the outcome of culling is determined by table and limits |
| AnnounceTable.InsertStaysWithinLimit | src/microReticulum/Transport.cpp:5720-5746 | after an insertion the table is within its maximum, the evicted are no newer than the survivors, and it is full if and only if the path limit is not smaller |
| AnnounceTable.InsertExactly | src/microReticulum/Transport.cpp:2483-2496 | an insertion leaves every entry that is there |
| AnnounceTable.LowerKeyGoesFirst | src/microReticulum/Transport.cpp:5728-5733 | among entries of one time the lower key is evicted first |
| AnnounceTable.CullCanDropMore | src/microReticulum/Transport.cpp:5720-5746 | with room for two announces but one path, a third leaves only itself |
| AnnounceTable.RunStaysWithinLimit | src/microReticulum/Transport.cpp:2439-2497 | in every run the table never exceeds its maximum |
| AnnounceTable.Announces.RunJobs | src/microReticulum/Transport.cpp:588-638 | the rebroadcast loop over the table is one Pass and sends what Pass says |
| AnnounceTable.Announces.Cull | src/microReticulum/Transport.cpp:5720-5746 | sorting by timestamp and erasing leaves exactly what CullsTo says |
| AnnounceTable.Announces.Add | src/microReticulum/Transport.cpp:2439-2497 | an insertion keeps an entry that is there, and the cull after it leaves the table within its maximum |
| PacketFormat.FlagsRoundTrip | src/microReticulum/Packet.cpp:121-145 | flags survive packing if and only if the transport type fits one bit |
| PacketFormat.FlagsRoundTripBack | src/microReticulum/Packet.cpp:138-145 | unpacking any flags byte gives defined fields that pack to the same byte but for the access-code bit |
| PacketFormat.PackUnpack | src/microReticulum/Packet.cpp:312-420 | a packed packet reads back with the payload pack made for it if and only if its flags announce just the transport id its header takes, and as it was if and only if, besides, its data is neither encrypted nor left out |
| PacketFormat.WhatIsSent | src/microReticulum/Packet.cpp:328-410 | by type and context, and without reference to how pack decides: which packets carry their data as it is, and that every other one is encrypted by its link or by a single destination's identity |
| PacketFormat.OrdinaryDataIsEncrypted | src/microReticulum/Packet.cpp:371-382 | a data packet over a link or to a single destination with an identity carries the token of its data and never the data |
| PacketFormat.PackFailsExactlyWhen | src/microReticulum/Packet.cpp:316-415 | pack fails if and only if a link request proof has no link, a transport header no id, or header and payload exceed the MTU |
| PacketFormat.TransportHeaderDropsData | src/microReticulum/Packet.cpp:391-411 | every new packet with a transport header that is not an announce goes out without its data |
| PacketFormat.RebroadcastCarriesAnnounce | src/microReticulum/Packet.cpp:391-420 | an announce in transport that fits the MTU arrives as it is, and a longer one is not packed |
| PacketFormat.DataPacketInTransportLosesData | src/microReticulum/Packet.cpp:391-411 | one such packet: 35 bytes where its data would make 36 |
| PacketFormat.UnpackPack | src/microReticulum/Packet.cpp:422-477 | packing what was read from bytes gives the same bytes if and only if the same two conditions hold |
| PacketFormat.HashSurvivesTransit | src/microReticulum/Packet.cpp:599-626 | any sequence of header insertions, hop increments, next-hop replacements and strippings keeps the hashed part, destination, context and data |
| PacketFormat.HashCovers | src/microReticulum/Packet.cpp:599-626 | two packets have the same hashed part if and only if packet and destination type, destination, context and data are the same |
| PacketFormat.LinkIdCovers | src/microReticulum/Link.cpp:287-295 | two link requests have the same link id part if and only if these are the same, with of the data only the keys |
| PacketFormat.LinkIdSurvivesTransit | src/microReticulum/Link.cpp:287-295 | the link id also survives clamping and stripping of the signalled MTU |
| PacketFormat.PacketObject.ReadFields | src/microReticulum/Packet.cpp:422-477 | unpack fills the fields as Unpack says, and fails exactly on short packets |
| PacketFormat.PacketObject.WriteRaw | src/microReticulum/Packet.cpp:312-420 | pack chooses the payload, lays out header and payload, fails exactly on a missing link or transport id or a packet over the link's MTU, and what it wrote reads back with the payload, and with the data exactly when that was sent as it is |
| Signalling.SignallingRoundTrip | src/microReticulum/Link.cpp:238-285 | MTU and mode are decoded as they were encoded |
| Signalling.RequestSignals | src/microReticulum/Link.cpp:249-277 | the MTU and mode a link request signals are read from it, and the defaults without signalling |
| Signalling.SignallingIsBigEndian | src/microReticulum/Link.cpp:238-247 | the three bytes are one big-endian number, the mode above 21 bits for the MTU |
| Signalling.ClampIsHopMtu | src/microReticulum/Transport.cpp:2030-2065 | the branches of the transit clamp signal the least of path, inbound and outbound MTU, or strip |
| Signalling.StrippedExactlyWhen | src/microReticulum/Transport.cpp:2040-2050 | no signalling arrives if and only if some hop strips it |
| Signalling.SignallingArrives | src/microReticulum/Transport.cpp:2041-2050 | the signalling arrives if and only if every interface the request goes out on has a hardware MTU that is fixed or negotiable |
| Signalling.PathMtuIsLeast | src/microReticulum/Transport.cpp:2050-2060 | the MTU that arrives is no greater than the signalled one and any hop's |
| Signalling.PathMtuIsAttained | src/microReticulum/Transport.cpp:2050-2060 | and it is one of them |
| Relay.InboundExtends | src/microReticulum/Transport.cpp:1993-2173 | no packet takes an entry out of the link or reverse table or changes its direction and hop counts |
| Relay.DuplicateIsDropped | src/microReticulum/Transport.cpp:1676-1694 | a node that remembers a packet does nothing with any copy of it, whatever header rewrites the copy has been through |
| Relay.SecondCopyIsDropped | src/microReticulum/Transport.cpp:1842-1866 | a packet of no relayed link, or passed on along its link, is dealt with once: no later copy of it gets through, on any interface |
| Relay.WrongSideLeavesNoTrace | src/microReticulum/Transport.cpp:1845-1861 | a link packet that arrives on the wrong side is not remembered, so the right arrival is still taken |
| Relay.UnsignedProofIsStopped | src/microReticulum/Transport.cpp:2886-2927 | a link request proof goes on, or marks its link validated, only over the expected interface, for a known identity and with a valid signature, spelled out |
| Relay.SignedProofValidates | src/microReticulum/Transport.cpp:2908-2922 | with one it goes back towards the initiator and marks the link validated |
| Relay.ValidatedOnlyByProof | src/microReticulum/Transport.cpp:2068-2081 | a new link entry is not validated, and an entry becomes so only by a signed proof from the interface its request went out on |
| Relay.ValidatedRunHasProof | src/microReticulum/Transport.cpp:2886-2927 | over any packets: a link validated at the end and not at first was proved by one of them |
| Relay.ProofOnlyFromOutbound | src/microReticulum/Transport.cpp:2981-2994 | a regular proof goes back only from the interface its packet went out on |
| Relay.SendsOnlyFor | src/microReticulum/Transport.cpp:1697-2173 | a node sends a packet on only as its next hop with a path, as an expected link packet, or as a proof from the right interface, and never one in transport for another node |
| Relay.ForeignIsIgnored | src/microReticulum/Transport.cpp:1622-1665 | packets in transport for others, and plain and group packets from beyond one hop, change nothing |
| Relay.FilterLetsIn | src/microReticulum/Transport.cpp:1622-1696 | what the filter lets in whatever it has seen: link traffic, and plain and group packets within one hop but none of their announces |
| Relay.FilterLetsInNew | src/microReticulum/Transport.cpp:1671-1694 | of other packets it lets in what is new, and again and again only announces of single destinations |
| Relay.LocalPathKeepsHeader | src/microReticulum/Transport.cpp:2018-2026 | with a path of no hops the transport header stays |
| Relay.RequestDroppedExactlyWhen | src/microReticulum/Transport.cpp:2052-2064 | a link request is dropped in transit if and only if its MTU has to be lowered and its mode is not AES-256 |
| Relay.VouchedIsSigned | src/microReticulum/Transport.cpp:2889-2908 | the check of a link request proof is the signature over link id, keys and signalling under the destination's key |
| RelayChain.DataArrives | src/microReticulum/Transport.cpp:1993-2026 | along a chain of nodes a data packet reaches its destination with its hash, and every node records the way back |
| RelayChain.ProofReturnsToSender | src/microReticulum/Transport.cpp:2981-2994 | from the packet its sender packed and hashed, through header insertion and the whole chain: after any other traffic, a proof addressed to the hash of the delivered packet is addressed to the hash the sender waits for and is carried back through every node |
| RelayChain.RequestArrives | src/microReticulum/Transport.cpp:2027-2081 | a link request arrives with its keys and link id, signalling the MTU of the whole path, and leaves the link entry at every node |
| LinkRelay.LinkCarriesBothWays | src/microReticulum/Transport.cpp:2119-2173 | after any other traffic, every link packet from either end passes the hop check at every node of the chain and arrives unchanged |
| LinkRelay.RequestProofComesBack | src/microReticulum/Transport.cpp:2886-2927 | a valid link request proof is carried back through every node |
| Handshake.HandshakeAgreement | src/microReticulum/Link.cpp:426-473 | whatever requests and proofs anyone sends in any order, once the initiator is ACTIVE the responder holds a session with the same link id, mode, derived key and MTU |
| Handshake.HandshakeDerives | src/microReticulum/Link.cpp:372-393 | what the handshake does to a pending link in each mode, and to no other: 32 or 64 bytes of key, or an exception |
| Handshake.RespondHolds | src/microReticulum/Link.cpp:297-347 | what every accepted session holds: key of the requester, link id of the bytes, enabled mode, nonzero MTU, derived key |
| Handshake.DestinationClamps | src/microReticulum/Transport.cpp:2764-2809 | the destination's interface strips the signalling, or lowers the MTU to its own with keys and mode kept, or loses a request of another mode exactly when it would lower it |
| Handshake.AnsweredExactlyWhen | src/microReticulum/Link.cpp:297-347 | a request is answered if and only if it has the keys alone, signals AES-256, or has its signalling stripped, whatever mode that named; the answering link is no initiator |
| Handshake.ValidProofAgrees | src/microReticulum/Link.cpp:426-473 | the proof that activates the initiator names a session that agrees with it |
| Handshake.FirstProofDecides | src/microReticulum/Link.cpp:426-526 | after any proofs the initiator is ACTIVE if and only if the first of them that is not ignored for its size is valid |
| Handshake.ActiveOnlyIfSigned | src/microReticulum/Link.cpp:452-473 | no link becomes ACTIVE without its destination's signature over link id, keys and signalling |
| Handshake.ProofOutcome | src/microReticulum/Link.cpp:426-526 | what any proof makes of a pending link: closed for another or a disabled mode, settled with its key for the right size, active only if signed, and otherwise unchanged |
| HandshakePath.RespondOnPath | src/microReticulum/Transport.cpp:2764-2809 | the responder computes the initiator's link id if and only if its interface has a hardware MTU or no MTU is signalled |
| HandshakePath.HandshakeSucceedsExactlyWhen | src/microReticulum/Link.cpp:204-224 | over a chain of nodes the handshake succeeds if and only if that condition holds; then both ends agree and the MTU is the least on the path, or 500 if signalling was stripped |
| HandshakePath.LinkMtuIsLeast | src/microReticulum/Transport.cpp:2030-2081 | that MTU is 500 if a hop strips the signalling, and otherwise the least of the signalled MTU, every hop's and the destination's, and one of them |
| LinkObjects.LinkObject.ShakeHandsWithPeer | src/microReticulum/Link.cpp:372-394 | handshake moves PENDING to HANDSHAKE with the derived key, and throws exactly on unknown modes |
| LinkObjects.LinkObject.Validate | src/microReticulum/Link.cpp:426-526 | validate_proof on the fields; a link becomes ACTIVE only from PENDING, as initiator, with a valid signature |
| LinkObjects.LinkObject.Prove | src/microReticulum/Link.cpp:396-409 | a proof is made exactly in an enabled mode, and makes every pending initiator of the same link ACTIVE with this link's MTU and key |
| LinkObjects.ValidateRequest | src/microReticulum/Link.cpp:297-347 | validate_request yields a link exactly for the requests that Accept takes, in the state Accept says |
| LinkObjects.TransportRelay.ForwardNext | src/microReticulum/Transport.cpp:1993-2099 | forwarding rewrites the header, clamps the MTU and records a link or reverse entry without overwriting one |
| LinkObjects.TransportRelay.Clamp | src/microReticulum/Transport.cpp:2030-2065 | the branches of the clamp on the bytes give the request ClampIsHopMtu is about, or drop it |
| LinkObjects.TransportRelay.Outward | src/microReticulum/Transport.cpp:2119-2155 | a link packet goes on if and only if it has taken the hops expected on the side it came from, and then over the opposite interface |
| LinkObjects.TransportRelay.Receive | src/microReticulum/Transport.cpp:1697-2173 | filter, hash list, forwarding and relaying together compute Inbound on the tables, and no entry is lost |
| Registry.Link.Advertise | src/microReticulum/Resource.cpp:439-466 | a resource goes out only if none does; otherwise it is queued |
| Registry.Link.Accept | src/microReticulum/Resource.cpp:125-130 | an incoming resource is registered if and only if none with its hash is |
| Registry.Link.Conclude | src/microReticulum/Link.cpp:1629-1637 | a concluded resource leaves both sets |
| Registry.Link.Rejected | src/microReticulum/Resource.cpp:1263-1272 | a rejected outgoing resource leaves the set; others are untouched |
| Registry.Link.Cancel | src/microReticulum/Resource.cpp:1215-1258 | a cancelled resource is registered no more; a corrupt one, still registered or not, brings down the link and everything on it |
| Registry.Link.RefuseCompressed | src/microReticulum/Resource.cpp:690-695 | a compressed resource becomes corrupt while registered, and leaves the link closed and both sets empty |
| Registry.Link.LinkClosed | src/microReticulum/Link.cpp:825-837 | closing leaves both sets empty and every resource FAILED, though cancelling erases from the sets |
| MessagePack.ArrayHeadExact | src/microReticulum/Link.cpp:76-104 | packed again, an array head is no longer than the one read, and of equal length only if it is the same bytes |
| MessagePack.BinHeadExact | src/microReticulum/Link.cpp:76-105 | the same for a binary value |
| MessagePack.WireForms | src/microReticulum/Link.cpp:56-74 | examples of the encodings of the MessagePack specification, one for each form of a number written |
| MessagePack.WireSizes | src/microReticulum/Link.cpp:56-74 | the same of binary values, arrays, keys and floats |
| MessagePack.OtherTagsAreRefused | src/microReticulum/Link.cpp:86-98 | each reader takes the tags of its own type only |
| MessagePack.AnyWidthIsRead | src/microReticulum/Link.cpp:81-105 | numbers are read in every width, shortest or not |
| MessagePack.AnyStringSizeIsRead | src/microReticulum/Link.cpp:81-105 | so are the sizes of strings |
| MessagePack.AnySizeIsRead | src/microReticulum/Link.cpp:81-105 | and those of binary values, arrays and maps |
| MessagePack.ShortFormsAreRead | src/microReticulum/Link.cpp:81-105 | the sizes within a first byte are read |
| Advertisement.PackRoundTrip | src/microReticulum/Resource.cpp:1592-1729 | unpacking a packed advertisement returns every field, with the hashmap of the segment |
| Advertisement.AdvertisedHashmap | src/microReticulum/Resource.cpp:1557-1564 | the first advertisement returns the first 74 map hashes and the flag booleans |
| Advertisement.SegmentsCoverHashmap | src/microReticulum/Resource.cpp:1592-1606 | the segments of a resource, in order, are its hashmap |
| Advertisement.WireOrder | src/microReticulum/Resource.cpp:1608-1648 | the keys of the map in the order they go out, and the places of the flags |
| Advertisement.EmptyIsNil | src/microReticulum/Resource.cpp:1635-1640 | a missing request id is sent as nil |
| Advertisement.HigherBitsAreIgnored | src/microReticulum/Resource.cpp:1721-1726 | flags above the sixth bit are not looked at |
| Advertisement.UnreadableStops | src/microReticulum/Resource.cpp:1663-1717 | reading stops at an unknown key |
| Advertisement.AdvertisementFits | src/microReticulum/Type.h:662-663 | with ordinary field sizes an advertisement has at most 430 bytes, within the 431 of a link packet |
| Advertisement.MduIsLargest | src/microReticulum/Link.cpp:618-623 | at every MTU, a payload's padded token fits the packet if and only if it is within the MDU |
| Envelope.RequestRoundTrip | src/microReticulum/Link.cpp:66-74 | every time stamp, hash and payload comes back from a request envelope |
| Envelope.ResponseRoundTrip | src/microReticulum/Link.cpp:56-63 | every request id and payload comes back from a response envelope |
| Envelope.SpliceExactlyWhen | src/microReticulum/Link.cpp:86-138 | on any bytes that parse, re-encoding the prefix finds the payload if and only if the prefix is in shortest form |
| CowBytes.Run | src/microReticulum/Bytes.h:233-405 | after any sequence of operations on any handles, each holds what it would hold as an independent value, and an exclusive buffer has one owner |
| CowBytes.Bytes.ExclusiveData | src/microReticulum/Bytes.cpp:51-100 | afterwards the handle alone holds its buffer; the value is kept if asked for, and no other handle changes |
| CowBytes.Bytes.Assign | src/microReticulum/Bytes.h:233-251 | copying shares the buffer and changes no other value |
| CowBytes.Bytes.Append | src/microReticulum/Bytes.h:331-338 | appending extends this value by the other and changes no other handle |
| CowBytes.Bytes.Resize | src/microReticulum/Bytes.h:395-405 | resizing cuts or pads this value and changes no other handle |
| CowBytes.ResizedExactly | src/microReticulum/Bytes.h:395-405 | a resized value has the size asked for, begins as before and ends in zeros |
| CowBytes.Bytes.Mid | src/microReticulum/Bytes.cpp:215-232 | a part is a new value: the bytes from the position on, as many as there are up to the length |
| CowBytes.Bytes.AssignHex | src/microReticulum/Bytes.cpp:140-161 | the value becomes the bytes of the hex digits and no other handle changes |
| CowBytes.Bytes.Compare | src/microReticulum/Bytes.cpp:102-121 | zero exactly for equal values that are both null or both not; otherwise the order of the values, null first |
| CowBytes.LessExactlyWhen | src/microReticulum/Bytes.cpp:102-121 | the order is by the first byte that differs, a proper beginning before the whole |
| CowBytes.Bytes.Hex | src/microReticulum/Bytes.cpp:196-212 | toHex of a value reads back as that value |
| CowBytes.HexRoundTrip | src/microReticulum/Bytes.cpp:140-212 | every value survives hexadecimal, in either case |
| CowBytes.HexCharIsAscii | src/microReticulum/Bytes.cpp:175-212 | the characters of a digit in both cases |
| CowBytes.PairByRemainders | src/microReticulum/Bytes.cpp:157-160 | two characters are decoded as the remainders in the original give, cut to eight bits |
| LoRa.FramingExactlyWhen | examples/common/lora_interface/LoRaInterface.cpp:213-237 | over a channel that loses frames the receiver passes up exactly the packets all of whose frames arrived if no two packets are confused; if bytes are told apart by where they come from, only then |
| LoRa.UnconfusedDelivers | examples/common/lora_interface/LoRaInterface.cpp:213-237 | the same from any packet on, with any partial packet pending, for any bytes |
| LoRa.CompleteIsSubsequence | examples/common/lora_interface/LoRaInterface.cpp:258-307 | those packets are a subsequence of the packets sent |
| LoRa.FewLossesDeliver | examples/common/lora_interface/LoRaInterface.cpp:213-237 | there is no confusion unless seven split packets in a row lose both frames with nothing heard meanwhile |
| LoRa.LosslessDelivers | examples/common/lora_interface/LoRaInterface.cpp:213-237 | without loss the packets passed up are the packets sent |
| LoRa.SequenceComesFullCircle | examples/common/lora_interface/LoRaInterface.cpp:276-277 | nine packets that are confused |
| LoRa.LoRaInterface.Send | examples/common/lora_interface/LoRaInterface.cpp:258-307 | the frames put on the air decode to the one or two frames of the packet |
| LoRa.LoRaInterface.Poll | examples/common/lora_interface/LoRaInterface.cpp:203-237 | a received frame changes the receiver as Hear says, and frames without payload are ignored |
| LoRa.Exchange | examples/common/lora_interface/LoRaInterface.cpp:203-307 | two interface objects joined by a channel that loses frames pass up exactly the sequence the theorems are about, also when the sequence counter wraps |

## Left out

- The primitives of cryptography: hashing, signing, key exchange, key derivation and tokens are parameters.
- The microStore tables for paths, packet hashes and known destinations: maps and sets that never fail.
- Answers to path requests and removal of paths in loop freedom.
- Held announces and their reinsertion, which erases from the table being iterated.
- Tunnels, interface access codes, the announce queue, shared instances, local clients, remote management, blackholes and probing.
- The link watchdog, channels, ratchets, multi-segment resources, metadata and compression.
- Timing: timeouts, retry intervals and measured rates are arbitrary events and samples.
- Expiry of link and reverse table entries in `jobs`; entries stay.
- CACHE_REQUEST packets that a node can answer from its cache.
- ResourceLossless.TransferCompletes: resources of more than 65536 segments of 74 parts, where the segment number of a hashmap update wraps around.
- Handshake.HandshakeAgreement: what follows activation (the RTT packet and callbacks).
- Registry.Link.Cancel: the packets that cancelling sends; QUEUED resources are never retried by the original and are not registered.
- PacketFormat.PackUnpack: encryption that throws; packing without a destination, which the original refuses.
- Advertisement.PackRoundTrip: `size_t` is taken to have 64 bits; a value of the wrong type ends the reading, since what the MessagePack library does with it is not part of this model.
- Advertisement.MduIsLargest: below an MTU of 84 the MDU is negative and the original's conversion to an unsigned number is not modelled.
- CowBytes.Run: appending a handle to itself, writing through `operator[]` and pointers handed out by `writable`; capacities.
- LoRa.LoRaInterface.Send: packets over 508 bytes, which the interface's MTU excludes, and errors of the radio.
- Allocation failures, logging, file systems, sockets and boards.
