# mctx-core, modelled and verified in Dafny

mctx-core sends multicast: UDP publications over ordinary sockets, and complete IP datagrams over raw and
packet sockets. This project models the parts of it whose guarantees span several functions, several calls or
several threads, and proves those guarantees for every input, every run and every reachable state.

`dafny verify dfyconfig.toml` checks everything. The modules, in reading order:

- `Base`, `Addresses`: machine integers, byte fields, IP addresses.
- `InternetChecksum`, `IpDatagram`, `UdpBuilder`: the one's-complement sum, the lenient and the strict datagram
  parser, the in-place TTL patch, and the UDP builders of the raw-send tool.
- `ByteBits`, `Ipv6Prefix`: the byte-and-mask prefix comparison against 128-bit numbers.
- `Netlink`, `RouteDump`, `RouteMessages`: the netlink loops on bytes, and dumps as lists of messages with a wire
  encoding. The loops are proved to compute what the list means.
- `RouteTable`, `RouteEgress`, `RouteCache`, `RouteCalls`: the route a table selects, the egress object with its
  one-entry cache, a state machine in which the kernel's table changes between any two sub-steps of a call, including
  any two messages of a dump, and the proof that every call of every run is one the object may make.
- `SequenceLock`, `Metrics`, `WrapThreshold`: interleavings of single atomic operations, the counters, snapshots and
  samplers built on them, and the exact number of write sections a read may span.
- `Jsonl`: the single-header metrics file and the locking protocol of its writers.
- `Owners`, `ContextLedger`, `ConcurrentContext`: the indexed owner and the linear-scan owner over one abstract map,
  and the conservation law of the context's totals, call by call and with any number of threads sending at once.
- `SocketCache`, `Selectors`, `RawIpSend`, `RawGating`, `UdpSelection`: the bounded socket cache and the
  configuration, selection and send paths.

System calls are parameters with arbitrary results. An arm the program calls unreachable is an `assert false` in
the model, and an `expect` is a checked access, so the verifier proves that neither is ever reached.

Five findings deserve a reader's attention, because the code does not do what one might expect of it:

- A drain drops an invalidation it has already read when a later receive fails
  (`RouteCalls.FailedDrainLosesInvalidation`); coherence holds exactly without that step.
- The cache is coherent whatever the kernel sends, but a fresh answer needs the kernel to mark dumps that a change
  interrupted: without marks a call can return the best route of no table it overlapped
  (`RouteCalls.UnmarkedDumpMisleads`).
- Overriding a TTL with its own value rewrites a stored checksum of 0xffff to zero
  (`IpDatagram.OwnTtlChangesSecondZero`); on IPv4 it is the identity exactly for a header that verifies and stores
  another value.
- A sequence-lock read of a publication is consistent for every read that spans at most k write sections if and only
  if k is below 2^63 (`WrapThreshold.ThresholdIsExact`). At 2^63 a snapshot can show packets without calls.
- What a raw-IP IPv6 send hands to the kernel, payload, destination and socket options, determines the supplied
  datagram up to its flow label and nothing less (`RawIpSend.TransmissionForgetsFlowLabel`). The header that is
  actually emitted is the operating system's (docs/raw-ip.md lines 101-110) and is not modelled.

## Model

| member | source | states |
|---|---|---|
| `InternetChecksum.FoldCarries` | src/bin/mctx_raw_send.rs:490-492 | The end-around-carry loop terminates for every 32-bit sum and leaves its representative modulo 65535, which is zero only for a zero sum. |
| `InternetChecksum.OnesComplementChecksum` | src/bin/mctx_raw_send.rs:479-495 | The chunk loop, odd trailing byte included, returns the complement of the representative of the word sum. |
| `InternetChecksum.PairOnlyChecksum` | src/raw_ip/datagram.rs:107-118 | The loop without an odd-byte branch returns the checksum of the complete words only. |
| `InternetChecksum.ChecksumCompletesSum` | src/raw/datagram.rs:127-143 | The checksum is characterised without the loop: the unique value that completes the word sum to a multiple of 65535, with the one exception the zero sum forces. |
| `InternetChecksum.VerifiesIff` | src/raw_ip/datagram.rs:52-54 | Re-checking gives zero exactly when the word sum is a positive multiple of 65535. |
| `InternetChecksum.StoredChecksumVerifies` | src/raw/datagram.rs:44-50 | Writing the checksum of a buffer into a zeroed even-offset field makes the whole buffer verify. |
| `InternetChecksum.ImplementationsAgreeIff` | src/raw_ip/datagram.rs:107-118 | The implementations agree on every even-length buffer, and on an odd-length one exactly when the last byte is zero. |
| `IpDatagram.StrictRefinesLenient` | src/raw_ip/datagram.rs:22-105 | The strict parser accepts exactly the datagrams the lenient one accepts that have concrete addresses and, for IPv4, a verifying header; both report the same fields. |
| `IpDatagram.ApplyTtlOrHopLimitOverride` | src/raw/datagram.rs:34-58 | The step-by-step patch produces the specified patched datagram. |
| `IpDatagram.Ipv4PatchIsUnique` | src/raw/datagram.rs:41-51 | The patched IPv4 datagram is the only one that differs in TTL and checksum alone, carries the new TTL, verifies, and does not store 0xffff. |
| `IpDatagram.OverrideKeepsOtherFields` | src/raw/datagram.rs:34-58 | Only the TTL or hop limit and the IPv4 checksum bytes change; every other parsed field survives. |
| `IpDatagram.OverridePassesStrictParser` | src/raw_ip/datagram.rs:37-71 | A patched datagram with concrete addresses passes the strict parser, whatever checksum it had before. |
| `IpDatagram.OverrideAbsorbs` | src/raw/datagram.rs:34-58 | Overriding twice is overriding with the second value. |
| `IpDatagram.OverrideWithOwnTtl` | src/raw/datagram.rs:34-58 | Overriding with the original TTL is the identity exactly for IPv6 and for IPv4 headers that verify and do not store 0xffff. |
| `IpDatagram.OwnTtlChangesSecondZero` | src/raw/datagram.rs:34-58 | A concrete valid datagram that its own TTL changes. |
| `UdpBuilder.BuildIpv4UdpDatagram` | src/bin/mctx_raw_send.rs:374-412 | The in-place builder succeeds exactly when the total length fits 16 bits and then yields the datagram described field by field. |
| `UdpBuilder.BuildIpv6UdpDatagram` | src/bin/mctx_raw_send.rs:414-448 | The same for IPv6, where the bound is on the UDP length. |
| `UdpBuilder.Ipv4RoundTrip` | src/bin/mctx_raw_send.rs:374-412 | The lenient parser returns the source, destination, protocol 17, header length and TTL the datagram was built from, ports, UDP length and payload sit where they belong, and the strict parser accepts it exactly when both addresses are concrete. |
| `UdpBuilder.Ipv6RoundTrip` | src/bin/mctx_raw_send.rs:414-448 | The same for IPv6. |
| `UdpBuilder.Ipv4UdpChecksumVerifies` | src/bin/mctx_raw_send.rs:450-473 | The UDP checksum field is never zero and the pseudo-header sum verifies, for payloads of every length and parity. |
| `UdpBuilder.Ipv6UdpChecksumVerifies` | src/bin/mctx_raw_send.rs:461-473 | The same over the IPv6 pseudo-header. |
| `Ipv6Prefix.PrefixMatchIsNumeric` | src/raw/linux_route.rs:497-512 | Byte-and-mask matching holds exactly when the top bits of the two 128-bit numbers agree, for every length up to 128. |
| `Ipv6Prefix.ShorterPrefixMatches` | src/raw/linux_route.rs:497-512 | A match at one length is a match at every shorter one. |
| `Ipv6Prefix.EqualLengthMatchesShareBlock` | src/raw/linux_route.rs:497-512 | Two routes of one length matching one destination share their masked prefix and cover the same addresses. |
| `Netlink.NotificationBufferInvalidatesRoute` | src/raw/linux_route.rs:549-565 | The scan loop terminates on every buffer and is silent exactly on a run of harmless well-framed messages. |
| `Netlink.ScanIsExact` | src/raw/linux_route.rs:549-572 | From any offset: no invalidation if and only if the rest is a run of well-framed non-invalidating messages followed by less than a header. |
| `Netlink.ChangeSurvivesTruncation` | src/raw/linux_route.rs:514-534 | Cutting a change notification off at the receive buffer cannot hide it. |
| `RouteDump.ParseMultipathInterface` | src/raw/linux_route.rs:481-495 | The next-hop loop computes the next-hop function that `HopsRoundTrip` is about. |
| `RouteDump.ParseRouteCandidate` | src/raw/linux_route.rs:409-471 | The attribute loop computes the candidate function that `RouteRoundTrip` is about. |
| `RouteDump.ParseRouteDumpDatagram` | src/raw/linux_route.rs:352-407 | The message loop, updating the best candidate in place, computes the dump function that `DatagramRefinesList` is about. |
| `RouteDump.ReceiveRouteDump` | src/raw/linux_route.rs:272-294 | The receive loop computes the verdict function that `DumpSelectsFirstBest` is about. |
| `RouteMessages.HopsRoundTrip` | src/raw/linux_route.rs:481-495 | On every encoded next-hop list the loop finds the first hop that is alive and names an interface. |
| `RouteMessages.AttributesRoundTrip` | src/raw/linux_route.rs:423-447 | On every encoded attribute list the loop gathers the last value of each kind, and fails exactly when an output interface of zero occurs. |
| `RouteMessages.RouteRoundTrip` | src/raw/linux_route.rs:409-471 | The bytes of an encoded route give the meaning of the abstract route. |
| `RouteMessages.DatagramRefinesList` | src/raw/linux_route.rs:352-407 | On the bytes of any well-formed message list, the byte loop does what the list does. |
| `RouteMessages.DumpRefinesList` | src/raw/linux_route.rs:272-294 | However the list is cut into datagrams, receiving it gives the verdict of the whole list. |
| `RouteMessages.OfferIff` | src/raw/linux_route.rs:409-471 | A message offers a candidate exactly when it belongs to the dump and its route lies in the main table, numerically covers the destination and is of a usable kind; the candidate's interface or errno is spelled out. |
| `RouteMessages.DumpSelectsFirstBest` | src/raw/linux_route.rs:272-471 | Main theorem of dump parsing: the answer is the interface or errno of the first candidate that is maximal by prefix length and then lowest priority among those before the end, ENETUNREACH if there is none, and the error of the first failing message otherwise. |
| `RouteMessages.OffersAreMatchingRoutes` | src/raw/linux_route.rs:352-407 | Every candidate considered comes from a message of the requested sequence whose route stands for it. |
| `RouteEgress.DrainInvalidationNotifications` | src/raw/linux_route.rs:514-547 | The receive loop computes the drain function. |
| `RouteEgress.DrainReportsInvalidation` | src/raw/linux_route.rs:514-547 | A drain without errors reports exactly whether it consumed an invalidating datagram; an overrun always reports one. |
| `RouteEgress.NextSequence` | src/raw/linux_route.rs:154-156 | Sequence numbers are never zero and never repeat at once, wrap-around included. |
| `RouteEgress.LinuxIpv6RouteEgress.Lookup` | src/raw/linux_route.rs:154-209 | One request per lookup, answered under the sequence number it was sent with. |
| `RouteEgress.LinuxIpv6RouteEgress.Egress` | src/raw/linux_route.rs:116-142 | The result and the whole new state of a call, branch by branch (`IsEgress`): what answers, what is cached, what the next sequence number is, and that nothing is touched before the drain has succeeded. |
| `RouteEgress.LinuxIpv6RouteEgress.Invalidate` | src/raw/linux_route.rs:144-152 | A failed send drops the entry only if it still names that interface. |
| `RouteTable.BestRouteIff` | src/raw/linux_route.rs:409-471 | A table selects an interface exactly when none of its routes makes the parser fail and the first best of the candidates its routes stand for, by prefix length and then priority, names that interface. |
| `RouteTable.RouteFailsIff` | src/raw/linux_route.rs:409-471 | The routes that make the parser fail: those naming interface zero, and usable ones in force for the destination that name no interface. |
| `RouteTable.BestIsUnique` | src/raw/linux_route.rs:68-73 | There is at most one first best route. |
| `RouteTable.OthersAreIgnored` | src/raw/linux_route.rs:365-366 | Messages of other sequence numbers change nothing, wherever they stand. |
| `RouteTable.ReceivedDumpIsBestRoute` | src/raw/linux_route.rs:272-294 | Receiving a table's dump, cut into datagrams anywhere and mixed with messages of other requests, answers the table's best route. |
| `RouteCache.StepKeepsInv` | src/raw/linux_route.rs:116-152 | Every step of a call, of the kernel and of the environment keeps coherence, whatever the kernel sends of a dump that a change interrupted; the one exception is a drain that fails after consuming an invalidation. |
| `RouteCache.ReceivedIsNext` | src/raw/linux_route.rs:352-407 | Each message of a followed dump that does not fail takes the parser one route further in the table of the request, and the end gives that table's best route. |
| `RouteCache.CacheIsCoherent` | src/raw/linux_route.rs:116-152 | Over every run and in every state, a cached entry with nothing pending equals the best route of the current table, except while a drain holds an invalidation it has read but not yet acted on. No marking of interrupted dumps is assumed. |
| `RouteCache.CollectedAnswerIsOfOneTable` | src/raw/linux_route.rs:272-294 | If interrupted dumps are marked: however the table changes while a dump is sent and received, and whatever an aborted dump left waiting, a collected answer is the best route of one table, current when the dump was requested. |
| `RouteCache.AnswerWasCorrectDuringCall` | src/raw/linux_route.rs:116-142 | Every answer from the cache, and every other answer if interrupted dumps are marked, was the best route at some instant of that very call, with changes between drain, request, any two messages of the dump, and store. |
| `RouteCache.SequencesFollow` | src/raw/linux_route.rs:154-156 | The machine numbers its requests as the egress object does. |
| `RouteCache.ShortRunsAreRecognisable` | src/raw/linux_route.rs:154-156 | With fewer than 2^32 requests no leftover of an aborted dump carries the sequence number of the running one. |
| `RouteCalls.EveryCallIsEgress` | src/raw/linux_route.rs:116-142 | Every call of every run, with whatever changes, notices, leftovers and failures in between, is one the egress object may make on the receives and messages it consumed: its result, its entry and its next sequence number are those of `IsEgress`. |
| `RouteCalls.DrainEnds` | src/raw/linux_route.rs:514-547 | What the draining loop reports when it ends with a given receive after receives that let it go on. |
| `RouteCalls.UndisturbedDrain` | src/raw/linux_route.rs:514-547 | Without interference, the machine's drain steps decide what the draining loop decides. |
| `RouteCalls.UndisturbedCall` | src/raw/linux_route.rs:116-142 | Without interference, the machine answers and caches as the egress object does. |
| `RouteCalls.DrainFailureKeepsInvIff` | src/raw/linux_route.rs:539 | A failing drain keeps coherence in every situation if and only if it has not yet consumed an invalidation. |
| `RouteCalls.FailedDrainLosesInvalidation` | src/raw/linux_route.rs:539 | A reachable run that ends with a stale entry and nothing pending. |
| `RouteCalls.UnmarkedDumpMisleads` | src/raw/linux_route.rs:365-368 | An orderly run in which every message is that of the table current when it is sent, but unmarked, and the call returns an interface that is the best route of no table seen during it. |
| `SequenceLock.StepKeepsInv` | src/metrics.rs:14-59 | Every atomic step of every thread keeps the lock's invariant, with an unbounded version beside the wrapping value. |
| `SequenceLock.GuardsAreExclusive` | src/metrics.rs:14-34 | In every reachable state the value is odd exactly when a write guard is live, and there are never two. |
| `SequenceLock.SnapshotIsConsistent` | src/metrics.rs:36-51 | Every value a read returns equals all counters at one instant with no writer inside. |
| `WrapThreshold.TornReadAtWrap` | src/metrics.rs:36-51 | A run of a publication in which exactly 2^63 successful sends inside one read make it return an unbalanced snapshot. |
| `WrapThreshold.ThresholdIsExact` | src/metrics.rs:36-51 | Every accepted read that spans at most k write sections returns the counters of one instant, if and only if k < 2^63. |
| `Metrics.RunKeepsLedger` | src/publication.rs:604-619 | Inside every write section, of a publication or of a context, the imbalance of the counters is exactly what the section still has to add. |
| `Metrics.SnapshotBalances` | src/publication.rs:621-641 | Every snapshot whose read spans fewer than 2^63 write sections has send_calls = packets_sent + send_errors, modulo 2^64, and exactly while the call counter has not wrapped. |
| `Metrics.SnapshotsAreMonotone` | src/publication.rs:621-641 | A snapshot returned later is pointwise no smaller. |
| `Metrics.MetricsSampler.SampleSnapshotAt` | src/metrics.rs:189-203 | The delta against the previous sample, if the instant did not go back, and the new baseline. |
| `Metrics.MetricsSampler.SampleSnapshot` | src/metrics.rs:173-184 | The wall-clock delta, present exactly when neither time nor a counter went back; the monotonic baseline is cleared. |
| `Metrics.MetricsSampler.Reset` | src/metrics.rs:205-208 | Both baselines are forgotten. |
| `Metrics.DeltasTelescope` | src/metrics.rs:370-384 | Over any ascending run of samples no delta after the first is missing and the deltas add up to last minus first, intervals included. |
| `Metrics.SampledRunConserves` | src/metrics.rs:189-203 | From the lock to the sampler, for the four counters of a publication and the six of a context: sampling any run of concurrent senders loses no delta, each delta accounts every call as one packet or one error, and the deltas sum to last minus first. |
| `Jsonl.NoSampleIsHeader` | src/jsonl.rs:299-372 | No value is accepted both as a sample row and as a header. |
| `Jsonl.ValidateExistingHeaderReader` | src/jsonl.rs:132-191 | The line loop accepts exactly the files with one header first and samples after it, returns that header, and otherwise names the first offending line. |
| `Jsonl.StepKeepsInv` | src/jsonl.rs:200-283 | Every step of every writer keeps the protocol's invariant. |
| `Jsonl.FileStaysValid` | src/jsonl.rs:200-283 | Over every run from a missing, empty or valid file, the validator accepts the file: the initial lines, at most one added header, then the accepted samples in order. |
| `Jsonl.InvalidFileStaysUntouched` | src/jsonl.rs:229-247 | A file that is not valid at the start is never written to. |
| `Jsonl.WritersAreExclusive` | src/jsonl.rs:214-247 | Each step only appends, only the lock holder appends, refused and rejected opens change nothing, and at most one writer holds the file. |
| `Owners.RunStaysSound` | src/raw/context.rs:45-114 | Over every run live configurations stay pairwise distinct, live ids stay below the next id, and the next id never decreases. |
| `Owners.IdsAreNeverReused` | src/raw/context.rs:60-74 | An issued id was never live before, is issued once, and never comes back once gone. |
| `Owners.SwapRemoveIndexes` | src/raw/context.rs:105-114 | Removing an id and re-pointing the publication moved into its slot repairs the index map. |
| `Owners.SwapRemoveMap` | src/raw/context.rs:105-114 | Swap-removal takes exactly that id out of the abstract map. |
| `Owners.IndexListsLiveIds` | src/raw/context.rs:29-38 | The index map's domain is exactly the live ids, and each slot holds its id. |
| `Owners.IndexedOwner.AddPublication` | src/raw/context.rs:60-74 | Adding performs the abstract add: a duplicate draws no id, a failed setup has used one up, success maps the new id. |
| `Owners.IndexedOwner.ReplacePublication` | src/raw/context.rs:83-97 | Replacing performs the abstract replacement; any failure changes nothing. |
| `Owners.IndexedOwner.TakePublication` | src/raw/context.rs:105-114 | Taking removes exactly that publication, hands it over, and keeps the index exact. |
| `Owners.IndexedOwner.RemovePublication` | src/raw_ip/context.rs:53-64 | Removal reports whether the id was live and performs the abstract removal. |
| `Owners.IndexedOwner.GetPublication` | src/raw/context.rs:34-38 | Lookup through the index is lookup in the abstract map. |
| `ContextLedger.Context.AddPublication` | src/context.rs:133-142 | The linear-scan owner performs the same abstract add, and counts it. |
| `ContextLedger.Context.TakePublication` | src/context.rs:176-183 | It performs the same abstract removal; the totals are unchanged and the removed counters move to the retired side of the ledger. |
| `ContextLedger.Context.GetPublication` | src/context.rs:119-123 | The scan finds what the abstract map holds. |
| `ContextLedger.Context.MetricsSnapshot` | src/context.rs:251-280 | In a quiescent state the gauge is added minus removed. |
| `ContextLedger.Context.Send` | src/context.rs:196-215 | One send, taken alone, is counted once in its publication and once in the totals; an unknown id is counted nowhere. |
| `ContextLedger.Context.SendAll` | src/context.rs:220-242 | Taken alone, exactly the reports of the successful prefix are appended, the one failure is counted in both ledgers, later publications are untouched, and conservation is kept. |
| `ConcurrentContext.StepMoves` | src/context.rs:40-54 | Every step of every thread only moves what it owes into a counter, and commits context and publication to the same record. |
| `ConcurrentContext.TotalsAndDebtsBalance` | src/context.rs:196-242 | In every state of every run of any number of sending threads, each context total plus what sends in flight still owe it equals the live and the removed publications' counters plus what is still due to them; nothing is due unless a publication is being recorded. |
| `ConcurrentContext.QuiescentTotalsAreExact` | src/context.rs:251-280 | Whenever nothing is in flight the totals are exactly the sum over live and removed publications, and the publications present number added minus removed. |
| `ConcurrentContext.ContextNeverLeads` | src/context.rs:196-215 | In no state does a context total exceed what its publications have counted. |
| `ConcurrentContext.SendAllReportsPrefix` | src/context.rs:220-242 | Whatever other threads do meanwhile, a `send_all` that ends has appended exactly the reports of its successful prefix, in the order of the list, each send recorded on both sides; it has stopped after its one failure, or has sent once through every publication the context has. |
| `ConcurrentContext.ContextView` | src/context.rs:40-94 | Every run of the machine is, for the context's lock, a run of records. |
| `ConcurrentContext.ContextSnapshotBalances` | src/context.rs:251-280 | Every snapshot of a context whose read spans fewer than 2^63 write sections, taken while threads send and publications come and go, has calls = packets + errors, modulo 2^64, and exactly while the call counter has not wrapped. |
| `ConcurrentContext.SampledContextConserves` | src/metrics.rs:370-384 | Sampling such a context loses no delta, and each of the six counters adds up to last minus first. |
| `ContextLedger.TotalAfterSend` | src/context.rs:40-54 | Counting one send in one publication moves the sum over all publications by that send. |
| `ContextLedger.TotalAfterSwapRemove` | src/context.rs:84-94 | Swap-removal splits the sum into what stays and what the removed publication counted. |
| `SocketCache.DistinctKeysCount` | src/socket_cache.rs:26-30 | A map that holds exactly a list of pairs with distinct keys has as many entries as the list. |
| `SocketCache.BoundedSocketCache.Len` | src/socket_cache.rs:28-30 | The cache never holds more than 16 sockets. |
| `SocketCache.BoundedSocketCache.GetOrTryInsertWith` | src/socket_cache.rs:32-51 | The contents are exactly the 16 most recent successful insertions of misses, queued without duplicates; a hit and a failed creation change nothing; the returned socket was created for exactly the requested key. |
| `RawIpSend.CombineSelectors` | src/raw_ip/platform.rs:296-317 | The selector loop finds the one interface everything agrees on and fails exactly when there is nothing to go by, a foreign family, or no such interface. |
| `RawIpSend.ResolveSelection` | src/raw_ip/platform.rs:294-324 | A configuration resolves exactly when it validates and some interface is designated by all its selectors. |
| `RawIpSend.OpenRawIpSocket` | src/raw_ip/platform.rs:109-135 | Which configurations open, exactly; an opened socket is pinned to the agreed interface, and an IPv6 one has a bind address. |
| `RawIpSend.RawIpTransmitSocket.CachedSocket` | src/raw_ip/platform.rs:609-626 | The socket handed out was opened with the requested protocol, unicast hop limit and traffic class. |
| `RawIpSend.RawIpTransmitSocket.SendIpDatagram` | src/raw_ip/platform.rs:205-233 | An IPv4 datagram goes whole to its own destination through the one header-included socket, pinned to the selected interface and bound to the configured address if there is one. An IPv6 payload goes through a socket opened with the datagram's protocol, hop limit and traffic class, bound to its own source, on the selected interface, to its own destination with the right zone. Only the listed reasons refuse a datagram. |
| `RawIpSend.RawIpTransmitSocket.SendIpv6` | src/raw_ip/platform.rs:517-588 | The IPv6 half: source check, payload, zone and cache key, with partial writes refused. |
| `RawIpSend.TransmissionForgetsFlowLabel` | src/raw_ip/platform.rs:525-552 | Two datagrams give rise to the same transmission exactly when they agree everywhere outside the flow label. |
| `RawGating.ValidConfigHasOneFamily` | src/raw/config.rs:90-177 | A validated configuration has one family, and every part of it that implies a family implies that one. |
| `RawGating.SelectionIff` | src/raw/platform.rs:911-994 | Both families' case analyses select an interface exactly when every configured selector designates it, and there is at most one such interface. |
| `RawGating.OpenRawTransmitSocket` | src/raw/platform.rs:121-139 | Which configurations open, exactly; an explicit publication is pinned to the agreed interface; the unreachable arm is never reached. |
| `RawGating.RawTransmitSocket.Send` | src/raw/platform.rs:195-228 | Whatever the validation mode, only datagrams of the socket's family to a multicast destination reach the kernel, and all of those do if a link can be had; the bytes are the caller's, or the patched form for a differing IPv4 override; no `expect` fails. |
| `RawGating.RawTransmitSocket.SendIpv4` | src/raw/platform.rs:286-328 | The IPv4 backend hands over exactly multicast IPv4 destinations, on the eagerly opened socket. |
| `RawGating.RawTransmitSocket.SendIpv6` | src/raw/platform.rs:331-355 | The explicit IPv6 backend refuses overrides and sends through the one packet socket of its interface. |
| `RawGating.RawTransmitSocket.SendRouteSelected` | src/raw/platform.rs:358-403 | The route-selected backend sends through a packet socket of the interface the route lookup returned, and forgets the route when the link refuses the datagram. |
| `RawGating.RawTransmitSocket.CachedPacketSocket` | src/raw/platform.rs:1034-1046 | The packet socket is opened once and reused; a failed opening caches nothing. |
| `RawGating.WireCarriesConfiguredTtl` | src/raw/platform.rs:205-216 | Whatever is sent carries the configured TTL or hop limit if there is one, and otherwise exactly the caller's fields. |
| `UdpSelection.SelectionIff` | src/publication.rs:311-348 | The case analysis computes exactly the intended selection: all consulted selectors designate one interface and no other, the bind source is the explicit source or else the interface address, and it is zoned exactly when link-local. |
| `Selectors.DesignatedInterfaceIsUnique` | src/raw_ip/platform.rs:299-315 | Selectors that all designate an interface designate only that one. |
| `UdpSelection.SelectionErrors` | src/publication.rs:314-348 | Selection fails only with the resolver's own error or with two selectors that really differ; the link-local discovery error never arises. |
| `UdpSelection.BindRefusalIff` | src/publication.rs:381-480 | A caller's bound socket is refused at the bind exactly when the early check refuses it or the interface address or zone does not fit. |
| `UdpSelection.UdpSocket.BindIfNeeded` | src/publication.rs:452-480 | A fitting name is kept, an unbound socket is bound, and a bound socket is never rebound. |
| `UdpSelection.UdpSocket.ConfigureV6` | src/publication.rs:307-379 | Success means one interface carries the multicast, zones interface-local and link-local destinations and link-local sources, and the socket is bound and connected accordingly; the reasons to refuse are listed exactly; a failure never connects. |
| `UdpSelection.UdpSocket.Configure` | src/publication.rs:252-276 | The same for new and existing sockets; the early check of an existing socket changes nothing. |

## Left out

- SequenceLock.SnapshotIsConsistent: needs fewer than 2^63 write sections inside one read attempt, because the value wraps; `WrapThreshold.ThresholdIsExact` shows the bound is exact.
- Metrics.SnapshotsAreMonotone: holds while no counter has passed 2^64; the program's atomics wrap silently.
- Metrics.SampledRunConserves: holds while no counter has passed 2^64, and so does `ConcurrentContext.SampledContextConserves`.
- RouteCache.CacheIsCoherent: assumes that each table change queues a datagram opening with a route or link message or sets the overrun flag, that the kernel runs one dump per socket and sends the table it has while the table does not change, that no drain fails after consuming an invalidation, and that no leftover of an aborted dump is received a full round of 2^32 - 1 sequence numbers later.
- RouteCache.AnswerWasCorrectDuringCall: assumes the same and, for answers not from the cache, as does `RouteCache.CollectedAnswerIsOfOneTable`, that the kernel marks what it sends of a dump after a change; `RouteCalls.UnmarkedDumpMisleads` shows that this is needed.
- RouteCalls.EveryCallIsEgress: for calls whose messages are well-formed, each taken as a datagram of its own.
- Metrics.SnapshotBalances: needs the wrap bound of the lock, as does `ConcurrentContext.ContextSnapshotBalances`; the snapshot of `WrapThreshold.TornReadAtWrap` breaks the law.
- RouteMessages.DumpSelectsFirstBest: is about well-formed messages in datagrams below the receive limit; NLMSG_ERROR carries its error code, since the program bounds that read by the buffer and not by the message.
- Owners.IndexedOwner.AddPublication: ids are drawn below u64 exhaustion; a program that got there would overflow.
- ContextLedger.Context.Send: one call at a time; interleaved sends are the subject of `ConcurrentContext`.
- ContextLedger.Context.SendAll: one call at a time; interleaved ones are the subject of `ConcurrentContext.SendAllReportsPrefix`.
- RawIpSend.RawIpTransmitSocket.SendIpDatagram: ends at what the kernel is handed; flow label, transport checksum and multicast hop limit of the emitted IPv6 packet are the operating system's.
- UdpSelection.UdpSocket.ConfigureV6: a bind that the kernel accepts is taken to satisfy the request; which source the kernel picks for an unconstrained socket is not modelled.
- Weak memory: steps interleave sequentially consistently; nothing is claimed about the ordering annotations or the fence.
- Byte order: the native fields of netlink structures are read on a little-endian host.
- System calls (socket, setsockopt, bind, connect, send, recv, getifaddrs) and interface enumeration: arbitrary results.
- The netlink receive buffer's growth and MSG_PEEK sizing: a datagram is received whole or refused as too large.
- JSON text, number formatting, partial writes and files without a final newline: a line is an abstract value.
- f64 rates and wall-clock reading: deltas are integers over given instants.
- IPv4 UDP socket configuration: the same steps with no interface resolution.
- `get_publication_mut` and `publications_mut`, which hand out the publications themselves.
- macOS and Windows backends, capability tables, the Tokio adapter, the Python bindings and the command-line front ends: wrappers and platform variants.
