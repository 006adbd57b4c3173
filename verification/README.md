# gwlb-xdp, modelled and proved

A Dafny model of gwlb-xdp, which terminates AWS Gateway Load Balancer's GENEVE tunnel on a Linux box. Two XDP
programs do the work: `decap` takes a GENEVE packet from the uplink, caches its outer header in reply form and hands
the inner packet to an endpoint's veth; `encap` takes a reply from a veth, finds the cached header and sends the
reply back in it. A control plane adds and removes endpoints while packets flow, and a daemon reports counters.

`dafny verify dfyconfig.toml` checks everything.

## What is modelled

**Packets and programs.** `Bytes`, `InnerPacket`, `Checksum`, `OuterHeader`, `DecapRules`, `EncapRules` give the
meaning of each piece of the two programs as functions on octets. `XdpPrograms`, with the parser class in
`InnerPacket`, runs them the way the C does, on a packet buffer whose head moves and a structure filled in field by
field, and each method is proved against those functions. `Alone` ties them to the step machine: a run nothing
interleaves with does there exactly what the program does. Frames are any octets of any length; 16-bit and 32-bit
fields wrap where the C's do.

**The step machine.** `Machine` puts both programs and the kernel's operations in one state: the four maps, the
devices and attachments, and the runs in flight, split at every map access, `increment_metric` included. A run of the
system is a sequence of events; which frame comes where, which LRU entry goes and who moves next are in the events, so
a claim about all sequences is a claim about all interleavings. Evicting any entry at any moment stands for every LRU
policy. A device is deleted only when no run holds it, which is the grace period; `Progress` proves it always ends.

**The control plane.** `Host` runs `RunAdd`, its rollback and `RunRemove` step by step; any operation may fail. A host
logs the kernel operations it does. `Books` adds a log up, says from that alone whether the order was kept, and proves
that every run of the machine with such a log, whatever packets, evictions and interleavings it has in between, is one
the results about ordered runs apply to; `Host.Serve` proves that adds, failed adds and removes write such logs, and
that every log they write is the log of some run.

**Around them.** `Sweep` is the batch-cursor sweep over a map that changes while it is walked, `Statsd` and `Deltas`
the counter reporting, `Names` and `Positional` the ID and interface name printers and parsers, `Uplink` and `Masks`
the origin filter and the size limits.

## The main results

1. *Endpoint isolation* (`Isolation.EndpointIsolation`). In every run that keeps to the control plane's order, every
   frame sent from the veth of endpoint v carries v's option, in a header from a packet decap accepted for v, and for
   the very flow the reply asked for, even after v's ifindex was another's. A later fragment asks by identification
   only: for it, the flow is one that a first fragment with its addresses, protocol and identification, which encap was
   given from a veth of v with the same ifindex, asked for. The other way (`Isolation.EndpointDelivery`,
   `Isolation.AcceptedArrives`), whatever decap redirects is the inner packet of a frame whose own option names the
   endpoint the veth, live at that moment, is of; and no accepted frame goes astray. `Removal.StaleEntryLeaks` shows the
   order is needed: skip the sweep, and the same four operations lead to a leak. Two lookups are copies at the moment of
   the lookup, here and everywhere: encap's of the cached header, and decap's of the endpoint's entry, whose MACs the
   code reads again after moving the packet's head. A slot reused in between is not covered.
2. *Hosts keep to that order* (`Host.Serve`, `Books.OrderGuarantees`). Over any list of adds and removes whose cleanups
   work, everything else failing at will: every frame sent is isolated, every one delivered is its endpoint's, no
   increment is lost, and the maps hold nothing of an interface without a veth. `Host.Kernel.RunRemove` says exactly
   when one remove leaves a settled host settled, whatever it returns.
3. *Skipping cache writes is sound* (`WriteSkipping.WriteSkippingRefines`): the cache that skips writes and the one
   that does not send, and deliver, the same octets.
4. *Replies, fragments and ICMP errors find their flow* (`Keys.ReplyFindsFlow`, `FragmentRuns.PiecesShareHeader`,
   `Keys.ErrorFindsFlow`), and no other flow's reply does. Behind a routing header the parser sees no fragment header
   (RFC 8200 section 4.5 puts it last); every piece is then matched like the whole (`Fragments.RoutedPieceAsks`).
5. *Round trip* (`RoundTrip.ReturnedIsDelivered`): decap reads back exactly what encap sends.
6. *Add is a transaction* (`Host.Kernel.RunAdd`, `Host.AddThenRemove`).
7. *No count is lost* (`Counters.NoCountLost`, `Counters.SentIsCounted`).
8. *Deltas add up*, with the exact condition over whole runs, failed samples and listings included. For a row left
   alone, what is pushed never exceeds its growth if and only if no completed flush reads the row, once it counts, more
   than once, or at all after another has missed it (`Deltas.BoundedExactlyIfSteady`). For a row read once a tick, and
   swept or unlisted at will, it never does, and it is all of the growth if and only if every interval's growth is
   listed and not hidden by a sweep (`Deltas.GrowthExactlyIfReported`).
9. The sweep, the checksum, the packing, the names, the origin filter and the length arithmetic, each with the property
   it exists for.

## Where code and documentation differ

- `bpf/geneve_defs.h:197-200` says encap recomputes every field the comparison skips. It does not recompute the IP ID.
  Skipping it is sound only because decap zeroes it: `OuterHeader.ReplayOfStable` proves that two headers the comparison
  calls equal replay alike if and only if their IDs are equal, and `WriteSkipping` that they always are.
- `bpf/maps.go:187-188` says a missing pin is tolerated. `sweepByIfindex` tolerates any error of opening the map, so a
  sweep can report success and delete nothing; see `Sweep.SweepByIfindex` and `MapsOpen` in `Host.Kernel.RunRemove`.
- `cmd/add.go:96-100` says a rollback leaves alone what already existed. `CreateNamedNetns` (`cmd/utils.go:202-218`)
  starts from a zero handle, which its library counts as open, so when the thread's own namespace cannot be read it
  deletes any namespace of that name. `Host.Kernel.RunAdd` states exactly this exception.
- `cmd/remove.go:86-88` deletes a namespace of the endpoint's name even for an endpoint added without one, so an add and
  a remove restore the namespaces if and only if there was none of that name before (`Host.AddThenRemove`).
- `cmd/add.go:119-125` and `cmd/remove.go:75-79` treat any failure of looking the veth up as its absence. Success of
  `RunRemove` therefore does not by itself mean that the veth is gone.
- `bpf/decap/_decap.c:300-309` has the first fragment cache the flow for all. An ICMP error that quotes a later fragment
  still finds that entry if and only if the flow has no ports (`Fragments.QuotedLaterPiece`).
- `cmd/serve.go:171-178` takes a sample for the rows' true totals, and a value that went down for a sweep. The map
  iterator may return a row twice while others are deleted, and the sample then adds it twice. A row that stands at 5
  and never grows, read twice at one tick and once at the next, is pushed as 5 and then as 5 again
  (`Deltas.DoubleReadOverReports`). For rows that are not swept, `Deltas.BoundedExactlyIfSteady` says exactly which
  reads keep the pushes within the growth; growth that a sweep hides can make up for a double read
  (`Deltas.SweepHidesDouble`).

## Model

| member | source | states |
|---|---|---|
| `InnerPacket.InnerTuple.ReadL4` | bpf/geneve_defs.h:272-303 | the field-by-field parser succeeds exactly when the function does, with its tuple |
| `InnerPacket.InnerTuple.ReadIPv4` | bpf/geneve_defs.h:311-331 | the same for IPv4, with the L4 offset |
| `InnerPacket.InnerTuple.ReadIPv6` | bpf/geneve_defs.h:340-378 | the same for IPv6, past one hop-by-hop and one fragment header |
| `Checksum.CsumFold` | bpf/encap/_encap.c:67-75 | four rounds always reach 16 bits: the complement of the fully folded sum |
| `Checksum.IPv4Checksum` | bpf/encap/_encap.c:79-90 | in place on the header: the field is zeroed, the rest untouched, the result the header's checksum |
| `Checksum.ByteOrderIndependence` | bpf/encap/_encap.c:83-89 | summing host-order words is summing network-order ones times 256, modulo 65535 |
| `Checksum.FilledSum` | bpf/encap/_encap.c:261-262 | with the checksum stored in its field the header's words sum to a positive multiple of 65535 |
| `Checksum.ChecksumVerifies` | bpf/encap/_encap.c:79-90 | every 20-octet header verifies in network order after the host-order sum is stored |
| `OuterHeader.OuterHdrStableEq` | bpf/geneve_defs.h:202-220 | the word loop decides equality outside the five skipped fields |
| `OuterHeader.ReplayOfStable` | bpf/geneve_defs.h:191-201 | headers the comparison calls equal replay to the same octets if and only if their IDs are equal |
| `OuterHeader.Replay` | bpf/encap/_encap.c:252-267 | a replay has both lengths cut to 16 bits, a verifying checksum and no UDP checksum; every field not recomputed, the ID included, is the cache's |
| `OuterHeader.ReplyFormTwice` | bpf/decap/_decap.c:339-378 | rewriting twice restores the addressing; TTL, ECN, DF and ID are settled by the first time |
| `DecapRules.Decide` | bpf/decap/_decap.c:98-316 | a delivered frame passed every outer check and goes to the endpoint its own option names; any other counts at most one pair |
| `Keys.StoredUnder` | bpf/decap/_decap.c:308-317 | a delivered frame is stored, if at all, under its inner packet's own forward key and the veth it is delivered to |
| `XdpPrograms.Packet.AdjustHead` | bpf/encap/_encap.c:217-222 | moves the head within the buffer or fails and changes nothing |
| `XdpPrograms.ParseGwlbOpt` | bpf/decap/_decap.c:75-92 | advances past an option exactly when class, type and length match and it lies within the frame |
| `XdpPrograms.TurnRound` | bpf/decap/_decap.c:339-378 | the in-place edits of the header copy produce the reply form |
| `XdpPrograms.Datapath.IncrementMetric` | bpf/maps.h:73-89 | creates the row if there is room, then adds: one counting step |
| `XdpPrograms.Datapath.InspectOuter` | bpf/decap/_decap.c:114-252 | the straight-line checks reach the outer verdict, counting nothing but it |
| `XdpPrograms.Datapath.Decap` | bpf/decap/_decap.c:98-416 | a whole run: verdict, emitted frame, flow_state, counters, all as decided, whatever the frame |
| `XdpPrograms.Datapath.Encap` | bpf/encap/_encap.c:93-282 | a whole run: verdict, emitted frame, frag_state, counters, for every frame, headroom and map content |
| `XdpPrograms.Datapath.ChooseKey` | bpf/encap/_encap.c:155-192 | the branches on a quoting error, a later fragment and the mode build the key, and pick the map, the request asks for; a quote that does not parse is refused |
| `XdpPrograms.Datapath.Restore` | bpf/encap/_encap.c:217-267 | the frame after both adjustments is the cached header, sized and checksummed, before the untouched inner packet |
| `XdpPrograms.Datapath.Rechecksum` | bpf/encap/_encap.c:260-262 | the checksum is recomputed in the packet itself |
| `RoundTrip.ReturnedIsGwlb` | bpf/decap/_decap.c:114-252 | decap accepts what encap emits if and only if its origin filter passes the box's own address, and reads the same endpoint, family and inner packet |
| `RoundTrip.ReturnedAddresses` | bpf/decap/_decap.c:339-360 | the returned header swaps Ethernet and IP addresses and sets DF |
| `RoundTrip.ReturnedIsDelivered` | bpf/decap/_decap.c:399-415 | the way round: same endpoint, same interface, the reply octet for octet |
| `Keys.KeyBytesInjective` | bpf/geneve_defs.h:158-167 | the 44 octets the kernel compares tell any two keys apart |
| `Keys.FlowsStayApart` | bpf/geneve_defs.h:415-433 | two packets share a key if and only if interface, family, addresses, ports and protocol agree; the keys are ones whose octets tell them apart |
| `Keys.FragKeyTells` | bpf/encap/_encap.c:60-65 | the identification comes back from the two halves in a fragment key |
| `Keys.ReplyFindsFlow` | bpf/encap/_encap.c:183-192 | a reply asks for exactly the key decap stored if and only if its tuple is the stored packet's reversed, or on a transparent box the same |
| `Keys.EchoAnswers` | bpf/geneve_defs.h:292-301 | an echo reply reverses its request's tuple, the identifier standing for both ports |
| `Keys.ParsePrefix` | bpf/geneve_defs.h:266-378 | a parse that succeeds on a prefix gives the same on every extension, through options, hop-by-hop and fragment headers |
| `Keys.ErrorFindsFlow` | bpf/encap/_encap.c:155-177 | an error quoting any parseable beginning of a stored packet asks for the stored key, in either mode |
| `Fragments.FirstPiece` | bpf/geneve_defs.h:323-330 | the offset-0 piece parses as First and otherwise exactly like the whole datagram |
| `Fragments.LaterPiece` | bpf/geneve_defs.h:366-376 | every other piece parses as Later with the datagram's addresses, protocol and identification |
| `Fragments.FirstPieceAsks` | bpf/encap/_encap.c:155-209 | the first piece asks what the whole would and records under the others' key; it is refused only if its quote does not parse |
| `Fragments.LaterPieceAsks` | bpf/encap/_encap.c:178-182 | every later piece asks for the key the first was recorded under |
| `Fragments.QuotedLaterPiece` | bpf/encap/_encap.c:155-177 | an error quoting a later fragment finds the flow if and only if the flow has no ports |
| `Fragments.RoutedPieceAsks` | bpf/geneve_defs.h:340-378 | every piece of an IPv6 datagram with a routing header parses like the whole, asks for the same key and records nothing |
| `FragmentRuns.PiecesShareHeader` | bpf/encap/_encap.c:202-211 | after any interleaving that spares the entry, every later piece leaves in the header the first found, ICMP errors included |
| `FragmentRuns.SameOuterHeader` | bpf/encap/_encap.c:252-267 | two packets in one cached header differ before the inner packet only in lengths and checksums |
| `Machine.StartEncap` | bpf/encap/_encap.c:152-267 | a run records and sends only what its lookup found, under its own interface |
| `Machine.RunsEffect` | bpf/maps.h:69-72 | a run starts by its own event and is otherwise only further on: no CPU touches another's |
| `Alone.IncrementIsCount` | bpf/maps.h:73-89 | the two to four steps of an increment, undisturbed, are increment_metric on that CPU's values |
| `Alone.DecapAlone` | bpf/decap/_decap.c:98-416 | a decap run nothing interleaves with does to caches, counters and its frame (passed on, dropped, or redirected as what) exactly what the program's contract says |
| `Alone.EncapAlone` | bpf/encap/_encap.c:93-282 | the same for encap, and for what goes on the wire |
| `Isolation.StartEncapOk` | bpf/encap/_encap.c:152-228 | what a lookup finds for a live veth is of a packet accepted for that veth's endpoint |
| `Isolation.StepKeepsInv` | bpf/decap/decap.go:228-236 | every event, in the control plane's order, keeps every entry, run and sent frame its own endpoint's |
| `Isolation.EndpointIsolation` | bpf/encap/_encap.c:152-228 | over every run in the control plane's order (which Books and Host.Serve prove hosts keep), every frame sent from v's veth names v, in the header of a packet accepted for v, of the flow the reply asked for, or a later fragment's first fragment did, the reply untouched |
| `Isolation.EndpointDelivery` | bpf/decap/_decap.c:267-415 | over every such run, whatever is redirected to a veth is the inner packet, octet for octet, of an accepted frame whose own option names the endpoint that veth, live then, was created for |
| `Isolation.AcceptedArrives` | bpf/decap/_decap.c:413-415 | the run of an accepted frame ends by redirecting to its endpoint's veth, which is still there |
| `Removal.WritesAreLive` | bpf/decap/_decap.c:403-411 | no event writes an entry keyed by an interface that has no veth |
| `Removal.ResidueStays` | bpf/decap/decap.go:228-236 | only deleting a veth leaves anything of a dead interface |
| `Removal.SweepSettles` | bpf/decap/decap.go:237-243 | a sweep settles its map for that interface, whatever is in flight |
| `Removal.SweepIsEvictions` | bpf/maps.go:189-239 | sweeping a cache at once is evicting its keys of that interface one by one, so every result about runs covers a sweep other events fall amid |
| `Removal.StaysCleanUntilCreated` | bpf/decap/decap.go:228-236 | a clean interface without a veth stays clean through every run until it gets one |
| `Removal.ReuseHappens` | bpf/decap/decap.go:228-230 | delete, veth gone, veth new on the same ifindex, attach: the kernel does all four, and in order if and only if nothing of the interface was left |
| `Removal.StaleEntryLeaks` | bpf/decap/decap.go:228-230 | without the sweep that run leads to where a reply from the new endpoint is sent in the old one's header |
| `WriteSkipping.SkipAlike` | bpf/decap/_decap.c:403-411 | an entry the comparison leaves replays like the header it did not write |
| `WriteSkipping.StepMatched` | bpf/decap/_decap.c:406-411 | each event of the skipping cache is matched by events of the always-writing one |
| `WriteSkipping.WriteSkippingRefines` | bpf/geneve_defs.h:191-201 | from the empty system both caches send and deliver the same frames, count the same and hold the same keys, under every interleaving and eviction |
| `Counters.RowsPerInterface` | bpf/decap/decap.go:59-61 | n interfaces have at most 20 n rows |
| `Counters.RoomForRow` | bpf/decap/decap.go:61 | a row a run needs always fits: the map never fills |
| `Counters.SlotsStay` | bpf/decap/decap.go:59-61 | live and unswept interfaces never exceed MaxEndpoints |
| `Counters.OneCounts` | bpf/maps.h:73-89 | one step on one CPU loses no row, touches no other CPU's value and keeps the tally |
| `Counters.EncapPays` | bpf/encap/_encap.c:275-281 | a run that sends counts exactly what it sends, another one pair or nothing |
| `Counters.DecapStartsWithPair` | bpf/decap/_decap.c:102-107 | a decap run counts at most one packets/bytes pair, of one interface |
| `Counters.NoCountLost` | bpf/maps.h:60-89 | in every run each row's per-CPU values are the increments performed; none is lost to a race, a full map or a sweep |
| `Counters.SentIsCounted` | bpf/encap/_encap.c:275-281 | until swept, encap_ok_bytes is the total length of the frames sent, CPU by CPU |
| `Progress.NextIsEnabled` | bpf/decap/decap.go:232-236 | a run's next step is always enabled and brings it nearer its end |
| `Progress.GracePeriodEnds` | bpf/decap/decap.go:232-236 | the datapath alone reaches a moment when no run holds the interface |
| `Books.UnusedStays` | cmd/add.go:297-307 | nothing reaches a veth before its endpoint is inserted |
| `Books.EntryAgrees` | bpf/decap/decap.go:228-236 | an operation the books call quiet is one in order, and leaves of dead interfaces exactly what the books say is still to sweep |
| `Books.RunAgrees` | bpf/decap/decap.go:228-243 | over a whole run, quiet books mean an ordered run, and endpoints, veths and leftovers are as the books say |
| `Books.OrderGuarantees` | bpf/decap/decap.go:228-243 | any run whose log kept to the order has isolated everything it sent, lost no count, and holds nothing of a dead interface with no sweep to come |
| `Books.Happens` | bpf/decap/decap.go:232-236 | every operation the tables allow happens once packets already on their way have ended |
| `Books.LogHappens` | bpf/decap/decap.go:232-236 | every log of such operations is the log of some run of the machine |
| `Host.Kernel.constructor` | cmd/setup.go:50-69 | a host on which setup has run, without endpoints, is settled |
| `Host.Kernel.CreateNamedNetns` | cmd/utils.go:202-218 | succeeds exactly when every step works and the name is free; what is there afterwards, by what failed |
| `Host.Kernel.AddPair` | cmd/add.go:178-195 | the pair and its ifindex, or no trace of it unless it cannot be found by name either |
| `Host.Kernel.Configure` | cmd/add.go:197-295 | the steps before the endpoint is reachable: all or failure, and nothing changed but the inner end's namespace |
| `Host.Kernel.AddEndpoint` | bpf/decap/decap.go:168-183 | inserts exactly when the endpoint is new and there is room |
| `Host.Kernel.RemoveEndpoint` | bpf/decap/decap.go:208-226 | returns the entry it deletes, and nothing if there is none |
| `Host.Kernel.AttachMode` | bpf/xdp.go:21-37 | attaches, then pins; a link that cannot be pinned was attached for a moment and is detached again |
| `Host.Kernel.AttachXDP` | bpf/xdp.go:39-47 | driver mode first, then generic, or generic only; succeeds exactly when some mode tried attaches and pins |
| `Host.Kernel.AttachEncap` | bpf/encap/encap.go:121-147 | a stale pin goes first; succeeds exactly when each step does, touching only its own pin |
| `Host.Kernel.DetachXDP` | bpf/xdp.go:51-66 | unpins and detaches, or fails without doing either, by what failed |
| `Host.Kernel.SweepEndpoint` | bpf/decap/decap.go:237-243 | all three maps are tried, whichever fails; each that opens and does not fail is settled for the interface |
| `Host.Kernel.RollBack` | cmd/add.go:106-136 | undoes exactly what the flags say was created, by what failed; it succeeds if all its operations work |
| `Host.Kernel.AddOrRollBack` | cmd/add.go:101-308 | for a failure at any step, everything is as before; other endpoints and devices are, even if the rollback fails |
| `Host.Kernel.RunAdd` | cmd/add.go:54-309 | a transaction: refused untouched, done, or undone; done exactly when every check and step works; a settled host stays settled if it is done or the rollback's operations work |
| `Host.Kernel.RunRemove` | cmd/remove.go:39-93 | succeeds exactly when the endpoint is there and no step fails and is reported; whatever it returns, a settled host whose entry is dropped or absent stays settled if and only if there was no entry, or the veth was found and deleted and all three maps opened and swept |
| `Host.RollBackRestores` | cmd/add.go:96-136 | the rollback's effects cancel the provisioning's, failure point by failure point |
| `Host.RollBackSettles` | cmd/add.go:106-136 | a rollback whose operations work leaves the host as settled as before the add |
| `Host.KnownSettles` | cmd/remove.go:35-38 | removing an endpoint that is there leaves the host settled if and only if the veth is found and deleted and all maps opened and swept |
| `Host.AddThenRemove` | cmd/remove.go:30-38 | add then remove restores all; the namespaces if and only if none had the endpoint's name |
| `Host.Serve` | cmd/remove.go:35-38 | any list of adds, failed adds and removes whose cleanups work keeps the host settled; in every run with its log, and there is one, every sent frame is isolated, no increment lost, and no entry is of an interface without a veth |
| `Sweep.Table.BatchLookup` | bpf/maps.go:171-174 | whole buckets from the cursor on; no space only if one bucket exceeds the batch |
| `Sweep.SweepByIfindex` | bpf/maps.go:189-239 | complete, exact and terminating under churn; fails only if the kernel does, and never for lack of space; an unopened map counts as swept |
| `Statsd.PackLines` | cmd/serve.go:209-226 | the loop computes the packing the three results below are about |
| `Statsd.LinesComeBack` | cmd/serve.go:206-208 | splitting the datagrams gives back all lines in order |
| `Statsd.WithinLimit` | cmd/serve.go:206-208 | a datagram over the limit is a single line |
| `Statsd.FewestDatagrams` | cmd/serve.go:206-208 | no order-preserving packing within the limit uses fewer datagrams |
| `Deltas.Metrics` | bpf/maps.go:98-129 | rows grouped by counter, unknown counters skipped |
| `Deltas.SampleCounters` | cmd/serve.go:251-267 | what the two loops compute: each known row, summed across CPUs and across reads |
| `Deltas.SampledPerRead` | cmd/serve.go:251-267 | a sample is the row's value if and only if it was read once (or is zero) |
| `Deltas.CounterLines` | cmd/serve.go:179-198 | each labelled row gets one line, under its interface, with its delta; no other does |
| `Deltas.FlushCounters` | cmd/serve.go:147-169 | what is kept and pushed for each outcome of sampling and listing, from the rows as the iterator returned them |
| `Deltas.DeltaIsGrowth` | cmd/serve.go:176-178 | a delta never exceeds the true growth, and equals it exactly under the stated condition on resets |
| `Deltas.OneTickPushes` | cmd/serve.go:176-198 | what a completed flush pushes for a row read any number of times, against the sample before it, whatever that holds |
| `Deltas.BoundedExactlyIfSteady` | cmd/serve.go:136-178 | from a true sample on, for a row not swept and listed: after no tick have the pushes exceeded the growth, if and only if no completed flush reads the row, once it counts, more than once, or again after one missed it |
| `Deltas.DoubleReadOverReports` | cmd/serve.go:251-267 | a row that never grows, read twice at one tick and once at the next, is pushed twice its value |
| `Deltas.SweepHidesDouble` | cmd/serve.go:171-178 | growth a sweep hides can cover for a double read: the bound then holds all the same |
| `Deltas.NeverMoreThanGrowth` | cmd/serve.go:136-145 | before the baseline too, and over any ticks, resets and failures in which each row is read once, what is pushed never exceeds the growth |
| `Deltas.GrowthExactlyIfReported` | cmd/serve.go:136-198 | over the same ticks, what is pushed is all of the growth if and only if in every interval the row did not grow, or was listed and not swept, or grew only after a sweep that shows |
| `Deltas.DeltasTelescope` | cmd/serve.go:136-145 | for a row left alone, listed and read once a tick, pushed plus pending is exactly the growth, across failed samples |
| `Names.ParsesAsPrinted` | cmd/utils.go:60-82 | parsing the printed form returns the ID, for every 64-bit value |
| `Names.AcceptedSpellings` | cmd/utils.go:60-70 | accepts exactly 8 hex digits, or 17 that begin with zero: a 17-digit overflow is refused |
| `Names.PrintsCanonically` | cmd/utils.go:72-82 | a printed ID reads back the same; it is the spelling itself in lower case but for 32-bit IDs in 17 digits |
| `Names.Base58RoundTrip` | cmd/utils.go:134-138 | base58 gives back every non-empty string of octets, leading zeroes included |
| `Names.NamesOfId` | cmd/utils.go:140-156 | a name decodes to an ID if and only if it is one of the ID's two names |
| `Names.NamesDistinct` | cmd/utils.go:95-105 | names are distinct across IDs and ends |
| `Names.NameFits` | cmd/utils.go:84-89 | a name never exceeds 15 characters |
| `Uplink.FilterIsPrefix` | bpf/decap/decap.go:69-87 | for every IPv4 CIDR the filter accepts a source if and only if its top bits are the prefix's |
| `Uplink.EveryOrigin` | bpf/decap/decap.go:69-71 | a /0 accepts every source, as no filter does |
| `Masks.MaskedIsAndOfLoads` | bpf/decap/_decap.c:152-168 | the comparison of words loaded in host order is the octet-wise one |
| `Uplink.LimitIsTight` | bpf/encap/_encap.c:142-150 | a frame encap makes fits the uplink, with exact lengths and a verifying checksum, if and only if the reply is within MaxInnerLen |
| `Uplink.MaxInnerLen` | bpf/maps.go:39-45 | defined exactly from an uplink MTU of 136 on |
| `Uplink.FramesFit` | bpf/encap/_encap.c:142-150 | over every run, for uplink MTUs up to 65535, every frame sent fits the uplink with exact lengths and a verifying checksum |
| `Uplink.LengthsExact` | bpf/encap/_encap.c:259-264 | the written total length is exact if and only if 16 bits can hold it |
| `Uplink.VethRepliesFit` | cmd/add.go:73-86 | with any MTU add can choose, no reply the veth lets through is refused as oversize, and whatever header is found for it the frame fits the uplink |
| `Uplink.SubtractionsExact` | bpf/decap/_decap.c:267 | neither unsigned subtraction wraps where it is reached |

## Left out

- Kernel and library plumbing: pinning, attach modes, netlink, ethtool, namespace syscalls, thread locking. Each is an operation that may fail.
- The netlink, netns, base58, netip and eBPF libraries are not part of this model; their functions are taken at their documented meaning. That a zero namespace handle counts as open is such a meaning.
- Sweeping metrics is one step: between the first and the last row a sweep deletes, the rows of that dead interface are fewer than Counters.NoCountLost says. Removal.SweepIsEvictions does the caches key by key.
- Deltas.BoundedExactlyIfSteady: for a row that is swept, or not listed, the exact condition is the inequality itself, since growth hidden there makes up for any amount read twice; Deltas.NeverMoreThanGrowth has the bound.
- InnerPacket.ParseL4: its own contract says what it may set, not from which octets; InnerPacket.InnerTuple.ReadL4 ties the values to the C's reads, and Keys.EchoAnswers and Fragments.FirstPiece to what they mean.
- InnerPacket.Parse: its own contract gives widths only; the values are tied to the C by InnerPacket.InnerTuple.ReadIPv4 and ReadIPv6, and stable under extension and fragmentation by Keys.ParsePrefix, Fragments.FirstPiece and Fragments.LaterPiece.
- DecapRules.StoreKey: its own contract gives interface and family; Keys.StoredUnder and Keys.FlowsStayApart state the rest of the key.
- EncapRules.Classify: its own contract leaves out which of the three keys is asked for; Keys.ReplyFindsFlow, Keys.ErrorFindsFlow and Fragments.LaterPieceAsks state that, each for its kind of reply.
- Isolation.EndpointIsolation: a reader racing with an LRU replacement or a deletion of the very value it points to. encap's lookup and decap's lookup of the endpoint's MACs are modelled as copies at the moment of the lookup, where the code copies the header a little later, and reads the MACs again after bpf_xdp_adjust_head.
- Isolation.StepKeepsInv: assumes an order of kernel operations; that hosts keep it is Host.Serve's, for cleanups that work. After a removal or rollback whose cleanup failed the host is no longer settled, and nothing is claimed of it from then on.
- Host.Kernel.RunRemove: a remove whose entry cannot be dropped, but which finds the veth by name and removes it, leaves an endpoint without a veth; it is not claimed to keep the host settled.
- Host.Kernel.FlowStateRemove: a sweep that fails deletes nothing, where the code may have deleted a part; Sweep.SweepByIfindex has the parts. The same holds for FragStateRemove and MetricsRemove.
- Host.Kernel.RollBack: may leave the pin of the deleted interface's link behind, as the code does; the next attachment to that ifindex clears it.
- Host.Bears: the uplink is taken not to bear an endpoint's interface name, and adds and removes run one at a time.
- 64-bit wrap-around of counters: counters are natural numbers.
- Deleting a veth behind the control plane's back.
- Destroying a namespace together with the devices still in it: only its name is modelled.
- Formatting and sending statsd datagrams, interface tags and the health server.
- Machine.Step: the XDP buffer's failures that no state can cause (a packet shorter after the head moved than before) are in XdpPrograms, not in the machine.
- Flow cookie validation, which decap does not do, and interface MAC addresses, which are not injective by design.
- RunSetup and RunTeardown, beyond the limits they pass on; generated bindings; the command line.
- Inner L4 checksums, TCP, offloads and routing.
