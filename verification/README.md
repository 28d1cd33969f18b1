# rmnet: a verified model of the receive, transmit and flow-control core

The project models three parts of the rmnet driver and proves what they promise.

**Receive path over page fragments.** A packet is a descriptor holding a list of page fragments. `Fragments` gives such a
list its meaning as one flat byte string; `Descriptors.Port` is the descriptor pool with the operations on descriptors
(pull, trim, copy, header peek, append), each proved to be the operation on the flat string, with page reference counts
and the free list accounted for. `Deaggregation` cuts a received buffer into MAP frames in place, `Frames` says on flat
bytes what both deaggregators cut, `ExtensionHeaders` walks IPv6 headers. `Coalesced` defines which packets a coalesced
frame stands for; `Splitter` and `Segmentation` split it in per-packet, GRO and fast-forward mode and prove that all
three describe those packets. `Ingress` puts the path together, from an skb to what is handed to the stack.
`WireHeaders` writes IP, TCP and UDP headers from their fields byte by byte, `Bundles` coalesced frames from the packets
that went into them, `Downlink` whole streams of MAP frames; `BuiltHeaders`, `BundleSplit` and `Downlink` prove that what
was written is what the driver reads and delivers.

**Transmit path.** `Framing` adds and removes MAP headers and composes framing, aggregation and both receive paths into
round trips. `Aggregator` is the uplink aggregator as a state machine over its lock sections, its timer and its flush
work; `AggregatorLimits` says by sizes, counts and times when it holds a packet back. `Checksum` is the downlink checksum
validation in one's-complement arithmetic, `ChecksumWire` the same for packets written from their fields.

**DFC flow control.** `Dfc` has the handlers of one bearer as steps and proves what every run keeps: queue state, credit,
gating, the watchdog, the end marker. `Qos` has one `qos_info` in SA mode: flows, bearers, queue slots and the operations
that bind them; `QosRuns` lifts the single-bearer results to runs of it, `QosSlots` says when queues are lost sight of.
`QosHandlers.QosInfo` is the imperative form of the operations, proved against the steps. `DfcEffects` and `FlowTable` tell
the operations by their outcome: bytes in flight, gates, acknowledgements, the table of flows and the queues they set.

Conventions: an skb or descriptor is its bytes and the fields that matter; memory is a function from page and offset to a
byte; addresses are numbers; an allocation may fail at any call, which sets a flag (`failed`) that the contracts name and
that each call of the ingress handler starts afresh.
Clocks, page allocation, the software checksum verdict of `rmnet_frag_validate_csum` and the trailer verdict of the
linear path are arbitrary values. Every section of code under a lock is one step.

## Findings

Properties one would expect that the code does not have. Each is stated with the exact condition and, where a run or an
input is needed to see it, with one.

- A descriptor leaks when the MAP header of a data frame in a QMAPv5 or coalescing format can be read and the type byte
  behind it cannot: `core/rmnet_descriptor.c:617` returns without recycling. Since the `frag_list` is detached only after
  deaggregation, what can be read goes on into the next skb of a chain. `Deaggregation.Deaggregate` and
  `Ingress.FragIngress` prove that it happens exactly then (`Frames.Carrier.Leaks`). For an skb by itself that is a stream
  whose rest ends right behind the header (`Frames.AloneLeaks`, `Frames.DanglingStream`); in a chain neither of the two
  implies the other (`Frames.ChainLeaks`).
- The two deaggregators disagree on frames whose second header is neither of the known types, and on coalesced frames that
  do not fill the buffer (`Frames.PagedEqualsLinear`, `Frames.CutsDiffer`).
- The 48-packet limit is counted in eight bits; it holds exactly when every count is at most 207
  (`Segmentation.CountsExact`, `Segmentation.CountsWrap`).
- The comment at `core/rmnet_descriptor.c:1088-1090` says that packets with checksum errors are left out of the list; the
  code includes them with the checksum marked bad, and the model follows the code.
- Fast-forward marks all packets good; this agrees with the error bitmap exactly when no bit of a packet is set
  (`Segmentation.RunIsPackets`).
- `rmnet_map_add_map_header` with padding wraps the length field for payloads of more than 65532 bytes, and the frame is
  lost (`Framing.FramingExact`). The driver does not get there: its one call, `core/rmnet_handlers.c:358`, never asks for
  padding.
- A late `hrtimer_cancel` can leave an aggregation buffer without a timer (`Aggregator.GapStalls`). The one step that does
  so is a cancel that is due while a buffer is held and no flush work is queued (`Aggregator.StepAttendsExact`); a run is
  free of unattended buffers if and only if it has no such step (`Aggregator.RunAttendsExact`), and whole operations never
  take it (`Aggregator.RunAttends`).
- Below a page the configured aggregation size may exceed the real buffer: every packet that starts a buffer fits it if and
  only if the size is at most one above the capacity (`Aggregator.StartFitsExact`). The default configuration overflows
  (`Aggregator.InitialOverflows`).
- In QMAP mode a live watchdog gives a grant to a bearer whose TX is off (`Dfc.TxOffExact`, `Dfc.TxOffBroken`).
- An end marker can be confirmed with the wrong sequence number: over any run, exactly when the request had to wait and the
  bearer's two sequence numbers differed (`Dfc.ConfirmSeqExact`). They part exactly where powersave or TX going on wakes a
  bearer that had seen an update (`Dfc.SeqPartsExact`); `Dfc.WrongConfirmation` is a run from a new bearer.
- A query response of less than five bytes that leaves no grant leaves nothing that would recover the bearer
  (`Dfc.UpdateAlertExact`); `Dfc.ShortResponseStalls` is a run from a new bearer that ends so.
- A bearer that takes a second queue slot no longer controls the first. Whatever happens but additions of flows, the
  queues of all owned slots stay in step with the grants if and only if no bearer owns a second slot
  (`QosSlots.SlotsSyncedExact`), which over any run is so if and only if no addition gives a bound bearer a free slot
  (`QosSlots.RunSingleExact`, `QosSlots.AddSingleExact`). `QosSlots.StaleQueue` is a run that leaves a queue running for a
  bearer without grant.
- A flow transmits on its own `mq_idx`, whoever owns that slot. As long as flows stay as they are, its queue follows the
  grant of its bearer over every run if and only if the bearer owns that slot and controls it (`QosSlots.FlowSyncedExact`,
  `QosSlots.ControlledOwns`). Rebinding frees slots without waking their queues, `core/qmi_rmnet.c:419`;
  `QosSlots.StrandedFlow` is a run that leaves a flow on such a stopped queue although its bearer has a grant, and no
  handler wakes it (`QosSlots.StrandedStays`).

## Model

| member | source | states |
|---|---|---|
| Fragments.DropFlat | core/rmnet_descriptor.c:109-134 | dropping fragments from the front is dropping a byte prefix |
| Fragments.ChopFlat | core/rmnet_descriptor.c:157-183 | chopping fragments from the end is taking a byte prefix |
| Fragments.CutFlat | core/rmnet_descriptor.c:295-318 | cutting fragments out is slicing bytes, wherever the cut starts and ends |
| Descriptors.Port.Get | core/rmnet_descriptor.c:41-66 | a fresh blank descriptor from the pool, or a new one counted in pool_size, or a failure that changes nothing |
| Descriptors.Port.Recycle | core/rmnet_descriptor.c:69-94 | the descriptor is on the free list once, also when it already was; its page references are dropped |
| Descriptors.RecycleFree | core/rmnet_descriptor.c:76-93 | recycling keeps the free list duplicate free, counting a descriptor that was on it only once |
| Descriptors.Port.PoolCount | core/rmnet_descriptor.c:41-94 | pool_size is the free list plus the descriptors handed out, in every valid state |
| Descriptors.Port.PageCount | core/rmnet_descriptor.c:69-137 | each page has the references of others plus one per live fragment on it |
| Descriptors.Port.Pull | core/rmnet_descriptor.c:97-137 | succeeds exactly below the length and then drops that byte prefix; otherwise the descriptor goes back to the pool |
| Descriptors.Port.Trim | core/rmnet_descriptor.c:140-187 | keeps the byte prefix of the given length, never grows, and recycles at zero |
| Descriptors.Port.RangeExact | core/rmnet_descriptor.c:198-200 | the 32-bit range check rejects exactly the ranges outside the flat bytes |
| Descriptors.Port.CopyData | core/rmnet_descriptor.c:190-222 | returns bytes [off, off+len) of the flat packet exactly when they exist |
| Descriptors.Port.HeaderPtr | core/rmnet_descriptor.c:224-261 | same bytes whether the header sits in one fragment or spans several |
| Descriptors.Port.AddFrag | core/rmnet_descriptor.c:264-281 | appends one fragment and takes one page reference, or fails without effect |
| Descriptors.Port.AddFragsFrom | core/rmnet_descriptor.c:284-321 | appends exactly the bytes [off, off+len) of the other descriptor; fails only out of range or on allocation |
| ExtensionHeaders.WalkFrom | core/rmnet_descriptor.c:324-368 | a recursive walk by section 4 of RFC 8200 and section 2.2 of RFC 4302; it never moves back, and ends on an extension header only at a non-first fragment |
| ExtensionHeaders.SkipExtHdr | core/rmnet_descriptor.c:324-368 | the loop ends on every byte string and its result is the recursive walk of the flat bytes |
| ExtensionHeaders.WalkIsLocal | core/rmnet_descriptor.c:324-368 | the result does not depend on bytes behind the transport header found |
| BuiltHeaders.WalkBuilt | core/rmnet_descriptor.c:324-368 | over any chain of extension headers written from their fields the walk ends at the transport header, or at the first header of a later fragment |
| Frames.PagedLen | core/rmnet_descriptor.c:591-631 | an accepted frame is longer than its MAP header and within the stream |
| Frames.FramesPartition | core/rmnet_descriptor.c:561-682 | the frames and the unread rest are a partition of the stream, and the rest holds no further frame |
| Frames.PagedEqualsLinear | core/rmnet_map_data.c:340-403 | on a QMAPv5 stream both deaggregators yield the same frames if and only if every frame met is one both measure alike |
| Frames.CutsDiffer | core/rmnet_descriptor.c:619-627 | a stream with an unknown second header, cut into five bytes by one and nine by the other |
| Downlink.StreamCut | core/rmnet_descriptor.c:591-682 | any stream of commands, packets with padding, coalesced frames and QMAPv4 trailers, written field by field, is cut back into its frames with nothing left |
| Downlink.StreamCutLinear | core/rmnet_map_data.c:340-403 | the linear deaggregator cuts the same frames, unless one is coalesced or its second header is not announced by the format |
| Frames.DanglingStream | core/rmnet_descriptor.c:612-618 | a stream that ends behind its MAP header and makes the paged deaggregator leak when nothing is behind it |
| Frames.AloneLeaks | core/rmnet_descriptor.c:612-618 | an skb without frag_list leaks a descriptor if and only if its unread rest is a MAP header that dangles |
| Frames.ChainLeaks | core/rmnet_descriptor.c:584-618 | in a chain a dangling header need not leak, and a header split between two skbs may although nothing dangles |
| Frames.BehindNested | core/rmnet_descriptor.c:584-618 | where each skb->len counts its frag_list, what can be read behind an skb is the whole rest of the chain |
| Deaggregation.ReadHeader | core/rmnet_descriptor.c:574-590 | the MAP header is the first four bytes that can be read, contiguous or not, the next skb of the chain included |
| Deaggregation.MeasureExtra | core/rmnet_descriptor.c:603-631 | the second header is measured by its type byte wherever that lies, and not at all exactly where it cannot be read |
| Deaggregation.Fill | core/rmnet_descriptor.c:633-657 | bytes moved into the descriptor and bytes left in the skb are together what was unread before |
| Deaggregation.DeaggregateOne | core/rmnet_descriptor.c:561-666 | on success exactly the first frame of the unread bytes was moved, also when 0 is returned; on failure no frame was there or an allocation failed, and a descriptor leaks exactly where the type byte is missing |
| Deaggregation.Deaggregate | core/rmnet_descriptor.c:668-682 | for every fragmentation the descriptors hold the frames of the flat stream in order; the loop ends; one descriptor leaks exactly where a header can be read and its type byte cannot, with any bytes behind on the frag_list |
| Coalesced.CutupIsRun | core/rmnet_descriptor.c:1257-1278 | cutting a merged segment into gso_size pieces gives back the merged packets with their sequence numbers |
| Coalesced.ChainPayloads | core/rmnet_descriptor.c:958-983 | segments that tile the payload concatenate to exactly its first data_offset bytes |
| Coalesced.BalancedMerge | core/rmnet_descriptor.c:1275-1277 | merging one more good packet keeps emitted, merged and remaining packets equal to the whole frame |
| Coalesced.BalancedSingle | core/rmnet_descriptor.c:1246-1274 | emitting one packet by itself keeps that balance |
| Splitter.ReadMeta | core/rmnet_descriptor.c:986-1037 | sequence number, flag clearing, IPv4 id and checksum flag of a segment are those of its place in the frame |
| Splitter.SegmentData | core/rmnet_descriptor.c:951-1052 | appends a descriptor for exactly the next segment, or nothing and leaves all as it was |
| Splitter.Job.InvEmit | core/rmnet_descriptor.c:1038-1047 | emitting a segment keeps the list a tiling of the payload up to data_offset |
| Splitter.GroPacket | core/rmnet_descriptor.c:1257-1278 | one packet in GRO mode keeps the split on track, good or bad |
| Splitter.PlainPacket | core/rmnet_descriptor.c:1246-1255 | one packet in per-packet mode keeps the split on track and packet k at IPv4 id base plus k while nothing was lost |
| Splitter.IdsKeptNext | core/rmnet_descriptor.c:1246-1255 | packets before the first lost one keep their ids base plus k, whatever is lost after them |
| Splitter.SplitPacket | core/rmnet_descriptor.c:1238-1279 | the loop invariant of both modes: tiling, no packet lost, ids |
| Splitter.SplitAll | core/rmnet_descriptor.c:1231-1291 | whatever fails, the segments tile the payload and in per-packet mode those before the first loss carry id base plus k; with nothing failed they expand to exactly the packets of the frame in either mode |
| Segmentation.CheckNlos | core/rmnet_descriptor.c:1366-1382 | returns the packed error field exactly when no running 8-bit total exceeds the limit |
| Segmentation.CheckCoalHeader | core/rmnet_descriptor.c:1344-1397 | accepts exactly the frames whose header is complete, has one to six NLOs and passes the packet limit |
| Segmentation.MaskBit | core/rmnet_descriptor.c:1366-1374 | packet k is looked up in bit k mod 8 of bitmap k div 8, whatever the packet counts |
| Segmentation.CountsExact | core/rmnet_descriptor.c:1377-1381 | an accepted header promises at most 48 packets if and only if every count is at most 207 |
| Segmentation.CountsWrap | core/rmnet_descriptor.c:1377-1381 | a header that is accepted and promises 256 packets |
| Segmentation.ReadIp | core/rmnet_descriptor.c:1123-1180 | the network header fields depend on the flat bytes only |
| Segmentation.ReadHeaders | core/rmnet_descriptor.c:1182-1212 | the same for the transport header; anything else is dropped |
| Segmentation.RunIsPackets | core/rmnet_descriptor.c:1221-1229 | one run of good packets is the frame's packets if and only if no packet of it is marked bad |
| Segmentation.Dispatch | core/rmnet_descriptor.c:1205-1292 | the list made by any of the three ways describes the frame, and nothing else in the pool changed |
| Segmentation.SegmentCoalData | core/rmnet_descriptor.c:1092-1292 | the same from the raw frame on, with every parse failure yielding nothing |
| Segmentation.ModesAgree | core/rmnet_descriptor.c:1216-1291 | for well-formed frames GRO, per-packet and fast-forward mode expand to the same list of payload, sequence number and checksum flag; a lone distrusted packet is the same in all modes if and only if its software verdicts are |
| BuiltHeaders.ParsesBuilt | core/rmnet_descriptor.c:1123-1212 | headers written from their fields are parsed as written, options and extension headers included; IPv6 fragments are turned away |
| BuiltHeaders.FrameFields | core/rmnet_descriptor.c:985-1037 | sequence number, FIN or PSH, IPv4 id and a missing UDP checksum are what was written |
| BundleSplit.CoalHeaderRead | core/rmnet_map.h:90-112 | every field of a coalescing header is read as it was written, the six number-length objects included |
| BundleSplit.PacketsBuilt | core/rmnet_descriptor.c:1231-1279 | a coalesced frame built from packets stands for exactly these packets |
| BundleSplit.SplitsBuilt | core/rmnet_descriptor.c:1092-1292 | splitting it gives the packets back: payloads, sequence numbers counted from the written one, verdicts, in per-packet mode consecutive ids, FIN and PSH only where nothing follows; the lone distrusted packet and the unexamined fast-forward excepted exactly |
| Ingress.PullAndTrim | core/rmnet_descriptor.c:1515-1523 | removes header and padding exactly; both drop paths give the descriptor back |
| Ingress.ProcessCoalesced | core/rmnet_descriptor.c:1424-1437 | the coalesced descriptor is reused or recycled, never both and never neither |
| Ingress.ProcessNextHdr | core/rmnet_descriptor.c:1400-1469 | outcome for every header type, with failures leaving the descriptor to be recycled a second time |
| Ingress.Classify | core/rmnet_descriptor.c:1476-1525 | commands, unknown endpoints and bad frames deliver nothing; all else what the frame holds |
| Ingress.Deliver | core/rmnet_descriptor.c:939-948 | each listed descriptor is seen once, unchanged, and goes back to the pool |
| Ingress.IngressFrame | core/rmnet_descriptor.c:1476-1558 | one frame delivers what it must and every descriptor it used is back in the pool |
| Ingress.IngressSkb | core/rmnet_descriptor.c:1573-1590 | every frame of one skb delivers what it must; descriptors and page references are conserved but for that leak, with any bytes behind on the frag_list |
| Ingress.FragIngress | core/rmnet_descriptor.c:1564-1598 | the same for every skb of a chain linked by frag_list, each read with the skbs behind it still attached, with the failures of this call alone |
| Downlink.StripDown | core/rmnet_descriptor.c:1476-1525 | of every frame written field by field the stack is to get the payload without headers, padding and trailer, of commands nothing |
| Downlink.DownlinkTrip | core/rmnet_descriptor.c:1564-1598 | whatever frames the modem sends and however they are fragmented: with nothing failed each packet reaches the stack as sent, coalesced ones as the packets they were built from, and the pool is as before |
| Framing.Skb.AddMapHeader | core/rmnet_map_data.c:294-332 | header fields and zero padding to a multiple of four; fails only for want of tail room |
| Framing.Skb.PushOffload | core/rmnet_map_data.c:504-556 | pushes the csum-offload header where the format has one |
| Framing.OffloadBits | core/rmnet_map_data.c:504-556 | type, checksum and priority bits of the header are where the structure has them |
| Framing.WirePadded | core/rmnet_map_data.c:311-329 | padding is zeros up to a multiple of four, and none where not asked for |
| Framing.Skb.Egress | core/rmnet_handlers.c:324-376 | the wire form of the packet, without padding; refused unchanged for want of head room |
| Framing.Skb.Deaggregate | core/rmnet_map_data.c:340-403 | one step of the linear deaggregation, independent of bytes behind the data |
| Framing.LinearLoop | core/rmnet_handlers.c:303-321 | the loop ends and hands on exactly the frames of the flat stream, or a prefix if an allocation failed |
| Framing.ReceiveLinear | core/rmnet_handlers.c:187-257 | the linear path strips like the paged one, frames of any length included: packets left empty are passed on, and so are frames too short to pull their headers off, with the headers |
| Framing.FramesRoundTrip | core/rmnet_map_data.c:294-403 | framed packets, concatenated, are cut back into the same frames by both deaggregators with nothing left |
| Framing.StripWire | core/rmnet_descriptor.c:1490-1523 | stripping a packet, padded or not, returns mux id and payload, with pad_len removing exactly the pad |
| Framing.FramingExact | core/rmnet_map_data.c:311-329 | a packet survives always without padding, and with padding if and only if it has at most 65532 bytes |
| Framing.FragRoundTrip | core/rmnet_descriptor.c:1564-1598 | any list of packets framed, concatenated, received in any fragmentation and stripped comes out the same, and the pool is as before |
| Framing.LinearRoundTrip | core/rmnet_handlers.c:187-321 | the same list over the linear deaggregator and the linear handler, run frame by frame |
| Framing.AggregateRoundTrip | core/rmnet_map_data.c:1446-1523 | each skb the aggregator puts on the wire deaggregates into the stretch of frames it was made of |
| Aggregator.ConfigureExact | core/rmnet_map_data.c:1525-1555 | for every size of at least a page agg_size becomes the real capacity, despite the 16-bit wrap at order 4 |
| Aggregator.RunConserves | core/rmnet_map_data.c:1249-1523 | over every interleaving: buffers are concatenations of whole packets, detached plus held bytes are the accepted packets in order, and a buffer is held if and only if agg_state is EINPROGRESS |
| Aggregator.CommandFollowsHeld | core/rmnet_map_data.c:1597-1622 | an in-band command is on the wire right behind everything held when it took the lock |
| Aggregator.StepAttendsExact | core/rmnet_map_data.c:1426-1444 | a step leaves a held buffer unattended if and only if it is a cancel due while a buffer is held and no work is queued |
| Aggregator.RunAttendsExact | core/rmnet_map_data.c:1426-1523 | over any run a held buffer always has the timer armed or work queued if and only if no cancel comes late |
| Aggregator.RunAttends | core/rmnet_map_data.c:1426-1523 | with no sender between a detach and its timer cancel, no cancel comes late and a held buffer is always attended |
| Aggregator.GapStalls | core/rmnet_map_data.c:1441-1443 | a run through that gap which leaves a held buffer unattended |
| Aggregator.RunBounded | core/rmnet_map_data.c:1467-1514 | with configurations of at least a page, held bytes never exceed the capacity of their buffer |
| Aggregator.StartFitsExact | core/rmnet_map_data.c:1472-1500 | every send that starts a buffer stays within it if and only if agg_size is at most one above the capacity |
| Aggregator.InitialOverflows | core/rmnet_map_data.c:1557-1569 | under the default configuration a packet of 4094 bytes overflows its buffer unless skb_shared_info takes two bytes or less |
| Aggregator.AggPort.SendAggSkb | core/rmnet_map_data.c:1426-1444 | detaches the held buffer, if any, and stops the timer |
| Aggregator.AggPort.Section | core/rmnet_map_data.c:1446-1523 | one lock section is one step of the machine, and jumps back only after emptying the buffer |
| Aggregator.AggPort.TxAggregate | core/rmnet_map_data.c:1446-1523 | without other senders in between, the packet is accepted exactly once after at most one jump back |
| Aggregator.AggPort.FlushWork | core/rmnet_map_data.c:1249-1272 | the flush work is a step of the machine and leaves nothing held |
| Aggregator.AggPort.TxQmapCmd | core/rmnet_map_data.c:1597-1622 | the command is the last thing on the wire and nothing is held |
| Aggregator.AggPort.UpdateConfig | core/rmnet_map_data.c:1525-1555 | reconfiguration is a step of the machine |
| Aggregator.ConfigureSmall | core/rmnet_map_data.c:1525-1555 | a size below a page is taken as it is, with the buffers left as they are |
| AggregatorLimits.KeptCount | core/rmnet_map_data.c:1505-1514 | a packet kept makes at most agg_count packets held, or one |
| AggregatorLimits.RunLimited | core/rmnet_map_data.c:1446-1523 | over any run without reconfiguration no more are ever held |
| AggregatorLimits.JoinsExact | core/rmnet_map_data.c:1501-1514 | after any run a packet joins the held buffer if and only if it fits, fewer than agg_count are held and the buffer was started at most a millisecond ago; else the buffer is shipped |
| AggregatorLimits.StartsExact | core/rmnet_map_data.c:1468-1500 | with nothing held a packet starts a buffer if and only if it is shorter than agg_size, the last packet came at most ten milliseconds ago and there is a page; else it goes out alone |
| AggregatorLimits.PriorityShips | core/rmnet_map_data.c:1457-1466 | a priority packet goes out alone behind what was held |
| Checksum.Add | core/rmnet_map_data.c:102-103 | csum16_add is addition modulo 65535, and zero only for zeros |
| Checksum.SwapAdd | core/rmnet_map_data.c:842-846 | one's-complement addition commutes with byte swapping |
| Checksum.CompareExact | core/rmnet_map_data.c:105-133 | the corner cases at 0 and 0xFFFF amount to the RFC 1071 test, except that UDP never accepts a zero field |
| Checksum.ValidateV4Exact | core/rmnet_map_data.c:65-134 | IPv4 accepts if and only if transport plus pseudo-header sum is 0 modulo 65535, and skips exactly UDP with field 0 |
| Checksum.ValidateV6Exact | core/rmnet_map_data.c:138-202 | IPv6 accepts if and only if that sum is 0 and it is not UDP with field 0 |
| Checksum.PseudoBytes4 | core/rmnet_map_data.c:98-102 | the pseudo-header sum is that of the bytes RFC 768 lays out |
| Checksum.PseudoBytes6 | core/rmnet_map_data.c:166-171 | the same for the bytes of section 8.1 of RFC 2460 |
| ChecksumWire.BuiltV4 | core/rmnet_map_data.c:65-134 | for an IPv4 packet written from its fields: fragments are not judged, UDP without checksum is skipped, any other is accepted if and only if its fields and payload sum to zero |
| ChecksumWire.BuiltV6 | core/rmnet_map_data.c:138-202 | for an IPv6 packet written from its fields: accepted if and only if they sum to zero and it is not UDP without checksum |
| ChecksumWire.CorruptsField | core/rmnet_map_data.c:842-847 | marking a packet bad writes its checksum field and nothing else |
| Checksum.CorruptedRejected | core/rmnet_map_data.c:842-847 | the corrupted checksum is nonzero and makes the sum 1, never 0 |
| Checksum.CorruptedFailsV4 | core/rmnet_map_data.c:842-847 | the IPv4 validator fails every packet so marked |
| Checksum.CorruptedFailsV6 | core/rmnet_map_data.c:842-847 | so does the IPv6 validator |
| Dfc.Mode.GrantPer | core/qmi_rmnet.c:984-987 | the threshold is at most the grant, and below it for scale factors from 2 on |
| DfcEffects.ThresholdExact | core/qmi_rmnet.c:984-987 | the threshold is the largest amount that fits into the grant as often as the scale factor says |
| Dfc.StepSyncs | core/dfc_qmi.c:918-939 | every handler keeps the data queue running exactly while there is a grant, the ack queue then too, and touches no other queue |
| Dfc.UpdateCredit | core/dfc_qmi.c:964-1034 | after an indication or a query response with rx_bytes, grant plus bytes in flight is the larger of num_bytes and bytes in flight |
| DfcEffects.ResponseFlight | core/dfc_qmi.c:964-987 | a query response takes the reported bytes off those in flight, and these off the new grant |
| DfcEffects.IndicationFlight | core/dfc_qmi.c:1014-1021 | any other update grants in full and counts from zero |
| DfcEffects.FlightExact | core/dfc_qmi.c:964-987 | over any run of sends and responses bytes in flight are what was sent less what was reported received, if and only if never more was reported than sent; else they are more |
| Dfc.SendsCredit | core/dfc_qmi.c:1498-1507 | over any sequence of sends each byte is taken from the grant while it lasts and added to the bytes in flight |
| Dfc.CreditConserved | core/dfc_qmi.c:1498-1507 | grant plus bytes in flight is constant while the queue runs; at the stop less than the last packet went out beyond the grant |
| Dfc.RunGates | core/dfc_qmi.c:1004-1161 | over every run without wildcard updates, rat_switch implies no grant and a watchdog told to quit; in QMI mode tx_off implies no grant |
| Dfc.TxOffExact | core/qmi_rmnet.c:251-266 | the one step that gives a grant to a bearer with TX off is a live watchdog firing on it when its grant is used up |
| Dfc.TxOffBroken | core/qmi_rmnet.c:251-266 | a QMAP run from a new bearer that gets there |
| DfcEffects.SwitchStarts | core/dfc_qmi.c:1004-1012 | a RAT switch starts without grant |
| DfcEffects.SwitchHolds | core/dfc_qmi.c:1004-1012 | whatever comes while it lasts, over any run, the bearer gets no grant |
| DfcEffects.SwitchEnds | core/dfc_qmi.c:1004-1012 | its end gives the grant it names, unless TX is off |
| DfcEffects.TxStops | core/dfc_qmi.c:1132-1161 | TX going off takes the grant, the bytes in flight and the watchdog |
| DfcEffects.TxOffHolds | core/dfc_qmi.c:1013-1016 | in QMI mode nothing but TX going on gives a grant again, over any run |
| DfcEffects.RecoveryProbes | core/dfc_qmi.c:1150-1158 | TX going on or powersave wake lets one packet out, which stops the queue again and in QMAP mode sends one query |
| DfcEffects.NewBearerCredit | core/qmi_rmnet.c:330-346 | a new bearer may send 20480 bytes |
| DfcEffects.CallbackGrants | core/qmi_rmnet.c:241-271 | a live watchdog gives 20480 bytes to a bearer without grant and forgets what was in flight |
| DfcEffects.WakeForgets | core/qmi_rmnet.c:810-843 | powersave wake forgets everything but the grant of a bearer whose TX is off |
| DfcEffects.WildcardIsUpdate | core/dfc_qmi.c:941-962 | a wildcard update is an accepted indication but for gates, flight and watchdog |
| DfcEffects.WatchExact | core/dfc_qmi.c:1036-1049 | an accepted update leaves the watchdog started if and only if a query response left less than a fifth of what it named; else it is off and the threshold is the scale-th part of the grant |
| Dfc.RunWatched | core/qmi_rmnet.c:241-305 | under all races, a started watchdog has its timer armed or its callback on the way and is not told to quit |
| Dfc.RunAlert | core/dfc_qmi.c:1040-1048 | no silent stall: a query went out, or the grant is above its threshold, or the watchdog is started |
| Dfc.UpdateAlertExact | core/dfc_qmi.c:1040-1048 | an update leaves the bearer so if and only if it leaves a grant or is a query response of at least five bytes |
| Dfc.ShortResponseStalls | core/dfc_qmi.c:1040-1048 | a run from a new bearer that ends with no grant, no query and no live watchdog |
| Dfc.SendsQueryOnce | core/dfc_qmi.c:1503-1514 | using up a grant above its threshold sends exactly one query |
| DfcEffects.AckQueueStops | core/dfc_qmi.c:918-939 | when the grant runs out the ack queue stops with the data queue, unless TCP runs both ways |
| DfcEffects.AckQueueStays | core/dfc_qmi.c:918-939 | while there is no grant only wildcard updates touch the queues |
| DfcEffects.QmiAcks | core/dfc_qmi.c:933-936 | in QMI mode a queue that stops where the modem asked for it sends one ack of type 1, a grant that falls to its threshold one of type 2, and nothing else is sent |
| DfcEffects.QmapIndication | core/dfc_qmap.c:166-215 | grant, sequence number and bidirectional flag of an indication end up in the bearer |
| DfcEffects.QmapTxInfo | core/dfc_qmap.c:175-188 | TX information switches TX, whatever the grant |
| DfcEffects.QmapResponse | core/dfc_qmap.c:217-255 | a query response leaves its grant less what is still in flight, and sequence number 0xFFFF; an invalid one does nothing |
| Dfc.QmapEvents | core/dfc_qmap.c:166-255 | the QMAP handlers raise only updates without acknowledgement request, with the query sequence number on responses |
| Dfc.RunUnmarked | core/dfc_qmi.c:1040-1053 | over every QMAP run a live watchdog implies last_seq 0xFFFF and no waiting end marker |
| Dfc.StepConfirms | core/dfc_qmi.c:1029-1051 | a step leaves a waiting end marker alone or confirms it once, and an accepted update always does |
| Dfc.EndMarkerOnce | core/dfc_qmap.c:257-284 | over any run after the request it is confirmed once its grant is used up or it did not wait, and never twice, with its transaction id |
| Dfc.AcceptedAnswers | core/dfc_qmi.c:1029-1051 | over any such run no request waits any more once an update was accepted |
| Dfc.EndMarkerAccepted | core/dfc_qmap.c:257-284 | so the request is confirmed exactly once in every run in which an update was accepted |
| Dfc.ConfirmSeqExact | core/dfc_qmap.c:257-284 | over any run that answers a request, the confirmation carries the requested sequence number if and only if it came at once or the bearer's two sequence numbers agreed |
| Dfc.SeqPartsExact | core/dfc_qmi.c:1152-1158 | the two numbers part if and only if powersave or TX going on wakes a bearer that had seen an update |
| Dfc.WrongConfirmation | core/dfc_qmi.c:933-936 | a run from a new bearer that is asked for sequence number 7 and confirms 0 |
| Qos.NoCollision | core/qmi_rmnet_i.h:21-29 | two bound bearers share no data or ack queue |
| Qos.DropFlowKeeps | core/qmi_rmnet.c:348-379 | putting a bearer keeps binding and queues, freeing all slots with the last reference |
| Qos.TakeSlotSync | core/qmi_rmnet.c:381-410 | taking a slot sets its queues by the grant and disturbs no other bearer |
| Qos.InsertFlowKeeps | core/qmi_rmnet.c:481-502 | binding a flow keeps reference counts, unique ids and keys, and slot ownership |
| Qos.DelKeeps | core/qmi_rmnet.c:512-555 | deleting a flow keeps the invariant, also where it wakes every queue |
| Qos.AddKeeps | core/qmi_rmnet.c:433-509 | adding, rebinding and moving a flow keep the invariant |
| Qos.QosStepKeeps | core/qmi_rmnet.c:311-578 | every operation keeps binding and queue synchrony |
| Qos.ReachableKeeps | core/qmi_rmnet.c:311-578 | in every reachable SA-mode state: reference counts, unique ids and keys, sole ownership of mq_idx, no removed bearer, and each owned data queue running if and only if there is a grant |
| QosRuns.ReachableHealthy | core/dfc_qmi.c:1004-1161 | over every run of operations without wildcard updates: gating and watchdogs of every bearer, and in scope also end-marker discipline and no silent stall |
| QosRuns.ModemSuits | core/dfc_qmap.c:166-255 | whatever single-bearer commands the modem sends keep end-marker discipline |
| QosRuns.QmapRuns | core/dfc_qmap.c:166-300 | in every state of every QMAP run from the initial one, on every bearer a live watchdog rules out a waiting end marker |
| QosRuns.MarkerOnce | core/dfc_qmap.c:257-284 | the end marker with all other bearers, flows and timers interleaved: its bearer confirms it never twice, and exactly once where it did not wait or its grant is used up |
| QosRuns.MarkerAccepted | core/dfc_qmap.c:257-284 | the same run confirms it exactly once if its bearer accepted an update in it |
| QosSlots.SingleSynced | core/qmi_rmnet.c:381-410 | if no bearer owns a second slot, every owned slot's queue follows the grant |
| QosSlots.SlotsSyncedExact | core/dfc_qmi.c:918-939 | every operation but an addition keeps the queues of all owned slots in step with the grants if and only if no bearer owns a second slot |
| QosSlots.RunSingleExact | core/qmi_rmnet.c:311-578 | over any run no bearer owns a second slot if and only if no addition gives one |
| QosSlots.ReachableSynced | core/qmi_rmnet.c:311-578 | in every state such a run reaches, every owned slot's queue runs if and only if its owner has a grant |
| QosSlots.StaleQueue | core/qmi_rmnet.c:381-410 | a run from the initial state that leaves a queue running for an owner without grant |
| QosSlots.ForgottenSlot | core/qmi_rmnet.c:381-410 | no handler of any bearer changes the queue of a slot its owner has moved on from |
| QosSlots.AddSingleExact | core/qmi_rmnet.c:381-410 | an addition gives a bearer a second slot if and only if it is bound and the slot is free |
| QosSlots.OthersSingle | core/qmi_rmnet.c:311-578 | no other operation does |
| QosSlots.ControlledOwns | core/qmi_rmnet.c:912-944 | a flow on the slot its bearer controls is on a slot its bearer owns, and its queue runs if and only if the bearer has a grant |
| QosSlots.FlowSyncedExact | core/qmi_rmnet.c:912-944 | with no flow added or deleted, the queue of a flow follows the grant of its bearer over every run if and only if the bearer owns and controls the flow's slot |
| QosSlots.StrandedFlow | core/qmi_rmnet.c:412-431 | a run from the initial state in which a rebind leaves a flow on a stopped queue that nobody owns, although its bearer has a grant |
| QosSlots.StrandedStays | core/qmi_rmnet.c:348-431 | no handler of any bearer wakes that queue |
| FlowTable.RunTable | core/qmi_rmnet.c:433-555 | over every run the flows are the table of its additions and deletions: one bearer and queue per key |
| FlowTable.DelQueues | core/qmi_rmnet.c:348-379 | deleting the last flow of a bearer frees its slots and runs the queue and the ack queue of each; all others stay as they were |
| FlowTable.DelLastWakes | core/qmi_rmnet.c:547-548 | with the last flow gone every queue runs |
| FlowTable.AddQueues | core/qmi_rmnet.c:381-431 | adding a flow or moving it to another bearer: slots given up are not woken, the slot asked for is taken if it is then free, and both its queues run exactly if the bearer has a grant |
| FlowTable.MoveIsDelAdd | core/qmi_rmnet.c:470-478 | another queue under the same bearer is a deletion and an addition |
| FlowTable.WakeAllGrants | core/qmi_rmnet.c:810-843 | powersave wake gives every bearer whose TX is on a grant of one byte and runs its queue |
| FlowTable.UnknownConfirmed | core/dfc_qmap.c:274-280 | an end marker for an unknown bearer is confirmed at once and changes nothing else |
| FlowTable.StatusLands | core/dfc_qmi.c:999-1001 | a flow status reaches the bearer with its id, created where there is none |
| FlowTable.BroadcastOps | core/dfc_qmi.c:1117-1124 | bearer id 255 stands for all bearers, in a flow status alone |
| QosHandlers.QosInfo.BearerFlowCtl | core/dfc_qmi.c:918-939 | queues and messages as the step says |
| QosHandlers.QosInfo.AdjustGrant | core/dfc_qmi.c:964-987 | reported bytes are taken off those in flight, and these off the grant, neither below zero |
| QosHandlers.QosInfo.UpdateFcMap | core/dfc_qmi.c:989-1062 | refines the update step and keeps the invariant, creating the bearer where it is missing |
| QosHandlers.QosInfo.AllBearerFlowCtl | core/dfc_qmi.c:941-962 | the loop refines the wildcard step of every bearer |
| QosHandlers.QosInfo.UpdateTxLink | core/dfc_qmi.c:1132-1161 | refines the TX-link step and keeps the invariant |
| QosHandlers.QosInfo.BurstCheck | core/dfc_qmi.c:1478-1521 | refines the send step of the flow's bearer and keeps the invariant |
| QosHandlers.QosInfo.AddWatchdog | core/qmi_rmnet.c:277-288 | arms the timer unless the watchdog counts as started |
| QosHandlers.QosInfo.RemoveWatchdog | core/qmi_rmnet.c:294-305 | disarms it only if it does, and cannot stop a callback under way |
| QosHandlers.QosInfo.WatchdogFn | core/qmi_rmnet.c:241-271 | refines the callback step and keeps the invariant |
| QosHandlers.QosInfo.EnableAllFlows | core/qmi_rmnet.c:810-843 | the loop refines the wake step of every bearer and keeps the invariant |
| QosHandlers.QosInfo.SetEndMarker | core/dfc_qmap.c:257-284 | refines the end-marker step, confirming at once where no bearer matches |
| QosHandlers.QosInfo.BurstFlowControl | core/dfc_qmi.c:1064-1130 | refines the step of one bearer, or of all for bearer id 0xFF |
| QosHandlers.QosInfo.HandleIndication | core/dfc_qmap.c:166-215 | refines the step of a QMAP indication, TX information taking the place of the grant |
| QosHandlers.QosInfo.HandleResponse | core/dfc_qmap.c:217-255 | refines the step of a QMAP query response, and drops invalid ones |
| QosHandlers.QosInfo.BearerGet | core/qmi_rmnet.c:321-346 | finds the bearer of this id or creates the only one |
| QosHandlers.QosInfo.FreeSlots | core/qmi_rmnet.c:356-373 | the loop frees exactly the bearer's slots, and with a reset both queues of each run afterwards |
| QosHandlers.QosInfo.BearerPut | core/qmi_rmnet.c:348-379 | drops one reference; with the last, list, slots and the removed slot change together |
| QosHandlers.QosInfo.UpdateMq | core/qmi_rmnet.c:381-410 | takes a free slot and sets both its queues by the grant |
| QosHandlers.QosInfo.RebindFlow | core/qmi_rmnet.c:412-431 | put, get and update in the driver's order amount to dropping the flow and inserting it anew |
| QosHandlers.QosInfo.AddFlow | core/qmi_rmnet.c:433-509 | refines the adding step, the jump back after a deletion included, and keeps the invariant |
| QosHandlers.QosInfo.DelFlow | core/qmi_rmnet.c:512-555 | refines the deleting step and keeps the invariant; nothing waits to be freed afterwards |

## Left out

- Segmentation.Dispatch: a TCP frame whose data offset points past its end is dropped in one step, not once per packet, because copying its headers fails each time; the verdict of the software checksum on a lone suspicious packet is an arbitrary value.
- Segmentation.ReadIp: the version byte is read through the flat packet; the driver reads it from the first fragment, which could differ only for a fragment of length zero at the front.
- Framing.ReceiveLinear: coalesced frames are handed on or dropped as such; their segmentation on the linear path (`rmnet_map_segment_coal_skb`), the same algorithm over skbs, is not modelled a second time.
- Framing.Skb.PushOffload: only the two flag bits of the header are modelled, not the choice of packets that qualify for checksum offload; the V4 uplink header is not modelled, and the round trip does not cover the priority format without checksum offload, whose header is not announced in the MAP header.
- Ingress.FragIngress: skbs without linear head, whose frag_list holds one skb each and no siblings on its next pointer; the rmnet_perf hooks, MAP commands and the skb built from a descriptor for delivery are not modelled.
- Downlink.DownlinkTrip: one skb with nothing on its frag_list (Ingress.FragIngress has the chains); second headers of unknown type are not written, they are dropped or cut as `Frames.PagedEqualsLinear` says.
- DfcEffects.FlightExact: runs that bring 2^32 bytes in flight or more are excluded; `Dfc.SendsCredit` has the wrap.
- Aggregator.AggPort.TxAggregate: states nothing about other senders between the jump back and the next lock; the run theorems allow them.
- Dfc.RunGates: wildcard updates are excluded, since `dfc_all_bearer_flow_ctl` asks no gate.
- Dfc.EndMarkerOnce: a second request, powersave wake, wildcard update and removal of the bearer in between are excluded; so they are in QosRuns.MarkerOnce.
- Qos.ReachableKeeps: SA mode only; failed allocations of flows, bearers and messages are not modelled, nor is the moment between unlocking and `qmi_rmnet_bearer_clean` in which a callback of the removed bearer may still run.
- Checksum.ValidateV4Exact: sums are folded from unbounded integers, not from 32-bit partial sums, and a packet shorter than its checksum field is outside the model.
- Aggregator.RunConserves: the order in which threads reach `dev_queue_xmit` after unlocking is not modelled, only the order of the lock sections; page recycling is an arbitrary allocation result.
- The powersave scheduler, `qmi_rmnet_ignore_grant`, QMI message plumbing, `rmnet_ctl`, netlink configuration, virtual devices and statistics are not part of this model.
