# Verified models of the router's protocol code

A Dafny model of the parts of this show-control router in which a mistake would
not show in one function alone, with proofs of what they are for. Each part has
its own modules:

- **PosiStageNet frames** (`PsnDefs`, `PsnPacking`, `PsnEncoder`, `PsnDecoder`,
  `PsnRoundTrip`, `PsnRecovery`, `PsnReading`). The encoder writes into a 1500-byte buffer,
  backtracks when a tracker does not fit and patches lengths and the packet count
  afterwards. The decoder collects packets and commits a frame at once. Both are
  imperative and proved against byte-level functions, about which the round trip
  is proved.
- **Art-Net firmware transfer** (`Firmware`, `FirmwareNodes`), **DMX merge**
  (`DmxMerge`, `DmxTimeouts`, `DmxPorts`) and **peer rings** (`PeerRing`, on real linked nodes).
- **sACN merge** (`SacnMerge`, `SacnReceiver`, `SacnEngine`, `SacnHistory`): a lazily refreshed
  cache of a per-channel priority arbitration (section 6.2.3 of ANSI E1.31-2018,
  with per-channel priorities as an extension).
- **MIDI input queue** (`MidiQueue`): one producer and one consumer thread whose
  accesses to the shared ring interleave freely.
- **OTP** (ANSI E1.59; `OtpText`, `OtpWire`, `OtpMessage`, `OtpWriter`, `OtpReader`,
  `OtpRoundTrip`, `OtpReading`, `OtpNames`, `OtpConsumer`, `OtpProducer`, `OtpExchange`): nested
  layers with back-patched lengths, the consumer's merge, the producer's interest cache,
  and a point's way from one to the other.
- **Routing index** (`RouteIndex`) and **path templates** (`SendPath`,
  `SendPathRefines`, `SendPathTexts`, `Decimal`).
- **Configuration file** (`ConfigText`, `ConfigFile`, `ConfigReading`,
  `ConfigRoundTrip`, `ConfigPrint`, `ConfigStore`).

`Basics` has the types that all share, `OrderedKeys` the iteration order of the
ordered containers. Classes and methods follow the source's own steps; the
functions they are proved against carry the results about all inputs, all runs
and all interleavings.

## What the code does that its documentation does not say

- A PosiStageNet map that needs 256 packets or more is never received whole,
  because the packet count is one byte.
- When a packet of a PosiStageNet frame was lost, the trackers already received
  survive into the next frame although its sender has dropped them: the way out
  for missed packets commits them but does not clear them.
- A firmware of more than 512 words whose length is a multiple of 512 arrives
  completely but is never acknowledged with ALLGOOD, because its last block is
  sent as a continued one. A firmware of one packet is acknowledged, but the
  receiver's record stays taken, and its handler is told the size in bytes where
  it is otherwise told words.
- The comment above `handle_dmx` has a table in which a port whose second slot
  alone is taken starts to merge with a new address. The code discards the packet.
  It also decides on addresses copied before timeouts are applied.
- `artnet_join` returns `ARTNET_ESTATE` when it succeeds, where its comment
  promises 0 (the return value is not modelled beyond whether the join took
  place). Joining two nodes of one ring leaves the ring as it was.
- An sACN packet with a start code other than the two handled ones inserts a
  source universe without marking it dirty, so that the cache can go stale, also
  when other sources carry the universe (`SacnMerge.OtherStartCodesIff`).
- An OTP datagram is never read as more than one point, because the module loop
  runs to the end of the datagram. A point received again unchanged is not
  renewed, so its holder can lose it to a lower priority while still being heard.
- OTP name adverts are written with a length in front of every name and read
  without one, and are written as requests even when they answer one.
- A template rewrite with an inserted text shorter than its number skips
  characters of the rest of the template. With an inserted "%" it need not end.
- A route or connection labelled "Settings" overwrites the settings when the file
  is loaded again, and a variable whose name holds a mark such as "%1" is not
  printed as it is.

## Model

| member | source | states |
|---|---|---|
| PsnDefs.HeaderRoundTrip | psn/psn_defs.hpp:157-164 | the packed chunk header (16-bit id, 15-bit length, sub-chunk flag) decodes to what was encoded and leaves the bytes behind it alone |
| PsnPacking.FitIsMaximal | psn/psn_encoder_impl.hpp:148-179 | the trackers put into one packet fit in 1500 bytes, and one more would not |
| PsnPacking.PackIsGreedyPartition | psn/psn_encoder_impl.hpp:130-184 | every id is in exactly one packet, in ascending order, no packet is empty or over 1500 bytes, and every packet but the last is full and holds at least 14 trackers |
| PsnPacking.PackCount | psn/psn_encoder_impl.hpp:130-184 | at most 14 k trackers need at most k packets |
| PsnPacking.GreatestPack | psn/psn_encoder_impl.hpp:130-184 | n trackers that have all seven fields need exactly (n + 13) / 14 packets |
| PsnEncoder.ListBytesSize | psn/psn_encoder_impl.hpp:152-179 | the length summed up for the tracker list is the number of bytes of its trackers |
| PsnEncoder.FillChunkHeader | psn/psn_encoder_impl.hpp:195-211 | a header is appended if four bytes are left; otherwise the buffer and the cursor are as before |
| PsnEncoder.PatchLength | psn/psn_encoder_impl.hpp:176-181 | patching a length afterwards changes that header only: what is in front of it and behind it stays |
| PsnEncoder.FillTrackerField | psn/psn_encoder_impl.hpp:237-256 | a field is appended exactly if header and value fit; a failure leaves everything in front of the cursor intact |
| PsnEncoder.FillTrackerFields | psn/psn_encoder_impl.hpp:164-174 | the fields that are set are appended in order of their number, or nothing in front of the cursor has changed |
| PsnEncoder.FillTracker | psn/psn_encoder_impl.hpp:154-177 | one tracker chunk whose length covers exactly its fields, or a failure that backtracking undoes |
| PsnEncoder.AppendTracker | psn/psn_encoder_impl.hpp:148-179 | the list chunk in the buffer stays well formed over one turn of the loop, its length covering exactly the trackers taken, also after backtracking |
| PsnEncoder.FillTrackerList | psn/psn_encoder_impl.hpp:148-179 | the loop stops exactly at the first tracker that does not fit, with a well-formed list chunk of the trackers before it |
| PsnEncoder.EncodePacket | psn/psn_encoder_impl.hpp:130-184 | one packet: main, header and list chunk lengths cover exactly their contents, and the iterator has moved past the trackers taken |
| PsnEncoder.ApplyCount | psn/psn_encoder_impl.hpp:186-189 | writing the packet count changes that byte of the header and nothing else |
| PsnEncoder.Encoder.EncodeData | psn/psn_encoder_impl.hpp:119-192 | for every map the call ends and yields the packets of the greedy partition, each stating the frame id and the number of packets modulo 256 |
| PsnDecoder.Decoder.Decode | psn/psn_decoder_impl.hpp:46-66 | the committed data, the pending data and the packet count after any packet whatever, and for a data packet whether it was read to its end |
| PsnDecoder.Decoder.DecodeData | psn/psn_decoder_impl.hpp:145-168 | children are read, then the count is compared with that of the header and the frame committed when it is reached |
| PsnDecoder.Decoder.DecodeDataHeader | psn/psn_decoder_impl.hpp:171-189 | a header of another frame in mid-frame commits what is there, then the new header counts |
| PsnDecoder.Decoder.DecodeDataChildren | psn/psn_decoder_impl.hpp:257-280 | the loop over children: it runs to the stated length and stops where a header or a child cannot be read |
| PsnDecoder.DecodeTrackerList | psn/psn_decoder_impl.hpp:192-201 | trackers are replaced one by one by what their chunks say |
| PsnDecoder.DecodeTracker | psn/psn_decoder_impl.hpp:204-228 | fields are set by number, unknown ones skipped, and a field cut short is set to zeros and ends the tracker |
| PsnRoundTrip.TrackerRoundTrip | psn/psn_decoder_impl.hpp:204-228 | the field mask and every field value of a tracker come back |
| PsnRoundTrip.ListRoundTrip | psn/psn_decoder_impl.hpp:192-228 | reading a written list adds exactly its trackers to those pending |
| PsnRoundTrip.PacketReceived | psn/psn_decoder_impl.hpp:145-189 | a packet of the frame under way adds its trackers and commits them if it completes the count |
| PsnRoundTrip.AnyOrderRoundTrip | psn/psn_decoder_impl.hpp:160-189 | for every permutation of the packets of one call, nothing is committed before the last one and then exactly the encoded map, and the decoder is between frames again |
| PsnRoundTrip.TooManyPackets | psn/psn_encoder_impl.hpp:186-189 | from 256 packets on the count byte has wrapped: nothing is committed before as many packets as it says, and from then on the whole map is not what is committed, after any packet of the frame |
| PsnRoundTrip.RoundTripIff | psn/psn_decoder_impl.hpp:145-227 | the encoded map is what is committed at the end if and only if the call yields at most 255 packets |
| PsnRoundTrip.SmallMapsRoundTrip | psn/psn_encoder_impl.hpp:130-184 | a map of up to 3570 trackers always comes back |
| PsnRoundTrip.CompleteMapsComeBackIff | psn/psn_encoder_impl.hpp:130-192 | of the maps of n trackers with all seven fields exactly those up to 3570 come back, so the bound is sharp and greater maps are lost |
| PsnReading.HeaderIsBitField | psn/psn_defs.hpp:157-164 | a chunk header is the little-endian number with the id in 16 bits, the length in 15 and the flag on top |
| PsnReading.AnyFieldRead | psn/psn_decoder_impl.hpp:204-254 | a field of any sender: unknown ones are skipped, known ones take as many bytes as their type has, and one that the packet ends in becomes zeros and ends the tracker |
| PsnReading.AnyTrackerRead | psn/psn_decoder_impl.hpp:192-228 | a tracker of any sender replaces the one that was there, its position being zero until it is read |
| PsnReading.ListEnds | psn/psn_decoder_impl.hpp:192-228 | a list or tracker ends where its length does, or fails where the packet does |
| PsnReading.AnyChildRead | psn/psn_decoder_impl.hpp:145-189 | a child of a data packet of any sender: header, tracker list, or skipped |
| PsnReading.AnyPacketRead | psn/psn_decoder_impl.hpp:46-168 | any datagram: only data packets matter, and when the frame is committed after one |
| PsnReading.HeaderComesBack | psn/psn_encoder_impl.hpp:119-192 | whatever the order of the packets, the committed header has the timestamp sent, version 2.0, the frame id and the number of packets |
| PsnRecovery.FrameInMidFrame | psn/psn_decoder_impl.hpp:171-189 | a frame that begins while another is incomplete is committed on top of the trackers that were pending |
| PsnRecovery.RecoveryIff | psn/psn_decoder_impl.hpp:145-189 | after a frame that lost packets the next whole frame leaves the decoder between frames, and is committed exactly as sent if and only if every tracker received of the broken frame is in it too |
| PsnRecovery.DuplicatesIff | psn/psn_decoder_impl.hpp:145-189 | for any choice, with repetitions, of as many packets as a frame of up to 255 has, the frame is committed as sent if and only if every packet was chosen once |
| Firmware.UploadOutcome | artnet/transmit.c:272-352 | what every upload to an idle receiver ends in: one packet, complete with ALLGOOD, or stalled when the length is a larger multiple of 512 words |
| Firmware.UploadSucceedsIff | artnet/receive.c:527-741 | ALLGOOD and delivery of exactly the sender's words if and only if the firmware has at most 512 words or is no multiple of 512 |
| Firmware.RefusedIff | artnet/receive.c:527-690 | a packet is answered with FAIL, and then changes nothing, if and only if it is neither a first packet for an idle receiver nor a packet of the transfer under way |
| Firmware.OthersChangeNothing | artnet/receive.c:527-690 | a transfer under way survives any number of packets of others |
| Firmware.RepliesOutOfTurn | artnet/receive.c:695-741 | FAIL ends the transfer of the sender; replies out of turn do nothing |
| Firmware.UploadRefused | artnet/receive.c:537-598 | an upload to a receiver in a transfer ends with FAIL on both sides and leaves the receiver as it was |
| Firmware.ContinueBlock | artnet/receive.c:600-632 | the 8-bit block number and the expected block stay in step past block 255: the right 512 words are stored and acknowledged |
| Firmware.LastBlock | artnet/receive.c:634-689 | the last block completes the buffer to the sender's data and delivers it |
| Firmware.FromBlock | artnet/receive.c:695-741 | from any block on the lock-step exchange ends, complete or stalled as the length says |
| FirmwareNodes.SenderEntry.SendFirmware | artnet/artnet.c:849-897 | the transfer record as set up and then advanced by the first packet, which is sent |
| FirmwareNodes.SenderEntry.TxFirmwarePacket | artnet/transmit.c:272-352 | type, block number, length and the zero-padded words of the next packet, and the advanced record |
| FirmwareNodes.SenderEntry.HandleFirmwareReply | artnet/receive.c:695-741 | what each of the three replies does to the record, and the packet sent in answer |
| FirmwareNodes.ReceiverNode.HandleFirmware | artnet/receive.c:527-690 | the receiver's record, buffer, deliveries and reply for every packet from anyone |
| FirmwareNodes.ReceiverNode.HandleFirst | artnet/receive.c:537-598 | a first packet: a new buffer and record unless a transfer is running |
| FirmwareNodes.ReceiverNode.HandleCont | artnet/receive.c:600-632 | a continued block is stored at its offset in place, or refused with nothing changed |
| FirmwareNodes.ReceiverNode.HandleLast | artnet/receive.c:634-687 | a last block is stored, delivered and the record freed, or refused with nothing changed |
| FirmwareNodes.RunUpload | artnet/receive.c:527-741 | the two imperative halves run against each other end and reach the outcome of the exchange |
| DmxMerge.NewSourceTakenIff | artnet/receive.c:141-219 | a packet from an address in neither slot is taken exactly when the second slot was free before the timeouts were looked at; otherwise only the timeouts act |
| DmxMerge.TruthTableDiffers | artnet/receive.c:108-137 | a port with only its second slot taken discards a third address, although the table in the source says that it starts to merge |
| DmxMerge.OutputAfter | artnet/receive.c:141-207 | each output channel after a packet, in all cases in which it is taken |
| DmxMerge.SlotsStayDistinct | artnet/receive.c:85-231 | over every run of packets and timeouts the two slots never hold the same address |
| DmxMerge.ThirdAddressesChangeNothing | artnet/receive.c:85-231 | while both sources stay alive, any number of packets from other addresses leave the whole port as it was |
| DmxMerge.OutputIsMaximumWhereCovered | artnet/receive.c:891-902 | with HTP and packets of any length: each channel that some packet of the present merge has reached is the maximum of the two slots |
| DmxMerge.OutputIsMaximumOfLastFrames | artnet/receive.c:891-902 | with HTP and full packets: whenever both slots are taken the output is the channel-wise maximum of the last frames received from their two addresses |
| DmxTimeouts.SlotsAfter | artnet/receive.c:85-231 | who holds the slots after any packet, with which frames and times: a slot whose source was silent for more than ten seconds is free, each by itself, unless the packet takes it |
| DmxTimeouts.SlotsAreTimed | artnet/receive.c:139-226 | over every run the time of a slot is that of the last packet of its source |
| DmxTimeouts.SilentSourceLeaves | artnet/receive.c:867-885 | over every run: once all others have been silent for more than ten seconds, the second packet of a source from then on and all later ones go out unmerged |
| DmxTimeouts.RoomIff | artnet/receive.c:141-219 | a new source is let in exactly when the second slot was free, which a packet of anyone leaves it when its source was silent |
| DmxPorts.OutputPort.HandleDmx | artnet/receive.c:139-226 | the arrays and fields of a port, written in place, after a packet |
| DmxPorts.OutputPort.CheckMergeTimeouts | artnet/receive.c:867-885 | each slot is freed if it is older than ten seconds, by itself, and otherwise keeps its address |
| DmxPorts.OutputPort.MergeInto | artnet/receive.c:891-902 | the loop that merges: maximum or latest over the packet's length, other channels unchanged |
| DmxPorts.HandleDmxPacket | artnet/receive.c:95-229 | every enabled port of the universe takes the packet and no other port changes |
| PeerRing.FindLast | artnet/artnet.c:363 | the search for the end of the second ring ends, at the first node if both are in one ring |
| PeerRing.Splice | artnet/artnet.c:361-364 | relinking two nodes and the found end gives one cycle of both rings |
| PeerRing.MakeMaster | artnet/artnet.c:366-370 | the walk ends and leaves the first node the only master of the ring |
| PeerRing.Join | artnet/artnet.c:347-373 | a join makes one ring of the two with the first node as its only master, or changes nothing at all when a node is on |
| PeerRing.JoinNodes | artnet/artnet.c:347-373 | in a world of disjoint rings: the blocks of the two nodes become one, every other ring is untouched |
| PeerRing.JoinAll | artnet/artnet.c:347-373 | over every sequence of joins, whether or not nodes are on: all rings stay simple cycles with one master, and which nodes share a ring is the partition that the joins of nodes both off generate |
| PeerRing.NewNodesAreApart | artnet/artnet.c:103-104 | new nodes are such a world, each in a block of its own |
| PeerRing.Peers | artnet/artnet.c:317-324 | the walk of artnet_read visits every other member of the ring once and stops |
| MidiQueue.InvKept | rtmidi/RtMidi.cpp:896-932 | every single step of either thread keeps what both rely on |
| MidiQueue.RunKeeps | rtmidi/RtMidi.cpp:877-932 | so does every interleaving of steps, from any state in which it holds |
| MidiQueue.EveryInterleaving | rtmidi/RtMidi.cpp:877-932 | in every interleaving the popped messages and the queue are the accepted ones in order, at most ringSize-1 are held, the slot being written is never the one being read, and refused calls saw a full or an empty ring |
| MidiQueue.PushGetsThrough | rtmidi/RtMidi.cpp:896-912 | a push that finds room is through after four steps of its thread, whatever the other thread does meanwhile: its message is accepted, and in the queue or popped |
| MidiQueue.PushIsRefused | rtmidi/RtMidi.cpp:896-912 | a push that finds the ring full is refused and leaves no trace |
| MidiQueue.PopGetsThrough | rtmidi/RtMidi.cpp:914-932 | a pop that finds the queue not empty has the message that came first after four steps of its thread, whatever the other thread does meanwhile |
| MidiQueue.PopIsRefused | rtmidi/RtMidi.cpp:914-932 | a pop that finds the queue empty is refused and leaves no trace |
| MidiQueue.Grow | rtmidi/RtMidi.cpp:906-907 | advancing back appends the slot written before |
| MidiQueue.OutsideWrite | rtmidi/RtMidi.cpp:906 | writing the slot at back does not change the queue |
| MidiQueue.Queue.Push | rtmidi/RtMidi.cpp:896-912 | append at the end, or refusal exactly when ringSize-1 are held |
| MidiQueue.Queue.Pop | rtmidi/RtMidi.cpp:914-932 | removal of the first element, or refusal exactly when the queue is empty |
| SacnMerge.FirstAgrees | OSCRouter/Router.cpp:3541-3551 | the first source of a universe replaces a cached entry completely as far as the arbitration goes, whatever was left in it |
| SacnMerge.MergeChannel | OSCRouter/Router.cpp:3552-3605 | all four cases are one rule for a channel: the greater effective priority, the earlier source on a tie |
| SacnMerge.MergeAgrees | OSCRouter/Router.cpp:3552-3605 | merging in the next source in CID order keeps agreement with the arbitration of all sources so far, levels, priorities and ip |
| SacnMerge.WinsAfter | OSCRouter/Router.cpp:3552-3605 | who wins a channel once a further source is there |
| SacnMerge.AgreesDetermines | OSCRouter/Router.cpp:3527-3608 | two merges of the same sources have the same levels, priorities and ip |
| SacnMerge.EventsKeepInv | OSCRouter/Router.cpp:3980-4135 | data with the two handled start codes, loss of a source and expiry of its priorities never put a universe out of sync that is not marked dirty |
| SacnMerge.SilentSourceIff | OSCRouter/Router.cpp:3552-3605 | a cached entry still agrees when a source without levels and priority is there too, if and only if an earlier source has what it could win, or every channel that it wins is at 0 and the ip is that of the last other winner |
| SacnMerge.OtherStartCodesIff | OSCRouter/Router.cpp:4033-4135 | a packet with another start code keeps the cache invariant if and only if the universe is marked, its source had it before, or other sources carry it and the silent newcomer changes nothing |
| SacnMerge.OtherStartCodeBreaks | OSCRouter/Router.cpp:4044-4045 | one state in which such a packet from source 3 breaks the invariant and the same packet from source 8 does not |
| SacnReceiver.GatherAgrees | OSCRouter/Router.cpp:3530-3607 | an entry refreshed from any stale one is the arbitration of the sources gathered |
| SacnReceiver.RefreshSynchronises | OSCRouter/Router.cpp:3520-3640 | after a refresh every universe is cached exactly if some source carries it, with the levels and priorities of a merge from scratch |
| SacnReceiver.StepKeepsInv | OSCRouter/Router.cpp:3520-4135 | every step keeps the cache invariant |
| SacnReceiver.StepIsValid | OSCRouter/Router.cpp:3520-4135 | every step, also with other start codes, keeps sources and cache well formed |
| SacnReceiver.RunKeepsInv | OSCRouter/Router.cpp:3520-4135 | the cache invariant holds after every run of the handled steps |
| SacnReceiver.EveryRun | OSCRouter/Router.cpp:3520-4135 | over every run: a universe not marked dirty is cached exactly if a source carries it, and each channel has the level of the first source in CID order with the greatest effective priority, the ip being that of the last source that wins a channel |
| SacnHistory.PacketIsStored | OSCRouter/Router.cpp:4033-4135 | after a packet its source holds the slots, priority and ip that its start code says, with the former levels behind the slots, and nothing else has changed |
| SacnHistory.LossIsStored | OSCRouter/Router.cpp:3980-4002 | after a loss the source no longer has the universe, and with its last one it is gone |
| SacnHistory.ExpiryIsStored | OSCRouter/Router.cpp:4006-4028 | after an expiry the universe has its own priority again, and everything else as before |
| SacnHistory.EveryRunHoldsHeard | OSCRouter/Router.cpp:3980-4135 | over every run a source holds of each slot the last one heard since it was last lost, and so the priorities and ip |
| SacnHistory.EveryRunAsHeard | OSCRouter/Router.cpp:3520-4135 | over every run of handled events: a universe not marked dirty is cached exactly if a source sends it, each channel has the last slot heard of the first source with the greatest priority heard, and the ip is that of the last source that wins a channel |
| SacnHistory.SoleSourceComesThrough | OSCRouter/Router.cpp:3520-4135 | the slots, ip and priority of the only source are what the next refresh puts into the cache |
| SacnHistory.AnnouncedIff | OSCRouter/Router.cpp:3620-3636 | which universes a refresh announces, with which ip, in ascending order and once at most, and which levels it remembers |
| SacnHistory.EveryRunAnnouncesChanges | OSCRouter/Router.cpp:3625-3633 | over every run in which only changes count: a marked universe that is sent is announced exactly if its levels differ from those last announced |
| SacnEngine.MergeChannels | OSCRouter/Router.cpp:3554-3566 | the loop for two universes with priorities per channel computes the one rule |
| SacnEngine.MergeChannelsIntoBasic | OSCRouter/Router.cpp:3567-3583 | so does the loop that turns a cached universe into one with priorities per channel |
| SacnEngine.MergeBasicIntoChannels | OSCRouter/Router.cpp:3585-3599 | so does the loop for a new universe that has one priority |
| SacnEngine.MergeUniverse | OSCRouter/Router.cpp:3552-3607 | the four cases, three of them loops over 512 channels, agree on one rule |
| SacnEngine.Receiver.UniverseData | OSCRouter/Router.cpp:4033-4135 | sources and dirty set after a packet |
| SacnEngine.Receiver.SourceDisappeared | OSCRouter/Router.cpp:3980-4002 | the universe of the source is dropped and marked, and the source with its last universe |
| SacnEngine.Receiver.SourcePCPExpired | OSCRouter/Router.cpp:4006-4028 | the universe falls back to its own priority and is marked |
| SacnEngine.Receiver.RecvsACN | OSCRouter/Router.cpp:3522-3640 | cache, dirty set and announcement queue after the nested loops of a refresh |
| RouteIndex.WildRemove | OSCRouter/Router.cpp:1717-1724 | the order in which wildcard paths are visited does not matter |
| RouteIndex.AddedIn | OSCRouter/Router.cpp:1232-1248 | an added route adds exactly its destination to what lookups of matching paths find |
| RouteIndex.AddedTo | OSCRouter/Router.cpp:1210-1248 | the same by port and ip, with 0 for any ip |
| RouteIndex.IndexAgreesWithScan | OSCRouter/Router.cpp:1168-1253 | for every route list and packet the index finds the destination of each enabled matching route exactly once and nothing else, as a scan of the list does |
| RouteIndex.Router.BuildRoutes | OSCRouter/Router.cpp:1168-1253 | the tables after the loop over all routes |
| RouteIndex.AddRoutingDestinations | OSCRouter/Router.cpp:1707-1733 | exact, wildcard and path-less destinations are appended, nothing is taken away |
| RouteIndex.Router.Destinations | OSCRouter/Router.cpp:1795-1813 | the destination list of a packet holds what the index has for its port, ip and the ip 0 |
| RouteIndex.ScanCounts | OSCRouter/Router.cpp:1168-1253 | a scan finds each destination as often as enabled routes take the packet there: with label, protocol and target of the route, its destination port if that can be used for the protocol and else its source port |
| RouteIndex.Lookup | OSCRouter/Router.cpp:1168-1813 | building and looking up gives the destinations of a linear scan, each as often as routes lead there |
| SendPath.MakeSendPath | OSCRouter/Router.cpp:2953-3095 | unless a text with "%" comes to be inserted, the in-place scan ends for every template and leaves the rewritten path, or the empty one when an index has no text |
| SendPath.NeverEnds | OSCRouter/Router.cpp:2976-3092 | when one does it need not end: the template "/%1" with the path "/x%1" is still running after any number of steps |
| SendPath.PiecesRender | OSCRouter/Router.cpp:2982-3005 | the template is cut into texts, escapes and holes without loss |
| SendPathTexts.PartsBetweenSlashes | OSCRouter/Router.cpp:3021 | any path is cut into its non-empty parts at its slashes |
| SendPathTexts.TextOfNumber | OSCRouter/Router.cpp:3013-3069 | the text of a number: the parts of the source path from 1 on, then levels as decimal text or arguments; an empty path counts from 0, and a number too great for an int is 0 |
| SendPathTexts.TextOfSlashes | OSCRouter/Router.cpp:3019-3024 | a path of slashes only is its own first part |
| SendPathTexts.OneNumberIsSent | OSCRouter/Router.cpp:2953-3095 | for the template of a slash and one number that text is sent behind the slash, or nothing |
| SendPathRefines.PassInserted | OSCRouter/Router.cpp:3079-3086 | inserted text is never expanded again |
| SendPathRefines.ScanIsWalk | OSCRouter/Router.cpp:2976-3092 | for every template and source, rewriting in place is one pass over the pieces of the template that is blind for as many characters as an insertion is shorter than its number |
| SendPathRefines.SendPathIsSubstitutionIff | OSCRouter/Router.cpp:2953-3095 | when no text for a number of the template holds "%": rewriting in place is the simultaneous substitution, "%%n" becoming "%n", if and only if every insertion, the text behind it and a first "%" of an escape are together as long as its number; and without a text for some number the path is dropped if and only if the pass comes to one |
| SendPathRefines.ShortInsertionsDiffer | OSCRouter/Router.cpp:3079-3086 | two templates with shorter insertions: one is not substituted, the other is sent although a number has no text |
| Decimal.NumberRoundTrip | OSCRouter/Router.cpp:3031 | decimal text reads back as the number |
| ConfigText.GetItemsFromQuotedString | OSCRouter/ConfigFile.cpp:76-125 | the loop splits every line as the field grammar says |
| ConfigText.ItemsOfJoin | OSCRouter/ConfigFile.cpp:56-125 | a comma-joined line of quoted fields splits at exactly those commas, whatever the fields hold |
| ConfigText.FieldRoundTripIff | OSCRouter/ConfigFile.cpp:56-125 | a field comes back if and only if it holds no backslash followed by n and is quoted or has no outer blank |
| ConfigText.LineRoundTripIff | OSCRouter/ConfigFile.cpp:56-125 | a line comes back if and only if every field of it does |
| ConfigReading.BlanksAreTrimmed | OSCRouter/ConfigFile.cpp:88-92 | blanks around an item do not belong to it, those inside do, and an item without quotes and backslashes is what it is |
| ConfigReading.FlagIsNumber | OSCRouter/ConfigFile.cpp:618-684 | flags are written as the numbers 0 and 1 |
| ConfigFile.OneRecordAtMost | OSCRouter/ConfigFile.cpp:163-376 | no line at all is taken by more than one of the loaders, which changes only what it is about |
| ConfigFile.NoRecord | OSCRouter/ConfigFile.cpp:163-376 | and a line that none takes changes nothing |
| ConfigFile.HeadLineClaims | OSCRouter/ConfigFile.cpp:163-204 | a line that begins as a settings or variable line is nothing else, and is taken exactly if it has at least three or exactly three items |
| ConfigFile.RouteLineClaims | OSCRouter/ConfigFile.cpp:163-376 | a saved route line is taken as a route exactly if its label is no keyword, as settings exactly if that is its label, and else not at all |
| ConfigFile.ConnectionLineClaims | OSCRouter/ConfigFile.cpp:163-376 | the same for a saved connection line |
| ConfigFile.RouteLineLoads | OSCRouter/ConfigFile.cpp:267-344 | loading a saved route line appends the route with its script on exactly if it has text, or overwrites the settings, or changes nothing, as the label says |
| ConfigFile.ConnectionLineLoads | OSCRouter/ConfigFile.cpp:348-376 | the same for a saved connection line, whatever its frame mode |
| ConfigFile.MuteLineLoads | OSCRouter/ConfigFile.cpp:274-285 | the mute line restores both flags, each from its own field |
| ConfigReading.ShortRouteReads | OSCRouter/ConfigFile.cpp:294-340 | a route line of 11 to 18 items is read as one with no script, the first protocols, enabled, not muted and nothing else, and what is behind the 19th is ignored |
| ConfigReading.KeywordIff | OSCRouter/ConfigFile.cpp:34-42 | the labels that stand for other records are the three keywords, in any mixture of upper and lower case |
| ConfigReading.AnyNumberReads | OSCRouter/ConfigFile.cpp:291-330 | the text of a number is read with its sign if and only if it fits an int |
| ConfigReading.RouteNumbers | OSCRouter/ConfigFile.cpp:291-330 | ports that are no 16-bit numbers are 0, unknown protocols the first one, and flags are any number but 0 |
| ConfigReading.ConnectionNumbers | OSCRouter/ConfigFile.cpp:348-376 | the same for a connection, an unknown frame mode being the invalid one |
| ConfigReading.NoNumberReads | OSCRouter/ConfigFile.cpp:267-376 | a text that is no number counts as 0 |
| ConfigReading.ShortSettingsRead | OSCRouter/ConfigFile.cpp:163-193 | what a settings line leaves out stays as it was, except modules when some are there |
| ConfigReading.ValidatedIsFirsts | OSCRouter/ConfigFile.cpp:531-563 | kept are just the connections with a port whose address has not come before, in order |
| ConfigRoundTrip.LinesRoundTrip | OSCRouter/ConfigFile.cpp:380-385 | text made of lines is cut into those lines |
| ConfigRoundTrip.SettingsRoundTrip | OSCRouter/ConfigFile.cpp:163-193 | a joined settings line gives all settings back, whatever they were before |
| ConfigRoundTrip.VariablesRoundTrip | OSCRouter/ConfigFile.cpp:197-204 | joined variable lines give the variables back in order |
| ConfigRoundTrip.ValidatedAll | OSCRouter/ConfigFile.cpp:531-563 | connections with distinct addresses and ports are all kept, in order |
| ConfigRoundTrip.FileRoundTrip | OSCRouter/ConfigFile.cpp:567-683 | for any settings and variable lines: loading a saved file gives the mutes, every route without a keyword label with its script on exactly if it has text, the connections less those without a port or with an address seen before, the variables of the lines, and the settings of the settings line as overwritten by what is labelled as settings |
| ConfigRoundTrip.FileRoundTripExact | OSCRouter/ConfigFile.cpp:567-683 | and everything unchanged when there is nothing of that kind to lose |
| ConfigRoundTrip.SettingsLabelOverwrites | OSCRouter/ConfigFile.cpp:163-193 | a route labelled as settings is lost, and its source address and port become interface addresses |
| ConfigPrint.PrintedAsListedIff | OSCRouter/ConfigFile.cpp:598-603 | with blank texts to come, what is printed so far stays if and only if it has no mark that the template uses |
| ConfigPrint.VariablePrintedIff | OSCRouter/ConfigFile.cpp:688-699 | the line of a variable is the joined one for every value if and only if the quoted name has no mark with a number up to 2 |
| ConfigPrint.VariableMisprinted | OSCRouter/ConfigFile.cpp:697 | the variable named "%1" is printed with its value for a name |
| ConfigPrint.SettingsPrintedIff | OSCRouter/ConfigFile.cpp:596-612 | the settings line is the joined one, also with its later texts blank, if and only if no text but the last has a mark with a number up to 5 |
| ConfigPrint.PrintedHeadIsValid | OSCRouter/ConfigFile.cpp:596-699 | whatever the texts, what is printed is one settings line and variable lines |
| ConfigPrint.PrintedFileRoundTrip | OSCRouter/ConfigFile.cpp:567-700 | a configuration printed as the source does comes back unchanged when no text has such a mark and there is nothing to lose |
| ConfigStore.Store.LoadSettingsLine | OSCRouter/ConfigFile.cpp:163-193 | settings after one line, the modules by a loop that stops at the end of the line |
| ConfigStore.Store.LoadVariableLine | OSCRouter/ConfigFile.cpp:197-204 | variables after one line |
| ConfigStore.Store.LoadRouteLine | OSCRouter/ConfigFile.cpp:267-344 | mutes and routes after one line |
| ConfigStore.Store.LoadConnectionLine | OSCRouter/ConfigFile.cpp:348-376 | connections after one line |
| ConfigStore.Store.Validate | OSCRouter/ConfigFile.cpp:531-563 | the nested loops keep the first connection of each address and none without a port |
| ConfigStore.Store.LoadLines | OSCRouter/ConfigFile.cpp:567-578 | the contents after all lines, each given to all four loaders |
| ConfigStore.Store.SaveSettings | OSCRouter/ConfigFile.cpp:596-612 | the settings line as five arguments and the loop over the modules print it |
| ConfigStore.Store.SaveVariables | OSCRouter/ConfigFile.cpp:688-699 | the variable lines, those without a name skipped |
| ConfigStore.Store.SaveSections | OSCRouter/ConfigFile.cpp:675-684 | the text written for all sections |
| ConfigStore.SaveAndLoad | OSCRouter/ConfigFile.cpp:567-684 | what a store holds that is loaded from what another has saved, whatever marks its settings and variables hold |
| OtpWire.RoundTripBE | otp/otp.cpp:686-732 | big-endian writing and reading is reduction modulo 256^k, for negative values too |
| OtpWire.GetPut | otp/otp.cpp:343-375 | a chain of reads takes back what a chain of writes wrote, each value cut to its width, and nothing more |
| OtpWire.GetLayer | otp/otp.cpp:727-732 | a layer is read with its number and its length modulo 64 KiB |
| OtpWire.WalkConcat | otp/otp.cpp:888-893 | layers can be told apart by their length fields alone |
| OtpWriter.Stream.PatchLength | otp/otp.cpp:727-732 | seeking back and patching makes the layer right and disturbs no other byte |
| OtpWriter.WriteModule | otp/otp.cpp:808-896 | the layer of a module that the point has, and nothing for one that it has not |
| OtpWriter.WritePoint | otp/otp.cpp:781-804 | a point layer with the layers of its modules in order of their type |
| OtpWriter.WriteTransform | otp/otp.cpp:737-777 | the system with the lowest number, its groups and points in ascending order; no system is refused |
| OtpWriter.TransformDatagram | otp/otp.cpp:678-735 | the whole datagram of a transform message with all nested lengths |
| OtpWriter.ModuleAdvertDatagram | otp/otp.cpp:950-984 | the datagram of a module advert; refused exactly for an empty list |
| OtpWriter.SystemAdvertDatagram | otp/otp.cpp:1026-1050 | the datagram of a system advert |
| OtpText.ToProtocolString | otp/otp.cpp:302-331 | the chopping loop ends and gives the field of 32 bytes |
| OtpText.CutIsLongest | otp/otp.cpp:302-331 | what is sent of a name is its longest front part of whole UTF-16 units with at most 31 bytes of UTF-8 |
| OtpText.Utf8RoundTripIff | otp/otp.cpp:304-336 | a text comes back from its UTF-8 if and only if it has no half of a surrogate pair |
| OtpText.NameRoundTripIff | otp/otp.cpp:302-336 | a name survives if and only if its UTF-8 has at most 31 bytes, it has no zero and no half of a surrogate pair, and does not begin with a byte order mark |
| OtpNames.NameAdvertDatagram | otp/otp.cpp:987-1024 | the datagram of a name advert as three nested loops write it |
| OtpNames.NamesReadIff | otp/otp.cpp:625-640 | a list of names is read if and only if it consists of entries of 39 bytes |
| OtpNames.NameAdvertReadIff | otp/otp.cpp:610-1024 | an advert of names written by this code is read by it if and only if the number of points is a multiple of 39, always as a request, and comes back as it was when it has no point |
| OtpReader.Stream.Read | otp/otp.cpp:352-373 | a transaction reads all its fields or moves nothing |
| OtpReader.FromDatagramModule | otp/otp.cpp:450-555 | one turn of the module loop, with the skip of unknown modules |
| OtpReader.FromDatagramPoints | otp/otp.cpp:419-559 | the loop over point layers, with the skip of unknown ones |
| OtpReader.FromDatagramTransform | otp/otp.cpp:402-562 | system, timestamp and full-set flag, and the points |
| OtpReader.FromDatagramNames | otp/otp.cpp:625-640 | the loop over the entries of a name advert, a later entry replacing an earlier one of the same point |
| OtpReader.FromDatagramAdvert | otp/otp.cpp:564-676 | module, name and system adverts, and what is refused |
| OtpReader.FromDatagram | otp/otp.cpp:343-400 | what any datagram is read as |
| OtpRoundTrip.ModulesRead | otp/otp.cpp:450-555 | any subset of modules comes back with all values |
| OtpRoundTrip.PointRead | otp/otp.cpp:419-559 | a point comes back under the name and CID of its sender |
| OtpReading.PositionRead | otp/otp.cpp:466-485 | a position of any sender: as it is when bit 7 of its options is clear, and a thousand times in 32 bits when it is set |
| OtpReading.SystemHeadRead | otp/otp.cpp:402-418 | the system of a transform of any sender, the full-set mark being bit 7 of its options |
| OtpReading.SystemAdvertRead | otp/otp.cpp:646-670 | a system advert of any sender, the operation being bit 7 of its options |
| OtpReading.UnknownModuleRead | otp/otp.cpp:450-464 | a module of another maker or of an unknown number changes nothing, and exactly where reading goes on behind it |
| OtpReading.UnknownPointRead | otp/otp.cpp:419-441 | a layer of points with another number is passed over by its length, or by its fields when that leaves the datagram |
| OtpReading.AnyTypesRead | otp/otp.cpp:583-607 | of any list of module types, those of this maker that are known are read |
| OtpRoundTrip.NeverMoreThanOnePoint | otp/otp.cpp:449-559 | no datagram at all is read as more than one point |
| OtpRoundTrip.TransformRoundTripIff | otp/otp.cpp:402-804 | a transform message comes back as it was, its points attributed to the sender, if and only if it has at most one point and no empty group |
| OtpRoundTrip.ModuleAdvertRoundTrip | otp/otp.cpp:574-614 | every module advert comes back with its types |
| OtpRoundTrip.SystemAdvertRoundTrip | otp/otp.cpp:646-670 | every system advert comes back with its systems and operation |
| OtpRoundTrip.LengthsDelimitIff | otp/otp.cpp:727-776 | for any number of groups, points and modules, the outermost length is right exactly while the layer is under 64 KiB, and then the lengths below delimit the system and every point |
| OtpRoundTrip.ModuleLengths | otp/otp.cpp:798-893 | within every point the lengths delimit every module |
| OtpConsumer.MergeIsPointwise | otp/otp.cpp:1281-1367 | the three nested levels are one merge frame by frame, of subscribed systems only |
| OtpConsumer.HoldsLastOfHighest | otp/otp.cpp:1281-1367 | over every run in which nothing expires, a frame holds the last received point among those of the highest priority |
| OtpConsumer.LowerPriorityTakesOverIff | otp/otp.cpp:1344-1358 | unchanged repetitions do not renew a point: one of lower priority takes over exactly if the first reception is more than 7.5 seconds old |
| OtpConsumer.TimestampIff | otp/otp.cpp:1281-1367 | a system takes the timestamp of the message if and only if that has a new group, a new point, one of no lower priority, or one held for more than 7.5 seconds |
| OtpConsumer.Consumer.MergeTransform | otp/otp.cpp:1281-1367 | systems, groups, points and timestamps after the nested loops |
| OtpConsumer.Consumer.SetSystems | otp/otp.cpp:1121-1173 | the systems wanted, those known before with what they held |
| OtpConsumer.MergePoints | otp/otp.cpp:1323-1361 | the innermost loop, and whether it stamps the system |
| OtpProducer.AdvertKeeps | otp/otp.cpp:1564-1585 | an advert keeps the cached interests equal to the union although they are recomputed only if flagged |
| OtpProducer.TickKeeps | otp/otp.cpp:1626-1653 | so does the expiry of consumers |
| OtpProducer.EveryRun | otp/otp.cpp:1556-1653 | in every reachable state the consumers held are those whose last advert no later tick found expired, with the types of that advert |
| OtpProducer.CacheIsInterest | otp/otp.cpp:1670-1683 | a type is in the cache if and only if the last advert of some consumer still held asked for it |
| OtpProducer.Filtered | otp/otp.cpp:133-152 | a module stays exactly if its type is wanted, with its value |
| OtpProducer.PointIsSentIff | otp/otp.cpp:1714-1736 | a frame is sent exactly if one of its stored modules is wanted, cut down to the wanted ones |
| OtpProducer.SentIsWhatWasAsked | otp/otp.cpp:1695-1744 | nothing sent is empty, and the points of a system sent are its stored ones filtered |
| OtpProducer.NoveltyIff | otp/otp.cpp:1434-1478 | what is reported of a point that is set: whether anything was stored in its system, in its group, for its frame, and whether that was something else |
| OtpProducer.NothingWantedIsMissing | otp/otp.cpp:1707-1744 | every system with something wanted is sent |
| OtpProducer.Producer.HandleModuleAdvert | otp/otp.cpp:1562-1588 | consumers and cached interests after an advert |
| OtpProducer.Producer.HandleSystemAdvert | otp/otp.cpp:1605-1621 | a system request is answered with the systems stored, nothing else is answered |
| OtpProducer.Producer.TickConsumers | otp/otp.cpp:1626-1653 | consumers and cached interests after a tick |
| OtpProducer.Producer.UpdateModulesTypes | otp/otp.cpp:1670-1683 | the loop computes the union |
| OtpProducer.Producer.SendPoints | otp/otp.cpp:1695-1744 | the datagrams and addresses of the non-empty filtered systems, in order |
| OtpProducer.Producer.FilterGroups | otp/otp.cpp:1714-1736 | the erasing loops leave the filtered groups and no empty one |
| OtpProducer.Producer.TickResend | otp/otp.cpp:1655-1662 | all stored points are sent as a full set once three seconds have passed since the last time, if anybody has asked for anything |
| OtpProducer.Producer.SetPoint | otp/otp.cpp:1434-1478 | the frame has the point, no other frame changes, systems keep their timestamps and marks, no empty group or system exists, and only news is sent |
| OtpProducer.Producer.RemovePoint | otp/otp.cpp:1480-1508 | the frame is gone with any group or system left empty, no other frame changes |
| OtpExchange.PointArrives | otp/otp.cpp:1685-1744 | a stored point is sent if and only if somebody wants one of its modules, and its datagram is read as that point with exactly the wanted modules |
| OtpExchange.PointIsHeld | otp/otp.cpp:1245-1367 | a subscribed consumer with nothing for the frame then holds it, and no other frame changes |

## Left out

- PSN info packets, the decoder's branch for them, and tracker names; header padding bytes are arbitrary, and an empty map yields no packets.
- PSN values are kept as their bytes; a status or timestamp cut short, which the source leaves uninitialised, is taken as zero.
- PsnRecovery.RecoveryIff: a broken frame is followed by one with another frame id; 256 frames later the id repeats and the decoder cannot tell.
- Art-Net: callbacks that replace a handler, ports' status bits, the reply to a merge, node discovery and address programming; merge mode is fixed over a run (ArtAddress is not modelled); failing allocation; firmware of 2^30 words or more.
- Firmware.UploadSucceedsIff: a lock-step link that loses nothing is assumed; timeouts of a transfer are not modelled.
- MidiQueue.EveryInterleaving: sequentially consistent accesses to the shared indices are assumed, and a ring of at least one slot.
- sACN: names, logs, the set of ips seen and the merge's consumers; channel arrays are sequences of 512 levels.
- RouteIndex.IndexAgreesWithScan: wildcard matching and the parsing of ip texts are parameters, and starting threads and clients for routes is left out.
- SendPath: digits are ASCII; levels of a universe and OSC arguments are parameters.
- SendPathRefines.SendPathIsSubstitutionIff: says nothing about templates whose numbers have a text with "%", where the scan rewrites its own insertions; `SendPath.NeverEnds` is one such run.
- Config: the substitution of variables and their diagnosis are left out; the text of a float is opaque, with a parameter that says whether it parses; the number of frame modes and the invalid one are parameters, because the OSC stream source is not part of this model; blanks and letter case are ASCII; numbered marks are replaced as Qt does it.
- OTP: coordinates are bit patterns, with the wrap-around of 32-bit multiplication when a sender uses millimetres; the conversions between UTF-16 and UTF-8 are those of Qt, which is not part of the repository.
- OtpNames.NameAdvertReadIff: which garbage names are read from an advert of 39 points or a multiple of it is not stated.
- OtpReader.FromDatagram: what a rejected datagram leaves in the message object is not stated, because callers drop it.
- OtpProducer: removing all points at once, answers to name requests, and sockets; what is sent is the list of datagrams and the systems they are addressed to.
- OtpConsumer: callbacks about changes, and the list of producers.
- Sockets, threads, timers, logging, user interface, script engine and operating-system MIDI back ends.
