# OpenNetDeck: a Dafny model of its protocol engine

OpenNetDeck makes USB Stream Decks available over TCP. This project models the
parts of it that carry state or have to get bytes exactly right, and proves
what they promise:

- **CORA framing** (`Cora`): the 16-byte little-endian header, its payload, and
  the encoders that write them.
- **The receive loops** (`Stream`, `Resync`, `Conservation`, `Delivery`,
  `Receivers`, `Capacity`): the resynchronising decoder that four connection
  handlers drive with whatever chunks TCP delivers, over a growable buffer in
  the server and a fixed 2048-byte one in the embedded crate. It is compared
  with a scanner (`Stream.Scan`) that sees the whole stream and moves one byte
  at a time; `Capacity` follows whole sessions through the fixed buffer.
- **Reports and keepalive** (`Reports`, `Keepalive`, `Layouts`): the 128-byte
  `Device2Info` record in both directions, the probe/timeout timer, and what is
  where on the wire.
- **The dock and its watcher** (`Dock`, `Watcher`, `Agreement`, `UsbWatcher`,
  `Overflow`, `Ports`, `Signals`, `Identity`): the eight-slot table with sticky reservations, and the USB
  watcher as a small step machine in which bridge tasks may raise disconnect
  signals between any two steps; what becomes of those signals, and which
  device a client is shown.
- **The handlers** (`Primary`, `PrimaryConnection`, `PrimaryAnswers`, `Direct`,
  `Secondary`, `BridgeAnswers`, `Surface`, `Embedded`, `EmbeddedSession`): what
  each port answers, byte by byte and over sessions, what is
  handed to the USB device, and how the embedded implementations compare with the server's over
  whole sessions.
- **The composition** (`Replica`, `Subscription`, `Race`, `Conversation`,
  `EndToEnd`): table change, broadcast event, push frame, TCP chunks, decoder,
  client-side replay, for clients that subscribe at any moment and poll at any
  later one; and one client's whole conversation in both directions.

Strings are byte sequences; integers are bounded subset types, and every
truncation, wrap-around and saturation of the Rust code is written out. Buffer
lengths are unbounded, as on a 64-bit target. No proof relies on Dafny's automatic
induction; the main results switch it off.

## What turned out to be conditional

Seven properties one would like to state without conditions do not hold of the
code. Each is proved with the exact condition under which it does, next to an
input on which it fails.

- *Chunking does not matter.* When the buffer holds no magic it is dropped
  whole, including a tail that may be the first one to three bytes of a magic
  (`SplitMagicIsLost` is such an input). The loop agrees with the scanner at
  every read and for every continuation if and only if no clear so far dropped
  a buffer ending in a proper prefix of the magic (`ChunkIndependenceIsExact`).
  Streams of well-formed frames never reach a clear and need no condition.
- *Watcher and dock agree.* With all slots taken, a new device overwrites
  slot 0, and new devices are attached before absent ones are removed. They
  agree in every state of a run if and only if there are never more than eight
  active devices (`AgreementThroughoutIsExact`). A scan that starts in
  agreement ends in agreement if and only if the devices active before and
  those it opened number at most eight, or they number nine and the device
  displaced from slot 0 is one the scan removes (`ScanAgreementIsExact`).
  `NineDevicesDisagree` and `LuckyNinthDeviceAgrees` are runs of either kind.
  The ports of active bridges stay distinct on the same condition as agreement,
  if the base port leaves room for eight (`PortsStayDistinctExactly`).
- *The replica is the table.* The pushes an idle poll triggers are sent by
  tasks of their own and may be overtaken by live events. The client ends with
  the server's table if and only if no slot's last push is an initial one whose
  slot a later state had changed (`PolledReplicaIsExact`);
  `OvertakenPushLeavesAGhost` is the device that stays. A client that never
  polls lacks exactly the slots untouched since it subscribed
  (`UnpolledReplicaIsExact`). While pushes are racing, each slot shows what the
  server had there at some moment (`ReplicaSlotsWereReal`), but the replica need
  not be part of any one table (`RacingReplicaIsNoTable`): once the live events
  from before the poll are in, it is part of the table of the last live event
  received if and only if no slot is stale so far (`RacingReplicaIsExact`).
- *The embedded buffer always has room.* A session gets stuck, the next read
  being taken for a disconnect, if and only if 2048 bytes wait behind a valid
  header announcing more than 2032 (`StallIsExact`). A sender's stream gets
  through whole if and only if no payload is larger (`WholeStreamFitsExactly`);
  otherwise everything before the first large frame does and nothing after
  (`FixedSessionIsExact`).
- *Direct mode passes on what it acknowledges.* If no device was there when the
  connection was accepted, output and feature reports are acknowledged and
  dropped (`LostWriteIsAcknowledged`, `LostReportIsAcknowledged`); all of them
  are handed to the device handle if and only if there was a device or there
  were none (`DirectTransfersAreMadeExactly`).
- *A report round-trips.* It does if and only if the first 31 bytes of name and
  serial hold no NUL (`RoundTripIsExact`); otherwise the client sees the part
  before it.
- *Surface events can be told apart.* A turn by one step looks like a press and
  a turn by none like a release, released keys look alike, and so do pressed
  ones from the eighth on; otherwise events are told apart
  (`EventsLookAlikeExactly`).

Where comment and code differ the code is followed: connection ids run over
1..=255 although the comment says 1..=254; the primary port answers a client's
keepalive acknowledgement as an idle poll (`AcknowledgementCountsAsPoll`); and
the task that forwards live hotplug events, introduced as a matter of Dock
mode (`crates/opennetdeck-server/src/connection.rs:127`), runs in both modes,
as does the watcher (`crates/opennetdeck-server/src/main.rs:121-125`), so that
a direct-mode client gets live pushes too, though never initial ones.

## Model

| member | source | states |
|---|---|---|
| Cora.FindMagic | crates/opennetdeck-protocol/src/cora.rs:133-138 | the first occurrence of the magic, and none exactly when the buffer holds none |
| Cora.EncodeHeader | crates/opennetdeck-protocol/src/cora.rs:110-117 | fills the 16-byte buffer with the header layout |
| Cora.Encode | crates/opennetdeck-protocol/src/cora.rs:165-180 | writes the encoding and leaves the rest of the buffer alone, or reports a short buffer and writes nothing |
| Cora.ToVec | crates/opennetdeck-protocol/src/cora.rs:183-193 | returns the very bytes `encode` writes |
| Cora.DecodeAfterEncode | crates/opennetdeck-protocol/src/cora.rs:143-180 | decoding an encoded frame, whatever follows it, gives back the frame and its exact length, if and only if the payload is shorter than 2^32 bytes |
| Cora.EncodeAfterDecode | crates/opennetdeck-protocol/src/cora.rs:85-193 | re-encoding a decoded frame reproduces every consumed byte, `reserved` included |
| Cora.DecodeIsStable | crates/opennetdeck-protocol/src/cora.rs:143-162 | later bytes never change a frame or an error already decided |
| Cora.PartialFrameWaits | crates/opennetdeck-protocol/src/cora.rs:143-158 | every strict prefix of a frame asks for more data |
| Cora.MagicHasNoBorder | crates/opennetdeck-protocol/src/constants.rs:4 | two occurrences of the magic never overlap |
| Layouts.HeaderLayout | crates/opennetdeck-protocol/src/cora.rs:110-117 | the sixteen bytes of a header in order |
| Layouts.FrameLayout | crates/opennetdeck-protocol/src/cora.rs:165-193 | a frame on the wire is its header with the true payload length, then the payload |
| Layouts.KnownHeader | crates/opennetdeck-protocol/src/tests.rs:7-31 | the bytes of one known header |
| Layouts.DecodeFailsExactly | crates/opennetdeck-protocol/src/cora.rs:85-162 | input is in error if and only if sixteen bytes are there and do not start with the magic, or name an unknown op; and with which error |
| Resync.DrainIsScan | crates/opennetdeck-server/src/bridge.rs:184-204 | on one buffer the skip-ahead loop emits exactly the frames of the byte-by-byte scanner |
| Resync.SkipAheadRefinesScan | crates/opennetdeck-server/src/bridge.rs:182-204 | over any reads that clear cleanly the loop emits the frames the scanner finds in the whole stream |
| Resync.ChunkIndependenceIsExact | crates/opennetdeck-server/src/bridge.rs:182-204 | the loop agrees with the scanner after every prefix of the reads and for every next read, if and only if no clear dropped the beginning of a magic |
| Resync.DirtyGarbageHidesFrame | crates/opennetdeck-server/src/bridge.rs:198-201 | for every buffer cleared with such a tail there is a continuation whose frame is lost |
| Resync.SplitMagicIsLost | crates/opennetdeck-server/src/bridge.rs:198-201 | a concrete pair of reads that loses a valid frame |
| Conservation.EveryByteIsAccountedFor | crates/opennetdeck-server/src/connection.rs:204-228 | for any bytes and chunking, the stream is the emitted frames re-encoded, interleaved in order with gaps in which no known frame could start given what had arrived, followed by the buffered rest |
| Delivery.WellFormedStreamsAreChunkIndependent | crates/opennetdeck-server/src/bridge.rs:182-204 | any cutting of any prefix of a sender's stream emits exactly the frames that arrived in full, skips nothing, and buffers a strict prefix of the next frame |
| Delivery.WholeStreamIsDelivered | crates/opennetdeck-server/src/connection.rs:204-228 | any cutting of a whole stream delivers it whole and leaves the buffer empty |
| Delivery.NoMagicStraddles | crates/opennetdeck-protocol/src/cora.rs:133-138 | garbage without a magic shares none with the frame behind it |
| Delivery.GarbageRecovery | crates/opennetdeck-server/src/bridge.rs:191-202 | garbage in front of a stream costs exactly its own bytes, in one skip, and no frame |
| Delivery.GarbageRecoveryInChunks | crates/opennetdeck-server/src/bridge.rs:182-204 | the same for any chunking that clears cleanly |
| Receivers.GrowableReceiver.Turn | crates/opennetdeck-server/src/bridge.rs:182-204 | one turn of the loop takes the frame, skips, waits or clears, leaving the rest of the drain to do |
| Receivers.DrainSlice | crates/opennetdeck-embedded/src/bridge.rs:55-82 | the loop over the shrinking slice emits the same frames and consumes all but the same residual |
| Receivers.FixedReceiver.Receive | crates/opennetdeck-embedded/src/bridge.rs:41-87 | the fixed buffer with in-place compaction behaves as the growable one; an empty read ends the session |
| Receivers.FixedReceiver.Compact | crates/opennetdeck-embedded/src/hub.rs:115-118 | moving the rest to the front keeps exactly the unconsumed bytes |
| Receivers.FullBufferIsExact | crates/opennetdeck-embedded/src/bridge.rs:43-54 | the buffer is full after a drain if and only if 2048 bytes wait behind a header announcing more than 2032 |
| Receivers.SmallFramesNeverFillTheBuffer | crates/opennetdeck-embedded/src/hub.rs:72-118 | senders of payloads up to 2032 bytes never fill it, however their bytes arrive |
| Capacity.DeliveredFramesAreSmall | crates/opennetdeck-embedded/src/bridge.rs:41-87 | for any bytes, and reads that find room, no frame with a payload over 2032 bytes is ever delivered |
| Capacity.StallIsExact | crates/opennetdeck-embedded/src/bridge.rs:43-54 | after any reads, no further read finds room if and only if 2048 bytes are buffered behind a valid header announcing more than 2032 |
| Capacity.FixedSessionIsExact | crates/opennetdeck-embedded/src/bridge.rs:41-87 | a sender's stream is delivered as in the server up to its first large frame and not beyond, and the session is stuck exactly when 2048 bytes of that frame are in |
| Capacity.WholeStreamFitsExactly | crates/opennetdeck-embedded/src/hub.rs:72-118 | a stream can be taken in whole if and only if every payload is at most 2032 bytes |
| Capacity.LargeFrameFillsTheBuffer | crates/opennetdeck-embedded/src/bridge.rs:41-87 | one read of a larger frame fills the buffer, delivers nothing, and leaves no room for any other read |
| Reports.BuildPayload | crates/opennetdeck-protocol/src/reports.rs:243-290 | fills the 128 bytes according to the layout, for pushes and queries, connected or not |
| Reports.ParseAfterBuild | crates/opennetdeck-protocol/src/reports.rs:195-290 | parsing a built report yields what survives truncation, for every device; a disconnected one parses to none |
| Reports.RoundTripIsExact | crates/opennetdeck-protocol/src/reports.rs:158-290 | a device made by `connected` is read back unchanged if and only if its kept name and serial hold no NUL |
| Reports.ParseBuildParse | crates/opennetdeck-protocol/src/reports.rs:195-290 | parse, build, parse is the identity up to byte 32 of unterminated strings |
| Layouts.ReportLayout | crates/opennetdeck-protocol/src/reports.rs:243-290 | a connected report field by field: prefix, length, status, slot, ids, revision, name, manufacturer, serial, port |
| Layouts.EmptyReportLayout | crates/opennetdeck-protocol/src/reports.rs:243-290 | a disconnected report carries the slot and nothing else |
| Layouts.EmptyRecord | crates/opennetdeck-protocol/src/reports.rs:144-156 | the record of an empty slot holds nothing but its number |
| Layouts.PushLayout | crates/opennetdeck-protocol/src/reports.rs:310-314 | a push is a `Write` without flags and with message id 0 |
| Keepalive.BuildProbePayload | crates/opennetdeck-protocol/src/keepalive.rs:34-39 | fills the probe payload |
| Keepalive.BuildAckPayload | crates/opennetdeck-protocol/src/keepalive.rs:62-67 | fills the acknowledgement payload |
| Keepalive.KeepaliveRoundTrip | crates/opennetdeck-protocol/src/keepalive.rs:13-87 | probes and acknowledgements decode to themselves, are recognised with their id, and are never confused |
| Layouts.KeepaliveLayout | crates/opennetdeck-protocol/src/keepalive.rs:34-87 | header and payload of probes and acknowledgements |
| Keepalive.ProbesCountUp | crates/opennetdeck-server/src/connection.rs:159-182 | over any schedule the probes of a connection carry the message ids 2, 3, 4 and so on, wrapping at 2^32 |
| Keepalive.TalkativePeerIsKept | crates/opennetdeck-server/src/connection.rs:157-187 | a peer whose receive gaps stay within 5000 ms is never dropped, for every schedule of data and ticks |
| Keepalive.SilentPeerIsDropped | crates/opennetdeck-server/src/connection.rs:157-187 | after any history, a silent peer is dropped more than 5000 and at most 7500 ms after its last byte, with two or three probes in between |
| Keepalive.MutePeerIsDropped | crates/opennetdeck-server/src/connection.rs:157-187 | a peer that never sends anything is dropped 7500 ms after it connected, after two more probes |
| Keepalive.ConnectionTimer.OnTick | crates/opennetdeck-server/src/connection.rs:173-187 | one tick closes, or queues one probe with the next wrapping message id |
| Keepalive.ConnectionTimer.OnData | crates/opennetdeck-server/src/connection.rs:195-196 | data restarts the silence |
| Dock.DockState.FindLowestFreeSlot | crates/opennetdeck-server/src/dock.rs:245-252 | the lowest free slot, or slot 0 when all are taken |
| Dock.DockState.AttachDevice | crates/opennetdeck-server/src/dock.rs:149-191 | updates table, reservation and event log as the attach function says, and returns slot and port |
| Dock.DockState.DetachDeviceBySerial | crates/opennetdeck-server/src/dock.rs:194-215 | frees the first slot holding the serial, keeps its reservation, logs one event; otherwise nothing |
| Dock.DockState.ChildAt | crates/opennetdeck-server/src/dock.rs:118-127 | the entry of a slot, or a disconnected record for empty and out-of-range slots |
| Dock.TableAlwaysFits | crates/opennetdeck-server/src/dock.rs:149-215 | over any history every entry carries its own slot index, port and serial, and reservations name real slots |
| Dock.AlwaysBound | crates/opennetdeck-server/src/dock.rs:149-215 | if serials are attached only while absent, the table stays one-to-one and agrees with the reservations |
| Dock.DoubleAttachIsNotBound | crates/opennetdeck-server/src/dock.rs:149-191 | without that discipline one serial occupies two slots |
| Dock.PortsAreDistinctExactly | crates/opennetdeck-server/src/dock.rs:172-175 | the eight ports differ if and only if the base port is at most 65528 |
| Dock.StickyRebinding | crates/opennetdeck-server/src/dock.rs:160-187 | a detached device returns to its slot and port if that slot is free, whatever happened meanwhile; otherwise it takes the lowest free slot; nobody is displaced while a slot is free |
| Dock.DockState.NextConnectionId | crates/opennetdeck-server/src/dock.rs:98-104 | the id is the counter, or 1 in place of 0, and the counter follows it |
| ConnectionIds.ZeroIdIsExact | crates/opennetdeck-server/src/dock.rs:98-104 | with interleaved increments, id 0 is returned if and only if the retry lands a multiple of 256 later, so never with fewer than 255 others in between |
| ConnectionIds.IdsAreDistinct | crates/opennetdeck-server/src/dock.rs:97-104 | ids fetched fewer than 256 increments apart differ, and the first 255 are 1 to 255 in order |
| Watcher.EveryRunIsSafe | crates/opennetdeck-server/src/usb/watcher.rs:47-169 | after any steps: distinct occupied serials, all active with the slot and port of their bridge; signals refer to the attachment that raised them; the active set is accounted for at every point of a scan |
| Watcher.NextKeepsConsistent | crates/opennetdeck-server/src/usb/watcher.rs:49-169 | each step keeps the binding between active bridges and slots |
| Signals.RaiseMarks | crates/opennetdeck-server/src/usb/watcher.rs:111-134 | a reported error marks its bridge, once and for all, and changes nothing else |
| Signals.SignalsAreDelivered | crates/opennetdeck-server/src/usb/watcher.rs:111-134 | in every state of every run, the error of each bridge that reported one waits in the queue, for that attachment and only once |
| Signals.DrainingEndsTheSignalled | crates/opennetdeck-server/src/usb/watcher.rs:49-62 | draining ends exactly the bridges that reported an error |
| Signals.ReportedErrorEndsTheBridge | crates/opennetdeck-server/src/usb/watcher.rs:49-134 | in every run, an error reported while draining ends the bridge and frees its slot, and leaves the others alone |
| Signals.ScansBeginClean | crates/opennetdeck-server/src/usb/watcher.rs:49-65 | no scan begins with a reported error outstanding |
| Identity.AttachShowsTheDevice | crates/opennetdeck-server/src/dock.rs:172-191 | after an attach clients see, in the device's slot, its vendor and product id, as much of its name and serial as fits, and the slot's port |
| Identity.TableShowsAttachedDevices | crates/opennetdeck-server/src/dock.rs:149-215 | over any history every slot taken shows a device attached under the slot's serial |
| Identity.ListedDeviceIsShown | crates/opennetdeck-server/src/usb/watcher.rs:69-149 | a listed device is attached if and only if it is an Elgato or Corsair one, its serial, or the stand-in, is not active, and it opens; its slot then shows it, with the override product id if there is one |
| Identity.RunShowsListedDevices | crates/opennetdeck-server/src/usb/watcher.rs:47-169 | in every state of every run each slot taken shows a device that some scan listed |
| Agreement.NoStaleDisconnect | crates/opennetdeck-server/src/usb/watcher.rs:49-62 | a drained signal only ever ends the attachment that raised it |
| Agreement.ScanConverges | crates/opennetdeck-server/src/usb/watcher.rs:65-169 | after a scan the active serials are those seen, minus those that were absent and could not be opened; survivors keep slot, port and attachment |
| Agreement.AgreementWithinCapacity | crates/opennetdeck-server/src/usb/watcher.rs:69-169 | if no scan exceeds eight devices, active bridges and occupied slots agree in every state |
| Agreement.AgreementThroughoutIsExact | crates/opennetdeck-server/src/usb/watcher.rs:47-169 | active bridges and occupied slots agree after every prefix of a run if and only if at most eight devices are active after every prefix |
| Agreement.ScanAgreementIsExact | crates/opennetdeck-server/src/usb/watcher.rs:69-169 | a scan preserves agreement if and only if it stays within eight devices, or the one device too many displaced an unplugged one from slot 0 |
| Overflow.FirstScanAgreesExactly | crates/opennetdeck-server/src/usb/watcher.rs:65-169 | the first scan of a fresh server ends in agreement if and only if it opened at most eight devices |
| Overflow.NineDevicesDisagree | crates/opennetdeck-server/src/dock.rs:160-170 | a scan of nine devices leaves nine bridges and no agreement |
| Overflow.LuckyNinthDeviceAgrees | crates/opennetdeck-server/src/usb/watcher.rs:69-169 | a run past the bound that ends in agreement: the ninth device displaced the one being unplugged |
| UsbWatcher.UsbWatcher.ProcessSignals | crates/opennetdeck-server/src/usb/watcher.rs:49-62 | drains signals until none is waiting, by drain steps of the machine, whatever bridge tasks raise behind each |
| UsbWatcher.UsbWatcher.ConsiderDevice | crates/opennetdeck-server/src/usb/watcher.rs:69-149 | attaches a listed device if it is a Stream Deck, is not active and opens |
| UsbWatcher.UsbWatcher.RaiseSignals | crates/opennetdeck-server/src/usb/watcher.rs:111-134 | each reporting bridge task queues its signal once, as the machine's raise step does |
| UsbWatcher.UsbWatcher.Scan | crates/opennetdeck-server/src/usb/watcher.rs:65-169 | a whole scan is the machine's scan: attach in listing order, then remove in some order, whatever signals bridge tasks raise behind each of its steps |
| UsbWatcher.UsbWatcher.Turn | crates/opennetdeck-server/src/usb/watcher.rs:47-177 | a turn drains and then scans, or only drains if the bus scan failed, with signals raised at any point |
| UsbWatcher.RunFromStart | crates/opennetdeck-server/src/main.rs:121-125 | any number of turns from a fresh server is a run of the machine from its initial state, turn by turn, and so keeps its invariants |
| Ports.PortsStayDistinctExactly | crates/opennetdeck-server/src/usb/watcher.rs:69-169 | if the base port is at most 65528, the active bridges' ports are distinct after every prefix of a run if and only if at most eight devices are active after every prefix |
| Replica.StepIsReplayed | crates/opennetdeck-server/src/dock.rs:149-215 | one table change, replayed from its event, changes the client's table alike |
| Replica.EventsReplayTheTable | crates/opennetdeck-server/src/connection.rs:127-150 | a client whose table is right when it subscribes keeps it right through any history |
| Replica.EventsKeepPart | crates/opennetdeck-server/src/connection.rs:127-150 | a client that holds part of the table keeps holding part of it through any history |
| Replica.LastDecides | crates/opennetdeck-protocol/src/reports.rs:195-240 | the last push for a slot decides what a replica holds there |
| Subscription.PolledReplicaIsExact | crates/opennetdeck-server/src/connection.rs:127-475 | for a client that subscribes and polls at any moments, with initial pushes and live events interleaved in any way, mixed traffic and chunking: the replica is the server's table if and only if no slot ends with an initial push overtaken to stale effect |
| Subscription.OvertakenPushLeavesAGhost | crates/opennetdeck-server/src/connection.rs:451-474 | a device detached after the poll whose initial push arrives last stays in the replica |
| Subscription.ReplicaEqualsTable | crates/opennetdeck-server/src/connection.rs:127-475 | with the dock still while the initial pushes arrive, in any order, the replica is the table after any history before and after, and queries for all 256 slot numbers say the same |
| Subscription.UnpolledReplicaIsExact | crates/opennetdeck-server/src/connection.rs:127-150 | a client that never polls has the table if and only if every slot occupied when it subscribed was touched since |
| Subscription.ReplicaIsAlwaysPartOfAPastTable | crates/opennetdeck-server/src/connection.rs:127-475 | if the dock is still while the initial pushes arrive: however little has arrived, the replica is part of a table the server really had, and all of it once the initial pushes are in |
| Race.ReplicaSlotsWereReal | crates/opennetdeck-server/src/connection.rs:127-475 | for any interleaving, however little has arrived and whatever is still to come: a slot that a push has arrived for shows what the server had there at some moment since the subscription, and the others are absent |
| Race.RacingReplicaIsExact | crates/opennetdeck-server/src/connection.rs:127-475 | for any interleaving, once the live events from before the poll are in: the replica is part of the table as of the last live event received if and only if no slot is stale so far |
| Race.RacingReplicaIsNoTable | crates/opennetdeck-server/src/connection.rs:451-474 | a race after which the replica is part of no table since the subscription |
| Race.RaceFromTheStart | crates/opennetdeck-server/src/dock.rs:149-215 | a history from a new dock that leads to that race |
| Replica.ReadableTableIsShownInFull | crates/opennetdeck-protocol/src/reports.rs:158-187 | with NUL-free names and serials, clients hold the server's records unchanged |
| Replica.InitialPushesInAnyOrder | crates/opennetdeck-server/src/connection.rs:451-474 | the pushes for all active children, in any order, complete whatever part of the table a client holds |
| EndToEnd.RunIsDockHistory | crates/opennetdeck-server/src/usb/watcher.rs:47-169 | every run of the watcher is a history of attaches and detaches of the dock |
| EndToEnd.ClientSeesTheActiveBridges | crates/opennetdeck-server/src/usb/watcher.rs:47-169 | with never more than eight active devices, a client that subscribes and polls at any moments lists exactly the slots of the active bridges, each with its bridge's port, unless a push was overtaken to stale effect |
| Conversation.PolledConversation | crates/opennetdeck-server/src/connection.rs:90-229 | a client that polls, both directions cut in any way, replies, spawned pushes, live events and probes interleaved in any way, the dock changing at any point: its requests are read, each question finds one reply, in order, and its replica is the final table if and only if no slot is stale |
| Conversation.UnpolledConversation | crates/opennetdeck-server/src/connection.rs:90-229 | the same for a client that never polls; its replica is the final table if and only if every slot occupied when it connected was touched since |
| Primary.OneAnswerPerRequest | crates/opennetdeck-server/src/connection.rs:260-519 | in Dock mode a frame is answered if and only if its payload is not empty, with its own id, the same command and byte 0x03 in front, and nothing reaches USB |
| Primary.SessionIsCorrelated | crates/opennetdeck-server/src/connection.rs:260-519 | over a session replies and questions pair up one to one, in order, whatever the dock does meanwhile |
| Primary.RequestReplyEndToEnd | crates/opennetdeck-server/src/connection.rs:189-229 | the same across any chunking of the requests and of the traffic coming back |
| Primary.ChildQueryTellsTheTable | crates/opennetdeck-server/src/connection.rs:409-427 | a child query is answered with the table's entry for the slot it names, as the replicas have it, or a disconnected report |
| PrimaryAnswers.IdentityAnswer | crates/opennetdeck-server/src/connection.rs:359-381 | 0x80: the dock's ids, or in direct mode the device's, at byte 12, and zeros elsewhere |
| PrimaryAnswers.FirmwareAnswer | crates/opennetdeck-server/src/connection.rs:382-386 | 0x83: eight bytes of firmware version at byte 8 |
| PrimaryAnswers.SerialAnswer | crates/opennetdeck-server/src/connection.rs:387-404 | 0x84: length and bytes of the serial number, in direct mode the device's |
| PrimaryAnswers.MacAnswer | crates/opennetdeck-server/src/connection.rs:405-408 | 0x85: the MAC address at byte 4 |
| PrimaryAnswers.NetworkAnswer | crates/opennetdeck-server/src/connection.rs:428-439 | 0x87: status, addresses if the local one is known, and port |
| PrimaryAnswers.BlankAnswer | crates/opennetdeck-server/src/connection.rs:440-482 | other opcodes are echoed and nothing said, unless a device has something to report |
| PrimaryAnswers.DeviceReportAnswer | crates/opennetdeck-server/src/connection.rs:476-500 | in direct mode a device's report lies at byte 0, 1 or 2, by how it starts, cut to the answer's length, with 0x03 and the opcode always in front |
| PrimaryAnswers.DeviceIsAskedExactly | crates/opennetdeck-server/src/connection.rs:476-483 | the device is read exactly for the opcodes the server has no answer to |
| PrimaryAnswers.ChildQueryNamesItsSlot | crates/opennetdeck-server/src/connection.rs:409-427 | a child query names its slot in byte 2, or means slot 0; the answer starts with that slot and its status and reads back as the table's entry |
| PrimaryAnswers.ProbeIsAcknowledged | crates/opennetdeck-server/src/connection.rs:271-281 | in both modes a probe is acknowledged with its ids and has no other effect |
| PrimaryAnswers.DirectFramesAreForwarded | crates/opennetdeck-server/src/connection.rs:283-346 | in direct mode output and feature reports go to the device as they are and are acknowledged if they ask for it, by flag or message id |
| PrimaryAnswers.EmptyFrameIsIgnored | crates/opennetdeck-server/src/connection.rs:349-350 | an empty frame has no effect, but for an empty feature report in direct mode |
| Primary.TrafficIsSeparable | crates/opennetdeck-server/src/connection.rs:90-150 | replies, pushes and probes are told apart by their first bytes |
| Primary.PushesAreSpawnedOnce | crates/opennetdeck-server/src/connection.rs:446-475 | a connection spawns initial pushes for its first idle poll only, for the children active then |
| Primary.FirstPollGivesTheTable | crates/opennetdeck-server/src/connection.rs:446-475 | those pushes, in any order, complete what live events have given the client to the table as it was at that poll |
| Primary.AcknowledgementCountsAsPoll | crates/opennetdeck-server/src/connection.rs:271-281 | a client's keepalive acknowledgement is answered as an idle poll |
| Primary.FrameHandler.HandleFrame | crates/opennetdeck-server/src/connection.rs:260-520 | queues the reply, spawns the pushes and calls the device as the response function says, in both modes |
| Primary.FrameHandler.FillReply | crates/opennetdeck-server/src/connection.rs:353-500 | fills the 1024-byte answer for every command |
| PrimaryConnection.PrimaryConnection.OnRead | crates/opennetdeck-server/src/connection.rs:195-229 | one read handles every complete frame in order inside the drain loop and keeps the rest, whatever the watcher does to the dock before each frame |
| PrimaryConnection.PrimaryConnection.HandleConnection | crates/opennetdeck-server/src/connection.rs:189-229 | all the reads of a connection, as one session of the response function |
| Direct.DirectSessionIsFaithful | crates/opennetdeck-server/src/connection.rs:283-346 | in direct mode the frames that expect a reply get one, in order, with their id; no initial pushes are spawned; and the device handle, if there was one, is given exactly the output payloads and the feature reports, once each and in one order |
| Direct.DirectTransfersAreMadeExactly | crates/opennetdeck-server/src/connection.rs:283-346 | everything a session means for the device is handed to its handle if and only if there was a device when the connection was accepted, or there is nothing |
| Direct.LostWriteIsAcknowledged | crates/opennetdeck-server/src/connection.rs:292-317 | a write that is acknowledged and dropped |
| Direct.LostReportIsAcknowledged | crates/opennetdeck-server/src/connection.rs:319-344 | a feature report that is acknowledged and dropped |
| Secondary.OneFrameAcrossTheBridge | crates/opennetdeck-server/src/bridge.rs:221-461 | which frames are answered, that replies echo id, op and VERBATIM, and that the device handle is given the payload of output frames and of feature reports, and of no others |
| BridgeAnswers.DeviceReportReachesTheClient | crates/opennetdeck-server/src/bridge.rs:347-371 | what the device reports to a read of the id asked for reaches the client whole, with zeros behind it if 1024 bytes were asked for |
| BridgeAnswers.FailedReadIsAnswered | crates/opennetdeck-server/src/bridge.rs:372-392 | a failed read is answered with 0x03, the id and zeros, in the length asked for |
| BridgeAnswers.BridgeNamesItsIds | crates/opennetdeck-server/src/bridge.rs:322-345 | 0x80 is answered with the device's ids, without asking it |
| BridgeAnswers.BridgeDescribesItsDevice | crates/opennetdeck-server/src/bridge.rs:279-320 | 0x1c is answered with the device's record under the slot asked for and port 5344, and reads back as that |
| BridgeAnswers.BridgeForwards | crates/opennetdeck-server/src/bridge.rs:395-461 | output and feature reports go to the device as they are and are acknowledged if they ask for it |
| BridgeAnswers.BridgeKeepsAlive | crates/opennetdeck-server/src/bridge.rs:237-251 | probes are acknowledged with their ids, acknowledgements swallowed |
| Secondary.BridgeSessionIsFaithful | crates/opennetdeck-server/src/bridge.rs:182-461 | over any chunking the device handle is given exactly the output payloads and the feature reports, once each and in one order, and replies answer the frames that expect one, in order |
| Secondary.SecondaryConnection.OnRead | crates/opennetdeck-server/src/bridge.rs:173-205 | one read handles every complete frame in order inside the drain loop and keeps the rest |
| Secondary.SecondaryConnection.HandleConnection | crates/opennetdeck-server/src/bridge.rs:165-207 | all the reads of a connection, as one session of the response function |
| Secondary.SecondaryConnection.HandleIncomingFrame | crates/opennetdeck-server/src/bridge.rs:221-461 | queues the reply and calls the device as the response function says |
| Secondary.SecondaryConnection.AnswerFeature | crates/opennetdeck-server/src/bridge.rs:265-391 | virtual queries, device reads with padding, and the fallback on a transfer error |
| EmbeddedSession.BridgesConverseAlike | crates/opennetdeck-embedded/src/bridge.rs:28-281 | over a session, for what gets through the fixed buffer, the embedded bridge answers the same frames as the server's, with the same flags, op and id, and outside queries the same bytes; and it calls its surface for exactly what the server transfers to its device |
| Embedded.SurfaceDescribesItself | crates/opennetdeck-embedded/src/bridge.rs:177-190 | its child query reads back as the surface it serves |
| Embedded.EmbeddedDeckBridge.HandleConnection | crates/opennetdeck-embedded/src/bridge.rs:28-103 | a whole connection over the fixed buffer: the replies to each read's frames and, behind them, the event polled from the surface; and the calls of all frames |
| BridgeAnswers.ImageIsDrawn | crates/opennetdeck-embedded/src/bridge.rs:245-256 | an image chunk is drawn on the key it names, with its index, its data and its mark of being the last |
| BridgeAnswers.BrightnessIsSet | crates/opennetdeck-embedded/src/bridge.rs:214-219 | the brightness report sets the brightness it carries |
| BridgeAnswers.NothingElseIsCalled | crates/opennetdeck-embedded/src/bridge.rs:214-256 | no other frame calls the surface |
| BridgeAnswers.SurfaceAnswerLength | crates/opennetdeck-embedded/src/bridge.rs:134-211 | length and header of every answer to a query |
| BridgeAnswers.SurfaceFirmware | crates/opennetdeck-embedded/src/bridge.rs:149-155 | 0x05: length and bytes of the firmware version |
| BridgeAnswers.SurfaceSerial | crates/opennetdeck-embedded/src/bridge.rs:156-162 | 0x06: length and bytes of the serial number |
| BridgeAnswers.SurfaceFixedAnswers | crates/opennetdeck-embedded/src/bridge.rs:163-195 | 0x0b: capabilities; 0x80: ids; other ids are echoed |
| BridgeAnswers.SurfaceAcknowledges | crates/opennetdeck-embedded/src/bridge.rs:214-281 | output and feature reports are acknowledged if they ask for it |
| EmbeddedSession.EventsTravelWithReplies | crates/opennetdeck-embedded/src/bridge.rs:28-103 | in that stream, however it is cut, the client finds the replies to everything received and the surface's events as they look on the wire, each in order |
| Surface.EncodeSurfaceEvent | crates/opennetdeck-embedded/src/bridge.rs:284-327 | fills the 512-byte report of an event |
| Layouts.KeyEventLayout | crates/opennetdeck-embedded/src/bridge.rs:289-300 | a key event byte by byte |
| Layouts.DialEventLayout | crates/opennetdeck-embedded/src/bridge.rs:301-318 | a dial event byte by byte |
| Layouts.TouchEventLayout | crates/opennetdeck-embedded/src/bridge.rs:319-325 | a touch event byte by byte |
| Layouts.EventFrameLayout | crates/opennetdeck-embedded/src/bridge.rs:91-99 | an event is pushed as a `Write` without flags and with message id 0 |
| Surface.EventsLookAlikeExactly | crates/opennetdeck-embedded/src/bridge.rs:284-327 | two events have the same report if and only if they are equal but for the cases the report cannot show |
| Surface.TurnLooksLikePress | crates/opennetdeck-embedded/src/bridge.rs:301-318 | a turn by one step is reported as a press, and by none as a release |
| Embedded.EmbeddedDeckBridge.HandleIncomingFrame | crates/opennetdeck-embedded/src/bridge.rs:105-281 | writes the reply and calls the surface as the response function says |
| Embedded.HubAnswersLikeTheServer | crates/opennetdeck-embedded/src/hub.rs:124-223 | given a table's active children, the hub answers every frame as a Dock-mode server would, the server's bytes leading its longer answers |
| BridgeAnswers.HubAnswerShape | crates/opennetdeck-embedded/src/hub.rs:141-220 | header and length of the hub's answer to every query |
| EmbeddedSession.HubSessionLikeTheServer | crates/opennetdeck-embedded/src/hub.rs:42-223 | the same over a session, for what gets through the fixed buffer, one answer per question |
| Embedded.EmbeddedDockHub.HandleConnection | crates/opennetdeck-embedded/src/hub.rs:42-122 | a whole connection over the fixed buffer: the greeting, then the answers to the frames the reads bring |
| Embedded.EmbeddedDockHub.HandleFrame | crates/opennetdeck-embedded/src/hub.rs:124-223 | writes the answer the response function gives |
| Embedded.EmbeddedDockHub.Greet | crates/opennetdeck-embedded/src/hub.rs:52-66 | sends one probe and then one push per active child, in order |

## Left out

- Sockets, tasks, mDNS, the command line and logging: the outgoing channel is a sequence and reads are arbitrary chunks.
- `nusb` transfers and endpoint discovery: a device is its ids, its recorded calls and an arbitrary feature report. That a transfer succeeds is not claimed: on both ports the handlers discard or log its result, and acknowledge failing transfers, and those to a device unplugged since, all the same. A call with empty data is recorded although the device handle then does nothing.
- The model tables in `models.rs`: a device arrives with the name they give it.
- `set_device_for_slot`: it bypasses the reservations by design.
- `first_usb_device` and the USB handle kept in a slot entry: they feed direct mode only.
- Broadcast lag and the 32- and 128-entry channel bounds: no event or signal is lost to a full channel.
- A failed bus scan: it changes nothing, so the machine has no step for it.
- Aborting a bridge task is atomic: a task that is being aborted raises no further signal.
- `usize` arithmetic on 32-bit targets, where a header announcing close to 2^32 bytes would overflow the total length.
- Embedded.SurfaceRespond: an empty `GetReport` is excluded, because the code indexes byte 0 of its payload.
- Write errors that end an embedded session early.
- Receivers.FixedReceiver.Receive: hands its frames over after the drain, where the embedded handlers handle each inside the loop; the handlers do not touch the buffer, so the order of effects is the same.
