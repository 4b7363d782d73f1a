# Verification of the qemud multiplexer, the fake camera pipelines, the frame converters and the NMEA reader

This project models five parts of the Android side of the repository in Dafny and proves
what they are for. `dafny verify dfyconfig.toml` checks all of it.

**qemud** (`android/qemud/qemud.c`) multiplexes the byte streams of local clients over
one serial port. The layers are a hexadecimal codec (`hex.dfy`), the framing of packets
as a pure receiver and an independent parser (`framing.dfy`), the objects that implement
it in place (`packets.dfy`, `fdhandler.dfy`, `serial.dfy`), the channel search
(`channels.dfy`), the daemon as a step relation over kernel events (`multiplexer.dfy`),
the same operations on the doubly linked client list (`mux_object.dfy`) and whole runs on
it (`mux_daemon.dfy`), and the event
loop: as a function of hook table and kernel state (`event_loop.dfy`, `event_reuse.dfy`)
and as the object with its growing array (`looper.dfy`). Over all runs of the
step relation: invariants (`mux_invariants.dfy`), packet ownership
(`mux_ownership.dfy`), the two end-to-end stream theorems (`mux_streams.dfy`), exactly
where they stop holding (`mux_limits.dfy`), when channel 0 is handed out (`mux_zero.dfy`)
and how long a closing handler stays (`mux_closing.dfy`).

**Camera 2** (`android/camera/EmulatedFakeCamera2.cpp`): the 3A control thread races with
requests and triggers; each critical section is one atomic step. Safety in
`camera2_focus.dfy`, liveness of a focus trigger in `camera2_focus_liveness.dfy`, the
in-flight ring and the hand-off between two threads in `camera2_readout.dfy` and, on the
shared ring object, in `camera2_object.dfy`.

**Camera 3** (`android/camera/EmulatedFakeCamera3.cpp`): mark-and-sweep reconfiguration
over shared objects (`camera3_streams.dfy`), status, results and buffers of captures in
flight across three threads (`camera3_capture.dfy`, the objects in `camera3_object.dfy`),
when a JPEG buffer comes back in error (`camera3_jpeg.dfy`), and the auto-exposure loop
(`camera3_exposure.dfy`).

**Converters** (`android/camera/Converters.cpp`, `Converters.h`): the 4:2:0 walks against
an indexed reference (`converters.dfy`).

**NMEA reader** (`android/gps/gps_qemu.c`): line assembly and tokenising of NMEA 0183
sentences, section 5.3 (`nmea.dfy`).

Random draws, timing, the kernel's answers and the scheduling of threads are parameters
of the steps, and every theorem about runs holds for all of them.

## Where code and documentation disagree

The model follows the code.

- `qemud.c:43` promises channel numbers above 0; the mask at line 1553 also yields 0, and
  a client on channel 0 shares it with the control messages (`MuxLimits.ZeroIsHandedOut`,
  `MuxLimits.StreamIntactIff`). Exactly when it does so is `MuxZero.ZeroGivenIff`; the
  promise holds until the 256th channel is tried (`MuxZero.PositiveBefore256`).
- `qemud.c:47` gives `connect:<id>:<name>`; line 1560 sends the name first
  (`MuxLimits.NameComesFirst`). Line 63 has `ko:connect` carry a reason; line 1455 accepts
  thirteen bytes only, and a longer refusal is ignored (`MuxLimits.RefusalWithReason`).
- `qemud.c:851-853` says a closing handler frees itself once drained; lines 936-945 do
  not: it stays until its descriptor hangs up, and only until then
  (`MuxClosing.LingersIff`, `MuxClosing.LeftBehind`).
- `qemud.c:406-434` adds a descriptor without looking whether a closed hook of it is still
  in the table, and `looper_enable` then finds that one: a connection accepted in the round
  in which its number became free is never read (`EventReuse.ReuseLosesInput`,
  `EventLoop.DaemonRoundIff`).
- `EmulatedFakeCamera2.cpp` calls the start rate of continuous autofocus once every five
  seconds; the constant exceeds every random ratio (`Camera2Focus.ContinuousAlwaysScans`).
- `EmulatedFakeCamera2.cpp:1183` says `isStreamInUse` locks in the order of `threadLoop`;
  `threadLoop` uses both orders (`Camera2Locks.StreamInUseCanDeadlock`).
- `EmulatedFakeCamera3.cpp:2357` says a busy JPEG path cannot happen at readout; two
  accepted requests with one JPEG buffer each suffice (`Camera3Capture.SecondJpegCanFail`).
  Which submissions are safe is `Camera3Jpeg.JpegIntactIff`.
- The name `YV12ToRGB565` promises YV12; the code reads YU12. The output is right exactly
  if exchanging the chroma values changes no pixel's word (`Converters.YV12ToRGB565`,
  `Converters.WrongColour`).

## Model

| member | source | states |
|---|---|---|
| `Hex.Hex2Int` | android/qemud/qemud.c:161-196 | the loop computes the base-16 value of the digits, and returns -1 exactly if one of them is no hexadecimal digit |
| `Hex.ValueIsBad` | android/qemud/qemud.c:161-196 | the value of a text is -1 if and only if one of its bytes is no hexadecimal digit |
| `Hex.Int2Hex` | android/qemud/qemud.c:198-207 | writes exactly `width` digits, equal to the text of the value |
| `Hex.ValueOfText` | android/qemud/qemud.c:161-207 | reading back written digits gives the value modulo 16^width, negative values included |
| `Hex.TextOfValue` | android/qemud/qemud.c:161-207 | digits read and written again come back if and only if all of them are lower-case hexadecimal digits |
| `Hex.ValueBound` | android/qemud/qemud.c:161-196 | a value read from n bytes is below 16^n, and not negative if all are digits |
| `Framing.ChunkInvariance` | android/qemud/qemud.c:1091-1156 | for arbitrary bytes, what is posted and what is kept depends only on the concatenation of the reads, not on how they cut it |
| `Framing.FeedIsParse` | android/qemud/qemud.c:1091-1156 | the byte-driven receiver posts exactly what an independent recursive-descent reading of the stream yields: a bad or zero length skips exactly the six header bytes, a bad channel consumes its payload silently |
| `Framing.RoundTrip` | android/qemud/qemud.c:1091-1180 | the concatenated frames of any packets, received, give the same payloads in the same order on the same channels (modulo 256) |
| `Framing.RoundTripChunked` | android/qemud/qemud.c:1091-1180 | the same under every chunking, with channels 0..255 unchanged |
| `Framing.ReceivedSoFar` | android/qemud/qemud.c:1091-1156 | after any prefix of the frames of a packet list, exactly the packets contained whole in it are posted |
| `Framing.CompleteIsGreatest` | android/qemud/qemud.c:1135-1154 | the number of whole frames used by the previous row is the greatest one whose encoding fits the prefix |
| `Framing.HeaderOfFrame` | android/qemud/qemud.c:1163-1180 | the header written for a payload, decoded, announces that payload length and channel |
| `Packets.PacketPool.Alloc` | android/qemud/qemud.c:659-676 | the head of the free list with cleared fields, or a fresh packet exactly when the list is empty |
| `Packets.PacketPool.Free` | android/qemud/qemud.c:678-687 | pushes the packet on the linked free list; a packet that is already free must not come again |
| `Packets.LinkedTail` | android/qemud/qemud.c:637-687 | what follows the first packet of a linked list is the rest of its items |
| `FDHandlers.FDHandler.Enqueue` | android/qemud/qemud.c:878-891 | appends at the tail pointer, which always addresses the last link or the head; queued bytes grow by the payload; EPOLLOUT is monitored exactly while the queue is non-empty |
| `FDHandlers.FDHandler.WriteReady` | android/qemud/qemud.c:928-949 | a partial write of `len` bytes moves exactly that many bytes from queued to written, and a packet written whole goes back to the pool |
| `FDHandlers.FDHandler.Discard` | android/qemud/qemud.c:831-838 | closing puts every queued packet on the free list exactly once |
| `FDHandlers.FDHandler.Append` | android/qemud/qemud.c:883-890 | the list after the write through the tail pointer is the old one and the packet |
| `FDHandlers.FDHandler.PopFirst` | android/qemud/qemud.c:936-946 | unlinks the head, resetting the tail pointer when the queue becomes empty, and frees the packet |
| `FDHandlers.ConservesAppend` | android/qemud/qemud.c:878-891 | written bytes and queued bytes (less the position in the first packet) still make up everything enqueued after an enqueue |
| `FDHandlers.ConservesAdvance` | android/qemud/qemud.c:928-935 | the same after a partial write |
| `FDHandlers.ConservesPop` | android/qemud/qemud.c:936-946 | the same after a packet is dropped from the queue |
| `SerialPort.Serial.Receive` | android/qemud/qemud.c:1091-1156 | for any packet read from the port whose declared lengths fit, the in-place reassembly posts what the byte-driven receiver posts and keeps its state; the read packet is freed and no packet is shared, lost or doubled |
| `SerialPort.Serial.Block` | android/qemud/qemud.c:1100-1154 | one turn of the receive loop consumes at least one byte and agrees with the byte-driven receiver on the bytes consumed |
| `SerialPort.Serial.DeliverPayload` | android/qemud/qemud.c:1140-1153 | a complete payload is posted with its channel and replaced by a new packet, or forgotten when the channel is malformed |
| `SerialPort.Serial.Send` | android/qemud/qemud.c:1163-1180 | what is enqueued is exactly the frame of the packet: header packet first, payload packet right behind it |
| `SerialPort.Serial.constructor` | android/qemud/qemud.c:1184-1204 | an idle receiver with one packet taken from the pool |
| `Channels.SomeFreeIffFewHeld` | android/qemud/qemud.c:1553-1557 | some channel value is unheld if and only if fewer than 256 values are held, whatever else is in the client list |
| `Channels.SearchEndsIffFewHeld` | android/qemud/qemud.c:1550-1558 | the TRY_AGAIN search ends if and only if fewer than 256 values are held |
| `Channels.NextIsUnique` | android/qemud/qemud.c:1550-1558 | the value the search ends with, the first unheld one cyclically after last_channel, is unique |
| `Channels.NextIsZeroIff` | android/qemud/qemud.c:1550-1558 | the search ends with channel 0 if and only if 0 is not held and every channel above the last one handed out is |
| `MuxObject.Mux.ClientNew` | android/qemud/qemud.c:1383-1415 | a new client is linked in front, with both directions of links intact |
| `MuxObject.Mux.Relink` | android/qemud/qemud.c:1260-1265 | unlinking through the back pointer leaves a well-linked list of all the others and changes no other field |
| `MuxObject.Mux.ClientFree` | android/qemud/qemud.c:1259-1279 | removes the client and leaves its handler to drain, as the state function says |
| `MuxObject.Mux.FindClient` | android/qemud/qemud.c:1420-1430 | walking the list finds the first client on the channel, or null exactly if there is none |
| `MuxObject.FoundFirst` | android/qemud/qemud.c:1420-1430 | the first match going down the list is the one the search on values finds |
| `MuxObject.Mux.ClientRegistration` | android/qemud/qemud.c:1346-1371 | the answer OK or KO is queued for the client and its registration and channel updated |
| `MuxObject.Mux.Command` | android/qemud/qemud.c:1439-1482 | a control message is one of the three commands exactly if it has thirteen bytes and one of the prefixes |
| `MuxObject.Mux.ControlReceived` | android/qemud/qemud.c:1435-1491 | the object does what the state function for control messages says, and frees the message |
| `MuxObject.Mux.SerialReceive` | android/qemud/qemud.c:1494-1515 | an incoming packet is obeyed, passed to the client on its channel, or freed, as the state function says |
| `MuxObject.Mux.NextChannel` | android/qemud/qemud.c:1550-1558 | the TRY_AGAIN loop over the linked list ends with the first unheld channel cyclically after last_channel |
| `MuxObject.Mux.OpenChannel` | android/qemud/qemud.c:1542-1571 | takes that channel and sends the connect request on channel 0, or returns -1 with nothing sent and the packet freed if the text does not fit |
| `MuxObject.Mux.ClientFdReceive` | android/qemud/qemud.c:1282-1323 | forwards, registers or drops a client in agreement with the state function |
| `MuxObject.Mux.ClientClosed` | android/qemud/qemud.c:822-854 | announces a held channel as closed, unlinks the client and frees its queued packets |
| `MuxDaemon.Perform` | android/qemud/qemud.c:895-950 | each kernel event does to the objects in memory what the step relation says |
| `MuxDaemon.Interleave` | android/qemud/qemud.c:506-561 | so does every run from start-up, and the invariants of the step relation hold of the objects |
| `MuxInvariants.StepInv` | android/qemud/qemud.c:1283-1571 | every event keeps client channels pairwise distinct, descriptors distinct, and all queues and the receiver well formed |
| `MuxInvariants.RunInv` | android/qemud/qemud.c:1283-1571 | the same over every run |
| `MuxInvariants.FindIsUnambiguous` | android/qemud/qemud.c:1420-1430 | in every run the client found for a held channel is the only holder |
| `MuxInvariants.PushAdds` | android/qemud/qemud.c:878-891 | enqueueing adds the packet to the pending bytes |
| `MuxInvariants.WriteMoves` | android/qemud/qemud.c:928-947 | a write moves a prefix of the pending bytes out |
| `MuxOwnership.StepAccount` | android/qemud/qemud.c:823-947 | no event duplicates or forgets a packet; only reads that return 0 lose one |
| `MuxOwnership.OwnedOnce` | android/qemud/qemud.c:659-687 | in every run each packet ever allocated is in exactly one place (free list, one queue, in_packet, or lost), exactly once |
| `MuxOwnership.LostIffZeroRead` | android/qemud/qemud.c:911-918 | packets are lost exactly by reads returning 0, one each; none is lost if and only if there is no such read |
| `MuxStreams.RunSends` | android/qemud/qemud.c:1163-1180 | over every run, bytes on the wire and bytes still queued for the port are the frames sent, whole and in order: a header is never separated from its payload |
| `MuxStreams.FarEndReceives` | android/qemud/qemud.c:928-947 | for every run and every cutting of the wire bytes, the far end receives exactly the frames written whole so far |
| `MuxStreams.RunStream` | android/qemud/qemud.c:1282-1323 | the payloads sent on a registered client's unshared channel are exactly the bytes read from that client |
| `MuxStreams.ClientToFarEnd` | android/qemud/qemud.c:1282-1323 | end to end, with anything happening before and after, other clients interleaved, writes partial and reads cut anyhow: of what is sent while a client is registered, the far end has on its channel a prefix of the bytes read from the client, all of them once it has these frames, and it has them at the latest when the port has caught up |
| `MuxStreams.ClientToFarEndSoFar` | android/qemud/qemud.c:1282-1323 | the same at any moment while the client is still registered |
| `MuxStreams.ServeDelivers` | android/qemud/qemud.c:1494-1515 | an incoming payload reaches a client's queue exactly if it is on the channel the client holds |
| `MuxStreams.DeliveredToHolderOnly` | android/qemud/qemud.c:1494-1515 | a payload on a held channel other than 0 changes the queue of its holder and of no other client |
| `MuxStreams.RunDelivers` | android/qemud/qemud.c:1494-1515 | over every run, bytes queued for a client and bytes written to it are exactly what was addressed to its channel |
| `MuxStreams.FarEndToClient` | android/qemud/qemud.c:1494-1515 | end to end: frames sent by the far end in any reads reach the descriptor of the client holding the channel, complete and in order, once its queue is drained |
| `MuxLimits.StreamIntactIff` | android/qemud/qemud.c:1282-1323 | a registered client's stream is unmixed in every run if and only if its channel is strictly between 0 and 255 |
| `MuxLimits.ZeroBreaks` | android/qemud/qemud.c:1525-1571 | on channel 0 a run mixes control messages into the client's stream |
| `MuxLimits.LastChannelBreaks` | android/qemud/qemud.c:1435-1455 | on channel 255 a run mixes in the data of a client registered by a malformed id |
| `MuxLimits.MalformedRegisters` | android/qemud/qemud.c:1438-1455 | a control message with a malformed id registers an unregistered client with channel -1 |
| `MuxLimits.RefusalWithReason` | android/qemud/qemud.c:1454-1464 | a refusal that carries a reason, other than one of two bytes, changes no client: the refused one keeps its channel and gets no answer |
| `MuxLimits.NameComesFirst` | android/qemud/qemud.c:1560 | a request has the name before the channel; read as documented it would be right only for names that begin with the digits of their channel |
| `MuxLimits.ZeroIsHandedOut` | android/qemud/qemud.c:1550-1558 | a run from start-up in which a client is registered on channel 0, against the comment that channels are above 0 (line 43) |
| `MuxZero.ZeroGivenIff` | android/qemud/qemud.c:1543-1571 | exactly when a client comes to hold channel 0: it names a service that fits a packet while every channel above the last one handed out is held |
| `MuxZero.PositiveBefore256` | android/qemud/qemud.c:1543-1571 | over every run from start-up the promise of channels above 0 holds until the 256th channel is tried |
| `MuxClosing.StepDrained` | android/qemud/qemud.c:851-947 | a closing handler with nothing left to write leaves with a hang-up on its descriptor and with no other event |
| `MuxClosing.LingersIff` | android/qemud/qemud.c:851-947 | in every run a drained closing handler stays, state by state, if and only if its descriptor does not hang up |
| `MuxClosing.LeftBehind` | android/qemud/qemud.c:851-947 | a run from start-up that leaves a drained handler behind |
| `LooperObject.Looper.Grow` | android/qemud/qemud.c:384-403 | the hooks move to a larger array unchanged and every registration the kernel holds points into it |
| `LooperObject.Looper.Repoint` | android/qemud/qemud.c:394-402 | the loop renews the registrations in slot order, as the function does, also when a descriptor has two hooks |
| `LooperObject.Looper.FindHook` | android/qemud/qemud.c:370-381 | the slot of the first hook of a descriptor, or -1 exactly if it has none |
| `LooperObject.Looper.Add` | android/qemud/qemud.c:409-434 | appends a hook with an empty mask, growing the table if it is full, for any descriptor, with or without hooks |
| `LooperObject.Looper.Del` | android/qemud/qemud.c:438-455 | marks the first hook as closing and removes the registration |
| `LooperObject.Looper.Enable` | android/qemud/qemud.c:457-479 | adds bits to the mask of the first hook and tells the kernel, unless all are there |
| `LooperObject.Looper.Disable` | android/qemud/qemud.c:482-504 | the same for removing bits |
| `LooperObject.Looper.Dispatch` | android/qemud/qemud.c:533-541 | whatever the callbacks do, each pending hook is called exactly once, in table order |
| `LooperObject.Looper.Sweep` | android/qemud/qemud.c:543-559 | swap-with-last ends with the table and registrations the sweep function gives |
| `LooperObject.Looper.Round` | android/qemud/qemud.c:506-561 | one turn of the loop on the array and the kernel state; from a good state exactly the reported descriptors are called, once each |
| `EventLoop.DidGood` | android/qemud/qemud.c:409-504 | a call keeps table and kernel in agreement and does what it is meant to, unless it adds a descriptor that has a hook |
| `EventLoop.CalledGood` | android/qemud/qemud.c:533-541 | so do the callbacks of a round |
| `EventLoop.SweptFromGood` | android/qemud/qemud.c:543-559 | the sweep keeps table and kernel in agreement and the masks unchanged |
| `EventLoop.SweptFromKeeps` | android/qemud/qemud.c:543-559 | from any table the sweep leaves exactly the open hooks, as a multiset |
| `EventLoop.CallsReported` | android/qemud/qemud.c:511-531 | the hooks marked pending are exactly the reported descriptors, without repetition |
| `EventLoop.DidSane` | android/qemud/qemud.c:384-504 | over every call, good or not, each watched descriptor has an open hook and each pointer is within the array |
| `EventLoop.RoundGood` | android/qemud/qemud.c:506-561 | a round whose callbacks add new descriptors only ends in a good state with the masks asked for |
| `EventLoop.TurnsGood` | android/qemud/qemud.c:506-561 | however long the loop runs, if each turn adds new descriptors only, it is in a good state after every turn with the masks all the calls so far ask for |
| `EventLoop.OldAddBreaks` | android/qemud/qemud.c:409-434 | a round that adds a descriptor with a hook in the table, open or closed, cannot end so, unless it was asked to watch the descriptor for nothing |
| `EventLoop.RoundIff` | android/qemud/qemud.c:506-561 | a round that listens to what it adds ends in a good state with the masks asked for if and only if it adds no descriptor that has a hook in the table |
| `EventLoop.DaemonRoundIff` | android/qemud/qemud.c:952-974 | the same for callbacks that enable input after adding a descriptor and never disable it, as the daemon does |
| `EventReuse.ReuseLosesInput` | android/qemud/qemud.c:409-479 | a client is closed and the next connection gets its descriptor in the same round: its input is asked for but never watched |
| `Camera2Focus.NextInv` | android/camera/EmulatedFakeCamera2.cpp:1593-1816 | every step of the control thread, a request or a trigger keeps mode and focus state in agreement unless a mode change is waiting |
| `Camera2Focus.RunInv` | android/camera/EmulatedFakeCamera2.cpp:1593-1816 | the same in every interleaving |
| `Camera2Focus.ModeAndStateAgree` | android/camera/EmulatedFakeCamera2.cpp:1731-1816 | at every idle point with no mode change waiting the focus state is legal for the mode, and a pending lock in CONTINUOUS_PICTURE implies a passive scan |
| `Camera2Focus.NeverUnexpected` | android/camera/EmulatedFakeCamera2.cpp:1818-1952 | the branches for unexpected focus states are unreachable, and a sleep is positive and never outlasts an active scan |
| `Camera2Focus.FocusAgrees` | android/camera/EmulatedFakeCamera2.cpp:1818-1952 | trigger, scan start and scan update take a legal state of the snapshot's mode to a legal one |
| `Camera2Focus.ContinuousAlwaysScans` | android/camera/EmulatedFakeCamera2.cpp:1892-1910 | the passive start rate exceeds every random ratio, so a continuous mode always scans or is locked (the comment at the constant says once every five seconds) |
| `Camera2Focus.ControlThread.ProcessRequestLocked` | android/camera/EmulatedFakeCamera2.cpp:1593-1653 | the fields after a request: a new focus mode clears pending triggers and raises the change flag |
| `Camera2Focus.ControlThread.TriggerActionLocked` | android/camera/EmulatedFakeCamera2.cpp:1685-1710 | the fields after a trigger: autofocus and cancel exclude each other |
| `Camera2Focus.ControlThread.Snapshot` | android/camera/EmulatedFakeCamera2.cpp:1745-1772 | takes the shared fields and clears the one-shot flags |
| `Camera2Focus.ControlThread.ResetFocus` | android/camera/EmulatedFakeCamera2.cpp:1774-1780 | a mode change or a cancel starts over from the inactive state |
| `Camera2Focus.ControlThread.RunFocus` | android/camera/EmulatedFakeCamera2.cpp:1782-1790 | trigger, scan start and scan update in this order, then the commit |
| `Camera2Focus.ControlThread.RunExposure` | android/camera/EmulatedFakeCamera2.cpp:1792-1798 | the exposure part of the cycle and its commit |
| `Camera2Focus.ControlThread.Interleave` | android/camera/EmulatedFakeCamera2.cpp:1593-1816 | the object in any interleaving of its thread with requests and triggers follows the step relation, keeps its invariant, and at idle points with no mode change waiting has a focus state that is legal for its mode |
| `Camera2FocusLiveness.CycleProgress` | android/camera/EmulatedFakeCamera2.cpp:1782-1816 | a cycle that does not end the scan makes the bound on remaining cycles strictly smaller |
| `Camera2FocusLiveness.TriggerWaits` | android/camera/EmulatedFakeCamera2.cpp:1685-1772 | a trigger given at any point of a cycle is still there at the next idle point |
| `Camera2FocusLiveness.AnswerComes` | android/camera/EmulatedFakeCamera2.cpp:1731-1952 | from an idle point with a trigger, every quiet interleaving with enough thread steps reaches a locked state |
| `Camera2FocusLiveness.TriggerReachesLock` | android/camera/EmulatedFakeCamera2.cpp:1731-1952 | a trigger in AUTO, MACRO or a CONTINUOUS mode reaches a locked state within the cycle's rest and twenty cycles, in every interleaving without cancel or mode change |
| `Camera2Readout.CyclicPush` | android/camera/EmulatedFakeCamera2.cpp:1160-1180 | writing at the tail and advancing it appends to the queue the ring stands for |
| `Camera2Readout.CyclicPop` | android/camera/EmulatedFakeCamera2.cpp:1231-1250 | advancing the head removes the first element of that queue |
| `Camera2Readout.CyclicAt` | android/camera/EmulatedFakeCamera2.cpp:1188-1204 | the scan from head reaches tail exactly after the queue's length, visiting its elements in order |
| `Camera2Readout.ReadoutThread.SetNextOperation` | android/camera/EmulatedFakeCamera2.cpp:1160-1180 | appends and counts the request, or drops it exactly if the ring holds its capacity of one less than its size |
| `Camera2Readout.ReadoutThread.TakeNext` | android/camera/EmulatedFakeCamera2.cpp:1212-1258 | takes the oldest entry, or goes inactive when there is none |
| `Camera2Readout.ReadoutThread.ReadyForNextCapture` | android/camera/EmulatedFakeCamera2.cpp:1156-1158 | true exactly if there is room |
| `Camera2Readout.ReadoutThread.IsStreamInUse` | android/camera/EmulatedFakeCamera2.cpp:1182-1204 | the scan ends, and is true exactly if a queued or the current request uses the stream |
| `Camera2Object.Pipeline.Interleave` | android/camera/EmulatedFakeCamera2.cpp:718-1395 | the ring and both threads in any interleaving follow the step relation and keep its invariant |
| `Camera2Pipeline.RunInv` | android/camera/EmulatedFakeCamera2.cpp:718-1395 | in every interleaving: count is the ring length plus one while reading, pending work keeps the thread active, room found for a capture stays until its hand-off, and entries are first in, first out |
| `Camera2Pipeline.DropsOnlyReprocess` | android/camera/EmulatedFakeCamera2.cpp:909-1041 | a hand-off drops its request if and only if the ring is full and it is a reprocess request; a capture is never dropped |
| `Camera2Pipeline.DeliversInOrder` | android/camera/EmulatedFakeCamera2.cpp:1212-1395 | what is delivered is what was accepted, in order, each once |
| `Camera2Pipeline.TurnCounts` | android/camera/EmulatedFakeCamera2.cpp:1212-1395 | each turn of the readout thread brings the delivery of the first n accepted entries nearer, and no act of the configure thread puts it off |
| `Camera2Pipeline.PendingWorkIsDone` | android/camera/EmulatedFakeCamera2.cpp:1212-1395 | in every interleaving three turns of the readout thread for each entry in its charge deliver everything accepted so far, in order: no wakeup is lost |
| `Camera2Pipeline.ReprocessCanBeDropped` | android/camera/EmulatedFakeCamera2.cpp:1026-1041 | a run in which a reprocess request is dropped |
| `Camera2Locks.DeadlockIffOrdersDiffer` | android/camera/EmulatedFakeCamera2.cpp:1182-1204 | two sections over two locks can block each other for good if and only if they take them in different orders |
| `Camera2Locks.StreamInUseCanDeadlock` | android/camera/EmulatedFakeCamera2.cpp:1182-1240 | isStreamInUse can deadlock with the start of threadLoop, against its comment that the orders are the same |
| `Camera3Streams.FakeCamera3.ConfigureStreams` | android/camera/EmulatedFakeCamera3.cpp:222-359 | refused outside open and ready or for an unacceptable list, with nothing changed; otherwise the configured streams are duplicate-free and as a set the request, survivors first, all alive with their old records, every dropped stream's record cleared |
| `Camera3Streams.FakeCamera3.Validate` | android/camera/EmulatedFakeCamera3.cpp:233-287 | succeeds if and only if the list is non-empty, has no null or unsupported stream and at most one input stream |
| `Camera3Streams.FakeCamera3.MarkAllDead` | android/camera/EmulatedFakeCamera3.cpp:290-297 | no stream is alive |
| `Camera3Streams.FakeCamera3.RequestAll` | android/camera/EmulatedFakeCamera3.cpp:299-334 | exactly the requested streams are alive, new ones appended in order of first occurrence |
| `Camera3Streams.FakeCamera3.Reap` | android/camera/EmulatedFakeCamera3.cpp:336-350 | erase-while-iterating leaves exactly the live streams in their order and clears exactly the dead ones' records |
| `Camera3Streams.ReconfiguredIsRequest` | android/camera/EmulatedFakeCamera3.cpp:222-359 | the resulting list has no duplicates and exactly the elements of the request |
| `Camera3Streams.WithinBoth` | android/camera/EmulatedFakeCamera3.cpp:299-350 | sweeping the extended list keeps the old survivors and all new streams |
| `Camera3Capture.ReadyMeansIdle` | android/camera/EmulatedFakeCamera3.cpp:2222-2231 | in every interleaving: the status is active if and only if work is in progress or a submission failed since the last idle signal; ready implies an empty queue, no submission, nothing being read and an inactive readout thread; the queue holds at most two requests |
| `Camera3Capture.UnsetIsNeverRead` | android/camera/EmulatedFakeCamera3.cpp:2273-2276 | the initial value of mThreadActive, which the constructor leaves unset, never influences the idle check |
| `Camera3Capture.OneResultEach` | android/camera/EmulatedFakeCamera3.cpp:2299-2480 | accepted requests get one main result each, in the order of acceptance |
| `Camera3Capture.BuffersReturnedOnce` | android/camera/EmulatedFakeCamera3.cpp:2349-2508 | every output buffer of every accepted request is returned exactly as often as it came in, under its own frame number, by main results and the JPEG path together |
| `Camera3Capture.ErrorsAreUncompressed` | android/camera/EmulatedFakeCamera3.cpp:2349-2392 | a buffer in a main result has an error status if and only if it is a JPEG buffer that could not be compressed |
| `Camera3Capture.CompressorHasInput` | android/camera/EmulatedFakeCamera3.cpp:2363-2377 | if no request has two JPEG buffers the compressor always gets the sensor's buffers |
| `Camera3Capture.BlockedStays` | android/camera/EmulatedFakeCamera3.cpp:2278-2297 | a request that waits for room while the readout thread waits for the camera's lock is released by its timeout only |
| `Camera3Capture.RoomComes` | android/camera/EmulatedFakeCamera3.cpp:2278-2480 | in every other wait for room, under every schedule without a timeout, enough steps of the readout thread make room |
| `Camera3Capture.ReadyOwesOne` | android/camera/EmulatedFakeCamera3.cpp:2451-2466 | whenever the status is ready at most one main result is unsent, and exactly one if the thread is about to send it |
| `Camera3Capture.CanBlock` | android/camera/EmulatedFakeCamera3.cpp:2222-2297 | a run that reaches that blocked wait |
| `Camera3Capture.SecondJpegCanFail` | android/camera/EmulatedFakeCamera3.cpp:2356-2361 | two accepted requests with one JPEG buffer each, the second of which comes back in error, although the comment says this should not happen |
| `Camera3Jpeg.NoErrors` | android/camera/EmulatedFakeCamera3.cpp:2349-2508 | in every run in which the compressor starts and succeeds, no request has two JPEG buffers and one with a JPEG buffer is submitted only when no earlier one waits for its readout, no buffer comes back in error, by either path |
| `Camera3Jpeg.JpegIntactIff` | android/camera/EmulatedFakeCamera3.cpp:930-958 | in every run in which the request is submitted now, whatever else is submitted later, with a compressor that starts and succeeds, none of its buffers comes back in error if and only if it has one JPEG buffer and no other waits in the queue or in the request being read out, or the request cannot be queued at all |
| `Camera3Jpeg.IntactIfNoneWaits` | android/camera/EmulatedFakeCamera3.cpp:930-958 | the safe side of it |
| `Camera3Jpeg.ErrorIfOneWaits` | android/camera/EmulatedFakeCamera3.cpp:930-958 | if one waits, or the request has two, a run in which its main result has a buffer in error |
| `Camera3Jpeg.SettledInRuns` | android/camera/EmulatedFakeCamera3.cpp:721-817 | in every run the theorem applies whenever no request is being submitted, the camera is initialised and the compressor works |
| `Camera3Jpeg.NoneWaitsAfterResults` | android/camera/EmulatedFakeCamera3.cpp:2462-2466 | once the main results of all accepted requests with JPEG buffers have come back, none waits |
| `Camera3Capture.ReadyBeforeResult` | android/camera/EmulatedFakeCamera3.cpp:2451-2466 | the status can be ready before the last result is sent |
| `Camera3Capture.ScanKeeps` | android/camera/EmulatedFakeCamera3.cpp:2349-2392 | one turn of the loop divides the buffers between the request and the compressor |
| `Camera3Object.Camera.ScanBuffers` | android/camera/EmulatedFakeCamera3.cpp:2349-2392 | the erase-while-iterating loop, undisturbed: the first JPEG buffer goes to a free compressor, all others stay in order with their status |
| `Camera3Object.Camera.ScanBuffer` | android/camera/EmulatedFakeCamera3.cpp:2350-2391 | one turn of it, as the state step says |
| `Camera3Object.Camera.SignalReadoutIdle` | android/camera/EmulatedFakeCamera3.cpp:2222-2231 | ready if still active and still idle |
| `Camera3Object.Camera.TakeRequest` | android/camera/EmulatedFakeCamera3.cpp:2306-2329 | takes the oldest request and marks the thread active |
| `Camera3Object.Camera.OnJpegDone` | android/camera/EmulatedFakeCamera3.cpp:2482-2508 | returns the kept buffer in a result of its own frame |
| `Camera3Object.Camera.Interleave` | android/camera/EmulatedFakeCamera3.cpp:2222-2508 | the objects in any interleaving of the three threads follow the step relation: ready means nothing in flight, the queue is bounded, and the results are those of the accepted requests in order |
| `Camera3Exposure.AlwaysWithinBounds` | android/camera/EmulatedFakeCamera3.cpp:1831-1944 | over every run current and target exposure stay within 2.5 and 60 ms, and the unexpected-state return is unreachable |
| `Camera3Exposure.TrackNoOvershoot` | android/camera/EmulatedFakeCamera3.cpp:1895-1897 | one tracking step stays between the old value and the target, with its exact remaining distance |
| `Camera3Exposure.SearchEnds` | android/camera/EmulatedFakeCamera3.cpp:1919-1929 | no search lasts longer than 56 frames, whatever the requests |
| `Camera3Exposure.SevenSteps` | android/camera/EmulatedFakeCamera3.cpp:1919-1922 | seven tracking steps at least halve the distance |
| `Camera3Exposure.PrecaptureEnds` | android/camera/EmulatedFakeCamera3.cpp:1874-1901 | no precapture lasts longer than 257 frames even if face priority changes every frame |
| `Camera3Exposure.FixedPrecaptureEnds` | android/camera/EmulatedFakeCamera3.cpp:1874-1901 | with a fixed face priority no precapture lasts longer than 23 further frames |
| `Camera3Exposure.PrecaptureLasts` | android/camera/EmulatedFakeCamera3.cpp:1874-1901 | a triggered precapture lasts at least eleven frames unless the loop is switched off |
| `Camera3Exposure.PrecaptureResult` | android/camera/EmulatedFakeCamera3.cpp:1874-1901 | a whole precapture with a fixed face priority takes at least twelve frames and ends less than a tenth below its target; if the exposure was above it, at most a third of the distance is left |
| `Camera3Exposure.ElevenFrames` | android/camera/EmulatedFakeCamera3.cpp:1895-1897 | eleven tracking steps from above leave at most a third of the distance |
| `Camera3Exposure.LockFreezes` | android/camera/EmulatedFakeCamera3.cpp:1903-1942 | locked frames outside a precapture leave exposure and target unchanged |
| `Camera3Exposure.AutoExposure.Process3A` | android/camera/EmulatedFakeCamera3.cpp:1765-1829 | the object does what the step function says, keeps the bounds and never fails with an unexpected state |
| `Camera3Exposure.AutoExposure.DoFakeAE` | android/camera/EmulatedFakeCamera3.cpp:1831-1944 | the exposure part of it |
| `Converters.Walk` | android/camera/Converters.cpp:28-86 | the one-pass walk writes to pixel k the colour of the samples the indexed reference gives for it, for every size (an odd width counts as the next even one), and nothing else |
| `Converters.WalkRow` | android/camera/Converters.cpp:39-46 | one row from any start, with the chroma positions it ends at |
| `Converters.NextRow` | android/camera/Converters.cpp:47-53 | saving after odd rows and restoring after even ones puts the chroma position at the start of the next row |
| `Converters.PixelAt` | android/camera/Converters.cpp:28-56 | pixel (x, y) is number y*w+x and its chroma value is number (y/2)*(w/2)+x/2 |
| `Converters.FrameIsRead` | android/camera/Converters.cpp:97-171 | for even width and height every read stays within the frame of w*h*3/2 bytes and finds the sample of its pixel, in all four layouts |
| `Converters.SampleOfPixel` | android/camera/Converters.cpp:28-86 | pixel (x, y) of a picture has luma y*w+x and chroma (y/2)*(w/2)+x/2 |
| `Converters.ToRGB32` | android/camera/Converters.cpp:97-171 | YV12, YU12, NV12 and NV21 frames become the colours of the picture they contain |
| `Converters.ToRGB565` | android/camera/Converters.cpp:139-165 | the same for the 16-bit conversions of NV12 and NV21 |
| `Converters.YV12ToRGB565` | android/camera/Converters.cpp:88-95 | reads the frame as if its chroma planes were in YU12 order, and writes the words of the YV12 picture if and only if no pixel changes its word with its chroma values exchanged |
| `Converters.ExchangedPlanes` | android/camera/Converters.cpp:88-104 | a YV12 frame read as YU12 is the picture with its chroma planes exchanged |
| `Converters.ExchangedWords` | android/camera/Converters.cpp:88-104 | the words of the two pictures are the same if and only if no pixel changes its word with its chroma values exchanged |
| `Converters.EqualPlanes` | android/camera/Converters.cpp:88-104 | that is so for pictures with equal chroma planes |
| `Converters.WrongColour` | android/camera/Converters.cpp:88-104 | and not for a picture of one colour that is shown in another |
| `Converters.LayoutsAgree` | android/camera/Converters.cpp:97-171 | one picture laid out in any two layouts gives the converters the same samples |
| `Converters.LayRoundTrip` | android/camera/Converters.cpp:97-171 | the picture of a laid-out picture is that picture |
| `Converters.FrameRoundTrip` | android/camera/Converters.cpp:97-171 | every frame is the lay-out of its picture |
| `Converters.Same565` | android/camera/Converters.h:205-227 | a 565 word holds exactly the upper bits of the 32-bit colour |
| `Nmea.SentencesAreLines` | android/gps/gps_qemu.c:541-562 | for every byte stream the sentences parsed are the lines of at most 83 bytes with their newline, in order, if and only if no such line is swallowed by a read line of exactly 83 bytes before it |
| `Nmea.NoFullLine` | android/gps/gps_qemu.c:541-562 | in particular for streams with no line of exactly 83 bytes |
| `Nmea.FeedLines` | android/gps/gps_qemu.c:541-562 | exactly which lines of any stream become sentences |
| `Nmea.FullLineSwallows` | android/gps/gps_qemu.c:541-562 | a line of 83 bytes makes the short line after it disappear |
| `Nmea.NmeaReader.AddC` | android/gps/gps_qemu.c:541-562 | one byte into the fixed buffer, as the step function says, always within the buffer |
| `Nmea.NmeaReader.Received` | android/gps/gps_qemu.c:757-758 | a whole read, byte by byte |
| `Nmea.NmeaTokenizer.Init` | android/gps/gps_qemu.c:70-112 | the stored tokens are the first sixteen comma-separated fields of the sentence without dollar sign, line end and checksum |
| `Nmea.NmeaTokenizer.Trim` | android/gps/gps_qemu.c:76-91 | what is left out at both ends |
| `Nmea.NmeaTokenizer.Get` | android/gps/gps_qemu.c:114-126 | the text of the token is the field of the sentence with that index, and empty if it has none among its first sixteen |
| `Nmea.TokensJoin` | android/gps/gps_qemu.c:92-108 | joined with commas the tokens are the text again, up to one comma at its end |
| `Nmea.TokensOfJoin` | android/gps/gps_qemu.c:92-108 | fields joined with commas, the last not empty, come out as tokens |
| `Nmea.SentenceRoundTrip` | android/gps/gps_qemu.c:70-112 | a sentence built from its fields gives those fields |
| `Nmea.StreamRoundTrip` | android/gps/gps_qemu.c:541-562 | any stream of proper sentences is read as those sentences with those fields |

## Left out

- System calls: sockets, epoll, pipes, gralloc, fences, the JPEG library, metadata. The kernel's epoll set is a map from descriptors to mask and hook pointer; reads and writes return any count the interface allows; `snprintf`, `memchr` and `memcpy` are functions. EINTR retries are not modelled.
- Frames whose declared length exceeds a packet (`qemud.c:1115`): the bound is a precondition of the receiver.
- `EventLoop.TurnsGood`: starts from a good state, in which each descriptor has one hook; what a loop does in the rounds after one that broke this is covered by the functions and by `EventLoop.DidSane` only.
- `EventLoop.RoundIff`: a round that adds a descriptor with a hook and then asks to watch it for nothing may end correctly, depending on the slots (`EventReuse.ReuseLosesInput` without a listener does), so the equivalence is for rounds that listen.
- Data that a closing handler reads after its client is gone (`qemud.c:858-918`): it is posted to a freed client. Reads of 0 and failing reads there are events of the model.
- Callbacks that use their own or another handler after it was closed (`qemud.c:535-541`, `921-928`): object lifetimes are not modelled, and callbacks of the event loop are lists of the calls they make.
- `SerialPort.Serial.Receive`: the posted frames are collected in order instead of calling the receiver from inside the loop, so the object does not show a receiver that frees a packet before the next one is allocated; `Multiplexer.ServeAll`, over which the ownership theorems range, does.
- `MuxDaemon.Interleave`: handlers, packets and the pool are values here (their objects are in `fdhandler.dfy` and `packets.dfy`); the list of closing handlers is a sequence, not a linked list.
- Packet data is a sequence held by the packet, as the array is embedded in the struct; event masks are sets of bits.
- `last_channel` and the NMEA and exposure counters are unbounded; a 32-bit overflow would need 2^31 registrations or frames.
- A client that waits for an answer while 256 channels are held: the search does not end (`Channels.SearchEndsIffFewHeld`), so the event is not enabled.
- qemud's dispatch of `X00` probes and of unknown control messages is one case, since both only free the packet.
- Spurious and broadcast wake-ups of the camera threads' condition variables, and joining threads at close.
- Camera 2: reprocess set-up details, exposure time and frame duration of the sensor, white balance, and the per-class stream counters.
- `Camera2Locks.DeadlockIffOrdersDiffer`: two sections with two locks each, which is all the readout thread has.
- Camera 3: request validation of buffers and fences (a request in the model is a valid one; a failure after the status is set is the event `Fail`), the sensor's timing, autofocus and white balance.
- `Camera3Object.Camera.ScanBuffers`: describes the whole loop when the compressor does not finish during it; `Camera3Object.Camera.Interleave` and all theorems about runs allow it to finish between any two turns.
- `Camera3Exposure.FakeAE`: the track rate 0.1f is taken as exactly one tenth and float rounding is left out; the random wander factor is any real in [1/4, 2].
- `Converters.ToRGB32`: the fourth byte of an RGB32 pixel is left unset by the code and is not modelled; RGB32 and RGB565 follow the little-endian branch.
- `Converters.FrameIsRead`: even width and height; the walk itself is proved for all sizes whose planes are long enough.
- `hasCapability` and other constant configuration are parameters or left out.
- GPS coordinates, dates and the fix that a sentence leads to; sentences shorter than nine bytes are handed to the parser, which ignores them.
- The service layer, HAL glue and dispatch tables, default metadata, lights, power, audio and the other modules of the repository.
