# DMX512 and RDM drivers: a verified model

This project models the parts of the DMX512/RDM driver collection where several functions have to work
together, and proves what they promise jointly. It follows the code; where the code and a reasonable
expectation differ, the model keeps the code and the proofs say exactly when it does what one expects.

| file | what it models |
|---|---|
| `Sequences.dfy`, `Octets.dfy`, `RdmPacket.dfy` | distinctness and concatenation, octets, checksum, and RDM messages (section 6.2 of ANSI E1.20): layout, decoder, in-place encoder |
| `DiscoverySearch.dfy` | the binary search over UID ranges as a state machine: coverage, request bound, when it finds everything |
| `RdmBus.dfy`, `RdmController.dfy` | responders, the bus that condenses their replies, and the controller's discovery loop, refining that search |
| `Pc16x50.dfy`, `StreamUart.dfy`, `TransmitOverflow.dfy` | the UART with FIFO and shift register, the event engine that drives it, and what becomes of data runs that are too long |
| `DmxFrameEvents.dfy`, `LineSession.dfy`, `ReceiveEvents.dfy` | frames compiled into events, queued, and seen on the line; received octets gathered into events |
| `DiscoveryReply.dfy`, `ChunkReceiver.dfy`, `DriverReplies.dfy` | the discovery-reply codec (section 7.5 of ANSI E1.20), its incremental receiver, the packets a driver makes of it |
| `SlotLock.dfy`, `PortLedger.dfy`, `DmxPort.dfy` | the half-duplex port: slot-count lock, frame ownership and request/answer matching, receive segmentation |
| `StableMerge.dfy`, `KernelList.dfy`, `ListSort.dfy`, `FrameQueue.dfy` | the intrusive list, its merge sort on the heap, and the frame queue |
| `Loopback.dfy` | the frame pool of the DMX512 core with the two cross-linked dummy cards |

`dafny verify dfyconfig.toml` checks the whole project.

## The main results

* **Discovery.** At every point of every run the search loses no device, invents none and accounts for every
  request (`DiscoverySearch.CoversRun`). With k devices in range and 1 + k + 2·L·⌊k/2⌋ requests, L the bit
  length of the range size minus two, it returns exactly those devices *if and only if* no two of them are
  neighbours u, u+1 such that splitting reaches the range [u, u+1] (`DiscoverySearch.DiscoveryComplete`); such
  a pair defeats every budget (`StuckPairNeverFound`, `StuckExample`). The imperative system of controller, bus,
  devices and encoded packets refines this search step by step (`RdmController.Controller.DiscoverDevices`),
  provided that no earlier request is still waiting for its reply: an unanswered one, such as muting an absent
  device, takes the reply to the first branch request, and discovery then reports nothing although its work list
  is empty. The method states both cases and their combination as an if-and-only-if; `DiscoverAfterAbsent` shows
  the failure and that the next discovery works again.
* **Event engine.** For every interleaving of queueing, handler passes and octets leaving the shift register,
  what is seen on the line is a prefix of the sequential meaning of the accepted events, each octet under one
  unchanging setting from first to last bit, each report read from the registers in its place
  (`StreamUart.Engine.HandlerThread`). Nothing is missing but the ends of data runs longer than the 1024-octet
  transmit buffer, and for every list with such a run there is an interleaving that does lose octets
  (`TransmitOverflow.Overflow`). Every pass that finds the FIFO empty gets work done, so that with enough pauses
  between passes everything accepted is executed (`StreamUart.Engine.RunDry`). Frames never make such runs, and look
  on the line as DMX512 demands at every moment of every run (`LineSession.FramesOnLine`); a frame that finds room in
  the queue gets there octet by octet as the buffer held it (`LineSession.SendAndDrain`).
* **Port.** Over every run of callbacks accepted two-way requests are answered in order and at most once, all but
  possibly the latest, the line driver is on exactly while transmitting, and no frame is given away twice
  (`PortLedger.OneAnswerPerRequest`). The latest one may stay open for ever: throughout an exchange the request has
  a timer exactly if no timeout was handled while it was being sent. With a timer it is answered at the latest when
  that expires (`DmxPort.Port.TimeoutAnswers`); without one no number of polls answers it and every further frame is
  refused (`NeverTimesOut`), and a timeout of the exchange before that is polled late brings this about
  (`StaleTimeout`). A received stream, however its octets are grouped into interrupts, is cut exactly where the RDM
  length or the locked slot count says; surplus octets after a DMX frame reset a lock below 512 slots exactly if the
  interrupt that reads the frame's last octet reads on behind it (`ReceiveStream`). A break
  delivers the frame that it cuts short with exactly the octets received (`BreakAfterStream`). A discovery exchange
  ends with the outcome that the decoder reads in the octets received (`DiscoveryExchange`). A reply timeout does not stop the reception: late
  octets are written into a frame that is no longer the port's until the buffer is full, the next reception begins
  or a frame is sent (`OrphanedExactly`, `LateReply`, `LateAfterSend`).
* **Codecs.** Packet and discovery-reply codecs are inverse to each other in both directions; the discovery-reply
  decoder accepts exactly the well-formed receptions (`DiscoveryReply.DecodeExact`), however they are split into
  chunks (`ChunkReceiver.ReceiveAll`).
* **Lists.** `list_sort` leaves a well-formed circular list that is the one stable sort of the input, for every
  total preorder and length, including lists that reach the clamp at the top slot (`ListSort.Sort`,
  `StableMerge.StableSortUnique`). That the top slot is never empty is what makes the unguarded first turn of the
  last loop safe.
* **Loopback.** Over all reads and writes the sixteen entries, on linked queues, are conserved and frames arrive
  in order with their port number (`Loopback.EveryRun`, `Loopback.Core.Write`, `Loopback.Core.Read`); every frame
  reported as transferred is handed out by the read whose turn it is (`Loopback.InTurn`).

## Model

| member | source | states |
|---|---|---|
| `Octets.BigEndianRoundTrip` | src/librdm/rdmvalues.hpp:295-301 | an n-octet big-endian field holds its value modulo 256^n |
| `Octets.FromBigEndianRoundTrip` | src/librdm/rdmvalues.hpp:295-301 | reading a field and writing it back reproduces its octets |
| `Octets.BigEndianDigit` | src/librdm/rdmvalues.hpp:295-301 | octet i of an n-octet field is the digit of the value to the base 256 at n − 1 − i |
| `Octets.ChecksumLaws` | src/librdm/rdmvalues.hpp:286-293 | the checksum of nothing is zero, of one octet that octet, and of a concatenation the 16-bit sum of both checksums |
| `Octets.BitwiseOctets` | src/uio-testbench/rtuart/t_dmxrtuart.c:193-204 | masking an octet is masking its eight bits |
| `RdmPacket.CopyReversed` | src/librdm/rdmvalues.hpp:295-301 | the in-place reversed copy of a little-endian integer writes its big-endian octets and nothing else |
| `RdmPacket.CalculateChecksum` | src/librdm/rdmvalues.hpp:286-293 | the loop yields the checksum whose laws are `Octets.ChecksumLaws` |
| `RdmPacket.DecodeEncode` | src/librdm/rdmvalues.hpp:303-398 | every header field and the parameter data of an encoded packet are decoded; length octet and trailing checksum are right |
| `RdmPacket.EncodedOctets` | src/librdm/rdmvalues.hpp:260-276 | every octet of an encoded packet, by its offset |
| `RdmPacket.EncodeDecode` | src/librdm/rdmvalues.hpp:303-398 | a packet with right start codes, lengths and checksum is the encoding of its own fields: the codec is exact in both directions |
| `RdmPacket.RequestsForMe` | src/librdm/rdmvalues.hpp:326-337 | requests are the command classes 10, 20 and 30 (hex); a device listens to its own UID and the broadcast UID |
| `RdmPacket.AppendsRoundTrip` | src/librdm/rdmvalues.hpp:376-398 | every appended integer is read back at its offset modulo its width; reads past PDL are refused |
| `RdmPacket.PacketEncoder.constructor` | src/librdm/rdmvalues.hpp:408-422 | a new encoder holds the buffer's header fields and no parameter data |
| `RdmPacket.PacketEncoder.Source` | src/librdm/rdmvalues.hpp:443-448 | sets the 48-bit source UID and no other field |
| `RdmPacket.PacketEncoder.Destination` | src/librdm/rdmvalues.hpp:450-455 | sets the 48-bit destination UID and no other field |
| `RdmPacket.PacketEncoder.CommandClass` | src/librdm/rdmvalues.hpp:487-491 | sets the command class and no other field |
| `RdmPacket.PacketEncoder.ResponseType` | src/librdm/rdmvalues.hpp:469-473 | sets the response type and no other field |
| `RdmPacket.PacketEncoder.Pid` | src/librdm/rdmvalues.hpp:493-497 | sets the parameter id and no other field |
| `RdmPacket.PacketEncoder.AddPd` | src/librdm/rdmvalues.hpp:533-544 | appends a sized integer to the parameter data, headers untouched, as long as message length and buffer allow |
| `RdmPacket.PacketEncoder.Finalize` | src/librdm/rdmvalues.hpp:424-441 | buffer then starts with the 26 + PDL octets of the encoded packet |
| `DiscoverySearch.CollisionMid` | src/librdm/rdmapi.cpp:187-188 | a collision cannot make the split underflow |
| `DiscoverySearch.StepMeans` | src/librdm/rdmapi.cpp:160-213 | one turn by what is in the oldest range: dropped, or its one device muted and reported last and the range requeued, or split in the middle with both halves queued last |
| `DiscoverySearch.CoversStep` | src/librdm/rdmapi.cpp:160-213 | one turn of the loop keeps coverage: unmuted devices are pending, found ones are real, distinct and muted, requests = 1 + 2·collisions + found − pending |
| `DiscoverySearch.CoversRun` | src/librdm/rdmapi.cpp:160-213 | coverage after any number of requests; the loop stops early only with an empty work list |
| `DiscoverySearch.EmptyMeansComplete` | src/librdm/rdmapi.cpp:160-215 | an empty work list means that all devices of the range were found |
| `DiscoverySearch.PotentialStep` | src/librdm/rdmapi.cpp:164-209 | each request on separable ranges lowers the potential, which stays separable |
| `DiscoverySearch.PotentialRun` | src/librdm/rdmapi.cpp:148-215 | a budget of the potential empties the work list |
| `DiscoverySearch.DepthHalves` | src/librdm/rdmapi.cpp:187-188 | each split takes one bit off the size of both halves |
| `DiscoverySearch.NoNeighboursSeparable` | src/librdm/rdmapi.cpp:187-188 | without neighbouring UIDs every range is separable |
| `DiscoverySearch.TrappedStep` | src/librdm/rdmapi.cpp:187-188 | a pair that splitting reaches stays together in one pending range |
| `DiscoverySearch.DiscoveryComplete` | src/librdm/rdmapi.cpp:148-215 | with 1 + k + 2·L·⌊k/2⌋ requests exactly the k devices are found, and the work list empties, if and only if the range is separable |
| `DiscoverySearch.DiscoverComplete` | src/librdm/rdmapi.cpp:148-215 | with the controller free of unanswered requests or not: all devices of a range are found iff it is free and the range separable, or nobody is there; otherwise the empty work list says nothing |
| `DiscoverySearch.StuckPairNeverFound` | src/librdm/rdmapi.cpp:187-188 | a stuck pair is reported by no budget |
| `DiscoverySearch.StuckExample` | src/librdm/rdmapi.cpp:187-188 | devices 4 and 5 in 1..8 are never found; 3 and 4 are separable |
| `DiscoverySearch.DefaultRangeDepth` | src/librdm/rdmapi.cpp:246-251 | the default range is 48 bits deep, so 1 + k + 96·⌊k/2⌋ requests |
| `RdmBus.BuildMessage` | src/librdm/rdmapi.cpp:17-32 | the encoder chain on a zeroed header yields the encoded message with its appended fields |
| `RdmBus.RdmDevice.Handle` | src/librdm/rdmdevice.cpp:104-209 | mute state and reply of a responder to any readable frame, discovery, mute and un-mute branches |
| `RdmBus.RespondMeans` | src/librdm/rdmdevice.cpp:104-209 | for every readable frame: exactly when a responder replies, the acknowledgement it then sends, field by field, and its mute state afterwards |
| `RdmBus.DmxBus.HandleSlave` | src/librdm/dmxbus.cpp:131-139 | a slave's frame is queued exactly while a master request is active |
| `RdmBus.DmxBus.Broadcast` | src/librdm/dmxbus.cpp:81-99 | every slave gets the frame once; their replies are queued in bus order |
| `RdmBus.RepliesNext` | src/librdm/dmxbus.cpp:81-87 | replies stand in bus order |
| `RdmBus.DmxBus.HandleMaster` | src/librdm/dmxbus.cpp:81-129 | the master gets the condensed reply and the queue is empty again |
| `RdmBus.CondenseMeans` | src/librdm/dmxbus.cpp:94-129 | a single reply, or the first to anything but a branch request, is passed on; silence and collision are reported for branch requests only, by the UIDs zero and all ones |
| `RdmBus.BranchAnswer` | src/librdm/dmxbus.cpp:81-139 | for every set of devices and range the one reply's source is u iff u is the only unmuted device in range, 0 iff none, all ones iff several; nobody is muted |
| `RdmBus.AnsweringReplies` | src/librdm/rdmdevice.cpp:131-162 | exactly the unmuted devices of the range reply, each with its own UID |
| `RdmBus.MuteAnswer` | src/librdm/rdmdevice.cpp:164-194 | mute and un-mute change exactly their target, every device for a broadcast; unicast is answered iff the target exists |
| `RdmBus.MutedUids` | src/librdm/rdmdevice.cpp:164-178 | muting removes exactly that UID from the unmuted set |
| `RdmController.RdmFuture.Set` | src/librdm/rdmapi.cpp:57-66 | a future takes at most its buffer and is ready |
| `RdmController.RdmFuture.Wait` | src/librdm/rdmapi.cpp:68-79 | a busy future times out, a ready one stays ready |
| `RdmController.ClassifyReply` | src/librdm/rdmapi.cpp:175-211 | how the loop reads the bus's replies: collision, nobody, found |
| `RdmController.ClassifyMeans` | src/librdm/rdmapi.cpp:175-211 | which replies the loop ignores, and how the source of the others is read |
| `RdmController.Controller.Handle` | src/librdm/rdmapi.cpp:319-352 | a frame completes the oldest future and drops the others |
| `RdmController.Controller.Request` | src/librdm/rdmapi.cpp:164-173 | the reply goes to the oldest future: to the new one iff no other is waiting |
| `RdmController.Controller.SetMute` | src/librdm/rdmapi.cpp:102-142 | mutes or un-mutes exactly its target on the bus; an absent device leaves an unanswered future behind |
| `RdmController.Controller.AskBranch` | src/librdm/rdmapi.cpp:164-211 | through encoding, bus, devices and decoding, the answer tells none, one (which) or several unmuted devices in range; it is ignored iff an older future takes it |
| `RdmController.Controller.SearchTurn` | src/librdm/rdmapi.cpp:162-212 | one turn of the loop is one step of the abstract search, or drops its range if an older future takes the reply |
| `RdmController.Controller.DiscoverDevices` | src/librdm/rdmapi.cpp:148-215 | the whole method, from any state of the futures, returns what the abstract search finds and mutes exactly those; with enough budget that is every device of the range iff no older request is waiting and splitting separates them, or nobody is there |
| `RdmController.Controller.DiscoverAfterAbsent` | src/librdm/rdmapi.cpp:102-215 | muting or un-muting an absent device makes the next discovery return nothing, and the one after that is right again |
| `Pc16x50.FormatRoundTrip` | src/simulation/uart/pc16cx50.c:212-268 | a supported line format is read back as set; break and DLAB bits stay |
| `Pc16x50.FormatBits` | src/simulation/uart/pc16cx50.c:212-236 | the bits of the line control register for word length, stop bits and parity |
| `Pc16x50.Chip.WriteThr` | src/simulation/uart/pc16cx50.c:52-55 | an octet joins the FIFO or, on an idle transmitter, starts shifting under the settings in force |
| `Pc16x50.Chip.SetBaudrateDivisor` | src/simulation/uart/pc16cx50.c:159-166 | the DLAB sequence sets the divisor and leaves line format, interrupt enables and transmitter as they were |
| `Pc16x50.Chip.GetBaudrateDivisor` | src/simulation/uart/pc16cx50.c:168-178 | reads the divisor and changes nothing |
| `Pc16x50.Chip.SetFormat` | src/simulation/uart/pc16cx50.c:239-243 | changes the format bits only |
| `Pc16x50.Chip.GetFormat` | src/simulation/uart/pc16cx50.c:270-274 | the format that the line control register holds |
| `Pc16x50.BaudReadBack` | src/simulation/uart/pc16cx50.c:159-178 | through the 16-bit divisor: the rate read back is not below the one asked for and off by at most b²/(B−b) iff the divisor is between 1 and 65535, and then reproduces the divisor; else it is zero or at least twice the rate |
| `Pc16x50.SlowRates` | src/simulation/dmx512_suart.c:236-251 | at 100 MHz that shuts out the rates below 96: 95 baud is read back as 24703 |
| `Pc16x50.SetThenGet` | src/simulation/uart/pc16cx50.c:159-178 | the same on the chip, line format, interrupt enables and transmitter unchanged |
| `StreamUart.RateReported` | src/simulation/dmx512_suart.c:236-251 | the same for the set and get events of the engine |
| `StreamUart.EnablesSet` | src/simulation/dmx512_suart.c:294-323 | which interrupt-enable bit each event sets or clears, all others kept |
| `StreamUart.SettingsSet` | src/simulation/dmx512_suart.c:235-271 | only their own events change rate, format and lines, and how |
| `StreamUart.LinesChanged` | src/simulation/dmx512_suart.c:50-81 | a line change sets exactly the masked lines to their values; OUT1 and GPIO0 share one register bit |
| `StreamUart.Reports` | src/simulation/dmx512_suart.c:226-273 | echoes and queries report, nothing else does, and what they report |
| `StreamUart.MeaningPrefix` | src/simulation/dmx512_suart.c:388-441 | later events never take back what earlier ones meant |
| `StreamUart.MeaningAt` | src/simulation/dmx512_suart.c:388-441 | every octet of every data event and every control event stands in its place on the line, under the settings made by the events before it |
| `StreamUart.MeaningConcat` | src/simulation/dmx512_suart.c:388-441 | the meaning of events in a row is the meanings in a row |
| `StreamUart.MeaningAfterShutdown` | src/simulation/dmx512_suart.c:424-425 | nothing after a shutdown shows on the line |
| `StreamUart.Engine.PutEvents` | src/simulation/suart/streamuart.c:13-17 | the queue accepts what it has room for, and the refinement invariant holds |
| `StreamUart.Engine.TakeData` | src/simulation/dmx512_suart.c:348-364 | a data event moves to the transmit buffer as far as that has room, and is kept to that extent |
| `StreamUart.Engine.FetchData` | src/simulation/dmx512_suart.c:348-364 | fetches until no data event is at the head of the queue, whatever is queued meanwhile, and keeps the refinement |
| `StreamUart.Engine.WriteHeld` | src/simulation/dmx512_suart.c:366-386 | an octet is written only into a transmitter with room for it |
| `StreamUart.Engine.Transmit` | src/simulation/dmx512_suart.c:366-386 | moves up to 17 octets into an idle transmitter, up to 16 into one with an empty FIFO, none otherwise, as many as are buffered; refinement kept |
| `StreamUart.Engine.Apply` | src/simulation/dmx512_suart.c:226-340 | the register accesses of each control event have the effect that the event means, and what it reports is what was read |
| `StreamUart.Engine.HandleControl` | src/simulation/dmx512_suart.c:226-340 | control and echo events act with the transmitter idle and every earlier octet out, and leave their report in the trace |
| `StreamUart.Engine.HandleShutdown` | src/simulation/dmx512_suart.c:388-441 | a shutdown ends the handler after all earlier events took effect |
| `StreamUart.Engine.HandleAllPendingEvents` | src/simulation/dmx512_suart.c:388-441 | one pass, whatever interferes: with octets left over it takes all data at the head of the queue, otherwise everything that no run of data and no shutdown holds back; an idle FIFO gets 16 octets or all there are; negative result iff shut down; refinement kept |
| `StreamUart.Engine.Pass` | src/simulation/dmx512_suart.c:388-441 | with an empty FIFO and no more producers a pass leaves strictly fewer events and octets to handle, unless none are left |
| `StreamUart.Engine.Refinement` | src/simulation/dmx512_suart.c:388-441 | the line shows a prefix of the meaning of the accepted events, all of it once drained; only the ends of data runs above 1024 octets can be missing |
| `StreamUart.Engine.HandlerThread` | src/simulation/dmx512_suart.c:471-493 | the refinement over every run of the handler thread with arbitrary interference, and at least the progress of its first pass |
| `StreamUart.Engine.Passes` | src/simulation/dmx512_suart.c:471-493 | each pause of sixteen octets between passes gets work done until none is left |
| `StreamUart.Engine.RunDry` | src/simulation/dmx512_suart.c:471-493 | with as many such pauses as there is work, queue, buffer and chip end empty, or the thread shut down, and the line shows all that the events mean |
| `TransmitOverflow.Overflow` | src/simulation/dmx512_suart.c:348-386 | for every list of events with a data run above 1024 octets before a shutdown: a run of the engine, fetching event by event and transmitting up to 17 octets at a time, that shows fewer octets than the events hold |
| `TransmitOverflow.OneTooMany` | src/simulation/dmx512_suart.c:284-292 | a single data event of 1025 octets is such a list |
| `DmxFrameEvents.DataInlineEvents` | src/simulation/suart/streamuart_event.c:93-115 | chunks of 1 to 14 octets whose concatenation is the data; refused exactly by the guard |
| `DmxFrameEvents.InlineGuard` | src/simulation/suart/streamuart_event.c:99-100 | the guard lets through exactly the sizes up to 7 octets above capacity that need one event too many |
| `DmxFrameEvents.CreateFrame` | src/simulation/dmx512_suart.c:767-843 | when a frame compiles, and that it compiles to prologue, break, chunks and epilogue within the event limit; the chunks hold the first `count` octets of the buffer or the encoded discovery reply |
| `DmxFrameEvents.FrameInOrder` | src/simulation/dmx512_suart.c:778-840 | the events of a compiled frame one by one |
| `DmxFrameEvents.DiscoveryReplies` | src/simulation/dmx512_suart.c:755-763 | an encoded packet is treated as a discovery reply iff it is the response to a unique-branch request without parameter data |
| `DmxFrameEvents.FrameOnWire` | src/simulation/dmx512_suart.c:767-843 | on the line: break octet and payload under their settings, nothing else, the driver released afterwards |
| `DmxFrameEvents.FrameLeaves` | src/simulation/dmx512_suart.c:837-840 | after a frame the driver is off and the receiver on, and no other bit differs from before |
| `DmxFrameEvents.FrameSettings` | src/simulation/dmx512_suart.c:767-843 | the break is nine low bits of at least 88 µs in 8n1, data 250 kbaud in 8n2, driver on |
| `DmxFrameEvents.FrameFits` | src/simulation/dmx512_suart.c:767-843 | frames of up to 513 octets, in any number, meet the engine's condition on data runs |
| `DmxFrameEvents.SessionOnWire` | src/simulation/dmx512_suart.c:767-843 | any sequence of frames means (0, divisor 62, 8n1) and its octets at divisor 25 in 8n2, all with RTS on and settings steady |
| `DmxFrameEvents.InitMeaning` | src/simulation/dmx512_suart.c:862-874 | the init events send nothing and leave 250 kbaud 8n2 |
| `DmxFrameEvents.InitLeaves` | src/simulation/dmx512_suart.c:862-874 | they leave the driver off, DTR and the receiver on, and end in the echo that reports them |
| `LineSession.FramesOnLine` | src/simulation/dmx512_suart.c:845-874 | whenever the accepted events are a prefix of initialisation and frames, the line has shown a prefix of those frames, and all of them once everything is queued and drained |
| `LineSession.RunHandler` | src/simulation/dmx512_suart.c:471-493 | the same for the handler thread under any interference, with the progress of its first pass |
| `LineSession.DrainFrames` | src/simulation/dmx512_suart.c:471-493 | with no more frames to come the line shows all of them after enough pauses |
| `LineSession.SendFrame` | src/simulation/dmx512_suart.c:845-860 | a frame that compiles, with the buffer's first `count` octets or the encoded reply, is queued as far as there is room; a refused one fills the queue with whatever the event array holds |
| `LineSession.SendAndDrain` | src/simulation/dmx512_suart.c:845-860 | from the buffer to the line: a frame that finds room is, after enough pauses, on the line behind all frames before it, with its break and then octet by octet what the buffer held |
| `LineSession.OrdinaryFramesCompile` | src/simulation/dmx512_suart.c:775-776 | of frames up to 513 octets exactly the empty ones are refused |
| `LineSession.RefusedExactly` | src/simulation/dmx512_suart.c:775-776 | refused are exactly frames above 1610 octets and empty ones that are no discovery reply |
| `LineSession.SendExtends` | src/simulation/dmx512_suart.c:845-860 | with room for all its events a frame extends the session by exactly itself |
| `LineSession.CutFrameDriver` | src/simulation/dmx512_suart.c:845-860 | a frame cut off by a full queue leaves the line driver on iff the cut is behind its first three and before its last four events |
| `ReceiveEvents.RxStream.PutRxEvent` | src/simulation/suart/streamuart.c:29-33 | a full event queue drops the event, else it is queued last |
| `ReceiveEvents.RxStream.PutReport` | src/simulation/dmx512_suart.c:232-273 | echoes and reports share the queue and disturb neither octets nor line status |
| `ReceiveEvents.InterruptMeans` | src/simulation/dmx512_suart.c:145-221 | each interrupt stands for an octet, a line status or nothing |
| `ReceiveEvents.EventMeans` | src/simulation/dmx512_suart.c:85-105 | each event stands for its octets in order, a line status or nothing received |
| `ReceiveEvents.RxStream.FlushOneEntry` | src/simulation/dmx512_suart.c:85-105 | the oldest 1 to 14 buffered octets become one event |
| `ReceiveEvents.RxStream.Flush` | src/simulation/dmx512_suart.c:107-111 | all buffered octets become events, in order |
| `ReceiveEvents.RxStream.WriteToRxBuffer` | src/simulation/dmx512_suart.c:113-123 | the octet is recorded once; at most 13 stay buffered |
| `ReceiveEvents.RxStream.HandleInterrupt` | src/simulation/dmx512_suart.c:145-221 | octets and line status keep their order; only plain data leaves octets buffered |
| `ReceiveEvents.RxStream.HandleAllPendingInterrupts` | src/simulation/dmx512_suart.c:141-223 | events plus buffer equal what was read, in order, none across a line status, with readers taking events at any time |
| `ReceiveEvents.RxStream.HandlerTurn` | src/simulation/dmx512_suart.c:471-493 | a turn of the handler thread: everything received and every report is put, each in order; a pause leaves nothing buffered |
| `ReceiveEvents.RxStream.NothingLost` | src/simulation/dmx512_suart.c:85-223 | while no put met a full queue, delivered and queued data plus buffer are the octets received |
| `DiscoveryReply.PairExact` | src/uio-testbench/rtuart/t_dmxrtuart.c:680-691 | two octets pass the masks iff they are the pair of their conjunction |
| `DiscoveryReply.PayloadExact` | src/uio-testbench/rtuart/t_dmxrtuart.c:678-697 | sixteen octets decode to a UID iff they are its payload |
| `DiscoveryReply.ReplyOctets` | src/uio-testbench/rtuart/t_dmxrtuart.c:178-211 | every octet of a discovery reply |
| `DiscoveryReply.DecodeExact` | src/uio-testbench/rtuart/t_dmxrtuart.c:643-701 | the decoder yields u iff the data is noise without FE, FEs, AA, the payload of u and anything; silence iff there is no data; all else is a collision |
| `DiscoveryReply.DecodeEncode` | src/uio-testbench/rtuart/t_dmxrtuart.c:178-211 | decoding inverts encoding within noise before and octets after |
| `DiscoveryReply.HandleDiscoveryReply` | src/uio-testbench/rtuart/t_dmxrtuart.c:643-701 | the scanning loops compute the decoder, whatever lies in the area behind the received octets |
| `DiscoveryReply.BuildReply` | src/uio-testbench/rtuart/t_dmxrtuart.c:178-211 | writes the 24 octets of the encoded reply and nothing else |
| `ChunkReceiver.FindPreamble` | src/uio-testbench/dmx512/rtuart_dmx512_client.c:404-415 | separator position, foreign octet, or neither yet |
| `ChunkReceiver.Complete` | src/uio-testbench/dmx512/rtuart_dmx512_client.c:417-464 | the completed reception decodes as one pass does |
| `ChunkReceiver.OnePassExact` | src/uio-testbench/dmx512/rtuart_dmx512_client.c:404-464 | by the number of preamble octets: exactly when nothing is decided yet, when a UID is heard, and that all else is a collision |
| `ChunkReceiver.OnePassStable` | src/uio-testbench/dmx512/rtuart_dmx512_client.c:880-961 | an outcome once reached ignores what follows |
| `ChunkReceiver.Receiver.DataAvailable` | src/uio-testbench/dmx512/rtuart_dmx512_client.c:880-961 | after every chunk the state is that of one pass over all octets so far, and an outcome stays |
| `ChunkReceiver.ReceiveAll` | src/uio-testbench/dmx512/rtuart_dmx512_client.c:880-961 | any split into chunks gives the outcome of the concatenation |
| `ChunkReceiver.DecidedOnce` | src/uio-testbench/dmx512/rtuart_dmx512_client.c:880-961 | an outcome reached after some of the chunks is the outcome of all |
| `ChunkReceiver.EncodedHeard` | src/uio-testbench/dmx512/rtuart_dmx512_client.c:404-464 | a responder's reply is heard with its last octet and not before |
| `DriverReplies.Frame.UpdateChecksum` | src/uio-testbench/dmx512/rtuart_dmx512_client.c:245-260 | response type, response class and checksum are refreshed for any message of up to 254 octets, all else kept; longer frames are left alone |
| `DriverReplies.Frame.NobodyReply` | src/uio-testbench/dmx512/rtuart_dmx512_client.c:327-359 | collision and timeout frames are complete 26-octet packets for the requester with unchanged PID |
| `DriverReplies.Frame.FoundReply` | src/uio-testbench/dmx512/rtuart_dmx512_client.c:417-464 | so is the frame for a responder that was heard |
| `DriverReplies.OutcomesClassified` | src/librdm/rdmapi.cpp:175-211 | the discovery loop reads such packets as split, empty or found |
| `DriverReplies.AnswerCollision` | src/uio-testbench/dmx512/rtuart_dmx512_client.c:327-342 | from any discovery request to the controller's reading: collision |
| `DriverReplies.AnswerTimeout` | src/uio-testbench/dmx512/rtuart_dmx512_client.c:344-359 | from any discovery request to the controller's reading: nobody |
| `DriverReplies.AnswerFound` | src/uio-testbench/dmx512/rtuart_dmx512_client.c:417-464 | from any discovery request to the controller's reading: that UID |
| `SlotLock.LockExact` | src/uio-testbench/rtuart/t_dmxrtuart.c:58-92 | locked on s iff the counted frames end with more than the required number of size s; else the counter is that run |
| `SlotLock.RunMeans` | src/uio-testbench/rtuart/t_dmxrtuart.c:66-92 | the run is maximal and all of one size |
| `SlotLock.LockGained` | src/uio-testbench/rtuart/t_dmxrtuart.c:66-92 | from scratch, frames of one size lock with the first one beyond the required number and not before |
| `SlotLock.LockKept` | src/uio-testbench/rtuart/t_dmxrtuart.c:58-92 | what keeps a lock, what loses it, and how counting starts again |
| `SlotLock.SlotCountLock.ReceivedFrame` | src/uio-testbench/rtuart/t_dmxrtuart.c:66-92 | an enabled lock follows its history on start-code-0 frames and ignores others |
| `SlotLock.SlotCountLock.LostLock` | src/uio-testbench/rtuart/t_dmxrtuart.c:58-64 | a reset, recorded in the history |
| `PortLedger.AnswerWithRequestSound` | src/uio-testbench/rtuart/t_dmxrtuart.c:586-605 | delivering the request as its own answer keeps requests and answers matched |
| `PortLedger.AnswerWithReplySound` | src/uio-testbench/rtuart/t_dmxrtuart.c:862-869 | so does delivering the reply and freeing the request |
| `PortLedger.SendFields` | src/uio-testbench/rtuart/t_dmxrtuart.c:1113-1144 | each field of the ledger after a send, accepted or refused |
| `PortLedger.TransmittedFields` | src/uio-testbench/rtuart/t_dmxrtuart.c:530-577 | each field after the end of a transmission |
| `PortLedger.BrokenFields` | src/uio-testbench/rtuart/t_dmxrtuart.c:726-806 | each field after a break, in every state: which frame is delivered and which is taken |
| `PortLedger.EndedFields` | src/uio-testbench/rtuart/t_dmxrtuart.c:833-882 | each field after a complete reception, in every state: what is delivered, answered and freed, and in which order |
| `PortLedger.TimeoutFields` | src/uio-testbench/rtuart/t_dmxrtuart.c:975-1018 | each field after a timeout |
| `PortLedger.PerformSound` | src/uio-testbench/rtuart/t_dmxrtuart.c:530-1144 | every callback in every state keeps ownership, driver line and request/answer matching sound |
| `PortLedger.OneAnswerPerRequest` | src/uio-testbench/rtuart/t_dmxrtuart.c:530-1144 | over every run: the k-th answer is for the k-th accepted request, all but one in progress are answered, driver on iff transmitting, no frame given away twice |
| `DmxPort.FrameKinds` | src/uio-testbench/rtuart/t_dmxrtuart.c:97-128 | which encoded messages are branch requests, branch replies, requests and two-way frames, by their fields |
| `DmxPort.OtherFrames` | src/uio-testbench/rtuart/t_dmxrtuart.c:97-101 | a frame that is no RDM message is none of these |
| `DmxPort.GateSegment` | src/uio-testbench/rtuart/rtuart_pc16c550.c:540-588 | the valid count, lowered in mid-buffer, ends reception exactly at the segment's end |
| `DmxPort.SegmentLengths` | src/uio-testbench/rtuart/t_dmxrtuart.c:893-972 | the length of a frame by its first octets and the lock |
| `DmxPort.EncodedSegment` | src/uio-testbench/rtuart/t_dmxrtuart.c:893-972 | an encoded RDM message is cut out whole, whatever follows |
| `DmxPort.SegmentDecided` | src/uio-testbench/rtuart/rtuart_pc16c550.c:580-586 | a full segment is not changed by octets behind it, and no octets behind a prefix fill the segment within the prefix |
| `DmxPort.OverrunNext` | src/uio-testbench/rtuart/rtuart_pc16c550.c:645-664 | octet by octet: the octets of an interrupt run over the frame's end iff the frame was full before the last of them |
| `DmxPort.StraddledNext` | src/uio-testbench/rtuart/rtuart_pc16c550.c:636-671 | interrupt by interrupt: the end of the whole stream's first frame lies inside an interrupt iff the octets of that interrupt run over the end of the frame as known at its beginning |
| `DmxPort.Port.SendFrame` | src/uio-testbench/rtuart/t_dmxrtuart.c:1113-1144 | refused iff transmitting or waiting for a reply; otherwise the frame's octets, or its encoded discovery reply, go out behind a break unless the frame is marked for none, its data is kept but for the reply area of a discovery reply, received octets are no longer handled, and a two-way request is recorded and has a timer |
| `DmxPort.Port.StartFrame` | src/uio-testbench/rtuart/t_dmxrtuart.c:1036-1110 | the frame is claimed with what it holds, the driver on, a break sent unless it is marked for none, handling of received octets off, two-way frames recorded as accepted, and the timer started for requests |
| `DmxPort.Port.BuildReplyIn` | src/uio-testbench/rtuart/t_dmxrtuart.c:1066-1073 | the encoded reply is built in the frame's reply area and is what goes out |
| `DmxPort.Port.TxEnd2` | src/uio-testbench/rtuart/t_dmxrtuart.c:530-577 | one-way frames are freed; two-way ones wait for a break or straight for a discovery reply; each field of the port |
| `DmxPort.Port.StartReceive` | src/uio-testbench/rtuart/t_dmxrtuart.c:497-515 | a new frame and a buffer in it for what follows |
| `DmxPort.Port.RxBreak` | src/uio-testbench/rtuart/t_dmxrtuart.c:726-806 | what a break does to each field in each state; a DMX frame that it ends is delivered as it came in and counted for the lock |
| `DmxPort.Port.RxChar` | src/uio-testbench/rtuart/t_dmxrtuart.c:808-830 | surplus data after a DMX frame opens the lock |
| `DmxPort.Port.RxEnd` | src/uio-testbench/rtuart/t_dmxrtuart.c:833-882 | what a complete buffer means for each field in each state; delivered octets are those received, and a full reply area is decoded |
| `DmxPort.Port.RxTrigger` | src/uio-testbench/rtuart/t_dmxrtuart.c:893-972 | start code and length triggers set valid count and the next trigger |
| `DmxPort.Port.HandleDiscoveryReply` | src/uio-testbench/rtuart/t_dmxrtuart.c:623-701 | the octets received so far are decoded, whatever lies behind them, and the request frame is turned into the response for that outcome and delivered |
| `DmxPort.OutcomeRead` | src/uio-testbench/rtuart/t_dmxrtuart.c:586-621 | the delivered frame decodes as a response to the requester with the request's PID, from the heard UID, all ones for a collision or zero for silence |
| `DmxPort.OutcomeElsewhere` | src/uio-testbench/rtuart/t_dmxrtuart.c:586-605 | an outcome changes UIDs, response type and command class of the request frame and no other octet |
| `DmxPort.ReplyReported` | src/uio-testbench/rtuart/t_dmxrtuart.c:586-701 | from what was received to what the requester reads: the responder's UID, all ones after a break, zero for silence |
| `DmxPort.Port.RdmTimeout` | src/uio-testbench/rtuart/t_dmxrtuart.c:975-1018 | a waiting request is answered with itself, a discovery request with its outcome written in; a reception that was going on is orphaned; while transmitting only the timer is stopped, which leaves the request without one unless it has expired again |
| `DmxPort.Port.TimerFires` | src/uio-testbench/rtuart/t_dmxrtuart.c:361-366 | an expired timer asks for one poll, and a request in progress keeps its claim to a timeout |
| `DmxPort.Port.Periodical` | src/uio-testbench/rtuart/t_dmxrtuart.c:408-418 | a poll answers a waiting request iff the timer has expired; an expiry polled while a frame is being sent costs that frame's request its timer |
| `DmxPort.Port.TimeoutAnswers` | src/uio-testbench/rtuart/t_dmxrtuart.c:975-1018 | a waiting request for which no timeout was handled during its transmission is answered by expiry and poll |
| `DmxPort.Port.NeverTimesOut` | src/uio-testbench/rtuart/t_dmxrtuart.c:975-1018 | any other waiting request is answered by no number of polls, no timer is running or expired, and every send is refused |
| `DmxPort.Port.StaleTimeout` | src/uio-testbench/rtuart/t_dmxrtuart.c:408-418 | an expiry that is polled only after the next two-way request went out leaves that request waiting without a timer |
| `DmxPort.Port.GiveBack` | src/uio-testbench/rtuart/t_dmxrtuart.c:709-722 | request delivered, receive frame freed, and the buffer orphaned iff octets were being handled |
| `DmxPort.Port.OrphanedExactly` | src/uio-testbench/rtuart/t_dmxrtuart.c:709-722 | while octets are handled, they go into a frame that was given away iff the buffer is orphaned, and never into the frame being sent |
| `DmxPort.Port.LateReply` | src/uio-testbench/rtuart/t_dmxrtuart.c:709-722 | an octet after the timeout is written into the frame that the timeout gave away |
| `DmxPort.Port.LateAfterSend` | src/uio-testbench/rtuart/t_dmxrtuart.c:1036-1041 | once a frame is sent, the octets of a late reply are flushed and the frame that was given away keeps what it holds |
| `DmxPort.Port.FireTriggers` | src/uio-testbench/rtuart/rtuart_pc16c550.c:562-578 | a trigger armed by the callback survives the clearing of those that fired |
| `DmxPort.Port.CheckComplete` | src/uio-testbench/rtuart/rtuart_pc16c550.c:580-586 | reception ends exactly when the buffer holds all it should |
| `DmxPort.Port.Surplus` | src/uio-testbench/rtuart/rtuart_pc16c550.c:546-553 | an octet behind a full buffer is read and not stored, ends the handling of octets, and resets the lock iff a DMX frame had just been delivered and the count stands below 512 slots |
| `DmxPort.Port.ReceivedOctet` | src/uio-testbench/rtuart/rtuart_pc16c550.c:540-588 | where the octet goes; it extends a frame or completes it at its segment's end, extends a discovery reply or completes the exchange, or is surplus; a buffer stays orphaned only while octets are handled |
| `DmxPort.Port.RxInterrupt` | src/uio-testbench/rtuart/rtuart_pc16c550.c:636-671 | all octets of one interrupt are handled or all flushed, as decided at its beginning; flushed ones change nothing; an octet is read behind a frame iff the octets handled run over its end |
| `DmxPort.Port.ReceiveStream` | src/uio-testbench/rtuart/rtuart_pc16c550.c:540-588 | a stream after a break, in any grouping into interrupts, delivers exactly its first segment as one frame, whatever follows; a shorter one delivers nothing yet; the lock is reset by surplus octets iff an interrupt straddles the end of a DMX frame and the count stands below 512 slots |
| `DmxPort.Port.BreakAfterStream` | src/uio-testbench/rtuart/t_dmxrtuart.c:726-806 | a stream that stops short of its segment, and then a break: a frame of two or more octets is delivered with exactly these octets and that size, and the next one begins; a single octet is not noticed |
| `DmxPort.Port.DiscoveryExchange` | src/uio-testbench/rtuart/t_dmxrtuart.c:530-701 | from the end of a discovery request through any stream of octets in any grouping into interrupts, with a break in it or not, to the timeout: the request is answered once, with the outcome decoded from the first 255 octets, or a collision |
| `StableMerge.MergeSorted` | src/kernel_emulation/include/linux/list.h:211-232 | merging sorted runs gives a sorted run |
| `StableMerge.MergePeers` | src/kernel_emulation/include/linux/list.h:211-232 | equal entries keep their order, those of the first run first |
| `StableMerge.StableSortUnique` | src/kernel_emulation/include/linux/list.h:283-295 | a sequence has only one stable sort |
| `StableMerge.SortPermutes` | src/kernel_emulation/include/linux/list.h:283-295 | a stable sort is a permutation |
| `KernelList.MergeLists` | src/kernel_emulation/include/linux/list.h:211-232 | relinks two null-terminated lists into their merge |
| `KernelList.RestoreRest` | src/kernel_emulation/include/linux/list.h:265-276 | the loop whose first turn is unguarded dereferences no null link and restores the remaining back links |
| `KernelList.MergeAndRestoreBackLinks` | src/kernel_emulation/include/linux/list.h:241-280 | the merge becomes a well-formed circular doubly linked list |
| `KernelList.RingLinks` | src/kernel_emulation/include/linux/list.h:48-82 | the next links of a ring lead through its entries in order and back to the head, the prev links the other way round |
| `ListSort.CarryStep` | src/kernel_emulation/include/linux/list.h:321-324 | merging a slot into the carry keeps older entries in front |
| `ListSort.PlaceForCarry` | src/kernel_emulation/include/linux/list.h:325-331 | the carry finds an empty slot, with the clamp at the top, and the top slot stays in use |
| `ListSort.LastMerge` | src/kernel_emulation/include/linux/list.h:334-338 | the last merge is the stable sort of all that was taken in |
| `ListSort.Carry` | src/kernel_emulation/include/linux/list.h:321-324 | the inner loop on the heap: ends in bounds at an empty slot with all runs intact |
| `ListSort.TakeIn` | src/kernel_emulation/include/linux/list.h:316-332 | one turn of the outer loop |
| `ListSort.Collect` | src/kernel_emulation/include/linux/list.h:334-336 | the lower slots are merged in order |
| `ListSort.Sort` | src/kernel_emulation/include/linux/list.h:296-339 | the circular list becomes the stable sort of what it held, well-formed, a permutation |
| `FrameQueue.ListAddTail` | src/kernel_emulation/include/linux/list.h:48-82 | the entry is last and the ring well-formed |
| `FrameQueue.ListDel` | src/kernel_emulation/include/linux/list.h:91-108 | exactly that entry leaves the ring, its own links untouched |
| `FrameQueue.Queue.constructor` | src/drivers/dmx512/core/dmx512framequeue.c:13-19 | an empty queue |
| `FrameQueue.Queue.IsEmpty` | src/drivers/dmx512/core/dmx512framequeue.c:32-39 | empty iff it holds nothing |
| `FrameQueue.Queue.Front` | src/drivers/dmx512/core/dmx512framequeue.c:66-89 | the oldest entry, which stays |
| `FrameQueue.Queue.Get` | src/drivers/dmx512/core/dmx512framequeue.c:41-64 | the oldest entry, which leaves |
| `FrameQueue.Queue.Put` | src/drivers/dmx512/core/dmx512framequeue.c:91-99 | the entry joins at the end |
| `FrameQueue.Queue.Cleanup` | src/drivers/dmx512/core/dmx512framequeue.c:21-30 | every entry is freed once, in order |
| `Loopback.GetFrom` | src/drivers/dmx512/core/dmx512framequeue.c:41-64 | taking from one of three queues leaves the others alone, and the entry is in none of them |
| `Loopback.PutInto` | src/drivers/dmx512/core/dmx512framequeue.c:91-99 | an entry in none of three queues is put into one and the others stay |
| `Loopback.CreatePool` | src/drivers/dmx512/core/dmx512.c:470-481 | sixteen new entries in the free queue |
| `Loopback.Device.PortByIndex` | src/drivers/dmx512/core/dmx512.c:262-274 | the port of that number or none |
| `Loopback.Device.PortIndex` | src/drivers/dmx512/core/dmx512.c:245-258 | the number of a port, −1 for a foreign one |
| `Loopback.CreateDevice` | src/drivers/dmx512/boards/dmx512_dummy.c:30-58 | a card with the given number of distinct ports of its own |
| `Loopback.CrossLink` | src/drivers/dmx512/boards/dmx512_dummy.c:82-86 | port i of each card is linked to port i of the other |
| `Loopback.AcceptConserves` | src/drivers/dmx512/core/dmx512.c:118-157 | an accepted write keeps every entry in exactly one queue |
| `Loopback.AcceptInOrder` | src/drivers/dmx512/core/dmx512.c:118-157 | and keeps the order of frames |
| `Loopback.WriteMeans` | src/drivers/dmx512/core/dmx512.c:118-157 | a write transfers iff the frame was copied, its port is known and an entry was free; then it is recorded and waits behind the others at the other card, otherwise nothing sent or waiting changes |
| `Loopback.FetchSound` | src/drivers/dmx512/core/dmx512.c:93-116 | a read yields the oldest unread frame and frees its entry |
| `Loopback.FetchMeans` | src/drivers/dmx512/core/dmx512.c:93-116 | a read hands out the oldest waiting frame and leaves the others waiting |
| `Loopback.PoolSize` | src/drivers/dmx512/core/dmx512.c:470-481 | free and waiting entries are sixteen together |
| `Loopback.Core.Write` | src/drivers/dmx512/core/dmx512.c:118-157 | each status iff its condition; a transferred frame is the last one sent and waits last at the other card; otherwise sent and waiting frames are unchanged, and the entry goes back with whatever a failed copy left in it |
| `Loopback.Core.SendFrame` | src/drivers/dmx512/boards/dmx512_dummy.c:22-28 | the frame is queued at the peer card with its port number unchanged |
| `Loopback.Core.Read` | src/drivers/dmx512/core/dmx512.c:93-116 | each status iff its condition, and the frame that is the next one written to the other card; exactly it stops waiting |
| `Loopback.EveryRun` | src/drivers/dmx512/core/dmx512.c:93-157 | over every sequence of reads and writes: entries conserved, memory short iff sixteen wait, reads are a prefix of writes |
| `Loopback.SentStays` | src/drivers/dmx512/core/dmx512.c:118-157 | no later operation takes back what was sent |
| `Loopback.InTurn` | src/drivers/dmx512/core/dmx512.c:93-157 | a transferred frame is what the read of the other card hands out when as many frames were read there as had been sent before it, whatever else was written and read |

## Modelling decisions

* The controller, the bus and the responders form one synchronous system: a reply, if any, arrives during the
  call that sends the request, and waiting for one that has not arrived ends in a timeout. Device UIDs are
  distinct, neither zero nor the broadcast UID, and fixed during discovery.
* Threads and timers are nondeterministic steps. Between any two steps of the event engine the chip may shift
  octets out and producers may queue events; the number of events producers still have to queue is finite, so
  that a pass of the handler ends.
* A kfifo is a bounded first-in-first-out queue that takes what it has room for.
* Every callback of the port is one atomic step and there is always memory for a receive frame. The frames
  offered to the port are not ones that it has already given away; a recycled frame counts as a new one.
* The reply timer expires at any time after it was started and not once it was stopped; its expiry asks for a poll,
  which comes at any time after that.
* `merge` compares entries by a key that relinking does not change, under any total preorder.
* The 16 pool entries of the DMX512 core are list nodes known by their number; what they hold is indexed by it.
* A future that has timed out stays registered, as it does in `rdmapi.cpp`, where it may be a variable whose
  function has returned; in the model it is an object that stays alive, so that the late write to it is harmless.

## Left out

- RdmBus.RdmDevice.Handle: GET and SET requests, including the 0xFEED command that changes a UID, are treated as unanswered; discovery never sends them.
- ReceiveEvents.RxStream.NothingLost: says nothing once a put has met a full event queue, because the code then drops the event.
- DmxPort.Port.HandleDiscoveryReply: does not claim that the response is a valid packet, since the code leaves message length and checksum of the request in place; `DriverReplies` covers the driver that refreshes them.
- DmxPort.Port.SendFrame: a send during a reception leaves the half-filled receive frame behind, so frames are given away at most once, not exactly once.
- RdmPacket.PacketEncoder.AddPd: sized integers only, up to the 231 octets that a message length allows; appending a UID object reverses octets that are already in network order and strings add nothing new.
- Whole-run invariants of `rtuart_dmx512_client.c`, whose timeout handler leaves the state unchanged; its receiver and its reply builders are modelled.
- The PL011 driver, whose baud-rate setter and getter mask differently.
- The slot locks of `dmx512_suart.c` and `dmx512_cuse_llgip.c`, and the frame pool of `dmx512_cuse_dev.c`.
- FUSE/CUSE, ioctl, UIO, parport, GPIO, shell, console and mouse drivers: input and output only.
- Registration and removal of devices in the DMX512 core, and the blocking wait of a read, whose end is a parameter.
- Modem status and receive-FIFO flushing after an overrun have no effect on the modelled event streams.
