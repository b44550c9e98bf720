# Wixel libraries: models and proofs

The Wixel is a small USB radio module (TI CC2511). This project models the libraries
that move data in and out of it and proves what they promise.

- **Radio** (`RadioSpec`, `RadioNetwork`, `RadioDelivery`, `RadioProgress`, `RadioConnecting`,
  `RadioRestart`, `RadioHistory`, `RadioFraming`, `RadioMac`, `RadioLink`, `RadioInterrupt`).
  `RadioLink` and `RadioMac` are classes with the fields of radio_link.c and radio_mac.c;
  every method is proved against the value model of one node in `RadioSpec`. `RadioNetwork`
  puts two such nodes on one half-duplex channel and lets main-loop statements, interrupts
  and losses happen in any order; `RadioDelivery`, `RadioProgress` and `RadioConnecting`
  state what holds in every run and what can still happen; `RadioRestart` adds Wixels that
  are switched off and on, `RadioHistory` tells a node's records and notes from the steps of
  a run alone, and `RadioInterrupt` shows the interrupt of radio_mac.c to be a step of that
  network.
- **Bytes over the radio** (`ComSpec`, `RadioCom`, `ComWorld`, `EndToEnd`). radio_com.c on top
  of `RadioLink`: a byte stream with eight control signals; two programs, two links and the
  air, with interrupts between the statements; and what a reader gets of a writer's bytes.
- **1-Wire** (`OneWireBus`, `OneWireSpec`, `OneWireEnumeration`, `OneWire`, `Crc8Table`,
  `Crc8`). The ROM search against a bus with an arbitrary set of devices, and the CRC in both
  its implementations.
- **USB** (`UsbControl`, `UsbCdc`). Control transfers on endpoint 0 and the CDC-ACM bulk
  stream.
- **Other drivers** (`Uart`, `SpiMaster`, `Baud`, `Servo`, `Packet`).

Each imperative source file becomes a class or methods whose `ensures` tie the new state to a
function of the old one; the promises are then lemmas about those functions over all inputs
and all runs.

## Assumptions about the surroundings

- The air holds at most one frame. A node that transmits cannot hear, so its frame displaces
  whatever was in the air, and the frame in the air may be lost at any moment. This is
  essential: acknowledgements carry no sequence number, so on a channel that could delay them
  the protocol would be wrong.
- An interrupt service routine is one atomic step. `radioLinkTxSendPacket` is split between
  the index update and the strobe, and the UART functions are split statement by statement.
  The methods of `RadioCom` run between interrupts; in `ComWorld` interrupts can also come
  inside the functions of radio_com.c, wherever they could make a difference.
- Both Wixels stay switched on, except in `RadioRestart`.
- The random part of the retransmission delay is arbitrary, as are the decisions of the USB
  handlers, the bytes of an SPI slave and the devices on the 1-Wire bus.

## Where the code differs from its documentation

The models follow the code.

- radio_link.h promises reliable, ordered delivery. A packet queued before
  `radioLinkConnected()` can go out with the answer to the other node's data while
  `sendingReset` is set (radio_link.c:474-478), and the acknowledgement then only ends the
  reset handshake (radio_link.c:383-393): the first packet can arrive more than once.
  `RadioProgress.ExactlyOnceUnlessQueuedEarly` gives the exact condition and
  `RadioProgress.EarlyPacketCanArriveTwice` an instance.
- A packet without payload is accepted for sending but never acknowledged
  (radio_link.c:418): it blocks its queue for ever (`RadioProgress.HeadCanBeAcknowledged`).
- A bad packet that arrives while only the reset is pending leaves the node listening without
  a timeout (radio_link.c:346-356, `RadioDelivery.ResetStallsOnCrcFailureOnly`). Its peer can
  still end the handshake, unless it has nothing to say or has stalled too
  (`RadioConnecting.HandshakeCanEndIff`). Two programs that wait for `radioLinkConnected()`
  can therefore wait for ever (`RadioConnecting.BothCanWaitForEver`): what is guaranteed to
  those that wait is that nothing goes wrong, not that they connect.
- radio_link.h foresees that the other Wixel is reset at any time. If the Wixel that was reset
  queues a packet at once, its packet can be acknowledged and lost, because the other one takes
  it for a repetition (`RadioRestart.RestartCanLose`); if it waits, nothing acknowledged is lost
  (`RadioRestart.NothingAcknowledgedIsLost`).
- radio_com.h promises the same of bytes. radio_com.c never asks `radioLinkConnected()`, so a byte
  written before the handshake is over can be read twice
  (`EndToEnd.EarlyByteCanBeReadTwice`); `EndToEnd.FaithfulUnlessBytesEarly` gives the exact
  condition, and `EndToEnd.WrittenBytesAreRead` the guarantee for writers that wait.
- radio_com.c:211 says the product never overflows. With an empty queue it is 270 and wraps in
  the returned byte; the result is still never too large (`ComSpec.AvailableIsExactIff`).
- onewire.c:422 treats a ROM whose family byte is 0 as no device; one such device hides all
  others (`OneWireEnumeration.SearchFindsIff`).
- usb.c:155-156 requires every path to clear OUTPKT_RDY. A SETUP packet that starts a control
  read does not clear it in that poll (`UsbControl.OutIsClearedIff`).
- usb.c:261-266 always ends a control read with a packet that is not full, also when the host
  already has all the bytes it asked for (`UsbControl.HostGetsEverything`).
- Above 495782 the baud-rate loops halve the request before multiplying and can miss the best
  setting (`Baud.BestIff`, `Baud.HalvingCanMissTheBest`).
- The SPI transfer is right with one buffer for both directions and with separate buffers, but
  not when the receive buffer starts inside the transmit buffer
  (`SpiMaster.ExchangeRightIff`).

## Model

| member | source | states |
|---|---|---|
| RadioNetwork.InvStep | libraries/src/radio_link/radio_link.c:287-506 | Every main-loop statement, interrupt and loss keeps, in both directions at once: sequence bits agree with the counts of acknowledged packets, the receiver's log is the sender's up to a repeated first packet, every frame in the air carries the packet and bit its sender is on, every ACK in the air has its packet, and nobody with packets sleeps for good |
| RadioNetwork.FrameKeeps | libraries/src/radio_link/radio_link.c:359-498 | Handling a frame keeps both directions in step and what the node then sends is a truthful frame |
| RadioNetwork.AcceptKeeps | libraries/src/radio_link/radio_link.c:422-470 | After data has been looked at, an ACK is answered exactly when the receiver has that very packet; accepting extends the log by the next packet or repeats the first |
| RadioNetwork.TxChange | libraries/src/radio_link/radio_link.c:233-254 | A step changes a sender only by queueing one packet or by an ACK that had something to acknowledge |
| RadioNetwork.RxChange | libraries/src/radio_link/radio_link.c:258-283 | A step changes a receiver only by releasing a packet, by a reset from a peer that is still resetting, or by accepting the peer's current packet |
| RadioDelivery.InvRun | libraries/src/radio_link/radio_link.c:329-506 | The invariant holds after every run |
| RadioDelivery.ColdStartSafety | libraries/src/radio_link/radio_link.c:133-149 | From a cold start of both nodes, under any interleaving, nothing acknowledged is missing, the log is the sent packets in order with at most the first one repeated, and it is an exact prefix if no data was transmitted during that node's reset handshake |
| RadioDelivery.ConnectedExactlyOnce | libraries/src/radio_link/radio_link.c:298-487 | Once connected with nothing duplicated, every further run delivers exactly once and in order: the log is a prefix of what was sent and at most one packet ahead of what is acknowledged |
| RadioDelivery.SettledStep | libraries/src/radio_link/radio_link.c:394-470 | No step can leave the connected, duplicate-free phase |
| RadioDelivery.AckHasItsPacket | libraries/src/radio_link/radio_link.c:394-415 | The source's check that there is something to acknowledge always succeeds between two such nodes, and the packet released is the one the receiver got last |
| RadioDelivery.EmptyPacketBlocksQueue | libraries/src/radio_link/radio_link.c:418-498 | A packet without payload at the head of the queue stays there in every run |
| RadioDelivery.NoLostWakeUp | libraries/src/radio_mac/radio_mac.c:83-205 | In every reachable state with a packet queued the radio is sending, or listening with a finite timeout, or a strobe is pending, or the main loop is about to strobe |
| RadioDelivery.ResetStallsOnCrcFailureOnly | libraries/src/radio_link/radio_link.c:346-357 | For the reset handshake that guarantee is lost by a step if and only if it is a CRC failure with nothing queued |
| RadioDelivery.ResetCanStall | libraries/src/radio_link/radio_link.c:346-357 | A run from a cold start after which a node listens without a timeout, its handshake unfinished and no strobe pending |
| RadioProgress.HeadCanBeAcknowledged | libraries/src/radio_link/radio_link.c:309-506 | From every state satisfying the invariant some continuation acknowledges the packet at the head of the queue, if and only if that packet has a payload |
| RadioProgress.HazardDuplicates | libraries/src/radio_link/radio_link.c:383-393 | Data queued during the reset handshake, with no blocked queue, can be turned into a second delivery of the first packet |
| RadioProgress.Duplicate | libraries/src/radio_link/radio_link.c:474-478 | Once both nodes have something queued, radio interrupts and losses alone are enough for that |
| RadioProgress.QuietRun | libraries/src/radio_link/radio_link.c:205-208 | Without such data, a node that queues only after radioLinkConnected has each packet delivered once, whatever its peer does |
| RadioProgress.ExactlyOnceUnlessQueuedEarly | libraries/src/radio_link/radio_link.c:474-478 | Delivery is exactly once in all continuations in which the sender queues only after radioLinkConnected, whatever its peer does, if and only if no deliverable data of the sender is queued during its handshake now |
| RadioProgress.EarlyPacketCanArriveTwice | libraries/src/radio_link/radio_link.c:383-393 | One packet with a payload queued straight after initialisation can be delivered twice |
| RadioConnecting.HandshakeCanEndIff | libraries/src/radio_link/radio_link.c:309-386 | From every state, if nobody queues anything, a reset handshake can still end if and only if its node will transmit, or its peer has data queued or an active handshake, or a frame in the air will make one of them transmit |
| RadioConnecting.PoliteHandshakeCanEndIff | libraries/src/radio_link/radio_link.c:205-208 | If both nodes queue only after their own radioLinkConnected, a handshake can still end if and only if the two nodes are not both stuck in that sense |
| RadioConnecting.BothCanWaitForEver | libraries/src/radio_link/radio_link.c:346-357 | Radio events alone lead from a cold start to a state in which, however the run goes on, neither node connects as long as each queues only after its own radioLinkConnected |
| RadioRestart.KeptStep | libraries/src/radio_link/radio_link.c:133-149 | Every step, and switching either Wixel off and on, keeps what is known of a sender that waits: packets taken in order, bits in step, truthful frames for its present life |
| RadioRestart.NothingAcknowledgedIsLost | libraries/src/radio_link/radio_link.c:379-461 | However often either Wixel is switched off and on and whatever the peer does, a sender that queues only after radioLinkConnected has the packets of its present life taken in order without a gap, at most one unacknowledged, and every acknowledged one among them |
| RadioRestart.RestartCanLose | libraries/src/radio_link/radio_link.c:424-488 | A sender that was switched off and on and does not wait can have a packet acknowledged that was never delivered |
| RadioSpec.HandleChange | libraries/src/radio_link/radio_link.c:329-506 | An event changes the sender only through an ACK and the receiver only through a reset or data |
| RadioSpec.TakeInitiative | libraries/src/radio_link/radio_link.c:309-327 | Taking the initiative leaves both queues alone and goes silent only with no reset pending and nothing queued |
| RadioHistory.HandleSpeaks | libraries/src/radio_link/radio_link.c:287-506 | When a node transmits and what: ACK without data to a reset, ACK or NAK to data, else reset or ping; the head of the queue goes along with every answer to data, and on the node's own initiative only after the handshake |
| RadioHistory.HandleListens | libraries/src/radio_link/radio_link.c:199-203 | How long a node listens: without limit with nothing to say, and otherwise the random 1 to 4 units, or 250 to 253 after more than 200 tries |
| RadioHistory.HandleNotes | libraries/src/radio_link/radio_link.c:309-489 | Every transmission, and only that, is noted as activity, every reset received, and only that, as a reset, and the strobe is cleared |
| RadioHistory.DelayFollowsTransmissions | libraries/src/radio_link/radio_link.c:199-203 | In every reachable state the delay after a transmission depends on how often the node has sent packets of its own since it last was acknowledged in that run: short up to 200 times, long beyond |
| RadioHistory.NotesAreHistory | libraries/src/radio_link/radio_link.c:366-376 | After any run from a cold start, resetPacketReceived tells exactly whether a reset was received, activityOccurred whether the node has transmitted, and the history bit of NoLostWakeUp whether the main loop is between its index update and its strobe |
| RadioHistory.DeliveredIsQueued | libraries/src/radio_link/radio_link.c:133-149 | After any run from a cold start the receiver's log is what the sender's main loop queued in the steps of that run, with at most the first packet repeated, and exactly a prefix of it unless data went out in some state of the run in which the handshake was not over |
| RadioFraming.StampKeepsPacket | libraries/src/radio_link/radio_link.c:298-302 | However often and with whatever type and sequence bit a stored packet is retransmitted, the frame carries that type, bit and packet and the slot still stores the packet |
| RadioFraming.HeaderLayout | libraries/src/radio_link/radio_link.c:40-47 | Bits 7 and 6 of the header are the packet type, 0 to 3 for ping, NAK, ACK and reset, bits 4 to 1 the payload type and bit 0 the sequence bit |
| RadioFraming.ComposedIsStored | libraries/src/radio_link/radio_link.c:233-239 | The length and header written when a packet is queued describe the composed payload and payload type |
| RadioFraming.UnpackRecovers | libraries/src/radio_link/radio_link.c:450-459 | The receiver's rewriting of the first two bytes yields the length, payload type and payload that were in the frame |
| RadioMac.RadioMac.PostponedStrobeIsServed | libraries/src/radio_mac/radio_mac.c:61-128 | A pending strobe that an interrupt puts off is served: the end of the frame being sent or received, and the timeout, each run an event at their interrupt, and one of them is due |
| RadioLink.RadioLink.Init | libraries/src/radio_link/radio_link.c:133-149 | Start-up leaves the initial node |
| RadioLink.RadioLink.TxAvailable | libraries/src/radio_link/radio_link.c:212-216 | Free slots are 15 minus the packets not yet acknowledged |
| RadioLink.RadioLink.TxQueued | libraries/src/radio_link/radio_link.c:218-221 | The packets not yet acknowledged, so that the two counts always add up to 15 |
| RadioLink.RadioLink.TxCurrentPacket | libraries/src/radio_link/radio_link.c:223-231 | The main loop's slot if there is room, and none otherwise |
| RadioLink.RadioLink.TxWrite | libraries/src/radio_link/radio_link.c:94-98 | Filling the current slot changes nothing that is queued or on the air |
| RadioLink.RadioLink.TxFrame | libraries/src/radio_link/radio_link.c:235-239 | The slot then stores the composed packet, and nothing queued or on the air has changed |
| RadioLink.RadioLink.TxAdvance | libraries/src/radio_link/radio_link.c:241-249 | The packet joins the queue at the end |
| RadioLink.RadioLink.TxSendPacket | libraries/src/radio_link/radio_link.c:233-254 | The composed packet is queued and the event handler is bound to run |
| RadioLink.RadioLink.RxCurrentPacket | libraries/src/radio_link/radio_link.c:258-266 | The oldest packet not yet released, unpacked, or none |
| RadioLink.RadioLink.RxCurrentPayloadType | libraries/src/radio_link/radio_link.c:268-271 | Its payload type |
| RadioLink.RadioLink.RxDoneWithPacket | libraries/src/radio_link/radio_link.c:273-283 | Releases exactly the oldest packet |
| RadioLink.RadioLink.TxDataPacket | libraries/src/radio_link/radio_link.c:298-307 | Sends the packet at the head of the queue with the current bit; the main loop's slots are untouched |
| RadioLink.RadioLink.HandleAck | libraries/src/radio_link/radio_link.c:379-416 | Ends the handshake or else releases the head of the queue and flips the bit |
| RadioLink.RadioLink.AcceptData | libraries/src/radio_link/radio_link.c:422-470 | Accepts new data with room, answers NAK without room, and never touches a slot the main loop owns |
| RadioLink.RadioLink.AnswerData | libraries/src/radio_link/radio_link.c:418-489 | Data is taken in or not and answered with ACK or NAK, and with queued data if there is some |
| RadioLink.RadioLink.HandleFrame | libraries/src/radio_link/radio_link.c:359-498 | The whole branch for a good frame equals the node's reaction to the frame the bytes encode |
| RadioLink.RadioLink.EventHandler | libraries/src/radio_link/radio_link.c:329-506 | The event handler equals the node's reaction to the event; the main loop's transmit slot and unreleased packets stay as they are |
| RadioLink.RadioLink.RadioMacEvent | libraries/src/radio_mac/radio_mac.c:155-199 | One event: defaults, handler, strobe cleared |
| RadioLink.RadioLink.RfInterrupt | libraries/src/radio_mac/radio_mac.c:61-128 | Whether or not a strobe is pending, the end of a transmission or reception is handled, else a timeout is, else a pending strobe that need not wait; otherwise nothing happens. At most one event runs, it clears the strobe, and the main loop's slots are left alone |
| RadioInterrupt.Interrupt | libraries/src/radio_mac/radio_mac.c:61-128 | On a network whose events the radio's flags report truthfully, one run of the interrupt is a step of the two-node network with a raised event exactly if something calls for the handler, and with a good CRC that event is the frame in the air |
| RadioInterrupt.QueuedPacketIsServed | libraries/src/radio_mac/radio_mac.c:83-128 | In every reachable state with a packet queued and its strobe called, whatever signal the radio gives next calls the handler |
| ComSpec.PutByteKeeps | libraries/src/radio_com/radio_com.c:216-232 | A written byte joins the end of what the packets and the loaded bytes mean, under the signals in force, and takes exactly one from the capacity |
| ComSpec.NoCapacityIff | libraries/src/radio_com/radio_com.c:197-214 | The capacity is 0 exactly while signals wait to be sent or every packet of the link is in use |
| ComSpec.ServiceKeeps | libraries/src/radio_com/radio_com.c:155-195 | Flushing data or sending signals early never changes what the packets mean |
| ComSpec.ServiceDelivers | libraries/src/radio_com/radio_com.c:155-195 | A service call leaves no byte loaded exactly when few packets are queued or signals are to be sent, sends waiting signals whenever there is a slot, and sends nothing else |
| ComSpec.SetSignalsKeeps | libraries/src/radio_com/radio_com.c:235-243 | Changing the signals keeps earlier bytes under the earlier signals |
| ComSpec.SetSignalsTakesEffect | libraries/src/radio_com/radio_com.c:235-243 | New signals are in force at once: the last packet carries them, or there is no slot and they go before any other byte; the same signals again change nothing |
| ComSpec.AvailableIsExactIff | libraries/src/radio_com/radio_com.c:197-214 | The byte returned is the exact capacity if and only if a packet is queued or more than 14 bytes are loaded, and it is 0 with room for 256 in exactly one case |
| ComSpec.FetchKeeps | libraries/src/radio_com/radio_com.c:62-95 | Going through received packets skips or loses nothing and stops at unreported signals |
| ComSpec.FetchFinds | libraries/src/radio_com/radio_com.c:62-95 | Going through received packets ends at a packet of bytes, which is opened, at signals the reader must be told of, or behind the last packet; it passes over nothing but packets of signals, and none with news but the last |
| ComSpec.NothingToReadIff | libraries/src/radio_com/radio_com.c:41-109 | There is nothing to read if and only if new signals must be reported first or every packet has been read, and looking loses no byte |
| ComSpec.TakeByteKeeps | libraries/src/radio_com/radio_com.c:111-123 | Reading a byte yields the next one of the stream |
| ComSpec.ReportKeeps | libraries/src/radio_com/radio_com.c:125-130 | Reporting signals keeps bytes and signals in step |
| ComSpec.ReportTells | libraries/src/radio_com/radio_com.c:125-130 | The reader is told the signals in force behind all packets that hold nothing else for it, and bytes are no longer held back |
| ComSpec.ReadsFollowWrites | libraries/src/radio_com/radio_com.c:37-243 | Over a reliable ordered link the bytes read are a prefix of the bytes written, and an order-enforcing reader has each byte's signals reported when it reads the byte |
| ComSpec.RepeatedFirstPacket | libraries/src/radio_com/radio_com.c:59-96 | A repeated first packet changes the stream if and only if it carries bytes |
| EndToEnd.BytesArriveInOrder | libraries/src/radio_com/radio_com.c:155-243 | As long as what has arrived means what was sent, the bytes read are a prefix of the bytes written, each under the right signals for an order-enforcing reader |
| EndToEnd.FaithfulIff | libraries/src/radio_com/radio_com.c:62-95 | In every reachable state what has arrived means what was sent if and only if the first packet has not been repeated or carries control signals |
| ComWorld.MainLoopKeeps | libraries/src/radio_com/radio_com.c:41-243 | Whatever a radio_com function does between two moments at which an interrupt can come queues only what the link has room for, releases only what has arrived, and keeps program and link in agreement |
| ComWorld.ServiceIsActs | libraries/src/radio_com/radio_com.c:155-195 | Without interrupts radioComTxService is the sequence: note a reset, hand over bytes, hand over signals |
| ComWorld.ServiceActsAreReady | libraries/src/radio_com/radio_com.c:155-195 | Each of these is due when its turn comes |
| ComWorld.SetSignalsIsActs | libraries/src/radio_com/radio_com.c:235-243 | Without interrupts radioComTxControlSignals is taking note of the signals and then servicing |
| ComWorld.PutByteIsActs | libraries/src/radio_com/radio_com.c:216-232 | Without interrupts radioComTxSendByte is loading the byte and handing over a full packet |
| ComWorld.FetchIsActs | libraries/src/radio_com/radio_com.c:41-96 | Without interrupts the packet loop is a sequence of adopting signals and opening a packet, each when it is due, after which neither is due |
| ComWorld.RadioKeeps | libraries/src/radio_link/radio_link.c:329-506 | Radio interrupts and losses keep both programs in agreement with their links |
| ComWorld.WrittenIsHistory | libraries/src/radio_com/radio_com.c:216-243 | After any run the bytes on record as written are those the run has loaded, in order, each under the signals set last before it, and as many are on record as read as the run has read |
| EndToEnd.WrittenBytesAreRead | libraries/src/radio_com/radio_com.c:1-243 | From two cold starts, for every interleaving of radio interrupts, losses and the statements of radio_com on both Wixels: if no byte is written on one Wixel before radioLinkConnected there, whatever is called on the other, the bytes read are a prefix of the bytes written, and an order-enforcing reader reads each byte under the signals it was written under |
| EndToEnd.FaithfulIsRead | libraries/src/radio_com/radio_com.c:37-130 | The same for every run, early bytes included, as long as what has arrived means what was sent |
| EndToEnd.FaithfulUnlessBytesEarly | libraries/src/radio_com/radio_com.c:155-232 | From every state of the whole system in which nothing went out early, what arrives means what was sent in all continuations without early writes, if and only if during the handshake the first packet carries no bytes and none are loaded for it |
| EndToEnd.EarlyBytesCanRepeat | libraries/src/radio_link/radio_link.c:383-393 | Bytes that wait during the handshake as the first packet have a continuation, without any further early write on that Wixel, that delivers them twice |
| EndToEnd.EarlyByteCanBeReadTwice | libraries/src/radio_com/radio_com.c:216-232 | Any byte written straight after switching on can be read twice on the other side: written once, read twice |
| RadioCom.RadioCom.RfInterrupt | libraries/src/radio_com/radio_com.c:9-19 | A radio interrupt leaves the bytes being loaded and the bytes left to read as they are |
| RadioCom.RadioCom.TxAvailable | libraries/src/radio_com/radio_com.c:197-214 | Never negative, and reported modulo 256 and so never too large |
| RadioCom.RadioCom.TxSendByte | libraries/src/radio_com/radio_com.c:216-232 | Writing in place into the link's slot is appending that byte, under the signals in force; a full packet is sent |
| RadioCom.RadioCom.TxService | libraries/src/radio_com/radio_com.c:155-195 | Equals the policy on values, data before signals |
| RadioCom.RadioCom.TxControlSignals | libraries/src/radio_com/radio_com.c:235-243 | Equals the policy on values; the given signals are in force |
| RadioCom.RadioCom.ReceiveMorePackets | libraries/src/radio_com/radio_com.c:41-96 | The packet loop equals the policy on values |
| RadioCom.RadioCom.RxAvailable | libraries/src/radio_com/radio_com.c:98-107 | The bytes left of the current packet; 0 exactly if every packet has been read or new signals have to be reported first |
| RadioCom.RadioCom.RxReceiveByte | libraries/src/radio_com/radio_com.c:111-123 | Returns the next byte, which is the one put on record as read, and releases the packet with its last one |
| RadioCom.RadioCom.RxControlSignals | libraries/src/radio_com/radio_com.c:125-130 | Reports the signals up to the next data, after which no byte is held back |
| OneWireSpec.WalkDown | apps/example_onewire/onewire.c:347-406 | Beyond the last discrepancy a search descends to the least device that is still active and records its last turn |
| OneWireSpec.WalkAcross | apps/example_onewire/onewire.c:360-381 | Following the previous ROM up to the last discrepancy and turning there leads to the least device beyond that turn |
| OneWireEnumeration.FirstSearch | apps/example_onewire/onewire.c:331-420 | A search from the start finds the least device |
| OneWireEnumeration.NextSearch | apps/example_onewire/onewire.c:331-420 | The next search finds the least device above the previous one |
| OneWireEnumeration.DoneAtGreatest | apps/example_onewire/onewire.c:411-418 | LastDeviceFlag is set exactly when the greatest device has been found |
| OneWireEnumeration.FamilyIsLastTurn | apps/example_onewire/onewire.c:370-429 | A successful call leaves the last turn within the family code in LastFamilyDiscrepancy, or what was there if there is none; a call without success starts the search over |
| OneWireEnumeration.SearchEnumerates | apps/example_onewire/onewire.c:315-432 | For any non-empty set of devices with non-zero family codes, successive calls return each device once in ascending order, then report the end once, and the cycle repeats for ever |
| OneWireEnumeration.SearchFindsIff | apps/example_onewire/onewire.c:422-429 | Some search succeeds if and only if there are devices and none has family code 0 |
| OneWire.OneWire.ResetSearch | apps/example_onewire/onewire.c:285-297 | The search starts over |
| OneWire.OneWire.WriteRomBit | apps/example_onewire/onewire.c:383-388 | Setting or clearing with the mask changes exactly that bit of the ROM number |
| OneWire.OneWire.Descend | apps/example_onewire/onewire.c:347-406 | The loop over 64 positions with its byte number and mask, reading and writing the bus, equals the walk on values |
| OneWire.OneWire.SearchNext | apps/example_onewire/onewire.c:315-432 | One call equals the search step on values, and copies the ROM number out unless no device answered the reset |
| Crc8Table.TableIsBitwise | apps/example_onewire/onewire.c:444-460 | Every table entry is eight steps of polynomial division |
| Crc8.Crc8ByTable | apps/example_onewire/onewire.c:469-477 | The table loop computes the CRC |
| Crc8.Crc8Bitwise | apps/example_onewire/onewire.c:482-497 | The bitwise loop computes the same CRC |
| Crc8.AppendedCrcIsZero | apps/example_onewire/onewire.c:469-497 | A message followed by its CRC has CRC 0 (Maxim Application Note 27) |
| Crc8.OneByteErrorIsDetected | apps/example_onewire/onewire.c:469-497 | Changing any one byte changes the CRC |
| Crc8.BurstIsDetected | apps/example_onewire/onewire.c:469-497 | Wrong bits that lie within any eight consecutive ones change the CRC, across a byte border too (Maxim Application Note 27) |
| Crc8.OddErrorIsDetected | apps/example_onewire/onewire.c:469-497 | Any odd number of wrong bits changes the CRC |
| Crc8.TwoBitErrorIsDetectedIff | apps/example_onewire/onewire.c:469-497 | Two wrong bits change the CRC if and only if their distance is no multiple of 127; always within 15 bytes |
| UsbControl.ReadSendsSegments | libraries/src/usb/usb.c:256-281 | A control read sends the segments of its source in order, one at each poll that finds the endpoint free, and stops exactly after the last; each is handed over with INPKT_RDY, and exactly the last with DATA_END |
| UsbControl.SegmentsShape | libraries/src/usb/usb.c:261-273 | n bytes make n/32 + 1 packets, all full but the last, which together are the data |
| UsbControl.ReadFromSetup | libraries/src/usb/usb.c:198-281 | The same from the SETUP packet on, whether or not an earlier IN packet is still waiting, with the writes that hand the packets over |
| UsbControl.HostGetsEverything | libraries/src/usb/usb.c:361-370 | A host that stops after the bytes it asked for or a packet that is not full gets all of a clipped read; the last packet stays unread exactly if full packets were all it asked for |
| UsbControl.DescriptorReachesHost | libraries/src/usb/usb.c:308-371 | GET_DESCRIPTOR delivers the descriptor's first min(length, wLength) bytes |
| UsbControl.WriteInProgress | libraries/src/usb/usb.c:159-174 | Until the announced count is reached the bytes so far are in place, all else is unchanged, the handler has not been called, and each packet is answered by clearing OUTPKT_RDY and nothing else |
| UsbControl.WriteCompletes | libraries/src/usb/usb.c:175-197 | Whatever the packet sizes, the handler is called once, unless bits 5 and 6 of the request are 0 (a standard one), with exactly the first n bytes stored and memory around them unchanged, and its verdict decides the answer |
| UsbControl.OnlyGrantedMemoryChanges | libraries/src/usb/usb.c:139-283 | In any run, aborts included, a byte outside the buffers granted to control writes never changes |
| UsbControl.OutIsClearedIff | libraries/src/usb/usb.c:153-254 | A poll that finds OUTPKT_RDY set clears it if and only if it does not handle a SETUP packet that starts a control read |
| UsbControl.ArmedIsHandedOver | libraries/src/usb/usb.c:256-277 | In any run of polls every packet put in the endpoint's memory is handed over by one write of INPKT_RDY, in order, with DATA_END exactly if it is not full, and nothing else is handed over |
| UsbControl.SetupIsAnswered | libraries/src/usb/usb.c:199-246 | A SETUP packet is recorded and answered with a stall, an acknowledgement, a cleared OUTPKT_RDY before a write, or the first packet of a read |
| UsbControl.StrayPacketIsDropped | libraries/src/usb/usb.c:247-253 | Any other OUT packet outside a write only has OUTPKT_RDY cleared; the poll goes on as if it had not come |
| UsbControl.AbortIsAcknowledged | libraries/src/usb/usb.c:139-151 | SETUP_END and SENT_STALL are acknowledged by the polls that find them and by no others |
| UsbControl.AbortStopsTransfer | libraries/src/usb/usb.c:139-151 | After SETUP_END or SENT_STALL and until the next SETUP packet no packet is handed over, no memory written and no handler called |
| UsbControl.ControlEndpoint.ReadFifo | libraries/src/usb/usb.c:34-44 | The copy loop stores the packet's first bytes and nothing else |
| UsbControl.ControlEndpoint.WriteFifo | libraries/src/usb/usb.c:46-54 | The copy loop takes exactly the given bytes |
| UsbControl.ControlEndpoint.SetupHandler | libraries/src/usb/usb.c:608-631 | The four calls a handler can make |
| UsbControl.ControlEndpoint.PollOut | libraries/src/usb/usb.c:153-254 | The branch for OUT packets equals the poll on values |
| UsbControl.ControlEndpoint.PollIn | libraries/src/usb/usb.c:256-281 | The branch for IN packets equals the poll on values |
| UsbControl.ControlEndpoint.Poll | libraries/src/usb/usb.c:130-283 | One poll of endpoint 0, with every write to USBCS0, equals the poll on values |
| UsbCdc.InvRun | libraries/src/usb_cdc_acm/usb_cdc_acm.c:358-511 | For any mix of sends, services, host reads and changes of configuration the packets and the bytes loaded are the bytes written, at most two packets wait, and sendEmptyPacketSoon holds exactly if the last packet was full |
| UsbCdc.PutKeeps | libraries/src/usb_cdc_acm/usb_cdc_acm.c:449-511 | The room reported falls by exactly one with every byte |
| UsbCdc.ServiceSends | libraries/src/usb_cdc_acm/usb_cdc_acm.c:401-406 | A service call on a configured device leaves no byte loaded and ends a transfer of full packets that the host has read; otherwise, and while not configured, it does nothing |
| UsbCdc.HostSeesWritten | libraries/src/usb_cdc_acm/usb_cdc_acm.c:401-406 | In every run what the host has from ended transfers is a prefix of what the run has sent, and all of it once the stream is drained |
| UsbCdc.IdleStreamDrains | libraries/src/usb_cdc_acm/usb_cdc_acm.c:401-406 | While configured and without new bytes at most six effective services and reads drain the stream, and only a drained stream is at rest |
| UsbCdc.UsbCdc.SendPacketNow | libraries/src/usb_cdc_acm/usb_cdc_acm.c:358-371 | Arms the bytes loaded and notes whether the packet was full |
| UsbCdc.UsbCdc.Service | libraries/src/usb_cdc_acm/usb_cdc_acm.c:401-406 | Equals the service step on values, which does nothing while not configured, and keeps the invariant |
| UsbCdc.UsbCdc.TxAvailable | libraries/src/usb_cdc_acm/usb_cdc_acm.c:449-473 | Exactly 128 bytes less what is armed or loaded, and 0 while not configured |
| UsbCdc.UsbCdc.TxSend | libraries/src/usb_cdc_acm/usb_cdc_acm.c:477-496 | Cutting a buffer at packet ends equals sending it byte by byte |
| UsbCdc.UsbCdc.TxSendByte | libraries/src/usb_cdc_acm/usb_cdc_acm.c:498-511 | Appends one byte and arms a full packet |
| Uart.SendKeeps | libraries/src/uart/core/uart.c:213-274 | Every single statement and transmit interrupt keeps the ring, its history, and that a waiting byte has its interrupt on outside the send functions; an interrupt transmits the oldest waiting byte, or turns itself off if there is none, and never takes promised room away |
| Uart.SentIsPrefix | libraries/src/uart/core/uart.c:230-274 | Under any interleaving the bytes transmitted are a prefix of those the run has stored, and all of them when the interrupt is off outside the send functions |
| Uart.ReceiveKeeps | libraries/src/uart/core/uart.c:240-315 | Every statement and receive interrupt keeps the ring, its history and the meaning of the error flags; an interrupt never takes received bytes away |
| Uart.ReceivedIsPrefix | libraries/src/uart/core/uart.c:240-315 | In every run ring and flags agree with a queue of 255 bytes fed with the run's arrivals: the bytes read are a prefix of the error-free arrivals without those that found 255 bytes waiting, all of them if the overflow flag is clear, and the flags tell exactly whether there was an overflow, a framing error, a parity error |
| Uart.Uart.TxAvailable | libraries/src/uart/core/uart.c:208-211 | 255 less the bytes not yet transmitted |
| Uart.Uart.RxAvailable | libraries/src/uart/core/uart.c:240-243 | The bytes kept and not yet read |
| Uart.Uart.TransmitInterrupt | libraries/src/uart/core/uart.c:254-274 | Transmits the oldest byte or turns its interrupt off |
| Uart.Uart.RxRead | libraries/src/uart/core/uart.c:245-252 | Reads the next byte kept |
| Uart.Uart.ReceiveInterrupt | libraries/src/uart/core/uart.c:276-315 | Equals the interrupt on values |
| Uart.Uart.TxSendByte | libraries/src/uart/core/uart.c:230-238 | Whatever interrupts come between its statements, the byte is submitted, the interrupt is on, and nothing received is disturbed |
| Uart.Uart.TxSend | libraries/src/uart/core/uart.c:213-228 | Whatever interrupts come between its statements, the whole buffer is submitted in order and the interrupt is left on |
| SpiMaster.ExchangeRightIff | libraries/src/spi_master/core/spi_master.c:202-251 | The receive buffer ends up holding the slave's bytes; the slave gets the original bytes for all answers if and only if the receive buffer does not start inside the transmit buffer |
| SpiMaster.SpiMaster.Transfer | libraries/src/spi_master/core/spi_master.c:202-213 | Starts an exchange; of no bytes it does nothing |
| SpiMaster.SpiMaster.ReceiveInterrupt | libraries/src/spi_master/core/spi_master.c:234-251 | Advances the exchange by exactly one byte each way |
| SpiMaster.SpiMaster.ExchangeDone | libraries/src/spi_master/core/spi_master.c:234-251 | With no bytes left, memory differs only in the receive buffer, which holds the answers, and the slave has the original bytes unless the buffers overlap the wrong way |
| Baud.RawIsExact | libraries/src/uart/core/uart.c:158-160 | The split product is the exact quotient, and 495782 is exactly the largest rate whose product fits 32 bits |
| Baud.HalvingsAreLeast | libraries/src/uart/core/uart.c:151-156 | The request is halved exactly as often as it takes to be at most 495782 |
| Baud.BestIff | libraries/src/uart/core/uart.c:143-171 | The rate never exceeds the request, and is the fastest such setting if and only if what the halvings drop from the request, a remainder by a power of two, is at most what a mantissa at its exponent cannot express, another remainder; up to 495782 it always is |
| Baud.ShortfallIsSmall | libraries/src/spi_master/core/spi_master.c:127-142 | The rate falls short of the request by less than one step of the mantissa and, after k halvings, another 2^k |
| Baud.ComputedIsBestForRounded | libraries/src/uart/core/uart.c:151-168 | The mantissa is in range and the setting is the fastest for the rounded request |
| Baud.ExponentFits | libraries/src/spi_master/core/spi_master.c:118-147 | The exponent is at most 17, and at most 16 for UART rates |
| Baud.HalvingCanMissTheBest | libraries/src/uart/core/uart.c:151-156 | 496583 gets mantissa 338 although 339 does not exceed it |
| Baud.Usart.Calculate | libraries/src/uart/core/uart.c:151-168 | The loops compute that setting and no product leaves 32 bits |
| Baud.Usart.SetBaudRate | libraries/src/uart/core/uart.c:143-171 | The registers hold the setting, or are unchanged out of range |
| Baud.Usart.SetFrequency | libraries/src/spi_master/core/spi_master.c:118-147 | The same, with polarity, phase and bit order kept |
| Servo.MotionIsExact | libraries/src/servo/servo.c:119-149 | With a speed limit a servo moves straight to its target by its speed each round, never past it, and stays |
| Servo.MovingIsExact | libraries/src/servo/servo.c:119-149 | It raises the moving flag in exactly the first floor(distance / speed) rounds and has arrived one round later |
| Servo.UpdateKeeps | libraries/src/servo/servo.c:110-150 | A servo is off exactly if its target is 0, the register is the two's complement of the position, and a clear flag means all have arrived |
| Servo.MovingFlagIsExact | libraries/src/servo/servo.c:115-150 | Without commands the flag of all six servos is set exactly while one of them still needs a full step |
| Servo.TargetReadsBackIff | libraries/src/servo/servo.c:292-325 | A target in microseconds reads back if and only if it is at most 2730 |
| Servo.TargetIsSet | libraries/src/servo/servo.c:298-320 | The target is stored for that servo alone; a servo that is off, is switched off or has no limit is there at once, and any other stays where it is and raises the flag if it has somewhere to go; register and position add up to 0 modulo 65536 |
| Servo.ServoDriver.UpdatePositions | libraries/src/servo/servo.c:97-152 | The loop over the servos equals one round on values |
| Servo.ServoDriver.TimerInterrupt | libraries/src/servo/servo.c:59-154 | Which pulses each of the seven timer periods gets |
| Servo.ServoDriver.SetTargetHighRes | libraries/src/servo/servo.c:298-320 | A new target acts at once or sets the flag, and keeps what holds in every state |
| Servo.ServoDriver.SetSpeed | libraries/src/servo/servo.c:346-351 | Changes that servo's speed only |
| Servo.ServoDriver.Start | libraries/src/servo/servo.c:170-213 | All servos are off and the named pins get their channels |
| Packet.Read1IsSlice | libraries/src/packet/packet.c:50-72 | A field of up to 8 bits is the slice of the 40-bit string, right-aligned, whether it lies in one byte or two, and whatever char lies behind the packet |
| Packet.Read2IsSlice | libraries/src/packet/packet.c:75-109 | The same for 9 to 16 bits in two bytes or three, sign extension of the chars included |
| Packet.OutsideReadsAsZero | libraries/src/packet/packet.c:50-80 | A field too long for the reader, or not inside the packet, reads as 0 |
| Packet.HeaderIsSixOnes | libraries/src/packet/packet.c:39-47 | The header is accepted exactly if its first six bits are ones |
| Packet.FieldsAreThePacket | libraries/src/packet/packet.c:29-36 | Header bits, ID, Y, X and R side by side are the whole packet |

## Left out

- Radio registers, DMA set-up, MARCSTATE values, timers, GPIO, ADC, LEDs, sleep modes and board code: hardware access; only the events they raise are modelled.
- radioLinkTxQueueReset and radioLinkChangeChannel: they discard queued data and restart the session on purpose.
- TX underflow and RX overflow reports of the radio: they set an error flag and change nothing else.
- Liveness of retransmission: it depends on chance; safety, the wake-up guarantee and the possibility of progress are proved instead.
- radioLinkTxSendPacket with a payload type above 15 or a length above 18: the documentation forbids them.
- EndToEnd.WrittenBytesAreRead: is about Wixels that stay switched on; with restarts the statements are about packets, in RadioRestart.
- Mixing radio_com with other users of radio_link: received packets are assumed to be ones radio_com sends.
- A shorted 1-Wire bus and devices that come or go during a search: the set of devices is fixed.
- onewire_crc16: compiled out, and it reads data[len] instead of data[i].
- UsbControl.OnlyGrantedMemoryChanges: is about what usbPoll stores; what the application's handlers write themselves is theirs.
- The remaining standard USB requests, descriptors, suspend and bus reset, HID: constant data and register writes.
- UsbCdc.UsbCdc.Service: covers the data endpoint only; the serial-state notifications are not modelled.
- usbComRxReceive, usbComRxReceiveByte and the bootloader request of CDC-ACM.
- UsbCdc.InvRun: leaves out the bus reset, after which the hardware discards its packets.
- Clearing the UART error flags, parity and stop bits: register writes.
- spiNMasterSendByte and spiNMasterReceiveByte: transfers of one byte that wait for the interrupt.
- Servo.ServoDriver.Start: starting without pins, the stop before a restart and the port registers are not modelled.
- servosStop: it waits for the timer and writes registers.
- Servo.ServoDriver.TimerInterrupt: the timer compare registers are modelled, the pin selection in periods 0, 2, 3 and 5 is not.
- Trigonometry, robot navigation, path sampling: floating point.
- The queue, stack, reporting and radio_queue libraries: simpler rings of the kind proved here.
