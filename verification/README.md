# QuickTrack control app: a verified model

The control app (`AFC-ControlAppC`) runs on a device under test. It waits in an event loop for
datagrams from a test tool, acknowledges each one, carries it out and responds. This project models
the parts of it that hold state or transform data, and proves what they promise:

* **The event loop** (`TimerQueue`, `EventTrace`, `EventLoop`, `ReaderPass`, `TimerList`,
  `EventLoopObject`, `Signals`). Handlers re-enter the loop while it walks its own structures, so a
  handler is modelled by the calls it makes, and every theorem holds for every choice of calls. Every
  run is a legal trace of two textbook objects, a stable priority queue of timers and a registry of
  distinct sockets; a due timer is served within a bounded number of iterations; the linked list, the
  compacted reader array and the main loop refine this. The signal flags are a separate machine whose
  main-loop accesses are single steps and whose signal handler may run between any two of them.
* **Users of the event loop** (`Loopback`, `LoopbackObject`). The loopback echo server and the
  continuous sender, interleaved freely with each other, with firing timers and with all other code.
* **Checksum and text lookup** (`Checksum`, `KeyValue`).
* **The wire protocol** (`Codec`, `PacketWrapper`, `Protocol`). Parser and printer, the heap blocks of
  the TLVs, and the request/acknowledgement/response protocol.
* **Interfaces and configuration text** (`Interfaces`, `ApFiles`, `HostapdTail`, `HostapdLines`,
  `StaConfig`). The interface table, the file each BSS section goes to and its lines, the defaults
  appended to a hostapd configuration and what decides each of them, and the station configuration.

`Basics`, `TextTlv` and `TextLines` hold the vocabulary that several of these share.

Code that changes state is a class or a method with loops, proved equal to a function on values. The
lemmas are about these functions and about all their runs; those named `...AsAsked`, `...Says` and
`...Line` fix what one call does or one line says in terms of the request alone. The build modelled is the non-OpenWRT one
with `HOSTAPD_SUPPORT_MBSSID` set to 1.

## What the proofs found

Some properties one would expect do not hold without a condition. In each case the condition is part
of the theorem. A lemma gives a concrete failing run or input, except for the two cases marked latent,
which no caller in the repository reaches.

* A terminating signal that arrives between `alarm(0)` and `pending_terminate = 0` has no watchdog
  behind it (`WatchdogArmed`, `WatchdogMissed`; AFC-ControlAppC/eloop.c:253-258). In every reachable
  state such a signal still lies ahead of the pass under way, which will serve it (`UnguardedIsServed`).
* While reader i is served, unregistering a socket at index i or below makes the scan step over its
  successor; a ready reader loses its service in that pass exactly when it is that successor
  (`RemovalCostsNobody`, `SelfRemovalSkipsSuccessor`; AFC-ControlAppC/eloop.c:353-360).
* A reader registered during a pass on a descriptor that select had reported, so a descriptor closed
  and opened again, is called in that pass although its own socket was never reported
  (`NewReaderServed`).
* A verify callback that fills the response loses the blocks of slots 0 and 1, which
  `fill_wrapper_ack` overwrites (`ControlReceiveMessage`, `Serve`; AFC-ControlAppC/indigo_api.c:357-376).
  This is latent: every `register_api` call in the repository passes NULL for verify, and such runs
  lose nothing (`WithoutVerifyLossless`).
* `find_wrapper_tlv_by_id` scans all slots, so a lookup of id 0 may find the slot that a failed
  `parse_tlv` left behind, which the request does not count (`FindTlvById`). This too is latent: no
  caller looks up id 0.
* With overlapping loopback servers, status and stop miss an open server exactly after a stop or a
  timeout that happens while a server other than the one it closes is open (`StatusStep`,
  `StatusThroughout`, `OverlapHidesServer`).
* A start of the continuous sender while one is active overwrites its descriptor, and a failed device
  binding leaks one; no stop ever closes these. A stop closes all of them exactly when neither happened
  (`StopClosesAllSenders`, `SecondStartStrands`; AFC-ControlAppC/utils.c:494-506).
* A band's file is lost at the first request that either configures a non-transmitting BSS that does
  not stand behind the one transmitter leading the band, or configures again the BSS that leads the
  band: the latter appends to its own file and then clears its own path
  (AFC-ControlAppC/indigo_api_callback_dut.c:830-833). It is lost only there; a transmitter that comes
  late, or any other BSS configured again, is harmless by itself (`FileRuleIsExact`,
  `RunCompleteExactly`, `StrayLosesText`, `RepeatLosesPath`).
* Two bands whose first interfaces have the same name share a file, and opening the second band
  erases the first one's text, unless it is the same text (`NameRuleIsExact`). The shipped default
  (AFC-ControlAppC/vendor_specific.h:54) repeats names across bands (`SharedNameLosesText`); equal
  names elsewhere in the table are harmless.
* The appended hostapd text depends on TLV order exactly when an HE and a VHT width TLV disagree and
  the text tells their values apart: 11ac or 11ax is on, and either the band is 6 GHz and the widths
  differ in operating class or centre, or it is 5 GHz on a channel with an HT40 side, one of them is
  above 0, and they differ in being above 0, in being 160 MHz or in centre. This holds for each set of
  channel tables by itself (`OrderMattersExactly`, `OrderChangesText`); on channel 165 at 5 GHz, which
  has no HT40 side, order never matters (`NoSideNoOrder`).
* On a big-endian host an odd packet is not summed as if padded with zero, unless its last byte is
  zero (`OddLengthIsPadded`, `OddPacketDiffers`). The packet still sums to zero on the same host.

## What is assumed of the environment

Stated as preconditions, because the code relies on it without checking: allocation succeeds; the
clock does not run backwards; a newly opened descriptor is positive and not open; a packet carries at
most 128 TLVs, or 127 in front of stray bytes, and every TLV length byte stays inside the packet; what
is assembled fits the buffer; other code uses its own handlers, closes no descriptor of the
loopback server or of a sender, and unregisters a socket before it closes it; a BSS whose interface an
OWE TLV reserved, and which then opens its band, is non-transmitting exactly if the TLV said so. Ready
sets, clock readings, outcomes of send and receive, and the calls a handler makes are parameters,
unrestricted otherwise.

## Model

| member | source | states |
|---|---|---|
| `TimerQueue.BeforeIsEarlier` | AFC-ControlAppC/eloop.c:157 | on normalised times the field-wise timercmp is the comparison of exact microseconds |
| `TimerQueue.NormalFormUnique` | AFC-ControlAppC/eloop.c:140-143 | a normalised time is determined by its microsecond count |
| `TimerQueue.AddDelay` | AFC-ControlAppC/eloop.c:137-143 | the carry loop ends in the normalised time that is exactly the delay after now |
| `TimerQueue.SelectWait` | AFC-ControlAppC/eloop.c:311-316 | select sleeps exactly until the head is due, and not at all if it is due already |
| `TimerQueue.InsertSplit` | AFC-ControlAppC/eloop.c:154-169 | the place where the list walk stops, before the first later deadline, is the place of insertion |
| `TimerQueue.InsertSorted` | AFC-ControlAppC/eloop.c:149-169 | a registration keeps the list sorted by deadline, and by registration order on equal deadlines |
| `TimerQueue.InsertMultiset` | AFC-ControlAppC/eloop.c:149-169 | a registration adds its timer and loses no other |
| `TimerQueue.InsertKeepsPosition` | AFC-ControlAppC/eloop.c:156-161 | a timer due no later than a new one keeps its position |
| `TimerQueue.KeepDropPartition` | AFC-ControlAppC/eloop.c:183-201 | cancelling splits the list into the cancelled and the surviving timers, each once |
| `TimerQueue.KeepDropMembers` | AFC-ControlAppC/eloop.c:186-190 | cancelled are exactly the timers that match handler and contexts, wildcards included |
| `TimerQueue.KeepSorted` | AFC-ControlAppC/eloop.c:183-201 | cancelling keeps the order |
| `TimerQueue.KeepPosition` | AFC-ControlAppC/eloop.c:183-201 | a surviving timer never moves back |
| `TimerList.List.FindPlace` | AFC-ControlAppC/eloop.c:154-161 | the walk returns the last node that is not later than the new timer |
| `TimerList.List.LinkAfter` | AFC-ControlAppC/eloop.c:163-169 | relinking inserts one node at its place and keeps the chain intact |
| `TimerList.List.Register` | AFC-ControlAppC/eloop.c:134-171 | the linked list after a registration holds the stable insertion, in one fresh node |
| `TimerList.List.Cancel` | AFC-ControlAppC/eloop.c:175-204 | the walk removes and frees exactly the matching nodes, in place, and returns their number |
| `TimerList.List.RemoveAndFree` | AFC-ControlAppC/eloop.c:191-195 | one node is unlinked and freed, the rest of the chain is kept |
| `TimerList.List.UnlinkHead` | AFC-ControlAppC/eloop.c:341-342 | the head leaves the list but stays allocated while its handler runs |
| `TimerList.List.Destroy` | AFC-ControlAppC/eloop.c:377-382 | every linked node is freed |
| `EventTrace.ExactlyOnce` | AFC-ControlAppC/eloop.c:128-204 | in a legal trace each timer is registered at most once, and is pending or has ended exactly once |
| `EventTrace.RegistrationOrder` | AFC-ControlAppC/eloop.c:128-172 | later registrations carry larger numbers |
| `EventTrace.NeverEarly` | AFC-ControlAppC/eloop.c:339-340 | in a legal trace a firing comes after the registration of its timer, which carries the handler and contexts asked for, and at least the delay asked for after that call |
| `EventTrace.FiringOrder` | AFC-ControlAppC/eloop.c:336-346 | when a timer fires, every registration with an earlier deadline, or the same deadline and registered before, has ended |
| `EventTrace.NoDispatchAfterRemoval` | AFC-ControlAppC/eloop.c:353-360 | a socket unregistered is dispatched again only if it was registered again in between, even within one pass |
| `EventLoop.RegisterInv` | AFC-ControlAppC/eloop.c:128-172 | registering a timeout keeps the list the sorted arrangement of the abstract queue |
| `EventLoop.RegisterAsAsked` | AFC-ControlAppC/eloop.c:128-172 | a registration adds exactly one timer, with the call's handler and contexts, due the given seconds and microseconds after the call, and logs what was asked |
| `EventLoop.CancelInv` | AFC-ControlAppC/eloop.c:175-204 | so does cancelling, from inside any handler |
| `EventLoop.CancelAsAsked` | AFC-ControlAppC/eloop.c:175-204 | gone are exactly the timers of this handler whose contexts are the given ones, (void *) -1 standing for any |
| `EventLoop.AddReaderInv` | AFC-ControlAppC/eloop.c:80-103 | registering keeps sockets unique, the array in step with the registry, and max_sock a bound |
| `EventLoop.RemoveReaderInv` | AFC-ControlAppC/eloop.c:106-125 | unregistering removes exactly the named socket and keeps the same three facts |
| `EventLoop.ReadersAsAsked` | AFC-ControlAppC/eloop.c:80-125 | registering adds the given reader, unregistering takes the one of the given socket; max_sock rises to the new socket at most and never falls |
| `EventLoop.StepInv` | AFC-ControlAppC/eloop.c:80-204 | every call of the loop's interface keeps the invariant |
| `EventLoop.UnlinkInv` | AFC-ControlAppC/eloop.c:340-342 | taking a due head out of the list is a legal firing |
| `EventLoop.DispatchInv` | AFC-ControlAppC/eloop.c:353-360 | the reader scan keeps the invariant whatever calls its handlers make |
| `EventLoop.IterateInv` | AFC-ControlAppC/eloop.c:309-361 | so does one iteration |
| `EventLoop.RunInv` | AFC-ControlAppC/eloop.c:297-364 | the log of every run is a legal trace of a stable priority queue and a socket registry |
| `EventLoop.WholeRunExactlyOnce` | AFC-ControlAppC/eloop.c:297-385 | from init to destroy each registered timer fires, is cancelled or is destroyed exactly once |
| `EventLoop.StopsExactly` | AFC-ControlAppC/eloop.c:309-310 | no further iteration once a signal callback or a due timer's handler called eloop_terminate, or without timers and readers; another one otherwise, unless some handler called it |
| `EventLoop.StepKeepsPlace` | AFC-ControlAppC/eloop.c:128-204 | no call moves a due timer back in the list |
| `EventLoop.TimerPhaseAdvances` | AFC-ControlAppC/eloop.c:336-346 | while a due timer waits, the timer check takes a timer from in front of it or the timer itself |
| `EventLoop.BoundedWait` | AFC-ControlAppC/eloop.c:309-346 | a due timer with k timers ahead has fired or been cancelled after k + 1 iterations, whatever handlers register |
| `ReaderPass.PassServesStayers` | AFC-ControlAppC/eloop.c:353-360 | when handlers unregister only later readers, the readers that stay are served exactly when ready, once each, in order |
| `ReaderPass.ReadyReaderServedOnce` | AFC-ControlAppC/eloop.c:353-360 | then a ready reader that stays is served exactly once in the pass |
| `ReaderPass.ServedUnrolls` | AFC-ControlAppC/eloop.c:353-360 | serving a ready reader is its dispatch, then its handler's calls, then the rest of the pass |
| `ReaderPass.RemovalSkipsNobody` | AFC-ControlAppC/eloop.c:106-125 | a removal at index i leaves every other reader behind i behind i in the array if and only if it concerns a later reader, no reader, or i is the last index |
| `ReaderPass.PassAfterRemoval` | AFC-ControlAppC/eloop.c:353-360 | when the handler at i unregisters one socket, the rest of the pass serves i and the ready readers that the compacted array holds behind i |
| `ReaderPass.RemovalCostsNobody` | AFC-ControlAppC/eloop.c:353-360 | such a removal costs no ready reader its service in this pass if and only if it concerns a later reader, no reader, the last index, or the reader right behind i is not ready |
| `ReaderPass.SelfRemovalSkipsSuccessor` | AFC-ControlAppC/eloop.c:353-360 | in any array a handler that unregisters itself hides its ready successor, which stays registered, for this pass |
| `ReaderPass.NewReaderServed` | AFC-ControlAppC/eloop.c:353-360 | a socket registered during a pass is served in it if and only if its number is in the ready set, filled before it was registered |
| `EventLoopObject.ReaderArray.Register` | AFC-ControlAppC/eloop.c:87-100 | the grown array holds the old readers and the new one, and max_sock their bound |
| `EventLoopObject.ReaderArray.FirstMatch` | AFC-ControlAppC/eloop.c:113-118 | the search finds the first reader of the socket |
| `EventLoopObject.ReaderArray.CloseGap` | AFC-ControlAppC/eloop.c:119-124 | the compaction drops one reader and keeps the order of the others |
| `EventLoopObject.ReaderArray.Unregister` | AFC-ControlAppC/eloop.c:106-125 | the array loses the first reader of the socket and nothing else |
| `EventLoopObject.Eloop.constructor` | AFC-ControlAppC/eloop.c:73-77 | eloop_init yields the empty loop |
| `EventLoopObject.Eloop.RegisterTimeout` | AFC-ControlAppC/eloop.c:128-172 | performs the machine's registration on the linked list |
| `EventLoopObject.Eloop.CancelTimeout` | AFC-ControlAppC/eloop.c:175-204 | performs the machine's cancellation and returns the number of timers cancelled |
| `EventLoopObject.Eloop.CheckTimers` | AFC-ControlAppC/eloop.c:336-346 | unlinks a due head, runs its handler and only then frees it: the node is allocated throughout, so the handler cannot cancel or free it |
| `EventLoopObject.Eloop.DispatchReady` | AFC-ControlAppC/eloop.c:353-360 | the scan over the changing array performs the machine's dispatch |
| `EventLoopObject.Eloop.Run` | AFC-ControlAppC/eloop.c:297-364 | the whole loop refines the machine's run |
| `EventLoopObject.Eloop.DestroyLoop` | AFC-ControlAppC/eloop.c:373-385 | after any run no timer block survives eloop_destroy |
| `Signals.NextInv` | AFC-ControlAppC/eloop.c:221-268 | no single access of the main loop and no delivery breaks the signal invariant |
| `Signals.RunInv` | AFC-ControlAppC/eloop.c:221-268 | so no interleaving breaks it |
| `Signals.NoFlagForgotten` | AFC-ControlAppC/eloop.c:235-251 | in every reachable state a set flag is announced by signaled or still ahead in the scan |
| `Signals.DeliveryIsRecorded` | AFC-ControlAppC/eloop.c:226-241 | in every reachable state a delivery raises flag and arrival count of the signal's first entry by one, announces itself and changes no other entry; SIGINT (2) and SIGTERM (15) leave a termination pending |
| `Signals.ArrivalsCountDeliveries` | AFC-ControlAppC/eloop.c:236-241 | over any run the arrival count of an entry is the number of deliveries of its signal, or 0 behind an earlier entry for it |
| `Signals.NoSpuriousCallback` | AFC-ControlAppC/eloop.c:260-267 | callbacks never outnumber deliveries |
| `Signals.CompletedPassDelivers` | AFC-ControlAppC/eloop.c:245-268 | a pass that began with a flag set and returned has called that callback, whatever was delivered meanwhile |
| `Signals.DeliveredIsServed` | AFC-ControlAppC/eloop.c:226-270 | after a delivery in any reachable state, once a pass has begun and the last pass has returned, the callback of the signal's first entry has been made since, whatever was interleaved |
| `Signals.AlarmGuardsTermination` | AFC-ControlAppC/eloop.c:226-232 | an alarm runs exactly while a termination is pending, but for one window; a pending termination is announced or about to be cleared |
| `Signals.WatchdogArmed` | AFC-ControlAppC/eloop.c:226-258 | a terminating signal leaves the alarm running if and only if it misses that window |
| `Signals.UnguardedIsServed` | AFC-ControlAppC/eloop.c:226-258 | in every reachable state a recorded terminating signal without a running alarm lies ahead of the pass under way, which will serve it |
| `Signals.WatchdogMissed` | AFC-ControlAppC/eloop.c:253-258 | the window is reachable: a recorded SIGTERM with no alarm and no pending termination |
| `Signals.QuietPass` | AFC-ControlAppC/eloop.c:245-268 | an undisturbed pass makes one callback per set flag and leaves nothing pending |
| `Signals.FinishIsRun` | AFC-ControlAppC/eloop.c:245-268 | the undisturbed pass is one of the interleavings |
| `Signals.SignalTable.IndexOf` | AFC-ControlAppC/eloop.c:236-241 | the search finds the first entry registered for the signal |
| `Signals.SignalTable.HandleSignal` | AFC-ControlAppC/eloop.c:221-242 | the handler's loop performs the delivery step of the machine |
| `Signals.SignalTable.ProcessPendingSignals` | AFC-ControlAppC/eloop.c:245-268 | the loop performs the undisturbed pass of the machine |
| `Loopback.NextInv` | AFC-ControlAppC/utils.c:310-376 | every start, stop, firing and foreign call keeps the loopback invariant |
| `Loopback.ServerStartInv` | AFC-ControlAppC/utils.c:351-361 | a start adds one socket with its one reader and its one timeout |
| `Loopback.ServerStopInv` | AFC-ControlAppC/utils.c:364-372 | a stop removes the socket, its reader and its timeout together |
| `Loopback.FireInv` | AFC-ControlAppC/utils.c:310-316 | so does the server's own timeout; a send timer re-arms only an open sender |
| `Loopback.FireAsPrescribed` | AFC-ControlAppC/utils.c:404-491 | a due send timer counts one packet, one answer if there was one (an echo reply for ICMP), and is replaced by one due the given delay later unless the sender is UDP, unanswered and at packet 1000 or later; a due server timeout closes that server |
| `Loopback.StartAsAsked` | AFC-ControlAppC/utils.c:318-362 | a server starts with its reader and a timeout due the given seconds later; a sender of the given kind has counted nothing and sends at once |
| `Loopback.Lifecycle` | AFC-ControlAppC/utils.c:310-376 | for every interleaving, overlapping starts included: open servers, their readers and their timeouts are the same set; no reader or server timer names a closed socket; no sender, no send timer; answers never outnumber packets |
| `Loopback.StopSilencesSender` | AFC-ControlAppC/utils.c:494-506 | however often sending was started, a stop removes every send timer and no other timer, and closes the sender's socket |
| `Loopback.SenderGoesOn` | AFC-ControlAppC/utils.c:460-480 | over every run an active sender that is ICMP, or has sent fewer than 1000 packets, has a send timer pending |
| `Loopback.SenderStopsExactly` | AFC-ControlAppC/utils.c:460-480 | a firing leaves no send timer if and only if it was the only one and the sender is UDP, unanswered and at packet 1000 or later |
| `Loopback.StopClosesAllSenders` | AFC-ControlAppC/utils.c:494-506 | after any run a stop leaves no sender's descriptor open if and only if no start leaked one and none came while a sender was active |
| `Loopback.SecondStartStrands` | AFC-ControlAppC/utils.c:563-575 | a sender started twice: the stop closes the second descriptor and leaves the first open |
| `Loopback.StatusStep` | AFC-ControlAppC/utils.c:310-376 | an action spoils a right status if and only if it is a stop or a server timeout while a server other than the one it closes is open |
| `Loopback.StatusThroughout` | AFC-ControlAppC/utils.c:310-376 | over any run the status is right throughout if and only if no such action happens |
| `Loopback.StatusIsExact` | AFC-ControlAppC/utils.c:364-376 | in particular, without overlapping starts the status is right and a stop closes whatever is open |
| `Loopback.OverlapHidesServer` | AFC-ControlAppC/utils.c:310-316 | with overlapping starts a server may be open that status and stop do not see |
| `LoopbackObject.Loopbacks.LoopbackServerStart` | AFC-ControlAppC/utils.c:318-362 | performs the start of the machine on the real loop, -1 when no socket was bound |
| `LoopbackObject.Loopbacks.LoopbackServerStop` | AFC-ControlAppC/utils.c:364-372 | performs the stop of the machine |
| `LoopbackObject.Loopbacks.LoopbackServerTimeout` | AFC-ControlAppC/utils.c:310-316 | performs the timeout of the machine |
| `LoopbackObject.Loopbacks.SendContinuously` | AFC-ControlAppC/utils.c:563-575 | performs the start of a continuous sender, a descriptor leaked on a failed device binding included |
| `LoopbackObject.Loopbacks.SendOneIcmp` | AFC-ControlAppC/utils.c:404-449 | counts one packet, and one answer if it is an echo reply, and always re-arms |
| `LoopbackObject.Loopbacks.SendOneUdp` | AFC-ControlAppC/utils.c:451-481 | counts one packet, and one answer if there is one, and re-arms if answered or below 1000 packets |
| `LoopbackObject.Loopbacks.StopLoopbackData` | AFC-ControlAppC/utils.c:494-506 | performs the stop of the machine and reports both counters, or 0 without a sender |
| `LoopbackObject.Loopbacks.CallHandler` | AFC-ControlAppC/utils.c:483-491 | a fired timer reaches the handler the machine prescribes |
| `Checksum.ComputeIcmpChecksum` | AFC-ControlAppC/utils.c:378-391 | the loop computes the one's complement sum of the words in host order, folded and complemented |
| `Checksum.SetupIcmpHdr` | AFC-ControlAppC/utils.c:393-402 | the message becomes the echo packet whose checksum field was computed over a zero field, payload kept |
| `Checksum.EchoLayout` | AFC-ControlAppC/utils.c:393-402 | type, code, checksum, identifier and sequence number stand in this order, the numbers in host order, then the payload |
| `Checksum.TwoFolds` | AFC-ControlAppC/utils.c:388-389 | below 2^32 two folds give at most 65535, congruent to the sum modulo 65535, zero only for zero |
| `Checksum.SumFits` | AFC-ControlAppC/utils.c:380-387 | up to 131074 bytes the sum stays below 2^32 |
| `Checksum.RecomputedChecksumIsZero` | AFC-ControlAppC/utils.c:378-402 | after setup the checksum of the whole packet is zero, for every size from 8 to 131074, odd sizes included, in either byte order |
| `Checksum.ByteOrderIndependence` | AFC-ControlAppC/utils.c:378-391 | exchanging the bytes of every word exchanges the bytes of the checksum (section 2 of RFC 1071) |
| `Checksum.OtherHostAgrees` | AFC-ControlAppC/utils.c:378-391 | a host of the other byte order reads the same verdict from the same bytes |
| `Checksum.OddLengthIsPadded` | AFC-ControlAppC/utils.c:386-387 | an odd packet is summed as if zero-padded if and only if the host is little-endian or the last byte is zero |
| `Checksum.OddPacketDiffers` | AFC-ControlAppC/utils.c:386-387 | a one-byte packet whose checksum on a big-endian host differs from that of the padded packet |
| `KeyValue.StrstrIsFirst` | AFC-ControlAppC/utils.c:1493 | the substring search returns the first occurrence, and none only if there is none |
| `KeyValue.GetKeyValue` | AFC-ControlAppC/utils.c:1483-1514 | the buffer receives the value of the key; an absent key returns -1 and leaves the buffer as it was; a zero-filled buffer reads back exactly the value |
| `KeyValue.LookupPicksLine` | AFC-ControlAppC/utils.c:1491-1511 | on any text the value is the rest of the first later line that starts with the key, or else of the first line |
| `KeyValue.LineMatches` | AFC-ControlAppC/utils.c:1492-1498 | a line is taken if and only if its key is the token: never a longer key, never text inside a value |
| `KeyValue.LookupUndoesRender` | AFC-ControlAppC/utils.c:1483-1514 | looking up undoes rendering: a present key yields its value, an absent one nothing |
| `Codec.EncodeLength` | AFC-ControlAppC/indigo_packet.c:272-291 | a packet has 7 + sum(3 + len) bytes |
| `Codec.TlvsRoundTrip` | AFC-ControlAppC/indigo_packet.c:49-65 | parsing printed TLVs gives them back; one or two trailing bytes change nothing |
| `Codec.TlvsRoundTripBack` | AFC-ControlAppC/indigo_packet.c:232-247 | printing what was parsed gives back the bytes |
| `Codec.ParseUndoesEncode` | AFC-ControlAppC/indigo_packet.c:29-85 | parse_packet of an assembled message gives back the message, with or without stray bytes |
| `Codec.EncodeUndoesParse` | AFC-ControlAppC/indigo_packet.c:272-291 | assembling a parsed packet gives back its bytes, less the stray ones |
| `Codec.AcceptedPackets` | AFC-ControlAppC/indigo_packet.c:29-85 | accepted are exactly the encodings of messages with known ids, followed by at most two bytes |
| `Codec.EncodeInjective` | AFC-ControlAppC/indigo_packet.c:272-291 | different messages have different bytes |
| `Codec.PyEncode` | AFC-ControlAppC/test.py:7-37 | the test tool's separately written encoder produces the same bytes |
| `PacketWrapper.Wrapper.Parse` | AFC-ControlAppC/indigo_packet.c:29-85 | the wrapper carries the parsed message, holds every block allocated, and at most one uncounted leftover slot |
| `PacketWrapper.Wrapper.ParseTlvs` | AFC-ControlAppC/indigo_packet.c:49-65 | the loop fills the slots with the TLVs of the packet and counts them |
| `PacketWrapper.Wrapper.ParseTlv` | AFC-ControlAppC/indigo_packet.c:219-230 | one TLV is read into a fresh slot; fewer than three bytes fail and leave the slot allocated |
| `PacketWrapper.Wrapper.CheckIds` | AFC-ControlAppC/indigo_packet.c:67-85 | the result is 0 if and only if the API and all TLV ids are known |
| `PacketWrapper.Wrapper.FindTlvById` | AFC-ControlAppC/indigo_packet.c:114-126 | finds the first TLV of the request with this id; only id 0 may hit the leftover slot |
| `PacketWrapper.Wrapper.Free` | AFC-ControlAppC/indigo_packet.c:129-143 | every block held in any slot, counted or not, is freed once, and the wrapper is zero |
| `PacketWrapper.Wrapper.FillTlv` | AFC-ControlAppC/indigo_api.c:401-418 | one TLV is appended in fresh blocks, nothing else changes |
| `PacketWrapper.Wrapper.FillAck` | AFC-ControlAppC/indigo_api.c:357-376 | the wrapper carries the acknowledgement; blocks formerly in slots 0 and 1 are lost |
| `PacketWrapper.Wrapper.Assemble` | AFC-ControlAppC/indigo_packet.c:272-291 | the buffer starts with the encoding of the carried message and its length is returned |
| `PacketWrapper.GenMessageHdr` | AFC-ControlAppC/indigo_packet.c:161-177 | writes the seven header bytes |
| `PacketWrapper.GenTlv` | AFC-ControlAppC/indigo_packet.c:233-247 | writes one TLV behind what is there, or returns -1 and writes nothing if it does not fit |
| `PacketWrapper.GetApiById` | AFC-ControlAppC/indigo_api.c:331-339 | the first entry of this type, none if and only if there is none |
| `PacketWrapper.GetTlvById` | AFC-ControlAppC/indigo_api.c:342-351 | the first entry with this id, none if and only if there is none |
| `Protocol.ControlReceiveMessage` | AFC-ControlAppC/main.c:85-161 | exactly the prescribed datagrams are sent, and the heap is back to what it was if and only if no verify callback filled the response |
| `Protocol.Answer` | AFC-ControlAppC/main.c:119-154 | the branch for an unknown API is dead once the packet parsed; the answers are the prescribed ones |
| `Protocol.Acknowledge` | AFC-ControlAppC/main.c:131-144 | one ACK or NACK with the request's sequence number, by the outcome of verification |
| `Protocol.Respond` | AFC-ControlAppC/main.c:146-154 | a response if and only if the handler returns 0 |
| `Protocol.CleanUp` | AFC-ControlAppC/main.c:156-159 | both wrappers give back all their blocks |
| `Protocol.Serve` | AFC-ControlAppC/main.c:85-161 | over any run the datagrams are the prescribed conversation, and no block is lost if and only if no request lets a verify callback fill the response |
| `Protocol.WithoutVerifyLossless` | AFC-ControlAppC/indigo_api_callback_dut.c:38-43 | while every API is registered without a verify callback no run loses a block |
| `Protocol.RepliesShape` | AFC-ControlAppC/main.c:104-154 | one datagram yields nothing, [NACK], [ACK] or [ACK, RESPONSE] |
| `Protocol.ConversationGrammar` | AFC-ControlAppC/main.c:85-161 | over any run each received datagram gets exactly one ACK or NACK, and each response stands directly behind a positive ACK |
| `Protocol.AnswerOnTheWire` | AFC-ControlAppC/main.c:107-151 | the first answer's bytes parse as an ACK with the request's sequence number (0 without a whole header); status and text are 0x31 if the request does not parse, 1 if it is not verified, 0x30 otherwise; a response follows if and only if, besides, the handler returns 0 |
| `Interfaces.ParseBssIdentifier` | AFC-ControlAppC/utils.c:1263-1269 | every integer is its four fields at bits 0-3, 4-7, 8 and 9, plus a multiple of 1024 |
| `Interfaces.BssIdentifierRoundTrip` | AFC-ControlAppC/utils.c:1263-1269 | each combination of fields is carried by exactly one 10-bit value |
| `Interfaces.AssignInv` | AFC-ControlAppC/utils.c:963-983 | assigning keeps the counters exact, the used interfaces of a band a prefix, and hapd_bss_id each one's rank |
| `Interfaces.AssignAsAsked` | AFC-ControlAppC/utils.c:963-983 | the band's first free interface gets the BSS, its flags and its own configuration path, keeps band and name, and nothing else in the table changes; a full band changes nothing |
| `Interfaces.ClearInv` | AFC-ControlAppC/utils.c:1271-1283 | clearing establishes the same facts |
| `Interfaces.ClearAsAsked` | AFC-ControlAppC/utils.c:1271-1283 | every interface is released and keeps band, name and everything else |
| `Interfaces.AssignUnique` | AFC-ControlAppC/utils.c:963-983 | assigning keeps one interface per BSS if and only if the BSS had none or the band is full |
| `Interfaces.FindAfterAssign` | AFC-ControlAppC/utils.c:985-997 | after a failed lookup and an assignment, the lookup returns the assigned interface |
| `Interfaces.FindUntilClear` | AFC-ControlAppC/utils.c:963-997 | so does every later lookup, whatever is assigned in between, until the next clear |
| `Interfaces.RunInv` | AFC-ControlAppC/utils.c:963-997 | counters, prefixes and ranks are right after every sequence of operations; with lookup before assignment no BSS gets two interfaces |
| `Interfaces.InterfaceTable.AssignInterface` | AFC-ControlAppC/utils.c:963-983 | the loop takes the first free interface of the band, or returns none and changes nothing |
| `Interfaces.InterfaceTable.GetInterface` | AFC-ControlAppC/utils.c:985-997 | the loop returns the first interface serving the BSS |
| `Interfaces.InterfaceTable.ClearResource` | AFC-ControlAppC/utils.c:1271-1283 | every interface is released and every counter zero |
| `ApFiles.FilesStep` | AFC-ControlAppC/indigo_api_callback_dut.c:820-837 | all that a request does to the files: it starts its band's file, extends it, or changes nothing because a non-transmitting BSS strays or the band's file has no name any more |
| `ApFiles.DecodedBss` | AFC-ControlAppC/indigo_api_callback_dut.c:770-806 | a request with an identifier is about the BSS in its bits; with a mode only, about number 1 on band 2 for HE_6G_ONLY, 1 for a mode that starts with a, 0 otherwise |
| `ApFiles.ChooseAsAsked` | AFC-ControlAppC/indigo_api_callback_dut.c:776-780 | a named BSS that has an interface keeps the first one and nothing is assigned; any other request takes the first free interface of its band |
| `ApFiles.OweServed` | AFC-ControlAppC/indigo_api_callback_dut.c:558-575 | after a request each BSS that an OWE transition TLV names has an interface, or its band is full |
| `ApFiles.SectionLines` | AFC-ControlAppC/indigo_api_callback_dut.c:317-324 | the lines of a section: bss=, ctrl_interface= if it continues a file, ctrl_interface=, ctrl_interface_group=, interface= otherwise, then the body's |
| `ApFiles.TextStep` | AFC-ControlAppC/indigo_api_callback_dut.c:317-326 | a section starts with the interface= lines if and only if it opens its band as something other than a non-transmitting BSS, and with the bss= lines otherwise |
| `ApFiles.OpensBand` | AFC-ControlAppC/indigo_api_callback_dut.c:834-842 | the first section of a band starts a complete file, unless its BSS is non-transmitting |
| `ApFiles.ContinuesBand` | AFC-ControlAppC/indigo_api_callback_dut.c:822-833 | a later section leaves the band's file complete if and only if it was complete, the BSS does not stray and is not the one that leads the band; a lost text or path is never made good |
| `ApFiles.FileRuleIsExact` | AFC-ControlAppC/indigo_api_callback_dut.c:822-843 | a request, repeated or not, leaves its band's file complete and named by the first BSS if and only if it was so, the BSS, if non-transmitting, stands behind the one transmitter that leads the band, and it does not configure the leading BSS again |
| `ApFiles.OtherBands` | AFC-ControlAppC/indigo_api_callback_dut.c:819-842 | without a clash of first names a request changes nothing for any other band |
| `ApFiles.NameRuleIsExact` | AFC-ControlAppC/indigo_api_callback_dut.c:834-836 | a request leaves another band's complete file complete if and only if it does not open its band under that file's name, or writes just what the file holds |
| `ApFiles.ConfigureInv` | AFC-ControlAppC/indigo_api_callback_dut.c:757-843 | a request without such a clash keeps table, pointers and paths in step with what was configured, whatever the transmitters and the repeats |
| `ApFiles.RunInv` | AFC-ControlAppC/indigo_api_callback_dut.c:757-843 | so does every run of them |
| `ApFiles.RunCompleteExactly` | AFC-ControlAppC/indigo_api_callback_dut.c:757-843 | over such a run a band's file stays complete if and only if no non-transmitting BSS of the band strays and its leading BSS is not configured again; the first request that does either loses it for good |
| `ApFiles.FilesAfterRun` | AFC-ControlAppC/indigo_api_callback_dut.c:757-843 | from a reset, exactly then each used band has one file: all its texts in order, those of repeated requests included, the first with interface=, the later ones with bss=, and every other BSS has an empty path |
| `ApFiles.FileLinesAfterRun` | AFC-ControlAppC/indigo_api_callback_dut.c:757-843 | then, for bodies of whole lines that do not repeat the head and names without a newline, the file named after the band's first interface has exactly one interface= line, with that name, the bss= lines of the later sections with their names in order, and one control line per section |
| `ApFiles.StrayLosesText` | AFC-ControlAppC/indigo_api_callback_dut.c:823-828 | a non-transmitting BSS configured first leaves no file at all |
| `ApFiles.RepeatLosesPath` | AFC-ControlAppC/indigo_api_callback_dut.c:830-833 | one BSS configured twice: the file holds both texts, and no interface names it any more |
| `ApFiles.SharedNameLosesText` | AFC-ControlAppC/vendor_specific.h:54 | with one name on two bands, as in the shipped default, the second request erases the first one's text |
| `ApFiles.Configurator.FileSection` | AFC-ControlAppC/indigo_api_callback_dut.c:820-842 | the branches write, append or drop the text and clear the path as the value model prescribes |
| `ApFiles.Configurator.SectionHead` | AFC-ControlAppC/indigo_api_callback_dut.c:317-326 | bss= if and only if the BSS is non-transmitting or the band already has its first BSS |
| `ApFiles.Configurator.ConfigureBss` | AFC-ControlAppC/indigo_api_callback_dut.c:777-843 | with its BSS known, the handler refines the value model and succeeds if and only if an interface is found or free |
| `ApFiles.Configurator.ConfigureAp` | AFC-ControlAppC/indigo_api_callback_dut.c:757-851 | the BSS comes from the identifier, or is number 1 on the band of HW_MODE and HE_6G_ONLY; without either nothing changes and the status is NOT_OK |
| `HostapdTail.ScanTlvs` | AFC-ControlAppC/indigo_api_callback_dut.c:336-592 | the loop leaves the flags of a left-to-right scan |
| `HostapdTail.NoteCommutes` | AFC-ControlAppC/indigo_api_callback_dut.c:336-592 | two TLVs with different ids may be scanned in either order unless they are disagreeing width TLVs |
| `HostapdTail.ScanPermutes` | AFC-ControlAppC/indigo_api_callback_dut.c:336-592 | without a width conflict every permutation leaves the same flags |
| `HostapdTail.TailIgnoresOrder` | AFC-ControlAppC/indigo_api_callback_dut.c:594-753 | then all text appended behind the loop is the same for every order of the TLVs |
| `HostapdTail.FlagsOrderExactly` | AFC-ControlAppC/indigo_api_callback_dut.c:489-504 | all orders leave the same flags if and only if the HE and VHT widths do not disagree |
| `HostapdTail.OthersIgnoreOrder` | AFC-ControlAppC/indigo_api_callback_dut.c:336-592 | the flags other than the width never depend on order |
| `HostapdTail.OrderMattersExactly` | AFC-ControlAppC/indigo_api_callback_dut.c:594-753 | for each channel table, all orders print the same appended text if and only if the widths do not disagree, or neither 11ac nor 11ax is on, or the text cannot tell their values apart: in the 6 GHz band they give the same operating class and centre, and otherwise the band is not 5 GHz, the channel has no HT40 side, neither is above 0, or they agree in being above 0, in being 160 MHz and in centre |
| `HostapdTail.NoSideNoOrder` | AFC-ControlAppC/indigo_api_callback_dut.c:669-675 | outside 6 GHz, on a channel without an HT40 side, every order prints the same appended text |
| `HostapdTail.OrderChangesText` | AFC-ControlAppC/indigo_api_callback_dut.c:489-504 | two orders of one request on channel 36 that print different text |
| `HostapdTail.AtoiUndoesDec` | AFC-ControlAppC/indigo_api_callback_dut.c:489-492 | atoi reads back every number that %d prints |
| `HostapdTail.LinesOfTail` | AFC-ControlAppC/indigo_api_callback_dut.c:594-753 | the appended text splits into the lines of its settings |
| `HostapdLines.KeyMgmtFlags` | AFC-ControlAppC/indigo_api_callback_dut.c:463-474 | the SAE, OWE and transition flags are set if and only if some listed key management TLV names SAE, OWE, or SAE and WPA-PSK |
| `HostapdLines.SecurityFlags` | AFC-ControlAppC/indigo_api_callback_dut.c:475-487 | so are those of WPA2, IEEE80211_W and SAE_GROUPS by their TLVs |
| `HostapdLines.FeatureFlags` | AFC-ControlAppC/indigo_api_callback_dut.c:505-592 | so are those of 11ax, 11ac, Hotspot 2.0, MU EDCA, WPS, BSS identifier and 6 GHz by theirs |
| `HostapdLines.WidthsGiven` | AFC-ControlAppC/indigo_api_callback_dut.c:489-504 | so are the two that say a width was given |
| `HostapdLines.WidthNumber` | AFC-ControlAppC/indigo_api_callback_dut.c:489-504 | the width is the number of the last width TLV, 1 without one |
| `HostapdLines.RadioFlags` | AFC-ControlAppC/indigo_api_callback_dut.c:340-345 | channel, cadence and mode are those of the last TLV that gives them |
| `HostapdLines.NamesDiffer` | AFC-ControlAppC/indigo_api_callback_dut.c:594-753 | different settings have different names, so the lines of one name are the settings of one key |
| `HostapdLines.PmfLine` | AFC-ControlAppC/indigo_api_callback_dut.c:608-618 | the ieee80211w line: none if the request gives one; 1 for SAE with WPA-PSK in one TLV; 2 for SAE with WPA2, or for OWE; 1 for WPA2 alone |
| `HostapdLines.WpsLine` | AFC-ControlAppC/indigo_api_callback_dut.c:595-606 | the wps_rf_bands line: ag if the request names a BSS, else the first letter of the mode if it is a or g; none unless WPS is enabled |
| `HostapdLines.MfpLine` | AFC-ControlAppC/indigo_api_callback_dut.c:620-622 | sae_require_mfp=1 if and only if some key management TLV names SAE |
| `HostapdLines.GroupsLine` | AFC-ControlAppC/indigo_api_callback_dut.c:639-641 | the default sae_groups line if and only if so and the request gives no groups |
| `HostapdLines.TransmitterLine` | AFC-ControlAppC/indigo_api_callback_dut.c:625-627 | multiple_bssid=1 if and only if the interface is a transmitter |
| `HostapdLines.ClassLine` | AFC-ControlAppC/indigo_api_callback_dut.c:653-656 | op_class 133 for width 1, 134 for width 2, in the 6 GHz band only |
| `HostapdLines.HeWidthLine` | AFC-ControlAppC/indigo_api_callback_dut.c:649-704 | the HE width unless the request gives it, in the 6 GHz band, or with 11ax for a width above 0 on a 5 GHz channel with an HT40 side |
| `HostapdLines.HeCentreLine` | AFC-ControlAppC/indigo_api_callback_dut.c:657-707 | the HE centre then, by the table of the band |
| `HostapdLines.VhtWidthLine` | AFC-ControlAppC/indigo_api_callback_dut.c:686-690 | the VHT width unless the request gives it, with 11ac for such a 5 GHz channel only |
| `HostapdLines.VhtCentreLine` | AFC-ControlAppC/indigo_api_callback_dut.c:691-692 | the VHT centre then |
| `HostapdLines.VhtCapabLine` | AFC-ControlAppC/indigo_api_callback_dut.c:694-696 | vht_capab=[VHT160] then, for width 2 |
| `HostapdLines.SideLine` | AFC-ControlAppC/indigo_api_callback_dut.c:670-675 | the HT40 side of the channel, in the 5 GHz band whatever the width |
| `HostapdLines.RegulatoryLine` | AFC-ControlAppC/indigo_api_callback_dut.c:667-681 | ieee80211d=1 in the 6 GHz band and for width 2 on such a 5 GHz channel |
| `HostapdLines.CountryLine` | AFC-ControlAppC/indigo_api_callback_dut.c:668-682 | country_code=US likewise |
| `HostapdLines.DfsLine` | AFC-ControlAppC/indigo_api_callback_dut.c:683 | ieee80211h=1 for width 2 on such a 5 GHz channel only |
| `HostapdLines.CadenceLine` | AFC-ControlAppC/indigo_api_callback_dut.c:659-661 | the probe response interval the request gives, in the 6 GHz band |
| `HostapdLines.FilsLine` | AFC-ControlAppC/indigo_api_callback_dut.c:662-664 | the FILS discovery interval there if it gives none, or 0 |
| `HostapdLines.ColourLine` | AFC-ControlAppC/indigo_api_callback_dut.c:666 | he_bss_color=19 in the 6 GHz band only |
| `HostapdLines.FeatureLines` | AFC-ControlAppC/indigo_api_callback_dut.c:712-748 | the text ends with the MU EDCA settings and the five Hotspot 2.0 lines, each group if and only if its TLV asks for it |
| `HostapdTail.LastWidthWins` | AFC-ControlAppC/indigo_api_callback_dut.c:489-504 | of two width TLVs the last one decides the width |
| `StaConfig.FindConfig` | AFC-ControlAppC/indigo_api_callback.h:187-222 | the search returns the first entry with the id, if any |
| `StaConfig.GenerateWpasConfig` | AFC-ControlAppC/indigo_api_callback_dut.c:1850-1949 | the two loops write the header, the global lines, the network block with its lines and default, and the closing brace |
| `StaConfig.LineInSection` | AFC-ControlAppC/indigo_api_callback_dut.c:1863-1918 | each mapped TLV has its line, in front of network={ if global and inside the block otherwise |
| `StaConfig.GlobalLineSays` | AFC-ControlAppC/indigo_api_callback_dut.c:1863-1871 | the line of a TLV with a global entry is the first such entry's name, =, the value |
| `StaConfig.NetworkLineSays` | AFC-ControlAppC/indigo_api_callback_dut.c:1881-1916 | the line of any other mapped TLV is the entry's name, =, the value, in quotes if and only if the entry says so; the CA bundle replaces DEFAULT and the hash a server certificate |
| `StaConfig.FixedLines` | AFC-ControlAppC/indigo_api_callback_dut.c:1861-1945 | three fixed lines at the head, network={ behind the global lines, } at the end |
| `StaConfig.PacIsLast` | AFC-ControlAppC/indigo_api_callback_dut.c:1902-1904 | pac_file_path is the value of the last PAC_FILE TLV, or what it was |
| `StaConfig.OrderKept` | AFC-ControlAppC/indigo_api_callback_dut.c:1863-1918 | the lines of a section keep the request's order and no two TLVs share a line |
| `StaConfig.NoOtherLines` | AFC-ControlAppC/indigo_api_callback_dut.c:1861-1945 | every other line is fixed text or the default: unmapped TLVs give none |
| `StaConfig.PmfDefault` | AFC-ControlAppC/indigo_api_callback_dut.c:1920-1928 | behind the network lines of the written configuration stand the closing brace and, if and only if none was given and key management names SAE or OWE, a default ieee80211w line in front of it; it is 1 if and only if SAE stands with WPA-PSK |

## Left out

- Sockets, select, gettimeofday, system, popen, files and logging: their results are parameters; files are a map from path to text.
- A select that fails with an error other than EINTR ends the loop early; runs of every length are covered, the error path itself is not.
- Integer widths of counters: `signaled`, the packet counters and `tv_sec` are unbounded; the C code does not bound them either.
- Signals registered while the loop runs: the table is fixed, as in the application's start-up.
- Handler bodies other than those named: a handler is represented by the calls it makes to the loop, and by the response it fills.
- `find_wpas_global_config_name`, `find_tlv_config`, the id lists, hs2 profiles, WPS settings and channel tables: kept abstract, looked up by first match.
- The lines that `generate_hostapd_config` writes inside its TLV loop: only the head and the appended defaults are modelled, the rest is an arbitrary text.
- `HostapdTail.ScanTlvs`: TLV values are C text; a value that is not terminated inside its block is read past its end by strstr, which is outside the model.
- Sizes of the text buffers in the generators, and of the copy buffers for single values.
- `PacketWrapper.Wrapper.Assemble`: requires that the message fits; on overflow the C code adds the -1 of gen_tlv to the length and goes on.
- `register_api`: stores the two callbacks of an API in its table entry at start-up; a request meets them as parameters, so the table's contents matter to no theorem.
- Single, counted send loops of send_udp_data and send_icmp_data: only the continuous case is modelled.
- The P2P, DHCP, WPS, sniffer, PPSMO and vendor handlers, and indigo_api_callback_tp.c, a variant of the generators modelled here.
- The MBSSID workaround with use_openwrt_wpad and the OpenWRT builds.
- AFCBaseScript.py and the test scripts: orchestration over libraries that are not part of the repository.
