# kthxvm: a model of the device side, with proofs

This project models the parts of kthxvm in which a mistake corrupts guest data or hangs the guest, and proves what they
guarantee. `dafny verify dfyconfig.toml` checks everything.

## The virtio core

* `Rings` is one split virtqueue as the device decodes it, with the operations of `class queue` as functions.
* `VirtioSystem` is the protocol as a step system: any number of queues whose device threads share one interrupt line,
  and a guest driver (publish, take the interrupt, acknowledge, reap, find nothing more, write `used_event`, look again).
  A step is one critical section or one memory access of the source, except that a ring entry and the index that makes
  it visible count as one; the steps of different parties interleave freely; memory is sequentially consistent. Each
  queue has one device thread (the entropy device, which runs on whichever vCPU exits, is taken to be serialised).
  Whether the driver writes `used_event` and whether it looks again after that is part of the configuration: VIRTIO 1.1
  lets it write `used_event` only after EVENT_IDX was negotiated. `Schedules` puts particular runs together, `Progress`
  proves liveness, `LostWakeups` the converse of the wake-up guarantee.
* `Queues`, `Chains`, `Blk`, `Net` and `Rng` work on the bytes of guest memory and of the disk, as arrays updated in
  place by the loops of the source. Each method is proved equal to a function on byte sequences, about which the lemmas
  speak. `DeviceRuns` closes the circle: a turn of a device on bytes is a run of the step system.
* `Drivers`, `BlkRequests` and `NetRequests` add the driver's side, from the bytes it writes to the bytes it gets back.
  `BlkTransfer` serves a request access by access. `BlkRuns` puts both sides on one memory: any number of block requests
  outstanding, the driver writing memory, issuing and reaping between any two accesses of the device, the queue side of
  every step being a step of `VirtioSystem`. `BringUp` leads there from power-on, by register writes.
* `Interrupts` and `Mmio` are the interrupt line, the register file and the configuration space.
* `ByteLayout`, `BlkFormat`, `Reports` and `RegisterMap` say the same in numbers: at which byte of guest memory, which
  sector of the disk and at which register offset everything is found, without going through the model's own address
  functions and constants. `MpFormat`, `BootFormat` and `UartRegisters` do so for the secondary parts.

Secondary parts: `MpTable`, `MemoryLayout`, `PageTables`, `Elf`, `Uart` and `IoDispatch`. `Words`, `Bits` and
`GuestMemory` hold fixed-width numbers, bitwise or, little-endian words and `memcpy`.

## What the proofs found

Where the code does less than its interface promises, the model keeps the code, and an if-and-only-if says when the
promise holds.

* `next()` compares a 16-bit index with a 32-bit counter. Order, exactly-once completion and wake-ups hold over runs of
  any length, but a queue never serves chain number 65536 or later: everything published is served exactly if fewer
  than 2^16 chains were published (`RestMeansDone`, `LastChainStuck`, `StalledForever`).
* The device looks for `used_event` behind 512 ring entries, and the block device interrupts only there. No wake-up is
  lost, and the guest cannot hang with an unread completion, exactly if for every such queue the driver writes
  `used_event` and looks at the used index once more after that, and the queue has 512 entries (`WakeupsArriveIff`,
  `HangsIff`).
* Feature bits from 24 on are not shown to the driver, among them EVENT_IDX. A driver that writes `used_event` only
  after it was shown EVENT_IDX can therefore hang on the block device, whatever the queue size
  (`EventIdxNotShown`, `ConformingDriverHangs`).
* Taken by itself the notification test misses the step of the used index from 65535 to 0 (`NotificationTestIff`), and
  taken by itself `add_used` loses completions after 2^16 of them if `size` does not divide 2^16 (`LatestKeptIff`).
  Neither happens in a run: the stall of `next()` comes first, so the index never wraps and the test is the standard's
  without exception (`NotificationTestReached`, `LatestKept`).
* Queue address registers accumulate: they show the address written last exactly if no earlier value had a bit outside
  it (`AddressIsLastIff`); moving an address from 0x1000 to 0x2000 gives 0x3000 (`StaleAddressBit`).
* QUEUE_READY becomes set by any write. A queue is as ready as last written exactly if that was 1 (`ReadyIsLastIff`).
  A device reset clears a queue exactly if there was nothing to clear (`ResetClearsIff`). A queue that was made ready,
  withdrawn and reset is still ready (`WithdrawnQueueStaysReady`).
* The MP table reads back exactly up to 3272 CPUs, its APIC ids are distinct exactly up to 254, and an operating system
  that searches for it finds it exactly up to 46 (`MpTableReadsBack`, `ApicIdsDistinctIff`, `FloatingPointerFoundIff`).
* A write to the UART's low divisor byte is also transmitted, so the terminal shows what was transmitted exactly if that
  byte is never set outside loopback (`OutputIsTransmittedIff`, `DivisorIsTransmitted`).
* A write to offset 1 of the UART sets the high divisor byte and the interrupt enable register alike. The interrupts
  enabled are those the driver asked for exactly if the last write to offset 1 did not set the divisor to something with
  other low bits; setting a divisor below 256 disables them (`EnabledAsAskedIff`, `DivisorDisablesInterrupts`).
* The ELF loader clears nothing behind a segment's file image. It loads as specified exactly if each such address is 0
  in the last file image that covers it, or in memory beforehand; for segments that do not overlap, exactly if memory is
  0 there, which holds in the fresh mapping the monitor loads into (`LoadsAsSpecifiedIff`, `SeparateLoadIff`). An image
  with overlapping segments that is not loaded as specified is given in `TailIsNotCleared`.

## Model

| member | source | states |
|---|---|---|
| VirtioSystem.InOrderExactlyOnce | src/kvm/virtio/queue.h:65-97 | over every run, of any length, with any interleaving: the ids reported are the published heads in order, each once, less dropped requests; the device is at most one chain ahead; the driver reads exactly what was reported; no unread used slot is overwritten |
| VirtioSystem.WakeupsArrive | src/kvm/virtio/blk.h:141-145 | if for every queue using `used_event` the driver writes it, looks once more after that, and both sides agree where it is, no reachable state has an idle driver with unread completions, outside the add-and-notify window, without a high line and an unconsumed eventfd signal; completions may fall between the driver's looking and its writing; for any number of queues sharing the line |
| LostWakeups.WakeupsArriveIff | src/kvm/virtio/queue.h:26-31 | that guarantee holds over all runs of a configuration exactly if for every queue using `used_event` the driver writes it and looks once more, and the queue has 512 entries |
| LostWakeups.WakeupLost | src/kvm/virtio/blk.h:143-145 | otherwise, for any set of other queues, a run that loses a wake-up and leaves the guest hanging: an unread completion and no step possible |
| LostWakeups.HastyDriverHangs | src/kvm/virtio/blk.h:141-145 | in particular for a driver that does not look again: the completion falls between its last look and its write of `used_event` |
| LostWakeups.HangsIff | src/kvm/virtio/blk.h:141-145 | the guest can hang with an unread completion exactly if that condition fails |
| LostWakeups.ConformingDriverHangs | src/kvm/virtio/mmio.h:61-67 | with a driver that writes `used_event` only if it was shown EVENT_IDX, the block device has such a run, for every queue size |
| VirtioSystem.RestMeansDone | src/kvm/virtio/queue.h:69-81 | at rest everything published has been served exactly if fewer than 2^16 chains were published, and every completion has been read if wake-ups are not lost |
| Progress.RunsAreFinite | src/kvm/virtio/blk.h:81-147 | under every schedule, a run without publications is no longer than a computed amount of work and two steps for each put-back |
| Progress.ComesToRest | src/kvm/virtio/blk.h:81-147 | from every state serving alone leads to rest: no deadlock |
| Progress.EverythingGetsDone | src/kvm/virtio/net.h:107-182 | after any run, every continuation without publishing is that short; when no step is left, below 2^16 all chains are served, and all completions are read if wake-ups are not lost |
| Progress.LastChainStuck | src/kvm/virtio/queue.h:76-79 | in every configuration and for each queue, a run that publishes 2^16 chains and rests with the last one unserved |
| VirtioSystem.StalledForever | src/kvm/virtio/queue.h:76-78 | after 2^16 publications no continuation takes another chain |
| VirtioSystem.FewerThanWrap | src/kvm/virtio/queue.h:76-79 | no queue ever serves 2^16 chains |
| VirtioSystem.NotificationTestReached | src/kvm/virtio/blk.h:141-145 | in every state of every run the used index is the number of completions and the notification test is `vring_need_event`, without exception |
| VirtioSystem.OpKeepsRing | src/kvm/virtio/queue.h:65-97 | every step keeps the counters, the window of published slots, the window of unread completions and the history in agreement |
| VirtioSystem.OpKeepsQueueWake | src/kvm/interrupt.h:20-33 | every step keeps a queue armed at what the driver has seen, and keeps an interrupt pending or coming while the handler has looked at it for the last time and completions are unread |
| VirtioSystem.HandlerKeepsWake | src/kvm/virtio/mmio.h:181-185 | taking, acknowledging, finding nothing more and looking again keep it: a queue is left only with nothing unread after arming, or if every completion interrupts |
| Rings.LatestKeptIff | src/kvm/virtio/queue.h:88-97 | slot `k % size` holds completion k for each of the last `size` completions, over sequences of every length, exactly if `size` divides 2^16 |
| Rings.LatestKept | src/kvm/virtio/queue.h:88-97 | up to 2^16 completions it does so for every `size` |
| Rings.UsedIdxCounts | src/kvm/virtio/queue.h:94-96 | the used index is the number of completions modulo 2^16 |
| Rings.NotificationTestIff | src/kvm/virtio/blk.h:141-145 | the test is `vring_need_event` of section 2.6.7.2 except for used index 0 with `used_event` 65535 |
| Rings.CompletionInterruptsIff | src/kvm/virtio/blk.h:141-145 | with `used_event` armed ahead, of the next 2^16 completions exactly the armed one interrupts, the wrapping one excepted |
| Rings.PopIff | src/kvm/virtio/queue.h:76-78 | with fewer than 2^16 chains waiting, `next()` hands one out exactly while fewer than 2^16 were ever published |
| Rings.PopThenPopBack | src/kvm/virtio/queue.h:83-86 | `next()` then `pop_back()` changes nothing |
| Queues.Queue.AvailId | src/kvm/virtio/queue.h:65-67 | reads the head of the chain taken last from guest memory |
| Queues.Queue.Next | src/kvm/virtio/queue.h:69-81 | on guest memory: not ready or nothing new gives nothing; otherwise the next head, and only `last_avail` advances |
| Queues.Queue.PopBack | src/kvm/virtio/queue.h:83-86 | is `Ring.PopBack` on the decoded ring |
| Queues.Queue.AddUsed | src/kvm/virtio/queue.h:88-97 | writes one element and the index, nothing else; is `Ring.AddUsed` on the decoded ring; returns the new index |
| Queues.AddUsedRefines | src/kvm/virtio/queue.h:88-97 | the bytes written decode to `Ring.AddUsed`, every other element and the available ring as before |
| Queues.AddUsedChanges | src/kvm/virtio/queue.h:88-97 | no byte outside the index and the slot changes |
| Queues.PublishRefines | src/kvm/virtio/queue.h:26-31 | the driver's bytes for a new chain decode to `Ring.Publish` |
| Queues.ArmRefines | src/kvm/virtio/queue.h:26-31 | the driver's `used_event` reaches the device's field exactly for 512 entries, else an unused ring entry |
| ByteLayout.WordBytes | src/kvm/virtio/queue.h:15-43 | a 32-bit field is its four bytes, least significant first |
| ByteLayout.DoubleWordBytes | src/kvm/virtio/queue.h:15-43 | a 64-bit field is its two words, the lower one first |
| ByteLayout.DescriptorLayout | src/kvm/virtio/queue.h:15-24 | descriptor i lies 16 * i bytes into the table: address at 0, length at 8, flags at 12, next at 14; NEXT is bit 0 |
| ByteLayout.RingLayout | src/kvm/virtio/queue.h:26-43 | the ring a device sees is at literal places: available index at 2 and entries from 4 on, 2 bytes each, `used_event` at 1028; used index at 2 and elements from 4 on, 8 bytes each, id before length |
| ByteLayout.NextLayout | src/kvm/virtio/queue.h:65-81 | a chain waits exactly while the counter is below the index at 2; the head is the entry at 4 + 2 * (counter modulo size), and the counter advances by one |
| ByteLayout.CompletionLayout | src/kvm/virtio/queue.h:88-97 | with k the old index modulo size, `add_used` puts id and length at 4 + 8 * k and 8 + 8 * k, the index plus one at 2, and changes no other byte |
| ByteLayout.PublicationLayout | src/kvm/virtio/queue.h:26-31 | the driver's k-th chain: its head at 4 + 2 * (k modulo 2^16 modulo size), k + 1 modulo 2^16 at 2 |
| ByteLayout.ArmingLayout | src/kvm/virtio/queue.h:26-31 | the driver's `used_event` lies at 4 + 2 * size |
| Chains.WalkEndsIff | src/kvm/virtio/blk.h:98-102 | the loop that follows `next` ends exactly if the walk with the unvisited entries as measure succeeds; it then visits each descriptor of the chain once, at most as many as the table has |
| Chains.ChainDistinct | src/kvm/virtio/net.h:131-143 | a walk that ends visits no descriptor twice |
| Chains.GatherScatter | src/kvm/virtio/blk.h:97-102 | gathering what was scattered into disjoint buffers gives the data back |
| Chains.ScatterFrame | src/kvm/virtio/blk.h:97-102 | scattering changes nothing outside the buffers |
| Chains.GatherWalk | src/kvm/virtio/blk.h:112-118 | one turn of a gathering loop over the descriptors in memory |
| ByteLayout.ChainMeans | src/kvm/virtio/blk.h:98-102 | a path is a chain exactly if every descriptor but the last has bit 0 of its flags set and names the next one, and the last has it clear |
| ByteLayout.DataOfAt | src/kvm/virtio/blk.h:98-102 | the data buffers are address and length of every descriptor but the last, in order |
| ByteLayout.GatherAt | src/kvm/virtio/blk.h:112-118 | byte j of buffer i comes behind the bytes of all buffers before it |
| Blk.Device.Turn | src/kvm/virtio/blk.h:81-147 | one turn of the service loop on arrays is `BlkState.Turn`, for memory, disk, counter and interrupt line |
| Blk.Device.ServeHead | src/kvm/virtio/blk.h:92-139 | the switch on the request type is `Serve` |
| Blk.Device.ReadChain | src/kvm/virtio/blk.h:94-103 | the read loop scatters the file range over the data buffers, counts modulo 2^32 and stops at the status descriptor |
| Blk.Device.WriteChain | src/kvm/virtio/blk.h:109-119 | the write loop stores the gathered buffers at the offset |
| Blk.Device.CopyId | src/kvm/virtio/blk.h:125-131 | copies the identifier's prefix into the buffer one link behind the header and goes on to the descriptor two links behind, whatever their flags |
| Blk.ReadFills | src/kvm/virtio/blk.h:94-107 | the buffers in chain order equal the request's extent of the disk (`BlkFormat.SectorIsRead` says where that is), status OK, length the sum plus one, disk unchanged |
| Blk.WriteStores | src/kvm/virtio/blk.h:109-123 | the disk range equals the gathered buffers, every other disk byte is unchanged |
| BlkFormat.HeaderLayout | src/kvm/virtio/blk.h:22-26 | the header lies where the head descriptor points: type at 0, sector at 8 |
| BlkFormat.SectorIsRead | src/kvm/virtio/blk.h:94-107 | type 0: the buffers equal the disk from 512 times the sector on, status 0, reported length the sum plus one modulo 2^32, disk unchanged |
| BlkFormat.SectorIsWritten | src/kvm/virtio/blk.h:109-123 | type 1: the disk from 512 times the sector on equals the buffers, every other byte as before, status 0 |
| BlkFormat.ProductWraps | src/kvm/virtio/blk.h:97-112 | for sectors from 2^55 on the transfer goes to 512 times the sector modulo 2^64 |
| BlkFormat.IdentifierIsRead | src/kvm/virtio/blk.h:125-134 | type 8: byte i of the buffer is byte i of "kthxvmkthxvmkthxvmdisk", the 23rd zero |
| BlkFormat.OtherTypesAreDropped | src/kvm/virtio/blk.h:92-139 | a request is dropped exactly if its type is none of 0, 1 and 8 |
| BlkFormat.TurnReadsSector | src/kvm/virtio/blk.h:81-147 | after a whole turn, reporting included, the buffers of a read equal the disk from 512 times the sector on |
| BlkFormat.TurnWritesSector | src/kvm/virtio/blk.h:81-147 | after a whole turn the disk from 512 times the sector on is what a write had in its buffers |
| Blk.TurnOnRing | src/kvm/virtio/blk.h:82-145 | on the ring a turn is `next()` and `add_used()` of that head with the reported length, or only `next()` for an unhandled type; the line rises exactly if the test holds |
| Blk.TurnFrame | src/kvm/virtio/blk.h:94-141 | guest memory changes only in the request's buffers, its status byte and the used ring |
| Reports.BlkReports | src/kvm/virtio/blk.h:81-147 | after a turn the driver finds head and length at their literal places in the used ring and the index advanced; the line is raised exactly if the index less one is the word at byte 1028 of the available ring; a dropped request only advances the counter |
| Blk.ReadsSeeLastWrites | src/kvm/virtio/blk.h:94-123 | in any history of requests, every byte a read delivers is the byte most recently written there |
| Blk.WriteThenRead | src/kvm/virtio/blk.h:94-123 | a read after a write of the same range returns the bytes however either chain splits them; the rest of the disk is unchanged |
| Blk.RequestParts | src/kvm/virtio/blk.h:90-139 | which descriptors a request of each type is made of: a transfer ends where NEXT is clear, an identification after two links, of other types only the header is read |
| Drivers.PostedRing | src/kvm/virtio/queue.h:26-31 | a chain posted by the driver's bytes is `Ring.Publish` on the ring |
| Drivers.PostedWalk | src/kvm/virtio/blk.h:98-102 | from each descriptor of a posted chain the walk visits the rest as it was linked, in whatever slots it lies |
| BlkRequests.IssuedParses | src/kvm/virtio/blk.h:90-119 | header and descriptor bytes a driver writes for a request, in any distinct table slots, are parsed as exactly that request |
| BlkRequests.IssuedIsDue | src/kvm/virtio/queue.h:65-81 | the device takes up an issued request, with its head, exactly if fewer than 2^16 - 1 chains came before it |
| BlkRequests.IssueFrame | src/kvm/virtio/queue.h:15-31 | issuing changes only the header, the descriptor table and the available ring |
| BlkRequests.DriverReadsWhatItWrote | src/kvm/virtio/blk.h:81-147 | from the driver's bytes on: a write issued and served, then a read of the range issued from any memory through any chain and served, delivers the written bytes |
| BlkRequests.SampleIsProper | src/kvm/virtio/blk.h:90-119 | such requests exist for every disk of a sector and every memory with a free page behind the queue |
| BlkTransfer.UninterruptedIsServe | src/kvm/virtio/blk.h:90-139 | without interference the single accesses of the service loop (header, each descriptor and its buffer, status) together do what `Serve` does to memory and disk, and report its length |
| BlkTransfer.Progresses | src/kvm/virtio/blk.h:94-133 | whatever else happened to other memory between accesses, each further one is possible and brings the request forward: the buffers so far hold their part of the disk, or the disk their contents, until the status is written |
| BlkRuns.RunsAreSequential | src/kvm/virtio/blk.h:81-147 | over every run with any number of requests outstanding, the driver writing memory, issuing and reaping between any two accesses of the device: each readable completion names the head and length of the request issued in that place, its status is OK, and a read's buffers hold the disk after exactly the requests issued before it, one at a time |
| BlkFormat.AnswerMeans | src/kvm/virtio/blk.h:94-134 | what those answers say of guest memory: status 0; for type 0 the disk from 512 times the sector on; for type 8 the identifier |
| BlkFormat.DiskWithMeans | src/kvm/virtio/blk.h:109-119 | and what the sequential disk is after one more request: for type 1 the payload at 512 times the sector, otherwise unchanged |
| BlkRuns.StepKeeps | src/kvm/virtio/blk.h:81-147 | every step of driver or device keeps requests that wait as issued, the one in service as far as the device came, answered requests as answered, and ring bytes and protocol state in agreement |
| BlkRuns.DeviceIsNeverStuck | src/kvm/virtio/blk.h:90-145 | in every state of such a run the device can make its next access to the request it took, or report it |
| BlkRuns.TwoOutstanding | src/kvm/virtio/blk.h:81-147 | from zeroed memory there is such a run with a write and a read outstanding |
| BringUp.ConfiguredQueue | src/kvm/virtio/mmio.h:146-179 | after any history in which a queue's registers got their values, in any order and any number of times, the queue has its place and is ready |
| BringUp.SetUpWorks | src/kvm/virtio/mmio.h:146-179 | the driver's sequence from selecting the queue to making it ready is accepted and does that |
| BringUp.RunsAfterSetUp | src/kvm/virtio/device.h:83-89 | with zeroed rings a queue set up so is in a start state of `BlkRuns`, and every run from there answers sequentially |
| BringUp.AcknowledgeIff | src/kvm/virtio/mmio.h:181-185 | writing 1 to INTERRUPT_ACK is the acknowledging step of `VirtioSystem`, and no other access to the device moves the line |
| Net.Device.UpdateRx | src/kvm/virtio/net.h:107-147 | the receive step on arrays is `NetState.Rx` |
| Net.Device.ReceiveChain | src/kvm/virtio/net.h:128-143 | the receive loop is `Pour`, and returns the bytes stored |
| Net.Device.UpdateTx | src/kvm/virtio/net.h:149-182 | the transmit step on arrays is `NetState.Tx` |
| Net.Device.SendChain | src/kvm/virtio/net.h:163-171 | the transmit loop gathers the whole chain in order |
| Net.FittedShape | src/kvm/virtio/net.h:131-143 | each descriptor is filled before the next is touched, the lengths add up to min(packet, capacity) |
| Net.RxDelivers | src/kvm/virtio/net.h:128-146 | the bytes stored in chain order are the packet's prefix of length min(packet, capacity), that length is reported, nothing else changes |
| Net.RxWithoutPacket | src/kvm/virtio/net.h:114-117 | without a packet the whole step changes nothing |
| Net.TxSends | src/kvm/virtio/net.h:163-181 | the tap gets the chain's buffers in order, the sum of their lengths is reported |
| Reports.RxReports | src/kvm/virtio/net.h:107-147 | the driver finds the head and min(packet, capacity) at their places in the used ring, and an idle line has one more signal |
| Reports.TxReports | src/kvm/virtio/net.h:149-182 | the same for sending, with the sum of the lengths |
| Net.ReceivedComesBack | src/kvm/virtio/net.h:131-171 | sending from the buffers a packet was received into starts with the packet exactly if the chain had room for it |
| NetRequests.OfferedIsDue | src/kvm/virtio/queue.h:69-81 | the device takes up a chain the driver posted, with exactly its buffers, exactly if its counter has not stalled |
| NetRequests.DriverReceives | src/kvm/virtio/net.h:107-147 | from the driver's bytes on: after a packet arrived its prefix is in the posted buffers, in order, and its length in the used element |
| NetRequests.DriverSends | src/kvm/virtio/net.h:149-182 | the tap gets exactly the bytes in the posted buffers, and their number is reported |
| NetRequests.ProperOffersExist | src/kvm/virtio/net.h:107-182 | such chains exist in every memory of 20 KiB |
| Rng.Device.Update | src/kvm/virtio/rng.h:41-55 | the update on arrays is `RngState.Turn` |
| Rng.TurnDelivers | src/kvm/virtio/rng.h:41-55 | the first buffer holds the noise, all of it is reported, the line is high, nothing else changes |
| Reports.RngReports | src/kvm/virtio/rng.h:41-55 | the same for entropy; what is filled is the address at 0 and the length at 8 of the head descriptor |
| Reports.IdlePolls | src/kvm/virtio/blk.h:81-86 | a poll of any of the devices that finds no new chain changes nothing |
| DeviceRuns.BlkTurnIsRun | src/kvm/virtio/blk.h:81-147 | a turn on bytes is a run of the step system with the same ring and line |
| DeviceRuns.RxIsRun | src/kvm/virtio/net.h:107-147 | the same for receiving |
| DeviceRuns.RxIdleIsRun | src/kvm/virtio/net.h:114-117 | receiving without a packet is `next()` and `pop_back()`, back to the same system state |
| DeviceRuns.TxIsRun | src/kvm/virtio/net.h:149-182 | the same for sending |
| DeviceRuns.RngTurnIsRun | src/kvm/virtio/rng.h:41-55 | the same for the entropy device |
| Interrupts.Interrupt.SetLevel | src/kvm/interrupt.h:20-33 | the level becomes `update`, the eventfd is written exactly on a rising edge |
| Reports.OnlyRisingEdgesSignal | src/kvm/interrupt.h:20-33 | the level is the one set; the eventfd counts one more exactly if the line was low and is set high |
| Mmio.Device.Write | src/kvm/virtio/mmio.h:113-194 | a write to a register or to the configuration space is `DeviceRegs.After`, for every register, queue, the line, the configuration bytes and their generation |
| Mmio.Device.Read | src/kvm/virtio/mmio.h:41-111 | a read of any size, of a register or of the configuration space, is `ReadBytes` |
| Mmio.ConfigReadsBack | src/kvm/virtio/blk.h:49-69 | after any history each byte read from the configuration space is the one last stored there by a write that lay inside it, or the initial one; a read that leaves it gives zeros |
| Mmio.WordReadsBack | src/kvm/virtio/mmio.h:43-83 | a register read delivers the register's value as a little-endian word |
| RegisterMap.RegisterValues | src/kvm/virtio/mmio.h:41-83 | the word at each offset: 0x74726976 at 0x00, 2 at 0x04, the id at 0x08, 0x4b544858 at 0x0c, features modulo 2^24 or 1 at 0x10, 512 at 0x34, 1 at 0x60 exactly while the line is high, status at 0x70, generation at 0xfc |
| RegisterMap.ReadyValue | src/kvm/virtio/mmio.h:73-75 | 0x44 reads 1 exactly if the selected queue is ready |
| RegisterMap.RestIsZero | src/kvm/virtio/mmio.h:85-111 | bytes behind the word, and every byte at the other offsets below 0x100, are zero |
| RegisterMap.HandlerSeesInterrupt | src/kvm/virtio/mmio.h:81-82 | in every run of the step system, for any number of queues, a handler that took the interrupt reads 1 at 0x60; when it has written 1 to 0x64 it reads 0, and the line is where acknowledging leads |
| RegisterMap.RegistersAfterHistory | src/kvm/virtio/mmio.h:128-186 | after any history: status is the low byte last written to 0x70, the selected queue the value last written to 0x30, a selector chooses the high half exactly if 1 was last written to 0x14 or 0x24, a queue was notified as often as its number was written to 0x50, the line fell exactly if 1 was written to 0x64 |
| RegisterMap.OwnRegistersReadBack | src/kvm/virtio/mmio.h:57-79 | from power-on, the driver reads back the status it wrote last, the half of the features it chose last, and how many stores lay inside the configuration space |
| RegisterMap.WindowLayout | src/kvm/virtio/mmio.h:113-192 | a store below 0x100 is to a register, its value the first four bytes; from 0x100 on it is to the configuration space |
| RegisterMap.StoredIsRead | src/kvm/virtio/mmio.h:103-106 | bytes stored inside the configuration space are read back at the same offset |
| Mmio.QueuesDoNotInterfere | src/kvm/virtio/device.h:83-89 | after any writes a queue's configuration is what the writes issued while it was selected make of it |
| Mmio.QueueAfterHistory | src/kvm/virtio/mmio.h:150-179 | the size is the last written, ready once QUEUE_READY was written at all, each address the or of all low words plus 2^32 times the or of all high words |
| RegisterMap.ReachesQueue | src/kvm/virtio/mmio.h:146-179 | a write reaches a queue exactly if the queue is selected and the offset is one of 0x38, 0x44, 0x80, 0x84, 0x90, 0x94, 0xa0 and 0xa4 |
| RegisterMap.QueueRegisters | src/kvm/virtio/mmio.h:150-179 | which offset sets what: size 0x38, ready 0x44, the words of the descriptor table 0x80 and 0x84, of the available ring 0x90 and 0x94, of the used ring 0xa0 and 0xa4 |
| Mmio.ReadyIsLastIff | src/kvm/virtio/mmio.h:154-156 | after any history a queue is as ready as last written exactly if that was 1 |
| Mmio.ResetClearsIff | src/kvm/virtio/device.h:44-46 | a reset sets the status to 0 and changes nothing else; a queue is in its initial state after it exactly if it was left alone before |
| Mmio.ResetReads | src/kvm/virtio/mmio.h:57-75 | after a reset the driver reads status 0, and the queue selected as ready if it ever was made so |
| Mmio.WithdrawnQueueStaysReady | src/kvm/virtio/mmio.h:154-156 | a run: made ready, withdrawn, reset, still ready |
| Mmio.GenerationGuardsConfig | src/kvm/virtio/blk.h:61-69 | over every stretch of fewer than 2^32 accesses an unchanged generation means unchanged configuration bytes |
| Mmio.AddressWritten | src/kvm/virtio/mmio.h:162-179 | low and high word in any order, repeated with the same value, give low + high * 2^32 |
| Mmio.AddressIsLastIff | src/kvm/virtio/mmio.h:162-179 | an address register shows the words written last exactly if no earlier word had a bit outside them |
| Mmio.StaleAddressBit | src/kvm/virtio/mmio.h:162-164 | an address moved from 0x1000 to 0x2000 reads as 0x3000 |
| Mmio.FeaturesAfterHistory | src/kvm/virtio/mmio.h:136-144 | the driver's features are the or of everything written, each word in the half selected at the time |
| RegisterMap.DriverFeatureWords | src/kvm/virtio/mmio.h:136-144 | the words are those written to 0x20, each in the half chosen at the time |
| Mmio.FeaturesShownIff | src/kvm/virtio/mmio.h:61-67 | the low feature word is shown unchanged exactly if it has no bit from 24 on; VERSION_1 is always shown |
| Mmio.EventIdxNotShown | src/kvm/virtio/blk.h:71-75 | the block device offers EVENT_IDX in its feature word, but the driver is never shown it |
| IoDispatch.Dispatch | src/kvm/virtio/mmio.h:212-228 | finds the first window that contains the port, with the offset into it, or that there is none |
| IoDispatch.OrderDoesNotMatter | src/kvm/device/io_device.h:20-26 | with disjoint windows the order of registration does not matter |
| IoDispatch.RegisteredDeviceIsReached | src/kvm/vmm.h:74-83 | an access to the window of one of the monitor's devices reaches it, in whatever order they are registered |
| BootFormat.PortDeviceIsReached | src/kvm/vmm.h:73-79 | 0x60 to 0x64 reach the keyboard, the eight ports from 0x3f8, 0x2f8, 0x3e8 and 0x2e8 on their serial port |
| BootFormat.VirtioDeviceIsReached | src/kvm/vmm.h:81-83 | each of the pages at 0xd0000000, 0xd0001000 and 0xd0002000 reaches its virtio device |
| BootFormat.DevicesAreNotMemory | src/kvm/vm.h:230-278 | whatever the memory size, no slot covers an address of these devices |
| MpTable.SetupMpTable | src/kvm/mptable.h:38-142 | the buffer filled step by step and copied to 0x9fc00 is `Image` |
| MpTable.MpfChecksum | src/kvm/mptable.h:29-36 | the 32-bit accumulating loop is the byte sum modulo 256 |
| MpTable.TableSumsToZero | src/kvm/mptable.h:136-138 | the `length` bytes of the table sum to 0 modulo 256, for every CPU count whose length field covers the checksum byte |
| MpTable.MpfSumsToZero | src/kvm/mptable.h:130-134 | so do the 16 bytes of the floating pointer |
| MpTable.MpTableReadsBack | src/kvm/mptable.h:57-138 | a reader that checks anchors, lengths, checksums and count and walks by type gets back exactly the processors, bus, IO-APIC and two local interrupts, exactly up to 3272 CPUs |
| MpTable.ApicIdsDistinctIff | src/kvm/mptable.h:58-91 | the 8-bit APIC ids are distinct exactly up to 254 CPUs |
| MpTable.TypesAscend | src/kvm/mptable.h:57-125 | the entry types ascend |
| MpTable.FloatingPointerFoundIff | src/kvm/mptable.h:127-141 | the search of the last kilobyte of base memory in 16-byte steps, checking anchor, length and checksum, stops at the pointer that was written and reads back all entries exactly up to 46 CPUs, and finds nothing for more |
| MpTable.NoAnchorInTable | src/kvm/mptable.h:57-128 | for every CPU count, no 16-byte boundary in front of the pointer holds the first byte of its anchor |
| MpFormat.HeaderInMemory | src/kvm/mptable.h:43-138 | byte by byte from 0x9fc00: "PCMP", 76 + 20 * n modulo 2^16 at 4, 4 at 6, OEM and product id from 8 on, n + 4 modulo 2^16 at 34, 0xfee00000 at 36 |
| MpFormat.ProcessorEntry | src/kvm/mptable.h:57-68 | processor i at 44 + 20 * i: type 0, id i modulo 256, version 0x14, flags 3 for the first and 1 for the others, features 0x600 and 0x201 |
| MpFormat.EntriesBehindCpus | src/kvm/mptable.h:76-122 | then, byte by byte, the PCI bus, the usable IO-APIC n + 1 at 0xfec00000, and the local interrupts INT on pin 0 and NMI on pin 1 |
| MpFormat.PointerLayout | src/kvm/mptable.h:127-134 | at the next 16-byte boundary "_MP_", 0x9fc00 at 4, 1 at 8, 4 at 9; its 16 bytes sum to 0 |
| MpFormat.OneBootProcessor | src/kvm/mptable.h:23-27 | of the processors read back all are enabled and exactly the first is the boot processor |
| MpFormat.FoundBelow640K | src/kvm/mptable.h:127-141 | a search from 0x9fc00 to 0xa0000 finds the pointer, and all entries, exactly up to 46 CPUs |
| MemoryLayout.Vm.CreateMemory | src/kvm/vm.h:230-278 | the mapping size and slots are `MappingSize` and `Slots` |
| MemoryLayout.Vm.SetupBootparams | src/kvm/vm.h:344-364 | the e820 RAM ranges are `E820` |
| MemoryLayout.SizeConservedIff | src/kvm/vm.h:230-278 | the slots sum to the requested size exactly if adding the gap does not overflow |
| MemoryLayout.TranslationIsSound | src/kvm/virtio/queue.h:48-51 | every RAM address lies in one slot, outside the gap, at the host offset equal to it, inside the mapping |
| MemoryLayout.E820BackedIff | src/kvm/vm.h:344-364 | every e820 range lies in a slot exactly if the mapping has at least 1 MiB |
| MemoryLayout.E820Complete | src/kvm/vm.h:344-364 | the map covers all memory but the hole from the EBDA to 1 MiB, and its sizes add up |
| BootFormat.SmallMemory | src/kvm/vm.h:248-257 | below 0xd0000000 bytes: one slot, number 0, and two e820 ranges, from 0 to 0x9fc00 and from 1 MiB to the end; below 1 MiB the second length wraps |
| BootFormat.LargeMemory | src/kvm/vm.h:258-278 | from there on: slot 0 up to 0xd0000000, slot 1 from 4 GiB with the rest, at the host offset 4 GiB; three e820 ranges |
| BootFormat.SlotIdsAreDistinct | src/kvm/vm.h:248-278 | slots are numbered by their position, so the second registration does not replace the first |
| PageTables.SetupPageTables | src/kvm/regs.h:12-25 | the three tables written are `WithTables` |
| PageTables.IdentityBelowOneGb | src/kvm/regs.h:21-25 | a 4-level walk maps every address below 2^30 to itself, writable, whatever was in memory |
| PageTables.MapsFirstGbOnly | src/kvm/regs.h:12-28 | if the other entries of the upper tables are not present, it maps nothing else of the 48-bit space |
| BootFormat.TableEntries | src/kvm/regs.h:12-25 | 0xa003 at 0x9000, 0xb003 at 0xa000, 0x200000 * k + 0x83 at 0xb000 + 8 * k |
| BootFormat.TablesFrame | src/kvm/regs.h:12-25 | every other byte of guest memory is kept |
| Elf.Load | src/elf/elf.h:15-49 | memory is the overlay of the segments before the first malformed one; the entry, -EINVAL or a bad magic is reported accordingly |
| Elf.OverlayAt | src/elf/elf.h:32-45 | every byte comes from the last loaded segment that covers it, or was there before |
| Elf.LastWriterIsLast | src/elf/elf.h:32-45 | that segment covers the address and no later one does; without one, none does |
| Elf.LoadsAsSpecifiedIff | src/elf/elf.h:32-45 | the loader does what copying each file image and zeroing the rest of the segment would, exactly if each address that belongs to a zero part is 0 in the last file image that covers it, or in memory beforehand |
| Elf.SeparateLoadIff | src/elf/elf.h:32-45 | for segments that do not overlap, exactly if memory was 0 there |
| Elf.TailIsNotCleared | src/elf/elf.h:32-45 | a file with two overlapping segments after whose loading a byte of a zero part is 7, in zeroed memory as in any |
| Elf.ElfFileReadsBack | src/elf/elf.h:15-31 | program headers written into a file are the ones the loader reads |
| BootFormat.ProgramHeader | src/elf/elf.h:27-31 | where the loader finds the headers and, in each, type, offset, address and sizes |
| BootFormat.ResultMeans | src/elf/elf.h:24-49 | no ELF file exactly without the magic; -EINVAL if a segment of type 1 has an empty file image or one longer than itself; else the word at 24 |
| BootFormat.EntryIsReturned | src/elf/elf.h:31-49 | a file built from headers returns its entry point if none of them is malformed, and 2^64 - 22 otherwise |
| Uart.Device.Read | src/kvm/device/uart.h:55-116 | a read is `State.AfterRead` and returns `ReadValue` |
| Uart.Device.Write | src/kvm/device/uart.h:118-184 | a write is `State.AfterWrite` |
| Uart.Device.WriteStdio | src/kvm/device/uart.h:229-253 | polling the terminal is `State.AfterStdin` |
| Uart.StepIsGood | src/kvm/device/uart.h:55-253 | every access keeps the invariant: data bit set exactly with unread bytes, at most 64 buffered, nothing waiting to be sent, `iir` in agreement with `ier` and the line status |
| Uart.UpdateIrqSettles | src/kvm/device/uart.h:205-227 | update_irq pulses the line exactly if a cause is pending |
| UartRegisters.CausesAreTold | src/kvm/device/uart.h:205-227 | received data with enable bit 0 is cause 4, an idle transmitter with enable bit 1 cause 2, neither is 1; the line ends low, with one more edge exactly if there is a cause |
| UartRegisters.TypedByteInterrupts | src/kvm/device/uart.h:229-253 | a byte typed into an empty port, loopback off: one edge and bit 2 of the identification if receive interrupts are enabled; none if nothing is |
| UartRegisters.TypedByteIsRead | src/kvm/device/uart.h:72-84 | and the byte is what a read of offset 0 with the latch closed returns |
| UartRegisters.OldestByteIsRead | src/kvm/device/uart.h:72-87 | with the latch closed a read of offset 0 returns the oldest unread byte and leaves the others |
| UartRegisters.SentByteInterrupts | src/kvm/device/uart.h:133-227 | a byte sent with transmit interrupts enabled: one edge and bit 1 of the identification |
| UartRegisters.TerminalIsTaken | src/kvm/device/uart.h:232-253 | an empty port takes the first 64 bytes that are there; one that holds bytes or loops back takes none |
| UartRegisters.StatusReads | src/kvm/device/uart.h:91-102 | after any run offset 5 reads 0x60, plus 1 with unread bytes; offset 2 reads 0xc0 plus the causes, or 0xc1 without any |
| UartRegisters.ReadsBackWritten | src/kvm/device/uart.h:55-184 | after any run: offsets 3, 4 and 7 read back what was last written there, offset 6 reads 0xb0, offset 1 the low four bits last written, or with bit 7 of offset 3 set offsets 0 and 1 the divisor bytes last written so |
| UartRegisters.ByteIsSent | src/kvm/device/uart.h:133-154 | a write to offset 0 outside loopback, and no other access, puts exactly its byte on the terminal |
| UartRegisters.Transmitter | src/kvm/device/uart.h:143-227 | in every state, reachable or not: with fewer than 64 bytes waiting they and the new one go out; with 64 the byte is lost and the line status shows it; working out interrupts flushes exactly while transmit interrupts are off |
| UartRegisters.LoopedByteIsReceived | src/kvm/device/uart.h:134-141 | in loopback it goes to the receive buffer, while there is room |
| Uart.StreamsArePreserved | src/kvm/device/uart.h:71-145 | over every run the bytes read, then the unread ones, are the bytes accepted, in order; the terminal got exactly the offset-0 writes outside loopback |
| Uart.OutputIsTransmittedIff | src/kvm/device/uart.h:121-150 | the terminal shows exactly the transmit-register writes exactly if the low divisor byte is never set outside loopback |
| Uart.DivisorIsTransmitted | src/kvm/device/uart.h:121-150 | a run: opening the latch and setting the low divisor byte puts that byte on the terminal |
| Uart.EnabledAsAskedIff | src/kvm/device/uart.h:121-160 | over every run the enabled interrupts are the ones last asked for exactly if the last write to offset 1 did not set the divisor to something with other low four bits |
| Uart.DivisorDisablesInterrupts | src/kvm/device/uart.h:121-160 | a run: enabling receive interrupts and setting the divisor's high byte to 0 disables them |

## Left out

* ioctls, mmap, eventfd, tap and file streams: they are byte arrays, sequences and counters, and I/O inside them
  succeeds.
* Weak memory ordering: `rmb` and `wmb` are fences, the model is sequentially consistent.
* BlkRuns.RunsAreSequential: one buffer of a request is moved in one step; the driver keeps off the buffers of
  outstanding requests anyway.
* Mmio.Device.Read: a register read into a buffer of fewer than four bytes, which the source overruns.
* MpTable.SetupMpTable: the header fields assigned before the entries are written in one copy.
* The control queue of the network device, which is never polled, and packet reads that fail.
* Threads, sleeping, terminal settings, `cpuid.h`, `msr.h`, `irq.h`, `apic.h`, `i8042.h`, `rtc.h`: plumbing and
  constant tables.
* Segment descriptors (`gdt.h`) and control registers: shift-and-mask expressions that would only add easy members.
* Indirect descriptors and packed rings: the source has only their constants.
