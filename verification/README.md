# castcommon: the receive path, its queues, and the tables and codecs around it

The library behind the cast speakers receives datagrams through three threads. The select
thread finds ready connections, clears a connection's `readed` flag and pushes the
connection on an event queue. The udp thread pops it and receives one datagram straight
into a slot of the receive queue, in a callback that runs under that queue's lock, and sets
the flag again. The receive thread pops the slot and hands it to the connection's callback.
Both queues are rings on which callers sleep with condition variables, and popping hands
out a pointer into the ring rather than a copy.

This project models that path and proves what it delivers; it also covers the CRC-8, the
connection table, the log filter table, the speaker registry, channel masks and the packet
codecs whose two sides agree.

| file | content |
|---|---|
| `Rings.dfy` | the ring as a value, and the queue object that updates it in place |
| `Monitors.dfy` | one blocking queue shared by any number of producers and consumers |
| `Stranding.dfy` | producers left asleep after the ring has drained |
| `Pipeline.dfy` | the three threads over two such queues, and the invariant of every run |
| `Delivery.dfy` | order, conservation, slots in use, one outstanding event per connection |
| `Progress.dfy` | when the select thread can block |
| `Receptive.dfy` | no step is refused, and any sequence of datagrams can be delivered |
| `Draining.dfy` | no stuck state, and a measure that drains the pipeline |
| `Crc8.dfy`, `CrcRemainder.dfy`, `CrcDetection.dfy` | the CRC loop, its polynomial meaning, the errors it detects |
| `Connections.dfy` | the table of watched connections and the dispatch loop |
| `LogFilters.dfy`, `LogTables.dfy`, `LogTexts.dfy` | log filters, the table against simpler things, the meaning of specification strings |
| `Speakers.dfy` | the speaker registry |
| `ChannelMasks.dfy`, `Packets.dfy` | channel masks and lists; control header, detect request and response |
| `Wrappers.dfy` | an optional value |

How the threads are modelled. A step is a critical section, a sleep on a condition
variable, the start, a write or the end of a push callback (which keeps the mutex
throughout), or a single access to a flag or slot outside the locks. Any thread may take
any allowed step. A signal moves at least one waiter, of the environment's choice, to the
set of woken threads (POSIX.1-2017, System Interfaces, `pthread_cond_signal`); a spurious
wakeup moves any waiter there at any time. The outcome of `recvfrom` is a parameter of the
step, and a failing callback may leave anything in its slot. Pointers into a ring are slot
numbers, and every use of one reads the ring as it is at that moment.

Some properties that one might expect hold of the code only under a condition. For each,
the project proves the exact condition, and how the property fails outside it.

- With two producers on one queue and a callback that fails, a producer can sleep on,
  unsignalled, beside a free slot. While items remain the next pop still wakes a sleeper.
  With at least as many producers as slots the ring can drain first, and then only another
  producer's item, or a spurious wakeup, can wake the one left asleep.
- A slot in use can be overwritten when two consumers share a queue.
- A receive queue of one slot stops the pipeline at its first event.
- The id of a detect request is written with 32 bits and read with 16, and "disconnected"
  (2) arrives as "connected" (1).
- Log names that differ only in case share the level of the one added first. Names longer
  than 15 characters are cut, never found again, and, while there is room, stored once
  more by every call.
- Deleting twice the connection that is last in the table drops the one before it. Adding
  a connection that is already there breaks its back index.
- A channel list can be packed into 32 bits only without the channel of the highest bit.

Besides these, `add_speaker` does not store the id it is given, so that its caller must.

## Model

| member | source | states |
|---|---|---|
| Rings.Ring.CountIsModular | block_queue.h:68-72 | the number of stored items is f - r modulo the length and never exceeds length - 1; the empty test holds exactly with no item and the two-part full test (one half unsigned) exactly at capacity |
| Rings.Ring.PushRefinesAppend | block_queue.c:177-187 | on a ring that is not full, filling the slot leaves the stored items unchanged (what a failing callback leaves behind) and publishing it appends exactly the filled item |
| Rings.Ring.TakeRemovesHead | block_queue.c:243-247 | a pop hands out the slot of the oldest item and leaves the rest in order |
| Rings.Ring.FullExactlyWhenNextWriteHitsHand | block_queue.h:71-72 | the slot the next push would fill is the one the last pop handed out exactly when the ring is full |
| Rings.Ring.ReportedLengthIsShort | block_queue.c:130-133 | queue_len equals the number of stored items exactly while r <= f and is one less otherwise |
| Rings.BlockQueue.Push | block_queue.c:136-195 | the return code and the whole state after a push: refused or waiting when full; otherwise the item is appended to the stored ones, except that a callback returning below 0 leaves them as they were |
| Rings.BlockQueue.Pop | block_queue.c:197-256 | the return code and the whole state after a pop: the slot handed out holds the oldest item, and the stored items are the others; nothing changes on an empty queue |
| Monitors.StepQueuesInOrder | block_queue.c:177-187 | whatever the threads do, only a commit adds an item, at the back, only a take removes one, at the front, and no other step changes the items or the slot last handed out |
| Monitors.StepKeepsInv | block_queue.c:136-256 | every critical section, sleep, wakeup, callback write and cancellation keeps the waiting sets, wakeups and slots in use consistent, for any numbers of producers and consumers |
| Monitors.ConsumerWakeupsNeverLost | block_queue.c:220-224 | in every reachable state in which a consumer sleeps unsignalled, there are at most as many items as woken consumers, for any number of threads, failing callbacks and spurious wakeups included |
| Monitors.ProducerWakeupsExactly | block_queue.c:155-157 | the same for producers and free slots holds in all reachable states exactly when callbacks cannot fail, or there is at most one producer, or no consumer, or a single slot |
| Monitors.ProducerWakeupLost | block_queue.c:179-183 | with two producers, a consumer and a failing callback, on a ring of any length above one, a run that leaves a producer asleep beside a free slot, with no producer woken or filling it |
| Stranding.SleepersAndFreeSlots | block_queue.c:243-253 | in every reachable state with a producer asleep, free slots and sleeping producers together are at most as many as the producers |
| Stranding.StrandedExactly | block_queue.c:179-183 | a state with a producer asleep on an empty ring, and no producer woken or filling, is reachable exactly when callbacks can fail, there is a consumer and there are at least as many producers as slots; on a ring of one slot, exactly when there is a producer |
| Stranding.ProducerStranded | block_queue.c:155-157 | such a run, for a ring of any length above one |
| Stranding.AsleepUntilPublished | block_queue.c:155-157 | from a state with a producer asleep on an empty ring, any run without a publishing push and without spurious wakeups leaves it asleep |
| Stranding.PopWakesSleeper | block_queue.c:252 | every pop beside sleeping producers wakes at least one |
| Monitors.HandsIntactExactly | block_queue.c:243-247 | the item behind a pointer returned by queue_pop is unchanged until that consumer's next pop, in all reachable states, exactly when there is at most one consumer, or no producer, or a single slot |
| Monitors.HandOverwritten | block_queue.c:243-253 | with two consumers, on a ring of any length above one, a run in which a slot in use is overwritten |
| Monitors.ThreadsGoOn | block_queue.c:143-157 | with the mutex free, a producer outside its wait starts filling as long as fewer than length - 1 items are stored and otherwise goes to sleep; a consumer takes an item, whichever sleepers its signal reaches, as long as there is one |
| Monitors.HolderGoesOn | block_queue.c:177-192 | the producer holding the mutex may write anything and publish, whichever sleepers its signal reaches, or cancel if callbacks can fail; any sleeper may wake spuriously |
| Pipeline.StepKeepsInv | event/udp.c:48-99 | every step of the three threads keeps the whole invariant: both queues' own, agreement of program points and queues, conservation of events and datagrams, one outstanding event per connection |
| Pipeline.ReachableInv | event/select.c:119-132 | the invariant holds in every state of every run, for a receive queue of any length |
| Delivery.ConservedAndOrdered | event/receive.c:40-47 | events pushed are those served, then the one in the udp thread's hand, then the event queue; datagrams received are those consumed, then the one in hand, then the receive queue, then one being published; the callbacks saw exactly the consumed datagrams of connections that have one, in that order |
| Delivery.SlotsInUseUntouched | event/udp.c:91-93 | while the udp or receive thread uses the slot it was given, it holds what was popped and no step of any thread changes it, even while the udp thread blocks on a full receive queue |
| Delivery.AtMostOneOutstandingEvent | event/select.c:122-125 | in every reachable state a connection is on its way to push_recv exactly when its flag is clear and its recvfrom has not failed, and then exactly once |
| Delivery.RefusedForever | event/udp.c:61-69 | once its recvfrom has failed, no further run pushes the connection again |
| Receptive.FreeSteps | event/udp.c:56-80 | in every reachable state recvfrom may return any datagram or fail, a callback may be called, a ready connection with a set flag dispatched, and a new one added |
| Receptive.SelectPushes | event/select.c:122-125 | in every reachable state the select thread can go on with its push while fewer than 99 events are queued, and otherwise goes to sleep |
| Receptive.UdpPushes | event/udp.c:90-97 | the same for the udp thread and a receive queue of any length once the mutex is free; it publishes after a successful recvfrom and gives up after a failed one |
| Receptive.WorkersPop | event/receive.c:40-47 | in every reachable state a worker thread outside its wait takes the oldest item once the mutex is free, whichever sleepers its signal reaches, and goes to sleep only on an empty queue |
| Receptive.SleepersMayWake | block_queue.c:155-157 | in every reachable state every sleeping thread may wake up spuriously |
| Receptive.CountedThrough | event/udp.c:76-77 | in every reachable state a datagram has been received as often as recvfrom returned it, and handed to a callback as often as it was consumed if its connection has one, else never |
| Receptive.EverythingDeliverable | event/receive.c:40-47 | for a receive queue of at least two slots, every sequence of datagrams from any connections is received, consumed and handed to the callbacks, exactly and in order, in some reachable state |
| Progress.SelectBlocksExactly | event/select.h:30 | a state in which select_process sleeps on its push is reachable with at most n connections ever added exactly when n is at least 100 |
| Progress.SelectNeverBlocks | event/select.c:120-126 | with fewer than 100 connections the select thread never waits for room in the event queue |
| Draining.NeverStuckExactly | event/udp.c:90-97 | the reachable states without a productive step are those with nothing in flight and both worker threads asleep, exactly when the receive queue has at least two slots |
| Draining.QuietPipelineDelivers | event/receive.c:40-47 | without new dispatches and spurious wakeups every run is bounded by a measure of its first state, and when it cannot go on every pushed event has been served and every received datagram has reached its callback |
| Draining.StepLowersWork | event/udp.c:90-97 | every productive step of every thread lowers the measure |
| Crc8.Crc8Check | crc.c:23-42 | the byte loop with its inner loop of eight shifts computes the register fed one message bit at a time, for every length |
| CrcRemainder.CrcIsTheRemainder | crc.c:28-39 | a polynomial of degree below 8 is congruent to the message times x^8 modulo x^8+x^2+x+1 exactly when it is the one whose bits crc8_check returns |
| CrcRemainder.MessageBitAt | crc.c:28-39 | the bits of a message are those of its bytes in order, the most significant bit first |
| CrcDetection.DetectedByDifference | crc.c:28-39 | two messages of the same length have the same CRC exactly when their difference, as an error pattern, feeds the zero register to zero |
| CrcDetection.UndetectedExactly | crc.c:28-39 | two messages of the same length have the same CRC exactly when the generator x^8+x^2+x+1 divides the polynomial of their difference |
| CrcDetection.BurstDetected | crc.c:28-39 | any difference confined to eight consecutive bits, at any offset of messages of any length, changes the result |
| CrcDetection.NineBitBurstMissedExactly | crc.h:27-28 | a difference confined to nine consecutive bits leaves the result unchanged exactly when it is the generator pattern 100000111 |
| CrcDetection.TwoFlipsUndetectedExactly | crc.c:31-38 | two flipped bits leave the result unchanged exactly when their distance is a multiple of 127 |
| CrcDetection.ReturnsExactly | crc.c:31-38 | shifting the top bit n times gives the top bit back exactly when 127 divides n |
| CrcDetection.CrcParity | crc.c:31-38 | the result has the bit parity of the message |
| CrcDetection.OddFlipsDetected | crc.c:31-38 | any odd number of flipped bits changes the result |
| CrcDetection.AppendedCrcExactly | crc.c:23-42 | the result for a message with one more byte is zero exactly when that byte is the message's CRC |
| CrcDetection.CrcOfConcatenation | crc.c:28-39 | the result for a concatenation depends on the first part only through its CRC |
| CrcDetection.CheckValue | crc.h:27-29 | the result for the nine ASCII digits 123456789 is 0xf4 |
| Connections.RunIsAddedMinusDeleted | event/select.c:47-71 | after any run of adds of absent and deletes of present connections the live entries are distinct and are the added minus the deleted ones |
| Connections.Table.Add | event/select.c:47-54 | appends the connection and sets its back index; every live entry's index then equals its position exactly when that was so before and the connection was absent |
| Connections.Table.Delete | event/select.c:56-71 | deleting a present connection moves the last entry into its place and leaves the other entries where they are; an absent one changes nothing unless its old slot still names it and other entries are live, and then the last of those is dropped |
| Connections.DeleteTwice | event/select.c:60-64 | deleting twice the connection that is last drops the last two entries, of a table with at least two |
| Connections.Table.Dispatch | event/select.c:119-141 | a pass pushes exactly the ready connections it visits whose flag was set, each once and in table order, clears those flags and no others, ends early at an exit check with its code, and otherwise reports a mismatch with the count select returned, or pauses if it pushed something |
| Connections.AmongDistinct | event/select.c:120-132 | what a pass pushes has no repetition and is exactly the ready live entries with a set flag |
| LogFilters.Logger.AddFilter | log.c:134-152 | the table after the call: first equal name updated, else the name, cut to 15 characters, appended while fewer than 32 are known |
| LogFilters.Logger.FilterLog | log.c:300-313 | the decision of the first entry matching without regard to case, else of the global level; nothing passes when quiet |
| LogFilters.ParseLevelString | log.c:154-169 | the level named, or the leading number after the clamping of strtol and the cast to int, or -1 |
| LogFilters.SetLevelFromString | log.c:179-219 | settings and result equal the fold over the comma-separated segments, stopping with -1 at the first bad one with earlier effects kept, and with 0 at a trailing empty one or when 32 names are known; a null pointer gives -1 and changes nothing |
| LogTables.PrintThenParse | log.c:171-219 | printing up to 32 distinct expressible entries and parsing the text into an empty table rebuilds it in order, and succeeds |
| LogTables.FilterAgreesExactly | log.c:300-313 | after any run of log_add_filter with names of at most 15 characters, filter_log decides for every name and level as the map from names to last accepted levels, capped at 32 names, falling back to the global level, exactly when names in the map that differ only in case have equal levels |
| LogTables.CaseVariantShadows | log.c:304-308 | of any two names differing only in case, the one added first decides for both and for every other variant, while the map keeps two levels |
| LogTables.SecondCallUpdatesExactly | log.c:138-150 | on any table of cut names, a second call for a name replaces the effect of the first exactly when the name has at most 15 characters, or the table had no room for it, or room for just that entry and the level is the same |
| LogTables.LongNamesNeverFound | log.c:304-308 | after any run of log_add_filter, a name of more than 15 characters passes exactly by the global level |
| LogTables.CutNameFound | log.c:149 | a name of more than 15 characters is stored, on a table with room that does not yet match its first 15 characters, under those, and they then pass exactly by the level given |
| LogTexts.PlainLevel | log.c:193-200 | a text without a name sets the global level to the level it names and nothing else, or fails with -1 and changes nothing |
| LogTexts.NamedLevel | log.c:203-211 | a name and a level set the level of that name and nothing else, or fail with -1 and change nothing |
| LogTexts.FirstThenRest | log.c:187-215 | segments take effect from left to right; a bad one ends the text with -1, a full table or an empty rest with 0 |
| LogTexts.NumberSetsLevel | log.c:194-197 | a decimal number below 2^31 sets the global level to it and keeps the entries |
| LogTexts.NamesAreLevels | log.c:159-162 | the six names TRACE, DEBUG, INFO, WARN, ERROR and FATAL, in any case, are the levels 0 to 5 |
| LogTexts.NumbersAreLevels | log.c:164-168 | a number after white space and a sign, and before any other text, is held to 64 bits and cut to 32; a result negative as an int is no level |
| LogTexts.OthersAreNot | log.c:164-168 | anything else is no level |
| LogTexts.CaseEqualExactly | log.c:304-308 | names match exactly when they have the same length and differ at most in the case of the letters A to Z |
| Speakers.Registry.Add | speaker_struct.c:189-227 | returns the first speaker with the id and changes nothing; else, with a slot free, files a new speaker, offline and with the id the slot had, under exactly the line and channel asked for and in that channel's list, and changes nothing else; else, or when the list cannot grow, returns nothing and keeps all used slots and lists |
| Speakers.AddSpeakerAdds | speaker_struct.c:189-227 | the same of the specification that the runs are made of |
| Speakers.RegistryPartitioned | speaker_struct.c:189-227 | over every run from the initial state each used slot carries its own number, lies in its own channel list once and in no other, list lengths add up to the slots used, and growing a list cannot fail while a slot is free |
| Speakers.GrowthNeverFails | speaker_struct.c:47-56 | in every state the invariant allows with a free slot, grow_speakerlist succeeds, so the rollback is dead code |
| Speakers.AddAgain | speaker_struct.c:190-212 | the same id is found again once the caller has stored it; until then only if the fresh slot happened to carry it |
| Speakers.Registry.FindSpeakerById | speaker_struct.c:123-134 | a slot returned is used and carries the id, and no used slot before it does; without one, no used slot carries it |
| ChannelMasks.PackedChannelsExactly | codec/wave.c:101-106 | the list made from a 32-bit mask has only channels that a 32-bit value can be shifted by exactly when the mask is below 2^31; packing it then gives the mask shifted left by one, within 32 bits |
| ChannelMasks.EntryPerBit | codec/wave.c:101-106 | the list made from a 32-bit mask has as many entries as the mask has bits set, so that more than 18 set bits overrun it |
| ChannelMasks.PackedBits | audio.h:92-99 | MASK_ISSET on a packed list agrees with membership |
| ChannelMasks.KnownChannelsExactly | codec/wave.c:101-106 | the list made from a mask is ascending; all its entries are known channels exactly when the mask is below 2^18, and it then fits the 18 entries |
| ChannelMasks.ListChannels | codec/wave.c:101-106 | the loop writes exactly the channels of the mask's bits, in order, and nothing after them |
| ChannelMasks.Pack | audio.h:92-97 | the packing loop computes, within 32 bits, the packed mask whose bits PackedBits gives |
| Packets.HeaderRoundTripExactly | package/package.c:24-41 | decoding an encoded control header gives it back exactly when version and command fit four bits |
| Packets.ResponseRoundTripExactly | package/package.c:158-179 | an encoded detect response has 5 or 17 bytes and decodes to the same fields and packet-size address exactly when its address has the packet's family |
| Packets.RequestRoundTripExactly | package/package.c:105-156 | an encoded detect request has 20 or 32 bytes and decodes to the same fields exactly when connected is 0 or 1, the family is IPv4 or IPv6 and the id fits 16 bits |
| Packets.HeaderBytes | package/package.c:24-32 | the bytes of a control header: version and command in the high and low half of the first, then the 32-bit id, least significant byte first |
| Packets.ResponseBytes | package/package.c:158-167 | the bytes of a detect response: version and type in the two halves of the first, then the address |
| Packets.RequestBytes | package/detect.h:53-60 | the bytes of a detect request, field by field at their documented places, numbers least significant byte first |
| Packets.IdCut | package/package.c:142 | a detect request with id 0x10000 decodes to id 0 |
| Packets.DisconnectedArrivesConnected | package/detect.h:27-30 | a detect request announcing a disconnected server decodes to a connected one |
| Packets.DetectRequestDecode | package/package.c:131-156 | fills the structure with the decoded fields, keeping the address bytes the packet does not carry |
| Packets.DetectResponseDecode | package/package.c:169-179 | the same for a detect response |
| Packets.ControlHeaderDecode | package/package.c:34-41 | the same for a control header |
| Packets.DetectRequestEncode | package/package.c:105-129 | writes exactly those bytes and nothing after them |
| Packets.DetectResponseEncode | package/package.c:158-167 | writes exactly those bytes and nothing after them |
| Packets.ControlHeaderEncode | package/package.c:24-32 | writes exactly those bytes and nothing after them |

## Left out

- Rings.BlockQueue.Push: one critical section; waiting, and what other threads do meanwhile, is the subject of Monitors.
- Connections.Table.Add: a table of 1024 entries is excluded; the code would write beyond its array.
- Connections.Table.Dispatch: the queue push is a returned sequence here and a step of Pipeline there; which exit check fires is a parameter.
- LogFilters.SetLevelFromString: cutting the duplicated string in place is modelled on string values, so the buffer itself, and its leak on the error returns, are not.
- LogFilters.ParseLevelString: the C locale and a 64-bit long.
- Packets.DetectRequestDecode: the nested address and the MAC are values inside the structure; packets are little-endian.
- Timed waits in push and pop: after a timed wakeup the code does not test its condition again; no caller in the repository passes a timeout.
- The loops of the udp and receive threads are steps of Pipeline rather than methods; their exit flag and thread cancellation are not modelled.
- Creating and destroying queues, locks and condition variables, lazy lock initialisation, memory allocation failure.
- Sockets, select and its descriptor sets, pipes: only their outcomes, chosen by the environment.
- Adding and deleting connections while a dispatch pass runs; in Pipeline connections are only added, between passes.
- The data race on the flag is modelled as single reads and writes in some order.
- Compacting channel lists and changing a speaker's channel: the code does not do the compaction it is meant to.
- The PCM header and the control sample, chunk and time bodies: the two sides disagree on layout or width.
- ChannelMasks.Pack: channels from 32 on, by which a 32-bit value cannot be shifted in C, are excluded.
- ChannelMasks.ListChannels: what an overrun of the 18 entries overwrites; the array is taken to be long enough.
- chunk_quality and number tests (utils.c), the rest of header_check, addresses (ip.c), log output.
