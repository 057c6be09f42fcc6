# Rosebud: a Dafny model of its driver rings, firmware and bus models

Rosebud is a framework for middleboxes on FPGAs. Most of it is RTL and glue. This project models the parts that hold
algorithms or protocols, and proves what they are for.

| file | what it models |
|---|---|
| `Ring.dfy`, `TxQueue.dfy`, `RxQueue.dfy` | the descriptor and completion rings of the mqnic driver as step machines: transmit path, polls and NIC take turns in any order |
| `RingDriver.dfy`, `RingRuns.dfy` | the driver's code on a ring as a class over an array, and its methods as runs of the machines |
| `RxLimit.dfy` | what becomes of a receive ring that is too large for the 16-bit registers |
| `Pigasus.dfy` | the firmware of the intrusion detection core: flow table, reorder set, matcher and main loop |
| `Pcg.dfy` | the PCG32 random generator and its rejection loop |
| `Axi.dfy` | the AXI master and the AXI RAM of the test benches |
| `AxisFrame.dfy` | packing and unpacking of AXI-Stream frames, and the sink's checks |
| `Timespec.dfy` | arithmetic on (seconds, nanoseconds) pairs |
| `IpMatcher.dfy` | the compiler from a prefix list to a two-level matcher, and the clocked matcher it emits |
| `Common.dfy`, `Bits.dfy`, `Lanes.dfy`, `Counting.dfy` | shared types, bits of naturals, word lanes, finite counting |

## How the model is built

**Rings.** The machines are the protocol of the C driver. Every operation takes the pointer width as a parameter: at
`Bits32` pointers wrap as in C, at `Unbounded` they are integers as in the Python test driver, whose rings share the
empty, full, index and clean-up expressions. (The Python transmit path has no full test, stop or wake, and its
completion loop has no budget and takes the index unmasked, so it is not the whole machine.) The invariant is proved of
the unbounded machine; `RunRefines` says that a 32-bit run is the projection of the unbounded run with the same actions
and the same decisions, and carries it over. Assumptions about the NIC are the guards of its two steps: it fetches only
what the 16-bit head register announces, and it completes each fetched descriptor once, in any order, while the
completion ring has room. Transmit rings have up to 2^16 entries: the queue stops at half of them, so 16-bit registers
tell full from empty. Receive and completion rings have up to 2^15. A receive ring of 2^16 is filled at once and then
looks empty to the NIC: `RxLimit.NeverReceives` shows that it never receives anything. `MqnicRing` is the driver's
struct with its slot array updated in place; each method is proved equal to a function on the ring, and `RingRuns`
shows that function to be a run of the machine.

**Firmware.** `Firmware` keeps the globals, contexts and flow table as fields. `Snapshot` gives them as a value, and
every method is proved to take it to a function of the value before: `AfterPass` for a pass, `AfterRun` for any number
of them. `Valid` is the invariant of every run: the bitmap holds exactly the parked slots and the counter is their
number, at most `REORDER_LIMIT + 1`; every arrival of a slot was answered by one send or the slot is still held; and a
log of what was fed to and finished by the matcher accounts for the expected sequence numbers in the flow table. The
load balancer reissues a slot only after it was sent back, and the matcher speaks only of slots it holds: other inputs
are ignored.

**Integers** are unbounded in Dafny. Wrap-around of `u32`, `uint64_t` and the 16-bit registers is written out. C's
truncating division is `TDiv`. Preconditions of the timespec operations exclude signed overflow of `long` (64 bits),
which C leaves undefined, and nothing else.

**Properties that do not hold as one would wish**, with the exact condition:

- `timespec_mod` is the floored modulus except when the divisor, shifted as far as the loop lets it, is still too
  small: the shift stops at half of `LONG_MAX` seconds. `Timespec.Mod` says that the result is right if and only if
  `Saturates` is false; `Timespec.SaturatedMod` gives an input and its wrong result, and `Timespec.SmallNeverSaturates` shows that
  dividends below `LONG_MAX - 1` seconds are safe.
- The window for early segments does not wrap at the end of the sequence space: `Pigasus.EarlyExactly`.
- Payloads of a flow are contiguous if at most one is in the matcher at a time. A duplicate that arrives while the
  first copy is in the matcher is fed again: `Pigasus.DuplicateNotContiguous` gives the packets. With a matcher that
  keeps the order of a flow, `Pigasus.ContiguousIff` has the exact condition for each payload.
- The IP compiler drops a nine-bit prefix that a longer listed prefix extends, and prints ERROR:
  `IpMatcher.Generate` states both what it answers and what it drops.
- A frame comes back from parse unchanged if and only if every word fits its lane: `AxisFrame.RoundTrip`.
- A transfer to the AXI RAM fails if and only if a word of it runs over the end of a memory that does not consist of
  whole words: `Axi.Write`, `Axi.Read` and `Axi.ReachableBytes`.
- The generator has full period if and only if the increment is odd: `Pcg.FullPeriodIff`.

## Model

| member | source | states |
|---|---|---|
| Ring.FillKeeps | host_utils/driver/mqnic/mqnic_tx.c:506-507 | the slot at the head is empty whenever the ring has room, and filling it keeps the ring invariant |
| Ring.WriteHeadKeeps | host_utils/driver/mqnic/mqnic_tx.c:165-168 | after the doorbell the NIC sees exactly the driver's head through 16 bits |
| Ring.ReadTailKeeps | host_utils/driver/mqnic/mqnic_tx.c:160-163 | adding the masked difference recovers the NIC's true tail, after any number of wraps |
| Ring.ReadCqHeadKeeps | host_utils/driver/mqnic/mqnic_cq.c:144-147 | the same for the completion head |
| Ring.RegisterRecovers | host_utils/driver/mqnic/mqnic_rx.c:160-163 | a pointer less than 2^16 behind is recovered by the masked difference |
| Ring.PopCplKeeps | host_utils/driver/mqnic/mqnic_tx.c:241-266 | the next completion names a slot that holds a buffer, the slot of the position completed, whatever the order of completion |
| Ring.CleanKeeps | host_utils/driver/mqnic/mqnic_tx.c:276-288 | the clean-up passes only positions whose completion was taken |
| Ring.CleanStops | host_utils/driver/mqnic/mqnic_rx.c:368-383 | the clean-up stops exactly at the first position not taken, or at the tail |
| Ring.PublishKeeps | host_utils/driver/mqnic/mqnic_tx.c:290-291 | publishing the clean tail gives back only empty slots |
| Ring.FetchKeeps | host_utils/driver/mqnic/mqnic_tx.c:165-168 | a NIC that compares 16-bit pointers fetches only announced descriptors |
| Ring.CompleteKeeps | host_utils/driver/mqnic/mqnic_cq.c:134-152 | a completion never overwrites one that was not taken yet |
| Ring.WriteCqTailKeeps | host_utils/driver/mqnic/mqnic_cq.c:149-152 | after the write the NIC has back every completion the driver took |
| Ring.RoomToComplete | host_utils/driver/mqnic/mqnic_cq.c:149-152 | with every completion taken and given back, any fetched descriptor can be completed |
| Ring.UsedRefines | host_utils/driver/mqnic/mqnic_tx.c:150-158 | occupancy and the empty test agree on wrapped and unbounded pointers |
| Ring.PopCplRefines | host_utils/driver/mqnic/mqnic_tx.c:241-266 | the completion loop stops alike and takes the same slots on wrapped and unbounded pointers |
| Ring.CleanRefines | fpga_src/lib/corundum/tb/mqnic.py:890-903 | every decision of the clean-up loop agrees on wrapped and unbounded pointers |
| Ring.HeldTake | host_utils/driver/mqnic/mqnic_tx.c:170-189 | emptying a slot takes exactly its buffer out of the ring |
| TxQueue.EnqueueKeeps | host_utils/driver/mqnic/mqnic_tx.c:413-507 | the transmit path meets an empty slot whenever the queue is not stopped, and keeps the invariant |
| TxQueue.XmitStepKeeps | host_utils/driver/mqnic/mqnic_tx.c:511-544 | test, stop, doorbell, second test and wake each keep the invariant, with any step of the others in between |
| TxQueue.PollStepKeeps | host_utils/driver/mqnic/mqnic_tx.c:211-303 | each step of the completion poll keeps the invariant, a late wake included |
| TxQueue.StepKeeps | host_utils/driver/mqnic/mqnic_tx.c:211-553 | every step of every actor keeps occupancy bounds, the pending wake and the account of buffers |
| TxQueue.StepRefines | host_utils/driver/mqnic/mqnic_tx.c:150-168 | a step on 32-bit pointers is the projection of the step on unbounded pointers |
| TxQueue.RunRefines | host_utils/driver/mqnic/mqnic_tx.c:211-553 | the same actions are possible on wrapped and on unbounded pointers and lead to projected states, for every run |
| TxQueue.EveryRunSafe | host_utils/driver/mqnic/mqnic_tx.c:211-553 | in every run of the C driver: at most half the ring plus one in use, no slot overwritten, every completion finds its skb, every skb freed once or held once, no wakeup lost, completions given back outside the completion loop, the clean tail at the first busy slot, both registers read back truly |
| TxQueue.RestingQueueNotStuck | host_utils/driver/mqnic/mqnic_tx.c:296-300 | when both threads rest, a stopped queue means a ring at least half full |
| RxQueue.CqStepKeeps | host_utils/driver/mqnic/mqnic_rx.c:296-358 | a receive completion never meets a null page |
| RxQueue.RefillStepKeeps | host_utils/driver/mqnic/mqnic_rx.c:201-264 | refilling never meets a slot that still has a page, also after failed allocations |
| RxQueue.StepKeeps | host_utils/driver/mqnic/mqnic_rx.c:201-389 | every step of the poll and the NIC keeps the receive invariant |
| RxQueue.MissingRefines | host_utils/driver/mqnic/mqnic_rx.c:249-252 | the wrapped count of missing descriptors is the true one |
| RxQueue.StepRefines | host_utils/driver/mqnic/mqnic_rx.c:201-389 | a step on 32-bit pointers is the projection of the step on unbounded pointers |
| RxQueue.RunRefines | host_utils/driver/mqnic/mqnic_rx.c:201-389 | 32-bit receive runs are projections of unbounded ones with the same actions |
| RxQueue.EveryRunSafe | host_utils/driver/mqnic/mqnic_rx.c:201-389 | in every run: no page overwritten or missed, each page delivered once or still held, the clean-up stops at the first busy slot or the tail, pages announced outside a refill, completions given back outside the completion loop, both registers read back truly |
| RxLimit.NeverReceives | host_utils/driver/mqnic/mqnic_rx.c:247-264 | with 2^16 entries the first refill posts all of them, and from then on no run fetches a descriptor or changes the ring |
| RingDriver.MqnicRing.ReadTailPtr | host_utils/driver/mqnic/mqnic_tx.c:160-163 | on a ring that stands for an unbounded one, the field becomes the NIC's true tail modulo 2^32 |
| RingDriver.MqnicRing.CqReadHeadPtr | host_utils/driver/mqnic/mqnic_cq.c:144-147 | on a ring that stands for an unbounded one, the field becomes the true number of completions modulo 2^32 |
| RingDriver.MqnicRing.ProcessCpls | host_utils/driver/mqnic/mqnic_tx.c:241-270 | the loop takes exactly the completions pending, up to the budget, and says how many; freed and held buffers together stay the same |
| RingDriver.MqnicRing.CleanTail | host_utils/driver/mqnic/mqnic_tx.c:276-291 | the loop terminates under wrap-around and publishes where the clean-up stops, at the tail or a busy slot |
| RingDriver.MqnicRing.ProcessTxCq | host_utils/driver/mqnic/mqnic_tx.c:211-303 | the whole poll: new ring, number of completions taken, their register written, buffers conserved, a stopped queue stays stopped exactly while half the ring is in use |
| RingDriver.MqnicRing.StartXmit | host_utils/driver/mqnic/mqnic_tx.c:413-553 | the transmit path with its drop, doorbell and second test, given the clean tail published meanwhile; the queue stops exactly when half the ring is in use at both tests; the skb is freed or, in an empty slot, added to what the ring holds |
| RingDriver.MqnicRing.FreeDesc | host_utils/driver/mqnic/mqnic_tx.c:170-189 | one slot is emptied and its buffer freed once |
| RingDriver.MqnicRing.FreeBuf | host_utils/driver/mqnic/mqnic_tx.c:191-209 | the drain frees every buffer still held, once, and leaves all slots empty and the pointers zero |
| RingDriver.MqnicRing.ProcessRxCpls | host_utils/driver/mqnic/mqnic_rx.c:296-358 | the receive loop with its budget, null page and missing skb exits; pages conserved |
| RingDriver.MqnicRing.Refill | host_utils/driver/mqnic/mqnic_rx.c:247-264 | nothing below eight missing descriptors; with pages for all that are missing a full and announced ring; else fill until an allocation fails; the ring holds the pages posted in addition |
| RingDriver.MqnicRing.ProcessRxCq | host_utils/driver/mqnic/mqnic_rx.c:266-389 | the whole receive poll as a function of the ring, with the completion register written; one page handed up per packet done, and pages handed up and held grow by those posted |
| RingDriver.RefillFills | host_utils/driver/mqnic/mqnic_rx.c:247-264 | a refill that has the pages fills and announces the ring |
| RingRuns.PollEffectIsRun | host_utils/driver/mqnic/mqnic_tx.c:211-303 | what the poll's code computes is what its steps in the machine bring about, wake included |
| RingRuns.PollKeepsInv | host_utils/driver/mqnic/mqnic_tx.c:211-303 | the poll's code, started on the 32-bit image of a good unbounded ring, ends on the image of a good one |
| RingRuns.XmitIsRun | host_utils/driver/mqnic/mqnic_tx.c:506-544 | the transmit code is a run of the machine, with or without a clean tail published before the second test |
| RingRuns.XmitKeepsInv | host_utils/driver/mqnic/mqnic_tx.c:413-553 | the transmit code fills an empty slot and ends on the image of a good ring that accounts for the skb |
| RingRuns.RxPollIsRun | host_utils/driver/mqnic/mqnic_rx.c:266-389 | what the receive poll's code computes is a run of the receive machine |
| RingRuns.RxPollKeepsInv | host_utils/driver/mqnic/mqnic_rx.c:266-389 | the receive poll's code keeps to images of good unbounded rings |
| RingRuns.PollReopens | host_utils/driver/mqnic/mqnic_tx.c:241-270 | after a poll whose budget covers what was completed, the NIC can complete every descriptor it has fetched |
| RingRuns.PollCleans | host_utils/driver/mqnic/mqnic_tx.c:273-291 | when the NIC has completed all it fetched, one poll cleans the ring up to there |
| RingRuns.RxPollReopens | host_utils/driver/mqnic/mqnic_rx.c:296-362 | after a receive poll with the budget and the skbs, the NIC can complete every descriptor it has fetched |
| RingRuns.RxPollCleans | host_utils/driver/mqnic/mqnic_rx.c:364-383 | when the NIC has completed all it fetched, one receive poll cleans the ring up to there |
| Pigasus.HardwareAgrees | fpga_src/accel/pigasus_sme/HLS_test/hdr_parser.cc:11-35 | the hardware parser and the firmware classify every packet alike |
| Pigasus.EarlyExactly | fpga_src/accel/pigasus_sme/c/pigasus.c:223-233 | early means at most 30000 ahead modulo 2^32, and only where the window does not wrap |
| Pigasus.FifoState | fpga_src/accel/pigasus_sme/c/pigasus.c:329-352 | with a matcher that keeps a flow's order, the payload fed last is the youngest in there or, with none, is where the flow stands |
| Pigasus.SerialIsFifo | fpga_src/accel/pigasus_sme/c/pigasus.c:329-352 | one payload at a time is finished in order |
| Pigasus.ContiguousIff | fpga_src/accel/pigasus_sme/c/pigasus.c:223-227 | with a matcher that keeps a flow's order: an in-order payload continues the one fed before it if and only if nothing of the flow is in the matcher, or the youngest in there ends where the flow stands |
| Pigasus.Contiguous | fpga_src/accel/pigasus_sme/c/pigasus.c:182-261 | with one payload in the matcher at a time, all payloads between restarts are contiguous, segments released from the reorder set included |
| Pigasus.LogFresh | fpga_src/accel/pigasus_sme/c/pigasus.c:334-336 | after the end of a connection its entry is fed only at a restart or out of the reorder set |
| Pigasus.DuplicateNotContiguous | fpga_src/accel/pigasus_sme/c/pigasus.c:223-227 | the same segment in two slots of a live flow: the firmware feeds both, and the second does not continue the first |
| Pigasus.TableFeed | fpga_src/accel/pigasus_sme/c/pigasus.c:250-261 | feeding a payload at the expected number keeps the account between log, flow table and matcher |
| Pigasus.TableDone | fpga_src/accel/pigasus_sme/c/pigasus.c:329-352 | finishing a payload moves its flow to the payload's end and keeps the account |
| Pigasus.EmptyMask | fpga_src/accel/pigasus_sme/c/pigasus.c:486-486 | the bitmap is zero if and only if no slot is parked |
| Pigasus.MaskReset | fpga_src/accel/pigasus_sme/c/pigasus.c:442-443 | masking with the complement of a slot's bit removes that slot and no other |
| Pigasus.NextMask | fpga_src/accel/pigasus_sme/c/pigasus.c:490-490 | the shifted scan mask is the bit of the next slot as long as there is one |
| Pigasus.Firmware.constructor | fpga_src/accel/pigasus_sme/c/pigasus.c:404-463 | the initial state satisfies the invariant |
| Pigasus.Firmware.RxPacket | fpga_src/accel/pigasus_sme/c/pigasus.c:133-290 | every packet meets exactly one outcome (dropped, to the host, fed, parked), with the whole new state, and the invariant stays |
| Pigasus.ArriveCases | fpga_src/accel/pigasus_sme/c/pigasus.c:133-290 | by cases of packet and flow entry: what is sent, fed, logged and parked, with the constants of the source |
| Pigasus.ArriveContext | fpga_src/accel/pigasus_sme/c/pigasus.c:144-261 | the context an arrival leaves in its slot, and in no other |
| Pigasus.Firmware.ParkSlot | fpga_src/accel/pigasus_sme/c/pigasus.c:233-246 | the bit is raised, the counter still equals the number of parked slots |
| Pigasus.Firmware.SlotMatch | fpga_src/accel/pigasus_sme/c/pigasus.c:292-365 | the loop counts the rules matched before the first end of packet, then finishes that packet with its count |
| Pigasus.Firmware.Finish | fpga_src/accel/pigasus_sme/c/pigasus.c:311-357 | the slot is sent back once; the flow entry continues after the payload (a SYN counts one), is clean after FIN, keeps bit 7 after a match, and no other entry changes |
| Pigasus.FlowWritten | fpga_src/accel/pigasus_sme/c/pigasus.c:329-352 | the fields of a flow entry after a finished packet, by cases of FIN, matches and SYN |
| Pigasus.TallyStep | fpga_src/accel/pigasus_sme/c/pigasus.c:301-310 | a matched rule adds one to its own slot's count and marks it for the host |
| Pigasus.Firmware.ProcessReorder | fpga_src/accel/pigasus_sme/c/pigasus.c:367-402 | a parked segment is fed if its turn has come, dropped if it waited too long, else left as it was |
| Pigasus.JudgeCases | fpga_src/accel/pigasus_sme/c/pigasus.c:367-402 | a parked segment is fed if due, dropped after 3000 ticks, else left, with the fields that change |
| Pigasus.Firmware.Scan | fpga_src/accel/pigasus_sme/c/pigasus.c:486-500 | one step of the scan looks at its slot if and only if it is parked, and moves on if and only if any slot is parked; the whole new state |
| Pigasus.Firmware.Pass | fpga_src/accel/pigasus_sme/c/pigasus.c:465-501 | the whole state after a pass, for any arrival and any matcher outputs: what it sent, fed and accepted, and nothing taken back; the invariant stays |
| Pigasus.Firmware.Run | fpga_src/accel/pigasus_sme/c/pigasus.c:465-501 | any number of passes: the invariant and the whole state, sends and feeds only added, each slot arrived as often as accepted, contiguous payloads in every flow that was serial, restarts after FIN, and a parked slot looked at within slot_count passes |
| Pigasus.RunFromReset | fpga_src/accel/pigasus_sme/c/pigasus.c:404-501 | from reset: accepted arrivals of each slot equal its sends plus one if it is held, at most 17 slots are parked, every slot rests in one place, serial flows are contiguous, restarts after FIN |
| Pigasus.PassExtends | fpga_src/accel/pigasus_sme/c/pigasus.c:465-501 | a pass takes back nothing sent or fed, counts an arrival exactly when it accepts one, and unparks no slot before its scan |
| Pigasus.RunExtends | fpga_src/accel/pigasus_sme/c/pigasus.c:465-501 | the same over any number of passes |
| Pigasus.KeptParked | fpga_src/accel/pigasus_sme/c/pigasus.c:486-500 | a parked slot is looked at when the scan is there, else stays parked while the scan moves on |
| Pigasus.PassArrives | fpga_src/accel/pigasus_sme/c/pigasus.c:465-480 | a pass that finds a packet and nothing else handles that packet |
| Pigasus.PassFinishes | fpga_src/accel/pigasus_sme/c/pigasus.c:482-485 | an end of packet sends its slot back in that pass, with its matches counted and its flow written |
| Pigasus.PassJudges | fpga_src/accel/pigasus_sme/c/pigasus.c:486-488 | the slot that the scan looks at is judged, and nothing else happens to it |
| Pcg.IterPow2 | riscv_code/pcg_basic.c:60-63 | 2^k steps of the generator together are one affine map whose multiplier is 1 modulo 2^(k+2) and whose constant is an odd multiple of 2^k |
| Pcg.NoShortCycle | riscv_code/pcg_basic.c:60-63 | with an odd increment no state recurs in fewer than 2^64 steps |
| Pcg.FullPeriod | riscv_code/pcg_basic.c:60-63 | the orbit of any state visits every state exactly once |
| Pcg.FullPeriodIff | riscv_code/pcg_basic.c:42-63 | every state reaches every state if and only if the increment is odd |
| Pcg.RotateInjective | riscv_code/pcg_basic.c:64-66 | a rotation by a known amount can be undone |
| Pcg.OutputBit | riscv_code/pcg_basic.c:64-66 | bit i of a draw compares two bits of the state, 18 apart, chosen by i and the top five bits |
| Pcg.OutputAndKeyDetermine | riscv_code/pcg_basic.c:60-67 | output, rotation bits and low bits together determine the state |
| Pcg.PreimageSize | riscv_code/pcg_basic.c:60-67 | every output value comes from exactly 2^32 states |
| Pcg.ThresholdIsRemainder | riscv_code/pcg_basic.c:95-95 | the 32-bit expression is 2^32 mod bound |
| Pcg.AcceptedSize | riscv_code/pcg_basic.c:104-107 | every residue has the same number of accepted raw values |
| Pcg.Uniform | riscv_code/pcg_basic.c:79-109 | over a full period every residue is drawn exactly 2^32 * (2^32 / bound) times |
| Pcg.OddIncrement | riscv_code/pcg_basic.c:45-45 | the seeded increment is odd for every sequence number |
| Pcg.Generator.constructor | riscv_code/pcg_basic.c:42-49 | seeding gives an odd increment and one step from the seed added to it |
| Pcg.Generator.Random | riscv_code/pcg_basic.c:60-67 | every bit of the draw in terms of the old state, and one step of the 64-bit recurrence |
| Pcg.Generator.BoundedRandom | riscv_code/pcg_basic.c:79-109 | the rejection loop terminates for every state and bound, and returns the first draw not below 2^32 mod bound, modulo the bound |
| Axi.BurstLengthBounds | fpga_src/lib/axi/tb/axi.py:304-305 | a burst has 1 to 256 beats, at most the limit, stays in its 4 KB page (section A3.4.1 of ARM IHI 0022), and stops short only at the end of the transfer, the limit or the page |
| Axi.TileAppend | fpga_src/lib/axi/tb/axi.py:301-316 | appending a burst where the last one ended keeps the tiling of the transfer |
| Axi.StrobeBit | fpga_src/lib/axi/tb/axi.py:294-294 | the strobe expression selects exactly the lanes from start up to stop |
| Axi.FillBeat | fpga_src/lib/axi/tb/axi.py:294-299 | the beat's word holds the bytes in their lanes under the strobe |
| Axi.WriteData | fpga_src/lib/axi/tb/axi.py:285-320 | beat k carries exactly the bytes of the transfer that fall into it |
| Axi.MasterWrite | fpga_src/lib/axi/tb/axi.py:255-323 | bursts tile the transfer, each as long as limit, page and transfer allow; last is set exactly on final beats; every beat carries its bytes |
| Axi.MasterRead | fpga_src/lib/axi/tb/axi.py:425-471 | the read splitter, with its other counter, tiles the transfer with bursts as long as allowed as well |
| Axi.StrobedIsStore | fpga_src/lib/axi/tb/axi.py:740-750 | writing a word under its strobe stores exactly the bytes it holds |
| Axi.WriteBeatsEffect | fpga_src/lib/axi/tb/axi.py:735-774 | the beats of a transfer together store its bytes from the first address on |
| Axi.Ram.WriteBurst | fpga_src/lib/axi/tb/axi.py:717-774 | a burst is accepted if and only if its size fits the bus, from its aligned address it stays in its page, last is where it should be and no word runs over the end; then memory is its beats' effect |
| Axi.Ram.ServeWrites | fpga_src/lib/axi/tb/axi.py:717-774 | the bursts a master issues trip no assertion, fail only at the end of memory, and have the effect of their beats in sequence |
| Axi.Ram.ReadBurst | fpga_src/lib/axi/tb/axi.py:838-881 | a burst is answered if and only if its size fits the bus, from its aligned address it stays in its page and no word runs over the end; beat by beat with the words of memory |
| Axi.StoreFrame | fpga_src/lib/axi/tb/axi.py:738-750 | bytes outside the range keep their value |
| Axi.LoadAfterStore | fpga_src/lib/axi/tb/axi.py:717-881 | loading what was stored gives the data back, and nothing else changed |
| Axi.Write | fpga_src/lib/axi/tb/axi.py:255-774 | a write of any address, length, size and burst limit changes exactly its bytes; it fails if and only if a word of it runs over the end of the memory |
| Axi.ReachableBytes | fpga_src/lib/axi/tb/axi.py:740-757 | which words a transfer needs depends on its bytes only, not on the size of its beats |
| Axi.WholeReachable | fpga_src/lib/axi/tb/axi.py:740-757 | no transfer fails in a memory of whole words |
| Axi.ReadData | fpga_src/lib/axi/tb/axi.py:515-532 | each read beat appends exactly its bytes of the range |
| Axi.Read | fpga_src/lib/axi/tb/axi.py:425-541 | a read returns exactly the bytes of the range; it fails if and only if a word of it runs over the end of the memory |
| Axi.WriteThenRead | fpga_src/lib/axi/tb/axi.py:255-881 | what was written is read back, also with another size and burst limit |
| AxisFrame.RoundTrip | fpga_src/lib/axis/tb/axis_ep.py:82-175 | parse of build is the data if and only if every word fits its lane |
| AxisFrame.ParsedFit | fpga_src/lib/axis/tb/axis_ep.py:141-175 | parse only ever yields words that fit |
| AxisFrame.Frame.Build | fpga_src/lib/axis/tb/axis_ep.py:82-139 | the packed beats, the keep masks made or given, and the sidebands beat by beat with the last user signal; fails exactly where a list is too short |
| AxisFrame.Frame.Parse | fpga_src/lib/axis/tb/axis_ep.py:141-175 | the kept words in order and the sidebands; fails exactly on lists of unequal length and on no beats |
| AxisFrame.SendAndReceive | fpga_src/lib/axis/tb/axis_ep.py:82-175 | a frame through build and parse: received unless empty or a sideband is too short, data unchanged if and only if it fits, sidebands beat by beat |
| AxisFrame.Contiguous | fpga_src/lib/axis/tb/axis_ep.py:487-495 | the two shift loops accept a mask if and only if its set bits are one run |
| AxisFrame.CheckFrame | fpga_src/lib/axis/tb/axis_ep.py:484-501 | the sink accepts a frame if and only if no beat has a gap within or across cycles |
| AxisFrame.AcceptedIsOneRun | fpga_src/lib/axis/tb/axis_ep.py:484-501 | the checks beat by beat accept exactly the frames whose kept lanes, over all beats, are one run |
| AxisFrame.BuiltAcceptable | fpga_src/lib/axis/tb/axis_ep.py:82-139 | every frame that build makes passes the sink's checks (byte qualifiers, section 2.4 of ARM IHI 0051) |
| Timespec.NormalIsCanonical | host_utils/runtime/timespec.c:319-353 | a normalised pair is the only one with its value |
| Timespec.Normalise | host_utils/runtime/timespec.c:319-353 | the value is kept and the result is the canonical pair |
| Timespec.Add | host_utils/runtime/timespec.c:70-82 | addition is exact on nanoseconds |
| Timespec.Sub | host_utils/runtime/timespec.c:87-99 | subtraction is exact on nanoseconds |
| Timespec.ComparatorsAreOrder | host_utils/runtime/timespec.c:197-232 | the five comparators are the numeric order on normalised pairs |
| Timespec.ShiftAbove | host_utils/runtime/timespec.c:141-151 | the first loop doubles the divisor until it exceeds the dividend or the shift limit stops it |
| Timespec.Reduce | host_utils/runtime/timespec.c:155-174 | the second loop leaves the remainder, or what is left over when the shift fell short |
| Timespec.Mod | host_utils/runtime/timespec.c:104-192 | the result is the floored modulus if and only if the shift does not saturate; a zero divisor returns the normalised dividend |
| Timespec.FlooredModLaw | host_utils/runtime/timespec.c:104-192 | the modulus meant: congruent to the dividend, smaller than the divisor, and of its sign |
| Timespec.SmallNeverSaturates | host_utils/runtime/timespec.c:104-192 | dividends below LONG_MAX - 1 seconds never saturate |
| Timespec.SaturationExample | host_utils/runtime/timespec.c:141-151 | an input for which the shift saturates |
| Timespec.SaturatedMod | host_utils/runtime/timespec.c:104-192 | LONG_MAX seconds modulo half of it: the result is not the floored modulus |
| Timespec.FromMs | host_utils/runtime/timespec.c:286-294 | the pair is normalised and stands for that many milliseconds, negative ones too |
| Timespec.ToMsTruncates | host_utils/runtime/timespec.c:299-302 | conversion to milliseconds truncates the value toward zero |
| Timespec.MsRoundTrip | host_utils/runtime/timespec.c:286-302 | milliseconds survive the way there and back |
| IpMatcher.SortByLength | fpga_src/accel/ip_matcher/python/ip_match_generator.py:40-40 | longest first, same prefixes |
| IpMatcher.SortIsStable | fpga_src/accel/ip_matcher/python/ip_match_generator.py:40-40 | the sort keeps every prefix as often as listed, and equal lengths in their order |
| IpMatcher.Splitter | fpga_src/accel/ip_matcher/python/ip_match_generator.py:39-58 | what goes into the first level, the second level and the error output, exactly, for prefixes of any length |
| IpMatcher.EmitTable | fpga_src/accel/ip_matcher/python/ip_match_generator.py:60-75 | a table has the width of its longest tail and one padded pattern per tail |
| IpMatcher.LookupIsPrefix | fpga_src/accel/ip_matcher/python/ip_match_generator.py:65-69 | a table matches if and only if some tail is a prefix of the bits it sees |
| IpMatcher.AnswerIsCovered | fpga_src/accel/ip_matcher/python/ip_match_generator.py:102-114 | the two levels together answer whether a listed prefix, not dropped, covers the address |
| IpMatcher.Generate | fpga_src/accel/ip_matcher/python/ip_match_generator.py:39-114 | compilation preserves meaning for every list and address; the dropped prefixes are characterised |
| IpMatcher.QueryRun | fpga_src/accel/ip_matcher/python/ip_match_generator.py:116-128 | after a valid pulse, from any register state and with any addresses, what done and match hold at every later edge |
| IpMatcher.HeldQuery | fpga_src/accel/ip_matcher/python/ip_match_generator.py:116-128 | two edges after the pulse, with the address held, done is set and match is the answer, until the next pulse |
| IpMatcher.QuietAfterReset | fpga_src/accel/ip_matcher/python/ip_match_generator.py:122-126 | a reset clears the answer, and nothing is done until the next query |

## Left out

- mqnic event ring (mqnic_eq.c): the same pointer protocol as the completion ring, and a loop that only calls handlers.
- mqnic kernel, DMA, PCI, PTP, ethtool and ioctl plumbing; mapping and allocation are inputs that succeed or fail.
- mqnic contents of descriptors and completions other than the index: lengths, checksums and timestamps.
- mqnic port restart: one port-up period, from empty rings; `FreeBuf` covers the drain at its end.
- mqnic memory ordering: steps interleave, but each sees the effects of all earlier ones; barriers are not modelled.
- RingDriver.MqnicRing.StartXmit: runs in one go except for the clean tail published meanwhile; full interleaving is in TxQueue.
- RingDriver.MqnicRing.ProcessTxCq: runs in one go; full interleaving with the transmit path and the NIC is in TxQueue.
- RingDriver.MqnicRing.ProcessRxCq: runs in one go; full interleaving with the NIC is in RxQueue.
- Pigasus rule ids appended to the packet, packet data, DMA addresses and port numbers other than the mark for the host.
- Pigasus.Firmware.SlotMatch: the order in which the matcher works is an input; that it returns every packet is not modelled.
- Pigasus contexts and flow table are sequences that are reassigned, not arrays.
- Pigasus variants pigasus2.c and pigasus3.c, and the other firmware programs: straight-line packet handling.
- PCG global generator, and statistical quality beyond exact uniformity.
- AXI FIXED and WRAP bursts, transfer ids, response codes and user signals.
- AXI clocking, pauses and several operations in flight: a master's queues are handed to the RAM as values, in order.
- AXI addresses above 2^53, where the source's `int(a/b)` on floating-point quotients rounds: the model divides integers.
- AXI-Stream frames with several data signals.
- Timespec conversions from and to double and timeval; signed overflow.
- IpMatcher.Generate: takes prefixes of nine bits and more; for shorter ones the generator writes a table of width zero under a case label that is too short, whose Verilog is not modelled.
- IpMatcher text of the Verilog: tables are data.
- Test benches, wrappers, report parsers, host utilities and all RTL.
