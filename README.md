# Priority switch port with pause/resume checkpoints: a Dafny model

This project models the output port of the lossless pFabric simulator. The port is a byte-limited queue kept in ascending priority order. It is served from the high-priority end and evicts from the low-priority end. When pause is enabled, the port also runs a *checkpoint ladder*: a sorted list of byte thresholds with two live indices, `prev` and `next`. When the occupancy crosses a threshold, the ladder sends delayed pause or resume signals to the upstream port. The upstream port keeps the received pause levels on a stack and stops serving packets whose priority is not above the top level.

The model also covers the experiment script's construction of the ladder:

- a sentinel entry at -1 and an entry at the byte limit;
- a Resume entry for every even-indexed packet threshold and a Pause entry for every odd-indexed one, each scaled by the packet size;
- a stable sort by threshold;
- the wiring of the ladder, link delay and upstream port into the second switch.

Modules, one per file:

- `Wrappers` (wrappers.dfy): `Option`.
- `Packets` (packet.dfy):
  - the packet record and its priority-only ordering;
  - the byte total `Sum`;
  - `bisect.insort_left` as a function `InsortLeft`;
  - `DropCount`, the number of head packets the drop-tail loop removes;
  - the ghost `InsertionOrder` invariant, which records the insertion ordinal of each queued packet so that FIFO order within a priority can be stated.
- `Checkpoints` (checkpoint.dfy): the checkpoint record (`thresh`, `action`, `active`), ordered by threshold, and the count of active entries.
- `CheckpointLadder` (ladder.dfy):
  - the ladder as a value;
  - the HRP (highest remaining priority) scan, both as the loop method `Hrp` and as its specification `HrpSpec`;
  - the transitions `StepDown`, `StepUp`, `AfterPut` and `AfterSend`;
  - the ladder invariant `Inv` and the lemmas that each transition preserves it;
  - the delivery of signals to the upstream stack, and the agreement `Consistent` between this port's `pause_sent` and the upstream `pause_rec` once in-flight signals are delivered.
  - the predicate `Levels` (every asserted pause level is at least 0) and the lemmas that it holds on a ladder whose thresholds above the sentinel are non-negative. On a ladder with a negative threshold above the sentinel, `put` can send a pause at level -1: the HRP of an empty queue. The trace then reports -1 while a pause is asserted.
- `SwitchPort` (switch_port.dfy): the class `PrioritySwitchPort`. Its fields are updated in place by:
  - `Put`, built from `Insert` and, under a byte limit, `Trim`: `Evict` (through the loop method `DropHeads`), then `LadderPut` and `CheckLadder`;
  - `SendPkt`, built from `PopTail` and the downward check;
  - `ServeStep`, one pass of the service loop;
  - `DeliverSignal`, the delayed effect of one pause/resume signal on the upstream port.
- `Monitor` (monitor.dfy): the values of one monitor sample, without the file writing.
- `Generate` (generate.dfy):
  - `BuildLadder`, with its two loops and the sort;
  - the proofs that the sorted ladder is well formed, is a permutation of the built entries, and alternates Resume/Pause;
  - `Setup` and `PausePort`, which create and wire the two switch ports.

How time and events are modelled:

- Simulation time is an integer passed to each step.
- A signal sent at time `now` carries the delivery time `now + linkDelay`. It is appended to the port's `inFlight` list, oldest first.
- `DeliverSignal` applies the oldest in-flight signal. The link delay is fixed, so the signals arrive in the order they were sent.
- The event `unpause_check` is the flag `waiting`:
  - a blocked service pass sets it;
  - `put` and a delivered resume clear it.
- The `store` token count is not modelled. Except around eviction (see "Left out"), each token stands for one queued packet, so `ServeStep` requires a non-empty queue and a service loop that is not waiting.

## Model

| member | source | states |
|---|---|---|
| Packets.BisectLeft | model.py:255 | The insertion point is after every packet of strictly lower priority. In a sorted queue, every packet from it on has priority at least the new one's. |
| Packets.InsortLeft | model.py:255 | The queue grows by one. The new packet sits at the bisect point, after all lower priorities. The parts of the old queue before and after that point are unchanged. |
| Packets.InsortLeftSorted | model.py:255 | Inserting into a sorted queue keeps it sorted. The new packet precedes every queued packet of equal or higher priority. |
| Packets.InsortLeftContents | model.py:254-255 | The queue's multiset grows by exactly the new packet, and its byte total grows by exactly the packet's size. |
| Packets.InsertSorted | model.py:255 | Inserting at a point with nothing of higher priority before it and nothing of lower priority after it keeps a queue sorted, with the new packet before everything after that point. |
| Packets.InsortLeftKeepsOrder | model.py:255 | The newly inserted packet is placed left of every older packet of the same priority, so younger packets stay further left. |
| Packets.InsertKeepsOrder | model.py:255 | Inserting the newest packet after every packet of strictly lower priority keeps every ordinal below the new count and puts it left of all older packets of its priority. |
| Packets.InsortLeftOrdered | model.py:254-255 | Insertion preserves sortedness, FIFO-within-priority order and the byte-sum identity. |
| Packets.DropCount | model.py:263-268 | The drop-tail loop removes the shortest head of the queue whose removal brings the total within the limit: the remaining suffix fits, and every shorter removal would not. |
| Packets.DropOne | model.py:263-268 | One round of the eviction loop on an over-limit queue removes one drop and exactly the head's bytes. |
| Packets.SumSplit | model.py:234-235 | A queue's byte total is the sum of the totals of any prefix and the remaining suffix. |
| Packets.SumLast | model.py:234-235 | Popping the tail removes exactly its size from the total. |
| Packets.OrderedSlice | model.py:263-268 | Any contiguous part of an ordered queue is ordered, in both priority and insertion order. |
| Packets.OrderedSuffix | model.py:263-268 | Removing any head of an ordered queue leaves an ordered queue whose total is the suffix's. |
| Packets.OrderedPrefix | model.py:234-235 | Removing the tail of an ordered queue leaves it ordered, with the tail's bytes subtracted from the total. |
| Packets.TailIsOldestOfHighest | model.py:234 | The tail served by `pop()` has the highest priority in the queue, and the earliest insertion among packets of that priority. |
| Packets.HeadIsNewestOfLowest | model.py:266-268 | The evicted head has the lowest priority, and the latest insertion among packets of that priority (not the oldest). |
| Checkpoints.ActiveCountSet | model.py:276-303 | Flipping one checkpoint's `active` flag changes the active count by exactly that flag. |
| Checkpoints.ActiveCountPositive | model.py:241-245 | An active checkpoint implies at least one asserted pause. |
| CheckpointLadder.Deliver | model.py:310-318 | Defined as: a delivered pause pushes its level onto `pause_rec`; a delivered resume pops the top, and popping an empty stack (an IndexError) is None. Its properties are stated by `ApplySnoc` and `DeliverOldest`. |
| CheckpointLadder.Apply | model.py:310-318 | Defined as: the upstream stack after delivering the in-flight signals oldest first, None if one of them fails. Its properties are stated by `ApplySnoc` and `DeliverOldest`. |
| CheckpointLadder.ApplySnoc | model.py:310-318 | Scheduling one more signal changes the upstream stack, once everything is delivered, by exactly that signal's push or pop. |
| CheckpointLadder.DeliverOldest | model.py:310-318 | While the stacks agree, delivering the oldest signal never pops an empty `pause_rec`, and the stacks still agree afterwards. |
| CheckpointLadder.FirstCrossing | model.py:293-301 | Returns the first index at which the running byte total from the low end exceeds the threshold. Every earlier prefix stays within it. One exists iff the queue is non-empty and its total exceeds the threshold. |
| CheckpointLadder.HrpSpec | model.py:293-301 | The HRP is -1 iff the total never exceeds the resume threshold. Otherwise it is a priority level (at least 0). |
| CheckpointLadder.HrpOfSorted | model.py:293-301 | On a sorted queue, the HRP is the priority of the packet just before the crossing, the highest among the packets below it. When the first packet already crosses, `queue[-1]` gives the highest priority in the queue. |
| CheckpointLadder.Hrp | model.py:293-301 | The scan loop with its running `queue_size` returns exactly `HrpSpec`, including the `queue[i-1]` wrap at `i == 0`. |
| CheckpointLadder.ResumeFires | model.py:276-277 | Defined as: the downward branch sends a resume when `checkpoints[prev]` is a Resume checkpoint and `checkpoints[next]` is active. Used by `AfterPutSignals` and `AfterSendEffects`. |
| CheckpointLadder.PauseFires | model.py:287-288 | Defined as: the upward branch sends a pause when `checkpoints[next]` is an inactive Pause checkpoint. Used by `AfterPutSignals`. |
| CheckpointLadder.StepDown | model.py:273-284 | Defined as the downward branch. If a resume fires, `checkpoints[next]` is deactivated, `pause_sent` loses its top and one resume is scheduled. Both indices then move down by one. Its properties are stated by `StepDownPreserves`, `AfterPutSignals` and `AfterSendEffects`. |
| CheckpointLadder.StepUp | model.py:285-307 | Defined as the upward branch. If a pause fires, `checkpoints[next]` is activated, and the HRP over the current queue is pushed onto `pause_sent` and scheduled. Both indices then move up by one. Its properties are stated by `StepUpPreserves` and `AfterPutSignals`. |
| CheckpointLadder.AfterPut | model.py:270-307 | Defined as the ladder check of `put`: down at or below `checkpoints[prev]`, otherwise up above `checkpoints[next]`, otherwise nothing. Its properties are stated by `AfterPutEffects`, `AfterPutSignals` and `AfterPutLevels`. |
| CheckpointLadder.AfterSend | model.py:236-249 | Defined as the ladder check of `send_pkt`, which has only the downward branch. Its properties are stated by `AfterSendEffects` and `AfterSendLevels`. |
| CheckpointLadder.InitialLadder | model.py:207-208 | A well-formed ladder at indices (0, 1), with nothing asserted and nothing in flight, satisfies the ladder invariant and agrees with an empty upstream stack. |
| CheckpointLadder.PopIsSafe | model.py:276-281 | Under the invariant, both indices are in range, and a firing resume never pops an empty `pause_sent`. |
| CheckpointLadder.StepDownPreserves | model.py:273-284 | A downward move keeps the ladder invariant (so `next == prev + 1` and `prev >= 0`) and keeps the stacks in agreement. |
| CheckpointLadder.StepUpPreserves | model.py:285-307 | An upward move keeps the invariant and the agreement. A pause computed over a non-empty queue carries a level of at least 0. |
| CheckpointLadder.AfterPutEffects | model.py:270-307 | The ladder check in `put` keeps the invariant and the agreement. The bracket moves down iff occupancy is at or below `checkpoints[prev]`, up iff it is above both thresholds, and stays put iff it lies between them. |
| CheckpointLadder.AfterPutSignals | model.py:273-307 | A resume is emitted (deactivate `next`, pop `pause_sent`, schedule one message) only on a downward crossing from a Resume checkpoint below an active one. A pause at the HRP (activate, push, schedule) only on an upward crossing into an inactive Pause checkpoint. Otherwise no signal is sent and no checkpoint changes. |
| CheckpointLadder.AfterPutKeeps | model.py:270-307 | On a queue within the limit, the ladder check in `put` has both indices in range, never pops an empty `pause_sent`, and leaves the ladder satisfying the invariant and agreeing with the upstream stack. |
| CheckpointLadder.AfterSendEffects | model.py:236-249 | The check in `send_pkt` keeps the invariant and the agreement and never moves up. It moves down iff occupancy is at or below `checkpoints[prev]`, emitting a resume exactly in the Resume-below-active case, and otherwise leaves the ladder unchanged. |
| CheckpointLadder.AfterSendKeeps | model.py:236-249 | The check in `send_pkt` has its indices in range, never pops an empty `pause_sent`, and keeps the invariant and the agreement. |
| CheckpointLadder.AfterPutLevels | model.py:285-307 | When every threshold above the sentinel is non-negative, the ladder check of `put` keeps every asserted level a priority (at least 0), and the thresholds stay non-negative. A pause fires only on an occupancy above a non-negative threshold, so the HRP scan finds a crossing and never pushes -1. |
| CheckpointLadder.AfterSendLevels | model.py:236-249 | The check of `send_pkt` keeps the asserted levels and the non-negative thresholds, because it only ever pops a level. |
| CheckpointLadder.StepDownLevels | model.py:273-284 | The downward branch keeps the non-negative thresholds and the asserted levels. |
| SwitchPort.DropHeads | model.py:263-268 | The eviction loop removes exactly the `DropCount` head packets, which are the dropped list, keeps the suffix, and leaves the total at or below the limit. |
| SwitchPort.PrioritySwitchPort.constructor | model.py:189-211 | A new port is empty, with the indices at (0, 1), empty stacks and zero counters. |
| SwitchPort.PrioritySwitchPort.Wire | generate.py:32-34 | Installing a well-formed ladder, a link delay and an upstream port makes a pause port ready to run. |
| SwitchPort.PrioritySwitchPort.MoveDown | model.py:273-284 | The port's ladder fields become exactly `StepDown` of the old ladder. |
| SwitchPort.PrioritySwitchPort.MoveUp | model.py:285-307 | The port's ladder fields become exactly `StepUp` of the old ladder, with the HRP computed over the current queue. |
| SwitchPort.PrioritySwitchPort.Insert | model.py:253-258 | `packets_rec` goes up by one, the queue becomes `InsortLeft` of the old queue, the byte total grows by the packet's size, the service loop is woken, the new insertion ordinal goes in at the bisect point, and the queue stays ordered. |
| SwitchPort.PrioritySwitchPort.Evict | model.py:263-268 | Exactly the `DropCount` head packets are dropped: `packets_drop` goes up by that number, `drop_list` gets exactly those packets in order, the queue and its insertion ordinals are the rest, and the queue is ordered and within the limit. |
| SwitchPort.PrioritySwitchPort.Put | model.py:252-308 | `put` keeps the port valid. It counts every packet, even ones later dropped. With no limit, it inserts and nothing else changes. With a limit, the queue is the insertion minus the `DropCount` head, dropped packets have priority no higher than kept ones, the total is within the limit, and the ladder is `AfterPut` of the old one on a pause port. |
| SwitchPort.PrioritySwitchPort.Trim | model.py:263-308 | Under a byte limit, the drop-tail loop and the ladder check: exactly the `DropCount` head packets are dropped and recorded, each with priority no higher than any kept packet. On a pause port the ladder becomes `AfterPut` of the old one; otherwise it is unchanged. The port ends valid. |
| SwitchPort.PrioritySwitchPort.LadderPut | model.py:270-307 | On a wired pause port whose queue is within the limit, the ladder check makes the ladder `AfterPut` of the old one and leaves the port valid. |
| SwitchPort.PrioritySwitchPort.CheckLadder | model.py:270-307 | The ladder check at the end of `put`: the ladder becomes exactly `AfterPut` of the old one, over the current queue and occupancy. |
| SwitchPort.PrioritySwitchPort.SendPkt | model.py:233-250 | `send_pkt` removes and returns the tail. No queued packet had a higher priority, and every other packet of its priority arrived later. Its insertion ordinal is removed with it. The total drops by the packet's size, and the ladder becomes `AfterSend` of the old one. Nothing else changes. |
| SwitchPort.PrioritySwitchPort.PopTail | model.py:234-235 | The tail is popped, together with its insertion ordinal, and its bytes are subtracted. The popped packet has the highest priority and is the earliest inserted of its priority. The queue stays ordered and within the limit. |
| SwitchPort.PrioritySwitchPort.Gated | model.py:218-220 | Defined as: a pause has been received and the head-of-line packet's priority is not above the latest level. Its meaning is stated by `ServeStep`. |
| SwitchPort.PrioritySwitchPort.ServeStep | model.py:213-231 | If a pause is held and the tail's priority is not above its level, nothing is dequeued, the occupancy and ladder are unchanged, and the loop waits. Otherwise the tail is sent (with priority above the held level) as `SendPkt` says. |
| SwitchPort.PrioritySwitchPort.DeliverSignal | model.py:310-318 | A delivered pause pushes its level onto `back.pause_rec`. A delivered resume pops a non-empty `back.pause_rec` and wakes the upstream loop. The two ports stay consistent. |
| Monitor.PrioritySum | model.py:349-352 | A priority's share is at most the whole total: 0 when no packet has that priority, and the whole total when every packet has it. |
| Monitor.PrioritiesSum | model.py:349-352 | Defined as: the per-priority sums for priorities 0 to n - 1, added up. Related to the byte total by `PrioritiesSumAll`. |
| Monitor.Total | model.py:349-352 | Defined as: the sum of a makeup list. Related to the per-priority sums by `MakeupTotal`. |
| Monitor.PrioritiesSumAll | model.py:349-352 | When every queued priority is monitored, the per-priority shares add up to the queue's byte total. |
| Monitor.MakeupTotal | model.py:349-352 | A makeup list holding the per-priority shares totals their sum. |
| Monitor.PauseReport | model.py:361-364 | Defined as `pause_sent[-1]`, or -1 when `pause_sent` is empty; its meaning is stated by `PauseReportMeaning`. |
| Monitor.PauseReportMeaning | model.py:361-364 | On a ladder that keeps its invariant and whose asserted levels are priorities, the reported -1 means exactly that no checkpoint's pause is asserted. |
| Monitor.TakeSample | model.py:349-364 | The sample records the time, occupancy and drop count, one makeup entry per priority equal to that priority's share, and the pause report. On a valid port with every priority monitored, the makeup totals the occupancy. |
| Generate.Stride | generate.py:24-29 | Defined as: one of the two construction loops, a Resume or Pause entry for every second threshold index from `i` on. Related to the rungs by `StridesAreRungs`. |
| Generate.Unsorted | generate.py:21-29 | Defined as: the list just before the sort, made of the two fixed entries, the Resume loop's entries and then the Pause loop's entries. Its parts are `Base` (the two fixed entries, generate.py:22-23) and one `Stride` per loop, each entry built by `Rung`. Its contents are stated by `UnsortedShape` and `UnsortedContents`. |
| Generate.RungsFrom | generate.py:24-29 | The ordered rungs: one entry per threshold index, holding the scaled threshold, the alternating action, and inactive. |
| Generate.StridesAreRungs | generate.py:24-29 | The even-index loop and the odd-index loop together produce every rung exactly once. |
| Generate.UnsortedShape | generate.py:21-29 | Before sorting, the list starts with the sentinel at -1 and the entry at the byte limit, and nothing is active. |
| Generate.UnsortedContents | generate.py:21-29 | Before sorting, the list holds the two fixed entries and every rung exactly once. |
| Generate.InsertByThresh | generate.py:31 | Insertion adds exactly one entry. |
| Generate.InsertByThreshSorted | generate.py:31 | Insertion keeps a list non-decreasing by threshold. |
| Generate.SortByThresh | generate.py:31 | The sorted list is a permutation of the input and is non-decreasing by threshold. |
| Generate.LeastFirstStaysFirst | generate.py:31 | The sort is stable at the front: a least first entry stays first. |
| Generate.InsertByThreshTies | generate.py:31 | One insertion puts the new entry ahead of every entry with the same threshold and leaves the other entries with that threshold in order. |
| Generate.SortByThreshStable | generate.py:31 | The sort is stable: for every threshold, the entries holding it appear in the sorted list in the order they had before sorting. |
| Generate.ActionedPermutation | generate.py:24-31 | Permuted lists have permuted Resume/Pause entries. |
| Generate.ActionedSorted | generate.py:31 | Leaving out the action-less entries keeps a sorted list sorted. |
| Generate.SortedUnique | generate.py:24-31 | A non-decreasing list with the same elements as a strictly increasing list is that list. |
| Generate.SameLeast | generate.py:31 | A non-decreasing list and a strictly increasing list with the same elements start with the same entry. |
| Generate.TailsAgree | generate.py:31 | Dropping that common first entry leaves a non-decreasing list and a strictly increasing one with the same elements. |
| Generate.SortedActionedIsRungs | generate.py:24-31 | For strictly increasing thresholds and a positive packet size, the sorted ladder without its two action-less entries is exactly the rungs in index order. |
| Generate.SortedRungsAlternate | generate.py:24-31 | For strictly increasing thresholds, the sorted ladder's Resume/Pause entries alternate Resume, Pause, Resume, …, at the scaled thresholds in order. |
| Generate.BuildLadder | generate.py:21-31 | The loops with the sort return a list of length `2 + len(packet_thresholds)`, sorted by threshold, that is a permutation of the sentinel, the limit entry and all rungs. For a non-negative limit, it is a ladder a port can start from. |
| Generate.SortedLadderWellFormed | generate.py:21-31 | Any threshold-sorted permutation of the built entries starts below zero, ends at or above the byte limit, and has nothing active. |
| Generate.WithinSorted | generate.py:31 | Every entry of a sorted list lies between its first and last thresholds. |
| Generate.PermutationInactive | generate.py:31 | Sorting does not activate any entry: a permutation of inactive entries is inactive. |
| Generate.SentinelFirst | generate.py:22-31 | When no threshold is below -1, the sentinel is still first after the stable sort. |
| Generate.BuiltLadderNonNegative | generate.py:21-31 | With a non-negative byte limit and non-negative scaled thresholds, every entry of the sorted ladder after the sentinel has a non-negative threshold, which is what `AfterPutLevels` needs. |
| Generate.OnlyHeadBelowZero | generate.py:31 | Sorting a list whose head is its only negative entry, with that head kept first, leaves no other negative entry. |
| Generate.Setup | generate.py:18-34 | Creates an unlimited non-pausing first port, and a limited pausing second port with the sorted ladder, the link delay and the first port as `back`. Both ports start empty and valid, with zero counters, no drops, no pause received, sent or in flight, and no waiting service loop. |
| Generate.PausePort | generate.py:19-34 | A new byte-limited pausing port with a well-formed ladder installed, the given link delay and upstream port, empty, at indices (0, 1), with zero counters, no drops, no pause received, sent or in flight, no waiting service loop, and valid. |

## Left out

- simpy (processes, `Store`, `timeout`, `event().succeed()`, the `env.step()` loop): replaced by explicit step methods, an in-flight signal list with integer delivery times, and the `waiting` flag standing for `unpause_check`.
- The `store` token count and the `store.get()` issued by each eviction (model.py:264). On an idle port the service loop's own `get` is already pending, so it takes the new packet's token ahead of the eviction's `get`. When a single packet exceeds `qlimit`, the service loop then reads `self.queue[-1]` of a queue that eviction has just emptied (model.py:215-217). With the repository's parameters (`qlimit = 1000` bytes, `packet_size = 1460`), the first packet to reach the second port takes this path, and the IndexError raised at model.py:217 ends the simulation. ServeStep: its `requires queue != []` excludes that path, so the model does not capture the failing `queue[-1]`. This relies on simpy's `Store` semantics, which are not part of this model.
- `Packet.priority` has no declared type and defaults to 0 (model.py:28). It is modelled as a `nat`, so every priority, and with non-negative thresholds every asserted pause level, is non-negative. `PauseReportMeaning` relies on this.
- `Packet.size` is documented as a float (model.py:19-20). It is modelled as a `nat` number of bytes.
- Float service times `pkt.size*8.0/rate` and the float link delay: time is an abstract integer, and the service delay is not represented.
- `PacketGenerator`, `PacketSink`, the `out` links of the script (lines 40-46) and the run loop (lines 50-53): random traffic and sink statistics are not part of the port logic. The generators draw their gaps from `params.generate_rate` (generate.py:11-15), which params.py does not define, so with params.py as given the first draw (model.py:85) already fails.
- `PortMonitor`'s file output and trace formatting, and all of analyze.py: I/O and plotting.
- params.py: the byte limit, thresholds, packet size, link delay and priority count are parameters of the model.
- The `busy` flag, the `debug` output and the unused imports.
- `bisect`'s binary search and `list.sort()`'s algorithm: each is modelled by its result. `BisectLeft` is a linear definition, and `SortByThresh` an insertion sort whose stability is proved by `SortByThreshStable`.
- Negative byte limits: `qlimit` is a non-negative integer or None. `Setup` therefore takes a `nat`.
- Aliasing of `Checkpoint` objects: the ladder is a list of values, updated one entry at a time. In the script no other reference to those objects exists.
- Signal delivery order: `DeliverSignal` always applies the oldest signal, which matches a fixed link delay. The delivery time is recorded but not compared to a clock.
- Packet fields other than `size` and `priority` are carried but play no role.
