# Bounded buffer of the producer/consumer demonstration

The program shows the classic bounded-buffer problem with a Tk window. Its
core is a global list `buffer` of capacity `BUFFER_SIZE = 5`. Two counting
semaphores guard it: `empty_slots` starts at 5 and `full_slots` at 0, and a
`mutex` serialises the mutations. A producer thread appends 1..10. A consumer
thread pops ten items from the head. After each mutation the worker calls
`update_table`, which bumps a step counter and adds a row showing the event,
the buffer and both semaphore values. A "Done" button runs `clear_table`,
which empties the table and the buffer, zeroes the step counter and writes
the semaphore values back to 5 and 0.

This project models that core as a sequential state machine. Each loop
iteration of a worker is one atomic step; the mutex is what makes the buffer
mutation indivisible. A semaphore acquire that would block becomes a step
that cannot fire and leaves the state unchanged.

- `protocol.dfy`, module `Protocol`: the state as a value (`State`: buffer,
  both semaphore values, step counter, report rows, and how many iterations
  each worker has finished). The steps are total functions (`Produce`,
  `Consume`, `Report`, `Reset`, `Initial`). The invariants are `CounterInv`
  (the counters agree with the buffer), `QueueInv` (the buffer is the run of
  items produced and not yet consumed) and `TableInv` (the rows are numbered,
  their snapshots are consistent, and they list 1, 2, … in order). The
  module also holds the lemmas about all of these.
- `simulation.dfy`, module `Simulation`: class `BoundedBuffer`, whose fields
  the methods update in place. Each method that changes the state is proved
  to produce exactly the new state given by the step function it implements.
  `ScheduleStep` produces the step that its scheduling choice selects.
  `Run` schedules whole iterations in a loop until both workers are done. It accepts an arbitrary scheduler choice, which
  stands in for the sleep delays and the thread scheduler. It proves that the
  consumer receives 1..10 in order and that the buffer and counters end where
  they started.

The report is modelled by its values only (step number, event, buffer
snapshot, the two counters). The code reports while it still holds the mutex
and before it releases the complementary semaphore, so the snapshot is taken
in the middle of the step. In the model, where each loop body is atomic, a
production row therefore shows one more item than `full`, and in every row
the two counters add up to 4, not 5.

## Model

| member | source | states |
|---|---|---|
| Protocol.Initial | gui.py:23-27 | the load-time state has all five slots free and none full, so the counter invariant holds and the buffer is empty; see also `InitialSatisfiesInvariants` |
| Protocol.Report | gui.py:93-96 | `update_table` raises the step by one and appends exactly one row, numbered with the new step and holding the current buffer and counters; earlier rows and every other field stay as they were |
| Protocol.Produce | gui.py:107-118 | one producer iteration keeps the counter invariant, advances the producer by one exactly when it can run, never moves the consumer, and only appends to the table; see `ProduceEffect`, `ProducePreservesRunInv` |
| Protocol.Consume | gui.py:120-131 | one consumer iteration keeps the counter invariant, advances the consumer by one exactly when it can run, never moves the producer, and only appends to the table; see `ConsumeEffect`, `ConsumePreservesRunInv` |
| Protocol.Reset | gui.py:99-104 | `clear_table` leaves an empty buffer and table, step 0 and the counter invariant, and keeps both workers' positions; see `ResetRestoresInitial` |
| Protocol.InitialSatisfiesInvariants | gui.py:23-27 | the initial state has an empty buffer, `empty == 5`, `full == 0`, `step == 0`, and satisfies the counter invariant and the run invariant |
| Protocol.BufferWithinCapacity | gui.py:23-27 | under the counter invariant `0 <= len(buffer) <= 5`; the buffer is full exactly when `empty == 0` and empty exactly when `full == 0` |
| Protocol.ProduceEffect | gui.py:111-118 | a producer iteration fires iff the producer is unfinished and `empty > 0`; it appends exactly `produced + 1` after the unchanged old contents, takes one from `empty`, adds one to `full`, adds one to `step`, and appends one row with the mid-step snapshot; otherwise nothing changes |
| Protocol.ConsumeEffect | gui.py:124-131 | a consumer iteration fires iff the consumer is unfinished and `full > 0`; it removes the head, keeps the rest in order, takes one from `full`, adds one to `empty`, adds one to `step`, and appends a row naming the head; otherwise nothing changes |
| Protocol.StepsPreserveCounterInv | gui.py:99-131 | produce, consume and reset each keep `empty + full == 5` and `len(buffer) == full` from any state |
| Protocol.ProducePreservesQueueInv | gui.py:108-118 | after a producer iteration the buffer is still the consecutive run `[consumed+1 .. produced]` and `step == produced + consumed` |
| Protocol.ProducePreservesTableInv | gui.py:93-96 | a producer iteration keeps the rows numbered 1, 2, … with consistent snapshots, and extends the list of produced items to `1..produced` |
| Protocol.ProducePreservesRunInv | gui.py:107-118 | a producer iteration preserves the whole run invariant |
| Protocol.ConsumePreservesQueueInv | gui.py:121-131 | after a consumer iteration the buffer is still the consecutive run `[consumed+1 .. produced]` and `step == produced + consumed` |
| Protocol.ConsumePreservesTableInv | gui.py:93-96 | a consumer iteration keeps the rows numbered and consistent, and extends the list of consumed items to `1..consumed` |
| Protocol.ConsumePreservesRunInv | gui.py:120-131 | a consumer iteration preserves the whole run invariant |
| Protocol.TableStep | gui.py:93-96 | adding the row of the next production or consumption to a consistent table keeps it consistent |
| Protocol.ConsumedItemIsLoopIndex | gui.py:121-128 | in a run, the item the consumer pops on its k-th iteration is k, the value of its loop index `i` |
| Protocol.ReportedSnapshot | gui.py:111-131 | in the atomic-step model, row k is step k + 1; its counters add up to 4; a production row holds `full + 1` items ending with the produced item, and a consumption row holds `full` items |
| Protocol.NoLossNoDuplication | gui.py:114-127 | at every point of a run the produced items equal the consumed items followed by the buffer, in order, and the consumed items are a prefix of the produced ones |
| Protocol.SomeStepEnabled | gui.py:108-131 | while either worker has iterations left, one of them can proceed; a full buffer (`empty == 0`) holds 5 items and lets the consumer run |
| Protocol.FinalState | gui.py:107-131 | after 10 productions and 10 consumptions the buffer is empty, `empty == 5`, `full == 0` and `step == 20`, and both workers' items are exactly 1..10 in order |
| Protocol.ResetRestoresInitial | gui.py:99-104 | from any state, reset leaves an empty buffer and table, `step == 0`, `empty == 5` and `full == 0`, so the counter invariant holds again; the workers' positions are untouched |
| Protocol.StepsKeepLost | gui.py:107-131 | no producer or consumer iteration changes the number of lost items (produced, minus consumed, minus buffered) |
| Protocol.ResetMidRunLosesItems | gui.py:99-104 | a reset pressed while `produced - consumed` items are still buffered loses exactly those items |
| Protocol.LostItemsBlockConsumer | gui.py:120-124 | with any item lost the consumer cannot complete its ten iterations; once the producer is done and the buffer is drained, neither worker can move, so the consumer stays blocked in `full_slots.acquire()` |
| Protocol.SpanAt | gui.py:108 | the k-th element of the run `lo..hi-1` is `lo + k` |
| Protocol.SpanExtend | gui.py:108 | extending a run of consecutive items by one appends the next item |
| Protocol.SpanSplit | gui.py:108 | a run of consecutive items splits into two consecutive runs |
| Simulation.BoundedBuffer.constructor | gui.py:23-27 | the object starts in the initial state: empty buffer and table, semaphores at 5 and 0 |
| Simulation.BoundedBuffer.UpdateTable | gui.py:93-96 | the step counter goes up by one and one row with the current buffer and counters is appended |
| Simulation.BoundedBuffer.ProduceStep | gui.py:107-118 | fires exactly when the producer is unfinished and `empty > 0`; then the buffer gains `produced + 1` at the tail, `empty` drops by one, `full` and `step` rise by one; otherwise nothing changes; the counter invariant is kept |
| Simulation.BoundedBuffer.ConsumeStep | gui.py:120-131 | fires exactly when the consumer is unfinished and `full > 0`; then it returns the old head, the buffer keeps the rest in order, `full` drops by one, `empty` and `step` rise by one; otherwise nothing changes |
| Simulation.BoundedBuffer.ClearTable | gui.py:99-104 | empties the buffer and table, sets `step` to 0 and the semaphore values to 5 and 0, and keeps the counter invariant |
| Simulation.BoundedBuffer.ScheduleStep | gui.py:107-131 | the consumer runs exactly when it can and is preferred or the producer cannot run; the new state is that worker's step applied to the old state; exactly one worker advances one iteration, the run invariant is kept, and the consumer's list grows by the item it popped |
| Simulation.BoundedBuffer.Run | gui.py:107-131 | under any schedule both loops terminate; the consumer receives exactly 1..10 in order, the buffer ends empty, the semaphores end at 5 and 0, and 20 steps are reported |

## Left out

- The Tk window, canvas, images, Treeview layout and the `update_idletasks` call (gui.py:33-91, 97) are presentation only. The row is modelled by its values, not by how it is formatted as text.
- The asset path helpers `get_base_path` and `relative_to_assets` (gui.py:11-20) are file-system plumbing.
- Thread creation, `after_idle` and `mainloop` (gui.py:134-149) are not modelled. `Run` stands in for the two threads running to completion.
- The `time.sleep` pacing and the delay constants (gui.py:29-30, 109, 122) are not modelled. They only influence which worker goes next, which is `Run`'s scheduler parameter.
- The values a real row shows are not modelled under preemption. `ReportedSnapshot` holds only for the atomic-step model. With real threads, the other worker can already hold its counting semaphore while waiting for the mutex, or can sit between `mutex.release()` and its complementary release (gui.py:117-118, 130-131). A real row can then show counters that add up to 3, and a production row can show `full + 2` items.
- True preemptive interleavings are not modelled. Each loop body is one atomic step. In the real program the other thread can take its own semaphore between the mutex release and the complementary release, and the real mutex and semaphore ordering gives mutual exclusion and deadlock freedom. Neither of these is captured.
- `clear_table` writes the private `_value` of both semaphores without synchronisation (gui.py:103-104). The model applies `Reset` atomically between steps. A reset that races with a running worker is not modelled.
- `Protocol.Consume` requires the counter invariant. It therefore does not model the `IndexError` that `pop(0)` would raise on an empty list with a positive `full` count, a state no modelled step can reach.
- Capacity and item count are the constants `BUFFER_SIZE = 5` (gui.py:23) and the loop bound `range(1, 11)` (gui.py:108, 121), as in the code; other values are not modelled.
