/** The bounded-buffer protocol of the producer/consumer demonstration, as a
    sequential state machine. Each loop body of the producer and of the
    consumer is one atomic step: the mutex held around the buffer mutation is
    what makes the body indivisible, and a counting-semaphore acquire that
    would block is a step that cannot fire. */
module Protocol {

  /** Capacity of the shared buffer, `BUFFER_SIZE`. */
  const BufferSize: nat := 5

  /** Both workers iterate `i` over 1..10. */
  const ItemCount: nat := 10

  /** What a report row says happened. */
  datatype Event = Produced(item: int) | Consumed(item: int)

  /** The values one call of `update_table` records: the new step number,
      the event, and a snapshot of the buffer and both semaphore counters. */
  datatype Row = Row(step: nat, event: Event, contents: seq<int>, empty: nat, full: nat)

  /** The whole state between two steps.
      `buffer`, `empty` and `full` are the shared list and the values of the
      semaphores `empty_slots` and `full_slots`; `step` and `rows` belong to
      the report table; `produced` and `consumed` count the finished loop
      iterations of the producer and of the consumer. */
  datatype State = State(
    buffer: seq<int>,
    empty: nat,
    full: nat,
    step: nat,
    rows: seq<Row>,
    produced: nat,
    consumed: nat)

  // ---------------------------------------------------------------------
  // Consecutive runs of integers

  /** The integers lo, lo + 1, ..., hi - 1. */
  function Span(lo: int, hi: int): (r: seq<int>)
    ensures |r| == if lo <= hi then hi - lo else 0
    decreases hi - lo
  {
    if lo >= hi then [] else [lo] + Span(lo + 1, hi)
  }

  /** The k-th element of a span is lo + k. */
  lemma {:induction false} SpanAt(lo: int, hi: int, k: int)
    requires 0 <= k < hi - lo
    ensures Span(lo, hi)[k] == lo + k
    decreases k
  {
    if k > 0 {
      SpanAt(lo + 1, hi, k - 1);
    }
  }

  lemma {:induction false} SpanExtend(lo: int, hi: int)
    requires lo <= hi
    ensures Span(lo, hi + 1) == Span(lo, hi) + [hi]
    decreases hi - lo
  {
    if lo < hi {
      SpanExtend(lo + 1, hi);
      assert Span(lo, hi + 1) == [lo] + Span(lo + 1, hi + 1);
    }
  }

  lemma {:induction false} SpanSplit(lo: int, mid: int, hi: int)
    requires lo <= mid <= hi
    ensures Span(lo, hi) == Span(lo, mid) + Span(mid, hi)
    decreases mid - lo
  {
    if lo < mid {
      SpanSplit(lo + 1, mid, hi);
      assert Span(lo, hi) == [lo] + Span(lo + 1, hi);
      assert Span(lo, mid) == [lo] + Span(lo + 1, mid);
    }
  }

  // ---------------------------------------------------------------------
  // Reading the report table

  /** The items of the production rows, in table order. */
  function ProducedItems(rows: seq<Row>): seq<int>
  {
    if rows == [] then []
    else
      var last := rows[|rows| - 1];
      ProducedItems(rows[..|rows| - 1]) + (if last.event.Produced? then [last.event.item] else [])
  }

  /** The items of the consumption rows, in table order. */
  function ConsumedItems(rows: seq<Row>): seq<int>
  {
    if rows == [] then []
    else
      var last := rows[|rows| - 1];
      ConsumedItems(rows[..|rows| - 1]) + (if last.event.Consumed? then [last.event.item] else [])
  }

  lemma ItemsOfAppendedRow(rows: seq<Row>, r: Row)
    ensures ProducedItems(rows + [r]) == ProducedItems(rows) + (if r.event.Produced? then [r.event.item] else [])
    ensures ConsumedItems(rows + [r]) == ConsumedItems(rows) + (if r.event.Consumed? then [r.event.item] else [])
  {
    assert (rows + [r])[..|rows|] == rows;
  }

  /** The snapshot a row shows. The producer reports after `buffer.append`
      but before `full_slots.release()`, so its row shows one more item than
      `full` and the last item is the one produced; the consumer reports after
      `buffer.pop(0)` but before `empty_slots.release()`. In both cases one
      permit is in flight, so the counters add up to one less than the
      capacity. */
  ghost predicate SnapshotOk(r: Row)
  {
    r.empty + r.full == BufferSize - 1 &&
    match r.event
    case Produced(i) => |r.contents| == r.full + 1 && r.contents[|r.contents| - 1] == i
    case Consumed(_) => |r.contents| == r.full
  }

  /** Row k carries step number k + 1 and a consistent snapshot. */
  ghost predicate RowsOk(rows: seq<Row>)
  {
    rows == [] ||
    (RowsOk(rows[..|rows| - 1]) && rows[|rows| - 1].step == |rows| && SnapshotOk(rows[|rows| - 1]))
  }

  /** What `RowsOk` says of each row. */
  lemma {:induction false} RowsOkAt(rows: seq<Row>, k: int)
    requires RowsOk(rows) && 0 <= k < |rows|
    ensures rows[k].step == k + 1 && SnapshotOk(rows[k])
    decreases |rows|
  {
    if k < |rows| - 1 {
      RowsOkAt(rows[..|rows| - 1], k);
    }
  }

  // ---------------------------------------------------------------------
  // Initial state and steps

  /** The module globals at load time and the table's `step = 0`. */
  function Initial(): (s: State)
    ensures CounterInv(s) && s.full == 0
  {
    State([], BufferSize, 0, 0, [], 0, 0)
  }

  /** `update_table`: the step counter goes up by one and a row with the
      current buffer and counters is added. */
  function Report(s: State, e: Event): (r: State)
    ensures r.step == s.step + 1 && |r.rows| == |s.rows| + 1 && r.rows[..|s.rows|] == s.rows
    ensures r.rows[|s.rows|] == Row(r.step, e, s.buffer, s.empty, s.full)
    ensures r.(step := s.step, rows := s.rows) == s
  {
    var n := s.step + 1;
    s.(step := n, rows := s.rows + [Row(n, e, s.buffer, s.empty, s.full)])
  }

  /** The producer's next iteration can run to completion: its loop is not
      finished and `empty_slots.acquire()` would not block. */
  predicate CanProduce(s: State)
  {
    s.produced < ItemCount && s.empty > 0
  }

  /** The consumer's next iteration can run to completion: its loop is not
      finished and `full_slots.acquire()` would not block. */
  predicate CanConsume(s: State)
  {
    s.consumed < ItemCount && s.full > 0
  }

  /** One producer iteration with `i = produced + 1`: acquire an empty slot,
      append `i`, report, release a full slot. A producer that is finished or
      blocked leaves the state as it is. */
  function Produce(s: State): (r: State)
    ensures CounterInv(s) ==> CounterInv(r)
    ensures r.produced == s.produced + (if CanProduce(s) then 1 else 0) && r.consumed == s.consumed
    ensures |r.rows| >= |s.rows| && r.rows[..|s.rows|] == s.rows
  {
    if !CanProduce(s) then s
    else
      var i := s.produced + 1;
      var acquired := s.(empty := s.empty - 1);
      var appended := acquired.(buffer := acquired.buffer + [i]);
      var reported := Report(appended, Produced(i));
      reported.(full := reported.full + 1, produced := i)
  }

  /** The slot counters agree with each other and with the buffer. */
  ghost predicate CounterInv(s: State)
  {
    s.empty + s.full == BufferSize && |s.buffer| == s.full
  }

  /** One consumer iteration: acquire a full slot, pop the head, report,
      release an empty slot. A consumer that is finished or blocked leaves the
      state as it is. The counters must agree with the buffer, so that an
      acquired full slot stands for an item that `pop(0)` can take. */
  function Consume(s: State): (r: State)
    requires CounterInv(s)
    ensures CounterInv(r)
    ensures r.consumed == s.consumed + (if CanConsume(s) then 1 else 0) && r.produced == s.produced
    ensures |r.rows| >= |s.rows| && r.rows[..|s.rows|] == s.rows
  {
    if !CanConsume(s) then s
    else
      var acquired := s.(full := s.full - 1);
      var item := acquired.buffer[0];
      var popped := acquired.(buffer := acquired.buffer[1..]);
      var reported := Report(popped, Consumed(item));
      reported.(empty := reported.empty + 1, consumed := s.consumed + 1)
  }

  /** `clear_table`: the rows go, `step` is zeroed, the buffer is emptied and
      both semaphore values are written back to their initial values. The
      workers' loop positions are not touched. */
  function Reset(s: State): (r: State)
    ensures CounterInv(r) && r.buffer == [] && r.step == 0 && r.rows == []
    ensures r.produced == s.produced && r.consumed == s.consumed
  {
    s.(buffer := [], empty := BufferSize, full := 0, step := 0, rows := [])
  }

  // ---------------------------------------------------------------------
  // Invariants

  /** The buffer holds the items produced and not yet consumed, in order,
      and each finished iteration has bumped the step counter once. */
  ghost predicate QueueInv(s: State)
  {
    CounterInv(s) &&
    s.consumed <= s.produced <= ItemCount &&
    s.buffer == Span(s.consumed + 1, s.produced + 1) &&
    s.step == s.produced + s.consumed &&
    |s.rows| == s.step
  }

  /** The report table numbers its rows, shows consistent snapshots, and
      lists the produced items and the consumed items each as 1, 2, ... */
  ghost predicate TableInv(s: State)
  {
    RowsOk(s.rows) &&
    ProducedItems(s.rows) == Span(1, s.produced + 1) &&
    ConsumedItems(s.rows) == Span(1, s.consumed + 1)
  }

  /** What holds between whole steps of a run started from `Initial()`. */
  ghost predicate RunInv(s: State)
  {
    QueueInv(s) && TableInv(s)
  }

  /** The state at load time has an empty buffer, `empty == BufferSize`,
      `full == 0` and `step == 0`, and satisfies both invariants. */
  lemma InitialSatisfiesInvariants(s: State)
    requires s == Initial()
    ensures s.buffer == [] && s.step == 0 && s.rows == []
    ensures s.empty == BufferSize && s.full == 0
    ensures CounterInv(s) && RunInv(s)
  {
    assert Span(1, 1) == [];
  }

  /** The counter invariant bounds the buffer by the capacity. */
  lemma BufferWithinCapacity(s: State)
    requires CounterInv(s)
    ensures 0 <= |s.buffer| <= BufferSize
    ensures |s.buffer| == BufferSize <==> s.empty == 0
    ensures |s.buffer| == 0 <==> s.full == 0
  {
  }

  /** Effect of a producer step: enabled exactly when not finished and
      `empty > 0`; it appends `produced + 1` behind the old contents, moves
      one permit from `empty` to `full`, and adds one report row. */
  lemma ProduceEffect(s: State)
    ensures var t := Produce(s);
      if CanProduce(s) then
        t.buffer == s.buffer + [s.produced + 1] &&
        t.empty == s.empty - 1 && t.full == s.full + 1 &&
        t.step == s.step + 1 && |t.rows| == |s.rows| + 1 && t.rows[..|s.rows|] == s.rows &&
        t.rows[|s.rows|] == Row(s.step + 1, Produced(s.produced + 1), s.buffer + [s.produced + 1], s.empty - 1, s.full) &&
        t.produced == s.produced + 1 && t.consumed == s.consumed
      else t == s
  {
    if CanProduce(s) {
      var t := Produce(s);
      assert t.rows == s.rows + [t.rows[|s.rows|]];
    }
  }

  /** Effect of a consumer step: enabled exactly when not finished and
      `full > 0`; it removes the head and keeps the rest in order, moves one
      permit from `full` to `empty`, and adds one report row naming the head. */
  lemma ConsumeEffect(s: State)
    requires CounterInv(s)
    ensures var t := Consume(s);
      if CanConsume(s) then
        |s.buffer| > 0 && [s.buffer[0]] + t.buffer == s.buffer &&
        t.full == s.full - 1 && t.empty == s.empty + 1 &&
        t.step == s.step + 1 && |t.rows| == |s.rows| + 1 && t.rows[..|s.rows|] == s.rows &&
        t.rows[|s.rows|] == Row(s.step + 1, Consumed(s.buffer[0]), s.buffer[1..], s.empty, s.full - 1) &&
        t.consumed == s.consumed + 1 && t.produced == s.produced
      else t == s
  {
    if CanConsume(s) {
      var t := Consume(s);
      assert t.rows == s.rows + [t.rows[|s.rows|]];
    }
  }

  /** Every step keeps `empty + full == BufferSize` and `|buffer| == full`,
      whatever state it starts from. */
  lemma StepsPreserveCounterInv(s: State)
    requires CounterInv(s)
    ensures CounterInv(Produce(s)) && CounterInv(Consume(s)) && CounterInv(Reset(s))
  {
  }

  /** Adding the row of the next production (item `produced + 1`) or of
      the next consumption (item `consumed + 1`) keeps the table consistent. */
  lemma TableStep(t: State, rows: seq<Row>, r: Row, produced: nat, consumed: nat)
    requires RowsOk(rows) && r.step == |rows| + 1 && SnapshotOk(r)
    requires ProducedItems(rows) == Span(1, produced + 1)
    requires ConsumedItems(rows) == Span(1, consumed + 1)
    requires t.rows == rows + [r]
    requires r.event == Produced(produced + 1) ==> t.produced == produced + 1 && t.consumed == consumed
    requires r.event == Consumed(consumed + 1) ==> t.consumed == consumed + 1 && t.produced == produced
    requires r.event == Produced(produced + 1) || r.event == Consumed(consumed + 1)
    ensures TableInv(t)
  {
    assert (rows + [r])[..|rows|] == rows;
    ItemsOfAppendedRow(rows, r);
    if r.event.Produced? {
      SpanExtend(1, produced + 1);
    } else {
      SpanExtend(1, consumed + 1);
    }
  }

  lemma ProducePreservesQueueInv(s: State)
    requires QueueInv(s)
    ensures QueueInv(Produce(s))
  {
    if CanProduce(s) {
      SpanExtend(s.consumed + 1, s.produced + 1);
    }
  }

  lemma ProducePreservesTableInv(s: State)
    requires CounterInv(s) && TableInv(s) && |s.rows| == s.step
    ensures TableInv(Produce(s))
  {
    if CanProduce(s) {
      var r := Row(s.step + 1, Produced(s.produced + 1), s.buffer + [s.produced + 1], s.empty - 1, s.full);
      TableStep(Produce(s), s.rows, r, s.produced, s.consumed);
    }
  }

  /** A producer step keeps the run invariant: the buffer stays the
      consecutive run of produced-but-not-consumed items, and its row shows
      the snapshot taken between append and release. */
  lemma ProducePreservesRunInv(s: State)
    requires RunInv(s)
    ensures RunInv(Produce(s))
  {
    ProducePreservesQueueInv(s);
    ProducePreservesTableInv(s);
  }

  lemma ConsumePreservesQueueInv(s: State)
    requires QueueInv(s)
    ensures QueueInv(Consume(s))
  {
  }

  lemma ConsumePreservesTableInv(s: State)
    requires CounterInv(s) && TableInv(s) && |s.rows| == s.step
    requires CanConsume(s) ==> s.buffer[0] == s.consumed + 1
    ensures TableInv(Consume(s))
  {
    if CanConsume(s) {
      var r := Row(s.step + 1, Consumed(s.consumed + 1), s.buffer[1..], s.empty, s.full - 1);
      TableStep(Consume(s), s.rows, r, s.produced, s.consumed);
    }
  }

  /** A consumer step keeps the run invariant: the item it takes is the
      oldest one produced, and its row shows the snapshot taken between pop
      and release. */
  lemma ConsumePreservesRunInv(s: State)
    requires RunInv(s)
    ensures RunInv(Consume(s))
  {
    if CanConsume(s) {
      SpanAt(s.consumed + 1, s.produced + 1, 0);
    }
    ConsumePreservesQueueInv(s);
    ConsumePreservesTableInv(s);
  }

  /** The k-th item the consumer takes is k, the value of its loop index
      `i` on that iteration. */
  lemma ConsumedItemIsLoopIndex(s: State)
    requires RunInv(s) && CanConsume(s)
    ensures s.buffer[0] == s.consumed + 1
    ensures Consume(s).rows[s.step].event == Consumed(s.consumed + 1)
  {
    ConsumeEffect(s);
  }

  /** What every report row of a run shows: row k is step k + 1; a
      production row's snapshot holds one item more than `full` (the release
      of `full_slots` comes after the report) and ends with the produced item;
      a consumption row's snapshot holds exactly `full` items; in both the
      counters add up to `BufferSize - 1`. */
  lemma ReportedSnapshot(s: State, k: int)
    requires RunInv(s) && 0 <= k < |s.rows|
    ensures s.rows[k].step == k + 1
    ensures s.rows[k].empty + s.rows[k].full == BufferSize - 1
    ensures s.rows[k].event.Produced? ==>
      |s.rows[k].contents| == s.rows[k].full + 1 &&
      s.rows[k].contents[|s.rows[k].contents| - 1] == s.rows[k].event.item
    ensures s.rows[k].event.Consumed? ==> |s.rows[k].contents| == s.rows[k].full
  {
    RowsOkAt(s.rows, k);
  }

  /** FIFO with no loss and no duplication, at every point of a run: the
      items produced so far are exactly the items consumed so far followed by
      the buffer, in order. */
  lemma NoLossNoDuplication(s: State)
    requires RunInv(s)
    ensures ProducedItems(s.rows) == ConsumedItems(s.rows) + s.buffer
    ensures ConsumedItems(s.rows) == ProducedItems(s.rows)[..s.consumed]
  {
    SpanSplit(1, s.consumed + 1, s.produced + 1);
  }

  /** Progress: while either worker still has iterations left, one of the
      two steps is enabled; in particular a full buffer lets the consumer
      run. */
  lemma SomeStepEnabled(s: State)
    requires RunInv(s)
    requires s.produced < ItemCount || s.consumed < ItemCount
    ensures CanProduce(s) || CanConsume(s)
    ensures s.empty == 0 ==> CanConsume(s) && |s.buffer| == BufferSize
  {
  }

  /** When both workers are done, the buffer is empty, the counters are
      back to their initial values, twenty rows were reported, and the
      consumer saw exactly the sequence the producer made, 1..10. */
  lemma FinalState(s: State)
    requires RunInv(s) && s.produced == ItemCount && s.consumed == ItemCount
    ensures s.buffer == [] && s.empty == BufferSize && s.full == 0
    ensures s.step == 2 * ItemCount && |s.rows| == 2 * ItemCount
    ensures ConsumedItems(s.rows) == ProducedItems(s.rows) == Span(1, ItemCount + 1)
    ensures !CanProduce(s) && !CanConsume(s)
  {
  }

  /** `clear_table` restores the counter invariant and the initial buffer,
      counters and table from any state, and leaves the workers' loop
      positions alone. */
  lemma ResetRestoresInitial(s: State)
    ensures var t := Reset(s);
      CounterInv(t) && t.buffer == Initial().buffer && t.empty == Initial().empty &&
      t.full == Initial().full && t.step == Initial().step && t.rows == Initial().rows &&
      t.produced == s.produced && t.consumed == s.consumed
  {
  }

  /** Items produced that are neither consumed nor in the buffer. */
  ghost function Lost(s: State): int
  {
    s.produced - s.consumed - |s.buffer|
  }

  /** No step creates or recovers a lost item: produce and consume keep
      `Lost` as it is. */
  lemma StepsKeepLost(s: State)
    requires CounterInv(s)
    ensures Lost(Produce(s)) == Lost(s)
    ensures Lost(Consume(s)) == Lost(s)
  {
    if CanConsume(s) {
      assert |Consume(s).buffer| == |s.buffer| - 1;
    }
  }

  /** `clear_table` has no guard against a live run: pressing it while
      items are produced and not yet consumed loses exactly those items. */
  lemma ResetMidRunLosesItems(s: State)
    requires RunInv(s) && s.consumed < s.produced
    ensures Lost(Reset(s)) == s.produced - s.consumed > 0
  {
  }

  /** Once an item is lost the consumer can never finish its ten
      iterations, and when the producer is done and the buffer is drained
      neither worker can move: the consumer stays blocked in
      `full_slots.acquire()` for good. */
  lemma LostItemsBlockConsumer(s: State)
    requires CounterInv(s) && Lost(s) > 0 && s.produced <= ItemCount
    ensures s.consumed < ItemCount
    ensures s.produced == ItemCount && s.buffer == [] ==> !CanProduce(s) && !CanConsume(s)
  {
  }
}
