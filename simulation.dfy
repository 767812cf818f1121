/** The shared state of one run as an object whose fields the two workers
    and the report table update in place. Every method that changes the
    state states its new state as the step function of `Protocol` it
    implements (`ScheduleStep` as the one its scheduling choice selects); the
    properties of those functions are the lemmas of `Protocol`. */
module Simulation {
  import opened Protocol

  datatype Option<T> = None | Some(value: T)

  class BoundedBuffer {
    /** The shared list `buffer`. */
    var buffer: seq<int>
    /** The value of the semaphore `empty_slots`. */
    var empty: nat
    /** The value of the semaphore `full_slots`. */
    var full: nat
    /** The report table's step counter and its rows. */
    var step: nat
    var rows: seq<Row>
    /** Iterations the producer and the consumer have finished. */
    var produced: nat
    var consumed: nat

    /** The state this object stands for. */
    function Abs(): State
      reads this
    {
      State(buffer, empty, full, step, rows, produced, consumed)
    }

    /** Counters agree with the buffer, and the step counter numbers the
        rows; both survive every operation, reset included. */
    ghost predicate Valid()
      reads this
    {
      CounterInv(Abs()) && step == |rows|
    }

    /** The module globals (`buffer = []`, `Semaphore(BUFFER_SIZE)`,
        `Semaphore(0)`) and the table's `step = 0`, before the workers
        start. */
    constructor ()
      ensures Valid() && Abs() == Initial()
    {
      buffer, empty, full := [], BufferSize, 0;
      step, rows := 0, [];
      produced, consumed := 0, 0;
    }

    /** `update_table`: one more step, one more row holding the event and a
        snapshot of the buffer and counters. */
    method UpdateTable(e: Event)
      modifies this
      ensures Abs() == Report(old(Abs()), e)
      ensures step == old(step) + 1 && rows == old(rows) + [Row(step, e, buffer, empty, full)]
    {
      step := step + 1;
      rows := rows + [Row(step, e, buffer, empty, full)];
    }

    /** One producer iteration. It fires only when the producer is not
        finished and `empty_slots.acquire()` would not block; otherwise
        nothing changes. */
    method ProduceStep() returns (fired: bool)
      requires Valid()
      modifies this
      ensures Valid()
      ensures fired <==> CanProduce(old(Abs()))
      ensures fired ==> buffer == old(buffer) + [old(produced) + 1] && produced == old(produced) + 1
      ensures fired ==> empty == old(empty) - 1 && full == old(full) + 1 && step == old(step) + 1
      ensures !fired ==> Abs() == old(Abs())
      ensures Abs() == Produce(old(Abs()))
    {
      fired := produced < ItemCount && empty > 0;
      if fired {
        var i := produced + 1;
        empty := empty - 1;
        buffer := buffer + [i];
        UpdateTable(Produced(i));
        full := full + 1;
        produced := i;
      }
    }

    /** One consumer iteration, returning the popped item. It fires only
        when the consumer is not finished and `full_slots.acquire()` would not
        block; otherwise nothing changes and no item is returned. */
    method ConsumeStep() returns (item: Option<int>)
      requires Valid()
      modifies this
      ensures Valid()
      ensures item.Some? <==> CanConsume(old(Abs()))
      ensures item.Some? ==> item.value == old(buffer)[0] && buffer == old(buffer)[1..]
      ensures item.Some? ==> full == old(full) - 1 && empty == old(empty) + 1 && step == old(step) + 1
      ensures item.Some? ==> consumed == old(consumed) + 1
      ensures item.None? ==> Abs() == old(Abs())
      ensures Abs() == Consume(old(Abs()))
    {
      if consumed < ItemCount && full > 0 {
        full := full - 1;
        var head := buffer[0];
        buffer := buffer[1..];
        UpdateTable(Consumed(head));
        empty := empty + 1;
        consumed := consumed + 1;
        item := Some(head);
      } else {
        item := None;
      }
    }

    /** `clear_table`: empties the table and the buffer, zeroes the step
        counter and writes both semaphore values back to their initial
        values. */
    method ClearTable()
      requires Valid()
      modifies this
      ensures Valid()
      ensures buffer == [] && empty == BufferSize && full == 0 && step == 0 && rows == []
      ensures produced == old(produced) && consumed == old(consumed)
      ensures Abs() == Reset(old(Abs()))
    {
      rows := [];
      step := 0;
      buffer := [];
      empty := BufferSize;
      full := 0;
    }

    /** One scheduling point of a run: the consumer's iteration if it can
        run and the scheduler prefers it (or the producer cannot run), the
        producer's otherwise. Exactly one worker advances by one iteration, and
        an item is returned exactly when the consumer ran. */
    method ScheduleStep(preferConsumer: bool) returns (item: Option<int>)
      requires Valid() && RunInv(Abs())
      requires produced < ItemCount || consumed < ItemCount
      modifies this
      ensures Valid() && RunInv(Abs())
      ensures item.Some? <==> old(CanConsume(Abs()) && (preferConsumer || !CanProduce(Abs())))
      ensures Abs() == if item.Some? then Consume(old(Abs())) else Produce(old(Abs()))
      ensures produced + consumed == old(produced + consumed) + 1
      ensures item.Some? <==> consumed == old(consumed) + 1
      ensures ConsumedItems(rows) == old(ConsumedItems(rows)) + (if item.Some? then [item.value] else [])
    {
      ghost var before := Abs();
      SomeStepEnabled(before);
      if CanConsume(Abs()) && (preferConsumer || !CanProduce(Abs())) {
        item := ConsumeStep();
        ConsumePreservesRunInv(before);
        ConsumeEffect(before);
        assert rows == before.rows + [rows[|before.rows|]];
        ItemsOfAppendedRow(before.rows, rows[|before.rows|]);
      } else {
        var fired := ProduceStep();
        ProducePreservesRunInv(before);
        ProduceEffect(before);
        assert rows == before.rows + [rows[|before.rows|]];
        ItemsOfAppendedRow(before.rows, rows[|before.rows|]);
        item := None;
      }
    }

    /** Both workers run to the end under any interleaving of whole
        iterations. `consumerFirst(n)` is the scheduler's choice at the n-th
        scheduling point when both workers could proceed; it stands for the
        pacing delays and the thread scheduler. The consumer receives 1..10 in
        order, the buffer ends empty and the counters end where they started. */
    method Run(consumerFirst: nat -> bool) returns (received: seq<int>)
      requires Valid() && Abs() == Initial()
      modifies this
      ensures Valid() && RunInv(Abs())
      ensures produced == ItemCount && consumed == ItemCount
      ensures buffer == [] && empty == BufferSize && full == 0
      ensures step == 2 * ItemCount
      ensures received == Span(1, ItemCount + 1)
      ensures ConsumedItems(rows) == ProducedItems(rows) == received
    {
      InitialSatisfiesInvariants(Abs());
      received := [];
      var n: nat := 0;
      while produced < ItemCount || consumed < ItemCount
        invariant Valid() && RunInv(Abs())
        invariant received == ConsumedItems(rows)
        decreases (ItemCount - produced) + (ItemCount - consumed)
      {
        var item := ScheduleStep(consumerFirst(n));
        if item.Some? {
          received := received + [item.value];
        }
        n := n + 1;
      }
      FinalState(Abs());
    }
  }
}
