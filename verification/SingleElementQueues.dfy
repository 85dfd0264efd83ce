/** SingleElementQueue: one cell and a flag instead of a ring. The class is proved against the
    transition functions of `Cell`, and those are proved to be the steps of QueueProtocol on a
    ring of capacity 1: for counts of at most 1 no sequence of operations distinguishes the two,
    except that here the end calls do not signal for a count of zero.

    The count parameters are 0 or 1, as the source asserts; they appear here as booleans. */
module SingleElementQueues {
  import opened RingIndices
  import opened QueueProtocol
  import opened FixedMemoryQueues

  function Count(one: bool): nat { if one then 1 else 0 }

  /** The state of the queue and of its two threads, as in QueueProtocol. */
  datatype Cell<T> = Cell(
    full: bool, buffer: T, producer: Side, consumer: Side, stopWrite: bool, stopRead: bool,
    committed: seq<T>, consumed: seq<T>
  ) {
    function AsRing(): Queue<T> {
      Queue(Ring(1, 0, 0, Count(full)), [buffer], producer, consumer, stopWrite, stopRead, committed, consumed)
    }

    function BeginWrite(one: bool): Cell<T> {
      this.(producer :=
        if one && full then if stopWrite then Thrown else Waiting(1, true) else Active(0, Count(!full)))
    }

    function BeginRead(one: bool): Cell<T> {
      this.(consumer :=
        if one && !full then if stopRead then Thrown else Waiting(1, true) else Active(0, Count(full)))
    }

    function Store(value: T): Cell<T> {
      this.(buffer := value)
    }

    function EndWrite(one: bool): Cell<T> {
      if !one then this
      else this.(full := true, committed := committed + [buffer],
                 producer := Active(1, 0), consumer := Signalled(consumer))
    }

    function EndRead(one: bool): Cell<T> {
      if !one then this
      else this.(full := false, consumed := consumed + [buffer],
                 consumer := Active(1, 0), producer := Signalled(producer))
    }
  }

  // ---- the same steps as a ring of capacity 1 ----

  lemma BeginWriteAsRing<T>(c: Cell<T>, one: bool)
    requires Inv(c.AsRing()) && Enabled(c.AsRing(), BeginWrite(Count(one)))
    ensures c.BeginWrite(one).AsRing() == Next(c.AsRing(), BeginWrite(Count(one)))
  {
  }

  lemma BeginReadAsRing<T>(c: Cell<T>, one: bool)
    requires Inv(c.AsRing()) && Enabled(c.AsRing(), BeginRead(Count(one)))
    ensures c.BeginRead(one).AsRing() == Next(c.AsRing(), BeginRead(Count(one)))
  {
  }

  lemma StoreAsRing<T>(c: Cell<T>, value: T)
    requires Inv(c.AsRing()) && Enabled(c.AsRing(), Fill(0, value))
    ensures c.Store(value).AsRing() == Next(c.AsRing(), Fill(0, value))
  {
    assert c.AsRing().cells[0 := value] == [value];
  }

  lemma HoldsEmptyCell<T>(c: Cell<T>)
    requires Shaped(c.AsRing()) && HeldOk(c.AsRing()) && Enabled(c.AsRing(), EndWrite(1))
    ensures !c.full && c.producer.start == 0 && c.producer.len == 1
  {
  }

  lemma EmptyCellFills<T>(c: Cell<T>)
    requires Shaped(c.AsRing()) && HeldOk(c.AsRing()) && Enabled(c.AsRing(), EndWrite(1))
    requires !c.full && c.producer == Active(0, 1)
    ensures c.EndWrite(true).AsRing() == Next(c.AsRing(), EndWrite(1))
  {
    assert c.AsRing().cells[0..1] == [c.buffer];
  }

  lemma EndWriteAsRing<T>(c: Cell<T>)
    requires Inv(c.AsRing()) && Enabled(c.AsRing(), EndWrite(1))
    ensures c.EndWrite(true).AsRing() == Next(c.AsRing(), EndWrite(1))
  {
    HoldsEmptyCell(c);
    EmptyCellFills(c);
  }

  lemma EndReadAsRing<T>(c: Cell<T>)
    requires Inv(c.AsRing()) && Enabled(c.AsRing(), EndRead(1))
    ensures c.EndRead(true).AsRing() == Next(c.AsRing(), EndRead(1))
  {
    var q := c.AsRing();
    assert q.ring.ReadRun() >= 1 && c.full;
    assert q.cells[0..1] == [c.buffer];
  }

  /** In a ring the end calls with a count of zero do nothing but signal, so leaving them out
      loses at most a wakeup that would have been spurious. */
  lemma ZeroCountsOnlySignal<T>(q: Queue<T>)
    requires Inv(q) && q.ring.capacity > 0
    ensures Enabled(q, EndWrite(0)) ==> Next(q, EndWrite(0)) == q.(consumer := Signalled(q.consumer))
    ensures Enabled(q, EndRead(0)) ==> Next(q, EndRead(0)) == q.(producer := Signalled(q.producer))
  {
    assert q.committed + q.cells[q.ring.first..q.ring.first] == q.committed;
    assert q.consumed + q.cells[q.ring.last..q.ring.last] == q.consumed;
  }

  // ---- whole runs ----

  /** The same operation on the cell. An end call with a count of zero does nothing here. */
  function CellNext<T>(c: Cell<T>, a: Action<T>): Cell<T> {
    match a
    case BeginWrite(count) => c.BeginWrite(count > 0)
    case RetryWrite => c.BeginWrite(true)
    case Fill(_, value) => c.Store(value)
    case EndWrite(count) => c.EndWrite(count > 0)
    case BeginRead(count) => c.BeginRead(count > 0)
    case RetryRead => c.BeginRead(true)
    case EndRead(count) => c.EndRead(count > 0)
    case InterruptWrite => c.(stopWrite := true, producer := Signalled(c.producer))
    case ResumeWrite => c.(stopWrite := false, producer := Signalled(c.producer))
    case SpuriousWakeWrite => c.(producer := Signalled(c.producer))
    case InterruptRead => c.(stopRead := true, consumer := Signalled(c.consumer))
    case ResumeRead => c.(stopRead := false, consumer := Signalled(c.consumer))
    case SpuriousWakeRead => c.(consumer := Signalled(c.consumer))
  }

  /** Counts are at most 1. */
  predicate Small<T>(a: Action<T>) {
    match a
    case BeginWrite(count) => count <= 1
    case BeginRead(count) => count <= 1
    case EndWrite(count) => count <= 1
    case EndRead(count) => count <= 1
    case _ => true
  }

  /** Counts are at most 1, and no end call has a count of zero. */
  predicate Plain<T>(a: Action<T>) {
    match a
    case BeginWrite(count) => count <= 1
    case BeginRead(count) => count <= 1
    case EndWrite(count) => count == 1
    case EndRead(count) => count == 1
    case _ => true
  }

  predicate EndsWithZero<T>(a: Action<T>) {
    a == Action<T>.EndWrite(0) || a == Action<T>.EndRead(0)
  }

  /** Whoever waits, waits for one element. */
  predicate WaitsForOne<T>(c: Cell<T>) {
    (c.producer.Waiting? ==> c.producer.need == 1) && (c.consumer.Waiting? ==> c.consumer.need == 1)
  }

  /** The step does the same to the cell as to the ring. */
  ghost predicate InStep<T>(c: Cell<T>, a: Action<T>)
    requires Shaped(c.AsRing()) && HeldOk(c.AsRing()) && Enabled(c.AsRing(), a)
  {
    CellNext(c, a).AsRing() == Next(c.AsRing(), a) && WaitsForOne(CellNext(c, a))
  }

  lemma RetryWriteAsRing<T>(c: Cell<T>)
    requires Shaped(c.AsRing()) && HeldOk(c.AsRing()) && Enabled(c.AsRing(), RetryWrite) && WaitsForOne(c)
    ensures InStep(c, RetryWrite)
  {
  }

  lemma RetryReadAsRing<T>(c: Cell<T>)
    requires Shaped(c.AsRing()) && HeldOk(c.AsRing()) && Enabled(c.AsRing(), RetryRead) && WaitsForOne(c)
    ensures InStep(c, RetryRead)
  {
  }

  lemma CountBack(count: nat)
    requires count <= 1
    ensures Count(count > 0) == count
  {
  }

  lemma BeginAsRing<T>(c: Cell<T>, a: Action<T>)
    requires Inv(c.AsRing()) && Enabled(c.AsRing(), a) && Plain(a) && WaitsForOne(c)
    requires a.BeginWrite? || a.BeginRead?
    ensures InStep(c, a)
  {
    CountBack(a.count);
    BeginWaitsForOne(c, a);
    if a.BeginWrite? { BeginWriteAsRing(c, a.count > 0); } else { BeginReadAsRing(c, a.count > 0); }
  }

  lemma BeginWaitsForOne<T>(c: Cell<T>, a: Action<T>)
    requires WaitsForOne(c) && (a.BeginWrite? || a.BeginRead?)
    ensures WaitsForOne(CellNext(c, a))
  {
  }

  lemma OutsideAsRing<T>(c: Cell<T>, a: Action<T>)
    requires Shaped(c.AsRing()) && HeldOk(c.AsRing()) && Enabled(c.AsRing(), a) && WaitsForOne(c)
    requires !ByProducer(a) && !ByConsumer(a)
    ensures InStep(c, a)
  {
  }

  lemma EndWaitsForOne<T>(c: Cell<T>)
    requires WaitsForOne(c)
    ensures WaitsForOne(c.EndWrite(true)) && WaitsForOne(c.EndRead(true))
  {
  }

  lemma EndWriteInStep<T>(c: Cell<T>)
    requires Inv(c.AsRing()) && Enabled(c.AsRing(), EndWrite(1)) && WaitsForOne(c)
    ensures InStep(c, EndWrite(1))
  {
    EndWriteAsRing(c);
    EndWaitsForOne(c);
    assert CellNext(c, Action<T>.EndWrite(1)) == c.EndWrite(true);
  }

  lemma EndReadInStep<T>(c: Cell<T>)
    requires Inv(c.AsRing()) && Enabled(c.AsRing(), EndRead(1)) && WaitsForOne(c)
    ensures InStep(c, EndRead(1))
  {
    EndReadAsRing(c);
    EndWaitsForOne(c);
    assert CellNext(c, Action<T>.EndRead(1)) == c.EndRead(true);
  }

  lemma FillAsRing<T>(c: Cell<T>, offset: nat, value: T)
    requires Inv(c.AsRing()) && Enabled(c.AsRing(), Fill(offset, value)) && WaitsForOne(c)
    ensures InStep(c, Fill(offset, value))
  {
    assert offset == 0;
    StoreAsRing(c, value);
  }

  lemma StepAsRing<T>(c: Cell<T>, a: Action<T>)
    requires Inv(c.AsRing()) && Enabled(c.AsRing(), a) && Plain(a) && WaitsForOne(c)
    ensures InStep(c, a)
  {
    if a.BeginWrite? || a.BeginRead? {
      BeginAsRing(c, a);
    } else if a.RetryWrite? {
      RetryWriteAsRing(c);
    } else if a.RetryRead? {
      RetryReadAsRing(c);
    } else if a.Fill? {
      FillAsRing(c, a.offset, a.value);
    } else if a.EndWrite? {
      EndWriteInStep(c);
    } else if a.EndRead? {
      EndReadInStep(c);
    } else {
      OutsideAsRing(c, a);
    }
  }

  function CellAfter<T>(c: Cell<T>, run: seq<Action<T>>): Cell<T>
    decreases |run|
  {
    if run == [] then c else CellAfter(CellNext(c, run[0]), run[1..])
  }

  /** The ring's step, except that an end call with a count of zero does not trigger anybody. */
  function QuietNext<T>(q: Queue<T>, a: Action<T>): Queue<T>
    requires Shaped(q) && HeldOk(q) && Enabled(q, a)
  {
    match a
    case EndWrite(count) => if count == 0 then Next(q, a).(consumer := q.consumer) else Next(q, a)
    case EndRead(count) => if count == 0 then Next(q, a).(producer := q.producer) else Next(q, a)
    case _ => Next(q, a)
  }

  ghost predicate QuietLegal<T>(q: Queue<T>, run: seq<Action<T>>)
    decreases |run|
  {
    run == [] || (Shaped(q) && HeldOk(q) && Enabled(q, run[0]) && QuietLegal(QuietNext(q, run[0]), run[1..]))
  }

  ghost function QuietAfter<T>(q: Queue<T>, run: seq<Action<T>>): Queue<T>
    requires QuietLegal(q, run)
    decreases |run|
  {
    if run == [] then q else QuietAfter(QuietNext(q, run[0]), run[1..])
  }

  lemma ZeroChangesNothing<T>(c: Cell<T>, a: Action<T>)
    requires Inv(c.AsRing()) && Enabled(c.AsRing(), a) && EndsWithZero(a)
    ensures QuietNext(c.AsRing(), a) == c.AsRing() && CellNext(c, a) == c
  {
    ZeroCountsOnlySignal(c.AsRing());
  }

  lemma SmallIsPlain<T>(a: Action<T>)
    requires Small(a) && !EndsWithZero(a)
    ensures Plain(a)
  {
  }

  lemma QuietIsNext<T>(q: Queue<T>, a: Action<T>)
    requires Shaped(q) && HeldOk(q) && Enabled(q, a) && !EndsWithZero(a)
    ensures QuietNext(q, a) == Next(q, a)
  {
  }

  lemma QuietStepAsRing<T>(c: Cell<T>, a: Action<T>)
    requires Inv(c.AsRing()) && Enabled(c.AsRing(), a) && Small(a) && WaitsForOne(c)
    ensures CellNext(c, a).AsRing() == QuietNext(c.AsRing(), a)
    ensures WaitsForOne(CellNext(c, a)) && Inv(CellNext(c, a).AsRing())
  {
    if EndsWithZero(a) {
      ZeroChangesNothing(c, a);
    } else {
      SmallIsPlain(a);
      QuietIsNext(c.AsRing(), a);
      StepAsRing(c, a);
      StepKeepsInv(c.AsRing(), a);
    }
  }

  /** In every interleaving of operations with counts at most 1 the queue and a ring of capacity 1,
      triggers of zero counts aside, are in the same state at every moment: they grant the same
      cell, sleep, throw and hand over the same elements. */
  lemma {:induction false} SameTraces<T>(c: Cell<T>, run: seq<Action<T>>)
    requires Inv(c.AsRing()) && WaitsForOne(c) && QuietLegal(c.AsRing(), run)
    requires forall a :: a in run ==> Small(a)
    ensures CellAfter(c, run).AsRing() == QuietAfter(c.AsRing(), run)
    decreases |run|
  {
    if run != [] {
      assert run[0] in run;
      QuietStepAsRing(c, run[0]);
      SameTraces(CellNext(c, run[0]), run[1..]);
    }
  }

  // ---- the class ----

  class SingleElementQueue<T> {
    const scheduler: PthreadScheduler
    var buffer: T
    var full: bool
    ghost var model: Cell<T>

    ghost predicate Valid()
      reads this, scheduler
    {
      && model.full == full && model.buffer == buffer
      && model.stopWrite == scheduler.interruptedNotFull
      && model.stopRead == scheduler.interruptedNotEmpty
      && scheduler.asleepNotFull == (model.producer.Waiting? && model.producer.asleep)
      && scheduler.asleepNotEmpty == (model.consumer.Waiting? && model.consumer.asleep)
    }

    constructor (initial: T)
      ensures Valid() && fresh(scheduler) && model.AsRing() == Created([initial])
    {
      scheduler := new PthreadScheduler();
      buffer := initial;
      full := false;
      model := Cell(false, initial, Active(0, 0), Active(0, 0), false, false, [], []);
    }

    method BeginWrite(one: bool) returns (r: Outcome)
      requires Valid() && !model.producer.Waiting?
      modifies this`model, scheduler`asleepNotFull
      ensures Valid() && model == old(model).BeginWrite(one) && r == OutcomeOf(model.producer)
      ensures r == if !full then Region(0, 1) else if !one then Region(0, 0)
                   else if scheduler.interruptedNotFull then InterruptedException else Sleeps
    {
      model := model.BeginWrite(one);
      if one {
        if full {
          var thrown := scheduler.WaitUntilNotFull();
          return if thrown then InterruptedException else Sleeps;
        }
      } else if full {
        return Region(0, 0);
      }
      return Region(0, 1);
    }

    /** The wait loop of a producer that has been woken goes round once more. */
    method ContinueBeginWrite() returns (r: Outcome)
      requires Valid() && model.producer.Waiting? && !model.producer.asleep
      modifies this`model, scheduler`asleepNotFull
      ensures Valid() && model == CellNext(old(model), Action<T>.RetryWrite) && r == OutcomeOf(model.producer)
      ensures r == if !full then Region(0, 1) else if scheduler.interruptedNotFull then InterruptedException else Sleeps
    {
      model := model.BeginWrite(true);
      if full {
        var thrown := scheduler.WaitUntilNotFull();
        return if thrown then InterruptedException else Sleeps;
      }
      return Region(0, 1);
    }

    method BeginRead(one: bool) returns (r: Outcome)
      requires Valid() && !model.consumer.Waiting?
      modifies this`model, scheduler`asleepNotEmpty
      ensures Valid() && model == old(model).BeginRead(one) && r == OutcomeOf(model.consumer)
      ensures r == if full then Region(0, 1) else if !one then Region(0, 0)
                   else if scheduler.interruptedNotEmpty then InterruptedException else Sleeps
    {
      model := model.BeginRead(one);
      if one {
        if !full {
          var thrown := scheduler.WaitUntilNotEmpty();
          return if thrown then InterruptedException else Sleeps;
        }
      } else if !full {
        return Region(0, 0);
      }
      return Region(0, 1);
    }

    /** The wait loop of a consumer that has been woken goes round once more. */
    method ContinueBeginRead() returns (r: Outcome)
      requires Valid() && model.consumer.Waiting? && !model.consumer.asleep
      modifies this`model, scheduler`asleepNotEmpty
      ensures Valid() && model == CellNext(old(model), Action<T>.RetryRead) && r == OutcomeOf(model.consumer)
      ensures r == if full then Region(0, 1) else if scheduler.interruptedNotEmpty then InterruptedException else Sleeps
    {
      model := model.BeginRead(true);
      if !full {
        var thrown := scheduler.WaitUntilNotEmpty();
        return if thrown then InterruptedException else Sleeps;
      }
      return Region(0, 1);
    }

    method Store(value: T)
      requires Valid()
      modifies this`model, this`buffer
      ensures Valid() && model == old(model).Store(value)
    {
      model := model.Store(value);
      buffer := value;
    }

    method EndWrite(one: bool)
      requires Valid() && !model.producer.Waiting?
      modifies this`model, this`full, scheduler`asleepNotEmpty
      ensures Valid() && model == old(model).EndWrite(one)
    {
      model := model.EndWrite(one);
      if one {
        full := true;
        scheduler.TriggerNotEmpty();
      }
    }

    method EndRead(one: bool)
      requires Valid() && !model.consumer.Waiting?
      modifies this`model, this`full, scheduler`asleepNotFull
      ensures Valid() && model == old(model).EndRead(one)
    {
      model := model.EndRead(one);
      if one {
        full := false;
        scheduler.TriggerNotFull();
      }
    }
  }
}
