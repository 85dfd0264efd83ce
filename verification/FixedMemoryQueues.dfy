/** FixedMemoryQueueImpl over an array, with PthreadScheduler. Each method is one section that runs
    with the mutex held (or, for Fill, one store by the caller) and is proved to be exactly one
    step of QueueProtocol, so everything proved there about runs holds of this class. */
module FixedMemoryQueues {
  import opened RingIndices
  import opened QueueProtocol
  import QueueBehaviour

  /** The two conditions and the two flags. With at most one waiter per condition it suffices to
      record whether that waiter is asleep. */
  class PthreadScheduler {
    var interruptedNotFull: bool
    var interruptedNotEmpty: bool
    var asleepNotFull: bool
    var asleepNotEmpty: bool

    constructor ()
      ensures !interruptedNotFull && !interruptedNotEmpty && !asleepNotFull && !asleepNotEmpty
    {
      interruptedNotFull, interruptedNotEmpty := false, false;
      asleepNotFull, asleepNotEmpty := false, false;
    }

    /** Throws if interrupted, otherwise blocks in pthread_cond_wait. */
    method WaitUntilNotFull() returns (thrown: bool)
      requires !asleepNotFull
      modifies `asleepNotFull
      ensures thrown == interruptedNotFull && asleepNotFull == !thrown
    {
      if interruptedNotFull { return true; }
      asleepNotFull := true;
      return false;
    }

    method WaitUntilNotEmpty() returns (thrown: bool)
      requires !asleepNotEmpty
      modifies `asleepNotEmpty
      ensures thrown == interruptedNotEmpty && asleepNotEmpty == !thrown
    {
      if interruptedNotEmpty { return true; }
      asleepNotEmpty := true;
      return false;
    }

    method TriggerNotFull()
      modifies `asleepNotFull
      ensures !asleepNotFull
    {
      asleepNotFull := false;
    }

    method TriggerNotEmpty()
      modifies `asleepNotEmpty
      ensures !asleepNotEmpty
    {
      asleepNotEmpty := false;
    }

    method InterruptNotFull()
      modifies `interruptedNotFull, `asleepNotFull
      ensures interruptedNotFull && !asleepNotFull
    {
      interruptedNotFull := true;
      TriggerNotFull();
    }

    method InterruptNotEmpty()
      modifies `interruptedNotEmpty, `asleepNotEmpty
      ensures interruptedNotEmpty && !asleepNotEmpty
    {
      interruptedNotEmpty := true;
      TriggerNotEmpty();
    }

    method ResumeNotFull()
      modifies `interruptedNotFull, `asleepNotFull
      ensures !interruptedNotFull && !asleepNotFull
    {
      interruptedNotFull := false;
      TriggerNotFull();
    }

    method ResumeNotEmpty()
      modifies `interruptedNotEmpty, `asleepNotEmpty
      ensures !interruptedNotEmpty && !asleepNotEmpty
    {
      interruptedNotEmpty := false;
      TriggerNotEmpty();
    }
  }

  datatype Outcome = Region(start: nat, len: nat) | Sleeps | InterruptedException

  function OutcomeOf(side: Side): Outcome {
    match side
    case Active(start, len) => Region(start, len)
    case Waiting(_, _) => Sleeps
    case Thrown => InterruptedException
  }

  class FixedMemoryQueue<T> {
    const buff: array<T>
    const scheduler: PthreadScheduler
    var first: nat
    var last: nat
    var size: nat
    /** The protocol state this object is in: the fields, where the two threads are, and the
        histories. */
    ghost var model: Queue<T>

    ghost predicate Valid()
      reads this, scheduler, buff
    {
      Inv(model) && Represents()
    }

    ghost predicate Represents()
      reads this, scheduler, buff
    {
      && model.ring == Ring(buff.Length, first, last, size)
      && model.cells == buff[..]
      && model.stopWrite == scheduler.interruptedNotFull
      && model.stopRead == scheduler.interruptedNotEmpty
      && scheduler.asleepNotFull == (model.producer.Waiting? && model.producer.asleep)
      && scheduler.asleepNotEmpty == (model.consumer.Waiting? && model.consumer.asleep)
    }

    /** The elements a reader will get, oldest first. */
    ghost function Unread(): seq<T>
      reads this, scheduler, buff
      requires Valid()
    {
      Live(model.ring, model.cells)
    }

    /** begin_write returns all free cells from `first` on up to the end of the buffer or the next
        live cell, exactly if there is room; it throws exactly if there is none and the queue is
        interrupted for writing, and otherwise puts its thread to sleep. */
    ghost predicate GrantedForWriting(countMin: nat, r: Outcome)
      requires model.ring.Valid()
      reads this, scheduler
    {
      && (r.Region? <==> size + countMin <= buff.Length)
      && (r.Region? ==> r.start == first && FreeRegion(model.ring, r.start, r.len))
      && (r.InterruptedException? <==> size + countMin > buff.Length && scheduler.interruptedNotFull)
      && (r.Sleeps? ==> scheduler.asleepNotFull)
    }

    ghost predicate GrantedForReading(countMin: nat, r: Outcome)
      requires model.ring.Valid()
      reads this, scheduler
    {
      && (r.Region? <==> countMin <= size)
      && (r.Region? ==> r.start == last && LiveRegion(model.ring, r.start, r.len))
      && (r.InterruptedException? <==> countMin > size && scheduler.interruptedNotEmpty)
      && (r.Sleeps? ==> scheduler.asleepNotEmpty)
    }

    constructor (buffer: array<T>)
      ensures Valid() && buff == buffer && fresh(scheduler)
      ensures model == Created(buffer[..])
    {
      buff := buffer;
      scheduler := new PthreadScheduler();
      first, last, size := 0, 0, 0;
      model := Created(buffer[..]);
    }

    method WriteRegion() returns (result: nat)
      requires Valid()
      ensures result == model.ring.WriteRun()
    {
      if last > first {
        result := last - first;
      } else if last == first { // "full" or "empty", the size determines which
        result := if size == 0 then buff.Length - first else 0;
      } else {
        result := buff.Length - first;
      }
    }

    method ReadRegion() returns (result: nat)
      requires Valid()
      ensures result == model.ring.ReadRun()
    {
      if first > last {
        result := first - last;
      } else if size > 0 {
        result := buff.Length - last;
      } else {
        result := 0;
      }
    }

    /** One pass of begin_write's wait loop and, if it falls through, its result. */
    method TryBeginWrite(count: nat) returns (r: Outcome)
      requires Valid() && !scheduler.asleepNotFull
      modifies this`model, scheduler`asleepNotFull
      ensures Valid() && model == old(model).(producer := TryWrite(old(model), count))
      ensures r == OutcomeOf(model.producer) && GrantedForWriting(count, r)
    {
      QueueBehaviour.FreeRun(model.ring);
      model := model.(producer := TryWrite(model, count));
      if buff.Length - size < count {
        var thrown := scheduler.WaitUntilNotFull();
        return if thrown then InterruptedException else Sleeps;
      }
      var result := WriteRegion();
      return Region(first, result);
    }

    method TryBeginRead(count: nat) returns (r: Outcome)
      requires Valid() && !scheduler.asleepNotEmpty
      modifies this`model, scheduler`asleepNotEmpty
      ensures Valid() && model == old(model).(consumer := TryRead(old(model), count))
      ensures r == OutcomeOf(model.consumer) && GrantedForReading(count, r)
    {
      QueueBehaviour.LiveRun(model.ring, model.cells);
      model := model.(consumer := TryRead(model, count));
      if size < count {
        var thrown := scheduler.WaitUntilNotEmpty();
        return if thrown then InterruptedException else Sleeps;
      }
      var result := ReadRegion();
      return Region(last, result);
    }

    method BeginWrite(countMin: nat) returns (r: Outcome)
      requires Valid() && Enabled(model, Action<T>.BeginWrite(countMin))
      modifies this`model, scheduler`asleepNotFull
      ensures Valid() && model == old(Next(model, Action<T>.BeginWrite(countMin)))
      ensures r == OutcomeOf(model.producer) && GrantedForWriting(countMin, r)
    {
      r := TryBeginWrite(countMin);
    }

    /** The producer has been signalled or woke up by itself, and has the mutex again. */
    method ContinueBeginWrite(countMin: nat) returns (r: Outcome)
      requires Valid() && Enabled(model, Action<T>.RetryWrite) && countMin == model.producer.need
      modifies this`model, scheduler`asleepNotFull
      ensures Valid() && model == old(Next(model, Action<T>.RetryWrite))
      ensures r == OutcomeOf(model.producer) && GrantedForWriting(countMin, r)
    {
      r := TryBeginWrite(countMin);
    }

    method BeginRead(countMin: nat) returns (r: Outcome)
      requires Valid() && Enabled(model, Action<T>.BeginRead(countMin))
      modifies this`model, scheduler`asleepNotEmpty
      ensures Valid() && model == old(Next(model, Action<T>.BeginRead(countMin)))
      ensures r == OutcomeOf(model.consumer) && GrantedForReading(countMin, r)
    {
      r := TryBeginRead(countMin);
    }

    method ContinueBeginRead(countMin: nat) returns (r: Outcome)
      requires Valid() && Enabled(model, Action<T>.RetryRead) && countMin == model.consumer.need
      modifies this`model, scheduler`asleepNotEmpty
      ensures Valid() && model == old(Next(model, Action<T>.RetryRead))
      ensures r == OutcomeOf(model.consumer) && GrantedForReading(countMin, r)
    {
      r := TryBeginRead(countMin);
    }

    /** The producer stores through the pointer it got, without the mutex. */
    method Store(start: nat, offset: nat, value: T)
      requires Valid() && Enabled(model, Action<T>.Fill(offset, value)) && start == model.producer.start
      modifies this`model, buff
      ensures Valid() && model == old(Next(model, Action<T>.Fill(offset, value)))
    {
      StepKeepsInv(model, Action<T>.Fill(offset, value));
      model := Next(model, Action<T>.Fill(offset, value));
      buff[start + offset] := value;
      assert buff[..] == old(buff[..])[start + offset := value];
    }

    method Increment(at: nat, count: nat) returns (result: nat)
      requires at + count <= buff.Length
      ensures result == if at + count == buff.Length then 0 else at + count
    {
      result := at + count;
      if result == buff.Length { result := 0; }
    }

    method EndWrite(count: nat)
      requires Valid() && Enabled(model, Action<T>.EndWrite(count))
      modifies this`first, this`size, this`model, scheduler`asleepNotEmpty
      ensures Valid() && model == old(Next(model, Action<T>.EndWrite(count)))
    {
      StepKeepsInv(model, Action<T>.EndWrite(count));
      CommitFields(model, count);
      model := Next(model, Action<T>.EndWrite(count));
      first := Increment(first, count);
      size := size + count;
      scheduler.TriggerNotEmpty();
    }

    method EndRead(count: nat)
      requires Valid() && Enabled(model, Action<T>.EndRead(count))
      modifies this`last, this`size, this`model, scheduler`asleepNotFull
      ensures Valid() && model == old(Next(model, Action<T>.EndRead(count)))
    {
      StepKeepsInv(model, Action<T>.EndRead(count));
      ReleaseFields(model, count);
      model := Next(model, Action<T>.EndRead(count));
      last := Increment(last, count);
      size := size - count;
      scheduler.TriggerNotFull();
    }

    method InterruptWrite()
      requires Valid()
      modifies this`model, scheduler
      ensures Valid() && model == old(Next(model, Action<T>.InterruptWrite))
      ensures scheduler.interruptedNotFull && !scheduler.asleepNotFull
    {
      model := Next(model, Action<T>.InterruptWrite);
      scheduler.InterruptNotFull();
    }

    method InterruptRead()
      requires Valid()
      modifies this`model, scheduler
      ensures Valid() && model == old(Next(model, Action<T>.InterruptRead))
      ensures scheduler.interruptedNotEmpty && !scheduler.asleepNotEmpty
    {
      model := Next(model, Action<T>.InterruptRead);
      scheduler.InterruptNotEmpty();
    }

    method ResumeWrite()
      requires Valid()
      modifies this`model, scheduler
      ensures Valid() && model == old(Next(model, Action<T>.ResumeWrite))
      ensures !scheduler.interruptedNotFull && !scheduler.asleepNotFull
    {
      model := Next(model, Action<T>.ResumeWrite);
      scheduler.ResumeNotFull();
    }

    method ResumeRead()
      requires Valid()
      modifies this`model, scheduler
      ensures Valid() && model == old(Next(model, Action<T>.ResumeRead))
      ensures !scheduler.interruptedNotEmpty && !scheduler.asleepNotEmpty
    {
      model := Next(model, Action<T>.ResumeRead);
      scheduler.ResumeNotEmpty();
    }

    /** clear(). It leaves the queue in order exactly if the consumer holds no cells, the producer
        none but those at the start of the buffer, and no producer sleeps for room there is now. */
    method Clear()
      requires Valid()
      modifies this`first, this`last, this`size, this`model
      ensures Represents() && model == Cleared(old(model)) && Live(model.ring, model.cells) == []
      ensures Valid() <==> old(
        && (model.consumer.Active? ==> model.consumer.len == 0)
        && (model.producer.Active? && model.producer.len > 0 ==> model.producer.start == 0)
        && !(scheduler.asleepNotFull && model.producer.need <= buff.Length))
    {
      ClearedInv(model);
      first, last, size := 0, 0, 0;
      model := Cleared(model);
    }

    /** push_one: appends the element if there is room; otherwise sleeps or throws in begin_write
        and leaves the elements alone. */
    method PushOne(data: T) returns (r: Outcome)
      requires Valid() && !model.producer.Waiting?
      modifies this, scheduler, buff
      ensures Valid()
      ensures r.Region? <==> old(size) < buff.Length
      ensures Unread() == if r.Region? then old(Unread()) + [data] else old(Unread())
      ensures model.consumed == old(model.consumed)
      ensures r.InterruptedException? <==> old(size == buff.Length && scheduler.interruptedNotFull)
      ensures r.Sleeps? ==> model.producer == Waiting(1, true)
    {
      if size < buff.Length { PushEffect(model, data); }
      r := BeginWrite(1);
      if r.Region? { PutOne(r.start, data); }
    }

    /** push_one once its thread has been woken: it goes on in the same way. */
    method ContinuePushOne(data: T) returns (r: Outcome)
      requires Valid() && model.producer == Waiting(1, false)
      modifies this, scheduler, buff
      ensures Valid()
      ensures r.Region? <==> old(size) < buff.Length
      ensures Unread() == if r.Region? then old(Unread()) + [data] else old(Unread())
      ensures model.consumed == old(model.consumed)
      ensures r.InterruptedException? <==> old(size == buff.Length && scheduler.interruptedNotFull)
      ensures r.Sleeps? ==> model.producer == Waiting(1, true)
    {
      if size < buff.Length { PushEffect(model, data); }
      r := ContinueBeginWrite(1);
      if r.Region? { PutOne(r.start, data); }
    }

    /** The store and end_write of push_one. */
    method PutOne(start: nat, data: T)
      requires Valid() && model.producer.Active? && model.producer.len >= 1 && start == model.producer.start
      requires Live(model.ring, model.cells[start := data]) == Live(model.ring, model.cells)
      modifies this, scheduler, buff
      ensures Valid() && Unread() == old(Unread()) + [data] && model.consumed == old(model.consumed)
    {
      Store(start, 0, data);
      CommitOne(model, data);
      EndWrite(1);
    }

    /** pop_one: removes and returns the oldest element, or sleeps or throws. */
    method PopOne() returns (r: Outcome, data: seq<T>)
      requires Valid() && !model.consumer.Waiting?
      modifies this, scheduler
      ensures Valid()
      ensures r.Region? <==> old(size) > 0
      ensures |data| == (if r.Region? then 1 else 0) && data + Unread() == old(Unread())
      ensures model.committed == old(model.committed)
      ensures r.InterruptedException? <==> old(size == 0 && scheduler.interruptedNotEmpty)
      ensures r.Sleeps? ==> model.consumer == Waiting(1, true)
    {
      data := [];
      r := BeginRead(1);
      if r.Region? { data := TakeOne(r.start); }
    }

    /** pop_one once its thread has been woken. */
    method ContinuePopOne() returns (r: Outcome, data: seq<T>)
      requires Valid() && model.consumer == Waiting(1, false)
      modifies this, scheduler
      ensures Valid()
      ensures r.Region? <==> old(size) > 0
      ensures |data| == (if r.Region? then 1 else 0) && data + Unread() == old(Unread())
      ensures model.committed == old(model.committed)
      ensures r.InterruptedException? <==> old(size == 0 && scheduler.interruptedNotEmpty)
      ensures r.Sleeps? ==> model.consumer == Waiting(1, true)
    {
      data := [];
      r := ContinueBeginRead(1);
      if r.Region? { data := TakeOne(r.start); }
    }

    /** The load and end_read of pop_one. */
    method TakeOne(start: nat) returns (data: seq<T>)
      requires Valid() && model.consumer.Active? && model.consumer.len >= 1 && start == model.consumer.start
      modifies this, scheduler
      ensures Valid() && |data| == 1 && data + Unread() == old(Unread())
      ensures model.committed == old(model.committed)
    {
      data := [buff[start]];
      ReleaseOne(model);
      EndRead(1);
    }
  }
}
