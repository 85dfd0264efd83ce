/** One queue shared by one producer thread and one consumer thread, under PthreadScheduler.

    Every section that runs with the queue's mutex held is one atomic step. The cells are filled
    and read between the begin and end calls, without the mutex, one cell per step. A thread in
    `pthread_cond_wait` is asleep until it is signalled or wakes up spuriously
    (`pthread_cond_wait` and `pthread_cond_signal`, chapter 3 of the System Interfaces volume of
    POSIX.1-2017); it then retries the wait loop. */
module QueueProtocol {
  import opened RingIndices
  import opened Sequences

  /** Where a thread is with respect to its side of the queue. */
  datatype Side =
    | Active(start: nat, len: nat)     // running; may touch the cells [start, start + len)
    | Waiting(need: nat, asleep: bool) // in the wait loop of a begin call for `need` elements
    | Thrown                           // the begin call ended in InterruptedException

  datatype Queue<T> = Queue(
    ring: Ring,
    cells: seq<T>,
    producer: Side,
    consumer: Side,
    stopWrite: bool,  // m_interrupted_not_full
    stopRead: bool,   // m_interrupted_not_empty
    committed: seq<T>, // all elements handed over by end_write so far
    consumed: seq<T>   // all elements released by end_read so far
  )

  datatype Action<T> =
    | BeginWrite(count: nat) | RetryWrite | Fill(offset: nat, value: T) | EndWrite(count: nat)
    | BeginRead(count: nat) | RetryRead | EndRead(count: nat)
    | InterruptWrite | ResumeWrite | SpuriousWakeWrite
    | InterruptRead | ResumeRead | SpuriousWakeRead

  predicate Shaped<T>(q: Queue<T>) {
    q.ring.Valid() && |q.cells| == q.ring.capacity
  }

  function Created<T>(cells: seq<T>): Queue<T> {
    Queue(Empty(|cells|), cells, Active(0, 0), Active(0, 0), false, false, [], [])
  }

  /** pthread_cond_signal with at most one thread waiting. */
  function Signalled(side: Side): Side {
    if side.Waiting? then side.(asleep := false) else side
  }

  /** One pass of the loop in begin_write: return a region, throw, or go to sleep. */
  function TryWrite<T>(q: Queue<T>, count: nat): Side
    requires Shaped(q)
  {
    if q.ring.Available() < count then
      if q.stopWrite then Thrown else Waiting(count, true)
    else Active(q.ring.first, q.ring.WriteRun())
  }

  function TryRead<T>(q: Queue<T>, count: nat): Side
    requires Shaped(q)
  {
    if q.ring.size < count then
      if q.stopRead then Thrown else Waiting(count, true)
    else Active(q.ring.last, q.ring.ReadRun())
  }

  /** What a thread may do: fill and commit only cells it was granted and still holds, retry only
      after having been woken. Interrupt and resume may come from any thread at any time. */
  predicate Enabled<T>(q: Queue<T>, a: Action<T>) {
    match a
    case BeginWrite(_) => !q.producer.Waiting?
    case RetryWrite => q.producer.Waiting? && !q.producer.asleep
    case Fill(offset, _) => q.producer.Active? && offset < q.producer.len
    case EndWrite(count) => q.producer.Active? && count <= q.producer.len
    case BeginRead(_) => !q.consumer.Waiting?
    case RetryRead => q.consumer.Waiting? && !q.consumer.asleep
    case EndRead(count) => q.consumer.Active? && count <= q.consumer.len
    case SpuriousWakeWrite => q.producer.Waiting?
    case SpuriousWakeRead => q.consumer.Waiting?
    case _ => true
  }

  /** A region that is held lies where the next begin call would put it. */
  predicate HeldOk<T>(q: Queue<T>)
    requires Shaped(q)
  {
    && (q.producer.Active? && q.producer.len > 0 ==>
      q.producer.start == q.ring.first && q.producer.len <= q.ring.WriteRun())
    && (q.consumer.Active? && q.consumer.len > 0 ==>
      q.consumer.start == q.ring.last && q.consumer.len <= q.ring.ReadRun())
  }

  /** No lost wakeup: a thread asleep still lacks what it asked for, and is not interrupted. */
  predicate WakeupsOk<T>(q: Queue<T>)
    requires Shaped(q)
  {
    && (q.producer.Waiting? && q.producer.asleep ==>
      q.ring.Available() < q.producer.need && !q.stopWrite)
    && (q.consumer.Waiting? && q.consumer.asleep ==>
      q.ring.size < q.consumer.need && !q.stopRead)
  }

  ghost predicate Inv<T>(q: Queue<T>) {
    && Shaped(q)
    && HeldOk(q)
    && WakeupsOk(q)
    && q.committed == q.consumed + Live(q.ring, q.cells)
  }

  function Next<T>(q: Queue<T>, a: Action<T>): Queue<T>
    requires Shaped(q) && HeldOk(q) && Enabled(q, a)
  {
    match a
    case BeginWrite(count) => q.(producer := TryWrite(q, count))
    case RetryWrite => q.(producer := TryWrite(q, q.producer.need))
    case Fill(offset, value) => q.(cells := q.cells[q.producer.start + offset := value])
    case EndWrite(count) =>
      q.(ring := q.ring.Written(count),
         committed := q.committed + q.cells[q.ring.first..q.ring.first + count],
         producer := Active(q.producer.start + count, q.producer.len - count),
         consumer := Signalled(q.consumer))
    case BeginRead(count) => q.(consumer := TryRead(q, count))
    case RetryRead => q.(consumer := TryRead(q, q.consumer.need))
    case EndRead(count) =>
      q.(ring := q.ring.Consumed(count),
         consumed := q.consumed + q.cells[q.ring.last..q.ring.last + count],
         consumer := Active(q.consumer.start + count, q.consumer.len - count),
         producer := Signalled(q.producer))
    case InterruptWrite => q.(stopWrite := true, producer := Signalled(q.producer))
    case ResumeWrite => q.(stopWrite := false, producer := Signalled(q.producer))
    case SpuriousWakeWrite => q.(producer := q.producer.(asleep := false))
    case InterruptRead => q.(stopRead := true, consumer := Signalled(q.consumer))
    case ResumeRead => q.(stopRead := false, consumer := Signalled(q.consumer))
    case SpuriousWakeRead => q.(consumer := q.consumer.(asleep := false))
  }

  // ---- one step ----

  lemma CommitKeepsHeld<T>(q: Queue<T>, count: nat)
    requires Shaped(q) && HeldOk(q) && Enabled(q, EndWrite(count))
    ensures HeldOk(Next(q, EndWrite(count)))
  {
    RunsAfterWrite(q.ring, count);
  }

  lemma CommitAppends<T>(q: Queue<T>, count: nat)
    requires Inv(q) && Enabled(q, EndWrite(count))
    ensures var q' := Next(q, EndWrite(count)); q'.committed == q'.consumed + Live(q'.ring, q'.cells)
  {
    WrittenAppends(q.ring, q.cells, count);
    Associative(q.consumed, Live(q.ring, q.cells), q.cells[q.ring.first..q.ring.first + count]);
  }

  lemma ReleaseKeepsHeld<T>(q: Queue<T>, count: nat)
    requires Shaped(q) && HeldOk(q) && Enabled(q, EndRead(count))
    ensures HeldOk(Next(q, EndRead(count)))
  {
    RunsAfterRead(q.ring, count);
  }

  lemma ReleaseHistory<T>(r: Ring, cells: seq<T>, committed: seq<T>, consumed: seq<T>, count: nat)
    requires r.Valid() && |cells| == r.capacity && count <= r.ReadRun()
    requires committed == consumed + Live(r, cells)
    ensures committed == (consumed + cells[r.last..r.last + count]) + Live(r.Consumed(count), cells)
  {
    ConsumedDrops(r, cells, count);
    OldestCells(r, cells, count);
    MovesOver(consumed, Live(r, cells), count);
  }

  lemma ReleaseMoves<T>(q: Queue<T>, count: nat)
    requires Inv(q) && Enabled(q, EndRead(count))
    ensures var q' := Next(q, EndRead(count)); q'.committed == q'.consumed + Live(q'.ring, q'.cells)
  {
    ReleaseHistory(q.ring, q.cells, q.committed, q.consumed, count);
  }

  lemma FillKeepsInv<T>(q: Queue<T>, offset: nat, value: T)
    requires Inv(q) && Enabled(q, Fill(offset, value))
    ensures Inv(Next(q, Fill(offset, value)))
  {
    FillKeepsLive(q.ring, q.cells, q.producer.start + offset, value);
  }

  lemma OtherStepKeepsInv<T>(q: Queue<T>, a: Action<T>)
    requires Inv(q) && Enabled(q, a) && !a.Fill? && !a.EndWrite? && !a.EndRead?
    ensures Inv(Next(q, a))
  {
  }

  /** Every step of either thread, every interrupt, resume and spurious wakeup keeps the invariant. */
  lemma StepKeepsInv<T>(q: Queue<T>, a: Action<T>)
    requires Inv(q) && Enabled(q, a)
    ensures Inv(Next(q, a))
  {
    if a.Fill? {
      FillKeepsInv(q, a.offset, a.value);
    } else if a.EndWrite? {
      CommitKeepsHeld(q, a.count);
      CommitAppends(q, a.count);
    } else if a.EndRead? {
      ReleaseKeepsHeld(q, a.count);
      ReleaseMoves(q, a.count);
    } else {
      OtherStepKeepsInv(q, a);
    }
  }

  // ---- whole runs ----

  /** The actions can be performed one after the other. */
  ghost predicate Legal<T>(q: Queue<T>, run: seq<Action<T>>)
    decreases |run|
  {
    run == [] || (Shaped(q) && HeldOk(q) && Enabled(q, run[0]) && Legal(Next(q, run[0]), run[1..]))
  }

  ghost function After<T>(q: Queue<T>, run: seq<Action<T>>): Queue<T>
    requires Legal(q, run)
    decreases |run|
  {
    if run == [] then q else After(Next(q, run[0]), run[1..])
  }

  lemma {:induction false} RunKeepsInv<T>(q: Queue<T>, run: seq<Action<T>>)
    requires Inv(q) && Legal(q, run)
    ensures Inv(After(q, run))
    decreases |run|
  {
    if run != [] {
      StepKeepsInv(q, run[0]);
      RunKeepsInv(Next(q, run[0]), run[1..]);
    }
  }

  /** From a reachable state every enabled step is again legal: the cells a thread holds by the
      rules of the begin and end calls never leave the buffer. */
  lemma {:induction false} LegalSteps<T>(q: Queue<T>, run: seq<Action<T>>, a: Action<T>)
    requires Inv(q) && Legal(q, run) && Enabled(After(q, run), a)
    ensures Legal(q, run + [a]) && After(q, run + [a]) == (RunKeepsInv(q, run); Next(After(q, run), a))
    decreases |run|
  {
    if run == [] {
      assert (run + [a])[1..] == [];
    } else {
      StepKeepsInv(q, run[0]);
      LegalSteps(Next(q, run[0]), run[1..], a);
      assert (run + [a])[1..] == run[1..] + [a];
    }
  }

  /** The cells held for writing hold no unread element and are not held for reading; the cells
      held for reading hold exactly the oldest unread elements. */
  ghost predicate RaceFree<T>(q: Queue<T>)
    requires Shaped(q)
  {
    && (q.producer.Active? ==> forall c: nat :: q.producer.start <= c < q.producer.start + q.producer.len ==>
         && !q.ring.IsLive(c)
         && !(q.consumer.Active? && q.consumer.start <= c < q.consumer.start + q.consumer.len))
    && (q.consumer.Active? && q.consumer.len > 0 ==>
         && |q.consumed| + q.consumer.len <= |q.committed|
         && q.consumer.start + q.consumer.len <= |q.cells|
         && q.cells[q.consumer.start..q.consumer.start + q.consumer.len]
            == q.committed[|q.consumed|..|q.consumed| + q.consumer.len])
  }

  lemma HeldForReading<T>(q: Queue<T>)
    requires Inv(q) && q.consumer.Active? && q.consumer.len > 0
    ensures |q.consumed| + q.consumer.len <= |q.committed|
    ensures q.consumer.start + q.consumer.len <= |q.cells|
    ensures q.cells[q.consumer.start..q.consumer.start + q.consumer.len]
         == q.committed[|q.consumed|..|q.consumed| + q.consumer.len]
  {
    OldestCells(q.ring, q.cells, q.consumer.len);
    var live := Live(q.ring, q.cells);
    assert q.committed[|q.consumed|..] == live;
  }

  lemma InvIsRaceFree<T>(q: Queue<T>)
    requires Inv(q)
    ensures RaceFree(q)
  {
    WriteRunIsMaximal(q.ring);
    ReadRunIsMaximal(q.ring, q.cells);
    if q.consumer.Active? && q.consumer.len > 0 {
      HeldForReading(q);
    }
  }

  /** In every interleaving of one producer and one consumer, with interrupts, resumes and
      spurious wakeups anywhere: no races, what is consumed is a prefix of what is committed, the
      fill level is their difference and never exceeds the capacity, and no wakeup is lost. */
  lemma EveryInterleaving<T>(cells: seq<T>, run: seq<Action<T>>)
    requires Legal(Created(cells), run)
    ensures var q := After(Created(cells), run);
      && Shaped(q)
      && RaceFree(q)
      && q.consumed <= q.committed
      && q.ring.size == |q.committed| - |q.consumed| <= |cells|
      && WakeupsOk(q)
  {
    RunKeepsInv(Created(cells), run);
    InvIsRaceFree(After(Created(cells), run));
    RunKeepsCapacity(Created(cells), run);
  }

  lemma {:induction false} RunKeepsCapacity<T>(q: Queue<T>, run: seq<Action<T>>)
    requires Inv(q) && Legal(q, run)
    ensures After(q, run).ring.capacity == q.ring.capacity
    decreases |run|
  {
    if run != [] {
      StepKeepsInv(q, run[0]);
      RunKeepsCapacity(Next(q, run[0]), run[1..]);
    }
  }

  // ---- the fields of the classes ----

  lemma CommitFields<T>(q: Queue<T>, count: nat)
    requires Shaped(q) && HeldOk(q) && Enabled(q, EndWrite(count))
    ensures var r := Next(q, EndWrite(count)).ring;
      r == Ring(q.ring.capacity, q.ring.Increment(q.ring.first, count), q.ring.last, q.ring.size + count)
  {
  }

  lemma ReleaseFields<T>(q: Queue<T>, count: nat)
    requires Shaped(q) && HeldOk(q) && Enabled(q, EndRead(count))
    ensures var r := Next(q, EndRead(count)).ring;
      r == Ring(q.ring.capacity, q.ring.first, q.ring.Increment(q.ring.last, count), q.ring.size - count)
  {
  }

  // ---- one element at a time ----

  lemma CommitOne<T>(q: Queue<T>, data: T)
    requires Inv(q) && Enabled(q, EndWrite(1)) && q.cells[q.ring.first] == data
    ensures var q' := Next(q, EndWrite(1));
      && q'.consumed == q.consumed
      && Live(q'.ring, q'.cells) == Live(q.ring, q.cells) + [data]
  {
    WrittenAppends(q.ring, q.cells, 1);
    assert q.cells[q.ring.first..q.ring.first + 1] == [data];
  }

  /** push_one, when there is room, in the first or a later pass of its wait loop. */
  lemma PushEffect<T>(q: Queue<T>, data: T)
    requires Inv(q) && q.ring.Available() >= 1
    ensures var q1 := q.(producer := TryWrite(q, 1));
      && q1.producer.Active? && q1.producer.start == q1.ring.first && q1.producer.len >= 1 && Inv(q1)
      && var q2 := Next(q1, Fill(0, data));
         Inv(q2) && q2.cells[q2.ring.first] == data && Live(q2.ring, q2.cells) == Live(q.ring, q.cells)
  {
    FillKeepsLive(q.ring, q.cells, q.ring.first, data);
    StepKeepsInv(q.(producer := TryWrite(q, 1)), Fill(0, data));
  }

  lemma ReleaseOne<T>(q: Queue<T>)
    requires Inv(q) && Enabled(q, EndRead(1))
    ensures var q' := Next(q, EndRead(1));
      && q'.committed == q.committed
      && Live(q.ring, q.cells) == [q.cells[q.ring.last]] + Live(q'.ring, q'.cells)
  {
    ConsumedDrops(q.ring, q.cells, 1);
    OldestCells(q.ring, q.cells, 1);
    FirstAndRest(Live(q.ring, q.cells));
  }

  // ---- clear() ----

  /** clear() empties the queue and signals nobody. */
  function Cleared<T>(q: Queue<T>): Queue<T> {
    q.(ring := Empty(q.ring.capacity), committed := q.consumed)
  }

  /** clear() loses a wakeup exactly when the producer is asleep waiting for no more elements than
      the queue can hold: the room it asked for is there now, and nothing will wake it. */
  lemma ClearWakeups<T>(q: Queue<T>)
    requires Inv(q)
    ensures WakeupsOk(Cleared(q)) <==>
      !(q.producer.Waiting? && q.producer.asleep && q.producer.need <= q.ring.capacity)
  {
    if q.consumer.Waiting? && q.consumer.asleep {
      assert q.ring.size < q.consumer.need;
    }
  }

  /** clear() keeps everything in order exactly when the consumer holds no cells, the producer holds
      none either or those at the start of the buffer, and no wakeup is lost. */
  lemma ClearedInv<T>(q: Queue<T>)
    requires Inv(q)
    ensures Inv(Cleared(q)) <==>
      && (q.consumer.Active? ==> q.consumer.len == 0)
      && (q.producer.Active? && q.producer.len > 0 ==> q.producer.start == 0)
      && !(q.producer.Waiting? && q.producer.asleep && q.producer.need <= q.ring.capacity)
  {
    ClearWakeups(q);
    assert Live(Cleared(q).ring, q.cells) == [];
    assert q.consumed + [] == q.consumed;
  }

  /** A producer that fills the queue, asks for one more cell and falls asleep is not woken when the
      queue is cleared. */
  lemma ClearLosesWakeup<T>(x: T)
    ensures var run: seq<Action<T>> := [BeginWrite(2), EndWrite(2), BeginWrite(1)];
      && Legal(Created([x, x]), run)
      && var q := Cleared(After(Created([x, x]), run));
         q.producer == Waiting(1, true) && q.ring.Available() == 2 && !WakeupsOk(q)
  {
    var run: seq<Action<T>> := [BeginWrite(2), EndWrite(2), BeginWrite(1)];
    var q0 := Created([x, x]);
    var q1 := Next(q0, run[0]);
    var q2 := Next(q1, run[1]);
    var q3 := Next(q2, run[2]);
    assert run[1..][1..][1..] == [] && run[1..][1..] == [run[2]] && run[1..] == [run[1], run[2]];
    assert Legal(q3, []) && After(q3, []) == q3;
    assert Legal(q2, run[1..][1..]) && After(q2, run[1..][1..]) == q3;
    assert Legal(q1, run[1..]) && After(q1, run[1..]) == q3;
    assert Legal(q0, run) && After(q0, run) == q3;
  }

  // ---- what one thread sees of the other's steps ----

  predicate ByProducer<T>(a: Action<T>) {
    a.BeginWrite? || a.RetryWrite? || a.Fill? || a.EndWrite?
  }

  predicate ByConsumer<T>(a: Action<T>) {
    a.BeginRead? || a.RetryRead? || a.EndRead?
  }

  /** The producer's steps at most wake the consumer: the elements it holds stay as they are. */
  lemma ConsumerUndisturbed<T>(q: Queue<T>, a: Action<T>)
    requires Inv(q) && Enabled(q, a) && !ByConsumer(a)
    ensures var q' := Next(q, a);
      && q'.consumed == q.consumed
      && q.committed <= q'.committed
      && q'.ring.last == q.ring.last
      && (q.consumer.Waiting? ==> q'.consumer.Waiting? && q'.consumer.need == q.consumer.need)
      && (!q.consumer.Waiting? ==> q'.consumer == q.consumer)
  {
  }

  lemma ProducerUndisturbed<T>(q: Queue<T>, a: Action<T>)
    requires Inv(q) && Enabled(q, a) && !ByProducer(a)
    ensures var q' := Next(q, a);
      && q'.committed == q.committed
      && q'.cells == q.cells
      && q'.ring.first == q.ring.first
      && (q.producer.Waiting? ==> q'.producer.Waiting? && q'.producer.need == q.producer.need)
      && (!q.producer.Waiting? ==> q'.producer == q.producer)
  {
  }
}
