/** What the steps of QueueProtocol mean to the threads that take them: which region a begin call
    grants, when it throws and when it sleeps, what an interrupt and a resume change, and that a
    region may be committed or released in parts. */
module QueueBehaviour {
  import opened RingIndices
  import opened QueueProtocol
  import opened Sequences

  // ---- begin calls ----

  /** A begin_write for `count` elements grants all free cells from `first` on if there is room,
      throws if there is none and the side is interrupted, and sleeps otherwise. */
  ghost predicate WriteOutcome<T>(q: Queue<T>, count: nat, side: Side)
    requires q.ring.Valid()
  {
    if q.ring.size + count <= q.ring.capacity then side.Active? && FreeRegion(q.ring, side.start, side.len)
    else if q.stopWrite then side == Thrown
    else side == Waiting(count, true)
  }

  ghost predicate ReadOutcome<T>(q: Queue<T>, count: nat, side: Side)
    requires q.ring.Valid()
  {
    if count <= q.ring.size then side.Active? && LiveRegion(q.ring, side.start, side.len)
    else if q.stopRead then side == Thrown
    else side == Waiting(count, true)
  }

  lemma WriteOutcomes<T>(q: Queue<T>, count: nat)
    requires Inv(q)
    ensures Enabled(q, BeginWrite(count)) ==> WriteOutcome(q, count, Next(q, BeginWrite(count)).producer)
    ensures Enabled(q, RetryWrite) ==> WriteOutcome(q, q.producer.need, Next(q, RetryWrite).producer)
  {
    FreeRun(q.ring);
  }

  lemma FreeRun(r: Ring)
    requires r.Valid()
    ensures FreeRegion(r, r.first, r.WriteRun())
  {
    WriteRunIsMaximal(r);
  }

  lemma ReadOutcomes<T>(q: Queue<T>, count: nat)
    requires Inv(q)
    ensures Enabled(q, BeginRead(count)) ==> ReadOutcome(q, count, Next(q, BeginRead(count)).consumer)
    ensures Enabled(q, RetryRead) ==> ReadOutcome(q, q.consumer.need, Next(q, RetryRead).consumer)
  {
    LiveRun(q.ring, q.cells);
  }

  lemma LiveRun<T>(r: Ring, cells: seq<T>)
    requires r.Valid() && |cells| == r.capacity
    ensures LiveRegion(r, r.last, r.ReadRun())
  {
    ReadRunIsMaximal(r, cells);
  }

  /** After every run a begin call, and each later pass of its wait loop, ends like that. */
  lemma BeginOutcomes<T>(cells: seq<T>, run: seq<Action<T>>, count: nat)
    requires Legal(Created(cells), run)
    ensures var q := After(Created(cells), run);
      && Shaped(q) && HeldOk(q)
      && (Enabled(q, BeginWrite(count)) ==> WriteOutcome(q, count, Next(q, BeginWrite(count)).producer))
      && (Enabled(q, RetryWrite) ==> WriteOutcome(q, q.producer.need, Next(q, RetryWrite).producer))
      && (Enabled(q, BeginRead(count)) ==> ReadOutcome(q, count, Next(q, BeginRead(count)).consumer))
      && (Enabled(q, RetryRead) ==> ReadOutcome(q, q.consumer.need, Next(q, RetryRead).consumer))
  {
    hide WriteOutcome, ReadOutcome;
    var q := After(Created(cells), run);
    RunKeepsInv(Created(cells), run);
    WriteOutcomes(q, count);
    ReadOutcomes(q, count);
  }

  /** Different threads meet different sides: a begin call changes nothing but its own side. */
  lemma BeginChangesNothingElse<T>(q: Queue<T>, a: Action<T>)
    requires Shaped(q) && HeldOk(q) && Enabled(q, a) && (a.BeginWrite? || a.RetryWrite? || a.BeginRead? || a.RetryRead?)
    ensures var q' := Next(q, a);
      q' == if ByProducer(a) then q.(producer := q'.producer) else q.(consumer := q'.consumer)
  {
  }

  /** The region determines its length: no other grant would do. */
  lemma RegionsAreUnique(r: Ring, len: nat, len': nat)
    requires r.Valid()
    ensures FreeRegion(r, r.first, len) && FreeRegion(r, r.first, len') ==> len == len'
    ensures LiveRegion(r, r.last, len) && LiveRegion(r, r.last, len') ==> len == len'
  {
    if len != len' {
      var next := r.first + if len < len' then len else len';
      var next' := r.last + if len < len' then len else len';
    }
  }

  // ---- wakeups ----

  predicate WakesReader<T>(a: Action<T>) {
    a.EndWrite? || a.InterruptRead? || a.ResumeRead? || a.SpuriousWakeRead?
  }

  predicate WakesWriter<T>(a: Action<T>) {
    a.EndRead? || a.InterruptWrite? || a.ResumeWrite? || a.SpuriousWakeWrite?
  }

  /** A thread in its wait loop may go on after a signal or a spurious wakeup, and only then. */
  lemma WokenMayRetry<T>(q: Queue<T>, a: Action<T>)
    requires Inv(q) && Enabled(q, a)
    ensures q.consumer.Waiting? && !a.RetryRead? ==>
      (Enabled(Next(q, a), RetryRead) <==> Enabled(q, RetryRead) || WakesReader(a))
    ensures q.producer.Waiting? && !a.RetryWrite? ==>
      (Enabled(Next(q, a), RetryWrite) <==> Enabled(q, RetryWrite) || WakesWriter(a))
  {
  }

  // ---- interrupts and resumes ----

  /** The reader is not asleep, and no begin call or retry for more than there is puts it to sleep:
      each throws. */
  ghost predicate ReaderThrows<T>(q: Queue<T>)
    requires Shaped(q) && HeldOk(q)
  {
    && (q.consumer.Waiting? ==> Enabled(q, RetryRead))
    && (Enabled(q, RetryRead) && q.ring.size < q.consumer.need ==> Next(q, RetryRead).consumer == Thrown)
    && forall count: nat :: Enabled(q, BeginRead(count)) && q.ring.size < count ==>
         Next(q, BeginRead(count)).consumer == Thrown
  }

  ghost predicate WriterThrows<T>(q: Queue<T>)
    requires Shaped(q) && HeldOk(q)
  {
    && (q.producer.Waiting? ==> Enabled(q, RetryWrite))
    && (Enabled(q, RetryWrite) && q.ring.Available() < q.producer.need ==> Next(q, RetryWrite).producer == Thrown)
    && forall count: nat :: Enabled(q, BeginWrite(count)) && q.ring.Available() < count ==>
         Next(q, BeginWrite(count)).producer == Thrown
  }

  /** No begin call or retry throws: for want of data the reader sleeps. */
  ghost predicate ReaderSleeps<T>(q: Queue<T>)
    requires Shaped(q) && HeldOk(q)
  {
    && (Enabled(q, RetryRead) && q.ring.size < q.consumer.need ==>
         Next(q, RetryRead).consumer == Waiting(q.consumer.need, true))
    && forall count: nat :: Enabled(q, BeginRead(count)) && q.ring.size < count ==>
         Next(q, BeginRead(count)).consumer == Waiting(count, true)
  }

  ghost predicate WriterSleeps<T>(q: Queue<T>)
    requires Shaped(q) && HeldOk(q)
  {
    && (Enabled(q, RetryWrite) && q.ring.Available() < q.producer.need ==>
         Next(q, RetryWrite).producer == Waiting(q.producer.need, true))
    && forall count: nat :: Enabled(q, BeginWrite(count)) && q.ring.Available() < count ==>
         Next(q, BeginWrite(count)).producer == Waiting(count, true)
  }

  lemma {:induction false} FlagsStay<T>(q: Queue<T>, run: seq<Action<T>>)
    requires Inv(q) && Legal(q, run)
    ensures var q' := After(q, run);
      && Inv(q')
      && (q.stopRead && ResumeRead !in run ==> q'.stopRead) && (!q.stopRead && InterruptRead !in run ==> !q'.stopRead)
      && (q.stopWrite && ResumeWrite !in run ==> q'.stopWrite)
      && (!q.stopWrite && InterruptWrite !in run ==> !q'.stopWrite)
    decreases |run|
  {
    if run != [] {
      assert run[0] in run && forall a :: a in run[1..] ==> a in run;
      StepKeepsInv(q, run[0]);
      FlagsStay(Next(q, run[0]), run[1..]);
    }
  }

  /** From an interrupt on, until it is resumed, a side never sleeps: in every run each begin call
      or retry for more than there is throws. */
  lemma InterruptedThrows<T>(q: Queue<T>, a: Action<T>, run: seq<Action<T>>)
    requires Inv(q) && (a.InterruptRead? || a.InterruptWrite?) && Legal(Next(q, a), run)
    ensures var q' := After(Next(q, a), run);
      && Shaped(q') && HeldOk(q')
      && (a.InterruptRead? && ResumeRead !in run ==> ReaderThrows(q'))
      && (a.InterruptWrite? && ResumeWrite !in run ==> WriterThrows(q'))
  {
    StepKeepsInv(q, a);
    FlagsStay(Next(q, a), run);
  }

  /** From a resume on, until the next interrupt, no begin call throws. */
  lemma ResumedSleeps<T>(q: Queue<T>, a: Action<T>, run: seq<Action<T>>)
    requires Inv(q) && (a.ResumeRead? || a.ResumeWrite?) && Legal(Next(q, a), run)
    ensures var q' := After(Next(q, a), run);
      && Shaped(q') && HeldOk(q')
      && (a.ResumeRead? && InterruptRead !in run ==> ReaderSleeps(q'))
      && (a.ResumeWrite? && InterruptWrite !in run ==> WriterSleeps(q'))
  {
    StepKeepsInv(q, a);
    FlagsStay(Next(q, a), run);
  }

  /** Nor does one in a queue that nobody has interrupted. */
  lemma UninterruptedSleeps<T>(cells: seq<T>, run: seq<Action<T>>)
    requires Legal(Created(cells), run)
    ensures var q := After(Created(cells), run);
      && Shaped(q) && HeldOk(q)
      && (InterruptRead !in run ==> ReaderSleeps(q)) && (InterruptWrite !in run ==> WriterSleeps(q))
  {
    FlagsStay(Created(cells), run);
  }

  // ---- regions in parts ----

  lemma WrittenInParts(r: Ring, n: nat, m: nat)
    requires r.Valid() && n + m <= r.WriteRun()
    ensures m <= r.Written(n).WriteRun() && r.Written(n).Written(m) == r.Written(n + m)
    ensures m > 0 ==> r.Written(n).first == r.first + n
  {
    RunsAfterWrite(r, n);
  }

  lemma ConsumedInParts(r: Ring, n: nat, m: nat)
    requires r.Valid() && n + m <= r.ReadRun()
    ensures m <= r.Consumed(n).ReadRun() && r.Consumed(n).Consumed(m) == r.Consumed(n + m)
    ensures m > 0 ==> r.Consumed(n).last == r.last + n
  {
    RunsAfterRead(r, n);
  }

  lemma PartsJoin<T>(history: seq<T>, cells: seq<T>, from: nat, n: nat, m: nat, next: nat)
    requires from + n + m <= |cells| && next + m <= |cells| && (m > 0 ==> next == from + n)
    ensures (history + cells[from..from + n]) + cells[next..next + m] == history + cells[from..from + n + m]
  {
    if m > 0 { JoinSlices(cells, from, from + n, from + n + m); }
  }

  lemma CommitPart<T>(q: Queue<T>, n: nat, m: nat)
    requires Inv(q) && Enabled(q, EndWrite(n + m))
    ensures var q' := Next(q, EndWrite(n));
      && Shaped(q') && HeldOk(q') && Enabled(q', EndWrite(m))
      && Next(q', EndWrite(m)).ring == Next(q, EndWrite(n + m)).ring
      && (m > 0 ==> q'.ring.first == q.ring.first + n)
  {
    hide Live;
    StepKeepsInv(q, EndWrite(n));
    WrittenInParts(q.ring, n, m);
  }

  lemma CommittedInParts<T>(q: Queue<T>, n: nat, m: nat)
    requires Inv(q) && Enabled(q, EndWrite(n + m))
    ensures var q' := Next(q, EndWrite(n));
      && Shaped(q') && HeldOk(q') && Enabled(q', EndWrite(m))
      && Next(q', EndWrite(m)).committed == Next(q, EndWrite(n + m)).committed
  {
    CommitPart(q, n, m);
    var next := Next(q, EndWrite(n)).ring.first;
    hide Live, Inv, Ring.CellOf;
    PartsJoin(q.committed, q.cells, q.ring.first, n, m, next);
  }

  /** Committing a region in two parts is the same as committing it at once. */
  lemma CommitsInParts<T>(q: Queue<T>, n: nat, m: nat)
    requires Inv(q) && Enabled(q, EndWrite(n + m))
    ensures var q' := Next(q, EndWrite(n));
      && Shaped(q') && HeldOk(q') && Enabled(q', EndWrite(m))
      && Next(q', EndWrite(m)) == Next(q, EndWrite(n + m))
  {
    CommitPart(q, n, m);
    CommittedInParts(q, n, m);
    hide Live, Ring.WriteRun, Ring.ReadRun, Ring.Written, Ring.CellOf;
  }

  lemma ReleasePart<T>(q: Queue<T>, n: nat, m: nat)
    requires Inv(q) && Enabled(q, EndRead(n + m))
    ensures var q' := Next(q, EndRead(n));
      && Shaped(q') && HeldOk(q') && Enabled(q', EndRead(m))
      && Next(q', EndRead(m)).ring == Next(q, EndRead(n + m)).ring
      && (m > 0 ==> q'.ring.last == q.ring.last + n)
  {
    hide Live;
    StepKeepsInv(q, EndRead(n));
    ConsumedInParts(q.ring, n, m);
  }

  lemma ReleasedInParts<T>(q: Queue<T>, n: nat, m: nat)
    requires Inv(q) && Enabled(q, EndRead(n + m))
    ensures var q' := Next(q, EndRead(n));
      && Shaped(q') && HeldOk(q') && Enabled(q', EndRead(m))
      && Next(q', EndRead(m)).consumed == Next(q, EndRead(n + m)).consumed
  {
    ReleasePart(q, n, m);
    var next := Next(q, EndRead(n)).ring.last;
    hide Live, Inv, Ring.CellOf;
    PartsJoin(q.consumed, q.cells, q.ring.last, n, m, next);
  }

  /** So is releasing one. */
  lemma ReleasesInParts<T>(q: Queue<T>, n: nat, m: nat)
    requires Inv(q) && Enabled(q, EndRead(n + m))
    ensures var q' := Next(q, EndRead(n));
      && Shaped(q') && HeldOk(q') && Enabled(q', EndRead(m))
      && Next(q', EndRead(m)) == Next(q, EndRead(n + m))
  {
    ReleasePart(q, n, m);
    ReleasedInParts(q, n, m);
    hide Live, Ring.WriteRun, Ring.ReadRun, Ring.Consumed, Ring.CellOf;
  }
}
