/** A chain of threads joined by queues: an endless source, any number of ThreadedProcess stages
    running StaticProcessor, and a sink. Thread `t` reads queue `t - 1` and writes queue `t`.

    A label picks which thread or environment event goes next; a run is any list of labels, so a
    statement about all runs is a statement about every schedule. */
module ThreadedChain {
  import opened QueueProtocol
  import opened Blocks
  import Contiguity
  import opened Multiples

  datatype Network<!T(!new)> = Network(
    capacities: seq<nat>,                 // one per queue
    blocks: seq<nat>,                     // block size, one per thread
    functions: seq<seq<T> -> seq<T>>,     // block function, one per thread; used by the stages only
    source: nat -> T                      // the stream thread 0 produces
  ) {
    function Last(): nat { |capacities| }

    /** Each capacity is a multiple of the block sizes of both its threads. */
    ghost predicate WellFormed() {
      && Last() >= 1
      && |blocks| == |functions| == Last() + 1
      && (forall t: nat :: t <= Last() ==> blocks[t] > 0)
      && (forall k: nat :: k < Last() ==>
           capacities[k] > 0 && capacities[k] % blocks[k] == 0 && capacities[k] % blocks[k + 1] == 0)
      && (forall t: nat :: 0 < t < Last() ==> IsBlockFunction(functions[t], blocks[t]))
    }
  }

  /** The next statement of the loop in StaticProcessor::process; `done` elements of the output
      block are filled in. A thread that ended in InterruptedException is stopped. */
  datatype Pc = AtRead | AtWrite | Computing(done: nat) | AtEndRead | Stopped

  datatype State<T> = State(queues: seq<Queue<T>>, pcs: seq<Pc>)

  datatype Label<T> =
    | Step(thread: nat)
    | Restart(thread: nat)                     // attach the queues again after the thread ended
    | Outside(queue: nat, action: Action<T>)   // interrupt, resume or spurious wakeup

  ghost predicate Shape<T(!new)>(net: Network<T>, s: State<T>) {
    net.WellFormed() && |s.queues| == net.Last() && |s.pcs| == net.Last() + 1
  }

  predicate FromOutside<T>(a: Action<T>) {
    !ByProducer(a) && !ByConsumer(a)
  }

  /** Source elements from position `from` on. */
  function Stream<T>(source: nat -> T, from: nat, count: nat): seq<T> {
    seq(count, (i: nat) => source(from + i))
  }

  /** The block a thread is writing: for a stage, its function applied to the cells it holds. */
  function BlockFor<T(!new)>(net: Network<T>, s: State<T>, t: nat): seq<T>
    requires t <= |s.queues| && |s.queues| == |net.capacities|
    requires t < |net.blocks| && t < |net.functions|
    requires t == 0 ==> |s.queues| > 0
    requires t > 0 ==> s.queues[t - 1].consumer.Active?
    requires t > 0 ==> s.queues[t - 1].consumer.start + net.blocks[t] <= |s.queues[t - 1].cells|
  {
    if t == 0 then Stream(net.source, |s.queues[0].committed|, net.blocks[0])
    else
      var input := s.queues[t - 1];
      net.functions[t](input.cells[input.consumer.start..input.consumer.start + net.blocks[t]])
  }

  /** The queue a thread's next statement works on exists, and so does the block it computes. */
  ghost predicate Placed<T(!new)>(net: Network<T>, s: State<T>, t: nat) {
    && Shape(net, s) && t <= net.Last()
    && match s.pcs[t]
       case AtRead => t > 0
       case AtEndRead => t > 0
       case AtWrite => t < net.Last()
       case Computing(done) =>
         && t < net.Last()
         && (t > 0 ==>
              && s.queues[t - 1].consumer.Active?
              && s.queues[t - 1].consumer.start + net.blocks[t] <= |s.queues[t - 1].cells|)
         && |BlockFor(net, s, t)| == net.blocks[t]
         && done <= net.blocks[t]
       case Stopped => false
  }

  ghost function QueueOf<T(!new)>(net: Network<T>, s: State<T>, t: nat): nat
    requires Placed(net, s, t)
  {
    if s.pcs[t].AtRead? || s.pcs[t].AtEndRead? then t - 1 else t
  }

  /** The queue operation a thread performs next. */
  ghost function Operation<T(!new)>(net: Network<T>, s: State<T>, t: nat): Action<T>
    requires Placed(net, s, t)
  {
    var b := net.blocks[t];
    match s.pcs[t]
    case AtRead => if s.queues[t - 1].consumer.Waiting? then RetryRead else BeginRead(b)
    case AtWrite => if s.queues[t].producer.Waiting? then RetryWrite else BeginWrite(b)
    case Computing(done) => if done < b then Fill(done, BlockFor(net, s, t)[done]) else EndWrite(b)
    case AtEndRead => EndRead(b)
  }

  function Resumed(side: Side, onward: Pc, stay: Pc): Pc {
    match side
    case Active(_, _) => onward
    case Waiting(_, _) => stay
    case Thrown => Stopped
  }

  /** Where the thread is after its operation has turned its queue into `q`. */
  ghost function PcAfter<T(!new)>(net: Network<T>, s: State<T>, t: nat, q: Queue<T>): Pc
    requires Placed(net, s, t)
  {
    match s.pcs[t]
    case AtRead => Resumed(q.consumer, if t == net.Last() then AtEndRead else AtWrite, AtRead)
    case AtWrite => Resumed(q.producer, Computing(0), AtWrite)
    case Computing(done) =>
      if done < net.blocks[t] then Computing(done + 1) else if t == 0 then AtWrite else AtEndRead
    case AtEndRead => AtRead
  }

  ghost predicate Enabled<T(!new)>(net: Network<T>, s: State<T>, l: Label<T>) {
    && Shape(net, s)
    && match l
       case Step(t) =>
         && Placed(net, s, t)
         && var q := s.queues[QueueOf(net, s, t)];
            Shaped(q) && HeldOk(q) && QueueProtocol.Enabled(q, Operation(net, s, t))
       case Restart(t) => t <= net.Last() && s.pcs[t].Stopped?
       case Outside(k, a) =>
         && k < net.Last() && FromOutside(a)
         && Shaped(s.queues[k]) && HeldOk(s.queues[k]) && QueueProtocol.Enabled(s.queues[k], a)
  }

  ghost function Next<T(!new)>(net: Network<T>, s: State<T>, l: Label<T>): State<T>
    requires Enabled(net, s, l)
  {
    match l
    case Step(t) =>
      var k := QueueOf(net, s, t);
      var q := QueueProtocol.Next(s.queues[k], Operation(net, s, t));
      State(s.queues[k := q], s.pcs[t := PcAfter(net, s, t, q)])
    case Restart(t) => s.(pcs := s.pcs[t := if t == 0 then AtWrite else AtRead])
    case Outside(k, a) => s.(queues := s.queues[k := QueueProtocol.Next(s.queues[k], a)])
  }

  ghost predicate Initial<T(!new)>(net: Network<T>, s: State<T>) {
    && Shape(net, s)
    && (forall k: nat :: k < net.Last() ==>
         |s.queues[k].cells| == net.capacities[k] && s.queues[k] == Created(s.queues[k].cells))
    && (forall t: nat :: t <= net.Last() ==> s.pcs[t] == if t == 0 then AtWrite else AtRead)
  }

  ghost predicate Legal<T(!new)>(net: Network<T>, s: State<T>, run: seq<Label<T>>)
    decreases |run|
  {
    run == [] || (Enabled(net, s, run[0]) && Legal(net, Next(net, s, run[0]), run[1..]))
  }

  ghost function After<T(!new)>(net: Network<T>, s: State<T>, run: seq<Label<T>>): State<T>
    requires Legal(net, s, run)
    decreases |run|
  {
    if run == [] then s else After(net, Next(net, s, run[0]), run[1..])
  }

  // ---- the invariant, one queue and one thread at a time ----

  ghost predicate QueueAt<T>(capacity: nat, p: nat, c: nat, q: Queue<T>) {
    && QueueProtocol.Inv(q) && q.ring.capacity == capacity
    && p > 0 && c > 0 && IsMultiple(capacity, p) && IsMultiple(capacity, c)
    && IsMultiple(|q.committed|, p) && IsMultiple(|q.consumed|, c)
    && IsMultiple(q.ring.first, p) && IsMultiple(q.ring.last, c)
  }

  predicate ReaderAt<T>(b: nat, q: Queue<T>, pc: Pc) {
    match pc
    case AtRead => q.consumer.Waiting? ==> q.consumer.need == b
    case Stopped => !q.consumer.Waiting?
    case _ => q.consumer.Active? && q.consumer.len >= b
  }

  predicate WriterAt<T>(b: nat, q: Queue<T>, pc: Pc) {
    match pc
    case AtWrite => q.producer.Waiting? ==> q.producer.need == b
    case Computing(done) => done <= b && q.producer.Active? && q.producer.len >= b
    case _ => !q.producer.Waiting?
  }

  /** The cells the producer has filled since its last commit. */
  ghost predicate Filled<T>(q: Queue<T>, block: seq<T>, done: nat) {
    && done <= |block| && q.ring.first + done <= |q.cells|
    && q.cells[q.ring.first..q.ring.first + done] == block[..done]
  }

  /** Output history = block function mapped over the input history; the block in hand counts
      from its `end_write` on, although its `end_read` is still to come. */
  ghost predicate LinkAt<T>(f: seq<T> -> seq<T>, b: nat, input: Queue<T>, output: Queue<T>, pc: Pc) {
    var n := |input.consumed|;
    && b > 0
    && (pc.AtEndRead? || pc.Computing? ==> n + b <= |input.committed|)
    && n <= |input.committed|
    && output.committed == MapBlocks(f, b, input.committed[..if pc.AtEndRead? then n + b else n])
    && (pc.Computing? ==> Filled(output, f(input.committed[n..n + b]), pc.done))
  }

  ghost predicate SourceAt<T>(source: nat -> T, b: nat, q: Queue<T>, pc: Pc) {
    && q.committed == Stream(source, 0, |q.committed|)
    && (pc.Computing? ==> Filled(q, Stream(source, |q.committed|, b), pc.done))
  }

  ghost predicate QueueOk<T(!new)>(net: Network<T>, s: State<T>, k: nat)
    requires Shape(net, s) && k < net.Last()
  {
    QueueAt(net.capacities[k], net.blocks[k], net.blocks[k + 1], s.queues[k])
  }

  ghost predicate ThreadOk<T(!new)>(net: Network<T>, s: State<T>, t: nat)
    requires Shape(net, s) && t <= net.Last()
  {
    var b, pc := net.blocks[t], s.pcs[t];
    && (t > 0 ==> ReaderAt(b, s.queues[t - 1], pc))
    && (t < net.Last() ==> WriterAt(b, s.queues[t], pc))
    && (t == 0 ==> !pc.AtRead? && !pc.AtEndRead? && SourceAt(net.source, b, s.queues[0], pc))
    && (t == net.Last() ==> !pc.AtWrite? && !pc.Computing?)
    && (0 < t < net.Last() ==> LinkAt(net.functions[t], b, s.queues[t - 1], s.queues[t], pc))
  }

  ghost predicate Inv<T(!new)>(net: Network<T>, s: State<T>) {
    && Shape(net, s)
    && (forall k: nat :: k < net.Last() ==> QueueOk(net, s, k))
    && (forall t: nat :: t <= net.Last() ==> ThreadOk(net, s, t))
  }

  lemma InitialInv<T(!new)>(net: Network<T>, s: State<T>)
    requires Initial(net, s)
    ensures Inv(net, s)
  {
    forall k: nat | k < net.Last() ensures QueueOk(net, s, k) {
      IsMultipleExact(net.capacities[k], net.blocks[k]);
      IsMultipleExact(net.capacities[k], net.blocks[k + 1]);
    }
    forall t: nat | t <= net.Last() ensures ThreadOk(net, s, t) {
      if 0 < t < net.Last() {
        assert MapBlocks(net.functions[t], net.blocks[t], []) == [];
      }
    }
  }

  // ---- the thread that moves ----

  lemma ReadKeepsQueue<T>(capacity: nat, p: nat, b: nat, q: Queue<T>, a: Action<T>)
    requires QueueAt(capacity, p, b, q) && ReaderAt(b, q, AtRead) && QueueProtocol.Enabled(q, a)
    requires a == if q.consumer.Waiting? then RetryRead else BeginRead(b)
    ensures var q' := QueueProtocol.Next(q, a);
      && QueueAt(capacity, p, b, q')
      && (q'.consumer.Active? ==> q'.consumer.len >= b)
      && (q'.consumer.Waiting? ==> q'.consumer.need == b)
  {
    StepKeepsInv(q, a);
    if q.ring.size >= b {
      IsMultipleExact(capacity, b);
      IsMultipleExact(q.ring.last, b);
      Contiguity.AlignedReadRun(q.ring, b);
    }
  }

  lemma WriteKeepsQueue<T>(capacity: nat, b: nat, c: nat, q: Queue<T>, a: Action<T>)
    requires QueueAt(capacity, b, c, q) && WriterAt(b, q, AtWrite) && QueueProtocol.Enabled(q, a)
    requires a == if q.producer.Waiting? then RetryWrite else BeginWrite(b)
    ensures var q' := QueueProtocol.Next(q, a);
      && QueueAt(capacity, b, c, q')
      && (q'.producer.Active? ==> q'.producer.len >= b)
      && (q'.producer.Waiting? ==> q'.producer.need == b)
  {
    StepKeepsInv(q, a);
    if q.ring.Available() >= b {
      IsMultipleExact(capacity, b);
      IsMultipleExact(q.ring.first, b);
      Contiguity.AlignedWriteRun(q.ring, b);
    }
  }

  lemma EndReadKeepsQueue<T>(capacity: nat, p: nat, b: nat, q: Queue<T>)
    requires QueueAt(capacity, p, b, q) && q.consumer.Active? && q.consumer.len >= b
    ensures var q' := QueueProtocol.Next(q, EndRead(b));
      && QueueAt(capacity, p, b, q')
      && |q'.consumed| == |q.consumed| + b <= |q.committed|
  {
    StepKeepsInv(q, EndRead(b));
  }

  lemma EndWriteKeepsQueue<T>(capacity: nat, b: nat, c: nat, q: Queue<T>)
    requires QueueAt(capacity, b, c, q) && q.producer.Active? && q.producer.len >= b
    ensures QueueAt(capacity, b, c, QueueProtocol.Next(q, EndWrite(b)))
  {
    StepKeepsInv(q, EndWrite(b));
  }

  lemma FillExtends<T>(q: Queue<T>, block: seq<T>, done: nat)
    requires QueueProtocol.Inv(q) && q.producer.Active? && done < |block| <= q.producer.len
    requires Filled(q, block, done)
    ensures Filled(QueueProtocol.Next(q, Fill(done, block[done])), block, done + 1)
  {
    var q' := QueueProtocol.Next(q, Fill(done, block[done]));
    var now := q'.cells[q.ring.first..q.ring.first + done + 1];
    assert now[..done] == q.cells[q.ring.first..q.ring.first + done] == block[..done];
    assert now[done] == block[done];
    assert now == block[..done + 1];
  }

  // ---- the threads that do not move ----

  lemma ReaderUndisturbed<T>(b: nat, q: Queue<T>, a: Action<T>, pc: Pc)
    requires QueueProtocol.Inv(q) && QueueProtocol.Enabled(q, a) && !ByConsumer(a) && ReaderAt(b, q, pc)
    ensures ReaderAt(b, QueueProtocol.Next(q, a), pc)
  {
    ConsumerUndisturbed(q, a);
  }

  lemma WriterUndisturbed<T>(b: nat, q: Queue<T>, a: Action<T>, pc: Pc)
    requires QueueProtocol.Inv(q) && QueueProtocol.Enabled(q, a) && !ByProducer(a) && WriterAt(b, q, pc)
    ensures WriterAt(b, QueueProtocol.Next(q, a), pc)
  {
    ProducerUndisturbed(q, a);
  }

  lemma LinkKeptByInput<T>(f: seq<T> -> seq<T>, b: nat, input: Queue<T>, a: Action<T>, output: Queue<T>, pc: Pc)
    requires QueueProtocol.Inv(input) && QueueProtocol.Enabled(input, a) && !ByConsumer(a)
    requires LinkAt(f, b, input, output, pc)
    ensures LinkAt(f, b, QueueProtocol.Next(input, a), output, pc)
  {
    ConsumerUndisturbed(input, a);
    var input' := QueueProtocol.Next(input, a);
    var n := |input.consumed|;
    assert input'.committed[..n] == input.committed[..n];
    if n + b <= |input.committed| {
      assert input'.committed[..n + b] == input.committed[..n + b];
      assert input'.committed[n..n + b] == input.committed[n..n + b];
    }
  }

  lemma LinkKeptByOutput<T>(f: seq<T> -> seq<T>, b: nat, input: Queue<T>, output: Queue<T>, a: Action<T>, pc: Pc)
    requires QueueProtocol.Inv(output) && QueueProtocol.Enabled(output, a) && !ByProducer(a)
    requires LinkAt(f, b, input, output, pc)
    ensures LinkAt(f, b, input, QueueProtocol.Next(output, a), pc)
  {
    ProducerUndisturbed(output, a);
  }

  // ---- whole states ----

  lemma OneQueueChanged<T(!new)>(net: Network<T>, s: State<T>, s': State<T>, k: nat, t: nat)
    requires Inv(net, s) && Shape(net, s') && k < net.Last() && (t == k || t == k + 1)
    requires s'.queues == s.queues[k := s'.queues[k]] && s'.pcs == s.pcs[t := s'.pcs[t]]
    requires QueueOk(net, s', k) && ThreadOk(net, s', k) && ThreadOk(net, s', k + 1)
    ensures Inv(net, s')
  {
    forall i: nat | i < net.Last() ensures QueueOk(net, s', i) {
      assert QueueOk(net, s, i);
    }
    forall u: nat | u <= net.Last() ensures ThreadOk(net, s', u) {
      assert ThreadOk(net, s, u);
    }
  }

  /** The producer of queue `k` is not affected by steps of the consumer or from outside. */
  lemma ThreadBefore<T(!new)>(net: Network<T>, s: State<T>, s': State<T>, k: nat, a: Action<T>)
    requires Inv(net, s) && Shape(net, s') && k < net.Last() && !ByProducer(a)
    requires QueueProtocol.Enabled(s.queues[k], a)
    requires s'.queues == s.queues[k := (assert QueueOk(net, s, k); QueueProtocol.Next(s.queues[k], a))]
    requires s'.pcs[k] == s.pcs[k]
    ensures ThreadOk(net, s', k)
  {
    assert QueueOk(net, s, k) && ThreadOk(net, s, k);
    var q, b, pc := s.queues[k], net.blocks[k], s.pcs[k];
    WriterUndisturbed(b, q, a, pc);
    ProducerUndisturbed(q, a);
    if k > 0 {
      LinkKeptByOutput(net.functions[k], b, s.queues[k - 1], q, a, pc);
    }
  }

  /** The consumer of queue `k` is not affected by steps of the producer or from outside. */
  lemma ThreadAfter<T(!new)>(net: Network<T>, s: State<T>, s': State<T>, k: nat, a: Action<T>)
    requires Inv(net, s) && Shape(net, s') && k < net.Last() && !ByConsumer(a)
    requires QueueProtocol.Enabled(s.queues[k], a)
    requires s'.queues == s.queues[k := (assert QueueOk(net, s, k); QueueProtocol.Next(s.queues[k], a))]
    requires s'.pcs[k + 1] == s.pcs[k + 1]
    ensures ThreadOk(net, s', k + 1)
  {
    assert QueueOk(net, s, k) && ThreadOk(net, s, k + 1);
    var q, b, pc := s.queues[k], net.blocks[k + 1], s.pcs[k + 1];
    ReaderUndisturbed(b, q, a, pc);
    if k + 1 < net.Last() {
      LinkKeptByInput(net.functions[k + 1], b, q, a, s.queues[k + 1], pc);
    }
  }

  /** What a step of thread `t` has to establish; the rest of the state is not touched. */
  ghost predicate Advances<T(!new)>(net: Network<T>, s: State<T>, t: nat, k: nat) {
    && Enabled(net, s, Step(t)) && t <= net.Last() && QueueOf(net, s, t) == k < net.Last()
    && var s' := Next(net, s, Step(t));
       QueueOk(net, s', k) && ThreadOk(net, s', t)
  }

  lemma Reads<T(!new)>(net: Network<T>, s: State<T>, t: nat)
    requires Inv(net, s) && t <= net.Last() && s.pcs[t].AtRead?
    requires t > 0 && !(s.queues[t - 1].consumer.Waiting? && s.queues[t - 1].consumer.asleep)
    ensures Advances(net, s, t, t - 1)
  {
    assert QueueOk(net, s, t - 1) && ThreadOk(net, s, t);
    var q, b := s.queues[t - 1], net.blocks[t];
    var a := Operation(net, s, t);
    ReadKeepsQueue(net.capacities[t - 1], net.blocks[t - 1], b, q, a);
  }

  lemma ReleaseKeepsLink<T>(f: seq<T> -> seq<T>, b: nat, input: Queue<T>, output: Queue<T>)
    requires QueueProtocol.Inv(input) && input.consumer.Active? && 0 < b <= input.consumer.len
    requires LinkAt(f, b, input, output, AtEndRead)
    ensures LinkAt(f, b, QueueProtocol.Next(input, EndRead(b)), output, AtRead)
  {
    StepKeepsInv(input, EndRead(b));
  }

  lemma ReleaseStep<T(!new)>(net: Network<T>, s: State<T>, t: nat)
    requires Inv(net, s) && t <= net.Last() && s.pcs[t].AtEndRead?
    ensures t > 0 && Enabled(net, s, Step(t)) && QueueOf(net, s, t) == t - 1
    ensures var q, b := s.queues[t - 1], net.blocks[t];
      && QueueAt(net.capacities[t - 1], net.blocks[t - 1], b, q) && q.consumer.Active? && q.consumer.len >= b
      && Next(net, s, Step(t)) == State(s.queues[t - 1 := QueueProtocol.Next(q, EndRead(b))], s.pcs[t := AtRead])
  {
    assert ThreadOk(net, s, t);
    assert QueueOk(net, s, t - 1);
  }

  lemma Releases<T(!new)>(net: Network<T>, s: State<T>, t: nat)
    requires Inv(net, s) && t <= net.Last() && s.pcs[t].AtEndRead?
    ensures t > 0 && Advances(net, s, t, t - 1)
  {
    ReleaseStep(net, s, t);
    assert ThreadOk(net, s, t);
    var q, b := s.queues[t - 1], net.blocks[t];
    EndReadKeepsQueue(net.capacities[t - 1], net.blocks[t - 1], b, q);
    if t < net.Last() {
      ReleaseKeepsLink(net.functions[t], b, q, s.queues[t]);
    }
  }

  lemma Writes<T(!new)>(net: Network<T>, s: State<T>, t: nat)
    requires Inv(net, s) && t < net.Last() && s.pcs[t].AtWrite?
    requires !(s.queues[t].producer.Waiting? && s.queues[t].producer.asleep)
    ensures Advances(net, s, t, t)
  {
    assert QueueOk(net, s, t) && ThreadOk(net, s, t);
    var q, b := s.queues[t], net.blocks[t];
    var a := Operation(net, s, t);
    WriteKeepsQueue(net.capacities[t], b, net.blocks[t + 1], q, a);
    var q' := QueueProtocol.Next(q, a);
    if t > 0 {
      assert QueueOk(net, s, t - 1);
      var input := s.queues[t - 1];
      HeldForReading(input);
      if q'.producer.Active? {
        assert q'.cells[q'.ring.first..q'.ring.first + 0] == [];
      }
    }
  }

  /** The cells a stage computes from are the oldest unread block of its input. */
  lemma BlockHeld<T>(q: Queue<T>, b: nat)
    requires QueueProtocol.Inv(q) && q.consumer.Active? && 0 < b <= q.consumer.len
    ensures |q.consumed| + b <= |q.committed| && q.consumer.start + b <= |q.cells|
    ensures q.cells[q.consumer.start..q.consumer.start + b]
         == q.committed[|q.consumed|..|q.consumed| + b]
  {
    HeldForReading(q);
    var n, at, len := |q.consumed|, q.consumer.start, q.consumer.len;
    assert q.cells[at..at + b] == q.cells[at..at + len][..b];
    assert q.committed[n..n + b] == q.committed[n..n + len][..b];
  }

  lemma BlockInHand<T(!new)>(net: Network<T>, s: State<T>, t: nat)
    requires Inv(net, s) && t < net.Last() && s.pcs[t].Computing?
    ensures Placed(net, s, t)
    ensures t > 0 ==> var n := |s.queues[t - 1].consumed|;
      && n + net.blocks[t] <= |s.queues[t - 1].committed|
      && BlockFor(net, s, t) == net.functions[t](s.queues[t - 1].committed[n..n + net.blocks[t]])
  {
    assert ThreadOk(net, s, t);
    if t > 0 {
      assert QueueOk(net, s, t - 1);
      BlockHeld(s.queues[t - 1], net.blocks[t]);
    }
  }

  lemma FillKeepsQueue<T>(capacity: nat, b: nat, c: nat, q: Queue<T>, block: seq<T>, done: nat)
    requires QueueAt(capacity, b, c, q) && WriterAt(b, q, Computing(done))
    requires done < |block| == b && Filled(q, block, done)
    ensures var q' := QueueProtocol.Next(q, Fill(done, block[done]));
      && QueueAt(capacity, b, c, q') && WriterAt(b, q', Computing(done + 1))
      && Filled(q', block, done + 1) && q'.committed == q.committed
  {
    StepKeepsInv(q, Fill(done, block[done]));
    FillExtends(q, block, done);
  }

  lemma FillKeepsLink<T(!new)>(f: seq<T> -> seq<T>, b: nat, input: Queue<T>, q: Queue<T>, q': Queue<T>, done: nat)
    requires LinkAt(f, b, input, q, Computing(done)) && q'.committed == q.committed
    requires Filled(q', f(input.committed[|input.consumed|..|input.consumed| + b]), done + 1)
    ensures LinkAt(f, b, input, q', Computing(done + 1))
  {
  }

  /** A computing thread can always go on; its step changes its output queue and itself. */
  lemma ComputingStep<T(!new)>(net: Network<T>, s: State<T>, t: nat)
    requires Inv(net, s) && t < net.Last() && s.pcs[t].Computing?
    ensures Enabled(net, s, Step(t)) && QueueOf(net, s, t) == t
    ensures var a := Operation(net, s, t);
      && Shaped(s.queues[t]) && HeldOk(s.queues[t]) && QueueProtocol.Enabled(s.queues[t], a)
      && var q' := QueueProtocol.Next(s.queues[t], a);
         Next(net, s, Step(t)) == State(s.queues[t := q'], s.pcs[t := PcAfter(net, s, t, q')])
  {
    assert QueueOk(net, s, t) && ThreadOk(net, s, t);
    BlockInHand(net, s, t);
  }

  lemma FilledInHand<T(!new)>(net: Network<T>, s: State<T>, t: nat)
    requires Inv(net, s) && t < net.Last() && s.pcs[t].Computing?
    ensures Placed(net, s, t) && Filled(s.queues[t], BlockFor(net, s, t), s.pcs[t].done)
    ensures QueueAt(net.capacities[t], net.blocks[t], net.blocks[t + 1], s.queues[t])
    ensures WriterAt(net.blocks[t], s.queues[t], s.pcs[t])
  {
    assert QueueOk(net, s, t) && ThreadOk(net, s, t);
    BlockInHand(net, s, t);
  }

  lemma FillKeepsQueueOk<T(!new)>(net: Network<T>, s: State<T>, t: nat, block: seq<T>)
    requires Inv(net, s) && t < net.Last() && s.pcs[t].Computing? && s.pcs[t].done < net.blocks[t]
    requires Placed(net, s, t) && block == BlockFor(net, s, t)
    ensures Shaped(s.queues[t]) && HeldOk(s.queues[t])
    ensures var done := s.pcs[t].done;
      && QueueProtocol.Enabled(s.queues[t], Fill(done, block[done]))
      && var q' := QueueProtocol.Next(s.queues[t], Fill(done, block[done]));
         && QueueAt(net.capacities[t], net.blocks[t], net.blocks[t + 1], q')
         && WriterAt(net.blocks[t], q', Computing(done + 1))
         && Filled(q', block, done + 1) && q'.committed == s.queues[t].committed
  {
    FilledInHand(net, s, t);
    FillKeepsQueue(net.capacities[t], net.blocks[t], net.blocks[t + 1], s.queues[t], block, s.pcs[t].done);
  }

  lemma Fills<T(!new)>(net: Network<T>, s: State<T>, t: nat)
    requires Inv(net, s) && t < net.Last() && s.pcs[t].Computing? && s.pcs[t].done < net.blocks[t]
    ensures Advances(net, s, t, t)
  {
    ComputingStep(net, s, t);
    BlockInHand(net, s, t);
    var block, done := BlockFor(net, s, t), s.pcs[t].done;
    FillKeepsQueueOk(net, s, t, block);
    var q' := QueueProtocol.Next(s.queues[t], Fill(done, block[done]));
    var s' := State(s.queues[t := q'], s.pcs[t := Computing(done + 1)]);
    assert s' == Next(net, s, Step(t));
    FilledThreadOk(net, s, s', t, block);
  }

  lemma FilledThreadOk<T(!new)>(net: Network<T>, s: State<T>, s': State<T>, t: nat, block: seq<T>)
    requires Inv(net, s) && t < net.Last() && s.pcs[t].Computing?
    requires t == 0 ==> block == Stream(net.source, |s.queues[0].committed|, net.blocks[0])
    requires t > 0 ==> var n := |s.queues[t - 1].consumed|;
      && n + net.blocks[t] <= |s.queues[t - 1].committed|
      && block == net.functions[t](s.queues[t - 1].committed[n..n + net.blocks[t]])
    requires Shape(net, s') && s'.pcs[t] == Computing(s.pcs[t].done + 1)
    requires t > 0 ==> s'.queues[t - 1] == s.queues[t - 1]
    requires var q' := s'.queues[t];
      && WriterAt(net.blocks[t], q', s'.pcs[t])
      && Filled(q', block, s'.pcs[t].done) && q'.committed == s.queues[t].committed
    ensures ThreadOk(net, s', t)
  {
    assert ThreadOk(net, s, t);
    if t > 0 {
      FillKeepsLink(net.functions[t], net.blocks[t], s.queues[t - 1], s.queues[t], s'.queues[t], s.pcs[t].done);
    }
  }

  /** Once the block is filled in, end_write commits exactly that block. */
  lemma CommitsBlock<T>(q: Queue<T>, block: seq<T>)
    requires Shaped(q) && HeldOk(q) && q.producer.Active? && |block| <= q.producer.len
    requires Filled(q, block, |block|)
    ensures QueueProtocol.Next(q, EndWrite(|block|)).committed == q.committed + block
  {
    assert block[..|block|] == block;
  }

  lemma CommitExtendsLink<T(!new)>(f: seq<T> -> seq<T>, b: nat, input: Queue<T>, output: Queue<T>)
    requires QueueProtocol.Inv(input) && QueueProtocol.Inv(output)
    requires output.producer.Active? && output.producer.len >= b
    requires b > 0 && IsMultiple(|input.consumed|, b) && LinkAt(f, b, input, output, Computing(b))
    requires IsBlockFunction(f, b)
    ensures LinkAt(f, b, input, QueueProtocol.Next(output, EndWrite(b)), AtEndRead)
  {
    var n := |input.consumed|;
    var block := input.committed[n..n + b];
    IsMultipleExact(n, b);
    MapBlocksAppend(f, b, input.committed[..n], block);
    assert input.committed[..n] + block == input.committed[..n + b];
    CommitsBlock(output, f(block));
  }

  lemma CommitExtendsSource<T>(source: nat -> T, b: nat, q: Queue<T>, pc: Pc)
    requires QueueProtocol.Inv(q) && q.producer.Active? && q.producer.len >= b && !pc.Computing?
    requires SourceAt(source, b, q, Computing(b))
    ensures SourceAt(source, b, QueueProtocol.Next(q, EndWrite(b)), pc)
  {
    var n := |q.committed|;
    assert Stream(source, n, b)[..b] == Stream(source, n, b);
    assert Stream(source, 0, n) + Stream(source, n, b) == Stream(source, 0, n + b);
  }

  lemma StageCommits<T(!new)>(net: Network<T>, s: State<T>, t: nat)
    requires Inv(net, s) && 0 < t < net.Last() && s.pcs[t] == Computing(net.blocks[t])
    requires Shaped(s.queues[t]) && HeldOk(s.queues[t])
    requires QueueProtocol.Enabled(s.queues[t], EndWrite(net.blocks[t]))
    ensures LinkAt(net.functions[t], net.blocks[t], s.queues[t - 1],
      QueueProtocol.Next(s.queues[t], EndWrite(net.blocks[t])), AtEndRead)
  {
    assert QueueOk(net, s, t - 1) && QueueOk(net, s, t) && ThreadOk(net, s, t);
    CommitExtendsLink(net.functions[t], net.blocks[t], s.queues[t - 1], s.queues[t]);
  }

  lemma SourceCommits<T(!new)>(net: Network<T>, s: State<T>)
    requires Inv(net, s) && s.pcs[0] == Computing(net.blocks[0])
    requires Shaped(s.queues[0]) && HeldOk(s.queues[0])
    requires QueueProtocol.Enabled(s.queues[0], EndWrite(net.blocks[0]))
    ensures SourceAt(net.source, net.blocks[0],
      QueueProtocol.Next(s.queues[0], EndWrite(net.blocks[0])), AtWrite)
  {
    assert QueueOk(net, s, 0) && ThreadOk(net, s, 0);
    CommitExtendsSource(net.source, net.blocks[0], s.queues[0], AtWrite);
  }

  lemma CommitKeepsQueueOk<T(!new)>(net: Network<T>, s: State<T>, t: nat)
    requires Inv(net, s) && t < net.Last() && s.pcs[t] == Computing(net.blocks[t])
    ensures Shaped(s.queues[t]) && HeldOk(s.queues[t])
    ensures QueueProtocol.Enabled(s.queues[t], EndWrite(net.blocks[t]))
    ensures var q' := QueueProtocol.Next(s.queues[t], EndWrite(net.blocks[t]));
      QueueAt(net.capacities[t], net.blocks[t], net.blocks[t + 1], q') && !q'.producer.Waiting?
  {
    assert QueueOk(net, s, t) && ThreadOk(net, s, t);
    EndWriteKeepsQueue(net.capacities[t], net.blocks[t], net.blocks[t + 1], s.queues[t]);
  }

  lemma Commits<T(!new)>(net: Network<T>, s: State<T>, t: nat)
    requires Inv(net, s) && t < net.Last() && s.pcs[t] == Computing(net.blocks[t])
    ensures Advances(net, s, t, t)
  {
    ComputingStep(net, s, t);
    CommitKeepsQueueOk(net, s, t);
    if t == 0 { SourceCommits(net, s); } else { StageCommits(net, s, t); }
    var q' := QueueProtocol.Next(s.queues[t], EndWrite(net.blocks[t]));
    var s' := State(s.queues[t := q'], s.pcs[t := if t == 0 then AtWrite else AtEndRead]);
    assert s' == Next(net, s, Step(t));
    CommittedThreadOk(net, s, s', t);
  }

  lemma CommittedThreadOk<T(!new)>(net: Network<T>, s: State<T>, s': State<T>, t: nat)
    requires Inv(net, s) && t < net.Last() && s.pcs[t].Computing?
    requires Shape(net, s') && s'.pcs[t] == if t == 0 then AtWrite else AtEndRead
    requires !s'.queues[t].producer.Waiting?
    requires t == 0 ==> SourceAt(net.source, net.blocks[0], s'.queues[0], AtWrite)
    requires t > 0 ==> s'.queues[t - 1] == s.queues[t - 1]
    requires t > 0 ==> LinkAt(net.functions[t], net.blocks[t], s.queues[t - 1], s'.queues[t], AtEndRead)
    ensures ThreadOk(net, s', t)
  {
    assert ThreadOk(net, s, t);
  }

  /** A thread is blocked exactly while it sleeps in one of its two begin calls. */
  ghost predicate Asleep<T(!new)>(net: Network<T>, s: State<T>, t: nat)
    requires Shape(net, s) && t <= net.Last()
  {
    || (s.pcs[t].AtRead? && t > 0 && s.queues[t - 1].consumer.Waiting? && s.queues[t - 1].consumer.asleep)
    || (s.pcs[t].AtWrite? && t < net.Last() && s.queues[t].producer.Waiting? && s.queues[t].producer.asleep)
  }

  lemma StepShape<T(!new)>(net: Network<T>, s: State<T>, t: nat)
    requires Enabled(net, s, Step(t))
    ensures var k, a, s' := QueueOf(net, s, t), Operation(net, s, t), Next(net, s, Step(t));
      && Shape(net, s') && QueueProtocol.Enabled(s.queues[k], a)
      && s'.queues == s.queues[k := QueueProtocol.Next(s.queues[k], a)] && s'.pcs == s.pcs[t := s'.pcs[t]]
      && (if k == t then !ByConsumer(a) else t == k + 1 && !ByProducer(a))
  {
  }

  lemma AdvancesKeepsInv<T(!new)>(net: Network<T>, s: State<T>, t: nat, k: nat)
    requires Inv(net, s) && Advances(net, s, t, k)
    ensures Inv(net, Next(net, s, Step(t)))
  {
    var a, s' := Operation(net, s, t), Next(net, s, Step(t));
    StepShape(net, s, t);
    if k == t { ThreadAfter(net, s, s', k, a); } else { ThreadBefore(net, s, s', k, a); }
    OneQueueChanged(net, s, s', k, t);
  }

  /** Every thread that is neither stopped nor asleep can take its next step, and that step
      keeps the invariant. In particular the pointers it uses stay inside the region it holds. */
  lemma ThreadSteps<T(!new)>(net: Network<T>, s: State<T>, t: nat)
    requires Inv(net, s) && t <= net.Last() && !s.pcs[t].Stopped? && !Asleep(net, s, t)
    ensures Enabled(net, s, Step(t)) && Inv(net, Next(net, s, Step(t)))
  {
    assert ThreadOk(net, s, t);
    match s.pcs[t]
    case AtRead => Reads(net, s, t); AdvancesKeepsInv(net, s, t, t - 1);
    case AtEndRead => Releases(net, s, t); AdvancesKeepsInv(net, s, t, t - 1);
    case AtWrite => Writes(net, s, t); AdvancesKeepsInv(net, s, t, t);
    case Computing(done) =>
      if done < net.blocks[t] { Fills(net, s, t); } else { Commits(net, s, t); }
      AdvancesKeepsInv(net, s, t, t);
  }

  lemma OutsideKeepsInv<T(!new)>(net: Network<T>, s: State<T>, k: nat, a: Action<T>)
    requires Inv(net, s) && Enabled(net, s, Outside(k, a))
    ensures Inv(net, Next(net, s, Outside(k, a)))
  {
    assert QueueOk(net, s, k);
    var s' := Next(net, s, Outside(k, a));
    StepKeepsInv(s.queues[k], a);
    ThreadBefore(net, s, s', k, a);
    ThreadAfter(net, s, s', k, a);
    OneQueueChanged(net, s, s', k, k);
  }

  lemma RestartedThreadOk<T(!new)>(net: Network<T>, s: State<T>, s': State<T>, t: nat)
    requires Inv(net, s) && t <= net.Last() && s.pcs[t].Stopped?
    requires s' == s.(pcs := s.pcs[t := if t == 0 then AtWrite else AtRead])
    ensures ThreadOk(net, s', t)
  {
    assert ThreadOk(net, s, t);
  }

  lemma RestartKeepsInv<T(!new)>(net: Network<T>, s: State<T>, t: nat)
    requires Inv(net, s) && Enabled(net, s, Restart(t))
    ensures Inv(net, Next(net, s, Restart(t)))
  {
    var s' := Next(net, s, Restart(t));
    RestartedThreadOk(net, s, s', t);
    if t < net.Last() {
      assert QueueOk(net, s, t) && ThreadOk(net, s, t + 1);
      OneQueueChanged(net, s, s', t, t);
    } else {
      assert QueueOk(net, s, t - 1) && ThreadOk(net, s, t - 1);
      OneQueueChanged(net, s, s', t - 1, t);
    }
  }
}
