/** StaticProcessor on queue objects: what the thread of one stage does to its two queues from one
    begin call that keeps it waiting, or throws, to the next. All interleavings of such threads are
    the subject of ThreadedChain, whose predicates and lemmas about one queue are used here. */
module StaticProcessors {
  import opened QueueProtocol
  import opened Blocks
  import opened FixedMemoryQueues
  import Chain = ThreadedChain
  import opened Multiples

  // ---- one side of one queue, a block at a time ----

  ghost predicate Ordered<T>(q: FixedMemoryQueue<T>, writer: nat, reader: nat)
    reads q, q.scheduler, q.buff
  {
    q.Valid() && Chain.QueueAt(q.buff.Length, writer, reader, q.model)
  }

  method BeginReadBlock<T>(q: FixedMemoryQueue<T>, ghost writer: nat, b: nat) returns (r: Outcome)
    requires Ordered(q, writer, b) && !q.model.consumer.Waiting?
    modifies q`model, q.scheduler`asleepNotEmpty
    ensures Ordered(q, writer, b) && q.model == old(q.model).(consumer := q.model.consumer)
    ensures r == OutcomeOf(q.model.consumer) && (r.Region? <==> q.size >= b)
    ensures r.Region? ==> r.len >= b
    ensures !r.Region? ==> (r.InterruptedException? <==> q.model.stopRead)
  {
    Chain.ReadKeepsQueue(q.buff.Length, writer, b, q.model, Action<T>.BeginRead(b));
    r := q.BeginRead(b);
  }

  method BeginWriteBlock<T>(q: FixedMemoryQueue<T>, b: nat, ghost reader: nat) returns (r: Outcome)
    requires Ordered(q, b, reader) && !q.model.producer.Waiting?
    modifies q`model, q.scheduler`asleepNotFull
    ensures Ordered(q, b, reader) && q.model == old(q.model).(producer := q.model.producer)
    ensures r == OutcomeOf(q.model.producer) && (r.Region? <==> q.buff.Length - q.size >= b)
    ensures r.Region? ==> r.len >= b
    ensures !r.Region? ==> (r.InterruptedException? <==> q.model.stopWrite)
  {
    Chain.WriteKeepsQueue(q.buff.Length, b, reader, q.model, Action<T>.BeginWrite(b));
    r := q.BeginWrite(b);
  }

  /** The stores of ProcessBlockFunction through `dest`. */
  method StoreBlock<T>(q: FixedMemoryQueue<T>, dest: nat, block: seq<T>, ghost reader: nat)
    requires Ordered(q, |block|, reader) && q.model.producer.Active?
    requires dest == q.model.producer.start && |block| <= q.model.producer.len
    modifies q`model, q.buff
    ensures Ordered(q, |block|, reader) && Chain.Filled(q.model, block, |block|)
    ensures q.model == old(q.model).(cells := q.model.cells)
  {
    var done := 0;
    assert q.model.cells[q.model.ring.first..q.model.ring.first] == [];
    while done < |block|
      invariant done <= |block| && Ordered(q, |block|, reader) && Chain.Filled(q.model, block, done)
      invariant q.model == old(q.model).(cells := q.model.cells)
    {
      Chain.FillKeepsQueue(q.buff.Length, |block|, reader, q.model, block, done);
      q.Store(dest, done, block[done]);
      done := done + 1;
    }
  }

  /** The stores and end_write. */
  method CommitBlock<T>(q: FixedMemoryQueue<T>, dest: nat, block: seq<T>, b: nat, ghost reader: nat)
    requires Ordered(q, b, reader) && q.model.producer.Active? && |block| == b <= q.model.producer.len
    requires dest == q.model.producer.start
    modifies q`first, q`size, q`model, q.buff, q.scheduler`asleepNotEmpty
    ensures Ordered(q, b, reader) && q.model.producer.Active?
    ensures q.model.committed == old(q.model.committed) + block && q.model.stopWrite == old(q.model.stopWrite)
  {
    StoreBlock(q, dest, block, reader);
    Chain.EndWriteKeepsQueue(q.buff.Length, b, reader, q.model);
    Chain.CommitsBlock(q.model, block);
    q.EndWrite(b);
  }

  method EndReadBlock<T>(q: FixedMemoryQueue<T>, ghost writer: nat, b: nat)
    requires Ordered(q, writer, b) && q.model.consumer.Active? && q.model.consumer.len >= b
    modifies q`last, q`size, q`model, q.scheduler`asleepNotFull
    ensures Ordered(q, writer, b) && q.model.consumer.Active? && q.size == old(q.size) - b
    ensures q.model.committed == old(q.model.committed) && q.model.stopRead == old(q.model.stopRead)
    ensures |old(q.model.consumed)| + b <= |old(q.model.committed)|
    ensures q.model.consumed == old(q.model.committed)[..|old(q.model.consumed)| + b]
  {
    Chain.EndReadKeepsQueue(q.buff.Length, writer, b, q.model);
    q.EndRead(b);
    assert q.model.consumed == q.model.committed[..|q.model.consumed|];
  }

  /** What was committed is the block function of what was consumed. */
  ghost predicate Follows<T>(f: seq<T> -> seq<T>, b: nat, consumed: seq<T>, committed: seq<T>)
    requires b > 0
  {
    committed == MapBlocks(f, b, consumed)
  }

  lemma NextBlock<T>(b: nat, q: Queue<T>)
    requires QueueProtocol.Inv(q) && q.consumer.Active? && 0 < b <= q.consumer.len
    ensures |q.consumed| + b <= |q.committed| && q.consumer.start + b <= |q.cells|
    ensures q.committed[..|q.consumed| + b]
         == q.consumed + q.cells[q.consumer.start..q.consumer.start + b]
  {
    Chain.BlockHeld(q, b);
    var n := |q.consumed|;
    assert q.committed[..n + b] == q.consumed + q.committed[n..n + b];
  }

  lemma FollowsOn<T(!new)>(f: seq<T> -> seq<T>, b: nat, consumed: seq<T>, src: seq<T>, results: seq<T>)
    requires b > 0 && |src| == b && IsMultiple(|consumed|, b) && Follows(f, b, consumed, results)
    ensures Follows(f, b, consumed + src, results + f(src))
  {
    IsMultipleExact(|consumed|, b);
    MapBlocksAppend(f, b, consumed, src);
  }

  /** ProcessBlockFunction: the results up to and including this block. */
  method Compute<T(!new)>(f: seq<T> -> seq<T>, b: nat, q: FixedMemoryQueue<T>, src: nat, ghost writer: nat,
      ghost results: seq<T>)
    returns (block: seq<T>)
    requires IsBlockFunction(f, b) && Ordered(q, writer, b) && q.model.consumer.Active?
    requires src == q.model.consumer.start && q.model.consumer.len >= b
    requires Follows(f, b, q.model.consumed, results)
    ensures |block| == b && |q.model.consumed| + b <= |q.model.committed|
    ensures Follows(f, b, q.model.committed[..|q.model.consumed| + b], results + block)
  {
    NextBlock(b, q.model);
    var cells := q.buff[src..src + b];
    FollowsOn(f, b, q.model.consumed, cells, results);
    block := f(cells);
  }

  /** The second half of an iteration: both begin calls have returned a block. */
  method DoBlock<T(!new)>(f: seq<T> -> seq<T>, b: nat, input: FixedMemoryQueue<T>, output: FixedMemoryQueue<T>,
      src: nat, dest: nat, ghost writer: nat, ghost reader: nat)
    requires input != output && input.buff != output.buff && input.scheduler != output.scheduler
    requires IsBlockFunction(f, b) && Ordered(input, writer, b) && Ordered(output, b, reader)
    requires input.model.consumer.Active? && src == input.model.consumer.start && input.model.consumer.len >= b
    requires output.model.producer.Active? && dest == output.model.producer.start && output.model.producer.len >= b
    requires Follows(f, b, input.model.consumed, output.model.committed)
    modifies input, input.scheduler, output, output.scheduler, output.buff
    ensures Ordered(input, writer, b) && Ordered(output, b, reader)
    ensures input.model.consumer.Active? && output.model.producer.Active?
    ensures Follows(f, b, input.model.consumed, output.model.committed)
    ensures input.size == old(input.size) - b && input.model.committed == old(input.model.committed)
    ensures input.model.stopRead == old(input.model.stopRead) && output.model.stopWrite == old(output.model.stopWrite)
  {
    hide MapBlocks, IsMultiple;
    ghost var done := |input.model.consumed| + b;
    var block := Compute(f, b, input, src, writer, output.model.committed);
    CommitBlock(output, dest, block, b, reader);
    assert Follows(f, b, input.model.committed[..done], output.model.committed);
    EndReadBlock(input, writer, b);
  }

  class StaticProcessor<T(!new)> {
    const blockFunction: seq<T> -> seq<T>
    const blocksize: nat
    const input: FixedMemoryQueue<T>
    const output: FixedMemoryQueue<T>
    ghost const writer: nat // block size of whoever fills the input queue
    ghost const reader: nat // block size of whoever empties the output queue

    constructor (blockFunction: seq<T> -> seq<T>, blocksize: nat, input: FixedMemoryQueue<T>,
        output: FixedMemoryQueue<T>, ghost writer: nat, ghost reader: nat)
      ensures this.blockFunction == blockFunction && this.blocksize == blocksize
      ensures this.input == input && this.output == output && this.writer == writer && this.reader == reader
    {
      this.blockFunction, this.blocksize, this.input, this.output := blockFunction, blocksize, input, output;
      this.writer, this.reader := writer, reader;
    }

    /** Both queues are in order, and what was committed is the block function of exactly what was
        consumed: no block is lost or done twice. */
    ghost predicate Valid()
      reads this, input, input.scheduler, input.buff, output, output.scheduler, output.buff
    {
      && input != output && input.buff != output.buff && input.scheduler != output.scheduler
      && IsBlockFunction(blockFunction, blocksize)
      && Ordered(input, writer, blocksize) && Ordered(output, blocksize, reader)
      && Follows(blockFunction, blocksize, input.model.consumed, output.model.committed)
    }

    /** Neither begin call of this thread is under way. */
    ghost predicate AtTop()
      reads this, input, output
    {
      !input.model.consumer.Waiting? && !output.model.producer.Waiting?
    }

    /** There is no whole block to read, or no room for one. */
    ghost predicate Blocked()
      reads this, input, output
    {
      input.size < blocksize || output.buff.Length - output.size < blocksize
    }

    /** The side that lacks something, the input before the output, has been told to stop. */
    ghost predicate Interrupted()
      reads this, input, output
    {
      if input.size < blocksize then input.model.stopRead else output.model.stopWrite
    }

    /** One iteration of process. It does a whole block, or a begin call does not return for want
        of a block or of room, and then nothing is committed or released. */
    method Iterate() returns (r: Outcome)
      requires Valid() && AtTop()
      modifies input, input.scheduler, output, output.scheduler, output.buff
      ensures Valid() && input.model.committed == old(input.model.committed)
      ensures input.model.stopRead == old(input.model.stopRead) && output.model.stopWrite == old(output.model.stopWrite)
      ensures if r.Region? then AtTop() && input.size == old(input.size) - blocksize
              else Blocked() && input.model.consumed == old(input.model.consumed)
      ensures !r.Region? ==> (r.InterruptedException? <==> Interrupted())
    {
      r := BeginReadBlock(input, writer, blocksize);
      if !r.Region? { return; }
      var w := BeginWriteBlock(output, blocksize, reader);
      if !w.Region? { return w; }
      DoBlock(blockFunction, blocksize, input, output, r.start, w.start, writer, reader);
    }

    /** The endless loop of process, up to the begin call in which the thread falls asleep or that
        throws InterruptedException: it goes on as long as there is a block and room for it. */
    method Process() returns (ended: Outcome)
      requires Valid() && AtTop()
      modifies input, input.scheduler, output, output.scheduler, output.buff
      ensures Valid() && input.model.committed == old(input.model.committed)
      ensures !ended.Region? && Blocked()
      ensures ended.InterruptedException? <==> Interrupted()
      ensures old(input.model.stopRead && output.model.stopWrite) ==> ended.InterruptedException?
    {
      ended := Region(0, 0);
      while ended.Region?
        invariant Valid() && input.model.committed == old(input.model.committed)
        invariant if ended.Region? then AtTop() else Blocked()
        invariant input.model.stopRead == old(input.model.stopRead)
        invariant output.model.stopWrite == old(output.model.stopWrite)
        invariant !ended.Region? ==> (ended.InterruptedException? <==> Interrupted())
        decreases ended.Region?, input.size
      {
        ended := Iterate();
      }
    }
  }
}
