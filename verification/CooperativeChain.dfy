/** A chain of CooperativeProcess stages: stage `k` reads queue `k` and writes queue `k + 1`. All
    queues but the last run under CooperativeScheduler, where committing to a queue runs the stage
    behind it before returning; the last one runs under NoopScheduler, where waiting throws. */
module CooperativeChain {
  import opened RingIndices
  import opened Blocks
  import opened Multiples
  import opened CooperativeLinks

  datatype Chain<!T(!new)> = Chain(
    blocks: seq<nat>,                 // block size, one per stage
    functions: seq<seq<T> -> seq<T>>  // block function, one per stage
  ) {
    function Stages(): nat { |blocks| }

    ghost predicate WellFormed() {
      && Stages() >= 1 && |functions| == Stages()
      && forall k: nat :: k < Stages() ==> IsBlockFunction(functions[k], blocks[k])
    }

    /** The block size of whoever writes queue `j`; the outside producer writes any counts. */
    function Writer(j: nat): nat
      requires j <= Stages()
    {
      if j == 0 then 1 else blocks[j - 1]
    }

    function Reader(j: nat): nat
      requires j <= Stages()
    {
      if j == Stages() then 1 else blocks[j]
    }

    /** What stage `k` makes of everything in `xs`. */
    function Output(k: nat, xs: seq<T>): seq<T>
      requires |functions| == Stages() && k < Stages() && blocks[k] > 0
    {
      MapBlocks(functions[k], blocks[k], xs)
    }

    /** What arrives in the last queue when `xs` has been committed to queue `k`. */
    ghost function Composed(k: nat, xs: seq<T>): seq<T>
      requires WellFormed() && k <= Stages()
      decreases Stages() - k
    {
      if k == Stages() then xs else Composed(k + 1, Output(k, xs))
    }
  }

  /** Every queue is in order; each capacity is a multiple of the block sizes next to it. */
  ghost predicate LinksOk<T(!new)>(chain: Chain<T>, links: seq<Link<T>>) {
    && chain.WellFormed() && |links| == chain.Stages() + 1
    && forall j: nat :: j < |links| ==> LinkOk(links[j], chain.Writer(j), chain.Reader(j))
  }

  /** What stage `k` committed is its function of exactly what it released. */
  ghost predicate Settled<T(!new)>(chain: Chain<T>, links: seq<Link<T>>, k: nat)
    requires chain.WellFormed() && |links| == chain.Stages() + 1 && k < chain.Stages()
  {
    links[k + 1].committed == chain.Output(k, links[k].consumed)
  }

  /** From stage `k` on, no stage is in the middle of a block and none has a whole block left. */
  ghost predicate Idle<T(!new)>(chain: Chain<T>, links: seq<Link<T>>, k: nat)
    requires chain.WellFormed() && |links| == chain.Stages() + 1
  {
    forall j: nat :: k <= j < chain.Stages() ==> Settled(chain, links, j) && links[j].ring.size < chain.blocks[j]
  }

  /** Stage `k` committed a block that it has not released: it would read that block again. */
  ghost predicate WouldRepeat<T(!new)>(chain: Chain<T>, links: seq<Link<T>>, k: nat)
    requires chain.WellFormed() && |links| == chain.Stages() + 1 && k < chain.Stages()
    requires Shaped(links[k])
  {
    && links[k].ring.size >= chain.blocks[k]
    && links[k + 1].committed
       == chain.Output(k, links[k].consumed) + chain.functions[k](Unread(links[k])[..chain.blocks[k]])
  }

  // ---- the composed function ----

  lemma {:induction false} ComposedMonotone<T(!new)>(chain: Chain<T>, k: nat, xs: seq<T>, ys: seq<T>)
    requires chain.WellFormed() && k <= chain.Stages() && xs <= ys
    ensures chain.Composed(k, xs) <= chain.Composed(k, ys)
    decreases chain.Stages() - k
  {
    if k < chain.Stages() {
      MapBlocksMonotone(chain.functions[k], chain.blocks[k], xs, ys);
      ComposedMonotone(chain, k + 1, chain.Output(k, xs), chain.Output(k, ys));
    }
  }

  lemma StageDelivers<T(!new)>(chain: Chain<T>, links: seq<Link<T>>, k: nat)
    requires LinksOk(chain, links) && k < chain.Stages() && Idle(chain, links, k)
    ensures links[k + 1].committed == chain.Output(k, links[k].committed)
  {
    assert Settled(chain, links, k) && LinkOk(links[k], chain.Writer(k), chain.Reader(k));
    AllWholeBlocksDone(links[k], chain.Writer(k), chain.blocks[k], chain.functions[k]);
  }

  /** Once idle, everything committed to queue `k` has come out as the composed function of it. */
  lemma {:induction false} IdleDelivers<T(!new)>(chain: Chain<T>, links: seq<Link<T>>, k: nat)
    requires LinksOk(chain, links) && k <= chain.Stages() && Idle(chain, links, k)
    ensures links[chain.Stages()].committed == chain.Composed(k, links[k].committed)
    decreases chain.Stages() - k
  {
    if k < chain.Stages() {
      StageDelivers(chain, links, k);
      IdleDelivers(chain, links, k + 1);
    }
  }

  lemma AllWholeBlocksDone<T>(l: Link<T>, w: nat, b: nat, f: seq<T> -> seq<T>)
    requires LinkOk(l, w, b) && l.ring.size < b
    ensures MapBlocks(f, b, l.consumed) == MapBlocks(f, b, l.committed)
  {
    IsMultipleExact(|l.consumed|, b);
    assert l.committed[..|l.consumed|] == l.consumed;
    MapBlocksWhole(f, b, l.committed, |l.consumed|);
  }

  /** The next block of a stage is part of what the stage is to deliver in the end. */
  lemma NextBlock<T(!new)>(chain: Chain<T>, k: nat, l: Link<T>, w: nat) returns (next: seq<T>)
    requires chain.WellFormed() && k < chain.Stages()
    requires LinkOk(l, w, chain.blocks[k]) && l.ring.size >= chain.blocks[k]
    ensures next == chain.Output(k, l.consumed) + chain.functions[k](Unread(l)[..chain.blocks[k]])
    ensures next == chain.Output(k, l.consumed + Unread(l)[..chain.blocks[k]])
    ensures next <= chain.Output(k, l.committed)
  {
    var b := chain.blocks[k];
    var block := Unread(l)[..b];
    IsMultipleExact(|l.consumed|, b);
    MapBlocksAppend(chain.functions[k], b, l.consumed, block);
    assert l.consumed + block <= l.committed;
    MapBlocksMonotone(chain.functions[k], b, l.consumed + block, l.committed);
    next := chain.Output(k, l.consumed + block);
  }

  // ---- room in the last queue ----

  /** Everything committed to queue `k` fits in the last queue once it has come through. */
  ghost predicate HasRoom<T(!new)>(chain: Chain<T>, links: seq<Link<T>>, k: nat)
    requires chain.WellFormed() && |links| == chain.Stages() + 1 && k <= chain.Stages()
  {
    var last := links[chain.Stages()];
    |chain.Composed(k, links[k].committed)| <= |last.consumed| + last.ring.capacity
  }

  lemma IdleHadRoom<T(!new)>(chain: Chain<T>, links: seq<Link<T>>, k: nat)
    requires LinksOk(chain, links) && k <= chain.Stages() && Idle(chain, links, k)
    ensures HasRoom(chain, links, k)
  {
    IdleDelivers(chain, links, k);
    assert LinkOk(links[chain.Stages()], chain.Writer(chain.Stages()), 1);
  }

  /** The last stage has a block that does not fit any more. */
  lemma LastStageHasNoRoom<T(!new)>(chain: Chain<T>, links: seq<Link<T>>, k: nat)
    requires LinksOk(chain, links) && k == chain.Stages() - 1 && Settled(chain, links, k)
    requires links[k].ring.size >= chain.blocks[k]
    requires links[k + 1].ring.Available() < chain.blocks[k]
    ensures !HasRoom(chain, links, k)
  {
    var l := links[k];
    assert LinkOk(l, chain.Writer(k), chain.Reader(k)) && LinkOk(links[k + 1], chain.blocks[k], 1);
    var next := NextBlock(chain, k, l, chain.Writer(k));
    assert chain.Composed(k, l.committed) == chain.Output(k, l.committed);
    assert |next| == |links[k + 1].committed| + chain.blocks[k];
  }

  lemma NoRoomBehind<T(!new)>(chain: Chain<T>, links: seq<Link<T>>, k: nat)
    requires LinksOk(chain, links) && k < chain.Stages() && WouldRepeat(chain, links, k)
    requires !HasRoom(chain, links, k + 1)
    ensures !HasRoom(chain, links, k)
  {
    assert LinkOk(links[k], chain.Writer(k), chain.Reader(k));
    var next := NextBlock(chain, k, links[k], chain.Writer(k));
    ComposedMonotone(chain, k + 1, next, chain.Output(k, links[k].committed));
  }

  // ---- one iteration of a stage ----

  /** The queues ahead of stage `k`, what was put into its input and what was taken from the last
      queue are the same. */
  ghost predicate SameEnds<T(!new)>(chain: Chain<T>, before: seq<Link<T>>, after: seq<Link<T>>, k: nat)
    requires |before| == |after| == chain.Stages() + 1 && k < chain.Stages()
  {
    var n := chain.Stages();
    && after[..k] == before[..k] && after[k].committed == before[k].committed
    && after[n].consumed == before[n].consumed && SameSizes(before, after)
  }

  /** The queues have the sizes they had. */
  ghost predicate SameSizes<T>(before: seq<Link<T>>, after: seq<Link<T>>) {
    |before| == |after| && forall j :: 0 <= j < |before| ==> after[j].ring.capacity == before[j].ring.capacity
  }

  /** The stage may start: those behind it are idle, and itself it is not in the middle of a block. */
  ghost predicate Ready<T(!new)>(chain: Chain<T>, links: seq<Link<T>>, k: nat) {
    LinksOk(chain, links) && k < chain.Stages() && Settled(chain, links, k) && Idle(chain, links, k + 1)
  }

  ghost function BlockOf<T(!new)>(chain: Chain<T>, links: seq<Link<T>>, k: nat): (block: seq<T>)
    requires LinksOk(chain, links) && k < chain.Stages() && Shaped(links[k])
    requires links[k].ring.size >= chain.blocks[k]
    ensures |block| == chain.blocks[k]
  {
    chain.functions[k](Unread(links[k])[..chain.blocks[k]])
  }

  lemma LinkAt<T(!new)>(chain: Chain<T>, links: seq<Link<T>>, j: nat)
    requires LinksOk(chain, links) && j <= chain.Stages()
    ensures LinkOk(links[j], chain.Writer(j), chain.Reader(j))
  {
  }

  lemma LinkReplaced<T(!new)>(chain: Chain<T>, links: seq<Link<T>>, j: nat, l: Link<T>)
    requires LinksOk(chain, links) && j <= chain.Stages() && LinkOk(l, chain.Writer(j), chain.Reader(j))
    ensures LinksOk(chain, links[j := l])
  {
  }

  /** The output queue of stage `k` with the next block committed. */
  ghost predicate NextOutput<T(!new)>(chain: Chain<T>, links: seq<Link<T>>, k: nat, output: Link<T>)
    requires LinksOk(chain, links) && k < chain.Stages() && Shaped(links[k])
    requires links[k].ring.size >= chain.blocks[k]
  {
    && LinkOk(output, chain.Writer(k + 1), chain.Reader(k + 1))
    && output.consumed == links[k + 1].consumed && output.ring.capacity == links[k + 1].ring.capacity
    && output.committed == links[k + 1].committed + BlockOf(chain, links, k)
  }

  lemma CommittedLink<T(!new)>(chain: Chain<T>, links: seq<Link<T>>, k: nat, l: Link<T>)
    requires LinksOk(chain, links) && k < chain.Stages() && Shaped(links[k]) && Shaped(links[k + 1])
    requires links[k].ring.size >= chain.blocks[k] && links[k + 1].ring.WriteRun() >= chain.blocks[k]
    requires l == Commit(links[k + 1], BlockOf(chain, links, k))
    ensures NextOutput(chain, links, k, l)
  {
    LinkAt(chain, links, k + 1);
    IsMultipleExact(chain.blocks[k], chain.blocks[k]);
    CommitKeepsOk(links[k + 1], chain.blocks[k], chain.Reader(k + 1), BlockOf(chain, links, k));
  }

  /** Committing a block leaves the next stage ready and this one owing its release. */
  lemma AfterCommit<T(!new)>(chain: Chain<T>, links: seq<Link<T>>, k: nat, l: Link<T>)
    requires Ready(chain, links, k) && Shaped(links[k]) && links[k].ring.size >= chain.blocks[k]
    requires NextOutput(chain, links, k, l)
    ensures var next := links[k + 1 := l];
      && SameEnds(chain, links, next, k) && LinksOk(chain, next) && WouldRepeat(chain, next, k)
      && (k + 1 < chain.Stages() ==> Ready(chain, next, k + 1))
  {
    hide InOrder, AlignedRing, MapBlocks;
    var next := links[k + 1 := l];
    LinkReplaced(chain, links, k + 1, l);
    assert next[k] == links[k];
    if k + 1 < chain.Stages() {
      assert next[k + 2] == links[k + 2] && Settled(chain, links, k + 1);
    }
  }

  /** Releasing it settles the stage again. */
  lemma AfterRelease<T(!new)>(chain: Chain<T>, links: seq<Link<T>>, k: nat)
    requires LinksOk(chain, links) && k < chain.Stages() && Shaped(links[k])
    requires WouldRepeat(chain, links, k) && Idle(chain, links, k + 1)
    requires links[k].ring.ReadRun() >= chain.blocks[k]
    ensures var next := links[k := Release(links[k], chain.blocks[k])];
      && SameEnds(chain, links, next, k) && Ready(chain, next, k)
  {
    LinkAt(chain, links, k);
    var b := chain.blocks[k];
    IsMultipleExact(b, b);
    ReleaseKeepsOk(links[k], chain.Writer(k), b, b);
    ReleaseDrops(links[k], b);
    var output := NextBlock(chain, k, links[k], chain.Writer(k));
  }

  lemma RoomUnchanged<T(!new)>(chain: Chain<T>, before: seq<Link<T>>, after: seq<Link<T>>, k: nat)
    requires chain.WellFormed() && |before| == |after| == chain.Stages() + 1 && k < chain.Stages()
    requires SameEnds(chain, before, after, k)
    ensures HasRoom(chain, before, k) <==> HasRoom(chain, after, k)
  {
  }

  lemma EndsTransitive<T(!new)>(chain: Chain<T>, a: seq<Link<T>>, b: seq<Link<T>>, c: seq<Link<T>>, k: nat)
    requires |a| == |b| == |c| == chain.Stages() + 1 && k < chain.Stages()
    requires SameEnds(chain, a, b, k) && SameEnds(chain, b, c, k)
    ensures SameEnds(chain, a, c, k)
  {
  }

  /** After an exception the stage that ran out of room is settled, and every stage ahead of it
      would repeat its last block. */
  ghost predicate Interrupted<T(!new)>(chain: Chain<T>, links: seq<Link<T>>, k: nat) {
    && LinksOk(chain, links) && Settled(chain, links, chain.Stages() - 1)
    && forall j: nat :: k <= j < chain.Stages() - 1 ==> Shaped(links[j]) && WouldRepeat(chain, links, j)
  }

  /** What a run of stage `k`, and of those behind it, makes of `before`. */
  ghost predicate Processed<T(!new)>(chain: Chain<T>, before: seq<Link<T>>, after: seq<Link<T>>, k: nat, ok: bool) {
    && LinksOk(chain, before) && LinksOk(chain, after) && k < chain.Stages()
    && SameEnds(chain, before, after, k)
    && (ok <==> HasRoom(chain, before, k))
    && (if ok then Idle(chain, after, k) else Interrupted(chain, after, k))
  }

  /** The run of the next stage leaves this one where it was. */
  lemma NextStageKeeps<T(!new)>(chain: Chain<T>, before: seq<Link<T>>, after: seq<Link<T>>, k: nat)
    requires |before| == |after| == chain.Stages() + 1 && k + 1 < chain.Stages()
    requires SameEnds(chain, before, after, k + 1)
    ensures after[k] == before[k] && after[k + 1].committed == before[k + 1].committed
    ensures SameEnds(chain, before, after, k)
  {
    assert after[..k + 1][k] == before[..k + 1][k];
    assert after[..k + 1][..k] == after[..k] && before[..k + 1][..k] == before[..k];
  }

  lemma OneMoreInterrupted<T(!new)>(chain: Chain<T>, links: seq<Link<T>>, k: nat)
    requires Interrupted(chain, links, k + 1) && k + 1 < chain.Stages()
    requires Shaped(links[k]) && WouldRepeat(chain, links, k)
    ensures Interrupted(chain, links, k)
  {
  }

  lemma Contiguous<T(!new)>(chain: Chain<T>, links: seq<Link<T>>, k: nat)
    requires LinksOk(chain, links) && k < chain.Stages()
    ensures Shaped(links[k]) && Shaped(links[k + 1])
    ensures links[k].ring.ReadRun() >= chain.blocks[k] <==> links[k].ring.size >= chain.blocks[k]
    ensures links[k + 1].ring.WriteRun() >= chain.blocks[k] <==> links[k + 1].ring.Available() >= chain.blocks[k]
  {
    LinkAt(chain, links, k);
    LinkAt(chain, links, k + 1);
    ReadReady(links[k], chain.Writer(k), chain.blocks[k]);
    WriteReady(links[k + 1], chain.blocks[k], chain.Reader(k + 1));
  }

  /** begin_write never has to wait on a queue between two stages. */
  lemma OnlyLastWaits<T(!new)>(chain: Chain<T>, links: seq<Link<T>>, k: nat)
    requires Ready(chain, links, k) && Shaped(links[k + 1])
    requires links[k + 1].ring.Available() < chain.blocks[k]
    ensures k + 1 == chain.Stages()
  {
    LinkAt(chain, links, k + 1);
    if k + 1 < chain.Stages() {
      RoomWhenStarved(links[k + 1], chain.blocks[k], chain.Reader(k + 1));
    }
  }

  lemma FirstCommitted<T(!new)>(chain: Chain<T>, links: seq<Link<T>>, input: Link<T>)
    requires LinksOk(chain, links) && Idle(chain, links, 0)
    requires LinkOk(input, 1, chain.Reader(0)) && input.consumed == links[0].consumed
    ensures Ready(chain, links[0 := input], 0)
  {
    LinkReplaced(chain, links, 0, input);
    assert Settled(chain, links, 0);
  }

  lemma SettledSame<T(!new)>(chain: Chain<T>, links: seq<Link<T>>, next: seq<Link<T>>, j: nat)
    requires chain.WellFormed() && |links| == |next| == chain.Stages() + 1 && j < chain.Stages()
    requires Idle(chain, links, 0) && next[j] == links[j] && next[j + 1].committed == links[j + 1].committed
    ensures Settled(chain, next, j) && next[j].ring.size < chain.blocks[j]
  {
    assert Settled(chain, links, j);
  }

  lemma IdleSame<T(!new)>(chain: Chain<T>, links: seq<Link<T>>, next: seq<Link<T>>)
    requires chain.WellFormed() && |links| == |next| == chain.Stages() + 1 && Idle(chain, links, 0)
    requires forall j: nat :: j < chain.Stages() ==> next[j] == links[j]
    requires next[chain.Stages()].committed == links[chain.Stages()].committed
    ensures Idle(chain, next, 0)
  {
    forall j: nat | j < chain.Stages() ensures Settled(chain, next, j) && next[j].ring.size < chain.blocks[j] {
      SettledSame(chain, links, next, j);
    }
  }

  /** After an exception every stage has committed exactly its function of what it released, so that
      the chain can go on where it was, if and only if there is only one stage. */
  lemma ExceptionRepeats<T(!new)>(chain: Chain<T>, links: seq<Link<T>>)
    requires Interrupted(chain, links, 0)
    ensures (forall j: nat :: j < chain.Stages() ==> Settled(chain, links, j)) <==> chain.Stages() == 1
  {
    if chain.Stages() > 1 {
      assert WouldRepeat(chain, links, 0);
      assert |links[1].committed| == |chain.Output(0, links[0].consumed)| + |BlockOf(chain, links, 0)|;
      assert !Settled(chain, links, 0);
    }
  }

  /** If such a stage runs again and there is room, the block it already committed is the one it
      reads, so the queue behind it gets the same results twice in a row. */
  lemma CommitsTwice<T(!new)>(chain: Chain<T>, links: seq<Link<T>>, k: nat)
    requires LinksOk(chain, links) && k < chain.Stages() && Shaped(links[k]) && Shaped(links[k + 1])
    requires WouldRepeat(chain, links, k) && links[k + 1].ring.WriteRun() >= chain.blocks[k]
    ensures var again := Commit(links[k + 1], BlockOf(chain, links, k));
      && NextOutput(chain, links, k, again)
      && again.committed == (chain.Output(k, links[k].consumed) + BlockOf(chain, links, k)) + BlockOf(chain, links, k)
  {
    CommittedLink(chain, links, k, Commit(links[k + 1], BlockOf(chain, links, k)));
  }

  /** The capacity is a multiple of the block sizes on both sides. */
  ghost predicate AlignedBuffer<T>(buffer: seq<T>, w: nat, r: nat) {
    Aligned(|buffer|, 0, 0, w) && Aligned(|buffer|, 0, 0, r)
  }

  datatype Grant = Granted(start: nat, len: nat) | WaitsForever

  datatype Iteration = Finished | Again | Threw

  datatype Progress<T> = Starved | NoRoom | Block(output: Link<T>)

  class CooperativeProcesses<T(!new)> {
    const chain: Chain<T>
    var links: seq<Link<T>>

    /** The first half of an iteration of process_one: the block is read, processed and stored, and
        `output` is the output queue with it committed. */
    method TakeBlock(k: nat) returns (r: Progress<T>)
      requires LinksOk(chain, links) && k < chain.Stages() && Shaped(links[k]) && Shaped(links[k + 1])
      requires links[k].ring.ReadRun() >= chain.blocks[k] <==> links[k].ring.size >= chain.blocks[k]
      requires links[k + 1].ring.WriteRun() >= chain.blocks[k] <==> links[k + 1].ring.Available() >= chain.blocks[k]
      ensures r.Starved? ==> links[k].ring.size < chain.blocks[k]
      ensures r.NoRoom? ==>
        links[k].ring.size >= chain.blocks[k] && links[k + 1].ring.Available() < chain.blocks[k]
      ensures r.Block? ==>
        links[k].ring.ReadRun() >= chain.blocks[k] && NextOutput(chain, links, k, r.output)
    {
      var b := chain.blocks[k];
      var count := links[k].ring.ReadRun(); // begin_read(src, 0)
      if count < b {
        return Starved;
      }
      // begin_write(dest, blocksize)
      if links[k + 1].ring.Available() < b {
        return NoRoom;
      }
      OldestCells(links[k].ring, links[k].cells, b);
      var src := links[k].cells[links[k].ring.last..links[k].ring.last + b];
      var output := Commit(links[k + 1], chain.functions[k](src));
      CommittedLink(chain, links, k, output);
      r := Block(output);
    }

    /** The second half: end_write, which runs the next stage, and end_read. */
    method HandOver(k: nat, output: Link<T>) returns (ok: bool)
      requires Ready(chain, links, k) && Shaped(links[k]) && links[k].ring.ReadRun() >= chain.blocks[k]
      requires NextOutput(chain, links, k, output)
      modifies this
      ensures LinksOk(chain, links) && SameEnds(chain, old(links), links, k)
      ensures ok ==> Ready(chain, links, k) && links[k].ring.size < old(links[k].ring.size)
      ensures !ok ==> Interrupted(chain, links, k) && !HasRoom(chain, old(links), k)
      decreases chain.Stages() - k, 0
    {
      ghost var start := links;
      AfterCommit(chain, links, k, output);
      links := links[k + 1 := output]; // end_write(blocksize)
      ghost var committed := links;
      if k + 1 < chain.Stages() {
        ok := ProcessOne(k + 1);
        NextStageKeeps(chain, committed, links, k);
        EndsTransitive(chain, start, committed, links, k);
        if !ok {
          NoRoomBehind(chain, committed, k);
          RoomUnchanged(chain, start, committed, k);
          OneMoreInterrupted(chain, links, k);
          return;
        }
      }
      ghost var unreleased := links;
      AfterRelease(chain, links, k);
      links := links[k := Release(links[k], chain.blocks[k])]; // end_read(blocksize)
      EndsTransitive(chain, start, unreleased, links, k);
      ok := true;
    }

    /** One iteration of process_one. */
    method Iterate(k: nat) returns (r: Iteration)
      requires Ready(chain, links, k)
      modifies this
      ensures LinksOk(chain, links) && SameEnds(chain, old(links), links, k)
      ensures r.Finished? ==> links == old(links) && Idle(chain, links, k)
      ensures !r.Finished? ==> old(links[k].ring.size) >= chain.blocks[k]
      ensures r.Again? ==> Ready(chain, links, k) && links[k].ring.size < old(links[k].ring.size)
      ensures r.Threw? ==> Interrupted(chain, links, k) && !HasRoom(chain, old(links), k)
      decreases chain.Stages() - k, 1
    {
      hide InOrder, AlignedRing, MapBlocks;
      Contiguous(chain, links, k);
      var p := TakeBlock(k);
      if p.Starved? {
        return Finished;
      }
      if p.NoRoom? {
        OnlyLastWaits(chain, links, k);
        LastStageHasNoRoom(chain, links, k);
        return Threw;
      }
      var ok := HandOver(k, p.output);
      return if ok then Again else Threw;
    }

    /** CooperativeProcess::process_one of stage `k`; false if it ended in an exception. */
    method ProcessOne(k: nat) returns (ok: bool)
      requires Ready(chain, links, k)
      modifies this
      ensures Processed(chain, old(links), links, k, ok)
      ensures old(Idle(chain, links, k)) ==> links == old(links)
      decreases chain.Stages() - k, 2
    {
      ghost var before := links;
      var r := Again;
      while r.Again?
        invariant LinksOk(chain, links) && SameEnds(chain, before, links, k)
        invariant Idle(chain, before, k) ==> links == before
        invariant r.Again? ==> Ready(chain, links, k)
        invariant r.Finished? ==> Idle(chain, links, k)
        invariant r.Threw? ==> Interrupted(chain, links, k) && !HasRoom(chain, before, k)
        decreases r.Again?, links[k].ring.size
      {
        ghost var start := links;
        RoomUnchanged(chain, before, links, k);
        r := Iterate(k);
        EndsTransitive(chain, before, start, links, k);
      }
      ok := r.Finished?;
      if ok {
        IdleHadRoom(chain, links, k);
        RoomUnchanged(chain, before, links, k);
      }
    }

    // ---- the chain as its user sees it ----

    ghost predicate Valid()
      reads this
    {
      LinksOk(chain, links) && Idle(chain, links, 0)
    }

    constructor (chain: Chain<T>, buffers: seq<seq<T>>)
      requires chain.WellFormed() && |buffers| == chain.Stages() + 1
      requires forall j: nat :: j < |buffers| ==>
                 buffers[j] != [] && AlignedBuffer(buffers[j], chain.Writer(j), chain.Reader(j))
      ensures Valid() && this.chain == chain && |links| == |buffers|
      ensures forall j: nat :: j < |buffers| ==> links[j] == Created(buffers[j])
    {
      this.chain := chain;
      links := seq(|buffers|, j requires 0 <= j < |buffers| => Created(buffers[j]));
      forall j: nat | j < |buffers| ensures LinkOk(Created(buffers[j]), chain.Writer(j), chain.Reader(j)) {
        CreatedOk(buffers[j], chain.Writer(j), chain.Reader(j));
      }
    }

    /** begin_write on the first queue. If there is no room, its wait loop runs the chain, which has
        nothing to do; then the loop is back where it was and never ends. */
    method BeginWrite(countMin: nat) returns (r: Grant)
      requires Valid()
      modifies this
      ensures Valid() && links == old(links)
      ensures r == if links[0].ring.Available() >= countMin
                   then Granted(links[0].ring.first, links[0].ring.WriteRun()) else WaitsForever
    {
      LinkAt(chain, links, 0);
      if links[0].ring.Available() < countMin {
        var ok := ProcessOne(0); // wait_until_not_full
        return WaitsForever;
      }
      return Granted(links[0].ring.first, links[0].ring.WriteRun());
    }

    /** end_write on the first queue of the `data` that its caller has stored. The call returns
        exactly when the last queue has room for all that comes through, and then everything has. */
    method EndWrite(data: seq<T>) returns (ok: bool)
      requires Valid() && Shaped(links[0]) && |data| <= links[0].ring.WriteRun()
      modifies this
      ensures LinksOk(chain, links) && links[0].committed == old(links[0].committed) + data
      ensures var n := chain.Stages();
        && SameSizes(old(links), links) && links[n].consumed == old(links[n].consumed)
        && (ok <==> |chain.Composed(0, links[0].committed)| <= |links[n].consumed| + links[n].ring.capacity)
      ensures ok ==> Valid() && links[chain.Stages()].committed == chain.Composed(0, links[0].committed)
      ensures !ok ==> Interrupted(chain, links, 0)
    {
      hide InOrder, AlignedRing, MapBlocks, IsMultiple;
      LinkAt(chain, links, 0);
      IsMultipleExact(|data|, 1);
      var input := Commit(links[0], data);
      CommitKeepsOk(links[0], 1, chain.Reader(0), data);
      FirstCommitted(chain, links, input);
      links := links[0 := input];
      ghost var committed := links;
      ok := ProcessOne(0);
      RoomUnchanged(chain, committed, links, 0);
      if ok {
        IdleDelivers(chain, links, 0);
      }
    }

    /** begin_read and end_read on the last queue: the oldest `count` results. */
    method TakeResults(count: nat) returns (results: seq<T>)
      requires Valid() && Shaped(links[chain.Stages()]) && count <= links[chain.Stages()].ring.ReadRun()
      modifies this
      ensures Valid()
      ensures results == old(Unread(links[chain.Stages()])[..count])
      ensures links[chain.Stages()].consumed == old(links[chain.Stages()].consumed) + results
      ensures links[..chain.Stages()] == old(links[..chain.Stages()]) && SameSizes(old(links), links)
    {
      var n := chain.Stages();
      LinkAt(chain, links, n);
      OldestCells(links[n].ring, links[n].cells, count);
      results := links[n].cells[links[n].ring.last..links[n].ring.last + count];
      IsMultipleExact(count, 1);
      ReleaseKeepsOk(links[n], chain.Writer(n), 1, count);
      LinkReplaced(chain, links, n, Release(links[n], count));
      IdleSame(chain, links, links[n := Release(links[n], count)]);
      links := links[n := Release(links[n], count)];
    }
  }

  // ---- the exception, at one input ----

  function Copy(block: seq<int>): seq<int> { block }

  function TwoCopies(): Chain<int> { Chain([1, 1], [Copy, Copy]) }

  lemma {:induction false} CopiesAll(xs: seq<int>)
    ensures MapBlocks(Copy, 1, xs) == xs
  {
    if xs != [] {
      CopiesAll(xs[1..]);
    }
  }

  lemma TwoCopiesCopy(xs: seq<int>)
    ensures TwoCopies().WellFormed() && TwoCopies().Composed(0, xs) == xs
  {
    var chain := TwoCopies();
    assert forall k: nat :: k < 2 ==> chain.functions[k] == Copy && chain.blocks[k] == 1;
    CopiesAll(xs);
    assert chain.Output(0, xs) == xs && chain.Output(1, xs) == xs;
    assert chain.Composed(2, xs) == xs;
    assert chain.Composed(1, xs) == xs;
  }

  lemma RoomInFront<T(!new)>(chain: Chain<T>, links: seq<Link<T>>)
    requires LinksOk(chain, links) && Idle(chain, links, 0)
    ensures Shaped(links[0]) && links[0].ring.WriteRun() >= 1
  {
    LinkAt(chain, links, 0);
    RoomWhenStarved(links[0], 1, chain.Reader(0));
    WriteReady(links[0], 1, chain.Reader(0));
  }

  ghost predicate TwoCopiesIdle(c: CooperativeProcesses<int>)
    reads c
  {
    c.Valid() && c.chain == TwoCopies() && c.links[2].consumed == [] && c.links[2].ring.capacity == 1
  }

  method CreateTwoCopies() returns (c: CooperativeProcesses<int>)
    ensures fresh(c) && TwoCopiesIdle(c) && c.links[0].committed == []
  {
    TwoCopiesCopy([]);
    c := new CooperativeProcesses(TwoCopies(), [[0], [0], [0]]);
    assert c.links[0] == Created([0]) && c.links[2] == Created([0]);
  }

  /** A chain of two copying stages keeps up exactly as long as the last queue has room. */
  method CommitOne(c: CooperativeProcesses<int>, x: int, ghost all: seq<int>) returns (ok: bool)
    requires TwoCopiesIdle(c) && all == c.links[0].committed + [x]
    modifies c
    ensures LinksOk(c.chain, c.links) && c.links[0].committed == all
    ensures ok <==> |all| <= 1
    ensures if ok then TwoCopiesIdle(c) else Interrupted(c.chain, c.links, 0) && !Settled(c.chain, c.links, 0)
  {
    RoomInFront(c.chain, c.links);
    TwoCopiesCopy(all);
    ok := c.EndWrite([x]);
    if !ok { ExceptionRepeats(c.chain, c.links); }
  }

  /** Two stages that copy single elements, and room for one element in each queue. The second
      element does not fit in the last queue, so its commit throws; by then the first stage has
      committed it to the queue in between and would do so again. */
  method LastQueueTooSmall() returns (c: CooperativeProcesses<int>, first: bool, second: bool)
    ensures c.chain == TwoCopies() && first && !second
    ensures LinksOk(c.chain, c.links) && c.links[0].committed == [7, 8]
    ensures Interrupted(c.chain, c.links, 0) && !Settled(c.chain, c.links, 0)
  {
    c := CreateTwoCopies();
    first := CommitOne(c, 7, [7]);
    second := CommitOne(c, 8, [7, 8]);
  }

  // ---- the endless wait, at one input ----

  function PairCopies(): Chain<int> { Chain([2], [Copy]) }

  lemma PairCopiesWaits()
    ensures PairCopies().WellFormed() && PairCopies().Composed(0, [7]) == []
  {
    var chain := PairCopies();
    assert chain.functions[0] == Copy && chain.blocks[0] == 2;
    assert chain.Output(0, [7]) == [];
    assert chain.Composed(1, []) == [];
  }

  /** A single element of an incomplete block stays in the queue. */
  lemma OneIsLeft<T>(l: Link<T>, w: nat)
    requires LinkOk(l, w, 2) && |l.committed| == 1
    ensures l.ring.size == 1
  {
    IsMultipleExact(|l.consumed|, 2);
    assert |l.committed| == |l.consumed| + l.ring.size;
  }

  method CreatePairCopies() returns (c: CooperativeProcesses<int>)
    ensures fresh(c) && c.Valid() && c.chain == PairCopies()
    ensures c.links[0] == c.links[1] == Created([0, 0])
  {
    PairCopiesWaits();
    assert IsMultiple(2, 1) && IsMultiple(2, 2);
    c := new CooperativeProcesses(PairCopies(), [[0, 0], [0, 0]]);
  }

  /** A stage with blocks of two, and room for one block: after one element a begin_write for a whole
      block never returns, because the stage cannot empty the queue before the block is complete. */
  method WaitsForItself() returns (c: CooperativeProcesses<int>, ok: bool, g: Grant)
    ensures c.chain == PairCopies() && c.Valid() && c.links[0].committed == [7] && c.links[0].ring.capacity == 2
    ensures ok && g.WaitsForever?
  {
    c := CreatePairCopies();
    PairCopiesWaits();
    ok := c.EndWrite([7]);
    assert c.links[0].committed == [7] && ok;
    LinkAt(c.chain, c.links, 0);
    OneIsLeft(c.links[0], 1);
    g := c.BeginWrite(2);
  }
}
