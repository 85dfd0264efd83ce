/** One queue of a chain of CooperativeProcess stages, as a value, and what its two neighbours
    rely on. The outside producer and consumer count as neighbours with blocks of one element. */
module CooperativeLinks {
  import opened RingIndices
  import opened Multiples
  import opened Sequences
  import Contiguity

  datatype Link<T> = Link(
    ring: Ring,
    cells: seq<T>,
    committed: seq<T>, // all elements handed over by end_write so far
    consumed: seq<T>   // all elements released by end_read so far
  )

  predicate Shaped<T>(l: Link<T>) {
    l.ring.Valid() && |l.cells| == l.ring.capacity > 0
  }

  predicate Aligned(capacity: nat, at: nat, total: nat, b: nat) {
    b > 0 && IsMultiple(capacity, b) && IsMultiple(at, b) && IsMultiple(total, b)
  }

  ghost predicate InOrder<T>(l: Link<T>)
    requires Shaped(l)
  {
    l.committed == l.consumed + Unread(l)
  }

  /** `w` and `r` are the block sizes of the writer and the reader. */
  ghost predicate LinkOk<T>(l: Link<T>, w: nat, r: nat) {
    Shaped(l) && InOrder(l) && AlignedRing(l.ring, |l.committed|, |l.consumed|, w, r)
  }

  predicate AlignedRing(ring: Ring, committed: nat, consumed: nat, w: nat, r: nat) {
    Aligned(ring.capacity, ring.first, committed, w) && Aligned(ring.capacity, ring.last, consumed, r)
  }

  function Unread<T>(l: Link<T>): (unread: seq<T>)
    requires Shaped(l)
    ensures |unread| == l.ring.size
  {
    Live(l.ring, l.cells)
  }

  /** The block is stored from `first` on and committed. */
  function Commit<T>(l: Link<T>, block: seq<T>): Link<T>
    requires Shaped(l) && |block| <= l.ring.WriteRun()
  {
    Link(l.ring.Written(|block|), Stored(l.cells, l.ring.first, block), l.committed + block, l.consumed)
  }

  function Stored<T>(cells: seq<T>, at: nat, block: seq<T>): (stored: seq<T>)
    requires at + |block| <= |cells|
    ensures |stored| == |cells|
  {
    cells[..at] + block + cells[at + |block|..]
  }

  function Release<T>(l: Link<T>, count: nat): Link<T>
    requires Shaped(l) && count <= l.ring.ReadRun()
  {
    Link(l.ring.Consumed(count), l.cells, l.committed,
         l.consumed + l.cells[l.ring.last..l.ring.last + count])
  }

  function Created<T>(cells: seq<T>): Link<T> {
    Link(Empty(|cells|), cells, [], [])
  }

  // ---- whole blocks are contiguous, and there is room when the reader lacks a block ----

  lemma ReadReady<T>(l: Link<T>, w: nat, r: nat)
    requires LinkOk(l, w, r)
    ensures l.ring.ReadRun() >= r <==> l.ring.size >= r
  {
    if l.ring.size >= r {
      IsMultipleExact(l.ring.capacity, r);
      IsMultipleExact(l.ring.last, r);
      Contiguity.AlignedReadRun(l.ring, r);
    }
  }

  lemma WriteReady<T>(l: Link<T>, w: nat, r: nat)
    requires LinkOk(l, w, r)
    ensures l.ring.WriteRun() >= w <==> l.ring.Available() >= w
  {
    if l.ring.Available() >= w {
      IsMultipleExact(l.ring.capacity, w);
      IsMultipleExact(l.ring.first, w);
      Contiguity.AlignedWriteRun(l.ring, w);
    }
  }

  lemma RoomWhenStarved<T>(l: Link<T>, w: nat, r: nat)
    requires LinkOk(l, w, r) && l.ring.size < r
    ensures l.ring.Available() >= w
  {
    IsMultipleExact(l.ring.capacity, w);
    IsMultipleExact(l.ring.capacity, r);
    IsMultipleExact(|l.committed|, w);
    IsMultipleExact(|l.consumed|, r);
    assert |l.committed| == |l.consumed| + l.ring.size;
    Contiguity.NeverBothStarved(l.ring.capacity, w, r, |l.committed|, |l.consumed|);
  }

  // ---- committing and releasing whole blocks keep the link in order ----

  lemma StoredLive<T>(ring: Ring, cells: seq<T>, block: seq<T>)
    requires ring.Valid() && |cells| == ring.capacity && |block| <= ring.WriteRun()
    ensures Live(ring, Stored(cells, ring.first, block)) == Live(ring, cells)
  {
    WriteRunIsMaximal(ring);
    forall i: nat | i < ring.size
      ensures Stored(cells, ring.first, block)[ring.CellOf(i)] == cells[ring.CellOf(i)]
    {
      assert ring.IsLive(ring.CellOf(i));
    }
  }

  lemma CommitAppends<T>(l: Link<T>, block: seq<T>)
    requires Shaped(l) && |block| <= l.ring.WriteRun()
    ensures Unread(Commit(l, block)) == Unread(l) + block
  {
    var cells := Stored(l.cells, l.ring.first, block);
    StoredLive(l.ring, l.cells, block);
    WrittenAppends(l.ring, cells, |block|);
    assert cells[l.ring.first..l.ring.first + |block|] == block;
  }

  lemma AlignedMove(ring: Ring, at: nat, total: nat, count: nat, b: nat)
    requires at + count <= ring.capacity && Aligned(ring.capacity, at, total, b) && IsMultiple(count, b)
    ensures Aligned(ring.capacity, ring.Increment(at, count), total + count, b)
  {
    MultiplesAdd(at, count, b);
    MultiplesAdd(total, count, b);
  }

  lemma CommitInOrder<T>(l: Link<T>, block: seq<T>)
    requires Shaped(l) && InOrder(l) && |block| <= l.ring.WriteRun()
    ensures InOrder(Commit(l, block))
  {
    CommitAppends(l, block);
    Associative(l.consumed, Unread(l), block);
  }

  lemma WrittenAligned(ring: Ring, committed: nat, consumed: nat, w: nat, r: nat, count: nat)
    requires ring.Valid() && AlignedRing(ring, committed, consumed, w, r)
    requires count <= ring.WriteRun() && w > 0 && IsMultiple(count, w)
    ensures AlignedRing(ring.Written(count), committed + count, consumed, w, r)
  {
    AlignedMove(ring, ring.first, committed, count, w);
  }

  lemma CommitKeepsOk<T>(l: Link<T>, w: nat, r: nat, block: seq<T>)
    requires LinkOk(l, w, r) && IsMultiple(|block|, w) && |block| <= l.ring.WriteRun()
    ensures LinkOk(Commit(l, block), w, r)
  {
    hide InOrder, IsMultiple;
    CommitInOrder(l, block);
    WrittenAligned(l.ring, |l.committed|, |l.consumed|, w, r, |block|);
  }

  lemma ReleaseDrops<T>(l: Link<T>, count: nat)
    requires Shaped(l) && count <= l.ring.ReadRun()
    ensures Unread(Release(l, count)) == Unread(l)[count..]
    ensures Release(l, count).consumed == l.consumed + Unread(l)[..count]
  {
    ConsumedDrops(l.ring, l.cells, count);
    ReadRunIsMaximal(l.ring, l.cells);
    assert l.cells[l.ring.last..l.ring.last + count]
        == l.cells[l.ring.last..l.ring.last + l.ring.ReadRun()][..count];
  }

  lemma ReleaseInOrder<T>(l: Link<T>, count: nat)
    requires Shaped(l) && InOrder(l) && count <= l.ring.ReadRun()
    ensures InOrder(Release(l, count))
  {
    ReleaseDrops(l, count);
    MovesOver(l.consumed, Unread(l), count);
  }

  lemma ConsumedAligned(ring: Ring, committed: nat, consumed: nat, w: nat, r: nat, count: nat)
    requires ring.Valid() && AlignedRing(ring, committed, consumed, w, r)
    requires count <= ring.ReadRun() && r > 0 && IsMultiple(count, r)
    ensures AlignedRing(ring.Consumed(count), committed, consumed + count, w, r)
  {
    AlignedMove(ring, ring.last, consumed, count, r);
  }

  lemma ReleaseKeepsOk<T>(l: Link<T>, w: nat, r: nat, count: nat)
    requires LinkOk(l, w, r) && IsMultiple(count, r) && count <= l.ring.ReadRun()
    ensures LinkOk(Release(l, count), w, r)
  {
    ReleaseInOrder(l, count);
    ConsumedAligned(l.ring, |l.committed|, |l.consumed|, w, r, count);
  }

  lemma CreatedOk<T>(cells: seq<T>, w: nat, r: nat)
    requires cells != [] && Aligned(|cells|, 0, 0, w) && Aligned(|cells|, 0, 0, r)
    ensures LinkOk(Created(cells), w, r)
  {
    assert Live(Empty(|cells|), cells) == [];
  }
}
