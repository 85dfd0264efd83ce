/** The index arithmetic of the bounded queue of queue.hpp.

    The three pointers `m_first`, `m_last`, `m_end` become offsets from `m_buff`. Every count
    the queue handles is bounded by the capacity, so the 32-bit `unsigned int` never wraps. */
module RingIndices {

  datatype Ring = Ring(capacity: nat, first: nat, last: nat, size: nat) {

    /** The cell that holds the i-th oldest unread element. */
    function CellOf(i: nat): nat
      requires last < capacity || last == 0
      requires i <= capacity
    {
      if last + i < capacity then last + i else last + i - capacity
    }

    predicate Valid() {
      && size <= capacity
      && (last < capacity || last == capacity == 0)
      && first == CellOf(size)
    }

    ghost predicate IsLive(cell: nat)
      requires Valid()
    {
      exists i: nat :: i < size && CellOf(i) == cell
    }

    function Available(): nat
      requires Valid()
    {
      capacity - size
    }

    /** The free cells from `first` on, up to the end of the buffer. */
    function WriteRun(): (run: nat)
      requires Valid()
      ensures run <= Available() && first + run <= capacity
    {
      if Available() <= capacity - first then Available() else capacity - first
    }

    /** The live cells from `last` on, up to the end of the buffer. */
    function ReadRun(): (run: nat)
      requires Valid()
      ensures run <= size && last + run <= capacity
    {
      if size <= capacity - last then size else capacity - last
    }

    function Increment(at: nat, count: nat): nat
      requires at + count <= capacity
    {
      if at + count == capacity then 0 else at + count
    }

    function Written(count: nat): (r: Ring)
      requires Valid() && count <= WriteRun()
      ensures r.Valid() && r.capacity == capacity && r.last == last
      ensures r.size == size + count
    {
      this.(first := Increment(first, count), size := size + count)
    }

    function Consumed(count: nat): (r: Ring)
      requires Valid() && count <= ReadRun()
      ensures r.Valid() && r.capacity == capacity && r.first == first
      ensures r.size == size - count
    {
      this.(last := Increment(last, count), size := size - count)
    }
  }

  function Empty(capacity: nat): (r: Ring)
    ensures r.Valid() && r.size == 0
  {
    Ring(capacity, 0, 0, 0)
  }

  /** The unread elements, oldest first. */
  function Live<T>(r: Ring, cells: seq<T>): (live: seq<T>)
    requires r.Valid() && |cells| == r.capacity
    ensures |live| == r.size
    ensures forall i: nat :: i < r.size ==> live[i] == cells[r.CellOf(i)]
  {
    if r.last + r.size <= r.capacity then cells[r.last..r.last + r.size]
    else cells[r.last..] + cells[..r.last + r.size - r.capacity]
  }

  /** All the free cells from `first` on, up to the end of the buffer or the next live cell. */
  ghost predicate FreeRegion(r: Ring, start: nat, len: nat)
    requires r.Valid()
  {
    && start == r.first && start + len <= r.capacity
    && (forall c: nat :: start <= c < start + len ==> !r.IsLive(c))
    && (start + len == r.capacity || r.IsLive(start + len))
  }

  /** All the live cells from `last` on, up to the end of the buffer or the next free cell. */
  ghost predicate LiveRegion(r: Ring, start: nat, len: nat)
    requires r.Valid()
  {
    && start == r.last && start + len <= r.capacity
    && (forall c: nat :: start <= c < start + len ==> r.IsLive(c))
    && (start + len == r.capacity || !r.IsLive(start + len))
  }

  /** `begin_write` grants exactly the maximal contiguous run of cells without live data,
      also when `first == last`. */
  lemma WriteRunIsMaximal(r: Ring)
    requires r.Valid()
    ensures forall c: nat :: r.first <= c < r.first + r.WriteRun() ==> !r.IsLive(c)
    ensures var next := r.first + r.WriteRun(); next == r.capacity || r.IsLive(next)
  {
    var next := r.first + r.WriteRun();
    if next < r.capacity {
      assert r.CellOf(0) == next && r.size > 0;
    }
  }

  /** `begin_read` grants exactly the maximal contiguous run of live cells, oldest first. */
  lemma ReadRunIsMaximal<T>(r: Ring, cells: seq<T>)
    requires r.Valid() && |cells| == r.capacity
    ensures forall c: nat :: r.last <= c < r.last + r.ReadRun() ==> r.IsLive(c)
    ensures var next := r.last + r.ReadRun(); next == r.capacity || !r.IsLive(next)
    ensures cells[r.last..r.last + r.ReadRun()] == Live(r, cells)[..r.ReadRun()]
  {
    forall c: nat | r.last <= c < r.last + r.ReadRun() ensures r.IsLive(c) {
      assert r.CellOf(c - r.last) == c;
    }
  }

  /** The first cells of the live run hold the oldest unread elements. */
  lemma OldestCells<T>(r: Ring, cells: seq<T>, count: nat)
    requires r.Valid() && |cells| == r.capacity && count <= r.ReadRun()
    ensures cells[r.last..r.last + count] == Live(r, cells)[..count]
  {
    ReadRunIsMaximal(r, cells);
    assert cells[r.last..r.last + count] == cells[r.last..r.last + r.ReadRun()][..count];
  }

  /** Committing the first cells of the free run appends them to the unread elements. */
  lemma WrittenAppends<T>(r: Ring, cells: seq<T>, count: nat)
    requires r.Valid() && |cells| == r.capacity && count <= r.WriteRun()
    ensures Live(r.Written(count), cells) == Live(r, cells) + cells[r.first..r.first + count]
  {
    var w := r.Written(count);
    var all := Live(r, cells) + cells[r.first..r.first + count];
    forall i: nat | i < w.size ensures Live(w, cells)[i] == all[i] {
      CellsAppend(r, count, i);
    }
  }

  lemma CellsAppend(r: Ring, count: nat, i: nat)
    requires r.Valid() && count <= r.WriteRun() && i < r.size + count
    ensures r.Written(count).CellOf(i) == if i < r.size then r.CellOf(i) else r.first + (i - r.size)
  {
  }

  /** Releasing the first cells of the live run drops the oldest unread elements. */
  lemma ConsumedDrops<T>(r: Ring, cells: seq<T>, count: nat)
    requires r.Valid() && |cells| == r.capacity && count <= r.ReadRun()
    ensures Live(r.Consumed(count), cells) == Live(r, cells)[count..]
  {
    var c := r.Consumed(count);
    forall i: nat | i < c.size ensures Live(c, cells)[i] == Live(r, cells)[count..][i] {
      assert c.CellOf(i) == r.CellOf(i + count);
    }
  }

  /** Committing never shrinks the consumer's run and only advances the producer's. */
  lemma RunsAfterWrite(r: Ring, count: nat)
    requires r.Valid() && count <= r.WriteRun()
    ensures var w := r.Written(count);
      && w.ReadRun() >= r.ReadRun()
      && (count < r.WriteRun() ==> w.first == r.first + count && w.WriteRun() == r.WriteRun() - count)
  {
  }

  /** Releasing never shrinks the producer's run and only advances the consumer's. */
  lemma RunsAfterRead(r: Ring, count: nat)
    requires r.Valid() && count <= r.ReadRun()
    ensures var c := r.Consumed(count);
      && c.WriteRun() >= r.WriteRun()
      && (count < r.ReadRun() ==> c.last == r.last + count && c.ReadRun() == r.ReadRun() - count)
  {
  }

  /** Writing into the free run leaves the unread elements as they are. */
  lemma FillKeepsLive<T>(r: Ring, cells: seq<T>, cell: nat, value: T)
    requires r.Valid() && |cells| == r.capacity
    requires r.first <= cell < r.first + r.WriteRun()
    ensures Live(r, cells[cell := value]) == Live(r, cells)
  {
    WriteRunIsMaximal(r);
  }
}
