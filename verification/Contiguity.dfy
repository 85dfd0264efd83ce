/** When a side of the queue that moves whole blocks always finds a whole block contiguous.
    `StaticProcessor` and `CooperativeProcess` index `blocksize` elements from the pointer they
    get, although the queue only promises `count_min` elements in total. */
module Contiguity {
  import opened RingIndices
  import Multiples

  datatype Move = Write(count: nat) | Read(count: nat)

  predicate Fits(r: Ring, m: Move)
    requires r.Valid()
  {
    match m
    case Write(count) => count <= r.WriteRun()
    case Read(count) => count <= r.ReadRun()
  }

  function Moved(r: Ring, m: Move): (r': Ring)
    requires r.Valid() && Fits(r, m)
    ensures r'.Valid() && r'.capacity == r.capacity
  {
    match m
    case Write(count) => r.Written(count)
    case Read(count) => r.Consumed(count)
  }

  /** Every move stays within the region granted for it. */
  predicate Legal(r: Ring, ms: seq<Move>)
    requires r.Valid()
    decreases |ms|
  {
    ms == [] || (Fits(r, ms[0]) && Legal(Moved(r, ms[0]), ms[1..]))
  }

  function After(r: Ring, ms: seq<Move>): (r': Ring)
    requires r.Valid() && Legal(r, ms)
    ensures r'.Valid() && r'.capacity == r.capacity
    decreases |ms|
  {
    if ms == [] then r else After(Moved(r, ms[0]), ms[1..])
  }

  ghost predicate WritesBlocks(ms: seq<Move>, b: nat)
    requires b > 0
  {
    forall m :: m in ms && m.Write? ==> m.count % b == 0
  }

  ghost predicate ReadsBlocks(ms: seq<Move>, b: nat)
    requires b > 0
  {
    forall m :: m in ms && m.Read? ==> m.count % b == 0
  }

  lemma IncrementAligned(r: Ring, at: nat, count: nat, b: nat)
    requires b > 0 && at + count <= r.capacity && at % b == 0 && count % b == 0
    ensures r.Increment(at, count) % b == 0
  {
    Multiples.Sums(at, count, b);
  }

  lemma FirstStaysAligned(r: Ring, m: Move, b: nat)
    requires r.Valid() && Fits(r, m) && b > 0
    requires r.first % b == 0 && (m.Write? ==> m.count % b == 0)
    ensures Moved(r, m).first % b == 0
  {
    if m.Write? {
      IncrementAligned(r, r.first, m.count, b);
    }
  }

  lemma LastStaysAligned(r: Ring, m: Move, b: nat)
    requires r.Valid() && Fits(r, m) && b > 0
    requires r.last % b == 0 && (m.Read? ==> m.count % b == 0)
    ensures Moved(r, m).last % b == 0
  {
    if m.Read? {
      IncrementAligned(r, r.last, m.count, b);
    }
  }

  /** An aligned write position leaves a whole block before the end of the buffer. */
  lemma AlignedWriteRun(r: Ring, b: nat)
    requires r.Valid() && b > 0 && r.capacity % b == 0 && r.first % b == 0
    requires r.Available() >= b
    ensures r.WriteRun() >= b
  {
    Multiples.Sums(r.capacity, r.first, b);
  }

  lemma AlignedReadRun(r: Ring, b: nat)
    requires r.Valid() && b > 0 && r.capacity % b == 0 && r.last % b == 0
    requires r.size >= b
    ensures r.ReadRun() >= b
  {
    Multiples.Sums(r.capacity, r.last, b);
  }

  lemma {:induction false} AlignedAfter(r: Ring, ms: seq<Move>, b: nat)
    requires r.Valid() && Legal(r, ms) && b > 0
    ensures WritesBlocks(ms, b) && r.first % b == 0 ==> After(r, ms).first % b == 0
    ensures ReadsBlocks(ms, b) && r.last % b == 0 ==> After(r, ms).last % b == 0
    decreases |ms|
  {
    if ms != [] {
      var next := Moved(r, ms[0]);
      assert ms[0] in ms && forall m :: m in ms[1..] ==> m in ms;
      if WritesBlocks(ms, b) && r.first % b == 0 { FirstStaysAligned(r, ms[0], b); }
      if ReadsBlocks(ms, b) && r.last % b == 0 { LastStaysAligned(r, ms[0], b); }
      AlignedAfter(next, ms[1..], b);
    }
  }

  /** Whenever there is room for a block, `begin_write` returns a whole block. */
  ghost predicate WriteAlwaysContiguous(capacity: nat, b: nat)
    requires b > 0
  {
    forall ms: seq<Move> :: Legal(Empty(capacity), ms) && WritesBlocks(ms, b) ==>
      var r := After(Empty(capacity), ms);
      r.Available() >= b ==> r.WriteRun() >= b
  }

  /** Whenever a block is unread, `begin_read` returns a whole block. */
  ghost predicate ReadAlwaysContiguous(capacity: nat, b: nat)
    requires b > 0
  {
    forall ms: seq<Move> :: Legal(Empty(capacity), ms) && ReadsBlocks(ms, b) ==>
      var r := After(Empty(capacity), ms);
      r.size >= b ==> r.ReadRun() >= b
  }

  lemma ContiguousAfter(capacity: nat, ms: seq<Move>, b: nat)
    requires b > 0 && (capacity % b == 0 || capacity < b) && Legal(Empty(capacity), ms)
    ensures var r := After(Empty(capacity), ms);
      && (WritesBlocks(ms, b) && r.Available() >= b ==> r.WriteRun() >= b)
      && (ReadsBlocks(ms, b) && r.size >= b ==> r.ReadRun() >= b)
  {
    AlignedAfter(Empty(capacity), ms, b);
    var r := After(Empty(capacity), ms);
    if WritesBlocks(ms, b) && r.Available() >= b { AlignedWriteRun(r, b); }
    if ReadsBlocks(ms, b) && r.size >= b { AlignedReadRun(r, b); }
  }

  /** The run that meets the end of the buffer in the middle of a block. */
  lemma OverrunWrite(capacity: nat, b: nat, full: nat)
    requires 0 < b <= full < capacity < full + b && full % b == 0
    ensures !WriteAlwaysContiguous(capacity, b)
  {
    var ms := [Write(full), Read(b)];
    var r0 := Empty(capacity);
    var r1 := Moved(r0, ms[0]);
    var r2 := Moved(r1, ms[1]);
    assert Legal(r2, ms[1..][1..]) && After(r2, ms[1..][1..]) == r2;
    assert Legal(r1, ms[1..]) && After(r1, ms[1..]) == r2;
    assert Legal(r0, ms) && After(r0, ms) == r2;
    assert WritesBlocks(ms, b) && r2.Available() >= b && r2.WriteRun() < b;
  }

  lemma OverrunRead(capacity: nat, b: nat, full: nat)
    requires 0 < b <= full < capacity < full + b && full % b == 0
    ensures !ReadAlwaysContiguous(capacity, b)
  {
    var ms := [Write(capacity), Read(full), Write(b)];
    var r0 := Empty(capacity);
    var r1 := Moved(r0, ms[0]);
    var r2 := Moved(r1, ms[1]);
    var r3 := Moved(r2, ms[2]);
    var rest := ms[1..];
    assert rest == [Read(full), Write(b)] && rest[1..] == [Write(b)] && rest[1..][1..] == [];
    assert Legal(r3, []) && After(r3, []) == r3;
    assert Legal(r2, rest[1..]) && After(r2, rest[1..]) == r3;
    assert Legal(r1, rest) && After(r1, rest) == r3;
    assert Legal(r0, ms) && After(r0, ms) == r3;
    assert ReadsBlocks(ms, b) && r3.size >= b && r3.ReadRun() < b;
  }

  /** A producer of whole blocks always gets a whole block, whatever the consumer's step sizes,
      exactly when the block size divides the capacity (or can never fit at all). */
  lemma WriteContiguityExact(capacity: nat, b: nat)
    requires b > 0
    ensures WriteAlwaysContiguous(capacity, b) <==> capacity % b == 0 || capacity < b
  {
    if capacity % b == 0 || capacity < b {
      forall ms: seq<Move> | Legal(Empty(capacity), ms) && WritesBlocks(ms, b)
        ensures var r := After(Empty(capacity), ms); r.Available() >= b ==> r.WriteRun() >= b
      {
        ContiguousAfter(capacity, ms, b);
      }
    } else {
      var full := Multiples.RoundDown(capacity, b);
      OverrunWrite(capacity, b, full);
    }
  }

  /** The same for a consumer of whole blocks, whatever the producer's step sizes. */
  lemma ReadContiguityExact(capacity: nat, b: nat)
    requires b > 0
    ensures ReadAlwaysContiguous(capacity, b) <==> capacity % b == 0 || capacity < b
  {
    if capacity % b == 0 || capacity < b {
      forall ms: seq<Move> | Legal(Empty(capacity), ms) && ReadsBlocks(ms, b)
        ensures var r := After(Empty(capacity), ms); r.size >= b ==> r.ReadRun() >= b
      {
        ContiguousAfter(capacity, ms, b);
      }
    } else {
      var full := Multiples.RoundDown(capacity, b);
      OverrunRead(capacity, b, full);
    }
  }

  /** If both sides move whole blocks whose sizes divide the capacity, at no reachable fill level
      do both sides lack what they ask for. `written` and `read` are the totals so far. */
  lemma NeverBothStarved(capacity: nat, p: nat, q: nat, written: nat, read: nat)
    requires p > 0 && q > 0 && capacity > 0 && capacity % p == 0 && capacity % q == 0
    requires written % p == 0 && read % q == 0 && read <= written <= read + capacity
    ensures written - read >= q || capacity - (written - read) >= p
  {
    if written - read < q && capacity - (written - read) < p {
      if p <= q {
        LargerIsCapacity(capacity, p, q);
        Multiples.Chain(p, q, read);
        Multiples.Sums(read, capacity, p);
        Multiples.Apart(read + capacity, written, p);
      } else {
        LargerIsCapacity(capacity, q, p);
        Multiples.Chain(q, p, written);
        Multiples.Apart(written, read, q);
      }
    }
  }

  lemma LargerIsCapacity(capacity: nat, small: nat, large: nat)
    requires 0 < small <= large && 0 < capacity < small + large
    requires capacity % large == 0 && capacity % small == 0
    ensures capacity == large && large % small == 0
  {
    var k := capacity / large;
    assert capacity == large * k == large + large * (k - 1);
    Multiples.Scale(large, k - 1);
    assert k == 1;
  }
}
