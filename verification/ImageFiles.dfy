/** A file that is read from its start, and File::read_all on it. */
module ImageFiles {
  import opened Bytes
  import opened Sequences

  /** What one read(2) does: fail, or move at most so many bytes (but at least one, if there are). */
  datatype Transfer = AtMost(more: nat) | Fails

  /** The bytes that a result stands for. */
  function Got(result: int): nat {
    if result < 0 then 0 else result
  }

  /** A buffer of which only `from..to` was overwritten. */
  lemma KeptOutside(buffer: array<Byte>, before: seq<Byte>, from: nat, to: nat)
    requires from <= to <= buffer.Length == |before|
    requires buffer[..from] == before[..from] && buffer[to..] == before[to..]
    ensures forall i :: 0 <= i < from || to <= i < buffer.Length ==> buffer[i] == before[i]
  {
    forall i | 0 <= i < from ensures buffer[i] == before[i] {
      assert buffer[..from][i] == before[..from][i];
    }
    forall i | to <= i < buffer.Length ensures buffer[i] == before[i] {
      assert buffer[to..][i - to] == before[to..][i - to];
    }
  }

  lemma Unmoved(buffer: array<Byte>, before: seq<Byte>, from: nat, to: nat)
    requires from <= to <= buffer.Length == |before|
    requires forall i :: 0 <= i < to ==> buffer[i] == before[i]
    ensures buffer[from..to] == before[from..to]
  {
  }

  lemma SlicesKept(buffer: array<Byte>, before: seq<Byte>, from: nat, to: nat)
    requires from <= to <= buffer.Length == |before|
    requires forall i :: 0 <= i < from || to <= i < buffer.Length ==> buffer[i] == before[i]
    ensures buffer[..from] == before[..from] && buffer[to..] == before[to..]
  {
  }

  lemma JoinParts(buffer: array<Byte>, from: nat, middle: nat, to: nat)
    requires from <= middle <= to <= buffer.Length
    ensures buffer[from..middle] + buffer[middle..to] == buffer[from..to]
  {
  }

  class ImageFile {
    const content: seq<Byte>
    var position: nat
    var transfers: seq<Transfer> // for the next calls; those after them move all they can

    ghost predicate Valid()
      reads this
    {
      position <= |content|
    }

    ghost predicate ErrorFree()
      reads this
    {
      Fails !in transfers
    }

    constructor (content: seq<Byte>, transfers: seq<Transfer>)
      ensures Valid() && this.content == content && position == 0 && this.transfers == transfers
    {
      this.content, this.transfers, position := content, transfers, 0;
    }

    /** read(2) into `buffer` from `at` on: the number of bytes, or -1. */
    method Read(buffer: array<Byte>, at: nat, count: nat) returns (result: int)
      requires Valid() && at + count <= buffer.Length
      modifies this, buffer
      ensures Valid() && -1 <= result <= count
      ensures result == -1 ==> position == old(position) && !old(ErrorFree())
      ensures result >= 0 ==> position == old(position) + result
      ensures result == 0 ==> count == 0 || position == |content|
      ensures old(ErrorFree()) ==> ErrorFree()
      ensures var n := Got(result);
        && buffer[at..at + n] == content[old(position)..position]
        && buffer[..at] == old(buffer[..at]) && buffer[at + n..] == old(buffer[at + n..])
    {
      var limit := count;
      if transfers != [] {
        var transfer := transfers[0];
        transfers := transfers[1..];
        if transfer.Fails? { return -1; }
        limit := Min(count, transfer.more + 1);
      }
      result := Min(limit, |content| - position);
      forall i | 0 <= i < result { buffer[at + i] := content[position + i]; }
      position := position + result;
    }

    /** One read(2) behind the `bytes` that are in the buffer from `at` on. */
    method ReadOnto(buffer: array<Byte>, at: nat, bytes: nat, count: nat) returns (n: int)
      requires Valid() && at + bytes + count <= buffer.Length
      modifies this, buffer
      ensures Valid() && -1 <= n <= count
      ensures n == -1 ==> position == old(position) && !old(ErrorFree())
      ensures n >= 0 ==> position == old(position) + n
      ensures n == 0 ==> count == 0 || position == |content|
      ensures old(ErrorFree()) ==> ErrorFree()
      ensures n <= 0 ==> buffer[at..at + bytes] == old(buffer[at..at + bytes])
      ensures n > 0 ==> buffer[at..at + bytes + n] == old(buffer[at..at + bytes]) + content[old(position)..position]
      ensures forall i :: 0 <= i < at || at + bytes + Got(n) <= i < buffer.Length ==> buffer[i] == old(buffer[i])
    {
      ghost var before := buffer[..];
      n := Read(buffer, at + bytes, count);
      KeptOutside(buffer, before, at + bytes, at + bytes + Got(n));
      Unmoved(buffer, before, at, at + bytes);
      JoinParts(buffer, at, at + bytes, at + bytes + Got(n));
    }

    /** File::read_all: reads until `count` bytes or the end of the file, whatever the splits.
        After an error it returns the bytes before it, or throws (-1) if there are none. */
    method ReadAll(buffer: array<Byte>, at: nat, count: nat) returns (result: int)
      requires Valid() && at + count <= buffer.Length
      modifies this, buffer
      ensures Valid() && -1 <= result <= count
      ensures old(ErrorFree()) ==> ErrorFree() && result == Min(count, |content| - old(position))
      ensures result == -1 ==> position == old(position) && !old(ErrorFree())
      ensures result >= 0 ==> position == old(position) + result
      ensures result == 0 ==> count == 0 || position == |content|
      ensures var n := Got(result);
        && buffer[at..at + n] == content[old(position)..position]
        && buffer[..at] == old(buffer[..at]) && buffer[at + n..] == old(buffer[at + n..])
    {
      var bytes, done, failed := 0, false, false;
      while !done
        invariant Valid() && bytes <= count && position == old(position) + bytes
        invariant old(ErrorFree()) ==> ErrorFree() && !failed
        invariant failed ==> done && bytes == 0
        invariant !done ==> bytes < count || count == 0
        invariant done && bytes == 0 && !failed ==> count == 0 || position == |content|
        invariant done && old(ErrorFree()) ==> bytes == count || position == |content|
        invariant buffer[at..at + bytes] == content[old(position)..position]
        invariant forall i :: 0 <= i < at || at + bytes <= i < buffer.Length ==> buffer[i] == old(buffer[i])
        decreases !done, count - bytes
      {
        ghost var start := position;
        var n := ReadOnto(buffer, at, bytes, count - bytes);
        if n <= 0 {
          done, failed := true, n < 0 && bytes == 0;
        } else {
          JoinSlices(content, old(position), start, position);
          bytes := bytes + n;
          done := bytes == count;
        }
      }
      SlicesKept(buffer, old(buffer[..]), at, at + bytes);
      return if failed then -1 else bytes;
    }
  }
}
