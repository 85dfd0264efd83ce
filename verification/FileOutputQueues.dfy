/** FileOutputQueue: a buffer of elements that is written to a file descriptor piece by piece. */
module FileOutputQueues {
  import opened Bytes
  import opened BytePipes
  import opened Multiples
  import opened Sequences

  /** How a begin or end call ended. */
  datatype Outcome = Done | Blocked | Interrupted | Error | StillWaiting

  /** What one call of write_buffer comes to: done if there is nothing to write or all of it is
      taken at once, to be continued after a short write or EAGAIN, an exception after any other
      error. */
  predicate OneWrite(events: seq<Event>, pending: nat, r: Outcome) {
    if pending == 0 then r.Done?
    else if events == [] then r.StillWaiting?
    else
      match events[0]
      case Moves(most) => if most < pending then r.Blocked? else r.Done?
      case WouldBlock => r.Blocked?
      case Interrupts => r.Blocked?
      case _ => r.Error?
  }

  /** A write or the wait after it throws. */
  predicate Throws(events: seq<Event>, pending: nat) {
    && pending > 0 && events != []
    && match events[0]
       case Fails => true
       case HangsUp => true
       case _ => AtOnce(events, pending) < pending && |events| > 1 && events[1].Interrupts?
  }

  /** The loops that empty the buffer end early only at the end of the script, at an error, or when
      interrupted. */
  predicate EndsFor(before: seq<Event>, events: seq<Event>, r: Outcome) {
    && (r.StillWaiting? ==> events == [])
    && (r.Error? ==> |events| < |before| && (LastTaken(before, events).Fails? || LastTaken(before, events).HangsUp?))
    && (r.Interrupted? ==> |events| < |before| && LastTaken(before, events).Interrupts?)
  }

  lemma EndsForLater(before: seq<Event>, middle: seq<Event>, events: seq<Event>, r: Outcome)
    requires Remains(middle, before) && Remains(events, middle)
    ensures Remains(events, before) && (EndsFor(middle, events, r) ==> EndsFor(before, events, r))
  {
  }

  lemma MovesLater(events: seq<Event>, count: nat)
    requires MovesAll(events, count) && count > 0
    ensures events != [] && (events[0].Moves? || events[0].WouldBlock?)
    ensures MovesAll(Later(events), count - AtOnce(events, count))
  {
  }

  class FileOutputQueue {
    const width: nat            // sizeof(T)
    const capacity: nat         // in elements
    const synchronous: bool
    const buff: array<Byte>
    const file: BytePipe
    var writeout: nat           // m_writeout_position, as an offset into the buffer
    var pending: nat            // m_bytes_to_write
    /** The bytes of all elements handed over by end_write so far. */
    ghost var committed: seq<Byte>

    ghost predicate Valid()
      reads this
    {
      && width > 0 && buff.Length == Times(capacity, width)
      && writeout + pending <= buff.Length
    }

    ghost function Pending(): seq<Byte>
      requires Valid()
      reads this, buff
    {
      buff[writeout..writeout + pending]
    }

    /** Nothing lost, nothing repeated: written plus pending bytes are the committed bytes. */
    ghost predicate Conserves()
      requires Valid()
      reads this, buff, file
    {
      file.sent + Pending() == committed
    }

    constructor (file: BytePipe, buffer: array<Byte>, capacity: nat, width: nat, synchronous: bool)
      requires width > 0 && buffer.Length == Times(capacity, width)
      ensures Valid() && this.file == file && buff == buffer && pending == 0 && committed == file.sent
      ensures this.capacity == capacity && this.width == width && this.synchronous == synchronous
      ensures Conserves()
    {
      this.file, buff, this.capacity, this.width := file, buffer, capacity, width;
      this.synchronous := synchronous;
      writeout, pending, committed := 0, 0, file.sent;
    }

    /** Writes what the descriptor takes at once, without a call if there is nothing to write. Done
        means that nothing is left; Blocked that the caller needs to wait. */
    method WriteBuffer() returns (r: Outcome)
      requires Valid()
      modifies this`writeout, this`pending, file`events, file`sent
      ensures Valid() && file.sent + Pending() == old(file.sent + Pending())
      ensures file.sent == old(file.sent + Pending()[..AtOnce(file.events, pending)])
      ensures file.events == if old(pending) == 0 then old(file.events) else Later(old(file.events))
      ensures !r.Interrupted? && (r.Done? <==> pending == 0)
      ensures OneWrite(old(file.events), old(pending), r)
      ensures old(|Pending()|) - |Pending()| == old(AtOnce(file.events, pending))
    {
      if pending == 0 { return Done; }
      var result := file.Write(buff[writeout..writeout + pending]);
      MovesOver(old(file.sent), old(Pending()), AtOnce(old(file.events), pending));
      match result
      case NeverReturns => return StillWaiting;
      case Again => return Blocked;
      case Failed => return Error;
      case Moved(count) =>
        if count < pending {
          writeout, pending := writeout + count, pending - count;
          assert Pending() == old(Pending())[count..];
          return Blocked;
        }
        writeout, pending := 0, 0;
        return Done;
    }

    /** One round of the loop that empties the buffer: a write and, if bytes are left, a wait.
        Blocked means that the loop goes round again. */
    method FlushRound() returns (r: Outcome)
      requires Valid()
      modifies this`writeout, this`pending, file`events, file`sent
      ensures Valid() && file.sent + Pending() == old(file.sent + Pending())
      ensures file.sent == old(file.sent + Pending()[..AtOnce(file.events, pending)])
      ensures r.Done? <==> pending == 0
      ensures old(pending) == 0 ==> file.events == old(file.events)
      ensures Remains(file.events, old(file.events)) && EndsFor(old(file.events), file.events, r)
      ensures r.Error? || r.Interrupted? <==> Throws(old(file.events), old(pending))
      ensures old(MovesAll(file.events, pending)) ==> r.Done? || r.Blocked?
      ensures old(MovesAll(file.events, pending)) && r.Blocked? ==> MovesAll(file.events, pending)
      ensures |file.events| <= |old(file.events)| && (r.Blocked? ==> |file.events| < |old(file.events)|)
    {
      hide MovesAll;
      if MovesAll(file.events, pending) && pending > 0 { MovesLater(file.events, pending); }
      r := WriteBuffer();
      if MovesAll(file.events, pending) && pending > 0 { MovesLater(file.events, pending); }
      if r.Blocked? {
        var w := file.Wait();
        match w
        case Ready =>
        case Interrupted => r := Outcome.Interrupted;
        case Waiting => r := StillWaiting;
      }
    }

    /** Writes and waits in turn until the buffer is empty. */
    method Drain() returns (r: Outcome)
      requires Valid()
      modifies this`writeout, this`pending, file`events, file`sent
      ensures Valid() && file.sent + Pending() == old(file.sent + Pending())
      ensures old(file.sent + Pending()[..AtOnce(file.events, pending)]) <= file.sent
      ensures !r.Blocked? && (r.Done? <==> pending == 0)
      ensures EndsFor(old(file.events), file.events, r) && (old(MovesAll(file.events, pending)) ==> r.Done?)
      ensures old(pending) == 0 ==> file.events == old(file.events)
    {
      hide MovesAll, LastTaken;
      r := FlushRound();
      while r.Blocked?
        invariant Valid() && file.sent + Pending() == old(file.sent + Pending())
        invariant old(file.sent + Pending()[..AtOnce(file.events, pending)]) <= file.sent
        invariant r.Done? <==> pending == 0
        invariant old(pending) == 0 ==> r.Done? && file.events == old(file.events)
        invariant Remains(file.events, old(file.events)) && EndsFor(old(file.events), file.events, r)
        invariant old(MovesAll(file.events, pending)) ==> r.Done? || (r.Blocked? && MovesAll(file.events, pending))
        decreases |file.events| + (if r.Blocked? then 1 else 0)
      {
        ghost var middle := file.events;
        r := FlushRound();
        EndsForLater(old(file.events), middle, file.events, r);
      }
    }

    /** Grants the whole buffer once everything in it has been written. With a minimum of zero it
        only polls, and grants nothing while bytes are pending. */
    method BeginWrite(countMin: nat) returns (r: Outcome, granted: nat)
      requires Valid()
      modifies this`writeout, this`pending, file`events, file`sent
      ensures Valid() && file.sent + Pending() == old(file.sent + Pending())
      ensures old(file.sent + Pending()[..AtOnce(file.events, pending)]) <= file.sent
      ensures countMin == 0 ==> file.sent == old(file.sent + Pending()[..AtOnce(file.events, pending)])
      ensures countMin == 0 ==> file.events == if old(pending) == 0 then old(file.events) else Later(old(file.events))
      ensures r.Done? <==> pending == 0
      ensures countMin == 0 ==> OneWrite(old(file.events), old(pending), r)
      ensures countMin > 0 ==> !r.Blocked? && EndsFor(old(file.events), file.events, r)
      ensures countMin > 0 && old(MovesAll(file.events, pending)) ==> r.Done?
      ensures granted == if r.Done? then capacity else 0
    {
      if countMin == 0 {
        r := WriteBuffer();
        if !r.Done? { return r, 0; }
      }
      r := Drain();
      return r, if r.Done? then capacity else 0;
    }

    /** What end_write does before it writes: the first `count` elements of the buffer are pending.
        If bytes still were (the caller was granted nothing, so `count` is zero) those are lost. */
    method Commit(count: nat)
      requires Valid() && count <= (if pending == 0 then capacity else 0)
      modifies this`writeout, this`pending, this`committed
      ensures Valid() && Times(count, width) <= buff.Length && Pending() == buff[..Times(count, width)]
      ensures committed == old(committed) + buff[..Times(count, width)]
      ensures old(Conserves()) ==> (Conserves() <==> old(pending) == 0)
    {
      TimesMonotone(count, capacity, width);
      PendingLost(file.sent, Pending(), buff[..Times(count, width)]);
      committed := committed + buff[..Times(count, width)];
      writeout, pending := 0, Times(count, width);
    }

    /** Commits the first `count` elements of the buffer and starts to write them. If bytes were
        still pending those are lost, and only then. */
    method EndWrite(count: nat) returns (r: Outcome)
      requires Valid() && count <= (if pending == 0 then capacity else 0)
      modifies this`writeout, this`pending, this`committed, file`events, file`sent
      ensures Valid() && Times(count, width) <= buff.Length
      ensures committed == old(committed) + buff[..Times(count, width)]
      ensures file.sent + Pending() == old(file.sent) + buff[..Times(count, width)]
      ensures old(Conserves()) ==> (Conserves() <==> old(pending) == 0)
      ensures old(file.sent) + buff[..AtOnce(old(file.events), Times(count, width))] <= file.sent
      ensures !synchronous ==> file.sent == old(file.sent) + buff[..AtOnce(old(file.events), Times(count, width))]
      ensures !synchronous && count > 0 ==> file.events == Later(old(file.events))
      ensures !synchronous ==> OneWrite(old(file.events), Times(count, width), r)
      ensures synchronous ==> !r.Blocked? && (r.Done? <==> pending == 0) && EndsFor(old(file.events), file.events, r)
      ensures synchronous && MovesAll(old(file.events), Times(count, width)) ==> r.Done?
    {
      Commit(count);
      AtOnceOf(buff, Times(count, width), file.events);
      if synchronous {
        r := Drain();
      } else {
        r := WriteBuffer();
      }
    }
  }

  /** After a `begin_write(0)` that granted nothing, `end_write(0)` loses the pending byte. */
  method PollLosesBytes() returns (queue: FileOutputQueue)
    ensures fresh(queue) && queue.Valid() && !queue.Conserves()
    ensures queue.committed == [7] && queue.file.sent + queue.Pending() == []
  {
    hide MovesAll, EndsFor, LastTaken;
    var file := new BytePipe([WouldBlock, WouldBlock], []);
    var buffer := new Byte[1](_ => 0);
    queue := new FileOutputQueue(file, buffer, 1, 1, false);
    buffer[0] := 7;
    assert buffer[..Times(1, 1)] == [7];
    var r := queue.EndWrite(1);
    assert queue.pending == 1;
    var granted;
    r, granted := queue.BeginWrite(0);
    assert granted == 0 && queue.pending == 1;
    r := queue.EndWrite(0);
  }

  lemma AtOnceOf(buff: array<Byte>, count: nat, events: seq<Event>)
    requires count <= buff.Length
    ensures buff[..count][..AtOnce(events, count)] == buff[..AtOnce(events, count)]
  {
  }

  /** Replacing the pending bytes by `data` is the same as appending `data` only if there are none. */
  lemma PendingLost(sent: seq<Byte>, pending: seq<Byte>, data: seq<Byte>)
    ensures sent + data == (sent + pending) + data <==> pending == []
  {
    if pending == [] {
      assert sent + pending == sent;
    } else {
      assert |sent + data| < |(sent + pending) + data|;
    }
  }
}
