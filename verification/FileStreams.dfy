/** A FileOutputQueue in one thread and a FileInputQueue in another, joined by a pipe. The threads
    take turns in any order at the granularity of system calls: a begin_read can wait in the middle
    for bytes that the other thread writes meanwhile. */
module FileStreams {
  import opened Bytes
  import opened BytePipes
  import opened Multiples
  import opened Sequences
  import FileOutputQueues
  import FileInputQueues

  /** Where the writing thread is. */
  datatype Writer =
    | Idle
    | Flushing(poll: bool) // in begin_write, with a minimum of zero or not
    | Granted              // begin_write returned the whole buffer
    | Ending               // in end_write, after the commit

  /** Where the reading thread is. */
  datatype Reader =
    | Resting
    | Gathering(wanted: nat, bytesRead: nat) // in the loop of begin_read
    | Holding(count: nat)                    // begin_read returned `count` elements

  /** The three ways to lose bytes that have been read. */
  datatype Mishap =
    | CutShort // an exception ends a begin_read that has read something
    | Ragged   // a begin_read returns when its last read ended inside an element
    | ReadOver // a begin_read reads over elements that end_read(0) left unreleased

  /** A turn of one thread. What it does depends on where the thread is: whether the next
      begin_write polls, what is committed, the minimum of the next begin_read, how much is released. */
  datatype Turn =
    | WriterTurn(poll: bool, elements: seq<Byte>, count: nat)
    | ReaderTurn(countMin: nat, count: nat)

  /** What is lost when the reader goes from one place to another. */
  function Loss(before: Reader, after: Reader, unreleased: nat, total: nat, width: nat): seq<Mishap>
    requires width > 0
  {
    match (before, after)
    case (Resting, Gathering(_, _)) => if unreleased > 0 then [ReadOver] else []
    case (Gathering(_, bytesRead), Resting) => if bytesRead > 0 then [CutShort] else []
    case (Gathering(_, _), Holding(_)) => if IsMultiple(total, width) then [] else [Ragged]
    case _ => []
  }

  /** Where a read leaves a begin_read that has read `bytesRead` bytes before. */
  function AfterRead(wanted: nat, bytesRead: nat, g: FileInputQueues.Gathered, carry: nat, width: nat): Reader
    requires width > 0
  {
    match g
    case More(total) => Gathering(wanted, total)
    case Enough(total) => Holding(carry + total / width)
    case EndReached(_) => Resting
    case Stopped(outcome) => if outcome.StillWaiting? then Gathering(wanted, bytesRead) else Resting
  }

  /** Where a read leads, by the events alone: it returns as soon as enough has arrived, goes on
      otherwise, and throws at an error, at the end of the file, with a full buffer, or when the wait
      after an empty read is interrupted. */
  lemma ReadLeads(events: seq<Event>, space: nat, available: nat, wanted: nat, bytesRead: nat, carry: nat, width: nat)
    requires width > 0
    ensures var n := Arriving(events, space, available);
      AfterRead(wanted, bytesRead,
        FileInputQueues.RoundOf(events, space, available, bytesRead, Times(wanted, width)), carry, width)
      == if events == [] then Gathering(wanted, bytesRead)
         else if events[0].Fails? || events[0].HangsUp? || (events[0].Moves? && space == 0) then Resting
         else if wanted == 0 || (n > 0 && bytesRead + n >= Times(wanted, width)) then
           Holding(carry + (bytesRead + n) / width)
         else if n == 0 && |events| > 1 && events[1].Interrupts? then Resting
         else Gathering(wanted, bytesRead + n)
  {
  }

  /** The minimum fits into the buffer and something is released. */
  predicate Prudent(schedule: seq<Turn>, capacity: nat) {
    forall t :: t in schedule && t.ReaderTurn? ==> t.countMin <= capacity && t.count > 0
  }

  /** Nothing has happened but begin_reads that ended inside an element. */
  predicate OnlyRagged(before: seq<Mishap>, after: seq<Mishap>, width: nat) {
    && before <= after
    && (forall i :: |before| <= i < |after| ==> after[i] == Ragged)
    && (width == 1 ==> before == after)
  }

  /** No begin_read has ended inside an element. */
  predicate NoneRagged(before: seq<Mishap>, after: seq<Mishap>) {
    before <= after && forall i :: |before| <= i < |after| ==> after[i] != Ragged
  }

  lemma NothingLost(before: seq<Mishap>, after: seq<Mishap>, width: nat)
    requires NoneRagged(before, after)
    ensures OnlyRagged(before, after, width) ==> before == after
  {
    if |before| < |after| { assert after[|before|] != Ragged; }
  }

  /** Which mishaps a turn of the reader rules out. */
  lemma TurnLosses(mishaps: seq<Mishap>, before: Reader, after: Reader, unreleased: nat, taken: nat, n: nat, width: nat)
    requires width > 0
    ensures var start := if before.Gathering? then before.bytesRead else 0;
      var later := mishaps + Loss(before, after, unreleased, start + n, width);
      && (IsMultiple(start, width) && IsMultiple(taken, width) && IsMultiple(taken + n, width) ==>
           NoneRagged(mishaps, later))
      && ((before.Resting? ==> unreleased == 0) && (before.Gathering? && after.Resting? ==> before.bytesRead == 0) ==>
           OnlyRagged(mishaps, later, width))
  {
    var start := if before.Gathering? then before.bytesRead else 0;
    if width == 1 { IsMultipleExact(start + n, 1); }
    if IsMultiple(start, width) && IsMultiple(taken, width) && IsMultiple(taken + n, width) {
      MultiplesAdd(taken + n, taken, width);
      MultiplesAdd(start, n, width);
    }
  }

  lemma WholeAtOnce(events: seq<Event>, width: nat, count: nat)
    requires width > 0 && WholeMoves(events, width) && IsMultiple(count, width)
    ensures IsMultiple(AtOnce(events, count), width)
  {
  }

  lemma WholeWrite(events: seq<Event>, width: nat, sent: nat, pending: nat, count: nat)
    requires width > 0
    ensures IsMultiple(Times(count, width), width)
    ensures WholeMoves(events, width) && IsMultiple(sent, width) && IsMultiple(pending, width) ==>
      var n := AtOnce(events, pending); IsMultiple(sent + n, width) && IsMultiple(pending - n, width)
  {
    TimesIsMultiple(count, width);
    if WholeMoves(events, width) && IsMultiple(sent, width) && IsMultiple(pending, width) {
      WholeAtOnce(events, width, pending);
      MultiplesAdd(sent, AtOnce(events, pending), width);
      MultiplesAdd(pending, AtOnce(events, pending), width);
    }
  }

  lemma WholeRead(events: seq<Event>, width: nat, capacity: nat, carry: nat, bytesRead: nat, available: nat, taken: nat)
    requires width > 0 && WholeMoves(events, width) && Times(carry, width) + bytesRead <= Times(capacity, width)
    requires IsMultiple(bytesRead, width) && IsMultiple(taken, width) && IsMultiple(taken + available, width)
    ensures var n := Arriving(events, Times(capacity, width) - (Times(carry, width) + bytesRead), available);
      IsMultiple(bytesRead + n, width) && IsMultiple(taken + n, width)
  {
    hide Times, IsMultiple;
    TimesIsMultiple(capacity, width);
    TimesIsMultiple(carry, width);
    MultiplesAdd(Times(carry, width), bytesRead, width);
    MultiplesAdd(Times(capacity, width), Times(carry, width) + bytesRead, width);
    MultiplesAdd(taken + available, taken, width);
    var space := Times(capacity, width) - (Times(carry, width) + bytesRead);
    WholeAtOnce(events, width, Min(space, available));
    MultiplesAdd(bytesRead, Arriving(events, space, available), width);
    MultiplesAdd(taken, Arriving(events, space, available), width);
  }

  class FileStream {
    const output: FileOutputQueues.FileOutputQueue
    const input: FileInputQueues.FileInputQueue
    var writer: Writer
    var reader: Reader
    ghost var mishaps: seq<Mishap>

    ghost predicate Wired()
      reads this, output, input, output.file, input.file
    {
      && output.file == input.file && output.buff != input.buff
      && output.Valid() && input.Valid()
    }

    /** Where the reader is agrees with the fields of its queue. */
    ghost predicate Reading()
      reads this, input, input.file
    {
      && input.Valid()
      && match reader
         case Resting => true
         case Gathering(wanted, bytesRead) =>
           && Times(input.carry, input.width) + bytesRead <= input.buff.Length
           && (bytesRead == 0 || bytesRead < Times(wanted, input.width))
           && (mishaps == [] ==> input.size == input.carry)
         case Holding(count) => count <= input.size && (count == 0 ==> input.size == 0)
    }

    /** What the reader has read and not released. */
    ghost function Held(): seq<Byte>
      requires Reading()
      reads this, input, input.buff, input.file
    {
      if reader.Gathering? then input.buff[..Times(input.carry, input.width) + reader.bytesRead] else input.Buffered()
    }

    /** Without mishaps, everything read was consumed or is still held, in order. */
    ghost predicate Intact()
      requires Reading()
      reads this, input, input.buff, input.file
    {
      mishaps == [] ==> input.file.sent[..input.file.taken] == input.consumed + Held()
    }

    ghost predicate Valid()
      reads this, output, input, output.file, input.file, output.buff, input.buff
    {
      && Wired() && output.Conserves() && (writer.Granted? ==> output.pending == 0)
      && Reading() && Intact()
    }

    /** The bytes that were written and have not been read yet. */
    ghost function Underway(): seq<Byte>
      requires input.file.Valid()
      reads this, input, input.file
    {
      input.file.sent[input.file.taken..]
    }

    constructor (output: FileOutputQueues.FileOutputQueue, input: FileInputQueues.FileInputQueue)
      requires output.file == input.file && output.buff != input.buff
      requires output.Valid() && output.Conserves() && input.Valid() && input.Conserves()
      ensures Valid() && this.output == output && this.input == input
      ensures writer.Idle? && reader.Resting? && mishaps == []
    {
      this.output, this.input := output, input;
      writer, reader, mishaps := Idle, Resting, [];
    }

    /** One write and, if the call is one that waits and bytes are left, one wait. */
    method WriteOnce(wait: bool) returns (r: FileOutputQueues.Outcome)
      requires Wired() && output.Conserves()
      modifies output`writeout, output`pending, output.file`events, output.file`sent
      ensures Wired() && output.Conserves()
      ensures output.file.sent == old(output.file.sent + output.Pending()[..AtOnce(output.file.events, output.pending)])
      ensures Remains(output.file.events, old(output.file.events))
      ensures r.Done? <==> output.pending == 0
      ensures wait ==>
        (r.Error? || r.Interrupted? <==> old(FileOutputQueues.Throws(output.file.events, output.pending)))
      ensures !wait ==> (r.StillWaiting? <==> old(output.pending) > 0 && old(output.file.events) == [])
    {
      hide FileOutputQueues.Throws, MovesAll, FileOutputQueues.EndsFor, AtOnce, Times;
      if wait {
        r := output.FlushRound();
      } else {
        r := output.WriteBuffer();
      }
    }

    /** One write of begin_write. */
    method Flush()
      requires Wired() && output.Conserves() && writer.Flushing?
      modifies this`writer, output`writeout, output`pending, output.file`events, output.file`sent
      ensures Wired() && output.Conserves()
      ensures output.file.sent == old(output.file.sent + output.Pending()[..AtOnce(output.file.events, output.pending)])
      ensures Remains(output.file.events, old(output.file.events))
      ensures writer.Granted? <==> output.pending == 0
      ensures !writer.Granted? ==> writer == old(writer) || writer == Idle
      ensures old(writer).poll ==> writer.Granted? || (writer.Idle? <==> old(output.file.events) != [])
      ensures !old(writer).poll ==>
        (writer.Idle? <==> old(FileOutputQueues.Throws(output.file.events, output.pending)))
    {
      hide FileOutputQueues.Throws, AtOnce, Times, Remains;
      var r := WriteOnce(!writer.poll);
      if r.Done? {
        writer := Granted;
      } else if !r.StillWaiting? && (writer.poll || !r.Blocked?) {
        writer := Idle;
      }
    }

    /** The caller stores elements and calls end_write, which commits them. */
    method CommitBlock(elements: seq<Byte>, count: nat)
      requires Wired() && output.Conserves() && writer.Granted? && output.pending == 0
      requires count <= output.capacity && |elements| == Times(count, output.width)
      modifies this`writer, output`writeout, output`pending, output`committed, output.buff
      ensures Wired() && output.Conserves() && writer.Ending? && output.Pending() == elements
      ensures output.committed == old(output.committed) + elements
    {
      TimesMonotone(count, output.capacity, output.width);
      forall i | 0 <= i < |elements| { output.buff[i] := elements[i]; }
      assert output.buff[..|elements|] == elements;
      assert output.Conserves();
      output.Commit(count);
      writer := Ending;
    }

    /** One write of end_write. */
    method FinishWriting()
      requires Wired() && output.Conserves() && writer.Ending?
      modifies this`writer, output`writeout, output`pending, output.file`events, output.file`sent
      ensures Wired() && output.Conserves()
      ensures output.file.sent == old(output.file.sent + output.Pending()[..AtOnce(output.file.events, output.pending)])
      ensures Remains(output.file.events, old(output.file.events))
      ensures writer == old(writer) || writer == Idle
      ensures output.synchronous ==>
        (writer.Idle? <==> output.pending == 0 || old(FileOutputQueues.Throws(output.file.events, output.pending)))
      ensures !output.synchronous ==> (writer.Idle? <==> old(output.pending) == 0 || old(output.file.events) != [])
    {
      hide FileOutputQueues.Throws, AtOnce, Times, Remains;
      var r := WriteOnce(output.synchronous);
      if !r.StillWaiting? && !(output.synchronous && r.Blocked?) { writer := Idle; }
    }

    /** The next system call of the writing thread, or the commit between two. */
    method TakeWriterTurn(poll: bool, elements: seq<Byte>, count: nat)
      requires Valid() && count <= output.capacity && |elements| == Times(count, output.width)
      modifies this`writer, output, output.buff, output.file`events, output.file`sent
      ensures Valid() && output.file.sent == old(output.file.sent)
        + (if old(writer).Flushing? || old(writer).Ending?
            then old(output.Pending()[..AtOnce(output.file.events, output.pending)]) else [])
      ensures old(writer).Idle? ==> writer == Flushing(poll)
      ensures old(writer).Flushing? ==>
        && (writer.Granted? <==> output.pending == 0) && (!writer.Granted? ==> writer == old(writer) || writer == Idle)
        && (if old(writer).poll then writer.Granted? || (writer.Idle? <==> old(output.file.events) != [])
            else writer.Idle? <==> old(FileOutputQueues.Throws(output.file.events, output.pending)))
      ensures old(writer).Ending? ==>
        && (writer == old(writer) || writer == Idle)
        && (writer.Idle? <==>
              if output.synchronous
                then output.pending == 0 || old(FileOutputQueues.Throws(output.file.events, output.pending))
                else old(output.pending) == 0 || old(output.file.events) != [])
      ensures old(writer).Granted? ==> writer.Ending? && output.Pending() == elements
      ensures output.committed == old(output.committed) + (if old(writer).Granted? then elements else [])
      ensures Remains(output.file.events, old(output.file.events))
    {
      hide Times, FileOutputQueues.Throws;
      ghost var arrived := output.file.sent[..output.file.taken];
      match writer
      case Idle => writer := Flushing(poll);
      case Flushing(_) => Flush();
      case Granted => CommitBlock(elements, count);
      case Ending => FinishWriting();
      assert output.file.sent[..output.file.taken] == arrived;
    }

    /** Nothing is left unreleased, and what the reader waits for fits into the buffer. */
    ghost predicate InOrder()
      reads this, input
    {
      && (!reader.Holding? ==> input.size == input.carry)
      && (reader.Gathering? ==> input.carry + reader.wanted <= input.capacity)
    }

    /** What was written, what was read of it, and what the begin_read in progress has read are whole
        elements. */
    ghost predicate WholeInput()
      reads this, input, input.file
    {
      && input.width > 0 && IsMultiple(|input.file.sent|, input.width) && IsMultiple(input.file.taken, input.width)
      && (reader.Gathering? ==> IsMultiple(reader.bytesRead, input.width))
    }

    /** So is what is pending, of the same width. */
    ghost predicate Whole()
      reads this, output, input, input.file
    {
      WholeInput() && output.width == input.width && IsMultiple(output.pending, input.width)
    }

    /** Calls begin_read. */
    method StartReading(countMin: nat)
      requires Reading() && Intact() && reader.Resting?
      modifies this`reader, this`mishaps
      ensures Reading() && Intact() && !reader.Resting?
      ensures reader == if input.HasEnough(countMin) then Holding(input.carry)
                        else Gathering(FileInputQueues.Wanted(input.carry, countMin), 0)
      ensures reader.Gathering? ==> input.carry + reader.wanted == countMin
      ensures reader.Holding? ==> reader.count >= countMin
      ensures mishaps == old(mishaps) + Loss(old(reader), reader, input.size - input.carry, 0, input.width)
      ensures old(InOrder()) && countMin <= input.capacity ==> InOrder()
    {
      TimesMonotone(input.carry, input.capacity, input.width);
      if input.HasEnough(countMin) {
        reader := Holding(input.carry);
      } else {
        if input.size > input.carry { mishaps := mishaps + [ReadOver]; }
        reader := Gathering(FileInputQueues.Wanted(input.carry, countMin), 0);
      }
    }

    /** begin_read has read `total` bytes behind the carried ones; without mishaps these are what
        is held. */
    ghost predicate HasRead(total: nat)
      reads this, input, input.buff, input.file
    {
      && input.Valid() && Times(input.carry, input.width) + total <= input.buff.Length
      && (mishaps == [] ==>
        && input.size == input.carry
        && input.file.sent[..input.file.taken]
           == input.consumed + input.buff[..Times(input.carry, input.width) + total])
    }

    /** begin_read returns or throws. */
    method FinishReading(g: FileInputQueues.Gathered, wanted: nat, total: nat)
      requires HasRead(total) && reader == Gathering(wanted, total) && !g.More?
      requires g.Stopped? ==> !g.outcome.Returned? && !g.outcome.EndOfInput?
      requires g.Enough? ==> Times(wanted, input.width) <= g.bytesRead == total
      modifies this`reader, this`mishaps, input`size
      ensures Reading() && Intact() && (if g.Enough? then reader.Holding? else reader.Resting?)
      ensures reader.Holding? ==> reader.count == input.carry + total / input.width >= input.carry + wanted
      ensures mishaps == old(mishaps) + Loss(old(reader), reader, 0, total, input.width)
      ensures old(InOrder()) ==> InOrder()
    {
      var r := input.Settle(g, wanted);
      if r.Returned? {
        WholeOnly(input.carry, input.size, input.width, total);
        if total % input.width != 0 { mishaps := mishaps + [Ragged]; }
        reader := Holding(r.count);
      } else {
        if total > 0 { mishaps := mishaps + [CutShort]; }
        reader := Resting;
      }
    }

    /** One read, behind the carried elements and the `bytesRead` bytes after them. */
    method ReadOnce(wanted: nat, bytesRead: nat)
      returns (g: FileInputQueues.Gathered, total: nat, ghost bytes: seq<Byte>)
      requires HasRead(bytesRead) && (bytesRead == 0 || bytesRead < Times(wanted, input.width))
      modifies input.buff, input.file`events, input.file`taken
      ensures total == bytesRead + |bytes| && HasRead(total)
      ensures input.file.sent[..input.file.taken] == input.file.sent[..old(input.file.taken)] + bytes
      ensures |bytes| == Arriving(old(input.file.events),
          input.buff.Length - (Times(input.carry, input.width) + bytesRead), |input.file.sent| - old(input.file.taken))
      ensures Remains(input.file.events, old(input.file.events))
      ensures g == FileInputQueues.RoundOf(old(input.file.events),
          input.buff.Length - (Times(input.carry, input.width) + bytesRead),
          |input.file.sent| - old(input.file.taken), bytesRead, Times(wanted, input.width))
      ensures g.More? ==> g.bytesRead == total
      ensures g.Enough? ==> Times(wanted, input.width) <= g.bytesRead == total
      ensures !g.Enough? ==> total == 0 || total < Times(wanted, input.width)
      ensures g.EndReached? || g.Stopped? ==> total == bytesRead
      ensures g.Stopped? ==> !g.outcome.Returned? && !g.outcome.EndOfInput?
      ensures Smooth(old(input.file.events)) && g.Stopped? ==> g.outcome.StillWaiting?
      ensures Smooth(old(input.file.events)) && g.EndReached? ==>
        input.carry + wanted > input.capacity || bytesRead == 0
    {
      hide FileInputQueues.RoundOf, Times, IsMultiple;
      FileInputQueues.WantedFits(input.carry, input.capacity, input.width, wanted);
      var start := Times(input.carry, input.width);
      ghost var held := input.buff[..start + bytesRead];
      g, bytes := input.GatherRound(start, bytesRead, Times(wanted, input.width));
      Associative(input.consumed, held, bytes);
      total := if g.More? || g.Enough? then g.bytesRead else bytesRead;
    }

    /** How the next read of the begin_read in progress will end. */
    ghost function NextRound(): FileInputQueues.Gathered
      requires Reading() && reader.Gathering?
      reads this, input, input.file
    {
      FileInputQueues.RoundOf(input.file.events,
        input.buff.Length - (Times(input.carry, input.width) + reader.bytesRead),
        |input.file.sent| - input.file.taken, reader.bytesRead, Times(reader.wanted, input.width))
    }

    /** One read of a begin_read. */
    method ContinueReading() returns (ghost bytes: seq<Byte>)
      requires Reading() && Intact() && reader.Gathering?
      modifies this`reader, this`mishaps, input`size, input.buff, input.file`events, input.file`taken
      ensures Reading() && Intact()
      ensures input.file.sent[..input.file.taken] == input.file.sent[..old(input.file.taken)] + bytes
      ensures |bytes| == Arriving(old(input.file.events),
          input.buff.Length - old(Times(input.carry, input.width) + reader.bytesRead),
          |input.file.sent| - old(input.file.taken))
      ensures mishaps == old(mishaps) + Loss(old(reader), reader, 0, old(reader).bytesRead + |bytes|, input.width)
      ensures reader
           == AfterRead(old(reader).wanted, old(reader).bytesRead, old(NextRound()), input.carry, input.width)
      ensures reader.Gathering? ==> reader.bytesRead == old(reader).bytesRead + |bytes|
      ensures reader.Holding? ==> reader.count >= input.carry + old(reader).wanted
      ensures Remains(input.file.events, old(input.file.events))
      ensures old(InOrder()) ==> InOrder()
      ensures old(InOrder()) && Smooth(old(input.file.events)) && reader.Resting? ==> old(reader).bytesRead == 0
    {
      hide FileInputQueues.RoundOf, Times, IsMultiple;
      var wanted := reader.wanted;
      var g, total;
      g, total, bytes := ReadOnce(wanted, reader.bytesRead);
      reader := Gathering(wanted, total);
      if !g.More? && !(g.Stopped? && g.outcome.StillWaiting?) {
        FinishReading(g, wanted, total);
      }
    }

    /** Calls end_read. */
    method StopReading(count: nat)
      requires Reading() && Intact() && reader.Holding?
      modifies this`reader, input`carry, input`size, input`consumed, input.buff
      ensures Reading() && Intact() && reader.Resting?
      ensures old(input.consumed) <= input.consumed
      ensures |input.consumed| == |old(input.consumed)| + Times(Min(count, old(reader).count), input.width)
      ensures count > 0 ==> InOrder()
    {
      assert mishaps == [] ==> input.Conserves();
      input.EndRead(Min(count, reader.count));
      reader := Resting;
    }

    /** The next step of the reading thread: a call of begin_read, one of its reads, or end_read. */
    method TakeReaderTurn(countMin: nat, count: nat) returns (ghost bytes: seq<Byte>)
      requires Valid()
      modifies this`reader, this`mishaps, input, input.buff, input.file`events, input.file`taken
      ensures Valid() && old(input.consumed) <= input.consumed
      ensures match old(reader)
        case Resting =>
          && bytes == []
          && reader == (if input.HasEnough(countMin) then Holding(input.carry)
                        else Gathering(FileInputQueues.Wanted(input.carry, countMin), 0))
        case Gathering(wanted, bytesRead) =>
          && reader == AfterRead(wanted, bytesRead, old(NextRound()), input.carry, input.width)
          && (reader.Gathering? ==> reader.bytesRead == bytesRead + |bytes|)
          && (reader.Holding? ==> reader.count >= input.carry + wanted)
        case Holding(held) =>
          && reader.Resting? && bytes == []
          && |input.consumed| == |old(input.consumed)| + Times(Min(count, held), input.width)
      ensures input.file.sent[..input.file.taken] == input.file.sent[..old(input.file.taken)] + bytes
      ensures old(reader).Gathering? ==> |bytes| == Arriving(old(input.file.events),
          input.buff.Length - old(Times(input.carry, input.width) + reader.bytesRead),
          |input.file.sent| - old(input.file.taken))
      ensures mishaps == old(mishaps) + Loss(old(reader), reader, old(input.size - input.carry),
          (if old(reader).Gathering? then old(reader).bytesRead else 0) + |bytes|, input.width)
      ensures Remains(input.file.events, old(input.file.events))
      ensures old(InOrder()) && countMin <= input.capacity && count > 0 ==> InOrder()
      ensures old(InOrder()) && Smooth(old(input.file.events)) && old(reader).Gathering? && reader.Resting? ==>
        old(reader).bytesRead == 0
    {
      hide FileInputQueues.RoundOf;
      bytes := [];
      match reader
      case Resting => StartReading(countMin);
      case Gathering(_, _) => bytes := ContinueReading();
      case Holding(_) => StopReading(count);
    }

    /** What has been committed and not consumed: held by the reader, in the pipe, or pending. */
    ghost function Pipeline(): seq<Byte>
      requires Wired() && Reading()
      reads this, output, input, input.file, input.buff, output.buff
    {
      Held() + (Underway() + output.Pending())
    }

    /** One turn of the writing thread. */
    method TakeWriterTurnWhole(t: Turn)
      requires Valid() && t.WriterTurn?
      requires t.count <= output.capacity && |t.elements| == Times(t.count, output.width)
      modifies this`writer, output, output.buff, output.file`events, output.file`sent
      ensures Valid() && Remains(output.file.events, old(output.file.events))
      ensures old(Whole()) && WholeMoves(old(output.file.events), input.width) ==> Whole()
    {
      ghost var events, sent, pending := output.file.events, |output.file.sent|, output.pending;
      TakeWriterTurn(t.poll, t.elements, t.count);
      if output.width == input.width {
        WholeWrite(events, input.width, sent, pending, t.count);
      }
    }

    /** The reader's turn reads whole elements if there are only whole ones. */
    method TakeReaderTurnWhole(countMin: nat, count: nat)
      requires Valid()
      modifies this`reader, this`mishaps, input, input.buff, input.file`events, input.file`taken
      ensures Valid() && Remains(input.file.events, old(input.file.events)) && old(input.file.taken) <= input.file.taken
      ensures mishaps == old(mishaps) + Loss(old(reader), reader, old(input.size - input.carry),
          (if old(reader).Gathering? then old(reader).bytesRead else 0) + (input.file.taken - old(input.file.taken)),
          input.width)
      ensures old(InOrder()) && countMin <= input.capacity && count > 0 ==> InOrder()
      ensures old(InOrder()) && Smooth(old(input.file.events)) && old(reader).Gathering? && reader.Resting? ==>
        old(reader).bytesRead == 0
      ensures old(WholeInput()) && WholeMoves(old(input.file.events), input.width) ==> WholeInput()
    {
      hide FileInputQueues.RoundOf, AfterRead, Times, Loss;
      if WholeInput() && WholeMoves(input.file.events, input.width) && reader.Gathering? {
        WholeRead(input.file.events, input.width, input.capacity, input.carry, reader.bytesRead,
          |input.file.sent| - input.file.taken, input.file.taken);
      }
      ghost var bytes := TakeReaderTurn(countMin, count);
      assert input.file.taken == old(input.file.taken) + |bytes|;
    }

    /** One turn of either thread. */
    method TakeTurn(t: Turn)
      requires Valid()
      requires t.WriterTurn? ==> t.count <= output.capacity && |t.elements| == Times(t.count, output.width)
      modifies this, output, output.buff, input, input.buff, input.file
      ensures Valid() && old(mishaps) <= mishaps && Remains(input.file.events, old(input.file.events))
      ensures old(Whole()) && WholeMoves(old(input.file.events), input.width) ==>
        Whole() && NoneRagged(old(mishaps), mishaps)
      ensures Smooth(old(input.file.events)) && Prudent([t], input.capacity) && old(InOrder()) ==>
        InOrder() && OnlyRagged(old(mishaps), mishaps, input.width)
    {
      assert IsMultiple(0, input.width);
      hide FileInputQueues.RoundOf, AfterRead, Times, IsMultiple, Loss;
      if t.WriterTurn? {
        TakeWriterTurnWhole(t);
      } else {
        assert Prudent([t], input.capacity) ==> t in [t] && t.countMin <= input.capacity && t.count > 0;
        ghost var before, unreleased, taken := reader, input.size - input.carry, input.file.taken;
        TakeReaderTurnWhole(t.countMin, t.count);
        TurnLosses(old(mishaps), before, reader, unreleased, taken, input.file.taken - taken, input.width);
      }
    }

    /** Any schedule of the two threads. At every moment committed bytes are, in order: consumed,
        held, in the pipe, and pending, unless a mishap has lost some. If every call moves whole
        elements, no begin_read ends inside one. If the operating system reports no error, end or
        interrupt and the reader is prudent, no mishap can occur but a begin_read that ends inside an
        element; with one-byte elements, none. */
    method Run(schedule: seq<Turn>)
      requires Valid()
      requires forall t :: t in schedule && t.WriterTurn? ==>
                 t.count <= output.capacity && |t.elements| == Times(t.count, output.width)
      modifies this, output, output.buff, input, input.buff, input.file
      ensures Valid() && old(mishaps) <= mishaps
      ensures mishaps == [] ==> input.consumed <= output.committed && output.committed == input.consumed + Pipeline()
      ensures old(Whole()) && WholeMoves(old(input.file.events), input.width) ==> NoneRagged(old(mishaps), mishaps)
      ensures Smooth(old(input.file.events)) && Prudent(schedule, input.capacity) && old(InOrder()) ==>
        && InOrder() && OnlyRagged(old(mishaps), mishaps, input.width)
        && (old(Whole()) && WholeMoves(old(input.file.events), input.width) ==> mishaps == old(mishaps))
    {
      ghost var events := input.file.events;
      for i := 0 to |schedule|
        invariant Valid() && old(mishaps) <= mishaps && Remains(input.file.events, events)
        invariant old(Whole()) && WholeMoves(events, input.width) ==> Whole() && NoneRagged(old(mishaps), mishaps)
        invariant Smooth(events) && Prudent(schedule, input.capacity) && old(InOrder()) ==>
          InOrder() && OnlyRagged(old(mishaps), mishaps, input.width)
      {
        RemainsSo(input.file.events, events, input.width);
        assert schedule[i] in schedule;
        TakeTurn(schedule[i]);
      }
      if old(Whole()) && WholeMoves(events, input.width) { NothingLost(old(mishaps), mishaps, input.width); }
      if mishaps == [] { EndToEnd(); }
    }

    lemma EndToEnd()
      requires Valid() && mishaps == []
      ensures input.consumed <= output.committed && output.committed == input.consumed + Pipeline()
    {
      var sent, taken := input.file.sent, input.file.taken;
      assert sent == sent[..taken] + sent[taken..];
    }
  }

  lemma WholeOnly(carry: nat, size: nat, width: nat, total: nat)
    requires width > 0 && Times(size, width) <= Times(carry, width) + total < Times(size, width) + width
    ensures Times(size, width) == Times(carry, width) + total <==> IsMultiple(total, width)
    ensures IsMultiple(total, width) <==> total % width == 0
  {
    FileInputQueues.WholeElementsOnly(carry, size, width, total);
    IsMultipleExact(total, width);
  }
}
