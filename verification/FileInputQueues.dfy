/** FileInputQueue: elements read from a file descriptor into a buffer. Elements that were read but
    not consumed are carried over to the start of the buffer. */
module FileInputQueues {
  import opened Bytes
  import opened BytePipes
  import opened Multiples
  import opened Sequences

  datatype Outcome = Returned(count: nat) | EndOfInput(asked: nat) | Interrupted | Error | StillWaiting

  /** How a round of the loop of begin_read ended; More means that it goes round again. */
  datatype Gathered = More(bytesRead: nat) | Enough(bytesRead: nat) | EndReached(asked: nat) | Stopped(outcome: Outcome)

  /** How a round ends whose read found nothing; `rest` is the script after that read. */
  function NothingThere(rest: seq<Event>, bytesRead: nat, bytesToRead: nat): Gathered {
    if bytesToRead == 0 then Enough(bytesRead)
    else if rest == [] then Stopped(StillWaiting)
    else if rest[0].Interrupts? then Stopped(Outcome.Interrupted)
    else More(bytesRead)
  }

  /** How a round ends that starts after `bytesRead` bytes, with room for `space` more in the buffer
      and `available` more in the pipe. */
  function RoundOf(events: seq<Event>, space: nat, available: nat, bytesRead: nat, bytesToRead: nat): Gathered {
    match ResultOfRead(events, space, available)
    case NeverReturns => Stopped(StillWaiting)
    case Failed => Stopped(Error)
    case Again => NothingThere(events[1..], bytesRead, bytesToRead)
    case Moved(n) =>
      if n == 0 then EndReached(space)
      else if bytesRead + n >= bytesToRead then Enough(bytesRead + n)
      else More(bytesRead + n)
  }

  /** What a round can end in, by what it has read. */
  predicate RoundEnds(g: Gathered, bytesRead: nat, n: nat, bytesToRead: nat, space: nat) {
    match g
    case More(total) => total == bytesRead + n && (total == 0 || total < bytesToRead)
    case Enough(total) => total == bytesRead + n && total >= bytesToRead
    case EndReached(asked) => asked == space && n == 0
    case Stopped(outcome) => n == 0 && !outcome.Returned? && !outcome.EndOfInput?
  }

  lemma RoundFacts(events: seq<Event>, space: nat, available: nat, bytesRead: nat, bytesToRead: nat)
    requires bytesRead == 0 || bytesRead < bytesToRead
    ensures var g := RoundOf(events, space, available, bytesRead, bytesToRead);
      && RoundEnds(g, bytesRead, Arriving(events, space, available), bytesToRead, space)
      && (g.More? ==> events != [])
      && (Smooth(events) && g.EndReached? ==> g.asked == 0)
      && (Smooth(events) && g.Stopped? ==> g.outcome.StillWaiting?)
  {
  }

  /** The script after a round; an interrupt was taken from it as well. */
  function AfterRound(events: seq<Event>, g: Gathered): seq<Event> {
    if g == Stopped(Outcome.Interrupted) then Later(Later(events)) else Later(events)
  }

  /** How the loop of begin_read ends, how many bytes it has read in all, and the script after it. */
  datatype LoopEnd = LoopEnd(how: Gathered, total: nat, rest: seq<Event>)

  function LoopOf(events: seq<Event>, space: nat, available: nat, bytesRead: nat, bytesToRead: nat): (end: LoopEnd)
    requires bytesRead == 0 || bytesRead < bytesToRead
    ensures !end.how.More? && bytesRead <= end.total <= bytesRead + space
    ensures end.how.Enough? ==> end.total >= bytesToRead
    ensures |end.rest| <= |events| && (events != [] ==> |end.rest| < |events|)
    decreases |events|
  {
    RoundFacts(events, space, available, bytesRead, bytesToRead);
    var n, g := Arriving(events, space, available), RoundOf(events, space, available, bytesRead, bytesToRead);
    if g.More? then LoopOf(AfterRound(events, g), space - n, available - n, bytesRead + n, bytesToRead)
    else LoopEnd(g, bytesRead + n, AfterRound(events, g))
  }

  /** The loop, at this point, will end in `end`. */
  ghost predicate EndsIn(events: seq<Event>, space: nat, available: nat, bytesRead: nat, bytesToRead: nat,
      end: LoopEnd)
  {
    (bytesRead == 0 || bytesRead < bytesToRead) && LoopOf(events, space, available, bytesRead, bytesToRead) == end
  }

  /** The loop goes on from where a round has ended. */
  lemma LoopStep(events: seq<Event>, space: nat, available: nat, bytesRead: nat, bytesToRead: nat,
      g: Gathered, n: nat, rest: seq<Event>, end: LoopEnd)
    requires EndsIn(events, space, available, bytesRead, bytesToRead, end)
    requires n == Arriving(events, space, available) && rest == AfterRound(events, g)
    requires g == RoundOf(events, space, available, bytesRead, bytesToRead)
    ensures if g.More? then EndsIn(rest, space - n, available - n, bytesRead + n, bytesToRead, end)
            else end == LoopEnd(g, bytesRead + n, rest)
  {
    RoundFacts(events, space, available, bytesRead, bytesToRead);
  }

  /** What the source makes of the count it was given when elements are carried over. */
  function Wanted(carry: nat, countMin: nat): nat
    requires carry < countMin || carry == 0
  {
    if carry > 0 then countMin - carry else countMin
  }

  /** How a call of begin_read ends that has to read. */
  function CallOf(width: nat, capacity: nat, carry: nat, countMin: nat, events: seq<Event>, available: nat): LoopEnd
    requires carry <= capacity && (carry < countMin || carry == 0)
  {
    LoopOf(events, Times(capacity - carry, width), available, 0, Times(Wanted(carry, countMin), width))
  }

  lemma RoundMoves(events: seq<Event>, space: nat, available: nat, bytesRead: nat, bytesToRead: nat)
    requires bytesRead < bytesToRead <= bytesRead + Min(space, available)
    requires MovesAll(events, bytesToRead - bytesRead)
    ensures events != []
    ensures var g, n := RoundOf(events, space, available, bytesRead, bytesToRead), Arriving(events, space, available);
      if g.More? then bytesRead + n < bytesToRead && MovesAll(AfterRound(events, g), bytesToRead - (bytesRead + n))
      else g.Enough?
  {
  }

  /** The loop reads on until it has enough, whatever the operating system would do after that. */
  lemma {:induction false} EnoughArrives(events: seq<Event>, space: nat, available: nat, bytesRead: nat,
      bytesToRead: nat)
    requires bytesRead < bytesToRead <= bytesRead + Min(space, available)
    requires MovesAll(events, bytesToRead - bytesRead)
    ensures LoopOf(events, space, available, bytesRead, bytesToRead).how.Enough?
    decreases |events|
  {
    hide RoundOf, MovesAll, AtOnce;
    RoundMoves(events, space, available, bytesRead, bytesToRead);
    var g, n := RoundOf(events, space, available, bytesRead, bytesToRead), Arriving(events, space, available);
    if g.More? {
      EnoughArrives(AfterRound(events, g), space - n, available - n, bytesRead + n, bytesToRead);
    }
  }

  /** Why a call ends that returns nothing: the script has run out, or its last call failed, was
      interrupted, or met the end of the file or a full buffer. */
  predicate EndsFor(before: seq<Event>, events: seq<Event>, r: Outcome) {
    match r
    case Returned(_) => true
    case StillWaiting => events == []
    case Error => |events| < |before| && LastTaken(before, events).Fails?
    case Interrupted => |events| < |before| && LastTaken(before, events).Interrupts?
    case EndOfInput(asked) => asked == 0 || (|events| < |before| && LastTaken(before, events).HangsUp?)
  }

  /** What a begin_read makes of the end of its loop. */
  predicate Settles(g: Gathered, r: Outcome) {
    match g
    case More(_) => false
    case Enough(_) => r.Returned?
    case EndReached(asked) => r == EndOfInput(asked)
    case Stopped(outcome) => r == outcome && !r.Returned? && !r.EndOfInput?
  }

  predicate StopsFor(before: seq<Event>, end: LoopEnd) {
    match end.how
    case Stopped(outcome) => !outcome.Returned? && !outcome.EndOfInput? && EndsFor(before, end.rest, outcome)
    case EndReached(asked) => EndsFor(before, end.rest, EndOfInput(asked))
    case _ => true
  }

  lemma RoundStops(events: seq<Event>, space: nat, available: nat, bytesRead: nat, bytesToRead: nat, total: nat)
    ensures var g := RoundOf(events, space, available, bytesRead, bytesToRead);
      Remains(AfterRound(events, g), events) && StopsFor(events, LoopEnd(g, total, AfterRound(events, g)))
  {
    hide Arriving;
    LaterRemains(events);
  }

  lemma StopsLater(before: seq<Event>, middle: seq<Event>, end: LoopEnd)
    requires Remains(middle, before) && Remains(end.rest, middle) && StopsFor(middle, end)
    ensures Remains(end.rest, before) && StopsFor(before, end)
  {
  }

  lemma {:induction false} LoopStops(events: seq<Event>, space: nat, available: nat, bytesRead: nat, bytesToRead: nat)
    requires bytesRead == 0 || bytesRead < bytesToRead
    ensures var end := LoopOf(events, space, available, bytesRead, bytesToRead);
      Remains(end.rest, events) && StopsFor(events, end)
    decreases |events|
  {
    hide RoundOf, Remains, StopsFor, Arriving, RoundEnds, Smooth;
    RoundFacts(events, space, available, bytesRead, bytesToRead);
    var n, g := Arriving(events, space, available), RoundOf(events, space, available, bytesRead, bytesToRead);
    RoundStops(events, space, available, bytesRead, bytesToRead, bytesRead + n);
    if g.More? {
      LoopStops(AfterRound(events, g), space - n, available - n, bytesRead + n, bytesToRead);
      StopsLater(events, AfterRound(events, g), LoopOf(events, space, available, bytesRead, bytesToRead));
    }
  }

  /** What a call comes to that only polls an empty buffer: one read, and whatever that delivers. */
  predicate OnePoll(events: seq<Event>, space: nat, available: nat, width: nat, r: Outcome)
    requires width > 0
  {
    if events == [] then r.StillWaiting?
    else
      match events[0]
      case Moves(most) => if space == 0 then r.EndOfInput? else r == Returned(Min(most, Min(space, available)) / width)
      case WouldBlock => r == Returned(0)
      case Interrupts => r == Returned(0)
      case HangsUp => r.EndOfInput?
      case Fails => r.Error?
  }

  lemma PollIs(events: seq<Event>, space: nat, available: nat, width: nat, r: Outcome)
    requires width > 0 && Settles(LoopOf(events, space, available, 0, 0).how, r)
    requires r.Returned? ==> r.count == LoopOf(events, space, available, 0, 0).total / width
    ensures LoopOf(events, space, available, 0, 0).rest == Later(events)
    ensures OnePoll(events, space, available, width, r)
  {
  }

  /** What is missing to `countMin` elements is `available`, and the calls move it. */
  predicate Supplied(width: nat, carry: nat, countMin: nat, events: seq<Event>, available: nat) {
    && carry < countMin
    && available >= Times(countMin - carry, width)
    && MovesAll(events, Times(countMin - carry, width))
  }

  lemma CallReturns(width: nat, capacity: nat, carry: nat, countMin: nat, events: seq<Event>, available: nat)
    requires width > 0 && countMin <= capacity && Supplied(width, carry, countMin, events, available)
    ensures CallOf(width, capacity, carry, countMin, events, available).how.Enough?
  {
    hide LoopOf, MovesAll;
    TimesMonotone(countMin - carry, capacity - carry, width);
    TimesMonotone(1, countMin - carry, width);
    EnoughArrives(events, Times(capacity - carry, width), available, 0, Times(countMin - carry, width));
  }

  lemma CallStops(width: nat, capacity: nat, carry: nat, countMin: nat, events: seq<Event>, available: nat, r: Outcome)
    requires carry <= capacity && (carry < countMin || carry == 0)
    requires Settles(CallOf(width, capacity, carry, countMin, events, available).how, r)
    ensures r.Returned? || EndsFor(events, CallOf(width, capacity, carry, countMin, events, available).rest, r)
  {
    hide LoopOf, Times, EndsFor, Remains;
    LoopStops(events, Times(capacity - carry, width), available, 0, Times(Wanted(carry, countMin), width));
  }

  lemma CallPolls(width: nat, capacity: nat, events: seq<Event>, available: nat, r: Outcome)
    requires width > 0
    requires var call := CallOf(width, capacity, 0, 0, events, available);
      Settles(call.how, r) && (r.Returned? ==> r.count == call.total / width)
    ensures CallOf(width, capacity, 0, 0, events, available).rest == Later(events)
    ensures OnePoll(events, Times(capacity, width), available, width, r)
  {
    hide LoopOf, OnePoll;
    PollIs(events, Times(capacity, width), available, width, r);
  }

  class FileInputQueue {
    const width: nat      // sizeof(T)
    const capacity: nat   // in elements
    const buff: array<Byte>
    const file: BytePipe
    var carry: nat        // m_carry
    var size: nat         // m_size
    /** The bytes of all elements released by end_read so far. */
    ghost var consumed: seq<Byte>

    ghost predicate Valid()
      reads this, file
    {
      && width > 0 && buff.Length == Times(capacity, width) && file.Valid()
      && carry <= size <= capacity
      && Times(size, width) <= buff.Length
    }

    ghost function Buffered(): seq<Byte>
      requires Valid()
      reads this, buff, file
    {
      buff[..Times(size, width)]
    }

    /** Nothing lost, nothing repeated: consumed and buffered bytes are the bytes read. */
    ghost predicate Conserves()
      requires Valid()
      reads this, buff, file
    {
      file.sent[..file.taken] == consumed + Buffered()
    }

    constructor (file: BytePipe, buffer: array<Byte>, capacity: nat, width: nat)
      requires width > 0 && buffer.Length == Times(capacity, width) && file.Valid()
      ensures Valid() && this.file == file && buff == buffer && this.capacity == capacity && this.width == width
      ensures carry == size == 0 && consumed == file.sent[..file.taken] && Conserves()
    {
      this.file, buff, this.capacity, this.width := file, buffer, capacity, width;
      carry, size, consumed := 0, 0, file.sent[..file.taken];
    }

    /** One read(2), to `position` in the buffer. */
    method ReadInto(position: nat) returns (r: IoResult, ghost bytes: seq<Byte>)
      requires file.Valid() && position <= buff.Length
      modifies buff, file`events, file`taken
      ensures file.Valid() && file.sent[..file.taken] == file.sent[..old(file.taken)] + bytes
      ensures file.events == Later(old(file.events))
      ensures r == ResultOfRead(old(file.events), buff.Length - position, |file.sent| - old(file.taken))
      ensures |bytes| == Arriving(old(file.events), buff.Length - position, |file.sent| - old(file.taken))
      ensures buff[..position + |bytes|] == old(buff[..position]) + bytes
    {
      var data;
      r, data := file.Read(buff.Length - position);
      bytes := data;
      forall i | 0 <= i < |data| { buff[position + i] := data[i]; }
    }

    /** The loop of begin_read, after `bytesRead` bytes, will end in `end`. */
    ghost predicate WillEnd(start: nat, bytesRead: nat, bytesToRead: nat, end: LoopEnd)
      requires file.Valid() && start + bytesRead <= buff.Length
      reads file
    {
      EndsIn(file.events, buff.Length - (start + bytesRead), |file.sent| - file.taken, bytesRead, bytesToRead, end)
    }

    /** Nothing was there to read. */
    method WaitUnlessPolling(bytesRead: nat, bytesToRead: nat) returns (r: Gathered)
      modifies file`events
      ensures r == NothingThere(old(file.events), bytesRead, bytesToRead)
      ensures file.events == if r == Stopped(Outcome.Interrupted) then Later(old(file.events)) else old(file.events)
    {
      if bytesToRead == 0 { return Enough(bytesRead); }
      var w := file.Wait();
      match w
      case Ready => return More(bytesRead);
      case Interrupted => return Stopped(Outcome.Interrupted);
      case Waiting => return Stopped(StillWaiting);
    }

    /** One round of the loop of begin_read: a read behind the `bytesRead` bytes that the call has
        read so far and, if nothing was there, a wait unless it only polls. */
    method ReadOrWait(start: nat, bytesRead: nat, bytesToRead: nat) returns (r: Gathered, ghost bytes: seq<Byte>)
      requires file.Valid() && start + bytesRead <= buff.Length
      modifies buff, file`events, file`taken
      ensures file.Valid() && file.sent[..file.taken] == file.sent[..old(file.taken)] + bytes
      ensures |bytes| == Arriving(old(file.events), buff.Length - (start + bytesRead), |file.sent| - old(file.taken))
      ensures buff[..start + bytesRead + |bytes|] == old(buff[..start + bytesRead]) + bytes
      ensures r == RoundOf(old(file.events), buff.Length - (start + bytesRead), |file.sent| - old(file.taken),
          bytesRead, bytesToRead)
      ensures file.events == AfterRound(old(file.events), r)
    {
      var result;
      result, bytes := ReadInto(start + bytesRead);
      match result
      case NeverReturns => r := Stopped(StillWaiting);
      case Failed => r := Stopped(Error);
      case Again => r := WaitUnlessPolling(bytesRead, bytesToRead);
      case Moved(count) =>
        var total := bytesRead + count;
        r := if count == 0 then EndReached(buff.Length - (start + bytesRead))
             else if total >= bytesToRead then Enough(total) else More(total);
    }

    /** ReadOrWait, and what can come of it. */
    method GatherRound(start: nat, bytesRead: nat, bytesToRead: nat) returns (r: Gathered, ghost bytes: seq<Byte>)
      requires file.Valid() && start + bytesRead <= buff.Length && (bytesRead == 0 || bytesRead < bytesToRead)
      modifies buff, file`events, file`taken
      ensures file.Valid() && file.sent[..file.taken] == file.sent[..old(file.taken)] + bytes
      ensures file.taken == old(file.taken) + |bytes|
      ensures |bytes| == Arriving(old(file.events), buff.Length - (start + bytesRead), |file.sent| - old(file.taken))
      ensures buff[..start + bytesRead + |bytes|] == old(buff[..start + bytesRead]) + bytes
      ensures r == RoundOf(old(file.events), buff.Length - (start + bytesRead), |file.sent| - old(file.taken),
          bytesRead, bytesToRead)
      ensures RoundEnds(r, bytesRead, |bytes|, bytesToRead, buff.Length - (start + bytesRead))
      ensures file.events == AfterRound(old(file.events), r)
      ensures |file.events| <= |old(file.events)| && (r.More? ==> |file.events| < |old(file.events)|)
      ensures Remains(file.events, old(file.events))
      ensures Smooth(old(file.events)) && r.EndReached? ==> r.asked == 0
      ensures Smooth(old(file.events)) && r.Stopped? ==> r.outcome.StillWaiting?
    {
      hide RoundOf;
      RoundFacts(file.events, buff.Length - (start + bytesRead), |file.sent| - file.taken, bytesRead, bytesToRead);
      r, bytes := ReadOrWait(start, bytesRead, bytesToRead);
    }

    /** What the loop of begin_read has done: it has read `got`, behind what had `arrived` in all and
        behind the `front` of the buffer. */
    ghost predicate HasGot(arrived: seq<Byte>, front: seq<Byte>, got: seq<Byte>)
      reads file, buff
    {
      && file.Valid() && file.sent[..file.taken] == arrived + got
      && |front| + |got| <= buff.Length && buff[..|front| + |got|] == front + got
    }

    /** The bytes of one more round come behind those of the rounds before it. */
    method GatherOnto(start: nat, bytesRead: nat, bytesToRead: nat,
        ghost arrived: seq<Byte>, ghost front: seq<Byte>, ghost got: seq<Byte>, ghost end: LoopEnd)
      returns (r: Gathered, ghost got': seq<Byte>)
      requires HasGot(arrived, front, got) && |front| == start && |got| == bytesRead
      requires WillEnd(start, bytesRead, bytesToRead, end)
      modifies buff, file`events, file`taken
      ensures HasGot(arrived, front, got') && |got'| >= bytesRead
      ensures |file.events| <= |old(file.events)| && (r.More? ==> |file.events| < |old(file.events)|)
      ensures RoundEnds(r, bytesRead, |got'| - bytesRead, bytesToRead, buff.Length - (start + bytesRead))
      ensures if r.More? then WillEnd(start, |got'|, bytesToRead, end) else end == LoopEnd(r, |got'|, file.events)
    {
      hide RoundOf, LoopOf;
      ghost var events, space, available := file.events, buff.Length - (start + bytesRead), |file.sent| - file.taken;
      ghost var bytes;
      r, bytes := GatherRound(start, bytesRead, bytesToRead);
      LoopStep(events, space, available, bytesRead, bytesToRead, r, |bytes|, file.events, end);
      Associative(arrived, got, bytes);
      Associative(front, got, bytes);
      got' := got + bytes;
    }

    /** The loop of begin_read: reads to `start` and on until `bytesToRead` bytes have arrived; with
        none to read it only polls. */
    method Gather(start: nat, bytesToRead: nat) returns (r: Gathered, ghost got: seq<Byte>)
      requires file.Valid() && start <= buff.Length
      modifies buff, file`events, file`taken
      ensures HasGot(old(file.sent[..file.taken]), old(buff[..start]), got)
      ensures old(LoopOf(file.events, buff.Length - start, |file.sent| - file.taken, 0, bytesToRead))
           == LoopEnd(r, |got|, file.events)
      ensures !r.More? && (r.Enough? ==> r.bytesRead == |got| >= bytesToRead)
      ensures r.EndReached? ==> r.asked == buff.Length - (start + |got|) && (got == [] || |got| < bytesToRead)
      ensures r.Stopped? ==> !r.outcome.Returned? && !r.outcome.EndOfInput?
    {
      hide RoundOf, LoopOf;
      ghost var arrived, front := file.sent[..file.taken], buff[..start];
      ghost var end := LoopOf(file.events, buff.Length - start, |file.sent| - file.taken, 0, bytesToRead);
      r, got := GatherOnto(start, 0, bytesToRead, arrived, front, [], end);
      while r.More?
        invariant HasGot(arrived, front, got)
        invariant r.More? ==> r.bytesRead == |got| && (got == [] || |got| < bytesToRead)
        invariant if r.More? then WillEnd(start, |got|, bytesToRead, end) else end == LoopEnd(r, |got|, file.events)
        invariant r.Enough? ==> r.bytesRead == |got| >= bytesToRead
        invariant r.EndReached? ==> r.asked == buff.Length - (start + |got|) && (got == [] || |got| < bytesToRead)
        invariant r.Stopped? ==> !r.outcome.Returned? && !r.outcome.EndOfInput?
        decreases |file.events| + (if r.More? then 1 else 0)
      {
        r, got := GatherOnto(start, r.bytesRead, bytesToRead, arrived, front, got, end);
      }
    }

    /** The end of begin_read, by a result or an exception. */
    method Settle(g: Gathered, wanted: nat) returns (r: Outcome)
      requires Valid() && !g.More? && (g.Stopped? ==> !g.outcome.Returned? && !g.outcome.EndOfInput?)
      requires g.Enough? ==> Times(wanted, width) <= g.bytesRead <= buff.Length - Times(carry, width)
      modifies this`size
      ensures Valid() && Settles(g, r)
      ensures if r.Returned?
        then carry + wanted <= r.count == size == carry + g.bytesRead / width
          && Times(size, width) <= Times(carry, width) + g.bytesRead < Times(size, width) + width
        else size == old(size)
    {
      TimesMonotone(carry, capacity, width);
      match g
      case Stopped(outcome) => r := outcome;
      case EndReached(asked) => r := EndOfInput(asked);
      case Enough(bytesRead) =>
        WholeElementsRead(carry, capacity, width, wanted, bytesRead);
        TimesMonotone(carry + bytesRead / width, capacity, width);
        size := carry + bytesRead / width;
        r := Returned(size);
    }

    /** begin_read returns what was carried over without reading. */
    predicate HasEnough(countMin: nat)
      reads this`carry
    {
      0 < carry && countMin <= carry
    }

    /** How a call of begin_read ends that does not return at once. */
    ghost function Call(countMin: nat): LoopEnd
      requires Valid() && !HasEnough(countMin)
      reads this, file
    {
      CallOf(width, capacity, carry, countMin, file.events, |file.sent| - file.taken)
    }

    lemma CallIs(countMin: nat)
      requires Valid() && !HasEnough(countMin)
      ensures Times(carry, width) <= buff.Length
      ensures var wanted := Wanted(carry, countMin);
        Call(countMin) == LoopOf(file.events, buff.Length - Times(carry, width), |file.sent| - file.taken,
          0, Times(wanted, width))
    {
      hide LoopOf;
      TimesMonotone(carry, capacity, width);
      TimesSum(capacity - carry, carry, width);
    }

    /** What is missing to `countMin` elements is in the pipe, and the calls will move it. */
    ghost predicate WillArrive(countMin: nat)
      requires Valid()
      reads this, file
    {
      Supplied(width, carry, countMin, file.events, |file.sent| - file.taken)
    }

    /** begin_read after the early return: the elements read by this call follow the carried ones. */
    method ReadMore(countMin: nat) returns (r: Outcome, ghost got: seq<Byte>)
      requires Valid() && !HasEnough(countMin)
      modifies this`size, buff, file`events, file`taken
      ensures Valid() && file.sent[..file.taken] == file.sent[..old(file.taken)] + got
      ensures |got| == old(Call(countMin)).total && Settles(old(Call(countMin)).how, r)
      ensures file.events == old(Call(countMin)).rest
      ensures Times(carry, width) + |got| <= buff.Length
      ensures buff[..Times(carry, width) + |got|] == old(buff[..Times(carry, width)]) + got
      ensures if r.Returned?
        then countMin <= r.count == size == carry + |got| / width
          && Times(size, width) <= Times(carry, width) + |got| < Times(size, width) + width
        else size == old(size)
      ensures r.EndOfInput? && countMin <= capacity && capacity > 0 ==> r.asked > 0
    {
      hide LoopOf;
      CallIs(countMin);
      var wanted := Wanted(carry, countMin);
      WantedFits(carry, capacity, width, wanted);
      var g;
      g, got := Gather(Times(carry, width), Times(wanted, width));
      r := Settle(g, wanted);
    }

    /** ReadMore, and what it keeps of the bytes read so far. */
    method ReadAndKeep(countMin: nat) returns (r: Outcome, ghost got: seq<Byte>)
      requires Valid() && !HasEnough(countMin)
      modifies this`size, buff, file`events, file`taken
      ensures Valid() && file.sent[..file.taken] == file.sent[..old(file.taken)] + got
      ensures |got| == old(Call(countMin)).total && Settles(old(Call(countMin)).how, r)
      ensures file.events == old(Call(countMin)).rest
      ensures if r.Returned? then countMin <= r.count == size == carry + |got| / width else size == old(size)
      ensures Times(carry, width) + |got| <= buff.Length
      ensures buff[..Times(carry, width) + |got|] == old(buff[..Times(carry, width)]) + got
      ensures r.Returned? && old(Conserves()) ==> (Conserves() <==> old(size) == carry && IsMultiple(|got|, width))
      ensures !r.Returned? && old(size) == carry && old(Conserves()) ==> (Conserves() <==> got == [])
      ensures r.EndOfInput? && countMin <= capacity && capacity > 0 ==> r.asked > 0
    {
      hide LoopOf;
      TimesMonotone(carry, capacity, width);
      TimesMonotone(carry, size, width);
      ghost var arrived, buffered, carried := file.sent[..file.taken], Buffered(), buff[..Times(carry, width)];
      r, got := ReadMore(countMin);
      ghost var kept := if r.Returned? then Times(size, width) else Times(carry, width);
      SlicePrefix(buff, kept, Times(carry, width) + |got|);
      KeptExactly(arrived, consumed, buffered, carried, got, kept);
      if r.Returned? {
        WholeElementsOnly(carry, size, width, |got|);
        TimesMonotone(old(size), carry, width);
      }
    }

    /** begin_read: at least `countMin` elements, or with a minimum of zero what there is. Of the
        bytes `got` by this call none is lost exactly when they are whole elements and the call
        before it was not closed by `end_read(0)`. An exception loses what the call has read. */
    method BeginRead(countMin: nat) returns (r: Outcome, ghost got: seq<Byte>)
      requires Valid()
      modifies this`size, buff, file`events, file`taken
      ensures Valid() && file.sent[..file.taken] == file.sent[..old(file.taken)] + got
      ensures r.Returned? ==> countMin <= r.count <= capacity && Times(r.count, width) <= buff.Length
      ensures HasEnough(countMin) ==>
        r == Returned(carry) && got == [] && size == old(size) && buff[..] == old(buff[..])
      ensures !HasEnough(countMin) ==>
        |got| == old(Call(countMin)).total && Settles(old(Call(countMin)).how, r)
      ensures file.events == if HasEnough(countMin) then old(file.events) else old(Call(countMin)).rest
      ensures !HasEnough(countMin) && r.Returned? ==> r.count == size == carry + |got| / width
      ensures !HasEnough(countMin) ==>
        && Times(carry, width) + |got| <= buff.Length
        && buff[..Times(carry, width) + |got|] == old(buff[..Times(carry, width)]) + got
      ensures !HasEnough(countMin) && r.Returned? && old(Conserves()) ==>
        (Conserves() <==> old(size) == carry && IsMultiple(|got|, width))
      // no bytes are lost if elements are single bytes or the whole buffer is asked for
      ensures r.Returned? && old(Conserves()) && old(size) == carry && (width == 1 || countMin >= capacity) ==>
        Conserves()
      ensures !r.Returned? ==> size == old(size)
      ensures !r.Returned? && old(size) == carry && old(Conserves()) ==> (Conserves() <==> got == [])
      // read is asked for zero bytes only if more is wanted than fits
      ensures r.EndOfInput? && countMin <= capacity && capacity > 0 ==> r.asked > 0
      ensures old(WillArrive(countMin)) && countMin <= capacity ==> r.Returned?
      ensures EndsFor(old(file.events), file.events, r)
      ensures countMin == 0 && carry == 0 ==> file.events == Later(old(file.events))
      ensures countMin == 0 && carry == 0 ==>
        OnePoll(old(file.events), buff.Length, |file.sent| - old(file.taken), width, r)
    {
      hide LoopOf, LastTaken, OnePoll, MovesAll;
      TimesMonotone(carry, capacity, width);
      if HasEnough(countMin) {
        return Returned(carry), [];
      }
      ghost var events, available := file.events, |file.sent| - file.taken;
      if width == 1 || countMin >= capacity {
        WholeCall(width, capacity, carry, countMin, events, available);
      }
      if WillArrive(countMin) && countMin <= capacity {
        CallReturns(width, capacity, carry, countMin, events, available);
      }
      r, got := ReadAndKeep(countMin);
      TimesMonotone(size, capacity, width);
      CallStops(width, capacity, carry, countMin, events, available, r);
      if countMin == 0 { CallPolls(width, capacity, events, available, r); }
    }

    /** memcpy within the buffer: undefined if the regions overlap. */
    method MemCpy(to: nat, from: nat, count: nat)
      requires to + count <= from || from + count <= to
      requires to + count <= buff.Length && from + count <= buff.Length
      modifies buff
      ensures buff[to..to + count] == old(buff[from..from + count])
    {
      forall i | 0 <= i < count { buff[to + i] := buff[from + i]; }
    }

    method MemMove(to: nat, from: nat, count: nat)
      requires to + count <= buff.Length && from + count <= buff.Length
      modifies buff
      ensures buff[to..to + count] == old(buff[from..from + count])
    {
      forall i | 0 <= i < count { buff[to + i] := buff[from + i]; }
    }

    method MoveToFront(count: nat)
      requires width > 0 && Times(carry + count, width) <= buff.Length
      modifies buff
      ensures Times(carry + count, width) == Times(carry, width) + Times(count, width)
      ensures buff[..Times(carry, width)] == old(buff[Times(count, width)..Times(carry + count, width)])
    {
      TimesSum(carry, count, width);
      TimesMonotone(carry, count, width);
      if carry > count {
        MemMove(0, Times(count, width), Times(carry, width));
      } else {
        MemCpy(0, Times(count, width), Times(carry, width));
      }
    }

    /** end_read: the first `count` elements are consumed and the others move to the front. */
    method EndRead(count: nat)
      requires Valid() && count <= size
      modifies this`carry, this`size, this`consumed, buff
      ensures Valid() && Times(count, width) <= buff.Length
      ensures count == 0 ==> carry == old(carry) && size == old(size) && buff[..] == old(buff[..])
      ensures count > 0 ==> carry == size == old(size) - count
      ensures consumed == old(consumed) + old(buff[..Times(count, width)])
      ensures old(Conserves()) ==> Conserves()
    {
      TimesMonotone(count, size, width);
      TimesMonotone(size, capacity, width);
      if count == 0 { return; }
      ghost var buffered := Buffered();
      consumed := consumed + buff[..Times(count, width)];
      carry := size - count;
      TimesSum(carry, count, width);
      if carry > 0 {
        MoveToFront(count);
        size := carry;
      } else {
        size := 0;
      }
      assert Buffered() == buffered[Times(count, width)..];
      MovesOver(old(consumed), buffered, Times(count, width));
    }

    /** pop_one: the next element of the stream, or an exception for a reason that its last system
        call gives. */
    method PopOne() returns (r: Outcome, element: seq<Byte>)
      requires Valid() && capacity > 0
      modifies this, buff, file
      ensures Valid() && file.sent == old(file.sent)
      ensures r.Returned? ==> |element| == width && consumed == old(consumed) + element && size == carry
      ensures r.Returned? && old(Conserves()) && old(size) == old(carry) ==> consumed <= file.sent[..file.taken]
      ensures !r.Returned? ==> element == [] && consumed == old(consumed)
      ensures old(HasEnough(1)) || old(WillArrive(1)) ==> r.Returned?
      ensures EndsFor(old(file.events), file.events, r) && (r.EndOfInput? ==> r.asked > 0)
    {
      hide LoopOf, CallOf, EndsFor, Settles, Supplied, FileInputQueue.WillArrive, IsMultiple, OnePoll, Times;
      TimesMonotone(carry, capacity, width);
      ghost var arrived, carried := file.sent[..file.taken], buff[..Times(carry, width)];
      ghost var got;
      r, got := BeginRead(1);
      if !r.Returned? { return r, []; }
      FirstElement(carry, |got|, width);
      TimesMonotone(carry, r.count, width);
      element := buff[..width];
      SlicePrefix(buff, width, |carried + got|);
      NextElement(arrived, consumed, carried, got, width);
      EndRead(1);
    }
  }

  // ---- when no call can end inside an element ----

  ghost predicate EndsWhole(width: nat, capacity: nat, carry: nat, countMin: nat, events: seq<Event>, available: nat)
    requires width > 0 && carry <= capacity && (carry < countMin || carry == 0)
  {
    var call := CallOf(width, capacity, carry, countMin, events, available);
    call.how.Enough? ==> IsMultiple(call.total, width)
  }

  /** Whatever the descriptor does, no call that asks for at least `least` elements returns when its
      last read ended inside an element. */
  ghost predicate NeverRagged(width: nat, capacity: nat, least: nat)
    requires width > 0
  {
    forall carry: nat, countMin: nat, events: seq<Event>, available: nat ::
      carry <= capacity && countMin >= least && (carry < countMin || carry == 0) ==>
        EndsWhole(width, capacity, carry, countMin, events, available)
  }

  lemma WholeCall(width: nat, capacity: nat, carry: nat, countMin: nat, events: seq<Event>, available: nat)
    requires width > 0 && carry <= capacity && (carry < countMin || carry == 0)
    requires width == 1 || countMin >= capacity
    ensures EndsWhole(width, capacity, carry, countMin, events, available)
  {
    var call := CallOf(width, capacity, carry, countMin, events, available);
    if width == 1 {
      IsMultipleExact(call.total, 1);
    } else if call.how.Enough? {
      TimesMonotone(capacity - carry, Wanted(carry, countMin), width);
      TimesUnique(call.total, capacity - carry, width);
    }
  }

  /** One byte more than `least` elements arrives at once. */
  lemma RaggedCall(width: nat, capacity: nat, least: nat)
    requires width > 1 && least < capacity
    ensures var n := Times(least, width) + 1;
      && CallOf(width, capacity, 0, least, [Moves(n)], n) == LoopEnd(Enough(n), n, [])
      && !EndsWhole(width, capacity, 0, least, [Moves(n)], n)
  {
    var n := Times(least, width) + 1;
    TimesMonotone(least + 1, capacity, width);
    TimesUnique(n, least, width);
  }

  /** No returning begin_read ever loses a byte, whatever the descriptor does, if and only if the
      elements are single bytes or every call asks for the whole buffer. */
  lemma NeverRaggedExact(width: nat, capacity: nat, least: nat)
    requires width > 0
    ensures NeverRagged(width, capacity, least) <==> width == 1 || least >= capacity
  {
    if width == 1 || least >= capacity {
      forall carry: nat, countMin: nat, events: seq<Event>, available: nat
        | carry <= capacity && countMin >= least && (carry < countMin || carry == 0)
        ensures EndsWhole(width, capacity, carry, countMin, events, available)
      {
        WholeCall(width, capacity, carry, countMin, events, available);
      }
    } else {
      RaggedCall(width, capacity, least);
    }
  }

  /** Every width and capacity for which that is possible: a begin_read that returns and loses bytes. */
  method RaggedRead(width: nat, capacity: nat, least: nat) returns (queue: FileInputQueue, r: Outcome)
    requires width > 1 && least < capacity
    ensures fresh(queue) && queue.Valid() && queue.width == width && queue.capacity == capacity
    ensures r.Returned? && r.count == queue.size && queue.carry == 0
    ensures queue.consumed == [] && |queue.file.sent| == queue.file.taken && !queue.Conserves()
  {
    hide LoopOf, CallOf, Times, IsMultiple, EndsFor, OnePoll, FileInputQueue.WillArrive;
    var n := Times(least, width) + 1;
    var file := new BytePipe([Moves(n)], seq(n, _ => 0));
    var buffer := new Byte[Times(capacity, width)](_ => 0);
    queue := new FileInputQueue(file, buffer, capacity, width);
    RaggedCall(width, capacity, least);
    ghost var got;
    r, got := queue.BeginRead(least);
  }

  /** A call for one byte that gets it at once. */
  lemma OneByteCall(capacity: nat, events: seq<Event>, available: nat)
    requires capacity > 0 && events != [] && events[0] == Moves(1) && available > 0
    ensures CallOf(1, capacity, 0, 1, events, available) == LoopEnd(Enough(1), 1, events[1..])
  {
    TimesExact(capacity, 1);
  }

  method ReadOneByte(queue: FileInputQueue) returns (r: Outcome)
    requires queue.Valid() && queue.width == 1 && queue.capacity == 2 && queue.carry == 0
    requires queue.file.events != [] && queue.file.events[0] == Moves(1) && queue.file.taken < |queue.file.sent|
    modifies queue`size, queue.buff, queue.file`events, queue.file`taken
    ensures queue.Valid() && r == Returned(1) && queue.size == 1 && queue.file.taken == old(queue.file.taken) + 1
    ensures queue.file.events == old(queue.file.events)[1..]
    ensures queue.Buffered() == [queue.file.sent[old(queue.file.taken)]]
  {
    hide LoopOf;
    ghost var sent, taken := queue.file.sent, queue.file.taken;
    OneByteCall(2, queue.file.events, |sent| - taken);
    ghost var got;
    r, got := queue.BeginRead(1);
    assert queue.file.taken == taken + 1;
    assert got[0] == sent[..taken + 1][taken];
  }

  /** begin_read, end_read(0), begin_read: the second call reads over the element of the first. */
  method ReadsOver() returns (queue: FileInputQueue, first: Outcome, second: Outcome)
    ensures fresh(queue) && queue.Valid() && first == second == Returned(1) && !queue.Conserves()
    ensures queue.consumed == [] && queue.Buffered() == [8] && queue.file.sent[..queue.file.taken] == [7, 8]
  {
    var file := new BytePipe([Moves(1), Moves(1)], [7, 8]);
    var buffer := new Byte[2](_ => 0);
    queue := new FileInputQueue(file, buffer, 2, 1);
    first := ReadOneByte(queue);
    queue.EndRead(0);
    second := ReadOneByte(queue);
  }

  lemma SlicePrefix(buff: array<Byte>, n: nat, m: nat)
    requires n <= m <= buff.Length
    ensures buff[..m][..n] == buff[..n]
  {
  }

  /** What stays in the buffer accounts for everything that arrived exactly when nothing is cut off. */
  lemma KeptExactly(arrived: seq<Byte>, consumed: seq<Byte>, buffered: seq<Byte>, carried: seq<Byte>,
      got: seq<Byte>, kept: nat)
    requires carried <= buffered && kept <= |carried| + |got|
    ensures arrived == consumed + buffered ==>
      (arrived + got == consumed + (carried + got)[..kept] <==> carried == buffered && kept == |carried| + |got|)
  {
    if arrived == consumed + buffered {
      if carried == buffered && kept == |carried| + |got| {
        assert (carried + got)[..kept] == carried + got;
        assert (consumed + buffered) + got == consumed + (carried + got);
      } else {
        assert |arrived + got| > |consumed + (carried + got)[..kept]|;
      }
    }
  }

  lemma FirstElement(carry: nat, got: nat, width: nat)
    requires width > 0
    ensures Times(1, width) == width
    ensures carry > 0 || carry + got / width > 0 ==> width <= Times(carry, width) + got
  {
    TimesMonotone(1, carry, width);
    TimesQuotient(got, width);
    TimesMonotone(1, got / width, width);
  }

  lemma NextElement(arrived: seq<Byte>, consumed: seq<Byte>, carried: seq<Byte>, got: seq<Byte>, width: nat)
    requires width <= |carried + got|
    ensures arrived == consumed + carried ==> consumed + (carried + got)[..width] <= arrived + got
  {
    assert (consumed + carried) + got == consumed + (carried + got);
  }

  lemma NotFewer(carry: nat, size: nat, width: nat, got: nat)
    requires width > 0 && Times(carry, width) + got < Times(size, width) + width
    ensures carry <= size
  {
    if size < carry {
      TimesMonotone(size + 1, carry, width);
    }
  }

  lemma WholeElementsOnly(carry: nat, size: nat, width: nat, got: nat)
    requires width > 0 && Times(size, width) <= Times(carry, width) + got < Times(size, width) + width
    ensures Times(size, width) == Times(carry, width) + got <==> IsMultiple(got, width)
  {
    NotFewer(carry, size, width, got);
    TimesSum(carry, size - carry, width);
    TimesUnique(got, size - carry, width);
  }

  lemma WantedFits(carry: nat, capacity: nat, width: nat, wanted: nat)
    requires width > 0
    ensures carry < capacity ==> Times(carry, width) < Times(capacity, width)
    ensures carry + wanted <= capacity ==> Times(carry, width) + Times(wanted, width) <= Times(capacity, width)
  {
    TimesMonotone(capacity, carry, width);
    TimesSum(carry, wanted, width);
    TimesMonotone(carry + wanted, capacity, width);
  }

  lemma WholeElementsRead(carry: nat, capacity: nat, width: nat, wanted: nat, bytesRead: nat)
    requires width > 0 && Times(carry, width) + bytesRead <= Times(capacity, width) && Times(wanted, width) <= bytesRead
    ensures var size := carry + bytesRead / width;
      && carry + wanted <= size <= capacity
      && Times(size, width) <= Times(carry, width) + bytesRead < Times(size, width) + width
  {
    var whole := bytesRead / width;
    TimesQuotient(bytesRead, width);
    TimesSum(carry, whole, width);
    TimesMonotone(carry + whole, capacity, width);
    if whole < wanted {
      TimesMonotone(whole + 1, wanted, width);
    }
  }
}
