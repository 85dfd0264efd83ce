/** The file descriptor behind the file queues: an ordered stream of bytes in which each write and
    each read moves as much as the operating system likes. What it likes is a script of events,
    one per call, so that a statement about every script holds of every split. A call made after
    the script has run out never returns. */
module BytePipes {
  import opened Bytes
  import opened Multiples

  datatype Event =
    | Moves(most: nat)  // at most this many bytes
    | WouldBlock        // EAGAIN
    | Fails             // any other error
    | HangsUp           // end of file
    | Interrupts        // a thread calls interrupt() while this one waits in poll

  datatype IoResult = Moved(count: nat) | Again | Failed | NeverReturns

  datatype WaitResult = Ready | Interrupted | Waiting

  /** The script after one more call. */
  function Later(events: seq<Event>): seq<Event> {
    if events == [] then [] else events[1..]
  }

  /** No errors, no end of file and no interrupts. */
  predicate Smooth(events: seq<Event>) {
    forall i :: 0 <= i < |events| ==> events[i].Moves? || events[i].WouldBlock?
  }

  /** Every call moves a multiple of `width` bytes, if there is room for that many. */
  predicate WholeMoves(events: seq<Event>, width: nat)
    requires width > 0
  {
    forall i :: 0 <= i < |events| && events[i].Moves? ==> IsMultiple(events[i].most, width)
  }

  /** What is left of a script after some calls. */
  predicate Remains(events: seq<Event>, before: seq<Event>) {
    |events| <= |before| && events == before[|before| - |events|..]
  }

  lemma LaterRemains(events: seq<Event>)
    ensures Remains(Later(events), events)
    ensures Remains(Later(Later(events)), events)
  {
  }

  lemma RemainsSo(events: seq<Event>, before: seq<Event>, width: nat)
    requires Remains(events, before) && width > 0
    ensures Smooth(before) ==> Smooth(events)
    ensures WholeMoves(before, width) ==> WholeMoves(events, width)
  {
  }

  /** The calls move `count` bytes, if all are there, before any of them fails, hangs up or is interrupted. */
  predicate MovesAll(events: seq<Event>, count: nat) {
    count == 0 || (events != [] &&
      match events[0]
      case Moves(most) => MovesAll(events[1..], count - Min(most, count))
      case WouldBlock => MovesAll(events[1..], count)
      case _ => false)
  }

  /** The last event of `before` that is no longer in `events`. */
  function LastTaken(before: seq<Event>, events: seq<Event>): Event
    requires |events| < |before|
  {
    before[|before| - |events| - 1]
  }

  /** How many of `count` bytes the next write takes. */
  function AtOnce(events: seq<Event>, count: nat): (n: nat)
    ensures n <= count
  {
    if events != [] && events[0].Moves? then Min(events[0].most, count) else 0
  }

  /** How many bytes the next read delivers. */
  function Arriving(events: seq<Event>, space: nat, available: nat): (n: nat)
    ensures n <= space && n <= available
  {
    AtOnce(events, Min(space, available))
  }

  /** The result of the next read. */
  function ResultOfRead(events: seq<Event>, space: nat, available: nat): IoResult {
    if events == [] then NeverReturns
    else
      match events[0]
      case Moves(_) =>
        var n := Arriving(events, space, available);
        if n == 0 && space > 0 then Again else Moved(n)
      case HangsUp => Moved(0)
      case Fails => Failed
      case _ => Again
  }

  class BytePipe {
    var events: seq<Event>
    var sent: seq<Byte>   // all bytes written so far
    var taken: nat        // how many of them have been read

    ghost predicate Valid()
      reads this
    {
      taken <= |sent|
    }

    constructor (events: seq<Event>, sent: seq<Byte>)
      ensures Valid() && this.events == events && this.sent == sent && taken == 0
    {
      this.events, this.sent, taken := events, sent, 0;
    }

    /** write(2) */
    method Write(bytes: seq<Byte>) returns (r: IoResult)
      modifies `events, `sent
      ensures events == Later(old(events))
      ensures sent == old(sent) + bytes[..AtOnce(old(events), |bytes|)]
      ensures r.NeverReturns? <==> old(events) == []
      ensures old(events) != [] ==>
        match old(events)[0]
        case Moves(_) => r == Moved(AtOnce(old(events), |bytes|))
        case WouldBlock => r.Again?
        case Interrupts => r.Again?
        case _ => r.Failed?
    {
      if events == [] { return NeverReturns; }
      var event := events[0];
      events := events[1..];
      match event
      case Moves(most) =>
        var count := Min(most, |bytes|);
        sent := sent + bytes[..count];
        return Moved(count);
      case WouldBlock => return Again;
      case Interrupts => return Again;
      case _ => return Failed;
    }

    /** read(2) into a buffer with `space` bytes left; zero bytes mean end of file. */
    method Read(space: nat) returns (r: IoResult, bytes: seq<Byte>)
      requires Valid()
      modifies `events, `taken
      ensures Valid() && events == Later(old(events))
      ensures r == ResultOfRead(old(events), space, |sent| - old(taken))
      ensures |bytes| == Arriving(old(events), space, |sent| - old(taken))
      ensures sent[..taken] == sent[..old(taken)] + bytes
    {
      bytes := [];
      if events == [] { return NeverReturns, []; }
      var event := events[0];
      events := events[1..];
      match event
      case Moves(most) =>
        if space == 0 { return Moved(0), []; }
        var count := Min(most, Min(space, |sent| - taken));
        if count == 0 { return Again, []; }
        bytes := sent[taken..taken + count];
        taken := taken + count;
        return Moved(count), bytes;
      case HangsUp => return Moved(0), [];
      case Fails => return Failed, [];
      case _ => return Again, [];
    }

    /** FilePollScheduler::wait_readable and wait_writeable: returns when the descriptor is ready,
        throws when interrupted. */
    method Wait() returns (r: WaitResult)
      modifies `events
      ensures events == if r.Interrupted? then Later(old(events)) else old(events)
      ensures r.Waiting? <==> old(events) == []
      ensures r.Interrupted? <==> old(events) != [] && old(events)[0].Interrupts?
    {
      if events == [] { return Waiting; }
      if events[0].Interrupts? {
        events := events[1..];
        return Interrupted;
      }
      return Ready;
    }
  }
}
