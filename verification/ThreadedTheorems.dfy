/** What holds of every schedule of a threaded chain. */
module ThreadedTheorems {
  import opened QueueProtocol
  import opened Blocks
  import opened ThreadedChain
  import opened Multiples
  import Contiguity

  lemma {:induction false} RunKeepsInv<T(!new)>(net: Network<T>, s: State<T>, run: seq<Label<T>>)
    requires ThreadedChain.Inv(net, s) && ThreadedChain.Legal(net, s, run)
    ensures ThreadedChain.Inv(net, ThreadedChain.After(net, s, run))
    decreases |run|
  {
    if run != [] {
      LabelKeepsInv(net, s, run[0]);
      RunKeepsInv(net, ThreadedChain.Next(net, s, run[0]), run[1..]);
    }
  }

  lemma LabelKeepsInv<T(!new)>(net: Network<T>, s: State<T>, l: Label<T>)
    requires ThreadedChain.Inv(net, s) && ThreadedChain.Enabled(net, s, l)
    ensures ThreadedChain.Inv(net, ThreadedChain.Next(net, s, l))
  {
    match l
    case Step(t) => ThreadSteps(net, s, t);
    case Restart(t) => RestartKeepsInv(net, s, t);
    case Outside(k, a) => OutsideKeepsInv(net, s, k, a);
  }

  ghost predicate Reachable<T(!new)>(net: Network<T>, s: State<T>) {
    exists s0: State<T>, run: seq<Label<T>> ::
      Initial(net, s0) && ThreadedChain.Legal(net, s0, run) && s == ThreadedChain.After(net, s0, run)
  }

  lemma ReachableInv<T(!new)>(net: Network<T>, s: State<T>)
    requires Reachable(net, s)
    ensures ThreadedChain.Inv(net, s)
  {
    var s0: State<T>, run: seq<Label<T>> :|
      Initial(net, s0) && ThreadedChain.Legal(net, s0, run) && s == ThreadedChain.After(net, s0, run);
    InitialInv(net, s0);
    RunKeepsInv(net, s0, run);
  }

  lemma InitialReachable<T(!new)>(net: Network<T>, s0: State<T>)
    requires Initial(net, s0)
    ensures Reachable(net, s0)
  {
    assert ThreadedChain.Legal(net, s0, []) && s0 == ThreadedChain.After(net, s0, []);
  }

  lemma {:induction false} RunsJoin<T(!new)>(net: Network<T>, s: State<T>, first: seq<Label<T>>, second: seq<Label<T>>)
    requires ThreadedChain.Legal(net, s, first)
    requires ThreadedChain.Legal(net, ThreadedChain.After(net, s, first), second)
    ensures ThreadedChain.Legal(net, s, first + second)
    ensures ThreadedChain.After(net, s, first + second)
         == ThreadedChain.After(net, ThreadedChain.After(net, s, first), second)
    decreases |first|
  {
    hide ThreadedChain.Enabled, ThreadedChain.Next;
    if first == [] {
      assert first + second == second;
    } else {
      RunsJoin(net, ThreadedChain.Next(net, s, first[0]), first[1..], second);
      assert (first + second)[1..] == first[1..] + second;
    }
  }

  /** Every run from a reachable state leads to a reachable state. */
  lemma ReachableOn<T(!new)>(net: Network<T>, s: State<T>, run: seq<Label<T>>)
    requires Reachable(net, s) && ThreadedChain.Legal(net, s, run)
    ensures Reachable(net, ThreadedChain.After(net, s, run))
  {
    var s0: State<T>, before: seq<Label<T>> :|
      Initial(net, s0) && ThreadedChain.Legal(net, s0, before) && s == ThreadedChain.After(net, s0, before);
    RunsJoin(net, s0, before, run);
  }

  // ---- deadlock freedom ----

  /** A producer asleep on a queue means its consumer has a whole block to read. */
  lemma ProducerAsleep<T(!new)>(net: Network<T>, s: State<T>, k: nat)
    requires ThreadedChain.Inv(net, s) && k < net.Last()
    requires s.queues[k].producer.Waiting? && s.queues[k].producer.asleep && s.pcs[k].AtWrite?
    ensures s.queues[k].ring.size >= net.blocks[k + 1]
  {
    assert QueueOk(net, s, k) && ThreadOk(net, s, k);
    var q := s.queues[k];
    IsMultipleExact(|q.committed|, net.blocks[k]);
    IsMultipleExact(|q.consumed|, net.blocks[k + 1]);
    assert |q.committed| == |q.consumed| + q.ring.size;
    Contiguity.NeverBothStarved(net.capacities[k], net.blocks[k], net.blocks[k + 1],
      |q.committed|, |q.consumed|);
  }

  /** If everybody up to thread `t` sleeps, each of them sleeps for want of room. */
  lemma {:induction false} AllAsleepWriting<T(!new)>(net: Network<T>, s: State<T>, t: nat)
    requires ThreadedChain.Inv(net, s) && t <= net.Last()
    requires forall u: nat :: u <= t ==> Asleep(net, s, u)
    ensures t < net.Last() && s.pcs[t].AtWrite?
  {
    assert Asleep(net, s, t) && ThreadOk(net, s, t);
    if t > 0 {
      AllAsleepWriting(net, s, t - 1);
      assert Asleep(net, s, t - 1);
      ProducerAsleep(net, s, t - 1);
      assert QueueOk(net, s, t - 1);
    }
  }

  /** The thread can take a step, or has ended in InterruptedException. */
  ghost predicate MayGoOn<T(!new)>(net: Network<T>, s: State<T>, t: nat) {
    t < |s.pcs| && (s.pcs[t].Stopped? || ThreadedChain.Enabled(net, s, Step(t)))
  }

  /** Deadlock freedom: in every reachable state of every chain whose capacities are multiples of
      the block sizes next to them, some thread can take a step or has ended. */
  lemma NoDeadlock<T(!new)>(net: Network<T>, s: State<T>)
    requires Reachable(net, s)
    ensures exists t: nat :: t <= net.Last() && MayGoOn(net, s, t)
  {
    ReachableInv(net, s);
    if forall u: nat :: u <= net.Last() ==> Asleep(net, s, u) {
      AllAsleepWriting(net, s, net.Last());
    }
    var t: nat :| t <= net.Last() && !Asleep(net, s, t);
    if !s.pcs[t].Stopped? {
      ThreadSteps(net, s, t);
    }
    assert MayGoOn(net, s, t);
  }

  /** No thread has been told to stop, and none has stopped. */
  ghost predicate Calm<T(!new)>(net: Network<T>, s: State<T>) {
    && Shape(net, s)
    && (forall k: nat :: k < net.Last() ==> CalmQueue(s.queues[k]))
    && (forall t: nat :: t <= net.Last() ==> !s.pcs[t].Stopped?)
  }

  predicate CalmQueue<T>(q: Queue<T>) {
    !q.stopWrite && !q.stopRead
  }

  predicate Interrupts<T>(l: Label<T>) {
    l.Outside? && (l.action.InterruptWrite? || l.action.InterruptRead?)
  }

  lemma ActionKeepsCalm<T>(q: Queue<T>, a: Action<T>)
    requires Shaped(q) && HeldOk(q) && QueueProtocol.Enabled(q, a) && CalmQueue(q)
    requires !a.InterruptWrite? && !a.InterruptRead?
    ensures CalmQueue(QueueProtocol.Next(q, a))
  {
  }

  lemma LabelKeepsCalm<T(!new)>(net: Network<T>, s: State<T>, l: Label<T>)
    requires Calm(net, s) && ThreadedChain.Enabled(net, s, l) && !Interrupts(l)
    ensures Calm(net, ThreadedChain.Next(net, s, l))
  {
    match l
    case Step(t) => ActionKeepsCalm(s.queues[QueueOf(net, s, t)], Operation(net, s, t));
    case Restart(t) =>
    case Outside(k, a) => ActionKeepsCalm(s.queues[k], a);
  }

  lemma {:induction false} RunKeepsCalm<T(!new)>(net: Network<T>, s: State<T>, run: seq<Label<T>>)
    requires Calm(net, s) && ThreadedChain.Legal(net, s, run)
    requires forall l :: l in run ==> !Interrupts(l)
    ensures Calm(net, ThreadedChain.After(net, s, run))
    decreases |run|
  {
    if run != [] {
      assert run[0] in run;
      LabelKeepsCalm(net, s, run[0]);
      RunKeepsCalm(net, ThreadedChain.Next(net, s, run[0]), run[1..]);
    }
  }

  /** From a calm state on the same holds as from the start. */
  lemma RunnableFrom<T(!new)>(net: Network<T>, s0: State<T>, run: seq<Label<T>>)
    requires Reachable(net, s0) && Calm(net, s0) && ThreadedChain.Legal(net, s0, run)
    requires forall l :: l in run ==> !Interrupts(l)
    ensures var s := ThreadedChain.After(net, s0, run);
      && (forall t: nat :: t <= net.Last() && t < |s.pcs| ==> !s.pcs[t].Stopped?)
      && (exists t: nat :: t <= net.Last() && ThreadedChain.Enabled(net, s, Step(t)))
  {
    var s := ThreadedChain.After(net, s0, run);
    RunKeepsCalm(net, s0, run);
    ReachableOn(net, s0, run);
    NoDeadlock(net, s);
    var t: nat :| t <= net.Last() && MayGoOn(net, s, t);
  }

  /** As long as nobody interrupts a queue no thread ends, and in every state that any schedule
      reaches some thread can take a step. */
  lemma AlwaysRunnable<T(!new)>(net: Network<T>, s0: State<T>, run: seq<Label<T>>)
    requires Initial(net, s0) && ThreadedChain.Legal(net, s0, run)
    requires forall l :: l in run ==> !Interrupts(l)
    ensures var s := ThreadedChain.After(net, s0, run);
      && (forall t: nat :: t <= net.Last() && t < |s.pcs| ==> !s.pcs[t].Stopped?)
      && (exists t: nat :: t <= net.Last() && ThreadedChain.Enabled(net, s, Step(t)))
  {
    InitialReachable(net, s0);
    RunnableFrom(net, s0, run);
  }

  // ---- Kahn determinism ----

  /** The stream on queue `k` as a function of the first `n` source elements alone. */
  ghost function Reference<T(!new)>(net: Network<T>, k: nat, n: nat): seq<T>
    requires net.WellFormed() && k < net.Last()
  {
    if k == 0 then Stream(net.source, 0, n)
    else MapBlocks(net.functions[k], net.blocks[k], Reference(net, k - 1, n))
  }

  lemma {:induction false} ReferenceMonotone<T(!new)>(net: Network<T>, k: nat, m: nat, n: nat)
    requires net.WellFormed() && k < net.Last() && m <= n
    ensures Reference(net, k, m) <= Reference(net, k, n)
  {
    if k > 0 {
      ReferenceMonotone(net, k - 1, m, n);
      MapBlocksMonotone(net.functions[k], net.blocks[k], Reference(net, k - 1, m), Reference(net, k - 1, n));
    }
  }

  lemma {:induction false} HistoryFollowsReference<T(!new)>(net: Network<T>, s: State<T>, k: nat)
    requires ThreadedChain.Inv(net, s) && k < net.Last()
    ensures s.queues[k].committed <= Reference(net, k, |s.queues[0].committed|)
  {
    assert ThreadOk(net, s, k);
    if k > 0 {
      HistoryFollowsReference(net, s, k - 1);
      var input, pc, b := s.queues[k - 1].committed, s.pcs[k], net.blocks[k];
      var n := |s.queues[k - 1].consumed|;
      var seen := input[..if pc.AtEndRead? then n + b else n];
      assert seen <= input <= Reference(net, k - 1, |s.queues[0].committed|);
      MapBlocksMonotone(net.functions[k], b, seen, Reference(net, k - 1, |s.queues[0].committed|));
    }
  }

  /** Kahn determinism: in every reachable state the history of every queue is a prefix of what
      the chain computes from the source elements sent so far, whatever the schedule was and
      however often threads were interrupted, resumed, ended and attached again. */
  lemma HistoriesAreDetermined<T(!new)>(net: Network<T>, s: State<T>, k: nat)
    requires Reachable(net, s) && net.WellFormed() && k < net.Last()
    ensures |s.queues| == net.Last()
    ensures s.queues[k].committed <= Reference(net, k, |s.queues[0].committed|)
  {
    ReachableInv(net, s);
    HistoryFollowsReference(net, s, k);
  }

  /** Two schedules never disagree: of two histories of a queue, one extends the other. */
  lemma SchedulesAgree<T(!new)>(net: Network<T>, s: State<T>, s': State<T>, k: nat)
    requires Reachable(net, s) && Reachable(net, s') && net.WellFormed() && k < net.Last()
    ensures |s.queues| == |s'.queues| == net.Last()
    ensures s.queues[k].committed <= s'.queues[k].committed || s'.queues[k].committed <= s.queues[k].committed
  {
    HistoriesAreDetermined(net, s, k);
    HistoriesAreDetermined(net, s', k);
    var m, n := |s.queues[0].committed|, |s'.queues[0].committed|;
    if m <= n { ReferenceMonotone(net, k, m, n); } else { ReferenceMonotone(net, k, n, m); }
  }

  /** Conservation per queue: committed = consumed + unread, in order, within the capacity. */
  lemma QueuesConserve<T(!new)>(net: Network<T>, s: State<T>, k: nat)
    requires Reachable(net, s) && net.WellFormed() && k < net.Last()
    ensures |s.queues| == net.Last()
    ensures var q := s.queues[k];
      && q.consumed <= q.committed
      && |q.committed| == |q.consumed| + q.ring.size
      && q.ring.size <= net.capacities[k]
  {
    ReachableInv(net, s);
    assert QueueOk(net, s, k);
  }

  // ---- interrupt, end and restart ----

  /** Exactly once: whenever a stage has ended by InterruptedException, what it committed is its
      function of exactly what it consumed. Nothing is lost and nothing is done twice when the
      queues are resumed and attached again. */
  lemma StoppedExactlyOnce<T(!new)>(net: Network<T>, s: State<T>, t: nat)
    requires Reachable(net, s) && net.WellFormed() && 0 < t < net.Last()
    ensures |s.queues| == net.Last() && |s.pcs| == net.Last() + 1
    ensures s.pcs[t].Stopped? ==>
      && s.queues[t].committed == MapBlocks(net.functions[t], net.blocks[t], s.queues[t - 1].consumed)
      && |s.queues[t].committed| == |s.queues[t - 1].consumed|
  {
    ReachableInv(net, s);
    assert ThreadOk(net, s, t) && QueueOk(net, s, t - 1);
    var input, b := s.queues[t - 1], net.blocks[t];
    assert input.committed[..|input.consumed|] == input.consumed;
    MapBlocksLength(net.functions[t], b, input.consumed);
    IsMultipleExact(|input.consumed|, b);
  }

  /** A stage commits before it releases: at every moment it has committed the results of exactly the
      blocks that it has released, or of one block more. */
  lemma CommitsBeforeReleasing<T(!new)>(net: Network<T>, s: State<T>, t: nat)
    requires Reachable(net, s) && net.WellFormed() && 0 < t < net.Last()
    ensures |s.queues| == net.Last()
    ensures var input, output, b := s.queues[t - 1], s.queues[t], net.blocks[t];
      && (|output.committed| == |input.consumed| || |output.committed| == |input.consumed| + b)
      && |output.committed| <= |input.committed| && input.consumed <= input.committed
      && output.committed == MapBlocks(net.functions[t], b, input.committed[..|output.committed|])
  {
    hide MapBlocks;
    ReachableInv(net, s);
    assert ThreadOk(net, s, t) && QueueOk(net, s, t - 1);
    var input, b, pc := s.queues[t - 1], net.blocks[t], s.pcs[t];
    IsMultipleExact(|input.consumed|, b);
    IsMultipleExact(|input.consumed| + b, b);
    var done := if pc.AtEndRead? then |input.consumed| + b else |input.consumed|;
    MapBlocksLength(net.functions[t], b, input.committed[..done]);
  }
}
