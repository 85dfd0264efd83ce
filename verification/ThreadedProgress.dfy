/** Progress of a threaded chain: however the threads are scheduled, enough steps deliver every
    element of the source to the sink. Fairness is not needed, because bounded queues stop any
    thread that runs ahead, and a thread that sleeps takes no steps. */
module ThreadedProgress {
  import opened QueueProtocol
  import opened Blocks
  import opened Multiples
  import opened ThreadedChain
  import opened ThreadedTheorems

  /** The elements that the thread has dealt with. */
  ghost function History<T(!new)>(net: Network<T>, s: State<T>, t: nat): nat
    requires Shape(net, s) && t <= net.Last()
  {
    if t == 0 then |s.queues[0].committed| else |s.queues[t - 1].consumed|
  }

  /** How far the thread is in the current block, in steps. */
  function Phase(b: nat, pc: Pc): (phase: nat)
    ensures phase < b + 4
  {
    match pc
    case AtRead => 0
    case AtWrite => 1
    case Computing(done) => 2 + if done <= b then done else b
    case AtEndRead => b + 3
    case Stopped => 0
  }

  /** Grows with every step but those that only put the thread to sleep. */
  function Progress(b: nat, history: nat, pc: Pc): nat {
    (b + 4) * history + Phase(b, pc)
  }

  /** Going to sleep counts as well, but less than any other step, and waking up takes it back. */
  ghost function Potential<T(!new)>(net: Network<T>, s: State<T>, t: nat): nat
    requires Shape(net, s) && t <= net.Last()
  {
    2 * Progress(net.blocks[t], History(net, s, t), s.pcs[t]) + if Asleep(net, s, t) then 1 else 0
  }

  /** The sum over the first `n` threads. */
  ghost function Total<T(!new)>(net: Network<T>, s: State<T>, n: nat): nat
    requires Shape(net, s) && n <= net.Last() + 1
  {
    if n == 0 then 0 else Total(net, s, n - 1) + Potential(net, s, n - 1)
  }

  lemma OneBlockMore(b: nat, history: nat)
    requires b > 0
    ensures Progress(b, history + b, AtRead) > Progress(b, history, AtEndRead)
    ensures Progress(b, history + b, AtWrite) > Progress(b, history, Computing(b))
  {
    assert (b + 4) * (history + b) == (b + 4) * history + (b + 4) * b;
    assert (b + 4) * b >= b + 4 by { Scale(b + 4, b); }
  }

  /** Whether the thread's next step signals its neighbour. */
  predicate Ends(b: nat, pc: Pc) {
    pc.AtEndRead? || pc == Computing(b)
  }

  ghost function Neighbour<T(!new)>(net: Network<T>, s: State<T>, t: nat): nat
    requires Placed(net, s, t)
  {
    if QueueOf(net, s, t) == t then t + 1 else t - 1
  }

  lemma BeginGains<T(!new)>(net: Network<T>, s: State<T>, t: nat)
    requires ThreadedChain.Inv(net, s) && Calm(net, s) && ThreadedChain.Enabled(net, s, Step(t))
    requires s.pcs[t].AtRead? || s.pcs[t].AtWrite?
    ensures Potential(net, ThreadedChain.Next(net, s, Step(t)), t) >= Potential(net, s, t) + 1
  {
    assert ThreadOk(net, s, t);
    assert History(net, ThreadedChain.Next(net, s, Step(t)), t) == History(net, s, t);
  }

  lemma EndGains<T(!new)>(net: Network<T>, s: State<T>, t: nat)
    requires ThreadedChain.Inv(net, s) && Calm(net, s) && ThreadedChain.Enabled(net, s, Step(t))
    requires s.pcs[t].Computing? || s.pcs[t].AtEndRead?
    ensures var s' := ThreadedChain.Next(net, s, Step(t));
      Potential(net, s', t) >= Potential(net, s, t) + if Ends(net.blocks[t], s.pcs[t]) then 2 else 1
  {
    assert ThreadOk(net, s, t);
    OneBlockMore(net.blocks[t], History(net, s, t));
  }

  lemma OthersKept<T(!new)>(net: Network<T>, s: State<T>, t: nat, u: nat)
    requires ThreadedChain.Inv(net, s) && ThreadedChain.Enabled(net, s, Step(t)) && u <= net.Last() && u != t
    ensures var s' := ThreadedChain.Next(net, s, Step(t));
      Potential(net, s', u) + (if Ends(net.blocks[t], s.pcs[t]) && u == Neighbour(net, s, t) then 1 else 0)
        >= Potential(net, s, u)
  {
    assert ThreadOk(net, s, t);
  }

  /** If only thread `t` gains and only thread `v` loses, so does the sum. */
  lemma {:induction false} TotalGains<T(!new)>(net: Network<T>, s: State<T>, s': State<T>, n: nat, t: nat, gain: nat,
      v: nat, loss: nat)
    requires Shape(net, s) && Shape(net, s') && n <= net.Last() + 1
    requires forall u: nat :: u < n ==>
      Potential(net, s', u) + (if u == v then loss else 0) >= Potential(net, s, u) + (if u == t then gain else 0)
    ensures Total(net, s', n) + (if v < n then loss else 0) >= Total(net, s, n) + if t < n then gain else 0
  {
    if n > 0 {
      TotalGains(net, s, s', n - 1, t, gain, v, loss);
    }
  }

  /** Every step of a thread adds to the sum. */
  lemma StepGains<T(!new)>(net: Network<T>, s: State<T>, t: nat)
    requires ThreadedChain.Inv(net, s) && Calm(net, s) && ThreadedChain.Enabled(net, s, Step(t))
    ensures var s' := ThreadedChain.Next(net, s, Step(t));
      Total(net, s', net.Last() + 1) >= Total(net, s, net.Last() + 1) + 1
  {
    var s' := ThreadedChain.Next(net, s, Step(t));
    var ends := Ends(net.blocks[t], s.pcs[t]);
    if s.pcs[t].AtRead? || s.pcs[t].AtWrite? { BeginGains(net, s, t); } else { EndGains(net, s, t); }
    forall u: nat | u <= net.Last() && u != t
      ensures Potential(net, s', u) + (if ends && u == Neighbour(net, s, t) then 1 else 0) >= Potential(net, s, u)
    {
      OthersKept(net, s, t, u);
    }
    TotalGains(net, s, s', net.Last() + 1, t, if ends then 2 else 1, Neighbour(net, s, t), if ends then 1 else 0);
  }

  /** A spurious wakeup or a resume takes back at most one sleep. */
  lemma OutsideCosts<T(!new)>(net: Network<T>, s: State<T>, k: nat, a: Action<T>)
    requires ThreadedChain.Inv(net, s) && ThreadedChain.Enabled(net, s, Outside(k, a))
    ensures var s' := ThreadedChain.Next(net, s, Outside(k, a));
      Total(net, s', net.Last() + 1) + 1 >= Total(net, s, net.Last() + 1)
  {
    var s' := ThreadedChain.Next(net, s, Outside(k, a));
    var v := if a.InterruptWrite? || a.ResumeWrite? || a.SpuriousWakeWrite? then k else k + 1;
    forall u: nat | u <= net.Last()
      ensures Potential(net, s', u) + (if u == v then 1 else 0) >= Potential(net, s, u)
    {
    }
    TotalGains(net, s, s', net.Last() + 1, 0, 0, v, 1);
  }

  function Steps<T>(run: seq<Label<T>>): nat {
    if run == [] then 0 else (if run[0].Step? then 1 else 0) + Steps(run[1..])
  }

  function Wakeups<T>(run: seq<Label<T>>): nat {
    if run == [] then 0 else (if run[0].Outside? then 1 else 0) + Wakeups(run[1..])
  }

  lemma LabelGains<T(!new)>(net: Network<T>, s: State<T>, l: Label<T>)
    requires ThreadedChain.Inv(net, s) && Calm(net, s) && ThreadedChain.Enabled(net, s, l)
    ensures var s' := ThreadedChain.Next(net, s, l);
      Total(net, s', net.Last() + 1) + Wakeups([l]) >= Total(net, s, net.Last() + 1) + Steps([l])
  {
    match l
    case Step(t) => StepGains(net, s, t);
    case Restart(t) =>
    case Outside(k, a) => OutsideCosts(net, s, k, a);
  }

  lemma {:induction false} RunGains<T(!new)>(net: Network<T>, s: State<T>, run: seq<Label<T>>)
    requires ThreadedChain.Inv(net, s) && Calm(net, s) && ThreadedChain.Legal(net, s, run)
    requires forall l :: l in run ==> !Interrupts(l)
    ensures var s' := ThreadedChain.After(net, s, run);
      && ThreadedChain.Inv(net, s')
      && Total(net, s', net.Last() + 1) + Wakeups(run) >= Total(net, s, net.Last() + 1) + Steps(run)
    decreases |run|
  {
    if run != [] {
      assert run[0] in run;
      LabelKeepsInv(net, s, run[0]);
      LabelKeepsCalm(net, s, run[0]);
      LabelGains(net, s, run[0]);
      RunGains(net, ThreadedChain.Next(net, s, run[0]), run[1..]);
    }
  }

  // ---- no thread runs far ahead of the sink ----

  /** What the queues behind queue `k` hold at most. */
  ghost function RoomBehind<T(!new)>(net: Network<T>, k: nat): nat
    requires k < net.Last()
    decreases net.Last() - k
  {
    if k == net.Last() - 1 then 0 else net.capacities[k + 1] + RoomBehind(net, k + 1)
  }

  /** A stage consumes no more than it commits. */
  lemma StageKeepsUp<T(!new)>(net: Network<T>, s: State<T>, t: nat)
    requires ThreadedChain.Inv(net, s) && 0 < t < net.Last()
    ensures |s.queues[t - 1].consumed| <= |s.queues[t].committed|
  {
    assert ThreadOk(net, s, t) && QueueOk(net, s, t - 1);
    var input, b := s.queues[t - 1], net.blocks[t];
    var n := |input.consumed|;
    IsMultipleExact(n, b);
    assert input.committed[..n] <= input.committed;
    MapBlocksLength(net.functions[t], b, input.committed[..n]);
    if s.pcs[t].AtEndRead? {
      MapBlocksMonotone(net.functions[t], b, input.committed[..n], input.committed[..n + b]);
    }
  }

  lemma {:induction false} SinkKeepsUp<T(!new)>(net: Network<T>, s: State<T>, k: nat)
    requires ThreadedChain.Inv(net, s) && k < net.Last()
    ensures |s.queues[k].consumed| <= |s.queues[net.Last() - 1].consumed| + RoomBehind(net, k)
    decreases net.Last() - k
  {
    if k < net.Last() - 1 {
      StageKeepsUp(net, s, k + 1);
      assert QueueOk(net, s, k + 1);
      SinkKeepsUp(net, s, k + 1);
    }
  }

  /** More elements than can be on their way while the sink has released fewer than `delivered`. */
  ghost function Ahead<T(!new)>(net: Network<T>, delivered: nat): nat
    requires net.WellFormed()
  {
    delivered + net.capacities[0] + RoomBehind(net, 0)
  }

  lemma {:induction false} RoomShrinks<T(!new)>(net: Network<T>, k: nat)
    requires net.WellFormed() && k < net.Last()
    ensures RoomBehind(net, k) <= RoomBehind(net, 0)
  {
    if k > 0 { RoomShrinks(net, k - 1); }
  }

  lemma HistoryBounded<T(!new)>(net: Network<T>, s: State<T>, t: nat, delivered: nat)
    requires ThreadedChain.Inv(net, s) && t <= net.Last() && |s.queues[net.Last() - 1].consumed| <= delivered
    ensures History(net, s, t) <= Ahead(net, delivered)
  {
    var k := if t == 0 then 0 else t - 1;
    assert QueueOk(net, s, k);
    SinkKeepsUp(net, s, k);
    RoomShrinks(net, k);
  }

  /** The largest sum over `n` threads with these histories. */
  ghost function Most<T(!new)>(net: Network<T>, history: nat, n: nat): nat
    requires n <= |net.blocks|
  {
    if n == 0 then 0 else Most(net, history, n - 1) + 2 * ((net.blocks[n - 1] + 4) * (history + 1)) + 1
  }

  lemma ProgressBounded(b: nat, history: nat, most: nat, pc: Pc)
    requires history <= most
    ensures Progress(b, history, pc) <= (b + 4) * (most + 1)
  {
    assert (b + 4) * (most + 1) == (b + 4) * history + (b + 4) * (most - history) + (b + 4);
  }

  lemma {:induction false} TotalBounded<T(!new)>(net: Network<T>, s: State<T>, n: nat, delivered: nat)
    requires ThreadedChain.Inv(net, s) && n <= net.Last() + 1 && |s.queues[net.Last() - 1].consumed| <= delivered
    ensures Total(net, s, n) <= Most(net, Ahead(net, delivered), n)
  {
    if n > 0 {
      TotalBounded(net, s, n - 1, delivered);
      HistoryBounded(net, s, n - 1, delivered);
      ProgressBounded(net.blocks[n - 1], History(net, s, n - 1), Ahead(net, delivered), s.pcs[n - 1]);
    }
  }

  /** A number of steps after which the sink has released more than `delivered` elements. */
  ghost function Enough<T(!new)>(net: Network<T>, delivered: nat): nat
    requires net.WellFormed()
  {
    Most(net, Ahead(net, delivered), net.Last() + 1) + 1
  }

  /** Progress from any calm state. */
  lemma DeliversFrom<T(!new)>(net: Network<T>, s0: State<T>, run: seq<Label<T>>, delivered: nat)
    requires Reachable(net, s0) && Calm(net, s0) && ThreadedChain.Legal(net, s0, run)
    requires forall l :: l in run ==> !Interrupts(l)
    requires Steps(run) >= Enough(net, delivered) + Wakeups(run)
    ensures var s := ThreadedChain.After(net, s0, run);
      && |s.queues| == net.Last()
      && |s.queues[net.Last() - 1].consumed| > delivered
      && s.queues[net.Last() - 1].consumed <= Reference(net, net.Last() - 1, |s.queues[0].committed|)
  {
    hide ThreadedChain.Legal, ThreadedChain.After, Reachable, Calm, Potential, Most, Reference;
    var s := ThreadedChain.After(net, s0, run);
    ReachableInv(net, s0);
    ReachableOn(net, s0, run);
    RunGains(net, s0, run);
    if |s.queues[net.Last() - 1].consumed| <= delivered {
      TotalBounded(net, s, net.Last() + 1, delivered);
    }
    HistoriesAreDetermined(net, s, net.Last() - 1);
    QueuesConserve(net, s, net.Last() - 1);
  }

  /** Progress: without interrupts, every schedule whose steps outnumber the spurious wakeups by
      enough has delivered more than the given number of elements to the sink, and they are the
      first that the chain computes from the source. */
  lemma EventuallyDelivers<T(!new)>(net: Network<T>, s0: State<T>, run: seq<Label<T>>, delivered: nat)
    requires Initial(net, s0) && ThreadedChain.Legal(net, s0, run)
    requires forall l :: l in run ==> !Interrupts(l)
    requires Steps(run) >= Enough(net, delivered) + Wakeups(run)
    ensures var s := ThreadedChain.After(net, s0, run);
      && |s.queues| == net.Last()
      && |s.queues[net.Last() - 1].consumed| > delivered
      && s.queues[net.Last() - 1].consumed <= Reference(net, net.Last() - 1, |s.queues[0].committed|)
  {
    InitialReachable(net, s0);
    DeliversFrom(net, s0, run, delivered);
  }
}
