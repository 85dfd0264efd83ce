/** ThreadedProcessBase::terminate interrupts the input queue for reading and the output queue for
    writing, then joins the thread. The join returns: the thread ends after a bounded number of
    its own steps, and nothing can block it before. */
module ThreadedTermination {
  import opened ThreadedChain
  import ThreadedTheorems
  import Multiples

  ghost predicate IsStage<T(!new)>(net: Network<T>, t: nat) {
    net.WellFormed() && 0 < t < net.Last()
  }

  /** terminate() has interrupted both queues of stage `t`. */
  ghost predicate Interrupted<T(!new)>(net: Network<T>, s: State<T>, t: nat)
    requires ThreadedChain.Shape(net, s) && IsStage(net, t)
  {
    s.queues[t - 1].stopRead && s.queues[t].stopWrite
  }

  /** Steps needed for the whole blocks among `size` unread elements: per block two begin calls,
      `b` elements to compute and two end calls. */
  ghost function StepsFor(size: nat, b: nat): nat
    requires b > 0
  {
    if size < b then 0 else b + 4 + StepsFor(size - b, b)
  }

  lemma {:induction false} StepsForExact(size: nat, b: nat)
    requires b > 0
    ensures StepsFor(size, b) == (size / b) * (b + 4)
  {
    if size < b {
      Multiples.Unique(size, b, 0, size);
    } else {
      StepsForExact(size - b, b);
      Multiples.OneLessQuotient(size, b);
      Multiples.OneFewer(size / b, b + 4);
    }
  }

  /** The most steps an interrupted stage can still take if nobody commits to its input. */
  ghost function StepsLeft(b: nat, size: nat, pc: Pc): nat
    requires b > 0
  {
    var later := if size >= b then StepsFor(size - b, b) else 0;
    match pc
    case Stopped => 0
    case AtRead => 1 + StepsFor(size, b)
    case AtWrite => b + 4 + later
    case Computing(done) => 3 + (if done <= b then b - done else 0) + later
    case AtEndRead => 2 + later
  }

  ghost function Left<T(!new)>(net: Network<T>, s: State<T>, t: nat): nat
    requires ThreadedChain.Shape(net, s) && IsStage(net, t)
  {
    StepsLeft(net.blocks[t], s.queues[t - 1].ring.size, s.pcs[t])
  }

  /** No data is pushed into the input, and the stage is neither resumed nor started again. */
  ghost predicate LeavesAlone<T(!new)>(net: Network<T>, s: State<T>, t: nat, l: Label<T>)
    requires ThreadedChain.Shape(net, s) && IsStage(net, t)
  {
    match l
    case Step(u) => !(u == t - 1 && s.pcs[u] == Computing(net.blocks[u]))
    case Restart(u) => u != t
    case Outside(k, a) => !(k == t - 1 && a.ResumeRead?) && !(k == t && a.ResumeWrite?)
  }

  /** An interrupted stage never sleeps: it can always step until it has stopped. */
  lemma NeverBlocks<T(!new)>(net: Network<T>, s: State<T>, t: nat)
    requires ThreadedChain.Inv(net, s) && IsStage(net, t) && Interrupted(net, s, t)
    requires !s.pcs[t].Stopped?
    ensures ThreadedChain.Enabled(net, s, Step(t))
  {
    assert QueueOk(net, s, t - 1) && QueueOk(net, s, t);
    ThreadSteps(net, s, t);
  }

  /** How one step of an interrupted stage moves it, and what it does to its input. */
  predicate Moves(b: nat, size: nat, pc: Pc, size': nat, pc': Pc) {
    match pc
    case AtRead => size' == size && if size < b then pc' == Stopped else pc' == AtWrite
    case AtWrite => size' == size >= b && (pc' == Stopped || pc' == Computing(0))
    case Computing(done) =>
      size' == size >= b && done <= b && pc' == if done < b then Computing(done + 1) else AtEndRead
    case AtEndRead => size' + b == size && pc' == AtRead
    case Stopped => false
  }

  lemma OwnStepMoves<T(!new)>(net: Network<T>, s: State<T>, t: nat)
    requires ThreadedChain.Inv(net, s) && IsStage(net, t) && Interrupted(net, s, t)
    requires ThreadedChain.Enabled(net, s, Step(t))
    ensures var s' := ThreadedChain.Next(net, s, Step(t));
      Moves(net.blocks[t], s.queues[t - 1].ring.size, s.pcs[t], s'.queues[t - 1].ring.size, s'.pcs[t])
  {
    assert QueueOk(net, s, t - 1) && QueueOk(net, s, t) && ThreadOk(net, s, t);
    if !s.pcs[t].AtRead? {
      BlockHeld(s.queues[t - 1], net.blocks[t]);
    }
  }

  lemma MovesCount(b: nat, size: nat, pc: Pc, size': nat, pc': Pc)
    requires b > 0 && Moves(b, size, pc, size', pc')
    ensures StepsLeft(b, size', pc') < StepsLeft(b, size, pc)
  {
  }

  lemma OwnStepCounts<T(!new)>(net: Network<T>, s: State<T>, t: nat)
    requires ThreadedChain.Inv(net, s) && IsStage(net, t) && Interrupted(net, s, t)
    requires ThreadedChain.Enabled(net, s, Step(t))
    ensures Left(net, ThreadedChain.Next(net, s, Step(t)), t) < Left(net, s, t)
  {
    OwnStepMoves(net, s, t);
    var s' := ThreadedChain.Next(net, s, Step(t));
    MovesCount(net.blocks[t], s.queues[t - 1].ring.size, s.pcs[t], s'.queues[t - 1].ring.size, s'.pcs[t]);
  }

  lemma OtherStepsDoNot<T(!new)>(net: Network<T>, s: State<T>, t: nat, l: Label<T>)
    requires ThreadedChain.Inv(net, s) && IsStage(net, t)
    requires ThreadedChain.Enabled(net, s, l) && l != Step(t) && LeavesAlone(net, s, t, l)
    ensures Left(net, ThreadedChain.Next(net, s, l), t) == Left(net, s, t)
  {
    assert QueueOk(net, s, t - 1);
  }

  lemma StaysInterrupted<T(!new)>(net: Network<T>, s: State<T>, t: nat, l: Label<T>)
    requires ThreadedChain.Inv(net, s) && IsStage(net, t) && Interrupted(net, s, t)
    requires ThreadedChain.Enabled(net, s, l) && LeavesAlone(net, s, t, l)
    ensures Interrupted(net, ThreadedChain.Next(net, s, l), t)
  {
  }

  ghost predicate Quiet<T(!new)>(net: Network<T>, s: State<T>, t: nat, run: seq<Label<T>>)
    requires IsStage(net, t) && ThreadedChain.Legal(net, s, run)
    decreases |run|
  {
    run == [] || (LeavesAlone(net, s, t, run[0]) && Quiet(net, ThreadedChain.Next(net, s, run[0]), t, run[1..]))
  }

  function OwnSteps<T>(run: seq<Label<T>>, t: nat): nat {
    if run == [] then 0 else (if run[0].Step? && run[0].thread == t then 1 else 0) + OwnSteps(run[1..], t)
  }

  /** terminate() returns: in every continuation in which nobody pushes into the input, the
      interrupted stage takes at most the steps of `size / blocksize` whole iterations and one
      last begin call (plus what it had in hand), and while it has not stopped it can step. */
  lemma {:induction false} JoinReturns<T(!new)>(net: Network<T>, s: State<T>, t: nat, run: seq<Label<T>>)
    requires ThreadedChain.Inv(net, s) && IsStage(net, t) && Interrupted(net, s, t)
    requires ThreadedChain.Legal(net, s, run) && Quiet(net, s, t, run)
    ensures var s' := ThreadedChain.After(net, s, run);
      && ThreadedChain.Inv(net, s')
      && OwnSteps(run, t) + Left(net, s', t) <= Left(net, s, t)
      && (s'.pcs[t].Stopped? || ThreadedChain.Enabled(net, s', Step(t)))
    decreases |run|
  {
    if run == [] {
      if !s.pcs[t].Stopped? { NeverBlocks(net, s, t); }
    } else {
      var next := ThreadedChain.Next(net, s, run[0]);
      ThreadedTheorems.LabelKeepsInv(net, s, run[0]);
      StaysInterrupted(net, s, t, run[0]);
      if run[0] == Step(t) { OwnStepCounts(net, s, t); } else { OtherStepsDoNot(net, s, t, run[0]); }
      JoinReturns(net, next, t, run[1..]);
    }
  }

  /** From the top of its loop a stage makes at most size / blocksize iterations. */
  lemma IterationBound<T(!new)>(net: Network<T>, s: State<T>, t: nat)
    requires ThreadedChain.Inv(net, s) && IsStage(net, t) && s.pcs[t].AtRead?
    ensures Left(net, s, t) == (s.queues[t - 1].ring.size / net.blocks[t]) * (net.blocks[t] + 4) + 1
  {
    StepsForExact(s.queues[t - 1].ring.size, net.blocks[t]);
  }
}
