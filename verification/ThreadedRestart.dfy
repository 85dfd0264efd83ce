/** The whole life of a stage: terminate() interrupts its two queues and joins its thread, which
    ends; once the queues are resumed and attached again the thread starts anew, and the chain
    delivers as before. */
module ThreadedRestart {
  import opened QueueProtocol
  import opened ThreadedChain
  import opened ThreadedProgress
  import opened ThreadedTermination
  import opened ThreadedTheorems

  /** What terminate() does to the two queues of stage `t` before it joins the thread. */
  function Terminate<T>(t: nat): seq<Label<T>>
    requires t > 0
  {
    [Outside(t - 1, Action<T>.InterruptRead), Outside(t, Action<T>.InterruptWrite)]
  }

  /** The queues are resumed and attached again. */
  function Attach<T>(t: nat): seq<Label<T>>
    requires t > 0
  {
    [Outside(t - 1, Action<T>.ResumeRead), Outside(t, Action<T>.ResumeWrite), Restart(t)]
  }

  /** Nobody but stage `t` has been told to stop or has ended. */
  ghost predicate CalmBut<T(!new)>(net: Network<T>, s: State<T>, t: nat) {
    && Shape(net, s)
    && (forall k: nat :: k < net.Last() ==>
         (s.queues[k].stopRead ==> k + 1 == t) && (s.queues[k].stopWrite ==> k == t))
    && (forall u: nat :: u <= net.Last() && u != t ==> !s.pcs[u].Stopped?)
  }

  lemma RunOfTwo<T(!new)>(net: Network<T>, s: State<T>, first: Label<T>, second: Label<T>)
    requires ThreadedChain.Enabled(net, s, first)
    requires ThreadedChain.Enabled(net, ThreadedChain.Next(net, s, first), second)
    ensures ThreadedChain.Legal(net, s, [first, second])
    ensures ThreadedChain.After(net, s, [first, second])
         == ThreadedChain.Next(net, ThreadedChain.Next(net, s, first), second)
  {
    hide ThreadedChain.Enabled, ThreadedChain.Next;
    var s1 := ThreadedChain.Next(net, s, first);
    assert [first, second][1..] == [second] && [second][1..] == [];
    var s2 := ThreadedChain.Next(net, s1, second);
    assert ThreadedChain.Legal(net, s2, []) && ThreadedChain.After(net, s2, []) == s2;
    assert ThreadedChain.Legal(net, s1, [second]) && ThreadedChain.After(net, s1, [second]) == s2;
  }

  /** An interrupt, resume or spurious wakeup changes nothing but its queue, and is always possible. */
  lemma OutsideStep<T(!new)>(net: Network<T>, s: State<T>, k: nat, a: Action<T>)
    requires ThreadedChain.Inv(net, s) && k < net.Last()
    requires a.InterruptRead? || a.InterruptWrite? || a.ResumeRead? || a.ResumeWrite?
    ensures ThreadedChain.Enabled(net, s, Outside(k, a))
    ensures var s', q := ThreadedChain.Next(net, s, Outside(k, a)), s.queues[k];
      && ThreadedChain.Inv(net, s') && s'.pcs == s.pcs
      && s'.queues == s.queues[k := s'.queues[k]]
      && s'.queues[k].ring == q.ring
      && s'.queues[k].stopRead == (a.InterruptRead? || (q.stopRead && !a.ResumeRead?))
      && s'.queues[k].stopWrite == (a.InterruptWrite? || (q.stopWrite && !a.ResumeWrite?))
  {
    assert QueueOk(net, s, k);
    LabelKeepsInv(net, s, Outside(k, a));
  }

  /** The interrupts are possible in every state, and after them the stage is interrupted. */
  lemma TerminateInterrupts<T(!new)>(net: Network<T>, s: State<T>, t: nat)
    requires ThreadedChain.Inv(net, s) && IsStage(net, t)
    ensures ThreadedChain.Legal(net, s, Terminate<T>(t))
    ensures var s' := ThreadedChain.After(net, s, Terminate<T>(t));
      && ThreadedChain.Inv(net, s') && Interrupted(net, s', t) && s'.pcs == s.pcs
      && Left(net, s', t) == Left(net, s, t)
      && (Calm(net, s) ==> CalmBut(net, s', t))
  {
    var first, second := Outside(t - 1, Action<T>.InterruptRead), Outside(t, Action<T>.InterruptWrite);
    OutsideStep(net, s, t - 1, Action<T>.InterruptRead);
    var s1 := ThreadedChain.Next(net, s, first);
    OutsideStep(net, s1, t, Action<T>.InterruptWrite);
    RunOfTwo(net, s, first, second);
    hide ThreadedChain.Enabled, ThreadedChain.Next, ThreadedChain.Legal, ThreadedChain.After, ThreadedChain.Inv;
  }

  lemma NothingLeft<T(!new)>(net: Network<T>, s: State<T>, t: nat)
    requires Shape(net, s) && IsStage(net, t)
    ensures Left(net, s, t) == 0 <==> s.pcs[t].Stopped?
  {
  }

  /** terminate() returns from every reachable state: whatever the other threads do, as long as
      nobody pushes into the input and nobody resumes, the thread of the stage can step until it has
      ended, which it has after a number of steps known beforehand. */
  lemma TerminateReturns<T(!new)>(net: Network<T>, s: State<T>, t: nat, run: seq<Label<T>>)
    requires Reachable(net, s) && IsStage(net, t)
    requires ThreadedChain.Legal(net, s, Terminate<T>(t))
    requires ThreadedChain.Legal(net, ThreadedChain.After(net, s, Terminate<T>(t)), run)
    requires Quiet(net, ThreadedChain.After(net, s, Terminate<T>(t)), t, run)
    ensures var s' := ThreadedChain.After(net, ThreadedChain.After(net, s, Terminate<T>(t)), run);
      && Shape(net, s) && OwnSteps(run, t) <= Left(net, s, t)
      && |s'.pcs| == net.Last() + 1
      && (s'.pcs[t].Stopped? || ThreadedChain.Enabled(net, s', Step(t)))
      && (OwnSteps(run, t) == Left(net, s, t) ==> s'.pcs[t].Stopped?)
  {
    ReachableInv(net, s);
    TerminateInterrupts(net, s, t);
    var s1 := ThreadedChain.After(net, s, Terminate<T>(t));
    JoinReturns(net, s1, t, run);
    NothingLeft(net, ThreadedChain.After(net, s1, run), t);
  }

  lemma LabelKeepsCalmBut<T(!new)>(net: Network<T>, s: State<T>, t: nat, l: Label<T>)
    requires CalmBut(net, s, t) && ThreadedChain.Enabled(net, s, l) && !Interrupts(l)
    ensures CalmBut(net, ThreadedChain.Next(net, s, l), t)
  {
  }

  lemma {:induction false} RunKeepsCalmBut<T(!new)>(net: Network<T>, s: State<T>, t: nat, run: seq<Label<T>>)
    requires CalmBut(net, s, t) && ThreadedChain.Legal(net, s, run)
    requires forall l :: l in run ==> !Interrupts(l)
    ensures CalmBut(net, ThreadedChain.After(net, s, run), t)
    decreases |run|
  {
    if run != [] {
      assert run[0] in run;
      LabelKeepsCalmBut(net, s, t, run[0]);
      RunKeepsCalmBut(net, ThreadedChain.Next(net, s, run[0]), t, run[1..]);
    }
  }

  /** Once its thread has ended, resuming its queues and attaching them again is possible and leaves
      the chain calm. */
  lemma AttachCalms<T(!new)>(net: Network<T>, s: State<T>, t: nat)
    requires ThreadedChain.Inv(net, s) && IsStage(net, t) && CalmBut(net, s, t) && s.pcs[t].Stopped?
    ensures ThreadedChain.Legal(net, s, Attach<T>(t)) && Calm(net, ThreadedChain.After(net, s, Attach<T>(t)))
  {
    var first, second := Outside(t - 1, Action<T>.ResumeRead), Outside(t, Action<T>.ResumeWrite);
    OutsideStep(net, s, t - 1, Action<T>.ResumeRead);
    var s1 := ThreadedChain.Next(net, s, first);
    OutsideStep(net, s1, t, Action<T>.ResumeWrite);
    RunOfTwo(net, s, first, second);
    var s2 := ThreadedChain.Next(net, s1, second);
    RestartStep(net, s2, t);
    RunsJoin(net, s, [first, second], [Restart(t)]);
    assert [first, second] + [Restart(t)] == Attach<T>(t);
    hide ThreadedChain.Enabled, ThreadedChain.Next, ThreadedChain.Legal, ThreadedChain.After, ThreadedChain.Inv;
  }

  lemma RestartStep<T(!new)>(net: Network<T>, s: State<T>, t: nat)
    requires Shape(net, s) && t <= net.Last() && s.pcs[t].Stopped?
    ensures ThreadedChain.Legal(net, s, [Restart(t)])
    ensures var s' := ThreadedChain.After(net, s, [Restart(t)]);
      Shape(net, s') && s'.queues == s.queues && s'.pcs == s.pcs[t := s'.pcs[t]] && !s'.pcs[t].Stopped?
  {
    var run: seq<Label<T>> := [Restart(t)];
    assert run[1..] == [];
  }

  /** terminate() a stage of a calm chain, let the others run until its thread has ended, attach it
      again, and let all of them run: with enough steps the sink has been given any number of
      elements, the first ones that the chain computes from the source. */
  lemma RestartDelivers<T(!new)>(net: Network<T>, s: State<T>, t: nat, ending: seq<Label<T>>, run: seq<Label<T>>,
      delivered: nat)
    requires Reachable(net, s) && Calm(net, s) && IsStage(net, t)
    requires forall l :: l in ending ==> !Interrupts(l)
    requires forall l :: l in run ==> !Interrupts(l)
    requires Steps(run) >= Enough(net, delivered) + Wakeups(run)
    ensures ThreadedChain.Legal(net, s, Terminate<T>(t))
    ensures var s1 := ThreadedChain.After(net, s, Terminate<T>(t));
      ThreadedChain.Legal(net, s1, ending) ==>
        var s2 := ThreadedChain.After(net, s1, ending);
        |s2.pcs| == net.Last() + 1 && (s2.pcs[t].Stopped? ==>
          && ThreadedChain.Legal(net, s2, Attach<T>(t))
          && var s3 := ThreadedChain.After(net, s2, Attach<T>(t));
             ThreadedChain.Legal(net, s3, run) ==>
               var s4 := ThreadedChain.After(net, s3, run);
               && |s4.queues| == net.Last() && |s4.queues[net.Last() - 1].consumed| > delivered
               && s4.queues[net.Last() - 1].consumed <= Reference(net, net.Last() - 1, |s4.queues[0].committed|))
  {
    ReachableInv(net, s);
    TerminateInterrupts(net, s, t);
    var s1 := ThreadedChain.After(net, s, Terminate<T>(t));
    ReachableOn(net, s, Terminate<T>(t));
    if ThreadedChain.Legal(net, s1, ending) {
      var s2 := ThreadedChain.After(net, s1, ending);
      RunKeepsCalmBut(net, s1, t, ending);
      ReachableOn(net, s1, ending);
      ReachableInv(net, s2);
      if s2.pcs[t].Stopped? {
        AttachCalms(net, s2, t);
        var s3 := ThreadedChain.After(net, s2, Attach<T>(t));
        ReachableOn(net, s2, Attach<T>(t));
        if ThreadedChain.Legal(net, s3, run) { DeliversFrom(net, s3, run, delivered); }
      }
    }
  }
}
