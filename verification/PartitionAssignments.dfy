/** What the weighted partitioner is asked: give each function at most one partition it may run
    in, no partition twice, only available partitions, and the highest total score. */
module PartitionAssignments {
  import opened BitMasks

  datatype Choice = NotPicked | In(partition: nat)

  ghost predicate Allowed(masks: seq<bv32>, available: bv32, a: seq<Choice>) {
    && |a| == |masks|
    && (forall i: nat :: i < |a| && a[i].In? ==>
          a[i].partition < 32 && HasBit(available, a[i].partition) && HasBit(masks[i], a[i].partition))
  }

  ghost predicate Distinct(a: seq<Choice>) {
    forall i: nat, j: nat :: i < j < |a| && a[i].In? && a[j].In? ==> a[i].partition != a[j].partition
  }

  /** Assignments of distinct available partitions to functions that allow them. */
  ghost predicate Valid(masks: seq<bv32>, available: bv32, a: seq<Choice>) {
    Allowed(masks, available, a) && Distinct(a)
  }

  function Total(scores: seq<nat>, a: seq<Choice>): nat
    requires |a| <= |scores|
  {
    if a == [] then 0 else (if a[0].In? then scores[0] else 0) + Total(scores[1..], a[1..])
  }

  ghost predicate Attained(masks: seq<bv32>, scores: seq<nat>, available: bv32, total: nat)
    requires |masks| <= |scores|
  {
    exists a: seq<Choice> :: Valid(masks, available, a) && Total(scores, a) == total
  }

  /** `best` is the maximum total over all assignments. */
  ghost predicate IsMaximum(masks: seq<bv32>, scores: seq<nat>, available: bv32, best: nat)
    requires |masks| <= |scores|
  {
    && Attained(masks, scores, available, best)
    && forall a: seq<Choice> :: Valid(masks, available, a) ==> Total(scores, a) <= best
  }

  /** Which elements satisfy `p`. */
  function Flags<M>(ms: seq<M>, p: M -> bool): (flags: seq<bool>)
    ensures |flags| == |ms|
    ensures forall i: nat :: i < |ms| ==> flags[i] == p(ms[i])
  {
    seq(|ms|, i requires 0 <= i < |ms| => p(ms[i]))
  }

  function Meets(available: bv32): bv32 -> bool {
    (mask: bv32) => Overlap(mask, available)
  }

  function SumOf(flags: seq<bool>, scores: seq<nat>): nat
    requires |flags| <= |scores|
  {
    if flags == [] then 0 else (if flags[0] then scores[0] else 0) + SumOf(flags[1..], scores[1..])
  }

  /** The pruning bound in unbounded arithmetic: the scores of all eligible functions. */
  function Bound(masks: seq<bv32>, scores: seq<nat>, available: bv32): nat
    requires |masks| <= |scores|
  {
    SumOf(Flags(masks, Meets(available)), scores)
  }

  // ---- one function at a time ----

  lemma SkipFirst(masks: seq<bv32>, available: bv32, a: seq<Choice>)
    requires masks != [] && a != [] && a[0].NotPicked?
    ensures Valid(masks, available, a) <==> Valid(masks[1..], available, a[1..])
  {
    if Valid(masks[1..], available, a[1..]) {
      assert forall i: nat :: 0 < i < |a| ==> a[i] == a[1..][i - 1] && masks[i] == masks[1..][i - 1];
    }
  }

  lemma RestAvoidsPicked(masks: seq<bv32>, available: bv32, a: seq<Choice>, i: nat)
    requires masks != [] && a != [] && a[0].In? && Valid(masks, available, a)
    requires 0 < i < |a| && a[i].In?
    ensures a[0].partition < 32 && a[i].partition < 32
    ensures HasBit(Without(available, Bit(a[0].partition)), a[i].partition)
  {
    KeepsOther(available, a[0].partition, a[i].partition);
  }

  /** After picking partition `k` the rest is an assignment without `k`. */
  lemma PickedRest(masks: seq<bv32>, available: bv32, a: seq<Choice>)
    requires masks != [] && a != [] && a[0].In? && Valid(masks, available, a)
    ensures a[0].partition < 32
    ensures Valid(masks[1..], Without(available, Bit(a[0].partition)), a[1..])
  {
    var without, rest := Without(available, Bit(a[0].partition)), a[1..];
    forall i: nat | i < |rest| && rest[i].In?
      ensures rest[i].partition < 32 && HasBit(without, rest[i].partition) && HasBit(masks[1..][i], rest[i].partition)
    {
      RestAvoidsPicked(masks, available, a, i + 1);
    }
  }

  lemma WithoutImplies(available: bv32, k: nat, j: nat)
    requires k < 32 && j < 32 && HasBit(Without(available, Bit(k)), j)
    ensures j != k && HasBit(available, j)
  {
    if j == k { ClearsOwn(available, k); } else { KeepsOther(available, k, j); }
  }

  /** An assignment without `k`, with `k` put in front. */
  lemma PickInFront(masks: seq<bv32>, available: bv32, k: nat, rest: seq<Choice>)
    requires masks != [] && k < 32 && HasBit(available, k) && HasBit(masks[0], k)
    requires Valid(masks[1..], Without(available, Bit(k)), rest)
    ensures Valid(masks, available, [In(k)] + rest)
  {
    var a := [In(k)] + rest;
    forall i: nat | 0 < i < |a| && a[i].In?
      ensures a[i].partition < 32 && a[i].partition != k
      ensures HasBit(available, a[i].partition) && HasBit(masks[i], a[i].partition)
    {
      assert a[i] == rest[i - 1] && masks[i] == masks[1..][i - 1];
      WithoutImplies(available, k, a[i].partition);
    }
    assert forall i: nat, j: nat :: 0 < i < j < |a| ==> a[i] == rest[i - 1] && a[j] == rest[j - 1];
  }

  lemma {:induction false} SumOfMonotone(flags: seq<bool>, more: seq<bool>, scores: seq<nat>)
    requires |flags| == |more| <= |scores|
    requires forall i: nat :: i < |flags| && flags[i] ==> more[i]
    ensures SumOf(flags, scores) <= SumOf(more, scores)
  {
    if flags != [] {
      assert forall i: nat :: i < |flags| - 1 ==> flags[1..][i] == flags[i + 1] && more[1..][i] == more[i + 1];
      SumOfMonotone(flags[1..], more[1..], scores[1..]);
    }
  }

  lemma BoundShrinks(masks: seq<bv32>, scores: seq<nat>, available: bv32, bit: bv32)
    requires |masks| <= |scores|
    ensures Bound(masks, scores, Without(available, bit)) <= Bound(masks, scores, available)
  {
    var flags, more := Flags(masks, Meets(Without(available, bit))), Flags(masks, Meets(available));
    forall i: nat | i < |masks| && flags[i] ensures more[i] {
      WithoutShrinks(masks[i], available, bit);
    }
    SumOfMonotone(flags, more, scores);
  }

  function Picked(a: seq<Choice>): seq<bool> {
    Flags(a, (c: Choice) => c.In?)
  }

  lemma {:induction false} TotalIsSum(scores: seq<nat>, a: seq<Choice>)
    requires |a| <= |scores|
    ensures Total(scores, a) == SumOf(Picked(a), scores)
  {
    if a != [] {
      assert Picked(a)[1..] == Picked(a[1..]);
      TotalIsSum(scores[1..], a[1..]);
    }
  }

  /** calc_max_attainable_score never underestimates. */
  lemma NeverUnderestimates(masks: seq<bv32>, scores: seq<nat>, available: bv32, a: seq<Choice>)
    requires |masks| <= |scores| && Valid(masks, available, a)
    ensures Total(scores, a) <= Bound(masks, scores, available)
  {
    forall i: nat | i < |a| && Picked(a)[i] ensures Flags(masks, Meets(available))[i] {
      SharedBit(masks[i], available, a[i].partition);
    }
    SumOfMonotone(Picked(a), Flags(masks, Meets(available)), scores);
    TotalIsSum(scores, a);
  }

  /** The bound of the functions after the first, when the first may or may not be eligible. */
  lemma BoundSplits(masks: seq<bv32>, scores: seq<nat>, available: bv32)
    requires masks != [] && |masks| <= |scores|
    ensures Bound(masks, scores, available)
         == (if Overlap(masks[0], available) then scores[0] else 0) + Bound(masks[1..], scores[1..], available)
  {
    FlagsTail(masks, Meets(available));
    SumOfSplits(Flags(masks, Meets(available)), scores);
  }

  lemma FlagsTail<M>(ms: seq<M>, p: M -> bool)
    requires ms != []
    ensures Flags(ms, p)[1..] == Flags(ms[1..], p)
  {
  }

  lemma SumOfSplits(flags: seq<bool>, scores: seq<nat>)
    requires flags != [] && |flags| <= |scores|
    ensures SumOf(flags, scores) == (if flags[0] then scores[0] else 0) + SumOf(flags[1..], scores[1..])
  {
  }

  // ---- exhaustive search ----

  function Max(x: nat, y: nat): nat { if x >= y then x else y }

  /** The best total when every function tries every partition: the search without pruning. */
  function Best(masks: seq<bv32>, scores: seq<nat>, available: bv32): nat
    requires |masks| <= |scores|
    decreases |masks|, 1, 0
  {
    if masks == [] then 0
    else Max(BestPicks(masks, scores, available, 32), Best(masks[1..], scores[1..], available))
  }

  /** The best total with the first function in a partition below `index`, or 0. */
  function BestPicks(masks: seq<bv32>, scores: seq<nat>, available: bv32, index: nat): nat
    requires masks != [] && |masks| <= |scores| && index <= 32
    decreases |masks|, 0, index
  {
    if index == 0 then 0
    else
      var k := index - 1;
      var before := BestPicks(masks, scores, available, k);
      if HasBit(available, k) && HasBit(masks[0], k) then
        Max(before, scores[0] + Best(masks[1..], scores[1..], Without(available, Bit(k))))
      else before
  }

  /** The best total that puts the first function in partition `k`, if it may run there. */
  function PickScore(masks: seq<bv32>, scores: seq<nat>, available: bv32, k: nat): nat
    requires masks != [] && |masks| <= |scores| && k < 32
  {
    if HasBit(available, k) && HasBit(masks[0], k)
    then scores[0] + Best(masks[1..], scores[1..], Without(available, Bit(k)))
    else 0
  }

  lemma AfterPick(masks: seq<bv32>, scores: seq<nat>, available: bv32, k: nat)
    requires masks != [] && |masks| <= |scores| && k < 32
    ensures BestPicks(masks, scores, available, k + 1)
         == Max(BestPicks(masks, scores, available, k), PickScore(masks, scores, available, k))
  {
  }

  lemma AttainedByPick(masks: seq<bv32>, scores: seq<nat>, available: bv32, k: nat, rest: nat)
    requires masks != [] && |masks| <= |scores| && k < 32 && HasBit(available, k) && HasBit(masks[0], k)
    requires Attained(masks[1..], scores[1..], Without(available, Bit(k)), rest)
    ensures Attained(masks, scores, available, scores[0] + rest)
  {
    var b: seq<Choice> :|
      Valid(masks[1..], Without(available, Bit(k)), b) && Total(scores[1..], b) == rest;
    var a := [In(k)] + b;
    assert a[1..] == b;
    PickInFront(masks, available, k, b);
    assert Total(scores, a) == scores[0] + rest;
  }

  lemma AttainedBySkip(masks: seq<bv32>, scores: seq<nat>, available: bv32, rest: nat)
    requires masks != [] && |masks| <= |scores|
    requires Attained(masks[1..], scores[1..], available, rest)
    ensures Attained(masks, scores, available, rest)
  {
    var b: seq<Choice> :| Valid(masks[1..], available, b) && Total(scores[1..], b) == rest;
    var a := [NotPicked] + b;
    assert a[1..] == b;
    SkipFirst(masks, available, a);
    assert Total(scores, a) == rest;
  }

  lemma {:induction false} NothingPicked(masks: seq<bv32>, scores: seq<nat>, available: bv32)
    requires |masks| <= |scores|
    ensures Attained(masks, scores, available, 0)
  {
    if masks == [] {
      assert Valid(masks, available, []) && Total(scores, []) == 0;
    } else {
      NothingPicked(masks[1..], scores[1..], available);
      AttainedBySkip(masks, scores, available, 0);
    }
  }

  lemma {:induction false} BestIsAttained(masks: seq<bv32>, scores: seq<nat>, available: bv32)
    requires |masks| <= |scores|
    ensures Attained(masks, scores, available, Best(masks, scores, available))
    decreases |masks|, 1, 0
  {
    if masks == [] {
      NothingPicked(masks, scores, available);
    } else {
      BestPicksAttained(masks, scores, available, 32);
      BestIsAttained(masks[1..], scores[1..], available);
      AttainedBySkip(masks, scores, available, Best(masks[1..], scores[1..], available));
    }
  }

  lemma {:induction false} BestPicksAttained(masks: seq<bv32>, scores: seq<nat>, available: bv32, index: nat)
    requires masks != [] && |masks| <= |scores| && index <= 32
    ensures Attained(masks, scores, available, BestPicks(masks, scores, available, index))
    decreases |masks|, 0, index
  {
    if index == 0 {
      NothingPicked(masks, scores, available);
    } else {
      var k := index - 1;
      BestPicksAttained(masks, scores, available, k);
      if HasBit(available, k) && HasBit(masks[0], k) {
        BestIsAttained(masks[1..], scores[1..], Without(available, Bit(k)));
        AttainedByPick(masks, scores, available, k, Best(masks[1..], scores[1..], Without(available, Bit(k))));
      }
    }
  }

  lemma {:induction false} BestPicksCovers(masks: seq<bv32>, scores: seq<nat>, available: bv32, index: nat, k: nat)
    requires masks != [] && |masks| <= |scores| && k < index <= 32
    requires HasBit(available, k) && HasBit(masks[0], k)
    ensures BestPicks(masks, scores, available, index)
         >= scores[0] + Best(masks[1..], scores[1..], Without(available, Bit(k)))
    decreases index
  {
    if k < index - 1 {
      BestPicksCovers(masks, scores, available, index - 1, k);
    }
  }

  lemma {:induction false} NothingBeatsBest(masks: seq<bv32>, scores: seq<nat>, available: bv32, a: seq<Choice>)
    requires |masks| <= |scores| && Valid(masks, available, a)
    ensures Total(scores, a) <= Best(masks, scores, available)
    decreases |masks|
  {
    if a != [] {
      if a[0].In? {
        PickedRest(masks, available, a);
        BestPicksCovers(masks, scores, available, 32, a[0].partition);
        NothingBeatsBest(masks[1..], scores[1..], Without(available, Bit(a[0].partition)), a[1..]);
      } else {
        SkipFirst(masks, available, a);
        NothingBeatsBest(masks[1..], scores[1..], available, a[1..]);
      }
    }
  }

  /** Exhaustive search finds the maximum over all assignments. */
  lemma BestIsMaximum(masks: seq<bv32>, scores: seq<nat>, available: bv32)
    requires |masks| <= |scores|
    ensures IsMaximum(masks, scores, available, Best(masks, scores, available))
  {
    BestIsAttained(masks, scores, available);
    forall a: seq<Choice> | Valid(masks, available, a)
      ensures Total(scores, a) <= Best(masks, scores, available)
    {
      NothingBeatsBest(masks, scores, available, a);
    }
  }

  /** No search can beat the bound, so reaching it ends the search. */
  lemma BestWithinBound(masks: seq<bv32>, scores: seq<nat>, available: bv32)
    requires |masks| <= |scores|
    ensures Best(masks, scores, available) <= Bound(masks, scores, available)
  {
    BestIsAttained(masks, scores, available);
    var a: seq<Choice> :| Valid(masks, available, a) && Total(scores, a) == Best(masks, scores, available);
    NeverUnderestimates(masks, scores, available, a);
  }

  /** Above the highest bit of the mask there is nothing to pick. */
  lemma {:induction false} ScanComplete(masks: seq<bv32>, scores: seq<nat>, available: bv32, index: nat, upTo: nat)
    requires masks != [] && |masks| <= |scores| && index <= upTo <= 32
    requires !MoreBits(available, Bit(index))
    ensures BestPicks(masks, scores, available, upTo) == BestPicks(masks, scores, available, index)
    decreases upTo
  {
    if index < upTo {
      NoHigherBits(available, index, upTo - 1);
      ScanComplete(masks, scores, available, index, upTo - 1);
    }
  }

  lemma {:induction false} BestPicksMonotone(masks: seq<bv32>, scores: seq<nat>, available: bv32, index: nat, upTo: nat)
    requires masks != [] && |masks| <= |scores| && index <= upTo <= 32
    ensures BestPicks(masks, scores, available, index) <= BestPicks(masks, scores, available, upTo)
    decreases upTo
  {
    if index < upTo {
      BestPicksMonotone(masks, scores, available, index, upTo - 1);
    }
  }

  /** Nothing can be scored exactly when the bound is zero. */
  lemma {:induction false} PositiveBoundScores(masks: seq<bv32>, scores: seq<nat>, available: bv32)
    returns (total: nat)
    requires |masks| <= |scores| && Bound(masks, scores, available) > 0
    ensures total > 0 && Attained(masks, scores, available, total)
  {
    BoundSplits(masks, scores, available);
    if Overlap(masks[0], available) && scores[0] > 0 {
      var k := CommonBit(masks[0], available);
      NothingPicked(masks[1..], scores[1..], Without(available, Bit(k)));
      AttainedByPick(masks, scores, available, k, 0);
      total := scores[0];
    } else {
      total := PositiveBoundScores(masks[1..], scores[1..], available);
      AttainedBySkip(masks, scores, available, total);
    }
  }

  lemma ZeroIsMaximum(masks: seq<bv32>, scores: seq<nat>, available: bv32)
    requires |masks| <= |scores|
    ensures IsMaximum(masks, scores, available, 0) <==> Bound(masks, scores, available) == 0
  {
    NothingPicked(masks, scores, available);
    if Bound(masks, scores, available) == 0 {
      forall a: seq<Choice> | Valid(masks, available, a) ensures Total(scores, a) <= 0 {
        NeverUnderestimates(masks, scores, available, a);
      }
    } else {
      var total := PositiveBoundScores(masks, scores, available);
    }
  }
}
