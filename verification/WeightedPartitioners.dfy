/** WeightedPartitioner: branch and bound with 32-bit masks and 32-bit wrapping scores. */
module WeightedPartitioners {
  import opened BitMasks
  import opened PartitionAssignments

  const WORD: nat := 0x1_0000_0000

  /** unsigned int */
  type Word = x: nat | x < 0x1_0000_0000

  /** The bound leaves room for the branch that picks partition `k`. */
  lemma PickFits(masks: seq<bv32>, scores: seq<nat>, available: bv32, k: nat)
    requires masks != [] && |masks| <= |scores| && k < 32
    requires HasBit(available, k) && HasBit(masks[0], k)
    ensures scores[0] + Bound(masks[1..], scores[1..], Without(available, Bit(k)))
         <= Bound(masks, scores, available)
  {
    SharedBit(masks[0], available, k);
    BoundSplits(masks, scores, available);
    BoundShrinks(masks[1..], scores[1..], available, Bit(k));
  }

  /** The scan over the partitions may stop at `k` when the mask has no later bit, or when the
      bound is reached: then neither a later partition nor skipping the function does better. */
  lemma ScanMayStop(masks: seq<bv32>, scores: seq<nat>, available: bv32, k: nat)
    requires masks != [] && |masks| <= |scores| && k <= 32
    requires !MoreBits(available, Bit(k)) || BestPicks(masks, scores, available, k) >= Bound(masks, scores, available)
    ensures BestPicks(masks, scores, available, k)
         == if BestPicks(masks, scores, available, k) < Bound(masks, scores, available)
            then BestPicks(masks, scores, available, 32) else Best(masks, scores, available)
  {
    BestWithinBound(masks, scores, available);
    BestPicksMonotone(masks, scores, available, k, 32);
    if !MoreBits(available, Bit(k)) {
      ScanComplete(masks, scores, available, k, 32);
    }
  }

  // ---- the pruned search as a function ----

  /** What recurse returns, for every problem: wrapping scores, a wrapping bound, and no attempt once
      the bound is reached. */
  function Search(masks: seq<bv32>, scores: seq<nat>, mask: bv32, score: Word): (best: Word)
    requires |masks| <= |scores|
    ensures best >= score
    decreases |masks|, 34
  {
    if masks == [] then score
    else
      var attainable := Bound(masks, scores, mask) % WORD;
      var best := Scan(masks, scores, mask, score, attainable, 0, score);
      if best - score < attainable then Max(best, Search(masks[1..], scores[1..], mask, score)) else best
  }

  /** The best of `best` and what the partitions from `index` on give the first function. */
  function Scan(masks: seq<bv32>, scores: seq<nat>, mask: bv32, score: Word, attainable: nat, index: nat, best: Word)
    : (r: Word)
    requires masks != [] && |masks| <= |scores| && index <= 32 && best >= score
    ensures r >= best
    decreases |masks|, 33 - index
  {
    if index < 32 && MoreBits(mask, Bit(index)) && best - score < attainable then
      Scan(masks, scores, mask, score, attainable, index + 1, Tried(masks, scores, mask, score, index, best))
    else best
  }

  /** The better of `best` and what partition `index` gives the first function. */
  function Tried(masks: seq<bv32>, scores: seq<nat>, mask: bv32, score: Word, index: nat, best: Word): (r: Word)
    requires masks != [] && |masks| <= |scores| && index < 32
    ensures r >= best
    decreases |masks|, 0
  {
    if Overlap(mask, Bit(index)) && Overlap(masks[0], Bit(index)) then
      Max(best, Search(masks[1..], scores[1..], Without(mask, Bit(index)), (score + scores[0]) % WORD))
    else best
  }

  lemma ScanGoesOn(masks: seq<bv32>, scores: seq<nat>, mask: bv32, score: Word, attainable: nat, index: nat,
      best: Word)
    requires masks != [] && |masks| <= |scores| && index <= 32 && best >= score
    requires MoreBits(mask, Bit(index)) && best - score < attainable
    ensures index < 32
    ensures Scan(masks, scores, mask, score, attainable, index, best)
         == Scan(masks, scores, mask, score, attainable, index + 1, Tried(masks, scores, mask, score, index, best))
  {
    hide Tried, MoreBits;
    MoreBitsLeft(mask, index);
  }

  lemma ScanEnds(masks: seq<bv32>, scores: seq<nat>, mask: bv32, score: Word, attainable: nat, index: nat, best: Word)
    requires masks != [] && |masks| <= |scores| && index <= 32 && best >= score
    requires !(MoreBits(mask, Bit(index)) && best - score < attainable)
    ensures Scan(masks, scores, mask, score, attainable, index, best) == best
  {
    hide Tried, MoreBits, Bit;
  }

  /** What search and exhaustive search come to, one function taken off. */
  lemma SearchStep(masks: seq<bv32>, scores: seq<nat>, mask: bv32, score: Word)
    requires |masks| <= |scores|
    ensures masks == [] ==> Search(masks, scores, mask, score) == score && Best(masks, scores, mask) == 0
    ensures masks != [] ==>
      var attainable := Bound(masks, scores, mask) % WORD;
      var best := Scan(masks, scores, mask, score, attainable, 0, score);
      && BestPicks(masks, scores, mask, 0) == 0
      && Best(masks, scores, mask) == Max(BestPicks(masks, scores, mask, 32), Best(masks[1..], scores[1..], mask))
      && Search(masks, scores, mask, score)
         == if best - score < attainable then Max(best, Search(masks[1..], scores[1..], mask, score)) else best
  {
    hide Bound, Scan;
  }

  /** The pruned search equals exhaustive search whenever score and bound fit in 32 bits. */
  lemma {:induction false} SearchIsBest(masks: seq<bv32>, scores: seq<nat>, mask: bv32, score: Word)
    requires |masks| <= |scores| && score + Bound(masks, scores, mask) < WORD
    ensures Search(masks, scores, mask, score) == score + Best(masks, scores, mask)
    decreases |masks|, 34
  {
    hide Bound, Search, Scan, Best, BestPicks;
    SearchStep(masks, scores, mask, score);
    if masks != [] {
      ScanIsBest(masks, scores, mask, score, 0, score);
      BoundSplits(masks, scores, mask);
      SearchIsBest(masks[1..], scores[1..], mask, score);
    }
  }

  lemma {:induction false} ScanIsBest(masks: seq<bv32>, scores: seq<nat>, mask: bv32, score: Word, index: nat,
      best: Word)
    requires masks != [] && |masks| <= |scores| && index <= 32 && score + Bound(masks, scores, mask) < WORD
    requires best == score + BestPicks(masks, scores, mask, index)
    ensures var r, bound := Scan(masks, scores, mask, score, Bound(masks, scores, mask), index, best),
        Bound(masks, scores, mask);
      r == score + if r - score < bound then BestPicks(masks, scores, mask, 32) else Best(masks, scores, mask)
    decreases |masks|, 33 - index
  {
    BitVanishes(32);
    if MoreBits(mask, Bit(index)) && best - score < Bound(masks, scores, mask) {
      MoreBitsLeft(mask, index);
      TriedIsPick(masks, scores, mask, score, index, best);
      AfterPick(masks, scores, mask, index);
      ScanIsBest(masks, scores, mask, score, index + 1, Tried(masks, scores, mask, score, index, best));
    } else {
      ScanMayStop(masks, scores, mask, index);
    }
  }

  lemma {:induction false} TriedIsPick(masks: seq<bv32>, scores: seq<nat>, mask: bv32, score: Word, index: nat,
      best: Word)
    requires masks != [] && |masks| <= |scores| && index < 32 && score + Bound(masks, scores, mask) < WORD
    requires best >= score
    ensures Tried(masks, scores, mask, score, index, best)
         == Max(best, score + PickScore(masks, scores, mask, index))
    decreases |masks|, 0
  {
    hide Without, Bit, Overlap, Bound, Best, Search, BestPicks, Scan;
    if HasBit(mask, index) && HasBit(masks[0], index) {
      PickFits(masks, scores, mask, index);
      SearchIsBest(masks[1..], scores[1..], Without(mask, Bit(index)), score + scores[0]);
    }
  }

  /** A bound that wraps to 0 ends the search before it starts. */
  lemma NothingSearched(masks: seq<bv32>, scores: seq<nat>, mask: bv32, score: Word)
    requires |masks| <= |scores| && Bound(masks, scores, mask) % WORD == 0
    ensures Search(masks, scores, mask, score) == score
  {
  }

  // ---- which sums a 32-bit result can answer for ----

  /** Scores are unsigned ints. */
  predicate Words(scores: seq<nat>) {
    forall score :: score in scores ==> score < WORD
  }

  /** Scores that add up to `sum`. */
  function Filling(sum: nat): (scores: seq<nat>)
    ensures Words(scores)
    decreases sum
  {
    if sum == 0 then [] else if sum < WORD then [sum] else [WORD - 1] + Filling(sum - (WORD - 1))
  }

  /** Functions that may all run in the same partitions. */
  function Each(mask: bv32, n: nat): seq<bv32> {
    seq(n, _ => mask)
  }

  lemma {:induction false} FillingBound(sum: nat, mask: bv32, available: bv32)
    requires Overlap(mask, available)
    ensures Bound(Each(mask, |Filling(sum)|), Filling(sum), available) == sum
    decreases sum
  {
    var scores := Filling(sum);
    if sum > 0 {
      BoundSplits(Each(mask, |scores|), scores, available);
      assert Each(mask, |scores|)[1..] == Each(mask, |scores| - 1);
      if sum >= WORD {
        assert scores[1..] == Filling(sum - (WORD - 1));
        FillingBound(sum - (WORD - 1), mask, available);
      } else {
        assert scores[1..] == Filling(0);
        FillingBound(0, mask, available);
      }
    }
  }

  /** Two functions for partitions 0 and 1 that score 2^31 each, and others for the rest of the sum. */
  function TooMuch(sum: nat): (scores: seq<nat>)
    requires sum >= WORD
    ensures Words(scores)
  {
    [0x8000_0000, 0x8000_0000] + Filling(sum - WORD)
  }

  function TooMuchMasks(sum: nat): (masks: seq<bv32>)
    requires sum >= WORD
    ensures |masks| == |TooMuch(sum)|
  {
    [1, 2] + Each(3, |Filling(sum - WORD)|)
  }

  lemma TooMuchBound(sum: nat)
    requires sum >= WORD
    ensures Bound(TooMuchMasks(sum), TooMuch(sum), 3) == sum
  {
    var masks, scores := TooMuchMasks(sum), TooMuch(sum);
    FillingBound(sum - WORD, 3, 3);
    BoundSplits(masks, scores, 3);
    BoundSplits(masks[1..], scores[1..], 3);
    OneAndTwo();
    assert masks[1..][1..] == Each(3, |Filling(sum - WORD)|) && scores[1..][1..] == Filling(sum - WORD);
  }

  lemma OneAndTwo()
    ensures Overlap(1, 3) && Overlap(2, 3)
    ensures HasBit(3, 0) && HasBit(1, 0) && HasBit(Without(3, Bit(0)), 1) && HasBit(2, 1)
  {
    assert Bit(0) == 1 && Bit(1) == 2;
  }

  /** The two functions alone already score 2^32. */
  lemma TooMuchAttained(sum: nat)
    requires sum >= WORD
    ensures Attained(TooMuchMasks(sum), TooMuch(sum), 3, WORD)
  {
    var masks, scores := TooMuchMasks(sum), TooMuch(sum);
    var without := Without(3, Bit(0));
    OneAndTwo();
    NothingPicked(masks[1..][1..], scores[1..][1..], Without(without, Bit(1)));
    AttainedByPick(masks[1..], scores[1..], without, 1, 0);
    AttainedByPick(masks, scores, 3, 0, 0x8000_0000);
  }

  /** Some 32-bit number is the optimum. */
  ghost predicate HasAnswer(masks: seq<bv32>, scores: seq<nat>, available: bv32)
    requires |masks| <= |scores|
  {
    exists w: nat :: w < WORD && IsMaximum(masks, scores, available, w)
  }

  /** The optimum of a problem can be returned if and only if it fits, whatever the sum. */
  lemma FitsExact(masks: seq<bv32>, scores: seq<nat>, available: bv32)
    requires |masks| <= |scores|
    ensures HasAnswer(masks, scores, available) <==> Best(masks, scores, available) < WORD
    ensures forall total: nat :: Attained(masks, scores, available, total) ==> total <= Best(masks, scores, available)
  {
    BestIsMaximum(masks, scores, available);
  }

  /** Every problem with this sum of eligible scores has an optimum that fits in 32 bits. */
  ghost predicate Answerable(sum: nat) {
    forall masks: seq<bv32>, scores: seq<nat>, available: bv32 ::
      |masks| == |scores| && Words(scores) && Bound(masks, scores, available) == sum ==>
        HasAnswer(masks, scores, available)
  }

  /** A result of 32 bits can be the optimum for all problems with a given sum if and only if the
      sum fits in 32 bits; then Solve returns it. */
  lemma AnswerableExact(sum: nat)
    ensures Answerable(sum) <==> sum < WORD
  {
    if sum < WORD {
      forall masks: seq<bv32>, scores: seq<nat>, available: bv32
        | |masks| == |scores| && Words(scores) && Bound(masks, scores, available) == sum
        ensures HasAnswer(masks, scores, available)
      {
        FitsExact(masks, scores, available);
        BestWithinBound(masks, scores, available);
      }
    } else {
      var masks, scores := TooMuchMasks(sum), TooMuch(sum);
      TooMuchBound(sum);
      TooMuchAttained(sum);
      FitsExact(masks, scores, 3);
    }
  }

  // ---- the search misses optima that fit ----

  lemma {:induction false} NoneAvailable(masks: seq<bv32>, scores: seq<nat>)
    requires |masks| <= |scores|
    ensures Bound(masks, scores, 0) == 0 && Best(masks, scores, 0) == 0
  {
    if masks != [] {
      BoundSplits(masks, scores, 0);
      NoneAvailable(masks[1..], scores[1..]);
    }
    BestWithinBound(masks, scores, 0);
  }

  lemma OnlyPartitionZero(k: nat)
    requires k < 32
    ensures HasBit(1, k) <==> k == 0
    ensures Overlap(1, Bit(0)) && Without(1, Bit(0)) == 0 && !MoreBits(1, Bit(1)) && MoreBits(1, Bit(0))
  {
    assert Bit(0) == 1 && Bit(1) == 2;
    if k > 0 { NoHigherBits(1, 1, k); }
  }

  lemma {:induction false} OnePick(masks: seq<bv32>, scores: seq<nat>, index: nat)
    requires masks != [] && |masks| <= |scores| && index <= 32
    ensures BestPicks(masks, scores, 1, index) <= scores[0]
    decreases index
  {
    if index > 0 {
      OnlyPartitionZero(index - 1);
      OnePick(masks, scores, index - 1);
      NoneAvailable(masks[1..], scores[1..]);
    }
  }

  /** With one partition available the optimum is no more than the largest score. */
  lemma {:induction false} OnePartitionBest(masks: seq<bv32>, scores: seq<nat>, most: nat)
    requires |masks| <= |scores| && forall i :: 0 <= i < |scores| ==> scores[i] <= most
    ensures Best(masks, scores, 1) <= most
  {
    if masks != [] {
      OnePick(masks, scores, 32);
      OnePartitionBest(masks[1..], scores[1..], most);
    }
  }

  /** With one partition available the search returns one of the scores, or goes on without the first. */
  lemma OneSearched(masks: seq<bv32>, scores: seq<nat>)
    requires masks != [] && masks[0] == 1 && |masks| <= |scores| && scores[0] < WORD
    ensures var attainable := Bound(masks, scores, 1) % WORD;
      Search(masks, scores, 1, 0)
      == if attainable == 0 then 0
         else if scores[0] < attainable then Max(scores[0], Search(masks[1..], scores[1..], 1, 0)) else scores[0]
  {
    hide Bound, Best;
    var attainable := Bound(masks, scores, 1) % WORD;
    OnlyPartitionZero(0);
    NoneAvailable(masks[1..], scores[1..]);
    NothingSearched(masks[1..], scores[1..], 0, scores[0]);
    if attainable > 0 {
      assert Tried(masks, scores, 1, 0, 0, 0) == scores[0];
      assert Scan(masks, scores, 1, 0, attainable, 1, scores[0]) == scores[0];
      assert Scan(masks, scores, 1, 0, attainable, 0, 0) == scores[0];
    }
  }

  /** Two small scores, and behind them scores that add up to a multiple of 2^32. */
  function Hiding(sum: nat): (scores: seq<nat>)
    requires sum >= WORD
    ensures Words(scores)
  {
    var small := sum % WORD;
    [small / 2, small - small / 2] + Filling(sum - small)
  }

  lemma HidingBounds(sum: nat)
    requires sum >= WORD
    ensures var scores := Hiding(sum); var masks, small := Each(1, |scores|), sum % WORD;
      && |scores| > 2 && scores[2] == WORD - 1
      && Bound(masks, scores, 1) == sum && Bound(masks[1..], scores[1..], 1) == sum - small / 2
      && Bound(masks[1..][1..], scores[1..][1..], 1) == sum - small
  {
    hide Bound;
    var scores := Hiding(sum);
    var masks := Each(1, |scores|);
    var rest := sum - sum % WORD;
    var two := scores[1..][1..];
    assert two == Filling(rest) && masks[1..] == Each(1, |scores| - 1) && masks[1..][1..] == Each(1, |two|);
    FillingBound(rest, 1, 1);
    BoundSplits(masks, scores, 1);
    BoundSplits(masks[1..], scores[1..], 1);
    assert scores[2] == two[0];
  }

  /** The search sees no use in going on to the large score behind the two small ones. */
  lemma HidingMissed(sum: nat)
    requires sum >= WORD
    ensures var scores := Hiding(sum); var masks := Each(1, |scores|);
      && Bound(masks, scores, 1) == sum && HasAnswer(masks, scores, 1)
      && Search(masks, scores, 1, 0) < WORD - 1 <= Best(masks, scores, 1)
  {
    hide Bound, Best, Search, Filling, HasAnswer;
    HidingBounds(sum);
    var scores := Hiding(sum);
    var masks := Each(1, |scores|);
    forall i | 0 <= i < |scores| ensures scores[i] <= WORD - 1 { assert scores[i] in scores; }
    OnePartitionBest(masks, scores, WORD - 1);
    FitsExact(masks, scores, 1);
    OneSearched(masks, scores);
    OneSearched(masks[1..], scores[1..]);
    NothingSearched(masks[1..][1..], scores[1..][1..], 1, 0);
    LargeBehind(masks, scores);
  }

  lemma LargeBehind(masks: seq<bv32>, scores: seq<nat>)
    requires 3 <= |masks| <= |scores| && masks[2] == 1
    ensures Best(masks, scores, 1) >= scores[2]
  {
    var ms, ss := masks[1..][1..], scores[1..][1..];
    OnlyPartitionZero(0);
    assert ms[0] == masks[2] && ss[0] == scores[2];
    BestPicksCovers(ms, ss, 1, 32, 0);
    assert Best(masks, scores, 1) >= Best(masks[1..], scores[1..], 1) >= Best(ms, ss, 1) >= BestPicks(ms, ss, 1, 32);
  }

  /** For every problem with this sum whose optimum fits in 32 bits, the search finds it. */
  ghost predicate FindsAll(sum: nat) {
    forall masks: seq<bv32>, scores: seq<nat>, available: bv32 ::
      |masks| == |scores| && Words(scores) && Bound(masks, scores, available) == sum
        && HasAnswer(masks, scores, available) ==>
          Search(masks, scores, available, 0) == Best(masks, scores, available)
  }

  /** Even of the optima that fit, the search finds all exactly if the sum fits as well. */
  lemma FindsAllExact(sum: nat)
    ensures FindsAll(sum) <==> sum < WORD
  {
    if sum < WORD {
      forall masks: seq<bv32>, scores: seq<nat>, available: bv32
        | |masks| == |scores| && Words(scores) && Bound(masks, scores, available) == sum
        ensures Search(masks, scores, available, 0) == Best(masks, scores, available)
      {
        SearchIsBest(masks, scores, available, 0);
      }
    } else {
      HidingMissed(sum);
    }
  }

  lemma ThreeScores(a: nat, b: nat, c: nat)
    ensures Bound([1, 1, 1], [a, b, c], 1) == a + b + c
  {
    var masks: seq<bv32>, scores := [1, 1, 1], [a, b, c];
    OnlyPartitionZero(0);
    BoundSplits(masks, scores, 1);
    BoundSplits(masks[1..], scores[1..], 1);
    BoundSplits(masks[1..][1..], scores[1..][1..], 1);
  }

  /** Three functions for one partition, worth 1, 2^31 and 2^31: the bound wraps to 1, so the search
      is content with 1, although 2^31 can be scored. */
  lemma SmallScoreSuffices()
    ensures var masks: seq<bv32>, scores: seq<nat> := [1, 1, 1], [1, 0x8000_0000, 0x8000_0000];
      Search(masks, scores, 1, 0) == 1 && IsMaximum(masks, scores, 1, 0x8000_0000)
  {
    hide Bound, Best, BestPicks, Search, IsMaximum;
    var masks: seq<bv32>, scores: seq<nat> := [1, 1, 1], [1, 0x8000_0000, 0x8000_0000];
    ThreeScores(1, 0x8000_0000, 0x8000_0000);
    OneSearched(masks, scores);
    OnePartitionBest(masks, scores, 0x8000_0000);
    LargeBehind(masks, scores);
    BestIsMaximum(masks, scores, 1);
  }

  /** Two functions that score 2^31 each in partitions of their own: the bound wraps to 0, so the
      search ends before it starts, although 2^32 can be scored. */
  lemma WrappedBoundMisses()
    ensures var masks: seq<bv32>, scores: seq<nat> := [1, 2], [0x8000_0000, 0x8000_0000];
      && Bound(masks, scores, 3) % WORD == 0 && Attained(masks, scores, 3, WORD)
      && !IsMaximum(masks, scores, 3, 0)
  {
    TooMuchBound(WORD);
    TooMuchAttained(WORD);
    assert TooMuchMasks(WORD) == [1, 2] && TooMuch(WORD) == [0x8000_0000, 0x8000_0000];
  }

  lemma AddWord(result: nat, added: nat, score: nat)
    requires result == added % WORD
    ensures (result + score) % WORD == (added + score) % WORD
  {
  }

  class WeightedPartitioner {
    var functionMasks: seq<bv32>
    var functionScores: seq<Word>
    var solution: seq<int>
    var bestScore: seq<Word>

    predicate Valid()
      reads this
    {
      |functionMasks| == |functionScores| == |solution| == |bestScore|
    }

    constructor (masks: seq<bv32>, scores: seq<Word>)
      requires |masks| == |scores|
      ensures Valid() && functionMasks == masks && functionScores == scores
    {
      functionMasks, functionScores := masks, scores;
      solution := seq(|masks|, _ => -1);
      bestScore := seq(|masks|, _ => 0);
    }

    /** The bound for the functions from `functionIndex` on, as computed with wrapping additions. */
    method CalcMaxAttainableScore(functionIndex: nat, mask: bv32) returns (result: Word)
      requires Valid() && functionIndex <= |functionMasks|
      ensures result == Bound(functionMasks[functionIndex..], functionScores[functionIndex..], mask) % WORD
    {
      var index := functionIndex;
      ghost var added: nat := 0;
      result := 0;
      while index < |functionMasks|
        invariant functionIndex <= index <= |functionMasks|
        invariant result == added % WORD
        invariant added + Bound(functionMasks[index..], functionScores[index..], mask)
               == Bound(functionMasks[functionIndex..], functionScores[functionIndex..], mask)
      {
        BoundSplits(functionMasks[index..], functionScores[index..], mask);
        assert functionMasks[index..][1..] == functionMasks[index + 1..];
        assert functionScores[index..][1..] == functionScores[index + 1..];
        if Overlap(functionMasks[index], mask) {
          AddWord(result, added, functionScores[index]);
          result := (result + functionScores[index]) % WORD;
          added := added + functionScores[index];
        }
        index := index + 1;
      }
      assert functionMasks[index..] == [];
    }

    /** The loop body of Recurse: the best score so far, or the one with this function in partition
        `index` if that is better. */
    method TryPartition(functionIndex: nat, mask: bv32, score: Word, index: nat,
        best: Word, localBest: int)
      returns (maxScore: Word, localSolution: int)
      requires Valid() && functionIndex < |functionMasks| && index < 32
      requires best >= score
      modifies this`solution, this`bestScore
      ensures Valid() && maxScore
           == Tried(functionMasks[functionIndex..], functionScores[functionIndex..], mask, score, index, best)
      decreases |functionMasks| - functionIndex, 0
    {
      ghost var ms, ss := functionMasks[functionIndex..], functionScores[functionIndex..];
      assert ms[1..] == functionMasks[functionIndex + 1..] && ss[1..] == functionScores[functionIndex + 1..];
      maxScore, localSolution := best, localBest;
      if Overlap(mask, Bit(index)) {
        if Overlap(functionMasks[functionIndex], Bit(index)) {
          var r := Recurse(functionIndex + 1, Without(mask, Bit(index)),
            (score + functionScores[functionIndex]) % WORD);
          if r > maxScore {
            maxScore, localSolution := r, index;
          }
        }
      }
    }

    /** The loop of Recurse over the partitions: the best score with this function in one of them,
        unless the bound ends the search first. */
    method TryPartitions(functionIndex: nat, mask: bv32, score: Word, maxAttainableScore: Word)
      returns (maxScore: Word, localSolution: int)
      requires Valid() && functionIndex < |functionMasks|
      modifies this`solution, this`bestScore
      ensures Valid() && maxScore
           == Scan(functionMasks[functionIndex..], functionScores[functionIndex..], mask, score, maxAttainableScore,
                0, score)
      decreases |functionMasks| - functionIndex, 1
    {
      FirstBit();
      hide Bound, Best, BestPicks, Search, Scan, Tried, Overlap, Without, MoreBits, Bit;
      ghost var ms, ss := functionMasks[functionIndex..], functionScores[functionIndex..];
      maxScore, localSolution := score, -1;
      var index: nat, indexBit: bv32 := 0, 1;
      while MoreBits(mask, indexBit) && maxScore - score < maxAttainableScore
        invariant Valid() && index <= 32 && indexBit == Bit(index) && maxScore >= score
        invariant Scan(ms, ss, mask, score, maxAttainableScore, 0, score)
               == Scan(ms, ss, mask, score, maxAttainableScore, index, maxScore)
        decreases 32 - index
      {
        ScanGoesOn(ms, ss, mask, score, maxAttainableScore, index, maxScore);
        maxScore, localSolution :=
          TryPartition(functionIndex, mask, score, index, maxScore, localSolution);
        NextBit(index);
        index, indexBit := index + 1, indexBit << 1;
      }
      ScanEnds(ms, ss, mask, score, maxAttainableScore, index, maxScore);
    }

    /** The best score found from `score` with the functions from `functionIndex` on and the
        partitions in `mask`. */
    method Recurse(functionIndex: nat, mask: bv32, score: Word) returns (maxScore: Word)
      requires Valid() && functionIndex <= |functionMasks|
      modifies this`solution, this`bestScore
      ensures Valid() && maxScore
           == Search(functionMasks[functionIndex..], functionScores[functionIndex..], mask, score)
      decreases |functionMasks| - functionIndex, 2
    {
      ghost var ms, ss := functionMasks[functionIndex..], functionScores[functionIndex..];
      if functionIndex >= |functionMasks| {
        return score;
      }
      assert ms[1..] == functionMasks[functionIndex + 1..] && ss[1..] == functionScores[functionIndex + 1..];
      var maxAttainableScore := CalcMaxAttainableScore(functionIndex, mask);
      var localSolution: int;
      maxScore, localSolution := TryPartitions(functionIndex, mask, score, maxAttainableScore);
      // What if this function is not picked
      if maxScore - score < maxAttainableScore {
        var r := Recurse(functionIndex + 1, mask, score);
        if r > maxScore {
          maxScore, localSolution := r, -1;
        }
      }
      if maxScore > bestScore[functionIndex] {
        bestScore := bestScore[functionIndex := maxScore];
        solution := solution[functionIndex := localSolution];
      }
    }

    /** solve() returns the optimum whenever the scores of all functions that could get an
        available partition fit together in 32 bits. If their sum is a multiple of 2^32 the
        bound wraps to zero, nothing is explored, and the result is the optimum only if nothing
        can be scored at all. */
    method Solve(availableMask: bv32) returns (best: Word)
      requires Valid()
      modifies this`solution, this`bestScore
      ensures Valid() && best == Search(functionMasks, functionScores, availableMask, 0)
      ensures Bound(functionMasks, functionScores, availableMask) < WORD ==>
        IsMaximum(functionMasks, functionScores, availableMask, best)
      ensures Bound(functionMasks, functionScores, availableMask) % WORD == 0 ==>
        best == 0 && (IsMaximum(functionMasks, functionScores, availableMask, best)
                      <==> Bound(functionMasks, functionScores, availableMask) == 0)
    {
      solution := seq(|functionMasks|, _ => -1);
      bestScore := seq(|functionMasks|, _ => 0);
      assert functionMasks[0..] == functionMasks && functionScores[0..] == functionScores;
      best := Recurse(0, availableMask, 0);
      if Bound(functionMasks, functionScores, availableMask) < WORD {
        SearchIsBest(functionMasks, functionScores, availableMask, 0);
      }
      if Bound(functionMasks, functionScores, availableMask) % WORD == 0 {
        NothingSearched(functionMasks, functionScores, availableMask, 0);
      }
      BestIsMaximum(functionMasks, functionScores, availableMask);
      ZeroIsMaximum(functionMasks, functionScores, availableMask);
    }
  }
}
