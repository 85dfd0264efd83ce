/** What a processor computes: one block function applied to consecutive whole blocks. */
module Blocks {
  import Multiples

  ghost predicate IsBlockFunction<T(!new)>(f: seq<T> -> seq<T>, b: nat) {
    b > 0 && forall block: seq<T> :: |block| == b ==> |f(block)| == b
  }

  /** The block function mapped over the whole blocks of `xs`; an incomplete last block is
      left waiting. */
  function MapBlocks<T>(f: seq<T> -> seq<T>, b: nat, xs: seq<T>): seq<T>
    requires b > 0
  {
    if |xs| < b then [] else f(xs[..b]) + MapBlocks(f, b, xs[b..])
  }

  lemma {:induction false} MapBlocksAppend<T>(f: seq<T> -> seq<T>, b: nat, xs: seq<T>, block: seq<T>)
    requires b > 0 && |xs| % b == 0 && |block| == b
    ensures MapBlocks(f, b, xs + block) == MapBlocks(f, b, xs) + f(block)
  {
    if |xs| < b {
      Multiples.Unique(|xs|, b, 0, |xs|);
      assert xs + block == block;
      assert block[..b] == block && MapBlocks(f, b, block[b..]) == [];
    } else {
      assert (xs + block)[..b] == xs[..b] && (xs + block)[b..] == xs[b..] + block;
      Multiples.OneLess(|xs|, b);
      MapBlocksAppend(f, b, xs[b..], block);
    }
  }

  /** More input never changes what has been computed already. */
  lemma {:induction false} MapBlocksMonotone<T>(f: seq<T> -> seq<T>, b: nat, xs: seq<T>, ys: seq<T>)
    requires b > 0 && xs <= ys
    ensures MapBlocks(f, b, xs) <= MapBlocks(f, b, ys)
  {
    if |xs| >= b {
      assert xs[..b] == ys[..b] && xs[b..] <= ys[b..];
      MapBlocksMonotone(f, b, xs[b..], ys[b..]);
    }
  }

  lemma {:induction false} MapBlocksLength<T(!new)>(f: seq<T> -> seq<T>, b: nat, xs: seq<T>)
    requires IsBlockFunction(f, b)
    ensures |MapBlocks(f, b, xs)| == |xs| - |xs| % b
  {
    if |xs| >= b {
      MapBlocksLength(f, b, xs[b..]);
      Multiples.OneLess(|xs|, b);
    } else {
      Multiples.Unique(|xs|, b, 0, |xs|);
    }
  }

  /** The elements of an incomplete last block have no effect. */
  lemma {:induction false} MapBlocksWhole<T>(f: seq<T> -> seq<T>, b: nat, xs: seq<T>, whole: nat)
    requires b > 0 && whole <= |xs| < whole + b && whole % b == 0
    ensures MapBlocks(f, b, xs) == MapBlocks(f, b, xs[..whole])
  {
    if whole > 0 {
      Multiples.Apart(whole, 0, b);
      Multiples.OneLess(whole, b);
      assert xs[..whole][..b] == xs[..b] && xs[..whole][b..] == xs[b..][..whole - b];
      MapBlocksWhole(f, b, xs[b..], whole - b);
    }
  }
}
