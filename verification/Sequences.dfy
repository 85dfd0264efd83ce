/** Splitting and joining sequences. */
module Sequences {

  lemma Associative<T>(a: seq<T>, b: seq<T>, c: seq<T>)
    ensures (a + b) + c == a + (b + c)
  {
  }

  /** The first `count` elements move from the back part to the front part. */
  lemma MovesOver<T>(front: seq<T>, back: seq<T>, count: nat)
    requires count <= |back|
    ensures front + back == (front + back[..count]) + back[count..]
  {
  }

  lemma JoinSlices<T>(s: seq<T>, from: nat, middle: nat, to: nat)
    requires from <= middle <= to <= |s|
    ensures s[from..middle] + s[middle..to] == s[from..to]
  {
  }

  lemma FirstAndRest<T>(s: seq<T>)
    requires s != []
    ensures s == [s[0]] + s[1..] && s[..1] == [s[0]]
  {
  }
}
