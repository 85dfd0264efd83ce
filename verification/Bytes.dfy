/** Bytes, and the multi-byte numbers that the image formats store in them. */
module Bytes {

  type Byte = x: nat | x < 256

  function Min(x: nat, y: nat): nat { if x <= y then x else y }

  function Concat(pieces: seq<seq<Byte>>): seq<Byte> {
    if pieces == [] then [] else Concat(pieces[..|pieces| - 1]) + pieces[|pieces| - 1]
  }

  lemma ConcatOneMore(pieces: seq<seq<Byte>>, piece: seq<Byte>)
    ensures Concat(pieces + [piece]) == Concat(pieces) + piece
  {
    assert (pieces + [piece])[..|pieces|] == pieces;
  }

  /** parse_u16: most significant byte first. */
  function U16(high: Byte, low: Byte): (n: nat)
    ensures n < 0x1_0000
  {
    high * 256 + low
  }

  function U32(b0: Byte, b1: Byte, b2: Byte, b3: Byte): (n: nat)
    ensures n < 0x1_0000_0000
  {
    U16(b0, b1) * 0x1_0000 + U16(b2, b3)
  }

  function EncodeU16(n: nat): seq<Byte>
    requires n < 0x1_0000
  {
    [n / 256, n % 256]
  }

  function EncodeU32(n: nat): seq<Byte>
    requires n < 0x1_0000_0000
  {
    EncodeU16(n / 0x1_0000) + EncodeU16(n % 0x1_0000)
  }

  lemma U32RoundTrip(n: nat)
    requires n < 0x1_0000_0000
    ensures var e := EncodeU32(n); U32(e[0], e[1], e[2], e[3]) == n
  {
  }

  /** The most significant byte comes first. */
  lemma BigEndian(b0: Byte, b1: Byte, b2: Byte, b3: Byte)
    ensures U16(b0, b1) == 0x100 * b0 + b1 && EncodeU16(U16(b0, b1)) == [b0, b1]
    ensures U32(b0, b1, b2, b3) == 0x100_0000 * b0 + 0x1_0000 * b1 + 0x100 * b2 + b3
    ensures EncodeU32(U32(b0, b1, b2, b3)) == [b0, b1, b2, b3]
  {
  }

  // ---- byte order of 32-bit words ----

  /** An unsigned int as a little-endian processor loads it from memory. */
  function Load(b0: Byte, b1: Byte, b2: Byte, b3: Byte): (x: nat)
    ensures x < 0x1_0000_0000
  {
    b0 + b1 * 0x100 + b2 * 0x1_0000 + b3 * 0x100_0000
  }

  /** What the shifts and masks of swap_buffer_aligned make of a word, as arithmetic modulo 2^32. */
  function Flip(x: nat): (y: nat)
    requires x < 0x1_0000_0000
  {
    x * 0x100_0000 % 0x1_0000_0000
    + x / 0x100 % 0x100 * 0x1_0000
    + x / 0x1_0000 % 0x100 * 0x100
    + x / 0x100_0000
  }

  lemma LoadDigits(b0: Byte, b1: Byte, b2: Byte, b3: Byte)
    ensures var x := Load(b0, b1, b2, b3);
      x % 0x100 == b0 && x / 0x100 % 0x100 == b1 && x / 0x1_0000 % 0x100 == b2 && x / 0x100_0000 == b3
  {
    var x := Load(b0, b1, b2, b3);
    assert x == b0 + 0x100 * (b1 + b2 * 0x100 + b3 * 0x1_0000);
    assert x / 0x100 == b1 + 0x100 * (b2 + b3 * 0x100);
    assert x / 0x1_0000 == b2 + 0x100 * b3;
  }

  /** Flipping reverses the four bytes of a word in memory. */
  lemma FlipReverses(b0: Byte, b1: Byte, b2: Byte, b3: Byte)
    ensures Flip(Load(b0, b1, b2, b3)) == Load(b3, b2, b1, b0)
  {
    LoadDigits(b0, b1, b2, b3);
    LowByteUp(b0, b1 + b2 * 0x100 + b3 * 0x1_0000);
  }

  /** Shifting left by 24 keeps the low byte only. */
  lemma LowByteUp(low: Byte, high: nat)
    ensures (low + 0x100 * high) * 0x100_0000 % 0x1_0000_0000 == low * 0x100_0000
  {
    assert (low + 0x100 * high) * 0x100_0000 == low * 0x100_0000 + 0x1_0000_0000 * high;
  }

  /** Every whole word with its bytes in reverse order. */
  function SwapWords(s: seq<Byte>): (t: seq<Byte>)
    ensures |t| == |s| - |s| % 4
  {
    if |s| < 4 then [] else [s[3], s[2], s[1], s[0]] + SwapWords(s[4..])
  }

  lemma {:induction false} SwapWordsAppend(s: seq<Byte>, t: seq<Byte>)
    requires |s| % 4 == 0
    ensures SwapWords(s + t) == SwapWords(s) + SwapWords(t)
  {
    if s == [] {
      assert s + t == t;
    } else {
      assert (s + t)[4..] == s[4..] + t;
      SwapWordsAppend(s[4..], t);
    }
  }

  /** Swapping twice gives the original words back. */
  lemma {:induction false} SwapWordsInverts(s: seq<Byte>)
    requires |s| % 4 == 0
    ensures SwapWords(SwapWords(s)) == s
  {
    if s != [] {
      var first := [s[3], s[2], s[1], s[0]];
      SwapWordsAppend(first, SwapWords(s[4..]));
      assert SwapWords(first) == s[..4] + SwapWords(first[4..]);
      SwapWordsInverts(s[4..]);
    }
  }

  lemma OneMoreWord(s: seq<Byte>, b0: Byte, b1: Byte, b2: Byte, b3: Byte)
    requires |s| % 4 == 0
    ensures SwapWords(s + [b0, b1, b2, b3]) == SwapWords(s) + [b3, b2, b1, b0]
  {
    SwapWordsAppend(s, [b0, b1, b2, b3]);
    assert SwapWords([b0, b1, b2, b3]) == [b3, b2, b1, b0];
  }

  /** swap_buffer_aligned: `size` words from `src` to `dst`. */
  method SwapBufferAligned(dst: array<Byte>, src: array<Byte>, size: nat)
    requires 4 * size <= dst.Length && 4 * size <= src.Length && dst != src
    modifies dst
    ensures dst[..4 * size] == SwapWords(src[..4 * size])
  {
    var i := 0;
    while i < size
      invariant 0 <= i <= size
      invariant dst[..4 * i] == SwapWords(src[..4 * i])
    {
      SwapWord(dst, src, 4 * i);
      i := i + 1;
    }
  }

  method SwapWord(dst: array<Byte>, src: array<Byte>, at: nat)
    requires at % 4 == 0 && at + 4 <= dst.Length && at + 4 <= src.Length && dst != src
    requires dst[..at] == SwapWords(src[..at])
    modifies dst
    ensures dst[..at + 4] == SwapWords(src[..at + 4])
  {
    var b0, b1, b2, b3 := src[at], src[at + 1], src[at + 2], src[at + 3];
    FlipReverses(b0, b1, b2, b3);
    LoadDigits(b3, b2, b1, b0);
    Store(dst, at, Flip(Load(b0, b1, b2, b3)));
    OneMoreWord(src[..at], b0, b1, b2, b3);
    assert src[..at + 4] == src[..at] + [b0, b1, b2, b3];
    assert dst[..at + 4] == dst[..at] + dst[at..at + 4];
  }

  /** Stores an unsigned int as a little-endian processor does. */
  method Store(dst: array<Byte>, at: nat, y: nat)
    requires at + 4 <= dst.Length && y < 0x1_0000_0000
    modifies dst
    ensures dst[at..at + 4] == [y % 0x100, y / 0x100 % 0x100, y / 0x1_0000 % 0x100, y / 0x100_0000]
    ensures dst[..at] == old(dst[..at]) && dst[at + 4..] == old(dst[at + 4..])
  {
    dst[at] := y % 0x100;
    dst[at + 1] := y / 0x100 % 0x100;
    dst[at + 2] := y / 0x1_0000 % 0x100;
    dst[at + 3] := y / 0x100_0000;
  }
}
