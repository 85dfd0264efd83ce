/** Sets of partition numbers as 32-bit masks. */
module BitMasks {

  /** The bit the scan looks at: 1 shifted left `k` times, so 0 once it is shifted out of the word. */
  function Bit(k: nat): bv32
    requires k <= 32
  {
    if k == 0 then 1 else Bit(k - 1) << 1
  }

  /** The guard of the bit scan: the bit has not been shifted out and the mask may contain it. */
  predicate MoreBits(mask: bv32, bit: bv32) {
    mask >= bit && bit != 0
  }

  predicate Overlap(a: bv32, b: bv32) {
    a & b != 0
  }

  predicate HasBit(mask: bv32, k: nat)
    requires k < 32
  {
    Overlap(mask, Bit(k))
  }

  /** At most one bit is set. */
  predicate Single(b: bv32) {
    b & (b - 1) == 0
  }

  function Without(mask: bv32, bit: bv32): bv32 {
    mask & !bit
  }

  // ---- arithmetic of single words ----

  lemma ShiftedDisjoint(a: bv32, b: bv32)
    requires !Overlap(a, b)
    ensures !Overlap(a << 1, b << 1)
  {
  }

  lemma OneIsLow(b: bv32)
    ensures !Overlap(1, b << 1)
  {
  }

  lemma ShiftedSingle(b: bv32)
    requires Single(b)
    ensures Single(b << 1)
  {
  }

  lemma BelowSingle(mask: bv32, b: bv32)
    requires Single(b) && mask < b
    ensures !Overlap(mask, b)
  {
  }

  lemma SingleInBoth(a: bv32, b: bv32, c: bv32)
    requires Single(c) && Overlap(a, c) && Overlap(b, c)
    ensures Overlap(a, b)
  {
  }

  lemma Doubles(b: bv32)
    requires !Overlap(b, 0x8000_0000)
    ensures b <= b << 1
  {
  }

  lemma ClearsItself(mask: bv32, bit: bv32)
    ensures !Overlap(Without(mask, bit), bit)
  {
  }

  lemma WithoutKeeps(mask: bv32, bit: bv32, other: bv32)
    requires !Overlap(bit, other) && Overlap(mask, other)
    ensures Overlap(Without(mask, bit), other)
  {
  }

  lemma WithoutAdds(mask: bv32, bit: bv32, other: bv32)
    requires !Overlap(mask, other)
    ensures !Overlap(Without(mask, bit), other)
  {
  }

  lemma WithoutShrinks(a: bv32, mask: bv32, bit: bv32)
    ensures Overlap(a, Without(mask, bit)) ==> Overlap(a, mask)
  {
  }

  // ---- single bits ----

  lemma {:induction false} BitsDisjoint(k: nat, j: nat)
    requires k < j < 32
    ensures !Overlap(Bit(k), Bit(j)) && !Overlap(Bit(j), Bit(k))
  {
    if k == 0 {
      OneIsLow(Bit(j - 1));
    } else {
      BitsDisjoint(k - 1, j - 1);
      ShiftedDisjoint(Bit(k - 1), Bit(j - 1));
    }
  }

  lemma TopBit()
    ensures Bit(31) == 0x8000_0000
  {
    assert Bit(2) == 0x4;
    assert Bit(4) == 0x10;
    assert Bit(6) == 0x40;
    assert Bit(8) == 0x100;
    assert Bit(10) == 0x400;
    assert Bit(12) == 0x1000;
    assert Bit(14) == 0x4000;
    assert Bit(16) == 0x1_0000;
    assert Bit(18) == 0x4_0000;
    assert Bit(20) == 0x10_0000;
    assert Bit(22) == 0x40_0000;
    assert Bit(24) == 0x100_0000;
    assert Bit(26) == 0x400_0000;
    assert Bit(28) == 0x1000_0000;
    assert Bit(30) == 0x4000_0000;
  }

  lemma {:induction false} BitsGrow(k: nat, j: nat)
    requires k <= j < 32
    ensures Bit(k) <= Bit(j)
  {
    if k < j {
      BitsGrow(k, j - 1);
      BitsDisjoint(j - 1, 31);
      TopBit();
      Doubles(Bit(j - 1));
    }
  }

  lemma BitVanishes(k: nat)
    requires k <= 32
    ensures Bit(k) == 0 <==> k == 32
  {
    TopBit();
    if k < 32 {
      BitsGrow(0, k);
    }
  }

  lemma MoreBitsLeft(mask: bv32, k: nat)
    requires k <= 32 && MoreBits(mask, Bit(k))
    ensures k < 32
  {
    BitVanishes(k);
  }

  lemma FirstBit()
    ensures Bit(0) == 1
  {
  }

  lemma NextBit(k: nat)
    requires k < 32
    ensures Bit(k) << 1 == Bit(k + 1)
  {
  }

  /** Exactly one bit is set, or none once it is shifted out. */
  lemma {:induction false} BitIsSingle(k: nat)
    requires k <= 32
    ensures Single(Bit(k))
  {
    if k > 0 {
      BitIsSingle(k - 1);
      ShiftedSingle(Bit(k - 1));
    }
  }

  /** A mask below 2^k has no bit from k on, so the scan may stop there. */
  lemma NoHigherBits(mask: bv32, k: nat, j: nat)
    requires k <= j < 32 && !MoreBits(mask, Bit(k))
    ensures !HasBit(mask, j)
  {
    BitVanishes(k);
    BitsGrow(k, j);
    BitIsSingle(j);
    BelowSingle(mask, Bit(j));
  }

  lemma ClearsOwn(mask: bv32, k: nat)
    requires k < 32
    ensures !HasBit(Without(mask, Bit(k)), k)
  {
    ClearsItself(mask, Bit(k));
  }

  lemma KeepsOther(mask: bv32, k: nat, j: nat)
    requires k < 32 && j < 32 && j != k
    ensures HasBit(Without(mask, Bit(k)), j) <==> HasBit(mask, j)
  {
    if k < j { BitsDisjoint(k, j); } else { BitsDisjoint(j, k); }
    if HasBit(mask, j) {
      WithoutKeeps(mask, Bit(k), Bit(j));
    } else {
      WithoutAdds(mask, Bit(k), Bit(j));
    }
  }

  lemma SharedBit(a: bv32, b: bv32, k: nat)
    requires k < 32 && HasBit(a, k) && HasBit(b, k)
    ensures Overlap(a, b)
  {
    BitIsSingle(k);
    SingleInBoth(a, b, Bit(k));
  }

  lemma HalvesOverlap(a: bv32, b: bv32)
    requires Overlap(a, b) && !(Overlap(a, 1) && Overlap(b, 1))
    ensures Overlap(a >> 1, b >> 1)
  {
  }

  lemma HalfHas(a: bv32, bit: bv32)
    requires Overlap(a >> 1, bit)
    ensures Overlap(a, bit << 1) && bit != 0x8000_0000
  {
  }

  lemma HalfHasBit(a: bv32, j: nat)
    requires j < 32 && HasBit(a >> 1, j)
    ensures j < 31 && HasBit(a, j + 1)
  {
    TopBit();
    HalfHas(a, Bit(j));
  }

  lemma HalfShrinks(a: bv32, b: bv32)
    requires Overlap(a, b)
    ensures a >> 1 < a
  {
  }

  /** Masks that overlap share a partition. */
  lemma {:induction false} CommonBit(a: bv32, b: bv32) returns (k: nat)
    requires Overlap(a, b)
    ensures k < 32 && HasBit(a, k) && HasBit(b, k)
    decreases a
  {
    if Overlap(a, 1) && Overlap(b, 1) {
      k := 0;
    } else {
      HalvesOverlap(a, b);
      HalfShrinks(a, b);
      var j := CommonBit(a >> 1, b >> 1);
      HalfHasBit(a, j);
      HalfHasBit(b, j);
      k := j + 1;
    }
  }

  /** Two masks overlap exactly when they share a partition. */
  lemma OverlapIsCommonBit(a: bv32, b: bv32)
    ensures Overlap(a, b) <==> exists k: nat :: k < 32 && HasBit(a, k) && HasBit(b, k)
  {
    if Overlap(a, b) {
      var k := CommonBit(a, b);
    }
    forall k: nat | k < 32 && HasBit(a, k) && HasBit(b, k) ensures Overlap(a, b) {
      SharedBit(a, b, k);
    }
  }
}
