/**
 * Java `int` status words as 32-bit vectors: single-bit masks, the bits of a
 * word as a sequence of booleans, the set positions listed from the highest
 * down, Integer.bitCount, and Java's signed comparison `x > 0`.
 *
 * The positional functions work on the boolean sequence rather than on the
 * word itself, so the reasoning about positions and counts never has to look
 * inside a bit-vector operation.
 */
module Bits32 {

  /**
   * 1 shifted left `k` times: the mask with only bit `k` set, and 0 from
   * `k` = 32 on, once the bit has been shifted out as Java's `<<=` does.
   */
  function Bit(k: nat): bv32 {
    if k == 0 then 1 else Bit(k - 1) << 1
  }

  /** One more left shift moves the mask to the next bit. */
  lemma BitStep(k: nat)
    ensures Bit(k + 1) == Bit(k) << 1
  {
  }

  /** Bit 31 is Java's sign bit, Integer.MIN_VALUE. */
  lemma SignBit()
    ensures Bit(31) == 0x8000_0000
  {
    assert Bit(8) == 0x100;
    assert Bit(16) == 0x1_0000;
    assert Bit(24) == 0x100_0000;
  }

  /** Shifting a word with at most one bit set keeps at most one bit set. */
  lemma OneHotShift(x: bv32)
    requires x & (x - 1) == 0
    ensures (x << 1) & ((x << 1) - 1) == 0
  {
  }

  /** Every mask has at most one bit set. */
  lemma {:induction false} BitOneHot(k: nat)
    ensures Bit(k) & (Bit(k) - 1) == 0
  {
    if k > 0 {
      BitOneHot(k - 1);
      OneHotShift(Bit(k - 1));
    }
  }

  /** Once the bit has been shifted out, it stays out. */
  lemma {:induction false} ZeroStays(j: nat, m: nat)
    requires Bit(j) == 0
    ensures Bit(j + m) == 0
  {
    if m > 0 {
      ZeroStays(j, m - 1);
    }
  }

  /** A single bit that survives one more shift is not the top bit. */
  lemma BelowTop(x: bv32)
    requires x & (x - 1) == 0 && x << 1 != 0
    ensures x & 0x8000_0000 == 0
  {
  }

  /** Every other single-bit mask leaves the sign bit clear. */
  lemma LowBitNotSign(k: nat)
    requires k < 31
    ensures Bit(k) & 0x8000_0000 == 0
  {
    SignBit();
    if Bit(k + 1) == 0 {
      ZeroStays(k + 1, 30 - k);
    }
    BitOneHot(k);
    BelowTop(Bit(k));
  }

  predicate HasBit(x: bv32, k: nat) {
    Bit(k) & x != 0
  }

  /** Java's `x > 0` on an `int`: nonzero with the sign bit (bit 31) clear. */
  predicate SignedPositive(x: bv32) {
    x != 0 && x & 0x8000_0000 == 0
  }

  /** The bits of `code` below position `k`, lowest first. */
  function BitsBelow(code: bv32, k: nat): (b: seq<bool>)
    requires k <= 32
    ensures |b| == k
  {
    if k == 0 then [] else BitsBelow(code, k - 1) + [HasBit(code, k - 1)]
  }

  /** All 32 bits of `code`, bit 0 first. */
  function BitsOf(code: bv32): (b: seq<bool>)
    ensures |b| == 32
  {
    BitsBelow(code, 32)
  }

  lemma {:induction false} BitsBelowIndex(code: bv32, k: nat, i: nat)
    requires i < k <= 32
    ensures BitsBelow(code, k)[i] == HasBit(code, i)
  {
    if i < k - 1 { BitsBelowIndex(code, k - 1, i); }
  }

  /** Entry `i` of the bit sequence is bit `i` of the word. */
  lemma BitsOfIndex(code: bv32, i: nat)
    requires i < 32
    ensures BitsOf(code)[i] == HasBit(code, i)
  {
    BitsBelowIndex(code, 32, i);
  }

  /** The positions below `k` whose bit is set, highest position first. */
  function PositionsBelow(bits: seq<bool>, k: nat): seq<nat>
    requires k <= |bits|
  {
    if k == 0 then []
    else (if bits[k - 1] then [k - 1] else []) + PositionsBelow(bits, k - 1)
  }

  /**
   * The listed positions are exactly the set ones below `k`, strictly
   * decreasing.
   */
  lemma {:induction false} PositionsExact(bits: seq<bool>, k: nat)
    requires k <= |bits|
    ensures forall i :: 0 <= i < |PositionsBelow(bits, k)| ==>
              PositionsBelow(bits, k)[i] < k && bits[PositionsBelow(bits, k)[i]]
    ensures forall i, j :: 0 <= i < j < |PositionsBelow(bits, k)| ==>
              PositionsBelow(bits, k)[i] > PositionsBelow(bits, k)[j]
    ensures forall p :: 0 <= p < k && bits[p] ==> p in PositionsBelow(bits, k)
  {
    if k > 0 { PositionsExact(bits, k - 1); }
  }

  /** Every set bit of a 32-bit word, highest position first. */
  function SetPositions(code: bv32): seq<nat> {
    PositionsBelow(BitsOf(code), 32)
  }

  /** Number of set bits below position `k`. */
  function CountBelow(bits: seq<bool>, k: nat): nat
    requires k <= |bits|
  {
    if k == 0 then 0 else (if bits[k - 1] then 1 else 0) + CountBelow(bits, k - 1)
  }

  /** Integer.bitCount. */
  function BitCount(code: bv32): nat {
    CountBelow(BitsOf(code), 32)
  }

  /** One listed position per set bit. */
  lemma {:induction false} PositionsCount(bits: seq<bool>, k: nat)
    requires k <= |bits|
    ensures |PositionsBelow(bits, k)| == CountBelow(bits, k)
  {
    if k > 0 { PositionsCount(bits, k - 1); }
  }

  lemma {:induction false} NoSetBitNoPositions(bits: seq<bool>, k: nat)
    requires k <= |bits|
    requires forall i :: 0 <= i < k ==> !bits[i]
    ensures PositionsBelow(bits, k) == []
  {
    if k > 0 { NoSetBitNoPositions(bits, k - 1); }
  }

  /** The word is zero exactly when it has no set position. */
  lemma ZeroIffNoPositions(code: bv32)
    ensures code == 0 <==> SetPositions(code) == []
  {
    var bits := BitsOf(code);
    if code != 0 {
      var p := LowestSetBit(code);
      BitsOfIndex(code, p);
      PositionsExact(bits, 32);
      assert p in SetPositions(code);
    } else {
      forall i | 0 <= i < 32 ensures !bits[i] { BitsOfIndex(code, i); }
      NoSetBitNoPositions(bits, 32);
    }
  }

  /** A nonzero word has at least one set bit. */
  lemma NonZeroCount(code: bv32)
    requires code != 0
    ensures BitCount(code) >= 1
  {
    ZeroIffNoPositions(code);
    PositionsCount(BitsOf(code), 32);
  }

  /** The lowest position at which a nonzero word has a bit set. */
  function LowestSetBit(code: bv32): (p: nat)
    requires code != 0
    ensures p < 32 && HasBit(code, p)
    ensures forall j :: 0 <= j < p ==> !HasBit(code, j)
  {
    LowestFrom(code, 0)
  }

  function LowestFrom(code: bv32, k: nat): (p: nat)
    requires k < 32
    requires code != 0
    requires forall j :: 0 <= j < k ==> !HasBit(code, j)
    ensures k <= p < 32 && HasBit(code, p)
    ensures forall j :: 0 <= j < p ==> !HasBit(code, j)
    decreases 32 - k
  {
    if HasBit(code, k) then k
    else if k == 31 then TopBitSet(code); k
    else LowestFrom(code, k + 1)
  }

  lemma TopBitSet(code: bv32)
    requires code != 0
    requires forall j :: 0 <= j < 31 ==> !HasBit(code, j)
    ensures HasBit(code, 31)
  {
    if !HasBit(code, 31) {
      NoBitsMeansZero(code);
    }
  }

  lemma NoBitsMeansZero(code: bv32)
    requires forall j :: 0 <= j < 32 ==> !HasBit(code, j)
    ensures code == 0
  {
    assert !HasBit(code, 0) && !HasBit(code, 1) && !HasBit(code, 2) && !HasBit(code, 3);
    assert !HasBit(code, 4) && !HasBit(code, 5) && !HasBit(code, 6) && !HasBit(code, 7);
    assert Bit(8) == 0x100;
    assert !HasBit(code, 8) && !HasBit(code, 9) && !HasBit(code, 10) && !HasBit(code, 11);
    assert !HasBit(code, 12) && !HasBit(code, 13) && !HasBit(code, 14) && !HasBit(code, 15);
    assert Bit(16) == 0x1_0000;
    assert !HasBit(code, 16) && !HasBit(code, 17) && !HasBit(code, 18) && !HasBit(code, 19);
    assert !HasBit(code, 20) && !HasBit(code, 21) && !HasBit(code, 22) && !HasBit(code, 23);
    assert Bit(24) == 0x100_0000;
    assert !HasBit(code, 24) && !HasBit(code, 25) && !HasBit(code, 26) && !HasBit(code, 27);
    assert !HasBit(code, 28) && !HasBit(code, 29) && !HasBit(code, 30) && !HasBit(code, 31);
  }

  /** The last listed position is the lowest set bit. */
  lemma LastPositionIsLowest(code: bv32)
    requires code != 0
    ensures SetPositions(code) != []
    ensures SetPositions(code)[|SetPositions(code)| - 1] == LowestSetBit(code)
  {
    var ps := SetPositions(code);
    ZeroIffNoPositions(code);
    PositionsExact(BitsOf(code), 32);
    var low := LowestSetBit(code);
    var last := ps[|ps| - 1];
    BitsOfIndex(code, last);
    BitsOfIndex(code, low);
    assert low <= last;
    assert low in ps;
    var i :| 0 <= i < |ps| && ps[i] == low;
    if i < |ps| - 1 {
      assert false;
    }
  }
}
