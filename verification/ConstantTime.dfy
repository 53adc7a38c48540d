/** The branch-free selection helpers of src/util.h, as the C expressions they are,
    and the branching meaning each one has. */
module ConstantTime {
  import opened Words

  // ----- the expressions

  function SmallerMask(a: ulong, b: ulong): ulong {
    OpRange64(a, b);
    OpRange64(Wrap64(a - b), b);
    OpRange64(Xor(a, b), Xor(Wrap64(a - b), b));
    Wrap64(0 - Shr(Xor(a, Or(Xor(a, b), Xor(Wrap64(a - b), b))), 63))
  }

  function Equal(a: ulong, b: ulong): nat {
    Shr(Wrap64(Xor(a, b) - 1), 63)
  }

  function EqualMask(a: ulong, b: ulong): ulong {
    Wrap64(0 - Equal(a, b))
  }

  type int32 = x: int | -0x8000_0000 <= x < 0x8000_0000

  function Unsigned32(x: int): (u: nat)
    ensures u < TWO_32
  {
    x % TWO_32
  }

  function Signed32(u: nat): int32
    requires u < TWO_32
  {
    if u < 0x8000_0000 then u else u - TWO_32
  }

  function SelectInt(cond: ulong, a: int32, b: int32): int32 {
    var mask := Unsigned32(0 - Unsigned32(cond));
    var picked := Or(And(Unsigned32(a), mask), And(Unsigned32(b), TWO_32 - 1 - mask));
    OpRange32(Unsigned32(a), mask);
    OpRange32(Unsigned32(b), TWO_32 - 1 - mask);
    OpRange32(And(Unsigned32(a), mask), And(Unsigned32(b), TWO_32 - 1 - mask));
    Signed32(picked)
  }

  function SelectByteMask(a: byte, b: byte, mask: byte): byte {
    OpRange8(a, mask);
    OpRange8(b, Not8(mask));
    OpRange8(And(a, mask), And(b, Not8(mask)));
    Or(And(a, mask), And(b, Not8(mask)))
  }

  lemma OpRange32(a: nat, b: nat)
    requires a < TWO_32 && b < TWO_32
    ensures And(a, b) < TWO_32 && Or(a, b) < TWO_32
  {
    Pow2Values();
    OpRange(a, b, 32);
  }

  // ----- what they decide

  /** The mask is all ones exactly when a < b, for every pair of words. */
  lemma SmallerMaskMeaning(a: ulong, b: ulong)
    ensures SmallerMask(a, b) == if a < b then ALL_ONES else 0
  {
    var d := Wrap64(a - b);
    OpRange64(a, b);
    OpRange64(d, b);
    OpRange64(Xor(a, b), Xor(d, b));
    TopDigitOfMask(a, b, d);
    WrapNear(a - b);
    WrapNear(0);
    WrapNear(-1);
    TopBit(a);
    TopBit(b);
    TopBit(d);
  }

  lemma TopDigitOfMask(a: ulong, b: ulong, d: ulong)
    ensures Shr(Xor(a, Or(Xor(a, b), Xor(d, b))), 63)
         == if Shr(a, 63) == Shr(b, 63) then Shr(d, 63) else Shr(b, 63)
  {
    XorShr(a, Or(Xor(a, b), Xor(d, b)), 63);
    OrShr(Xor(a, b), Xor(d, b), 63);
    XorShr(a, b, 63);
    XorShr(d, b, 63);
    TopBits(a);
    TopBits(b);
    TopBits(d);
    OneDigit(Shr(a, 63), Shr(b, 63), Shr(d, 63));
  }

  lemma WrapNear(x: int)
    requires -TWO_64 <= x < TWO_64
    ensures Wrap64(x) == if x < 0 then x + TWO_64 else x
  {
  }

  lemma TopBits(x: ulong)
    ensures Shr(x, 63) <= 1
  {
    TopBit(x);
  }

  lemma OneDigit(a: nat, b: nat, d: nat)
    requires a <= 1 && b <= 1 && d <= 1
    ensures Xor(a, Or(Xor(a, b), Xor(d, b))) == if a == b then d else b
  {
    assert Xor(0, 0) == 0 && Xor(0, 1) == 1 && Xor(1, 0) == 1 && Xor(1, 1) == 0;
    assert Or(0, 0) == 0 && Or(0, 1) == 1 && Or(1, 0) == 1 && Or(1, 1) == 1;
  }

  /** The equality test answers 1 for equal words, and also whenever the operands
      differ by more than the top digit. */
  lemma EqualValue(a: ulong, b: ulong)
    ensures Equal(a, b) == if a == b || Xor(a, b) > TWO_63 then 1 else 0
  {
    OpRange64(a, b);
    XorZero(a, b);
    WrapNear(Xor(a, b) - 1);
    TopBit(Wrap64(Xor(a, b) - 1));
  }

  /** The exact domain on which constant_equal decides equality. */
  lemma EqualDecidesExactlyWhen(a: ulong, b: ulong)
    ensures (Equal(a, b) == 1 <==> a == b) <==> Xor(a, b) <= TWO_63
  {
    EqualValue(a, b);
    XorZero(a, b);
  }

  /** Outside that domain it calls different words equal. */
  lemma EqualMistakesDistantWords()
    ensures Equal(ALL_ONES, 255) == 1 && ALL_ONES != 255
  {
    EqualValue(ALL_ONES, 255);
    XorHigh(ALL_ONES);
  }

  /** Below 2^63, the size of the largest object, equality is decided. */
  lemma EqualBelowTop(a: ulong, b: ulong)
    requires a < TWO_63 && b < TWO_63
    ensures Equal(a, b) == if a == b then 1 else 0
    ensures EqualMask(a, b) == if a == b then ALL_ONES else 0
  {
    EqualValue(a, b);
    OpRange64(a, b);
  }

  /** A word whose upper 56 digits are all set is "equal" to 255 whatever its low octet. */
  lemma XorHigh(x: ulong)
    requires x / 256 == HIGH_56
    ensures Xor(x, 255) > TWO_63
  {
    XorShr(x, 255, 8);
    LowOctet(x);
    LowOctet(255);
    LowOctet(Xor(x, 255));
  }

  lemma And32(v: nat)
    requires v < TWO_32
    ensures And(v, TWO_32 - 1) == v && And(v, 0) == 0 && Or(v, 0) == v && Or(0, v) == v
  {
    Pow2Values();
    AndOnes(v, 32);
  }

  lemma CondMask(cond: ulong)
    requires cond <= 1
    ensures Unsigned32(0 - Unsigned32(cond)) == if cond == 1 then TWO_32 - 1 else 0
  {
  }

  lemma SignedUnsigned(a: int32)
    ensures Signed32(Unsigned32(a)) == a
  {
    assert Unsigned32(a) == if a < 0 then a + TWO_32 else a;
  }

  lemma SelectIntMeaning(cond: ulong, a: int32, b: int32)
    requires cond <= 1
    ensures SelectInt(cond, a, b) == if cond == 1 then a else b
  {
    CondMask(cond);
    var u, v := Unsigned32(a), Unsigned32(b);
    And32(u);
    And32(v);
    SignedUnsigned(a);
    SignedUnsigned(b);
  }

  lemma SelectByteMaskMeaning(a: byte, b: byte, mask: byte)
    requires mask == 0 || mask == 255
    ensures SelectByteMask(a, b, mask) == if mask == 255 then a else b
  {
    And8(a);
    And8(b);
    assert And(a, 0) == 0 && And(b, 0) == 0;
  }

  // ----- selecting a whole buffer

  /** The octet mask -(unsigned char)cond. */
  function CondByte(cond: ulong): byte { (256 - cond % 256) % 256 }

  /** dst[0..size] becomes a or b octet by octet; the three buffers may overlap exactly. */
  method SelectBuf(cond: ulong, size: nat, dst: array<byte>, a: array<byte>, b: array<byte>)
    requires cond <= 1
    requires size <= dst.Length && size <= a.Length && size <= b.Length
    modifies dst
    ensures dst[..size] == if cond == 1 then old(a[..size]) else old(b[..size])
    ensures dst[size..] == old(dst[size..])
  {
    var i := 0;
    ghost var from := if cond == 1 then a[..size] else b[..size];
    while i < size
      invariant 0 <= i <= size
      invariant forall k :: 0 <= k < i ==> dst[k] == from[k]
      invariant forall k :: i <= k < dst.Length ==> dst[k] == old(dst[k])
      invariant forall k :: i <= k < a.Length ==> a[k] == old(a[k])
      invariant forall k :: i <= k < b.Length ==> b[k] == old(b[k])
    {
      SelectByteMaskMeaning(a[i], b[i], CondByte(cond));
      dst[i] := SelectByteMask(a[i], b[i], CondByte(cond));
      i := i + 1;
    }
    assert dst[..size] == from;
  }
}
