/** Machine words of the provider: octets and 64-bit CK_ULONG values as naturals,
    with C's unsigned wrap-around and bitwise operators written out. */
module Words {
  const TWO_32: int := 0x1_0000_0000
  const TWO_63: int := 0x8000_0000_0000_0000
  const TWO_64: int := 0x1_0000_0000_0000_0000
  const HIGH_56: int := 0xFF_FFFF_FFFF_FFFF
  const ALL_ONES: int := 0xFFFF_FFFF_FFFF_FFFF

  type byte = x: int | 0 <= x < 256
  type ulong = x: int | 0 <= x < 0x1_0000_0000_0000_0000

  function Pow2(k: nat): (p: nat)
    ensures p > 0
  {
    if k == 0 then 1 else 2 * Pow2(k - 1)
  }

  // The bitwise operators, one binary digit at a time.
  function And(a: nat, b: nat): nat {
    if a == 0 || b == 0 then 0
    else (if a % 2 == 1 then b % 2 else 0) + 2 * And(a / 2, b / 2)
  }

  function Or(a: nat, b: nat): nat {
    if a == 0 then b else if b == 0 then a
    else (if a % 2 == 1 then 1 else b % 2) + 2 * Or(a / 2, b / 2)
  }

  function Xor(a: nat, b: nat): nat {
    if a == 0 then b else if b == 0 then a
    else (a % 2 + b % 2) % 2 + 2 * Xor(a / 2, b / 2)
  }

  function Shr(x: nat, k: nat): nat {
    if k == 0 then x else Shr(x / 2, k - 1)
  }

  function Not64(a: ulong): ulong { ALL_ONES - a }

  function Not8(a: byte): byte { 255 - a }

  function Wrap64(a: int): ulong { a % TWO_64 }

  function ToByte(a: ulong): byte { a % 256 }

  // ----- a right shift distributes over each operator

  lemma {:induction false} AndShr(a: nat, b: nat, k: nat)
    ensures Shr(And(a, b), k) == And(Shr(a, k), Shr(b, k))
  {
    if k > 0 {
      assert And(a, b) / 2 == And(a / 2, b / 2);
      AndShr(a / 2, b / 2, k - 1);
    }
  }

  lemma {:induction false} OrShr(a: nat, b: nat, k: nat)
    ensures Shr(Or(a, b), k) == Or(Shr(a, k), Shr(b, k))
  {
    if k > 0 {
      assert Or(a, b) / 2 == Or(a / 2, b / 2);
      OrShr(a / 2, b / 2, k - 1);
    }
  }

  lemma {:induction false} XorShr(a: nat, b: nat, k: nat)
    ensures Shr(Xor(a, b), k) == Xor(Shr(a, k), Shr(b, k))
  {
    if k > 0 {
      assert Xor(a, b) / 2 == Xor(a / 2, b / 2);
      XorShr(a / 2, b / 2, k - 1);
    }
  }

  /** Shifting out k digits leaves 0 exactly below Pow2(k). */
  lemma {:induction false} ShrRange(x: nat, k: nat)
    ensures Shr(x, k) == 0 <==> x < Pow2(k)
    ensures Shr(x, k) == 1 <==> Pow2(k) <= x < Pow2(k + 1)
  {
    if k > 0 {
      ShrRange(x / 2, k - 1);
    }
  }

  lemma Pow2Octet(k: nat)
    ensures Pow2(k + 8) == 256 * Pow2(k)
  {
    assert Pow2(k + 4) == 2 * Pow2(k + 3) == 4 * Pow2(k + 2) == 8 * Pow2(k + 1);
    assert Pow2(k + 8) == 2 * Pow2(k + 7) == 4 * Pow2(k + 6) == 8 * Pow2(k + 5);
  }

  lemma Pow2Values()
    ensures Pow2(8) == 256 && Pow2(32) == TWO_32 && Pow2(56) == HIGH_56 + 1
    ensures Pow2(63) == TWO_63 && Pow2(64) == TWO_64
  {
    Pow2Octet(0);
    Pow2Octet(8);
    Pow2Octet(16);
    Pow2Octet(24);
    Pow2Octet(32);
    Pow2Octet(40);
    Pow2Octet(48);
    Pow2Octet(56);
  }

  lemma TopBit(x: nat)
    ensures Shr(x, 63) == 0 <==> x < TWO_63
    ensures Shr(x, 63) == 1 <==> TWO_63 <= x < TWO_64
  {
    Pow2Values();
    ShrRange(x, 63);
  }

  // ----- laws of the operators

  lemma {:induction false} AndOnes(v: nat, k: nat)
    requires v < Pow2(k)
    ensures And(Pow2(k) - 1, v) == v == And(v, Pow2(k) - 1)
  {
    if k > 0 {
      var m := Pow2(k) - 1;
      assert m % 2 == 1 && m / 2 == Pow2(k - 1) - 1;
      AndOnes(v / 2, k - 1);
    }
  }

  lemma And64(v: ulong)
    ensures And(ALL_ONES, v) == v == And(v, ALL_ONES)
  {
    Pow2Values();
    AndOnes(v, 64);
  }

  lemma And8(v: byte)
    ensures And(255, v) == v == And(v, 255)
    ensures And(0, v) == 0 == And(v, 0)
  {
    Pow2Values();
    AndOnes(v, 8);
  }

  lemma AndHigh56()
    ensures And(HIGH_56, HIGH_56) == HIGH_56
  {
    Pow2Values();
    AndOnes(HIGH_56, 56);
  }

  lemma {:induction false} AndLe(a: nat, b: nat)
    ensures And(a, b) <= a && And(a, b) <= b
  {
    if a > 0 && b > 0 { AndLe(a / 2, b / 2); }
  }

  lemma {:induction false} XorZero(a: nat, b: nat)
    ensures Xor(a, b) == 0 <==> a == b
  {
    if a > 0 && b > 0 { XorZero(a / 2, b / 2); }
  }

  lemma XorDigits(a: nat, b: nat)
    ensures Xor(a, b) % 2 == (a % 2 + b % 2) % 2 && Xor(a, b) / 2 == Xor(a / 2, b / 2)
  {
    if a > 0 && b > 0 {
      LastDigit((a % 2 + b % 2) % 2, Xor(a / 2, b / 2));
    }
  }

  lemma LastDigit(d: nat, m: nat)
    requires d < 2
    ensures (d + 2 * m) % 2 == d && (d + 2 * m) / 2 == m
  {
  }

  lemma {:induction false} XorCancel(a: nat, b: nat, c: nat)
    ensures Xor(a, c) == Xor(b, c) ==> a == b
    decreases a + b
  {
    if Xor(a, c) == Xor(b, c) && a + b > 0 {
      XorDigits(a, c);
      XorDigits(b, c);
      XorCancel(a / 2, b / 2, c / 2);
    }
  }

  /** Words that differ in one digit above the others. */
  lemma {:induction false} XorAbove(b: nat, k: nat)
    requires b < Pow2(k)
    ensures Xor(Pow2(k) + b, b) == Pow2(k)
  {
    if b > 0 {
      assert (Pow2(k) + b) / 2 == Pow2(k - 1) + b / 2 && (Pow2(k) + b) % 2 == b % 2;
      XorAbove(b / 2, k - 1);
    }
  }

  /** The result of an operator has no digit its operands lack. */
  lemma OpRange(a: nat, b: nat, k: nat)
    requires a < Pow2(k) && b < Pow2(k)
    ensures And(a, b) < Pow2(k) && Or(a, b) < Pow2(k) && Xor(a, b) < Pow2(k)
  {
    AndShr(a, b, k);
    OrShr(a, b, k);
    XorShr(a, b, k);
    ShrRange(a, k);
    ShrRange(b, k);
    ShrRange(And(a, b), k);
    ShrRange(Or(a, b), k);
    ShrRange(Xor(a, b), k);
  }

  lemma NotOctet(d: byte)
    ensures Not64(d) % 256 == 255 - d
    ensures Not64(d) / 256 == HIGH_56
  {
    DivMod256(Not64(d), HIGH_56, 255 - d);
  }

  lemma OpRange64(a: ulong, b: ulong)
    ensures And(a, b) < TWO_64 && Or(a, b) < TWO_64 && Xor(a, b) < TWO_64
    ensures a < TWO_63 && b < TWO_63 ==> Xor(a, b) < TWO_63
  {
    Pow2Values();
    OpRange(a, b, 64);
    if a < TWO_63 && b < TWO_63 { OpRange(a, b, 63); }
  }

  lemma OpRange8(a: byte, b: byte)
    ensures And(a, b) < 256 && Or(a, b) < 256 && Xor(a, b) < 256
  {
    Pow2Values();
    OpRange(a, b, 8);
  }

  // ----- the low octet and the rest

  function Low(x: nat, k: nat): nat {
    if k == 0 then 0 else x % 2 + 2 * Low(x / 2, k - 1)
  }

  lemma {:induction false} AndLow(a: nat, b: nat, k: nat)
    ensures Low(And(a, b), k) == And(Low(a, k), Low(b, k))
  {
    if k > 0 {
      assert And(a, b) / 2 == And(a / 2, b / 2);
      assert And(a, b) % 2 == if a % 2 == 1 then b % 2 else 0;
      AndLow(a / 2, b / 2, k - 1);
      var la, lb := Low(a, k), Low(b, k);
      assert la % 2 == a % 2 && la / 2 == Low(a / 2, k - 1);
      assert lb % 2 == b % 2 && lb / 2 == Low(b / 2, k - 1);
      assert And(la, lb) == (if la % 2 == 1 then lb % 2 else 0) + 2 * And(la / 2, lb / 2);
    }
  }

  lemma DivMod256(x: int, q: int, r: int)
    requires x == 256 * q + r && 0 <= r < 256
    ensures x / 256 == q && x % 256 == r
  {
  }

  lemma LowOctet(x: nat)
    ensures Low(x, 8) == x % 256
    ensures Shr(x, 8) == x / 256
  {
    Pow2Values();
    LowShr(x, 8);
    LowBound(x, 8);
    DivMod256(x, Shr(x, 8), Low(x, 8));
  }

  lemma {:induction false} LowShr(x: nat, k: nat)
    ensures Low(x, k) + Pow2(k) * Shr(x, k) == x
  {
    if k > 0 {
      LowShr(x / 2, k - 1);
      var p, s := Pow2(k - 1), Shr(x, k);
      assert Pow2(k) * s == 2 * (p * s);
    }
  }

  lemma {:induction false} LowBound(x: nat, k: nat)
    ensures Low(x, k) < Pow2(k)
  {
    if k > 0 { LowBound(x / 2, k - 1); }
  }

  /** And acts on the low octet and on the remaining 56 digits separately. */
  lemma AndOctet(a: nat, b: nat)
    ensures And(a, b) % 256 == And(a % 256, b % 256)
    ensures And(a, b) / 256 == And(a / 256, b / 256)
  {
    AndLow(a, b, 8);
    AndShr(a, b, 8);
    LowOctet(a);
    LowOctet(b);
    LowOctet(And(a, b));
  }
}
