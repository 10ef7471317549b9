/**
 The two 32-bit multiplication loops of the acstone programs, for any multiplicand M and multiplier Q:
 Booth's signed multiplication (archc/acstone/124.loop.c) and unsigned shift-and-add with a carry
 register (archc/acstone/123.loop.c). The programs fix M and Q; the loops do not depend on the values.

 Both loops keep "accumulator times 2^k plus finished product bits equals M times the bits consumed so
 far". Powers of two appear as repeated doubling (`Shl`) and halving (`Shr`).
 */
module Multipliers {
  import opened Words

  /** x * 2^k */
  function Shl(x: int, k: nat): int {
    if k == 0 then x else 2 * Shl(x, k - 1)
  }

  /** The value of the low k bits. */
  function Low(q: nat, k: nat): nat {
    if k == 0 then 0 else Low(q, k - 1) + (if Bit(q, k - 1) then Pow2(k - 1) else 0)
  }

  /** The signed value of the low k bits: the top one of them weighs -2^(k-1). */
  function SignedLow(q: nat, k: nat): int {
    Low(q, k) - (if k > 0 && Bit(q, k - 1) then Pow2(k) else 0)
  }

  // ---------------------------------------------------------------------------------------------
  // Shifts
  // ---------------------------------------------------------------------------------------------

  lemma {:induction false} ShlSum(x: int, y: int, k: nat)
    ensures Shl(x + y, k) == Shl(x, k) + Shl(y, k)
  {
    if k > 0 {
      ShlSum(x, y, k - 1);
    }
  }

  lemma {:induction false} ShlShl(x: int, i: nat, j: nat)
    ensures Shl(Shl(x, i), j) == Shl(x, i + j)
  {
    if j > 0 {
      ShlShl(x, i, j - 1);
    }
  }

  lemma {:induction false} ShlIsProduct(x: int, k: nat)
    ensures Shl(x, k) == x * Pow2(k)
  {
    if k > 0 {
      ShlIsProduct(x, k - 1);
      assert x * (2 * Pow2(k - 1)) == 2 * (x * Pow2(k - 1));
    }
  }

  lemma ShlBy31(x: int)
    ensures Shl(x, 31) == SIGN_BIT * x && Shl(x, 32) == WORD_MOD * x
  {
    ShlIsProduct(x, 31);
    ShlIsProduct(x, 32);
    Pow2Of31();
  }

  /** A number splits into its low k bits and the rest. */
  lemma {:induction false} LowAndRest(q: nat, k: nat)
    ensures Low(q, k) + Shl(Shr(q, k), k) == q
    ensures Low(q, k) < Pow2(k)
  {
    if k > 0 {
      LowAndRest(q, k - 1);
      var s := Shr(q, k - 1);
      ShlSum(2 * (s / 2), s % 2, k - 1);
      ShlShl(s / 2, 1, k - 1);
      assert Shl(s / 2, 1) == 2 * (s / 2) by {
        assert Shl(s / 2, 0) == s / 2;
      }
      ShlIsProduct(1, k - 1);
      ShlIsProduct(0, k - 1);
    }
  }

  /** A word's quotients by 2^32 and 2^31. */
  lemma WordQuotients(q: Word, s: nat, low: nat, t: nat, rest: nat)
    requires q == WORD_MOD * s + low && low < WORD_MOD
    requires q == SIGN_BIT * t + rest && rest < SIGN_BIT
    ensures low == q && (t % 2 == 1 <==> Negative(q))
  {
    assert s == 0 && t < 2;
  }

  lemma LowWhole(q: Word)
    ensures Low(q, 32) == q
    ensures Bit(q, 31) <==> Negative(q)
  {
    Pow2Of31();
    LowAndRest(q, 31);
    ShlBy31(Shr(q, 31));
    LowAndRest(q, 32);
    ShlBy31(Shr(q, 32));
    WordQuotients(q, Shr(q, 32), Low(q, 32), Shr(q, 31), Low(q, 31));
  }

  lemma SignedLowWhole(q: Word)
    ensures SignedLow(q, 32) == Signed(q)
  {
    LowWhole(q);
    Pow2Of31();
  }

  // ---------------------------------------------------------------------------------------------
  // Registers: the multiplier leaves Q at the bottom while the product enters at the top
  // ---------------------------------------------------------------------------------------------

  /** The product bits once bit 0 of the accumulator was added to them as bit k. */
  function Gained(product: nat, accumulator: nat, k: nat): nat {
    product + (if accumulator % 2 == 1 then Pow2(k) else 0)
  }

  /** After k steps Q holds the k product bits found so far above the multiplier bits still to come. */
  predicate QHolds(q: Word, q0: Word, product: nat, k: nat) {
    k <= 32 && product < Pow2(k) && q == Shl(product, 32 - k) + Shr(q0, k)
  }

  /** `Q = Q >> 1`, then bit 31 is set if the accumulator is odd. */
  function ShiftIn(q: Word, odd: bool): Word {
    q / 2 + (if odd then SIGN_BIT else 0)
  }

  lemma HalfOfSum(x: int, y: int)
    ensures (2 * x + y) / 2 == x + y / 2 && (2 * x + y) % 2 == y % 2
  {
  }

  lemma QShifts(q: Word, q0: Word, product: nat, k: nat, odd: bool)
    requires k < 32 && QHolds(q, q0, product, k)
    ensures q % 2 == 1 <==> Bit(q0, k)
    ensures QHolds(ShiftIn(q, odd), q0, product + (if odd then Pow2(k) else 0), k + 1)
  {
    HalfOfSum(Shl(product, 31 - k), Shr(q0, k));
    if odd {
      ShlSum(product, Pow2(k), 31 - k);
      ShlIsProduct(1, k);
      ShlShl(1, k, 31 - k);
      ShlBy31(1);
    }
  }

  /** Halving the accumulator hands its low bit over to the product. */
  lemma AccumulatorShifts(sum: int, product: nat, k: nat)
    ensures Shl(sum / 2, k + 1) + (product + (if sum % 2 == 1 then Pow2(k) else 0)) == Shl(sum, k) + product
  {
    ShlSum(2 * (sum / 2), sum % 2, k);
    ShlShl(sum / 2, 1, k);
    assert Shl(sum / 2, 1) == 2 * (sum / 2) by {
      assert Shl(sum / 2, 0) == sum / 2;
    }
    ShlIsProduct(1, k);
    ShlIsProduct(0, k);
  }

  // ---------------------------------------------------------------------------------------------
  // Booth's loop
  // ---------------------------------------------------------------------------------------------

  /** The value that Booth's loop multiplies by. The pattern 0x80000000 is its own negation, and the loop
      treats it as +2^31 although its signed reading is -2^31. */
  function BoothMultiplicand(m: Word): (r: int)
    ensures r % WORD_MOD == m
    ensures -0x8000_0000 < r <= 0x8000_0000
  {
    if m == SIGN_BIT then 0x8000_0000 else Signed(m)
  }

  /** Booth's choice on the current and the previous multiplier bit, in 32-bit arithmetic. */
  function BoothSum(a: Word, m: Word, bit: bool, previous: bool): Word {
    if bit && !previous then Wrap(a - m) else if !bit && previous then Wrap(a + m) else a
  }

  /** `A = A >> 1`, keeping the sign: bit 30 is copied to bit 31. */
  function ArithmeticHalf(a: Word): Word {
    if a / 2 >= 0x4000_0000 then a / 2 + SIGN_BIT else a / 2
  }

  /** M times the signed value of the multiplier bits consumed so far, one recoded bit at a time. */
  function BoothProduct(m: int, q: nat, k: nat): int {
    if k == 0 then 0
    else
      var previous := k > 1 && Bit(q, k - 2);
      BoothProduct(m, q, k - 1)
        + (if Bit(q, k - 1) == previous then 0 else if previous then Shl(m, k - 1) else Shl(-m, k - 1))
  }

  lemma Distribute(m: int, s: int, p: int)
    ensures m * (s + p) == m * s + m * p && m * (s - p) == m * s - m * p && (-m) * p == -(m * p)
  {
  }

  /** Booth's recoding: each bit moves the signed value of the low bits by -2^k, 0 or 2^k. */
  lemma SignedLowStep(q: nat, k: nat)
    ensures
      var previous := k > 0 && Bit(q, k - 1);
      SignedLow(q, k + 1) - SignedLow(q, k)
        == if Bit(q, k) == previous then 0 else if previous then Pow2(k) else 0 - Pow2(k)
  {
  }

  lemma {:induction false} BoothProductIsProduct(m: int, q: nat, k: nat)
    ensures BoothProduct(m, q, k) == m * SignedLow(q, k)
  {
    if k > 0 {
      BoothProductIsProduct(m, q, k - 1);
      SignedLowStep(q, k - 1);
      ShlIsProduct(m, k - 1);
      ShlIsProduct(-m, k - 1);
      Distribute(m, SignedLow(q, k - 1), Pow2(k - 1));
    }
  }

  /** Where the accumulator lies between steps: within half of M, on the side the last bit tells. */
  predicate Bounded(m: int, a: int, previous: bool) {
    if m == 0 then a == 0
    else if m > 0 then (if previous then -m - 1 <= 2 * a && a < 0 else 0 <= a && 2 * a <= m)
    else (if previous then 0 <= a && 2 * a <= -m else m - 1 <= 2 * a && a <= 0)
  }

  lemma HalfExact(a: Word)
    ensures Signed(ArithmeticHalf(a)) == Signed(a) / 2 && a % 2 == Signed(a) % 2
  {
  }

  /** The sum never overflows, so it is exact in signed arithmetic. */
  lemma BoothSumExact(m: Word, a: Word, bit: bool, previous: bool)
    requires Bounded(BoothMultiplicand(m), Signed(a), previous)
    ensures Signed(BoothSum(a, m, bit, previous)) == SignedSum(BoothMultiplicand(m), Signed(a), bit, previous)
  {
  }

  function SignedSum(m: int, a: int, bit: bool, previous: bool): int {
    a + (if bit == previous then 0 else if previous then m else -m)
  }

  lemma HalfBounded(m: int, a: int, bit: bool, previous: bool)
    requires Bounded(m, a, previous)
    ensures Bounded(m, SignedSum(m, a, bit, previous) / 2, bit)
  {
  }

  /** The loop's invariant: Signed(A) * 2^k + product bits == M * signed value of the low k bits. */
  predicate BoothInvariant(m: Word, q0: Word, a: Word, q: Word, product: nat, k: nat) {
    && QHolds(q, q0, product, k)
    && Bounded(BoothMultiplicand(m), Signed(a), k > 0 && Bit(q0, k - 1))
    && Shl(Signed(a), k) + product == BoothProduct(BoothMultiplicand(m), q0, k)
  }

  lemma ProductGrows(m: int, q0: Word, a: int, product: nat, k: nat)
    requires Shl(a, k) + product == BoothProduct(m, q0, k)
    ensures
      var sum := SignedSum(m, a, Bit(q0, k), k > 0 && Bit(q0, k - 1));
      Shl(sum / 2, k + 1) + (product + (if sum % 2 == 1 then Pow2(k) else 0)) == BoothProduct(m, q0, k + 1)
  {
    var previous := k > 0 && Bit(q0, k - 1);
    var sum := SignedSum(m, a, Bit(q0, k), previous);
    AccumulatorShifts(sum, product, k);
    if Bit(q0, k) && !previous {
      ShlSum(a, -m, k);
    } else if !Bit(q0, k) && previous {
      ShlSum(a, m, k);
    }
  }

  lemma BoothStepKeeps(m: Word, q0: Word, a: Word, q: Word, product: nat, k: nat)
    requires k < 32 && BoothInvariant(m, q0, a, q, product, k)
    ensures q % 2 == 1 <==> Bit(q0, k)
    ensures
      var sum := BoothSum(a, m, q % 2 == 1, k > 0 && Bit(q0, k - 1));
      BoothInvariant(m, q0, ArithmeticHalf(sum), ShiftIn(q, sum % 2 == 1), Gained(product, sum, k), k + 1)
  {
    var mm := BoothMultiplicand(m);
    var previous := k > 0 && Bit(q0, k - 1);
    var sum := BoothSum(a, m, Bit(q0, k), previous);
    QShifts(q, q0, product, k, sum % 2 == 1);
    BoothSumExact(m, a, Bit(q0, k), previous);
    HalfExact(sum);
    HalfBounded(mm, Signed(a), Bit(q0, k), previous);
    ProductGrows(mm, q0, Signed(a), product, k);
  }

  /** The loop's `switch` on the current and the previous multiplier bit. */
  method BoothSwitch(a: Word, m: Word, q: Word, qminus: nat) returns (sum: Word)
    requires qminus < 2
    ensures sum == BoothSum(a, m, q % 2 == 1, qminus == 1)
  {
    sum := a;
    match (q % 2, qminus) {
      case (1, 0) => sum := Wrap(a - m);
      case (0, 1) => sum := Wrap(a + m);
      case _ =>
    }
  }

  /** The loop's shift of A:Q. */
  method BoothShift(a: Word, q: Word) returns (half: Word, shifted: Word)
    ensures half == ArithmeticHalf(a) && shifted == ShiftIn(q, a % 2 == 1)
  {
    shifted := q / 2;
    if a % 2 == 1 {
      shifted := shifted + SIGN_BIT;
    }
    half := a / 2;
    if half >= 0x4000_0000 {
      half := half + SIGN_BIT;
    }
  }

  /** The loop: 32 times add or subtract M as two multiplier bits say, then shift A:Q right. */
  method BoothLoop(m: Word, q0: Word) returns (a: Word, q: Word)
    ensures Signed(a) * WORD_MOD + q == BoothMultiplicand(m) * Signed(q0)
  {
    var qminus: nat := 0;
    var count := 32;
    a, q := 0, q0;
    ghost var product: nat := 0;
    ShlBy31(0);
    while count != 0
      invariant 0 <= count <= 32
      invariant BoothInvariant(m, q0, a, q, product, 32 - count)
      invariant qminus == if count < 32 && Bit(q0, 31 - count) then 1 else 0
    {
      BoothStepKeeps(m, q0, a, q, product, 32 - count);
      a := BoothSwitch(a, m, q, qminus);
      product := Gained(product, a, 32 - count);
      qminus := q % 2;
      a, q := BoothShift(a, q);
      count := count - 1;
    }
    BoothFinished(m, q0, a, q, product);
  }

  lemma BoothFinished(m: Word, q0: Word, a: Word, q: Word, product: nat)
    requires BoothInvariant(m, q0, a, q, product, 32)
    ensures Signed(a) * WORD_MOD + q == BoothMultiplicand(m) * Signed(q0)
  {
    BoothProductIsProduct(BoothMultiplicand(m), q0, 32);
    SignedLowWhole(q0);
    ShlBy31(Signed(a));
    LowAndRest(q0, 32);
    LowWhole(q0);
    ShlBy31(Shr(q0, 32));
  }

  lemma BoothExactIff(m: Word, q0: Word)
    ensures BoothMultiplicand(m) * Signed(q0) == Signed(m) * Signed(q0) <==> (m != SIGN_BIT || q0 == 0)
  {
    if m == SIGN_BIT {
      assert Signed(m) * Signed(q0) == -0x8000_0000 * Signed(q0);
    } else {
      assert BoothMultiplicand(m) == Signed(m);
    }
  }

  /** The program's `result`, read as a signed 64-bit number, is the product of the signed multiplier and
      `BoothMultiplicand(m)`: the signed product of M and Q exactly when M is not 0x80000000 or Q is zero. */
  method BoothMultiply(m: Word, q0: Word) returns (result: int)
    ensures result == BoothMultiplicand(m) * Signed(q0)
    ensures result == Signed(m) * Signed(q0) <==> (m != SIGN_BIT || q0 == 0)
  {
    var a, q := BoothLoop(m, q0);
    result := Signed(a) * WORD_MOD + q;
    BoothExactIff(m, q0);
  }

  // ---------------------------------------------------------------------------------------------
  // Shift and add
  // ---------------------------------------------------------------------------------------------

  /** The loop's invariant: A * 2^k + product bits == M * value of the low k multiplier bits. */
  predicate AddInvariant(m: Word, q0: Word, a: Word, q: Word, product: nat, k: nat) {
    QHolds(q, q0, product, k) && Shl(a, k) + product == AddProduct(m, q0, k)
  }

  function AddProduct(m: nat, q: nat, k: nat): int {
    if k == 0 then 0 else AddProduct(m, q, k - 1) + (if Bit(q, k - 1) then Shl(m, k - 1) else 0)
  }

  lemma {:induction false} AddProductIsProduct(m: nat, q: nat, k: nat)
    ensures AddProduct(m, q, k) == m * Low(q, k)
  {
    if k > 0 {
      AddProductIsProduct(m, q, k - 1);
      ShlIsProduct(m, k - 1);
      assert m * (Low(q, k - 1) + Pow2(k - 1)) == m * Low(q, k - 1) + m * Pow2(k - 1);
    }
  }

  /** The carry register completes the 32-bit sum to 33 bits, all of which are kept by the shift. */
  lemma AddStepKeeps(m: Word, q0: Word, a: Word, q: Word, product: nat, k: nat)
    requires k < 32 && AddInvariant(m, q0, a, q, product, k)
    ensures
      var sum := if q % 2 == 1 then a + m else a;
      && sum / 2 < WORD_MOD
      && AddInvariant(m, q0, sum / 2, ShiftIn(q, sum % 2 == 1), Gained(product, sum, k), k + 1)
  {
    var sum := if q % 2 == 1 then a + m else a;
    QShifts(q, q0, product, k, sum % 2 == 1);
    ShlSum(a, m, k);
    AccumulatorShifts(sum, product, k);
  }

  /** The loop's conditional addition, with the carry in C. */
  method AddWithCarryRegister(c: nat, a: Word, m: Word, q: Word) returns (carry: nat, sum: Word)
    requires c == 0
    ensures carry < 2 && carry * WORD_MOD + sum == if q % 2 == 1 then a + m else a
  {
    carry, sum := c, a;
    if q % 2 == 1 {
      carry := if a + m > 0xFFFF_FFFF then 1 else 0;
      sum := Wrap(a + m);
    }
  }

  /** The loop's shift of C:A:Q. */
  method CarryShift(c: nat, a: Word, q: Word) returns (carry: nat, half: Word, shifted: Word)
    requires c < 2
    ensures carry == 0 && half == (c * WORD_MOD + a) / 2 && shifted == ShiftIn(q, a % 2 == 1)
  {
    shifted := q / 2;
    if a % 2 == 1 {
      shifted := shifted + SIGN_BIT;
    }
    half := a / 2;
    if c % 2 == 1 {
      half := half + SIGN_BIT;
    }
    carry := c / 2;
  }

  /** One turn of the loop. */
  method ShiftAddStep(m: Word, ghost q0: Word, c0: nat, a0: Word, q1: Word, ghost product: nat, ghost k: nat)
    returns (c: nat, a: Word, q: Word, ghost gained: nat)
    requires k < 32 && c0 == 0 && AddInvariant(m, q0, a0, q1, product, k)
    ensures c == 0 && AddInvariant(m, q0, a, q, gained, k + 1)
  {
    AddStepKeeps(m, q0, a0, q1, product, k);
    ghost var sum := if q1 % 2 == 1 then a0 + m else a0;
    c, a := AddWithCarryRegister(c0, a0, m, q1);
    assert c * WORD_MOD + a == sum && a % 2 == sum % 2;
    gained := Gained(product, sum, k);
    c, a, q := CarryShift(c, a, q1);
    assert a == sum / 2 && q == ShiftIn(q1, sum % 2 == 1);
  }

  /** The loop: 32 times add M if the multiplier bit is set, then shift C:A:Q right. */
  method ShiftAddLoop(m: Word, q0: Word) returns (a: Word, q: Word)
    ensures a * WORD_MOD + q == m * q0
  {
    var c: nat := 0;
    var count := 32;
    a, q := 0, q0;
    ghost var product: nat := 0;
    ShlBy31(0);
    while count != 0
      invariant 0 <= count <= 32 && c == 0
      invariant AddInvariant(m, q0, a, q, product, 32 - count)
    {
      c, a, q, product := ShiftAddStep(m, q0, c, a, q, product, 32 - count);
      count := count - 1;
    }
    AddFinished(m, q0, a, q, product);
  }

  lemma AddFinished(m: Word, q0: Word, a: Word, q: Word, product: nat)
    requires AddInvariant(m, q0, a, q, product, 32)
    ensures a * WORD_MOD + q == m * q0
  {
    AddProductIsProduct(m, q0, 32);
    ShlBy31(a);
    LowAndRest(q0, 32);
    LowWhole(q0);
    ShlBy31(Shr(q0, 32));
  }

  /** The program's `result` is the exact unsigned product, for every M and Q. */
  method ShiftAddMultiply(m: Word, q0: Word) returns (result: nat)
    ensures result == m * q0
  {
    var a, q := ShiftAddLoop(m, q0);
    result := a * WORD_MOD + q;
  }
}
