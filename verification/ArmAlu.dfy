/**
 The adder, the flags and the condition check of armv7/src/arm_isa.cpp, compared with `AddWithCarry`
 (section A2.2.1 of ARM DDI 0406C) and with the meaning of the conditions (section A8.3).

 Subtraction adds the negated operand instead of the complemented operand and a carry. The sum and the
 result are the architecture's; the theorems say for which operands the flags are, too.
 */
module ArmAlu {
  import opened Words

  /** A result with the four condition flags. */
  datatype Alu = Alu(value: Word, n: bool, z: bool, c: bool, v: bool)

  /** Both operands have one sign and the result has the other. */
  predicate SignsOverflow(a: Word, b: Word, r: Word) {
    (Negative(a) && Negative(b) && !Negative(r)) || (!Negative(a) && !Negative(b) && Negative(r))
  }

  function Flagged(value: Word, c: bool, v: bool): Alu {
    Alu(value, Negative(value), value == 0, c, v)
  }

  function Adc(a: Word, b: Word, carry: bool): Alu {
    var sum := a + b + (if carry then 1 else 0);
    Flagged(Wrap(sum), sum / WORD_MOD != 0, SignsOverflow(a, b, Wrap(sum)))
  }

  function Add(a: Word, b: Word): Alu {
    Adc(a, b, false)
  }

  /** The two's complement of a word. */
  function Negate(x: Word): Word {
    Wrap(0 - x)
  }

  function Sub(a: Word, b: Word): Alu {
    var neg := Negate(b);
    var r := Wrap(a + neg);
    Flagged(r, !(b > a), SignsOverflow(a, neg, r))
  }

  function Sbc(a: Word, b: Word, carry: bool): Alu {
    var neg := if carry then Negate(b) else Wrap(Negate(b) as int - 1);
    var r := Wrap(a + neg);
    Flagged(r, !(b > a), SignsOverflow(a, neg, r))
  }

  // ---------------------------------------------------------------------------------------------
  // The architecture's adder
  // ---------------------------------------------------------------------------------------------

  function Complement(x: Word): Word {
    0xFFFF_FFFF - x
  }

  function AddWithCarry(x: Word, y: Word, carry: bool): Alu {
    var c := if carry then 1 else 0;
    var r := Wrap(x + y + c);
    Flagged(r, r != x + y + c, Signed(r) != Signed(x) + Signed(y) + c)
  }

  lemma AdcIsAddWithCarry(a: Word, b: Word, carry: bool)
    ensures Adc(a, b, carry) == AddWithCarry(a, b, carry)
  {
  }

  lemma WrapOnce(x: nat)
    requires x < 2 * WORD_MOD
    ensures Wrap(x) == if x < WORD_MOD then x else x - WORD_MOD
  {
  }

  lemma Negation(b: Word)
    ensures Negate(b) == if b == 0 then 0 else WORD_MOD - b
  {
  }

  /** The difference as SUB computes it, without the wrap. */
  lemma Difference(a: Word, b: Word)
    ensures Sub(a, b).value == if a >= b then a - b else a - b + WORD_MOD
    ensures Negate(b) == if b == 0 then 0 else WORD_MOD - b
  {
    Negation(b);
    WrapOnce(a + Negate(b));
  }

  /** SUB, and CMP, and RSB with its operands exchanged: everything but V is right, and V is right exactly
      when the subtrahend is not 0x80000000. */
  lemma SubMatchesIff(a: Word, b: Word)
    ensures Sub(a, b) == AddWithCarry(a, Complement(b), true).(v := Sub(a, b).v)
    ensures Sub(a, b).v == AddWithCarry(a, Complement(b), true).v <==> b != SIGN_BIT
  {
    Difference(a, b);
    WrapOnce(a + Complement(b) + 1);
    LessAfterSub(a, b);
  }

  /** SBC: the result is right; C ignores the incoming borrow, which matters exactly for equal operands;
      V is right unless 0x80000000 is subtracted without borrow. */
  lemma SbcMatchesIff(a: Word, b: Word, carry: bool)
    ensures Sbc(a, b, carry).value == AddWithCarry(a, Complement(b), carry).value
    ensures Sbc(a, b, carry).c == AddWithCarry(a, Complement(b), carry).c <==> carry || a != b
    ensures Sbc(a, b, carry).v == AddWithCarry(a, Complement(b), carry).v <==> !carry || b != SIGN_BIT
  {
    if carry {
      SubMatchesIff(a, b);
    } else {
      assert Wrap(Negate(b) as int - 1) == Complement(b);
      AdcIsAddWithCarry(a, Complement(b), false);
    }
  }

  // ---------------------------------------------------------------------------------------------
  // Conditions
  // ---------------------------------------------------------------------------------------------

  /** The switch on the condition field; 15 never executes. */
  predicate Executes(cond: nat, n: bool, z: bool, c: bool, v: bool) {
    match cond
    case 0 => z
    case 1 => !z
    case 2 => c
    case 3 => !c
    case 4 => n
    case 5 => !n
    case 6 => v
    case 7 => !v
    case 8 => c && !z
    case 9 => !c || z
    case 10 => n == v
    case 11 => n != v
    case 12 => !z && n == v
    case 13 => z || n != v
    case 14 => true
    case _ => false
  }

  predicate ExecutesAfter(cond: nat, r: Alu) {
    Executes(cond, r.n, r.z, r.c, r.v)
  }

  /** After a comparison EQ, NE, HS, LO, HI and LS execute exactly when the unsigned relation holds. */
  lemma UnsignedConditions(a: Word, b: Word)
    ensures ExecutesAfter(0, Sub(a, b)) <==> a == b
    ensures ExecutesAfter(1, Sub(a, b)) <==> a != b
    ensures ExecutesAfter(2, Sub(a, b)) <==> a >= b
    ensures ExecutesAfter(3, Sub(a, b)) <==> a < b
    ensures ExecutesAfter(8, Sub(a, b)) <==> a > b
    ensures ExecutesAfter(9, Sub(a, b)) <==> a <= b
  {
  }

  /** N differs from V exactly after a signed "less", but always against 0x80000000. */
  lemma LessAfterSub(a: Word, b: Word)
    ensures Sub(a, b).n != Sub(a, b).v <==> b == SIGN_BIT || Signed(a) < Signed(b)
    ensures Sub(a, b).z <==> a == b
  {
    Difference(a, b);
    if Negative(b) {
      assert Negative(Negate(b)) <==> b == SIGN_BIT;
    } else {
      assert Negative(Negate(b)) <==> b != 0;
    }
  }

  /** GE, LT, GT and LE execute exactly when the signed relation holds, if 0x80000000 is not compared with;
      against 0x80000000, the least number, LT and LE always execute and GE and GT never do. */
  lemma SignedConditions(a: Word, b: Word)
    ensures ExecutesAfter(10, Sub(a, b)) <==> b != SIGN_BIT && Signed(a) >= Signed(b)
    ensures ExecutesAfter(11, Sub(a, b)) <==> b == SIGN_BIT || Signed(a) < Signed(b)
    ensures ExecutesAfter(12, Sub(a, b)) <==> b != SIGN_BIT && Signed(a) > Signed(b)
    ensures ExecutesAfter(13, Sub(a, b)) <==> b == SIGN_BIT || Signed(a) <= Signed(b)
  {
    LessAfterSub(a, b);
    var r := Sub(a, b);
    assert ExecutesAfter(10, r) <==> r.n == r.v;
    assert ExecutesAfter(12, r) <==> !r.z && r.n == r.v;
    assert Signed(a) == Signed(b) <==> a == b;
  }

  /** Which signed conditions are right for which operands: GE and LT if and only if the second one is not
      0x80000000, GT and LE if and only if it is not or both are. */
  lemma SignedConditionsIff(a: Word, b: Word)
    ensures (ExecutesAfter(10, Sub(a, b)) <==> Signed(a) >= Signed(b)) <==> b != SIGN_BIT
    ensures (ExecutesAfter(11, Sub(a, b)) <==> Signed(a) < Signed(b)) <==> b != SIGN_BIT
    ensures (ExecutesAfter(12, Sub(a, b)) <==> Signed(a) > Signed(b)) <==> b != SIGN_BIT || a == SIGN_BIT
    ensures (ExecutesAfter(13, Sub(a, b)) <==> Signed(a) <= Signed(b)) <==> b != SIGN_BIT || a == SIGN_BIT
  {
    SignedConditions(a, b);
    assert b == SIGN_BIT ==> Signed(b) == -0x8000_0000;
  }

  // ---------------------------------------------------------------------------------------------
  // Multiword addition
  // ---------------------------------------------------------------------------------------------

  /** Numbers as limbs, least significant first. */
  function Number(limbs: seq<Word>): nat {
    if limbs == [] then 0 else limbs[0] + WORD_MOD * Number(limbs[1..])
  }

  /** The signed number, with the sign in the top limb. */
  function SignedNumber(limbs: seq<Word>): int
    requires limbs != []
  {
    if |limbs| == 1 then Signed(limbs[0]) else limbs[0] + WORD_MOD * SignedNumber(limbs[1..])
  }

  /** 2^(32n) */
  function LimbPower(n: nat): nat {
    if n == 0 then 1 else WORD_MOD * LimbPower(n - 1)
  }

  /** Flag-setting ADC, limb by limb from the least significant one. */
  function AdcChain(a: seq<Word>, b: seq<Word>, carry: bool): (r: seq<Alu>)
    requires |a| == |b|
    ensures |r| == |a|
  {
    if a == [] then [] else var r := Adc(a[0], b[0], carry); [r] + AdcChain(a[1..], b[1..], r.c)
  }

  function Values(r: seq<Alu>): (w: seq<Word>)
    ensures |w| == |r|
  {
    if r == [] then [] else [r[0].value] + Values(r[1..])
  }

  /** The carry after a chain, and before it if it is empty. */
  function CarryOut(r: seq<Alu>, carry: bool): bool {
    if r == [] then carry else r[|r| - 1].c
  }

  /** A chain adds exactly: the result and the last carry make up the sum of the two numbers. */
  lemma {:induction false} AdcChainAdds(a: seq<Word>, b: seq<Word>, carry: bool)
    requires |a| == |b|
    ensures
      var r := AdcChain(a, b, carry);
      Number(Values(r)) + (if CarryOut(r, carry) then LimbPower(|a|) else 0)
      == Number(a) + Number(b) + (if carry then 1 else 0)
  {
    if a != [] {
      var first := Adc(a[0], b[0], carry);
      var rest := AdcChain(a[1..], b[1..], first.c);
      AdcChainAdds(a[1..], b[1..], first.c);
      ChainParts(a, b, carry);
      AdcKeepsSum(a[0], b[0], carry);
    }
  }

  lemma ChainParts(a: seq<Word>, b: seq<Word>, carry: bool)
    requires |a| == |b| && a != []
    ensures
      var first := Adc(a[0], b[0], carry);
      var r := AdcChain(a, b, carry);
      var rest := AdcChain(a[1..], b[1..], first.c);
      && r[0] == first && r[1..] == rest
      && Values(r)[0] == first.value && Values(r)[1..] == Values(rest)
      && CarryOut(r, carry) == CarryOut(rest, first.c)
  {
    var first := Adc(a[0], b[0], carry);
    var rest := AdcChain(a[1..], b[1..], first.c);
    var r := [first] + rest;
    assert AdcChain(a, b, carry) == r && r[1..] == rest;
    assert Values(r) == [first.value] + Values(rest);
    assert rest != [] ==> r[|r| - 1] == rest[|rest| - 1];
  }

  lemma AdcKeepsSum(a: Word, b: Word, carry: bool)
    ensures Adc(a, b, carry).value + (if Adc(a, b, carry).c then WORD_MOD else 0)
            == a as int + b as int + (if carry then 1 else 0)
  {
  }

  /** V after the last limb is set exactly when the signed sum does not fit. */
  lemma {:induction false} AdcChainOverflow(a: seq<Word>, b: seq<Word>, carry: bool)
    requires |a| == |b| && a != []
    ensures
      var r := AdcChain(a, b, carry);
      r[|r| - 1].v <==> SignedNumber(Values(r)) != SignedNumber(a) + SignedNumber(b) + (if carry then 1 else 0)
  {
    ChainParts(a, b, carry);
    var first := Adc(a[0], b[0], carry);
    if |a| == 1 {
      AdcIsAddWithCarry(a[0], b[0], carry);
    } else {
      AdcChainOverflow(a[1..], b[1..], first.c);
      AdcKeepsSum(a[0], b[0], carry);
      var r := AdcChain(a, b, carry);
      assert r[1..][|r| - 2] == r[|r| - 1];
    }
  }
}
