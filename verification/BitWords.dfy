/**
 Machine words as bit strings: the 32 bits of a word, bit 0 first, with C's operators on `unsigned int`.
 Used where the source works with masks and with shifts by computed amounts.
 */
module BitWords {
  import opened Words

  type Bits = b: seq<bool> | |b| == 32 witness
    [false, false, false, false, false, false, false, false,
     false, false, false, false, false, false, false, false,
     false, false, false, false, false, false, false, false,
     false, false, false, false, false, false, false, false]

  function And(a: Bits, b: Bits): Bits {
    seq(32, i requires 0 <= i < 32 => a[i] && b[i])
  }

  function Or(a: Bits, b: Bits): Bits {
    seq(32, i requires 0 <= i < 32 => a[i] || b[i])
  }

  function Not(a: Bits): Bits {
    seq(32, i requires 0 <= i < 32 => !a[i])
  }

  function ShiftLeft(a: Bits, n: nat): Bits {
    seq(32, i requires 0 <= i < 32 => i >= n && a[i - n])
  }

  function ShiftRight(a: Bits, n: nat): Bits {
    seq(32, i requires 0 <= i < 32 => i + n < 32 && a[i + n])
  }

  function Zeros(): Bits {
    seq(32, _ => false)
  }

  function Ones(): Bits {
    seq(32, _ => true)
  }

  function One(): Bits {
    seq(32, i => i == 0)
  }

  /** The number that the lowest n bits stand for. */
  function Value(a: Bits, n: nat): nat
    requires n <= 32
  {
    if n == 0 then 0 else Value(a, n - 1) + (if a[n - 1] then Pow2(n - 1) else 0)
  }

  /** The lowest n bits of a word. */
  function LowBits(a: Bits, n: int): Bits {
    seq(32, i requires 0 <= i < 32 => i < n && a[i])
  }

  /** A mask with the bits from `from` up to but not including `upto`. */
  function Mask(from: int, upto: int): Bits {
    seq(32, i requires 0 <= i < 32 => from <= i < upto)
  }

  lemma {:induction false} ValueOfLowBits(a: Bits, n: nat, k: nat)
    requires k <= 32
    ensures Value(LowBits(a, n), k) == Value(a, if n < k then n else k)
  {
    if k > 0 {
      ValueOfLowBits(a, n, k - 1);
    }
  }

  /** The low n bits of a number are the number modulo 2^n. */
  lemma {:induction false} ValueModulo(a: Bits, n: nat, k: nat)
    requires n <= k <= 32
    ensures Value(a, n) < Pow2(n) && Value(a, k) % Pow2(n) == Value(a, n)
  {
    if k == n {
      ValueBound(a, n);
      DivModUnique(Value(a, n), Pow2(n), 0, Value(a, n));
    } else {
      ValueModulo(a, n, k - 1);
      if a[k - 1] {
        Pow2Add(k - 1 - n, n);
        AddMultiple(Value(a, k - 1), Pow2(n), Pow2(k - 1 - n));
      }
    }
  }

  lemma {:induction false} ValueBound(a: Bits, n: nat)
    requires n <= 32
    ensures Value(a, n) < Pow2(n)
  {
    if n > 0 {
      ValueBound(a, n - 1);
    }
  }

  lemma AddMultiple(x: nat, p: nat, d: nat)
    requires p > 0
    ensures (x + d * p) % p == x % p
  {
    assert x == x / p * p + x % p;
    assert (x / p + d) * p == x / p * p + d * p;
    DivModUnique(x + d * p, p, x / p + d, x % p);
  }
}
