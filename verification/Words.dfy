/**
 Machine words shared by the models: bytes, 16-bit and 32-bit unsigned values as bounded
 integers, two's complement readings, powers of two and little-endian byte groups.
 */
module Words {

  type Byte = x: int | 0 <= x < 0x100
  type Half = x: int | 0 <= x < 0x1_0000
  type Word = x: int | 0 <= x < 0x1_0000_0000

  const WORD_MOD := 0x1_0000_0000
  const SIGN_BIT := 0x8000_0000

  datatype Option<+T> = None | Some(value: T)

  /** The low 32 bits of an integer: what a C `uint32_t` keeps of it. */
  function Wrap(x: int): Word {
    x % WORD_MOD
  }

  /** Bit 31. */
  predicate Negative(x: Word) {
    x >= SIGN_BIT
  }

  /** The two's complement reading of a word. */
  function Signed(x: Word): (r: int)
    ensures -0x8000_0000 <= r < 0x8000_0000
    ensures r % WORD_MOD == x
  {
    if Negative(x) then x - WORD_MOD else x
  }

  function Pow2(n: nat): (r: nat)
    ensures r >= 1
  {
    if n == 0 then 1 else 2 * Pow2(n - 1)
  }

  lemma {:induction false} Pow2Add(m: nat, n: nat)
    ensures Pow2(m + n) == Pow2(m) * Pow2(n)
  {
    if m != 0 {
      Pow2Add(m - 1, n);
      assert 2 * (Pow2(m - 1) * Pow2(n)) == (2 * Pow2(m - 1)) * Pow2(n);
    }
  }

  lemma Pow2Of31()
    ensures Pow2(31) == SIGN_BIT && Pow2(32) == WORD_MOD
  {
    assert Pow2(8) == 0x100;
    assert Pow2(16) == 0x1_0000 by { Pow2Add(8, 8); }
    assert Pow2(24) == 0x100_0000 by { Pow2Add(16, 8); }
    assert Pow2(32) == WORD_MOD by { Pow2Add(24, 8); }
  }

  lemma MulLe(a: int, b: int, c: nat)
    requires a <= b
    ensures a * c <= b * c
  {
  }

  /** Quotient and remainder are the only such pair. */
  lemma DivModUnique(q: int, p: int, d: int, m: int)
    requires p > 0 && 0 <= m < p && q == d * p + m
    ensures q / p == d && q % p == m
  {
    var e, n := q / p, q % p;
    assert q == e * p + n;
    assert (e + 1) * p == e * p + p && (d + 1) * p == d * p + p;
    if e < d {
      MulLe(e + 1, d, p);
    } else if e > d {
      MulLe(d + 1, e, p);
    }
  }

  /** Counting one further, modulo n. */
  lemma NextModulo(t: nat, n: nat)
    requires n > 0
    ensures (t + 1) / n == if t % n == n - 1 then t / n + 1 else t / n
    ensures (t + 1) % n == if t % n == n - 1 then 0 else t % n + 1
  {
    var d, m := t / n, t % n;
    assert t == d * n + m;
    if m == n - 1 {
      assert (d + 1) * n == d * n + n;
      DivModUnique(t + 1, n, d + 1, 0);
    } else {
      DivModUnique(t + 1, n, d, m + 1);
    }
  }

  lemma DivDivParts(t: nat, a: nat, b: nat, d: nat, m: nat, e: nat, n: nat)
    requires m < a && n < b && t == d * a + m && d == e * b + n
    ensures a * b > 0 && t / (a * b) == e
  {
    MixedRadix(a, b, e, n, m);
    DivModUnique(t, a * b, e, n * a + m);
  }

  lemma DivDiv(t: nat, a: nat, b: nat)
    requires a > 0 && b > 0
    ensures a * b > 0 && t / a / b == t / (a * b)
  {
    var d, m := t / a, t % a;
    var e, n := d / b, d % b;
    DivDivParts(t, a, b, d, m, e, n);
  }

  lemma MixedRadix(a: nat, b: nat, e: nat, n: nat, m: nat)
    requires n < b && m < a
    ensures (e * b + n) * a + m == e * (a * b) + (n * a + m)
    ensures n * a + m < a * b
  {
    assert (e * b + n) * a == (e * b) * a + n * a && (e * b) * a == e * (b * a);
    MulLe(n + 1, b, a);
    assert (n + 1) * a == n * a + a;
  }

  /** The little-endian value of a byte string. */
  function LittleEndian(s: seq<Byte>): (r: nat)
  {
    if s == [] then 0 else s[0] + 0x100 * LittleEndian(s[1..])
  }

  // ---------------------------------------------------------------------------------------------
  // The bytes of a word
  // ---------------------------------------------------------------------------------------------

  datatype Bytes = Bytes(b3: Byte, b2: Byte, b1: Byte, b0: Byte)

  function BytesOf(w: Word): Bytes {
    var q := w / 0x100;
    var r := q / 0x100;
    Bytes(r / 0x100, r % 0x100, q % 0x100, w % 0x100)
  }

  function Joined(b: Bytes): Word {
    b.b0 + 0x100 * (b.b1 + 0x100 * (b.b2 + 0x100 * b.b3))
  }

  lemma PeelByte(b: Byte, x: nat)
    ensures (b + 0x100 * x) / 0x100 == x && (b + 0x100 * x) % 0x100 == b
  {
  }

  /** A word is its four bytes. */
  lemma BytesAreWords(w: Word, b: Bytes)
    ensures Joined(BytesOf(w)) == w
    ensures BytesOf(Joined(b)) == b
  {
    PeelByte(b.b0, b.b1 + 0x100 * (b.b2 + 0x100 * b.b3));
    PeelByte(b.b1, b.b2 + 0x100 * b.b3);
    PeelByte(b.b2, b.b3);
  }

  /** Exchanging the low byte. */
  lemma LowByteExchanged(b: Bytes, low: Byte)
    ensures Joined(b) % 0x100 == b.b0
    ensures Joined(b) / 0x100 * 0x100 + low == Joined(b.(b0 := low))
  {
    PeelByte(b.b0, b.b1 + 0x100 * (b.b2 + 0x100 * b.b3));
  }

  // ---------------------------------------------------------------------------------------------
  // The bits of a number
  // ---------------------------------------------------------------------------------------------

  /** q >> k */
  function Shr(q: nat, k: nat): nat {
    if k == 0 then q else Shr(q, k - 1) / 2
  }

  predicate Bit(q: nat, k: nat) {
    Shr(q, k) % 2 == 1
  }
}
