/** Bytes and 64-bit machine words.

    Words are natural numbers below 2^64.  The bit operators that the LEB128 loops use are
    defined bit by bit, and shifting drops every bit that leaves the word, as in Go.
  */
module Words {

  type byte = n: nat | n < 0x100

  const TWO63: int := 0x8000_0000_0000_0000
  const TWO64: int := 0x1_0000_0000_0000_0000

  type u64 = n: nat | n < 0x1_0000_0000_0000_0000
  type i64 = n: int | -0x8000_0000_0000_0000 <= n < 0x8000_0000_0000_0000

  datatype Option<+T> = None | Some(value: T)

  function Pow2(k: nat): (r: nat)
    ensures r > 0
  {
    if k == 0 then 1 else 2 * Pow2(k - 1)
  }

  /** Go's conversion of any integer to uint64. */
  function ToU64(x: int): u64 {
    x % TWO64
  }

  /** Go's conversion of a uint64 to int64. */
  function ToI64(x: u64): i64 {
    if x < TWO63 then x else x - TWO64
  }

  /** The value of `x` in two's complement arithmetic on 64 bits. */
  function Wrap(x: int): i64 {
    ToI64(ToU64(x))
  }

  /** `x + y` on 64-bit words. */
  function AddU64(x: nat, y: nat): nat {
    if x + y < TWO64 then x + y else x + y - TWO64
  }

  function BitOr(a: nat, b: nat): nat
    decreases a + b
  {
    if a == 0 && b == 0 then 0
    else (if a % 2 == 1 || b % 2 == 1 then 1 else 0) + 2 * BitOr(a / 2, b / 2)
  }

  function BitAnd(a: nat, b: nat): nat {
    if a == 0 || b == 0 then 0
    else (if a % 2 == 1 && b % 2 == 1 then 1 else 0) + 2 * BitAnd(a / 2, b / 2)
  }

  /** `x << k` on a 64-bit word. */
  function Shl64(x: nat, k: nat): u64 {
    x * Pow2(k) % TWO64
  }

  lemma {:induction false} Pow2Add(a: nat, b: nat)
    ensures Pow2(a + b) == Pow2(a) * Pow2(b)
  {
    if a > 0 {
      Pow2Add(a - 1, b);
      assert Pow2(a + b) == 2 * Pow2(a - 1 + b);
    }
  }

  lemma Pow2Facts()
    ensures Pow2(6) == 64 && Pow2(7) == 128
    ensures Pow2(63) == TWO63 && Pow2(64) == TWO64
  {
    assert Pow2(8) == 256;
    Pow2Add(8, 8);
    Pow2Add(16, 16);
    Pow2Add(32, 31);
    assert Pow2(31) == 0x8000_0000 by { Pow2Add(16, 15); }
    Pow2Add(32, 32);
  }

  lemma {:induction false} Pow2Monotone(a: nat, b: nat)
    requires a <= b
    ensures Pow2(a) <= Pow2(b)
  {
    Pow2Add(b - a, a);
    assert Pow2(b - a) * Pow2(a) >= 1 * Pow2(a);
  }

  lemma {:induction false} OrZero(b: nat)
    ensures BitOr(0, b) == b && BitOr(b, 0) == b
  {
    if b > 0 { OrZero(b / 2); }
  }

  /** Or-ing in bits above position `k` to a word that only has bits below it is addition. */
  lemma {:induction false} OrShifted(a: nat, c: nat, k: nat)
    requires a < Pow2(k)
    ensures BitOr(a, c * Pow2(k)) == a + c * Pow2(k)
  {
    if k == 0 {
      assert c * Pow2(k) == c;
      OrZero(c);
    } else {
      var b := c * Pow2(k - 1);
      assert c * Pow2(k) == 2 * b;
      OrShifted(a / 2, c, k - 1);
      if a != 0 || b != 0 {
        assert (2 * b) / 2 == b && (2 * b) % 2 == 0;
      }
    }
  }

  lemma ModSmall(q: int, r: nat)
    requires r < TWO64
    ensures (q * TWO64 + r) % TWO64 == r
  {}

  /** Two numbers that differ by a multiple of 2^64 are the same word. */
  lemma ModShift(x: int, q: int)
    ensures ToU64(x + q * TWO64) == ToU64(x)
  {
    var d, m := x / TWO64, x % TWO64;
    assert x + q * TWO64 == (d + q) * TWO64 + m;
    ModSmall(d + q, m);
  }

  lemma MulMonotone(a: nat, b: nat, c: nat)
    requires a <= b
    ensures a * c <= b * c
  {}

  lemma Distribute(q: int, m: int, r: int, p: int)
    ensures (q * m + r) * p == q * (m * p) + r * p
  {}

  /** A number is a multiple of `m` plus a remainder below `m`. */
  lemma {:induction false} Euclid(x: nat, m: nat) returns (q: nat, r: nat)
    requires m > 0
    ensures x == q * m + r && r < m
  {
    if x < m {
      q, r := 0, x;
    } else {
      q, r := Euclid(x - m, m);
      q := q + 1;
      Distribute(1, 1, q - 1, m);
    }
  }

  /** Splits `x << k` into the part that stays inside a word and the part that leaves it. */
  lemma ShlSplit(x: nat, k: nat) returns (c: nat, d: nat)
    requires k <= 64
    ensures x * Pow2(k) == d * TWO64 + c * Pow2(k)
    ensures c * Pow2(k) + Pow2(k) <= TWO64
    ensures Shl64(x, k) == c * Pow2(k)
  {
    Pow2Facts();
    Pow2Add(64 - k, k);
    var m, p := Pow2(64 - k), Pow2(k);
    assert m * p == TWO64;
    d, c := Euclid(x, m);
    Distribute(d, m, c, p);
    MulMonotone(c + 1, m, p);
    Distribute(1, c, 1, p);
    ModSmall(d, c * p);
  }

  lemma ShlOut(x: nat, k: nat) returns (q: nat)
    requires k >= 64
    ensures x * Pow2(k) == q * TWO64
    ensures Shl64(x, k) == 0
  {
    Pow2Facts();
    Pow2Add(k - 64, 64);
    q := x * Pow2(k - 64);
    Distribute(x, Pow2(k - 64), 0, TWO64);
    ModSmall(q, 0);
  }

  /** Setting the next bits of a word with `|` and `<<` adds them, modulo 2^64. */
  lemma OrShl(u: nat, x: nat, k: nat)
    requires u < Pow2(k)
    ensures BitOr(ToU64(u), Shl64(x, k)) == ToU64(u + x * Pow2(k))
  {
    if k >= 64 {
      var q := ShlOut(x, k);
      OrZero(ToU64(u));
      ModShift(u, q);
    } else {
      var c, d := ShlSplit(x, k);
      var p := Pow2(k);
      assert u + c * p < TWO64;
      OrShifted(u, c, k);
      ModSmall(0, u);
      ModShift(u + c * p, d);
      ModSmall(0, u + c * p);
    }
  }

  /** The seven low bits of a byte. */
  function Low7(c: byte): nat {
    if c < 128 then c else c - 128
  }

  /** What the masks in the LEB128 readers select from one byte. */
  lemma ByteMasks(c: byte)
    ensures BitAnd(c, 0x7f) == Low7(c)
    ensures BitAnd(c, 0x80) == 0 <==> c < 128
    ensures BitAnd(c, 0x40) > 0 <==> Low7(c) >= 64
    ensures BitAnd(c, 0x7e) > 0 <==> Low7(c) >= 2
  {
    ByteParts(c);
    assert BitAnd(c, 0x7f) == c % 128 by { Mask7(c, c / 128, c % 128); }
    assert BitAnd(c, 0x80) == c / 128 * 0x80 by { Bit7(c, c / 128, c % 128); }
    assert BitAnd(c, 0x40) == c / 64 % 2 * 0x40 by { Bit6(c, c / 64, c % 64); }
    assert BitAnd(c, 0x7e) == 2 * (c / 2 % 64) by { Mask7e(c, c / 2, c / 128, c / 2 % 64); }
  }

  lemma ByteParts(c: byte)
    ensures c % 128 == Low7(c)
    ensures c / 128 % 2 == c / 128
    ensures c / 64 % 2 == 1 <==> c % 128 >= 64
    ensures c / 2 == c / 128 * 64 + c / 2 % 64
    ensures c / 2 % 64 > 0 <==> c % 128 >= 2
  {}

  lemma Mask7(x: nat, q: nat, r: nat)
    requires x == q * 128 + r && r < 128
    ensures BitAnd(x, 0x7f) == r
  {
    Pow2Facts();
    MaskLow(q, r, 7);
  }

  lemma Mask7e(x: nat, h: nat, q: nat, r: nat)
    requires h == x / 2 == q * 64 + r && r < 64
    ensures BitAnd(x, 0x7e) == 2 * r
  {
    Pow2Facts();
    MaskLow(q, r, 6);
    AndEven(x, 63);
  }

  lemma Bit7(x: nat, q: nat, r: nat)
    requires x == q * 128 + r && r < 128
    ensures BitAnd(x, 0x80) == q % 2 * 0x80
  {
    Pow2Facts();
    OneBit(q, r, 7);
  }

  lemma Bit6(x: nat, q: nat, r: nat)
    requires x == q * 64 + r && r < 64
    ensures BitAnd(x, 0x40) == q % 2 * 0x40
  {
    Pow2Facts();
    OneBit(q, r, 6);
  }

  lemma Halve(q: nat, m: nat, r: nat)
    ensures (q * (2 * m) + r) / 2 == q * m + r / 2
    ensures (q * (2 * m) + r) % 2 == r % 2
  {
    var p := q * m;
    assert q * (2 * m) == 2 * p;
  }

  lemma {:induction false} MaskLow(q: nat, r: nat, k: nat)
    requires r < Pow2(k)
    ensures BitAnd(q * Pow2(k) + r, Pow2(k) - 1) == r
  {
    if k > 0 {
      var m := Pow2(k - 1);
      Halve(q, m, r);
      MaskLow(q, r / 2, k - 1);
      AndOdd(q * (2 * m) + r, m - 1);
    }
  }

  lemma {:induction false} OneBit(q: nat, r: nat, k: nat)
    requires r < Pow2(k)
    ensures BitAnd(q * Pow2(k) + r, Pow2(k)) == q % 2 * Pow2(k)
  {
    if k == 0 {
      AndOdd(q, 0);
    } else {
      var m := Pow2(k - 1);
      Halve(q, m, r);
      OneBit(q, r / 2, k - 1);
      AndEven(q * (2 * m) + r, m);
    }
  }

  lemma AndOdd(x: nat, m: nat)
    ensures BitAnd(x, 2 * m + 1) == x % 2 + 2 * BitAnd(x / 2, m)
  {
    assert (2 * m + 1) / 2 == m && (2 * m + 1) % 2 == 1;
  }

  lemma AndEven(x: nat, m: nat)
    ensures BitAnd(x, 2 * m) == 2 * BitAnd(x / 2, m)
  {
    assert (2 * m) / 2 == m && (2 * m) % 2 == 0;
  }
}
