/** Fixed-width integers, least significant byte first, as `binary.LittleEndian` and `to_le_bytes`
    write them.
  */
module LittleEndian {
  import opened Words

  /** 256 to the power `k`. */
  function Radix(k: nat): (r: nat)
    ensures r > 0
  {
    if k == 0 then 1 else 256 * Radix(k - 1)
  }

  const TWO32: int := 0x1_0000_0000

  type u32 = n: nat | n < 0x1_0000_0000

  function LE(n: nat, k: nat): (s: seq<byte>)
    ensures |s| == k
  {
    if k == 0 then [] else [n % 256] + LE(n / 256, k - 1)
  }

  function FromLE(s: seq<byte>): nat {
    if s == [] then 0 else s[0] + 256 * FromLE(s[1..])
  }

  lemma Widths()
    ensures Radix(4) == TWO32 && Radix(8) == TWO64
  {
    assert Radix(2) == 0x1_0000 && Radix(6) == 0x1_0000 * Radix(4);
  }

  lemma {:induction false} FromLEBound(s: seq<byte>)
    ensures FromLE(s) < Radix(|s|)
  {
    if s != [] { FromLEBound(s[1..]); }
  }

  lemma {:induction false} IntegerComesBack(n: nat, k: nat)
    requires n < Radix(k)
    ensures FromLE(LE(n, k)) == n
  {
    if k > 0 {
      IntegerComesBack(n / 256, k - 1);
      assert LE(n, k)[1..] == LE(n / 256, k - 1);
    }
  }

  lemma LowByte(low: byte, hi: nat)
    ensures (low + 256 * hi) % 256 == low && (low + 256 * hi) / 256 == hi
  {}

  lemma {:induction false} BytesComeBack(s: seq<byte>)
    ensures LE(FromLE(s), |s|) == s
  {
    if s != [] {
      BytesComeBack(s[1..]);
      var hi := FromLE(s[1..]);
      LowByte(s[0], hi);
      assert [s[0]] + s[1..] == s;
    }
  }

  function ReadU32(s: seq<byte>): u32
    requires |s| == 4
  {
    FromLEBound(s);
    Widths();
    FromLE(s)
  }

  function ReadU64(s: seq<byte>): u64
    requires |s| == 8
  {
    FromLEBound(s);
    Widths();
    FromLE(s)
  }

  lemma U32ComesBack(n: u32)
    ensures ReadU32(LE(n, 4)) == n
  {
    Widths();
    IntegerComesBack(n, 4);
  }

  lemma U64ComesBack(n: u64)
    ensures ReadU64(LE(n, 8)) == n
  {
    Widths();
    IntegerComesBack(n, 8);
  }

  lemma I64ComesBack(i: i64)
    ensures ToI64(ToU64(i)) == i
    ensures ToI64(ReadU64(LE(ToU64(i), 8))) == i
  {
    U64ComesBack(ToU64(i));
    ModShift(i, 1);
    ModSmall(0, if i < 0 then i + TWO64 else i);
  }

  lemma WordIsItsInteger(u: u64)
    ensures ToU64(ToI64(u)) == u
  {
    ModSmall(0, u);
    ModShift(u, -1);
  }

  // ---------------------------------------------------------------- by position

  lemma DivideTwice(n: nat, b: nat)
    requires b > 0
    ensures n / 256 / b == n / (256 * b)
  {
    var q, r := n / 256, n % 256;
    var p, t := q / b, q % b;
    assert n == 256 * q + r && q == b * p + t;
    Quotient(n, 256 * b, p, 256 * t + r) by {
      assert 256 * (b * p + t) + r == p * (256 * b) + (256 * t + r);
    }
  }

  lemma Quotient(n: nat, m: nat, p: nat, r: nat)
    requires m > 0 && n == p * m + r && r < m
    ensures n / m == p
  {
    var q := n / m;
    assert n == q * m + n % m;
    Distribute(1, q, 1, m);
    Distribute(1, p, 1, m);
    if q < p { MulMonotone(q + 1, p, m); }
    if q > p { MulMonotone(p + 1, q, m); }
  }

  /** Byte `i` is the digit of 256 to the `i`. */
  lemma {:induction false} LEDigit(n: nat, k: nat, i: nat)
    requires i < k
    ensures LE(n, k)[i] == n / Radix(i) % 256
  {
    if i > 0 {
      LEDigit(n / 256, k - 1, i - 1);
      DivideTwice(n, Radix(i - 1));
    }
  }
}
