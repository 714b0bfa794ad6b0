/** The four LEB128 routines of the repository, against the encodings of section 7.6 of DWARF 5.

    - `Leb128`, `ReadULEB` and `ReadSLEB` are the strict routines of the debug tool
      (cmd/automerge-debug/main.go).
    - `ReadULEB128` is the lenient reader used to split a stream of changes
      (internal/wazero/wazero.go).

    The readers' loops are specified without reference to how they iterate: by the position of
    the first byte with a clear top bit and by the number that the bytes up to it denote.
  */
module Leb128 {
  import opened Words

  // ---------------------------------------------------------------- the encodings of DWARF 5

  /** The number denoted by a run of seven-bit groups, least significant group first. */
  function UValue(s: seq<byte>): nat {
    if s == [] then 0 else Low7(s[0]) + 128 * UValue(s[1..])
  }

  /** The signed number denoted by a run of groups: bit 6 of the last byte is the sign. */
  function SValue(s: seq<byte>): int
    requires s != []
  {
    if |s| == 1 then SignExtend(s[0]) else Low7(s[0]) + 128 * SValue(s[1..])
  }

  function SignExtend(c: byte): int {
    if Low7(c) >= 64 then Low7(c) - 128 else Low7(c)
  }

  /** The shortest unsigned encoding. */
  function ULEB(n: nat): (s: seq<byte>)
    ensures s != []
  {
    if n < 128 then [n] else [128 + n % 128] + ULEB(n / 128)
  }

  /** The shortest signed encoding. */
  function SLEB(v: int): (s: seq<byte>)
    ensures s != []
    decreases if v < 0 then -v else v
  {
    if -64 <= v < 64 then [v % 128] else [128 + v % 128] + SLEB(v / 128)
  }

  /** The index of the first byte whose top bit is clear, or the length if there is none. */
  function EndAt(b: seq<byte>): (k: nat)
    ensures k <= |b|
    ensures forall j :: 0 <= j < k ==> b[j] >= 128
    ensures k < |b| ==> b[k] < 128
  {
    if b == [] || b[0] < 128 then 0 else 1 + EndAt(b[1..])
  }

  /** `s` is one complete group sequence: only its last byte has a clear top bit. */
  predicate OneLeb(s: seq<byte>) {
    s != [] && EndAt(s) == |s| - 1
  }

  // ---------------------------------------------------------------- what the readers return

  datatype LebError = Truncated | OverlyLong | TooBig

  /** Every reader returns a value and the unread bytes even when it also returns an error. */
  datatype Read<V> = Read(value: V, rest: seq<byte>, err: Option<LebError>)

  function ULebError(s: seq<byte>): Option<LebError>
    requires s != []
  {
    var c := s[|s| - 1];
    if c == 0 && |s| > 1 then Some(OverlyLong)
    else if |s| > 10 then Some(TooBig)
    else if |s| == 10 && c >= 2 then Some(TooBig)
    else None
  }

  function SLebError(s: seq<byte>): Option<LebError>
    requires s != []
  {
    var c := s[|s| - 1];
    if |s| > 1 && c == (if Low7(s[|s| - 2]) < 64 then 0 else 0x7f) then Some(OverlyLong)
    else if |s| > 10 then Some(TooBig)
    else if |s| == 10 && c != 0 && c != 0x7f then Some(TooBig)
    else None
  }

  function ULebRead(b: seq<byte>): Read<u64> {
    var k := EndAt(b);
    if k == |b| then Read(0, [], Some(Truncated))
    else Read(ToU64(UValue(b[..k + 1])), b[k + 1..], ULebError(b[..k + 1]))
  }

  function SLebRead(b: seq<byte>): Read<i64> {
    var k := EndAt(b);
    if k == |b| then Read(0, [], Some(Truncated))
    else Read(Wrap(SValue(b[..k + 1])), b[k + 1..], SLebError(b[..k + 1]))
  }

  /** The lenient reader: the value and the number of bytes read. */
  function LenientRead(b: seq<byte>): Option<(u64, nat)> {
    var k := EndAt(b);
    if k == |b| || k >= 10 then None
    else Some((ToU64(UValue(b[..k + 1])), k + 1))
  }

  // ---------------------------------------------------------------- the routines

  method Leb128(n: u64) returns (leb: seq<byte>)
    ensures leb == ULEB(n)
  {
    leb := [];
    if n == 0 { return [0]; }
    var m := n;
    while m != 0
      invariant 0 <= m <= n
      invariant m == 0 ==> leb == ULEB(n)
      invariant m != 0 ==> leb + ULEB(m) == ULEB(n)
      decreases m
    {
      var q := m / 128;
      ghost var c := m % 128;
      Mask7(m, q, c);
      var b: byte := BitAnd(m, 0x7f);
      if q != 0 {
        SetTopBit(b);
        b := BitOr(b, 0x80);
        ULEBStep(c, q);
        assert leb + ([b] + ULEB(q)) == (leb + [b]) + ULEB(q);
      }
      m := q;
      leb := leb + [b];
    }
  }

  lemma SetTopBit(b: byte)
    requires b < 128
    ensures BitOr(b, 0x80) == b + 128
  {
    Pow2Facts();
    OrShifted(b, 1, 7);
  }

  method ReadULEB(b: seq<byte>) returns (r: Read<u64>)
    ensures r == ULebRead(b)
  {
    var n: u64, i := 0, 0;
    var rest := b;
    while true
      invariant 0 <= i <= |b|
      invariant rest == b[i..]
      invariant forall j :: 0 <= j < i ==> b[j] >= 128
      invariant n == ToU64(UValue(b[..i]))
      decreases |b| - i
    {
      if rest == [] {
        EndUnique(b, i);
        return Read(0, [], Some(Truncated));
      }
      var c := rest[0];
      ByteMasks(c);
      AddGroup(b, i);
      rest := rest[1..];
      n := BitOr(n, Shl64(BitAnd(c, 0x7f), i * 7));
      i := i + 1;
      if BitAnd(c, 0x80) == 0 {
        EndUnique(b, i - 1);
        if c == 0 && i > 1 { return Read(n, rest, Some(OverlyLong)); }
        if i > 10 { return Read(n, rest, Some(TooBig)); }
        if i == 10 && BitAnd(c, 0x7e) > 0 { return Read(n, rest, Some(TooBig)); }
        return Read(n, rest, None);
      }
    }
  }

  /** The end of the signed reader: sign extension, then the three checks. */
  method FinishSLEB(n0: u64, i: nat, prev: byte, c: byte, rest: seq<byte>, ghost s: seq<byte>)
    returns (r: Read<i64>)
    requires |s| == i > 0 && s[i - 1] == c < 128
    requires i > 1 ==> s[i - 2] == prev
    requires n0 == ToU64(UValue(s))
    ensures r == Read(Wrap(SValue(s)), rest, SLebError(s))
  {
    var n := n0;
    SignBits(s);
    ByteMasks(c);
    if BitAnd(c, 0x40) > 0 {
      n := BitOr(n, Shl64(TWO64 - 1, i * 7));
    }
    assert ToI64(n) == Wrap(SValue(s));
    ByteMasks(prev);
    if i > 1 && ((BitAnd(prev, 0x40) == 0 && c == 0) || (BitAnd(prev, 0x40) > 0 && c == 0x7f)) {
      return Read(ToI64(n), rest, Some(OverlyLong));
    }
    if i > 10 { return Read(ToI64(n), rest, Some(TooBig)); }
    if i == 10 && BitAnd(c, 0x7f) != 0 && BitAnd(c, 0x7f) != 0x7f {
      return Read(ToI64(n), rest, Some(TooBig));
    }
    return Read(ToI64(n), rest, None);
  }

  method ReadSLEB(b: seq<byte>) returns (r: Read<i64>)
    ensures r == SLebRead(b)
  {
    var n: u64, i := 0, 0;
    var prev: byte := 0;
    var rest := b;
    while true
      invariant 0 <= i <= |b|
      invariant rest == b[i..]
      invariant forall j :: 0 <= j < i ==> b[j] >= 128
      invariant n == ToU64(UValue(b[..i]))
      invariant i > 0 ==> prev == b[i - 1]
      decreases |b| - i
    {
      if rest == [] {
        EndUnique(b, i);
        return Read(0, [], Some(Truncated));
      }
      var c := rest[0];
      ByteMasks(c);
      AddGroup(b, i);
      rest := rest[1..];
      n := BitOr(n, Shl64(BitAnd(c, 0x7f), i * 7));
      i := i + 1;
      if BitAnd(c, 0x80) == 0 {
        SLebReadAt(b, i - 1);
        r := FinishSLEB(n, i, prev, c, rest, b[..i]);
        return;
      }
      prev := c;
    }
  }

  method ReadULEB128(b: seq<byte>) returns (r: Option<(u64, nat)>)
    ensures r == LenientRead(b)
  {
    var result: u64, shift := 0, 0;
    for i := 0 to |b|
      invariant shift == 7 * i && i <= 10
      invariant forall j :: 0 <= j < i ==> b[j] >= 128
      invariant result == ToU64(UValue(b[..i]))
    {
      var x := b[i];
      if i >= 10 {
        assert EndAt(b) < |b| ==> b[EndAt(b)] < 128;
        return None;
      }
      ByteMasks(x);
      AddGroup(b, i);
      result := BitOr(result, Shl64(BitAnd(x, 0x7f), shift));
      if BitAnd(x, 0x80) == 0 {
        EndUnique(b, i);
        return Some((result, i + 1));
      }
      shift := shift + 7;
    }
    EndUnique(b, |b|);
    return None;
  }

  // ---------------------------------------------------------------- how the loops compute the value

  lemma EndUnique(b: seq<byte>, i: nat)
    requires i <= |b|
    requires forall j :: 0 <= j < i ==> b[j] >= 128
    requires i < |b| ==> b[i] < 128
    ensures EndAt(b) == i
  {
    var k := EndAt(b);
    assert k < |b| ==> b[k] < 128;
    assert i < |b| ==> b[i] < 128;
  }

  lemma {:induction false} UValueSnoc(s: seq<byte>, c: byte)
    ensures UValue(s + [c]) == UValue(s) + Low7(c) * Pow2(7 * |s|)
    ensures UValue(s) < Pow2(7 * |s|)
  {
    if s == [] {
      assert s + [c] == [c];
    } else {
      assert (s + [c])[1..] == s[1..] + [c];
      UValueSnoc(s[1..], c);
      Pow2Facts();
      Pow2Add(7, 7 * |s[1..]|);
      Assoc(Low7(c), 128, Pow2(7 * |s[1..]|));
    }
  }

  lemma Assoc(x: int, y: int, z: int)
    ensures y * (x * z) == x * (y * z)
  {}

  lemma AddGroup(b: seq<byte>, i: nat)
    requires i < |b|
    ensures BitOr(ToU64(UValue(b[..i])), Shl64(Low7(b[i]), i * 7)) == ToU64(UValue(b[..i + 1]))
  {
    assert b[..i + 1] == b[..i] + [b[i]];
    UValueSnoc(b[..i], b[i]);
    OrShl(UValue(b[..i]), Low7(b[i]), i * 7);
  }

  lemma {:induction false} SValueOfUValue(s: seq<byte>)
    requires s != []
    ensures SValue(s) == UValue(s) - (if Low7(s[|s| - 1]) >= 64 then Pow2(7 * |s|) else 0)
  {
    Pow2Facts();
    if |s| == 1 {
      assert s[1..] == [];
    } else {
      SValueOfUValue(s[1..]);
      Pow2Add(7, 7 * |s[1..]|);
    }
  }

  /** Or-ing in the sign bits turns the unsigned value into the signed one, modulo 2^64. */
  lemma SignBits(s: seq<byte>)
    requires s != []
    ensures Low7(s[|s| - 1]) < 64 ==> ToU64(UValue(s)) == ToU64(SValue(s))
    ensures Low7(s[|s| - 1]) >= 64 ==>
              BitOr(ToU64(UValue(s)), Shl64(TWO64 - 1, |s| * 7)) == ToU64(SValue(s))
  {
    SValueOfUValue(s);
    if Low7(s[|s| - 1]) >= 64 {
      var u, k := UValue(s), 7 * |s|;
      UValueSnoc(s, 0);
      OrShl(u, TWO64 - 1, k);
      assert u + (TWO64 - 1) * Pow2(k) == (u - Pow2(k)) + Pow2(k) * TWO64 by {
        Distribute(1, TWO64, -1, Pow2(k));
      }
      ModShift(u - Pow2(k), Pow2(k));
    }
  }

  lemma SLebReadAt(b: seq<byte>, k: nat)
    requires k < |b| && b[k] < 128
    requires forall j :: 0 <= j < k ==> b[j] >= 128
    ensures SLebRead(b) == Read(Wrap(SValue(b[..k + 1])), b[k + 1..], SLebError(b[..k + 1]))
  {
    EndUnique(b, k);
  }

  // ---------------------------------------------------------------- unsigned: reading inverts writing

  /** Putting one more group in front. */
  lemma ConsGroup(c: byte, t: seq<byte>)
    requires c >= 128 && t != []
    ensures ([c] + t)[1..] == t
    ensures OneLeb(t) ==> OneLeb([c] + t)
    ensures UValue([c] + t) == c - 128 + 128 * UValue(t)
    ensures SValue([c] + t) == c - 128 + 128 * SValue(t)
  {
    assert ([c] + t)[1..] == t;
  }

  lemma SplitGroup(c: nat, q: int)
    requires c < 128
    ensures (c + 128 * q) % 128 == c && (c + 128 * q) / 128 == q
  {}

  lemma ULEBStep(c: nat, q: nat)
    requires c < 128 && q > 0
    ensures ULEB(c + 128 * q) == [128 + c] + ULEB(q)
  {
    SplitGroup(c, q);
  }

  lemma SLEBStep(c: nat, q: int)
    requires c < 128 && !(-64 <= c + 128 * q < 64)
    ensures SLEB(c + 128 * q) == [128 + c] + SLEB(q)
  {
    SplitGroup(c, q);
  }

  lemma SLEBSmall(v: int)
    requires -64 <= v < 64
    ensures Shortest(SLEB(v)) && SValue(SLEB(v)) == v
  {
    assert v % 128 == if v < 0 then v + 128 else v;
  }

  lemma {:induction false} ULEBShape(n: nat)
    ensures OneLeb(ULEB(n))
    ensures UValue(ULEB(n)) == n
    ensures |ULEB(n)| > 1 ==> ULEB(n)[|ULEB(n)| - 1] != 0
  {
    if n < 128 {
      assert ULEB(n) == [n];
      assert ULEB(n)[1..] == [];
    } else {
      var c, q := n % 128, n / 128;
      assert n == c + 128 * q;
      ULEBShape(q);
      ULEBGrow(c, q, ULEB(q));
      ULEBStep(c, q);
    }
  }

  lemma ULEBGrow(c: nat, q: nat, t: seq<byte>)
    requires c < 128 && q > 0
    requires OneLeb(t) && UValue(t) == q && (|t| > 1 ==> t[|t| - 1] != 0)
    ensures OneLeb([128 + c] + t) && UValue([128 + c] + t) == c + 128 * q
    ensures ([128 + c] + t)[|t|] != 0
  {
    ConsGroup(128 + c, t);
    if |t| == 1 { assert t[1..] == [] && UValue(t) == t[0]; }
  }

  lemma {:induction false} ULEBOfUValue(s: seq<byte>)
    requires OneLeb(s)
    requires |s| > 1 ==> s[|s| - 1] != 0
    ensures ULEB(UValue(s)) == s
    ensures |s| > 1 ==> UValue(s) >= 128
  {
    if |s| == 1 {
      assert s[1..] == [];
    } else {
      var c, t := s[0] - 128, s[1..];
      assert s == [s[0]] + t;
      ULEBOfUValue(t);
      if |t| == 1 { assert t[1..] == [] && UValue(t) == t[0]; }
      ConsGroup(s[0], t);
      assert UValue(s) == c + 128 * UValue(t) && UValue(t) > 0;
      ULEBStep(c, UValue(t));
    }
  }

  /** The tenth byte carries only the top bit of a 64-bit number. */
  lemma ULEBFits(s: seq<byte>)
    requires OneLeb(s)
    requires |s| > 1 ==> s[|s| - 1] != 0
    ensures UValue(s) < TWO64 <==> ULebError(s) == None
  {
    LastGroup(s);
  }

  lemma LastGroup(s: seq<byte>)
    requires s != []
    ensures |s| < 10 ==> UValue(s) < TWO64
    ensures |s| == 10 ==> (UValue(s) < TWO64 <==> Low7(s[9]) < 2)
    ensures |s| > 10 && Low7(s[|s| - 1]) > 0 ==> UValue(s) >= TWO64
  {
    var last := |s| - 1;
    var init, c := s[..last], s[last];
    assert s == init + [c];
    UValueSnoc(init, c);
    TopGroup(UValue(s), UValue(init), Low7(c), last);
  }

  lemma TopGroup(v: nat, u: nat, c: nat, k: nat)
    requires u < Pow2(7 * k) && c < 128
    requires v == u + c * Pow2(7 * k)
    ensures k < 9 ==> v < TWO64
    ensures k == 9 ==> (v < TWO64 <==> c < 2)
    ensures k > 9 && c > 0 ==> v >= TWO64
  {
    Pow2Facts();
    var p := Pow2(7 * k);
    if k < 9 {
      Pow2Add(7 * k, 7);
      Pow2Monotone(7 * k + 7, 64);
      MulMonotone(c + 1, 128, p);
      Distribute(1, c, 1, p);
    } else if k > 9 && c > 0 {
      Pow2Monotone(64, 7 * k);
      MulMonotone(1, c, p);
    }
  }

  lemma EndAppend(s: seq<byte>, r: seq<byte>)
    requires OneLeb(s)
    ensures EndAt(s + r) == |s| - 1
    ensures (s + r)[..|s|] == s && (s + r)[|s|..] == r
  {
    EndUnique(s + r, |s| - 1);
  }

  lemma WrittenIsRead(n: u64, r: seq<byte>)
    ensures ULebRead(ULEB(n) + r) == Read(n, r, None)
  {
    ULEBShape(n);
    EndAppend(ULEB(n), r);
    ULEBFits(ULEB(n));
    ModSmall(0, n);
  }

  lemma ReadIsWritten(b: seq<byte>)
    requires ULebRead(b).err == None
    ensures b == ULEB(ULebRead(b).value) + ULebRead(b).rest
  {
    var k := EndAt(b);
    var s := b[..k + 1];
    assert b == s + b[k + 1..];
    EndUnique(s, k);
    ULEBFits(s);
    ModSmall(0, UValue(s));
    ULEBOfUValue(s);
  }

  /** The strict reader accepts exactly what the writer produces, byte for byte. */
  lemma StrictReadInvertsWrite(b: seq<byte>, n: u64, r: seq<byte>)
    ensures ULebRead(b) == Read(n, r, None) <==> b == ULEB(n) + r
  {
    WrittenIsRead(n, r);
    if ULebRead(b) == Read(n, r, None) { ReadIsWritten(b); }
  }

  /** The lenient reader agrees with the strict one on everything the strict one accepts. */
  lemma LenientAgreesWithStrict(b: seq<byte>)
    requires ULebRead(b).err == None
    ensures LenientRead(b) == Some((ULebRead(b).value, |b| - |ULebRead(b).rest|))
  {}

  /** What the lenient reader accepts beyond that: exactly the padded encodings of at most ten
      bytes, and the ten-byte ones whose last byte has bits that do not fit the word. */
  lemma LenientExcess(b: seq<byte>)
    ensures LenientRead(b).Some? && ULebRead(b).err != None <==>
            EndAt(b) < |b| && ((1 <= EndAt(b) <= 9 && b[EndAt(b)] == 0) || (EndAt(b) == 9 && b[9] >= 2))
  {}

  // ---------------------------------------------------------------- signed: one encoding per number

  predicate Shortest(s: seq<byte>) {
    OneLeb(s) && SLebError(s) != Some(OverlyLong)
  }

  lemma {:induction false} SLEBShape(v: int)
    ensures Shortest(SLEB(v))
    ensures SValue(SLEB(v)) == v
    decreases if v < 0 then -v else v
  {
    if -64 <= v < 64 {
      SLEBSmall(v);
    } else {
      var c, q := v % 128, v / 128;
      var t := SLEB(q);
      SLEBShape(q);
      assert v == c + 128 * q;
      SLEBGrow(c, q, t);
      SLEBStep(c, q);
    }
  }

  lemma SLEBGrow(c: nat, q: int, t: seq<byte>)
    requires c < 128 && !(-64 <= c + 128 * q < 64)
    requires Shortest(t) && SValue(t) == q
    ensures Shortest([128 + c] + t) && SValue([128 + c] + t) == c + 128 * q
  {
    ConsGroup(128 + c, t);
    ConsShortest(128 + c, t);
  }

  /** A further group is needed exactly when the number does not fit in seven bits. */
  lemma ConsShortest(c: byte, t: seq<byte>)
    requires c >= 128 && Shortest(t)
    ensures Shortest([c] + t) <==> |t| > 1 || !(-64 <= c - 128 + 128 * SValue(t) < 64)
  {
    var s := [c] + t;
    ConsGroup(c, t);
    assert s[|s| - 1] == t[|t| - 1];
    if |t| > 1 {
      assert s[|s| - 2] == t[|t| - 2];
    } else {
      assert SValue(t) == SignExtend(t[0]);
    }
  }

  lemma {:induction false} SLEBOfSValue(s: seq<byte>)
    requires Shortest(s)
    ensures SLEB(SValue(s)) == s
    ensures |s| > 1 ==> !(-64 <= SValue(s) < 64)
  {
    if |s| > 1 {
      var c, t := s[0] - 128, s[1..];
      assert s == [s[0]] + t;
      if |t| > 1 { assert t[|t| - 2] == s[|s| - 2]; }
      SLEBOfSValue(t);
      ConsGroup(s[0], t);
      ConsShortest(s[0], t);
      SLEBStep(c, SValue(t));
    }
  }

  /** The signed reader's length and tenth-byte checks admit exactly the int64 range. */
  lemma SLEBFits(s: seq<byte>)
    requires Shortest(s)
    ensures -TWO63 <= SValue(s) < TWO63 <==> SLebError(s) == None
  {
    if |s| <= 9 {
      SValueRange(s);
      SmallRange(SValue(s), |s|);
    } else {
      LongRange(s, s[9..]);
      if |s| > 10 {
        var t := s[9..];
        EndUnique(t, |t| - 1);
        assert t[|t| - 2] == s[|s| - 2];
        SLEBOfSValue(t);
      }
    }
  }

  lemma LongRange(s: seq<byte>, t: seq<byte>)
    requires |s| >= 10 && t == s[9..]
    ensures -TWO63 <= SValue(s) < TWO63 <==> SValue(t) == 0 || SValue(t) == -1
  {
    SValueSplit(s, 9);
    UValueSnoc(s[..9], 0);
    Pow2Facts();
    SignGroup(SValue(s), UValue(s[..9]), SValue(t), Pow2(7 * 9));
  }

  lemma SmallRange(v: int, k: nat)
    requires 1 <= k <= 9 && 0 - Pow2(7 * k - 1) <= v < Pow2(7 * k - 1)
    ensures -TWO63 <= v < TWO63
  {
    Pow2Facts();
    Pow2Monotone(7 * k - 1, 63);
  }

  lemma SignGroup(v: int, u: nat, t: int, p: nat)
    requires p == TWO63 && u < p && v == u + p * t
    ensures -TWO63 <= v < TWO63 <==> t == 0 || t == -1
  {}

  lemma {:induction false} SValueRange(s: seq<byte>)
    requires s != []
    ensures 0 - Pow2(7 * |s| - 1) <= SValue(s) < Pow2(7 * |s| - 1)
  {
    Pow2Facts();
    if |s| > 1 {
      SValueRange(s[1..]);
      Pow2Add(7, 7 * |s[1..]| - 1);
    }
  }

  lemma {:induction false} SValueSplit(s: seq<byte>, k: nat)
    requires k < |s|
    ensures SValue(s) == UValue(s[..k]) + Pow2(7 * k) * SValue(s[k..])
  {
    if k == 0 {
      assert s[k..] == s;
    } else {
      SValueSplit(s[1..], k - 1);
      assert s[..k][1..] == s[1..][..k - 1] && s[1..][k - 1..] == s[k..];
      Pow2Facts();
      Pow2Add(7, 7 * (k - 1));
      Distribute(128, Pow2(7 * (k - 1)), 0, SValue(s[k..]));
    }
  }

  lemma EncodedIsRead(v: i64, r: seq<byte>)
    ensures SLebRead(SLEB(v) + r) == Read(v, r, None)
  {
    SLEBShape(v);
    EndAppend(SLEB(v), r);
    SLEBFits(SLEB(v));
    WrapInRange(v);
  }

  /** What the signed reader accepts denotes the value it returns, and is its shortest encoding. */
  lemma ReadIsEncoded(b: seq<byte>)
    requires SLebRead(b).err == None
    ensures SLebRead(b).value == SValue(b[..EndAt(b) + 1])
    ensures b == SLEB(SLebRead(b).value) + SLebRead(b).rest
  {
    var k := EndAt(b);
    var s := b[..k + 1];
    assert b == s + b[k + 1..];
    EndUnique(s, k);
    SLEBFits(s);
    WrapInRange(SValue(s));
    SLEBOfSValue(s);
  }

  /** Every int64, both extremes included, has exactly one accepted encoding, and an accepted
      encoding is read as the number it denotes. */
  lemma SignedReadInvertsEncoding(b: seq<byte>, v: i64, r: seq<byte>)
    ensures SLebRead(b) == Read(v, r, None) <==> b == SLEB(v) + r
  {
    EncodedIsRead(v, r);
    if SLebRead(b) == Read(v, r, None) { ReadIsEncoded(b); }
  }

  lemma WrapInRange(v: int)
    requires -TWO63 <= v < TWO63
    ensures Wrap(v) == v
  {}
}
