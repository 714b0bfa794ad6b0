/** Well-formed UTF-8, against the encoding form of the Unicode standard. */
module Utf8Text {
  import opened Words
  import opened GoValues

  /** A Unicode scalar value: any code point but the surrogates. */
  predicate ScalarValue(c: nat) {
    c < 0xD800 || 0xE000 <= c < 0x110000
  }

  /** UTF-8 of one scalar value. */
  function Encode(c: nat): (s: GoString)
    requires ScalarValue(c)
    ensures s != []
  {
    if c < 0x80 then [c]
    else if c < 0x800 then [0xC0 + c / 64, 0x80 + c % 64]
    else if c < 0x1_0000 then [0xE0 + c / 4096, 0x80 + c / 64 % 64, 0x80 + c % 64]
    else [0xF0 + c / 0x4_0000, 0x80 + c / 4096 % 64, 0x80 + c / 64 % 64, 0x80 + c % 64]
  }

  predicate AllScalarValues(cs: seq<nat>) {
    forall i :: 0 <= i < |cs| ==> ScalarValue(cs[i])
  }

  function EncodeAll(cs: seq<nat>): GoString
    requires AllScalarValues(cs)
  {
    if cs == [] then [] else Encode(cs[0]) + EncodeAll(cs[1..])
  }

  lemma EncodedIsUtf8(c: nat, r: GoString)
    requires ScalarValue(c) && Utf8(r)
    ensures Utf8(Encode(c) + r)
  {
    var s := Encode(c) + r;
    if c < 0x80 {
      assert s[1..] == r;
    } else if c < 0x800 {
      assert s[2..] == r;
    } else if c < 0x1_0000 {
      assert s[3..] == r;
      ThreeBytes(c);
    } else {
      assert s[4..] == r;
      FourBytes(c);
    }
  }

  lemma ThreeBytes(c: nat)
    requires 0x800 <= c < 0x1_0000 && ScalarValue(c)
    ensures 0xE0 <= 0xE0 + c / 4096 <= 0xEF
    ensures c / 4096 == 0 ==> 0x80 + c / 64 % 64 >= 0xA0
    ensures c / 4096 == 13 ==> 0x80 + c / 64 % 64 <= 0x9F
  {}

  lemma FourBytes(c: nat)
    requires 0x1_0000 <= c < 0x11_0000
    ensures 0xF0 <= 0xF0 + c / 0x4_0000 <= 0xF4
    ensures c / 0x4_0000 == 0 ==> 0x80 + c / 4096 % 64 >= 0x90
    ensures c / 0x4_0000 == 4 ==> 0x80 + c / 4096 % 64 <= 0x8F
  {}

  /** The scalar value at the start of well-formed UTF-8. */
  lemma FirstScalarValue(s: GoString) returns (c: nat, r: GoString)
    requires s != [] && Utf8(s)
    ensures ScalarValue(c) && s == Encode(c) + r && Utf8(r)
  {
    if s[0] < 0x80 {
      c, r := s[0], s[1..];
    } else if s[0] < 0xE0 {
      c, r := Two(s[0], s[1]), s[2..];
      TwoComeBack(s[0], s[1]);
      assert s == [s[0], s[1]] + r;
    } else if s[0] < 0xF0 {
      c, r := Three(s[0], s[1], s[2]), s[3..];
      ThreeComeBack(s[0], s[1], s[2]);
      assert s == [s[0], s[1], s[2]] + r;
    } else {
      c, r := Four(s[0], s[1], s[2], s[3]), s[4..];
      FourComeBack(s[0], s[1], s[2], s[3]);
      assert s == [s[0], s[1], s[2], s[3]] + r;
    }
  }

  function Two(a: byte, b: byte): int {
    (a - 0xC0) * 64 + (b - 0x80)
  }

  function Three(a: byte, b: byte, c: byte): int {
    (a - 0xE0) * 4096 + (b - 0x80) * 64 + (c - 0x80)
  }

  function Four(a: byte, b: byte, c: byte, d: byte): int {
    (a - 0xF0) * 0x4_0000 + (b - 0x80) * 4096 + (c - 0x80) * 64 + (d - 0x80)
  }

  lemma TwoComeBack(a: byte, b: byte)
    requires 0xC2 <= a <= 0xDF && Tail(b)
    ensures Two(a, b) >= 0 && ScalarValue(Two(a, b)) && Encode(Two(a, b)) == [a, b]
  {}

  lemma ThreeComeBack(a: byte, b: byte, c: byte)
    requires 0xE0 <= a <= 0xEF && Tail(b) && Tail(c) && (a == 0xE0 ==> b >= 0xA0) && (a == 0xED ==> b <= 0x9F)
    ensures Three(a, b, c) >= 0 && ScalarValue(Three(a, b, c)) && Encode(Three(a, b, c)) == [a, b, c]
  {
    var x, y, z := a - 0xE0, b - 0x80, c - 0x80;
    SixBits(64 * x + y, z);
    SixBits(x, y);
    InTwo(Three(a, b, c));
  }

  lemma FourComeBack(a: byte, b: byte, c: byte, d: byte)
    requires 0xF0 <= a <= 0xF4 && Tail(b) && Tail(c) && Tail(d) && (a == 0xF0 ==> b >= 0x90) && (a == 0xF4 ==> b <= 0x8F)
    ensures Four(a, b, c, d) >= 0 && ScalarValue(Four(a, b, c, d)) && Encode(Four(a, b, c, d)) == [a, b, c, d]
  {
    var x, y, z, w := a - 0xF0, b - 0x80, c - 0x80, d - 0x80;
    SixBits(64 * (64 * x + y) + z, w);
    SixBits(64 * x + y, z);
    SixBits(x, y);
    InTwo(Four(a, b, c, d));
    InThree(Four(a, b, c, d));
  }

  lemma SixBits(q: nat, r: nat)
    requires r < 64
    ensures (64 * q + r) / 64 == q && (64 * q + r) % 64 == r
  {}

  lemma InTwo(v: nat)
    ensures v / 4096 == v / 64 / 64
  {}

  lemma InThree(v: nat)
    ensures v / 0x4_0000 == v / 64 / 64 / 64
  {}

  lemma {:induction false} EncodingIsUtf8(cs: seq<nat>)
    requires AllScalarValues(cs)
    ensures Utf8(EncodeAll(cs))
  {
    if cs != [] {
      EncodingIsUtf8(cs[1..]);
      EncodedIsUtf8(cs[0], EncodeAll(cs[1..]));
    }
  }

  lemma {:induction false} Utf8IsEncoding(s: GoString) returns (cs: seq<nat>)
    requires Utf8(s)
    ensures AllScalarValues(cs) && s == EncodeAll(cs)
    decreases |s|
  {
    if s == [] {
      cs := [];
    } else {
      var c, r := FirstScalarValue(s);
      var more := Utf8IsEncoding(r);
      cs := [c] + more;
      assert cs[1..] == more;
    }
  }

  /** What is accepted as UTF-8 is exactly what encodes some sequence of scalar values. */
  lemma Utf8Exactly(s: GoString)
    ensures Utf8(s) <==> exists cs :: AllScalarValues(cs) && s == EncodeAll(cs)
  {
    if Utf8(s) { var cs := Utf8IsEncoding(s); }
    if cs :| AllScalarValues(cs) && s == EncodeAll(cs) { EncodingIsUtf8(cs); }
  }
}
