/** Exactly which streams `splitChangeChunks` accepts, and as what (internal/wazero/wazero.go). */
module ChangePieces {
  import opened Words
  import opened Leb128
  import opened Chunks
  import opened Cutting
  import opened ChangeStream

  /** The length field takes `n` bytes and denotes, modulo 2^64, the number of bytes behind it. */
  predicate LengthField(c: seq<byte>, n: nat) {
    9 + n <= |c| && OneLeb(c[9..9 + n]) && ToU64(UValue(c[9..9 + n])) == |c| - 9 - n
  }

  /** One change, as bytes: magic, four bytes of checksum, type 1 or 2, a length of at most ten bytes,
      and a payload of that length.  No other type of chunk is one. */
  predicate Piece(c: seq<byte>) {
    |c| >= 9 && c[..4] == MAGIC && (c[8] == 1 || c[8] == 2) && exists n: nat :: n <= 10 && LengthField(c, n)
  }

  /** A piece is one round of the loop, whatever the offset. */
  lemma PieceIsOneStep(c: seq<byte>)
    requires Piece(c) && |c| < TWO63
    ensures StepOn(c, 0) == Advance(|c|)
  {
    var n: nat :| n <= 10 && LengthField(c, n);
    var length, rest := c[9..9 + n], c[9 + n..];
    assert c[9..] == length + rest;
    EndAppend(length, rest);
    assert c[0] == c[..4][0] && c[1] == c[..4][1] && c[2] == c[..4][2] && c[3] == c[..4][3];
    assert LenientRead(c[9..]) == Some((|c| - 9 - n, n));
  }

  lemma PieceSplits(c: seq<byte>)
    requires Piece(c) && |c| < TWO63
    ensures SplitStream(c) == Accepted([c])
  {
    PieceIsOneStep(c);
    OneRound(StepOn, c, 0, |c|);
    assert c[..|c|] == c && c[|c|..] == [];
    assert Cut(StepOn, c[|c|..], |c|) == Accepted([]);
    assert [c] + [] == [c];
  }

  lemma {:induction false} PiecesSplit(cs: seq<seq<byte>>)
    requires (forall c :: c in cs ==> Piece(c)) && |Join(cs)| < TWO63
    ensures SplitStream(Join(cs)) == Accepted(cs)
  {
    if cs != [] {
      PieceSplits(cs[0]);
      PiecesSplit(cs[1..]);
      SplitDistributes(cs[0], Join(cs[1..]));
      assert [cs[0]] + cs[1..] == cs;
    }
  }

  /** A round whose sum does not overflow cuts off a piece. */
  lemma StepIsPiece(s: seq<byte>, off: nat, m: nat)
    requires StepOn(s, off) == Advance(m) && m <= |s| && off + |s| < TWO63
    requires off + 9 + LenientRead(s[9..]).value.1 + LenientRead(s[9..]).value.0 < TWO64
    ensures Piece(s[..m])
  {
    var (v, k) := LenientRead(s[9..]).value;
    var c, length := s[..m], s[9..9 + k];
    assert m == 9 + k + v;
    assert s[9..][..k] == length;
    EndUnique(length, k - 1);
    assert c[9..9 + k] == length;
    assert LengthField(c, k);
  }

  lemma ShortLengthIsSmall(b: seq<byte>)
    requires LenientRead(b).Some? && LenientRead(b).value.1 < 10
    ensures LenientRead(b).value.0 < TWO63
  {
    var t := b[..LenientRead(b).value.1];
    ShortIsSmall(t);
    ModSmall(0, UValue(t));
  }

  /** What stands in a length field that makes the sum overflow and still ends behind the start. */
  lemma OverflowingLength(s: seq<byte>, off: nat, m: nat)
    requires StepOn(s, off) == Advance(m) && m > 0 && off + |s| < TWO63
    requires off + 9 + LenientRead(s[9..]).value.1 + LenientRead(s[9..]).value.0 >= TWO64
    ensures m <= 18 && |s| >= 19 && LenientRead(s[9..]).value == (TWO64 - 19 + m, 10)
    ensures (forall j :: 9 <= j < 18 ==> s[j] >= 128) && s[18] < 128
  {
    var (v, k) := LenientRead(s[9..]).value;
    assert m == 9 + k + v - TWO64;
    if k < 10 { ShortLengthIsSmall(s[9..]); }
    assert EndAt(s[9..]) == 9;
    forall j | 9 <= j < 18 ensures s[j] >= 128 { assert s[9..][j - 9] >= 128; }
    assert s[18] == s[9..][9];
  }

  /** A length of 2^64 - 2 has no group of 5 in front of its last. */
  lemma NinthGroup(t: seq<byte>)
    requires |t| == 10 && t[8] == 133
    ensures ToU64(UValue(t)) != TWO64 - 2
  {
    var low, g := UValue(t[..9]), Low7(t[9]);
    UValueSnoc(t[..9], t[9]);
    UValueSnoc(t[..8], t[8]);
    assert t[..8] + [t[8]] == t[..9] && t[..9] + [t[9]] == t;
    assert Low7(t[8]) == 5;
    Pow2Facts();
    Pow2Add(7, 56);
    BelowTop(UValue(t[..8]), Pow2(56));
    TopBitOnly(low, g);
  }

  lemma BelowTop(u: nat, p: nat)
    requires u < p && 128 * p == TWO63
    ensures u + 5 * p < TWO63 - 2
  {}

  lemma TopBitOnly(low: nat, g: nat)
    requires low < TWO63 - 2
    ensures ToU64(low + g * TWO63) != TWO64 - 2
  {
    var q, r := g / 2, g % 2;
    assert g == 2 * q + r;
    ModShift(low + r * TWO63, q);
    ModSmall(0, low + r * TWO63);
  }

  /** After such a round the next one fails: it would start inside the header that was just read. */
  lemma OverflowIsRejected(s: seq<byte>, off: nat, m: nat)
    requires StepOn(s, off) == Advance(m) && m > 0 && off + |s| < TWO63
    requires off + 9 + LenientRead(s[9..]).value.1 + LenientRead(s[9..]).value.0 >= TWO64
    ensures m < |s| && StepOn(s[m..], off + m) == Bad
  {
    OverflowingLength(s, off, m);
    var next := s[m..];
    if |next| >= 9 {
      assert next[0] == s[m] && next[1] == s[m + 1] && next[8] == s[m + 8];
      if m == 17 && s[17] == 133 {
        assert s[9..][..10][8] == s[17];
        NinthGroup(s[9..][..10]);
      }
    }
  }

  lemma FirstIsPiece(s: seq<byte>, off: nat, m: nat)
    requires off + |s| < TWO63 && 0 < m <= |s| && StepOn(s, off) == Advance(m) && Cut(StepOn, s[m..], off + m).Accepted?
    ensures Piece(s[..m])
  {
    if off + 9 + LenientRead(s[9..]).value.1 + LenientRead(s[9..]).value.0 >= TWO64 {
      OverflowIsRejected(s, off, m);
      assert false;
    } else {
      StepIsPiece(s, off, m);
    }
  }

  lemma StepsAreGood()
    ensures PiecesAreGood(StepOn, Piece, TWO63)
  {
    forall s, off: nat, m: int
      | off + |s| < TWO63 && StepOn(s, off) == Advance(m) && 0 < m <= |s| && Cut(StepOn, s[m..], off + m).Accepted?
      ensures Piece(s[..m])
    {
      FirstIsPiece(s, off, m);
    }
  }

  /** A stream is accepted as `cs` exactly if it is the concatenation of `cs`, each of which is a piece.
      Everything else, saved documents and chunks of other types included, is not accepted. */
  lemma AcceptedExactly(raw: seq<byte>, cs: seq<seq<byte>>)
    requires |raw| < TWO63
    ensures SplitStream(raw) == Accepted(cs) <==> Join(cs) == raw && forall c :: c in cs ==> Piece(c)
  {
    if SplitStream(raw) == Accepted(cs) {
      PiecesPartition(StepOn, raw, 0);
      StepsAreGood();
      AllAreGood(StepOn, Piece, TWO63, raw, 0);
    }
    if Join(cs) == raw && forall c :: c in cs ==> Piece(c) {
      PiecesSplit(cs);
    }
  }
}
