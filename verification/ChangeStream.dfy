/** Cutting a byte stream into consecutive pieces, one round of a loop at a time.

    `step` says, for the bytes from an offset to the end of the stream, how far the piece that
    starts there reaches.  A round may fail, and it may fail to make progress.
  */
module Cutting {
  import opened Words

  /** What cutting ends in.  Go's slice allocation panics on a negative length, and a piece that
      ends where it starts makes the loop visit the same offset forever. */
  datatype Split = Accepted(chunks: seq<seq<byte>>) | Malformed | Panics | Diverges

  datatype Step = Bad | Advance(size: int)

  type Stepper = (seq<byte>, nat) -> Step

  function Cut(step: Stepper, s: seq<byte>, off: nat): Split
    decreases |s|
  {
    if s == [] then Accepted([])
    else
      match step(s, off)
      case Bad => Malformed
      case Advance(size) =>
        if size < 0 then Panics
        else if size == 0 then Diverges
        else if size > |s| then Malformed
        else Prepend([s[..size]], Cut(step, s[size..], off + size))
  }

  function Prepend(cs: seq<seq<byte>>, s: Split): Split {
    if s.Accepted? then Accepted(cs + s.chunks) else s
  }

  lemma PrependTwice(x: seq<seq<byte>>, y: seq<seq<byte>>, s: Split)
    ensures Prepend(x, Prepend(y, s)) == Prepend(x + y, s)
    ensures Prepend([], s) == s
  {
    if s.Accepted? {
      assert x + (y + s.chunks) == (x + y) + s.chunks;
      assert [] + s.chunks == s.chunks;
    }
  }

  function Join(cs: seq<seq<byte>>): seq<byte> {
    if cs == [] then [] else cs[0] + Join(cs[1..])
  }

  /** One round that makes progress, as the loop takes it: the piece is cut off and appended. */
  lemma CutOne(step: Stepper, raw: seq<byte>, cs: seq<seq<byte>>, start: nat, end: nat)
    requires start < end <= |raw| && step(raw[start..], start) == Advance(end - start)
    ensures Prepend(cs, Cut(step, raw[start..], start)) == Prepend(cs + [raw[start..end]], Cut(step, raw[end..], end))
  {
    var s := raw[start..];
    assert s[..end - start] == raw[start..end] && s[end - start..] == raw[end..];
    PrependTwice(cs, [raw[start..end]], Cut(step, raw[end..], end));
  }

  /** The pieces of an accepted stream are not empty and concatenate back to it. */
  lemma {:induction false} PiecesPartition(step: Stepper, s: seq<byte>, off: nat)
    requires Cut(step, s, off).Accepted?
    ensures Join(Cut(step, s, off).chunks) == s
    ensures forall c :: c in Cut(step, s, off).chunks ==> c != []
    decreases |s|
  {
    if s != [] {
      var n := step(s, off).size;
      PiecesPartition(step, s[n..], off + n);
      var cs := Cut(step, s, off).chunks;
      assert cs[0] == s[..n] && cs[1..] == Cut(step, s[n..], off + n).chunks;
      assert s[..n] + s[n..] == s;
    }
  }

  /** Every piece that is cut off a stream which goes on to be accepted is good. */
  ghost predicate PiecesAreGood(step: Stepper, good: seq<byte> -> bool, limit: nat) {
    forall s, off: nat, m: int ::
      off + |s| < limit && step(s, off) == Advance(m) && 0 < m <= |s| && Cut(step, s[m..], off + m).Accepted?
      ==> good(s[..m])
  }

  lemma {:induction false} AllAreGood(step: Stepper, good: seq<byte> -> bool, limit: nat, s: seq<byte>, off: nat)
    requires PiecesAreGood(step, good, limit) && off + |s| < limit && Cut(step, s, off).Accepted?
    ensures forall c :: c in Cut(step, s, off).chunks ==> good(c)
    decreases |s|
  {
    if s != [] {
      var m := step(s, off).size;
      OneRound(step, s, off, m);
      AllAreGood(step, good, limit, s[m..], off + m);
      assert good(s[..m]);
    }
  }

  /** A round does not look past the piece it accepts. */
  ghost predicate LooksNoFurther(step: Stepper) {
    forall a, b, off: nat :: step(a, off).Advance? && step(a, off).size <= |a| ==> step(a + b, off) == step(a, off)
  }

  /** Progress does not depend on the distance from the start, within streams of at most `limit` bytes. */
  ghost predicate Relocatable(step: Stepper, limit: nat) {
    forall s, off: nat, at: nat ::
      off <= at && at + |s| <= limit && step(s, off).Advance? && 0 < step(s, off).size <= |s|
      ==> step(s, at) == step(s, off)
  }

  lemma OneRound(step: Stepper, s: seq<byte>, off: nat, n: nat)
    requires step(s, off) == Advance(n) && 0 < n <= |s|
    ensures Cut(step, s, off) == Prepend([s[..n]], Cut(step, s[n..], off + n))
  {}

  lemma {:induction false} CutElsewhere(step: Stepper, limit: nat, s: seq<byte>, off: nat, at: nat)
    requires Relocatable(step, limit) && off <= at && at + |s| <= limit
    requires Cut(step, s, off).Accepted?
    ensures Cut(step, s, at) == Cut(step, s, off)
    decreases |s|
  {
    if s != [] {
      var n := step(s, off).size;
      assert step(s, at) == step(s, off) == Advance(n);
      CutElsewhere(step, limit, s[n..], off + n, at + n);
      OneRound(step, s, at, n);
    }
  }

  lemma {:induction false} CutConcat(step: Stepper, a: seq<byte>, b: seq<byte>, off: nat)
    requires LooksNoFurther(step)
    requires Cut(step, a, off).Accepted?
    ensures Cut(step, a + b, off) == Prepend(Cut(step, a, off).chunks, Cut(step, b, off + |a|))
    decreases |a|
  {
    var tail := Cut(step, b, off + |a|);
    if a == [] {
      assert a + b == b;
      PrependTwice([], [], tail);
    } else {
      var n := step(a, off).size;
      CutConcat(step, a[n..], b, off + n);
      assert (a + b)[..n] == a[..n] && (a + b)[n..] == a[n..] + b;
      assert off + n + |a[n..]| == off + |a|;
      OneRound(step, a + b, off, n);
      PrependTwice([a[..n]], Cut(step, a[n..], off + n).chunks, tail);
    }
  }

  lemma CutDistributes(step: Stepper, limit: nat, a: seq<byte>, b: seq<byte>)
    requires LooksNoFurther(step) && Relocatable(step, limit) && |a| + |b| <= limit
    requires Cut(step, a, 0).Accepted? && Cut(step, b, 0).Accepted?
    ensures Cut(step, a + b, 0) == Accepted(Cut(step, a, 0).chunks + Cut(step, b, 0).chunks)
  {
    CutConcat(step, a, b, 0);
    CutElsewhere(step, limit, b, 0, |a|);
  }

  /** The loop, started on `s` at `off`, comes to the offset `k` bytes further on. */
  predicate Reaches(step: Stepper, s: seq<byte>, off: nat, k: nat)
    decreases |s|
  {
    k == 0 ||
    (s != [] && step(s, off).Advance? &&
     var n := step(s, off).size;
     0 < n <= k && n <= |s| && Reaches(step, s[n..], off + n, k - n))
  }

  predicate Stuck(s: Split) {
    s.Panics? || s.Diverges?
  }

  /** A round at `off` would go backwards or stay where it is. */
  predicate NoProgress(step: Stepper, s: seq<byte>, off: nat) {
    step(s, off).Advance? && step(s, off).size <= 0
  }

  lemma {:induction false} StuckSomewhere(step: Stepper, s: seq<byte>, off: nat) returns (k: nat)
    requires Stuck(Cut(step, s, off))
    ensures k < |s| && Reaches(step, s, off, k) && NoProgress(step, s[k..], off + k)
    decreases |s|
  {
    var n := step(s, off).size;
    if n <= 0 {
      k := 0;
      assert s[0..] == s;
    } else {
      var j := StuckSomewhere(step, s[n..], off + n);
      k := n + j;
      assert s[n..][j..] == s[k..];
    }
  }

  lemma {:induction false} StuckOnceThere(step: Stepper, s: seq<byte>, off: nat, k: nat)
    requires k < |s| && Reaches(step, s, off, k) && NoProgress(step, s[k..], off + k)
    ensures Stuck(Cut(step, s, off))
    decreases |s|
  {
    if k == 0 {
      assert s[0..] == s;
    } else {
      var n := step(s, off).size;
      assert s[n..][k - n..] == s[k..];
      StuckOnceThere(step, s[n..], off + n, k - n);
    }
  }
}

/** Splitting a saved stream of change chunks (internal/wazero/wazero.go, changes.go). */
module ChangeStream {
  import opened Words
  import opened Leb128
  import opened Chunks
  import opened Cutting

  /** One round of the splitting loop on `s`, the bytes from offset `off` to the end of the
      stream.  The end of the chunk is added up in wrapping uint64. */
  function StepOn(s: seq<byte>, off: nat): (step: Step)
    ensures step.Advance? ==> step.size <= |s|
  {
    if 9 > |s| then Bad
    else if s[0] != MAGIC[0] || s[1] != MAGIC[1] || s[2] != MAGIC[2] || s[3] != MAGIC[3] then Bad
    else if s[8] != 1 && s[8] != 2 then Bad
    else
      var l := LenientRead(s[9..]);
      if l.None? then Bad
      else
        var end := AddU64(off + 9 + l.value.1, l.value.0);
        if end > off + |s| then Bad else Advance(end - off)
  }

  function SplitStream(raw: seq<byte>): Split {
    Cut(StepOn, raw, 0)
  }

  method SplitChangeChunks(raw: seq<byte>) returns (r: Split)
    ensures r == SplitStream(raw)
  {
    if |raw| == 0 { return Accepted([]); }
    var chunks: seq<seq<byte>> := [];
    var off := 0;
    PrependTwice([], [], SplitStream(raw));
    assert raw[0..] == raw;
    while off < |raw|
      invariant 0 <= off <= |raw|
      invariant SplitStream(raw) == Prepend(chunks, Cut(StepOn, raw[off..], off))
      decreases |raw| - off
    {
      var start := off;
      if off + 9 > |raw| { return Malformed; }
      if raw[off] != MAGIC[0] || raw[off + 1] != MAGIC[1] || raw[off + 2] != MAGIC[2] || raw[off + 3] != MAGIC[3] {
        return Malformed;
      }
      off := off + 8;
      var chunkType := raw[off];
      off := off + 1;
      if chunkType != 1 && chunkType != 2 { return Malformed; }
      assert raw[start..][9..] == raw[off..];
      var l := ReadULEB128(raw[off..]);
      if l.None? { return Malformed; }
      off := off + l.value.1;
      var end := AddU64(off, l.value.0);
      if end > |raw| { return Malformed; }
      if end < start { return Panics; }
      if end == start { return Diverges; }
      off := end;
      CutOne(StepOn, raw, chunks, start, end);
      chunks := chunks + [raw[start..off]];
    }
    assert raw[off..] == [];
    assert chunks + [] == chunks;
    return Accepted(chunks);
  }

  /** Exporting changes appends their raw bytes. */
  method SaveChanges(cs: seq<seq<byte>>) returns (out: seq<byte>)
    ensures out == Join(cs)
  {
    out := [];
    for i := 0 to |cs|
      invariant out + Join(cs[i..]) == Join(cs)
    {
      assert cs[i..][1..] == cs[i + 1..];
      out := out + cs[i];
    }
    assert cs[|cs|..] == [];
  }

  /** The pieces of any accepted input concatenate back to it, and none is empty, so the offset
      strictly increases. */
  lemma AcceptedPiecesPartition(raw: seq<byte>)
    requires SplitStream(raw).Accepted?
    ensures Join(SplitStream(raw).chunks) == raw
    ensures forall c :: c in SplitStream(raw).chunks ==> c != []
  {
    PiecesPartition(StepOn, raw, 0);
  }

  // ---------------------------------------------------------------- concatenation

  lemma StepAppend(a: seq<byte>, b: seq<byte>, off: nat)
    requires StepOn(a, off).Advance?
    ensures StepOn(a + b, off) == StepOn(a, off)
  {
    var s := a[9..];
    var k := EndAt(s);
    EndUnique(s + b, k);
    assert (s + b)[..k + 1] == s[..k + 1];
    assert (a + b)[9..] == s + b;
  }

  lemma StepIsLocal()
    ensures LooksNoFurther(StepOn) && Relocatable(StepOn, TWO63)
  {
    forall a, b, off | StepOn(a, off).Advance? ensures StepOn(a + b, off) == StepOn(a, off) {
      StepAppend(a, b, off);
    }
  }

  /** Splitting the concatenation of two accepted streams gives the chunks of both, in order. */
  lemma SplitDistributes(a: seq<byte>, b: seq<byte>)
    requires |a + b| < TWO63
    requires SplitStream(a).Accepted? && SplitStream(b).Accepted?
    ensures SplitStream(a + b) == Accepted(SplitStream(a).chunks + SplitStream(b).chunks)
  {
    StepIsLocal();
    CutDistributes(StepOn, TWO63, a, b);
  }

  // ---------------------------------------------------------------- splitting undoes saving

  predicate ChangeChunk(c: seq<byte>) {
    |c| >= 10 && (c[8] == 1 || c[8] == 2) && ValidateChunk(c, c[8]).Ok?
  }

  /** The strict and the lenient reader see the same single chunk. */
  lemma ChangeChunkSplits(c: seq<byte>)
    requires ChangeChunk(c) && |c| < TWO63
    ensures SplitStream(c) == Accepted([c])
  {
    LenientAgreesWithStrict(c[9..]);
    assert StepOn(c, 0) == Advance(|c|);
    assert c[..|c|] == c && c[|c|..] == [];
    assert Cut(StepOn, c[|c|..], |c|) == Accepted([]);
    assert [c] + [] == [c];
  }

  /** Loading what was saved gives exactly the saved chunks. */
  lemma {:induction false} SplitInvertsSave(cs: seq<seq<byte>>)
    requires forall c :: c in cs ==> ChangeChunk(c)
    requires |Join(cs)| < TWO63
    ensures SplitStream(Join(cs)) == Accepted(cs)
  {
    if cs != [] {
      ChangeChunkSplits(cs[0]);
      SplitInvertsSave(cs[1..]);
      SplitDistributes(cs[0], Join(cs[1..]));
      assert [cs[0]] + cs[1..] == cs;
    }
  }

  /** Every change chunk the tool builds is accepted by both readers, with the same payload. */
  lemma HeaderAcceptedByBoth(sha: seq<byte> -> Digest, p: seq<byte>, kind: byte)
    requires kind == 1 || kind == 2
    requires |AddHeader(sha, p, kind)| < TWO63
    ensures ValidateChunk(AddHeader(sha, p, kind), kind) == Ok(p)
    ensures SplitStream(AddHeader(sha, p, kind)) == Accepted([AddHeader(sha, p, kind)])
  {
    FrameIsValid(sha(Body(kind, p))[..4], kind, p);
    ChangeChunkSplits(AddHeader(sha, p, kind));
  }

  // ---------------------------------------------------------------- when the loop makes no progress

  /** The length field of the chunk at `off` wraps its end back to, or before, its start. */
  predicate WrapsBack(s: seq<byte>, off: nat) {
    StepOn(s, off).Advance? &&
    var l := LenientRead(s[9..]).value;
    TWO64 - off <= 9 + l.1 + l.0 <= TWO64
  }

  lemma WrapsBackExactly(s: seq<byte>, off: nat)
    requires off + |s| < TWO63
    ensures WrapsBack(s, off) <==> NoProgress(StepOn, s, off)
  {}

  /** The documented promise, that malformed input is reported as an error, is broken exactly by
      the streams on which the loop reaches a length field that wraps back. */
  lemma StuckExactlyWhenWrappingBack(raw: seq<byte>)
    requires |raw| < TWO63
    ensures Stuck(SplitStream(raw)) <==>
            exists k: nat :: k < |raw| && Reaches(StepOn, raw, 0, k) && WrapsBack(raw[k..], k)
  {
    if Stuck(SplitStream(raw)) {
      var k := StuckSomewhere(StepOn, raw, 0);
      WrapsBackExactly(raw[k..], k);
    }
    forall k: nat | k < |raw| && Reaches(StepOn, raw, 0, k) && WrapsBack(raw[k..], k)
      ensures Stuck(SplitStream(raw))
    {
      WrapsBackExactly(raw[k..], k);
      StuckOnceThere(StepOn, raw, 0, k);
    }
  }

  /** Nineteen bytes on which the loop never ends: a header that declares 2^64 - 19 more bytes. */
  lemma DivergingStream()
    ensures SplitStream(MAGIC + [0, 0, 0, 0, 1] + ULEB(TWO64 - 19)) == Diverges
  {
    var length := ULEB(TWO64 - 19);
    LengthOfHuge(length, TWO64 - 19);
    var raw := MAGIC + [0, 0, 0, 0, 1] + length;
    assert raw[9..] == length;
    assert StepOn(raw, 0) == Advance(0);
  }

  /** An empty chunk, and behind it a header that declares 2^64 - 29 more bytes: the second chunk
      would end where the first starts, and the loop asks for a slice of length -10. */
  lemma PanickingStream()
    ensures SplitStream(MAGIC + [0, 0, 0, 0, 1, 0] + (MAGIC + [0, 0, 0, 0, 1] + ULEB(TWO64 - 29))) == Panics
  {
    var length := ULEB(TWO64 - 29);
    LengthOfHuge(length, TWO64 - 29);
    var first, second := MAGIC + [0, 0, 0, 0, 1, 0], MAGIC + [0, 0, 0, 0, 1] + length;
    var raw := first + second;
    assert second[9..] == length;
    assert StepOn(second, 10) == Advance(-10);
    EmptyChunk(raw[9..]);
    assert StepOn(raw, 0) == Advance(10);
    assert raw[..10] == first && raw[10..] == second;
    OneRound(StepOn, raw, 0, 10);
    assert Cut(StepOn, second, 10) == Panics;
  }

  lemma EmptyChunk(s: seq<byte>)
    requires s != [] && s[0] == 0
    ensures LenientRead(s) == Some((0, 1))
  {
    assert s[..1] == [0] && [0][1..] == [];
    assert UValue(s[..1]) == 0;
    ModSmall(0, 0);
  }

  lemma LengthOfHuge(s: seq<byte>, n: nat)
    requires TWO63 <= n < TWO64 && s == ULEB(n)
    ensures |s| == 10 && LenientRead(s) == Some((n, 10))
  {
    ULEBShape(n);
    ULEBFits(s);
    if |s| < 10 { ShortIsSmall(s); }
    assert s[..|s|] == s;
    ModSmall(0, n);
  }

  lemma ShortIsSmall(s: seq<byte>)
    requires s != [] && |s| < 10
    ensures UValue(s) < TWO63
  {
    UValueSnoc(s, 0);
    Pow2Facts();
    Pow2Monotone(7 * |s|, 63);
  }
}
