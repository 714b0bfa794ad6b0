/** Chunk framing: building, validating, compressing and repairing one chunk
    (cmd/automerge-debug/main.go).

    SHA-256 is a parameter: any function to 32-byte digests.  DEFLATE is a parameter: any pair of
    functions of which the second undoes the first.
  */
module Chunks {
  import opened Words
  import opened Leb128

  const MAGIC: seq<byte> := [133, 111, 74, 131]

  type Digest = d: seq<byte> | |d| == 32 witness seq(32, _ => 0)

  datatype Flate = Flate(deflate: seq<byte> -> seq<byte>, inflate: seq<byte> -> Option<seq<byte>>) {
    ghost predicate Lossless() {
      forall x :: inflate(deflate(x)) == Some(x)
    }
  }

  /** Why the tool prints a message and exits. */
  datatype Exit =
    | TooShort | BadMagic | AlreadyDecompressed | AlreadyCompressed | WrongType
    | BadLength | TrailingData | InflateFailed | DocumentChunk

  datatype Result<+T> = Ok(value: T) | Exits(why: Exit)

  // ---------------------------------------------------------------- one chunk

  /** The bytes of a chunk: magic, checksum, kind, length, payload. */
  function Frame(checksum: seq<byte>, kind: byte, payload: seq<byte>): seq<byte> {
    MAGIC + checksum + Body(kind, payload)
  }

  function Body(kind: byte, payload: seq<byte>): seq<byte> {
    [kind] + ULEB(ToU64(|payload|)) + payload
  }

  function AddHeader(sha: seq<byte> -> Digest, b: seq<byte>, kind: byte): seq<byte> {
    Frame(sha(Body(kind, b))[..4], kind, b)
  }

  const ANY_KIND: byte := 255

  function ValidateChunk(b: seq<byte>, expected: byte): Result<seq<byte>> {
    if |b| < 10 then Exits(TooShort)
    else if b[0] != 133 || b[1] != 111 || b[2] != 74 || b[3] != 131 then Exits(BadMagic)
    else
      var t := b[8];
      if t != expected && expected != ANY_KIND then
        if t == 1 && expected == 2 then Exits(AlreadyDecompressed)
        else if t == 2 && expected == 1 then Exits(AlreadyCompressed)
        else Exits(WrongType)
      else
        var r := ULebRead(b[9..]);
        if r.err != None then Exits(BadLength)
        else if |r.rest| != ToI64(r.value) then Exits(TrailingData)
        else Ok(r.rest)
  }

  function CompressChunk(z: Flate, b: seq<byte>): Result<seq<byte>> {
    var v := ValidateChunk(b, 1);
    if v.Exits? then v
    else
      var content := z.deflate(v.value);
      Ok(b[0..8] + [2] + ULEB(ToU64(|content|)) + content)
  }

  function DecompressChunk(z: Flate, b: seq<byte>): Result<seq<byte>> {
    var v := ValidateChunk(b, 2);
    if v.Exits? then v
    else
      var out := z.inflate(v.value);
      if out.None? then Exits(InflateFailed)
      else Ok(b[0..8] + [1] + ULEB(ToU64(|out.value|)) + out.value)
  }

  lemma FrameParts(b: seq<byte>, p: seq<byte>)
    requires |b| >= 10
    ensures b == Frame(b[4..8], b[8], p) <==> b[..4] == MAGIC && b[9..] == ULEB(ToU64(|p|)) + p
  {
    var length := ULEB(ToU64(|p|));
    var f := Frame(b[4..8], b[8], p);
    assert f[..4] == MAGIC;
    assert f[9..] == length + p;
    assert b == b[..4] + b[4..8] + ([b[8]] + b[9..]);
    assert f == MAGIC + b[4..8] + ([b[8]] + (length + p));
  }

  lemma MagicBytes(b: seq<byte>)
    requires |b| >= 4
    ensures b[..4] == MAGIC <==> b[0] == 133 && b[1] == 111 && b[2] == 74 && b[3] == 131
  {}

  lemma LengthField(tail: seq<byte>, p: seq<byte>)
    requires |tail| < TWO63
    ensures var r := ULebRead(tail);
            r.err == None && |r.rest| == ToI64(r.value) && r.rest == p <==> tail == ULEB(ToU64(|p|)) + p
  {
    if |p| < TWO63 {
      ModSmall(0, |p|);
      WrittenIsRead(|p|, p);
    }
    if ULebRead(tail).err == None { ReadIsWritten(tail); }
  }

  /** A valid chunk is exactly a frame around its payload: the length field has one encoding. */
  lemma ValidIsFrame(b: seq<byte>, expected: byte, p: seq<byte>)
    requires |b| < TWO63
    ensures ValidateChunk(b, expected) == Ok(p) <==>
            |b| >= 10 && b == Frame(b[4..8], b[8], p) && (expected == ANY_KIND || b[8] == expected)
  {
    if |b| >= 10 {
      FrameParts(b, p);
      MagicBytes(b);
      LengthField(b[9..], p);
    }
  }

  /** Framing then validating gives the payload back, whatever the kind and the checksum. */
  lemma FrameIsValid(checksum: seq<byte>, kind: byte, p: seq<byte>)
    requires |checksum| == 4 && |Frame(checksum, kind, p)| < TWO63
    ensures ValidateChunk(Frame(checksum, kind, p), kind) == Ok(p)
    ensures ValidateChunk(Frame(checksum, kind, p), ANY_KIND) == Ok(p)
    ensures var c := Frame(checksum, kind, p);
            |c| >= 10 && c[..4] == MAGIC && c[4..8] == checksum && c[8] == kind && c[8..] == Body(kind, p)
  {
    var c := Frame(checksum, kind, p);
    assert c[4..8] == checksum && c[8] == kind;
    ValidIsFrame(c, kind, p);
    ValidIsFrame(c, ANY_KIND, p);
  }

  lemma CompressedIsFrame(z: Flate, b: seq<byte>)
    requires |b| < TWO63 && CompressChunk(z, b).Ok?
    ensures |b| >= 10 && b == Frame(b[4..8], 1, ValidateChunk(b, 1).value)
    ensures CompressChunk(z, b).value == Frame(b[4..8], 2, z.deflate(ValidateChunk(b, 1).value))
  {
    var p := ValidateChunk(b, 1).value;
    ValidIsFrame(b, 1, p);
    Reframe(b, p, 2, z.deflate(p));
  }

  /** Replacing the kind and the payload behind the first eight bytes of a chunk. */
  lemma Reframe(b: seq<byte>, p: seq<byte>, kind: byte, q: seq<byte>)
    requires |b| >= 10 && b == Frame(b[4..8], b[8], p)
    ensures b[0..8] + [kind] + ULEB(ToU64(|q|)) + q == Frame(b[4..8], kind, q)
  {
    var length := ULEB(ToU64(|q|));
    assert b[0..8] == MAGIC + b[4..8];
    assert b[0..8] + [kind] + length + q == MAGIC + b[4..8] + ([kind] + length + q);
  }

  /** Decompressing undoes compressing, byte for byte. */
  lemma DecompressInvertsCompress(z: Flate, b: seq<byte>)
    requires z.Lossless() && |b| < TWO63
    requires CompressChunk(z, b).Ok? && |CompressChunk(z, b).value| < TWO63
    ensures DecompressChunk(z, CompressChunk(z, b).value) == Ok(b)
  {
    CompressedIsFrame(z, b);
    var p, c := ValidateChunk(b, 1).value, CompressChunk(z, b).value;
    FrameIsValid(b[4..8], 2, z.deflate(p));
    Reframe(c, z.deflate(p), 1, p);
  }

  // ---------------------------------------------------------------- repairing a checksum

  function WithChecksum(sha: seq<byte> -> Digest, b: seq<byte>): seq<byte>
    requires |b| >= 8
  {
    b[..4] + sha(b[8..])[..4] + b[8..]
  }

  function Fixed(sha: seq<byte> -> Digest, z: Flate, b: seq<byte>): Result<seq<byte>> {
    var v := ValidateChunk(b, ANY_KIND);
    if v.Exits? then v
    else if b[8] == 2 then
      var d := DecompressChunk(z, b);
      if d.Exits? then d else CompressChunk(z, WithChecksum(sha, d.value))
    else if b[8] == 0 then Exits(DocumentChunk)
    else Ok(WithChecksum(sha, b))
  }

  method NewSlice(s: seq<byte>) returns (a: array<byte>)
    ensures fresh(a) && a[..] == s
  {
    a := new byte[|s|](i requires 0 <= i < |s| => s[i]);
  }

  method WriteChecksum(sha: seq<byte> -> Digest, b: array<byte>)
    requires b.Length >= 8
    modifies b
    ensures b[..] == WithChecksum(sha, old(b[..]))
  {
    var hash := sha(b[8..]);
    b[4] := hash[0];
    b[5] := hash[1];
    b[6] := hash[2];
    b[7] := hash[3];
    assert b[8..] == old(b[8..]) && b[..4] == old(b[..4]) && b[4..8] == hash[..4];
    assert b[..] == b[..4] + b[4..8] + b[8..];
  }

  /** Writes the checksum of an uncompressed chunk into the caller's bytes; a compressed chunk is
      decompressed, repaired and compressed into fresh bytes. */
  method FixChecksum(sha: seq<byte> -> Digest, z: Flate, b: array<byte>) returns (r: Result<array<byte>>)
    modifies b
    ensures r.Ok? ==> Fixed(sha, z, old(b[..])) == Ok(r.value[..])
    ensures r.Exits? ==> Fixed(sha, z, old(b[..])) == Exits(r.why) && b[..] == old(b[..])
    ensures r.Ok? && old(b[..])[8] != 2 ==> r.value == b
    ensures r.Ok? && old(b[..])[8] == 2 ==> fresh(r.value) && b[..] == old(b[..])
  {
    var v := ValidateChunk(b[..], ANY_KIND);
    if v.Exits? { return Exits(v.why); }
    var compressed := b[8] == 2;
    var c := b;
    if compressed {
      var d := DecompressChunk(z, b[..]);
      if d.Exits? { return Exits(d.why); }
      c := NewSlice(d.value);
    }
    if c[8] == 0 { return Exits(DocumentChunk); }
    WriteChecksum(sha, c);
    if compressed {
      var e := CompressChunk(z, c[..]);
      if e.Exits? { return Exits(e.why); }
      c := NewSlice(e.value);
    }
    return Ok(c);
  }

  /** The checksum field holds the digest of the uncompressed form of the chunk. */
  predicate ChecksumMatches(sha: seq<byte> -> Digest, z: Flate, b: seq<byte>)
    requires |b| >= 10
  {
    var plain := if b[8] == 2 then DecompressChunk(z, b) else Ok(b);
    plain.Ok? && |plain.value| >= 8 && plain.value[4..8] == sha(plain.value[8..])[..4]
  }

  lemma WithChecksumTwice(sha: seq<byte> -> Digest, b: seq<byte>)
    requires |b| >= 10
    ensures var c := WithChecksum(sha, b);
            |c| == |b| && c[8..] == b[8..] && c[..4] == b[..4] && c[4..8] == sha(c[8..])[..4]
            && WithChecksum(sha, c) == c
  {
    var c := WithChecksum(sha, b);
    assert c[8..] == b[8..] && c[..4] == b[..4];
  }

  /** Repairing leaves a matching checksum, and repairing again changes nothing. */
  lemma FixChecksumSettles(sha: seq<byte> -> Digest, z: Flate, b: seq<byte>)
    requires z.Lossless() && |b| < TWO63
    requires DecompressChunk(z, b).Ok? ==> |DecompressChunk(z, b).value| < TWO63
    requires Fixed(sha, z, b).Ok? && |Fixed(sha, z, b).value| < TWO63
    ensures var c := Fixed(sha, z, b).value;
            |c| >= 10 && c[8] == b[8] && ChecksumMatches(sha, z, c) && Fixed(sha, z, c) == Ok(c)
  {
    if b[8] == 2 {
      FixCompressed(sha, z, DecompressChunk(z, b).value);
    } else {
      FixPlain(sha, z, b);
    }
  }

  lemma FixPlain(sha: seq<byte> -> Digest, z: Flate, b: seq<byte>)
    requires |b| < TWO63 && ValidateChunk(b, ANY_KIND).Ok? && b[8] != 0 && b[8] != 2
    ensures var c := WithChecksum(sha, b);
            |c| >= 10 && c[8] == b[8] && ChecksumMatches(sha, z, c) && Fixed(sha, z, c) == Ok(c)
  {
    var p, c := ValidateChunk(b, ANY_KIND).value, WithChecksum(sha, b);
    WithChecksumTwice(sha, b);
    ValidIsFrame(b, ANY_KIND, p);
    FrameParts(b, p);
    assert c[8] == c[8..][0] == b[8..][0];
    assert c[9..] == c[8..][1..] == b[8..][1..] == b[9..];
    FrameParts(c, p);
    ValidIsFrame(c, ANY_KIND, p);
  }

  lemma FixCompressed(sha: seq<byte> -> Digest, z: Flate, d: seq<byte>)
    requires z.Lossless() && 10 <= |d| < TWO63
    requires var r := CompressChunk(z, WithChecksum(sha, d)); r.Ok? && |r.value| < TWO63
    ensures var c := CompressChunk(z, WithChecksum(sha, d)).value;
            |c| >= 10 && c[8] == 2 && ChecksumMatches(sha, z, c) && Fixed(sha, z, c) == Ok(c)
  {
    var e := WithChecksum(sha, d);
    WithChecksumTwice(sha, d);
    CompressedIsFrame(z, e);
    FrameIsValid(e[4..8], 2, z.deflate(ValidateChunk(e, 1).value));
    DecompressInvertsCompress(z, e);
  }

  // ---------------------------------------------------------------- when the tool succeeds, and on what

  /** A built header carries the digest of what follows it. */
  lemma HeaderMatches(sha: seq<byte> -> Digest, z: Flate, p: seq<byte>, kind: byte)
    requires kind != 2
    ensures |AddHeader(sha, p, kind)| >= 10 && AddHeader(sha, p, kind)[8] == kind
    ensures ChecksumMatches(sha, z, AddHeader(sha, p, kind))
  {
    var sum, body := sha(Body(kind, p))[..4], Body(kind, p);
    var c := MAGIC + sum + body;
    assert c[4..8] == sum && c[8..] == body && c[8] == body[0] == kind;
  }

  /** Compressing succeeds exactly on valid change chunks; the result keeps the header and is a valid
      compressed chunk of the deflated payload. */
  lemma CompressSucceedsExactly(z: Flate, b: seq<byte>)
    requires |b| < TWO63
    ensures CompressChunk(z, b).Ok? <==> ValidateChunk(b, 1).Ok?
    ensures CompressChunk(z, b).Ok? && |CompressChunk(z, b).value| < TWO63 ==>
      ValidateChunk(CompressChunk(z, b).value, 2) == Ok(z.deflate(ValidateChunk(b, 1).value))
      && CompressChunk(z, b).value[..8] == b[..8]
  {
    if CompressChunk(z, b).Ok? && |CompressChunk(z, b).value| < TWO63 {
      CompressedIsFrame(z, b);
      var q := z.deflate(ValidateChunk(b, 1).value);
      FrameIsValid(b[4..8], 2, q);
      assert Frame(b[4..8], 2, q)[..8] == MAGIC + b[4..8] == b[..8];
    }
  }

  /** Decompressing succeeds exactly on valid compressed chunks that inflate. */
  lemma DecompressSucceedsExactly(z: Flate, b: seq<byte>)
    requires |b| < TWO63
    ensures DecompressChunk(z, b).Ok? <==> ValidateChunk(b, 2).Ok? && z.inflate(ValidateChunk(b, 2).value).Some?
    ensures DecompressChunk(z, b).Ok? && |DecompressChunk(z, b).value| < TWO63 ==>
      ValidateChunk(DecompressChunk(z, b).value, 1) == Ok(z.inflate(ValidateChunk(b, 2).value).value)
      && DecompressChunk(z, b).value[..8] == b[..8]
  {
    if DecompressChunk(z, b).Ok? && |DecompressChunk(z, b).value| < TWO63 {
      var p := ValidateChunk(b, 2).value;
      var q := z.inflate(p).value;
      ValidIsFrame(b, 2, p);
      Reframe(b, p, 1, q);
      FrameIsValid(b[4..8], 1, q);
      assert Frame(b[4..8], 1, q)[..8] == MAGIC + b[4..8] == b[..8];
    }
  }

  /** Replacing the checksum of a valid chunk leaves a valid chunk of the same kind and payload. */
  lemma ChecksumKeepsPayload(sha: seq<byte> -> Digest, b: seq<byte>, expected: byte)
    requires |b| < TWO63 && ValidateChunk(b, expected).Ok?
    ensures ValidateChunk(WithChecksum(sha, b), expected) == ValidateChunk(b, expected)
    ensures WithChecksum(sha, b)[8] == b[8]
  {
    var c := WithChecksum(sha, b);
    WithChecksumTwice(sha, b);
    assert c[8] == c[8..][0] == b[8..][0];
    assert c[9..] == c[8..][1..] == b[8..][1..] == b[9..];
    assert c[0] == c[..4][0] && c[1] == c[..4][1] && c[2] == c[..4][2] && c[3] == c[..4][3];
  }

  /** The payload of a chunk, inflated if the chunk is compressed. */
  function Contents(z: Flate, b: seq<byte>): Option<seq<byte>> {
    var v := ValidateChunk(b, ANY_KIND);
    if v.Exits? then None else if b[8] == 2 then z.inflate(v.value) else Some(v.value)
  }

  /** Repairing succeeds exactly on valid chunks that are not documents and, if compressed, inflate; it
      keeps kind and contents. */
  lemma FixSucceedsExactly(sha: seq<byte> -> Digest, z: Flate, b: seq<byte>)
    requires z.Lossless() && |b| < TWO63
    requires DecompressChunk(z, b).Ok? ==> |DecompressChunk(z, b).value| < TWO63
    requires Fixed(sha, z, b).Ok? ==> |Fixed(sha, z, b).value| < TWO63
    ensures Fixed(sha, z, b).Ok? <==> Contents(z, b).Some? && b[8] != 0
    ensures Fixed(sha, z, b).Ok? ==> Contents(z, Fixed(sha, z, b).value) == Contents(z, b) && |Fixed(sha, z, b).value| >= 10
    ensures Fixed(sha, z, b).Ok? ==> Fixed(sha, z, b).value[8] == b[8]
  {
    if ValidateChunk(b, ANY_KIND).Ok? {
      if b[8] == 2 {
        DecompressSucceedsExactly(z, b);
        if DecompressChunk(z, b).Ok? {
          var d := DecompressChunk(z, b).value;
          ChecksumKeepsPayload(sha, d, 1);
          CompressSucceedsExactly(z, WithChecksum(sha, d));
          ValidForAny(CompressChunk(z, WithChecksum(sha, d)).value);
        }
      } else {
        ChecksumKeepsPayload(sha, b, ANY_KIND);
      }
    }
  }

  lemma ValidForAny(b: seq<byte>)
    requires ValidateChunk(b, 2).Ok?
    ensures ValidateChunk(b, ANY_KIND) == ValidateChunk(b, 2) && b[8] == 2
  {}
}
