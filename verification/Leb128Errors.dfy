/** What the errors of the strict LEB128 readers mean (cmd/automerge-debug/main.go). */
module Leb128Errors {
  import opened Words
  import opened Leb128

  // ---------------------------------------------------------------- what the errors mean

  lemma CompleteGroup(b: seq<byte>)
    requires EndAt(b) < |b|
    ensures OneLeb(b[..EndAt(b) + 1])
  {
    EndUnique(b[..EndAt(b) + 1], EndAt(b));
  }

  /** The unsigned reader's errors: the input ends in the number; there is a shorter encoding; or the
      number does not fit 64 bits. */
  lemma UnsignedErrorsMean(b: seq<byte>)
    ensures ULebRead(b).err == Some(Truncated) <==> EndAt(b) == |b|
    ensures EndAt(b) < |b| ==>
      var s := b[..EndAt(b) + 1];
      (ULebRead(b).err == Some(OverlyLong) <==> s != ULEB(UValue(s)))
      && (ULebRead(b).err == Some(TooBig) <==> s == ULEB(UValue(s)) && UValue(s) >= TWO64)
  {
    if EndAt(b) < |b| {
      CompleteGroup(b);
      UnsignedErrors(b[..EndAt(b) + 1]);
    }
  }

  lemma UnsignedErrors(s: seq<byte>)
    requires OneLeb(s)
    ensures ULebError(s) == Some(OverlyLong) <==> s != ULEB(UValue(s))
    ensures ULebError(s) == Some(TooBig) <==> s == ULEB(UValue(s)) && UValue(s) >= TWO64
  {
    if |s| > 1 && s[|s| - 1] == 0 {
      ULEBShape(UValue(s));
    } else {
      ULEBOfUValue(s);
      ULEBFits(s);
    }
  }

  /** The same for the signed reader and the int64 range. */
  lemma SignedErrorsMean(b: seq<byte>)
    ensures SLebRead(b).err == Some(Truncated) <==> EndAt(b) == |b|
    ensures EndAt(b) < |b| ==>
      var s := b[..EndAt(b) + 1];
      (SLebRead(b).err == Some(OverlyLong) <==> s != SLEB(SValue(s)))
      && (SLebRead(b).err == Some(TooBig) <==> s == SLEB(SValue(s)) && !(-TWO63 <= SValue(s) < TWO63))
  {
    if EndAt(b) < |b| {
      var s := b[..EndAt(b) + 1];
      CompleteGroup(b);
      SLEBShape(SValue(s));
      if SLebError(s) != Some(OverlyLong) {
        SLEBOfSValue(s);
        SLEBFits(s);
      }
    }
  }
}
