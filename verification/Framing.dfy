/** Lists of byte strings behind 32-bit lengths, lists of 32-byte hashes, and the loop that applies
    such a list of changes (internal/backend/backend.go, wasi/src/changes.rs).
  */
module Framing {
  import opened Words
  import opened LittleEndian
  import opened Codes

  // ---------------------------------------------------------------- one item

  /** `uint32(len(item))` cuts the length off at 32 bits, and the item follows in full. */
  function Framed(item: Bytes): Bytes {
    LE(|item| % TWO32, 4) + item
  }

  function SplitAt(data: Bytes, n: nat): Option<(Bytes, Bytes)> {
    if n > |data| then None else Some((data[..n], data[n..]))
  }

  /** The item at the start, if all of it is there, and what follows it. */
  function TakeItem(data: Bytes): Option<(Bytes, Bytes)> {
    if |data| < 4 then None else SplitAt(data[4..], ReadU32(data[..4]))
  }

  predicate ShortEnough(item: Bytes) {
    |item| < TWO32
  }

  function ItemCode(): Code<Bytes> {
    Code(Framed, TakeItem, ShortEnough)
  }

  lemma Halves(a: Bytes, b: Bytes)
    ensures (a + b)[..|a|] == a && (a + b)[|a|..] == b
  {}

  lemma ItemComesBack(item: Bytes, r: Bytes)
    requires |item| < TWO32
    ensures TakeItem(Framed(item) + r) == Some((item, r))
  {
    var len := LE(|item|, 4);
    assert |item| % TWO32 == |item|;
    Regroup(len, item, r);
    Halves(len, item + r);
    U32ComesBack(|item|);
    Halves(item, r);
  }

  lemma ItemIsFramed(data: Bytes)
    requires TakeItem(data).Some?
    ensures var (item, r) := TakeItem(data).value;
            |item| < TWO32 && data == Framed(item) + r
  {
    var head, n := data[..4], ReadU32(data[..4]);
    var (item, r) := TakeItem(data).value;
    HeaderIsWritten(head, n);
    Regroup(head, item, r);
    assert item + r == data[4..] && data == head + data[4..];
  }

  lemma HeaderIsWritten(head: Bytes, n: nat)
    requires |head| == 4 && n == ReadU32(head)
    ensures LE(n % TWO32, 4) == head
  {
    BytesComeBack(head);
    assert n % TWO32 == n;
  }

  /** Items shorter than 2^32 bytes, and only they, survive framing. */
  lemma ItemsAreExact()
    ensures Exact(ItemCode())
  {
    var c := ItemCode();
    forall x, r | c.fits(x) ensures c.write(x) != [] && c.read(c.write(x) + r) == Some((x, r)) {
      ItemComesBack(x, r);
    }
    forall d | c.read(d).Some?
      ensures c.fits(c.read(d).value.0) && d == c.write(c.read(d).value.0) + c.read(d).value.1
    {
      ItemIsFramed(d);
    }
  }

  // ---------------------------------------------------------------- lists of items

  function ListOf(data: Bytes): seq<Bytes> {
    ReadAll(ItemCode(), data)
  }

  function EncodedList(items: seq<Bytes>): Bytes {
    WriteAll(ItemCode(), items)
  }

  /** Reading undoes writing exactly for lists of items shorter than 2^32 bytes. */
  lemma ListRoundTrip(items: seq<Bytes>)
    ensures ListOf(EncodedList(items)) == items <==> forall x :: x in items ==> |x| < TWO32
  {
    ItemsAreExact();
    RoundTripExactlyWhenFits(ItemCode(), items);
    assert AllFit(ItemCode(), items) <==> forall i :: 0 <= i < |items| ==> |items[i]| < TWO32;
  }

  /** A prefix of an encoding gives a prefix of the list. */
  lemma ListPrefix(items: seq<Bytes>, cut: nat)
    requires (forall x :: x in items ==> |x| < TWO32) && cut <= |EncodedList(items)|
    ensures ListOf(EncodedList(items)[..cut]) <= items
    ensures cut == |EncodedList(items)| ==> ListOf(EncodedList(items)[..cut]) == items
  {
    ItemsAreExact();
    PrefixGivesPrefix(ItemCode(), items, cut);
  }

  /** The step of the reading loops: what the slices at an offset are, in terms of the code. */
  lemma AtOffset(data: Bytes, offset: nat, len: nat)
    requires offset + 4 <= |data| && len == ReadU32(data[offset..offset + 4])
    ensures TakeItem(data[offset..]) ==
            if offset + 4 + len > |data| then None
            else Some((data[offset + 4..offset + 4 + len], data[offset + 4 + len..]))
  {
    var rest := data[offset..];
    assert rest[..4] == data[offset..offset + 4];
    assert rest[4..] == data[offset + 4..];
    if offset + 4 + len <= |data| {
      assert data[offset + 4..][..len] == data[offset + 4..offset + 4 + len];
      assert data[offset + 4..][len..] == data[offset + 4 + len..];
    }
  }

  /** One round of the loops that read a list. */
  lemma ListStep(data: Bytes, offset: nat, len: nat)
    requires offset + 4 <= |data| && len == ReadU32(data[offset..offset + 4])
    ensures offset + 4 + len > |data| ==>
      ListOf(data[offset..]) == [] && Leftover(ItemCode(), data[offset..]) == data[offset..]
    ensures offset + 4 + len <= |data| ==>
      var item, rest := data[offset + 4..offset + 4 + len], data[offset + 4 + len..];
      ListOf(data[offset..]) == [item] + ListOf(rest) && Leftover(ItemCode(), data[offset..]) == Leftover(ItemCode(), rest)
  {
    AtOffset(data, offset, len);
  }

  lemma ListEnd(data: Bytes, offset: nat)
    requires offset <= |data| < offset + 4
    ensures ListOf(data[offset..]) == [] && Leftover(ItemCode(), data[offset..]) == data[offset..]
  {}

  lemma ParseRound(items: seq<Bytes>, data: Bytes, offset: nat, len: nat)
    requires offset + 4 <= |data| && len == ReadU32(data[offset..offset + 4])
    ensures items + ListOf(data[offset..]) ==
            if offset + 4 + len > |data| then items
            else (items + [data[offset + 4..offset + 4 + len]]) + ListOf(data[offset + 4 + len..])
  {
    ListStep(data, offset, len);
    if offset + 4 + len > |data| {
      Done(items);
    } else {
      Push(items, data[offset + 4..offset + 4 + len], ListOf(data[offset + 4 + len..]));
    }
  }

  method ParseLengthPrefixedList(data: Bytes) returns (items: seq<Bytes>)
    ensures items == ListOf(data)
  {
    items := [];
    var offset := 0;
    assert data[0..] == data;
    while offset + 4 <= |data|
      invariant 0 <= offset <= |data|
      invariant items + ListOf(data[offset..]) == ListOf(data)
    {
      var itemLen := ReadU32(data[offset..offset + 4]);
      ParseRound(items, data, offset, itemLen);
      offset := offset + 4;
      if offset + itemLen > |data| {
        return;
      }
      items := items + [data[offset..offset + itemLen]];
      offset := offset + itemLen;
    }
    ListEnd(data, offset);
    Done(items);
  }

  /** The Go encoder; am_get_changes_len frames the changes of a document in the same loop. */
  method EncodeLengthPrefixedList(items: seq<Bytes>) returns (out: Bytes)
    ensures out == EncodedList(items)
  {
    out := [];
    for i := 0 to |items|
      invariant out == EncodedList(items[..i])
    {
      assert items[..i + 1] == items[..i] + [items[i]];
      WriteAllConcat(ItemCode(), items[..i], [items[i]]);
      WriteOne(ItemCode(), items[i]);
      Regroup(out, LE(|items[i]| % TWO32, 4), items[i]);
      out := out + LE(|items[i]| % TWO32, 4);
      out := out + items[i];
    }
    assert items[..|items|] == items;
  }

  // ---------------------------------------------------------------- applying changes

  /** The document behind am_apply_changes: reading one change and applying it may each fail, and a
      failed application leaves whatever document it leaves. */
  datatype Engine<!D> = Engine(accepts: Bytes -> bool, apply: (D, Bytes) -> D, applied: (D, Bytes) -> bool)

  datatype Applied<D> = Applied(doc: D, ok: bool)

  /** Applies changes one after the other and stops at the first that fails; earlier ones stay. */
  function ApplyInOrder<D>(e: Engine<D>, doc: D, changes: seq<Bytes>): Applied<D> {
    if changes == [] then Applied(doc, true)
    else if !e.accepts(changes[0]) then Applied(doc, false)
    else if !e.applied(doc, changes[0]) then Applied(e.apply(doc, changes[0]), false)
    else ApplyInOrder(e, e.apply(doc, changes[0]), changes[1..])
  }

  /** How am_apply_changes ends: with a return code, or in a trap when the 32-bit sum of an offset
      and a length overflows. */
  datatype Ending = Returned(rc: int) | Trap

  /** What happens behind the last complete item, `used` bytes into the data. */
  function AtTheEnd(used: nat, rest: Bytes): Ending {
    if |rest| < 4 then Returned(0)
    else if used + 4 + ReadU32(rest[..4]) >= TWO32 then Trap
    else Returned(-5)
  }

  /** One change in front of the others. */
  lemma ApplyFirst<D>(e: Engine<D>, doc: D, change: Bytes, more: seq<Bytes>)
    ensures ApplyInOrder(e, doc, [change] + more) ==
            if !e.accepts(change) then Applied(doc, false)
            else if !e.applied(doc, change) then Applied(e.apply(doc, change), false)
            else ApplyInOrder(e, e.apply(doc, change), more)
  {
    assert ([change] + more)[1..] == more;
  }

  datatype Outcome<D> = Outcome(doc: D, end: Ending)

  /** The complete items of `data` are applied in order; only if all of them are does the end of the
      data matter.  The data start `base` bytes into the buffer. */
  function ApplyData<D>(e: Engine<D>, doc: D, base: nat, data: Bytes): Outcome<D> {
    var all, rest := ApplyInOrder(e, doc, ListOf(data)), Leftover(ItemCode(), data);
    Outcome(all.doc, if all.ok then AtTheEnd(base + |data| - |rest|, rest) else Returned(-5))
  }

  lemma ApplyIncomplete<D>(e: Engine<D>, doc: D, data: Bytes, offset: nat)
    requires offset <= |data|
    requires offset + 4 <= |data| ==> offset + 4 + ReadU32(data[offset..offset + 4]) > |data|
    ensures ApplyData(e, doc, offset, data[offset..]) == Outcome(doc, AtTheEnd(offset, data[offset..]))
  {
    if offset + 4 <= |data| {
      ListStep(data, offset, ReadU32(data[offset..offset + 4]));
    } else {
      ListEnd(data, offset);
    }
  }

  lemma ApplyOne<D>(e: Engine<D>, doc: D, data: Bytes, offset: nat, len: nat)
    requires offset + 4 + len <= |data| && len == ReadU32(data[offset..offset + 4])
    ensures var change, next := data[offset + 4..offset + 4 + len], offset + 4 + len;
            ApplyData(e, doc, offset, data[offset..]) ==
            if !e.accepts(change) then Outcome(doc, Returned(-5))
            else if !e.applied(doc, change) then Outcome(e.apply(doc, change), Returned(-5))
            else ApplyData(e, e.apply(doc, change), next, data[next..])
  {
    ListStep(data, offset, len);
    ApplyFirst(e, doc, data[offset + 4..offset + 4 + len], ListOf(data[offset + 4 + len..]));
  }

  /** `am_apply_changes` on a document that is open.  Changes in front of a truncated item or of one
      that fails stay applied; one to three bytes at the end are ignored. */
  method ApplyChanges<D>(e: Engine<D>, before: D, data: Bytes) returns (doc: D, end: Ending)
    requires |data| < TWO32
    ensures Outcome(doc, end) == if data == [] then Outcome(before, Returned(-1)) else ApplyData(e, before, 0, data)
  {
    doc := before;
    if |data| == 0 {
      return doc, Returned(-1);
    }
    var offset := 0;
    assert data[0..] == data;
    while offset + 4 <= |data|
      invariant 0 <= offset <= |data|
      invariant ApplyData(e, before, 0, data) == ApplyData(e, doc, offset, data[offset..])
    {
      var len := ReadU32(data[offset..offset + 4]);
      if offset + 4 + len > |data| {
        ApplyIncomplete(e, doc, data, offset);
        assert data[offset..][..4] == data[offset..offset + 4];
        return doc, if offset + 4 + len >= TWO32 then Trap else Returned(-5);
      }
      var change := data[offset + 4..offset + 4 + len];
      ApplyOne(e, doc, data, offset, len);
      offset := offset + 4 + len;
      if !e.accepts(change) {
        return doc, Returned(-5);
      }
      var fine := e.applied(doc, change);
      doc := e.apply(doc, change);
      if !fine {
        return doc, Returned(-5);
      }
    }
    ApplyIncomplete(e, doc, data, offset);
    end := Returned(0);
  }

  /** Four bytes that make the call trap, whatever the document and the engine. */
  lemma TrappingData<D>(e: Engine<D>, doc: D)
    ensures ApplyData(e, doc, 0, [255, 255, 255, 255]) == Outcome(doc, Trap)
  {
    var data: Bytes := [255, 255, 255, 255];
    assert data[0..] == data && data[0..4] == data && data[..4] == data;
    AllOnes();
    ApplyIncomplete(e, doc, data, 0);
  }

  lemma AllOnes()
    ensures ReadU32([255, 255, 255, 255]) == TWO32 - 1
  {
    var s: Bytes := [255, 255, 255, 255];
    assert s[1..] == [255, 255, 255] && s[1..][1..] == [255, 255] && s[1..][1..][1..] == [255] && s[1..][1..][1..][1..] == [];
    assert FromLE([255]) == 255;
    assert FromLE([255, 255]) == 0xFFFF;
    assert FromLE([255, 255, 255]) == 0xFF_FFFF;
  }

  /** How the Go side's `ApplyChanges` ends: `writeBytes` may fail before the module is called. */
  datatype Sent<D> = Sent(doc: D, failed: bool)

  /** `ApplyChanges` of the backend.  The module's memory has at most 2^32 bytes, so data of that size
      or more are not written: either their length is cut off to 0, and the module refuses the empty
      data, or writing them fails.  Otherwise exactly the given changes are applied, in that order.
      The call succeeds exactly if there are any, they fit, and each can be applied in its turn. */
  method SendChanges<D>(e: Engine<D>, before: D, changes: seq<Bytes>) returns (r: Sent<D>)
    ensures var all, fit := ApplyInOrder(e, before, changes), |EncodedList(changes)| < TWO32;
            r == if changes != [] && fit then Sent(all.doc, !all.ok) else Sent(before, true)
  {
    var data := EncodeLengthPrefixedList(changes);
    var size := |data| % TWO32;
    if size != 0 && |data| > size {
      return Sent(before, true);
    }
    if |data| < TWO32 { ChangesArrive(changes); }
    var doc, end := ApplyChanges(e, before, if size == 0 then [] else data);
    r := Sent(doc, end != Returned(0));
  }

  /** What is sent is read as the changes, and nothing is left over. */
  lemma ChangesArrive(changes: seq<Bytes>)
    requires |EncodedList(changes)| < TWO32
    ensures ListOf(EncodedList(changes)) == changes && Leftover(ItemCode(), EncodedList(changes)) == []
    ensures changes == [] <==> EncodedList(changes) == []
  {
    EncodedIsLonger(changes);
    ItemsAreExact();
    RoundTripExactlyWhenFits(ItemCode(), changes);
  }

  lemma {:induction false} EncodedIsLonger(items: seq<Bytes>)
    ensures forall i :: 0 <= i < |items| ==> |items[i]| < |EncodedList(items)|
  {
    if items != [] { EncodedIsLonger(items[1..]); }
  }

  // ---------------------------------------------------------------- hashes

  type Hash = s: seq<byte> | |s| == 32 witness seq(32, _ => 0)

  function TakeHash(data: Bytes): Option<(Hash, Bytes)> {
    if |data| < 32 then None else Some((data[..32], data[32..]))
  }

  function HashCode(): Code<Hash> {
    Code((h: Hash) => h, TakeHash, (h: Hash) => true)
  }

  lemma HashesAreExact()
    ensures Exact(HashCode())
  {
    var c := HashCode();
    forall x: Hash, r: Bytes | c.fits(x) ensures c.write(x) != [] && c.read(c.write(x) + r) == Some((x, r)) {
      Halves(x, r);
    }
  }

  lemma HashStep(data: Bytes, i: nat)
    requires i <= |data|
    ensures ReadAll(HashCode(), data[i..]) == if i + 32 > |data| then [] else [data[i..i + 32]] + ReadAll(HashCode(), data[i + 32..])
  {
    if i + 32 <= |data| {
      assert data[i..][..32] == data[i..i + 32] && data[i..][32..] == data[i + 32..];
    }
  }

  method ParseChangeHashes(data: Bytes) returns (hashes: seq<Hash>)
    ensures hashes == ReadAll(HashCode(), data)
  {
    hashes := [];
    var i := 0;
    assert data[0..] == data;
    while i + 32 <= |data|
      invariant 0 <= i <= |data|
      invariant hashes + ReadAll(HashCode(), data[i..]) == ReadAll(HashCode(), data)
    {
      HashStep(data, i);
      Push(hashes, data[i..i + 32], ReadAll(HashCode(), data[i + 32..]));
      hashes := hashes + [data[i..i + 32]];
      i := i + 32;
    }
    HashStep(data, i);
    Done(hashes);
  }

  method EncodeChangeHashes(hashes: seq<Hash>) returns (out: Bytes)
    ensures out == WriteAll(HashCode(), hashes)
    ensures ReadAll(HashCode(), out) == hashes
  {
    out := [];
    for i := 0 to |hashes|
      invariant out == WriteAll(HashCode(), hashes[..i])
    {
      assert hashes[..i + 1] == hashes[..i] + [hashes[i]];
      WriteAllConcat(HashCode(), hashes[..i], [hashes[i]]);
      WriteOne(HashCode(), hashes[i]);
      out := out + hashes[i];
    }
    assert hashes[..|hashes|] == hashes;
    HashesAreExact();
    RoundTripExactlyWhenFits(HashCode(), hashes);
  }

  /** All whole hashes are read; an incomplete one at the end is dropped. */
  lemma {:induction false} HashesKeepBytes(data: Bytes)
    ensures WriteAll(HashCode(), ReadAll(HashCode(), data)) + Leftover(HashCode(), data) == data
    ensures |Leftover(HashCode(), data)| < 32
  {
    HashesAreExact();
    AllIsWritten(HashCode(), data);
  }
}
