/** The record that am_change_info_len lays out (wasi/src/changes.rs) and `ParseChangeInfo` reads
    (internal/backend/backend.go).
  */
module ChangeRecords {
  import opened Words
  import opened LittleEndian
  import opened Codes
  import opened Framing

  datatype ChangeInfo = ChangeInfo(hash: Hash, timestamp: i64, seqNo: u64, actor: Bytes, message: Bytes, deps: seq<Hash>)

  // ---------------------------------------------------------------- the parts

  function TakeU64(d: Bytes): Option<(u64, Bytes)> {
    if |d| < 8 then None else Some((ReadU64(d[..8]), d[8..]))
  }

  function TakeI64(d: Bytes): Option<(i64, Bytes)> {
    if |d| < 8 then None else Some((ToI64(ReadU64(d[..8])), d[8..]))
  }

  function U64Code(): Code<u64> {
    Code((u: u64) => LE(u, 8), TakeU64, (u: u64) => true)
  }

  function I64Code(): Code<i64> {
    Code((i: i64) => LE(ToU64(i), 8), TakeI64, (i: i64) => true)
  }

  lemma U64Exact()
    ensures Exact(U64Code())
  {
    var c := U64Code();
    forall x: u64, r: Bytes | c.fits(x) ensures c.write(x) != [] && c.read(c.write(x) + r) == Some((x, r)) {
      Halves(LE(x, 8), r);
      U64ComesBack(x);
    }
    forall d: Bytes | c.read(d).Some?
      ensures c.fits(c.read(d).value.0) && d == c.write(c.read(d).value.0) + c.read(d).value.1
    {
      BytesComeBack(d[..8]);
      assert d == d[..8] + d[8..];
    }
  }

  lemma I64Exact()
    ensures Exact(I64Code())
  {
    var c := I64Code();
    forall x: i64, r: Bytes | c.fits(x) ensures c.write(x) != [] && c.read(c.write(x) + r) == Some((x, r)) {
      Halves(LE(ToU64(x), 8), r);
      I64ComesBack(x);
    }
    forall d: Bytes | c.read(d).Some?
      ensures c.fits(c.read(d).value.0) && d == c.write(c.read(d).value.0) + c.read(d).value.1
    {
      BytesComeBack(d[..8]);
      WordIsItsInteger(ReadU64(d[..8]));
      assert d == d[..8] + d[8..];
    }
  }

  /** The dependencies: a count, cut off at 32 bits, and that many hashes. */
  function WriteDeps(deps: seq<Hash>): Bytes {
    LE(|deps| % TWO32, 4) + WriteAll(HashCode(), deps)
  }

  function TakeHashes(n: nat, d: Bytes): Option<(seq<Hash>, Bytes)> {
    if n == 0 then Some(([], d))
    else if |d| < 32 then None
    else
      var more := TakeHashes(n - 1, d[32..]);
      if more.None? then None else Some(([d[..32]] + more.value.0, more.value.1))
  }

  function TakeDeps(d: Bytes): Option<(seq<Hash>, Bytes)> {
    if |d| < 4 then None else TakeHashes(ReadU32(d[..4]), d[4..])
  }

  predicate FewEnough(deps: seq<Hash>) {
    |deps| < TWO32
  }

  function DepsCode(): Code<seq<Hash>> {
    Code(WriteDeps, TakeDeps, FewEnough)
  }

  lemma {:induction false} HashesComeBack(deps: seq<Hash>, r: Bytes)
    ensures TakeHashes(|deps|, WriteAll(HashCode(), deps) + r) == Some((deps, r))
  {
    if deps == [] {
      assert WriteAll(HashCode(), deps) + r == r;
    } else {
      var tail := WriteAll(HashCode(), deps[1..]) + r;
      HashesComeBack(deps[1..], r);
      Regroup(deps[0], WriteAll(HashCode(), deps[1..]), r);
      Halves(deps[0], tail);
      assert [deps[0]] + deps[1..] == deps;
    }
  }

  lemma {:induction false} HashesAreWritten(n: nat, d: Bytes)
    requires TakeHashes(n, d).Some?
    ensures var (deps, r) := TakeHashes(n, d).value;
            |deps| == n && d == WriteAll(HashCode(), deps) + r
  {
    if n > 0 {
      HashesAreWritten(n - 1, d[32..]);
      var (more, r) := TakeHashes(n - 1, d[32..]).value;
      var deps := [d[..32]] + more;
      assert deps[1..] == more && deps[0] == d[..32];
      Regroup(d[..32], WriteAll(HashCode(), more), r);
      assert d == d[..32] + d[32..];
    }
  }

  lemma DepsExact()
    ensures Exact(DepsCode())
  {
    var c := DepsCode();
    forall x: seq<Hash>, r: Bytes | c.fits(x) ensures c.write(x) != [] && c.read(c.write(x) + r) == Some((x, r)) {
      DepsComeBack(x, r);
    }
    forall d: Bytes | c.read(d).Some?
      ensures c.fits(c.read(d).value.0) && d == c.write(c.read(d).value.0) + c.read(d).value.1
    {
      DepsAreWritten(d);
    }
  }

  lemma DepsComeBack(deps: seq<Hash>, r: Bytes)
    requires |deps| < TWO32
    ensures TakeDeps(WriteDeps(deps) + r) == Some((deps, r))
  {
    var count := LE(|deps|, 4);
    assert |deps| % TWO32 == |deps|;
    Regroup(count, WriteAll(HashCode(), deps), r);
    Halves(count, WriteAll(HashCode(), deps) + r);
    U32ComesBack(|deps|);
    HashesComeBack(deps, r);
  }

  lemma DepsAreWritten(d: Bytes)
    requires TakeDeps(d).Some?
    ensures var (deps, r) := TakeDeps(d).value;
            |deps| < TWO32 && d == WriteDeps(deps) + r
  {
    var n := ReadU32(d[..4]);
    HashesAreWritten(n, d[4..]);
    HeaderIsWritten(d[..4], n);
    var (deps, r) := TakeDeps(d).value;
    Regroup(d[..4], WriteAll(HashCode(), deps), r);
    assert d == d[..4] + d[4..];
  }

  // ---------------------------------------------------------------- the record

  type Body = (Bytes, (Bytes, seq<Hash>))

  /** Actor, message and dependencies. */
  function BodyCode(): Code<Body> {
    Pair(ItemCode(), Pair(ItemCode(), DepsCode()))
  }

  type Record = (Hash, (i64, (u64, Body)))

  function RecordCode(): Code<Record> {
    Pair(HashCode(), Pair(I64Code(), Pair(U64Code(), BodyCode())))
  }

  lemma RecordsAreExact()
    ensures Exact(BodyCode()) && Exact(RecordCode())
  {
    HashesAreExact();
    ItemsAreExact();
    I64Exact();
    U64Exact();
    DepsExact();
    PairIsExact(ItemCode(), DepsCode());
    PairIsExact(ItemCode(), Pair(ItemCode(), DepsCode()));
    PairIsExact(U64Code(), BodyCode());
    PairIsExact(I64Code(), Pair(U64Code(), BodyCode()));
    PairIsExact(HashCode(), Pair(I64Code(), Pair(U64Code(), BodyCode())));
  }

  function ToRecord(c: ChangeInfo): Record {
    (c.hash, (c.timestamp, (c.seqNo, (c.actor, (c.message, c.deps)))))
  }

  function FromRecord(x: Record): ChangeInfo {
    ChangeInfo(x.0, x.1.0, x.1.1.0, x.1.1.1.0, x.1.1.1.1.0, x.1.1.1.1.1)
  }

  predicate Fits(c: ChangeInfo) {
    |c.actor| < TWO32 && |c.message| < TWO32 && |c.deps| < TWO32
  }

  function Layout(c: ChangeInfo): Bytes {
    RecordCode().write(ToRecord(c))
  }

  function InfoOf(d: Bytes): Option<ChangeInfo> {
    var x := RecordCode().read(d);
    if x.None? then None else Some(FromRecord(x.value.0))
  }

  lemma FitsRecord(c: ChangeInfo)
    ensures RecordCode().fits(ToRecord(c)) <==> Fits(c)
    ensures FromRecord(ToRecord(c)) == c
  {}

  /** Every record that is laid out is recovered, whatever follows it. */
  lemma InfoComesBack(c: ChangeInfo, r: Bytes)
    requires Fits(c)
    ensures InfoOf(Layout(c) + r) == Some(c)
  {
    RecordsAreExact();
    FitsRecord(c);
    assert RecordCode().read(RecordCode().write(ToRecord(c)) + r) == Some((ToRecord(c), r));
  }

  /** Only data that start with the layout of a record are accepted, and as that record. */
  lemma InfoIsLaidOut(d: Bytes)
    requires InfoOf(d).Some?
    ensures Fits(InfoOf(d).value) && Layout(InfoOf(d).value) <= d
  {
    RecordsAreExact();
    var (x, r) := RecordCode().read(d).value;
    FitsRecord(FromRecord(x));
    assert ToRecord(FromRecord(x)) == x;
    assert d == RecordCode().write(x) + r;
  }

  /** Acceptance, both ways. */
  lemma AcceptedExactlyWhenLaidOut(c: ChangeInfo, d: Bytes)
    ensures InfoOf(d) == Some(c) <==> Fits(c) && Layout(c) <= d
  {
    if InfoOf(d) == Some(c) {
      InfoIsLaidOut(d);
    }
    if Fits(c) && Layout(c) <= d {
      InfoComesBack(c, d[|Layout(c)|..]);
      assert Layout(c) + d[|Layout(c)|..] == d;
    }
  }

  lemma EveryStrictPrefixIsRejected(c: ChangeInfo, cut: nat)
    requires Fits(c) && cut < |Layout(c)|
    ensures InfoOf(Layout(c)[..cut]).None?
  {
    RecordsAreExact();
    FitsRecord(c);
    PrefixRejected(RecordCode(), ToRecord(c), cut);
  }

  // ---------------------------------------------------------------- the two sides

  /** `am_change_info_len`, from the fields of a change to the return buffer. */
  method ChangeInfoBuffer(c: ChangeInfo) returns (buf: Bytes)
    ensures buf == Layout(c)
  {
    buf := c.hash;
    buf := buf + LE(ToU64(c.timestamp), 8);
    buf := buf + LE(c.seqNo, 8);
    buf := buf + LE(|c.actor| % TWO32, 4);
    buf := buf + c.actor;
    buf := buf + LE(|c.message| % TWO32, 4);
    buf := buf + c.message;
    buf := buf + LE(|c.deps| % TWO32, 4);
    ghost var front := buf;
    for i := 0 to |c.deps|
      invariant buf == front + WriteAll(HashCode(), c.deps[..i])
    {
      assert c.deps[..i + 1] == c.deps[..i] + [c.deps[i]];
      WriteAllConcat(HashCode(), c.deps[..i], [c.deps[i]]);
      WriteOne(HashCode(), c.deps[i]);
      Regroup(front, WriteAll(HashCode(), c.deps[..i]), c.deps[i]);
      buf := buf + c.deps[i];
    }
    assert c.deps[..|c.deps|] == c.deps;
    LayoutIsInOrder(c);
  }

  /** The layout, part by part. */
  lemma LayoutIsInOrder(c: ChangeInfo)
    ensures Layout(c) == c.hash + LE(ToU64(c.timestamp), 8) + LE(c.seqNo, 8) + LE(|c.actor| % TWO32, 4) + c.actor
                         + LE(|c.message| % TWO32, 4) + c.message + LE(|c.deps| % TWO32, 4) + WriteAll(HashCode(), c.deps)
  {
    var h, t, n, a, m := c.hash, LE(ToU64(c.timestamp), 8), LE(c.seqNo, 8), LE(|c.actor| % TWO32, 4), LE(|c.message| % TWO32, 4);
    var k, deps := LE(|c.deps| % TWO32, 4), WriteAll(HashCode(), c.deps);
    assert Layout(c) == h + (t + (n + ((a + c.actor) + ((m + c.message) + (k + deps)))));
    LeftToRight(h, t, n, (a + c.actor) + ((m + c.message) + (k + deps)));
    var front := h + t + n;
    LeftToRight(front, a, c.actor, (m + c.message) + (k + deps));
    LeftToRight(front + a + c.actor, m, c.message, k + deps);
    Regroup(front + a + c.actor + m + c.message, k, deps);
    Regroup(a, c.actor, (m + c.message) + (k + deps));
    Regroup(m, c.message, k + deps);
  }

  lemma LeftToRight(x: Bytes, y: Bytes, z: Bytes, r: Bytes)
    ensures x + (y + (z + r)) == (x + y + z) + r
  {}

  /** The fixed part at the start. */
  lemma RecordStart(d: Bytes)
    ensures |d| < 52 ==> RecordCode().read(d).None?
    ensures |d| >= 52 ==>
      var body := BodyCode().read(d[48..]);
      RecordCode().read(d) ==
      if body.None? then None
      else Some(((d[..32], (ToI64(ReadU64(d[32..40])), (ReadU64(d[40..48]), body.value.0))), body.value.1))
  {
    if |d| >= 48 {
      var d1, d2 := d[32..], d[40..];
      assert d1[..8] == d[32..40] && d1[8..] == d2;
      assert d2[..8] == d[40..48] && d2[8..] == d[48..];
      assert RecordCode().read(d) == ReadPair(HashCode(), Pair(I64Code(), Pair(U64Code(), BodyCode())), d);
      assert TakeI64(d1) == Some((ToI64(ReadU64(d[32..40])), d2));
      assert TakeU64(d2) == Some((ReadU64(d[40..48]), d[48..]));
      if |d| < 52 { assert TakeItem(d[48..]).None?; }
    } else if |d| >= 32 {
      ShortMiddle(d[32..]);
    }
  }

  lemma ShortMiddle(d1: Bytes)
    requires |d1| < 16
    ensures Pair(I64Code(), Pair(U64Code(), BodyCode())).read(d1).None?
  {
    if |d1| >= 8 { assert TakeU64(d1[8..]).None?; }
  }

  /** The hashes from an offset on, one more round of the loop at a time. */
  lemma DepStep(n: nat, d: Bytes, offset: nat, done: seq<Hash>)
    requires 0 < n && offset + 32 <= |d|
    ensures var before, after := TakeHashes(n, d[offset..]), TakeHashes(n - 1, d[offset + 32..]);
            before.None? <==> after.None?
    ensures var before, after := TakeHashes(n, d[offset..]), TakeHashes(n - 1, d[offset + 32..]);
            before.Some? ==> done + before.value.0 == (done + [d[offset..offset + 32]]) + after.value.0
  {
    assert d[offset..][..32] == d[offset..offset + 32] && d[offset..][32..] == d[offset + 32..];
    var after := TakeHashes(n - 1, d[offset + 32..]);
    if after.Some? { Push(done, d[offset..offset + 32], after.value.0); }
  }

  method ReadDeps(data: Bytes, start: nat, depsCount: nat) returns (deps: Option<seq<Hash>>)
    requires start <= |data|
    ensures var x := TakeHashes(depsCount, data[start..]);
            deps == if x.None? then None else Some(x.value.0)
  {
    var got: seq<Hash>, offset := [], start;
    for i := 0 to depsCount
      invariant start <= offset <= |data|
      invariant TakeHashes(depsCount, data[start..]).None? <==> TakeHashes(depsCount - i, data[offset..]).None?
      invariant TakeHashes(depsCount, data[start..]).Some? ==>
                TakeHashes(depsCount, data[start..]).value.0 == got + TakeHashes(depsCount - i, data[offset..]).value.0
    {
      if offset + 32 > |data| {
        return None;
      }
      DepStep(depsCount - i, data, offset, got);
      got := got + [data[offset..offset + 32]];
      offset := offset + 32;
    }
    Done(got);
    return Some(got);
  }

  /** What the body is, given where its parts were found. */
  lemma BodyFound(d: Bytes, actor: Bytes, d1: Bytes, message: Bytes, d2: Bytes)
    requires TakeItem(d) == Some((actor, d1)) && TakeItem(d1) == Some((message, d2))
    ensures var deps := TakeDeps(d2);
            BodyCode().read(d) == if deps.None? then None else Some(((actor, (message, deps.value.0)), deps.value.1))
  {
    assert BodyCode().read(d) == ReadPair(ItemCode(), Pair(ItemCode(), DepsCode()), d);
    assert Pair(ItemCode(), DepsCode()).read(d1) == ReadPair(ItemCode(), DepsCode(), d1);
  }

  lemma BodyCut(d: Bytes)
    requires TakeItem(d).None? || TakeItem(TakeItem(d).value.1).None?
    ensures BodyCode().read(d).None?
  {}

  /** `ParseChangeInfo`; None stands for its errors. */
  method ParseChangeInfo(data: Bytes) returns (ci: Option<ChangeInfo>)
    ensures ci == InfoOf(data)
  {
    RecordStart(data);
    if |data| < 32 + 8 + 8 + 4 {
      return None;
    }
    var hash := data[..32];
    var timestamp := ToI64(ReadU64(data[32..40]));
    var seqNo := ReadU64(data[40..48]);
    var body := ParseBody(data, 48);
    if body.None? {
      return None;
    }
    return Some(ChangeInfo(hash, timestamp, seqNo, body.value.0, body.value.1.0, body.value.1.1));
  }

  /** A block behind its length, at an offset: the steps for the actor, and again for the message. */
  method ReadBlock(data: Bytes, offset: nat) returns (block: Option<Bytes>, next: nat)
    requires offset <= |data|
    ensures block.None? ==> TakeItem(data[offset..]).None?
    ensures block.Some? ==> next <= |data| && TakeItem(data[offset..]) == Some((block.value, data[next..]))
  {
    next := offset;
    if next + 4 > |data| {
      return None, next;
    }
    var len := ReadU32(data[next..next + 4]);
    AtOffset(data, offset, len);
    next := next + 4;
    if next + len > |data| {
      return None, next;
    }
    block := Some(data[next..next + len]);
    next := next + len;
  }

  /** The count and the hashes, at an offset. */
  method ReadCountedDeps(data: Bytes, offset: nat) returns (deps: Option<seq<Hash>>)
    requires offset <= |data|
    ensures var x := TakeDeps(data[offset..]);
            deps == if x.None? then None else Some(x.value.0)
  {
    if offset + 4 > |data| {
      return None;
    }
    var depsCount := ReadU32(data[offset..offset + 4]);
    assert data[offset..][..4] == data[offset..offset + 4] && data[offset..][4..] == data[offset + 4..];
    deps := ReadDeps(data, offset + 4, depsCount);
  }

  /** The parts of variable length, from an offset on. */
  method ParseBody(data: Bytes, start: nat) returns (body: Option<Body>)
    requires start <= |data|
    ensures var x := BodyCode().read(data[start..]);
            body == if x.None? then None else Some(x.value.0)
  {
    var actor, offset := ReadBlock(data, start);
    if actor.None? {
      BodyCut(data[start..]);
      return None;
    }
    ghost var d1 := data[offset..];
    var message;
    message, offset := ReadBlock(data, offset);
    if message.None? {
      BodyCut(data[start..]);
      return None;
    }
    BodyFound(data[start..], actor.value, d1, message.value, data[offset..]);
    var deps := ReadCountedDeps(data, offset);
    if deps.None? {
      return None;
    }
    return Some((actor.value, (message.value, deps.value)));
  }
}
