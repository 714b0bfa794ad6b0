/** The column printers of the debug tool (cmd/automerge-debug/main.go).

    A printer writes one line for each piece of the column it has understood: the bytes of the
    piece and a note.  It goes on after malformed numbers, with the value and the rest that the
    reader returns beside its error.
  */
module Columns {
  import opened Words
  import opened Leb128

  datatype Line<N> = Line(bytes: seq<byte>, note: N)

  function Bytes<N>(lines: seq<Line<N>>): seq<byte> {
    if lines == [] then [] else lines[0].bytes + Bytes(lines[1..])
  }

  function Notes<N>(lines: seq<Line<N>>): seq<N> {
    seq(|lines|, i requires 0 <= i < |lines| => lines[i].note)
  }

  lemma {:induction false} BytesConcat<N>(a: seq<Line<N>>, b: seq<Line<N>>)
    ensures Bytes(a + b) == Bytes(a) + Bytes(b)
  {
    if a == [] {
      assert a + b == b;
    } else {
      assert (a + b)[1..] == a[1..] + b;
      BytesConcat(a[1..], b);
    }
  }

  predicate Suffix(rest: seq<byte>, b: seq<byte>) {
    |rest| <= |b| && rest == b[|b| - |rest|..]
  }

  /** `b[:len(b)-len(rest)]`: what was read to get from `b` to `rest`. */
  function Before(b: seq<byte>, rest: seq<byte>): seq<byte>
    requires |rest| <= |b|
  {
    b[..|b| - |rest|]
  }

  lemma BeforeAndRest(b: seq<byte>, rest: seq<byte>)
    requires Suffix(rest, b)
    ensures Before(b, rest) + rest == b
  {}

  lemma SuffixOfSuffix(a: seq<byte>, b: seq<byte>, c: seq<byte>)
    requires Suffix(a, b) && Suffix(b, c)
    ensures Suffix(a, c)
  {}

  lemma ConcatAssoc<T>(a: seq<T>, b: seq<T>, d: seq<T>)
    ensures (a + b) + d == a + (b + d)
  {}

  // ---------------------------------------------------------------- the readers the printers use

  /** The printers only rely on what is said here about the two readers and about int64 sums, so
      they are written for any readers, the encodings they invert, and any sums. */
  datatype Readers = Readers(
    unsigned: seq<byte> -> Read<u64>, signed: seq<byte> -> Read<i64>,
    encodeU: u64 -> seq<byte>, encodeS: i64 -> seq<byte>,
    plus: (i64, i64) -> i64, times: (i64, i64) -> i64)
  {
    /** Go's int64 arithmetic. */
    ghost predicate WrapAround() {
      forall x: i64, y: i64 :: plus(x, y) == Wrap(x + y) && times(x, y) == Wrap(x * y)
    }

    /** A reader hands back a suffix of its input, even with an error, and makes progress. */
    ghost predicate GoForward() {
      && (forall b :: Suffix(unsigned(b).rest, b) && (b != [] ==> |unsigned(b).rest| < |b|))
      && (forall b :: Suffix(signed(b).rest, b) && (b != [] ==> |signed(b).rest| < |b|))
    }

    ghost predicate Invert() {
      && (forall n: u64, r :: unsigned(encodeU(n) + r) == Read(n, r, None))
      && (forall v: i64, r :: signed(encodeS(v) + r) == Read(v, r, None))
    }
  }

  function Plus(x: int, y: int): i64 {
    Wrap(x + y)
  }

  function Times(x: int, y: int): i64 {
    Wrap(x * y)
  }

  /** The strict LEB128 readers of the tool. */
  const LEB: Readers := 
    Readers(ULebRead, SLebRead, n => ULEB(n), v => SLEB(v), (x, y) => Plus(x, y), (x, y) => Times(x, y))

  lemma LebReaders()
    ensures LEB.GoForward() && LEB.Invert() && LEB.WrapAround()
  {
    forall b ensures Suffix(ULebRead(b).rest, b) && (b != [] ==> |ULebRead(b).rest| < |b|) {}
    forall b ensures Suffix(SLebRead(b).rest, b) && (b != [] ==> |SLebRead(b).rest| < |b|) {}
    forall n: u64, r ensures LEB.unsigned(LEB.encodeU(n) + r) == Read(n, r, None) { WrittenIsRead(n, r); }
    forall v: i64, r ensures LEB.signed(LEB.encodeS(v) + r) == Read(v, r, None) { EncodedIsRead(v, r); }
  }

  // ---------------------------------------------------------------- boolean columns

  datatype BoolNote = BoolRun(value: bool, n: u64)

  function BoolLines(c: Readers, b: seq<byte>, curr: bool): seq<Line<BoolNote>>
    requires c.GoForward()
    decreases |b|
  {
    if b == [] then []
    else
      var r := c.unsigned(b);
      [Line(Before(b, r.rest), BoolRun(curr, r.value))] + BoolLines(c, r.rest, !curr)
  }

  method PrintBoolColumn(c: Readers, b0: seq<byte>) returns (lines: seq<Line<BoolNote>>)
    requires c.GoForward()
    ensures lines == BoolLines(c, b0, false)
  {
    lines := [];
    var b, curr := b0, false;
    while |b| > 0
      invariant lines + BoolLines(c, b, curr) == BoolLines(c, b0, false)
      decreases |b|
    {
      var r := c.unsigned(b);
      lines := lines + [Line(Before(b, r.rest), BoolRun(curr, r.value))];
      curr := !curr;
      b := r.rest;
    }
  }

  /** Every byte of a boolean column is printed once and in order, whatever the bytes are. */
  lemma {:induction false} BoolColumnKeepsBytes(c: Readers, b: seq<byte>, curr: bool)
    requires c.GoForward()
    ensures Bytes(BoolLines(c, b, curr)) == b
    decreases |b|
  {
    if b != [] {
      var r := c.unsigned(b);
      BoolColumnKeepsBytes(c, r.rest, !curr);
      BeforeAndRest(b, r.rest);
      assert BoolLines(c, b, curr)[1..] == BoolLines(c, r.rest, !curr);
    }
  }

  function EncodeBools(c: Readers, runs: seq<u64>): seq<byte> {
    if runs == [] then [] else c.encodeU(runs[0]) + EncodeBools(c, runs[1..])
  }

  lemma EncodedIsNotEmpty(c: Readers)
    requires c.Invert()
    ensures forall n: u64 :: c.encodeU(n) != []
    ensures forall v: i64 :: c.encodeS(v) != []
  {
    forall n: u64 ensures c.encodeU(n) != [] {
      var m: u64 := if n == 0 then 1 else 0;
      assert c.unsigned(c.encodeU(n) + c.encodeU(m)) == Read(n, c.encodeU(m), None);
      assert c.unsigned(c.encodeU(m) + []) == Read(m, [], None);
      assert c.encodeU(m) + [] == c.encodeU(m);
      assert c.encodeU(n) == [] ==> c.encodeU(n) + c.encodeU(m) == c.encodeU(m);
    }
    forall v: i64 ensures c.encodeS(v) != [] {
      var m: i64 := if v == 0 then 1 else 0;
      assert c.signed(c.encodeS(v) + c.encodeS(m)) == Read(v, c.encodeS(m), None);
      assert c.signed(c.encodeS(m) + []) == Read(m, [], None);
      assert c.encodeS(m) + [] == c.encodeS(m);
      assert c.encodeS(v) == [] ==> c.encodeS(v) + c.encodeS(m) == c.encodeS(m);
    }
  }

  /** A well-formed boolean column is printed as its runs, which alternate and begin with false. */
  lemma {:induction false} BoolColumnReadsRuns(c: Readers, runs: seq<u64>, curr: bool)
    requires c.GoForward() && c.Invert()
    ensures var lines := BoolLines(c, EncodeBools(c, runs), curr);
            |lines| == |runs| &&
            forall k :: 0 <= k < |runs| ==> lines[k].note == BoolRun(if k % 2 == 0 then curr else !curr, runs[k])
  {
    if runs != [] {
      EncodedIsNotEmpty(c);
      var b, rest := EncodeBools(c, runs), EncodeBools(c, runs[1..]);
      assert c.unsigned(b) == Read(runs[0], rest, None);
      BoolColumnReadsRuns(c, runs[1..], !curr);
      var lines := BoolLines(c, b, curr);
      forall k | 0 <= k < |runs| ensures lines[k].note == BoolRun(if k % 2 == 0 then curr else !curr, runs[k]) {
        if k > 0 { assert lines[k] == BoolLines(c, rest, !curr)[k - 1]; }
      }
    }
  }

  // ---------------------------------------------------------------- run-length encoded columns

  /** Reading one value of the column: what is shown for it, and the bytes behind it. */
  datatype Cell<S> = Cell(shown: S, rest: seq<byte>)

  type CellReader<!S> = seq<byte> -> Cell<S>

  ghost predicate CellsGoForward<S>(f: CellReader<S>) {
    forall b :: Suffix(f(b).rest, b)
  }

  /** `0-n` on int64, as it is shown: the least value is its own negation. */
  function Negated(n: i64): i64 {
    if n == -TWO63 then n else 0 - n
  }

  datatype RunNote<S> = Nulls(count: u64) | Run(shown: S, n: i64) | Literals(announced: i64) | Literal(shown: S)

  function RunLines<S>(c: Readers, f: CellReader<S>, b: seq<byte>): seq<Line<RunNote<S>>>
    requires c.GoForward() && CellsGoForward(f)
    decreases |b|, 0
  {
    if b == [] then []
    else
      var h := c.signed(b);
      if h.value == 0 then
        var l := c.unsigned(h.rest);
        [Line(Before(b, l.rest), Nulls(l.value))] + RunLines(c, f, l.rest)
      else if h.value > 0 then
        var cell := f(h.rest);
        [Line(Before(b, cell.rest), Run(cell.shown, h.value))] + RunLines(c, f, cell.rest)
      else
        [Line(Before(b, h.rest), Literals(Negated(h.value)))] + LiteralLines(c, f, h.rest, 0 - h.value)
  }

  /** `k` more literal values, then the rest of the column. */
  function LiteralLines<S>(c: Readers, f: CellReader<S>, b: seq<byte>, k: nat): seq<Line<RunNote<S>>>
    requires c.GoForward() && CellsGoForward(f)
    decreases |b|, 1, k
  {
    if k == 0 then RunLines(c, f, b)
    else
      var cell := f(b);
      [Line(Before(b, cell.rest), Literal(cell.shown))] + LiteralLines(c, f, cell.rest, k - 1)
  }

  method PrintRunLengthEncoded<S>(c: Readers, f: CellReader<S>, b0: seq<byte>) returns (lines: seq<Line<RunNote<S>>>)
    requires c.GoForward() && CellsGoForward(f)
    ensures lines == RunLines(c, f, b0)
  {
    lines := [];
    var b := b0;
    while |b| > 0
      invariant lines + RunLines(c, f, b) == RunLines(c, f, b0)
      decreases |b|
    {
      var h := c.signed(b);
      var n, rest := h.value, h.rest;
      if n == 0 {
        var l := c.unsigned(rest);
        AddLines(lines, [Line(Before(b, l.rest), Nulls(l.value))], RunLines(c, f, l.rest));
        lines := lines + [Line(Before(b, l.rest), Nulls(l.value))];
        b := l.rest;
        continue;
      }
      if n > 0 {
        var cell := f(rest);
        AddLines(lines, [Line(Before(b, cell.rest), Run(cell.shown, n))], RunLines(c, f, cell.rest));
        lines := lines + [Line(Before(b, cell.rest), Run(cell.shown, n))];
        b := cell.rest;
        continue;
      }
      var header := Line(Before(b, rest), Literals(Negated(n)));
      var literals;
      literals, b := PrintLiterals(c, f, rest, n);
      AddLines(lines, [header], literals + RunLines(c, f, b));
      AddLines(lines + [header], literals, RunLines(c, f, b));
      lines := lines + [header] + literals;
    }
  }

  /** The inner loop: literal values until the announced number is reached. */
  method PrintLiterals<S>(c: Readers, f: CellReader<S>, b0: seq<byte>, n0: int) returns (lines: seq<Line<RunNote<S>>>, b: seq<byte>)
    requires c.GoForward() && CellsGoForward(f) && n0 < 0
    ensures |b| <= |b0| && lines + RunLines(c, f, b) == LiteralLines(c, f, b0, 0 - n0)
  {
    lines, b := [], b0;
    var n: int := n0;
    while n < 0
      invariant n <= 0 && |b| <= |b0|
      invariant lines + LiteralLines(c, f, b, 0 - n) == LiteralLines(c, f, b0, 0 - n0)
      decreases 0 - n
    {
      var cell := f(b);
      var line := Line(Before(b, cell.rest), Literal(cell.shown));
      AddLines(lines, [line], LiteralLines(c, f, cell.rest, 0 - n - 1));
      lines := lines + [line];
      b := cell.rest;
      n := n + 1;
    }
  }

  lemma AddLines<N>(a: seq<Line<N>>, b: seq<Line<N>>, c: seq<Line<N>>)
    ensures a + (b + c) == (a + b) + c
  {}

  /** Every byte of a run-length encoded column is printed once and in order, whatever the bytes
      are and however the values are read. */
  lemma {:induction false} RunColumnKeepsBytes<S>(c: Readers, f: CellReader<S>, b: seq<byte>)
    requires c.GoForward() && CellsGoForward(f)
    ensures Bytes(RunLines(c, f, b)) == b
    decreases |b|, 0
  {
    if b != [] {
      var h := c.signed(b);
      var lines := RunLines(c, f, b);
      if h.value == 0 {
        var l := c.unsigned(h.rest);
        SuffixOfSuffix(l.rest, h.rest, b);
        OneLine(b, l.rest, lines, RunLines(c, f, l.rest));
        RunColumnKeepsBytes(c, f, l.rest);
      } else if h.value > 0 {
        var cell := f(h.rest);
        SuffixOfSuffix(cell.rest, h.rest, b);
        OneLine(b, cell.rest, lines, RunLines(c, f, cell.rest));
        RunColumnKeepsBytes(c, f, cell.rest);
      } else {
        OneLine(b, h.rest, lines, LiteralLines(c, f, h.rest, 0 - h.value));
        LiteralsKeepBytes(c, f, h.rest, 0 - h.value);
      }
    }
  }

  lemma {:induction false} LiteralsKeepBytes<S>(c: Readers, f: CellReader<S>, b: seq<byte>, k: nat)
    requires c.GoForward() && CellsGoForward(f)
    ensures Bytes(LiteralLines(c, f, b, k)) == b
    decreases |b|, 1, k
  {
    if k == 0 {
      RunColumnKeepsBytes(c, f, b);
    } else {
      var cell := f(b);
      OneLine(b, cell.rest, LiteralLines(c, f, b, k), LiteralLines(c, f, cell.rest, k - 1));
      LiteralsKeepBytes(c, f, cell.rest, k - 1);
    }
  }

  lemma OneLine<N>(b: seq<byte>, rest: seq<byte>, lines: seq<Line<N>>, tail: seq<Line<N>>)
    requires Suffix(rest, b) && lines != [] && lines[0].bytes == Before(b, rest) && lines[1..] == tail
    ensures Bytes(tail) == rest ==> Bytes(lines) == b
  {
    BeforeAndRest(b, rest);
  }

  // ---- the value readers

  /** Plain numbers: actor, counter and value-metadata columns. */
  function NumberCell(c: Readers, b: seq<byte>): Cell<u64> {
    var r := c.unsigned(b);
    Cell(r.value, r.rest)
  }

  /** Strings: a length and that many bytes, or as many as there are. */
  function StringCell(c: Readers, b: seq<byte>): Cell<seq<byte>> {
    var r := c.unsigned(b);
    var sl := if |r.rest| < r.value then |r.rest| else r.value;
    Cell(r.rest[..sl], r.rest[sl..])
  }

  /** A string takes as many bytes as its length says, or all there are if there are fewer. */
  lemma StringCellTakesItsBytes(c: Readers, b: seq<byte>)
    ensures var r, cell := c.unsigned(b), StringCell(c, b);
            cell.shown + cell.rest == r.rest && |cell.shown| <= r.value && (|cell.shown| == r.value || cell.rest == [])
  {
    var r := c.unsigned(b);
    var cut := |StringCell(c, b).shown|;
    assert r.rest[..cut] + r.rest[cut..] == r.rest;
  }

  lemma NumberCellsGoForward(c: Readers)
    requires c.GoForward()
    ensures CellsGoForward(b => NumberCell(c, b))
  {}

  lemma StringCellsGoForward(c: Readers)
    requires c.GoForward()
    ensures CellsGoForward(b => StringCell(c, b))
  {
    forall b ensures Suffix(StringCell(c, b).rest, b) {
      SuffixOfSuffix(StringCell(c, b).rest, c.unsigned(b).rest, b);
    }
  }

  // ---- what a well-formed column shows

  /** A way to write values that the cell reader undoes. */
  ghost predicate CellsInvert<S(!new)>(f: CellReader<S>, encode: S -> seq<byte>, fits: S -> bool) {
    forall x, r :: fits(x) ==> f(encode(x) + r) == Cell(x, r)
  }

  datatype Piece<S> = NullPiece(count: u64) | RunPiece(n: i64, x: S) | LiteralPiece(xs: seq<S>)

  ghost predicate WellFormedPiece<S(!new)>(p: Piece<S>, fits: S -> bool) {
    match p
    case NullPiece(_) => true
    case RunPiece(n, x) => n > 0 && fits(x)
    case LiteralPiece(xs) => 0 < |xs| <= TWO63 && forall i :: 0 <= i < |xs| ==> fits(xs[i])
  }

  function EncodeCells<S>(encode: S -> seq<byte>, xs: seq<S>): seq<byte> {
    if xs == [] then [] else encode(xs[0]) + EncodeCells(encode, xs[1..])
  }

  ghost function EncodePiece<S(!new)>(c: Readers, encode: S -> seq<byte>, fits: S -> bool, p: Piece<S>): seq<byte>
    requires WellFormedPiece(p, fits)
  {
    match p
    case NullPiece(count) => c.encodeS(0) + c.encodeU(count)
    case RunPiece(n, x) => c.encodeS(n) + encode(x)
    case LiteralPiece(xs) => c.encodeS(0 - |xs|) + EncodeCells(encode, xs)
  }

  ghost function EncodePieces<S(!new)>(c: Readers, encode: S -> seq<byte>, fits: S -> bool, ps: seq<Piece<S>>): seq<byte>
    requires forall i :: 0 <= i < |ps| ==> WellFormedPiece(ps[i], fits)
  {
    if ps == [] then [] else EncodePiece(c, encode, fits, ps[0]) + EncodePieces(c, encode, fits, ps[1..])
  }

  function LiteralNotes<S>(xs: seq<S>): seq<RunNote<S>> {
    if xs == [] then [] else [Literal(xs[0])] + LiteralNotes(xs[1..])
  }

  ghost function PieceNotes<S(!new)>(p: Piece<S>, fits: S -> bool): seq<RunNote<S>>
    requires WellFormedPiece(p, fits)
  {
    match p
    case NullPiece(count) => [Nulls(count)]
    case RunPiece(n, x) => [Run(x, n)]
    case LiteralPiece(xs) => [Literals(Negated(0 - |xs|))] + LiteralNotes(xs)
  }

  ghost function AllNotes<S(!new)>(ps: seq<Piece<S>>, fits: S -> bool): seq<RunNote<S>>
    requires forall i :: 0 <= i < |ps| ==> WellFormedPiece(ps[i], fits)
  {
    if ps == [] then [] else PieceNotes(ps[0], fits) + AllNotes(ps[1..], fits)
  }

  lemma OneNote<N>(line: Line<N>, lines: seq<Line<N>>)
    ensures Notes([line] + lines) == [line.note] + Notes(lines)
  {}

  /** A run, or a run of nulls, at the front of a column. */
  lemma RunShown<S(!new)>(c: Readers, f: CellReader<S>, encode: S -> seq<byte>, fits: S -> bool, p: Piece<S>, tail: seq<byte>)
    requires c.GoForward() && c.Invert() && CellsGoForward(f) && CellsInvert(f, encode, fits)
    requires WellFormedPiece(p, fits) && !p.LiteralPiece?
    ensures Notes(RunLines(c, f, EncodePiece(c, encode, fits, p) + tail)) == PieceNotes(p, fits) + Notes(RunLines(c, f, tail))
  {
    EncodedIsNotEmpty(c);
    var b := EncodePiece(c, encode, fits, p) + tail;
    var head: i64 := if p.NullPiece? then 0 else p.n;
    var rest := if p.NullPiece? then c.encodeU(p.count) else encode(p.x);
    ConcatAssoc(c.encodeS(head), rest, tail);
    assert b != [] && c.signed(b) == Read(head, rest + tail, None);
    if p.NullPiece? {
      assert c.unsigned(rest + tail) == Read(p.count, tail, None);
      OneNote(Line(Before(b, tail), Nulls(p.count)), RunLines(c, f, tail));
    } else {
      assert f(rest + tail) == Cell(p.x, tail);
      OneNote(Line(Before(b, tail), Run(p.x, p.n)), RunLines(c, f, tail));
    }
  }

  lemma {:induction false} LiteralsShown<S(!new)>(c: Readers, f: CellReader<S>, encode: S -> seq<byte>, fits: S -> bool, xs: seq<S>, tail: seq<byte>)
    requires c.GoForward() && CellsGoForward(f) && CellsInvert(f, encode, fits)
    requires forall i :: 0 <= i < |xs| ==> fits(xs[i])
    ensures Notes(LiteralLines(c, f, EncodeCells(encode, xs) + tail, |xs|)) == LiteralNotes(xs) + Notes(RunLines(c, f, tail))
  {
    if xs == [] {
      assert EncodeCells(encode, xs) + tail == tail;
    } else {
      var rest := EncodeCells(encode, xs[1..]) + tail;
      ConcatAssoc(encode(xs[0]), EncodeCells(encode, xs[1..]), tail);
      var b := encode(xs[0]) + rest;
      assert f(b) == Cell(xs[0], rest);
      LiteralsShown(c, f, encode, fits, xs[1..], tail);
      OneNote(Line(Before(b, rest), Literal(xs[0])), LiteralLines(c, f, rest, |xs| - 1));
      ConcatAssoc([Literal(xs[0])], LiteralNotes(xs[1..]), Notes(RunLines(c, f, tail)));
    }
  }

  lemma LiteralPieceShown<S(!new)>(c: Readers, f: CellReader<S>, encode: S -> seq<byte>, fits: S -> bool, xs: seq<S>, tail: seq<byte>)
    requires c.GoForward() && c.Invert() && CellsGoForward(f) && CellsInvert(f, encode, fits)
    requires WellFormedPiece(LiteralPiece(xs), fits)
    ensures Notes(RunLines(c, f, EncodePiece(c, encode, fits, LiteralPiece(xs)) + tail))
         == PieceNotes(LiteralPiece(xs), fits) + Notes(RunLines(c, f, tail))
  {
    EncodedIsNotEmpty(c);
    var k, rest := |xs|, EncodeCells(encode, xs) + tail;
    var b := EncodePiece(c, encode, fits, LiteralPiece(xs)) + tail;
    ConcatAssoc(c.encodeS(0 - k), EncodeCells(encode, xs), tail);
    assert b != [] && c.signed(b) == Read(0 - k, rest, None);
    LiteralsShown(c, f, encode, fits, xs, tail);
    var head: RunNote<S> := Literals(Negated(0 - k));
    OneNote(Line(Before(b, rest), head), LiteralLines(c, f, rest, k));
    ConcatAssoc([head], LiteralNotes(xs), Notes(RunLines(c, f, tail)));
  }

  /** A well-formed run-length column of nulls, runs and literals is printed as exactly these, for any
      values and any cell reader that undoes their encoding. */
  lemma {:induction false} RunColumnReadsRows<S(!new)>(c: Readers, f: CellReader<S>, encode: S -> seq<byte>, fits: S -> bool, ps: seq<Piece<S>>)
    requires c.GoForward() && c.Invert() && CellsGoForward(f) && CellsInvert(f, encode, fits)
    requires forall i :: 0 <= i < |ps| ==> WellFormedPiece(ps[i], fits)
    ensures Notes(RunLines(c, f, EncodePieces(c, encode, fits, ps))) == AllNotes(ps, fits)
  {
    if ps != [] {
      var tail := EncodePieces(c, encode, fits, ps[1..]);
      RunColumnReadsRows(c, f, encode, fits, ps[1..]);
      if ps[0].LiteralPiece? {
        LiteralPieceShown(c, f, encode, fits, ps[0].xs, tail);
      } else {
        RunShown(c, f, encode, fits, ps[0], tail);
      }
    }
  }

  function EncodeString(c: Readers, s: seq<byte>): seq<byte> {
    if |s| < TWO64 then c.encodeU(|s|) + s else []
  }

  lemma StringComesBack(c: Readers, s: seq<byte>, r: seq<byte>)
    requires c.Invert() && |s| < TWO64
    ensures StringCell(c, EncodeString(c, s) + r) == Cell(s, r)
  {
    ConcatAssoc(c.encodeU(|s|), s, r);
    assert c.unsigned(c.encodeU(|s|) + (s + r)) == Read(|s|, s + r, None);
    assert (s + r)[..|s|] == s && (s + r)[|s|..] == r;
  }

  // ---------------------------------------------------------------- delta columns

  /** What a delta line shows.  All sums wrap around as in int64 arithmetic. */
  datatype DeltaNote =
    | NullRows(count: u64)
    | Steps(first: i64, last: i64, n: i64, delta: i64)
    | Announced(literals: i64)
    | Step(delta: i64, value: i64)

  /** The closed form that the tool uses for `n` steps of `delta`. */
  function Advance(c: Readers, i: i64, delta: i64, n: i64): i64 {
    c.plus(i, c.times(delta, n))
  }

  function DeltaLines(c: Readers, b: seq<byte>, i: i64): seq<Line<DeltaNote>>
    requires c.GoForward()
    decreases |b|, 0
  {
    if b == [] then []
    else
      var h := c.signed(b);
      if h.value == 0 then
        var l := c.unsigned(h.rest);
        [Line(Before(b, l.rest), NullRows(l.value))] + DeltaLines(c, l.rest, i)
      else if h.value > 0 then
        var d := c.signed(h.rest);
        var last := Advance(c, i, d.value, h.value);
        [Line(Before(b, d.rest), Steps(c.plus(i, d.value), last, h.value, d.value))] + DeltaLines(c, d.rest, last)
      else
        [Line(Before(b, h.rest), Announced(Negated(h.value)))] + DeltaLiterals(c, h.rest, i, 0 - h.value)
  }

  function DeltaLiterals(c: Readers, b: seq<byte>, i: i64, k: nat): seq<Line<DeltaNote>>
    requires c.GoForward()
    decreases |b|, 1, k
  {
    if k == 0 then DeltaLines(c, b, i)
    else
      var d := c.signed(b);
      var value := c.plus(i, d.value);
      [Line(Before(b, d.rest), Step(d.value, value))] + DeltaLiterals(c, d.rest, value, k - 1)
  }

  method PrintDeltaColumn(c: Readers, b0: seq<byte>) returns (lines: seq<Line<DeltaNote>>)
    requires c.GoForward()
    ensures lines == DeltaLines(c, b0, 0)
  {
    lines := [];
    var b, i: i64 := b0, 0;
    while |b| > 0
      invariant lines + DeltaLines(c, b, i) == DeltaLines(c, b0, 0)
      decreases |b|
    {
      var h := c.signed(b);
      var n, rest := h.value, h.rest;
      if n == 0 {
        var l := c.unsigned(rest);
        var line := Line(Before(b, l.rest), NullRows(l.value));
        AddLines(lines, [line], DeltaLines(c, l.rest, i));
        lines, b := lines + [line], l.rest;
        continue;
      }
      if n > 0 {
        var d := c.signed(rest);
        var nextI := c.plus(i, d.value);
        var finalI := Advance(c, i, d.value, n);
        var line := Line(Before(b, d.rest), Steps(nextI, finalI, n, d.value));
        AddLines(lines, [line], DeltaLines(c, d.rest, finalI));
        lines, b, i := lines + [line], d.rest, finalI;
        continue;
      }
      var header := Line(Before(b, rest), Announced(Negated(n)));
      var literals;
      literals, b, i := PrintDeltaLiterals(c, rest, i, n);
      AddLines(lines, [header], literals + DeltaLines(c, b, i));
      AddLines(lines + [header], literals, DeltaLines(c, b, i));
      lines := lines + [header] + literals;
    }
  }

  method PrintDeltaLiterals(c: Readers, b0: seq<byte>, i0: i64, n0: int) returns (lines: seq<Line<DeltaNote>>, b: seq<byte>, i: i64)
    requires c.GoForward() && n0 < 0
    ensures |b| <= |b0| && lines + DeltaLines(c, b, i) == DeltaLiterals(c, b0, i0, 0 - n0)
  {
    lines, b, i := [], b0, i0;
    var n: int := n0;
    while n < 0
      invariant n <= 0 && |b| <= |b0|
      invariant lines + DeltaLiterals(c, b, i, 0 - n) == DeltaLiterals(c, b0, i0, 0 - n0)
      decreases 0 - n
    {
      var d := c.signed(b);
      i := c.plus(i, d.value);
      var line := Line(Before(b, d.rest), Step(d.value, i));
      AddLines(lines, [line], DeltaLiterals(c, d.rest, i, 0 - n - 1));
      lines, b, n := lines + [line], d.rest, n + 1;
    }
  }

  /** Every byte of a delta column is printed once and in order, whatever the bytes are. */
  lemma {:induction false} DeltaColumnKeepsBytes(c: Readers, b: seq<byte>, i: i64)
    requires c.GoForward()
    ensures Bytes(DeltaLines(c, b, i)) == b
    decreases |b|, 0
  {
    if b != [] {
      var h, lines := c.signed(b), DeltaLines(c, b, i);
      if h.value == 0 {
        var l := c.unsigned(h.rest);
        SuffixOfSuffix(l.rest, h.rest, b);
        OneLine(b, l.rest, lines, DeltaLines(c, l.rest, i));
        DeltaColumnKeepsBytes(c, l.rest, i);
      } else if h.value > 0 {
        var d := c.signed(h.rest);
        var last := Advance(c, i, d.value, h.value);
        SuffixOfSuffix(d.rest, h.rest, b);
        OneLine(b, d.rest, lines, DeltaLines(c, d.rest, last));
        DeltaColumnKeepsBytes(c, d.rest, last);
      } else {
        OneLine(b, h.rest, lines, DeltaLiterals(c, h.rest, i, 0 - h.value));
        DeltaLiteralsKeepBytes(c, h.rest, i, 0 - h.value);
      }
    }
  }

  lemma {:induction false} DeltaLiteralsKeepBytes(c: Readers, b: seq<byte>, i: i64, k: nat)
    requires c.GoForward()
    ensures Bytes(DeltaLiterals(c, b, i, k)) == b
    decreases |b|, 1, k
  {
    if k == 0 {
      DeltaColumnKeepsBytes(c, b, i);
    } else {
      var d := c.signed(b);
      var value := c.plus(i, d.value);
      OneLine(b, d.rest, DeltaLiterals(c, b, i, k), DeltaLiterals(c, d.rest, value, k - 1));
      DeltaLiteralsKeepBytes(c, d.rest, value, k - 1);
    }
  }

  // ---- the closed form of a run

  /** `n` additions of `delta`, one at a time. */
  function Walk(i: i64, delta: i64, n: nat): i64 {
    if n == 0 then i else Wrap(Walk(i, delta, n - 1) + delta)
  }

  lemma WrapInside(x: int, y: int)
    ensures Wrap(Wrap(x) + y) == Wrap(x + y)
  {
    var q := x / TWO64;
    assert x == q * TWO64 + x % TWO64;
    if ToU64(x) < TWO63 {
      ModShift(ToU64(x) + y, q);
      assert (ToU64(x) + y) + q * TWO64 == x + y;
    } else {
      ModShift(ToU64(x) - TWO64 + y, q + 1);
      assert (ToU64(x) - TWO64 + y) + (q + 1) * TWO64 == x + y;
    }
  }

  /** One more step, inside or outside the closed form. */
  lemma SumStep(i: int, p: int, delta: int)
    ensures Wrap(i + Wrap(p + delta)) == Wrap(Wrap(i + Wrap(p)) + delta)
  {
    WrapInside(p + delta, i);
    WrapInside(p, i);
    WrapInside(i + p, delta);
  }

  /** The sum of `n` equal steps. */
  function TotalStep(delta: int, n: nat): int {
    if n == 0 then 0 else TotalStep(delta, n - 1) + delta
  }

  lemma {:induction false} TotalIsProduct(delta: int, n: nat)
    ensures TotalStep(delta, n) == delta * n
  {
    if n > 0 {
      TotalIsProduct(delta, n - 1);
      assert delta * n == delta * (n - 1) + delta;
    }
  }

  lemma {:induction false} WalkIsTotal(i: i64, delta: i64, n: nat)
    ensures Wrap(i + Wrap(TotalStep(delta, n))) == Walk(i, delta, n)
  {
    if n == 0 {
      WrapInRange(0);
      WrapInRange(i);
    } else {
      WalkIsTotal(i, delta, n - 1);
      SumStep(i, TotalStep(delta, n - 1), delta);
    }
  }

  /** The closed form of the tool agrees with stepping, wrap-around included. */
  lemma ClosedFormIsWalk(c: Readers, i: i64, delta: i64, n: i64)
    requires c.WrapAround() && n >= 0
    ensures Advance(c, i, delta, n) == Walk(i, delta, n)
  {
    TotalIsProduct(delta, n);
    WalkIsTotal(i, delta, n);
  }

  /** What the column says, row by row: no value, or a change of the running value. */
  datatype Row = NullRow | Change(delta: i64)

  function Repeat<T>(x: T, n: nat): seq<T> {
    seq(n, _ => x)
  }

  function RowsOf(note: DeltaNote): seq<Row> {
    match note
    case NullRows(count) => Repeat(NullRow, count)
    case Steps(_, _, n, delta) => Repeat(Change(delta), if n > 0 then n else 0)
    case Announced(_) => []
    case Step(delta, _) => [Change(delta)]
  }

  /** The running value after some rows, one row at a time. */
  function Follow(i: i64, rows: seq<Row>): i64 {
    if rows == [] then i
    else
      var before := Follow(i, rows[..|rows| - 1]);
      match rows[|rows| - 1]
      case NullRow => before
      case Change(delta) => Wrap(before + delta)
  }

  lemma {:induction false} FollowRepeat(i: i64, n: nat, delta: i64)
    ensures Follow(i, Repeat(Change(delta), n)) == Walk(i, delta, n)
    ensures Follow(i, Repeat(NullRow, n)) == i
  {
    if n > 0 {
      FollowRepeat(i, n - 1, delta);
      assert Repeat(Change(delta), n)[..n - 1] == Repeat(Change(delta), n - 1);
      assert Repeat(NullRow, n)[..n - 1] == Repeat(NullRow, n - 1);
    }
  }

  /** The values that a note shows are those that following its rows from `i` gives. */
  predicate Truthful(note: DeltaNote, i: i64) {
    match note
    case Steps(first, last, n, delta) =>
      n > 0 && first == Follow(i, [Change(delta)]) && last == Follow(i, RowsOf(note))
    case Step(delta, value) => value == Follow(i, RowsOf(note))
    case _ => true
  }

  /** Every line is truthful about the running value that the lines before it lead to. */
  predicate AllTruthful(lines: seq<Line<DeltaNote>>, i: i64) {
    lines == [] ||
    (Truthful(lines[0].note, i) && AllTruthful(lines[1..], Follow(i, RowsOf(lines[0].note))))
  }

  lemma FollowOne(i: i64, delta: i64)
    ensures Follow(i, [Change(delta)]) == Wrap(i + delta)
  {
    assert [Change(delta)][..0] == [];
  }

  /** On every input, the values shown in a delta column are those of stepping through its rows
      one at a time; null rows leave the running value alone. */
  lemma {:induction false} DeltaColumnIsTruthful(c: Readers, b: seq<byte>, i: i64)
    requires c.GoForward() && c.WrapAround()
    ensures AllTruthful(DeltaLines(c, b, i), i)
    decreases |b|, 0
  {
    if b != [] {
      var h, lines := c.signed(b), DeltaLines(c, b, i);
      if h.value == 0 {
        var l := c.unsigned(h.rest);
        FollowRepeat(i, l.value, 0);
        DeltaColumnIsTruthful(c, l.rest, i);
        assert lines[1..] == DeltaLines(c, l.rest, i);
      } else if h.value > 0 {
        var d := c.signed(h.rest);
        var last := Advance(c, i, d.value, h.value);
        ClosedFormIsWalk(c, i, d.value, h.value);
        FollowRepeat(i, h.value, d.value);
        FollowOne(i, d.value);
        DeltaColumnIsTruthful(c, d.rest, last);
        assert lines[1..] == DeltaLines(c, d.rest, last);
      } else {
        DeltaLiteralsAreTruthful(c, h.rest, i, 0 - h.value);
        assert lines[1..] == DeltaLiterals(c, h.rest, i, 0 - h.value);
      }
    }
  }

  lemma {:induction false} DeltaLiteralsAreTruthful(c: Readers, b: seq<byte>, i: i64, k: nat)
    requires c.GoForward() && c.WrapAround()
    ensures AllTruthful(DeltaLiterals(c, b, i, k), i)
    decreases |b|, 1, k
  {
    if k == 0 {
      DeltaColumnIsTruthful(c, b, i);
    } else {
      var d := c.signed(b);
      var value := c.plus(i, d.value);
      FollowOne(i, d.value);
      DeltaLiteralsAreTruthful(c, d.rest, value, k - 1);
      assert DeltaLiterals(c, b, i, k)[1..] == DeltaLiterals(c, d.rest, value, k - 1);
    }
  }

  // ---- well-formed delta columns

  /** One entry of a well-formed column. */
  datatype Entry = NullEntry(count: u64) | RunEntry(n: i64, delta: i64) | LiteralEntry(deltas: seq<i64>)

  predicate WellFormed(e: Entry) {
    match e
    case NullEntry(_) => true
    case RunEntry(n, _) => n > 0
    case LiteralEntry(deltas) => 0 < |deltas| <= TWO63
  }

  function EncodeDeltas(c: Readers, deltas: seq<i64>): seq<byte> {
    if deltas == [] then [] else c.encodeS(deltas[0]) + EncodeDeltas(c, deltas[1..])
  }

  function EncodeEntry(c: Readers, e: Entry): seq<byte>
    requires WellFormed(e)
  {
    match e
    case NullEntry(count) => c.encodeS(0) + c.encodeU(count)
    case RunEntry(n, delta) => c.encodeS(n) + c.encodeS(delta)
    case LiteralEntry(deltas) => c.encodeS(0 - |deltas|) + EncodeDeltas(c, deltas)
  }

  function EncodeColumn(c: Readers, es: seq<Entry>): seq<byte>
    requires forall e :: e in es ==> WellFormed(e)
  {
    if es == [] then [] else EncodeEntry(c, es[0]) + EncodeColumn(c, es[1..])
  }

  function RowsOfEntry(e: Entry): seq<Row> {
    match e
    case NullEntry(count) => Repeat(NullRow, count)
    case RunEntry(n, delta) => Repeat(Change(delta), if n > 0 then n else 0)
    case LiteralEntry(deltas) => Changes(deltas)
  }

  function Changes(deltas: seq<i64>): seq<Row> {
    if deltas == [] then [] else [Change(deltas[0])] + Changes(deltas[1..])
  }

  function RowsOfColumn(es: seq<Entry>): seq<Row> {
    if es == [] then [] else RowsOfEntry(es[0]) + RowsOfColumn(es[1..])
  }

  function RowsOfLines(lines: seq<Line<DeltaNote>>): seq<Row> {
    if lines == [] then [] else RowsOf(lines[0].note) + RowsOfLines(lines[1..])
  }

  /** A well-formed delta column is printed with exactly its rows. */
  lemma {:induction false} DeltaColumnReadsRows(c: Readers, es: seq<Entry>, i: i64)
    requires c.GoForward() && c.Invert() && forall e :: e in es ==> WellFormed(e)
    ensures RowsOfLines(DeltaLines(c, EncodeColumn(c, es), i)) == RowsOfColumn(es)
    decreases |es|
  {
    if es != [] {
      var tail := EncodeColumn(c, es[1..]);
      assert WellFormed(es[0]);
      match es[0]
      case NullEntry(count) =>
        NullsRead(c, count, tail, i);
        DeltaColumnReadsRows(c, es[1..], i);
      case RunEntry(n, delta) =>
        var last := RunRead(c, n, delta, tail, i);
        DeltaColumnReadsRows(c, es[1..], last);
      case LiteralEntry(deltas) =>
        LiteralsRead(c, deltas, tail, i);
        var last := LiteralsThenTail(c, deltas, tail, i);
        DeltaColumnReadsRows(c, es[1..], last);
    }
  }

  lemma NullsRead(c: Readers, count: u64, tail: seq<byte>, i: i64)
    requires c.GoForward() && c.Invert()
    ensures RowsOfLines(DeltaLines(c, EncodeEntry(c, NullEntry(count)) + tail, i))
         == Repeat(NullRow, count) + RowsOfLines(DeltaLines(c, tail, i))
  {
    EncodedIsNotEmpty(c);
    ConcatAssoc(c.encodeS(0), c.encodeU(count), tail);
    var b := c.encodeS(0) + (c.encodeU(count) + tail);
    assert c.signed(b) == Read(0, c.encodeU(count) + tail, None);
    assert c.unsigned(c.encodeU(count) + tail) == Read(count, tail, None);
    assert DeltaLines(c, b, i)[1..] == DeltaLines(c, tail, i);
  }

  lemma RunRead(c: Readers, n: i64, delta: i64, tail: seq<byte>, i: i64) returns (last: i64)
    requires c.GoForward() && c.Invert() && n > 0
    ensures RowsOfLines(DeltaLines(c, EncodeEntry(c, RunEntry(n, delta)) + tail, i))
         == Repeat(Change(delta), n) + RowsOfLines(DeltaLines(c, tail, last))
  {
    EncodedIsNotEmpty(c);
    ConcatAssoc(c.encodeS(n), c.encodeS(delta), tail);
    var b := c.encodeS(n) + (c.encodeS(delta) + tail);
    assert c.signed(b) == Read(n, c.encodeS(delta) + tail, None);
    assert c.signed(c.encodeS(delta) + tail) == Read(delta, tail, None);
    last := Advance(c, i, delta, n);
    assert DeltaLines(c, b, i)[1..] == DeltaLines(c, tail, last);
  }

  lemma LiteralsRead(c: Readers, deltas: seq<i64>, tail: seq<byte>, i: i64)
    requires c.GoForward() && c.Invert() && 0 < |deltas| <= TWO63
    ensures RowsOfLines(DeltaLines(c, EncodeEntry(c, LiteralEntry(deltas)) + tail, i))
         == RowsOfLines(DeltaLiterals(c, EncodeDeltas(c, deltas) + tail, i, |deltas|))
  {
    EncodedIsNotEmpty(c);
    var k, rest := |deltas|, EncodeDeltas(c, deltas) + tail;
    var b := EncodeEntry(c, LiteralEntry(deltas)) + tail;
    assert b == c.encodeS(0 - k) + rest by { ConcatAssoc(c.encodeS(0 - k), EncodeDeltas(c, deltas), tail); }
    assert b != [] && c.signed(b) == Read(0 - k, rest, None);
    HeaderRead(c, b, rest, i, k);
  }

  lemma HeaderRead(c: Readers, b: seq<byte>, rest: seq<byte>, i: i64, k: nat)
    requires c.GoForward() && b != [] && 0 < k <= TWO63 && c.signed(b) == Read(0 - k, rest, None)
    ensures RowsOfLines(DeltaLines(c, b, i)) == RowsOfLines(DeltaLiterals(c, rest, i, k))
  {
    var lines, tail := DeltaLines(c, b, i), DeltaLiterals(c, rest, i, k);
    assert lines[1..] == tail && RowsOf(lines[0].note) == [];
  }

  lemma LiteralRead(c: Readers, b: seq<byte>, rest: seq<byte>, delta: i64, i: i64, k: nat)
    requires c.GoForward() && 0 < k && c.signed(b) == Read(delta, rest, None)
    ensures RowsOfLines(DeltaLiterals(c, b, i, k))
         == [Change(delta)] + RowsOfLines(DeltaLiterals(c, rest, c.plus(i, delta), k - 1))
  {
    assert DeltaLiterals(c, b, i, k)[1..] == DeltaLiterals(c, rest, c.plus(i, delta), k - 1);
  }

  lemma {:induction false} LiteralsThenTail(c: Readers, deltas: seq<i64>, tail: seq<byte>, i: i64) returns (last: i64)
    requires c.GoForward() && c.Invert()
    ensures RowsOfLines(DeltaLiterals(c, EncodeDeltas(c, deltas) + tail, i, |deltas|))
         == Changes(deltas) + RowsOfLines(DeltaLines(c, tail, last))
  {
    var b := EncodeDeltas(c, deltas) + tail;
    if deltas == [] {
      assert b == tail;
      last := i;
    } else {
      var rest := EncodeDeltas(c, deltas[1..]) + tail;
      ConcatAssoc(c.encodeS(deltas[0]), EncodeDeltas(c, deltas[1..]), tail);
      assert c.signed(b) == Read(deltas[0], rest, None);
      LiteralRead(c, b, rest, deltas[0], i, |deltas|);
      last := LiteralsThenTail(c, deltas[1..], tail, c.plus(i, deltas[0]));
      ConcatAssoc([Change(deltas[0])], Changes(deltas[1..]), RowsOfLines(DeltaLines(c, tail, last)));
    }
  }

  // ---------------------------------------------------------------- the tool's own columns

  /** On every input, with the tool's readers: nothing is lost, doubled or moved, and the values
      shown in a delta column are true. */
  lemma ToolColumns(b: seq<byte>)
    ensures LEB.GoForward() && CellsGoForward(b => NumberCell(LEB, b)) && CellsGoForward(b => StringCell(LEB, b))
    ensures Bytes(RunLines(LEB, b => NumberCell(LEB, b), b)) == b
    ensures Bytes(RunLines(LEB, b => StringCell(LEB, b), b)) == b
    ensures Bytes(BoolLines(LEB, b, false)) == b
    ensures Bytes(DeltaLines(LEB, b, 0)) == b && AllTruthful(DeltaLines(LEB, b, 0), 0)
  {
    LebReaders();
    NumberCellsGoForward(LEB);
    StringCellsGoForward(LEB);
    RunColumnKeepsBytes(LEB, b => NumberCell(LEB, b), b);
    RunColumnKeepsBytes(LEB, b => StringCell(LEB, b), b);
    BoolColumnKeepsBytes(LEB, b, false);
    DeltaColumnKeepsBytes(LEB, b, 0);
    DeltaColumnIsTruthful(LEB, b, 0);
  }

  // ---- well-formed columns, with the tool's readers, show exactly what they encode

  function LebNumber(b: seq<byte>): Cell<u64> {
    NumberCell(LEB, b)
  }

  function LebString(b: seq<byte>): Cell<seq<byte>> {
    StringCell(LEB, b)
  }

  function EncodeLebNumber(n: u64): seq<byte> {
    LEB.encodeU(n)
  }

  function EncodeLebString(s: seq<byte>): seq<byte> {
    EncodeString(LEB, s)
  }

  predicate AnyNumber(n: u64) {
    true
  }

  predicate ShortString(s: seq<byte>) {
    |s| < TWO64
  }

  lemma LebCells()
    ensures LEB.GoForward() && LEB.Invert()
    ensures CellsGoForward(LebNumber) && CellsInvert(LebNumber, EncodeLebNumber, AnyNumber)
    ensures CellsGoForward(LebString) && CellsInvert(LebString, EncodeLebString, ShortString)
  {
    LebReaders();
    NumberCellsGoForward(LEB);
    StringCellsGoForward(LEB);
    forall b ensures Suffix(LebNumber(b).rest, b) && Suffix(LebString(b).rest, b) {}
    forall n: u64, r ensures LebNumber(EncodeLebNumber(n) + r) == Cell(n, r) {}
    forall s: seq<byte>, r | ShortString(s) ensures LebString(EncodeLebString(s) + r) == Cell(s, r) {
      StringComesBack(LEB, s, r);
    }
  }

  lemma ToolNumberColumn(ps: seq<Piece<u64>>)
    requires forall i :: 0 <= i < |ps| ==> WellFormedPiece(ps[i], AnyNumber)
    ensures LEB.GoForward() && CellsGoForward(LebNumber)
    ensures Notes(RunLines(LEB, LebNumber, EncodePieces(LEB, EncodeLebNumber, AnyNumber, ps))) == AllNotes(ps, AnyNumber)
  {
    LebCells();
    RunColumnReadsRows(LEB, LebNumber, EncodeLebNumber, AnyNumber, ps);
  }

  lemma ToolStringColumn(ps: seq<Piece<seq<byte>>>)
    requires forall i :: 0 <= i < |ps| ==> WellFormedPiece(ps[i], ShortString)
    ensures LEB.GoForward() && CellsGoForward(LebString)
    ensures Notes(RunLines(LEB, LebString, EncodePieces(LEB, EncodeLebString, ShortString, ps))) == AllNotes(ps, ShortString)
  {
    LebCells();
    RunColumnReadsRows(LEB, LebString, EncodeLebString, ShortString, ps);
  }

  lemma ToolBoolColumn(runs: seq<u64>)
    ensures LEB.GoForward()
    ensures var lines := BoolLines(LEB, EncodeBools(LEB, runs), false);
            |lines| == |runs| && forall k :: 0 <= k < |runs| ==> lines[k].note == BoolRun(k % 2 != 0, runs[k])
  {
    LebReaders();
    BoolColumnReadsRuns(LEB, runs, false);
  }

  lemma ToolDeltaColumn(es: seq<Entry>)
    requires forall e :: e in es ==> WellFormed(e)
    ensures LEB.GoForward()
    ensures RowsOfLines(DeltaLines(LEB, EncodeColumn(LEB, es), 0)) == RowsOfColumn(es)
  {
    LebReaders();
    DeltaColumnReadsRows(LEB, es, 0);
  }
}
