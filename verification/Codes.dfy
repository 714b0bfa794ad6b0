/** Codes for values in byte strings: a writer and a reader that stops behind what it has read.

    A code is exact if its reader accepts precisely what its writer produces, whatever follows.
    Exactness carries over from the parts of a record to the record, and from one element to lists.
  */
module Codes {
  import opened Words

  type Bytes = seq<byte>

  /** `fits` says which values can be written without loss. */
  datatype Code<!T> = Code(write: T -> Bytes, read: Bytes -> Option<(T, Bytes)>, fits: T -> bool)

  ghost predicate ReadsBack<T(!new)>(c: Code<T>) {
    forall x, r :: c.fits(x) ==> c.write(x) != [] && c.read(c.write(x) + r) == Some((x, r))
  }

  ghost predicate AcceptsOnlyWritten<T(!new)>(c: Code<T>) {
    forall d :: c.read(d).Some? ==> c.fits(c.read(d).value.0) && d == c.write(c.read(d).value.0) + c.read(d).value.1
  }

  ghost predicate Exact<T(!new)>(c: Code<T>) {
    ReadsBack(c) && AcceptsOnlyWritten(c)
  }

  lemma Regroup(a: Bytes, b: Bytes, c: Bytes)
    ensures (a + b) + c == a + (b + c)
  {}

  lemma AcceptedPartIsAll<T(!new)>(c: Code<T>, x: T, part: Bytes, rest: Bytes)
    requires Exact(c) && c.fits(x) && c.write(x) == part + rest && c.read(part).Some?
    ensures rest == []
  {
    var (y, r) := c.read(part).value;
    Regroup(c.write(y), r, rest);
    assert c.read(c.write(y) + (r + rest)) == Some((y, r + rest));
    assert c.read(c.write(x) + []) == Some((x, []));
    assert c.write(x) + [] == c.write(y) + (r + rest);
    assert |r + rest| == 0;
  }

  lemma Push<T>(done: seq<T>, x: T, more: seq<T>)
    ensures (done + [x]) + more == done + ([x] + more)
  {}

  lemma Done<T>(done: seq<T>)
    ensures done + [] == done
  {}

  /** An exact reader rejects every strict prefix of what is written. */
  lemma PrefixRejected<T(!new)>(c: Code<T>, x: T, cut: nat)
    requires Exact(c) && c.fits(x) && cut < |c.write(x)|
    ensures c.read(c.write(x)[..cut]).None?
  {
    var part, rest := c.write(x)[..cut], c.write(x)[cut..];
    assert c.write(x) == part + rest && rest != [];
    if c.read(part).Some? { AcceptedPartIsAll(c, x, part, rest); }
  }

  // ---------------------------------------------------------------- records

  function ReadPair<A, B>(a: Code<A>, b: Code<B>, d: Bytes): Option<((A, B), Bytes)> {
    var x := a.read(d);
    if x.None? then None
    else
      var y := b.read(x.value.1);
      if y.None? then None else Some(((x.value.0, y.value.0), y.value.1))
  }

  function Pair<A, B>(a: Code<A>, b: Code<B>): Code<(A, B)> {
    Code((p: (A, B)) => a.write(p.0) + b.write(p.1), d => ReadPair(a, b, d), (p: (A, B)) => a.fits(p.0) && b.fits(p.1))
  }

  lemma PairIsExact<A(!new), B(!new)>(a: Code<A>, b: Code<B>)
    requires Exact(a) && Exact(b)
    ensures Exact(Pair(a, b))
  {
    var c := Pair(a, b);
    forall p, r | c.fits(p) ensures c.write(p) != [] && c.read(c.write(p) + r) == Some((p, r)) {
      Regroup(a.write(p.0), b.write(p.1), r);
      assert a.read(a.write(p.0) + (b.write(p.1) + r)) == Some((p.0, b.write(p.1) + r));
    }
    forall d | c.read(d).Some?
      ensures c.fits(c.read(d).value.0) && d == c.write(c.read(d).value.0) + c.read(d).value.1
    {
      var x := a.read(d).value;
      var y := b.read(x.1).value;
      Regroup(a.write(x.0), b.write(y.0), y.1);
    }
  }

  // ---------------------------------------------------------------- lists

  function WriteAll<T>(c: Code<T>, xs: seq<T>): Bytes {
    if xs == [] then [] else c.write(xs[0]) + WriteAll(c, xs[1..])
  }

  predicate AllFit<T>(c: Code<T>, xs: seq<T>) {
    forall i :: 0 <= i < |xs| ==> c.fits(xs[i])
  }

  /** One element, provided that reading it consumes something. */
  function Next<T>(c: Code<T>, d: Bytes): Option<(T, Bytes)> {
    var x := c.read(d);
    if x.Some? && |x.value.1| < |d| then x else None
  }

  /** The elements from the start on, as long as they are complete. */
  function ReadAll<T>(c: Code<T>, d: Bytes): seq<T>
    decreases |d|
  {
    var x := Next(c, d);
    if x.None? then [] else [x.value.0] + ReadAll(c, x.value.1)
  }

  /** What is behind the last complete element. */
  function Leftover<T>(c: Code<T>, d: Bytes): (r: Bytes)
    ensures |r| <= |d|
    decreases |d|
  {
    var x := Next(c, d);
    if x.None? then d else Leftover(c, x.value.1)
  }

  lemma NextWritten<T(!new)>(c: Code<T>, x: T, r: Bytes)
    requires Exact(c) && c.fits(x)
    ensures Next(c, c.write(x) + r) == Some((x, r))
  {}

  lemma NextIsRead<T(!new)>(c: Code<T>, d: Bytes)
    requires Exact(c)
    ensures Next(c, d) == c.read(d)
    ensures c.read(d).Some? ==> c.fits(c.read(d).value.0) && d == c.write(c.read(d).value.0) + c.read(d).value.1
  {
    if c.read(d).Some? {
      var x := c.read(d).value;
      assert c.read(c.write(x.0) + x.1) == Some(x);
    }
  }

  lemma {:induction false} WriteAllConcat<T>(c: Code<T>, xs: seq<T>, ys: seq<T>)
    ensures WriteAll(c, xs + ys) == WriteAll(c, xs) + WriteAll(c, ys)
  {
    if xs == [] {
      assert xs + ys == ys;
    } else {
      WriteAllConcat(c, xs[1..], ys);
      assert (xs + ys)[1..] == xs[1..] + ys;
      Regroup(c.write(xs[0]), WriteAll(c, xs[1..]), WriteAll(c, ys));
    }
  }

  lemma WriteOne<T>(c: Code<T>, x: T)
    ensures WriteAll(c, [x]) == c.write(x)
  {
    assert c.write(x) + [] == c.write(x);
  }

  /** Elements that fit are read back, whatever follows them. */
  lemma {:induction false} AllComeBack<T(!new)>(c: Code<T>, xs: seq<T>, r: Bytes)
    requires Exact(c) && AllFit(c, xs)
    ensures ReadAll(c, WriteAll(c, xs) + r) == xs + ReadAll(c, r)
    ensures Leftover(c, WriteAll(c, xs) + r) == Leftover(c, r)
  {
    if xs == [] {
      assert WriteAll(c, xs) + r == r;
    } else {
      var tail := WriteAll(c, xs[1..]) + r;
      AllComeBack(c, xs[1..], r);
      Regroup(c.write(xs[0]), WriteAll(c, xs[1..]), r);
      NextWritten(c, xs[0], tail);
      assert xs + ReadAll(c, r) == [xs[0]] + (xs[1..] + ReadAll(c, r));
    }
  }

  /** What was accepted, written again, is what was accepted; what is left over starts no element. */
  lemma {:induction false} AllIsWritten<T(!new)>(c: Code<T>, d: Bytes)
    requires Exact(c)
    ensures d == WriteAll(c, ReadAll(c, d)) + Leftover(c, d)
    ensures AllFit(c, ReadAll(c, d)) && c.read(Leftover(c, d)).None?
    decreases |d|
  {
    NextIsRead(c, d);
    if c.read(d).None? {
      assert [] + d == d;
    } else {
      var (x, tail) := c.read(d).value;
      assert |tail| < |d|;
      AllIsWritten(c, tail);
      var xs := ReadAll(c, tail);
      assert ReadAll(c, d) == [x] + xs && ([x] + xs)[1..] == xs;
      Regroup(c.write(x), WriteAll(c, xs), Leftover(c, tail));
    }
  }

  /** Reading undoes writing exactly for the lists whose elements all fit. */
  lemma {:induction false} RoundTripExactlyWhenFits<T(!new)>(c: Code<T>, xs: seq<T>)
    requires Exact(c)
    ensures ReadAll(c, WriteAll(c, xs)) == xs <==> AllFit(c, xs)
    ensures AllFit(c, xs) ==> Leftover(c, WriteAll(c, xs)) == []
  {
    if AllFit(c, xs) {
      AllComeBack(c, xs, []);
      assert WriteAll(c, xs) + [] == WriteAll(c, xs);
      NothingThere(c);
    } else {
      AllIsWritten(c, WriteAll(c, xs));
    }
  }

  lemma NothingThere<T>(c: Code<T>)
    ensures ReadAll(c, []) == [] && Leftover(c, []) == []
  {}

  /** A prefix of an encoding gives exactly the elements that lie wholly inside the prefix. */
  lemma PrefixGivesWholeElements<T(!new)>(c: Code<T>, xs: seq<T>, cut: nat, j: nat)
    requires Exact(c) && AllFit(c, xs) && j <= |xs| && cut <= |WriteAll(c, xs)|
    requires |WriteAll(c, xs[..j])| <= cut
    requires j < |xs| ==> cut < |WriteAll(c, xs[..j + 1])|
    ensures ReadAll(c, WriteAll(c, xs)[..cut]) == xs[..j]
  {
    var whole, front, back := WriteAll(c, xs), WriteAll(c, xs[..j]), WriteAll(c, xs[j..]);
    assert xs[..j] + xs[j..] == xs;
    WriteAllConcat(c, xs[..j], xs[j..]);
    var k := cut - |front|;
    assert whole[..cut] == front + back[..k];
    AllComeBack(c, xs[..j], back[..k]);
    if j < |xs| {
      assert xs[..j + 1] == xs[..j] + [xs[j]];
      WriteAllConcat(c, xs[..j], [xs[j]]);
      WriteOne(c, xs[j]);
      assert back[..k] == c.write(xs[j])[..k];
      PrefixRejected(c, xs[j], k);
    } else {
      assert back == [] && back[..k] == [];
      NothingThere(c);
    }
    assert ReadAll(c, back[..k]) == [];
  }

  /** Such a `j` exists for every prefix. */
  lemma {:induction false} WholeElements<T>(c: Code<T>, xs: seq<T>, cut: nat, from: nat) returns (j: nat)
    requires from <= |xs| && |WriteAll(c, xs[..from])| <= cut
    ensures from <= j <= |xs| && |WriteAll(c, xs[..j])| <= cut
    ensures j < |xs| ==> cut < |WriteAll(c, xs[..j + 1])|
    decreases |xs| - from
  {
    if from < |xs| && |WriteAll(c, xs[..from + 1])| <= cut {
      j := WholeElements(c, xs, cut, from + 1);
    } else {
      j := from;
    }
  }

  /** Every prefix of an encoding gives a prefix of the list, and the whole gives all of it. */
  lemma PrefixGivesPrefix<T(!new)>(c: Code<T>, xs: seq<T>, cut: nat)
    requires Exact(c) && AllFit(c, xs) && cut <= |WriteAll(c, xs)|
    ensures ReadAll(c, WriteAll(c, xs)[..cut]) <= xs
    ensures cut == |WriteAll(c, xs)| ==> ReadAll(c, WriteAll(c, xs)[..cut]) == xs
  {
    var j := WholeElements(c, xs, cut, 0);
    PrefixGivesWholeElements(c, xs, cut, j);
    if cut == |WriteAll(c, xs)| {
      RoundTripExactlyWhenFits(c, xs);
      assert WriteAll(c, xs)[..cut] == WriteAll(c, xs);
    }
  }
}
