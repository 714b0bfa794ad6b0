/** Goroutines that append to one list at the same time (list.go).

    `Append` asks for the length and then inserts at that index, in two separately locked steps;
    between the two, other goroutines may insert.
  */
module ConcurrentAppend {
  import opened Words
  import opened Orders

  /** A goroutine: the values it still has to append, and the length it has read for the first. */
  datatype Writer<T> = Writer(todo: seq<T>, seen: Option<nat>)

  datatype State<T> = State(list: seq<T>, writers: map<nat, Writer<T>>)

  datatype Step = ReadLength(w: nat) | Insert(w: nat)

  predicate Enabled<T>(s: State<T>, a: Step) {
    a.w in s.writers && s.writers[a.w].todo != [] && (a.Insert? <==> s.writers[a.w].seen.Some?)
  }

  /** The engine refuses to insert beyond the end. */
  predicate Refused<T>(s: State<T>, a: Step)
    requires Enabled(s, a)
  {
    a.Insert? && s.writers[a.w].seen.value > |s.list|
  }

  function Next<T>(s: State<T>, a: Step): State<T>
    requires Enabled(s, a) && !Refused(s, a)
  {
    var w := s.writers[a.w];
    match a
    case ReadLength(g) => s.(writers := s.writers[g := w.(seen := Some(|s.list|))])
    case Insert(g) =>
      var n := w.seen.value;
      State(s.list[..n] + [w.todo[0]] + s.list[n..], s.writers[g := Writer(w.todo[1..], None)])
  }

  /** `s'` is reached by this schedule, and no insertion on the way is refused. */
  ghost predicate Runs<T>(s: State<T>, schedule: seq<Step>, s': State<T>)
    decreases |schedule|
  {
    if schedule == [] then s' == s
    else
      Enabled(s, schedule[0]) && !Refused(s, schedule[0]) && Runs(Next(s, schedule[0]), schedule[1..], s')
  }

  /** The schedule can be run, and no insertion is refused. */
  predicate CanRun<T>(s: State<T>, schedule: seq<Step>)
    decreases |schedule|
  {
    schedule == [] ||
    (Enabled(s, schedule[0]) && !Refused(s, schedule[0]) && CanRun(Next(s, schedule[0]), schedule[1..]))
  }

  /** The same schedule, whether or not the engine refuses something on the way. */
  ghost predicate Schedulable<T>(s: State<T>, schedule: seq<Step>)
    decreases |schedule|
  {
    schedule == [] ||
    (Enabled(s, schedule[0]) && (Refused(s, schedule[0]) || Schedulable(Next(s, schedule[0]), schedule[1..])))
  }

  predicate Init<T>(s: State<T>) {
    forall g :: g in s.writers ==> s.writers[g].seen.None?
  }

  // ---------------------------------------------------------------- the invariant

  /** The values still to be appended by the writers listed in `order`. */
  ghost function Pending<T>(ws: map<nat, Writer<T>>, order: seq<nat>): multiset<T> {
    if order == [] then multiset{}
    else (if order[0] in ws then multiset(ws[order[0]].todo) else multiset{}) + Pending(ws, order[1..])
  }

  /** The list only grows behind its initial contents, so every length that was read is still
      between the initial and the present length; and no value is lost or doubled. */
  ghost predicate Inv<T>(s: State<T>, base: seq<T>, order: seq<nat>, total: multiset<T>) {
    && base <= s.list
    && (forall g :: g in s.writers && s.writers[g].seen.Some? ==> |base| <= s.writers[g].seen.value <= |s.list|)
    && (forall g :: g in s.writers <==> g in order)
    && multiset(s.list) + Pending(s.writers, order) == total
  }

  lemma {:induction false} PendingUpdate<T>(ws: map<nat, Writer<T>>, g: nat, w: Writer<T>, order: seq<nat>)
    requires Unrepeated(order) && g in ws
    ensures g in order ==>
              Pending(ws[g := w], order) + multiset(ws[g].todo) == Pending(ws, order) + multiset(w.todo)
    ensures g !in order ==> Pending(ws[g := w], order) == Pending(ws, order)
  {
    if order != [] {
      PendingUpdate(ws, g, w, order[1..]);
      assert order[0] !in order[1..];
      assert g in order <==> g == order[0] || g in order[1..];
      var first := if order[0] in ws then multiset(ws[order[0]].todo) else multiset{};
      if g == order[0] {
        Swap(multiset(w.todo), Pending(ws, order[1..]), multiset(ws[g].todo));
      } else if g in order {
        Regroup(first, Pending(ws[g := w], order[1..]), multiset(ws[g].todo), Pending(ws, order[1..]), multiset(w.todo));
      }
    }
  }

  lemma Swap<T>(a: multiset<T>, b: multiset<T>, c: multiset<T>)
    ensures (a + b) + c == (c + b) + a
  {}

  lemma Regroup<T>(a: multiset<T>, p: multiset<T>, t: multiset<T>, q: multiset<T>, u: multiset<T>)
    requires p + t == q + u
    ensures (a + p) + t == (a + q) + u
  {
    assert (a + p) + t == a + (p + t);
    assert (a + q) + u == a + (q + u);
  }

  lemma Cancel<T>(p: multiset<T>, q: multiset<T>, t: multiset<T>)
    requires p + t == q + t
    ensures p == q
  {
    forall x ensures p[x] == q[x] {
      assert (p + t)[x] == (q + t)[x];
    }
  }

  lemma InsertMultiset<T>(list: seq<T>, n: nat, v: T)
    requires n <= |list|
    ensures multiset(list[..n] + [v] + list[n..]) == multiset(list) + multiset{v}
  {
    assert list == list[..n] + list[n..];
  }

  /** Moving one value from the pending ones to the list keeps the total. */
  lemma MoveOne<T>(list: multiset<T>, pending: multiset<T>, pending': multiset<T>, v: T, rest: multiset<T>)
    requires pending' + (multiset{v} + rest) == pending + rest
    ensures (list + multiset{v}) + pending' == list + pending
  {
    forall x ensures ((list + multiset{v}) + pending')[x] == (list + pending)[x] {
      assert (pending' + (multiset{v} + rest))[x] == (pending + rest)[x];
    }
  }

  lemma StepKeepsInv<T>(s: State<T>, a: Step, base: seq<T>, order: seq<nat>, total: multiset<T>)
    requires Inv(s, base, order, total) && Unrepeated(order) && Enabled(s, a)
    ensures !Refused(s, a) && Inv(Next(s, a), base, order, total)
  {
    StepKeepsTotal(s, a, order);
    if a.Insert? { assert base <= s.list[..s.writers[a.w].seen.value]; }
  }

  lemma StepKeepsTotal<T>(s: State<T>, a: Step, order: seq<nat>)
    requires Enabled(s, a) && !Refused(s, a) && Unrepeated(order) && a.w in order
    ensures multiset(Next(s, a).list) + Pending(Next(s, a).writers, order) == multiset(s.list) + Pending(s.writers, order)
  {
    var w, s' := s.writers[a.w], Next(s, a);
    PendingUpdate(s.writers, a.w, s'.writers[a.w], order);
    if a.Insert? {
      var n, v, rest := w.seen.value, w.todo[0], w.todo[1..];
      assert w.todo == [v] + rest;
      InsertMultiset(s.list, n, v);
      MoveOne(multiset(s.list), Pending(s.writers, order), Pending(s'.writers, order), v, multiset(rest));
    } else {
      Cancel(Pending(s'.writers, order), Pending(s.writers, order), multiset(w.todo));
    }
  }

  lemma {:induction false} RunKeepsInv<T>(s: State<T>, schedule: seq<Step>, s': State<T>, base: seq<T>, order: seq<nat>, total: multiset<T>)
    requires Inv(s, base, order, total) && Unrepeated(order) && Runs(s, schedule, s')
    ensures Inv(s', base, order, total)
    decreases |schedule|
  {
    if schedule != [] {
      StepKeepsInv(s, schedule[0], base, order, total);
      RunKeepsInv(Next(s, schedule[0]), schedule[1..], s', base, order, total);
    }
  }

  // ---------------------------------------------------------------- what it means for every run

  /** No interleaving makes the engine refuse an insertion. */
  lemma {:induction false} NoInsertFails<T>(s: State<T>, schedule: seq<Step>, base: seq<T>, order: seq<nat>, total: multiset<T>)
    requires Inv(s, base, order, total) && Unrepeated(order) && Schedulable(s, schedule)
    ensures exists s' :: Runs(s, schedule, s')
    decreases |schedule|
  {
    if schedule == [] {
      assert Runs(s, schedule, s);
    } else {
      StepKeepsInv(s, schedule[0], base, order, total);
      var t := Next(s, schedule[0]);
      NoInsertFails(t, schedule[1..], base, order, total);
      var s' :| Runs(t, schedule[1..], s');
      assert Runs(s, schedule, s');
    }
  }

  /** In every interleaving of any number of writers: no insertion fails, the initial contents stay
      in front, and when all are done the list holds exactly the values that were there and those
      that were appended. */
  lemma EveryInterleavingKeepsAll<T>(s: State<T>, schedule: seq<Step>, order: seq<nat>)
    requires Init(s) && Schedulable(s, schedule)
    requires Unrepeated(order) && forall g :: g in s.writers <==> g in order
    ensures exists s' ::
              Runs(s, schedule, s') && s.list <= s'.list &&
              ((forall g :: g in s'.writers ==> s'.writers[g].todo == []) ==>
               multiset(s'.list) == multiset(s.list) + Pending(s.writers, order))
  {
    var total := multiset(s.list) + Pending(s.writers, order);
    NoInsertFails(s, schedule, s.list, order, total);
    var s' :| Runs(s, schedule, s');
    RunKeepsInv(s, schedule, s', s.list, order, total);
    if forall g :: g in s'.writers ==> s'.writers[g].todo == [] {
      NothingPending(s'.writers, order);
    }
  }

  lemma {:induction false} NothingPending<T>(ws: map<nat, Writer<T>>, order: seq<nat>)
    requires forall g :: g in ws ==> ws[g].todo == []
    ensures Pending(ws, order) == multiset{}
  {
    if order != [] { NothingPending(ws, order[1..]); }
  }

  // ---------------------------------------------------------------- where the values land

  /** No step of `mid` is one of `g`'s. */
  predicate Leaves(mid: seq<Step>, g: nat) {
    forall a :: a in mid ==> a.w != g
  }

  predicate NothingInserted(mid: seq<Step>) {
    forall a :: a in mid ==> !a.Insert?
  }

  /** Where the value at index `p` is after an insertion at `n`. */
  function Pushed(p: nat, n: nat): nat {
    if n <= p then p + 1 else p
  }

  /** Where the value at index `p` is after `mid`: each insertion at or before it moves it up. */
  ghost function Moved<T>(s: State<T>, mid: seq<Step>, p: nat): nat
    requires CanRun(s, mid)
    decreases |mid|
  {
    if mid == [] then p
    else
      var a := mid[0];
      Moved(Next(s, a), mid[1..], if a.Insert? then Pushed(p, s.writers[a.w].seen.value) else p)
  }

  /** While others move, a goroutine keeps what it has read, the list does not shrink, and it grows
      exactly if something is inserted. */
  lemma {:induction false} OthersMove<T>(s: State<T>, mid: seq<Step>, s': State<T>, g: nat)
    requires Runs(s, mid, s') && Leaves(mid, g) && g in s.writers
    ensures g in s'.writers && s'.writers[g] == s.writers[g]
    ensures |s.list| <= |s'.list| && (|s'.list| == |s.list| <==> NothingInserted(mid))
    decreases |mid|
  {
    if mid != [] {
      assert mid[0] in mid && forall a :: a in mid[1..] ==> a in mid;
      OthersMove(Next(s, mid[0]), mid[1..], s', g);
      assert NothingInserted(mid) <==> !mid[0].Insert? && NothingInserted(mid[1..]) by {
        assert mid == [mid[0]] + mid[1..];
      }
    }
  }

  /** `Moved` is right: the value is there. */
  lemma {:induction false} MovedIsThere<T>(s: State<T>, mid: seq<Step>, s': State<T>, p: nat)
    requires Runs(s, mid, s') && p < |s.list|
    ensures CanRun(s, mid) && Moved(s, mid, p) < |s'.list| && s'.list[Moved(s, mid, p)] == s.list[p]
    decreases |mid|
  {
    if mid != [] {
      var a, s1 := mid[0], Next(s, mid[0]);
      var q := if a.Insert? then Pushed(p, s.writers[a.w].seen.value) else p;
      assert s1.list[q] == s.list[p];
      MovedIsThere(s1, mid[1..], s', q);
    }
  }

  /** One append of `g`, from reading the length to inserting, with any steps of others in between.
      The value goes to the index that was the end.  It is the last one exactly if nothing was
      inserted in between. */
  lemma LandsAtEnd<T>(s: State<T>, mid: seq<Step>, s': State<T>, g: nat)
    requires Enabled(s, ReadLength(g)) && Runs(Next(s, ReadLength(g)), mid, s') && Leaves(mid, g)
    ensures Enabled(s', Insert(g)) && !Refused(s', Insert(g))
    ensures var after := Next(s', Insert(g)).list;
            |s.list| < |after| && after[|s.list|] == s.writers[g].todo[0] && (|s.list| == |after| - 1 <==> NothingInserted(mid))
  {
    OthersMove(Next(s, ReadLength(g)), mid, s', g);
  }

  /** Another value, at index `p` when the length was read, ends in front of the new one exactly if
      the insertions in between do not push it to the index that was the end, or beyond. */
  lemma LandsBehind<T>(s: State<T>, mid: seq<Step>, s': State<T>, g: nat, p: nat)
    requires Enabled(s, ReadLength(g)) && Runs(Next(s, ReadLength(g)), mid, s') && Leaves(mid, g) && p < |s.list|
    ensures Enabled(s', Insert(g)) && !Refused(s', Insert(g)) && CanRun(Next(s, ReadLength(g)), mid)
    ensures var q := Moved(Next(s, ReadLength(g)), mid, p);
            var after, at := Next(s', Insert(g)).list, Pushed(q, |s.list|);
            at < |after| && after[at] == s.list[p] && (at < |s.list| <==> q < |s.list|)
  {
    OthersMove(Next(s, ReadLength(g)), mid, s', g);
    MovedIsThere(Next(s, ReadLength(g)), mid, s', p);
  }

  // ---------------------------------------------------------------- one goroutine's own order

  /** Where `g`'s own values are after a run, in the order in which `g` appended them. */
  ghost function Own<T>(s: State<T>, schedule: seq<Step>, g: nat, ps: seq<nat>): seq<nat>
    requires CanRun(s, schedule)
    decreases |schedule|
  {
    if schedule == [] then ps
    else
      Own(Next(s, schedule[0]), schedule[1..], g, OwnStep(s, schedule[0], g, ps))
  }

  function OwnStep<T>(s: State<T>, a: Step, g: nat, ps: seq<nat>): seq<nat>
    requires Enabled(s, a)
  {
    if !a.Insert? then ps
    else
      var n := s.writers[a.w].seen.value;
      seq(|ps|, i requires 0 <= i < |ps| => Pushed(ps[i], n)) + if a.w == g then [n] else []
  }

  predicate Ascending(ps: seq<nat>) {
    forall i, j :: 0 <= i < j < |ps| ==> ps[i] < ps[j]
  }

  /** At each insertion of `g`, its own latest value is still in front of the index that it read. */
  ghost predicate NeverOvertaken<T>(s: State<T>, schedule: seq<Step>, g: nat, ps: seq<nat>)
    requires CanRun(s, schedule)
    decreases |schedule|
  {
    schedule == [] ||
    (var a := schedule[0];
     (a == Insert(g) && ps != [] ==> ps[|ps| - 1] < s.writers[g].seen.value)
     && NeverOvertaken(Next(s, a), schedule[1..], g, OwnStep(s, a, g, ps)))
  }

  /** The values at these indexes are those that `g` has appended. */
  ghost predicate Holds<T>(list: seq<T>, ps: seq<nat>, values: seq<T>) {
    |ps| == |values| && forall i :: 0 <= i < |ps| ==> ps[i] < |list| && list[ps[i]] == values[i]
  }

  lemma OwnStepHolds<T>(s: State<T>, a: Step, g: nat, ps: seq<nat>, values: seq<T>)
    requires Enabled(s, a) && !Refused(s, a) && Holds(s.list, ps, values)
    ensures Holds(Next(s, a).list, OwnStep(s, a, g, ps), if a == Insert(g) then values + [s.writers[g].todo[0]] else values)
  {
    if a.Insert? {
      var n, v := s.writers[a.w].seen.value, s.writers[a.w].todo[0];
      var after := s.list[..n] + [v] + s.list[n..];
      forall i | 0 <= i < |ps| ensures Pushed(ps[i], n) < |after| && after[Pushed(ps[i], n)] == values[i] {}
      assert after[n] == v;
    }
  }

  /** The indexes are those of `g`'s values: all that it had to append before, in order, without
      those that it still has to. */
  lemma {:induction false} OwnAreThere<T>(s: State<T>, schedule: seq<Step>, s': State<T>, g: nat, ps: seq<nat>, values: seq<T>)
    requires Runs(s, schedule, s') && Holds(s.list, ps, values) && g in s.writers
    ensures g in s'.writers && CanRun(s, schedule)
    ensures exists done :: Holds(s'.list, Own(s, schedule, g, ps), done) && done + s'.writers[g].todo == values + s.writers[g].todo
    decreases |schedule|
  {
    if schedule == [] {
      assert Holds(s'.list, Own(s, schedule, g, ps), values);
    } else {
      var a := schedule[0];
      OwnStepHolds(s, a, g, ps, values);
      var values' := if a == Insert(g) then values + [s.writers[g].todo[0]] else values;
      assert values' + Next(s, a).writers[g].todo == values + s.writers[g].todo;
      OwnAreThere(Next(s, a), schedule[1..], s', g, OwnStep(s, a, g, ps), values');
    }
  }

  lemma OwnStepOrder<T>(s: State<T>, a: Step, g: nat, ps: seq<nat>)
    requires Enabled(s, a) && Ascending(ps)
    ensures Ascending(OwnStep(s, a, g, ps)) <==> (a == Insert(g) && ps != [] ==> ps[|ps| - 1] < s.writers[g].seen.value)
  {
    var qs := OwnStep(s, a, g, ps);
    if a == Insert(g) && ps != [] {
      var k, n := |ps| - 1, s.writers[g].seen.value;
      assert qs[k] == Pushed(ps[k], n) && qs[k + 1] == n;
      if ps[k] < n {
        forall i, j | 0 <= i < j < |qs| ensures qs[i] < qs[j] {
          assert i <= k && ps[i] <= ps[k];
        }
      }
    }
  }

  /** Once out of order, always out of order. */
  lemma OutOfOrderStays<T>(s: State<T>, a: Step, g: nat, ps: seq<nat>)
    requires Enabled(s, a) && !Ascending(ps)
    ensures !Ascending(OwnStep(s, a, g, ps))
  {
    var i, j :| 0 <= i < j < |ps| && ps[i] >= ps[j];
    var qs := OwnStep(s, a, g, ps);
    assert qs[i] >= qs[j];
  }

  lemma {:induction false} OutOfOrderForGood<T>(s: State<T>, schedule: seq<Step>, g: nat, ps: seq<nat>)
    requires CanRun(s, schedule) && !Ascending(ps)
    ensures !Ascending(Own(s, schedule, g, ps))
    decreases |schedule|
  {
    if schedule != [] {
      OutOfOrderStays(s, schedule[0], g, ps);
      OutOfOrderForGood(Next(s, schedule[0]), schedule[1..], g, OwnStep(s, schedule[0], g, ps));
    }
  }

  /** Over any run: a goroutine's own values are in the order in which it appended them exactly if at
      none of its insertions its latest value has been pushed to the index it read, or beyond. */
  lemma {:induction false} OwnOrderExactly<T>(s: State<T>, schedule: seq<Step>, g: nat, ps: seq<nat>)
    requires CanRun(s, schedule) && Ascending(ps)
    ensures Ascending(Own(s, schedule, g, ps)) <==> NeverOvertaken(s, schedule, g, ps)
    decreases |schedule|
  {
    if schedule != [] {
      var a := schedule[0];
      OwnStepOrder(s, a, g, ps);
      var s1, qs := Next(s, a), OwnStep(s, a, g, ps);
      if Ascending(qs) {
        OwnOrderExactly(s1, schedule[1..], g, qs);
      } else {
        OutOfOrderForGood(s1, schedule[1..], g, qs);
      }
    }
  }

  /** The order of one goroutine's own values is not kept: 1 was appended before 2 by writer 0. */
  lemma OwnOrderIsNotKept()
    ensures Runs(State([], map[0 := Writer([1, 2], None), 1 := Writer([3], None), 2 := Writer([4], None)]),
                 [ReadLength(1), ReadLength(2), ReadLength(0), Insert(0), ReadLength(0), Insert(1), Insert(2), Insert(0)],
                 State([4, 2, 3, 1], map[0 := Writer([], None), 1 := Writer([], None), 2 := Writer([], None)]))
  {
    var s := State([], map[0 := Writer([1, 2], None), 1 := Writer([3], None), 2 := Writer([4], None)]);
    var end := State([4, 2, 3, 1], map[0 := Writer([], None), 1 := Writer([], None), 2 := Writer([], None)]);
    var s1 := Next(s, ReadLength(1));
    var s2 := Next(s1, ReadLength(2));
    var s3 := Next(s2, ReadLength(0));
    var s4 := Next(s3, Insert(0));
    assert [1, 2][1..] == [2];
    assert s4 == State([1], map[0 := Writer([2], None), 1 := Writer([3], Some(0)), 2 := Writer([4], Some(0))]);
    SecondHalf();
    assert Runs(s3, [Insert(0), ReadLength(0), Insert(1), Insert(2), Insert(0)], end);
    assert Runs(s2, [ReadLength(0), Insert(0), ReadLength(0), Insert(1), Insert(2), Insert(0)], end);
    assert Runs(s1, [ReadLength(2), ReadLength(0), Insert(0), ReadLength(0), Insert(1), Insert(2), Insert(0)], end);
  }

  lemma SecondHalf()
    ensures Runs(State([1], map[0 := Writer([2], None), 1 := Writer([3], Some(0)), 2 := Writer([4], Some(0))]),
                 [ReadLength(0), Insert(1), Insert(2), Insert(0)],
                 State([4, 2, 3, 1], map[0 := Writer([], None), 1 := Writer([], None), 2 := Writer([], None)]))
  {
    var s4 := State([1], map[0 := Writer([2], None), 1 := Writer([3], Some(0)), 2 := Writer([4], Some(0))]);
    assert [2][1..] == [] && [3][1..] == [] && [4][1..] == [];
    var s5 := Next(s4, ReadLength(0));
    var s6 := Next(s5, Insert(1));
    assert s6.list == [3, 1];
    var s7 := Next(s6, Insert(2));
    assert s7.list == [4, 3, 1];
    var s8 := Next(s7, Insert(0));
    assert s8.list == [4, 2, 3, 1];
    assert s8.writers == map[0 := Writer([], None), 1 := Writer([], None), 2 := Writer([], None)];
    assert Runs(s7, [Insert(0)], s8);
    assert Runs(s6, [Insert(2), Insert(0)], s8);
    assert Runs(s5, [Insert(1), Insert(2), Insert(0)], s8);
  }
}
