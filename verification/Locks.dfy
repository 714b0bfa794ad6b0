/** Document mutexes (doc.go): the one-shot unlock closure, nested writes, paths and merges.

    `lock` returns a closure that unlocks the first time it is called and does nothing after that.
    Every method that locks also defers the closure.  The methods that write nested values call it
    early, before they call themselves; mutexes are not reentrant.
  */
module Locks {
  import opened Words
  import opened Orders

  // ---------------------------------------------------------------- the methods

  /** What a method does, as far as mutexes are concerned. */
  datatype Stmt =
    | Acquire(doc: nat)            // `b, unlock := d.lock(); defer unlock()`
    | Backend(doc: nat)            // a call into the module of this document
    | EarlyUnlock                  // `unlock()`
    | Invoke(body: seq<Stmt>)      // another method of the API

  /** Methods that read or write once: List.Len, Map.Get, Doc.Save, Doc.Fork, Doc.Commit, ... */
  function Simple(doc: nat): seq<Stmt> {
    [Acquire(doc), Backend(doc)]
  }

  /** Doc.Merge saves the other document and then locks its own. */
  function Merge(doc: nat, other: nat): seq<Stmt> {
    [Invoke(Simple(other)), Acquire(doc), Backend(doc), Backend(doc)]
  }

  /** The shape of a value, its entries in the order in which they are written.  A leaf is anything
      written with one call: a scalar, a counter, a detached map or list. */
  datatype Shape = Leaf | Text | ListOf(items: seq<Shape>) | MapOf(items: seq<Shape>)

  /** Map.Set and List.put on an object that has its handle.  A list or map is first created empty,
      by a call of the same method with one write. */
  function Put(doc: nat, v: Shape): seq<Stmt>
    decreases v, 0
  {
    match v
    case Leaf => [Acquire(doc), Backend(doc)]
    case Text => [Acquire(doc), Backend(doc), EarlyUnlock, Invoke(TextSet(doc))]
    case ListOf(items) => [Acquire(doc), EarlyUnlock, Invoke(Simple(doc)), Invoke(AppendAll(doc, items))]
    case MapOf(items) => [Acquire(doc), EarlyUnlock, Invoke(Simple(doc))] + SetAll(doc, items)
  }

  /** Text.Set measures the text and splices it. */
  function TextSet(doc: nat): seq<Stmt> {
    [Invoke(Simple(doc)), Invoke(Simple(doc))]
  }

  /** List.Append takes no lock itself; it asks for the length before each put. */
  function AppendAll(doc: nat, items: seq<Shape>): seq<Stmt>
    decreases items, 1
  {
    if items == [] then []
    else [Invoke(Simple(doc)), Invoke(Put(doc, items[0]))] + AppendAll(doc, items[1..])
  }

  /** The loop of Map.Set over the entries of a map. */
  function SetAll(doc: nat, items: seq<Shape>): seq<Stmt>
    decreases items, 1
  {
    if items == [] then [] else [Invoke(Put(doc, items[0]))] + SetAll(doc, items[1..])
  }

  /** One segment of a path, and whether nothing is there yet. */
  datatype Segment = KeySegment(missing: bool) | IndexSegment(missing: bool)

  /** Map.Get, and List.Get, which asks for the length first. */
  function Get(doc: nat, s: Segment): seq<Stmt> {
    if s.KeySegment? then Simple(doc) else [Invoke(Simple(doc))] + Simple(doc)
  }

  /** The setter closure.  For an index it compares with the length three times, and List.Set or
      List.Append asks for it once more. */
  function Setter(doc: nat, s: Segment, v: Shape): seq<Stmt> {
    var len := Invoke(Simple(doc));
    if s.KeySegment? then [Invoke(Put(doc, v))]
    else [len, len, len, Invoke([len, Invoke(Put(doc, v))])]
  }

  /** Path.ensure. */
  function Ensure(doc: nat, path: seq<Segment>): seq<Stmt>
    decreases |path|, 0
  {
    if path == [] then []
    else [Invoke(EnsureContainer(doc, path[..|path| - 1])), Invoke(Get(doc, path[|path| - 1]))]
  }

  /** Path.ensureMap and Path.ensureList. */
  function EnsureContainer(doc: nat, path: seq<Segment>): seq<Stmt>
    decreases |path|, 1
  {
    if path == [] then []
    else [Invoke(Ensure(doc, path))]
         + if path[|path| - 1].missing then [Invoke(Setter(doc, path[|path| - 1], Leaf))] else []
  }

  /** Path.Set. */
  function PathSet(doc: nat, path: seq<Segment>, v: Shape): seq<Stmt> {
    if path == [] then [] else [Invoke(Ensure(doc, path)), Invoke(Setter(doc, path[|path| - 1], v))]
  }

  /** Map.Set and List.put on an object that is still bound to a path. */
  function BoundPut(doc: nat, path: seq<Segment>, v: Shape): seq<Stmt> {
    [Invoke(EnsureContainer(doc, path))] + Put(doc, v)
  }

  /** The calls that a goroutine can make. */
  datatype Api =
    | ReadApi(doc: nat)
    | PutApi(doc: nat, v: Shape)
    | BoundPutApi(doc: nat, path: seq<Segment>, v: Shape)
    | AppendApi(doc: nat, items: seq<Shape>)
    | PathSetApi(doc: nat, path: seq<Segment>, v: Shape)
    | MergeApi(doc: nat, other: nat)

  function Program(a: Api): seq<Stmt> {
    match a
    case ReadApi(doc) => Simple(doc)
    case PutApi(doc, v) => Put(doc, v)
    case BoundPutApi(doc, path, v) => BoundPut(doc, path, v)
    case AppendApi(doc, items) => AppendAll(doc, items)
    case PathSetApi(doc, path, v) => PathSet(doc, path, v)
    case MergeApi(doc, other) => Merge(doc, other)
  }

  /** `run` is one way to run `body`: to the end, or until it returns early with an error, with each
      of the methods it calls run in one of these ways. */
  ghost predicate Exits(run: seq<Stmt>, body: seq<Stmt>)
    decreases body
  {
    run == [] ||
    (body != [] && Exits(run[1..], body[1..]) &&
     if body[0].Invoke? then run[0].Invoke? && Exits(run[0].body, body[0].body) else run[0] == body[0])
  }

  // ---------------------------------------------------------------- what a run does to mutexes

  /** `Unlock` is a call of the closure: it has an effect only while its own lock is held. */
  datatype Act = Lock(doc: nat, closure: nat) | Unlock(closure: nat) | Use(doc: nat)

  /** The acts of one method: those of its statements, and the closures it deferred at the end. */
  function Acts(run: seq<Stmt>, depth: nat): seq<Act>
    decreases run, 1
  {
    Straight(run, depth) + Deferred(run, depth)
  }

  function Straight(run: seq<Stmt>, depth: nat): seq<Act>
    decreases run, 0
  {
    if run == [] then []
    else
      (match run[0]
       case Acquire(doc) => [Lock(doc, depth)]
       case Backend(doc) => [Use(doc)]
       case EarlyUnlock => [Unlock(depth)]
       case Invoke(body) => Acts(body, depth + 1)) + Straight(run[1..], depth)
  }

  function Deferred(run: seq<Stmt>, depth: nat): seq<Act> {
    if run == [] then []
    else Deferred(run[1..], depth) + if run[0].Acquire? then [Unlock(depth)] else []
  }

  function AllActs(runs: seq<seq<Stmt>>): seq<Act> {
    if runs == [] then [] else Acts(runs[0], 0) + AllActs(runs[1..])
  }

  /** A goroutine: what it still has to do, and the closures whose lock it holds. */
  datatype Goroutine = Goroutine(acts: seq<Act>, held: map<nat, nat>)

  /** `owner` maps a locked document to the goroutine that locked it. */
  datatype State = State(owner: map<nat, nat>, gs: map<nat, Goroutine>)

  predicate Enabled(s: State, g: nat) {
    g in s.gs && s.gs[g].acts != [] &&
    match s.gs[g].acts[0]
    case Lock(d, _) => d !in s.owner
    case Unlock(_) => true
    case Use(_) => true
  }

  function Next(s: State, g: nat): State
    requires Enabled(s, g)
  {
    var r := s.gs[g];
    match r.acts[0]
    case Lock(d, c) => State(s.owner[d := g], s.gs[g := Goroutine(r.acts[1..], r.held[c := d])])
    case Unlock(c) =>
      if c in r.held
      then State(s.owner - {r.held[c]}, s.gs[g := Goroutine(r.acts[1..], r.held - {c})])
      else s.(gs := s.gs[g := Goroutine(r.acts[1..], r.held)])
    case Use(_) => s.(gs := s.gs[g := Goroutine(r.acts[1..], r.held)])
  }

  /** Any number of goroutines, each about to run any sequence of methods. */
  function Start(runs: map<nat, seq<seq<Stmt>>>): State {
    State(map[], map g | g in runs :: Goroutine(AllActs(runs[g]), map[]))
  }

  predicate Runs(s: State, schedule: seq<nat>, s': State)
    decreases |schedule|
  {
    if schedule == [] then s' == s
    else Enabled(s, schedule[0]) && Runs(Next(s, schedule[0]), schedule[1..], s')
  }

  // ---------------------------------------------------------------- calls never nest locks

  /** A closure and the document that its lock belongs to. */
  datatype Held = Held(closure: nat, doc: nat)

  /** With `open` the lock that is held: no lock is taken while one is held, the module is only called
      for the document that is locked, and no lock is left at the end. */
  predicate Flat(acts: seq<Act>, open: Option<Held>) {
    if acts == [] then open.None?
    else
      match acts[0]
      case Lock(d, c) => open.None? && Flat(acts[1..], Some(Held(c, d)))
      case Unlock(c) => Flat(acts[1..], Closed(open, c))
      case Use(d) => open.Some? && open.value.doc == d && Flat(acts[1..], open)
  }

  /** What is held after a call of the closure `c`. */
  function Closed(open: Option<Held>, c: nat): Option<Held> {
    if open.Some? && open.value.closure == c then None else open
  }

  lemma {:induction false} FlatThenFlat(a: seq<Act>, open: Option<Held>, b: seq<Act>)
    requires Flat(a, open) && Flat(b, None)
    ensures Flat(a + b, open)
  {
    if a == [] {
      assert a + b == b;
    } else {
      assert (a + b)[1..] == a[1..] + b;
      match a[0]
      case Lock(d, c) => FlatThenFlat(a[1..], Some(Held(c, d)), b);
      case Unlock(c) => FlatThenFlat(a[1..], Closed(open, c), b);
      case Use(_) => FlatThenFlat(a[1..], open, b);
    }
  }

  /** The discipline that the text of a method has to keep, with `holding` the document that it has
      locked: it locks at most once at a time, it calls the module only for that document, and it calls
      no other method while it holds its lock. */
  predicate Disciplined(body: seq<Stmt>, holding: Option<nat>)
    decreases body
  {
    body == [] ||
    match body[0]
    case Acquire(doc) => holding.None? && Disciplined(body[1..], Some(doc))
    case Backend(doc) => holding == Some(doc) && Disciplined(body[1..], holding)
    case EarlyUnlock => Disciplined(body[1..], None)
    case Invoke(inner) => holding.None? && Disciplined(inner, None) && Disciplined(body[1..], holding)
  }

  /** Leaving a disciplined method early is disciplined too. */
  lemma {:induction false} ExitsAreDisciplined(run: seq<Stmt>, body: seq<Stmt>, holding: Option<nat>)
    requires Exits(run, body) && Disciplined(body, holding)
    ensures Disciplined(run, holding)
    decreases body
  {
    if run != [] {
      match body[0]
      case Acquire(doc) => ExitsAreDisciplined(run[1..], body[1..], Some(doc));
      case Backend(_) => ExitsAreDisciplined(run[1..], body[1..], holding);
      case EarlyUnlock => ExitsAreDisciplined(run[1..], body[1..], None);
      case Invoke(inner) =>
        ExitsAreDisciplined(run[0].body, inner, None);
        ExitsAreDisciplined(run[1..], body[1..], holding);
    }
  }

  /** The method takes a lock, and so defers its closure. */
  predicate Acquires(run: seq<Stmt>) {
    run != [] && (run[0].Acquire? || Acquires(run[1..]))
  }

  lemma {:induction false} DeferredAreUnlocks(run: seq<Stmt>, depth: nat, open: Option<Held>)
    requires open.Some? ==> open.value.closure == depth && Acquires(run)
    ensures Flat(Deferred(run, depth), open)
    ensures !Acquires(run) ==> Deferred(run, depth) == []
  {
    if run != [] {
      var rest := Deferred(run[1..], depth);
      var last: seq<Act> := if run[0].Acquire? then [Unlock(depth)] else [];
      if last != [] { assert last[1..] == []; }
      if open.Some? && !Acquires(run[1..]) {
        DeferredAreUnlocks(run[1..], depth, None);
        assert rest + last == [Unlock(depth)];
      } else {
        DeferredAreUnlocks(run[1..], depth, open);
        FlatThenFlat(rest, open, last);
      }
    }
  }

  /** However deep the nesting and wherever it is left: a disciplined method never waits for a mutex
      while it holds one, calls the module only under its own lock, and holds none when it returns. */
  lemma {:induction false} DisciplinedIsFlat(run: seq<Stmt>, depth: nat)
    requires Disciplined(run, None)
    ensures Flat(Acts(run, depth), None)
    decreases run, 1
  {
    DeferredAreUnlocks(run, depth, None);
    if Acquires(run) {
      forall d ensures Flat(Deferred(run, depth), Some(Held(depth, d))) {
        DeferredAreUnlocks(run, depth, Some(Held(depth, d)));
      }
    }
    StraightIsFlat(run, depth, None, Deferred(run, depth));
  }

  function Open(holding: Option<nat>, depth: nat): Option<Held> {
    if holding.Some? then Some(Held(depth, holding.value)) else None
  }

  /** The statements, in front of whatever unlocks at the end. */
  lemma {:induction false} StraightIsFlat(run: seq<Stmt>, depth: nat, holding: Option<nat>, end: seq<Act>)
    requires Disciplined(run, holding) && Flat(end, None)
    requires holding.Some? || Acquires(run) ==> forall d :: Flat(end, Some(Held(depth, d)))
    ensures Flat(Straight(run, depth) + end, Open(holding, depth))
    decreases run, 0
  {
    var open := Open(holding, depth);
    if run == [] {
      assert Straight(run, depth) + end == end;
    } else {
      var more := Straight(run[1..], depth);
      match run[0]
      case Acquire(doc) =>
        StraightIsFlat(run[1..], depth, Some(doc), end);
        OneAct(Lock(doc, depth), more, end);
      case Backend(doc) =>
        StraightIsFlat(run[1..], depth, holding, end);
        OneAct(Use(doc), more, end);
      case EarlyUnlock =>
        StraightIsFlat(run[1..], depth, None, end);
        OneAct(Unlock(depth), more, end);
      case Invoke(body) =>
        DisciplinedIsFlat(body, depth + 1);
        StraightIsFlat(run[1..], depth, holding, end);
        FlatThenFlat(Acts(body, depth + 1), None, more + end);
        assert Straight(run, depth) + end == Acts(body, depth + 1) + (more + end);
    }
  }

  lemma OneAct(a: Act, acts: seq<Act>, end: seq<Act>)
    ensures var all := ([a] + acts) + end;
            all != [] && all[0] == a && all[1..] == acts + end
  {}

  // ---------------------------------------------------------------- the methods keep the discipline

  lemma SimpleIsDisciplined(doc: nat)
    ensures Disciplined(Simple(doc), None)
  {
    var b := Simple(doc);
    assert b[1..] == [Backend(doc)] && [Backend(doc)][1..] == [];
  }

  /** One more call at the front, with no lock held. */
  lemma CallFirst(inner: seq<Stmt>, rest: seq<Stmt>)
    requires Disciplined(inner, None) && Disciplined(rest, None)
    ensures Disciplined([Invoke(inner)] + rest, None)
  {
    assert ([Invoke(inner)] + rest)[1..] == rest;
  }

  /** Locking, unlocking early, with or without a call into the module in between, and then going on. */
  lemma UnlockedFirst(doc: nat, rest: seq<Stmt>)
    requires Disciplined(rest, None)
    ensures Disciplined([Acquire(doc), EarlyUnlock] + rest, None)
    ensures Disciplined([Acquire(doc), Backend(doc), EarlyUnlock] + rest, None)
  {
    var b := [EarlyUnlock] + rest;
    assert b[1..] == rest;
    assert Disciplined(b, Some(doc));
    OneMore(Acquire(doc), b);
    OneMore(Backend(doc), b);
    OneMore(Acquire(doc), [Backend(doc)] + b);
    assert [Acquire(doc), EarlyUnlock] + rest == [Acquire(doc)] + b;
    assert [Acquire(doc), Backend(doc), EarlyUnlock] + rest == [Acquire(doc)] + ([Backend(doc)] + b);
  }

  lemma OneMore(x: Stmt, rest: seq<Stmt>)
    ensures ([x] + rest)[0] == x && ([x] + rest)[1..] == rest
  {}

  lemma TextIsDisciplined(doc: nat)
    ensures Disciplined(Put(doc, Text), None)
  {
    var write := [Invoke(TextSet(doc))];
    SimpleIsDisciplined(doc);
    CallFirst(Simple(doc), []);
    CallFirst(Simple(doc), [Invoke(Simple(doc))]);
    assert TextSet(doc) == [Invoke(Simple(doc))] + [Invoke(Simple(doc))];
    CallFirst(TextSet(doc), []);
    UnlockedFirst(doc, write);
    assert Put(doc, Text) == [Acquire(doc), Backend(doc), EarlyUnlock] + write;
  }

  /** Creating the empty container, and then writing its items. */
  lemma ContainerIsDisciplined(doc: nat, rest: seq<Stmt>)
    requires Disciplined(rest, None)
    ensures Disciplined([Acquire(doc), EarlyUnlock, Invoke(Simple(doc))] + rest, None)
  {
    SimpleIsDisciplined(doc);
    CallFirst(Simple(doc), rest);
    var after := [Invoke(Simple(doc))] + rest;
    UnlockedFirst(doc, after);
    assert [Acquire(doc), EarlyUnlock, Invoke(Simple(doc))] + rest == [Acquire(doc), EarlyUnlock] + after;
  }

  /** Map.Set and List.put, for values of every shape and depth. */
  lemma {:induction false} PutIsDisciplined(doc: nat, v: Shape)
    ensures Disciplined(Put(doc, v), None)
    decreases v, 0
  {
    match v
    case Leaf => SimpleIsDisciplined(doc);
    case Text => TextIsDisciplined(doc);
    case ListOf(items) =>
      AppendIsDisciplined(doc, items);
      var rest := [Invoke(AppendAll(doc, items))];
      CallFirst(AppendAll(doc, items), []);
      ContainerIsDisciplined(doc, rest);
      assert Put(doc, v) == [Acquire(doc), EarlyUnlock, Invoke(Simple(doc))] + rest;
    case MapOf(items) =>
      SetAllIsDisciplined(doc, items);
      ContainerIsDisciplined(doc, SetAll(doc, items));
  }

  lemma {:induction false} AppendIsDisciplined(doc: nat, items: seq<Shape>)
    ensures Disciplined(AppendAll(doc, items), None)
    decreases items, 1
  {
    if items != [] {
      var rest := AppendAll(doc, items[1..]);
      SimpleIsDisciplined(doc);
      PutIsDisciplined(doc, items[0]);
      AppendIsDisciplined(doc, items[1..]);
      CallFirst(Put(doc, items[0]), rest);
      CallFirst(Simple(doc), [Invoke(Put(doc, items[0]))] + rest);
      assert AppendAll(doc, items) == [Invoke(Simple(doc))] + ([Invoke(Put(doc, items[0]))] + rest);
    }
  }

  lemma {:induction false} SetAllIsDisciplined(doc: nat, items: seq<Shape>)
    ensures Disciplined(SetAll(doc, items), None)
    decreases items, 1
  {
    if items != [] {
      PutIsDisciplined(doc, items[0]);
      SetAllIsDisciplined(doc, items[1..]);
      CallFirst(Put(doc, items[0]), SetAll(doc, items[1..]));
    }
  }

  lemma MergeIsDisciplined(doc: nat, other: nat)
    ensures Disciplined(Merge(doc, other), None)
  {
    SimpleIsDisciplined(other);
    var own := [Acquire(doc), Backend(doc), Backend(doc)];
    var two, one := own[1..], own[1..][1..];
    assert two[0] == Backend(doc) && one == [Backend(doc)] && one[1..] == [];
    assert Disciplined(one, Some(doc)) && Disciplined(two, Some(doc));
    CallFirst(Simple(other), own);
    assert Merge(doc, other) == [Invoke(Simple(other))] + own;
  }

  lemma GetIsDisciplined(doc: nat, s: Segment)
    ensures Disciplined(Get(doc, s), None)
  {
    SimpleIsDisciplined(doc);
    CallFirst(Simple(doc), Simple(doc));
  }

  lemma SetterIsDisciplined(doc: nat, s: Segment, v: Shape)
    ensures Disciplined(Setter(doc, s, v), None)
  {
    var len := Invoke(Simple(doc));
    SimpleIsDisciplined(doc);
    PutIsDisciplined(doc, v);
    CallFirst(Put(doc, v), []);
    var put := [Invoke(Put(doc, v))];
    assert put + [] == put;
    CallFirst(Simple(doc), put);
    var last := [Invoke([len] + put)];
    CallFirst([len] + put, []);
    assert last + [] == last;
    CallFirst(Simple(doc), last);
    CallFirst(Simple(doc), [len] + last);
    CallFirst(Simple(doc), [len] + ([len] + last));
    assert [len, Invoke(Put(doc, v))] == [len] + put;
    assert s.IndexSegment? ==> Setter(doc, s, v) == [len] + ([len] + ([len] + last));
  }

  lemma {:induction false} EnsureIsDisciplined(doc: nat, path: seq<Segment>)
    ensures Disciplined(Ensure(doc, path), None)
    decreases |path|, 0
  {
    if path != [] {
      var last := path[|path| - 1];
      EnsureContainerIsDisciplined(doc, path[..|path| - 1]);
      GetIsDisciplined(doc, last);
      CallFirst(Get(doc, last), []);
      assert [Invoke(Get(doc, last))] + [] == [Invoke(Get(doc, last))];
      CallFirst(EnsureContainer(doc, path[..|path| - 1]), [Invoke(Get(doc, last))]);
    }
  }

  lemma {:induction false} EnsureContainerIsDisciplined(doc: nat, path: seq<Segment>)
    ensures Disciplined(EnsureContainer(doc, path), None)
    decreases |path|, 1
  {
    if path != [] {
      var last := path[|path| - 1];
      EnsureIsDisciplined(doc, path);
      SetterIsDisciplined(doc, last, Leaf);
      CallFirst(Setter(doc, last, Leaf), []);
      assert [Invoke(Setter(doc, last, Leaf))] + [] == [Invoke(Setter(doc, last, Leaf))];
      CallFirst(Ensure(doc, path), if last.missing then [Invoke(Setter(doc, last, Leaf))] else []);
    }
  }

  lemma EveryMethodIsDisciplined(a: Api)
    ensures Disciplined(Program(a), None)
  {
    match a
    case ReadApi(doc) => SimpleIsDisciplined(doc);
    case PutApi(doc, v) => PutIsDisciplined(doc, v);
    case BoundPutApi(doc, path, v) =>
      EnsureContainerIsDisciplined(doc, path);
      PutIsDisciplined(doc, v);
      CallFirst(EnsureContainer(doc, path), Put(doc, v));
    case AppendApi(doc, items) => AppendIsDisciplined(doc, items);
    case PathSetApi(doc, path, v) =>
      if path != [] {
        var last := path[|path| - 1];
        EnsureIsDisciplined(doc, path);
        SetterIsDisciplined(doc, last, v);
        CallFirst(Setter(doc, last, v), []);
        assert [Invoke(Setter(doc, last, v))] + [] == [Invoke(Setter(doc, last, v))];
        CallFirst(Ensure(doc, path), [Invoke(Setter(doc, last, v))]);
      }
    case MergeApi(doc, other) => MergeIsDisciplined(doc, other);
  }

  /** Every method, run to the end or left early anywhere, is flat. */
  lemma EveryCallIsFlat(a: Api, run: seq<Stmt>, depth: nat)
    requires Exits(run, Program(a))
    ensures Flat(Acts(run, depth), None)
  {
    EveryMethodIsDisciplined(a);
    ExitsAreDisciplined(run, Program(a), None);
    DisciplinedIsFlat(run, depth);
  }

  /** `runs` are runs of the methods `calls`, one after the other. */
  ghost predicate RunsOf(runs: seq<seq<Stmt>>, calls: seq<Api>) {
    |runs| == |calls| && forall i :: 0 <= i < |runs| ==> Exits(runs[i], Program(calls[i]))
  }

  lemma {:induction false} EveryCallSequenceIsFlat(runs: seq<seq<Stmt>>, calls: seq<Api>)
    requires RunsOf(runs, calls)
    ensures Flat(AllActs(runs), None)
  {
    if runs != [] {
      EveryCallIsFlat(calls[0], runs[0], 0);
      EveryCallSequenceIsFlat(runs[1..], calls[1..]);
      FlatThenFlat(Acts(runs[0], 0), None, AllActs(runs[1..]));
    }
  }

  // ---------------------------------------------------------------- the invariant

  /** What a goroutine holds, and that the rest of its work is flat from there. */
  predicate GoroutineOk(r: Goroutine) {
    (r.held == map[] && Flat(r.acts, None)) ||
    (|r.held| == 1 && exists c :: c in r.held && r.held.Keys == {c} && Flat(r.acts, Some(Held(c, r.held[c]))))
  }

  predicate Owns(s: State, g: nat, d: nat) {
    g in s.gs && exists c :: c in s.gs[g].held && s.gs[g].held[c] == d
  }

  ghost predicate Inv(s: State) {
    && (forall g :: g in s.gs ==> GoroutineOk(s.gs[g]))
    && (forall g, d :: Owns(s, g, d) <==> d in s.owner && s.owner[d] == g)
  }

  lemma StepKeepsGoroutine(s: State, g: nat)
    requires Inv(s) && Enabled(s, g)
    ensures GoroutineOk(Next(s, g).gs[g])
  {
    var r, r' := s.gs[g], Next(s, g).gs[g];
    match r.acts[0]
    case Lock(d, c) =>
      assert r'.held == map[c := d];
      assert c in r'.held && r'.held.Keys == {c};
    case Unlock(c) =>
      if r.held != map[] {
        var e :| e in r.held && r.held.Keys == {e} && Flat(r.acts, Some(Held(e, r.held[e])));
        if e == c { assert r'.held == map[]; }
      }
    case Use(_) =>
  }

  lemma StepKeepsInv(s: State, g: nat)
    requires Inv(s) && Enabled(s, g)
    ensures Inv(Next(s, g))
  {
    var s' := Next(s, g);
    StepKeepsGoroutine(s, g);
    forall h | h in s'.gs ensures GoroutineOk(s'.gs[h]) {
      if h != g { assert s'.gs[h] == s.gs[h]; }
    }
    forall h, d ensures Owns(s', h, d) <==> d in s'.owner && s'.owner[d] == h {
      OwnershipStep(s, g, h, d);
    }
  }

  lemma OwnershipStep(s: State, g: nat, h: nat, d: nat)
    requires Inv(s) && Enabled(s, g)
    ensures Owns(Next(s, g), h, d) <==> d in Next(s, g).owner && Next(s, g).owner[d] == h
  {
    var s', r := Next(s, g), s.gs[g];
    assert Owns(s, h, d) <==> d in s.owner && s.owner[d] == h;
    if h != g {
      assert h in s'.gs ==> s'.gs[h] == s.gs[h];
      assert Owns(s', h, d) <==> Owns(s, h, d);
      match r.acts[0]
      case Lock(_, _) =>
      case Unlock(c) =>
        if c in r.held { assert Owns(s, g, r.held[c]); }
      case Use(_) =>
    } else {
      match r.acts[0]
      case Lock(e, c) =>
        assert s'.gs[g].held[c] == e;
        assert r.held == map[];
      case Unlock(c) =>
        if c in r.held {
          assert r.held.Keys == {c};
          assert s'.gs[g].held == map[];
        } else {
          assert s'.gs[g].held == r.held;
        }
      case Use(_) =>
        assert s'.gs[g].held == r.held;
    }
  }

  lemma {:induction false} RunKeepsInv(s: State, schedule: seq<nat>, s': State)
    requires Inv(s) && Runs(s, schedule, s')
    ensures Inv(s')
    decreases |schedule|
  {
    if schedule != [] {
      StepKeepsInv(s, schedule[0]);
      RunKeepsInv(Next(s, schedule[0]), schedule[1..], s');
    }
  }

  // ---------------------------------------------------------------- no deadlock

  /** Each goroutine runs methods of the API, each to the end or until it returns an error. */
  ghost predicate RunsTheApi(runs: map<nat, seq<seq<Stmt>>>, calls: map<nat, seq<Api>>) {
    runs.Keys == calls.Keys && forall g :: g in runs ==> RunsOf(runs[g], calls[g])
  }

  lemma StartKeepsInv(runs: map<nat, seq<seq<Stmt>>>, calls: map<nat, seq<Api>>)
    requires RunsTheApi(runs, calls)
    ensures Inv(Start(runs))
  {
    forall g | g in runs ensures GoroutineOk(Start(runs).gs[g]) {
      EveryCallSequenceIsFlat(runs[g], calls[g]);
    }
  }

  /** In every state that any schedule of any calls reaches, a goroutine about to lock a document
      holds none, one about to call the module of a document has it locked, and as long as someone has something left to do, someone can do it.  The calls may
      be nested writes, writes through paths, a document merged into itself, or two into each other. */
  lemma NoDeadlock(calls: map<nat, seq<Api>>, runs: map<nat, seq<seq<Stmt>>>, schedule: seq<nat>, s: State)
    requires RunsTheApi(runs, calls) && Runs(Start(runs), schedule, s)
    ensures forall g :: g in s.gs && s.gs[g].acts != [] && s.gs[g].acts[0].Lock? ==> s.gs[g].held == map[]
    ensures forall g :: g in s.gs && s.gs[g].acts != [] && s.gs[g].acts[0].Use? ==>
              s.gs[g].acts[0].doc in s.owner && s.owner[s.gs[g].acts[0].doc] == g
    ensures (exists g :: g in s.gs && s.gs[g].acts != []) ==> exists h :: Enabled(s, h)
    ensures (forall h :: !Enabled(s, h)) ==> s.owner == map[]
  {
    StartKeepsInv(runs, calls);
    RunKeepsInv(Start(runs), schedule, s);
    forall g | g in s.gs && s.gs[g].acts != [] && s.gs[g].acts[0].Use?
      ensures s.gs[g].acts[0].doc in s.owner && s.owner[s.gs[g].acts[0].doc] == g
    {
      var c :| c in s.gs[g].held && s.gs[g].held.Keys == {c} && Flat(s.gs[g].acts, Some(Held(c, s.gs[g].held[c])));
      assert Owns(s, g, s.gs[g].held[c]);
    }
    forall g | g in s.gs && s.gs[g].acts != [] ensures exists h :: Enabled(s, h) {
      if !Enabled(s, g) {
        var h := s.owner[s.gs[g].acts[0].doc];
        assert Owns(s, h, s.gs[g].acts[0].doc);
        assert Enabled(s, h);
      }
    }
    forall d | d in s.owner ensures exists h :: Enabled(s, h) {
      assert Owns(s, s.owner[d], d);
      assert Enabled(s, s.owner[d]);
    }
  }

  function Remaining(gs: map<nat, Goroutine>, order: seq<nat>): nat {
    if order == [] then 0
    else (if order[0] in gs then |gs[order[0]].acts| else 0) + Remaining(gs, order[1..])
  }

  lemma {:induction false} StepDecreases(s: State, g: nat, order: seq<nat>)
    requires Enabled(s, g) && Unrepeated(order)
    ensures Remaining(Next(s, g).gs, order) == Remaining(s.gs, order) - (if g in order then 1 else 0)
  {
    if order != [] { StepDecreases(s, g, order[1..]); }
  }

  /** No schedule is longer than the work there was to begin with.  So every run comes to a state
      in which nobody can move, and by `NoDeadlock` everybody has then finished. */
  lemma {:induction false} EveryRunEnds(s: State, schedule: seq<nat>, s': State, order: seq<nat>)
    requires Runs(s, schedule, s') && Unrepeated(order)
    requires forall g :: g in s.gs <==> g in order
    ensures |schedule| + Remaining(s'.gs, order) == Remaining(s.gs, order)
    decreases |schedule|
  {
    if schedule != [] {
      StepDecreases(s, schedule[0], order);
      EveryRunEnds(Next(s, schedule[0]), schedule[1..], s', order);
    }
  }

  // ---------------------------------------------------------------- the early unlock is needed

  /** The same text without `unlock()`. */
  function WithoutEarlyUnlock(body: seq<Stmt>): seq<Stmt> {
    if body == [] then []
    else (if body[0].EarlyUnlock? then [] else [body[0]]) + WithoutEarlyUnlock(body[1..])
  }

  /** Without it, one goroutine that writes any list, map or text gets stuck for good, with the mutex
      locked by itself. */
  lemma StuckWithoutEarlyUnlock(doc: nat, v: Shape)
    requires !v.Leaf?
    ensures var run := WithoutEarlyUnlock(Put(doc, v));
            exists schedule, s :: Runs(Start(map[0 := [run]]), schedule, s) && 0 in s.gs && s.gs[0].acts != [] && forall h :: !Enabled(s, h)
  {
    var run := WithoutEarlyUnlock(Put(doc, v));
    var s0 := Start(map[0 := [run]]);
    var acts := s0.gs[0].acts;
    LocksTwice(doc, v);
    assert [run][1..] == [] && Acts(run, 0) + [] == Acts(run, 0);
    var s := Next(s0, 0);
    assert s.gs[0].acts[0] == acts[1] && doc in s.owner && s.gs.Keys == {0};
    if v.Text? {
      var t := Next(s, 0);
      assert t.gs[0].acts[0] == acts[2] && t.owner == s.owner && t.gs.Keys == {0};
      assert Runs(t, [], t);
      assert Runs(s, [0], t) by { assert [0][1..] == []; }
      assert Runs(s0, [0, 0], t) by { assert [0, 0][1..] == [0]; }
    } else {
      assert Runs(s, [], s);
      assert Runs(s0, [0], s) by { assert [0][1..] == []; }
    }
  }

  lemma LocksTwice(doc: nat, v: Shape)
    requires !v.Leaf?
    ensures var acts, n := Acts(WithoutEarlyUnlock(Put(doc, v)), 0), if v.Text? then 2 else 1;
            |acts| > n && acts[0] == Lock(doc, 0) && acts[n].Lock? && acts[n].doc == doc && (v.Text? ==> acts[1] == Use(doc))
  {
    var run := WithoutEarlyUnlock(Put(doc, v));
    var inner := Simple(doc);
    assert Straight(inner, 1) == [Lock(doc, 1)] + Straight(inner[1..], 1);
    assert Acts(inner, 1)[0] == Lock(doc, 1);
    StrippedText(doc, v);
    assert Straight(run, 0) == [Lock(doc, 0)] + Straight(run[1..], 0);
    if v.Text? {
      var write := TextSet(doc);
      assert Straight(run[1..], 0) == [Use(doc)] + Straight(run[2..], 0);
      assert Straight(write, 1) == Acts(Simple(doc), 2) + Straight(write[1..], 1);
      assert Straight(Simple(doc), 2) == [Lock(doc, 2)] + Straight(Simple(doc)[1..], 2);
      assert Acts(write, 1)[0] == Lock(doc, 2);
      assert Straight(run[2..], 0) == Acts(write, 1) + Straight(run[3..], 0);
    } else {
      assert Straight(run[1..], 0) == Acts(inner, 1) + Straight(run[2..], 0);
    }
  }

  /** What is left of the text: the lock is still held at the first call. */
  lemma StrippedText(doc: nat, v: Shape)
    requires !v.Leaf?
    ensures var run := WithoutEarlyUnlock(Put(doc, v));
            if v.Text? then |run| == 3 && run[0] == Acquire(doc) && run[1] == Backend(doc) && run[2] == Invoke(TextSet(doc))
            else |run| >= 2 && run[0] == Acquire(doc) && run[1] == Invoke(Simple(doc))
  {
    var b := Put(doc, v);
    assert WithoutEarlyUnlock(b) == [Acquire(doc)] + WithoutEarlyUnlock(b[1..]);
    if v.Text? {
      assert WithoutEarlyUnlock(b[1..]) == [Backend(doc)] + WithoutEarlyUnlock(b[1..][1..]);
      assert b[1..][1..] == b[2..] && b[2..][1..] == b[3..] && b[3..][1..] == [];
      assert WithoutEarlyUnlock(b[2..]) == [] + WithoutEarlyUnlock(b[3..]);
      assert WithoutEarlyUnlock(b[3..]) == [Invoke(TextSet(doc))] + WithoutEarlyUnlock([]);
    } else {
      assert b[1..][1..] == b[2..] && b[2] == Invoke(Simple(doc));
      assert WithoutEarlyUnlock(b[1..]) == [] + WithoutEarlyUnlock(b[2..]);
      assert WithoutEarlyUnlock(b[2..]) == [b[2]] + WithoutEarlyUnlock(b[2..][1..]);
    }
  }

  // ---------------------------------------------------------------- no call is left out

  /** The calls into the module that a method makes, with the methods it calls. */
  function BackendCalls(body: seq<Stmt>): nat {
    if body == [] then 0
    else
      (match body[0]
       case Backend(_) => 1
       case Invoke(inner) => BackendCalls(inner)
       case _ => 0) + BackendCalls(body[1..])
  }

  /** Scalars, texts, lists and maps of a value, at every depth. */
  function Nodes(v: Shape): nat
    decreases v, 0
  {
    match v
    case Leaf => 1
    case Text => 1
    case ListOf(items) => 1 + AllNodes(items)
    case MapOf(items) => 1 + AllNodes(items)
  }

  function AllNodes(items: seq<Shape>): nat
    decreases items, 1
  {
    if items == [] then 0 else Nodes(items[0]) + AllNodes(items[1..])
  }

  /** Further calls: two for each text, to measure and to splice, and one for the length before each
      item of a list. */
  function Extra(v: Shape): nat
    decreases v, 0
  {
    match v
    case Leaf => 0
    case Text => 2
    case ListOf(items) => |items| + AllExtra(items)
    case MapOf(items) => AllExtra(items)
  }

  function AllExtra(items: seq<Shape>): nat
    decreases items, 1
  {
    if items == [] then 0 else Extra(items[0]) + AllExtra(items[1..])
  }

  lemma {:induction false} CallsAdd(a: seq<Stmt>, b: seq<Stmt>)
    ensures BackendCalls(a + b) == BackendCalls(a) + BackendCalls(b)
  {
    if a == [] {
      assert a + b == b;
    } else {
      assert (a + b)[1..] == a[1..] + b;
      CallsAdd(a[1..], b);
    }
  }

  lemma CallsOfCall(inner: seq<Stmt>)
    ensures BackendCalls([Invoke(inner)]) == BackendCalls(inner)
  {
    assert [Invoke(inner)][1..] == [];
  }

  lemma CallsOfSimple(doc: nat)
    ensures BackendCalls(Simple(doc)) == 1
  {
    var b := Simple(doc);
    assert b[1..] == [Backend(doc)] && [Backend(doc)][1..] == [];
    assert BackendCalls([Backend(doc)]) == 1;
  }

  /** Writing a value creates or writes each of its parts with one call into the module. */
  lemma {:induction false} PutMakesEveryCall(doc: nat, v: Shape)
    ensures BackendCalls(Put(doc, v)) == Nodes(v) + Extra(v)
    decreases v, 0
  {
    var one := Invoke(Simple(doc));
    CallsOfSimple(doc);
    CallsOfCall(Simple(doc));
    match v
    case Leaf =>
      assert Put(doc, v) == Simple(doc);
    case Text =>
      assert TextSet(doc) == [one] + [one];
      CallsAdd([one], [one]);
      CallsOfCall(TextSet(doc));
      assert Put(doc, v) == Simple(doc) + ([EarlyUnlock] + [Invoke(TextSet(doc))]);
      CallsAdd(Simple(doc), [EarlyUnlock] + [Invoke(TextSet(doc))]);
      NoCall(EarlyUnlock, [Invoke(TextSet(doc))]);
    case ListOf(items) =>
      AppendMakesEveryCall(doc, items);
      CallsOfCall(AppendAll(doc, items));
      var rest := [one] + [Invoke(AppendAll(doc, items))];
      CallsAdd([one], [Invoke(AppendAll(doc, items))]);
      NoCall(EarlyUnlock, rest);
      NoCall(Acquire(doc), [EarlyUnlock] + rest);
      assert Put(doc, v) == [Acquire(doc)] + ([EarlyUnlock] + rest);
    case MapOf(items) =>
      SetAllMakesEveryCall(doc, items);
      var rest := [one] + SetAll(doc, items);
      CallsAdd([one], SetAll(doc, items));
      NoCall(EarlyUnlock, rest);
      NoCall(Acquire(doc), [EarlyUnlock] + rest);
      assert Put(doc, v) == [Acquire(doc)] + ([EarlyUnlock] + rest);
  }

  lemma NoCall(x: Stmt, rest: seq<Stmt>)
    requires x.Acquire? || x.EarlyUnlock?
    ensures BackendCalls([x] + rest) == BackendCalls(rest)
  {
    assert ([x] + rest)[1..] == rest;
  }

  lemma {:induction false} AppendMakesEveryCall(doc: nat, items: seq<Shape>)
    ensures BackendCalls(AppendAll(doc, items)) == |items| + AllNodes(items) + AllExtra(items)
    decreases items, 1
  {
    if items != [] {
      var one, put, rest := [Invoke(Simple(doc))], [Invoke(Put(doc, items[0]))], AppendAll(doc, items[1..]);
      PutMakesEveryCall(doc, items[0]);
      AppendMakesEveryCall(doc, items[1..]);
      CallsOfSimple(doc);
      CallsOfCall(Simple(doc));
      CallsOfCall(Put(doc, items[0]));
      CallsAdd(one, put + rest);
      CallsAdd(put, rest);
      assert AppendAll(doc, items) == one + (put + rest);
    }
  }

  lemma {:induction false} SetAllMakesEveryCall(doc: nat, items: seq<Shape>)
    ensures BackendCalls(SetAll(doc, items)) == AllNodes(items) + AllExtra(items)
    decreases items, 1
  {
    if items != [] {
      PutMakesEveryCall(doc, items[0]);
      SetAllMakesEveryCall(doc, items[1..]);
      CallsOfCall(Put(doc, items[0]));
      CallsAdd([Invoke(Put(doc, items[0]))], SetAll(doc, items[1..]));
    }
  }

  /** Doc.Merge: the other document is locked, saved and unlocked before this one is locked, merged into
      and asked for its heads; so it works for a document with itself. */
  lemma MergeTrace(doc: nat, other: nat)
    ensures Acts(Merge(doc, other), 0) == [Lock(other, 1), Use(other), Unlock(1), Lock(doc, 0), Use(doc), Use(doc), Unlock(0)]
  {
    SimpleTrace(other, 1);
    var own := [Acquire(doc), Backend(doc), Backend(doc)];
    assert own[1..] == [Backend(doc), Backend(doc)] && own[1..][1..] == [Backend(doc)] && own[1..][1..][1..] == [];
    assert Straight([Backend(doc)], 0) == [Use(doc)] && Deferred([Backend(doc)], 0) == [];
    assert Straight(own[1..], 0) == [Use(doc), Use(doc)] && Deferred(own[1..], 0) == [];
    assert Straight(own, 0) == [Lock(doc, 0), Use(doc), Use(doc)] && Deferred(own, 0) == [Unlock(0)];
    var m := Merge(doc, other);
    assert m[0] == Invoke(Simple(other)) && m[1..] == own;
  }

  lemma SimpleTrace(doc: nat, depth: nat)
    ensures Acts(Simple(doc), depth) == [Lock(doc, depth), Use(doc), Unlock(depth)]
  {
    var b := Simple(doc);
    assert b[1..] == [Backend(doc)] && b[1..][1..] == [];
    assert Straight(b[1..], depth) == [Use(doc)] && Deferred(b[1..], depth) == [];
    assert Straight(b, depth) == [Lock(doc, depth), Use(doc)] && Deferred(b, depth) == [Unlock(depth)];
  }
}
