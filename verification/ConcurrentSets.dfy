/** Goroutines that set values through paths at the same time (path.go).

    `ensureMap` reads an entry, and creates a map there if it found nothing, in two separately locked
    steps; then the next entry is read, and so on, until the value is written.  In between, others
    may replace a map that was already passed.  The paths here consist of keys, the values are
    scalars; the final read of the entry that is about to be written changes nothing and is left out.
  */
module ConcurrentSets {
  import opened Words
  import opened GoValues
  import opened Stores
  import Paths

  datatype PC = Looking | Missing | Done | Failed

  /** A call of Path.Set: `trail` are the maps that it has passed, from the root on. */
  datatype Setter = Setter(path: seq<GoString>, value: Scalar, trail: seq<nat>, pc: PC)

  /** An entry of a map, by the map's id. */
  datatype Entry = Entry(h: nat, key: GoString)

  /** `author` says who wrote an entry last, `home` where an object was created. */
  datatype State = State(store: Store, author: map<Entry, nat>, home: map<nat, Entry>, setters: map<nat, Setter>)

  datatype Step = Look(w: nat) | Create(w: nat) | Put(w: nat)

  predicate OnTrail(r: Setter) {
    0 < |r.trail| <= |r.path|
  }

  /** The entry that the setter is about to read or write; after it is done, the one it wrote. */
  function Here(r: Setter): Entry
    requires OnTrail(r)
  {
    Entry(r.trail[|r.trail| - 1], r.path[|r.trail| - 1])
  }

  predicate Enabled(s: State, a: Step) {
    a.w in s.setters &&
    var r := s.setters[a.w];
    OnTrail(r) &&
    match a
    case Look(_) => r.pc.Looking? && |r.trail| < |r.path|
    case Create(_) => r.pc.Missing? && |r.trail| < |r.path|
    case Put(_) => r.pc.Looking? && |r.trail| == |r.path|
  }

  function Found(s: State, r: Setter): Found
    requires OnTrail(r)
  {
    StepInto(s.store, At(Ref(Here(r).h)), Key(Here(r).key))
  }

  /** What a step writes. */
  function Written(s: State, a: Step): Option<Store>
    requires Enabled(s, a)
  {
    var r := s.setters[a.w];
    match a
    case Look(_) => None
    case Create(_) => MapPut(s.store, Here(r).h, Here(r).key, PutNew(MapKind))
    case Put(_) => MapPut(s.store, Here(r).h, Here(r).key, PutScalar(r.value))
  }

  /** The setter after its step. */
  function Moved(s: State, a: Step): Setter
    requires Enabled(s, a)
  {
    var r := s.setters[a.w];
    match a
    case Look(_) =>
      var f := Found(s, r);
      if f.Void? then r.(pc := Missing)
      else if f.At? && f.slot.Ref? && HasMap(s.store, f.slot.id) then r.(trail := r.trail + [f.slot.id])
      else r.(pc := Failed)
    case Create(_) =>
      if Written(s, a).Some? then r.(trail := r.trail + [s.store.next], pc := Looking) else r.(pc := Failed)
    case Put(_) => r.(pc := if Written(s, a).Some? then Done else Failed)
  }

  function Next(s: State, a: Step): State
    requires Enabled(s, a)
  {
    var here, setters := Here(s.setters[a.w]), s.setters[a.w := Moved(s, a)];
    if Written(s, a).None? then s.(setters := setters)
    else
      State(Written(s, a).value, s.author[here := a.w],
            if a.Create? then s.home[s.store.next := here] else s.home, setters)
  }

  ghost predicate Runs(s: State, schedule: seq<Step>, s': State)
    decreases |schedule|
  {
    if schedule == [] then s' == s
    else Enabled(s, schedule[0]) && Runs(Next(s, schedule[0]), schedule[1..], s')
  }

  // ---------------------------------------------------------------- the invariant

  /** An object that was created in an entry of a map is only ever found there, one that was created in
      a list only in a list. */
  ghost predicate AtHome(s: State) {
    HomeOf(s.store, s.home)
  }

  ghost predicate HomeOf(st: Store, home: map<nat, Entry>) {
    && (forall h, k, id :: h in st.objs && SlotAt(st.objs[h], Key(k)) == Some(Ref(id))
                           ==> id in home && home[id] == Entry(h, k))
    && (forall h, i, id :: h in st.objs && SlotAt(st.objs[h], Index(i)) == Some(Ref(id)) ==> id !in home)
  }

  /** The maps on a trail exist, each created in the one before it, under the key of the path. */
  ghost predicate TrailOk(s: State, r: Setter) {
    && OnTrail(r) && r.trail[0] == ROOT
    && (forall i :: 0 <= i < |r.trail| ==> HasMap(s.store, r.trail[i]))
    && (forall i :: 0 <= i < |r.trail| - 1 ==> LinkOk(s, r, i))
    && (forall i, j :: 0 <= i < j < |r.trail| ==> r.trail[i] < r.trail[j])
  }

  ghost predicate LinkOk(s: State, r: Setter, i: nat)
    requires i + 1 < |r.trail| <= |r.path|
  {
    var id := r.trail[i + 1];
    ValidKey(r.path[i]) && id in s.home && s.home[id] == Entry(r.trail[i], r.path[i])
  }

  /** Once done, the entry was written; if by nobody else since, it holds the value. */
  ghost predicate DoneOk(s: State, g: nat, r: Setter)
    requires OnTrail(r)
  {
    r.pc.Done? ==>
      |r.trail| == |r.path| && ValidKey(Here(r).key) && Here(r) in s.author &&
      (s.author[Here(r)] == g ==> HasMap(s.store, Here(r).h) && SlotAt(s.store.objs[Here(r).h], Key(Here(r).key)) == Some(Val(r.value)))
  }

  ghost predicate Inv(s: State) {
    && Tree(s.store) && AtHome(s)
    && (forall g :: g in s.setters ==> TrailOk(s, s.setters[g]) && DoneOk(s, g, s.setters[g]))
  }

  /** Any document, and any number of calls that are about to start. */
  ghost predicate Init(s: State) {
    && Tree(s.store) && AtHome(s)
    && (forall g :: g in s.setters ==> s.setters[g].path != [] && s.setters[g].trail == [ROOT] && s.setters[g].pc.Looking?)
  }

  /** Every document has such a record of homes, so every document can be the one to begin with. */
  lemma HomesExist(st: Store) returns (home: map<nat, Entry>)
    requires Tree(st)
    ensures HomeOf(st, home)
  {
    home := map id | id in st.objs && InMap(st, id) :: HomeEntry(st, id);
    forall h, k, id | h in st.objs && SlotAt(st.objs[h], Key(k)) == Some(Ref(id))
      ensures id in home && home[id] == Entry(h, k)
    {
      assert ChildAbove(st, h, Key(k));
      var e := HomeEntry(st, id);
      assert OneParent(st, h, Key(k), e.h, Key(e.key));
    }
    forall h, i, id | h in st.objs && SlotAt(st.objs[h], Index(i)) == Some(Ref(id)) ensures id !in home {
      NotInBoth(st, h, i, id);
    }
  }

  lemma NotInBoth(st: Store, h: nat, i: int, id: nat)
    requires Tree(st) && h in st.objs && SlotAt(st.objs[h], Index(i)) == Some(Ref(id))
    ensures !InMap(st, id)
  {
    if InMap(st, id) {
      var e := HomeEntry(st, id);
      InOneSlot(st, h, Index(i), e.h, Key(e.key));
    }
  }

  lemma InOneSlot(st: Store, h: nat, x: Segment, h': nat, x': Segment)
    requires Tree(st) && h in st.objs && h' in st.objs
    ensures OneParent(st, h, x, h', x')
  {}

  ghost predicate InMap(st: Store, id: nat) {
    exists h, k :: h in st.objs && SlotAt(st.objs[h], Key(k)) == Some(Ref(id))
  }

  ghost function HomeEntry(st: Store, id: nat): (e: Entry)
    requires InMap(st, id)
    ensures e.h in st.objs && SlotAt(st.objs[e.h], Key(e.key)) == Some(Ref(id))
  {
    var h, k :| h in st.objs && SlotAt(st.objs[h], Key(k)) == Some(Ref(id));
    Entry(h, k)
  }

  lemma InitIsInv(s: State)
    requires Init(s)
    ensures Inv(s)
  {}

  /** The effect of a write on the store. */
  lemma WriteEffect(s: State, a: Step)
    requires Inv(s) && Enabled(s, a) && Written(s, a).Some?
    ensures var st', here := Written(s, a).value, Here(s.setters[a.w]);
            Tree(st') && OnlySlot(s.store, st', here.h, Key(here.key)) && HasMap(st', here.h) && ValidKey(here.key)
            && s.store.next !in s.store.objs
            && SlotAt(st'.objs[here.h], Key(here.key)) ==
               Some(if a.Create? then Ref(s.store.next) else Val(s.setters[a.w].value))
            && (a.Create? ==> HasMap(st', s.store.next) && st'.objs[s.store.next] == MapObj(map[]))
            && (forall g :: g in st'.objs ==> g in s.store.objs || (a.Create? && g == s.store.next))
  {
    var st', r := Written(s, a).value, s.setters[a.w];
    var here := Here(r);
    var p := if a.Create? then PutNew(MapKind) else PutScalar(r.value);
    ApplyKeepsTree(s.store, OpMapPut(here.h, here.key, p));
    forall t | t != Key(here.key) ensures SlotAt(st'.objs[here.h], t) == SlotAt(s.store.objs[here.h], t) {}
  }

  lemma StepKeepsHome(s: State, a: Step, s': State)
    requires Inv(s) && Enabled(s, a) && s' == Next(s, a)
    ensures AtHome(s')
  {
    if Written(s, a).None? {
      SameHomes(s, s');
    } else {
      AllKeysStayHome(s, a, s');
      AllItemsStayHome(s, a, s');
    }
  }

  lemma SameHomes(s: State, s': State)
    requires AtHome(s) && s'.store == s.store && s'.home == s.home
    ensures AtHome(s')
  {}

  lemma AllKeysStayHome(s: State, a: Step, s': State)
    requires Inv(s) && Enabled(s, a) && Written(s, a).Some? && s' == Next(s, a)
    ensures forall h, k, id :: h in s'.store.objs && SlotAt(s'.store.objs[h], Key(k)) == Some(Ref(id))
                               ==> id in s'.home && s'.home[id] == Entry(h, k)
  {
    forall h, k, id { KeyStaysHome(s, a, s', h, k, id); }
  }

  lemma AllItemsStayHome(s: State, a: Step, s': State)
    requires Inv(s) && Enabled(s, a) && Written(s, a).Some? && s' == Next(s, a)
    ensures forall h, i, id :: h in s'.store.objs && SlotAt(s'.store.objs[h], Index(i)) == Some(Ref(id)) ==> id !in s'.home
  {
    forall h, i, id { ItemStaysHome(s, a, s', h, i, id); }
  }

  lemma KeyStaysHome(s: State, a: Step, s': State, h: nat, k: GoString, id: nat)
    requires Inv(s) && Enabled(s, a) && Written(s, a).Some? && s' == Next(s, a)
    ensures h in s'.store.objs && SlotAt(s'.store.objs[h], Key(k)) == Some(Ref(id)) ==> id in s'.home && s'.home[id] == Entry(h, k)
  {
    if h in s'.store.objs && SlotAt(s'.store.objs[h], Key(k)) == Some(Ref(id)) { KeysStayHome(s, a, h, k, id); }
  }

  lemma ItemStaysHome(s: State, a: Step, s': State, h: nat, i: int, id: nat)
    requires Inv(s) && Enabled(s, a) && Written(s, a).Some? && s' == Next(s, a)
    ensures h in s'.store.objs && SlotAt(s'.store.objs[h], Index(i)) == Some(Ref(id)) ==> id !in s'.home
  {
    if h in s'.store.objs && SlotAt(s'.store.objs[h], Index(i)) == Some(Ref(id)) { ItemsStayHome(s, a, h, i, id); }
  }

  lemma KeysStayHome(s: State, a: Step, h: nat, k: GoString, id: nat)
    requires Inv(s) && Enabled(s, a) && Written(s, a).Some?
    requires h in Next(s, a).store.objs && SlotAt(Next(s, a).store.objs[h], Key(k)) == Some(Ref(id))
    ensures id in Next(s, a).home && Next(s, a).home[id] == Entry(h, k)
  {
    WriteEffect(s, a);
    var s', here := Next(s, a), Here(s.setters[a.w]);
    if Entry(h, k) != here && h in s.store.objs {
      assert SlotAt(s'.store.objs[h], Key(k)) == SlotAt(s.store.objs[h], Key(k));
      assert ChildAbove(s.store, h, Key(k));
    }
  }

  lemma ItemsStayHome(s: State, a: Step, h: nat, i: int, id: nat)
    requires Inv(s) && Enabled(s, a) && Written(s, a).Some?
    requires h in Next(s, a).store.objs && SlotAt(Next(s, a).store.objs[h], Index(i)) == Some(Ref(id))
    ensures id !in Next(s, a).home
  {
    WriteEffect(s, a);
    assert h in s.store.objs && SlotAt(s.store.objs[h], Index(i)) == Some(Ref(id));
    assert ChildAbove(s.store, h, Index(i));
  }

  /** Others' trails are not touched; neither is the part of its own that a setter has behind it. */
  lemma TrailStays(s: State, a: Step, r: Setter)
    requires Inv(s) && Enabled(s, a) && TrailOk(s, r)
    ensures TrailOk(Next(s, a), r)
  {
    if Written(s, a).Some? { WriteEffect(s, a); }
    var s' := Next(s, a);
    forall i | 0 <= i < |r.trail| ensures HasMap(s'.store, r.trail[i]) {}
    forall i | 0 <= i < |r.trail| - 1 ensures LinkOk(s', r, i) {
      assert LinkOk(s, r, i) && HasMap(s.store, r.trail[i + 1]);
    }
  }

  lemma TrailGrows(s: State, a: Step)
    requires Inv(s) && Enabled(s, a)
    ensures TrailOk(Next(s, a), Moved(s, a))
  {
    var r, r', s' := s.setters[a.w], Moved(s, a), Next(s, a);
    TrailStays(s, a, r);
    if r'.trail == r.trail {
      SameTrail(s', r, r');
    } else {
      var here, id := Here(r), r'.trail[|r.trail|];
      if Written(s, a).Some? { WriteEffect(s, a); }
      if a.Look? { assert ChildAbove(s.store, here.h, Key(here.key)); }
      assert HasMap(s'.store, id) && here.h < id && ValidKey(here.key);
      assert id in s'.home && s'.home[id] == here;
      LongerTrail(s', r, r', id);
    }
  }

  lemma SameTrail(s: State, r: Setter, r': Setter)
    requires TrailOk(s, r) && r'.trail == r.trail && r'.path == r.path
    ensures TrailOk(s, r')
  {
    forall i | 0 <= i < |r'.trail| - 1 ensures LinkOk(s, r', i) { assert LinkOk(s, r, i); }
  }

  lemma LongerTrail(s: State, r: Setter, r': Setter, id: nat)
    requires TrailOk(s, r) && r'.trail == r.trail + [id] && r'.path == r.path && |r.trail| < |r.path|
    requires HasMap(s.store, id) && Here(r).h < id && ValidKey(Here(r).key) && id in s.home && s.home[id] == Here(r)
    ensures TrailOk(s, r')
  {
    var n := |r.trail|;
    forall i | 0 <= i < |r'.trail| ensures HasMap(s.store, r'.trail[i]) {
      if i < n { assert r'.trail[i] == r.trail[i]; }
    }
    forall i | 0 <= i < |r'.trail| - 1 ensures LinkOk(s, r', i) {
      if i < n - 1 { assert LinkOk(s, r, i); }
    }
    forall i, j | 0 <= i < j < |r'.trail| ensures r'.trail[i] < r'.trail[j] {
      if j == n { assert r.trail[i] <= r.trail[n - 1]; }
    }
  }

  lemma StepKeepsDone(s: State, a: Step, g: nat)
    requires Inv(s) && Enabled(s, a) && g in s.setters
    ensures var s' := Next(s, a); OnTrail(s'.setters[g]) && DoneOk(s', g, s'.setters[g])
  {
    var s', r := Next(s, a), s.setters[g];
    TrailGrows(s, a);
    if Written(s, a).Some? {
      WriteEffect(s, a);
      if g != a.w && r.pc.Done? && Here(r) != Here(s.setters[a.w]) && s.author[Here(r)] == g {
        assert SlotAt(s'.store.objs[Here(r).h], Key(Here(r).key)) == SlotAt(s.store.objs[Here(r).h], Key(Here(r).key));
      }
    }
  }

  lemma StepKeepsInv(s: State, a: Step)
    requires Inv(s) && Enabled(s, a)
    ensures Inv(Next(s, a))
  {
    var s' := Next(s, a);
    StepKeepsHome(s, a, s');
    if Written(s, a).Some? { WriteEffect(s, a); }
    forall g | g in s'.setters ensures TrailOk(s', s'.setters[g]) && DoneOk(s', g, s'.setters[g]) {
      if g == a.w { TrailGrows(s, a); } else { TrailStays(s, a, s.setters[g]); }
      StepKeepsDone(s, a, g);
    }
  }

  // ---------------------------------------------------------------- what keeps a write readable

  ghost predicate Linked(s: State, r: Setter, i: nat)
    requires i + 1 < |r.trail| <= |r.path|
  {
    HasMap(s.store, r.trail[i]) && SlotAt(s.store.objs[r.trail[i]], Key(r.path[i])) == Some(Ref(r.trail[i + 1]))
  }

  /** The trail is still what the path leads along, and once done, nobody else wrote the entry. */
  ghost predicate Holds(s: State, g: nat)
    requires g in s.setters && OnTrail(s.setters[g])
  {
    var r := s.setters[g];
    (forall i :: 0 <= i < |r.trail| - 1 ==> Linked(s, r, i)) &&
    (r.pc.Done? ==> Here(r) in s.author && s.author[Here(r)] == g)
  }

  /** The step writes an entry that another setter has passed, or has written as its last. */
  ghost predicate Disturbs(s: State, a: Step, g: nat)
    requires Enabled(s, a) && g in s.setters && OnTrail(s.setters[g])
  {
    var r, here := s.setters[g], Here(s.setters[a.w]);
    a.w != g && Written(s, a).Some? &&
    ((exists i :: 0 <= i < |r.trail| - 1 && here == Entry(r.trail[i], r.path[i])) || (r.pc.Done? && here == Here(r)))
  }

  lemma OtherStep(s: State, a: Step, g: nat)
    requires Inv(s) && Enabled(s, a) && g in s.setters && a.w != g
    ensures OnTrail(Next(s, a).setters[g])
    ensures Holds(Next(s, a), g) <==> Holds(s, g) && !Disturbs(s, a, g)
  {
    var s', r, here := Next(s, a), s.setters[g], Here(s.setters[a.w]);
    if Written(s, a).None? {
      forall i | 0 <= i < |r.trail| - 1 ensures Linked(s', r, i) <==> Linked(s, r, i) {}
    } else {
      WriteEffect(s, a);
      forall i | 0 <= i < |r.trail| - 1
        ensures Linked(s', r, i) <==> Linked(s, r, i) && here != Entry(r.trail[i], r.path[i])
      {
        assert HasMap(s.store, r.trail[i]) && HasMap(s.store, r.trail[i + 1]);
      }
    }
  }

  lemma OwnStep(s: State, a: Step)
    requires Inv(s) && Enabled(s, a)
    ensures OnTrail(Next(s, a).setters[a.w])
    ensures Holds(Next(s, a), a.w) <==> Holds(s, a.w)
  {
    var s', r, r' := Next(s, a), s.setters[a.w], Moved(s, a);
    TrailGrows(s, a);
    if Written(s, a).Some? { WriteEffect(s, a); }
    var n := |r.trail|;
    forall i | 0 <= i < n - 1 ensures Linked(s', r', i) <==> Linked(s, r, i) {
      assert r.trail[i] < r.trail[n - 1] && r'.trail[i] == r.trail[i] && r'.trail[i + 1] == r.trail[i + 1];
      assert HasMap(s.store, r.trail[i]);
    }
    if |r'.trail| > n { assert Linked(s', r', n - 1); }
    if Holds(s, a.w) {
      forall i | 0 <= i < |r'.trail| - 1 ensures Linked(s', r', i) {}
    }
    if Holds(s', a.w) {
      forall i | 0 <= i < n - 1 ensures Linked(s, r, i) { assert Linked(s', r', i); }
    }
  }

  /** No step of the schedule disturbs `g`. */
  ghost predicate Undisturbed(s: State, schedule: seq<Step>, g: nat)
    requires Inv(s) && g in s.setters
    decreases |schedule|
  {
    schedule == [] ||
    (Enabled(s, schedule[0]) && !Disturbs(s, schedule[0], g) &&
     (StepKeepsInv(s, schedule[0]); Undisturbed(Next(s, schedule[0]), schedule[1..], g)))
  }

  lemma {:induction false} HoldsExactly(s: State, schedule: seq<Step>, s': State, g: nat)
    requires Inv(s) && Runs(s, schedule, s') && g in s.setters
    ensures Inv(s') && g in s'.setters
    ensures Holds(s', g) <==> Holds(s, g) && Undisturbed(s, schedule, g)
    decreases |schedule|
  {
    if schedule != [] {
      var a := schedule[0];
      StepKeepsInv(s, a);
      if a.w == g { OwnStep(s, a); } else { OtherStep(s, a, g); }
      HoldsExactly(Next(s, a), schedule[1..], s', g);
    }
  }

  // ---------------------------------------------------------------- what the path reads

  function Keys(path: seq<GoString>): Path {
    seq(|path|, i requires 0 <= i < |path| => Key(path[i]))
  }

  /** One more step along the trail: the path gets to the next map exactly if it got to the one before
      and the link is there, since the next map is nowhere but at home. */
  lemma LeadsOn(s: State, r: Setter, p: Path, n: nat)
    requires Tree(s.store) && AtHome(s) && TrailOk(s, r) && 0 < n < |r.trail|
    requires p != [] && Last(p) == Key(r.path[n - 1])
    ensures Lookup(s.store, p) == At(Ref(r.trail[n])) <==>
            Lookup(s.store, Parent(p)) == At(Ref(r.trail[n - 1])) && Linked(s, r, n - 1)
  {
    assert LinkOk(s, r, n - 1) && HasMap(s.store, r.trail[n - 1]);
    LookupInStore(s.store, Parent(p));
    if Lookup(s.store, p) == At(Ref(r.trail[n])) {
      var h := Lookup(s.store, Parent(p)).slot.id;
      assert h in s.store.objs && SlotAt(s.store.objs[h], Key(r.path[n - 1])) == Some(Ref(r.trail[n]));
      assert s.home[r.trail[n]] == Entry(h, r.path[n - 1]);
    }
  }

  /** The path leads along the trail exactly if all links are there. */
  lemma {:induction false} LeadsAlong(s: State, r: Setter, n: nat)
    requires Tree(s.store) && AtHome(s) && TrailOk(s, r) && n < |r.trail|
    ensures Lookup(s.store, Keys(r.path[..n])) == At(Ref(r.trail[n])) <==> forall i :: 0 <= i < n ==> Linked(s, r, i)
  {
    if n > 0 {
      var p := Keys(r.path[..n]);
      assert Parent(p) == Keys(r.path[..n - 1]) && Last(p) == Key(r.path[n - 1]);
      LeadsAlong(s, r, n - 1);
      LeadsOn(s, r, p, n);
      assert (forall i :: 0 <= i < n ==> Linked(s, r, i)) <==> (forall i :: 0 <= i < n - 1 ==> Linked(s, r, i)) && Linked(s, r, n - 1);
    }
  }

  /** The path leads to the map that `g` wrote to, and `g` was the last to write the entry. */
  ghost predicate ReadsOwnWrite(s: State, g: nat)
    requires g in s.setters && OnTrail(s.setters[g]) && |s.setters[g].trail| == |s.setters[g].path|
  {
    var r := s.setters[g];
    Lookup(s.store, Keys(r.path[..|r.path| - 1])) == At(Ref(Here(r).h)) && Here(r) in s.author && s.author[Here(r)] == g
  }

  /** Over every interleaving of any number of calls on any document: a call that succeeded is what
      its path reads exactly if, since it passed them, no other call has written an entry on its
      trail, nor, since it was done, its last entry.  It then reads back its value. */
  lemma SetReadsBackExactly(s: State, schedule: seq<Step>, s': State, g: nat)
    requires Init(s) && Runs(s, schedule, s') && g in s.setters
    requires g in s'.setters && s'.setters[g].pc.Done?
    ensures Inv(s) && OnTrail(s'.setters[g]) && |s'.setters[g].trail| == |s'.setters[g].path|
    ensures ReadsOwnWrite(s', g) <==> Undisturbed(s, schedule, g)
    ensures ReadsOwnWrite(s', g) ==> Lookup(s'.store, Keys(s'.setters[g].path)) == At(Val(s'.setters[g].value))
  {
    InitIsInv(s);
    HoldsExactly(s, schedule, s', g);
    assert Holds(s, g);
    HoldsIsRead(s', g);
  }

  lemma HoldsIsRead(s: State, g: nat)
    requires Inv(s) && g in s.setters && s.setters[g].pc.Done?
    ensures OnTrail(s.setters[g]) && |s.setters[g].trail| == |s.setters[g].path|
    ensures ReadsOwnWrite(s, g) <==> Holds(s, g)
    ensures ReadsOwnWrite(s, g) ==> Lookup(s.store, Keys(s.setters[g].path)) == At(Val(s.setters[g].value))
  {
    var r := s.setters[g];
    var n := |r.path| - 1;
    assert TrailOk(s, r) && DoneOk(s, g, r);
    LeadsAlong(s, r, n);
    assert Parent(Keys(r.path)) == Keys(r.path[..n]) && Last(Keys(r.path)) == Key(r.path[n]);
  }

  // ---------------------------------------------------------------- what is left alone

  /** The entry is one that the path goes through, or its last. */
  ghost predicate OnWay(st: Store, q: Path, e: Entry) {
    exists i :: 0 <= i < |q| && Lookup(st, q[..i]) == At(Ref(e.h)) && q[i] == Key(e.key)
  }

  lemma PrefixOnWay(st: Store, q: Path, n: nat, e: Entry)
    requires n <= |q| && OnWay(st, q[..n], e)
    ensures OnWay(st, q, e)
  {
    var p := q[..n];
    var i :| 0 <= i < |p| && Lookup(st, p[..i]) == At(Ref(e.h)) && p[i] == Key(e.key);
    assert q[..i] == p[..i] && q[i] == p[i];
  }

  /** A write to an entry that is not on its way leaves a path alone. */
  lemma {:induction false} LookupAvoids(st: Store, st': Store, e: Entry, q: Path)
    requires Tree(st) && OnlySlot(st, st', e.h, Key(e.key)) && Lookup(st, q).At? && !OnWay(st, q, e)
    ensures Lookup(st', q) == Lookup(st, q)
  {
    if q != [] {
      var p := Parent(q);
      assert q == p + [Last(q)];
      if OnWay(st, p, e) { PrefixOnWay(st, q, |q| - 1, e); }
      LookupAvoids(st, st', e, p);
      LookupInStore(st, p);
      var h := Lookup(st, p).slot.id;
      if h == e.h {
        assert q[..|q| - 1] == p;
        assert Last(q) != Key(e.key);
      }
    }
  }

  lemma FoundByKey(s: State, h: nat, x: Segment, id: nat)
    requires AtHome(s) && h in s.store.objs && SlotAt(s.store.objs[h], x) == Some(Ref(id)) && id in s.home
    ensures x.Key?
  {}

  /** A path that leads to a map of a trail is the path that the setter went. */
  lemma {:induction false} SameWay(s: State, r: Setter, n: nat, p: Path)
    requires Tree(s.store) && AtHome(s) && TrailOk(s, r) && n < |r.trail| && Lookup(s.store, p) == At(Ref(r.trail[n]))
    ensures p == Keys(r.path[..n])
  {
    if p != [] { NotRoot(s.store, p); }
    if n > 0 {
      assert LinkOk(s, r, n - 1) && r.trail[0] < r.trail[n];
      var h := Lookup(s.store, Parent(p)).slot.id;
      assert SlotAt(s.store.objs[h], Last(p)) == Some(Ref(r.trail[n]));
      FoundByKey(s, h, Last(p), r.trail[n]);
      assert s.home[r.trail[n]] == Entry(h, Last(p).k);
      SameWay(s, r, n - 1, Parent(p));
      assert p == Parent(p) + [Last(p)];
      assert Keys(r.path[..n]) == Keys(r.path[..n - 1]) + [Key(r.path[n - 1])];
    }
  }

  /** The path leads somewhere, no call is for an entry on its way, and no call is about to create a
      map there. */
  ghost predicate Protected(s: State, q: Path) {
    && Lookup(s.store, q).At?
    && (forall g :: g in s.setters ==> !(Keys(s.setters[g].path) <= q))
    && (forall g :: g in s.setters && s.setters[g].pc.Missing? && OnTrail(s.setters[g]) ==> !OnWay(s.store, q, Here(s.setters[g])))
  }

  /** Where a path leads somewhere, each entry on its way is filled. */
  lemma FilledOnWay(st: Store, q: Path, e: Entry)
    requires Lookup(st, q).At? && OnWay(st, q, e)
    ensures StepInto(st, At(Ref(e.h)), Key(e.key)).At?
  {
    var i :| 0 <= i < |q| && Lookup(st, q[..i]) == At(Ref(e.h)) && q[i] == Key(e.key);
    var p := q[..i + 1];
    assert Parent(p) == q[..i] && Last(p) == q[i];
    if !Lookup(st, p).At? { Paths.LookupStops(st, q, i + 1); }
  }

  lemma WritesElsewhere(s: State, a: Step, q: Path)
    requires Inv(s) && Enabled(s, a) && Protected(s, q) && Written(s, a).Some?
    ensures !OnWay(s.store, q, Here(s.setters[a.w]))
  {
    var r := s.setters[a.w];
    var n := |r.trail| - 1;
    if a.Put? && OnWay(s.store, q, Here(r)) {
      var i :| 0 <= i < |q| && Lookup(s.store, q[..i]) == At(Ref(Here(r).h)) && q[i] == Key(Here(r).key);
      SameWay(s, r, n, q[..i]);
      WholePath(r.path, n, q, i);
    }
  }

  lemma WholePath(path: seq<GoString>, n: nat, q: Path, i: nat)
    requires |path| == n + 1 && i < |q| && q[..i] == Keys(path[..n]) && q[i] == Key(path[n])
    ensures Keys(path) <= q
  {
    assert Keys(path) == Keys(path[..n]) + [Key(path[n])];
    assert q[..i + 1] == q[..i] + [q[i]];
  }

  lemma StepProtects(s: State, a: Step, q: Path)
    requires Inv(s) && Enabled(s, a) && Protected(s, q)
    ensures Protected(Next(s, a), q) && Lookup(Next(s, a).store, q) == Lookup(s.store, q)
  {
    var s', here := Next(s, a), Here(s.setters[a.w]);
    if Written(s, a).Some? {
      WriteEffect(s, a);
      WritesElsewhere(s, a, q);
      LookupAvoids(s.store, s'.store, here, q);
    }
    forall g | g in s'.setters && s'.setters[g].pc.Missing? && OnTrail(s'.setters[g])
      ensures !OnWay(s'.store, q, Here(s'.setters[g]))
    {
      MissingIsElsewhere(s, a, q, g);
    }
  }

  lemma MissingIsElsewhere(s: State, a: Step, q: Path, g: nat)
    requires Inv(s) && Enabled(s, a) && Protected(s, q)
    requires Written(s, a).Some? ==> OnlySlot(s.store, Next(s, a).store, Here(s.setters[a.w]).h, Key(Here(s.setters[a.w]).key))
    requires Written(s, a).Some? ==> !OnWay(s.store, q, Here(s.setters[a.w]))
    requires g in Next(s, a).setters && Next(s, a).setters[g].pc.Missing? && OnTrail(Next(s, a).setters[g])
    ensures !OnWay(Next(s, a).store, q, Here(Next(s, a).setters[g]))
  {
    var s', e := Next(s, a), Here(Next(s, a).setters[g]);
    FoundMissing(s, a, q, g);
    if Written(s, a).Some? { StillElsewhere(s.store, s'.store, Here(s.setters[a.w]), q, e); }
  }

  /** An entry that was found missing is not on the way. */
  lemma FoundMissing(s: State, a: Step, q: Path, g: nat)
    requires Inv(s) && Enabled(s, a) && Protected(s, q)
    requires g in Next(s, a).setters && Next(s, a).setters[g].pc.Missing? && OnTrail(Next(s, a).setters[g])
    ensures !OnWay(s.store, q, Here(Next(s, a).setters[g]))
  {
    var e := Here(Next(s, a).setters[g]);
    if OnWay(s.store, q, e) { FilledOnWay(s.store, q, e); }
  }

  lemma StillElsewhere(st: Store, st': Store, written: Entry, q: Path, e: Entry)
    requires Tree(st) && OnlySlot(st, st', written.h, Key(written.key)) && Lookup(st, q).At?
    requires !OnWay(st, q, written) && !OnWay(st, q, e)
    ensures !OnWay(st', q, e)
  {
    if OnWay(st', q, e) {
      var i :| 0 <= i < |q| && Lookup(st', q[..i]) == At(Ref(e.h)) && q[i] == Key(e.key);
      PrefixAvoids(st, st', written, q, i);
    }
  }

  /** The same for the beginnings of the path. */
  lemma PrefixAvoids(st: Store, st': Store, e: Entry, q: Path, i: nat)
    requires Tree(st) && OnlySlot(st, st', e.h, Key(e.key)) && Lookup(st, q).At? && !OnWay(st, q, e) && i <= |q|
    ensures Lookup(st', q[..i]) == Lookup(st, q[..i])
  {
    var p := q[..i];
    if !Lookup(st, p).At? { Paths.LookupStops(st, q, i); }
    if OnWay(st, p, e) { PrefixOnWay(st, q, i, e); }
    LookupAvoids(st, st', e, p);
  }

  lemma {:induction false} RunProtects(s: State, schedule: seq<Step>, s': State, q: Path)
    requires Inv(s) && Runs(s, schedule, s') && Protected(s, q)
    ensures Lookup(s'.store, q) == Lookup(s.store, q)
    decreases |schedule|
  {
    if schedule != [] {
      StepKeepsInv(s, schedule[0]);
      StepProtects(s, schedule[0], q);
      RunProtects(Next(s, schedule[0]), schedule[1..], s', q);
    }
  }

  /** In every interleaving, whatever a path led to, it still leads to, unless the whole path of one of
      the calls goes through it.  In particular no scalar is replaced by a map on the way. */
  lemma UntouchedPathsStay(s: State, schedule: seq<Step>, s': State, q: Path)
    requires Init(s) && Runs(s, schedule, s')
    requires Lookup(s.store, q).At? && forall g :: g in s.setters ==> !(Keys(s.setters[g].path) <= q)
    ensures Lookup(s'.store, q) == Lookup(s.store, q)
  {
    InitIsInv(s);
    RunProtects(s, schedule, s', q);
  }

  // ---------------------------------------------------------------- one call by itself

  predicate AllValid(keys: seq<GoString>) {
    forall i :: 0 <= i < |keys| ==> ValidKey(keys[i])
  }

  /** A value can be put under these keys, one below the other, from the map `h` on. */
  predicate CanFrom(st: Store, h: nat, keys: seq<GoString>)
    requires keys != []
    decreases keys
  {
    if |keys| == 1 then ValidKey(keys[0])
    else
      var f := StepInto(st, At(Ref(h)), Key(keys[0]));
      if f.Void? then AllValid(keys)
      else f.At? && f.slot.Ref? && HasMap(st, f.slot.id) && CanFrom(st, f.slot.id, keys[1..])
  }

  lemma KeysParent(path: seq<GoString>, i: nat)
    requires i < |path|
    ensures var q := Keys(path[..i + 1]);
            q != [] && Parent(q) == Keys(path[..i]) && Last(q) == Key(path[i])
  {}

  /** The same as what Path.Set needs by itself. */
  lemma {:induction false} CanFromIsCanPlace(st: Store, path: seq<GoString>, i: nat, h: nat)
    requires i < |path| && Lookup(st, Keys(path[..i])) == At(Ref(h)) && HasMap(st, h)
    ensures CanFrom(st, h, path[i..]) <==> Paths.CanPlace(st, Keys(path))
    decreases |path| - i
  {
    var q := Keys(path[..i + 1]);
    KeysParent(path, i);
    if i + 1 == |path| {
      assert path[..i + 1] == path;
    } else {
      var f := Lookup(st, q);
      assert path[i..][1..] == path[i + 1..];
      if f.Void? {
        assert Paths.CanPlace(st, q) <==> ValidKey(path[i]);
        VoidOnwards(st, path, i + 1);
        FirstValid(path[i..]);
      } else if f.At? && f.slot.Ref? && HasMap(st, f.slot.id) {
        CanFromIsCanPlace(st, path, i + 1, f.slot.id);
      } else {
        BlockedOnwards(st, path, i + 1);
      }
    }
  }

  /** Below a void, every key can be created. */
  lemma {:induction false} VoidOnwards(st: Store, path: seq<GoString>, i: nat)
    requires 0 < i < |path| && Lookup(st, Keys(path[..i])).Void?
    ensures Paths.CanPlace(st, Keys(path)) <==> Paths.CanPlace(st, Keys(path[..i])) && AllValid(path[i..])
    decreases |path| - i
  {
    var p, q := Keys(path[..i]), Keys(path[..i + 1]);
    KeysParent(path, i);
    assert Paths.CanPlace(st, q) <==> Paths.CanPlace(st, p) && ValidKey(path[i]);
    assert path[i..] == [path[i]] + path[i + 1..];
    if i + 1 == |path| {
      assert path[..i + 1] == path;
    } else {
      VoidOnwards(st, path, i + 1);
    }
  }

  /** Below anything but a map or a void, nothing can. */
  lemma {:induction false} BlockedOnwards(st: Store, path: seq<GoString>, i: nat)
    requires 0 < i < |path|
    requires var f := Lookup(st, Keys(path[..i])); !f.Void? && !(f.At? && f.slot.Ref? && HasMap(st, f.slot.id))
    ensures !Paths.CanPlace(st, Keys(path))
    decreases |path| - i
  {
    var p, q := Keys(path[..i]), Keys(path[..i + 1]);
    KeysParent(path, i);
    assert !Paths.CanPlace(st, q);
    if i + 1 == |path| {
      assert path[..i + 1] == path;
    } else {
      BlockedOnwards(st, path, i + 1);
    }
  }

  /** What remains to be done can be done. */
  predicate WillSucceed(s: State, r: Setter)
    requires OnTrail(r)
  {
    var n := |r.trail| - 1;
    match r.pc
    case Done => true
    case Failed => false
    case Looking => CanFrom(s.store, r.trail[n], r.path[n..]) && Decodes(PutScalar(r.value))
    case Missing => AllValid(r.path[n..]) && Decodes(PutScalar(r.value))
  }

  /** A call that is by itself keeps its prospects with every step. */
  lemma AloneStep(s: State, a: Step)
    requires Inv(s) && Enabled(s, a)
    ensures var r' := Next(s, a).setters[a.w];
            OnTrail(r') && (WillSucceed(Next(s, a), r') <==> WillSucceed(s, s.setters[a.w]))
            && (r'.pc.Missing? ==> |r'.trail| < |r'.path|)
  {
    TrailGrows(s, a);
    match a
    case Look(_) => AloneLook(s, a);
    case Create(_) => AloneCreate(s, a);
    case Put(_) => AlonePut(s, a);
  }

  lemma FirstValid(keys: seq<GoString>)
    requires keys != []
    ensures AllValid(keys) <==> ValidKey(keys[0]) && AllValid(keys[1..])
  {
    var more := keys[1..];
    if AllValid(keys) {
      forall i | 0 <= i < |more| ensures ValidKey(more[i]) { assert more[i] == keys[i + 1]; }
    }
    if ValidKey(keys[0]) && AllValid(more) {
      forall i | 0 <= i < |keys| ensures ValidKey(keys[i]) {
        if i > 0 { assert more[i - 1] == keys[i]; }
      }
    }
  }

  /** The keys that remain, from the one that is looked at now. */
  lemma Remaining(r: Setter)
    requires OnTrail(r) && |r.trail| < |r.path|
    ensures var n := |r.trail| - 1;
            r.path[n..][1..] == r.path[n + 1..] && r.path[n..][0] == r.path[n]
            && (AllValid(r.path[n..]) <==> ValidKey(r.path[n]) && AllValid(r.path[n + 1..]))
  {
    FirstValid(r.path[|r.trail| - 1..]);
  }

  lemma AloneLook(s: State, a: Step)
    requires Inv(s) && Enabled(s, a) && a.Look? && OnTrail(Moved(s, a))
    ensures var r' := Next(s, a).setters[a.w];
            (WillSucceed(Next(s, a), r') <==> WillSucceed(s, s.setters[a.w])) && (r'.pc.Missing? ==> |r'.trail| < |r'.path|)
  {
    Remaining(s.setters[a.w]);
  }

  lemma AloneCreate(s: State, a: Step)
    requires Inv(s) && Enabled(s, a) && a.Create? && OnTrail(Moved(s, a))
    ensures var r' := Next(s, a).setters[a.w];
            (WillSucceed(Next(s, a), r') <==> WillSucceed(s, s.setters[a.w])) && !r'.pc.Missing?
  {
    var r, r', s' := s.setters[a.w], Moved(s, a), Next(s, a);
    var n := |r.trail| - 1;
    assert HasMap(s.store, r.trail[n]) by { assert TrailOk(s, r); }
    Remaining(r);
    assert Written(s, a).Some? <==> ValidKey(r.path[n]);
    if Written(s, a).Some? {
      NewMapIsEmpty(s, a);
      EmptyMap(s'.store, s.store.next, r.path[n + 1..]);
      assert r'.pc.Looking? && |r'.trail| == n + 2 && r'.trail[n + 1] == s.store.next && r'.path == r.path;
    }
  }

  lemma NewMapIsEmpty(s: State, a: Step)
    requires Inv(s) && Enabled(s, a) && a.Create? && Written(s, a).Some?
    ensures s.store.next in Next(s, a).store.objs && Next(s, a).store.objs[s.store.next] == MapObj(map[])
  {
    WriteEffect(s, a);
  }

  lemma AlonePut(s: State, a: Step)
    requires Inv(s) && Enabled(s, a) && a.Put? && OnTrail(Moved(s, a))
    ensures var r' := Next(s, a).setters[a.w];
            (WillSucceed(Next(s, a), r') <==> WillSucceed(s, s.setters[a.w])) && !r'.pc.Missing?
  {
    var r := s.setters[a.w];
    var n := |r.trail| - 1;
    assert TrailOk(s, r) && HasMap(s.store, r.trail[n]);
    assert r.path[n..] == [r.path[n]];
  }

  lemma EmptyMap(st: Store, h: nat, keys: seq<GoString>)
    requires h in st.objs && st.objs[h] == MapObj(map[]) && keys != []
    ensures CanFrom(st, h, keys) <==> AllValid(keys)
  {}

  lemma NobodyJoins(s: State, a: Step)
    requires Enabled(s, a)
    ensures Next(s, a).setters.Keys == s.setters.Keys && a.w in s.setters
  {}

  lemma {:induction false} AloneRun(s: State, schedule: seq<Step>, s': State, g: nat)
    requires Inv(s) && Runs(s, schedule, s') && s.setters.Keys == {g}
    requires s.setters[g].pc.Missing? ==> |s.setters[g].trail| < |s.setters[g].path|
    ensures Inv(s') && s'.setters.Keys == {g} && (s'.setters[g].pc.Missing? ==> |s'.setters[g].trail| < |s'.setters[g].path|)
    ensures WillSucceed(s', s'.setters[g]) <==> WillSucceed(s, s.setters[g])
    decreases |schedule|
  {
    if schedule != [] {
      var a := schedule[0];
      StepKeepsInv(s, a);
      AloneStep(s, a);
      NobodyJoins(s, a);
      AloneRun(Next(s, a), schedule[1..], s', g);
    }
  }

  /** A call that runs by itself to its end succeeds exactly if Path.Set can place the value there. */
  lemma AloneSucceedsExactly(s: State, schedule: seq<Step>, s': State, g: nat)
    requires Init(s) && Runs(s, schedule, s') && s.setters.Keys == {g} && forall a :: !Enabled(s', a)
    ensures g in s'.setters
    ensures s'.setters[g].pc.Done? <==> Paths.CanPlace(s.store, Keys(s.setters[g].path)) && Decodes(PutScalar(s.setters[g].value))
    ensures !s'.setters[g].pc.Done? ==> s'.setters[g].pc.Failed?
  {
    InitIsInv(s);
    AloneRun(s, schedule, s', g);
    var r, r' := s.setters[g], s'.setters[g];
    assert r.path[..0] == [] && Keys([]) == [] && r.path[0..] == r.path;
    CanFromIsCanPlace(s.store, r.path, 0, ROOT);
    assert !Enabled(s', Look(g)) && !Enabled(s', Create(g)) && !Enabled(s', Put(g));
    assert TrailOk(s', r');
  }

  // ---------------------------------------------------------------- a lost write

  const A: GoString := [0x61]
  const X: GoString := [0x78]
  const Y: GoString := [0x79]

  /** Two calls on an empty document, for a/x and a/y. */
  const BOTH: State := State(EMPTY, map[], map[],
    map[0 := Setter([A, X], Int64(1), [ROOT], Looking), 1 := Setter([A, Y], Int64(2), [ROOT], Looking)])

  // The stores that the run goes through.
  const ONE_MAP: Store := Store(map[ROOT := MapObj(map[A := Ref(1)]), 1 := MapObj(map[])], 2)
  const TWO_MAPS: Store := Store(map[ROOT := MapObj(map[A := Ref(2)]), 1 := MapObj(map[]), 2 := MapObj(map[])], 3)
  const X_SET: Store :=
    Store(map[ROOT := MapObj(map[A := Ref(2)]), 1 := MapObj(map[X := Val(Int64(1))]), 2 := MapObj(map[])], 3)
  const Y_SET: Store :=
    Store(map[ROOT := MapObj(map[A := Ref(2)]), 1 := MapObj(map[X := Val(Int64(1))]), 2 := MapObj(map[Y := Val(Int64(2))])], 3)

  lemma KeysAreValid()
    ensures ValidKey(A) && ValidKey(X) && ValidKey(Y) && X != Y
  {
    assert A[1..] == [] && X[1..] == [] && Y[1..] == [] && X[0] != Y[0];
  }

  lemma FirstCreate()
    ensures MapPut(EMPTY, ROOT, A, PutNew(MapKind)) == Some(ONE_MAP)
  {
    KeysAreValid();
    var slots: map<GoString, Slot> := map[];
    assert slots[A := Ref(1)] == map[A := Ref(1)];
    assert MapPut(EMPTY, ROOT, A, PutNew(MapKind)).value.objs == ONE_MAP.objs;
  }

  lemma SecondCreate()
    ensures MapPut(ONE_MAP, ROOT, A, PutNew(MapKind)) == Some(TWO_MAPS)
  {
    KeysAreValid();
    var slots: map<GoString, Slot> := map[A := Ref(1)];
    assert slots[A := Ref(2)] == map[A := Ref(2)];
    assert MapPut(ONE_MAP, ROOT, A, PutNew(MapKind)).value.objs == TWO_MAPS.objs;
  }

  lemma FirstPut()
    ensures MapPut(TWO_MAPS, 1, X, PutScalar(Int64(1))) == Some(X_SET)
  {
    KeysAreValid();
    var slots: map<GoString, Slot> := map[];
    assert slots[X := Val(Int64(1))] == map[X := Val(Int64(1))];
    assert MapPut(TWO_MAPS, 1, X, PutScalar(Int64(1))).value.objs == X_SET.objs;
  }

  lemma SecondPut()
    ensures MapPut(X_SET, 2, Y, PutScalar(Int64(2))) == Some(Y_SET)
  {
    KeysAreValid();
    var slots: map<GoString, Slot> := map[];
    assert slots[Y := Val(Int64(2))] == map[Y := Val(Int64(2))];
    assert MapPut(X_SET, 2, Y, PutScalar(Int64(2))).value.objs == Y_SET.objs;
  }

  lemma WhatIsRead()
    ensures Lookup(Y_SET, [Key(A), Key(X)]) == Void && Lookup(Y_SET, [Key(A), Key(Y)]) == At(Val(Int64(2)))
  {
    KeysAreValid();
    assert Parent([Key(A), Key(X)]) == [Key(A)] && Parent([Key(A), Key(Y)]) == [Key(A)] && Parent([Key(A)]) == [];
    assert Lookup(Y_SET, [Key(A)]) == At(Ref(2));
  }

  /** Both find nothing at a, both create a map there, and both succeed; a/x is lost. */
  lemma LosingRun() returns (end: State)
    ensures Init(BOTH) && Runs(BOTH, [Look(0), Look(1), Create(0), Create(1), Put(0), Put(1)], end)
    ensures 0 in end.setters && 1 in end.setters && end.setters[0].pc.Done? && end.setters[1].pc.Done?
    ensures Lookup(end.store, [Key(A), Key(X)]) == Void && Lookup(end.store, [Key(A), Key(Y)]) == At(Val(Int64(2)))
  {
    EmptyIsInit();
    end := BothLook(BOTH);
  }

  lemma EmptyIsInit()
    ensures Init(BOTH)
  {
    EveryDocumentIsATree([]);
  }

  lemma BothLook(s: State) returns (end: State)
    requires s.setters.Keys == {0, 1} && s.store == EMPTY
    requires s.setters[0] == Setter([A, X], Int64(1), [ROOT], Looking)
    requires s.setters[1] == Setter([A, Y], Int64(2), [ROOT], Looking)
    ensures Runs(s, [Look(0), Look(1), Create(0), Create(1), Put(0), Put(1)], end)
    ensures end.setters.Keys == {0, 1} && end.setters[0].pc.Done? && end.setters[1].pc.Done?
    ensures Lookup(end.store, [Key(A), Key(X)]) == Void && Lookup(end.store, [Key(A), Key(Y)]) == At(Val(Int64(2)))
  {
    var t := Next(s, Look(0));
    var u := Next(t, Look(1));
    assert u.setters[0] == Setter([A, X], Int64(1), [ROOT], Missing) && u.store == EMPTY;
    end := BothCreate(u);
    assert Runs(t, [Look(1), Create(0), Create(1), Put(0), Put(1)], end);
    assert Runs(s, [Look(0), Look(1), Create(0), Create(1), Put(0), Put(1)], end);
  }

  lemma BothCreate(s: State) returns (end: State)
    requires s.setters.Keys == {0, 1} && s.store == EMPTY
    requires s.setters[0] == Setter([A, X], Int64(1), [ROOT], Missing)
    requires s.setters[1] == Setter([A, Y], Int64(2), [ROOT], Missing)
    ensures Runs(s, [Create(0), Create(1), Put(0), Put(1)], end)
    ensures end.setters.Keys == {0, 1} && end.setters[0].pc.Done? && end.setters[1].pc.Done?
    ensures Lookup(end.store, [Key(A), Key(X)]) == Void && Lookup(end.store, [Key(A), Key(Y)]) == At(Val(Int64(2)))
  {
    FirstCreate();
    var t := Next(s, Create(0));
    SecondCreate();
    var u := Next(t, Create(1));
    assert u.setters[0] == Setter([A, X], Int64(1), [ROOT, 1], Looking) && u.store == TWO_MAPS;
    end := LostFromThere(u);
    assert Runs(t, [Create(1), Put(0), Put(1)], end);
    assert Runs(s, [Create(0), Create(1), Put(0), Put(1)], end);
  }

  lemma LostFromThere(s: State) returns (end: State)
    requires s.setters.Keys == {0, 1} && s.store == TWO_MAPS
    requires s.setters[0] == Setter([A, X], Int64(1), [ROOT, 1], Looking)
    requires s.setters[1] == Setter([A, Y], Int64(2), [ROOT, 2], Looking)
    ensures Runs(s, [Put(0), Put(1)], end) && end.setters.Keys == {0, 1} && end.setters[0].pc.Done? && end.setters[1].pc.Done?
    ensures Lookup(end.store, [Key(A), Key(X)]) == Void && Lookup(end.store, [Key(A), Key(Y)]) == At(Val(Int64(2)))
  {
    FirstPut();
    var t := Next(s, Put(0));
    SecondPut();
    end := Next(t, Put(1));
    assert end.store == Y_SET;
    WhatIsRead();
    assert Runs(t, [Put(1)], end);
    assert Runs(s, [Put(0), Put(1)], end);
  }
}
