/** The `Map` and `List` objects of the Go API (map.go, list.go).

    A new object is detached.  An object obtained from a path remembers the path until it first
    writes; it then resolves the path, creating what is missing, and keeps the handle instead.
  */
module Handles {
  import opened Words
  import opened GoValues
  import opened Stores
  import opened Document
  import opened Paths

  /** `q` leads somewhere in `st`, and does not go through `p`. */
  ghost predicate OffPath(st: Store, p: Path, q: Path) {
    !(p <= q) && Lookup(st, q).At?
  }

  class GoMap {
    var doc: Doc?
    var handle: nat
    var path: Option<Path>

    ghost predicate Valid()
      reads this, doc
    {
      if doc == null then path.None? else doc.Valid() && (path.None? ==> HasMap(doc.store, handle))
    }

    /** NewMap. */
    constructor Detached()
      ensures Valid() && doc == null && path == None
    {
      doc, handle, path := null, 0, None;
    }

    /** Path.Map. */
    constructor OnPath(d: Doc, p: Path)
      requires d.Valid()
      ensures Valid() && doc == d && path == Some(p)
    {
      doc, handle, path := d, 0, Some(p);
    }

    /** Where the map is, or where it will be once something has been written to it. */
    ghost predicate Is(p: Path)
      requires doc != null
      reads this, doc
    {
      if path.None? then Lookup(doc.store, p) == At(Ref(handle)) else path == Some(p)
    }

    method CreateOnPath() returns (ok: bool)
      requires Valid() && doc != null
      modifies this, doc
      ensures Valid() && doc == old(doc) && OnlyGrew(old(doc.store), doc.store) && doc.taken == old(doc.taken)
      ensures old(path).None? ==> ok && doc.store == old(doc.store) && handle == old(handle) && path == None
      ensures old(path).Some? ==> (ok <==> CanMap(old(doc.store), old(path.value)))
      ensures old(path).Some? && ok ==> path == None && Lookup(doc.store, old(path.value)) == At(Ref(handle))
      ensures old(path).Some? && Lookup(old(doc.store), old(path.value)).At? ==> doc.store == old(doc.store)
      ensures old(path).Some? && !ok ==> path == old(path)
    {
      if path.None? { return true; }
      var m := EnsureMap(doc, path.value);
      if m.None? { return false; }
      handle := m.value;
      path := None;
      return true;
    }

    /** Map.Get; `None` is the error for a detached map. */
    method Get(key: GoString) returns (f: Option<Found>)
      requires Valid()
      ensures f.None? <==> doc == null
      ensures doc != null ==> forall p :: Is(p) ==> f == Some(Lookup(doc.store, p + [Key(key)]))
    {
      if doc == null { return None; }
      var r: Found;
      if path.Some? {
        r := Paths.Get(doc, path.value + [Key(key)]);
      } else {
        r := MapGet(doc, handle, key);
      }
      forall p | Is(p) ensures r == Lookup(doc.store, p + [Key(key)]) {
        assert Parent(p + [Key(key)]) == p && Last(p + [Key(key)]) == Key(key);
      }
      return Some(r);
    }

    /** Map.Set: writing through a map is writing through the path of its entry. */
    method Set(key: GoString, v: Value) returns (ok: bool)
      requires Valid()
      modifies this, doc
      ensures Valid() && doc == old(doc)
      ensures doc == null ==> !ok
      ensures doc != null ==> forall p :: old(Is(p)) ==> (ok <==> CanPlace(old(doc.store), p + [Key(key)]) && CanStore(v, old(doc.taken)))
      ensures doc != null && old(path).None? ==> (ok <==> ValidKey(key) && CanStore(v, old(doc.taken)))
      ensures doc != null ==> Attaches(old(doc.taken), doc.taken, NewRefs(v), ok)
      ensures ok ==> CanStore(v, old(doc.taken)) && path == None && SlotAt(doc.store.objs[handle], Key(key)).Some?
      ensures ok ==> ReadChild(doc.store, handle, Key(key)) == Stored(v)
      ensures doc != null ==> forall p, q :: old(Is(p)) && OffPath(old(doc.store), p + [Key(key)], q)
                                             ==> Lookup(doc.store, q) == Lookup(old(doc.store), q)
      ensures doc != null && ok ==> forall p :: old(Is(p)) ==> Is(p)
    {
      if doc == null { return false; }
      ghost var st0 := doc.store;
      var created := CreateOnPath();
      ghost var st1 := doc.store;
      if created {
        ok := doc.MapSet(handle, key, v);
      } else {
        ok := false;
      }
      forall p | old(Is(p)) ensures ok <==> CanPlace(st0, p + [Key(key)]) && CanStore(v, old(doc.taken)) {
        assert Parent(p + [Key(key)]) == p && Last(p + [Key(key)]) == Key(key);
      }
      forall p, q | old(Is(p)) && OffPath(st0, p + [Key(key)], q) ensures Lookup(doc.store, q) == Lookup(st0, q) {
        var e := p + [Key(key)];
        assert Parent(e) == p && Last(e) == Key(key);
        LookupAfterGrowth(st0, st1, q);
        if created { LookupAfterWrite(st1, doc.store, e, q); }
      }
      if ok {
        forall p | old(Is(p)) ensures Is(p) {
          var e := p + [Key(key)];
          assert Parent(e) == p && Last(e) == Key(key);
          LookupAfterWrite(st1, doc.store, e, p);
        }
      }
    }

    /** Map.Set with a *Map: a detached map is created in the document and attached, an attached
        one is refused. */
    method SetMap(key: GoString, child: GoMap) returns (ok: bool)
      requires Valid() && child.Valid()
      modifies this, doc, child
      ensures Valid() && child.Valid() && doc == old(doc) && (doc != null ==> doc.taken == old(doc.taken))
      ensures doc == null ==> !ok
      ensures doc != null && old(child.doc) != null ==> !ok && OnlyGrew(old(doc.store), doc.store)
      ensures ok ==> child.doc == doc && child.path == None && child.handle !in old(doc.store).objs
      ensures ok ==> doc.store.objs[child.handle] == MapObj(map[])
      ensures ok ==> path == None && SlotAt(doc.store.objs[handle], Key(key)) == Some(Ref(child.handle))
      ensures !ok ==> child.doc == old(child.doc)
      ensures doc != null && old(child.doc) == null ==> forall p :: old(Is(p)) ==> (ok <==> CanPlace(old(doc.store), p + [Key(key)]))
      ensures doc != null ==> forall p, q :: old(Is(p)) && OffPath(old(doc.store), p + [Key(key)], q)
                                             ==> Lookup(doc.store, q) == Lookup(old(doc.store), q)
    {
      if doc == null { return false; }
      ghost var st0 := doc.store;
      var created := CreateOnPath();
      ghost var st := doc.store;
      var h := doc.store.next;
      ok := false;
      if created && child.doc == null {
        ok := doc.Do(OpMapPut(handle, key, PutNew(MapKind)));
        if ok {
          MapPutEffect(st, handle, key, PutNew(MapKind));
          child.doc := doc;
          child.handle := h;
        }
      }
      forall p | old(Is(p)) && old(child.doc) == null ensures ok <==> CanPlace(st0, p + [Key(key)]) {
        assert Parent(p + [Key(key)]) == p && Last(p + [Key(key)]) == Key(key);
      }
      forall p, q | old(Is(p)) && OffPath(st0, p + [Key(key)], q) ensures Lookup(doc.store, q) == Lookup(st0, q) {
        var e := p + [Key(key)];
        assert Parent(e) == p && Last(e) == Key(key);
        LookupAfterGrowth(st0, st, q);
        if ok { LookupAfterWrite(st, doc.store, e, q); }
      }
    }
  }

  /** Index `i` of the list `h` reads as what storing `v` gives. */
  ghost predicate Shows(st: Store, h: nat, i: int, v: Value) {
    Tree(st) && HasList(st, h) && 0 <= i < |st.objs[h].items| && Normalize(v).Some? && ReadChild(st, h, Index(i)) == Stored(v)
  }

  /** The items from `from` on read as what storing `values` gives. */
  ghost predicate ShowsAll(st: Store, h: nat, from: nat, values: seq<Value>) {
    forall j :: 0 <= j < |values| ==> Shows(st, h, from + j, values[j])
  }

  /** A put keeps what the other indexes read; an insertion moves the later ones up by one. */
  lemma ShowsAfterPut(st: Store, st': Store, h: nat, i: nat, before: bool, j: int, v: Value)
    requires Tree(st') && HasList(st', h) && Shows(st, h, j, v) && OthersKept(st, st', h)
    requires Placed(st.objs[h].items, st'.objs[h].items, i, before) && (!before ==> j != i)
    ensures Shows(st', h, if before && j >= i then j + 1 else j, v)
  {
    var j' := if before && j >= i then j + 1 else j;
    assert st'.objs[h].items[j'] == st.objs[h].items[j];
    ReadChildFrame(st, st', h, Index(j), Index(j'));
  }

  lemma ShowsOneMore(st: Store, st': Store, h: nat, from: nat, values: seq<Value>, k: nat)
    requires k < |values| && Tree(st') && HasList(st', h)
    requires k > 0 ==> HasList(st, h) && OthersKept(st, st', h) && ShowsAll(st, h, from, values[..k])
                       && Placed(st.objs[h].items, st'.objs[h].items, from + k, true)
    requires Shows(st', h, from + k, values[k])
    ensures ShowsAll(st', h, from, values[..k + 1])
  {
    var vs := values[..k + 1];
    forall j | 0 <= j < |vs| ensures Shows(st', h, from + j, vs[j]) {
      if j < k {
        assert values[..k][j] == vs[j];
        ShowsAfterPut(st, st', h, from + k, true, from + j, vs[j]);
      }
    }
  }

  ghost function ValueRefs(values: seq<Value>): map<int, set<nat>> {
    map i | 0 <= i < |values| :: NewRefs(values[i])
  }

  /** All of the values can be stored, one after the other. */
  ghost predicate AllStorable(values: seq<Value>, taken: set<nat>) {
    (forall j {:trigger CanStore(values[j], {})} :: 0 <= j < |values| ==> CanStore(values[j], {})) && AllNew(ValueRefs(values), ValueRefs(values).Keys, taken)
  }

  /** The texts and counters that they attach. */
  ghost function AllRefs(values: seq<Value>): set<nat> {
    set i, x | 0 <= i < |values| && x in NewRefs(values[i]) :: x
  }

  /** What a write through a list leaves alone.  For a list with a handle: every other object.  For
      one that is bound to a path: whatever is not reached through that path. */
  ghost predicate Elsewhere(st: Store, st': Store, path: Option<Path>, h: nat) {
    if path.None? then OthersKept(st, st', h)
    else forall q {:trigger OffPath(st, path.value, q)} :: OffPath(st, path.value, q) ==> Lookup(st', q) == Lookup(st, q)
  }

  /** A path to a list still leads to it after a change inside the list. */
  lemma StillThere(st: Store, st': Store, p: Path, h: nat)
    requires Tree(st) && HasList(st, h) && Lookup(st, p) == At(Ref(h)) && OthersKept(st, st', h)
    ensures Lookup(st', p) == At(Ref(h))
  {
    if p != [] {
      LookupAround(st, st', p, Parent(p));
      LookupInStore(st, Parent(p));
      if Lookup(st, Parent(p)) == At(Ref(h)) { OnePath(st, p, Parent(p)); }
    }
  }

  lemma ElsewhereThenInside(st: Store, st1: Store, st2: Store, path: Option<Path>, h: nat)
    requires Tree(st1) && Elsewhere(st, st1, path, h) && OthersKept(st1, st2, h)
    requires path.Some? ==> HasList(st1, h) && Lookup(st1, path.value) == At(Ref(h))
    ensures Elsewhere(st, st2, path, h)
    ensures path.Some? ==> Lookup(st2, path.value) == At(Ref(h))
  {
    if path.Some? {
      StillThere(st1, st2, path.value, h);
      forall q | OffPath(st, path.value, q) ensures Lookup(st2, q) == Lookup(st, q) {
        LookupAround(st1, st2, path.value, q);
      }
    }
  }

  lemma GrownElsewhere(st: Store, st': Store, p: Path, h: nat)
    requires Tree(st) && OnlyGrew(st, st')
    ensures Elsewhere(st, st', Some(p), h)
  {
    forall q | OffPath(st, p, q) ensures Lookup(st', q) == Lookup(st, q) { LookupAfterGrowth(st, st', q); }
  }

  /** A list and its document at one moment. */
  datatype View = View(attached: bool, store: Store, taken: set<nat>, path: Option<Path>, handle: nat, items: seq<Slot>)

  ghost predicate Consistent(v: View) {
    v.attached ==> Tree(v.store) && (v.path.None? ==> HasList(v.store, v.handle) && v.items == v.store.objs[v.handle].items)
  }

  /** `k` rounds of a loop that puts `values` one after the other at `at` lead from `v0` to `v`. */
  ghost predicate Rounds(v0: View, v: View, at: nat, values: seq<Value>, k: nat) {
    && k <= |values| && v.attached == v0.attached && Consistent(v)
    && Inserted(v0.items, v.items, at, k)
    && (forall j {:trigger CanStore(values[j], {})} :: 0 <= j < k ==> CanStore(values[j], {}))
    && TakenBy(ValueRefs(values), Below(k), v0.taken, v.taken)
    && (v.attached ==> Elsewhere(v0.store, v.store, v0.path, v0.handle))
    && (k == 0 ==> v == v0)
    && (k > 0 ==> v.attached && v.path.None? && ShowsAll(v.store, v.handle, at, values[..k])
                  && if v0.path.Some? then Lookup(v.store, v0.path.value) == At(Ref(v.handle)) else v.handle == v0.handle)
  }

  lemma FirstRound(v0: View, at: nat, values: seq<Value>) returns (l: Loop)
    requires Consistent(v0) && at <= |v0.items|
    ensures l == Progress(v0, v0, at, values, 0)
  {
    l := Progress(v0, v0, at, values, 0);
  }

  /** What a put, successful or not, keeps. */
  ghost predicate PutKeeps(v: View, v': View) {
    v.attached == v'.attached && (v.attached ==> Elsewhere(v.store, v'.store, v.path, v.handle))
  }

  /** What a successful insertion of `x` at `i` does. */
  ghost predicate Advances(v: View, v': View, i: nat, x: Value) {
    && PutKeeps(v, v') && Consistent(v') && Placed(v.items, v'.items, i, true)
    && v'.attached && v'.path.None? && Shows(v'.store, v'.handle, i, x)
    && (if v.path.Some? then Lookup(v'.store, v.path.value) == At(Ref(v'.handle)) else v'.handle == v.handle)
    && CanStore(x, v.taken) && v'.taken == v.taken + NewRefs(x)
  }

  lemma LengthSoFar(l: Loop)
    ensures |l.now.items| == |l.before.items| + l.k && l.at + l.k <= |l.now.items|
  {}

  /** There is a list to write to, or one can be created. */
  ghost predicate CanWrite(v: View) {
    v.attached && (v.path.Some? ==> CanList(v.store, v.path.value))
  }

  /** Such a loop, after `k` rounds. */
  datatype Progress = Progress(before: View, now: View, at: nat, values: seq<Value>, k: nat)

  type Loop = l: Progress | Rounds(l.before, l.now, l.at, l.values, l.k) && (l.k > 0 ==> CanWrite(l.before))
    ghost witness NotBegun()

  const NOWHERE: View := View(false, EMPTY, {}, None, 0, [])

  ghost function NotBegun(): (l: Progress)
    ensures Rounds(l.before, l.now, l.at, l.values, l.k) && l.k == 0
  {
    NothingTaken();
    Progress(NOWHERE, NOWHERE, 0, [], 0)
  }

  lemma NothingTaken()
    ensures TakenBy(ValueRefs([]), Below(0), {}, {})
  {
    assert Below(0) == {};
  }

  lemma KeptSinceStart(l: Loop, v': View)
    requires PutKeeps(l.now, v')
    ensures v'.attached ==> Elsewhere(l.before.store, v'.store, l.before.path, l.before.handle)
    ensures l.k > 0 && l.before.path.Some? ==> Lookup(v'.store, l.before.path.value) == At(Ref(l.now.handle))
  {
    if l.k > 0 { ElsewhereThenInside(l.before.store, l.now.store, v'.store, l.before.path, l.now.handle); }
  }

  /** What such a loop promises.  It succeeds exactly if there is nothing to do, or somewhere to do
      it and every value can be stored; then the values are there, in order.  Even when it stops half
      way, the items that were there still are, around what was inserted, and nothing else changed. */
  ghost predicate Outcome(v0: View, v: View, at: nat, values: seq<Value>, ok: bool) {
    && (ok <==> values == [] || (CanWrite(v0) && AllStorable(values, v0.taken)))
    && Attaches(v0.taken, v.taken, AllRefs(values), ok)
    && (exists k: nat :: k <= |values| && (ok ==> k == |values|) && Inserted(v0.items, v.items, at, k))
    && (ok && values != [] ==> v.path.None? && ShowsAll(v.store, v.handle, at, values))
    && (v.attached ==> Elsewhere(v0.store, v.store, v0.path, v0.handle))
  }

  lemma RoundFails(l: Loop, v': View)
    requires l.k < |l.values| && PutKeeps(l.now, v')
    requires Placed(l.now.items, v'.items, l.at + l.k, true) || v'.items == l.now.items
    requires !(CanWrite(l.now) && CanStore(l.values[l.k], l.now.taken))
    requires Attaches(l.now.taken, v'.taken, NewRefs(l.values[l.k]), false)
    ensures Outcome(l.before, v', l.at, l.values, false)
  {
    KeptSinceStart(l, v');
    ValueRound(l.values, l.k, l.before.taken, l.now.taken);
    if v'.items == l.now.items {
      assert Inserted(l.before.items, v'.items, l.at, l.k);
    } else {
      InsertedOne(l.now.items, v'.items, l.before.items, l.at, l.k);
      assert Inserted(l.before.items, v'.items, l.at, l.k + 1);
    }
  }

  lemma NextRound(l: Loop, v': View) returns (l': Loop)
    requires l.k < |l.values| && CanWrite(l.now) && Advances(l.now, v', l.at + l.k, l.values[l.k])
    ensures l' == Progress(l.before, v', l.at, l.values, l.k + 1)
  {
    NextItems(l, v');
    NextTaken(l, v');
    NextShown(l, v');
    NextPlace(l, v');
    l' := Progress(l.before, v', l.at, l.values, l.k + 1);
  }

  lemma NextPlace(l: Loop, v': View)
    requires l.k < |l.values| && CanWrite(l.now) && Advances(l.now, v', l.at + l.k, l.values[l.k])
    ensures CanWrite(l.before) && Consistent(v') && v'.attached == l.before.attached && v'.path.None?
    ensures Elsewhere(l.before.store, v'.store, l.before.path, l.before.handle)
    ensures if l.before.path.Some? then Lookup(v'.store, l.before.path.value) == At(Ref(v'.handle))
            else v'.handle == l.before.handle
  {
    KeptSinceStart(l, v');
  }

  lemma NextItems(l: Loop, v': View)
    requires l.k < |l.values| && Placed(l.now.items, v'.items, l.at + l.k, true)
    ensures Inserted(l.before.items, v'.items, l.at, l.k + 1)
  {
    InsertedOne(l.now.items, v'.items, l.before.items, l.at, l.k);
  }

  lemma NextTaken(l: Loop, v': View)
    requires l.k < |l.values| && CanStore(l.values[l.k], l.now.taken) && v'.taken == l.now.taken + NewRefs(l.values[l.k])
    ensures forall j {:trigger CanStore(l.values[j], {})} :: 0 <= j < l.k + 1 ==> CanStore(l.values[j], {})
    ensures TakenBy(ValueRefs(l.values), Below(l.k + 1), l.before.taken, v'.taken)
  {
    ValueRound(l.values, l.k, l.before.taken, l.now.taken);
  }

  lemma NextShown(l: Loop, v': View)
    requires l.k < |l.values| && CanWrite(l.now) && Advances(l.now, v', l.at + l.k, l.values[l.k])
    ensures ShowsAll(v'.store, v'.handle, l.at, l.values[..l.k + 1])
  {
    ShowsOneMore(l.now.store, v'.store, v'.handle, l.at, l.values, l.k);
  }

  lemma AllRounds(l: Loop)
    requires l.k == |l.values|
    ensures Outcome(l.before, l.now, l.at, l.values, true)
  {
    var (v0, v, at, values) := (l.before, l.now, l.at, l.values);
    assert values[..|values|] == values;
    assert Inserted(v0.items, v.items, at, |values|);
    AllValuesTaken(values, v0.taken, v.taken);
  }

  /** What a round does to the texts and counters. */
  lemma ValueRound(values: seq<Value>, k: nat, t0: set<nat>, t: set<nat>)
    requires k < |values| && TakenBy(ValueRefs(values), Below(k), t0, t)
    ensures CanStore(values[k], t) ==> CanStore(values[k], {}) && TakenBy(ValueRefs(values), Below(k + 1), t0, t + NewRefs(values[k]))
    ensures !CanStore(values[k], t) ==> !AllStorable(values, t0)
    ensures t0 <= t <= t + NewRefs(values[k]) <= t0 + AllRefs(values)
  {
    Round(ValueRefs(values), Below(k), k, t0, t, AllRefs(values));
    if !CanStore(values[k], {}) { assert !AllStorable(values, t0); }
  }

  lemma AllValuesTaken(values: seq<Value>, t0: set<nat>, t: set<nat>)
    requires TakenBy(ValueRefs(values), Below(|values|), t0, t)
    ensures AllNew(ValueRefs(values), ValueRefs(values).Keys, t0) && t == t0 + AllRefs(values)
  {
    var refs := ValueRefs(values);
    assert refs.Keys == Below(|values|);
    forall x | x in AllRefs(values) ensures x in t {
      var i :| 0 <= i < |values| && x in NewRefs(values[i]);
      assert i in refs && x in refs[i];
    }
    Within(refs, refs.Keys, t0, t, AllRefs(values));
  }

  class GoList {
    var doc: Doc?
    var handle: nat
    var path: Option<Path>

    ghost predicate Valid()
      reads this, doc
    {
      if doc == null then path.None?
      else doc.Valid() && if path.None? then HasList(doc.store, handle) else handle == ROOT
    }

    /** NewList. */
    constructor Detached()
      ensures Valid() && doc == null && path == None
    {
      doc, handle, path := null, 0, None;
    }

    /** Path.List. */
    constructor OnPath(d: Doc, p: Path)
      requires d.Valid()
      ensures Valid() && doc == d && path == Some(p)
    {
      doc, handle, path := d, 0, Some(p);
    }

    /** The slots that the list shows; a path that does not lead to a list shows none. */
    ghost function Items(): seq<Slot>
      requires Valid()
      reads this, doc
    {
      if doc == null then []
      else if path.None? then doc.store.objs[handle].items
      else if ListAt(doc.store, path.value) then doc.store.objs[Lookup(doc.store, path.value).slot.id].items
      else []
    }

    ghost function Now(): View
      requires Valid()
      reads this, doc
    {
      View(doc != null, if doc == null then EMPTY else doc.store, if doc == null then {} else doc.taken, path, handle, Items())
    }

    method Len() returns (n: nat)
      requires Valid()
      ensures n == |Items()|
    {
      if doc == null { return 0; }
      if path.Some? {
        var f := Paths.Get(doc, path.value);
        LookupInStore(doc.store, path.value);
        if !f.At? || !f.slot.Ref? || !doc.store.objs[f.slot.id].ListObj? { return 0; }
        return |doc.store.objs[f.slot.id].items|;
      }
      return |doc.store.objs[handle].items|;
    }

    /** List.put: resolves the path, then writes. */
    method Put(i: nat, before: bool, v: Value) returns (ok: bool)
      requires Valid()
      modifies this, doc
      ensures Valid() && doc == old(doc)
      ensures Attaches(old(Now()).taken, Now().taken, NewRefs(v), ok)
      ensures ok <==> CanWrite(old(Now())) && CanStore(v, old(Now()).taken) && i < |old(Items())| + (if before then 1 else 0)
      ensures ok ==> path == None && Shows(doc.store, handle, i, v)
      ensures Placed(old(Items()), Items(), i, before) || (!ok && Items() == old(Items()))
      ensures ok ==> Placed(old(Items()), Items(), i, before)
      ensures doc != null ==> Elsewhere(old(doc.store), doc.store, old(path), old(handle))
      ensures old(path).None? ==> path == None && handle == old(handle)
      ensures ok && old(path).Some? ==> Lookup(doc.store, old(path).value) == At(Ref(handle))
      ensures PutKeeps(old(Now()), Now()) && (ok && before ==> Advances(old(Now()), Now(), i, v))
    {
      if doc == null { return false; }
      ghost var st0 := doc.store;
      if path.Some? {
        var l := EnsureList(doc, path.value);
        GrownElsewhere(st0, doc.store, path.value, handle);
        if l.None? { return false; }
        handle := l.value;
        path := None;
      }
      ghost var st1 := doc.store;
      ok := doc.ListPutValue(handle, i, before, v);
      if old(path).Some? { ElsewhereThenInside(st0, st1, doc.store, old(path), handle); }
    }

    /** One round of the loops of List.Append and List.Insert: the put of the value that is next. */
    method PutNext(ghost l: Loop, i: nat, x: Value) returns (ok: bool, ghost l': Loop)
      requires Valid() && l.now == Now() && l.k < |l.values| && x == l.values[l.k] && i == l.at + l.k
      modifies this, doc
      ensures Valid() && doc == old(doc)
      ensures if ok then l' == Progress(l.before, Now(), l.at, l.values, l.k + 1)
              else Outcome(l.before, Now(), l.at, l.values, false)
    {
      LengthSoFar(l);
      ok := Put(i, true, x);
      ghost var now := Now();
      if ok {
        l' := NextRound(l, now);
      } else {
        RoundFails(l, now);
        l' := l;
      }
    }

    /** List.Append: each value goes to the end, wherever the end then is. */
    method Append(values: seq<Value>) returns (ok: bool)
      requires Valid()
      modifies this, doc
      ensures Valid() && doc == old(doc)
      ensures Outcome(old(Now()), Now(), |old(Items())|, values, ok)
    {
      ghost var l := FirstRound(Now(), |Items()|, values);
      for k := 0 to |values|
        invariant Valid() && doc == old(doc) && l == Progress(old(Now()), Now(), |old(Items())|, values, k)
      {
        var length := Len();
        LengthSoFar(l);
        ok, l := PutNext(l, length, values[k]);
        if !ok { return; }
      }
      AllRounds(l);
      return true;
    }

    /** List.Insert: the values go before `idx`, in order. */
    method Insert(idx: int, values: seq<Value>) returns (ok: bool)
      requires Valid()
      modifies this, doc
      ensures Valid() && doc == old(doc)
      ensures if 0 <= idx <= |old(Items())| then Outcome(old(Now()), Now(), idx, values, ok) else !ok && Now() == old(Now())
    {
      var length := Len();
      if idx < 0 || idx > length { return false; }
      ghost var l := FirstRound(Now(), idx, values);
      for k := 0 to |values|
        invariant Valid() && doc == old(doc) && l == Progress(old(Now()), Now(), idx, values, k)
      {
        ok, l := PutNext(l, idx + k, values[k]);
        if !ok { return; }
      }
      AllRounds(l);
      return true;
    }

    /** List.Set: overwrites one existing index. */
    method Set(idx: int, v: Value) returns (ok: bool)
      requires Valid()
      modifies this, doc
      ensures Valid() && doc == old(doc)
      ensures ok <==> 0 <= idx < |old(Items())| && CanStore(v, old(Now()).taken)
      ensures Attaches(old(Now()).taken, Now().taken, NewRefs(v), ok)
      ensures |Items()| == |old(Items())|
      ensures forall j :: 0 <= j < |Items()| && j != idx ==> Items()[j] == old(Items())[j]
      ensures ok ==> path == None && Shows(doc.store, handle, idx, v)
      ensures doc != null ==> Elsewhere(old(doc.store), doc.store, old(path), old(handle))
    {
      var length := Len();
      if idx < 0 || idx >= length { return false; }
      ok := Put(idx, false, v);
    }

    /** List.Delete does not resolve the path: on a list that is still bound to one it addresses
        handle 0, the root map, and the engine refuses. */
    method Delete(idx: int) returns (ok: bool)
      requires Valid()
      modifies this, doc
      ensures Valid() && doc == old(doc) && path == old(path) && handle == old(handle)
      ensures ok <==> path.None? && 0 <= idx < |old(Items())|
      ensures Now().taken == old(Now()).taken && (!ok ==> Now() == old(Now()))
      ensures ok ==> OthersKept(old(doc.store), doc.store, handle)
                     && Items() == old(Items())[..idx] + old(Items())[idx + 1..]
    {
      var length := Len();
      if idx < 0 || idx >= length { return false; }
      ok := doc.Do(OpListDelete(handle, idx));
    }
  }

  /** `items` is `base` with `k` slots inserted before `idx`. */
  ghost predicate Inserted(base: seq<Slot>, items: seq<Slot>, idx: int, k: nat) {
    0 <= idx <= |base| && |items| == |base| + k && items[..idx] == base[..idx] && items[idx + k..] == base[idx..]
  }

  lemma InsertedOne(was: seq<Slot>, items: seq<Slot>, base: seq<Slot>, idx: nat, k: nat)
    requires Inserted(base, was, idx, k) && Placed(was, items, idx + k, true)
    ensures Inserted(base, items, idx, k + 1)
  {
    var i := idx + k;
    assert items[..idx] == was[..i][..idx] == was[..idx];
    assert items[i + 1..] == was[i..];
  }

  /** A document with a list of one item at a path.  A list bound to that path has length 1, and
      deleting index 0 through it fails. */
  method DeleteThroughPathFails() returns (length: nat, ok: bool)
    ensures length == 1 && !ok
  {
    var d := new Doc();
    var key: GoString, p: Path := [0x6C], [Key([0x6C])];
    var v := Slice([Leaf(Null)]);
    OneItemList(d.store, key);
    var stored := Set(d, p, v);
    var l := new GoList.OnPath(d, p);
    length := l.Len();
    assert length == 1 by { ReadsAsList(d.store, p); }
    ok := l.Delete(0);
  }

  lemma OneItemList(st: Store, key: GoString)
    requires st == EMPTY && key == [0x6C]
    ensures CanPlace(st, [Key(key)]) && CanStore(Slice([Leaf(Null)]), {}) && Stored(Slice([Leaf(Null)])) == Slice([Leaf(Null)])
  {
    var v := Slice([Leaf(Null)]);
    assert Normal(v);
    NormalIsFixed(v);
    assert Refs(Leaf(Null)) == {};
    assert Refs(v) == {};
    assert AllNew(ItemRefs([Leaf(Null)]), ItemRefs([Leaf(Null)]).Keys, {});
    assert key[1..] == [] && Utf8(key);
    assert Parent([Key(key)]) == [] && Last([Key(key)]) == Key(key);
    assert Readback(v).items == [Leaf(Null)];
  }

  lemma ReadsAsList(st: Store, p: Path)
    requires Tree(st) && Lookup(st, p).At? && InStore(st, Lookup(st, p).slot)
    requires Read(st, Lookup(st, p).slot) == Slice([Leaf(Null)])
    ensures ListAt(st, p) && |st.objs[Lookup(st, p).slot.id].items| == 1
  {}
}
