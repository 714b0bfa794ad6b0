/** Reading and writing through paths (path.go): `Get`, `ensure` and its relatives, `Set`, `Delete`. */
module Paths {
  import opened Words
  import opened GoValues
  import opened Stores
  import opened Document

  // ---------------------------------------------------------------- when a path can be written

  ghost predicate MapAt(st: Store, p: Path) {
    var f := Lookup(st, p);
    f.At? && f.slot.Ref? && HasMap(st, f.slot.id)
  }

  ghost predicate ListAt(st: Store, p: Path) {
    var f := Lookup(st, p);
    f.At? && f.slot.Ref? && HasList(st, f.slot.id)
  }

  /** The length of the list at `p`, or 0 if it would have to be created. */
  ghost function LengthAt(st: Store, p: Path): nat {
    if ListAt(st, p) then |st.objs[Lookup(st, p).slot.id].items| else 0
  }

  /** There is a map at `p`, or nothing is there and one can be created. */
  ghost predicate CanMap(st: Store, p: Path)
    decreases |p|, 1
  {
    MapAt(st, p) || (Lookup(st, p).Void? && CanPlace(st, p))
  }

  ghost predicate CanList(st: Store, p: Path)
    decreases |p|, 1
  {
    ListAt(st, p) || (Lookup(st, p).Void? && CanPlace(st, p))
  }

  /** A value can be put at `p`: the keys are valid, the indexes are at most at the end, and
      nothing on the way is something other than a map or a list. */
  ghost predicate CanPlace(st: Store, p: Path)
    decreases |p|, 0
  {
    p != [] &&
    match Last(p)
    case Key(k) => CanMap(st, Parent(p)) && ValidKey(k)
    case Index(i) => CanList(st, Parent(p)) && 0 <= i <= LengthAt(st, Parent(p))
  }

  // ---------------------------------------------------------------- Get

  lemma {:induction false} LookupStops(st: Store, p: Path, k: nat)
    requires k <= |p| && !Lookup(st, p[..k]).At?
    ensures Lookup(st, p) == Lookup(st, p[..k])
    decreases |p| - k
  {
    if k == |p| {
      assert p[..k] == p;
    } else {
      assert Parent(p[..k + 1]) == p[..k];
      LookupStops(st, p, k + 1);
    }
  }

  /** Path.Get: follows the segments from the root. */
  method Get(d: Doc, p: Path) returns (f: Found)
    requires d.Valid()
    ensures f == Lookup(d.store, p)
  {
    f := At(Ref(ROOT));
    for k := 0 to |p|
      invariant f == Lookup(d.store, p[..k])
    {
      assert Parent(p[..k + 1]) == p[..k] && Last(p[..k + 1]) == p[k];
      LookupInStore(d.store, p[..k]);
      if f.Void? {
        LookupStops(d.store, p, k);
        return;
      }
      match p[k]
      case Key(key) =>
        if f.NotTraversable? || !f.slot.Ref? || !d.store.objs[f.slot.id].MapObj? {
          LookupStops(d.store, p, k + 1);
          return NotTraversable;
        }
        f := MapGet(d, f.slot.id, key);
      case Index(i) =>
        if f.NotTraversable? || !f.slot.Ref? || !d.store.objs[f.slot.id].ListObj? {
          LookupStops(d.store, p, k + 1);
          return NotTraversable;
        }
        f := ListGet(d, f.slot.id, i);
    }
    assert p[..|p|] == p;
  }

  method MapGet(d: Doc, h: nat, key: GoString) returns (f: Found)
    requires HasMap(d.store, h)
    ensures f == StepInto(d.store, At(Ref(h)), Key(key))
  {
    if !ValidKey(key) { return Void; }
    var slots := d.store.objs[h].slots;
    f := if key in slots then At(slots[key]) else Void;
  }

  method ListGet(d: Doc, h: nat, i: int) returns (f: Found)
    requires HasList(d.store, h)
    ensures f == StepInto(d.store, At(Ref(h)), Index(i))
  {
    var items := d.store.objs[h].items;
    if i < 0 || i >= |items| { return Void; }
    f := At(items[i]);
  }

  // ---------------------------------------------------------------- ensure

  /** What the setter that `ensure` returns will write to. */
  datatype Target = TheRoot | InMap(h: nat, key: GoString) | InList(h: nat, index: int)

  datatype Ensured = Failed | Ready(v: Found, target: Target)

  ghost predicate TargetFor(st: Store, p: Path, t: Target) {
    if p == [] then t == TheRoot
    else
      match Last(p)
      case Key(k) => t.InMap? && t.key == k && HasMap(st, t.h) && Lookup(st, Parent(p)) == At(Ref(t.h))
      case Index(i) => t.InList? && t.index == i && HasList(st, t.h) && Lookup(st, Parent(p)) == At(Ref(t.h))
  }

  method Ensure(d: Doc, p: Path) returns (e: Ensured)
    requires d.Valid()
    modifies d
    ensures d.Valid() && OnlyGrew(old(d.store), d.store) && d.taken == old(d.taken)
    ensures Lookup(old(d.store), p).At? ==> d.store == old(d.store)
    ensures e.Ready? <==> p == [] || (if Last(p).Key? then CanMap(old(d.store), Parent(p)) else CanList(old(d.store), Parent(p)))
    ensures e.Failed? ==> !Lookup(d.store, p).At?
    ensures e.Ready? ==> TargetFor(d.store, p, e.target) && e.v == Lookup(d.store, p) == Lookup(old(d.store), p)
    ensures e.Ready? && p != [] && Last(p).Index? ==> |d.store.objs[e.target.h].items| == LengthAt(old(d.store), Parent(p))
    decreases |p|, 0
  {
    if p == [] { return Ready(At(Ref(ROOT)), TheRoot); }
    match Last(p)
    case Key(key) =>
      var m := EnsureMap(d, Parent(p));
      if m.None? { return Failed; }
      var v := MapGet(d, m.value, key);
      return Ready(v, InMap(m.value, key));
    case Index(i) =>
      var l := EnsureList(d, Parent(p));
      if l.None? { return Failed; }
      var v := ListGet(d, l.value, i);
      return Ready(v, InList(l.value, i));
  }

  method EnsureMap(d: Doc, p: Path) returns (r: Option<nat>)
    requires d.Valid()
    modifies d
    ensures d.Valid() && OnlyGrew(old(d.store), d.store) && d.taken == old(d.taken)
    ensures Lookup(old(d.store), p).At? ==> d.store == old(d.store)
    ensures r.Some? <==> CanMap(old(d.store), p)
    ensures r.None? ==> !MapAt(d.store, p)
    ensures r.Some? ==> HasMap(d.store, r.value) && Lookup(d.store, p) == At(Ref(r.value))
    ensures r.Some? && Lookup(old(d.store), p).Void? ==> d.store.objs[r.value] == MapObj(map[])
    decreases |p|, 1
  {
    if p == [] { return Some(ROOT); }
    var e := Ensure(d, p);
    if e.Failed? { return None; }
    if e.v.Void? {
      r := Create(d, p, e.target, MapKind);
      return;
    }
    LookupInStore(d.store, p);
    if e.v.At? && e.v.slot.Ref? && d.store.objs[e.v.slot.id].MapObj? { return Some(e.v.slot.id); }
    return None;
  }

  method EnsureList(d: Doc, p: Path) returns (r: Option<nat>)
    requires d.Valid()
    modifies d
    ensures d.Valid() && OnlyGrew(old(d.store), d.store) && d.taken == old(d.taken)
    ensures Lookup(old(d.store), p).At? ==> d.store == old(d.store)
    ensures r.Some? <==> CanList(old(d.store), p)
    ensures r.None? ==> !ListAt(d.store, p)
    ensures r.Some? ==> HasList(d.store, r.value) && Lookup(d.store, p) == At(Ref(r.value))
    ensures r.Some? && Lookup(old(d.store), p).Void? ==> d.store.objs[r.value] == ListObj([])
    decreases |p|, 1
  {
    var e := Ensure(d, p);
    if e.Failed? { return None; }
    if e.v.Void? {
      r := Create(d, p, e.target, ListKind);
      return;
    }
    LookupInStore(d.store, p);
    if e.v.At? && e.v.slot.Ref? && d.store.objs[e.v.slot.id].ListObj? { return Some(e.v.slot.id); }
    return None;
  }

  /** The setter applied to a new map or list, where there was nothing. */
  method Create(d: Doc, p: Path, t: Target, kind: Kind) returns (r: Option<nat>)
    requires d.Valid() && p != [] && TargetFor(d.store, p, t) && Lookup(d.store, p).Void?
    modifies d
    ensures d.Valid() && OnlyGrew(old(d.store), d.store) && d.taken == old(d.taken)
    ensures r.Some? <==> match t
                         case TheRoot => false
                         case InMap(_, key) => ValidKey(key)
                         case InList(h, i) => i == |old(d.store).objs[h].items|
    ensures r.None? ==> d.store == old(d.store)
    ensures r.Some? ==> Lookup(d.store, p) == At(Ref(r.value))
                        && r.value in d.store.objs && d.store.objs[r.value] == NewObject(kind)
  {
    var child := d.store.next;
    ghost var st := d.store;
    var ok := false;
    match t {
      case TheRoot =>
      case InMap(h, key) =>
        ok := d.Do(OpMapPut(h, key, PutNew(kind)));
        if ok { MapPutEffect(st, h, key, PutNew(kind)); }
      case InList(h, i) =>
        // an index below the length is not void, and a negative one is refused
        var length := |d.store.objs[h].items|;
        if i == length {
          ok := d.Do(OpListPut(h, length, true, PutNew(kind)));
          ListPutEffect(st, h, length, true, PutNew(kind));
          PlacedIsOneSlot(st, d.store, h, length, true);
        }
    }
    if !ok { return None; }
    FilledSlotGrows(st, d.store, t.h, Last(p));
    LookupAfterGrowth(st, d.store, Parent(p));
    return Some(child);
  }

  /** Overwriting, or inserting at the end, touches one slot of the list. */
  lemma PlacedIsOneSlot(st: Store, st': Store, h: nat, i: nat, before: bool)
    requires HasList(st, h) && HasList(st', h) && OthersKept(st, st', h)
    requires Placed(st.objs[h].items, st'.objs[h].items, i, before) && (before ==> i == |st.objs[h].items|)
    ensures OnlySlot(st, st', h, Index(i))
  {
    forall t | t != Index(i) ensures SlotAt(st'.objs[h], t) == SlotAt(st.objs[h], t) {}
  }

  lemma FilledSlotGrows(st: Store, st': Store, h: nat, s: Segment)
    requires OnlySlot(st, st', h, s) && SlotAt(st.objs[h], s).None?
    ensures OnlyGrew(st, st')
  {
    forall g | g in st.objs ensures g in st'.objs && Grown(st.objs[g], st'.objs[g]) {
      forall t | SlotAt(st.objs[g], t).Some? ensures SlotAt(st'.objs[g], t) == SlotAt(st.objs[g], t) {}
    }
  }

  // ---------------------------------------------------------------- Set and Delete

  /** The setter applied to a value. */
  method Assign(d: Doc, p: Path, t: Target, v: Value) returns (ok: bool)
    requires d.Valid() && TargetFor(d.store, p, t)
    modifies d
    ensures d.Valid()
    ensures Attaches(old(d.taken), d.taken, NewRefs(v), ok)
    ensures ok <==> p != [] && CanStore(v, old(d.taken)) &&
                    match t
                    case TheRoot => false
                    case InMap(_, key) => ValidKey(key)
                    case InList(h, i) => 0 <= i <= |old(d.store).objs[h].items|
    ensures p == [] ==> d.store == old(d.store)
    ensures p != [] ==> OnlySlot(old(d.store), d.store, t.h, Last(p)) || d.store == old(d.store)
    ensures ok ==> SlotAt(d.store.objs[t.h], Last(p)).Some? && ReadChild(d.store, t.h, Last(p)) == Stored(v)
  {
    ghost var st := d.store;
    match t {
      case TheRoot => ok := false;
      case InMap(h, key) => ok := d.MapSet(h, key, v);
      case InList(h, i) =>
        var length := |d.store.objs[h].items|;
        if i > length { return false; }
        if i == length {
          ok := d.ListPutValue(h, length, true, v);
        } else {
          if i < 0 || i >= length { return false; }
          ok := d.ListPutValue(h, i, false, v);
        }
        ListChangeIsOneSlot(st, d.store, h, i, i == length);
    }
  }

  lemma ListChangeIsOneSlot(st: Store, st': Store, h: nat, i: nat, before: bool)
    requires HasList(st, h) && HasList(st', h) && OthersKept(st, st', h)
    requires before ==> i == |st.objs[h].items|
    requires st'.objs[h].items == st.objs[h].items || Placed(st.objs[h].items, st'.objs[h].items, i, before)
    ensures OnlySlot(st, st', h, Index(i))
  {
    if st'.objs[h].items != st.objs[h].items {
      PlacedIsOneSlot(st, st', h, i, before);
    }
  }

  /** Path.Set: creates missing parents, then writes.  Whatever the outcome, a path that does not
      go through `p` still leads to what it led to. */
  method Set(d: Doc, p: Path, v: Value) returns (ok: bool)
    requires d.Valid()
    modifies d
    ensures d.Valid()
    ensures ok <==> CanPlace(old(d.store), p) && CanStore(v, old(d.taken))
    ensures Attaches(old(d.taken), d.taken, NewRefs(v), ok)
    ensures ok ==> var f := Lookup(d.store, p);
                   f.At? && InStore(d.store, f.slot) && Read(d.store, f.slot) == Stored(v)
    ensures forall q :: !(p <= q) && Lookup(old(d.store), q).At? ==> Lookup(d.store, q) == Lookup(old(d.store), q)
  {
    ghost var st0 := d.store;
    var e := Ensure(d, p);
    ghost var st1 := d.store;
    if e.Ready? {
      ok := Assign(d, p, e.target, v);
    } else {
      ok := false;
    }
    ghost var st2 := d.store;
    forall q | !(p <= q) && Lookup(st0, q).At? ensures Lookup(st2, q) == Lookup(st0, q) {
      LookupAfterGrowth(st0, st1, q);
      if st1 != st2 { LookupAfterWrite(st1, st2, p, q); }
    }
    if ok {
      WrittenIsFound(st1, st2, p, e.target);
    }
  }

  lemma WrittenIsFound(st: Store, st': Store, p: Path, t: Target)
    requires Tree(st) && Tree(st') && p != [] && TargetFor(st, p, t)
    requires Last(p).Key? ==> ValidKey(Last(p).k)
    requires OnlySlot(st, st', t.h, Last(p)) && SlotAt(st'.objs[t.h], Last(p)).Some?
    ensures Lookup(st', p) == At(SlotAt(st'.objs[t.h], Last(p)).value)
    ensures InStore(st', Lookup(st', p).slot) && Read(st', Lookup(st', p).slot) == ReadChild(st', t.h, Last(p))
  {
    assert p == Parent(p) + [Last(p)];
    LookupAfterWrite(st, st', p, Parent(p));
    assert ChildAbove(st', t.h, Last(p));
  }

  /** Whatever happens inside one object, paths that do not go through it are not affected. */
  lemma {:induction false} LookupAround(st: Store, st': Store, a: Path, q: Path)
    requires Tree(st) && Lookup(st, a).At? && Lookup(st, a).slot.Ref?
    requires OthersKept(st, st', Lookup(st, a).slot.id)
    requires !(a <= q) && Lookup(st, q).At?
    ensures Lookup(st', q) == Lookup(st, q)
  {
    if q != [] {
      var q' := Parent(q);
      assert q == q' + [Last(q)];
      assert a <= q' ==> a <= q;
      LookupAround(st, st', a, q');
      LookupInStore(st, q');
      if Lookup(st, q') == Lookup(st, a) { OnePath(st, a, q'); }
    }
  }

  /** Path.Delete: also creates missing parents.  Deleting a key leaves every path that does not go
      through it alone; deleting from a list moves the later items down by one. */
  method Delete(d: Doc, p: Path) returns (ok: bool)
    requires d.Valid()
    modifies d
    ensures d.Valid() && d.taken == old(d.taken)
    ensures ok <==> p != [] && CanPlace(old(d.store), p) && (Last(p).Index? ==> Last(p).i < LengthAt(old(d.store), Parent(p)))
    ensures ok && Last(p).Key? ==> Lookup(d.store, p) == Void
    ensures ok && Last(p).Index? ==>
              var h, i := Lookup(old(d.store), Parent(p)).slot.id, Last(p).i;
              ListAt(old(d.store), Parent(p)) && HasList(d.store, h)
              && d.store.objs[h].items == old(d.store).objs[h].items[..i] + old(d.store).objs[h].items[i + 1..]
    ensures forall q :: p != [] && !(p <= q) && !(Last(p).Index? && Parent(p) <= q) && Lookup(old(d.store), q).At?
                   ==> Lookup(d.store, q) == Lookup(old(d.store), q)
  {
    ghost var st0 := d.store;
    var e := Ensure(d, p);
    if e.Failed? {
      forall q | Lookup(st0, q).At? ensures Lookup(d.store, q) == Lookup(st0, q) {
        LookupAfterGrowth(st0, d.store, q);
      }
      return false;
    }
    ghost var st1 := d.store;
    match e.target {
      case TheRoot => return false;
      case InMap(h, key) =>
        ok := d.Do(OpMapDelete(h, key));
        if ok { DeletedKey(st1, d.store, p, h, key); }
      case InList(h, i) =>
        var length := |d.store.objs[h].items|;
        ok := false;
        if 0 <= i < length { ok := d.Do(OpListDelete(h, i)); }
    }
    ghost var st2 := d.store;
    forall q | !(p <= q) && !(Last(p).Index? && Parent(p) <= q) && Lookup(st0, q).At?
      ensures Lookup(st2, q) == Lookup(st0, q)
    {
      LookupAfterGrowth(st0, st1, q);
      if ok && Last(p).Key? { LookupAfterWrite(st1, st2, p, q); }
      if ok && Last(p).Index? { LookupAround(st1, st2, Parent(p), q); }
    }
  }

  lemma DeletedKey(st: Store, st': Store, p: Path, h: nat, key: GoString)
    requires Tree(st) && p != [] && TargetFor(st, p, InMap(h, key)) && MapDelete(st, h, key) == Some(st')
    ensures OnlySlot(st, st', h, Key(key)) && Lookup(st', p) == Void
  {
    DeletedSlot(st, st', h, key);
    assert p == Parent(p) + [Last(p)];
    LookupAfterWrite(st, st', p, Parent(p));
  }

  lemma DeletedSlot(st: Store, st': Store, h: nat, key: GoString)
    requires Tree(st) && MapDelete(st, h, key) == Some(st')
    ensures OnlySlot(st, st', h, Key(key)) && SlotAt(st'.objs[h], Key(key)).None?
  {
    forall t | t != Key(key) ensures SlotAt(st'.objs[h], t) == SlotAt(st.objs[h], t) {}
  }
}
