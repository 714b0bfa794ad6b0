/** Writing nested Go values into a document and reading them back (map.go, list.go, value.go),
    for maps and lists that are attached to the document.

    A document is an object that the methods update in place.  `log` records the engine calls, so
    that `Valid` says that the store is one a run of engine calls can reach.
  */
module Document {
  import opened Words
  import opened GoValues
  import opened Stores

  /** Whether a Go value can be written, when the texts and counters in `taken` already were. */
  ghost predicate CanStore(v: Value, taken: set<nat>) {
    NormalizeGivesNormal(v);
    Normalize(v).Some? && Storable(Normalize(v).value) && NewRefs(v) !! taken
  }

  /** The texts and counters that writing a Go value attaches. */
  ghost function NewRefs(v: Value): set<nat> {
    if Normalize(v).Some? then Refs(Normalize(v).value) else {}
  }

  /** What a write of `refs` does to the texts and counters: a failed one may have attached some. */
  ghost predicate Attaches(taken: set<nat>, taken': set<nat>, refs: set<nat>, ok: bool) {
    taken <= taken' <= taken + refs && (ok ==> taken' == taken + refs)
  }

  /** What is read back after a Go value has been written. */
  ghost function Stored(v: Value): Value
    requires Normalize(v).Some?
  {
    NormalizeGivesNormal(v);
    Readback(Normalize(v).value)
  }

  /** The list before and after one put: a slot was inserted at `i`, or replaced there. */
  ghost predicate Placed(items: seq<Slot>, items': seq<Slot>, i: nat, before: bool) {
    if before then i <= |items| && |items'| == |items| + 1 && items' == items[..i] + [items'[i]] + items[i..]
    else i < |items| && |items'| == |items| && items' == items[i := items'[i]]
  }

  /** What stays readable when only `h`, and in it only other slots, changed. */
  lemma ReadChildFrame(st: Store, st': Store, h: nat, s: Segment, s': Segment)
    requires Tree(st) && Tree(st') && h in st.objs && h in st'.objs && OthersKept(st, st', h)
    requires SlotAt(st.objs[h], s).Some? && SlotAt(st'.objs[h], s') == SlotAt(st.objs[h], s)
    ensures ReadChild(st', h, s') == ReadChild(st, h, s)
  {
    assert ChildAbove(st, h, s);
    ReadFrame(st, st', SlotAt(st.objs[h], s).value);
  }

  /** The effect of one put into a map. */
  lemma MapPutEffect(st: Store, h: nat, key: GoString, p: Put)
    requires Tree(st) && HasMap(st, h) && MapPut(st, h, key, p).Some?
    ensures var st' := MapPut(st, h, key, p).value;
            OnlySlot(st, st', h, Key(key)) && SlotAt(st'.objs[h], Key(key)) == Some(PutSlot(st, p))
            && (p.PutNew? ==> NewChild(st, st', p.kind, h))
  {
    var st' := MapPut(st, h, key, p).value;
    forall t | t != Key(key) ensures SlotAt(st'.objs[h], t) == SlotAt(st.objs[h], t) {}
  }

  /** The effect of one put into a list. */
  lemma ListPutEffect(st: Store, h: nat, i: nat, before: bool, p: Put)
    requires Tree(st) && HasList(st, h) && ListPut(st, h, i, before, p).Some?
    ensures var st' := ListPut(st, h, i, before, p).value;
            HasList(st', h) && OthersKept(st, st', h) && Placed(st.objs[h].items, st'.objs[h].items, i, before)
            && SlotAt(st'.objs[h], Index(i)) == Some(PutSlot(st, p))
            && (p.PutNew? ==> NewChild(st, st', p.kind, h))
  {}

  /** `st'` has a new, still empty object that `st` did not have. */
  ghost predicate NewChild(st: Store, st': Store, kind: Kind, h: nat) {
    && st.next !in st.objs && h != st.next
    && st.next in st'.objs && st'.objs[st.next] == NewObject(kind)
  }

  /** Filling the new child afterwards does not disturb the parent or anything older. */
  lemma FillKeeps(st: Store, st1: Store, st2: Store, h: nat)
    requires h in st1.objs && h != st.next && st.next !in st.objs
    requires OthersKept(st, st1, h) && OthersKept(st1, st2, st.next)
    ensures OthersKept(st, st2, h) && h in st2.objs && st2.objs[h] == st1.objs[h]
  {}

  /** The values that are stored by creating an object of this kind. */
  predicate Makes(v: Value, kind: Kind) {
    match kind
    case TextKind => v.NewText?
    case ListKind => v.Slice?
    case MapKind => v.Dict?
  }

  lemma KeysAfterPut(o: Object, o': Object, key: GoString)
    requires o.MapObj? && o'.MapObj? && SlotAt(o', Key(key)).Some?
    requires forall t :: t != Key(key) ==> SlotAt(o', t) == SlotAt(o, t)
    ensures o'.slots.Keys == o.slots.Keys + {key}
  {
    forall k ensures k in o'.slots <==> k in o.slots || k == key {
      assert k != key ==> SlotAt(o', Key(k)) == SlotAt(o, Key(k));
    }
  }

  /** The entries with keys in `done` have been written into the map `h`, and nothing else. */
  ghost predicate Filled(st: Store, h: nat, entries: map<GoString, Value>, done: set<GoString>)
    requires Normal(Dict(entries))
  {
    && Tree(st) && HasMap(st, h) && done <= entries.Keys && st.objs[h].slots.Keys == done
    && (forall k :: k in done ==> ValidKey(k) && Storable(entries[k]))
    && (forall k :: k in done ==> ReadChild(st, h, Key(k)) == Readback(entries[k]))
  }

  lemma FilledOneMore(st: Store, st': Store, h: nat, entries: map<GoString, Value>, done: set<GoString>, key: GoString)
    requires Normal(Dict(entries)) && Filled(st, h, entries, done) && key in entries && key !in done
    requires Tree(st') && OnlySlot(st, st', h, Key(key)) && SlotAt(st'.objs[h], Key(key)).Some?
    requires ValidKey(key) && Storable(entries[key]) && ReadChild(st', h, Key(key)) == Readback(entries[key])
    ensures Filled(st', h, entries, done + {key})
  {
    KeysAfterPut(st.objs[h], st'.objs[h], key);
    forall k | k in done ensures ReadChild(st', h, Key(k)) == Readback(entries[k]) {
      ReadChildFrame(st, st', h, Key(k), Key(k));
    }
  }

  lemma FilledCompletely(st: Store, h: nat, entries: map<GoString, Value>)
    requires Normal(Dict(entries)) && Filled(st, h, entries, entries.Keys)
    ensures Read(st, Ref(h)) == Readback(Dict(entries))
  {
    assert Read(st, Ref(h)).entries == Readback(Dict(entries)).entries;
  }

  /** The first `k` items have been written into the list `h`, and nothing else. */
  ghost predicate Appended(st: Store, h: nat, items: seq<Value>, k: nat)
    requires Normal(Slice(items)) && k <= |items|
  {
    && Tree(st) && HasList(st, h) && |st.objs[h].items| == k
    && (forall j :: 0 <= j < k ==> Storable(items[j]) && ReadChild(st, h, Index(j)) == Readback(items[j]))
  }

  lemma AppendedOneMore(st: Store, st': Store, h: nat, items: seq<Value>, k: nat)
    requires Normal(Slice(items)) && k < |items| && Appended(st, h, items, k) && Tree(st') && HasList(st', h)
    requires OthersKept(st, st', h) && Placed(st.objs[h].items, st'.objs[h].items, k, true)
    requires Storable(items[k]) && ReadChild(st', h, Index(k)) == Readback(items[k])
    ensures Appended(st', h, items, k + 1)
  {
    forall j | 0 <= j < k ensures ReadChild(st', h, Index(j)) == Readback(items[j]) {
      ReadChildFrame(st, st', h, Index(j), Index(j));
    }
  }

  lemma AppendedCompletely(st: Store, h: nat, items: seq<Value>, t0: set<nat>, t: set<nat>)
    requires Normal(Slice(items)) && Appended(st, h, items, |items|)
    requires TakenBy(ItemRefs(items), Below(|items|), t0, t)
    ensures Storable(Slice(items)) && Refs(Slice(items)) !! t0 && t == t0 + Refs(Slice(items))
    ensures Read(st, Ref(h)) == Readback(Slice(items))
  {
    assert Below(|items|) == ItemRefs(items).Keys;
    StorableSlice(items, t0);
    TogetherSlice(items, t0, t);
    assert Read(st, Ref(h)).items == Readback(Slice(items)).items;
  }

  lemma AllTaken(entries: map<GoString, Value>, t0: set<nat>, t: set<nat>)
    requires Normal(Dict(entries)) && TakenBy(EntryRefs(entries), entries.Keys, t0, t)
    requires forall k :: k in entries ==> ValidKey(k) && Storable(entries[k])
    ensures Storable(Dict(entries)) && Refs(Dict(entries)) !! t0 && t == t0 + Refs(Dict(entries))
  {
    assert EntryRefs(entries).Keys == entries.Keys;
    StorableDict(entries, t0);
    TogetherDict(entries, t0, t);
  }

  /** What a round does to the texts and counters, for an item of a list and an entry of a map. */
  lemma ItemRound(items: seq<Value>, k: nat, t0: set<nat>, t: set<nat>)
    requires Normal(Slice(items)) && k < |items| && TakenBy(ItemRefs(items), Below(k), t0, t)
    ensures Storable(items[k]) && Refs(items[k]) !! t ==> TakenBy(ItemRefs(items), Below(k + 1), t0, t + Refs(items[k]))
    ensures !(Storable(items[k]) && Refs(items[k]) !! t) ==> !(Storable(Slice(items)) && Refs(Slice(items)) !! t0)
    ensures t0 <= t <= t + Refs(items[k]) <= t0 + Refs(Slice(items))
  {
    var refs := ItemRefs(items);
    Round(refs, Below(k), k, t0, t, Refs(Slice(items)));
    StorableSlice(items, t0);
  }

  lemma EntryRound(entries: map<GoString, Value>, done: set<GoString>, key: GoString, t0: set<nat>, t: set<nat>)
    requires Normal(Dict(entries)) && key in entries && key !in done && done <= entries.Keys
    requires TakenBy(EntryRefs(entries), done, t0, t)
    ensures Storable(entries[key]) && Refs(entries[key]) !! t ==> TakenBy(EntryRefs(entries), done + {key}, t0, t + Refs(entries[key]))
    ensures !(ValidKey(key) && Storable(entries[key]) && Refs(entries[key]) !! t) ==> !(Storable(Dict(entries)) && Refs(Dict(entries)) !! t0)
    ensures t0 <= t <= t + Refs(entries[key]) <= t0 + Refs(Dict(entries))
  {
    Round(EntryRefs(entries), done, key, t0, t, Refs(Dict(entries)));
    StorableDict(entries, t0);
  }

  class Doc {
    var store: Store
    var taken: set<nat>        // the texts and counters whose document, map or list field is set
    ghost var log: seq<Op>

    ghost predicate Valid()
      reads this
    {
      store == Run(log) && Tree(store)
    }

    constructor ()
      ensures Valid() && store == EMPTY && taken == {}
    {
      store, taken, log := EMPTY, {}, [];
      EveryDocumentIsATree([]);
    }

    /** One engine call: it takes effect or returns an error code. */
    method Do(op: Op) returns (ok: bool)
      requires Valid()
      modifies this
      ensures Valid()
      ensures ok == Result(old(store), op).Some? && store == Apply(old(store), op) && taken == old(taken)
    {
      ok := Result(store, op).Some?;
      store := Apply(store, op);
      log := log + [op];
      assert log[..|log| - 1] == old(log);
      EveryDocumentIsATree(log);
    }

    /** Map.Set after normalizing: stores `v` under `key`, children after parents. */
    method PutInMap(h: nat, key: GoString, v: Value) returns (ok: bool)
      requires Valid() && HasMap(store, h) && Normal(v)
      modifies this
      ensures Valid()
      ensures ok == (ValidKey(key) && Storable(v) && Refs(v) !! old(taken)) && Attaches(old(taken), taken, Refs(v), ok)
      ensures OnlySlot(old(store), store, h, Key(key))
      ensures ok ==> SlotAt(store.objs[h], Key(key)).Some? && ReadChild(store, h, Key(key)) == Readback(v)
      decreases v, 1
    {
      ghost var st := store;
      match v
      case Leaf(s) =>
        ok := Do(OpMapPut(h, key, PutScalar(s)));
        if ok { MapPutEffect(st, h, key, PutScalar(s)); }
      case NewCounter(ref, c) =>
        if ref in taken { return false; }
        ok := Do(OpMapPut(h, key, PutCounter(c)));
        if ok {
          taken := taken + {ref};
          MapPutEffect(st, h, key, PutCounter(c));
        }
      case NewText(ref, text) =>
        if ref in taken { return false; }
        ok := PutNewInMap(h, key, TextKind, v);
      case Slice(items) =>
        ok := PutNewInMap(h, key, ListKind, v);
      case Dict(entries) =>
        ok := PutNewInMap(h, key, MapKind, v);
      case Attached =>
        ok := false;
    }

    /** The cases of Map.Set that create an object and then write into it. */
    method PutNewInMap(h: nat, key: GoString, kind: Kind, v: Value) returns (ok: bool)
      requires Valid() && HasMap(store, h) && Normal(v) && Makes(v, kind) && (v.NewText? ==> v.ref !in taken)
      modifies this
      ensures Valid()
      ensures ok == (ValidKey(key) && Storable(v) && Refs(v) !! old(taken)) && Attaches(old(taken), taken, Refs(v), ok)
      ensures OnlySlot(old(store), store, h, Key(key))
      ensures ok ==> SlotAt(store.objs[h], Key(key)).Some? && ReadChild(store, h, Key(key)) == Readback(v)
      decreases v, 0, 1
    {
      ghost var st := store;
      var child := store.next;
      ok := Do(OpMapPut(h, key, PutNew(kind)));
      if !ok { return; }
      MapPutEffect(st, h, key, PutNew(kind));
      ghost var st1 := store;
      ok := Fill(child, kind, v);
      FillKeeps(st, st1, store, h);
    }

    /** Writes the contents of `v` into the object that was just created for it. */
    method Fill(child: nat, kind: Kind, v: Value) returns (ok: bool)
      requires Valid() && Normal(v) && Makes(v, kind) && (v.NewText? ==> v.ref !in taken)
      requires child in store.objs && store.objs[child] == NewObject(kind)
      modifies this
      ensures Valid() && child in store.objs && OthersKept(old(store), store, child)
      ensures ok == (Storable(v) && Refs(v) !! old(taken)) && Attaches(old(taken), taken, Refs(v), ok)
      ensures ok ==> Read(store, Ref(child)) == Readback(v)
      decreases v, 0, 0
    {
      match v
      case NewText(ref, text) =>
        taken := taken + {ref};
        ok := Do(OpTextSet(child, text));
      case Slice(items) => ok := AppendAll(child, items, v);
      case Dict(entries) => ok := FillMap(child, entries, v);
    }

    /** List.put after normalizing. */
    method PutInList(h: nat, i: nat, before: bool, v: Value) returns (ok: bool)
      requires Valid() && HasList(store, h) && Normal(v)
      modifies this
      ensures Valid() && HasList(store, h)
      ensures ok == (Storable(v) && Refs(v) !! old(taken)
                     && (if before then i <= |old(store).objs[h].items| else i < |old(store).objs[h].items|))
      ensures Attaches(old(taken), taken, Refs(v), ok)
      ensures OthersKept(old(store), store, h)
      ensures Placed(old(store).objs[h].items, store.objs[h].items, i, before)
           || (!ok && store.objs[h].items == old(store).objs[h].items)
      ensures ok ==> Placed(old(store).objs[h].items, store.objs[h].items, i, before)
                     && ReadChild(store, h, Index(i)) == Readback(v)
      decreases v, 1
    {
      ghost var st := store;
      match v
      case Leaf(s) =>
        ok := Do(OpListPut(h, i, before, PutScalar(s)));
        if ok { ListPutEffect(st, h, i, before, PutScalar(s)); }
      case NewCounter(ref, c) =>
        if ref in taken { return false; }
        ok := Do(OpListPut(h, i, before, PutCounter(c)));
        if ok {
          taken := taken + {ref};
          ListPutEffect(st, h, i, before, PutCounter(c));
        }
      case NewText(ref, text) =>
        if ref in taken { return false; }
        ok := PutNewInList(h, i, before, TextKind, v);
      case Slice(items) =>
        ok := PutNewInList(h, i, before, ListKind, v);
      case Dict(entries) =>
        ok := PutNewInList(h, i, before, MapKind, v);
      case Attached =>
        ok := false;
    }

    /** The cases of List.put that create an object and then write into it. */
    method PutNewInList(h: nat, i: nat, before: bool, kind: Kind, v: Value) returns (ok: bool)
      requires Valid() && HasList(store, h) && Normal(v) && Makes(v, kind) && (v.NewText? ==> v.ref !in taken)
      modifies this
      ensures Valid() && HasList(store, h)
      ensures ok == (Storable(v) && Refs(v) !! old(taken)
                     && (if before then i <= |old(store).objs[h].items| else i < |old(store).objs[h].items|))
      ensures Attaches(old(taken), taken, Refs(v), ok)
      ensures OthersKept(old(store), store, h)
      ensures Placed(old(store).objs[h].items, store.objs[h].items, i, before)
           || (!ok && store.objs[h].items == old(store).objs[h].items)
      ensures ok ==> Placed(old(store).objs[h].items, store.objs[h].items, i, before)
                     && ReadChild(store, h, Index(i)) == Readback(v)
      decreases v, 0, 1
    {
      ghost var st := store;
      var child := store.next;
      ok := Do(OpListPut(h, i, before, PutNew(kind)));
      if !ok { return; }
      ListPutEffect(st, h, i, before, PutNew(kind));
      ghost var st1 := store;
      ok := Fill(child, kind, v);
      FillKeeps(st, st1, store, h);
    }

    /** The loop of List.Append over the items of a nested list. */
    method AppendAll(h: nat, items: seq<Value>, ghost whole: Value) returns (ok: bool)
      requires Valid() && HasList(store, h) && store.objs[h].items == []
      requires whole == Slice(items) && Normal(whole)
      modifies this
      ensures Valid() && HasList(store, h) && OthersKept(old(store), store, h)
      ensures ok == (Storable(whole) && Refs(whole) !! old(taken)) && Attaches(old(taken), taken, Refs(whole), ok)
      ensures ok ==> Read(store, Ref(h)) == Readback(whole)
      decreases whole, 0, 0, 1
    {
      for k := 0 to |items|
        invariant Valid() && OthersKept(old(store), store, h) && Appended(store, h, items, k)
        invariant TakenBy(ItemRefs(items), Below(k), old(taken), taken)
      {
        ok := AppendRound(h, items, k, whole, old(taken));
        if !ok { return; }
      }
      AppendedCompletely(store, h, items, old(taken), taken);
      return true;
    }

    method AppendRound(h: nat, items: seq<Value>, k: nat, ghost whole: Value, ghost t0: set<nat>) returns (ok: bool)
      requires Valid() && k < |items| && whole == Slice(items) && Normal(whole)
      requires Appended(store, h, items, k) && TakenBy(ItemRefs(items), Below(k), t0, taken)
      modifies this
      ensures Valid() && HasList(store, h) && OthersKept(old(store), store, h)
      ensures ok ==> Appended(store, h, items, k + 1) && TakenBy(ItemRefs(items), Below(k + 1), t0, taken)
      ensures !ok ==> !(Storable(whole) && Refs(whole) !! t0) && Attaches(t0, taken, Refs(whole), false)
      decreases whole, 0, 0, 0
    {
      ghost var st, t := store, taken;
      var length := |store.objs[h].items|;
      NormalIsFixed(items[k]);
      var item := Normalize(items[k]).value;
      ok := PutInList(h, length, true, item);
      ItemRound(items, k, t0, t);
      if ok { AppendedOneMore(st, store, h, items, k); }
    }

    /** The loop of Map.Set over a nested map: Go visits the keys in any order. */
    method FillMap(h: nat, entries: map<GoString, Value>, ghost whole: Value) returns (ok: bool)
      requires Valid() && HasMap(store, h) && store.objs[h].slots == map[]
      requires whole == Dict(entries) && Normal(whole)
      modifies this
      ensures Valid() && HasMap(store, h) && OthersKept(old(store), store, h)
      ensures ok == (Storable(whole) && Refs(whole) !! old(taken)) && Attaches(old(taken), taken, Refs(whole), ok)
      ensures ok ==> Read(store, Ref(h)) == Readback(whole)
      decreases whole, 0, 0, 1
    {
      var keys := entries.Keys;
      ghost var done: set<GoString> := {};
      while keys != {}
        invariant Valid() && OthersKept(old(store), store, h) && keys == entries.Keys - done && Filled(store, h, entries, done)
        invariant TakenBy(EntryRefs(entries), done, old(taken), taken)
        decreases keys
      {
        var key :| key in keys;
        ok := FillRound(h, entries, key, done, whole, old(taken));
        if !ok { return; }
        keys := keys - {key};
        done := done + {key};
      }
      assert done == entries.Keys;
      FilledCompletely(store, h, entries);
      AllTaken(entries, old(taken), taken);
      return true;
    }

    method FillRound(h: nat, entries: map<GoString, Value>, key: GoString, ghost done: set<GoString>, ghost whole: Value, ghost t0: set<nat>)
      returns (ok: bool)
      requires Valid() && key in entries && key !in done && whole == Dict(entries) && Normal(whole)
      requires Filled(store, h, entries, done) && TakenBy(EntryRefs(entries), done, t0, taken)
      modifies this
      ensures Valid() && HasMap(store, h) && OthersKept(old(store), store, h)
      ensures ok ==> Filled(store, h, entries, done + {key}) && TakenBy(EntryRefs(entries), done + {key}, t0, taken)
      ensures !ok ==> !(Storable(whole) && Refs(whole) !! t0) && Attaches(t0, taken, Refs(whole), false)
      decreases whole, 0, 0, 0
    {
      ghost var st, t := store, taken;
      NormalIsFixed(entries[key]);
      var val := Normalize(entries[key]).value;
      ok := PutInMap(h, key, val);
      EntryRound(entries, done, key, t0, t);
      if ok { FilledOneMore(st, store, h, entries, done, key); }
    }

    /** Map.Set on an attached map, for any Go value. */
    method MapSet(h: nat, key: GoString, v: Value) returns (ok: bool)
      requires Valid() && HasMap(store, h)
      modifies this
      ensures Valid()
      ensures ok <==> ValidKey(key) && CanStore(v, old(taken))
      ensures Attaches(old(taken), taken, NewRefs(v), ok)
      ensures OnlySlot(old(store), store, h, Key(key))
      ensures ok ==> SlotAt(store.objs[h], Key(key)).Some? && ReadChild(store, h, Key(key)) == Stored(v)
    {
      var n := Normalize(v);
      if n.None? { return false; }
      NormalizeGivesNormal(v);
      ok := PutInMap(h, key, n.value);
    }

    /** List.put on an attached list, for any Go value. */
    method ListPutValue(h: nat, i: nat, before: bool, v: Value) returns (ok: bool)
      requires Valid() && HasList(store, h)
      modifies this
      ensures Valid() && HasList(store, h)
      ensures Attaches(old(taken), taken, NewRefs(v), ok)
      ensures ok <==> CanStore(v, old(taken)) && (if before then i <= |old(store).objs[h].items| else i < |old(store).objs[h].items|)
      ensures OthersKept(old(store), store, h)
      ensures Placed(old(store).objs[h].items, store.objs[h].items, i, before)
           || (!ok && store.objs[h].items == old(store).objs[h].items)
      ensures ok ==> Placed(old(store).objs[h].items, store.objs[h].items, i, before)
                     && ReadChild(store, h, Index(i)) == Stored(v)
    {
      var n := Normalize(v);
      if n.None? { return false; }
      NormalizeGivesNormal(v);
      ok := PutInList(h, i, before, n.value);
    }

    /** Value.Interface: reads a slot recursively into plain Go data, map keys in any order. */
    method Interface(x: Slot) returns (v: Value)
      requires Valid() && InStore(store, x)
      ensures v == Read(store, x)
      decreases if x.Ref? then store.next - x.id else 0
    {
      match x
      case Val(s) => v := Leaf(s);
      case Count(c) => v := Leaf(Int64(c));
      case Ref(id) =>
        match store.objs[id]
        case TextObj(text) => v := Leaf(Str(text));
        case MapObj(slots) =>
          var out: map<GoString, Value> := map[];
          var keys := slots.Keys;
          while keys != {}
            invariant keys <= slots.Keys && out.Keys == slots.Keys - keys
            invariant forall k :: k in out ==> out[k] == ReadChild(store, id, Key(k))
            decreases keys
          {
            var key :| key in keys;
            assert SlotAt(store.objs[id], Key(key)).Some? && ChildAbove(store, id, Key(key));
            var r := Interface(slots[key]);
            out := out[key := r];
            keys := keys - {key};
          }
          v := Dict(out);
          assert out == Read(store, x).entries;
        case ListObj(items) =>
          var out: seq<Value> := [];
          for i := 0 to |items|
            invariant |out| == i
            invariant forall j :: 0 <= j < i ==> out[j] == ReadChild(store, id, Index(j))
          {
            assert SlotAt(store.objs[id], Index(i)).Some? && ChildAbove(store, id, Index(i));
            var r := Interface(items[i]);
            out := out + [r];
          }
          v := Slice(out);
          assert out == Read(store, x).items;
    }
  }
}
