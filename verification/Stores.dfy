/** The document as the engine holds it: objects by id, and the operations that change it.

    The Automerge engine is an external library.  What the wrapper relies on is modelled here: an
    object holds named or numbered slots, a slot holds a scalar, a counter or one child object,
    and putting an object always makes a new one.  Handles are identified with object ids.
  */
module Stores {
  import opened Words
  import opened GoValues

  datatype Kind = MapKind | ListKind | TextKind

  datatype Slot = Val(s: Scalar) | Count(c: i64) | Ref(id: nat)

  datatype Object =
    | MapObj(slots: map<GoString, Slot>)
    | ListObj(items: seq<Slot>)
    | TextObj(text: GoString)

  datatype Store = Store(objs: map<nat, Object>, next: nat)

  const ROOT: nat := 0

  const EMPTY: Store := Store(map[ROOT := MapObj(map[])], 1)

  /** One step into an object, as in a path. */
  datatype Segment = Key(k: GoString) | Index(i: int)

  function SlotAt(o: Object, s: Segment): Option<Slot> {
    match o
    case MapObj(slots) => if s.Key? && s.k in slots then Some(slots[s.k]) else None
    case ListObj(items) => if s.Index? && 0 <= s.i < |items| then Some(items[s.i]) else None
    case TextObj(_) => None
  }

  predicate HasMap(st: Store, h: nat) {
    h in st.objs && st.objs[h].MapObj?
  }

  predicate HasList(st: Store, h: nat) {
    h in st.objs && st.objs[h].ListObj?
  }

  // ---------------------------------------------------------------- engine operations

  /** The payload of a put: a scalar, a counter, or the kind of a new object. */
  datatype Put = PutScalar(s: Scalar) | PutCounter(c: i64) | PutNew(kind: Kind)

  /** The engine decodes the tagged payload first; only a string can fail to decode. */
  predicate Decodes(p: Put) {
    p.PutScalar? && p.s.Str? ==> Utf8(p.s.s)
  }

  function NewObject(kind: Kind): Object {
    match kind
    case MapKind => MapObj(map[])
    case ListKind => ListObj([])
    case TextKind => TextObj([])
  }

  /** The slot that a put leaves behind; a new object takes the next id. */
  function PutSlot(st: Store, p: Put): Slot {
    match p
    case PutScalar(s) => Val(s)
    case PutCounter(c) => Count(c)
    case PutNew(_) => Ref(st.next)
  }

  /** Replaces the object `h`, adding the new child that `p` asks for. */
  function Write(st: Store, h: nat, o: Object, p: Put): Store {
    if p.PutNew? then Store(st.objs[h := o][st.next := NewObject(p.kind)], st.next + 1)
    else Store(st.objs[h := o], st.next)
  }

  /** `None` is an error code: the store is then unchanged. */
  function MapPut(st: Store, h: nat, key: GoString, p: Put): Option<Store> {
    if !ValidKey(key) || !Decodes(p) || !HasMap(st, h) then None
    else Some(Write(st, h, MapObj(st.objs[h].slots[key := PutSlot(st, p)]), p))
  }

  function ListPut(st: Store, h: nat, index: nat, insert: bool, p: Put): Option<Store> {
    if !Decodes(p) || !HasList(st, h) then None
    else
      var items := st.objs[h].items;
      if insert then
        if index > |items| then None
        else Some(Write(st, h, ListObj(items[..index] + [PutSlot(st, p)] + items[index..]), p))
      else
        if index >= |items| then None
        else Some(Write(st, h, ListObj(items[index := PutSlot(st, p)]), p))
  }

  function MapDelete(st: Store, h: nat, key: GoString): Option<Store> {
    if !ValidKey(key) || !HasMap(st, h) then None
    else Some(st.(objs := st.objs[h := MapObj(st.objs[h].slots - {key})]))
  }

  function ListDelete(st: Store, h: nat, index: nat): Option<Store> {
    if !HasList(st, h) || index >= |st.objs[h].items| then None
    else
      var items := st.objs[h].items;
      Some(st.(objs := st.objs[h := ListObj(items[..index] + items[index + 1..])]))
  }

  function TextSet(st: Store, h: nat, text: GoString): Option<Store> {
    if !Utf8(text) || h !in st.objs || !st.objs[h].TextObj? then None
    else Some(st.(objs := st.objs[h := TextObj(text)]))
  }

  datatype Op =
    | OpMapPut(h: nat, key: GoString, p: Put)
    | OpListPut(h: nat, index: nat, insert: bool, p: Put)
    | OpMapDelete(h: nat, key: GoString)
    | OpListDelete(h: nat, index: nat)
    | OpTextSet(h: nat, text: GoString)

  function Result(st: Store, op: Op): Option<Store> {
    match op
    case OpMapPut(h, key, p) => MapPut(st, h, key, p)
    case OpListPut(h, index, insert, p) => ListPut(st, h, index, insert, p)
    case OpMapDelete(h, key) => MapDelete(st, h, key)
    case OpListDelete(h, index) => ListDelete(st, h, index)
    case OpTextSet(h, text) => TextSet(st, h, text)
  }

  function Apply(st: Store, op: Op): Store {
    var r := Result(st, op);
    if r.Some? then r.value else st
  }

  /** The store after a run of engine calls on a new document. */
  function Run(log: seq<Op>): Store {
    if log == [] then EMPTY else Apply(Run(log[..|log| - 1]), log[|log| - 1])
  }

  // ---------------------------------------------------------------- every document is a tree

  /** Children have larger ids than their parents, and no object is the child of two slots. */
  ghost predicate Tree(st: Store) {
    && HasMap(st, ROOT)
    && (forall h :: h in st.objs ==> h < st.next)
    && (forall h, s :: h in st.objs ==> ChildAbove(st, h, s))
    && (forall h, s, h', s' :: h in st.objs && h' in st.objs ==> OneParent(st, h, s, h', s'))
  }

  ghost predicate ChildAbove(st: Store, h: nat, s: Segment)
    requires h in st.objs
  {
    var x := SlotAt(st.objs[h], s);
    x.Some? && x.value.Ref? ==> h < x.value.id && x.value.id in st.objs
  }

  ghost predicate OneParent(st: Store, h: nat, s: Segment, h': nat, s': Segment)
    requires h in st.objs && h' in st.objs
  {
    var x, y := SlotAt(st.objs[h], s), SlotAt(st.objs[h'], s');
    x.Some? && x.value.Ref? && x == y ==> h == h' && s == s'
  }

  /** `o` holds each of its children once, and only children of `was` or the next new object. */
  ghost predicate Derived(o: Object, was: Object, next: nat) {
    && (forall s, s' :: Distinct(o, s, s'))
    && (forall s :: Kept(o, s, was, next))
  }

  ghost predicate Distinct(o: Object, s: Segment, s': Segment) {
    var x := SlotAt(o, s);
    x.Some? && x.value.Ref? && x == SlotAt(o, s') ==> s == s'
  }

  ghost predicate Kept(o: Object, s: Segment, was: Object, next: nat) {
    var x := SlotAt(o, s);
    x.Some? && x.value.Ref? ==> x == Some(Ref(next)) || exists t :: SlotAt(was, t) == x
  }

  lemma WriteKeepsTree(st: Store, h: nat, o: Object, p: Put)
    requires Tree(st) && h in st.objs
    requires o.MapObj? == st.objs[h].MapObj?
    requires Derived(o, st.objs[h], st.next)
    requires !p.PutNew? ==> forall s :: SlotAt(o, s) != Some(Ref(st.next))
    ensures Tree(Write(st, h, o, p))
  {
    var st' := Write(st, h, o, p);
    forall g, s | g in st'.objs ensures ChildAbove(st', g, s) {
      if g == h {
        assert Kept(o, s, st.objs[h], st.next);
        var x := SlotAt(o, s);
        if x.Some? && x.value.Ref? && x != Some(Ref(st.next)) {
          var t :| SlotAt(st.objs[h], t) == x;
          assert ChildAbove(st, h, t);
        }
      } else if g in st.objs {
        assert ChildAbove(st, g, s);
      }
    }
    forall g, s, g', s' | g in st'.objs && g' in st'.objs ensures OneParent(st', g, s, g', s') {
      var x := SlotAt(st'.objs[g], s);
      if x.Some? && x.value.Ref? && x == SlotAt(st'.objs[g'], s') {
        assert g in st.objs && g' in st.objs;
        assert Distinct(o, s, s');
        var a, t := FormerParent(st, h, o, g, s);
        var a', t' := FormerParent(st, h, o, g', s');
        if x != Some(Ref(st.next)) {
          assert OneParent(st, a, t, a', t');
        }
      }
    }
  }

  /** Where the child in slot `s` of `g`, after `h` became `o`, was before. */
  lemma FormerParent(st: Store, h: nat, o: Object, g: nat, s: Segment) returns (a: nat, t: Segment)
    requires Tree(st) && h in st.objs && g in st.objs && Derived(o, st.objs[h], st.next)
    requires var x := SlotAt(if g == h then o else st.objs[g], s); x.Some? && x.value.Ref?
    ensures var x := SlotAt(if g == h then o else st.objs[g], s);
            a == g && (g != h ==> t == s && x != Some(Ref(st.next)))
            && (x != Some(Ref(st.next)) ==> SlotAt(st.objs[a], t) == x)
  {
    a, t := g, s;
    if g == h {
      assert Kept(o, s, st.objs[h], st.next);
      var x := SlotAt(o, s);
      if x != Some(Ref(st.next)) {
        t :| SlotAt(st.objs[h], t) == x;
      }
    } else {
      assert ChildAbove(st, g, s);
    }
  }

  lemma ChildrenAreOld(st: Store, h: nat, s: Segment)
    requires Tree(st) && h in st.objs
    ensures SlotAt(st.objs[h], s) != Some(Ref(st.next))
  {
    assert ChildAbove(st, h, s);
  }

  /** Replacing a list by one whose slots come, each from its own place, from the old list or
      from the put. */
  lemma ListDerived(st: Store, h: nat, items: seq<Slot>, from: int -> int, x: Slot)
    requires Tree(st) && HasList(st, h)
    requires x.Ref? ==> x.id == st.next
    requires forall i :: 0 <= i < |items| ==>
               (0 <= from(i) < |st.objs[h].items| && items[i] == st.objs[h].items[from(i)]) || (from(i) == -1 && items[i] == x)
    requires forall i, j :: 0 <= i < |items| && 0 <= j < |items| && from(i) == from(j) ==> i == j
    ensures Derived(ListObj(items), st.objs[h], st.next)
    ensures !x.Ref? ==> forall s :: SlotAt(ListObj(items), s) != Some(Ref(st.next))
  {
    var o, was := ListObj(items), st.objs[h];
    forall s ensures Kept(o, s, was, st.next)
      ensures !x.Ref? ==> SlotAt(o, s) != Some(Ref(st.next))
    {
      if s.Index? && 0 <= s.i < |items| && from(s.i) != -1 {
        assert SlotAt(was, Index(from(s.i))) == SlotAt(o, s);
        ChildrenAreOld(st, h, Index(from(s.i)));
      }
    }
    forall s, s' ensures Distinct(o, s, s') {
      if s.Index? && s'.Index? && 0 <= s.i < |items| && 0 <= s'.i < |items| && items[s.i].Ref? && items[s.i] == items[s'.i] {
        var a, b := from(s.i), from(s'.i);
        if a != -1 { ChildrenAreOld(st, h, Index(a)); }
        if b != -1 { ChildrenAreOld(st, h, Index(b)); }
        if a != -1 && b != -1 { assert OneParent(st, h, Index(a), h, Index(b)); }
      }
    }
  }

  lemma MapDerived(st: Store, h: nat, key: GoString, x: Slot)
    requires Tree(st) && HasMap(st, h)
    requires x.Ref? ==> x.id == st.next
    ensures var o := MapObj(st.objs[h].slots[key := x]);
            Derived(o, st.objs[h], st.next) && (!x.Ref? ==> forall s :: SlotAt(o, s) != Some(Ref(st.next)))
    ensures var o := MapObj(st.objs[h].slots - {key});
            Derived(o, st.objs[h], st.next) && forall s :: SlotAt(o, s) != Some(Ref(st.next))
  {
    var was := st.objs[h];
    var o, d := MapObj(was.slots[key := x]), MapObj(was.slots - {key});
    forall s ensures Kept(o, s, was, st.next) && Kept(d, s, was, st.next)
      ensures SlotAt(d, s) != Some(Ref(st.next)) && (!x.Ref? ==> SlotAt(o, s) != Some(Ref(st.next)))
    {
      ChildrenAreOld(st, h, s);
      assert s != Key(key) ==> SlotAt(o, s) == SlotAt(was, s) == SlotAt(d, s);
    }
    forall s, s' ensures Distinct(o, s, s') && Distinct(d, s, s') {
      ChildrenAreOld(st, h, s);
      ChildrenAreOld(st, h, s');
      assert OneParent(st, h, s, h, s');
      assert s != Key(key) ==> SlotAt(o, s) == SlotAt(was, s) == SlotAt(d, s);
      assert s' != Key(key) ==> SlotAt(o, s') == SlotAt(was, s') == SlotAt(d, s');
    }
  }

  lemma {:induction false} ApplyKeepsTree(st: Store, op: Op)
    requires Tree(st)
    ensures Tree(Apply(st, op))
  {
    if Result(st, op).Some? {
      match op
      case OpMapPut(h, key, p) =>
        MapDerived(st, h, key, PutSlot(st, p));
        WriteKeepsTree(st, h, MapObj(st.objs[h].slots[key := PutSlot(st, p)]), p);
      case OpListPut(h, index, insert, p) => ListPutKeepsTree(st, h, index, insert, p);
      case OpMapDelete(h, key) =>
        MapDerived(st, h, key, Val(Null));
        WriteKeepsTree(st, h, MapObj(st.objs[h].slots - {key}), PutScalar(Null));
      case OpListDelete(h, index) => ListDeleteKeepsTree(st, h, index);
      case OpTextSet(h, text) =>
        forall s, s' ensures Distinct(TextObj(text), s, s') && Kept(TextObj(text), s, st.objs[h], st.next) {}
        WriteKeepsTree(st, h, TextObj(text), PutScalar(Null));
    }
  }

  lemma ListPutKeepsTree(st: Store, h: nat, index: nat, insert: bool, p: Put)
    requires Tree(st) && ListPut(st, h, index, insert, p).Some?
    ensures Tree(ListPut(st, h, index, insert, p).value)
  {
    var items, x := st.objs[h].items, PutSlot(st, p);
    if insert {
      var items' := items[..index] + [x] + items[index..];
      ListDerived(st, h, items', i => if i < index then i else if i == index then -1 else i - 1, x);
      WriteKeepsTree(st, h, ListObj(items'), p);
    } else {
      ListDerived(st, h, items[index := x], i => if i == index then -1 else i, x);
      WriteKeepsTree(st, h, ListObj(items[index := x]), p);
    }
  }

  lemma ListDeleteKeepsTree(st: Store, h: nat, index: nat)
    requires Tree(st) && ListDelete(st, h, index).Some?
    ensures Tree(ListDelete(st, h, index).value)
  {
    var items := st.objs[h].items;
    var items' := items[..index] + items[index + 1..];
    ListDerived(st, h, items', i => if i < index then i else i + 1, Val(Null));
    WriteKeepsTree(st, h, ListObj(items'), PutScalar(Null));
  }

  /** Every document that any run of engine calls can reach is a tree. */
  lemma {:induction false} EveryDocumentIsATree(log: seq<Op>)
    ensures Tree(Run(log))
  {
    if log == [] {
      assert forall h, s :: h in EMPTY.objs ==> ChildAbove(EMPTY, h, s);
    } else {
      EveryDocumentIsATree(log[..|log| - 1]);
      ApplyKeepsTree(Run(log[..|log| - 1]), log[|log| - 1]);
    }
  }

  // ---------------------------------------------------------------- reading

  predicate InStore(st: Store, x: Slot) {
    x.Ref? ==> x.id in st.objs
  }

  /** The value of a slot as plain Go data: what Value.Interface returns.  The recursion ends
      because children have larger ids. */
  ghost function Read(st: Store, x: Slot): Value
    requires Tree(st) && InStore(st, x)
    decreases if x.Ref? then st.next - x.id else 0
  {
    match x
    case Val(s) => Leaf(s)
    case Count(c) => Leaf(Int64(c))
    case Ref(id) =>
      match st.objs[id]
      case MapObj(slots) => Dict(map k | k in slots :: ReadChild(st, id, Key(k)))
      case ListObj(items) => Slice(seq(|items|, i requires 0 <= i < |items| => ReadChild(st, id, Index(i))))
      case TextObj(text) => Leaf(Str(text))
  }

  ghost function ReadChild(st: Store, id: nat, s: Segment): Value
    requires Tree(st) && id in st.objs && SlotAt(st.objs[id], s).Some?
    decreases st.next - id, 0
  {
    assert ChildAbove(st, id, s);
    Read(st, SlotAt(st.objs[id], s).value)
  }

  /** Reading a slot looks only at its object and at objects with larger ids. */
  lemma {:induction false} ReadFrame(st: Store, st': Store, x: Slot)
    requires Tree(st) && Tree(st') && InStore(st, x)
    requires x.Ref? ==> forall g :: g in st.objs && g >= x.id ==> g in st'.objs && st'.objs[g] == st.objs[g]
    ensures InStore(st', x) && Read(st', x) == Read(st, x)
    decreases if x.Ref? then st.next - x.id else 0
  {
    if x.Ref? {
      var o := st.objs[x.id];
      forall s | SlotAt(o, s).Some? ensures ReadChild(st', x.id, s) == ReadChild(st, x.id, s) {
        assert ChildAbove(st, x.id, s);
        ReadFrame(st, st', SlotAt(o, s).value);
      }
      match o
      case MapObj(slots) =>
        assert forall k :: k in slots ==> SlotAt(o, Key(k)).Some?;
        assert Read(st', x).entries == Read(st, x).entries;
      case ListObj(items) =>
        assert forall i :: 0 <= i < |items| ==> SlotAt(o, Index(i)).Some?;
        assert Read(st', x).items == Read(st, x).items;
      case TextObj(_) =>
    }
  }

  // ---------------------------------------------------------------- paths

  /** What a path leads to: nothing, a slot, or an error because it steps into something that has
      no such step. */
  datatype Found = Void | At(slot: Slot) | NotTraversable

  function StepInto(st: Store, f: Found, s: Segment): Found {
    if !f.At? then f
    else if s.Key? then
      if f.slot.Ref? && HasMap(st, f.slot.id) then
        var x := SlotAt(st.objs[f.slot.id], s);
        if ValidKey(s.k) && x.Some? then At(x.value) else Void
      else NotTraversable
    else
      if f.slot.Ref? && HasList(st, f.slot.id) then
        var x := SlotAt(st.objs[f.slot.id], s);
        if x.Some? then At(x.value) else Void
      else NotTraversable
  }

  type Path = seq<Segment>

  function Parent(p: Path): Path
    requires p != []
  {
    p[..|p| - 1]
  }

  function Last(p: Path): Segment
    requires p != []
  {
    p[|p| - 1]
  }

  function Lookup(st: Store, p: Path): Found {
    if p == [] then At(Ref(ROOT)) else StepInto(st, Lookup(st, Parent(p)), Last(p))
  }

  lemma {:induction false} LookupInStore(st: Store, p: Path)
    requires Tree(st)
    ensures Lookup(st, p).At? ==> InStore(st, Lookup(st, p).slot)
  {
    if p != [] {
      LookupInStore(st, Parent(p));
      var f := Lookup(st, Parent(p));
      if f.At? && f.slot.Ref? { assert ChildAbove(st, f.slot.id, Last(p)); }
    }
  }

  /** In a tree, only one path leads to an object. */
  lemma {:induction false} OnePath(st: Store, p: Path, q: Path)
    requires Tree(st)
    requires Lookup(st, p).At? && Lookup(st, p).slot.Ref? && Lookup(st, p) == Lookup(st, q)
    ensures p == q
  {
    if p != [] { NotRoot(st, p); }
    if q != [] { NotRoot(st, q); }
    if p != [] && q != [] {
      var h, h' := Lookup(st, Parent(p)).slot.id, Lookup(st, Parent(q)).slot.id;
      assert OneParent(st, h, Last(p), h', Last(q));
      OnePath(st, Parent(p), Parent(q));
      assert p == Parent(p) + [Last(p)] && q == Parent(q) + [Last(q)];
    }
  }

  lemma NotRoot(st: Store, p: Path)
    requires Tree(st) && p != [] && Lookup(st, p).At? && Lookup(st, p).slot.Ref?
    ensures Lookup(st, p).slot.id > ROOT
    ensures Lookup(st, Parent(p)).slot.id in st.objs
  {
    LookupInStore(st, Parent(p));
    assert ChildAbove(st, Lookup(st, Parent(p)).slot.id, Last(p));
  }

  // ---------------------------------------------------------------- what a write leaves alone

  /** Nothing but the object `h` differs, among the objects that were there. */
  ghost predicate OthersKept(st: Store, st': Store, h: nat) {
    && st.next <= st'.next
    && (forall g :: g in st.objs && g != h ==> g in st'.objs && st'.objs[g] == st.objs[g])
  }

  /** No slot of any object that was there differs, except perhaps slot `s` of `h`; every other
      slot that `h` had is where it was. */
  ghost predicate OnlySlot(st: Store, st': Store, h: nat, s: Segment) {
    && h in st.objs && h in st'.objs
    && OthersKept(st, st', h)
    && (st'.objs[h].MapObj? == st.objs[h].MapObj?) && (st'.objs[h].ListObj? == st.objs[h].ListObj?)
    && (forall t :: t != s ==> SlotAt(st'.objs[h], t) == SlotAt(st.objs[h], t))
  }

  /** Slots were only added: whatever a slot held, it still holds. */
  ghost predicate OnlyGrew(st: Store, st': Store) {
    && st.next <= st'.next
    && (forall g :: g in st.objs ==> g in st'.objs && Grown(st.objs[g], st'.objs[g]))
  }

  ghost predicate Grown(o: Object, o': Object) {
    && o.MapObj? == o'.MapObj? && o.ListObj? == o'.ListObj?
    && (forall s :: SlotAt(o, s).Some? ==> SlotAt(o', s) == SlotAt(o, s))
  }

  lemma {:induction false} LookupAfterGrowth(st: Store, st': Store, q: Path)
    requires Tree(st) && OnlyGrew(st, st') && Lookup(st, q).At?
    ensures Lookup(st', q) == Lookup(st, q)
  {
    if q != [] {
      LookupAfterGrowth(st, st', Parent(q));
      LookupInStore(st, Parent(q));
      var h := Lookup(st, Parent(q)).slot.id;
      assert Grown(st.objs[h], st'.objs[h]);
    }
  }

  /** A write to one slot leaves every path that does not go through that slot as it was. */
  lemma {:induction false} LookupAfterWrite(st: Store, st': Store, p: Path, q: Path)
    requires Tree(st) && p != []
    requires Lookup(st, Parent(p)).At? && Lookup(st, Parent(p)).slot.Ref?
    requires OnlySlot(st, st', Lookup(st, Parent(p)).slot.id, Last(p))
    requires !(p <= q) && Lookup(st, q).At?
    ensures Lookup(st', q) == Lookup(st, q)
  {
    if q != [] {
      var q' := Parent(q);
      assert q == q' + [Last(q)];
      LookupAfterWrite(st, st', p, q');
      LookupInStore(st, q');
      var h, g := Lookup(st, Parent(p)).slot.id, Lookup(st, q').slot.id;
      assert p == Parent(p) + [Last(p)];
      if g == h && Last(q) == Last(p) {
        OnePath(st, Parent(p), q');
      }
    }
  }
}
