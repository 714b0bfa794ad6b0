/** The Go values a caller can store, and `normalize` (normalize.go).

    Go strings are byte strings.  Floats are reals: converting an `int` to float64 is exact here.
  */
module GoValues {
  import opened Words

  type GoString = seq<byte>

  /** Well-formed UTF-8, table 3-7 of the Unicode standard. */
  predicate Utf8(s: GoString) {
    if s == [] then true
    else if s[0] < 0x80 then Utf8(s[1..])
    else if 0xC2 <= s[0] <= 0xDF then |s| >= 2 && Tail(s[1]) && Utf8(s[2..])
    else if 0xE0 <= s[0] <= 0xEF then
      |s| >= 3 && Tail(s[1]) && Tail(s[2]) && Utf8(s[3..]) &&
      (s[0] == 0xE0 ==> s[1] >= 0xA0) && (s[0] == 0xED ==> s[1] <= 0x9F)
    else if 0xF0 <= s[0] <= 0xF4 then
      |s| >= 4 && Tail(s[1]) && Tail(s[2]) && Tail(s[3]) && Utf8(s[4..]) &&
      (s[0] == 0xF0 ==> s[1] >= 0x90) && (s[0] == 0xF4 ==> s[1] <= 0x8F)
    else false
  }

  predicate Tail(b: byte) {
    0x80 <= b <= 0xBF
  }

  /** The engine refuses empty keys and keys that are not UTF-8. */
  predicate ValidKey(k: GoString) {
    k != [] && Utf8(k)
  }

  datatype Scalar =
    | Null
    | Bool(b: bool)
    | Str(s: GoString)
    | Bytes(bytes: seq<byte>)
    | Int64(i: i64)
    | Uint64(u: u64)
    | Float(r: real)
    | Time(ms: i64)

  datatype Value =
    | Leaf(s: Scalar)
    | SmallInt(n: int)                        // any integer type but int64 and uint64
    | Pointer(target: Value)                  // a pointer or an interface
    | Slice(items: seq<Value>)
    | Dict(entries: map<GoString, Value>)     // a map with string keys
    | Struct(fields: seq<Field>)
    | NewText(ref: nat, text: GoString)       // a *Text made by NewText, at address `ref`
    | NewCounter(ref: nat, count: i64)        // a *Counter made by NewCounter, at address `ref`
    | Attached                                // a *Map, *List, *Text or *Counter read from a document
    | Unsupported                             // a channel, a function, a map with other keys, ...

  datatype Field = Field(name: GoString, omit: bool, value: Value)

  /** The result of normalize; `None` is an error. */
  function Normalize(v: Value): Option<Value>
    decreases v, 0
  {
    match v
    case Leaf(_) => Some(v)
    case SmallInt(n) => Some(Leaf(Float(n as real)))
    case Pointer(t) => Normalize(t)
    case Slice(items) =>
      if forall x :: x in items ==> Normalize(x).Some?
      then Some(Slice(seq(|items|, i requires 0 <= i < |items| => Normalize(items[i]).value)))
      else None
    case Dict(entries) =>
      if forall k :: k in entries ==> Normalize(entries[k]).Some?
      then Some(Dict(map k | k in entries :: Normalize(entries[k]).value))
      else None
    case Struct(fields) =>
      var r := NormalizeFields(fields);
      if r.Some? then Some(Dict(r.value)) else None
    case NewText(_, _) => Some(v)
    case NewCounter(_, _) => Some(v)
    case Attached => Some(v)
    case Unsupported => None
  }

  /** Fields are written in order, so the last of two fields with one name is kept. */
  function NormalizeFields(fields: seq<Field>): Option<map<GoString, Value>>
    decreases fields, 1
  {
    if fields == [] then Some(map[])
    else
      var last := fields[|fields| - 1];
      var init := NormalizeFields(fields[..|fields| - 1]);
      if init.None? || last.omit then init
      else
        var r := Normalize(last.value);
        if r.None? then None else Some(init.value[last.name := r.value])
  }

  /** The values that normalize produces. */
  predicate Normal(v: Value) {
    match v
    case Leaf(_) => true
    case NewText(_, _) => true
    case NewCounter(_, _) => true
    case Attached => true
    case Slice(items) => forall x :: x in items ==> Normal(x)
    case Dict(entries) => forall k :: k in entries ==> Normal(entries[k])
    case _ => false
  }

  lemma AllNormal(entries: map<GoString, Value>)
    requires forall k :: k in entries ==> Normal(entries[k])
    ensures Normal(Dict(entries))
  {}

  lemma {:induction false} NormalizeGivesNormal(v: Value)
    ensures Normalize(v).Some? ==> Normal(Normalize(v).value)
    decreases v, 0
  {
    match v
    case Pointer(t) => NormalizeGivesNormal(t);
    case Slice(items) =>
      forall x | x in items ensures Normalize(x).Some? ==> Normal(Normalize(x).value) {
        NormalizeGivesNormal(x);
      }
    case Dict(entries) =>
      forall k | k in entries ensures Normalize(entries[k]).Some? ==> Normal(Normalize(entries[k]).value) {
        NormalizeGivesNormal(entries[k]);
      }
    case Struct(fields) =>
      FieldsGiveNormal(fields);
      var r := NormalizeFields(fields);
      if r.Some? { AllNormal(r.value); }
    case _ =>
  }

  lemma {:induction false} FieldsGiveNormal(fields: seq<Field>)
    ensures var r := NormalizeFields(fields);
            r.Some? ==> forall k :: k in r.value ==> Normal(r.value[k])
    decreases fields, 1
  {
    if fields != [] {
      FieldsGiveNormal(fields[..|fields| - 1]);
      NormalizeGivesNormal(fields[|fields| - 1].value);
    }
  }

  /** Normalizing again changes nothing, so the nested writes may normalize what they are given. */
  lemma {:induction false} NormalIsFixed(v: Value)
    requires Normal(v)
    ensures Normalize(v) == Some(v)
  {
    match v
    case Slice(items) =>
      forall x | x in items ensures Normalize(x) == Some(x) { NormalIsFixed(x); }
      assert Normalize(v).value.items == items;
    case Dict(entries) =>
      forall k | k in entries ensures Normalize(entries[k]) == Some(entries[k]) { NormalIsFixed(entries[k]); }
      assert Normalize(v).value.entries == entries;
    case _ =>
  }

  // ---------------------------------------------------------------- texts and counters by address

  /** The addresses of the texts and counters in a value.  The same one may occur more than once. */
  ghost function Refs(v: Value): set<nat> {
    match v
    case NewText(ref, _) => {ref}
    case NewCounter(ref, _) => {ref}
    case Slice(items) => set i, x | 0 <= i < |items| && x in Refs(items[i]) :: x
    case Dict(entries) => set k, x | k in entries && x in Refs(entries[k]) :: x
    case _ => {}
  }

  ghost function ItemRefs(items: seq<Value>): map<int, set<nat>> {
    map i | 0 <= i < |items| :: Refs(items[i])
  }

  ghost function EntryRefs(entries: map<GoString, Value>): map<GoString, set<nat>> {
    map k | k in entries :: Refs(entries[k])
  }

  /** The parts in `done` have no address in common with each other or with `taken`. */
  ghost predicate AllNew<I(!new)>(refs: map<I, set<nat>>, done: set<I>, taken: set<nat>)
    requires done <= refs.Keys
  {
    && (forall i :: i in done ==> refs[i] !! taken)
    && (forall i, j :: i in done && j in done && i != j ==> refs[i] !! refs[j])
  }

  /** `taken` and the addresses of the parts in `done` make `now`. */
  ghost predicate Together<I(!new)>(refs: map<I, set<nat>>, done: set<I>, taken: set<nat>, now: set<nat>)
    requires done <= refs.Keys
  {
    && taken <= now
    && (forall i :: i in done ==> refs[i] <= now)
    && (forall x :: x in now ==> x in taken || exists i :: i in done && x in refs[i])
  }

  /** One more part: it is new exactly if all are still distinct. */
  lemma OneMorePart<I(!new)>(refs: map<I, set<nat>>, done: set<I>, k: I, taken: set<nat>, now: set<nat>)
    requires done <= refs.Keys && k in refs && k !in done && Together(refs, done, taken, now)
    requires AllNew(refs, done, taken)
    ensures refs[k] !! now <==> AllNew(refs, done + {k}, taken)
    ensures Together(refs, done + {k}, taken, now + refs[k])
  {
    var all, after := done + {k}, now + refs[k];
    if refs[k] !! now {
      forall i, j | i in all && j in all && i != j ensures refs[i] !! refs[j] {}
    } else {
      var x :| x in refs[k] && x in now;
      if x !in taken {
        var i :| i in done && x in refs[i];
        assert i in all && k in all && !(refs[i] !! refs[k]);
      }
    }
    forall x | x in after ensures x in taken || exists i :: i in all && x in refs[i] {
      if x in now && x !in taken {
        var i :| i in done && x in refs[i];
        assert i in all;
      } else if x !in taken {
        assert k in all;
      }
    }
  }

  /** Parts that are not new by themselves are not new among others. */
  lemma FewerAreNew<I(!new)>(refs: map<I, set<nat>>, done: set<I>, more: set<I>, taken: set<nat>)
    requires done <= more <= refs.Keys && AllNew(refs, more, taken)
    ensures AllNew(refs, done, taken)
  {}

  /** Addresses of some parts are addresses of the whole. */
  lemma Within<I(!new)>(refs: map<I, set<nat>>, done: set<I>, taken: set<nat>, now: set<nat>, all: set<nat>)
    requires done <= refs.Keys && Together(refs, done, taken, now) && forall i :: i in refs ==> refs[i] <= all
    ensures now <= taken + all
  {
    forall x | x in now ensures x in taken + all {
      if x !in taken { var i :| i in done && x in refs[i]; }
    }
  }

  /** The parts in `done` were new, and with them `taken` became `now`. */
  ghost predicate TakenBy<I(!new)>(refs: map<I, set<nat>>, done: set<I>, taken: set<nat>, now: set<nat>) {
    done <= refs.Keys && AllNew(refs, done, taken) && Together(refs, done, taken, now)
  }

  lemma Round<I(!new)>(refs: map<I, set<nat>>, done: set<I>, k: I, taken: set<nat>, now: set<nat>, all: set<nat>)
    requires TakenBy(refs, done, taken, now) && k in refs && k !in done
    requires forall i :: i in refs ==> refs[i] <= all
    ensures refs[k] !! now ==> TakenBy(refs, done + {k}, taken, now + refs[k])
    ensures !(refs[k] !! now) ==> !AllNew(refs, refs.Keys, taken)
    ensures taken <= now <= now + refs[k] <= taken + all
  {
    OneMorePart(refs, done, k, taken, now);
    Within(refs, done, taken, now, all);
    if AllNew(refs, refs.Keys, taken) { FewerAreNew(refs, done + {k}, refs.Keys, taken); }
  }

  /** The indexes below `k`. */
  ghost function Below(k: nat): (js: set<int>)
    ensures forall j :: j in js <==> 0 <= j < k
  {
    if k == 0 then {} else Below(k - 1) + {k - 1}
  }

  /** What the engine and the wrapper take: UTF-8 strings, valid keys, nothing that comes from a
      document, and each text and counter once, since it is attached by its first write. */
  ghost predicate Storable(v: Value)
    requires Normal(v)
  {
    match v
    case Leaf(Str(s)) => Utf8(s)
    case Leaf(_) => true
    case NewText(_, s) => Utf8(s)
    case NewCounter(_, _) => true
    case Attached => false
    case Slice(items) =>
      (forall x :: x in items ==> Storable(x)) && AllNew(ItemRefs(items), ItemRefs(items).Keys, {})
    case Dict(entries) =>
      (forall k :: k in entries ==> ValidKey(k) && Storable(entries[k])) && AllNew(EntryRefs(entries), EntryRefs(entries).Keys, {})
  }

  /** For a list: storable without touching what is taken. */
  lemma StorableSlice(items: seq<Value>, taken: set<nat>)
    requires Normal(Slice(items))
    ensures Storable(Slice(items)) && Refs(Slice(items)) !! taken <==>
            (forall x :: x in items ==> Storable(x)) && AllNew(ItemRefs(items), ItemRefs(items).Keys, taken)
  {
    var refs := ItemRefs(items);
    assert forall i :: i in refs.Keys ==> refs[i] <= Refs(Slice(items));
    forall x | x in Refs(Slice(items)) ensures exists i :: i in refs.Keys && x in refs[i] {
      var i :| 0 <= i < |items| && x in Refs(items[i]);
      assert i in refs.Keys && x in refs[i];
    }
  }

  lemma StorableDict(entries: map<GoString, Value>, taken: set<nat>)
    requires Normal(Dict(entries))
    ensures Storable(Dict(entries)) && Refs(Dict(entries)) !! taken <==>
            (forall k :: k in entries ==> ValidKey(k) && Storable(entries[k]))
            && AllNew(EntryRefs(entries), EntryRefs(entries).Keys, taken)
  {
    var refs := EntryRefs(entries);
    assert forall k :: k in refs.Keys ==> refs[k] <= Refs(Dict(entries));
    forall x | x in Refs(Dict(entries)) ensures exists k :: k in refs.Keys && x in refs[k] {
      var k :| k in entries && x in Refs(entries[k]);
      assert k in refs.Keys && x in refs[k];
    }
  }

  lemma TogetherSlice(items: seq<Value>, taken: set<nat>, now: set<nat>)
    requires Together(ItemRefs(items), ItemRefs(items).Keys, taken, now)
    ensures now == taken + Refs(Slice(items))
  {
    var refs := ItemRefs(items);
    forall x | x in Refs(Slice(items)) ensures x in now {
      var i :| 0 <= i < |items| && x in Refs(items[i]);
      assert i in refs.Keys && x in refs[i];
    }
  }

  lemma TogetherDict(entries: map<GoString, Value>, taken: set<nat>, now: set<nat>)
    requires Together(EntryRefs(entries), EntryRefs(entries).Keys, taken, now)
    ensures now == taken + Refs(Dict(entries))
  {
    var refs := EntryRefs(entries);
    forall x | x in Refs(Dict(entries)) ensures x in now {
      var k :| k in entries && x in Refs(entries[k]);
      assert k in refs.Keys && x in refs[k];
    }
  }

  /** Two texts in one list can be stored exactly if they are UTF-8 and not the same object. */
  lemma TextsInOneList(ref: nat, ref': nat, a: GoString, b: GoString)
    ensures Storable(Slice([NewText(ref, a), NewText(ref', b)])) <==> Utf8(a) && Utf8(b) && ref != ref'
  {
    var items := [NewText(ref, a), NewText(ref', b)];
    var refs := ItemRefs(items);
    assert items[0] in items && items[1] in items && 0 in refs.Keys && 1 in refs.Keys;
    assert refs[0] == {ref} && refs[1] == {ref'};
    assert ref in refs[0] && ref' in refs[1];
  }

  /** What reading a stored value gives: texts become strings and counters become integers. */
  function Readback(v: Value): Value
    requires Normal(v)
  {
    match v
    case Leaf(_) => v
    case NewText(_, s) => Leaf(Str(s))
    case NewCounter(_, c) => Leaf(Int64(c))
    case Attached => v
    case Slice(items) => Slice(seq(|items|, i requires 0 <= i < |items| => Readback(items[i])))
    case Dict(entries) => Dict(map k | k in entries :: Readback(entries[k]))
  }
}
