/** What Go values mean, raw or normal, without reference to how normalize.go computes it.

    An integer or a float means a number, a pointer what it points to, a text its characters and a
    counter its count; a struct means a map from the names of its fields.  Normalizing keeps the
    meaning, and so does storing a value and reading it back.
  */
module Meanings {
  import opened Words
  import opened GoValues
  import opened Document

  datatype Meaning =
    | Number(r: real)
    | Datum(s: Scalar)
    | ListOf(items: seq<Meaning>)
    | MapOf(entries: map<GoString, Meaning>)
    | Foreign                                 // an object of a document
    | Nothing                                 // values that cannot be stored

  /** The field at `i` is the last of its name that is not omitted. */
  predicate Decides(fields: seq<Field>, i: int) {
    0 <= i < |fields| && !fields[i].omit &&
    forall j :: i < j < |fields| && !fields[j].omit ==> fields[j].name != fields[i].name
  }

  ghost function MeaningOf(v: Value): Meaning
    decreases v, 0
  {
    match v
    case Leaf(Int64(i)) => Number(i as real)
    case Leaf(Uint64(u)) => Number(u as real)
    case Leaf(Float(r)) => Number(r)
    case Leaf(s) => Datum(s)
    case SmallInt(n) => Number(n as real)
    case Pointer(t) => MeaningOf(t)
    case Slice(items) => ListOf(seq(|items|, i requires 0 <= i < |items| => MeaningOf(items[i])))
    case Dict(entries) => MapOf(map k | k in entries :: MeaningOf(entries[k]))
    case Struct(fields) => MapOf(FieldMeanings(fields))
    case NewText(_, s) => Datum(Str(s))
    case NewCounter(_, c) => Number(c as real)
    case Attached => Foreign
    case Unsupported => Nothing
  }

  ghost predicate Named(fields: seq<Field>, k: GoString) {
    exists i :: Decides(fields, i) && fields[i].name == k
  }

  /** The field that decides a name; there is only one. */
  ghost function Decider(fields: seq<Field>, k: GoString): (i: int)
    requires Named(fields, k)
    ensures Decides(fields, i) && fields[i].name == k
  {
    var i :| Decides(fields, i) && fields[i].name == k;
    i
  }

  ghost function Names(fields: seq<Field>): (names: set<GoString>)
    ensures forall k :: k in names <==> Named(fields, k)
  {
    set i | 0 <= i < |fields| && Decides(fields, i) :: fields[i].name
  }

  /** Each name means what the last field that has it and is not omitted means. */
  ghost function FieldMeanings(fields: seq<Field>): map<GoString, Meaning>
    decreases fields, 1
  {
    map k | k in Names(fields) :: MeaningOf(fields[Decider(fields, k)].value)
  }

  ghost function EntryMeanings(entries: map<GoString, Value>): map<GoString, Meaning> {
    map k | k in entries :: MeaningOf(entries[k])
  }

  /** An unsupported value can be reached through pointers, items, entries, and fields that are not
      omitted. */
  ghost predicate ReachesUnsupported(v: Value) {
    match v
    case Pointer(t) => ReachesUnsupported(t)
    case Slice(items) => exists i :: 0 <= i < |items| && ReachesUnsupported(items[i])
    case Dict(entries) => exists k :: k in entries && ReachesUnsupported(entries[k])
    case Struct(fields) => exists i :: 0 <= i < |fields| && !fields[i].omit && ReachesUnsupported(fields[i].value)
    case Unsupported => true
    case _ => false
  }

  // ---------------------------------------------------------------- structs, one field at a time

  lemma DecidesBefore(fields: seq<Field>, i: int)
    requires fields != []
    ensures var n := |fields| - 1;
            Decides(fields, i) <==>
            (i == n && !fields[n].omit) || (Decides(fields[..n], i) && (!fields[n].omit ==> fields[n].name != fields[i].name))
  {
    var n := |fields| - 1;
    var init := fields[..n];
    if Decides(fields, i) && i < n {
      forall j | i < j < |init| && !init[j].omit ensures init[j].name != init[i].name {
        assert fields[j] == init[j];
      }
    }
    if Decides(init, i) && (!fields[n].omit ==> fields[n].name != fields[i].name) {
      forall j | i < j < |fields| && !fields[j].omit ensures fields[j].name != fields[i].name {
        if j < n { assert fields[j] == init[j]; }
      }
    }
  }

  /** One more field adds its name, or takes it over, unless it is omitted. */
  lemma FieldStep(fields: seq<Field>)
    requires fields != []
    ensures var last, init := fields[|fields| - 1], fields[..|fields| - 1];
            FieldMeanings(fields) ==
            if last.omit then FieldMeanings(init) else FieldMeanings(init)[last.name := MeaningOf(last.value)]
  {
    var n := |fields| - 1;
    var last, init := fields[n], fields[..n];
    var all, before := FieldMeanings(fields), FieldMeanings(init);
    if !last.omit {
      DecidesBefore(fields, n);
      DecidedBy(fields, n);
    }
    forall k | k in before && (last.omit || k != last.name) ensures k in all && all[k] == before[k] {
      StillDecided(fields, k);
    }
    forall k | k in all && (last.omit || k != last.name) ensures k in before {
      OnceDecided(fields, k);
    }
    MapStep(all, before, last.omit, last.name, MeaningOf(last.value));
  }

  lemma MapStep<K, V>(all: map<K, V>, before: map<K, V>, omit: bool, name: K, v: V)
    requires forall k :: k in before && (omit || k != name) ==> k in all && all[k] == before[k]
    requires forall k :: k in all && (omit || k != name) ==> k in before
    requires !omit ==> name in all && all[name] == v
    ensures all == if omit then before else before[name := v]
  {}

  lemma StillDecided(fields: seq<Field>, k: GoString)
    requires fields != [] && k in FieldMeanings(fields[..|fields| - 1])
    requires fields[|fields| - 1].omit || k != fields[|fields| - 1].name
    ensures k in FieldMeanings(fields) && FieldMeanings(fields)[k] == FieldMeanings(fields[..|fields| - 1])[k]
  {
    var init := fields[..|fields| - 1];
    var i := Decider(init, k);
    DecidesBefore(fields, i);
    DecidedBy(init, i);
    DecidedBy(fields, i);
  }

  lemma OnceDecided(fields: seq<Field>, k: GoString)
    requires fields != [] && k in FieldMeanings(fields)
    requires fields[|fields| - 1].omit || k != fields[|fields| - 1].name
    ensures k in FieldMeanings(fields[..|fields| - 1])
  {
    var init := fields[..|fields| - 1];
    var i := Decider(fields, k);
    DecidesBefore(fields, i);
    DecidedBy(init, i);
  }

  lemma DecidedBy(fields: seq<Field>, i: int)
    requires Decides(fields, i)
    ensures fields[i].name in FieldMeanings(fields) && FieldMeanings(fields)[fields[i].name] == MeaningOf(fields[i].value)
  {
    var k := fields[i].name;
    assert Named(fields, k);
    OneDecider(fields, i, Decider(fields, k));
  }

  lemma OneDecider(fields: seq<Field>, i: int, j: int)
    requires Decides(fields, i) && Decides(fields, j) && fields[i].name == fields[j].name
    ensures i == j
  {}

  // ---------------------------------------------------------------- normalizing keeps the meaning

  lemma SameItems(items: seq<Value>, items': seq<Value>)
    requires |items| == |items'| && forall i :: 0 <= i < |items| ==> MeaningOf(items[i]) == MeaningOf(items'[i])
    ensures MeaningOf(Slice(items)) == MeaningOf(Slice(items'))
  {
    assert MeaningOf(Slice(items)).items == MeaningOf(Slice(items')).items;
  }

  lemma SameEntries(entries: map<GoString, Value>, entries': map<GoString, Value>)
    requires entries.Keys == entries'.Keys && forall k :: k in entries ==> MeaningOf(entries[k]) == MeaningOf(entries'[k])
    ensures MeaningOf(Dict(entries)) == MeaningOf(Dict(entries'))
  {
    assert MeaningOf(Dict(entries)).entries == MeaningOf(Dict(entries')).entries;
  }

  lemma MeaningOfStruct(fields: seq<Field>, entries: map<GoString, Value>)
    requires EntryMeanings(entries) == FieldMeanings(fields)
    ensures MeaningOf(Dict(entries)) == MeaningOf(Struct(fields))
  {
    assert MeaningOf(Dict(entries)).entries == EntryMeanings(entries);
  }

  /** Whatever normalize.go returns means the same as what it was given; integers of the smaller types
      become floats. */
  lemma {:induction false} NormalizeKeepsMeaning(v: Value)
    requires Normalize(v).Some?
    ensures MeaningOf(Normalize(v).value) == MeaningOf(v)
    ensures v.SmallInt? ==> Normalize(v).value.Leaf? && Normalize(v).value.s.Float?
    decreases v, 0
  {
    match v
    case Pointer(t) => NormalizeKeepsMeaning(t);
    case Slice(items) =>
      forall i | 0 <= i < |items|
        ensures Normalize(items[i]).Some? && MeaningOf(Normalize(items[i]).value) == MeaningOf(items[i])
      {
        assert items[i] in items;
        NormalizeKeepsMeaning(items[i]);
      }
      SameItems(items, Normalize(v).value.items);
    case Dict(entries) =>
      forall k | k in entries ensures MeaningOf(Normalize(entries[k]).value) == MeaningOf(entries[k]) {
        NormalizeKeepsMeaning(entries[k]);
      }
      SameEntries(entries, Normalize(v).value.entries);
    case Struct(fields) =>
      FieldsKeepMeaning(fields);
      MeaningOfStruct(fields, NormalizeFields(fields).value);
    case _ =>
  }

  lemma {:induction false} FieldsKeepMeaning(fields: seq<Field>)
    requires NormalizeFields(fields).Some?
    ensures EntryMeanings(NormalizeFields(fields).value) == FieldMeanings(fields)
    decreases fields, 1
  {
    if fields != [] {
      var last, init := fields[|fields| - 1], fields[..|fields| - 1];
      FieldsKeepMeaning(init);
      FieldStep(fields);
      if !last.omit {
        NormalizeKeepsMeaning(last.value);
        EntryAdded(NormalizeFields(init).value, last.name, Normalize(last.value).value);
      }
    }
  }

  lemma EntryAdded(entries: map<GoString, Value>, k: GoString, v: Value)
    ensures EntryMeanings(entries[k := v]) == EntryMeanings(entries)[k := MeaningOf(v)]
  {}

  /** normalize.go fails exactly if an unsupported value can be reached. */
  lemma {:induction false} NormalizeFailsExactly(v: Value)
    ensures Normalize(v).None? <==> ReachesUnsupported(v)
    decreases v, 0
  {
    match v
    case Pointer(t) => NormalizeFailsExactly(t);
    case Slice(items) =>
      forall i | 0 <= i < |items| ensures Normalize(items[i]).None? <==> ReachesUnsupported(items[i]) {
        NormalizeFailsExactly(items[i]);
      }
      if i :| 0 <= i < |items| && ReachesUnsupported(items[i]) { assert items[i] in items; }
    case Dict(entries) =>
      forall k | k in entries ensures Normalize(entries[k]).None? <==> ReachesUnsupported(entries[k]) {
        NormalizeFailsExactly(entries[k]);
      }
    case Struct(fields) => FieldsFailExactly(fields);
    case _ =>
  }

  lemma {:induction false} FieldsFailExactly(fields: seq<Field>)
    ensures NormalizeFields(fields).None? <==>
            exists i :: 0 <= i < |fields| && !fields[i].omit && ReachesUnsupported(fields[i].value)
    decreases fields, 1
  {
    if fields != [] {
      var n := |fields| - 1;
      var init := fields[..n];
      FieldsFailExactly(init);
      NormalizeFailsExactly(fields[n].value);
      if i :| 0 <= i < |init| && !init[i].omit && ReachesUnsupported(init[i].value) { assert fields[i] == init[i]; }
      if i :| 0 <= i < |fields| && !fields[i].omit && ReachesUnsupported(fields[i].value) {
        if i < n { assert init[i] == fields[i]; }
      }
    }
  }

  // ---------------------------------------------------------------- storing keeps the meaning

  lemma {:induction false} ReadbackKeepsMeaning(v: Value)
    requires Normal(v)
    ensures MeaningOf(Readback(v)) == MeaningOf(v)
  {
    match v
    case Slice(items) =>
      forall i | 0 <= i < |items| ensures MeaningOf(Readback(items[i])) == MeaningOf(items[i]) {
        ReadbackKeepsMeaning(items[i]);
      }
      SameItems(Readback(v).items, items);
    case Dict(entries) =>
      forall k | k in entries ensures MeaningOf(Readback(entries[k])) == MeaningOf(entries[k]) {
        ReadbackKeepsMeaning(entries[k]);
      }
      SameEntries(Readback(v).entries, entries);
    case _ =>
  }

  /** What Interface returns after a value was written means the same as the value. */
  lemma StoredMeansTheSame(v: Value)
    requires Normalize(v).Some?
    ensures MeaningOf(Stored(v)) == MeaningOf(v)
  {
    NormalizeGivesNormal(v);
    NormalizeKeepsMeaning(v);
    ReadbackKeepsMeaning(Normalize(v).value);
  }
}
