/** The table that gives out small numbers for the engine's object ids (wasi/src/state.rs).

    On the 32-bit target the length of a vector fits the handle type, so handles are natural
    numbers here.
  */
module HandleTable {
  import opened Words

  datatype ObjId = Root | Other(id: nat)

  type Entries = seq<Option<ObjId>>

  const FRESH: Entries := [None]

  /** Slot 0 stands for the root and stays empty; the root is never stored. */
  predicate Valid(e: Entries) {
    |e| >= 1 && e[0].None? && forall i :: 0 <= i < |e| ==> e[i] != Some(Root)
  }

  // ---------------------------------------------------------------- the table as a finite map

  /** The handles in use. */
  function Live(e: Entries): set<nat> {
    set h | 1 <= h < |e| && e[h].Some?
  }

  function Resolve(e: Entries, h: nat): Option<ObjId> {
    if h == 0 then Some(Root) else if h < |e| then e[h] else None
  }

  /** The first free slot after the root's, or the end. */
  function FreeSlot(e: Entries, from: nat): (h: nat)
    requires from <= |e|
    ensures from <= h <= |e|
    ensures forall i :: from <= i < h ==> e[i].Some?
    ensures h < |e| ==> e[h].None?
    decreases |e| - from
  {
    if from == |e| || e[from].None? then from else FreeSlot(e, from + 1)
  }

  function HandleFor(e: Entries, obj: ObjId): nat
    requires Valid(e)
  {
    if obj.Root? then 0 else FreeSlot(e, 1)
  }

  function Inserted(e: Entries, obj: ObjId): Entries
    requires Valid(e)
  {
    var h := HandleFor(e, obj);
    if obj.Root? then e
    else if h < |e| then e[h := Some(obj)]
    else e + [Some(obj)]
  }

  function Removed(e: Entries, h: nat): Entries {
    if 0 < h < |e| then e[h := None] else e
  }

  function Cleared(e: Entries): Entries {
    seq(|e|, i requires 0 <= i < |e| => if i == 0 then e[0] else None)
  }

  // ---------------------------------------------------------------- the table itself

  class ObjHandleTable {
    var entries: Entries

    constructor ()
      ensures entries == FRESH && Valid(entries)
    {
      entries := FRESH;
    }

    method Insert(obj: ObjId) returns (h: nat)
      requires Valid(entries)
      modifies this
      ensures Valid(entries)
      ensures entries == Inserted(old(entries), obj) && h == HandleFor(old(entries), obj)
    {
      if obj == Root { return 0; }
      for i := 1 to |entries|
        invariant entries == old(entries)
        invariant FreeSlot(entries, 1) == FreeSlot(entries, i)
      {
        if entries[i].None? {
          entries := entries[i := Some(obj)];
          return i;
        }
      }
      h := |entries|;
      entries := entries + [Some(obj)];
    }

    method Get(h: nat) returns (obj: Option<ObjId>)
      requires Valid(entries)
      ensures obj == Resolve(entries, h)
      ensures obj == Some(Root) <==> h == 0
    {
      if h == 0 { return Some(Root); }
      if h < |entries| { obj := entries[h]; } else { obj := None; }
    }

    method Remove(h: nat)
      requires Valid(entries)
      modifies this
      ensures Valid(entries) && entries == Removed(old(entries), h)
    {
      if h == 0 { return; }
      if h < |entries| { entries := entries[h := None]; }
    }

    method Clear()
      requires Valid(entries)
      modifies this
      ensures Valid(entries) && entries == Cleared(old(entries))
    {
      for i := 1 to |entries|
        invariant |entries| == |old(entries)| && entries[0] == old(entries)[0]
        invariant forall j :: 1 <= j < i ==> entries[j].None?
        invariant forall j :: i <= j < |entries| ==> entries[j] == old(entries)[j]
      {
        entries := entries[i := None];
      }
    }
  }

  // ---------------------------------------------------------------- single operations

  /** Insert picks a handle that was not in use and changes nothing else. */
  lemma InsertIsFresh(e: Entries, obj: ObjId)
    requires Valid(e) && !obj.Root?
    ensures var h, e' := HandleFor(e, obj), Inserted(e, obj);
            h > 0 && h !in Live(e) && Valid(e') && Live(e') == Live(e) + {h} && Resolve(e', h) == Some(obj)
            && forall g :: g != h ==> Resolve(e', g) == Resolve(e, g)
  {
    var h, e' := HandleFor(e, obj), Inserted(e, obj);
    forall g ensures g in Live(e') <==> g in Live(e) || g == h {}
  }

  lemma RemoveIsExact(e: Entries, h: nat)
    requires Valid(e)
    ensures Valid(Removed(e, h)) && Live(Removed(e, h)) == Live(e) - {h}
    ensures forall g :: g != h || g == 0 ==> Resolve(Removed(e, h), g) == Resolve(e, g)
  {}

  // ---------------------------------------------------------------- whole runs

  datatype Op = Insert(obj: ObjId) | Get(h: nat) | Remove(h: nat) | Clear | Reset

  function Apply(e: Entries, op: Op): Entries
    requires Valid(e)
  {
    match op
    case Insert(obj) => Inserted(e, obj)
    case Get(_) => e
    case Remove(h) => Removed(e, h)
    case Clear => Cleared(e)
    case Reset => FRESH
  }

  lemma ApplyKeepsValid(e: Entries, op: Op)
    requires Valid(e)
    ensures Valid(Apply(e, op))
  {
    if op.Insert? && !op.obj.Root? { InsertIsFresh(e, op.obj); }
  }

  function Run(ops: seq<Op>): (e: Entries)
    ensures Valid(e)
  {
    if ops == [] then FRESH
    else
      var e := Run(ops[..|ops| - 1]);
      ApplyKeepsValid(e, ops[|ops| - 1]);
      Apply(e, ops[|ops| - 1])
  }

  /** The largest number of handles that were in use at one time since the last reset. */
  function Peak(ops: seq<Op>): nat {
    if ops == [] || ops[|ops| - 1].Reset? then 0
    else
      var before, now := Peak(ops[..|ops| - 1]), |Live(Run(ops))|;
      if now > before then now else before
  }

  function Slots(n: nat): (slots: set<nat>)
    ensures forall h :: h in slots <==> 1 <= h < n
  {
    if n <= 1 then {} else Slots(n - 1) + {n - 1}
  }

  lemma {:induction false} SlotsSize(n: nat)
    requires n >= 1
    ensures |Slots(n)| == n - 1
  {
    if n > 1 { SlotsSize(n - 1); }
  }

  /** All slots but the root's are in use exactly if there is no free one. */
  lemma LiveSize(e: Entries)
    requires Valid(e)
    ensures |Live(e)| <= |e| - 1
    ensures |Live(e)| == |e| - 1 <==> FreeSlot(e, 1) == |e|
  {
    SlotsSize(|e|);
    var free := Slots(|e|) - Live(e);
    assert Slots(|e|) == Live(e) + free;
    if FreeSlot(e, 1) == |e| {
      assert free == {};
    } else {
      assert FreeSlot(e, 1) in free;
    }
  }

  /** The table never has more slots than it once needed: one for the root and one for each of the
      handles that were in use together at the busiest moment since the reset. */
  lemma {:induction false} SlotsArePeakUse(ops: seq<Op>)
    ensures |Run(ops)| == 1 + Peak(ops)
  {
    if ops != [] {
      var e, op := Run(ops[..|ops| - 1]), ops[|ops| - 1];
      SlotsArePeakUse(ops[..|ops| - 1]);
      LiveSize(e);
      LiveSize(Run(ops));
      match op
      case Insert(obj) =>
        if !obj.Root? { InsertIsFresh(e, obj); }
      case _ =>
    }
  }

  /** A live handle keeps its object until it is freed, the table is cleared or reset; the root
      handle keeps it for ever; and no operation makes a handle live but the insert that returns it. */
  lemma {:induction false} HandlesAreStable(ops: seq<Op>, op: Op, h: nat)
    ensures Resolve(Run(ops), 0) == Some(Root)
    ensures h in Live(Run(ops)) && op != Remove(h) && !op.Clear? && !op.Reset?
            ==> Resolve(Run(ops + [op]), h) == Resolve(Run(ops), h)
    ensures h !in Live(Run(ops)) && h in Live(Run(ops + [op]))
            ==> op.Insert? && h == HandleFor(Run(ops), op.obj) && Resolve(Run(ops + [op]), h) == Some(op.obj)
  {
    assert (ops + [op])[..|ops|] == ops;
    var e := Run(ops);
    match op
    case Insert(obj) => if !obj.Root? { InsertIsFresh(e, obj); }
    case Remove(g) => RemoveIsExact(e, g);
    case _ =>
  }

  predicate Frees(op: Op, h: nat) {
    op == Remove(h) || op.Clear? || op.Reset?
  }

  /** Over any run that does not free it, a live handle stays live and keeps its object. */
  lemma {:induction false} LiveHandleKeepsObject(ops: seq<Op>, later: seq<Op>, h: nat)
    requires h in Live(Run(ops)) && forall op :: op in later ==> !Frees(op, h)
    ensures h in Live(Run(ops + later)) && Resolve(Run(ops + later), h) == Resolve(Run(ops), h)
  {
    if later == [] {
      assert ops + later == ops;
    } else {
      var init, last := later[..|later| - 1], later[|later| - 1];
      assert last in later;
      LiveHandleKeepsObject(ops, init, h);
      HandlesAreStable(ops + init, last, h);
      assert (ops + init) + [last] == ops + later;
    }
  }
}
