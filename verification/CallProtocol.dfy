/** The two-phase calls into the WASM module, made by many goroutines on one document (doc.go,
    internal/wazero/wazero.go, wasi/src/state.rs).

    A call that returns data first has the module put the data into its single return buffer and
    report the length, then allocates a block of that length in the module's memory, then has the
    module copy the whole buffer to the block without checking any size, then reads the block.
    Everything runs under the document's mutex; blocks are freed by deferred calls, last in first
    out, on every exit.  After an error code, some methods fetch the text of the error in the same
    way, from a second buffer, while their own blocks are still allocated.

    The protocol is a state machine.  A step is one action of one goroutine; the engine's answers,
    the allocator's choices and every failure are parameters of the actions.
  */
module CallProtocol {
  import opened Words

  /** A block of module memory that a deferred call will free.  An argument block also records
      the bytes that were written to it. */
  datatype Block = Block(ptr: nat, size: nat, arg: Option<seq<byte>>)

  /** How a backend method asks for its data. */
  datatype Shape =
    | Reader(zeroMeansNone: bool)   // one call fills the buffer and returns its length
    | Committer                     // one call fills the buffer, a second one returns its length
    | Writer                        // no data comes back

  datatype PC =
    | Outside                                        // not holding the mutex
    | Holding                                        // holding it, between backend methods
    | Writing(todo: seq<seq<byte>>, shape: Shape)    // copying arguments into module memory
    | Produced                                       // the buffer is filled, its length not yet asked for
    | GotLength(n: nat)
    | Allocated(n: nat, ptr: nat)
    | Copied(n: nat, ptr: nat)
    | Refused                                        // the module returned an error code
    | ErrorLength(n: nat)                            // in `lastError`, from here on
    | ErrorAllocated(n: nat, ptr: nat)
    | ErrorCopied(n: nat, ptr: nat)
    | Unwinding                                      // running the deferred frees

  /** `produced` is what the goroutine's own call put into the buffer; `done` pairs that with what
      the finished read returned.  `texts` pairs the error texts that were there when `lastError` was
      called with what it returned. */
  datatype Goroutine = Goroutine(
    pc: PC, defers: seq<Block>, produced: seq<byte>, done: seq<(seq<byte>, seq<byte>)>, texts: seq<(seq<byte>, seq<byte>)>)

  datatype State = State(
    holder: Option<nat>,
    memory: seq<byte>,
    live: set<(nat, nat)>,          // allocated blocks, as pointer and size
    buffer: seq<byte>,              // RETURN_BUF
    filledBy: Option<nat>,          // whose call filled it last
    error: seq<byte>,               // LAST_ERROR
    gs: map<nat, Goroutine>)

  datatype Action =
    | Lock
    | Unlock
    | Begin(args: seq<seq<byte>>, shape: Shape)
    | WriteArg(ptr: nat)                     // am_alloc returned `ptr`, the bytes are copied there
    | SkipEmptyArg
    | Produce(data: seq<byte>)               // the engine fills the buffer
    | ReportNothing                          // the engine returns length 0 and leaves the buffer alone
    | AskLength(expected: Option<nat>)       // am_commit_hash_len, and the check for 32
    | Mutate(left: Option<seq<byte>>)        // a call without data; it may clear or reset the buffer
    | Alloc(ptr: nat)
    | Copy
    | ReadBack
    | NoteError(text: seq<byte>)             // the engine stores or clears the text of an error
    | Refuse                                 // it returns an error code
    | AskErrorLength                         // am_last_error_len
    | AllocError(ptr: nat)
    | CopyError                              // am_last_error
    | ReadError
    | Fail                                   // a trap, a failed allocation or an error code
    | Free
    | Return

  // ---------------------------------------------------------------- memory

  predicate Apart(p: nat, n: nat, q: nat, m: nat) {
    p + n <= q || q + m <= p
  }

  /** The allocator's contract: a new block lies in memory, not at 0, apart from all live ones. */
  predicate MayAllocate(s: State, ptr: nat, n: nat) {
    && n > 0 && ptr > 0 && ptr + n <= |s.memory|
    && forall b :: b in s.live ==> Apart(ptr, n, b.0, b.1)
  }

  /** A copy to `ptr` of all of `data`, whatever was allocated there. */
  function Store(memory: seq<byte>, ptr: nat, data: seq<byte>): seq<byte>
    requires ptr + |data| <= |memory|
  {
    memory[..ptr] + data + memory[ptr + |data|..]
  }

  // ---------------------------------------------------------------- steps

  predicate Enabled(s: State, g: nat, a: Action) {
    g in s.gs &&
    var r := s.gs[g];
    match a
    case Lock => r.pc.Outside? && s.holder.None?
    case Unlock => r.pc.Holding?
    case Begin(_, _) => r.pc.Holding?
    case WriteArg(ptr) => r.pc.Writing? && r.pc.todo != [] && r.pc.todo[0] != [] && MayAllocate(s, ptr, |r.pc.todo[0]|)
    case SkipEmptyArg => r.pc.Writing? && r.pc.todo != [] && r.pc.todo[0] == []
    case Produce(_) => r.pc.Writing? && r.pc.todo == [] && !r.pc.shape.Writer?
    case ReportNothing => r.pc.Writing? && r.pc.todo == [] && r.pc.shape == Reader(true)
    case AskLength(_) => r.pc.Produced?
    case Mutate(_) => r.pc.Writing? && r.pc.todo == [] && r.pc.shape.Writer?
    case Alloc(ptr) => r.pc.GotLength? && (if r.pc.n == 0 then ptr == 0 else MayAllocate(s, ptr, r.pc.n))
    case Copy => r.pc.Allocated? && (r.pc.ptr > 0 ==> r.pc.ptr + |s.buffer| <= |s.memory|)
    case ReadBack => r.pc.Copied? && r.pc.ptr + r.pc.n <= |s.memory|
    case NoteError(_) => r.pc.Writing? && r.pc.todo == []
    case Refuse => r.pc.Writing? && r.pc.todo == []
    case AskErrorLength => r.pc.Refused?
    case AllocError(ptr) => r.pc.ErrorLength? && MayAllocate(s, ptr, r.pc.n)
    case CopyError => r.pc.ErrorAllocated? && r.pc.ptr + |s.error| <= |s.memory|
    case ReadError => r.pc.ErrorCopied? && r.pc.ptr + r.pc.n <= |s.memory|
    case Fail => !r.pc.Outside? && !r.pc.Holding? && !r.pc.Unwinding?
    case Free => r.pc.Unwinding? && r.defers != []
    case Return => r.pc.Unwinding? && r.defers == []
  }

  function Next(s: State, g: nat, a: Action): State
    requires Enabled(s, g, a)
  {
    var r := s.gs[g];
    match a
    case Lock => s.(holder := Some(g), gs := s.gs[g := r.(pc := Holding)])
    case Unlock => s.(holder := None, gs := s.gs[g := r.(pc := Outside)])
    case Begin(args, shape) => s.(gs := s.gs[g := r.(pc := Writing(args, shape))])
    case WriteArg(ptr) =>
      var data := r.pc.todo[0];
      s.(memory := Store(s.memory, ptr, data),
         live := s.live + {(ptr, |data|)},
         gs := s.gs[g := r.(pc := Writing(r.pc.todo[1..], r.pc.shape),
                            defers := r.defers + [Block(ptr, |data|, Some(data))])])
    case SkipEmptyArg => s.(gs := s.gs[g := r.(pc := Writing(r.pc.todo[1..], r.pc.shape))])
    case Produce(data) =>
      var pc :=
        if r.pc.shape.Committer? then Produced
        else if |data| == 0 && r.pc.shape.zeroMeansNone then Unwinding
        else GotLength(|data|);
      s.(buffer := data, filledBy := Some(g), gs := s.gs[g := r.(pc := pc, produced := data)])
    case ReportNothing => s.(gs := s.gs[g := r.(pc := Unwinding)])
    case AskLength(expected) =>
      var n := |s.buffer|;
      s.(gs := s.gs[g := r.(pc := if expected.Some? && n != expected.value then Unwinding else GotLength(n))])
    case Mutate(left) =>
      var s' := if left.Some? then s.(buffer := left.value, filledBy := Some(g)) else s;
      s'.(gs := s.gs[g := r.(pc := Unwinding)])
    case Alloc(ptr) =>
      if r.pc.n == 0 then s.(gs := s.gs[g := r.(pc := Allocated(0, 0))])
      else s.(live := s.live + {(ptr, r.pc.n)},
              gs := s.gs[g := r.(pc := Allocated(r.pc.n, ptr), defers := r.defers + [Block(ptr, r.pc.n, None)])])
    case Copy =>
      // copy_return_buf does nothing for a null pointer
      var memory := if r.pc.ptr == 0 then s.memory else Store(s.memory, r.pc.ptr, s.buffer);
      s.(memory := memory, gs := s.gs[g := r.(pc := Copied(r.pc.n, r.pc.ptr))])
    case ReadBack =>
      var data := s.memory[r.pc.ptr..r.pc.ptr + r.pc.n];
      s.(gs := s.gs[g := r.(pc := Unwinding, done := r.done + [(r.produced, data)])])
    case NoteError(text) => s.(error := text)
    case Refuse => s.(gs := s.gs[g := r.(pc := Refused)])
    case AskErrorLength => s.(gs := s.gs[g := r.(pc := if s.error == [] then Unwinding else ErrorLength(|s.error|))])
    case AllocError(ptr) =>
      s.(live := s.live + {(ptr, r.pc.n)},
         gs := s.gs[g := r.(pc := ErrorAllocated(r.pc.n, ptr), defers := r.defers + [Block(ptr, r.pc.n, None)])])
    case CopyError =>
      s.(memory := Store(s.memory, r.pc.ptr, s.error), gs := s.gs[g := r.(pc := ErrorCopied(r.pc.n, r.pc.ptr))])
    case ReadError =>
      var text := s.memory[r.pc.ptr..r.pc.ptr + r.pc.n];
      s.(gs := s.gs[g := r.(pc := Unwinding, texts := r.texts + [(s.error, text)])])
    case Fail => s.(gs := s.gs[g := r.(pc := Unwinding)])
    case Free =>
      var b := r.defers[|r.defers| - 1];
      s.(live := s.live - {(b.ptr, b.size)}, gs := s.gs[g := r.(defers := r.defers[..|r.defers| - 1])])
    case Return => s.(gs := s.gs[g := r.(pc := Holding)])
  }

  predicate Init(s: State) {
    s.holder.None? && s.live == {} &&
    forall g :: g in s.gs ==> s.gs[g].pc.Outside? && s.gs[g].defers == [] && s.gs[g].done == [] && s.gs[g].texts == []
  }

  /** `s'` is reached from `s` by this schedule. */
  predicate Runs(s: State, schedule: seq<(nat, Action)>, s': State)
    decreases |schedule|
  {
    if schedule == [] then s' == s
    else
      var (g, a) := schedule[0];
      Enabled(s, g, a) && Runs(Next(s, g, a), schedule[1..], s')
  }

  // ---------------------------------------------------------------- the invariant

  /** The deferred blocks are separate pieces of memory, and argument blocks hold their arguments. */
  predicate Intact(memory: seq<byte>, defers: seq<Block>) {
    && (forall i :: 0 <= i < |defers| ==> BlockOk(memory, defers[i]))
    && (forall i, j :: 0 <= i < j < |defers| ==> Apart(defers[i].ptr, defers[i].size, defers[j].ptr, defers[j].size))
  }

  predicate BlockOk(memory: seq<byte>, b: Block) {
    && b.size > 0 && b.ptr > 0 && b.ptr + b.size <= |memory|
    && (b.arg.Some? ==> memory[b.ptr..b.ptr + b.size] == b.arg.value)
  }

  function LiveSet(defers: seq<Block>): set<(nat, nat)> {
    set i | 0 <= i < |defers| :: (defers[i].ptr, defers[i].size)
  }

  /** The block allocated for the result is the last deferred one. */
  predicate ResultBlock(r: Goroutine, n: nat, ptr: nat) {
    if n == 0 then ptr == 0
    else r.defers != [] && r.defers[|r.defers| - 1] == Block(ptr, n, None)
  }

  /** The goroutine that holds the mutex. */
  predicate HolderOk(s: State, g: nat, r: Goroutine) {
    && !r.pc.Outside?
    && Intact(s.memory, r.defers) && s.live == LiveSet(r.defers)
    && match r.pc
       case Holding => r.defers == []
       case Produced => s.buffer == r.produced && s.filledBy == Some(g)
       case GotLength(n) => s.buffer == r.produced && s.filledBy == Some(g) && n == |r.produced|
       case Allocated(n, ptr) =>
         s.buffer == r.produced && s.filledBy == Some(g) && n == |r.produced| && ResultBlock(r, n, ptr)
       case Copied(n, ptr) =>
         n == |r.produced| && ResultBlock(r, n, ptr) && ptr + n <= |s.memory| && s.memory[ptr..ptr + n] == r.produced
       case ErrorLength(n) => n == |s.error| > 0
       case ErrorAllocated(n, ptr) => n == |s.error| > 0 && ResultBlock(r, n, ptr)
       case ErrorCopied(n, ptr) =>
         n == |s.error| > 0 && ResultBlock(r, n, ptr) && ptr + n <= |s.memory| && s.memory[ptr..ptr + n] == s.error
       case _ => true
  }

  predicate Inv(s: State) {
    && (forall g :: g in s.gs && s.holder != Some(g) ==> s.gs[g].pc.Outside? && s.gs[g].defers == [])
    && (s.holder.None? ==> s.live == {})
    && (s.holder.Some? ==> s.holder.value in s.gs && HolderOk(s, s.holder.value, s.gs[s.holder.value]))
    && (forall g, i :: g in s.gs && 0 <= i < |s.gs[g].done| ==> s.gs[g].done[i].0 == s.gs[g].done[i].1)
    && (forall g, i :: g in s.gs && 0 <= i < |s.gs[g].texts| ==> s.gs[g].texts[i].0 == s.gs[g].texts[i].1)
  }

  // ---------------------------------------------------------------- every step keeps it

  lemma StoreElsewhere(memory: seq<byte>, ptr: nat, data: seq<byte>, q: nat, m: nat)
    requires ptr + |data| <= |memory| && q + m <= |memory| && Apart(ptr, |data|, q, m)
    ensures Store(memory, ptr, data)[q..q + m] == memory[q..q + m]
  {
    var after := Store(memory, ptr, data);
    assert forall i :: q <= i < q + m ==> after[i] == memory[i];
  }

  lemma StoreHere(memory: seq<byte>, ptr: nat, data: seq<byte>)
    requires ptr + |data| <= |memory|
    ensures |Store(memory, ptr, data)| == |memory|
    ensures Store(memory, ptr, data)[ptr..ptr + |data|] == data
  {}

  /** Adding a block that lies apart from all the others. */
  lemma PushBlock(memory: seq<byte>, defers: seq<Block>, b: Block)
    requires Intact(memory, defers) && BlockOk(memory, b)
    requires forall x :: x in LiveSet(defers) ==> Apart(b.ptr, b.size, x.0, x.1)
    ensures Intact(memory, defers + [b]) && LiveSet(defers + [b]) == LiveSet(defers) + {(b.ptr, b.size)}
  {
    var ds := defers + [b];
    forall i | 0 <= i < |defers| ensures Apart(ds[i].ptr, ds[i].size, b.ptr, b.size) {
      assert (defers[i].ptr, defers[i].size) in LiveSet(defers);
    }
    forall x ensures x in LiveSet(ds) <==> x in LiveSet(defers) || x == (b.ptr, b.size) {
      if x in LiveSet(defers) {
        var i :| 0 <= i < |defers| && x == (defers[i].ptr, defers[i].size);
        assert ds[i] == defers[i];
      }
      if x == (b.ptr, b.size) { assert ds[|defers|] == b; }
    }
  }

  /** Freeing the last block takes exactly it out of the live set. */
  lemma PopBlock(memory: seq<byte>, defers: seq<Block>)
    requires Intact(memory, defers) && defers != []
    ensures var b, rest := defers[|defers| - 1], defers[..|defers| - 1];
            Intact(memory, rest) && LiveSet(rest) == LiveSet(defers) - {(b.ptr, b.size)}
  {
    var last := |defers| - 1;
    var b, rest := defers[last], defers[..last];
    forall x ensures x in LiveSet(rest) <==> x in LiveSet(defers) && x != (b.ptr, b.size) {
      if x in LiveSet(rest) {
        var i :| 0 <= i < |rest| && x == (rest[i].ptr, rest[i].size);
        assert defers[i] == rest[i];
        assert Apart(defers[i].ptr, defers[i].size, b.ptr, b.size);
      }
      if x in LiveSet(defers) && x != (b.ptr, b.size) {
        var i :| 0 <= i < |defers| && x == (defers[i].ptr, defers[i].size);
        assert rest[i] == defers[i];
      }
    }
  }

  /** Writing to memory apart from every block leaves the blocks as they are. */
  lemma StoreKeepsBlocks(memory: seq<byte>, defers: seq<Block>, ptr: nat, data: seq<byte>)
    requires Intact(memory, defers) && ptr + |data| <= |memory|
    requires forall i :: 0 <= i < |defers| && defers[i].arg.Some? ==> Apart(ptr, |data|, defers[i].ptr, defers[i].size)
    ensures Intact(Store(memory, ptr, data), defers)
  {
    StoreHere(memory, ptr, data);
    forall i | 0 <= i < |defers| ensures BlockOk(Store(memory, ptr, data), defers[i]) {
      if defers[i].arg.Some? { StoreElsewhere(memory, ptr, data, defers[i].ptr, defers[i].size); }
    }
  }

  /** Only the holder moves, apart from the goroutine that takes a free mutex. */
  lemma OnlyHolderMoves(s: State, g: nat, a: Action)
    requires Inv(s) && Enabled(s, g, a)
    ensures s.holder == Some(g) || a.Lock?
  {}

  /** What a step does not touch. */
  lemma OthersStay(s: State, g: nat, a: Action)
    requires Enabled(s, g, a)
    ensures var s' := Next(s, g, a);
            s'.gs.Keys == s.gs.Keys && (forall h :: h in s.gs && h != g ==> s'.gs[h] == s.gs[h])
            && (!a.Lock? && !a.Unlock? ==> s'.holder == s.holder)
  {}

  lemma LockStep(s: State, g: nat, a: Action)
    requires Inv(s) && Enabled(s, g, a) && (a.Lock? || a.Unlock?)
    ensures var s' := Next(s, g, a);
            s'.live == {} && s'.gs[g].defers == [] && (a.Lock? ==> s'.holder == Some(g) && HolderOk(s', g, s'.gs[g]))
            && (a.Unlock? ==> s'.holder.None? && s'.gs[g].pc.Outside?)
  {
    OnlyHolderMoves(s, g, a);
    assert LiveSet([]) == {};
  }

  lemma StepKeepsInv(s: State, g: nat, a: Action)
    requires Inv(s) && Enabled(s, g, a)
    ensures Inv(Next(s, g, a))
  {
    var s' := Next(s, g, a);
    OnlyHolderMoves(s, g, a);
    OthersStay(s, g, a);
    DoneStep(s, g, a);
    TextsStep(s, g, a);
    if a.Lock? || a.Unlock? {
      LockStep(s, g, a);
    } else {
      HolderStep(s, g, a);
    }
    forall h | h in s'.gs && s'.holder != Some(h) ensures s'.gs[h].pc.Outside? && s'.gs[h].defers == [] {
      if h != g { assert s'.gs[h] == s.gs[h]; }
    }
  }

  lemma DoneStep(s: State, g: nat, a: Action)
    requires Inv(s) && Enabled(s, g, a)
    ensures var s' := Next(s, g, a);
            forall h, i :: h in s'.gs && 0 <= i < |s'.gs[h].done| ==> s'.gs[h].done[i].0 == s'.gs[h].done[i].1
  {
    var s' := Next(s, g, a);
    forall h, i | h in s'.gs && 0 <= i < |s'.gs[h].done| ensures s'.gs[h].done[i].0 == s'.gs[h].done[i].1 {
      if h != g {
        assert s'.gs[h] == s.gs[h];
      } else if i < |s.gs[g].done| {
        assert s'.gs[g].done[i] == s.gs[g].done[i];
      } else {
        assert a.ReadBack?;
      }
    }
  }

  lemma TextsStep(s: State, g: nat, a: Action)
    requires Inv(s) && Enabled(s, g, a)
    ensures var s' := Next(s, g, a);
            forall h, i :: h in s'.gs && 0 <= i < |s'.gs[h].texts| ==> s'.gs[h].texts[i].0 == s'.gs[h].texts[i].1
  {
    var s' := Next(s, g, a);
    forall h, i | h in s'.gs && 0 <= i < |s'.gs[h].texts| ensures s'.gs[h].texts[i].0 == s'.gs[h].texts[i].1 {
      if h != g {
        assert s'.gs[h] == s.gs[h];
      } else if i < |s.gs[g].texts| {
        assert s'.gs[g].texts[i] == s.gs[g].texts[i];
      } else {
        assert a.ReadError?;
      }
    }
  }

  lemma HolderStep(s: State, g: nat, a: Action)
    requires Inv(s) && s.holder == Some(g) && Enabled(s, g, a) && !a.Lock? && !a.Unlock?
    ensures HolderOk(Next(s, g, a), g, Next(s, g, a).gs[g])
  {
    match a
    case WriteArg(ptr) => WriteArgKeepsHolder(s, g, ptr);
    case Alloc(ptr) => AllocKeepsHolder(s, g, ptr);
    case Copy => CopyKeepsHolder(s, g);
    case AllocError(ptr) => PushBlock(s.memory, s.gs[g].defers, Block(ptr, s.gs[g].pc.n, None));
    case CopyError => CopyErrorKeepsHolder(s, g);
    case Free => PopBlock(s.memory, s.gs[g].defers);
    case _ => StepInPlace(s, g, a);
  }

  /** The actions that touch neither the memory nor the blocks. */
  lemma StepInPlace(s: State, g: nat, a: Action)
    requires Inv(s) && s.holder == Some(g) && Enabled(s, g, a) && !a.Lock? && !a.Unlock?
    requires !a.WriteArg? && !a.Alloc? && !a.Copy? && !a.AllocError? && !a.CopyError? && !a.Free?
    ensures HolderOk(Next(s, g, a), g, Next(s, g, a).gs[g])
  {
    var s' := Next(s, g, a);
    assert s'.memory == s.memory && s'.live == s.live && s'.gs[g].defers == s.gs[g].defers;
  }

  lemma WriteArgKeepsHolder(s: State, g: nat, ptr: nat)
    requires Inv(s) && s.holder == Some(g) && Enabled(s, g, WriteArg(ptr))
    ensures HolderOk(Next(s, g, WriteArg(ptr)), g, Next(s, g, WriteArg(ptr)).gs[g])
  {
    var r, data := s.gs[g], s.gs[g].pc.todo[0];
    forall i | 0 <= i < |r.defers| ensures Apart(ptr, |data|, r.defers[i].ptr, r.defers[i].size) {
      assert (r.defers[i].ptr, r.defers[i].size) in LiveSet(r.defers);
    }
    StoreKeepsBlocks(s.memory, r.defers, ptr, data);
    StoreHere(s.memory, ptr, data);
    PushBlock(Store(s.memory, ptr, data), r.defers, Block(ptr, |data|, Some(data)));
  }

  lemma AllocKeepsHolder(s: State, g: nat, ptr: nat)
    requires Inv(s) && s.holder == Some(g) && Enabled(s, g, Alloc(ptr))
    ensures HolderOk(Next(s, g, Alloc(ptr)), g, Next(s, g, Alloc(ptr)).gs[g])
  {
    var r := s.gs[g];
    if r.pc.n > 0 { PushBlock(s.memory, r.defers, Block(ptr, r.pc.n, None)); }
  }

  lemma CopyKeepsHolder(s: State, g: nat)
    requires Inv(s) && s.holder == Some(g) && Enabled(s, g, Copy)
    ensures HolderOk(Next(s, g, Copy), g, Next(s, g, Copy).gs[g])
  {
    var r := s.gs[g];
    var n, ptr := r.pc.n, r.pc.ptr;
    if n == 0 {
      assert s.memory[0..0] == [];
    } else {
      var last := |r.defers| - 1;
      forall i | 0 <= i < |r.defers| && r.defers[i].arg.Some?
        ensures Apart(ptr, |s.buffer|, r.defers[i].ptr, r.defers[i].size)
      {
        assert Apart(r.defers[i].ptr, r.defers[i].size, r.defers[last].ptr, r.defers[last].size);
      }
      StoreKeepsBlocks(s.memory, r.defers, ptr, s.buffer);
      StoreHere(s.memory, ptr, s.buffer);
    }
  }

  lemma CopyErrorKeepsHolder(s: State, g: nat)
    requires Inv(s) && s.holder == Some(g) && Enabled(s, g, CopyError)
    ensures HolderOk(Next(s, g, CopyError), g, Next(s, g, CopyError).gs[g])
  {
    var r := s.gs[g];
    var ptr, last := r.pc.ptr, |r.defers| - 1;
    forall i | 0 <= i < |r.defers| && r.defers[i].arg.Some?
      ensures Apart(ptr, |s.error|, r.defers[i].ptr, r.defers[i].size)
    {
      assert Apart(r.defers[i].ptr, r.defers[i].size, r.defers[last].ptr, r.defers[last].size);
    }
    StoreKeepsBlocks(s.memory, r.defers, ptr, s.error);
    StoreHere(s.memory, ptr, s.error);
  }

  // ---------------------------------------------------------------- what it means for every run

  lemma {:induction false} RunKeepsInv(s: State, schedule: seq<(nat, Action)>, s': State)
    requires Inv(s) && Runs(s, schedule, s')
    ensures Inv(s')
    decreases |schedule|
  {
    if schedule != [] {
      var (g, a) := schedule[0];
      StepKeepsInv(s, g, a);
      RunKeepsInv(Next(s, g, a), schedule[1..], s');
    }
  }

  /** In every interleaving of any number of goroutines:
      every finished read returned exactly what its own length call produced;
      every error text that was fetched is the one that was there;
      nothing is allocated while the mutex is free;
      only the holder of the mutex is inside a backend method. */
  lemma EveryRunIsSafe(s: State, schedule: seq<(nat, Action)>, s': State)
    requires Init(s) && Runs(s, schedule, s')
    ensures forall g, i :: g in s'.gs && 0 <= i < |s'.gs[g].done| ==> s'.gs[g].done[i].0 == s'.gs[g].done[i].1
    ensures forall g, i :: g in s'.gs && 0 <= i < |s'.gs[g].texts| ==> s'.gs[g].texts[i].0 == s'.gs[g].texts[i].1
    ensures s'.holder.None? ==> s'.live == {}
    ensures forall g, h :: g in s'.gs && h in s'.gs && !s'.gs[g].pc.Outside? && !s'.gs[h].pc.Outside? ==> g == h
  {
    RunKeepsInv(s, schedule, s');
  }

  /** Whenever a blind copy is made, the block it goes to is live and exactly as long as the buffer,
      and the buffer holds what this goroutine's own call put there. */
  lemma EveryCopyFits(s: State, schedule: seq<(nat, Action)>, s': State, g: nat)
    requires Init(s) && Runs(s, schedule, s')
    requires g in s'.gs && s'.gs[g].pc.Allocated?
    ensures s'.filledBy == Some(g) && s'.buffer == s'.gs[g].produced
    ensures s'.buffer != [] ==> (s'.gs[g].pc.ptr, |s'.buffer|) in s'.live
    ensures s'.buffer == [] ==> s'.gs[g].pc.ptr == 0
    ensures Enabled(s', g, Copy)
  {
    RunKeepsInv(s, schedule, s');
    var r := s'.gs[g];
    if s'.buffer != [] {
      var last := |r.defers| - 1;
      assert BlockOk(s'.memory, r.defers[last]);
      assert (r.defers[last].ptr, r.defers[last].size) in LiveSet(r.defers);
    }
  }

  /** The same for the text of an error: the copy is exactly as long as its own block, and so leaves
      the blocks of the method that failed alone. */
  lemma EveryErrorCopyFits(s: State, schedule: seq<(nat, Action)>, s': State, g: nat)
    requires Init(s) && Runs(s, schedule, s')
    requires g in s'.gs && s'.gs[g].pc.ErrorAllocated?
    ensures Enabled(s', g, CopyError) && (s'.gs[g].pc.ptr, |s'.error|) in s'.live
    ensures forall i :: 0 <= i < |s'.gs[g].defers| - 1 ==>
              Apart(s'.gs[g].pc.ptr, |s'.error|, s'.gs[g].defers[i].ptr, s'.gs[g].defers[i].size)
  {
    RunKeepsInv(s, schedule, s');
    var r := s'.gs[g];
    var last := |r.defers| - 1;
    assert BlockOk(s'.memory, r.defers[last]);
    assert (r.defers[last].ptr, r.defers[last].size) in LiveSet(r.defers);
  }

  /** The engine sees its arguments as they were passed, from the first to the last call of a
      method. */
  lemma ArgumentsAreIntact(s: State, schedule: seq<(nat, Action)>, s': State, g: nat, i: nat)
    requires Init(s) && Runs(s, schedule, s')
    requires g in s'.gs && i < |s'.gs[g].defers| && s'.gs[g].defers[i].arg.Some?
    ensures var b := s'.gs[g].defers[i];
            b.ptr + b.size <= |s'.memory| && s'.memory[b.ptr..b.ptr + b.size] == b.arg.value
  {
    RunKeepsInv(s, schedule, s');
    assert BlockOk(s'.memory, s'.gs[g].defers[i]);
  }

  /** A goroutine can only give the mutex back when none of its blocks is left. */
  lemma NothingLiveAtUnlock(s: State, schedule: seq<(nat, Action)>, s': State, g: nat)
    requires Init(s) && Runs(s, schedule, s') && Enabled(s', g, Unlock)
    ensures s'.holder == Some(g) && s'.live == {} && s'.gs[g].defers == []
  {
    RunKeepsInv(s, schedule, s');
  }
}
