/** What goroutines get from the module and what the module gets from them, as the schedule alone says:
    the answers that are read, the error texts that are fetched, and the arguments that are passed.
  */
module CallAnswers {
  import opened Words
  import opened CallProtocol

  // ---------------------------------------------------------------- reads and arguments, from the schedule alone

  /** For each read that `g` finishes, what the engine answered last; `last` was its latest answer. */
  function Answers(schedule: seq<(nat, Action)>, g: nat, last: seq<byte>): seq<seq<byte>> {
    if schedule == [] then []
    else
      var (h, a) := schedule[0];
      if h != g then Answers(schedule[1..], g, last)
      else
        match a
        case Produce(data) => Answers(schedule[1..], g, data)
        case ReadBack => [last] + Answers(schedule[1..], g, last)
        case _ => Answers(schedule[1..], g, last)
  }

  /** For each read that `g` finishes, the length that it insisted on, if any. */
  function Expectations(schedule: seq<(nat, Action)>, g: nat, last: Option<nat>): seq<Option<nat>> {
    if schedule == [] then []
    else
      var (h, a) := schedule[0];
      if h != g then Expectations(schedule[1..], g, last)
      else
        match a
        case Produce(_) => Expectations(schedule[1..], g, None)
        case AskLength(expected) => Expectations(schedule[1..], g, expected)
        case ReadBack => [last] + Expectations(schedule[1..], g, last)
        case _ => Expectations(schedule[1..], g, last)
  }

  /** For each error text that `g` fetches, the one that was stored last, by whomever. */
  function StoredTexts(schedule: seq<(nat, Action)>, g: nat, last: seq<byte>): seq<seq<byte>> {
    if schedule == [] then []
    else
      var (h, a) := schedule[0];
      match a
      case NoteError(text) => StoredTexts(schedule[1..], g, text)
      case ReadError => (if h == g then [last] else []) + StoredTexts(schedule[1..], g, last)
      case _ => StoredTexts(schedule[1..], g, last)
  }

  /** What the reads returned, without what they are paired with. */
  function Returned(done: seq<(seq<byte>, seq<byte>)>): (r: seq<seq<byte>>)
    ensures |r| == |done| && forall i :: 0 <= i < |done| ==> r[i] == done[i].1
  {
    seq(|done|, i requires 0 <= i < |done| => done[i].1)
  }

  /** The engine has answered, and the goroutine has not yet read the answer. */
  predicate Reading(pc: PC) {
    pc.Produced? || pc.GotLength? || pc.Allocated? || pc.Copied?
  }

  lemma ReturnedOneMore(done: seq<(seq<byte>, seq<byte>)>, x: (seq<byte>, seq<byte>))
    ensures Returned(done + [x]) == Returned(done) + [x.1]
  {}

  /** One step, as far as the answers to one goroutine are concerned. */
  lemma ProducedStep(s: State, h: nat, a: Action, g: nat, last: seq<byte>)
    requires Inv(s) && Enabled(s, h, a) && g in s.gs && (Reading(s.gs[g].pc) ==> s.gs[g].produced == last)
    ensures g in Next(s, h, a).gs
    ensures var r' := Next(s, h, a).gs[g];
            Reading(r'.pc) ==> r'.produced == if h == g && a.Produce? then a.data else last
  {}

  lemma DoneGrows(s: State, h: nat, a: Action, g: nat, last: seq<byte>)
    requires Inv(s) && Enabled(s, h, a) && g in s.gs && (Reading(s.gs[g].pc) ==> s.gs[g].produced == last)
    ensures g in Next(s, h, a).gs
    ensures Returned(Next(s, h, a).gs[g].done) == Returned(s.gs[g].done) + if h == g && a.ReadBack? then [last] else []
  {
    var r, r' := s.gs[g], Next(s, h, a).gs[g];
    if h == g && a.ReadBack? {
      DoneStep(s, h, a);
      var x := r'.done[|r.done|];
      ReturnedOneMore(r.done, x);
      assert x.0 == x.1 == last;
    } else {
      assert r'.done == r.done;
      assert Returned(r.done) + [] == Returned(r.done);
    }
  }

  lemma {:induction false} AnswersAreReturned(s: State, schedule: seq<(nat, Action)>, s': State, g: nat, last: seq<byte>)
    requires Inv(s) && Runs(s, schedule, s') && g in s.gs && (Reading(s.gs[g].pc) ==> s.gs[g].produced == last)
    ensures g in s'.gs && Returned(s'.gs[g].done) == Returned(s.gs[g].done) + Answers(schedule, g, last)
    decreases |schedule|
  {
    if schedule == [] {
      assert Returned(s.gs[g].done) + [] == Returned(s.gs[g].done);
    } else {
      var (h, a) := schedule[0];
      var t := Next(s, h, a);
      StepKeepsInv(s, h, a);
      ProducedStep(s, h, a, g, last);
      DoneGrows(s, h, a, g, last);
      var next := if h == g && a.Produce? then a.data else last;
      AnswersAreReturned(t, schedule[1..], s', g, next);
      if h == g && a.ReadBack? {
        AppendOne(Returned(s.gs[g].done), last, Answers(schedule[1..], g, last));
      } else {
        assert Returned(s.gs[g].done) + [] == Returned(s.gs[g].done);
      }
    }
  }

  lemma AppendOne<T>(a: seq<T>, x: T, b: seq<T>)
    ensures (a + [x]) + b == a + ([x] + b)
  {}

  /** In every interleaving, the reads that a goroutine has finished returned, one for one and byte
      for byte, what the engine had answered to this goroutine last. */
  lemma ReadsReturnTheAnswers(s: State, schedule: seq<(nat, Action)>, s': State, g: nat)
    requires Init(s) && Runs(s, schedule, s') && g in s.gs
    ensures g in s'.gs && Returned(s'.gs[g].done) == Answers(schedule, g, [])
  {
    AnswersAreReturned(s, schedule, s', g, []);
    assert Returned(s.gs[g].done) == [];
  }

  /** A goroutine that insisted on a length goes on only with an answer of that length. */
  predicate LengthsMatch(answers: seq<seq<byte>>, expected: seq<Option<nat>>) {
    |answers| == |expected| && forall i :: 0 <= i < |answers| && expected[i].Some? ==> |answers[i]| == expected[i].value
  }

  lemma {:induction false} ExpectationsAreMet(s: State, schedule: seq<(nat, Action)>, s': State, g: nat, last: seq<byte>, want: Option<nat>)
    requires Inv(s) && Runs(s, schedule, s') && g in s.gs && (Reading(s.gs[g].pc) ==> s.gs[g].produced == last)
    requires Reading(s.gs[g].pc) && want.Some? ==> |last| == want.value
    ensures LengthsMatch(Answers(schedule, g, last), Expectations(schedule, g, want))
    decreases |schedule|
  {
    if schedule != [] {
      var (h, a) := schedule[0];
      StepKeepsInv(s, h, a);
      ProducedStep(s, h, a, g, last);
      var next := if h == g && a.Produce? then a.data else last;
      var want' := if h == g && a.Produce? then None else if h == g && a.AskLength? then a.expected else want;
      ExpectationStep(s, h, a, g, last, want);
      ExpectationsAreMet(Next(s, h, a), schedule[1..], s', g, next, want');
    }
  }

  lemma ExpectationStep(s: State, h: nat, a: Action, g: nat, last: seq<byte>, want: Option<nat>)
    requires Inv(s) && Enabled(s, h, a) && g in s.gs && (Reading(s.gs[g].pc) ==> s.gs[g].produced == last)
    requires Reading(s.gs[g].pc) && want.Some? ==> |last| == want.value
    ensures var next := if h == g && a.Produce? then a.data else last;
            var want' := if h == g && a.Produce? then None else if h == g && a.AskLength? then a.expected else want;
            Reading(Next(s, h, a).gs[g].pc) && want'.Some? ==> |next| == want'.value
  {}

  /** Finished reads have the length that was insisted on, if one was. */
  lemma ReadsHaveTheExpectedLength(s: State, schedule: seq<(nat, Action)>, s': State, g: nat)
    requires Init(s) && Runs(s, schedule, s') && g in s.gs
    ensures g in s'.gs && LengthsMatch(Returned(s'.gs[g].done), Expectations(schedule, g, None))
  {
    ReadsReturnTheAnswers(s, schedule, s', g);
    ExpectationsAreMet(s, schedule, s', g, [], None);
  }

  lemma TextStep(s: State, h: nat, a: Action, g: nat)
    requires Inv(s) && Enabled(s, h, a) && g in s.gs
    ensures g in Next(s, h, a).gs && Next(s, h, a).error == if a.NoteError? then a.text else s.error
    ensures Returned(Next(s, h, a).gs[g].texts) == Returned(s.gs[g].texts) + if h == g && a.ReadError? then [s.error] else []
  {
    var r, r' := s.gs[g], Next(s, h, a).gs[g];
    if h == g && a.ReadError? {
      TextsStep(s, h, a);
      ReturnedOneMore(r.texts, r'.texts[|r.texts|]);
      assert r'.texts[|r.texts|].0 == r'.texts[|r.texts|].1;
    } else {
      assert r'.texts == r.texts;
      assert Returned(r.texts) + [] == Returned(r.texts);
    }
  }

  lemma {:induction false} TextsAreReturned(s: State, schedule: seq<(nat, Action)>, s': State, g: nat)
    requires Inv(s) && Runs(s, schedule, s') && g in s.gs
    ensures g in s'.gs && Returned(s'.gs[g].texts) == Returned(s.gs[g].texts) + StoredTexts(schedule, g, s.error)
    decreases |schedule|
  {
    if schedule == [] {
      assert Returned(s.gs[g].texts) + [] == Returned(s.gs[g].texts);
    } else {
      var (h, a) := schedule[0];
      StepKeepsInv(s, h, a);
      TextStep(s, h, a, g);
      TextsAreReturned(Next(s, h, a), schedule[1..], s', g);
      if h == g && a.ReadError? {
        AppendOne(Returned(s.gs[g].texts), s.error, StoredTexts(schedule[1..], g, s.error));
      } else {
        assert Returned(s.gs[g].texts) + [] == Returned(s.gs[g].texts);
        assert [] + StoredTexts(schedule[1..], g, s.error) == StoredTexts(schedule[1..], g, s.error);
      }
    }
  }

  /** The error texts that a goroutine has fetched are, one for one, those that were stored last. */
  lemma FetchedTextsAreTheLatest(s: State, schedule: seq<(nat, Action)>, s': State, g: nat)
    requires Init(s) && Runs(s, schedule, s') && g in s.gs
    ensures g in s'.gs && Returned(s'.gs[g].texts) == StoredTexts(schedule, g, s.error)
  {
    TextsAreReturned(s, schedule, s', g);
    assert Returned(s.gs[g].texts) == [];
  }

  /** The arguments of the method that `g` has begun last. */
  function LastArguments(schedule: seq<(nat, Action)>, g: nat, last: seq<seq<byte>>): seq<seq<byte>> {
    if schedule == [] then last
    else
      var (h, a) := schedule[0];
      LastArguments(schedule[1..], g, if h == g && a.Begin? then a.args else last)
  }

  /** Empty arguments are passed as null pointers and have no block. */
  function NotEmpty(args: seq<seq<byte>>): seq<seq<byte>> {
    if args == [] then []
    else (if args[0] == [] then [] else [args[0]]) + NotEmpty(args[1..])
  }

  /** The arguments in the blocks, in the order in which the blocks were allocated. */
  function InBlocks(defers: seq<Block>): seq<seq<byte>>
    requires forall i :: 0 <= i < |defers| ==> defers[i].arg.Some?
  {
    seq(|defers|, i requires 0 <= i < |defers| => defers[i].arg.value)
  }

  predicate ArgumentsOk(r: Goroutine, args: seq<seq<byte>>) {
    r.pc.Writing? ==>
      (forall i :: 0 <= i < |r.defers| ==> r.defers[i].arg.Some?) && InBlocks(r.defers) + NotEmpty(r.pc.todo) == NotEmpty(args)
  }

  lemma ArgumentStep(s: State, h: nat, a: Action, g: nat, args: seq<seq<byte>>)
    requires Inv(s) && Enabled(s, h, a) && g in s.gs && ArgumentsOk(s.gs[g], args)
    ensures g in Next(s, h, a).gs && ArgumentsOk(Next(s, h, a).gs[g], if h == g && a.Begin? then a.args else args)
  {
    var r, r' := s.gs[g], Next(s, h, a).gs[g];
    if h == g {
      match a
      case Begin(_, _) =>
        OnlyHolderMoves(s, h, a);
        assert r'.defers == [] && InBlocks([]) == [];
        assert [] + NotEmpty(a.args) == NotEmpty(a.args);
      case WriteArg(ptr) =>
        var data := r.pc.todo[0];
        assert InBlocks(r'.defers) == InBlocks(r.defers) + [data];
        AppendOne(InBlocks(r.defers), data, NotEmpty(r.pc.todo[1..]));
      case SkipEmptyArg =>
        assert [] + NotEmpty(r.pc.todo[1..]) == NotEmpty(r.pc.todo[1..]);
      case _ =>
    }
  }

  lemma {:induction false} ArgumentsStayOk(s: State, schedule: seq<(nat, Action)>, s': State, g: nat, args: seq<seq<byte>>)
    requires Inv(s) && Runs(s, schedule, s') && g in s.gs && ArgumentsOk(s.gs[g], args)
    ensures g in s'.gs && ArgumentsOk(s'.gs[g], LastArguments(schedule, g, args))
    decreases |schedule|
  {
    if schedule != [] {
      var (h, a) := schedule[0];
      StepKeepsInv(s, h, a);
      ArgumentStep(s, h, a, g, args);
      ArgumentsStayOk(Next(s, h, a), schedule[1..], s', g, if h == g && a.Begin? then a.args else args);
    }
  }

  /** When the engine is called, the blocks hold all arguments that are not empty, in order. */
  lemma AllArgumentsArrive(s: State, schedule: seq<(nat, Action)>, s': State, g: nat)
    requires Init(s) && Runs(s, schedule, s') && g in s.gs
    requires g in s'.gs && s'.gs[g].pc.Writing? && s'.gs[g].pc.todo == []
    ensures var blocks, args := s'.gs[g].defers, NotEmpty(LastArguments(schedule, g, []));
            |blocks| == |args| && forall i :: 0 <= i < |args| ==>
              blocks[i].ptr + blocks[i].size <= |s'.memory|
              && s'.memory[blocks[i].ptr..blocks[i].ptr + blocks[i].size] == args[i]
  {
    ArgumentsStayOk(s, schedule, s', g, []);
    var blocks, args := s'.gs[g].defers, NotEmpty(LastArguments(schedule, g, []));
    assert InBlocks(blocks) + [] == InBlocks(blocks);
    forall i | 0 <= i < |args|
      ensures blocks[i].ptr + blocks[i].size <= |s'.memory|
              && s'.memory[blocks[i].ptr..blocks[i].ptr + blocks[i].size] == args[i]
    {
      assert InBlocks(blocks)[i] == args[i];
      ArgumentsAreIntact(s, schedule, s', g, i);
    }
  }
}
