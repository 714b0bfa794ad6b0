/** The JSON texts for the marks and the spans of a rich text (wasi/src/richtext_ops.rs).

    Each printer is proved against the tree that a JSON parser must find in its output.
  */
module RichTextSpans {
  import opened Words
  import opened JsonGrammar
  import opened RichTextJson

  datatype Mark = Mark(name: string, value: Scalar, start: u64, end: u64)

  /** A run of text with the marks that are active on it, or a block marker. */
  datatype Span =
    | TextSpan(text: string, marks: Option<seq<ActiveMark>>)
    | BlockSpan(entries: seq<Entry>)

  datatype ActiveMark = ActiveMark(name: string, value: Scalar)

  /** The value of a mark is always printed as a string. */
  function ScalarText(s: Scalar): string {
    match s
    case Str(s) => s
    case Boolean(b) => if b then "true" else "false"
    case Int(i) => Decimal(i)
    case Uint(u) => Decimal(u)
    case _ => "null"
  }

  // ---------------------------------------------------------------- what has to be found in the text

  /** The text stands for the value: a string is itself, a boolean or an integer is read from it as
      JSON, and anything else is shown as null. */
  ghost predicate Shows(s: Scalar, text: string) {
    match s
    case Str(x) => text == x
    case Boolean(_) => Parse(text) == Some(ScalarJson(s))
    case Int(_) => Parse(text) == Some(ScalarJson(s))
    case Uint(_) => Parse(text) == Some(ScalarJson(s))
    case _ => text == "null"
  }

  ghost predicate ShownAs(s: Scalar, t: JSON) {
    t.JString? && Shows(s, t.s)
  }

  /** An object with name, value, start and end, in this order. */
  ghost predicate MarkShown(m: Mark, t: JSON) {
    && t.JObject? && |t.members| == 4
    && t.members[0] == ("name", JString(m.name))
    && t.members[1].0 == "value" && ShownAs(m.value, t.members[1].1)
    && t.members[2] == ("start", JInt(m.start)) && t.members[3] == ("end", JInt(m.end))
  }

  /** An object from the names to the values of the marks. */
  ghost predicate ActiveShown(marks: seq<ActiveMark>, t: JSON) {
    && t.JObject? && |t.members| == |marks|
    && forall i :: 0 <= i < |marks| ==> t.members[i].0 == marks[i].name && ShownAs(marks[i].value, t.members[i].1)
  }

  ghost predicate SpanShown(s: Span, t: JSON) {
    match s
    case TextSpan(text, marks) =>
      t.JObject? && |t.members| == 3
      && t.members[0] == ("type", JString("text")) && t.members[1] == ("text", JString(text))
      && t.members[2].0 == "marks" && ActiveShown(if marks.Some? then marks.value else [], t.members[2].1)
    case BlockSpan(entries) =>
      t == JObject([("type", JString("block")), ("value", ValueJson(MapValue(entries)))])
  }

  /** The text parses to an array that shows the marks, one for one. */
  ghost predicate MarksShown(marks: seq<Mark>, json: string) {
    var t := Parse(json);
    t.Some? && t.value.JArray? && |t.value.items| == |marks|
    && forall i :: 0 <= i < |marks| ==> MarkShown(marks[i], t.value.items[i])
  }

  ghost predicate SpansShown(spans: seq<Span>, json: string) {
    var t := Parse(json);
    t.Some? && t.value.JArray? && |t.value.items| == |spans|
    && forall i :: 0 <= i < |spans| ==> SpanShown(spans[i], t.value.items[i])
  }

  /** What is printed for a value stands for it. */
  lemma ScalarTextShows(s: Scalar)
    ensures Shows(s, ScalarText(s))
  {
    if s.Boolean? || s.Int? || s.Uint? {
      assert ScalarText(s) == PrintValue(ScalarValue(s));
      PrintedJsonParses(ScalarValue(s));
    }
  }

  lemma MarkIsShown(m: Mark)
    ensures MarkShown(m, MarkJson(m))
  {
    ScalarTextShows(m.value);
  }

  lemma ActiveAreShown(marks: seq<ActiveMark>)
    ensures ActiveShown(marks, ActiveJson(marks))
  {
    forall i | 0 <= i < |marks| ensures ShownAs(marks[i].value, ActiveJson(marks).members[i].1) {
      ScalarTextShows(marks[i].value);
    }
  }

  lemma SpanIsShown(s: Span)
    ensures SpanShown(s, SpanJson(s))
  {
    if s.TextSpan? { ActiveAreShown(if s.marks.Some? then s.marks.value else []); }
  }

  // ---------------------------------------------------------------- the trees that are printed

  function MarkJson(m: Mark): JSON {
    JObject([("name", JString(m.name)), ("value", JString(ScalarText(m.value))), ("start", JInt(m.start)), ("end", JInt(m.end))])
  }

  function ActiveJson(marks: seq<ActiveMark>): JSON {
    JObject(seq(|marks|, i requires 0 <= i < |marks| => (marks[i].name, JString(ScalarText(marks[i].value)))))
  }

  function SpanJson(s: Span): JSON {
    match s
    case TextSpan(text, marks) =>
      JObject([("type", JString("text")), ("text", JString(text)), ("marks", ActiveJson(if marks.Some? then marks.value else []))])
    case BlockSpan(entries) =>
      JObject([("type", JString("block")), ("value", ValueJson(MapValue(entries)))])
  }

  function MarksJson(marks: seq<Mark>): seq<JSON> {
    seq(|marks|, i requires 0 <= i < |marks| => MarkJson(marks[i]))
  }

  function SpansJson(spans: seq<Span>): seq<JSON> {
    seq(|spans|, i requires 0 <= i < |spans| => SpanJson(spans[i]))
  }

  // ---------------------------------------------------------------- the values they print like

  function StrValue(s: string): Value {
    ScalarValue(Str(s))
  }

  function MarkValue(m: Mark): Value {
    MapValue([Entry("name", StrValue(m.name)), Entry("value", StrValue(ScalarText(m.value))),
              Entry("start", ScalarValue(Uint(m.start))), Entry("end", ScalarValue(Uint(m.end)))])
  }

  function ActiveEntries(marks: seq<ActiveMark>): seq<Entry> {
    seq(|marks|, i requires 0 <= i < |marks| => Entry(marks[i].name, StrValue(ScalarText(marks[i].value))))
  }

  function SpanValue(s: Span): Value {
    match s
    case TextSpan(text, marks) =>
      MapValue([Entry("type", StrValue("text")), Entry("text", StrValue(text)),
                Entry("marks", MapValue(ActiveEntries(if marks.Some? then marks.value else [])))])
    case BlockSpan(entries) =>
      MapValue([Entry("type", StrValue("block")), Entry("value", MapValue(entries))])
  }

  lemma {:induction false} ItemsJsonAt(items: seq<Value>, trees: seq<JSON>)
    requires |trees| == |items| && forall i :: 0 <= i < |items| ==> ValueJson(items[i]) == trees[i]
    ensures ItemsJson(items) == trees
  {
    if items != [] {
      ItemsJsonAt(items[1..], trees[1..]);
      assert trees == [trees[0]] + trees[1..];
    }
  }

  lemma {:induction false} EntriesJsonAt(entries: seq<Entry>, members: seq<(string, JSON)>)
    requires |members| == |entries|
    requires forall i :: 0 <= i < |entries| ==> members[i] == (entries[i].key, ValueJson(entries[i].value))
    ensures EntriesJson(entries) == members
  {
    if entries != [] {
      EntriesJsonAt(entries[1..], members[1..]);
      assert members == [members[0]] + members[1..];
    }
  }

  lemma MarkValueJson(m: Mark)
    ensures ValueJson(MarkValue(m)) == MarkJson(m)
  {
    EntriesJsonAt(MarkValue(m).entries, MarkJson(m).members);
  }

  lemma SpanValueJson(s: Span)
    ensures ValueJson(SpanValue(s)) == SpanJson(s)
  {
    if s.TextSpan? {
      var marks := if s.marks.Some? then s.marks.value else [];
      EntriesJsonAt(ActiveEntries(marks), ActiveJson(marks).members);
    }
    EntriesJsonAt(SpanValue(s).entries, SpanJson(s).members);
  }

  // ---------------------------------------------------------------- the format strings

  /** `"key":` and a printed value; the keys in the format strings need no escaping. */
  function Field(key: string, printed: string): string {
    "\"" + key + "\":" + printed
  }

  predicate PlainKey(key: string) {
    forall i :: 0 <= i < |key| ==> 'a' <= key[i] <= 'z'
  }

  lemma LetterIsPlain(c: char)
    requires 'a' <= c <= 'z'
    ensures EscapeChar(c) == [c]
  {}

  lemma {:induction false} PlainIsItself(key: string)
    requires PlainKey(key)
    ensures Escape(key) == key
  {
    if key != [] {
      PlainIsItself(key[1..]);
      LetterIsPlain(key[0]);
      assert [key[0]] + key[1..] == key;
    }
  }

  lemma FieldIsMember(key: string, v: Value)
    requires PlainKey(key)
    ensures Field(key, PrintValue(v)) == Member(Entry(key, v))
  {
    PlainIsItself(key);
    SameField(key, PrintValue(v));
  }

  lemma SameField(key: string, x: string)
    ensures Field(key, x) == ("\"" + key + "\"") + (":" + x)
  {
    assert "\":" == "\"" + ":";
    Assoc("\"" + key, "\"", ":");
    Assoc("\"" + key + "\"", ":", x);
  }

  lemma MembersCons(e: Entry, rest: seq<Entry>, first: bool)
    ensures Members([e] + rest, first) == Separator(first) + (Member(e) + Members(rest, false))
  {
    assert ([e] + rest)[1..] == rest;
  }

  /** One more member at the front of an object that has some. */
  lemma MoreMembers(a: Entry, rest: seq<Entry>)
    requires rest != []
    ensures Members([a] + rest, true) == Member(a) + "," + Members(rest, true)
  {
    MembersCons(a, rest, true);
    var tail := Member(rest[0]) + Members(rest[1..], false);
    assert Members(rest, false) == "," + tail;
    assert Members(rest, true) == "" + tail;
    Assoc(Member(a), ",", tail);
  }

  lemma OneMember(a: Entry)
    ensures Members([a], true) == Member(a)
  {
    assert [a][1..] == [];
    assert "" + (Member(a) + "") == Member(a);
  }

  lemma TwoMembers(a: Entry, b: Entry)
    ensures Members([a, b], true) == Member(a) + "," + Member(b)
  {
    OneMember(b);
    MoreMembers(a, [b]);
    assert [a] + [b] == [a, b];
  }

  lemma ThreeMembers(a: Entry, b: Entry, c: Entry)
    ensures Members([a, b, c], true) == Member(a) + "," + (Member(b) + "," + Member(c))
  {
    TwoMembers(b, c);
    MoreMembers(a, [b, c]);
    assert [a] + [b, c] == [a, b, c];
  }

  lemma FourMembers(a: Entry, b: Entry, c: Entry, d: Entry)
    ensures Members([a, b, c, d], true) == Member(a) + "," + (Member(b) + "," + (Member(c) + "," + Member(d)))
  {
    ThreeMembers(b, c, d);
    MoreMembers(a, [b, c, d]);
    assert [a] + [b, c, d] == [a, b, c, d];
  }

  lemma PlainKeys()
    ensures PlainKey("name") && PlainKey("value") && PlainKey("start") && PlainKey("end")
    ensures PlainKey("type") && PlainKey("text") && PlainKey("marks") && PlainKey("block")
  {}

  function MarkText(name: string, value: string, start: string, end: string): string {
    "{" + (Field("name", name) + "," + (Field("value", value) + "," + (Field("start", start) + "," + Field("end", end)))) + "}"
  }

  lemma MarkTextIsPrinted(name: Value, value: Value, start: Value, end: Value)
    ensures MarkText(PrintValue(name), PrintValue(value), PrintValue(start), PrintValue(end))
            == PrintValue(MapValue([Entry("name", name), Entry("value", value), Entry("start", start), Entry("end", end)]))
  {
    PlainKeys();
    FieldIsMember("name", name);
    FieldIsMember("value", value);
    FieldIsMember("start", start);
    FieldIsMember("end", end);
    FourMembers(Entry("name", name), Entry("value", value), Entry("start", start), Entry("end", end));
  }

  function TextSpanText(kind: string, text: string, marks: string): string {
    "{" + (Field("type", kind) + "," + (Field("text", text) + "," + Field("marks", marks))) + "}"
  }

  lemma TextSpanIsPrinted(kind: Value, text: Value, marks: Value)
    ensures TextSpanText(PrintValue(kind), PrintValue(text), PrintValue(marks))
            == PrintValue(MapValue([Entry("type", kind), Entry("text", text), Entry("marks", marks)]))
  {
    PlainKeys();
    FieldIsMember("type", kind);
    FieldIsMember("text", text);
    FieldIsMember("marks", marks);
    ThreeMembers(Entry("type", kind), Entry("text", text), Entry("marks", marks));
  }

  function BlockSpanText(kind: string, value: string): string {
    "{" + (Field("type", kind) + "," + Field("value", value)) + "}"
  }

  lemma BlockSpanIsPrinted(kind: Value, value: Value)
    ensures BlockSpanText(PrintValue(kind), PrintValue(value))
            == PrintValue(MapValue([Entry("type", kind), Entry("value", value)]))
  {
    PlainKeys();
    FieldIsMember("type", kind);
    FieldIsMember("value", value);
    TwoMembers(Entry("type", kind), Entry("value", value));
  }

  // ---------------------------------------------------------------- the printers

  lemma PrintedMark(m: Mark)
    ensures MarkText(Quoted(m.name), Quoted(ScalarText(m.value)), Decimal(m.start), Decimal(m.end)) == PrintValue(MarkValue(m))
  {
    MarkTextIsPrinted(StrValue(m.name), StrValue(ScalarText(m.value)), ScalarValue(Uint(m.start)), ScalarValue(Uint(m.end)));
  }

  lemma PlainWords()
    ensures PrintValue(StrValue("text")) == "\"text\"" && PrintValue(StrValue("block")) == "\"block\""
  {
    PlainKeys();
    PlainIsItself("text");
    PlainIsItself("block");
    assert "\"" + "text" + "\"" == "\"text\"" && "\"" + "block" + "\"" == "\"block\"";
  }

  method MarksToJson(marks: seq<Mark>) returns (json: string)
    ensures MarksShown(marks, json)
  {
    ghost var values := seq(|marks|, i requires 0 <= i < |marks| => MarkValue(marks[i]));
    json := "[";
    var first := true;
    for i := 0 to |marks|
      invariant json + Items(values[i..], first) == "[" + Items(values, true)
    {
      ItemStep(json, values, i, first);
      if !first { json := json + ","; }
      first := false;
      var name := JsonEscape(marks[i].name);
      var value := JsonEscape(ScalarText(marks[i].value));
      json := json + MarkText("\"" + name + "\"", "\"" + value + "\"", Decimal(marks[i].start), Decimal(marks[i].end));
      PrintedMark(marks[i]);
    }
    assert values[|marks|..] == [] && json + "" == json;
    json := json + "]";
    ListParses(values, MarksJson(marks)) by {
      forall i | 0 <= i < |marks| ensures ValueJson(values[i]) == MarkJson(marks[i]) { MarkValueJson(marks[i]); }
    }
    forall i | 0 <= i < |marks| ensures MarkShown(marks[i], MarksJson(marks)[i]) { MarkIsShown(marks[i]); }
  }

  lemma ListParses(values: seq<Value>, trees: seq<JSON>)
    requires |trees| == |values| && forall i :: 0 <= i < |values| ==> ValueJson(values[i]) == trees[i]
    ensures Parse(("[" + Items(values, true)) + "]") == Some(JArray(trees))
  {
    ItemsJsonAt(values, trees);
    PrintedJsonParses(ListValue(values));
  }

  lemma ActiveParses(marks: seq<ActiveMark>)
    ensures Parse(PrintValue(MapValue(ActiveEntries(marks)))) == Some(ActiveJson(marks))
  {
    EntriesJsonAt(ActiveEntries(marks), ActiveJson(marks).members);
    PrintedJsonParses(MapValue(ActiveEntries(marks)));
  }

  method MarksOptionToJson(marks: Option<seq<ActiveMark>>) returns (json: string)
    ensures json == PrintValue(MapValue(ActiveEntries(if marks.Some? then marks.value else [])))
    ensures Parse(json).Some? && ActiveShown(if marks.Some? then marks.value else [], Parse(json).value)
  {
    ActiveParses(if marks.Some? then marks.value else []);
    ActiveAreShown(if marks.Some? then marks.value else []);
    match marks
    case None =>
      json := "{}";
    case Some(markSet) =>
      json := PrintMarkSet(markSet);
  }

  method PrintMarkSet(marks: seq<ActiveMark>) returns (json: string)
    ensures json == PrintValue(MapValue(ActiveEntries(marks)))
  {
    ghost var entries := ActiveEntries(marks);
    json := "{";
    var first := true;
    for i := 0 to |marks|
      invariant json + Members(entries[i..], first) == "{" + Members(entries, true)
    {
      MemberStep(json, entries, i, first);
      if !first { json := json + ","; }
      first := false;
      var name := JsonEscape(marks[i].name);
      var value := JsonEscape(ScalarText(marks[i].value));
      Assoc(json, "\"" + name + "\"" + ":", "\"" + value + "\"");
      json := json + (("\"" + name + "\"" + ":") + ("\"" + value + "\""));
    }
    assert entries[|marks|..] == [] && json + "" == json;
    json := json + "}";
  }

  method SpansToJson(spans: seq<Span>) returns (json: string)
    ensures SpansShown(spans, json)
  {
    ghost var values := seq(|spans|, i requires 0 <= i < |spans| => SpanValue(spans[i]));
    json := "[";
    var first := true;
    for i := 0 to |spans|
      invariant json + Items(values[i..], first) == "[" + Items(values, true)
    {
      ItemStep(json, values, i, first);
      if !first { json := json + ","; }
      first := false;
      var piece := SpanToJson(spans[i]);
      json := json + piece;
    }
    assert values[|spans|..] == [] && json + "" == json;
    json := json + "]";
    ListParses(values, SpansJson(spans)) by {
      forall i | 0 <= i < |spans| ensures ValueJson(values[i]) == SpanJson(spans[i]) { SpanValueJson(spans[i]); }
    }
    forall i | 0 <= i < |spans| ensures SpanShown(spans[i], SpansJson(spans)[i]) { SpanIsShown(spans[i]); }
  }

  /** The two arms of the match on a span. */
  method SpanToJson(s: Span) returns (piece: string)
    ensures piece == PrintValue(SpanValue(s))
  {
    match s
    case TextSpan(text, marks) =>
      var escaped := JsonEscape(text);
      var active := MarksOptionToJson(marks);
      PrintedTextSpan(s, active);
      piece := TextSpanText("\"text\"", "\"" + escaped + "\"", active);
    case BlockSpan(entries) =>
      var value := HydrateMapToJson(entries, MapValue(entries));
      PrintedBlockSpan(s, value);
      piece := BlockSpanText("\"block\"", value);
  }

  lemma PrintedTextSpan(s: Span, active: string)
    requires s.TextSpan? && active == PrintValue(MapValue(ActiveEntries(if s.marks.Some? then s.marks.value else [])))
    ensures TextSpanText("\"text\"", Quoted(s.text), active) == PrintValue(SpanValue(s))
  {
    PlainWords();
    TextSpanIsPrinted(StrValue("text"), StrValue(s.text), MapValue(ActiveEntries(if s.marks.Some? then s.marks.value else [])));
  }

  lemma PrintedBlockSpan(s: Span, value: string)
    requires s.BlockSpan? && value == PrintValue(MapValue(s.entries))
    ensures BlockSpanText("\"block\"", value) == PrintValue(SpanValue(s))
  {
    PlainWords();
    BlockSpanIsPrinted(StrValue("block"), MapValue(s.entries));
  }
}
