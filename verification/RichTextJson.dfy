/** The hand-written JSON printers for marks and spans (wasi/src/richtext_ops.rs), against the
    grammar of RFC 8259.  Floating-point scalars are not modelled.
  */
module RichTextJson {
  import opened Words
  import opened JsonGrammar

  datatype Scalar =
    | Null
    | Boolean(b: bool)
    | Int(i: i64)
    | Uint(u: u64)
    | Str(s: string)
    | Bytes(bytes: seq<byte>)
    | Counter(c: i64)
    | Timestamp(t: i64)
    | Unknown

  /** Values read out of a document; a map lists its entries in the order in which it is visited. */
  datatype Value =
    | ScalarValue(s: Scalar)
    | MapValue(entries: seq<Entry>)
    | ListValue(items: seq<Value>)
    | TextValue(text: string)

  datatype Entry = Entry(key: string, value: Value)

  // ---------------------------------------------------------------- what is printed

  function Digit(n: nat): char
    requires n < 16
  {
    if n < 10 then ('0' as int + n) as char else ('a' as int + n - 10) as char
  }

  /** Decimal digits, as `to_string` gives them. */
  function Digits(n: nat): (s: string)
    ensures s != []
  {
    if n < 10 then [Digit(n)] else Digits(n / 10) + [Digit(n % 10)]
  }

  function Decimal(n: int): string {
    if n < 0 then "-" + Digits(0 - n) else Digits(n)
  }

  function EscapeChar(c: char): string {
    if c == '"' then "\\\""
    else if c == '\\' then "\\\\"
    else if c == '\n' then "\\n"
    else if c == '\r' then "\\r"
    else if c == '\t' then "\\t"
    else if c < ' ' then "\\u00" + [Digit(c as int / 16), Digit(c as int % 16)]
    else [c]
  }

  function Escape(s: string): string {
    if s == [] then "" else EscapeChar(s[0]) + Escape(s[1..])
  }

  function Quoted(s: string): string {
    "\"" + Escape(s) + "\""
  }

  function Hex(b: seq<byte>): string {
    if b == [] then "" else [Digit(b[0] / 16), Digit(b[0] % 16)] + Hex(b[1..])
  }

  function PrintScalar(s: Scalar): string {
    match s
    case Null => "null"
    case Boolean(b) => if b then "true" else "false"
    case Int(i) => Decimal(i)
    case Uint(u) => Decimal(u)
    case Str(s) => Quoted(s)
    case Bytes(b) => "\"" + Hex(b) + "\""
    case Counter(c) => Decimal(c)
    case Timestamp(t) => Decimal(t)
    case Unknown => "null"
  }

  function PrintValue(v: Value): string
    decreases v, 0
  {
    match v
    case ScalarValue(s) => PrintScalar(s)
    case MapValue(entries) => "{" + Members(entries, true) + "}"
    case ListValue(items) => "[" + Items(items, true) + "]"
    case TextValue(text) => Quoted(text)
  }

  function Separator(first: bool): string {
    if first then "" else ","
  }

  function Items(items: seq<Value>, first: bool): string
    decreases items
  {
    if items == [] then "" else Separator(first) + (PrintValue(items[0]) + Items(items[1..], false))
  }

  function Member(e: Entry): string
    decreases e
  {
    Quoted(e.key) + (":" + PrintValue(e.value))
  }

  function Members(entries: seq<Entry>, first: bool): string
    decreases entries
  {
    if entries == [] then "" else Separator(first) + (Member(entries[0]) + Members(entries[1..], false))
  }

  lemma Assoc(a: string, b: string, c: string)
    ensures a + (b + c) == (a + b) + c
  {}

  // ---------------------------------------------------------------- the printers

  method JsonEscape(s: string) returns (out: string)
    ensures out == Escape(s)
  {
    out := "";
    for i := 0 to |s|
      invariant out + Escape(s[i..]) == Escape(s)
    {
      var piece := PushEscaped(s[i]);
      assert s[i..][1..] == s[i + 1..];
      Assoc(out, piece, Escape(s[i + 1..]));
      out := out + piece;
    }
    assert s[|s|..] == [];
  }

  /** The arms of the match on one character. */
  method PushEscaped(c: char) returns (piece: string)
    ensures piece == EscapeChar(c)
  {
    match c
    case '"' => piece := "\\\"";
    case '\\' => piece := "\\\\";
    case '\n' => piece := "\\n";
    case '\r' => piece := "\\r";
    case '\t' => piece := "\\t";
    case _ =>
      if c < ' ' {
        piece := "\\u00" + [Digit(c as int / 16), Digit(c as int % 16)];
      } else {
        piece := [c];
      }
  }

  /** One round of the list loop. */
  lemma ItemStep(json: string, items: seq<Value>, i: nat, first: bool)
    requires i < |items|
    ensures var head := if first then json else json + ",";
            (head + PrintValue(items[i])) + Items(items[i + 1..], false) == json + Items(items[i..], first)
  {
    var x, after, sep := PrintValue(items[i]), Items(items[i + 1..], false), Separator(first);
    assert items[i..][1..] == items[i + 1..];
    Assoc(json, sep, x + after);
    Assoc(json + sep, x, after);
    assert json + "" == json;
  }

  /** One round of the map loop. */
  lemma MemberStep(json: string, entries: seq<Entry>, i: nat, first: bool)
    requires i < |entries|
    ensures var head := if first then json else json + ",";
            ((head + (Quoted(entries[i].key) + ":")) + PrintValue(entries[i].value)) + Members(entries[i + 1..], false)
            == json + Members(entries[i..], first)
  {
    var q, x, after, sep := Quoted(entries[i].key), PrintValue(entries[i].value), Members(entries[i + 1..], false), Separator(first);
    assert entries[i..][1..] == entries[i + 1..];
    assert json + "" == json;
    Regroup(json, sep, q, x, after);
  }

  lemma Regroup(json: string, sep: string, q: string, x: string, after: string)
    ensures (((json + sep) + (q + ":")) + x) + after == json + (sep + ((q + (":" + x)) + after))
  {
    Assoc(q, ":", x);
    Assoc(json + sep, q + ":", x);
    Assoc(json + sep, q + (":" + x), after);
    Assoc(json, sep, (q + (":" + x)) + after);
  }

  method HydrateValueToJson(v: Value) returns (json: string)
    ensures json == PrintValue(v)
    decreases v, 1
  {
    match v
    case ScalarValue(s) => json := PrintScalar(s);
    case MapValue(entries) => json := HydrateMapToJson(entries, v);
    case TextValue(text) =>
      var escaped := JsonEscape(text);
      json := "\"" + escaped + "\"";
    case ListValue(items) => json := HydrateListToJson(items, v);
  }

  method HydrateListToJson(items: seq<Value>, ghost whole: Value) returns (json: string)
    requires whole == ListValue(items)
    ensures json == PrintValue(whole)
    decreases whole, 0
  {
    json := "[";
    var first := true;
    for i := 0 to |items|
      invariant json + Items(items[i..], first) == "[" + Items(items, true)
    {
      ItemStep(json, items, i, first);
      if !first { json := json + ","; }
      first := false;
      var x := HydrateValueToJson(items[i]);
      json := json + x;
    }
    assert items[|items|..] == [];
    json := json + "]";
  }

  method HydrateMapToJson(entries: seq<Entry>, ghost whole: Value) returns (json: string)
    requires whole == MapValue(entries)
    ensures json == PrintValue(whole)
    decreases whole, 0
  {
    json := "{";
    var first := true;
    for i := 0 to |entries|
      invariant json + Members(entries[i..], first) == "{" + Members(entries, true)
    {
      MemberStep(json, entries, i, first);
      if !first { json := json + ","; }
      first := false;
      var key := JsonEscape(entries[i].key);
      json := json + ("\"" + key + "\"" + ":");
      var x := HydrateValueToJson(entries[i].value);
      json := json + x;
    }
    assert entries[|entries|..] == [];
    json := json + "}";
  }

  // ---------------------------------------------------------------- numbers come back

  /** What may follow a number without becoming part of it. */
  predicate Ends(r: string) {
    r == [] || !(IsDigit(r[0]) || r[0] == '.' || r[0] == 'e' || r[0] == 'E')
  }

  lemma {:induction false} DigitsShape(n: nat)
    ensures forall c :: c in Digits(n) ==> IsDigit(c)
    ensures DigitsValue(Digits(n)) == n
    ensures Digits(n)[0] == '0' ==> n == 0
  {
    var s := Digits(n);
    if n < 10 {
      assert s[..0] == [];
    } else {
      DigitsShape(n / 10);
      assert s[..|s| - 1] == Digits(n / 10) && s[0] == Digits(n / 10)[0];
    }
  }

  lemma {:induction false} DigitCountOfRun(d: string, r: string)
    requires forall c :: c in d ==> IsDigit(c)
    requires r == [] || !IsDigit(r[0])
    ensures DigitCount(d + r) == |d|
  {
    if d == [] {
      assert d + r == r;
    } else {
      assert (d + r)[1..] == d[1..] + r;
      DigitCountOfRun(d[1..], r);
    }
  }

  lemma NothingMore(r: string)
    requires Ends(r)
    ensures FractionLength(r) == Some(0) && ExponentLength(r) == Some(0)
  {}

  lemma DigitsComeBack(n: nat, r: string)
    requires Ends(r)
    ensures NumberLexeme(Digits(n) + r) == Number(|Digits(n)|, 0)
    ensures (Digits(n) + r)[..|Digits(n)|] == Digits(n) && (Digits(n) + r)[|Digits(n)|..] == r
    ensures IsDigit((Digits(n) + r)[0])
  {
    var t, k := Digits(n) + r, |Digits(n)|;
    DigitsShape(n);
    DigitCountOfRun(Digits(n), r);
    assert t[0] == Digits(n)[0] && t[0] in Digits(n);
    assert t[k..] == r && t[k + 0..] == r;
    NothingMore(r);
  }

  /** A number without fraction and exponent, behind its sign if it has one. */
  lemma IntegerParsed(s: string, negative: bool, t: string, k: nat)
    requires NumberLexeme(t) == Number(k, 0)
    requires Starts(s, '-') == negative && t == if negative then s[1..] else s
    ensures ParseNumber(s) == Got(JInt(if negative then 0 - DigitsValue(t[..k]) else DigitsValue(t[..k])), t[k..])
  {
    if !negative { assert s[0..] == s; }
  }

  lemma MinusThen(d: string, r: string)
    ensures Starts(("-" + d) + r, '-') && (("-" + d) + r)[1..] == d + r
  {
    Assoc("-", d, r);
  }

  lemma NumberComesBack(n: int, r: string)
    requires Ends(r)
    ensures ParseNumber(Decimal(n) + r) == Got(JInt(n), r)
  {
    var s, m := Decimal(n) + r, if n < 0 then 0 - n else n;
    var t := Digits(m) + r;
    DigitsComeBack(m, r);
    DigitsShape(m);
    if n < 0 { MinusThen(Digits(m), r); }
    IntegerParsed(s, n < 0, t, |Digits(m)|);
  }

  // ---------------------------------------------------------------- strings come back

  /** One character, escaped in any of the three ways, in front of the rest of a string. */
  lemma CharComesBack(c: char, r: string)
    requires ParseChars(r).Got?
    ensures ParseChars(EscapeChar(c) + r) == Got([c] + ParseChars(r).value, ParseChars(r).rest)
  {
    if c == '"' || c == '\\' || c == '\n' || c == '\r' || c == '\t' {
      ShortEscape(c, r);
    } else if c < ' ' {
      LongEscape(c, r);
    } else {
      assert ([c] + r)[1..] == r;
    }
  }

  lemma ShortEscape(c: char, r: string)
    requires c == '"' || c == '\\' || c == '\n' || c == '\r' || c == '\t'
    requires ParseChars(r).Got?
    ensures ParseChars(EscapeChar(c) + r) == Got([c] + ParseChars(r).value, ParseChars(r).rest)
  {
    var e := EscapeChar(c);
    var t := e + r;
    assert t[0] == '\\' && t[1..] == [e[1]] + r && t[1..][1..] == r;
    assert ParseEscape(t[1..]) == Got(c, r);
  }

  lemma LongEscape(c: char, r: string)
    requires c < ' ' && c != '\n' && c != '\r' && c != '\t'
    requires ParseChars(r).Got?
    ensures ParseChars(EscapeChar(c) + r) == Got([c] + ParseChars(r).value, ParseChars(r).rest)
  {
    var hi, lo := c as int / 16, c as int % 16;
    var t := EscapeChar(c) + r;
    assert t[0] == '\\' && t[1..] == ['u', '0', '0', Digit(hi), Digit(lo)] + r;
    UnicodeEscape(hi, lo, r);
  }

  lemma UnicodeEscape(hi: nat, lo: nat, r: string)
    requires hi < 16 && lo < 16
    ensures ParseEscape(['u', '0', '0', Digit(hi), Digit(lo)] + r) == Got((16 * hi + lo) as char, r)
  {
    var t := ['u', '0', '0', Digit(hi), Digit(lo)] + r;
    HexComesBack(hi);
    HexComesBack(lo);
    assert t[1..] == ['0', '0', Digit(hi), Digit(lo)] + r && t[5..] == r;
    assert Hex4(t[1..]) == Some(16 * hi + lo);
  }

  lemma HexComesBack(n: nat)
    requires n < 16
    ensures HexValue(Digit(n)) == Some(n)
  {}

  /** Whatever the characters are, quotes, backslashes and control characters included. */
  lemma {:induction false} CharsComeBack(s: string, r: string)
    ensures ParseChars(Escape(s) + ("\"" + r)) == Got(s, r)
  {
    var q := "\"" + r;
    if s == [] {
      assert Escape(s) + q == q;
      assert q[1..] == r;
    } else {
      CharsComeBack(s[1..], r);
      CharComesBack(s[0], Escape(s[1..]) + q);
      Assoc(EscapeChar(s[0]), Escape(s[1..]), q);
      assert [s[0]] + s[1..] == s;
    }
  }

  lemma StringComesBack(s: string, r: string)
    ensures ParseValue(Quoted(s) + r) == Got(JString(s), r)
  {
    CharsComeBack(s, r);
    QuotedTail(s, r);
  }

  lemma QuotedTail(s: string, r: string)
    ensures (Quoted(s) + r)[0] == '"' && (Quoted(s) + r)[1..] == Escape(s) + ("\"" + r)
  {
    var t := Quoted(s) + r;
    assert t == "\"" + (Escape(s) + ("\"" + r));
  }

  lemma PlainChar(c: char, s: string)
    requires EscapeChar(c) == [c]
    ensures Escape([c] + s) == [c] + Escape(s)
  {
    assert ([c] + s)[1..] == s;
  }

  lemma HexDigitIsPlain(n: nat)
    requires n < 16
    ensures EscapeChar(Digit(n)) == [Digit(n)]
  {}

  /** Hexadecimal digits need no escaping. */
  lemma {:induction false} HexIsPlain(b: seq<byte>)
    ensures Escape(Hex(b)) == Hex(b)
  {
    if b != [] {
      var x, y, rest := Digit(b[0] / 16), Digit(b[0] % 16), Hex(b[1..]);
      HexIsPlain(b[1..]);
      HexDigitIsPlain(b[0] / 16);
      HexDigitIsPlain(b[0] % 16);
      TwoPlainChars(x, y, rest);
    }
  }

  lemma TwoPlainChars(x: char, y: char, s: string)
    requires EscapeChar(x) == [x] && EscapeChar(y) == [y]
    ensures Escape([x, y] + s) == [x, y] + Escape(s)
  {
    assert [x, y] + s == [x] + ([y] + s);
    PlainChar(y, s);
    PlainChar(x, [y] + s);
  }

  /** Two hexadecimal digits for each byte, the high one first. */
  lemma {:induction false} HexByPosition(b: seq<byte>, i: nat)
    requires i < |b|
    ensures |Hex(b)| == 2 * |b|
    ensures HexValue(Hex(b)[2 * i]) == Some(b[i] / 16) && HexValue(Hex(b)[2 * i + 1]) == Some(b[i] % 16)
  {
    HexComesBack(b[0] / 16);
    HexComesBack(b[0] % 16);
    if |b| > 1 {
      HexByPosition(b[1..], if i == 0 then 0 else i - 1);
    }
  }

  // ---------------------------------------------------------------- values come back

  /** The tree that was printed, in JSON terms. */
  function ScalarJson(s: Scalar): JSON {
    match s
    case Null => JNull
    case Boolean(b) => JBool(b)
    case Int(i) => JInt(i)
    case Uint(u) => JInt(u)
    case Str(s) => JString(s)
    case Bytes(b) => JString(Hex(b))
    case Counter(c) => JInt(c)
    case Timestamp(t) => JInt(t)
    case Unknown => JNull
  }

  function ValueJson(v: Value): JSON
    decreases v, 0
  {
    match v
    case ScalarValue(s) => ScalarJson(s)
    case MapValue(entries) => JObject(EntriesJson(entries))
    case ListValue(items) => JArray(ItemsJson(items))
    case TextValue(text) => JString(text)
  }

  function ItemsJson(items: seq<Value>): seq<JSON>
    decreases items
  {
    if items == [] then [] else [ValueJson(items[0])] + ItemsJson(items[1..])
  }

  function EntriesJson(entries: seq<Entry>): seq<(string, JSON)>
    decreases entries
  {
    if entries == [] then [] else [(entries[0].key, ValueJson(entries[0].value))] + EntriesJson(entries[1..])
  }

  /** A printed value starts with a character that is no space and closes nothing. */
  predicate StartsValue(s: string) {
    s != [] && !IsSpace(s[0]) && s[0] != ']' && s[0] != '}' && s[0] != ','
  }

  lemma DecimalStarts(n: int)
    ensures StartsValue(Decimal(n)) && (Decimal(n)[0] == '-' || IsDigit(Decimal(n)[0]))
  {
    var m := if n < 0 then 0 - n else n;
    DigitsShape(m);
    assert Digits(m)[0] in Digits(m);
  }

  lemma ScalarStarts(s: Scalar)
    ensures StartsValue(PrintScalar(s))
  {
    match s
    case Int(i) => DecimalStarts(i);
    case Uint(u) => DecimalStarts(u);
    case Counter(c) => DecimalStarts(c);
    case Timestamp(t) => DecimalStarts(t);
    case _ =>
  }

  lemma ValueStarts(v: Value, r: string)
    ensures StartsValue(PrintValue(v) + r)
  {
    if v.ScalarValue? { ScalarStarts(v.s); }
  }

  lemma NumberFirst(s: string)
    requires s != [] && (s[0] == '-' || IsDigit(s[0]))
    ensures ParseValue(s) == ParseNumber(s)
  {
    var c := s[0];
    assert c != 'n' && c != 't' && c != 'f' && c != '"' && c != '[' && c != '{' by {
      assert c <= '9' && c != '"';
    }
  }

  lemma DecimalComesBack(n: int, r: string)
    requires Ends(r)
    ensures ParseValue(Decimal(n) + r) == Got(JInt(n), r)
  {
    var s := Decimal(n) + r;
    assert s[0] == '-' || IsDigit(s[0]) by {
      DecimalStarts(n);
      assert s[0] == Decimal(n)[0];
    }
    NumberFirst(s);
    NumberComesBack(n, r);
  }

  lemma WordComesBack(word: string, v: JSON, r: string)
    requires (word == "null" && v == JNull) || (word == "true" && v == JBool(true)) || (word == "false" && v == JBool(false))
    ensures ParseValue(word + r) == Got(v, r)
  {
    assert word <= word + r && (word + r)[|word|..] == r;
    assert (word + r)[0] == word[0];
  }

  lemma ScalarComesBack(s: Scalar, r: string)
    requires Ends(r)
    ensures ParseValue(PrintScalar(s) + r) == Got(ScalarJson(s), r)
  {
    match s
    case Null => WordComesBack("null", JNull, r);
    case Boolean(b) => WordComesBack(if b then "true" else "false", JBool(b), r);
    case Int(i) => DecimalComesBack(i, r);
    case Uint(u) => DecimalComesBack(u, r);
    case Str(s) => StringComesBack(s, r);
    case Bytes(b) =>
      HexIsPlain(b);
      StringComesBack(Hex(b), r);
    case Counter(c) => DecimalComesBack(c, r);
    case Timestamp(t) => DecimalComesBack(t, r);
    case Unknown => WordComesBack("null", JNull, r);
  }

  lemma NoSpace(s: string)
    requires s == [] || !IsSpace(s[0])
    ensures SkipSpace(s) == s
  {}

  /** Parsing what was printed gives back the tree, at any depth and in front of any text that can
      follow a value. */
  lemma {:induction false} ValueComesBack(v: Value, r: string)
    requires Ends(r)
    ensures ParseValue(PrintValue(v) + r) == Got(ValueJson(v), r)
    decreases v, 0
  {
    match v
    case ScalarValue(s) => ScalarComesBack(s, r);
    case TextValue(text) => StringComesBack(text, r);
    case ListValue(items) =>
      if items != [] { ItemsComeBack(items, r); }
      ArrayComesBack(items, r);
    case MapValue(entries) =>
      if entries != [] { MembersComeBack(entries, r); }
      ObjectComesBack(entries, r);
  }

  predicate Solid(s: string) {
    s == [] || !IsSpace(s[0])
  }

  /** What the grammar says of a bracket, and of a brace. */
  lemma BracketParsed(s: string, body: string)
    requires Starts(s, '[') && s[1..] == body && Solid(body)
    ensures Starts(body, ']') ==> ParseValue(s) == Got(JArray([]), body[1..])
    ensures !Starts(body, ']') && ParseElements(body).Got? ==> ParseValue(s) == Got(JArray(ParseElements(body).value), ParseElements(body).rest)
  {
    NoSpace(body);
  }

  lemma BraceParsed(s: string, body: string)
    requires Starts(s, '{') && s[1..] == body && Solid(body)
    ensures Starts(body, '}') ==> ParseValue(s) == Got(JObject([]), body[1..])
    ensures !Starts(body, '}') && ParseMembers(body).Got? ==> ParseValue(s) == Got(JObject(ParseMembers(body).value), ParseMembers(body).rest)
  {
    NoSpace(body);
  }

  lemma Enclosed(left: string, middle: string, right: string, r: string)
    requires |left| == 1
    ensures var s := (left + middle + right) + r;
            Starts(s, left[0]) && s[1..] == middle + (right + r)
  {
    var s := (left + middle + right) + r;
    assert s == left + (middle + (right + r));
  }

  lemma ArrayComesBack(items: seq<Value>, r: string)
    requires items != [] ==> ParseElements(Items(items, true) + ("]" + r)) == Got(ItemsJson(items), r)
    ensures ParseValue(("[" + Items(items, true) + "]") + r) == Got(JArray(ItemsJson(items)), r)
  {
    var body := Items(items, true) + ("]" + r);
    Enclosed("[", Items(items, true), "]", r);
    if items == [] {
      assert body == "]" + r;
      assert body[1..] == r;
    } else {
      ItemsStart(items, "]" + r);
    }
    BracketParsed(("[" + Items(items, true) + "]") + r, body);
  }

  lemma ItemsStart(items: seq<Value>, r: string)
    requires items != []
    ensures StartsValue(Items(items, true) + r)
    ensures Items(items, true) == PrintValue(items[0]) + Items(items[1..], false)
  {
    assert Items(items, true) == "" + (PrintValue(items[0]) + Items(items[1..], false));
    ValueStarts(items[0], Items(items[1..], false) + r);
    Assoc(PrintValue(items[0]), Items(items[1..], false), r);
  }

  lemma {:induction false} ItemsComeBack(items: seq<Value>, r: string)
    requires items != []
    ensures ParseElements(Items(items, true) + ("]" + r)) == Got(ItemsJson(items), r)
    decreases items, 1
  {
    var close, more := "]" + r, Items(items[1..], false) + ("]" + r);
    ItemsStart(items, close);
    Assoc(PrintValue(items[0]), Items(items[1..], false), close);
    var s := PrintValue(items[0]) + more;
    if |items| == 1 {
      assert items[1..] == [];
      assert more == close && more[1..] == r;
      ValueComesBack(items[0], more);
      NoSpace(more);
      assert [ValueJson(items[0])] + [] == [ValueJson(items[0])];
    } else {
      var rest := items[1..];
      ItemsStart(rest, close);
      CommaThen(rest, close);
      ValueComesBack(items[0], more);
      NoSpace(more);
      NoSpace(more[1..]);
      ItemsComeBack(rest, r);
    }
  }

  lemma CommaThen(items: seq<Value>, close: string)
    requires items != []
    ensures Items(items, false) + close == "," + (Items(items, true) + close)
    ensures (Items(items, false) + close)[0] == ',' && (Items(items, false) + close)[1..] == Items(items, true) + close
  {
    ItemsStart(items, close);
    Assoc(",", Items(items, true), close);
    var s := "," + (Items(items, true) + close);
    assert s[1..] == Items(items, true) + close;
  }

  lemma ObjectComesBack(entries: seq<Entry>, r: string)
    requires entries != [] ==> ParseMembers(Members(entries, true) + ("}" + r)) == Got(EntriesJson(entries), r)
    ensures ParseValue(("{" + Members(entries, true) + "}") + r) == Got(JObject(EntriesJson(entries)), r)
  {
    var body := Members(entries, true) + ("}" + r);
    Enclosed("{", Members(entries, true), "}", r);
    if entries == [] {
      assert body == "}" + r;
      assert body[1..] == r;
    } else {
      MembersStart(entries);
      assert body[0] == '"';
    }
    BraceParsed(("{" + Members(entries, true) + "}") + r, body);
  }

  lemma MembersStart(entries: seq<Entry>)
    requires entries != []
    ensures Members(entries, true) == Member(entries[0]) + Members(entries[1..], false)
    ensures Members(entries, true)[0] == '"'
  {
    assert Members(entries, true) == "" + (Member(entries[0]) + Members(entries[1..], false));
    assert Quoted(entries[0].key)[0] == '"';
  }

  lemma CommaThenMembers(entries: seq<Entry>, close: string)
    requires entries != []
    ensures (Members(entries, false) + close)[0] == ',' && (Members(entries, false) + close)[1..] == Members(entries, true) + close
    ensures Starts(Members(entries, true) + close, '"')
  {
    MembersStart(entries);
    Assoc(",", Members(entries, true), close);
    var s := "," + (Members(entries, true) + close);
    assert s[1..] == Members(entries, true) + close;
  }

  /** The key and the colon of one member. */
  lemma KeyComesBack(e: Entry, more: string)
    ensures var s := Member(e) + more;
            Starts(s, '"') && ParseChars(s[1..]) == Got(e.key, ":" + (PrintValue(e.value) + more))
  {
    var tail := ":" + (PrintValue(e.value) + more);
    Assoc(Quoted(e.key), ":" + PrintValue(e.value), more);
    Assoc(":", PrintValue(e.value), more);
    assert Member(e) + more == Quoted(e.key) + tail;
    QuotedTail(e.key, tail);
    CharsComeBack(e.key, tail);
  }

  /** What the grammar says of one member and what follows it. */
  lemma MemberParsed(s: string, key: string, colon: string, value: JSON, more: string)
    requires Starts(s, '"') && ParseChars(s[1..]) == Got(key, colon)
    requires Starts(colon, ':') && Solid(colon[1..]) && ParseValue(colon[1..]) == Got(value, more)
    requires Solid(more)
    ensures Starts(more, '}') ==> ParseMembers(s) == Got([(key, value)], more[1..])
    ensures Starts(more, ',') && Solid(more[1..]) && ParseMembers(more[1..]).Got?
            ==> ParseMembers(s) == Got([(key, value)] + ParseMembers(more[1..]).value, ParseMembers(more[1..]).rest)
  {
    NoSpace(colon);
    NoSpace(colon[1..]);
    NoSpace(more);
    if Starts(more, ',') && Solid(more[1..]) { NoSpace(more[1..]); }
  }

  lemma AfterMember(more: string)
    requires Starts(more, '}') || Starts(more, ',')
    ensures Solid(more) && Ends(more)
  {}

  lemma {:induction false} MembersComeBack(entries: seq<Entry>, r: string)
    requires entries != []
    ensures ParseMembers(Members(entries, true) + ("}" + r)) == Got(EntriesJson(entries), r)
    decreases entries, 1
  {
    var close := "}" + r;
    var e, rest := entries[0], entries[1..];
    var more := Members(rest, false) + close;
    if rest == [] {
      assert more == close && Starts(more, '}') && more[1..] == r;
      assert EntriesJson(entries) == [(e.key, ValueJson(e.value))];
    } else {
      CommaThenMembers(rest, close);
      MembersComeBack(rest, r);
    }
    AfterMember(more);
    ValueComesBack(e.value, more);
    ValueStarts(e.value, more);
    MemberThen(entries, close);
    MemberParsed(Members(entries, true) + close, e.key, ":" + (PrintValue(e.value) + more), ValueJson(e.value), more);
  }

  lemma MemberThen(entries: seq<Entry>, close: string)
    requires entries != []
    ensures var s, e := Members(entries, true) + close, entries[0];
            var value := PrintValue(e.value) + (Members(entries[1..], false) + close);
            Starts(s, '"') && ParseChars(s[1..]) == Got(e.key, ":" + value) && (":" + value)[1..] == value
  {
    MembersStart(entries);
    Assoc(Member(entries[0]), Members(entries[1..], false), close);
    KeyComesBack(entries[0], Members(entries[1..], false) + close);
  }

  /** The whole text: parsing what is printed gives back exactly the tree that was printed. */
  lemma PrintedJsonParses(v: Value)
    ensures Parse(PrintValue(v)) == Some(ValueJson(v))
  {
    ValueComesBack(v, "");
    assert PrintValue(v) + "" == PrintValue(v);
    ValueStarts(v, "");
    NoSpace(PrintValue(v));
    NoSpace("");
  }
}
