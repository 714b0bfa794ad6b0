/** JSON texts after sections 2 to 7 of RFC 8259, as a parser that accepts the whole grammar.

    It is the reference that the printers of rich text are measured against.
  */
module JsonGrammar {
  import opened Words

  datatype JSON =
    | JNull
    | JBool(b: bool)
    | JInt(n: int)                  // a number without fraction and exponent
    | JDecimal(lexeme: string)      // any other number
    | JString(s: string)
    | JArray(items: seq<JSON>)
    | JObject(members: seq<(string, JSON)>)

  datatype Parsed<+T> = Fails | Got(value: T, rest: string)

  // ---------------------------------------------------------------- section 2: white space

  predicate IsSpace(c: char) {
    c == ' ' || c == '\t' || c == '\n' || c == '\r'
  }

  function SkipSpace(s: string): (r: string)
    ensures |r| <= |s|
  {
    if s != [] && IsSpace(s[0]) then SkipSpace(s[1..]) else s
  }

  predicate Starts(s: string, c: char) {
    s != [] && s[0] == c
  }

  // ---------------------------------------------------------------- section 6: numbers

  predicate IsDigit(c: char) {
    '0' <= c <= '9'
  }

  /** The number of digits at the start. */
  function DigitCount(s: string): (k: nat)
    ensures k <= |s|
  {
    if s != [] && IsDigit(s[0]) then 1 + DigitCount(s[1..]) else 0
  }

  /** The number that a run of digits denotes. */
  function DigitsValue(s: string): nat {
    if s == [] then 0 else 10 * DigitsValue(s[..|s| - 1]) + (if IsDigit(s[|s| - 1]) then s[|s| - 1] as int - '0' as int else 0)
  }

  /** The length of an optional fraction, or None if it is malformed. */
  function FractionLength(s: string): Option<nat> {
    if !Starts(s, '.') then Some(0)
    else
      var k := DigitCount(s[1..]);
      if k == 0 then None else Some(1 + k)
  }

  function ExponentLength(s: string): Option<nat> {
    if !Starts(s, 'e') && !Starts(s, 'E') then Some(0)
    else
      var sign := if Starts(s[1..], '+') || Starts(s[1..], '-') then 1 else 0;
      var k := DigitCount(s[1 + sign..]);
      if k == 0 then None else Some(1 + sign + k)
  }

  /** The length of the integer part and of what follows it, behind an optional minus sign. */
  datatype Lexeme = NoNumber | Number(digits: nat, more: nat)

  function NumberLexeme(t: string): (l: Lexeme)
    ensures l.Number? ==> 0 < l.digits && l.digits + l.more <= |t|
  {
    var k := if Starts(t, '0') then 1 else DigitCount(t);
    if k == 0 then NoNumber
    else
      var f := FractionLength(t[k..]);
      if f.None? || k + f.value > |t| then NoNumber
      else
        var e := ExponentLength(t[k + f.value..]);
        if e.None? || k + f.value + e.value > |t| then NoNumber else Number(k, f.value + e.value)
  }

  function ParseNumber(s: string): (r: Parsed<JSON>)
    ensures r.Got? ==> |r.rest| < |s|
  {
    var sign := if Starts(s, '-') then 1 else 0;
    var t := s[sign..];
    var l := NumberLexeme(t);
    if l.NoNumber? then Fails
    else if l.more == 0 then
      var n := DigitsValue(t[..l.digits]);
      Got(JInt(if sign == 1 then 0 - n else n), t[l.digits..])
    else
      var m := sign + l.digits + l.more;
      Got(JDecimal(s[..m]), s[m..])
  }

  // ---------------------------------------------------------------- section 7: strings

  function HexValue(c: char): Option<nat> {
    if '0' <= c <= '9' then Some(c as int - '0' as int)
    else if 'a' <= c <= 'f' then Some(c as int - 'a' as int + 10)
    else if 'A' <= c <= 'F' then Some(c as int - 'A' as int + 10)
    else None
  }

  /** Four hexadecimal digits. */
  function Hex4(s: string): Option<nat> {
    if |s| < 4 then None
    else
      var a, b, c, d := HexValue(s[0]), HexValue(s[1]), HexValue(s[2]), HexValue(s[3]);
      if a.None? || b.None? || c.None? || d.None? then None
      else Some(((a.value * 16 + b.value) * 16 + c.value) * 16 + d.value)
  }

  /** The character after a backslash: the short escapes, `\uXXXX`, and surrogate pairs. */
  function ParseEscape(s: string): (r: Parsed<char>)
    ensures r.Got? ==> |r.rest| < |s|
  {
    if s == [] then Fails
    else
      match s[0]
      case '"' => Got('"', s[1..])
      case '\\' => Got('\\', s[1..])
      case '/' => Got('/', s[1..])
      case 'b' => Got(8 as char, s[1..])
      case 'f' => Got(12 as char, s[1..])
      case 'n' => Got('\n', s[1..])
      case 'r' => Got('\r', s[1..])
      case 't' => Got('\t', s[1..])
      case 'u' =>
        var h := Hex4(s[1..]);
        if h.None? then Fails
        else if h.value < 0xD800 || 0xE000 <= h.value <= 0xFFFF then Got(h.value as char, s[5..])
        else if 0xD800 <= h.value < 0xDC00 && |s| >= 11 && s[5] == '\\' && s[6] == 'u' then
          var l := Hex4(s[7..]);
          if l.Some? && 0xDC00 <= l.value < 0xE000
          then Got((0x10000 + (h.value - 0xD800) * 0x400 + (l.value - 0xDC00)) as char, s[11..])
          else Fails
        else Fails
      case _ => Fails
  }

  /** The rest of a string, behind the opening quotation mark. */
  function ParseChars(s: string): (r: Parsed<string>)
    ensures r.Got? ==> |r.rest| < |s|
    decreases |s|
  {
    if s == [] || s[0] < ' ' then Fails
    else if s[0] == '"' then Got("", s[1..])
    else if s[0] == '\\' then
      var c := ParseEscape(s[1..]);
      if c.Fails? then Fails
      else
        var t := ParseChars(c.rest);
        if t.Fails? then Fails else Got([c.value] + t.value, t.rest)
    else
      var t := ParseChars(s[1..]);
      if t.Fails? then Fails else Got([s[0]] + t.value, t.rest)
  }

  // ---------------------------------------------------------------- sections 3 to 5: values

  function ParseWord(s: string, word: string, v: JSON): (r: Parsed<JSON>)
    requires word != []
    ensures r.Got? ==> |r.rest| < |s|
  {
    if word <= s then Got(v, s[|word|..]) else Fails
  }

  function ParseValue(s: string): (r: Parsed<JSON>)
    ensures r.Got? ==> |r.rest| < |s|
    decreases |s|, 0
  {
    if s == [] then Fails
    else
      match s[0]
      case 'n' => ParseWord(s, "null", JNull)
      case 't' => ParseWord(s, "true", JBool(true))
      case 'f' => ParseWord(s, "false", JBool(false))
      case '"' =>
        var t := ParseChars(s[1..]);
        if t.Fails? then Fails else Got(JString(t.value), t.rest)
      case '[' =>
        var t := SkipSpace(s[1..]);
        if Starts(t, ']') then Got(JArray([]), t[1..])
        else
          var x := ParseElements(t);
          if x.Fails? then Fails else Got(JArray(x.value), x.rest)
      case '{' =>
        var t := SkipSpace(s[1..]);
        if Starts(t, '}') then Got(JObject([]), t[1..])
        else
          var x := ParseMembers(t);
          if x.Fails? then Fails else Got(JObject(x.value), x.rest)
      case _ => ParseNumber(s)
  }

  /** One or more elements and the closing bracket. */
  function ParseElements(s: string): (r: Parsed<seq<JSON>>)
    ensures r.Got? ==> |r.rest| < |s|
    decreases |s|, 1
  {
    var v := ParseValue(s);
    if v.Fails? then Fails
    else
      var t := SkipSpace(v.rest);
      if Starts(t, ']') then Got([v.value], t[1..])
      else if Starts(t, ',') then
        var more := ParseElements(SkipSpace(t[1..]));
        if more.Fails? then Fails else Got([v.value] + more.value, more.rest)
      else Fails
  }

  /** One or more members and the closing brace. */
  function ParseMembers(s: string): (r: Parsed<seq<(string, JSON)>>)
    ensures r.Got? ==> |r.rest| < |s|
    decreases |s|, 1
  {
    if !Starts(s, '"') then Fails
    else
      var k := ParseChars(s[1..]);
      if k.Fails? || !Starts(SkipSpace(k.rest), ':') then Fails
      else
        var v := ParseValue(SkipSpace(SkipSpace(k.rest)[1..]));
        if v.Fails? then Fails
        else
          var t := SkipSpace(v.rest);
          if Starts(t, '}') then Got([(k.value, v.value)], t[1..])
          else if Starts(t, ',') then
            var more := ParseMembers(SkipSpace(t[1..]));
            if more.Fails? then Fails else Got([(k.value, v.value)] + more.value, more.rest)
          else Fails
  }

  /** A JSON text: one value between white space. */
  function Parse(s: string): Option<JSON> {
    var v := ParseValue(SkipSpace(s));
    if v.Got? && SkipSpace(v.rest) == [] then Some(v.value) else None
  }
}
