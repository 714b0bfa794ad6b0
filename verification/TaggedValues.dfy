/** Tagged values on the two sides of the module boundary: wasi/src/value.rs and
    internal/backend/backend.go.  A 64-bit float is its bit pattern and a time its milliseconds.
  */
module TaggedValues {
  import opened Words
  import opened LittleEndian
  import opened Codes
  import GoValues

  // ---------------------------------------------------------------- inside the module

  datatype ScalarValue =
    | SNull
    | SBoolean(b: bool)
    | SInt(i: i64)
    | SUint(u: u64)
    | SF64(bits: u64)
    | SStr(s: Bytes)          // the bytes of a UTF-8 string
    | SBytes(bytes: Bytes)
    | SCounter(c: i64)
    | STimestamp(t: i64)
    | SUnknown

  datatype ObjType = OMap | OTable | OList | OText

  datatype Value = Object(kind: ObjType) | Scalar(s: ScalarValue)

  function EncodeScalar(s: ScalarValue): Bytes {
    match s
    case SNull => [0x00]
    case SBoolean(b) => [0x01, if b then 1 else 0]
    case SInt(i) => [0x02] + LE(ToU64(i), 8)
    case SUint(u) => [0x03] + LE(u, 8)
    case SF64(bits) => [0x04] + LE(bits, 8)
    case SStr(s) => [0x05] + s
    case SBytes(b) => [0x06] + b
    case SCounter(c) => [0x07] + LE(ToU64(c), 8)
    case STimestamp(t) => [0x08] + LE(ToU64(t), 8)
    case SUnknown => [0xFF]
  }

  function EncodeValue(v: Value, handle: u32): Bytes {
    match v
    case Object(kind) =>
      var tag: byte := match kind { case OMap => 0x09 case OTable => 0x09 case OList => 0x0A case OText => 0x0B };
      [tag] + LE(handle, 4)
    case Scalar(s) => EncodeScalar(s)
  }

  datatype ParsedValue = ParsedScalar(s: ScalarValue) | ParsedObject(kind: ObjType)

  function ParseTagged(tag: byte, payload: Bytes): Option<ParsedValue> {
    match tag
    case 0x00 => Some(ParsedScalar(SNull))
    case 0x01 => if payload == [] then None else Some(ParsedScalar(SBoolean(payload[0] != 0)))
    case 0x02 => if |payload| < 8 then None else Some(ParsedScalar(SInt(ToI64(ReadU64(payload[..8])))))
    case 0x03 => if |payload| < 8 then None else Some(ParsedScalar(SUint(ReadU64(payload[..8]))))
    case 0x04 => if |payload| < 8 then None else Some(ParsedScalar(SF64(ReadU64(payload[..8]))))
    case 0x05 => if !GoValues.Utf8(payload) then None else Some(ParsedScalar(SStr(payload)))
    case 0x06 => Some(ParsedScalar(SBytes(payload)))
    case 0x07 => if |payload| < 8 then None else Some(ParsedScalar(SCounter(ToI64(ReadU64(payload[..8])))))
    case 0x08 => if |payload| < 8 then None else Some(ParsedScalar(STimestamp(ToI64(ReadU64(payload[..8])))))
    case 0x09 => Some(ParsedObject(OMap))
    case 0x0A => Some(ParsedObject(OList))
    case 0x0B => Some(ParsedObject(OText))
    case _ => None
  }

  // ---------------------------------------------------------------- on the Go side

  datatype BackendValue =
    | Void
    | Null
    | Bool(b: bool)
    | Int64(i: i64)
    | Uint64(u: u64)
    | Float64(bits: u64)
    | Str(s: Bytes)
    | Raw(bytes: Bytes)
    | Counter(c: i64)
    | Time(ms: i64)
    | Map(h: u32)
    | List(h: u32)
    | Text(h: u32)
    | Unknown

  /** None stands for the errors about payloads that are too short. */
  function DecodeValue(data: Bytes): Option<BackendValue> {
    if data == [] then Some(Void)
    else
      var payload := data[1..];
      match data[0]
      case 0xFF => Some(Void)
      case 0x00 => Some(Null)
      case 0x01 => if |payload| < 1 then None else Some(Bool(payload[0] != 0))
      case 0x02 => if |payload| < 8 then None else Some(Int64(ToI64(ReadU64(payload[..8]))))
      case 0x03 => if |payload| < 8 then None else Some(Uint64(ReadU64(payload[..8])))
      case 0x04 => if |payload| < 8 then None else Some(Float64(ReadU64(payload[..8])))
      case 0x05 => Some(Str(payload))
      case 0x06 => Some(Raw(payload))
      case 0x07 => if |payload| < 8 then None else Some(Counter(ToI64(ReadU64(payload[..8]))))
      case 0x08 => if |payload| < 8 then None else Some(Time(ToI64(ReadU64(payload[..8]))))
      case 0x09 => if |payload| < 4 then None else Some(Map(ReadU32(payload[..4])))
      case 0x0A => if |payload| < 4 then None else Some(List(ReadU32(payload[..4])))
      case 0x0B => if |payload| < 4 then None else Some(Text(ReadU32(payload[..4])))
      case _ => Some(Unknown)
  }

  /** The Go values for which there is an `Encode` function. */
  predicate Primitive(v: BackendValue) {
    !(v.Void? || v.Map? || v.List? || v.Text? || v.Unknown?)
  }

  /** `EncodeNull`, `EncodeBool`, `EncodeStr`, `EncodeBytes`, `EncodeInt64`, ... */
  function EncodeGo(v: BackendValue): (byte, Bytes)
    requires Primitive(v)
  {
    match v
    case Null => (0x00, [])
    case Bool(b) => (0x01, if b then [1] else [0])
    case Str(s) => (0x05, s)
    case Raw(b) => (0x06, b)
    case Int64(i) => (0x02, LE(ToU64(i), 8))
    case Uint64(u) => (0x03, LE(u, 8))
    case Float64(bits) => (0x04, LE(bits, 8))
    case Time(ms) => (0x08, LE(ToU64(ms), 8))
    case Counter(c) => (0x07, LE(ToU64(c), 8))
  }

  // ---------------------------------------------------------------- across the boundary

  /** The Go value that stands for a value of the document. */
  function AsGo(v: Value, handle: u32): BackendValue {
    match v
    case Object(OMap) => Map(handle)
    case Object(OTable) => Map(handle)
    case Object(OList) => List(handle)
    case Object(OText) => Text(handle)
    case Scalar(SNull) => Null
    case Scalar(SBoolean(b)) => Bool(b)
    case Scalar(SInt(i)) => Int64(i)
    case Scalar(SUint(u)) => Uint64(u)
    case Scalar(SF64(bits)) => Float64(bits)
    case Scalar(SStr(s)) => Str(s)
    case Scalar(SBytes(b)) => Raw(b)
    case Scalar(SCounter(c)) => Counter(c)
    case Scalar(STimestamp(t)) => Time(t)
    case Scalar(SUnknown) => Void
  }

  lemma Tagged(tag: byte, payload: Bytes)
    ensures var d := [tag] + payload; d[0] == tag && d[1..] == payload
  {}

  lemma Whole(payload: Bytes, k: nat)
    requires |payload| == k
    ensures payload[..k] == payload
  {}

  /** An eight-byte payload. */
  lemma Eight(u: u64)
    ensures |LE(u, 8)| == 8 && ReadU64(LE(u, 8)[..8]) == u
  {
    Whole(LE(u, 8), 8);
    U64ComesBack(u);
  }

  lemma EightSigned(i: i64)
    ensures |LE(ToU64(i), 8)| == 8 && ToI64(ReadU64(LE(ToU64(i), 8)[..8])) == i
  {
    Eight(ToU64(i));
    I64ComesBack(i);
  }

  /** Reading: what the module encodes is what Go decodes; an unknown scalar reads as void. */
  lemma ReadCrosses(v: Value, handle: u32)
    ensures DecodeValue(EncodeValue(v, handle)) == Some(AsGo(v, handle))
  {
    match v
    case Object(kind) =>
      Tagged(EncodeValue(v, handle)[0], LE(handle, 4));
      Whole(LE(handle, 4), 4);
      U32ComesBack(handle);
    case Scalar(s) =>
      ScalarReadCrosses(s);
  }

  lemma ScalarReadCrosses(s: ScalarValue)
    ensures DecodeValue(EncodeScalar(s)) == Some(AsGo(Scalar(s), 0))
  {
    match s
    case SInt(i) => Tagged(0x02, LE(ToU64(i), 8)); EightSigned(i);
    case SUint(u) => Tagged(0x03, LE(u, 8)); Eight(u);
    case SF64(bits) => Tagged(0x04, LE(bits, 8)); Eight(bits);
    case SStr(s) => Tagged(0x05, s);
    case SBytes(b) => Tagged(0x06, b);
    case SCounter(c) => Tagged(0x07, LE(ToU64(c), 8)); EightSigned(c);
    case STimestamp(t) => Tagged(0x08, LE(ToU64(t), 8)); EightSigned(t);
    case _ =>
  }

  /** Writing: the module parses what Go encodes, except strings that are not UTF-8, and parses it as
      the scalar that reads back as the same Go value. */
  lemma WriteCrosses(v: BackendValue)
    requires Primitive(v)
    ensures var (tag, payload) := EncodeGo(v);
            var p := ParseTagged(tag, payload);
            (p.None? <==> v.Str? && !GoValues.Utf8(v.s)) &&
            (p.Some? ==> p.value.ParsedScalar? && AsGo(Scalar(p.value.s), 0) == v)
  {
    match v
    case Int64(i) => EightSigned(i);
    case Uint64(u) => Eight(u);
    case Float64(bits) => Eight(bits);
    case Time(ms) => EightSigned(ms);
    case Counter(c) => EightSigned(c);
    case _ =>
  }

  /** A primitive written into the document and read again is unchanged. */
  lemma WriteThenRead(v: BackendValue)
    requires Primitive(v) && (v.Str? ==> GoValues.Utf8(v.s))
    ensures var p := ParseTagged(EncodeGo(v).0, EncodeGo(v).1);
            p.Some? && p.value.ParsedScalar? && DecodeValue(EncodeScalar(p.value.s)) == Some(v)
  {
    WriteCrosses(v);
    ScalarReadCrosses(ParseTagged(EncodeGo(v).0, EncodeGo(v).1).value.s);
  }

  /** How many payload bytes a tag calls for. */
  function Needs(tag: byte): nat {
    if tag == 0x01 then 1
    else if tag in {0x02, 0x03, 0x04, 0x07, 0x08} then 8
    else if tag in {0x09, 0x0A, 0x0B} then 4
    else 0
  }

  lemma DecodingFailsExactlyWhenShort(data: Bytes)
    ensures DecodeValue(data).None? <==> data != [] && |data| - 1 < Needs(data[0])
  {}

  /** What reads as void, and what as unknown. */
  lemma VoidAndUnknownExactly(data: Bytes)
    ensures DecodeValue(data) == Some(Void) <==> data == [] || data[0] == 0xFF
    ensures DecodeValue(data) == Some(Unknown) <==> data != [] && 0x0B < data[0] < 0xFF
  {}

  /** The module refuses a put exactly if the tag is none of the twelve, or the payload of a scalar is
      too short or, for a string, not UTF-8. */
  lemma ParsingFailsExactly(tag: byte, payload: Bytes)
    ensures ParseTagged(tag, payload).None? <==>
            tag > 0x0B || (tag <= 0x08 && |payload| < Needs(tag)) || (tag == 0x05 && !GoValues.Utf8(payload))
    ensures ParseTagged(tag, payload).Some? && 0x09 <= tag ==>
            ParseTagged(tag, payload).value == ParsedObject(if tag == 0x09 then OMap else if tag == 0x0A then OList else OText)
  {}

  /** Two values with their handles look alike on the wire exactly if they are the same, but for two
      things: a table is sent as a map, and a scalar has no handle. */
  lemma WireIsUnambiguous(v: Value, w: Value, h: u32, k: u32)
    ensures EncodeValue(v, h) == EncodeValue(w, k) <==> AsMap(v) == AsMap(w) && (v.Object? ==> h == k)
  {
    if EncodeValue(v, h) == EncodeValue(w, k) {
      ReadCrosses(v, h);
      ReadCrosses(w, k);
    }
  }

  function AsMap(v: Value): Value {
    if v == Object(OTable) then Object(OMap) else v
  }
}
