/**
 * The wire form of part trees: schemas as write_schema and make_decoder exchange them,
 * values as write_message and read_data_from_message do.
 */
module Codec {
  import opened Bytes

  // Every subclass of Part but Record.
  datatype Kind =
    | String | Double | Float | Boolean
    | Uint8 | Uint16 | Uint32 | Uint64
    | Int8 | Int16 | Int32 | Int64

  // Absent stands for the null pointer make_decoder returns for a type byte it does not know.
  datatype Schema =
    | Record(name: seq<Byte>, fields: seq<Schema>)
    | Leaf(name: seq<Byte>, kind: Kind)
    | Absent

  // Numbers are their raw bits, floating-point numbers included.
  datatype Value =
    | Fields(values: seq<Value>)
    | Number(bits: nat)
    | Text(chars: seq<Byte>)

  const RECORD: Byte := 0
  const SIZE_WIDTH := 4

  function Code(k: Kind): Byte {
    match k
    case String => 1
    case Double => 2
    case Float => 3
    case Boolean => 4
    case Uint8 => 5
    case Uint16 => 6
    case Uint32 => 7
    case Uint64 => 8
    case Int8 => 9
    case Int16 => 10
    case Int32 => 11
    case Int64 => 12
  }

  function KindOf(code: Byte): Option<Kind> {
    match code
    case 1 => Some(String)
    case 2 => Some(Double)
    case 3 => Some(Float)
    case 4 => Some(Boolean)
    case 5 => Some(Uint8)
    case 6 => Some(Uint16)
    case 7 => Some(Uint32)
    case 8 => Some(Uint64)
    case 9 => Some(Int8)
    case 10 => Some(Int16)
    case 11 => Some(Int32)
    case 12 => Some(Int64)
    case _ => None
  }

  // sizeof of the value; strings have no fixed size.
  function Width(k: Kind): nat {
    match k
    case String => 0
    case Boolean | Uint8 | Int8 => 1
    case Uint16 | Int16 => 2
    case Float | Uint32 | Int32 => 4
    case Double | Uint64 | Int64 => 8
  }

  // ----- writing

  function EncodeString(s: seq<Byte>): (enc: seq<Byte>)
    ensures |enc| == |s| + 1
  {
    s + [0]
  }

  function EncodeSchema(s: Schema): seq<Byte>
    decreases s, 1
  {
    match s
    case Leaf(name, kind) => [Code(kind)] + EncodeString(name)
    case Record(name, fields) => EncodeHeader(name, |fields|) + EncodeSchemas(fields)
    case Absent => []
  }

  function EncodeHeader(name: seq<Byte>, n: nat): (h: seq<Byte>)
    ensures |h| == |name| + 6
  {
    [RECORD] + (EncodeString(name) + LittleEndian(n, SIZE_WIDTH))
  }

  function EncodeSchemas(fields: seq<Schema>): seq<Byte>
    decreases fields, 0
  {
    if fields == [] then [] else EncodeSchema(fields[0]) + EncodeSchemas(fields[1..])
  }

  function EncodeValue(s: Schema, v: Value): seq<Byte>
    decreases s, 1
  {
    match (s, v)
    case (Leaf(_, String), Text(chars)) => EncodeString(chars)
    case (Leaf(_, kind), Number(bits)) => LittleEndian(bits, Width(kind))
    case (Record(_, fields), Fields(values)) => EncodeValues(fields, values)
    case _ => []
  }

  function EncodeValues(fields: seq<Schema>, values: seq<Value>): seq<Byte>
    decreases fields, 0
  {
    if fields == [] || values == [] then []
    else EncodeValue(fields[0], values[0]) + EncodeValues(fields[1..], values[1..])
  }

  // ----- reading: None is a read past the end that the reader does not check

  datatype Parsed<+T> = Parsed(value: T, to: nat)

  function GetString(b: seq<Byte>, at: nat): (r: Option<Parsed<seq<Byte>>>)
    ensures r.Some? ==> at < r.value.to <= |b| && NulFree(r.value.value)
    decreases |b| - at
  {
    if at >= |b| then None
    else if b[at] == 0 then Some(Parsed([], at + 1))
    else match GetString(b, at + 1)
      case None => None
      case Some(Parsed(rest, to)) => Some(Parsed([b[at]] + rest, to))
  }

  // get_number checks its bound: past the end it gives 0 and stays where it is.
  function GetNumber(b: seq<Byte>, at: nat, width: nat): Parsed<nat> {
    if at + width > |b| then Parsed(0, at)
    else Parsed(FromLittleEndian(b[at..at + width]), at + width)
  }

  function ParseSchema(b: seq<Byte>, at: nat): (r: Option<Parsed<Schema>>)
    ensures r.Some? ==> at < r.value.to <= |b|
    decreases |b| - at, 0
  {
    if at >= |b| then None
    else match GetString(b, at + 1)
      case None => None
      case Some(Parsed(name, from)) =>
        if b[at] == RECORD then
          var size := GetNumber(b, from, SIZE_WIDTH);
          match ParseSchemas(b, size.to, size.value)
          case None => None
          case Some(Parsed(fields, to)) => Some(Parsed(Record(name, fields), to))
        else
          match KindOf(b[at])
          case None => Some(Parsed(Absent, from))
          case Some(kind) => Some(Parsed(Leaf(name, kind), from))
  }

  function ParseSchemas(b: seq<Byte>, at: nat, n: nat): (r: Option<Parsed<seq<Schema>>>)
    requires at <= |b|
    ensures r.Some? ==> at <= r.value.to <= |b| && |r.value.value| == n
    decreases |b| - at, n + 1
  {
    if n == 0 then Some(Parsed([], at))
    else match ParseSchema(b, at)
      case None => None
      case Some(Parsed(first, mid)) =>
        match ParseSchemas(b, mid, n - 1)
        case None => None
        case Some(Parsed(rest, to)) => Some(Parsed([first] + rest, to))
  }

  function ReadValue(s: Schema, b: seq<Byte>, at: nat): (r: Option<Parsed<Value>>)
    decreases s, 1
  {
    match s
    case Leaf(_, String) =>
      (match GetString(b, at)
       case None => None
       case Some(Parsed(chars, to)) => Some(Parsed(Text(chars), to)))
    case Leaf(_, Boolean) =>
      if at >= |b| then None else Some(Parsed(Number(b[at]), at + 1))
    case Leaf(_, kind) =>
      var n := GetNumber(b, at, Width(kind));
      Some(Parsed(Number(n.value), n.to))
    case Record(_, fields) =>
      (match ReadValues(fields, b, at)
       case None => None
       case Some(Parsed(values, to)) => Some(Parsed(Fields(values), to)))
    case Absent => None
  }

  function ReadValues(fields: seq<Schema>, b: seq<Byte>, at: nat): (r: Option<Parsed<seq<Value>>>)
    ensures r.Some? ==> |r.value.value| == |fields|
    decreases fields, 0
  {
    if fields == [] then Some(Parsed([], at))
    else match ReadValue(fields[0], b, at)
      case None => None
      case Some(Parsed(first, mid)) =>
        match ReadValues(fields[1..], b, mid)
        case None => None
        case Some(Parsed(rest, to)) => Some(Parsed([first] + rest, to))
  }

  // ----- the domains

  // No null pointer anywhere in the tree.
  predicate Complete(s: Schema) {
    match s
    case Leaf(_, _) => true
    case Record(_, fields) => forall i | 0 <= i < |fields| :: Complete(fields[i])
    case Absent => false
  }

  // Names fit a C string and field counts fit a uint32_t.
  predicate Tame(s: Schema) {
    match s
    case Leaf(name, _) => NulFree(name)
    case Record(name, fields) =>
      NulFree(name) && |fields| < 0x1_0000_0000 && forall i | 0 <= i < |fields| :: Tame(fields[i])
    case Absent => true
  }

  // The value has the shape and the number ranges of the schema.
  predicate Conforms(s: Schema, v: Value)
    decreases s
  {
    match (s, v)
    case (Leaf(_, String), Text(_)) => true
    case (Leaf(_, kind), Number(bits)) => kind != String && bits < Pow256(Width(kind))
    case (Record(_, fields), Fields(values)) =>
      |fields| == |values| && forall i | 0 <= i < |fields| :: Conforms(fields[i], values[i])
    case _ => false
  }

  predicate TextsNulFree(v: Value) {
    match v
    case Number(_) => true
    case Text(chars) => NulFree(chars)
    case Fields(values) => forall i | 0 <= i < |values| :: TextsNulFree(values[i])
  }

  // enc stands in b from position at on.
  predicate Holds(b: seq<Byte>, at: nat, enc: seq<Byte>) {
    at + |enc| <= |b| && b[at..at + |enc|] == enc
  }

  lemma HoldsSplit(b: seq<Byte>, at: nat, x: seq<Byte>, y: seq<Byte>)
    ensures Holds(b, at, x + y) <==> Holds(b, at, x) && Holds(b, at + |x|, y)
  {
    if Holds(b, at, x + y) {
      assert b[at..at + |x|] == (x + y)[..|x|];
      assert b[at + |x|..at + |x + y|] == (x + y)[|x|..];
    }
    if Holds(b, at, x) && Holds(b, at + |x|, y) {
      assert b[at..at + |x + y|] == b[at..at + |x|] + b[at + |x|..at + |x + y|];
    }
  }

  // ----- strings and numbers

  lemma {:induction false} GetStringWritten(b: seq<Byte>, at: nat, s: seq<Byte>)
    requires NulFree(s) && Holds(b, at, EncodeString(s))
    ensures GetString(b, at) == Some(Parsed(s, at + |s| + 1))
    decreases |s|
  {
    if s == [] {
    } else {
      assert EncodeString(s) == [s[0]] + EncodeString(s[1..]);
      HoldsSplit(b, at, [s[0]], EncodeString(s[1..]));
      GetStringWritten(b, at + 1, s[1..]);
      assert s == [s[0]] + s[1..];
      assert b[at..at + 1][0] == b[at];
    }
  }

  lemma {:induction false} GetStringExact(b: seq<Byte>, at: nat)
    requires GetString(b, at).Some?
    ensures var r := GetString(b, at).value;
            r.to == at + |r.value| + 1 && Holds(b, at, EncodeString(r.value))
    decreases |b| - at
  {
    if b[at] == 0 {
    } else {
      GetStringExact(b, at + 1);
      var r := GetString(b, at).value;
      var rest := GetString(b, at + 1).value;
      assert EncodeString(r.value) == [b[at]] + EncodeString(rest.value);
      HoldsSplit(b, at, [b[at]], EncodeString(rest.value));
    }
  }

  lemma GetNumberWritten(b: seq<Byte>, at: nat, n: nat, width: nat)
    requires n < Pow256(width) && Holds(b, at, LittleEndian(n, width))
    ensures GetNumber(b, at, width) == Parsed(n, at + width)
  {
    LittleEndianRoundTrip(n, width);
  }
}
