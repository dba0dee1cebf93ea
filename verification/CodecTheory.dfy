/**
 * Round trips of schemas and values through their wire form.
 */
module CodecTheory {
  import opened Bytes
  import opened Codec

  lemma KindCodes(k: Kind)
    ensures Code(k) != RECORD && KindOf(Code(k)) == Some(k)
  {
  }

  lemma CodeKinds(code: Byte)
    ensures KindOf(code).Some? ==> Code(KindOf(code).value) == code
  {
  }

  // ----- schemas: what is written is read back

  lemma {:induction false} ParseWritten(s: Schema, b: seq<Byte>, at: nat)
    requires Complete(s) && Tame(s) && Holds(b, at, EncodeSchema(s))
    ensures ParseSchema(b, at) == Some(Parsed(s, at + |EncodeSchema(s)|))
    decreases s, 1
  {
    match s
    case Leaf(name, kind) =>
      KindCodes(kind);
      HoldsSplit(b, at, [Code(kind)], EncodeString(name));
      GetStringWritten(b, at + 1, name);
      HeadOf(b, at, Code(kind));
    case Record(name, fields) =>
      ParseWrittenRecord(name, fields, b, at);
    case Absent =>
  }

  lemma HeadOf(b: seq<Byte>, at: nat, x: Byte)
    requires Holds(b, at, [x])
    ensures at < |b| && b[at] == x
  {
  }

  // make_decoder and the Record constructor, one step unfolded.
  lemma RecordStep(b: seq<Byte>, at: nat, name: Parsed<seq<Byte>>, size: Parsed<nat>, fields: Parsed<seq<Schema>>)
    requires at < |b| && b[at] == RECORD && GetString(b, at + 1) == Some(name)
    requires GetNumber(b, name.to, SIZE_WIDTH) == size && size.to <= |b|
    requires ParseSchemas(b, size.to, size.value) == Some(fields)
    ensures ParseSchema(b, at) == Some(Parsed(Record(name.value, fields.value), fields.to))
  {
  }

  lemma FieldStep(b: seq<Byte>, at: nat, n: nat, first: Parsed<Schema>, rest: Parsed<seq<Schema>>)
    requires at <= |b| && n > 0 && ParseSchema(b, at) == Some(first)
    requires ParseSchemas(b, first.to, n - 1) == Some(rest)
    ensures ParseSchemas(b, at, n) == Some(Parsed([first.value] + rest.value, rest.to))
  {
  }

  lemma {:induction false} ParseWrittenRecord(name: seq<Byte>, fields: seq<Schema>, b: seq<Byte>, at: nat)
    requires Complete(Record(name, fields)) && Tame(Record(name, fields))
    requires Holds(b, at, EncodeSchema(Record(name, fields)))
    ensures ParseSchema(b, at)
         == Some(Parsed(Record(name, fields), at + |EncodeSchema(Record(name, fields))|))
    decreases fields, 2
  {
    hide EncodeHeader, GetString, GetNumber, EncodeSchemas, Holds, ParseSchema, ParseSchemas;
    var h := at + |name| + 6;
    HoldsSplit(b, at, EncodeHeader(name, |fields|), EncodeSchemas(fields));
    HeaderWritten(b, at, name, |fields|);
    ParseWrittenFields(fields, b, h);
    RecordStep(b, at, Parsed(name, h - 4), Parsed(|fields|, h), Parsed(fields, h + |EncodeSchemas(fields)|));
  }

  lemma HeaderWritten(b: seq<Byte>, at: nat, name: seq<Byte>, n: nat)
    requires NulFree(name) && n < 0x1_0000_0000 && Holds(b, at, EncodeHeader(name, n))
    ensures at < |b| && b[at] == RECORD
    ensures GetString(b, at + 1) == Some(Parsed(name, at + |name| + 2))
    ensures GetNumber(b, at + |name| + 2, SIZE_WIDTH) == Parsed(n, at + |name| + 6)
  {
    hide GetString, GetNumber, LittleEndian, Pow256, Holds, EncodeString, NulFree;
    var size := LittleEndian(n, SIZE_WIDTH);
    HoldsSplit(b, at, [RECORD], EncodeString(name) + size);
    HoldsSplit(b, at + 1, EncodeString(name), size);
    HeadOf(b, at, RECORD);
    GetStringWritten(b, at + 1, name);
    FourByteRange();
    GetNumberWritten(b, at + |name| + 2, n, SIZE_WIDTH);
  }

  predicate AllReady(fields: seq<Schema>) {
    forall i | 0 <= i < |fields| :: Complete(fields[i]) && Tame(fields[i])
  }

  lemma ReadyTail(fields: seq<Schema>)
    requires AllReady(fields) && fields != []
    ensures Complete(fields[0]) && Tame(fields[0]) && AllReady(fields[1..])
  {
  }

  predicate AllComplete(fields: seq<Schema>) {
    forall i | 0 <= i < |fields| :: Complete(fields[i])
  }

  lemma CompleteTail(first: Schema, rest: seq<Schema>)
    requires AllComplete([first] + rest)
    ensures Complete(first) && AllComplete(rest)
  {
    assert ([first] + rest)[0] == first;
    forall i | 0 <= i < |rest|
      ensures Complete(rest[i])
    {
      assert rest[i] == ([first] + rest)[i + 1];
    }
  }

  lemma {:induction false} ParseWrittenFields(fields: seq<Schema>, b: seq<Byte>, at: nat)
    requires AllReady(fields) && Holds(b, at, EncodeSchemas(fields))
    ensures at <= |b|
    ensures ParseSchemas(b, at, |fields|) == Some(Parsed(fields, at + |EncodeSchemas(fields)|))
    decreases fields, 0
  {
    hide EncodeSchema, EncodeSchemas, ParseSchema, ParseSchemas, Holds, AllReady, Complete, Tame;
    HoldsBound(b, at, EncodeSchemas(fields));
    if fields == [] {
      NoFields(b, at);
    } else {
      ReadyTail(fields);
      SplitFields(fields, b, at);
      ParseWritten(fields[0], b, at);
      ParseWrittenFields(fields[1..], b, at + |EncodeSchema(fields[0])|);
      JoinFields(fields, b, at);
    }
  }

  lemma SplitFields(fields: seq<Schema>, b: seq<Byte>, at: nat)
    requires fields != [] && Holds(b, at, EncodeSchemas(fields))
    ensures Holds(b, at, EncodeSchema(fields[0]))
    ensures Holds(b, at + |EncodeSchema(fields[0])|, EncodeSchemas(fields[1..]))
  {
    hide EncodeSchema, Holds;
    HoldsSplit(b, at, EncodeSchema(fields[0]), EncodeSchemas(fields[1..]));
  }

  lemma JoinFields(fields: seq<Schema>, b: seq<Byte>, at: nat)
    requires fields != [] && at <= |b|
    requires ParseSchema(b, at) == Some(Parsed(fields[0], at + |EncodeSchema(fields[0])|))
    requires var mid := at + |EncodeSchema(fields[0])|;
             mid <= |b| && ParseSchemas(b, mid, |fields| - 1) ==
                           Some(Parsed(fields[1..], mid + |EncodeSchemas(fields[1..])|))
    ensures ParseSchemas(b, at, |fields|) == Some(Parsed(fields, at + |EncodeSchemas(fields)|))
  {
    hide EncodeSchema, ParseSchema, ParseSchemas;
    var mid := at + |EncodeSchema(fields[0])|;
    FieldStep(b, at, |fields|, Parsed(fields[0], mid), Parsed(fields[1..], mid + |EncodeSchemas(fields[1..])|));
    assert fields == [fields[0]] + fields[1..];
  }

  lemma NoFields(b: seq<Byte>, at: nat)
    requires at <= |b|
    ensures ParseSchemas(b, at, 0) == Some(Parsed([], at)) && EncodeSchemas([]) == []
  {
  }

  lemma EncodeFirst(first: Schema, rest: seq<Schema>)
    ensures EncodeSchemas([first] + rest) == EncodeSchema(first) + EncodeSchemas(rest)
  {
  }

  lemma HoldsBound(b: seq<Byte>, at: nat, enc: seq<Byte>)
    requires Holds(b, at, enc)
    ensures at + |enc| <= |b|
  {
  }

  // ----- schemas: what is read is what was written

  lemma {:induction false} ParsedIsTame(b: seq<Byte>, at: nat)
    requires ParseSchema(b, at).Some?
    ensures Tame(ParseSchema(b, at).value.value)
    decreases |b| - at, 0
  {
    var from := GetString(b, at + 1).value.to;
    if b[at] == RECORD {
      var size := GetNumber(b, from, SIZE_WIDTH);
      if from + SIZE_WIDTH <= |b| { FromLittleEndianBound(b[from..from + SIZE_WIDTH]); }
      FourByteRange();
      ParsedFieldsAreTame(b, size.to, size.value);
    }
  }

  lemma {:induction false} ParsedFieldsAreTame(b: seq<Byte>, at: nat, n: nat)
    requires at <= |b| && ParseSchemas(b, at, n).Some?
    ensures forall s | s in ParseSchemas(b, at, n).value.value :: Tame(s)
    decreases |b| - at, n + 1
  {
    if n == 0 {
    } else {
      ParsedIsTame(b, at);
      ParsedFieldsAreTame(b, ParseSchema(b, at).value.to, n - 1);
    }
  }

  // The parse ended with the bytes the result is written as ...
  predicate Exact(b: seq<Byte>, at: nat, enc: seq<Byte>, to: nat) {
    Holds(b, at, enc) && to == at + |enc|
  }

  // ... or some field count had fewer than four bytes left, was read as 0 and took none of them.
  predicate CutOff(b: seq<Byte>, at: nat, enc: seq<Byte>, to: nat) {
    at + |enc| > |b| && to + SIZE_WIDTH > |b|
  }

  // Every field count that is read has its four bytes: each record's name ends at least that far before
  // the end of b.
  predicate CountsFit(b: seq<Byte>, at: nat)
    requires ParseSchema(b, at).Some?
    decreases |b| - at, 0
  {
    b[at] == RECORD ==>
      var from := GetString(b, at + 1).value.to;
      from + SIZE_WIDTH <= |b| && AllCountsFit(b, from + SIZE_WIDTH, GetNumber(b, from, SIZE_WIDTH).value)
  }

  predicate AllCountsFit(b: seq<Byte>, at: nat, n: nat)
    requires at <= |b| && ParseSchemas(b, at, n).Some?
    decreases |b| - at, n + 1
  {
    n == 0 || (CountsFit(b, at) && AllCountsFit(b, ParseSchema(b, at).value.to, n - 1))
  }

  // Bytes that parse to a complete tree are the bytes that tree is written as if and only if every
  // record's name ends four bytes or more before the end. Four bytes after the tree are enough for that,
  // but not the four of a checksum, for a name may run on into them.
  lemma ParsedIsWritten(b: seq<Byte>, at: nat)
    requires ParseSchema(b, at).Some? && Complete(ParseSchema(b, at).value.value)
    ensures var r := ParseSchema(b, at).value;
            var enc := EncodeSchema(r.value);
            && (Holds(b, at, enc) && r.to == at + |enc| <==> CountsFit(b, at))
            && (r.to + SIZE_WIDTH <= |b| ==> CountsFit(b, at))
  {
    hide ParseSchema, EncodeSchema, Complete, Holds, CountsFit;
    ParsedOrCut(b, at);
    var r := ParseSchema(b, at).value;
    if Holds(b, at, EncodeSchema(r.value)) { HoldsBound(b, at, EncodeSchema(r.value)); }
  }

  lemma ExactThen(b: seq<Byte>, at: nat, x: seq<Byte>, mid: nat, y: seq<Byte>, to: nat)
    requires mid <= to && (Exact(b, at, x, mid) || CutOff(b, at, x, mid))
    requires Exact(b, mid, y, to) || CutOff(b, mid, y, to)
    ensures if Exact(b, at, x, mid) && Exact(b, mid, y, to) then Exact(b, at, x + y, to)
            else CutOff(b, at, x + y, to)
  {
    HoldsSplit(b, at, x, y);
    hide Holds;
  }

  lemma {:induction false} ParsedOrCut(b: seq<Byte>, at: nat)
    requires ParseSchema(b, at).Some? && Complete(ParseSchema(b, at).value.value)
    ensures var r := ParseSchema(b, at).value;
            if CountsFit(b, at) then Exact(b, at, EncodeSchema(r.value), r.to)
            else CutOff(b, at, EncodeSchema(r.value), r.to)
    decreases |b| - at, 0
  {
    hide EncodeHeader, Holds, EncodeSchemas, GetString, GetNumber, ParseSchema, ParseSchemas, AllCountsFit;
    if b[at] == RECORD {
      ParsedRecord(b, at);
      var name := GetString(b, at + 1).value;
      var size := GetNumber(b, name.to, SIZE_WIDTH);
      var fields := ParseSchemas(b, size.to, size.value).value;
      HeaderParsed(b, at, name, size);
      ParsedFieldsOrCut(b, size.to, size.value);
      ExactThen(b, at, EncodeHeader(name.value, size.value), size.to, EncodeSchemas(fields.value), fields.to);
    } else {
      ParsedLeafIsWritten(b, at);
    }
  }

  lemma ParsedRecord(b: seq<Byte>, at: nat)
    requires ParseSchema(b, at).Some? && b[at] == RECORD
    ensures GetString(b, at + 1).Some?
    ensures var name := GetString(b, at + 1).value;
            var size := GetNumber(b, name.to, SIZE_WIDTH);
            && at < size.to <= |b| && ParseSchemas(b, size.to, size.value).Some?
            && var fields := ParseSchemas(b, size.to, size.value).value;
               ParseSchema(b, at).value == Parsed(Record(name.value, fields.value), fields.to)
  {
    hide GetString, ParseSchemas, FromLittleEndian;
  }

  lemma HeaderParsed(b: seq<Byte>, at: nat, name: Parsed<seq<Byte>>, size: Parsed<nat>)
    requires at < |b| && b[at] == RECORD && GetString(b, at + 1) == Some(name)
    requires size == GetNumber(b, name.to, SIZE_WIDTH)
    ensures var enc := EncodeHeader(name.value, size.value);
            if name.to + SIZE_WIDTH <= |b| then size.to == name.to + SIZE_WIDTH && Exact(b, at, enc, size.to)
            else CutOff(b, at, enc, size.to) && !Exact(b, at, enc, size.to)
  {
    hide GetString, Holds, EncodeHeader, FromLittleEndian;
    GetStringExact(b, at + 1);
    if name.to + SIZE_WIDTH <= |b| {
      HeaderExact(b, at, name, size.value);
    }
  }

  lemma ParsedLeafIsWritten(b: seq<Byte>, at: nat)
    requires ParseSchema(b, at).Some? && b[at] != RECORD && Complete(ParseSchema(b, at).value.value)
    ensures var r := ParseSchema(b, at).value;
            Holds(b, at, EncodeSchema(r.value)) && r.to == at + |EncodeSchema(r.value)|
  {
    hide GetString, Holds, EncodeString, ParseSchemas, EncodeSchemas, EncodeHeader;
    var name := GetString(b, at + 1).value.value;
    CodeKinds(b[at]);
    GetStringExact(b, at + 1);
    HeadHolds(b, at);
    HoldsSplit(b, at, [b[at]], EncodeString(name));
  }

  lemma HeadHolds(b: seq<Byte>, at: nat)
    requires at < |b|
    ensures Holds(b, at, [b[at]])
  {
  }

  lemma HeaderExact(b: seq<Byte>, at: nat, name: Parsed<seq<Byte>>, n: nat)
    requires at < |b| && b[at] == RECORD && GetString(b, at + 1) == Some(name)
    requires name.to + SIZE_WIDTH <= |b| && n == GetNumber(b, name.to, SIZE_WIDTH).value
    ensures Holds(b, at, EncodeHeader(name.value, n)) && name.to == at + |name.value| + 2
  {
    hide GetString, GetNumber, LittleEndian, Holds, EncodeString;
    GetStringExact(b, at + 1);
    SizeHolds(b, name.to);
    HeadHolds(b, at);
    HoldsSplit(b, at + 1, EncodeString(name.value), LittleEndian(n, SIZE_WIDTH));
    HoldsSplit(b, at, [RECORD], EncodeString(name.value) + LittleEndian(n, SIZE_WIDTH));
  }

  lemma SizeHolds(b: seq<Byte>, at: nat)
    requires at + SIZE_WIDTH <= |b|
    ensures Holds(b, at, LittleEndian(GetNumber(b, at, SIZE_WIDTH).value, SIZE_WIDTH))
  {
    LittleEndianOf(b[at..at + SIZE_WIDTH]);
    hide LittleEndian, FromLittleEndian;
  }

  lemma {:induction false} LittleEndianOf(bytes: seq<Byte>)
    ensures LittleEndian(FromLittleEndian(bytes), |bytes|) == bytes
  {
    if bytes == [] {
    } else {
      LittleEndianOf(bytes[1..]);
      assert FromLittleEndian(bytes) % 256 == bytes[0] && FromLittleEndian(bytes) / 256 == FromLittleEndian(bytes[1..]);
      assert bytes == [bytes[0]] + bytes[1..];
    }
  }

  lemma {:induction false} ParsedFieldsOrCut(b: seq<Byte>, at: nat, n: nat)
    requires at <= |b| && ParseSchemas(b, at, n).Some?
    requires AllComplete(ParseSchemas(b, at, n).value.value)
    ensures var r := ParseSchemas(b, at, n).value;
            if AllCountsFit(b, at, n) then Exact(b, at, EncodeSchemas(r.value), r.to)
            else CutOff(b, at, EncodeSchemas(r.value), r.to)
    decreases |b| - at, n + 1
  {
    hide ParseSchema, EncodeSchema, EncodeSchemas, AllComplete, CountsFit;
    if n == 0 {
      NoFields(b, at);
    } else {
      FirstOfFields(b, at, n);
      hide ParseSchemas;
      var first := ParseSchema(b, at).value;
      var rest := ParseSchemas(b, first.to, n - 1).value;
      EncodeFirst(first.value, rest.value);
      CompleteTail(first.value, rest.value);
      ParsedOrCut(b, at);
      ParsedFieldsOrCut(b, first.to, n - 1);
      ExactThen(b, at, EncodeSchema(first.value), first.to, EncodeSchemas(rest.value), rest.to);
    }
  }

  lemma FirstOfFields(b: seq<Byte>, at: nat, n: nat)
    requires at <= |b| && n > 0 && ParseSchemas(b, at, n).Some?
    ensures ParseSchema(b, at).Some? && ParseSchemas(b, ParseSchema(b, at).value.to, n - 1).Some?
    ensures var first := ParseSchema(b, at).value;
            var rest, all := ParseSchemas(b, first.to, n - 1).value, ParseSchemas(b, at, n).value;
            && all == Parsed([first.value] + rest.value, rest.to)
            && all.value[0] == first.value && all.value[1..] == rest.value
  {
    hide ParseSchema;
  }

  predicate SchemaReadsBack(s: Schema, suffix: seq<Byte>) {
    ParseSchema(EncodeSchema(s) + suffix, 0) == Some(Parsed(s, |EncodeSchema(s)|))
  }

  // make_decoder undoes write_schema, whatever follows, exactly on trees with C-string names and
  // 32-bit field counts.
  lemma SchemaRoundTripIff(s: Schema)
    requires Complete(s)
    ensures (forall suffix :: SchemaReadsBack(s, suffix)) <==> Tame(s)
  {
    if Tame(s) {
      forall suffix
        ensures SchemaReadsBack(s, suffix)
      {
        ParseWritten(s, EncodeSchema(s) + suffix, 0);
      }
    } else if SchemaReadsBack(s, []) {
      ParsedIsTame(EncodeSchema(s) + [], 0);
    }
  }

  // No schema's wire form begins another's.
  lemma SchemaPrefixFree(s: Schema, t: Schema)
    requires Complete(s) && Tame(s) && Complete(t) && Tame(t)
    requires EncodeSchema(s) <= EncodeSchema(t)
    ensures s == t
  {
    ParseWritten(s, EncodeSchema(t), 0);
    ParseWritten(t, EncodeSchema(t), 0);
  }

  // ----- values

  lemma {:induction false} ReadWritten(s: Schema, v: Value, b: seq<Byte>, at: nat)
    requires Conforms(s, v) && TextsNulFree(v) && Holds(b, at, EncodeValue(s, v))
    ensures ReadValue(s, b, at) == Some(Parsed(v, at + |EncodeValue(s, v)|))
    decreases s, 1
  {
    match s
    case Leaf(_, String) =>
      GetStringWritten(b, at, v.chars);
    case Leaf(_, Boolean) =>
      assert LittleEndian(v.bits, 1) == [v.bits % 256] + LittleEndian(v.bits / 256, 0);
      FourByteRange();
      HeadOf(b, at, v.bits);
    case Leaf(_, kind) =>
      GetNumberWritten(b, at, v.bits, Width(kind));
    case Record(_, fields) =>
      ReadWrittenFields(fields, v.values, b, at);
    case Absent =>
  }

  lemma {:induction false} ReadWrittenFields(fields: seq<Schema>, values: seq<Value>, b: seq<Byte>, at: nat)
    requires |fields| == |values|
    requires forall i | 0 <= i < |fields| :: Conforms(fields[i], values[i]) && TextsNulFree(values[i])
    requires Holds(b, at, EncodeValues(fields, values))
    ensures ReadValues(fields, b, at) == Some(Parsed(values, at + |EncodeValues(fields, values)|))
    decreases fields, 0
  {
    hide EncodeValue, ReadValue, Holds, Conforms, TextsNulFree;
    if fields == [] {
    } else {
      var first := EncodeValue(fields[0], values[0]);
      HoldsSplit(b, at, first, EncodeValues(fields[1..], values[1..]));
      ReadWritten(fields[0], values[0], b, at);
      ReadWrittenFields(fields[1..], values[1..], b, at + |first|);
      assert values == [values[0]] + values[1..];
    }
  }

  lemma {:induction false} ReadIsNulFree(s: Schema, b: seq<Byte>, at: nat)
    requires ReadValue(s, b, at).Some?
    ensures TextsNulFree(ReadValue(s, b, at).value.value)
    decreases s, 1
  {
    match s
    case Record(_, fields) => ReadFieldsAreNulFree(fields, b, at);
    case _ =>
  }

  lemma {:induction false} ReadFieldsAreNulFree(fields: seq<Schema>, b: seq<Byte>, at: nat)
    requires ReadValues(fields, b, at).Some?
    ensures forall v | v in ReadValues(fields, b, at).value.value :: TextsNulFree(v)
    decreases fields, 0
  {
    if fields == [] {
    } else {
      ReadIsNulFree(fields[0], b, at);
      ReadFieldsAreNulFree(fields[1..], b, ReadValue(fields[0], b, at).value.to);
    }
  }

  predicate MessageReadsBack(s: Schema, v: Value, prefix: seq<Byte>, suffix: seq<Byte>) {
    ReadValue(s, prefix + EncodeValue(s, v) + suffix, |prefix|)
    == Some(Parsed(v, |prefix| + |EncodeValue(s, v)|))
  }

  // read_data_from_message undoes write_message exactly on values whose strings hold no NUL.
  lemma MessageRoundTripIff(s: Schema, v: Value)
    requires Conforms(s, v)
    ensures (forall prefix, suffix :: MessageReadsBack(s, v, prefix, suffix)) <==> TextsNulFree(v)
  {
    hide ReadValue, EncodeValue, Conforms, TextsNulFree;
    if TextsNulFree(v) {
      forall prefix, suffix
        ensures MessageReadsBack(s, v, prefix, suffix)
      {
        ReadWritten(s, v, prefix + EncodeValue(s, v) + suffix, |prefix|);
      }
    } else if MessageReadsBack(s, v, [], []) {
      var e: seq<Byte> := [];
      ReadIsNulFree(s, e + EncodeValue(s, v) + e, |e|);
    }
  }

  lemma {:induction false} ReadConforms(s: Schema, b: seq<Byte>, at: nat)
    requires ReadValue(s, b, at).Some?
    ensures Conforms(s, ReadValue(s, b, at).value.value)
    decreases s, 1
  {
    match s
    case Leaf(name, kind) => LeafConforms(name, kind, b, at);
    case Record(_, fields) => ReadFieldsConform(fields, b, at);
    case Absent =>
  }

  lemma LeafConforms(name: seq<Byte>, kind: Kind, b: seq<Byte>, at: nat)
    requires ReadValue(Leaf(name, kind), b, at).Some?
    ensures Conforms(Leaf(name, kind), ReadValue(Leaf(name, kind), b, at).value.value)
  {
    FourByteRange();
    NumberBound(b, at, Width(kind));
    hide GetString, GetNumber, Pow256;
  }

  lemma NumberBound(b: seq<Byte>, at: nat, width: nat)
    ensures GetNumber(b, at, width).value < Pow256(width)
  {
    if at + width <= |b| { FromLittleEndianBound(b[at..at + width]); }
  }

  lemma {:induction false} ReadFieldsConform(fields: seq<Schema>, b: seq<Byte>, at: nat)
    requires ReadValues(fields, b, at).Some?
    ensures var values := ReadValues(fields, b, at).value.value;
            forall i | 0 <= i < |fields| :: Conforms(fields[i], values[i])
    decreases fields, 0
  {
    if fields == [] {
    } else {
      ReadConforms(fields[0], b, at);
      ReadFieldsConform(fields[1..], b, ReadValue(fields[0], b, at).value.to);
    }
  }
}
