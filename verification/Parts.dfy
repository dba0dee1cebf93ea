/**
 * Part objects: trees on the heap, each node owning its value, written to and read from packets.
 */
module Parts {
  import opened Bytes
  import opened Codec
  import CodecTheory
  import opened PacketIO

  // Nodes of the trees below ps.
  ghost function Nodes(ps: seq<Part?>): set<Part> {
    set i, q | 0 <= i < |ps| && ps[i] != null && q in ps[i].Repr :: q
  }

  lemma RecordRead(s: Schema, b: seq<Byte>, at: nat)
    requires s.Record? && ReadValue(s, b, at).Some?
    ensures ReadValues(s.fields, b, at).Some?
    ensures var r := ReadValues(s.fields, b, at).value;
            ReadValue(s, b, at) == Some(Parsed(Fields(r.value), r.to))
  {
  }

  lemma NothingRead(b: seq<Byte>, at: nat)
    ensures ReadValues([], b, at) == Some(Parsed([], at))
  {
  }

  lemma FirstRead(fields: seq<Schema>, b: seq<Byte>, at: nat)
    requires fields != [] && ReadValues(fields, b, at).Some?
    ensures fields[0] != Absent && ReadValue(fields[0], b, at).Some?
    ensures var all, first := ReadValues(fields, b, at).value, ReadValue(fields[0], b, at).value;
            && all.value[0] == first.value
            && ReadValues(fields[1..], b, first.to) == Some(Parsed(all.value[1..], all.to))
  {
  }

  lemma HeaderThenFields(w: seq<Byte>, name: seq<Byte>, n: nat, rest: seq<Byte>)
    ensures w + [RECORD] + EncodeString(name) + LittleEndian(n, SIZE_WIDTH) + rest == w + (EncodeHeader(name, n) + rest)
  {
  }

  lemma FirstSchemaWritten(w: seq<Byte>, fields: seq<Schema>)
    requires fields != []
    ensures w + EncodeSchemas(fields) == w + EncodeSchema(fields[0]) + EncodeSchemas(fields[1..])
  {
  }

  lemma FirstValueWritten(w: seq<Byte>, fields: seq<Schema>, values: seq<Value>)
    requires fields != [] && values != []
    ensures w + EncodeValues(fields, values)
         == w + EncodeValue(fields[0], values[0]) + EncodeValues(fields[1..], values[1..])
  {
  }

  lemma NothingWritten(w: seq<Byte>, values: seq<Value>)
    ensures w + EncodeSchemas([]) == w && w + EncodeValues([], values) == w
  {
  }

  lemma NoNodes()
    ensures Nodes([]) == {}
  {
  }

  class Part {
    const name: seq<Byte>
    // The subclass: None for Record.
    const kind: Option<Kind>
    const fields: seq<Part?>
    // The value field of a number or boolean, as its bits, and of a string.
    var bits: nat
    var chars: seq<Byte>

    ghost const schema: Schema
    ghost const Repr: set<Part>

    // The object is a tree of the stated schema: no node is reached twice.
    ghost predicate Shaped()
      decreases schema, 0
    {
      && this in Repr
      && match schema
         case Leaf(n, k) => name == n && kind == Some(k) && fields == [] && Repr == {this}
         case Record(n, fs) =>
           && name == n && kind == None && |fields| == |fs|
           && (forall i | 0 <= i < |fs| :: FieldShaped(fs[i], fields[i]))
           && (forall i, j | 0 <= i < j < |fs| && fields[i] != null && fields[j] != null ::
                 fields[i].Repr !! fields[j].Repr)
         case Absent => false
    }

    ghost predicate FieldShaped(s: Schema, p: Part?)
      decreases s, 1
    {
      if p == null then s == Absent
      else p.schema == s && p.Repr <= Repr - {this} && p.Shaped()
    }

    // The value tree held at the moment.
    ghost function Data(): Value
      requires Shaped()
      reads Repr
      decreases schema, 0
    {
      match schema
      case Leaf(_, k) => if k == String then Text(chars) else Number(bits)
      case Record(_, fs) => Fields(seq(|fs|, i requires 0 <= i < |fs| reads Repr => FieldData(fs[i], fields[i])))
    }

    ghost function FieldData(s: Schema, p: Part?): Value
      requires FieldShaped(s, p)
      reads if p == null then {} else p.Repr
      decreases s, 1
    {
      if p == null then Number(0) else p.Data()
    }

    constructor Plain(name: seq<Byte>, kind: Kind)
      ensures Shaped() && fresh(Repr) && schema == Leaf(name, kind)
      // A Boolean's value is left uninitialised.
      ensures kind != Boolean ==> Data() == if kind == String then Text([]) else Number(0)
    {
      this.name, this.kind, this.fields := name, Some(kind), [];
      bits, chars := 0, [];
      schema, Repr := Leaf(name, kind), {this};
    }

    // A record over parts that share no node.
    constructor Record(name: seq<Byte>, parts: seq<Part?>, ghost schemas: seq<Schema>)
      requires DecodedParts(parts, schemas)
      ensures Shaped() && schema == Schema.Record(name, schemas) && Repr == {this} + Nodes(parts)
    {
      this.name, this.kind, this.fields := name, None, parts;
      bits, chars := 0, [];
      schema, Repr := Schema.Record(name, schemas), {this} + Nodes(parts);
    }

    method WriteSchema(w: PacketWriter)
      requires Shaped() && Complete(schema)
      modifies w
      ensures w.sofar == old(w.sofar) + EncodeSchema(schema)
      decreases schema
    {
      match kind {
        case Some(k) =>
          w.WriteByte(Code(k));
          w.WriteString(name);
        case None =>
          WriteRecordSchema(w);
      }
    }

    // Record::write_schema
    method WriteRecordSchema(w: PacketWriter)
      requires Shaped() && schema.Record? && Complete(schema)
      modifies w
      ensures w.sofar == old(w.sofar) + EncodeSchema(schema)
      decreases schema, 0
    {
      ghost var fs, target := schema.fields, w.sofar + EncodeSchema(schema);
      w.WriteByte(RECORD);
      w.WriteString(name);
      w.WriteNumber(|fields|, SIZE_WIDTH);
      var i := 0;
      assert fs[0..] == fs;
      HeaderThenFields(old(w.sofar), name, |fields|, EncodeSchemas(fs));
      hide EncodeSchemas, EncodeSchema, EncodeString, LittleEndian;
      while i < |fields|
        invariant 0 <= i <= |fields|
        invariant w.sofar + EncodeSchemas(fs[i..]) == target
      {
        assert FieldShaped(fs[i], fields[i]);
        FirstSchemaWritten(w.sofar, fs[i..]);
        assert fs[i..][1..] == fs[i + 1..];
        fields[i].WriteSchema(w);
        i := i + 1;
      }
      NothingWritten(w.sofar, []);
    }

    method WriteMessage(w: PacketWriter)
      requires Shaped() && Complete(schema)
      modifies w
      ensures w.sofar == old(w.sofar) + EncodeValue(schema, Data())
      decreases schema
    {
      match kind {
        case Some(k) =>
          if k == String {
            w.WriteString(chars);
          } else {
            w.WriteNumber(bits, Width(k));
          }
        case None =>
          WriteRecordMessage(w);
      }
    }

    // Record::write_message
    method WriteRecordMessage(w: PacketWriter)
      requires Shaped() && schema.Record? && Complete(schema)
      modifies w
      ensures w.sofar == old(w.sofar) + EncodeValue(schema, Data())
      decreases schema, 0
    {
      ghost var fs, vs := schema.fields, Data().values;
      ghost var target := w.sofar + EncodeValues(fs, vs);
      var i := 0;
      assert fs[0..] == fs && vs[0..] == vs;
      assert EncodeValue(schema, Data()) == EncodeValues(fs, vs);
      hide EncodeValues, EncodeValue;
      while i < |fields|
        invariant 0 <= i <= |fields|
        invariant Data() == Fields(vs)
        invariant w.sofar + EncodeValues(fs[i..], vs[i..]) == target
      {
        assert FieldShaped(fs[i], fields[i]);
        FirstValueWritten(w.sofar, fs[i..], vs[i..]);
        assert fs[i..][1..] == fs[i + 1..] && vs[i..][1..] == vs[i + 1..];
        fields[i].WriteMessage(w);
        i := i + 1;
      }
      NothingWritten(w.sofar, vs[i..]);
    }

    // Overwrites the values of the tree, and nothing else, with what stands at the read head.
    method ReadDataFromMessage(r: PacketReader)
      requires Shaped() && ReadValue(schema, r.pac, r.readHead).Some?
      modifies r`readHead, Repr
      ensures ReadValue(schema, r.pac, old(r.readHead)) == Some(Parsed(Data(), r.readHead))
      decreases schema
    {
      match kind {
        case Some(String) =>
          chars := r.GetString();
        case Some(Boolean) =>
          bits := r.GetByte();
        case Some(k) =>
          bits := r.GetNumber(Width(k));
        case None =>
          ReadFields(r);
      }
    }

    // Record::read_data_from_message: the loop over the fields.
    method ReadFields(r: PacketReader)
      requires Shaped() && schema.Record? && ReadValue(schema, r.pac, r.readHead).Some?
      modifies r`readHead, Repr
      ensures ReadValue(schema, r.pac, old(r.readHead)) == Some(Parsed(Data(), r.readHead))
      decreases schema, 0
    {
      hide ReadValue, ReadValues;
      ghost var fs := schema.fields;
      RecordRead(schema, r.pac, r.readHead);
      ghost var Parsed(values, to) := ReadValues(fs, r.pac, r.readHead).value;
      assert fs[0..] == fs && values[0..] == values;
      var i := 0;
      while i < |fields|
        invariant 0 <= i <= |fields|
        invariant ReadValues(fs[i..], r.pac, r.readHead) == Some(Parsed(values[i..], to))
        invariant forall j | 0 <= j < i :: FieldData(fs[j], fields[j]) == values[j]
      {
        assert FieldShaped(fs[i], fields[i]);
        assert fs[i..][1..] == fs[i + 1..] && values[i..][1..] == values[i + 1..];
        FirstRead(fs[i..], r.pac, r.readHead);
        var f := fields[i];
        label Before:
        f.ReadDataFromMessage(r);
        forall j | 0 <= j < i
          ensures FieldData(fs[j], fields[j]) == values[j]
        {
          assert FieldShaped(fs[j], fields[j]);
          assert fields[j] != null ==> fields[j].Repr !! f.Repr;
          assert old@Before(FieldData(fs[j], fields[j])) == values[j];
        }
        i := i + 1;
      }
      NothingRead(r.pac, r.readHead);
      assert Data() == Fields(values);
    }

    // Record's constructor from a reader: the field count, then one decoder per field.
    constructor FromReader(name: seq<Byte>, r: PacketReader)
      requires r.readHead <= |r.pac|
      requires var size := Codec.GetNumber(r.pac, r.readHead, SIZE_WIDTH);
               ParseSchemas(r.pac, size.to, size.value).Some?
      modifies r`readHead
      ensures Shaped() && fresh(Repr) && schema.Record? && schema.name == name
      ensures var size := Codec.GetNumber(r.pac, old(r.readHead), SIZE_WIDTH);
              ParseSchemas(r.pac, size.to, size.value) == Some(Parsed(schema.fields, r.readHead))
      decreases |r.pac| - r.readHead, 0
    {
      hide ParseSchema, ParseSchemas, FromLittleEndian;
      var size := r.GetNumber(SIZE_WIDTH);
      var parts: seq<Part?> := [];
      ghost var Parsed(schemas, to) := ParseSchemas(r.pac, r.readHead, size).value;
      assert schemas[0..] == schemas;
      var i := 0;
      NoNodes();
      while i < size
        invariant 0 <= i <= size && |parts| == i
        invariant old(r.readHead) <= r.readHead <= |r.pac| && (i < size ==> old(r.readHead) < r.readHead)
        invariant ParseSchemas(r.pac, r.readHead, size - i) == Some(Parsed(schemas[i..], to))
        invariant DecodedParts(parts, schemas[..i]) && fresh(Nodes(parts))
      {
        hide DecodedParts;
        CodecTheory.FirstOfFields(r.pac, r.readHead, size - i);
        assert schemas[i..][0] == schemas[i] && schemas[i..][1..] == schemas[i + 1..];
        assert schemas[..i + 1] == schemas[..i] + [schemas[i]];
        var part := MakeDecoder(r);
        MoreParts(parts, schemas[..i], part, schemas[i]);
        parts := parts + [part];
        i := i + 1;
      }
      CodecTheory.NoFields(r.pac, r.readHead);
      assert schemas[..i] == schemas;
      this.name, this.kind, this.fields := name, None, parts;
      bits, chars := 0, [];
      schema, Repr := Schema.Record(name, schemas), {this} + Nodes(parts);
    }

    static method MakeDecoder(r: PacketReader) returns (p: Part?)
      requires ParseSchema(r.pac, r.readHead).Some?
      modifies r`readHead
      ensures ParseSchema(r.pac, old(r.readHead)) == Some(Parsed(if p == null then Absent else p.schema, r.readHead))
      ensures p != null ==> p.Shaped() && fresh(p.Repr)
      decreases |r.pac| - r.readHead, 1
    {
      var t := r.GetByte();
      var name := r.GetString();
      if t == RECORD {
        p := new Part.FromReader(name, r);
      } else if KindOf(t).Some? {
        p := new Part.Plain(name, KindOf(t).value);
      } else {
        p := null;
      }
    }
  }

  // Parts of the given schemas that share no node.
  ghost predicate DecodedParts(ps: seq<Part?>, ss: seq<Schema>) {
    && |ps| == |ss|
    && (forall i | 0 <= i < |ps| :: if ps[i] == null then ss[i] == Absent else ps[i].schema == ss[i] && ps[i].Shaped())
    && (forall i, j | 0 <= i < j < |ps| && ps[i] != null && ps[j] != null :: ps[i].Repr !! ps[j].Repr)
  }

  lemma MoreParts(ps: seq<Part?>, ss: seq<Schema>, p: Part?, s: Schema)
    requires DecodedParts(ps, ss)
    requires if p == null then s == Absent else p.schema == s && p.Shaped() && p.Repr !! Nodes(ps)
    ensures DecodedParts(ps + [p], ss + [s])
    ensures Nodes(ps + [p]) == Nodes(ps) + if p == null then {} else p.Repr
  {
    var all := ps + [p];
    forall i, j | 0 <= i < j < |all| && all[i] != null && all[j] != null
      ensures all[i].Repr !! all[j].Repr
    {
      if j == |ps| {
        assert forall q | q in ps[i].Repr :: q in Nodes(ps);
      }
    }
    forall q | q in Nodes(ps) + (if p == null then {} else p.Repr)
      ensures q in Nodes(all)
    {
      if q in Nodes(ps) {
        var i :| 0 <= i < |ps| && ps[i] != null && q in ps[i].Repr;
        assert all[i] == ps[i];
      } else {
        assert all[|ps|] == p;
      }
    }
    assert forall i | 0 <= i < |ps| :: all[i] == ps[i];
  }
}
