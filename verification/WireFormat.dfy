/**
 * The bytes on the wire, written out: what two ends must agree on that do not share this code.
 */
module WireFormat {
  import opened Bytes
  import opened Words
  import opened Integrity
  import opened Codec
  import opened CodecTheory
  import opened Protocol

  // ----- numbers

  // Byte i of a number's image is its i-th base-256 digit: the least significant comes first.
  lemma {:induction false} LittleEndianAt(n: nat, k: nat, i: nat)
    requires i < k
    ensures LittleEndian(n, k)[i] == n / Pow256(i) % 256
    decreases i
  {
    if i == 0 {
    } else {
      LittleEndianAt(n / 256, k - 1, i - 1);
      DigitShifts(n, i);
    }
  }

  lemma DigitShifts(n: nat, i: nat)
    requires i > 0
    ensures n / 256 / Pow256(i - 1) == n / Pow256(i)
  {
    DivideTwice(n, 256, Pow256(i - 1));
  }

  lemma DivideTwice(n: nat, a: nat, b: nat)
    requires a > 0 && b > 0
    ensures a * b > 0 && n / a / b == n / (a * b)
  {
    NestedParts(n, a, b, n / a, n / a / b, n % a, n / a % b);
  }

  lemma NestedParts(n: nat, a: nat, b: nat, x: nat, q: nat, r: nat, s: nat)
    requires r < a && s < b && n == a * x + r && x == b * q + s
    ensures a * b > 0 && n / (a * b) == q
  {
    Distribute(a, b, q, s);
    SmallRest(a, b, r, s);
    QuotientIs(n, a * b, q, a * s + r);
  }

  lemma Distribute(a: nat, b: nat, q: nat, s: nat)
    ensures a * (b * q + s) == (a * b) * q + a * s
  {
  }

  lemma SmallRest(a: nat, b: nat, r: nat, s: nat)
    requires r < a && s < b
    ensures a * b > 0 && a * s + r < a * b
  {
    assert a * s <= a * (b - 1);
  }

  lemma QuotientIs(n: nat, d: nat, q: nat, r: nat)
    requires d > 0 && r < d && n == d * q + r
    ensures n / d == q
  {
    var k := n / d - q;
    assert d * k == d * (n / d) - d * q == r - n % d;
    if k != 0 {
      MultipleIsBig(d, k);
    }
  }

  lemma MultipleIsBig(d: int, k: int)
    requires d > 0 && k != 0
    ensures d * k >= d || d * k <= -d
  {
  }

  lemma Powers()
    ensures Pow256(1) == 0x100 && Pow256(2) == 0x1_0000 && Pow256(3) == 0x100_0000 && Pow256(4) == 0x1_0000_0000
    ensures Pow256(8) == 0x1_0000_0000_0000_0000
  {
    assert Pow256(5) == 0x100_0000_0000 && Pow256(6) == 0x1_0000_0000_0000 && Pow256(7) == 0x100_0000_0000_0000;
  }

  // The value is within the kind's range and its image is `size` bytes, least significant first.
  predicate Image(name: seq<Byte>, k: Kind, bits: nat, size: nat) {
    var s, enc := Leaf(name, k), EncodeValue(Leaf(name, k), Number(bits));
    && Conforms(s, Number(bits)) && |enc| == size
    && forall i | 0 <= i < size :: enc[i] == bits / Pow256(i) % 256
  }

  lemma ImageOf(name: seq<Byte>, k: Kind, bits: nat)
    requires k != String && bits < Pow256(Width(k))
    ensures Image(name, k, bits, Width(k))
  {
    forall i | 0 <= i < Width(k)
      ensures LittleEndian(bits, Width(k))[i] == bits / Pow256(i) % 256
    {
      LittleEndianAt(bits, Width(k), i);
    }
    hide LittleEndian, Pow256;
  }

  // Every number kind by the number of bytes it takes, for every value of that many bytes.
  lemma NumberSizes(name: seq<Byte>, bits: nat)
    ensures bits < 0x1_0000_0000_0000_0000 ==>
              Image(name, Double, bits, 8) && Image(name, Uint64, bits, 8) && Image(name, Int64, bits, 8)
    ensures bits < 0x1_0000_0000 ==>
              Image(name, Float, bits, 4) && Image(name, Uint32, bits, 4) && Image(name, Int32, bits, 4)
    ensures bits < 0x1_0000 ==> Image(name, Uint16, bits, 2) && Image(name, Int16, bits, 2)
    ensures bits < 0x100 ==>
              Image(name, Boolean, bits, 1) && Image(name, Uint8, bits, 1) && Image(name, Int8, bits, 1)
  {
    Powers();
    hide Image, Pow256;
    if bits < 0x1_0000_0000_0000_0000 {
      ImageOf(name, Double, bits); ImageOf(name, Uint64, bits); ImageOf(name, Int64, bits);
    }
    if bits < 0x1_0000_0000 {
      ImageOf(name, Float, bits); ImageOf(name, Uint32, bits); ImageOf(name, Int32, bits);
    }
    if bits < 0x1_0000 {
      ImageOf(name, Uint16, bits); ImageOf(name, Int16, bits);
    }
    if bits < 0x100 {
      ImageOf(name, Boolean, bits); ImageOf(name, Uint8, bits); ImageOf(name, Int8, bits);
    }
  }

  // What reading a number of this kind takes from b: `size` bytes, or nothing and 0 when they are not
  // all there.
  predicate ReadsNumber(name: seq<Byte>, k: Kind, b: seq<Byte>, at: nat, size: nat) {
    ReadValue(Leaf(name, k), b, at) ==
    Some(if at + size <= |b| then Parsed(Number(FromLittleEndian(b[at..at + size])), at + size)
         else Parsed(Number(0), at))
  }

  lemma ReadsByWidth(name: seq<Byte>, k: Kind, b: seq<Byte>, at: nat)
    requires k != String && k != Boolean
    ensures ReadsNumber(name, k, b, at, Width(k))
  {
    hide FromLittleEndian;
  }

  lemma NumberReads(name: seq<Byte>, b: seq<Byte>, at: nat)
    ensures ReadsNumber(name, Double, b, at, 8) && ReadsNumber(name, Uint64, b, at, 8)
    ensures ReadsNumber(name, Int64, b, at, 8)
    ensures ReadsNumber(name, Float, b, at, 4) && ReadsNumber(name, Uint32, b, at, 4)
    ensures ReadsNumber(name, Int32, b, at, 4)
    ensures ReadsNumber(name, Uint16, b, at, 2) && ReadsNumber(name, Int16, b, at, 2)
    ensures ReadsNumber(name, Uint8, b, at, 1) && ReadsNumber(name, Int8, b, at, 1)
    ensures at < |b| ==> ReadValue(Leaf(name, Boolean), b, at) == Some(Parsed(Number(b[at]), at + 1))
  {
    hide ReadsNumber;
    ReadsByWidth(name, Double, b, at); ReadsByWidth(name, Uint64, b, at); ReadsByWidth(name, Int64, b, at);
    ReadsByWidth(name, Float, b, at); ReadsByWidth(name, Uint32, b, at); ReadsByWidth(name, Int32, b, at);
    ReadsByWidth(name, Uint16, b, at); ReadsByWidth(name, Int16, b, at);
    ReadsByWidth(name, Uint8, b, at); ReadsByWidth(name, Int8, b, at);
  }

  // ----- strings and schemas

  // A leaf of the schema is its type byte, its name and a zero, and is read from that.
  predicate LeafWire(name: seq<Byte>, s: Schema, code: Byte, suffix: seq<Byte>) {
    && EncodeSchema(s) == [code] + (name + [0])
    && (NulFree(name) ==> ParseSchema([code] + (name + [0]) + suffix, 0) == Some(Parsed(s, |name| + 2)))
  }

  lemma LeafWireFrom(name: seq<Byte>, k: Kind, code: Byte, suffix: seq<Byte>)
    requires Code(k) == code
    ensures LeafWire(name, Leaf(name, k), code, suffix)
  {
    hide ParseSchema, Code, NulFree;
    if NulFree(name) {
      ParseWritten(Leaf(name, k), [code] + (name + [0]) + suffix, 0);
    }
  }

  // The twelve type bytes.
  lemma TypeBytes(name: seq<Byte>, suffix: seq<Byte>)
    ensures LeafWire(name, Leaf(name, String), 1, suffix)
    ensures LeafWire(name, Leaf(name, Double), 2, suffix)
    ensures LeafWire(name, Leaf(name, Float), 3, suffix)
    ensures LeafWire(name, Leaf(name, Boolean), 4, suffix)
    ensures LeafWire(name, Leaf(name, Uint8), 5, suffix)
    ensures LeafWire(name, Leaf(name, Uint16), 6, suffix)
    ensures LeafWire(name, Leaf(name, Uint32), 7, suffix)
    ensures LeafWire(name, Leaf(name, Uint64), 8, suffix)
    ensures LeafWire(name, Leaf(name, Int8), 9, suffix)
    ensures LeafWire(name, Leaf(name, Int16), 10, suffix)
    ensures LeafWire(name, Leaf(name, Int32), 11, suffix)
    ensures LeafWire(name, Leaf(name, Int64), 12, suffix)
  {
    hide LeafWire;
    LeafWireFrom(name, String, 1, suffix);
    LeafWireFrom(name, Double, 2, suffix);
    LeafWireFrom(name, Float, 3, suffix);
    LeafWireFrom(name, Boolean, 4, suffix);
    LeafWireFrom(name, Uint8, 5, suffix);
    LeafWireFrom(name, Uint16, 6, suffix);
    LeafWireFrom(name, Uint32, 7, suffix);
    LeafWireFrom(name, Uint64, 8, suffix);
    LeafWireFrom(name, Int8, 9, suffix);
    LeafWireFrom(name, Int16, 10, suffix);
    LeafWireFrom(name, Int32, 11, suffix);
    LeafWireFrom(name, Int64, 12, suffix);
  }

  // A record is a zero, its name and a zero, its field count in four bytes, and its fields.
  lemma RecordBytes(name: seq<Byte>, fields: seq<Schema>)
    ensures var n := |fields|;
            EncodeSchema(Record(name, fields)) ==
            [0] + (name + [0] + [n % 256, n / 0x100 % 256, n / 0x1_0000 % 256, n / 0x100_0000 % 256]) +
            EncodeSchemas(fields)
  {
    var n := |fields|;
    Powers();
    LittleEndianAt(n, 4, 0); LittleEndianAt(n, 4, 1); LittleEndianAt(n, 4, 2); LittleEndianAt(n, 4, 3);
    hide LittleEndian, EncodeSchemas, Pow256;
    assert LittleEndian(n, 4) == [n % 256, n / 0x100 % 256, n / 0x1_0000 % 256, n / 0x100_0000 % 256];
  }

  // Fields follow each other in their order, with nothing before, between or after them.
  lemma {:induction false} SchemasAppend(a: seq<Schema>, b: seq<Schema>)
    ensures EncodeSchemas(a + b) == EncodeSchemas(a) + EncodeSchemas(b)
  {
    hide EncodeSchema;
    if a == [] {
      assert a + b == b;
    } else {
      assert (a + b)[1..] == a[1..] + b;
      SchemasAppend(a[1..], b);
    }
  }

  lemma {:induction false} ValuesAppend(a: seq<Schema>, v: seq<Value>, b: seq<Schema>, w: seq<Value>)
    requires |a| == |v| && |b| == |w|
    ensures EncodeValues(a + b, v + w) == EncodeValues(a, v) + EncodeValues(b, w)
    decreases |a|
  {
    hide EncodeValue;
    if a == [] {
      assert a + b == b && v + w == w;
    } else {
      assert (a + b)[1..] == a[1..] + b && (v + w)[1..] == v[1..] + w;
      ValuesAppend(a[1..], v[1..], b, w);
    }
  }

  lemma OneField(s: Schema, v: Value)
    ensures EncodeSchemas([s]) == EncodeSchema(s) && EncodeValues([s], [v]) == EncodeValue(s, v)
  {
    hide EncodeSchema, EncodeValue;
    assert [s][1..] == [] && [v][1..] == [];
  }

  lemma RecordValue(name: seq<Byte>, fields: seq<Schema>, values: seq<Value>)
    ensures EncodeValue(Record(name, fields), Fields(values)) == EncodeValues(fields, values)
  {
    hide EncodeValues;
  }

  // The record of these two fields, as schema and as values.
  lemma TwoFields(name: seq<Byte>, s: Schema, t: Schema, v: Value, w: Value)
    ensures EncodeSchema(Record(name, [s, t])) ==
            [0] + (name + [0] + [2, 0, 0, 0]) + (EncodeSchema(s) + EncodeSchema(t))
    ensures EncodeValue(Record(name, [s, t]), Fields([v, w])) == EncodeValue(s, v) + EncodeValue(t, w)
  {
    hide EncodeSchema, EncodeSchemas, EncodeValue, EncodeValues;
    var fields, values := [s] + [t], [v] + [w];
    RecordBytes(name, fields);
    RecordValue(name, fields, values);
    OneField(s, v);
    OneField(t, w);
    SchemasAppend([s], [t]);
    ValuesAppend([s], [v], [t], [w]);
    assert [s, t] == fields && [v, w] == values;
  }

  lemma TextBytes(name: seq<Byte>, chars: seq<Byte>)
    ensures EncodeValue(Leaf(name, String), Text(chars)) == chars + [0]
  {
  }

  // A type byte that names no type gives no part, after the name has been read.
  lemma UnknownTypes(code: Byte, name: seq<Byte>, suffix: seq<Byte>)
    requires code > 12 && NulFree(name)
    ensures ParseSchema([code] + (name + [0]) + suffix, 0) == Some(Parsed(Absent, |name| + 2))
  {
    var b := [code] + (name + [0]) + suffix;
    assert b[1..|name| + 2] == EncodeString(name);
    GetStringWritten(b, 1, name);
    hide GetString;
  }

  // ----- headers

  // Bit 7 is the type; bits 6 and 5 are the function; the rest is not looked at.
  lemma HeaderBits(hb: Byte)
    ensures var bits, h := ByteBits(hb, 8), DecodeHeaderByte(hb);
            && (h.ptype == PacketType.Data <==> bits[7])
            && (h.func == Send <==> !bits[6] && !bits[5])
            && (h.func == Acknowledge <==> !bits[6] && bits[5])
            && (h.func == Response <==> bits[6] && !bits[5])
            && (h.func == Request <==> bits[6] && bits[5])
  {
    hide ByteBits, Pow2;
    BitAt(hb, 8, 5);
    BitAt(hb, 8, 6);
    BitAt(hb, 8, 7);
    BitWeights();
    TwoBits(hb / 0x20);
    assert hb / 0x20 / 2 == hb / 0x40;
  }

  lemma BitWeights()
    ensures Pow2(5) == 32 && Pow2(6) == 64 && Pow2(7) == 128
  {
  }

  lemma TwoBits(n: nat)
    ensures n % 4 == 2 * (n / 2 % 2) + n % 2
  {
  }

  lemma {:induction false} BitAt(n: nat, k: nat, i: nat)
    requires i < k
    ensures ByteBits(n, k)[i] <==> n / Pow2(i) % 2 == 1
    decreases i
  {
    if i == 0 {
    } else {
      BitAt(n / 2, k - 1, i - 1);
      DivideTwice(n, 2, Pow2(i - 1));
    }
  }

  // The header codes, by number.
  lemma HeaderCodes(hb: Byte)
    ensures DecodeHeaderByte(hb) == BROADCAST <==> hb / 0x20 == 0
    ensures DecodeHeaderByte(hb) == DATA <==> hb / 0x20 == 4
    ensures DecodeHeaderByte(hb).func == Request <==> hb / 0x20 % 4 == 3
    ensures DecodeHeaderByte(hb).func == Send <==> hb / 0x20 % 4 == 0
  {
    var h := DecodeHeaderByte(hb);
    assert h == PacketHeader(h.ptype, h.func);
    OtherFunction(BROADCAST.(func := Request));
  }

  // How each kind of packet begins.
  predicate Opens(p: Packet, head: seq<Byte>, payload: seq<Byte>) {
    p == Seal(head + payload)
  }

  lemma AcknowledgeOpens(id: Byte)
    ensures Opens(AcknowledgePacket(id), [0x20, id], [])
  {
    hide Seal;
    assert [0x20, id] + [] == [0x20, id];
  }

  lemma BroadcastOpens(id: Byte, s: Schema)
    ensures Opens(BroadcastPacket(id, s), [0x00, id], EncodeSchema(s))
  {
    hide Seal, EncodeSchema;
  }

  lemma DataOpens(id: Byte, s: Schema, v: Value)
    ensures Opens(DataPacket(id, s, v), [0x80, id], EncodeValue(s, v))
  {
    hide Seal, EncodeValue;
  }

  lemma ResponseOpens(count: nat, id: Byte, s: Schema, v: Value)
    ensures Opens(ResponsePacket(count, id, s, v), [0xC0, count % 256, id], EncodeValue(s, v))
  {
    hide Seal, EncodeValue;
  }

  lemma RequestOpens(head: seq<Byte>)
    requires head == [0x60]
    ensures Opens(RequestPacket(), head, [])
  {
    hide Seal;
    assert head + [] == [MakeHeaderByte(REQUEST)];
  }
}
