/**
 * The five kinds of packet and the writers that build them (protocol.cpp).
 */
module Protocol {
  import opened Bytes
  import opened Words
  import opened Crc
  import opened Integrity
  import opened Codec
  import opened CodecTheory
  import opened PacketIO
  import opened Parts

  datatype PacketType = Broadcast | Data

  datatype PacketFunction = Send | Acknowledge | Response | Request

  datatype PacketHeader = PacketHeader(ptype: PacketType, func: PacketFunction)

  // The type's bit 7 and the function's bits 6 and 5, joined; the masks never overlap.
  function MakeHeaderByte(h: PacketHeader): Byte {
    (match h.ptype case Broadcast => 0x00 case Data => 0x80) +
    (match h.func case Send => 0x00 case Acknowledge => 0x20 case Response => 0x40 case Request => 0x60)
  }

  function DecodeHeaderByte(hb: Byte): PacketHeader {
    var func := hb / 0x20 % 4;
    PacketHeader(
      if hb / 0x80 == 0 then Broadcast else Data,
      if func == 0 then Send else if func == 1 then Acknowledge else if func == 2 then Response else Request)
  }

  lemma HeaderRoundTrip(h: PacketHeader)
    ensures DecodeHeaderByte(MakeHeaderByte(h)) == h
  {
  }

  const ACKNOWLEDGE := PacketHeader(Broadcast, Acknowledge)
  const BROADCAST := PacketHeader(Broadcast, Send)
  const DATA := PacketHeader(Data, Send)
  const REQUEST := PacketHeader(Broadcast, Request)
  const RESPONSE := PacketHeader(Data, Response)

  lemma OtherFunction(header: PacketHeader)
    requires header != BROADCAST && header != DATA
    ensures header.func != Send
  {
    match header {
      case PacketHeader(Broadcast, _) =>
      case PacketHeader(Data, _) =>
    }
  }

  // ----- the packets

  function AcknowledgePacket(id: Byte): Packet {
    Seal([MakeHeaderByte(ACKNOWLEDGE), id])
  }

  function BroadcastPacket(id: Byte, s: Schema): Packet {
    Seal([MakeHeaderByte(BROADCAST), id] + EncodeSchema(s))
  }

  function DataPacket(id: Byte, s: Schema, v: Value): Packet {
    Seal([MakeHeaderByte(DATA), id] + EncodeValue(s, v))
  }

  function RequestPacket(): Packet {
    Seal([MakeHeaderByte(REQUEST)])
  }

  // The count byte is the queue length before the pop, cut to eight bits.
  function ResponsePacket(count: nat, id: Byte, s: Schema, v: Value): Packet {
    Seal([MakeHeaderByte(RESPONSE), count % 256, id] + EncodeValue(s, v))
  }

  lemma CountCut(count: nat, id: Byte, s: Schema, v: Value)
    ensures ResponsePacket(count % 256, id, s, v) == ResponsePacket(count, id, s, v)
  {
    hide Seal, MakeHeaderByte, EncodeValue;
  }

  // The receiver accepts the packet and takes it for the kind given.
  predicate Passes(p: Packet, header: PacketHeader) {
    Validate(p) == Ok && |p| >= MIN_PACKET_SIZE && DecodeHeaderByte(p[0]) == header
  }

  lemma InThree(head: seq<Byte>, payload: seq<Byte>, rest: seq<Byte>)
    ensures var p := head + payload + rest;
            head <= p && Holds(p, |head|, payload) && (head != [] ==> p[0] == head[0])
  {
    var p := head + payload + rest;
    assert p[..|head|] == head;
    assert p[|head|..|head| + |payload|] == payload;
  }

  // A sealed body passes validation, keeps its first bytes, and holds its payload where the reader looks.
  lemma SealedPacket(header: PacketHeader, head: seq<Byte>, payload: seq<Byte>)
    requires head != [] && head[0] == MakeHeaderByte(header)
    ensures var p := Seal(head + payload);
            Passes(p, header) && head <= p && Holds(p, |head|, payload)
  {
    hide MakeHeaderByte, DecodeHeaderByte, Validate, WordBytes, Checksum;
    HeaderRoundTrip(header);
    SealValid(head + payload);
    InThree(head, payload, WordBytes(Checksum(head + payload)));
  }

  lemma BarePacket(header: PacketHeader, head: seq<Byte>)
    requires head != [] && head[0] == MakeHeaderByte(header)
    ensures Passes(Seal(head), header)
  {
    hide Passes, Seal;
    SealedPacket(header, head, []);
    assert head + [] == head;
  }

  // Whatever the writers write, the receiver accepts and sorts correctly.
  lemma WrittenPacketsPass(id: Byte, s: Schema, v: Value, count: nat)
    ensures Passes(AcknowledgePacket(id), ACKNOWLEDGE) && Passes(RequestPacket(), REQUEST)
    ensures Passes(BroadcastPacket(id, s), BROADCAST) && Passes(DataPacket(id, s, v), DATA)
    ensures Passes(ResponsePacket(count, id, s, v), RESPONSE)
  {
    hide Passes, Seal, EncodeSchema, EncodeValue, MakeHeaderByte, Holds;
    BarePacket(ACKNOWLEDGE, [MakeHeaderByte(ACKNOWLEDGE), id]);
    BarePacket(REQUEST, [MakeHeaderByte(REQUEST)]);
    SealedPacket(BROADCAST, [MakeHeaderByte(BROADCAST), id], EncodeSchema(s));
    SealedPacket(DATA, [MakeHeaderByte(DATA), id], EncodeValue(s, v));
    SealedPacket(RESPONSE, [MakeHeaderByte(RESPONSE), count % 256, id], EncodeValue(s, v));
  }

  lemma BroadcastReadsBack(id: Byte, s: Schema)
    requires Complete(s) && Tame(s)
    ensures var p := BroadcastPacket(id, s);
            && |p| >= MIN_PACKET_SIZE && p[1] == id
            && ParseSchema(p, 2) == Some(Parsed(s, 2 + |EncodeSchema(s)|))
  {
    hide ParseSchema, Seal, EncodeSchema, Holds, Validate, Complete, Tame, MakeHeaderByte, DecodeHeaderByte;
    SealedPacket(BROADCAST, [MakeHeaderByte(BROADCAST), id], EncodeSchema(s));
    ParseWritten(s, BroadcastPacket(id, s), 2);
  }

  lemma ResponseHolds(count: nat, id: Byte, s: Schema, v: Value)
    ensures var p := ResponsePacket(count, id, s, v);
            |p| >= MIN_PACKET_SIZE && p[1] == count % 256 && p[2] == id
  {
    hide EncodeValue, Checksum, WordBytes, MakeHeaderByte;
  }

  lemma DataHolds(id: Byte, s: Schema, v: Value)
    ensures |DataPacket(id, s, v)| >= MIN_PACKET_SIZE && DataPacket(id, s, v)[1] == id
  {
    hide EncodeValue, Checksum, WordBytes, MakeHeaderByte;
  }

  lemma DataReadsBack(id: Byte, s: Schema, v: Value)
    requires Conforms(s, v) && TextsNulFree(v)
    ensures var p := DataPacket(id, s, v);
            && |p| >= MIN_PACKET_SIZE && p[1] == id
            && ReadValue(s, p, 2) == Some(Parsed(v, 2 + |EncodeValue(s, v)|))
  {
    hide ReadValue, Seal, EncodeValue, Holds, Validate, Conforms, TextsNulFree, MakeHeaderByte, DecodeHeaderByte;
    SealedPacket(DATA, [MakeHeaderByte(DATA), id], EncodeValue(s, v));
    ReadWritten(s, v, DataPacket(id, s, v), 2);
  }

  // What the other side reads out of a response.
  lemma ResponseReadsBack(count: nat, id: Byte, s: Schema, v: Value)
    requires Conforms(s, v) && TextsNulFree(v)
    ensures var p := ResponsePacket(count, id, s, v);
            && |p| >= MIN_PACKET_SIZE && p[1] == count % 256 && p[2] == id
            && ReadValue(s, p, 3) == Some(Parsed(v, 3 + |EncodeValue(s, v)|))
  {
    hide ReadValue, Seal, EncodeValue, Holds, Validate, Conforms, TextsNulFree, MakeHeaderByte, DecodeHeaderByte;
    SealedPacket(RESPONSE, [MakeHeaderByte(RESPONSE), count % 256, id], EncodeValue(s, v));
    ReadWritten(s, v, ResponsePacket(count, id, s, v), 3);
  }

  // ----- the writers

  // A channel holds a reference to its part, as the shared pointer does.
  datatype Channel = Channel(data: Part?, id: Byte)

  ghost predicate Writable(c: Channel) {
    c.data != null && c.data.Shaped() && Complete(c.data.schema)
  }

  method WriteChecksum(w: PacketWriter)
    modifies w
    ensures w.sofar == Seal(old(w.sofar))
  {
    hide Checksum, WordBytes;
    var crc := Calculate(w.sofar);
    w.WriteBytes(WordBytes(crc));
  }

  method WriteChannelAcknowledge(w: PacketWriter, c: Channel)
    modifies w
    ensures w.sofar == AcknowledgePacket(c.id)
  {
    hide Seal, EncodeSchema, EncodeValue, MakeHeaderByte;
    w.Clear();
    w.WriteByte(MakeHeaderByte(ACKNOWLEDGE));
    w.WriteByte(c.id);
    assert w.sofar == [MakeHeaderByte(ACKNOWLEDGE), c.id];
    WriteChecksum(w);
  }

  method WriteChannelBroadcast(w: PacketWriter, c: Channel)
    requires Writable(c)
    modifies w
    ensures w.sofar == BroadcastPacket(c.id, c.data.schema)
  {
    hide Seal, EncodeSchema, EncodeValue, MakeHeaderByte;
    w.Clear();
    w.WriteByte(MakeHeaderByte(BROADCAST));
    w.WriteByte(c.id);
    assert w.sofar == [MakeHeaderByte(BROADCAST), c.id];
    c.data.WriteSchema(w);
    WriteChecksum(w);
  }

  method WriteDataMessage(w: PacketWriter, c: Channel)
    requires Writable(c)
    modifies w
    ensures w.sofar == DataPacket(c.id, c.data.schema, c.data.Data())
  {
    hide Seal, EncodeSchema, EncodeValue, MakeHeaderByte;
    w.Clear();
    w.WriteByte(MakeHeaderByte(DATA));
    w.WriteByte(c.id);
    assert w.sofar == [MakeHeaderByte(DATA), c.id];
    c.data.WriteMessage(w);
    WriteChecksum(w);
  }

  method WriteRequest(w: PacketWriter)
    modifies w
    ensures w.sofar == RequestPacket()
  {
    hide Seal, EncodeSchema, EncodeValue, MakeHeaderByte;
    w.Clear();
    w.WriteByte(MakeHeaderByte(REQUEST));
    assert w.sofar == [MakeHeaderByte(REQUEST)];
    WriteChecksum(w);
  }

  // Writes the response at the front and returns the queue without it.
  method WriteResponse(w: PacketWriter, queue: seq<Channel>) returns (rest: seq<Channel>)
    requires queue != [] && Writable(queue[0])
    modifies w
    ensures var c := queue[0];
            w.sofar == ResponsePacket(|queue|, c.id, c.data.schema, c.data.Data())
    ensures rest == queue[1..]
  {
    hide Seal, EncodeSchema, EncodeValue, MakeHeaderByte;
    w.Clear();
    w.WriteByte(MakeHeaderByte(RESPONSE));
    w.WriteByte(|queue| % 256);
    var front := queue[0];
    w.WriteByte(front.id);
    assert w.sofar == [MakeHeaderByte(RESPONSE), |queue| % 256, front.id];
    front.data.WriteMessage(w);
    rest := queue[1..];
    WriteChecksum(w);
  }

  method DecodeBroadcast(packet: Packet) returns (id: Byte, schema: Part?)
    requires |packet| >= MIN_PACKET_SIZE && ParseSchema(packet, 2).Some?
    ensures id == packet[1]
    ensures ParseSchema(packet, 2).value.value == if schema == null then Absent else schema.schema
    ensures schema != null ==> schema.Shaped() && fresh(schema.Repr)
  {
    assert packet[1..2] == [packet[1]] && [packet[1]][1..] == [];
    assert FromLittleEndian(packet[1..2]) == packet[1];
    hide ParseSchema;
    var reader := new PacketReader(packet, 0);
    var _ := reader.GetByte();
    id := reader.GetNumber(1);
    schema := Part.MakeDecoder(reader);
  }

  // A broadcast built from one tree and decoded at the other end yields a new tree of the same names
  // and types, whose nodes are shared with nothing.
  method CarrySchema(from: Channel) returns (id: Byte, copy: Part)
    requires Writable(from) && Tame(from.data.schema)
    ensures id == from.id && copy.schema == from.data.schema
    ensures copy.Shaped() && fresh(copy.Repr)
  {
    hide BroadcastPacket, ParseSchema, Tame, EncodeSchema;
    BroadcastReadsBack(from.id, from.data.schema);
    var w := new PacketWriter();
    WriteChannelBroadcast(w, from);
    var schema;
    id, schema := DecodeBroadcast(w.sofar);
    copy := schema;
  }

  // A data message written from one tree and read into another of the same schema leaves equal values
  // in both; the tree written from is not touched, and neither tree changes name, type or shape.
  method CarryValues(from: Channel, to: Part) returns (length: nat)
    requires Writable(from) && Conforms(from.data.schema, from.data.Data()) && TextsNulFree(from.data.Data())
    requires to.Shaped() && to.schema == from.data.schema && to.Repr !! from.data.Repr
    modifies to.Repr
    ensures to.Data() == from.data.Data() == old(from.data.Data())
    ensures length == |EncodeValue(to.schema, to.Data())|
  {
    hide DataPacket, ReadValue, Conforms, TextsNulFree, Complete, EncodeValue;
    ghost var s, v := from.data.schema, from.data.Data();
    DataReadsBack(from.id, s, v);
    var w := new PacketWriter();
    WriteDataMessage(w, from);
    var r := new PacketReader(w.sofar, 2);
    to.ReadDataFromMessage(r);
    length := r.readHead - 2;
  }
}
