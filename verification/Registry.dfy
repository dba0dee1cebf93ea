/**
 * RegistryListener: the table of remote channels, fed one packet at a time.
 */
module Registry {
  import opened Bytes
  import opened Integrity
  import opened Codec
  import opened PacketIO
  import opened Parts
  import opened Protocol

  datatype Entry = Entry(id: Byte, schema: Schema)

  // What one listener knows: the broadcasts it has taken, by position, and its two error counters.
  datatype Listener = Listener(table: seq<Entry>, bad: nat, small: nat)

  // A queued response as it reads at the moment.
  datatype Reply = Reply(id: Byte, schema: Schema, value: Value)

  // What a packet makes the listener do, in order.
  datatype Effect =
    | OnBroadcast(id: Byte, schema: Schema)
    | OnData(id: Byte, value: Value)
    | SendPacket(packet: Packet)

  datatype Outcome = Outcome(listener: Listener, effects: seq<Effect>, popped: bool)

  // The id has a schema to decode with; a null pointer in the table counts as none.
  predicate Known(table: seq<Entry>, id: Byte) {
    id < |table| && table[id].schema != Absent
  }

  // The packet's bytes do not send a reader past the end of the packet where it does not check.
  predicate Decodable(l: Listener, pac: Packet) {
    Validate(pac) == Ok ==>
      && (DecodeHeaderByte(pac[0]) == DATA && Known(l.table, pac[1]) ==>
            ReadValue(l.table[pac[1]].schema, pac, 2).Some?)
      && (DecodeHeaderByte(pac[0]) == BROADCAST ==> ParseSchema(pac, 2).Some?)
  }

  // take_packet, given the response queue it finds.
  function Take(l: Listener, replies: seq<Reply>, pac: Packet): Outcome
    requires Decodable(l, pac)
  {
    match Validate(pac)
    case BadChecksum => Outcome(l.(bad := l.bad + 1), [], false)
    case TooSmall => Outcome(l.(small := l.small + 1), [], false)
    case Ok =>
      var header := DecodeHeaderByte(pac[0]);
      if header == DATA then TakeData(l, pac)
      else if header == BROADCAST then TakeBroadcast(l, pac)
      else TakeOther(l, replies, header.func)
  }

  function TakeData(l: Listener, pac: Packet): (o: Outcome)
    requires |pac| >= MIN_PACKET_SIZE
    requires Known(l.table, pac[1]) ==> ReadValue(l.table[pac[1]].schema, pac, 2).Some?
    ensures o.listener == l && !o.popped
  {
    var id := pac[1];
    if !Known(l.table, id) then Outcome(l, [], false)
    else Outcome(l, [OnData(id, ReadValue(l.table[id].schema, pac, 2).value.value)], false)
  }

  function TakeBroadcast(l: Listener, pac: Packet): (o: Outcome)
    requires |pac| >= MIN_PACKET_SIZE && ParseSchema(pac, 2).Some?
    ensures l.table <= o.listener.table && !o.popped
  {
    var id, schema := pac[1], ParseSchema(pac, 2).value.value;
    if |l.table| < id then Outcome(l, [], false)
    else Outcome(l.(table := l.table + [Entry(id, schema)]),
                 [OnBroadcast(id, schema), SendPacket(AcknowledgePacket(id))], false)
  }

  lemma DecodableCases(l: Listener, pac: Packet)
    requires Decodable(l, pac) && Validate(pac) == Ok
    ensures |pac| >= MIN_PACKET_SIZE && Passes(pac, DecodeHeaderByte(pac[0]))
    ensures DecodeHeaderByte(pac[0]) == DATA && Known(l.table, pac[1]) ==>
              ReadValue(l.table[pac[1]].schema, pac, 2).Some?
    ensures DecodeHeaderByte(pac[0]) == BROADCAST ==> ParseSchema(pac, 2).Some?
  {
  }

  // take_packet's branches, one at a time.
  lemma TakesInvalid(l: Listener, replies: seq<Reply>, pac: Packet)
    requires Validate(pac) != Ok
    ensures Decodable(l, pac)
    ensures Take(l, replies, pac) == if Validate(pac) == BadChecksum then Outcome(l.(bad := l.bad + 1), [], false)
                                     else Outcome(l.(small := l.small + 1), [], false)
  {
    hide Validate;
  }

  lemma TakesBroadcast(l: Listener, replies: seq<Reply>, pac: Packet)
    requires Passes(pac, BROADCAST) && ParseSchema(pac, 2).Some?
    ensures Decodable(l, pac) && Take(l, replies, pac) == TakeBroadcast(l, pac)
  {
    hide Validate, DecodeHeaderByte, ParseSchema, ReadValue, TakeBroadcast, ResponsePacket;
  }

  lemma TakesData(l: Listener, replies: seq<Reply>, pac: Packet)
    requires Passes(pac, DATA)
    requires Known(l.table, pac[1]) ==> ReadValue(l.table[pac[1]].schema, pac, 2).Some?
    ensures Decodable(l, pac) && Take(l, replies, pac) == TakeData(l, pac)
  {
    hide Validate, DecodeHeaderByte, ParseSchema, ReadValue, TakeData, ResponsePacket;
  }

  // Anything else: only a request, and only with a reply waiting, has an effect.
  function TakeOther(l: Listener, replies: seq<Reply>, func: PacketFunction): Outcome {
    if func == Request && replies != [] then
      var r := replies[0];
      Outcome(l, [SendPacket(ResponsePacket(|replies|, r.id, r.schema, r.value))], true)
    else Outcome(l, [], false)
  }

  lemma TakesOther(l: Listener, replies: seq<Reply>, pac: Packet, func: PacketFunction)
    requires Validate(pac) == Ok && DecodeHeaderByte(pac[0]).func == func != Send
    ensures Decodable(l, pac) && Take(l, replies, pac) == TakeOther(l, replies, func)
  {
    hide Validate, DecodeHeaderByte, ParseSchema, ReadValue, ResponsePacket;
  }

  // ----- the object

  ghost function PartSchema(p: Part?): Schema {
    if p == null then Absent else p.schema
  }

  ghost function Table(channels: seq<Channel>): (table: seq<Entry>)
    ensures |table| == |channels|
  {
    seq(|channels|, i requires 0 <= i < |channels| => Entry(channels[i].id, PartSchema(channels[i].data)))
  }

  function Datas(channels: seq<Channel>): (ps: seq<Part?>)
    ensures |ps| == |channels|
  {
    seq(|channels|, i requires 0 <= i < |channels| => channels[i].data)
  }

  ghost function Schemas(channels: seq<Channel>): (ss: seq<Schema>)
    ensures |ss| == |channels|
  {
    seq(|channels|, i requires 0 <= i < |channels| => PartSchema(channels[i].data))
  }

  // Every channel has its own part tree, and no two trees share a node.
  ghost predicate ChannelsShaped(channels: seq<Channel>) {
    DecodedParts(Datas(channels), Schemas(channels))
  }

  lemma ChannelShaped(channels: seq<Channel>, i: nat)
    requires ChannelsShaped(channels) && i < |channels| && channels[i].data != null
    ensures channels[i].data.Shaped()
    ensures forall j | 0 <= j < |channels| && j != i && channels[j].data != null ::
              channels[j].data.Shaped() && channels[j].data.Repr !! channels[i].data.Repr
  {
    assert Datas(channels)[i] == channels[i].data;
    forall j | 0 <= j < |channels| && j != i && channels[j].data != null
      ensures channels[j].data.Shaped() && channels[j].data.Repr !! channels[i].data.Repr
    {
      assert Datas(channels)[j] == channels[j].data;
    }
  }

  ghost predicate QueueWritable(queue: seq<Channel>) {
    forall i | 0 <= i < |queue| :: Writable(queue[i])
  }

  ghost function ReplyOf(c: Channel): Reply
    requires Writable(c)
    reads if c.data == null then {} else c.data.Repr
  {
    Reply(c.id, c.data.schema, c.data.Data())
  }

  // The queue holds references: what a reply reads as follows its part until the pop.
  ghost function Replies(queue: seq<Channel>): (rs: seq<Reply>)
    requires QueueWritable(queue)
    reads Nodes(Datas(queue))
    ensures |rs| == |queue|
  {
    if queue == [] then []
    else
      FirstNodes(queue);
      [ReplyOf(queue[0])] + Replies(queue[1..])
  }

  lemma QueueAllocated(queue: seq<Channel>)
    requires QueueWritable(queue)
    ensures forall q | q in Nodes(Datas(queue)) :: allocated(q)
  {
  }

  lemma FirstReply(queue: seq<Channel>)
    requires QueueWritable(queue) && queue != []
    ensures Replies(queue)[0] == ReplyOf(queue[0])
  {
  }

  lemma FirstNodes(queue: seq<Channel>)
    requires queue != [] && Writable(queue[0])
    ensures queue[0].data.Repr <= Nodes(Datas(queue))
    ensures Nodes(Datas(queue[1..])) <= Nodes(Datas(queue))
  {
    forall q | q in queue[0].data.Repr
      ensures q in Nodes(Datas(queue))
    {
      assert Datas(queue)[0] == queue[0].data;
    }
    forall q | q in Nodes(Datas(queue[1..]))
      ensures q in Nodes(Datas(queue))
    {
      var i :| 0 <= i < |queue| - 1 && Datas(queue[1..])[i] != null && q in Datas(queue[1..])[i].Repr;
      assert Datas(queue)[i + 1] == Datas(queue[1..])[i];
    }
  }

  lemma NodesOf(channels: seq<Channel>, i: nat)
    requires i < |channels| && channels[i].data != null
    ensures channels[i].data.Repr <= Nodes(Datas(channels))
  {
    forall q | q in channels[i].data.Repr
      ensures q in Nodes(Datas(channels))
    {
      assert Datas(channels)[i] == channels[i].data;
    }
  }

  lemma TableGrows(channels: seq<Channel>, c: Channel)
    requires ChannelsShaped(channels)
    requires c.data != null ==> c.data.Shaped() && c.data.Repr !! Nodes(Datas(channels))
    ensures Table(channels + [c]) == Table(channels) + [Entry(c.id, PartSchema(c.data))]
    ensures ChannelsShaped(channels + [c])
    ensures Nodes(Datas(channels + [c])) == Nodes(Datas(channels)) + if c.data == null then {} else c.data.Repr
  {
    MoreParts(Datas(channels), Schemas(channels), c.data, PartSchema(c.data));
    hide DecodedParts, Nodes;
    assert Datas(channels + [c]) == Datas(channels) + [c.data];
    assert Schemas(channels + [c]) == Schemas(channels) + [PartSchema(c.data)];
  }

  // The values a channel holds; none for a null pointer.
  ghost function ValueOf(c: Channel): Option<Value>
    reads if c.data == null then {} else c.data.Repr
  {
    if c.data == null || !c.data.Shaped() then None else Some(c.data.Data())
  }

  class RegistryListener {
    var numBad: nat
    var numSmall: nat
    var channels: seq<Channel>
    var channelResponseQueue: seq<Channel>
    // Callback calls and packets sent, in order.
    ghost var log: seq<Effect>
    // The nodes of all channels' trees.
    ghost var Trees: set<Part>

    ghost predicate Valid()
      reads this
    {
      ChannelsShaped(channels) && QueueWritable(channelResponseQueue) && Trees == Nodes(Datas(channels))
    }

    ghost function State(): Listener
      reads this
    {
      Listener(Table(channels), numBad, numSmall)
    }

    constructor ()
      ensures Valid() && State() == Listener([], 0, 0) && channelResponseQueue == [] && log == []
    {
      numBad, numSmall, channels, channelResponseQueue, log, Trees := 0, 0, [], [], [], {};
    }

    function GetRemoteSchema(id: Byte): (p: Part?)
      requires Valid()
      reads this
      ensures p == null <==> !Known(Table(channels), id)
      ensures p != null ==> id < |channels| && p == channels[id].data
    {
      if id < |channels| && channels[id].data != null then ChannelShaped(channels, id); channels[id].data
      else null
    }

    method TakePacket(pac: Packet)
      requires Valid() && Decodable(State(), pac)
      modifies this, Trees
      ensures Valid() && old(channels) <= channels
      ensures var o := Take(old(State()), old(Replies(channelResponseQueue)), pac);
              && State() == o.listener && log == old(log) + o.effects
              && channelResponseQueue == old(channelResponseQueue)[if o.popped then 1 else 0..]
      ensures fresh(Trees - old(Trees))
    {
      hide Validate, Take, Decodable, Replies, Table, ChannelsShaped, QueueWritable, Seal;
      ghost var l, rs := State(), Replies(channelResponseQueue);
      QueueAllocated(channelResponseQueue);
      var status := ValidatePacket(pac);
      assert Replies(channelResponseQueue) == rs;
      if status == BadChecksum {
        TakesInvalid(l, rs, pac);
        numBad := numBad + 1;
      } else if status == TooSmall {
        TakesInvalid(l, rs, pac);
        numSmall := numSmall + 1;
      } else {
        TakeValidPacket(pac);
      }
    }

    // The rest of take_packet, once the packet has passed validation.
    method TakeValidPacket(pac: Packet)
      requires Valid() && Decodable(State(), pac) && Validate(pac) == Ok
      modifies this, Trees
      ensures Valid() && old(channels) <= channels
      ensures var o := Take(old(State()), old(Replies(channelResponseQueue)), pac);
              && State() == o.listener && log == old(log) + o.effects
              && channelResponseQueue == old(channelResponseQueue)[if o.popped then 1 else 0..]
      ensures fresh(Trees - old(Trees))
    {
      hide Validate, DecodeHeaderByte, Take, Decodable, TakeData, TakeBroadcast, ReadValue, ParseSchema,
           ResponsePacket, Replies, Nodes, Table, ChannelsShaped, QueueWritable, Known, Passes;
      ghost var l, rs := State(), Replies(channelResponseQueue);
      DecodableCases(l, pac);
      var header := DecodeHeaderByte(pac[0]);
      if header.func == Send {
        if header.ptype == PacketType.Data {
          TakesData(l, rs, pac);
          TakeDataPacket(pac);
        } else {
          TakesBroadcast(l, rs, pac);
          TakeBroadcastPacket(pac);
        }
      } else {
        TakesOther(l, rs, pac, header.func);
        if header.func == Request && |channelResponseQueue| > 0 {
          SendResponse();
        }
      }
    }

    // Stores the values in the channel's own tree; the other channels' values stay as they are.
    method TakeDataPacket(pac: Packet)
      requires Valid() && |pac| >= MIN_PACKET_SIZE
      requires Known(State().table, pac[1]) ==> ReadValue(State().table[pac[1]].schema, pac, 2).Some?
      modifies this`log, Trees
      ensures Valid() && log == old(log) + TakeData(State(), pac).effects
      ensures Known(State().table, pac[1]) ==>
                ValueOf(channels[pac[1]]).Some? &&
                log == old(log) + [OnData(pac[1], ValueOf(channels[pac[1]]).value)]
      ensures forall i | 0 <= i < |channels| && i != pac[1] :: ValueOf(channels[i]) == old(ValueOf(channels[i]))
    {
      var id := pac[1];
      var part := GetRemoteSchema(id);
      if part == null {
        return;
      }
      ChannelShaped(channels, id);
      NodesOf(channels, id);
      var reader := new PacketReader(pac, 2);
      part.ReadDataFromMessage(reader);
      log := log + [OnData(id, part.Data())];
    }

    method TakeBroadcastPacket(pac: Packet)
      requires Valid() && |pac| >= MIN_PACKET_SIZE && ParseSchema(pac, 2).Some?
      modifies this`log, this`channels, this`Trees
      ensures Valid() && old(channels) <= channels
      ensures fresh(Trees - old(Trees))
      ensures State() == TakeBroadcast(old(State()), pac).listener
      ensures log == old(log) + TakeBroadcast(old(State()), pac).effects
    {
      hide ParseSchema, AcknowledgePacket;
      var id, schema := DecodeBroadcast(pac);
      var chan := Channel(schema, id);
      if |channels| < chan.id {
        return;
      }
      TableGrows(channels, chan);
      channels := channels + [chan];
      Trees := Trees + if schema == null then {} else schema.Repr;
      log := log + [OnBroadcast(id, PartSchema(schema))];
      var w := new PacketWriter();
      WriteChannelAcknowledge(w, chan);
      log := log + [SendPacket(w.sofar)];
    }

    // The answer to a request packet when something is queued.
    method SendResponse()
      requires Valid() && channelResponseQueue != []
      modifies this`log, this`channelResponseQueue
      ensures Valid() && channelResponseQueue == old(channelResponseQueue)[1..]
      ensures var rs := old(Replies(channelResponseQueue));
              log == old(log) + [SendPacket(ResponsePacket(|rs|, rs[0].id, rs[0].schema, rs[0].value))]
    {
      hide ResponsePacket, Replies, Nodes, ChannelsShaped;
      FirstReply(channelResponseQueue);
      var w := new PacketWriter();
      channelResponseQueue := WriteResponse(w, channelResponseQueue);
      log := log + [SendPacket(w.sofar)];
    }

    // The id indexes the table before it is checked, so the caller must name a known position.
    method SubmitResponse(ptype: PacketType, id: Byte, data: Part) returns (ok: bool)
      requires Valid() && data.Shaped() && Complete(data.schema)
      requires ptype == PacketType.Data ==> id < |channels|
      modifies this`channelResponseQueue
      ensures Valid() && ok == (ptype == PacketType.Data)
      ensures channelResponseQueue ==
              if ok then old(channelResponseQueue) + [Channel(data, channels[id].id)] else old(channelResponseQueue)
    {
      if ptype != PacketType.Data {
        return false;
      }
      var response := channels[id];
      response := response.(data := data);
      if |channels| < id {
        return false;
      }
      channelResponseQueue := channelResponseQueue + [response];
      return true;
    }
  }
}
