/**
 * What holds of a listener over every run of packets.
 */
module RegistryTheory {
  import opened Bytes
  import opened Integrity
  import opened Codec
  import opened Protocol
  import opened Registry
  import opened Subsequences

  // A packet arriving, with the response queue as it stands then.
  datatype Arrival = Arrival(packet: Packet, replies: seq<Reply>)

  datatype Ran = Ran(listener: Listener, effects: seq<Effect>)

  const NEW_LISTENER := Listener([], 0, 0)

  predicate RunDecodable(l: Listener, run: seq<Arrival>)
    decreases |run|
  {
    run == [] || (Decodable(l, run[0].packet)
                  && RunDecodable(Take(l, run[0].replies, run[0].packet).listener, run[1..]))
  }

  function RunAll(l: Listener, run: seq<Arrival>): Ran
    requires RunDecodable(l, run)
    decreases |run|
  {
    if run == [] then Ran(l, [])
    else
      var o := Take(l, run[0].replies, run[0].packet);
      var rest := RunAll(o.listener, run[1..]);
      Ran(rest.listener, o.effects + rest.effects)
  }

  function Then(first: seq<Effect>, r: Ran): Ran {
    Ran(r.listener, first + r.effects)
  }

  lemma RunUnfold(l: Listener, run: seq<Arrival>)
    requires run != [] && RunDecodable(l, run)
    ensures Decodable(l, run[0].packet)
    ensures var o := Take(l, run[0].replies, run[0].packet);
            && RunDecodable(o.listener, run[1..])
            && RunAll(l, run) == Then(o.effects, RunAll(o.listener, run[1..]))
  {
    hide Take, Decodable;
  }

  lemma RunFold(l: Listener, a: Arrival, rest: seq<Arrival>)
    requires Decodable(l, a.packet) && RunDecodable(Take(l, a.replies, a.packet).listener, rest)
    ensures RunDecodable(l, [a] + rest)
    ensures var o := Take(l, a.replies, a.packet);
            RunAll(l, [a] + rest) == Then(o.effects, RunAll(o.listener, rest))
  {
    hide Take, Decodable;
    assert ([a] + rest)[1..] == rest;
  }

  lemma {:induction false} RunAppend(l: Listener, a: seq<Arrival>, b: seq<Arrival>)
    requires RunDecodable(l, a) && RunDecodable(RunAll(l, a).listener, b)
    ensures RunDecodable(l, a + b)
    ensures RunAll(l, a + b) == Then(RunAll(l, a).effects, RunAll(RunAll(l, a).listener, b))
    decreases |a|
  {
    hide Take, Decodable, RunDecodable, RunAll;
    if a == [] {
      RunNothing(l);
      assert a + b == b;
      ThenNothing(RunAll(l, b));
    } else {
      RunUnfold(l, a);
      var o := Take(l, a[0].replies, a[0].packet);
      RunAppend(o.listener, a[1..], b);
      RunFold(l, a[0], a[1..] + b);
      assert a + b == [a[0]] + (a[1..] + b);
      var first := RunAll(o.listener, a[1..]);
      ThenAssociates(o.effects, first, RunAll(first.listener, b));
    }
  }

  lemma ThenNothing(r: Ran)
    ensures Then([], r) == r
  {
  }

  lemma ThenAssociates(effects: seq<Effect>, first: Ran, second: Ran)
    ensures Then(effects, Then(first.effects, second)) == Then(Then(effects, first).effects, second)
    ensures Then(effects, first).listener == first.listener
  {
  }

  lemma RunNothing(l: Listener)
    ensures RunDecodable(l, []) && RunAll(l, []) == Ran(l, [])
  {
  }

  // The beginning of a run is a run, and so is the rest from where it stops.
  lemma {:induction false} RunSplit(l: Listener, a: seq<Arrival>, b: seq<Arrival>)
    requires RunDecodable(l, a + b)
    ensures RunDecodable(l, a) && RunDecodable(RunAll(l, a).listener, b)
    decreases |a|
  {
    hide Take, Decodable, RunDecodable, RunAll;
    if a == [] {
      RunNothing(l);
      assert a + b == b;
    } else {
      RunUnfold(l, a + b);
      assert (a + b)[0] == a[0] && (a + b)[1..] == a[1..] + b;
      var o := Take(l, a[0].replies, a[0].packet);
      RunSplit(o.listener, a[1..], b);
      RunFold(l, a[0], a[1..]);
      assert a == [a[0]] + a[1..];
    }
  }

  // The response queue has no say in which packets can be taken, or in what the table becomes.
  lemma {:induction false} QueueHasNoSay(l: Listener, a: seq<Arrival>, b: seq<Arrival>)
    requires RunDecodable(l, a) && |a| == |b| && forall i | 0 <= i < |a| :: a[i].packet == b[i].packet
    ensures RunDecodable(l, b) && RunAll(l, b).listener == RunAll(l, a).listener
    decreases |a|
  {
    hide Decodable;
    if a == [] {
    } else {
      SameListener(l, a[0], b[0]);
      hide Take;
      QueueHasNoSay(Take(l, a[0].replies, a[0].packet).listener, a[1..], b[1..]);
    }
  }

  lemma SameListener(l: Listener, a: Arrival, b: Arrival)
    requires a.packet == b.packet && Decodable(l, a.packet)
    ensures Take(l, a.replies, a.packet).listener == Take(l, b.replies, b.packet).listener
  {
    hide Validate, DecodeHeaderByte, ParseSchema, ReadValue, ResponsePacket;
  }

  // ----- invariants

  // Broadcasts may repeat an id but never run ahead of the table.
  predicate IdsWithinTable(table: seq<Entry>) {
    forall i | 0 <= i < |table| :: table[i].id <= i
  }

  function Ids(table: seq<Entry>): seq<Byte> {
    if table == [] then [] else [table[0].id] + Ids(table[1..])
  }

  predicate IsAcknowledge(e: Effect) {
    e.SendPacket? && |e.packet| >= 2 && DecodeHeaderByte(e.packet[0]) == ACKNOWLEDGE
  }

  function AckOf(e: Effect): seq<Byte> {
    if IsAcknowledge(e) then [e.packet[1]] else []
  }

  function NewsOf(e: Effect): seq<Entry> {
    if e.OnBroadcast? then [Entry(e.id, e.schema)] else []
  }

  // Ids acknowledged, in order; responses are sent too but are not acknowledgements.
  function Acknowledged(effects: seq<Effect>): seq<Byte> {
    if effects == [] then [] else AckOf(effects[0]) + Acknowledged(effects[1..])
  }

  function Announced(effects: seq<Effect>): seq<Entry> {
    if effects == [] then [] else NewsOf(effects[0]) + Announced(effects[1..])
  }

  // A packet too short to hold a header and a checksum.
  predicate Small(p: Packet) {
    |p| < 5
  }

  // A packet that its own checksum does not close.
  predicate Bad(p: Packet) {
    |p| >= 5 && p != Seal(Payload(p))
  }

  function SmallCount(run: seq<Arrival>): nat {
    if run == [] then 0 else (if Small(run[0].packet) then 1 else 0) + SmallCount(run[1..])
  }

  function BadCount(run: seq<Arrival>): nat {
    if run == [] then 0 else (if Bad(run[0].packet) then 1 else 0) + BadCount(run[1..])
  }

  function ValidCount(run: seq<Arrival>): nat {
    if run == [] then 0
    else (if Validate(run[0].packet) == Ok then 1 else 0) + ValidCount(run[1..])
  }

  lemma OneOfThree(p: Packet)
    ensures Validate(p) == TooSmall <==> Small(p)
    ensures Validate(p) == BadChecksum <==> Bad(p)
    ensures !(Small(p) && Bad(p))
  {
    hide Validate, Seal;
    ValidateCases(p);
  }

  lemma {:induction false} EffectsAppend(a: seq<Effect>, b: seq<Effect>)
    ensures Acknowledged(a + b) == Acknowledged(a) + Acknowledged(b)
    ensures Announced(a + b) == Announced(a) + Announced(b)
  {
    hide AckOf, NewsOf;
    if a == [] {
      assert a + b == b;
    } else {
      assert (a + b)[1..] == a[1..] + b;
      EffectsAppend(a[1..], b);
    }
  }

  lemma OneEffect(e: Effect)
    ensures Acknowledged([e]) == AckOf(e) && Announced([e]) == NewsOf(e)
    ensures Acknowledged([]) == [] && Announced([]) == []
  {
  }

  lemma {:induction false} IdsAppend(a: seq<Entry>, b: seq<Entry>)
    ensures Ids(a + b) == Ids(a) + Ids(b)
  {
    if a == [] {
      assert a + b == b;
    } else {
      assert (a + b)[1..] == a[1..] + b;
      IdsAppend(a[1..], b);
    }
  }

  // What one packet does to the table, and that the effects say exactly that.
  predicate StepKeeps(l: Listener, pac: Packet, o: Outcome) {
    && l.table <= o.listener.table
    && (IdsWithinTable(l.table) ==> IdsWithinTable(o.listener.table))
    && Announced(o.effects) == o.listener.table[|l.table|..]
    && Acknowledged(o.effects) == Ids(o.listener.table[|l.table|..])
    && o.listener.small == l.small + (if Small(pac) then 1 else 0)
    && o.listener.bad == l.bad + (if Bad(pac) then 1 else 0)
  }

  lemma AckSent(id: Byte)
    ensures AcknowledgePacket(id)[1] == id
    ensures IsAcknowledge(SendPacket(AcknowledgePacket(id))) && AckOf(SendPacket(AcknowledgePacket(id))) == [id]
  {
    hide MakeHeaderByte, DecodeHeaderByte, Validate;
    BarePacket(ACKNOWLEDGE, [MakeHeaderByte(ACKNOWLEDGE), id]);
  }

  lemma NewsOnly(id: Byte, s: Schema, p: Packet)
    ensures AckOf(OnBroadcast(id, s)) == [] && NewsOf(OnBroadcast(id, s)) == [Entry(id, s)]
    ensures NewsOf(SendPacket(p)) == []
  {
  }

  lemma ResponseSent(count: nat, id: Byte, s: Schema, v: Value)
    ensures !IsAcknowledge(SendPacket(ResponsePacket(count, id, s, v)))
  {
    WrittenPacketsPass(id, s, v, count);
    hide ResponsePacket, Validate;
  }

  // A step that leaves the table alone and neither announces nor acknowledges.
  lemma QuietStepKeeps(l: Listener, pac: Packet, o: Outcome)
    requires o.listener.table == l.table
    requires |o.effects| <= 1 && forall e | e in o.effects :: AckOf(e) == [] && NewsOf(e) == []
    requires o.listener.small == l.small + (if Small(pac) then 1 else 0)
    requires o.listener.bad == l.bad + (if Bad(pac) then 1 else 0)
    ensures StepKeeps(l, pac, o)
  {
    hide AckOf, NewsOf, Acknowledged, Announced, IdsWithinTable, Small, Bad;
    assert l.table[|l.table|..] == [];
    OneEffect(OnBroadcast(0, Absent));
    if o.effects != [] {
      OneEffect(o.effects[0]);
      assert o.effects == [o.effects[0]];
    }
  }

  lemma TakeBroadcastKeeps(l: Listener, pac: Packet)
    requires |pac| >= MIN_PACKET_SIZE && ParseSchema(pac, 2).Some? && Validate(pac) == Ok
    ensures StepKeeps(l, pac, TakeBroadcast(l, pac))
  {
    hide ParseSchema, Validate, AcknowledgePacket, Acknowledged, Announced, Small, Bad, AckOf, NewsOf;
    OneOfThree(pac);
    var o := TakeBroadcast(l, pac);
    if |l.table| >= pac[1] {
      var entry := Entry(pac[1], ParseSchema(pac, 2).value.value);
      var news, ack := OnBroadcast(entry.id, entry.schema), SendPacket(AcknowledgePacket(entry.id));
      AckSent(pac[1]);
      NewsOnly(entry.id, entry.schema, AcknowledgePacket(entry.id));
      OneEffect(news);
      OneEffect(ack);
      EffectsAppend([news], [ack]);
      assert o.effects == [news] + [ack];
      assert o.listener.table[|l.table|..] == [entry] && [entry][1..] == [];
      assert Ids([entry]) == [pac[1]];
      assert IdsWithinTable(l.table) ==> IdsWithinTable(o.listener.table);
      assert Acknowledged(o.effects) == [pac[1]];
      assert Announced(o.effects) == [entry];
    } else {
      QuietStepKeeps(l, pac, o);
    }
  }

  lemma TakeKeeps(l: Listener, replies: seq<Reply>, pac: Packet)
    requires Decodable(l, pac)
    ensures StepKeeps(l, pac, Take(l, replies, pac))
  {
    hide Validate, Take, Decodable, StepKeeps, Small, Bad, DecodeHeaderByte;
    if Validate(pac) != Ok {
      TakesInvalid(l, replies, pac);
      OneOfThree(pac);
      QuietStepKeeps(l, pac, Take(l, replies, pac));
    } else {
      DecodableCases(l, pac);
      TakeValidKeeps(l, replies, pac, DecodeHeaderByte(pac[0]));
    }
  }

  lemma TakeDataKeeps(l: Listener, pac: Packet)
    requires |pac| >= MIN_PACKET_SIZE && Validate(pac) == Ok
    requires Known(l.table, pac[1]) ==> ReadValue(l.table[pac[1]].schema, pac, 2).Some?
    ensures StepKeeps(l, pac, TakeData(l, pac))
  {
    hide Validate, StepKeeps, ReadValue, Known, DecodeHeaderByte, Small, Bad;
    OneOfThree(pac);
    QuietStepKeeps(l, pac, TakeData(l, pac));
  }

  lemma TakeOtherKeeps(l: Listener, replies: seq<Reply>, pac: Packet, func: PacketFunction)
    requires Validate(pac) == Ok
    ensures StepKeeps(l, pac, TakeOther(l, replies, func))
  {
    hide Validate, StepKeeps, ResponsePacket, IsAcknowledge, Small, Bad;
    OneOfThree(pac);
    if replies != [] { ResponseSent(|replies|, replies[0].id, replies[0].schema, replies[0].value); }
    QuietStepKeeps(l, pac, TakeOther(l, replies, func));
  }

  lemma TakeValidKeeps(l: Listener, replies: seq<Reply>, pac: Packet, header: PacketHeader)
    requires Decodable(l, pac) && Passes(pac, header)
    requires header == DATA && Known(l.table, pac[1]) ==> ReadValue(l.table[pac[1]].schema, pac, 2).Some?
    requires header == BROADCAST ==> ParseSchema(pac, 2).Some?
    ensures StepKeeps(l, pac, Take(l, replies, pac))
  {
    hide Validate, DecodeHeaderByte, Decodable, Take, StepKeeps, ParseSchema, ReadValue, Known, TakeBroadcast,
         TakeData, TakeOther;
    if header == BROADCAST {
      TakesBroadcast(l, replies, pac);
      TakeBroadcastKeeps(l, pac);
    } else if header == DATA {
      TakesData(l, replies, pac);
      TakeDataKeeps(l, pac);
    } else {
      OtherFunction(header);
      TakesOther(l, replies, pac, header.func);
      TakeOtherKeeps(l, replies, pac, header.func);
    }
  }

  // In every run: the table only grows, keeps every entry and never skips an id; each growth is
  // announced once and acknowledged once with its id, nothing else is; every packet is counted once.
  lemma {:induction false} RunKeeps(l: Listener, run: seq<Arrival>)
    requires RunDecodable(l, run)
    ensures var r := RunAll(l, run);
            && l.table <= r.listener.table
            && (IdsWithinTable(l.table) ==> IdsWithinTable(r.listener.table))
            && Announced(r.effects) == r.listener.table[|l.table|..]
            && Acknowledged(r.effects) == Ids(r.listener.table[|l.table|..])
            && r.listener.small == l.small + SmallCount(run) && r.listener.bad == l.bad + BadCount(run)
            && SmallCount(run) + BadCount(run) + ValidCount(run) == |run|
    decreases |run|
  {
    hide Take, Decodable, IdsWithinTable, RunAll, RunDecodable, AckOf, NewsOf, Validate, Small, Bad;
    if run == [] {
      RunNothing(l);
      assert l.table[|l.table|..] == [];
    } else {
      RunUnfold(l, run);
      var o := Take(l, run[0].replies, run[0].packet);
      var r := RunAll(o.listener, run[1..]);
      OneOfThree(run[0].packet);
      TakeKeeps(l, run[0].replies, run[0].packet);
      RunKeeps(o.listener, run[1..]);
      EffectsAppend(o.effects, r.effects);
      var first, second := o.listener.table[|l.table|..], r.listener.table[|o.listener.table|..];
      assert r.listener.table[|l.table|..] == first + second;
      IdsAppend(first, second);
    }
  }

  // ----- ids broadcast twice

  function BroadcastId(pac: Packet): seq<Byte> {
    if Passes(pac, BROADCAST) then [pac[1]] else []
  }

  // The ids of the intact broadcasts of a run, in order.
  function BroadcastIds(run: seq<Arrival>): seq<Byte> {
    if run == [] then [] else BroadcastId(run[0].packet) + BroadcastIds(run[1..])
  }

  // Counting up from n, each id is the next number or, being too early, is passed over: none has been
  // counted before.
  predicate NoneRepeated(ids: seq<Byte>, n: nat) {
    if ids == [] then true
    else if ids[0] == n then NoneRepeated(ids[1..], n + 1)
    else ids[0] > n && NoneRepeated(ids[1..], n)
  }

  lemma IdsOf(a: Arrival, rest: seq<Arrival>)
    ensures BroadcastIds([a] + rest) == BroadcastId(a.packet) + BroadcastIds(rest)
  {
    hide BroadcastId;
    assert ([a] + rest)[1..] == rest;
  }

  lemma {:induction false} SameIds(a: seq<Arrival>, b: seq<Arrival>)
    requires |a| == |b| && forall i | 0 <= i < |a| :: a[i].packet == b[i].packet
    ensures BroadcastIds(a) == BroadcastIds(b)
    decreases |a|
  {
    hide BroadcastId;
    if a == [] {
    } else {
      SameIds(a[1..], b[1..]);
    }
  }

  lemma OneMoreId(id: Byte, ids: seq<Byte>, n: nat)
    ensures NoneRepeated([id] + ids, n) <==>
            if id == n then NoneRepeated(ids, n + 1) else id > n && NoneRepeated(ids, n)
  {
    assert ([id] + ids)[1..] == ids;
  }

  // ----- what writers put in packets

  // Anything the writers can write, and anything damaged on the way.
  datatype Message =
    | Announcement(id: Byte, schema: Schema)
    | Values(id: Byte, schema: Schema, value: Value)
    | Acknowledgement(id: Byte)
    | Asking
    | Answer(count: nat, id: Byte, schema: Schema, value: Value)
    | Damaged(packet: Packet)

  function PacketOf(m: Message): Packet {
    match m
    case Announcement(id, s) => BroadcastPacket(id, s)
    case Values(id, s, v) => DataPacket(id, s, v)
    case Acknowledgement(id) => AcknowledgePacket(id)
    case Asking => RequestPacket()
    case Answer(count, id, s, v) => ResponsePacket(count, id, s, v)
    case Damaged(p) => p
  }

  function Packets(ms: seq<Message>): (packets: seq<Packet>)
    ensures |packets| == |ms|
  {
    if ms == [] then [] else [PacketOf(ms[0])] + Packets(ms[1..])
  }

  // Announced trees are whole, with C-string names and 32-bit field counts; damage shows.
  predicate Proper(m: Message) {
    match m
    case Announcement(_, s) => Complete(s) && Tame(s)
    case Damaged(p) => Validate(p) != Ok
    case _ => true
  }

  // Values for an id in the table have the form the table gives for it.
  predicate Readable(table: seq<Entry>, m: Message) {
    m.Values? && Known(table, m.id) ==>
      m.schema == table[m.id].schema && Conforms(m.schema, m.value) && TextsNulFree(m.value)
  }

  function TableAfter(table: seq<Entry>, m: Message): seq<Entry> {
    if m.Announcement? && m.id <= |table| then table + [Entry(m.id, m.schema)] else table
  }

  datatype Delivery = Delivery(id: Byte, value: Value)

  function Delivered(table: seq<Entry>, m: Message): seq<Delivery> {
    if m.Values? && Known(table, m.id) then [Delivery(m.id, m.value)] else []
  }

  // The same for messages in turn.
  predicate AllReadable(table: seq<Entry>, ms: seq<Message>)
    decreases |ms|
  {
    ms == [] || (Proper(ms[0]) && Readable(table, ms[0]) && AllReadable(TableAfter(table, ms[0]), ms[1..]))
  }

  function TableAfterAll(table: seq<Entry>, ms: seq<Message>): seq<Entry>
    decreases |ms|
  {
    if ms == [] then table else TableAfterAll(TableAfter(table, ms[0]), ms[1..])
  }

  function DeliveredAll(table: seq<Entry>, ms: seq<Message>): seq<Delivery>
    decreases |ms|
  {
    if ms == [] then [] else Delivered(table, ms[0]) + DeliveredAll(TableAfter(table, ms[0]), ms[1..])
  }

  // What the data callbacks were called with.
  function DeliveryOf(e: Effect): seq<Delivery> {
    if e.OnData? then [Delivery(e.id, e.value)] else []
  }

  function Deliveries(effects: seq<Effect>): seq<Delivery> {
    if effects == [] then [] else DeliveryOf(effects[0]) + Deliveries(effects[1..])
  }

  lemma {:induction false} DeliveriesAppend(a: seq<Effect>, b: seq<Effect>)
    ensures Deliveries(a + b) == Deliveries(a) + Deliveries(b)
  {
    hide DeliveryOf;
    if a == [] {
      assert a + b == b;
    } else {
      assert (a + b)[1..] == a[1..] + b;
      DeliveriesAppend(a[1..], b);
    }
  }

  lemma OneDelivery(e: Effect)
    ensures Deliveries([e]) == DeliveryOf(e) && Deliveries([]) == []
  {
  }

  lemma QuietEffects(news: Effect, ack: Effect)
    requires !news.OnData? && !ack.OnData?
    ensures Deliveries([news, ack]) == []
  {
    hide Deliveries;
    OneDelivery(news);
    OneDelivery(ack);
    DeliveriesAppend([news], [ack]);
    assert [news, ack] == [news] + [ack];
  }

  // Whatever the table, the message is read without running past its packet, and changes the table
  // and calls back as stated.
  predicate Understood(l: Listener, replies: seq<Reply>, m: Message) {
    && Decodable(l, PacketOf(m))
    && var o := Take(l, replies, PacketOf(m));
       o.listener.table == TableAfter(l.table, m) && Deliveries(o.effects) == Delivered(l.table, m)
  }

  lemma BroadcastTaken(l: Listener, pac: Packet, id: Byte, s: Schema)
    requires |pac| >= MIN_PACKET_SIZE && pac[1] == id
    requires ParseSchema(pac, 2).Some? && ParseSchema(pac, 2).value.value == s
    ensures var o := TakeBroadcast(l, pac);
            o.listener.table == TableAfter(l.table, Announcement(id, s)) && Deliveries(o.effects) == []
  {
    hide ParseSchema, AcknowledgePacket, Deliveries;
    OneDelivery(OnBroadcast(id, s));
    QuietEffects(OnBroadcast(id, s), SendPacket(AcknowledgePacket(id)));
  }

  lemma AnnouncementUnderstood(l: Listener, replies: seq<Reply>, id: Byte, s: Schema)
    requires Complete(s) && Tame(s)
    ensures Understood(l, replies, Announcement(id, s))
  {
    hide BroadcastPacket, ParseSchema, Complete, Tame, Take, TakeBroadcast, Decodable, Passes, Deliveries, EncodeSchema,
         Validate, DecodeHeaderByte, ReadValue, ResponsePacket;
    BroadcastReadsBack(id, s);
    WrittenPacketsPass(id, s, Number(0), 0);
    TakesBroadcast(l, replies, BroadcastPacket(id, s));
    BroadcastTaken(l, BroadcastPacket(id, s), id, s);
  }

  lemma ValuesUnderstood(l: Listener, replies: seq<Reply>, id: Byte, s: Schema, v: Value)
    requires Readable(l.table, Values(id, s, v))
    ensures Understood(l, replies, Values(id, s, v))
  {
    hide DataPacket, ReadValue, Conforms, TextsNulFree, Take, Decodable, Passes, Deliveries, EncodeValue, ParseSchema,
         Validate, DecodeHeaderByte, ResponsePacket, TakeBroadcast;
    WrittenPacketsPass(id, s, v, 0);
    DataHolds(id, s, v);
    if Known(l.table, id) { DataReadsBack(id, s, v); }
    TakesData(l, replies, DataPacket(id, s, v));
    OneDelivery(OnData(id, v));
  }

  function HeaderOf(m: Message): PacketHeader {
    match m
    case Acknowledgement(_) => ACKNOWLEDGE
    case Asking => REQUEST
    case _ => RESPONSE
  }

  lemma OtherUnderstood(l: Listener, replies: seq<Reply>, m: Message)
    requires m.Acknowledgement? || m.Asking? || m.Answer?
    ensures Understood(l, replies, m)
  {
    hide PacketOf, HeaderOf, TakeOther, Take, Decodable, Deliveries, Validate, DecodeHeaderByte;
    OtherPasses(m);
    TakesOther(l, replies, PacketOf(m), HeaderOf(m).func);
    OtherIsQuiet(l, replies, HeaderOf(m).func);
  }

  lemma OtherIsQuiet(l: Listener, replies: seq<Reply>, func: PacketFunction)
    ensures TakeOther(l, replies, func).listener == l
    ensures Deliveries(TakeOther(l, replies, func).effects) == []
  {
    hide ResponsePacket, Deliveries;
    OneDelivery(SendPacket([]));
    if replies != [] {
      var r := replies[0];
      OneDelivery(SendPacket(ResponsePacket(|replies|, r.id, r.schema, r.value)));
    }
  }

  lemma OtherPasses(m: Message)
    requires m.Acknowledgement? || m.Asking? || m.Answer?
    ensures Passes(PacketOf(m), HeaderOf(m)) && HeaderOf(m).func != Send
  {
    hide Passes, AcknowledgePacket, RequestPacket, ResponsePacket, BroadcastPacket, DataPacket;
    match m {
      case Acknowledgement(id) => WrittenPacketsPass(id, Absent, Number(0), 0);
      case Asking => WrittenPacketsPass(0, Absent, Number(0), 0);
      case Answer(count, id, s, v) => WrittenPacketsPass(id, s, v, count);
    }
  }

  lemma DamagedUnderstood(l: Listener, replies: seq<Reply>, p: Packet)
    requires Validate(p) != Ok
    ensures Understood(l, replies, Damaged(p))
  {
    hide Validate, Take, Decodable;
    TakesInvalid(l, replies, p);
  }

  lemma MessageUnderstood(l: Listener, replies: seq<Reply>, m: Message)
    requires Proper(m) && Readable(l.table, m)
    ensures Understood(l, replies, m)
  {
    hide Understood, Readable, Validate, Complete, Tame;
    match m {
      case Announcement(id, s) => AnnouncementUnderstood(l, replies, id, s);
      case Values(id, s, v) => ValuesUnderstood(l, replies, id, s, v);
      case Damaged(p) => DamagedUnderstood(l, replies, p);
      case _ => OtherUnderstood(l, replies, m);
    }
  }

  // The run brings exactly these packets; the response queue may stand at anything.
  predicate Carries(run: seq<Arrival>, packets: seq<Packet>) {
    |run| == |packets| && forall i | 0 <= i < |run| :: run[i].packet == packets[i]
  }

  // A run of written and damaged packets never sends a reader past the end of a packet, and the table
  // and the data callbacks are those of the messages.
  lemma {:induction false} MessagesUnderstood(l: Listener, run: seq<Arrival>, ms: seq<Message>)
    requires AllReadable(l.table, ms) && Carries(run, Packets(ms))
    ensures RunDecodable(l, run)
    ensures RunAll(l, run).listener.table == TableAfterAll(l.table, ms)
    ensures Deliveries(RunAll(l, run).effects) == DeliveredAll(l.table, ms)
    decreases |ms|
  {
    hide Proper, Readable, PacketOf, Take, Decodable, TableAfter, Delivered, RunDecodable, RunAll, DeliveryOf;
    if ms == [] {
      RunNothing(l);
      assert run == [];
    } else {
      var m, first, rest := ms[0], run[0], run[1..];
      MessageUnderstood(l, first.replies, m);
      assert first.packet == Packets(ms)[0] == PacketOf(m);
      var o := Take(l, first.replies, first.packet);
      assert Packets(ms)[1..] == Packets(ms[1..]);
      MessagesUnderstood(o.listener, rest, ms[1..]);
      assert run == [first] + rest;
      RunFold(l, first, rest);
      DeliveriesAppend(o.effects, RunAll(o.listener, rest).effects);
    }
  }

  // So what holds of every run holds of such runs without further ado.
  lemma WrittenRunKeeps(l: Listener, run: seq<Arrival>, ms: seq<Message>)
    requires AllReadable(l.table, ms) && Carries(run, Packets(ms))
    ensures RunDecodable(l, run)
    ensures var r := RunAll(l, run);
            && r.listener.table == TableAfterAll(l.table, ms) == l.table + Announced(r.effects)
            && (IdsWithinTable(l.table) ==> IdsWithinTable(r.listener.table))
            && Acknowledged(r.effects) == Ids(Announced(r.effects))
            && r.listener.small == l.small + SmallCount(run) && r.listener.bad == l.bad + BadCount(run)
            && SmallCount(run) + BadCount(run) + ValidCount(run) == |run|
  {
    hide AllReadable, Carries, IdsWithinTable, Announced, Acknowledged, ValidCount, SmallCount, BadCount,
         RunDecodable, RunAll, Ids, TableAfterAll, DeliveredAll, Deliveries, Packets;
    MessagesUnderstood(l, run, ms);
    RunKeeps(l, run);
    var table := RunAll(l, run).listener.table;
    assert table == l.table + table[|l.table|..];
  }

  // ----- a peer that announces its channels in order

  // An announcement is of the next channel, or once more of an earlier one, as it was.
  predicate Allowed(m: Message, known: seq<Schema>) {
    match m
    case Announcement(id, s) =>
      id <= |known| && (id < |known| ==> s == known[id]) && Complete(s) && Tame(s)
    case Values(id, s, v) => id < |known| && s == known[id] && Conforms(s, v) && TextsNulFree(v)
    case Damaged(p) => Validate(p) != Ok
    case _ => true
  }

  function KnownAfter(m: Message, known: seq<Schema>): seq<Schema> {
    if m.Announcement? && m.id == |known| then known + [m.schema] else known
  }

  // Values are sent for announced channels only; requests, answers, acknowledgements and damaged
  // packets may come at any time.
  predicate Faithful(ms: seq<Message>, known: seq<Schema>)
    decreases |ms|
  {
    ms == [] || (Allowed(ms[0], known) && Faithful(ms[1..], KnownAfter(ms[0], known)))
  }

  function AllKnown(ms: seq<Message>, known: seq<Schema>): seq<Schema>
    decreases |ms|
  {
    if ms == [] then known else AllKnown(ms[1..], KnownAfter(ms[0], known))
  }

  function UpdateOf(m: Message): seq<Delivery> {
    if m.Values? then [Delivery(m.id, m.value)] else []
  }

  // The values the peer sent.
  function Updates(ms: seq<Message>): seq<Delivery> {
    if ms == [] then [] else UpdateOf(ms[0]) + Updates(ms[1..])
  }

  function AnnouncedId(m: Message): seq<Byte> {
    if m.Announcement? then [m.id] else []
  }

  function AnnouncedIds(ms: seq<Message>): seq<Byte> {
    if ms == [] then [] else AnnouncedId(ms[0]) + AnnouncedIds(ms[1..])
  }

  // The peer announces no channel a second time.
  predicate OnceEach(ms: seq<Message>, known: seq<Schema>) {
    NoneRepeated(AnnouncedIds(ms), |known|)
  }

  // The table is the peer's list of channels as far as it goes: position is id.
  predicate Mirrors(table: seq<Entry>, known: seq<Schema>) {
    |table| <= |known| && forall i | 0 <= i < |table| :: table[i].id == i && table[i].schema == known[i]
  }

  // What counting on from n makes of one more message.
  function CountAfter(m: Message, n: nat): nat {
    if m.Announcement? && m.id == n then n + 1 else n
  }

  lemma CountOn(m: Message, ms: seq<Message>, n: nat)
    ensures NoneRepeated(AnnouncedIds([m] + ms), n) <==>
            (m.Announcement? ==> m.id >= n) && NoneRepeated(AnnouncedIds(ms), CountAfter(m, n))
  {
    assert ([m] + ms)[1..] == ms;
    if m.Announcement? {
      OneMoreId(m.id, AnnouncedIds(ms), n);
    } else {
      assert [] + AnnouncedIds(ms) == AnnouncedIds(ms);
    }
  }

  // Counting from less, and leaving ids out, repeats nothing that was not repeated before.
  lemma {:induction false} FewerRepeats(kept: seq<Message>, ms: seq<Message>, n: nat, k: nat)
    requires Subsequence(kept, ms) && NoneRepeated(AnnouncedIds(ms), k) && n <= k
    ensures NoneRepeated(AnnouncedIds(kept), n)
    decreases |ms|
  {
    hide NoneRepeated, AnnouncedIds;
    if ms == [] {
      NoIds();
    } else {
      var m, rest := ms[0], ms[1..];
      assert ms == [m] + rest;
      CountOn(m, rest, k);
      if kept != [] && kept[0] == m {
        assert kept == [m] + kept[1..];
        CountOn(m, kept[1..], n);
        FewerRepeats(kept[1..], rest, CountAfter(m, n), CountAfter(m, k));
      } else {
        FewerRepeats(kept, rest, n, CountAfter(m, k));
      }
    }
  }

  lemma NoIds()
    ensures forall n: nat :: NoneRepeated(AnnouncedIds([]), n)
  {
  }

  // A message that is taken: an announcement of a channel not in the table, or anything else.
  lemma AllowedIsTaken(table: seq<Entry>, m: Message, known: seq<Schema>)
    requires Mirrors(table, known) && Allowed(m, known) && (m.Announcement? ==> m.id >= |table|)
    ensures |UpdateOf(m)| <= 1
    ensures Proper(m) && Readable(table, m) && Mirrors(TableAfter(table, m), KnownAfter(m, known))
    ensures |TableAfter(table, m)| == CountAfter(m, |table|)
    ensures Delivered(table, m) == UpdateOf(m) || Delivered(table, m) == []
    ensures |table| == |known| ==>
              |TableAfter(table, m)| == |KnownAfter(m, known)| && Delivered(table, m) == UpdateOf(m)
  {
  }

  // A message that is lost.
  lemma MirrorsMore(table: seq<Entry>, m: Message, known: seq<Schema>)
    requires Mirrors(table, known)
    ensures Mirrors(table, KnownAfter(m, known))
  {
  }

  lemma SubsequenceBehind<T>(d: seq<T>, u: seq<T>, a: seq<T>, b: seq<T>)
    requires (d == u || d == []) && |u| <= 1 && Subsequence(a, b)
    ensures Subsequence(d + a, u + b)
  {
    if u == [] {
      assert d + a == a && u + b == b;
    } else if d == u {
      assert (d + a)[1..] == a && (u + b)[1..] == b;
    } else {
      assert d + a == a && (u + b)[1..] == b;
      SubsequenceSkips(a, u + b);
    }
  }

  // Whatever part of the peer's messages gets through, as long as it announces nothing the table holds:
  // each is readable, the table is a beginning of the peer's list and what is delivered was sent, in
  // order; when all get through, it is all of both.
  lemma {:induction false} KeptMessages(
      table: seq<Entry>, kept: seq<Message>, ms: seq<Message>, known: seq<Schema>)
    requires Mirrors(table, known) && Faithful(ms, known) && Subsequence(kept, ms)
    requires NoneRepeated(AnnouncedIds(kept), |table|)
    ensures AllReadable(table, kept)
    ensures Mirrors(TableAfterAll(table, kept), AllKnown(ms, known))
    ensures Subsequence(DeliveredAll(table, kept), Updates(ms))
    ensures kept == ms && |table| == |known| ==>
              |TableAfterAll(table, kept)| == |AllKnown(ms, known)| && DeliveredAll(table, kept) == Updates(ms)
    decreases |ms|
  {
    hide Mirrors, Proper, Readable, TableAfter, KnownAfter, Allowed, Delivered, NoneRepeated, AnnouncedIds, CountAfter,
         Faithful, AllKnown, Updates, UpdateOf, AllReadable, TableAfterAll, DeliveredAll, PacketOf, AnnouncedId;
    if ms == [] {
      NoneKept(table);
      NoMessages(known);
    } else {
      var m, rest := ms[0], ms[1..];
      assert ms == [m] + rest;
      OneMessage(m, rest, known);
      if kept != [] && kept[0] == m {
        var more := kept[1..];
        assert kept == [m] + more;
        CountOn(m, more, |table|);
        AllowedIsTaken(table, m, known);
        OneKept(table, m, more);
        KeptMessages(TableAfter(table, m), more, rest, KnownAfter(m, known));
        SubsequenceBehind(Delivered(table, m), UpdateOf(m), DeliveredAll(TableAfter(table, m), more), Updates(rest));
      } else {
        MirrorsMore(table, m, known);
        KeptMessages(table, kept, rest, KnownAfter(m, known));
        assert [] + DeliveredAll(table, kept) == DeliveredAll(table, kept);
        OneUpdate(m);
        SubsequenceBehind([], UpdateOf(m), DeliveredAll(table, kept), Updates(rest));
      }
    }
  }

  lemma NoneKept(table: seq<Entry>)
    ensures AllReadable(table, []) && TableAfterAll(table, []) == table && DeliveredAll(table, []) == []
  {
  }

  lemma OneUpdate(m: Message)
    ensures |UpdateOf(m)| <= 1
  {
  }

  lemma OneKept(table: seq<Entry>, m: Message, more: seq<Message>)
    ensures AllReadable(table, [m] + more) <==>
            Proper(m) && Readable(table, m) && AllReadable(TableAfter(table, m), more)
    ensures TableAfterAll(table, [m] + more) == TableAfterAll(TableAfter(table, m), more)
    ensures DeliveredAll(table, [m] + more) == Delivered(table, m) + DeliveredAll(TableAfter(table, m), more)
  {
    hide Proper, Readable, TableAfter, Delivered;
    assert ([m] + more)[1..] == more;
  }

  // Packets left out of a run are messages left out of it.
  lemma {:induction false} MessagesOf(packets: seq<Packet>, ms: seq<Message>) returns (kept: seq<Message>)
    requires Subsequence(packets, Packets(ms))
    ensures Packets(kept) == packets && Subsequence(kept, ms)
    decreases |ms|
  {
    hide PacketOf;
    if packets == [] {
      kept := [];
    } else if packets[0] == PacketOf(ms[0]) {
      var rest := MessagesOf(packets[1..], ms[1..]);
      kept := [ms[0]] + rest;
      assert kept[1..] == rest;
    } else {
      kept := MessagesOf(packets, ms[1..]);
      SubsequenceSkips(kept, ms);
    }
  }

  lemma {:induction false} KeptPackets(kept: seq<Message>, ms: seq<Message>)
    requires Subsequence(kept, ms)
    ensures Subsequence(Packets(kept), Packets(ms))
    decreases |ms|
  {
    hide PacketOf;
    if kept == [] || ms == [] {
    } else if kept[0] == ms[0] {
      KeptPackets(kept[1..], ms[1..]);
    } else {
      KeptPackets(kept, ms[1..]);
      SubsequenceSkips(Packets(kept), Packets(ms));
    }
  }

  lemma IdOfPacket(m: Message, known: seq<Schema>)
    requires Allowed(m, known)
    ensures BroadcastId(PacketOf(m)) == AnnouncedId(m)
  {
    hide Validate, DecodeHeaderByte, Complete, Tame, Conforms, TextsNulFree, BroadcastPacket, DataPacket,
         AcknowledgePacket, RequestPacket, ResponsePacket, ParseSchema, EncodeSchema;
    match m {
      case Announcement(id, s) =>
        BroadcastReadsBack(id, s);
        WrittenPacketsPass(id, s, Number(0), 0);
      case Values(id, s, v) => WrittenPacketsPass(id, s, v, 0);
      case Damaged(p) =>
      case _ => OtherPasses(m);
    }
  }

  // The broadcasts of a run of the peer's messages are its announcements.
  lemma {:induction false} IdsOfMessages(run: seq<Arrival>, kept: seq<Message>, ms: seq<Message>, known: seq<Schema>)
    requires Carries(run, Packets(kept)) && Faithful(ms, known) && Subsequence(kept, ms)
    ensures BroadcastIds(run) == AnnouncedIds(kept)
    decreases |ms|
  {
    if kept == [] {
      assert run == [];
    } else {
      hide Allowed, KnownAfter, BroadcastId, AnnouncedId, PacketOf;
      if kept[0] == ms[0] {
        IdOfPacket(ms[0], known);
        assert run[0].packet == Packets(kept)[0] && Packets(kept)[1..] == Packets(kept[1..]);
        IdsOfMessages(run[1..], kept[1..], ms[1..], KnownAfter(ms[0], known));
      } else {
        IdsOfMessages(run, kept, ms[1..], KnownAfter(ms[0], known));
      }
    }
  }

  // Registry end to end. Whichever of the peer's packets arrive, unless they announce again what already
  // arrived: no reader runs past a packet, every delivery carries the id and the value tree of one the
  // peer serialised, in its order, and the table is a beginning of the peer's list of channels. If all
  // arrive, no delivery is missing, and the table is the whole list. A peer that announces each channel
  // once announces nothing again; one that does so only when it was not heard may do so as well.
  lemma RunDelivers(l: Listener, run: seq<Arrival>, packets: seq<Packet>, ms: seq<Message>, known: seq<Schema>)
    requires Mirrors(l.table, known) && Faithful(ms, known)
    requires Carries(run, packets) && Subsequence(packets, Packets(ms))
    requires OnceEach(ms, known) || NoneRepeated(BroadcastIds(run), |l.table|)
    ensures RunDecodable(l, run)
    ensures var r := RunAll(l, run);
            && Subsequence(Deliveries(r.effects), Updates(ms))
            && Mirrors(r.listener.table, AllKnown(ms, known))
            && (packets == Packets(ms) && |l.table| == |known| ==>
                  Deliveries(r.effects) == Updates(ms) && |r.listener.table| == |AllKnown(ms, known)|)
  {
    hide Faithful, Carries, Subsequence, Packets, Deliveries, Updates, AllKnown, RunAll, RunDecodable, NoneRepeated,
         AnnouncedIds, BroadcastIds;
    var kept := MessagesOf(packets, ms);
    SubsequenceSize(kept, ms);
    if OnceEach(ms, known) {
      FewerRepeats(kept, ms, |l.table|, |known|);
    } else {
      IdsOfMessages(run, kept, ms, known);
    }
    KeptMessages(l.table, kept, ms, known);
    MessagesUnderstood(l, run, kept);
  }

  lemma OneMessage(m: Message, rest: seq<Message>, known: seq<Schema>)
    ensures Faithful([m] + rest, known) <==> Allowed(m, known) && Faithful(rest, KnownAfter(m, known))
    ensures Packets([m] + rest) == [PacketOf(m)] + Packets(rest)
    ensures Updates([m] + rest) == UpdateOf(m) + Updates(rest)
    ensures AllKnown([m] + rest, known) == AllKnown(rest, KnownAfter(m, known))
    ensures AnnouncedIds([m] + rest) == AnnouncedId(m) + AnnouncedIds(rest)
  {
    hide Allowed, PacketOf, UpdateOf, KnownAfter, AnnouncedId;
    assert ([m] + rest)[1..] == rest;
  }

  lemma NoMessages(known: seq<Schema>)
    ensures Faithful([], known) && AllKnown([], known) == known && Packets([]) == [] && Updates([]) == []
    ensures AnnouncedIds([]) == []
  {
  }

  lemma {:induction false} PacketsAppend(a: seq<Message>, b: seq<Message>)
    ensures Packets(a + b) == Packets(a) + Packets(b)
  {
    hide PacketOf;
    if a == [] {
      assert a + b == b;
    } else {
      assert (a + b)[1..] == a[1..] + b;
      PacketsAppend(a[1..], b);
    }
  }

  // A peer may send its messages in parts.
  lemma {:induction false} FaithfulAppend(a: seq<Message>, b: seq<Message>, known: seq<Schema>)
    requires Faithful(a, known) && Faithful(b, AllKnown(a, known))
    ensures Faithful(a + b, known) && AllKnown(a + b, known) == AllKnown(b, AllKnown(a, known))
    ensures Packets(a + b) == Packets(a) + Packets(b) && Updates(a + b) == Updates(a) + Updates(b)
    ensures AnnouncedIds(a + b) == AnnouncedIds(a) + AnnouncedIds(b)
    decreases |a|
  {
    hide Faithful, AllKnown, Packets, Updates, AnnouncedIds, Allowed, KnownAfter, PacketOf, UpdateOf, AnnouncedId;
    if a == [] {
      NoMessages(known);
      assert a + b == b;
    } else {
      var m, rest := a[0], a[1..];
      assert a == [m] + rest && a + b == [m] + (rest + b);
      OneMessage(m, rest, known);
      FaithfulAppend(rest, b, KnownAfter(m, known));
      OneMessage(m, rest + b, known);
    }
  }
}
