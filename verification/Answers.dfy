/**
 * What leaves the listener: calls of the dashboard's callbacks, and packets back to the peer.
 */
module Answers {
  import opened Bytes
  import opened Integrity
  import opened Cobs
  import opened CobsTheory
  import opened Link
  import opened Codec
  import opened Protocol
  import opened Registry
  import opened RegistryTheory
  import opened WireFormat
  import Dashboard

  // ----- the dashboard behind the listener

  function EventOf(e: Effect): seq<Dashboard.Event<Entry>> {
    match e
    case OnBroadcast(id, s) => [Dashboard.Broadcast(Entry(id, s))]
    case OnData(_, _) => [Dashboard.Data]
    case SendPacket(_) => []
  }

  // The callbacks among a run's effects, in order.
  function Events(effects: seq<Effect>): seq<Dashboard.Event<Entry>> {
    if effects == [] then [] else Events(effects[..|effects| - 1]) + EventOf(effects[|effects| - 1])
  }

  lemma {:induction false} BroadcastsAnnounced(effects: seq<Effect>)
    ensures Dashboard.Broadcasts(Events(effects)) == Announced(effects)
    decreases |effects|
  {
    if effects == [] {
    } else {
      var u, e := effects[..|effects| - 1], effects[|effects| - 1];
      assert effects == u + [e];
      BroadcastsAnnounced(u);
      EffectsAppend(u, [e]);
      OneEffect(e);
      OneEvent(Events(u), e);
    }
  }

  lemma OneEvent(t: seq<Dashboard.Event<Entry>>, e: Effect)
    ensures Dashboard.Broadcasts(t + EventOf(e)) == Dashboard.Broadcasts(t) + NewsOf(e)
  {
    match e {
      case SendPacket(_) => assert t + EventOf(e) == t;
      case _ => assert (t + EventOf(e))[..|t|] == t;
    }
  }

  // After any run of packets the active channels are the latest entries of the listener's table, and
  // the whole table if and only if no data callback came between two broadcast callbacks.
  lemma DashboardShowsTable(run: seq<Arrival>)
    requires RunDecodable(NEW_LISTENER, run)
    ensures var r := RunAll(NEW_LISTENER, run);
            var active, table := Dashboard.After(Events(r.effects)).active, r.listener.table;
            && |active| <= |table| && active == table[|table| - |active|..]
            && (active == table <==> Dashboard.NeverRestarts(Events(r.effects)))
  {
    hide RunDecodable, RunAll, Announced, Acknowledged, IdsWithinTable, Events;
    var r := RunAll(NEW_LISTENER, run);
    RunKeeps(NEW_LISTENER, run);
    assert r.listener.table[0..] == r.listener.table;
    BroadcastsAnnounced(r.effects);
    Dashboard.ActiveAreLatest(Events(r.effects));
  }

  // The callbacks called for a log of effects, one by one.
  method Show(app: Dashboard.App<Entry>, log: seq<Effect>)
    requires app.View() == Dashboard.After([])
    modifies app
    ensures app.View() == Dashboard.After(Events(log))
  {
    var i := 0;
    while i < |log|
      invariant 0 <= i <= |log|
      invariant app.View() == Dashboard.After(Events(log[..i]))
    {
      assert log[..i + 1][..i] == log[..i];
      OneMoreEvent(Events(log[..i]), log[i]);
      match log[i] {
        case OnBroadcast(id, s) => app.OnBroadcast(Entry(id, s));
        case OnData(_, _) => app.OnData();
        case SendPacket(_) =>
      }
      i := i + 1;
    }
    assert log[..i] == log;
  }

  lemma OneMoreEvent(t: seq<Dashboard.Event<Entry>>, e: Effect)
    ensures Dashboard.After(t + EventOf(e)) ==
            if e.SendPacket? then Dashboard.After(t) else Dashboard.OnEvent(Dashboard.After(t), EventOf(e)[0])
  {
    match e {
      case SendPacket(_) => assert t + EventOf(e) == t;
      case _ => assert (t + EventOf(e))[..|t|] == t;
    }
  }

  // ----- packets back to the peer

  function PacketIn(e: Effect): seq<Packet> {
    if e.SendPacket? then [e.packet] else []
  }

  // The packets a run sends, in order.
  function Outgoing(effects: seq<Effect>): seq<Packet> {
    if effects == [] then [] else PacketIn(effects[0]) + Outgoing(effects[1..])
  }

  predicate IsAnswer(p: Packet, rs: seq<Reply>) {
    && rs != []
    && Passes(p, RESPONSE) && p[1] == |rs| % 256 && p[2] == rs[0].id
    && (Conforms(rs[0].schema, rs[0].value) && TextsNulFree(rs[0].value) ==>
          ReadValue(rs[0].schema, p, 3) == Some(Parsed(rs[0].value, 3 + |EncodeValue(rs[0].schema, rs[0].value)|)))
  }

  predicate Acknowledges(p: Packet) {
    Passes(p, ACKNOWLEDGE) && |p| == 6
  }

  // An intact packet whose function bits are both set.
  predicate IsRequest(p: Packet) {
    |p| >= 5 && p == Seal(Payload(p)) && p[0] / 0x20 % 4 == 3
  }

  // As the far end reads it, the packet acknowledges a broadcast, or answers a request with the front of
  // the queue that the request found: its length, the id, and the value.
  predicate Meant(p: Packet, run: seq<Arrival>) {
    Acknowledges(p) || exists i :: 0 <= i < |run| && IsRequest(run[i].packet) && IsAnswer(p, run[i].replies)
  }

  lemma AcknowledgeMeant(id: Byte)
    ensures Acknowledges(AcknowledgePacket(id)) && AcknowledgePacket(id)[1] == id
  {
    hide Passes, MakeHeaderByte;
    WrittenPacketsPass(id, Absent, Number(0), 0);
  }

  lemma ResponseMeant(rs: seq<Reply>)
    requires rs != []
    ensures IsAnswer(ResponsePacket(|rs|, rs[0].id, rs[0].schema, rs[0].value), rs)
  {
    hide ResponsePacket, ReadValue, EncodeValue, Conforms, TextsNulFree, Passes;
    var r := rs[0];
    WrittenPacketsPass(r.id, r.schema, r.value, |rs|);
    ResponseHolds(|rs|, r.id, r.schema, r.value);
    if Conforms(r.schema, r.value) && TextsNulFree(r.value) {
      ResponseReadsBack(|rs|, r.id, r.schema, r.value);
    }
  }

  lemma OneOutgoing(e: Effect)
    ensures Outgoing([e]) == PacketIn(e) && Outgoing([]) == []
  {
  }

  lemma {:induction false} OutgoingAppend(a: seq<Effect>, b: seq<Effect>)
    ensures Outgoing(a + b) == Outgoing(a) + Outgoing(b)
  {
    hide PacketIn;
    if a == [] {
      assert a + b == b;
    } else {
      assert (a + b)[1..] == a[1..] + b;
      OutgoingAppend(a[1..], b);
    }
  }

  predicate StepMeant(p: Packet, a: Arrival) {
    Acknowledges(p) || (IsRequest(a.packet) && IsAnswer(p, a.replies))
  }

  // ----- by the bytes of the packet alone

  predicate Intact(p: Packet) {
    |p| >= 5 && p == Seal(Payload(p))
  }

  lemma IntactPasses(p: Packet)
    ensures Intact(p) <==> Validate(p) == Ok
    ensures Intact(p) ==> Passes(p, DecodeHeaderByte(p[0]))
  {
    ValidateCases(p);
    hide Validate, DecodeHeaderByte, Seal;
  }

  // Acknowledgements and responses from the peer, of either type bit, are passed over.
  lemma OnlyRequestsAreAnswered(l: Listener, replies: seq<Reply>, pac: Packet)
    requires Decodable(l, pac) && Intact(pac) && (pac[0] / 0x20 % 4 == 1 || pac[0] / 0x20 % 4 == 2)
    ensures Take(l, replies, pac) == Outcome(l, [], false)
  {
    hide Validate, DecodeHeaderByte, Decodable, Take, Seal;
    IntactPasses(pac);
    HeaderCodes(pac[0]);
    TakesOther(l, replies, pac, DecodeHeaderByte(pac[0]).func);
  }

  // The packet that answers a request finding these replies.
  function AnswerTo(replies: seq<Reply>): Packet
    requires replies != []
  {
    var r := replies[0];
    Seal([0xC0, |replies| % 256, r.id] + EncodeValue(r.schema, r.value))
  }

  // A request is answered with the front of the queue, which is popped; with nothing queued nothing
  // happens.
  lemma RequestsAreAnswered(l: Listener, replies: seq<Reply>, pac: Packet)
    requires Decodable(l, pac) && Intact(pac) && pac[0] / 0x20 % 4 == 3
    ensures Take(l, replies, pac) ==
            if replies == [] then Outcome(l, [], false) else Outcome(l, [SendPacket(AnswerTo(replies))], true)
  {
    hide Validate, DecodeHeaderByte, Decodable, Take, Seal, ResponsePacket, EncodeValue;
    IntactPasses(pac);
    HeaderCodes(pac[0]);
    TakesOther(l, replies, pac, DecodeHeaderByte(pac[0]).func);
    if replies != [] {
      var r := replies[0];
      ResponseOpens(|replies|, r.id, r.schema, r.value);
    }
  }

  // What answers a broadcast of this id.
  function AcknowledgementOf(id: Byte): Packet {
    Seal([0x20, id])
  }

  // A broadcast within the table is announced, then acknowledged; one beyond it is dropped.
  lemma BroadcastsAreAcknowledged(l: Listener, replies: seq<Reply>, pac: Packet)
    requires Decodable(l, pac) && Intact(pac) && pac[0] / 0x20 == 0
    ensures ParseSchema(pac, 2).Some?
    ensures var o, entry := Take(l, replies, pac), Entry(pac[1], ParseSchema(pac, 2).value.value);
            if pac[1] <= |l.table| then
              && o.listener == l.(table := l.table + [entry]) && !o.popped
              && o.effects == [OnBroadcast(entry.id, entry.schema), SendPacket(AcknowledgementOf(pac[1]))]
            else o == Outcome(l, [], false)
  {
    hide Validate, DecodeHeaderByte, Decodable, Take, Seal, AcknowledgePacket, ParseSchema;
    IntactPasses(pac);
    HeaderCodes(pac[0]);
    DecodableCases(l, pac);
    TakesBroadcast(l, replies, pac);
    AcknowledgeOpens(pac[1]);
    assert [0x20, pac[1]] + [] == [0x20, pac[1]];
  }

  // Data never makes the listener send anything.
  lemma DataIsNotAnswered(l: Listener, replies: seq<Reply>, pac: Packet)
    requires Decodable(l, pac) && Intact(pac) && pac[0] / 0x20 == 4
    ensures var o := Take(l, replies, pac);
            o.listener == l && !o.popped && Outgoing(o.effects) == []
  {
    hide Validate, DecodeHeaderByte, Decodable, Take, Seal, ReadValue, TakeData, Outgoing;
    IntactPasses(pac);
    HeaderCodes(pac[0]);
    DecodableCases(l, pac);
    TakesData(l, replies, pac);
    DataSends(l, pac);
  }

  lemma DataSends(l: Listener, pac: Packet)
    requires |pac| >= MIN_PACKET_SIZE
    requires Known(l.table, pac[1]) ==> ReadValue(l.table[pac[1]].schema, pac, 2).Some?
    ensures Outgoing(TakeData(l, pac).effects) == []
  {
    hide ReadValue, Outgoing;
    OneOutgoing(OnData(pac[1], Number(0)));
    if Known(l.table, pac[1]) {
      OneOutgoing(OnData(pac[1], ReadValue(l.table[pac[1]].schema, pac, 2).value.value));
    }
  }

  // A damaged packet changes one counter: which one, its length decides.
  lemma DamageIsCounted(l: Listener, replies: seq<Reply>, pac: Packet)
    requires !Intact(pac)
    ensures Decodable(l, pac)
    ensures Take(l, replies, pac) ==
            Outcome(if |pac| < 5 then l.(small := l.small + 1) else l.(bad := l.bad + 1), [], false)
  {
    hide Validate, Take, Decodable, Seal;
    ValidateCases(pac);
    TakesInvalid(l, replies, pac);
  }

  // ----- runs

  // What one arrival makes a listener with n entries send, and how many entries it has then.
  function Sends(a: Arrival, n: nat): seq<Packet> {
    var p := a.packet;
    if !Intact(p) then []
    else if p[0] / 0x20 == 0 then (if p[1] <= n then [AcknowledgementOf(p[1])] else [])
    else if p[0] / 0x20 % 4 == 3 && a.replies != [] then [AnswerTo(a.replies)]
    else []
  }

  function Grown(a: Arrival, n: nat): nat {
    if Intact(a.packet) && a.packet[0] / 0x20 == 0 && a.packet[1] <= n then n + 1 else n
  }

  function AllSends(run: seq<Arrival>, n: nat): seq<Packet>
    decreases |run|
  {
    if run == [] then [] else Sends(run[0], n) + AllSends(run[1..], Grown(run[0], n))
  }

  lemma TwoOutgoing(news: Effect, p: Packet)
    requires !news.SendPacket?
    ensures Outgoing([news, SendPacket(p)]) == [p]
  {
    hide Outgoing;
    OneOutgoing(news);
    OneOutgoing(SendPacket(p));
    OutgoingAppend([news], [SendPacket(p)]);
    assert [news, SendPacket(p)] == [news] + [SendPacket(p)];
  }

  lemma TakeSends(l: Listener, a: Arrival)
    requires Decodable(l, a.packet)
    ensures var o := Take(l, a.replies, a.packet);
            Outgoing(o.effects) == Sends(a, |l.table|) && |o.listener.table| == Grown(a, |l.table|)
  {
    hide Decodable, Take, Intact, Outgoing, AnswerTo, AcknowledgementOf, ParseSchema;
    var p, rs := a.packet, a.replies;
    OneOutgoing(SendPacket([]));
    if !Intact(p) {
      DamageIsCounted(l, rs, p);
    } else {
      IntactHasHeader(p);
      if p[0] / 0x20 == 0 {
        BroadcastsAreAcknowledged(l, rs, p);
        TwoOutgoing(OnBroadcast(p[1], ParseSchema(p, 2).value.value), AcknowledgementOf(p[1]));
      } else if p[0] / 0x20 == 4 {
        DataIsNotAnswered(l, rs, p);
      } else if p[0] / 0x20 % 4 == 3 {
        RequestsAreAnswered(l, rs, p);
        if rs != [] { OneOutgoing(SendPacket(AnswerTo(rs))); }
      } else {
        OnlyRequestsAreAnswered(l, rs, p);
      }
    }
  }

  lemma IntactHasHeader(p: Packet)
    requires Intact(p)
    ensures |p| >= 5
  {
  }

  // In every run the packets sent are exactly, and in this order: the acknowledgement of each intact
  // broadcast that is not ahead of the table, and the answer to each intact request that finds something
  // queued. It can be told from the arrivals alone.
  lemma {:induction false} RunSendsExactly(l: Listener, run: seq<Arrival>)
    requires RunDecodable(l, run)
    ensures Outgoing(RunAll(l, run).effects) == AllSends(run, |l.table|)
    decreases |run|
  {
    hide RunDecodable, RunAll, Take, Decodable, Sends, Grown, PacketIn;
    if run == [] {
      RunNothing(l);
    } else {
      RunUnfold(l, run);
      var o := Take(l, run[0].replies, run[0].packet);
      TakeSends(l, run[0]);
      RunSendsExactly(o.listener, run[1..]);
      OutgoingAppend(o.effects, RunAll(o.listener, run[1..]).effects);
    }
  }

  // Every broadcast callback is followed at once by its acknowledgement, and no acknowledgement is sent
  // but so.
  predicate Paired(effects: seq<Effect>) {
    && (forall i | 0 <= i < |effects| && effects[i].OnBroadcast? ::
          i + 1 < |effects| && effects[i + 1] == SendPacket(AcknowledgementOf(effects[i].id)))
    && (forall i | 0 <= i < |effects| && IsAcknowledge(effects[i]) ::
          i > 0 && effects[i - 1].OnBroadcast? && effects[i] == SendPacket(AcknowledgementOf(effects[i - 1].id)))
  }

  lemma PairedAppend(a: seq<Effect>, b: seq<Effect>)
    requires Paired(a) && Paired(b)
    ensures Paired(a + b)
  {
    hide IsAcknowledge, AcknowledgementOf;
    var e := a + b;
    forall i | 0 <= i < |e| && IsAcknowledge(e[i])
      ensures i > 0 && e[i - 1].OnBroadcast? && e[i] == SendPacket(AcknowledgementOf(e[i - 1].id))
    {
      if i >= |a| {
        assert e[i] == b[i - |a|];
      } else {
        assert e[i] == a[i];
      }
    }
  }

  lemma TakePaired(l: Listener, a: Arrival)
    requires Decodable(l, a.packet)
    ensures Paired(Take(l, a.replies, a.packet).effects)
  {
    hide Decodable, Take, Intact, AnswerTo, AcknowledgementOf, IsAcknowledge, ParseSchema;
    var p, rs := a.packet, a.replies;
    if !Intact(p) {
      DamageIsCounted(l, rs, p);
    } else {
      IntactHasHeader(p);
      if p[0] / 0x20 == 0 {
        BroadcastsAreAcknowledged(l, rs, p);
        NotAcknowledged(p[1], ParseSchema(p, 2).value.value, Number(0));
      } else if p[0] / 0x20 == 4 {
        DataEffects(l, rs, p);
      } else if p[0] / 0x20 % 4 == 3 {
        RequestsAreAnswered(l, rs, p);
        if rs != [] { AnswerIsNone(rs); }
      } else {
        OnlyRequestsAreAnswered(l, rs, p);
      }
    }
  }

  lemma NotAcknowledged(id: Byte, s: Schema, v: Value)
    ensures !IsAcknowledge(OnBroadcast(id, s)) && !IsAcknowledge(OnData(id, v))
  {
  }

  lemma AnswerIsNone(replies: seq<Reply>)
    requires replies != []
    ensures !IsAcknowledge(SendPacket(AnswerTo(replies)))
  {
    hide Seal, EncodeValue, ResponsePacket, IsAcknowledge;
    var r := replies[0];
    ResponseOpens(|replies|, r.id, r.schema, r.value);
    ResponseSent(|replies|, r.id, r.schema, r.value);
  }

  lemma DataEffects(l: Listener, replies: seq<Reply>, pac: Packet)
    requires Decodable(l, pac) && Intact(pac) && pac[0] / 0x20 == 4
    ensures Paired(Take(l, replies, pac).effects)
  {
    hide Validate, DecodeHeaderByte, Decodable, Take, Seal, ReadValue, IsAcknowledge, AcknowledgementOf;
    IntactPasses(pac);
    HeaderCodes(pac[0]);
    DecodableCases(l, pac);
    TakesData(l, replies, pac);
    if Known(l.table, pac[1]) {
      NotAcknowledged(pac[1], Absent, ReadValue(l.table[pac[1]].schema, pac, 2).value.value);
    }
  }

  // In every run an acknowledgement goes out directly after the callback for its broadcast.
  lemma {:induction false} AcknowledgementsFollow(l: Listener, run: seq<Arrival>)
    requires RunDecodable(l, run)
    ensures Paired(RunAll(l, run).effects)
    decreases |run|
  {
    hide RunDecodable, RunAll, Take, Decodable, Paired;
    if run == [] {
      RunNothing(l);
      NothingPaired();
    } else {
      RunUnfold(l, run);
      var o := Take(l, run[0].replies, run[0].packet);
      TakePaired(l, run[0]);
      AcknowledgementsFollow(o.listener, run[1..]);
      PairedAppend(o.effects, RunAll(o.listener, run[1..]).effects);
    }
  }

  lemma NothingPaired()
    ensures Paired([])
  {
  }

  // ----- as the far end reads it

  lemma SendsMeant(a: Arrival, n: nat)
    ensures forall p | p in Sends(a, n) :: StepMeant(p, a)
  {
    hide Acknowledges, IsAnswer, AnswerTo, AcknowledgementOf, ResponsePacket, AcknowledgePacket, Seal;
    var p := a.packet;
    if Intact(p) {
      AcknowledgeMeant(p[1]);
      AcknowledgementIs(p[1]);
      if a.replies != [] {
        ResponseMeant(a.replies);
        AnswerIs(a.replies);
      }
    }
  }

  lemma AcknowledgementIs(id: Byte)
    ensures AcknowledgePacket(id) == AcknowledgementOf(id)
  {
    hide Seal;
    AcknowledgeOpens(id);
    assert [0x20, id] + [] == [0x20, id];
  }

  lemma AnswerIs(replies: seq<Reply>)
    requires replies != []
    ensures var r := replies[0];
            ResponsePacket(|replies|, r.id, r.schema, r.value) == AnswerTo(replies)
  {
    hide Seal, EncodeValue, ResponsePacket;
    var r := replies[0];
    ResponseOpens(|replies|, r.id, r.schema, r.value);
  }

  // Every packet a run sends is one the far end can make sense of.
  lemma RunSends(l: Listener, run: seq<Arrival>)
    requires RunDecodable(l, run)
    ensures forall p | p in Outgoing(RunAll(l, run).effects) :: Meant(p, run)
  {
    hide RunDecodable, RunAll, Outgoing, AllSends, Meant;
    RunSendsExactly(l, run);
    AllSendsMeant(run, |l.table|);
  }

  lemma {:induction false} AllSendsMeant(run: seq<Arrival>, n: nat)
    ensures forall p | p in AllSends(run, n) :: Meant(p, run)
    decreases |run|
  {
    hide Sends, Grown, Acknowledges, IsAnswer, IsRequest;
    if run == [] {
    } else {
      SendsMeant(run[0], n);
      AllSendsMeant(run[1..], Grown(run[0], n));
      forall p | p in AllSends(run, n)
        ensures Meant(p, run)
      {
        if p in AllSends(run[1..], Grown(run[0], n)) {
          MeantLater(p, run);
        }
      }
    }
  }

  lemma MeantLater(p: Packet, run: seq<Arrival>)
    requires run != [] && Meant(p, run[1..])
    ensures Meant(p, run)
  {
    hide Acknowledges, IsAnswer, IsRequest;
    if !Acknowledges(p) {
      var i :| 0 <= i < |run| - 1 && IsRequest(run[1..][i].packet) && IsAnswer(p, run[1..][i].replies);
      assert IsRequest(run[i + 1].packet) && IsAnswer(p, run[i + 1].replies);
    }
  }

  // ----- over the wire

  function Plain(packets: seq<Packet>): (sent: seq<Sent>)
    ensures |sent| == |packets| && forall i | 0 <= i < |packets| :: sent[i] == Sent([], packets[i])
  {
    seq(|packets|, i requires 0 <= i < |packets| => Sent([], packets[i]))
  }

  lemma NothingBefore(bytes: seq<Byte>)
    ensures [] + bytes == bytes
  {
  }

  lemma PlainFirst(packets: seq<Packet>)
    requires packets != [] && packets[0] != []
    ensures OnLine(Plain(packets), Frame) == Encode(packets[0]) + OnLine(Plain(packets[1..]), Frame)
    ensures Heard(Plain(packets)) == [packets[0]] + Heard(Plain(packets[1..]))
  {
    hide Frame;
    assert Plain(packets)[1..] == Plain(packets[1..]);
    JunkThenDelimiter([]);
    NothingPending();
    NothingBefore(Encode(packets[0]));
  }

  lemma {:induction false} PlainHeard(packets: seq<Packet>)
    requires forall i | 0 <= i < |packets| :: packets[i] != []
    ensures Heard(Plain(packets)) == packets
  {
    if packets == [] {
    } else {
      PlainFirst(packets);
      PlainHeard(packets[1..]);
      assert packets == [packets[0]] + packets[1..];
    }
  }

  // send_packet for each packet in turn, the UART taking all bytes.
  method Transmit(dev: VDBDevice, packets: seq<Packet>)
    requires forall i | 0 <= i < |packets| :: packets[i] != []
    modifies dev`line
    ensures dev.line == old(dev.line) + OnLine(Plain(packets), Frame)
  {
    hide Encode, Frame, OnLine;
    var i := 0;
    assert packets[0..] == packets;
    while i < |packets|
      invariant 0 <= i <= |packets|
      invariant dev.line + OnLine(Plain(packets[i..]), Frame) == old(dev.line) + OnLine(Plain(packets), Frame)
    {
      var p := packets[i];
      PlainFirst(packets[i..]);
      assert packets[i..][1..] == packets[i + 1..];
      Associative(dev.line, Encode(p), OnLine(Plain(packets[i + 1..]), Frame));
      var out := CobsEncode(p);
      var _ := dev.SendPacket(p, |out|);
      i := i + 1;
    }
    NothingOnLine();
    assert packets[i..] == [];
  }

  lemma NothingOnLine()
    ensures OnLine(Plain([]), Frame) == []
  {
  }

  lemma AcknowledgeEncodable(p: Packet)
    requires Acknowledges(p)
    ensures Encodable(p)
  {
    ShortPacketsEncodable(p);
  }

  // What a run sends arrives: cut into frames and decoded at the far end, the line that Transmit fills
  // gives exactly the acknowledgements and responses of the run, in order, each read as it was meant.
  // Acknowledgements always fit the stuffing; responses must.
  lemma AnswersArrive(l: Listener, run: seq<Arrival>)
    requires RunDecodable(l, run)
    requires forall p | p in Outgoing(RunAll(l, run).effects) && !Acknowledges(p) :: Encodable(p)
    ensures var packets := Outgoing(RunAll(l, run).effects);
            && Decoded(Split([], OnLine(Plain(packets), Frame)).frames) == packets
            && (forall p | p in packets :: p != [] && Meant(p, run))
  {
    hide RunDecodable, RunAll, Outgoing, Split, Decoded, OnLine, Encodable, Faultless, Heard;
    RunSends(l, run);
    var packets := Outgoing(RunAll(l, run).effects);
    forall i | 0 <= i < |packets|
      ensures packets[i] != [] && Faultless(Frame, packets[i])
    {
      assert Meant(packets[i], run);
      NotEmpty(packets[i], run);
      if Acknowledges(packets[i]) { AcknowledgeEncodable(packets[i]); }
      FirmwareFaultless(packets[i]);
    }
    PlainHeard(packets);
    SplitLine(Plain(packets), Frame);
  }

  lemma NotEmpty(p: Packet, run: seq<Arrival>)
    requires Meant(p, run)
    ensures p != []
  {
    hide Validate, DecodeHeaderByte, ReadValue, EncodeValue, Conforms, TextsNulFree;
  }
}
