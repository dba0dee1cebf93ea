/**
 * The listener looks a channel up by position. When is the entry at position id the one announced as id,
 * and what happens to values when it is not?
 */
module Positions {
  import opened Bytes
  import opened Integrity
  import opened Codec
  import opened Protocol
  import opened Registry
  import opened RegistryTheory

  predicate Positional(table: seq<Entry>) {
    forall i | 0 <= i < |table| :: table[i].id == i
  }

  // A broadcast of an id the table already holds.
  predicate Repeats(table: seq<Entry>, pac: Packet) {
    Passes(pac, BROADCAST) && pac[1] < |table|
  }

  // ----- one packet

  lemma BroadcastMoves(l: Listener, replies: seq<Reply>, pac: Packet)
    requires Decodable(l, pac) && Passes(pac, BROADCAST)
    ensures ParseSchema(pac, 2).Some?
    ensures Take(l, replies, pac).listener.table ==
            if pac[1] <= |l.table| then l.table + [Entry(pac[1], ParseSchema(pac, 2).value.value)] else l.table
  {
    hide Decodable, Take, ParseSchema, Validate, DecodeHeaderByte;
    DecodableCases(l, pac);
    TakesBroadcast(l, replies, pac);
  }

  lemma OthersStay(l: Listener, replies: seq<Reply>, pac: Packet)
    requires Decodable(l, pac) && !Passes(pac, BROADCAST)
    ensures Take(l, replies, pac).listener.table == l.table
  {
    hide Decodable, Take, ParseSchema, ReadValue, Validate, DecodeHeaderByte, TakeBroadcast;
    if Validate(pac) != Ok {
      TakesInvalid(l, replies, pac);
    } else {
      DecodableCases(l, pac);
      var header := DecodeHeaderByte(pac[0]);
      if header == DATA {
        TakesData(l, replies, pac);
      } else {
        OtherFunction(header);
        TakesOther(l, replies, pac, header.func);
      }
    }
  }

  // From a positional table, one packet breaks the property if and only if it repeats an id.
  lemma StepKeepsPositionalIff(l: Listener, replies: seq<Reply>, pac: Packet)
    requires Decodable(l, pac) && Positional(l.table)
    ensures Positional(Take(l, replies, pac).listener.table) <==> !Repeats(l.table, pac)
  {
    hide Decodable, Take, Passes;
    if Passes(pac, BROADCAST) {
      BroadcastMoves(l, replies, pac);
      var after := Take(l, replies, pac).listener.table;
      if pac[1] <= |l.table| {
        assert after[|l.table|].id == pac[1];
        assert forall i | 0 <= i < |l.table| :: after[i] == l.table[i];
      }
    } else {
      OthersStay(l, replies, pac);
    }
  }

  // ----- runs

  // Where a table breaks it stays broken, for entries are never taken back.
  lemma StaysBroken(l: Listener, run: seq<Arrival>)
    requires RunDecodable(l, run) && !Positional(l.table)
    ensures !Positional(RunAll(l, run).listener.table)
  {
    hide RunDecodable, RunAll, Announced, Acknowledged, IdsWithinTable;
    RunKeeps(l, run);
    var after := RunAll(l, run).listener.table;
    var i :| 0 <= i < |l.table| && l.table[i].id != i;
    assert after[i] == l.table[i];
  }

  // In every run from a positional table: position is id at the end if and only if no intact broadcast
  // of the run names an id counted before. It can be told from the packets alone.
  lemma {:induction false} PositionalIff(l: Listener, run: seq<Arrival>)
    requires RunDecodable(l, run) && Positional(l.table)
    ensures Positional(RunAll(l, run).listener.table) <==> NoneRepeated(BroadcastIds(run), |l.table|)
    decreases |run|
  {
    hide RunDecodable, RunAll, Take, Decodable, Positional, Passes;
    if run == [] {
      RunNothing(l);
    } else {
      RunUnfold(l, run);
      var a, rest := run[0], run[1..];
      assert run == [a] + rest;
      IdsOf(a, rest);
      StepKeepsPositionalIff(l, a.replies, a.packet);
      var next := Take(l, a.replies, a.packet).listener;
      if Passes(a.packet, BROADCAST) {
        BroadcastMoves(l, a.replies, a.packet);
        OneMoreId(a.packet[1], BroadcastIds(rest), |l.table|);
      } else {
        OthersStay(l, a.replies, a.packet);
        assert [] + BroadcastIds(rest) == BroadcastIds(rest);
      }
      if Positional(next.table) {
        PositionalIff(next, rest);
      } else {
        StaysBroken(next, rest);
      }
    }
  }

  // ----- what the position decides

  // A data message is read with the schema at its id's position, whoever announced it.
  lemma DataReadByPosition(l: Listener, replies: seq<Reply>, pac: Packet)
    requires Decodable(l, pac) && Passes(pac, DATA)
    ensures Known(l.table, pac[1]) ==> ReadValue(l.table[pac[1]].schema, pac, 2).Some?
    ensures Take(l, replies, pac).effects ==
            if Known(l.table, pac[1])
            then [OnData(pac[1], ReadValue(l.table[pac[1]].schema, pac, 2).value.value)] else []
  {
    hide Decodable, Take, ReadValue, Validate, DecodeHeaderByte, Known;
    DecodableCases(l, pac);
    TakesData(l, replies, pac);
  }

  // A data message is read with this schema: one callback with the values read, or none without a schema.
  predicate ReadWith(l: Listener, replies: seq<Reply>, pac: Packet, s: Schema)
    requires Decodable(l, pac) && |pac| >= MIN_PACKET_SIZE
  {
    && (s != Absent ==> ReadValue(s, pac, 2).Some?)
    && Take(l, replies, pac).effects ==
       (if s != Absent then [OnData(pac[1], ReadValue(s, pac, 2).value.value)] else [])
  }

  // The schema announced for an id, by the first broadcast callback for it.
  function AnnouncedFor(news: seq<Entry>, id: Byte): Schema {
    if news == [] then Absent
    else if news[0].id == id then news[0].schema
    else AnnouncedFor(news[1..], id)
  }

  lemma {:induction false} AnnouncedAt(table: seq<Entry>, id: Byte, n: nat)
    requires forall i | 0 <= i < |table| :: table[i].id == n + i
    ensures AnnouncedFor(table, id) == if n <= id < n + |table| then table[id - n].schema else Absent
    decreases |table|
  {
    if table == [] {
    } else {
      assert table[0].id == n;
      AnnouncedAt(table[1..], id, n + 1);
    }
  }

  // While no broadcast has repeated an id, every data message is read with the schema announced for its
  // id, and passed over if none was.
  lemma CallbacksUseOwnSchema(run: seq<Arrival>, k: nat)
    requires RunDecodable(NEW_LISTENER, run) && k < |run|
    requires NoneRepeated(BroadcastIds(run[..k]), 0)
    ensures RunDecodable(NEW_LISTENER, run[..k])
    ensures var before, pac := RunAll(NEW_LISTENER, run[..k]), run[k].packet;
            && Decodable(before.listener, pac)
            && (Passes(pac, DATA) ==>
                  ReadWith(before.listener, run[k].replies, pac, AnnouncedFor(Announced(before.effects), pac[1])))
  {
    hide RunDecodable, RunAll, Take, Decodable, Announced, Acknowledged, ReadValue, NoneRepeated, AnnouncedFor,
         Validate, DecodeHeaderByte;
    assert run[..k] + run[k..] == run;
    RunSplit(NEW_LISTENER, run[..k], run[k..]);
    var before := RunAll(NEW_LISTENER, run[..k]);
    RunUnfold(before.listener, run[k..]);
    PositionalIff(NEW_LISTENER, run[..k]);
    RunKeeps(NEW_LISTENER, run[..k]);
    assert before.listener.table[0..] == before.listener.table;
    if Passes(run[k].packet, DATA) {
      DataReadByPosition(before.listener, run[k].replies, run[k].packet);
      AnnouncedAt(before.listener.table, run[k].packet[1], 0);
    }
  }

  // Once an id below n has been broadcast again to a table of n entries, entry n is that broadcast's for
  // good: in every later state, values for channel n are read with its schema.
  lemma RepeatMisreads(l: Listener, again: Arrival, run: seq<Arrival>, replies: seq<Reply>, pac: Packet)
    requires RunDecodable(l, [again] + run) && Repeats(l.table, again.packet)
    ensures ParseSchema(again.packet, 2).Some?
    ensures var after, s := RunAll(l, [again] + run).listener, ParseSchema(again.packet, 2).value.value;
            && |l.table| < |after.table| && after.table[|l.table|] == Entry(again.packet[1], s)
            && (Decodable(after, pac) && Passes(pac, DATA) && pac[1] == |l.table| ==> ReadWith(after, replies, pac, s))
  {
    hide RunDecodable, RunAll, Take, Decodable, Announced, Acknowledged, ReadValue, ParseSchema, IdsWithinTable,
         Validate, DecodeHeaderByte;
    RunUnfold(l, [again] + run);
    assert ([again] + run)[1..] == run;
    BroadcastMoves(l, again.replies, again.packet);
    var next := Take(l, again.replies, again.packet).listener;
    RunKeeps(next, run);
    var after := RunAll(l, [again] + run).listener;
    assert after.table[|l.table|] == next.table[|l.table|];
    if Decodable(after, pac) && Passes(pac, DATA) {
      DataReadByPosition(after, replies, pac);
    }
  }

  // ----- a run that goes wrong

  const SHORT := Leaf([], Uint8)
  const LONG := Leaf([], Uint16)

  // Channel 0 announced twice, then channel 1, whose type is wider.
  function AnnouncedTwice(): seq<Message> {
    [Announcement(0, SHORT), Announcement(0, SHORT), Announcement(1, LONG)]
  }

  lemma TwiceInTable()
    ensures AllReadable([], AnnouncedTwice()) && |AnnouncedTwice()| == 3
    ensures TableAfterAll([], AnnouncedTwice()) == [Entry(0, SHORT), Entry(0, SHORT), Entry(1, LONG)]
    ensures DeliveredAll([], AnnouncedTwice()) == []
  {
    var ms := AnnouncedTwice();
    assert ms[1..] == [Announcement(0, SHORT), Announcement(1, LONG)];
    assert ms[1..][1..] == [Announcement(1, LONG)];
    assert ms[1..][1..][1..] == [];
  }

  lemma LongImage()
    ensures EncodeValue(LONG, Number(0x0102)) == [2, 1]
  {
    assert LittleEndian(1, 1) == [1];
  }

  lemma ReadShort(b: Packet, at: nat)
    requires at < |b|
    ensures ReadValue(SHORT, b, at) == Some(Parsed(Number(b[at]), at + 1))
  {
    assert b[at..at + 1] == [b[at]] && [b[at]][1..] == [];
    assert FromLittleEndian([b[at]]) == b[at];
  }

  lemma ShortOfLong()
    ensures ReadValue(SHORT, DataPacket(1, LONG, Number(0x0102)), 2) == Some(Parsed(Number(2), 3))
  {
    hide Seal, MakeHeaderByte, ReadValue, EncodeValue, Validate, DecodeHeaderByte;
    LongImage();
    SealedPacket(DATA, [MakeHeaderByte(DATA), 1], [2, 1]);
    var pac := DataPacket(1, LONG, Number(0x0102));
    assert pac[2..4] == [2, 1] && pac[2] == pac[2..4][0];
    ReadShort(pac, 2);
  }

  const WIDE := Values(1, LONG, Number(0x0102))

  lemma PacketsOneMore(ms: seq<Message>, m: Message)
    ensures Packets(ms + [m]) == Packets(ms) + [PacketOf(m)]
  {
    hide PacketOf;
    PacketsAppend(ms, [m]);
    assert [m][1..] == [];
  }

  // A run of messages and one more packet after them.
  lemma OnePacketMore(run: seq<Arrival>, ms: seq<Message>, m: Message)
    requires AllReadable([], ms) && Carries(run, Packets(ms + [m]))
    ensures |run| == |ms| + 1 && run == run[..|ms|] + [run[|ms|]] && run[|ms|].packet == PacketOf(m)
    ensures RunDecodable(NEW_LISTENER, run[..|ms|])
    ensures var before := RunAll(NEW_LISTENER, run[..|ms|]);
            && before.listener.table == TableAfterAll([], ms)
            && Deliveries(before.effects) == DeliveredAll([], ms)
  {
    hide RunDecodable, RunAll, Deliveries, AllReadable, TableAfterAll, DeliveredAll, Packets, PacketOf, Take, Decodable;
    PacketsOneMore(ms, m);
    MessagesUnderstood(NEW_LISTENER, run[..|ms|], ms);
  }

  // The peer sends 0x0102 on channel 1; the callback for channel 1 is given 2.
  lemma WrongValueDelivered(run: seq<Arrival>)
    requires Carries(run, Packets(AnnouncedTwice() + [WIDE]))
    ensures RunDecodable(NEW_LISTENER, run)
    ensures Deliveries(RunAll(NEW_LISTENER, run).effects) == [Delivery(1, Number(2))]
  {
    hide RunDecodable, RunAll, Deliveries, AllReadable, TableAfterAll, DeliveredAll, AnnouncedTwice, Packets, PacketOf,
         Carries;
    TwiceInTable();
    OnePacketMore(run, AnnouncedTwice(), WIDE);
    var first, a := run[..3], run[3];
    var before := RunAll(NEW_LISTENER, first);
    ShortTaken(before.listener, a);
    RunAppend(NEW_LISTENER, first, [a]);
    DeliveriesAppend(before.effects, RunAll(before.listener, [a]).effects);
  }

  lemma ShortDelivered(l: Listener, replies: seq<Reply>)
    requires |l.table| == 3 && l.table[1].schema == SHORT
    ensures var pac := DataPacket(1, LONG, Number(0x0102));
            Decodable(l, pac) && Take(l, replies, pac) == Outcome(l, [OnData(1, Number(2))], false)
  {
    hide DataPacket, ReadValue, Take, Decodable, Passes, EncodeValue, ParseSchema, Validate,
         ResponsePacket, TakeBroadcast;
    ShortOfLong();
    DataHolds(1, LONG, Number(0x0102));
    WrittenPacketsPass(1, LONG, Number(0x0102), 0);
    TakesData(l, replies, DataPacket(1, LONG, Number(0x0102)));
  }

  lemma ShortTaken(l: Listener, a: Arrival)
    requires l.table == [Entry(0, SHORT), Entry(0, SHORT), Entry(1, LONG)]
    requires a.packet == PacketOf(WIDE)
    ensures RunDecodable(l, [a])
    ensures Deliveries(RunAll(l, [a]).effects) == [Delivery(1, Number(2))]
  {
    hide RunDecodable, RunAll, Take, Decodable, Deliveries, DataPacket;
    ShortDelivered(l, a.replies);
    RunNothing(l);
    RunFold(l, a, []);
    assert [a] + [] == [a] && [OnData(1, Number(2))] + [] == [OnData(1, Number(2))];
    OneDelivery(OnData(1, Number(2)));
  }
}
