/**
 * The whole link: the peer's acts, serialised, checksummed, stuffed, sent over a noisy line in
 * arbitrary chunks, framed, decoded, validated and dispatched.
 */
module EndToEnd {
  import opened Bytes
  import opened Integrity
  import opened Cobs
  import opened CobsTheory
  import opened Link
  import opened Codec
  import opened Parts
  import opened Registry
  import opened RegistryTheory
  import opened Subsequences

  // Line noise is told from packets by its checksum.
  predicate AllInvalid(packets: seq<Packet>) {
    forall i | 0 <= i < |packets| :: Validate(packets[i]) != Ok
  }

  function AsDamaged(packets: seq<Packet>): (ms: seq<Message>)
    ensures |ms| == |packets|
  {
    if packets == [] then [] else [Damaged(packets[0])] + AsDamaged(packets[1..])
  }

  lemma {:induction false} DamageOnly(packets: seq<Packet>, known: seq<Schema>)
    requires AllInvalid(packets)
    ensures Faithful(AsDamaged(packets), known) && AllKnown(AsDamaged(packets), known) == known
    ensures Packets(AsDamaged(packets)) == packets && Updates(AsDamaged(packets)) == []
    ensures AnnouncedIds(AsDamaged(packets)) == []
  {
    hide Validate;
    if packets == [] {
    } else {
      DamageOnly(packets[1..], known);
      assert packets == [packets[0]] + packets[1..];
    }
  }

  // The packets on the line are those of the messages.
  predicate Bears(sent: seq<Sent>, ms: seq<Message>) {
    |sent| == |ms| && forall i | 0 <= i < |sent| :: sent[i].packet == PacketOf(ms[i])
  }

  // No piece of noise passes for a packet.
  predicate Quiet(sent: seq<Sent>) {
    forall i | 0 <= i < |sent| :: AllInvalid(Decoded(JunkFrames(sent[i].noise)))
  }

  // The peer's messages and the noise between them, as one list.
  function Weave(sent: seq<Sent>, ms: seq<Message>): seq<Message>
    requires |sent| == |ms|
  {
    if sent == [] then []
    else AsDamaged(Decoded(JunkFrames(sent[0].noise))) + ([ms[0]] + Weave(sent[1..], ms[1..]))
  }

  // Two lists of messages that amount to the same: what the peer sent, and that with noise among it.
  ghost predicate Same(a: seq<Message>, b: seq<Message>, known: seq<Schema>) {
    && Faithful(a, known) && Faithful(b, known) && AllKnown(a, known) == AllKnown(b, known)
    && Updates(a) == Updates(b) && AnnouncedIds(a) == AnnouncedIds(b)
  }

  lemma SameAfter(junk: seq<Packet>, m: Message, a: seq<Message>, b: seq<Message>, known: seq<Schema>)
    requires AllInvalid(junk) && Allowed(m, known) && Same(a, b, KnownAfter(m, known))
    ensures Same(AsDamaged(junk) + ([m] + a), [m] + b, known)
  {
    hide Faithful, AllInvalid, Allowed, PacketOf, UpdateOf, KnownAfter, Packets, Updates, AllKnown, AnnouncedIds,
         AnnouncedId;
    OneMessage(m, a, known);
    OneMessage(m, b, known);
    DamageOnly(junk, known);
    FaithfulAppend(AsDamaged(junk), [m] + a, known);
    assert [] + Updates([m] + a) == Updates([m] + a) && [] + AnnouncedIds([m] + a) == AnnouncedIds([m] + a);
  }

  // The packets heard are part of the peer's messages with the noise put among them: all of them, unless
  // the line destroyed some.
  lemma {:induction false} Woven(sent: seq<Sent>, kept: seq<Message>, ms: seq<Message>, known: seq<Schema>)
    returns (full: seq<Message>)
    requires Faithful(ms, known) && Subsequence(kept, ms) && Bears(sent, kept) && Quiet(sent)
    ensures Same(full, ms, known) && Subsequence(Weave(sent, kept), full)
    ensures kept == ms ==> full == Weave(sent, kept)
    ensures Packets(Weave(sent, kept)) == Heard(sent)
    decreases |ms|
  {
    hide AllInvalid, Allowed, PacketOf, UpdateOf, KnownAfter, Packets, Updates, AllKnown, Decoded, JunkFrames, Same,
         AnnouncedIds, AsDamaged;
    if ms == [] {
      full := [];
      NothingSame(known);
      assert sent == [] && Weave(sent, kept) == [];
    } else {
      var m, rest := ms[0], ms[1..];
      assert ms == [m] + rest;
      if kept != [] && kept[0] == m {
        var junk := Decoded(JunkFrames(sent[0].noise));
        var more := Woven(sent[1..], kept[1..], rest, KnownAfter(m, known));
        SameAfter(junk, m, more, rest, known);
        WovenPackets(junk, m, Weave(sent[1..], kept[1..]));
        full := AsDamaged(junk) + ([m] + more);
        SubsequenceAfter([m], Weave(sent[1..], kept[1..]), more);
        SubsequenceAfter(AsDamaged(junk), [m] + Weave(sent[1..], kept[1..]), [m] + more);
      } else {
        var more := Woven(sent, kept, rest, KnownAfter(m, known));
        NoDamage([m] + more);
        SameAfter([], m, more, rest, known);
        full := [m] + more;
        assert full[1..] == more;
        SubsequenceSkips(Weave(sent, kept), full);
      }
    }
  }

  lemma NothingSame(known: seq<Schema>)
    ensures Same([], [], known) && Packets([]) == []
  {
  }

  lemma NoDamage(ms: seq<Message>)
    ensures AsDamaged([]) + ms == ms && AllInvalid([])
  {
  }

  lemma WovenPackets(junk: seq<Packet>, m: Message, rest: seq<Message>)
    requires AllInvalid(junk)
    ensures Packets(AsDamaged(junk) + ([m] + rest)) == junk + [PacketOf(m)] + Packets(rest)
  {
    hide PacketOf, AllInvalid, Packets, Faithful, Updates, AllKnown, AnnouncedIds, UpdateOf, KnownAfter, Allowed,
         AnnouncedId, AsDamaged;
    DamageOnly(junk, []);
    OneMessage(m, rest, []);
    PacketsAppend(AsDamaged(junk), [m] + rest);
    assert junk + ([PacketOf(m)] + Packets(rest)) == junk + [PacketOf(m)] + Packets(rest);
  }

  // What a fresh listener has done with the packets that reached it, against what the peer sent.
  ghost predicate HeardRight(run: seq<Arrival>, ms: seq<Message>) {
    && RunDecodable(NEW_LISTENER, run)
    && Subsequence(Deliveries(RunAll(NEW_LISTENER, run).effects), Updates(ms))
    && Mirrors(RunAll(NEW_LISTENER, run).listener.table, AllKnown(ms, []))
  }

  ghost predicate HeardAll(run: seq<Arrival>, ms: seq<Message>) {
    && HeardRight(run, ms)
    && Deliveries(RunAll(NEW_LISTENER, run).effects) == Updates(ms)
    && |RunAll(NEW_LISTENER, run).listener.table| == |AllKnown(ms, [])|
  }

  // The line's bytes, as a receiver with an endless queue would cut and decode them.
  lemma LineIsWoven(sent: seq<Sent>, tail: seq<Byte>, stuff: Stuffing, kept: seq<Message>, ms: seq<Message>)
    returns (full: seq<Message>)
    requires Faithful(ms, []) && Subsequence(kept, ms) && Bears(sent, kept) && AllFaultless(stuff, sent)
    requires Quiet(sent) && AllInvalid(Decoded(Split([], tail).frames))
    ensures Same(full, ms, [])
    ensures var heard := Decoded(Split([], OnLine(sent, stuff) + tail).frames);
            Subsequence(heard, Packets(full)) && (kept == ms ==> heard == Packets(full))
  {
    hide Faithful, AllFaultless, Quiet, AllInvalid, Decoded, Split, OnLine, Heard, Packets, Updates, AllKnown, PacketOf,
         Subsequence, AnnouncedIds, Weave;
    var last := Decoded(Split([], tail).frames);
    var woven := Woven(sent, kept, ms, []);
    LineThenTail(sent, tail, stuff);
    KeptPackets(Weave(sent, kept), woven);
    DamageOnly(last, AllKnown(ms, []));
    FaithfulAppend(woven, AsDamaged(last), []);
    SubsequenceBefore(Heard(sent), Packets(woven), last);
    full := woven + AsDamaged(last);
  }

  // The whole link, under every schedule of the two tasks. Whatever noise falls before, between and after
  // the packets, whichever packets the line destroys, however the driver cuts the stream, and whichever
  // frames a full queue refuses: the listener never runs past a packet, every update delivered is one the
  // peer sent, with its id and its value tree, in order, and the table is a beginning of the peer's
  // channels. If the line destroyed no packet, no frame met a full queue and the queue is empty again, no
  // update is missing and the table is complete. The peer announces each channel once, or again only when
  // no earlier announcement of it came through.
  lemma PeerIsHeard(turns: seq<Turn>, sent: seq<Sent>, tail: seq<Byte>, stuff: Stuffing,
                    kept: seq<Message>, ms: seq<Message>, run: seq<Arrival>)
    requires Faithful(ms, []) && Subsequence(kept, ms) && Bears(sent, kept) && AllFaultless(stuff, sent)
    requires Quiet(sent) && AllInvalid(Decoded(Split([], tail).frames))
    requires Line(turns) == OnLine(sent, stuff) + tail
    requires Carries(run, Decoded(TakeTurns(IDLE, turns).handled))
    requires OnceEach(ms, []) || NoneRepeated(BroadcastIds(run), 0)
    ensures HeardRight(run, ms)
    ensures var t := TakeTurns(IDLE, turns);
            kept == ms && t.refused == 0 && t.queue == [] ==> HeardAll(run, ms)
  {
    hide Faithful, Bears, AllFaultless, Quiet, AllInvalid, Decoded, Split, OnLine, Line, Packets, Updates, AllKnown,
         TakeTurns, Subsequence, Carries, Deliveries, RunAll, RunDecodable, NoneRepeated, AnnouncedIds, BroadcastIds;
    var t, frames := TakeTurns(IDLE, turns), Split([], Line(turns)).frames;
    var full := LineIsWoven(sent, tail, stuff, kept, ms);
    Scheduled(turns);
    SubsequencePrefix(t.handled, t.queue, frames);
    SubsequenceDecoded(t.handled, frames);
    SubsequenceTransitive(Decoded(t.handled), Decoded(frames), Packets(full));
    MirrorsNothing();
    RunDelivers(NEW_LISTENER, run, Decoded(t.handled), full, []);
    assert t.handled + [] == t.handled;
  }

  lemma MirrorsNothing()
    ensures Mirrors([], [])
  {
  }

  // With the firmware's stuffing the packets must be encodable, which short ones all are; with the
  // corrected one they need only not be empty, which no writer's packet is.
  lemma WrittenPacketsCarried(sent: seq<Sent>)
    requires forall i | 0 <= i < |sent| :: sent[i].packet != []
    ensures AllFaultless(SoundFrame, sent)
    ensures AllFaultless(Frame, sent) <==> forall i | 0 <= i < |sent| :: Encodable(sent[i].packet)
    ensures (forall i | 0 <= i < |sent| :: |sent[i].packet| <= MAX_BLOCK) ==> AllFaultless(Frame, sent)
  {
    hide Encodable, Faultless;
    forall i | 0 <= i < |sent|
      ensures Faultless(SoundFrame, sent[i].packet)
      ensures Faultless(Frame, sent[i].packet) <==> Encodable(sent[i].packet)
      ensures |sent[i].packet| <= MAX_BLOCK ==> Encodable(sent[i].packet)
    {
      SoundFaultless(sent[i].packet);
      FirmwareFaultless(sent[i].packet);
      if |sent[i].packet| <= MAX_BLOCK { ShortPacketsEncodable(sent[i].packet); }
    }
  }

  function Noiseless(ms: seq<Message>): (sent: seq<Sent>)
    ensures |sent| == |ms| && forall i | 0 <= i < |ms| :: sent[i] == Sent([], PacketOf(ms[i]))
  {
    seq(|ms|, i requires 0 <= i < |ms| => Sent([], PacketOf(ms[i])))
  }

  // Every faithful peer with packets to send can be heard like this: on a quiet line, for one.
  lemma QuietLine(ms: seq<Message>)
    requires forall i | 0 <= i < |ms| :: PacketOf(ms[i]) != []
    ensures Bears(Noiseless(ms), ms) && Quiet(Noiseless(ms)) && AllFaultless(SoundFrame, Noiseless(ms))
    ensures AllInvalid(Decoded(Split([], []).frames))
  {
    hide PacketOf, Faultless;
    JunkThenDelimiter([]);
    NothingPending();
    forall i | 0 <= i < |ms|
      ensures Faultless(SoundFrame, Noiseless(ms)[i].packet)
    {
      SoundFaultless(PacketOf(ms[i]));
    }
  }

  // ----- the same over the objects

  function Bare(packets: seq<Packet>): (run: seq<Arrival>)
    ensures Carries(run, packets)
  {
    seq(|packets|, i requires 0 <= i < |packets| => Arrival(packets[i], []))
  }

  lemma FirstOfRun(l: Listener, packets: seq<Packet>, replies: seq<Reply>)
    requires packets != [] && RunDecodable(l, Bare(packets))
    ensures Decodable(l, packets[0])
    ensures var o, now := Take(l, replies, packets[0]), [Arrival(packets[0], replies)];
            && RunDecodable(o.listener, Bare(packets[1..]))
            && RunDecodable(l, now) && RunAll(l, now) == Ran(o.listener, o.effects)
  {
    hide Take, Decodable, RunDecodable, RunAll;
    RunUnfold(l, Bare(packets));
    assert Bare(packets)[1..] == Bare(packets[1..]);
    var now := Arrival(packets[0], replies);
    SameListener(l, Bare(packets)[0], now);
    var o := Take(l, replies, packets[0]);
    RunNothing(o.listener);
    RunFold(l, now, []);
    assert [now] + [] == [now] && o.effects + [] == o.effects;
  }

  // Where a run stands: the packets handled, and what the listener has become and done.
  ghost predicate Handled(start: Listener, run: seq<Arrival>, all: seq<Packet>, left: seq<Packet>,
                          now: Listener, did: seq<Effect>)
  {
    && RunDecodable(start, run) && RunAll(start, run) == Ran(now, did)
    && RunDecodable(now, Bare(left))
    && |run| <= |all| && all[|run|..] == left && Carries(run, all[..|run|])
  }

  lemma HandledNone(start: Listener, all: seq<Packet>)
    requires RunDecodable(start, Bare(all))
    ensures Handled(start, [], all, all, start, [])
  {
  }

  lemma HandledMore(start: Listener, run: seq<Arrival>, all: seq<Packet>, left: seq<Packet>,
                    now: Listener, did: seq<Effect>, replies: seq<Reply>)
    requires Handled(start, run, all, left, now, did) && left != []
    ensures Decodable(now, left[0])
    ensures var o := Take(now, replies, left[0]);
            Handled(start, run + [Arrival(left[0], replies)], all, left[1..], o.listener, did + o.effects)
  {
    hide Take, Decodable, RunDecodable, RunAll, Bare;
    FirstOfRun(now, left, replies);
    RunAppend(start, run, [Arrival(left[0], replies)]);
    assert left[0] == all[|run|] && left[1..] == all[|run| + 1..];
  }

  lemma HandledAll(start: Listener, run: seq<Arrival>, all: seq<Packet>, now: Listener, did: seq<Effect>)
    requires Handled(start, run, all, [], now, did)
    ensures Carries(run, all) && RunDecodable(start, run) && RunAll(start, run) == Ran(now, did)
  {
  }

  lemma HandledDecodable(start: Listener, run: seq<Arrival>, all: seq<Packet>, left: seq<Packet>,
                         now: Listener, did: seq<Effect>)
    requires Handled(start, run, all, left, now, did) && left != []
    ensures Decodable(now, left[0])
  {
  }

  lemma {:induction false} HandledGrows(t: Tasks, turns: seq<Turn>)
    ensures t.handled <= TakeTurns(t, turns).handled
    decreases |turns|
  {
    if turns == [] {
    } else {
      ReceivingHandlesNothing(t, if turns[0].Receive? then turns[0].bytes else []);
      HandledGrows(TakeTurn(t, turns[0]), turns[1..]);
    }
  }

  lemma {:induction false} ReceivingHandlesNothing(t: Tasks, bytes: seq<Byte>)
    ensures ReceiveBytes(t, bytes).handled == t.handled
    decreases |bytes|
  {
    if bytes == [] {
    } else {
      ReceivingHandlesNothing(ReceiveByte(t, bytes[0]), bytes[1..]);
    }
  }

  // The packets the packet task will take in the turns to come.
  function StillToHandle(t: Tasks, turns: seq<Turn>): seq<Packet> {
    HandledGrows(t, turns);
    Decoded(TakeTurns(t, turns).handled[|t.handled|..])
  }

  lemma NextHandled(t: Tasks, turns: seq<Turn>)
    requires turns != []
    ensures TakeTurns(t, turns) == TakeTurns(TakeTurn(t, turns[0]), turns[1..])
    ensures turns[0].Receive? || t.queue == [] ==>
              StillToHandle(TakeTurn(t, turns[0]), turns[1..]) == StillToHandle(t, turns)
    ensures turns[0] == Handle && t.queue != [] ==>
              StillToHandle(t, turns) ==
              [DecodeFrame(t.queue[0])] + StillToHandle(TakeTurn(t, turns[0]), turns[1..])
  {
    hide DecodeFrame, ReceiveBytes;
    var u := TakeTurn(t, turns[0]);
    HandledGrows(u, turns[1..]);
    ReceivingHandlesNothing(t, if turns[0].Receive? then turns[0].bytes else []);
    if turns[0] == Handle && t.queue != [] {
      var final := TakeTurns(t, turns).handled;
      assert final[|t.handled|] == t.queue[0];
      assert final[|t.handled|..][1..] == final[|u.handled|..];
    }
  }

  // One turn of packet_handler_thread with take_packet as its callback.
  method HandlePacket(dev: VDBDevice, reg: RegistryListener) returns (ghost replies: seq<Reply>)
    requires reg.Valid() && dev.packetQueue != [] && Decodable(reg.State(), DecodeFrame(dev.packetQueue[0]))
    modifies dev`packetQueue, dev`handled, reg, reg.Trees
    ensures dev.View() == TakeTurn(old(dev.View()), Handle) && reg.Valid()
    ensures fresh(reg.Trees - old(reg.Trees))
    ensures var o := Take(old(reg.State()), replies, DecodeFrame(old(dev.packetQueue)[0]));
            reg.State() == o.listener && reg.log == old(reg.log) + o.effects
  {
    hide Take, Decodable, Nodes, DecodeFrame, Replies, Table, ChannelsShaped, QueueWritable;
    var packet := dev.ReceivePacket();
    replies := Replies(reg.channelResponseQueue);
    reg.TakePacket(packet);
  }

  // The two tasks taking turns: the device moves as TakeTurns says, and the registry's table, counters
  // and log as RunAll says for the packets the packet task took.
  method Alternate(dev: VDBDevice, reg: RegistryListener, turns: seq<Turn>) returns (ghost run: seq<Arrival>)
    requires reg.Valid() && RunDecodable(reg.State(), Bare(StillToHandle(dev.View(), turns)))
    modifies dev, reg, reg.Trees
    ensures reg.Valid() && dev.View() == TakeTurns(old(dev.View()), turns)
    ensures Carries(run, StillToHandle(old(dev.View()), turns)) && RunDecodable(old(reg.State()), run)
    ensures RunAll(old(reg.State()), run).listener == reg.State()
    ensures reg.log == old(reg.log) + RunAll(old(reg.State()), run).effects
  {
    hide Handled, Take, Decodable, RunDecodable, RunAll, Bare, DecodeFrame, Carries, StillToHandle, TakeTurns,
         ReceiveBytes, ChannelsShaped, QueueWritable, Table, Nodes;
    run := [];
    var i := 0;
    ghost var start, log, final := reg.State(), reg.log, TakeTurns(dev.View(), turns);
    ghost var all := StillToHandle(dev.View(), turns);
    ghost var now, left, did: seq<Effect> := start, all, [];
    HandledNone(start, all);
    assert turns[0..] == turns;
    while i < |turns|
      invariant 0 <= i <= |turns|
      invariant TakeTurns(dev.View(), turns[i..]) == final
      invariant reg.Valid() && reg.State() == now && reg.log == log + did
      invariant fresh(reg.Trees - old(reg.Trees))
      invariant left == StillToHandle(dev.View(), turns[i..]) && Handled(start, run, all, left, now, did)
    {
      NextHandled(dev.View(), turns[i..]);
      assert turns[i..][0] == turns[i] && turns[i..][1..] == turns[i + 1..];
      if turns[i].Receive? {
        dev.HandleUartBytes(turns[i].bytes);
      } else if dev.packetQueue != [] {
        HandledDecodable(start, run, all, left, now, did);
        ghost var replies := HandlePacket(dev, reg);
        HandledMore(start, run, all, left, now, did, replies);
        ghost var o := Take(now, replies, left[0]);
        Associative(log, did, o.effects);
        run, now, left, did := run + [Arrival(left[0], replies)], o.listener, left[1..], did + o.effects;
      }
      i := i + 1;
    }
    assert turns[i..] == [];
    NothingLeft(dev.View());
    HandledAll(start, run, all, now, did);
  }

  lemma NothingLeft(t: Tasks)
    ensures TakeTurns(t, []) == t && StillToHandle(t, []) == []
  {
  }

  // The receiving side as a whole, over the objects and under any schedule of its two tasks.
  method Listen(dev: VDBDevice, reg: RegistryListener, turns: seq<Turn>, ghost sent: seq<Sent>, ghost tail: seq<Byte>,
                ghost stuff: Stuffing, ghost kept: seq<Message>, ghost ms: seq<Message>)
    requires dev.View() == IDLE && reg.Valid() && reg.State() == NEW_LISTENER && reg.log == []
    requires Faithful(ms, []) && Subsequence(kept, ms) && Bears(sent, kept) && AllFaultless(stuff, sent)
    requires Quiet(sent) && AllInvalid(Decoded(Split([], tail).frames))
    requires Line(turns) == OnLine(sent, stuff) + tail
    requires OnceEach(ms, []) || NoneRepeated(BroadcastIds(Bare(Decoded(TakeTurns(IDLE, turns).handled))), 0)
    modifies dev, reg, reg.Trees
    ensures reg.Valid() && dev.View() == TakeTurns(IDLE, turns)
    ensures Subsequence(Deliveries(reg.log), Updates(ms)) && Mirrors(reg.State().table, AllKnown(ms, []))
    ensures kept == ms && dev.refused == 0 && dev.packetQueue == [] ==>
              Deliveries(reg.log) == Updates(ms) && |reg.State().table| == |AllKnown(ms, [])|
  {
    hide Faithful, Bears, AllFaultless, Quiet, AllInvalid, Decoded, Split, OnLine, Line, Updates, AllKnown, Mirrors,
         TakeTurns, Subsequence, Deliveries, RunAll, RunDecodable, Table, Nodes, ChannelsShaped, QueueWritable,
         NoneRepeated, AnnouncedIds, BroadcastIds;
    ghost var handled := TakeTurns(IDLE, turns).handled;
    assert handled[0..] == handled;
    PeerIsHeard(turns, sent, tail, stuff, kept, ms, Bare(Decoded(handled)));
    ghost var run := Alternate(dev, reg, turns);
    SameIds(run, Bare(Decoded(handled)));
    PeerIsHeard(turns, sent, tail, stuff, kept, ms, run);
    assert [] + RunAll(NEW_LISTENER, run).effects == RunAll(NEW_LISTENER, run).effects;
  }
}
