/**
 * The UART side of VDBDevice: cutting the byte stream at zeros, the packet queue, and the
 * trip of whole packets over a noisy start and an arbitrary chunking.
 */
module Link {
  import opened Bytes
  import opened Cobs
  import opened CobsTheory
  import opened Subsequences

  type WirePacket = seq<Byte>

  // Complete frames found so far, and the bytes of the one still open.
  datatype Framed = Framed(frames: seq<WirePacket>, buffer: WirePacket)

  function Split(buffer: WirePacket, bytes: seq<Byte>): Framed
    decreases |bytes|
  {
    if bytes == [] then Framed([], buffer)
    else if bytes[0] != 0 then Split(buffer + [bytes[0]], bytes[1..])
    else if buffer == [] then Split([], bytes[1..])
    else
      var rest := Split([], bytes[1..]);
      Framed([buffer] + rest.frames, rest.buffer)
  }

  function Then(a: Framed, b: Framed): Framed {
    Framed(a.frames + b.frames, b.buffer)
  }

  lemma {:induction false} SplitAppend(buffer: WirePacket, a: seq<Byte>, b: seq<Byte>)
    ensures Split(buffer, a + b) == Then(Split(buffer, a), Split(Split(buffer, a).buffer, b))
    decreases |a|
  {
    if a == [] {
      assert a + b == b;
    } else {
      assert (a + b)[0] == a[0] && (a + b)[1..] == a[1..] + b;
      SplitAppend(if a[0] != 0 then buffer + [a[0]] else [], a[1..], b);
    }
  }

  // ----- chunks

  function Concat(chunks: seq<seq<Byte>>): seq<Byte> {
    if chunks == [] then [] else chunks[0] + Concat(chunks[1..])
  }

  // One call of handle_uart_bytes per chunk.
  function SplitChunks(buffer: WirePacket, chunks: seq<seq<Byte>>): Framed
    decreases |chunks|
  {
    if chunks == [] then Framed([], buffer)
    else
      var first := Split(buffer, chunks[0]);
      Then(first, SplitChunks(first.buffer, chunks[1..]))
  }

  // However the driver cuts the stream, the frames and the open buffer are the same.
  lemma {:induction false} ChunkInvariance(buffer: WirePacket, chunks: seq<seq<Byte>>)
    ensures SplitChunks(buffer, chunks) == Split(buffer, Concat(chunks))
    decreases |chunks|
  {
    if chunks == [] {
    } else {
      ChunkInvariance(Split(buffer, chunks[0]).buffer, chunks[1..]);
      SplitAppend(buffer, chunks[0], Concat(chunks[1..]));
    }
  }

  // ----- what the frames are made of

  function NonZero(bytes: seq<Byte>): seq<Byte> {
    if bytes == [] then []
    else (if bytes[0] == 0 then [] else [bytes[0]]) + NonZero(bytes[1..])
  }

  predicate GoodFrames(frames: seq<WirePacket>) {
    forall i | 0 <= i < |frames| :: frames[i] != [] && NulFree(frames[i])
  }

  // No byte but the delimiters is dropped, added or moved, and no frame is empty or holds a zero.
  lemma {:induction false} SplitConserves(buffer: WirePacket, bytes: seq<Byte>)
    requires NulFree(buffer)
    ensures var f := Split(buffer, bytes);
            && GoodFrames(f.frames) && NulFree(f.buffer)
            && Concat(f.frames) + f.buffer == buffer + NonZero(bytes)
    decreases |bytes|
  {
    if bytes == [] {
    } else if bytes[0] != 0 {
      SplitConserves(buffer + [bytes[0]], bytes[1..]);
      assert buffer + [bytes[0]] + NonZero(bytes[1..]) == buffer + ([bytes[0]] + NonZero(bytes[1..]));
    } else {
      SplitConserves([], bytes[1..]);
      ConcatCons(buffer, Split([], bytes[1..]));
      hide Split, NulFree;
      assert [] + NonZero(bytes[1..]) == NonZero(bytes[1..]);
    }
  }

  lemma ConcatCons(frame: WirePacket, rest: Framed)
    requires NulFree(frame) && GoodFrames(rest.frames)
    ensures frame != [] ==> GoodFrames([frame] + rest.frames)
    ensures Concat([frame] + rest.frames) + rest.buffer == frame + (Concat(rest.frames) + rest.buffer)
  {
  }

  lemma {:induction false} SplitNonZero(buffer: WirePacket, run: seq<Byte>)
    requires NulFree(run)
    ensures Split(buffer, run) == Framed([], buffer + run)
    decreases |run|
  {
    if run == [] {
      assert buffer + run == buffer;
    } else {
      assert NulFree(run[1..]);
      SplitNonZero(buffer + [run[0]], run[1..]);
      assert buffer + [run[0]] + run[1..] == buffer + run;
    }
  }

  function Pending(buffer: WirePacket): seq<WirePacket> {
    if buffer == [] then [] else [buffer]
  }

  lemma SplitDelimiter(buffer: WirePacket)
    ensures Split(buffer, [0]) == Framed(Pending(buffer), [])
  {
  }

  lemma NothingPending()
    ensures Pending([]) == []
  {
  }

  // A delimited frame closes whatever was open before it and comes out whole.
  lemma SplitFrame(buffer: WirePacket, frame: WirePacket)
    requires NulFree(frame) && frame != []
    ensures Split(buffer, [0] + frame + [0]) == Framed(Pending(buffer) + [frame], [])
  {
    assert [0] + frame + [0] == [0] + (frame + [0]);
    SplitAppend(buffer, [0], frame + [0]);
    SplitDelimiter(buffer);
    SplitAppend([], frame, [0]);
    SplitNonZero([], frame);
    assert [] + frame == frame;
    SplitDelimiter(frame);
    hide Split;
  }

  // ----- packets over the wire

  // What a stuffing puts between the delimiters.
  type Stuffing = seq<Byte> -> seq<Byte>

  // The frame holds no delimiter, and the decoder undoes it.
  predicate Faultless(stuff: Stuffing, p: seq<Byte>) {
    stuff(p) != [] && NulFree(stuff(p)) && DecodeFrame(stuff(p)) == p
  }

  lemma FirmwareFaultless(p: seq<Byte>)
    requires p != []
    ensures Faultless(Frame, p) <==> Encodable(p)
  {
    RoundTripIff(p);
    DelimitersOnlyOutside(p);
  }

  lemma SoundFaultless(p: seq<Byte>)
    requires p != []
    ensures Faultless(SoundFrame, p)
  {
    SoundEncoder(p);
    SoundFrameFits(p);
  }

  // A packet put on the line, and the noise the line adds before it: junk bytes, or the remains of
  // frames damaged on the way.
  datatype Sent = Sent(noise: seq<Byte>, packet: seq<Byte>)

  predicate AllFaultless(stuff: Stuffing, sent: seq<Sent>) {
    forall i | 0 <= i < |sent| :: Faultless(stuff, sent[i].packet)
  }

  function OnLine(sent: seq<Sent>, stuff: Stuffing): seq<Byte> {
    if sent == [] then []
    else sent[0].noise + ([0] + stuff(sent[0].packet) + [0]) + OnLine(sent[1..], stuff)
  }

  function Decoded(frames: seq<WirePacket>): (packets: seq<seq<Byte>>)
    ensures |packets| == |frames|
  {
    if frames == [] then [] else [DecodeFrame(frames[0])] + Decoded(frames[1..])
  }

  // What noise before a delimiter is taken for.
  function JunkFrames(junk: seq<Byte>): seq<WirePacket> {
    Split([], junk + [0]).frames
  }

  // What comes out at the far end.
  function Heard(sent: seq<Sent>): seq<seq<Byte>> {
    if sent == [] then []
    else Decoded(JunkFrames(sent[0].noise)) + [sent[0].packet] + Heard(sent[1..])
  }

  lemma {:induction false} DecodedAppend(a: seq<WirePacket>, b: seq<WirePacket>)
    ensures Decoded(a + b) == Decoded(a) + Decoded(b)
  {
    hide DecodeFrame;
    if a == [] {
      assert a + b == b;
    } else {
      assert (a + b)[1..] == a[1..] + b;
      DecodedAppend(a[1..], b);
    }
  }

  lemma DecodedOne(frame: WirePacket)
    ensures Decoded([frame]) == [DecodeFrame(frame)]
  {
    hide DecodeFrame;
    assert [frame][1..] == [];
  }

  lemma JunkThenDelimiter(junk: seq<Byte>)
    ensures JunkFrames(junk) == Split([], junk).frames + Pending(Split([], junk).buffer)
  {
    SplitAppend([], junk, [0]);
    SplitDelimiter(Split([], junk).buffer);
    hide Split;
  }

  // Noise, then one framed packet.
  lemma SplitSent(noise: seq<Byte>, frame: WirePacket)
    requires NulFree(frame) && frame != []
    ensures Split([], noise + ([0] + frame + [0])) == Framed(JunkFrames(noise) + [frame], [])
  {
    hide Split, NulFree, JunkFrames, Pending;
    SplitAppend([], noise, [0] + frame + [0]);
    var f := Split([], noise);
    SplitFrame(f.buffer, frame);
    JunkThenDelimiter(noise);
    Associative(f.frames, Pending(f.buffer), [frame]);
  }

  lemma {:induction false} SplitLine(sent: seq<Sent>, stuff: Stuffing)
    requires AllFaultless(stuff, sent)
    ensures Split([], OnLine(sent, stuff)).buffer == []
    ensures Decoded(Split([], OnLine(sent, stuff)).frames) == Heard(sent)
  {
    if sent == [] {
    } else {
      assert Faultless(stuff, sent[0].packet);
      hide Split, NulFree, JunkFrames, Decoded, DecodeFrame;
      var frame, noise, rest := stuff(sent[0].packet), sent[0].noise, OnLine(sent[1..], stuff);
      SplitSent(noise, frame);
      SplitAppend([], noise + ([0] + frame + [0]), rest);
      SplitLine(sent[1..], stuff);
      DecodedAppend(JunkFrames(noise) + [frame], Split([], rest).frames);
      DecodedAppend(JunkFrames(noise), [frame]);
      DecodedOne(frame);
    }
  }

  // End to end: whatever noise falls before, between and after the packets, and however the driver
  // cuts the stream, every packet comes out, in order, and nothing else but what the noise spells.
  lemma LinkDelivers(sent: seq<Sent>, tail: seq<Byte>, stuff: Stuffing, chunks: seq<seq<Byte>>)
    requires AllFaultless(stuff, sent)
    requires Concat(chunks) == OnLine(sent, stuff) + tail
    ensures var f := SplitChunks([], chunks);
            && f.buffer == Split([], tail).buffer
            && Decoded(f.frames) == Heard(sent) + Decoded(Split([], tail).frames)
  {
    hide AllFaultless, Split, OnLine, Decoded, Heard;
    ChunkInvariance([], chunks);
    LineThenTail(sent, tail, stuff);
  }

  lemma LineThenTail(sent: seq<Sent>, tail: seq<Byte>, stuff: Stuffing)
    requires AllFaultless(stuff, sent)
    ensures var f := Split([], OnLine(sent, stuff) + tail);
            && f.buffer == Split([], tail).buffer
            && Decoded(f.frames) == Heard(sent) + Decoded(Split([], tail).frames)
  {
    hide AllFaultless, Split, OnLine, Decoded, Heard;
    SplitLine(sent, stuff);
    SplitAppend([], OnLine(sent, stuff), tail);
    DecodedAppend(Split([], OnLine(sent, stuff)).frames, Split([], tail).frames);
  }

  // A frame overwritten in place by any bytes at all costs at most itself: the packets before it and
  // after it come out as sent.
  lemma CorruptedInPlace(before: seq<Sent>, hit: seq<Byte>, after: seq<Sent>, stuff: Stuffing)
    requires AllFaultless(stuff, before) && AllFaultless(stuff, after) && after != []
    ensures var line := OnLine(before, stuff) + (hit + OnLine(after, stuff));
            Decoded(Split([], line).frames) ==
            Heard(before) + (Decoded(JunkFrames(hit + after[0].noise)) + [after[0].packet] + Heard(after[1..]))
  {
    var first := Sent(hit + after[0].noise, after[0].packet);
    var rest := [first] + after[1..];
    assert rest[1..] == after[1..];
    assert AllFaultless(stuff, rest);
    assert hit + OnLine(after, stuff) == OnLine(rest, stuff);
    assert Heard(rest) == Decoded(JunkFrames(first.noise)) + [first.packet] + Heard(after[1..]);
    hide AllFaultless, Split, OnLine, Decoded, Heard, JunkFrames;
    SplitLine(rest, stuff);
    LineThenTail(before, OnLine(rest, stuff), stuff);
  }

  lemma {:induction false} SubsequenceDecoded(a: seq<WirePacket>, b: seq<WirePacket>)
    requires Subsequence(a, b)
    ensures Subsequence(Decoded(a), Decoded(b))
    decreases |b|
  {
    hide DecodeFrame;
    if a == [] || b == [] {
    } else if a[0] == b[0] {
      SubsequenceDecoded(a[1..], b[1..]);
    } else {
      SubsequenceDecoded(a, b[1..]);
      SubsequenceSkips(Decoded(a), Decoded(b));
    }
  }

  // ----- the UART task and the packet task, with the bounded queue between them

  // NUM_INCOMING_PACKETS
  const QUEUE_LENGTH := 10

  // The frame still open, the packet queue, the frames the packet task has taken from it in order, and
  // how many frames met a full queue.
  datatype Tasks = Tasks(buffer: WirePacket, queue: seq<WirePacket>, handled: seq<WirePacket>, refused: nat)

  const IDLE := Tasks([], [], [], 0)

  function Send(t: Tasks, frame: WirePacket): Tasks {
    if |t.queue| < QUEUE_LENGTH then t.(queue := t.queue + [frame]) else t.(refused := t.refused + 1)
  }

  function ReceiveByte(t: Tasks, b: Byte): Tasks {
    if b != 0 then t.(buffer := t.buffer + [b])
    else if t.buffer != [] then Send(t, t.buffer).(buffer := [])
    else t
  }

  function ReceiveBytes(t: Tasks, bytes: seq<Byte>): Tasks
    decreases |bytes|
  {
    if bytes == [] then t else ReceiveBytes(ReceiveByte(t, bytes[0]), bytes[1..])
  }

  // The scheduler lets one task or the other go on; the packet task waits while its queue is empty.
  datatype Turn = Receive(bytes: seq<Byte>) | Handle

  function TakeTurn(t: Tasks, turn: Turn): Tasks {
    match turn
    case Receive(bytes) => ReceiveBytes(t, bytes)
    case Handle => if t.queue == [] then t else t.(queue := t.queue[1..], handled := t.handled + [t.queue[0]])
  }

  function TakeTurns(t: Tasks, turns: seq<Turn>): Tasks
    decreases |turns|
  {
    if turns == [] then t else TakeTurns(TakeTurn(t, turns[0]), turns[1..])
  }

  // All bytes received in these turns.
  function Line(turns: seq<Turn>): seq<Byte> {
    if turns == [] then []
    else (if turns[0].Receive? then turns[0].bytes else []) + Line(turns[1..])
  }

  // The tasks stand where a receiver with an endless queue would, less the frames refused.
  predicate Tracks(t: Tasks, f: Framed) {
    && t.buffer == f.buffer && |t.queue| <= QUEUE_LENGTH
    && Subsequence(t.handled + t.queue, f.frames)
    && |t.handled| + |t.queue| + t.refused == |f.frames|
    && (t.refused > 0 ==> |f.frames| > QUEUE_LENGTH)
  }

  lemma SplitByte(buffer: WirePacket, b: Byte)
    ensures Split(buffer, [b]) ==
            if b != 0 then Framed([], buffer + [b]) else Framed(Pending(buffer), [])
  {
    assert [b][1..] == [];
  }

  lemma ByteTracks(t: Tasks, f: Framed, b: Byte)
    requires Tracks(t, f)
    ensures Tracks(ReceiveByte(t, b), Then(f, Split(f.buffer, [b])))
  {
    hide Split, Subsequence;
    SplitByte(f.buffer, b);
    if b == 0 && t.buffer != [] {
      SubsequenceGrows(t.handled + t.queue, f.frames, t.buffer);
      Associative(t.handled, t.queue, [t.buffer]);
    } else {
      assert f.frames + [] == f.frames;
    }
  }

  lemma {:induction false} BytesTrack(t: Tasks, f: Framed, bytes: seq<Byte>)
    requires Tracks(t, f)
    ensures Tracks(ReceiveBytes(t, bytes), Then(f, Split(f.buffer, bytes)))
    decreases |bytes|
  {
    hide Tracks, ReceiveByte, Split;
    if bytes == [] {
      SplitNothing(f);
    } else {
      var g := Then(f, Split(f.buffer, [bytes[0]]));
      ByteTracks(t, f, bytes[0]);
      BytesTrack(ReceiveByte(t, bytes[0]), g, bytes[1..]);
      SplitOn(f, [bytes[0]], bytes[1..]);
      assert [bytes[0]] + bytes[1..] == bytes;
    }
  }

  lemma SplitNothing(f: Framed)
    ensures Then(f, Split(f.buffer, [])) == f
  {
  }

  lemma SplitOn(f: Framed, a: seq<Byte>, b: seq<Byte>)
    ensures var g := Then(f, Split(f.buffer, a));
            Then(g, Split(g.buffer, b)) == Then(f, Split(f.buffer, a + b))
  {
    hide Split;
    SplitAppend(f.buffer, a, b);
    Associative(f.frames, Split(f.buffer, a).frames, Split(Split(f.buffer, a).buffer, b).frames);
  }

  lemma TurnTracks(t: Tasks, f: Framed, turn: Turn)
    requires Tracks(t, f)
    ensures turn.Receive? ==> Tracks(TakeTurn(t, turn), Then(f, Split(f.buffer, turn.bytes)))
    ensures turn == Handle ==> Tracks(TakeTurn(t, turn), f)
  {
    if turn.Receive? {
      BytesTrack(t, f, turn.bytes);
    } else if t.queue != [] {
      hide Subsequence;
      assert t.handled + [t.queue[0]] + t.queue[1..] == t.handled + t.queue;
    }
  }

  lemma {:induction false} TurnsTrack(t: Tasks, f: Framed, turns: seq<Turn>)
    requires Tracks(t, f)
    ensures Tracks(TakeTurns(t, turns), Then(f, Split(f.buffer, Line(turns))))
    decreases |turns|
  {
    hide Tracks, TakeTurn, Split;
    if turns == [] {
      SplitNothing(f);
    } else {
      TurnTracks(t, f, turns[0]);
      var u := TakeTurn(t, turns[0]);
      if turns[0].Receive? {
        TurnsTrack(u, Then(f, Split(f.buffer, turns[0].bytes)), turns[1..]);
        SplitOn(f, turns[0].bytes, Line(turns[1..]));
      } else {
        TurnsTrack(u, f, turns[1..]);
        assert [] + Line(turns[1..]) == Line(turns[1..]);
      }
    }
  }

  // Under every schedule: frames handled and waiting are an in-order subsequence of the frames on the
  // line, each frame is handled, waiting or refused, and they are all there if and only if no frame met
  // a full queue; ten frames in all always fit.
  lemma Scheduled(turns: seq<Turn>)
    ensures var t, f := TakeTurns(IDLE, turns), Split([], Line(turns));
            && t.buffer == f.buffer && |t.queue| <= QUEUE_LENGTH
            && Subsequence(t.handled + t.queue, f.frames)
            && |t.handled| + |t.queue| + t.refused == |f.frames|
            && (t.handled + t.queue == f.frames <==> t.refused == 0)
            && (|f.frames| <= QUEUE_LENGTH ==> t.refused == 0)
  {
    hide Split, Subsequence;
    var t, f := TakeTurns(IDLE, turns), Split([], Line(turns));
    NothingTracks();
    TurnsTrack(IDLE, Framed([], []), turns);
    assert Then(Framed([], []), f) == f;
    SubsequenceSize(t.handled + t.queue, f.frames);
  }

  lemma NothingTracks()
    ensures Tracks(IDLE, Framed([], []))
  {
  }

  // Of the frames that bytes complete, the queue takes the first for which it has room, behind those
  // that wait; the later ones are refused. There is room for ten.
  lemma {:induction false} QueueTakesFirst(t: Tasks, bytes: seq<Byte>)
    ensures var t', fs := ReceiveBytes(t, bytes), Split(t.buffer, bytes).frames;
            var room := if |t.queue| < 10 then 10 - |t.queue| else 0;
            var n := if room < |fs| then room else |fs|;
            && t'.queue == t.queue + fs[..n] && t'.refused == t.refused + |fs| - n
            && t'.buffer == Split(t.buffer, bytes).buffer && t'.handled == t.handled
    decreases |bytes|
  {
    if bytes == [] {
    } else {
      var u := ReceiveByte(t, bytes[0]);
      QueueTakesFirst(u, bytes[1..]);
    }
  }

  // ----- what send_packet reports

  // `res == ESP_OK`, where ESP_OK is 0 and res the number of bytes taken, or a negative error code.
  predicate Reported(res: int) {
    res == 0
  }

  predicate WrittenWhole(pac: seq<Byte>, res: int) {
    res == |Encode(pac)|
  }

  // The report is right exactly for an empty packet and for a write that failed or stopped part-way
  // after at least one byte: whenever a packet goes out whole it is reported as failed, and whenever
  // nothing of it does it is reported as sent.
  lemma ReportRightIff(pac: seq<Byte>, res: int)
    ensures (Reported(res) <==> WrittenWhole(pac, res)) <==> pac == [] || (res != 0 && res != |Encode(pac)|)
    ensures WrittenWhole(pac, res) ==> (Reported(res) <==> pac == [])
  {
    if pac != [] { EncodedSize(pac); }
  }

  // The one-byte packet 1, written whole: four bytes on the line, reported as a failure.
  lemma WrittenButReportedFailed()
    ensures Encode([1]) == [0, 2, 1, 0] && WrittenWhole([1], 4) && !Reported(4)
  {
    assert Body([1], 0, 1) == [2, 1];
  }

  class VDBDevice {
    var inboundBuffer: WirePacket
    var packetQueue: seq<WirePacket>
    // bytes the UART has taken for transmission
    var line: seq<Byte>
    // frames handed to the packet task, and frames refused by a full queue
    ghost var handled: seq<WirePacket>
    ghost var refused: nat

    ghost function View(): Tasks
      reads this
    {
      Tasks(inboundBuffer, packetQueue, handled, refused)
    }

    constructor ()
      ensures View() == IDLE && line == []
    {
      inboundBuffer, packetQueue, line, handled, refused := [], [], [], [], 0;
    }

    method HandleUartBytes(buf: seq<Byte>)
      modifies this`inboundBuffer, this`packetQueue, this`refused
      ensures View() == ReceiveBytes(old(View()), buf)
      ensures var fs := Split(old(inboundBuffer), buf).frames;
              var room := if |old(packetQueue)| < 10 then 10 - |old(packetQueue)| else 0;
              var n := if room < |fs| then room else |fs|;
              packetQueue == old(packetQueue) + fs[..n] && refused == old(refused) + |fs| - n
    {
      QueueTakesFirst(View(), buf);
      hide Split;
      var i := 0;
      assert buf[0..] == buf;
      while i < |buf|
        invariant 0 <= i <= |buf|
        invariant ReceiveBytes(View(), buf[i..]) == ReceiveBytes(old(View()), buf)
        invariant handled == old(handled)
      {
        var b := buf[i];
        assert buf[i..][1..] == buf[i + 1..];
        if b == 0x00 && |inboundBuffer| > 0 {
          if |packetQueue| < QUEUE_LENGTH {
            packetQueue := packetQueue + [inboundBuffer];
          } else {
            refused := refused + 1;
          }
          inboundBuffer := [];
        } else if b != 0x00 {
          inboundBuffer := inboundBuffer + [b];
        }
        i := i + 1;
      }
    }

    // send_packet, given what uart_write_bytes returns: a count, or a negative error code.
    method SendPacket(pac: seq<Byte>, res: int) returns (sent: bool)
      requires res <= |Encode(pac)|
      modifies this`line
      ensures line == old(line) + Encode(pac)[..if res < 0 then 0 else res]
      ensures sent == Reported(res)
    {
      var out := CobsEncode(pac);
      if res > 0 {
        line := line + out[..res];
      }
      sent := res == 0;
    }

    // One turn of packet_handler_thread: the packet passed to the callback.
    method ReceivePacket() returns (packet: seq<Byte>)
      requires packetQueue != []
      modifies this`packetQueue, this`handled
      ensures packet == DecodeFrame(old(packetQueue)[0])
      ensures View() == TakeTurn(old(View()), Handle)
    {
      var wire := packetQueue[0];
      packetQueue := packetQueue[1..];
      handled := handled + [wire];
      packet := CobsDecode(wire);
    }
  }
}
