/**
 * The check value of CRC-32, and two packets spelled out byte by byte, checksum included, with what the
 * listener makes of them.
 */
module Witnesses {
  import opened Bytes
  import opened Words
  import opened Crc
  import opened Integrity
  import opened Codec
  import opened CodecTheory
  import opened Protocol
  import opened Registry
  import opened RegistryTheory
  import opened Positions

  // ----- checksums of four bytes

  lemma ChecksumOfFour(p: Packet, u: bv32, v: bv32)
    requires |p| == 4 && ReadWord(p) == u && Steps(Xor(INITIAL, u), 32) == v
    ensures Checksum(p) == Complement(v)
  {
    hide Run, Steps, Xor, Complement, Pack, Bits;
    RunPacked(INITIAL, Bits(p));
  }

  function One(bit: bool): nat {
    if bit then 1 else 0
  }

  function Eight(a: bool, b: bool, c: bool, d: bool, e: bool, f: bool, g: bool, h: bool): bv32 {
    Cons(a, Cons(b, Cons(c, Cons(d, Cons(e, Cons(f, Cons(g, Cons(h, 0))))))))
  }

  lemma PackFirst(bit: bool, bits: seq<bool>)
    ensures Pack([bit] + bits) == Cons(bit, Pack(bits)) && BitsValue([bit] + bits) == One(bit) + 2 * BitsValue(bits)
  {
    hide Cons;
    assert ([bit] + bits)[1..] == bits;
  }

  // A byte given by its bits, lowest first.
  lemma EightBits(n: Byte, a: bool, b: bool, c: bool, d: bool, e: bool, f: bool, g: bool, h: bool)
    requires n == One(a) + 2 * One(b) + 4 * One(c) + 8 * One(d) + 16 * One(e) + 32 * One(f) + 64 * One(g) + 128 * One(h)
    ensures Word(n) == Eight(a, b, c, d, e, f, g, h)
  {
    hide Cons, ByteBits, One;
    PackFirst(h, []);
    PackFirst(g, [h] + []);
    PackFirst(f, [g] + ([h] + []));
    PackFirst(e, [f] + ([g] + ([h] + [])));
    PackFirst(d, [e] + ([f] + ([g] + ([h] + []))));
    PackFirst(c, [d] + ([e] + ([f] + ([g] + ([h] + [])))));
    PackFirst(b, [c] + ([d] + ([e] + ([f] + ([g] + ([h] + []))))));
    PackFirst(a, [b] + ([c] + ([d] + ([e] + ([f] + ([g] + ([h] + [])))))));
    var bits := [a] + ([b] + ([c] + ([d] + ([e] + ([f] + ([g] + ([h] + [])))))));
    NoBits();
    BitsOfValue(bits);
    hide Pack, BitsValue;
  }

  lemma NoBits()
    ensures Pack([]) == 0 && BitsValue([]) == 0
  {
  }

  lemma SmallWords()
    ensures Word(0x00) == 0x00 && Word(0x01) == 0x01 && Word(0x02) == 0x02
    ensures Word(0x04) == 0x04 && Word(0x34) == 0x34 && Word(0x51) == 0x51
  {
    hide Word;
    EightBits(0x00, false, false, false, false, false, false, false, false);
    EightBits(0x01, true, false, false, false, false, false, false, false);
    EightBits(0x02, false, true, false, false, false, false, false, false);
    EightBits(0x04, false, false, true, false, false, false, false, false);
    EightBits(0x34, false, false, true, false, true, true, false, false);
    EightBits(0x51, true, false, false, false, true, false, true, false);
  }

  lemma CutTrailerWords()
    ensures Word(0xa9) == 0xa9 && Word(0x2b) == 0x2b && Word(0xf0) == 0xf0
  {
    hide Word;
    EightBits(0xa9, true, false, false, true, false, true, false, true);
    EightBits(0x2b, true, true, false, true, false, true, false, false);
    EightBits(0xf0, false, false, false, false, true, true, true, true);
  }

  lemma WideTrailerWords()
    ensures Word(0x80) == 0x80 && Word(0xee) == 0xee && Word(0x88) == 0x88
  {
    hide Word;
    EightBits(0x80, false, false, false, false, false, false, false, true);
    EightBits(0xee, false, true, true, true, false, true, true, true);
    EightBits(0x88, false, false, false, true, false, false, false, true);
  }

  // ----- the check value of CRC-32

  lemma DigitWords()
    ensures Word(0x31) == 0x31 && Word(0x32) == 0x32 && Word(0x33) == 0x33
  {
    hide Word;
    EightBits(0x31, true, false, false, false, true, true, false, false);
    EightBits(0x32, false, true, false, false, true, true, false, false);
    EightBits(0x33, true, true, false, false, true, true, false, false);
  }

  lemma MoreDigitWords()
    ensures Word(0x34) == 0x34 && Word(0x35) == 0x35 && Word(0x36) == 0x36
  {
    hide Word;
    EightBits(0x34, false, false, true, false, true, true, false, false);
    EightBits(0x35, true, false, true, false, true, true, false, false);
    EightBits(0x36, false, true, true, false, true, true, false, false);
  }

  lemma LastDigitWords()
    ensures Word(0x37) == 0x37 && Word(0x38) == 0x38 && Word(0x39) == 0x39
  {
    hide Word;
    EightBits(0x37, true, true, true, false, true, true, false, false);
    EightBits(0x38, false, false, false, true, true, true, false, false);
    EightBits(0x39, true, false, false, true, true, true, false, false);
  }

  lemma FirstDigits()
    ensures NibbleStep(0xcbcc_cdce) == 0xacb6_2ea4 && NibbleStep(0xacb6_2ea4) == 0x7c17_237a
    ensures NibbleStep(0x7c17_237a) == 0xd117_d1df && NibbleStep(0xd117_d1df) == 0xb0ac_8f01
    ensures NibbleStep(0xb0ac_8f01) == 0x16bd_d894 && NibbleStep(0x16bd_d894) == 0x77b7_9c19
    ensures NibbleStep(0x77b7_9c19) == 0xf774_ea85 && NibbleStep(0xf774_ea85) == 0x641c_1f5c
  {
  }

  lemma MiddleDigits()
    ensures NibbleStep(0x5c2b_2969) == 0xf5cd_21d2 && NibbleStep(0xf5cd_21d2) == 0x3432_f2d5
    ensures NibbleStep(0x3432_f2d5) == 0x6828_7ed9 && NibbleStep(0x6828_7ed9) == 0xf68d_14a9
    ensures NibbleStep(0xf68d_14a9) == 0xff67_420e && NibbleStep(0xff67_420e) == 0xaffc_9658
    ensures NibbleStep(0xaffc_9658) == 0xe747_4a45 && NibbleStep(0xe747_4a45) == 0x651f_2550
  {
  }

  lemma LastDigit()
    ensures NibbleStep(0x651f_2569) == 0xf65e_6112 && NibbleStep(0xf65e_6112) == 0x340b_c6d9
  {
  }

  lemma DigitPacks()
    ensures Pack(Bits([0x31, 0x32, 0x33, 0x34])) == 0x3433_3231
    ensures Pack(Bits([0x35, 0x36, 0x37, 0x38])) == 0x3837_3635
    ensures Pack(Bits([0x39])) == 0x39
  {
    DigitWords();
    MoreDigitWords();
    LastDigitWords();
    ReadWordByShifts([0x31, 0x32, 0x33, 0x34]);
    ReadWordByShifts([0x35, 0x36, 0x37, 0x38]);
    OneByte(0x39);
    hide Pack, Bits, ByteBits;
  }

  lemma RunBits(s: bv32, p: seq<Byte>, u: bv32, v: bv32)
    requires |p| <= 4 && Pack(Bits(p)) == u && Steps(Xor(s, u), 8 * |p|) == v
    ensures Run(s, Bits(p)) == v
  {
    hide Run, Steps, Xor, Pack, Bits;
    RunPacked(s, Bits(p));
  }

  lemma DigitSteps()
    ensures Steps(Xor(INITIAL, 0x3433_3231), 32) == 0x641c_1f5c
    ensures Steps(Xor(0x641c_1f5c, 0x3837_3635), 32) == 0x651f_2550
    ensures Steps(Xor(0x651f_2550, 0x39), 8) == 0x340b_c6d9 && Complement(0x340b_c6d9) == 0xcbf4_3926
  {
    hide Steps, NibbleStep;
    FirstDigits();
    MiddleDigits();
    LastDigit();
    assert Xor(INITIAL, 0x3433_3231) == 0xcbcc_cdce && Xor(0x641c_1f5c, 0x3837_3635) == 0x5c2b_2969;
    assert Xor(0x651f_2550, 0x39) == 0x651f_2569;
    EightNibbles(0xcbcc_cdce, 0xacb6_2ea4, 0x7c17_237a, 0xd117_d1df, 0xb0ac_8f01, 0x16bd_d894, 0x77b7_9c19,
                 0xf774_ea85, 0x641c_1f5c);
    EightNibbles(0x5c2b_2969, 0xf5cd_21d2, 0x3432_f2d5, 0x6828_7ed9, 0xf68d_14a9, 0xff67_420e, 0xaffc_9658,
                 0xe747_4a45, 0x651f_2550);
    EightSteps(0x651f_2569);
  }

  // The checksum of the nine digits "123456789", by which CRC-32 implementations are told apart.
  lemma CheckValue()
    ensures Checksum([0x31, 0x32, 0x33, 0x34, 0x35, 0x36, 0x37, 0x38, 0x39]) == 0xcbf4_3926
  {
    hide Run, Steps, Xor, Pack, Bits, Complement;
    var a: seq<Byte>, b: seq<Byte>, c: seq<Byte> := [0x31, 0x32, 0x33, 0x34], [0x35, 0x36, 0x37, 0x38], [0x39];
    DigitPacks();
    DigitSteps();
    RunBits(INITIAL, a, 0x3433_3231, 0x641c_1f5c);
    RunBits(0x641c_1f5c, b, 0x3837_3635, 0x651f_2550);
    RunBits(0x651f_2550, c, 0x39, 0x340b_c6d9);
    BitsAppend(a, b + c);
    BitsAppend(b, c);
    Crc.RunAppend(INITIAL, Bits(a), Bits(b) + Bits(c));
    Crc.RunAppend(0x641c_1f5c, Bits(b), Bits(c));
    assert a + (b + c) == [0x31, 0x32, 0x33, 0x34, 0x35, 0x36, 0x37, 0x38, 0x39];
  }

  // ----- a field count cut off by the end of a packet

  // Broadcast header, id 0, record; then the name, which runs on through the checksum to its last byte.
  const CUT: Packet := [0x00, 0x00, 0x00, 0x34, 0xa9, 0x2b, 0xf0, 0x00]
  const CUT_NAME: seq<Byte> := [0x34, 0xa9, 0x2b, 0xf0]

  lemma CutWords()
    ensures ReadWord([0x00, 0x00, 0x00, 0x34]) == 0x3400_0000
    ensures ReadWord([0xa9, 0x2b, 0xf0, 0x00]) == 0x00f0_2ba9
  {
    SmallWords();
    CutTrailerWords();
    ReadWordByShifts([0x00, 0x00, 0x00, 0x34]);
    ReadWordByShifts([0xa9, 0x2b, 0xf0, 0x00]);
    hide ReadWord, Word;
  }

  lemma CutNibbles()
    ensures NibbleStep(0xcbff_ffff) == 0xb102_0de3 && NibbleStep(0xb102_0de3) == 0x2dc9_1072
    ensures NibbleStep(0x2dc9_1072) == 0x39b2_b1cf && NibbleStep(0x39b2_b1cf) == 0xbe26_d900
    ensures NibbleStep(0xbe26_d900) == 0x0be2_6d90 && NibbleStep(0x0be2_6d90) == 0x00be_26d9
    ensures NibbleStep(0x00be_26d9) == 0xf004_7129 && NibbleStep(0xf004_7129) == 0xff0f_d456
  {
  }

  lemma CutSteps()
    ensures Steps(Xor(INITIAL, 0x3400_0000), 32) == 0xff0f_d456 && Complement(0xff0f_d456) == 0x00f0_2ba9
  {
    hide Steps, NibbleStep;
    CutNibbles();
    assert Xor(INITIAL, 0x3400_0000) == 0xcbff_ffff;
    EightNibbles(0xcbff_ffff, 0xb102_0de3, 0x2dc9_1072, 0x39b2_b1cf, 0xbe26_d900, 0x0be2_6d90, 0x00be_26d9,
                 0xf004_7129, 0xff0f_d456);
  }

  lemma CutPasses()
    ensures Passes(CUT, BROADCAST)
  {
    hide ReadWord, Checksum, Steps, Xor, Complement;
    CutWords();
    CutSteps();
    assert Payload(CUT) == [0x00, 0x00, 0x00, 0x34] && Trailer(CUT) == [0xa9, 0x2b, 0xf0, 0x00];
    ChecksumOfFour(Payload(CUT), 0x3400_0000, 0xff0f_d456);
  }

  lemma CutParses()
    ensures ParseSchema(CUT, 2) == Some(Parsed(Record(CUT_NAME, []), 8)) && !CountsFit(CUT, 2)
    ensures 2 + |EncodeSchema(Record(CUT_NAME, []))| > |CUT|
  {
    hide GetString, ParseSchema, ParseSchemas, EncodeHeader;
    assert CUT[3..8] == EncodeString(CUT_NAME);
    GetStringWritten(CUT, 3, CUT_NAME);
    NoFields(CUT, 8);
    RecordStep(CUT, 2, Parsed(CUT_NAME, 8), Parsed(0, 8), Parsed([], 8));
  }

  // The listener takes the packet, and a record that no packet of that length could announce.
  lemma CutTaken(l: Listener, replies: seq<Reply>)
    ensures Decodable(l, CUT)
    ensures Take(l, replies, CUT).listener.table == l.table + [Entry(0, Record(CUT_NAME, []))]
  {
    hide Passes, ParseSchema, Take, Decodable, CountsFit, EncodeSchema;
    CutPasses();
    CutParses();
    TakesBroadcast(l, replies, CUT);
  }

  // ----- a string read past the end of a packet

  lemma {:induction false} NoTerminator(b: seq<Byte>, at: nat)
    requires at <= |b| && NulFree(b[at..])
    ensures GetString(b, at) == None
    decreases |b| - at
  {
    if at == |b| {
    } else {
      assert b[at..][0] == b[at] && b[at..][1..] == b[at + 1..];
      NoTerminator(b, at + 1);
    }
  }

  // Where the entry at a data message's position is a string, a packet without a zero is read past its
  // end.
  lemma TextRunsOff(l: Listener, pac: Packet)
    requires |pac| >= MIN_PACKET_SIZE && pac[1] < |l.table|
    requires l.table[pac[1]].schema.Leaf? && l.table[pac[1]].schema.kind == String && NulFree(pac[2..])
    ensures Passes(pac, DATA) ==> !Decodable(l, pac)
  {
    hide Validate, DecodeHeaderByte, ParseSchema, GetString;
    NoTerminator(pac, 2);
  }

  const WIDE_PACKET: Packet := [0x80, 0x01, 0x02, 0x01, 0x04, 0x51, 0xee, 0x88]

  lemma WideWords()
    ensures ReadWord([0x80, 0x01, 0x02, 0x01]) == 0x0102_0180
    ensures ReadWord([0x04, 0x51, 0xee, 0x88]) == 0x88ee_5104
  {
    SmallWords();
    WideTrailerWords();
    ReadWordByShifts([0x80, 0x01, 0x02, 0x01]);
    ReadWordByShifts([0x04, 0x51, 0xee, 0x88]);
    hide ReadWord, Word;
  }

  lemma WideNibbles()
    ensures NibbleStep(0xfefd_fe7f) == 0xb252_2dfb && NibbleStep(0xb252_2dfb) == 0xc044_9153
    ensures NibbleStep(0xc044_9153) == 0x2add_79b9 && NibbleStep(0x2add_79b9) == 0xf2a2_44df
    ensures NibbleStep(0xf2a2_44df) == 0xb297_d651 && NibbleStep(0xb297_d651) == 0x169e_6d01
    ensures NibbleStep(0x169e_6d01) == 0x1cde_f6b4 && NibbleStep(0x1cde_f6b4) == 0x7711_aefb
  {
  }

  lemma WideSteps()
    ensures Steps(Xor(INITIAL, 0x0102_0180), 32) == 0x7711_aefb && Complement(0x7711_aefb) == 0x88ee_5104
  {
    hide Steps, NibbleStep;
    WideNibbles();
    assert Xor(INITIAL, 0x0102_0180) == 0xfefd_fe7f;
    EightNibbles(0xfefd_fe7f, 0xb252_2dfb, 0xc044_9153, 0x2add_79b9, 0xf2a2_44df, 0xb297_d651, 0x169e_6d01,
                 0x1cde_f6b4, 0x7711_aefb);
  }

  // The packet of the value 0x0102 for channel 1 holds no zero.
  lemma WideIs()
    ensures PacketOf(WIDE) == WIDE_PACKET
  {
    hide ReadWord, Checksum, Steps, Xor, Complement, EncodeValue, Seal;
    LongImage();
    WideWords();
    WideSteps();
    var body: Packet := [0x80, 0x01, 0x02, 0x01];
    assert [MakeHeaderByte(DATA), 1] + [2, 1] == body;
    ChecksumOfFour(body, 0x0102_0180, 0x7711_aefb);
    SealIs(body, [0x04, 0x51, 0xee, 0x88]);
    assert body + [0x04, 0x51, 0xee, 0x88] == WIDE_PACKET;
  }

  const TEXT := Leaf([], String)

  // Channel 0, a string, announced twice, then channel 1.
  function TextTwice(): seq<Message> {
    [Announcement(0, TEXT), Announcement(0, TEXT), Announcement(1, LONG)]
  }

  lemma TextInTable()
    ensures AllReadable([], TextTwice()) && |TextTwice()| == 3
    ensures TableAfterAll([], TextTwice()) == [Entry(0, TEXT), Entry(0, TEXT), Entry(1, LONG)]
  {
    var ms := TextTwice();
    assert ms[1..] == [Announcement(0, TEXT), Announcement(1, LONG)];
    assert ms[1..][1..] == [Announcement(1, LONG)];
    assert ms[1..][1..][1..] == [];
  }

  lemma WideRunsOff(l: Listener)
    requires |l.table| == 3 && l.table[1].schema == TEXT
    ensures !Decodable(l, PacketOf(WIDE))
  {
    hide PacketOf, Passes, Decodable;
    WideIs();
    WidePasses();
    TextRunsOff(l, WIDE_PACKET);
  }

  lemma WidePasses()
    ensures Passes(PacketOf(WIDE), DATA)
  {
    hide Passes, DataPacket;
    WrittenPacketsPass(1, LONG, Number(0x0102), 0);
  }

  // Four written packets; the last, 0x0102 for channel 1, sends the reader past its end.
  lemma ReadPastTheEnd(run: seq<Arrival>)
    requires Carries(run, Packets(TextTwice() + [WIDE]))
    ensures RunDecodable(NEW_LISTENER, run[..3]) && !RunDecodable(NEW_LISTENER, run)
  {
    hide RunDecodable, RunAll, Decodable, AllReadable, TableAfterAll, Packets, PacketOf, DeliveredAll, TextTwice, Take,
         Deliveries, Carries;
    TextInTable();
    OnePacketMore(run, TextTwice(), WIDE);
    var first, a := run[..3], run[3];
    if RunDecodable(NEW_LISTENER, run) {
      RunSplit(NEW_LISTENER, first, [a]);
      var l := RunAll(NEW_LISTENER, first).listener;
      RunUnfold(l, [a]);
      WideRunsOff(l);
    }
  }
}
