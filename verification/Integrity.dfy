/**
 * What the four checksum bytes at the end of a packet promise (validate_packet in protocol.cpp).
 */
module Integrity {
  import opened Bytes
  import opened Words
  import opened Crc

  type Packet = seq<Byte>

  datatype Validity = Ok | BadChecksum | TooSmall

  const MIN_PACKET_SIZE := 5

  function Payload(p: Packet): Packet
    requires |p| >= 4
  {
    p[..|p| - 4]
  }

  function Trailer(p: Packet): Packet
    requires |p| >= 4
  {
    p[|p| - 4..]
  }

  function Validate(p: Packet): Validity {
    if |p| < MIN_PACKET_SIZE then TooSmall
    else if Checksum(Payload(p)) != ReadWord(Trailer(p)) then BadChecksum
    else Ok
  }

  // A packet body closed with its checksum, as every writer closes it.
  function Seal(body: Packet): Packet {
    body + WordBytes(Checksum(body))
  }

  lemma SealValid(body: Packet)
    requires body != []
    ensures Validate(Seal(body)) == Ok
  {
    hide Checksum, WordBytes, ReadWord;
    assert Payload(Seal(body)) == body;
    assert Trailer(Seal(body)) == WordBytes(Checksum(body));
    ReadWordBytes(Checksum(body));
  }

  method ValidatePacket(p: Packet) returns (r: Validity)
    ensures r == Validate(p)
    ensures r == TooSmall <==> |p| < 5
    ensures r == BadChecksum <==> |p| >= 5 && p != Seal(Payload(p))
    ensures r == Ok <==> |p| >= 5 && p == Seal(Payload(p))
  {
    ValidateCases(p);
    hide Seal, Validate;
    r := CompareChecksums(p);
  }

  // The comparison itself.
  method CompareChecksums(p: Packet) returns (r: Validity)
    ensures r == Validate(p)
  {
    hide Word, ReadWord, Checksum, ByShifts;
    if |p| < MIN_PACKET_SIZE {
      return TooSmall;
    }
    var checksum := Calculate(p[..|p| - 4]);
    var size := |p|;
    var written := ByShifts(Word(p[size - 4]), Word(p[size - 3]), Word(p[size - 2]), Word(p[size - 1]));
    ReadWordByShifts(Trailer(p));
    r := if checksum != written then BadChecksum else Ok;
  }

  // Four bytes that read back as the checksum are the ones the writers write.
  lemma SealIs(body: Packet, trailer: Packet)
    requires |trailer| == 4 && ReadWord(trailer) == Checksum(body)
    ensures Seal(body) == body + trailer
  {
    hide Checksum, WordBytes, Pack, Bits;
    ReadWordBytes(Checksum(body));
    PackInjective(Bits(trailer), Bits(WordBytes(Checksum(body))));
    BitsInjective(trailer, WordBytes(Checksum(body)));
  }

  // The packets that pass are exactly those the writers' checksum closes.
  lemma ValidIffSealed(p: Packet)
    ensures Validate(p) == Ok <==> |p| >= MIN_PACKET_SIZE && p == Seal(Payload(p))
  {
    hide Checksum, WordBytes, ReadWord;
    if |p| >= MIN_PACKET_SIZE {
      assert p == Payload(p) + Trailer(p);
      if Validate(p) == Ok { SealIs(Payload(p), Trailer(p)); }
      if p == Seal(Payload(p)) { SealValid(Payload(p)); }
    }
  }

  // The three answers.
  lemma ValidateCases(p: Packet)
    ensures Validate(p) == TooSmall <==> |p| < 5
    ensures Validate(p) == BadChecksum <==> |p| >= 5 && p != Seal(Payload(p))
    ensures Validate(p) == Ok <==> |p| >= 5 && p == Seal(Payload(p))
  {
    ValidIffSealed(p);
    hide Checksum, ReadWord, Seal;
  }

  // ----- the residue

  // Thirty-two bit steps, given nibble by nibble.
  lemma EightNibbles(a: bv32, b: bv32, c: bv32, d: bv32, e: bv32, f: bv32, g: bv32, h: bv32, i: bv32)
    requires NibbleStep(a) == b && NibbleStep(b) == c && NibbleStep(c) == d && NibbleStep(d) == e
    requires NibbleStep(e) == f && NibbleStep(f) == g && NibbleStep(g) == h && NibbleStep(h) == i
    ensures Steps(a, 32) == i
  {
    hide NibbleStep, Steps;
    StepsAdd(a, 8, 24); EightSteps(a);
    StepsAdd(c, 8, 16); EightSteps(c);
    StepsAdd(e, 8, 8); EightSteps(e);
    EightSteps(g);
  }

  lemma NibblesOfOnes()
    ensures NibbleStep(0xFFFF_FFFF) == 0xB242_0DE3 && NibbleStep(0xB242_0DE3) == 0x2DFD_1072
    ensures NibbleStep(0x2DFD_1072) == 0x39B1_F1CF && NibbleStep(0x39B1_F1CF) == 0xBE26_ED00
    ensures NibbleStep(0xBE26_ED00) == 0x0BE2_6ED0 && NibbleStep(0x0BE2_6ED0) == 0x00BE_26ED
    ensures NibbleStep(0x00BE_26ED) == 0x86D8_30BA && NibbleStep(0x86D8_30BA) == GOOD_FCS
  {
  }

  lemma ResidueConstant()
    ensures Steps(0xFFFF_FFFF, 32) == GOOD_FCS
  {
    hide NibbleStep, Steps;
    NibblesOfOnes();
    EightNibbles(0xFFFF_FFFF, 0xB242_0DE3, 0x2DFD_1072, 0x39B1_F1CF, 0xBE26_ED00, 0x0BE2_6ED0, 0x00BE_26ED,
                 0x86D8_30BA, GOOD_FCS);
  }

  lemma {:induction false} StepsAdd(s: bv32, j: nat, k: nat)
    ensures Steps(s, j + k) == Steps(Steps(s, j), k)
    decreases j
  {
    hide BitStep;
    if j == 0 {
    } else {
      StepsAdd(BitStep(s), j - 1, k);
    }
  }

  lemma XorComplement(s: bv32)
    ensures Xor(s, Complement(s)) == 0xFFFF_FFFF
  {
  }

  lemma TrailerWord(s: bv32, w: bv32)
    ensures w == Complement(s) <==> Steps(Xor(s, w), 32) == GOOD_FCS
  {
    hide Xor, Steps, Complement;
    XorComplement(s);
    ResidueConstant();
    if Steps(Xor(s, w), 32) == GOOD_FCS {
      StepsInjective(Xor(s, w), Xor(s, Complement(s)), 32);
      XorInjective(s, w, Complement(s));
    }
  }

  // A packet passes exactly when the shift register, run over all of it, ends at the good-FCS value.
  lemma Residue(p: Packet)
    requires |p| >= MIN_PACKET_SIZE
    ensures Validate(p) == Ok <==> Run(INITIAL, Bits(p)) == GOOD_FCS
  {
    hide Run, Bits, Xor, Pack, Steps, Complement;
    var s := Run(INITIAL, Bits(Payload(p)));
    assert p == Payload(p) + Trailer(p);
    BitsAppend(Payload(p), Trailer(p));
    RunAppend(INITIAL, Bits(Payload(p)), Bits(Trailer(p)));
    RunPacked(s, Bits(Trailer(p)));
    TrailerWord(s, ReadWord(Trailer(p)));
  }

  // ----- burst errors

  // The two bit strings agree outside the 32 positions that start at i.
  predicate BurstAt(a: seq<bool>, b: seq<bool>, i: nat)
    requires |a| == |b|
  {
    i + 32 <= |a| && a[..i] == b[..i] && a[i + 32..] == b[i + 32..]
  }

  lemma {:induction false} BurstMovesRegister(s: bv32, a: seq<bool>, b: seq<bool>, i: nat)
    requires |a| == |b| && BurstAt(a, b, i)
    requires Run(s, a) == Run(s, b)
    ensures a == b
  {
    var x, y, z := a[..i], a[i..i + 32], a[i + 32..];
    var y' := b[i..i + 32];
    assert a == x + (y + z) && b == x + (y' + z);
    hide Run;
    RunAppend(s, x, y + z);
    RunAppend(s, x, y' + z);
    RunAppend(Run(s, x), y, z);
    RunAppend(Run(s, x), y', z);
    RunInjectiveInState(Run(Run(s, x), y), Run(Run(s, x), y'), z);
    RunInjectiveInBits(Run(s, x), y, y');
  }

  // No burst of up to 32 bits turns one passing packet into another, wherever it falls.
  lemma BurstDetected(p: Packet, q: Packet, i: nat)
    requires |p| == |q| && Validate(p) == Ok && Validate(q) == Ok
    requires BurstAt(Bits(p), Bits(q), i)
    ensures p == q
  {
    Residue(p);
    Residue(q);
    hide Validate, Bits, Run, BurstAt;
    BurstMovesRegister(INITIAL, Bits(p), Bits(q), i);
    BitsInjective(p, q);
  }

  // A passing packet hit by such a burst is turned away.
  lemma DamageRejected(p: Packet, q: Packet, i: nat)
    requires Validate(p) == Ok && |q| == |p| && q != p && BurstAt(Bits(p), Bits(q), i)
    ensures Validate(q) == BadChecksum
  {
    if Validate(q) == Ok {
      BurstDetected(p, q, i);
    }
    hide Bits, BurstAt, Checksum;
  }

  // The same for four neighbouring bytes, payload or checksum.
  lemma ByteWindowDetected(p: Packet, q: Packet, i: nat)
    requires |p| == |q| && i + 4 <= |p| && p[..i] == q[..i] && p[i + 4..] == q[i + 4..]
    requires Validate(p) == Ok && Validate(q) == Ok
    ensures p == q
  {
    BitsOfWindow(p, i);
    BitsOfWindow(q, i);
    hide Validate, Bits;
    BurstDetected(p, q, 8 * i);
  }

  lemma BitsOfWindow(p: Packet, i: nat)
    requires i + 4 <= |p|
    ensures Bits(p)[..8 * i] == Bits(p[..i]) && Bits(p)[8 * i + 32..] == Bits(p[i + 4..])
  {
    assert p == p[..i] + p[i..] && p == p[..i + 4] + p[i + 4..];
    BitsAppend(p[..i], p[i..]);
    BitsAppend(p[..i + 4], p[i + 4..]);
    hide Bits;
  }
}
