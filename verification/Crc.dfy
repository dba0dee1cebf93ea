/**
 * CRC-32 as the firmware computes it (a 16-entry table, two look-ups per byte),
 * against the bit-serial shift register of RFC 1662 appendix C.3.
 */
module Crc {
  import opened Bytes
  import opened Words

  const INITIAL: bv32 := 0xFFFF_FFFF
  const POLYNOMIAL: bv32 := 0xEDB8_8320
  const GOOD_FCS: bv32 := 0xDEBB_20E3

  // ----- the reference: one bit at a time, least significant bit of each byte first

  function BitStep(s: bv32): bv32 {
    if Odd(s) then Xor(Half(s), POLYNOMIAL) else Half(s)
  }

  function Feed(s: bv32, bit: bool): bv32 {
    BitStep(Xor(s, BitWord(bit)))
  }

  function Run(s: bv32, bits: seq<bool>): bv32
    decreases bits
  {
    if bits == [] then s else Run(Feed(s, bits[0]), bits[1..])
  }

  function Complement(s: bv32): bv32 {
    !s
  }

  // The CRC-32 of a byte sequence.
  function Checksum(p: seq<Byte>): bv32 {
    Complement(Run(INITIAL, Bits(p)))
  }

  // ----- algebra of the shift register

  function Steps(s: bv32, k: nat): bv32
    decreases k
  {
    if k == 0 then s else Steps(BitStep(s), k - 1)
  }

  lemma BitStepInjective(s: bv32, t: bv32)
    requires BitStep(s) == BitStep(t)
    ensures s == t
  {
  }

  lemma {:induction false} StepsInjective(s: bv32, t: bv32, k: nat)
    requires Steps(s, k) == Steps(t, k)
    ensures s == t
    decreases k
  {
    hide BitStep;
    if k == 0 {
    } else {
      StepsInjective(BitStep(s), BitStep(t), k - 1);
      BitStepInjective(s, t);
    }
  }

  // A later word may be added before the step if it is moved up by one bit first.
  lemma StepTakesLater(s: bv32, x: bool, v: bv32)
    requires Within(v, LOW31)
    ensures Xor(Feed(s, x), v) == BitStep(Xor(s, Cons(x, v)))
  {
    assert BitWord(x) <= 1;
    hide Xor, Join, BitWord, Within, Odd, Half;
    XorJoin(s, BitWord(x), v);
    XorSwap(Half(Xor(s, BitWord(x))), POLYNOMIAL, v);
  }

  // At most 32 input bits act as one word added to the state.
  lemma {:induction false} RunPacked(s: bv32, bits: seq<bool>)
    requires |bits| <= 32
    ensures Run(s, bits) == Steps(Xor(s, Pack(bits)), |bits|)
    decreases bits
  {
    XorZero(s);
    hide BitStep, Feed, Xor, Cons, Within;
    if bits == [] {
    } else {
      RunPacked(Feed(s, bits[0]), bits[1..]);
      PackBound(bits[1..]);
      StepTakesLater(s, bits[0], Pack(bits[1..]));
    }
  }

  lemma {:induction false} RunAppend(s: bv32, a: seq<bool>, b: seq<bool>)
    ensures Run(s, a + b) == Run(Run(s, a), b)
    decreases a
  {
    hide Feed;
    if a == [] {
      assert a + b == b;
    } else {
      assert (a + b)[1..] == a[1..] + b;
      RunAppend(Feed(s, a[0]), a[1..], b);
    }
  }

  lemma FeedInjective(s: bv32, t: bv32, x: bool)
    requires Feed(s, x) == Feed(t, x)
    ensures s == t
  {
  }

  // For fixed input the register never merges two states.
  lemma {:induction false} RunInjectiveInState(s: bv32, t: bv32, bits: seq<bool>)
    requires Run(s, bits) == Run(t, bits)
    ensures s == t
    decreases bits
  {
    hide Feed;
    if bits == [] {
    } else {
      RunInjectiveInState(Feed(s, bits[0]), Feed(t, bits[0]), bits[1..]);
      FeedInjective(s, t, bits[0]);
    }
  }

  // From a fixed state, 32 bits or fewer never merge either.
  lemma RunInjectiveInBits(s: bv32, a: seq<bool>, b: seq<bool>)
    requires |a| == |b| <= 32 && Run(s, a) == Run(s, b)
    ensures a == b
  {
    hide Run, Steps, Xor, Pack;
    RunPacked(s, a);
    RunPacked(s, b);
    StepsInjective(Xor(s, Pack(a)), Xor(s, Pack(b)), |a|);
    XorInjective(s, Pack(a), Pack(b));
    PackInjective(a, b);
  }

  // ----- the table-driven register

  const TABLE: seq<bv32> := [
    0x0000_0000, 0x1db7_1064, 0x3b6e_20c8, 0x26d9_30ac, 0x76dc_4190, 0x6b6b_51f4,
    0x4db2_6158, 0x5005_713c, 0xedb8_8320, 0xf00f_9344, 0xd6d6_a3e8, 0xcb61_b38c,
    0x9b64_c2b0, 0x86d3_d2d4, 0xa00a_e278, 0xbdbd_f21c
  ]

  function TableAt(i: bv32): bv32
    requires i < 16
  {
    TABLE[i as int]
  }

  function NibbleStep(s: bv32): bv32 {
    BitStep(BitStep(BitStep(BitStep(s))))
  }

  lemma TableIsNibbleStep(i: bv32)
    requires i < 16
    ensures TableAt(i) == NibbleStep(i)
  {
  }

  function High(s: bv32): bv32 {
    s >> 4
  }

  function TableIndex(w: bv32): (i: bv32)
    ensures i < 16
  {
    (w & 0xFF) & 0x0F
  }

  lemma OddXor(s: bv32, t: bv32)
    ensures Odd(Xor(s, t)) <==> Odd(s) != Odd(t)
  {
  }

  lemma HalfXor(s: bv32, t: bv32)
    ensures Half(Xor(s, t)) == Xor(Half(s), Half(t))
  {
  }

  lemma XorUndone(a: bv32, c: bv32)
    ensures Xor(Xor(a, c), c) == a
  {
  }

  lemma XorTwice(a: bv32, b: bv32, c: bv32)
    ensures Xor(Xor(a, b), c) == Xor(Xor(a, c), b)
    ensures Xor(a, Xor(b, c)) == Xor(Xor(a, c), b)
    ensures Xor(Xor(a, c), Xor(b, c)) == Xor(a, b)
  {
    hide Xor;
    XorSwap(a, b, c);
    XorAssociative(a, b, c);
    XorAssociative(Xor(a, c), b, c);
    XorSwap(Xor(a, c), b, c);
    XorUndone(a, c);
  }

  // A bit step is linear.
  lemma BitStepXor(s: bv32, t: bv32)
    ensures BitStep(Xor(s, t)) == Xor(BitStep(s), BitStep(t))
  {
    hide Xor, Odd, Half;
    OddXor(s, t);
    HalfXor(s, t);
    XorTwice(Half(s), Half(t), POLYNOMIAL);
  }

  lemma NibbleStepXor(s: bv32, t: bv32)
    ensures NibbleStep(Xor(s, t)) == Xor(NibbleStep(s), NibbleStep(t))
  {
    hide Xor, BitStep;
    BitStepXor(s, t);
    BitStepXor(BitStep(s), BitStep(t));
    BitStepXor(BitStep(BitStep(s)), BitStep(BitStep(t)));
    BitStepXor(BitStep(BitStep(BitStep(s))), BitStep(BitStep(BitStep(t))));
  }

  function HighPart(w: bv32): bv32 {
    w & 0xFFFF_FFF0
  }

  lemma HighPartSteps(w: bv32)
    ensures NibbleStep(HighPart(w)) == High(w)
  {
  }

  lemma LowAndHigh(w: bv32)
    ensures w == Xor(TableIndex(w), HighPart(w))
  {
  }

  lemma NibbleSplit(w: bv32)
    ensures NibbleStep(w) == Xor(NibbleStep(TableIndex(w)), High(w))
  {
    hide Xor, NibbleStep, TableIndex, HighPart, High;
    LowAndHigh(w);
    NibbleStepXor(TableIndex(w), HighPart(w));
    HighPartSteps(w);
  }

  lemma HighOfXor(a: bv32, b: bv32)
    ensures High(Xor(a, b)) == Xor(High(a), High(b))
  {
  }

  // One look-up: the low nibble of state and data together picks the table entry.
  function Lookup(s: bv32, d: bv32): bv32 {
    Xor(TableAt(TableIndex(Xor(s, d))), High(s))
  }

  lemma LookupIsFourSteps(s: bv32, d: bv32)
    ensures Xor(Lookup(s, d), High(d)) == NibbleStep(Xor(s, d))
  {
    hide Xor, NibbleStep, TableAt, TableIndex, High;
    NibbleSplit(Xor(s, d));
    TableIsNibbleStep(TableIndex(Xor(s, d)));
    HighOfXor(s, d);
    XorAssociative(TableAt(TableIndex(Xor(s, d))), High(s), High(d));
  }

  lemma ByteShiftedOut(d: bv32)
    requires Within(d, 0xFF)
    ensures High(High(d)) == 0
  {
  }

  lemma TwoLookups(s: bv32, data: Byte)
    ensures Lookup(Lookup(s, Word(data)), High(Word(data))) == Run(s, ByteBits(data, 8))
  {
    var d := Word(data);
    hide Lookup, NibbleStep, Xor, Within, Run, Pack, Steps, High, Mask, ByteBits;
    RunPacked(s, ByteBits(data, 8));
    PackWithin(ByteBits(data, 8));
    MaskValues();
    ByteShiftedOut(d);
    LookupIsFourSteps(s, d);
    LookupIsFourSteps(Lookup(s, d), High(d));
    XorZero(Lookup(Lookup(s, d), High(d)));
    EightSteps(Xor(s, d));
  }

  lemma EightSteps(s: bv32)
    ensures Steps(s, 8) == NibbleStep(NibbleStep(s))
  {
  }

  // crc32.cpp keeps the running remainder in _state.
  class CRC32 {
    var state: bv32

    constructor ()
      ensures state == INITIAL
    {
      new;
      Reset();
    }

    method Reset()
      modifies this
      ensures state == INITIAL
    {
      state := INITIAL;
    }

    method UpdateByte(data: Byte)
      modifies this
      ensures state == Run(old(state), ByteBits(data, 8))
    {
      hide Run, Word, Lookup, High;
      TwoLookups(state, data);
      state := Lookup(state, Word(data));
      state := Lookup(state, High(Word(data)));
    }

    method Update(data: seq<Byte>)
      modifies this
      ensures state == Run(old(state), Bits(data))
    {
      hide Feed;
      var i := 0;
      while i < |data|
        invariant 0 <= i <= |data|
        invariant Run(state, Bits(data[i..])) == Run(old(state), Bits(data))
      {
        RunAppend(state, ByteBits(data[i], 8), Bits(data[i + 1..]));
        assert data[i..][1..] == data[i + 1..];
        UpdateByte(data[i]);
        i := i + 1;
      }
    }

    method Finalize() returns (crc: bv32)
      ensures crc == !state
    {
      crc := !state;
    }
  }

  method Calculate(data: seq<Byte>) returns (crc: bv32)
    ensures crc == Checksum(data)
  {
    hide Run;
    var c := new CRC32();
    c.Update(data);
    crc := c.Finalize();
  }
}
