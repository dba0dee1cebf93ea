/**
 * Bits of bytes and 32-bit words: packing, unpacking, and the byte images memcpy and shifts make.
 */
module Words {
  import opened Bytes

  predicate Odd(w: bv32) {
    w & 1 == 1
  }

  function Half(w: bv32): bv32 {
    w >> 1
  }

  function Xor(a: bv32, b: bv32): bv32 {
    a ^ b
  }

  function BitWord(bit: bool): bv32 {
    if bit then 1 else 0
  }

  function Or(v: bv32, w: bv32): bv32 {
    v | w
  }

  function Double(w: bv32): bv32 {
    w << 1
  }

  // The word with x in its lowest bit below the bits of v.
  function Join(x: bv32, v: bv32): bv32 {
    Or(x, Double(v))
  }

  function Cons(x: bool, v: bv32): bv32 {
    Join(BitWord(x), v)
  }

  function Pack(bits: seq<bool>): bv32 {
    if bits == [] then 0 else Cons(bits[0], Pack(bits[1..]))
  }

  function ByteBits(n: nat, k: nat): (bits: seq<bool>)
    ensures |bits| == k
  {
    if k == 0 then [] else [n % 2 == 1] + ByteBits(n / 2, k - 1)
  }

  // Least significant bit of each byte first.
  function Bits(p: seq<Byte>): (bits: seq<bool>)
    ensures |bits| == 8 * |p|
  {
    if p == [] then [] else ByteBits(p[0], 8) + Bits(p[1..])
  }

  function Unpack(w: bv32, k: nat): (bits: seq<bool>)
    ensures |bits| == k
    decreases k
  {
    if k == 0 then [] else [Odd(w)] + Unpack(Half(w), k - 1)
  }

  function BitsValue(bits: seq<bool>): nat {
    if bits == [] then 0 else (if bits[0] then 1 else 0) + 2 * BitsValue(bits[1..])
  }

  // A uint8_t promoted to 32 bits.
  function Word(b: Byte): bv32 {
    Pack(ByteBits(b, 8))
  }

  function LowByte(w: bv32): Byte {
    BitsValueBound(Unpack(w, 8));
    BitsValue(Unpack(w, 8))
  }

  function Down(w: bv32): bv32 {
    w >> 8
  }

  // The image memcpy takes of a uint32_t on the little-endian target.
  function WordBytes(w: bv32): (bytes: seq<Byte>)
    ensures |bytes| == 4
  {
    var w1 := Down(w);
    var w2 := Down(w1);
    [LowByte(w), LowByte(w1), LowByte(w2), LowByte(Down(w2))]
  }

  // Four bytes read back as a little-endian uint32_t.
  function ReadWord(t: seq<Byte>): bv32
    requires |t| == 4
  {
    Pack(Bits(t))
  }

  // ----- packing loses nothing

  function Pow2(k: nat): (p: nat)
    ensures p > 0
  {
    if k == 0 then 1 else 2 * Pow2(k - 1)
  }

  lemma {:induction false} BitsValueBound(bits: seq<bool>)
    ensures BitsValue(bits) < Pow2(|bits|)
    ensures |bits| == 8 ==> BitsValue(bits) < 256
  {
    if bits == [] {
    } else {
      BitsValueBound(bits[1..]);
    }
    assert Pow2(8) == 256;
  }

  lemma {:induction false} BitsOfValue(bits: seq<bool>)
    ensures ByteBits(BitsValue(bits), |bits|) == bits
  {
    if bits == [] {
    } else {
      BitsOfValue(bits[1..]);
    }
  }

  lemma {:induction false} ValueOfBits(n: nat, k: nat)
    requires n < Pow2(k)
    ensures BitsValue(ByteBits(n, k)) == n
  {
    if k == 0 {
    } else {
      ValueOfBits(n / 2, k - 1);
      assert ByteBits(n, k)[1..] == ByteBits(n / 2, k - 1);
    }
  }

  // The k low bits set.
  function Mask(k: nat): bv32 {
    if k == 0 then 0 else Cons(true, Mask(k - 1))
  }

  predicate Within(v: bv32, m: bv32) {
    v & m == v
  }

  lemma JoinWithin(x: bv32, v: bv32, m: bv32)
    requires Within(v, m) && x <= 1
    ensures Within(Join(x, v), Join(1, m))
  {
  }

  lemma ConsWithin(x: bool, v: bv32, m: bv32)
    requires Within(v, m)
    ensures Within(Cons(x, v), Cons(true, m))
  {
    assert BitWord(x) <= 1 && BitWord(true) == 1;
    hide BitWord, Join, Within;
    JoinWithin(BitWord(x), v, m);
  }

  lemma {:induction false} MaskGrows(k: nat, n: nat)
    requires k <= n
    ensures Within(Mask(k), Mask(n))
  {
    if k == 0 {
    } else {
      MaskGrows(k - 1, n - 1);
      ConsWithin(true, Mask(k - 1), Mask(n - 1));
      hide Within, Cons;
    }
  }

  lemma {:induction false} PackWithin(bits: seq<bool>)
    ensures Within(Pack(bits), Mask(|bits|))
  {
    if bits == [] {
    } else {
      PackWithin(bits[1..]);
      ConsWithin(bits[0], Pack(bits[1..]), Mask(|bits| - 1));
      hide Within, Cons;
    }
  }

  lemma WithinTrans(v: bv32, m: bv32, n: bv32)
    requires Within(v, m) && Within(m, n)
    ensures Within(v, n)
  {
  }

  const LOW31: bv32 := 0x7FFF_FFFF

  lemma MaskValues()
    ensures Mask(8) == 0xFF && Mask(31) == LOW31 && Mask(32) == 0xFFFF_FFFF
  {
    assert Mask(12) == 0xFFF && Mask(16) == 0xFFFF && Mask(20) == 0xF_FFFF && Mask(24) == 0xFF_FFFF;
    assert Mask(28) == 0xFFF_FFFF;
  }

  lemma PackBound(bits: seq<bool>)
    requires |bits| <= 31
    ensures Within(Pack(bits), LOW31)
  {
    PackWithin(bits);
    MaskGrows(|bits|, 31);
    MaskValues();
    WithinTrans(Pack(bits), Mask(|bits|), LOW31);
    hide Within, Cons, Pack, Mask;
  }

  lemma ConsInjective(x: bool, v: bv32, y: bool, w: bv32)
    requires Within(v, LOW31) && Within(w, LOW31)
    requires Cons(x, v) == Cons(y, w)
    ensures x == y && v == w
  {
  }

  lemma {:induction false} PackInjective(a: seq<bool>, b: seq<bool>)
    requires |a| == |b| <= 32 && Pack(a) == Pack(b)
    ensures a == b
  {
    hide Within, Cons;
    if a == [] {
    } else {
      PackBound(a[1..]);
      PackBound(b[1..]);
      ConsInjective(a[0], Pack(a[1..]), b[0], Pack(b[1..]));
      PackInjective(a[1..], b[1..]);
      assert a == [a[0]] + a[1..] && b == [b[0]] + b[1..];
    }
  }

  // ----- exclusive or

  lemma XorZero(s: bv32)
    ensures Xor(s, 0) == s
  {
  }

  lemma XorInjective(s: bv32, v: bv32, w: bv32)
    requires Xor(s, v) == Xor(s, w)
    ensures v == w
  {
  }

  lemma XorJoin(s: bv32, x: bv32, v: bv32)
    requires Within(v, LOW31) && x <= 1
    ensures Odd(Xor(s, Join(x, v))) == Odd(Xor(s, x))
    ensures Half(Xor(s, Join(x, v))) == Xor(Half(Xor(s, x)), v)
  {
  }

  lemma XorAssociative(a: bv32, b: bv32, c: bv32)
    ensures Xor(Xor(a, b), c) == Xor(a, Xor(b, c))
  {
  }

  lemma XorCommutes(a: bv32, b: bv32)
    ensures Xor(a, b) == Xor(b, a)
  {
  }

  lemma XorSwap(a: bv32, b: bv32, c: bv32)
    ensures Xor(Xor(a, b), c) == Xor(Xor(a, c), b)
  {
    hide Xor;
    XorAssociative(a, b, c);
    XorCommutes(b, c);
    XorAssociative(a, c, b);
  }

  // ----- bits of byte sequences

  lemma {:induction false} BitsAppend(p: seq<Byte>, q: seq<Byte>)
    ensures Bits(p + q) == Bits(p) + Bits(q)
  {
    if p == [] {
      assert p + q == q;
    } else {
      assert (p + q)[1..] == p[1..] + q;
      BitsAppend(p[1..], q);
    }
  }

  lemma {:induction false} BitsInjective(p: seq<Byte>, q: seq<Byte>)
    requires |p| == |q| && Bits(p) == Bits(q)
    ensures p == q
  {
    if p == [] {
    } else {
      assert Bits(p)[..8] == ByteBits(p[0], 8) && Bits(q)[..8] == ByteBits(q[0], 8);
      assert Bits(p)[8..] == Bits(p[1..]) && Bits(q)[8..] == Bits(q[1..]);
      assert Pow2(8) == 256;
      ValueOfBits(p[0], 8);
      ValueOfBits(q[0], 8);
      BitsInjective(p[1..], q[1..]);
      assert p == [p[0]] + p[1..] && q == [q[0]] + q[1..];
    }
  }

  // ----- words and their byte images

  function And(a: bv32, b: bv32): bv32 {
    a & b
  }

  lemma JoinHalf(w: bv32, m: bv32)
    ensures Join(if Odd(w) then 1 else 0, Half(w) & m) == w & Join(1, m)
  {
  }

  lemma ConsHalf(w: bv32, m: bv32)
    ensures Cons(Odd(w), And(Half(w), m)) == And(w, Cons(true, m))
  {
    hide Join, Half, Odd;
    JoinHalf(w, m);
  }

  lemma {:induction false} PackUnpack(w: bv32, k: nat)
    ensures Pack(Unpack(w, k)) == And(w, Mask(k))
    decreases k
  {
    hide Half, Odd, Cons;
    if k == 0 {
    } else {
      hide And;
      PackUnpack(Half(w), k - 1);
      ConsHalf(w, Mask(k - 1));
      assert Unpack(w, k)[1..] == Unpack(Half(w), k - 1);
    }
  }

  lemma WholeWord(w: bv32)
    ensures Pack(Unpack(w, 32)) == w
  {
    PackUnpack(w, 32);
    hide Pack, Unpack;
    MaskValues();
    hide Mask;
  }

  function Halves(w: bv32, k: nat): bv32
    decreases k
  {
    if k == 0 then w else Halves(Half(w), k - 1)
  }

  lemma {:induction false} UnpackSplit(w: bv32, j: nat, k: nat)
    ensures Unpack(w, j + k) == Unpack(w, j) + Unpack(Halves(w, j), k)
    decreases j
  {
    hide Half, Odd;
    if j == 0 {
    } else {
      UnpackSplit(Half(w), j - 1, k);
    }
  }

  lemma HalvesEight(w: bv32)
    ensures Halves(w, 8) == Down(w)
  {
  }

  lemma LowByteBits(w: bv32)
    ensures ByteBits(LowByte(w), 8) == Unpack(w, 8)
  {
    BitsOfValue(Unpack(w, 8));
    hide Unpack;
  }

  lemma OneByte(b: Byte)
    ensures Bits([b]) == ByteBits(b, 8)
  {
  }

  lemma FourBytes(a: Byte, b: Byte, c: Byte, d: Byte)
    ensures Bits([a, b, c, d]) == ByteBits(a, 8) + (ByteBits(b, 8) + (ByteBits(c, 8) + ByteBits(d, 8)))
  {
    hide ByteBits, Bits;
    OneByte(a); OneByte(b); OneByte(c); OneByte(d);
    assert [a, b, c, d] == [a] + [b, c, d] && [b, c, d] == [b] + [c, d] && [c, d] == [c] + [d];
    BitsAppend([a], [b, c, d]);
    BitsAppend([b], [c, d]);
    BitsAppend([c], [d]);
  }

  lemma WordBytesBits(w: bv32)
    ensures Bits(WordBytes(w)) == Unpack(w, 32)
  {
    var w1 := Down(w);
    var w2 := Down(w1);
    var w3 := Down(w2);
    hide LowByte, Bits, Unpack, Halves, ByteBits, Down;
    HalvesEight(w); HalvesEight(w1); HalvesEight(w2);
    UnpackSplit(w, 8, 24);
    UnpackSplit(w1, 8, 16);
    UnpackSplit(w2, 8, 8);
    LowByteBits(w); LowByteBits(w1); LowByteBits(w2); LowByteBits(w3);
    FourBytes(LowByte(w), LowByte(w1), LowByte(w2), LowByte(w3));
  }

  lemma ReadWordBytes(w: bv32)
    ensures ReadWord(WordBytes(w)) == w
  {
    WordBytesBits(w);
    WholeWord(w);
    hide Bits, WordBytes, Unpack, Pack;
  }

  // ----- the shifts validate_packet uses to put the word together

  function Doubles(w: bv32, k: nat): bv32
    decreases k
  {
    if k == 0 then w else Double(Doubles(w, k - 1))
  }

  function Up(w: bv32): bv32 {
    w << 8
  }

  // The four bytes a, b, c, d of a packet put back together, lowest first.
  function ByShifts(a: bv32, b: bv32, c: bv32, d: bv32): bv32 {
    Or(Or(Or(d << 24, c << 16), b << 8), a)
  }

  lemma OrAssociative(a: bv32, b: bv32, c: bv32)
    ensures Or(Or(a, b), c) == Or(a, Or(b, c))
  {
  }

  lemma OrCommutes(a: bv32, b: bv32)
    ensures Or(a, b) == Or(b, a)
  {
  }

  lemma OrZero(w: bv32)
    ensures Or(0, w) == w
  {
  }

  lemma DoubleOr(v: bv32, w: bv32)
    ensures Double(Or(v, w)) == Or(Double(v), Double(w))
  {
  }

  lemma UpOr(v: bv32, w: bv32)
    ensures Up(Or(v, w)) == Or(Up(v), Up(w))
  {
  }

  lemma UpTwice(w: bv32)
    ensures Up(Up(w)) == w << 16
  {
  }

  lemma UpThrice(w: bv32)
    ensures Up(Up(Up(w))) == w << 24
  {
  }

  lemma JoinOr(x: bv32, v: bv32, w: bv32)
    ensures Join(x, Or(v, w)) == Or(Join(x, v), Double(w))
  {
    hide Or, Double;
    DoubleOr(v, w);
    OrAssociative(x, Double(v), Double(w));
  }

  lemma {:induction false} PackAppend(a: seq<bool>, b: seq<bool>)
    ensures Pack(a + b) == Or(Pack(a), Doubles(Pack(b), |a|))
  {
    hide Join, BitWord, Or, Double;
    if a == [] {
      assert a + b == b;
      OrZero(Pack(b));
    } else {
      assert (a + b)[1..] == a[1..] + b;
      PackAppend(a[1..], b);
      JoinOr(BitWord(a[0]), Pack(a[1..]), Doubles(Pack(b), |a| - 1));
    }
  }

  lemma EightDoubles(w: bv32)
    ensures Double(Double(Double(Double(Double(Double(Double(Double(w)))))))) == Up(w)
  {
  }

  lemma PackByte(a: seq<bool>, b: seq<bool>)
    requires |a| == 8
    ensures Pack(a + b) == Or(Pack(a), Up(Pack(b)))
  {
    hide Pack, Double, Up, Or;
    PackAppend(a, b);
    EightDoubles(Pack(b));
    assert Doubles(Pack(b), 8) == Double(Double(Double(Double(Double(Double(Double(Double(Pack(b)))))))));
  }

  lemma NestedShifts(a: bv32, b: bv32, c: bv32, d: bv32)
    ensures Or(a, Up(Or(b, Up(Or(c, Up(d)))))) == ByShifts(a, b, c, d)
  {
    UpTwice(c);
    UpThrice(d);
    assert Up(b) == b << 8;
    hide Or, Up;
    UpOr(c, Up(d));
    UpOr(b, Or(Up(c), Up(Up(d))));
    UpOr(Up(c), Up(Up(d)));
    OrCommutes(Up(Up(c)), Up(Up(Up(d))));
    OrCommutes(Up(b), Or(Up(Up(Up(d))), Up(Up(c))));
    OrCommutes(a, Or(Or(Up(Up(Up(d))), Up(Up(c))), Up(b)));
  }

  lemma ReadWordByShifts(t: seq<Byte>)
    requires |t| == 4
    ensures ReadWord(t) == ByShifts(Word(t[0]), Word(t[1]), Word(t[2]), Word(t[3]))
  {
    hide Bits, Pack, ByteBits, ByShifts, Or, Up;
    var a, b, c, d := ByteBits(t[0], 8), ByteBits(t[1], 8), ByteBits(t[2], 8), ByteBits(t[3], 8);
    assert t == [t[0], t[1], t[2], t[3]];
    FourBytes(t[0], t[1], t[2], t[3]);
    PackByte(a, b + (c + d));
    PackByte(b, c + d);
    PackByte(c, d);
    NestedShifts(Pack(a), Pack(b), Pack(c), Pack(d));
  }
}
