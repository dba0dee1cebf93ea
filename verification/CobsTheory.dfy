/**
 * When does CobsDecode undo CobsEncode? Exactly on Encodable packets.
 */
module CobsTheory {
  import opened Bytes
  import opened Cobs

  // Nonzero bytes directly before position j.
  function RunBefore(p: seq<Byte>, j: nat): (r: nat)
    requires j <= |p|
    ensures r <= j
  {
    if j == 0 || p[j - 1] == 0 then 0 else 1 + RunBefore(p, j - 1)
  }

  // The packet does not open with 255 nonzero bytes.
  predicate OpensShort(p: seq<Byte>) {
    |p| < 255 || RunBefore(p, 255) < 255
  }

  // The zero at j ends a run that fills its last block to the brim.
  predicate ZeroLost(p: seq<Byte>, j: nat)
    requires j < |p|
  {
    p[j] == 0 && RunBefore(p, j) > 0 && RunBefore(p, j) % MAX_BLOCK == 0
  }

  predicate Encodable(p: seq<Byte>) {
    OpensShort(p) && forall j | 0 <= j < |p| :: !ZeroLost(p, j)
  }

  lemma {:induction false} RunIsNonzero(p: seq<Byte>, j: nat)
    requires j <= |p|
    ensures forall k | j - RunBefore(p, j) <= k < j :: p[k] != 0
    ensures RunBefore(p, j) < j ==> p[j - 1 - RunBefore(p, j)] == 0
  {
    if j == 0 || p[j - 1] == 0 {
    } else {
      RunIsNonzero(p, j - 1);
    }
  }

  // ----- what arrives

  // The bytes the decoder delivers for the input from s on, block boundaries as the encoder sets them.
  function Received(p: seq<Byte>, s: nat, i: nat): seq<Byte>
    requires s <= i <= |p|
    decreases |p| - i, i - s
  {
    if i == |p| then p[s..i]
    else if p[i] == 0 then p[s..i] + Implied(i - s == MAX_BLOCK) + Received(p, i + 1, i + 1)
    else if i - s == Capacity(s) then p[s..i] + Received(p, i, i)
    else Received(p, s, i + 1)
  }

  // A reachable point of the encoder: the open block p[s..i] has no zero.
  predicate Reached(p: seq<Byte>, s: nat, i: nat) {
    && s <= i <= |p| && i - s <= Capacity(s)
    && (RunBefore(p, s) % MAX_BLOCK == 0)
    && (s == 0 || RunBefore(p, s) == 0 || i > s || (i < |p| && p[i] != 0))
    && RunBefore(p, i) == RunBefore(p, s) + i - s
  }

  lemma ReachedNext(p: seq<Byte>, s: nat, i: nat)
    requires Reached(p, s, i) && i < |p|
    ensures p[i] == 0 ==> Reached(p, i + 1, i + 1)
    ensures p[i] != 0 && i - s < Capacity(s) ==> Reached(p, s, i + 1)
    ensures p[i] != 0 && i - s == MAX_BLOCK ==> Reached(p, i, i)
  {
  }

  lemma ShortFirstBlock(p: seq<Byte>, s: nat, i: nat)
    requires Reached(p, s, i) && OpensShort(p)
    ensures i - s <= MAX_BLOCK
    ensures i - s == MAX_BLOCK && i < |p| && p[i] != 0 ==> s > 0
  {
  }

  lemma DecodeUnfold(w: seq<Byte>, full: bool)
    requires w != [] && w[0] != 0
    ensures Decode(w, full) == Implied(full) + DecodeRest(w[1..], w[0] - 1, w[0] == FULL)
  {
  }

  lemma DecodeBlock(n: nat, data: seq<Byte>, rest: seq<Byte>, full: bool)
    requires n == |data| <= MAX_BLOCK
    ensures Decode([CodeByte(n + 1)] + data + rest, full) ==
            Implied(full) + data + Decode(rest, n == MAX_BLOCK)
  {
    hide Implied, Decode;
    var w := [CodeByte(n + 1)] + data + rest;
    assert w[1..] == data + rest;
    DecodeUnfold(w, full);
    Associative(Implied(full), data, Decode(rest, n == MAX_BLOCK));
    assert w[1..][..n] == data && w[1..][n..] == rest;
  }

  // The same with the decoding of what follows already known.
  lemma DecodeBlockThen(p: seq<Byte>, s: nat, i: nat, rest: seq<Byte>, full: bool,
                        implied: seq<Byte>, after: seq<Byte>)
    requires s <= i <= |p| && i - s <= MAX_BLOCK
    requires Decode(rest, i - s == MAX_BLOCK) == implied + after
    ensures Decode(Block(p, s, i) + rest, full) == Implied(full) + (p[s..i] + implied + after)
  {
    DecodeBlock(i - s, p[s..i], rest, full);
    hide Decode, Implied, CodeByte;
    Associative(Implied(full), p[s..i], implied + after);
    Associative(p[s..i], implied, after);
  }

  lemma DecodeLastBlock(p: seq<Byte>, s: nat, full: bool)
    requires s <= |p| && |p| - s <= MAX_BLOCK
    ensures Decode(Block(p, s, |p|), full) == Implied(full) + p[s..]
  {
    DecodeNothing();
    DecodeBlock(|p| - s, p[s..], [], full);
    hide Decode, Implied, CodeByte;
    assert Block(p, s, |p|) + [] == Block(p, s, |p|);
    assert p[s..|p|] == p[s..] && Implied(full) + p[s..] + [] == Implied(full) + p[s..];
  }

  // One turn of the encoder, as written and as received.
  lemma BodyStep(p: seq<Byte>, s: nat, i: nat)
    requires s <= i < |p|
    ensures p[i] == 0 ==>
              && Body(p, s, i) == Block(p, s, i) + Body(p, i + 1, i + 1)
              && Received(p, s, i) == p[s..i] + Implied(i - s == MAX_BLOCK) + Received(p, i + 1, i + 1)
    ensures p[i] != 0 && i - s == Capacity(s) ==>
              Body(p, s, i) == Block(p, s, i) + Body(p, i, i) && Received(p, s, i) == p[s..i] + Received(p, i, i)
    ensures p[i] != 0 && i - s != Capacity(s) ==>
              Body(p, s, i) == Body(p, s, i + 1) && Received(p, s, i) == Received(p, s, i + 1)
  {
    hide Block, Implied;
  }

  lemma ReceivedLast(p: seq<Byte>, s: nat)
    requires s <= |p|
    ensures Received(p, s, |p|) == p[s..]
  {
  }

  lemma {:induction false} DecodeBody(p: seq<Byte>, s: nat, i: nat, full: bool)
    requires Reached(p, s, i) && OpensShort(p)
    ensures Decode(Body(p, s, i), full) == Implied(full) + Received(p, s, i)
    decreases |p| - i, i - s
  {
    hide Reached, OpensShort, Decode, Implied, Block, Body, Received;
    ReachedBounds(p, s, i);
    ShortFirstBlock(p, s, i);
    ImpliedFull();
    if i == |p| {
      LastBlock(p, s);
      ReceivedLast(p, s);
      DecodeLastBlock(p, s, full);
    } else {
      ReachedNext(p, s, i);
      BodyStep(p, s, i);
      if p[i] == 0 {
        DecodeBody(p, i + 1, i + 1, i - s == MAX_BLOCK);
        DecodeBlockThen(p, s, i, Body(p, i + 1, i + 1), full,
                        Implied(i - s == MAX_BLOCK), Received(p, i + 1, i + 1));
      } else if i - s == Capacity(s) {
        DecodeBody(p, i, i, true);
        DecodeBlockThen(p, s, i, Body(p, i, i), full, [], Received(p, i, i));
        assert p[s..i] + [] == p[s..i];
      } else {
        DecodeBody(p, s, i + 1, full);
      }
    }
  }

  lemma ReachedBounds(p: seq<Byte>, s: nat, i: nat)
    requires Reached(p, s, i)
    ensures s <= i <= |p| && i - s <= Capacity(s)
  {
  }

  lemma DecodeNothing()
    ensures forall full :: Decode([], full) == []
  {
  }

  lemma ImpliedFull()
    ensures Implied(true) == [] && Implied(false) == [0]
  {
  }

  // ----- the zeros that go missing

  function LostZeros(p: seq<Byte>, s: nat, i: nat): nat
    requires s <= i <= |p|
    decreases |p| - i, i - s
  {
    if i == |p| then 0
    else if p[i] == 0 then (if i - s == MAX_BLOCK then 1 else 0) + LostZeros(p, i + 1, i + 1)
    else if i - s == Capacity(s) then LostZeros(p, i, i)
    else LostZeros(p, s, i + 1)
  }

  lemma {:induction false} ReceivedSize(p: seq<Byte>, s: nat, i: nat)
    requires s <= i <= |p|
    ensures |Received(p, s, i)| == |p| - s - LostZeros(p, s, i)
    decreases |p| - i, i - s
  {
    if i == |p| {
    } else if p[i] == 0 {
      ReceivedSize(p, i + 1, i + 1);
    } else if i - s == Capacity(s) {
      ReceivedSize(p, i, i);
    } else {
      ReceivedSize(p, s, i + 1);
    }
  }

  lemma Cut(p: seq<Byte>, s: nat, i: nat)
    requires s <= i <= |p|
    ensures p[s..i] + p[i..] == p[s..]
    ensures i < |p| && p[i] == 0 ==> p[s..i] + [0] + p[i + 1..] == p[s..]
  {
  }

  lemma LostStep(p: seq<Byte>, s: nat, i: nat)
    requires s <= i < |p|
    ensures p[i] == 0 ==>
              LostZeros(p, s, i) == (if i - s == MAX_BLOCK then 1 else 0) + LostZeros(p, i + 1, i + 1)
    ensures p[i] != 0 && i - s == Capacity(s) ==> LostZeros(p, s, i) == LostZeros(p, i, i)
    ensures p[i] != 0 && i - s != Capacity(s) ==> LostZeros(p, s, i) == LostZeros(p, s, i + 1)
  {
  }

  lemma {:induction false} ReceivedWhole(p: seq<Byte>, s: nat, i: nat)
    requires s <= i <= |p| && LostZeros(p, s, i) == 0
    ensures Received(p, s, i) == p[s..]
    decreases |p| - i, i - s
  {
    hide Received, LostZeros, Body, Block, Implied;
    ImpliedFull();
    if i == |p| {
      ReceivedLast(p, s);
    } else {
      Cut(p, s, i);
      LostStep(p, s, i);
      BodyStep(p, s, i);
      if p[i] == 0 {
        ReceivedWhole(p, i + 1, i + 1);
      } else if i - s == Capacity(s) {
        ReceivedWhole(p, i, i);
      } else {
        ReceivedWhole(p, s, i + 1);
      }
    }
  }

  lemma LostHere(p: seq<Byte>, s: nat, i: nat)
    requires Reached(p, s, i) && OpensShort(p) && i < |p| && p[i] == 0
    ensures ZeroLost(p, i) <==> i - s == MAX_BLOCK
  {
  }

  lemma {:induction false} LostZerosAre(p: seq<Byte>, s: nat, i: nat)
    requires Reached(p, s, i) && OpensShort(p)
    ensures LostZeros(p, s, i) == 0 <==> forall j | i <= j < |p| :: !ZeroLost(p, j)
    decreases |p| - i, i - s
  {
    ShortFirstBlock(p, s, i);
    if i < |p| {
      ReachedNext(p, s, i);
      if p[i] == 0 { LostHere(p, s, i); } else { assert !ZeroLost(p, i); }
    }
    hide Reached, ZeroLost;
    if i == |p| {
    } else if p[i] == 0 {
      LostZerosAre(p, i + 1, i + 1);
    } else if i - s == Capacity(s) {
      LostZerosAre(p, i, i);
    } else {
      LostZerosAre(p, s, i + 1);
    }
  }

  // ----- packets that open with 255 nonzero bytes

  lemma {:induction false} OverlongBody(p: seq<Byte>, i: nat)
    requires !OpensShort(p) && i <= 255
    ensures Body(p, 0, i) != [] && Body(p, 0, i)[0] == 0
    decreases 255 - i
  {
    RunIsNonzero(p, 255);
    if i == 255 {
    } else {
      OverlongBody(p, i + 1);
    }
  }

  // ----- the main results

  // The round trip holds on Encodable packets and on no others.
  lemma RoundTripIff(p: seq<Byte>)
    requires p != []
    ensures DecodeFrame(Frame(p)) == p <==> Encodable(p)
  {
    if OpensShort(p) {
      DecodeBody(p, 0, 0, true);
      ImpliedFull();
      ReceivedSize(p, 0, 0);
      if LostZeros(p, 0, 0) == 0 { ReceivedWhole(p, 0, 0); }
      LostZerosAre(p, 0, 0);
      hide OpensShort, ZeroLost, Implied, Decode;
      assert p[0..] == p;
    } else {
      OverlongBody(p, 0);
    }
  }

  // Every zero that is lost shortens the packet by one; nothing else changes.
  lemma ReceivedExactly(p: seq<Byte>)
    requires OpensShort(p)
    ensures DecodeFrame(Frame(p)) == Received(p, 0, 0)
    ensures |DecodeFrame(Frame(p))| == |p| - LostZeros(p, 0, 0)
  {
    DecodeBody(p, 0, 0, true);
    ReceivedSize(p, 0, 0);
    ImpliedFull();
  }

  lemma ShortPacketsEncodable(p: seq<Byte>)
    requires |p| <= MAX_BLOCK
    ensures Encodable(p)
  {
  }

  // Smallest packets outside the domain, one of each kind.
  lemma {:induction false} NotEncodable()
    ensures var ones := seq(254, _ => 1);
            !Encodable(ones + [0]) && !Encodable(ones + [1])
  {
    var ones: seq<Byte> := seq(254, _ => 1);
    RunOfOnes(ones + [0], 254);
    RunOfOnes(ones + [1], 255);
    assert ZeroLost(ones + [0], 254);
  }

  lemma {:induction false} RunOfOnes(p: seq<Byte>, j: nat)
    requires j <= |p| && forall k | 0 <= k < j :: p[k] == 1
    ensures RunBefore(p, j) == j
  {
    if j == 0 {
    } else {
      RunOfOnes(p, j - 1);
    }
  }

  // ----- delimiters

  lemma BlockZeroFree(p: seq<Byte>, s: nat, i: nat)
    requires Reached(p, s, i) && OpensShort(p)
    ensures NulFree(Block(p, s, i))
  {
    ShortFirstBlock(p, s, i);
    RunIsNonzero(p, i);
    assert RunBefore(p, i) >= i - s;
    hide RunBefore;
  }

  lemma JoinZeroFree(a: seq<Byte>, b: seq<Byte>)
    requires NulFree(a) && NulFree(b)
    ensures NulFree(a + b)
  {
  }

  lemma {:induction false} BodyZeroFree(p: seq<Byte>, s: nat, i: nat)
    requires Reached(p, s, i) && OpensShort(p)
    ensures NulFree(Body(p, s, i))
    decreases |p| - i, i - s
  {
    ShortFirstBlock(p, s, i);
    BlockZeroFree(p, s, i);
    if i < |p| { ReachedNext(p, s, i); }
    hide Reached, OpensShort, CodeByte, Block, NulFree;
    if i == |p| {
    } else if p[i] == 0 {
      BodyZeroFree(p, i + 1, i + 1);
      JoinZeroFree(Block(p, s, i), Body(p, i + 1, i + 1));
    } else if i - s == Capacity(s) {
      BodyZeroFree(p, i, i);
      JoinZeroFree(Block(p, s, i), Body(p, i, i));
    } else {
      BodyZeroFree(p, s, i + 1);
    }
  }

  // On the wire a packet is one zero, then no zero, then one zero, unless it opens too long.
  lemma DelimitersOnlyOutside(p: seq<Byte>)
    requires p != []
    ensures Encode(p) == [0] + Frame(p) + [0] && Frame(p) != []
    ensures NulFree(Frame(p)) <==> OpensShort(p)
  {
    BodySize(p, 0, 0);
    if OpensShort(p) {
      BodyZeroFree(p, 0, 0);
    } else {
      OverlongBody(p, 0);
    }
  }

  // ----- an encoder without the two faults

  // Closes a full block before it looks at the next byte, in the first block as in the others.
  function SoundBody(p: seq<Byte>, s: nat, i: nat): seq<Byte>
    requires s <= i <= |p|
    decreases |p| - i, i - s
  {
    if i == |p| then Block(p, s, i)
    else if i - s == MAX_BLOCK then Block(p, s, i) + SoundBody(p, i, i)
    else if p[i] == 0 then Block(p, s, i) + SoundBody(p, i + 1, i + 1)
    else SoundBody(p, s, i + 1)
  }

  function SoundFrame(p: seq<Byte>): seq<Byte> {
    SoundBody(p, 0, 0)
  }

  lemma {:induction false} DecodeSoundBody(p: seq<Byte>, s: nat, i: nat, full: bool)
    requires s <= i <= |p| && i - s <= MAX_BLOCK
    ensures Decode(SoundBody(p, s, i), full) == Implied(full) + p[s..]
    decreases |p| - i, i - s
  {
    ImpliedFull();
    hide Decode, Implied, Block;
    if i == |p| {
      DecodeLastBlock(p, s, full);
    } else if i - s == MAX_BLOCK {
      DecodeSoundBody(p, i, i, true);
      DecodeBlockThen(p, s, i, SoundBody(p, i, i), full, [], p[i..]);
      assert p[s..i] + [] + p[i..] == p[s..];
    } else if p[i] == 0 {
      DecodeSoundBody(p, i + 1, i + 1, false);
      DecodeBlockThen(p, s, i, SoundBody(p, i + 1, i + 1), full, [0], p[i + 1..]);
      assert p[s..i] + [0] + p[i + 1..] == p[s..];
    } else {
      DecodeSoundBody(p, s, i + 1, full);
    }
  }

  lemma SoundReachedNext(p: seq<Byte>, s: nat, i: nat)
    requires s <= i < |p| && i - s <= MAX_BLOCK && NulFree(p[s..i])
    ensures p[i] != 0 ==> NulFree(p[s..i + 1])
    ensures NulFree(p[i..i]) && NulFree(p[i + 1..i + 1])
  {
    assert p[s..i + 1] == p[s..i] + [p[i]];
  }

  lemma ShortBlockZeroFree(p: seq<Byte>, s: nat, i: nat)
    requires s <= i <= |p| && i - s <= MAX_BLOCK && NulFree(p[s..i])
    ensures NulFree(Block(p, s, i))
  {
  }

  lemma {:induction false} SoundBodyZeroFree(p: seq<Byte>, s: nat, i: nat)
    requires s <= i <= |p| && i - s <= MAX_BLOCK && NulFree(p[s..i])
    ensures NulFree(SoundBody(p, s, i))
    decreases |p| - i, i - s
  {
    hide Block, NulFree;
    ShortBlockZeroFree(p, s, i);
    if i < |p| { SoundReachedNext(p, s, i); }
    if i == |p| {
    } else if i - s == MAX_BLOCK {
      SoundBodyZeroFree(p, i, i);
      JoinZeroFree(Block(p, s, i), SoundBody(p, i, i));
    } else if p[i] == 0 {
      SoundBodyZeroFree(p, i + 1, i + 1);
      JoinZeroFree(Block(p, s, i), SoundBody(p, i + 1, i + 1));
    } else {
      SoundBodyZeroFree(p, s, i + 1);
    }
  }

  // At most one code byte for each 254 bytes of input, and one more.
  lemma {:induction false} SoundBodySize(p: seq<Byte>, s: nat, i: nat)
    requires s <= i <= |p| && i - s <= MAX_BLOCK
    ensures |p| - s < |SoundBody(p, s, i)| <= |p| - s + 1 + (|p| - s) / MAX_BLOCK
    decreases |p| - i, i - s
  {
    if i == |p| {
    } else if i - s == MAX_BLOCK {
      SoundBodySize(p, i, i);
    } else if p[i] == 0 {
      SoundBodySize(p, i + 1, i + 1);
    } else {
      SoundBodySize(p, s, i + 1);
    }
  }

  // On the wire the corrected encoding is framed like any other and fits the same buffer.
  lemma SoundFrameFits(p: seq<Byte>)
    ensures SoundFrame(p) != [] && NulFree(SoundFrame(p))
    ensures |SoundFrame(p)| + 2 <= |p| + |p| / MAX_BLOCK + 3
  {
    SoundBodyZeroFree(p, 0, 0);
    SoundBodySize(p, 0, 0);
  }

  lemma SoundStep(p: seq<Byte>, s: nat, i: nat)
    requires s <= i < |p|
    ensures i - s == MAX_BLOCK ==> SoundBody(p, s, i) == Block(p, s, i) + SoundBody(p, i, i)
    ensures i - s != MAX_BLOCK && p[i] == 0 ==> SoundBody(p, s, i) == Block(p, s, i) + SoundBody(p, i + 1, i + 1)
    ensures i - s != MAX_BLOCK && p[i] != 0 ==> SoundBody(p, s, i) == SoundBody(p, s, i + 1)
  {
    hide Block;
  }

  lemma SoundLast(p: seq<Byte>, s: nat)
    requires s <= |p|
    ensures SoundBody(p, s, |p|) == Block(p, s, |p|)
  {
  }

  lemma {:induction false} SameBody(p: seq<Byte>, s: nat, i: nat)
    requires Reached(p, s, i) && OpensShort(p) && LostZeros(p, s, i) == 0
    ensures Body(p, s, i) == SoundBody(p, s, i)
    decreases |p| - i, i - s
  {
    hide Reached, OpensShort, Body, SoundBody, Block, LostZeros, Received, Implied;
    ReachedBounds(p, s, i);
    ShortFirstBlock(p, s, i);
    if i == |p| {
      LastBlock(p, s);
      SoundLast(p, s);
    } else {
      ReachedNext(p, s, i);
      BodyStep(p, s, i);
      SoundStep(p, s, i);
      LostStep(p, s, i);
      if p[i] == 0 {
        SameBody(p, i + 1, i + 1);
      } else if i - s == Capacity(s) {
        SameBody(p, i, i);
      } else {
        SameBody(p, s, i + 1);
      }
    }
  }

  // The corrected encoder is undone on every packet, and differs from the firmware's only where that fails.
  lemma SoundEncoder(p: seq<Byte>)
    requires p != []
    ensures DecodeFrame(SoundFrame(p)) == p
    ensures NulFree(SoundFrame(p)) && |SoundFrame(p)| + 2 <= |p| + |p| / MAX_BLOCK + 3
    ensures Frame(p) == SoundFrame(p) <==> Encodable(p)
  {
    SoundFrameFits(p);
    DecodeSoundBody(p, 0, 0, true);
    ImpliedFull();
    assert p[0..] == p;
    RoundTripIff(p);
    if Encodable(p) {
      LostZerosAre(p, 0, 0);
      SameBody(p, 0, 0);
    }
    hide Decode, Implied, Encodable;
  }
}
