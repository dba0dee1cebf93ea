/**
 * The stuffing block by block, as a reader of the wire sees it: the encoder against a definition by
 * leading runs, and the laws that determine the decoder on any bytes.
 */
module CobsReference {
  import opened Bytes
  import opened Cobs
  import CobsTheory

  // Nonzero bytes at the front, counted up to cap.
  function Leading(p: seq<Byte>, cap: nat): (n: nat)
    ensures n <= |p| && n <= cap
  {
    if cap == 0 || p == [] || p[0] == 0 then 0 else 1 + Leading(p[1..], cap - 1)
  }

  // The longest block: 255 bytes at the front of a packet, 254 anywhere else.
  function Longest(first: bool): nat {
    if first then 255 else 254
  }

  // Blocks of a code byte, one more than the data after it modulo 256, and the data. A zero after the
  // data is dropped, even after a block of full length.
  function Blocks(p: seq<Byte>, first: bool): seq<Byte>
    decreases |p|
  {
    var n := Leading(p, Longest(first));
    if n == |p| then [(n + 1) % 256] + p
    else if p[n] == 0 then [(n + 1) % 256] + p[..n] + Blocks(p[n + 1..], false)
    else LeadingStops(p, Longest(first)); [(n + 1) % 256] + p[..n] + Blocks(p[n..], false)
  }

  // The count stops at the end, at a zero, or at its cap.
  lemma {:induction false} LeadingStops(p: seq<Byte>, cap: nat)
    ensures var n := Leading(p, cap);
            && (forall i | 0 <= i < n :: p[i] != 0)
            && (n < |p| && p[n] != 0 ==> n == cap)
  {
    if cap == 0 || p == [] || p[0] == 0 {
    } else {
      LeadingStops(p[1..], cap - 1);
    }
  }

  // Where the count stops is where it was bound to.
  lemma {:induction false} LeadingIs(p: seq<Byte>, cap: nat, n: nat)
    requires n <= |p| && n <= cap && (forall i | 0 <= i < n :: p[i] != 0)
    requires n == |p| || p[n] == 0 || n == cap
    ensures Leading(p, cap) == n
  {
    if n == 0 {
    } else {
      LeadingIs(p[1..], cap - 1, n - 1);
    }
  }

  // One block, by where it stops.
  lemma BlocksEnd(p: seq<Byte>, first: bool)
    requires |p| <= Longest(first) && forall i | 0 <= i < |p| :: p[i] != 0
    ensures Blocks(p, first) == [(|p| + 1) % 256] + p
  {
    LeadingIs(p, Longest(first), |p|);
    hide Leading;
  }

  lemma BlocksZero(p: seq<Byte>, first: bool, n: nat)
    requires n < |p| && n <= Longest(first) && (forall i | 0 <= i < n :: p[i] != 0) && p[n] == 0
    ensures Blocks(p, first) == [(n + 1) % 256] + p[..n] + Blocks(p[n + 1..], false)
  {
    LeadingIs(p, Longest(first), n);
    hide Leading;
  }

  lemma BlocksFull(p: seq<Byte>, first: bool, n: nat)
    requires n < |p| && n == Longest(first) && (forall i | 0 <= i < n :: p[i] != 0) && p[n] != 0
    ensures Blocks(p, first) == [(n + 1) % 256] + p[..n] + Blocks(p[n..], false)
  {
    LeadingIs(p, Longest(first), n);
    hide Leading;
  }

  // The encoder's frame is those blocks, for every packet.
  lemma FrameIsBlocks(p: seq<Byte>)
    ensures Frame(p) == Blocks(p, true)
  {
    BodyIsBlocks(p, 0, 0);
    hide Blocks, Body;
    assert p[0..] == p;
  }

  lemma {:induction false} BodyIsBlocks(p: seq<Byte>, s: nat, i: nat)
    requires s <= i <= |p| && i - s <= Longest(s == 0) && forall k | s <= k < i :: p[k] != 0
    ensures Body(p, s, i) == Blocks(p[s..], s == 0)
    decreases |p| - i, i - s
  {
    hide Blocks, Body, CobsTheory.Received;
    CutAt(p, s, i);
    if i == |p| {
      LastBlock(p, s);
      BlocksEnd(p[s..], s == 0);
    } else {
      CobsTheory.BodyStep(p, s, i);
      if p[i] == 0 {
        BlocksZero(p[s..], s == 0, i - s);
        BodyIsBlocks(p, i + 1, i + 1);
      } else if i - s == Longest(s == 0) {
        BlocksFull(p[s..], s == 0, i - s);
        BodyIsBlocks(p, i, i);
      } else {
        BodyIsBlocks(p, s, i + 1);
      }
    }
  }

  lemma CutAt(p: seq<Byte>, s: nat, i: nat)
    requires s <= i <= |p|
    ensures p[s..][..i - s] == p[s..i] && p[s..][i - s..] == p[i..]
    ensures i < |p| ==> p[s..][i - s] == p[i] && p[s..][i - s + 1..] == p[i + 1..]
    ensures forall k | 0 <= k < i - s :: p[s..][k] == p[s + k]
  {
  }

  // ----- the decoder

  // What a block leaves to be written before the next one: a zero, unless its code was 255.
  function Zero(code: Byte): seq<Byte> {
    if code == 255 then [] else [0]
  }

  // Decoding on after a block with this code. A frame begins as if after code 255.
  function After(code: Byte, w: seq<Byte>): seq<Byte> {
    Decode(w, code == 255)
  }

  // Nothing more, or a zero where a code should be: decoding stops. A code with all its data, zeros
  // among them or not: the zero due, the data, and on. A code with less: the zero due and what there is.
  lemma DecodeLaws(before: Byte, code: Byte, data: seq<Byte>, rest: seq<Byte>)
    ensures DecodeFrame(rest) == After(255, rest)
    ensures After(before, []) == [] && After(before, [0] + rest) == []
    ensures code > 0 && |data| == code - 1 ==>
              After(before, [code] + (data + rest)) == Zero(before) + (data + After(code, rest))
    ensures code > 0 && |data| < code - 1 ==> After(before, [code] + data) == Zero(before) + data
  {
    if code > 0 {
      var w := [code] + if |data| == code - 1 then data + rest else data;
      assert w[0] == code && w[1..] == if |data| == code - 1 then data + rest else data;
      DecodeData(code, data, rest);
      DecodeOne(before, w);
    }
    hide DecodeRest;
  }

  lemma DecodeOne(before: Byte, w: seq<Byte>)
    requires w != [] && w[0] != 0
    ensures After(before, w) == Zero(before) + DecodeRest(w[1..], w[0] - 1, w[0] == 255)
  {
    hide DecodeRest;
  }

  lemma DecodeData(code: Byte, data: seq<Byte>, rest: seq<Byte>)
    requires code > 0
    ensures |data| == code - 1 ==> DecodeRest(data + rest, code - 1, code == 255) == data + After(code, rest)
    ensures |data| < code - 1 ==> DecodeRest(data, code - 1, code == 255) == data
  {
    assert (data + rest)[..|data|] == data && (data + rest)[|data|..] == rest;
    assert data[..|data|] == data && data[|data|..] == [];
    assert Decode([], code == 255) == [];
    assert data + [] == data;
    hide Decode;
  }
}
