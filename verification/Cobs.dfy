/**
 * Consistent Overhead Byte Stuffing as vdb_device.cpp writes it.
 *
 * Every function here indexes one packet p by position: s is where the open block's data
 * starts and i is the next input byte, so the open block always holds p[s..i].
 */
module Cobs {
  import opened Bytes

  const MAX_BLOCK := 254
  const FULL := 0xFF

  // (uint8_t)code_value
  function CodeByte(n: nat): Byte {
    n % 256
  }

  // The encoder counts `length` from 0 in the first block and from 1 in all others,
  // so the first block is let run one byte too far.
  function Capacity(s: nat): nat {
    if s == 0 then 255 else MAX_BLOCK
  }

  // What follows output position s - 1 on the wire, up to the closing delimiter.
  function Body(p: seq<Byte>, s: nat, i: nat): seq<Byte>
    requires s <= i <= |p|
    decreases |p| - i, i - s
  {
    if i == |p| then Block(p, s, i)
    else if p[i] == 0 then Block(p, s, i) + Body(p, i + 1, i + 1)
    else if i - s == Capacity(s) then Block(p, s, i) + Body(p, i, i)
    else Body(p, s, i + 1)
  }

  // The bytes between the delimiters.
  function Frame(p: seq<Byte>): seq<Byte> {
    Body(p, 0, 0)
  }

  function Encode(p: seq<Byte>): seq<Byte> {
    if p == [] then [] else [0] + Frame(p) + [0]
  }

  // Blocks closed because they were full rather than because a zero came.
  function Splits(p: seq<Byte>, s: nat, i: nat): nat
    requires s <= i <= |p|
    decreases |p| - i, i - s
  {
    if i == |p| then 0
    else if p[i] == 0 then Splits(p, i + 1, i + 1)
    else if i - s == Capacity(s) then 1 + Splits(p, i, i)
    else Splits(p, s, i + 1)
  }

  lemma {:induction false} SplitsBound(p: seq<Byte>, s: nat, i: nat)
    requires s <= i <= |p|
    ensures Splits(p, s, i) <= (|p| - s) / MAX_BLOCK
    decreases |p| - i, i - s
  {
    if i == |p| {
    } else if p[i] == 0 {
      SplitsBound(p, i + 1, i + 1);
    } else if i - s == Capacity(s) {
      SplitsBound(p, i, i);
    } else {
      SplitsBound(p, s, i + 1);
    }
  }

  lemma {:induction false} BodySize(p: seq<Byte>, s: nat, i: nat)
    requires s <= i <= |p|
    ensures |Body(p, s, i)| == |p| - s + 1 + Splits(p, s, i)
    decreases |p| - i, i - s
  {
    if i == |p| {
    } else if p[i] == 0 {
      BodySize(p, i + 1, i + 1);
    } else if i - s == Capacity(s) {
      BodySize(p, i, i);
    } else {
      BodySize(p, s, i + 1);
    }
  }

  // The encoded size, and the bound the buffer is allocated with.
  lemma EncodedSize(p: seq<Byte>)
    requires p != []
    ensures |Encode(p)| == |p| + 3 + Splits(p, 0, 0)
    ensures |Encode(p)| <= |p| + |p| / MAX_BLOCK + 3
  {
    BodySize(p, 0, 0);
    SplitsBound(p, 0, 0);
  }

  // The buffer up to `head`: a delimiter, the closed blocks, a hole for the open block's code, its data.
  predicate Written(buf: seq<Byte>, head: nat, hole: nat, done: seq<Byte>, data: seq<Byte>) {
    0 < hole < head <= |buf| && buf[..hole] == [0] + done && buf[hole + 1..head] == data
  }

  lemma MoreData(buf: seq<Byte>, head: nat, hole: nat, done: seq<Byte>, data: seq<Byte>, b: Byte)
    requires Written(buf, head, hole, done, data) && head < |buf|
    ensures Written(buf[head := b], head + 1, hole, done, data + [b])
  {
  }

  lemma FillHole(buf: seq<Byte>, head: nat, hole: nat, done: seq<Byte>, data: seq<Byte>, code: Byte)
    requires Written(buf, head, hole, done, data)
    ensures buf[hole := code][..head] == [0] + (done + ([code] + data))
  {
  }

  lemma NextBlock(buf: seq<Byte>, head: nat, hole: nat, done: seq<Byte>, data: seq<Byte>, code: Byte)
    requires Written(buf, head, hole, done, data) && head < |buf|
    ensures Written(buf[hole := code], head + 1, head, done + ([code] + data), [])
  {
  }

  lemma Associative<T>(a: seq<T>, b: seq<T>, c: seq<T>)
    ensures a + (b + c) == (a + b) + c
  {
  }

  function Block(p: seq<Byte>, s: nat, i: nat): seq<Byte>
    requires s <= i <= |p|
  {
    [CodeByte(i - s + 1)] + p[s..i]
  }

  // One turn of the encoder's loop leaves the bytes still to come unchanged.
  lemma BlockStep(p: seq<Byte>, s: nat, i: nat, done: seq<Byte>)
    requires s <= i < |p| && (p[i] == 0 || i - s == Capacity(s))
    ensures var next := if p[i] == 0 then i + 1 else i;
            done + Body(p, s, i) == done + Block(p, s, i) + Body(p, next, next)
  {
    hide CodeByte;
    Associative(done, Block(p, s, i), Body(p, if p[i] == 0 then i + 1 else i, if p[i] == 0 then i + 1 else i));
  }

  lemma DataStep(p: seq<Byte>, s: nat, i: nat)
    requires s <= i < |p| && p[i] != 0 && i - s != Capacity(s)
    ensures Body(p, s, i) == Body(p, s, i + 1) && Splits(p, s, i) == Splits(p, s, i + 1)
    ensures p[s..i + 1] == p[s..i] + [p[i]]
  {
  }

  lemma SplitStep(p: seq<Byte>, s: nat, i: nat)
    requires s <= i < |p| && (p[i] == 0 || i - s == Capacity(s))
    ensures Splits(p, s, i) == if p[i] == 0 then Splits(p, i + 1, i + 1) else 1 + Splits(p, i, i)
  {
  }

  lemma LastBlock(p: seq<Byte>, s: nat)
    requires s <= |p|
    ensures Body(p, s, |p|) == Block(p, s, |p|)
  {
  }

  // The encoder's loop invariant: everything before `head` is final but for the open block's code.
  predicate Encoding(p: seq<Byte>, buf: seq<Byte>, st: EncoderState) {
    && st.s <= st.inputHead <= |p|
    && st.codeValue == st.inputHead - st.s + 1
    && st.length == st.inputHead - st.s + (if st.s == 0 then 0 else 1) <= 255
    && st.inputHead + 2 <= st.outputHead
    && st.outputHead - st.inputHead - 2 + Splits(p, st.s, st.inputHead) == Splits(p, 0, 0)
    && |buf| >= |p| + 3 + Splits(p, 0, 0)
    && Written(buf, st.outputHead, st.codeHead, st.done, p[st.s..st.inputHead])
    && st.done + Body(p, st.s, st.inputHead) == Frame(p)
  }

  // The encoder's local variables, and the blocks it has closed.
  datatype EncoderState = EncoderState(
    inputHead: nat, outputHead: nat, codeHead: nat, codeValue: nat, length: nat, s: nat, done: seq<Byte>)

  function ClosedBlock(p: seq<Byte>, buf: seq<Byte>, st: EncoderState): seq<Byte>
    requires Encoding(p, buf, st)
  {
    Block(p, st.s, st.inputHead)
  }

  lemma EncodingStarts(p: seq<Byte>, buf: seq<Byte>)
    requires p != [] && |buf| >= |p| + 3 + Splits(p, 0, 0) && buf[0] == 0
    ensures Encoding(p, buf, EncoderState(0, 2, 1, 1, 0, 0, []))
  {
  }

  lemma EncodingData(p: seq<Byte>, buf: seq<Byte>, st: EncoderState)
    requires Encoding(p, buf, st) && st.inputHead < |p| && p[st.inputHead] != 0 && st.length != 255
    ensures st.outputHead < |buf|
    ensures Encoding(p, buf[st.outputHead := p[st.inputHead]],
                     EncoderState(st.inputHead + 1, st.outputHead + 1, st.codeHead, st.codeValue + 1,
                                  st.length + 1, st.s, st.done))
  {
    hide Body, Splits, Written, Frame;
    DataStep(p, st.s, st.inputHead);
    MoreData(buf, st.outputHead, st.codeHead, st.done, p[st.s..st.inputHead], p[st.inputHead]);
  }

  lemma EncodingBlock(p: seq<Byte>, buf: seq<Byte>, st: EncoderState)
    requires Encoding(p, buf, st) && st.inputHead < |p| && (p[st.inputHead] == 0 || st.length == 255)
    ensures st.codeHead < st.outputHead < |buf|
    ensures var next := if p[st.inputHead] == 0 then st.inputHead + 1 else st.inputHead;
            Encoding(p, buf[st.codeHead := CodeByte(st.codeValue)],
                     EncoderState(next, st.outputHead + 1, st.outputHead, 1, 1, next,
                                  st.done + ClosedBlock(p, buf, st)))
  {
    assert st.codeHead < st.outputHead;
    var i := st.inputHead;
    var next := if p[i] == 0 then i + 1 else i;
    assert p[next..next] == [];
    SplitStep(p, st.s, i);
    BlockStep(p, st.s, i, st.done);
    hide Body, Splits, Written, Frame, CodeByte;
    NextBlock(buf, st.outputHead, st.codeHead, st.done, p[st.s..i], CodeByte(st.codeValue));
  }

  lemma EncodingEnds(p: seq<Byte>, buf: seq<Byte>, st: EncoderState)
    requires p != [] && Encoding(p, buf, st) && st.inputHead == |p|
    ensures st.codeHead < st.outputHead < |buf|
    ensures buf[st.codeHead := CodeByte(st.codeValue)][st.outputHead := 0][..st.outputHead + 1] == Encode(p)
  {
    hide Body, Splits, CodeByte, Frame;
    FillHole(buf, st.outputHead, st.codeHead, st.done, p[st.s..], CodeByte(st.codeValue));
    LastBlock(p, st.s);
    var now := buf[st.codeHead := CodeByte(st.codeValue)];
    assert now[..st.outputHead] == [0] + Frame(p);
    assert now[st.outputHead := 0][..st.outputHead + 1] == now[..st.outputHead] + [0];
  }

  method CobsEncode(input: seq<Byte>) returns (out: seq<Byte>)
    ensures out == Encode(input)
  {
    if |input| == 0 {
      return [];
    }
    var outputSize := |input| + |input| / 254 + 1;
    outputSize := outputSize + 2;
    EncodedSize(input);
    var buf := new Byte[outputSize](_ => 0);
    var outputHead := EncodeBlocks(input, buf);
    out := buf[..outputHead];
  }

  // The encoder's loop over the buffer.
  method EncodeBlocks(input: seq<Byte>, buf: array<Byte>) returns (outputHead: nat)
    requires input != [] && buf.Length >= |input| + 3 + Splits(input, 0, 0)
    modifies buf
    ensures outputHead <= buf.Length && buf[..outputHead] == Encode(input)
  {
    hide Encoding, Encode, CodeByte, Splits, ClosedBlock;
    buf[0] := 0;
    var outputCodeHead, codeValue := 1, 1;
    var inputHead, length := 0, 0;
    outputHead := 2;
    ghost var s, done, w := 0, [], buf[..];
    EncodingStarts(input, w);
    while inputHead < |input|
      invariant buf[..] == w && inputHead <= |input|
      invariant Encoding(input, w,
                         EncoderState(inputHead, outputHead, outputCodeHead, codeValue, length, s, done))
      decreases |input| - inputHead, length
    {
      ghost var st := EncoderState(inputHead, outputHead, outputCodeHead, codeValue, length, s, done);
      if input[inputHead] == 0 || length == 255 {
        EncodingBlock(input, w, st);
        done := done + ClosedBlock(input, w, st);
        buf[outputCodeHead] := CodeByte(codeValue);
        w := w[outputCodeHead := CodeByte(codeValue)];
        codeValue := 1;
        outputCodeHead := outputHead;
        length := 0;
        outputHead := outputHead + 1;
        if input[inputHead] == 0 {
          inputHead := inputHead + 1;
        }
        s := inputHead;
      } else {
        EncodingData(input, w, st);
        buf[outputHead] := input[inputHead];
        w := w[outputHead := input[inputHead]];
        codeValue := codeValue + 1;
        inputHead := inputHead + 1;
        outputHead := outputHead + 1;
      }
      length := length + 1;
    }
    EncodingEnds(input, w, EncoderState(inputHead, outputHead, outputCodeHead, codeValue, length, s, done));
    buf[outputCodeHead] := CodeByte(codeValue);
    buf[outputHead] := 0;
    w := w[outputCodeHead := CodeByte(codeValue)][outputHead := 0];
    assert buf[..] == w;
    outputHead := outputHead + 1;
  }

  // ----- the decoder

  // The zero a block implies after itself is written when the next block starts.
  function Implied(full: bool): seq<Byte> {
    if full then [] else [0]
  }

  // Reference decoder, one block at a time; `full` says the block before had code 0xFF.
  function Decode(w: seq<Byte>, full: bool): seq<Byte>
    decreases |w|, 0
  {
    if w == [] || w[0] == 0 then []
    else Implied(full) + DecodeRest(w[1..], w[0] - 1, w[0] == FULL)
  }

  // The same, in a block that still expects `left` data bytes.
  function DecodeRest(w: seq<Byte>, left: nat, full: bool): seq<Byte>
    decreases |w|, 1
  {
    var n := if left < |w| then left else |w|;
    w[..n] + Decode(w[n..], full)
  }

  function DecodeFrame(w: seq<Byte>): seq<Byte> {
    Decode(w, true)
  }

  lemma CodeStep(w: seq<Byte>, full: bool)
    ensures DecodeRest(w, 0, full) ==
            if w == [] || w[0] == 0 then []
            else Implied(full) + DecodeRest(w[1..], w[0] - 1, w[0] == FULL)
  {
  }

  // The decoder's loop invariant after k bytes, with `head` bytes written.
  predicate Decoding(w: seq<Byte>, buf: seq<Byte>, k: nat, left: nat, full: bool, head: nat) {
    && k <= |w| <= |buf| && head <= k && (head < k || k == 0) && (k == 0 ==> left == 0 && full)
    && buf[..head] + DecodeRest(w[k..], left, full) == DecodeFrame(w)
  }

  lemma DecodingStarts(w: seq<Byte>, buf: seq<Byte>)
    requires |w| <= |buf|
    ensures Decoding(w, buf, 0, 0, true, 0)
  {
  }

  lemma DecodingData(w: seq<Byte>, buf: seq<Byte>, k: nat, left: nat, full: bool, head: nat)
    requires Decoding(w, buf, k, left, full, head) && k < |w| && left > 0
    ensures head < |buf| && Decoding(w, buf[head := w[k]], k + 1, left - 1, full, head + 1)
  {
  }

  lemma DecodingStop(w: seq<Byte>, buf: seq<Byte>, k: nat, full: bool, head: nat)
    requires Decoding(w, buf, k, 0, full, head) && k < |w| && w[k] == 0
    ensures buf[..head] == DecodeFrame(w)
  {
    hide DecodeRest, Decode, DecodeFrame, Implied;
    CodeStep(w[k..], full);
    hide DecodeRest, Decode;
  }

  lemma DecodingCode(w: seq<Byte>, buf: seq<Byte>, k: nat, head: nat)
    requires Decoding(w, buf, k, 0, true, head) && k < |w| && w[k] != 0
    ensures Decoding(w, buf, k + 1, w[k] - 1, w[k] == FULL, head)
  {
    hide DecodeRest, Decode, DecodeFrame;
    CodeStep(w[k..], true);
    assert w[k..][1..] == w[k + 1..];
  }

  lemma DecodingImplied(w: seq<Byte>, buf: seq<Byte>, k: nat, head: nat)
    requires Decoding(w, buf, k, 0, false, head) && k < |w| && w[k] != 0
    ensures head < |buf| && Decoding(w, buf[head := 0], k + 1, w[k] - 1, w[k] == FULL, head + 1)
  {
    hide DecodeRest, Decode, DecodeFrame;
    CodeStep(w[k..], false);
    assert w[k..][1..] == w[k + 1..];
    assert buf[head := 0][..head + 1] == buf[..head] + [0];
    Associative(buf[..head], [0], DecodeRest(w[k + 1..], w[k] - 1, w[k] == FULL));
  }

  lemma DecodingEnds(w: seq<Byte>, buf: seq<Byte>, left: nat, full: bool, head: nat)
    requires Decoding(w, buf, |w|, left, full, head)
    ensures buf[..head] == DecodeFrame(w)
  {
    assert DecodeRest([], left, full) == [];
  }

  // Decodes any bytes at all; on a nonempty input it yields at least one byte fewer than it read.
  method CobsDecode(input: seq<Byte>) returns (out: seq<Byte>)
    ensures out == DecodeFrame(input)
    ensures input != [] ==> |out| < |input|
  {
    if |input| == 0 {
      return [];
    }
    var buf := new Byte[|input| + |input| / 254](_ => 0);
    var code: Byte, leftInBlock: Byte := 0xff, 0;
    var writeHead, k := 0, 0;
    ghost var w := buf[..];
    DecodingStarts(input, w);
    hide Decoding, DecodeFrame;
    while k < |input|
      invariant 0 <= k <= |input| && writeHead < |input|
      invariant buf[..] == w && Decoding(input, w, k, leftInBlock, code == 0xff, writeHead)
    {
      var byte := input[k];
      if leftInBlock != 0 {
        DecodingData(input, w, k, leftInBlock, code == 0xff, writeHead);
        buf[writeHead] := byte;
        w := w[writeHead := byte];
        writeHead := writeHead + 1;
      } else {
        leftInBlock := byte;
        if leftInBlock == 0 {
          DecodingStop(input, w, k, code == 0xff, writeHead);
        } else if code == 0xff {
          DecodingCode(input, w, k, writeHead);
        }
        if leftInBlock != 0 && code != 0xff {
          DecodingImplied(input, w, k, writeHead);
          buf[writeHead] := 0;
          w := w[writeHead := 0];
          writeHead := writeHead + 1;
        }
        code := leftInBlock;
        if code == 0 {
          return buf[..writeHead];
        }
      }
      leftInBlock := leftInBlock - 1;
      k := k + 1;
      DecodingBound(input, w, k, leftInBlock, code == 0xff, writeHead);
    }
    DecodingEnds(input, w, leftInBlock, code == 0xff, writeHead);
    out := buf[..writeHead];
  }

  lemma DecodingBound(w: seq<Byte>, buf: seq<Byte>, k: nat, left: nat, full: bool, head: nat)
    requires Decoding(w, buf, k, left, full, head) && k > 0
    ensures head < k
  {
  }
}
