/** What a well-formed stream paints: instructions, their encoding into bytes, and whole images. */
module RleImage {
  import opened Arithmetic
  import opened Rle

  datatype Instruction =
    | RunOf(count: nat, color: byte)
    | Literal(px: seq<byte>)
    | EndOfLine
    | Delta(dx: byte, dy: byte)

  datatype Canvas = Canvas(pix: seq<byte>, col: int, y: int)

  predicate WellFormed(mode: Mode, i: Instruction) {
    match i
    case RunOf(count, _) => 1 <= count <= 255
    case Literal(px) => 3 <= |px| <= 255 && (mode.Rle4? ==> forall j :: 0 <= j < |px| ==> px[j] < 16)
    case _ => true
  }

  function PackedByte(px: seq<byte>, j: nat): byte
    requires 2 * j < |px| && px[2 * j] < 16 && (2 * j + 1 < |px| ==> px[2 * j + 1] < 16)
  {
    px[2 * j] * 16 + (if 2 * j + 1 < |px| then px[2 * j + 1] else 0)
  }

  /** Literal pixels as bytes: one each, or two to a byte with the high nibble first. */
  function Packed(mode: Mode, px: seq<byte>): (r: seq<byte>)
    requires mode.Rle4? ==> forall j :: 0 <= j < |px| ==> px[j] < 16
    ensures |r| == BytesUsed(mode, |px|)
  {
    if mode.Rle8? then px
    else seq((|px| + 1) / 2, j requires 0 <= j < (|px| + 1) / 2 => PackedByte(px, j))
  }

  function Padding(mode: Mode, count: nat): (r: seq<byte>)
    ensures |r| == PadBytes(mode, count)
  {
    if PadBytes(mode, count) == 1 then [0] else []
  }

  function Encode(mode: Mode, i: Instruction): seq<byte>
    requires WellFormed(mode, i)
  {
    match i
    case RunOf(count, color) => [count, color]
    case Literal(px) => [0, |px|] + Packed(mode, px) + Padding(mode, |px|)
    case EndOfLine => [0, 0]
    case Delta(dx, dy) => [0, 2, dx, dy]
  }

  ghost predicate AllWellFormed(mode: Mode, program: seq<Instruction>) {
    forall j :: 0 <= j < |program| ==> WellFormed(mode, program[j])
  }

  ghost function EncodeAll(mode: Mode, program: seq<Instruction>): seq<byte>
    requires AllWellFormed(mode, program)
  {
    if program == [] then [] else Encode(mode, program[0]) + EncodeAll(mode, program[1..])
  }

  /** One instruction on the canvas. It fits when it starts in the image, stays in the buffer and does
      not move before it. */
  predicate Fits(pitch: nat, i: Instruction, c: Canvas) {
    match i
    case RunOf(count, _) => 0 <= c.y && c.col + count <= |c.pix|
    case Literal(px) => 0 <= c.col && c.col + |px| <= |c.pix|
    case EndOfLine => true
    case Delta(dx, dy) => 0 <= c.col + dx - dy * pitch
  }

  function Execute(mode: Mode, pitch: nat, i: Instruction, c: Canvas): Canvas {
    match i
    case RunOf(count, color) => Canvas(Blit(c.pix, c.col, RunPixels(mode, count, color)), c.col + count, c.y)
    case Literal(px) => Canvas(Blit(c.pix, c.col, px), c.col + |px|, c.y)
    case EndOfLine => Canvas(c.pix, pitch * (c.y - 1), c.y - 1)
    case Delta(dx, dy) => Canvas(c.pix, c.col + dx - dy * pitch, c.y - dy)
  }

  predicate AllFit(mode: Mode, pitch: nat, program: seq<Instruction>, c: Canvas) {
    program == [] ||
    (Fits(pitch, program[0], c) && AllFit(mode, pitch, program[1..], Execute(mode, pitch, program[0], c)))
  }

  function ExecuteAll(mode: Mode, pitch: nat, program: seq<Instruction>, c: Canvas): Canvas {
    if program == [] then c else ExecuteAll(mode, pitch, program[1..], Execute(mode, pitch, program[0], c))
  }

  function At(c: Canvas, pos: nat): RleState {
    RleState(c.pix, c.col, c.y, pos)
  }

  // ----- Decoding an encoded program

  lemma LiteralDecodes(mode: Mode, px: seq<byte>, input: seq<byte>, pos: nat)
    requires WellFormed(mode, Literal(px))
    requires pos + BytesUsed(mode, |px|) <= |input|
    requires input[pos..pos + BytesUsed(mode, |px|)] == Packed(mode, px)
    ensures LiteralPixels(mode, input, pos, |px|) == px
  {
    var packed := Packed(mode, px);
    forall i | 0 <= i < |px| ensures LiteralPixel(mode, input, pos, |px|, i) == px[i] {
      var j := if mode.Rle8? then i else i / 2;
      assert input[pos + j] == input[pos..pos + BytesUsed(mode, |px|)][j] == packed[j];
    }
  }

  lemma WholeRun(px: seq<byte>)
    ensures px[..|px|] == px
  {}

  /** One instruction's bytes make the state machine do what the instruction says. */
  lemma StepDecodes(mode: Mode, pitch: nat, i: Instruction, c: Canvas, pre: seq<byte>, post: seq<byte>)
    requires WellFormed(mode, i) && Fits(pitch, i, c)
    ensures Step(mode, pitch, pre + Encode(mode, i) + post, At(c, |pre|))
         == Running(At(Execute(mode, pitch, i, c), |pre| + |Encode(mode, i)|))
  {
    var input, code, p := pre + Encode(mode, i) + post, Encode(mode, i), |pre|;
    assert forall j :: 0 <= j < |code| ==> input[p + j] == code[j];
    hide Blit;
    match i
    case RunOf(count, color) =>
      assert input[p + 0] == count && input[p + 1] == color;
      WholeRun(RunPixels(mode, count, color));
    case Literal(px) =>
      LiteralStep(mode, pitch, px, c, pre, post);
    case EndOfLine =>
      assert input[p + 0] == 0 && input[p + 1] == 0;
    case Delta(dx, dy) =>
      assert input[p + 0] == 0 && input[p + 1] == 2 && input[p + 2] == dx && input[p + 3] == dy;
  }

  lemma LiteralStep(mode: Mode, pitch: nat, px: seq<byte>, c: Canvas, pre: seq<byte>, post: seq<byte>)
    requires WellFormed(mode, Literal(px)) && Fits(pitch, Literal(px), c)
    ensures Step(mode, pitch, pre + Encode(mode, Literal(px)) + post, At(c, |pre|))
         == Running(At(Execute(mode, pitch, Literal(px), c), |pre| + |Encode(mode, Literal(px))|))
  {
    var code := Encode(mode, Literal(px));
    var input, p, n := pre + code + post, |pre|, |px|;
    assert input[p] == code[0] == 0 && input[p + 1] == code[1] == n;
    var packed := Packed(mode, px);
    assert code == [0, n] + packed + Padding(mode, n);
    assert input[p + 2..p + 2 + |packed|] == packed;
    hide Blit, Packed, LiteralPixels, Padding;
    LiteralDecodes(mode, px, input, p + 2);
  }

  /** Decoding an encoded program that fits paints what the program paints. */
  lemma {:induction false} ProgramDecodes(mode: Mode, pitch: nat, program: seq<Instruction>, c: Canvas,
                                          pre: seq<byte>, post: seq<byte>)
    requires AllWellFormed(mode, program) && AllFit(mode, pitch, program, c)
    ensures Decode(mode, pitch, pre + EncodeAll(mode, program) + ([0, 1] + post), At(c, |pre|))
         == Finished(At(ExecuteAll(mode, pitch, program, c), |pre| + |EncodeAll(mode, program)| + 2))
    decreases |program|
  {
    hide Step, Execute, Encode, WellFormed, Fits;
    if program == [] {
      EndDecodes(mode, pitch, c, pre, post);
      assert pre + [] + ([0, 1] + post) == pre + ([0, 1] + post);
    } else {
      var code, rest, tail := Encode(mode, program[0]), EncodeAll(mode, program[1..]), [0, 1] + post;
      Reassociate(pre, code, rest, tail);
      StepDecodes(mode, pitch, program[0], c, pre, rest + tail);
      ProgramDecodes(mode, pitch, program[1..], Execute(mode, pitch, program[0], c), pre + code, post);
    }
  }

  lemma Reassociate(a: seq<byte>, b: seq<byte>, c: seq<byte>, d: seq<byte>)
    ensures a + (b + c) + d == a + b + (c + d) == (a + b) + c + d
  {}

  lemma EndDecodes(mode: Mode, pitch: nat, c: Canvas, pre: seq<byte>, post: seq<byte>)
    ensures Decode(mode, pitch, pre + ([0, 1] + post), At(c, |pre|)) == Finished(At(c, |pre| + 2))
  {
    var input := pre + ([0, 1] + post);
    assert input[|pre|] == 0 && input[|pre| + 1] == 1;
  }

  // ----- Whole images

  function BlockPixels(mode: Mode, i: Instruction): seq<byte> {
    match i
    case RunOf(count, color) => RunPixels(mode, count, color)
    case Literal(px) => px
    case _ => []
  }

  /** The pixels of one row, given as runs and literal blocks from left to right. */
  function RowPixels(mode: Mode, blocks: seq<Instruction>): seq<byte> {
    if blocks == [] then [] else BlockPixels(mode, blocks[0]) + RowPixels(mode, blocks[1..])
  }

  ghost predicate IsRow(mode: Mode, blocks: seq<Instruction>) {
    forall j :: 0 <= j < |blocks| ==> WellFormed(mode, blocks[j]) && (blocks[j].RunOf? || blocks[j].Literal?)
  }

  /** The rows below row number `y`, bottom one first as the format has it, each closed by a line end. */
  function ImageProgram(rows: seq<seq<Instruction>>, y: nat): seq<Instruction>
    requires y <= |rows|
  {
    if y == 0 then [] else rows[y - 1] + [EndOfLine] + ImageProgram(rows, y - 1)
  }

  lemma BlitTwice(pix: seq<byte>, col: nat, a: seq<byte>, b: seq<byte>)
    ensures Blit(Blit(pix, col, a), col + |a|, b) == Blit(pix, col, a + b)
  {}

  lemma {:induction false} RowPaints(mode: Mode, pitch: nat, blocks: seq<Instruction>, c: Canvas)
    requires IsRow(mode, blocks) && 0 <= c.y && 0 <= c.col && c.col + |RowPixels(mode, blocks)| <= |c.pix|
    ensures AllFit(mode, pitch, blocks, c)
    ensures ExecuteAll(mode, pitch, blocks, c)
         == Canvas(Blit(c.pix, c.col, RowPixels(mode, blocks)), c.col + |RowPixels(mode, blocks)|, c.y)
  {
    if blocks == [] {
      BlitNone(c.pix, c.col);
    } else {
      var px := BlockPixels(mode, blocks[0]);
      BlitTwice(c.pix, c.col, px, RowPixels(mode, blocks[1..]));
      hide Blit, RunPixels;
      assert WellFormed(mode, blocks[0]);
      var next := Execute(mode, pitch, blocks[0], c);
      assert next == Canvas(Blit(c.pix, c.col, px), c.col + |px|, c.y);
      RowPaints(mode, pitch, blocks[1..], next);
    }
  }

  lemma {:induction false} Sequenced(mode: Mode, pitch: nat, a: seq<Instruction>, b: seq<Instruction>, c: Canvas)
    ensures ExecuteAll(mode, pitch, a + b, c) == ExecuteAll(mode, pitch, b, ExecuteAll(mode, pitch, a, c))
    ensures AllFit(mode, pitch, a + b, c)
      <==> AllFit(mode, pitch, a, c) && AllFit(mode, pitch, b, ExecuteAll(mode, pitch, a, c))
  {
    hide Execute, Fits;
    if a == [] {
      assert a + b == b;
    } else {
      assert (a + b)[1..] == a[1..] + b;
      Sequenced(mode, pitch, a[1..], b, Execute(mode, pitch, a[0], c));
    }
  }

  /** The place of pixel `x` of row `r` in the flat buffer. */
  function Spot(pitch: nat, r: nat, x: nat): nat {
    pitch * r + x
  }

  ghost predicate Sized(mode: Mode, rows: seq<seq<Instruction>>, width: nat) {
    forall r :: 0 <= r < |rows| ==> IsRow(mode, rows[r]) && |RowPixels(mode, rows[r])| == width
  }

  /** The image is in the buffer up to row `y`; the rest of the buffer is as before. */
  ghost predicate Painted(after: seq<byte>, before: seq<byte>, mode: Mode, rows: seq<seq<Instruction>>,
                          pitch: nat, width: nat, y: nat)
    requires y <= |rows| && Sized(mode, rows, width)
  {
    && |after| == |before|
    && (forall r, x {:trigger Spot(pitch, r, x)} :: 0 <= r < y && 0 <= x < pitch && Spot(pitch, r, x) < |after| ==>
      after[Spot(pitch, r, x)] == if x < width then RowPixels(mode, rows[r])[x] else before[Spot(pitch, r, x)])
    && (forall p :: Spot(pitch, y, 0) <= p < |after| ==> after[p] == before[p])
  }

  lemma SpotOrder(pitch: nat, r: nat, x: nat, y: nat)
    requires x < pitch
    ensures r < y ==> Spot(pitch, r, x) < Spot(pitch, y, 0)
    ensures Spot(pitch, y, 0) + pitch == Spot(pitch, y + 1, 0)
  {
    if r < y {
      var gap := y - r - 1;
      assert pitch * y == pitch * r + pitch + pitch * gap;
    }
  }

  lemma RowAdded(after: seq<byte>, before: seq<byte>, mode: Mode, rows: seq<seq<Instruction>>,
                 pitch: nat, width: nat, y: nat)
    requires y < |rows| && Sized(mode, rows, width) && width <= pitch
    requires Spot(pitch, y + 1, 0) <= |before|
    requires Painted(after, Blit(before, Spot(pitch, y, 0), RowPixels(mode, rows[y])), mode, rows, pitch, width, y)
    ensures Painted(after, before, mode, rows, pitch, width, y + 1)
  {
    var start, px := Spot(pitch, y, 0), RowPixels(mode, rows[y]);
    forall r, x {:trigger Spot(pitch, r, x)} | 0 <= r < y + 1 && 0 <= x < pitch && Spot(pitch, r, x) < |after|
      ensures after[Spot(pitch, r, x)] == if x < width then RowPixels(mode, rows[r])[x] else before[Spot(pitch, r, x)]
    {
      SpotOrder(pitch, r, x, y);
      if r == y {
        assert Spot(pitch, r, x) == start + x;
      }
    }
    if 0 < pitch {
      SpotOrder(pitch, 0, 0, y);
    }
    hide Spot, RowPixels;
  }

  /** Running an image program paints the image: every row in its place, whatever the mix of runs and
      literal blocks that encodes it. */
  lemma {:induction false} ImagePaints(mode: Mode, pitch: nat, rows: seq<seq<Instruction>>, width: nat, y: nat,
                                       c: Canvas)
    requires Sized(mode, rows, width) && width <= pitch && y <= |rows|
    requires c.y == y - 1 && c.col == pitch * (y - 1) && Spot(pitch, y, 0) <= |c.pix|
    ensures AllFit(mode, pitch, ImageProgram(rows, y), c)
    ensures Painted(ExecuteAll(mode, pitch, ImageProgram(rows, y), c).pix, c.pix, mode, rows, pitch, width, y)
  {
    if y != 0 {
      var row, rest := rows[y - 1], ImageProgram(rows, y - 1);
      var start := Spot(pitch, y - 1, 0);
      assert start + pitch == Spot(pitch, y, 0);
      RowPaints(mode, pitch, row, c);
      Sequenced(mode, pitch, row + [EndOfLine], rest, c);
      Sequenced(mode, pitch, row, [EndOfLine], c);
      var painted := ExecuteAll(mode, pitch, row, c);
      LineEnds(mode, pitch, painted);
      var next := Canvas(painted.pix, pitch * (y - 2), y - 2);
      ImagePaints(mode, pitch, rows, width, y - 1, next);
      RowAdded(ExecuteAll(mode, pitch, rest, next).pix, c.pix, mode, rows, pitch, width, y - 1);
    }
  }

  lemma LineEnds(mode: Mode, pitch: nat, c: Canvas)
    ensures AllFit(mode, pitch, [EndOfLine], c)
    ensures ExecuteAll(mode, pitch, [EndOfLine], c) == Canvas(c.pix, pitch * (c.y - 1), c.y - 1)
  {
    assert [EndOfLine][1..] == [];
  }

  lemma {:induction false} ImageWellFormed(mode: Mode, rows: seq<seq<Instruction>>, y: nat)
    requires y <= |rows| && forall r :: 0 <= r < |rows| ==> IsRow(mode, rows[r])
    ensures AllWellFormed(mode, ImageProgram(rows, y))
  {
    if y != 0 {
      ImageWellFormed(mode, rows, y - 1);
      assert IsRow(mode, rows[y - 1]);
    }
  }

  function InitialCanvas(pix: seq<byte>, height: nat, pitch: nat): Canvas {
    Canvas(pix, |pix| - pitch, height - 1)
  }

  /** A bitmap's whole stream: the program and the end-of-bitmap mark, and whatever follows in the file. */
  ghost function Stream(mode: Mode, program: seq<Instruction>, post: seq<byte>): seq<byte>
    requires AllWellFormed(mode, program)
  {
    EncodeAll(mode, program) + ([0, 1] + post)
  }

  lemma StreamDecodes(mode: Mode, pitch: nat, height: nat, program: seq<Instruction>, pix: seq<byte>, post: seq<byte>)
    requires AllWellFormed(mode, program) && AllFit(mode, pitch, program, InitialCanvas(pix, height, pitch))
    ensures
      var o := Decode(mode, pitch, Stream(mode, program, post), InitialState(pix, height, pitch));
      o.Finished? && o.s.pix == ExecuteAll(mode, pitch, program, InitialCanvas(pix, height, pitch)).pix
  {
    hide Decode, EncodeAll, ExecuteAll, AllFit, AllWellFormed;
    ProgramDecodes(mode, pitch, program, InitialCanvas(pix, height, pitch), [], post);
    assert [] + EncodeAll(mode, program) + ([0, 1] + post) == Stream(mode, program, post);
  }

  /** Decoding any row-by-row encoding of an image gives the image back, and leaves the bytes between the
      width and the pitch alone. */
  lemma ImageRoundTrip(mode: Mode, pitch: nat, rows: seq<seq<Instruction>>, width: nat, pix: seq<byte>, post: seq<byte>)
    requires Sized(mode, rows, width) && width <= pitch && |pix| == pitch * |rows|
    ensures AllWellFormed(mode, ImageProgram(rows, |rows|))
    ensures
      var o := Decode(mode, pitch, Stream(mode, ImageProgram(rows, |rows|), post), InitialState(pix, |rows|, pitch));
      o.Finished? && Painted(o.s.pix, pix, mode, rows, pitch, width, |rows|)
  {
    assert pitch * (|rows| - 1) == |pix| - pitch;
    assert forall r :: 0 <= r < |rows| ==> IsRow(mode, rows[r]);
    hide Painted, Decode, ExecuteAll, AllFit, AllWellFormed, Sized, ImageProgram, Stream, IsRow;
    ImageWellFormed(mode, rows, |rows|);
    ImagePaints(mode, pitch, rows, width, |rows|, InitialCanvas(pix, |rows|, pitch));
    StreamDecodes(mode, pitch, |rows|, ImageProgram(rows, |rows|), pix, post);
  }

  // ----- An encoder

  /** A row of pixels as the mode has them. */
  predicate IsPixels(mode: Mode, px: seq<byte>) {
    mode.Rle4? ==> forall i :: 0 <= i < |px| ==> px[i] < 16
  }

  /** How many pixels at the front are alike, as far as a run can count. */
  function RunLength(px: seq<byte>): (n: nat)
    requires px != []
    ensures 1 <= n <= |px| && n <= 255
    ensures forall i :: 0 <= i < n ==> px[i] == px[0]
    ensures n == |px| || n == 255 || px[n] != px[0]
  {
    RunFrom(px, 1)
  }

  function RunFrom(px: seq<byte>, at: nat): (n: nat)
    requires 1 <= at <= |px| && at <= 255 && forall i :: 0 <= i < at ==> px[i] == px[0]
    ensures at <= n <= |px| && n <= 255
    ensures forall i :: 0 <= i < n ==> px[i] == px[0]
    ensures n == |px| || n == 255 || px[n] != px[0]
    decreases |px| - at
  {
    if at == |px| || at == 255 || px[at] != px[0] then at else RunFrom(px, at + 1)
  }

  /** The colour byte of a run: in 4-bit mode the pixel stands in both nibbles. */
  function RunColor(mode: Mode, p: byte): byte
    requires mode.Rle4? ==> p < 16
  {
    if mode.Rle8? then p else p * 17
  }

  /** A row as runs, each as long as it can be. */
  function EncodeRow(mode: Mode, px: seq<byte>): seq<Instruction>
    requires IsPixels(mode, px)
    decreases |px|
  {
    if px == [] then []
    else [RunOf(RunLength(px), RunColor(mode, px[0]))] + EncodeRow(mode, px[RunLength(px)..])
  }

  lemma RowCons(mode: Mode, first: Instruction, rest: seq<Instruction>)
    requires WellFormed(mode, first) && first.RunOf? && IsRow(mode, rest)
    ensures IsRow(mode, [first] + rest)
    ensures RowPixels(mode, [first] + rest) == RunPixels(mode, first.count, first.color) + RowPixels(mode, rest)
  {
    assert ([first] + rest)[1..] == rest;
  }

  lemma RunOfAlike(mode: Mode, px: seq<byte>, n: nat)
    requires IsPixels(mode, px) && 0 < n <= |px| && forall i :: 0 <= i < n ==> px[i] == px[0]
    ensures RunPixels(mode, n, RunColor(mode, px[0])) == px[..n]
  {}

  lemma {:induction false} EncodedRowPixels(mode: Mode, px: seq<byte>)
    requires IsPixels(mode, px)
    ensures IsRow(mode, EncodeRow(mode, px)) && RowPixels(mode, EncodeRow(mode, px)) == px
    decreases |px|
  {
    hide RunPixels, RowPixels, IsRow, RunColor, RunLength, EncodeRow;
    if px == [] {
      NoPixels(mode);
    } else {
      var n := RunLength(px);
      var rest := px[n..];
      EncodedRowPixels(mode, rest);
      RunOfAlike(mode, px, n);
      EncodeUnfolds(mode, px);
      RowCons(mode, RunOf(n, RunColor(mode, px[0])), EncodeRow(mode, rest));
      assert px == px[..n] + rest;
    }
  }

  lemma NoPixels(mode: Mode)
    ensures IsRow(mode, []) && RowPixels(mode, []) == [] && EncodeRow(mode, []) == []
  {}

  lemma EncodeUnfolds(mode: Mode, px: seq<byte>)
    requires IsPixels(mode, px) && px != []
    ensures
      var n := RunLength(px);
      EncodeRow(mode, px) == [RunOf(n, RunColor(mode, px[0]))] + EncodeRow(mode, px[n..])
  {}

  function EncodeRows(mode: Mode, image: seq<seq<byte>>): (rows: seq<seq<Instruction>>)
    requires forall r :: 0 <= r < |image| ==> IsPixels(mode, image[r])
    ensures |rows| == |image|
  {
    seq(|image|, r requires 0 <= r < |image| => EncodeRow(mode, image[r]))
  }

  /** The image is in the buffer, every pixel in its place. */
  ghost predicate Shows(pix: seq<byte>, image: seq<seq<byte>>, pitch: nat, width: nat)
    requires forall r :: 0 <= r < |image| ==> |image[r]| == width
  {
    forall r, x {:trigger Spot(pitch, r, x)} :: 0 <= r < |image| && 0 <= x < width ==>
      Spot(pitch, r, x) < |pix| && pix[Spot(pitch, r, x)] == image[r][x]
  }

  /** Every image has an encoding, and it decodes to the image. */
  lemma EncodedImageDecodes(mode: Mode, pitch: nat, image: seq<seq<byte>>, width: nat, pix: seq<byte>, post: seq<byte>)
    requires forall r :: 0 <= r < |image| ==> IsPixels(mode, image[r]) && |image[r]| == width
    requires width <= pitch && |pix| == pitch * |image|
    ensures AllWellFormed(mode, ImageProgram(EncodeRows(mode, image), |image|))
    ensures
      var o := Decode(mode, pitch, Stream(mode, ImageProgram(EncodeRows(mode, image), |image|), post),
                      InitialState(pix, |image|, pitch));
      o.Finished? && |o.s.pix| == |pix| && Shows(o.s.pix, image, pitch, width)
  {
    var rows := EncodeRows(mode, image);
    forall r | 0 <= r < |image| ensures IsRow(mode, rows[r]) && RowPixels(mode, rows[r]) == image[r] {
      EncodedRowPixels(mode, image[r]);
    }
    forall r, x {:trigger Spot(pitch, r, x)} | 0 <= r < |image| && 0 <= x < width
      ensures Spot(pitch, r, x) < |pix|
    {
      SpotOrder(pitch, r, x, |image|);
    }
    hide Decode, AllWellFormed, ImageProgram, Stream, IsRow, RowPixels, EncodeRow, Spot;
    ImageRoundTrip(mode, pitch, rows, width, pix, post);
  }
}
