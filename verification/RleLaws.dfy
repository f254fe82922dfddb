/** The run-length format byte by byte: what the bytes at the input position make the decoder do. */
module RleLaws {
  import opened Arithmetic
  import opened Rle
  import opened RleImage

  // ----- Alignment

  /** An encoded instruction has an even number of bytes, and at most one of them is padding. */
  lemma EncodedEvenly(mode: Mode, i: Instruction)
    requires WellFormed(mode, i)
    ensures |Encode(mode, i)| % 2 == 0
    ensures i.Literal? ==>
      var unpadded := 2 + (if mode.Rle8? then |i.px| else (|i.px| + 1) / 2);
      unpadded <= |Encode(mode, i)| <= unpadded + 1
  {}

  /** So every step of the decoder consumes an even number of bytes, unless the input ends, or an absolute
      block does not fit the buffer. */
  lemma StepsAreEven(mode: Mode, pitch: nat, input: seq<byte>, s: RleState)
    requires s.pos <= |input|
    requires var o := Step(mode, pitch, input, s); o.Running? && o.s.pos < |input|
    requires LiteralAt(input, s.pos) ==> s.col + input[s.pos + 1] <= |s.pix|
    ensures (Step(mode, pitch, input, s).s.pos - s.pos) % 2 == 0
  {
    hide Blit, RunPixels, LiteralPixels;
  }

  // ----- The instructions

  /** The buffer after some pixels were painted from `col` on, and nothing else. */
  ghost predicate PaintedFrom(after: seq<byte>, before: seq<byte>, col: int, n: nat, pixel: nat -> int) {
    && |after| == |before|
    && forall i :: 0 <= i < |after| ==> after[i] == if col <= i < col + n then pixel(i - col) else before[i]
  }

  /** The nibbles of a byte, high one first. */
  function Nibble(b: byte, i: nat): int {
    if i % 2 == 0 then b / 16 else b % 16
  }

  /** How many pixels of a run or block get onto the buffer: what does not fit is cut off, and as 4-bit pixels
      are written in pairs, of an even number of them none is written as half a pair. */
  function Fitting(mode: Mode, count: nat, room: int): (n: nat) {
    if count <= room then count
    else if room < 0 then 0
    else if mode.Rle4? && count % 2 == 0 && room % 2 == 1 then room - 1
    else room
  }

  lemma CutOff(mode: Mode, count: nat, room: int)
    ensures Written(mode, count, room) == Fitting(mode, count, room)
  {}

  /** A count and a colour paint as many pixels: of the colour, or of its two nibbles in turn, high one first. */
  lemma RunBytes(mode: Mode, pitch: nat, input: seq<byte>, s: RleState)
    requires s.pos + 1 < |input| && 0 < input[s.pos] && 0 <= s.y && 0 <= s.col
    ensures
      var color, n := input[s.pos + 1], Fitting(mode, input[s.pos], |s.pix| - s.col);
      var o := Step(mode, pitch, input, s);
      && o.Running? && o.s.col == s.col + n && o.s.y == s.y && o.s.pos == s.pos + 2
      && PaintedFrom(o.s.pix, s.pix, s.col, n, (i: nat) => if mode.Rle8? then color else Nibble(color, i))
  {
    CutOff(mode, input[s.pos], |s.pix| - s.col);
    hide Written, Fitting;
  }

  /** A zero, a count from 3 on and pixel bytes paint the pixels: a byte each, or two to a byte, high nibble
      first. No byte is read for a pixel that does not fit; the alignment byte follows the count all the
      same. */
  lemma LiteralBytes(mode: Mode, pitch: nat, input: seq<byte>, s: RleState)
    requires s.pos + 1 < |input| && input[s.pos] == 0 && 3 <= input[s.pos + 1] && 0 <= s.col
    requires
      var count: nat := input[s.pos + 1];
      s.pos + 2 + (if mode.Rle8? then count + count % 2 else (count + 3) / 4 * 2) <= |input|
    ensures
      var count: nat, at: nat := input[s.pos + 1], s.pos + 2;
      var n := Fitting(mode, count, |s.pix| - s.col);
      var o := Step(mode, pitch, input, s);
      && o.Running? && o.s.col == s.col + n && o.s.y == s.y
      && o.s.pos == at + (if mode.Rle8? then n + count % 2 else (n + 1) / 2 + (if 1 <= count % 4 <= 2 then 1 else 0))
      && PaintedFrom(o.s.pix, s.pix, s.col, n, (i: nat) =>
           if mode.Rle8? then FetchByte(input, at + i) else Nibble(FetchByte(input, at + i / 2), i))
  {
    hide PaintLiteral, Step, Written, Fitting, Nibble, FetchByte;
    CutOff(mode, input[s.pos + 1], |s.pix| - s.col);
    BlockPainted(mode, pitch, input, s);
    BlockEnds(mode, input, s.(pos := s.pos + 2), input[s.pos + 1]);
    BlockPixels(mode, input, s.(pos := s.pos + 2), input[s.pos + 1]);
  }

  lemma BlockEnds(mode: Mode, input: seq<byte>, s: RleState, count: nat)
    requires s.pos + (if mode.Rle8? then count + count % 2 else (count + 3) / 4 * 2) <= |input|
    ensures
      var n := Written(mode, count, |s.pix| - s.col);
      PaintLiteral(mode, input, s, count).pos ==
        s.pos + (if mode.Rle8? then n + count % 2 else (n + 1) / 2 + (if 1 <= count % 4 <= 2 then 1 else 0))
  {
    hide Written, BytesUsed, PadBytes, LiteralPixels, Blit;
    BytesTaken(mode, count, Written(mode, count, |s.pix| - s.col));
  }

  lemma BlockPixels(mode: Mode, input: seq<byte>, s: RleState, count: nat)
    requires s.pos + (if mode.Rle8? then count + count % 2 else (count + 3) / 4 * 2) <= |input|
    ensures
      var n := Written(mode, count, |s.pix| - s.col);
      var r := PaintLiteral(mode, input, s, count);
      && r.col == s.col + n && r.y == s.y
      && PaintedFrom(r.pix, s.pix, s.col, n, (i: nat) =>
           if mode.Rle8? then FetchByte(input, s.pos + i) else Nibble(FetchByte(input, s.pos + i / 2), i))
  {
    hide Written, BytesUsed, PadBytes, LiteralPixel, Nibble, FetchByte;
    var n := Written(mode, count, |s.pix| - s.col);
    BytesTaken(mode, count, n);
    forall i: nat | i < n
      ensures LiteralPixel(mode, input, s.pos, n, i)
           == if mode.Rle8? then FetchByte(input, s.pos + i) else Nibble(FetchByte(input, s.pos + i / 2), i)
    {
      PixelTaken(mode, input, s.pos, n, i);
    }
  }

  lemma BlockPainted(mode: Mode, pitch: nat, input: seq<byte>, s: RleState)
    requires s.pos + 1 < |input| && input[s.pos] == 0 && 3 <= input[s.pos + 1] && 0 <= s.col
    ensures
      Step(mode, pitch, input, s) == Running(PaintLiteral(mode, input, s.(pos := s.pos + 2), input[s.pos + 1]))
  {
    hide PaintLiteral, PaintRun;
  }

  lemma BytesTaken(mode: Mode, count: nat, n: nat)
    requires n <= count
    ensures BytesUsed(mode, n) == if mode.Rle8? then n else (n + 1) / 2
    ensures PadBytes(mode, count) == if mode.Rle8? then count % 2 else if 1 <= count % 4 <= 2 then 1 else 0
    ensures BytesUsed(mode, n) + PadBytes(mode, count) <= if mode.Rle8? then count + count % 2 else (count + 3) / 4 * 2
  {}

  lemma PixelTaken(mode: Mode, input: seq<byte>, at: nat, n: nat, i: nat)
    requires i < n && at + BytesUsed(mode, n) <= |input|
    ensures LiteralPixel(mode, input, at, n, i)
         == if mode.Rle8? then FetchByte(input, at + i) else Nibble(FetchByte(input, at + i / 2), i)
  {}

  /** Pixel bytes missing at the end of the input read as 255; a single last pixel of a 4-bit block is then 255
      itself. */
  lemma PixelsPastTheEnd(mode: Mode, pitch: nat, input: seq<byte>, s: RleState)
    requires s.pos + 2 == |input| && input[s.pos] == 0 && 3 <= input[s.pos + 1] && 0 <= s.col
    ensures
      var n := Fitting(mode, input[s.pos + 1], |s.pix| - s.col);
      var o := Step(mode, pitch, input, s);
      && o.Running? && o.s.pos == |input| && o.s.col == s.col + n && o.s.y == s.y
      && PaintedFrom(o.s.pix, s.pix, s.col, n, (i: nat) =>
           if mode.Rle8? || (i == n - 1 && n % 2 == 1) then 255 else 15)
  {
    CutOff(mode, input[s.pos + 1], |s.pix| - s.col);
    hide RunPixels, Written, Fitting;
  }

  /** Two zeros go to the start of the row below, a zero and a one end the bitmap, a zero, a two and two
      distances go that far to the right and down. */
  lemma MovingBytes(mode: Mode, pitch: nat, input: seq<byte>, s: RleState, x: int)
    requires s.pos + 1 < |input| && input[s.pos] == 0 && s.col == pitch * s.y + x
    ensures
      var o := Step(mode, pitch, input, s);
      && (input[s.pos + 1] == 0 ==> o == Running(RleState(s.pix, pitch * (s.y - 1), s.y - 1, s.pos + 2)))
      && (input[s.pos + 1] == 1 ==> o == Finished(s.(pos := s.pos + 2)))
      && (input[s.pos + 1] == 2 && s.pos + 3 < |input| ==>
            var right, down := input[s.pos + 2], input[s.pos + 3];
            var t := RleState(s.pix, pitch * (s.y - down) + (x + right), s.y - down, s.pos + 4);
            o == if 0 <= t.col then Running(t) else Corrupted(t))
  {
    if s.pos + 3 < |input| {
      RowsDown(pitch, s.y, input[s.pos + 3]);
    }
    hide Blit, RunPixels, LiteralPixels;
  }

  lemma RowsDown(pitch: nat, y: int, down: nat)
    ensures pitch * (y - down) == pitch * y - down * pitch
  {}

  /** The end of the input where an instruction should begin, or its second byte, and a run below the last
      row are errors. */
  lemma BadBytes(mode: Mode, pitch: nat, input: seq<byte>, s: RleState)
    requires s.pos <= |input|
    ensures s.pos == |input| ==> Step(mode, pitch, input, s).Corrupted?
    ensures s.pos + 1 == |input| && input[s.pos] == 0 ==> Step(mode, pitch, input, s).Corrupted?
    ensures s.pos < |input| && 0 < input[s.pos] && s.y < 0 ==> Step(mode, pitch, input, s).Corrupted?
  {}
}
