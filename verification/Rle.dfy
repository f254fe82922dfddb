/** Run-length coded bitmaps: the byte-coded state machine and what it paints. */
module Rle {
  import opened Arithmetic

  datatype Mode = Rle8 | Rle4

  // ----- Reading

  /** `fgetc`: the byte at a position, or EOF. */
  function Fetch(input: seq<byte>, pos: nat): int {
    if pos < |input| then input[pos] else -1
  }

  /** The same stored into an unsigned byte. */
  function FetchByte(input: seq<byte>, pos: nat): byte {
    if pos < |input| then input[pos] else 255
  }

  function Advance(input: seq<byte>, pos: nat, n: nat): (r: nat)
    requires pos <= |input|
    ensures pos <= r <= |input|
  {
    if pos + n <= |input| then pos + n else |input|
  }

  // ----- Painting

  /** The flat buffer with `px` laid over it at `col`. */
  function Blit(pix: seq<byte>, col: int, px: seq<byte>): (r: seq<byte>)
    ensures |r| == |pix|
  {
    seq(|pix|, i requires 0 <= i < |pix| => if col <= i < col + |px| then px[i - col] else pix[i])
  }

  /** The pixels of a run: in a 4-bit run the two nibbles of the colour alternate, high one first. */
  function RunPixels(mode: Mode, count: nat, color: byte): (px: seq<byte>)
    ensures |px| == count
  {
    seq(count, i => if mode.Rle8? then color else if i % 2 == 0 then color / 16 else color % 16)
  }

  /** The first `n` pixels of a literal block starting at a position. */
  function LiteralPixels(mode: Mode, input: seq<byte>, pos: nat, n: nat): (px: seq<byte>)
    ensures |px| == n
  {
    seq(n, i requires 0 <= i < n => LiteralPixel(mode, input, pos, n, i))
  }

  /** A 4-bit block keeps two pixels in a byte, high nibble first. A single last pixel is shifted as an
      integer, so at the end of the input it is the EOF value shifted, which stores as 255. */
  function LiteralPixel(mode: Mode, input: seq<byte>, pos: nat, n: nat, i: nat): byte
    requires i < n
  {
    if mode.Rle8? then FetchByte(input, pos + i)
    else if i % 2 == 1 then FetchByte(input, pos + i / 2) % 16
    else if i == n - 1 && |input| <= pos + i / 2 then 255
    else FetchByte(input, pos + i / 2) / 16
  }

  /** How many pixels a block of `count` gets onto the buffer when `room` are left: 4-bit blocks are
      written in pairs, and then one more if the count is odd. */
  function Written(mode: Mode, count: nat, room: int): (n: nat)
    ensures n <= count && (0 <= room ==> n <= room) && (room < 0 ==> n == 0)
    ensures count <= room ==> n == count
  {
    if room <= 0 then 0
    else if mode.Rle8? then (if count <= room then count else room)
    else
      var pairs := if count / 2 <= room / 2 then count / 2 else room / 2;
      if count % 2 == 1 && 2 * pairs < room then 2 * pairs + 1 else 2 * pairs
  }

  // ----- The state machine, one instruction at a time

  datatype RleState = RleState(pix: seq<byte>, col: int, y: int, pos: nat)

  /** `Wild` is a literal block that would start before the buffer; the C code does not check for it. */
  datatype Outcome = Running(s: RleState) | Finished(s: RleState) | Corrupted(s: RleState) | Wild(s: RleState)

  ghost predicate Sane(input: seq<byte>, s: RleState) {
    s.pos <= |input| && (0 <= s.y ==> 0 <= s.col)
  }

  function BytesUsed(mode: Mode, n: nat): nat {
    if mode.Rle8? then n else (n + 1) / 2
  }

  function PadBytes(mode: Mode, count: nat): nat {
    if mode.Rle8? then count % 2 else (count + 1) / 2 % 2
  }

  function PaintRun(mode: Mode, s: RleState, count: nat, color: byte): RleState {
    var n := Written(mode, count, |s.pix| - s.col);
    s.(pix := Blit(s.pix, s.col, RunPixels(mode, count, color)[..n]), col := s.col + n)
  }

  function PaintLiteral(mode: Mode, input: seq<byte>, s: RleState, count: nat): RleState
    requires s.pos <= |input|
  {
    var n := Written(mode, count, |s.pix| - s.col);
    RleState(Blit(s.pix, s.col, LiteralPixels(mode, input, s.pos, n)), s.col + n, s.y,
             Advance(input, Advance(input, s.pos, BytesUsed(mode, n)), PadBytes(mode, count)))
  }

  function Escape(mode: Mode, pitch: nat, input: seq<byte>, s: RleState): Outcome
    requires s.pos <= |input|
  {
    var c := Fetch(input, s.pos);
    var next := s.(pos := Advance(input, s.pos, 1));
    if c < 0 then Corrupted(next)
    else if c == 0 then Running(next.(y := s.y - 1, col := pitch * (s.y - 1)))
    else if c == 1 then Finished(next)
    else if c == 2 then
      var dx, dy := FetchByte(input, next.pos), FetchByte(input, Advance(input, next.pos, 1));
      var moved := RleState(s.pix, s.col + dx - dy * pitch, s.y - dy, Advance(input, next.pos, 2));
      if moved.col < 0 then Corrupted(moved) else Running(moved)
    else if s.col < 0 then Wild(next)
    else Running(PaintLiteral(mode, input, next, c))
  }

  function Step(mode: Mode, pitch: nat, input: seq<byte>, s: RleState): (o: Outcome)
    requires s.pos <= |input|
    ensures o.Running? ==> s.pos < o.s.pos <= |input| && |o.s.pix| == |s.pix|
  {
    var c := Fetch(input, s.pos);
    var next := s.(pos := Advance(input, s.pos, 1));
    if c < 0 then Corrupted(next)
    else if c == 0 then Escape(mode, pitch, input, next)
    else if s.y < 0 then Corrupted(next)
    else Running(PaintRun(mode, next, c, FetchByte(input, next.pos)).(pos := Advance(input, next.pos, 1)))
  }

  /** The whole decode: every instruction consumes input, so it ends. */
  function Decode(mode: Mode, pitch: nat, input: seq<byte>, s: RleState): Outcome
    requires s.pos <= |input|
    decreases |input| - s.pos
  {
    var o := Step(mode, pitch, input, s);
    if o.Running? then Decode(mode, pitch, input, o.s) else o
  }

  lemma RowStart(pitch: nat, y: int)
    ensures 0 <= y ==> 0 <= pitch * y
  {}

  /** While `y` is a row of the image the cursor is not before the buffer. */
  lemma StepSane(mode: Mode, pitch: nat, input: seq<byte>, s: RleState)
    requires Sane(input, s)
    ensures var o := Step(mode, pitch, input, s); o.Running? ==> Sane(input, o.s)
    ensures Step(mode, pitch, input, s).Wild? <==> LiteralAt(input, s.pos) && s.col < 0
  {
    RowStart(pitch, s.y - 1);
  }

  predicate LiteralAt(input: seq<byte>, pos: nat) {
    Fetch(input, pos) == 0 && 3 <= Fetch(input, pos + 1)
  }

  /** Every literal block met on the way starts with the cursor in or behind the buffer. */
  predicate LiteralsInBuffer(mode: Mode, pitch: nat, input: seq<byte>, s: RleState)
    requires s.pos <= |input|
    decreases |input| - s.pos
  {
    && (LiteralAt(input, s.pos) ==> 0 <= s.col)
    && (var o := Step(mode, pitch, input, s); o.Running? ==> LiteralsInBuffer(mode, pitch, input, o.s))
  }

  /** A stream is written before the buffer exactly when one of the literal blocks it comes to starts
      there. */
  lemma {:induction false} WildIff(mode: Mode, pitch: nat, input: seq<byte>, s: RleState)
    requires Sane(input, s)
    ensures Decode(mode, pitch, input, s).Wild? <==> !LiteralsInBuffer(mode, pitch, input, s)
    decreases |input| - s.pos
  {
    hide Step;
    StepSane(mode, pitch, input, s);
    LiteralGoesOn(mode, pitch, input, s);
    var o := Step(mode, pitch, input, s);
    if o.Running? {
      WildIff(mode, pitch, input, o.s);
    }
  }

  lemma LiteralGoesOn(mode: Mode, pitch: nat, input: seq<byte>, s: RleState)
    requires s.pos <= |input|
    ensures LiteralAt(input, s.pos) && 0 <= s.col ==> Step(mode, pitch, input, s).Running?
  {}

  /** Every literal block met on the way starts in a row of the image. */
  predicate LiteralsInImage(mode: Mode, pitch: nat, input: seq<byte>, s: RleState)
    requires s.pos <= |input|
    decreases |input| - s.pos
  {
    && (LiteralAt(input, s.pos) ==> 0 <= s.y)
    && (var o := Step(mode, pitch, input, s); o.Running? ==> LiteralsInImage(mode, pitch, input, o.s))
  }

  lemma {:induction false} ImageIsInBuffer(mode: Mode, pitch: nat, input: seq<byte>, s: RleState)
    requires Sane(input, s) && LiteralsInImage(mode, pitch, input, s)
    ensures LiteralsInBuffer(mode, pitch, input, s)
    decreases |input| - s.pos
  {
    hide Step;
    StepSane(mode, pitch, input, s);
    var o := Step(mode, pitch, input, s);
    if o.Running? {
      ImageIsInBuffer(mode, pitch, input, o.s);
    }
  }

  /** So a stream whose literal blocks all start in the image never writes before the buffer. */
  lemma NeverWild(mode: Mode, pitch: nat, input: seq<byte>, s: RleState)
    requires Sane(input, s) && LiteralsInImage(mode, pitch, input, s)
    ensures !Decode(mode, pitch, input, s).Wild?
  {
    hide Decode, LiteralsInBuffer, LiteralsInImage, Sane;
    ImageIsInBuffer(mode, pitch, input, s);
    WildIff(mode, pitch, input, s);
  }

  /** Not the other way round: a delta can bring the cursor back into the buffer without the row. */
  lemma DeltaBringsBack()
    ensures
      var input: seq<byte> := [0, 0, 0, 2, 4, 0, 0, 3, 7, 7, 7, 0, 0, 1];
      var s := InitialState([0, 0, 0, 0], 1, 4);
      !LiteralsInImage(Rle8, 4, input, s) && !Decode(Rle8, 4, input, s).Wild?
  {
    var input: seq<byte> := [0, 0, 0, 2, 4, 0, 0, 3, 7, 7, 7, 0, 0, 1];
    var s := InitialState([0, 0, 0, 0], 1, 4);
    var behind, back := RleState(s.pix, -4, -1, 2), RleState(s.pix, 0, -1, 6);
    assert Step(Rle8, 4, input, s) == Running(behind) && Step(Rle8, 4, input, behind) == Running(back);
    var painted := PaintLiteral(Rle8, input, back.(pos := 8), 3);
    assert Step(Rle8, 4, input, back) == Running(painted) && painted.pos == 12;
    assert Step(Rle8, 4, input, painted).Finished?;
    hide Step;
    assert !LiteralsInImage(Rle8, 4, input, back);
    assert Decode(Rle8, 4, input, back).Finished?;
  }

  /** The line end that closes the last row leaves the cursor before the buffer, where the C code still
      accepts a literal block. */
  lemma LiteralAfterLastRow(mode: Mode, pitch: nat, pix: seq<byte>)
    requires 0 < pitch == |pix|
    ensures Decode(mode, pitch, [0, 0, 0, 3], InitialState(pix, 1, pitch)).Wild?
  {
    var input: seq<byte> := [0, 0, 0, 3];
    var s := RleState(pix, 0 - pitch, -1, 2);
    assert Step(mode, pitch, input, InitialState(pix, 1, pitch)) == Running(s);
    assert Step(mode, pitch, input, s).Wild?;
  }

  // ----- The loops

  lemma BlitNext(pix: seq<byte>, col: int, px: seq<byte>, m: nat)
    requires 0 <= col && m < |px| && col + m < |pix|
    ensures Blit(pix, col, px[..m])[col + m := px[m]] == Blit(pix, col, px[..m + 1])
  {}

  lemma BlitNone(pix: seq<byte>, col: int)
    ensures Blit(pix, col, []) == pix
  {}

  /** Stores the next pixel of `px`. */
  method Store(pixels: array<byte>, col: nat, p: byte, ghost was: seq<byte>, ghost start: nat, ghost px: seq<byte>)
    requires start <= col < pixels.Length && col - start < |px| && p == px[col - start]
    requires pixels[..] == Blit(was, start, px[..col - start])
    modifies pixels
    ensures pixels[..] == Blit(was, start, px[..col - start + 1])
  {
    BlitNext(was, start, px, col - start);
    pixels[col] := p;
    hide Blit;
  }

  method EncodedRun(pixels: array<byte>, start: nat, count: nat, color: byte, mode: Mode) returns (col: nat)
    modifies pixels
    ensures
      var n := Written(mode, count, pixels.Length - start);
      && col == start + n
      && pixels[..] == Blit(old(pixels[..]), start, RunPixels(mode, count, color)[..n])
  {
    if mode.Rle8? {
      col := EncodedRun8(pixels, start, count, color);
    } else {
      col := EncodedRun4(pixels, start, count, color);
    }
  }

  method EncodedRun8(pixels: array<byte>, start: nat, count: nat, color: byte) returns (col: nat)
    modifies pixels
    ensures
      var n := Written(Rle8, count, pixels.Length - start);
      && col == start + n
      && pixels[..] == Blit(old(pixels[..]), start, RunPixels(Rle8, count, color)[..n])
  {
    hide Blit;
    ghost var was, px := pixels[..], RunPixels(Rle8, count, color);
    ghost var n := Written(Rle8, count, pixels.Length - start);
    col := start;
    BlitNone(was, start);
    assert px[..0] == [];
    var c := count;
    while c > 0 && col < pixels.Length
      invariant start <= col <= start + n && c == count - (col - start)
      invariant pixels[..] == Blit(was, start, px[..col - start])
    {
      Store(pixels, col, color, was, start, px);
      col := col + 1;
      c := c - 1;
    }
  }

  method EncodedRun4(pixels: array<byte>, start: nat, count: nat, color: byte) returns (col: nat)
    modifies pixels
    ensures
      var n := Written(Rle4, count, pixels.Length - start);
      && col == start + n
      && pixels[..] == Blit(old(pixels[..]), start, RunPixels(Rle4, count, color)[..n])
  {
    hide Blit;
    ghost var was, px := pixels[..], RunPixels(Rle4, count, color);
    ghost var n := Written(Rle4, count, pixels.Length - start);
    col := start;
    BlitNone(was, start);
    assert px[..0] == [];
    var k := count / 2;
    ghost var pairs := 0;
    while k > 0 && col < pixels.Length - 1
      invariant col == start + 2 * pairs && k == count / 2 - pairs && pairs <= count / 2 && 2 * pairs <= n
      invariant start < pixels.Length ==> col <= pixels.Length
      invariant pixels[..] == Blit(was, start, px[..2 * pairs])
    {
      Store(pixels, col, color / 16, was, start, px);
      Store(pixels, col + 1, color % 16, was, start, px);
      col := col + 2;
      k := k - 1;
      pairs := pairs + 1;
    }
    WrittenPairs(count, pixels.Length - start, pairs);
    if count % 2 == 1 && col < pixels.Length {
      Store(pixels, col, color / 16, was, start, px);
      col := col + 1;
    }
  }

  lemma WrittenPairs(count: nat, room: int, pairs: nat)
    requires pairs <= count / 2 && (pairs < count / 2 ==> room <= 2 * pairs + 1) && (0 < room ==> 2 * pairs <= room)
    requires room <= 0 ==> pairs == 0
    ensures Written(Rle4, count, room) == if count % 2 == 1 && 2 * pairs < room then 2 * pairs + 1 else 2 * pairs
  {}

  method LiteralRun(pixels: array<byte>, start: nat, count: nat, input: seq<byte>, pos0: nat, mode: Mode)
    returns (col: nat, pos: nat)
    requires pos0 <= |input|
    modifies pixels
    ensures
      var n := Written(mode, count, pixels.Length - start);
      && col == start + n
      && pos == Advance(input, pos0, BytesUsed(mode, n))
      && pixels[..] == Blit(old(pixels[..]), start, LiteralPixels(mode, input, pos0, n))
  {
    if mode.Rle8? {
      col, pos := LiteralRun8(pixels, start, count, input, pos0);
    } else {
      col, pos := LiteralRun4(pixels, start, count, input, pos0);
    }
  }

  method LiteralRun8(pixels: array<byte>, start: nat, count: nat, input: seq<byte>, pos0: nat)
    returns (col: nat, pos: nat)
    requires pos0 <= |input|
    modifies pixels
    ensures
      var n := Written(Rle8, count, pixels.Length - start);
      && col == start + n && pos == Advance(input, pos0, n)
      && pixels[..] == Blit(old(pixels[..]), start, LiteralPixels(Rle8, input, pos0, n))
  {
    hide Blit;
    ghost var was, n := pixels[..], Written(Rle8, count, pixels.Length - start);
    ghost var px := LiteralPixels(Rle8, input, pos0, n);
    col, pos := start, pos0;
    BlitNone(was, start);
    assert px[..0] == [];
    var c := count;
    while c > 0 && col < pixels.Length
      invariant start <= col <= start + n && c == count - (col - start)
      invariant pos == Advance(input, pos0, col - start)
      invariant pixels[..] == Blit(was, start, px[..col - start])
    {
      Store(pixels, col, FetchByte(input, pos), was, start, px);
      pos := Advance(input, pos, 1);
      col := col + 1;
      c := c - 1;
    }
    assert px[..n] == px;
  }

  method LiteralRun4(pixels: array<byte>, start: nat, count: nat, input: seq<byte>, pos0: nat)
    returns (col: nat, pos: nat)
    requires pos0 <= |input|
    modifies pixels
    ensures
      var n := Written(Rle4, count, pixels.Length - start);
      && col == start + n && pos == Advance(input, pos0, (n + 1) / 2)
      && pixels[..] == Blit(old(pixels[..]), start, LiteralPixels(Rle4, input, pos0, n))
  {
    hide Blit;
    ghost var was, n := pixels[..], Written(Rle4, count, pixels.Length - start);
    ghost var px := LiteralPixels(Rle4, input, pos0, n);
    col, pos := start, pos0;
    BlitNone(was, start);
    assert px[..0] == [];
    var k := count / 2;
    ghost var pairs := 0;
    while k > 0 && col < pixels.Length - 1
      invariant col == start + 2 * pairs && k == count / 2 - pairs && pairs <= count / 2
      invariant start < pixels.Length ==> col <= pixels.Length
      invariant 2 * pairs <= n
      invariant pos == Advance(input, pos0, pairs)
      invariant pixels[..] == Blit(was, start, px[..2 * pairs])
    {
      var p := FetchByte(input, pos);
      LiteralPair(input, pos0, n, pairs);
      pos := Advance(input, pos, 1);
      Store(pixels, col, p / 16, was, start, px);
      Store(pixels, col + 1, p % 16, was, start, px);
      col := col + 2;
      k := k - 1;
      pairs := pairs + 1;
    }
    WrittenPairs(count, pixels.Length - start, pairs);
    if count % 2 == 1 && col < pixels.Length {
      var p := Fetch(input, pos);
      LiteralSingle(input, pos0, n);
      pos := Advance(input, pos, 1);
      Store(pixels, col, if p < 0 then 255 else p / 16, was, start, px);
      col := col + 1;
    }
    assert px[..n] == px;
  }

  lemma LiteralPair(input: seq<byte>, pos: nat, n: nat, pairs: nat)
    requires pos <= |input| && 2 * pairs + 1 < n
    ensures
      var p := FetchByte(input, Advance(input, pos, pairs));
      && LiteralPixel(Rle4, input, pos, n, 2 * pairs) == p / 16
      && LiteralPixel(Rle4, input, pos, n, 2 * pairs + 1) == p % 16
  {}

  lemma LiteralSingle(input: seq<byte>, pos: nat, n: nat)
    requires pos <= |input| && n % 2 == 1
    ensures
      var p := Fetch(input, Advance(input, pos, n / 2));
      LiteralPixel(Rle4, input, pos, n, n - 1) == if p < 0 then 255 else p / 16
  {}

  // ----- The decoder

  /** How a round of the decoder ends: it goes on, or it stops with a verdict. `OutOfBuffer` stands for
      a literal block that the C code would go on to write before the buffer. */
  datatype Verdict = Continue | Ok | Corrupt | OutOfBuffer

  function Judge(v: Verdict, s: RleState): Outcome {
    match v
    case Continue => Running(s)
    case Ok => Finished(s)
    case Corrupt => Corrupted(s)
    case OutOfBuffer => Wild(s)
  }

  function InitialState(pix: seq<byte>, height: nat, pitch: nat): RleState {
    RleState(pix, |pix| - pitch, height - 1, 0)
  }

  method EscapeSequence(input: seq<byte>, pixels: array<byte>, pitch: nat, mode: Mode, col0: int, y0: int, pos0: nat)
    returns (v: Verdict, col: int, y: int, pos: nat)
    requires pos0 <= |input|
    modifies pixels
    ensures Judge(v, RleState(pixels[..], col, y, pos))
         == Escape(mode, pitch, input, RleState(old(pixels[..]), col0, y0, pos0))
  {
    hide Blit, Written, LiteralPixels;
    col, y, pos := col0, y0, pos0;
    var c := Fetch(input, pos);
    pos := Advance(input, pos, 1);
    if c < 0 {
      v := Corrupt;
    } else if c == 0 {
      y := y - 1;
      col := pitch * y;
      v := Continue;
    } else if c == 1 {
      v := Ok;
    } else if c == 2 {
      col := col + FetchByte(input, pos);
      pos := Advance(input, pos, 1);
      var dy := FetchByte(input, pos);
      pos := Advance(input, pos, 1);
      col := col - dy * pitch;
      y := y - dy;
      v := if col < 0 then Corrupt else Continue;
    } else if col < 0 {
      v := OutOfBuffer;
    } else {
      col, pos := LiteralRun(pixels, col, c, input, pos, mode);
      pos := Advance(input, pos, PadBytes(mode, c));
      v := Continue;
    }
  }

  method Round(input: seq<byte>, pixels: array<byte>, pitch: nat, mode: Mode, col0: int, y0: int, pos0: nat)
    returns (v: Verdict, col: int, y: int, pos: nat)
    requires pos0 <= |input| && (0 <= y0 ==> 0 <= col0)
    modifies pixels
    ensures Judge(v, RleState(pixels[..], col, y, pos))
         == Step(mode, pitch, input, RleState(old(pixels[..]), col0, y0, pos0))
  {
    hide Blit, Written, Escape, RunPixels;
    col, y, pos := col0, y0, pos0;
    var c := Fetch(input, pos);
    pos := Advance(input, pos, 1);
    if c < 0 {
      v := Corrupt;
    } else if c > 0 {
      if y < 0 {
        v := Corrupt;
      } else {
        var p := FetchByte(input, pos);
        pos := Advance(input, pos, 1);
        col := EncodedRun(pixels, col, c, p, mode);
        v := Continue;
      }
    } else {
      v, col, y, pos := EscapeSequence(input, pixels, pitch, mode, col, y, pos);
    }
  }

  /** The decoder loop: for every input it is the instruction interpreter. No store is ever outside the
      buffer, and the input left to read is a termination measure. */
  method LoadRle(input: seq<byte>, pixels: array<byte>, height: nat, pitch: nat, mode: Mode)
    returns (v: Verdict, col: int, y: int, pos: nat)
    requires pixels.Length == height * pitch
    modifies pixels
    ensures v != Continue
    ensures Judge(v, RleState(pixels[..], col, y, pos))
         == Decode(mode, pitch, input, InitialState(old(pixels[..]), height, pitch))
  {
    hide Step;
    ghost var goal := Decode(mode, pitch, input, InitialState(pixels[..], height, pitch));
    col, y, pos := pixels.Length - pitch, height - 1, 0;
    LastRow(height, pitch);
    v := Continue;
    while v == Continue
      invariant v == Continue ==> Sane(input, RleState(pixels[..], col, y, pos))
      invariant v == Continue ==> Decode(mode, pitch, input, RleState(pixels[..], col, y, pos)) == goal
      invariant v != Continue ==> Judge(v, RleState(pixels[..], col, y, pos)) == goal
      decreases v == Continue, |input| - pos
    {
      StepSane(mode, pitch, input, RleState(pixels[..], col, y, pos));
      v, col, y, pos := Round(input, pixels, pitch, mode, col, y, pos);
    }
  }

  lemma LastRow(height: nat, pitch: nat)
    ensures 0 < height ==> height * pitch - pitch == pitch * (height - 1) >= 0
  {}
}
