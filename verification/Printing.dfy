/** Printing characters and strings on a frame, down to its pixels. */
module Printing {
  import opened Bits
  import opened Font

  // ----- what printing means -----

  /** Column `x` of a line of a glyph whose first `cols` columns have been drawn at `X`: the glyph, then
      nothing up to the end of the last byte touched; `was` before the glyph and after that byte. */
  predicate LinePixel(f: Shape, cx: nat, cy: nat, X: nat, line: nat, cols: nat, x: nat, was: bool)
    requires f.Valid() && f.HasCell(cx, cy) && line < f.charHeight && cols <= f.charWidth
  {
    if x < X || cols == 0 then was
    else if x < X + cols then f.Glyph(cx, cy, x - X, line)
    else x >= RoundUp8(X + cols) && was
  }

  /** Pixel (x, y) after the character `c` has been printed at (X, Y). */
  predicate CharPixel(f: Shape, c: char, X: nat, Y: nat, x: nat, y: nat, was: bool)
    requires f.Valid() && c in f.chars
  {
    if Y <= y < Y + f.charHeight
    then LinePixel(f, f.chars[c].0, f.chars[c].1, X, y - Y, f.charWidth, x, was)
    else was
  }

  /** Every pixel of the frame is the one `CharPixel` says. */
  ghost predicate CharShown(f: Shape, c: char, X: nat, Y: nat, was: seq<bv8>, now: seq<bv8>)
    requires f.Valid() && c in f.chars
  {
    && IsFrame(was) && IsFrame(now)
    && forall x: nat, y: nat | OnFrame(x, y) ::
         PixelAt(now, x, y) == CharPixel(f, c, X, Y, x, y, PixelAt(was, x, y))
  }

  /** Where a character may be printed. */
  predicate Fits(f: Shape, X: nat, Y: nat) {
    X < LCD_SCREEN_WIDTH - f.charWidth && Y < LCD_SCREEN_HEIGHT - f.charHeight
  }

  const HACKSTRING: string := "mGMW%"

  /** Pixels from the start of a character to the start of the next one. */
  function Advance(f: Shape, c: char): int {
    f.charWidth - f.leftShift - (if f.extraShift > 0 && c !in HACKSTRING then f.extraShift else 0)
  }

  function TotalAdvance(f: Shape, s: string): int {
    if s == [] then 0 else Advance(f, s[0]) + TotalAdvance(f, s[1..])
  }

  lemma AdvanceRange(f: Shape, c: char)
    requires f.Valid()
    ensures 0 <= Advance(f, c) <= f.charWidth
  {
  }

  /** Pixel (x, y) after a string has been printed from (X, Y): each character over what is there,
      until one is unknown or does not fit. */
  predicate StringPixel(f: Shape, s: string, X: nat, Y: nat, x: nat, y: nat, was: bool)
    requires f.Valid()
    decreases s
  {
    if s == [] || s[0] !in f.chars || !Fits(f, X, Y) then was
    else
      AdvanceRange(f, s[0]);
      StringPixel(f, s[1..], X + Advance(f, s[0]), Y, x, y, CharPixel(f, s[0], X, Y, x, y, was))
  }

  // ----- drawing one byte -----

  /** The frame after `s` right-aligned pixels of `c` have been drawn from pixel (p, y) on. */
  function Blit(f: seq<bv8>, c: bv8, s: nat, p: nat, y: nat): (g: seq<bv8>)
    requires IsFrame(f) && 0 < s <= 8 && p + s <= DEFAULT_PBM_WIDTH && y < DEFAULT_PBM_HEIGHT
    ensures IsFrame(g)
  {
    var index := DEFAULT_PBM_WIDTH_IN_BYTES * y + p / 8;
    var g := f[index := BlitFirst(f[index], c, s, p % 8)];
    if s + p % 8 > 8 then g[index + 1 := BlitSecond(c, s, p % 8)] else g
  }

  lemma BlitIs(f: seq<bv8>, c: bv8, s: nat, p: nat, y: nat)
    requires |f| == DEFAULT_PBM_DATA_IN_BYTES && 0 < s <= 8 && p + s <= DEFAULT_PBM_WIDTH && y < DEFAULT_PBM_HEIGHT
    ensures var index := DEFAULT_PBM_WIDTH_IN_BYTES * y + p / 8; var masked := Mask(f[index], 8 - p % 8);
      && IsFrame(f)
      && (if s + p % 8 > 8 then
            index + 1 < |f| &&
            Blit(f, c, s, p, y) == f[index := Merge(masked, Shr(c, s + p % 8 - 8))]
                                    [index + 1 := Shl(c, 16 - s - p % 8)]
          else Blit(f, c, s, p, y) == f[index := Merge(masked, Shl(c, 8 - s - p % 8))])
  {
    hide Mask, Merge, Shl, Shr;
  }

  lemma {:induction false} BlitPixel(f: seq<bv8>, c: bv8, s: nat, p: nat, y: nat, x: nat, y': nat)
    requires IsFrame(f) && 0 < s <= 8 && p + s <= DEFAULT_PBM_WIDTH && y < DEFAULT_PBM_HEIGHT
    requires OnFrame(x, y') && RightAligned(c, s)
    ensures PixelAt(Blit(f, c, s, p, y), x, y') ==
            if y' != y || x < p || x >= RoundUp8(p + s) then PixelAt(f, x, y')
            else x < p + s && Bit(c, 8 - s + x - p)
  {
    hide Bit, BlitFirst, BlitSecond, RightAligned, RoundUp8;
    BytePlaces(p, y, x, y');
    RoundPlaces(p, s, x);
    if y' == y && x / 8 == p / 8 {
      BlitFirstBits(f[DEFAULT_PBM_WIDTH_IN_BYTES * y + p / 8], c, s, p % 8, x % 8);
    } else if y' == y && x / 8 == p / 8 + 1 && s + p % 8 > 8 {
      BlitSecondBits(c, s, p % 8, x % 8);
    }
  }

  /** The columns that drawing `s` pixels from `p` on may change. */
  lemma RoundPlaces(p: nat, s: nat, x: nat)
    requires 0 < s <= 8
    ensures p <= x < RoundUp8(p + s) <==>
            (x / 8 == p / 8 && x % 8 >= p % 8) || (x / 8 == p / 8 + 1 && s + p % 8 > 8)
    ensures x / 8 == p / 8 ==> x - p == x % 8 - p % 8
    ensures x / 8 == p / 8 + 1 ==> x - p == 8 + x % 8 - p % 8
  {
  }

  /** Which byte of the frame a pixel is in. */
  lemma BytePlaces(p: nat, y: nat, x: nat, y': nat)
    requires p < DEFAULT_PBM_WIDTH && x < DEFAULT_PBM_WIDTH
    ensures var w := DEFAULT_PBM_WIDTH_IN_BYTES;
      && (w * y' + x / 8 == w * y + p / 8 <==> y' == y && x / 8 == p / 8)
      && (p / 8 + 1 < w ==> (w * y' + x / 8 == w * y + p / 8 + 1 <==> y' == y && x / 8 == p / 8 + 1))
  {
  }

  // ----- strings -----

  /** Printing `rest` from X' on the frame as it is `now` leaves what printing `s` from X on the frame as it
      `was` leaves. */
  ghost predicate SameString(f: Shape, s: string, X: nat, rest: string, X': nat, Y: nat,
                             was: seq<bv8>, now: seq<bv8>)
    requires f.Valid()
  {
    && IsFrame(was) && IsFrame(now)
    && forall x: nat, y: nat | OnFrame(x, y) ::
         StringPixel(f, rest, X', Y, x, y, PixelAt(now, x, y)) ==
         StringPixel(f, s, X, Y, x, y, PixelAt(was, x, y))
  }

  lemma NoneWritten(f: Shape, s: string, X: nat, Y: nat, was: seq<bv8>)
    requires f.Valid() && |was| == DEFAULT_PBM_DATA_IN_BYTES
    ensures SameString(f, s, X, s[0..], X, Y, was, was)
  {
    hide PixelAt, StringPixel;
    assert s[0..] == s;
  }

  lemma OneWritten(f: Shape, s: string, X: nat, i: nat, at: nat, Y: nat,
                   was: seq<bv8>, before: seq<bv8>, now: seq<bv8>)
    requires f.Valid() && i < |s| && s[i] in f.chars && Fits(f, at, Y)
    requires SameString(f, s, X, s[i..], at, Y, was, before) && CharShown(f, s[i], at, Y, before, now)
    ensures Advance(f, s[i]) >= 0
    ensures SameString(f, s, X, s[i + 1..], at + Advance(f, s[i]), Y, was, now)
  {
    AdvanceRange(f, s[i]);
    hide PixelAt, CharPixel, Fits, Advance, Shape.Valid, StringPixel;
    forall x: nat, y: nat | OnFrame(x, y)
      ensures StringPixel(f, s[i + 1..], at + Advance(f, s[i]), Y, x, y, PixelAt(now, x, y)) ==
              StringPixel(f, s, X, Y, x, y, PixelAt(was, x, y))
    {
      OnePixel(f, s, i, at, Y, x, y, PixelAt(before, x, y));
    }
  }

  lemma OnePixel(f: Shape, s: string, i: nat, at: nat, Y: nat, x: nat, y: nat, was: bool)
    requires f.Valid() && i < |s| && s[i] in f.chars && Fits(f, at, Y) && Advance(f, s[i]) >= 0
    ensures StringPixel(f, s[i..], at, Y, x, y, was) ==
            StringPixel(f, s[i + 1..], at + Advance(f, s[i]), Y, x, y, CharPixel(f, s[i], at, Y, x, y, was))
  {
    hide CharPixel, Fits, Advance, Shape.Valid;
    assert s[i..][0] == s[i] && s[i..][1..] == s[i + 1..];
  }

  lemma StringEnded(f: Shape, s: string, X: nat, i: nat, at: nat, Y: nat, was: seq<bv8>, now: seq<bv8>)
    requires f.Valid() && i <= |s| && (i < |s| ==> s[i] !in f.chars || !Fits(f, at, Y))
    requires SameString(f, s, X, s[i..], at, Y, was, now)
    ensures IsFrame(was) && IsFrame(now)
    ensures forall x: nat, y: nat | OnFrame(x, y) ::
              PixelAt(now, x, y) == StringPixel(f, s, X, Y, x, y, PixelAt(was, x, y))
  {
    hide PixelAt, Fits, Shape.Valid;
  }

  // ----- one character -----

  datatype PrintError = UnknownCharacter | DoesNotFit

  datatype Print = Printed | Refused(error: PrintError)

  /** Pixel (x, y) when the first `lines` lines of a character are drawn, and `cols` columns of the
      next one. */
  predicate DrawnPixel(f: Shape, cx: nat, cy: nat, X: nat, Y: nat, lines: nat, cols: nat,
                       x: nat, y: nat, was: bool)
    requires f.Valid() && f.HasCell(cx, cy) && lines <= f.charHeight && cols <= f.charWidth
  {
    if Y <= y < Y + lines then LinePixel(f, cx, cy, X, y - Y, f.charWidth, x, was)
    else if y == Y + lines && lines < f.charHeight then LinePixel(f, cx, cy, X, lines, cols, x, was)
    else was
  }

  ghost predicate Drawn(f: Shape, cx: nat, cy: nat, X: nat, Y: nat, lines: nat, cols: nat,
                        was: seq<bv8>, now: seq<bv8>)
    requires f.Valid() && f.HasCell(cx, cy) && lines <= f.charHeight && cols <= f.charWidth
  {
    && IsFrame(was) && IsFrame(now)
    && forall x: nat, y: nat | OnFrame(x, y) ::
         PixelAt(now, x, y) == DrawnPixel(f, cx, cy, X, Y, lines, cols, x, y, PixelAt(was, x, y))
  }

  /** Drawing byte `j` of a line, at its place, extends what is drawn by its columns. */
  lemma DrawByte(f: Shape, cx: nat, cy: nat, X: nat, Y: nat, line: nat, j: nat, was: seq<bv8>, now: seq<bv8>)
    requires f.Valid() && f.HasCell(cx, cy) && line < f.charHeight && j < f.CharBytes() && Fits(f, X, Y)
    requires f.ShiftBase() * j <= f.charWidth
    requires Drawn(f, cx, cy, X, Y, line, f.ShiftBase() * j, was, now)
    ensures var s := f.ShiftBase(); var c := GetCharacterLine(f, cx, cy, line, j);
      && s * (j + 1) <= f.charWidth
      && Drawn(f, cx, cy, X, Y, line, s * (j + 1), was, Blit(now, c, s, X + s * j, Y + line))
  {
    ByteColumns(f, j);
    LineAligned(f, cx, cy, line, j);
    forall x: nat, y: nat | OnFrame(x, y)
      ensures var s := f.ShiftBase(); var c := GetCharacterLine(f, cx, cy, line, j);
        PixelAt(Blit(now, c, s, X + s * j, Y + line), x, y) ==
        DrawnPixel(f, cx, cy, X, Y, line, s * (j + 1), x, y, PixelAt(was, x, y))
    {
      DrawByteAt(f, cx, cy, X, Y, line, j, was, now, x, y);
    }
  }

  lemma DrawByteAt(f: Shape, cx: nat, cy: nat, X: nat, Y: nat, line: nat, j: nat, was: seq<bv8>, now: seq<bv8>,
                   x: nat, y: nat)
    requires f.Valid() && f.HasCell(cx, cy) && line < f.charHeight && j < f.CharBytes() && Fits(f, X, Y)
    requires f.ShiftBase() * (j + 1) <= f.charWidth && f.ShiftBase() * j <= f.charWidth
    requires RightAligned(GetCharacterLine(f, cx, cy, line, j), f.ShiftBase())
    requires IsFrame(was) && IsFrame(now) && OnFrame(x, y)
    requires PixelAt(now, x, y) ==
             DrawnPixel(f, cx, cy, X, Y, line, f.ShiftBase() * j, x, y, PixelAt(was, x, y))
    ensures var s := f.ShiftBase(); var c := GetCharacterLine(f, cx, cy, line, j);
      PixelAt(Blit(now, c, s, X + s * j, Y + line), x, y) ==
      DrawnPixel(f, cx, cy, X, Y, line, s * (j + 1), x, y, PixelAt(was, x, y))
  {
    hide PixelAt, Blit, GetCharacterLine, Bit, RightAligned, LinePixel;
    var s, c := f.ShiftBase(), GetCharacterLine(f, cx, cy, line, j);
    BlitPixel(now, c, s, X + s * j, Y + line, x, y);
    DrawBytePixel(f, cx, cy, X, line, j, x, PixelAt(was, x, y));
  }

  lemma ByteColumns(f: Shape, j: nat)
    requires f.Valid() && j < f.CharBytes()
    ensures f.ShiftBase() * (j + 1) <= f.charWidth
    ensures f.ShiftBase() * j == if j == 0 then 0 else 8 * j
    ensures j > 0 ==> f.ShiftBase() == 8
  {
  }

  lemma LineAligned(f: Shape, cx: nat, cy: nat, line: nat, j: nat)
    requires f.Valid() && f.HasCell(cx, cy) && line < f.charHeight && j < f.CharBytes()
    ensures RightAligned(GetCharacterLine(f, cx, cy, line, j), f.ShiftBase())
  {
    hide GetCharacterLine;
    forall k: nat | k < 8 - f.ShiftBase()
      ensures !Bit(GetCharacterLine(f, cx, cy, line, j), k)
    {
      LineShowsGlyph(f, cx, cy, line, j, k);
    }
  }

  /** One more byte of a line, on one of its pixels. */
  lemma DrawBytePixel(f: Shape, cx: nat, cy: nat, X: nat, line: nat, j: nat, x: nat, was: bool)
    requires f.Valid() && f.HasCell(cx, cy) && line < f.charHeight && j < f.CharBytes()
    requires f.ShiftBase() * (j + 1) <= f.charWidth
    ensures var s := f.ShiftBase(); var p := X + s * j;
      LinePixel(f, cx, cy, X, line, s * (j + 1), x, was) ==
      if x < p || x >= RoundUp8(p + s) then LinePixel(f, cx, cy, X, line, s * j, x, was)
      else x < p + s && Bit(GetCharacterLine(f, cx, cy, line, j), 8 - s + x - p)
  {
    var s := f.ShiftBase();
    var p := X + s * j;
    ByteColumns(f, j);
    hide GetCharacterLine, Shape.Glyph;
    if p <= x < p + s {
      LineShowsGlyph(f, cx, cy, line, j, 8 - s + x - p);
    }
  }

  /** Before anything is drawn, and between two lines. */
  lemma DrawnStart(f: Shape, cx: nat, cy: nat, X: nat, Y: nat, was: seq<bv8>)
    requires f.Valid() && f.HasCell(cx, cy) && IsFrame(was)
    ensures Drawn(f, cx, cy, X, Y, 0, 0, was, was)
  {
    hide PixelAt;
  }

  lemma DrawnLine(f: Shape, cx: nat, cy: nat, X: nat, Y: nat, line: nat, was: seq<bv8>, now: seq<bv8>)
    requires f.Valid() && f.HasCell(cx, cy) && line < f.charHeight
    requires Drawn(f, cx, cy, X, Y, line, f.charWidth, was, now)
    ensures Drawn(f, cx, cy, X, Y, line + 1, 0, was, now)
  {
    hide PixelAt, Shape.Glyph;
  }

  lemma BytesMakeWidth(f: Shape)
    requires f.Valid()
    ensures f.ShiftBase() * f.CharBytes() == f.charWidth && f.CharBytes() > 0
  {
  }

  lemma CharDrawn(f: Shape, c: char, X: nat, Y: nat, was: seq<bv8>, now: seq<bv8>)
    requires f.Valid() && c in f.chars
    requires Drawn(f, f.chars[c].0, f.chars[c].1, X, Y, f.charHeight, 0, was, now)
    ensures CharShown(f, c, X, Y, was, now)
  {
    hide PixelAt, LinePixel;
  }

  /** Where byte `j` of a line lands: on the row, at the same offset in its byte as the first one. */
  lemma BytePlace(f: Shape, X: nat, y: nat, j: nat)
    requires f.Valid() && X + f.charWidth <= DEFAULT_PBM_WIDTH && j < f.CharBytes() && y < DEFAULT_PBM_HEIGHT
    ensures var s := f.ShiftBase(); var p := X + s * j;
      && 0 < s <= 8 && s * (j + 1) <= f.charWidth && p + s <= DEFAULT_PBM_WIDTH
      && p / 8 == X / 8 + j && p % 8 == X % 8 && p / 8 < DEFAULT_PBM_WIDTH_IN_BYTES
      && (s + X % 8 > 8 ==> p / 8 + 1 < DEFAULT_PBM_WIDTH_IN_BYTES)
    ensures var s := f.ShiftBase(); var index := DEFAULT_PBM_WIDTH_IN_BYTES * y + X / 8 + j;
      && index == DEFAULT_PBM_WIDTH_IN_BYTES * y + (X + s * j) / 8 && index < DEFAULT_PBM_DATA_IN_BYTES
      && (s + X % 8 > 8 ==> index + 1 < DEFAULT_PBM_DATA_IN_BYTES)
  {
    ByteColumns(f, j);
  }

  /** Bytes `index` and, for a positive shift, `index + 1` of a frame, `n` pixels of the first one
      after the glyph starts. */
  function Blitted(f: seq<bv8>, c: bv8, index: nat, n: nat, shift: int): seq<bv8>
    requires index < |f| && shift <= 8 && (shift > 0 ==> index + 1 < |f|)
  {
    var masked := Mask(f[index], n);
    if shift > 0 then f[index := Merge(masked, Shr(c, shift))][index + 1 := Shl(c, 8 - shift)]
    else f[index := Merge(masked, Shl(c, -shift))]
  }

  lemma BlittedIs(f: seq<bv8>, c: bv8, index: nat, n: nat, shift: int)
    requires index < |f| && shift <= 8 && (shift > 0 ==> index + 1 < |f|)
    ensures shift > 0 ==>
              Blitted(f, c, index, n, shift) ==
              f[index := Merge(Mask(f[index], n), Shr(c, shift))][index + 1 := Shl(c, 8 - shift)]
    ensures shift <= 0 ==>
              Blitted(f, c, index, n, shift) == f[index := Merge(Mask(f[index], n), Shl(c, -shift))]
  {
  }

  /** The pure blit, in terms of the place of the first byte. */
  lemma BlitPlaced(f: seq<bv8>, c: bv8, s: nat, X: nat, y: nat, j: nat)
    requires |f| == DEFAULT_PBM_DATA_IN_BYTES && y < DEFAULT_PBM_HEIGHT
    requires 0 < s <= 8 && X + s * j + s <= DEFAULT_PBM_WIDTH
    requires (X + s * j) / 8 == X / 8 + j && (X + s * j) % 8 == X % 8
    ensures var index := DEFAULT_PBM_WIDTH_IN_BYTES * y + X / 8 + j; var right := s - (8 - X % 8);
      && IsFrame(f) && index < |f| && right <= 8
      && (right > 0 ==> index + 1 < |f|)
      && Blit(f, c, s, X + s * j, y) == Blitted(f, c, index, 8 - X % 8, right)
  {
    BlitIs(f, c, s, X + s * j, y);
    hide Blit, Mask, Merge, Shl, Shr;
  }

  lemma ByteBlitted(shape: Shape, f: seq<bv8>, c: bv8, X: nat, y: nat, j: nat)
    requires shape.Valid() && |f| == DEFAULT_PBM_DATA_IN_BYTES
    requires X + shape.charWidth <= DEFAULT_PBM_WIDTH && y < DEFAULT_PBM_HEIGHT && j < shape.CharBytes()
    ensures var s := shape.ShiftBase();
      var index := DEFAULT_PBM_WIDTH_IN_BYTES * y + X / 8 + j; var right := s - (8 - X % 8);
      && 0 < s <= 8 && s * (j + 1) <= shape.charWidth && X + s * j + s <= DEFAULT_PBM_WIDTH
      && IsFrame(f) && index < |f| && right <= 8
      && (right > 0 ==> index + 1 < |f|)
      && Blit(f, c, s, X + s * j, y) == Blitted(f, c, index, 8 - X % 8, right)
  {
    hide *;
    BytePlace(shape, X, y, j);
    BlitPlaced(f, c, shape.ShiftBase(), X, y, j);
  }

  /** No position wraps around. */
  lemma AdvanceIs(f: Shape, c: char, X: nat)
    requires f.Valid() && X < LCD_SCREEN_WIDTH - f.charWidth
    ensures var moved := U16(X + (f.charWidth - f.leftShift));
      X + Advance(f, c) == if f.extraShift > 0 && c !in HACKSTRING then U16(moved - f.extraShift) else moved
  {
  }

  lemma CharFacts(f: Shape, c: char, X: nat, Y: nat)
    requires f.Valid()
    ensures c in f.chars ==> f.HasCell(f.chars[c].0, f.chars[c].1)
    ensures f.leftShift + f.extraShift <= f.charWidth
    ensures Fits(f, X, Y) <==> X < LCD_SCREEN_WIDTH - f.charWidth && Y < LCD_SCREEN_HEIGHT - f.charHeight
  {
  }

  class PBMFont {
    const shape: Shape
    var charX: nat
    var charY: nat

    constructor (shape: Shape)
      ensures this.shape == shape && charX == 0 && charY == 0
    {
      this.shape := shape;
      charX, charY := 0, 0;
    }

    /** Prints a character and moves `PBMXPos` to where the next one starts. Refused, without touching
        the frame, if the font does not have it or if it does not fit. */
    method PrintCharacterOnFrame(frame: array<bv8>, character: char, PBMXPos: nat, PBMYPos: nat)
      returns (r: Print, XPos: nat)
      requires shape.Valid() && frame.Length == DEFAULT_PBM_DATA_IN_BYTES
      modifies this, frame
      ensures r == if character !in shape.chars then Refused(UnknownCharacter)
                   else if !Fits(shape, PBMXPos, PBMYPos) then Refused(DoesNotFit)
                   else Printed
      ensures r.Refused? ==> XPos == PBMXPos && frame[..] == old(frame[..])
      ensures r.Printed? ==> XPos == PBMXPos + Advance(shape, character)
      ensures r.Printed? ==> CharShown(shape, character, PBMXPos, PBMYPos, old(frame[..]), frame[..])
    {
      hide *;
      CharFacts(shape, character, PBMXPos, PBMYPos);
      XPos := PBMXPos;
      if character !in shape.chars {
        return Refused(UnknownCharacter), XPos;
      }
      charX, charY := shape.chars[character].0, shape.chars[character].1;
      if PBMXPos >= LCD_SCREEN_WIDTH - shape.charWidth {
        return Refused(DoesNotFit), XPos;
      }
      if PBMYPos >= LCD_SCREEN_HEIGHT - shape.charHeight {
        return Refused(DoesNotFit), XPos;
      }
      AdvanceIs(shape, character, PBMXPos);
      DrawCharacter(frame, PBMXPos, PBMYPos);
      CharDrawn(shape, character, PBMXPos, PBMYPos, old(frame[..]), frame[..]);
      XPos := U16(XPos + (shape.charWidth - shape.leftShift));
      if shape.extraShift > 0 {
        if character !in HACKSTRING {
          XPos := U16(XPos - shape.extraShift);
        }
      }
      r := Printed;
    }

    /** The loops over the lines of the character and the bytes of a line. */
    method DrawCharacter(frame: array<bv8>, PBMXPos: nat, PBMYPos: nat)
      requires shape.Valid() && frame.Length == DEFAULT_PBM_DATA_IN_BYTES
      requires shape.HasCell(charX, charY) && Fits(shape, PBMXPos, PBMYPos)
      modifies frame
      ensures Drawn(shape, charX, charY, PBMXPos, PBMYPos, shape.charHeight, 0, old(frame[..]), frame[..])
    {
      hide Drawn, Blit, GetCharacterLine;
      DrawnStart(shape, charX, charY, PBMXPos, PBMYPos, frame[..]);
      BytesMakeWidth(shape);
      var i := 0;
      while i < shape.charHeight
        invariant 0 <= i <= shape.charHeight
        invariant Drawn(shape, charX, charY, PBMXPos, PBMYPos, i, 0, old(frame[..]), frame[..])
      {
        var j := 0;
        while j < shape.CharBytes()
          invariant 0 <= j <= shape.CharBytes() && shape.ShiftBase() * j <= shape.charWidth
          invariant Drawn(shape, charX, charY, PBMXPos, PBMYPos, i, shape.ShiftBase() * j,
                          old(frame[..]), frame[..])
        {
          ghost var before := frame[..];
          var c := GetCharacterLine(shape, charX, charY, i, j);
          DrawByte(shape, charX, charY, PBMXPos, PBMYPos, i, j, old(frame[..]), before);
          BlitOnFrame(frame, c, PBMXPos, PBMYPos + i, j);
          j := j + 1;
        }
        DrawnLine(shape, charX, charY, PBMXPos, PBMYPos, i, old(frame[..]), frame[..]);
        i := i + 1;
      }
    }

    /** One byte of a line, over one or two bytes of the frame. */
    method BlitOnFrame(frame: array<bv8>, c: bv8, PBMXPos: nat, y: nat, j: nat)
      requires shape.Valid() && frame.Length == DEFAULT_PBM_DATA_IN_BYTES
      requires PBMXPos + shape.charWidth <= DEFAULT_PBM_WIDTH && y < DEFAULT_PBM_HEIGHT && j < shape.CharBytes()
      modifies frame
      ensures shape.ShiftBase() * (j + 1) <= shape.charWidth
      ensures frame[..] == Blit(old(frame[..]), c, shape.ShiftBase(), PBMXPos + shape.ShiftBase() * j, y)
    {
      hide *;
      ByteBlitted(shape, frame[..], c, PBMXPos, y, j);
      var xByte := PBMXPos / 8;
      var xModulo := PBMXPos % 8;
      var xModuloComp8 := 8 - xModulo;
      var rightShift := shape.ShiftBase() - xModuloComp8;
      var index := DEFAULT_PBM_WIDTH_IN_BYTES * y + xByte + j;
      BlitBytes(frame, c, index, xModuloComp8, rightShift);
    }

    /** The two bytes of it, the glyph shifted by `rightShift` pixels. */
    static method BlitBytes(frame: array<bv8>, c: bv8, index: nat, xModuloComp8: nat, rightShift: int)
      requires index < frame.Length && rightShift <= 8 && (rightShift > 0 ==> index + 1 < frame.Length)
      modifies frame
      ensures frame[..] == Blitted(old(frame[..]), c, index, xModuloComp8, rightShift)
    {
      hide *;
      BlittedIs(frame[..], c, index, xModuloComp8, rightShift);
      ghost var was := frame[..];
      frame[index] := Mask(frame[index], xModuloComp8);
      assert frame[..] == was[index := Mask(was[index], xModuloComp8)];
      if rightShift > 0 {
        frame[index + 1] := Shl(c, 8 - rightShift);
        frame[index] := Merge(frame[index], Shr(c, rightShift));
        assert frame[..] == was[index := frame[index]][index + 1 := Shl(c, 8 - rightShift)];
      } else {
        frame[index] := Merge(frame[index], Shl(c, -rightShift));
        assert frame[..] == was[index := frame[index]];
      }
    }

    /** Half of the width the string leaves free. */
    method GetCenteredXPos(s: string) returns (r: nat)
      requires shape.Valid()
      ensures r == CenteredX(shape, s)
    {
      hide *;
      CenterFacts(shape, s);
      var XPos := LCD_SCREEN_WIDTH;
      var i := 0;
      while i < |s|
        invariant 0 <= i <= |s|
        invariant XPos == FreeWidth(shape, s[..i])
      {
        CenterStep(shape, s, i);
        XPos := U16(XPos - (shape.charWidth - shape.leftShift));
        if shape.extraShift > 0 {
          if s[i] !in HACKSTRING {
            XPos := U16(XPos + shape.extraShift);
          }
        }
        i := i + 1;
      }
      assert s[..|s|] == s;
      r := XPos / 2;
    }

    method GetCenteredYPos() returns (r: nat)
      requires shape.Valid()
      ensures r == CenteredY(shape)
    {
      var YPos := LCD_SCREEN_HEIGHT;
      YPos := U16(YPos - shape.charHeight);
      r := YPos / 2;
    }

    /** Prints a string from (PBMXPos, PBMYPos), or centered where a coordinate is negative; a character
        that is refused ends the string. */
    method WriteStringOnPBMFrame(frame: array<bv8>, s: string, PBMXPos: int, PBMYPos: int)
      requires shape.Valid() && frame.Length == DEFAULT_PBM_DATA_IN_BYTES
      modifies this, frame
      ensures var X, Y := if PBMXPos < 0 then CenteredX(shape, s) else PBMXPos,
                          if PBMYPos < 0 then CenteredY(shape) else PBMYPos;
        forall x: nat, y: nat | OnFrame(x, y) ::
          PixelAt(frame[..], x, y) == StringPixel(shape, s, X, Y, x, y, PixelAt(old(frame[..]), x, y))
    {
      var XPos, YPos := PBMXPos, PBMYPos;
      if PBMXPos < 0 {
        XPos := GetCenteredXPos(s);
      }
      if PBMYPos < 0 {
        YPos := GetCenteredYPos();
      }
      ghost var X, was := XPos, frame[..];
      hide Shape.Valid, SameString, CharShown, StringPixel, PixelAt, Advance, CenteredX, CenteredY;
      NoneWritten(shape, s, X, YPos, was);
      var i := 0;
      while i < |s|
        invariant 0 <= i <= |s| && 0 <= XPos
        invariant SameString(shape, s, X, s[i..], XPos, YPos, was, frame[..])
      {
        var r;
        ghost var at, before := XPos, frame[..];
        AdvanceRange(shape, s[i]);
        r, XPos := PrintCharacterOnFrame(frame, s[i], XPos, YPos);
        if r.Refused? {
          StringEnded(shape, s, X, i, at, YPos, was, frame[..]);
          return;
        }
        OneWritten(shape, s, X, i, at, YPos, was, before, frame[..]);
        i := i + 1;
      }
      StringEnded(shape, s, X, i, XPos, YPos, was, frame[..]);
    }
  }

  /** The width a string leaves free, in 16 bits. */
  function FreeWidth(f: Shape, s: string): nat {
    U16(LCD_SCREEN_WIDTH - TotalAdvance(f, s))
  }

  function CenteredX(f: Shape, s: string): nat {
    FreeWidth(f, s) / 2
  }

  function CenteredY(f: Shape): nat
    requires f.Valid()
  {
    (LCD_SCREEN_HEIGHT - f.charHeight) / 2
  }

  lemma NoAdvance(f: Shape)
    ensures TotalAdvance(f, []) == 0
  {
  }

  lemma CenterFacts(f: Shape, s: string)
    requires f.Valid()
    ensures f.leftShift <= f.charWidth
    ensures FreeWidth(f, s[..0]) == LCD_SCREEN_WIDTH && CenteredX(f, s) == FreeWidth(f, s) / 2
  {
    assert s[..0] == [];
    NoAdvance(f);
  }

  /** One more character, in one or two steps. */
  lemma CenterStep(f: Shape, s: string, i: nat)
    requires i < |s|
    ensures var moved := U16(FreeWidth(f, s[..i]) - (f.charWidth - f.leftShift));
      FreeWidth(f, s[..i + 1]) ==
      if f.extraShift > 0 && s[i] !in HACKSTRING then U16(moved + f.extraShift) else moved
  {
    hide U16, TotalAdvance;
    TotalAdvanceLast(f, s, i);
    WrappedSteps(TotalAdvance(f, s[..i]), f.charWidth - f.leftShift, f.extraShift);
  }

  lemma WrappedSteps(t: int, step: int, extra: int)
    ensures U16(U16(LCD_SCREEN_WIDTH - t) - step) == U16(LCD_SCREEN_WIDTH - (t + step))
    ensures U16(U16(LCD_SCREEN_WIDTH - (t + step)) + extra) == U16(LCD_SCREEN_WIDTH - (t + step - extra))
  {
  }

  lemma {:induction false} TotalAdvanceLast(f: Shape, s: string, i: nat)
    requires i < |s|
    ensures TotalAdvance(f, s[..i + 1]) == TotalAdvance(f, s[..i]) + Advance(f, s[i])
  {
    if i == 0 {
      assert s[..1][1..] == [] && s[..0] == [];
    } else {
      assert s[..i + 1][1..] == s[1..][..i] && s[..i][1..] == s[1..][..i - 1];
      TotalAdvanceLast(f, s[1..], i - 1);
    }
  }
}
