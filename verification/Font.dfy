/** Fonts and the frames they print on: PBMFont.cpp, and the printing loop of LCDPlugin.cpp. */
module Font {
  import opened Bits

  const LCD_SCREEN_HEIGHT: nat := 43
  const LCD_SCREEN_WIDTH: nat := 160
  const DEFAULT_PBM_HEIGHT: nat := 48
  const DEFAULT_PBM_WIDTH: nat := 160
  const DEFAULT_PBM_WIDTH_IN_BYTES: nat := 20
  const DEFAULT_PBM_DATA_IN_BYTES: nat := 960

  /** Stored in an unsigned 16-bit variable. */
  function U16(x: int): nat {
    x % 0x1_0000
  }

  // ----- pixels -----

  predicate IsFrame(f: seq<bv8>) {
    |f| == DEFAULT_PBM_DATA_IN_BYTES
  }

  predicate OnFrame(x: int, y: int) {
    0 <= x < DEFAULT_PBM_WIDTH && 0 <= y < DEFAULT_PBM_HEIGHT
  }

  predicate PixelAt(f: seq<bv8>, x: nat, y: nat)
    requires IsFrame(f) && OnFrame(x, y)
  {
    Bit(f[DEFAULT_PBM_WIDTH_IN_BYTES * y + x / 8], x % 8)
  }

  function RoundUp8(x: nat): nat {
    (x + 7) / 8 * 8
  }

  // ----- fonts -----

  /** What a font is built from; the characters are given by column and row on its bitmap. */
  datatype Shape = Shape(
    data: seq<bv8>,
    width: nat,
    height: nat,
    charWidth: nat,
    charHeight: nat,
    leftShift: nat,
    extraShift: nat,
    chars: map<char, (nat, nat)>)
  {
    /** Bytes a line of one character takes, and pixels it has in each of them. */
    function CharBytes(): nat {
      if charWidth / 8 == 0 then 1 else charWidth / 8
    }

    function ShiftBase(): nat {
      if charWidth % 8 == 0 then 8 else charWidth
    }

    /** The bitmap has its announced size, the character widths are those the extraction handles, and
        the cell of the character in column `cx` and row `cy` is on the bitmap. */
    predicate Valid() {
      && width % 8 == 0 && |data| == width / 8 * height && |data| <= 0x1_0000
      && (charWidth == 5 || charWidth == 6 || (charWidth > 0 && charWidth % 8 == 0))
      && charWidth < LCD_SCREEN_WIDTH && 0 < charHeight < LCD_SCREEN_HEIGHT
      && leftShift + extraShift <= charWidth
      && forall c | c in chars :: HasCell(chars[c].0, chars[c].1)
    }

    predicate HasCell(cx: nat, cy: nat) {
      (cx + 1) * charWidth <= width && (cy + 1) * charHeight <= height
    }

    predicate Pixel(x: nat, y: nat)
      requires width % 8 == 0 && |data| == width / 8 * height
      requires x < width && y < height
    {
      ByteOnRow(x, y);
      Bit(data[y * (width / 8) + x / 8], x % 8)
    }

    lemma ByteOnRow(x: nat, y: nat)
      requires width % 8 == 0 && |data| == width / 8 * height
      requires x < width && y < height
      ensures y * (width / 8) + x / 8 < |data|
    {
      assert x / 8 < width / 8;
      assert (y + 1) * (width / 8) <= height * (width / 8);
    }

    /** Pixel (`col`, `line`) of the character in column `cx` and row `cy`. */
    predicate Glyph(cx: nat, cy: nat, col: nat, line: nat)
      requires Valid() && HasCell(cx, cy) && col < charWidth && line < charHeight
    {
      InCell(cx, cy, col, line);
      hide Valid, HasCell;
      Pixel(cx * charWidth + col, cy * charHeight + line)
    }

    lemma InCell(cx: nat, cy: nat, col: nat, line: nat)
      requires Valid() && HasCell(cx, cy) && col < charWidth && line < charHeight
      ensures width % 8 == 0 && |data| == width / 8 * height
      ensures cx * charWidth + col < width && cy * charHeight + line < height
    {
    }
  }

  /** The six and five pixels wide glyphs, cut out of one or two bytes according to the column. */
  function Packed(charWidth: nat, charX: nat, b0: bv8, b1: bv8): bv8
    requires charWidth == 5 || charWidth == 6
  {
    if charWidth == 6 then
      var r := charX % 4;
      if r == 0 then b0 >> 2
      else if r == 1 then (b1 >> 4) | ((b0 & 0x03) << 4)
      else if r == 2 then (b1 >> 6) | ((b0 & 0x0F) << 2)
      else b0 & 0x3F
    else
      var r := charX % 8;
      if r == 0 then b0 >> 3
      else if r == 1 then (b1 >> 6) | ((b0 & 0x07) << 2)
      else if r == 2 then (b0 & 0x3E) >> 1
      else if r == 3 then (b1 >> 4) | ((b0 & 0x01) << 4)
      else if r == 4 then (b1 >> 7) | ((b0 & 0x0F) << 1)
      else if r == 5 then (b0 & 0x7C) >> 2
      else if r == 6 then (b1 >> 5) | ((b0 & 0x03) << 3)
      else b0 & 0x1F
  }

  /** Does the glyph continue in the next byte? */
  predicate Spans(charWidth: nat, charX: nat) {
    charX * charWidth % 8 + charWidth > 8
  }

  /** The byte of the bitmap on which a line of a character starts; kept in 16 bits. */
  function LineIndex(f: Shape, charX: nat, charY: nat, line: nat): nat {
    U16(charY * f.charHeight * (f.width / 8) + charX * f.charWidth / 8 + line * (f.width / 8))
  }

  /** One line of the character in column `charX` and row `charY`, right-aligned if its width is 5 or
      6; 0 if a byte is missing from the bitmap. */
  function GetCharacterLine(f: Shape, charX: nat, charY: nat, line: nat, charByte: nat): bv8 {
    var i := LineIndex(f, charX, charY, line);
    if f.charWidth == 5 || f.charWidth == 6 then
      if Spans(f.charWidth, charX) then
        if i + 1 < |f.data| then Packed(f.charWidth, charX, f.data[i], f.data[i + 1]) else 0
      else
        if i < |f.data| then Packed(f.charWidth, charX, f.data[i], 0) else 0
    else if f.charWidth % 8 == 0 then
      if i + charByte < |f.data| then f.data[i + charByte] else 0
    else 0
  }

  /** Pixel `k` of a line of `s` pixels, right-aligned, that starts at pixel `off` of two bytes. */
  predicate CutPixel(s: nat, off: nat, b0: bv8, b1: bv8, k: nat)
    requires s <= 8 && off < 8 && k < 8
  {
    k >= 8 - s && if off + k - (8 - s) < 8 then Bit(b0, off + k - (8 - s)) else Bit(b1, off + k - (16 - s))
  }

  lemma Packed6At0(b0: bv8, b1: bv8, k: nat)
    requires k < 8
    ensures Bit(Packed(6, 0, b0, b1), k) == CutPixel(6, 0, b0, b1, k)
  {
  }

  lemma Packed6At1(b0: bv8, b1: bv8, k: nat)
    requires k < 8
    ensures Bit(Packed(6, 1, b0, b1), k) == CutPixel(6, 6, b0, b1, k)
  {
  }

  lemma Packed6At2(b0: bv8, b1: bv8, k: nat)
    requires k < 8
    ensures Bit(Packed(6, 2, b0, b1), k) == CutPixel(6, 4, b0, b1, k)
  {
  }

  lemma Packed6At3(b0: bv8, b1: bv8, k: nat)
    requires k < 8
    ensures Bit(Packed(6, 3, b0, b1), k) == CutPixel(6, 2, b0, b1, k)
  {
  }

  lemma Packed5At0(b0: bv8, b1: bv8, k: nat)
    requires k < 8
    ensures Bit(Packed(5, 0, b0, b1), k) == CutPixel(5, 0, b0, b1, k)
  {
  }

  lemma Packed5At1(b0: bv8, b1: bv8, k: nat)
    requires k < 8
    ensures Bit(Packed(5, 1, b0, b1), k) == CutPixel(5, 5, b0, b1, k)
  {
  }

  lemma Packed5At2(b0: bv8, b1: bv8, k: nat)
    requires k < 8
    ensures Bit(Packed(5, 2, b0, b1), k) == CutPixel(5, 2, b0, b1, k)
  {
  }

  lemma Packed5At3(b0: bv8, b1: bv8, k: nat)
    requires k < 8
    ensures Bit(Packed(5, 3, b0, b1), k) == CutPixel(5, 7, b0, b1, k)
  {
  }

  lemma Packed5At4(b0: bv8, b1: bv8, k: nat)
    requires k < 8
    ensures Bit(Packed(5, 4, b0, b1), k) == CutPixel(5, 4, b0, b1, k)
  {
  }

  lemma Packed5At5(b0: bv8, b1: bv8, k: nat)
    requires k < 8
    ensures Bit(Packed(5, 5, b0, b1), k) == CutPixel(5, 1, b0, b1, k)
  {
  }

  lemma Packed5At6(b0: bv8, b1: bv8, k: nat)
    requires k < 8
    ensures Bit(Packed(5, 6, b0, b1), k) == CutPixel(5, 6, b0, b1, k)
  {
  }

  lemma Packed5At7(b0: bv8, b1: bv8, k: nat)
    requires k < 8
    ensures Bit(Packed(5, 7, b0, b1), k) == CutPixel(5, 3, b0, b1, k)
  {
  }

  lemma PackedBits6(r: nat, b0: bv8, b1: bv8, k: nat)
    requires r < 4 && k < 8
    ensures Bit(Packed(6, r, b0, b1), k) == CutPixel(6, 6 * r % 8, b0, b1, k)
  {
    hide *;
    if r == 0 {
      Packed6At0(b0, b1, k);
    } else if r == 1 {
      Packed6At1(b0, b1, k);
    } else if r == 2 {
      Packed6At2(b0, b1, k);
    } else {
      Packed6At3(b0, b1, k);
    }
  }

  lemma PackedBits5(r: nat, b0: bv8, b1: bv8, k: nat)
    requires r < 8 && k < 8
    ensures Bit(Packed(5, r, b0, b1), k) == CutPixel(5, 5 * r % 8, b0, b1, k)
  {
    hide *;
    if r == 0 {
      Packed5At0(b0, b1, k);
    } else if r == 1 {
      Packed5At1(b0, b1, k);
    } else if r == 2 {
      Packed5At2(b0, b1, k);
    } else if r == 3 {
      Packed5At3(b0, b1, k);
    } else if r == 4 {
      Packed5At4(b0, b1, k);
    } else if r == 5 {
      Packed5At5(b0, b1, k);
    } else if r == 6 {
      Packed5At6(b0, b1, k);
    } else {
      Packed5At7(b0, b1, k);
    }
  }

  lemma Modulo8(x: nat, a: nat, b: nat)
    requires x == 8 * a + b
    ensures x % 8 == b % 8
  {
  }

  lemma Columns6(charX: nat)
    ensures charX * 6 % 8 == 6 * (charX % 4) % 8
  {
    hide *;
    Modulo8(charX * 6, 3 * (charX / 4), 6 * (charX % 4));
  }

  lemma Columns5(charX: nat)
    ensures charX * 5 % 8 == 5 * (charX % 8) % 8
  {
    hide *;
    Modulo8(charX * 5, 5 * (charX / 8), 5 * (charX % 8));
  }

  lemma PackedColumn6(charX: nat, b0: bv8, b1: bv8)
    ensures Packed(6, charX, b0, b1) == Packed(6, charX % 4, b0, b1)
  {
  }

  lemma PackedColumn5(charX: nat, b0: bv8, b1: bv8)
    ensures Packed(5, charX, b0, b1) == Packed(5, charX % 8, b0, b1)
  {
  }

  /** Both packed widths at once: where the pixels of the glyph come from. */
  lemma PackedBits(charWidth: nat, charX: nat, b0: bv8, b1: bv8, k: nat)
    requires (charWidth == 5 || charWidth == 6) && k < 8
    ensures Bit(Packed(charWidth, charX, b0, b1), k) == CutPixel(charWidth, charX * charWidth % 8, b0, b1, k)
  {
    hide Bit, Packed, CutPixel;
    if charWidth == 6 {
      Columns6(charX);
      PackedColumn6(charX, b0, b1);
      PackedBits6(charX % 4, b0, b1, k);
    } else {
      Columns5(charX);
      PackedColumn5(charX, b0, b1);
      PackedBits5(charX % 8, b0, b1, k);
    }
  }

  lemma InRows(y: nat, rows: nat, stride: nat)
    requires y < rows
    ensures y * stride + stride <= rows * stride
  {
    assert (y + 1) * stride <= rows * stride;
  }

  lemma LineIndexIs(f: Shape, cx: nat, cy: nat, line: nat)
    requires f.Valid() && f.HasCell(cx, cy) && line < f.charHeight
    ensures LineIndex(f, cx, cy, line) == (cy * f.charHeight + line) * (f.width / 8) + cx * f.charWidth / 8
    ensures cx * f.charWidth + f.charWidth <= f.width
    ensures (cy * f.charHeight + line) * (f.width / 8) + f.width / 8 <= |f.data|
  {
    hide *;
    ColumnOnRow(f, cx, cy);
    RowOnBitmap(f, cx, cy, line);
    IndexInRow(f, cx, cy, line);
  }

  lemma ColumnOnRow(f: Shape, cx: nat, cy: nat)
    requires f.Valid() && f.HasCell(cx, cy)
    ensures cx * f.charWidth + f.charWidth <= f.width
    ensures cx * f.charWidth / 8 < f.width / 8
    ensures |f.data| <= 0x1_0000
  {
    assert (cx + 1) * f.charWidth <= f.width && f.charWidth > 0 && f.width % 8 == 0;
    hide *;
    Cell(cx, f.charWidth, f.charWidth - 1, f.width);
    LessColumns(cx * f.charWidth, f.width);
  }

  lemma RowOnBitmap(f: Shape, cx: nat, cy: nat, line: nat)
    requires f.Valid() && f.HasCell(cx, cy) && line < f.charHeight
    ensures (cy * f.charHeight + line) * (f.width / 8) + f.width / 8 <= |f.data|
  {
    assert (cy + 1) * f.charHeight <= f.height && |f.data| == f.height * (f.width / 8);
    hide *;
    Cell(cy, f.charHeight, line, f.height);
    InRows(cy * f.charHeight + line, f.height, f.width / 8);
  }

  /** No index wraps around. */
  lemma IndexInRow(f: Shape, cx: nat, cy: nat, line: nat)
    requires cx * f.charWidth / 8 < f.width / 8
    requires (cy * f.charHeight + line) * (f.width / 8) + f.width / 8 <= |f.data| <= 0x1_0000
    ensures LineIndex(f, cx, cy, line) == (cy * f.charHeight + line) * (f.width / 8) + cx * f.charWidth / 8
  {
    hide U16;
    Unwrapped(cy * f.charHeight, line, f.width / 8, cx * f.charWidth / 8, |f.data|);
  }

  /** Place `i` of cell `c` is before the end of the cell. */
  lemma Cell(c: nat, size: nat, i: nat, limit: nat)
    requires i < size && (c + 1) * size <= limit
    ensures c * size + i < c * size + size <= limit
  {
  }

  lemma LessColumns(x: nat, width: nat)
    requires x < width && width % 8 == 0
    ensures x / 8 < width / 8
  {
  }

  lemma Unwrapped(y0: nat, line: nat, stride: nat, x: nat, size: nat)
    requires x < stride && (y0 + line) * stride + stride <= size <= 0x1_0000
    ensures U16(y0 * stride + x + line * stride) == (y0 + line) * stride + x
  {
    assert (y0 + line) * stride == y0 * stride + line * stride by {
      hide *;
    }
  }

  /** A glyph pixel, found from the start of its line. */
  lemma GlyphByte(f: Shape, cx: nat, cy: nat, col: nat, line: nat)
    requires f.Valid() && f.HasCell(cx, cy) && line < f.charHeight && col < f.charWidth
    ensures var i, at := LineIndex(f, cx, cy, line), cx * f.charWidth % 8 + col;
      && i + at / 8 < |f.data|
      && f.Glyph(cx, cy, col, line) == Bit(f.data[i + at / 8], at % 8)
  {
    hide Bit, LineIndex;
    LineIndexIs(f, cx, cy, line);
    var x0 := cx * f.charWidth;
    var x := x0 + col;
    OffsetInByte(x0, col);
    assert x / 8 < f.width / 8;
  }

  lemma OffsetInByte(x0: nat, col: nat)
    ensures var x, at := x0 + col, x0 % 8 + col; x / 8 == x0 / 8 + at / 8 && x % 8 == at % 8
  {
  }

  /** Pixel `k` of byte `charByte` of a line is a pixel of the glyph: the last ones for the packed
      widths, with nothing before them; all of them for multiples of 8. */
  lemma {:induction false} LineShowsGlyph(f: Shape, cx: nat, cy: nat, line: nat, charByte: nat, k: nat)
    requires f.Valid() && f.HasCell(cx, cy) && line < f.charHeight && charByte < f.CharBytes() && k < 8
    ensures var s := f.ShiftBase();
      && (k >= 8 - s ==> s * charByte + k - (8 - s) < f.charWidth)
      && Bit(GetCharacterLine(f, cx, cy, line, charByte), k) ==
         (k >= 8 - s && f.Glyph(cx, cy, s * charByte + k - (8 - s), line))
  {
    if f.charWidth == 5 || f.charWidth == 6 {
      PackedLine(f, cx, cy, line, k);
    } else {
      WholeLine(f, cx, cy, line, charByte, k);
    }
  }

  lemma PackedByte(f: Shape, cx: nat, cy: nat, line: nat)
    requires f.charWidth == 5 || f.charWidth == 6
    requires var i := LineIndex(f, cx, cy, line); i < |f.data| && (Spans(f.charWidth, cx) ==> i + 1 < |f.data|)
    ensures var i := LineIndex(f, cx, cy, line);
      GetCharacterLine(f, cx, cy, line, 0) ==
      Packed(f.charWidth, cx, f.data[i], if Spans(f.charWidth, cx) then f.data[i + 1] else 0)
  {
    hide Packed, LineIndex, Spans;
  }

  lemma PackedLine(f: Shape, cx: nat, cy: nat, line: nat, k: nat)
    requires f.Valid() && f.HasCell(cx, cy) && line < f.charHeight && k < 8
    requires f.charWidth == 5 || f.charWidth == 6
    ensures Bit(GetCharacterLine(f, cx, cy, line, 0), k) ==
            (k >= 8 - f.charWidth && f.Glyph(cx, cy, k - (8 - f.charWidth), line))
  {
    var w := f.charWidth;
    hide Bit, Packed, LineIndex, Shape.Glyph, GetCharacterLine;
    var i := LineIndex(f, cx, cy, line);
    GlyphByte(f, cx, cy, 0, line);
    GlyphByte(f, cx, cy, w - 1, line);
    PackedByte(f, cx, cy, line);
    PackedBits(w, cx, f.data[i], if Spans(w, cx) then f.data[i + 1] else 0, k);
    if k >= 8 - w {
      GlyphByte(f, cx, cy, k - (8 - w), line);
    }
    hide Shape.Valid, Shape.HasCell;
  }

  lemma WholeLine(f: Shape, cx: nat, cy: nat, line: nat, charByte: nat, k: nat)
    requires f.Valid() && f.HasCell(cx, cy) && line < f.charHeight && charByte < f.CharBytes() && k < 8
    requires f.charWidth % 8 == 0
    ensures 8 * charByte + k < f.charWidth
    ensures Bit(GetCharacterLine(f, cx, cy, line, charByte), k) == f.Glyph(cx, cy, 8 * charByte + k, line)
  {
    hide Bit, LineIndex, Shape.Glyph;
    WholeColumns(cx, f.charWidth, charByte, k);
    GlyphByte(f, cx, cy, 8 * charByte + k, line);
    hide Shape.Valid, Shape.HasCell;
  }

  /** Whole bytes start on whole bytes. */
  lemma WholeColumns(cx: nat, width: nat, charByte: nat, k: nat)
    requires width % 8 == 0 && charByte < width / 8 && k < 8
    ensures 8 * charByte + k < width && cx * width % 8 == 0
    ensures (8 * charByte + k) / 8 == charByte && (8 * charByte + k) % 8 == k
  {
    assert cx * width == 8 * (cx * (width / 8)) by {
      hide *;
    }
  }
}
