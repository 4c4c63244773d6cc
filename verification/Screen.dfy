/** From the frame to the bytes the keyboard wants: dumpPBMDataIntoLCDBuffer and its caller. */
module Screen {
  import opened Bits
  import opened Font
  import opened Printing

  const LCD_DATA_HEADER_OFFSET: nat := 32
  const DEFAULT_PBM_HEIGHT_IN_BYTES: nat := 6
  const LCD_BUFFER_SIZE: nat := 992

  predicate IsBuffer(l: seq<bv8>) {
    |l| == LCD_BUFFER_SIZE
  }

  /** The pixel the LCD shows at (x, y): bit y % 8, counted from the least significant one, of the byte
      for column x in its band of eight rows. */
  predicate LCDPixelAt(l: seq<bv8>, x: nat, y: nat)
    requires IsBuffer(l) && OnFrame(x, y)
  {
    Bit(l[LCD_DATA_HEADER_OFFSET + DEFAULT_PBM_WIDTH * (y / 8) + x], 7 - y % 8)
  }

  /** 1 or 0: the pixel `bit` of a byte, counted from the least significant one. */
  function OneBit(b: bv8, bit: nat): bv8
    requires bit < 8
  {
    Shr(b, bit) & 1
  }

  /** Eight bits, the first one least significant. */
  function Stack8(b0: bv8, b1: bv8, b2: bv8, b3: bv8, b4: bv8, b5: bv8, b6: bv8, b7: bv8): bv8 {
    b0 | (b1 << 1) | (b2 << 2) | (b3 << 3) | (b4 << 4) | (b5 << 5) | (b6 << 6) | (b7 << 7)
  }

  lemma OneBitIs(b: bv8, bit: nat)
    requires bit < 8
    ensures OneBit(b, bit) == if Bit(b, 7 - bit) then 1 else 0
  {
    ShiftRight(b, bit, 7);
    LastBit(Shr(b, bit));
  }

  lemma LastBit(b: bv8)
    ensures b & 1 == if Bit(b, 7) then 1 else 0
  {
  }

  predicate Bool8(b: bv8) {
    b == 0 || b == 1
  }

  lemma Stack8Bits(b0: bv8, b1: bv8, b2: bv8, b3: bv8, b4: bv8, b5: bv8, b6: bv8, b7: bv8)
    requires Bool8(b0) && Bool8(b1) && Bool8(b2) && Bool8(b3) && Bool8(b4) && Bool8(b5) && Bool8(b6) && Bool8(b7)
    ensures var b := Stack8(b0, b1, b2, b3, b4, b5, b6, b7);
      && (Bit(b, 7) == (b0 == 1)) && (Bit(b, 6) == (b1 == 1)) && (Bit(b, 5) == (b2 == 1))
      && (Bit(b, 4) == (b3 == 1)) && (Bit(b, 3) == (b4 == 1)) && (Bit(b, 2) == (b5 == 1))
      && (Bit(b, 1) == (b6 == 1)) && (Bit(b, 0) == (b7 == 1))
  {
  }

  /** The byte written for pixel `bit` of the eight bytes one above the other at `at`. */
  function LCDByte(p: seq<bv8>, at: nat, bit: nat): bv8
    requires IsFrame(p) && at + 7 * DEFAULT_PBM_WIDTH_IN_BYTES < |p| && bit < 8
  {
    var w := DEFAULT_PBM_WIDTH_IN_BYTES;
    Stack8(OneBit(p[at], bit), OneBit(p[at + w], bit), OneBit(p[at + 2 * w], bit), OneBit(p[at + 3 * w], bit),
           OneBit(p[at + 4 * w], bit), OneBit(p[at + 5 * w], bit), OneBit(p[at + 6 * w], bit),
           OneBit(p[at + 7 * w], bit))
  }

  lemma OneBitBool(b: bv8, bit: nat)
    requires bit < 8
    ensures Bool8(OneBit(b, bit)) && (OneBit(b, bit) == 1) == Bit(b, 7 - bit)
  {
    hide Bit;
    OneBitIs(b, bit);
  }

  lemma LCDByteStack(p: seq<bv8>, at: nat, bit: nat)
    requires IsFrame(p) && at + 7 * DEFAULT_PBM_WIDTH_IN_BYTES < |p| && bit < 8
    ensures var w := DEFAULT_PBM_WIDTH_IN_BYTES; var b := LCDByte(p, at, bit); var k := 7 - bit;
      && Bit(b, 7) == Bit(p[at], k) && Bit(b, 6) == Bit(p[at + w], k) && Bit(b, 5) == Bit(p[at + 2 * w], k)
      && Bit(b, 4) == Bit(p[at + 3 * w], k) && Bit(b, 3) == Bit(p[at + 4 * w], k)
      && Bit(b, 2) == Bit(p[at + 5 * w], k) && Bit(b, 1) == Bit(p[at + 6 * w], k)
      && Bit(b, 0) == Bit(p[at + 7 * w], k)
  {
    var w := DEFAULT_PBM_WIDTH_IN_BYTES;
    hide Bit, OneBit, Stack8, Bool8;
    OneBitBool(p[at], bit);
    OneBitBool(p[at + w], bit);
    OneBitBool(p[at + 2 * w], bit);
    OneBitBool(p[at + 3 * w], bit);
    OneBitBool(p[at + 4 * w], bit);
    OneBitBool(p[at + 5 * w], bit);
    OneBitBool(p[at + 6 * w], bit);
    OneBitBool(p[at + 7 * w], bit);
    Stack8Bits(OneBit(p[at], bit), OneBit(p[at + w], bit), OneBit(p[at + 2 * w], bit),
               OneBit(p[at + 3 * w], bit), OneBit(p[at + 4 * w], bit), OneBit(p[at + 5 * w], bit),
               OneBit(p[at + 6 * w], bit), OneBit(p[at + 7 * w], bit));
  }

  lemma LCDByteBits(p: seq<bv8>, at: nat, bit: nat, k: nat)
    requires IsFrame(p) && at + 7 * DEFAULT_PBM_WIDTH_IN_BYTES < |p| && bit < 8 && k < 8
    ensures Bit(LCDByte(p, at, bit), 7 - k) == Bit(p[at + DEFAULT_PBM_WIDTH_IN_BYTES * k], 7 - bit)
  {
    hide Bit, LCDByte;
    LCDByteStack(p, at, bit);
    if k < 4 {
      if k == 0 {
      } else if k == 1 {
      } else if k == 2 {
      }
    } else if k == 4 {
    } else if k == 5 {
    } else if k == 6 {
    }
  }

  /** The payload holds byte `i` of the dump of `p`. */
  function DumpByte(p: seq<bv8>, i: nat): bv8
    requires IsFrame(p) && i < DEFAULT_PBM_DATA_IN_BYTES
  {
    var row, col := i / DEFAULT_PBM_WIDTH, i % DEFAULT_PBM_WIDTH;
    LCDByte(p, col / 8 + DEFAULT_PBM_WIDTH * row, 7 - col % 8)
  }

  /** The dump shows on the LCD, pixel for pixel, what is on the frame. */
  lemma DumpShowsFrame(p: seq<bv8>, l: seq<bv8>, x: nat, y: nat)
    requires IsFrame(p) && IsBuffer(l) && OnFrame(x, y)
    requires forall i: nat | i < DEFAULT_PBM_DATA_IN_BYTES :: l[LCD_DATA_HEADER_OFFSET + i] == DumpByte(p, i)
    ensures LCDPixelAt(l, x, y) == PixelAt(p, x, y)
  {
    hide Bit, LCDByte, DumpByte;
    DumpPlace(x, y);
    DumpByteIs(p, DEFAULT_PBM_WIDTH * (y / 8) + x, x, y / 8);
    LCDByteBits(p, x / 8 + DEFAULT_PBM_WIDTH * (y / 8), 7 - x % 8, y % 8);
  }

  /** Where the byte of a column in its band of eight rows comes from. */
  lemma DumpPlace(x: nat, y: nat)
    requires OnFrame(x, y)
    ensures DEFAULT_PBM_WIDTH * (y / 8) + x < DEFAULT_PBM_DATA_IN_BYTES
    ensures var at := x / 8 + DEFAULT_PBM_WIDTH * (y / 8);
      && at + 7 * DEFAULT_PBM_WIDTH_IN_BYTES < DEFAULT_PBM_DATA_IN_BYTES
      && at + DEFAULT_PBM_WIDTH_IN_BYTES * (y % 8) == DEFAULT_PBM_WIDTH_IN_BYTES * y + x / 8
  {
  }

  lemma DumpByteIs(p: seq<bv8>, i: nat, col: nat, row: nat)
    requires IsFrame(p) && col < DEFAULT_PBM_WIDTH && row < DEFAULT_PBM_HEIGHT_IN_BYTES
    requires i == DEFAULT_PBM_WIDTH * row + col
    ensures DumpByte(p, i) == LCDByte(p, col / 8 + DEFAULT_PBM_WIDTH * row, 7 - col % 8)
  {
    hide LCDByte;
    assert i / DEFAULT_PBM_WIDTH == row && i % DEFAULT_PBM_WIDTH == col;
  }

  /** Writes the payload byte by byte, each one once and in order (`written` lists the places), and
      nothing else. */
  method DumpPBMDataIntoLCDBuffer(LCDBuffer: array<bv8>, PBMData: seq<bv8>) returns (ghost written: seq<nat>)
    requires LCDBuffer.Length == LCD_BUFFER_SIZE && IsFrame(PBMData)
    modifies LCDBuffer
    ensures LCDBuffer[..LCD_DATA_HEADER_OFFSET] == old(LCDBuffer[..LCD_DATA_HEADER_OFFSET])
    ensures forall x: nat, y: nat | OnFrame(x, y) ::
              LCDPixelAt(LCDBuffer[..], x, y) == PixelAt(PBMData, x, y)
    ensures written == seq(DEFAULT_PBM_DATA_IN_BYTES, i => LCD_DATA_HEADER_OFFSET + i)
  {
    written := [];
    hide LCDByte, DumpByte;
    var row := 0;
    while row < DEFAULT_PBM_HEIGHT_IN_BYTES
      invariant 0 <= row <= DEFAULT_PBM_HEIGHT_IN_BYTES
      invariant Dumped(old(LCDBuffer[..]), LCDBuffer[..], PBMData, DEFAULT_PBM_WIDTH * row)
      invariant written == seq(DEFAULT_PBM_WIDTH * row, i => LCD_DATA_HEADER_OFFSET + i)
    {
      var LCDCol := 0;
      var rowOffset := DEFAULT_PBM_WIDTH * row;
      var PBMByte := 0;
      while PBMByte < DEFAULT_PBM_WIDTH_IN_BYTES
        invariant 0 <= PBMByte <= DEFAULT_PBM_WIDTH_IN_BYTES && LCDCol == 8 * PBMByte
        invariant Dumped(old(LCDBuffer[..]), LCDBuffer[..], PBMData, rowOffset + LCDCol)
        invariant written == seq(rowOffset + LCDCol, i => LCD_DATA_HEADER_OFFSET + i)
      {
        var bit := 7;
        while bit > -1
          invariant -1 <= bit <= 7 && LCDCol == 8 * PBMByte + 7 - bit
          invariant Dumped(old(LCDBuffer[..]), LCDBuffer[..], PBMData, rowOffset + LCDCol)
          invariant written == seq(rowOffset + LCDCol, i => LCD_DATA_HEADER_OFFSET + i)
        {
          DumpByteIs(PBMData, rowOffset + LCDCol, LCDCol, row);
          LCDBuffer[LCD_DATA_HEADER_OFFSET + LCDCol + rowOffset] := LCDByte(PBMData, PBMByte + rowOffset, bit);
          written := written + [LCD_DATA_HEADER_OFFSET + LCDCol + rowOffset];
          LCDCol := LCDCol + 1;
          bit := bit - 1;
        }
        PBMByte := PBMByte + 1;
      }
      row := row + 1;
    }
    forall x: nat, y: nat | OnFrame(x, y)
      ensures LCDPixelAt(LCDBuffer[..], x, y) == PixelAt(PBMData, x, y)
    {
      DumpShowsFrame(PBMData, LCDBuffer[..], x, y);
    }
  }

  /** The first `n` payload bytes are written; everything else is as before. */
  ghost predicate Dumped(was: seq<bv8>, now: seq<bv8>, p: seq<bv8>, n: nat)
    requires IsFrame(p) && n <= DEFAULT_PBM_DATA_IN_BYTES
  {
    && IsBuffer(was) && IsBuffer(now)
    && now[..LCD_DATA_HEADER_OFFSET] == was[..LCD_DATA_HEADER_OFFSET]
    && forall i: nat | i < n :: now[LCD_DATA_HEADER_OFFSET + i] == DumpByte(p, i)
  }

  /** The end of getNextLCDScreenBuffer: the dump of the frame, or a blank screen if there is none, then
      an empty header with the magic byte. */
  method FillLCDBuffer(LCDBuffer: array<bv8>, frame: seq<bv8>)
    requires LCDBuffer.Length == LCD_BUFFER_SIZE && (frame == [] || IsFrame(frame))
    modifies LCDBuffer
    ensures LCDBuffer[0] == 0x03
    ensures forall i | 1 <= i < LCD_DATA_HEADER_OFFSET :: LCDBuffer[i] == 0
    ensures forall x: nat, y: nat | OnFrame(x, y) ::
              LCDPixelAt(LCDBuffer[..], x, y) == (frame != [] && PixelAt(frame, x, y))
  {
    if frame != [] {
      ghost var written := DumpPBMDataIntoLCDBuffer(LCDBuffer, frame);
    } else {
      forall i | 0 <= i < LCDBuffer.Length {
        LCDBuffer[i] := 0;
      }
    }
    ghost var dumped := LCDBuffer[..];
    forall i | 0 <= i < LCD_DATA_HEADER_OFFSET {
      LCDBuffer[i] := 0;
    }
    LCDBuffer[0] := 0x03;
    forall x: nat, y: nat | OnFrame(x, y)
      ensures LCDPixelAt(LCDBuffer[..], x, y) == LCDPixelAt(dumped, x, y)
    {
    }
  }

  // ----- the inverse -----

  /** The byte with the given pixels. */
  function Pack(f: nat -> bool): bv8 {
    (if f(0) then 0x80 else 0) | (if f(1) then 0x40 else 0) | (if f(2) then 0x20 else 0)
    | (if f(3) then 0x10 else 0) | (if f(4) then 0x08 else 0) | (if f(5) then 0x04 else 0)
    | (if f(6) then 0x02 else 0) | (if f(7) then 0x01 else 0)
  }

  lemma PackBits(f: nat -> bool, k: nat)
    requires k < 8
    ensures Bit(Pack(f), k) == f(k)
  {
  }

  /** The frame a buffer shows. */
  function Undump(l: seq<bv8>): (p: seq<bv8>)
    requires IsBuffer(l)
    ensures IsFrame(p)
  {
    seq(DEFAULT_PBM_DATA_IN_BYTES, i requires 0 <= i < DEFAULT_PBM_DATA_IN_BYTES =>
      Pack((k: nat) => k < 8 && LCDPixelAt(l, i % DEFAULT_PBM_WIDTH_IN_BYTES * 8 + k, i / DEFAULT_PBM_WIDTH_IN_BYTES)))
  }

  lemma UndumpPixel(l: seq<bv8>, x: nat, y: nat)
    requires IsBuffer(l) && OnFrame(x, y)
    ensures PixelAt(Undump(l), x, y) == LCDPixelAt(l, x, y)
  {
    hide Bit, Pack, LCDPixelAt;
    var i := DEFAULT_PBM_WIDTH_IN_BYTES * y + x / 8;
    assert i % DEFAULT_PBM_WIDTH_IN_BYTES == x / 8 && i / DEFAULT_PBM_WIDTH_IN_BYTES == y;
    PackBits((k: nat) => k < 8 && LCDPixelAt(l, i % DEFAULT_PBM_WIDTH_IN_BYTES * 8 + k, i / DEFAULT_PBM_WIDTH_IN_BYTES),
             x % 8);
    assert i % DEFAULT_PBM_WIDTH_IN_BYTES * 8 + x % 8 == x;
  }

  /** Two frames with the same pixels are the same bytes. */
  lemma SamePixels(p: seq<bv8>, q: seq<bv8>)
    requires IsFrame(p) && IsFrame(q)
    requires forall x: nat, y: nat | OnFrame(x, y) :: PixelAt(p, x, y) == PixelAt(q, x, y)
    ensures p == q
  {
    forall i | 0 <= i < DEFAULT_PBM_DATA_IN_BYTES
      ensures p[i] == q[i]
    {
      var x0, y := i % DEFAULT_PBM_WIDTH_IN_BYTES * 8, i / DEFAULT_PBM_WIDTH_IN_BYTES;
      forall k: nat | k < 8
        ensures Bit(p[i], k) == Bit(q[i], k)
      {
        assert (x0 + k) / 8 == i % DEFAULT_PBM_WIDTH_IN_BYTES && (x0 + k) % 8 == k;
        assert PixelAt(p, x0 + k, y) == PixelAt(q, x0 + k, y);
      }
      SameBits(p[i], q[i]);
    }
  }

  /** Dumping loses nothing, and every payload is the dump of exactly one frame. */
  lemma {:induction false} DumpInverse(p: seq<bv8>, l: seq<bv8>)
    requires IsFrame(p) && IsBuffer(l)
    ensures (forall x: nat, y: nat | OnFrame(x, y) :: LCDPixelAt(l, x, y) == PixelAt(p, x, y)) <==> Undump(l) == p
  {
    hide PixelAt, LCDPixelAt, Undump;
    forall x: nat, y: nat | OnFrame(x, y)
      ensures PixelAt(Undump(l), x, y) == LCDPixelAt(l, x, y)
    {
      UndumpPixel(l, x, y);
    }
    if forall x: nat, y: nat | OnFrame(x, y) :: LCDPixelAt(l, x, y) == PixelAt(p, x, y) {
      SamePixels(Undump(l), p);
    }
  }

  /** A string written on a frame and dumped: each pixel of the LCD is the one the string leaves. */
  method ShowString(font: PBMFont, frame: array<bv8>, LCDBuffer: array<bv8>, s: string, X: nat, Y: nat)
    requires font.shape.Valid() && frame.Length == DEFAULT_PBM_DATA_IN_BYTES
    requires LCDBuffer.Length == LCD_BUFFER_SIZE && frame != LCDBuffer
    modifies font, frame, LCDBuffer
    ensures forall x: nat, y: nat | OnFrame(x, y) ::
              LCDPixelAt(LCDBuffer[..], x, y) ==
              StringPixel(font.shape, s, X, Y, x, y, PixelAt(old(frame[..]), x, y))
  {
    font.WriteStringOnPBMFrame(frame, s, X, Y);
    hide PixelAt, LCDPixelAt, StringPixel;
    FillLCDBuffer(LCDBuffer, frame[..]);
  }
}
