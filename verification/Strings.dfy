/** What a printed string looks like: column by column, and how it is centered. */
module Strings {
  import opened Font
  import opened Printing

  /** Every character is known and fits where it comes. */
  predicate Printable(f: Shape, s: string, X: nat, Y: nat)
    requires f.Valid()
    decreases s
  {
    s == [] || (
      && s[0] in f.chars && Fits(f, X, Y)
      && (AdvanceRange(f, s[0]); Printable(f, s[1..], X + Advance(f, s[0]), Y)))
  }

  /** The part of a string that is printed. */
  function PrintedPart(f: Shape, s: string, X: nat, Y: nat): string
    requires f.Valid()
    decreases s
  {
    if s == [] || s[0] !in f.chars || !Fits(f, X, Y) then []
    else
      AdvanceRange(f, s[0]);
      [s[0]] + PrintedPart(f, s[1..], X + Advance(f, s[0]), Y)
  }

  /** Where character `k` starts; for `k == |s|`, where the next one would. */
  function Start(f: Shape, s: string, X: nat, k: nat): nat
    requires f.Valid() && k <= |s|
    decreases k
  {
    if k == 0 then X
    else
      AdvanceRange(f, s[0]);
      Start(f, s[1..], X + Advance(f, s[0]), k - 1)
  }

  /** The first column the string leaves alone: the end of the last byte its last glyph touches. */
  function TouchedEnd(f: Shape, s: string, X: nat): nat
    requires f.Valid() && s != []
  {
    RoundUp8(Start(f, s, X, |s| - 1) + f.charWidth)
  }

  lemma {:induction false} PartIsPrinted(f: Shape, s: string, X: nat, Y: nat, x: nat, y: nat, was: bool)
    requires f.Valid()
    ensures Printable(f, PrintedPart(f, s, X, Y), X, Y)
    ensures StringPixel(f, PrintedPart(f, s, X, Y), X, Y, x, y, was) == StringPixel(f, s, X, Y, x, y, was)
    ensures PrintedPart(f, s, X, Y) <= s
    decreases s
  {
    hide Shape.Valid, CharPixel;
    if s != [] && s[0] in f.chars && Fits(f, X, Y) {
      AdvanceRange(f, s[0]);
      var part := PrintedPart(f, s[1..], X + Advance(f, s[0]), Y);
      PartIsPrinted(f, s[1..], X + Advance(f, s[0]), Y, x, y, CharPixel(f, s[0], X, Y, x, y, was));
      assert ([s[0]] + part)[1..] == part;
      assert s == [s[0]] + s[1..];
    }
  }

  /** Every prefix that is printable is part of what is printed. */
  lemma {:induction false} PartIsLongest(f: Shape, s: string, X: nat, Y: nat, k: nat)
    requires f.Valid() && k <= |s| && Printable(f, s[..k], X, Y)
    ensures k <= |PrintedPart(f, s, X, Y)|
    decreases s
  {
    hide Shape.Valid;
    if k > 0 {
      AdvanceRange(f, s[0]);
      assert s[..k][0] == s[0] && s[..k][1..] == s[1..][..k - 1];
      PartIsLongest(f, s[1..], X + Advance(f, s[0]), Y, k - 1);
    }
  }

  lemma {:induction false} StartGrows(f: Shape, s: string, X: nat, k: nat)
    requires f.Valid() && k <= |s|
    ensures X <= Start(f, s, X, k)
    decreases k
  {
    hide Shape.Valid;
    if k > 0 {
      AdvanceRange(f, s[0]);
      StartGrows(f, s[1..], X + Advance(f, s[0]), k - 1);
    }
  }

  lemma CharOutside(f: Shape, c: char, X: nat, Y: nat, x: nat, y: nat, was: bool)
    requires f.Valid() && c in f.chars
    requires !(Y <= y < Y + f.charHeight) || x < X || x >= RoundUp8(X + f.charWidth)
    ensures CharPixel(f, c, X, Y, x, y, was) == was
  {
    hide Shape.Glyph;
  }

  lemma LaterEnd(f: Shape, s: string, X: nat)
    requires f.Valid() && |s| > 1
    ensures TouchedEnd(f, s, X) == (AdvanceRange(f, s[0]); TouchedEnd(f, s[1..], X + Advance(f, s[0])))
    ensures RoundUp8(X + f.charWidth) <= TouchedEnd(f, s, X)
  {
    hide Shape.Valid;
    AdvanceRange(f, s[0]);
    StartGrows(f, s, X, |s| - 1);
  }

  /** Outside the lines of the string, left of it, and from the end of its last byte on, nothing
      changes. */
  lemma {:induction false} OutsideString(f: Shape, s: string, X: nat, Y: nat, x: nat, y: nat, was: bool)
    requires f.Valid() && Printable(f, s, X, Y)
    requires !(Y <= y < Y + f.charHeight) || x < X || (s != [] && x >= TouchedEnd(f, s, X))
    ensures StringPixel(f, s, X, Y, x, y, was) == was
    decreases s
  {
    hide *;
    if s == [] {
      NothingPrinted(f, X, Y, x, y, was);
    } else {
      FirstChar(f, s, X, Y, x, y, was);
      if |s| > 1 {
        LaterEnd(f, s, X);
        CharOutside(f, s[0], X, Y, x, y, was);
        OutsideString(f, s[1..], X + Advance(f, s[0]), Y, x, y, was);
      } else {
        CharOutside(f, s[0], X, Y, x, y, was);
      }
    }
  }

  lemma NothingPrinted(f: Shape, X: nat, Y: nat, x: nat, y: nat, was: bool)
    requires f.Valid()
    ensures StringPixel(f, [], X, Y, x, y, was) == was
  {
  }

  /** The first character of a printable string, and the others. */
  lemma FirstChar(f: Shape, s: string, X: nat, Y: nat, x: nat, y: nat, was: bool)
    requires f.Valid() && Printable(f, s, X, Y) && s != []
    ensures s[0] in f.chars && Advance(f, s[0]) >= 0
    ensures var X', was' := X + Advance(f, s[0]), CharPixel(f, s[0], X, Y, x, y, was);
      && StringPixel(f, s, X, Y, x, y, was) == StringPixel(f, s[1..], X', Y, x, y, was')
      && Printable(f, s[1..], X', Y)
      && if |s| == 1 then
        && Start(f, s, X, |s| - 1) == X && TouchedEnd(f, s, X) == RoundUp8(X + f.charWidth)
        && StringPixel(f, s, X, Y, x, y, was) == was'
      else Start(f, s, X, |s| - 1) == Start(f, s[1..], X', |s| - 2)
  {
    AdvanceRange(f, s[0]);
    hide Shape.Valid, CharPixel, Fits, Advance, RoundUp8;
  }

  /** From the start of a character to the start of the next one, its glyph shows; the glyph of the last
      character shows in full. */
  lemma {:induction false} StringShows(f: Shape, s: string, X: nat, Y: nat, k: nat, x: nat, y: nat, was: bool)
    requires f.Valid() && Printable(f, s, X, Y) && k < |s|
    requires Y <= y < Y + f.charHeight
    requires Start(f, s, X, k) <= x < if k + 1 < |s| then Start(f, s, X, k + 1)
                                      else Start(f, s, X, k) + f.charWidth
    ensures s[k] in f.chars && x - Start(f, s, X, k) < f.charWidth
    ensures StringPixel(f, s, X, Y, x, y, was) ==
            f.Glyph(f.chars[s[k]].0, f.chars[s[k]].1, x - Start(f, s, X, k), y - Y)
    decreases s
  {
    AdvanceRange(f, s[0]);
    var X' := X + Advance(f, s[0]);
    hide Shape.Glyph;
    if k == 0 {
      if |s| > 1 {
        assert Start(f, s, X, 1) == X';
        OutsideString(f, s[1..], X', Y, x, y, CharPixel(f, s[0], X, Y, x, y, was));
      }
    } else {
      StringShows(f, s[1..], X', Y, k - 1, x, y, CharPixel(f, s[0], X, Y, x, y, was));
    }
  }

  /** After the last glyph, the rest of the last byte it touches is cleared. */
  lemma {:induction false} StringTail(f: Shape, s: string, X: nat, Y: nat, x: nat, y: nat, was: bool)
    requires f.Valid() && Printable(f, s, X, Y) && s != []
    requires Y <= y < Y + f.charHeight
    requires Start(f, s, X, |s| - 1) + f.charWidth <= x < TouchedEnd(f, s, X)
    ensures !StringPixel(f, s, X, Y, x, y, was)
    decreases s
  {
    hide *;
    FirstChar(f, s, X, Y, x, y, was);
    if |s| > 1 {
      LaterEnd(f, s, X);
      StringTail(f, s[1..], X + Advance(f, s[0]), Y, x, y, CharPixel(f, s[0], X, Y, x, y, was));
    } else {
      CharTail(f, s[0], X, Y, x, y, was);
    }
  }

  lemma CharTail(f: Shape, c: char, X: nat, Y: nat, x: nat, y: nat, was: bool)
    requires f.Valid() && c in f.chars && Y <= y < Y + f.charHeight
    requires X + f.charWidth <= x < RoundUp8(X + f.charWidth)
    ensures !CharPixel(f, c, X, Y, x, y, was)
  {
    hide Shape.Glyph;
  }

  /** A printable string never leaves the frame: its last byte ends on the row. */
  lemma {:induction false} StringOnRow(f: Shape, s: string, X: nat, Y: nat)
    requires f.Valid() && Printable(f, s, X, Y) && s != []
    ensures TouchedEnd(f, s, X) <= DEFAULT_PBM_WIDTH && Y + f.charHeight <= LCD_SCREEN_HEIGHT
    decreases s
  {
    hide *;
    if |s| > 1 {
      FirstChar(f, s, X, Y, 0, 0, false);
      LaterEnd(f, s, X);
      StringOnRow(f, s[1..], X + Advance(f, s[0]), Y);
    } else {
      OneOnRow(f, s, X, Y);
    }
  }

  lemma OneOnRow(f: Shape, s: string, X: nat, Y: nat)
    requires f.Valid() && Printable(f, s, X, Y) && |s| == 1
    ensures TouchedEnd(f, s, X) <= DEFAULT_PBM_WIDTH && Y + f.charHeight <= LCD_SCREEN_HEIGHT
  {
    hide RoundUp8, Advance, Shape.Valid, Fits;
    CharOnRow(f, X, Y);
  }

  lemma CharOnRow(f: Shape, X: nat, Y: nat)
    requires Fits(f, X, Y)
    ensures RoundUp8(X + f.charWidth) <= DEFAULT_PBM_WIDTH && Y + f.charHeight <= LCD_SCREEN_HEIGHT
  {
  }

  lemma {:induction false} StartIsAdvance(f: Shape, s: string, X: nat)
    requires f.Valid()
    ensures Start(f, s, X, |s|) == X + TotalAdvance(f, s)
    decreases s
  {
    hide Shape.Valid;
    if s != [] {
      AdvanceRange(f, s[0]);
      StartIsAdvance(f, s[1..], X + Advance(f, s[0]));
    }
  }

  /** A string is printed whole exactly if its characters are known and the last one fits where it comes. */
  lemma {:induction false} PrintableExactly(f: Shape, s: string, X: nat, Y: nat)
    requires f.Valid() && s != []
    ensures Printable(f, s, X, Y) <==>
            (forall c | c in s :: c in f.chars) && Fits(f, Start(f, s, X, |s| - 1), Y)
    decreases s
  {
    hide Shape.Valid;
    AdvanceRange(f, s[0]);
    if |s| == 1 {
      assert s[1..] == [];
    } else {
      StartGrows(f, s, X, |s| - 1);
      PrintableExactly(f, s[1..], X + Advance(f, s[0]), Y);
      assert s == [s[0]] + s[1..];
    }
  }

  lemma {:induction false} LastStart(f: Shape, s: string, X: nat)
    requires f.Valid() && s != []
    ensures Start(f, s, X, |s| - 1) == X + TotalAdvance(f, s) - Advance(f, s[|s| - 1])
    decreases s
  {
    hide Shape.Valid;
    AdvanceRange(f, s[0]);
    if |s| == 1 {
      assert TotalAdvance(f, s[1..]) == 0;
    } else {
      LastStart(f, s[1..], X + Advance(f, s[0]));
    }
  }

  /** The advance the centering assumes is the one of the printing loop. A text that is not wider than the
      screen is printed whole, from its centered position, exactly if its characters are known and the last
      one leaves room for its whole cell; its margins then differ by at most one pixel. */
  lemma {:induction false} CenteredMargins(f: Shape, s: string)
    requires f.Valid() && s != [] && TotalAdvance(f, s) <= LCD_SCREEN_WIDTH
    ensures var X, Y, last := CenteredX(f, s), CenteredY(f), Advance(f, s[|s| - 1]);
      Printable(f, s, X, Y) <==>
      (forall c | c in s :: c in f.chars)
      && (LCD_SCREEN_WIDTH - TotalAdvance(f, s)) / 2 + TotalAdvance(f, s) - last < LCD_SCREEN_WIDTH - f.charWidth
    ensures var left := CenteredX(f, s); var right := LCD_SCREEN_WIDTH - Start(f, s, left, |s|);
      Printable(f, s, left, CenteredY(f)) ==> left <= right <= left + 1
  {
    var X := CenteredX(f, s);
    CenteredRange(f, s);
    hide Shape.Valid, Start, Printable, CenteredX, CenteredY, TotalAdvance, Advance;
    PrintableExactly(f, s, X, CenteredY(f));
    LastStart(f, s, X);
    StartIsAdvance(f, s, X);
  }

  /** Centered text is as far from the top of the screen as from its bottom, but for one line. */
  lemma VerticalMargins(f: Shape)
    requires f.Valid()
    ensures var top := CenteredY(f); var bottom := LCD_SCREEN_HEIGHT - (top + f.charHeight);
      top <= bottom <= top + 1
  {
  }

  lemma {:induction false} CenteredRange(f: Shape, s: string)
    requires f.Valid() && TotalAdvance(f, s) <= LCD_SCREEN_WIDTH
    ensures CenteredX(f, s) == (LCD_SCREEN_WIDTH - TotalAdvance(f, s)) / 2
    ensures CenteredY(f) < LCD_SCREEN_HEIGHT - f.charHeight
  {
    StartIsAdvance(f, s, 0);
    hide Shape.Valid, Start, TotalAdvance;
    assert U16(LCD_SCREEN_WIDTH - TotalAdvance(f, s)) == LCD_SCREEN_WIDTH - TotalAdvance(f, s);
  }

  /** Characters five pixels wide, on a blank bitmap. */
  function NarrowFont(): Shape {
    Shape(seq(960, _ => 0), 160, 48, 5, 10, 0, 0, map['a' := (0, 0)])
  }

  function Repeated(c: char, n: nat): string {
    if n == 0 then [] else [c] + Repeated(c, n - 1)
  }

  lemma {:induction false} RepeatedAdvance(f: Shape, c: char, n: nat)
    ensures TotalAdvance(f, Repeated(c, n)) == n * Advance(f, c) && |Repeated(c, n)| == n
    ensures n > 0 ==> Repeated(c, n)[n - 1] == c
  {
    hide Advance;
    if n > 0 {
      RepeatedAdvance(f, c, n - 1);
      assert Repeated(c, n)[1..] == Repeated(c, n - 1);
    }
  }

  /** So a text as wide as the screen loses its last character: thirty-two characters of five pixels. */
  lemma ExactWidthIsCut()
    ensures var f, s := NarrowFont(), Repeated('a', 32);
      f.Valid() && TotalAdvance(f, s) == LCD_SCREEN_WIDTH && CenteredX(f, s) == 0
      && !Printable(f, s, CenteredX(f, s), CenteredY(f))
  {
    hide NarrowFont, Repeated, TotalAdvance, Printable, Shape.Valid, CenteredX, CenteredY, Advance, Start;
    NarrowFacts();
    RepeatedAdvance(NarrowFont(), 'a', 32);
    CenteredRange(NarrowFont(), Repeated('a', 32));
    CenteredMargins(NarrowFont(), Repeated('a', 32));
  }

  lemma NarrowFacts()
    ensures NarrowFont().Valid() && NarrowFont().charWidth == 5 && Advance(NarrowFont(), 'a') == 5
  {
    assert NarrowFont().chars.Keys == {'a'};
  }

  /** The centered position of a wider text wraps around: exactly how far it may be over the width of the
      screen, counted in 16 bits, before it is printed again. */
  lemma {:induction false} TooWideIsNotPrinted(f: Shape, s: string, Y: nat)
    requires f.Valid() && LCD_SCREEN_WIDTH < TotalAdvance(f, s)
    ensures var over := (TotalAdvance(f, s) - LCD_SCREEN_WIDTH - 1) % 0x1_0000;
      PrintedPart(f, s, CenteredX(f, s), Y) == [] <==>
      s[0] !in f.chars || Y >= LCD_SCREEN_HEIGHT - f.charHeight
      || over < 0x1_0000 - 2 * (LCD_SCREEN_WIDTH - f.charWidth)
  {
    WrappedX(f, TotalAdvance(f, s));
    hide TotalAdvance, U16;
  }

  /** Half of a negative width, in 16 bits. */
  lemma WrappedX(f: Shape, t: int)
    requires f.Valid() && LCD_SCREEN_WIDTH < t
    ensures U16(LCD_SCREEN_WIDTH - t) / 2 < LCD_SCREEN_WIDTH - f.charWidth <==>
            (t - LCD_SCREEN_WIDTH - 1) % 0x1_0000 >= 0x1_0000 - 2 * (LCD_SCREEN_WIDTH - f.charWidth)
  {
    hide Shape.Valid;
    var over := t - LCD_SCREEN_WIDTH - 1;
    assert U16(LCD_SCREEN_WIDTH - t) == 0xFFFF - over % 0x1_0000;
  }

  // ----- the fonts of the program -----

  /** The default characters lie in columns 0 to 25 and rows 0 to 2. */
  predicate DefaultCells(chars: map<char, (nat, nat)>) {
    forall c | c in chars :: chars[c].0 < 26 && chars[c].1 < 3
  }

  /** The three fonts, for any bitmap of the size they announce. */
  /** From the start of a character to the next one: the cell for the two smaller fonts; in the larger one the
      glyphs overlap, less those of five wide characters. */
  lemma ProgramAdvances(data: seq<bv8>, chars: map<char, (nat, nat)>, c: char)
    ensures Advance(Shape(data, 160, 48, 5, 10, 0, 0, chars), c) == 5
    ensures Advance(Shape(data, 160, 48, 6, 10, 0, 0, chars), c) == 6
    ensures Advance(Shape(data, 416, 64, 16, 16, 3, 2, chars), c) ==
            if c == 'm' || c == 'G' || c == 'M' || c == 'W' || c == '%' then 13 else 11
  {
    assert "mGMW%" == ['m', 'G', 'M', 'W', '%'];
  }

  lemma ProgramFonts(data: seq<bv8>, chars: map<char, (nat, nat)>)
    requires DefaultCells(chars)
    ensures |data| == 960 ==> Shape(data, 160, 48, 5, 10, 0, 0, chars).Valid()
    ensures |data| == 960 ==> Shape(data, 160, 48, 6, 10, 0, 0, chars).Valid()
    ensures |data| == 3328 ==> Shape(data, 416, 64, 16, 16, 3, 2, chars).Valid()
  {
  }
}
