/** Bytes as rows of eight pixels, the leftmost one in the most significant bit. */
module Bits {

  /** The `k`-th pixel of a byte, from the left. */
  predicate Bit(b: bv8, k: nat)
    requires k < 8
  {
    b & (if k == 0 then 0x80 else if k == 1 then 0x40 else if k == 2 then 0x20 else if k == 3 then 0x10
         else if k == 4 then 0x08 else if k == 5 then 0x04 else if k == 6 then 0x02 else 0x01) != 0
  }

  /** Shifts of a byte by an amount known only at run time; what leaves the byte is lost. */
  function Shl(b: bv8, n: nat): bv8
    decreases n
  {
    if n == 0 then b else Shl(b << 1, n - 1)
  }

  function Shr(b: bv8, n: nat): bv8
    decreases n
  {
    if n == 0 then b else Shr(b >> 1, n - 1)
  }

  /** Only the pixels left of the last `n`. */
  function Mask(b: bv8, n: nat): bv8 {
    b & Shl(0xFF, n)
  }

  lemma OneLeft(b: bv8, k: nat)
    requires k < 8
    ensures Bit(b << 1, k) <==> k < 7 && Bit(b, k + 1)
  {
  }

  lemma OneRight(b: bv8, k: nat)
    requires k < 8
    ensures Bit(b >> 1, k) <==> k > 0 && Bit(b, k - 1)
  {
  }

  lemma {:induction false} ShiftLeft(b: bv8, n: nat, k: nat)
    requires k < 8
    ensures Bit(Shl(b, n), k) <==> k + n < 8 && Bit(b, k + n)
    decreases n
  {
    hide Bit;
    if n > 0 {
      ShiftLeft(b << 1, n - 1, k);
      if k + n - 1 < 8 {
        OneLeft(b, k + n - 1);
      }
    }
  }

  lemma {:induction false} ShiftRight(b: bv8, n: nat, k: nat)
    requires k < 8
    ensures Bit(Shr(b, n), k) <==> n <= k && Bit(b, k - n)
    decreases n
  {
    hide Bit;
    if n > 0 {
      ShiftRight(b >> 1, n - 1, k);
      if n - 1 <= k {
        OneRight(b, k - (n - 1));
      }
    }
  }

  /** The pixels of either byte. */
  function Merge(a: bv8, b: bv8): bv8 {
    a | b
  }

  lemma Or(a: bv8, b: bv8, k: nat)
    requires k < 8
    ensures Bit(Merge(a, b), k) <==> Bit(a, k) || Bit(b, k)
  {
  }

  lemma And(a: bv8, b: bv8, k: nat)
    requires k < 8
    ensures Bit(a & b, k) <==> Bit(a, k) && Bit(b, k)
  {
  }

  lemma Full(k: nat)
    requires k < 8
    ensures Bit(0xFF, k)
  {
  }

  lemma KeepLeft(b: bv8, n: nat, k: nat)
    requires k < 8
    ensures Bit(Mask(b, n), k) <==> k + n < 8 && Bit(b, k)
  {
    hide Bit;
    And(b, Shl(0xFF, n), k);
    ShiftLeft(0xFF, n, k);
    if k + n < 8 {
      Full(k + n);
    }
  }

  /** A byte is its eight pixels. */
  lemma SameBits(a: bv8, b: bv8)
    requires forall k: nat :: k < 8 ==> Bit(a, k) == Bit(b, k)
    ensures a == b
  {
    assert Bit(a, 0) == Bit(b, 0) && Bit(a, 1) == Bit(b, 1) && Bit(a, 2) == Bit(b, 2) && Bit(a, 3) == Bit(b, 3);
    assert Bit(a, 4) == Bit(b, 4) && Bit(a, 5) == Bit(b, 5) && Bit(a, 6) == Bit(b, 6) && Bit(a, 7) == Bit(b, 7);
  }

  /** What is left of a byte when glyph line `c`, `s` pixels wide and right-aligned, is drawn from
      pixel `from` on: the pixels before stay, the pixels after the glyph are cleared. */
  function BlitFirst(old0: bv8, c: bv8, s: nat, from: nat): bv8
    requires 0 < s <= 8 && from < 8
  {
    if s + from > 8 then Merge(Mask(old0, 8 - from), Shr(c, s + from - 8))
    else Merge(Mask(old0, 8 - from), Shl(c, 8 - s - from))
  }

  /** The next byte, when the glyph reaches it: its last pixels, then nothing. */
  function BlitSecond(c: bv8, s: nat, from: nat): bv8
    requires s <= 8 && from < 8 && s + from > 8
  {
    Shl(c, 16 - s - from)
  }

  /** The glyph line has nothing left of its `s` pixels. */
  predicate RightAligned(c: bv8, s: nat)
    requires s <= 8
  {
    forall k: nat :: k < 8 - s ==> !Bit(c, k)
  }

  lemma BlitFirstBits(old0: bv8, c: bv8, s: nat, from: nat, k: nat)
    requires 0 < s <= 8 && from < 8 && k < 8 && RightAligned(c, s)
    ensures Bit(BlitFirst(old0, c, s, from), k) ==
            if k < from then Bit(old0, k) else k - from < s && Bit(c, 8 - s + k - from)
  {
    hide Bit, Mask, Shl, Shr, Merge;
    KeepLeft(old0, 8 - from, k);
    if s + from > 8 {
      ShiftRight(c, s + from - 8, k);
      Or(Mask(old0, 8 - from), Shr(c, s + from - 8), k);
    } else {
      ShiftLeft(c, 8 - s - from, k);
      Or(Mask(old0, 8 - from), Shl(c, 8 - s - from), k);
    }
  }

  lemma BlitSecondBits(c: bv8, s: nat, from: nat, k: nat)
    requires s <= 8 && from < 8 && s + from > 8 && k < 8
    ensures Bit(BlitSecond(c, s, from), k) == (8 - from + k < s && Bit(c, 8 - s + (8 - from + k)))
  {
    hide Bit, Shl;
    ShiftLeft(c, 16 - s - from, k);
  }
}
