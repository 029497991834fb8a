/**
  The tables of the deflate format by the rules behind them: how lengths and distances go on from
  symbol to symbol, which codes the fixed code has, and in which order code lengths are sent.
  Nothing here looks at a table but to prove that it says the same.
 */
module DeflateTables {
  import opened BitStream
  import opened Huffman
  import opened InflateFormat

  // ---------------------------------------------------------------------------------------
  // Lengths and distances (section 3.2.5)
  // ---------------------------------------------------------------------------------------

  /** Eight symbols for one length each; then four symbols for every number of extra bits; then the longest. */
  function LengthBits(i: nat): nat {
    if i < 8 || i == 28 then 0 else i / 4 - 1
  }

  function FirstLength(i: nat): nat {
    if i < 8 then 3 + i else if i == 28 then 258 else 3 + (4 + i % 4) * Pow2(i / 4 - 1)
  }

  /** Four symbols for one distance each; then two symbols for every number of extra bits. */
  function DistanceBits(i: nat): nat {
    if i < 4 then 0 else i / 2 - 1
  }

  function FirstDistance(i: nat): nat {
    if i < 4 then 1 + i else 1 + (2 + i % 2) * Pow2(i / 2 - 1)
  }

  lemma Pow2Table(n: nat)
    requires n <= 13
    ensures Pow2(n) == [1, 2, 4, 8, 16, 32, 64, 128, 256, 512, 1024, 2048, 4096, 8192][n]
  {
    if n > 0 {
      Pow2Table(n - 1);
    }
  }

  lemma LengthTable(i: nat)
    requires i < 29
    ensures LengthBase(i) == FirstLength(i) && LengthExtra(i) == LengthBits(i)
  {
    hide Pow2, LengthBase, LengthExtra;
    if 8 <= i < 28 {
      FourLengths(i / 4);
      assert i == 4 * (i / 4) + i % 4;
    } else {
      OneLength(i);
    }
  }

  lemma OneLength(i: nat)
    requires i < 8 || i == 28
    ensures LengthBase(i) == (if i < 8 then 3 + i else 258) && LengthExtra(i) == 0
  {
  }

  lemma FourLengths(q: nat)
    requires 2 <= q < 7
    ensures LengthExtra(4 * q) == LengthExtra(4 * q + 1) == LengthExtra(4 * q + 2) == LengthExtra(4 * q + 3) == q - 1
    ensures LengthBase(4 * q) == 3 + 4 * Pow2(q - 1) && LengthBase(4 * q + 1) == 3 + 5 * Pow2(q - 1)
    ensures LengthBase(4 * q + 2) == 3 + 6 * Pow2(q - 1) && LengthBase(4 * q + 3) == 3 + 7 * Pow2(q - 1)
  {
    hide Pow2, LengthBase, LengthExtra;
    FourExtra(q);
    FourBase(q);
    Pow2Table(q - 1);
  }

  lemma FourExtra(q: nat)
    requires 2 <= q < 7
    ensures LengthExtra(4 * q) == LengthExtra(4 * q + 1) == LengthExtra(4 * q + 2) == LengthExtra(4 * q + 3) == q - 1
  {
    assert q == 2 || q == 3 || q == 4 || q == 5 || q == 6;
  }

  lemma FourBase(q: nat)
    requires 2 <= q < 7
    ensures
      var n := [2, 4, 8, 16, 32][q - 2];
      && LengthBase(4 * q) == 3 + 4 * n && LengthBase(4 * q + 1) == 3 + 5 * n
      && LengthBase(4 * q + 2) == 3 + 6 * n && LengthBase(4 * q + 3) == 3 + 7 * n
  {
    assert q == 2 || q == 3 || q == 4 || q == 5 || q == 6;
  }

  lemma DistanceTable(i: nat)
    requires i < 30
    ensures DistBase(i) == FirstDistance(i) && DistExtra(i) == DistanceBits(i)
  {
    hide Pow2, DistBase, DistExtra;
    if 4 <= i {
      TwoDistances(i / 2);
      assert i == 2 * (i / 2) + i % 2;
    } else {
      OneDistance(i);
    }
  }

  lemma OneDistance(i: nat)
    requires i < 4
    ensures DistBase(i) == 1 + i && DistExtra(i) == 0
  {
  }

  lemma TwoDistances(q: nat)
    requires 2 <= q < 15
    ensures DistExtra(2 * q) == DistExtra(2 * q + 1) == q - 1
    ensures DistBase(2 * q) == 1 + 2 * Pow2(q - 1) && DistBase(2 * q + 1) == 1 + 3 * Pow2(q - 1)
  {
    hide Pow2, DistBase, DistExtra;
    TwoExtra(q);
    TwoBase(q);
    Pow2Table(q - 1);
  }

  lemma TwoExtra(q: nat)
    requires 2 <= q < 15
    ensures DistExtra(2 * q) == DistExtra(2 * q + 1) == q - 1
  {
  }

  lemma TwoBase(q: nat)
    requires 2 <= q < 15
    ensures
      var n := [2, 4, 8, 16, 32, 64, 128, 256, 512, 1024, 2048, 4096, 8192][q - 2];
      DistBase(2 * q) == 1 + 2 * n && DistBase(2 * q + 1) == 1 + 3 * n
  {
  }

  lemma Pow2Next(n: nat)
    ensures Pow2(n + 1) == 2 * Pow2(n) && Pow2(0) == 1
  {
  }

  /** The lengths of a symbol end where those of the next one begin. */
  lemma LengthsFollow(i: nat)
    requires i < 27
    ensures FirstLength(i + 1) == FirstLength(i) + Pow2(LengthBits(i))
  {
    hide Pow2;
    Pow2Next(0);
    if i >= 8 {
      var q, r := i / 4, i % 4;
      assert i == 4 * q + r;
      Pow2Next(q - 1);
      assert (i + 1) / 4 == if r < 3 then q else q + 1;
    }
  }

  lemma DistancesFollow(i: nat)
    requires i < 29
    ensures FirstDistance(i + 1) == FirstDistance(i) + Pow2(DistanceBits(i))
  {
    hide Pow2;
    Pow2Next(0);
    if i >= 4 {
      var q, r := i / 2, i % 2;
      assert i == 2 * q + r;
      Pow2Next(q - 1);
      assert (i + 1) / 2 == if r < 1 then q else q + 1;
    }
  }

  /** Every length from 3 to 258 has a symbol, and a number that refines it. */
  lemma LengthCoded(len: nat) returns (i: nat, extra: nat)
    requires 3 <= len <= 258
    ensures i < 29 && extra < Pow2(LengthBits(i)) && FirstLength(i) + extra == len
  {
    if len == 258 {
      return 28, 0;
    }
    Pow2Table(5);
    i := LengthFrom(len, 27);
    extra := len - FirstLength(i);
  }

  lemma {:induction false} LengthFrom(len: nat, i: nat) returns (j: nat)
    requires i < 28 && 3 <= len < FirstLength(i) + Pow2(LengthBits(i))
    ensures j <= i && FirstLength(j) <= len < FirstLength(j) + Pow2(LengthBits(j))
  {
    if len >= FirstLength(i) {
      return i;
    }
    LengthsFollow(i - 1);
    j := LengthFrom(len, i - 1);
  }

  /** Every distance from 1 to 32768 has a symbol, and a number that refines it. */
  lemma DistanceCoded(dist: nat) returns (i: nat, extra: nat)
    requires 1 <= dist <= 32768
    ensures i < 30 && extra < Pow2(DistanceBits(i)) && FirstDistance(i) + extra == dist
  {
    Pow2Table(13);
    i := DistanceFrom(dist, 29);
    extra := dist - FirstDistance(i);
  }

  lemma {:induction false} DistanceFrom(dist: nat, i: nat) returns (j: nat)
    requires i < 30 && 1 <= dist < FirstDistance(i) + Pow2(DistanceBits(i))
    ensures j <= i && FirstDistance(j) <= dist < FirstDistance(j) + Pow2(DistanceBits(j))
  {
    if dist >= FirstDistance(i) {
      return i;
    }
    DistancesFollow(i - 1);
    j := DistanceFrom(dist, i - 1);
  }

  // ---------------------------------------------------------------------------------------
  // The fixed codes (section 3.2.6)
  // ---------------------------------------------------------------------------------------

  /** How many of the first `s` symbols have a length. */
  function FixedCount(s: nat, l: nat): nat {
    if l == 8 then (if s <= 144 then s else if s <= 280 then 144 else s - 136)
    else if l == 9 then (if s <= 144 then 0 else if s <= 256 then s - 144 else 112)
    else if l == 7 then (if s <= 256 then 0 else if s <= 280 then s - 256 else 24)
    else 0
  }

  lemma {:induction false} CountFixed(s: nat, l: nat)
    requires s <= FIXLCODES
    ensures Count(FixedLitLengths()[..s], l) == FixedCount(s, l)
  {
    if s > 0 {
      CountFixed(s - 1, l);
      assert FixedLitLengths()[..s][..s - 1] == FixedLitLengths()[..s - 1];
    }
  }

  lemma {:induction false} NoneShorter(l: nat)
    requires l <= 7
    ensures NextCode(FixedLitLengths(), l) == 0
  {
    hide Count, FixedLitLengths;
    if l > 0 {
      NoneShorter(l - 1);
      CountFixed(FIXLCODES, l - 1);
      assert FixedLitLengths()[..FIXLCODES] == FixedLitLengths();
    }
  }

  lemma NextFixed()
    ensures NextCode(FixedLitLengths(), 7) == 0
    ensures NextCode(FixedLitLengths(), 8) == 0x30
    ensures NextCode(FixedLitLengths(), 9) == 0x190
  {
    hide Count, FixedLitLengths;
    NoneShorter(7);
    CountFixed(FIXLCODES, 7);
    CountFixed(FIXLCODES, 8);
    assert FixedLitLengths()[..FIXLCODES] == FixedLitLengths();
  }

  /** The four ranges of literal and length symbols, with their codes and their numbers of bits. */
  lemma FixedCodes(s: nat)
    requires s < FIXLCODES
    ensures
      var (bits, code) :=
        if s < 144 then (8, 0x30 + s) else if s < 256 then (9, 0x190 + (s - 144))
        else if s < 280 then (7, s - 256) else (8, 0xC0 + (s - 280));
      FixedLitLengths()[s] == bits && Code(FixedLitLengths(), s) == code
  {
    hide Count, NextCode;
    NextFixed();
    CountFixed(s, FixedLitLengths()[s]);
  }

  /** The distance symbols, five bits each. */
  lemma FixedDistanceCodes(s: nat)
    requires s < MAXDCODES
    ensures FixedDistLengths()[s] == 5 && Code(FixedDistLengths(), s) == s
  {
    hide Count, NextCode;
    NoneOfFewer(5);
    CountFives(s, 5);
  }

  lemma {:induction false} CountFives(s: nat, l: nat)
    requires s <= MAXDCODES
    ensures Count(FixedDistLengths()[..s], l) == if l == 5 then s else 0
  {
    if s > 0 {
      CountFives(s - 1, l);
      assert FixedDistLengths()[..s][..s - 1] == FixedDistLengths()[..s - 1];
    }
  }

  lemma {:induction false} NoneOfFewer(l: nat)
    requires l <= 5
    ensures NextCode(FixedDistLengths(), l) == 0
  {
    hide Count, FixedDistLengths;
    if l > 0 {
      NoneOfFewer(l - 1);
      DistanceCodes();
      CountFives(MAXDCODES, l - 1);
      assert FixedDistLengths()[..MAXDCODES] == FixedDistLengths();
    }
  }

  lemma DistanceCodes()
    ensures |FixedDistLengths()| == MAXDCODES
  {
  }

  // ---------------------------------------------------------------------------------------
  // The order of code lengths (section 3.2.7)
  // ---------------------------------------------------------------------------------------

  /** First the repeats, then no code, then the lengths from the middle outwards. */
  function Sent(i: nat): (s: nat)
    requires i < 19
    ensures s < 19
  {
    if i < 3 then 16 + i else if i == 3 then 0 else if i % 2 == 0 then 8 + (i - 4) / 2 else 7 - (i - 5) / 2
  }

  lemma OrderTable(i: nat)
    requires i < 19
    ensures OrderAt(i) == Sent(i)
  {
  }
}
