/**
  The input of the inflater seen as a stream of bits.

  Bytes are read from the least significant bit up (section 3.1.1 of RFC 1951). Numbers
  other than Huffman codes are packed starting from their least significant bit (`Field`);
  Huffman codes are packed starting from their most significant bit (`CodeBits`).
 */
module BitStream {
  import opened Basics

  type uint8 = b: int | 0 <= b < 256
  type bit = b: int | 0 <= b < 2

  function Pow2(n: nat): (r: nat)
    ensures r > 0
  {
    if n == 0 then 1 else 2 * Pow2(n - 1)
  }

  lemma Pow2Small()
    ensures Pow2(0) == 1 && Pow2(1) == 2 && Pow2(2) == 4 && Pow2(3) == 8
    ensures Pow2(4) == 16 && Pow2(5) == 32 && Pow2(6) == 64 && Pow2(7) == 128
    ensures Pow2(8) == 256 && Pow2(15) == 32768
  {
    assert Pow2(2) == 4;
    assert Pow2(4) == 2 * Pow2(3) == 4 * Pow2(2);
    assert Pow2(6) == 2 * Pow2(5) == 4 * Pow2(4);
    assert Pow2(8) == 2 * Pow2(7) == 4 * Pow2(6);
    assert Pow2(10) == 2 * Pow2(9) == 4 * Pow2(8);
    assert Pow2(12) == 2 * Pow2(11) == 4 * Pow2(10);
    assert Pow2(14) == 2 * Pow2(13) == 4 * Pow2(12);
  }

  /** The low `n` bits of `x`, least significant first. */
  function LowBits(x: nat, n: nat): (bs: seq<bit>)
    ensures |bs| == n
  {
    if n == 0 then [] else [x % 2] + LowBits(x / 2, n - 1)
  }

  function StreamOf(input: seq<uint8>): (bs: seq<bit>)
    ensures |bs| == 8 * |input|
  {
    if input == [] then [] else LowBits(input[0], 8) + StreamOf(input[1..])
  }

  /** The value of a bit string whose first bit is the least significant one. */
  function Value(bs: seq<bit>): (v: nat)
  {
    if bs == [] then 0 else bs[0] + 2 * Value(bs[1..])
  }

  /** The value of a bit string whose first bit is the most significant one. */
  function CodeValue(bs: seq<bit>): (v: nat)
  {
    if bs == [] then 0 else 2 * CodeValue(bs[..|bs| - 1]) + bs[|bs| - 1]
  }

  /** The `n`-bit number at position `p`, least significant bit first. */
  function Field(bs: seq<bit>, p: nat, n: nat): nat
    requires p + n <= |bs|
  {
    Value(bs[p..p + n])
  }

  /** The `n`-bit Huffman code at position `p`, most significant bit first. */
  function CodeBits(bs: seq<bit>, p: nat, n: nat): nat
    requires p + n <= |bs|
  {
    CodeValue(bs[p..p + n])
  }

  lemma {:induction false} ValueBound(bs: seq<bit>)
    ensures Value(bs) < Pow2(|bs|)
  {
    if bs != [] {
      ValueBound(bs[1..]);
    }
  }

  lemma {:induction false} CodeValueBound(bs: seq<bit>)
    ensures CodeValue(bs) < Pow2(|bs|)
  {
    if bs != [] {
      CodeValueBound(bs[..|bs| - 1]);
    }
  }

  lemma MulAssoc(a: int, b: int, c: int)
    ensures (a * b) * c == a * (b * c)
  {
  }

  lemma {:induction false} ValueConcat(a: seq<bit>, b: seq<bit>)
    ensures Value(a + b) == Value(a) + Pow2(|a|) * Value(b)
  {
    if a == [] {
      assert a + b == b;
    } else {
      ValueConcat(a[1..], b);
      assert (a + b)[1..] == a[1..] + b;
      MulAssoc(2, Pow2(|a| - 1), Value(b));
    }
  }

  lemma {:induction false} ValueOfLowBits(x: nat, n: nat)
    requires x < Pow2(n)
    ensures Value(LowBits(x, n)) == x
  {
    if n > 0 {
      ValueOfLowBits(x / 2, n - 1);
      var bs := LowBits(x, n);
      assert bs[1..] == LowBits(x / 2, n - 1);
    }
  }

  lemma {:induction false} StreamByte(input: seq<uint8>, k: nat)
    requires k < |input|
    ensures StreamOf(input)[8 * k..8 * k + 8] == LowBits(input[k], 8)
  {
    var rest := StreamOf(input[1..]);
    var bs := StreamOf(input);
    assert bs == LowBits(input[0], 8) + rest;
    if k > 0 {
      StreamByte(input[1..], k - 1);
      assert bs[8 * k..8 * k + 8] == rest[8 * (k - 1)..8 * (k - 1) + 8];
    }
  }

  /** Eight bits from a byte boundary are the byte itself. */
  lemma FieldByte(input: seq<uint8>, k: nat)
    requires k < |input|
    ensures Field(StreamOf(input), 8 * k, 8) == input[k]
  {
    StreamByte(input, k);
    Pow2Small();
    ValueOfLowBits(input[k], 8);
  }

  lemma FieldBound(bs: seq<bit>, p: nat, n: nat)
    requires p + n <= |bs|
    ensures Field(bs, p, n) < Pow2(n)
  {
    ValueBound(bs[p..p + n]);
  }

  lemma FieldSplit(bs: seq<bit>, p: nat, a: nat, b: nat)
    requires p + a + b <= |bs|
    ensures Field(bs, p, a + b) == Field(bs, p, a) + Pow2(a) * Field(bs, p + a, b)
  {
    ValueConcat(bs[p..p + a], bs[p + a..p + a + b]);
    assert bs[p..p + a + b] == bs[p..p + a] + bs[p + a..p + a + b];
  }

  lemma FieldFirst(bs: seq<bit>, p: nat, n: nat)
    requires 0 < n && p + n <= |bs|
    ensures Field(bs, p, n) == bs[p] + 2 * Field(bs, p + 1, n - 1)
  {
    assert bs[p..p + n][1..] == bs[p + 1..p + n];
  }

  lemma FieldOne(bs: seq<bit>, p: nat)
    requires p < |bs|
    ensures Field(bs, p, 1) == bs[p]
  {
    FieldFirst(bs, p, 1);
  }

  lemma CodeBitsLast(bs: seq<bit>, p: nat, n: nat)
    requires p + n < |bs|
    ensures CodeBits(bs, p, n + 1) == 2 * CodeBits(bs, p, n) + bs[p + n]
  {
    assert bs[p..p + n + 1][..n] == bs[p..p + n];
  }

  /** Shifting a field down leaves its high part; masking it leaves its low part. */
  lemma FieldShift(bs: seq<bit>, p: nat, a: nat, b: nat)
    requires p + a + b <= |bs|
    ensures Field(bs, p, a + b) / Pow2(a) == Field(bs, p + a, b)
    ensures Field(bs, p, a + b) % Pow2(a) == Field(bs, p, a)
  {
    FieldSplit(bs, p, a, b);
    FieldBound(bs, p, a);
    DivModUnique(Field(bs, p, a + b), Field(bs, p + a, b), Field(bs, p, a), Pow2(a));
  }
}
